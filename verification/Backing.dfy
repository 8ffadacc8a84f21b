/** Which physical pages stand behind which process. */
module Backing {
  import opened Processes
  import opened Pmm

  datatype Ram = Ram(base: nat, used: seq<bool>)

  /** Index of the page at address pa. */
  function PageOf(ram: Ram, pa: nat): int {
    (pa - ram.base) / PAGE
  }

  /** pa is an aligned 2 MiB region of RAM, above the reserved low region, all of it marked used. */
  predicate Backed(ram: Ram, pa: nat) {
    var n := PageOf(ram, pa);
    && pa == ram.base + n * PAGE && n % RUN == 0 && RUN <= n && n + RUN <= |ram.used|
    && forall k :: n <= k < n + RUN ==> ram.used[k]
  }

  predicate LowReserved(ram: Ram) {
    forall k :: 0 <= k < RUN && k < |ram.used| ==> ram.used[k]
  }

  /** The identity-mapped region of the first process is never handed out. */
  predicate UserReserved(ram: Ram) {
    forall k :: 0 <= k < |ram.used| && Touches(ram.base, k, USER_REGION_BASE, USER_REGION_BASE + USER_REGION_SIZE) ==>
      ram.used[k]
  }

  /** Live processes have their own regions: the boot region, or a backed one. */
  predicate BackingOk(procs: seq<Proc>, ram: Ram) {
    && ram.base % REGION == 0 && LowReserved(ram) && UserReserved(ram)
    && (forall i :: 0 <= i < |procs| && Live(procs[i]) && procs[i].userPa != USER_REGION_BASE ==>
        Backed(ram, procs[i].userPa))
    && (forall i, j :: 0 <= i < j < |procs| && Live(procs[i]) && Live(procs[j]) ==> procs[i].userPa != procs[j].userPa)
  }

  /** Distinct regions do not share a byte. */
  lemma RegionsDisjoint(procs: seq<Proc>, ram: Ram, i: nat, j: nat)
    requires BackingOk(procs, ram) && i < |procs| && j < |procs| && i != j && Live(procs[i]) && Live(procs[j])
    ensures procs[i].userPa + REGION <= procs[j].userPa || procs[j].userPa + REGION <= procs[i].userPa
  {
    BackedAligned(ram, procs[i].userPa);
    BackedAligned(ram, procs[j].userPa);
    var a, b := procs[i].userPa / REGION, procs[j].userPa / REGION;
    assert procs[i].userPa == a * REGION && procs[j].userPa == b * REGION && a != b;
  }

  lemma BackedAligned(ram: Ram, pa: nat)
    requires ram.base % REGION == 0 && (pa == USER_REGION_BASE || Backed(ram, pa))
    ensures pa % REGION == 0
  {
    if Backed(ram, pa) {
      var n := PageOf(ram, pa);
      var m, b := n / RUN, ram.base / REGION;
      assert n == RUN * m && ram.base == REGION * b;
      WholeRegions(b, m, pa);
    }
  }

  lemma BackedHigh(ram: Ram, pa: nat)
    requires Backed(ram, pa)
    ensures pa >= REGION
  {
  }

  lemma WholeRegions(b: int, m: int, pa: int)
    requires pa == REGION * b + RUN * m * PAGE
    ensures pa % REGION == 0
  {
    assert pa == REGION * (b + m);
  }

  /** A run of free pages is a region nobody lives in. */
  lemma FreshRegion(procs: seq<Proc>, ram: Ram, n: nat)
    requires BackingOk(procs, ram) && AlignedRun(ram.used, n)
    ensures var pa := ram.base + n * PAGE;
            var ram' := ram.(used := SetRange(ram.used, n, n + RUN, true));
            && pa > 0 && pa % REGION == 0 && pa != USER_REGION_BASE && Backed(ram', pa) && BackingOk(procs, ram')
            && Unowned(procs, pa)
  {
    var pa := ram.base + n * PAGE;
    var ram' := ram.(used := SetRange(ram.used, n, n + RUN, true));
    assert !ram.used[n];
    assert n >= RUN;
    assert PageOf(ram, pa) == n;
    BackedAligned(ram', pa);
    forall i | 0 <= i < |procs| && Live(procs[i]) && procs[i].userPa != USER_REGION_BASE
      ensures Backed(ram', procs[i].userPa) && procs[i].userPa != pa
    {
      assert Backed(ram, procs[i].userPa);
    }
    assert !Touches(ram.base, n, USER_REGION_BASE, USER_REGION_BASE + USER_REGION_SIZE);
  }

  /** Marking more pages used harms nobody. */
  lemma MoreUsedIsFine(procs: seq<Proc>, ram: Ram, used': seq<bool>)
    requires BackingOk(procs, ram) && |used'| == |ram.used|
    requires forall k :: 0 <= k < |ram.used| && ram.used[k] ==> used'[k]
    ensures BackingOk(procs, ram.(used := used'))
  {
  }

  /** No live process stands in the region at pa. */
  predicate Unowned(procs: seq<Proc>, pa: nat) {
    forall i :: 0 <= i < |procs| && Live(procs[i]) ==> procs[i].userPa != pa
  }

  /** Giving back a region nobody lives in leaves everybody's alone. */
  lemma FreeingUnowned(procs: seq<Proc>, ram: Ram, pa: nat)
    requires BackingOk(procs, ram) && Backed(ram, pa) && pa != USER_REGION_BASE && Unowned(procs, pa)
    ensures pa % REGION == 0 && pa > 0
    ensures BackingOk(procs, ram.(used := RegionFreed(ram.base, ram.used, pa)))
  {
    var n := PageOf(ram, pa);
    var ram' := ram.(used := RegionFreed(ram.base, ram.used, pa));
    BackedAligned(ram, pa);
    assert forall k :: 0 <= k < |ram.used| ==> ram'.used[k] == (ram.used[k] && !(n <= k < n + RUN));
    forall i | 0 <= i < |procs| && Live(procs[i]) && procs[i].userPa != USER_REGION_BASE
      ensures Backed(ram', procs[i].userPa)
    {
      var m := PageOf(ram, procs[i].userPa);
      assert Backed(ram, procs[i].userPa) && PageOf(ram', procs[i].userPa) == m;
      RunsApart(m, n);
    }
    forall k | 0 <= k < |ram.used| && Touches(ram.base, k, USER_REGION_BASE, USER_REGION_BASE + USER_REGION_SIZE)
      ensures ram'.used[k]
    {
      AlignedApart(pa, USER_REGION_BASE);
    }
  }

  /** Reaping frees the region of the process that is gone, unless it is the boot region. */
  function AfterReap(base: nat, used: seq<bool>, pa: nat): (r: seq<bool>)
    ensures |r| == |used|
  {
    if pa == 0 || pa == USER_REGION_BASE then used else RegionFreed(base, used, pa)
  }

  /** pmm_alloc_page, on the pages alone. */
  function TakePage(used: seq<bool>): (r: seq<bool>)
    ensures |r| == |used|
  {
    var i := FirstFree(used, 0);
    if i < |used| then used[i := true] else used
  }

  /** Three pages for the page tables of a child. */
  function TakeTables(used: seq<bool>): (r: seq<bool>)
    ensures |r| == |used|
  {
    TakePage(TakePage(TakePage(used)))
  }

  /** The region sys_clone gives a child, or 0, and the pages used afterwards.  A child that gets no
      tables gives its region back, but not the table pages. */
  function ChildBacking(base: nat, used: seq<bool>, mmuReady: bool): (r: (nat, seq<bool>))
  {
    var i := FirstRun(used, 0);
    if i + RUN > |used| then (0, used)
    else
      var pa, taken := base + i * PAGE, SetRange(used, i, i + RUN, true);
      var tabled := if mmuReady then TakeTables(taken) else taken;
      if mmuReady && CountFree(taken) >= 3 then (pa, tabled) else (0, RegionFreed(base, tabled, pa))
  }

  /** Pages i..i+RUN are used. */
  predicate RunTaken(used: seq<bool>, i: nat) {
    i + RUN <= |used| && forall k :: i <= k < i + RUN ==> used[k]
  }

  /** One table page more is one page less free once the region is given back. */
  lemma OneTableStays(base: nat, used: seq<bool>, i: nat)
    requires RunTaken(used, i)
    ensures RunTaken(TakePage(used), i)
    ensures var pa := base + i * PAGE;
            var freed, freed' := RegionFreed(base, used, pa), RegionFreed(base, TakePage(used), pa);
            && (forall k :: 0 <= k < |used| && freed[k] ==> freed'[k])
            && CountFree(freed') >= CountFree(freed) - 1
  {
    hide CountFree;
    var pa, a := base + i * PAGE, FirstFree(used, 0);
    if a < |used| {
      var freed, freed' := RegionFreed(base, used, pa), RegionFreed(base, TakePage(used), pa);
      assert freed' == freed[a := true];
      CountFreeSet(freed, a, true);
    }
  }

  lemma RunGivenBack(base: nat, used: seq<bool>, i: nat)
    requires AlignedRun(used, i)
    ensures RunTaken(SetRange(used, i, i + RUN, true), i)
    ensures RegionFreed(base, SetRange(used, i, i + RUN, true), base + i * PAGE) == used
  {
  }

  /** A child that gets no backing costs at most three pages, and none if page tables cannot be made at all. */
  lemma FailedBackingStays(base: nat, used: seq<bool>, mmuReady: bool)
    requires LowReserved(Ram(base, used)) && ChildBacking(base, used, mmuReady).0 == 0
    ensures var used' := ChildBacking(base, used, mmuReady).1;
            && |used'| == |used| && (forall k :: 0 <= k < |used| && used[k] ==> used'[k])
            && CountFree(used') >= CountFree(used) - 3 && (!mmuReady ==> used' == used)
  {
    hide CountFree, RegionFreed, SetRange, TakePage;
    var i := FirstRun(used, 0);
    if i + RUN <= |used| {
      assert !used[i] && i > 0;
      RunGivenBack(base, used, i);
      var u := SetRange(used, i, i + RUN, true);
      OneTableStays(base, u, i);
      OneTableStays(base, TakePage(u), i);
      OneTableStays(base, TakePage(TakePage(u)), i);
    }
  }

  lemma TakePageCosts(used: seq<bool>)
    ensures CountFree(TakePage(used)) == if CountFree(used) > 0 then CountFree(used) - 1 else 0
  {
    hide CountFree;
    var i := FirstFree(used, 0);
    SomeFree(used);
    if i < |used| {
      FreeRunCounts(used, i, i + 1);
      CountFreeSet(used, i, true);
    }
  }

  lemma TablesCost(base: nat, used: seq<bool>, i: nat)
    requires RunTaken(used, i)
    ensures RunTaken(TakeTables(used), i)
    ensures CountFree(TakeTables(used)) == if CountFree(used) > 3 then CountFree(used) - 3 else 0
  {
    hide CountFree, TakePage, RunTaken;
    var one := TakePage(used);
    TakePageCosts(used);
    TakePageCosts(one);
    TakePageCosts(TakePage(one));
    OneTableStays(base, used, i);
    OneTableStays(base, one, i);
    OneTableStays(base, TakePage(one), i);
  }

  lemma LowRunTaken(used: seq<bool>, i: nat)
    requires LowReserved(Ram(0, used)) && AlignedRun(used, i)
    ensures i >= RUN
  {
    assert !used[i];
  }

  /** What a child's backing costs: the region and three pages - or, when pages run out while its tables are made,
      whatever was left. */
  lemma BackingCosts(base: nat, used: seq<bool>, ready: bool)
    requires LowReserved(Ram(base, used))
    ensures var (pa, used') := ChildBacking(base, used, ready);
            var run, c := exists n :: AlignedRun(used, n), CountFree(used);
            && |used'| == |used| && (run ==> c >= RUN) && (pa != 0 <==> run && ready && c >= RUN + 3)
            && CountFree(used') == (if pa != 0 then c - RUN - 3 else if run && ready then RUN else c)
  {
    hide CountFree, RegionFreed, SetRange, TakeTables, RunTaken, FreeRun;
    var i := FirstRun(used, 0);
    if i + RUN <= |used| {
      assert AlignedRun(used, i);
      LowRunTaken(used, i);
      FreeRunCounts(used, i, i + RUN);
      RunGivenBack(base, used, i);
      RangeTaken(used, i);
      TablesCost(base, SetRange(used, i, i + RUN, true), i);
      FreedCounts(base, TakeTables(SetRange(used, i, i + RUN, true)), i);
    }
  }

  lemma RangeTaken(used: seq<bool>, i: nat)
    requires AlignedRun(used, i)
    ensures CountFree(SetRange(used, i, i + RUN, true)) == CountFree(used) - RUN
  {
    hide CountFree;
    CountFreeRange(used, i, i + RUN, true);
  }

  lemma FreedCounts(base: nat, used: seq<bool>, i: nat)
    requires RunTaken(used, i)
    ensures CountFree(RegionFreed(base, used, base + i * PAGE)) == CountFree(used) + RUN
  {
    hide CountFree;
    assert RegionFreed(base, used, base + i * PAGE) == SetRange(used, i, i + RUN, false);
    CountFreeRange(used, i, i + RUN, false);
  }

  /** A process that goes away leaves its region unowned. */
  lemma Departure(procs: seq<Proc>, ram: Ram, z: nat)
    requires BackingOk(procs, ram) && z < |procs| && Live(procs[z])
    ensures BackingOk(procs[z := CLEARED], ram)
    ensures Unowned(procs[z := CLEARED], procs[z].userPa)
    ensures procs[z].userPa != USER_REGION_BASE ==> Backed(ram, procs[z].userPa)
  {
  }

  lemma Arrival(procs: seq<Proc>, ram: Ram, i: nat, p: Proc)
    requires BackingOk(procs, ram) && i < |procs| && !Live(procs[i]) && Live(p)
    requires Backed(ram, p.userPa) && Unowned(procs, p.userPa)
    ensures BackingOk(procs[i := p], ram)
  {
  }

  /** Run states, results and memory contents do not matter here. */
  lemma SamePlaces(procs: seq<Proc>, procs': seq<Proc>, ram: Ram)
    requires BackingOk(procs, ram) && |procs'| == |procs|
    requires forall i :: 0 <= i < |procs| ==> Live(procs'[i]) == Live(procs[i]) && procs'[i].userPa == procs[i].userPa
    ensures BackingOk(procs', ram)
  {
  }

  lemma RunsApart(m: nat, n: nat)
    requires m % RUN == 0 && n % RUN == 0 && m != n
    ensures m + RUN <= n || n + RUN <= m
  {
  }

  lemma AlignedApart(a: nat, b: nat)
    requires a % REGION == 0 && b % REGION == 0 && a != b
    ensures a + REGION <= b || b + REGION <= a
  {
  }
}
