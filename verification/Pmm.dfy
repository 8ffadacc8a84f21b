/** The physical page allocator: one bit per 4 KiB page, 1 meaning used. */
module Pmm {
  const PAGE := 4096
  const MAX_PAGES := 262144
  const BITMAP_BYTES := 32768  // MAX_PAGES / 8
  const RUN := 512             // pages in 2 MiB
  const REGION := 0x200000
  const USER_REGION_BASE := 0x400000
  const USER_REGION_SIZE := 0x200000

  function AlignUp(v: nat, a: nat): nat
    requires a > 0
  {
    (v + a - 1) / a * a
  }

  function AlignDown(v: nat, a: nat): nat
    requires a > 0
  {
    v / a * a
  }

  // ----- bits in bytes

  function Mask(k: nat): bv8
    requires k < 8
  {
    if k == 0 then 1 else if k == 1 then 2 else if k == 2 then 4 else if k == 3 then 8
    else if k == 4 then 16 else if k == 5 then 32 else if k == 6 then 64 else 128
  }

  predicate Holds(b: bv8, k: nat)
    requires k < 8
  {
    b & Mask(k) != 0
  }

  function WithBit(b: bv8, k: nat): bv8
    requires k < 8
  {
    b | Mask(k)
  }

  function WithoutBit(b: bv8, k: nat): bv8
    requires k < 8
  {
    b & !Mask(k)
  }

  lemma ByteUpdate(b: bv8, k: nat, j: nat)
    requires k < 8 && j < 8
    ensures Holds(WithBit(b, k), j) == (j == k || Holds(b, j))
    ensures Holds(WithoutBit(b, k), j) == (j != k && Holds(b, j))
  {
  }

  // ----- counting free pages

  function CountFree(bits: seq<bool>): nat {
    if bits == [] then 0 else CountFree(bits[..|bits| - 1]) + (if bits[|bits| - 1] then 0 else 1)
  }

  lemma {:induction false} CountFreeSet(bits: seq<bool>, i: nat, v: bool)
    requires i < |bits|
    ensures CountFree(bits[i := v]) == CountFree(bits) + (if bits[i] then 1 else 0) - (if v then 1 else 0)
  {
    var n := |bits| - 1;
    if i == n {
      assert bits[i := v][..n] == bits[..n];
    } else {
      assert bits[i := v][..n] == bits[..n][i := v];
      CountFreeSet(bits[..n], i, v);
    }
  }

  /** Pages lo..hi are all free. */
  predicate FreeRun(bits: seq<bool>, lo: nat, hi: nat)
    requires lo <= hi <= |bits|
  {
    forall i :: lo <= i < hi ==> !bits[i]
  }

  lemma {:induction false} FreeRunCounts(bits: seq<bool>, lo: nat, hi: nat)
    requires lo <= hi <= |bits| && FreeRun(bits, lo, hi)
    ensures CountFree(bits) >= hi - lo
    decreases |bits|
  {
    if bits != [] {
      var n := |bits| - 1;
      if hi == |bits| && lo < hi {
        FreeRunCounts(bits[..n], lo, n);
      } else if hi < |bits| {
        FreeRunCounts(bits[..n], lo, hi);
      }
    }
  }

  lemma {:induction false} SomeFree(bits: seq<bool>)
    ensures CountFree(bits) > 0 ==> FirstFree(bits, 0) < |bits|
  {
    if bits != [] && bits[|bits| - 1] { SomeFree(bits[..|bits| - 1]); }
  }

  /** An aligned run of 512 free pages starts at index i. */
  predicate AlignedRun(bits: seq<bool>, i: nat) {
    i % RUN == 0 && i + RUN <= |bits| && FreeRun(bits, i, i + RUN)
  }

  function SetRange(bits: seq<bool>, lo: nat, hi: nat, v: bool): (r: seq<bool>)
    requires lo <= hi <= |bits|
    ensures |r| == |bits|
    ensures forall i :: 0 <= i < |bits| ==> r[i] == if lo <= i < hi then v else bits[i]
  {
    seq(|bits|, i requires 0 <= i < |bits| => if lo <= i < hi then v else bits[i])
  }

  /** Turning a whole range over moves the count by its length. */
  lemma {:induction false} CountFreeRange(bits: seq<bool>, lo: nat, hi: nat, v: bool)
    requires lo <= hi <= |bits| && forall i :: lo <= i < hi ==> bits[i] != v
    ensures CountFree(SetRange(bits, lo, hi, v)) == CountFree(bits) + if v then lo - hi else hi - lo
    decreases hi - lo
  {
    hide CountFree;
    if lo == hi {
      assert SetRange(bits, lo, hi, v) == bits;
    } else {
      CountFreeRange(bits, lo, hi - 1, v);
      var up := SetRange(bits, lo, hi - 1, v);
      assert SetRange(bits, lo, hi, v) == up[hi - 1 := v];
      CountFreeSet(up, hi - 1, v);
    }
  }

  class PageMap {
    const bitmap: array<bv8>
    var base: nat
    var size: nat
    var total: nat
    var free: nat

    ghost var used: seq<bool>  // what the bitmap says, page by page

    predicate BitAt(i: nat)
      requires bitmap.Length == BITMAP_BYTES && i < MAX_PAGES
      reads bitmap
    {
      Holds(bitmap[i / 8], i % 8)
    }

    ghost predicate Tied()
      reads this, bitmap
    {
      && bitmap.Length == BITMAP_BYTES && total <= MAX_PAGES && |used| == total
      && base % PAGE == 0 && size == total * PAGE
      && forall i :: 0 <= i < total ==> used[i] == BitAt(i)
    }

    ghost predicate Valid()
      reads this, bitmap
    {
      Tied() && free == CountFree(used)
    }

    constructor ()
      ensures Valid() && fresh(bitmap) && total == 0
    {
      bitmap := new bv8[BITMAP_BYTES](i => 0xff);
      base, size, total, free := 0, 0, 0, 0;
      used := [];
    }

    method BitSet(i: nat)
      requires Tied() && i < total
      modifies this`used, bitmap
      ensures Tied() && used == old(used)[i := true]
    {
      hide Holds, WithBit;
      forall j: nat | j < 8
        ensures Holds(WithBit(bitmap[i / 8], i % 8), j) == (j == i % 8 || Holds(bitmap[i / 8], j))
      {
        ByteUpdate(bitmap[i / 8], i % 8, j);
      }
      bitmap[i / 8] := WithBit(bitmap[i / 8], i % 8);
      used := used[i := true];
    }

    method BitClear(i: nat)
      requires Tied() && i < total
      modifies this`used, bitmap
      ensures Tied() && used == old(used)[i := false]
    {
      hide Holds, WithoutBit;
      forall j: nat | j < 8
        ensures Holds(WithoutBit(bitmap[i / 8], i % 8), j) == (j != i % 8 && Holds(bitmap[i / 8], j))
      {
        ByteUpdate(bitmap[i / 8], i % 8, j);
      }
      bitmap[i / 8] := WithoutBit(bitmap[i / 8], i % 8);
      used := used[i := false];
    }

    method BitTest(i: nat) returns (b: bool)
      requires Tied() && i < total
      ensures b == used[i]
    {
      b := BitAt(i);
    }

    /** Marks one page, keeping the free count. */
    method Take(i: nat)
      requires Valid() && i < total && !used[i]
      modifies this`used, this`free, bitmap
      ensures Valid() && used == old(used)[i := true] && free == old(free) - 1
    {
      FreeRunCounts(used, i, i + 1);
      CountFreeSet(used, i, true);
      BitSet(i);
      free := free - 1;
    }

    method ReserveAt(i: nat)
      requires Valid() && i < total
      modifies this`free, this`used, bitmap
      ensures Valid() && used == old(used)[i := true]
    {
      hide CountFree;
      var taken := BitTest(i);
      if !taken {
        Take(i);
      }
    }

    /** reserve_range: afterwards every page with a byte in [start, end) is used. */
    method ReserveRange(start: nat, end: nat)
      requires Valid()
      modifies this`free, this`used, bitmap
      ensures Valid() && used == if start < end then Reserved(base, old(used), start, end) else old(used)
    {
      hide CountFree, Holds, Touches;
      if end <= start { return; }
      var limit := base + size;
      var lo, hi := if start < base then base else start, if end > limit then limit else end;
      ReserveClips(base, used, start, end, lo, hi);
      if hi <= lo { return; }
      hide Reserved, AlignUp, AlignDown;
      Aligned(lo);
      Aligned(hi);
      ReservePages(lo, AlignDown(lo, PAGE), AlignUp(hi, PAGE));
    }

    method ReservePages(ghost lo: nat, first: nat, e: nat)
      requires Valid() && base <= first <= lo < first + PAGE && first <= e
      requires first % PAGE == 0 && e % PAGE == 0
      requires Reserved(base, used, lo, first) == used && e <= base + size
      modifies this`free, this`used, bitmap
      ensures Valid() && used == Reserved(base, old(used), lo, e)
    {
      hide Reserved, CountFree, Holds;
      var pa := first;
      ghost var n, m := (first - base) / PAGE, (e - base) / PAGE;
      while pa < e
        invariant Valid() && pa == base + n * PAGE && e == base + m * PAGE && 0 <= n <= m
        invariant used == Reserved(base, old(used), lo, pa) && lo < pa + PAGE
      {
        var idx := (pa - base) / PAGE;
        assert idx == n;
        if idx >= total { break; }
        ReserveStep(base, old(used), lo, n);
        ReserveAt(idx);
        pa := pa + PAGE;
        n := n + 1;
      }
    }

    /** pmm_alloc_page: the lowest free page; 0 when there is none. */
    method AllocPage() returns (pa: nat)
      requires Valid()
      modifies this`free, this`used, bitmap
      ensures Valid()
      ensures var i := FirstFree(old(used), 0);
              if i < total then pa == base + i * PAGE && used == old(used)[i := true]
              else pa == 0 && used == old(used)
      ensures (old(free) > 0 <==> FirstFree(old(used), 0) < total) && free == if old(free) > 0 then old(free) - 1 else 0
    {
      hide CountFree;
      pa := 0;
      SomeFree(used);
      if free == 0 || total == 0 {
        var i := FirstFree(used, 0);
        if i < total { FreeRunCounts(used, i, i + 1); }
        return 0;
      }
      for idx := 0 to total
        invariant Valid() && used == old(used) && FirstFree(used, 0) == FirstFree(used, idx)
      {
        var taken := BitTest(idx);
        if !taken {
          Take(idx);
          return base + idx * PAGE;
        }
      }
    }

    /** pmm_free_page. */
    method FreePage(pa: nat)
      requires Valid()
      modifies this`free, this`used, bitmap
      ensures Valid()
      ensures used == if pa % PAGE == 0 && base <= pa < base + size
                      then old(used)[(pa - base) / PAGE := false] else old(used)
    {
      hide CountFree;
      if total == 0 { return; }
      if pa < base || pa >= base + size { return; }
      if pa % PAGE != 0 { return; }
      var idx := (pa - base) / PAGE;
      if idx >= total { return; }
      var taken := BitTest(idx);
      if taken {
        CountFreeSet(used, idx, false);
        BitClear(idx);
        free := free + 1;
      }
    }

    /** pmm_alloc_2mib_aligned: the lowest aligned run of 512 free pages. */
    method AllocRegion() returns (pa: nat)
      requires Valid()
      modifies this`free, this`used, bitmap
      ensures Valid()
      ensures var i := FirstRun(old(used), 0);
              if i + RUN <= total then pa == base + i * PAGE && used == SetRange(old(used), i, i + RUN, true)
              else pa == 0 && used == old(used)
      ensures free == old(free) - (if FirstRun(old(used), 0) + RUN <= total then RUN else 0)
    {
      hide CountFree;
      if free < RUN || total == 0 {
        var i := FirstRun(used, 0);
        if i + RUN <= total { FreeRunCounts(used, i, i + RUN); }
        return 0;
      }
      var start := 0;
      while start + RUN <= total
        invariant Valid() && used == old(used) && start % RUN == 0
        invariant FirstRun(used, 0) == FirstRun(used, start)
      {
        var ok := RunIsFree(start);
        if ok {
          TakeRun(start);
          return base + start * PAGE;
        }
        start := start + RUN;
      }
      return 0;
    }

    method RunIsFree(start: nat) returns (ok: bool)
      requires Valid() && start + RUN <= total
      ensures ok == FreeRun(used, start, start + RUN)
    {
      for i := 0 to RUN
        invariant FreeRun(used, start, start + i)
      {
        var taken := BitTest(start + i);
        if taken { return false; }
      }
      return true;
    }

    method TakeRun(start: nat)
      requires Valid() && start + RUN <= total && FreeRun(used, start, start + RUN)
      modifies this`free, this`used, bitmap
      ensures Valid() && used == SetRange(old(used), start, start + RUN, true) && free == old(free) - RUN
    {
      hide CountFree;
      for i := 0 to RUN
        invariant Valid() && used == SetRange(old(used), start, start + i, true) && free == old(free) - i
      {
        Take(start + i);
      }
    }

    /** pmm_free_2mib_aligned. */
    method FreeRegion(pa: nat)
      requires Valid()
      modifies this`free, this`used, bitmap
      ensures Valid()
      ensures used == if pa == 0 || pa % REGION != 0 then old(used) else RegionFreed(base, old(used), pa)
    {
      hide CountFree;
      if pa == 0 { return; }
      if pa % REGION != 0 { return; }
      NoneFreed(base, used, pa);
      for i := 0 to RUN
        invariant Valid() && used == PagesFreed(base, old(used), pa, pa + i * PAGE)
      {
        AlignedPage(pa, i);
        OneMoreFreed(base, old(used), pa, i);
        FreePage(pa + i * PAGE);
      }
    }

    /** pmm_init. */
    method Init(memBase: nat, memSize: nat, kernelStart: nat, kernelEnd: nat, dtb: nat)
      requires Valid()
      modifies this, bitmap
      ensures Valid()
      ensures total == InitPages(memBase, memSize)
      ensures base == if total > 0 then AlignUp(memBase, PAGE) else 0
      ensures BootPages(base, used, kernelStart, kernelEnd, dtb)
    {
      hide CountFree;
      base, size, total, free, used := 0, 0, 0, 0, [];
      EmptyCount();
      if memSize < PAGE * 16 { return; }
      var lo := AlignUp(memBase, PAGE);
      var hi := AlignDown(memBase + memSize, PAGE);
      if hi <= lo { return; }
      var n := (hi - lo) / PAGE;
      if n > MAX_PAGES {
        n := MAX_PAGES;
        hi := lo + n * PAGE;
      }
      base, size, total, free := lo, hi - lo, n, n;
      ClearAll();
      ReserveBoot(kernelStart, kernelEnd, dtb);
    }

    /** The reservations of pmm_init: the first 2 MiB, the kernel, the device tree, the user region. */
    method ReserveBoot(kernelStart: nat, kernelEnd: nat, dtb: nat)
      requires Valid() && used == seq(total, i => false)
      modifies this`free, this`used, bitmap
      ensures Valid()
      ensures forall i :: 0 <= i < total ==>
                (used[i] <==> || Touches(base, i, base, base + REGION)
                              || (kernelStart < kernelEnd && Touches(base, i, kernelStart, kernelEnd))
                              || (dtb != 0 && Touches(base, i, dtb, dtb + 0x10000))
                              || Touches(base, i, USER_REGION_BASE, USER_REGION_BASE + USER_REGION_SIZE))
    {
      hide CountFree, Touches;
      ReserveRange(base, base + REGION);
      ReserveRange(kernelStart, kernelEnd);
      if dtb != 0 { ReserveRange(dtb, dtb + 0x10000); }
      ReserveRange(USER_REGION_BASE, USER_REGION_BASE + USER_REGION_SIZE);
    }

    /** bitmap_clear_all. */
    method ClearAll()
      requires bitmap.Length == BITMAP_BYTES && total <= MAX_PAGES && base % PAGE == 0 && size == total * PAGE
                 && free == total
      modifies this`used, bitmap
      ensures Valid() && used == seq(total, i => false)
    {
      var bytes := (total + 7) / 8;
      if bytes > BITMAP_BYTES { bytes := BITMAP_BYTES; }
      for i := 0 to bytes
        invariant forall j :: 0 <= j < i ==> bitmap[j] == 0
      {
        bitmap[i] := 0;
      }
      used := seq(total, i => false);
      AllFreeCount(total);
      ZeroByte();
    }
  }

  /** The pages in use after start-up: the first 2 MiB, the kernel, the device tree, the user region. */
  predicate BootPages(base: nat, used: seq<bool>, kernelStart: nat, kernelEnd: nat, dtb: nat) {
    forall i :: 0 <= i < |used| ==>
      (used[i] <==> || i < RUN
                    || (kernelStart < kernelEnd && Touches(base, i, kernelStart, kernelEnd))
                    || (dtb != 0 && Touches(base, i, dtb, dtb + 0x10000))
                    || Touches(base, i, USER_REGION_BASE, USER_REGION_BASE + USER_REGION_SIZE))
  }

  lemma Aligned(v: nat)
    ensures AlignUp(v, PAGE) % PAGE == 0 && AlignDown(v, PAGE) % PAGE == 0
    ensures AlignDown(v, PAGE) <= v <= AlignUp(v, PAGE) && v < AlignDown(v, PAGE) + PAGE
  {
  }

  lemma ZeroByte()
    ensures forall j: nat :: j < 8 ==> !Holds(0, j)
  {
  }

  lemma EmptyCount()
    ensures CountFree([]) == 0
  {
  }

  lemma {:induction false} AllFreeCount(n: nat)
    ensures CountFree(seq(n, i => false)) == n
  {
    if n > 0 {
      assert seq(n, i => false)[..n - 1] == seq(n - 1, i => false);
      AllFreeCount(n - 1);
    }
  }

  /** How many pages pmm_init manages. */
  function InitPages(memBase: nat, memSize: nat): nat {
    var lo, hi := AlignUp(memBase, PAGE), AlignDown(memBase + memSize, PAGE);
    if memSize < PAGE * 16 || hi <= lo then 0
    else if (hi - lo) / PAGE > MAX_PAGES then MAX_PAGES else (hi - lo) / PAGE
  }

  /** Page i of RAM at base has a byte in [start, end). */
  predicate Touches(base: nat, i: nat, start: nat, end: nat) {
    base + i * PAGE < end && start < base + i * PAGE + PAGE
  }

  /** Address b is in page i of RAM at base. */
  predicate InPage(base: nat, i: nat, b: nat) { base + 4096 * i <= b < base + 4096 * i + 4096 }

  /** Reserving a range marks exactly the pages with an address in it, and forgets none that was marked. */
  lemma ReservedMeans(base: nat, bits: seq<bool>, start: nat, end: nat, i: nat)
    requires start < end && i < |bits|
    ensures Reserved(base, bits, start, end)[i] <==> bits[i] || exists b :: start <= b < end && InPage(base, i, b)
  {
    if Touches(base, i, start, end) {
      var b := if start < base + 4096 * i then base + 4096 * i else start;
      assert InPage(base, i, b);
    }
  }

  /** What start-up manages: the whole pages of RAM, at most 262144 of them - and none of a RAM of less than 64 KiB. */
  lemma InitMeans(memBase: nat, memSize: nat) returns (base: nat)
    ensures base % 4096 == 0 && memBase <= base < memBase + 4096 && base == AlignUp(memBase, PAGE)
    ensures var n := InitPages(memBase, memSize);
            && n <= 262144 && (n > 0 ==> base + 4096 * n <= memBase + memSize)
            && (n > 0 <==> memSize >= 65536)
            && (0 < n < 262144 ==> memBase + memSize < base + 4096 * n + 4096)
  {
    base := AlignUp(memBase, PAGE);
    var q, r := (memBase + 4095) / 4096, (memBase + memSize) / 4096;
    assert base == 4096 * q && AlignDown(memBase + memSize, PAGE) == 4096 * r;
  }

  function Reserved(base: nat, bits: seq<bool>, start: nat, end: nat): (r: seq<bool>)
    ensures |r| == |bits|
  {
    seq(|bits|, i requires 0 <= i < |bits| => bits[i] || Touches(base, i, start, end))
  }

  lemma ReserveClips(base: nat, bits: seq<bool>, start: nat, end: nat, lo: nat, hi: nat)
    requires start < end && base % PAGE == 0
    requires lo == if start < base then base else start
    requires hi == if end > base + |bits| * PAGE then base + |bits| * PAGE else end
    ensures if hi <= lo then Reserved(base, bits, start, end) == bits
            else Reserved(base, bits, start, end) == Reserved(base, bits, lo, AlignUp(hi, PAGE))
    ensures lo < hi ==> Reserved(base, bits, lo, AlignDown(lo, PAGE)) == bits
    ensures lo < hi ==> base <= AlignDown(lo, PAGE) <= AlignUp(hi, PAGE) <= base + |bits| * PAGE
  {
    forall i | 0 <= i < |bits|
      ensures lo < hi ==> (Touches(base, i, start, end) <==> Touches(base, i, lo, AlignUp(hi, PAGE)))
      ensures lo < hi ==> !Touches(base, i, lo, AlignDown(lo, PAGE))
      ensures hi <= lo ==> !Touches(base, i, start, end)
    {
      assert base + i * PAGE + PAGE <= base + |bits| * PAGE;
    }
  }

  lemma ReserveStep(base: nat, bits: seq<bool>, lo: nat, n: nat)
    requires n < |bits| && lo < base + n * PAGE + PAGE
    ensures Reserved(base, bits, lo, base + n * PAGE + PAGE) == Reserved(base, bits, lo, base + n * PAGE)[n := true]
  {
  }

  function FirstFree(bits: seq<bool>, i: nat): (r: nat)
    requires i <= |bits|
    ensures i <= r <= |bits| && (forall j :: i <= j < r ==> bits[j]) && (r < |bits| ==> !bits[r])
    decreases |bits| - i
  {
    if i == |bits| || !bits[i] then i else FirstFree(bits, i + 1)
  }

  /** The lowest aligned run of free pages at or above aligned index i; past the end if there is none. */
  function FirstRun(bits: seq<bool>, i: nat): (r: nat)
    requires i % RUN == 0
    ensures i <= r && r % RUN == 0
    ensures forall j :: i <= j < r ==> !AlignedRun(bits, j)
    ensures if r + RUN <= |bits| then AlignedRun(bits, r) else forall j :: i <= j ==> !AlignedRun(bits, j)
    decreases |bits| - i
  {
    if i + RUN > |bits| || AlignedRun(bits, i) then i else FirstRun(bits, i + RUN)
  }

  /** Pages with their first byte in [pa, end) are free, where RAM has them. */
  function PagesFreed(base: nat, bits: seq<bool>, pa: nat, end: nat): (r: seq<bool>)
    ensures |r| == |bits|
  {
    seq(|bits|, i requires 0 <= i < |bits| => bits[i] && !(pa <= base + i * PAGE < end))
  }

  /** What freeing the page at pa does, where RAM has it. */
  function PageFreed(base: nat, bits: seq<bool>, pa: nat): (r: seq<bool>)
    requires base % PAGE == 0 && pa % PAGE == 0
  {
    if base <= pa < base + |bits| * PAGE then bits[(pa - base) / PAGE := false] else bits
  }

  lemma NoneFreed(base: nat, bits: seq<bool>, pa: nat)
    ensures PagesFreed(base, bits, pa, pa) == bits
  {
  }

  lemma OneMoreFreed(base: nat, bits: seq<bool>, pa: nat, i: nat)
    requires base % PAGE == 0 && (pa + i * PAGE) % PAGE == 0
    ensures PageFreed(base, PagesFreed(base, bits, pa, pa + i * PAGE), pa + i * PAGE) ==
            PagesFreed(base, bits, pa, pa + (i + 1) * PAGE)
  {
    var at := pa + i * PAGE;
    if base <= at < base + |bits| * PAGE {
      var k := (at - base) / PAGE;
      assert base + k * PAGE == at;
    }
  }

  lemma AlignedPage(pa: nat, i: nat)
    requires pa % REGION == 0
    ensures (pa + i * PAGE) % PAGE == 0
  {
    var k := pa / REGION;
    assert pa == PAGE * (RUN * k);
  }

  function RegionFreed(base: nat, bits: seq<bool>, pa: nat): (r: seq<bool>)
    ensures |r| == |bits|
  {
    PagesFreed(base, bits, pa, pa + REGION)
  }
}
