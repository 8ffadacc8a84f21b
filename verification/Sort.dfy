/** The quicksort of sort, with its explicit stack of pending ranges, and the -u output loop. */
module Sort {
  import opened Bytes
  import opened LineOrder

  const STACK := 64

  predicate Sorted(o: Opts, a: seq<Text>) { forall p, q :: 0 <= p < q < |a| ==> Le(o, a[p], a[q]) }

  /** x stands somewhere in a[lo..hi], both ends included. */
  predicate Within(a: seq<Text>, lo: int, hi: int, x: Text)
    requires 0 <= lo && hi < |a|
  {
    exists m :: lo <= m <= hi && a[m] == x
  }

  /** now is a permutation of was that moves only a[lo..hi]. */
  predicate Shuffled(was: seq<Text>, now: seq<Text>, lo: int, hi: int) {
    && |was| == |now| && 0 <= lo && hi < |was| && multiset(now) == multiset(was)
    && (forall k :: 0 <= k < |was| && !(lo <= k <= hi) ==> now[k] == was[k])
    && (forall k :: lo <= k <= hi ==> Within(was, lo, hi, now[k]))
  }

  lemma ShuffleSwap(was: seq<Text>, now: seq<Text>, lo: int, hi: int, i: int, j: int)
    requires Shuffled(was, now, lo, hi) && lo <= i <= hi && lo <= j <= hi
    ensures Shuffled(was, now[i := now[j]][j := now[i]], lo, hi)
  {
  }

  // ----- partition

  predicate Below(o: Opts, a: seq<Text>, lo: int, i: int, pivot: Text)
    requires 0 <= lo && i <= |a|
  {
    forall k :: lo <= k < i ==> Le(o, a[k], pivot)
  }

  predicate Above(o: Opts, a: seq<Text>, j: int, hi: int, pivot: Text)
    requires -1 <= j && hi < |a|
  {
    forall k :: j < k <= hi ==> Le(o, pivot, a[k])
  }

  /** Moves i up to the first line not before the pivot; stop is one. */
  method ScanUp(o: Opts, arr: array<Text>, from: nat, pivot: Text, ghost stop: nat) returns (i: nat)
    requires from <= stop < arr.Length && Compare(o, arr[stop], pivot) >= 0
    ensures from <= i <= stop && Compare(o, arr[i], pivot) >= 0
    ensures Below(o, arr[..], from, i, pivot)
  {
    hide Compare;
    i := from;
    var c := CmpLines(o, arr[i], pivot);
    while c < 0
      invariant from <= i <= stop && c == Compare(o, arr[i], pivot) && Below(o, arr[..], from, i, pivot)
      decreases stop - i
    {
      i := i + 1;
      c := CmpLines(o, arr[i], pivot);
    }
  }

  /** Moves j down to the last line not after the pivot. */
  method ScanDown(o: Opts, arr: array<Text>, from: nat, pivot: Text, ghost stop: nat) returns (j: nat)
    requires stop <= from < arr.Length && Compare(o, arr[stop], pivot) <= 0
    ensures stop <= j <= from && Compare(o, arr[j], pivot) <= 0
    ensures Above(o, arr[..], j, from, pivot)
  {
    j := from;
    var c := CmpLines(o, arr[j], pivot);
    while c > 0
      invariant stop <= j <= from && c == Compare(o, arr[j], pivot) && Above(o, arr[..], j, from, pivot)
      decreases j - stop
    {
      hide Compare;
      CompareFlips(o, pivot, arr[j]);
      j := j - 1;
      c := CmpLines(o, arr[j], pivot);
    }
  }

  /** What the partition loop keeps: everything before i is at most the pivot, everything after j at
      least it, and each scan has a place to stop. */
  predicate Parting(o: Opts, was: seq<Text>, now: seq<Text>, lo: int, hi: int, i: int, j: int, pivot: Text,
                    swapped: bool) {
    && 0 <= lo < hi < |was| && Shuffled(was, now, lo, hi)
    && lo <= i <= hi + 1 && lo - 1 <= j <= hi
    && Below(o, now, lo, i, pivot) && Above(o, now, j, hi, pivot)
    && (if swapped then lo < i && j < hi else i == lo && j == hi && now[lo + (hi - lo) / 2] == pivot)
  }

  lemma SwapParts(o: Opts, was: seq<Text>, now: seq<Text>, lo: int, hi: int, i: int, j: int, pivot: Text)
    requires 0 <= lo < hi < |was| == |now| && Shuffled(was, now, lo, hi) && lo <= i <= j <= hi
    requires Below(o, now, lo, i, pivot) && Above(o, now, j, hi, pivot)
    requires Compare(o, now[i], pivot) >= 0 && Compare(o, now[j], pivot) <= 0
    ensures Parting(o, was, now[i := now[j]][j := now[i]], lo, hi, i + 1, j - 1, pivot, true)
  {
    hide Compare, Shuffled;
    ShuffleSwap(was, now, lo, hi, i, j);
    CompareFlips(o, pivot, now[i]);
  }

  method Partition(o: Opts, arr: array<Text>, lo: nat, hi: nat) returns (i: int, j: int, ghost pivot: Text)
    requires lo < hi < arr.Length
    modifies arr
    ensures j < i && Parting(o, old(arr[..]), arr[..], lo, hi, i, j, pivot, true)
  {
    hide Compare, Shuffled;
    ghost var was: seq<Text> := arr[..];
    var mid := lo + (hi - lo) / 2;
    var p := arr[mid];
    pivot := p;
    ghost var swapped := false;
    CompareFlips(o, p, p);
    i, j := lo, hi;
    Unmoved(was, lo, hi);
    while i <= j
      invariant Parting(o, was, arr[..], lo, hi, i, j, p, swapped) && (!swapped ==> mid == lo + (hi - lo) / 2)
      decreases j - i
    {
      ghost var up, down := if swapped then j + 1 else mid, if swapped then i - 1 else mid;
      if swapped { CompareFlips(o, p, arr[j + 1]); }
      ghost var j0, i0 := j, i;
      i := ScanUp(o, arr, i, p, up);
      j := ScanDown(o, arr, j, p, down);
      StillParted(o, arr[..], lo, hi, i0, j0, i, j, p);
      if i <= j {
        SwapParts(o, was, arr[..], lo, hi, i, j, p);
        ghost var now := arr[..];
        arr[i], arr[j] := arr[j], arr[i];
        assert arr[..] == now[i := now[j]][j := now[i]];
        i, j := i + 1, j - 1;
        swapped := true;
      }
    }
  }

  lemma Unmoved(was: seq<Text>, lo: int, hi: int)
    requires 0 <= lo < hi < |was|
    ensures Shuffled(was, was, lo, hi)
  {
  }

  lemma StillParted(o: Opts, a: seq<Text>, lo: int, hi: int, i0: int, j0: int, i: int, j: int, pivot: Text)
    requires 0 <= lo <= i0 <= i <= |a| && -1 <= j <= j0 <= hi < |a|
    requires Below(o, a, lo, i0, pivot) && Below(o, a, i0, i, pivot)
    requires Above(o, a, j0, hi, pivot) && Above(o, a, j, j0, pivot)
    ensures Below(o, a, lo, i, pivot) && Above(o, a, j, hi, pivot)
  {
  }

  // ----- pending ranges

  datatype Range = Range(lo: int, hi: int) {
    function Size(): int { hi - lo + 1 }
  }

  predicate Covers(r: Range, p: int, q: int) { r.lo <= p && q <= r.hi }

  predicate Covered(rs: seq<Range>, p: int, q: int) { exists k :: 0 <= k < |rs| && Covers(rs[k], p, q) }

  /** Any two lines not inside one pending range are already in order. */
  predicate Settled(o: Opts, a: seq<Text>, rs: seq<Range>) {
    forall p, q :: 0 <= p < q < |a| ==> Le(o, a[p], a[q]) || Covered(rs, p, q)
  }

  predicate Beside(r: Range, s: Range) { r.hi < s.lo || s.hi < r.lo }

  predicate Apart(rs: seq<Range>, n: nat) {
    && (forall k :: 0 <= k < |rs| ==> 0 <= rs[k].lo < rs[k].hi < n)
    && (forall x, y :: 0 <= x < y < |rs| ==> Beside(rs[x], rs[y]))
  }

  function Pow2(k: nat): nat { if k == 0 then 1 else 2 * Pow2(k - 1) }

  /** A range k places up the stack holds at most n / 2^k lines. */
  predicate Halving(rs: seq<Range>, n: nat) {
    forall k :: 0 <= k < |rs| ==> rs[k].Size() * Pow2(k) <= n
  }

  predicate Pending(o: Opts, a: seq<Text>, rs: seq<Range>) {
    Settled(o, a, rs) && Apart(rs, |a|) && Halving(rs, |a|)
  }

  function Weight(rs: seq<Range>): int {
    if rs == [] then 0 else Weight(rs[..|rs| - 1]) + 2 * rs[|rs| - 1].Size() - 1
  }

  /** What a partitioned range leaves to do: the larger part is stacked, the smaller goes on at once. */
  function Kids(l: Range, r: Range): seq<Range> {
    if l.Size() > 1 && r.Size() > 1 then (if l.Size() < r.Size() then [r, l] else [l, r])
    else if l.Size() > 1 then [l]
    else if r.Size() > 1 then [r]
    else []
  }

  lemma CoveredMore(rs: seq<Range>, kids: seq<Range>, p: int, q: int)
    ensures Covered(rs + kids, p, q) <==> Covered(rs, p, q) || Covered(kids, p, q)
  {
    var all := rs + kids;
    if k :| 0 <= k < |all| && Covers(all[k], p, q) {
      if k < |rs| { assert Covers(rs[k], p, q); } else { assert Covers(kids[k - |rs|], p, q); }
    }
    if k :| 0 <= k < |rs| && Covers(rs[k], p, q) { assert Covers(all[k], p, q); }
    if k :| 0 <= k < |kids| && Covers(kids[k], p, q) { assert Covers(all[|rs| + k], p, q); }
  }

  lemma KidsCover(l: Range, r: Range, p: int, q: int)
    requires p < q && (Covers(l, p, q) || Covers(r, p, q))
    ensures Covered(Kids(l, r), p, q)
  {
    var kids := Kids(l, r);
    if Covers(l, p, q) {
      assert l in kids;
    } else {
      assert r in kids;
    }
  }

  /** A range beside every pending one shares no pair with them once one end lies in it. */
  lemma OutsideStays(o: Opts, a: seq<Text>, rs: seq<Range>, cur: Range, p: int, q: int)
    requires Settled(o, a, rs + [cur]) && Apart(rs + [cur], |a|) && 0 <= p < q < |a|
    requires !(cur.lo <= p && q <= cur.hi) && (cur.lo <= p <= cur.hi || cur.lo <= q <= cur.hi)
    ensures Le(o, a[p], a[q])
  {
    hide Le;
    var all := rs + [cur];
    assert all[|rs|] == cur;
    forall k | 0 <= k < |all|
      ensures !Covers(all[k], p, q)
    {
      if k < |rs| { assert Beside(all[k], all[|rs|]); }
    }
  }

  lemma PairSettled(o: Opts, was: seq<Text>, now: seq<Text>, rs: seq<Range>, cur: Range, i: int, j: int, pivot: Text,
                    p: int, q: int)
    requires Settled(o, was, rs + [cur]) && Apart(rs + [cur], |was|)
    requires j < i && Parting(o, was, now, cur.lo, cur.hi, i, j, pivot, true) && 0 <= p < q < |now|
    ensures Le(o, now[p], now[q]) || Covered(rs + Kids(Range(cur.lo, j), Range(i, cur.hi)), p, q)
  {
    hide Le, Kids;
    var lo, hi, l, r := cur.lo, cur.hi, Range(cur.lo, j), Range(i, cur.hi);
    CoveredMore(rs, Kids(l, r), p, q);
    CoveredMore(rs, [cur], p, q);
    if lo <= p && q <= hi {
      if q <= j || p >= i {
        KidsCover(l, r, p, q);
      } else {
        LeTransitive(o, now[p], pivot, now[q]);
      }
    } else if lo <= p <= hi {
      var m :| lo <= m <= hi && was[m] == now[p];
      OutsideStays(o, was, rs, cur, m, q);
    } else if lo <= q <= hi {
      var m :| lo <= m <= hi && was[m] == now[q];
      OutsideStays(o, was, rs, cur, p, m);
    }
  }

  lemma KidsApart(rs: seq<Range>, cur: Range, i: int, j: int, n: nat)
    requires Apart(rs + [cur], n) && cur.lo < i && j < cur.hi && j < i
    ensures Apart(rs + Kids(Range(cur.lo, j), Range(i, cur.hi)), n)
  {
    var l, r, was := Range(cur.lo, j), Range(i, cur.hi), rs + [cur];
    var all := rs + Kids(l, r);
    forall x, y | 0 <= x < y < |all|
      ensures Beside(all[x], all[y])
    {
      if x < |rs| {
        assert was[x] == rs[x];
        if y < |rs| { assert Beside(was[x], was[y]); } else { assert Beside(was[x], was[|rs|]); }
      }
    }
    forall k | 0 <= k < |all|
      ensures 0 <= all[k].lo < all[k].hi < n
    {
      if k < |rs| { assert was[k] == rs[k]; } else { assert was[|rs|] == cur; }
    }
  }

  lemma HalfFits(s: int, small: int, k: nat, n: nat)
    requires s * Pow2(k) <= n && 2 * small <= s && small >= 0
    ensures small * Pow2(k + 1) <= n
  {
    assert small * Pow2(k + 1) == (2 * small) * Pow2(k);
    assert (2 * small) * Pow2(k) <= s * Pow2(k);
  }

  lemma PartFits(s: int, t: int, k: nat, n: nat)
    requires s * Pow2(k) <= n && t <= s
    ensures t * Pow2(k) <= n
  {
    assert t * Pow2(k) <= s * Pow2(k);
  }

  lemma KidsHalve(rs: seq<Range>, cur: Range, l: Range, r: Range, n: nat)
    requires Halving(rs + [cur], n) && l.Size() + r.Size() <= cur.Size() && 0 <= l.Size() && 0 <= r.Size()
    ensures Halving(rs + Kids(l, r), n)
  {
    hide Pow2;
    var was, all, s := rs + [cur], rs + Kids(l, r), cur.Size();
    assert was[|rs|] == cur;
    forall k | 0 <= k < |all|
      ensures all[k].Size() * Pow2(k) <= n
    {
      if k < |rs| {
        assert was[k] == rs[k];
      } else if k == |rs| {
        PartFits(s, all[k].Size(), k, n);
      } else {
        HalfFits(s, all[k].Size(), |rs|, n);
      }
    }
  }

  lemma {:induction false} WeightSum(rs: seq<Range>, kids: seq<Range>)
    ensures Weight(rs + kids) == Weight(rs) + Weight(kids)
    decreases |kids|
  {
    if kids == [] {
      assert rs + kids == rs;
    } else {
      var m := |kids| - 1;
      assert (rs + kids)[..|rs| + m] == rs + kids[..m];
      WeightSum(rs, kids[..m]);
    }
  }

  lemma SmallWeights(x: Range, y: Range)
    ensures Weight([]) == 0 && Weight([x]) == 2 * x.Size() - 1
    ensures Weight([x, y]) == 2 * x.Size() + 2 * y.Size() - 2
  {
  }

  lemma KidsWeigh(rs: seq<Range>, cur: Range, l: Range, r: Range)
    requires cur.Size() > 1 && l.Size() + r.Size() <= cur.Size() && 0 <= l.Size() < cur.Size()
               && 0 <= r.Size() < cur.Size()
    ensures Weight(rs + Kids(l, r)) < Weight(rs + [cur])
  {
    hide Weight;
    WeightSum(rs, [cur]);
    WeightSum(rs, Kids(l, r));
    SmallWeights(cur, cur);
    SmallWeights(l, r);
    SmallWeights(r, l);
  }

  /** One partition keeps everything outside the parts settled. */
  lemma SplitPending(o: Opts, was: seq<Text>, now: seq<Text>, rs: seq<Range>, cur: Range, i: int, j: int, pivot: Text)
    requires Pending(o, was, rs + [cur]) && j < i && Parting(o, was, now, cur.lo, cur.hi, i, j, pivot, true)
    ensures var kids := Kids(Range(cur.lo, j), Range(i, cur.hi));
            Pending(o, now, rs + kids) && Weight(rs + kids) < Weight(rs + [cur])
  {
    hide Le, Kids, Weight, Pow2, Covered;
    var l, r := Range(cur.lo, j), Range(i, cur.hi);
    forall p, q | 0 <= p < q < |now|
      ensures Le(o, now[p], now[q]) || Covered(rs + Kids(l, r), p, q)
    {
      PairSettled(o, was, now, rs, cur, i, j, pivot, p, q);
    }
    KidsApart(rs, cur, i, j, |was|);
    KidsHalve(rs, cur, l, r, |was|);
    KidsWeigh(rs, cur, l, r);
  }

  lemma {:induction false} Pow2Grows(m: nat, k: nat)
    requires m <= k
    ensures 0 < Pow2(m) <= Pow2(k)
  {
    if m < k { Pow2Grows(m, k - 1); } else if m > 0 { Pow2Grows(m - 1, k - 1); }
  }

  /** A range about to be split in two real parts, sp places up, needs at least 2^(sp+1) lines. */
  lemma DeepNeedsMany(rs: seq<Range>, cur: Range, n: nat)
    requires Halving(rs + [cur], n) && cur.Size() >= 4
    ensures Pow2(|rs| + 1) <= n && (|rs| >= STACK ==> Pow2(STACK) <= n)
  {
    hide Range.Size;
    assert (rs + [cur])[|rs|] == cur;
    Pow2Grows(0, |rs|);
    AtLeast(cur.Size(), 4, Pow2(|rs|));
    if |rs| >= STACK { Pow2Grows(STACK, |rs|); }
  }

  lemma AtLeast(s: int, t: int, p: nat)
    requires s >= t
    ensures s * p >= t * p
  {
  }

  /** One round of the inner loop on arr[lo..hi], which is the last pending range. Returns -1 if the
      stack is full, else what to go on with, if anything. */
  method SplitOnce(o: Opts, arr: array<Text>, stack: array<Range>, sp0: nat, lo0: nat, hi0: nat)
    returns (rc: int, sp: nat, lo: nat, hi: nat, more: bool)
    requires stack.Length == STACK && sp0 <= STACK && lo0 < hi0
    requires Pending(o, arr[..], stack[..sp0] + [Range(lo0, hi0)])
    modifies arr, stack
    ensures multiset(arr[..]) == multiset(old(arr[..]))
    ensures rc == 0 || (rc == -1 && Pow2(STACK) <= arr.Length)
    ensures rc == 0 ==>
              && sp0 <= sp <= sp0 + 1 && sp <= STACK && (more ==> lo < hi)
              && (sp > sp0 ==> Pow2(sp) <= arr.Length)
    ensures rc == 0 ==> var rs := stack[..sp] + (if more then [Range(lo, hi)] else []);
              Pending(o, arr[..], rs) && Weight(rs) < old(Weight(stack[..sp0] + [Range(lo0, hi0)]))
  {
    hide Pending, Parting, Weight, Halving, Pow2;
    ghost var was, rs, cur := arr[..], stack[..sp0], Range(lo0, hi0);
    RangeFits(o, was, rs, cur);
    var i, j;
    ghost var pivot;
    i, j, pivot := Partition(o, arr, lo0, hi0);
    PartingFacts(o, was, arr[..], lo0, hi0, i, j, pivot);
    SplitPending(o, was, arr[..], rs, cur, i, j, pivot);
    var leftSize, rightSize := j - lo0 + 1, hi0 - i + 1;
    rc, sp, more := 0, sp0, true;
    lo, hi := lo0, hi0;
    if leftSize > 1 && rightSize > 1 {
      PendingHalves(o, was, rs, cur);
      if sp >= stack.Length { return -1, sp, lo, hi, true; }
      if leftSize < rightSize {
        stack[sp] := Range(i, hi0);
        sp := sp + 1;
        lo, hi := lo0, j;
      } else {
        stack[sp] := Range(lo0, j);
        sp := sp + 1;
        lo, hi := i, hi0;
      }
      assert stack[..sp] == rs + [stack[sp0]];
      assert stack[..sp] + [Range(lo, hi)] == rs + [stack[sp0], Range(lo, hi)];
      return;
    }
    if leftSize > 1 {
      lo, hi := lo0, j;
      return;
    }
    if rightSize > 1 {
      lo, hi := i, hi0;
      return;
    }
    more := false;
  }

  lemma RangeFits(o: Opts, a: seq<Text>, rs: seq<Range>, cur: Range)
    requires Pending(o, a, rs + [cur])
    ensures 0 <= cur.lo < cur.hi < |a|
  {
    assert (rs + [cur])[|rs|] == cur;
  }

  lemma PartingFacts(o: Opts, was: seq<Text>, now: seq<Text>, lo: int, hi: int, i: int, j: int, pivot: Text)
    requires Parting(o, was, now, lo, hi, i, j, pivot, true)
    ensures lo < i <= hi + 1 && lo - 1 <= j < hi && multiset(now) == multiset(was) && |now| == |was|
  {
  }

  lemma PendingHalves(o: Opts, a: seq<Text>, rs: seq<Range>, cur: Range)
    requires Pending(o, a, rs + [cur]) && cur.Size() >= 4
    ensures Pow2(|rs| + 1) <= |a| && (|rs| >= STACK ==> Pow2(STACK) <= |a|)
  {
    DeepNeedsMany(rs, cur, |a|);
  }

  /** quicksort_iter: sorts in place. The stack never holds more than log2 of the number of lines
      (depth is its largest height), so its overflow check cannot fire for a C int length. */
  method QuicksortIter(o: Opts, arr: array<Text>) returns (rc: int, ghost depth: nat)
    modifies arr
    ensures multiset(arr[..]) == multiset(old(arr[..]))
    ensures rc == 0 ==> Sorted(o, arr[..])
    ensures arr.Length > 0 ==> Pow2(depth) <= arr.Length
    ensures rc == 0 || (rc == -1 && Pow2(STACK) <= arr.Length)
    ensures arr.Length < 0x8000_0000 ==> rc == 0
  {
    hide Pending, Weight, Pow2, Le;
    depth := 0;
    rc := 0;
    SmallPowers();
    var n := arr.Length;
    if n <= 1 { return; }
    var stack := new Range[STACK];
    var sp: nat := 1;
    stack[0] := Range(0, n - 1);
    depth := 1;
    StartPending(o, arr[..], stack[..sp]);
    while sp > 0
      invariant sp <= STACK && sp <= depth && Pow2(depth) <= n
      invariant Pending(o, arr[..], stack[..sp]) && multiset(arr[..]) == multiset(old(arr[..]))
      decreases Weight(stack[..sp])
    {
      ghost var weight := Weight(stack[..sp]);
      assert stack[..sp] == stack[..sp - 1] + [stack[sp - 1]];
      sp := sp - 1;
      var r := stack[sp];
      RangeFits(o, arr[..], stack[..sp], r);
      var lo: nat, hi: nat := r.lo, r.hi;
      PopLighter(stack[..sp], r);
      while lo < hi
        invariant lo < hi && sp <= STACK && sp <= depth && Pow2(depth) <= n
        invariant Pending(o, arr[..], stack[..sp] + [Range(lo, hi)]) && multiset(arr[..]) == multiset(old(arr[..]))
        invariant Weight(stack[..sp] + [Range(lo, hi)]) <= weight
        decreases Weight(stack[..sp] + [Range(lo, hi)])
      {
        NotNegative(o, arr[..], stack[..sp] + [Range(lo, hi)]);
        var code, sp1, lo1, hi1, more := SplitOnce(o, arr, stack, sp, lo, hi);
        if code != 0 { return -1, depth; }
        sp, lo, hi := sp1, lo1, hi1;
        if sp > depth { depth := sp; }
        if !more {
          assert stack[..sp] + [] == stack[..sp];
          break;
        }
      }
      NotNegative(o, arr[..], stack[..sp]);
    }
    AllSettled(o, arr[..], stack[..sp]);
  }

  lemma SmallPowers()
    ensures Pow2(0) == 1 && Pow2(1) == 2 && Pow2(STACK) >= 0x8000_0000
  {
    assert Pow2(31) >= 0x8000_0000 by {
      assert Pow2(4) == 16 && Pow2(8) == 256;
      assert Pow2(12) == 4096 && Pow2(16) == 65536;
      assert Pow2(20) == 1048576 && Pow2(24) == 16777216;
      assert Pow2(28) == 268435456;
    }
    Pow2Grows(31, STACK);
  }

  lemma StartPending(o: Opts, a: seq<Text>, rs: seq<Range>)
    requires |a| > 1 && rs == [Range(0, |a| - 1)]
    ensures Pending(o, a, rs)
  {
    hide Le;
    forall p, q | 0 <= p < q < |a|
      ensures Covered(rs, p, q)
    {
      assert Covers(rs[0], p, q);
    }
    assert rs[0].Size() * Pow2(0) == |a|;
  }

  lemma PopLighter(rs: seq<Range>, r: Range)
    ensures Weight(rs + [r]) == Weight(rs) + 2 * r.Size() - 1
  {
  }

  lemma {:induction false} NotNegative(o: Opts, a: seq<Text>, rs: seq<Range>)
    requires Pending(o, a, rs)
    ensures Weight(rs) >= 0
  {
    hide Le;
    AreNotNegative(rs, |a|);
  }

  lemma {:induction false} AreNotNegative(rs: seq<Range>, n: nat)
    requires Apart(rs, n)
    ensures Weight(rs) >= 0
  {
    if rs != [] { AreNotNegative(rs[..|rs| - 1], n); }
  }

  lemma AllSettled(o: Opts, a: seq<Text>, rs: seq<Range>)
    requires Pending(o, a, rs) && rs == []
    ensures Sorted(o, a)
  {
  }

  // ----- output

  predicate StrictlySorted(o: Opts, a: seq<Text>) { forall p, q :: 0 <= p < q < |a| ==> Compare(o, a[p], a[q]) < 0 }

  lemma StrictlyAfter(o: Opts, x: Text, last: Text, s: Text)
    requires Le(o, x, last) && Le(o, last, s) && last != s
    ensures Compare(o, x, s) < 0
  {
    LeTransitive(o, x, last, s);
    CompareFlips(o, x, s);
    CompareFlips(o, last, s);
  }

  /** The distinct lines of a sorted list so far: strictly ascending, the last one being the last seen. */
  ghost predicate Uniques(o: Opts, seen: seq<Text>, out: seq<Text>) {
    && StrictlySorted(o, out) && (forall x :: x in out <==> x in seen)
    && (seen != [] ==> out != [] && out[|out| - 1] == seen[|seen| - 1])
  }

  lemma UniqueStep(o: Opts, seen: seq<Text>, out: seq<Text>, s: Text)
    requires Uniques(o, seen, out) && (seen != [] ==> Le(o, seen[|seen| - 1], s))
    ensures if seen != [] && seen[|seen| - 1] == s then Uniques(o, seen + [s], out)
              else Uniques(o, seen + [s], out + [s])
  {
    hide Compare;
    if seen != [] && seen[|seen| - 1] == s {
      assert s in seen;
    } else {
      forall p | 0 <= p < |out|
        ensures Compare(o, out[p], s) < 0
      {
        var last := out[|out| - 1];
        assert out[p] in seen;
        CompareFlips(o, last, last);
        StrictlyAfter(o, out[p], last, s);
      }
    }
  }

  /** The output loop: all lines, or with -u each distinct line once, in strict order. */
  method Emit(o: Opts, lines: seq<Text>) returns (out: seq<Text>)
    requires Sorted(o, lines)
    ensures !o.unique ==> out == lines
    ensures o.unique ==> StrictlySorted(o, out) && forall x :: x in out <==> x in lines
    ensures o.unique ==> forall p, q :: 0 <= p < q < |out| ==> out[p] != out[q]
  {
    hide Compare, StrictlySorted;
    out := [];
    var havePrev, prev: Text := false, [];
    NoneSeen(o);
    for k := 0 to |lines|
      invariant !o.unique ==> out == lines[..k]
      invariant o.unique ==> Uniques(o, lines[..k], out) && havePrev == (k > 0) && (k > 0 ==> prev == lines[k - 1])
    {
      var s := lines[k];
      assert lines[..k + 1] == lines[..k] + [s];
      if o.unique {
        UniqueStep(o, lines[..k], out, s);
        var same := SameText(prev, s);
        if havePrev && same { continue; }
        havePrev, prev := true, s;
      }
      out := out + [s];
    }
    assert lines[..|lines|] == lines;
    if o.unique { StrictMeansDistinct(o, out); }
  }

  lemma StrictMeansDistinct(o: Opts, out: seq<Text>)
    requires StrictlySorted(o, out)
    ensures forall p, q :: 0 <= p < q < |out| ==> out[p] != out[q]
  {
    hide Compare;
    forall p, q | 0 <= p < q < |out|
      ensures out[p] != out[q]
    {
      CompareFlips(o, out[p], out[q]);
    }
  }

  lemma NoneSeen(o: Opts)
    ensures Uniques(o, [], [])
  {
  }

  /** sort from loaded lines to printed ones, with its exit status. */
  method SortLines(o: Opts, arr: array<Text>) returns (status: int, out: seq<Text>)
    requires arr.Length < 0x8000_0000
    modifies arr
    ensures status == 0
    ensures !o.unique ==> Sorted(o, out) && multiset(out) == multiset(old(arr[..]))
    ensures o.unique ==> StrictlySorted(o, out) && forall x :: x in out <==> x in old(arr[..])
    ensures o.unique ==> forall p, q :: 0 <= p < q < |out| ==> out[p] != out[q]
  {
    ghost var was: seq<Text> := arr[..];
    var rc;
    ghost var depth;
    rc, depth := QuicksortIter(o, arr);
    if rc != 0 { return 1, []; }
    SameMembers(was, arr[..]);
    out := Emit(o, arr[..]);
    return 0, out;
  }

  lemma SameMembers(a: seq<Text>, b: seq<Text>)
    requires multiset(a) == multiset(b)
    ensures forall x :: x in a <==> x in b
  {
    forall x
      ensures x in a <==> x in b
    {
      assert x in multiset(a) <==> x in multiset(b);
    }
  }

  lemma TailOf(a: seq<Text>)
    requires a != []
    ensures a == [a[0]] + a[1..] && multiset(a[1..]) == multiset(a) - multiset{a[0]}
  {
    assert multiset(a) == multiset([a[0]]) + multiset(a[1..]) by { assert a == [a[0]] + a[1..]; }
  }

  lemma SortedTail(o: Opts, a: seq<Text>)
    requires Sorted(o, a) && a != []
    ensures Sorted(o, a[1..])
  {
    hide Le;
  }

  lemma LeastFirst(o: Opts, a: seq<Text>, b: seq<Text>)
    requires Sorted(o, a) && Sorted(o, b) && a != [] && b != [] && (forall x :: x in a <==> x in b)
    ensures a[0] == b[0]
  {
    hide Compare;
    assert a[0] in b && b[0] in a;
    CompareFlips(o, a[0], b[0]);
  }

  /** Sorting leaves no choice: one order of the lines only is sorted, so any correct sort prints the same. */
  lemma {:induction false} SortedUnique(o: Opts, a: seq<Text>, b: seq<Text>)
    requires Sorted(o, a) && Sorted(o, b) && multiset(a) == multiset(b)
    ensures a == b
    decreases |a|
  {
    hide Sorted, Compare;
    assert |a| == |multiset(a)| == |multiset(b)| == |b|;
    if a != [] {
      SameMembers(a, b);
      LeastFirst(o, a, b);
      TailOf(a);
      TailOf(b);
      SortedTail(o, a);
      SortedTail(o, b);
      SortedUnique(o, a[1..], b[1..]);
    }
  }
}
