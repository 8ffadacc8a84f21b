/** One process's user address space: its break, its stack limit and its table of mappings. */
module AddressSpace {
  import opened Errno

  const U64 := 0x1_0000_0000_0000_0000
  const PAGE := 4096
  const MAX_VMAS := 32
  const BASE := 0x400000
  const TOP := 0x600000            // BASE + USER_REGION_SIZE
  const STACK_GUARD := 0x40000     // 256 KiB
  const HEAP_GUARD := 0x10000      // 64 KiB

  const MAP_PRIVATE: bv64 := 0x02
  const MAP_FIXED: bv64 := 0x10
  const MAP_ANONYMOUS: bv64 := 0x20
  const MAP_STACK: bv64 := 0x20000

  datatype Vma = Vma(used: bool, base: nat, len: nat) {
    predicate Has(x: int) { used && base <= x < base + len }

    /** Some byte lies in [lo, hi); for an empty range, lo is strictly inside. */
    predicate Meets(lo: int, hi: int) { used && base < hi && lo < base + len }
  }

  const NO_VMA := Vma(false, 0, 0)

  /** Rounding up in 64-bit arithmetic. */
  function PageUp(x: nat): nat { (x + PAGE - 1) % U64 / PAGE * PAGE }

  function PageDown(x: nat): nat { x / PAGE * PAGE }

  function Up16(x: nat): nat { (x + 15) % U64 / 16 * 16 }

  predicate PageAligned(x: int) { x % PAGE == 0 }

  /** The length rounds up to whole pages, and past BASE, without wrapping. */
  predicate NoWrap(len: nat) {
    (len + PAGE - 1) / PAGE * PAGE + BASE < U64
  }

  predicate VmaOk(v: Vma) {
    v.used ==> v.len > 0 && PageAligned(v.base) && PageAligned(v.len) && BASE <= v.base && v.base + v.len <= TOP
  }

  /** Nonempty, page-aligned, inside the user region, pairwise disjoint. */
  predicate VmasOk(vmas: seq<Vma>) {
    && |vmas| == MAX_VMAS
    && (forall i :: 0 <= i < MAX_VMAS ==> VmaOk(vmas[i]))
    && (forall i, j :: 0 <= i < j < MAX_VMAS && vmas[i].used && vmas[j].used ==>
          vmas[i].base + vmas[i].len <= vmas[j].base || vmas[j].base + vmas[j].len <= vmas[i].base)
  }

  /** Address x is mapped. */
  predicate Mapped(vmas: seq<Vma>, x: int) {
    exists i :: 0 <= i < |vmas| && vmas[i].Has(x)
  }

  /** Where len bytes from b end for the code: a length within BASE of 2^64 wraps around, to an end below b. */
  function EndOf(b: int, len: nat): int {
    if len >= U64 - BASE then b + len - U64 else b + len
  }

  /** No mapping overlaps len bytes from b, as far as the code's comparisons tell. */
  predicate Fits(vmas: seq<Vma>, b: int, len: nat) {
    forall i :: 0 <= i < |vmas| ==> !vmas[i].Meets(b, EndOf(b, len))
  }

  function FirstUnused(vmas: seq<Vma>, i: nat := 0): (s: int)
    requires i <= |vmas|
    ensures s == -1 || i <= s < |vmas|
    ensures s == -1 ==> forall j :: i <= j < |vmas| ==> vmas[j].used
    ensures s >= 0 ==> !vmas[s].used && forall j :: i <= j < s ==> vmas[j].used
    decreases |vmas| - i
  {
    if i == |vmas| then -1 else if !vmas[i].used then i else FirstUnused(vmas, i + 1)
  }

  /** proc_mmap_hi: nothing is mapped at or above this, given the stack limit. */
  function Ceiling(stackLow: nat): (hi: nat)
    ensures BASE <= hi <= TOP && PageAligned(hi)
  {
    var lim := if stackLow > BASE + STACK_GUARD && stackLow - STACK_GUARD < TOP then stackLow - STACK_GUARD else TOP;
    var hi := PageDown(lim);
    if hi < BASE then BASE else hi
  }

  /** Mappings must stay at or above this, given the heap. */
  function HeapLimit(heapBase: nat, heapEnd: nat): nat {
    PageUp(if heapEnd < heapBase then heapBase else heapEnd) + HEAP_GUARD
  }

  /** b is a place where len bytes could go, ending at or below end and clearing the heap. */
  predicate Placement(vmas: seq<Vma>, b: int, len: nat, end: nat, floor: nat) {
    PageAligned(b) && BASE <= b && floor <= b && EndOf(b, len) <= end && Fits(vmas, b, len)
  }

  /** The n bytes at b are on whole pages, at least 64 KiB above the heap, inside the user region and at least
      256 KiB below the stack. */
  predicate Clears(b: int, n: int, heapTop: nat, stackLow: nat) {
    && b % 4096 == 0 && heapTop + 0x10000 <= b && b + n <= 0x600000
    && (stackLow > 0x440000 ==> b + n <= stackLow - 0x40000)
  }

  /** No mapping has a byte among the n at b. */
  predicate Free(vmas: seq<Vma>, b: int, n: int) {
    forall i :: 0 <= i < |vmas| && vmas[i].used ==> b + n <= vmas[i].base || vmas[i].base + vmas[i].len <= b
  }

  /** Byte x is on a page that is wholly inside the user region and at least 256 KiB below the stack. */
  predicate BelowStack(x: int, stackLow: nat) {
    x < 0x600000 && (stackLow > 0x440000 ==> x < (stackLow - 0x40000) / 4096 * 4096)
  }

  /** A search from next on misses nothing: everything from there to 256 KiB below the stack is mapped. */
  ghost predicate FromTop(vmas: seq<Vma>, next: nat, stackLow: nat) {
    next == 0 || forall x: int :: next <= x && BelowStack(x, stackLow) ==> Mapped(vmas, x)
  }

  function Max(a: nat, b: nat): nat { if a < b then b else a }

  /** Where the heap starts; 0 means that nobody has asked yet. */
  function BaseOf(heapBase: nat): nat { if heapBase == 0 then BASE else heapBase }

  class UserSpace {
    var vmas: seq<Vma>
    var heapBase: nat
    var heapEnd: nat
    var stackLow: nat
    var mmapNext: nat
    var sp: nat

    predicate HeapOk()
      reads this
    {
      && (heapBase == 0 || BASE <= heapBase <= TOP) && heapEnd <= TOP && stackLow < U64 && sp < U64
      && (mmapNext == 0 || BASE <= mmapNext) && |vmas| == MAX_VMAS
    }

    predicate Valid()
      reads this
    {
      HeapOk() && VmasOk(vmas)
    }

    constructor (heap: nat, stack: nat)
      requires (heap == 0 || BASE <= heap <= TOP) && stack < U64
      ensures Valid() && (forall x :: !Mapped(vmas, x)) && vmas == seq(MAX_VMAS, i => NO_VMA)
      ensures heapBase == heapEnd == heap && stackLow == sp == stack && mmapNext == 0
    {
      vmas := seq(MAX_VMAS, i => NO_VMA);
      heapBase, heapEnd, stackLow, mmapNext, sp := heap, heap, stack, 0, stack;
    }

    /** vma_overlaps; end is base + len in 64-bit arithmetic. */
    method Overlaps(base: nat, len: nat) returns (hit: bool, at: nat)
      requires |vmas| == MAX_VMAS && forall i :: 0 <= i < MAX_VMAS ==> VmaOk(vmas[i])
      ensures var end := (base + len) % U64;
              && (hit <==> exists i :: 0 <= i < MAX_VMAS && vmas[i].Meets(base, end))
              && (hit ==> exists i :: 0 <= i < MAX_VMAS && vmas[i].Meets(base, end) && vmas[i].base == at)
    {
      var end := (base + len) % U64;
      for i := 0 to MAX_VMAS
        invariant forall j :: 0 <= j < i ==> !vmas[j].Meets(base, end)
      {
        if vmas[i].used {
          var b := vmas[i].base;
          var e := b + vmas[i].len;
          if !(end <= b || base >= e) {
            return true, b;
          }
        }
      }
      return false, 0;
    }

    method FindUnused() returns (s: int)
      requires |vmas| == MAX_VMAS
      ensures s == FirstUnused(vmas)
    {
      for i := 0 to MAX_VMAS
        invariant FirstUnused(vmas) == FirstUnused(vmas, i)
      {
        if !vmas[i].used { return i; }
      }
      return -1;
    }

    /** What every system call starts with: the stack pointer is saved, and the stack limit follows it down. */
    method Enter(stack: nat)
      requires Valid() && stack < U64
      modifies this`sp, this`stackLow
      ensures Valid() && sp == stack && stackLow == LowerTo(old(stackLow), stack)
      ensures stackLow == if 0 < old(stackLow) <= stack then old(stackLow) else stack
    {
      sp := stack;
      if stackLow == 0 || sp < stackLow { stackLow := sp; }
    }

    /** Lazy initialisation shared by brk and mmap. */
    method EnsureBounds()
      requires HeapOk()
      modifies this`heapBase, this`heapEnd, this`stackLow
      ensures HeapOk() && heapBase == BaseOf(old(heapBase)) >= BASE
      ensures heapBase == if old(heapBase) == 0 then 0x400000 else old(heapBase)
      ensures heapEnd == if old(heapBase) == 0 then BASE else old(heapEnd)
      ensures stackLow == if old(stackLow) == 0 then sp else old(stackLow)
    {
      if heapBase == 0 {
        heapBase := Up16(BASE);
        heapEnd := heapBase;
      }
      if stackLow == 0 { stackLow := sp; }
    }

    /** The top-down search of sys_mmap from start: the highest free placement at or
        below it wins, unless it would come too close to the heap. */
    method SearchDown(start: nat, alen: nat, floor: nat) returns (r: int)
      requires Valid() && PageAligned(start) && BASE <= start <= TOP && PageAligned(alen) && alen < U64
      ensures r >= -1
      ensures r >= 0 ==>
                && Placement(vmas, r, alen, start, floor)
                && forall b :: r < b && PageAligned(b) && EndOf(b, alen) <= start ==> !Fits(vmas, b, alen)
      ensures r == -1 ==> forall b :: !Placement(vmas, b, alen, start, floor)
    {
      hide PageUp, PageDown;
      var end := start;
      while true
        invariant PageAligned(end) && BASE <= end <= start
        invariant forall b :: PageAligned(b) && end < EndOf(b, alen) <= start ==> !Fits(vmas, b, alen)
        decreases end
      {
        if end < (BASE + alen) % U64 { return -1; }
        var base := PageDown((end - alen) % U64);
        Candidate(end, alen);
        if base < floor { return -1; }
        var hit, at := Overlaps(base, alen);
        if !hit { return base; }
        SkipIsSafe(vmas, base, alen, at);
        AlreadyAligned(at);
        end := PageDown(at);
      }
    }

    /** sys_munmap's recomputation of where the next search starts. */
    method Recompute() returns (top: nat)
      requires VmasOk(vmas)
      ensures BASE <= top <= Ceiling(stackLow) && PageAligned(top)
      ensures forall x :: top <= x < Ceiling(stackLow) ==> Mapped(vmas, x)
      ensures forall i :: 0 <= i < MAX_VMAS && vmas[i].used ==> vmas[i].base + vmas[i].len != top
    {
      top := Ceiling(stackLow);
      var found := true;
      while found
        invariant BASE <= top <= Ceiling(stackLow) && PageAligned(top)
        invariant forall x :: top <= x < Ceiling(stackLow) ==> Mapped(vmas, x)
        invariant !found ==> forall i :: 0 <= i < MAX_VMAS && vmas[i].used ==> vmas[i].base + vmas[i].len != top
        decreases top, found
      {
        found := false;
        ghost var was := top;
        var i := 0;
        while i < MAX_VMAS
          invariant 0 <= i <= MAX_VMAS && top == was && !found
          invariant forall j :: 0 <= j < i && vmas[j].used ==> vmas[j].base + vmas[j].len != top
        {
          if vmas[i].used && vmas[i].base + vmas[i].len == top {
            assert forall x :: vmas[i].base <= x < top ==> vmas[i].Has(x);
            top := vmas[i].base;
            found := true;
            break;
          }
          i := i + 1;
        }
      }
    }

    /** sys_brk. */
    method Brk(newbrk: nat) returns (r: nat)
      requires HeapOk() && newbrk < U64
      modifies this`heapBase, this`heapEnd, this`stackLow
      ensures HeapOk() && r == heapEnd
      ensures var base := BaseOf(old(heapBase));
              var end := if old(heapBase) == 0 then BASE else old(heapEnd);
              var stack := if old(stackLow) == 0 then sp else old(stackLow);
              var max := if stack > BASE + STACK_GUARD && stack - STACK_GUARD < TOP then stack - STACK_GUARD else TOP;
              && heapBase == base && stackLow == stack
              && r == (if newbrk == 0 || Up16(newbrk) < base || Up16(newbrk) > max then end else Up16(newbrk))
              // the break moves up to the next multiple of 16, and stays clear of the stack
              && (r != end ==> newbrk <= r < newbrk + 16 && r % 16 == 0 && r <= 0x600000)
              && (r != end && stack > 0x440000 ==> r <= stack - 0x40000)
    {
      EnsureBounds();
      if newbrk == 0 { return heapEnd; }
      var max := TOP;
      if stackLow > BASE + STACK_GUARD {
        var lim := stackLow - STACK_GUARD;
        if lim < max { max := lim; }
      }
      var b := Up16(newbrk);
      if b < heapBase || b > max { return heapEnd; }
      heapEnd := b;
      return heapEnd;
    }

    /** The hint part of sys_mmap: the exact place asked for, or -1. */
    method TryHint(addr: nat, alen: nat) returns (r: int)
      requires Valid() && addr < U64 && PageAligned(addr) && PageAligned(alen) && alen < U64
      modifies this`vmas
      ensures var fits := HintFits(old(vmas), addr, alen, Ceiling(stackLow), HeapLimit(heapBase, heapEnd));
              r == if fits && FirstUnused(old(vmas)) >= 0 then addr else -1
      ensures r < 0 ==> vmas == old(vmas)
      ensures r >= 0 ==> vmas == old(vmas)[FirstUnused(old(vmas)) := Vma(true, addr, alen)]
    {
      hide Ceiling, HeapLimit, FirstUnused;
      var end := (addr + alen) % U64;
      if end < addr { return -1; }
      var hi := Ceiling(stackLow);
      var floor := HeapLimit(heapBase, heapEnd);
      if !(addr >= BASE && end <= hi && addr >= floor) { return -1; }
      var hit, at := Overlaps(addr, alen);
      if hit { return -1; }
      var slot := FindUnused();
      if slot < 0 { return -1; }
      vmas := vmas[slot := Vma(true, addr, alen)];
      return addr;
    }

    /** sys_mmap. */
    method Mmap(addr: nat, len: nat, flags: bv64, fd: int, off: nat) returns (r: int)
      requires Valid() && addr < U64 && len < U64
      modifies this`vmas, this`heapBase, this`heapEnd, this`stackLow, this`mmapNext
      ensures HeapOk()
      // a length that rounds without wrapping keeps the table sound; any other length that is
      // accepted breaks it
      ensures if r < 0 then vmas == old(vmas) else (VmasOk(vmas) <==> NoWrap(len))
      ensures r >= 0 ==>
                && FirstUnused(old(vmas)) >= 0
                && vmas == old(vmas)[FirstUnused(old(vmas)) := Vma(true, r, PageUp(len))]
                && forall x: int :: Mapped(vmas, x) <==> Mapped(old(vmas), x) || r <= x < r + PageUp(len)
      ensures if len == 0 || !Supported(flags, fd, off) then unchanged(this)
              else heapBase == BaseOf(old(heapBase)) && heapEnd == (if old(heapBase) == 0 then BASE else old(heapEnd))
                   && stackLow == if old(stackLow) == 0 then sp else old(stackLow)
      ensures len == 0 || (addr != 0 && !PageAligned(addr) && Supported(flags, fd, off)) ==> r == -EINVAL
      ensures len > 0 && !Supported(flags, fd, off) ==> r == -ENOSYS
      ensures len > 0 && Supported(flags, fd, off) && PageAligned(addr) ==>
                MmapOutcome(old(vmas), addr, PageUp(len), heapBase, heapEnd, stackLow,
                            Start(old(mmapNext), stackLow), r, mmapNext)
      // in numbers: which requests are supported, and where a mapping goes
      ensures len > 0 ==> (r == -ENOSYS <==> !(fd == -1 && off == 0 && flags in {0x22, 0x20022}))
      ensures r >= 0 && NoWrap(len) ==>
                && Clears(r, PageUp(len), Max(heapBase, heapEnd), stackLow) && Free(old(vmas), r, PageUp(len))
                && len <= PageUp(len) < len + 4096 && PageUp(len) % 4096 == 0
      ensures len > 0 && Supported(flags, fd, off) && PageAligned(addr) && NoWrap(len) ==>
                Placed(old(vmas), addr, PageUp(len), Max(heapBase, heapEnd), stackLow, old(mmapNext), r)
    {
      hide NoWrap, PageUp, HeapLimit, Supported, FirstUnused, MmapOutcome, ChosenPlace, Clears, Free, Placed, Start;
      SupportedFlags(flags, fd, off);
      if len == 0 { return -EINVAL; }
      var supported := Check(flags, fd, off);
      if !supported { return -ENOSYS; }
      if !PageAligned(addr) {
        EnsureBounds();
        return -EINVAL;
      }
      r := Place(addr, len);
    }

    /** The part of sys_mmap after its checks. */
    method Place(addr: nat, len: nat) returns (r: int)
      requires Valid() && addr < U64 && PageAligned(addr) && 0 < len < U64
      modifies this`vmas, this`heapBase, this`heapEnd, this`stackLow, this`mmapNext
      ensures HeapOk()
      ensures if r < 0 then r == -ENOMEM && vmas == old(vmas) else (VmasOk(vmas) <==> NoWrap(len))
      ensures r >= 0 ==>
                && FirstUnused(old(vmas)) >= 0
                && vmas == old(vmas)[FirstUnused(old(vmas)) := Vma(true, r, PageUp(len))]
                && forall x: int :: Mapped(vmas, x) <==> Mapped(old(vmas), x) || r <= x < r + PageUp(len)
      ensures heapBase == BaseOf(old(heapBase)) && heapEnd == (if old(heapBase) == 0 then BASE else old(heapEnd))
      ensures stackLow == if old(stackLow) == 0 then sp else old(stackLow)
      ensures MmapOutcome(old(vmas), addr, PageUp(len), heapBase, heapEnd, stackLow, Start(old(mmapNext), stackLow), r,
                          mmapNext)
      ensures r >= 0 && NoWrap(len) ==>
                && Clears(r, PageUp(len), Max(heapBase, heapEnd), stackLow) && Free(old(vmas), r, PageUp(len))
                && len <= PageUp(len) < len + 4096 && PageUp(len) % 4096 == 0
      ensures NoWrap(len) ==>
                Placed(old(vmas), addr, PageUp(len), Max(heapBase, heapEnd), stackLow, old(mmapNext), r)
    {
      hide NoWrap, PageUp, HeapLimit, FirstUnused, Clears, Free, Placed, Start, ChosenPlace, Mapped, VmasOk;
      var alen := PageUp(len);
      PageUpCases(len);
      EnsureBounds();
      if addr != 0 {
        r := TryHint(addr, alen);
        if r >= 0 {
          InsertedOk(old(vmas), FirstUnused(old(vmas)), addr, len);
          MmapNumbers(old(vmas), addr, len, heapBase, heapEnd, stackLow, old(mmapNext), r, mmapNext);
          return;
        }
      }
      r := Choose(len, alen);
      ChosenAnswers(old(vmas), alen, HeapLimit(heapBase, heapEnd), Start(old(mmapNext), stackLow), r, mmapNext);
      MmapNumbers(old(vmas), addr, len, heapBase, heapEnd, stackLow, old(mmapNext), r, mmapNext);
    }

    /** The requests sys_mmap supports. */
    method Check(flags: bv64, fd: int, off: nat) returns (ok: bool)
      ensures ok == Supported(flags, fd, off)
    {
      if fd != -1 { return false; }
      if off != 0 { return false; }
      if flags & (MAP_PRIVATE | MAP_ANONYMOUS) != MAP_PRIVATE | MAP_ANONYMOUS { return false; }
      if flags & MAP_FIXED != 0 { return false; }
      if flags & !(MAP_PRIVATE | MAP_ANONYMOUS | MAP_STACK) != 0 { return false; }
      return true;
    }

    /** The part of sys_mmap that picks the address itself. */
    method Choose(ghost len: nat, alen: nat) returns (r: int)
      requires Valid() && heapBase >= BASE && 0 < len < U64 && alen == PageUp(len)
      modifies this`vmas, this`mmapNext
      ensures HeapOk()
      ensures if r < 0 then vmas == old(vmas) else (VmasOk(vmas) <==> NoWrap(len))
      ensures r >= 0 ==>
                && FirstUnused(old(vmas)) >= 0
                && vmas == old(vmas)[FirstUnused(old(vmas)) := Vma(true, r, alen)]
                && forall x: int :: Mapped(vmas, x) <==> Mapped(old(vmas), x) || r <= x < r + alen
      ensures ChosenPlace(old(vmas), alen, HeapLimit(heapBase, heapEnd), Start(old(mmapNext), stackLow), r, mmapNext)
    {
      hide NoWrap, PageUp, HeapLimit, FirstUnused;
      PageUpCases(len);
      var hi := Ceiling(stackLow);
      if mmapNext == 0 {
        mmapNext := hi;
      } else if mmapNext > hi {
        mmapNext := hi;
      }
      StartOk(mmapNext);
      FloorOk(heapBase, heapEnd);
      r := SearchDown(PageDown(mmapNext), alen, HeapLimit(heapBase, heapEnd));
      if r < 0 { return -ENOMEM; }
      var slot := FindUnused();
      if slot < 0 { return -ENOMEM; }
      vmas := vmas[slot := Vma(true, r, alen)];
      InsertedOk(old(vmas), slot, r, len);
      mmapNext := r;
    }

    /** sys_munmap. */
    method Munmap(addr: nat, len: nat) returns (r: int)
      requires Valid() && addr < U64 && len < U64
      modifies this`vmas, this`mmapNext
      ensures Valid()
      ensures MunmapOutcome(old(vmas), vmas, addr, len, r)
      ensures r < 0 ==> mmapNext == old(mmapNext)
      ensures r == 0 ==> mmapNext <= Ceiling(stackLow)
      ensures r == 0 ==> forall x :: mmapNext <= x < Ceiling(stackLow) ==> Mapped(vmas, x)
      // in numbers: the next search misses nothing
      ensures r == 0 ==> mmapNext >= 0x400000 && FromTop(vmas, mmapNext, stackLow)
    {
      hide VmasOk, Ceiling, FirstUnused, FromTop;
      CeilingFromTop(stackLow);
      if !PageAligned(addr) { return -EINVAL; }
      if len == 0 { return -EINVAL; }
      var alen := PageUp(len);
      var end := (addr + alen) % U64;
      if end < addr { return -EINVAL; }
      assert PageAligned(end) && end == addr + alen by { UnmapEnd(addr, len); }
      hide PageUp, PageAligned, Cut;
      ghost var was := vmas;
      var any := false;
      for i := 0 to MAX_VMAS
        invariant mmapNext == old(mmapNext) && |vmas| == MAX_VMAS
                    && (forall k :: i <= k < MAX_VMAS ==> vmas[k] == was[k])
        invariant forall k :: 0 <= k < i ==> !Splits(was[k], addr, end) && vmas[k] == Cut(was[k], addr, end)
        invariant any <==> exists k :: 0 <= k < i && was[k].Meets(addr, end)
      {
        var hit, split := TrimAt(i, addr, end);
        if split {
          OnlyOneSplits(was, i, addr, end);
          assert vmas == was;
          r := SplitAt(i, addr, end);
          return;
        }
        any := any || hit;
      }
      CutAll(was, vmas, addr, end);
      if !any { return -EINVAL; }
      mmapNext := Recompute();
      return 0;
    }

    /** One turn of sys_munmap's loop: mapping i is skipped, removed or trimmed at one
        end - or has to be split, and is left for that. */
    method TrimAt(i: nat, addr: nat, end: nat) returns (hit: bool, split: bool)
      requires |vmas| == MAX_VMAS && i < MAX_VMAS && addr <= end
      modifies this`vmas
      ensures hit == old(vmas)[i].Meets(addr, end) && split == Splits(old(vmas)[i], addr, end)
      ensures vmas == if split then old(vmas) else old(vmas)[i := Cut(old(vmas)[i], addr, end)]
    {
      var v := vmas[i];
      if !v.used { return false, false; }
      var vb, ve := v.base, v.base + v.len;
      if end <= vb || addr >= ve { return false, false; }
      if addr <= vb && end >= ve {
        vmas := vmas[i := NO_VMA];
        return true, false;
      }
      if addr <= vb && end < ve {
        vmas := vmas[i := v.(base := end, len := ve - end)];
        return true, false;
      }
      if addr > vb && end >= ve {
        vmas := vmas[i := v.(len := addr - vb)];
        return true, false;
      }
      return true, true;
    }

    /** The range is strictly inside mapping i, and no other mapping meets it: one
        mapping becomes two, if there is a slot for the second. */
    method SplitAt(i: nat, addr: nat, end: nat) returns (r: int)
      requires Valid() && i < MAX_VMAS && PageAligned(addr) && PageAligned(end) && addr <= end
                 && Splits(vmas[i], addr, end)
      requires forall k :: 0 <= k < MAX_VMAS && k != i ==> !vmas[k].Meets(addr, end)
      modifies this`vmas, this`mmapNext
      ensures Valid()
      ensures if FirstUnused(old(vmas)) < 0
              then r == -ENOMEM && vmas == old(vmas) && mmapNext == old(mmapNext)
              else r == 0 && forall x: int :: Mapped(vmas, x) <==> Mapped(old(vmas), x) && !(addr <= x < end)
      ensures r == 0 ==> BASE <= mmapNext <= Ceiling(stackLow)
      ensures r == 0 ==> forall x :: mmapNext <= x < Ceiling(stackLow) ==> Mapped(vmas, x)
    {
      hide Ceiling;
      var slot := FindUnused();
      if slot < 0 { return -ENOMEM; }
      var vb, ve := vmas[i].base, vmas[i].base + vmas[i].len;
      ghost var was := vmas;
      vmas := vmas[i := vmas[i].(len := addr - vb)];
      vmas := vmas[slot := Vma(true, end, ve - end)];
      SplitMaps(was, vmas, i, slot, addr, end);
      // nothing in the table meets the range any more, so the rest of the scan changes nothing
      assert forall k :: 0 <= k < MAX_VMAS ==> !vmas[k].Meets(addr, end);
      mmapNext := Recompute();
      return 0;
    }

    /** Every run of system calls, each with the stack pointer it is made with: while every mmap length rounds
        without wrapping, the table stays sound, an address is mapped exactly when the results of the calls say
        so, and the stack limit is the lowest stack pointer seen. */
    method Run(calls: seq<Syscall>) returns (results: seq<int>)
      requires Valid()
      requires forall i :: 0 <= i < |calls| ==> calls[i].sp < U64 && calls[i].call.Sane()
      modifies this
      ensures Valid() && |results| == |calls|
      ensures forall x: int :: Mapped(vmas, x) <==> MappedBy(Mapped(old(vmas), x), calls, results, x, |calls|)
      ensures stackLow == Lowest(old(stackLow), calls, |calls|)
    {
      hide VmasOk, Mapped, LowerTo, MmapOutcome, PageUp, Supported;
      results := [];
      for i := 0 to |calls|
        invariant Valid() && |results| == i && stackLow == Lowest(old(stackLow), calls, i)
        invariant forall x: int :: Mapped(vmas, x) <==> MappedBy(Mapped(old(vmas), x), calls, results, x, i)
      {
        assert calls[i].sp < U64 && calls[i].call.Sane();
        ghost var was, before := results, vmas;
        Enter(calls[i].sp);
        Entered(old(stackLow), calls, i);
        var r := Do(calls[i].call);
        results := results + [r];
        forall x: int
          ensures Mapped(vmas, x) <==> MappedBy(Mapped(old(vmas), x), calls, results, x, i + 1)
        {
          ResultsSoFar(Mapped(old(vmas), x), calls, was, results, x, i);
          assert Mapped(before, x) <==> MappedBy(Mapped(old(vmas), x), calls, was, x, i);
        }
      }
    }

    /** One system call after its entry. */
    method Do(c: VmCall) returns (r: int)
      requires Valid() && c.Sane() && (stackLow == 0 ==> sp == 0)
      modifies this`vmas, this`heapBase, this`heapEnd, this`stackLow, this`mmapNext
      ensures Valid() && stackLow == old(stackLow)
      ensures forall x: int :: Mapped(vmas, x) <==> MappedAfter(Mapped(old(vmas), x), c, r, x)
    {
      hide VmasOk, Mapped, MmapOutcome, PageUp, Supported;
      match c {
        case Mmap(addr, len, flags, fd, off) => r := Mmap(addr, len, flags, fd, off);
        case Munmap(addr, len) => r := Munmap(addr, len);
        case Brk(b) => r := Brk(b);
        case Other => r := 0;
      }
    }
  }

  datatype VmCall =
    | Mmap(addr: nat, len: nat, flags: bv64, fd: int, off: nat)
    | Munmap(addr: nat, len: nat)
    | Brk(newbrk: nat)
    | Other
  {
    /** Arguments are 64-bit words; a length to map rounds without wrapping. */
    predicate Sane() {
      match this
      case Mmap(addr, len, _, _, _) => addr < U64 && len < U64 && NoWrap(len)
      case Munmap(addr, len) => addr < U64 && len < U64
      case Brk(b) => b < U64
      case Other => true
    }
  }

  datatype Syscall = Syscall(sp: nat, call: VmCall)

  /** The stack limit at a system call made with this stack pointer; 0 means that there is no limit yet. */
  function LowerTo(low: nat, stack: nat): nat {
    if low == 0 || stack < low then stack else low
  }

  function Lowest(low: nat, calls: seq<Syscall>, n: nat): nat
    requires n <= |calls|
  {
    if n == 0 then low else LowerTo(Lowest(low, calls, n - 1), calls[n - 1].sp)
  }

  /** The stack limit is the lowest stack pointer that any system call so far was made with. */
  lemma {:induction false} LowestMeans(low: nat, calls: seq<Syscall>, n: nat)
    requires low > 0 && n <= |calls| && forall k :: 0 <= k < n ==> calls[k].sp > 0
    ensures Lowest(low, calls, n) <= low && forall k :: 0 <= k < n ==> Lowest(low, calls, n) <= calls[k].sp
    ensures Lowest(low, calls, n) == low || exists k :: 0 <= k < n && Lowest(low, calls, n) == calls[k].sp
  {
    if n > 0 { LowestMeans(low, calls, n - 1); }
  }

  /** Is address x mapped after a call with result r? */
  predicate MappedAfter(before: bool, c: VmCall, r: int, x: int) {
    match c
    case Mmap(_, len, _, _, _) => before || (r >= 0 && r <= x < r + PageUp(len))
    case Munmap(addr, len) => before && !(r == 0 && addr <= x < addr + PageUp(len))
    case _ => before
  }

  /** ... and after the first n calls of a run? */
  predicate MappedBy(before: bool, calls: seq<Syscall>, results: seq<int>, x: int, n: nat)
    requires n <= |calls| && n <= |results|
  {
    if n == 0 then before
    else MappedAfter(MappedBy(before, calls, results, x, n - 1), calls[n - 1].call, results[n - 1], x)
  }

  lemma {:induction false} ResultsSoFar(before: bool, calls: seq<Syscall>, was: seq<int>, results: seq<int>, x: int,
                                        n: nat)
    requires n <= |calls| && n <= |was| && was <= results
    ensures MappedBy(before, calls, results, x, n) == MappedBy(before, calls, was, x, n)
  {
    if n > 0 { ResultsSoFar(before, calls, was, results, x, n - 1); }
  }

  lemma Entered(low: nat, calls: seq<Syscall>, n: nat)
    requires n < |calls|
    ensures Lowest(low, calls, n + 1) == LowerTo(Lowest(low, calls, n), calls[n].sp)
    ensures Lowest(low, calls, n + 1) == 0 ==> calls[n].sp == 0
  {
  }

  predicate Supported(flags: bv64, fd: int, off: nat) {
    && fd == -1 && off == 0
    && flags & (MAP_PRIVATE | MAP_ANONYMOUS) == MAP_PRIVATE | MAP_ANONYMOUS
    && flags & MAP_FIXED == 0
    && flags & !(MAP_PRIVATE | MAP_ANONYMOUS | MAP_STACK) == 0
  }

  /** Where the search of sys_mmap starts. */
  function Start(mmapNext: nat, stackLow: nat): nat {
    PageDown(if mmapNext == 0 || mmapNext > Ceiling(stackLow) then Ceiling(stackLow) else mmapNext)
  }

  predicate HintFits(vmas: seq<Vma>, addr: nat, alen: nat, hi: nat, floor: nat) {
    addr + alen < U64 && addr >= BASE && addr + alen <= hi && addr >= floor && Fits(vmas, addr, alen)
  }

  /** The answer of sys_mmap to a well-formed request whose length was rounded to alen: the hint if it
      fits; otherwise the highest free placement at or below start; ENOMEM only when
      none of them clears the heap or the table is full. */
  ghost predicate MmapOutcome(vmas: seq<Vma>, addr: nat, alen: nat, heapBase: nat, heapEnd: nat, stackLow: nat,
                              start: nat, r: int, next: nat)
  {
    var floor := HeapLimit(heapBase, heapEnd);
    if addr != 0 && HintFits(vmas, addr, alen, Ceiling(stackLow), floor) && FirstUnused(vmas) >= 0 then r == addr
    else ChosenPlace(vmas, alen, floor, start, r, next)
  }

  ghost predicate ChosenPlace(vmas: seq<Vma>, alen: nat, floor: nat, start: nat, r: int, next: nat) {
    if r >= 0 then
      && FirstUnused(vmas) >= 0 && next == r && Placement(vmas, r, alen, start, floor)
      && forall b :: r < b && PageAligned(b) && EndOf(b, alen) <= start ==> !Fits(vmas, b, alen)
    else
      r == -ENOMEM && (FirstUnused(vmas) < 0 || forall b :: !Placement(vmas, b, alen, start, floor))
  }

  /** The hint if it is free and clear; otherwise, when there is a slot and the search misses nothing, the highest
      place that is, and ENOMEM exactly when there is none. */
  ghost predicate Placed(vmas: seq<Vma>, addr: nat, n: nat, heapTop: nat, stackLow: nat, next: nat, r: int) {
    var slot := exists i :: 0 <= i < |vmas| && !vmas[i].used;
    && (slot && addr != 0 && Clears(addr, n, heapTop, stackLow) && Free(vmas, addr, n) ==> r == addr)
    && (slot && FromTop(vmas, next, stackLow) ==>
          && (r == -ENOMEM <==> forall b :: Clears(b, n, heapTop, stackLow) ==> !Free(vmas, b, n))
          && (r >= 0 && r != addr ==> forall b :: r < b && Clears(b, n, heapTop, stackLow) ==> !Free(vmas, b, n)))
  }

  lemma ChosenAnswers(vmas: seq<Vma>, alen: nat, floor: nat, start: nat, r: int, next: nat)
    requires ChosenPlace(vmas, alen, floor, start, r, next)
    ensures r < 0 ==> r == -ENOMEM
  {
  }

  lemma SupportedFlags(flags: bv64, fd: int, off: nat)
    ensures Supported(flags, fd, off) <==> fd == -1 && off == 0 && flags in {0x22, 0x20022}
  {
  }

  lemma CeilingIs(b: int, n: nat, heapBase: nat, heapEnd: nat, stackLow: nat)
    requires BASE <= heapBase <= TOP && heapEnd <= TOP
    ensures PageAligned(b) && HeapLimit(heapBase, heapEnd) <= b && PageAligned(n) ==>
              (b + n <= Ceiling(stackLow) <==> Clears(b, n, Max(heapBase, heapEnd), stackLow))
    ensures Clears(b, n, Max(heapBase, heapEnd), stackLow) ==>
              PageAligned(b) && HeapLimit(heapBase, heapEnd) <= b && BASE <= b
    ensures forall x: int :: BelowStack(x, stackLow) <==> x < Ceiling(stackLow)
  {
  }

  lemma FreeFits(vmas: seq<Vma>, b: int, n: nat)
    requires 0 < n < U64 - BASE
    ensures Fits(vmas, b, n) <==> Free(vmas, b, n)
  {
    if Free(vmas, b, n) {
      forall i | 0 <= i < |vmas|
        ensures !vmas[i].Meets(b, EndOf(b, n))
      {
      }
    }
  }

  lemma NothingAboveStart(vmas: seq<Vma>, b: int, n: nat, heapTop: nat, stackLow: nat, next: nat)
    requires |vmas| == MAX_VMAS && FromTop(vmas, next, stackLow) && 0 < n < U64 - BASE && next != 0
    requires b + n <= Ceiling(stackLow) && PageAligned(b) && PageAligned(n) && b + n > Start(next, stackLow)
    ensures !Free(vmas, b, n)
  {
    var hi := Ceiling(stackLow);
    assert forall x: int :: BelowStack(x, stackLow) <==> x < hi by { CeilingIs(0, 0, BASE, BASE, stackLow); }
    assert next < b + n;
    FreeFits(vmas, b, n);
    NothingFreeAbove(vmas, next, hi, b, n);
  }

  /** sys_mmap's outcome in numbers. */
  lemma MmapNumbers(vmas: seq<Vma>, addr: nat, len: nat, heapBase: nat, heapEnd: nat, stackLow: nat, next: nat,
                    r: int, next': nat)
    requires VmasOk(vmas) && 0 < len < U64 && PageAligned(addr) && BASE <= heapBase <= TOP && heapEnd <= TOP
    requires MmapOutcome(vmas, addr, PageUp(len), heapBase, heapEnd, stackLow, Start(next, stackLow), r, next')
    ensures r >= 0 && NoWrap(len) ==>
              && Clears(r, PageUp(len), Max(heapBase, heapEnd), stackLow) && Free(vmas, r, PageUp(len))
              && len <= PageUp(len) < len + 4096 && PageUp(len) % 4096 == 0
    ensures NoWrap(len) ==> Placed(vmas, addr, PageUp(len), Max(heapBase, heapEnd), stackLow, next, r)
  {
    hide NoWrap, PageUp, HeapLimit, Clears, Free, Fits, Ceiling, FromTop, FirstUnused, Max, Start;
    PageUpCases(len);
    var n, top, start := PageUp(len), Max(heapBase, heapEnd), Start(next, stackLow);
    if NoWrap(len) {
      forall b: int
        ensures PageAligned(b) && HeapLimit(heapBase, heapEnd) <= b ==>
                  (b + n <= Ceiling(stackLow) <==> Clears(b, n, top, stackLow))
        ensures Clears(b, n, top, stackLow) ==> PageAligned(b) && HeapLimit(heapBase, heapEnd) <= b && BASE <= b
        ensures Fits(vmas, b, n) <==> Free(vmas, b, n)
      {
        CeilingIs(b, n, heapBase, heapEnd, stackLow);
        FreeFits(vmas, b, n);
      }
      StartBelow(next, stackLow);
      SlotThere(vmas);
      if FromTop(vmas, next, stackLow) {
        forall b | Clears(b, n, top, stackLow) && Free(vmas, b, n)
          ensures b + n <= start
        {
          if next != 0 && b + n > start { NothingAboveStart(vmas, b, n, top, stackLow, next); }
        }
        assert forall b: int :: Clears(b, n, top, stackLow) && Free(vmas, b, n) ==>
            Placement(vmas, b, n, start, HeapLimit(heapBase, heapEnd));
      }
    }
  }

  lemma SlotThere(vmas: seq<Vma>)
    ensures FirstUnused(vmas) >= 0 <==> exists i :: 0 <= i < |vmas| && !vmas[i].used
  {
    if FirstUnused(vmas) >= 0 { assert !vmas[FirstUnused(vmas)].used; }
  }

  lemma StartBelow(next: nat, stackLow: nat)
    ensures Start(next, stackLow) <= Ceiling(stackLow) && (next == 0 ==> Start(next, stackLow) == Ceiling(stackLow))
  {
  }

  /** What rounding does to a length: it fits, it wraps to nothing, or it reaches past the end of memory. */
  lemma PageUpCases(len: nat)
    requires 0 < len < U64
    ensures PageAligned(PageUp(len)) && PageUp(len) < U64
    ensures if NoWrap(len) then 0 < PageUp(len) < U64 - BASE && len <= PageUp(len) < len + PAGE
            else PageUp(len) == 0 || PageUp(len) >= U64 - BASE
  {
  }

  /** The candidate ends exactly at end, in 64-bit arithmetic. */
  lemma Candidate(end: nat, alen: nat)
    requires PageAligned(end) && PageAligned(alen) && end <= TOP && alen < U64
    ensures var base := PageDown((end - alen) % U64);
            && PageAligned(base) && base == (if end >= alen then end - alen else end - alen + U64)
            && (base + alen) % U64 == end
            && (end >= (BASE + alen) % U64 && end >= BASE ==> EndOf(base, alen) == end)
  {
  }

  lemma AlreadyAligned(x: nat)
    requires PageAligned(x)
    ensures PageDown(x) == x
  {
  }

  lemma StartOk(next: nat)
    requires BASE <= next <= TOP
    ensures PageAligned(PageDown(next)) && BASE <= PageDown(next) <= TOP
  {
  }

  lemma FloorOk(heapBase: nat, heapEnd: nat)
    requires BASE <= heapBase <= TOP && heapEnd <= TOP
    ensures HeapLimit(heapBase, heapEnd) >= BASE
  {
  }

  /** A mapping in an unused slot adds its bytes to the mapped ones. */
  lemma InsertedMaps(vmas: seq<Vma>, slot: nat, v: Vma)
    requires slot < |vmas| && !vmas[slot].used
    ensures forall x: int :: Mapped(vmas[slot := v], x) <==> Mapped(vmas, x) || v.Has(x)
  {
    var vmas' := vmas[slot := v];
    forall x: int
      ensures Mapped(vmas', x) <==> Mapped(vmas, x) || v.Has(x)
    {
      if Mapped(vmas, x) {
        var i :| 0 <= i < |vmas| && vmas[i].Has(x);
        assert vmas'[i].Has(x);
      }
      if v.Has(x) { assert vmas'[slot].Has(x); }
    }
  }

  lemma InsertedOk(vmas: seq<Vma>, slot: nat, r: nat, len: nat)
    requires VmasOk(vmas) && slot < MAX_VMAS && !vmas[slot].used && 0 < len < U64
    requires Placement(vmas, r, PageUp(len), TOP, BASE)
    ensures var vmas' := vmas[slot := Vma(true, r, PageUp(len))];
            && (VmasOk(vmas') <==> NoWrap(len))
            && forall x: int :: Mapped(vmas', x) <==> Mapped(vmas, x) || r <= x < r + PageUp(len)
  {
    hide NoWrap, PageUp;
    PageUpCases(len);
    var v := Vma(true, r, PageUp(len));
    var vmas' := vmas[slot := v];
    InsertedMaps(vmas, slot, v);
    assert forall x: int :: v.Has(x) <==> r <= x < r + PageUp(len);
    if NoWrap(len) {
      forall i | 0 <= i < MAX_VMAS && i != slot && vmas[i].used
        ensures vmas[i].base + vmas[i].len <= r || r + v.len <= vmas[i].base
      {
        assert !vmas[i].Meets(r, r + v.len);
      }
    } else {
      assert !VmaOk(vmas'[slot]);
    }
  }

  /** The condition is not idle: a process that has mapped nothing gets every length whose rounding wraps, placed
      so that it seems to end at the top of the region, and its table is unsound from then on. */
  method WrapBreaksFresh(len: nat) returns (s: UserSpace, r: int)
    requires len < U64 && !NoWrap(len)
    ensures fresh(s) && r >= TOP && EndOf(r, PageUp(len)) == TOP
    ensures s.vmas == seq(MAX_VMAS, i => NO_VMA)[0 := Vma(true, r, PageUp(len))] && !VmasOk(s.vmas)
  {
    hide NoWrap, PageUp, Supported, Ceiling, HeapLimit, Start, ChosenPlace;
    FreshBounds();
    PageUpCases(len);
    s := new UserSpace(0, 0);
    r := s.Mmap(0, len, MAP_PRIVATE | MAP_ANONYMOUS, -1, 0);
    EmptyTakesAll(PageUp(len), HeapLimit(BASE, BASE), r, s.mmapNext);
  }

  lemma FreshBounds()
    ensures NoWrap(0) && Supported(MAP_PRIVATE | MAP_ANONYMOUS, -1, 0)
    ensures BASE <= HeapLimit(BASE, BASE) <= TOP && Start(0, 0) == TOP
  {
  }

  lemma EmptyTakesAll(alen: nat, floor: nat, r: int, next: nat)
    requires PageAligned(alen) && (alen == 0 || U64 - BASE <= alen < U64) && BASE <= floor <= TOP
    requires ChosenPlace(seq(MAX_VMAS, i => NO_VMA), alen, floor, TOP, r, next)
    ensures r >= TOP && EndOf(r, alen) == TOP
  {
    var vmas, b := seq(MAX_VMAS, i => NO_VMA), if alen == 0 then TOP else TOP + U64 - alen;
    assert Fits(vmas, b, alen) && Placement(vmas, b, alen, TOP, floor);
  }

  /** The range is strictly inside v. */
  predicate Splits(v: Vma, addr: nat, end: nat) {
    v.used && v.base < addr && end < v.base + v.len
  }

  /** What is left of v, as one piece, when [addr, end) is taken away. */
  function Cut(v: Vma, addr: nat, end: nat): Vma {
    if !v.Meets(addr, end) then v
    else if addr <= v.base && end >= v.base + v.len then NO_VMA
    else if addr <= v.base then v.(base := end, len := v.base + v.len - end)
    else v.(len := addr - v.base)
  }

  /** sys_munmap: exactly the rounded range goes away. */
  ghost predicate MunmapOutcome(vmas: seq<Vma>, vmas': seq<Vma>, addr: nat, len: nat, r: int)
    requires |vmas| == MAX_VMAS
  {
    var end := addr + PageUp(len);
    if !PageAligned(addr) || len == 0 || end >= U64 || forall i :: 0 <= i < MAX_VMAS ==> !vmas[i].Meets(addr, end) then
      r == -EINVAL && vmas' == vmas
    else if (exists i :: 0 <= i < MAX_VMAS && Splits(vmas[i], addr, end)) && FirstUnused(vmas) < 0 then
      r == -ENOMEM && vmas' == vmas
    else
      r == 0 && forall x: int :: Mapped(vmas', x) <==> Mapped(vmas, x) && !(addr <= x < end)
  }

  lemma CeilingFromTop(stackLow: nat)
    ensures forall vmas, next: nat :: (forall x :: next <= x < Ceiling(stackLow) ==> Mapped(vmas, x)) ==>
              FromTop(vmas, next, stackLow)
  {
    hide Ceiling, Mapped;
    CeilingIs(0, 0, BASE, BASE, stackLow);
  }

  /** What munmap answers, said of the bytes: EINVAL unless the range is on pages, not empty and not all unmapped;
      ENOMEM only with every slot in use; otherwise 0. */
  lemma NothingRounded()
    ensures PageUp(0) == 0
  {
  }

  /** The n bytes at addr are in the middle of a mapping, and the table has no slot for what would be left behind
      them. */
  predicate Strangled(vmas: seq<Vma>, addr: nat, len: nat, n: nat) {
    && addr % 4096 == 0 && len > 0 && (forall i :: 0 <= i < |vmas| ==> vmas[i].used)
    && exists i :: 0 <= i < |vmas| && vmas[i].base < addr && addr + n < vmas[i].base + vmas[i].len
  }

  lemma StrangledMeans(vmas: seq<Vma>, addr: nat, len: nat)
    requires VmasOk(vmas)
    ensures Strangled(vmas, addr, len, PageUp(len)) <==>
              && PageAligned(addr) && len > 0 && FirstUnused(vmas) < 0
              && exists i :: 0 <= i < MAX_VMAS && Splits(vmas[i], addr, addr + PageUp(len))
    ensures forall i :: 0 <= i < MAX_VMAS && Splits(vmas[i], addr, addr + PageUp(len)) ==>
              addr + PageUp(len) < U64 && vmas[i].Meets(addr, addr + PageUp(len))
  {
    hide PageUp;
    if Strangled(vmas, addr, len, PageUp(len)) {
      var i :| 0 <= i < |vmas| && vmas[i].base < addr && addr + PageUp(len) < vmas[i].base + vmas[i].len;
      assert Splits(vmas[i], addr, addr + PageUp(len));
    }
  }

  lemma MunmapMeans(vmas: seq<Vma>, vmas': seq<Vma>, addr: nat, len: nat, r: int)
    requires VmasOk(vmas) && MunmapOutcome(vmas, vmas', addr, len, r) && NoWrap(len) && len < U64
    ensures r == -EINVAL <==>
              || addr % 4096 != 0 || addr + PageUp(len) >= U64
              || forall x :: addr <= x < addr + PageUp(len) ==> !Mapped(vmas, x)
    ensures r == -ENOMEM <==> Strangled(vmas, addr, len, PageUp(len))
    ensures r in {0, -EINVAL, -ENOMEM} && (r != 0 ==> vmas' == vmas)
    ensures r == 0 ==>
              forall x: int :: Mapped(vmas', x) <==> Mapped(vmas, x) && !(addr <= x < addr + PageUp(len))
  {
    hide NoWrap, PageUp, Strangled, Splits, FirstUnused;
    if len > 0 { PageUpCases(len); } else { NothingRounded(); }
    var end := addr + PageUp(len);
    StrangledMeans(vmas, addr, len);
    forall i | 0 <= i < MAX_VMAS && len > 0 && vmas[i].Meets(addr, end)
      ensures exists x :: addr <= x < end && Mapped(vmas, x)
    {
      var x := Max(addr, vmas[i].base);
      assert vmas[i].Has(x) && addr <= x < end && Mapped(vmas, x);
    }
    if x :| addr <= x < end && Mapped(vmas, x) {
      var i :| 0 <= i < |vmas| && vmas[i].Has(x);
      assert vmas[i].Meets(addr, end);
    }
  }

  lemma UnmapEnd(addr: nat, len: nat)
    requires PageAligned(addr) && addr < U64 && len < U64
    ensures PageAligned(PageUp(len)) && PageUp(len) < U64
    ensures (addr + PageUp(len)) % U64 >= addr ==>
              (addr + PageUp(len)) % U64 == addr + PageUp(len) && PageAligned(addr + PageUp(len))
    ensures (addr + PageUp(len)) % U64 < addr ==> addr + PageUp(len) >= U64
  {
  }

  /** Mappings are disjoint, so one that strictly contains the range is the only one it meets. */
  lemma OnlyOneSplits(vmas: seq<Vma>, i: nat, addr: nat, end: nat)
    requires VmasOk(vmas) && i < MAX_VMAS && Splits(vmas[i], addr, end) && addr <= end
    ensures forall k :: 0 <= k < MAX_VMAS && k != i ==> !vmas[k].Meets(addr, end) && Cut(vmas[k], addr, end) == vmas[k]
  {
  }

  lemma AlignedSums(a: int, b: int)
    requires PageAligned(a) && PageAligned(b)
    ensures PageAligned(a + b) && PageAligned(a - b)
  {
  }

  lemma CutOk(v: Vma, addr: nat, end: nat)
    requires VmaOk(v) && PageAligned(addr) && PageAligned(end) && addr <= end && !Splits(v, addr, end)
    ensures VmaOk(Cut(v, addr, end))
    ensures forall x: int :: Cut(v, addr, end).Has(x) <==> v.Has(x) && !(addr <= x < end)
    ensures var c := Cut(v, addr, end); c.used ==> v.used && v.base <= c.base && c.base + c.len <= v.base + v.len
    ensures !v.Meets(addr, end) ==> Cut(v, addr, end) == v
  {
  }

  lemma CutAll(vmas: seq<Vma>, vmas': seq<Vma>, addr: nat, end: nat)
    requires VmasOk(vmas) && |vmas'| == MAX_VMAS && PageAligned(addr) && PageAligned(end) && addr <= end
    requires forall k :: 0 <= k < MAX_VMAS ==> !Splits(vmas[k], addr, end) && vmas'[k] == Cut(vmas[k], addr, end)
    ensures VmasOk(vmas')
    ensures forall x: int :: Mapped(vmas', x) <==> Mapped(vmas, x) && !(addr <= x < end)
    ensures (forall k :: 0 <= k < MAX_VMAS ==> !vmas[k].Meets(addr, end)) ==> vmas' == vmas
  {
    hide PageAligned, Cut, VmaOk;
    forall k | 0 <= k < MAX_VMAS
      ensures VmaOk(vmas'[k]) && (forall x: int :: vmas'[k].Has(x) <==> vmas[k].Has(x) && !(addr <= x < end))
      ensures vmas'[k].used ==>
                && vmas[k].used && vmas[k].base <= vmas'[k].base
                && vmas'[k].base + vmas'[k].len <= vmas[k].base + vmas[k].len
      ensures !vmas[k].Meets(addr, end) ==> vmas'[k] == vmas[k]
    {
      CutOk(vmas[k], addr, end);
    }
  }

  lemma SplitMaps(vmas: seq<Vma>, vmas': seq<Vma>, i: nat, slot: nat, addr: nat, end: nat)
    requires VmasOk(vmas) && i < MAX_VMAS && slot < MAX_VMAS && Splits(vmas[i], addr, end) && !vmas[slot].used
    requires PageAligned(addr) && PageAligned(end) && addr <= end
    requires forall k :: 0 <= k < MAX_VMAS && k != i ==> !vmas[k].Meets(addr, end)
    requires vmas' == vmas[i := vmas[i].(len := addr - vmas[i].base)]
                          [slot := Vma(true, end, vmas[i].base + vmas[i].len - end)]
    ensures VmasOk(vmas')
    ensures forall x: int :: Mapped(vmas', x) <==> Mapped(vmas, x) && !(addr <= x < end)
    ensures forall k :: 0 <= k < MAX_VMAS ==> !vmas'[k].Meets(addr, end)
  {
    hide PageAligned;
    var v := vmas[i];
    AlignedSums(v.base, v.len);
    AlignedSums(v.base + v.len, end);
    AlignedSums(addr, v.base);
    forall x: int
      ensures Mapped(vmas', x) <==> Mapped(vmas, x) && !(addr <= x < end)
    {
      SplitMapsAt(vmas, vmas', i, slot, addr, end, x);
    }
  }

  lemma SplitMapsAt(vmas: seq<Vma>, vmas': seq<Vma>, i: nat, slot: nat, addr: nat, end: nat, x: int)
    requires |vmas| == MAX_VMAS && i < MAX_VMAS && slot < MAX_VMAS && Splits(vmas[i], addr, end) && !vmas[slot].used
               && addr <= end
    requires forall k :: 0 <= k < MAX_VMAS && k != i ==> !vmas[k].Meets(addr, end)
    requires vmas' == vmas[i := vmas[i].(len := addr - vmas[i].base)]
                          [slot := Vma(true, end, vmas[i].base + vmas[i].len - end)]
    ensures Mapped(vmas', x) <==> Mapped(vmas, x) && !(addr <= x < end)
  {
    assert vmas[i].Has(x) && !(addr <= x < end) <==> vmas'[i].Has(x) || vmas'[slot].Has(x);
    if Mapped(vmas, x) && !(addr <= x < end) {
      var k :| 0 <= k < MAX_VMAS && vmas[k].Has(x);
      assert k == i || vmas'[k].Has(x);
    }
    if Mapped(vmas', x) {
      var k :| 0 <= k < MAX_VMAS && vmas'[k].Has(x);
      assert k == i || k == slot || vmas[k].Has(x);
    }
  }

  /** After a successful munmap the next search starts where free space starts: no
      placement that reaches above mmapNext is free. */
  lemma NothingFreeAbove(vmas: seq<Vma>, next: nat, hi: nat, b: int, len: nat)
    requires |vmas| == MAX_VMAS && forall x :: next <= x < hi ==> Mapped(vmas, x)
    requires 0 < len < U64 - BASE && next < b + len <= hi
    ensures !Fits(vmas, b, len)
  {
    var x := b + len - 1;
    assert Mapped(vmas, x);
    var i :| 0 <= i < |vmas| && vmas[i].Has(x);
    assert vmas[i].Meets(b, b + len);
  }

  /** When [base, base+len) meets the mapping that starts at at, so does everything
      that would end above at but no higher. */
  lemma SkipIsSafe(vmas: seq<Vma>, base: nat, len: nat, at: nat)
    requires VmasOk(vmas)
    requires exists i :: 0 <= i < MAX_VMAS && vmas[i].Meets(base, EndOf(base, len)) && vmas[i].base == at
    ensures PageAligned(at) && BASE <= at < EndOf(base, len)
    ensures forall b :: at < EndOf(b, len) <= EndOf(base, len) ==> !Fits(vmas, b, len)
  {
  }
}
