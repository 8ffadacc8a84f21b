/** The tables of the in-memory overlay file system, on top of a read-only initramfs. */
module Overlay {
  import opened Paths

  const SLOTS := 64

  /** A row of the directory table or of the file-name table; what is the directory's mode or the file's inode. */
  datatype Row = Row(used: bool, path: string, what: nat)

  datatype Inode = Inode(used: bool, mode: nat, nlink: nat, data: string)

  datatype Tables = Tables(dirs: seq<Row>, files: seq<Row>, inodes: seq<Inode>)

  datatype Entry = Entry(mode: nat, data: string)

  datatype Found = Missing | Found(e: Entry)

  type Lower = map<string, Entry>

  function Kind(mode: nat): nat { mode / 0x1000 % 16 }

  const DIR := 4
  const REG := 8
  const LNK := 10
  const S_IFDIR := 0x4000
  const S_IFREG := 0x8000
  const S_IFLNK := 0xA000

  predicate IsDir(mode: nat) { Kind(mode) == DIR }

  const NO_ROW := Row(false, "", 0)
  const NO_INODE := Inode(false, 0, 0, "")

  predicate Shape(t: Tables) { |t.dirs| == |t.files| == |t.inodes| == SLOTS }

  // ----- names

  /** The name the tables use for a place below the root. */
  function NameOf(dir: seq<string>): string {
    if dir == [] then "" else Joined(dir)[1..]
  }

  predicate Canon(name: string) {
    var dir := Components(name);
    dir != [] && CleanDir(dir) && Fits(dir, MAX_PATH) && name == NameOf(dir)
  }

  function ParentName(name: string): string {
    var dir := Components(name);
    if dir == [] then "" else NameOf(dir[..|dir| - 1])
  }

  lemma ComponentsOfName(dir: seq<string>)
    requires CleanDir(dir)
    ensures Components(NameOf(dir)) == dir
  {
    ComponentsOfJoined(dir);
    if dir != [] {
      JoinedHead(dir);
      assert Joined(dir)[0..] == Joined(dir);
      SkipSlash(Joined(dir), 0);
    }
  }

  lemma FitsUp(dir: seq<string>)
    requires Fits(dir, MAX_PATH) && dir != []
    ensures Fits(dir[..|dir| - 1], MAX_PATH)
  {
  }

  /** path_has_prefix_dir: path goes on with a slash after dir. */
  predicate HasPrefixDir(path: string, dir: string) {
    |dir| < |path| && path[..|dir|] == dir && path[|dir|] == '/'
  }

  lemma ChildHasPrefix(path: string, dir: string)
    requires Canon(path) && ParentName(path) == dir && dir != ""
    ensures HasPrefixDir(path, dir)
  {
  }

  // ----- finding a row

  predicate Is(r: Row, q: string) { r.used && r.path == q }

  /** The first row named q, or -1. */
  function First(rows: seq<Row>, q: string): (r: int)
    ensures -1 <= r < |rows| && (r >= 0 ==> Is(rows[r], q))
    ensures forall k :: 0 <= k < (if r < 0 then |rows| else r) ==> !Is(rows[k], q)
  {
    if rows == [] then -1
    else
      var n := |rows| - 1;
      var r := First(rows[..n], q);
      if r >= 0 then r else if Is(rows[n], q) then n else -1
  }

  /** How the search result changes when one row does. */
  lemma FirstUpdate(rows: seq<Row>, i: nat, r: Row, q: string)
    requires i < |rows|
    ensures !Is(rows[i], q) && !Is(r, q) ==> First(rows[i := r], q) == First(rows, q)
    ensures Is(rows[i], q) && Is(r, q) ==> First(rows[i := r], q) == First(rows, q)
    ensures First(rows, q) < 0 && Is(r, q) ==> First(rows[i := r], q) == i
  {
    hide First;
    var now := rows[i := r];
    var a, b := First(rows, q), First(now, q);
    assert forall k :: 0 <= k < |rows| && k != i ==> now[k] == rows[k];
    assert now[i] == r;
    if Is(r, q) { assert Is(now[i], q); }
    if a >= 0 && a != i { assert Is(now[a], q); }
    if b >= 0 && b != i { assert Is(rows[b], q); }
  }

  // ----- hard links

  function Links(files: seq<Row>, id: nat): nat {
    if files == [] then 0
    else Links(files[..|files| - 1], id) + Hit(files[|files| - 1], id)
  }

  function Hit(r: Row, id: nat): nat { if r.used && r.what == id then 1 else 0 }

  lemma {:induction false} LinksUpdate(files: seq<Row>, i: nat, r: Row, id: nat)
    requires i < |files|
    ensures Links(files[i := r], id) == Links(files, id) - Hit(files[i], id) + Hit(r, id)
  {
    var n := |files| - 1;
    if i == n {
      assert files[i := r][..n] == files[..n];
    } else {
      assert files[i := r][..n] == files[..n][i := r];
      LinksUpdate(files[..n], i, r, id);
    }
  }

  lemma {:induction false} LinkedIsCounted(files: seq<Row>, i: nat, id: nat)
    requires i < |files| && Hit(files[i], id) == 1
    ensures Links(files, id) > 0
  {
    if i < |files| - 1 { LinkedIsCounted(files[..|files| - 1], i, id); }
  }

  /** Every inode's nlink is the number of names referring to it, and it is in use exactly when that is positive. */
  predicate LinksOk(t: Tables)
    requires Shape(t)
  {
    && (forall i :: 0 <= i < SLOTS && t.files[i].used ==> t.files[i].what < SLOTS)
    && (forall k :: 0 <= k < SLOTS ==> InodeOk(t, k))
  }

  predicate InodeOk(t: Tables, k: nat)
    requires Shape(t) && k < SLOTS
  {
    t.inodes[k].nlink == Links(t.files, k) && (t.inodes[k].used <==> t.inodes[k].nlink > 0)
  }

  predicate KindsOk(t: Tables)
    requires Shape(t)
  {
    && (forall i :: 0 <= i < SLOTS && t.dirs[i].used ==> IsDir(t.dirs[i].what))
    && (forall k :: 0 <= k < SLOTS && t.inodes[k].used ==> !IsDir(t.inodes[k].mode))
  }

  // ----- the tree

  /** Rows of both tables, numbered together. */
  function RowAt(t: Tables, i: nat): Row
    requires Shape(t) && i < 2 * SLOTS
  {
    if i < SLOTS then t.dirs[i] else t.files[i - SLOTS]
  }

  /** No path is named twice, in the overlay or below it, and every name is canonical. */
  predicate NamesOk(t: Tables, lower: Lower)
    requires Shape(t)
  {
    && (forall i :: 0 <= i < 2 * SLOTS && RowAt(t, i).used ==> Canon(RowAt(t, i).path) && RowAt(t, i).path !in lower)
    && (forall i, j :: 0 <= i < j < 2 * SLOTS && RowAt(t, i).used && RowAt(t, j).used ==>
        RowAt(t, i).path != RowAt(t, j).path)
  }

  /** What a name stands for: overlay directories first, then overlay files, then the initramfs. */
  function LookupName(t: Tables, lower: Lower, q: string): Found
    requires Shape(t)
  {
    var d, f := First(t.dirs, q), First(t.files, q);
    if d >= 0 then Found(Entry(t.dirs[d].what, ""))
    else if f >= 0 then
      var k := t.files[f].what;
      if k < SLOTS && t.inodes[k].used then Found(Entry(t.inodes[k].mode, t.inodes[k].data)) else Missing
    else if q in lower then Found(lower[q])
    else Missing
  }

  const ROOT := Entry(S_IFDIR + 0x1ED, "")  // 0755

  /** vfs_lookup_abs. */
  function Lookup(t: Tables, lower: Lower, abs: string): Found
    requires Shape(t)
  {
    if abs == "/" then Found(ROOT)
    else
      var p := SkipSlashes(abs);
      if p == "" then Found(ROOT) else LookupName(t, lower, p)
  }

  /** The place called name ("" is the root) is a directory. */
  predicate DirAt(t: Tables, lower: Lower, name: string)
    requires Shape(t)
  {
    name == "" || (var e := LookupName(t, lower, name); e.Found? && IsDir(e.e.mode))
  }

  /** Every overlay entry's parent resolves to a directory. */
  predicate Closed(t: Tables, lower: Lower)
    requires Shape(t)
  {
    forall i :: 0 <= i < 2 * SLOTS && RowAt(t, i).used ==> DirAt(t, lower, ParentName(RowAt(t, i).path))
  }

  predicate TreeOk(t: Tables, lower: Lower) {
    Shape(t) && LinksOk(t) && KindsOk(t) && NamesOk(t, lower) && Closed(t, lower)
  }

  // ----- one change at a time

  /** A place where a new entry may go: not named anywhere, below a directory. */
  predicate Vacant(t: Tables, lower: Lower, name: string)
    requires Shape(t)
  {
    Canon(name) && LookupName(t, lower, name).Missing? && DirAt(t, lower, ParentName(name))
  }

  /** In a sound tree a missing name is in no table. */
  lemma MissingMeans(t: Tables, lower: Lower, q: string)
    requires Shape(t) && LinksOk(t)
    ensures LookupName(t, lower, q).Missing? <==> First(t.dirs, q) < 0 && First(t.files, q) < 0 && q !in lower
  {
    hide First;
    var f := First(t.files, q);
    if f >= 0 {
      var k := t.files[f].what;
      LinkedIsCounted(t.files, f, k);
      assert InodeOk(t, k);
    }
  }

  lemma NamesExtend(t: Tables, lower: Lower, i: nat, t2: Tables, name: string)
    requires Shape(t) && NamesOk(t, lower) && Shape(t2) && i < 2 * SLOTS
    requires RowAt(t2, i).used && RowAt(t2, i).path == name && Canon(name) && name !in lower
    requires First(t.dirs, name) < 0 && First(t.files, name) < 0
    requires forall j :: 0 <= j < 2 * SLOTS && j != i ==> RowAt(t2, j) == RowAt(t, j)
    ensures NamesOk(t2, lower)
  {
    hide First, Canon;
    forall j | 0 <= j < 2 * SLOTS && j != i && RowAt(t2, j).used
      ensures RowAt(t2, j).path != name
    {
      if j < SLOTS { assert !Is(t.dirs[j], name); } else { assert !Is(t.files[j - SLOTS], name); }
    }
  }

  lemma NamesShrink(t: Tables, lower: Lower, i: nat, t2: Tables)
    requires Shape(t) && NamesOk(t, lower) && Shape(t2) && i < 2 * SLOTS
    requires RowAt(t2, i).used ==> RowAt(t, i).used && RowAt(t2, i).path == RowAt(t, i).path
    requires forall j :: 0 <= j < 2 * SLOTS && j != i ==> RowAt(t2, j) == RowAt(t, j)
    ensures NamesOk(t2, lower)
  {
  }

  /** Closure survives any change that turns no directory into something else and adds only under directories. */
  lemma ClosedKept(t: Tables, lower: Lower, t2: Tables)
    requires Shape(t) && Closed(t, lower) && Shape(t2)
    requires forall q :: DirAt(t, lower, q) ==> DirAt(t2, lower, q)
    requires forall i :: 0 <= i < 2 * SLOTS && RowAt(t2, i).used ==>
               (RowAt(t, i).used && RowAt(t2, i).path == RowAt(t, i).path)
                  || DirAt(t, lower, ParentName(RowAt(t2, i).path))
    ensures Closed(t2, lower)
  {
  }

  // mkdir

  lemma AddDir(t: Tables, lower: Lower, slot: nat, name: string, mode: nat)
    requires TreeOk(t, lower) && slot < SLOTS && !t.dirs[slot].used && Vacant(t, lower, name) && IsDir(mode)
    ensures var t2 := t.(dirs := t.dirs[slot := Row(true, name, mode)]);
            && TreeOk(t2, lower)
            && forall q :: LookupName(t2, lower, q) == if q == name then Found(Entry(mode, ""))
               else LookupName(t, lower, q)
  {
    hide First, Canon, Links, ParentName, Kind;
    var r := Row(true, name, mode);
    var t2 := t.(dirs := t.dirs[slot := r]);
    MissingMeans(t, lower, name);
    forall q
      ensures LookupName(t2, lower, q) == if q == name then Found(Entry(mode, "")) else LookupName(t, lower, q)
    {
      FirstUpdate(t.dirs, slot, r, q);
    }
    assert forall k :: 0 <= k < SLOTS ==> InodeOk(t, k) ==> InodeOk(t2, k);
    NamesExtend(t, lower, slot, t2, name);
    ClosedKept(t, lower, t2);
  }

  // rmdir

  predicate NothingBelow(t: Tables, name: string)
    requires Shape(t)
  {
    forall i :: 0 <= i < 2 * SLOTS && RowAt(t, i).used ==> !HasPrefixDir(RowAt(t, i).path, name)
  }

  lemma OnlyRow(t: Tables, lower: Lower, i: nat, q: string)
    requires Shape(t) && NamesOk(t, lower) && i < 2 * SLOTS && Is(RowAt(t, i), q)
    ensures i < SLOTS ==> First(t.dirs, q) == i && First(t.files, q) == -1
    ensures i >= SLOTS ==> First(t.dirs, q) == -1 && First(t.files, q) == i - SLOTS
    ensures q !in lower
  {
    hide First, Canon;
    var d, f := First(t.dirs, q), First(t.files, q);
    if d >= 0 { assert RowAt(t, d) == t.dirs[d]; }
    if f >= 0 { assert RowAt(t, SLOTS + f) == t.files[f]; }
    if i < SLOTS { assert Is(t.dirs[i], q); } else { assert Is(t.files[i - SLOTS], q); }
  }

  lemma RemoveDir(t: Tables, lower: Lower, slot: nat)
    requires TreeOk(t, lower) && slot < SLOTS && t.dirs[slot].used && NothingBelow(t, t.dirs[slot].path)
    ensures var t2 := t.(dirs := t.dirs[slot := NO_ROW]);
            && TreeOk(t2, lower)
            && forall q :: LookupName(t2, lower, q) == if q == t.dirs[slot].path then Missing
               else LookupName(t, lower, q)
  {
    hide First, Canon, Links, ParentName, Kind, HasPrefixDir;
    var name := t.dirs[slot].path;
    var t2 := t.(dirs := t.dirs[slot := NO_ROW]);
    assert RowAt(t, slot) == t.dirs[slot];
    OnlyRow(t, lower, slot, name);
    OnlyDir(t, lower, slot);
    RowGone(t.dirs, slot, name);
    forall q
      ensures LookupName(t2, lower, q) == if q == name then Missing else LookupName(t, lower, q)
    {
      FirstUpdate(t.dirs, slot, NO_ROW, q);
    }
    assert forall k :: 0 <= k < SLOTS ==> InodeOk(t, k) ==> InodeOk(t2, k);
    NamesShrink(t, lower, slot, t2);
    CanonNonempty(name);
    forall i | 0 <= i < 2 * SLOTS && RowAt(t2, i).used
      ensures DirAt(t2, lower, ParentName(RowAt(t2, i).path))
    {
      assert RowAt(t2, i) == RowAt(t, i);
      if ParentName(RowAt(t, i).path) == name { ChildHasPrefix(RowAt(t, i).path, name); }
      assert DirAt(t, lower, ParentName(RowAt(t, i).path));
    }
  }

  lemma CanonNonempty(name: string)
    requires Canon(name)
    ensures name != "" && name[0] != '/' && SkipSlashes("/" + name) == name
  {
    JoinedHead(Components(name));
    assert ("/" + name)[1..] == name;
  }

  /** After clearing the only row of a name, the name is gone. */
  lemma RowGone(rows: seq<Row>, i: nat, q: string)
    requires i < |rows| && forall k :: 0 <= k < |rows| && Is(rows[k], q) ==> k == i
    ensures First(rows[i := NO_ROW], q) == -1
  {
  }

  lemma OnlyDir(t: Tables, lower: Lower, i: nat)
    requires Shape(t) && NamesOk(t, lower) && i < SLOTS && t.dirs[i].used
    ensures forall k :: 0 <= k < SLOTS && Is(t.dirs[k], t.dirs[i].path) ==> k == i
  {
    hide Canon;
    forall k | 0 <= k < SLOTS && Is(t.dirs[k], t.dirs[i].path)
      ensures k == i
    {
      assert RowAt(t, k) == t.dirs[k] && RowAt(t, i) == t.dirs[i];
    }
  }

  lemma OnlyFile(t: Tables, lower: Lower, i: nat)
    requires Shape(t) && NamesOk(t, lower) && i < SLOTS && t.files[i].used
    ensures forall k :: 0 <= k < SLOTS && Is(t.files[k], t.files[i].path) ==> k == i
  {
    hide Canon;
    forall k | 0 <= k < SLOTS && Is(t.files[k], t.files[i].path)
      ensures k == i
    {
      assert RowAt(t, SLOTS + k) == t.files[k] && RowAt(t, SLOTS + i) == t.files[i];
    }
  }

  // create, link, unlink

  lemma Unlinked(t: Tables, k: nat)
    requires Shape(t) && LinksOk(t) && k < SLOTS && !t.inodes[k].used
    ensures Links(t.files, k) == 0 && forall i :: 0 <= i < SLOTS && t.files[i].used ==> t.files[i].what != k
  {
    assert InodeOk(t, k);
    forall i | 0 <= i < SLOTS && t.files[i].used
      ensures t.files[i].what != k
    {
      if t.files[i].what == k { LinkedIsCounted(t.files, i, k); }
    }
  }

  /** One more name for inode k, which counts it. */
  lemma AddLink(t: Tables, slot: nat, name: string, k: nat, ino: Inode)
    requires Shape(t) && LinksOk(t) && slot < SLOTS && !t.files[slot].used && k < SLOTS
    requires ino.used && ino.nlink == t.inodes[k].nlink + 1
    ensures LinksOk(t.(files := t.files[slot := Row(true, name, k)], inodes := t.inodes[k := ino]))
  {
    hide Links;
    var r := Row(true, name, k);
    var t2 := t.(files := t.files[slot := r], inodes := t.inodes[k := ino]);
    forall j | 0 <= j < SLOTS
      ensures InodeOk(t2, j)
    {
      assert InodeOk(t, j);
      LinksUpdate(t.files, slot, r, j);
    }
  }

  /** What the tables become when name becomes a name of inode k. */
  function WithFile(t: Tables, slot: nat, name: string, k: nat, ino: Inode): Tables
    requires Shape(t) && slot < SLOTS && k < SLOTS
  {
    t.(files := t.files[slot := Row(true, name, k)], inodes := t.inodes[k := ino])
  }

  /** The lookups once name is a name of inode k and inode k is ino, all else being equal. */
  lemma FileLookup(t: Tables, lower: Lower, slot: nat, name: string, k: nat, ino: Inode, q: string)
    requires TreeOk(t, lower) && slot < SLOTS && !t.files[slot].used && Vacant(t, lower, name) && k < SLOTS && ino.used
    requires t.inodes[k].used ==> ino.mode == t.inodes[k].mode && ino.data == t.inodes[k].data
    ensures LookupName(WithFile(t, slot, name, k, ino), lower, q) ==
            if q == name then Found(Entry(ino.mode, ino.data)) else LookupName(t, lower, q)
  {
    hide First, Canon, Links, ParentName, Kind, NamesOk, Closed;
    MissingMeans(t, lower, name);
    FirstUpdate(t.files, slot, Row(true, name, k), q);
    if !t.inodes[k].used { Unlinked(t, k); }
  }

  /** A new name, for a fresh inode (creat, symlink) or for one already named (link). */
  lemma AddFile(t: Tables, lower: Lower, slot: nat, name: string, k: nat, ino: Inode)
    requires TreeOk(t, lower) && slot < SLOTS && !t.files[slot].used && Vacant(t, lower, name) && k < SLOTS
    requires ino.used && !IsDir(ino.mode) && ino.nlink == t.inodes[k].nlink + 1
    requires t.inodes[k].used ==> ino.mode == t.inodes[k].mode && ino.data == t.inodes[k].data
    ensures var t2 := WithFile(t, slot, name, k, ino);
            && TreeOk(t2, lower)
            && forall q :: LookupName(t2, lower, q) == if q == name then Found(Entry(ino.mode, ino.data))
               else LookupName(t, lower, q)
  {
    hide First, Canon, Links, ParentName, Kind, LookupName;
    var t2 := WithFile(t, slot, name, k, ino);
    forall q
      ensures LookupName(t2, lower, q) == if q == name then Found(Entry(ino.mode, ino.data))
                else LookupName(t, lower, q)
    {
      FileLookup(t, lower, slot, name, k, ino, q);
    }
    AddLink(t, slot, name, k, ino);
    MissingMeans(t, lower, name);
    NamesExtend(t, lower, SLOTS + slot, t2, name);
    ClosedKept(t, lower, t2);
  }

  /** raminode_decref. */
  function Dropped(ino: Inode): Inode {
    if !ino.used then ino
    else if ino.nlink <= 1 then NO_INODE
    else ino.(nlink := ino.nlink - 1)
  }

  function WithoutFile(t: Tables, slot: nat): Tables
    requires Shape(t) && slot < SLOTS && t.files[slot].what < SLOTS
  {
    var k := t.files[slot].what;
    t.(files := t.files[slot := NO_ROW], inodes := t.inodes[k := Dropped(t.inodes[k])])
  }

  lemma DropLink(t: Tables, slot: nat)
    requires Shape(t) && LinksOk(t) && slot < SLOTS && t.files[slot].used
    ensures LinksOk(WithoutFile(t, slot))
  {
    hide Links;
    var k := t.files[slot].what;
    LinkedIsCounted(t.files, slot, k);
    var t2 := WithoutFile(t, slot);
    forall j | 0 <= j < SLOTS
      ensures InodeOk(t2, j)
    {
      assert InodeOk(t, j);
      LinksUpdate(t.files, slot, NO_ROW, j);
    }
  }

  /** Two names of one inode: it outlives either. */
  lemma SharedSurvives(t: Tables, slot: nat, other: nat)
    requires Shape(t) && LinksOk(t) && slot < SLOTS && t.files[slot].used
    requires other < SLOTS && other != slot && t.files[other].used && t.files[other].what == t.files[slot].what
    ensures t.inodes[t.files[slot].what].used && t.inodes[t.files[slot].what].nlink >= 2
  {
    hide Links;
    var k := t.files[slot].what;
    assert InodeOk(t, k);
    LinksUpdate(t.files, slot, NO_ROW, k);
    LinkedIsCounted(t.files[slot := NO_ROW], other, k);
  }

  lemma UnlinkLookup(t: Tables, lower: Lower, slot: nat, q: string)
    requires TreeOk(t, lower) && slot < SLOTS && t.files[slot].used
    ensures LookupName(WithoutFile(t, slot), lower, q) == if q == t.files[slot].path then Missing
              else LookupName(t, lower, q)
  {
    hide First, Canon, Links, ParentName, Kind, Closed;
    var name := t.files[slot].path;
    assert RowAt(t, SLOTS + slot) == t.files[slot];
    OnlyRow(t, lower, SLOTS + slot, name);
    OnlyFile(t, lower, slot);
    RowGone(t.files, slot, name);
    FirstUpdate(t.files, slot, NO_ROW, q);
    var f := First(t.files, q);
    if q != name && f >= 0 && t.files[f].what == t.files[slot].what {
      SharedSurvives(t, slot, f);
    }
  }

  /** Unlinking a name removes that name only; other names of the same inode keep mode and data. */
  lemma RemoveFile(t: Tables, lower: Lower, slot: nat)
    requires TreeOk(t, lower) && slot < SLOTS && t.files[slot].used
    ensures var t2 := WithoutFile(t, slot);
            && TreeOk(t2, lower)
            && forall q :: LookupName(t2, lower, q) == if q == t.files[slot].path then Missing
               else LookupName(t, lower, q)
  {
    hide First, Canon, Links, ParentName, Kind;
    var t2 := WithoutFile(t, slot);
    forall q
      ensures LookupName(t2, lower, q) == if q == t.files[slot].path then Missing else LookupName(t, lower, q)
    {
      UnlinkLookup(t, lower, slot, q);
    }
    DropLink(t, slot);
    NamesShrink(t, lower, SLOTS + slot, t2);
    FileIsNoDir(t, lower, slot);
    ClosedKept(t, lower, t2);
  }

  lemma FileIsNoDir(t: Tables, lower: Lower, slot: nat)
    requires TreeOk(t, lower) && slot < SLOTS && t.files[slot].used
    ensures !DirAt(t, lower, t.files[slot].path)
  {
    hide First, Links, ParentName, Kind, Canon;
    var name := t.files[slot].path;
    assert RowAt(t, SLOTS + slot) == t.files[slot];
    OnlyRow(t, lower, SLOTS + slot, name);
    CanonNonempty(name);
    LinkedIsCounted(t.files, slot, t.files[slot].what);
    assert InodeOk(t, t.files[slot].what);
  }

  // chmod, truncate, symlink contents

  /** q is a name of inode k. */
  predicate Names(t: Tables, q: string, k: nat)
    requires Shape(t)
  {
    First(t.dirs, q) < 0 && First(t.files, q) >= 0 && t.files[First(t.files, q)].what == k
  }

  /** Changing an inode's permissions or contents shows under all its names and nowhere else. */
  lemma SetInode(t: Tables, lower: Lower, k: nat, ino: Inode)
    requires TreeOk(t, lower) && k < SLOTS && t.inodes[k].used && ino.used && ino.nlink == t.inodes[k].nlink
               && !IsDir(ino.mode)
    ensures var t2 := t.(inodes := t.inodes[k := ino]);
            && TreeOk(t2, lower)
            && forall q :: LookupName(t2, lower, q) == if Names(t, q, k) then Found(Entry(ino.mode, ino.data))
               else LookupName(t, lower, q)
  {
    hide First, Canon, Links, ParentName, Kind;
    var t2 := t.(inodes := t.inodes[k := ino]);
    assert forall j :: 0 <= j < SLOTS ==> InodeOk(t, j) ==> InodeOk(t2, j);
    assert forall i :: 0 <= i < 2 * SLOTS ==> RowAt(t2, i) == RowAt(t, i);
    SameRowsNames(t, lower, t2);
    ClosedKept(t, lower, t2);
  }

  lemma SameRowsNames(t: Tables, lower: Lower, t2: Tables)
    requires Shape(t) && NamesOk(t, lower) && Shape(t2)
    requires forall i :: 0 <= i < 2 * SLOTS ==>
               RowAt(t2, i).used == RowAt(t, i).used && RowAt(t2, i).path == RowAt(t, i).path
    ensures NamesOk(t2, lower)
  {
  }

  lemma SetDirMode(t: Tables, lower: Lower, slot: nat, mode: nat)
    requires TreeOk(t, lower) && slot < SLOTS && t.dirs[slot].used && IsDir(mode)
    ensures var t2 := t.(dirs := t.dirs[slot := t.dirs[slot].(what := mode)]);
            && TreeOk(t2, lower)
            && forall q :: LookupName(t2, lower, q) == if q == t.dirs[slot].path then Found(Entry(mode, ""))
               else LookupName(t, lower, q)
  {
    hide First, Canon, Links, ParentName, Kind;
    var r, name := t.dirs[slot].(what := mode), t.dirs[slot].path;
    var t2 := t.(dirs := t.dirs[slot := r]);
    assert RowAt(t, slot) == t.dirs[slot];
    OnlyRow(t, lower, slot, name);
    forall q
      ensures LookupName(t2, lower, q) == if q == name then Found(Entry(mode, "")) else LookupName(t, lower, q)
    {
      FirstUpdate(t.dirs, slot, r, q);
    }
    assert forall k :: 0 <= k < SLOTS ==> InodeOk(t, k) ==> InodeOk(t2, k);
    SameRowsNames(t, lower, t2);
    ClosedKept(t, lower, t2);
  }
}
