/** The overlay file system and the system calls that change its tree. */
module Vfs {
  import opened Errno
  import opened Paths
  import opened Overlay

  const MAX_SYMLINK_HOPS := 8
  const AT_FDCWD := -100
  const AT_REMOVEDIR := 0x200
  const O_RDONLY := 0
  const O_WRONLY := 1
  const O_RDWR := 2

  // ----- canonical absolute paths

  predicate CanonAbs(abs: string) {
    var dir := Components(abs);
    CleanDir(dir) && Fits(dir, MAX_PATH) && abs == Render(dir)
  }

  lemma NormalizedCanon(s: string)
    ensures Normalized(s, MAX_PATH).Some? ==> CanonAbs(Normalized(s, MAX_PATH).path)
  {
    if Normalized(s, MAX_PATH).Some? {
      NormalizeIdempotent(s, MAX_PATH);
      WalkEndFits([], Components(s), MAX_PATH);
    }
  }

  /** The overlay's name for a canonical path, and its parent. */
  function NameAbs(abs: string): string { NameOf(Components(abs)) }

  function ParentAbs(abs: string): string {
    var dir := Components(abs);
    Render(if dir == [] then [] else dir[..|dir| - 1])
  }

  lemma AbsFacts(abs: string)
    requires CanonAbs(abs)
    ensures abs == "/" <==> NameAbs(abs) == ""
    ensures NoSlash(abs, MAX_PATH) == if abs == "/" then Err(EINVAL) else Ok(NameAbs(abs))
    ensures abs != "/" ==> Canon(NameAbs(abs)) && SkipSlashes(abs) == NameAbs(abs) && |NameAbs(abs)| + 1 < MAX_PATH
    ensures Parent(abs, MAX_PATH) == Ok(ParentAbs(abs)) && CanonAbs(ParentAbs(abs))
    ensures NameAbs(ParentAbs(abs)) == ParentName(NameAbs(abs))
  {
    hide Components, Parent, NoSlash, SkipSlashes;
    var dir := Components(abs);
    NoSlashOfRender(dir);
    ParentOfRender(dir);
    ComponentsOfName(dir);
    var up := if dir == [] then [] else dir[..|dir| - 1];
    ComponentsOfRender(up);
    if dir != [] {
      JoinedHead(dir);
      FitsUp(dir);
      CanonNonempty(NameOf(dir));
      assert abs == "/" + NameOf(dir);
    } else {
      assert abs == "/";
      NoComponents();
    }
  }

  /** Looking up a canonical path is looking up its name. */
  lemma LookupCanon(t: Tables, lower: Lower, abs: string)
    requires Shape(t) && CanonAbs(abs)
    ensures Lookup(t, lower, abs) == if abs == "/" then Found(ROOT) else LookupName(t, lower, NameAbs(abs))
    ensures DirAt(t, lower, NameAbs(abs)) <==> Lookup(t, lower, abs).Found? && IsDir(Lookup(t, lower, abs).e.mode)
  {
    AbsFacts(abs);
  }

  // ----- outcomes

  /** Why no new entry can go at abs: it is the root, it exists, or its parent is no directory; 0 if one can. */
  function CreateError(t: Tables, lower: Lower, abs: string): int
    requires Shape(t)
  {
    if abs == "/" then -EINVAL
    else if Lookup(t, lower, abs).Found? then -EEXIST
    else
      var p := Lookup(t, lower, ParentAbs(abs));
      if p.Missing? then -ENOENT else if !IsDir(p.e.mode) then -ENOTDIR else 0
  }

  lemma CreateMeansVacant(t: Tables, lower: Lower, abs: string)
    requires Shape(t) && CanonAbs(abs)
    ensures CreateError(t, lower, abs) == 0 <==> abs != "/" && Vacant(t, lower, NameAbs(abs))
  {
    hide LookupName, IsDir;
    AbsFacts(abs);
    LookupCanon(t, lower, abs);
    LookupCanon(t, lower, ParentAbs(abs));
  }

  predicate Full(rows: seq<Row>) { forall i :: 0 <= i < |rows| ==> rows[i].used }

  predicate InodesFull(inodes: seq<Inode>) { forall i :: 0 <= i < |inodes| ==> inodes[i].used }

  /** The file of the overlay that a name stands for: names with the same one are hard links.  -1 if there is none. */
  function FileNo(t: Tables, q: string): int {
    var f := First(t.files, q);
    if f < 0 then -1 else t.files[f].what
  }

  /** The only difference between two trees is what the name q0 stands for. */
  ghost predicate OnlyAt(t: Tables, t2: Tables, lower: Lower, q0: string, now: Found)
    requires Shape(t) && Shape(t2)
  {
    && (forall q :: LookupName(t2, lower, q) == if q == q0 then now else LookupName(t, lower, q))
    && (forall q :: q != q0 ==> FileNo(t2, q) == FileNo(t, q))
  }

  /** The only difference is the entry all names of one inode stand for. */
  ghost predicate OnlyInode(t: Tables, t2: Tables, lower: Lower, k: nat, now: Entry)
    requires Shape(t) && Shape(t2)
  {
    && (forall q :: LookupName(t2, lower, q) == if Names(t, q, k) then Found(now) else LookupName(t, lower, q))
    && (forall q :: FileNo(t2, q) == FileNo(t, q))
  }

  /** The name stands for a file that no other name stands for. */
  ghost predicate OwnFile(t: Tables, name: string) {
    FileNo(t, name) >= 0 && forall q :: q != name ==> FileNo(t, q) != FileNo(t, name)
  }

  lemma RowAdded(t: Tables, slot: nat, r: Row)
    requires Shape(t) && slot < SLOTS && !t.files[slot].used && r.used && First(t.files, r.path) < 0
    ensures var t2 := t.(files := t.files[slot := r]);
            FileNo(t2, r.path) == r.what && forall q :: q != r.path ==> FileNo(t2, q) == FileNo(t, q)
  {
    hide First;
    var t2 := t.(files := t.files[slot := r]);
    FirstUpdate(t.files, slot, r, r.path);
    forall q | q != r.path
      ensures FileNo(t2, q) == FileNo(t, q)
    {
      FirstUpdate(t.files, slot, r, q);
    }
  }

  lemma RowDropped(t: Tables, slot: nat)
    requires Shape(t) && slot < SLOTS && t.files[slot].used
    ensures var t2 := t.(files := t.files[slot := NO_ROW]);
            forall q :: q != t.files[slot].path ==> FileNo(t2, q) == FileNo(t, q)
  {
    hide First;
    var t2 := t.(files := t.files[slot := NO_ROW]);
    forall q | q != t.files[slot].path
      ensures FileNo(t2, q) == FileNo(t, q)
    {
      FirstUpdate(t.files, slot, NO_ROW, q);
    }
  }

  lemma SameFiles(t: Tables, t2: Tables)
    requires t2.files == t.files
    ensures forall q :: FileNo(t2, q) == FileNo(t, q)
  {
  }

  lemma RowOwn(t: Tables, slot: nat, r: Row)
    requires Shape(t) && LinksOk(t) && slot < SLOTS && !t.files[slot].used && r.used && First(t.files, r.path) < 0
    requires r.what < SLOTS && !t.inodes[r.what].used
    ensures OwnFile(t.(files := t.files[slot := r]), r.path)
  {
    hide First, Links;
    RowAdded(t, slot, r);
    Unlinked(t, r.what);
  }

  // ----- symbolic links

  function CStr(s: string): string {
    if s == [] || s[0] == '\0' then "" else [s[0]] + CStr(s[1..])
  }

  /** follow_symlink_data. */
  function Target(link: string, data: string): Option {
    if |data| + 1 > MAX_PATH then None
    else if Parent(link, MAX_PATH).Err? then None
    else
      var target := CStr(data);
      var parent := Parent(link, MAX_PATH).path;
      if target != "" && target[0] == '/' then Normalized(target, MAX_PATH)
      else if parent == "" || |parent| + 1 + |target| + 1 > MAX_PATH then None
      else Normalized(parent + (if parent[|parent| - 1] == '/' then "" else "/") + target, MAX_PATH)
  }

  /** resolve_final_symlink: None after too many hops or a bad target. */
  function Follow(t: Tables, lower: Lower, abs: string, hops: nat): Option
    requires Shape(t)
    decreases hops
  {
    if hops == 0 then None
    else
      var e := Lookup(t, lower, abs);
      if e.Missing? || Kind(e.e.mode) != LNK then Some(abs)
      else
        match Target(abs, e.e.data)
        case None => None
        case Some(next) => Follow(t, lower, next, hops - 1)
  }

  lemma TargetCanon(link: string, data: string)
    ensures Target(link, data).Some? ==> CanonAbs(Target(link, data).path)
  {
    hide CanonAbs, Normalized, CStr, Parent;
    var target := CStr(data);
    NormalizedCanon(target);
    if Parent(link, MAX_PATH).Ok? {
      var parent := Parent(link, MAX_PATH).path;
      NormalizedCanon(parent + (if parent != "" && parent[|parent| - 1] == '/' then "" else "/") + target);
    }
  }

  /** Following ends at a canonical path that is not a link. */
  lemma {:induction false} FollowEnds(t: Tables, lower: Lower, abs: string, hops: nat)
    requires Shape(t) && CanonAbs(abs) && Follow(t, lower, abs, hops).Some?
    ensures var p := Follow(t, lower, abs, hops).path;
            CanonAbs(p) && (Lookup(t, lower, p).Found? ==> Kind(Lookup(t, lower, p).e.mode) != LNK)
    decreases hops
  {
    hide Lookup, CanonAbs, Kind, Target;
    var e := Lookup(t, lower, abs);
    if e.Found? && Kind(e.e.mode) == LNK {
      TargetCanon(abs, e.e.data);
      FollowEnds(t, lower, Target(abs, e.e.data).path, hops - 1);
    }
  }

  /** A pointer to a path: null or out of the process's memory before the text ends, or the text. */
  datatype UserPath = Bad | At(text: string)

  /** copy_cstr_from_user succeeds. */
  predicate Copies(u: UserPath) { u.At? && |u.text| + 1 <= MAX_PATH }

  /** Where a path given by a process leads: copied in, resolved, and with follow its last links followed. */
  function Where(t: Tables, lower: Lower, cwd: string, input: UserPath, follow: bool): (w: Outcome)
    requires Shape(t)
  {
    if !Copies(input) then Err(EFAULT)
    else
      match Resolved(cwd, input.text, MAX_PATH)
      case None => Err(EINVAL)
      case Some(abs) =>
        if !follow then Ok(abs)
        else
          match Follow(t, lower, abs, MAX_SYMLINK_HOPS)
          case None => Err(EINVAL)
          case Some(p) => Ok(p)
  }

  lemma WhereCanon(t: Tables, lower: Lower, cwd: string, input: UserPath, follow: bool)
    requires Shape(t)
    ensures Where(t, lower, cwd, input, follow).Ok? ==> CanonAbs(Where(t, lower, cwd, input, follow).path)
  {
    hide CanonAbs, Normalized, Follow;
    if Copies(input) {
      NormalizedCanon(input.text);
      NormalizedCanon(cwd + "/" + input.text);
      if Resolved(cwd, input.text, MAX_PATH).Some? {
        var abs := Resolved(cwd, input.text, MAX_PATH).path;
        if Follow(t, lower, abs, MAX_SYMLINK_HOPS).Some? { FollowEnds(t, lower, abs, MAX_SYMLINK_HOPS); }
      }
    }
  }

  predicate InProc(abs: string) { abs in {"/proc", "/proc/", "/proc/ps", "/proc/meminfo", "/proc/net"} }

  function Chmodded(old_: nat, mode: nat): nat { old_ - old_ % 512 + mode % 512 }

  lemma ChmodKeepsKind(m: nat, mode: nat)
    ensures Kind(Chmodded(m, mode)) == Kind(m) && Chmodded(m, mode) % 512 == mode % 512
  {
    var q, r := m / 512, mode % 512;
    assert Chmodded(m, mode) == q * 512 + r;
    assert (q * 512 + r) / 0x1000 == q / 8;
    assert m / 0x1000 == q / 8;
  }

  // ----- outcomes of the calls

  /** What a call that makes an entry e does, given where its path leads and whether its table is full. */
  ghost predicate CreateOutcome(t: Tables, t2: Tables, lower: Overlay.Lower, w: Outcome, full: bool, e: Entry, rc: int)
    requires Shape(t) && Shape(t2)
  {
    if w.Err? then rc == -w.errno && t2 == t
    else if CreateError(t, lower, w.path) != 0 then rc == CreateError(t, lower, w.path) && t2 == t
    else if full then rc == -ENOMEM && t2 == t
    else
      && rc == 0 && OnlyAt(t, t2, lower, NameAbs(w.path), Found(e))
      && (!IsDir(e.mode) ==> OwnFile(t2, NameAbs(w.path)))
  }

  function LinkError(t: Tables, lower: Overlay.Lower, old_: string, new_: string): int
    requires Shape(t)
  {
    var e := Lookup(t, lower, old_);
    if old_ == "/" || new_ == "/" then -EINVAL
    else if e.Missing? then -ENOENT
    else if IsDir(e.e.mode) then -EPERM
    else if First(t.files, NameAbs(old_)) < 0 then -EROFS
    else CreateError(t, lower, new_)
  }

  ghost predicate LinkOutcome(t: Tables, t2: Tables, lower: Overlay.Lower, o: Outcome, n: Outcome, rc: int)
    requires Shape(t) && Shape(t2)
  {
    if o.Err? then rc == -o.errno && t2 == t
    else if n.Err? then rc == -n.errno && t2 == t
    else if LinkError(t, lower, o.path, n.path) != 0 then rc == LinkError(t, lower, o.path, n.path) && t2 == t
    else if Full(t.files) then rc == -ENOMEM && t2 == t
    else
      && rc == 0 && OnlyAt(t, t2, lower, NameAbs(n.path), Lookup(t, lower, o.path))
      && FileNo(t2, NameAbs(n.path)) == FileNo(t, NameAbs(o.path)) >= 0
  }

  function UnlinkError(t: Tables, lower: Overlay.Lower, abs: string, removeDir: bool): int
    requires Shape(t)
  {
    var name, e := NameAbs(abs), Lookup(t, lower, abs);
    if abs == "/" then -EISDIR
    else if removeDir then
      if First(t.dirs, name) >= 0 then (if NothingBelow(t, name) then 0 else -ENOTEMPTY)
      else if e.Missing? then -ENOENT else if IsDir(e.e.mode) then -EROFS else -ENOTDIR
    else if First(t.files, name) >= 0 then 0
    else if e.Missing? then -ENOENT else if IsDir(e.e.mode) then -EISDIR else -EROFS
  }

  ghost predicate UnlinkOutcome(t: Tables, t2: Tables, lower: Overlay.Lower, w: Outcome, removeDir: bool, rc: int)
    requires Shape(t) && Shape(t2)
  {
    if w.Err? then rc == -w.errno && t2 == t
    else if UnlinkError(t, lower, w.path, removeDir) != 0 then rc == UnlinkError(t, lower, w.path, removeDir) && t2 == t
    else rc == 0 && OnlyAt(t, t2, lower, NameAbs(w.path), Missing)
  }

  /** chmod changes the permission bits of the file under all its names, or of an overlay directory. */
  ghost predicate ChmodOutcome(t: Tables, t2: Tables, lower: Overlay.Lower, w: Outcome, mode: nat, rc: int)
    requires Shape(t) && Shape(t2)
  {
    if w.Err? then rc == -w.errno && t2 == t
    else
      var name, e := NameAbs(w.path), Lookup(t, lower, w.path);
      if InProc(w.path) then rc == -EROFS && t2 == t
      else if e.Missing? then rc == -ENOENT && t2 == t
      else if w.path != "/" && First(t.files, name) >= 0 then
        rc == 0 && OnlyInode(t, t2, lower, t.files[First(t.files, name)].what,
                             Entry(Chmodded(e.e.mode, mode), e.e.data))
      else if w.path != "/" && First(t.dirs, name) >= 0 then
        rc == 0 && OnlyAt(t, t2, lower, name, Found(Entry(Chmodded(e.e.mode, mode), "")))
      else rc == -EROFS && t2 == t
  }

  datatype Opened = Failed(errno: int) | ProcNode | RamFile(id: nat) | ReadOnly

  function ModeOf(f: Found): nat { if f.Found? then f.e.mode else 0 }

  /** Opening an overlay file, emptying it first with O_TRUNC. */
  ghost predicate FileOpened(t: Tables, t2: Tables, lower: Overlay.Lower, name: string, creat: bool, excl: bool,
                             trunc: bool, r: Opened)
    requires Shape(t) && Shape(t2) && First(t.files, name) >= 0
  {
    if creat && excl then r == Failed(EEXIST) && t2 == t
    else r == RamFile(First(t.files, name)) && First(t2.files, name) == First(t.files, name) &&
         if trunc then OnlyInode(t, t2, lower, t.files[First(t.files, name)].what,
                                 Entry(ModeOf(LookupName(t, lower, name)), ""))
         else t2 == t
  }

  /** Opening a path that is nowhere: O_CREAT makes an empty overlay file. */
  ghost predicate NewOpened(t: Tables, t2: Tables, lower: Overlay.Lower, abs: string, creat: bool, mode: nat, r: Opened)
    requires Shape(t) && Shape(t2)
  {
    if !creat then r == Failed(ENOENT) && t2 == t
    else if CreateError(t, lower, abs) != 0 then r == Failed(-CreateError(t, lower, abs)) && t2 == t
    else if Full(t.files) || InodesFull(t.inodes) then r == Failed(ENOMEM) && t2 == t
    else
      && OnlyAt(t, t2, lower, NameAbs(abs), Found(Entry(S_IFREG + mode % 512, ""))) && OwnFile(t2, NameAbs(abs))
      && First(t2.files, NameAbs(abs)) >= 0 && r == RamFile(First(t2.files, NameAbs(abs)))
  }

  /** The file-system part of open: what gets opened, and what it creates or truncates first. */
  ghost predicate OpenOutcome(t: Tables, t2: Tables, lower: Overlay.Lower, w: Outcome,
                              creat: bool, excl: bool, trunc: bool, acc: nat, mode: nat, r: Opened)
    requires Shape(t) && Shape(t2)
  {
    if w.Err? then r == Failed(w.errno) && t2 == t
    else if InProc(w.path) then r == (if acc != O_RDONLY then Failed(EROFS) else ProcNode) && t2 == t
    else if w.path != "/" && First(t.files, NameAbs(w.path)) >= 0 then
      FileOpened(t, t2, lower, NameAbs(w.path), creat, excl, trunc, r)
    else if Lookup(t, lower, w.path).Missing? then NewOpened(t, t2, lower, w.path, creat, mode, r)
    else
      t2 == t && r == if creat && excl then Failed(EEXIST)
                      else if Kind(ModeOf(Lookup(t, lower, w.path))) == REG && (acc == O_WRONLY || acc == O_RDWR)
                      then Failed(EROFS) else ReadOnly
  }

  /** One system call of some process. */
  datatype Call =
    | Open(dirfd: int, path: UserPath, creat: bool, excl: bool, trunc: bool, acc: nat, mode: nat)
    | Mkdir(dirfd: int, path: UserPath, mode: nat)
    | Symlink(target: UserPath, dirfd: int, path: UserPath)
    | Link(oldDirfd: int, old_: UserPath, newDirfd: int, new_: UserPath, flags: nat)
    | Chmod(dirfd: int, path: UserPath, mode: nat, flags: nat)
    | Unlink(dirfd: int, path: UserPath, flags: nat)

  datatype Answer = Code(rc: int) | Handle(h: Opened)

  /** What a call by a process in directory cwd answers, and does to the tree. */
  ghost predicate CallOutcome(t: Tables, t2: Tables, lower: Overlay.Lower, cwd: string, c: Call, a: Answer)
    requires Shape(t) && Shape(t2)
  {
    match c
    case Open(dirfd, path, creat, excl, trunc, acc, mode) =>
      if dirfd != AT_FDCWD then a == Handle(Failed(ENOSYS)) && t2 == t
      else
        a.Handle? && OpenOutcome(t, t2, lower, Where(t, lower, cwd, path, true), creat, excl, trunc, acc, mode, a.h)
    case Mkdir(dirfd, path, mode) =>
      if dirfd != AT_FDCWD then a == Code(-ENOSYS) && t2 == t
      else
        a.Code? && CreateOutcome(t, t2, lower, Where(t, lower, cwd, path, false), Full(t.dirs),
                                 Entry(S_IFDIR + mode % 512, ""), a.rc)
    case Symlink(target, dirfd, path) =>
      if dirfd != AT_FDCWD then a == Code(-ENOSYS) && t2 == t
      else if !Copies(target) then a == Code(-EFAULT) && t2 == t
      else
        a.Code? && CreateOutcome(t, t2, lower, Where(t, lower, cwd, path, false), Full(t.files) || InodesFull(t.inodes),
                                 Entry(S_IFLNK + 0x1FF, target.text), a.rc)
    case Link(oldDirfd, old_, newDirfd, new_, flags) =>
      if oldDirfd != AT_FDCWD || newDirfd != AT_FDCWD || flags != 0 then a == Code(-EINVAL) && t2 == t
      else if !Copies(old_) || !Copies(new_) then a == Code(-EFAULT) && t2 == t
      else
        a.Code? && LinkOutcome(t, t2, lower, Where(t, lower, cwd, old_, false), Where(t, lower, cwd, new_, false), a.rc)
    case Chmod(dirfd, path, mode, flags) =>
      if dirfd != AT_FDCWD || flags != 0 then a == Code(-ENOSYS) && t2 == t
      else a.Code? && ChmodOutcome(t, t2, lower, Where(t, lower, cwd, path, true), mode, a.rc)
    case Unlink(dirfd, path, flags) =>
      if dirfd != AT_FDCWD || (flags != 0 && flags != AT_REMOVEDIR) then a == Code(-ENOSYS) && t2 == t
      else
        a.Code? && UnlinkOutcome(t, t2, lower, Where(t, lower, cwd, path, false), flags == AT_REMOVEDIR, a.rc)
  }

  /** A run of calls, each by a process with its own working directory: a sound tree before and after every call. */
  ghost predicate IsTreeRun(calls: seq<(string, Call)>, answers: seq<Answer>, trees: seq<Tables>,
                            lower: Overlay.Lower)
  {
    && |answers| == |calls| && |trees| == |calls| + 1
    && (forall i :: 0 <= i < |trees| ==> TreeOk(trees[i], lower))
    && (forall i :: 0 <= i < |calls| ==>
          CallOutcome(trees[i], trees[i + 1], lower, calls[i].0, calls[i].1, answers[i]))
  }

  class FileSystem {
    var dirs: seq<Row>
    var files: seq<Row>
    var inodes: seq<Inode>
    const lower: Overlay.Lower

    ghost function T(): Tables reads this { Tables(dirs, files, inodes) }

    ghost predicate Valid() reads this { TreeOk(T(), lower) }

    /** vfs_init over a given initramfs. */
    constructor (initramfs: Overlay.Lower)
      ensures Valid() && lower == initramfs
      ensures forall q :: LookupName(T(), lower, q) == if q in initramfs then Found(initramfs[q]) else Missing
    {
      lower := initramfs;
      dirs := seq(SLOTS, _ => NO_ROW);
      files := seq(SLOTS, _ => NO_ROW);
      inodes := seq(SLOTS, _ => NO_INODE);
      new;
      NothingYet(T(), lower);
    }

    // ----- vfs.c

    method Find(rows: seq<Row>, q: string) returns (r: int)
      ensures r == First(rows, q)
    {
      hide First;
      for i := 0 to |rows|
        invariant forall k :: 0 <= k < i ==> !Is(rows[k], q)
      {
        if rows[i].used && rows[i].path == q { return i; }
      }
      return -1;
    }

    method AllocRow(rows: seq<Row>) returns (r: int)
      ensures -1 <= r < |rows| && (r < 0 <==> Full(rows)) && (r >= 0 ==> !rows[r].used)
    {
      for i := 0 to |rows|
        invariant forall k :: 0 <= k < i ==> rows[k].used
      {
        if !rows[i].used { return i; }
      }
      return -1;
    }

    method AllocInode() returns (r: int)
      ensures -1 <= r < |inodes| && (r < 0 <==> InodesFull(inodes)) && (r >= 0 ==> !inodes[r].used)
    {
      for i := 0 to |inodes|
        invariant forall k :: 0 <= k < i ==> inodes[k].used
      {
        if !inodes[i].used { return i; }
      }
      return -1;
    }

    method LookupAbs(abs: string) returns (f: Found)
      requires Shape(T())
      ensures f == Lookup(T(), lower, abs)
    {
      hide First;
      if abs == "/" { return Found(ROOT); }
      var p := SkipSlashes(abs);
      if p == "" { return Found(ROOT); }
      var d := Find(dirs, p);
      if d >= 0 { return Found(Entry(dirs[d].what, "")); }
      var r := Find(files, p);
      if r >= 0 {
        var k := files[r].what;
        if k < SLOTS && inodes[k].used { return Found(Entry(inodes[k].mode, inodes[k].data)); }
        return Missing;
      }
      if p in lower { return Found(lower[p]); }
      return Missing;
    }

    /** vfs_ramdir_create. */
    method RamdirCreate(name: string, mode: nat) returns (rc: int, ghost at: nat)
      requires Shape(T())
      modifies this
      ensures rc == if name == "" then -ENOENT
                    else if First(old(dirs), name) >= 0 then -EEXIST
                    else if Full(old(dirs)) then -ENOMEM
                    else if |name| + 1 > MAX_PATH then -ENAMETOOLONG else 0
      ensures if rc == 0 then at < SLOTS && !old(dirs)[at].used
                && T() == old(T()).(dirs := old(dirs)[at := Row(true, name, mode)])
              else T() == old(T())
      // at a vacant place the tree stays sound, and the name is all that changes
      ensures rc == 0 && old(Valid() && Vacant(T(), lower, name)) && IsDir(mode) ==>
                Valid() && OnlyAt(old(T()), T(), lower, name, Found(Entry(mode, "")))
    {
      hide First, Canon, Links, Kind, ParentName, Closed, NamesOk, LinksOk;
      at := 0;
      if name == "" { return -ENOENT, 0; }
      var d := Find(dirs, name);
      if d >= 0 { return -EEXIST, 0; }
      var slot := AllocRow(dirs);
      if slot < 0 { return -ENOMEM, 0; }
      if |name| + 1 > MAX_PATH { return -ENAMETOOLONG, 0; }
      if Valid() && Vacant(T(), lower, name) && IsDir(mode) { AddDir(T(), lower, slot, name, mode); }
      dirs := dirs[slot := Row(true, name, mode)];
      return 0, slot;
    }

    /** vfs_ramdir_remove. */
    method RamdirRemove(name: string) returns (rc: int)
      requires Valid()
      modifies this
      ensures Valid() && files == old(files) && inodes == old(inodes)
      ensures rc == if name == "" then -EINVAL else if First(old(dirs), name) < 0 then -ENOENT
                else if !NothingBelow(old(T()), name) then -ENOTEMPTY else 0
      ensures if rc == 0 then OnlyAt(old(T()), T(), lower, name, Missing) else T() == old(T())
    {
      hide First, Canon, Links, Kind, ParentName, Closed, NamesOk, LinksOk, HasPrefixDir;
      if name == "" { return -EINVAL; }
      var idx := Find(dirs, name);
      if idx < 0 { return -ENOENT; }
      for i := 0 to SLOTS
        invariant forall k :: 0 <= k < i && dirs[k].used ==> !HasPrefixDir(dirs[k].path, name)
      {
        if dirs[i].used && HasPrefixDir(dirs[i].path, name) {
          assert RowAt(T(), i) == dirs[i];
          return -ENOTEMPTY;
        }
      }
      for i := 0 to SLOTS
        invariant forall k :: 0 <= k < i && files[k].used ==> !HasPrefixDir(files[k].path, name)
      {
        if files[i].used && HasPrefixDir(files[i].path, name) {
          assert RowAt(T(), SLOTS + i) == files[i];
          return -ENOTEMPTY;
        }
      }
      assert NothingBelow(T(), name);
      RemoveDir(T(), lower, idx);
      dirs := dirs[idx := NO_ROW];
      return 0;
    }

    /** vfs_ramfile_create; data is what the creation of a symbolic link then writes into it. */
    method RamfileCreate(name: string, mode: nat, data: string) returns (rc: int, ghost at: nat, ghost k: nat)
      requires Shape(T())
      modifies this
      ensures rc == if name == "" then -ENOENT
                    else if First(old(files), name) >= 0 || First(old(dirs), name) >= 0 then -EEXIST
                    else if Full(old(files)) || InodesFull(old(inodes)) then -ENOMEM
                    else if |name| + 1 > MAX_PATH then -ENAMETOOLONG else 0
      ensures if rc == 0 then at < SLOTS && k < SLOTS && !old(files)[at].used && !old(inodes)[k].used
                              && T() == WithFile(old(T()), at, name, k, Inode(true, mode, 1, data))
              else T() == old(T())
      // at a vacant place the tree stays sound, and the name is all that changes
      ensures rc == 0 && old(Valid() && Vacant(T(), lower, name)) && !IsDir(mode) ==>
                Valid() && OnlyAt(old(T()), T(), lower, name, Found(Entry(mode, data))) && OwnFile(T(), name)
    {
      hide First, Canon, Links, Kind, ParentName, Closed, NamesOk, Vacant;
      at, k := 0, 0;
      if name == "" { return -ENOENT, 0, 0; }
      var f := Find(files, name);
      if f >= 0 { return -EEXIST, 0, 0; }
      var d := Find(dirs, name);
      if d >= 0 { return -EEXIST, 0, 0; }
      var slot := AllocRow(files);
      if slot < 0 { return -ENOMEM, 0, 0; }
      var id := AllocInode();
      if id < 0 { return -ENOMEM, 0, 0; }
      if |name| + 1 > MAX_PATH { return -ENAMETOOLONG, 0, 0; }
      if Valid() && Vacant(T(), lower, name) && !IsDir(mode) {
        FreeInodeUncounted(T(), id);
        AddFile(T(), lower, slot, name, id, Inode(true, mode, 1, data));
        RowAdded(T(), slot, Row(true, name, id));
        RowOwn(T(), slot, Row(true, name, id));
      }
      files := files[slot := Row(true, name, id)];
      inodes := inodes[id := Inode(true, mode, 1, data)];
      return 0, slot, id;
    }

    /** vfs_ramfile_unlink, with raminode_decref. */
    method RamfileUnlink(name: string) returns (rc: int)
      requires Valid()
      modifies this
      ensures Valid() && dirs == old(dirs)
      ensures rc == if name == "" || First(old(files), name) < 0 then -ENOENT else 0
      ensures if rc == 0 then OnlyAt(old(T()), T(), lower, name, Missing) else T() == old(T())
    {
      hide First, Canon, Links, Kind, ParentName, Closed, NamesOk;
      if name == "" { return -ENOENT; }
      var idx := Find(files, name);
      if idx < 0 { return -ENOENT; }
      var k := files[idx].what;
      RemoveFile(T(), lower, idx);
      RowDropped(T(), idx);
      files := files[idx := NO_ROW];
      Decref(k);
      return 0;
    }

    method Decref(k: nat)
      requires k < |inodes|
      modifies this`inodes
      ensures inodes == old(inodes)[k := Dropped(old(inodes)[k])]
    {
      if !inodes[k].used { return; }
      if inodes[k].nlink > 0 { inodes := inodes[k := inodes[k].(nlink := inodes[k].nlink - 1)]; }
      if inodes[k].nlink == 0 { inodes := inodes[k := NO_INODE]; }
    }

    /** vfs_ramfile_link: the new name gets the old name's inode, hence its mode and contents. */
    method RamfileLink(oldName: string, newName: string) returns (rc: int)
      requires Valid()
      modifies this
      ensures rc == if oldName == "" || newName == "" || First(old(files), oldName) < 0 then -ENOENT
                    else if First(old(files), newName) >= 0 || First(old(dirs), newName) >= 0 then -EEXIST
                    else if Full(old(files)) then -ENOMEM
                    else if |newName| + 1 > MAX_PATH then -ENAMETOOLONG else 0
      ensures dirs == old(dirs) && (rc != 0 ==> T() == old(T()))
      ensures rc == 0 ==>
                FileNo(T(), newName) == FileNo(old(T()), oldName) >= 0
      // at a vacant place the tree stays sound, and the name is all that changes
      ensures rc == 0 && old(Vacant(T(), lower, newName)) ==>
                Valid() && OnlyAt(old(T()), T(), lower, newName, LookupName(old(T()), lower, oldName))
    {
      hide First, Canon, Links, Kind, ParentName, Closed, NamesOk, Vacant, LookupName, OwnFile;
      if oldName == "" { return -ENOENT; }
      if newName == "" { return -ENOENT; }
      var o := Find(files, oldName);
      if o < 0 { return -ENOENT; }
      var n := Find(files, newName);
      if n >= 0 { return -EEXIST; }
      var d := Find(dirs, newName);
      if d >= 0 { return -EEXIST; }
      var slot := AllocRow(files);
      if slot < 0 { return -ENOMEM; }
      if |newName| + 1 > MAX_PATH { return -ENAMETOOLONG; }
      var k := files[o].what;
      NamedInode(T(), lower, o);
      if k >= SLOTS || !inodes[k].used { return -ENOENT; }
      if Vacant(T(), lower, newName) {
        AddFile(T(), lower, slot, newName, k, inodes[k].(nlink := inodes[k].nlink + 1));
      }
      RowAdded(T(), slot, Row(true, newName, k));
      FirstUpdate(files, slot, Row(true, newName, k), newName);
      files := files[slot := Row(true, newName, k)];
      inodes := inodes[k := inodes[k].(nlink := inodes[k].nlink + 1)];
      return 0;
    }

    // ----- sys_fs.c

    /** Copying a path in, resolving it, and perhaps following the links it ends at. */
    method Locate(cwd: string, input: UserPath, follow: bool) returns (w: Outcome)
      requires Valid()
      ensures w == Where(T(), lower, cwd, input, follow)
      ensures w.Ok? ==> CanonAbs(w.path)
    {
      hide Resolved, Lookup, CanonAbs, Target, TreeOk;
      SoundShape(T(), lower);
      WhereCanon(T(), lower, cwd, input, follow);
      if !Copies(input) { return Err(EFAULT); }
      var r := Resolved(cwd, input.text, MAX_PATH);
      if r.None? { return Err(EINVAL); }
      if !follow { return Ok(r.path); }
      var abs := r.path;
      for hop := 0 to MAX_SYMLINK_HOPS
        invariant Follow(T(), lower, abs, MAX_SYMLINK_HOPS - hop) == Follow(T(), lower, r.path, MAX_SYMLINK_HOPS)
      {
        var e := LookupAbs(abs);
        if e.Missing? { return Ok(abs); }
        if Kind(e.e.mode) != LNK { return Ok(abs); }
        var next := Target(abs, e.e.data);
        if next.None? { return Err(EINVAL); }
        abs := next.path;
      }
      return Err(EINVAL);
    }

    /** The checks before a new entry is made at abs. */
    method CheckVacant(abs: string) returns (err: int, name: string)
      requires Valid() && CanonAbs(abs)
      ensures err == CreateError(T(), lower, abs)
      ensures err == 0 ==> name == NameAbs(abs) && Vacant(T(), lower, name)
    {
      hide Lookup, Parent, NoSlash, CanonAbs, IsDir, Vacant;
      AbsFacts(abs);
      CreateMeansVacant(T(), lower, abs);
      name := "";
      var n := AbsPathToNoSlashTrim(abs, MAX_PATH);
      if n.Err? { return -n.errno, name; }
      name := n.path;
      var e := LookupAbs(abs);
      if e.Found? { return -EEXIST, name; }
      var p := AbsPathParentDir(abs, MAX_PATH);
      var parent := match p case Err(_) => "" case Ok(dir) => dir;
      if parent == "" { return -EINVAL, name; }
      var pe := LookupAbs(parent);
      if pe.Missing? { return -ENOENT, name; }
      if !IsDir(pe.e.mode) { return -ENOTDIR, name; }
      return 0, name;
    }

    method Mkdir(cwd: string, dirfd: int, path: UserPath, mode: nat) returns (rc: int)
      requires Valid()
      modifies this
      ensures Valid()
      ensures CallOutcome(old(T()), T(), lower, cwd, Call.Mkdir(dirfd, path, mode), Code(rc))
    {
      hide TreeOk, Where, CreateError, Vacant, OnlyAt, CanonAbs;
      if dirfd != AT_FDCWD { return -ENOSYS; }
      SoundShape(T(), lower);
      var w := Locate(cwd, path, false);
      if w.Err? { return -w.errno; }
      var err, name := CheckVacant(w.path);
      if err != 0 { return err; }
      VacantFacts(T(), lower, name);
      DirMode(mode);
      ghost var at;
      rc, at := RamdirCreate(name, S_IFDIR + mode % 512);
    }

    method Symlink(cwd: string, target: UserPath, dirfd: int, path: UserPath) returns (rc: int)
      requires Valid()
      modifies this
      ensures Valid()
      ensures CallOutcome(old(T()), T(), lower, cwd, Call.Symlink(target, dirfd, path), Code(rc))
    {
      hide TreeOk, Where, CreateError, Vacant, OnlyAt, CanonAbs;
      if dirfd != AT_FDCWD { return -ENOSYS; }
      SoundShape(T(), lower);
      if !Copies(target) { return -EFAULT; }
      var w := Locate(cwd, path, false);
      if w.Err? { return -w.errno; }
      var err, name := CheckVacant(w.path);
      if err != 0 { return err; }
      VacantFacts(T(), lower, name);
      ghost var at, k;
      rc, at, k := RamfileCreate(name, S_IFLNK + 0x1FF, target.text);
    }

    method Link(cwd: string, oldDirfd: int, old_: UserPath, newDirfd: int, new_: UserPath, flags: nat) returns (rc: int)
      requires Valid()
      modifies this
      ensures Valid()
      ensures CallOutcome(old(T()), T(), lower, cwd, Call.Link(oldDirfd, old_, newDirfd, new_, flags), Code(rc))
    {
      hide TreeOk, Where, CreateError, Vacant, OnlyAt, CanonAbs, Lookup, NoSlash, FileNo, LookupName;
      if oldDirfd != AT_FDCWD || newDirfd != AT_FDCWD { return -EINVAL; }
      if flags != 0 { return -EINVAL; }
      SoundShape(T(), lower);
      if !Copies(old_) || !Copies(new_) { return -EFAULT; }
      var o := Locate(cwd, old_, false);
      if o.Err? { return -o.errno; }
      var n := Locate(cwd, new_, false);
      if n.Err? { return -n.errno; }
      AbsFacts(o.path);
      AbsFacts(n.path);
      LookupCanon(T(), lower, o.path);
      var on := AbsPathToNoSlashTrim(o.path, MAX_PATH);
      if on.Err? { return -on.errno; }
      var nn := AbsPathToNoSlashTrim(n.path, MAX_PATH);
      if nn.Err? { return -nn.errno; }
      var e := LookupAbs(o.path);
      if e.Missing? { return -ENOENT; }
      if IsDir(e.e.mode) { return -EPERM; }
      var f := Find(files, on.path);
      if f < 0 { return -EROFS; }
      var err, name := CheckVacant(n.path);
      if err != 0 { return err; }
      VacantFacts(T(), lower, name);
      rc := RamfileLink(on.path, name);
    }

    /** Removing what abs names. */
    method Remove(abs: string, removeDir: bool) returns (rc: int)
      requires Valid() && CanonAbs(abs)
      modifies this
      ensures Valid() && UnlinkOutcome(old(T()), T(), lower, Ok(abs), removeDir, rc)
    {
      hide NoSlash, TreeOk, OnlyAt, CanonAbs, Lookup, First, NothingBelow, Kind;
      SoundShape(T(), lower);
      AbsFacts(abs);
      if abs == "/" { return -EISDIR; }
      var name := SkipSlashes(abs);
      if name == "" { return -EISDIR; }
      if removeDir {
        rc := RamdirRemove(name);
        if rc == 0 { return 0; }
        if rc == -ENOTEMPTY { return rc; }
        var e := LookupAbs(abs);
        if e.Found? {
          if !IsDir(e.e.mode) { return -ENOTDIR; }
          return -EROFS;
        }
        return -ENOENT;
      }
      rc := RamfileUnlink(name);
      if rc == 0 { return 0; }
      var e := LookupAbs(abs);
      if e.Found? {
        if IsDir(e.e.mode) { return -EISDIR; }
        return -EROFS;
      }
      return -ENOENT;
    }

    method Unlink(cwd: string, dirfd: int, path: UserPath, flags: nat) returns (rc: int)
      requires Valid()
      modifies this
      ensures Valid()
      ensures CallOutcome(old(T()), T(), lower, cwd, Call.Unlink(dirfd, path, flags), Code(rc))
    {
      hide TreeOk, Where, CanonAbs, UnlinkError;
      if dirfd != AT_FDCWD { return -ENOSYS; }
      if flags != 0 && flags != AT_REMOVEDIR { return -ENOSYS; }
      SoundShape(T(), lower);
      var w := Locate(cwd, path, false);
      if w.Err? { return -w.errno; }
      rc := Remove(w.path, flags == AT_REMOVEDIR);
    }

    method Chmod(cwd: string, dirfd: int, path: UserPath, mode: nat, flags: nat) returns (rc: int)
      requires Valid()
      modifies this
      ensures Valid()
      ensures CallOutcome(old(T()), T(), lower, cwd, Call.Chmod(dirfd, path, mode, flags), Code(rc))
    {
      hide TreeOk, Where, OnlyAt, OnlyInode, CanonAbs, Lookup, First, Chmodded, Kind;
      if dirfd != AT_FDCWD { return -ENOSYS; }
      if flags != 0 { return -ENOSYS; }
      SoundShape(T(), lower);
      var w := Locate(cwd, path, true);
      if w.Err? { return -w.errno; }
      if InProc(w.path) { return -EROFS; }
      var e := LookupAbs(w.path);
      if e.Missing? { return -ENOENT; }
      AbsFacts(w.path);
      LookupCanon(T(), lower, w.path);
      var mode2 := Chmodded(e.e.mode, mode);
      ChmodKeepsKind(e.e.mode, mode);
      var name := SkipSlashes(w.path);
      if w.path != "/" {
        var f := Find(files, name);
        if f >= 0 {
          SetFileMode(name, f, mode2);
          return 0;
        }
        var d := Find(dirs, name);
        if d >= 0 {
          SetMode(name, d, mode2);
          return 0;
        }
      }
      return -EROFS;
    }

    method SetFileMode(name: string, f: nat, mode: nat)
      requires Valid() && f < SLOTS && First(files, name) == f
      requires LookupName(T(), lower, name).Found? && Kind(LookupName(T(), lower, name).e.mode) == Kind(mode)
      modifies this`inodes
      ensures Valid()
      ensures OnlyInode(old(T()), T(), lower, files[f].what, Entry(mode, LookupName(old(T()), lower, name).e.data))
    {
      hide First, Canon, Kind, Closed, NamesOk;
      var k := files[f].what;
      NamedInode(T(), lower, f);
      SetInode(T(), lower, k, inodes[k].(mode := mode));
      inodes := inodes[k := inodes[k].(mode := mode)];
    }

    method SetMode(name: string, d: nat, mode: nat)
      requires Valid() && d < SLOTS && First(dirs, name) == d
      requires Kind(LookupName(T(), lower, name).e.mode) == Kind(mode)
      modifies this`dirs
      ensures Valid() && OnlyAt(old(T()), T(), lower, name, Found(Entry(mode, "")))
    {
      hide First, Canon, Kind, Closed, NamesOk;
      SetDirMode(T(), lower, d, mode);
      dirs := dirs[d := dirs[d].(what := mode)];
    }

    method Truncate(name: string, f: nat)
      requires Valid() && f < SLOTS && First(files, name) == f && First(dirs, name) < 0
      modifies this`inodes
      ensures Valid() && LookupName(old(T()), lower, name).Found?
      ensures OnlyInode(old(T()), T(), lower, files[f].what, Entry(LookupName(old(T()), lower, name).e.mode, ""))
    {
      hide First, Canon, Kind, Closed, NamesOk;
      var k := files[f].what;
      NamedInode(T(), lower, f);
      SetInode(T(), lower, k, inodes[k].(data := ""));
      inodes := inodes[k := inodes[k].(data := "")];
    }

    method OpenFile(name: string, f: nat, creat: bool, excl: bool, trunc: bool) returns (r: Opened)
      requires Valid() && f < SLOTS && First(files, name) == f
      modifies this
      ensures Valid() && FileOpened(old(T()), T(), lower, name, creat, excl, trunc, r)
    {
      hide TreeOk, OnlyInode, First, Kind;
      SoundShape(T(), lower);
      if creat && excl { return Failed(EEXIST); }
      FileNotDir(T(), lower, f);
      if trunc { Truncate(name, f); }
      return RamFile(f);
    }

    method OpenNew(abs: string, creat: bool, mode: nat) returns (r: Opened)
      requires Valid() && CanonAbs(abs)
      modifies this
      ensures Valid() && NewOpened(old(T()), T(), lower, abs, creat, mode, r)
    {
      hide TreeOk, OnlyAt, First, Kind, CreateError, Vacant, CanonAbs;
      SoundShape(T(), lower);
      if !creat { return Failed(ENOENT); }
      var err, n := CheckVacant(abs);
      if err != 0 { return Failed(-err); }
      VacantFacts(T(), lower, n);
      FileMode(mode);
      var rc;
      ghost var at, k;
      rc, at, k := RamfileCreate(n, S_IFREG + mode % 512, "");
      if rc != 0 { return Failed(-rc); }
      FreshRow(old(T()).files, at, n, k);
      SoundShape(T(), lower);
      var f := Find(files, n);
      return RamFile(f);
    }

    /** The part of sys_openat that concerns the tree. */
    method Open(cwd: string, dirfd: int, path: UserPath, creat: bool, excl: bool, trunc: bool, acc: nat, mode: nat)
      returns (r: Opened)
      requires Valid()
      modifies this
      ensures Valid()
      ensures CallOutcome(old(T()), T(), lower, cwd, Call.Open(dirfd, path, creat, excl, trunc, acc, mode), Handle(r))
    {
      hide TreeOk, Where, CanonAbs, Lookup, First, Kind, FileOpened, NewOpened;
      if dirfd != AT_FDCWD { return Failed(ENOSYS); }
      SoundShape(T(), lower);
      var w := Locate(cwd, path, true);
      if w.Err? { return Failed(w.errno); }
      AbsFacts(w.path);
      if InProc(w.path) {
        if acc != O_RDONLY { return Failed(EROFS); }
        return ProcNode;
      }
      var name := SkipSlashes(w.path);
      if w.path != "/" {
        var f := Find(files, name);
        if f >= 0 {
          r := OpenFile(name, f, creat, excl, trunc);
          return;
        }
      }
      var e := LookupAbs(w.path);
      if e.Missing? {
        r := OpenNew(w.path, creat, mode);
        return;
      }
      if creat && excl { return Failed(EEXIST); }
      if Kind(e.e.mode) == REG && (acc == O_WRONLY || acc == O_RDWR) { return Failed(EROFS); }
      return ReadOnly;
    }

    method Do(cwd: string, c: Call) returns (a: Answer)
      requires Valid() && Shape(T())
      modifies this
      ensures Valid() && Shape(T()) && CallOutcome(old(T()), T(), lower, cwd, c, a)
    {
      hide TreeOk, CallOutcome;
      var rc;
      match c {
        case Open(dirfd, path, creat, excl, trunc, acc, mode) =>
          var r := Open(cwd, dirfd, path, creat, excl, trunc, acc, mode);
          SoundShape(T(), lower);
          return Handle(r);
        case Mkdir(dirfd, path, mode) => rc := Mkdir(cwd, dirfd, path, mode);
        case Symlink(target, dirfd, path) => rc := Symlink(cwd, target, dirfd, path);
        case Link(oldDirfd, old_, newDirfd, new_, flags) => rc := Link(cwd, oldDirfd, old_, newDirfd, new_, flags);
        case Chmod(dirfd, path, mode, flags) => rc := Chmod(cwd, dirfd, path, mode, flags);
        case Unlink(dirfd, path, flags) => rc := Unlink(cwd, dirfd, path, flags);
      }
      SoundShape(T(), lower);
      return Code(rc);
    }

    /** Any sequence of calls, each from a process with its own working directory. */
    method Run(calls: seq<(string, Call)>) returns (answers: seq<Answer>, ghost trees: seq<Tables>)
      requires Valid()
      modifies this
      ensures Valid() && IsTreeRun(calls, answers, trees, lower) && trees[0] == old(T()) && trees[|calls|] == T()
    {
      hide TreeOk, CallOutcome;
      answers, trees := [], [T()];
      for i := 0 to |calls|
        invariant Valid() && IsTreeRun(calls[..i], answers, trees, lower) && trees[0] == old(T()) && trees[i] == T()
      {
        SoundShape(T(), lower);
        var a := Do(calls[i].0, calls[i].1);
        SoundShape(T(), lower);
        answers, trees := answers + [a], trees + [T()];
      }
      assert calls[..|calls|] == calls;
    }
  }

  lemma SoundShape(t: Tables, lower: Overlay.Lower)
    requires TreeOk(t, lower)
    ensures Shape(t)
  {
  }

  lemma DirMode(mode: nat)
    ensures IsDir(S_IFDIR + mode % 512)
  {
  }

  lemma FileMode(mode: nat)
    ensures !IsDir(S_IFREG + mode % 512)
  {
  }

  lemma FreshRow(rows: seq<Row>, at: nat, name: string, k: nat)
    requires at < |rows| && First(rows, name) < 0
    ensures First(rows[at := Row(true, name, k)], name) == at
  {
    FirstUpdate(rows, at, Row(true, name, k), name);
  }

  lemma FileNotDir(t: Tables, lower: Overlay.Lower, f: nat)
    requires TreeOk(t, lower) && f < SLOTS && t.files[f].used
    ensures First(t.dirs, t.files[f].path) < 0
  {
    hide First, Canon, Links, Closed;
    assert RowAt(t, SLOTS + f) == t.files[f];
    OnlyRow(t, lower, SLOTS + f, t.files[f].path);
  }

  lemma NothingYet(t: Tables, lower: Overlay.Lower)
    requires Shape(t)
    requires forall i :: 0 <= i < SLOTS ==> t.dirs[i] == NO_ROW && t.files[i] == NO_ROW && t.inodes[i] == NO_INODE
    ensures TreeOk(t, lower)
    ensures forall q :: LookupName(t, lower, q) == if q in lower then Found(lower[q]) else Missing
  {
    hide First, Links;
    forall k | 0 <= k < SLOTS
      ensures InodeOk(t, k)
    {
      NoLinks(t.files, k);
    }
  }

  lemma {:induction false} NoLinks(files: seq<Row>, k: nat)
    requires forall i :: 0 <= i < |files| ==> files[i] == NO_ROW
    ensures Links(files, k) == 0
  {
    if files != [] { NoLinks(files[..|files| - 1], k); }
  }

  lemma VacantFacts(t: Tables, lower: Overlay.Lower, name: string)
    requires TreeOk(t, lower) && Vacant(t, lower, name)
    ensures name != "" && First(t.dirs, name) < 0 && First(t.files, name) < 0 && |name| + 1 <= MAX_PATH
  {
    hide First, Links;
    MissingMeans(t, lower, name);
    CanonNonempty(name);
  }

  lemma FreeInodeUncounted(t: Tables, k: nat)
    requires Shape(t) && LinksOk(t) && k < SLOTS && !t.inodes[k].used
    ensures t.inodes[k].nlink == 0
  {
    hide Links;
    assert InodeOk(t, k);
  }

  lemma NamedInode(t: Tables, lower: Overlay.Lower, o: nat)
    requires TreeOk(t, lower) && o < SLOTS && t.files[o].used
    ensures var k := t.files[o].what; k < SLOTS && t.inodes[k].used && !IsDir(t.inodes[k].mode)
    ensures var ino := t.inodes[t.files[o].what];
            LookupName(t, lower, t.files[o].path) == Found(Entry(ino.mode, ino.data))
  {
    hide Links, First, Canon, Closed;
    LinkedIsCounted(t.files, o, t.files[o].what);
    assert InodeOk(t, t.files[o].what);
    assert RowAt(t, SLOTS + o) == t.files[o];
    OnlyRow(t, lower, SLOTS + o, t.files[o].path);
  }

  // ----- a call and the one that undoes it

  /** In a sound tree a row is named q exactly when q stands for something that is not in the initramfs; it is a
      directory's row or a file's. */
  lemma RowNamed(t: Tables, lower: Overlay.Lower, q: string)
    requires TreeOk(t, lower)
    ensures (exists i :: 0 <= i < 2 * SLOTS && Is(RowAt(t, i), q)) <==>
              LookupName(t, lower, q).Found? && q !in lower
    ensures LookupName(t, lower, q).Found? && q !in lower ==>
              if IsDir(LookupName(t, lower, q).e.mode) then First(t.dirs, q) >= 0 else First(t.files, q) >= 0
  {
    hide First, Canon, Closed, Kind;
    MissingMeans(t, lower, q);
    if i :| 0 <= i < 2 * SLOTS && Is(RowAt(t, i), q) { OnlyRow(t, lower, i, q); }
    var d, f := First(t.dirs, q), First(t.files, q);
    if d >= 0 { assert Is(RowAt(t, d), q); }
    if f >= 0 {
      assert Is(RowAt(t, SLOTS + f), q);
      NamedInode(t, lower, f);
    }
  }

  /** Making or removing an entry at a place leaves what is below that place as it was. */
  lemma SameBelow(t: Tables, t2: Tables, lower: Overlay.Lower, name: string, e: Found)
    requires TreeOk(t, lower) && TreeOk(t2, lower)
    requires OnlyAt(t, t2, lower, name, e)
    requires NothingBelow(t, name)
    ensures NothingBelow(t2, name)
  {
    hide TreeOk, LookupName;
    SoundShape(t, lower);
    SoundShape(t2, lower);
    forall i | 0 <= i < 2 * SLOTS && RowAt(t2, i).used
      ensures !HasPrefixDir(RowAt(t2, i).path, name)
    {
      var q := RowAt(t2, i).path;
      assert Is(RowAt(t2, i), q);
      RowNamed(t2, lower, q);
      RowNamed(t, lower, q);
    }
  }

  /** The initramfs by itself is a tree. */
  predicate LowerClosed(lower: Overlay.Lower) {
    forall q :: q in lower ==>
      Canon(q) && (ParentName(q) == "" || (ParentName(q) in lower && IsDir(lower[ParentName(q)].mode)))
  }

  /** One step up from below name leads to name, or stays below it. */
  lemma UpTowards(p: string, name: string)
    requires Canon(p) && Canon(name) && HasPrefixDir(p, name)
    ensures |Components(ParentName(p))| < |Components(p)|
    ensures ParentName(p) == name || (Canon(ParentName(p)) && HasPrefixDir(ParentName(p), name))
  {
    hide Components, Fits, Joined;
    var top, dir := Components(name), Components(p);
    var rest := Components(p[|name| + 1..]);
    assert p == name + "/" + p[|name| + 1..];
    ComponentsConcat(name, p[|name| + 1..]);
    assert dir == top + rest;
    assert rest == [] ==> dir == top;
    var up := dir[..|dir| - 1];
    ComponentsOfName(up);
    FitsUp(dir);
    if |rest| == 1 {
      assert up == top;
    } else {
      BelowHasPrefix(up, |top|);
      assert up[..|top|] == top;
    }
  }

  lemma BelowHasPrefix(dir: seq<string>, k: nat)
    requires CleanDir(dir) && 0 < k < |dir|
    ensures HasPrefixDir(NameOf(dir), NameOf(dir[..k]))
  {
    hide Joined, Clean;
    assert CleanDir(dir[..k]);
    JoinedHead(dir[..k]);
    JoinedHead(dir);
    JoinedPrefix(dir, k + 1);
    JoinedPrefix(dir, k);
    assert dir[..k + 1][..k] == dir[..k];
    JoinedDown(dir[..k], dir[k]);
    assert dir[..k + 1] == dir[..k] + [dir[k]];
    JoinedSlash(dir[..k], dir[k]);
  }

  lemma JoinedSlash(dir: seq<string>, c: string)
    ensures Joined(dir + [c]) == Joined(dir) + "/" + c
  {
  }

  /** In a sound tree over an initramfs that is a tree, nothing is below a name that is missing. */
  lemma {:induction false} NothingBelowMissing(t: Tables, lower: Overlay.Lower, name: string, p: string)
    requires TreeOk(t, lower) && LowerClosed(lower) && Canon(name) && LookupName(t, lower, name).Missing?
    requires Canon(p) && HasPrefixDir(p, name)
    ensures LookupName(t, lower, p).Missing?
    decreases |Components(p)|
  {
    hide LookupName, Canon, ParentName, Components, Kind, HasPrefixDir;
    if LookupName(t, lower, p).Found? {
      UpTowards(p, name);
      CanonNonempty(name);
      ParentThere(t, lower, p);
      if ParentName(p) != name {
        PrefixNonempty(ParentName(p), name);
        NothingBelowMissing(t, lower, name, ParentName(p));
      }
    }
  }

  lemma PrefixNonempty(p: string, name: string)
    requires HasPrefixDir(p, name)
    ensures p != ""
  {
  }

  lemma ParentThere(t: Tables, lower: Overlay.Lower, p: string)
    requires TreeOk(t, lower) && LowerClosed(lower) && LookupName(t, lower, p).Found?
    ensures ParentName(p) == "" || LookupName(t, lower, ParentName(p)).Found?
  {
    hide First, Canon, ParentName, Kind;
    RowNamed(t, lower, p);
    if p !in lower {
      var i :| 0 <= i < 2 * SLOTS && Is(RowAt(t, i), p);
      assert RowAt(t, i).used;
    } else {
      var up := ParentName(p);
      if up != "" { RowNamed(t, lower, up); MissingMeans(t, lower, up); }
    }
  }

  lemma VacantIsBare(t: Tables, lower: Overlay.Lower, name: string)
    requires TreeOk(t, lower) && LowerClosed(lower) && Vacant(t, lower, name)
    ensures NothingBelow(t, name)
  {
    hide LookupName, Canon, ParentName, Components, Kind, HasPrefixDir, DirAt, Links;
    forall i | 0 <= i < 2 * SLOTS && RowAt(t, i).used
      ensures !HasPrefixDir(RowAt(t, i).path, name)
    {
      var q := RowAt(t, i).path;
      assert Is(RowAt(t, i), q);
      RowNamed(t, lower, q);
      if HasPrefixDir(q, name) { NothingBelowMissing(t, lower, name, q); }
    }
  }

  /** What comes of removing the entry that was just made at the same place: every lookup is as before - except that
      a directory under which the initramfs already had something cannot be removed. */
  ghost predicate Undone(t: Tables, t2: Tables, t3: Tables, lower: Overlay.Lower, name: string, dir: bool, rc: int)
    requires Shape(t) && Shape(t2) && Shape(t3)
  {
    if dir && !NothingBelow(t, name) then rc == -ENOTEMPTY && t3 == t2
    else rc == 0 && forall q :: LookupName(t3, lower, q) == LookupName(t, lower, q)
  }

  lemma MakeThenRemove(t: Tables, t2: Tables, t3: Tables, lower: Overlay.Lower, w: Outcome, full: bool, e: Entry,
                       rc: int)
    requires TreeOk(t, lower) && TreeOk(t2, lower) && Shape(t3) && w.Ok? && CanonAbs(w.path)
    requires CreateOutcome(t, t2, lower, w, full, e, 0) && UnlinkOutcome(t2, t3, lower, w, IsDir(e.mode), rc)
    ensures Undone(t, t2, t3, lower, NameAbs(w.path), IsDir(e.mode), rc)
  {
    hide TreeOk, LookupName, Lookup, Kind, CanonAbs, First, NothingBelow, Vacant, CreateError, NameAbs, FileNo, OwnFile,
         OnlyAt;
    SoundShape(t, lower);
    SoundShape(t2, lower);
    var name := NameAbs(w.path);
    CreateMeansVacant(t, lower, w.path);
    AbsFacts(w.path);
    LookupCanon(t2, lower, w.path);
    VacantOutside(t, lower, name);
    RowNamed(t2, lower, name);
    ThereAndBack(t, t2, t3, lower, name, Found(e));
    if NothingBelow(t, name) { SameBelow(t, t2, lower, name, Found(e)); }
    if NothingBelow(t2, name) { SameBelow(t2, t, lower, name, Missing); }
  }

  lemma ThereAndBack(t: Tables, t2: Tables, t3: Tables, lower: Overlay.Lower, name: string, now: Found)
    requires Shape(t) && Shape(t2) && Shape(t3)
    requires OnlyAt(t, t2, lower, name, now) && LookupName(t, lower, name) == Missing
    ensures LookupName(t2, lower, name) == now && OnlyAt(t2, t, lower, name, Missing)
    ensures OnlyAt(t2, t3, lower, name, Missing) ==> forall q :: LookupName(t3, lower, q) == LookupName(t, lower, q)
  {
    hide LookupName, FileNo;
  }

  lemma VacantOutside(t: Tables, lower: Overlay.Lower, name: string)
    requires TreeOk(t, lower) && Vacant(t, lower, name)
    ensures name !in lower && LookupName(t, lower, name) == Missing
  {
    hide First, Links;
    MissingMeans(t, lower, name);
  }

  /** mkdir and then rmdir, symlink and then unlink, by a process in the same directory with the same path. */
  lemma MadeThenRemoved(t: Tables, t2: Tables, t3: Tables, lower: Overlay.Lower, cwd: string, path: UserPath, c: Call,
                        undo: Call, a: Answer)
    requires TreeOk(t, lower) && TreeOk(t2, lower) && Shape(t3)
    requires (c.Mkdir? || c.Symlink?) && c.path == path
    requires undo == Call.Unlink(AT_FDCWD, path, if c.Mkdir? then AT_REMOVEDIR else 0)
    requires CallOutcome(t, t2, lower, cwd, c, Code(0)) && CallOutcome(t2, t3, lower, cwd, undo, a)
    ensures var w := Where(t, lower, cwd, path, false);
            w.Ok? && a.Code? && Undone(t, t2, t3, lower, NameAbs(w.path), c.Mkdir?, a.rc)
    ensures LowerClosed(lower) ==> a == Code(0)
  {
    hide TreeOk, Resolved, CanonAbs, CreateOutcome, UnlinkOutcome, LookupName, Vacant, NothingBelow;
    SoundShape(t, lower);
    SoundShape(t2, lower);
    var w := Where(t, lower, cwd, path, false);
    assert Where(t2, lower, cwd, path, false) == w;
    WhereCanon(t, lower, cwd, path, false);
    MadeAt(t, t2, lower, cwd, c);
    if c.Mkdir? {
      DirMode(c.mode);
      MakeThenRemove(t, t2, t3, lower, w, Full(t.dirs), Entry(S_IFDIR + c.mode % 512, ""), a.rc);
      if LowerClosed(lower) { VacantIsBare(t, lower, NameAbs(w.path)); }
    } else {
      var e := Entry(S_IFLNK + 0x1FF, c.target.text);
      MakeThenRemove(t, t2, t3, lower, w, Full(t.files) || InodesFull(t.inodes), e, a.rc);
    }
  }

  lemma MadeAt(t: Tables, t2: Tables, lower: Overlay.Lower, cwd: string, c: Call)
    requires Shape(t) && Shape(t2) && (c.Mkdir? || c.Symlink?) && CallOutcome(t, t2, lower, cwd, c, Code(0))
    ensures var w := Where(t, lower, cwd, c.path, false);
            w.Ok? && CanonAbs(w.path) && CreateError(t, lower, w.path) == 0 && Vacant(t, lower, NameAbs(w.path))
  {
    hide CanonAbs, Resolved, OnlyAt, CreateError, Vacant;
    WhereCanon(t, lower, cwd, c.path, false);
    var w := Where(t, lower, cwd, c.path, false);
    if w.Ok? { CreateMeansVacant(t, lower, w.path); }
  }

  /** A hard link is a second name for the same thing: after it, unlinking the first name succeeds and leaves the
      second with the mode and contents the first had. */
  lemma LinkThenUnlink(t: Tables, t2: Tables, t3: Tables, lower: Overlay.Lower, cwd: string, old_: UserPath,
                       new_: UserPath, a: Answer)
    requires TreeOk(t, lower) && TreeOk(t2, lower) && Shape(t3)
    requires CallOutcome(t, t2, lower, cwd, Call.Link(AT_FDCWD, old_, AT_FDCWD, new_, 0), Code(0))
    requires CallOutcome(t2, t3, lower, cwd, Call.Unlink(AT_FDCWD, old_, 0), a)
    ensures var o, n := Where(t, lower, cwd, old_, false), Where(t, lower, cwd, new_, false);
            && o.Ok? && n.Ok? && a == Code(0)
            && LookupName(t3, lower, NameAbs(n.path)) == LookupName(t, lower, NameAbs(o.path)) != Missing
            && LookupName(t3, lower, NameAbs(o.path)) == Missing
            && forall q :: q !in {NameAbs(o.path), NameAbs(n.path)} ==>
                 LookupName(t3, lower, q) == LookupName(t, lower, q)
  {
    hide TreeOk, Resolved, CanonAbs, LookupName, Lookup, LinkError, UnlinkOutcome, NameAbs, OnlyAt;
    SoundShape(t, lower);
    SoundShape(t2, lower);
    var o, n := Where(t, lower, cwd, old_, false), Where(t, lower, cwd, new_, false);
    assert Where(t2, lower, cwd, old_, false) == o;
    WhereCanon(t, lower, cwd, old_, false);
    WhereCanon(t, lower, cwd, new_, false);
    LinkedThenGone(t, t2, t3, lower, o.path, n.path, a.rc);
  }

  lemma LinkedThenGone(t: Tables, t2: Tables, t3: Tables, lower: Overlay.Lower, old_: string, new_: string, rc: int)
    requires TreeOk(t, lower) && TreeOk(t2, lower) && Shape(t3) && CanonAbs(old_) && CanonAbs(new_)
    requires LinkOutcome(t, t2, lower, Ok(old_), Ok(new_), 0) && UnlinkOutcome(t2, t3, lower, Ok(old_), false, rc)
    ensures rc == 0 && LookupName(t3, lower, NameAbs(old_)) == Missing
    ensures LookupName(t3, lower, NameAbs(new_)) == LookupName(t, lower, NameAbs(old_)) != Missing
    ensures forall q :: q !in {NameAbs(old_), NameAbs(new_)} ==> LookupName(t3, lower, q) == LookupName(t, lower, q)
  {
    hide TreeOk, CanonAbs, LookupName, Lookup, Kind, First, LinkError, NothingBelow;
    SoundShape(t, lower);
    SoundShape(t2, lower);
    LinkedNames(t, lower, old_, new_);
    AbsFacts(old_);
    RowNamed(t2, lower, NameAbs(old_));
  }

  lemma LinkedNames(t: Tables, lower: Overlay.Lower, old_: string, new_: string)
    requires TreeOk(t, lower) && CanonAbs(old_) && CanonAbs(new_) && LinkError(t, lower, old_, new_) == 0
    ensures NameAbs(old_) != NameAbs(new_) && NameAbs(old_) !in lower && old_ != "/"
    ensures Lookup(t, lower, old_) == LookupName(t, lower, NameAbs(old_)) != Missing
    ensures !IsDir(Lookup(t, lower, old_).e.mode)
  {
    hide CanonAbs, LookupName, Kind, First, Links, Closed;
    AbsFacts(old_);
    CreateMeansVacant(t, lower, new_);
    LookupCanon(t, lower, old_);
    var f := First(t.files, NameAbs(old_));
    assert Is(RowAt(t, SLOTS + f), NameAbs(old_));
    RowNamed(t, lower, NameAbs(old_));
  }
}
