/**
 What the calls that work on the file tree answer and do, said of the paths that processes see: what stands at a path
 before a call, and what stands at every path after it.
 */
module TreeLaws {
  import opened Errno
  import opened Overlay
  import opened Paths
  import opened Vfs

  // ----- where links lead

  /** A link's text leads where it would lead a process that works in the link's directory. */
  lemma TargetMeans(dir: seq<string>, text: string)
    requires CleanDir(dir) && Fits(dir, MAX_PATH) && '\0' !in text
    ensures Target(Render(dir), text) == Resolved(UpFrom(Render(dir)), text, MAX_PATH)
  {
    hide Components, WalkFits, Walk, Joined, TrimEnd, AfterLastSlash, UpFrom, Parent;
    ParentOfRender(dir);
    UpFromRender(dir);
    CStrWhole(text);
    ComponentsConcat("/", text);
    OneSlash(text);
    var up := if dir == [] then [] else dir[..|dir| - 1];
    if up == [] {
      assert UpFrom(Render(dir)) == "/";
      assert "/" + "" + text == "/" + text;
      assert [] + Components(text) == Components(text);
    } else {
      JoinedHead(up);
      LastIsNoSlash(up);
    }
  }

  lemma {:induction false} CStrWhole(text: string)
    requires '\0' !in text
    ensures CStr(text) == text
  {
    if text != "" { CStrWhole(text[1..]); }
  }

  lemma OneSlash(text: string)
    ensures Components("/" + text) == Components(text) && Components("/") == []
  {
    assert ("/" + text)[1..] == text && "/"[1..] == "";
  }

  lemma LastIsNoSlash(dir: seq<string>)
    requires CleanDir(dir) && dir != []
    ensures Joined(dir)[|Joined(dir)| - 1] != '/'
  {
    assert Clean(dir[|dir| - 1]);
  }

  predicate IsLink(f: Found) { f.Found? && f.e.mode / 0x1000 % 16 == 10 }

  /** From each place but the last a link leads to the next; the last is no link. */
  predicate Chain(t: Tables, lower: Lower, places: seq<string>)
    requires Shape(t)
  {
    && places != []
    && (forall i :: 0 <= i < |places| - 1 ==> LeadsTo(t, lower, places[i], places[i + 1]))
    && !IsLink(Lookup(t, lower, places[|places| - 1]))
  }

  predicate LeadsTo(t: Tables, lower: Lower, p: string, q: string)
    requires Shape(t)
  {
    IsLink(Lookup(t, lower, p)) && Target(p, Lookup(t, lower, p).e.data) == Some(q)
  }

  ghost predicate Reaches(t: Tables, lower: Lower, p: string, q: string, n: nat)
    requires Shape(t)
  {
    exists places :: Chain(t, lower, places) && places[0] == p && places[|places| - 1] == q && |places| <= n
  }

  /** Following links ends where a chain of at most that many places ends, and fails if there is none. */
  lemma {:induction false} FollowMeans(t: Tables, lower: Lower, p: string, q: string, n: nat)
    requires Shape(t)
    ensures Reaches(t, lower, p, q, n) <==> Follow(t, lower, p, n) == Some(q)
    decreases n
  {
    hide Lookup, Target, Reaches;
    ReachesStep(t, lower, p, q, n);
    var e := Lookup(t, lower, p);
    if n > 0 && IsLink(e) && Target(p, e.e.data).Some? {
      FollowMeans(t, lower, Target(p, e.e.data).path, q, n - 1);
    }
  }

  lemma ReachesStep(t: Tables, lower: Lower, p: string, q: string, n: nat)
    requires Shape(t)
    ensures var e := Lookup(t, lower, p);
            Reaches(t, lower, p, q, n) <==>
              && n > 0
              && if IsLink(e) then Target(p, e.e.data).Some? && Reaches(t, lower, Target(p, e.e.data).path, q, n - 1)
                 else p == q
  {
    hide Lookup, Target;
    var e := Lookup(t, lower, p);
    if Reaches(t, lower, p, q, n) {
      var places :| Chain(t, lower, places) && places[0] == p && places[|places| - 1] == q && |places| <= n;
      if |places| > 1 {
        assert LeadsTo(t, lower, places[0], places[0 + 1]);
        ChainShorter(t, lower, places);
        var rest := places[1..];
        assert rest[0] == places[1] && rest[|rest| - 1] == q;
      }
    }
    if n > 0 && !IsLink(e) && p == q { assert Chain(t, lower, [p]); }
    if n > 0 && IsLink(e) && Target(p, e.e.data).Some? && Reaches(t, lower, Target(p, e.e.data).path, q, n - 1) {
      var next := Target(p, e.e.data).path;
      var rest :| Chain(t, lower, rest) && rest[0] == next && rest[|rest| - 1] == q && |rest| <= n - 1;
      ChainLonger(t, lower, p, rest);
      assert ([p] + rest)[|rest|] == q;
    }
  }

  lemma ChainLonger(t: Tables, lower: Lower, p: string, places: seq<string>)
    requires Shape(t) && Chain(t, lower, places) && LeadsTo(t, lower, p, places[0])
    ensures Chain(t, lower, [p] + places)
  {
    hide LeadsTo, IsLink;
    var all := [p] + places;
    forall i | 0 <= i < |all| - 1
      ensures LeadsTo(t, lower, all[i], all[i + 1])
    {
      if i > 0 { assert all[i] == places[i - 1] && all[i + 1] == places[i - 1 + 1]; }
    }
  }

  lemma ChainShorter(t: Tables, lower: Lower, places: seq<string>)
    requires Shape(t) && Chain(t, lower, places) && |places| > 1
    ensures Chain(t, lower, places[1..])
  {
    hide LeadsTo, IsLink;
    var rest := places[1..];
    forall i | 0 <= i < |rest| - 1
      ensures LeadsTo(t, lower, rest[i], rest[i + 1])
    {
      assert rest[i] == places[i + 1] && rest[i + 1] == places[i + 1 + 1];
    }
  }

  /** Where a path leads: a bad pointer, or a text of more than 255 characters; a text that does not resolve; and with
      links followed, at most eight places on the way. */
  lemma WhereMeans(t: Tables, lower: Lower, cwd: string, input: UserPath, follow: bool)
    requires Shape(t)
    ensures var w := Where(t, lower, cwd, input, follow);
            if input == Bad || |input.text| > 255 then w == Err(EFAULT)
            else if Resolved(cwd, input.text, MAX_PATH).None? then w == Err(EINVAL)
            else
              var p := Resolved(cwd, input.text, MAX_PATH).path;
              if !follow then w == Ok(p)
              else
                && (w.Err? ==> w.errno == EINVAL && forall q :: !Reaches(t, lower, p, q, 8))
                && forall q :: Reaches(t, lower, p, q, 8) <==> w == Ok(q)
  {
    hide Follow, Reaches, Normalized;
    if Copies(input) && Resolved(cwd, input.text, MAX_PATH).Some? {
      var p := Resolved(cwd, input.text, MAX_PATH).path;
      forall q
        ensures Reaches(t, lower, p, q, 8) <==> Follow(t, lower, p, 8) == Some(q)
      {
        FollowMeans(t, lower, p, q, 8);
      }
    }
  }

  // ----- the tree as paths show it

  /** The file that path p is a name of - hard links are names of the same one -, or -1. */
  function File(t: Tables, p: string): int { if p == "" then -1 else FileNo(t, p[1..]) }

  /** At path p stands now; at every other path what stood there before, and it is a name of the same file. */
  ghost predicate OnlyHere(t: Tables, t2: Tables, lower: Lower, p: string, now: Found)
    requires Shape(t) && Shape(t2)
  {
    && (forall q :: CanonAbs(q) ==> Lookup(t2, lower, q) == if q == p then now else Lookup(t, lower, q))
    && (forall q :: CanonAbs(q) && q != p ==> File(t2, q) == File(t, q))
  }

  /** Path p is the only name of its file. */
  ghost predicate Alone(t: Tables, p: string) {
    File(t, p) >= 0 && forall q :: CanonAbs(q) && q != p ==> File(t, q) != File(t, p)
  }

  lemma OwnIsAlone(t: Tables, p: string)
    requires CanonAbs(p) && OwnFile(t, NameAbs(p))
    ensures Alone(t, p)
  {
    hide CanonAbs, NameAbs, FileNo;
    SlashName(p);
    forall q | CanonAbs(q) && q != p
      ensures File(t, q) != File(t, p)
    {
      SlashName(q);
    }
  }

  lemma SlashName(p: string)
    requires CanonAbs(p)
    ensures p == "/" + NameAbs(p) && p[1..] == NameAbs(p)
  {
    if Components(p) != [] { JoinedHead(Components(p)); }
  }

  lemma PathOnly(t: Tables, t2: Tables, lower: Lower, p: string, now: Found)
    requires Shape(t) && Shape(t2) && CanonAbs(p) && p != "/" && OnlyAt(t, t2, lower, NameAbs(p), now)
    ensures OnlyHere(t, t2, lower, p, now)
  {
    hide CanonAbs, NameAbs, Lookup, LookupName, FileNo;
    SlashName(p);
    forall q | CanonAbs(q)
      ensures Lookup(t2, lower, q) == if q == p then now else Lookup(t, lower, q)
      ensures q != p ==> File(t2, q) == File(t, q)
    {
      SlashName(q);
      LookupCanon(t, lower, q);
      LookupCanon(t2, lower, q);
    }
  }

  predicate Dir(f: Found) { f.Found? && f.e.mode / 0x1000 % 16 == 4 }

  predicate NoRow(rows: seq<Row>) { forall i :: 0 <= i < |rows| ==> rows[i].used }

  predicate NoInode(inodes: seq<Inode>) { forall i :: 0 <= i < |inodes| ==> inodes[i].used }

  /** Why nothing can be made at p: it is the root, there is something, or no directory to put it in; else 0. */
  function Refusal(t: Tables, lower: Lower, p: string): int
    requires Shape(t)
  {
    var up := Lookup(t, lower, UpFrom(p));
    if p == "/" then -EINVAL
    else if Lookup(t, lower, p) != Missing then -EEXIST
    else if up == Missing then -ENOENT
    else if !Dir(up) then -ENOTDIR
    else 0
  }

  lemma RefusalIs(t: Tables, lower: Lower, p: string)
    requires Shape(t) && CanonAbs(p)
    ensures CreateError(t, lower, p) == Refusal(t, lower, p)
  {
    hide Lookup, UpFrom, Render;
    UpFromRender(Components(p));
  }

  /** The root is a directory that everybody may read and search and its owner write. */
  lemma RootIs(t: Tables, lower: Lower)
    requires Shape(t)
    ensures Lookup(t, lower, "/") == Found(Entry(0x41ED, "")) && Dir(Lookup(t, lower, "/"))
  {
  }

  // ----- mkdir and symlink

  /** Making an entry where w leads: refused without a trace, or it is there, and nothing else has changed. */
  ghost predicate Made(t: Tables, t2: Tables, lower: Lower, w: Outcome, full: bool, e: Entry, a: Answer)
    requires Shape(t) && Shape(t2)
  {
    if w.Err? then a == Code(-w.errno) && t2 == t
    else if Refusal(t, lower, w.path) != 0 then a == Code(Refusal(t, lower, w.path)) && t2 == t
    else if full then a == Code(-ENOMEM) && t2 == t
    else a == Code(0) && OnlyHere(t, t2, lower, w.path, Found(e)) && (!Dir(Found(e)) ==> Alone(t2, w.path))
  }

  lemma CreateMade(t: Tables, t2: Tables, lower: Lower, w: Outcome, full: bool, e: Entry, rc: int)
    requires Shape(t) && Shape(t2) && CreateOutcome(t, t2, lower, w, full, e, rc) && (w.Ok? ==> CanonAbs(w.path))
    ensures Made(t, t2, lower, w, full, e, Code(rc))
  {
    hide CanonAbs, Lookup, OnlyAt, OnlyHere, CreateError, Refusal, NameAbs, OwnFile, Alone;
    if w.Ok? {
      RefusalIs(t, lower, w.path);
      RootRefused(t, lower);
      if CreateError(t, lower, w.path) == 0 && !full {
        PathOnly(t, t2, lower, w.path, Found(e));
        if !IsDir(e.mode) { OwnIsAlone(t2, w.path); }
      }
    }
  }

  lemma RootRefused(t: Tables, lower: Lower)
    requires Shape(t)
    ensures CreateError(t, lower, "/") != 0
  {
  }

  lemma MkdirLaw(t: Tables, t2: Tables, lower: Lower, cwd: string, dirfd: int, path: UserPath, mode: nat, a: Answer)
    requires Shape(t) && Shape(t2) && CallOutcome(t, t2, lower, cwd, Mkdir(dirfd, path, mode), a)
    ensures dirfd != -100 ==> a == Code(-ENOSYS) && t2 == t
    ensures dirfd == -100 ==>
              Made(t, t2, lower, Where(t, lower, cwd, path, false), NoRow(t.dirs), Entry(0x4000 + mode % 512, ""), a)
  {
    hide Where, CreateOutcome, CanonAbs, Made;
    WhereCanon(t, lower, cwd, path, false);
    if dirfd == -100 {
      CreateMade(t, t2, lower, Where(t, lower, cwd, path, false), Full(t.dirs), Entry(0x4000 + mode % 512, ""), a.rc);
    }
  }

  lemma SymlinkLaw(t: Tables, t2: Tables, lower: Lower, cwd: string, target: UserPath, dirfd: int, path: UserPath,
                   a: Answer)
    requires Shape(t) && Shape(t2) && CallOutcome(t, t2, lower, cwd, Symlink(target, dirfd, path), a)
    ensures dirfd != -100 ==> a == Code(-ENOSYS) && t2 == t
    ensures dirfd == -100 && (target == Bad || |target.text| > 255) ==> a == Code(-EFAULT) && t2 == t
    ensures dirfd == -100 && target != Bad && |target.text| <= 255 ==>
              Made(t, t2, lower, Where(t, lower, cwd, path, false), NoRow(t.files) || NoInode(t.inodes),
                   Entry(0xA1FF, target.text), a)
  {
    hide Where, CreateOutcome, CanonAbs, Made;
    WhereCanon(t, lower, cwd, path, false);
    if dirfd == -100 && Copies(target) {
      CreateMade(t, t2, lower, Where(t, lower, cwd, path, false), Full(t.files) || InodesFull(t.inodes),
                 Entry(0xA1FF, target.text), a.rc);
    }
  }

  // ----- link

  lemma LinkLaw(t: Tables, t2: Tables, lower: Lower, cwd: string, fd1: int, old_: UserPath, fd2: int, new_: UserPath,
                flags: nat, a: Answer)
    requires TreeOk(t, lower) && Shape(t) && Shape(t2)
    requires CallOutcome(t, t2, lower, cwd, Link(fd1, old_, fd2, new_, flags), a)
    ensures fd1 != -100 || fd2 != -100 || flags != 0 ==> a == Code(-EINVAL) && t2 == t
    ensures fd1 == fd2 == -100 && flags == 0 ==>
              if old_ == Bad || |old_.text| > 255 || new_ == Bad || |new_.text| > 255 then a == Code(-EFAULT) && t2 == t
              else Linked(t, t2, lower, Where(t, lower, cwd, old_, false), Where(t, lower, cwd, new_, false), a)
  {
    hide Where, LinkOutcome, CanonAbs, Linked, TreeOk;
    WhereCanon(t, lower, cwd, old_, false);
    WhereCanon(t, lower, cwd, new_, false);
    if fd1 == fd2 == -100 && flags == 0 && Copies(old_) && Copies(new_) {
      LinkedMeans(t, t2, lower, Where(t, lower, cwd, old_, false), Where(t, lower, cwd, new_, false), a.rc);
    }
  }

  /** A second path for what stands at o: not for the root or a directory, and not for a file of the initramfs. */
  ghost predicate Linked(t: Tables, t2: Tables, lower: Lower, o: Outcome, n: Outcome, a: Answer)
    requires Shape(t) && Shape(t2)
  {
    if o.Err? then a == Code(-o.errno) && t2 == t
    else if n.Err? then a == Code(-n.errno) && t2 == t
    else if o.path == "/" || n.path == "/" then a == Code(-EINVAL) && t2 == t
    else
      var e := Lookup(t, lower, o.path);
      if e == Missing then a == Code(-ENOENT) && t2 == t
      else if Dir(e) then a == Code(-EPERM) && t2 == t
      else if o.path != "" && o.path[1..] in lower then a == Code(-EROFS) && t2 == t
      else if Refusal(t, lower, n.path) != 0 then a == Code(Refusal(t, lower, n.path)) && t2 == t
      else if NoRow(t.files) then a == Code(-ENOMEM) && t2 == t
      else a == Code(0) && OnlyHere(t, t2, lower, n.path, e) && File(t2, n.path) == File(t, o.path) >= 0
  }

  lemma LinkedMeans(t: Tables, t2: Tables, lower: Lower, o: Outcome, n: Outcome, rc: int)
    requires TreeOk(t, lower) && Shape(t) && Shape(t2) && LinkOutcome(t, t2, lower, o, n, rc)
    requires (o.Ok? ==> CanonAbs(o.path)) && (n.Ok? ==> CanonAbs(n.path))
    ensures Linked(t, t2, lower, o, n, Code(rc))
  {
    hide CanonAbs, Lookup, OnlyAt, OnlyHere, CreateError, Refusal, NameAbs, TreeOk, FileNo;
    if o.Ok? && n.Ok? && o.path != "/" && n.path != "/" {
      RefusalIs(t, lower, n.path);
      WhoseRow(t, lower, o.path);
      if rc == 0 {
        PathOnly(t, t2, lower, n.path, Lookup(t, lower, o.path));
        SlashName(o.path);
        SlashName(n.path);
      }
    }
  }

  /** In a sound tree what stands at a path is a directory's row, a file's, or of the initramfs. */
  lemma WhoseRow(t: Tables, lower: Lower, p: string)
    requires TreeOk(t, lower) && Shape(t) && CanonAbs(p) && p != "/"
    ensures p != "" && p[1..] == NameAbs(p)
    ensures var e := Lookup(t, lower, p);
            && (First(t.files, NameAbs(p)) >= 0 <==> e != Missing && !Dir(e) && p[1..] !in lower)
            && (First(t.dirs, NameAbs(p)) >= 0 <==> Dir(e) && p[1..] !in lower)
  {
    hide CanonAbs, NameAbs, First, LookupName, TreeOk;
    SlashName(p);
    LookupCanon(t, lower, p);
    RowIs(t, lower, NameAbs(p));
  }

  lemma RowIs(t: Tables, lower: Lower, q: string)
    requires TreeOk(t, lower) && Shape(t)
    ensures var e := LookupName(t, lower, q);
            && (First(t.files, q) >= 0 <==> e.Found? && !IsDir(e.e.mode) && q !in lower)
            && (First(t.dirs, q) >= 0 <==> e.Found? && IsDir(e.e.mode) && q !in lower)
  {
    hide First, Canon, Closed, Kind, Links;
    RowNamed(t, lower, q);
    var d, f := First(t.dirs, q), First(t.files, q);
    if d >= 0 { assert Is(RowAt(t, d), q); }
    if f >= 0 {
      assert Is(RowAt(t, SLOTS + f), q);
      NamedInode(t, lower, f);
    }
  }

  // ----- unlink and rmdir

  /** Something that is not of the initramfs stands below path p. */
  ghost predicate Crowded(t: Tables, lower: Lower, p: string)
    requires Shape(t)
  {
    exists q :: CanonAbs(q) && p + "/" <= q && Lookup(t, lower, q) != Missing && q[1..] !in lower
  }

  lemma UnlinkLaw(t: Tables, t2: Tables, lower: Lower, cwd: string, dirfd: int, path: UserPath, flags: nat, a: Answer)
    requires TreeOk(t, lower) && Shape(t) && Shape(t2)
    requires CallOutcome(t, t2, lower, cwd, Call.Unlink(dirfd, path, flags), a)
    ensures dirfd != -100 || flags !in {0, 0x200} ==> a == Code(-ENOSYS) && t2 == t
    ensures dirfd == -100 && flags in {0, 0x200} ==>
              Removed(t, t2, lower, Where(t, lower, cwd, path, false), flags == 0x200, a)
  {
    hide Where, UnlinkOutcome, CanonAbs, Removed, TreeOk;
    WhereCanon(t, lower, cwd, path, false);
    if dirfd == -100 && flags in {0, 0x200} {
      RemovedMeans(t, t2, lower, Where(t, lower, cwd, path, false), flags == 0x200, a.rc);
    }
  }

  /** What cannot be removed: the root, nothing, a file by rmdir, a directory by unlink, anything of the initramfs, and
      a directory with something below it; what can, is gone, and nothing else has changed. */
  ghost predicate Removed(t: Tables, t2: Tables, lower: Lower, w: Outcome, dir: bool, a: Answer)
    requires Shape(t) && Shape(t2)
  {
    if w.Err? then a == Code(-w.errno) && t2 == t
    else if w.path == "/" then a == Code(-EISDIR) && t2 == t
    else
      var e := Lookup(t, lower, w.path);
      if e == Missing then a == Code(-ENOENT) && t2 == t
      else if dir && !Dir(e) then a == Code(-ENOTDIR) && t2 == t
      else if !dir && Dir(e) then a == Code(-EISDIR) && t2 == t
      else if w.path != "" && w.path[1..] in lower then a == Code(-EROFS) && t2 == t
      else if dir && Crowded(t, lower, w.path) then a == Code(-ENOTEMPTY) && t2 == t
      else a == Code(0) && OnlyHere(t, t2, lower, w.path, Missing)
  }

  lemma RemovedMeans(t: Tables, t2: Tables, lower: Lower, w: Outcome, dir: bool, rc: int)
    requires TreeOk(t, lower) && Shape(t) && Shape(t2) && UnlinkOutcome(t, t2, lower, w, dir, rc)
    requires w.Ok? ==> CanonAbs(w.path)
    ensures Removed(t, t2, lower, w, dir, Code(rc))
  {
    hide CanonAbs, Lookup, OnlyAt, OnlyHere, NameAbs, TreeOk, NothingBelow, Crowded;
    if w.Ok? && w.path != "/" {
      WhoseRow(t, lower, w.path);
      CrowdedMeans(t, lower, w.path);
      if rc == 0 { PathOnly(t, t2, lower, w.path, Missing); }
    }
  }

  lemma CrowdedMeans(t: Tables, lower: Lower, p: string)
    requires TreeOk(t, lower) && Shape(t) && CanonAbs(p) && p != "/"
    ensures Crowded(t, lower, p) <==> !NothingBelow(t, NameAbs(p))
  {
    hide CanonAbs, NameAbs, Lookup, TreeOk, First;
    SlashName(p);
    if q :| CanonAbs(q) && p + "/" <= q && Lookup(t, lower, q) != Missing && q[1..] !in lower {
      SlashName(q);
      assert q != "/";
      WhoseRow(t, lower, q);
      BelowPath(p, q);
      var d, f := First(t.dirs, NameAbs(q)), First(t.files, NameAbs(q));
      if d >= 0 { assert RowAt(t, d) == t.dirs[d]; } else { assert RowAt(t, SLOTS + f) == t.files[f]; }
    }
    if i :| 0 <= i < 2 * SLOTS && RowAt(t, i).used && HasPrefixDir(RowAt(t, i).path, NameAbs(p)) {
      var q := RowPath(t, lower, i);
      BelowPath(p, q);
    }
  }

  lemma BelowPath(p: string, q: string)
    requires CanonAbs(p) && CanonAbs(q) && p != "/"
    ensures p + "/" <= q <==> HasPrefixDir(NameAbs(q), NameAbs(p))
  {
    hide CanonAbs, NameAbs;
    SlashName(p);
    SlashName(q);
    var n, m := NameAbs(p), NameAbs(q);
    if p + "/" <= q {
      assert q[1..][..|n|] == q[1..|p|] == p[1..] && q[1..][|n|] == q[|p|];
    }
    if HasPrefixDir(m, n) {
      assert q[..|p|] == "/" + m[..|n|] == p;
      assert q[..|p| + 1] == p + "/";
    }
  }

  lemma RowPath(t: Tables, lower: Lower, i: nat) returns (q: string)
    requires TreeOk(t, lower) && Shape(t) && i < 2 * SLOTS && RowAt(t, i).used
    ensures CanonAbs(q) && NameAbs(q) == RowAt(t, i).path && Lookup(t, lower, q) != Missing && q[1..] !in lower
  {
    hide First, Closed, Links, Components, Joined;
    var name := RowAt(t, i).path;
    assert Canon(name);
    var dir := Components(name);
    q := Render(dir);
    JoinedHead(dir);
    ComponentsOfRender(dir);
    SlashName(q);
    assert Is(RowAt(t, i), name);
    RowNamed(t, lower, name);
    LookupCanon(t, lower, q);
  }

  // ----- chmod

  /** What stands at path p, and at the other names of that file, is now; everything else is as it was. */
  ghost predicate OnlyThisFile(t: Tables, t2: Tables, lower: Lower, p: string, now: Found)
    requires Shape(t) && Shape(t2)
  {
    && File(t, p) >= 0
    && (forall q :: CanonAbs(q) ==>
          Lookup(t2, lower, q) == if File(t, q) == File(t, p) then now else Lookup(t, lower, q))
    && (forall q :: CanonAbs(q) ==> File(t2, q) == File(t, q))
  }

  lemma FileOnly(t: Tables, t2: Tables, lower: Lower, p: string, now: Entry)
    requires TreeOk(t, lower) && Shape(t) && Shape(t2) && CanonAbs(p) && p != "/" && First(t.files, NameAbs(p)) >= 0
    requires OnlyInode(t, t2, lower, t.files[First(t.files, NameAbs(p))].what, now)
    ensures OnlyThisFile(t, t2, lower, p, Found(now))
  {
    hide CanonAbs, NameAbs, Lookup, LookupName, TreeOk, File, FileNo, Overlay.Names;
    FileIs(t, lower, p, p);
    forall q | CanonAbs(q)
      ensures Lookup(t2, lower, q) == if File(t, q) == File(t, p) then Found(now) else Lookup(t, lower, q)
      ensures File(t2, q) == File(t, q)
    {
      FileIs(t, lower, p, q);
      SlashName(q);
      LookupCanon(t, lower, q);
      LookupCanon(t2, lower, q);
      SameNo(t, t2, q);
    }
  }

  lemma SameNo(t: Tables, t2: Tables, q: string)
    requires CanonAbs(q) && FileNo(t2, NameAbs(q)) == FileNo(t, NameAbs(q))
    ensures File(t2, q) == File(t, q)
  {
    hide CanonAbs, NameAbs, FileNo;
    SlashName(q);
  }

  lemma FileIs(t: Tables, lower: Lower, p: string, q: string)
    requires TreeOk(t, lower) && Shape(t) && CanonAbs(p) && CanonAbs(q)
    requires p != "/" && First(t.files, NameAbs(p)) >= 0
    ensures File(t, p) == t.files[First(t.files, NameAbs(p))].what >= 0
    ensures Overlay.Names(t, NameAbs(q), t.files[First(t.files, NameAbs(p))].what) <==> File(t, q) == File(t, p)
    ensures q == "/" ==> File(t, q) != File(t, p)
  {
    hide CanonAbs, NameAbs, First, Links, Closed, Canon;
    SlashName(p);
    SlashName(q);
    var g := First(t.files, NameAbs(q));
    if g >= 0 {
      assert RowAt(t, SLOTS + g) == t.files[g];
      OnlyRow(t, lower, SLOTS + g, NameAbs(q));
    }
    RootNoRow(t, lower, g);
  }

  lemma RootNoRow(t: Tables, lower: Lower, g: int)
    requires TreeOk(t, lower) && Shape(t)
    ensures 0 <= g < SLOTS && t.files[g].used ==> t.files[g].path != ""
  {
    hide First, Links, Closed, Canon;
    if 0 <= g < SLOTS && t.files[g].used {
      assert RowAt(t, SLOTS + g) == t.files[g];
      CanonNonempty(t.files[g].path);
    }
  }

  predicate Synthetic(p: string) { p in {"/proc", "/proc/ps", "/proc/meminfo", "/proc/net"} }

  lemma InProcIs(p: string)
    requires CanonAbs(p)
    ensures InProc(p) <==> Synthetic(p)
  {
    if p == "/proc/" {
      var dir := Components(p);
      JoinedHead(dir);
      LastIsNoSlash(dir);
    }
  }

  /** The entry with other permissions: of the mode only the nine permission bits change. */
  predicate Permitted(e: Entry, mode: nat, e': Entry) {
    e'.data == e.data && e'.mode / 512 == e.mode / 512 && e'.mode % 512 == mode % 512
  }

  lemma ChmodLaw(t: Tables, t2: Tables, lower: Lower, cwd: string, dirfd: int, path: UserPath, mode: nat, flags: nat,
                 a: Answer)
    requires TreeOk(t, lower) && Shape(t) && Shape(t2)
    requires CallOutcome(t, t2, lower, cwd, Chmod(dirfd, path, mode, flags), a)
    ensures dirfd != -100 || flags != 0 ==> a == Code(-ENOSYS) && t2 == t
    ensures dirfd == -100 && flags == 0 ==>
              exists e :: Repermitted(t, t2, lower, Where(t, lower, cwd, path, true), mode, a, e)
  {
    hide Where, ChmodOutcome, CanonAbs, Repermitted, TreeOk;
    WhereCanon(t, lower, cwd, path, true);
    if dirfd == -100 && flags == 0 {
      var e := RepermittedMeans(t, t2, lower, Where(t, lower, cwd, path, true), mode, a.rc);
    }
  }

  /** chmod where w leads: what is synthetic, the root or of the initramfs stays as it is; else what stands there is e
      after it, under all names of a file. */
  ghost predicate Repermitted(t: Tables, t2: Tables, lower: Lower, w: Outcome, mode: nat, a: Answer, e: Entry)
    requires Shape(t) && Shape(t2)
  {
    if w.Err? then a == Code(-w.errno) && t2 == t
    else if Synthetic(w.path) then a == Code(-EROFS) && t2 == t
    else
      var was := Lookup(t, lower, w.path);
      if was == Missing then a == Code(-ENOENT) && t2 == t
      else if w.path == "/" || (w.path != "" && w.path[1..] in lower) then a == Code(-EROFS) && t2 == t
      else
        && a == Code(0) && Permitted(was.e, mode, e)
        && if Dir(was) then OnlyHere(t, t2, lower, w.path, Found(e)) else OnlyThisFile(t, t2, lower, w.path, Found(e))
  }

  lemma RepermittedMeans(t: Tables, t2: Tables, lower: Lower, w: Outcome, mode: nat, rc: int) returns (e: Entry)
    requires TreeOk(t, lower) && Shape(t) && Shape(t2) && ChmodOutcome(t, t2, lower, w, mode, rc)
    requires w.Ok? ==> CanonAbs(w.path)
    ensures Repermitted(t, t2, lower, w, mode, Code(rc), e)
  {
    hide CanonAbs, Lookup, OnlyAt, OnlyHere, OnlyInode, OnlyThisFile, NameAbs, TreeOk, InProc, Synthetic, Permitted,
         Chmodded, First;
    e := Entry(0, "");
    if w.Ok? {
      InProcIs(w.path);
      var was := Lookup(t, lower, w.path);
      if was.Found? && w.path != "/" && !InProc(w.path) {
        WhoseRow(t, lower, w.path);
        e := Entry(Chmodded(was.e.mode, mode), was.e.data);
        PermittedIs(was.e, mode);
        if First(t.files, NameAbs(w.path)) >= 0 { FileOnly(t, t2, lower, w.path, e); }
        else if First(t.dirs, NameAbs(w.path)) >= 0 {
          DirHasNoData(t, lower, w.path);
          PathOnly(t, t2, lower, w.path, Found(e));
        }
      }
    }
  }

  lemma PermittedIs(e: Entry, mode: nat)
    ensures Permitted(e, mode, Entry(Chmodded(e.mode, mode), e.data))
  {
    var q, r := e.mode / 512, mode % 512;
    assert Chmodded(e.mode, mode) == q * 512 + r;
  }

  lemma DirHasNoData(t: Tables, lower: Lower, p: string)
    requires Shape(t) && CanonAbs(p) && p != "/" && First(t.dirs, NameAbs(p)) >= 0
    ensures Lookup(t, lower, p).Found? && Lookup(t, lower, p).e.data == ""
  {
    hide CanonAbs, NameAbs, First;
    LookupCanon(t, lower, p);
  }

  // ----- open

  /** r is the file that stands at path p. */
  predicate Opens(t: Tables, p: string, r: Opened) {
    r.RamFile? && r.id < |t.files| && p != "" && Is(t.files[r.id], p[1..])
  }

  /** open where w leads.  A synthetic file cannot be written; O_CREAT with O_EXCL refuses what exists, O_CREAT makes
      an empty file of what does not; O_TRUNC empties a file of the overlay under all its names; a file of the
      initramfs cannot be written.  Nothing else changes the tree. */
  ghost predicate OpenedAt(t: Tables, t2: Tables, lower: Lower, w: Outcome, creat: bool, excl: bool, trunc: bool,
                           acc: nat, mode: nat, r: Opened)
    requires Shape(t) && Shape(t2)
  {
    if w.Err? then r == Failed(w.errno) && t2 == t
    else if Synthetic(w.path) then r == (if acc != 0 then Failed(EROFS) else ProcNode) && t2 == t
    else
      var was := Lookup(t, lower, w.path);
      if was == Missing then
        if !creat then r == Failed(ENOENT) && t2 == t
        else if Refusal(t, lower, w.path) != 0 then r == Failed(-Refusal(t, lower, w.path)) && t2 == t
        else if NoRow(t.files) || NoInode(t.inodes) then r == Failed(ENOMEM) && t2 == t
        else
          && Opens(t2, w.path, r) && Alone(t2, w.path)
          && OnlyHere(t, t2, lower, w.path, Found(Entry(0x8000 + mode % 512, "")))
      else if creat && excl then r == Failed(EEXIST) && t2 == t
      else if !Dir(was) && w.path != "" && w.path[1..] !in lower then
        && Opens(t2, w.path, r)
        && if trunc then OnlyThisFile(t, t2, lower, w.path, Found(Entry(was.e.mode, ""))) else t2 == t
      else
        && t2 == t
        && r == if was.e.mode / 0x1000 % 16 == 8 && acc in {1, 2} then Failed(EROFS) else ReadOnly
  }

  lemma OpenLaw(t: Tables, t2: Tables, lower: Lower, cwd: string, dirfd: int, path: UserPath, creat: bool, excl: bool,
                trunc: bool, acc: nat, mode: nat, a: Answer)
    requires TreeOk(t, lower) && Shape(t) && Shape(t2)
    requires CallOutcome(t, t2, lower, cwd, Open(dirfd, path, creat, excl, trunc, acc, mode), a)
    ensures dirfd != -100 ==> a == Handle(Failed(ENOSYS)) && t2 == t
    ensures dirfd == -100 ==>
              && a.Handle?
              && OpenedAt(t, t2, lower, Where(t, lower, cwd, path, true), creat, excl, trunc, acc, mode, a.h)
  {
    hide Where, OpenOutcome, CanonAbs, OpenedAt, TreeOk;
    WhereCanon(t, lower, cwd, path, true);
    if dirfd == -100 {
      OpenedMeans(t, t2, lower, Where(t, lower, cwd, path, true), creat, excl, trunc, acc, mode, a.h);
    }
  }

  lemma OpenedMeans(t: Tables, t2: Tables, lower: Lower, w: Outcome, creat: bool, excl: bool, trunc: bool, acc: nat,
                    mode: nat, r: Opened)
    requires TreeOk(t, lower) && Shape(t) && Shape(t2)
    requires OpenOutcome(t, t2, lower, w, creat, excl, trunc, acc, mode, r) && (w.Ok? ==> CanonAbs(w.path))
    ensures OpenedAt(t, t2, lower, w, creat, excl, trunc, acc, mode, r)
  {
    hide CanonAbs, Lookup, OnlyHere, OnlyInode, OnlyThisFile, NameAbs, TreeOk, InProc, Synthetic, First, FileOpened,
         NewOpened, Refusal, Alone;
    if w.Ok? {
      InProcIs(w.path);
      if !InProc(w.path) {
        if w.path != "/" { WhoseRow(t, lower, w.path); } else { RootIs(t, lower); }
        if w.path != "/" && First(t.files, NameAbs(w.path)) >= 0 {
          OldOpened(t, t2, lower, w.path, creat, excl, trunc, r);
        } else if Lookup(t, lower, w.path).Missing? {
          NewlyOpened(t, t2, lower, w.path, creat, mode, r);
        }
      }
    }
  }

  lemma OldOpened(t: Tables, t2: Tables, lower: Lower, p: string, creat: bool, excl: bool, trunc: bool, r: Opened)
    requires TreeOk(t, lower) && Shape(t) && Shape(t2) && CanonAbs(p) && p != "/" && First(t.files, NameAbs(p)) >= 0
    requires FileOpened(t, t2, lower, NameAbs(p), creat, excl, trunc, r)
    ensures if creat && excl then r == Failed(EEXIST) && t2 == t
            else
              && Lookup(t, lower, p).Found?
              && (trunc ==> OnlyThisFile(t, t2, lower, p, Found(Entry(Lookup(t, lower, p).e.mode, ""))))
              && (!trunc ==> t2 == t) && Opens(t2, p, r)
  {
    hide CanonAbs, NameAbs, OnlyInode, OnlyThisFile, TreeOk, First, LookupName;
    SlashName(p);
    LookupCanon(t, lower, p);
    WhoseRow(t, lower, p);
    if trunc && !(creat && excl) { FileOnly(t, t2, lower, p, Entry(Lookup(t, lower, p).e.mode, "")); }
  }

  lemma NewlyOpened(t: Tables, t2: Tables, lower: Lower, p: string, creat: bool, mode: nat, r: Opened)
    requires Shape(t) && Shape(t2) && CanonAbs(p) && NewOpened(t, t2, lower, p, creat, mode, r)
    ensures if !creat then r == Failed(ENOENT) && t2 == t
            else if Refusal(t, lower, p) != 0 then r == Failed(-Refusal(t, lower, p)) && t2 == t
            else if NoRow(t.files) || NoInode(t.inodes) then r == Failed(ENOMEM) && t2 == t
            else
              && Opens(t2, p, r) && Alone(t2, p)
              && OnlyHere(t, t2, lower, p, Found(Entry(0x8000 + mode % 512, "")))
  {
    hide CanonAbs, NameAbs, OnlyHere, OnlyAt, First, CreateError, Refusal, OwnFile, Alone;
    SlashName(p);
    RefusalIs(t, lower, p);
    RootRefused(t, lower);
    if creat && CreateError(t, lower, p) == 0 && !Full(t.files) && !InodesFull(t.inodes) {
      PathOnly(t, t2, lower, p, Found(Entry(0x8000 + mode % 512, "")));
      OwnIsAlone(t2, p);
    }
  }
}
