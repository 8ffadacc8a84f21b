/** Path names: normalising, resolving against a working directory, and taking parents. */
module Paths {
  import opened Errno

  const MAX_PATH := 256
  const MAX_DEPTH := 64

  // ----- what a path means

  /** The length of s up to its first slash. */
  function SegLen(s: string): (n: nat)
    ensures n <= |s| && (n < |s| ==> s[n] == '/') && forall i :: 0 <= i < n ==> s[i] != '/'
  {
    if s == [] || s[0] == '/' then 0 else 1 + SegLen(s[1..])
  }

  /** The nonempty pieces between slashes. */
  function Components(s: string): seq<string>
    decreases |s|
  {
    if s == [] then []
    else if s[0] == '/' then Components(s[1..])
    else [s[..SegLen(s)]] + Components(s[SegLen(s)..])
  }

  /** One component applied to a directory: "." stays, ".." goes up (not above the root). */
  function Enter(dir: seq<string>, c: string): seq<string> {
    if c == "." then dir
    else if c == ".." then (if dir == [] then [] else dir[..|dir| - 1])
    else dir + [c]
  }

  function Walk(dir: seq<string>, cs: seq<string>): seq<string>
    decreases |cs|
  {
    if cs == [] then dir else Walk(Enter(dir, cs[0]), cs[1..])
  }

  function Joined(dir: seq<string>): string {
    if dir == [] then "" else Joined(dir[..|dir| - 1]) + "/" + dir[|dir| - 1]
  }

  /** The canonical name of a directory or file, as an absolute path. */
  function Render(dir: seq<string>): (r: string)
    ensures |r| > 0
  {
    if dir == [] then "/" else Joined(dir)
  }

  predicate Fits(dir: seq<string>, outsz: nat) { |dir| <= MAX_DEPTH && |Joined(dir)| < outsz }

  /** Every directory passed through fits the buffer and the depth limit. */
  predicate WalkFits(dir: seq<string>, cs: seq<string>, outsz: nat)
    decreases |cs|
  {
    cs == [] || (Fits(Enter(dir, cs[0]), outsz) && WalkFits(Enter(dir, cs[0]), cs[1..], outsz))
  }

  /** A component as it appears in a canonical path. */
  predicate Clean(c: string) { c != "" && '/' !in c && c != "." && c != ".." }

  predicate CleanDir(dir: seq<string>) { forall i :: 0 <= i < |dir| ==> Clean(dir[i]) }

  // ----- components

  lemma SegLenIs(s: string, n: nat)
    requires n <= |s| && (forall i :: 0 <= i < n ==> s[i] != '/') && (n < |s| ==> s[n] == '/')
    ensures SegLen(s) == n
  {
  }

  lemma SkipSlash(s: string, i: nat)
    requires i < |s| && s[i] == '/'
    ensures Components(s[i..]) == Components(s[i + 1..])
  {
  }

  lemma SegmentAt(s: string, start: nat, len: nat)
    requires 0 < len && start + len <= |s| && (forall i :: start <= i < start + len ==> s[i] != '/')
    requires start + len < |s| ==> s[start + len] == '/'
    ensures Components(s[start..]) == [s[start..start + len]] + Components(s[start + len..])
  {
    SegLenIs(s[start..], len);
    assert s[start..][..len] == s[start..start + len] && s[start..][len..] == s[start + len..];
  }

  lemma NoComponents()
    ensures Components("") == []
  {
  }

  /** A slash never joins two components into one. */
  lemma {:induction false} ComponentsConcat(a: string, b: string)
    ensures Components(a + "/" + b) == Components(a) + Components(b)
    decreases |a|
  {
    hide Components;
    var w := a + "/" + b;
    assert w[0..] == w && a[0..] == a;
    if a == [] {
      NoComponents();
      SkipSlash(w, 0);
      assert w[1..] == b;
    } else if a[0] == '/' {
      assert w[1..] == a[1..] + "/" + b;
      SkipSlash(w, 0);
      SkipSlash(a, 0);
      ComponentsConcat(a[1..], b);
    } else {
      var n := SegLen(a);
      SegmentAt(a, 0, n);
      assert forall i :: 0 <= i <= |a| ==> w[i] == if i < |a| then a[i] else '/';
      SegmentAt(w, 0, n);
      assert w[n..] == a[n..] + "/" + b && w[0..n] == a[0..n];
      ComponentsConcat(a[n..], b);
    }
  }

  lemma OneComponent(c: string)
    requires c != "" && '/' !in c
    ensures Components(c) == [c]
  {
    SegLenIs(c, |c|);
    assert c[..|c|] == c && c[|c|..] == [];
  }

  /** Reading a canonical path gives back its components. */
  lemma {:induction false} ComponentsOfJoined(dir: seq<string>)
    requires CleanDir(dir)
    ensures Components(Joined(dir)) == dir
  {
    if dir != [] {
      var up, c := dir[..|dir| - 1], dir[|dir| - 1];
      ComponentsOfJoined(up);
      ComponentsConcat(Joined(up), c);
      OneComponent(c);
      assert dir == up + [c];
    }
  }

  lemma ComponentsOfRender(dir: seq<string>)
    requires CleanDir(dir)
    ensures Components(Render(dir)) == dir
  {
    ComponentsOfJoined(dir);
    assert "/"[1..] == [];
  }

  lemma {:induction false} WalkConcat(dir: seq<string>, a: seq<string>, b: seq<string>)
    ensures Walk(dir, a + b) == Walk(Walk(dir, a), b)
    decreases |a|
  {
    if a == [] {
      assert a + b == b;
    } else {
      assert (a + b)[1..] == a[1..] + b;
      WalkConcat(Enter(dir, a[0]), a[1..], b);
    }
  }

  /** Clean components are simply descended into. */
  lemma {:induction false} WalkClean(dir: seq<string>, cs: seq<string>)
    requires CleanDir(cs)
    ensures Walk(dir, cs) == dir + cs
    decreases |cs|
  {
    if cs == [] {
      assert dir + cs == dir;
    } else {
      WalkClean(dir + [cs[0]], cs[1..]);
      assert dir + [cs[0]] + cs[1..] == dir + cs;
    }
  }

  lemma {:induction false} ComponentsClean(s: string)
    ensures forall i :: 0 <= i < |Components(s)| ==> Components(s)[i] != "" && '/' !in Components(s)[i]
    decreases |s|
  {
    if s != [] {
      if s[0] == '/' { ComponentsClean(s[1..]); } else { ComponentsClean(s[SegLen(s)..]); }
    }
  }

  lemma {:induction false} WalkStaysClean(dir: seq<string>, cs: seq<string>)
    requires CleanDir(dir) && forall i :: 0 <= i < |cs| ==> cs[i] != "" && '/' !in cs[i]
    ensures CleanDir(Walk(dir, cs))
    decreases |cs|
  {
    if cs != [] { WalkStaysClean(Enter(dir, cs[0]), cs[1..]); }
  }

  // ----- when a walk fits

  lemma {:induction false} JoinedPrefix(dir: seq<string>, k: nat)
    requires k <= |dir|
    ensures |Joined(dir[..k])| <= |Joined(dir)| && Joined(dir[..k]) == Joined(dir)[..|Joined(dir[..k])|]
    decreases |dir|
  {
    if k == |dir| {
      assert dir[..k] == dir;
    } else {
      var up := dir[..|dir| - 1];
      JoinedPrefix(up, k);
      assert up[..k] == dir[..k];
    }
  }

  lemma {:induction false} CleanWalkFits(dir: seq<string>, cs: seq<string>, outsz: nat)
    requires CleanDir(cs) && Fits(dir + cs, outsz)
    ensures WalkFits(dir, cs, outsz)
    decreases |cs|
  {
    if cs != [] {
      var next := dir + [cs[0]];
      assert next + cs[1..] == dir + cs;
      assert (dir + cs)[..|next|] == next;
      JoinedPrefix(dir + cs, |next|);
      CleanWalkFits(next, cs[1..], outsz);
    }
  }

  /** The nesting never exceeds the depth limit. */
  predicate Shallow(dir: seq<string>, cs: seq<string>)
    decreases |cs|
  {
    cs == [] || (|Enter(dir, cs[0])| <= MAX_DEPTH && Shallow(Enter(dir, cs[0]), cs[1..]))
  }

  /** What has been written is never longer than what has been read, for a text that is absolute from here on. */
  lemma {:induction false} AbsoluteFits(dir: seq<string>, s: string, outsz: nat)
    requires (s == [] || s[0] == '/') && |Joined(dir)| + |s| < outsz && Shallow(dir, Components(s))
    ensures WalkFits(dir, Components(s), outsz)
    decreases |s|
  {
    if s != [] {
      var t := s[1..];
      if t == [] || t[0] == '/' {
        AbsoluteFits(dir, t, outsz);
      } else {
        var n := SegLen(t);
        var c, next := t[..n], Enter(dir, t[..n]);
        assert Components(s) == [c] + Components(t[n..]);
        if next == dir + [c] { assert next[..|dir|] == dir; }
        if next != dir && next != dir + [c] { JoinedPrefix(dir, |dir| - 1); }
        assert Components(s)[1..] == Components(t[n..]);
        AbsoluteFits(next, t[n..], outsz);
      }
    }
  }

  // ----- normalize_abs_path

  datatype Option = None | Some(path: string)

  /** The normalised path, or None if some step of the walk does not fit. */
  function Normalized(s: string, outsz: nat): Option {
    if outsz < 2 || !WalkFits([], Components(s), outsz) then None else Some(Render(Walk([], Components(s))))
  }

  /** Never None for an absolute path shorter than the buffer that nests at most 64 deep. */
  lemma NormalizeSucceeds(s: string, outsz: nat)
    requires s != [] && s[0] == '/' && |s| < outsz && Shallow([], Components(s))
    ensures Normalized(s, outsz) == Some(Render(Walk([], Components(s))))
  {
    AbsoluteFits([], s, outsz);
  }

  /** The result is canonical: its components are clean, and normalising it again changes nothing. */
  lemma NormalizeIdempotent(s: string, outsz: nat)
    requires Normalized(s, outsz).Some?
    ensures var dir := Walk([], Components(s));
            && CleanDir(dir) && Components(Render(dir)) == dir
            && Normalized(Render(dir), outsz) == Normalized(s, outsz) == Some(Render(dir))
  {
    var dir := Walk([], Components(s));
    ComponentsClean(s);
    WalkStaysClean([], Components(s));
    ComponentsOfRender(dir);
    WalkClean([], dir);
    assert [] + dir == dir;
    WalkEndFits([], Components(s), outsz);
    CleanWalkFits([], dir, outsz);
  }

  lemma {:induction false} WalkEndFits(dir: seq<string>, cs: seq<string>, outsz: nat)
    requires WalkFits(dir, cs, outsz) && Fits(dir, outsz)
    ensures Fits(Walk(dir, cs), outsz)
    decreases |cs|
  {
    if cs != [] { WalkEndFits(Enter(dir, cs[0]), cs[1..], outsz); }
  }

  /** Distinct canonical places have distinct names. */
  lemma RenderInjective(a: seq<string>, b: seq<string>)
    requires CleanDir(a) && CleanDir(b) && Render(a) == Render(b)
    ensures a == b
  {
    ComponentsOfRender(a);
    ComponentsOfRender(b);
  }

  lemma OneMoreComponent(s: string, c: string)
    requires c != "" && '/' !in c
    ensures Components(s + "/" + c) == Components(s) + [c] && Components(s + "/") == Components(s)
  {
    ComponentsConcat(s, c);
    OneComponent(c);
    ComponentsConcat(s, "");
    NoComponents();
    assert s + "/" + "" == s + "/" && Components(s) + [] == Components(s);
  }

  /** Walking one component more. */
  lemma {:induction false} WalkOneMore(dir: seq<string>, cs: seq<string>, c: string, outsz: nat)
    ensures Walk(dir, cs + [c]) == Enter(Walk(dir, cs), c)
    ensures WalkFits(dir, cs + [c], outsz) <==> WalkFits(dir, cs, outsz) && Fits(Enter(Walk(dir, cs), c), outsz)
    decreases |cs|
  {
    if cs == [] {
      assert cs + [c] == [c] && [c][1..] == [];
    } else {
      assert (cs + [c])[1..] == cs[1..] + [c];
      WalkOneMore(Enter(dir, cs[0]), cs[1..], c, outsz);
    }
  }

  /** What normalising means, for any text s that leads to a place and one step more: a slash and "." change nothing,
      ".." leads to the parent - of the root, to the root -, and any other name leads down, unless that is too long
      or too deep.  Every absolute path is made of such steps, from "/" on. */
  lemma NormalizeLaws(s: string, c: string, outsz: nat)
    requires Normalized(s, outsz).Some? && Clean(c)
    ensures Normalized(s + "/", outsz) == Normalized(s, outsz) == Normalized(s + "/.", outsz)
    ensures Normalized(s + "/..", outsz) == Some(UpFrom(Normalized(s, outsz).path))
    ensures var p := Normalized(s, outsz).path;
            var q := (if p == "/" then "" else p) + "/" + c;
            && Normalized(s + "/" + c, outsz) == (if |Components(p)| < 64 && |q| < outsz then Some(q) else None)
            && (Normalized(s + "/" + c, outsz) == Some(q) ==>
                  Normalized(s + "/" + c + "/..", outsz) == Normalized(s, outsz))
  {
    hide Components, Walk, WalkFits, Joined, Render;
    var cs, dir := Components(s), Walk([], Components(s));
    NormalizeIdempotent(s, outsz);
    WalkEndFits([], cs, outsz) by { EmptyFits(outsz); }
    OneMoreComponent(s, c);
    OneMoreComponent(s, ".");
    OneMoreComponent(s, "..");
    OneMoreComponent(s + "/" + c, "..");
    WalkOneMore([], cs, c, outsz);
    WalkOneMore([], cs, ".", outsz);
    WalkOneMore([], cs, "..", outsz);
    WalkOneMore([], cs + [c], "..", outsz);
    assert (dir + [c])[..|dir|] == dir;
    assert s + "/." == s + "/" + "." && s + "/.." == s + "/" + "..";
    assert s + "/" + c + "/.." == (s + "/" + c) + "/" + "..";
    if dir != [] { UpFits(dir, outsz); }
    UpFromRender(dir);
    RenderDown(dir, c);
  }

  lemma EmptyFits(outsz: nat)
    ensures outsz > 0 ==> Fits([], outsz)
  {
  }

  lemma UpFits(dir: seq<string>, outsz: nat)
    requires Fits(dir, outsz) && dir != []
    ensures Fits(dir[..|dir| - 1], outsz)
  {
    JoinedPrefix(dir, |dir| - 1);
  }

  /** What comes before the last slash of a canonical path; "/" if nothing does. */
  function UpFrom(p: string): string {
    var n := AfterLastSlash(p);
    if n <= 1 then "/" else p[..n - 1]
  }

  lemma UpFromRender(dir: seq<string>)
    requires CleanDir(dir)
    ensures UpFrom(Render(dir)) == Render(if dir == [] then [] else dir[..|dir| - 1])
  {
    if dir == [] {
      assert AfterLastSlash("/") == 1;
    } else {
      var up, c := dir[..|dir| - 1], dir[|dir| - 1];
      LastSlashOf(Joined(up), c);
      assert (Joined(up) + "/" + c)[..|Joined(up)|] == Joined(up);
      if up != [] { assert |Joined(up)| > 0; }
    }
  }

  lemma RenderDown(dir: seq<string>, c: string)
    requires CleanDir(dir) && Clean(c)
    ensures Render(dir + [c]) == (if Render(dir) == "/" then "" else Render(dir)) + "/" + c
    ensures |Joined(dir + [c])| == |Render(dir + [c])|
  {
    assert (dir + [c])[..|dir|] == dir;
    assert Joined(dir + [c]) == Joined(dir) + "/" + c;
    if dir != [] { JoinedHead(dir); }
  }

  /** Too long or too deep: a canonical path is accepted exactly when it fits. */
  lemma NormalizeClean(dir: seq<string>, outsz: nat)
    requires CleanDir(dir) && outsz >= 2
    ensures Normalized(Render(dir), outsz) == if |dir| <= 64 && |Joined(dir)| < outsz then Some(Render(dir)) else None
  {
    hide Components, Joined, Render;
    ComponentsOfRender(dir);
    WalkClean([], dir);
    assert [] + dir == dir;
    if Fits(dir, outsz) {
      CleanWalkFits([], dir, outsz);
    } else if WalkFits([], dir, outsz) {
      EmptyFits(outsz);
      WalkEndFits([], dir, outsz);
    }
  }

  /** buf holds text as a C string. */
  predicate Holds(buf: seq<char>, text: string) {
    |text| < |buf| && buf[|text|] == '\0' && forall i :: 0 <= i < |text| ==> buf[i] == text[i]
  }

  /** Where the next component starts, and its length; start == |s| if there is none. */
  method NextSegment(s: string, p: nat) returns (start: nat, len: nat)
    requires p < |s|
    ensures p <= start && start + len <= |s| && (start < |s| ==> len > 0)
    ensures Components(s[p..]) == if start == |s| then Components([])
              else [s[start..start + len]] + Components(s[start + len..])
  {
    hide Components;
    start := p;
    while start < |s| && s[start] == '/'
      invariant p <= start <= |s| && Components(s[p..]) == Components(s[start..])
    {
      SkipSlash(s, start);
      start := start + 1;
    }
    len := 0;
    assert s[|s|..] == [];
    if start == |s| { return; }
    while start + len < |s| && s[start + len] != '/'
      invariant start + len <= |s| && (forall i :: start <= i < start + len ==> s[i] != '/')
    {
      len := len + 1;
    }
    SegmentAt(s, start, len);
  }

  /** The state of the output buffer: dir has been written, and segSlash says where each component begins. */
  predicate Written(dir: seq<string>, buf: seq<char>, segSlash: seq<nat>, depth: nat, o: nat) {
    && depth == |dir| <= MAX_DEPTH == |segSlash| && o == |Joined(dir)| && Holds(buf, Joined(dir))
    && forall k :: 0 <= k < depth ==> segSlash[k] == |Joined(dir[..k])|
  }

  lemma GoUp(dir: seq<string>, buf: seq<char>, segSlash: seq<nat>, depth: nat, o: nat)
    requires Written(dir, buf, segSlash, depth, o) && depth > 0
    ensures var up := dir[..|dir| - 1]; var o1 := segSlash[depth - 1];
            o1 < |buf| && Written(up, buf[o1 := '\0'], segSlash, depth - 1, o1)
  {
    var up := dir[..|dir| - 1];
    JoinedPrefix(dir, depth - 1);
    assert forall k :: 0 <= k < depth - 1 ==> up[..k] == dir[..k];
  }

  lemma GoDown(dir: seq<string>, buf: seq<char>, segSlash: seq<nat>, depth: nat, o: nat, c: string, buf2: seq<char>)
    requires Written(dir, buf, segSlash, depth, o) && depth < MAX_DEPTH && o + 1 + |c| < |buf| == |buf2|
    requires buf2[..o] == buf[..o] && buf2[o] == '/' && buf2[o + 1..o + 1 + |c|] == c && buf2[o + 1 + |c|] == '\0'
    ensures Written(dir + [c], buf2, segSlash[depth := o], depth + 1, o + 1 + |c|)
  {
    var down := dir + [c];
    assert down[..depth] == dir;
    assert forall k :: 0 <= k < depth ==> down[..k] == dir[..k];
    var j := Joined(down);
    forall i | 0 <= i < |j|
      ensures buf2[i] == j[i]
    {
      if i < o { assert buf2[i] == buf2[..o][i] == buf[i]; }
      if i > o { assert buf2[i] == buf2[o + 1..o + 1 + |c|][i - o - 1]; }
    }
  }

  /** Appends "/" and the component s[start..start + len], unless it does not fit. */
  method PushComponent(s: string, start: nat, len: nat, out: array<char>, segSlash: seq<nat>, depth: nat, o: nat,
                       ghost dir: seq<string>)
    returns (ok: bool, segSlash': seq<nat>, o': nat)
    requires start + len <= |s| && len > 0 && Written(dir, out[..], segSlash, depth, o)
    modifies out
    ensures ok <==> Fits(dir + [s[start..start + len]], out.Length)
    ensures ok ==> Written(dir + [s[start..start + len]], out[..], segSlash', depth + 1, o')
  {
    hide Joined;
    ghost var before := out[..];
    var outsz := out.Length;
    ghost var c := s[start..start + len];
    ok, segSlash', o' := false, segSlash, o;
    JoinedDown(dir, c);
    if o + 1 >= outsz { return; }
    out[o] := '/';
    if depth >= MAX_DEPTH { return; }
    if o + 1 + len >= outsz { return; }
    for i := 0 to len
      invariant out[..o] == before[..o] && out[o] == '/' && out[o + 1..o + 1 + i] == c[..i]
    {
      out[o + 1 + i] := s[start + i];
    }
    out[o + 1 + len] := '\0';
    assert out[o + 1..o + 1 + len] == c;
    GoDown(dir, before, segSlash, depth, o, c, out[..]);
    return true, segSlash[depth := o], o + 1 + len;
  }

  method PopComponent(out: array<char>, segSlash: seq<nat>, depth: nat, o: nat, ghost dir: seq<string>)
    returns (o': nat)
    requires Written(dir, out[..], segSlash, depth, o) && depth > 0
    modifies out
    ensures dir != [] && Written(dir[..|dir| - 1], out[..], segSlash, depth - 1, o')
  {
    GoUp(dir, out[..], segSlash, depth, o);
    o' := segSlash[depth - 1];
    ghost var was := out[..];
    out[o'] := '\0';
    assert out[..] == was[o' := '\0'];
  }

  /** normalize_abs_path. The buffer is exactly out. */
  method NormalizeAbsPath(s: string, out: array<char>) returns (rc: int)
    modifies out
    ensures rc == if Normalized(s, out.Length).Some? then 0 else -1
    ensures rc == 0 ==> Holds(out[..], Normalized(s, out.Length).path)
  {
    hide Components, Walk, WalkFits, Joined, Written, Fits;
    var outsz := out.Length;
    if outsz < 2 { return -1; }
    var segSlash: seq<nat> := seq(MAX_DEPTH, _ => 0);
    var depth: nat, o: nat, p: nat := 0, 0, 0;
    ghost var dir: seq<string> := [];
    out[0] := '\0';
    assert s[0..] == s;
    AtRoot(out[..], segSlash);
    while p < |s|
      invariant p <= |s| && Written(dir, out[..], segSlash, depth, o)
      invariant Walk([], Components(s)) == Walk(dir, Components(s[p..]))
      invariant WalkFits([], Components(s), outsz) <==> WalkFits(dir, Components(s[p..]), outsz)
    {
      var start, len := NextSegment(s, p);
      if start == |s| {
        assert s[|s|..] == [];
        p := start;
        break;
      }
      ghost var c := s[start..start + len];
      DotNames(s, start, len);
      OneStep(dir, c, Components(s[start + len..]), outsz);
      p := start + len;
      WrittenFits(dir, out[..], segSlash, depth, o);
      if len == 1 && s[start] == '.' {
        continue;
      }
      if len == 2 && s[start] == '.' && s[start + 1] == '.' {
        if depth > 0 {
          o := PopComponent(out, segSlash, depth, o, dir);
          depth := depth - 1;
          dir := dir[..|dir| - 1];
          WrittenFits(dir, out[..], segSlash, depth, o);
        }
        continue;
      }
      var ok;
      ok, segSlash, o := PushComponent(s, start, len, out, segSlash, depth, o, dir);
      if !ok { return -1; }
      depth := depth + 1;
      dir := dir + [c];
    }
    AtEnd(s, dir, outsz);
    WrittenFits(dir, out[..], segSlash, depth, o);
    WrittenEmpty(dir, out[..], segSlash, depth, o);
    if o == 0 {
      out[0] := '/';
      out[1] := '\0';
    }
    return 0;
  }

  lemma AtRoot(buf: seq<char>, segSlash: seq<nat>)
    requires |buf| >= 2 && buf[0] == '\0' && |segSlash| == MAX_DEPTH
    ensures Written([], buf, segSlash, 0, 0)
  {
  }

  lemma AtEnd(s: string, dir: seq<string>, outsz: nat)
    ensures Components(s[|s|..]) == [] && Walk(dir, []) == dir && WalkFits(dir, [], outsz)
  {
  }

  lemma OneStep(dir: seq<string>, c: string, rest: seq<string>, outsz: nat)
    ensures Walk(dir, [c] + rest) == Walk(Enter(dir, c), rest)
    ensures WalkFits(dir, [c] + rest, outsz) <==> Fits(Enter(dir, c), outsz) && WalkFits(Enter(dir, c), rest, outsz)
  {
  }

  lemma WrittenFits(dir: seq<string>, buf: seq<char>, segSlash: seq<nat>, depth: nat, o: nat)
    requires Written(dir, buf, segSlash, depth, o)
    ensures Fits(dir, |buf|) && depth == |dir|
  {
  }

  lemma WrittenEmpty(dir: seq<string>, buf: seq<char>, segSlash: seq<nat>, depth: nat, o: nat)
    requires Written(dir, buf, segSlash, depth, o)
    ensures (o == 0 <==> dir == []) && Holds(buf, Joined(dir))
  {
  }

  lemma JoinedDown(dir: seq<string>, c: string)
    ensures |Joined(dir + [c])| == |Joined(dir)| + 1 + |c|
  {
  }

  lemma DotNames(s: string, start: nat, len: nat)
    requires start + len <= |s|
    ensures s[start..start + len] == "." <==> len == 1 && s[start] == '.'
    ensures s[start..start + len] == ".." <==> len == 2 && s[start] == '.' && s[start + 1] == '.'
  {
  }

  // ----- resolve_path

  function Resolved(cwd: string, s: string, outsz: nat): Option {
    if s != [] && s[0] == '/' then (if |s| + 1 > MAX_PATH then None else Normalized(s, outsz))
    else if cwd == [] || |cwd| + |s| + 2 > MAX_PATH then None
    else Normalized(cwd + "/" + s, outsz)
  }

  method ResolvePath(cwd: string, s: string, out: array<char>) returns (rc: int)
    modifies out
    ensures rc == if Resolved(cwd, s, out.Length).Some? then 0 else -1
    ensures rc == 0 ==> Holds(out[..], Resolved(cwd, s, out.Length).path)
  {
    hide Normalized, Holds;
    var tmp: string := "";
    if |s| > 0 && s[0] == '/' {
      if |s| + 1 > MAX_PATH { return -1; }
      tmp := s;
    } else {
      if |cwd| == 0 { return -1; }
      if |cwd| + 1 + |s| + 1 > MAX_PATH { return -1; }
      tmp := cwd + "/" + s;
    }
    rc := NormalizeAbsPath(tmp, out);
  }

  lemma {:induction false} WalkFitsConcat(dir: seq<string>, a: seq<string>, b: seq<string>, outsz: nat)
    ensures WalkFits(dir, a + b, outsz) <==> WalkFits(dir, a, outsz) && WalkFits(Walk(dir, a), b, outsz)
    decreases |a|
  {
    if a == [] {
      assert a + b == b;
    } else {
      assert (a + b)[1..] == a[1..] + b;
      WalkFitsConcat(Enter(dir, a[0]), a[1..], b, outsz);
    }
  }

  /** A relative path is walked from the working directory: exactly when it fits, and to where. */
  lemma ResolveRelative(dir: seq<string>, s: string)
    requires CleanDir(dir) && Fits(dir, MAX_PATH) && (s == [] || s[0] != '/')
    ensures Resolved(Render(dir), s, MAX_PATH) ==
            if |Render(dir)| + |s| + 2 <= MAX_PATH && WalkFits(dir, Components(s), MAX_PATH)
            then Some(Render(Walk(dir, Components(s)))) else None
  {
    hide Components, Walk, WalkFits;
    ComponentsConcat(Render(dir), s);
    ComponentsOfRender(dir);
    WalkConcat([], dir, Components(s));
    WalkClean([], dir);
    assert [] + dir == dir;
    CleanWalkFits([], dir, MAX_PATH);
    WalkFitsConcat([], dir, Components(s), MAX_PATH);
  }

  /** An absolute path is resolved without the working directory. */
  lemma ResolveAbsolute(cwd: string, s: string, outsz: nat)
    requires s != [] && s[0] == '/'
    ensures Resolved(cwd, s, outsz) == if |s| >= 256 then None else Normalized(s, outsz)
  {
  }

  /** ".." from a canonical place leads where its parent is, at the root to the root, whenever the text fits. */
  lemma ResolveUp(dir: seq<string>)
    requires CleanDir(dir) && Fits(dir, MAX_PATH)
    ensures Parent(Render(dir), MAX_PATH).Ok?
    ensures Resolved(Render(dir), "..", MAX_PATH) ==
            if |Render(dir)| <= 252 then Some(Parent(Render(dir), MAX_PATH).path) else None
  {
    hide Joined, Render, Components;
    NormalizeClean(dir, MAX_PATH);
    NormalizeLaws(Render(dir), "a", MAX_PATH);
    UpFromRender(dir);
    ParentOfRender(dir);
    assert Render(dir) + "/" + ".." == Render(dir) + "/..";
  }

  // ----- parents and overlay names

  function TrimEnd(s: string): string {
    if |s| > 1 && s[|s| - 1] == '/' then TrimEnd(s[..|s| - 1]) else s
  }

  /** One past the last slash, or 0. */
  function AfterLastSlash(s: string): (n: nat)
    ensures n <= |s|
  {
    if s == [] then 0 else if s[|s| - 1] == '/' then |s| else AfterLastSlash(s[..|s| - 1])
  }

  datatype Outcome = Err(errno: int) | Ok(path: string)

  function Parent(s: string, outsz: nat): Outcome {
    if outsz < 2 then Err(EINVAL)
    else if |s| + 1 > outsz then Err(ENAMETOOLONG)
    else
      var t := TrimEnd(s);
      var n := AfterLastSlash(t);
      if n == 0 then Err(EINVAL) else if n == 1 then Ok("/") else Ok(t[..n - 1])
  }

  /** abs_path_parent_dir. */
  method AbsPathParentDir(s: string, outsz: nat) returns (r: Outcome)
    ensures r == Parent(s, outsz)
  {
    if outsz < 2 { return Err(EINVAL); }
    if |s| + 1 > outsz { return Err(ENAMETOOLONG); }
    var n := |s|;
    assert s[..n] == s;
    while n > 1 && s[n - 1] == '/'
      invariant n <= |s| && TrimEnd(s[..n]) == TrimEnd(s)
    {
      assert s[..n][..n - 1] == s[..n - 1];
      n := n - 1;
    }
    ghost var t := s[..n];
    var last := -1;
    for i := 0 to n
      invariant -1 <= last < i && AfterLastSlash(t[..i]) == last + 1
    {
      assert t[..i + 1][..i] == t[..i];
      if s[i] == '/' { last := i; }
    }
    assert t[..n] == t;
    if last < 0 { return Err(EINVAL); }
    if last == 0 { return Ok("/"); }
    return Ok(s[..last]);
  }

  /** The overlay's name for a path: no leading or trailing slashes. */
  function NoSlash(s: string, outsz: nat): Outcome {
    if outsz == 0 then Err(EINVAL)
    else
      var p := SkipSlashes(s);
      if p == [] then Err(EINVAL) else if |p| + 1 > outsz then Err(ENAMETOOLONG) else Ok(TrimEnd(p))
  }

  function SkipSlashes(s: string): string {
    if s != [] && s[0] == '/' then SkipSlashes(s[1..]) else s
  }

  /** abs_path_to_no_slash_trim. */
  method AbsPathToNoSlashTrim(s: string, outsz: nat) returns (r: Outcome)
    ensures r == NoSlash(s, outsz)
  {
    if outsz == 0 { return Err(EINVAL); }
    var p := 0;
    assert s[0..] == s;
    while p < |s| && s[p] == '/'
      invariant p <= |s| && SkipSlashes(s[p..]) == SkipSlashes(s)
    {
      assert s[p..][1..] == s[p + 1..];
      p := p + 1;
    }
    if p == |s| { return Err(EINVAL); }
    var name := s[p..];
    var n := |name|;
    if n + 1 > outsz { return Err(ENAMETOOLONG); }
    assert name[..n] == name;
    while n > 0 && name[n - 1] == '/'
      invariant 0 < n <= |name| && TrimEnd(name[..n]) == TrimEnd(name) && name[0] != '/'
    {
      assert name[..n][..n - 1] == name[..n - 1];
      n := n - 1;
    }
    if n == 0 { return Err(EINVAL); }
    return Ok(name[..n]);
  }

  lemma {:induction false} LastSlashOf(up: string, c: string)
    requires '/' !in c
    ensures AfterLastSlash(up + "/" + c) == |up| + 1
    decreases |c|
  {
    var w := up + "/" + c;
    if c == [] {
      assert w[|w| - 1] == '/';
    } else {
      assert w[..|w| - 1] == up + "/" + c[..|c| - 1];
      assert w[|w| - 1] == c[|c| - 1] != '/';
      LastSlashOf(up, c[..|c| - 1]);
    }
  }

  function Slashes(n: nat): (s: string)
    ensures |s| == n && forall i :: 0 <= i < n ==> s[i] == '/'
  {
    seq(n, _ => '/')
  }

  lemma {:induction false} TrimSlashes(s: string, n: nat)
    requires s != [] && (s[|s| - 1] != '/' || |s| == 1)
    ensures TrimEnd(s + Slashes(n)) == s
    decreases n
  {
    if n == 0 {
      assert s + Slashes(0) == s;
    } else {
      assert (s + Slashes(n))[..|s| + n - 1] == s + Slashes(n - 1);
      TrimSlashes(s, n - 1);
    }
  }

  lemma {:induction false} SkipAll(n: nat, x: string)
    requires x == [] || x[0] != '/'
    ensures SkipSlashes(Slashes(n) + x) == x
    decreases n
  {
    if n == 0 {
      assert Slashes(0) + x == x;
    } else {
      assert (Slashes(n) + x)[1..] == Slashes(n - 1) + x;
      SkipAll(n - 1, x);
    }
  }

  lemma {:induction false} NoSlashNoParent(s: string)
    requires '/' !in s
    ensures AfterLastSlash(s) == 0 && TrimEnd(s) == s
  {
    if s != [] { NoSlashNoParent(s[..|s| - 1]); }
  }

  /** The parent of any path, canonical or not: without its last component and the slashes around it. */
  lemma ParentMeans(up: string, c: string, n: nat, outsz: nat)
    requires c != "" && '/' !in c && outsz >= 2
    ensures Parent(up + "/" + c + Slashes(n), outsz) ==
            if |up| + 1 + |c| + n >= outsz then Err(ENAMETOOLONG) else Ok(if up == "" then "/" else up)
    ensures Parent(c, outsz) == Err(if |c| >= outsz then ENAMETOOLONG else EINVAL)
    ensures n > 0 ==> Parent(Slashes(n), outsz) == if n >= outsz then Err(ENAMETOOLONG) else Ok("/")
  {
    var s := up + "/" + c;
    TrimSlashes(s, n);
    LastSlashOf(up, c);
    assert s[..|up|] == up;
    NoSlashNoParent(c);
    if n > 0 {
      TrimSlashes("/", n - 1);
      assert "/" + Slashes(n - 1) == Slashes(n);
      assert AfterLastSlash("/") == 1;
    }
  }

  /** The overlay's name of any path: without the slashes at either end; only slashes have none. */
  lemma NoSlashMeans(m: nat, x: string, n: nat, outsz: nat)
    requires x != "" && x[0] != '/' && x[|x| - 1] != '/' && outsz > 0
    ensures NoSlash(Slashes(m) + x + Slashes(n), outsz) == if |x| + n >= outsz then Err(ENAMETOOLONG) else Ok(x)
    ensures NoSlash(Slashes(m), outsz) == Err(EINVAL)
  {
    assert Slashes(m) + x + Slashes(n) == Slashes(m) + (x + Slashes(n));
    SkipAll(m, x + Slashes(n));
    SkipAll(m, "");
    assert Slashes(m) + "" == Slashes(m);
    TrimSlashes(x, n);
  }

  /** The parent of a canonical path drops its last component; the root is its own parent. */
  lemma ParentOfRender(dir: seq<string>)
    requires CleanDir(dir) && Fits(dir, MAX_PATH)
    ensures Parent(Render(dir), MAX_PATH) == Ok(Render(if dir == [] then [] else dir[..|dir| - 1]))
  {
    if dir == [] {
      assert AfterLastSlash("/") == 1;
    } else {
      var up, c := dir[..|dir| - 1], dir[|dir| - 1];
      var s := Joined(up) + "/" + c;
      assert s[|s| - 1] == c[|c| - 1] != '/';
      LastSlashOf(Joined(up), c);
      assert s[..|Joined(up)|] == Joined(up);
      if up != [] { assert |Joined(up)| > 0; }
    }
  }

  /** The overlay name of a canonical path is that path without its slash; only the root has none. */
  lemma NoSlashOfRender(dir: seq<string>)
    requires CleanDir(dir) && Fits(dir, MAX_PATH)
    ensures dir == [] ==> NoSlash(Render(dir), MAX_PATH) == Err(EINVAL)
    ensures dir != [] ==> NoSlash(Render(dir), MAX_PATH) == Ok(Joined(dir)[1..])
  {
    if dir == [] {
      assert "/"[1..] == "";
    } else {
      var s, c := Joined(dir), dir[|dir| - 1];
      assert s[|s| - 1] == c[|c| - 1] != '/';
      JoinedHead(dir);
      assert SkipSlashes(s) == SkipSlashes(s[1..]) == s[1..];
    }
  }

  lemma {:induction false} JoinedHead(dir: seq<string>)
    requires CleanDir(dir) && dir != []
    ensures |Joined(dir)| > 1 && Joined(dir)[0] == '/' && Joined(dir)[1] != '/'
  {
    var up, c := dir[..|dir| - 1], dir[|dir| - 1];
    if up == [] {
      assert Joined(dir) == "" + "/" + c;
      assert Joined(dir)[1] == c[0];
    } else {
      JoinedHead(up);
    }
  }
}
