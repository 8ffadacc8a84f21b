/** The shell-style pattern matcher of find: '*' stands for any text, '?' for any one character. */
module Glob {
  /** What one pattern character may stand for. */
  predicate PieceOk(c: char, piece: string) {
    c == '*' || (|piece| == 1 && OneOk(c, piece[0]))
  }

  predicate OneOk(c: char, d: char) { c == '?' || c == d }

  function Joined(pieces: seq<string>): string {
    if pieces == [] then "" else pieces[0] + Joined(pieces[1..])
  }

  predicate Replaces(pat: string, pieces: seq<string>, text: string) {
    |pieces| == |pat| && Joined(pieces) == text && forall i :: 0 <= i < |pat| ==> PieceOk(pat[i], pieces[i])
  }

  /** The text is the pattern with every character replaced by a piece it may stand for. */
  ghost predicate Means(pat: string, text: string) { exists pieces :: Replaces(pat, pieces, text) }

  function Next(p: nat): nat { p + 1 }

  /** pat from p on matches s from t on. */
  ghost predicate Match(pat: string, p: nat, s: string, t: nat)
    requires p <= |pat| && t <= |s|
    decreases |pat| - p
  {
    if p == |pat| then t == |s|
    else if pat[p] == '*' then exists k :: t <= k <= |s| && Match(pat, Next(p), s, k)
    else t < |s| && OneOk(pat[p], s[t]) && Match(pat, p + 1, s, t + 1)
  }

  /** pat from p on matches s from some place at or after t on. */
  ghost predicate MatchFrom(pat: string, p: nat, s: string, t: nat)
    requires p <= |pat| && t <= |s|
  {
    exists k :: t <= k <= |s| && Match(pat, p, s, k)
  }

  lemma StarStep(pat: string, p: nat, s: string, t: nat)
    requires p < |pat| && t <= |s| && pat[p] == '*'
    ensures Match(pat, p, s, t) <==> MatchFrom(pat, p + 1, s, t)
  {
    if MatchFrom(pat, p + 1, s, t) {
      var k :| t <= k <= |s| && Match(pat, p + 1, s, k);
      assert Match(pat, Next(p), s, k);
    }
  }

  lemma ReplacesOne(pat: string, pieces: seq<string>, text: string)
    requires pat != "" && pieces != []
    ensures Replaces(pat, pieces, pieces[0] + text) <==>
            PieceOk(pat[0], pieces[0]) && Replaces(pat[1..], pieces[1..], text)
  {
    hide PieceOk;
    assert Joined(pieces) == pieces[0] + Joined(pieces[1..]);
    assert pieces[0] + Joined(pieces[1..]) == pieces[0] + text <==> Joined(pieces[1..]) == text by {
      assert (pieces[0] + Joined(pieces[1..]))[|pieces[0]|..] == Joined(pieces[1..]);
      assert (pieces[0] + text)[|pieces[0]|..] == text;
    }
    if Replaces(pat[1..], pieces[1..], text) {
      assert forall i :: 1 <= i < |pat| ==> pat[i] == pat[1..][i - 1] && pieces[i] == pieces[1..][i - 1];
    }
  }

  lemma {:induction false} MatchHasPieces(pat: string, p: nat, s: string, t: nat) returns (pieces: seq<string>)
    requires p <= |pat| && t <= |s| && Match(pat, p, s, t)
    ensures Replaces(pat[p..], pieces, s[t..])
    decreases |pat| - p
  {
    hide Replaces;
    if p == |pat| {
      pieces := [];
      NothingReplaces(pieces, s[t..]);
    } else {
      var k := t + 1;
      if pat[p] == '*' {
        k :| t <= k <= |s| && Match(pat, p + 1, s, k);
      }
      var rest := MatchHasPieces(pat, p + 1, s, k);
      pieces := [s[t..k]] + rest;
      assert pieces[1..] == rest && pat[p..][1..] == pat[p + 1..] && s[t..] == s[t..k] + s[k..];
      ReplacesOne(pat[p..], pieces, s[k..]);
    }
  }

  lemma NothingReplaces(pieces: seq<string>, text: string)
    ensures Replaces("", pieces, text) <==> pieces == [] && text == ""
  {
  }

  lemma {:induction false} PiecesMatch(pat: string, p: nat, s: string, t: nat, pieces: seq<string>)
    requires p <= |pat| && t <= |s| && Replaces(pat[p..], pieces, s[t..])
    ensures Match(pat, p, s, t)
    decreases |pat| - p
  {
    if p == |pat| {
      NothingReplaces(pieces, s[t..]);
    } else {
      var k := t + |pieces[0]|;
      assert s[t..] == pieces[0] + Joined(pieces[1..]);
      assert s[k..] == s[t..][|pieces[0]|..] && pieces[0] == s[t..k];
      ReplacesOne(pat[p..], pieces, s[k..]);
      assert pat[p..][1..] == pat[p + 1..];
      PiecesMatch(pat, p + 1, s, k, pieces[1..]);
      if pat[p] == '*' { StarStep(pat, p, s, t); }
    }
  }

  lemma MatchIsMeaning(pat: string, s: string)
    ensures Match(pat, 0, s, 0) <==> Means(pat, s)
  {
    hide Match, Replaces;
    assert s[0..] == s && pat[0..] == pat;
    if Match(pat, 0, s, 0) {
      var pieces := MatchHasPieces(pat, 0, s, 0);
    }
    if Means(pat, s) {
      var pieces :| Replaces(pat, pieces, s);
      PiecesMatch(pat, 0, s, 0, pieces);
    }
  }

  // ----- the meaning, operator by operator

  lemma {:induction false} JoinedConcat(a: seq<string>, b: seq<string>)
    ensures Joined(a + b) == Joined(a) + Joined(b)
  {
    if a == [] {
      assert a + b == b;
    } else {
      JoinedConcat(a[1..], b);
      assert (a + b)[1..] == a[1..] + b && (a + b)[0] == a[0];
      assert a[0] + (Joined(a[1..]) + Joined(b)) == (a[0] + Joined(a[1..])) + Joined(b);
    }
  }

  ghost predicate SplitsAt(p: string, q: string, s: string, i: nat) {
    i <= |s| && Means(p, s[..i]) && Means(q, s[i..])
  }

  ghost predicate Splits(p: string, q: string, s: string) { exists i :: SplitsAt(p, q, s, i) }

  /** One pattern after another matches one text after another. */
  lemma MeansConcat(p: string, q: string, s: string)
    ensures Means(p + q, s) <==> Splits(p, q, s)
  {
    if Means(p + q, s) {
      var pieces :| Replaces(p + q, pieces, s);
      PiecesPart(p, q, pieces, s);
    }
    if n: nat :| SplitsAt(p, q, s, n) {
      var a :| Replaces(p, a, s[..n]);
      var b :| Replaces(q, b, s[n..]);
      JoinedConcat(a, b);
      assert s[..n] + s[n..] == s;
      assert Replaces(p + q, a + b, s);
    }
  }

  lemma PiecesPart(p: string, q: string, pieces: seq<string>, s: string)
    requires Replaces(p + q, pieces, s)
    ensures Splits(p, q, s)
  {
    hide PieceOk, Joined;
    var a, b := pieces[..|p|], pieces[|p|..];
    JoinedConcat(a, b);
    assert pieces == a + b;
    var n := |Joined(a)|;
    assert s[..n] == Joined(a) && s[n..] == Joined(b);
    assert Replaces(p, a, s[..n]) by { assert forall i :: 0 <= i < |p| ==> (p + q)[i] == p[i]; }
    assert Replaces(q, b, s[n..]) by {
      assert forall i :: 0 <= i < |q| ==> (p + q)[|p| + i] == q[i] && b[i] == pieces[|p| + i];
    }
    assert SplitsAt(p, q, s, n);
  }

  /** A star alone matches every text, a question mark every single character, and a text without either itself
      only - with MeansConcat, this is the whole meaning. */
  lemma MeansAlone(p: string, s: string)
    ensures Means("*", s)
    ensures Means("?", s) <==> |s| == 1
    ensures '*' !in p && '?' !in p ==> (Means(p, s) <==> s == p)
  {
    assert Joined([s]) == s + Joined([]) == s;
    assert Replaces("*", [s], s);
    if |s| == 1 { assert Replaces("?", [s], s); }
    if Means("?", s) {
      var pieces :| Replaces("?", pieces, s);
      assert PieceOk("?"[0], pieces[0]) && Joined(pieces) == pieces[0] + Joined(pieces[1..]) == pieces[0];
    }
    if '*' !in p && '?' !in p { MeansItself(p, s); }
  }

  lemma {:induction false} MeansItself(p: string, s: string)
    requires '*' !in p && '?' !in p
    ensures Means(p, s) <==> s == p
  {
    var own: seq<string> := seq(|p|, i requires 0 <= i < |p| => [p[i]]);
    Singles(p, own);
    assert Replaces(p, own, p);
    if Means(p, s) {
      var pieces :| Replaces(p, pieces, s);
      assert forall i :: 0 <= i < |p| ==> PieceOk(p[i], pieces[i]) && pieces[i] == [p[i]];
      Singles(p, pieces);
    }
  }

  lemma {:induction false} Singles(p: string, pieces: seq<string>)
    requires |pieces| == |p| && forall i :: 0 <= i < |p| ==> pieces[i] == [p[i]]
    ensures Joined(pieces) == p
  {
    if p != "" {
      Singles(p[1..], pieces[1..]);
      assert p == [p[0]] + p[1..];
    }
  }

  // ----- placing the literal parts

  /** pat[lo..hi], which has no star, matches the text at at, character by character. */
  predicate Sits(pat: string, lo: nat, hi: nat, s: string, at: nat)
    requires lo <= hi <= |pat|
  {
    at + (hi - lo) <= |s| && forall i :: lo <= i < hi ==> pat[i] != '*' && OneOk(pat[i], s[at + (i - lo)])
  }

  lemma {:induction false} LiteralPart(pat: string, lo: nat, hi: nat, s: string, at: nat)
    requires lo <= hi <= |pat| && at <= |s| && forall i :: lo <= i < hi ==> pat[i] != '*'
    ensures Match(pat, lo, s, at) <==> Sits(pat, lo, hi, s, at) && Match(pat, hi, s, at + (hi - lo))
    decreases hi - lo
  {
    if lo < hi && at < |s| {
      LiteralPart(pat, lo + 1, hi, s, at + 1);
    }
  }

  /** Meeting another star at p: whatever the earlier star could still absorb, this one can absorb instead. */
  lemma LaterStarSuffices(pat: string, lo: nat, p: nat, s: string, at: nat)
    requires lo <= p < |pat| && pat[p] == '*' && Sits(pat, lo, p, s, at)
    ensures MatchFrom(pat, lo, s, at) <==> MatchFrom(pat, p + 1, s, at + (p - lo))
  {
    if MatchFrom(pat, lo, s, at) {
      var k :| at <= k <= |s| && Match(pat, lo, s, k);
      LiteralPart(pat, lo, p, s, k);
      StarStep(pat, p, s, k + (p - lo));
    }
    LiteralPart(pat, lo, p, s, at);
    StarStep(pat, p, s, at + (p - lo));
  }

  /** A mismatch: the star has to absorb one character more. */
  lemma Backtrack(pat: string, lo: nat, p: nat, s: string, at: nat)
    requires lo <= p <= |pat| && Sits(pat, lo, p, s, at) && at + (p - lo) < |s|
    requires p == |pat| || (pat[p] != '*' && !OneOk(pat[p], s[at + (p - lo)]))
    ensures MatchFrom(pat, lo, s, at) <==> MatchFrom(pat, lo, s, at + 1)
  {
    LiteralPart(pat, lo, p, s, at);
  }

  /** At the end of the text the literal part can only sit where it is. */
  lemma OnlyPlace(pat: string, lo: nat, p: nat, s: string, at: nat)
    requires lo <= p <= |pat| && Sits(pat, lo, p, s, at) && at + (p - lo) == |s|
    ensures MatchFrom(pat, lo, s, at) <==> Match(pat, p, s, |s|)
  {
    LiteralPart(pat, lo, p, s, at);
    if MatchFrom(pat, lo, s, at) {
      var k :| at <= k <= |s| && Match(pat, lo, s, k);
      LiteralPart(pat, lo, p, s, k);
    }
  }

  lemma {:induction false} EmptyText(pat: string, p: nat, s: string)
    requires p <= |pat|
    ensures Match(pat, p, s, |s|) <==> forall i :: p <= i < |pat| ==> pat[i] == '*'
    decreases |pat| - p
  {
    if p < |pat| {
      EmptyText(pat, p + 1, s);
      if pat[p] == '*' { StarStep(pat, p, s, |s|); }
    }
  }

  /** The cursors of match_glob: the pattern since the last star sits literally in the
      text from starT to t, and the answer is whether the pattern after the star can be
      placed there or further on. */
  ghost predicate Cursors(pat: string, s: string, p: int, t: int, star: int, starT: int) {
    && -1 <= star < p <= |pat| && 0 <= starT <= t <= |s| && p - (star + 1) == t - starT
    && Sits(pat, star + 1, p, s, starT)
    && if star >= 0 then pat[star] == '*' && (Match(pat, 0, s, 0) <==> MatchFrom(pat, star + 1, s, starT))
       else starT == 0
  }

  lemma AtStar(pat: string, s: string, p: int, t: int, star: int, starT: int)
    requires Cursors(pat, s, p, t, star, starT) && p < |pat| && pat[p] == '*'
    ensures Cursors(pat, s, p + 1, t, p, t)
  {
    if star >= 0 {
      LaterStarSuffices(pat, star + 1, p, s, starT);
    } else {
      LiteralPart(pat, 0, p, s, 0);
      StarStep(pat, p, s, t);
    }
  }

  lemma AtMismatch(pat: string, s: string, p: int, t: int, star: int, starT: int)
    requires Cursors(pat, s, p, t, star, starT) && t < |s|
    requires p == |pat| || (pat[p] != '*' && !OneOk(pat[p], s[t]))
    ensures if star >= 0 then Cursors(pat, s, star + 1, starT + 1, star, starT + 1) else !Match(pat, 0, s, 0)
  {
    if star >= 0 {
      Backtrack(pat, star + 1, p, s, starT);
    } else {
      LiteralPart(pat, 0, p, s, 0);
    }
  }

  lemma AtEnd(pat: string, s: string, p: int, star: int, starT: int)
    requires Cursors(pat, s, p, |s|, star, starT)
    ensures Match(pat, 0, s, 0) <==> forall i :: p <= i < |pat| ==> pat[i] == '*'
  {
    EmptyText(pat, p, s);
    if star >= 0 {
      OnlyPlace(pat, star + 1, p, s, starT);
    } else {
      LiteralPart(pat, 0, p, s, 0);
    }
  }

  /** match_glob: it always terminates, and backtracking to the most recent star only loses no match. */
  method MatchGlob(pat: string, s: string) returns (r: bool)
    ensures r <==> Means(pat, s)
  {
    hide Match, MatchFrom, Means;
    MatchIsMeaning(pat, s);
    var p, t := 0, 0;
    var star, starT := -1, 0;
    while t < |s|
      invariant Cursors(pat, s, p, t, star, starT)
      decreases |pat| - star, |s| - starT, |s| - t
    {
      if p < |pat| && pat[p] == '*' {
        AtStar(pat, s, p, t, star, starT);
        star := p;
        p := p + 1;
        starT := t;
        continue;
      }
      if p < |pat| && (pat[p] == '?' || pat[p] == s[t]) {
        p := p + 1;
        t := t + 1;
        continue;
      }
      AtMismatch(pat, s, p, t, star, starT);
      if star >= 0 {
        p := star + 1;
        starT := starT + 1;
        t := starT;
        continue;
      }
      return false;
    }
    AtEnd(pat, s, p, star, starT);
    ghost var q := p;
    while p < |pat| && pat[p] == '*'
      invariant q <= p <= |pat| && forall i :: q <= i < p ==> pat[i] == '*'
    {
      p := p + 1;
    }
    return p == |pat|;
  }
}
