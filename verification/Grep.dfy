/** The streaming substring search of grep: Knuth-Morris-Pratt over read buffers, line by line. */
module Grep {
  const LINE_MAX := 512
  const KMP_MAX := 128

  /** The first k characters of pat are the last k of text[..n]. */
  predicate Suffix(pat: string, k: nat, text: string, n: nat) {
    k <= |pat| && k <= n <= |text| && forall j :: 0 <= j < k ==> pat[j] == text[n - k + j]
  }

  predicate OccursAt(text: string, pat: string, i: nat) {
    i + |pat| <= |text| && forall j :: 0 <= j < |pat| ==> pat[j] == text[i + j]
  }

  /** pat occurs in text as a substring. */
  predicate Contains(text: string, pat: string) {
    exists i :: 0 <= i <= |text| && OccursAt(text, pat, i)
  }

  /** k is the longest proper border of pat[..n]. */
  predicate LongestBorder(pat: string, n: nat, k: nat) {
    0 < n <= |pat| && k < n && Suffix(pat, k, pat, n) && forall m :: k < m < n ==> !Suffix(pat, m, pat, n)
  }

  predicate LpsOk(pat: string, lps: seq<nat>, n: nat) {
    n <= |pat| && n <= |lps| && forall i :: 0 <= i < n ==> LongestBorder(pat, i + 1, lps[i])
  }

  lemma BorderOfBorder(pat: string, k: nat, m: nat, text: string, n: nat)
    requires Suffix(pat, k, text, n) && m <= k
    ensures Suffix(pat, m, text, n) <==> Suffix(pat, m, pat, k)
  {
  }

  lemma SuffixGrows(pat: string, k: nat, text: string, n: nat)
    requires n < |text|
    ensures k > 0 ==>
              (Suffix(pat, k, text, n + 1) <==> Suffix(pat, k - 1, text, n) && k <= |pat| && pat[k - 1] == text[n])
  {
  }

  /** While a longer match is sought for character text[n]: k is a candidate, and every
      longer one below limit has been ruled out. */
  predicate Candidate(pat: string, text: string, n: nat, limit: nat, k: nat) {
    && n < |text| && k < limit <= |pat| && Suffix(pat, k, text, n)
    && forall m :: k < m < limit && Suffix(pat, m, text, n) ==> pat[m] != text[n]
  }

  lemma FallBack(pat: string, lps: seq<nat>, settled: nat, text: string, n: nat, limit: nat, k: nat)
    requires Candidate(pat, text, n, limit, k) && k > 0 && pat[k] != text[n] && k <= settled && LpsOk(pat, lps, settled)
    ensures lps[k - 1] < k && Candidate(pat, text, n, limit, lps[k - 1])
  {
    assert LongestBorder(pat, k, lps[k - 1]);
    BorderOfBorder(pat, k, lps[k - 1], text, n);
    forall m | lps[k - 1] < m < limit && Suffix(pat, m, text, n)
      ensures pat[m] != text[n]
    {
      if m < k { BorderOfBorder(pat, k, m, text, n); }
    }
  }

  /** k is the longest prefix of pat, of length at most limit, that ends at n. */
  predicate Longest(pat: string, text: string, n: nat, limit: nat, k: nat) {
    k <= limit && Suffix(pat, k, text, n) && forall m :: k < m <= limit ==> !Suffix(pat, m, text, n)
  }

  lemma Settled(pat: string, text: string, n: nat, limit: nat, k: nat)
    requires Candidate(pat, text, n, limit, k) && (k == 0 || pat[k] == text[n])
    ensures Longest(pat, text, n + 1, limit, if pat[k] == text[n] then k + 1 else k)
  {
    SuffixGrows(pat, k + 1, text, n);
    var k1 := if pat[k] == text[n] then k + 1 else k;
    var n1 := n + 1;
    forall m: nat | k1 < m <= limit && Suffix(pat, m, text, n1)
      ensures false
    {
      SuffixGrows(pat, m, text, n);
    }
  }

  lemma BorderIsCandidate(pat: string, i: nat, k: nat)
    requires LongestBorder(pat, i, k) && i < |pat|
    ensures Candidate(pat, pat, i, i, k)
  {
  }

  lemma SettledBorder(pat: string, i: nat, k: nat)
    requires Candidate(pat, pat, i, i, k) && (k == 0 || pat[k] == pat[i])
    ensures LongestBorder(pat, i + 1, if pat[k] == pat[i] then k + 1 else k)
  {
    Settled(pat, pat, i, i, k);
  }

  lemma LpsExtends(pat: string, lps: seq<nat>, i: nat, k: nat)
    requires LpsOk(pat, lps, i) && i < |lps| && LongestBorder(pat, i + 1, k)
    ensures LpsOk(pat, lps[i := k], i + 1)
  {
  }

  /** build_kmp_lps. */
  method BuildLps(pat: string, lps: array<nat>) returns (r: int)
    requires lps.Length == KMP_MAX
    modifies lps
    ensures r == if |pat| > KMP_MAX then -1 else 0
    ensures r == 0 ==> LpsOk(pat, lps[..], |pat|)
  {
    hide Suffix, LongestBorder;
    var m := |pat|;
    if m == 0 { return 0; }
    if m > KMP_MAX { return -1; }
    lps[0] := 0;
    var len: nat := 0;
    SingleBorder(pat);
    for i := 1 to m
      invariant LpsOk(pat, lps[..], i) && LongestBorder(pat, i, len)
    {
      ghost var was := lps[..];
      BorderIsCandidate(pat, i, len);
      while len > 0 && pat[i] != pat[len]
        invariant lps[..] == was && Candidate(pat, pat, i, i, len)
      {
        FallBack(pat, was, i, pat, i, i, len);
        len := lps[len - 1];
      }
      SettledBorder(pat, i, len);
      if pat[i] == pat[len] {
        len := len + 1;
      }
      LpsExtends(pat, was, i, len);
      lps[i] := len;
      assert lps[..] == was[i := len];
    }
    return 0;
  }

  lemma SingleBorder(pat: string)
    requires pat != []
    ensures LongestBorder(pat, 1, 0)
  {
  }

  // ----- lines

  function Complete(data: string): seq<string> {
    if data == [] then []
    else
      var d, c := data[..|data| - 1], data[|data| - 1];
      if c == '\n' then Complete(d) + [Partial(d)] else Complete(d)
  }

  function Partial(data: string): string {
    if data == [] then []
    else
      var d, c := data[..|data| - 1], data[|data| - 1];
      if c == '\n' then [] else Partial(d) + [c]
  }

  /** The lines of the input; an unterminated last line counts if it is not empty. */
  function Lines(data: string): seq<string> {
    if Partial(data) == [] then Complete(data) else Complete(data) + [Partial(data)]
  }

  function Terminated(lines: seq<string>): string {
    if lines == [] then [] else Terminated(lines[..|lines| - 1]) + lines[|lines| - 1] + "\n"
  }

  /** Splitting loses nothing: the complete lines with their newlines, then the rest, are the input. */
  lemma {:induction false} SplitRebuilds(data: string)
    ensures Terminated(Complete(data)) + Partial(data) == data
  {
    hide Terminated;
    if data == [] {
      TerminatedMore([], []);
    } else {
      var d, ch := data[..|data| - 1], data[|data| - 1];
      SplitRebuilds(d);
      assert data == d + [ch];
      var t, p := Terminated(Complete(d)), Partial(d);
      if ch == '\n' {
        TerminatedMore(Complete(d), p);
        assert t + p + "\n" + [] == (t + p) + [ch];
      } else {
        assert t + (p + [ch]) == (t + p) + [ch];
      }
    }
  }

  lemma TerminatedMore(lines: seq<string>, line: string)
    ensures Terminated([]) == [] && Terminated(lines + [line]) == Terminated(lines) + line + "\n"
  {
    assert (lines + [line])[..|lines|] == lines;
  }

  predicate OneLine(text: string) { forall i :: 0 <= i < |text| ==> text[i] != '\n' }

  lemma {:induction false} LineGoesOn(data: string, text: string)
    requires OneLine(text)
    ensures Complete(data + text) == Complete(data) && Partial(data + text) == Partial(data) + text
    decreases |text|
  {
    if text == [] {
      assert data + text == data && Partial(data) + text == Partial(data);
    } else {
      var t, c := text[..|text| - 1], text[|text| - 1];
      LineGoesOn(data, t);
      assert (data + text)[..|data + text| - 1] == data + t;
      assert Partial(data) + t + [c] == Partial(data) + text;
    }
  }

  lemma {:induction false} TerminatedSplits(lines: seq<string>)
    requires forall k :: 0 <= k < |lines| ==> OneLine(lines[k])
    ensures Complete(Terminated(lines)) == lines && Partial(Terminated(lines)) == []
  {
    if lines != [] {
      var k := |lines| - 1;
      TerminatedSplits(lines[..k]);
      LineGoesOn(Terminated(lines[..k]), lines[k]);
      var d := Terminated(lines[..k]) + lines[k];
      assert Partial(d) == lines[k] by { assert [] + lines[k] == lines[k]; }
      ExtendByChar(d, '\n');
      assert lines[..k] + [lines[k]] == lines;
    }
  }

  /** A text written as lines is read as just these lines; what follows the last newline is one more, if anything
      does. */
  lemma LinesAre(lines: seq<string>, rest: string)
    requires OneLine(rest) && forall k :: 0 <= k < |lines| ==> OneLine(lines[k])
    ensures Complete(Terminated(lines) + rest) == lines
    ensures Lines(Terminated(lines) + rest) == lines + if rest == "" then [] else [rest]
  {
    TerminatedSplits(lines);
    LineGoesOn(Terminated(lines), rest);
    assert [] + rest == rest;
  }

  function Joined(chunks: seq<string>): string {
    if chunks == [] then [] else Joined(chunks[..|chunks| - 1]) + chunks[|chunks| - 1]
  }

  predicate Selected(line: string, pat: string, invert: bool) {
    Contains(line, pat) != invert
  }

  function CountSelected(lines: seq<string>, pat: string, invert: bool): nat {
    if lines == [] then 0
    else CountSelected(lines[..|lines| - 1], pat, invert) + (if Selected(lines[|lines| - 1], pat, invert) then 1 else 0)
  }

  /** A printed line: its number, at most 511 of its characters, and whether "..." follows. */
  datatype Shown = Shown(no: nat, text: string, more: bool)

  function Clipped(line: string, no: nat): Shown {
    if |line| < LINE_MAX then Shown(no, line, false) else Shown(no, line[..LINE_MAX - 1], true)
  }

  function ShownLines(lines: seq<string>, pat: string, invert: bool): seq<Shown> {
    if lines == [] then []
    else
      var k := |lines| - 1;
      ShownLines(lines[..k], pat, invert)
      + (if Selected(lines[k], pat, invert) then [Clipped(lines[k], k + 1)] else [])
  }

  lemma OneMore(lines: seq<string>, line: string, pat: string, invert: bool)
    ensures CountSelected(lines + [line], pat, invert) ==
            CountSelected(lines, pat, invert) + (if Selected(line, pat, invert) then 1 else 0)
    ensures ShownLines(lines + [line], pat, invert) ==
            ShownLines(lines, pat, invert) + (if Selected(line, pat, invert) then [Clipped(line, |lines| + 1)] else [])
  {
    assert (lines + [line])[..|lines|] == lines;
  }

  /** The shown line is one of the lines, selected, with its number - counted from 1 - and at most 511 of its
      characters, marked if there are more. */
  predicate Fair(lines: seq<string>, pat: string, invert: bool, shown: Shown) {
    && 1 <= shown.no <= |lines|
    && var line := lines[shown.no - 1];
       && Contains(line, pat) == !invert && shown.more == (|line| > 511)
       && shown.text == if |line| > 511 then line[..511] else line
  }

  ghost predicate Listed(out: seq<Shown>, no: nat) { exists j :: 0 <= j < |out| && out[j].no == no }

  /** What is shown are the selected lines, all of them, in order; and their number is what is counted. */
  lemma {:induction false} ShownMeans(lines: seq<string>, pat: string, invert: bool)
    ensures var out := ShownLines(lines, pat, invert);
            && |out| == CountSelected(lines, pat, invert)
            && (forall j, k :: 0 <= j < k < |out| ==> out[j].no < out[k].no)
            && (forall j :: 0 <= j < |out| ==> Fair(lines, pat, invert, out[j]))
            && (forall i :: 0 <= i < |lines| && Contains(lines[i], pat) == !invert ==> Listed(out, i + 1))
  {
    hide Contains, Fair, Listed, Clipped;
    if lines != [] {
      var n := |lines| - 1;
      ShownMeans(lines[..n], pat, invert);
      var before := ShownLines(lines[..n], pat, invert);
      forall s: Shown | Fair(lines[..n], pat, invert, s)
        ensures Fair(lines, pat, invert, s) && s.no <= n
      {
        FairStays(lines, pat, invert, s);
      }
      ListedStays(before, Clipped(lines[n], n + 1));
      assert before + [] == before;
      LastFair(lines, pat, invert);
      forall i | 0 <= i < |lines| && Contains(lines[i], pat) == !invert
        ensures Listed(ShownLines(lines, pat, invert), i + 1)
      {
        if i < n { assert lines[..n][i] == lines[i] && Listed(before, i + 1); }
      }
    }
  }

  lemma FairStays(lines: seq<string>, pat: string, invert: bool, s: Shown)
    requires lines != [] && Fair(lines[..|lines| - 1], pat, invert, s)
    ensures Fair(lines, pat, invert, s) && s.no < |lines|
  {
  }

  lemma LastFair(lines: seq<string>, pat: string, invert: bool)
    requires lines != []
    ensures var last := Clipped(lines[|lines| - 1], |lines|);
            last.no == |lines| && (Selected(lines[|lines| - 1], pat, invert) ==> Fair(lines, pat, invert, last))
  {
  }

  lemma ListedStays(out: seq<Shown>, last: Shown)
    ensures Listed(out + [last], last.no) && forall no :: Listed(out, no) ==> Listed(out + [last], no)
  {
    var all := out + [last];
    assert all[|out|].no == last.no;
    forall no | Listed(out, no)
      ensures Listed(all, no)
    {
      var j :| 0 <= j < |out| && out[j].no == no;
      assert all[j].no == no;
    }
  }

  predicate Around(text: string, before: string, pat: string, after: string) { text == before + pat + after }

  /** The pattern is looked for as it stands, anywhere in the line. */
  lemma ContainsMeans(text: string, pat: string)
    ensures Contains(text, pat) <==> exists before, after :: Around(text, before, pat, after)
  {
    if before, after :| Around(text, before, pat, after) {
      assert OccursAt(text, pat, |before|);
    }
    if i: nat :| i <= |text| && OccursAt(text, pat, i) {
      assert text[i..i + |pat|] == pat;
      assert Around(text, text[..i], pat, text[i + |pat|..]);
    }
  }

  // ----- the matcher's state within a line

  /** The automaton after the current line's text so far: it has matched, or k is the
      longest prefix of the pattern that ends here. */
  predicate LineState(pat: string, line: string, k: nat, hit: bool) {
    && (hit <==> Contains(line, pat))
    && (!hit ==> k < |pat| && Longest(pat, line, |line|, |pat|, k))
  }

  lemma ContainsGrows(line: string, c: char, pat: string)
    requires pat != []
    ensures Contains(line + [c], pat) <==> Contains(line, pat) || Suffix(pat, |pat|, line + [c], |line| + 1)
  {
    var l := line + [c];
    if i: nat :| i <= |line| && OccursAt(line, pat, i) {
      assert OccursAt(l, pat, i);
    }
    if i: nat :| i <= |l| && OccursAt(l, pat, i) {
      if i + |pat| <= |line| {
        assert OccursAt(line, pat, i);
      }
    }
    if Suffix(pat, |pat|, l, |l|) {
      assert OccursAt(l, pat, |l| - |pat|);
    }
  }

  /** The matcher's step on one character. */
  method Advance(pat: string, lps: array<nat>, k0: nat, hit0: bool, c: char, ghost line: string)
    returns (k: nat, hit: bool)
    requires lps.Length == KMP_MAX && LpsOk(pat, lps[..], |pat|) && LineState(pat, line, k0, hit0)
    ensures LineState(pat, line + [c], k, hit)
  {
    k, hit := k0, hit0;
    ghost var text := line + [c];
    if pat != [] { ContainsGrows(line, c, pat); }
    if !hit && |pat| != 0 {
      assert Candidate(pat, text, |line|, |pat|, k) by { StillSuffix(pat, line, c); }
      while k > 0 && c != pat[k]
        invariant Candidate(pat, text, |line|, |pat|, k)
      {
        FallBack(pat, lps[..], |pat|, text, |line|, |pat|, k);
        k := lps[k - 1];
      }
      Settled(pat, text, |line|, |pat|, k);
      if c == pat[k] {
        k := k + 1;
        if k == |pat| {
          hit := true;
          k := lps[k - 1];
        }
      }
    } else if |pat| == 0 {
      assert OccursAt(text, pat, 0);
    }
  }

  lemma StillSuffix(pat: string, line: string, c: char)
    ensures forall m: nat :: Suffix(pat, m, line + [c], |line|) <==> Suffix(pat, m, line, |line|)
  {
  }

  lemma FreshLine(pat: string)
    ensures LineState(pat, "", 0, pat == [])
  {
    if pat == [] { assert OccursAt("", pat, 0); }
  }

  // ----- a whole file

  /** What the line buffer holds of a line: at most its first 511 characters. */
  predicate Stored(buffer: string, trunc: bool, line: string) {
    trunc == (|line| >= LINE_MAX) && buffer == if trunc then line[..LINE_MAX - 1] else line
  }

  /** The counters after reading data. */
  predicate Accounts(data: string, pat: string, v: bool, c: bool, lineNo: nat, count: nat, any: bool, out: seq<Shown>) {
    && lineNo == |Complete(data)| + 1
    && count == CountSelected(Complete(data), pat, v)
    && any == (count > 0)
    && out == if c then [] else ShownLines(Complete(data), pat, v)
  }

  lemma {:induction false} CompleteGrows(data: string, more: string)
    ensures Complete(data) <= Complete(data + more)
    decreases |more|
  {
    if more == [] {
      assert data + more == data;
    } else {
      var m := more[..|more| - 1];
      CompleteGrows(data, m);
      assert (data + more)[..|data + more| - 1] == data + m;
    }
  }

  lemma {:induction false} CountGrows(a: seq<string>, b: seq<string>, pat: string, v: bool)
    requires a <= b
    ensures CountSelected(a, pat, v) <= CountSelected(b, pat, v)
    decreases |b|
  {
    if |a| < |b| {
      assert a <= b[..|b| - 1];
      CountGrows(a, b[..|b| - 1], pat, v);
    } else {
      assert a == b;
    }
  }

  lemma ExtendByChar(data: string, ch: char)
    ensures Complete(data + [ch]) == if ch == '\n' then Complete(data) + [Partial(data)] else Complete(data)
    ensures Partial(data + [ch]) == if ch == '\n' then [] else Partial(data) + [ch]
  {
  }

  lemma AtStart(pat: string, v: bool, c: bool)
    ensures Joined([]) == "" && Accounts("", pat, v, c, 1, 0, false, [])
    ensures Stored("", false, Partial("")) && LineState(pat, Partial(""), 0, |pat| == 0)
  {
    FreshLine(pat);
  }

  lemma LineDecides(pat: string, line: string, k: nat, hit: bool, v: bool)
    requires LineState(pat, line, k, hit)
    ensures hit != v <==> Selected(line, pat, v)
  {
  }

  /** A newline settles the current line. */
  lemma LineEnds(data: string, pat: string, v: bool, c: bool, lineNo: nat, count: nat, any: bool, out: seq<Shown>,
                 buffer: string, trunc: bool, k: nat, hit: bool)
    requires Accounts(data, pat, v, c, lineNo, count, any, out)
    requires Stored(buffer, trunc, Partial(data)) && LineState(pat, Partial(data), k, hit)
    ensures hit == v ==> Accounts(data + ['\n'], pat, v, c, lineNo + 1, count, any, out)
    ensures hit != v ==> Accounts(data + ['\n'], pat, v, c, lineNo + 1, count + 1, true,
                                  if c then out else out + [Shown(lineNo, buffer, trunc)])
    ensures Stored("", false, Partial(data + ['\n'])) && LineState(pat, Partial(data + ['\n']), 0, |pat| == 0)
  {
    hide LineState;
    ExtendByChar(data, '\n');
    LineDecides(pat, Partial(data), k, hit, v);
    OneMore(Complete(data), Partial(data), pat, v);
    FreshLine(pat);
  }

  /** The counters once the file has ended. */
  predicate Totals(data: string, pat: string, v: bool, c: bool, count: nat, any: bool, out: seq<Shown>) {
    && count == CountSelected(Lines(data), pat, v)
    && any == (count > 0)
    && out == if c then [] else ShownLines(Lines(data), pat, v)
  }

  /** The end of the file settles an unterminated line. */
  lemma FileEnds(data: string, pat: string, v: bool, c: bool, lineNo: nat, count: nat, any: bool, out: seq<Shown>,
                 buffer: string, trunc: bool, k: nat, hit: bool)
    requires Accounts(data, pat, v, c, lineNo, count, any, out)
    requires Stored(buffer, trunc, Partial(data)) && LineState(pat, Partial(data), k, hit)
    ensures |buffer| == 0 && !trunc ==> Totals(data, pat, v, c, count, any, out)
    ensures !(|buffer| == 0 && !trunc) && hit == v ==> Totals(data, pat, v, c, count, any, out)
    ensures !(|buffer| == 0 && !trunc) && hit != v ==>
              Totals(data, pat, v, c, count + 1, true, if c then out else out + [Shown(lineNo, buffer, trunc)])
  {
    hide LineState;
    LineDecides(pat, Partial(data), k, hit, v);
    OneMore(Complete(data), Partial(data), pat, v);
  }

  /** A line once selected stays selected however the file goes on. */
  lemma SelectedStays(chunks: seq<string>, j: nat, i: nat, data: string,
                      pat: string, v: bool, c: bool, lineNo: nat, count: nat, any: bool, out: seq<Shown>)
    requires j < |chunks| && i <= |chunks[j]| && data == Joined(chunks[..j]) + chunks[j][..i]
    requires Accounts(data, pat, v, c, lineNo, count, any, out) && count > 0
    ensures CountSelected(Judged(chunks, false), pat, v) > 0 && CountSelected(Judged(chunks, true), pat, v) > 0
  {
    Prefix(chunks, j, i, data);
    CountGrows(Complete(data), Complete(Joined(chunks)), pat, v);
    CountGrows(Complete(data), Lines(Joined(chunks)), pat, v);
  }

  /** The lines a file gets to have judged: all of them, or the complete ones when reading fails after these chunks. */
  function Judged(chunks: seq<string>, failed: bool): seq<string> {
    if failed then Complete(Joined(chunks)) else Lines(Joined(chunks))
  }

  /** Whatever the chunks, these are the lines up to the last newline, and what follows it only if the file ends. */
  lemma JudgedMeans(chunks: seq<string>, failed: bool, lines: seq<string>, rest: string)
    requires Joined(chunks) == Terminated(lines) + rest
    requires OneLine(rest) && forall k :: 0 <= k < |lines| ==> OneLine(lines[k])
    ensures Judged(chunks, failed) == lines + if failed || rest == "" then [] else [rest]
  {
    LinesAre(lines, rest);
  }

  /** What grep_fd answers about these lines. In quiet mode it returns 1 as soon as a line is selected; otherwise it
      counts, and unless only counting shows, every selected line. After a failed read the answer is -1 and the
      counters are not handed out. */
  ghost predicate GrepOutcome(lines: seq<string>, failed: bool, pat: string, v: bool, c: bool, q: bool,
                              rc: int, count: nat, any: bool, out: seq<Shown>)
  {
    var n := CountSelected(lines, pat, v);
    if q && n > 0 then rc == 1 && count == 1 && any && out == []
    else
      && rc == (if failed then -1 else 0) && count == (if failed then 0 else n) && any == (count > 0)
      && out == if c || q then [] else ShownLines(lines, pat, v)
  }

  /** grep_fd on a file delivered in arbitrary read chunks, after which it ends or reading fails. */
  method GrepFd(chunks: seq<string>, failed: bool, pat: string, lps: array<nat>, v: bool, c: bool, q: bool)
    returns (rc: int, count: nat, any: bool, out: seq<Shown>)
    requires lps.Length == KMP_MAX && LpsOk(pat, lps[..], |pat|)
    ensures GrepOutcome(Judged(chunks, failed), failed, pat, v, c, q, rc, count, any, out)
  {
    hide Complete, Partial, CountSelected, ShownLines, Selected, LineState, LpsOk, Joined, Lines, Accounts;
    var lineNo: nat := 1;
    var buffer, trunc, hit := "", false, |pat| == 0;
    var k: nat := 0;
    rc, count, any, out := 0, 0, false, [];
    ghost var data := "";
    AtStart(pat, v, c);
    for j := 0 to |chunks|
      invariant data == Joined(chunks[..j])
      invariant Accounts(data, pat, v, c, lineNo, count, any, out) && (q ==> count == 0 && out == [])
      invariant Stored(buffer, trunc, Partial(data)) && LineState(pat, Partial(data), k, hit)
    {
      var chunk := chunks[j];
      for i := 0 to |chunk|
        invariant data == Joined(chunks[..j]) + chunk[..i]
        invariant Accounts(data, pat, v, c, lineNo, count, any, out) && (q ==> count == 0 && out == [])
        invariant Stored(buffer, trunc, Partial(data)) && LineState(pat, Partial(data), k, hit)
      {
        var ch := chunk[i];
        assert chunk[..i + 1] == chunk[..i] + [ch];
        ExtendByChar(data, ch);
        if ch == '\n' {
          LineEnds(data, pat, v, c, lineNo, count, any, out, buffer, trunc, k, hit);
          data := data + [ch];
          if hit != v {
            any := true;
            count := count + 1;
            if q {
              SelectedStays(chunks, j, i + 1, data, pat, v, c, lineNo + 1, count, any,
                            if c then out else out + [Shown(lineNo, buffer, trunc)]);
              return 1, count, any, out;
            }
            if !c {
              out := out + [Shown(lineNo, buffer, trunc)];
            }
          }
          lineNo := lineNo + 1;
          buffer, trunc, k, hit := "", false, 0, |pat| == 0;
          continue;
        }
        SameLines(data, ch, pat, v, c, lineNo, count, any, out);
        if !trunc {
          if |buffer| + 1 < LINE_MAX {
            buffer := buffer + [ch];
          } else {
            trunc := true;
          }
        }
        k, hit := Advance(pat, lps, k, hit, ch, Partial(data));
        data := data + [ch];
      }
      assert chunk[..|chunk|] == chunk;
      JoinOne(chunks, j);
    }
    assert chunks[..|chunks|] == chunks;
    if failed {
      Unfinished(data, pat, v, c, lineNo, count, any, out);
      return -1, 0, false, out;
    }
    FileEnds(data, pat, v, c, lineNo, count, any, out, buffer, trunc, k, hit);
    if |buffer| > 0 || trunc {
      if hit != v {
        any := true;
        count := count + 1;
        if q {
          return 1, count, any, out;
        }
        if !c {
          out := out + [Shown(lineNo, buffer, trunc)];
        }
      }
    }
  }

  /** Reading failed: what was settled so far is the complete lines. */
  lemma Unfinished(data: string, pat: string, v: bool, c: bool, lineNo: nat, count: nat, any: bool, out: seq<Shown>)
    requires Accounts(data, pat, v, c, lineNo, count, any, out)
    ensures count == CountSelected(Complete(data), pat, v)
    ensures out == if c then [] else ShownLines(Complete(data), pat, v)
  {
  }

  lemma SameLines(data: string, ch: char, pat: string, v: bool, c: bool, lineNo: nat, count: nat, any: bool,
                  out: seq<Shown>)
    requires Accounts(data, pat, v, c, lineNo, count, any, out) && ch != '\n'
    ensures Accounts(data + [ch], pat, v, c, lineNo, count, any, out)
  {
  }

  lemma JoinOne(chunks: seq<string>, j: nat)
    requires j < |chunks|
    ensures Joined(chunks[..j + 1]) == Joined(chunks[..j]) + chunks[j]
  {
    assert chunks[..j + 1][..j] == chunks[..j];
  }

  lemma {:induction false} Prefix(chunks: seq<string>, j: nat, i: nat, data: string)
    requires j < |chunks| && i <= |chunks[j]| && data == Joined(chunks[..j]) + chunks[j][..i]
    ensures Complete(data) <= Complete(Joined(chunks)) <= Lines(Joined(chunks))
    decreases |chunks|
  {
    JoinsGrow(chunks, j + 1);
    JoinOne(chunks, j);
    var all := Joined(chunks);
    assert chunks[j] == chunks[j][..i] + chunks[j][i..];
    assert data <= all;
    CompleteGrows(data, all[|data|..]);
    assert data + all[|data|..] == all;
  }

  lemma {:induction false} JoinsGrow(chunks: seq<string>, j: nat)
    requires j <= |chunks|
    ensures Joined(chunks[..j]) <= Joined(chunks)
    decreases |chunks|
  {
    if j < |chunks| {
      var s := chunks[..|chunks| - 1];
      JoinsGrow(s, j);
      assert s[..j] == chunks[..j];
    } else {
      assert chunks[..j] == chunks;
    }
  }

  /** grep on its standard input: exit status 2 for a pattern the table cannot hold or a failed read - unless
      -q has its answer before -, else 0 or 1 by whether some line is selected, whatever the chunks. */
  method GrepInput(chunks: seq<string>, failed: bool, pat: string, v: bool, c: bool, q: bool)
    returns (status: int, count: nat, out: seq<Shown>)
    ensures var some := exists line :: line in Judged(chunks, failed) && Selected(line, pat, v);
            status == if |pat| > 128 || (failed && !(q && some)) then 2 else if some then 0 else 1
    ensures status != 2 && !q ==> count == CountSelected(Judged(chunks, failed), pat, v)
    ensures |pat| <= 128 ==> out == if c || q then [] else ShownLines(Judged(chunks, failed), pat, v)
  {
    hide Judged, CountSelected;
    var lps := new nat[KMP_MAX];
    if |pat| > 0 {
      var r := BuildLps(pat, lps);
      if r != 0 { return 2, 0, []; }
    }
    var rc, n, any, shown := GrepFd(chunks, failed, pat, lps, v, c, q);
    CountPositive(Judged(chunks, failed), pat, v);
    if rc < 0 { return 2, 0, shown; }
    return if any then 0 else 1, n, shown;
  }

  lemma {:induction false} CountPositive(lines: seq<string>, pat: string, v: bool)
    ensures CountSelected(lines, pat, v) > 0 <==> exists line :: line in lines && Selected(line, pat, v)
  {
    if lines != [] {
      var s := lines[..|lines| - 1];
      CountPositive(s, pat, v);
      assert lines == s + [lines[|lines| - 1]];
    }
  }
}
