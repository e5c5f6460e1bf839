/** The whitespace collapse at the end of `clean_email_content`, and the
    empty-input guard and decode-or-keep shape around it. Python's own string
    primitives (`str.strip`, `str.splitlines`, `str.split("  ")`,
    `" ".join`) are written out here with their exact edge cases. */
module Text {
  import opened Wrappers
  import opened Seqs

  /** The characters `str.isspace()` accepts, which `str.strip()` removes. */
  predicate IsSpace(c: char) {
    || ('\t' <= c <= '\r')
    || ('\U{1C}' <= c <= ' ')
    || c == '\U{85}' || c == '\U{A0}' || c == '\U{1680}'
    || ('\U{2000}' <= c <= '\U{200A}')
    || c == '\U{2028}' || c == '\U{2029}' || c == '\U{202F}' || c == '\U{205F}' || c == '\U{3000}'
  }

  /** The line boundaries of `str.splitlines()` ("\r\n" counts as one). */
  predicate IsLineBreak(c: char) {
    || ('\n' <= c <= '\r')
    || ('\U{1C}' <= c <= '\U{1E}')
    || c == '\U{85}' || c == '\U{2028}' || c == '\U{2029}'
  }

  predicate NoLineBreak(s: string) {
    forall i :: 0 <= i < |s| ==> !IsLineBreak(s[i])
  }

  /** Positions i and i + 1 of `s` are both spaces. */
  predicate SpacePairAt(s: string, i: nat)
    requires i + 1 < |s|
  {
    s[i] == ' ' && s[i + 1] == ' '
  }

  predicate NoDoubleSpace(s: string) {
    forall i :: 0 <= i < |s| - 1 ==> !SpacePairAt(s, i)
  }

  /** Every character is whitespace. */
  predicate IsBlank(s: string) {
    forall i :: 0 <= i < |s| ==> IsSpace(s[i])
  }

  /** Neither end of `s` is whitespace (vacuously so for ""). */
  predicate Trimmed(s: string) {
    s == [] || (!IsSpace(s[0]) && !IsSpace(s[|s| - 1]))
  }

  /** What the collapse promises of its output: one line, no two spaces in a
      row, no whitespace at either end. */
  predicate IsCollapsed(s: string) {
    NoLineBreak(s) && NoDoubleSpace(s) && Trimmed(s)
  }

  /** One fragment that survives the collapse. */
  predicate IsChunk(s: string) {
    s != [] && Trimmed(s) && NoLineBreak(s) && NoDoubleSpace(s)
  }

  /** The non-whitespace characters of `s`, in order. */
  function Visible(s: string): string
  {
    if s == [] then [] else (if IsSpace(s[0]) then [] else [s[0]]) + Visible(s[1..])
  }

  lemma {:induction false} VisibleAppend(a: string, b: string)
    ensures Visible(a + b) == Visible(a) + Visible(b)
    decreases |a|
  {
    if a == [] {
      assert a + b == b;
    } else {
      assert (a + b)[1..] == a[1..] + b;
      VisibleAppend(a[1..], b);
    }
  }

  lemma {:induction false} VisibleOfSpaces(s: string)
    requires forall i :: 0 <= i < |s| ==> IsSpace(s[i])
    ensures Visible(s) == []
    decreases |s|
  {
    if s != [] {
      VisibleOfSpaces(s[1..]);
    }
  }

  /** The first position at or after i that is not whitespace, or |s|. */
  function SkipSpaces(s: string, i: nat): (n: nat)
    requires i <= |s|
    ensures i <= n <= |s|
    ensures forall k :: i <= k < n ==> IsSpace(s[k])
    ensures n < |s| ==> !IsSpace(s[n])
    decreases |s| - i
  {
    if i < |s| && IsSpace(s[i]) then SkipSpaces(s, i + 1) else i
  }

  /** The position after the last non-whitespace character of s[lo..j], or
      lo when there is none. */
  function BackSpaces(s: string, lo: nat, j: nat): (n: nat)
    requires lo <= j <= |s|
    ensures lo <= n <= j
    ensures forall k :: n <= k < j ==> IsSpace(s[k])
    ensures n > lo ==> !IsSpace(s[n - 1])
    decreases j
  {
    if j > lo && IsSpace(s[j - 1]) then BackSpaces(s, lo, j - 1) else j
  }

  /** An infix of a one-line string is one line, and an infix of a string
      without "  " has none. */
  lemma InfixKeepsShape(s: string, r: string, a: nat)
    requires a + |r| <= |s| && r == s[a..a + |r|]
    ensures NoLineBreak(s) ==> NoLineBreak(r)
    ensures NoDoubleSpace(s) ==> NoDoubleSpace(r)
  {
    forall i | 0 <= i < |r|
      ensures r[i] == s[a + i]
    {
    }
    if NoDoubleSpace(s) {
      forall i | 0 <= i < |r| - 1
        ensures !SpacePairAt(r, i)
      {
        assert !SpacePairAt(s, a + i);
      }
    }
  }

  /** `s.strip()`: `s` without its leading and trailing whitespace. */
  function Strip(s: string): (r: string)
    ensures Trimmed(r)
  {
    var a := SkipSpaces(s, 0);
    var b := BackSpaces(s, a, |s|);
    s[a..b]
  }

  /** A stripped line is still one line and gains no "  ". */
  lemma StripKeepsShape(s: string)
    ensures NoLineBreak(s) ==> NoLineBreak(Strip(s))
    ensures NoDoubleSpace(s) ==> NoDoubleSpace(Strip(s))
  {
    InfixKeepsShape(s, Strip(s), SkipSpaces(s, 0));
  }

  /** `strip` returns an infix of `s` and removes only whitespace on either
      side of it. */
  lemma StripSpec(s: string)
    ensures var a, r := SkipSpaces(s, 0), Strip(s);
            a + |r| <= |s| && r == s[a..a + |r|]
            && (forall k :: 0 <= k < a ==> IsSpace(s[k]))
            && (forall k :: a + |r| <= k < |s| ==> IsSpace(s[k]))
  {
  }

  /** Leading whitespace carries no visible character. */
  lemma {:induction false} VisibleDropBlank(s: string, a: nat)
    requires a <= |s| && forall k :: 0 <= k < a ==> IsSpace(s[k])
    ensures Visible(s[a..]) == Visible(s)
    decreases a
  {
    if a == 0 {
      assert s[0..] == s;
    } else {
      var t := s[1..];
      assert forall k :: 0 <= k < a - 1 ==> t[k] == s[k + 1];
      VisibleDropBlank(t, a - 1);
      assert t[a - 1..] == s[a..];
    }
  }

  /** Trailing whitespace carries no visible character. */
  lemma {:induction false} VisibleTakeBlank(s: string, b: nat)
    requires b <= |s| && forall k :: b <= k < |s| ==> IsSpace(s[k])
    ensures Visible(s[..b]) == Visible(s)
    decreases |s| - b
  {
    if b == |s| {
      assert s[..b] == s;
    } else {
      var c := s[|s| - 1];
      var p := s[..|s| - 1];
      VisibleTakeBlank(p, b);
      assert p[..b] == s[..b];
      assert s == p + [c];
      VisibleAppend(p, [c]);
      assert [c][1..] == [];
    }
  }

  /** Whitespace from i to j carries no visible character. */
  lemma {:induction false} VisibleDropRun(s: string, i: nat, j: nat)
    requires i <= j <= |s|
    requires forall k :: i <= k < j ==> IsSpace(s[k])
    ensures Visible(s[i..]) == Visible(s[j..])
    decreases j - i
  {
    if i < j {
      assert s[i..][0] == s[i] && s[i..][1..] == s[i + 1..];
      VisibleDropRun(s, i + 1, j);
    }
  }

  /** Dropping a run of whitespace from the middle of `s` keeps its visible
      characters. */
  lemma {:induction false} VisibleSkip(s: string, i: nat, j: nat)
    requires i <= j <= |s|
    requires forall k :: i <= k < j ==> IsSpace(s[k])
    ensures Visible(s) == Visible(s[..i]) + Visible(s[j..])
  {
    assert s[..i] + s[i..] == s;
    VisibleAppend(s[..i], s[i..]);
    VisibleDropRun(s, i, j);
  }

  /** Stripping keeps the visible characters. */
  lemma {:induction false} StripVisible(s: string)
    ensures Visible(Strip(s)) == Visible(s)
  {
    var a := SkipSpaces(s, 0);
    var b := BackSpaces(s, a, |s|);
    var u := s[..b];
    VisibleTakeBlank(s, b);
    VisibleDropBlank(u, a);
  }

  /** A string whose ends are not whitespace is its own strip. */
  lemma StripTrimmed(s: string)
    requires Trimmed(s)
    ensures Strip(s) == s
  {
  }

  /** Index of the first line boundary of `s`, or |s| when it has none. */
  function LineBreakAt(s: string): (i: nat)
    ensures i <= |s|
    ensures i < |s| ==> IsLineBreak(s[i])
    ensures NoLineBreak(s[..i])
  {
    if s == [] || IsLineBreak(s[0]) then 0
    else
      var i := 1 + LineBreakAt(s[1..]);
      assert forall j :: 1 <= j < i ==> s[..i][j] == s[1..][..i - 1][j - 1];
      i
  }

  /** The length of the line boundary at position i: 2 for "\r\n", else 1. */
  function BreakLength(s: string, i: nat): (n: nat)
    requires i < |s|
    ensures n == 1 || n == 2
    ensures i + n <= |s|
  {
    if s[i] == '\r' && i + 1 < |s| && s[i + 1] == '\n' then 2 else 1
  }

  /** `s.splitlines()`: "" gives no line, a final boundary opens no empty
      line, and "\r\n" is a single boundary. */
  function SplitLines(s: string): (lines: seq<string>)
    ensures forall k :: 0 <= k < |lines| ==> NoLineBreak(lines[k])
    ensures s == [] <==> lines == []
    decreases |s|
  {
    if s == [] then []
    else
      var i := LineBreakAt(s);
      if i == |s| then [s]
      else
        [s[..i]] + SplitLines(s[i + BreakLength(s, i)..])
  }

  /** Index of the first "  " in `s`, or |s| when there is none. */
  function DoubleSpaceAt(s: string): (i: nat)
    ensures i <= |s|
    ensures i < |s| ==> i + 1 < |s| && SpacePairAt(s, i)
    ensures forall j :: 0 <= j < i && j + 1 < |s| ==> !SpacePairAt(s, j)
  {
    if |s| < 2 then |s|
    else if s[0] == ' ' && s[1] == ' ' then 0
    else
      var i := 1 + DoubleSpaceAt(s[1..]);
      assert forall j :: 0 < j < |s| - 1 ==> SpacePairAt(s, j) == SpacePairAt(s[1..], j - 1);
      i
  }

  /** `s.split("  ")`: cut at each leftmost non-overlapping "  "; always at
      least one piece. */
  function SplitOnDoubleSpace(s: string): (pieces: seq<string>)
    ensures |pieces| >= 1
    ensures forall k :: 0 <= k < |pieces| ==> NoDoubleSpace(pieces[k])
    ensures NoLineBreak(s) ==> forall k :: 0 <= k < |pieces| ==> NoLineBreak(pieces[k])
    decreases |s|
  {
    var i := DoubleSpaceAt(s);
    if i == |s| then [s]
    else
      assert forall j :: 0 <= j < i - 1 ==> SpacePairAt(s[..i], j) == SpacePairAt(s, j);
      [s[..i]] + SplitOnDoubleSpace(s[i + 2..])
  }

  predicate AllChunks(cs: seq<string>) {
    forall k :: 0 <= k < |cs| ==> IsChunk(cs[k])
  }

  lemma AllChunksAppend(a: seq<string>, b: seq<string>)
    requires AllChunks(a) && AllChunks(b)
    ensures AllChunks(a + b)
  {
    forall k | 0 <= k < |a + b| ensures IsChunk((a + b)[k]) {
      if k < |a| { assert (a + b)[k] == a[k]; } else { assert (a + b)[k] == b[k - |a|]; }
    }
  }

  /** Every piece is one line without "  ". */
  predicate AllPlain(pieces: seq<string>) {
    forall k :: 0 <= k < |pieces| ==> NoLineBreak(pieces[k]) && NoDoubleSpace(pieces[k])
  }

  /** Strips each piece and keeps the non-empty ones (`if chunk`). */
  function KeepStripped(pieces: seq<string>): (kept: seq<string>)
    ensures |kept| <= |pieces|
    ensures forall k :: 0 <= k < |kept| ==> kept[k] != [] && Trimmed(kept[k])
  {
    if pieces == [] then []
    else
      var c := Strip(pieces[0]);
      (if c == [] then [] else [c]) + KeepStripped(pieces[1..])
  }

  lemma {:induction false} KeepStrippedChunks(pieces: seq<string>)
    requires AllPlain(pieces)
    ensures AllChunks(KeepStripped(pieces))
    decreases |pieces|
  {
    if pieces != [] {
      var c := Strip(pieces[0]);
      var rest := KeepStripped(pieces[1..]);
      assert AllPlain(pieces[1..]) by {
        assert forall k :: 0 <= k < |pieces[1..]| ==> pieces[1..][k] == pieces[k + 1];
      }
      KeepStrippedChunks(pieces[1..]);
      if c == [] {
        assert KeepStripped(pieces) == rest;
      } else {
        assert NoLineBreak(pieces[0]) && NoDoubleSpace(pieces[0]);
        StripKeepsShape(pieces[0]);
        assert AllChunks([c]);
        assert KeepStripped(pieces) == [c] + rest;
        AllChunksAppend([c], rest);
      }
    }
  }

  /** The fragments of one line: strip it, split on "  ", strip the pieces,
      drop the empty ones. */
  function LineChunks(line: string): (chunks: seq<string>)
    ensures NoLineBreak(line) ==> AllChunks(chunks)
  {
    var pieces := SplitOnDoubleSpace(Strip(line));
    if NoLineBreak(line) then
      StripKeepsShape(line);
      KeepStrippedChunks(pieces);
      KeepStripped(pieces)
    else
      KeepStripped(pieces)
  }

  function Chunks(lines: seq<string>): (chunks: seq<string>)
    ensures (forall k :: 0 <= k < |lines| ==> NoLineBreak(lines[k]))
            ==> forall k :: 0 <= k < |chunks| ==> IsChunk(chunks[k])
  {
    if lines == [] then [] else LineChunks(lines[0]) + Chunks(lines[1..])
  }

  /** Gluing two pieces with one space adds no "  " when neither piece has
      a space at the seam. */
  lemma NoDoubleSpaceGlue(a: string, b: string)
    requires NoDoubleSpace(a) && NoDoubleSpace(b)
    requires a != [] && a[|a| - 1] != ' ' && b != [] && b[0] != ' '
    ensures NoDoubleSpace(a + " " + b)
  {
    var s := a + " " + b;
    forall i | 0 <= i < |s| - 1
      ensures !SpacePairAt(s, i)
    {
      if i < |a| - 1 {
        assert s[i] == a[i] && s[i + 1] == a[i + 1];
        assert !SpacePairAt(a, i);
      } else if i == |a| - 1 {
        assert s[i] == a[|a| - 1];
      } else if i == |a| {
        assert s[i + 1] == b[0];
      } else {
        assert s[i] == b[i - |a| - 1] && s[i + 1] == b[i - |a|];
        assert !SpacePairAt(b, i - |a| - 1);
      }
    }
  }

  /** `sep.join(xs)`: joined with " ", chunks give collapsed text. */
  function Join(sep: string, xs: seq<string>): (r: string)
    ensures sep == " " && (forall k :: 0 <= k < |xs| ==> IsChunk(xs[k]))
            ==> IsCollapsed(r) && (xs != [] ==> r != [])
  {
    if xs == [] then ""
    else if |xs| == 1 then xs[0]
    else
      var rest := Join(sep, xs[1..]);
      var r := xs[0] + sep + rest;
      if sep == " " && forall k :: 0 <= k < |xs| ==> IsChunk(xs[k]) then
        assert IsChunk(xs[1]);
        NoDoubleSpaceGlue(xs[0], rest);
        assert r[0] == xs[0][0] && r[|r| - 1] == rest[|rest| - 1];
        r
      else
        r
  }

  /** The whitespace collapse of `clean_email_content`: split into lines,
      strip each, split on "  ", strip the pieces, drop empty ones, join
      with single spaces. */
  function Collapse(text: string): (r: string)
    ensures IsCollapsed(r)
  {
    Join(" ", Chunks(SplitLines(text)))
  }

  lemma SplitLinesOfOneLine(s: string)
    requires s != [] && NoLineBreak(s)
    ensures SplitLines(s) == [s]
  {
    assert LineBreakAt(s) == |s|;
  }

  lemma SplitOfNoDoubleSpace(s: string)
    requires NoDoubleSpace(s)
    ensures SplitOnDoubleSpace(s) == [s]
  {
    assert DoubleSpaceAt(s) == |s|;
  }

  /** A collapsed string is a fixed point of the collapse. */
  lemma CollapseFixesCollapsed(s: string)
    requires IsCollapsed(s)
    ensures Collapse(s) == s
  {
    if s != [] {
      SplitLinesOfOneLine(s);
      StripTrimmed(s);
      SplitOfNoDoubleSpace(s);
      assert KeepStripped([s]) == [s] by {
        assert [s][1..] == [];
      }
      assert LineChunks(s) == [s];
      assert Chunks([s]) == [s] by {
        assert [s][1..] == [];
      }
    }
  }

  /** Collapsing twice is collapsing once. */
  lemma CollapseIdempotent(text: string)
    ensures Collapse(Collapse(text)) == Collapse(text)
  {
    CollapseFixesCollapsed(Collapse(text));
  }

  // ----- the splits are undone by putting the separators back -----

  /** Joining a list of two or more strings puts the separator after the first. */
  lemma JoinCons(sep: string, x: string, rest: seq<string>)
    requires rest != []
    ensures Join(sep, [x] + rest) == x + sep + Join(sep, rest)
  {
    assert ([x] + rest)[1..] == rest;
  }

  /** Cutting out the double space at `i` and putting it back gives `s`. */
  lemma CutAroundDoubleSpace(s: string, i: nat)
    requires i + 1 < |s| && s[i] == ' ' && s[i + 1] == ' '
    ensures s[..i] + "  " + s[i + 2..] == s
  {
    assert forall k :: 0 <= k < |s| ==> (s[..i] + "  " + s[i + 2..])[k] == s[k];
  }

  /** One step of the double-space split. */
  lemma {:induction false} SplitOnDoubleSpaceStep(s: string, i: nat)
    requires i == DoubleSpaceAt(s) && i < |s|
    ensures SplitOnDoubleSpace(s) == [s[..i]] + SplitOnDoubleSpace(s[i + 2..])
  {
  }

  /** `"  ".join(s.split("  ")) == s`. */
  lemma {:induction false} SplitOnDoubleSpaceRoundTrip(s: string)
    ensures Join("  ", SplitOnDoubleSpace(s)) == s
    decreases |s|
  {
    var i := DoubleSpaceAt(s);
    if i < |s| {
      SplitOnDoubleSpaceStep(s, i);
      SplitOnDoubleSpaceRoundTrip(s[i + 2..]);
      JoinCons("  ", s[..i], SplitOnDoubleSpace(s[i + 2..]));
      CutAroundDoubleSpace(s, i);
    } else {
      assert SplitOnDoubleSpace(s) == [s];
    }
  }

  /** `s.splitlines(keepends=True)`: the same lines, each still followed by
      its boundary. */
  function SplitLinesKeepEnds(s: string): (kept: seq<string>)
    ensures forall k :: 0 <= k < |kept| ==> |kept[k]| > 0
    decreases |s|
  {
    if s == [] then []
    else
      var i := LineBreakAt(s);
      if i == |s| then [s]
      else [s[..i + BreakLength(s, i)]] + SplitLinesKeepEnds(s[i + BreakLength(s, i)..])
  }

  /** What `splitlines` removes after a line: nothing (only after the last
      one), "\r\n", or one boundary character. */
  predicate IsBoundary(e: string) {
    e == [] || e == "\r\n" || (|e| == 1 && IsLineBreak(e[0]))
  }

  /** `kept` is `line` followed by a boundary. */
  predicate EndsLine(kept: string, line: string) {
    |line| <= |kept| && kept[..|line|] == line && IsBoundary(kept[|line|..])
  }

  /** One step of `splitlines`, without and with the boundaries. */
  lemma {:induction false} SplitLinesStep(s: string, i: nat, next: nat)
    requires i == LineBreakAt(s) && i < |s| && next == i + BreakLength(s, i)
    ensures SplitLines(s) == [s[..i]] + SplitLines(s[next..])
  {
  }

  lemma {:induction false} SplitLinesKeepEndsStep(s: string, i: nat, next: nat)
    requires i == LineBreakAt(s) && i < |s| && next == i + BreakLength(s, i)
    ensures SplitLinesKeepEnds(s) == [s[..next]] + SplitLinesKeepEnds(s[next..])
  {
  }

  /** The first kept line starts where the text starts. */
  lemma {:induction false} KeepEndsHead(s: string)
    requires s != []
    ensures SplitLinesKeepEnds(s) != [] && SplitLinesKeepEnds(s)[0][0] == s[0]
  {
  }

  /** The boundary after the line ending at `i`. */
  lemma BreakIsBoundary(s: string, i: nat)
    requires i < |s| && IsLineBreak(s[i])
    ensures IsBoundary(s[i..i + BreakLength(s, i)])
  {
    if BreakLength(s, i) == 2 {
      assert s[i..i + 2] == [s[i], s[i + 1]];
    } else {
      assert s[i..i + 1] == [s[i]];
    }
  }

  /** The lines with their boundaries put back are the text again. */
  lemma {:induction false} SplitLinesRoundTrip(s: string)
    ensures Flatten(SplitLinesKeepEnds(s)) == s
    decreases |s|
  {
    if s != [] {
      var i := LineBreakAt(s);
      if i == |s| {
        assert SplitLinesKeepEnds(s) == [s];
        FlattenCons(s, []);
      } else {
        var next := i + BreakLength(s, i);
        SplitLinesKeepEndsStep(s, i, next);
        SplitLinesRoundTrip(s[next..]);
        FlattenCons(s[..next], SplitLinesKeepEnds(s[next..]));
        assert s[..next] + s[next..] == s;
      }
    }
  }

  /** `lines` are the lines of `kept` with their boundaries removed; every
      line but the last has a boundary, and a lone "\r" boundary is never
      followed by "\n", which would have joined it. */
  predicate LinesKept(lines: seq<string>, kept: seq<string>) {
    && |kept| == |lines|
    && (forall k :: 0 <= k < |kept| ==> kept[k] != [])
    && (forall k :: 0 <= k < |lines| ==> EndsLine(kept[k], lines[k]))
    && (forall k :: 0 <= k < |lines| - 1 ==> |lines[k]| < |kept[k]|)
    && (forall k :: 0 <= k < |lines| - 1 && kept[k][|kept[k]| - 1] == '\r'
          ==> kept[k + 1][0] != '\n')
  }

  /** Putting one more line in front keeps the relation. */
  lemma KeepEndsLinesCons(l: string, k0: string, lines: seq<string>, kept: seq<string>)
    requires LinesKept(lines, kept)
    requires k0 != [] && EndsLine(k0, l)
    requires lines != [] ==> |l| < |k0|
    requires kept != [] && k0[|k0| - 1] == '\r' ==> kept[0][0] != '\n'
    ensures LinesKept([l] + lines, [k0] + kept)
  {
    var L, K := [l] + lines, [k0] + kept;
    forall k | 0 <= k < |L| ensures EndsLine(K[k], L[k]) {
      if k > 0 {
        assert K[k] == kept[k - 1] && L[k] == lines[k - 1];
      }
    }
    forall k | 0 <= k < |L| - 1 && K[k][|K[k]| - 1] == '\r'
      ensures K[k + 1][0] != '\n'
    {
      if k > 0 {
        assert K[k] == kept[k - 1] && K[k + 1] == kept[k];
      }
    }
  }

  /** `splitlines()` and `splitlines(keepends=True)` agree line by line. */
  lemma {:induction false} SplitLinesKeepEndsLines(s: string)
    ensures LinesKept(SplitLines(s), SplitLinesKeepEnds(s))
    decreases |s|
  {
    if s != [] {
      var i := LineBreakAt(s);
      if i == |s| {
        assert SplitLines(s) == [s] && SplitLinesKeepEnds(s) == [s];
        assert s[..|s|] == s && s[|s|..] == [];
      } else {
        var next := i + BreakLength(s, i);
        var t := s[next..];
        SplitLinesStep(s, i, next);
        SplitLinesKeepEndsStep(s, i, next);
        SplitLinesKeepEndsLines(t);
        var l, k0 := s[..i], s[..next];
        assert k0[..|l|] == l;
        BreakIsBoundary(s, i);
        assert k0[|l|..] == s[i..next];
        if t != [] {
          KeepEndsHead(t);
          assert k0[|k0| - 1] == s[next - 1];
        }
        KeepEndsLinesCons(l, k0, SplitLines(t), SplitLinesKeepEnds(t));
      }
    }
  }

  // ----- the collapse keeps every visible character, in order -----

  /** The visible characters of each string, concatenated. */
  function VisibleOfAll(xs: seq<string>): string
  {
    if xs == [] then [] else Visible(xs[0]) + VisibleOfAll(xs[1..])
  }

  lemma {:induction false} VisibleOfAllAppend(a: seq<string>, b: seq<string>)
    ensures VisibleOfAll(a + b) == VisibleOfAll(a) + VisibleOfAll(b)
    decreases |a|
  {
    if a == [] {
      assert a + b == b;
    } else {
      assert (a + b)[1..] == a[1..] + b;
      VisibleOfAllAppend(a[1..], b);
    }
  }

  lemma VisibleOfAllCons(x: string, xs: seq<string>)
    ensures VisibleOfAll([x] + xs) == Visible(x) + VisibleOfAll(xs)
  {
    assert ([x] + xs)[1..] == xs;
  }

  lemma {:induction false} VisibleSplitLines(s: string)
    ensures VisibleOfAll(SplitLines(s)) == Visible(s)
    decreases |s|
  {
    if s != [] {
      var i := LineBreakAt(s);
      if i == |s| {
        assert SplitLines(s) == [s] + [];
        VisibleOfAllCons(s, []);
      } else {
        var next := i + BreakLength(s, i);
        VisibleSkip(s, i, next);
        VisibleSplitLines(s[next..]);
        assert SplitLines(s) == [s[..i]] + SplitLines(s[next..]);
        VisibleOfAllCons(s[..i], SplitLines(s[next..]));
      }
    }
  }

  lemma {:induction false} VisibleSplitOnDoubleSpace(s: string)
    ensures VisibleOfAll(SplitOnDoubleSpace(s)) == Visible(s)
    decreases |s|
  {
    var i := DoubleSpaceAt(s);
    if i < |s| {
      VisibleSkip(s, i, i + 2);
      VisibleSplitOnDoubleSpace(s[i + 2..]);
      assert SplitOnDoubleSpace(s) == [s[..i]] + SplitOnDoubleSpace(s[i + 2..]);
      VisibleOfAllCons(s[..i], SplitOnDoubleSpace(s[i + 2..]));
    } else {
      assert SplitOnDoubleSpace(s) == [s] + [];
      VisibleOfAllCons(s, []);
    }
  }

  lemma {:induction false} VisibleKeepStripped(pieces: seq<string>)
    ensures VisibleOfAll(KeepStripped(pieces)) == VisibleOfAll(pieces)
    decreases |pieces|
  {
    if pieces != [] {
      var c := Strip(pieces[0]);
      var rest := KeepStripped(pieces[1..]);
      StripVisible(pieces[0]);
      VisibleKeepStripped(pieces[1..]);
      if c == [] {
        assert KeepStripped(pieces) == rest;
      } else {
        assert KeepStripped(pieces) == [c] + rest;
        VisibleOfAllCons(c, rest);
      }
    }
  }

  lemma {:induction false} VisibleChunks(lines: seq<string>)
    ensures VisibleOfAll(Chunks(lines)) == VisibleOfAll(lines)
    decreases |lines|
  {
    if lines != [] {
      VisibleChunks(lines[1..]);
      VisibleOfAllAppend(LineChunks(lines[0]), Chunks(lines[1..]));
      VisibleKeepStripped(SplitOnDoubleSpace(Strip(lines[0])));
      VisibleSplitOnDoubleSpace(Strip(lines[0]));
      StripVisible(lines[0]);
    }
  }

  /** Joining with whitespace adds no visible character. */
  lemma {:induction false} VisibleJoin(sep: string, xs: seq<string>)
    requires IsBlank(sep)
    ensures Visible(Join(sep, xs)) == VisibleOfAll(xs)
    decreases |xs|
  {
    if |xs| == 1 {
      assert xs[1..] == [];
    } else if |xs| > 1 {
      var rest := Join(sep, xs[1..]);
      VisibleJoin(sep, xs[1..]);
      VisibleAppend(xs[0] + sep, rest);
      VisibleAppend(xs[0], sep);
      VisibleOfSpaces(sep);
    }
  }

  /** The collapse only rewrites whitespace: the visible characters of the
      result are exactly those of the input, in the same order. */
  lemma {:induction false} CollapseKeepsVisible(text: string)
    ensures Visible(Collapse(text)) == Visible(text)
  {
    var lines := SplitLines(text);
    VisibleJoin(" ", Chunks(lines));
    VisibleChunks(lines);
    VisibleSplitLines(text);
  }

  // ----- the collapse keeps every word, in order -----

  /** No character of `s` is whitespace. */
  predicate NoSpace(s: string) {
    forall k :: 0 <= k < |s| ==> !IsSpace(s[k])
  }

  /** The length of the run of non-whitespace characters `s` starts with. */
  function WordLength(s: string): (n: nat)
    ensures n <= |s|
    ensures n < |s| ==> IsSpace(s[n])
    ensures NoSpace(s[..n])
  {
    if s == [] || IsSpace(s[0]) then 0
    else
      var n := 1 + WordLength(s[1..]);
      assert forall j :: 1 <= j < n ==> s[..n][j] == s[1..][..n - 1][j - 1];
      n
  }

  /** `s.split()`: the maximal runs of non-whitespace characters, in order. */
  function Words(s: string): (ws: seq<string>)
    decreases |s|
  {
    if s == [] then []
    else if IsSpace(s[0]) then Words(s[1..])
    else
      var n := WordLength(s);
      [s[..n]] + Words(s[n..])
  }

  /** Every word is a non-empty run without whitespace. */
  lemma {:induction false} WordsAreRuns(s: string)
    ensures forall k :: 0 <= k < |Words(s)| ==>
              Words(s)[k] != [] && forall j :: 0 <= j < |Words(s)[k]| ==> !IsSpace(Words(s)[k][j])
    decreases |s|
  {
    if s != [] {
      if IsSpace(s[0]) {
        WordsAreRuns(s[1..]);
      } else {
        var n := WordLength(s);
        WordsAreRuns(s[n..]);
        var ws := Words(s);
        assert ws == [s[..n]] + Words(s[n..]);
        forall k | 0 <= k < |ws|
          ensures ws[k] != [] && forall j :: 0 <= j < |ws[k]| ==> !IsSpace(ws[k][j])
        {
          if k > 0 {
            assert ws[k] == Words(s[n..])[k - 1];
          }
        }
      }
    }
  }

  /** Every line boundary is whitespace. */
  lemma LineBreakIsSpace(c: char)
    requires IsLineBreak(c)
    ensures IsSpace(c)
  {
  }

  /** A text that starts with a word: the word, then the words after it. */
  lemma {:induction false} WordsStep(s: string, n: nat)
    requires s != [] && !IsSpace(s[0]) && n == WordLength(s)
    ensures Words(s) == [s[..n]] + Words(s[n..])
  {
  }

  /** The first word of `a` is the first word of `a + b` when `b` does not
      continue it. */
  lemma {:induction false} WordLengthOfAppend(a: string, b: string)
    requires WordLength(a) == |a| ==> b == [] || IsSpace(b[0])
    ensures WordLength(a + b) == WordLength(a)
    decreases |a|
  {
    if a == [] {
      assert a + b == b;
    } else {
      assert (a + b)[0] == a[0];
      if !IsSpace(a[0]) {
        assert (a + b)[1..] == a[1..] + b;
        WordLengthOfAppend(a[1..], b);
      }
    }
  }

  lemma ConsAppend<T>(x: T, p: seq<T>, q: seq<T>)
    ensures [x] + (p + q) == ([x] + p) + q
  {
  }

  lemma AppendSplit(a: string, b: string, m: nat)
    requires m <= |a|
    ensures (a + b)[..m] == a[..m] && (a + b)[m..] == a[m..] + b
  {
  }

  /** The step of `WordsAppend` when `a` starts with a word. */
  lemma {:induction false} WordsAppendAtWord(a: string, b: string, m: nat)
    requires a != [] && !IsSpace(a[0]) && m == WordLength(a)
    requires m == |a| ==> b == [] || IsSpace(b[0])
    requires Words(a[m..] + b) == Words(a[m..]) + Words(b)
    ensures Words(a + b) == Words(a) + Words(b)
  {
    var s := a + b;
    WordLengthOfAppend(a, b);
    AppendSplit(a, b, m);
    WordsStep(a, m);
    WordsStep(s, m);
    ConsAppend(a[..m], Words(a[m..]), Words(b));
  }

  /** Whitespace at the seam separates the words of the two halves. */
  lemma {:induction false} WordsAppend(a: string, b: string)
    requires a == [] || b == [] || IsSpace(a[|a| - 1]) || IsSpace(b[0])
    ensures Words(a + b) == Words(a) + Words(b)
    decreases |a|
  {
    if a == [] {
      assert a + b == b;
    } else if IsSpace(a[0]) {
      assert (a + b)[1..] == a[1..] + b;
      WordsAppend(a[1..], b);
    } else {
      var m := WordLength(a);
      if m == |a| {
        assert a[..m][|a| - 1] == a[|a| - 1];
      } else {
        assert a[m..][|a[m..]| - 1] == a[|a| - 1];
      }
      WordsAppend(a[m..], b);
      WordsAppendAtWord(a, b, m);
    }
  }

  lemma {:induction false} WordsOfBlank(s: string)
    requires IsBlank(s)
    ensures Words(s) == []
    decreases |s|
  {
    if s != [] {
      WordsOfBlank(s[1..]);
    }
  }

  /** Leading whitespace holds no word. */
  lemma {:induction false} WordsDropBlank(s: string, a: nat)
    requires a <= |s| && forall k :: 0 <= k < a ==> IsSpace(s[k])
    ensures Words(s[a..]) == Words(s)
    decreases a
  {
    if a == 0 {
      assert s[0..] == s;
    } else {
      var t := s[1..];
      assert forall k :: 0 <= k < a - 1 ==> t[k] == s[k + 1];
      WordsDropBlank(t, a - 1);
      assert t[a - 1..] == s[a..];
    }
  }

  /** Trailing whitespace holds no word. */
  lemma {:induction false} WordsTakeBlank(s: string, b: nat)
    requires b <= |s| && forall k :: b <= k < |s| ==> IsSpace(s[k])
    ensures Words(s[..b]) == Words(s)
  {
    if b < |s| {
      assert s == s[..b] + s[b..];
      WordsAppend(s[..b], s[b..]);
      WordsOfBlank(s[b..]);
    } else {
      assert s[..b] == s;
    }
  }

  /** Whitespace from i to j holds no word. */
  lemma {:induction false} WordsDropRun(s: string, i: nat, j: nat)
    requires i <= j <= |s|
    requires forall k :: i <= k < j ==> IsSpace(s[k])
    ensures Words(s[i..]) == Words(s[j..])
    decreases j - i
  {
    if i < j {
      assert s[i..][0] == s[i] && s[i..][1..] == s[i + 1..];
      WordsDropRun(s, i + 1, j);
    }
  }

  /** A non-empty run of whitespace in the middle of `s` separates the words
      before it from those after it. */
  lemma {:induction false} WordsSkip(s: string, i: nat, j: nat)
    requires i < j <= |s|
    requires forall k :: i <= k < j ==> IsSpace(s[k])
    ensures Words(s) == Words(s[..i]) + Words(s[j..])
  {
    assert s[i..][0] == s[i];
    assert s[..i] + s[i..] == s;
    WordsAppend(s[..i], s[i..]);
    WordsDropRun(s, i, j);
  }

  /** Stripping keeps the words. */
  lemma {:induction false} StripWords(s: string)
    ensures Words(Strip(s)) == Words(s)
  {
    var a := SkipSpaces(s, 0);
    var b := BackSpaces(s, a, |s|);
    var u := s[..b];
    WordsTakeBlank(s, b);
    WordsDropBlank(u, a);
  }

  /** The words of each string, concatenated. */
  function WordsOfAll(xs: seq<string>): seq<string>
  {
    if xs == [] then [] else Words(xs[0]) + WordsOfAll(xs[1..])
  }

  lemma {:induction false} WordsOfAllAppend(a: seq<string>, b: seq<string>)
    ensures WordsOfAll(a + b) == WordsOfAll(a) + WordsOfAll(b)
    decreases |a|
  {
    if a == [] {
      assert a + b == b;
    } else {
      assert (a + b)[1..] == a[1..] + b;
      WordsOfAllAppend(a[1..], b);
    }
  }

  lemma WordsOfAllCons(x: string, xs: seq<string>)
    ensures WordsOfAll([x] + xs) == Words(x) + WordsOfAll(xs)
  {
    assert ([x] + xs)[1..] == xs;
  }

  lemma {:induction false} WordsSplitLines(s: string)
    ensures WordsOfAll(SplitLines(s)) == Words(s)
    decreases |s|
  {
    if s != [] {
      var i := LineBreakAt(s);
      if i == |s| {
        assert SplitLines(s) == [s] + [];
        WordsOfAllCons(s, []);
      } else {
        var next := i + BreakLength(s, i);
        LineBreakIsSpace(s[i]);
        if next == i + 2 {
          LineBreakIsSpace(s[i + 1]);
        }
        WordsSkip(s, i, next);
        WordsSplitLines(s[next..]);
        SplitLinesStep(s, i, next);
        WordsOfAllCons(s[..i], SplitLines(s[next..]));
      }
    }
  }

  lemma {:induction false} WordsSplitOnDoubleSpace(s: string)
    ensures WordsOfAll(SplitOnDoubleSpace(s)) == Words(s)
    decreases |s|
  {
    var i := DoubleSpaceAt(s);
    if i < |s| {
      WordsSkip(s, i, i + 2);
      WordsSplitOnDoubleSpace(s[i + 2..]);
      SplitOnDoubleSpaceStep(s, i);
      WordsOfAllCons(s[..i], SplitOnDoubleSpace(s[i + 2..]));
    } else {
      assert SplitOnDoubleSpace(s) == [s] + [];
      WordsOfAllCons(s, []);
    }
  }

  lemma {:induction false} WordsKeepStripped(pieces: seq<string>)
    ensures WordsOfAll(KeepStripped(pieces)) == WordsOfAll(pieces)
    decreases |pieces|
  {
    if pieces != [] {
      var c := Strip(pieces[0]);
      var rest := KeepStripped(pieces[1..]);
      StripWords(pieces[0]);
      WordsKeepStripped(pieces[1..]);
      if c == [] {
        assert KeepStripped(pieces) == rest;
      } else {
        assert KeepStripped(pieces) == [c] + rest;
        WordsOfAllCons(c, rest);
      }
    }
  }

  lemma {:induction false} WordsChunks(lines: seq<string>)
    ensures WordsOfAll(Chunks(lines)) == WordsOfAll(lines)
    decreases |lines|
  {
    if lines != [] {
      WordsChunks(lines[1..]);
      WordsOfAllAppend(LineChunks(lines[0]), Chunks(lines[1..]));
      WordsKeepStripped(SplitOnDoubleSpace(Strip(lines[0])));
      WordsSplitOnDoubleSpace(Strip(lines[0]));
      StripWords(lines[0]);
    }
  }

  /** `sep.join(xs)` with a non-empty whitespace separator has exactly the
      words of the parts, in order. */
  lemma {:induction false} WordsJoin(sep: string, xs: seq<string>)
    requires sep != [] && IsBlank(sep)
    ensures Words(Join(sep, xs)) == WordsOfAll(xs)
    decreases |xs|
  {
    if |xs| == 1 {
      assert xs[1..] == [];
    } else if |xs| > 1 {
      var rest := Join(sep, xs[1..]);
      WordsJoin(sep, xs[1..]);
      WordsAppend(xs[0] + sep, rest);
      WordsAppend(xs[0], sep);
      WordsOfBlank(sep);
    }
  }

  /** The collapse only rewrites whitespace between words: `Collapse(t).split()
      == t.split()`. */
  lemma {:induction false} CollapseKeepsWords(text: string)
    ensures Words(Collapse(text)) == Words(text)
  {
    var lines := SplitLines(text);
    WordsJoin(" ", Chunks(lines));
    WordsChunks(lines);
    WordsSplitLines(text);
  }

  /** `s.strip()` is empty exactly when every character of `s` is
      whitespace: the test `not content.strip()` asks whether the content is
      blank. */
  lemma StripEmptyIffBlank(s: string)
    ensures Strip(s) == [] <==> IsBlank(s)
  {
  }

  /** `clean_email_content`: "" for an empty body; otherwise the body is
      base64url-decoded when `decode` succeeds and kept as it is when it
      fails, reduced to its visible text by `visibleText` (HTML parsing with
      script and style removed), and collapsed. */
  function CleanEmailContent(content: string, decode: string -> Option<string>,
                             visibleText: string -> string): (r: string)
    ensures content == [] ==> r == []
    ensures IsCollapsed(r)
    ensures content != [] ==>
              Visible(r) == Visible(visibleText(match decode(content)
                                                case Some(t) => t
                                                case None => content))
    ensures content != [] ==>
              Words(r) == Words(visibleText(match decode(content)
                                            case Some(t) => t
                                            case None => content))
  {
    if content == [] then ""
    else
      var text := match decode(content) case Some(t) => t case None => content;
      CollapseKeepsVisible(visibleText(text));
      CollapseKeepsWords(visibleText(text));
      Collapse(visibleText(text))
  }
}
