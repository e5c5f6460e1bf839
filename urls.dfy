/** `extract_urls_from_text`: `re.findall` of the pattern
    http[s]?://(?:[a-zA-Z]|[0-9]|[$-_@.&+]|[!*\\(\\),]|(?:%[0-9a-fA-F][0-9a-fA-F]))+
    written as a left-to-right scanner, followed by the duplicate removal of
    `list(set(urls))`. */
module UrlScan {
  import opened Wrappers
  import opened Seqs

  /** One character of the pattern's repeated group. `$-_` is a range
      (U+0024 to U+005F); inside the raw string `\\` is a literal backslash. */
  predicate IsUrlChar(c: char) {
    || ('a' <= c <= 'z')
    || ('A' <= c <= 'Z')
    || ('0' <= c <= '9')
    || ('$' <= c <= '_') || c in "@.&+"
    || c in "!*\\(),"
  }

  /** The class in closed form: a `%XX` escape adds nothing because `%` is
      already in the range, and `"`, `#`, the backquote, `{`, `|`, `}`, `~`,
      whitespace, control and non-ASCII characters are outside it. */
  lemma UrlCharClosedForm(c: char)
    ensures IsUrlChar(c) <==> ('a' <= c <= 'z') || ('$' <= c <= '_') || c == '!'
    ensures IsUrlChar('%') && IsUrlChar('.') && IsUrlChar('?') && IsUrlChar('=')
    ensures !IsUrlChar('"') && !IsUrlChar('#') && !IsUrlChar('`') && !IsUrlChar(' ')
  {
  }

  predicate AllUrlChars(s: string) {
    forall k :: 0 <= k < |s| ==> IsUrlChar(s[k])
  }

  /** What every element of the result looks like: a scheme prefix and at
      least one URL character after it, and nothing else. */
  predicate IsUrl(u: string) {
    || (|u| > 8 && u[..8] == "https://" && AllUrlChars(u[8..]))
    || (|u| > 7 && u[..7] == "http://" && AllUrlChars(u[7..]))
  }

  /** `u` occurs in `text` at position k. */
  predicate OccursAt(u: string, text: string, k: nat) {
    k + |u| <= |text| && text[k..k + |u|] == u
  }

  /** `u` occurs in `text` at some position. */
  ghost predicate IsInfix(u: string, text: string) {
    exists k: nat :: OccursAt(u, text, k)
  }

  /** Length of the scheme part the pattern accepts at position i:
      `[s]?` tries "https://" before "http://". */
  function SchemeLen(text: string, i: nat): (n: nat)
    requires i <= |text|
    ensures n == 0 || n == 7 || n == 8
    ensures n == 8 <==> i + 8 <= |text| && text[i..i + 8] == "https://"
    ensures n == 7 <==> !(i + 8 <= |text| && text[i..i + 8] == "https://")
                        && i + 7 <= |text| && text[i..i + 7] == "http://"
    ensures n > 0 ==> OccursAt("http", text, i)
  {
    if i + 8 <= |text| && text[i..i + 8] == "https://" then
      assert text[i..i + 4] == text[i..i + 8][..4];
      8
    else if i + 7 <= |text| && text[i..i + 7] == "http://" then
      assert text[i..i + 4] == text[i..i + 7][..4];
      7
    else 0
  }

  /** Length of the maximal run of URL characters starting at j: the greedy `+`. */
  function RunLen(text: string, j: nat): (n: nat)
    requires j <= |text|
    ensures j + n <= |text|
    ensures forall k :: j <= k < j + n ==> IsUrlChar(text[k])
    ensures j + n == |text| || !IsUrlChar(text[j + n])
    decreases |text| - j
  {
    if j < |text| && IsUrlChar(text[j]) then 1 + RunLen(text, j + 1) else 0
  }

  /** Where a match starting at i ends, if the pattern matches at i. */
  function MatchEnd(text: string, i: nat): (m: Option<nat>)
    requires i <= |text|
    ensures m.Some? <==>
              SchemeLen(text, i) > 0 && i + SchemeLen(text, i) < |text|
              && IsUrlChar(text[i + SchemeLen(text, i)])
    ensures m.Some? ==>
              var n := SchemeLen(text, i);
              i + n < m.value <= |text|
              && (forall k :: i + n <= k < m.value ==> IsUrlChar(text[k]))
              && (m.value == |text| || !IsUrlChar(text[m.value]))
  {
    var n := SchemeLen(text, i);
    if n > 0 && RunLen(text, i + n) > 0 then Some(i + n + RunLen(text, i + n)) else None
  }

  datatype Span = Span(start: nat, end: nat)

  /** The non-overlapping matches of `re.findall` from position i on: try to
      match at the current position; on success resume after the match,
      otherwise one character further. */
  function Spans(text: string, i: nat): (r: seq<Span>)
    requires i <= |text|
    ensures forall k :: 0 <= k < |r| ==>
              i <= r[k].start < r[k].end <= |text| && MatchEnd(text, r[k].start) == Some(r[k].end)
    ensures forall k :: 0 <= k < |r| - 1 ==> r[k].end <= r[k + 1].start
    decreases |text| - i
  {
    if i == |text| then []
    else
      match MatchEnd(text, i)
      case Some(e) => [Span(i, e)] + Spans(text, e)
      case None => Spans(text, i + 1)
  }

  /** The strings `re.findall` returns, in text order. */
  function Matches(text: string): (urls: seq<string>)
    ensures |urls| == |Spans(text, 0)|
    ensures forall k :: 0 <= k < |urls| ==>
              |urls[k]| == Spans(text, 0)[k].end - Spans(text, 0)[k].start
              && OccursAt(urls[k], text, Spans(text, 0)[k].start)
  {
    var sp := Spans(text, 0);
    seq(|sp|, k requires 0 <= k < |sp| => text[sp[k].start..sp[k].end])
  }

  /** A matched span holds a URL. */
  lemma SpanIsUrl(text: string, s: nat, e: nat)
    requires s < e <= |text| && MatchEnd(text, s) == Some(e)
    ensures IsUrl(text[s..e])
  {
    var u := text[s..e];
    var n := SchemeLen(text, s);
    assert u[..n] == text[s..s + n];
    assert forall k :: n <= k < |u| ==> u[k] == text[s + k];
    if n == 8 {
      assert forall k :: 0 <= k < |u[8..]| ==> u[8..][k] == u[8 + k];
    } else {
      assert forall k :: 0 <= k < |u[7..]| ==> u[7..][k] == u[7 + k];
    }
  }

  /** Every match is a URL occurring in the text. */
  lemma MatchesAreUrls(text: string)
    ensures forall u :: u in Matches(text) ==> IsUrl(u) && IsInfix(u, text)
  {
    var m := Matches(text);
    var sp := Spans(text, 0);
    forall k | 0 <= k < |m| ensures IsUrl(m[k]) && IsInfix(m[k], text) {
      assert m[k] == text[sp[k].start..sp[k].end];
      SpanIsUrl(text, sp[k].start, sp[k].end);
      assert OccursAt(m[k], text, sp[k].start);
    }
  }

  /** `extract_urls_from_text`: the distinct matches of the pattern. */
  function ExtractUrls(text: string): (r: seq<string>)
    ensures NoDuplicates(r)
    ensures forall u :: u in r <==> u in Matches(text)
    ensures forall u :: u in r ==> IsUrl(u) && IsInfix(u, text)
    ensures text == [] ==> r == []
  {
    MatchesAreUrls(text);
    Dedup(Matches(text))
  }

  /** Every match ends at the end of the text or just before a character
      outside the class: the run is maximal. */
  lemma MatchesAreMaximal(text: string)
    ensures forall k :: 0 <= k < |Spans(text, 0)| ==>
              var e := Spans(text, 0)[k].end;
              e == |text| || !IsUrlChar(text[e])
  {
  }

  /** Position p lies inside one of the spans. */
  predicate Covers(r: seq<Span>, p: nat) {
    exists k :: 0 <= k < |r| && r[k].start <= p < r[k].end
  }

  lemma CoversCons(s: Span, rest: seq<Span>, p: nat)
    requires (s.start <= p < s.end) || Covers(rest, p)
    ensures Covers([s] + rest, p)
  {
    var r := [s] + rest;
    if s.start <= p < s.end {
      assert r[0] == s;
    } else {
      var k :| 0 <= k < |rest| && rest[k].start <= p < rest[k].end;
      assert r[k + 1] == rest[k];
    }
  }

  /** Nothing is missed: every position where the pattern could start a match
      lies inside one of the matches found. */
  lemma {:induction false} SpansCover(text: string, i: nat, p: nat)
    requires i <= p < |text| && MatchEnd(text, p).Some?
    ensures Covers(Spans(text, i), p)
    decreases |text| - i
  {
    match MatchEnd(text, i)
    case Some(e) =>
      assert Spans(text, i) == [Span(i, e)] + Spans(text, e);
      if p >= e {
        SpansCover(text, e, p);
      }
      CoversCons(Span(i, e), Spans(text, e), p);
    case None =>
      assert Spans(text, i) == Spans(text, i + 1);
      assert i != p;
      SpansCover(text, i + 1, p);
  }

  /** Text containing no "http" holds no URL. */
  lemma {:induction false} NoHttpNoSpans(text: string, i: nat)
    requires i <= |text|
    requires forall k: nat :: !OccursAt("http", text, k)
    ensures Spans(text, i) == []
    decreases |text| - i
  {
    if i < |text| {
      assert !OccursAt("http", text, i);
      NoHttpNoSpans(text, i + 1);
    }
  }

  lemma NoHttpNoUrls(text: string)
    requires forall k: nat :: !OccursAt("http", text, k)
    ensures ExtractUrls(text) == []
  {
    NoHttpNoSpans(text, 0);
    assert Matches(text) == [];
  }

  /** Scanning a single extracted URL finds exactly that URL again. */
  lemma ExtractFromUrl(u: string)
    requires IsUrl(u)
    ensures Matches(u) == [u]
    ensures ExtractUrls(u) == [u]
  {
    var n := SchemeLen(u, 0);
    if |u| > 8 && u[..8] == "https://" {
      assert n == 8;
      assert forall k :: 8 <= k < |u| ==> u[k] == u[8..][k - 8];
    } else {
      assert u[..7] == "http://";
      assert u[..8] != "https://" by { assert u[4] == ':'; }
      assert n == 7;
      assert forall k :: 7 <= k < |u| ==> u[k] == u[7..][k - 7];
    }
    assert MatchEnd(u, 0) == Some(|u|);
    assert Spans(u, 0) == [Span(0, |u|)];
    assert u[0..|u|] == u;
  }
}
