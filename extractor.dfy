/** `gmail_url_extractor.py`: the URL-only variant of the app. Its records
    carry `url_count` instead of an annotation, and its digest adds the
    total number of URLs and a ranking of their network locations, taken with
    `urllib.parse.urlparse(url).netloc`. The mailbox API, base64 decoding and
    HTML parsing are the parameters collected in `Mailbox`. */
module Extractor {
  import opened Wrappers
  import opened Seqs
  import opened Text
  import opened UrlScan
  import opened Message
  import opened Counting

  /** `fetch(id)` is the payload of `messages().get(...)`, `None` when the
      call or a payload lookup raised; `decode` is base64url decoding to
      UTF-8, `None` when it fails; `visibleText` is BeautifulSoup's text with
      scripts and styles removed. */
  datatype Mailbox = Mailbox(fetch: string -> Option<Payload>,
                             decode: string -> Option<string>,
                             visibleText: string -> string)

  const TopSenderCount := 5
  const TopDomainCount := 10

  // ----- fetch_emails -----

  /** One element of the list `fetch_emails` returns. */
  datatype UrlRecord = UrlRecord(id: string, subject: string, sender: string, date: string,
                                 content: string, urls: seq<string>, urlCount: nat)

  /** The record the loop body of `fetch_emails` builds for one message id. */
  function RecordFor(env: Mailbox, id: string): UrlRecord {
    var c := EmailContent(env.fetch(id), env.decode, env.visibleText);
    var urls := ExtractUrls(c.text);
    UrlRecord(id, c.subject, c.sender, c.date, TruncateContent(c.text), urls, |urls|)
  }

  /** `RecordFor` as a function of the id alone. */
  function Recorder(env: Mailbox): string -> UrlRecord {
    id => RecordFor(env, id)
  }

  /** `fetch_emails`: `hasService` is whether `self.service` is set, `listed`
      the ids of the listing (`results.get('messages', [])`), `None` when the
      listing raised. Nothing inside the loop can raise here: the content
      lookup catches its own errors. */
  function FetchedEmails(env: Mailbox, hasService: bool, listed: Option<seq<string>>): seq<UrlRecord> {
    if !hasService || listed.None? then [] else Map(Recorder(env), listed.value)
  }

  /** The body of the loop of `fetch_emails` for one id. */
  method FetchOne(env: Mailbox, id: string) returns (r: UrlRecord)
    ensures r == RecordFor(env, id)
  {
    var c := GetEmailContent(env.fetch(id), env.decode, env.visibleText);
    var urls := ExtractUrls(c.text);
    var content := if |c.text| > ContentLimit then c.text[..ContentLimit] + "..." else c.text;
    r := UrlRecord(id, c.subject, c.sender, c.date, content, urls, |urls|);
  }

  /** `fetch_emails` with its loop appending one record per id. */
  method FetchEmails(env: Mailbox, hasService: bool, listed: Option<seq<string>>)
    returns (emails: seq<UrlRecord>)
    ensures emails == FetchedEmails(env, hasService, listed)
  {
    if !hasService || listed.None? {
      return [];
    }
    var ids := listed.value;
    emails := [];
    var i := 0;
    while i < |ids|
      invariant 0 <= i <= |ids|
      invariant emails == Map(Recorder(env), ids[..i])
    {
      var record := FetchOne(env, ids[i]);
      MapPrefix(Recorder(env), ids, i);
      emails := emails + [record];
      i := i + 1;
    }
    assert ids[..i] == ids;
  }

  /** What each record holds: its id; `url_count` equal to the number of
      URLs; the distinct URLs of the whole cleaned content, each a URL that
      occurs in it; and at most 503 characters of the content, truncated
      only when it is longer than 500. */
  lemma RecordShape(env: Mailbox, id: string)
    ensures var r := RecordFor(env, id);
            var c := EmailContent(env.fetch(id), env.decode, env.visibleText);
            && r.id == id && r.subject == c.subject && r.sender == c.sender && r.date == c.date
            && r.urlCount == |r.urls|
            && NoDuplicates(r.urls)
            && (forall u :: u in r.urls <==> u in Matches(c.text))
            && (forall u :: u in r.urls ==> IsUrl(u) && IsInfix(u, c.text))
            && |r.content| <= ContentLimit + 3
            && (|c.text| <= ContentLimit ==> r.content == c.text)
            && (|c.text| > ContentLimit ==> r.content == c.text[..ContentLimit] + "...")
  {
    var c := EmailContent(env.fetch(id), env.decode, env.visibleText);
    TruncateBounds(c.text);
  }

  /** One record per listed id, in listing order; none without a service
      or a listing. */
  lemma FetchedEmailsSpec(env: Mailbox, hasService: bool, listed: Option<seq<string>>)
    ensures var es := FetchedEmails(env, hasService, listed);
            && (!hasService || listed.None? ==> es == [])
            && (hasService && listed.Some? ==>
                  |es| == |listed.value|
                  && forall i :: 0 <= i < |es| ==> es[i] == RecordFor(env, listed.value[i]))
  {
  }

  // ----- urllib.parse.urlparse(url).netloc -----

  /** No character of `s` is in `cs`. */
  predicate Avoids(s: string, cs: string) {
    forall k :: 0 <= k < |s| ==> s[k] !in cs
  }

  lemma AvoidsDrop(s: string, i: nat, cs: string)
    requires i <= |s| && Avoids(s, cs)
    ensures Avoids(s[i..], cs)
  {
    assert forall k :: 0 <= k < |s| - i ==> s[i..][k] == s[i + k];
  }

  lemma AvoidsTake(s: string, i: nat, cs: string)
    requires i <= |s| && Avoids(s, cs)
    ensures Avoids(s[..i], cs)
  {
    assert forall k :: 0 <= k < i ==> s[..i][k] == s[k];
  }

  /** The characters `urlsplit` strips from the start of a URL (C0 controls
      and space). */
  predicate IsC0OrSpace(c: char) {
    c <= ' '
  }

  /** The first position at or after i that is not a C0 control or space. */
  function SkipC0(s: string, i: nat): (n: nat)
    requires i <= |s|
    ensures i <= n <= |s|
    ensures forall k :: i <= k < n ==> IsC0OrSpace(s[k])
    ensures n < |s| ==> !IsC0OrSpace(s[n])
    decreases |s| - i
  {
    if i < |s| && IsC0OrSpace(s[i]) then SkipC0(s, i + 1) else i
  }

  /** `url.lstrip(_WHATWG_C0_CONTROL_OR_SPACE)`. */
  function StripC0Left(s: string): (r: string)
    ensures r == [] || !IsC0OrSpace(r[0])
    ensures |r| <= |s| && r == s[|s| - |r|..]
    ensures forall k :: 0 <= k < |s| - |r| ==> IsC0OrSpace(s[k])
  {
    s[SkipC0(s, 0)..]
  }

  /** Tab, carriage return and line feed, which `urlsplit` deletes anywhere. */
  const Unsafe := "\t\r\n"

  /** `url.replace(b, "")` for each of the three. */
  function RemoveUnsafe(s: string): (r: string)
    ensures Avoids(r, Unsafe)
    decreases |s|
  {
    if s == [] then []
    else
      var rest := RemoveUnsafe(s[1..]);
      if s[0] in Unsafe then rest
      else
        assert forall k :: 1 <= k < |[s[0]] + rest| ==> ([s[0]] + rest)[k] == rest[k - 1];
        [s[0]] + rest
  }

  /** Deleting characters that do not occur changes nothing. */
  lemma {:induction false} RemoveUnsafeOfClean(s: string)
    requires Avoids(s, Unsafe)
    ensures RemoveUnsafe(s) == s
    decreases |s|
  {
    if s != [] {
      AvoidsDrop(s, 1, Unsafe);
      RemoveUnsafeOfClean(s[1..]);
      assert s == [s[0]] + s[1..];
    }
  }

  predicate IsAsciiLetter(c: char) {
    ('a' <= c <= 'z') || ('A' <= c <= 'Z')
  }

  /** `scheme_chars`: ASCII letters, digits and `+-.`. */
  predicate IsSchemeChar(c: char) {
    IsAsciiLetter(c) || ('0' <= c <= '9') || c == '+' || c == '-' || c == '.'
  }

  /** Index of the first character of `s` that is in `cs`, or |s|: the
      delimiter search of `str.find`. */
  function FirstOf(s: string, cs: string): (i: nat)
    ensures i <= |s|
    ensures i < |s| ==> s[i] in cs
    ensures forall j :: 0 <= j < i ==> s[j] !in cs
    decreases |s|
  {
    if s == [] || s[0] in cs then 0 else 1 + FirstOf(s[1..], cs)
  }

  /** `FirstOf` finds position i when i holds the first matching character,
      or |s| when none matches. */
  lemma FirstOfAt(s: string, cs: string, i: nat)
    requires i <= |s| && (i < |s| ==> s[i] in cs) && forall j :: 0 <= j < i ==> s[j] !in cs
    ensures FirstOf(s, cs) == i
  {
  }

  /** What `urlsplit` keeps after the scheme: when the text before the first
      `:` is a non-empty scheme starting with a letter, the rest after the
      `:`; otherwise the whole URL. */
  function AfterScheme(url: string): (rest: string)
    ensures |rest| <= |url| && rest == url[|url| - |rest|..]
  {
    var i := FirstOf(url, ":");
    if 0 < i < |url| && IsAsciiLetter(url[0]) && (forall k :: 0 <= k < i ==> IsSchemeChar(url[k])) then
      url[i + 1..]
    else url
  }

  /** A netloc `urlsplit` rejects: an opening bracket without a closing one,
      or the other way round ("Invalid IPv6 URL"). */
  predicate UnbalancedBrackets(n: string) {
    ('[' in n) != (']' in n)
  }

  /** `urlparse(url).netloc`, or `None` where it raises `ValueError`. After
      the scheme, a netloc is present only behind `//` and reaches up to the
      first `/`, `?` or `#`; it never holds a deleted character. */
  function Netloc(url: string): (r: Option<string>)
    ensures r.Some? ==> Avoids(r.value, "/?#") && Avoids(r.value, Unsafe)
    ensures r.Some? ==> !UnbalancedBrackets(r.value)
  {
    var clean := RemoveUnsafe(StripC0Left(url));
    var rest := AfterScheme(clean);
    if |rest| >= 2 && rest[..2] == "//" then
      var tail := rest[2..];
      var n := tail[..FirstOf(tail, "/?#")];
      AvoidsDrop(clean, |clean| - |rest|, Unsafe);
      AvoidsDrop(rest, 2, Unsafe);
      AvoidsTake(tail, FirstOf(tail, "/?#"), Unsafe);
      assert forall k :: 0 <= k < |n| ==> n[k] == tail[k];
      if UnbalancedBrackets(n) then None else Some(n)
    else Some("")
  }

  /** Length of the scheme prefix of an extracted URL: 8 for "https://",
      7 for "http://". */
  function PrefixLength(u: string): (n: nat)
    requires IsUrl(u)
    ensures n == 7 || n == 8
    ensures n < |u| && (u[..n] == "https://" || u[..n] == "http://")
    ensures forall k :: n <= k < |u| ==> IsUrlChar(u[k])
    ensures u[n - 3] == ':' && u[n - 2] == '/' && u[n - 1] == '/'
    ensures forall k :: 0 <= k < n - 3 ==> IsAsciiLetter(u[k])
  {
    var n := if |u| > 8 && u[..8] == "https://" && AllUrlChars(u[8..]) then 8 else 7;
    assert forall k :: n <= k < |u| ==> u[k] == u[n..][k - n];
    assert forall k :: 0 <= k < n ==> u[k] == u[..n][k];
    n
  }

  /** The host part of an extracted URL: what follows `://`, up to the first
      `/` or `?`. */
  function HostPart(u: string): (h: string)
    requires IsUrl(u)
    ensures h <= u[PrefixLength(u)..]
    ensures forall k :: 0 <= k < |h| ==> h[k] != '/' && h[k] != '?'
    ensures |h| < |u| - PrefixLength(u) ==> u[PrefixLength(u) + |h|] in "/?"
  {
    var tail := u[PrefixLength(u)..];
    tail[..FirstOf(tail, "/?")]
  }

  /** An extracted URL has nothing for `urlsplit` to strip or delete. */
  lemma UrlIsClean(u: string)
    requires IsUrl(u)
    ensures RemoveUnsafe(StripC0Left(u)) == u
  {
    var n := PrefixLength(u);
    assert SkipC0(u, 0) == 0 && u[0..] == u;
    assert Avoids(u, Unsafe) by {
      forall k | 0 <= k < |u|
        ensures u[k] !in Unsafe
      {
        if k < n - 3 {
          assert IsAsciiLetter(u[k]);
        } else if k >= n {
          assert IsUrlChar(u[k]);
        }
      }
    }
    RemoveUnsafeOfClean(u);
  }

  /** `urlsplit` takes "http" or "https" as the scheme of an extracted URL
      and keeps the text from "//" on. */
  lemma AfterSchemeOfUrl(u: string)
    requires IsUrl(u)
    ensures AfterScheme(u) == u[PrefixLength(u) - 2..]
  {
    var n := PrefixLength(u);
    FirstOfAt(u, ":", n - 3);
  }

  /** For a URL the pattern extracts, `urlparse` reduces to the plain split:
      the netloc is the text after `://` up to the first `/` or `?`, and
      parsing fails only on an unpaired bracket. */
  lemma NetlocOfUrl(u: string)
    requires IsUrl(u)
    ensures Netloc(u) == if UnbalancedBrackets(HostPart(u)) then None else Some(HostPart(u))
  {
    var n := PrefixLength(u);
    var rest := u[n - 2..];
    assert rest[..2] == "//" by {
      assert rest[0] == '/' && rest[1] == '/';
    }
    var tail := rest[2..];
    assert tail == u[n..];
    FirstOfUrlTail(tail);
    UrlIsClean(u);
    AfterSchemeOfUrl(u);
  }

  /** `#` never occurs after the scheme of an extracted URL, so the netloc
      delimiters reduce to `/` and `?`. */
  lemma FirstOfUrlTail(tail: string)
    requires forall k :: 0 <= k < |tail| ==> IsUrlChar(tail[k])
    ensures FirstOf(tail, "/?#") == FirstOf(tail, "/?")
  {
    var i := FirstOf(tail, "/?");
    forall j | 0 <= j < i
      ensures tail[j] !in "/?#"
    {
      UrlCharClosedForm(tail[j]);
      assert tail[j] !in "/?" && tail[j] != '#';
    }
    FirstOfAt(tail, "/?#", i);
  }

  /** The netlocs the domain loop counts, in order; a URL whose parsing
      raises is skipped by the `except: pass`. */
  function Domains(urls: seq<string>): (ds: seq<string>)
    ensures |ds| <= |urls|
    decreases |urls|
  {
    if urls == [] then []
    else
      var ds := Domains(urls[..|urls| - 1]);
      match Netloc(urls[|urls| - 1])
      case None => ds
      case Some(d) => ds + [d]
  }

  /** Each counted netloc is the netloc of one of the URLs, and the netloc of
      every URL that parses is counted. */
  lemma {:induction false} DomainsSpec(urls: seq<string>)
    ensures forall d :: d in Domains(urls) ==> exists u :: u in urls && Netloc(u) == Some(d)
    ensures forall u :: u in urls && Netloc(u).Some? ==> Netloc(u).value in Domains(urls)
    decreases |urls|
  {
    if urls != [] {
      var p, last := urls[..|urls| - 1], urls[|urls| - 1];
      DomainsSpec(p);
      assert urls == p + [last];
      forall d | d in Domains(urls)
        ensures exists u :: u in urls && Netloc(u) == Some(d)
      {
        if d in Domains(p) {
          var u :| u in p && Netloc(u) == Some(d);
          assert u in urls;
        } else {
          assert Netloc(last) == Some(d) && last in urls;
        }
      }
      forall u | u in urls && Netloc(u).Some?
        ensures Netloc(u).value in Domains(urls)
      {
        if u !in p {
          assert u == last;
        }
      }
    }
  }

  // ----- create_digest -----

  /** The dict `create_digest` returns: `{}` for no emails. */
  datatype Digest =
    | NoEmails
    | Digest(totalEmails: nat, uniqueUrls: seq<string>, totalUrls: nat, topSenders: seq<Entry>,
             urlDomains: seq<Entry>, start: string, end: string)

  function UrlsOf(e: UrlRecord): seq<string> { e.urls }
  function SenderOf(e: UrlRecord): string { e.sender }

  function UrlLists(emails: seq<UrlRecord>): seq<seq<string>> { Map(UrlsOf, emails) }
  function Senders(emails: seq<UrlRecord>): seq<string> { Map(SenderOf, emails) }

  /** The digest of a list of records. */
  function DigestOf(emails: seq<UrlRecord>): Digest {
    if emails == [] then NoEmails
    else
      var all := Flatten(UrlLists(emails));
      Digest(|emails|, Dedup(all), |all|, Ranked(Senders(emails), TopSenderCount),
             Ranked(Domains(all), TopDomainCount), emails[|emails| - 1].date, emails[0].date)
  }

  /** The third loop: the netloc of each URL counted, URLs whose parsing
      raises skipped. */
  method CountDomains(allUrls: seq<string>) returns (counts: seq<Entry>)
    ensures counts == Tally(Domains(allUrls))
  {
    counts := [];
    var i := 0;
    while i < |allUrls|
      invariant 0 <= i <= |allUrls|
      invariant counts == Tally(Domains(allUrls[..i]))
    {
      assert allUrls[..i + 1][..i] == allUrls[..i];
      var domain := Netloc(allUrls[i]);
      if domain.Some? {
        TallySnoc(Domains(allUrls[..i]), domain.value);
        counts := Bump(counts, domain.value);
      }
      i := i + 1;
    }
    assert allUrls[..i] == allUrls;
  }

  /** `create_digest`: `{}` for no records, otherwise the three loops and the
      dict built from their results. */
  method CreateDigest(emails: seq<UrlRecord>) returns (d: Digest)
    ensures d == DigestOf(emails)
  {
    if emails == [] {
      return NoEmails;
    }
    var allUrls := ExtendEach(UrlsOf, emails);
    var senderCounts := CountEach(SenderOf, emails);
    var domainCounts := CountDomains(allUrls);
    d := Digest(|emails|, Dedup(allUrls), |allUrls|,
                Take(SortByCountDesc(senderCounts), TopSenderCount),
                Take(SortByCountDesc(domainCounts), TopDomainCount),
                emails[|emails| - 1].date, emails[0].date);
  }

  /** The sum of the records' `url_count` fields. */
  function UrlCountSum(emails: seq<UrlRecord>): nat
    decreases |emails|
  {
    if emails == [] then 0 else UrlCountSum(emails[..|emails| - 1]) + emails[|emails| - 1].urlCount
  }

  /** Empty input gives `{}`; otherwise the digest counts every email, dates
      the range from the last record to the first, and `total_urls` is the
      number of URLs over all records, duplicates included, which for records
      built by `fetch_emails` is the sum of their `url_count`. */
  lemma {:induction false} DigestTotals(emails: seq<UrlRecord>)
    ensures DigestOf(emails).NoEmails? <==> emails == []
    ensures emails != [] ==>
              var d := DigestOf(emails);
              && d.totalEmails == |emails|
              && d.start == emails[|emails| - 1].date && d.end == emails[0].date
              && d.totalUrls == TotalLength(UrlLists(emails))
              && ((forall i :: 0 <= i < |emails| ==> emails[i].urlCount == |emails[i].urls|)
                    ==> d.totalUrls == UrlCountSum(emails))
    decreases |emails|
  {
    if emails != [] {
      FlattenLength(UrlLists(emails));
      if forall i :: 0 <= i < |emails| ==> emails[i].urlCount == |emails[i].urls| {
        UrlCountSumIsLength(emails);
      }
    }
  }

  lemma {:induction false} UrlCountSumIsLength(emails: seq<UrlRecord>)
    requires forall i :: 0 <= i < |emails| ==> emails[i].urlCount == |emails[i].urls|
    ensures UrlCountSum(emails) == TotalLength(UrlLists(emails))
    decreases |emails|
  {
    if emails != [] {
      var p := emails[..|emails| - 1];
      UrlCountSumIsLength(p);
      MapPrefix(UrlsOf, emails, |emails| - 1);
      assert emails[..|emails| - 1 + 1] == emails;
      assert UrlLists(emails)[..|emails| - 1] == UrlLists(p);
    }
  }

  /** `unique_urls` holds each URL of any record exactly once, so it is no
      longer than `total_urls`. */
  lemma DigestUrls(emails: seq<UrlRecord>)
    requires emails != []
    ensures NoDuplicates(DigestOf(emails).uniqueUrls)
    ensures forall u :: u in DigestOf(emails).uniqueUrls <==>
              exists i :: 0 <= i < |emails| && u in emails[i].urls
    ensures |DigestOf(emails).uniqueUrls| <= DigestOf(emails).totalUrls
  {
    forall u ensures u in DigestOf(emails).uniqueUrls <==>
                       exists i :: 0 <= i < |emails| && u in emails[i].urls {
      FlattenMember(UrlLists(emails), u);
    }
  }

  /** `top_senders` is the top-five ranking of the senders. */
  lemma DigestSenders(emails: seq<UrlRecord>)
    requires emails != []
    ensures IsTopRanking(DigestOf(emails).topSenders, Senders(emails), TopSenderCount)
  {
    RankedSpec(Senders(emails), TopSenderCount);
  }

  /** Each entry's key is the netloc of one of the URLs. */
  ghost predicate KeysAreNetlocs(r: seq<Entry>, urls: seq<string>) {
    forall i :: 0 <= i < |r| ==> exists u :: u in urls && Netloc(u) == Some(r[i].key)
  }

  /** The ranking of the netlocs of a list of URLs is the top-ten ranking of
      the parsed domains; each kept domain is the netloc of some URL, and the
      counts add up to no more than the number of URLs. */
  lemma DomainRanking(all: seq<string>)
    ensures var r := Ranked(Domains(all), TopDomainCount);
            && IsTopRanking(r, Domains(all), TopDomainCount)
            && KeysAreNetlocs(r, all)
            && Sum(r) <= |all|
  {
    var ds := Domains(all);
    var r := Ranked(ds, TopDomainCount);
    RankedSpec(ds, TopDomainCount);
    DomainsSpec(all);
    forall i | 0 <= i < |r|
      ensures exists u :: u in all && Netloc(u) == Some(r[i].key)
    {
      assert r[i].key in ds;
    }
  }

  /** `url_domains` is that ranking for all URLs of all records, so it
      adds up to no more than `total_urls`. */
  lemma DigestDomains(emails: seq<UrlRecord>)
    requires emails != []
    ensures var d := DigestOf(emails);
            var all := Flatten(UrlLists(emails));
            && IsTopRanking(d.urlDomains, Domains(all), TopDomainCount)
            && KeysAreNetlocs(d.urlDomains, all)
            && Sum(d.urlDomains) <= d.totalUrls
  {
    DomainRanking(Flatten(UrlLists(emails)));
  }
}
