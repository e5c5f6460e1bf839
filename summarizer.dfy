/** `gmail_ai_summarizer.py`: the annotation `summarize_with_ai` attaches to
    each message, the record list `fetch_emails` builds, and the digest of
    `create_digest`. What the app reaches outside itself (the mailbox API,
    base64 decoding, HTML parsing, the language-model client and its JSON
    answer) comes in as the parameters collected in `Services`. */
module Summarizer {
  import opened Wrappers
  import opened Seqs
  import opened Text
  import opened UrlScan
  import opened Message
  import opened Counting

  /** The dict `summarize_with_ai` returns: each of its four keys may be
      missing when the dict came from the model's JSON answer. */
  datatype Reply = Reply(summary: Option<string>, keyPoints: Option<seq<string>>,
                         actionItems: Option<seq<string>>, sentiment: Option<string>)

  /** What the chat call followed by `json.loads` came to: an exception with
      its message, or a parsed dict. */
  datatype AiOutcome = Raised(error: string) | Parsed(reply: Reply)

  /** The outside world of one app instance. `fetch(id)` is the payload of
      `messages().get(...)`, `None` when the call or a payload lookup raised;
      `decode` is base64url decoding to UTF-8, `None` when it fails;
      `visibleText` is BeautifulSoup's text with scripts and styles removed;
      `configured` says whether an OpenAI client was created; `annotate`
      receives the subject and the content excerpt of the prompt. */
  datatype Services = Services(fetch: string -> Option<Payload>,
                               decode: string -> Option<string>,
                               visibleText: string -> string,
                               configured: bool,
                               annotate: (string, string) -> AiOutcome)

  const NotConfigured := "No content to summarize or OpenAI not configured"
  const ErrorPrefix := "Error in summarization: "
  const Neutral := "neutral"
  const PromptLimit := 3000
  const TopSenderCount := 5

  /** The dict returned without an answer from the model. */
  function FallbackReply(summary: string): Reply {
    Reply(Some(summary), Some([]), Some([]), Some(Neutral))
  }

  /** `content[:3000]`: the part of the content the prompt carries. */
  function Excerpt(content: string): (e: string)
    ensures |e| <= PromptLimit && e <= content
    ensures |content| <= PromptLimit ==> e == content
    ensures |content| > PromptLimit ==> |e| == PromptLimit
  {
    if |content| <= PromptLimit then content else content[..PromptLimit]
  }

  /** `summarize_with_ai`: without a client or with blank content, the
      "not configured" fallback; otherwise the model's parsed answer, or the
      error fallback when the call or the parsing raised. */
  function SummarizeWithAi(configured: bool, content: string, subject: string,
                           annotate: (string, string) -> AiOutcome): (r: Reply)
    ensures !configured || IsBlank(content) ==> r == FallbackReply(NotConfigured)
    ensures configured && !IsBlank(content) ==>
              match annotate(subject, Excerpt(content))
              case Raised(e) => r == FallbackReply(ErrorPrefix + e)
              case Parsed(reply) => r == reply
  {
    StripEmptyIffBlank(content);
    if !configured || Strip(content) == [] then FallbackReply(NotConfigured)
    else
      match annotate(subject, Excerpt(content))
      case Raised(e) => FallbackReply(ErrorPrefix + e)
      case Parsed(reply) => reply
  }

  /** A reply that did not come from the model has all four keys, a neutral
      sentiment and no key points or action items; and the model sees at most
      the first 3000 characters, so contents that agree on those (and on
      being blank) are annotated alike. */
  lemma SummarizeOutcomes(configured: bool, content: string, content': string, subject: string,
                          annotate: (string, string) -> AiOutcome)
    requires Excerpt(content) == Excerpt(content') && IsBlank(content) == IsBlank(content')
    ensures var r := SummarizeWithAi(configured, content, subject, annotate);
            (exists reply :: annotate(subject, Excerpt(content)) == Parsed(reply) && r == reply)
            || (r.summary.Some? && r.keyPoints == Some([]) && r.actionItems == Some([])
                && r.sentiment == Some(Neutral))
    ensures SummarizeWithAi(configured, content, subject, annotate)
            == SummarizeWithAi(configured, content', subject, annotate)
  {
    var r := SummarizeWithAi(configured, content, subject, annotate);
    if configured && !IsBlank(content) {
      match annotate(subject, Excerpt(content))
      case Raised(e) =>
      case Parsed(reply) =>
        assert r == reply;
    }
  }

  /** One element of the list `fetch_emails` returns. */
  datatype EmailRecord = EmailRecord(id: string, subject: string, sender: string, date: string,
                                     content: string, urls: seq<string>, summary: string,
                                     keyPoints: seq<string>, actionItems: seq<string>,
                                     sentiment: string)

  /** The `email_data` dict, or `None` where one of the four
      `ai_summary[...]` lookups raises `KeyError`. */
  function BuildRecord(id: string, c: Content, reply: Reply): (r: Option<EmailRecord>)
    ensures r.Some? <==> reply.summary.Some? && reply.keyPoints.Some?
                         && reply.actionItems.Some? && reply.sentiment.Some?
  {
    match (reply.summary, reply.keyPoints, reply.actionItems, reply.sentiment)
    case (Some(s), Some(k), Some(a), Some(m)) =>
      Some(EmailRecord(id, c.subject, c.sender, c.date, TruncateContent(c.text),
                       ExtractUrls(c.text), s, k, a, m))
    case _ => None
  }

  /** The record the loop body of `fetch_emails` builds for one message id. */
  function RecordFor(env: Services, id: string): Option<EmailRecord> {
    var c := EmailContent(env.fetch(id), env.decode, env.visibleText);
    BuildRecord(id, c, SummarizeWithAi(env.configured, c.text, c.subject, env.annotate))
  }

  /** `RecordFor` as a function of the id alone. */
  function Recorder(env: Services): string -> Option<EmailRecord> {
    id => RecordFor(env, id)
  }

  /** `fetch_emails`: `hasService` is whether `self.service` is set, `listed`
      the ids of the listing (`results.get('messages', [])`), `None` when the
      listing raised. Any exception inside the loop ends in `[]`. */
  function FetchedEmails(env: Services, hasService: bool, listed: Option<seq<string>>): seq<EmailRecord> {
    if !hasService || listed.None? then []
    else
      match Collect(Map(Recorder(env), listed.value))
      case None => []
      case Some(rs) => rs
  }

  /** The body of the loop of `fetch_emails` for one id: the content, its
      URLs and the annotation, put together as the `email_data` dict; `None`
      where a lookup in the annotation raises `KeyError`. */
  method FetchOne(env: Services, id: string) returns (r: Option<EmailRecord>)
    ensures r == Recorder(env)(id)
  {
    var c := GetEmailContent(env.fetch(id), env.decode, env.visibleText);
    var urls := ExtractUrls(c.text);
    var ai := SummarizeWithAi(env.configured, c.text, c.subject, env.annotate);
    if ai.summary.None? || ai.keyPoints.None? || ai.actionItems.None? || ai.sentiment.None? {
      return None;
    }
    var content := if |c.text| > ContentLimit then c.text[..ContentLimit] + "..." else c.text;
    r := Some(EmailRecord(id, c.subject, c.sender, c.date, content, urls,
                          ai.summary.value, ai.keyPoints.value, ai.actionItems.value,
                          ai.sentiment.value));
  }

  /** `fetch_emails` with its loop: each id's record is appended to `emails`;
      a failed one ends the call with `[]`. */
  method FetchEmails(env: Services, hasService: bool, listed: Option<seq<string>>)
    returns (emails: seq<EmailRecord>)
    ensures emails == FetchedEmails(env, hasService, listed)
  {
    if !hasService || listed.None? {
      return [];
    }
    var ids := listed.value;
    emails := [];
    var i := 0;
    while i < |ids|
      invariant 0 <= i <= |ids|
      invariant Collect(Map(Recorder(env), ids[..i])) == Some(emails)
    {
      var record := FetchOne(env, ids[i]);
      CollectStep(Recorder(env), ids, i, emails);
      if record.None? {
        return [];
      }
      emails := emails + [record.value];
      i := i + 1;
    }
    assert ids[..i] == ids;
  }

  /** What each record holds: its id and headers; at most 503 characters of
      the cleaned content, which is a prefix of it; the distinct URLs of the
      whole cleaned content, not only of the stored part; the four fields of
      the annotation, and, without a client or for a blank body, the neutral
      fallback annotation. */
  lemma RecordShape(env: Services, id: string)
    ensures RecordFor(env, id).Some? ==>
            var r := RecordFor(env, id).value;
            var c := EmailContent(env.fetch(id), env.decode, env.visibleText);
            && r.id == id && r.subject == c.subject && r.sender == c.sender && r.date == c.date
            && |r.content| <= ContentLimit + 3 && IsCollapsed(c.text)
            && (|c.text| <= ContentLimit ==> r.content == c.text)
            && (|c.text| > ContentLimit ==> r.content == c.text[..ContentLimit] + "...")
            && NoDuplicates(r.urls)
            && (forall u :: u in r.urls <==> u in Matches(c.text))
            && (forall u :: u in r.urls ==> IsUrl(u) && IsInfix(u, c.text))
            && (var reply := SummarizeWithAi(env.configured, c.text, c.subject, env.annotate);
                && reply.summary == Some(r.summary) && reply.keyPoints == Some(r.keyPoints)
                && reply.actionItems == Some(r.actionItems) && reply.sentiment == Some(r.sentiment))
            && (!env.configured || IsBlank(c.text) ==>
                  r.summary == NotConfigured && r.keyPoints == [] && r.actionItems == []
                  && r.sentiment == Neutral)
  {
    var c := EmailContent(env.fetch(id), env.decode, env.visibleText);
    TruncateBounds(c.text);
  }

  /** `fetch_emails` returns either nothing or one record per listed id, in
      listing order; it returns nothing without a service or a listing,
      and also when one reply lacks a key. */
  lemma FetchedEmailsSpec(env: Services, hasService: bool, listed: Option<seq<string>>)
    ensures var es := FetchedEmails(env, hasService, listed);
            && (!hasService || listed.None? ==> es == [])
            && (hasService && listed.Some? ==>
                  ((exists i :: 0 <= i < |listed.value| && RecordFor(env, listed.value[i]).None?)
                     ==> es == [])
                  && ((forall i :: 0 <= i < |listed.value| ==> RecordFor(env, listed.value[i]).Some?)
                     ==> |es| == |listed.value|
                         && forall i :: 0 <= i < |es| ==> RecordFor(env, listed.value[i]) == Some(es[i])))
  {
    if hasService && listed.Some? {
      CollectSpec(Map(Recorder(env), listed.value));
    }
  }

  /** An email's record survives exactly when its reply has all four keys;
      without a client, or for a blank body, the fallback reply has them. */
  lemma FallbackRecordsSurvive(env: Services, id: string)
    requires !env.configured || IsBlank(EmailContent(env.fetch(id), env.decode, env.visibleText).text)
    ensures RecordFor(env, id).Some?
  {
  }

  // ----- create_digest -----

  /** The dict `create_digest` returns: `{}` for no emails. */
  datatype Digest =
    | NoEmails
    | Digest(totalEmails: nat, uniqueUrls: seq<string>, sentimentDistribution: seq<Entry>,
             actionItems: seq<string>, topSenders: seq<Entry>, start: string, end: string)

  function UrlsOf(e: EmailRecord): seq<string> { e.urls }
  function ActionItemsOf(e: EmailRecord): seq<string> { e.actionItems }
  function SentimentOf(e: EmailRecord): string { e.sentiment }
  function SenderOf(e: EmailRecord): string { e.sender }

  function UrlLists(emails: seq<EmailRecord>): seq<seq<string>> { Map(UrlsOf, emails) }
  function ActionLists(emails: seq<EmailRecord>): seq<seq<string>> { Map(ActionItemsOf, emails) }
  function Sentiments(emails: seq<EmailRecord>): seq<string> { Map(SentimentOf, emails) }
  function Senders(emails: seq<EmailRecord>): seq<string> { Map(SenderOf, emails) }

  /** The digest of a list of records. */
  function DigestOf(emails: seq<EmailRecord>): Digest {
    if emails == [] then NoEmails
    else
      Digest(|emails|, Dedup(Flatten(UrlLists(emails))), Tally(Sentiments(emails)),
             Flatten(ActionLists(emails)), Ranked(Senders(emails), TopSenderCount),
             emails[|emails| - 1].date, emails[0].date)
  }

  /** `create_digest`: `{}` for no records, otherwise the four loops and the
      dict built from their results. */
  method CreateDigest(emails: seq<EmailRecord>) returns (d: Digest)
    ensures d == DigestOf(emails)
  {
    if emails == [] {
      return NoEmails;
    }
    var allUrls := ExtendEach(UrlsOf, emails);
    var sentimentCounts := CountEach(SentimentOf, emails);
    var allActionItems := ExtendEach(ActionItemsOf, emails);
    var senderCounts := CountEach(SenderOf, emails);
    d := Digest(|emails|, Dedup(allUrls), sentimentCounts, allActionItems,
                Take(SortByCountDesc(senderCounts), TopSenderCount),
                emails[|emails| - 1].date, emails[0].date);
  }

  /** Empty input gives `{}`; otherwise the digest counts every email and
      dates the range from the last record to the first. */
  lemma DigestTotals(emails: seq<EmailRecord>)
    ensures DigestOf(emails).NoEmails? <==> emails == []
    ensures emails != [] ==>
              var d := DigestOf(emails);
              d.totalEmails == |emails| && d.start == emails[|emails| - 1].date
              && d.end == emails[0].date
  {
  }

  /** `unique_urls` holds each URL of any record exactly once. */
  lemma DigestUrls(emails: seq<EmailRecord>)
    requires emails != []
    ensures NoDuplicates(DigestOf(emails).uniqueUrls)
    ensures forall u :: u in DigestOf(emails).uniqueUrls <==>
              exists i :: 0 <= i < |emails| && u in emails[i].urls
  {
    forall u ensures u in DigestOf(emails).uniqueUrls <==>
                       exists i :: 0 <= i < |emails| && u in emails[i].urls {
      FlattenMember(UrlLists(emails), u);
    }
  }

  /** The sentiment histogram has each sentiment once, in order of first
      appearance, with the number of emails carrying it; the counts add up to
      the number of emails. */
  lemma DigestSentiments(emails: seq<EmailRecord>)
    requires emails != []
    ensures var h := DigestOf(emails).sentimentDistribution;
            && Keys(h) == Dedup(Sentiments(emails))
            && (forall s :: CountOf(h, s) == Occurrences(Sentiments(emails), s))
            && Sum(h) == |emails|
  {
    TallyIsCount(Sentiments(emails));
  }

  /** `action_items` is the records' action items one record after another:
      record i's items sit right after those of the records before it. */
  lemma DigestActionItems(emails: seq<EmailRecord>, i: nat)
    requires i < |emails|
    ensures var a := DigestOf(emails).actionItems;
            var before := TotalLength(ActionLists(emails)[..i]);
            && |a| == TotalLength(ActionLists(emails))
            && before + |emails[i].actionItems| <= |a|
            && a[before..before + |emails[i].actionItems|] == emails[i].actionItems
  {
    var ls := ActionLists(emails);
    var a := DigestOf(emails).actionItems;
    assert a == Flatten(ls);
    FlattenLength(ls);
    FlattenSlot(ls, i);
    var before := TotalLength(ls[..i]);
    assert a[before..before + |ls[i]|] == ls[i];
    assert ls[i] == emails[i].actionItems;
  }

  /** `top_senders` is the top-five ranking of the senders. */
  lemma DigestSenders(emails: seq<EmailRecord>)
    requires emails != []
    ensures IsTopRanking(DigestOf(emails).topSenders, Senders(emails), TopSenderCount)
  {
    RankedSpec(Senders(emails), TopSenderCount);
  }
}
