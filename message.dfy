/** The record-building steps both apps share: header lookup and body
    selection in `get_email_content`, the content truncation of
    `fetch_emails`, and `get_date_range_query`. A message is the `payload`
    object the mailbox API returns. */
module Message {
  import opened Wrappers
  import opened Text

  datatype Header = Header(name: string, value: string)

  /** A part's `body` object; `data` may be absent. */
  datatype Body = Body(data: Option<string>)

  datatype Part = Part(mimeType: string, body: Body)

  /** `message['payload']`: its headers, its `parts` list when the key is
      present, and its own single body. */
  datatype Payload = Payload(headers: seq<Header>, parts: Option<seq<Part>>, body: Body)

  /** `body.get('data', '')`. */
  function DataOf(b: Body): string {
    match b.data case Some(d) => d case None => ""
  }

  /** `next((h['value'] for h in headers if h['name'] == name), default)`:
      the value of the first header with exactly that name, else the default. */
  function HeaderValue(headers: seq<Header>, name: string, default: string): (r: string)
    ensures (forall k :: 0 <= k < |headers| ==> headers[k].name != name) ==> r == default
    ensures forall k :: 0 <= k < |headers| && headers[k].name == name
              && (forall j :: 0 <= j < k ==> headers[j].name != name)
              ==> r == headers[k].value
  {
    if headers == [] then default
    else if headers[0].name == name then headers[0].value
    else
      var r := HeaderValue(headers[1..], name, default);
      assert forall k :: 0 < k < |headers| ==> headers[1..][k - 1] == headers[k];
      r
  }

  const Plain := "text/plain"
  const Html := "text/html"

  /** Whether some part has the given type. */
  predicate HasType(parts: seq<Part>, mime: string) {
    exists k :: 0 <= k < |parts| && parts[k].mimeType == mime
  }

  /** The value `body` holds after the `for part in parts` loop has run over
      all of `parts`, starting from `acc`: a `text/plain` part is taken and
      ends the loop, a `text/html` part replaces what was taken so far. */
  function ScanParts(parts: seq<Part>, acc: string): (r: string)
    ensures !HasType(parts, Plain) && !HasType(parts, Html) ==> r == acc
    ensures forall k :: 0 <= k < |parts| && parts[k].mimeType == Plain
              && (forall j :: 0 <= j < k ==> parts[j].mimeType != Plain)
              ==> r == DataOf(parts[k].body)
    ensures !HasType(parts, Plain) ==>
              forall k :: 0 <= k < |parts| && parts[k].mimeType == Html
                && (forall j :: k < j < |parts| ==> parts[j].mimeType != Html)
                ==> r == DataOf(parts[k].body)
    decreases |parts|
  {
    if parts == [] then acc
    else
      var p := parts[0];
      var rest := parts[1..];
      assert forall k :: 0 < k < |parts| ==> rest[k - 1] == parts[k];
      if p.mimeType == Plain then DataOf(p.body)
      else if p.mimeType == Html then ScanParts(rest, DataOf(p.body))
      else ScanParts(rest, acc)
  }

  /** The body `get_email_content` hands to `clean_email_content`. */
  function SelectedBody(payload: Payload): (r: string)
    ensures payload.parts.None? ==> r == DataOf(payload.body)
    ensures payload.parts.Some? ==>
              var ps := payload.parts.value;
              (!HasType(ps, Plain) && !HasType(ps, Html) ==> r == "")
              && (forall k :: 0 <= k < |ps| && ps[k].mimeType == Plain
                    && (forall j :: 0 <= j < k ==> ps[j].mimeType != Plain)
                    ==> r == DataOf(ps[k].body))
              && (!HasType(ps, Plain) ==>
                    forall k :: 0 <= k < |ps| && ps[k].mimeType == Html
                      && (forall j :: k < j < |ps| ==> ps[j].mimeType != Html)
                      ==> r == DataOf(ps[k].body))
  {
    match payload.parts
    case Some(ps) => ScanParts(ps, "")
    case None => DataOf(payload.body)
  }

  /** The part loop of `get_email_content`, with its `break`. */
  method SelectBody(payload: Payload) returns (body: string)
    ensures body == SelectedBody(payload)
  {
    body := "";
    if payload.parts.Some? {
      var ps := payload.parts.value;
      var i := 0;
      while i < |ps|
        invariant 0 <= i <= |ps|
        invariant ScanParts(ps[i..], body) == ScanParts(ps, "")
        decreases |ps| - i
      {
        assert ps[i..][1..] == ps[i + 1..];
        if ps[i].mimeType == Plain {
          body := DataOf(ps[i].body);
          break;
        } else if ps[i].mimeType == Html {
          body := DataOf(ps[i].body);
        }
        i := i + 1;
      }
    } else {
      body := DataOf(payload.body);
    }
  }

  /** `get_email_content` given what the API call returned (`None` when it
      raised): the cleaned body and the three headers, or four empty strings. */
  datatype Content = Content(text: string, subject: string, sender: string, date: string)

  function EmailContent(fetched: Option<Payload>, decode: string -> Option<string>,
                        visibleText: string -> string): (c: Content)
    ensures fetched.None? ==> c == Content("", "", "", "")
    ensures IsCollapsed(c.text)
  {
    match fetched
    case None => Content("", "", "", "")
    case Some(p) =>
      Content(CleanEmailContent(SelectedBody(p), decode, visibleText),
              HeaderValue(p.headers, "Subject", "No Subject"),
              HeaderValue(p.headers, "From", "Unknown Sender"),
              HeaderValue(p.headers, "Date", "Unknown Date"))
  }

  method GetEmailContent(fetched: Option<Payload>, decode: string -> Option<string>,
                         visibleText: string -> string) returns (c: Content)
    ensures c == EmailContent(fetched, decode, visibleText)
  {
    match fetched {
      case None =>
        c := Content("", "", "", "");
      case Some(p) =>
        var subject := HeaderValue(p.headers, "Subject", "No Subject");
        var sender := HeaderValue(p.headers, "From", "Unknown Sender");
        var date := HeaderValue(p.headers, "Date", "Unknown Date");
        var body := SelectBody(p);
        var cleaned := CleanEmailContent(body, decode, visibleText);
        c := Content(cleaned, subject, sender, date);
    }
  }

  const ContentLimit := 500

  /** `content[:500] + "..." if len(content) > 500 else content`. */
  function TruncateContent(content: string): (r: string)
    ensures |content| <= ContentLimit ==> r == content
    ensures |content| > ContentLimit ==>
              |r| == ContentLimit + 3 && r[..ContentLimit] == content[..ContentLimit]
              && r[ContentLimit..] == "..."
  {
    if |content| > ContentLimit then content[..ContentLimit] + "..." else content
  }

  /** The stored content is at most 503 characters and starts with the
      content, up to the limit; truncating it again changes nothing. */
  lemma TruncateBounds(content: string)
    ensures |TruncateContent(content)| <= ContentLimit + 3
    ensures var r := TruncateContent(content);
            var n := if |content| < ContentLimit then |content| else ContentLimit;
            r[..n] == content[..n]
    ensures TruncateContent(TruncateContent(content)) == TruncateContent(content)
  {
    var r := TruncateContent(content);
    if |content| > ContentLimit {
      assert r[..ContentLimit] + "..." == r;
    }
  }

  /** `get_date_range_query`. */
  function DateRangeQuery(start: string, end: string): (q: string)
    ensures |q| == |start| + |end| + 14
    ensures q[..6] == "after:" && q[6..6 + |start|] == start
    ensures q[6 + |start|..14 + |start|] == " before:" && q[14 + |start|..] == end
  {
    "after:" + start + " before:" + end
  }

  /** Index of the first space in `s`, or |s|. */
  function SpaceAt(s: string): (i: nat)
    ensures i <= |s| && (i < |s| ==> s[i] == ' ')
    ensures forall j :: 0 <= j < i ==> s[j] != ' '
  {
    if s == [] || s[0] == ' ' then 0 else 1 + SpaceAt(s[1..])
  }

  /** Reads the two dates back out of a date-range query, the way a query
      language that splits terms at spaces does. */
  function ParseDateRangeQuery(q: string): (r: Option<(string, string)>)
    ensures r.Some? ==> DateRangeQuery(r.value.0, r.value.1) == q
  {
    if |q| < 6 || q[..6] != "after:" then None
    else
      var rest := q[6..];
      var i := SpaceAt(rest);
      if i + 8 <= |rest| && rest[i..i + 8] == " before:" then
        assert q == "after:" + rest[..i] + " before:" + rest[i + 8..];
        Some((rest[..i], rest[i + 8..]))
      else None
  }

  /** A query built from a start date without spaces (the app passes
      `strftime('%Y/%m/%d')`) reads back as the same two dates. */
  lemma DateRangeQueryRoundTrip(start: string, end: string)
    requires forall k :: 0 <= k < |start| ==> start[k] != ' '
    ensures ParseDateRangeQuery(DateRangeQuery(start, end)) == Some((start, end))
  {
    var q := DateRangeQuery(start, end);
    var rest := q[6..];
    assert rest == start + " before:" + end;
    assert SpaceAt(rest) == |start| by {
      assert rest[|start|] == ' ';
      assert forall j :: 0 <= j < |start| ==> rest[j] == start[j];
    }
    assert rest[..|start|] == start;
    assert rest[|start|..|start| + 8] == " before:";
    assert rest[|start| + 8..] == end;
  }
}
