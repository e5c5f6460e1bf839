# Gmail digest pipeline

A Dafny model of the core of two Streamlit apps that read a Gmail mailbox
and summarise it:

- `gmail_ai_summarizer.py` is the AI summariser. It fetches messages,
  cleans each body to plain text and extracts its URLs. It asks an OpenAI
  chat model for a summary, key points, action items and a sentiment. It
  then folds the records into a digest: unique URLs, sentiment
  distribution, action items, top senders and date range.
- `gmail_url_extractor.py` is the URL extractor. It runs the same pipeline
  without the AI step. Its records carry `url_count`. Its digest adds
  `total_urls` and a ranking of URL domains, where a domain is the
  `netloc` of `urllib.parse.urlparse`.

The two files share their text-handling methods line for line, so those
are modelled once:

| module | what it models |
|---|---|
| `Text` (`text.dfy`) | `clean_email_content`: the empty-input guard, the decode-or-keep-original step, and the whitespace collapse (`splitlines`, `strip`, `split("  ")`, `' '.join`); `str.split()` as an independent definition of the words of a text |
| `UrlScan` (`urls.dfy`) | `extract_urls_from_text`: the regular expression as a left-to-right scanner with `re.findall`'s resume rule, then the duplicate removal |
| `Message` (`message.dfy`) | `get_email_content` (header lookup with defaults, body-part selection, the error return), the display truncation of `fetch_emails`, and `get_date_range_query` |
| `Counting` (`counting.dfy`) | the `dict.get(k, 0) + 1` counters, and `sorted(items, key=count, reverse=True)[:n]` as a stable sort followed by a prefix |
| `Seqs` (`seqs.dfy`) | duplicate removal, `extend` loops (flattening), per-element maps |
| `Summarizer` (`summarizer.dfy`) | `summarize_with_ai`, `fetch_emails` and `create_digest` of the AI summariser |
| `Extractor` (`extractor.dfy`) | `urlparse(...).netloc`, `fetch_emails` with `url_count`, and `create_digest` with `total_urls` and `url_domains` |

Python values map to Dafny values as follows:

- The app's loops (fetching, collecting, counting) are methods with
  `while` loops. Each is proved equal to a specification function, and the
  properties are lemmas about that function. The `extend` loops and the
  counting loops of `create_digest` share one method each.
- Dicts are sequences of key/count entries in insertion order.
- Everything outside the program is a function-valued parameter: the Gmail
  API, `base64.urlsafe_b64decode(...).decode('utf-8')`, BeautifulSoup's
  text extraction, and the OpenAI call followed by `json.loads`.

Three behaviours of the code a reader might not expect:

- The sentiment from the model's JSON is stored as it comes. It is not
  mapped onto `positive`/`negative`/`neutral`.
- If the parsed JSON lacks one of the four keys, the whole `fetch_emails`
  result is `[]`. The lookup `ai_summary['summary']` and the others raise
  `KeyError`, and the outer `except` catches it. So a failed annotation is
  not always harmless.
- Every record has a sentiment, so every record counts in the sentiment
  distribution.

## Model

| member | source | states |
|---|---|---|
| UrlScan.UrlCharClosedForm | gmail_ai_summarizer.py:85 | the pattern's character class is exactly a-z, the range `$`..`_` and `!`; `%`, `.`, `?`, `=` are in it, `"`, `#`, backquote and space are not |
| UrlScan.SchemeLen | gmail_ai_summarizer.py:85 | `http[s]?://` matches 8 characters exactly when "https://" is there, 7 exactly when "http://" is there and "https://" is not, and 0 otherwise |
| UrlScan.RunLen | gmail_ai_summarizer.py:85 | the greedy `+` takes a maximal run of class characters |
| UrlScan.MatchEnd | gmail_ai_summarizer.py:85 | the pattern matches at a position iff a scheme is followed by at least one class character; the match then ends at the end of the run |
| UrlScan.Spans | gmail_ai_summarizer.py:86 | the `findall` matches are actual matches, ordered and non-overlapping |
| UrlScan.Matches | gmail_ai_summarizer.py:86 | `findall` returns one string per match, in text order; each has its match's length and occurs in the text at its match's start |
| UrlScan.ExtractUrls | gmail_ai_summarizer.py:83-87 | the result has no duplicates, has the same members as the list of matches, and each URL is well formed and occurs in the text; empty text gives no URLs |
| UrlScan.MatchesAreUrls | gmail_ai_summarizer.py:85-86 | every match is a scheme plus class characters and occurs in the text |
| UrlScan.MatchesAreMaximal | gmail_ai_summarizer.py:85-86 | every match ends at the end of the text or just before a character outside the class |
| UrlScan.SpansCover | gmail_ai_summarizer.py:86 | no match is missed: any position where the pattern could match lies inside a found match |
| UrlScan.NoHttpNoUrls | gmail_ai_summarizer.py:83-87 | text without "http" yields no URLs |
| UrlScan.ExtractFromUrl | gmail_url_extractor.py:74-78 | extracting from a single extracted URL gives back exactly that URL |
| Text.SkipSpaces | gmail_ai_summarizer.py:111 | the leading whitespace that `strip()` removes, ending at the first non-space |
| Text.BackSpaces | gmail_ai_summarizer.py:111 | the trailing whitespace that `strip()` removes, starting after the last non-space |
| Text.Strip | gmail_ai_summarizer.py:111-112 | `str.strip()` leaves no whitespace at either end |
| Text.StripSpec | gmail_ai_summarizer.py:111-112 | `strip()` returns the infix of its input between the removed leading and trailing whitespace |
| Text.StripKeepsShape | gmail_ai_summarizer.py:111-112 | stripping a string without line breaks or double spaces yields one without them too |
| Text.StripVisible | gmail_ai_summarizer.py:111-112 | `strip()` removes whitespace only |
| Text.StripTrimmed | gmail_ai_summarizer.py:111-112 | `strip()` leaves an already trimmed string unchanged |
| Text.StripEmptyIffBlank | gmail_ai_summarizer.py:148 | `not content.strip()` holds exactly when the content is all whitespace |
| Text.LineBreakAt | gmail_ai_summarizer.py:111 | the first line boundary `splitlines()` recognises |
| Text.BreakLength | gmail_ai_summarizer.py:111 | a line boundary is one character, or two for "\r\n", and lies inside the text |
| Text.SplitLines | gmail_ai_summarizer.py:111 | `splitlines()` yields lines without line-break characters; only the empty string yields no lines |
| Text.SplitLinesOfOneLine | gmail_ai_summarizer.py:111 | a non-empty string without line breaks is its own only line |
| Text.VisibleSplitLines | gmail_ai_summarizer.py:111 | `splitlines()` drops only whitespace |
| Text.SplitLinesKeepEnds | gmail_ai_summarizer.py:111 | `splitlines(keepends=True)`: every kept line is non-empty |
| Text.SplitLinesRoundTrip | gmail_ai_summarizer.py:111 | the kept lines joined together are the text again |
| Text.SplitLinesKeepEndsLines | gmail_ai_summarizer.py:111 | the lines of `splitlines()` are the kept lines without their boundaries; a boundary is "", "\r\n" or one boundary character; only the last line may lack one; a lone "\r" is never followed by "\n" |
| Text.DoubleSpaceAt | gmail_ai_summarizer.py:112 | the leftmost occurrence of two spaces |
| Text.SplitOnDoubleSpace | gmail_ai_summarizer.py:112 | `split("  ")` gives at least one piece, no piece holds a double space, and pieces of a line hold no line break |
| Text.SplitOfNoDoubleSpace | gmail_ai_summarizer.py:112 | a string without a double space splits into itself alone |
| Text.KeepStripped | gmail_ai_summarizer.py:112-113 | the `if chunk` filter keeps at most one phrase per piece, each non-empty and trimmed |
| Text.VisibleSplitOnDoubleSpace | gmail_ai_summarizer.py:112 | `split("  ")` drops only spaces |
| Text.SplitOnDoubleSpaceRoundTrip | gmail_ai_summarizer.py:112 | `"  ".join(s.split("  ")) == s` |
| Text.KeepStrippedChunks | gmail_ai_summarizer.py:112-113 | the stripped, non-empty phrases have no surrounding, doubled or line-break whitespace |
| Text.VisibleKeepStripped | gmail_ai_summarizer.py:112-113 | stripping phrases and dropping the empty ones loses no visible character |
| Text.LineChunks | gmail_ai_summarizer.py:112-113 | the chunks of one line are trimmed, non-empty and free of double spaces |
| Text.Chunks | gmail_ai_summarizer.py:111-113 | the chunk stream over all lines consists of chunks only |
| Text.VisibleChunks | gmail_ai_summarizer.py:111-113 | the chunk stream keeps every visible character of the lines, in order |
| Text.Join | gmail_ai_summarizer.py:113 | `' '.join` of chunks is collapsed text, and it is non-empty when there is a chunk |
| Text.VisibleJoin | gmail_ai_summarizer.py:113 | joining with a whitespace separator adds no visible character |
| Text.Collapse | gmail_ai_summarizer.py:111-113 | the collapsed text has no line break, no double space and no surrounding whitespace |
| Text.CollapseFixesCollapsed | gmail_ai_summarizer.py:111-113 | collapsed text collapses to itself |
| Text.CollapseIdempotent | gmail_ai_summarizer.py:111-113 | collapsing twice is collapsing once |
| Text.CollapseKeepsVisible | gmail_ai_summarizer.py:111-113 | the collapse keeps every non-whitespace character, in order |
| Text.WordsAreRuns | gmail_ai_summarizer.py:111-113 | the words of `str.split()` are non-empty runs without whitespace |
| Text.WordsAppend | gmail_ai_summarizer.py:111-113 | when whitespace separates two strings, the words of the whole are the words of the first followed by those of the second |
| Text.StripWords | gmail_ai_summarizer.py:111-112 | `strip()` keeps every word |
| Text.WordsSplitLines | gmail_ai_summarizer.py:111 | the words of the lines, in order, are the words of the text |
| Text.WordsSplitOnDoubleSpace | gmail_ai_summarizer.py:112 | the words of the `split("  ")` pieces, in order, are the words of the string |
| Text.WordsKeepStripped | gmail_ai_summarizer.py:112-113 | stripping the phrases and dropping the empty ones keeps every word |
| Text.WordsChunks | gmail_ai_summarizer.py:111-113 | the chunks have the same words as the lines, in order |
| Text.WordsJoin | gmail_ai_summarizer.py:113 | `sep.join(xs)` with a non-empty whitespace separator has exactly the words of the parts, in order |
| Text.CollapseKeepsWords | gmail_ai_summarizer.py:111-113 | the collapse keeps the words: `collapse(t).split() == t.split()` |
| Text.CleanEmailContent | gmail_ai_summarizer.py:89-115 | empty input gives ""; the result is collapsed; its visible characters, and its words, are those of the page text of the decoded body, or of the raw body when decoding fails |
| Message.HeaderValue | gmail_ai_summarizer.py:123-125 | the value of the first header with exactly that name, or the default when there is none |
| Message.DataOf | gmail_ai_summarizer.py:132-137 | `body.get('data', '')`: the data, or "" when the key is missing |
| Message.ScanParts | gmail_ai_summarizer.py:130-135 | the part loop yields the first `text/plain` part's data; without one, the last `text/html` part's data; without either, the value before the loop |
| Message.SelectedBody | gmail_ai_summarizer.py:128-137 | a payload without `parts` gives its own body data (missing data is ""); with parts, as ScanParts, starting from "" |
| Message.SelectBody | gmail_ai_summarizer.py:128-137 | the `for`/`break` loop over the parts computes SelectedBody |
| Message.EmailContent | gmail_ai_summarizer.py:117-144 | a failed fetch gives four empty strings; the content is always collapsed text |
| Message.GetEmailContent | gmail_url_extractor.py:108-135 | the method computes EmailContent |
| Message.TruncateContent | gmail_ai_summarizer.py:223 | content of at most 500 characters is kept; longer content becomes its first 500 characters followed by "..." |
| Message.TruncateBounds | gmail_url_extractor.py:162 | the displayed content has at most 503 characters, starts with the content's first min(n, 500) characters, and truncating again changes nothing |
| Message.DateRangeQuery | gmail_ai_summarizer.py:238-240 | the query is "after:", the start, " before:", the end, and nothing else |
| Message.ParseDateRangeQuery | gmail_ai_summarizer.py:238-240 | any split it returns rebuilds the query |
| Message.DateRangeQueryRoundTrip | gmail_url_extractor.py:174-176 | a start date without spaces and any end date are recovered from their query |
| Counting.Keys | gmail_ai_summarizer.py:256 | the dict's keys in insertion order |
| Counting.CountOf | gmail_ai_summarizer.py:256 | `d.get(k, 0)`: the count of the first entry with key k; it is 0 when k is absent (CountOfMissing) |
| Counting.CountOfMissing | gmail_ai_summarizer.py:256 | a key the dict does not hold has count 0 |
| Counting.Bump | gmail_ai_summarizer.py:256 | `d[k] = d.get(k, 0) + 1` adds one to k's count, appends k only when it is new, and leaves every other count unchanged |
| Counting.TallySnoc | gmail_ai_summarizer.py:254-256 | one more loop pass bumps the next key |
| Counting.Tally | gmail_ai_summarizer.py:264-267 | the dict after the counting loop: one `Bump` per item, in order |
| Counting.CountEach | gmail_ai_summarizer.py:253-256 | the counting loop computes the tally of the mapped keys |
| Counting.TallyIsCount | gmail_ai_summarizer.py:264-267 | the counting loop gives each distinct key, in first-occurrence order, its number of occurrences; the counts sum to the number of items |
| Counting.EntryCount | gmail_ai_summarizer.py:256 | with distinct keys, an entry's count is the count looked up by its key |
| Counting.Insert | gmail_ai_summarizer.py:274 | inserting into the sorted list adds one entry |
| Counting.InsertElements | gmail_ai_summarizer.py:274 | insertion keeps every element and adds the inserted one |
| Counting.InsertSorted | gmail_ai_summarizer.py:274 | insertion keeps the list sorted by descending count |
| Counting.InsertWithCount | gmail_ai_summarizer.py:274 | the inserted entry goes before the old entries with the same count |
| Counting.SortByCountDesc | gmail_ai_summarizer.py:274 | `sorted(..., key=count, reverse=True)` gives a permutation sorted by descending count, and entries with equal counts keep their order |
| Counting.Take | gmail_ai_summarizer.py:274 | `[:n]` is a prefix of exactly min(n, len) entries |
| Counting.Ranked | gmail_ai_summarizer.py:274 | `sorted(d.items(), key=count, reverse=True)[:n]` of the tally of the keys |
| Counting.RankedEntries | gmail_ai_summarizer.py:264-274 | every ranked entry is a distinct key of the input with its occurrence count |
| Counting.RankedIsTop | gmail_ai_summarizer.py:264-274 | a key left out of the ranking occurs no more often than any ranked key |
| Counting.RankedSpec | gmail_ai_summarizer.py:264-274 | the top n: exactly min(n, number of distinct keys) entries, sorted, distinct keys with their true counts, none left out that beats one kept, ties in first-occurrence order, total at most the number of items |
| Seqs.Dedup | gmail_ai_summarizer.py:271 | `list(set(xs))` has no duplicates and the same members as xs |
| Seqs.Flatten | gmail_ai_summarizer.py:248-250 | the list built by `extend`-ing with each list in turn |
| Seqs.FlattenSnoc | gmail_ai_summarizer.py:249-250 | one `extend` appends the next list |
| Seqs.ExtendEach | gmail_ai_summarizer.py:248-250 | the `extend` loop computes the flattening of the mapped lists |
| Seqs.FlattenLength | gmail_url_extractor.py:206 | the flattened list's length is the sum of the lists' lengths |
| Seqs.FlattenMember | gmail_ai_summarizer.py:248-250 | an item is in the flattened list iff it is in one of the lists |
| Seqs.FlattenAppend | gmail_ai_summarizer.py:259-261 | flattening distributes over concatenation |
| Seqs.FlattenSlot | gmail_ai_summarizer.py:259-261 | each list appears whole, at its offset, inside the flattened list |
| Seqs.Map | gmail_ai_summarizer.py:211-230 | one result per element, in order |
| Seqs.MapPrefix | gmail_ai_summarizer.py:230 | `append` in a loop extends the mapped prefix by one |
| Seqs.Collect | gmail_ai_summarizer.py:211-236 | the fetch loop with its outer `except`: all step values in order, or failure once a step fails |
| Seqs.CollectSpec | gmail_ai_summarizer.py:211-236 | the loop result fails iff some step fails; otherwise it holds every step's value, in order |
| Seqs.CollectFailed | gmail_ai_summarizer.py:234-236 | once a step fails, the whole loop fails |
| Seqs.CollectStep | gmail_ai_summarizer.py:211-236 | one loop step in the presence of failures |
| Summarizer.Excerpt | gmail_ai_summarizer.py:165 | the prompt carries a prefix of the content: all of it when it fits, otherwise exactly its first 3000 characters |
| Summarizer.FallbackReply | gmail_ai_summarizer.py:148-154 | the reply without a model call: the given summary, no key points, no action items, `neutral` |
| Summarizer.SummarizeWithAi | gmail_ai_summarizer.py:146-193 | no client or blank content gives the "not configured" reply; otherwise the parsed answer, or on an exception the error reply with the exception text |
| Summarizer.SummarizeOutcomes | gmail_ai_summarizer.py:146-193 | the reply is the model's answer or a fallback with a summary, empty lists and `neutral`; the reply depends on the content only through its blankness and its 3000-character excerpt |
| Summarizer.BuildRecord | gmail_ai_summarizer.py:218-229 | a record exists iff the reply has all four keys |
| Summarizer.RecordFor | gmail_ai_summarizer.py:211-229 | the record for one id, from its fetched content and its annotation |
| Summarizer.FetchOne | gmail_ai_summarizer.py:212-229 | one pass of the loop builds the record for an id, or fails on a missing key |
| Summarizer.FetchEmails | gmail_ai_summarizer.py:195-236 | the loop computes FetchedEmails |
| Summarizer.FetchedEmails | gmail_ai_summarizer.py:195-236 | what `fetch_emails` returns: [] without a service or listing, else the records of the listed ids, or [] when one fails |
| Summarizer.RecordShape | gmail_ai_summarizer.py:211-229 | a record carries the id and headers of its message, the content truncated to 500 plus "...", distinct URLs that are exactly the pattern's matches in the cleaned text, the four fields of the annotation reply, and the fallback reply when there is no client or the content is blank |
| Summarizer.FetchedEmailsSpec | gmail_ai_summarizer.py:195-236 | no service or a failed listing gives []; a record that fails empties the result; otherwise one record per listed id, in order |
| Summarizer.FallbackRecordsSurvive | gmail_ai_summarizer.py:148-154 | without a client, or for a blank body, the message yields a record |
| Summarizer.CreateDigest | gmail_ai_summarizer.py:242-279 | the method computes DigestOf |
| Summarizer.DigestOf | gmail_ai_summarizer.py:242-279 | the digest: `{}` for no records, else the totals, URL list, sentiment tally, action items, top senders and date range |
| Summarizer.DigestTotals | gmail_ai_summarizer.py:244-245 | `{}` exactly for no records; otherwise the count of records and the date range from the last record's date to the first's |
| Summarizer.DigestUrls | gmail_ai_summarizer.py:248-250 | `unique_urls` has no duplicates and holds exactly the URLs of some record |
| Summarizer.DigestSentiments | gmail_ai_summarizer.py:253-256 | the sentiment distribution has each distinct sentiment once, with its number of records; the counts sum to the number of records |
| Summarizer.DigestActionItems | gmail_ai_summarizer.py:259-261 | `action_items` is all records' action items in record order: each record's list appears whole at its offset |
| Summarizer.DigestSenders | gmail_ai_summarizer.py:264-274 | `top_senders` is exactly min(5, number of distinct senders) distinct senders with their true counts, sorted by count, none left out that sends more than one kept, ties in first-seen order |
| Extractor.SkipC0 | gmail_url_extractor.py:198 | the leading C0 controls and spaces that `urlsplit` strips |
| Extractor.StripC0Left | gmail_url_extractor.py:198 | `url.lstrip(C0 and space)` is a suffix whose removed prefix is all controls or spaces |
| Extractor.RemoveUnsafe | gmail_url_extractor.py:198 | after removing tab, CR and LF, none is left |
| Extractor.RemoveUnsafeOfClean | gmail_url_extractor.py:198 | a string without tab, CR or LF is unchanged |
| Extractor.FirstOf | gmail_url_extractor.py:198 | the first position holding one of the given characters |
| Extractor.AfterScheme | gmail_url_extractor.py:198 | what follows the scheme is a suffix of the URL |
| Extractor.Netloc | gmail_url_extractor.py:198 | a netloc holds no `/`, `?`, `#`, tab, CR or LF and has balanced brackets; unbalanced brackets raise, so there is no netloc |
| Extractor.PrefixLength | gmail_url_extractor.py:76 | an extracted URL starts with "https://" or "http://" followed by class characters only |
| Extractor.HostPart | gmail_url_extractor.py:198 | the host part of an extracted URL is a prefix of what follows the scheme, holds no `/` or `?`, and ends at one of them or at the end |
| Extractor.UrlIsClean | gmail_url_extractor.py:198 | `urlparse`'s input cleaning leaves an extracted URL unchanged |
| Extractor.AfterSchemeOfUrl | gmail_url_extractor.py:198 | for an extracted URL the scheme is "http"/"https" and the rest starts at "//" |
| Extractor.NetlocOfUrl | gmail_url_extractor.py:198 | the netloc of an extracted URL is its host part up to the first `/` or `?`, unless its brackets are unbalanced |
| Extractor.FirstOfUrlTail | gmail_url_extractor.py:76 | an extracted URL holds no `#`, so only `/` and `?` end its netloc |
| Extractor.Domains | gmail_url_extractor.py:195-201 | at most one domain per URL |
| Extractor.DomainsSpec | gmail_url_extractor.py:195-201 | every counted domain is the netloc of some URL, and the netloc of every URL that parses is counted |
| Extractor.FetchOne | gmail_url_extractor.py:154-165 | one pass of the loop builds RecordFor |
| Extractor.RecordFor | gmail_url_extractor.py:154-165 | the record for one id, from its fetched content |
| Extractor.FetchEmails | gmail_url_extractor.py:137-172 | the loop computes FetchedEmails |
| Extractor.FetchedEmails | gmail_url_extractor.py:137-172 | what `fetch_emails` returns: [] without a service or listing, else the record of each listed id |
| Extractor.RecordShape | gmail_url_extractor.py:153-165 | a record carries the id and headers of its message, `url_count` equal to its number of URLs, distinct URLs that are exactly the pattern's matches in the cleaned text, and the content truncated to 500 plus "..." |
| Extractor.FetchedEmailsSpec | gmail_url_extractor.py:137-172 | no service or a failed listing gives []; otherwise one record per listed id, in order |
| Extractor.CountDomains | gmail_url_extractor.py:195-201 | the loop computes the tally of the domains and skips URLs whose parsing raises |
| Extractor.CreateDigest | gmail_url_extractor.py:178-213 | the method computes DigestOf |
| Extractor.DigestOf | gmail_url_extractor.py:178-213 | the digest: `{}` for no records, else the totals, URL list, top senders, top domains and date range |
| Extractor.DigestTotals | gmail_url_extractor.py:180-212 | `{}` exactly for no records; otherwise the record count, the date range from the last record to the first, and `total_urls` equal to the sum of the records' `url_count` |
| Extractor.UrlCountSumIsLength | gmail_url_extractor.py:164 | when each `url_count` is its record's number of URLs, they sum to the total length of the URL lists |
| Extractor.DigestUrls | gmail_url_extractor.py:184-186 | `unique_urls` has no duplicates, holds exactly the URLs of some record, and is no longer than `total_urls` |
| Extractor.DigestSenders | gmail_url_extractor.py:189-207 | `top_senders` is exactly min(5, number of distinct senders) distinct senders with their true counts, sorted by count, none left out that sends more than one kept |
| Extractor.DomainRanking | gmail_url_extractor.py:195-208 | the top 10 domains: exactly min(10, number of distinct domains) entries, distinct netlocs of the URLs with their true counts, sorted, none left out that beats one kept, total count at most the number of URLs |
| Extractor.DigestDomains | gmail_url_extractor.py:195-208 | `url_domains` of the digest is that ranking: each key the netloc of some URL, and the counts sum to at most `total_urls` |

## Left out

- OAuth, token files and the creation of the Gmail and OpenAI clients are not modelled. Only their results are: whether a service or client exists.
- The network calls are parameters of the model. These are `messages().list`, `messages().get` and the chat completion. The listing is `None` when its call raises. `fetch(id)` is `None` when the call raises, and also when a payload lookup inside `get_email_content` (`message['payload']['headers']`, `part['mimeType']`, `part['body']`) raises, since the same `except` catches both.
- The `query` and `max_results` arguments of `fetch_emails` are not modelled. They only go to the listing call.
- `base64.urlsafe_b64decode(...).decode('utf-8')` is a parameter returning `None` on failure.
- BeautifulSoup's parsing, the removal of script and style elements, and `get_text()` together form one parameter.
- The prompt wording, model name, token limit and temperature are not modelled. Only the subject and the 3000-character excerpt reach the annotation parameter.
- `json.loads` is part of the annotation parameter. A value that is a list or a number instead of a dict is treated as a reply missing every key, which also leads to the empty `fetch_emails` result. JSON values of the wrong types (a number as `summary`, say) are not representable.
- `st.error` messages and all of the Streamlit UI are side effects and are not modelled: `main`, tabs, charts and CSV export.
- The real order of `list(set(...))` depends on Python's hash-based iteration order. The model returns first-occurrence order, but its contracts only state membership and absence of duplicates.
- Extractor.Netloc: `urlsplit`'s further validation is not modelled. That covers the bracketed-host check of newer Python releases, the NFKC normalisation check of a non-ASCII netloc, the lower-casing of the scheme and the parse cache. None of these changes the netloc of a URL the extraction pattern yields, which is pure ASCII. The exception is a bracketed host that newer releases reject.
- Summarizer.SummarizeOutcomes: its second clause treats the annotation as a function, so two calls with the same subject and excerpt give the same reply. The real chat call samples at temperature 0.3 and need not repeat itself.
- The collapse is not `' '.join(t.split())`: whitespace inside a phrase that is neither a line boundary nor part of a double space, such as a tab, is kept as it is. The model states what the collapse keeps (its words and its visible characters) rather than equating it with that expression.
- The rest of the repository is not part of this model: `demo.py`, `setup_gmail_api.py`, `check_gmail_api.py`, `test_auth.py`.
- Message.DateRangeQueryRoundTrip: the round trip needs a start date without spaces, because the query's own separator is the space before "before:". The dates the app passes are `YYYY/MM/DD`.
