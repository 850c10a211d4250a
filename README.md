# webcrawler crawl engine, modelled in Dafny

This project models the sequential decision logic of a single-site web crawler
written in Go: the engine in `internal/crawler.go` and its earlier iteration in
the root `crawler.go`. Given a page URL and the page's HTML tokens, the engine
filters and resolves each `<a href>`, drops links to the page itself, checks and
records each link in the `crawled` registry, and sends every new link on a
channel. It also refuses media bodies before tokenizing and sequences
"context check, fetch, read body, save" for one URL.

Files and modules:

- `wrappers.dfy` (`Wrappers`): `Option` and `Result`, for Go's `(value, error)` returns.
- `gostrings.dfy` (`GoStrings`): the parts of Go's `strings` package the engine uses:
  `HasPrefix`, `TrimSuffix`, `Contains` (a scan proved equal to "occurs at some
  position"), `ToLower` and `EqualFold`.
- `web.dfy` (`Web`): the engine's error values, the `Response` object (only its
  body is ever replaced), the HTML token stream, and the links `Channel`, whose
  `sent` sequence records every send.
- `links.dfy` (`Links`): `parseURL`. Both iterations carry the same function
  (`internal/crawler.go:222-235` and `crawler.go:144-155` differ only in logging),
  so it is defined once.
- `crawl.dfy` (`Crawl`): `internal/crawler.go`. `validateLink`, `linksFromToken`,
  `readBody` against the registry, `encodeBytes`, `getContent`, `downloadPage`
  and `processURL`. The `crawler` struct is the class `Crawl.Crawler`, whose
  `crawled` field is the set of the map's keys.
- `legacy.dfy` (`LegacyCrawl`): `crawler.go`. It has the same `parseURL` but no
  denylist and no dedup, lets media bodies through, uses a fetch threshold of
  500, and has a `readBody` that always fails.
- `scenario.dfy` (`Scenario`): one concrete seed page run through both engines.

`readBody` is a method with a loop. It is proved against the function
`Crawl.Discover`, a left fold of one loop turn (`Crawl.Step`) over the tokens up
to the first `ErrorToken`. The lemmas about `Discover` carry the main property:
every link is sent at most once, within one call and across calls that share
the registry. The method keeps `Consistent(ch)`: nothing on the channel twice,
and everything on the channel registered.

Foreign code and I/O enter as parameters:

- the HTML tokenizer is a function `Bytes -> seq<Token>`; a sequence that runs
  out stands for the `ErrorToken` the tokenizer reports at the end of input;
- `charset.NewReader` followed by `io.ReadAll` is one function
  `(Bytes, string) -> Result<Bytes, Error>`;
- the HTTP client's answer is a `Fetch(resp, err)` pair;
- `ctx.Err()` is an `Option<Error>`;
- the outcome of `Response.Save` is an `Option<Error>`.

Two details of the code are worth stating, because a quick reading suggests
otherwise:

- `validateLink` rejects any link that contains `.pdf` anywhere, not only at
  the end.
- The self-link test is in `readBody`, after resolution, using
  `strings.EqualFold`; `validateLink` does not look at the page URL.

## Model

| member | source | states |
|---|---|---|
| `Links.Base` | internal/crawler.go:223 | the base is the page URL with at most one trailing "/" removed, and exactly one when there is one |
| `Links.ParseURL` | internal/crawler.go:222-235 | the result is the link unchanged, the base followed by the link, or "" |
| `Links.ParseURLRule` | crawler.go:144-155 | the three-way rule shared by both files: a link in which the base occurs is returned unchanged; otherwise a link starting with "/" gets the base prepended; otherwise the result is "" |
| `Links.ParseURLAnchored` | internal/crawler.go:224-230 | every accepted result contains the base |
| `Links.ParseURLIdempotent` | internal/crawler.go:222-230 | resolving an accepted result again returns it unchanged |
| `Links.ParseURLEmptyBase` | internal/crawler.go:223-226 | for the page URL "" or "/", every link is returned unchanged |
| `Crawl.ValidateLink` | internal/crawler.go:214-220 | false exactly when the link contains ".pdf" or equals "#search", "#signin" or "/" |
| `Crawl.HrefLink` | internal/crawler.go:191-212 | the link of a tag is non-empty only when the tag has an href attribute that passes the denylist |
| `Crawl.HrefLinkIsFirstValid` | internal/crawler.go:191-212 | the link of a tag is parseURL of its first href value that passes the denylist, or "" when no href passes; rejected hrefs are skipped, and a valid href that parseURL refuses ends the scan with "" |
| `Crawl.Crawler.LinksFromToken` | internal/crawler.go:191-212 | the attribute loop with its early exits returns exactly the link above |
| `Crawl.StepSendsAtMostOne` | internal/crawler.go:146-159 | one turn of the loop (`Step`) sends at most one link, the link of its token, and does so exactly when the token is an `<a>` start tag whose link is non-empty, not the page itself and not yet registered; the registry gains exactly what is sent |
| `Crawl.Discover` | internal/crawler.go:138-161 | the loop over the tokens never removes a URL from the registry and sends at most one link per token |
| `Crawl.DiscoverEmitsNewLinksOnce` | internal/crawler.go:146-159 | every link sent is non-empty, not case-insensitively equal to the page URL, and absent from the registry before the call; no link is sent twice; the registry afterwards is the old registry plus exactly the links sent |
| `Crawl.DiscoverCovers` | internal/crawler.go:146-159 | no link is lost: every `<a>` link that is non-empty and not the page itself is in the registry afterwards |
| `Crawl.DiscoverEmitsOnlyAnchorLinks` | internal/crawler.go:146-159 | the converse: every link sent is the link of some `<a>` start tag of the stream |
| `Crawl.DiscoverSkipsOtherTokens` | internal/crawler.go:146 | a token that is not an `<a>` start tag, wherever it stands among the others, changes neither the registry nor the links sent |
| `Crawl.DiscoverRepeatedTagOnce` | internal/crawler.go:152-158 | a tag repeated n >= 1 times sends its new link exactly once |
| `Crawl.DiscoverKeepsSendsDistinct` | internal/crawler.go:152-158 | sends that were distinct and registered stay so after another page is read with the same registry |
| `Crawl.DiscoverAcrossCalls` | internal/crawler.go:131-164 | two pages read one after the other with one registry never send the same link twice |
| `Crawl.IsMedia` | internal/crawler.go:168-171 | true exactly when image/, video/, audio/ or font/ occurs in the content type |
| `Crawl.Encoded` | internal/crawler.go:166-189 | a media content type gives errInvalidURL; a success can only come from the transcoder, applied to the lower-cased content type |
| `Crawl.MediaGate` | internal/crawler.go:166-179 | a content type whose lower-cased form contains image/, video/, audio/ or font/ yields errInvalidURL; any other is handed, lower-cased, to the transcoder |
| `Crawl.MediaGateIgnoresCase` | internal/crawler.go:167-171 | content types that are equal up to case get the same treatment |
| `Crawl.GetContent` | internal/crawler.go:106-113 | a transport error or a status of 400 or more gives no response and errGettingURL; otherwise the response passes through; never a nil response without an error |
| `Crawl.Crawler.constructor` | internal/crawler.go:32-34 | a new crawler has an empty registry and saves pages |
| `Crawl.Crawler.Literal` | internal/crawler_test.go:33-37 | a crawler built as a struct literal has an empty registry and the `saveSite` it is given (false in the test, which leaves it out) |
| `Crawl.Crawler.RegisterURL` | internal/crawler.go:115-120 | the registry gains the URL and loses nothing |
| `Crawl.Crawler.ExistsURL` | internal/crawler.go:122-129 | true exactly when the URL is registered |
| `Crawl.Crawler.EncodeBytes` | internal/crawler.go:166-189 | media: errInvalidURL, body untouched; transcoder failure: its error, body untouched; success: the body is replaced by the transcoded bytes |
| `Crawl.Crawler.ReadBody` | internal/crawler.go:131-164 | when decoding fails, its error with registry and channel unchanged; otherwise nil, with the registry and the sends given by `Discover` over the tokens before the first error token; a consistent channel stays consistent |
| `Crawl.Crawler.DownloadPage` | internal/crawler.go:97-104 | the page is saved exactly when the crawler is set to save, and then the result is the save error |
| `Crawl.Crawler.ProcessURL` | internal/crawler.go:79-95 | a cancelled context, a failed fetch or a failed read each end the call with that error, before anything is saved and without touching the registry or channel on the first two; otherwise the page is read as in ReadBody and then saved |
| `Web.FirstError` | internal/crawler.go:138-142 | the position where the token loop stops: the first ErrorToken, or the end of the stream |
| `Web.LiveStopsAtError` | internal/crawler.go:138-142 | tokens after the first ErrorToken are never looked at |
| `Web.HeaderGet` | internal/crawler.go:167 | the first value stored under the key, or "" when the key is absent or has no values |
| `Web.Channel.Send` | internal/crawler.go:156-158 | a send appends the link to what the channel has received |
| `Web.Response.constructor` | internal/httpclient/model.go:14-22 | a response holds its URL, status, headers and body as given |
| `LegacyCrawl.FirstHrefLink` | crawler.go:129-142 | the link of a tag is non-empty only when the tag has an href attribute |
| `LegacyCrawl.FirstHrefOnly` | crawler.go:129-142 | the link of a tag is parseURL of its first href attribute, or "" when there is none; later hrefs are never consulted |
| `LegacyCrawl.LinksFromToken` | crawler.go:129-142 | the attribute loop returns exactly that link |
| `LegacyCrawl.DenylistOnlyInLaterEngine` | crawler.go:129-142 | a denylisted href followed by a valid one: the earlier engine resolves the denylisted one, the later engine the valid one |
| `LegacyCrawl.Emit` | crawler.go:85-96 | a token sends at most one link: the resolved first href of an `<a>` start tag, and only when that is non-empty and not the page itself |
| `LegacyCrawl.SentLinks` | crawler.go:76-98 | the loop sends at most one link per token |
| `LegacyCrawl.SentLinksSound` | crawler.go:85-96 | every link sent is non-empty and not case-insensitively equal to the page URL |
| `LegacyCrawl.SentLinksAppend` | crawler.go:76-98 | the links sent for two stretches of tokens are those of each, in order: no state is carried between tokens |
| `LegacyCrawl.SentLinksRepeat` | crawler.go:91-96 | no dedup: a tag repeated n times has its link sent n times |
| `LegacyCrawl.EncodedFailsOnlyInTranscoder` | crawler.go:104-127 | what encodeBytes does to a body (`Encoded`): a media content type never fails, and every failure is the transcoder's, on a non-media content type |
| `LegacyCrawl.MediaPassesThrough` | crawler.go:104-112 | a body whose content type mentions image/, video/, audio/ or font/ (in any case) is passed on unchanged as a success, where the later engine refuses it |
| `LegacyCrawl.GetContent` | crawler.go:60-67 | the transport error is passed back as it is; the response is dropped exactly when there is a transport error or the status is 500 or more; status 500 or more with no transport error gives neither a response nor an error |
| `LegacyCrawl.Crawler.constructor` | crawler.go:22-24 | a new crawler has an empty `crawled` map, which no other method touches |
| `LegacyCrawl.Crawler.EncodeBytes` | crawler.go:104-127 | media: no error and the body untouched; transcoder failure: its error; success: the body is replaced |
| `LegacyCrawl.Crawler.SendLinks` | crawler.go:76-98 | the token loop of readBody sends exactly the links given by `SentLinks` over the tokens before the first error token |
| `LegacyCrawl.Crawler.ReadBody` | crawler.go:69-102 | always returns an error: the decoding error, or "invalid data" once the tokens run out, after sending every resolved non-self link |
| `LegacyCrawl.Crawler.Process` | crawler.go:51-58 | a fetch error is returned without reading the body; status 500 or more with no error reaches a nil dereference; otherwise the result of readBody; never success |
| `Scenario.RelativeLinkResolved` | internal/crawler.go:228-230 | "/a" on page http://x/ resolves to http://x/a |
| `Scenario.AbsoluteLinkKept` | internal/crawler.go:224-226 | http://x/a on page http://x/ is kept as it is |
| `Scenario.PdfLinkRefused` | internal/crawler.go:215 | b.pdf is refused by the denylist |
| `Scenario.CrossSiteLinkRefused` | internal/crawler.go:232-234 | http://other.com/c on page http://x/ is refused |
| `Scenario.SeedPageSendsOneLink` | internal/crawler.go:146-159 | the page http://x/ linking to /a, /a, http://x/a, #signin, b.pdf and http://other.com/c registers and sends http://x/a once and nothing else |
| `Scenario.LegacyLinkRefused` | crawler.go:150-154 | without a denylist, a link that neither holds the base nor starts with "/" is refused by parseURL alone |
| `Scenario.LegacySeedPageLinks` | crawler.go:129-155 | the earlier engine resolves the same hrefs: /a and http://x/a to http://x/a, the other three to "" |
| `Scenario.LegacySeedPageSendsDuplicates` | crawler.go:85-96 | on the same page the earlier engine sends http://x/a three times |

## Findings

| source | as written | input that shows it | evidently intended | confidence | as-written member | corrected member |
|---|---|---|---|---|---|---|
| crawler.go:60-67 | `getContent` returns `(nil, nil)` for a status of 500 or more without a transport error, so `process` (crawler.go:51-58) calls `readBody` with a nil response, and `encodeBytes` dereferences it | a fetch that succeeds with status 503 | a server error is reported as a fetch error, as `internal/crawler.go:106-113` does | high (not executed) | `LegacyCrawl.Crawler.Process` | `Crawl.GetContent` |
| crawler.go:76-101 | `readBody` returns "invalid data" whenever the tokenizer reports an error token, and the tokenizer does so at the normal end of every body; the `return nil` after the loop cannot be reached | any body that decodes, an empty one included | the end of input ends the scan without an error, as `internal/crawler.go:138-163` does | high (not executed) | `LegacyCrawl.Crawler.ReadBody` | `Crawl.Crawler.ReadBody` |

## Left out

- Concurrency: `Run` and `process` (internal/crawler.go:36-77, crawler.go:26-49), the goroutines that send on the channel, the WaitGroup, `recover`, and the mutex. Their purpose is concurrent orchestration, and their termination is racy. Sends are appends to `Channel.sent` in the order they are issued; the order in which goroutines actually deliver them is not modelled.
- The check-then-register race: `existsURL` and `registerURL` take the lock separately, so two concurrent readers can both find a link absent. The model is sequential, so the pair behaves as one step.
- The HTML tokenizer (`golang.org/x/net/html`). It enters as a function from bytes to tokens. Its lower-casing of tag names and its atom table are not modelled; a token carries its atom name directly.
- Charset transcoding (`charset.NewReader`, `io.ReadAll`). It enters as one function that may fail.
- The HTTP clients (internal/httpclient/httpclient.go, httpclient/httpclient.go). A fetch is the pair the client returns. The 15-second timeout and the context plumbing are not modelled.
- `Response.Save` and `getFileName` write to the file system. Only the error that saving returns is modelled.
- Logging (internal/platform/logger/logger.go and every log call in the engine). It is output only.
- The command line, signal handling and `main` (cmd/, main.go).
- The test scaffolding (internal/mock.go, internal/crawler_test.go).
- Case handling: `strings.ToLower` and `strings.EqualFold` are modelled with ASCII case folding. Go's Unicode folding also equates some non-ASCII characters, for example the Kelvin sign and "k".
- `http.Header.Get` canonicalises its key; the model looks up "Content-Type" as written.
- The call shapes in main.go:25-26 and crawler.go:61 do not match the declared signatures. The earlier iteration is modelled as its text reads.
- Go strings are byte strings; the model uses sequences of characters. `Contains`, `HasPrefix` and `TrimSuffix` agree with Go's only when the strings are valid UTF-8.
