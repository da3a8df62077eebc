# URL discovery and topic classification, modelled in Dafny

This project models the URL-discovery and topic-classification pipeline of
the NotebookLM browser extension. It has four parts.

- **The sitemap walker** (`scr/lib/sitemap.js`). `iterateSitemapUrls`
  takes a seed URL and keeps only its origin. It queues eight guessed
  sitemap locations and the `Sitemap:` lines of robots.txt. It then walks
  the sitemap tree breadth-first:
  - a sitemap index is expanded one level deeper, up to `maxDepth`;
  - a leaf sitemap yields each new `<loc>` URL, until `maxUrls` URLs are
    out;
  - progress is reported as it goes.

  `extractAllSitemapUrls` collects the yielded URLs and condenses the
  progress reports into a diagnostics record.
- **The web crawler** (`notebooklm_extension/scr/lib/crawler.js`).
  `crawlWebsite` walks the links of HTML pages breadth-first from a start
  URL. It is bounded by a hop depth and a result count. It may be
  restricted to the start URL's origin. `extractLinks` reads the `href`s of
  each page.
- **The LLM relevance classifier** (`scr/lib/llmFilter.js`).
  `classifyUrlsByTopic` works as follows:
  - it cuts the items into batches and sends each batch to a chat or
    generic endpoint;
  - it parses the verdicts, with a no-match fallback when the reply holds
    no JSON array;
  - it merges the verdicts into one record keyed by URL;
  - it selects the matches at or above a threshold.
- **The metadata helpers and the filter handler** (`scr/sw.js`).
  - `buildItems` fetches the title and the meta description of the first
    `metaLimit` pages; `slugOf`, `sanitize`, `extractTitle` and
    `extractMetaDescription` help it.
  - `runLimited` is the bounded worker pool. It is shared in behaviour
    with the copy in `llmFilter.js`.
  - The `FILTER_URLS_BY_TOPIC` handler clamps the settings it is sent and
    chains the two stages.

The outside world is a set of parameters. Each is a function the caller
supplies:
- URL parsing (`new URL(...)`): an origin or path, or `None` when the
  constructor throws;
- URL resolution against a base;
- fetching and XML parsing of one sitemap;
- the `href`s the link pattern captures in a fetched page;
- the HTML text of a fetched page;
- the endpoint's reply to a batch request;
- `JSON.parse`, `Number(...)` and `String(...)` on JSON values.

The abort signal is the count `abortAfter`: every check made once that many
fetches have begun sees the signal set. `onProgress` calls are returned as a
sequence of reports.

The modules, one per file:
- `Basics`: `Option`, `Result`, `Dedup` (the order of `new Set(...)`) and
  the thrown errors;
- `Text`: the JavaScript string methods used;
- `Sitemap`, `SitemapWalk` and `SitemapRun`: the walker;
- `Crawler`;
- `LlmFilter`;
- `Enrich`: the `sw.js` helpers;
- `Limited`: `runLimited`;
- `Filter`: the handler.

Where the source's comments or design notes and the code disagree, the model
follows the code:
- A walk with `maxUrls <= 0` still yields one URL, because the test at
  `scr/lib/sitemap.js:135` comes after the `yield`. The bound the model
  proves is `max(1, maxUrls)`.
- A classification stops being fully attempted once a batch fails. The
  model takes the first failure in batch order (see "Left out").
- A page whose fetch failed gets `title: ''` when its URL also appears past
  the first `metaLimit` URLs. The `rest` loop then reaches the item that
  `items.find` returns.

## Model

| member | source | states |
|---|---|---|
| Basics.Dedup | notebooklm_extension/scr/lib/crawler.js:154 | `Array.from(new Set(s))`: no duplicates, exactly the elements of `s`, never longer |
| Basics.DedupOfDistinct | scr/lib/sitemap.js:190 | a list without duplicates comes out of the `Set` unchanged |
| Basics.DedupSnoc | scr/lib/sitemap.js:76-81 | adding one element to a set-ordered list keeps it only when it is new, at the end |
| Basics.NoDupsAppend | scr/lib/sitemap.js:67-81 | two duplicate-free lists with no element in common concatenate to a duplicate-free list |
| Text.LineTerminatorIsWs | scr/lib/sitemap.js:201 | every line terminator is also `\s` whitespace |
| Text.TrimStart | scr/lib/sitemap.js:172 | `trimStart` removes exactly the leading whitespace: what is left is a suffix that starts with a non-space |
| Text.TrimEnd | scr/lib/sitemap.js:172 | `trimEnd` removes exactly the trailing whitespace: a prefix that ends with a non-space |
| Text.Trim | scr/lib/sitemap.js:172 | `trim` leaves no whitespace at either end and never lengthens |
| Text.TrimOfPadded | scr/lib/sitemap.js:204 | trimming whitespace padding around a string with no outer whitespace gives that string back |
| Text.TrimStartDrop | scr/lib/sitemap.js:201 | leading whitespace is all that `trimStart` drops |
| Text.TrimEndDrop | scr/lib/sitemap.js:201 | trailing whitespace is all that `trimEnd` drops |
| Text.CollapseWs | scr/sw.js:390 | `replace(/\s+/g, ' ')`: whitespace only as single spaces, never two in a row, never longer, starting with whitespace exactly when the input does |
| Text.ConsCollapsed | scr/sw.js:390 | a non-space, or one space before a non-space, put in front of a collapsed string keeps it collapsed |
| Text.CollapseFixed | scr/lib/llmFilter.js:103 | collapsing an already collapsed string changes nothing |
| Text.CollapseKeepsText | scr/sw.js:390 | collapsing keeps every non-whitespace character, in order |
| Text.NonWsAppend | scr/sw.js:390 | the non-whitespace characters of a concatenation are those of its parts |
| Text.NonWsOfWsPrefix | scr/sw.js:390 | a whitespace prefix adds no non-whitespace character |
| Text.ReplaceAll | scr/sw.js:391-393 | global replacement of a literal by a whitespace-free text keeps a collapsed string collapsed, and never lengthens it when the replacement is no longer than the pattern |
| Text.ReplaceAbsent | scr/sw.js:391-393 | a string without the pattern comes back unchanged |
| Text.Take | scr/sw.js:395 | `slice(0, n)`: the prefix of length `min(|s|, n)` |
| Text.ContainsAt | scr/lib/sitemap.js:155 | `includes(p)` holds exactly when `p` occurs at some position |
| Text.IndexOf | scr/lib/llmFilter.js:119 | `indexOf(c)` is the first position of `c`, or -1 exactly when `c` is absent |
| Text.LastIndexOf | scr/lib/llmFilter.js:120 | `lastIndexOf(c)` is the last position of `c`, or -1 exactly when `c` is absent |
| Text.FindCI | scr/sw.js:379 | the first position at or after `from` where the pattern matches with ASCII case folding, or none |
| Text.FindChar | scr/sw.js:379 | the first position at or after `from` holding `c`, or none |
| Text.Split | scr/lib/sitemap.js:199 | `split('\n')`: at least one piece, none holding the separator |
| Text.JoinSplit | scr/lib/sitemap.js:199 | joining the pieces of a split with the separator gives the string back |
| Text.SplitJoin | scr/sw.js:363 | splitting a join of separator-free pieces gives the pieces back |
| Text.SplitPlain | scr/sw.js:362 | a separator-free head splits off as the first piece, and is the only piece when nothing follows |
| Text.DigitChar | scr/lib/sitemap.js:133 | a digit value maps to its decimal character |
| Text.NatToString | scr/lib/sitemap.js:133 | `String(n)` of a non-negative integer: non-empty, decimal digits only |
| Text.IntToString | scr/lib/sitemap.js:136 | `String(n)`: non-empty, starting with `-` exactly when `n` is negative |
| Text.NatToStringRoundTrip | scr/lib/sitemap.js:133 | reading back the decimal digits gives the number |
| Sitemap.WithScheme | scr/lib/sitemap.js:172-173 | the string `normalizeBase` parses always starts with `http://` or `https://` in some letter case |
| Sitemap.WithSchemeIdempotent | scr/lib/sitemap.js:172-173 | normalising twice is normalising once |
| Sitemap.GuessSitemapUrls | scr/lib/sitemap.js:179-191 | the eight candidate paths on the origin, in order, without duplicates |
| Sitemap.CandidatesDistinct | scr/lib/sitemap.js:180-190 | the eight candidates are pairwise different, so the `Set` keeps all of them |
| Sitemap.SingleLineAll | scr/lib/sitemap.js:201 | `.` matches exactly the strings with no line terminator |
| Sitemap.DirectiveTargetShape | scr/lib/sitemap.js:201-202 | a `Sitemap:` target has no whitespace at either end and holds no line terminator |
| Sitemap.DirectiveOfRecord | scr/lib/sitemap.js:201-204 | `Sitemap: <target>` with any letter case and whitespace padding gives exactly `<target>` |
| Sitemap.DirectiveOfCore | scr/lib/sitemap.js:201-204 | a line whose rest after `sitemap:` trims to a one-line string gives that string |
| Sitemap.DirectiveNoCore | scr/lib/sitemap.js:201-202 | a line whose rest trims to nothing, or spans lines, gives no usable target |
| Sitemap.DirectiveNeedsKey | scr/lib/sitemap.js:201 | a line not starting (after whitespace) with `sitemap:` in some case gives nothing |
| Sitemap.RobotsSitemapsExactly | scr/lib/sitemap.js:199-208 | a URL is found in robots.txt exactly when some line names it |
| Sitemap.RobotsSitemapsSound | scr/lib/sitemap.js:199-208 | every URL found comes from one line |
| Sitemap.RobotsSitemapsComplete | scr/lib/sitemap.js:199-208 | every line that names a URL contributes it |
| Sitemap.LineTarget | scr/lib/sitemap.js:200-207 | the loop body gives the line's resolved target, or nothing |
| Sitemap.DiscoverFromRobots | scr/lib/sitemap.js:193-209 | no sitemaps when robots.txt could not be read; otherwise the targets of its lines in order |
| Sitemap.QueueUrls | scr/lib/sitemap.js:115 | the URLs of the queue entries, in order |
| Sitemap.AtDepth | scr/lib/sitemap.js:72 | each URL paired with the given depth |
| Sitemap.UrlsAtDepth | scr/lib/sitemap.js:72 | the URLs of entries made at one depth are the URLs put in |
| Sitemap.SeedQueue | scr/lib/sitemap.js:67-81 | the initial queue is the guesses then the robots.txt sitemaps, each once, at depth 0, and `discovered` is exactly its URLs |
| Sitemap.MergeRobots | scr/lib/sitemap.js:76-81 | the robots.txt sitemaps not discovered yet join the queue at depth 0, in order, each once |
| Sitemap.TracksSnoc | scr/lib/sitemap.js:77-80 | one more candidate is pushed exactly when it was not discovered |
| Sitemap.Fresh | scr/lib/sitemap.js:115 | the candidates not yet known, each once: nothing known, every unknown candidate present |
| Sitemap.ChildUrls | scr/lib/sitemap.js:111-114 | the resolved `<loc>`s of an index, at most one per `<sitemap>` |
| Sitemap.ChildUrlsExactly | scr/lib/sitemap.js:111-114 | a URL is a child exactly when some non-empty `<loc>` resolves to it |
| Sitemap.EnqueueChildren | scr/lib/sitemap.js:110-118 | the children neither visited nor queued are appended one level deeper, in order, each once |
| Sitemap.EnqueueStep | scr/lib/sitemap.js:115-116 | one child is pushed exactly when it is neither visited nor queued |
| Sitemap.LeafEvents | scr/lib/sitemap.js:120-130 | the events of the `<url>` elements with a non-empty `<loc>`, in order |
| Sitemap.EventUrls | scr/lib/sitemap.js:50 | the URL of each event, in order |
| Sitemap.FreshEventsSound | scr/lib/sitemap.js:126-131 | what the `yielded` set lets through is new, duplicate-free, and covers every event |
| Sitemap.LeafEventsFrom | scr/lib/sitemap.js:123-130 | every event of a leaf names a non-empty `<loc>` of it, resolved |
| Sitemap.UrlsMarksSound | scr/lib/sitemap.js:132-134 | each `urls` report names a multiple of 500 passed on the way |
| Sitemap.UrlsMarksComplete | scr/lib/sitemap.js:132-134 | every multiple of 500 passed on the way is reported |
| Sitemap.EmitLeaf | scr/lib/sitemap.js:120-140 | a leaf yields its new URLs in order with their reports; it throws exactly when aborted with nodes left, and stops exactly at `max(1, maxUrls)` URLs |
| Sitemap.EmitNode | scr/lib/sitemap.js:122-138 | one `<url>` element: skipped when its `<loc>` is empty or already yielded, otherwise yielded and counted |
| Sitemap.LeafLoopStep | scr/lib/sitemap.js:121-139 | the leaf loop's yield and report invariant survives one node |
| SitemapWalk.PopPush | scr/lib/sitemap.js:95-116 | taking the head and pushing children one level deeper lowers the termination measure |
| SitemapWalk.QueueSkip | scr/lib/sitemap.js:97 | dropping a visited head keeps the queue invariant |
| SitemapWalk.SourcedAfter | scr/lib/sitemap.js:95-118 | every fetched sitemap is a seed or the child of an index expanded before it |
| SitemapWalk.ParsedAfter | scr/lib/sitemap.js:103 | `successfulFetch` is set exactly when some fetch parsed |
| SitemapWalk.LastErrorSnoc | scr/lib/sitemap.js:142-146 | `lastError` is the message of the last failed fetch, or `Aborted` when a leaf threw at a set signal |
| SitemapWalk.VisitedStep | scr/lib/sitemap.js:97 | a visited head is dropped and changes nothing else; the walk is `Advance`'s |
| SitemapWalk.FailedStep | scr/lib/sitemap.js:142-146 | a failed fetch records its error and keeps the walk invariant; the walk is `Advance`'s |
| SitemapWalk.SkipStep | scr/lib/sitemap.js:106-108 | an index at `maxDepth` or deeper is reported with `skip` and not expanded; the walk is `Advance`'s |
| SitemapWalk.ExpandStep | scr/lib/sitemap.js:110-118 | an index under `maxDepth` queues its new children one level deeper, keeping the walk invariant; the walk is `Advance`'s |
| SitemapWalk.ExpandAdvance | scr/lib/sitemap.js:110-118 | the expansion of an index under `maxDepth` is `Advance`'s: the children neither visited nor queued join the end of the queue one level deeper |
| SitemapWalk.LeafComplete | scr/lib/sitemap.js:120-141 | a leaf read to the end leaves every one of its URLs yielded |
| SitemapWalk.LeafStep | scr/lib/sitemap.js:120-141 | a leaf keeps the walk invariant, or ends the walk with the `stop` report or the abort |
| SitemapWalk.LeafStop | scr/lib/sitemap.js:132-137 | a leaf that reaches `maxUrls` reports the multiples of 500 passed, then `stop` last |
| SitemapWalk.LeafGoOn | scr/lib/sitemap.js:120-141 | a leaf that does not reach `maxUrls` lets the walk go on |
| SitemapWalk.LeafPassOf | scr/lib/sitemap.js:120-140 | the leaf loop yields exactly the leaf's new events in order, cut at `max(1, maxUrls)` URLs, with their `urls` reports and the `stop` report when the cap is reached |
| SitemapWalk.LeafAdvance | scr/lib/sitemap.js:120-146 | a leaf pass is `Advance`'s, including the `Aborted` error when the signal is set and the leaf has nodes |
| SitemapWalk.LeafHalt | scr/lib/sitemap.js:120-137 | a leaf that stops the walk keeps every skipped index reported and every earlier leaf read to the end |
| SitemapWalk.LeafHalted | scr/lib/sitemap.js:132-137 | a leaf that reaches `max(1, maxUrls)` URLs leaves the walk `Halted` |
| SitemapWalk.Visit | scr/lib/sitemap.js:95-147 | one pass of the loop body gives exactly the walk `Advance` makes: the head shifted off and dropped when visited, its error recorded, a deep index reported with `skip`, a shallower index queueing its children that are neither visited nor queued (so the first route to a sitemap wins), or a leaf yielding its new URLs up to `max(1, maxUrls)`; the walk invariant holds after it and the queue measure is lower, or it halts after the `stop` report with every skipped index reported and every earlier leaf read to the end |
| SitemapWalk.RunWalk | scr/lib/sitemap.js:93-148 | the loop's last walk is `Walked` from the start walk after the passes it made; it stops exactly when `max(1, maxUrls)` URLs are out, throws `AbortError` exactly when it is at a loop top under the cap with the queue not empty and the signal set, and finishes exactly when the queue runs out under the cap; the walk invariant holds when it finishes or throws, and `Halted` when it stops |
| SitemapWalk.WalkedStays | scr/lib/sitemap.js:93 | once the loop has left off, more passes change nothing |
| SitemapWalk.WalkStopSame | scr/lib/sitemap.js:93 | the loop leaves off at one walk only: any two pass counts at which it has left off give the same walk |
| SitemapRun.NetworkHintIff | scr/lib/sitemap.js:150-162 | the message ends with the CORS/network hint exactly when the last error mentions `CORS`, `Failed to fetch` or `NetworkError` |
| SitemapRun.NotHinted | scr/lib/sitemap.js:158 | an `Error: <text>` suffix ends with the hint only when the text mentions `CORS` |
| SitemapRun.InitialInv | scr/lib/sitemap.js:85-91 | the state at the start of the loop satisfies the walk invariant |
| SitemapRun.InitialReports | scr/lib/sitemap.js:63-85 | the header reports `attempt`, `robots` (when robots.txt listed sitemaps) and `sitemap-found` come first |
| SitemapRun.FinishedComplete | scr/lib/sitemap.js:93-148 | a walk that empties its queue has fetched every seed and every child of an expanded index, and yielded every URL of each leaf read |
| SitemapRun.FinishedEnd | scr/lib/sitemap.js:150-166 | an emptied queue ends with the `done` or `error` report |
| SitemapRun.LeavesOfWalk | scr/lib/sitemap.js:120-141 | every URL of a leaf the walk read to the end is among the yielded events |
| SitemapRun.OtherEnd | scr/lib/sitemap.js:93-138 | a walk that stopped at `maxUrls` or threw `AbortError` meets the yield and report properties: every index too deep to expand has its `skip` report, and every leaf read before the signal (before the last one, for a stopped walk) has all its URLs yielded |
| SitemapRun.RunEnd | scr/lib/sitemap.js:93-166 | the outcome and reports of a run are those of the walk where its loop left off, with the final `done` or `error` report only when the queue ran out, and they meet the yield and report properties |
| SitemapRun.IterateSitemapUrls | scr/lib/sitemap.js:56-167 | an invalid seed throws before anything; otherwise the outcome, the yielded events, the sitemaps fetched and the reports are those of the walk `Walked` leaves off at from the seeded queue, which fixes the fetch order, each sitemap's first route and which URLs a stopped run yields; each URL is yielded once, at most `max(1, maxUrls)`, each from a fetched leaf; every sitemap fetched is a seed or a child of an earlier index; the reports follow the run, with every too-deep index reported; an emptied queue means every reachable sitemap was read |
| SitemapRun.DoneIffYielded | scr/lib/sitemap.js:150-166 | a walk that empties its queue ends with `done` exactly when it yielded a URL, and otherwise with the `error` message |
| SitemapRun.SummaryUrlCount | scr/lib/sitemap.js:47 | `urlCount` is the total of the last `urls` report |
| SitemapRun.MarksLast | scr/lib/sitemap.js:132-134 | the last `urls` report of a total of `n` names `n / 500 * 500` |
| SitemapRun.SummaryHeader | scr/lib/sitemap.js:43-45 | the header reports give one attempt naming the origin, `robotsTried` and `sitemapCount` |
| SitemapRun.BodySummary | scr/lib/sitemap.js:41-48 | the diagnostics after the header, `skip` and `urls` reports |
| SitemapRun.RunDiagnostics | scr/lib/sitemap.js:37-48 | the diagnostics of a whole run: the origin attempt, whether robots.txt listed sitemaps, the initial queue size, the last multiple of 500 reached, and the `error` message when nothing was yielded |
| SitemapRun.ObserveFinal | scr/lib/sitemap.js:46 | the last report adds its message to `errors` exactly when it is an error |
| SitemapRun.Diagnose | scr/lib/sitemap.js:41-48 | the `onProgress` wrapper over all reports gives the diagnostics summary |
| SitemapRun.CollectUrls | scr/lib/sitemap.js:39-51 | the URL of each `url` event, in order |
| SitemapRun.Gather | scr/lib/sitemap.js:39-53 | the walk's `AbortError` is rethrown exactly when the walk was aborted; otherwise the URLs of the yielded events in order, with the diagnostics of its reports, distinct, at most `max(1, maxUrls)`, and with the origin attempt and robots flag of the run |
| SitemapRun.ExtractAllSitemapUrls | scr/lib/sitemap.js:35-54 | rejects with `InvalidUrl` exactly when the seed is not a URL; otherwise the walk behind it is the one `Walked` leaves off at from the seeded queue, which yields each URL once from a fetched leaf, reports as it runs, reads every reachable sitemap when its queue empties; it rejects with `AbortError` exactly when the signal stopped that walk, and else resolves to its yielded URLs in order with the diagnostics of its reports |
| Crawler.StripFragmentSpec | notebooklm_extension/scr/lib/crawler.js:146 | `split('#')[0]` keeps the `#`-free prefix before the first `#`, all of the string when it has none |
| Crawler.CandidatesExactly | notebooklm_extension/scr/lib/crawler.js:130-152 | a string is a candidate link exactly when some captured `href` gives it |
| Crawler.CandidatesNoFragment | notebooklm_extension/scr/lib/crawler.js:146 | no candidate link holds a `#` |
| Crawler.PageLinksSpec | notebooklm_extension/scr/lib/crawler.js:123-155 | the links of a page are distinct, fragment-free, and exactly those its `href`s give |
| Crawler.ExtractLinks | notebooklm_extension/scr/lib/crawler.js:123-155 | the `while` loop over the matches gives the page links in order of first appearance |
| Crawler.AdmittedSound | notebooklm_extension/scr/lib/crawler.js:67-85 | the links a page admits are distinct, new, of the page, and pass the same-origin test |
| Crawler.AdmittedBound | notebooklm_extension/scr/lib/crawler.js:84 | a scan stops once `discovered` reaches `maxUrls`, adding at most one link when it was there already |
| Crawler.AdmittedComplete | notebooklm_extension/scr/lib/crawler.js:67-85 | a scan that stays under `maxUrls` admits every new same-origin link of the page |
| Crawler.AtDepth | notebooklm_extension/scr/lib/crawler.js:81 | each admitted link is queued one hop deeper |
| Crawler.ScanLinks | notebooklm_extension/scr/lib/crawler.js:67-85 | `discovered` grows by the admitted links, and the queue is extended by them one hop deeper, in order |
| Crawler.ScanStep | notebooklm_extension/scr/lib/crawler.js:68-84 | one link is skipped, admitted, or admitted and ends the scan at `maxUrls` |
| Crawler.ResultsStep | notebooklm_extension/scr/lib/crawler.js:43-50 | crawling one more page keeps the results distinct, within depth, and each a link of an earlier result |
| Crawler.PageStep | notebooklm_extension/scr/lib/crawler.js:40-85 | the crawl invariant carries over one page taken off the queue |
| Crawler.CrawlPage | notebooklm_extension/scr/lib/crawler.js:61-85 | one page: its links extracted and scanned, the admitted ones added to `discovered` and to the end of the queue |
| Crawler.InvStart | notebooklm_extension/scr/lib/crawler.js:29-35 | the initial state satisfies the crawl invariant |
| Crawler.InvSkip | notebooklm_extension/scr/lib/crawler.js:43-46 | skipping a crawled or too-deep head keeps the crawl invariant |
| Crawler.CrawledOfInv | notebooklm_extension/scr/lib/crawler.js:91-101 | at the end the results are distinct, at most `maxUrls`, the start first, each a link of an earlier one, within `maxDepth`, same-origin when required, and the reports are `start`, one `crawling` per result, then `done` |
| Crawler.EnlevelSpec | notebooklm_extension/scr/lib/crawler.js:80-81 | newly admitted links enter at the next hop; the others keep their level |
| Crawler.EnlevelFresh | notebooklm_extension/scr/lib/crawler.js:80-81 | entering URLs not levelled yet keeps every old level |
| Crawler.AdmittedReach | notebooklm_extension/scr/lib/crawler.js:67-85 | under the cap, every same-origin link of a crawled page is discovered |
| Crawler.ReachStart | notebooklm_extension/scr/lib/crawler.js:29-33 | the initial state satisfies the reach invariant |
| Crawler.ReachSkip | notebooklm_extension/scr/lib/crawler.js:43-46 | skipping a head keeps the reach invariant |
| Crawler.LevelsPage | notebooklm_extension/scr/lib/crawler.js:40-81 | the queue stays ordered by hop and each queued URL keeps its level after one page |
| Crawler.SourcedPage | notebooklm_extension/scr/lib/crawler.js:67-81 | every discovered URL is the start or a link of a crawled page |
| Crawler.ReachedPage | notebooklm_extension/scr/lib/crawler.js:49-81 | the links of crawled pages under the depth are crawled or queued |
| Crawler.ReachPage | notebooklm_extension/scr/lib/crawler.js:40-85 | the reach invariant carries over one page crawled |
| Crawler.ClosedOfInv | notebooklm_extension/scr/lib/crawler.js:37 | when the loop ends, the crawl has reached every same-origin link it must, up to the caps |
| Crawler.ResultsFound | notebooklm_extension/scr/lib/crawler.js:30-80 | every result was discovered |
| Crawler.ReachedFound | notebooklm_extension/scr/lib/crawler.js:67-85 | under `maxUrls`, the links of crawled pages are discovered |
| Crawler.ReachedCrawled | notebooklm_extension/scr/lib/crawler.js:37-46 | under `maxUrls` with an empty queue, every link of a page under `maxDepth` is crawled |
| Crawler.StartCrawled | notebooklm_extension/scr/lib/crawler.js:32-50 | with `maxUrls >= 1` and `maxDepth >= 0` the start page is crawled |
| Crawler.Next | notebooklm_extension/scr/lib/crawler.js:40-90 | a pass adds at most one result, the head's URL, and when it adds none it only shifts off the head |
| Crawler.PassesSteps | notebooklm_extension/scr/lib/crawler.js:40-90 | the crawl's passes are `Next` over the pages it fetches |
| Crawler.RunStays | notebooklm_extension/scr/lib/crawler.js:37-38 | once the loop has left off, more passes change nothing |
| Crawler.StopSame | notebooklm_extension/scr/lib/crawler.js:37-38 | the loop leaves off in one state only: any two pass counts at which it has left off give the same state |
| Crawler.PassesGrow | notebooklm_extension/scr/lib/crawler.js:49-50 | a pass adds at most one result |
| Crawler.SignalBelow | notebooklm_extension/scr/lib/crawler.js:37-50 | every result was crawled before the signal was seen: the signal is clear for every count below the final one |
| Crawler.NextSkipOf | notebooklm_extension/scr/lib/crawler.js:41-46 | a crawled or too-deep head is only shifted off |
| Crawler.NextCrawl | notebooklm_extension/scr/lib/crawler.js:49-85 | the state a crawl of the head leaves is the pass `Next` makes |
| Crawler.PagesStart | notebooklm_extension/scr/lib/crawler.js:30-35 | the state of lines 30-35 satisfies both invariants and is the run before any pass |
| Crawler.CrawlNext | notebooklm_extension/scr/lib/crawler.js:40-90 | one loop pass that began with the signal clear is exactly the pass `Next` makes: a crawled or too-deep head is shifted off, otherwise it becomes the next result and the links it admits are queued one hop deeper; the crawl and reach invariants carry over, at most one result is added, and the queue is shorter when none is |
| Crawler.SkipNext | notebooklm_extension/scr/lib/crawler.js:41-47 | skipping the head keeps both invariants and is the pass `Next` makes |
| Crawler.CrawlHead | notebooklm_extension/scr/lib/crawler.js:48-90 | crawling the head appends it to the results, reports the URLs discovered before its scan, and queues the admitted links one hop deeper after the rest of the queue, which is the pass `Next` makes; the crawl and reach invariants carry over |
| Crawler.HeadStep | notebooklm_extension/scr/lib/crawler.js:49-85 | crawling the head keeps both invariants, appends it to the results and queues its admitted links, as the pass `Next` makes |
| Crawler.NextInv | notebooklm_extension/scr/lib/crawler.js:49-85 | both invariants carry over one page crawled |
| Crawler.NextCrawled | notebooklm_extension/scr/lib/crawler.js:49-85 | the crawl invariant carries over one page crawled |
| Crawler.CrawlWebsite | notebooklm_extension/scr/lib/crawler.js:23-102 | an unparsable start URL throws before any report; otherwise the run is `Run` of the passes `Next` makes over the fetched pages, up to where the loop leaves off: it throws `AbortError` exactly when that is a loop top where the loop would go on but the signal is set, after the reports so far; else it returns that run's results and the `done` report counting its discovered URLs; the results are distinct, at most `maxUrls`, the start URL first (when `maxUrls >= 1` and `maxDepth >= 0`), each a link of an earlier page one hop deeper within `maxDepth`, same-origin when required, and closed under links when the caps do not bind |
| Crawler.CrawlPages | notebooklm_extension/scr/lib/crawler.js:30-91 | the loop's state is `Run` after the passes it made; it ends with the queue empty or `maxUrls` results, or stops at a loop top with the queue not empty, under `maxUrls` and the signal set; the crawl and reach invariants hold at the end |
| LlmFilter.BatchSizeOf | scr/lib/llmFilter.js:15 | the batch size is at least 1, 100 when unset |
| LlmFilter.ConcurrencyOf | scr/lib/llmFilter.js:16 | the concurrency lies in `[1, 4]`, 2 when unset, a requested value moved to the nearer bound |
| LlmFilter.TimeoutOf | scr/lib/llmFilter.js:17 | the timeout is 20000 when unset, the setting otherwise |
| LlmFilter.BatchesPartition | scr/lib/llmFilter.js:19-22 | the batches put back together are the items, none empty, each but the last of exactly `batchSize` |
| LlmFilter.BatchesFrom | scr/lib/llmFilter.js:20-21 | the batches from position `i` are the slice at `i` and the batches after it |
| LlmFilter.MakeBatches | scr/lib/llmFilter.js:19-22 | the `for` loop builds exactly the batches |
| LlmFilter.Safe | scr/lib/llmFilter.js:103 | at most 300 characters, single spaces only, a prefix of the collapsed field |
| LlmFilter.SafeIdempotent | scr/lib/llmFilter.js:103 | `safe` applied twice is `safe` applied once |
| LlmFilter.Received | scr/lib/llmFilter.js:73-74 | a reply is used exactly when it is a 2xx response with a JSON body, and then its body is the data; a status outside 2xx fails with that status; a rejection or an unreadable body fails with the rejection's own message |
| LlmFilter.SafeParseArray | scr/lib/llmFilter.js:117-128 | an array exactly when the span from the first `[` to the last `]` parses as a JSON array, and then that array |
| LlmFilter.SpanUnique | scr/lib/llmFilter.js:119-121 | there is at most one such span, the one `indexOf` and `lastIndexOf` find |
| LlmFilter.Fallback | scr/lib/llmFilter.js:114 | one no-match verdict per item of the batch |
| LlmFilter.ClassifyBatchOutcome | scr/lib/llmFilter.js:46-92 | a batch fails exactly when it gets no 2xx JSON reply, with the error of that reply; the chat provider gives the array its content holds or the fallback, the generic one the body when it is an array and nothing otherwise |
| LlmFilter.LastWriteExists | scr/lib/llmFilter.js:31-34 | a key some verdict writes has a last verdict writing it |
| LlmFilter.MergeOneKeys | scr/lib/llmFilter.js:33 | one verdict adds its key at the end when it is new |
| LlmFilter.MergeKeys | scr/lib/llmFilter.js:31-34 | after a merge the keys are the old ones then the new ones in order of first write |
| LlmFilter.MergeOneAt | scr/lib/llmFilter.js:32-33 | a verdict sets its key's entry and leaves the others alone |
| LlmFilter.MergeLastWins | scr/lib/llmFilter.js:31-34 | a written key holds the verdict of the last entry that writes it; an unwritten key keeps what it had |
| LlmFilter.MergeLast | scr/lib/llmFilter.js:31-34 | the last entry writing a key decides its verdict |
| LlmFilter.MergeUntouched | scr/lib/llmFilter.js:31-34 | a key no entry writes keeps what it had |
| LlmFilter.MatchesOf | scr/lib/llmFilter.js:39 | exactly the keys whose verdict matches with a score at or above the threshold, in key order, without duplicates |
| LlmFilter.FallbackNoMatch | scr/lib/llmFilter.js:109-115 | after a fallback, every item with a non-empty URL holds `{match: false, score: 0}` |
| LlmFilter.OutcomesOf | scr/lib/llmFilter.js:29-30 | one outcome per batch, in batch order: the worker applied to that batch |
| LlmFilter.Outcomes | scr/lib/llmFilter.js:29-30 | the outcome of each batch is `classifyBatch` of that batch with the run's topic, provider and endpoint |
| LlmFilter.MergeAppend | scr/lib/llmFilter.js:31-34 | merging two verdict lists one after the other is merging their concatenation |
| LlmFilter.ClassifiedSpec | scr/lib/llmFilter.js:29-37 | a run fails exactly when some batch fails, with the first failing batch's error; otherwise the record is every batch's verdicts merged in order |
| LlmFilter.FailureStays | scr/lib/llmFilter.js:29-37 | once a batch has failed the run stays failed with that error |
| LlmFilter.MatchesIff | scr/lib/llmFilter.js:31-39 | a URL matches exactly when the last verdict written for it says `match` with a score at or above the threshold |
| LlmFilter.RunBatches | scr/lib/llmFilter.js:27-37 | the run's result is exactly the first failing batch's error or the record of all verdicts merged in batch order; the reports are `Classifying in n batch(es)` then one `Batch i/n done` per batch merged, up to the failing one |
| LlmFilter.MergeVerdicts | scr/lib/llmFilter.js:31-34 | the loop over one verdict list gives the merged record |
| LlmFilter.ClassifyUrlsByTopic | scr/lib/llmFilter.js:14-42 | a failing batch fails the run with its error; otherwise the merged record, its matches, and the reports `classify`, one per batch, then `done` with the number of keys |
| Enrich.NonEmptyParts | scr/sw.js:362 | `filter(Boolean)` keeps exactly the non-empty parts |
| Enrich.SlugSpec | scr/sw.js:359-367 | the slug is empty for an unparsable URL or a path without segments, and otherwise splits at `/` into the last one or two non-empty segments |
| Enrich.Sanitize | scr/sw.js:388-396 | at most 300 characters, single spaces only, no leading space |
| Enrich.SanitizePlain | scr/sw.js:388-396 | a string without `&` is only collapsed, trimmed and cut to 300 characters |
| Enrich.TitleWithin | scr/sw.js:379 | a `<title` match closes its tag at the first `>` and ends at the first `</title>` after it |
| Enrich.TitleOpen | scr/sw.js:379 | `[^>]*` cannot pass a `>` |
| Enrich.TitleClose | scr/sw.js:379 | the lazy capture ends at the first `</title>` |
| Enrich.TitleFrom | scr/sw.js:379 | the capture of the leftmost title match, or none exactly when there is no match |
| Enrich.ExtractTitle | scr/sw.js:378-381 | sanitized (at most 300 characters, single spaces), and empty when the page has no title |
| Enrich.FindQuote | scr/sw.js:384 | the first quote at or after a position, or none |
| Enrich.CaptureAt | scr/sw.js:384 | `([^"']+)` captures a non-empty quote-free text |
| Enrich.FirstName | scr/sw.js:384 | the first `name="description"` attribute in a range |
| Enrich.LastContent | scr/sw.js:384 | the last `content="..."` attribute in a range, where the greedy `[^>]*` backtracks to |
| Enrich.TagEnd | scr/sw.js:384 | the first `>` after `<meta`, which neither `[^>]` part can pass |
| Enrich.MetaWithin | scr/sw.js:384 | a description match at a `<meta` is a name attribute and a later content attribute, both inside the tag |
| Enrich.MetaAtStart | scr/sw.js:384 | the content attribute of the match at a given `<meta`, the last one when there are several |
| Enrich.MetaSkip | scr/sw.js:384 | a `<meta` that cannot match is passed over |
| Enrich.MetaFound | scr/sw.js:384 | the first `<meta` that matches decides the capture |
| Enrich.MetaFrom | scr/sw.js:384 | the leftmost description match and its content attribute, or none exactly when no `<meta` matches |
| Enrich.ExtractMetaDescription | scr/sw.js:383-386 | sanitized, and empty when no description tag matches |
| Enrich.FindUrl | scr/sw.js:337 | `items.find` returns the first item with the URL, or nothing exactly when there is none |
| Enrich.BuiltItem | scr/sw.js:320-357 | every item keeps its URL and slug; only the first copy of a URL is ever changed; a fetched page gives its title and description; a failed fetch leaves them unset except for the `''` title of the `rest` loop; titles and descriptions are at most 300 characters |
| Enrich.BuildItems | scr/sw.js:320-357 | the items are exactly those `BuiltItem` describes, and the reports are `0/n` then one per fetched URL |
| Enrich.FindFirst | scr/sw.js:337-352 | `find` never misses and returns the first copy of the URL |
| Enrich.FetchOne | scr/sw.js:335-346 | one worker run fills in the first item with the URL when the page was read, and changes nothing otherwise |
| Enrich.FetchMissed | scr/sw.js:342-343 | a failed fetch changes no item |
| Enrich.FetchHit | scr/sw.js:336-341 | a page read fills in the first item with its URL, and only that one |
| Enrich.RestStep | scr/sw.js:351-354 | defaulting the title touches only the first item with the URL, and twice is once |
| Enrich.DefaultOne | scr/sw.js:352-353 | `it.title = it.title \|\| ''` on the first item with the URL |
| Limited.RunLimited | scr/sw.js:398-407 | `min(limit, n)` runners; every index handed out exactly once in increasing order, the first ones one per runner; nothing when there is no runner |
| Filter.MetaLimitOf | scr/sw.js:283 | 200 when unset, 0 for a non-positive setting, the setting otherwise |
| Filter.ClassifierSettings | scr/sw.js:295-303 | the provider defaults to `openai` when missing or empty; the batch size is `max(1, batchSize ?? 100)`; concurrency 2 and timeout 20000, which the classifier's own clamps keep |
| Filter.FilterUrlsByTopic | scr/sw.js:279-312 | the items are those `buildItems` prepares for the first `metaLimit` URLs; the reply carries the classification's record and matches, or the failing batch's error message: `LLM HTTP <status>` or the rejection's own message |

## Left out

- Take, Sanitize, Safe: lengths count Unicode scalar values, not UTF-16 code units. `slice(0, 300)` at `scr/sw.js:395` and `scr/lib/llmFilter.js:103` counts code units. A title of 200 "😀" keeps 150 of them in JavaScript and all 200 here, so the 300 bound is per character. JavaScript can also cut a surrogate pair in half, and a Dafny `char` cannot hold half a pair.
- Limited.RunLimited: its callers, LlmFilter.RunBatches (within LlmFilter.ClassifyUrlsByTopic) and Enrich.BuildItems, handle the worker runs in index order, one after another. In the source they run concurrently and complete in any order.
  - For the classifier, completion order decides which verdict of a URL written by two batches wins, and the order of `Object.keys`. The model merges in batch order.
  - When a batch rejects, `Promise.all` rejects with whichever rejection comes first in time. The other runners keep working and keep calling `onProgress`. The model reports the first failure in batch order and stops, and its reports after a failure are only a prefix.
  - `RunLimited` models which runner takes each index with the oracle `next`. The item results do not depend on that choice.
- Enrich.BuildItems: assumes the page of a URL reads the same when that URL is fetched twice (a URL listed twice in the first `metaLimit`). With two different answers, the write that lands last in time wins in the source.
- Crawler.CrawlWebsite, SitemapWalk.RunWalk, SitemapRun.IterateSitemapUrls: the abort signal is the count `abortAfter`. Every check made once that many fetches have begun sees it set. An abort raised in the middle of a fetch, which makes that `fetch` reject, is not modelled separately. The crawler treats it as a failed page and the walker as a failed sitemap, until the next check.
- SitemapRun.IterateSitemapUrls: the yielded URL events and the `onProgress` reports are two separate sequences. Their interleaving in time is not kept.
- SitemapRun.IterateSitemapUrls: an `onProgress` callback that throws is not modelled. A throw inside the `try` at `scr/lib/sitemap.js:100-147` would be caught as that sitemap's error. Callbacks are taken to return normally.
- Filter.MetaLimitOf, Filter.ClassifierSettings: `metaLimit` and `batchSize` are integers here, not any value passed through `Number(...)`.
  - A non-numeric `batchSize` becomes NaN, and `Math.max(1, NaN)` is NaN. The loop of `scr/lib/llmFilter.js:20` then makes a single empty batch.
  - A fractional one such as 2.5 gives batches of 2, 3, 2, … items.
  - A NaN `metaLimit` makes `slice(0, NaN)` fetch nothing.
- LlmFilter.Record, LlmFilter.MatchesOf, LlmFilter.MatchesIff, LlmFilter.ClassifyUrlsByTopic: the record keeps every key in insertion order, as an ordinary map would. Two JavaScript object rules are not modelled:
  - Writing the key `__proto__` sets the object's prototype instead of adding a key. A verdict for the URL `__proto__` is therefore neither listed nor matched in the source.
  - `Object.keys` lists canonical array-index keys such as `"1"` first, in ascending numeric order. Such keys are URLs only in odd inputs.
- Enrich.Sanitize: `&amp;lt;` becomes `<`, because `&amp;` is unescaped first. This double unescaping is kept as the code does it.
- Enrich.ExtractTitle, Enrich.ExtractMetaDescription: the `i` flag folds ASCII letters only. Unicode case folding of non-ASCII characters cannot change a match of these ASCII patterns.
- The request itself is not modelled: `fetchWithTimeout` (`scr/lib/llmFilter.js:141-149`), the model name, the API key, the endpoint, and the JSON payload. The endpoint is the oracle from a batch's request (its prompt or its items) to its reply. The timeout only turns into a rejected reply. The classifier ignores the caller's abort signal. `fetchWithTimeout` is called with three arguments (`scr/lib/llmFilter.js:63-71`, `scr/lib/llmFilter.js:80-88`), so its own `signal` is undefined. `anySignal(undefined, timeout)` is then the timeout's signal, and it replaces `init.signal`. Only the timeout, or a network failure, rejects a request.
- Progress message texts are kept where the source reads them back (the sitemap `attempt` and `error` messages). Elsewhere only the counts are kept.
- The `FILTER_PROGRESS` relay to the extension pages, `sendResponse` transport, and the `STOP_CRAWL` controller are message plumbing and are not modelled.
- Sitemap fetching: HTTP, gzip decompression (`scr/lib/sitemap.js:211-245`) and XML parsing (`247-265`) are one oracle per URL. It gives a parse error, an index with its `<loc>` texts, or a leaf with its `<url>` nodes.
- Crawler page fetching: the status, the content-type check (`notebooklm_extension/scr/lib/crawler.js:104-121`) and the link regex's scan of the HTML (line 127) are one oracle per URL. It gives the captured `href`s, or a failure.
