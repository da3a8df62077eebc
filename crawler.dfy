// The link crawler of notebooklm_extension/scr/lib/crawler.js: a
// breadth-first walk over the links of HTML pages from a start URL, bounded
// by a hop depth and a result count, optionally restricted to the start URL's
// origin (RFC 6454).
//
// The network and the URL parser are oracles: `originOf(s)` is
// `new URL(s).origin` (None when the constructor throws), `resolve(ref,
// base)` is `new URL(ref, base).href`, and `page(url)` gives the `href`
// values the link pattern of line 127 captures in the page's HTML, in
// document order, or None when `fetchPage` throws (a non-2xx status, a
// content type without `text/html`, a network error). The abort signal is
// `abortAfter`: when it is `Some(k)` it is seen set by every check made once
// `k` pages have been fetched.

module Crawler {
  import opened Basics
  import opened Text

  const DefaultMaxDepth: int := 2
  const DefaultMaxUrls: int := 1000
  const DefaultSameDomain: bool := true

  /* --------------------------- extractLinks ------------------------------ */

  /** The hrefs `extractLinks` drops before resolving them (lines 135-140). */
  predicate NotFollowed(href: string) {
    StartsWith(href, "#") || StartsWith(href, "javascript:") || StartsWith(href, "mailto:") || StartsWith(href, "tel:")
  }

  /** `absoluteUrl.split('#')[0]` (line 146). */
  function StripFragment(u: string): string {
    Split(u, '#')[0]
  }

  /** Stripping the fragment keeps what comes before the first `#`
      (section 3.5 of RFC 3986): a `#`-free prefix, the whole string when it
      has no `#`. */
  lemma {:induction false} StripFragmentSpec(u: string)
    ensures var r := StripFragment(u); '#' !in r && r <= u && (r == u <==> '#' !in u) && (|r| < |u| ==> u[|r|] == '#')
    decreases |u|
  {
    if u != [] {
      StripFragmentSpec(u[1..]);
      if u[0] != '#' {
        var rest := Split(u[1..], '#');
        assert Split(u, '#')[0] == [u[0]] + rest[0];
        assert u == [u[0]] + u[1..];
      }
    }
  }

  /** The link one captured href contributes (lines 135-148): none when it is
      dropped or does not resolve against the page URL. */
  function LinkOf(href: string, pageUrl: string, resolve: (string, string) -> Option<string>): Option<string> {
    if NotFollowed(href) then None
    else
      match resolve(href, pageUrl)
      case None => None
      case Some(abs) => Some(StripFragment(abs))
  }

  /** The links of `hrefs`, in order, repeats included. */
  function Candidates(hrefs: seq<string>, pageUrl: string, resolve: (string, string) -> Option<string>): seq<string>
    decreases |hrefs|
  {
    if hrefs == [] then []
    else
      var init := Candidates(hrefs[..|hrefs| - 1], pageUrl, resolve);
      match LinkOf(hrefs[|hrefs| - 1], pageUrl, resolve)
      case None => init
      case Some(x) => init + [x]
  }

  /** A string is a candidate exactly when some href gives it. */
  lemma {:induction false} CandidatesExactly(hrefs: seq<string>, pageUrl: string, resolve: (string, string) -> Option<string>,
                                             x: string)
    ensures x in Candidates(hrefs, pageUrl, resolve) <==> exists i :: 0 <= i < |hrefs| && LinkOf(hrefs[i], pageUrl, resolve) == Some(x)
    decreases |hrefs|
  {
    if hrefs != [] {
      var init := hrefs[..|hrefs| - 1];
      CandidatesExactly(init, pageUrl, resolve, x);
      if exists i :: 0 <= i < |hrefs| && LinkOf(hrefs[i], pageUrl, resolve) == Some(x) {
        var i :| 0 <= i < |hrefs| && LinkOf(hrefs[i], pageUrl, resolve) == Some(x);
        if i < |init| {
          assert init[i] == hrefs[i];
        }
      }
      if exists i :: 0 <= i < |init| && LinkOf(init[i], pageUrl, resolve) == Some(x) {
        var i :| 0 <= i < |init| && LinkOf(init[i], pageUrl, resolve) == Some(x);
        assert hrefs[i] == init[i];
      }
    }
  }

  /** Every candidate is fragment-free. */
  lemma {:induction false} CandidatesNoFragment(hrefs: seq<string>, pageUrl: string, resolve: (string, string) -> Option<string>)
    ensures forall k :: 0 <= k < |Candidates(hrefs, pageUrl, resolve)| ==> '#' !in Candidates(hrefs, pageUrl, resolve)[k]
    decreases |hrefs|
  {
    if hrefs != [] {
      CandidatesNoFragment(hrefs[..|hrefs| - 1], pageUrl, resolve);
      match resolve(hrefs[|hrefs| - 1], pageUrl)
      case None =>
      case Some(abs) => StripFragmentSpec(abs);
    }
  }

  /** The links of a page: the candidates without repeats, in order of first
      appearance, as `Array.from(links)` gives them. */
  function PageLinks(hrefs: seq<string>, pageUrl: string, resolve: (string, string) -> Option<string>): seq<string> {
    Dedup(Candidates(hrefs, pageUrl, resolve))
  }

  /** The links of a page are distinct and fragment-free, and are exactly the
      links its hrefs give. */
  lemma {:induction false} PageLinksSpec(hrefs: seq<string>, pageUrl: string, resolve: (string, string) -> Option<string>, x: string)
    ensures NoDups(PageLinks(hrefs, pageUrl, resolve))
    ensures forall k :: 0 <= k < |PageLinks(hrefs, pageUrl, resolve)| ==> '#' !in PageLinks(hrefs, pageUrl, resolve)[k]
    ensures x in PageLinks(hrefs, pageUrl, resolve) <==> exists i :: 0 <= i < |hrefs| && LinkOf(hrefs[i], pageUrl, resolve) == Some(x)
  {
    var cands := Candidates(hrefs, pageUrl, resolve);
    CandidatesExactly(hrefs, pageUrl, resolve, x);
    CandidatesNoFragment(hrefs, pageUrl, resolve);
    forall k | 0 <= k < |PageLinks(hrefs, pageUrl, resolve)|
      ensures '#' !in PageLinks(hrefs, pageUrl, resolve)[k]
    {
      var y := PageLinks(hrefs, pageUrl, resolve)[k];
      assert y in cands;
      var j :| 0 <= j < |cands| && cands[j] == y;
    }
    if x in cands {
      var j :| 0 <= j < |cands| && cands[j] == x;
      assert x in Dedup(cands);
    }
  }

  /** `extractLinks` (lines 123-155): the `while (hrefRegex.exec(...))` loop
      adding each link to a `Set`. */
  method ExtractLinks(hrefs: seq<string>, pageUrl: string, resolve: (string, string) -> Option<string>)
    returns (links: seq<string>)
    ensures links == PageLinks(hrefs, pageUrl, resolve)
  {
    links := [];
    ghost var cands: seq<string> := [];
    var seen: set<string> := {};
    var i := 0;
    while i < |hrefs|
      invariant 0 <= i <= |hrefs|
      invariant cands == Candidates(hrefs[..i], pageUrl, resolve)
      invariant links == Dedup(cands)
      invariant forall u :: u in seen <==> u in links
    {
      var link := LinkOf(hrefs[i], pageUrl, resolve);
      assert hrefs[..i + 1][..i] == hrefs[..i];
      if link.Some? {
        DedupSnoc(cands, link.value);
        cands := cands + [link.value];
        if link.value !in seen {
          links := links + [link.value];
          seen := seen + {link.value};
        }
      }
      i := i + 1;
    }
    assert hrefs[..|hrefs|] == hrefs;
  }

  /* ----------------------------- the crawl ------------------------------- */

  /** A queued page and its distance in hops from the start URL. */
  datatype Entry = Entry(url: string, depth: int)

  /** One call of `onProgress`. */
  datatype CrawlProgress =
    | StartC(origin: string)
    | CrawlingC(discovered: nat, crawled: nat)
    | DoneC(discovered: nat, crawled: nat, results: nat)
  {
    function Stage(): string {
      match this
      case StartC(_) => "start"
      case CrawlingC(_, _) => "crawling"
      case DoneC(_, _, _) => "done"
    }

    function Message(): string {
      match this
      case StartC(o) => "Starting crawl from " + o
      case CrawlingC(d, c) => "Crawled " + NatToString(c) + " / Discovered " + NatToString(d) + " URLs"
      case DoneC(_, _, n) => "Done. Discovered " + NatToString(n) + " URLs"
    }
  }

  /** What the crawl reads and never changes (lines 24-29). */
  datatype Crawl = Crawl(start: string, origin: string, maxDepth: int, maxUrls: int, sameDomain: bool,
                         originOf: string -> Option<string>, resolve: (string, string) -> Option<string>,
                         page: string -> Option<seq<string>>, abortAfter: Option<nat>)
  {
    /** The same-domain test of lines 71-78: with `sameDomain`, a link is
        kept only when its origin is computed and equals the start URL's. */
    predicate Keep(x: string) {
      !sameDomain || originOf(x) == Some(origin)
    }

    /** The links of a fetched page; none when the fetch failed. */
    function Links(url: string): seq<string> {
      match page(url)
      case None => []
      case Some(hrefs) => PageLinks(hrefs, url, resolve)
    }

    predicate Aborted(fetched: nat) {
      abortAfter.Some? && fetched >= abortAfter.value
    }
  }

  /** The links of one page the scan of lines 67-85 adds to `discovered`
      and the queue, in order: new ones that pass the same-domain test, up to
      and including the one that brings `discovered` to `maxUrls`. */
  function Admitted(c: Crawl, links: seq<string>, known: set<string>): seq<string>
    decreases |links|
  {
    if links == [] then []
    else
      var x := links[0];
      if x in known || !c.Keep(x) then Admitted(c, links[1..], known)
      else if |known + {x}| >= c.maxUrls then [x]
      else [x] + Admitted(c, links[1..], known + {x})
  }

  /** The admitted links are distinct new links of the page that pass the
      same-domain test. */
  lemma {:induction false} AdmittedSound(c: Crawl, links: seq<string>, known: set<string>)
    ensures NoDups(Admitted(c, links, known))
    ensures forall k :: 0 <= k < |Admitted(c, links, known)| ==>
              var x := Admitted(c, links, known)[k]; x in links && x !in known && c.Keep(x)
    decreases |links|
  {
    if links != [] {
      var x := links[0];
      if x in known || !c.Keep(x) {
        AdmittedSound(c, links[1..], known);
      } else if |known + {x}| < c.maxUrls {
        AdmittedSound(c, links[1..], known + {x});
      }
    }
  }

  /** The scan stops as soon as `discovered` reaches `maxUrls`: it brings
      `discovered` to at most `maxUrls`, or adds one link when it was there
      already. */
  lemma {:induction false} AdmittedBound(c: Crawl, links: seq<string>, known: set<string>)
    ensures |Admitted(c, links, known)| <= Max(1, c.maxUrls - |known|)
    decreases |links|
  {
    if links != [] {
      var x := links[0];
      if x in known || !c.Keep(x) {
        AdmittedBound(c, links[1..], known);
      } else if |known + {x}| < c.maxUrls {
        AdmittedBound(c, links[1..], known + {x});
      }
    }
  }

  /** A scan that does not reach `maxUrls` admits every new link of the page
      that passes the same-domain test. */
  lemma {:induction false} AdmittedComplete(c: Crawl, links: seq<string>, known: set<string>, x: string)
    requires |known| + |Admitted(c, links, known)| < c.maxUrls
    requires x in links && x !in known && c.Keep(x)
    ensures x in Admitted(c, links, known)
    decreases |links|
  {
    var y := links[0];
    if y in known || !c.Keep(y) {
      AdmittedComplete(c, links[1..], known, x);
    } else if y != x {
      assert |known + {y}| == |known| + 1;
      AdmittedComplete(c, links[1..], known + {y}, x);
    }
  }

  function AtDepth(urls: seq<string>, depth: int): (r: seq<Entry>)
    ensures |r| == |urls|
    ensures forall k :: 0 <= k < |urls| ==> r[k] == Entry(urls[k], depth)
  {
    seq(|urls|, k requires 0 <= k < |urls| => Entry(urls[k], depth))
  }

  /** What the scan of one page leaves: `discovered` grown by the admitted
      links, and the queue extended by them at hop `depth`. */
  ghost predicate Scanned(c: Crawl, links: seq<string>, discovered0: set<string>, queue0: seq<Entry>, depth: int,
                          discovered: set<string>, queue: seq<Entry>)
  {
    && (forall u :: u in discovered <==> u in discovered0 || u in Admitted(c, links, discovered0))
    && queue == queue0 + AtDepth(Admitted(c, links, discovered0), depth)
  }

  /** Lines 67-85 for one fetched page at hop `depth - 1`. */
  method ScanLinks(c: Crawl, links: seq<string>, discovered0: set<string>, queue0: seq<Entry>, depth: int)
    returns (discovered: set<string>, queue: seq<Entry>)
    ensures forall u :: u in discovered <==> u in discovered0 || u in Admitted(c, links, discovered0)
    ensures queue == queue0 + AtDepth(Admitted(c, links, discovered0), depth)
  {
    discovered, queue := discovered0, queue0;
    ghost var added: seq<string> := [];
    var i := 0;
    while i < |links|
      invariant 0 <= i <= |links|
      invariant ScanInv(c, links, i, discovered0, queue0, depth, discovered, queue, added)
    {
      var link := links[i];
      var skip := link in discovered || !c.Keep(link);
      ScanStep(c, links, i, discovered0, queue0, depth, discovered, queue, added, skip);
      if !skip {
        added := added + [link];
        discovered := discovered + {link};
        queue := queue + [Entry(link, depth)];
        if |discovered| >= c.maxUrls {
          return;
        }
      }
      i := i + 1;
    }
    ScanEnd(c, links, discovered0, queue0, depth, discovered, queue, added);
  }

  /** The scan after `i` links: `added` so far, and `Admitted` of the rest
      completes it. */
  ghost predicate ScanInv(c: Crawl, links: seq<string>, i: nat, discovered0: set<string>, queue0: seq<Entry>, depth: int,
                          discovered: set<string>, queue: seq<Entry>, added: seq<string>)
    requires i <= |links|
  {
    && (forall u :: u in discovered <==> u in discovered0 || u in added)
    && queue == queue0 + AtDepth(added, depth)
    && Admitted(c, links, discovered0) == added + Admitted(c, links[i..], discovered)
  }

  lemma {:induction false} ScanEnd(c: Crawl, links: seq<string>, discovered0: set<string>, queue0: seq<Entry>, depth: int,
                                   discovered: set<string>, queue: seq<Entry>, added: seq<string>)
    requires ScanInv(c, links, |links|, discovered0, queue0, depth, discovered, queue, added)
    ensures Scanned(c, links, discovered0, queue0, depth, discovered, queue)
  {
    assert links[|links|..] == [];
  }

  lemma {:induction false} ScanStep(c: Crawl, links: seq<string>, i: nat, discovered0: set<string>, queue0: seq<Entry>,
                                    depth: int, discovered: set<string>, queue: seq<Entry>, added: seq<string>, skip: bool)
    requires i < |links| && ScanInv(c, links, i, discovered0, queue0, depth, discovered, queue, added)
    requires skip == (links[i] in discovered || !c.Keep(links[i]))
    ensures skip ==> ScanInv(c, links, i + 1, discovered0, queue0, depth, discovered, queue, added)
    ensures !skip ==>
              var x := links[i];
              && (|discovered + {x}| < c.maxUrls ==>
                    ScanInv(c, links, i + 1, discovered0, queue0, depth, discovered + {x}, queue + [Entry(x, depth)], added + [x]))
              && (|discovered + {x}| >= c.maxUrls ==>
                    Scanned(c, links, discovered0, queue0, depth, discovered + {x}, queue + [Entry(x, depth)]))
  {
    var x := links[i];
    AdmittedUnfold(c, links, i, discovered);
    if !skip {
      var rest := Admitted(c, links[i + 1..], discovered + {x});
      if |discovered + {x}| < c.maxUrls {
        assert Admitted(c, links[i..], discovered) == [x] + rest;
        assert added + ([x] + rest) == (added + [x]) + rest;
      } else {
        assert Admitted(c, links[i..], discovered) == [x];
      }
      AtDepthSnoc(added, x, depth);
      assert queue + [Entry(x, depth)] == queue0 + AtDepth(added + [x], depth);
    }
  }

  /** One step of `Admitted` at position `i`. */
  lemma {:induction false} AdmittedUnfold(c: Crawl, links: seq<string>, i: nat, known: set<string>)
    requires i < |links|
    ensures var x := links[i];
            Admitted(c, links[i..], known)
            == if x in known || !c.Keep(x) then Admitted(c, links[i + 1..], known)
               else if |known + {x}| >= c.maxUrls then [x]
               else [x] + Admitted(c, links[i + 1..], known + {x})
  {
    assert links[i..][1..] == links[i + 1..];
  }

  lemma {:induction false} AtDepthSnoc(s: seq<string>, x: string, depth: int)
    ensures AtDepth(s + [x], depth) == AtDepth(s, depth) + [Entry(x, depth)]
  {
  }

  /** `e` was queued as a link of one of the first `n` results, one hop
      deeper. */
  ghost predicate ChildOf(c: Crawl, results: seq<string>, depths: seq<int>, e: Entry, n: nat) {
    exists j :: 0 <= j < n && j < |results| && j < |depths| && e.url in c.Links(results[j]) && e.depth == depths[j] + 1
  }

  lemma {:induction false} ChildGrow(c: Crawl, results: seq<string>, depths: seq<int>, u: string, d: int, e: Entry, n: nat, m: nat)
    requires |results| == |depths| && n <= m <= |results| + 1 && ChildOf(c, results, depths, e, n)
    ensures ChildOf(c, results + [u], depths + [d], e, m)
  {
    var j :| 0 <= j < n && j < |results| && j < |depths| && e.url in c.Links(results[j]) && e.depth == depths[j] + 1;
    assert (results + [u])[j] == results[j] && (depths + [d])[j] == depths[j];
  }

  /** The results are distinct and `crawled` holds exactly them. */
  ghost predicate Distinct(crawled: set<string>, results: seq<string>) {
    NoDups(results) && (forall u {:trigger u in crawled} :: u in crawled <==> u in results) && |crawled| == |results|
  }

  /** Each result lies within `maxDepth` hops, the start URL first. */
  ghost predicate Hops(c: Crawl, results: seq<string>, depths: seq<int>) {
    && |depths| == |results|
    && (forall i :: 0 <= i < |results| ==> 0 <= depths[i] <= c.maxDepth)
    && (results != [] ==> results[0] == c.start && depths[0] == 0)
  }

  /** Every result after the first is an enqueued link of an earlier result,
      one hop deeper. */
  ghost predicate Children(c: Crawl, results: seq<string>, depths: seq<int>, enqueued: seq<string>) {
    |depths| == |results| &&
    forall i :: 0 < i < |results| ==> results[i] in enqueued && ChildOf(c, results, depths, Entry(results[i], depths[i]), i)
  }

  ghost predicate ResultsOk(c: Crawl, crawled: set<string>, results: seq<string>, depths: seq<int>, enqueued: seq<string>) {
    Distinct(crawled, results) && Hops(c, results, depths) && Children(c, results, depths, enqueued)
  }

  /** The queue: the start URL alone until it is taken, then links of
      results, each enqueued. */
  ghost predicate QueueOk(c: Crawl, queue: seq<Entry>, results: seq<string>, depths: seq<int>, enqueued: seq<string>) {
    && (results == [] ==> queue == [] || queue == [Entry(c.start, 0)])
    && (forall i :: 0 <= i < |queue| ==> queue[i] == Entry(c.start, 0) ||
                                         (queue[i].url in enqueued && ChildOf(c, results, depths, queue[i], |results|)))
  }

  /** `discovered`: the start URL and the links enqueued, each once, all of
      which pass the same-domain test. */
  ghost predicate FoundOk(c: Crawl, discovered: set<string>, enqueued: seq<string>) {
    && NoDups(enqueued) && c.start !in enqueued
    && (forall u {:trigger u in discovered} :: u in discovered <==> u == c.start || u in enqueued)
    && (forall k :: 0 <= k < |enqueued| ==> c.Keep(enqueued[k]))
  }

  /** The `start` report, then one `crawling` report per result. */
  ghost predicate ReportsOk(c: Crawl, progress: seq<CrawlProgress>, n: nat) {
    && |progress| == n + 1 && progress[0] == StartC(c.origin)
    && (forall k :: 0 < k < |progress| ==> progress[k].CrawlingC? && progress[k].crawled == k)
  }

  ghost predicate CrawlInv(c: Crawl, queue: seq<Entry>, discovered: set<string>, crawled: set<string>, results: seq<string>,
                           depths: seq<int>, enqueued: seq<string>, progress: seq<CrawlProgress>)
  {
    && ResultsOk(c, crawled, results, depths, enqueued) && QueueOk(c, queue, results, depths, enqueued)
    && FoundOk(c, discovered, enqueued) && ReportsOk(c, progress, |results|)
    && |results| <= Max(0, c.maxUrls)
    && (c.abortAfter.Some? ==> |results| <= c.abortAfter.value)
  }

  lemma {:induction false} DistinctStep(crawled: set<string>, results: seq<string>, x: string)
    requires Distinct(crawled, results) && x !in crawled
    ensures Distinct(crawled + {x}, results + [x])
  {
    forall i, j | 0 <= i < j < |results| + 1
      ensures (results + [x])[i] != (results + [x])[j]
    {
      if j == |results| {
        assert (results + [x])[i] == results[i] && results[i] in crawled;
      }
    }
  }

  lemma {:induction false} HopsStep(c: Crawl, queue: seq<Entry>, results: seq<string>, depths: seq<int>, enqueued: seq<string>)
    requires Hops(c, results, depths) && QueueOk(c, queue, results, depths, enqueued)
    requires queue != [] && queue[0].depth <= c.maxDepth
    ensures Hops(c, results + [queue[0].url], depths + [queue[0].depth])
  {
  }

  lemma {:induction false} ChildrenStep(c: Crawl, queue: seq<Entry>, crawled: set<string>, results: seq<string>,
                                        depths: seq<int>, enqueued: seq<string>, added: seq<string>)
    requires Hops(c, results, depths) && Distinct(crawled, results) && Children(c, results, depths, enqueued)
    requires QueueOk(c, queue, results, depths, enqueued)
    requires queue != [] && queue[0].url !in crawled
    ensures Children(c, results + [queue[0].url], depths + [queue[0].depth], enqueued + added)
  {
    var e := queue[0];
    var results', depths', enqueued' := results + [e.url], depths + [e.depth], enqueued + added;
    var n := |results|;
    forall i | 0 < i < |results'|
      ensures results'[i] in enqueued' && ChildOf(c, results', depths', Entry(results'[i], depths'[i]), i)
    {
      if i < n {
        assert results'[i] == results[i] && depths'[i] == depths[i];
        ChildGrow(c, results, depths, e.url, e.depth, Entry(results[i], depths[i]), i, i);
      } else {
        HeadChild(c, queue, crawled, results, depths, enqueued);
        ChildGrow(c, results, depths, e.url, e.depth, e, n, n);
      }
    }
  }

  /** Once the start page is crawled, the head of the queue is a link
      enqueued from an earlier page. */
  lemma {:induction false} HeadChild(c: Crawl, queue: seq<Entry>, crawled: set<string>, results: seq<string>,
                                     depths: seq<int>, enqueued: seq<string>)
    requires Hops(c, results, depths) && Distinct(crawled, results)
    requires QueueOk(c, queue, results, depths, enqueued)
    requires queue != [] && queue[0].url !in crawled && results != []
    ensures queue[0].url in enqueued && ChildOf(c, results, depths, queue[0], |results|)
  {
    assert results[0] in crawled;
  }

  lemma {:induction false} QueueStep(c: Crawl, queue: seq<Entry>, discovered: set<string>, results: seq<string>,
                                     depths: seq<int>, enqueued: seq<string>, added: seq<string>)
    requires QueueOk(c, queue, results, depths, enqueued) && |results| == |depths|
    requires queue != [] && added == Admitted(c, c.Links(queue[0].url), discovered)
    ensures QueueOk(c, queue[1..] + AtDepth(added, queue[0].depth + 1), results + [queue[0].url], depths + [queue[0].depth],
                    enqueued + added)
  {
    var e := queue[0];
    var queue' := queue[1..] + AtDepth(added, e.depth + 1);
    forall i | 0 <= i < |queue'|
      ensures queue'[i] == Entry(c.start, 0) ||
              (queue'[i].url in enqueued + added && ChildOf(c, results + [e.url], depths + [e.depth], queue'[i], |results| + 1))
    {
      QueueEntry(c, queue, discovered, results, depths, enqueued, added, i);
    }
  }

  /** Entry `i` of the queue after one page. */
  lemma {:induction false} QueueEntry(c: Crawl, queue: seq<Entry>, discovered: set<string>, results: seq<string>,
                                      depths: seq<int>, enqueued: seq<string>, added: seq<string>, i: nat)
    requires |results| == |depths| && queue != [] && added == Admitted(c, c.Links(queue[0].url), discovered)
    requires i < |queue| - 1 + |added|
    requires i < |queue| - 1 ==>
               queue[i + 1] == Entry(c.start, 0) ||
               (queue[i + 1].url in enqueued && ChildOf(c, results, depths, queue[i + 1], |results|))
    ensures var x := (queue[1..] + AtDepth(added, queue[0].depth + 1))[i];
            x == Entry(c.start, 0) ||
            (x.url in enqueued + added && ChildOf(c, results + [queue[0].url], depths + [queue[0].depth], x, |results| + 1))
  {
    var e := queue[0];
    var queue' := queue[1..] + AtDepth(added, e.depth + 1);
    if i < |queue| - 1 {
      assert queue'[i] == queue[i + 1];
      QueueOld(c, queue[i + 1], results, depths, enqueued, e.url, e.depth, added);
    } else {
      var k := i - (|queue| - 1);
      var tail := AtDepth(added, e.depth + 1);
      assert queue'[i] == tail[k];
      QueueNew(c, results, depths, enqueued, e, discovered, added, k);
    }
  }

  /** An entry already queued is still a child once a result is added. */
  lemma {:induction false} QueueOld(c: Crawl, x: Entry, results: seq<string>, depths: seq<int>, enqueued: seq<string>,
                                    u: string, d: int, added: seq<string>)
    requires |results| == |depths|
    requires x == Entry(c.start, 0) || (x.url in enqueued && ChildOf(c, results, depths, x, |results|))
    ensures x == Entry(c.start, 0) || (x.url in enqueued + added && ChildOf(c, results + [u], depths + [d], x, |results| + 1))
  {
    if x != Entry(c.start, 0) {
      ChildGrow(c, results, depths, u, d, x, |results|, |results| + 1);
    }
  }

  /** An admitted link of the page just fetched is enqueued, and a child of
      that page. */
  lemma {:induction false} QueueNew(c: Crawl, results: seq<string>, depths: seq<int>, enqueued: seq<string>, e: Entry,
                                    discovered: set<string>, added: seq<string>, k: nat)
    requires |results| == |depths| && added == Admitted(c, c.Links(e.url), discovered) && k < |added|
    ensures added[k] in enqueued + added
    ensures ChildOf(c, results + [e.url], depths + [e.depth], Entry(added[k], e.depth + 1), |results| + 1)
  {
    AdmittedSound(c, c.Links(e.url), discovered);
    var x := added[k];
    assert x in c.Links(e.url);
    assert (results + [e.url])[|results|] == e.url && (depths + [e.depth])[|results|] == e.depth;
    assert (enqueued + added)[|enqueued| + k] == x;
  }

  lemma {:induction false} FoundStep(c: Crawl, discovered: set<string>, enqueued: seq<string>, links: seq<string>,
                                     added: seq<string>, discovered': set<string>)
    requires FoundOk(c, discovered, enqueued)
    requires added == Admitted(c, links, discovered)
    requires forall u :: u in discovered' <==> u in discovered || u in added
    ensures FoundOk(c, discovered', enqueued + added)
  {
    AdmittedSound(c, links, discovered);
    NoDupsAppend(enqueued, added);
  }

  lemma {:induction false} QueueSkip(c: Crawl, queue: seq<Entry>, results: seq<string>, depths: seq<int>, enqueued: seq<string>)
    requires QueueOk(c, queue, results, depths, enqueued) && queue != []
    ensures QueueOk(c, queue[1..], results, depths, enqueued)
  {
    forall i | 0 <= i < |queue| - 1
      ensures queue[1..][i] == queue[i + 1]
    {
    }
  }

  lemma {:induction false} ReportsStep(c: Crawl, progress: seq<CrawlProgress>, n: nat, d: nat)
    requires ReportsOk(c, progress, n)
    ensures ReportsOk(c, progress + [CrawlingC(d, n + 1)], n + 1)
  {
    var progress' := progress + [CrawlingC(d, n + 1)];
    forall k | 0 < k < |progress'|
      ensures progress'[k].CrawlingC? && progress'[k].crawled == k
    {
      if k < |progress| {
        assert progress'[k] == progress[k];
      }
    }
  }

  /** The results after one more page keep their invariant. */
  lemma {:induction false} ResultsStep(c: Crawl, queue: seq<Entry>, crawled: set<string>, results: seq<string>,
                                       depths: seq<int>, enqueued: seq<string>, added: seq<string>)
    requires ResultsOk(c, crawled, results, depths, enqueued) && QueueOk(c, queue, results, depths, enqueued)
    requires queue != [] && queue[0].url !in crawled && queue[0].depth <= c.maxDepth
    ensures ResultsOk(c, crawled + {queue[0].url}, results + [queue[0].url], depths + [queue[0].depth], enqueued + added)
  {
    DistinctStep(crawled, results, queue[0].url);
    HopsStep(c, queue, results, depths, enqueued);
    ChildrenStep(c, queue, crawled, results, depths, enqueued, added);
  }

  /** The crawl invariant carries over one page taken off the queue, its
      admitted links enqueued. */
  lemma {:induction false} PageStep(c: Crawl, queue: seq<Entry>, discovered: set<string>, crawled: set<string>,
                                    results: seq<string>, depths: seq<int>, enqueued: seq<string>,
                                    progress: seq<CrawlProgress>, discovered': set<string>, queue': seq<Entry>,
                                    added: seq<string>)
    requires CrawlInv(c, queue, discovered, crawled, results, depths, enqueued, progress)
    requires queue != [] && queue[0].url !in crawled && queue[0].depth <= c.maxDepth
    requires |results| < c.maxUrls && !c.Aborted(|results|)
    requires added == Admitted(c, c.Links(queue[0].url), discovered)
    requires queue' == queue[1..] + AtDepth(added, queue[0].depth + 1)
    requires forall u :: u in discovered' <==> u in discovered || u in added
    ensures CrawlInv(c, queue', discovered', crawled + {queue[0].url}, results + [queue[0].url], depths + [queue[0].depth],
                     enqueued + added, progress + [CrawlingC(|discovered|, |crawled| + 1)])
  {
    ResultsStep(c, queue, crawled, results, depths, enqueued, added);
    QueueStep(c, queue, discovered, results, depths, enqueued, added);
    FoundStep(c, discovered, enqueued, c.Links(queue[0].url), added, discovered');
    ReportsStep(c, progress, |results|, |discovered|);
  }

  /** One page taken off the queue (lines 49-85): its links are extracted
      and scanned, the admitted ones join `discovered` and the end of the
      queue one hop deeper. */
  method CrawlPage(c: Crawl, queue: seq<Entry>, discovered: set<string>)
    returns (discovered': set<string>, queue': seq<Entry>, ghost added: seq<string>)
    requires queue != []
    ensures added == Admitted(c, c.Links(queue[0].url), discovered)
    ensures queue' == queue[1..] + AtDepth(added, queue[0].depth + 1)
    ensures forall u :: u in discovered' <==> u in discovered || u in added
  {
    var e := queue[0];
    added := Admitted(c, c.Links(e.url), discovered);
    var links := [];
    if c.page(e.url).Some? {
      links := ExtractLinks(c.page(e.url).value, e.url, c.resolve);
    }
    assert links == c.Links(e.url);
    discovered', queue' := ScanLinks(c, links, discovered, queue[1..], e.depth + 1);
  }

  lemma {:induction false} InvStart(c: Crawl)
    ensures CrawlInv(c, [Entry(c.start, 0)], {c.start}, {}, [], [], [], [StartC(c.origin)])
  {
    assert forall u :: u in {c.start} <==> u == c.start || u in [];
  }

  lemma {:induction false} InvSkip(c: Crawl, queue: seq<Entry>, discovered: set<string>, crawled: set<string>,
                                   results: seq<string>, depths: seq<int>, enqueued: seq<string>, progress: seq<CrawlProgress>)
    requires CrawlInv(c, queue, discovered, crawled, results, depths, enqueued, progress) && queue != []
    ensures CrawlInv(c, queue[1..], discovered, crawled, results, depths, enqueued, progress)
  {
    QueueSkip(c, queue, results, depths, enqueued);
  }

  /** What `crawlWebsite` resolves to: distinct URLs, at most `maxUrls`
      (none when it is not positive), the start URL first, every later one
      a link of an earlier page one hop deeper, all within `maxDepth` hops
      (`depths`), with the start URL's origin when `sameDomain` holds, and
      no more pages than fetched before the signal. */
  ghost predicate Crawled(c: Crawl, results: seq<string>, depths: seq<int>) {
    && NoDups(results) && |results| <= Max(0, c.maxUrls)
    && |depths| == |results|
    && (forall i :: 0 <= i < |results| ==> 0 <= depths[i] <= c.maxDepth)
    && (results != [] ==> results[0] == c.start && depths[0] == 0)
    && (forall i :: 0 < i < |results| ==> ChildOf(c, results, depths, Entry(results[i], depths[i]), i))
    && (c.sameDomain ==> forall i :: 0 <= i < |results| ==> c.originOf(results[i]) == Some(c.origin))
    && (c.abortAfter.Some? ==> |results| <= c.abortAfter.value)
  }

  lemma {:induction false} CrawledOfInv(c: Crawl, queue: seq<Entry>, discovered: set<string>, crawled: set<string>,
                                        results: seq<string>, depths: seq<int>, enqueued: seq<string>,
                                        progress: seq<CrawlProgress>)
    requires CrawlInv(c, queue, discovered, crawled, results, depths, enqueued, progress)
    requires c.originOf(c.start) == Some(c.origin)
    ensures Crawled(c, results, depths)
    ensures var p := progress + [DoneC(|discovered|, |crawled|, |results|)];
            && |p| == |results| + 2 && p[0] == StartC(c.origin)
            && (forall k :: 0 < k <= |results| ==> p[k].CrawlingC? && p[k].crawled == k)
            && p[|p| - 1].DoneC? && p[|p| - 1].crawled == |results| && p[|p| - 1].results == |results|
  {
    if c.sameDomain {
      forall i | 0 <= i < |results|
        ensures c.originOf(results[i]) == Some(c.origin)
      {
        if i > 0 {
          assert results[i] in enqueued;
          var k :| 0 <= k < |enqueued| && enqueued[k] == results[i];
          assert c.Keep(enqueued[k]);
        }
      }
    }
    var p := progress + [DoneC(|discovered|, |crawled|, |results|)];
    assert forall k :: 0 <= k < |progress| ==> p[k] == progress[k];
  }

  /* ------------------------- what the crawl reaches ---------------------- */

  // The predicates and lemmas below see the pages' links only through
  // `links`, the link graph (`c.Links` in `CrawlWebsite`): what the crawl
  // reaches depends on the graph, not on how the links are parsed.

  /** `level` after a page at hop `depth - 1`: its admitted links enter at
      hop `depth`. */
  ghost function Enlevel(level: map<string, int>, added: seq<string>, depth: int): map<string, int>
    decreases |added|
  {
    if added == [] then level else Enlevel(level, added[..|added| - 1], depth)[added[|added| - 1] := depth]
  }

  /** The new links enter at hop `depth`; the others keep their level. */
  lemma {:induction false} EnlevelSpec(level: map<string, int>, added: seq<string>, depth: int)
    ensures forall u :: u in Enlevel(level, added, depth) <==> u in level || u in added
    ensures forall u :: u in added ==> Enlevel(level, added, depth)[u] == depth
    ensures forall u :: u in level && u !in added ==> Enlevel(level, added, depth)[u] == level[u]
    decreases |added|
  {
    if added != [] {
      var init := added[..|added| - 1];
      EnlevelSpec(level, init, depth);
      assert forall u :: u in added <==> u in init || u == added[|added| - 1];
    }
  }

  /** Breadth-first order. `level` gives the hop count each discovered URL
      was enqueued at; every queued entry carries its URL's level; the queue
      is sorted by hops, from `front` (the hop count of the last page
      crawled) to one more; and each discovered URL is crawled, still
      queued, or beyond `maxDepth`. */
  ghost predicate Levels(c: Crawl, queue: seq<Entry>, discovered: set<string>, crawled: set<string>,
                         level: map<string, int>, front: int)
  {
    && (forall u {:trigger u in discovered} {:trigger u in level} :: u in discovered <==> u in level)
    && c.start in level && level[c.start] == 0
    && (forall k :: 0 <= k < |queue| ==>
          queue[k].url in level && queue[k].depth == level[queue[k].url] && front <= queue[k].depth)
    && (forall k, m :: 0 <= k < m < |queue| ==> queue[k].depth <= queue[m].depth)
    && (forall u :: u in level ==> level[u] <= front + 1)
    && (forall u :: u in level ==> u in crawled || level[u] > c.maxDepth || Entry(u, level[u]) in queue)
  }

  /** Every discovered URL is the start URL or a link, passing the
      same-domain test, of a page crawled. */
  ghost predicate Sourced(c: Crawl, links: string -> seq<string>, discovered: set<string>, results: seq<string>) {
    forall u :: u in discovered ==>
      u == c.start || (c.Keep(u) && exists j :: 0 <= j < |results| && u in links(results[j]))
  }

  /** While `discovered` stays under `maxUrls`, every link passing the
      same-domain test of every page crawled is discovered, at most one hop
      deeper than that page. */
  ghost predicate Reached(c: Crawl, links: string -> seq<string>, discovered: set<string>, results: seq<string>,
                          depths: seq<int>, level: map<string, int>)
  {
    |depths| == |results| &&
    (|discovered| < c.maxUrls ==>
       forall i, x :: 0 <= i < |results| && x in links(results[i]) && c.Keep(x) ==> x in level && level[x] <= depths[i] + 1)
  }

  ghost predicate ReachInv(c: Crawl, links: string -> seq<string>, queue: seq<Entry>, discovered: set<string>,
                           crawled: set<string>, results: seq<string>, depths: seq<int>, level: map<string, int>, front: int)
  {
    Levels(c, queue, discovered, crawled, level, front) && Sourced(c, links, discovered, results)
    && Reached(c, links, discovered, results, depths, level)
  }

  lemma {:induction false} SubsetCard(a: set<string>, b: set<string>)
    requires a <= b
    ensures |a| <= |b|
  {
    assert b == a + (b - a);
  }

  /** A same-domain link the scan of a page passes over was already known,
      or the scan stopped at `maxUrls`: any set holding what is known and
      admitted has reached it. */
  lemma {:induction false} AdmittedReach(c: Crawl, links: seq<string>, known: set<string>, x: string, s: set<string>)
    requires x in links && x !in known && c.Keep(x)
    requires known <= s && forall u :: u in Admitted(c, links, known) ==> u in s
    ensures x in Admitted(c, links, known) || |s| >= c.maxUrls
    decreases |links|
  {
    var y := links[0];
    if y == x {
    } else if y in known || !c.Keep(y) {
      assert x in links[1..];
      AdmittedReach(c, links[1..], known, x, s);
    } else if |known + {y}| >= c.maxUrls {
      assert y in Admitted(c, links, known);
      SubsetCard(known + {y}, s);
    } else {
      assert x in links[1..];
      assert y in Admitted(c, links, known);
      AdmittedReach(c, links[1..], known + {y}, x, s);
    }
  }

  lemma {:induction false} ReachStart(c: Crawl, links: string -> seq<string>)
    ensures ReachInv(c, links, [Entry(c.start, 0)], {c.start}, {}, [], [], map[c.start := 0], 0)
  {
    assert Entry(c.start, 0) in [Entry(c.start, 0)];
  }

  /** Everything the loop of line 37 keeps, after `passes` passes. */
  ghost predicate PagesInv(c: Crawl, step: Pass -> Pass, queue: seq<Entry>, discovered: set<string>, crawled: set<string>,
                           results: seq<string>, progress: seq<CrawlProgress>, depths: seq<int>,
                           enqueued: seq<string>, level: map<string, int>, front: int, passes: nat)
  {
    && CrawlInv(c, queue, discovered, crawled, results, depths, enqueued, progress)
    && ReachInv(c, c.Links, queue, discovered, crawled, results, depths, level, front)
    && StartFirst(c, queue, results)
    && Pass(queue, discovered, results, progress) == Run(c, step, passes)
  }

  /** The state before the loop of line 37 meets every invariant of it. */
  lemma {:induction false} PagesStart(c: Crawl, step: Pass -> Pass)
    ensures CrawlInv(c, [Entry(c.start, 0)], {c.start}, {}, [], [], [], [StartC(c.origin)])
    ensures ReachInv(c, c.Links, [Entry(c.start, 0)], {c.start}, {}, [], [], map[c.start := 0], 0)
    ensures StartFirst(c, [Entry(c.start, 0)], [])
    ensures Pass([Entry(c.start, 0)], {c.start}, [], [StartC(c.origin)]) == Run(c, step, 0)
  {
    InvStart(c);
    ReachStart(c, c.Links);
  }

  lemma {:induction false} ReachSkip(c: Crawl, links: string -> seq<string>, queue: seq<Entry>, discovered: set<string>, crawled: set<string>,
                                     results: seq<string>, depths: seq<int>, level: map<string, int>, front: int)
    requires ReachInv(c, links, queue, discovered, crawled, results, depths, level, front) && queue != []
    requires queue[0].url in crawled || queue[0].depth > c.maxDepth
    ensures ReachInv(c, links, queue[1..], discovered, crawled, results, depths, level, front)
  {
    forall u | u in level
      ensures u in crawled || level[u] > c.maxDepth || Entry(u, level[u]) in queue[1..]
    {
      if Entry(u, level[u]) in queue && Entry(u, level[u]) != queue[0] {
        var k :| 0 <= k < |queue| && queue[k] == Entry(u, level[u]);
        assert queue[1..][k - 1] == queue[k];
      }
    }
  }

  /** Entering URLs not yet levelled keeps every old level. */
  lemma {:induction false} EnlevelFresh(level: map<string, int>, added: seq<string>, depth: int, level': map<string, int>)
    requires level' == Enlevel(level, added, depth)
    requires forall u :: u in added ==> u !in level
    ensures forall u :: u in level' <==> u in level || u in added
    ensures forall u :: u in level ==> level'[u] == level[u]
    ensures forall u :: u in added ==> level'[u] == depth
  {
    EnlevelSpec(level, added, depth);
  }

  /** The breadth-first order survives a page crawled off the head of the
      queue. */
  lemma {:induction false} LevelsPage(c: Crawl, queue: seq<Entry>, discovered: set<string>, crawled: set<string>,
                                      level: map<string, int>, front: int, added: seq<string>,
                                      discovered': set<string>, queue': seq<Entry>, crawled': set<string>,
                                      level': map<string, int>, front': int)
    requires Levels(c, queue, discovered, crawled, level, front) && queue != []
    requires crawled' == crawled + {queue[0].url} && front' == queue[0].depth
    requires forall u :: u in added ==> u !in discovered
    requires queue' == queue[1..] + AtDepth(added, queue[0].depth + 1)
    requires forall u :: u in discovered' <==> u in discovered || u in added
    requires forall u :: u in level' <==> u in level || u in added
    requires forall u :: u in level ==> level'[u] == level[u]
    requires forall u :: u in added ==> level'[u] == queue[0].depth + 1
    ensures Levels(c, queue', discovered', crawled', level', front')
  {
    var e := queue[0];
    var d := e.depth + 1;
    forall k | 0 <= k < |queue'|
      ensures queue'[k].url in level' && queue'[k].depth == level'[queue'[k].url] && e.depth <= queue'[k].depth
    {
      if k < |queue| - 1 {
        assert queue'[k] == queue[k + 1];
      } else {
        assert queue'[k] == Entry(added[k - (|queue| - 1)], d);
      }
    }
    forall k, m | 0 <= k < m < |queue'|
      ensures queue'[k].depth <= queue'[m].depth
    {
      if m < |queue| - 1 {
        assert queue'[k] == queue[k + 1] && queue'[m] == queue[m + 1];
      } else if k < |queue| - 1 {
        assert queue'[k] == queue[k + 1] && queue'[m].depth == d;
      } else {
        assert queue'[k].depth == d && queue'[m].depth == d;
      }
    }
    forall u | u in level'
      ensures u in crawled' || level'[u] > c.maxDepth || Entry(u, level'[u]) in queue'
    {
      if u in level {
        if u !in crawled && level[u] <= c.maxDepth && u != e.url {
          var k :| 0 <= k < |queue| && queue[k] == Entry(u, level[u]);
          assert queue'[k - 1] == queue[k];
        }
      } else {
        var m :| 0 <= m < |added| && added[m] == u;
        assert queue'[|queue| - 1 + m] == Entry(u, d);
      }
    }
  }

  /** Every discovered URL still comes from a page crawled. */
  lemma {:induction false} SourcedPage(c: Crawl, links: string -> seq<string>, discovered: set<string>, results: seq<string>, u: string, added: seq<string>,
                                       discovered': set<string>, results': seq<string>)
    requires Sourced(c, links, discovered, results) && results' == results + [u]
    requires added == Admitted(c, links(u), discovered)
    requires forall v :: v in discovered' <==> v in discovered || v in added
    ensures Sourced(c, links, discovered', results')
  {
    AdmittedSound(c, links(u), discovered);
    forall v | v in discovered' && v != c.start
      ensures c.Keep(v) && exists j :: 0 <= j < |results'| && v in links(results'[j])
    {
      if v in discovered {
        var j :| 0 <= j < |results| && v in links(results[j]);
        assert results'[j] == results[j];
      } else {
        assert results'[|results|] == u;
      }
    }
  }

  /** The links of the page just crawled are reached while `discovered`
      stays under `maxUrls`. */
  lemma {:induction false} ReachedPage(c: Crawl, links: string -> seq<string>, discovered: set<string>, results: seq<string>, depths: seq<int>,
                                       level: map<string, int>, front: int, e: Entry, added: seq<string>,
                                       discovered': set<string>, results': seq<string>, depths': seq<int>,
                                       level': map<string, int>)
    requires Reached(c, links, discovered, results, depths, level) && front <= e.depth
    requires results' == results + [e.url] && depths' == depths + [e.depth]
    requires forall u {:trigger u in discovered} {:trigger u in level} :: u in discovered <==> u in level
    requires forall u :: u in level ==> level[u] <= front + 1
    requires added == Admitted(c, links(e.url), discovered)
    requires forall u :: u in discovered' <==> u in discovered || u in added
    requires forall u :: u in level' <==> u in level || u in added
    requires forall u :: u in level ==> level'[u] == level[u]
    requires forall u :: u in added ==> level'[u] == e.depth + 1
    ensures Reached(c, links, discovered', results', depths', level')
  {
    if |discovered'| < c.maxUrls {
      SubsetCard(discovered, discovered');
      forall i, x | 0 <= i < |results'| && x in links(results'[i]) && c.Keep(x)
        ensures x in level' && level'[x] <= depths'[i] + 1
      {
        if i < |results| {
          assert results'[i] == results[i] && depths'[i] == depths[i];
          assert x in level && level[x] <= depths[i] + 1;
        } else {
          assert results'[i] == e.url && depths'[i] == e.depth;
          if x in discovered {
            assert level[x] <= front + 1;
          } else {
            AdmittedReach(c, links(e.url), discovered, x, discovered');
            assert x in added;
          }
        }
      }
    }
  }

  /** The reach invariant survives a page crawled off the head of the
      queue. */
  lemma {:induction false} ReachPage(c: Crawl, links: string -> seq<string>, queue: seq<Entry>, discovered: set<string>,
                                     crawled: set<string>, results: seq<string>, depths: seq<int>, level: map<string, int>,
                                     front: int, added: seq<string>, queue': seq<Entry>, discovered': set<string>,
                                     crawled': set<string>, results': seq<string>, depths': seq<int>,
                                     level': map<string, int>, front': int)
    requires ReachInv(c, links, queue, discovered, crawled, results, depths, level, front) && queue != []
    requires added == Admitted(c, links(queue[0].url), discovered)
    requires queue' == queue[1..] + AtDepth(added, queue[0].depth + 1)
    requires forall u :: u in discovered' <==> u in discovered || u in added
    requires crawled' == crawled + {queue[0].url} && results' == results + [queue[0].url]
    requires depths' == depths + [queue[0].depth]
    requires level' == Enlevel(level, added, queue[0].depth + 1) && front' == queue[0].depth
    ensures ReachInv(c, links, queue', discovered', crawled', results', depths', level', front')
  {
    AdmittedSound(c, links(queue[0].url), discovered);
    assert forall u :: u in added ==> u !in discovered;
    assert forall u :: u in added ==> u !in level;
    EnlevelFresh(level, added, queue[0].depth + 1, level');
    LevelsPage(c, queue, discovered, crawled, level, front, added, discovered', queue', crawled', level', front');
    SourcedPage(c, links, discovered, results, queue[0].url, added, discovered', results');
    ReachedPage(c, links, discovered, results, depths, level, front, queue[0], added, discovered', results', depths', level');
  }

  /** The start URL is the first page crawled (lines 29-32, 49-50): until
      it is, it is all the queue holds. */
  ghost predicate StartFirst(c: Crawl, queue: seq<Entry>, results: seq<string>) {
    && (results == [] ==> queue == [] || queue == [Entry(c.start, 0)])
    && (results != [] ==> results[0] == c.start)
  }

  /** What the crawl is bound to reach. `found` (the final `discovered`)
      holds the start URL and every result, and nothing but the start URL
      and same-domain links of the pages crawled. While it stays under
      `maxUrls` it holds every such link, and each such link of a page under
      `maxDepth` hops is itself crawled. When `maxUrls` and `maxDepth` leave
      room for it, the start page is crawled. */
  ghost predicate Closed(c: Crawl, links: string -> seq<string>, results: seq<string>, depths: seq<int>, found: set<string>) {
    && |depths| == |results|
    && c.start in found && (forall i :: 0 <= i < |results| ==> results[i] in found)
    && Sourced(c, links, found, results)
    && (|found| < c.maxUrls ==>
          forall i, x :: 0 <= i < |results| && x in links(results[i]) && c.Keep(x) ==> x in found)
    && (|found| < c.maxUrls ==>
          forall i, x :: 0 <= i < |results| && depths[i] < c.maxDepth && x in links(results[i]) && c.Keep(x) ==> x in results)
    && (c.maxUrls >= 1 && c.maxDepth >= 0 ==> results != [])
  }

  /** When the loop of line 37 ends, the crawl has reached what it must. */
  lemma {:induction false} ClosedOfInv(c: Crawl, links: string -> seq<string>, queue: seq<Entry>, discovered: set<string>, crawled: set<string>,
                                       results: seq<string>, depths: seq<int>, enqueued: seq<string>,
                                       progress: seq<CrawlProgress>, level: map<string, int>, front: int)
    requires CrawlInv(c, queue, discovered, crawled, results, depths, enqueued, progress)
    requires ReachInv(c, links, queue, discovered, crawled, results, depths, level, front)
    requires queue == [] || |results| >= c.maxUrls
    ensures Closed(c, links, results, depths, discovered)
  {
    ResultsFound(c, discovered, crawled, results, depths, enqueued);
    ReachedFound(c, links, discovered, results, depths, level);
    ReachedCrawled(c, links, queue, discovered, crawled, results, depths, level, front);
    StartCrawled(c, queue, discovered, crawled, results, level, front);
  }

  /** The results are discovered URLs. */
  lemma {:induction false} ResultsFound(c: Crawl, discovered: set<string>, crawled: set<string>, results: seq<string>,
                                        depths: seq<int>, enqueued: seq<string>)
    requires ResultsOk(c, crawled, results, depths, enqueued) && FoundOk(c, discovered, enqueued)
    ensures forall i :: 0 <= i < |results| ==> results[i] in discovered
    ensures |results| <= |discovered|
  {
    forall i | 0 <= i < |results|
      ensures results[i] in discovered
    {
      if i > 0 {
        assert results[i] in enqueued;
      }
    }
    assert crawled <= discovered;
    SubsetCard(crawled, discovered);
  }

  /** While under `maxUrls`, the links of the pages crawled are discovered. */
  lemma {:induction false} ReachedFound(c: Crawl, links: string -> seq<string>, discovered: set<string>, results: seq<string>, depths: seq<int>,
                                        level: map<string, int>)
    requires Reached(c, links, discovered, results, depths, level)
    requires forall u {:trigger u in discovered} {:trigger u in level} :: u in discovered <==> u in level
    ensures |discovered| < c.maxUrls ==>
              forall i, x :: 0 <= i < |results| && x in links(results[i]) && c.Keep(x) ==> x in discovered
  {
  }

  /** Once the queue is empty, a reached link within `maxDepth` hops is
      crawled. */
  lemma {:induction false} ReachedCrawled(c: Crawl, links: string -> seq<string>, queue: seq<Entry>, discovered: set<string>, crawled: set<string>,
                                          results: seq<string>, depths: seq<int>, level: map<string, int>, front: int)
    requires Levels(c, queue, discovered, crawled, level, front) && Reached(c, links, discovered, results, depths, level)
    requires forall u {:trigger u in crawled} :: u in crawled <==> u in results
    requires |results| <= |discovered| && (queue == [] || |results| >= c.maxUrls)
    ensures |discovered| < c.maxUrls ==>
              forall i, x :: 0 <= i < |results| && depths[i] < c.maxDepth && x in links(results[i]) && c.Keep(x) ==> x in results
  {
    if |discovered| < c.maxUrls {
      forall i, x | 0 <= i < |results| && depths[i] < c.maxDepth && x in links(results[i]) && c.Keep(x)
        ensures x in results
      {
        LevelCrawled(c, queue, discovered, crawled, level, front, x);
      }
    }
  }

  lemma {:induction false} LevelCrawled(c: Crawl, queue: seq<Entry>, discovered: set<string>, crawled: set<string>,
                                        level: map<string, int>, front: int, x: string)
    requires Levels(c, queue, discovered, crawled, level, front) && queue == []
    requires x in level && level[x] <= c.maxDepth
    ensures x in crawled
  {
  }

  /** The start page is crawled when `maxUrls` and `maxDepth` leave room
      for it. */
  lemma {:induction false} StartCrawled(c: Crawl, queue: seq<Entry>, discovered: set<string>, crawled: set<string>,
                                        results: seq<string>, level: map<string, int>, front: int)
    requires Levels(c, queue, discovered, crawled, level, front) && |crawled| == |results|
    requires queue == [] || |results| >= c.maxUrls
    ensures c.maxUrls >= 1 && c.maxDepth >= 0 ==> results != []
  {
  }

  /* ------------------------- the passes of the loop ------------------------ */

  /** The state the loop of lines 37-91 carries from one pass to the next;
      `crawled` is the set of `results`. */
  datatype Pass = Pass(queue: seq<Entry>, discovered: set<string>, results: seq<string>, progress: seq<CrawlProgress>)

  /** The state of lines 30-35. */
  function Begin(c: Crawl): Pass {
    Pass([Entry(c.start, 0)], {c.start}, [], [StartC(c.origin)])
  }

  /** The loop condition of line 37. */
  predicate Going(c: Crawl, p: Pass) {
    p.queue != [] && |p.results| < c.maxUrls
  }

  /** One pass of lines 40-90: the head is shifted off the queue and
      skipped when crawled already or beyond `maxDepth`; otherwise it joins
      the results, its `crawling` report counts the URLs discovered before
      its links are scanned, and the links it admits join `discovered` and
      the end of the queue one hop deeper. With the queue empty there is no
      pass to make. */
  function Next(c: Crawl, links: string -> seq<string>, p: Pass): (q: Pass)
    ensures p.queue != [] ==> q.results == p.results || q.results == p.results + [p.queue[0].url]
    ensures p.queue != [] && q.results == p.results ==> q.queue == p.queue[1..]
  {
    if p.queue == [] then p
    else
      var e := p.queue[0];
      if e.url in p.results || e.depth > c.maxDepth then p.(queue := p.queue[1..])
      else
        var added := Admitted(c, links(e.url), p.discovered);
        Pass(p.queue[1..] + AtDepth(added, e.depth + 1), p.discovered + (set x | x in added),
             p.results + [e.url], p.progress + [CrawlingC(|p.discovered|, |p.results| + 1)])
  }

  /** The passes of the crawl of `c`, over the pages it fetches. */
  function Passes(c: Crawl): Pass -> Pass {
    p => Next(c, c.Links, p)
  }

  lemma {:induction false} PassesNext(c: Crawl, p: Pass)
    ensures Passes(c)(p) == Next(c, c.Links, p)
  {
  }

  /** `step` makes the pass `Next` from `p`. */
  ghost predicate Stepped(c: Crawl, step: Pass -> Pass, p: Pass) {
    step(p) == Next(c, c.Links, p)
  }

  /** `step` makes the passes of the crawl of `c`. The loop and the steps
      of one pass are proved for any such `step`, so that the pass `Next`
      is looked into only where a `Stepped` term names the state. */
  ghost predicate Steps(c: Crawl, step: Pass -> Pass) {
    forall p: Pass :: Stepped(c, step, p)
  }

  lemma {:induction false} PassesSteps(c: Crawl)
    ensures Steps(c, Passes(c))
  {
    forall p: Pass
      ensures Stepped(c, Passes(c), p)
    {
      PassesNext(c, p);
    }
  }

  /** The loop goes on at the top of a pass: it is inside the loop of line
      37 and the signal is clear (line 38). */
  predicate GoesOn(c: Crawl, p: Pass) {
    Going(c, p) && !c.Aborted(|p.results|)
  }

  /** The state after `n` passes made by `step`, or where the loop left
      off when that came first: it ends at the first loop top where the
      loop condition fails, and throws at the first where the signal is set. */
  function Run(c: Crawl, step: Pass -> Pass, n: nat): Pass {
    if n == 0 then Begin(c)
    else
      var p := Run(c, step, n - 1);
      if GoesOn(c, p) then step(p) else p
  }

  /** Once the loop has left off, more passes change nothing. */
  lemma {:induction false} RunStays(c: Crawl, step: Pass -> Pass, n: nat, k: nat)
    requires !GoesOn(c, Run(c, step, n))
    ensures Run(c, step, n + k) == Run(c, step, n)
    decreases k
  {
    if k > 0 {
      RunStays(c, step, n, k - 1);
      assert Run(c, step, n + k) == Run(c, step, n + (k - 1));
    }
  }

  /** The loop leaves off in one state only: any two pass counts at which
      it has left off give the same state, whatever `step` is. */
  lemma {:induction false} StopSame(c: Crawl, step: Pass -> Pass, n: nat, m: nat)
    requires !GoesOn(c, Run(c, step, n)) && !GoesOn(c, Run(c, step, m))
    ensures Run(c, step, n) == Run(c, step, m)
  {
    if n <= m {
      RunStays(c, step, n, m - n);
    } else {
      RunStays(c, step, m, n - m);
    }
  }

  /** A pass adds at most one result. */
  lemma {:induction false} PassesGrow(c: Crawl)
    ensures forall p: Pass :: p.queue != [] ==> |Passes(c)(p).results| <= |p.results| + 1
  {
    forall p: Pass | p.queue != []
      ensures |Passes(c)(p).results| <= |p.results| + 1
    {
      PassesNext(c, p);
    }
  }

  /** When each pass adds at most one result, the signal was clear at every
      count of results below the one `n` passes reach: every result was
      crawled before the signal was seen. */
  lemma {:induction false} SignalBelow(c: Crawl, step: Pass -> Pass, n: nat)
    requires forall p: Pass :: p.queue != [] ==> |step(p).results| <= |p.results| + 1
    ensures forall k :: 0 <= k < |Run(c, step, n).results| ==> !c.Aborted(k)
    decreases n
  {
    if n > 0 {
      SignalBelow(c, step, n - 1);
    }
  }

  /** The pass that skips the head. */
  lemma {:induction false} NextSkipOf(c: Crawl, step: Pass -> Pass, p: Pass)
    requires Steps(c, step)
    requires p.queue != [] && (p.queue[0].url in p.results || p.queue[0].depth > c.maxDepth)
    ensures step(p) == p.(queue := p.queue[1..])
  {
    assert Stepped(c, step, p);
  }

  /** A pass that crawls the head: the state the scan leaves is `Next`. */
  lemma {:induction false} NextCrawl(c: Crawl, step: Pass -> Pass, queue: seq<Entry>, discovered: set<string>, results: seq<string>,
                                     progress: seq<CrawlProgress>, added: seq<string>, queue': seq<Entry>,
                                     discovered': set<string>, results': seq<string>, progress': seq<CrawlProgress>)
    requires Steps(c, step)
    requires queue != [] && queue[0].url !in results && queue[0].depth <= c.maxDepth
    requires added == Admitted(c, c.Links(queue[0].url), discovered)
    requires queue' == queue[1..] + AtDepth(added, queue[0].depth + 1)
    requires forall u :: u in discovered' <==> u in discovered || u in added
    requires results' == results + [queue[0].url]
    requires progress' == progress + [CrawlingC(|discovered|, |results| + 1)]
    ensures Pass(queue', discovered', results', progress') == step(Pass(queue, discovered, results, progress))
  {
    var p := Pass(queue, discovered, results, progress);
    NextCrawlOf(c, p);
    assert discovered' == discovered + (set x | x in added);
    assert Stepped(c, step, p);
  }

  /** `Next` on a head to crawl. */
  lemma {:induction false} NextCrawlOf(c: Crawl, p: Pass)
    requires p.queue != [] && p.queue[0].url !in p.results && p.queue[0].depth <= c.maxDepth
    ensures var added := Admitted(c, c.Links(p.queue[0].url), p.discovered);
            Next(c, c.Links, p) == Pass(p.queue[1..] + AtDepth(added, p.queue[0].depth + 1), p.discovered + (set x | x in added),
                                        p.results + [p.queue[0].url], p.progress + [CrawlingC(|p.discovered|, |p.results| + 1)])
  {
  }

  /** What the crawl of `startUrl` reads (lines 24-29, defaults of lines
      17-21). */
  function CrawlOf(startUrl: string, origin: string, maxDepthOpt: Option<int>, maxUrlsOpt: Option<int>,
                   sameDomainOpt: Option<bool>, originOf: string -> Option<string>,
                   resolve: (string, string) -> Option<string>, page: string -> Option<seq<string>>,
                   abortAfter: Option<nat>): Crawl
  {
    Crawl(startUrl, origin, maxDepthOpt.GetOr(DefaultMaxDepth), maxUrlsOpt.GetOr(DefaultMaxUrls),
          sameDomainOpt.GetOr(DefaultSameDomain), originOf, resolve, page, abortAfter)
  }

  /** One turn of the loop of lines 37-91 once the signal is checked: the
      head of the queue is shifted off (line 40) and skipped when crawled
      already or deeper than `maxDepth` (lines 43-46), or else recorded as a
      result, reported, fetched and scanned (lines 49-85). */
  method CrawlNext(c: Crawl, ghost step: Pass -> Pass, queue: seq<Entry>, discovered: set<string>, crawled: set<string>, results: seq<string>,
                   progress: seq<CrawlProgress>, ghost depths: seq<int>, ghost enqueued: seq<string>,
                   ghost level: map<string, int>, ghost front: int, ghost passes: nat)
    returns (queue': seq<Entry>, discovered': set<string>, crawled': set<string>, results': seq<string>,
             progress': seq<CrawlProgress>, ghost depths': seq<int>, ghost enqueued': seq<string>,
             ghost level': map<string, int>, ghost front': int)
    requires Steps(c, step)
    requires PagesInv(c, step, queue, discovered, crawled, results, progress, depths, enqueued, level, front, passes)
    requires queue != [] && |results| < c.maxUrls && !c.Aborted(|results|)
    ensures PagesInv(c, step, queue', discovered', crawled', results', progress', depths', enqueued', level', front', passes + 1)
    ensures |results| <= |results'| <= |results| + 1
    ensures |results'| == |results| ==> |queue'| < |queue|
  {
    if queue[0].url in crawled || queue[0].depth > c.maxDepth {
      SkipNext(c, step, queue, discovered, crawled, results, progress, depths, enqueued, level, front);
      assert results == [] ==> queue[0].depth > c.maxDepth;
      return queue[1..], discovered, crawled, results, progress, depths, enqueued, level, front;
    }
    queue', discovered', crawled', results', progress', depths', enqueued', level', front' :=
      CrawlHead(c, step, queue, discovered, crawled, results, progress, depths, enqueued, level, front);
  }

  /** The head of the queue is skipped (lines 41-47): both invariants carry
      over and the pass is `Next`'s skip. */
  lemma {:induction false} SkipNext(c: Crawl, step: Pass -> Pass, queue: seq<Entry>, discovered: set<string>, crawled: set<string>,
                                    results: seq<string>, progress: seq<CrawlProgress>, depths: seq<int>,
                                    enqueued: seq<string>, level: map<string, int>, front: int)
    requires Steps(c, step)
    requires CrawlInv(c, queue, discovered, crawled, results, depths, enqueued, progress)
    requires ReachInv(c, c.Links, queue, discovered, crawled, results, depths, level, front)
    requires queue != [] && (queue[0].url in crawled || queue[0].depth > c.maxDepth)
    ensures CrawlInv(c, queue[1..], discovered, crawled, results, depths, enqueued, progress)
    ensures ReachInv(c, c.Links, queue[1..], discovered, crawled, results, depths, level, front)
    ensures Pass(queue[1..], discovered, results, progress) == step(Pass(queue, discovered, results, progress))
  {
    assert queue[0].url in crawled ==> queue[0].url in results;
    NextSkipOf(c, step, Pass(queue, discovered, results, progress));
    InvSkip(c, queue, discovered, crawled, results, depths, enqueued, progress);
    ReachSkip(c, c.Links, queue, discovered, crawled, results, depths, level, front);
  }

  /** The head of the queue is a page to crawl (lines 49-85): it joins the
      results, its progress report is made and its links are scanned. */
  method CrawlHead(c: Crawl, ghost step: Pass -> Pass, queue: seq<Entry>, discovered: set<string>, crawled: set<string>, results: seq<string>,
                   progress: seq<CrawlProgress>, ghost depths: seq<int>, ghost enqueued: seq<string>,
                   ghost level: map<string, int>, ghost front: int)
    returns (queue': seq<Entry>, discovered': set<string>, crawled': set<string>, results': seq<string>,
             progress': seq<CrawlProgress>, ghost depths': seq<int>, ghost enqueued': seq<string>,
             ghost level': map<string, int>, ghost front': int)
    requires Steps(c, step)
    requires CrawlInv(c, queue, discovered, crawled, results, depths, enqueued, progress)
    requires ReachInv(c, c.Links, queue, discovered, crawled, results, depths, level, front)
    requires queue != [] && queue[0].url !in crawled && queue[0].depth <= c.maxDepth
    requires |results| < c.maxUrls && !c.Aborted(|results|)
    ensures CrawlInv(c, queue', discovered', crawled', results', depths', enqueued', progress')
    ensures ReachInv(c, c.Links, queue', discovered', crawled', results', depths', level', front')
    ensures results' == results + [queue[0].url]
    ensures |enqueued| <= |enqueued'| && enqueued'[|enqueued|..] == Admitted(c, c.Links(queue[0].url), discovered)
    ensures queue' == queue[1..] + AtDepth(enqueued'[|enqueued|..], queue[0].depth + 1)
    ensures forall u :: u in discovered' <==> u in discovered || u in enqueued'[|enqueued|..]
    ensures progress' == progress + [CrawlingC(|discovered|, |results| + 1)]
    ensures Pass(queue', discovered', results', progress') == step(Pass(queue, discovered, results, progress))
  {
    ghost var added;
    discovered', queue', added := CrawlPage(c, queue, discovered);
    crawled', results' := crawled + {queue[0].url}, results + [queue[0].url];
    progress', depths', enqueued' := progress + [CrawlingC(|discovered|, |crawled| + 1)], depths + [queue[0].depth], enqueued + added;
    level', front' := Enlevel(level, added, queue[0].depth + 1), queue[0].depth;
    HeadStep(c, step, queue, discovered, crawled, results, depths, enqueued, progress, level, front, added,
             queue', discovered', crawled', results', depths', enqueued', progress', level', front');
  }

  /** The state `CrawlHead` leaves: both invariants carry over and the pass
      is `Next`'s crawl of the head. */
  lemma {:induction false} HeadStep(c: Crawl, step: Pass -> Pass, queue: seq<Entry>, discovered: set<string>, crawled: set<string>,
                                    results: seq<string>, depths: seq<int>, enqueued: seq<string>,
                                    progress: seq<CrawlProgress>, level: map<string, int>, front: int, added: seq<string>,
                                    queue': seq<Entry>, discovered': set<string>, crawled': set<string>,
                                    results': seq<string>, depths': seq<int>, enqueued': seq<string>,
                                    progress': seq<CrawlProgress>, level': map<string, int>, front': int)
    requires Steps(c, step)
    requires CrawlInv(c, queue, discovered, crawled, results, depths, enqueued, progress)
    requires ReachInv(c, c.Links, queue, discovered, crawled, results, depths, level, front)
    requires queue != [] && queue[0].url !in crawled && queue[0].depth <= c.maxDepth
    requires |results| < c.maxUrls && !c.Aborted(|results|)
    requires added == Admitted(c, c.Links(queue[0].url), discovered)
    requires queue' == queue[1..] + AtDepth(added, queue[0].depth + 1)
    requires forall u :: u in discovered' <==> u in discovered || u in added
    requires crawled' == crawled + {queue[0].url} && results' == results + [queue[0].url]
    requires depths' == depths + [queue[0].depth] && enqueued' == enqueued + added
    requires progress' == progress + [CrawlingC(|discovered|, |crawled| + 1)]
    requires level' == Enlevel(level, added, queue[0].depth + 1) && front' == queue[0].depth
    ensures CrawlInv(c, queue', discovered', crawled', results', depths', enqueued', progress')
    ensures ReachInv(c, c.Links, queue', discovered', crawled', results', depths', level', front')
    ensures |enqueued| <= |enqueued'| && enqueued'[|enqueued|..] == Admitted(c, c.Links(queue[0].url), discovered)
    ensures queue' == queue[1..] + AtDepth(enqueued'[|enqueued|..], queue[0].depth + 1)
    ensures forall u :: u in discovered' <==> u in discovered || u in enqueued'[|enqueued|..]
    ensures progress' == progress + [CrawlingC(|discovered|, |results| + 1)]
    ensures Pass(queue', discovered', results', progress') == step(Pass(queue, discovered, results, progress))
  {
    NextInv(c, queue, discovered, crawled, results, depths, enqueued, progress, level, front, added,
            queue', discovered', crawled', results', depths', enqueued', progress', level', front');
    assert enqueued'[|enqueued|..] == added;
    assert queue[0].url !in results && |crawled| == |results|;
    NextCrawl(c, step, queue, discovered, results, progress, added, queue', discovered', results', progress');
  }

  /** Both invariants of the crawl carry over one page crawled. */
  lemma {:induction false} NextInv(c: Crawl, queue: seq<Entry>, discovered: set<string>, crawled: set<string>,
                                   results: seq<string>, depths: seq<int>, enqueued: seq<string>,
                                   progress: seq<CrawlProgress>, level: map<string, int>, front: int, added: seq<string>,
                                   queue': seq<Entry>, discovered': set<string>, crawled': set<string>,
                                   results': seq<string>, depths': seq<int>, enqueued': seq<string>,
                                   progress': seq<CrawlProgress>, level': map<string, int>, front': int)
    requires CrawlInv(c, queue, discovered, crawled, results, depths, enqueued, progress)
    requires ReachInv(c, c.Links, queue, discovered, crawled, results, depths, level, front)
    requires queue != [] && queue[0].url !in crawled && queue[0].depth <= c.maxDepth
    requires |results| < c.maxUrls && !c.Aborted(|results|)
    requires added == Admitted(c, c.Links(queue[0].url), discovered)
    requires queue' == queue[1..] + AtDepth(added, queue[0].depth + 1)
    requires forall u :: u in discovered' <==> u in discovered || u in added
    requires crawled' == crawled + {queue[0].url} && results' == results + [queue[0].url]
    requires depths' == depths + [queue[0].depth] && enqueued' == enqueued + added
    requires progress' == progress + [CrawlingC(|discovered|, |crawled| + 1)]
    requires level' == Enlevel(level, added, queue[0].depth + 1) && front' == queue[0].depth
    ensures CrawlInv(c, queue', discovered', crawled', results', depths', enqueued', progress')
    ensures ReachInv(c, c.Links, queue', discovered', crawled', results', depths', level', front')
  {
    NextCrawled(c, queue, discovered, crawled, results, depths, enqueued, progress, added,
                queue', discovered', crawled', results', depths', enqueued', progress');
    ghost var links := c.Links;
    assert added == Admitted(c, links(queue[0].url), discovered);
    ReachPage(c, links, queue, discovered, crawled, results, depths, level, front, added,
              queue', discovered', crawled', results', depths', level', front');
  }

  /** The crawl invariant carries over one page crawled. */
  lemma {:induction false} NextCrawled(c: Crawl, queue: seq<Entry>, discovered: set<string>, crawled: set<string>,
                                       results: seq<string>, depths: seq<int>, enqueued: seq<string>,
                                       progress: seq<CrawlProgress>, added: seq<string>,
                                       queue': seq<Entry>, discovered': set<string>, crawled': set<string>,
                                       results': seq<string>, depths': seq<int>, enqueued': seq<string>,
                                       progress': seq<CrawlProgress>)
    requires CrawlInv(c, queue, discovered, crawled, results, depths, enqueued, progress)
    requires queue != [] && queue[0].url !in crawled && queue[0].depth <= c.maxDepth
    requires |results| < c.maxUrls && !c.Aborted(|results|)
    requires added == Admitted(c, c.Links(queue[0].url), discovered)
    requires queue' == queue[1..] + AtDepth(added, queue[0].depth + 1)
    requires forall u :: u in discovered' <==> u in discovered || u in added
    requires crawled' == crawled + {queue[0].url} && results' == results + [queue[0].url]
    requires depths' == depths + [queue[0].depth] && enqueued' == enqueued + added
    requires progress' == progress + [CrawlingC(|discovered|, |crawled| + 1)]
    ensures CrawlInv(c, queue', discovered', crawled', results', depths', enqueued', progress')
  {
    PageStep(c, queue, discovered, crawled, results, depths, enqueued, progress, discovered', queue', added);
  }

  /** `crawlWebsite` (lines 23-102). The `onProgress` reports are returned
      as a sequence; `depths` gives each result's hop count and `passes` the
      number of passes the loop made. */
  method CrawlWebsite(startUrl: string, maxDepthOpt: Option<int>, maxUrlsOpt: Option<int>, sameDomainOpt: Option<bool>,
                      originOf: string -> Option<string>, resolve: (string, string) -> Option<string>,
                      page: string -> Option<seq<string>>, abortAfter: Option<nat>)
    returns (r: Result<seq<string>, Thrown>, progress: seq<CrawlProgress>, ghost depths: seq<int>, ghost found: set<string>,
             ghost passes: nat)
    ensures r == Failure(InvalidUrl) <==> originOf(startUrl).None?
    ensures r == Failure(InvalidUrl) ==> progress == []
    ensures r == Failure(AbortError) ==> abortAfter.Some? && |progress| == abortAfter.value + 1
    ensures originOf(startUrl).Some? ==>
              var c := CrawlOf(startUrl, originOf(startUrl).value, maxDepthOpt, maxUrlsOpt, sameDomainOpt, originOf, resolve,
                               page, abortAfter);
              var p := Run(c, Passes(c), passes);
              && !GoesOn(c, p)
              && (r == Failure(AbortError) <==> Going(c, p) && c.Aborted(|p.results|))
              && (r == Failure(AbortError) ==> progress == p.progress)
              && (r.Success? ==>
                    && !Going(c, p) && r.value == p.results && found == p.discovered
                    && progress == p.progress + [DoneC(|p.discovered|, |p.results|, |p.results|)])
    ensures originOf(startUrl).Some? ==>
              var c := CrawlOf(startUrl, originOf(startUrl).value, maxDepthOpt, maxUrlsOpt, sameDomainOpt, originOf, resolve,
                               page, abortAfter);
              r.Success? ==>
                && Crawled(c, r.value, depths)
                && |progress| == |r.value| + 2 && progress[0] == StartC(c.origin)
                && (forall k :: 0 < k <= |r.value| ==> progress[k].CrawlingC? && progress[k].crawled == k)
                && progress[|progress| - 1].DoneC? && progress[|progress| - 1].crawled == |r.value|
                && progress[|progress| - 1].results == |r.value|
                && Closed(c, c.Links, r.value, depths, found) && progress[|progress| - 1].discovered == |found|
                && (c.maxUrls >= 1 && c.maxDepth >= 0 ==> r.value[0] == startUrl)
  {
    var origin := originOf(startUrl);
    if origin.None? {
      return Failure(InvalidUrl), [], [], {}, 0;
    }
    var c := CrawlOf(startUrl, origin.value, maxDepthOpt, maxUrlsOpt, sameDomainOpt, originOf, resolve, page, abortAfter);
    var aborted, queue, discovered, crawled, results;
    ghost var enqueued, level, front;
    aborted, queue, discovered, crawled, results, progress, depths, enqueued, level, front, passes := CrawlPages(c, Passes(c));
    if aborted {
      return Failure(AbortError), progress, depths, discovered, passes;
    }
    CrawledOfInv(c, queue, discovered, crawled, results, depths, enqueued, progress);
    ClosedOfInv(c, c.Links, queue, discovered, crawled, results, depths, enqueued, progress, level, front);
    progress := progress + [DoneC(|discovered|, |crawled|, |results|)];
    r, found := Success(results), discovered;
  }

  /** The loop of lines 37-91, from the state of lines 30-35: it makes the
      passes of `Run` until the loop condition fails, or throws (`aborted`)
      at the first loop top where the signal is set. */
  method CrawlPages(c: Crawl, ghost step: Pass -> Pass)
    returns (aborted: bool, queue: seq<Entry>, discovered: set<string>, crawled: set<string>, results: seq<string>,
             progress: seq<CrawlProgress>, ghost depths: seq<int>, ghost enqueued: seq<string>,
             ghost level: map<string, int>, ghost front: int, ghost passes: nat)
    requires Steps(c, step)
    ensures PagesInv(c, step, queue, discovered, crawled, results, progress, depths, enqueued, level, front, passes)
    ensures aborted ==> queue != [] && |results| < c.maxUrls && c.Aborted(|results|)
    ensures !aborted ==> queue == [] || |results| >= c.maxUrls
  {
    discovered := {c.start};
    crawled := {};
    queue := [Entry(c.start, 0)];
    results := [];
    progress := [StartC(c.origin)];
    depths := [];
    enqueued := [];
    level := map[c.start := 0];
    front := 0;
    passes := 0;
    aborted := false;
    PagesStart(c, step);
    while queue != [] && |results| < c.maxUrls
      invariant PagesInv(c, step, queue, discovered, crawled, results, progress, depths, enqueued, level, front, passes)
      decreases c.maxUrls - |results|, |queue|
    {
      if c.Aborted(|results|) {
        aborted := true;
        break;
      }
      queue, discovered, crawled, results, progress, depths, enqueued, level, front :=
        CrawlNext(c, step, queue, discovered, crawled, results, progress, depths, enqueued, level, front, passes);
      passes := passes + 1;
    }
  }
}
