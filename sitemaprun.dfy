// A whole run of `iterateSitemapUrls` (scr/lib/sitemap.js, lines 56-167):
// the seed queue, the walk and the final report; and `extractAllSitemapUrls`
// (lines 35-54), which collects the yielded URLs and summarises the reports.

module SitemapRun {
  import opened Basics
  import opened Text
  import opened Sitemap
  import opened SitemapWalk

  /* ---------------------------- final report ----------------------------- */

  // The two hints of lines 156 and 161, written in short pieces so that the
  // verifier can read single characters out of them.
  const NetworkHint: string := " CORS/" + "Network" + " error" + " - try" + " using" + " the w" + "eb cra" + "wler o"
                               + "r manu" + "al URL" + " input" + " inste" + "ad."
  const NoErrorHint: string := " The s" + "ite ma" + "y not " + "have a" + " publi" + "c site" + "map.xm" + "l file."

  /** The error texts that get the CORS/network hint (line 156). */
  predicate IsNetworkError(t: string) {
    Contains(t, "CORS") || Contains(t, "Failed to fetch") || Contains(t, "NetworkError")
  }

  /** The `error` report's message when no sitemap produced URLs (lines
      151-161): the origin, then a hint chosen by the last error's text. */
  function NotFoundMessage(origin: string, lastError: Option<string>): string {
    "No sitemap found at " + origin + "." +
      match lastError
      case None => NoErrorHint
      case Some(t) => if IsNetworkError(t) then NetworkHint else " Error: " + t
  }

  predicate EndsWith(s: string, suffix: string) {
    |suffix| <= |s| && s[|s| - |suffix|..] == suffix
  }

  /** The last report of a run that got to the end of its queue (lines
      150-166). */
  function FinalReport(origin: string, successful: bool, total: nat, lastError: Option<string>): Progress {
    if !successful || total == 0 then ErrorP(NotFoundMessage(origin, lastError)) else DoneP(total)
  }

  lemma {:induction false} HintFacts()
    ensures |NetworkHint| == 76 && |NoErrorHint| == 49
    ensures NetworkHint[1] == 'C' && NetworkHint[2] == 'O' && NetworkHint[3] == 'R' && NetworkHint[4] == 'S'
    ensures NetworkHint[74] == 'd' && NoErrorHint[47] == 'e'
    ensures 'E' !in NetworkHint
  {
  }

  /** The message ends with the CORS/network hint exactly when the last error
      caught mentions CORS, `Failed to fetch` or `NetworkError`. */
  lemma {:induction false} NetworkHintIff(origin: string, lastError: Option<string>)
    ensures EndsWith(NotFoundMessage(origin, lastError), NetworkHint)
            <==> lastError.Some? && IsNetworkError(lastError.value)
  {
    var msg := NotFoundMessage(origin, lastError);
    var head := "No sitemap found at " + origin + ".";
    HintFacts();
    if EndsWith(msg, NetworkHint) {
      match lastError
      case None =>
        assert false;
      case Some(t) =>
        if !IsNetworkError(t) {
          var tail := " Error: " + t;
          assert msg == head + tail;
          NotHinted(t, msg, head, tail);
        }
    }
  }

  /** A message ending in `" Error: " + t` ends with the hint only when `t`
      mentions CORS: the hint's `CORS` falls inside `t`, since the hint has no
      `E` and `" Error: "` has no `C`. */
  lemma {:induction false} NotHinted(t: string, msg: string, head: string, tail: string)
    requires tail == " Error: " + t && msg == head + tail
    requires EndsWith(msg, NetworkHint)
    requires |NetworkHint| == 76
    requires NetworkHint[1] == 'C' && NetworkHint[2] == 'O' && NetworkHint[3] == 'R' && NetworkHint[4] == 'S'
    requires 'E' !in NetworkHint
    ensures Contains(t, "CORS")
  {
    var k := |msg| - 76;
    var ts := |msg| - |t|;
    var es := |msg| - |tail|;
    assert msg[k..] == NetworkHint;
    assert es + 1 < k by {
      assert msg[es + 1] == tail[1] == 'E';
      assert 'E' !in msg[k..];
    }
    // so the hint starts after the `E` of " Error: ", whose remaining
    // characters hold no `C`: the hint's `C` lies inside `t`
    assert ts <= k + 1 by {
      assert msg[k + 1] == NetworkHint[1] == 'C';
      assert msg[es..ts] == " Error: ";
      assert 'C' !in msg[es..ts];
    }
    var j := k + 1 - ts;
    assert t[j..j + 4] == "CORS" by {
      assert t[j] == msg[k + 1] && t[j + 1] == msg[k + 2];
      assert t[j + 2] == msg[k + 3] && t[j + 3] == msg[k + 4];
    }
    assert OccursAt(t, "CORS", j);
    ContainsAt(t, "CORS");
  }

  /* ------------------------------- the run ------------------------------- */

  /** The sitemaps `discoverFromRobots` finds: none when robots.txt could not
      be read. */
  function RobotsFound(robots: Option<string>, base: string, resolve: (string, string) -> Option<string>): seq<string> {
    match robots
    case None => []
    case Some(body) => RobotsSitemaps(Split(body, '\n'), base, resolve)
  }

  /** What the walk of a seed with origin `origin` reads (lines 57-85): the
      defaults of lines 30-33, the base `origin + "/"`, the robots.txt
      sitemaps and the initial queue's URLs, the guesses first. */
  function RunConfig(origin: string, maxDepthOpt: Option<int>, maxUrlsOpt: Option<int>,
                     resolve: (string, string) -> Option<string>, robots: Option<string>,
                     fetch: string -> Fetched, abortAfter: Option<nat>): Config
  {
    var base := origin + "/";
    var found := RobotsFound(robots, base, resolve);
    Config(origin, base, maxDepthOpt.GetOr(DefaultMaxDepth), maxUrlsOpt.GetOr(DefaultMaxUrls), found,
           Dedup(GuessSitemapUrls(origin) + found), resolve, fetch, abortAfter)
  }

  /** The generator's state when its loop starts (lines 85-91). */
  function InitialWalk(c: Config): Walk {
    Walk(AtDepth(c.seeds, 0), {}, {}, [], c.Header(), [], false, None)
  }

  lemma {:induction false} InitialInv(c: Config)
    ensures WalkInv(c, InitialWalk(c))
  {
    InitialReports(c);
    InitialQueue(c);
    InitialTrace(c);
  }

  lemma {:induction false} InitialReports(c: Config)
    ensures ReportsOk(c, InitialWalk(c))
  {
    var h := c.Header();
    assert forall i :: 0 <= i < |h| ==> !h[i].UrlsP?;
    TotalsNone(h);
    assert UrlsMarks(0, 0) == [];
  }

  lemma {:induction false} InitialQueue(c: Config)
    ensures QueueOk(c, InitialWalk(c))
  {
    var w := InitialWalk(c);
    forall k | 0 <= k < |c.seeds|
      ensures c.seeds[k] in w.visited + UrlSet(w.queue)
    {
      assert w.queue[k] == Entry(c.seeds[k], 0);
    }
  }

  lemma {:induction false} InitialTrace(c: Config)
    ensures TraceOk(c, InitialWalk(c)) && YieldOk(c, InitialWalk(c))
  {
    assert QueueUrls([]) == [] && EventUrls([]) == [];
  }

  lemma {:induction false} TotalsNone(p: seq<Progress>)
    requires forall i :: 0 <= i < |p| ==> !p[i].UrlsP?
    ensures Totals(p) == []
    decreases |p|
  {
    if p != [] {
      TotalsNone(p[..|p| - 1]);
    }
  }

  /** What a run that gets past `normalizeBase` yields: each URL once, at
      most `max(1, maxUrls)` of them, each from a fetched leaf sitemap; the
      sitemaps it fetches, each once, are seeds or children of indexes
      expanded before them, and no fetch begins once the signal is set. */
  ghost predicate Yields(c: Config, urls: seq<UrlEvent>, fetched: seq<Entry>) {
    && NoDups(EventUrls(urls)) && |urls| <= Max(1, c.maxUrls)
    && (forall k :: 0 <= k < |urls| ==> FromLeaf(c, fetched, urls[k]))
    && NoDups(QueueUrls(fetched))
    && (forall i :: 0 <= i < |fetched| ==> Sourced(c, fetched, fetched[i], i))
    && (c.abortAfter.Some? ==> |fetched| <= c.abortAfter.value)
  }

  /** The reports of a run, by how it ends: the header, `skip` and `urls`
      reports (one per multiple of 500), then the `error` or `done` report, or
      the `stop` report once `max(1, maxUrls)` URLs are out, or nothing when
      `AbortError` is thrown at the top of the loop. */
  ghost predicate Reports(c: Config, outcome: Outcome, urls: seq<UrlEvent>, progress: seq<Progress>, fetched: seq<Entry>) {
    match outcome
    case Finished =>
      && progress != [] && ReportsBody(c, progress[..|progress| - 1], |urls|)
      && progress[|progress| - 1] == FinalReport(c.origin, AnyParsed(c, fetched), |urls|, LastError(c, fetched))
    case Stopped =>
      && |urls| == Max(1, c.maxUrls)
      && progress != [] && ReportsBody(c, progress[..|progress| - 1], |urls|)
      && progress[|progress| - 1] == StopP(c.maxUrls, |urls|)
      && SkipsReported(c, fetched, progress)
      && |fetched| > 0 && LeavesRead(c, urls, fetched, |fetched| - 1)
    case Aborted =>
      && ReportsBody(c, progress, |urls|) && IsAborted(c.abortAfter, |fetched|)
      && SkipsReported(c, fetched, progress)
      && LeavesRead(c, urls, fetched, |fetched|)
    case BadBase => false
  }

  /** Every URL of each of the first `upto` sitemaps fetched, when its fetch
      began before the signal was set, was yielded. */
  ghost predicate LeavesRead(c: Config, urls: seq<UrlEvent>, fetched: seq<Entry>, upto: nat) {
    forall j, ev :: 0 <= j < upto && j < |fetched| && !IsAborted(c.abortAfter, j + 1) && ev in c.Events(fetched[j]) ==>
      ev.url in EventUrls(urls)
  }

  /** A run that empties its queue has fetched every seed and every child of
      an expanded index, yielded every URL of each leaf read before the
      signal was set, and reported every index too deep to expand. */
  ghost predicate Complete(c: Config, urls: seq<UrlEvent>, progress: seq<Progress>, fetched: seq<Entry>) {
    && (forall k :: 0 <= k < |c.seeds| ==> c.seeds[k] in QueueUrls(fetched))
    && (forall j, x :: 0 <= j < |fetched| && c.Expands(fetched[j]) && x in c.Children(fetched[j]) ==> x in QueueUrls(fetched))
    && LeavesRead(c, urls, fetched, |fetched|)
    && SkipsReported(c, fetched, progress)
  }

  /** The leaves the walk has read to the end, stated over its events. */
  lemma {:induction false} LeavesOfWalk(c: Config, w: Walk, upto: nat)
    requires YieldOk(c, w) && LeavesOk(c, w, upto)
    ensures LeavesRead(c, w.urls, w.fetched, upto)
  {
    forall j, ev | 0 <= j < upto && j < |w.fetched| && !IsAborted(c.abortAfter, j + 1) && ev in c.Events(w.fetched[j])
      ensures ev.url in EventUrls(w.urls)
    {
      assert LeafDone(c, w.fetched[j], j + 1, w.yielded);
    }
  }

  lemma {:induction false} FinishedComplete(c: Config, w: Walk)
    requires WalkInv(c, w) && w.queue == []
    ensures Complete(c, w.urls, w.progress, w.fetched)
  {
    assert w.visited + UrlSet(w.queue) == w.visited;
    LeavesOfWalk(c, w, |w.fetched|);
  }

  lemma {:induction false} FinishedEnd(c: Config, w: Walk, progress: seq<Progress>)
    requires WalkInv(c, w) && w.queue == []
    requires progress == w.progress + [FinalReport(c.origin, w.successful, |w.urls|, w.lastError)]
    ensures Yields(c, w.urls, w.fetched) && Reports(c, Finished, w.urls, progress, w.fetched)
    ensures Complete(c, w.urls, progress, w.fetched)
  {
    assert progress[..|progress| - 1] == w.progress;
    FinishedComplete(c, w);
  }

  lemma {:induction false} OtherEnd(c: Config, outcome: Outcome, w: Walk)
    requires outcome == Stopped || outcome == Aborted
    requires outcome == Aborted ==> WalkInv(c, w) && IsAborted(c.abortAfter, |w.fetched|)
    requires outcome == Stopped ==> Halted(c, w)
    ensures Yields(c, w.urls, w.fetched) && Reports(c, outcome, w.urls, w.progress, w.fetched)
  {
    if outcome == Stopped {
      LeavesOfWalk(c, w, |w.fetched| - 1);
    } else {
      LeavesOfWalk(c, w, |w.fetched|);
    }
  }

  /** How a run ends, from the walk at which the loop leaves off. */
  function EndOf(c: Config, w: Walk): Outcome {
    if |w.urls| >= Max(1, c.maxUrls) then Stopped
    else if w.queue == [] then Finished
    else Aborted
  }

  /** The reports of a run: the walk's, then the `done` or `error` report
      when the queue ran out. */
  function EndReports(c: Config, w: Walk): seq<Progress> {
    if EndOf(c, w) == Finished then w.progress + [FinalReport(c.origin, w.successful, |w.urls|, w.lastError)]
    else w.progress
  }

  /** The walk a run leaves off at: the passes of `Advance` from the seeded
      queue, until the queue runs out, the cap is reached or the signal is
      set; it does not depend on the number of passes taken past that. */
  ghost predicate Walks(c: Config, passes: nat, w: Walk) {
    && w == Walked(c, Visits(c), InitialWalk(c), passes)
    && !GoesOn(c, w)
  }

  /** The end of `RunWalk` from the seeded queue, with the reports the run
      adds after the loop: the walk is the one `Walked` leaves off at. */
  lemma {:induction false} RunEnd(c: Config, outcome: Outcome, w: Walk, passes: nat, progress: seq<Progress>)
    requires w == Walked(c, Visits(c), InitialWalk(c), passes) && outcome != BadBase
    requires outcome == Stopped <==> |w.urls| >= Max(1, c.maxUrls)
    requires outcome == Aborted <==> |w.urls| < Max(1, c.maxUrls) && w.queue != [] && IsAborted(c.abortAfter, |w.fetched|)
    requires outcome == Finished <==> |w.urls| < Max(1, c.maxUrls) && w.queue == []
    requires outcome != Stopped ==> WalkInv(c, w)
    requires outcome == Stopped ==> Halted(c, w)
    requires progress == if outcome == Finished then w.progress + [FinalReport(c.origin, w.successful, |w.urls|, w.lastError)]
                         else w.progress
    ensures Walks(c, passes, w) && outcome == EndOf(c, w) && progress == EndReports(c, w)
    ensures Yields(c, w.urls, w.fetched) && Reports(c, outcome, w.urls, progress, w.fetched)
    ensures outcome == Finished ==> Complete(c, w.urls, progress, w.fetched)
  {
    if outcome == Finished {
      FinishedEnd(c, w, progress);
    } else {
      OtherEnd(c, outcome, w);
    }
  }

  /** `iterateSitemapUrls` (lines 56-167) on the seed `baseInput`; the yielded
      events and the `onProgress` reports are returned as two sequences, and
      `fetched` lists the sitemaps whose fetch began, in order. They are
      those of the walk `Walked` makes from the seeded queue. */
  method IterateSitemapUrls(baseInput: string, maxDepthOpt: Option<int>, maxUrlsOpt: Option<int>,
                            originOf: string -> Option<string>, resolve: (string, string) -> Option<string>,
                            robots: Option<string>, fetch: string -> Fetched, abortAfter: Option<nat>)
    returns (outcome: Outcome, urls: seq<UrlEvent>, progress: seq<Progress>, ghost fetched: seq<Entry>, ghost passes: nat)
    ensures outcome == BadBase <==> NormalizeBase(baseInput, originOf).None?
    ensures outcome == BadBase ==> urls == [] && progress == [] && fetched == []
    ensures outcome != BadBase ==>
              var c := RunConfig(NormalizeBase(baseInput, originOf).value, maxDepthOpt, maxUrlsOpt, resolve, robots, fetch, abortAfter);
              var w := Walked(c, Visits(c), InitialWalk(c), passes);
              && Walks(c, passes, w)
              && outcome == EndOf(c, w) && urls == w.urls && fetched == w.fetched && progress == EndReports(c, w)
    ensures outcome != BadBase ==>
              var c := RunConfig(NormalizeBase(baseInput, originOf).value, maxDepthOpt, maxUrlsOpt, resolve, robots, fetch, abortAfter);
              Yields(c, urls, fetched) && Reports(c, outcome, urls, progress, fetched)
    ensures outcome == Finished ==>
              var c := RunConfig(NormalizeBase(baseInput, originOf).value, maxDepthOpt, maxUrlsOpt, resolve, robots, fetch, abortAfter);
              Complete(c, urls, progress, fetched)
  {
    var origin := NormalizeBase(baseInput, originOf);
    if origin.None? {
      return BadBase, [], [], [], 0;
    }
    var base := origin.value + "/";
    var attempts := GuessSitemapUrls(origin.value);
    var found := DiscoverFromRobots(robots, base, resolve);
    var queue, discovered := SeedQueue(attempts, found);
    var c := Config(origin.value, base, maxDepthOpt.GetOr(DefaultMaxDepth), maxUrlsOpt.GetOr(DefaultMaxUrls), found,
                    Dedup(attempts + found), resolve, fetch, abortAfter);
    assert c == RunConfig(origin.value, maxDepthOpt, maxUrlsOpt, resolve, robots, fetch, abortAfter);
    var header := [AttemptP(origin.value)] + (if |found| > 0 then [RobotsP(|found|)] else []) + [SitemapFoundP(|queue|)];
    var w0 := Walk(queue, {}, {}, [], header, [], false, None);
    assert w0 == InitialWalk(c);
    InitialInv(c);
    var w;
    outcome, w, passes := RunWalk(c, w0);
    urls, fetched := w.urls, w.fetched;
    if outcome == Finished {
      progress := w.progress + [FinalReport(origin.value, w.successful, |w.urls|, w.lastError)];
    } else {
      progress := w.progress;
    }
    RunEnd(c, outcome, w, passes, progress);
  }

  /** A run that empties its queue ends with `done` exactly when it yielded a
      URL, and otherwise with the `error` report: a yielded URL comes from a
      parsed leaf, so `successfulFetch` adds nothing to the test of line 150. */
  lemma {:induction false} DoneIffYielded(c: Config, urls: seq<UrlEvent>, progress: seq<Progress>, fetched: seq<Entry>)
    requires Yields(c, urls, fetched) && Reports(c, Finished, urls, progress, fetched)
    ensures progress[|progress| - 1].DoneP? <==> |urls| > 0
    ensures progress[|progress| - 1] == if |urls| > 0 then DoneP(|urls|) else ErrorP(NotFoundMessage(c.origin, LastError(c, fetched)))
  {
    if |urls| > 0 {
      assert FromLeaf(c, fetched, urls[0]);
      var j :| 0 <= j < |fetched| && urls[0] in c.Events(fetched[j]);
      assert c.fetch(fetched[j].url).Parsed?;
    }
  }

  /* ---------------------------- diagnostics ------------------------------ */

  /** The `meta` object of `extractAllSitemapUrls` (line 37). */
  datatype Diagnostics = Diagnostics(attempts: seq<string>, robotsTried: bool, sitemapCount: nat, urlCount: nat,
                                     errors: seq<string>)

  /** What `extractAllSitemapUrls` resolves to. */
  datatype Extracted = Extracted(urls: seq<string>, meta: Diagnostics)

  /** The wrapped `onProgress` of lines 41-48 applied to one report. */
  function Observe(d: Diagnostics, p: Progress): Diagnostics {
    match p
    case AttemptP(_) => d.(attempts := d.attempts + [p.Message().GetOr("")])
    case RobotsP(_) => d.(robotsTried := true)
    case SitemapFoundP(_) => d.(sitemapCount := p.Discovered().GetOr(d.sitemapCount))
    case ErrorP(_) => if p.Message().Some? && p.Message().value != "" then d.(errors := d.errors + [p.Message().value]) else d
    case UrlsP(_) => d.(urlCount := p.UrlCount().GetOr(d.urlCount))
    case _ => d
  }

  /** The diagnostics after the reports `p`, from the empty ones of line 37. */
  function Summary(p: seq<Progress>): Diagnostics
    decreases |p|
  {
    if p == [] then Diagnostics([], false, 0, 0, [])
    else Observe(Summary(p[..|p| - 1]), p[|p| - 1])
  }

  function LastOr(s: seq<nat>, d: nat): nat {
    if s == [] then d else s[|s| - 1]
  }

  /** `urlCount` is the total of the last `urls` report: `stop` and `done`
      carry a count too, but another stage. */
  lemma {:induction false} SummaryUrlCount(p: seq<Progress>)
    ensures Summary(p).urlCount == LastOr(Totals(p), 0)
    decreases |p|
  {
    if p != [] {
      SummaryUrlCount(p[..|p| - 1]);
    }
  }

  /** The last multiple of 500 reached: the `urls` reports of a total of `n`
      end at `n / 500 * 500`. */
  lemma {:induction false} MarksLast(n: nat)
    ensures LastOr(Totals(UrlsMarks(0, n)), 0) == n / 500 * 500
    decreases n
  {
    if n > 0 {
      MarksLast(n - 1);
      TotalsAppend(UrlsMarks(0, n - 1), Mark(n));
      if n % 500 == 0 {
        assert Mark(n) == [UrlsP(n)] && Totals([UrlsP(n)]) == [n] by {
          assert [UrlsP(n)][..0] == [];
        }
      }
      var q, r := n / 500, n % 500;
      assert n == 500 * q + r;
      if r != 0 {
        assert n - 1 == 500 * q + (r - 1);
        assert (n - 1) / 500 == q;
      }
    }
  }

  /** `skip` and `urls` reports leave all but `urlCount` alone. */
  lemma {:induction false} SummaryBody(p: seq<Progress>, q: seq<Progress>)
    requires forall i :: 0 <= i < |q| ==> q[i].SkipP? || q[i].UrlsP?
    ensures Summary(p + q).(urlCount := 0) == Summary(p).(urlCount := 0)
    decreases |q|
  {
    if q == [] {
      assert p + q == p;
    } else {
      var init := q[..|q| - 1];
      assert (p + q)[..|p + q| - 1] == p + init;
      SummaryBody(p, init);
    }
  }

  lemma {:induction false} SummarySnoc(p: seq<Progress>, x: Progress)
    ensures Summary(p + [x]) == Observe(Summary(p), x)
  {
    assert (p + [x])[..|p|] == p;
  }

  lemma {:induction false} SummaryHeader(c: Config)
    ensures Summary(c.Header()) == Diagnostics(["Trying common sitemap paths for " + c.origin], |c.found| > 0, |c.seeds|, 0, [])
  {
    var a, f := AttemptP(c.origin), SitemapFoundP(|c.seeds|);
    SummarySnoc([], a);
    assert [] + [a] == [a];
    if |c.found| > 0 {
      var b := RobotsP(|c.found|);
      SummarySnoc([a], b);
      SummarySnoc([a, b], f);
      assert c.Header() == [a, b] + [f];
    } else {
      SummarySnoc([a], f);
      assert c.Header() == [a] + [f];
    }
  }

  /** The diagnostics after the header and the `skip` and `urls` reports of
      `n` URLs. */
  lemma {:induction false} BodySummary(c: Config, body: seq<Progress>, n: nat)
    requires ReportsBody(c, body, n)
    ensures Summary(body) == Diagnostics(["Trying common sitemap paths for " + c.origin], |c.found| > 0, |c.seeds|,
                                         n / 500 * 500, [])
  {
    var h := c.Header();
    var rest := body[|h|..];
    assert body == h + rest;
    forall i | 0 <= i < |rest|
      ensures rest[i].SkipP? || rest[i].UrlsP?
    {
      assert rest[i] == body[|h| + i];
    }
    SummaryBody(h, rest);
    SummaryHeader(c);
    SummaryUrlCount(body);
    MarksLast(n);
  }

  /** The diagnostics of a run: one attempt naming the origin, whether
      robots.txt listed sitemaps, the size of the initial queue, the last
      multiple of 500 reached (not the number of URLs) and the `error`
      report's message when a run that emptied its queue yielded nothing. */
  lemma {:induction false} RunDiagnostics(c: Config, outcome: Outcome, urls: seq<UrlEvent>, progress: seq<Progress>,
                                          fetched: seq<Entry>)
    requires outcome != BadBase
    requires Yields(c, urls, fetched) && Reports(c, outcome, urls, progress, fetched)
    ensures Summary(progress) == Diagnostics(["Trying common sitemap paths for " + c.origin], |c.found| > 0, |c.seeds|,
                                             |urls| / 500 * 500,
                                             if outcome == Finished && |urls| == 0
                                             then [NotFoundMessage(c.origin, LastError(c, fetched))] else [])
  {
    if outcome == Aborted {
      BodySummary(c, progress, |urls|);
    } else {
      var body := progress[..|progress| - 1];
      var last := progress[|progress| - 1];
      BodySummary(c, body, |urls|);
      assert progress == body + [last];
      SummarySnoc(body, last);
      if outcome == Finished {
        DoneIffYielded(c, urls, progress, fetched);
        assert |NotFoundMessage(c.origin, LastError(c, fetched))| > 0;
      }
      ObserveFinal(Summary(body), last);
    }
  }

  /** The last report of a run adds its message to `errors` when it is an
      error, and changes nothing else. */
  lemma {:induction false} ObserveFinal(d: Diagnostics, last: Progress)
    requires last.DoneP? || last.StopP? || (last.ErrorP? && last.text != "")
    ensures Observe(d, last) == if last.ErrorP? then d.(errors := d.errors + [last.text]) else d
  {
  }

  /** The `onProgress` wrapper of lines 41-48 run over the reports in order. */
  method Diagnose(progress: seq<Progress>) returns (meta: Diagnostics)
    ensures meta == Summary(progress)
  {
    meta := Diagnostics([], false, 0, 0, []);
    var i := 0;
    while i < |progress|
      invariant 0 <= i <= |progress|
      invariant meta == Summary(progress[..i])
    {
      var p := progress[i];
      assert progress[..i + 1] == progress[..i] + [p];
      SummarySnoc(progress[..i], p);
      if p.AttemptP? {
        meta := meta.(attempts := meta.attempts + [p.Message().GetOr("")]);
      }
      if p.RobotsP? {
        meta := meta.(robotsTried := true);
      }
      if p.SitemapFoundP? {
        meta := meta.(sitemapCount := p.Discovered().GetOr(meta.sitemapCount));
      }
      if p.ErrorP? && p.Message().Some? && p.Message().value != "" {
        meta := meta.(errors := meta.errors + [p.Message().value]);
      }
      if p.UrlsP? {
        meta := meta.(urlCount := p.UrlCount().GetOr(meta.urlCount));
      }
      i := i + 1;
    }
    assert progress[..|progress|] == progress;
  }

  /** The `for await` loop of lines 39-51: the URL of each `url` event. */
  method CollectUrls(events: seq<UrlEvent>) returns (urls: seq<string>)
    ensures |urls| == |events|
    ensures forall k :: 0 <= k < |events| ==> urls[k] == events[k].url
  {
    urls := [];
    var k := 0;
    while k < |events|
      invariant 0 <= k <= |events|
      invariant urls == EventUrls(events[..k])
    {
      assert events[..k + 1] == events[..k] + [events[k]];
      EventUrlsAppend(events[..k], [events[k]]);
      urls := urls + [events[k].url];
      k := k + 1;
    }
    assert events[..|events|] == events;
  }

  /** What `extractAllSitemapUrls` resolves to after a run that returned. */
  ghost predicate ExtractedOk(c: Config, x: Extracted) {
    && NoDups(x.urls) && |x.urls| <= Max(1, c.maxUrls)
    && x.meta.attempts == ["Trying common sitemap paths for " + c.origin]
    && x.meta.robotsTried == (|c.found| > 0)
    && x.meta.sitemapCount == |c.seeds|
    && x.meta.urlCount == |x.urls| / 500 * 500
    && |x.meta.errors| <= 1
    && (x.meta.errors != [] ==> x.urls == [])
  }

  lemma {:induction false} ExtractedOfRun(c: Config, outcome: Outcome, events: seq<UrlEvent>, progress: seq<Progress>,
                                          fetched: seq<Entry>, x: Extracted)
    requires outcome == Finished || outcome == Stopped
    requires Yields(c, events, fetched) && Reports(c, outcome, events, progress, fetched)
    requires x.urls == EventUrls(events) && x.meta == Summary(progress)
    ensures ExtractedOk(c, x)
  {
    RunDiagnostics(c, outcome, events, progress, fetched);
  }

  /** The part of `extractAllSitemapUrls` after the walk (lines 39-53): the
      diagnostics of the reports and the URLs of the events, or the abort
      rethrown. */
  method Gather(ghost c: Config, outcome: Outcome, events: seq<UrlEvent>, progress: seq<Progress>,
                ghost fetched: seq<Entry>)
    returns (r: Result<Extracted, Thrown>)
    requires outcome != BadBase
    requires Yields(c, events, fetched) && Reports(c, outcome, events, progress, fetched)
    ensures outcome == Aborted <==> r == Failure(AbortError)
    ensures outcome != Aborted ==>
              && r == Success(Extracted(EventUrls(events), Summary(progress)))
              && ExtractedOk(c, r.value)
  {
    var meta := Diagnose(progress);
    if outcome == Aborted {
      return Failure(AbortError);
    }
    var urls := CollectUrls(events);
    assert urls == EventUrls(events);
    ExtractedOfRun(c, outcome, events, progress, fetched, Extracted(urls, meta));
    r := Success(Extracted(urls, meta));
  }

  /** `extractAllSitemapUrls` (lines 35-54): the URLs of the yielded events
      in order, and the diagnostics gathered from the reports; it rejects
      when the seed is not a URL or the walk is aborted. The walk behind the
      result is returned as ghost values: its outcome, its events, its
      reports and the sitemaps it fetched. */
  method ExtractAllSitemapUrls(baseInput: string, maxDepthOpt: Option<int>, maxUrlsOpt: Option<int>,
                               originOf: string -> Option<string>, resolve: (string, string) -> Option<string>,
                               robots: Option<string>, fetch: string -> Fetched, abortAfter: Option<nat>)
    returns (r: Result<Extracted, Thrown>, ghost outcome: Outcome, ghost events: seq<UrlEvent>,
             ghost progress: seq<Progress>, ghost fetched: seq<Entry>, ghost passes: nat)
    ensures NormalizeBase(baseInput, originOf).None? <==> r == Failure(InvalidUrl)
    ensures NormalizeBase(baseInput, originOf).Some? ==>
              var c := RunConfig(NormalizeBase(baseInput, originOf).value, maxDepthOpt, maxUrlsOpt, resolve,
                                 robots, fetch, abortAfter);
              var w := Walked(c, Visits(c), InitialWalk(c), passes);
              && outcome != BadBase
              && Walks(c, passes, w)
              && outcome == EndOf(c, w) && events == w.urls && fetched == w.fetched && progress == EndReports(c, w)
              && Yields(c, events, fetched) && Reports(c, outcome, events, progress, fetched)
              && (outcome == Finished ==> Complete(c, events, progress, fetched))
              && (r == Failure(AbortError) <==> outcome == Aborted)
              && (outcome != Aborted ==> r == Success(Extracted(EventUrls(events), Summary(progress))))
              && (r.Success? ==> ExtractedOk(c, r.value))
  {
    var o, es, ps;
    o, es, ps, fetched, passes := IterateSitemapUrls(baseInput, maxDepthOpt, maxUrlsOpt, originOf, resolve,
                                             robots, fetch, abortAfter);
    outcome, events, progress := o, es, ps;
    if o == BadBase {
      return Failure(InvalidUrl), outcome, events, progress, fetched, passes;
    }
    ghost var c := RunConfig(NormalizeBase(baseInput, originOf).value, maxDepthOpt, maxUrlsOpt, resolve, robots, fetch, abortAfter);
    r := Gather(c, o, es, ps, fetched);
  }
}
