// The main loop of `iterateSitemapUrls` (scr/lib/sitemap.js, lines 56-167)
// and `extractAllSitemapUrls` (lines 35-54). The generator's local state is
// gathered in `Walk`, the values it reads but never changes in `Config`.

module SitemapWalk {
  import opened Basics
  import opened Text
  import opened Sitemap

  /** Whether `signal.aborted` is seen set once `begun` sitemap fetches have
      started: the signal fires after the `abortAfter`-th one. */
  function IsAborted(abortAfter: Option<nat>, begun: nat): bool {
    abortAfter.Some? && begun >= abortAfter.value
  }

  /** What the walk reads and never changes: the origin and base URL, the
      limits, the robots.txt sitemaps (`found`), the initial queue's URLs
      (`seeds`) and the oracles. */
  datatype Config = Config(origin: string, base: string, maxDepth: int, maxUrls: int,
                           found: seq<string>, seeds: seq<string>,
                           resolve: (string, string) -> Option<string>, fetch: string -> Fetched,
                           abortAfter: Option<nat>)
  {
    /** The reports made before the loop (lines 63, 82 and 85). */
    function Header(): seq<Progress> {
      [AttemptP(origin)] + (if |found| > 0 then [RobotsP(|found|)] else []) + [SitemapFoundP(|seeds|)]
    }

    /** The child sitemaps listed by `e` when it parses as an index. */
    function Children(e: Entry): seq<string> {
      match fetch(e.url)
      case Parsed(Index(locs)) => ChildUrls(locs, base, resolve)
      case _ => []
    }

    /** The URL events of `e` when it parses as a leaf sitemap. */
    function Events(e: Entry): seq<UrlEvent> {
      match fetch(e.url)
      case Parsed(Leaf(nodes)) => LeafEvents(nodes, base, resolve)
      case _ => []
    }

    /** `e` is an index whose children are queued. */
    predicate Expands(e: Entry) {
      fetch(e.url).Parsed? && fetch(e.url).doc.Index? && e.depth < maxDepth
    }

    /** `e` is an index met at `maxDepth` or deeper: it is reported, not
        expanded. */
    predicate Skips(e: Entry) {
      fetch(e.url).Parsed? && fetch(e.url).doc.Index? && e.depth >= maxDepth
    }
  }

  /** The generator's locals: the queue, `visitedSitemaps`, `yielded`, the
      events yielded so far (whose count is `totalUrls`), the reports made,
      the sitemaps fetched in order, `successfulFetch` and the message of
      `lastError`. */
  datatype Walk = Walk(queue: seq<Entry>, visited: set<string>, yielded: set<string>, urls: seq<UrlEvent>,
                       progress: seq<Progress>, fetched: seq<Entry>, successful: bool, lastError: Option<string>)

  /* ------------------------------ termination ---------------------------- */

  /** Depths never fall along the queue and never rise by more than one. */
  ghost predicate Layered(q: seq<Entry>) {
    forall i, j :: 0 <= i < j < |q| ==> q[i].depth <= q[j].depth <= q[i].depth + 1
  }

  function CountAt(q: seq<Entry>, d: int): nat
    decreases |q|
  {
    if q == [] then 0 else (if q[0].depth == d then 1 else 0) + CountAt(q[1..], d)
  }

  lemma {:induction false} CountAtAppend(a: seq<Entry>, b: seq<Entry>, d: int)
    ensures CountAt(a + b, d) == CountAt(a, d) + CountAt(b, d)
    decreases |a|
  {
    if a == [] {
      assert a + b == b;
    } else {
      assert (a + b)[1..] == a[1..] + b;
      CountAtAppend(a[1..], b, d);
    }
  }

  lemma {:induction false} CountAtNone(urls: seq<string>, depth: int, d: int)
    requires depth != d
    ensures CountAt(AtDepth(urls, depth), d) == 0
    decreases |urls|
  {
    if urls != [] {
      assert AtDepth(urls, depth)[1..] == AtDepth(urls[1..], depth);
      CountAtNone(urls[1..], depth, d);
    }
  }

  function Level(q: seq<Entry>, top: int): nat {
    if q == [] || q[0].depth > top then 0 else top + 1 - q[0].depth
  }

  function Front(q: seq<Entry>): nat {
    if q == [] then 0 else CountAt(q, q[0].depth)
  }

  ghost predicate InRange(q: seq<Entry>, top: int) {
    forall i :: 0 <= i < |q| ==> 0 <= q[i].depth <= top
  }

  /** Taking the head of a layered queue and appending its children one level
      deeper keeps it layered and lowers (level of the head, entries at the
      head's level) lexicographically: the walk ends. */
  lemma {:induction false} PopPush(q: seq<Entry>, kids: seq<string>, top: int, q': seq<Entry>)
    requires q != [] && Layered(q) && InRange(q, top)
    requires kids != [] ==> q[0].depth + 1 <= top
    requires q' == q[1..] + AtDepth(kids, q[0].depth + 1)
    ensures Layered(q') && InRange(q', top)
    ensures Level(q', top) < Level(q, top) || (Level(q', top) == Level(q, top) && Front(q') < Front(q))
  {
    PopLayered(q, kids, q');
    PopInRange(q, kids, top, q');
    PopLower(q, kids, top, q');
  }

  lemma {:induction false} PopLayered(q: seq<Entry>, kids: seq<string>, q': seq<Entry>)
    requires q != [] && Layered(q)
    requires q' == q[1..] + AtDepth(kids, q[0].depth + 1)
    ensures Layered(q')
  {
    var h := q[0].depth;
    var n := |q| - 1;
    forall i, j | 0 <= i < j < |q'|
      ensures q'[i].depth <= q'[j].depth <= q'[i].depth + 1
    {
      if j < n {
        assert q'[i] == q[i + 1] && q'[j] == q[j + 1];
      } else if i < n {
        assert q'[i] == q[i + 1];
        assert h <= q[i + 1].depth <= h + 1;
        assert q'[j].depth == h + 1;
      } else {
        assert q'[i].depth == h + 1 && q'[j].depth == h + 1;
      }
    }
  }

  lemma {:induction false} PopInRange(q: seq<Entry>, kids: seq<string>, top: int, q': seq<Entry>)
    requires q != [] && InRange(q, top)
    requires kids != [] ==> q[0].depth + 1 <= top
    requires q' == q[1..] + AtDepth(kids, q[0].depth + 1)
    ensures InRange(q', top)
  {
    var n := |q| - 1;
    forall i | 0 <= i < |q'|
      ensures 0 <= q'[i].depth <= top
    {
      if i < n {
        assert q'[i] == q[i + 1];
      } else {
        assert q'[i].depth == q[0].depth + 1;
      }
    }
  }

  lemma {:induction false} PopLower(q: seq<Entry>, kids: seq<string>, top: int, q': seq<Entry>)
    requires q != [] && Layered(q) && InRange(q, top)
    requires q' == q[1..] + AtDepth(kids, q[0].depth + 1)
    ensures Level(q', top) < Level(q, top) || (Level(q', top) == Level(q, top) && Front(q') < Front(q))
  {
    var h := q[0].depth;
    var rest := q[1..];
    var added := AtDepth(kids, h + 1);
    assert q == [q[0]] + rest;
    CountAtAppend([q[0]], rest, h);
    if rest != [] && rest[0].depth == h {
      assert q'[0] == rest[0];
      CountAtAppend(rest, added, h);
      CountAtNone(kids, h + 1, h);
    }
  }

  /* ------------------------------ provenance ----------------------------- */

  /** `e` was queued as a child of one of the first `n` fetched sitemaps, an
      index expanded one level above it. */
  ghost predicate ChildOf(c: Config, fetched: seq<Entry>, e: Entry, n: nat) {
    exists j :: 0 <= j < n && j < |fetched| && c.Expands(fetched[j])
                && e.depth == fetched[j].depth + 1 && e.url in c.Children(fetched[j])
  }

  /** `e` is a seed at depth 0 or the child of an expanded index. */
  ghost predicate Sourced(c: Config, fetched: seq<Entry>, e: Entry, n: nat) {
    (e.depth == 0 && e.url in c.seeds) || ChildOf(c, fetched, e, n)
  }

  lemma {:induction false} SourcedGrow(c: Config, fetched: seq<Entry>, x: Entry, e: Entry, n: nat)
    requires n <= |fetched| && Sourced(c, fetched, e, n)
    ensures Sourced(c, fetched + [x], e, n)
  {
    if ChildOf(c, fetched, e, n) {
      var j :| 0 <= j < n && j < |fetched| && c.Expands(fetched[j])
                && e.depth == fetched[j].depth + 1 && e.url in c.Children(fetched[j]);
      assert (fetched + [x])[j] == fetched[j];
    }
  }

  lemma {:induction false} SourcedMore(c: Config, fetched: seq<Entry>, e: Entry, n: nat, m: nat)
    requires n <= m && Sourced(c, fetched, e, n)
    ensures Sourced(c, fetched, e, m)
  {
  }

  /** Every seed, and every child of an expanded index, is `known`. */
  ghost predicate Covers(c: Config, fetched: seq<Entry>, known: set<string>) {
    (forall k :: 0 <= k < |c.seeds| ==> c.seeds[k] in known)
    && (forall j, x {:trigger x in c.Children(fetched[j])} ::
          0 <= j < |fetched| && c.Expands(fetched[j]) && x in c.Children(fetched[j]) ==> x in known)
  }

  /** `ev` is an event of one of the fetched leaf sitemaps. */
  ghost predicate FromLeaf(c: Config, fetched: seq<Entry>, ev: UrlEvent) {
    exists j :: 0 <= j < |fetched| && ev in c.Events(fetched[j])
  }

  /** A leaf processed while the signal was not set has yielded all its URLs. */
  ghost predicate LeafDone(c: Config, e: Entry, begun: nat, yielded: set<string>) {
    !IsAborted(c.abortAfter, begun) ==> forall ev :: ev in c.Events(e) ==> ev.url in yielded
  }

  /** The message of the last error caught: a failed fetch or parse, or the
      abort thrown inside a non-empty leaf. */
  function LastError(c: Config, fetched: seq<Entry>): Option<string>
    decreases |fetched|
  {
    if fetched == [] then None
    else
      var n := |fetched|;
      var prev := LastError(c, fetched[..n - 1]);
      match c.fetch(fetched[n - 1].url)
      case Failed(m) => Some(m)
      case Parsed(Index(_)) => prev
      case Parsed(Leaf(nodes)) => if |nodes| > 0 && IsAborted(c.abortAfter, n) then Some("Aborted") else prev
  }

  ghost predicate AnyParsed(c: Config, fetched: seq<Entry>) {
    exists j :: 0 <= j < |fetched| && c.fetch(fetched[j].url).Parsed?
  }

  /* ------------------------------ invariants ----------------------------- */

  ghost predicate QueueOk(c: Config, w: Walk) {
    QueueInv(c, w.queue, w.fetched, w.visited)
  }

  ghost predicate QueueInv(c: Config, queue: seq<Entry>, fetched: seq<Entry>, visited: set<string>) {
    && Layered(queue)
    && InRange(queue, Max(0, c.maxDepth))
    && (forall i :: 0 <= i < |queue| ==> Sourced(c, fetched, queue[i], |fetched|))
    && Covers(c, fetched, visited + UrlSet(queue))
  }

  ghost predicate TraceOk(c: Config, w: Walk) {
    && (forall u :: u in w.visited <==> u in QueueUrls(w.fetched))
    && NoDups(QueueUrls(w.fetched))
    && (forall i :: 0 <= i < |w.fetched| ==> Sourced(c, w.fetched, w.fetched[i], i))
    && (w.successful <==> AnyParsed(c, w.fetched))
    && w.lastError == LastError(c, w.fetched)
    && (c.abortAfter.Some? ==> |w.fetched| <= c.abortAfter.value)
  }

  ghost predicate YieldOk(c: Config, w: Walk) {
    && (forall u :: u in w.yielded <==> u in EventUrls(w.urls))
    && NoDups(EventUrls(w.urls))
    && (forall k :: 0 <= k < |w.urls| ==> FromLeaf(c, w.fetched, w.urls[k]))
  }

  ghost predicate LeavesOk(c: Config, w: Walk, upto: nat) {
    forall j :: 0 <= j < upto && j < |w.fetched| ==> LeafDone(c, w.fetched[j], j + 1, w.yielded)
  }

  /** The totals of the `urls` reports, in order. */
  function Totals(p: seq<Progress>): seq<nat>
    decreases |p|
  {
    if p == [] then []
    else Totals(p[..|p| - 1]) + (if p[|p| - 1].UrlsP? then [p[|p| - 1].total] else [])
  }

  /** After the header the loop reports only skipped indexes and URL
      counts, and the URL counts are exactly the multiples of 500 up to
      `total`. */
  ghost predicate ReportsBody(c: Config, p: seq<Progress>, total: nat) {
    && c.Header() <= p
    && (forall i :: |c.Header()| <= i < |p| ==> p[i].SkipP? || p[i].UrlsP?)
    && Totals(p) == Totals(UrlsMarks(0, total))
  }

  /** ... and every skipped index is reported. */
  ghost predicate ReportsOk(c: Config, w: Walk) {
    && ReportsBody(c, w.progress, |w.urls|)
    && SkipsReported(c, w.fetched, w.progress)
  }

  ghost predicate WalkInv(c: Config, w: Walk) {
    && QueueOk(c, w) && TraceOk(c, w) && YieldOk(c, w) && LeavesOk(c, w, |w.fetched|) && ReportsOk(c, w)
    && |w.urls| < Max(1, c.maxUrls)
  }

  /** Every fetched index at `maxDepth` or deeper has its `skip` report. */
  ghost predicate SkipsReported(c: Config, fetched: seq<Entry>, progress: seq<Progress>) {
    forall j :: 0 <= j < |fetched| && c.Skips(fetched[j]) ==> SkipP(fetched[j].url) in progress
  }

  /** The state in which the walk returns after the `stop` report: every
      leaf before the last one fetched was read to the end. */
  ghost predicate Halted(c: Config, w: Walk) {
    && TraceOk(c, w) && YieldOk(c, w)
    && |w.urls| == Max(1, c.maxUrls)
    && |w.progress| > 0 && w.progress[|w.progress| - 1] == StopP(c.maxUrls, |w.urls|)
    && ReportsBody(c, w.progress[..|w.progress| - 1], |w.urls|)
    && SkipsReported(c, w.fetched, w.progress)
    && |w.fetched| > 0 && LeavesOk(c, w, |w.fetched| - 1)
  }

  /* ------------------------------ one step ------------------------------- */

  /** The walk once the head of the queue has been shifted, added to
      `visitedSitemaps` and its fetch begun. */
  function Enter(w: Walk): Walk
    requires w.queue != []
  {
    w.(queue := w.queue[1..], visited := w.visited + {w.queue[0].url}, fetched := w.fetched + [w.queue[0]])
  }

  /** The termination measure goes down. */
  ghost predicate Shorter(c: Config, w: Walk, w': Walk) {
    Lower(c, w.queue, w'.queue)
  }

  ghost predicate Lower(c: Config, queue: seq<Entry>, queue': seq<Entry>) {
    var top := Max(0, c.maxDepth);
    Level(queue', top) < Level(queue, top)
    || (Level(queue', top) == Level(queue, top) && Front(queue') < Front(queue))
  }

  lemma {:induction false} UrlSetQueue(q: seq<Entry>, x: string)
    ensures x in UrlSet(q) <==> x in QueueUrls(q)
  {
    if x in QueueUrls(q) {
      var k :| 0 <= k < |q| && QueueUrls(q)[k] == x;
      assert q[k].url == x;
    }
  }

  /** Whatever was visited or queued before a step still is. */
  lemma {:induction false} KnownKept(visited: set<string>, queue: seq<Entry>, kids: seq<string>, d: int)
    requires queue != []
    ensures visited + UrlSet(queue) <= (visited + {queue[0].url}) + UrlSet(queue[1..] + AtDepth(kids, d))
  {
    var q' := queue[1..] + AtDepth(kids, d);
    forall x | x in UrlSet(queue)
      ensures x in (visited + {queue[0].url}) + UrlSet(q')
    {
      var i :| 0 <= i < |queue| && queue[i].url == x;
      if i > 0 {
        assert q'[i - 1] == queue[i];
      }
    }
  }

  lemma {:induction false} CoversMono(c: Config, fetched: seq<Entry>, k1: set<string>, k2: set<string>)
    requires Covers(c, fetched, k1) && k1 <= k2
    ensures Covers(c, fetched, k2)
  {
  }

  lemma {:induction false} CoversSnoc(c: Config, fetched: seq<Entry>, e: Entry, known: set<string>)
    requires Covers(c, fetched, known)
    requires c.Expands(e) ==> forall x :: x in c.Children(e) ==> x in known
    ensures Covers(c, fetched + [e], known)
  {
    forall j, x | 0 <= j < |fetched + [e]| && c.Expands((fetched + [e])[j]) && x in c.Children((fetched + [e])[j])
      ensures x in known
    {
      if j < |fetched| {
        assert (fetched + [e])[j] == fetched[j];
      }
    }
  }

  /** Every child of `e`, if `e` is expanded, is already `known` or among
      `kids`. */
  ghost predicate ChildrenKnown(c: Config, e: Entry, known: set<string>, kids: seq<string>) {
    c.Expands(e) ==> forall x :: x in c.Children(e) ==> x in known || x in kids
  }

  /** The queue invariant survives a fetched head whose children `kids` are
      appended one level deeper. */
  lemma {:induction false} QueueAfter(c: Config, w: Walk, w': Walk, kids: seq<string>)
    requires QueueOk(c, w) && w.queue != []
    requires kids != [] ==> c.Expands(w.queue[0])
    requires forall k :: 0 <= k < |kids| ==> kids[k] in c.Children(w.queue[0])
    requires ChildrenKnown(c, w.queue[0], w.visited + {w.queue[0].url} + UrlSet(w.queue[1..]), kids)
    requires w'.queue == w.queue[1..] + AtDepth(kids, w.queue[0].depth + 1)
    requires w'.visited == w.visited + {w.queue[0].url} && w'.fetched == w.fetched + [w.queue[0]]
    ensures QueueOk(c, w') && Shorter(c, w, w')
  {
    QueueNext(c, w.queue, w.fetched, w.visited, kids);
  }

  lemma {:induction false} QueueNext(c: Config, queue: seq<Entry>, fetched: seq<Entry>, visited: set<string>, kids: seq<string>)
    requires QueueInv(c, queue, fetched, visited) && queue != []
    requires kids != [] ==> c.Expands(queue[0])
    requires forall k :: 0 <= k < |kids| ==> kids[k] in c.Children(queue[0])
    requires ChildrenKnown(c, queue[0], visited + {queue[0].url} + UrlSet(queue[1..]), kids)
    ensures QueueInv(c, queue[1..] + AtDepth(kids, queue[0].depth + 1), fetched + [queue[0]], visited + {queue[0].url})
    ensures Lower(c, queue, queue[1..] + AtDepth(kids, queue[0].depth + 1))
  {
    var q' := queue[1..] + AtDepth(kids, queue[0].depth + 1);
    PopPush(queue, kids, Max(0, c.maxDepth), q');
    QueueSourced(c, queue, fetched, kids, q', fetched + [queue[0]]);
    QueueCovers(c, queue, fetched, visited, kids, fetched + [queue[0]], visited + {queue[0].url}, q');
  }

  lemma {:induction false} QueueSourced(c: Config, queue: seq<Entry>, F: seq<Entry>, kids: seq<string>, q': seq<Entry>, F': seq<Entry>)
    requires queue != []
    requires forall i :: 0 <= i < |queue| ==> Sourced(c, F, queue[i], |F|)
    requires kids != [] ==> c.Expands(queue[0])
    requires forall k :: 0 <= k < |kids| ==> kids[k] in c.Children(queue[0])
    requires q' == queue[1..] + AtDepth(kids, queue[0].depth + 1) && F' == F + [queue[0]]
    ensures forall i :: 0 <= i < |q'| ==> Sourced(c, F', q'[i], |F'|)
  {
    var e := queue[0];
    var rest := queue[1..];
    forall i | 0 <= i < |q'|
      ensures Sourced(c, F', q'[i], |F'|)
    {
      if i < |rest| {
        assert q'[i] == queue[i + 1];
        SourcedGrow(c, F, e, queue[i + 1], |F|);
      } else {
        assert q'[i] == Entry(kids[i - |rest|], e.depth + 1);
        assert F'[|F|] == e;
      }
    }
  }

  lemma {:induction false} QueueCovers(c: Config, queue: seq<Entry>, F: seq<Entry>, visited: set<string>, kids: seq<string>,
                    F': seq<Entry>, visited': set<string>, q': seq<Entry>)
    requires queue != []
    requires Covers(c, F, visited + UrlSet(queue))
    requires ChildrenKnown(c, queue[0], visited + {queue[0].url} + UrlSet(queue[1..]), kids)
    requires F' == F + [queue[0]]
    requires visited' == visited + {queue[0].url} && q' == queue[1..] + AtDepth(kids, queue[0].depth + 1)
    ensures Covers(c, F', visited' + UrlSet(q'))
  {
    var e := queue[0];
    var rest := queue[1..];
    var known := visited' + UrlSet(q');
    KnownKept(visited, queue, kids, e.depth + 1);
    CoversMono(c, F, visited + UrlSet(queue), known);
    if c.Expands(e) {
      forall x | x in c.Children(e)
        ensures x in known
      {
        InQueued(rest, kids, e.depth + 1, x);
        UrlSetQueue(q', x);
        UrlSetQueue(rest, x);
      }
    }
    CoversSnoc(c, F, e, known);
  }

  /** Skipping a visited head keeps the queue invariant. */
  lemma {:induction false} QueueSkip(c: Config, w: Walk)
    requires QueueOk(c, w) && w.queue != [] && w.queue[0].url in w.visited
    ensures QueueOk(c, w.(queue := w.queue[1..]))
    ensures Shorter(c, w, w.(queue := w.queue[1..]))
  {
    var top := Max(0, c.maxDepth);
    assert w.queue[1..] + AtDepth([], w.queue[0].depth + 1) == w.queue[1..];
    PopPush(w.queue, [], top, w.queue[1..]);
    KnownKept(w.visited, w.queue, [], w.queue[0].depth + 1);
    assert w.visited + {w.queue[0].url} == w.visited;
    CoversMono(c, w.fetched, w.visited + UrlSet(w.queue), w.visited + UrlSet(w.queue[1..]));
    forall i | 0 <= i < |w.queue| - 1
      ensures Sourced(c, w.fetched, w.queue[1..][i], |w.fetched|)
    {
      assert w.queue[1..][i] == w.queue[i + 1];
    }
  }

  lemma {:induction false} LastErrorSnoc(c: Config, fetched: seq<Entry>, e: Entry)
    ensures LastError(c, fetched + [e]) ==
              match c.fetch(e.url)
              case Failed(m) => Some(m)
              case Parsed(Index(_)) => LastError(c, fetched)
              case Parsed(Leaf(nodes)) =>
                if |nodes| > 0 && IsAborted(c.abortAfter, |fetched| + 1) then Some("Aborted") else LastError(c, fetched)
  {
    assert (fetched + [e])[..|fetched|] == fetched;
  }

  /** Visiting a new URL keeps `visitedSitemaps` equal to the set of
      fetched URLs, each fetched once. */
  lemma {:induction false} VisitedAfter(visited: set<string>, F: seq<Entry>, e: Entry, visited': set<string>, F': seq<Entry>)
    requires forall u :: u in visited <==> u in QueueUrls(F)
    requires NoDups(QueueUrls(F)) && e.url !in visited
    requires visited' == visited + {e.url} && F' == F + [e]
    ensures forall u :: u in visited' <==> u in QueueUrls(F')
    ensures NoDups(QueueUrls(F'))
  {
    UrlsAppend(F, [e]);
    assert QueueUrls([e]) == [e.url];
    NoDupsAppend(QueueUrls(F), [e.url]);
  }

  /** Every fetched sitemap was a seed or the child of an earlier index. */
  lemma {:induction false} SourcedAfter(c: Config, F: seq<Entry>, e: Entry, F': seq<Entry>)
    requires forall i :: 0 <= i < |F| ==> Sourced(c, F, F[i], i)
    requires Sourced(c, F, e, |F|) && F' == F + [e]
    ensures forall i :: 0 <= i < |F'| ==> Sourced(c, F', F'[i], i)
  {
    forall i | 0 <= i < |F'|
      ensures Sourced(c, F', F'[i], i)
    {
      if i < |F| {
        assert F'[i] == F[i];
        SourcedGrow(c, F, e, F[i], i);
      } else {
        assert F'[i] == e;
        SourcedGrow(c, F, e, e, |F|);
      }
    }
  }

  /** `successfulFetch` is set exactly when some fetch parsed. */
  lemma {:induction false} ParsedAfter(c: Config, F: seq<Entry>, e: Entry, F': seq<Entry>, ok: bool, ok': bool)
    requires ok <==> AnyParsed(c, F)
    requires F' == F + [e] && ok' == (ok || c.fetch(e.url).Parsed?)
    ensures ok' <==> AnyParsed(c, F')
  {
    if AnyParsed(c, F) {
      var j :| 0 <= j < |F| && c.fetch(F[j].url).Parsed?;
      assert F'[j] == F[j];
    }
    if AnyParsed(c, F') {
      var j :| 0 <= j < |F'| && c.fetch(F'[j].url).Parsed?;
      if j < |F| {
        assert F[j] == F'[j];
      }
    }
    if c.fetch(e.url).Parsed? {
      assert F'[|F|] == e;
    }
  }

  /** The trace invariant survives the fetch of an unvisited head. */
  lemma {:induction false} TraceAfter(c: Config, w: Walk, w': Walk)
    requires TraceOk(c, w) && QueueOk(c, w) && w.queue != [] && w.queue[0].url !in w.visited
    requires !IsAborted(c.abortAfter, |w.fetched|)
    requires w'.visited == w.visited + {w.queue[0].url} && w'.fetched == w.fetched + [w.queue[0]]
    requires w'.successful == (w.successful || c.fetch(w.queue[0].url).Parsed?)
    requires w'.lastError == LastError(c, w'.fetched)
    ensures TraceOk(c, w')
  {
    VisitedAfter(w.visited, w.fetched, w.queue[0], w'.visited, w'.fetched);
    SourcedAfter(c, w.fetched, w.queue[0], w'.fetched);
    ParsedAfter(c, w.fetched, w.queue[0], w'.fetched, w.successful, w'.successful);
  }

  /** The yield invariant survives a step that appends the new events
      `more` of the fetched head. */
  lemma {:induction false} YieldAfter(c: Config, w: Walk, w': Walk, more: seq<UrlEvent>)
    requires YieldOk(c, w) && w.queue != []
    requires w'.fetched == w.fetched + [w.queue[0]] && w'.urls == w.urls + more
    requires forall u :: u in w'.yielded <==> u in EventUrls(w'.urls)
    requires NoDups(EventUrls(more))
    requires forall k :: 0 <= k < |more| ==> more[k] in c.Events(w.queue[0]) && more[k].url !in w.yielded
    ensures YieldOk(c, w')
  {
    EventUrlsAppend(w.urls, more);
    NoDupsAppend(EventUrls(w.urls), EventUrls(more));
    forall k | 0 <= k < |w'.urls|
      ensures FromLeaf(c, w'.fetched, w'.urls[k])
    {
      if k < |w.urls| {
        assert FromLeaf(c, w.fetched, w.urls[k]);
        var j :| 0 <= j < |w.fetched| && w.urls[k] in c.Events(w.fetched[j]);
        assert w'.fetched[j] == w.fetched[j];
      } else {
        assert w'.urls[k] == more[k - |w.urls|];
        assert w'.fetched[|w.fetched|] == w.queue[0];
      }
    }
  }

  /** The leaf invariant survives a step in which the fetched head is done. */
  lemma {:induction false} LeavesAfter(c: Config, w: Walk, w': Walk)
    requires LeavesOk(c, w, |w.fetched|) && w.queue != []
    requires w'.fetched == w.fetched + [w.queue[0]] && w.yielded <= w'.yielded
    requires LeafDone(c, w.queue[0], |w'.fetched|, w'.yielded)
    ensures LeavesOk(c, w', |w'.fetched|)
  {
    forall j | 0 <= j < |w'.fetched|
      ensures LeafDone(c, w'.fetched[j], j + 1, w'.yielded)
    {
      if j < |w.fetched| {
        assert w'.fetched[j] == w.fetched[j];
        assert LeafDone(c, w.fetched[j], j + 1, w.yielded);
      }
    }
  }

  lemma {:induction false} TotalsAppend(a: seq<Progress>, b: seq<Progress>)
    ensures Totals(a + b) == Totals(a) + Totals(b)
    decreases |b|
  {
    if b == [] {
      assert a + b == a;
    } else {
      var init := b[..|b| - 1];
      var x := b[|b| - 1];
      assert (a + b)[..|a + b| - 1] == a + init;
      assert (a + b)[|a + b| - 1] == x;
      TotalsAppend(a, init);
      Assoc(Totals(a), Totals(init), if x.UrlsP? then [x.total] else []);
    }
  }

  /** Appending reports of the right kinds whose totals are the marks
      between `n` and `n'` keeps the report body well formed. */
  lemma {:induction false} BodyAfter(c: Config, p: seq<Progress>, n: nat, extra: seq<Progress>, n': nat, p': seq<Progress>)
    requires ReportsBody(c, p, n) && n <= n'
    requires forall i :: 0 <= i < |extra| ==> extra[i].SkipP? || extra[i].UrlsP?
    requires Totals(extra) == Totals(UrlsMarks(n, n'))
    requires p' == p + extra
    ensures ReportsBody(c, p', n')
  {
    TotalsAppend(p, extra);
    UrlsMarksSplit(0, n, n');
    TotalsAppend(UrlsMarks(0, n), UrlsMarks(n, n'));
    forall i | |c.Header()| <= i < |p'|
      ensures p'[i].SkipP? || p'[i].UrlsP?
    {
      if i >= |p| {
        assert p'[i] == extra[i - |p|];
      }
    }
  }

  /** The report invariant survives a step that appends `extra`. */
  lemma {:induction false} ReportsAfter(c: Config, w: Walk, w': Walk, extra: seq<Progress>)
    requires ReportsOk(c, w) && w.queue != []
    requires w'.fetched == w.fetched + [w.queue[0]] && w'.progress == w.progress + extra
    requires forall i :: 0 <= i < |extra| ==> extra[i].SkipP? || extra[i].UrlsP?
    requires c.Skips(w.queue[0]) ==> SkipP(w.queue[0].url) in extra
    requires |w.urls| <= |w'.urls| && Totals(extra) == Totals(UrlsMarks(|w.urls|, |w'.urls|))
    ensures ReportsOk(c, w')
  {
    BodyAfter(c, w.progress, |w.urls|, extra, |w'.urls|, w'.progress);
    forall j | 0 <= j < |w'.fetched| && c.Skips(w'.fetched[j])
      ensures SkipP(w'.fetched[j].url) in w'.progress
    {
      if j < |w.fetched| {
        assert w'.fetched[j] == w.fetched[j];
      } else {
        assert w'.fetched[j] == w.queue[0];
      }
    }
  }

  /* ------------------------------ branches ------------------------------- */

  /** The head was already visited: it is dropped. */
  lemma {:induction false} VisitedStep(c: Config, w: Walk)
    requires WalkInv(c, w) && w.queue != [] && w.queue[0].url in w.visited
    ensures WalkInv(c, w.(queue := w.queue[1..])) && Shorter(c, w, w.(queue := w.queue[1..]))
    ensures w.(queue := w.queue[1..]) == Advance(c, w)
  {
    QueueSkip(c, w);
  }

  /** The fetch or the parse failed: the error is recorded and the walk goes
      on. */
  lemma {:induction false} FailedStep(c: Config, w: Walk, w': Walk, m: string)
    requires WalkInv(c, w) && w.queue != [] && w.queue[0].url !in w.visited
    requires !IsAborted(c.abortAfter, |w.fetched|)
    requires c.fetch(w.queue[0].url) == Failed(m)
    requires w' == Enter(w).(lastError := Some(m))
    ensures WalkInv(c, w') && Shorter(c, w, w')
    ensures w' == Advance(c, w)
  {
    var e := w.queue[0];
    assert ReportsOk(c, w') by {
      assert w'.progress == w.progress + [];
      ReportsAfter(c, w, w', []);
    }
    assert QueueOk(c, w') && Shorter(c, w, w') by {
      assert w'.queue == w.queue[1..] + AtDepth([], e.depth + 1);
      assert !c.Expands(e);
      QueueAfter(c, w, w', []);
    }
    assert TraceOk(c, w') && YieldOk(c, w') && LeavesOk(c, w', |w'.fetched|) by {
      SilentAfter(c, w, w');
    }
  }

  /** A sitemap that is an index or fails yields nothing: the trace, the
      yield and the leaves invariants carry over. */
  lemma {:induction false} SilentAfter(c: Config, w: Walk, w': Walk)
    requires TraceOk(c, w) && QueueOk(c, w) && YieldOk(c, w) && LeavesOk(c, w, |w.fetched|)
    requires w.queue != [] && w.queue[0].url !in w.visited && !IsAborted(c.abortAfter, |w.fetched|)
    requires c.fetch(w.queue[0].url).Failed? || c.fetch(w.queue[0].url).doc.Index?
    requires w'.visited == w.visited + {w.queue[0].url} && w'.fetched == w.fetched + [w.queue[0]]
    requires w'.urls == w.urls && w'.yielded == w.yielded
    requires w'.successful == (w.successful || c.fetch(w.queue[0].url).Parsed?)
    requires w'.lastError == if c.fetch(w.queue[0].url).Failed? then Some(c.fetch(w.queue[0].url).message) else w.lastError
    ensures TraceOk(c, w') && YieldOk(c, w') && LeavesOk(c, w', |w'.fetched|)
  {
    var e := w.queue[0];
    assert TraceOk(c, w') by {
      LastErrorSnoc(c, w.fetched, e);
      TraceAfter(c, w, w');
    }
    assert YieldOk(c, w') by {
      assert w'.urls == w.urls + [];
      YieldAfter(c, w, w', []);
    }
    assert LeavesOk(c, w', |w'.fetched|) by {
      assert c.Events(e) == [];
      LeavesAfter(c, w, w');
    }
  }

  /** An index at `maxDepth` or deeper: reported and not expanded. */
  lemma {:induction false} SkipStep(c: Config, w: Walk, w': Walk, locs: seq<string>)
    requires WalkInv(c, w) && w.queue != [] && w.queue[0].url !in w.visited
    requires !IsAborted(c.abortAfter, |w.fetched|)
    requires c.fetch(w.queue[0].url) == Parsed(Index(locs)) && w.queue[0].depth >= c.maxDepth
    requires w' == Enter(w).(successful := true, progress := w.progress + [SkipP(w.queue[0].url)])
    ensures WalkInv(c, w') && Shorter(c, w, w')
    ensures w' == Advance(c, w)
  {
    var e := w.queue[0];
    assert ReportsOk(c, w') by {
      assert Totals([SkipP(e.url)]) == [];
      ReportsAfter(c, w, w', [SkipP(e.url)]);
    }
    assert QueueOk(c, w') && Shorter(c, w, w') by {
      assert w'.queue == w.queue[1..] + AtDepth([], e.depth + 1);
      assert !c.Expands(e);
      QueueAfter(c, w, w', []);
    }
    assert TraceOk(c, w') && YieldOk(c, w') && LeavesOk(c, w', |w'.fetched|) by {
      SilentAfter(c, w, w');
    }
  }

  /** An index above `maxDepth`: its new children are queued one level
      deeper. */
  lemma {:induction false} ExpandStep(c: Config, w: Walk, w': Walk, locs: seq<string>, kids: seq<string>)
    requires WalkInv(c, w) && w.queue != [] && w.queue[0].url !in w.visited
    requires !IsAborted(c.abortAfter, |w.fetched|)
    requires c.fetch(w.queue[0].url) == Parsed(Index(locs)) && w.queue[0].depth < c.maxDepth
    requires kids == Fresh(ChildUrls(locs, c.base, c.resolve), w.visited + {w.queue[0].url} + UrlSet(w.queue[1..]))
    requires w' == Enter(w).(successful := true, queue := w.queue[1..] + AtDepth(kids, w.queue[0].depth + 1))
    ensures WalkInv(c, w') && Shorter(c, w, w')
    ensures w' == Advance(c, w)
  {
    var e := w.queue[0];
    ExpandAdvance(c, w, w', locs, kids);
    assert ReportsOk(c, w') by {
      assert w'.progress == w.progress + [];
      ReportsAfter(c, w, w', []);
    }
    assert QueueOk(c, w') && Shorter(c, w, w') by {
      var cands := ChildUrls(locs, c.base, c.resolve);
      assert c.Children(e) == cands;
      forall x | x in cands
        ensures x in w.visited + {e.url} + UrlSet(w.queue[1..]) || x in kids
      {
        var i :| 0 <= i < |cands| && cands[i] == x;
      }
      assert ChildrenKnown(c, e, w.visited + {e.url} + UrlSet(w.queue[1..]), kids);
      QueueAfter(c, w, w', kids);
    }
    assert TraceOk(c, w') && YieldOk(c, w') && LeavesOk(c, w', |w'.fetched|) by {
      SilentAfter(c, w, w');
    }
  }

  lemma {:induction false} ExpandAdvance(c: Config, w: Walk, w': Walk, locs: seq<string>, kids: seq<string>)
    requires w.queue != [] && w.queue[0].url !in w.visited
    requires c.fetch(w.queue[0].url) == Parsed(Index(locs)) && w.queue[0].depth < c.maxDepth
    requires kids == Fresh(ChildUrls(locs, c.base, c.resolve), w.visited + {w.queue[0].url} + UrlSet(w.queue[1..]))
    requires w' == Enter(w).(successful := true, queue := w.queue[1..] + AtDepth(kids, w.queue[0].depth + 1))
    ensures w' == Advance(c, w)
  {
    var w1 := Enter(w);
    assert w1.visited + UrlSet(w1.queue) == w.visited + {w.queue[0].url} + UrlSet(w.queue[1..]);
  }

  /** What a leaf yields comes from the leaf, is new, and names each URL
      once. */
  lemma {:induction false} LeafMore(nodes: seq<UrlNode>, consumed: nat, known: set<string>, base: string,
                 resolve: (string, string) -> Option<string>)
    requires consumed <= |nodes|
    ensures NoDups(EventUrls(LeafYield(nodes[..consumed], known, base, resolve)))
    ensures forall k :: 0 <= k < |LeafYield(nodes[..consumed], known, base, resolve)| ==>
              LeafYield(nodes[..consumed], known, base, resolve)[k] in LeafEvents(nodes, base, resolve)
              && LeafYield(nodes[..consumed], known, base, resolve)[k].url !in known
  {
    FreshEventsSound(LeafEvents(nodes[..consumed], base, resolve), known);
    LeafEventsAppend(nodes[..consumed], nodes[consumed..], base, resolve);
    assert nodes[..consumed] + nodes[consumed..] == nodes;
  }

  /** A leaf read to the end leaves every one of its URLs yielded. */
  lemma {:induction false} LeafComplete(nodes: seq<UrlNode>, known: set<string>, base: string, resolve: (string, string) -> Option<string>,
                     yielded: set<string>)
    requires known <= yielded
    requires forall k :: 0 <= k < |LeafYield(nodes, known, base, resolve)| ==> LeafYield(nodes, known, base, resolve)[k].url in yielded
    ensures forall ev :: ev in LeafEvents(nodes, base, resolve) ==> ev.url in yielded
  {
    var evs := LeafEvents(nodes, base, resolve);
    var got := LeafYield(nodes, known, base, resolve);
    assert got == FreshEvents(evs, known);
    FreshEventsSound(evs, known);
    forall ev | ev in evs
      ensures ev.url in yielded
    {
      var i :| 0 <= i < |evs| && evs[i] == ev;
      if ev.url !in known {
        var k :| 0 <= k < |got| && EventUrls(got)[k] == ev.url;
        assert got[k].url == ev.url;
      }
    }
  }

  /** A leaf sitemap keeps the trace and the yield invariants: what it
      yields are new events of the leaf, each URL once. */
  lemma {:induction false} LeafTrace(c: Config, w: Walk, w': Walk, nodes: seq<UrlNode>, threw: bool, consumed: nat,
                                     more: seq<UrlEvent>)
    requires TraceOk(c, w) && QueueOk(c, w) && YieldOk(c, w)
    requires w.queue != [] && w.queue[0].url !in w.visited && !IsAborted(c.abortAfter, |w.fetched|)
    requires c.fetch(w.queue[0].url) == Parsed(Leaf(nodes))
    requires threw <==> IsAborted(c.abortAfter, |w.fetched| + 1) && |nodes| > 0
    requires !threw ==> consumed <= |nodes|
    requires more == if threw then [] else LeafYield(nodes[..consumed], w.yielded, c.base, c.resolve)
    requires w'.visited == w.visited + {w.queue[0].url} && w'.fetched == w.fetched + [w.queue[0]]
    requires w'.successful && w'.lastError == if threw then Some("Aborted") else w.lastError
    requires w'.urls == w.urls + more && forall u :: u in w'.yielded <==> u in EventUrls(w'.urls)
    ensures TraceOk(c, w') && YieldOk(c, w')
  {
    var e := w.queue[0];
    assert c.Events(e) == LeafEvents(nodes, c.base, c.resolve);
    assert TraceOk(c, w') by {
      LastErrorSnoc(c, w.fetched, e);
      TraceAfter(c, w, w');
    }
    assert YieldOk(c, w') by {
      if !threw {
        LeafMore(nodes, consumed, w.yielded, c.base, c.resolve);
      }
      YieldAfter(c, w, w', more);
    }
  }

  /** A leaf sitemap: its new URLs are yielded, unless the signal is set,
      in which case its first `<url>` throws and the walk records the abort;
      the walk halts when `maxUrls` is reached. The requirements are what
      `EmitLeaf` ensures. */
  lemma {:induction false} LeafStep(c: Config, w: Walk, w': Walk, nodes: seq<UrlNode>, yielded: set<string>, urls: seq<UrlEvent>,
                 progress: seq<Progress>, stopped: bool, threw: bool, consumed: nat)
    requires WalkInv(c, w) && w.queue != [] && w.queue[0].url !in w.visited
    requires !IsAborted(c.abortAfter, |w.fetched|)
    requires c.fetch(w.queue[0].url) == Parsed(Leaf(nodes))
    requires threw <==> IsAborted(c.abortAfter, |w.fetched| + 1) && |nodes| > 0
    requires threw ==> !stopped && yielded == w.yielded && urls == w.urls && progress == w.progress
    requires forall u :: u in yielded <==> u in EventUrls(urls)
    requires !threw ==>
               consumed <= |nodes| && urls == w.urls + LeafYield(nodes[..consumed], w.yielded, c.base, c.resolve)
               && progress == w.progress + UrlsMarks(|w.urls|, |urls|) + StopMark(stopped, c.maxUrls, |urls|)
    requires !threw && !stopped ==> consumed == |nodes| && |urls| < Max(1, c.maxUrls)
    requires stopped ==> |urls| == Max(1, c.maxUrls)
    requires w' == Enter(w).(successful := true, yielded := yielded, urls := urls, progress := progress,
                             lastError := if threw then Some("Aborted") else w.lastError)
    ensures !stopped ==> WalkInv(c, w') && Shorter(c, w, w')
    ensures stopped ==> Halted(c, w')
  {
    var e := w.queue[0];
    var n := if threw then 0 else consumed;
    var more := if threw then [] else LeafYield(nodes[..consumed], w.yielded, c.base, c.resolve);
    assert urls == w.urls + more;
    assert TraceOk(c, w') && YieldOk(c, w') by {
      LeafTrace(c, w, w', nodes, threw, consumed, more);
    }
    if !stopped {
      assert WalkInv(c, w') && Shorter(c, w, w') by {
        if !threw {
          assert nodes[..consumed] == nodes;
          assert progress == w.progress + UrlsMarks(|w.urls|, |urls|) + [];
        }
        assert w'.queue == w.queue[1..] && w'.visited == w.visited + {e.url};
        assert w'.fetched == w.fetched + [e] && w'.urls == w.urls + more;
        LeafGoOn(c, w, w', nodes, threw, more);
      }
    } else {
      assert w.urls <= urls;
      LeafHalted(c, w, w', nodes);
    }
  }

  /** A leaf sitemap is `Advance`'s leaf case: the abort thrown at its first
      `<url>`, or `LeafPass`. The requirements are what `EmitLeaf` ensures. */
  lemma {:induction false} LeafAdvance(c: Config, w: Walk, w': Walk, nodes: seq<UrlNode>, yielded: set<string>,
                                       urls: seq<UrlEvent>, progress: seq<Progress>, stopped: bool, threw: bool,
                                       consumed: nat)
    requires w.queue != [] && w.queue[0].url !in w.visited && |w.urls| < Max(1, c.maxUrls)
    requires forall u :: u in w.yielded <==> u in EventUrls(w.urls)
    requires c.fetch(w.queue[0].url) == Parsed(Leaf(nodes))
    requires threw <==> IsAborted(c.abortAfter, |w.fetched| + 1) && |nodes| > 0
    requires threw ==> !stopped && yielded == w.yielded && urls == w.urls && progress == w.progress
    requires forall u :: u in yielded <==> u in EventUrls(urls)
    requires !threw ==>
               consumed <= |nodes| && urls == w.urls + LeafYield(nodes[..consumed], w.yielded, c.base, c.resolve)
               && progress == w.progress + UrlsMarks(|w.urls|, |urls|) + StopMark(stopped, c.maxUrls, |urls|)
    requires !threw && !stopped ==> consumed == |nodes| && |urls| < Max(1, c.maxUrls)
    requires stopped ==> |urls| == Max(1, c.maxUrls)
    requires w' == Enter(w).(successful := true, yielded := yielded, urls := urls, progress := progress,
                             lastError := if threw then Some("Aborted") else w.lastError)
    ensures w' == Advance(c, w)
  {
    if !threw {
      LeafPassOf(c, w, nodes, yielded, urls, progress, stopped, consumed);
    }
  }

  /** A leaf that reaches `maxUrls` leaves the walk `Halted`. */
  lemma {:induction false} LeafHalted(c: Config, w: Walk, w': Walk, nodes: seq<UrlNode>)
    requires TraceOk(c, w') && YieldOk(c, w')
    requires ReportsOk(c, w) && YieldOk(c, w) && LeavesOk(c, w, |w.fetched|) && w.queue != []
    requires c.fetch(w.queue[0].url) == Parsed(Leaf(nodes))
    requires w'.fetched == w.fetched + [w.queue[0]] && |w'.urls| == Max(1, c.maxUrls)
    requires w.urls <= w'.urls && forall u :: u in w'.yielded <==> u in EventUrls(w'.urls)
    requires w'.progress == w.progress + UrlsMarks(|w.urls|, |w'.urls|) + StopMark(true, c.maxUrls, |w'.urls|)
    ensures Halted(c, w')
  {
    LeafStop(c, w.progress, |w.urls|, |w'.urls|, w'.progress);
    LeafHalt(c, w, w', nodes);
  }

  /** A leaf that reaches `maxUrls` keeps the skip reports made so far and
      every leaf read before it complete. */
  lemma {:induction false} LeafHalt(c: Config, w: Walk, w': Walk, nodes: seq<UrlNode>)
    requires ReportsOk(c, w) && YieldOk(c, w) && LeavesOk(c, w, |w.fetched|) && w.queue != []
    requires c.fetch(w.queue[0].url) == Parsed(Leaf(nodes))
    requires w'.fetched == w.fetched + [w.queue[0]] && w.progress <= w'.progress
    requires w.urls <= w'.urls && forall u :: u in w'.yielded <==> u in EventUrls(w'.urls)
    ensures SkipsReported(c, w'.fetched, w'.progress)
    ensures LeavesOk(c, w', |w'.fetched| - 1)
  {
    YieldedGrow(w.yielded, w.urls, w'.yielded, w'.urls, w'.urls[|w.urls|..]);
    forall j | 0 <= j < |w'.fetched| && c.Skips(w'.fetched[j])
      ensures SkipP(w'.fetched[j].url) in w'.progress
    {
      assert w'.fetched[j] == w.fetched[j];
      var k :| 0 <= k < |w.progress| && w.progress[k] == SkipP(w.fetched[j].url);
      assert w'.progress[k] == w.progress[k];
    }
    forall j | 0 <= j < |w'.fetched| - 1
      ensures LeafDone(c, w'.fetched[j], j + 1, w'.yielded)
    {
      assert w'.fetched[j] == w.fetched[j];
      assert LeafDone(c, w.fetched[j], j + 1, w.yielded);
    }
  }

  /** The reports of a leaf that reaches `maxUrls`: the marks passed, then
      `stop`. */
  lemma {:induction false} LeafStop(c: Config, p: seq<Progress>, a: nat, b: nat, progress: seq<Progress>)
    requires ReportsBody(c, p, a) && a <= b
    requires progress == p + UrlsMarks(a, b) + StopMark(true, c.maxUrls, b)
    ensures |progress| > 0 && progress[|progress| - 1] == StopP(c.maxUrls, b)
    ensures ReportsBody(c, progress[..|progress| - 1], b)
  {
    UrlsMarksSound(a, b);
    BodyAfter(c, p, a, UrlsMarks(a, b), b, p + UrlsMarks(a, b));
    assert progress[..|progress| - 1] == p + UrlsMarks(a, b);
  }

  /** A leaf fetched while the signal was clear and read to the end has all
      its URLs yielded. */
  lemma {:induction false} LeafDoneAfter(c: Config, e: Entry, nodes: seq<UrlNode>, begun: nat, known: set<string>,
                                         urls0: seq<UrlEvent>, yielded': set<string>, urls': seq<UrlEvent>)
    requires c.fetch(e.url) == Parsed(Leaf(nodes))
    requires forall u :: u in known <==> u in EventUrls(urls0)
    requires forall u :: u in yielded' <==> u in EventUrls(urls')
    requires !IsAborted(c.abortAfter, begun) ==> urls' == urls0 + LeafYield(nodes, known, c.base, c.resolve)
    ensures LeafDone(c, e, begun, yielded')
  {
    if !IsAborted(c.abortAfter, begun) {
      var more := LeafYield(nodes, known, c.base, c.resolve);
      EventUrlsAppend(urls0, more);
      forall u | u in known
        ensures u in yielded'
      {
        var k :| 0 <= k < |urls0| && EventUrls(urls0)[k] == u;
        assert EventUrls(urls')[k] == u;
      }
      forall k | 0 <= k < |more|
        ensures more[k].url in yielded'
      {
        assert EventUrls(urls')[|urls0| + k] == more[k].url;
      }
      LeafComplete(nodes, known, c.base, c.resolve, yielded');
      assert c.Events(e) == LeafEvents(nodes, c.base, c.resolve);
    }
  }

  /** Yielding more events only adds to `yielded`. */
  lemma {:induction false} YieldedGrow(known: set<string>, urls0: seq<UrlEvent>, yielded': set<string>, urls': seq<UrlEvent>,
                                       more: seq<UrlEvent>)
    requires forall u :: u in known <==> u in EventUrls(urls0)
    requires forall u :: u in yielded' <==> u in EventUrls(urls')
    requires urls' == urls0 + more
    ensures known <= yielded'
  {
    EventUrlsAppend(urls0, more);
    forall u | u in known
      ensures u in yielded'
    {
      var k :| 0 <= k < |urls0| && EventUrls(urls0)[k] == u;
      assert EventUrls(urls')[k] == u;
    }
  }

  /** A leaf that does not reach `maxUrls`: the walk goes on. */
  lemma {:induction false} LeafGoOn(c: Config, w: Walk, w': Walk, nodes: seq<UrlNode>, threw: bool, more: seq<UrlEvent>)
    requires WalkInv(c, w) && w.queue != [] && w.queue[0].url !in w.visited
    requires c.fetch(w.queue[0].url) == Parsed(Leaf(nodes))
    requires threw <==> IsAborted(c.abortAfter, |w.fetched| + 1) && |nodes| > 0
    requires threw ==> more == [] && w'.yielded == w.yielded && w'.progress == w.progress
    requires !threw ==> more == LeafYield(nodes, w.yielded, c.base, c.resolve)
                        && w'.progress == w.progress + UrlsMarks(|w.urls|, |w'.urls|)
    requires w'.urls == w.urls + more
    requires forall u :: u in w'.yielded <==> u in EventUrls(w'.urls)
    requires |w'.urls| < Max(1, c.maxUrls)
    requires w'.queue == w.queue[1..] && w'.visited == w.visited + {w.queue[0].url}
    requires w'.fetched == w.fetched + [w.queue[0]]
    requires TraceOk(c, w') && YieldOk(c, w')
    ensures WalkInv(c, w') && Shorter(c, w, w')
  {
    var e := w.queue[0];
    assert ReportsOk(c, w') by {
      var extra := if threw then [] else UrlsMarks(|w.urls|, |w'.urls|);
      assert w'.progress == w.progress + extra;
      UrlsMarksSound(|w.urls|, |w'.urls|);
      ReportsAfter(c, w, w', extra);
    }
    assert QueueOk(c, w') && Shorter(c, w, w') by {
      assert w'.queue == w.queue[1..] + AtDepth([], e.depth + 1);
      assert !c.Expands(e);
      QueueAfter(c, w, w', []);
    }
    assert LeavesOk(c, w', |w'.fetched|) by {
      LeafDoneAfter(c, e, nodes, |w'.fetched|, w.yielded, w.urls, w'.yielded, w'.urls);
      YieldedGrow(w.yielded, w.urls, w'.yielded, w'.urls, more);
      LeavesAfter(c, w, w');
    }
  }

  /* ------------------------------ the passes ----------------------------- */

  /** The loop of line 93 goes on: the queue is not empty, the signal is
      clear at its top (line 94) and fewer than `max(1, maxUrls)` URLs are
      out (line 135 returns once that many are). */
  predicate GoesOn(c: Config, w: Walk) {
    w.queue != [] && !IsAborted(c.abortAfter, |w.fetched|) && |w.urls| < Max(1, c.maxUrls)
  }

  /** The events a leaf read with the signal clear adds: its URLs not yet
      yielded, each once and in document order, cut where the total reaches
      `max(1, maxUrls)`. */
  function LeafTake(c: Config, w: Walk, nodes: seq<UrlNode>): seq<UrlEvent> {
    var more := LeafYield(nodes, w.yielded, c.base, c.resolve);
    var room := Max(1, c.maxUrls) - |w.urls|;
    if 0 <= room <= |more| then more[..room] else more
  }

  /** The walk after a leaf read with the signal clear: the events it adds,
      their `urls` reports and, when the total reaches `max(1, maxUrls)`, the
      `stop` report. */
  function LeafPass(c: Config, w: Walk, nodes: seq<UrlNode>): Walk
    requires w.queue != []
  {
    var got := LeafTake(c, w, nodes);
    var urls := w.urls + got;
    Enter(w).(successful := true, yielded := w.yielded + (set ev | ev in got :: ev.url), urls := urls,
              progress := w.progress + UrlsMarks(|w.urls|, |urls|) + StopMark(|urls| >= Max(1, c.maxUrls), c.maxUrls, |urls|))
  }

  /** One pass of the loop body of lines 94-148: the head is shifted and
      dropped when visited; otherwise it is visited, its fetch begins, and a
      failure records its message, an index at `maxDepth` or deeper is
      reported as skipped, an index above it queues one level deeper the
      children neither visited nor queued (line 115, so the first route to a
      sitemap wins), and a leaf throws at its first `<url>` when the signal
      is set or else yields its new URLs. */
  function Advance(c: Config, w: Walk): Walk {
    if w.queue == [] then w
    else
      var e := w.queue[0];
      if e.url in w.visited then w.(queue := w.queue[1..])
      else
        var w1 := Enter(w);
        match c.fetch(e.url)
        case Failed(m) => w1.(lastError := Some(m))
        case Parsed(Index(locs)) =>
          if e.depth >= c.maxDepth then w1.(successful := true, progress := w.progress + [SkipP(e.url)])
          else
            w1.(successful := true,
                queue := w1.queue + AtDepth(Fresh(ChildUrls(locs, c.base, c.resolve), w1.visited + UrlSet(w1.queue)), e.depth + 1))
        case Parsed(Leaf(nodes)) =>
          if IsAborted(c.abortAfter, |w1.fetched|) && |nodes| > 0 then w1.(successful := true, lastError := Some("Aborted"))
          else LeafPass(c, w, nodes)
  }

  /** The passes of the walk of `c`, over the sitemaps it fetches. */
  function Visits(c: Config): Walk -> Walk {
    w => Advance(c, w)
  }

  /** The walk after `n` passes made by `step` from `w0`, or where the loop
      left off when that came first. */
  function Walked(c: Config, step: Walk -> Walk, w0: Walk, n: nat): Walk {
    if n == 0 then w0
    else
      var w := Walked(c, step, w0, n - 1);
      if GoesOn(c, w) then step(w) else w
  }

  /** Once the loop has left off, more passes change nothing. */
  lemma {:induction false} WalkedStays(c: Config, step: Walk -> Walk, w0: Walk, n: nat, k: nat)
    requires !GoesOn(c, Walked(c, step, w0, n))
    ensures Walked(c, step, w0, n + k) == Walked(c, step, w0, n)
    decreases k
  {
    if k > 0 {
      WalkedStays(c, step, w0, n, k - 1);
      assert Walked(c, step, w0, n + k) == Walked(c, step, w0, n + (k - 1));
    }
  }

  /** The walk leaves off in one state only: any two pass counts at which it
      has left off give the same walk, whatever `step` is. */
  lemma {:induction false} WalkStopSame(c: Config, step: Walk -> Walk, w0: Walk, n: nat, m: nat)
    requires !GoesOn(c, Walked(c, step, w0, n)) && !GoesOn(c, Walked(c, step, w0, m))
    ensures Walked(c, step, w0, n) == Walked(c, step, w0, m)
  {
    if n <= m {
      WalkedStays(c, step, w0, n, m - n);
    } else {
      WalkedStays(c, step, w0, m, n - m);
    }
  }

  /** What `EmitLeaf` leaves is `LeafPass`: the URLs it yields before it
      stops are the first of the leaf's new URLs, and it stops exactly when
      the leaf's new URLs reach `max(1, maxUrls)`. */
  lemma {:induction false} LeafPassOf(c: Config, w: Walk, nodes: seq<UrlNode>, yielded: set<string>, urls: seq<UrlEvent>,
                                      progress: seq<Progress>, stopped: bool, consumed: nat)
    requires w.queue != [] && |w.urls| < Max(1, c.maxUrls)
    requires forall u :: u in w.yielded <==> u in EventUrls(w.urls)
    requires forall u :: u in yielded <==> u in EventUrls(urls)
    requires consumed <= |nodes| && urls == w.urls + LeafYield(nodes[..consumed], w.yielded, c.base, c.resolve)
    requires progress == w.progress + UrlsMarks(|w.urls|, |urls|) + StopMark(stopped, c.maxUrls, |urls|)
    requires !stopped ==> consumed == |nodes| && |urls| < Max(1, c.maxUrls)
    requires stopped ==> |urls| == Max(1, c.maxUrls)
    ensures Enter(w).(successful := true, yielded := yielded, urls := urls, progress := progress) == LeafPass(c, w, nodes)
  {
    var more := LeafYield(nodes, w.yielded, c.base, c.resolve);
    var part := LeafYield(nodes[..consumed], w.yielded, c.base, c.resolve);
    var room := Max(1, c.maxUrls) - |w.urls|;
    LeafPrefix(nodes, consumed, w.yielded, c.base, c.resolve);
    if stopped {
      assert |part| == room && part == more[..room];
    } else {
      assert nodes[..consumed] == nodes;
    }
    var got := LeafTake(c, w, nodes);
    assert got == part;
    EventUrlsAppend(w.urls, got);
    assert yielded == w.yielded + (set ev | ev in got :: ev.url) by {
      forall u
        ensures u in yielded <==> u in w.yielded + (set ev | ev in got :: ev.url)
      {
        if u in EventUrls(got) {
          var k :| 0 <= k < |got| && EventUrls(got)[k] == u;
          assert got[k] in got;
        }
        if u in (set ev | ev in got :: ev.url) {
          var ev :| ev in got && ev.url == u;
          var k :| 0 <= k < |got| && got[k] == ev;
          assert EventUrls(got)[k] == u;
        }
      }
    }
  }

  /* ------------------------------ the loop ------------------------------- */

  /** One pass of the loop body of lines 94-148, after the abort check at
      line 95: the head is shifted and, unless already visited, fetched and
      handled as a failure, a skipped index, an expanded index or a leaf.
      The walk either goes on with a shorter queue measure or has just made
      the `stop` report. */
  method Visit(c: Config, w: Walk) returns (w': Walk, stopped: bool)
    requires WalkInv(c, w) && w.queue != [] && !IsAborted(c.abortAfter, |w.fetched|)
    ensures w' == Advance(c, w)
    ensures !stopped ==> WalkInv(c, w') && Shorter(c, w, w')
    ensures stopped ==> Halted(c, w')
  {
    var e := w.queue[0];
    stopped := false;
    if e.url in w.visited {
      VisitedStep(c, w);
      w' := w.(queue := w.queue[1..]);
      return;
    }
    var w1 := Enter(w);
    match c.fetch(e.url)
    case Failed(m) =>
      w' := w1.(lastError := Some(m));
      FailedStep(c, w, w', m);
    case Parsed(Index(locs)) =>
      if e.depth >= c.maxDepth {
        w' := w1.(successful := true, progress := w.progress + [SkipP(e.url)]);
        SkipStep(c, w, w', locs);
      } else {
        var q := EnqueueChildren(w1.queue, w1.visited, locs, c.base, c.resolve, e.depth + 1);
        ghost var kids := Fresh(ChildUrls(locs, c.base, c.resolve), w1.visited + UrlSet(w1.queue));
        w' := w1.(successful := true, queue := q);
        ExpandStep(c, w, w', locs, kids);
      }
    case Parsed(Leaf(nodes)) =>
      var yielded, urls, progress, threw;
      ghost var consumed;
      yielded, urls, progress, stopped, threw, consumed :=
        EmitLeaf(nodes, IsAborted(c.abortAfter, |w1.fetched|), c.base, c.resolve, c.maxUrls, w.yielded, w.urls, w.progress);
      w' := w1.(successful := true, yielded := yielded, urls := urls, progress := progress,
                lastError := if threw then Some("Aborted") else w.lastError);
      LeafStep(c, w, w', nodes, yielded, urls, progress, stopped, threw, consumed);
      LeafAdvance(c, w, w', nodes, yielded, urls, progress, stopped, threw, consumed);
  }

  /** `Walked` one pass further on, while the loop goes on. */
  lemma {:induction false} WalkedNext(c: Config, w0: Walk, n: nat)
    requires GoesOn(c, Walked(c, Visits(c), w0, n))
    ensures Walked(c, Visits(c), w0, n + 1) == Advance(c, Walked(c, Visits(c), w0, n))
  {
  }

  /** The `while (queue.length)` loop: it makes the passes of `Walked` until
      it leaves off, which it does with an empty queue, after the `stop`
      report, or by throwing `AbortError` at its top. */
  method RunWalk(c: Config, w0: Walk) returns (outcome: Outcome, w: Walk, ghost passes: nat)
    requires WalkInv(c, w0)
    ensures w == Walked(c, Visits(c), w0, passes) && outcome != BadBase
    ensures outcome == Stopped <==> |w.urls| >= Max(1, c.maxUrls)
    ensures outcome == Aborted <==> |w.urls| < Max(1, c.maxUrls) && w.queue != [] && IsAborted(c.abortAfter, |w.fetched|)
    ensures outcome == Finished <==> |w.urls| < Max(1, c.maxUrls) && w.queue == []
    ensures outcome != Stopped ==> WalkInv(c, w)
    ensures outcome == Stopped ==> Halted(c, w)
  {
    w, passes := w0, 0;
    while w.queue != []
      invariant WalkInv(c, w) && w == Walked(c, Visits(c), w0, passes)
      decreases Level(w.queue, Max(0, c.maxDepth)), Front(w.queue)
    {
      if IsAborted(c.abortAfter, |w.fetched|) {
        return Aborted, w, passes;
      }
      var stopped, w';
      w', stopped := Visit(c, w);
      WalkedNext(c, w0, passes);
      w, passes := w', passes + 1;
      if stopped {
        return Stopped, w, passes;
      }
    }
    outcome := Finished;
  }
}
