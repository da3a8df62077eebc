// The sitemap walker of scr/lib/sitemap.js: from a seed it derives the site
// origin, guesses the usual sitemap locations, adds the `Sitemap:` records of
// robots.txt (the "other records" of section 2.2.4 of RFC 9309), and walks
// the tree of sitemap indexes and leaf sitemaps (Sitemaps XML protocol 0.9)
// breadth-first, yielding each page URL once and stopping at `maxUrls`.
//
// Network and XML are oracles: `originOf` is `new URL(s).origin` (None when
// the constructor throws), `resolve(ref, base)` is `new URL(ref, base).href`,
// `robots` is the body of a successful robots.txt response, and `fetch(url)`
// is the fetch-and-parse step of one sitemap (its failure message, or the
// parsed document). The abort signal is `abortAfter`: when it is `Some(k)`
// every check of `signal.aborted` made once `k` sitemap fetches have begun
// sees it set.

module Sitemap {
  import opened Basics
  import opened Text

  const DefaultMaxDepth: int := 3
  const DefaultMaxUrls: int := 20000

  /** A queued sitemap; `depth` is its sitemap-index nesting level. */
  datatype Entry = Entry(url: string, depth: int)

  /** One `<url>` element of a leaf sitemap: the trimmed text of its first
      `<loc>` and of its first `<lastmod>` ("" when missing). */
  datatype UrlNode = UrlNode(loc: string, lastmod: string)

  /** A parsed sitemap document. An index is any document with a `<sitemap>`
      element; `locs` holds the trimmed `<loc>` text of each of them. */
  datatype Doc = Index(locs: seq<string>) | Leaf(nodes: seq<UrlNode>)

  /** Fetching and parsing one sitemap: a non-2xx status, a network error or
      invalid XML gives `Failed` with the error's message. */
  datatype Fetched = Failed(message: string) | Parsed(doc: Doc)

  /** What the generator yields. */
  datatype UrlEvent = UrlEvent(url: string, lastmod: Option<string>)

  /** One call of `onProgress`, by stage; `Message`, `Discovered` and
      `UrlCount` give the event's `message`, `discovered` and `urls` fields. */
  datatype Progress =
    | AttemptP(origin: string)
    | RobotsP(found: nat)
    | SitemapFoundP(queued: nat)
    | SkipP(sitemap: string)
    | UrlsP(total: nat)
    | StopP(limit: int, total: nat)
    | ErrorP(text: string)
    | DoneP(total: nat)
  {
    function Stage(): string {
      match this
      case AttemptP(_) => "attempt"
      case RobotsP(_) => "robots"
      case SitemapFoundP(_) => "sitemap-found"
      case SkipP(_) => "skip"
      case UrlsP(_) => "urls"
      case StopP(_, _) => "stop"
      case ErrorP(_) => "error"
      case DoneP(_) => "done"
    }

    function Message(): Option<string> {
      match this
      case AttemptP(origin) => Some("Trying common sitemap paths for " + origin)
      case RobotsP(n) => Some("Found " + NatToString(n) + " sitemap(s) via robots.txt")
      case SitemapFoundP(_) => None
      case SkipP(url) => Some("Max depth reached at " + url)
      case UrlsP(n) => Some("Discovered " + NatToString(n) + " URL(s)")
      case StopP(limit, _) => Some("Reached maxUrls=" + IntToString(limit))
      case ErrorP(text) => Some(text)
      case DoneP(n) => Some("Done. " + NatToString(n) + " URL(s)")
    }

    function Discovered(): Option<nat> {
      if SitemapFoundP? then Some(queued) else None
    }

    function UrlCount(): Option<nat> {
      match this
      case UrlsP(n) => Some(n)
      case StopP(_, n) => Some(n)
      case DoneP(n) => Some(n)
      case _ => None
    }
  }

  /** How a run of the generator ends: it runs out of work, returns after
      the `stop` event, throws `AbortError`, or throws because the seed is not
      a URL. */
  datatype Outcome = Finished | Stopped | Aborted | BadBase

  /* ------------------------- base and candidates ------------------------- */

  predicate HasHttpScheme(s: string) {
    (|s| >= 7 && EqualsCI(s[..7], "http://")) || (|s| >= 8 && EqualsCI(s[..8], "https://"))
  }

  /** The string `normalizeBase` parses: the trimmed input, prefixed with
      `https://` unless it already starts with `http://` or `https://` in
      any letter case. */
  function WithScheme(input: string): (r: string)
    ensures HasHttpScheme(r)
  {
    var s := Trim(input);
    if HasHttpScheme(s) then s else "https://" + s
  }

  /** Normalising twice is normalising once: the scheme is added at most once
      and a second trim finds nothing to remove. */
  lemma {:induction false} WithSchemeIdempotent(input: string)
    ensures WithScheme(WithScheme(input)) == WithScheme(input)
  {
    var w := WithScheme(input);
    var s := Trim(input);
    if !HasHttpScheme(s) {
      SchemePrefixed(s);
    }
    TrimFixed(w);
  }

  lemma {:induction false} SchemePrefixed(s: string)
    requires s == [] || !IsWs(s[|s| - 1])
    ensures var w := "https://" + s; !IsWs(w[0]) && !IsWs(w[|w| - 1])
  {
  }

  lemma {:induction false} TrimFixed(w: string)
    requires w == [] || (!IsWs(w[0]) && !IsWs(w[|w| - 1]))
    ensures Trim(w) == w
  {
    TrimOfPadded([], w, []);
    assert [] + w + [] == w;
  }

  /** `normalizeBase`: the origin of the normalised seed; the walk then uses
      `origin + "/"` as its base. None when `new URL` throws. */
  function NormalizeBase(input: string, originOf: string -> Option<string>): Option<string> {
    originOf(WithScheme(input))
  }

  const CandidatePaths: seq<string> := [
    "/sitemap.xml", "/sitemap_index.xml", "/sitemap-index.xml", "/wp-sitemap.xml",
    "/sitemap1.xml", "/sitemap/", "/sitemap/sitemap.xml", "/sitemaps/sitemap.xml"
  ]

  /** `guessSitemapUrls`: each candidate path resolved against `origin + "/"`
      (a path-absolute reference replaces the path, so the result is `origin`
      followed by the path), deduplicated. */
  function GuessSitemapUrls(origin: string): (r: seq<string>)
    ensures |r| == |CandidatePaths|
    ensures forall i :: 0 <= i < |r| ==> r[i] == origin + CandidatePaths[i]
    ensures NoDups(r)
  {
    var candidates := seq(|CandidatePaths|, i requires 0 <= i < |CandidatePaths| => origin + CandidatePaths[i]);
    CandidatesDistinct(origin, candidates);
    DedupOfDistinct(candidates);
    Dedup(candidates)
  }

  lemma {:induction false} CandidatesDistinct(origin: string, candidates: seq<string>)
    requires |candidates| == |CandidatePaths|
    requires forall i :: 0 <= i < |candidates| ==> candidates[i] == origin + CandidatePaths[i]
    ensures NoDups(candidates)
  {
    forall i, j | 0 <= i < j < |candidates|
      ensures candidates[i] != candidates[j]
    {
      assert candidates[i][|origin|..] == CandidatePaths[i];
      assert candidates[j][|origin|..] == CandidatePaths[j];
    }
  }

  /* ------------------------------ robots.txt ----------------------------- */

  /** The target of a robots.txt line matching `/^\s*sitemap:\s*(.+)\s*$/i`,
      trimmed; None when the line does not match. The `.` of `(.+)` does not
      match line terminators, so a target with an inner line terminator does
      not match, and a record whose target is only whitespace matches with an
      empty target as long as one of those characters is not a line
      terminator. */
  function DirectiveTarget(line: string): Option<string> {
    var t := TrimStart(line);
    if |t| >= 8 && EqualsCI(t[..8], "sitemap:") then
      var rest := t[8..];
      var core := Trim(rest);
      if core != [] && SingleLine(core) then Some(core)
      else if core == [] && !AllTerminators(rest) then Some([])
      else None
    else None
  }

  /** No line terminator in `s`: what `.` matches. */
  predicate SingleLine(s: string)
    decreases |s|
  {
    s == [] || (!IsLineTerminator(s[0]) && SingleLine(s[1..]))
  }

  /** Every character of `s` is a line terminator. */
  predicate AllTerminators(s: string)
    decreases |s|
  {
    s == [] || (IsLineTerminator(s[0]) && AllTerminators(s[1..]))
  }

  lemma {:induction false} SingleLineAll(s: string)
    ensures SingleLine(s) <==> forall i :: 0 <= i < |s| ==> !IsLineTerminator(s[i])
    decreases |s|
  {
    if s != [] {
      SingleLineAll(s[1..]);
      assert forall i :: 0 < i < |s| ==> s[i] == s[1..][i - 1];
    }
  }

  /** A target is trimmed and holds no line terminator. */
  lemma {:induction false} DirectiveTargetShape(line: string)
    ensures var r := DirectiveTarget(line);
            r.Some? ==> r.value == [] || (!IsWs(r.value[0]) && !IsWs(r.value[|r.value| - 1]))
    ensures var r := DirectiveTarget(line);
            r.Some? ==> forall i :: 0 <= i < |r.value| ==> !IsLineTerminator(r.value[i])
  {
    var t := TrimStart(line);
    if |t| >= 8 && EqualsCI(t[..8], "sitemap:") {
      if Trim(t[8..]) != [] && SingleLine(Trim(t[8..])) {
        DirectiveOfCore(line, t);
        SingleLineAll(Trim(t[8..]));
      } else {
        DirectiveNoCore(line, t);
      }
    } else {
      DirectiveNeedsKey(line);
    }
  }

  lemma {:induction false} DirectiveNoCore(line: string, t: string)
    requires TrimStart(line) == t && |t| >= 8 && EqualsCI(t[..8], "sitemap:")
    requires !(Trim(t[8..]) != [] && SingleLine(Trim(t[8..])))
    ensures DirectiveTarget(line) == None || DirectiveTarget(line) == Some([])
  {
  }

  /** A record written as `Sitemap: <target>`, in any letter case and with
      any whitespace around it, yields its target. */
  lemma {:induction false} DirectiveOfRecord(lead: string, key: string, gap: string, target: string, trail: string)
    requires AllWs(lead) && AllWs(gap) && AllWs(trail)
    requires EqualsCI(key, "sitemap:")
    requires target != [] && NoWs(target)
    ensures DirectiveTarget(lead + key + gap + target + trail) == Some(target)
  {
    var u := gap + target + trail;
    var t := key + u;
    Regroup(lead, key, gap, target, trail);
    KeyStart(key);
    TrimStartDrop(lead, t);
    assert t[..8] == key && t[8..] == u;
    assert !IsWs(target[0]) && !IsWs(target[|target| - 1]);
    TrimOfPadded(gap, target, trail);
    NoWsNoTerminator(target);
    SingleLineAll(target);
    DirectiveOfCore(lead + t, t);
  }

  lemma {:induction false} Regroup(a: string, b: string, c: string, d: string, e: string)
    ensures a + b + c + d + e == a + (b + (c + d + e))
  {
  }

  lemma {:induction false} KeyStart(key: string)
    requires EqualsCI(key, "sitemap:")
    ensures |key| == 8 && !IsWs(key[0])
  {
    assert LowerAscii(key[0]) == 's';
  }

  lemma {:induction false} DirectiveOfCore(line: string, t: string)
    requires TrimStart(line) == t && |t| >= 8 && EqualsCI(t[..8], "sitemap:")
    requires Trim(t[8..]) != []
    requires SingleLine(Trim(t[8..]))
    ensures DirectiveTarget(line) == Some(Trim(t[8..]))
  {
  }

  lemma {:induction false} NoWsNoTerminator(s: string)
    requires NoWs(s)
    ensures forall i :: 0 <= i < |s| ==> !IsLineTerminator(s[i])
  {
    forall i | 0 <= i < |s|
      ensures !IsLineTerminator(s[i])
    {
      LineTerminatorIsWs(s[i]);
    }
  }

  /** A line that does not start (after whitespace) with `sitemap:` yields
      nothing. */
  lemma {:induction false} DirectiveNeedsKey(line: string)
    requires !(|TrimStart(line)| >= 8 && EqualsCI(TrimStart(line)[..8], "sitemap:"))
    ensures DirectiveTarget(line) == None
  {
  }

  /** `new URL(ref, base).href`, or `ref` itself when that throws
      (`absolutize`). */
  function Absolutize(ref: string, base: string, resolve: (string, string) -> Option<string>): string {
    match resolve(ref, base)
    case Some(u) => u
    case None => ref
  }

  /** What one robots.txt line contributes: its resolved target, if it is a
      `Sitemap:` record whose target resolves. */
  function LineSitemap(line: string, base: string, resolve: (string, string) -> Option<string>): seq<string> {
    match DirectiveTarget(line)
    case None => []
    case Some(t) => (match resolve(t, base) case Some(u) => [u] case None => [])
  }

  /** The sitemaps named by the lines, in order. */
  function RobotsSitemaps(lines: seq<string>, base: string, resolve: (string, string) -> Option<string>): seq<string>
    decreases |lines|
  {
    if lines == [] then []
    else RobotsSitemaps(lines[..|lines| - 1], base, resolve) + LineSitemap(lines[|lines| - 1], base, resolve)
  }

  /** A URL is discovered from robots.txt exactly when some line is a
      `Sitemap:` record whose target resolves to it. */
  lemma {:induction false} RobotsSitemapsExactly(lines: seq<string>, base: string, resolve: (string, string) -> Option<string>, u: string)
    ensures u in RobotsSitemaps(lines, base, resolve) <==>
            exists i :: 0 <= i < |lines| && LineSitemap(lines[i], base, resolve) == [u]
  {
    if u in RobotsSitemaps(lines, base, resolve) {
      RobotsSitemapsSound(lines, base, resolve, u);
    }
    if exists i :: 0 <= i < |lines| && LineSitemap(lines[i], base, resolve) == [u] {
      var i :| 0 <= i < |lines| && LineSitemap(lines[i], base, resolve) == [u];
      RobotsSitemapsComplete(lines, base, resolve, u, i);
    }
  }

  lemma {:induction false} RobotsSitemapsSound(lines: seq<string>, base: string, resolve: (string, string) -> Option<string>, u: string)
    requires u in RobotsSitemaps(lines, base, resolve)
    ensures exists i :: 0 <= i < |lines| && LineSitemap(lines[i], base, resolve) == [u]
    decreases |lines|
  {
    var init := lines[..|lines| - 1];
    var last := LineSitemap(lines[|lines| - 1], base, resolve);
    assert |last| <= 1;
    if u in RobotsSitemaps(init, base, resolve) {
      RobotsSitemapsSound(init, base, resolve, u);
      var i :| 0 <= i < |init| && LineSitemap(init[i], base, resolve) == [u];
      assert lines[i] == init[i];
    } else {
      assert last == [u];
    }
  }

  lemma {:induction false} RobotsSitemapsComplete(lines: seq<string>, base: string, resolve: (string, string) -> Option<string>,
                                                  u: string, i: nat)
    requires i < |lines| && LineSitemap(lines[i], base, resolve) == [u]
    ensures u in RobotsSitemaps(lines, base, resolve)
    decreases |lines|
  {
    var init := lines[..|lines| - 1];
    if i < |lines| - 1 {
      assert init[i] == lines[i];
      RobotsSitemapsComplete(init, base, resolve, u, i);
    }
  }

  /** The body of the loop of lines 200-207: the resolved target of a
      `Sitemap:` record, if any. */
  method LineTarget(line: string, base: string, resolve: (string, string) -> Option<string>)
    returns (more: seq<string>)
    ensures more == LineSitemap(line, base, resolve)
  {
    more := [];
    var m := DirectiveTarget(line);
    if m.Some? {
      var u := resolve(m.value, base);
      if u.Some? {
        more := [u.value];
      }
    }
  }

  /** `discoverFromRobots` after the fetch: the body (None when the request
      failed or was not OK, which yields no sitemaps) is split into lines and
      each `Sitemap:` record whose target resolves against the base is kept. */
  method DiscoverFromRobots(robots: Option<string>, base: string, resolve: (string, string) -> Option<string>)
    returns (out: seq<string>)
    ensures robots.None? ==> out == []
    ensures robots.Some? ==> out == RobotsSitemaps(Split(robots.value, '\n'), base, resolve)
  {
    out := [];
    if robots.None? {
      return;
    }
    var lines := Split(robots.value, '\n');
    var i := 0;
    while i < |lines|
      invariant 0 <= i <= |lines|
      invariant out == RobotsSitemaps(lines[..i], base, resolve)
    {
      var line := lines[i];
      assert lines[..i + 1][..i] == lines[..i];
      assert RobotsSitemaps(lines[..i + 1], base, resolve) == out + LineSitemap(line, base, resolve);
      var more := LineTarget(line, base, resolve);
      out := out + more;
      i := i + 1;
    }
    assert lines[..|lines|] == lines;
  }

  /* ------------------------------ the queue ------------------------------ */

  function QueueUrls(q: seq<Entry>): (r: seq<string>)
    ensures |r| == |q|
    ensures forall i :: 0 <= i < |q| ==> r[i] == q[i].url
  {
    seq(|q|, i requires 0 <= i < |q| => q[i].url)
  }

  function AtDepth(urls: seq<string>, depth: int): (r: seq<Entry>)
    ensures |r| == |urls|
    ensures forall i :: 0 <= i < |urls| ==> r[i] == Entry(urls[i], depth)
  {
    seq(|urls|, i requires 0 <= i < |urls| => Entry(urls[i], depth))
  }

  lemma {:induction false} UrlsAppend(a: seq<Entry>, b: seq<Entry>)
    ensures QueueUrls(a + b) == QueueUrls(a) + QueueUrls(b)
  {
  }

  lemma {:induction false} UrlsAtDepth(urls: seq<string>, depth: int)
    ensures QueueUrls(AtDepth(urls, depth)) == urls
  {
  }

  lemma {:induction false} AtDepthSnoc(s: seq<string>, x: string, depth: int)
    ensures AtDepth(s + [x], depth) == AtDepth(s, depth) + [Entry(x, depth)]
  {
  }

  /** The initial queue of lines 67-79: every distinct guessed candidate,
      then every robots.txt sitemap not seen before, all at depth 0. */
  method SeedQueue(attempts: seq<string>, robotUrls: seq<string>) returns (queue: seq<Entry>, discovered: set<string>)
    ensures queue == AtDepth(Dedup(attempts + robotUrls), 0)
    ensures forall u :: u in discovered <==> u in QueueUrls(queue)
  {
    var directSet := Dedup(attempts);
    discovered := set i | 0 <= i < |attempts| :: attempts[i];
    SeedDiscovered(attempts, discovered);
    queue := [];
    var i := 0;
    while i < |directSet|
      invariant 0 <= i <= |directSet|
      invariant queue == AtDepth(directSet[..i], 0)
    {
      AtDepthSnoc(directSet[..i], directSet[i], 0);
      assert directSet[..i + 1] == directSet[..i] + [directSet[i]];
      queue := queue + [Entry(directSet[i], 0)];
      i := i + 1;
    }
    assert directSet[..|directSet|] == directSet;
    queue, discovered := MergeRobots(attempts, robotUrls, queue, discovered);
    UrlsAtDepth(Dedup(attempts + robotUrls), 0);
  }

  /** The queue and `discovered` after the candidates `s`: each candidate
      once, in order, at depth 0. */
  ghost predicate Tracks(queue: seq<Entry>, discovered: set<string>, s: seq<string>) {
    queue == AtDepth(Dedup(s), 0) && forall u :: u in discovered <==> u in Dedup(s)
  }

  /** Lines 76-81: the robots.txt sitemaps not yet discovered join the queue. */
  method MergeRobots(attempts: seq<string>, robotUrls: seq<string>, queue0: seq<Entry>, discovered0: set<string>)
    returns (queue: seq<Entry>, discovered: set<string>)
    requires queue0 == AtDepth(Dedup(attempts), 0)
    requires forall u :: u in discovered0 <==> u in Dedup(attempts)
    ensures queue == AtDepth(Dedup(attempts + robotUrls), 0)
    ensures forall u :: u in discovered <==> u in Dedup(attempts + robotUrls)
  {
    queue, discovered := queue0, discovered0;
    assert attempts + robotUrls[..0] == attempts;
    var i := 0;
    while i < |robotUrls|
      invariant 0 <= i <= |robotUrls|
      invariant Tracks(queue, discovered, attempts + robotUrls[..i])
    {
      var u := robotUrls[i];
      assert attempts + robotUrls[..i + 1] == (attempts + robotUrls[..i]) + [u];
      TracksSnoc(queue, discovered, attempts + robotUrls[..i], u);
      if u !in discovered {
        discovered := discovered + {u};
        queue := queue + [Entry(u, 0)];
      }
      i := i + 1;
    }
    assert robotUrls[..|robotUrls|] == robotUrls;
  }

  /** One more candidate: pushed when it is not discovered yet. */
  lemma {:induction false} TracksSnoc(queue: seq<Entry>, discovered: set<string>, s: seq<string>, u: string)
    requires Tracks(queue, discovered, s)
    ensures u in discovered ==> Tracks(queue, discovered, s + [u])
    ensures u !in discovered ==> Tracks(queue + [Entry(u, 0)], discovered + {u}, s + [u])
  {
    DedupSnoc(s, u);
    AtDepthSnoc(Dedup(s), u, 0);
  }

  lemma {:induction false} SeedDiscovered(attempts: seq<string>, discovered: set<string>)
    requires discovered == set i | 0 <= i < |attempts| :: attempts[i]
    ensures forall u :: u in discovered <==> u in Dedup(attempts)
  {
    var d := Dedup(attempts);
    forall u | u in d
      ensures u in discovered
    {
      var k :| 0 <= k < |d| && d[k] == u;
      assert d[k] in attempts;
    }
  }

  /** The URLs of `cands` that are not `known`, each once, in first-occurrence
      order: what survives `!visitedSitemaps.has(u) && !queue.some(...)` when
      the queue grows as the candidates are pushed. */
  function Fresh(cands: seq<string>, known: set<string>): (r: seq<string>)
    ensures NoDups(r)
    ensures forall x :: x in r ==> x !in known && x in cands
    ensures forall x :: x in cands ==> x in known || x in r
    decreases |cands|
  {
    if cands == [] then []
    else
      var p := Fresh(cands[..|cands| - 1], known);
      var x := cands[|cands| - 1];
      assert forall i :: 0 <= i < |cands| - 1 ==> cands[i] == cands[..|cands| - 1][i];
      if x in known || x in p then p else p + [x]
  }

  /** The resolved child sitemaps an index lists, skipping empty `<loc>`s. */
  function ChildUrls(locs: seq<string>, base: string, resolve: (string, string) -> Option<string>): (r: seq<string>)
    ensures |r| <= |locs|
    decreases |locs|
  {
    if locs == [] then []
    else
      var p := ChildUrls(locs[..|locs| - 1], base, resolve);
      var l := locs[|locs| - 1];
      if l == [] then p else p + [Absolutize(l, base, resolve)]
  }

  ghost predicate ListedChild(locs: seq<string>, base: string, resolve: (string, string) -> Option<string>, x: string) {
    exists k :: 0 <= k < |locs| && locs[k] != [] && x == Absolutize(locs[k], base, resolve)
  }

  /** The children of an index are exactly its non-empty `<loc>`s, resolved. */
  lemma {:induction false} ChildUrlsExactly(locs: seq<string>, base: string, resolve: (string, string) -> Option<string>, x: string)
    ensures x in ChildUrls(locs, base, resolve) <==> ListedChild(locs, base, resolve, x)
    decreases |locs|
  {
    if locs != [] {
      var init := locs[..|locs| - 1];
      var l := locs[|locs| - 1];
      assert init + [l] == locs;
      ChildUrlsExactly(init, base, resolve, x);
      ListedSnoc(init, l, base, resolve, x);
    }
  }

  lemma {:induction false} ListedSnoc(init: seq<string>, l: string, base: string, resolve: (string, string) -> Option<string>,
                                      x: string)
    ensures ListedChild(init + [l], base, resolve, x) <==>
              ListedChild(init, base, resolve, x) || (l != [] && x == Absolutize(l, base, resolve))
  {
    var locs := init + [l];
    if ListedChild(init, base, resolve, x) {
      var k :| 0 <= k < |init| && init[k] != [] && x == Absolutize(init[k], base, resolve);
      assert locs[k] == init[k];
    }
    if ListedChild(locs, base, resolve, x) {
      var k :| 0 <= k < |locs| && locs[k] != [] && x == Absolutize(locs[k], base, resolve);
      if k < |init| {
        assert init[k] == locs[k];
      }
    }
    if l != [] && x == Absolutize(l, base, resolve) {
      assert locs[|init|] == l;
    }
  }

  function UrlSet(q: seq<Entry>): set<string> {
    set i | 0 <= i < |q| :: q[i].url
  }

  lemma {:induction false} FreshSnoc(cands: seq<string>, x: string, known: set<string>)
    ensures Fresh(cands + [x], known) == if x in known || x in Fresh(cands, known) then Fresh(cands, known) else Fresh(cands, known) + [x]
  {
    assert (cands + [x])[..|cands|] == cands;
  }

  lemma {:induction false} ChildUrlsSnoc(locs: seq<string>, l: string, base: string, resolve: (string, string) -> Option<string>)
    ensures ChildUrls(locs + [l], base, resolve) == if l == [] then ChildUrls(locs, base, resolve) else ChildUrls(locs, base, resolve) + [Absolutize(l, base, resolve)]
  {
    assert (locs + [l])[..|locs|] == locs;
  }

  lemma {:induction false} InQueued(queue: seq<Entry>, added: seq<string>, depth: int, x: string)
    ensures x in QueueUrls(queue + AtDepth(added, depth)) <==> x in UrlSet(queue) || x in added
  {
    UrlsAppend(queue, AtDepth(added, depth));
    UrlsAtDepth(added, depth);
    if x in QueueUrls(queue) {
      var k :| 0 <= k < |queue| && QueueUrls(queue)[k] == x;
      assert queue[k].url == x;
    }
    if x in UrlSet(queue) {
      var k :| 0 <= k < |queue| && queue[k].url == x;
      assert QueueUrls(queue)[k] == x;
    }
  }

  /** Lines 110-118: each child of an index is pushed at `depth` unless it was
      visited or is already queued. */
  method EnqueueChildren(queue: seq<Entry>, visited: set<string>, locs: seq<string>, base: string,
                         resolve: (string, string) -> Option<string>, depth: int)
    returns (q: seq<Entry>)
    ensures q == queue + AtDepth(Fresh(ChildUrls(locs, base, resolve), visited + UrlSet(queue)), depth)
  {
    ghost var known := visited + UrlSet(queue);
    q := queue;
    var i := 0;
    while i < |locs|
      invariant 0 <= i <= |locs|
      invariant q == queue + AtDepth(Fresh(ChildUrls(locs[..i], base, resolve), known), depth)
    {
      var loc := locs[i];
      assert locs[..i + 1] == locs[..i] + [loc];
      ChildUrlsSnoc(locs[..i], loc, base, resolve);
      if loc != [] {
        var absolute := Absolutize(loc, base, resolve);
        EnqueueStep(queue, visited, ChildUrls(locs[..i], base, resolve), absolute, depth, q);
        if absolute !in visited && absolute !in QueueUrls(q) {
          q := q + [Entry(absolute, depth)];
        }
      }
      i := i + 1;
    }
    assert locs[..|locs|] == locs;
  }

  /** One more child: pushed exactly when it is neither visited nor queued. */
  lemma {:induction false} EnqueueStep(queue: seq<Entry>, visited: set<string>, cands: seq<string>, x: string, depth: int,
                                       q: seq<Entry>)
    requires q == queue + AtDepth(Fresh(cands, visited + UrlSet(queue)), depth)
    ensures x !in visited && x !in QueueUrls(q) ==>
              q + [Entry(x, depth)] == queue + AtDepth(Fresh(cands + [x], visited + UrlSet(queue)), depth)
    ensures !(x !in visited && x !in QueueUrls(q)) ==>
              q == queue + AtDepth(Fresh(cands + [x], visited + UrlSet(queue)), depth)
  {
    var known := visited + UrlSet(queue);
    var added := Fresh(cands, known);
    FreshSnoc(cands, x, known);
    InQueued(queue, added, depth, x);
    AtDepthSnoc(added, x, depth);
  }

  /* ----------------------------- leaf sitemaps --------------------------- */

  /** The event a `<url>` element yields: its resolved location and its
      `lastmod`, absent when empty. */
  function EventOf(node: UrlNode, base: string, resolve: (string, string) -> Option<string>): UrlEvent {
    UrlEvent(Absolutize(node.loc, base, resolve), if node.lastmod == [] then None else Some(node.lastmod))
  }

  /** The events of the `<url>` elements with a non-empty `<loc>`, in order. */
  function LeafEvents(nodes: seq<UrlNode>, base: string, resolve: (string, string) -> Option<string>): (r: seq<UrlEvent>)
    ensures |r| <= |nodes|
    decreases |nodes|
  {
    if nodes == [] then []
    else
      var p := LeafEvents(nodes[..|nodes| - 1], base, resolve);
      var n := nodes[|nodes| - 1];
      if n.loc == [] then p else p + [EventOf(n, base, resolve)]
  }

  function EventUrls(evs: seq<UrlEvent>): (r: seq<string>)
    ensures |r| == |evs|
    ensures forall i :: 0 <= i < |evs| ==> r[i] == evs[i].url
  {
    seq(|evs|, i requires 0 <= i < |evs| => evs[i].url)
  }

  /** The first event of each URL that is not `known`, in order: what the
      `yielded` set lets through. */
  function FreshEvents(evs: seq<UrlEvent>, known: set<string>): seq<UrlEvent>
    decreases |evs|
  {
    if evs == [] then []
    else
      var p := FreshEvents(evs[..|evs| - 1], known);
      var e := evs[|evs| - 1];
      if e.url in known || e.url in EventUrls(p) then p else p + [e]
  }

  /** What the `yielded` set lets through is new, comes from the leaf, names
      each URL once, and misses no URL of the leaf that was not yet known. */
  lemma {:induction false} FreshEventsSound(evs: seq<UrlEvent>, known: set<string>)
    ensures NoDups(EventUrls(FreshEvents(evs, known)))
    ensures forall i :: 0 <= i < |FreshEvents(evs, known)| ==>
              FreshEvents(evs, known)[i] in evs && FreshEvents(evs, known)[i].url !in known
    ensures forall i :: 0 <= i < |evs| ==> evs[i].url in known || evs[i].url in EventUrls(FreshEvents(evs, known))
    decreases |evs|
  {
    if evs != [] {
      var init := evs[..|evs| - 1];
      var e := evs[|evs| - 1];
      var p := FreshEvents(init, known);
      FreshEventsSound(init, known);
      assert forall i :: 0 <= i < |init| ==> evs[i] == init[i];
      if !(e.url in known || e.url in EventUrls(p)) {
        EventUrlsAppend(p, [e]);
        assert EventUrls([e]) == [e.url];
      }
    }
  }

  lemma {:induction false} EventUrlsAppend(a: seq<UrlEvent>, b: seq<UrlEvent>)
    ensures EventUrls(a + b) == EventUrls(a) + EventUrls(b)
  {
  }

  lemma {:induction false} FreshEventsSnoc(evs: seq<UrlEvent>, e: UrlEvent, known: set<string>)
    ensures FreshEvents(evs + [e], known) ==
            if e.url in known || e.url in EventUrls(FreshEvents(evs, known)) then FreshEvents(evs, known)
            else FreshEvents(evs, known) + [e]
  {
    assert (evs + [e])[..|evs|] == evs;
  }

  lemma {:induction false} FreshEventsPrefix(a: seq<UrlEvent>, b: seq<UrlEvent>, known: set<string>)
    ensures FreshEvents(a, known) <= FreshEvents(a + b, known)
    decreases |b|
  {
    if b == [] {
      assert a + b == a;
    } else {
      var b0 := b[..|b| - 1];
      FreshEventsPrefix(a, b0, known);
      assert a + b == (a + b0) + [b[|b| - 1]];
      FreshEventsSnoc(a + b0, b[|b| - 1], known);
    }
  }

  lemma {:induction false} LeafEventsSnoc(nodes: seq<UrlNode>, n: UrlNode, base: string, resolve: (string, string) -> Option<string>)
    ensures LeafEvents(nodes + [n], base, resolve) ==
            if n.loc == [] then LeafEvents(nodes, base, resolve) else LeafEvents(nodes, base, resolve) + [EventOf(n, base, resolve)]
  {
    assert (nodes + [n])[..|nodes|] == nodes;
  }

  lemma {:induction false} LeafEventsAppend(a: seq<UrlNode>, b: seq<UrlNode>, base: string, resolve: (string, string) -> Option<string>)
    ensures LeafEvents(a + b, base, resolve) == LeafEvents(a, base, resolve) + LeafEvents(b, base, resolve)
    decreases |b|
  {
    if b == [] {
      assert a + b == a;
    } else {
      var b0 := b[..|b| - 1];
      var n := b[|b| - 1];
      LeafEventsAppend(a, b0, base, resolve);
      assert a + b == (a + b0) + [n];
      assert b0 + [n] == b;
      LeafEventsSnoc(a + b0, n, base, resolve);
      LeafEventsSnoc(b0, n, base, resolve);
      if n.loc != [] {
        Assoc(LeafEvents(a, base, resolve), LeafEvents(b0, base, resolve), [EventOf(n, base, resolve)]);
      }
    }
  }

  /** Every event of a leaf names a non-empty `<loc>` of it, resolved. */
  lemma {:induction false} LeafEventsFrom(nodes: seq<UrlNode>, base: string, resolve: (string, string) -> Option<string>, e: UrlEvent)
    requires e in LeafEvents(nodes, base, resolve)
    ensures exists k :: 0 <= k < |nodes| && nodes[k].loc != [] && e == EventOf(nodes[k], base, resolve)
    decreases |nodes|
  {
    var init := nodes[..|nodes| - 1];
    if e in LeafEvents(init, base, resolve) {
      LeafEventsFrom(init, base, resolve, e);
      var k :| 0 <= k < |init| && init[k].loc != [] && e == EventOf(init[k], base, resolve);
      assert nodes[k] == init[k];
    } else {
      assert e == EventOf(nodes[|nodes| - 1], base, resolve);
    }
  }

  /** The events a leaf contributes after the URLs in `known`, one per new
      URL, in document order. */
  function LeafYield(nodes: seq<UrlNode>, known: set<string>, base: string, resolve: (string, string) -> Option<string>): seq<UrlEvent> {
    FreshEvents(LeafEvents(nodes, base, resolve), known)
  }

  /** The `urls` reports made while the total climbs from `a` to `b`: one at
      each multiple of 500. */
  function UrlsMarks(a: nat, b: nat): seq<Progress>
    decreases b
  {
    if b <= a then [] else UrlsMarks(a, b - 1) + Mark(b)
  }

  /** The report made when the total reaches `n` (line 132). */
  function Mark(n: nat): seq<Progress> {
    if n % 500 == 0 then [UrlsP(n)] else []
  }

  /** The report made when the walk stops at total `n` (line 136). */
  function StopMark(stopped: bool, maxUrls: int, n: nat): seq<Progress> {
    if stopped then [StopP(maxUrls, n)] else []
  }

  /** Each report names a multiple of 500 passed on the way. */
  lemma {:induction false} UrlsMarksSound(a: nat, b: nat)
    ensures forall i :: 0 <= i < |UrlsMarks(a, b)| ==>
              UrlsMarks(a, b)[i].UrlsP? && a < UrlsMarks(a, b)[i].total <= b && UrlsMarks(a, b)[i].total % 500 == 0
    decreases b
  {
    if a < b {
      UrlsMarksSound(a, b - 1);
    }
  }

  lemma {:induction false} Assoc<T>(a: seq<T>, b: seq<T>, c: seq<T>)
    ensures a + b + c == a + (b + c)
  {
  }

  lemma {:induction false} MarksStep(a: nat, b: nat)
    requires a <= b
    ensures UrlsMarks(a, b + 1) == UrlsMarks(a, b) + Mark(b + 1)
  {
  }

  /** Every multiple of 500 passed on the way is reported. */
  lemma {:induction false} UrlsMarksComplete(a: nat, b: nat, m: nat)
    requires a < m <= b && m % 500 == 0
    ensures UrlsP(m) in UrlsMarks(a, b)
    decreases b
  {
    if m < b {
      UrlsMarksComplete(a, b - 1, m);
    }
  }

  lemma {:induction false} UrlsMarksSplit(a: nat, b: nat, c: nat)
    requires a <= b <= c
    ensures UrlsMarks(a, c) == UrlsMarks(a, b) + UrlsMarks(b, c)
    decreases c
  {
    if b < c {
      UrlsMarksSplit(a, b, c - 1);
    }
  }

  /** Lines 120-140 for one leaf sitemap. `aborted` is the state of the
      abort signal, which no step of the leaf changes; when it is set the
      first node throws, which the walker catches. `consumed` counts the
      `<url>` elements looked at: all of them unless `maxUrls` was reached. */
  method EmitLeaf(nodes: seq<UrlNode>, aborted: bool, base: string, resolve: (string, string) -> Option<string>,
                  maxUrls: int, yielded0: set<string>, urls0: seq<UrlEvent>, progress0: seq<Progress>)
    returns (yielded: set<string>, urls: seq<UrlEvent>, progress: seq<Progress>, stopped: bool, threw: bool, ghost consumed: nat)
    requires forall u :: u in yielded0 <==> u in EventUrls(urls0)
    requires |urls0| < Max(1, maxUrls)
    ensures threw <==> aborted && |nodes| > 0
    ensures threw ==> !stopped && yielded == yielded0 && urls == urls0 && progress == progress0
    ensures forall u :: u in yielded <==> u in EventUrls(urls)
    ensures !threw ==>
              consumed <= |nodes| && urls == urls0 + LeafYield(nodes[..consumed], yielded0, base, resolve)
              && progress == progress0 + UrlsMarks(|urls0|, |urls|) + StopMark(stopped, maxUrls, |urls|)
    ensures !threw && !stopped ==> consumed == |nodes| && |urls| < Max(1, maxUrls)
    ensures stopped ==> |urls| == Max(1, maxUrls)
  {
    yielded, urls, progress, stopped, threw := yielded0, urls0, progress0, false, false;
    var i := 0;
    while i < |nodes|
      invariant 0 <= i <= |nodes|
      invariant aborted ==> i == 0
      invariant forall u :: u in yielded <==> u in EventUrls(urls)
      invariant urls == urls0 + LeafYield(nodes[..i], yielded0, base, resolve)
      invariant |urls| < Max(1, maxUrls)
      invariant progress == progress0 + UrlsMarks(|urls0|, |urls|)
    {
      if aborted {
        threw := true;
        consumed := 0;
        return;
      }
      ghost var yieldedBefore, urlsBefore, progressBefore := yielded, urls, progress;
      yielded, urls, progress, stopped := EmitNode(nodes[i], base, resolve, maxUrls, yielded, urls, progress);
      LeafLoopStep(nodes, i, base, resolve, maxUrls, yielded0, urls0, progress0,
                   yieldedBefore, urlsBefore, progressBefore, urls, progress, stopped);
      if stopped {
        consumed := i + 1;
        return;
      }
      i := i + 1;
    }
    consumed := i;
  }

  /** The body of the leaf loop for one `<url>` element, after the abort
      check: a new URL is yielded, reported at each 500th URL, and ends the
      walk once `maxUrls` is reached. */
  method EmitNode(node: UrlNode, base: string, resolve: (string, string) -> Option<string>, maxUrls: int,
                  yielded0: set<string>, urls0: seq<UrlEvent>, progress0: seq<Progress>)
    returns (yielded: set<string>, urls: seq<UrlEvent>, progress: seq<Progress>, stopped: bool)
    requires forall u :: u in yielded0 <==> u in EventUrls(urls0)
    ensures forall u :: u in yielded <==> u in EventUrls(urls)
    ensures node.loc == [] || EventOf(node, base, resolve).url in yielded0 ==>
              !stopped && yielded == yielded0 && urls == urls0 && progress == progress0
    ensures node.loc != [] && EventOf(node, base, resolve).url !in yielded0 ==>
              urls == urls0 + [EventOf(node, base, resolve)]
              && (stopped <==> |urls| >= maxUrls)
              && progress == progress0 + Mark(|urls|)
                                       + StopMark(stopped, maxUrls, |urls|)
  {
    yielded, urls, progress, stopped := yielded0, urls0, progress0, false;
    if node.loc == [] {
      return;
    }
    var absolute := Absolutize(node.loc, base, resolve);
    if absolute !in yielded {
      yielded := yielded + {absolute};
      var ev := UrlEvent(absolute, if node.lastmod == [] then None else Some(node.lastmod));
      EventUrlsAppend(urls, [ev]);
      assert EventUrls([ev]) == [absolute];
      urls := urls + [ev];
      if |urls| % 500 == 0 {
        progress := progress + [UrlsP(|urls|)];
      }
      if |urls| >= maxUrls {
        progress := progress + [StopP(maxUrls, |urls|)];
        stopped := true;
      }
    }
  }

  /** The leaf loop's invariant survives one node. */
  lemma {:induction false} LeafLoopStep(nodes: seq<UrlNode>, i: nat, base: string, resolve: (string, string) -> Option<string>, maxUrls: int,
                     yielded0: set<string>, urls0: seq<UrlEvent>, progress0: seq<Progress>,
                     yielded: set<string>, urls: seq<UrlEvent>, progress: seq<Progress>,
                     urls': seq<UrlEvent>, progress': seq<Progress>, stopped: bool)
    requires i < |nodes|
    requires forall u :: u in yielded0 <==> u in EventUrls(urls0)
    requires forall u :: u in yielded <==> u in EventUrls(urls)
    requires urls == urls0 + LeafYield(nodes[..i], yielded0, base, resolve)
    requires |urls| < Max(1, maxUrls)
    requires progress == progress0 + UrlsMarks(|urls0|, |urls|)
    requires nodes[i].loc == [] || EventOf(nodes[i], base, resolve).url in yielded ==>
               !stopped && urls' == urls && progress' == progress
    requires nodes[i].loc != [] && EventOf(nodes[i], base, resolve).url !in yielded ==>
               urls' == urls + [EventOf(nodes[i], base, resolve)]
               && (stopped <==> |urls'| >= maxUrls)
               && progress' == progress + Mark(|urls'|)
                                        + StopMark(stopped, maxUrls, |urls'|)
    ensures urls' == urls0 + LeafYield(nodes[..i + 1], yielded0, base, resolve)
    ensures progress' == progress0 + UrlsMarks(|urls0|, |urls'|) + StopMark(stopped, maxUrls, |urls'|)
    ensures !stopped ==> |urls'| < Max(1, maxUrls)
    ensures stopped ==> |urls'| == Max(1, maxUrls)
  {
    EmitStep(nodes, i, yielded0, urls0, urls, yielded, base, resolve);
    if nodes[i].loc != [] && EventOf(nodes[i], base, resolve).url !in yielded {
      PushedStep(urls0, LeafYield(nodes[..i], yielded0, base, resolve), EventOf(nodes[i], base, resolve),
                 maxUrls, progress0, urls, progress, urls', progress', stopped);
    } else {
      assert progress' == progress + [];
    }
  }

  lemma {:induction false} PushedStep(urls0: seq<UrlEvent>, done: seq<UrlEvent>, ev: UrlEvent, maxUrls: int, progress0: seq<Progress>,
                   urls: seq<UrlEvent>, progress: seq<Progress>, urls': seq<UrlEvent>, progress': seq<Progress>, stopped: bool)
    requires urls == urls0 + done
    requires |urls| < Max(1, maxUrls)
    requires progress == progress0 + UrlsMarks(|urls0|, |urls|)
    requires urls' == urls + [ev]
    requires stopped <==> |urls'| >= maxUrls
    requires progress' == progress + Mark(|urls'|)
                                   + StopMark(stopped, maxUrls, |urls'|)
    ensures urls' == urls0 + (done + [ev])
    ensures progress' == progress0 + UrlsMarks(|urls0|, |urls'|) + StopMark(stopped, maxUrls, |urls'|)
    ensures !stopped ==> |urls'| < Max(1, maxUrls)
    ensures stopped ==> |urls'| == Max(1, maxUrls)
  {
    var n := |urls|;
    assert |urls'| == n + 1;
    ReportStep(|urls0|, n, progress0, progress);
  }

  /** Reaching one more URL adds that URL's report to the reports so far. */
  lemma {:induction false} ReportStep(a: nat, b: nat, p0: seq<Progress>, p: seq<Progress>)
    requires a <= b
    requires p == p0 + UrlsMarks(a, b)
    ensures p + Mark(b + 1) == p0 + UrlsMarks(a, b + 1)
  {
    MarksStep(a, b);
    Assoc(p0, UrlsMarks(a, b), Mark(b + 1));
  }

  /** One node of the leaf loop, on the specification side. */
  lemma {:induction false} EmitStep(nodes: seq<UrlNode>, i: nat, yielded0: set<string>, urls0: seq<UrlEvent>, urls: seq<UrlEvent>,
                 yielded: set<string>, base: string, resolve: (string, string) -> Option<string>)
    requires i < |nodes|
    requires forall u :: u in yielded0 <==> u in EventUrls(urls0)
    requires forall u :: u in yielded <==> u in EventUrls(urls)
    requires urls == urls0 + LeafYield(nodes[..i], yielded0, base, resolve)
    ensures nodes[i].loc == [] ==> LeafYield(nodes[..i + 1], yielded0, base, resolve) == LeafYield(nodes[..i], yielded0, base, resolve)
    ensures nodes[i].loc != [] && EventOf(nodes[i], base, resolve).url in yielded ==>
              LeafYield(nodes[..i + 1], yielded0, base, resolve) == LeafYield(nodes[..i], yielded0, base, resolve)
    ensures nodes[i].loc != [] && EventOf(nodes[i], base, resolve).url !in yielded ==>
              LeafYield(nodes[..i + 1], yielded0, base, resolve) == LeafYield(nodes[..i], yielded0, base, resolve) + [EventOf(nodes[i], base, resolve)]
  {
    var node := nodes[i];
    var before := LeafEvents(nodes[..i], base, resolve);
    assert nodes[..i + 1] == nodes[..i] + [node];
    LeafEventsSnoc(nodes[..i], node, base, resolve);
    if node.loc != [] {
      var ev := EventOf(node, base, resolve);
      FreshEventsSnoc(before, ev, yielded0);
      EventUrlsAppend(urls0, LeafYield(nodes[..i], yielded0, base, resolve));
      assert ev.url in yielded <==> ev.url in yielded0 || ev.url in EventUrls(FreshEvents(before, yielded0));
    }
  }

  lemma {:induction false} LeafPrefix(nodes: seq<UrlNode>, i: nat, known: set<string>, base: string, resolve: (string, string) -> Option<string>)
    requires i <= |nodes|
    ensures LeafYield(nodes[..i], known, base, resolve) <= LeafYield(nodes, known, base, resolve)
  {
    assert nodes == nodes[..i] + nodes[i..];
    LeafEventsAppend(nodes[..i], nodes[i..], base, resolve);
    FreshEventsPrefix(LeafEvents(nodes[..i], base, resolve), LeafEvents(nodes[i..], base, resolve), known);
  }
}
