// The metadata helpers of scr/sw.js (lines 318-407) that prepare the items
// the topic classifier sees, and the settings the filter handler (lines
// 276-315) hands on to them.
//
// The URL parser and the network are oracles: `pathOf(u)` is `new
// URL(u).pathname` (None when the constructor throws) and `fetchHtml(u)` is
// the text of the response to `fetch(u)` (None when the request or the
// reading of the body rejects; the status is not looked at).

module Enrich {
  import opened Basics
  import opened Text
  import opened Limited
  import LlmFilter

  /* ------------------------------- slugOf -------------------------------- */

  /** `parts.filter(Boolean)`: the non-empty parts, in order. */
  function NonEmptyParts(parts: seq<string>): (r: seq<string>)
    ensures forall i :: 0 <= i < |r| ==> r[i] != [] && r[i] in parts
    decreases |parts|
  {
    if parts == [] then []
    else (if parts[0] == [] then [] else [parts[0]]) + NonEmptyParts(parts[1..])
  }

  /** `parts.slice(-2)`. */
  function LastTwo(parts: seq<string>): seq<string> {
    if |parts| <= 2 then parts else parts[|parts| - 2..]
  }

  /** The non-empty segments of the path of `u`. */
  function Segments(path: string): seq<string> {
    NonEmptyParts(Split(path, '/'))
  }

  /** `slugOf` (lines 359-367). */
  function SlugOf(u: string, pathOf: string -> Option<string>): string {
    match pathOf(u)
    case None => ""
    case Some(path) => Join(LastTwo(Segments(path)), '/')
  }

  /** The slug is empty for a URL that does not parse and for a path without
      segments; otherwise it splits at `/` into the last one or two non-empty
      segments of the path. */
  lemma {:induction false} SlugSpec(u: string, pathOf: string -> Option<string>)
    ensures pathOf(u).None? ==> SlugOf(u, pathOf) == ""
    ensures pathOf(u).Some? ==>
              var segs := Segments(pathOf(u).value);
              && (SlugOf(u, pathOf) == "" <==> segs == [])
              && (segs != [] ==> Split(SlugOf(u, pathOf), '/') == LastTwo(segs))
  {
    if pathOf(u).Some? {
      var path := pathOf(u).value;
      var parts := Split(path, '/');
      var segs := Segments(path);
      var last := LastTwo(segs);
      assert forall i :: 0 <= i < |last| ==> last[i] in segs;
      forall i | 0 <= i < |last|
        ensures '/' !in last[i] && last[i] != []
      {
        var w := last[i];
        assert w in parts;
        var k :| 0 <= k < |parts| && parts[k] == w;
      }
      if segs != [] {
        SplitJoin(last, '/');
        if |last| == 1 {
          assert Join(last, '/') == last[0];
        } else {
          assert Join(last, '/') == last[0] + ['/'] + Join(last[1..], '/');
        }
      }
    }
  }

  /* ------------------------------ sanitize ------------------------------- */

  lemma {:induction false} SliceKeepsSpaces(s: string, a: nat, b: nat)
    requires a <= b <= |s| && SpacesOnly(s) && NoDoubleWs(s)
    ensures SpacesOnly(s[a..b]) && NoDoubleWs(s[a..b])
  {
    assert forall i :: 0 <= i < b - a ==> s[a..b][i] == s[a + i];
  }

  /** The unescaping of lines 391-393, `&amp;` first. */
  function Unescape(s: string): string {
    ReplaceAll(ReplaceAll(ReplaceAll(s, "&amp;", "&"), "&lt;", "<"), "&gt;", ">")
  }

  /** `sanitize` (lines 388-396): whitespace runs collapsed to one space,
      the three entities unescaped, trimmed, cut to 300 characters. What
      comes out has at most 300 characters, its whitespace is single spaces
      and it does not start with one. */
  function Sanitize(s: string): (r: string)
    ensures |r| <= 300
    ensures SpacesOnly(r) && NoDoubleWs(r)
    ensures r == [] || !IsWs(r[0])
  {
    var x := CollapseWs(s);
    assert NoWs("&") && NoWs("<") && NoWs(">");
    var t := Trim(Unescape(x));
    TrimKeepsSpaces(Unescape(x));
    var r := Take(t, 300);
    SliceKeepsSpaces(t, 0, |r|);
    assert t[0..|r|] == r;
    r
  }

  lemma {:induction false} TrimKeepsSpaces(y: string)
    requires SpacesOnly(y) && NoDoubleWs(y)
    ensures SpacesOnly(Trim(y)) && NoDoubleWs(Trim(y))
  {
    var u := TrimStart(y);
    SliceKeepsSpaces(y, |y| - |u|, |y|);
    var t := TrimEnd(u);
    SliceKeepsSpaces(u, 0, |t|);
  }

  lemma {:induction false} NonWsHas(s: string, c: char)
    requires !IsWs(c)
    ensures c in s <==> c in NonWs(s)
    decreases |s|
  {
    if s != [] {
      NonWsHas(s[1..], c);
      assert NonWs(s) == (if IsWs(s[0]) then [] else [s[0]]) + NonWs(s[1..]);
      assert s == [s[0]] + s[1..];
    }
  }

  lemma {:induction false} NoAmpNoEntity(s: string, e: string)
    requires '&' !in s && |e| > 0 && e[0] == '&'
    ensures !Contains(s, e)
  {
    ContainsAt(s, e);
    assert forall i :: 0 <= i && i + |e| <= |s| ==> s[i..i + |e|][0] == s[i];
  }

  /** Only the three entities change: a string without `&` is collapsed,
      trimmed and cut to 300 characters and nothing else. */
  lemma {:induction false} SanitizePlain(s: string)
    requires '&' !in s
    ensures Sanitize(s) == Take(Trim(CollapseWs(s)), 300)
  {
    var x := CollapseWs(s);
    CollapseKeepsText(s);
    NonWsHas(s, '&');
    NonWsHas(x, '&');
    NoAmpNoEntity(x, "&amp;");
    NoAmpNoEntity(x, "&lt;");
    NoAmpNoEntity(x, "&gt;");
    ReplaceAbsent(x, "&amp;", "&");
    ReplaceAbsent(x, "&lt;", "<");
    ReplaceAbsent(x, "&gt;", ">");
  }

  /* ------------------------ extractTitle, extractMetaDescription ---------- */

  /** The pattern of line 379, `/<title[^>]*>(.*?)<\/title>/is`, matches at
      `i` with the opening tag closed at `j` and the capture ending where
      `</title>` starts at `k`. `[^>]*` cannot pass a `>`, so `j` is the first
      `>` after `<title`; the lazy `(.*?)` makes `k` the first `</title>`
      after it. The `i` flag folds ASCII letters only, since the pattern is
      ASCII and a non-ASCII character never folds to an ASCII one. */
  ghost predicate TitleAt(html: string, i: int, j: int, k: int) {
    && MatchesAtCI(html, "<title", i)
    && i + 6 <= j < |html| && html[j] == '>' && (forall m :: i + 6 <= m < j ==> html[m] != '>')
    && j + 1 <= k && MatchesAtCI(html, "</title>", k)
    && (forall m :: j + 1 <= m < k ==> !MatchesAtCI(html, "</title>", m))
  }

  /** Once `<title` is found at `i`, a match there closes its tag at the
      first `>` and ends at the first `</title>` after that. */
  lemma {:induction false} TitleWithin(html: string, i: nat)
    requires MatchesAtCI(html, "<title", i)
    ensures FindChar(html, '>', i + 6).None? ==> forall j, k :: !TitleAt(html, i, j, k)
    ensures FindChar(html, '>', i + 6).Some? ==>
              forall j, k :: TitleAt(html, i, j, k) <==>
                j == FindChar(html, '>', i + 6).value && FindCI(html, "</title>", j + 1) == Some(k)
  {
    forall j, k | TitleAt(html, i, j, k)
      ensures FindChar(html, '>', i + 6) == Some(j)
    {
      TitleOpen(html, i, j, k);
    }
    if FindChar(html, '>', i + 6).Some? {
      TitleClose(html, i, FindChar(html, '>', i + 6).value);
    }
  }

  /** The tag of a title match closes at the first `>`. */
  lemma {:induction false} TitleOpen(html: string, i: int, j: int, k: int)
    requires 0 <= i && TitleAt(html, i, j, k)
    ensures FindChar(html, '>', i + 6) == Some(j)
  {
    var t := FindChar(html, '>', i + 6);
    assert html[j] == '>';
    assert t.Some? && t.value <= j;
    assert html[t.value] == '>';
  }

  /** After the tag closes at `j`, a title match ends at the first
      `</title>`. */
  lemma {:induction false} TitleClose(html: string, i: int, j: nat)
    requires MatchesAtCI(html, "<title", i) && 0 <= i && FindChar(html, '>', i + 6) == Some(j)
    ensures forall k :: TitleAt(html, i, j, k) <==> FindCI(html, "</title>", j + 1) == Some(k)
  {
    var e := FindCI(html, "</title>", j + 1);
    forall k | TitleAt(html, i, j, k)
      ensures e == Some(k)
    {
      assert MatchesAtCI(html, "</title>", k);
      assert e.Some? && e.value <= k;
      assert MatchesAtCI(html, "</title>", e.value);
    }
    forall k | e == Some(k)
      ensures TitleAt(html, i, j, k)
    {
      assert forall m :: j + 1 <= m < k ==> !MatchesAtCI(html, "</title>", m);
      assert forall m :: i + 6 <= m < j ==> html[m] != '>';
    }
  }

  /** The capture of the leftmost match of the title pattern that starts at
      or after `from`. */
  function TitleFrom(html: string, from: nat): (r: Option<string>)
    ensures r.Some? ==> exists i, j, k :: from <= i && TitleAt(html, i, j, k) && r.value == html[j + 1..k]
                          && forall i', j', k' :: from <= i' < i ==> !TitleAt(html, i', j', k')
    ensures r.None? ==> forall i, j, k :: from <= i ==> !TitleAt(html, i, j, k)
    decreases |html| - from
  {
    match FindCI(html, "<title", from)
    case None => None
    case Some(i) =>
      TitleWithin(html, i);
      match FindChar(html, '>', i + 6)
      case None => TitleFrom(html, i + 1)
      case Some(j) =>
        match FindCI(html, "</title>", j + 1)
        case None => TitleFrom(html, i + 1)
        case Some(k) =>
          assert TitleAt(html, i, j, k);
          Some(html[j + 1..k])
  }

  /** `extractTitle` (lines 378-381): the sanitized capture, or empty when
      the page has no title. */
  function ExtractTitle(html: string): (t: string)
    ensures |t| <= 300 && SpacesOnly(t) && NoDoubleWs(t)
    ensures (forall i, j, k :: !TitleAt(html, i, j, k)) ==> t == ""
  {
    match TitleFrom(html, 0)
    case None => ""
    case Some(c) => Sanitize(c)
  }

  predicate IsQuote(c: char) {
    c == '"' || c == '\''
  }

  /** `name=["']description["']` at `p`: 18 characters. */
  predicate NameAt(html: string, p: int) {
    && MatchesAtCI(html, "name=", p) && p + 18 <= |html| && IsQuote(html[p + 5])
    && MatchesAtCI(html, "description", p + 6) && IsQuote(html[p + 17])
  }

  /** The first quote at or after `from`. */
  function FindQuote(html: string, from: nat): (r: Option<nat>)
    ensures r.Some? ==> from <= r.value < |html| && IsQuote(html[r.value])
    ensures r.Some? ==> forall m :: from <= m < r.value ==> !IsQuote(html[m])
    ensures r.None? ==> forall m :: from <= m < |html| ==> !IsQuote(html[m])
    decreases |html| - from
  {
    if from >= |html| then None
    else if IsQuote(html[from]) then Some(from)
    else FindQuote(html, from + 1)
  }

  /** `content=["']([^"']+)["']` at `q`: at least one character that is not
      a quote, up to the next quote. */
  predicate ContentAt(html: string, q: int) {
    && MatchesAtCI(html, "content=", q) && q + 9 < |html| && IsQuote(html[q + 8]) && !IsQuote(html[q + 9])
    && FindQuote(html, q + 9).Some?
  }

  /** The text captured by a content attribute at `q`: everything up to the
      next quote. */
  function CaptureAt(html: string, q: nat): (c: string)
    ensures ContentAt(html, q) ==> |c| > 0 && forall m :: 0 <= m < |c| ==> !IsQuote(c[m])
  {
    if q + 9 > |html| then ""
    else match FindQuote(html, q + 9)
      case None => ""
      case Some(e) => html[q + 9..e]
  }

  /** The pattern of line 384,
      `/<meta[^>]+name=["']description["'][^>]*content=["']([^"']+)["']/i`,
      matches at `i` with the name attribute at `p` and the content attribute
      at `q`; no `>` lies between `<meta` and the content attribute. */
  ghost predicate MetaAt(html: string, i: int, p: int, q: int) {
    && MatchesAtCI(html, "<meta", i) && i + 6 <= p && NameAt(html, p) && p + 18 <= q && ContentAt(html, q)
    && forall m :: i + 5 <= m < q ==> html[m] != '>'
  }

  /** The first name attribute in `[lo, hi)`. */
  function FirstName(html: string, lo: nat, hi: nat): (r: Option<nat>)
    ensures r.Some? ==> lo <= r.value < hi && NameAt(html, r.value)
    ensures r.Some? ==> forall p :: lo <= p < r.value ==> !NameAt(html, p)
    ensures r.None? ==> forall p :: lo <= p < hi ==> !NameAt(html, p)
    decreases hi - lo
  {
    if lo >= hi then None else if NameAt(html, lo) then Some(lo) else FirstName(html, lo + 1, hi)
  }

  /** The last content attribute in `[lo, hi)`. */
  function LastContent(html: string, lo: nat, hi: nat): (r: Option<nat>)
    ensures r.Some? ==> lo <= r.value < hi && ContentAt(html, r.value)
    ensures r.Some? ==> forall q :: r.value < q < hi ==> !ContentAt(html, q)
    ensures r.None? ==> forall q :: lo <= q < hi ==> !ContentAt(html, q)
    decreases hi
  {
    if lo >= hi then None else if ContentAt(html, hi - 1) then Some(hi - 1) else LastContent(html, lo, hi - 1)
  }

  /** The first `>` at or after `from`, or the end of the page. */
  function TagEnd(html: string, from: nat): (g: nat)
    ensures g <= |html| && (g < |html| ==> html[g] == '>')
    ensures forall m :: from <= m < g ==> html[m] != '>'
  {
    match FindChar(html, '>', from)
    case None => |html|
    case Some(g) => g
  }

  /** Once `<meta` is found at `i`, with `g` the first `>` after it (or the
      end of the page), a match there is a name attribute and a later content
      attribute, both before `g`. */
  lemma {:induction false} MetaWithin(html: string, i: nat, g: nat)
    requires MatchesAtCI(html, "<meta", i)
    requires g == TagEnd(html, i + 5)
    ensures forall p, q :: MetaAt(html, i, p, q) <==>
              i + 6 <= p && NameAt(html, p) && p + 18 <= q < g && ContentAt(html, q)
  {
    forall p, q | MetaAt(html, i, p, q)
      ensures q < g
    {
      assert html[q..q + 8][0] == html[q];
    }
  }

  /** The match the pattern finds searching from `from`: the leftmost start
      `i`, and there the last content attribute `q`. */
  ghost predicate FirstMeta(html: string, from: int, i: int, p: int, q: int) {
    && from <= i && MetaAt(html, i, p, q)
    && (forall i', p', q' :: from <= i' < i ==> !MetaAt(html, i', p', q'))
    && (forall p', q' :: MetaAt(html, i, p', q') ==> q' <= q)
  }

  ghost predicate NoMeta(html: string, from: int) {
    forall i, p, q :: from <= i ==> !MetaAt(html, i, p, q)
  }

  /** The content attribute of the match that starts at `i`, if any. */
  function MetaAtStart(html: string, i: nat): (r: Option<nat>)
    requires MatchesAtCI(html, "<meta", i)
    ensures r.Some? ==> (exists p :: MetaAt(html, i, p, r.value)) && forall p, q :: MetaAt(html, i, p, q) ==> q <= r.value
    ensures r.None? ==> forall p, q :: !MetaAt(html, i, p, q)
  {
    var g := TagEnd(html, i + 5);
    MetaWithin(html, i, g);
    match FirstName(html, i + 6, g)
    case None => None
    case Some(p) =>
      match LastContent(html, p + 18, g)
      case None => None
      case Some(q) =>
        assert MetaAt(html, i, p, q);
        Some(q)
  }

  /** What a search from `from` reports: the content attribute of the first
      match, or that there is none. */
  ghost predicate MetaResult(html: string, from: int, r: Option<nat>) {
    && (r.Some? ==> exists i, p :: FirstMeta(html, from, i, p, r.value))
    && (r.None? ==> NoMeta(html, from))
  }

  /** Skipping a start that cannot match keeps the first match. */
  lemma {:induction false} MetaSkip(html: string, from: nat, i: nat, r: Option<nat>)
    requires FindCI(html, "<meta", from) == Some(i) && MetaAtStart(html, i).None?
    requires MetaResult(html, i + 1, r)
    ensures MetaResult(html, from, r)
  {
    forall i', p, q | from <= i' <= i
      ensures !MetaAt(html, i', p, q)
    {
      if i' < i {
        assert !MatchesAtCI(html, "<meta", i');
      }
    }
    if r.Some? {
      var i2, p :| FirstMeta(html, i + 1, i2, p, r.value);
      forall i', p', q' | from <= i' < i2
        ensures !MetaAt(html, i', p', q')
      {
        if i' > i {
          assert i + 1 <= i' < i2;
        }
      }
      assert FirstMeta(html, from, i2, p, r.value);
    } else {
      forall i', p, q | from <= i'
        ensures !MetaAt(html, i', p, q)
      {
        if i' > i {
          assert i + 1 <= i';
        }
      }
    }
  }

  lemma {:induction false} MetaFound(html: string, from: nat, i: nat, q: nat)
    requires FindCI(html, "<meta", from) == Some(i) && MetaAtStart(html, i) == Some(q)
    ensures MetaResult(html, from, Some(q))
  {
    var p :| MetaAt(html, i, p, q);
    assert FirstMeta(html, from, i, p, q);
  }

  /** The content attribute of the first match of the description pattern
      at or after `from`: the leftmost start, and there the last content
      attribute, since the greedy `[^>]+` and `[^>]*` are backtracked from
      the longest. */
  function MetaFrom(html: string, from: nat): (r: Option<nat>)
    ensures r.Some? ==> exists i, p :: FirstMeta(html, from, i, p, r.value)
    ensures r.None? ==> NoMeta(html, from)
    decreases |html| - from
  {
    match FindCI(html, "<meta", from)
    case None => None
    case Some(i) =>
      match MetaAtStart(html, i)
      case None =>
        var r := MetaFrom(html, i + 1);
        MetaSkip(html, from, i, r);
        r
      case Some(q) =>
        MetaFound(html, from, i, q);
        Some(q)
  }

  /** `extractMetaDescription` (lines 383-386): the sanitized capture, or
      empty when no description tag matches. */
  function ExtractMetaDescription(html: string): (d: string)
    ensures |d| <= 300 && SpacesOnly(d) && NoDoubleWs(d)
    ensures NoMeta(html, 0) ==> d == ""
  {
    match MetaFrom(html, 0)
    case None => ""
    case Some(q) => Sanitize(CaptureAt(html, q))
  }

  /* ------------------------------ buildItems ----------------------------- */

  /** Where `buildItems` gets its pages and URL paths from. */
  datatype Sources = Sources(pathOf: string -> Option<string>, fetchHtml: string -> Option<string>)

  /** The item pushed for `u` before any fetch: URL and slug only. */
  function Bare(u: string, src: Sources): LlmFilter.Item {
    LlmFilter.Item(u, None, None, Some(SlugOf(u, src.pathOf)))
  }

  /** Lines 335-340: a page that was read gives the item its title and
      description; a failed fetch leaves the item as it was. */
  function Fetched(it: LlmFilter.Item, src: Sources): LlmFilter.Item {
    match src.fetchHtml(it.url)
    case None => it
    case Some(html) => it.(title := Some(ExtractTitle(html)), description := Some(ExtractMetaDescription(html)))
  }

  /** Line 351, `it.title = it.title || ''`. */
  function Defaulted(it: LlmFilter.Item): LlmFilter.Item {
    it.(title := Some(it.title.GetOr("")))
  }

  /** `items.find((x) => x.url === u)`: the first item with URL `u`. */
  function FindUrl(items: seq<LlmFilter.Item>, u: string): (r: Option<nat>)
    ensures r.Some? ==> r.value < |items| && items[r.value].url == u
    ensures r.Some? ==> forall k :: 0 <= k < r.value ==> items[k].url != u
    ensures r.None? ==> forall k :: 0 <= k < |items| ==> items[k].url != u
  {
    if items == [] then None
    else if items[0].url == u then Some(0)
    else match FindUrl(items[1..], u)
      case None => None
      case Some(k) => Some(k + 1)
  }

  /** Item `j` is the first one with its URL: the only one `find` returns. */
  predicate FirstOf(urls: seq<string>, j: nat)
    requires j < |urls|
  {
    urls[j] !in urls[..j]
  }

  /** Item `j` once the first `i` URLs have been fetched. */
  function AfterFetch(urls: seq<string>, src: Sources, i: nat, j: nat): LlmFilter.Item
    requires j < |urls|
  {
    if FirstOf(urls, j) && j < i then Fetched(Bare(urls[j], src), src) else Bare(urls[j], src)
  }

  /** Item `j` once the first `n` URLs have been fetched and the URLs in
      `[n, m)` defaulted. */
  function AfterRest(urls: seq<string>, src: Sources, n: nat, m: nat, j: nat): LlmFilter.Item
    requires j < |urls| && n <= m <= |urls|
  {
    var it := AfterFetch(urls, src, n, j);
    if FirstOf(urls, j) && urls[j] in urls[n..m] then Defaulted(it) else it
  }

  /** The progress payloads of lines 332 and 344: a start event, then one
      event per fetched URL, failed or not. */
  datatype MetaProgress = MetaProgress(completed: nat, total: nat)

  /** What `buildItems` leaves in item `j` when the first `n` URLs are
      fetched: every item keeps its URL and slug; a later copy of a URL
      stays bare; the first copy of a fetched URL gets its page's title and
      description when the page was read, and an empty title when it was not
      but the URL also lies past the first `n`; the first copy of any other
      URL gets an empty title and no description. A title or description is
      never longer than 300 characters. */
  lemma {:induction false} BuiltItem(urls: seq<string>, src: Sources, n: nat, j: nat)
    requires n <= |urls| && j < |urls|
    ensures var it := AfterRest(urls, src, n, |urls|, j);
            && it.url == urls[j] && it.slug == Some(SlugOf(urls[j], src.pathOf))
            && (!FirstOf(urls, j) ==> it == Bare(urls[j], src))
            && (FirstOf(urls, j) && j < n && src.fetchHtml(urls[j]).Some? ==>
                  var html := src.fetchHtml(urls[j]).value;
                  it.title == Some(ExtractTitle(html)) && it.description == Some(ExtractMetaDescription(html)))
            && (FirstOf(urls, j) && j < n && src.fetchHtml(urls[j]).None? ==>
                  it.description == None && (it.title.Some? <==> urls[j] in urls[n..]))
            && (FirstOf(urls, j) && n <= j ==> it.title == Some("") && it.description == None)
            && (it.title.Some? ==> |it.title.value| <= 300)
            && (it.description.Some? ==> |it.description.value| <= 300)
  {
    if n <= j {
      assert urls[n..][j - n] == urls[j];
    }
  }

  /** `buildItems(urls, limit, { concurrency: 4, ... })` (lines 320-357).
      `limit` is `Math.max(0, ...)` in its one caller. The worker runs are
      taken in the order the runners are handed them; since a page read
      twice reads the same, the order the writes land in makes no
      difference. */
  method BuildItems(urls: seq<string>, limit: nat, src: Sources, next: nat -> nat)
    returns (items: seq<LlmFilter.Item>, progress: seq<MetaProgress>)
    ensures |items| == |urls|
    ensures forall j :: 0 <= j < |urls| ==> items[j] == AfterRest(urls, src, Min(limit, |urls|), |urls|, j)
    ensures |progress| == Min(limit, |urls|) + 1
    ensures forall k :: 0 <= k < |progress| ==> progress[k] == MetaProgress(k, Min(limit, |urls|))
  {
    var n := Min(limit, |urls|);
    items := [];
    for k := 0 to |urls|
      invariant |items| == k
      invariant forall j :: 0 <= j < k ==> items[j] == Bare(urls[j], src)
    {
      items := items + [Bare(urls[k], src)];
    }
    progress := [MetaProgress(0, n)];
    var runners, handed := RunLimited(n, 4, next);
    assert |handed| == n;
    for k := 0 to |handed|
      invariant |items| == |urls| && |progress| == k + 1
      invariant forall j :: 0 <= j < |urls| ==> items[j] == AfterFetch(urls, src, k, j)
      invariant forall c :: 0 <= c < |progress| ==> progress[c] == MetaProgress(c, n)
    {
      items := FetchOne(urls, src, items, handed[k].index);
      progress := progress + [MetaProgress(k + 1, n)];
    }
    for m := n to |urls|
      invariant |items| == |urls|
      invariant forall j :: 0 <= j < |urls| ==> items[j] == AfterRest(urls, src, n, m, j)
    {
      items := DefaultOne(urls, src, items, n, m);
    }
  }

  /** Every item keeps its URL, so `find` never misses: it returns the first
      position of the URL in the list, and that is the one the URL at `k`
      shares with every earlier copy. */
  lemma {:induction false} FindFirst(urls: seq<string>, items: seq<LlmFilter.Item>, k: nat)
    requires k < |urls| == |items|
    requires forall j :: 0 <= j < |items| ==> items[j].url == urls[j]
    ensures FindUrl(items, urls[k]).Some?
    ensures var j := FindUrl(items, urls[k]).value;
              j <= k && urls[j] == urls[k] && FirstOf(urls, j) && (FirstOf(urls, k) ==> j == k)
  {
    var r := FindUrl(items, urls[k]);
    assert items[k].url == urls[k];
    var j := r.value;
    assert forall i :: 0 <= i < j ==> urls[..j][i] == items[i].url;
    assert forall i :: 0 <= i < k ==> urls[..k][i] == urls[i];
  }

  /** One worker run of lines 334-346, on the URL at `k`. */
  method FetchOne(urls: seq<string>, src: Sources, items: seq<LlmFilter.Item>, k: nat)
    returns (items': seq<LlmFilter.Item>)
    requires k < |urls| == |items|
    requires forall j :: 0 <= j < |urls| ==> items[j] == AfterFetch(urls, src, k, j)
    ensures |items'| == |urls|
    ensures forall j :: 0 <= j < |urls| ==> items'[j] == AfterFetch(urls, src, k + 1, j)
  {
    items' := items;
    var u := urls[k];
    match src.fetchHtml(u)
    case None =>
      FetchMissed(urls, src, k);
    case Some(html) =>
      FindFirst(urls, items, k);
      var j := FindUrl(items, u).value;
      items' := items[j := items[j].(title := Some(ExtractTitle(html)), description := Some(ExtractMetaDescription(html)))];
      FetchHit(urls, src, items, k, j, html, items');
  }

  /** A failed fetch changes no item. */
  lemma {:induction false} FetchMissed(urls: seq<string>, src: Sources, k: nat)
    requires k < |urls| && src.fetchHtml(urls[k]).None?
    ensures forall j :: 0 <= j < |urls| ==> AfterFetch(urls, src, k + 1, j) == AfterFetch(urls, src, k, j)
  {
    forall j | 0 <= j < |urls|
      ensures AfterFetch(urls, src, k + 1, j) == AfterFetch(urls, src, k, j)
    {
      if j == k && FirstOf(urls, k) {
        assert Bare(urls[k], src).url == urls[k];
      }
    }
  }

  /** A page read for the URL at `k` fills in the first item with that URL,
      and only that one. */
  lemma {:induction false} FetchHit(urls: seq<string>, src: Sources, items: seq<LlmFilter.Item>, k: nat, j: nat,
                                    html: string, items': seq<LlmFilter.Item>)
    requires k < |urls| == |items| && src.fetchHtml(urls[k]) == Some(html)
    requires forall i :: 0 <= i < |urls| ==> items[i] == AfterFetch(urls, src, k, i)
    requires j <= k && urls[j] == urls[k] && FirstOf(urls, j) && (FirstOf(urls, k) ==> j == k)
    requires items' == items[j := items[j].(title := Some(ExtractTitle(html)), description := Some(ExtractMetaDescription(html)))]
    ensures forall i :: 0 <= i < |urls| ==> items'[i] == AfterFetch(urls, src, k + 1, i)
  {
    assert items'[j] == AfterFetch(urls, src, k + 1, j) by {
      assert Bare(urls[j], src).url == urls[k];
    }
    forall i | 0 <= i < |urls| && i != j
      ensures items'[i] == AfterFetch(urls, src, k + 1, i)
    {
      assert items'[i] == items[i];
      if i == k {
        assert !FirstOf(urls, k);
      }
    }
  }

  /** Defaulting the URL at `m` touches only the first item `j` with that
      URL, and defaulting twice is defaulting once. */
  lemma {:induction false} RestStep(urls: seq<string>, src: Sources, n: nat, m: nat, j: nat)
    requires n <= m < |urls| && j <= m && urls[j] == urls[m] && FirstOf(urls, j)
    ensures AfterRest(urls, src, n, m + 1, j) == Defaulted(AfterRest(urls, src, n, m, j))
    ensures forall i :: 0 <= i < |urls| && i != j ==> AfterRest(urls, src, n, m + 1, i) == AfterRest(urls, src, n, m, i)
  {
    assert urls[n..m + 1] == urls[n..m] + [urls[m]];
    forall i | 0 <= i < |urls| && i != j
      ensures AfterRest(urls, src, n, m + 1, i) == AfterRest(urls, src, n, m, i)
    {
      if FirstOf(urls, i) {
        assert urls[i] != urls[m] by {
          assert forall a :: 0 <= a < i ==> urls[..i][a] == urls[a];
          assert forall a :: 0 <= a < j ==> urls[..j][a] == urls[a];
        }
      }
    }
  }

  /** Line 351 on the URL at `m`. */
  method DefaultOne(urls: seq<string>, src: Sources, items: seq<LlmFilter.Item>, n: nat, m: nat)
    returns (items': seq<LlmFilter.Item>)
    requires n <= m < |urls| == |items|
    requires forall j :: 0 <= j < |urls| ==> items[j] == AfterRest(urls, src, n, m, j)
    ensures |items'| == |urls|
    ensures forall j :: 0 <= j < |urls| ==> items'[j] == AfterRest(urls, src, n, m + 1, j)
  {
    items' := items;
    var u := urls[m];
    FindFirst(urls, items, m);
    var j := FindUrl(items, u).value;
    items' := items[j := items[j].(title := Some(items[j].title.GetOr("")))];
    RestStep(urls, src, n, m, j);
  }
}
