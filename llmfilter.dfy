// The topic classifier of scr/lib/llmFilter.js: URLs with their metadata are
// cut into batches, each batch is sent to a language-model endpoint, and the
// verdicts that come back are merged into one record keyed by URL, from
// which the matching URLs are selected.
//
// The endpoint is the oracle `send`: it maps the request a batch makes to
// the reply, which is a rejection (network failure or timeout) or a status
// with a body that is valid JSON or not. The caller's abort signal never
// reaches a request: `fetchWithTimeout` is called without its `signal`
// argument, and the timeout's signal replaces the one in `init`. `JSON.parse`, `Number(x)`
// on strings and objects, and `String(x)` on non-string keys are the
// oracles of `Js`. The batches are worked off in the order `runLimited` hands
// them out.

module LlmFilter {
  import opened Basics
  import opened Text
  import opened Limited

  /* ------------------------------ values -------------------------------- */

  /** The JavaScript values a parsed JSON body holds; finite numbers are
      reals. */
  datatype Value =
    | Undefined
    | Null
    | Bool(b: bool)
    | Num(x: real)
    | NaN
    | Str(s: string)
    | Arr(elems: seq<Value>)
    | Obj(fields: map<string, Value>)

  /** `!!v`. */
  predicate Truthy(v: Value) {
    match v
    case Undefined => false
    case Null => false
    case NaN => false
    case Bool(b) => b
    case Num(x) => x != 0.0
    case Str(s) => s != []
    case Arr(_) => true
    case Obj(_) => true
  }

  /** `v?.[key]` for the property names used here, which no primitive and no
      array has. */
  function Get(v: Value, key: string): Value {
    if v.Obj? && key in v.fields then v.fields[key] else Undefined
  }

  /** `v?.[0]`. */
  function First(v: Value): Value {
    match v
    case Arr(e) => if e == [] then Undefined else e[0]
    case Str(s) => if s == [] then Undefined else Str([s[0]])
    case Obj(f) => if "0" in f then f["0"] else Undefined
    case _ => Undefined
  }

  /** The oracles of the JavaScript runtime: `JSON.parse` (None when it
      throws), `Number(v)` for a string, array or object (None for NaN), and
      `String(v)` for a property key that is not a string. */
  datatype Js = Js(parse: string -> Option<Value>, numberOf: Value -> Option<real>, keyOf: Value -> string)

  /* ----------------------------- settings ------------------------------- */

  /** The classifier settings that shape the run; `endpoint`, `apiKey` and
      `model` only go into the request. */
  datatype Settings = Settings(provider: string, batchSize: Option<int>, concurrency: Option<int>, timeoutMs: Option<int>)

  /** `Math.max(1, settings.batchSize ?? 100)` (line 15). */
  function BatchSizeOf(s: Settings): (b: nat)
    ensures b >= 1
    ensures s.batchSize.None? ==> b == 100
    ensures s.batchSize.Some? ==> b == Max(1, s.batchSize.value)
  {
    Max(1, s.batchSize.GetOr(100))
  }

  /** `Math.max(1, Math.min(4, settings.concurrency ?? 2))` (line 16): a
      requested concurrency is kept when it lies in `[1, 4]` and is moved to
      the nearer bound otherwise. */
  function ConcurrencyOf(s: Settings): (c: nat)
    ensures 1 <= c <= 4
    ensures s.concurrency.None? ==> c == 2
    ensures s.concurrency.Some? && 1 <= s.concurrency.value <= 4 ==> c == s.concurrency.value
    ensures s.concurrency.Some? && s.concurrency.value < 1 ==> c == 1
    ensures s.concurrency.Some? && s.concurrency.value > 4 ==> c == 4
  {
    Max(1, Min(4, s.concurrency.GetOr(2)))
  }

  /** `settings.timeoutMs ?? 20000` (line 17). */
  function TimeoutOf(s: Settings): (t: int)
    ensures s.timeoutMs.None? ==> t == 20000
    ensures s.timeoutMs.Some? ==> t == s.timeoutMs.value
  {
    s.timeoutMs.GetOr(20000)
  }

  /* ------------------------------ batches ------------------------------- */

  /** The batches of lines 19-22: consecutive slices of `size` items, the
      last one possibly shorter. */
  function Batches<T>(items: seq<T>, size: nat): seq<seq<T>>
    requires size >= 1
    decreases |items|
  {
    if items == [] then [] else [items[..Min(size, |items|)]] + Batches(items[Min(size, |items|)..], size)
  }

  function Flatten<T>(bs: seq<seq<T>>): seq<T>
    decreases |bs|
  {
    if bs == [] then [] else bs[0] + Flatten(bs[1..])
  }

  /** The batches put back together are the items, none of them is empty,
      and each one but the last holds exactly `size` items. */
  lemma {:induction false} BatchesPartition<T>(items: seq<T>, size: nat)
    requires size >= 1
    ensures Flatten(Batches(items, size)) == items
    ensures forall k :: 0 <= k < |Batches(items, size)| ==> 0 < |Batches(items, size)[k]| <= size
    ensures forall k :: 0 <= k < |Batches(items, size)| - 1 ==> |Batches(items, size)[k]| == size
    decreases |items|
  {
    if items != [] {
      var m := Min(size, |items|);
      var rest := Batches(items[m..], size);
      BatchesPartition(items[m..], size);
      assert Batches(items, size) == [items[..m]] + rest;
      assert Flatten([items[..m]] + rest) == items[..m] + Flatten(rest) by {
        assert ([items[..m]] + rest)[1..] == rest;
      }
      assert items[..m] + items[m..] == items;
      if m < size {
        assert items[m..] == [];
      }
    }
  }

  /** The batches from `i` on: the one starting at `i`, then those from the
      next start. */
  lemma {:induction false} BatchesFrom<T>(items: seq<T>, size: nat, i: nat, j: nat)
    requires size >= 1 && i < |items| && j == Min(i + size, |items|)
    ensures Batches(items[i..], size) == [items[i..j]] + Batches(items[j..], size)
  {
    assert items[i..][..Min(size, |items[i..]|)] == items[i..j];
    assert items[i..][Min(size, |items[i..]|)..] == items[j..];
  }

  /** The `for` loop of lines 19-22. */
  method MakeBatches<T>(items: seq<T>, size: nat) returns (batches: seq<seq<T>>)
    requires size >= 1
    ensures batches == Batches(items, size)
  {
    batches := [];
    var i := 0;
    while i < |items|
      invariant 0 <= i
      invariant batches + Batches(items[Min(i, |items|)..], size) == Batches(items, size)
      decreases |items| - i
    {
      var j := Min(i + size, |items|);
      BatchesFrom(items, size, i, j);
      batches := batches + [items[i..j]];
      i := i + size;
      assert Min(i, |items|) == j;
    }
  }

  /* ------------------------------ requests ------------------------------ */

  datatype Item = Item(url: string, title: Option<string>, description: Option<string>, slug: Option<string>)

  /** `safe` of line 103: whitespace runs collapsed to one space, then at
      most 300 characters. */
  function Safe(s: Option<string>): (r: string)
    ensures |r| <= 300
    ensures SpacesOnly(r) && NoDoubleWs(r)
    ensures r <= CollapseWs(s.GetOr(""))
  {
    Take(CollapseWs(s.GetOr("")), 300)
  }

  /** A field that went through `safe` goes through it again unchanged. */
  lemma {:induction false} SafeIdempotent(s: Option<string>)
    ensures Safe(Some(Safe(s))) == Safe(s)
  {
    CollapseFixed(Safe(s));
  }

  const PromptHead1: string := "Classify URLs for topical relevance.\n"
  const PromptHead2: string := "Return ONLY a JSON array of objects: [{\"url\":\"<exact>\",\"match\":true|false,\"score\":0..1}].\n"
  const PromptHead3: string := "Use URL, title, description, and slug provided. Score higher if strongly related.\n"
  const PromptHead4: string := "Ensure the \"url\" exactly matches one of the items below.\n\nItems:\n"

  /** The line of the `i`-th item (line 104); the URL is not sanitised. */
  function PromptLine(i: nat, it: Item): string {
    NatToString(i + 1) + ") url: " + it.url + "\n   title: " + Safe(it.title) + "\n   description: "
      + Safe(it.description) + "\n   slug: " + Safe(it.slug) + "\n"
  }

  /** `buildUserPrompt` (lines 94-107). */
  function BuildUserPrompt(topic: string, batch: seq<Item>): string {
    PromptHead1 + "Topic: \"" + topic + "\".\n" + PromptHead2 + PromptHead3 + PromptHead4
      + Join(seq(|batch|, i requires 0 <= i < |batch| => PromptLine(i, batch[i])), '\n')
  }

  /** What a batch sends: the chat completion of the `openai` provider, whose
      user message is the prompt, or the generic `{topic, items}` body. */
  datatype Request = ChatRequest(prompt: string) | GenericRequest(topic: string, items: seq<Item>)

  /** The endpoint's answer: no response at all (`fetch` rejects with an
      error whose message is `message`), or a status with a body that is JSON
      (`Success`) or not (`Failure`: `res.json()` rejects with that message). */
  datatype Reply = Rejected(message: string) | Response(status: int, body: Result<Value, string>)

  /** Why a batch, and with it the whole classification, fails: a status
      outside 2xx, or a rejection, which keeps its message. */
  datatype LlmError = HttpStatus(status: int) | RequestFailed(message: string)

  /** The message of the error a failed batch throws: the text of lines 73
      and 89, or the message of the rejection. */
  function ErrorMessage(e: LlmError): string {
    match e
    case HttpStatus(status) => "LLM HTTP " + IntToString(status)
    case RequestFailed(message) => message
  }

  /** `res.ok` checked, then `res.json()` (lines 73-74, 89-90). */
  function Received(reply: Reply): (r: Result<Value, LlmError>)
    ensures r.Success? <==> reply.Response? && 200 <= reply.status <= 299 && reply.body.Success?
    ensures r.Success? ==> r.value == reply.body.value
    ensures reply.Rejected? ==> r == Failure(RequestFailed(reply.message))
    ensures reply.Response? && !(200 <= reply.status <= 299) ==> r == Failure(HttpStatus(reply.status))
    ensures reply.Response? && 200 <= reply.status <= 299 && reply.body.Failure? ==>
              r == Failure(RequestFailed(reply.body.error))
  {
    match reply
    case Rejected(message) => Failure(RequestFailed(message))
    case Response(status, body) =>
      if !(200 <= status <= 299) then Failure(HttpStatus(status))
      else if body.Failure? then Failure(RequestFailed(body.error))
      else Success(body.value)
  }

  /* ------------------------------ parsing ------------------------------- */

  /** `data?.choices?.[0]?.message?.content ?? ""` (line 75). */
  function ContentOf(data: Value): Value {
    var c := Get(Get(First(Get(data, "choices")), "message"), "content");
    if c.Undefined? || c.Null? then Str("") else c
  }

  /** The span from the first `[` to the last `]` of `text`. */
  ghost predicate ArraySpan(text: string, i: int, j: int) {
    0 <= i < j < |text| && text[i] == '[' && '[' !in text[..i] && text[j] == ']' && ']' !in text[j + 1..]
  }

  /** `safeParseArray` (lines 117-128): the span from the first `[` to the
      last `]`, when both exist in that order, parsed as JSON and kept only
      when it is an array. */
  function SafeParseArray(text: string, js: Js): (r: Option<seq<Value>>)
    ensures r.Some? <==> exists i, j :: ArraySpan(text, i, j) && js.parse(text[i..j + 1]).Some? && js.parse(text[i..j + 1]).value.Arr?
    ensures r.Some? ==> exists i, j :: ArraySpan(text, i, j) && js.parse(text[i..j + 1]) == Some(Arr(r.value))
  {
    SpanUnique(text);
    var start := IndexOf(text, '[');
    var end := LastIndexOf(text, ']');
    if start != -1 && end != -1 && end > start then
      match js.parse(text[start..end + 1])
      case Some(Arr(e)) => Some(e)
      case _ => None
    else None
  }

  /** There is at most one such span: the one `indexOf` and `lastIndexOf`
      find. */
  lemma {:induction false} SpanUnique(text: string)
    ensures forall i, j :: ArraySpan(text, i, j) ==> i == IndexOf(text, '[') && j == LastIndexOf(text, ']')
    ensures var start, end := IndexOf(text, '['), LastIndexOf(text, ']');
            start != -1 && end != -1 && end > start ==> ArraySpan(text, start, end)
  {
    var start, end := IndexOf(text, '['), LastIndexOf(text, ']');
    forall i, j | ArraySpan(text, i, j)
      ensures i == start && j == end
    {
      assert text[i] == '[' && text[j] == ']';
      assert forall k :: 0 <= k < i ==> text[..i][k] == text[k];
      assert forall k :: 0 <= k < start ==> text[..start][k] == text[k];
      assert forall k :: j < k < |text| ==> text[j + 1..][k - j - 1] == text[k];
      assert forall k :: 0 <= end < k < |text| ==> text[end + 1..][k - end - 1] == text[k];
    }
  }

  /** The verdicts every item of a batch gets when the reply has no array:
      `{url, match: false, score: 0}` (line 114). */
  function Fallback(batch: seq<Item>): (vs: seq<Value>)
    ensures |vs| == |batch|
  {
    seq(|batch|, i requires 0 <= i < |batch| => Obj(map["url" := Str(batch[i].url), "match" := Bool(false), "score" := Num(0.0)]))
  }

  /** `parseVerdicts` (lines 109-115). A content that is not a string is
      never a parsable array, so the fallback is used: `indexOf` either
      throws inside the `try` of `safeParseArray` (a number, boolean or
      object has no such method) or, on an array, can only slice out a run
      that starts with the element `"["`, whose text `"[,..."` is not JSON. */
  function ParseVerdicts(content: Value, batch: seq<Item>, js: Js): seq<Value> {
    if content.Str? then
      match SafeParseArray(content.s, js)
      case Some(arr) => arr
      case None => Fallback(batch)
    else Fallback(batch)
  }

  /** `classifyBatch` (lines 46-92): the verdict list of one batch, or the
      error that aborts the run. A request that gets no 2xx response with a
      JSON body fails the batch. With the chat provider, a content holding
      no JSON array gives every item the no-match verdict; with the generic
      one, a body that is not an array gives no verdict at all. */
  function ClassifyBatch(topic: string, batch: seq<Item>, provider: string, send: Request -> Reply, js: Js)
    : (r: Result<seq<Value>, LlmError>)
  {
    if provider == "openai" then
      match Received(send(ChatRequest(BuildUserPrompt(topic, batch))))
      case Failure(e) => Failure(e)
      case Success(data) => Success(ParseVerdicts(ContentOf(data), batch, js))
    else
      match Received(send(GenericRequest(topic, batch)))
      case Failure(e) => Failure(e)
      case Success(j) => Success(if j.Arr? then j.elems else [])
  }

  /** A batch fails exactly when its request gets no 2xx response with a
      JSON body; otherwise the chat provider's verdicts are the array its
      content holds or, failing that, the no-match verdicts, and the generic
      provider's are the body when it is an array and none otherwise. */
  lemma {:induction false} ClassifyBatchOutcome(topic: string, batch: seq<Item>, provider: string, send: Request -> Reply, js: Js)
    ensures var r := ClassifyBatch(topic, batch, provider, send, js);
            var reply := send(if provider == "openai" then ChatRequest(BuildUserPrompt(topic, batch))
                              else GenericRequest(topic, batch));
            && (r.Failure? <==> !(reply.Response? && 200 <= reply.status <= 299 && reply.body.Success?))
            && (r.Failure? ==> r == Failure(Received(reply).error))
            && (r.Success? && provider == "openai" ==>
                  var content := ContentOf(reply.body.value);
                  r.value == if content.Str? && SafeParseArray(content.s, js).Some? then SafeParseArray(content.s, js).value
                             else Fallback(batch))
            && (r.Success? && provider != "openai" ==>
                  r.value == if reply.body.value.Arr? then reply.body.value.elems else [])
  {
  }

  /* ------------------------------- merge -------------------------------- */

  datatype Verdict = Verdict(isMatch: bool, score: real)

  /** The `results` record: its keys in insertion order (the order
      `Object.keys` gives for keys that are not array indices) and the
      verdict of each. */
  datatype Record = Record(keys: seq<string>, vals: map<string, Verdict>) {
    ghost predicate Valid() {
      NoDups(keys) && forall k :: k in vals <==> k in keys
    }
  }

  const EmptyRecord: Record := Record([], map[])

  /** `Number(v.score ?? 0) || 0` (line 33). */
  function ScoreOf(s: Value, js: Js): real {
    match s
    case Undefined => 0.0
    case Null => 0.0
    case NaN => 0.0
    case Bool(b) => if b then 1.0 else 0.0
    case Num(x) => x
    case _ => js.numberOf(s).GetOr(0.0)
  }

  /** The property key `results[v.url]` writes. */
  function KeyOf(u: Value, js: Js): string {
    if u.Str? then u.s else js.keyOf(u)
  }

  /** What one verdict entry writes (lines 32-33): nothing when its `url` is
      missing or falsy, otherwise its key and `{match: !!v.match, score}`. */
  function EntryOf(v: Value, js: Js): Option<(string, Verdict)> {
    var u := Get(v, "url");
    if Truthy(u) then Some((KeyOf(u, js), Verdict(Truthy(Get(v, "match")), ScoreOf(Get(v, "score"), js)))) else None
  }

  function Put(r: Record, k: string, d: Verdict): Record {
    Record(if k in r.vals then r.keys else r.keys + [k], r.vals[k := d])
  }

  function MergeOne(r: Record, v: Value, js: Js): Record {
    match EntryOf(v, js)
    case None => r
    case Some(e) => Put(r, e.0, e.1)
  }

  /** The loop of lines 31-34 over a verdict list. */
  function Merge(r: Record, vs: seq<Value>, js: Js): Record
    decreases |vs|
  {
    if vs == [] then r else MergeOne(Merge(r, vs[..|vs| - 1], js), vs[|vs| - 1], js)
  }

  /** The key an entry writes, if any. */
  function KeyWritten(e: Option<(string, Verdict)>): seq<string> {
    match e
    case None => []
    case Some(p) => [p.0]
  }

  /** The keys the entries of `vs` write, in order. */
  function EntryKeys(vs: seq<Value>, js: Js): seq<string>
    decreases |vs|
  {
    if vs == [] then [] else EntryKeys(vs[..|vs| - 1], js) + KeyWritten(EntryOf(vs[|vs| - 1], js))
  }

  /** Entry `i` of `vs` writes key `k`. */
  ghost predicate WritesAt(vs: seq<Value>, js: Js, k: string, i: int) {
    0 <= i < |vs| && EntryOf(vs[i], js).Some? && EntryOf(vs[i], js).value.0 == k
  }

  /** Entry `i` is the last one of `vs` that writes key `k`. */
  ghost predicate LastWriteAt(vs: seq<Value>, js: Js, k: string, i: int) {
    WritesAt(vs, js, k, i) && forall j :: i < j < |vs| ==> !WritesAt(vs, js, k, j)
  }

  /** A key some entry writes has a last entry writing it. */
  lemma {:induction false} LastWriteExists(vs: seq<Value>, js: Js, k: string, i0: int)
    requires WritesAt(vs, js, k, i0)
    ensures exists i :: LastWriteAt(vs, js, k, i)
    decreases |vs| - i0
  {
    if !LastWriteAt(vs, js, k, i0) {
      var j :| i0 < j < |vs| && WritesAt(vs, js, k, j);
      LastWriteExists(vs, js, k, j);
    }
  }

  /** One entry merged into a record whose keys are the distinct ones of
      `s`. */
  lemma {:induction false} MergeOneKeys(r: Record, v: Value, js: Js, s: seq<string>)
    requires r.Valid() && r.keys == Dedup(s)
    ensures MergeOne(r, v, js).Valid()
    ensures MergeOne(r, v, js).keys == Dedup(s + KeyWritten(EntryOf(v, js)))
  {
    match EntryOf(v, js)
    case None => {
      assert s + [] == s;
    }
    case Some(e) => {
      DedupSnoc(s, e.0);
      if e.0 !in r.vals {
        NoDupsAppend(r.keys, [e.0]);
      }
    }
  }

  /** The keys after a merge are the old keys followed by the new ones in the
      order they are first written. */
  lemma {:induction false} MergeKeys(r: Record, vs: seq<Value>, js: Js)
    requires r.Valid()
    ensures Merge(r, vs, js).Valid()
    ensures Merge(r, vs, js).keys == Dedup(r.keys + EntryKeys(vs, js))
    decreases |vs|
  {
    if vs == [] {
      assert r.keys + [] == r.keys;
      DedupOfDistinct(r.keys);
    } else {
      var init, v := vs[..|vs| - 1], vs[|vs| - 1];
      MergeKeys(r, init, js);
      var s := r.keys + EntryKeys(init, js);
      MergeOneKeys(Merge(r, init, js), v, js, s);
      assert r.keys + EntryKeys(vs, js) == s + KeyWritten(EntryOf(v, js));
    }
  }

  /** What one entry does to the verdict of key `k`. */
  lemma {:induction false} MergeOneAt(r: Record, v: Value, js: Js, k: string)
    ensures EntryOf(v, js).Some? && EntryOf(v, js).value.0 == k ==>
              k in MergeOne(r, v, js).vals && MergeOne(r, v, js).vals[k] == EntryOf(v, js).value.1
    ensures !(EntryOf(v, js).Some? && EntryOf(v, js).value.0 == k) ==>
              (k in MergeOne(r, v, js).vals <==> k in r.vals) && (k in r.vals ==> MergeOne(r, v, js).vals[k] == r.vals[k])
  {
  }

  /** Last write wins (line 33): a key written by some entry holds the
      verdict of the last entry that writes it; a key no entry writes keeps
      what it had. */
  lemma {:induction false} MergeLastWins(r: Record, vs: seq<Value>, js: Js, k: string)
    ensures forall i :: LastWriteAt(vs, js, k, i) ==>
              k in Merge(r, vs, js).vals && Merge(r, vs, js).vals[k] == EntryOf(vs[i], js).value.1
    ensures (forall i :: !WritesAt(vs, js, k, i)) ==>
              (k in Merge(r, vs, js).vals <==> k in r.vals) && (k in r.vals ==> Merge(r, vs, js).vals[k] == r.vals[k])
  {
    forall i | LastWriteAt(vs, js, k, i)
      ensures k in Merge(r, vs, js).vals && Merge(r, vs, js).vals[k] == EntryOf(vs[i], js).value.1
    {
      MergeLast(r, vs, js, k, i);
    }
    if forall i :: !WritesAt(vs, js, k, i) {
      MergeUntouched(r, vs, js, k);
    }
  }

  /** The last entry writing `k` decides its verdict. */
  lemma {:induction false} MergeLast(r: Record, vs: seq<Value>, js: Js, k: string, i: int)
    requires LastWriteAt(vs, js, k, i)
    ensures k in Merge(r, vs, js).vals && Merge(r, vs, js).vals[k] == EntryOf(vs[i], js).value.1
    decreases |vs|
  {
    var n := |vs|;
    var init, v := vs[..n - 1], vs[n - 1];
    assert Merge(r, vs, js) == MergeOne(Merge(r, init, js), v, js);
    MergeOneAt(Merge(r, init, js), v, js, k);
    if i < n - 1 {
      assert !WritesAt(vs, js, k, n - 1);
      assert init[i] == vs[i];
      forall j | i < j < n - 1
        ensures !WritesAt(init, js, k, j)
      {
        assert init[j] == vs[j] && !WritesAt(vs, js, k, j);
      }
      MergeLast(r, init, js, k, i);
    }
  }

  /** A key no entry writes keeps what it had. */
  lemma {:induction false} MergeUntouched(r: Record, vs: seq<Value>, js: Js, k: string)
    requires forall i :: !WritesAt(vs, js, k, i)
    ensures k in Merge(r, vs, js).vals <==> k in r.vals
    ensures k in r.vals ==> Merge(r, vs, js).vals[k] == r.vals[k]
    decreases |vs|
  {
    if vs != [] {
      var n := |vs|;
      var init, v := vs[..n - 1], vs[n - 1];
      forall i
        ensures !WritesAt(init, js, k, i)
      {
        if 0 <= i < n - 1 {
          assert init[i] == vs[i] && !WritesAt(vs, js, k, i);
        }
      }
      MergeUntouched(r, init, js, k);
      assert !WritesAt(vs, js, k, n - 1);
      assert Merge(r, vs, js) == MergeOne(Merge(r, init, js), v, js);
      MergeOneAt(Merge(r, init, js), v, js, k);
    }
  }

  /* ------------------------------ matches ------------------------------- */

  /** `results[u]?.match && results[u].score >= threshold` (line 39): the
      boundary is inclusive. */
  predicate Selected(vals: map<string, Verdict>, u: string, threshold: real) {
    u in vals && vals[u].isMatch && vals[u].score >= threshold
  }

  /** `Object.keys(results).filter(...)` (line 39): exactly the keys whose
      verdict matches with a score at or above the threshold, in key order. */
  function MatchesOf(keys: seq<string>, vals: map<string, Verdict>, threshold: real): (m: seq<string>)
    ensures forall u :: u in m <==> u in keys && Selected(vals, u, threshold)
    ensures NoDups(keys) ==> NoDups(m)
    ensures |m| <= |keys|
    decreases |keys|
  {
    if keys == [] then []
    else
      var rest := MatchesOf(keys[1..], vals, threshold);
      if Selected(vals, keys[0], threshold) then [keys[0]] + rest else rest
  }

  /** Verdicts from the fallback never match: after merging a fallback list,
      every item with a non-empty URL holds `{match: false, score: 0}`. */
  lemma {:induction false} FallbackNoMatch(r: Record, batch: seq<Item>, js: Js, u: string)
    requires u != [] && exists i :: 0 <= i < |batch| && batch[i].url == u
    ensures u in Merge(r, Fallback(batch), js).vals
    ensures Merge(r, Fallback(batch), js).vals[u] == Verdict(false, 0.0)
  {
    var vs := Fallback(batch);
    var i0 :| 0 <= i0 < |batch| && batch[i0].url == u;
    assert EntryOf(vs[i0], js) == Some((u, Verdict(false, 0.0)));
    LastWriteExists(vs, js, u, i0);
    var i :| LastWriteAt(vs, js, u, i);
    assert EntryOf(vs[i], js).Some? ==> EntryOf(vs[i], js) == Some((batch[i].url, Verdict(false, 0.0)));
    MergeLastWins(r, vs, js, u);
  }

  /* ---------------------------- the whole run --------------------------- */

  /** What one run works with besides the items. */
  datatype Job = Job(topic: string, provider: string, send: Request -> Reply, js: Js)

  /** The worker a run hands to `runLimited`: `classifyBatch` with the
      run's topic, provider and endpoint. */
  function BatchClassifier(job: Job): seq<Item> -> Result<seq<Value>, LlmError> {
    batch => ClassifyBatch(job.topic, batch, job.provider, job.send, job.js)
  }

  /** What `classify` makes of each batch, in batch order. */
  function OutcomesOf(classify: seq<Item> -> Result<seq<Value>, LlmError>, batches: seq<seq<Item>>)
    : (outs: seq<Result<seq<Value>, LlmError>>)
    ensures |outs| == |batches| && forall i :: 0 <= i < |batches| ==> outs[i] == classify(batches[i])
  {
    seq(|batches|, i requires 0 <= i < |batches| => classify(batches[i]))
  }

  /** What each batch of a run comes to, in batch order. */
  function Outcomes(job: Job, batches: seq<seq<Item>>): (outs: seq<Result<seq<Value>, LlmError>>)
    ensures |outs| == |batches|
    ensures forall i :: 0 <= i < |batches| ==>
              outs[i] == ClassifyBatch(job.topic, batches[i], job.provider, job.send, job.js)
  {
    OutcomesOf(BatchClassifier(job), batches)
  }

  /** The record after the first `n` batch outcomes, or the error of the
      first one among them that fails. */
  function Classified(outs: seq<Result<seq<Value>, LlmError>>, js: Js, n: nat): Result<Record, LlmError>
    requires n <= |outs|
    decreases n
  {
    if n == 0 then Success(EmptyRecord)
    else
      match Classified(outs, js, n - 1)
      case Failure(e) => Failure(e)
      case Success(r) =>
        match outs[n - 1]
        case Failure(e) => Failure(e)
        case Success(vs) => Success(Merge(r, vs, js))
  }

  /** The verdict lists of the first `n` outcomes, concatenated. */
  function AllVerdicts(outs: seq<Result<seq<Value>, LlmError>>, n: nat): seq<Value>
    requires n <= |outs|
    decreases n
  {
    if n == 0 then []
    else
      AllVerdicts(outs, n - 1)
        + (match outs[n - 1]
           case Failure(_) => []
           case Success(vs) => vs)
  }

  lemma {:induction false} MergeAppend(r: Record, a: seq<Value>, b: seq<Value>, js: Js)
    ensures Merge(r, a + b, js) == Merge(Merge(r, a, js), b, js)
    decreases |b|
  {
    if b == [] {
      assert a + b == a;
    } else {
      var b' := b[..|b| - 1];
      MergeAppend(r, a, b', js);
      assert (a + b)[..|a + b| - 1] == a + b';
      assert (a + b)[|a + b| - 1] == b[|b| - 1];
    }
  }

  /** A run fails exactly when some batch fails, with the error of the first
      one that does; otherwise its record is every batch's verdicts merged in
      batch order. */
  lemma {:induction false} ClassifiedSpec(outs: seq<Result<seq<Value>, LlmError>>, js: Js, n: nat)
    requires n <= |outs|
    ensures Classified(outs, js, n).Failure? <==> exists i :: 0 <= i < n && outs[i].Failure?
    ensures Classified(outs, js, n).Failure? ==>
              exists i :: 0 <= i < n && outs[i].Failure? && Classified(outs, js, n).error == outs[i].error
                && (forall j :: 0 <= j < i ==> outs[j].Success?)
    ensures Classified(outs, js, n).Success? ==>
              Classified(outs, js, n).value == Merge(EmptyRecord, AllVerdicts(outs, n), js)
    decreases n
  {
    if n > 0 {
      ClassifiedSpec(outs, js, n - 1);
      if Classified(outs, js, n - 1).Success? && outs[n - 1].Success? {
        MergeAppend(EmptyRecord, AllVerdicts(outs, n - 1), outs[n - 1].value, js);
      }
    }
  }

  /** Once a batch has failed, the run stays failed with that error. */
  lemma {:induction false} FailureStays(outs: seq<Result<seq<Value>, LlmError>>, js: Js, k: nat, n: nat)
    requires k <= n <= |outs| && Classified(outs, js, k).Failure?
    ensures Classified(outs, js, n) == Classified(outs, js, k)
    decreases n
  {
    if n > k {
      FailureStays(outs, js, k, n - 1);
    }
  }

  /** The matches of a run that succeeds (line 39): a URL matches exactly
      when the last verdict written for it, over all batches in order, says
      `match` with a score at or above the threshold. */
  lemma {:induction false} MatchesIff(outs: seq<Result<seq<Value>, LlmError>>, js: Js, threshold: real, u: string)
    requires Classified(outs, js, |outs|).Success?
    ensures var rec := Classified(outs, js, |outs|).value;
            var vs := AllVerdicts(outs, |outs|);
            u in MatchesOf(rec.keys, rec.vals, threshold) <==>
              exists i :: LastWriteAt(vs, js, u, i) && EntryOf(vs[i], js).value.1.isMatch
                          && EntryOf(vs[i], js).value.1.score >= threshold
  {
    var vs := AllVerdicts(outs, |outs|);
    ClassifiedSpec(outs, js, |outs|);
    MergeKeys(EmptyRecord, vs, js);
    MergeLastWins(EmptyRecord, vs, js, u);
    if exists i :: WritesAt(vs, js, u, i) {
      var i0 :| WritesAt(vs, js, u, i0);
      LastWriteExists(vs, js, u, i0);
    }
  }

  /** A classification: the merged record and the matching URLs. */
  datatype Classification = Classification(results: Record, matches: seq<string>)

  /** The `onProgress` reports of a run. */
  datatype ClassifyProgress =
    | Classifying(completed: nat, total: nat)
    | BatchDone(index: nat, completed: nat, total: nat)
    | ClassifyDone(count: nat)

  function ProgressMessage(p: ClassifyProgress): string {
    match p
    case Classifying(_, total) => "Classifying in " + NatToString(total) + " batch(es)\U{2026}"
    case BatchDone(index, _, total) => "Batch " + NatToString(index + 1) + "/" + NatToString(total) + " done"
    case ClassifyDone(count) => "Classified " + NatToString(count) + " item(s)."
  }

  /** The reports after `k` batches are done. */
  ghost predicate ReportsAfter(progress: seq<ClassifyProgress>, k: nat, total: nat) {
    && |progress| == k + 1 && progress[0] == Classifying(0, total)
    && forall i :: 1 <= i <= k ==> progress[i] == BatchDone(i - 1, i, total)
  }

  /** Merges one verdict list into the record, entry by entry (lines
      31-34). */
  method MergeVerdicts(r0: Record, vs: seq<Value>, js: Js) returns (r: Record)
    ensures r == Merge(r0, vs, js)
  {
    r := r0;
    for j := 0 to |vs|
      invariant r == Merge(r0, vs[..j], js)
    {
      assert vs[..j + 1][..j] == vs[..j];
      r := MergeOne(r, vs[j], js);
    }
    assert vs[..|vs|] == vs;
  }

  /** The reports and the `runLimited` call of lines 27-37: each batch
      handed out is classified and merged into the record, with one report
      per batch; the first batch that fails ends the run with its error. */
  method RunBatches(classify: seq<Item> -> Result<seq<Value>, LlmError>, js: Js, batches: seq<seq<Item>>,
                    settings: Settings, next: nat -> nat)
    returns (r: Result<Record, LlmError>, progress: seq<ClassifyProgress>)
    ensures var run := Classified(OutcomesOf(classify, batches), js, |batches|);
            && r == run
            && (run.Failure? ==> exists k :: 0 <= k < |batches| && ReportsAfter(progress, k, |batches|))
            && (run.Success? ==> ReportsAfter(progress, |batches|, |batches|))
  {
    ghost var outs := OutcomesOf(classify, batches);
    var total := |batches|;
    var results := EmptyRecord;
    var completed := 0;
    progress := [Classifying(0, total)];
    var runners, handed := RunLimited(total, ConcurrencyOf(settings), next);
    for k := 0 to |handed|
      invariant completed == k
      invariant Classified(outs, js, k) == Success(results)
      invariant ReportsAfter(progress, k, total)
    {
      var idx := handed[k].index;
      var verdicts := classify(batches[idx]);
      assert outs[k] == verdicts;
      if verdicts.Failure? {
        r := Failure(verdicts.error);
        assert Classified(outs, js, k + 1) == r;
        FailureStays(outs, js, k + 1, total);
        assert ReportsAfter(progress, k, |batches|);
        return;
      }
      results := MergeVerdicts(results, verdicts.value, js);
      completed := completed + 1;
      progress := progress + [BatchDone(idx, completed, total)];
    }
    r := Success(results);
  }

  /** `classifyUrlsByTopic` (lines 14-42). The batches are worked off in the
      order `runLimited` hands them out; `next` says which runner is free
      next. */
  method ClassifyUrlsByTopic(topic: string, items: seq<Item>, threshold: real, settings: Settings,
                             send: Request -> Reply, js: Js, next: nat -> nat)
    returns (r: Result<Classification, LlmError>, progress: seq<ClassifyProgress>)
    ensures var batches := Batches(items, BatchSizeOf(settings));
            var run := Classified(Outcomes(Job(topic, settings.provider, send, js), batches), js, |batches|);
            && (run.Failure? ==>
                  r == Failure(run.error) && exists k :: 0 <= k < |batches| && ReportsAfter(progress, k, |batches|))
            && (run.Success? ==>
                  && r == Success(Classification(run.value, MatchesOf(run.value.keys, run.value.vals, threshold)))
                  && |progress| == |batches| + 2
                  && ReportsAfter(progress[..|batches| + 1], |batches|, |batches|)
                  && progress[|batches| + 1] == ClassifyDone(|run.value.keys|))
  {
    var batches := MakeBatches(items, BatchSizeOf(settings));
    var run;
    run, progress := RunBatches(BatchClassifier(Job(topic, settings.provider, send, js)), js, batches, settings, next);
    if run.Failure? {
      r := Failure(run.error);
      return;
    }
    var results := run.value;
    var matches := MatchesOf(results.keys, results.vals, threshold);
    r := Success(Classification(results, matches));
    ghost var before := progress;
    progress := progress + [ClassifyDone(|results.keys|)];
    assert progress[..|batches| + 1] == before;
  }
}
