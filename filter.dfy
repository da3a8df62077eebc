// The FILTER_URLS_BY_TOPIC handler of scr/sw.js (lines 276-315): shallow
// metadata for the first URLs, then the batched topic classification, with
// the handler's own clamps on the settings it was sent. The reply carries
// the results and the matches, or the message of the error that ended the
// run.

module Filter {
  import opened Basics
  import LlmFilter
  import Enrich

  /** The fields of `msg.settings` the handler reads; `None` for a missing
      field. */
  datatype FilterSettings = FilterSettings(metaLimit: Option<int>, provider: Option<string>, batchSize: Option<int>)

  /** `Math.max(0, Number(settings?.metaLimit ?? 200))` (line 283): how many
      URLs get their page fetched, at most. Without a setting it is 200, and
      a negative setting fetches nothing. */
  function MetaLimitOf(s: FilterSettings): (n: nat)
    ensures s.metaLimit.None? ==> n == 200
    ensures s.metaLimit.Some? && s.metaLimit.value <= 0 ==> n == 0
    ensures s.metaLimit.Some? && s.metaLimit.value >= 0 ==> n == s.metaLimit.value
  {
    Max(0, s.metaLimit.GetOr(200))
  }

  /** The settings the handler passes on (lines 296-304): the provider
      defaults to `openai` when missing or empty, the batch size is clamped
      to at least 1, the concurrency is 2 and the timeout 20 seconds. The
      classifier's own defaults and clamps (llmFilter.js lines 15-17) then
      change nothing. */
  function ClassifierSettings(s: FilterSettings): (c: LlmFilter.Settings)
    ensures c.provider != ""
    ensures s.provider.Some? && s.provider.value != "" ==> c.provider == s.provider.value
    ensures LlmFilter.BatchSizeOf(c) == c.batchSize.GetOr(0) == Max(1, s.batchSize.GetOr(100))
    ensures LlmFilter.ConcurrencyOf(c) == 2 && LlmFilter.TimeoutOf(c) == 20000
  {
    var provider := match s.provider case None => "openai" case Some(p) => if p == "" then "openai" else p;
    LlmFilter.Settings(provider, Some(Max(1, s.batchSize.GetOr(100))), Some(2), Some(20000))
  }

  /** What `sendResponse` is given. */
  datatype FilterReply =
    | FilterOk(results: LlmFilter.Record, matches: seq<string>)
    | FilterError(message: string)

  /** The handler's run (lines 279-312). `src` stands for the pages and URL
      paths, `send` and `js` for the model endpoint and the JSON reading,
      and `nextMeta` and `nextBatch` for which runner of each pool is free
      next. The items are those `buildItems` prepares, and the reply is the
      classification of those items or the message of the first failing
      batch. */
  method FilterUrlsByTopic(topic: string, threshold: real, urls: seq<string>, settings: FilterSettings,
                           src: Enrich.Sources, send: LlmFilter.Request -> LlmFilter.Reply, js: LlmFilter.Js,
                           nextMeta: nat -> nat, nextBatch: nat -> nat)
    returns (reply: FilterReply, items: seq<LlmFilter.Item>)
    ensures var n := Min(MetaLimitOf(settings), |urls|);
            |items| == |urls| && forall j :: 0 <= j < |urls| ==> items[j] == Enrich.AfterRest(urls, src, n, |urls|, j)
    ensures var c := ClassifierSettings(settings);
            var batches := LlmFilter.Batches(items, LlmFilter.BatchSizeOf(c));
            var run := LlmFilter.Classified(LlmFilter.Outcomes(LlmFilter.Job(topic, c.provider, send, js), batches), js, |batches|);
            && (run.Failure? ==> reply == FilterError(LlmFilter.ErrorMessage(run.error)))
            && (run.Success? ==> reply == FilterOk(run.value, LlmFilter.MatchesOf(run.value.keys, run.value.vals, threshold)))
  {
    var metaProgress;
    items, metaProgress := Enrich.BuildItems(urls, MetaLimitOf(settings), src, nextMeta);
    var r, classifyProgress := LlmFilter.ClassifyUrlsByTopic(topic, items, threshold, ClassifierSettings(settings), send, js, nextBatch);
    match r
    case Failure(e) =>
      reply := FilterError(LlmFilter.ErrorMessage(e));
    case Success(cl) =>
      reply := FilterOk(cl.results, cl.matches);
  }
}
