// The bounded-concurrency helper `runLimited`, written twice in the
// repository with the same behaviour: scr/lib/llmFilter.js lines 130-139 and
// scr/sw.js lines 398-407. `Math.min(limit, items.length)` runners share one
// counter `i`; a runner that is free takes `cur = i++` and awaits the worker
// on item `cur`, until `i` reaches the number of items.
//
// Every runner starts synchronously, so runner `r` takes item `r` before any
// worker call returns. After that, which runner is free next depends on how
// long the worker calls take: that is the oracle `next(k)`, the runner that
// takes the `k`-th item. The hand-outs are returned in the order they happen.

module Limited {
  import opened Basics

  /** One hand-out: item `index` given to runner `runner`. */
  datatype Dispatch = Dispatch(index: nat, runner: nat)

  /** `runLimited(items, limit, worker)` on `n` items. `new Array(k)` throws
      for a negative `k`, so `limit` is not negative; both callers pass 1 to
      4. With no runner (`limit` or `n` zero) nothing is handed out;
      otherwise every index in `[0, n)` is handed out exactly once, in
      increasing order, the first ones one per runner. */
  method RunLimited(n: nat, limit: nat, next: nat -> nat) returns (runners: nat, handed: seq<Dispatch>)
    ensures runners == Min(limit, n)
    ensures runners == 0 ==> handed == []
    ensures runners > 0 ==> |handed| == n
    ensures forall k :: 0 <= k < |handed| ==> handed[k].index == k && handed[k].runner < runners
    ensures forall k :: 0 <= k < |handed| && k < runners ==> handed[k].runner == k
  {
    runners := Min(limit, n);
    handed := [];
    var i := 0;
    while i < runners
      invariant 0 <= i <= runners && |handed| == i
      invariant forall k :: 0 <= k < i ==> handed[k] == Dispatch(k, k)
    {
      handed := handed + [Dispatch(i, i)];
      i := i + 1;
    }
    while runners > 0 && i < n
      invariant runners <= i <= n
      invariant runners == 0 ==> i == 0
      invariant |handed| == i
      invariant forall k :: 0 <= k < i ==> handed[k].index == k && handed[k].runner < runners
      invariant forall k :: 0 <= k < i && k < runners ==> handed[k].runner == k
    {
      var r := next(i) % runners;
      handed := handed + [Dispatch(i, r)];
      i := i + 1;
    }
  }
}
