/** The host's in-memory rate limiter: fixed windows per key, swept on every check, with a cap
    on the number of live buckets. */
module RateLimiter {
  datatype Limits = Limits(windowMs: int, maxRequests: int, maxBuckets: int)

  predicate ValidLimits(cfg: Limits) {
    cfg.windowMs > 0 && cfg.maxRequests > 0 && cfg.maxBuckets > 0
  }

  datatype Bucket = Bucket(windowStartMs: int, count: int)

  datatype Decision = Allowed | LimitExceeded(retryAfterSeconds: int) | CapacityReached(retryAfterSeconds: int)

  datatype Request = Request(key: string, nowMs: int)

  type Buckets = map<string, Bucket>

  /** Rounds towards plus infinity. */
  function CeilSeconds(ms: int): int { (ms + 999) / 1000 }

  function AtLeastOne(n: int): int { if n > 1 then n else 1 }

  predicate Expired(cfg: Limits, b: Bucket, nowMs: int) {
    nowMs - b.windowStartMs >= cfg.windowMs
  }

  function Swept(cfg: Limits, buckets: Buckets, nowMs: int): Buckets {
    map k | k in buckets && !Expired(cfg, buckets[k], nowMs) :: buckets[k]
  }

  datatype Outcome = Outcome(buckets: Buckets, decision: Decision)

  function Checked(cfg: Limits, buckets: Buckets, r: Request): Outcome {
    var live := Swept(cfg, buckets, r.nowMs);
    if r.key !in live then
      if |live| >= cfg.maxBuckets then Outcome(live, CapacityReached(AtLeastOne(CeilSeconds(cfg.windowMs))))
      else Outcome(live[r.key := Bucket(r.nowMs, 1)], Allowed)
    else
      var current := live[r.key].(count := live[r.key].count + 1);
      Outcome(live[r.key := current],
              if current.count > cfg.maxRequests then
                LimitExceeded(AtLeastOne(CeilSeconds(cfg.windowMs - (r.nowMs - current.windowStartMs))))
              else Allowed)
  }

  class InMemoryRateLimiter {
    const cfg: Limits
    var buckets: Buckets

    constructor (cfg: Limits)
      requires ValidLimits(cfg)
      ensures this.cfg == cfg && buckets == map[]
    {
      this.cfg := cfg;
      buckets := map[];
    }

    /** Deletes expired buckets one key at a time. */
    method Sweep(nowMs: int)
      modifies this
      ensures buckets == Swept(cfg, old(buckets), nowMs)
    {
      var remaining := buckets.Keys;
      while remaining != {}
        invariant remaining <= buckets.Keys <= old(buckets).Keys
        invariant forall k :: k in buckets ==> buckets[k] == old(buckets)[k]
        invariant forall k :: k in old(buckets) && k !in remaining ==>
                    (k in buckets <==> !Expired(cfg, old(buckets)[k], nowMs))
        decreases remaining
      {
        var key :| key in remaining;
        remaining := remaining - {key};
        if nowMs - buckets[key].windowStartMs >= cfg.windowMs {
          buckets := buckets - {key};
        }
      }
    }

    method Check(r: Request) returns (decision: Decision)
      modifies this
      ensures Outcome(buckets, decision) == Checked(cfg, old(buckets), r)
    {
      Sweep(r.nowMs);
      if r.key !in buckets {
        if |buckets| >= cfg.maxBuckets {
          return CapacityReached(AtLeastOne(CeilSeconds(cfg.windowMs)));
        }
        buckets := buckets[r.key := Bucket(r.nowMs, 1)];
        return Allowed;
      }
      var current := buckets[r.key];
      current := current.(count := current.count + 1);
      buckets := buckets[r.key := current];
      if current.count > cfg.maxRequests {
        return LimitExceeded(AtLeastOne(CeilSeconds(cfg.windowMs - (r.nowMs - current.windowStartMs))));
      }
      return Allowed;
    }
  }

  // ---- runs ----

  /** The buckets after a run of checks. */
  function After(cfg: Limits, run: seq<Request>): Buckets {
    if run == [] then map[]
    else Checked(cfg, After(cfg, run[..|run| - 1]), run[|run| - 1]).buckets
  }

  /** The decision on the last request of a run. */
  function LastDecision(cfg: Limits, run: seq<Request>): Decision
    requires run != []
  {
    Checked(cfg, After(cfg, run[..|run| - 1]), run[|run| - 1]).decision
  }

  /** Requests of a key admitted with a clock reading in [from, to). */
  function Admitted(cfg: Limits, run: seq<Request>, key: string, from: int, to: int): nat {
    if run == [] then 0
    else
      var last := run[|run| - 1];
      Admitted(cfg, run[..|run| - 1], key, from, to)
      + (if last.key == key && from <= last.nowMs < to && LastDecision(cfg, run).Allowed? then 1 else 0)
  }

  ghost predicate NonDecreasing(run: seq<Request>) {
    forall i, j :: 0 <= i < j < |run| ==> run[i].nowMs <= run[j].nowMs
  }

  datatype MaybeTime = Never | At(time: int)

  /** When the key's latest bucket was opened, live or not. */
  function LatestStart(cfg: Limits, run: seq<Request>, key: string): MaybeTime {
    if run == [] then Never
    else
      var front := run[..|run| - 1];
      var last := run[|run| - 1];
      if last.key == key && key !in Swept(cfg, After(cfg, front), last.nowMs) && LastDecision(cfg, run).Allowed?
      then At(last.nowMs) else LatestStart(cfg, front, key)
  }

  /** Admissions a live bucket stands for; a bucket that is gone admitted at most the limit. */
  function Quota(cfg: Limits, buckets: Buckets, key: string): int {
    if key in buckets && buckets[key].count < cfg.maxRequests then buckets[key].count else cfg.maxRequests
  }

  /** The counting invariant of one key, with its latest bucket opened at `w`: from `w` on that
      bucket admitted its quota, all within its window; the buckets before it admitted at most
      the limit within a window's reach of `w`; and no interval of one window's length holds
      more than twice the limit. */
  ghost predicate Counted(cfg: Limits, run: seq<Request>, key: string) {
    var buckets := After(cfg, run);
    match LatestStart(cfg, run, key)
    case Never => key !in buckets && forall from, to :: Admitted(cfg, run, key, from, to) == 0
    case At(w) =>
      && run != []
      && w <= run[|run| - 1].nowMs
      && (if key in buckets then buckets[key].windowStartMs == w && buckets[key].count >= 1
          else w + cfg.windowMs <= run[|run| - 1].nowMs)
      && (forall to :: Admitted(cfg, run, key, w, to) <= Quota(cfg, buckets, key))
      && (key in buckets ==> forall to :: run[|run| - 1].nowMs < to ==>
            Admitted(cfg, run, key, w, to) == Quota(cfg, buckets, key))
      && (forall from, to :: w + cfg.windowMs <= from ==> Admitted(cfg, run, key, from, to) == 0)
      && (forall from, to :: w - cfg.windowMs < from && to <= w ==>
            Admitted(cfg, run, key, from, to) <= cfg.maxRequests)
      && (forall from, to :: to <= from + cfg.windowMs ==>
            Admitted(cfg, run, key, from, to) <= 2 * cfg.maxRequests)
  }

  lemma {:induction false} AdmittedSplits(cfg: Limits, run: seq<Request>, key: string, from: int, mid: int, to: int)
    requires from <= mid <= to
    ensures Admitted(cfg, run, key, from, to)
         == Admitted(cfg, run, key, from, mid) + Admitted(cfg, run, key, mid, to)
  {
    if run != [] {
      AdmittedSplits(cfg, run[..|run| - 1], key, from, mid, to);
    }
  }

  lemma {:induction false} EmptyInterval(cfg: Limits, run: seq<Request>, key: string, from: int, to: int)
    requires to <= from
    ensures Admitted(cfg, run, key, from, to) == 0
  {
    if run != [] {
      EmptyInterval(cfg, run[..|run| - 1], key, from, to);
    }
  }

  /** A smaller interval admits no more. */
  lemma AdmittedShrinks(cfg: Limits, run: seq<Request>, key: string, from: int, inner: int, to: int)
    requires from <= inner
    ensures Admitted(cfg, run, key, inner, to) <= Admitted(cfg, run, key, from, to)
  {
  }

  /** The last request contributes one admission, to the intervals around its clock reading. */
  lemma LastCounts(cfg: Limits, run: seq<Request>, key: string, from: int, to: int)
    requires run != []
    ensures Admitted(cfg, run, key, from, to)
         == Admitted(cfg, run[..|run| - 1], key, from, to)
            + if run[|run| - 1].key == key && from <= run[|run| - 1].nowMs < to && LastDecision(cfg, run).Allowed?
              then 1 else 0
  {
  }

  lemma OpenedBucket(cfg: Limits, run: seq<Request>)
    requires ValidLimits(cfg) && run != []
    requires run[|run| - 1].key !in Swept(cfg, After(cfg, run[..|run| - 1]), run[|run| - 1].nowMs)
    requires LastDecision(cfg, run).Allowed?
    ensures var front, r := run[..|run| - 1], run[|run| - 1];
            && r.key in After(cfg, run) && After(cfg, run)[r.key] == Bucket(r.nowMs, 1)
            && LatestStart(cfg, run, r.key) == At(r.nowMs)
            && (r.key in After(cfg, front) ==> Expired(cfg, After(cfg, front)[r.key], r.nowMs))
  {
  }

  /** A request that opens a bucket. */
  lemma OpeningKeepsCounted(cfg: Limits, run: seq<Request>)
    requires ValidLimits(cfg) && run != [] && NonDecreasing(run)
    requires Counted(cfg, run[..|run| - 1], run[|run| - 1].key)
    requires run[|run| - 1].key !in Swept(cfg, After(cfg, run[..|run| - 1]), run[|run| - 1].nowMs)
    requires LastDecision(cfg, run).Allowed?
    ensures Counted(cfg, run, run[|run| - 1].key)
  {
    var front, r := run[..|run| - 1], run[|run| - 1];
    var key, w := r.key, r.nowMs;
    OpenedBucket(cfg, run);
    hide After, LatestStart, Swept, LastDecision;
    var before := LatestStart(cfg, front, key);
    assert front != [] ==> front[|front| - 1].nowMs <= w;
    forall from, to | w <= from ensures Admitted(cfg, front, key, from, to) == 0 {
    }
    forall from, to | w - cfg.windowMs < from ensures Admitted(cfg, front, key, from, to) <= cfg.maxRequests {
      if before.At? {
        AdmittedShrinks(cfg, front, key, before.time, from, to);
      }
    }
    forall from, to ensures Admitted(cfg, run, key, from, to)
                         == Admitted(cfg, front, key, from, to) + if from <= w < to then 1 else 0 {
      LastCounts(cfg, run, key, from, to);
    }
    forall from, to | to <= from + cfg.windowMs ensures Admitted(cfg, run, key, from, to) <= 2 * cfg.maxRequests {
      if from <= w < to {
        AdmittedSplits(cfg, run, key, from, w, to);
      }
    }
  }

  /** A request on the key's live bucket, admitted or over the limit. */
  lemma CountingKeepsCounted(cfg: Limits, run: seq<Request>)
    requires ValidLimits(cfg) && run != [] && NonDecreasing(run)
    requires Counted(cfg, run[..|run| - 1], run[|run| - 1].key)
    requires run[|run| - 1].key in Swept(cfg, After(cfg, run[..|run| - 1]), run[|run| - 1].nowMs)
    ensures Counted(cfg, run, run[|run| - 1].key)
  {
    var front, r := run[..|run| - 1], run[|run| - 1];
    var key := r.key;
    var w := LatestStart(cfg, front, key).time;
    assert front[|front| - 1].nowMs <= r.nowMs;
    forall from, to ensures Admitted(cfg, run, key, from, to)
                         == Admitted(cfg, front, key, from, to)
                            + if from <= r.nowMs < to && LastDecision(cfg, run).Allowed? then 1 else 0 {
      LastCounts(cfg, run, key, from, to);
    }
    forall from, to | to <= from + cfg.windowMs ensures Admitted(cfg, run, key, from, to) <= 2 * cfg.maxRequests {
      if from <= r.nowMs < to {
        if from <= w {
          AdmittedSplits(cfg, run, key, from, w, to);
        } else {
          AdmittedShrinks(cfg, run, key, w, from, to);
        }
      }
    }
  }

  /** A request that leaves a key's count alone: another key's, or one refused for capacity. */
  lemma SkippingKeepsCounted(cfg: Limits, run: seq<Request>, key: string)
    requires ValidLimits(cfg) && run != [] && NonDecreasing(run)
    requires Counted(cfg, run[..|run| - 1], key)
    requires run[|run| - 1].key != key
             || (key !in Swept(cfg, After(cfg, run[..|run| - 1]), run[|run| - 1].nowMs)
                 && !LastDecision(cfg, run).Allowed?)
    ensures Counted(cfg, run, key)
  {
    var front := run[..|run| - 1];
    forall from, to ensures Admitted(cfg, run, key, from, to) == Admitted(cfg, front, key, from, to) {
      LastCounts(cfg, run, key, from, to);
    }
    if front != [] {
      assert front[|front| - 1].nowMs <= run[|run| - 1].nowMs;
    }
  }

  lemma {:induction false} RunIsCounted(cfg: Limits, run: seq<Request>, key: string)
    requires ValidLimits(cfg) && NonDecreasing(run)
    ensures Counted(cfg, run, key)
  {
    if run != [] {
      var front, r := run[..|run| - 1], run[|run| - 1];
      RunIsCounted(cfg, front, key);
      if r.key != key || (key !in Swept(cfg, After(cfg, front), r.nowMs) && !LastDecision(cfg, run).Allowed?) {
        SkippingKeepsCounted(cfg, run, key);
      } else if key in Swept(cfg, After(cfg, front), r.nowMs) {
        CountingKeepsCounted(cfg, run);
      } else {
        OpeningKeepsCounted(cfg, run);
      }
    }
  }

  /** With a clock that never runs backwards, a key is admitted at most twice the limit in any
      half-open interval of one window's length. */
  lemma AtMostTwicePerWindow(cfg: Limits, run: seq<Request>, key: string, from: int)
    requires ValidLimits(cfg) && NonDecreasing(run)
    ensures Admitted(cfg, run, key, from, from + cfg.windowMs) <= 2 * cfg.maxRequests
  {
    RunIsCounted(cfg, run, key);
  }

  /** A key's latest bucket admits at most the limit. */
  lemma AtMostLimitPerBucket(cfg: Limits, run: seq<Request>, key: string, to: int)
    requires ValidLimits(cfg) && NonDecreasing(run) && LatestStart(cfg, run, key).At?
    ensures Admitted(cfg, run, key, LatestStart(cfg, run, key).time, to) <= cfg.maxRequests
  {
    RunIsCounted(cfg, run, key);
  }

  /** A request is refused for its key's limit exactly when the key has a live bucket that has
      already admitted the full limit, and for capacity exactly when it has no live bucket and
      the live buckets fill the cap; otherwise it is admitted. */
  lemma RefusedOnlyAtLimitOrCapacity(cfg: Limits, run: seq<Request>)
    requires ValidLimits(cfg) && NonDecreasing(run) && run != []
    ensures var front, r := run[..|run| - 1], run[|run| - 1];
            var live := Swept(cfg, After(cfg, front), r.nowMs);
            && (LastDecision(cfg, run).LimitExceeded? <==>
                  r.key in live
                  && Admitted(cfg, front, r.key, live[r.key].windowStartMs, r.nowMs + 1) == cfg.maxRequests)
            && (LastDecision(cfg, run).CapacityReached? <==> r.key !in live && |live| >= cfg.maxBuckets)
  {
    var front, r := run[..|run| - 1], run[|run| - 1];
    RunIsCounted(cfg, front, r.key);
    if front != [] {
      assert front[|front| - 1].nowMs <= r.nowMs;
    }
  }

  /** The advice on a refusal for the limit is exact: it is the least whole number of seconds,
      at least one, after which the key's window is over. */
  lemma RetryAfterIsLeast(cfg: Limits, buckets: Buckets, r: Request, seconds: int)
    requires ValidLimits(cfg) && Checked(cfg, buckets, r).decision.LimitExceeded?
    ensures r.key in buckets && r.nowMs < buckets[r.key].windowStartMs + cfg.windowMs
    ensures Checked(cfg, buckets, r).decision.retryAfterSeconds <= seconds <==>
              seconds >= 1 && buckets[r.key].windowStartMs + cfg.windowMs <= r.nowMs + 1000 * seconds
  {
  }

  /** The advice on a refusal for capacity is the least whole number of seconds, at least one, that
      covers a whole window. */
  lemma CapacityAdviceIsLeast(cfg: Limits, buckets: Buckets, r: Request, seconds: int)
    requires ValidLimits(cfg) && Checked(cfg, buckets, r).decision.CapacityReached?
    ensures Checked(cfg, buckets, r).decision.retryAfterSeconds <= seconds <==>
              seconds >= 1 && cfg.windowMs <= 1000 * seconds
  {
  }

  lemma SweptIsSmaller(cfg: Limits, buckets: Buckets, nowMs: int)
    ensures |Swept(cfg, buckets, nowMs)| <= |buckets|
  {
    KeysBoundSize(Swept(cfg, buckets, nowMs).Keys, buckets.Keys);
  }

  lemma {:induction false} KeysBoundSize(a: set<string>, b: set<string>)
    requires a <= b
    ensures |a| <= |b|
  {
    if a != {} {
      var k :| k in a;
      KeysBoundSize(a - {k}, b - {k});
    }
  }

  /** Whatever the clock does, the live buckets never exceed the cap. */
  lemma {:induction false} BucketsAreCapped(cfg: Limits, run: seq<Request>)
    requires ValidLimits(cfg)
    ensures |After(cfg, run)| <= cfg.maxBuckets
  {
    if run != [] {
      BucketsAreCapped(cfg, run[..|run| - 1]);
      SweptIsSmaller(cfg, After(cfg, run[..|run| - 1]), run[|run| - 1].nowMs);
    }
  }
}
