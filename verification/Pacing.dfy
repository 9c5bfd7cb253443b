/** The paced JSON-RPC provider: a slot scheduler whose reserved slots bound the request rate
    whatever the clock reads, and a retry loop that resends only rate-limited items. */
module Pacing {
  import opened Results
  import opened Arithmetic

  datatype PacerConfig = PacerConfig(
    requestsPerSecond: int, maxQueueDelayMs: int, rateLimitRetryDelayMs: int, maxRateLimitRetries: nat)

  predicate ValidConfig(cfg: PacerConfig) {
    cfg.requestsPerSecond > 0
  }

  /** Half-size batches, but at least one item. */
  function BatchMaxCount(cfg: PacerConfig): nat
    requires ValidConfig(cfg)
  {
    if cfg.requestsPerSecond / 2 > 1 then cfg.requestsPerSecond / 2 else 1
  }

  function Max(a: int, b: int): int { if a > b then a else b }

  /** Milliseconds that a batch occupies. */
  function SlotMs(cfg: PacerConfig, items: nat): int
    requires ValidConfig(cfg)
  {
    (items * 1000 + cfg.requestsPerSecond - 1) / cfg.requestsPerSecond
  }

  /** A slot is the least whole number of milliseconds in which its items fit at the rate. */
  lemma SlotIsLeast(cfg: PacerConfig, items: nat, ms: int)
    requires ValidConfig(cfg)
    ensures SlotMs(cfg, items) <= ms <==> items * 1000 <= ms * cfg.requestsPerSecond
  {
    var n := items * 1000 + cfg.requestsPerSecond - 1;
    DivAtLeast(n, cfg.requestsPerSecond, ms + 1);
    assert (ms + 1) * cfg.requestsPerSecond == ms * cfg.requestsPerSecond + cfg.requestsPerSecond;
  }

  /** The batch size is the largest that is at most half the rate, or one. */
  lemma BatchSizeIsHalfRate(cfg: PacerConfig, q: nat)
    requires ValidConfig(cfg) && q >= 1
    ensures q <= BatchMaxCount(cfg) <==> q == 1 || 2 * q <= cfg.requestsPerSecond
  {
  }

  /** What happens to the scheduler: a reservation at some clock reading, or a back-off. */
  datatype Event = Reserve(now: int, items: nat) | BackOff(now: int)

  datatype Batch = Batch(sendAt: int, items: nat)

  /** Next free instant, and the batches reserved so far. */
  datatype Schedule = Schedule(nextSendAt: int, batches: seq<Batch>)

  function Step(cfg: PacerConfig, s: Schedule, e: Event): Schedule
    requires ValidConfig(cfg)
  {
    match e
    case Reserve(now, items) =>
      var sendAt := Max(now, s.nextSendAt);
      if sendAt - now > cfg.maxQueueDelayMs then s
      else Schedule(sendAt + SlotMs(cfg, items), s.batches + [Batch(sendAt, items)])
    case BackOff(now) => s.(nextSendAt := Max(s.nextSendAt, now + cfg.rateLimitRetryDelayMs))
  }

  function After(cfg: PacerConfig, events: seq<Event>): Schedule
    requires ValidConfig(cfg)
  {
    if events == [] then Schedule(0, [])
    else Step(cfg, After(cfg, events[..|events| - 1]), events[|events| - 1])
  }

  /** Items of the batches whose slots start in [from, to). */
  function ItemsBetween(batches: seq<Batch>, from: int, to: int): nat {
    if batches == [] then 0
    else
      var last := batches[|batches| - 1];
      ItemsBetween(batches[..|batches| - 1], from, to) + (if from <= last.sendAt < to then last.items else 0)
  }

  /** Every batch waits for the slots of the one before it, and `end` for those of the last. */
  ghost predicate Spaced(cfg: PacerConfig, batches: seq<Batch>, end: int)
    requires ValidConfig(cfg)
  {
    if batches == [] then true
    else
      var last := batches[|batches| - 1];
      last.sendAt + SlotMs(cfg, last.items) <= end && Spaced(cfg, batches[..|batches| - 1], last.sendAt)
  }

  lemma SlotCoversItems(cfg: PacerConfig, items: nat)
    requires ValidConfig(cfg)
    ensures items * 1000 <= SlotMs(cfg, items) * cfg.requestsPerSecond && SlotMs(cfg, items) >= 0
  {
    DivBounds(items * 1000 + cfg.requestsPerSecond - 1, cfg.requestsPerSecond);
    DivAtLeast(items * 1000 + cfg.requestsPerSecond - 1, cfg.requestsPerSecond, 0);
  }

  lemma {:induction false} SpacedLater(cfg: PacerConfig, batches: seq<Batch>, end: int, later: int)
    requires ValidConfig(cfg) && Spaced(cfg, batches, end) && end <= later
    ensures Spaced(cfg, batches, later)
  {
  }

  lemma {:induction false} ScheduleIsSpaced(cfg: PacerConfig, events: seq<Event>)
    requires ValidConfig(cfg)
    ensures Spaced(cfg, After(cfg, events).batches, After(cfg, events).nextSendAt)
  {
    if events != [] {
      var front := events[..|events| - 1];
      ScheduleIsSpaced(cfg, front);
      var s, t := After(cfg, front), After(cfg, events);
      match events[|events| - 1]
      case BackOff(_) => SpacedLater(cfg, s.batches, s.nextSendAt, t.nextSendAt);
      case Reserve(now, items) =>
        if t != s {
          assert t.batches[..|t.batches| - 1] == s.batches;
          SpacedLater(cfg, s.batches, s.nextSendAt, Max(now, s.nextSendAt));
        }
    }
  }

  lemma FitOneMore(fitted: nat, items: nat, from: int, start: int, slot: int, end: int, rate: int)
    requires rate > 0 && fitted * 1000 <= (start - from) * rate
    requires items * 1000 <= slot * rate && start + slot <= end
    ensures (fitted + items) * 1000 <= (end - from) * rate
  {
    MulMono(start - from + slot, end - from, rate);
    assert (start - from + slot) * rate == (start - from) * rate + slot * rate;
  }

  /** Nothing starts at or after the end of a spaced sequence of non-empty slots, and the items
      that start from some instant on fit in the time between it and the end. */
  lemma {:induction false} ItemsFitInTime(cfg: PacerConfig, batches: seq<Batch>, end: int, from: int, to: int)
    requires ValidConfig(cfg) && Spaced(cfg, batches, end)
    ensures end >= from ==> ItemsBetween(batches, from, to) * 1000 <= (end - from) * cfg.requestsPerSecond
    ensures end < from ==> ItemsBetween(batches, from, to) == 0
  {
    hide SlotMs;
    if batches != [] {
      var last := batches[|batches| - 1];
      ItemsFitInTime(cfg, batches[..|batches| - 1], last.sendAt, from, to);
      SlotCoversItems(cfg, last.items);
      if from <= last.sendAt {
        FitOneMore(ItemsBetween(batches[..|batches| - 1], from, to), if last.sendAt < to then last.items else 0,
                   from, last.sendAt, SlotMs(cfg, last.items), end, cfg.requestsPerSecond);
      } else if end >= from {
        MulMono(0, end - from, cfg.requestsPerSecond);
      }
    }
  }

  ghost predicate BatchesAtMost(batches: seq<Batch>, most: nat) {
    forall i :: 0 <= i < |batches| ==> batches[i].items <= most
  }

  lemma {:induction false} WindowBound(cfg: PacerConfig, batches: seq<Batch>, end: int, from: int, most: nat)
    requires ValidConfig(cfg) && Spaced(cfg, batches, end) && BatchesAtMost(batches, most)
    ensures ItemsBetween(batches, from, from + 1000) < cfg.requestsPerSecond + most
  {
    if batches != [] {
      var front := batches[..|batches| - 1];
      var last := batches[|batches| - 1];
      if from <= last.sendAt < from + 1000 {
        ItemsFitInTime(cfg, front, last.sendAt, from, from + 1000);
        MulMono(last.sendAt - from, 999, cfg.requestsPerSecond);
      } else {
        WindowBound(cfg, front, last.sendAt, from, most);
      }
    }
  }

  /** The claim in the provider's comment: with batches of at most the batch size, the items
      whose slots start in any one-second window number fewer than the rate plus one batch,
      and at most one and a half times the rate, for all clock readings and back-offs. */
  lemma RateIsBounded(cfg: PacerConfig, events: seq<Event>, from: int)
    requires ValidConfig(cfg) && BatchesAtMost(After(cfg, events).batches, BatchMaxCount(cfg))
    ensures var items := ItemsBetween(After(cfg, events).batches, from, from + 1000);
            && items < cfg.requestsPerSecond + BatchMaxCount(cfg)
            && 2 * items <= 3 * cfg.requestsPerSecond
  {
    ScheduleIsSpaced(cfg, events);
    WindowBound(cfg, After(cfg, events).batches, After(cfg, events).nextSendAt, from, BatchMaxCount(cfg));
  }

  /** After a back-off no batch starts before its delay is over. */
  lemma {:induction false} BackOffDelays(cfg: PacerConfig, events: seq<Event>, i: nat, k: nat)
    requires ValidConfig(cfg) && i < |events| && events[i].BackOff?
    requires |After(cfg, events[..i + 1]).batches| <= k < |After(cfg, events).batches|
    ensures After(cfg, events).batches[k].sendAt >= events[i].now + cfg.rateLimitRetryDelayMs
  {
    BackOffHolds(cfg, events, i);
  }

  lemma {:induction false} BackOffHolds(cfg: PacerConfig, events: seq<Event>, i: nat)
    requires ValidConfig(cfg) && i < |events| && events[i].BackOff?
    ensures var before := |After(cfg, events[..i + 1]).batches|;
            var s := After(cfg, events);
            && before <= |s.batches|
            && s.nextSendAt >= events[i].now + cfg.rateLimitRetryDelayMs
            && forall k :: before <= k < |s.batches| ==>
                 s.batches[k].sendAt >= events[i].now + cfg.rateLimitRetryDelayMs
  {
    var n := |events| - 1;
    if i < n {
      assert events[..n][..i + 1] == events[..i + 1];
      BackOffHolds(cfg, events[..n], i);
      if events[n].Reserve? {
        SlotCoversItems(cfg, events[n].items);
      }
    } else {
      assert events[..i + 1] == events;
    }
  }

  // ---- retrying rate-limited items ----

  datatype Payload = Payload(id: int, body: string)

  /** An answer, with the code of its error if it carries one. */
  datatype Response = Response(id: int, error: Option<int>, body: string)

  const RATE_LIMITED: int := -32011

  predicate IsRateLimited(r: Response) {
    r.error == Some(RATE_LIMITED)
  }

  /** What the remote end answers to a batch at an attempt. */
  type Transport = (nat, seq<Payload>) -> seq<Response>

  function LimitedIds(response: seq<Response>): set<int> {
    set r | r in response && IsRateLimited(r) :: r.id
  }

  /** The pending items that were rejected as rate limited. */
  function ToRetry(pending: seq<Payload>, limited: set<int>): seq<Payload> {
    if pending == [] then []
    else (if pending[0].id in limited then [pending[0]] else []) + ToRetry(pending[1..], limited)
  }

  /** The answers that are kept. */
  function Settled(response: seq<Response>, limited: set<int>): seq<Response> {
    if response == [] then []
    else (if response[0].id in limited then [] else [response[0]]) + Settled(response[1..], limited)
  }

  /** All batches sent from an attempt on. */
  function SentBatches(cfg: PacerConfig, transport: Transport, pending: seq<Payload>, attempt: nat): seq<seq<Payload>>
    decreases cfg.maxRateLimitRetries - attempt
  {
    var retry := ToRetry(pending, LimitedIds(transport(attempt, pending)));
    if retry == [] || attempt >= cfg.maxRateLimitRetries then [pending]
    else [pending] + SentBatches(cfg, transport, retry, attempt + 1)
  }

  /** What is returned from an attempt on. */
  function Answers(cfg: PacerConfig, transport: Transport, pending: seq<Payload>, attempt: nat): seq<Response>
    decreases cfg.maxRateLimitRetries - attempt
  {
    var response := transport(attempt, pending);
    var limited := LimitedIds(response);
    var retry := ToRetry(pending, limited);
    if retry == [] || attempt >= cfg.maxRateLimitRetries then response
    else Settled(response, limited) + Answers(cfg, transport, retry, attempt + 1)
  }

  function PayloadIds(items: seq<Payload>): seq<int> {
    if items == [] then [] else [items[0].id] + PayloadIds(items[1..])
  }

  function ResponseIds(items: seq<Response>): seq<int> {
    if items == [] then [] else [items[0].id] + ResponseIds(items[1..])
  }

  /** Every pending id is answered exactly once. */
  ghost predicate AnswersOnce(transport: Transport) {
    forall attempt: nat, pending: seq<Payload> ::
      multiset(ResponseIds(transport(attempt, pending))) == multiset(PayloadIds(pending))
  }

  lemma {:induction false} ToRetryCount(pending: seq<Payload>, limited: set<int>, id: int)
    ensures multiset(PayloadIds(ToRetry(pending, limited)))[id]
         == if id in limited then multiset(PayloadIds(pending))[id] else 0
  {
    if pending != [] {
      var rest := ToRetry(pending[1..], limited);
      ToRetryCount(pending[1..], limited, id);
      assert PayloadIds(pending) == [pending[0].id] + PayloadIds(pending[1..]);
      if pending[0].id in limited {
        assert ToRetry(pending, limited)[1..] == rest;
        assert PayloadIds(ToRetry(pending, limited)) == [pending[0].id] + PayloadIds(rest);
      } else {
        assert ToRetry(pending, limited) == rest;
      }
    }
  }

  lemma {:induction false} SettledCount(response: seq<Response>, limited: set<int>, id: int)
    ensures multiset(ResponseIds(Settled(response, limited)))[id]
         == if id in limited then 0 else multiset(ResponseIds(response))[id]
  {
    if response != [] {
      var rest := Settled(response[1..], limited);
      SettledCount(response[1..], limited, id);
      assert ResponseIds(response) == [response[0].id] + ResponseIds(response[1..]);
      if response[0].id in limited {
        assert Settled(response, limited) == rest;
      } else {
        assert Settled(response, limited)[1..] == rest;
        assert ResponseIds(Settled(response, limited)) == [response[0].id] + ResponseIds(rest);
      }
    }
  }

  lemma {:induction false} ResponseIdsConcat(a: seq<Response>, b: seq<Response>)
    ensures ResponseIds(a + b) == ResponseIds(a) + ResponseIds(b)
  {
    if a == [] {
      assert a + b == b;
    } else {
      ResponseIdsConcat(a[1..], b);
      assert (a + b)[1..] == a[1..] + b;
    }
  }

  /** What is kept and what is answered later make up one answer per pending item. */
  lemma KeptAndRetried(pending: seq<Payload>, response: seq<Response>, rest: seq<Response>, limited: set<int>)
    requires multiset(ResponseIds(response)) == multiset(PayloadIds(pending))
    requires multiset(ResponseIds(rest)) == multiset(PayloadIds(ToRetry(pending, limited)))
    ensures multiset(ResponseIds(Settled(response, limited) + rest)) == multiset(PayloadIds(pending))
  {
    hide ToRetry, Settled, ResponseIds, PayloadIds;
    var kept := Settled(response, limited);
    ResponseIdsConcat(kept, rest);
    forall id ensures multiset(ResponseIds(kept + rest))[id] == multiset(PayloadIds(pending))[id] {
      ToRetryCount(pending, limited, id);
      SettledCount(response, limited, id);
    }
  }

  /** Exactly one response comes back per original item, however often it was rate limited. */
  lemma {:induction false} OneAnswerEach(cfg: PacerConfig, transport: Transport, pending: seq<Payload>, attempt: nat)
    requires AnswersOnce(transport)
    ensures multiset(ResponseIds(Answers(cfg, transport, pending, attempt))) == multiset(PayloadIds(pending))
    decreases cfg.maxRateLimitRetries - attempt
  {
    hide ToRetry, Settled, ResponseIds, PayloadIds, LimitedIds;
    var response := transport(attempt, pending);
    assert multiset(ResponseIds(response)) == multiset(PayloadIds(pending));
    var limited := LimitedIds(response);
    var retry := ToRetry(pending, limited);
    if retry != [] && attempt < cfg.maxRateLimitRetries {
      OneAnswerEach(cfg, transport, retry, attempt + 1);
      KeptAndRetried(pending, response, Answers(cfg, transport, retry, attempt + 1), limited);
    }
  }

  lemma {:induction false} ToRetryShrinks(pending: seq<Payload>, limited: set<int>)
    ensures |ToRetry(pending, limited)| <= |pending|
    ensures forall p :: p in ToRetry(pending, limited) <==> p in pending && p.id in limited
  {
    if pending != [] {
      ToRetryShrinks(pending[1..], limited);
      assert pending == [pending[0]] + pending[1..];
    }
  }

  /** Some answer to the item carries the error code of rate limiting. */
  ghost predicate WasLimited(p: Payload, response: seq<Response>) {
    exists i :: 0 <= i < |response| && response[i].id == p.id && response[i].error == Some(-32011)
  }

  lemma LimitedIdsExactly(p: Payload, response: seq<Response>)
    ensures p.id in LimitedIds(response) <==> WasLimited(p, response)
  {
    if p.id in LimitedIds(response) {
      var r :| r in response && IsRateLimited(r) && r.id == p.id;
      var i :| 0 <= i < |response| && response[i] == r;
    }
    if WasLimited(p, response) {
      var i :| 0 <= i < |response| && response[i].id == p.id && response[i].error == Some(-32011);
      assert response[i] in response && IsRateLimited(response[i]);
    }
  }

  /** A batch that resends exactly the items an answer rejected as rate limited. */
  ghost predicate Resends(next: seq<Payload>, previous: seq<Payload>, response: seq<Response>) {
    |next| <= |previous| && forall p :: p in next <==> p in previous && WasLimited(p, response)
  }

  /** At most one call more than the allowed retries is made, no batch is larger than the
      original, and each later batch holds exactly the items just rejected as rate limited. */
  lemma {:induction false} ResendsOnlyLimited(
      cfg: PacerConfig, transport: Transport, pending: seq<Payload>, attempt: nat)
    requires attempt <= cfg.maxRateLimitRetries
    ensures var sent := SentBatches(cfg, transport, pending, attempt);
            && sent != [] && sent[0] == pending
            && |sent| <= cfg.maxRateLimitRetries - attempt + 1
            && (forall i :: 0 <= i < |sent| ==> |sent[i]| <= |pending|)
            && forall i, j :: 0 <= i < j < |sent| && j == i + 1 ==>
                 Resends(sent[j], sent[i], transport(attempt + i, sent[i]))
    decreases cfg.maxRateLimitRetries - attempt
  {
    hide ToRetry, LimitedIds, Resends;
    var response := transport(attempt, pending);
    var retry := ToRetry(pending, LimitedIds(response));
    if retry != [] && attempt < cfg.maxRateLimitRetries {
      ToRetryShrinks(pending, LimitedIds(response));
      RetryResends(pending, response);
      ResendsOnlyLimited(cfg, transport, retry, attempt + 1);
      var rest := SentBatches(cfg, transport, retry, attempt + 1);
      var sent := SentBatches(cfg, transport, pending, attempt);
      assert sent == [pending] + rest;
      forall i, j | 0 <= i < j < |sent| && j == i + 1
        ensures Resends(sent[j], sent[i], transport(attempt + i, sent[i]))
      {
        if i > 0 {
          assert sent[i] == rest[i - 1] && sent[j] == rest[j - 1];
          assert Resends(rest[j - 1], rest[i - 1], transport(attempt + 1 + (i - 1), rest[i - 1]));
        }
      }
    }
  }

  /** Whether another batch follows: exactly when retries are left and some item of the batch was
      rejected as rate limited. */
  lemma {:induction false} StopsExactlyWhen(
      cfg: PacerConfig, transport: Transport, pending: seq<Payload>, attempt: nat, k: nat)
    requires attempt <= cfg.maxRateLimitRetries
    requires k < |SentBatches(cfg, transport, pending, attempt)|
    ensures var sent := SentBatches(cfg, transport, pending, attempt);
            var limited := exists p :: p in sent[k] && WasLimited(p, transport(attempt + k, sent[k]));
            k + 1 < |sent| <==> attempt + k < cfg.maxRateLimitRetries && limited
    decreases cfg.maxRateLimitRetries - attempt
  {
    hide ToRetry, LimitedIds, Resends, WasLimited;
    var response := transport(attempt, pending);
    var retry := ToRetry(pending, LimitedIds(response));
    var sent := SentBatches(cfg, transport, pending, attempt);
    RetryIsLimited(pending, response);
    if retry != [] && attempt < cfg.maxRateLimitRetries {
      assert sent == [pending] + SentBatches(cfg, transport, retry, attempt + 1);
      if k > 0 {
        StopsExactlyWhen(cfg, transport, retry, attempt + 1, k - 1);
        assert sent[k] == SentBatches(cfg, transport, retry, attempt + 1)[k - 1];
        assert attempt + k == attempt + 1 + (k - 1);
      } else {
        ResendsOnlyLimited(cfg, transport, retry, attempt + 1);
      }
    }
  }

  lemma RetryIsLimited(pending: seq<Payload>, response: seq<Response>)
    ensures ToRetry(pending, LimitedIds(response)) != [] <==> exists p :: p in pending && WasLimited(p, response)
  {
    hide LimitedIds, WasLimited, ToRetry;
    RetryResends(pending, response);
    var retry := ToRetry(pending, LimitedIds(response));
    if retry != [] {
      assert retry[0] in retry;
    }
    if p :| p in pending && WasLimited(p, response) {
      assert p in retry;
    }
  }

  /** What is returned: of the last batch every answer, of the earlier ones those to items that were
      not rejected as rate limited. */
  ghost predicate ReturnedFrom(r: Response, sent: seq<seq<Payload>>, transport: Transport, attempt: nat, k: nat) {
    && k < |sent| && r in transport(attempt + k, sent[k])
    && (k + 1 < |sent| ==>
          forall q :: q in transport(attempt + k, sent[k]) && q.id == r.id ==> q.error != Some(-32011))
  }

  ghost predicate Returned(r: Response, sent: seq<seq<Payload>>, transport: Transport, attempt: nat) {
    exists k: nat :: ReturnedFrom(r, sent, transport, attempt, k)
  }

  lemma {:induction false} ReturnsExactly(
      cfg: PacerConfig, transport: Transport, pending: seq<Payload>, attempt: nat, r: Response)
    requires attempt <= cfg.maxRateLimitRetries
    ensures r in Answers(cfg, transport, pending, attempt) <==>
              Returned(r, SentBatches(cfg, transport, pending, attempt), transport, attempt)
    decreases cfg.maxRateLimitRetries - attempt
  {
    hide ToRetry, LimitedIds, Settled, Returned, ReturnedFrom;
    var response := transport(attempt, pending);
    var limited := LimitedIds(response);
    var retry := ToRetry(pending, limited);
    var sent := SentBatches(cfg, transport, pending, attempt);
    if retry == [] || attempt >= cfg.maxRateLimitRetries {
      assert sent == [pending];
      ReturnedAtOnce(r, pending, transport, attempt);
    } else {
      var rest := SentBatches(cfg, transport, retry, attempt + 1);
      ReturnsExactly(cfg, transport, retry, attempt + 1, r);
      ResendsOnlyLimited(cfg, transport, retry, attempt + 1);
      assert sent == [pending] + rest;
      ReturnedInRounds(r, pending, rest, transport, attempt, attempt + 1);
    }
  }

  lemma ReturnedAtOnce(r: Response, pending: seq<Payload>, transport: Transport, attempt: nat)
    ensures Returned(r, [pending], transport, attempt) <==> r in transport(attempt, pending)
  {
    if r in transport(attempt, pending) {
      assert ReturnedFrom(r, [pending], transport, attempt, 0);
    }
  }

  lemma ReturnedInRounds(r: Response, first: seq<Payload>, rest: seq<seq<Payload>>, transport: Transport,
                         attempt: nat, next: nat)
    requires rest != [] && next == attempt + 1
    ensures Returned(r, [first] + rest, transport, attempt) <==>
              || r in Settled(transport(attempt, first), LimitedIds(transport(attempt, first)))
              || Returned(r, rest, transport, next)
  {
    hide ReturnedFrom;
    SettledExactly(transport(attempt, first), r);
    ReturnedFirst(r, first, rest, transport, attempt);
    if k: nat :| ReturnedFrom(r, [first] + rest, transport, attempt, k) {
      if k > 0 {
        ReturnedLater(r, first, rest, transport, attempt, k - 1);
        assert ReturnedFrom(r, rest, transport, next, k - 1);
      }
    }
    if k: nat :| ReturnedFrom(r, rest, transport, next, k) {
      ReturnedLater(r, first, rest, transport, attempt, k);
    }
  }

  lemma ReturnedFirst(r: Response, first: seq<Payload>, rest: seq<seq<Payload>>, transport: Transport, attempt: nat)
    requires rest != []
    ensures ReturnedFrom(r, [first] + rest, transport, attempt, 0) <==>
              && r in transport(attempt, first)
              && forall q :: q in transport(attempt, first) && q.id == r.id ==> q.error != Some(-32011)
  {
  }

  lemma ReturnedLater(
      r: Response, first: seq<Payload>, rest: seq<seq<Payload>>, transport: Transport, attempt: nat, k: nat)
    ensures ReturnedFrom(r, rest, transport, attempt + 1, k) <==>
              ReturnedFrom(r, [first] + rest, transport, attempt, k + 1)
  {
    assert attempt + 1 + k == attempt + (k + 1);
  }

  lemma SettledExactly(response: seq<Response>, r: Response)
    ensures r in Settled(response, LimitedIds(response)) <==>
              r in response && forall q :: q in response && q.id == r.id ==> q.error != Some(-32011)
  {
    SettledKeeps(response, LimitedIds(response), r);
  }

  lemma {:induction false} SettledKeeps(response: seq<Response>, limited: set<int>, r: Response)
    ensures r in Settled(response, limited) <==> r in response && r.id !in limited
  {
    if response != [] {
      SettledKeeps(response[1..], limited, r);
      assert response == [response[0]] + response[1..];
    }
  }

  /** If every pending item is answered once, a rate-limited answer is returned only from the last
      allowed attempt. */
  lemma LimitedOnlyAtTheEnd(cfg: PacerConfig, transport: Transport, payload: seq<Payload>, r: Response)
    requires AnswersOnce(transport) && r in Answers(cfg, transport, payload, 0) && r.error == Some(-32011)
    ensures var sent := SentBatches(cfg, transport, payload, 0);
            |sent| == cfg.maxRateLimitRetries + 1 && r in transport(|sent| - 1, sent[|sent| - 1])
  {
    hide Answers, SentBatches, AnswersOnce, WasLimited, Resends;
    var sent := SentBatches(cfg, transport, payload, 0);
    ReturnsExactly(cfg, transport, payload, 0, r);
    ResendsOnlyLimited(cfg, transport, payload, 0);
    var k: nat :| ReturnedFrom(r, sent, transport, 0, k);
    assert k + 1 == |sent|;
    StopsExactlyWhen(cfg, transport, payload, 0, k);
    LimitedIsPending(transport, k, sent[k], r);
  }

  lemma LimitedIsPending(transport: Transport, attempt: nat, pending: seq<Payload>, r: Response)
    requires AnswersOnce(transport) && r in transport(attempt, pending) && r.error == Some(-32011)
    ensures exists p :: p in pending && WasLimited(p, transport(attempt, pending))
  {
    var response := transport(attempt, pending);
    assert multiset(ResponseIds(response)) == multiset(PayloadIds(pending));
    ResponseHasId(response, r);
    var p := PayloadOfId(pending, r.id);
    var i :| 0 <= i < |response| && response[i] == r;
    assert WasLimited(p, response);
  }

  lemma {:induction false} ResponseHasId(response: seq<Response>, r: Response)
    requires r in response
    ensures r.id in multiset(ResponseIds(response))
  {
    assert response == [response[0]] + response[1..];
    assert ResponseIds(response)[0] == response[0].id;
    if r != response[0] {
      ResponseHasId(response[1..], r);
      assert ResponseIds(response) == [response[0].id] + ResponseIds(response[1..]);
    }
  }

  lemma {:induction false} PayloadOfId(pending: seq<Payload>, id: int) returns (p: Payload)
    requires id in multiset(PayloadIds(pending))
    ensures p in pending && p.id == id
  {
    assert PayloadIds(pending) == [pending[0].id] + PayloadIds(pending[1..]);
    if pending[0].id == id {
      p := pending[0];
    } else {
      p := PayloadOfId(pending[1..], id);
    }
  }

  lemma RetryResends(pending: seq<Payload>, response: seq<Response>)
    ensures Resends(ToRetry(pending, LimitedIds(response)), pending, response)
  {
    hide LimitedIds, WasLimited, ToRetry;
    ToRetryShrinks(pending, LimitedIds(response));
    forall p: Payload ensures p.id in LimitedIds(response) <==> WasLimited(p, response) {
      LimitedIdsExactly(p, response);
    }
  }

  /** One round of the loop: what is kept and sent now, and what is left to the next round. */
  lemma RoundUnfolds(cfg: PacerConfig, transport: Transport, pending: seq<Payload>, attempt: nat,
                     results: seq<Response>, sent: seq<seq<Payload>>)
    ensures var response := transport(attempt, pending);
            var limited := LimitedIds(response);
            var retry := ToRetry(pending, limited);
            if retry == [] || attempt >= cfg.maxRateLimitRetries then
              && results + Answers(cfg, transport, pending, attempt) == results + response
              && sent + SentBatches(cfg, transport, pending, attempt) == sent + [pending]
            else
              && results + Answers(cfg, transport, pending, attempt)
                 == results + Settled(response, limited) + Answers(cfg, transport, retry, attempt + 1)
              && sent + SentBatches(cfg, transport, pending, attempt)
                 == sent + [pending] + SentBatches(cfg, transport, retry, attempt + 1)
              && sent < sent + SentBatches(cfg, transport, pending, attempt)
  {
  }

  /** What each sent batch claims from the schedule. */
  function Sizes(sent: seq<seq<Payload>>): seq<nat> {
    seq(|sent|, i requires 0 <= i < |sent| => |sent[i]|)
  }

  function BatchSizes(batches: seq<Batch>): seq<nat> {
    seq(|batches|, i requires 0 <= i < |batches| => batches[i].items)
  }

  /** The schedule's new batches are the ones sent, size by size. */
  ghost predicate ClaimsSent(before: seq<Batch>, after: seq<Batch>, sent: seq<seq<Payload>>) {
    BatchSizes(after) == BatchSizes(before) + Sizes(sent)
  }

  lemma ClaimsOneMore(before: seq<Batch>, after: seq<Batch>, sent: seq<seq<Payload>>, at: int, pending: seq<Payload>)
    requires ClaimsSent(before, after, sent)
    ensures ClaimsSent(before, after + [Batch(at, |pending|)], sent + [pending])
  {
    assert BatchSizes(after + [Batch(at, |pending|)]) == BatchSizes(after) + [|pending|];
    assert Sizes(sent + [pending]) == Sizes(sent) + [|pending|];
  }

  /** Sending batches of at most some size keeps the schedule to batches of at most that size. */
  lemma SentStaysAtMost(before: seq<Batch>, after: seq<Batch>, sent: seq<seq<Payload>>, most: nat)
    requires ClaimsSent(before, after, sent) && BatchesAtMost(before, most)
    requires forall i :: 0 <= i < |sent| ==> |sent[i]| <= most
    ensures BatchesAtMost(after, most)
  {
    assert |after| == |BatchSizes(after)|;
    forall i | 0 <= i < |after| ensures after[i].items <= most {
      assert after[i].items == BatchSizes(after)[i];
      assert i < |before| ==> BatchSizes(after)[i] == before[i].items;
    }
  }

  lemma ClaimsNothing(before: seq<Batch>)
    ensures ClaimsSent(before, before, [])
  {
  }

  lemma ReserveUnfolds(cfg: PacerConfig, events: seq<Event>, now: int, items: nat)
    requires ValidConfig(cfg)
    ensures var s := After(cfg, events);
            var sendAt := Max(now, s.nextSendAt);
            After(cfg, events + [Reserve(now, items)])
            == if sendAt - now > cfg.maxQueueDelayMs then s
               else Schedule(sendAt + SlotMs(cfg, items), s.batches + [Batch(sendAt, items)])
  {
    hide SlotMs;
    assert (events + [Reserve(now, items)])[..|events|] == events;
  }

  lemma BackOffClaimsNothing(cfg: PacerConfig, events: seq<Event>, now: int)
    requires ValidConfig(cfg)
    ensures After(cfg, events + [BackOff(now)])
         == After(cfg, events).(nextSendAt := Max(After(cfg, events).nextSendAt, now + cfg.rateLimitRetryDelayMs))
  {
    assert (events + [BackOff(now)])[..|events|] == events;
  }

  /** Whatever a send claims, if it starts from batches of at most some size and its payload is no
      larger, the schedule keeps to batches of at most that size. */
  lemma SendStaysAtMost(cfg: PacerConfig, transport: Transport, payload: seq<Payload>,
                        before: seq<Batch>, after: seq<Batch>, sent: seq<seq<Payload>>, most: nat)
    requires ClaimsSent(before, after, sent) && sent <= SentBatches(cfg, transport, payload, 0)
    requires |payload| <= most && BatchesAtMost(before, most)
    ensures BatchesAtMost(after, most)
  {
    hide ClaimsSent, BatchesAtMost, Resends;
    ResendsOnlyLimited(cfg, transport, payload, 0);
    SentStaysAtMost(before, after, sent, most);
  }

  /** What sending `n` batches does to the schedule: the k-th one is reserved at reading 2k, and a
      back-off at reading 2k + 1 comes before the next. */
  ghost predicate Alternates(events: seq<Event>, sizes: seq<nat>, clock: nat -> int) {
    && |events| == 2 * |sizes|
    && forall k :: 0 <= k < |sizes| ==>
         && events[2 * k] == Reserve(clock(2 * k), sizes[k])
         && events[2 * k + 1] == BackOff(clock(2 * k + 1))
  }

  lemma SizesOneMore(sent: seq<seq<Payload>>, pending: seq<Payload>)
    ensures Sizes(sent + [pending]) == Sizes(sent) + [|pending|] && |Sizes(sent)| == |sent|
  {
  }

  lemma AlternatesOneMore(events: seq<Event>, sizes: seq<nat>, clock: nat -> int, size: nat)
    requires Alternates(events, sizes, clock)
    ensures var n := |sizes|;
            Alternates(events + [Reserve(clock(2 * n), size)] + [BackOff(clock(2 * n + 1))], sizes + [size], clock)
  {
  }

  /** The events of a send: full rounds for all but the last batch, and the reservation it ended on. */
  ghost predicate SendEvents(events: seq<Event>, sent: seq<seq<Payload>>, rounds: nat, clock: nat -> int)
    requires rounds <= |sent|
  {
    && |events| == 2 * rounds + 1
    && Alternates(events[..2 * rounds], Sizes(sent[..rounds]), clock)
    && events[2 * rounds].Reserve? && events[2 * rounds].now == clock(2 * rounds)
    && (rounds < |sent| ==> events[2 * rounds].items == |sent[rounds]|)
  }

  lemma EndsOn(trace: seq<Event>, sent: seq<seq<Payload>>, rounds: nat, clock: nat -> int, items: nat)
    requires rounds <= |sent| && Alternates(trace, Sizes(sent[..rounds]), clock)
    requires rounds < |sent| ==> items == |sent[rounds]|
    ensures SendEvents(trace + [Reserve(clock(2 * rounds), items)], sent, rounds, clock)
  {
    hide Alternates;
    AlternatesLength(trace, Sizes(sent[..rounds]), clock);
    assert (trace + [Reserve(clock(2 * rounds), items)])[..2 * rounds] == trace;
  }

  lemma AlternatesLength(events: seq<Event>, sizes: seq<nat>, clock: nat -> int)
    requires Alternates(events, sizes, clock)
    ensures |events| == 2 * |sizes|
  {
  }

  /** How far a send has come: what it keeps, sends and does to the schedule from here on completes
      what it does in all. */
  ghost predicate Going(cfg: PacerConfig, transport: Transport, payload: seq<Payload>, clock: nat -> int,
                        pending: seq<Payload>, results: seq<Response>, sent: seq<seq<Payload>>, trace: seq<Event>) {
    && results + Answers(cfg, transport, pending, |sent|) == Answers(cfg, transport, payload, 0)
    && sent + SentBatches(cfg, transport, pending, |sent|) == SentBatches(cfg, transport, payload, 0)
    && Alternates(trace, Sizes(sent), clock)
  }

  lemma GoingAtFirst(cfg: PacerConfig, transport: Transport, payload: seq<Payload>, clock: nat -> int)
    ensures Going(cfg, transport, payload, clock, payload, [], [], [])
  {
    hide Answers, SentBatches;
  }

  /** One more round: it ends with the last answers, or goes on with the items to retry. */
  lemma GoesOn(cfg: PacerConfig, transport: Transport, payload: seq<Payload>, clock: nat -> int,
               pending: seq<Payload>, results: seq<Response>, sent: seq<seq<Payload>>, trace: seq<Event>)
    requires Going(cfg, transport, payload, clock, pending, results, sent, trace)
    ensures var n := |sent|;
            var response := transport(n, pending);
            var limited := LimitedIds(response);
            var retry := ToRetry(pending, limited);
            var reserved := trace + [Reserve(clock(2 * n), |pending|)];
            && sent < SentBatches(cfg, transport, payload, 0)
            && sent + [pending] <= SentBatches(cfg, transport, payload, 0)
            && SendEvents(reserved, sent, n, clock) && SendEvents(reserved, sent + [pending], n, clock)
            && if |retry| == 0 || n >= cfg.maxRateLimitRetries then
                 && results + response == Answers(cfg, transport, payload, 0)
                 && sent + [pending] == SentBatches(cfg, transport, payload, 0)
               else
                 Going(cfg, transport, payload, clock, retry, results + Settled(response, limited), sent + [pending],
                       reserved + [BackOff(clock(2 * n + 1))])
  {
    hide Answers, SentBatches, ToRetry, Settled, LimitedIds, Sizes, Alternates, SendEvents;
    var n := |sent|;
    RoundUnfolds(cfg, transport, pending, n, results, sent);
    assert sent[..n] == sent && (sent + [pending])[..n] == sent;
    EndsOn(trace, sent, n, clock, |pending|);
    EndsOn(trace, sent + [pending], n, clock, |pending|);
    SizesOneMore(sent, pending);
    AlternatesOneMore(trace, Sizes(sent), clock, |pending|);
  }

  datatype SendError = Timeout | TransportFailed

  class PacedJsonRpcProvider {
    const cfg: PacerConfig
    var nextSendAt: int
    /** Everything that has happened to the scheduler. */
    ghost var events: seq<Event>

    ghost predicate Valid()
      reads this
    {
      ValidConfig(cfg) && nextSendAt == After(cfg, events).nextSendAt
    }

    constructor (cfg: PacerConfig)
      requires ValidConfig(cfg)
      ensures Valid() && this.cfg == cfg && events == []
    {
      this.cfg := cfg;
      nextSendAt := 0;
      events := [];
    }

    /** Claims the next slots for a batch, unless the wait would be too long. */
    method ReserveSlots(items: nat, now: int) returns (res: Result<int, SendError>)
      requires Valid()
      modifies this
      ensures Valid() && events == old(events) + [Reserve(now, items)]
      ensures res.Ok? <==> Max(now, old(nextSendAt)) - now <= cfg.maxQueueDelayMs
      ensures res.Err? ==> res.error.Timeout?
      ensures After(cfg, events).batches
           == After(cfg, old(events)).batches + if res.Ok? then [Batch(res.value, items)] else []
    {
      hide After;
      ReserveUnfolds(cfg, events, now, items);
      events := events + [Reserve(now, items)];
      var sendAt := if now > nextSendAt then now else nextSendAt;
      if sendAt - now > cfg.maxQueueDelayMs {
        return Err(Timeout);
      }
      nextSendAt := sendAt + (items * 1000 + cfg.requestsPerSecond - 1) / cfg.requestsPerSecond;
      return Ok(sendAt);
    }

    /** Leaves a pause after rate limiting. */
    method DelayNext(now: int)
      requires Valid()
      modifies this
      ensures Valid() && events == old(events) + [BackOff(now)]
      ensures After(cfg, events).batches == After(cfg, old(events)).batches
    {
      BackOffClaimsNothing(cfg, events, now);
      events := events + [BackOff(now)];
      nextSendAt := Max(nextSendAt, now + cfg.rateLimitRetryDelayMs);
    }

    /** Sends a batch, resending rate-limited items; `clock(k)` is the k-th clock reading, and the
        transport throws at the attempts that `breaks` names. */
    method Send(payload: seq<Payload>, transport: Transport, breaks: nat -> bool, clock: nat -> int)
        returns (res: Result<seq<Response>, SendError>, ghost sent: seq<seq<Payload>>)
      requires Valid()
      modifies this
      ensures Valid() && old(events) <= events
      ensures res == Err(Timeout) || sent != []
      ensures SendEvents(events[|old(events)|..], sent, if res == Err(Timeout) then |sent| else |sent| - 1, clock)
      ensures ClaimsSent(After(cfg, old(events)).batches, After(cfg, events).batches, sent)
      ensures res.Ok? ==> res.value == Answers(cfg, transport, payload, 0)
      ensures res.Ok? ==> sent == SentBatches(cfg, transport, payload, 0)
      ensures res == Err(Timeout) ==> sent < SentBatches(cfg, transport, payload, 0)
      ensures res == Err(TransportFailed) ==>
                sent != [] && sent <= SentBatches(cfg, transport, payload, 0) && breaks(|sent| - 1)
      ensures forall i :: 0 <= i < |sent| && breaks(i) ==> i == |sent| - 1 && res == Err(TransportFailed)
    {
      hide Answers, SentBatches, ToRetry, Settled, LimitedIds, After, ClaimsSent, SendEvents, Going, Max;
      ghost var first := After(cfg, events).batches;
      ghost var trace: seq<Event> := [];
      ClaimsNothing(first);
      GoingAtFirst(cfg, transport, payload, clock);
      var pending := payload;
      var results: seq<Response> := [];
      var attempt := 0;
      var reading := 0;
      sent := [];
      while true
        invariant Valid() && events == old(events) + trace
        invariant attempt <= cfg.maxRateLimitRetries && reading == 2 * attempt
        invariant Going(cfg, transport, payload, clock, pending, results, sent, trace)
        invariant ClaimsSent(first, After(cfg, events).batches, sent)
        invariant |sent| == attempt && forall i :: 0 <= i < attempt ==> !breaks(i)
        decreases cfg.maxRateLimitRetries - attempt
      {
        GoesOn(cfg, transport, payload, clock, pending, results, sent, trace);
        ghost var before := After(cfg, events).batches;
        var slot := ReserveSlots(|pending|, clock(reading));
        trace := trace + [Reserve(clock(reading), |pending|)];
        assert events[|old(events)|..] == trace;
        if slot.Err? {
          assert After(cfg, events).batches == before;
          return Err(slot.error), sent;
        }
        ClaimsOneMore(first, before, sent, slot.value, pending);
        sent := sent + [pending];
        if breaks(attempt) {
          return Err(TransportFailed), sent;
        }
        var response := transport(attempt, pending);
        var limited := LimitedIds(response);
        var retry := ToRetry(pending, limited);
        if |retry| == 0 || attempt >= cfg.maxRateLimitRetries {
          return Ok(results + response), sent;
        }
        results := results + Settled(response, limited);
        pending := retry;
        DelayNext(clock(reading + 1));
        trace := trace + [BackOff(clock(reading + 1))];
        reading := reading + 2;
        attempt := attempt + 1;
      }
    }
  }
}
