/** A fill gives its lease back without lowering the availability, so the availability bounds what
    is outstanding at a time, and not what is settled over time. */
module SettledVolume {
  import opened Results
  import opened RfqTypes
  import opened QuoteTransactions
  import opened QuoteLifecycle
  import opened QuoteConservation
  import opened QuoteStoreInvariants
  import opened QuoteStoreTheorems
  import opened QuoteStoreOutcomes
  import opened SampleTerms

  /** The secret of the k-th request; none is empty, and all are different. */
  function Secret(k: nat): Digest { OfSecret(seq(k + 1, _ => 'k')) }

  /** The quote for the whole availability under the k-th nonce. */
  function QuoteFor(amount: nat, k: nat): SignedQuote {
    var scope, r := TheScope(), TheRequest();
    SignedQuote(Quote(scope.maker, r.taker, r.tokenIn, r.tokenOut, r.amountIn, amount, r.venue, r.policyId, k + 1, 60),
                TheSignature(), Domain(scope.chainId, scope.adapter))
  }

  function ReserveAll(amount: nat, k: nat): Op {
    Reserve(ReserveInput(TheScope(), Secret(k), OfRequest(TheRequest()), TheRequest(), TheKey(), amount, 60, 0, None))
  }

  function PublishAll(amount: nat, k: nat): Op {
    var sq := QuoteFor(amount, k);
    MarkSigned(TheScope(), Secret(k), OfRequest(TheRequest()), sq, OfQuote(sq.quote, sq.domain), None, 0)
  }

  function ObserveFill(k: nat): Op {
    MarkObserved(TheScope(), k + 1, TheFill(), 0)
  }

  function SettleFill(depth: int, k: nat): Op {
    Reconcile(TheScope(), k + 1, depth, Some(TheBlockHash()), 0)
  }

  /** Reserve everything, publish, observe the fill, settle it. */
  function Cycle(amount: nat, depth: int, k: nat): seq<Op> {
    [ReserveAll(amount, k), PublishAll(amount, k), ObserveFill(k), SettleFill(depth, k)]
  }

  function Cycles(amount: nat, depth: int, n: nat): seq<Op> {
    if n == 0 then [] else Cycles(amount, depth, n - 1) + Cycle(amount, depth, n - 1)
  }

  predicate FilledInFull(r: Record, amount: nat, k: nat) {
    && r.state.Filled? && r.lease.key == TheKey() && r.lease.amount == amount
    && r.scope == TheScope() && r.keyHash == Secret(k)
  }

  /** After n cycles: n filled records of the full amount, and nothing outstanding. */
  ghost predicate AllFilled(s: Store, amount: nat, n: nat) {
    && Inv(s)
    && TheKey() in s.inventory && s.inventory[TheKey()].available == amount
    && LastNonce(s, TheScope()) == n && |s.records| == n
    && forall k :: 0 <= k < n ==> FilledInFull(s.records[k], amount, k)
  }

  /** In the middle of a cycle: the earlier records are as they were, the last one is at `state`. */
  ghost predicate InCycle(s: Store, amount: nat, n: nat, state: LifecycleState) {
    && Inv(s)
    && TheKey() in s.inventory && s.inventory[TheKey()].available == amount
    && LastNonce(s, TheScope()) == n + 1 && |s.records| == n + 1
    && (forall k :: 0 <= k < n ==> FilledInFull(s.records[k], amount, k))
    && (var r := s.records[n];
        && r.state == state && r.lease.key == TheKey() && r.lease.amount == amount && r.lease.expiresAt == 60
        && r.scope == TheScope() && r.keyHash == Secret(n) && r.requestHash == OfRequest(TheRequest())
        && r.nonce == n + 1
        && (state.FillObserved? ==> r.observed == Some(TheFill())))
  }

  lemma {:induction false} NothingHeld(records: seq<Record>, key: InventoryKey)
    requires forall i :: 0 <= i < |records| ==> records[i].lease.released
    ensures Sum(records, HeldAt(0), key) == 0
  {
    if records != [] {
      NothingHeld(records[..|records| - 1], key);
    }
  }

  lemma SecretsDiffer(j: nat, k: nat)
    requires j != k
    ensures Secret(j) != Secret(k)
  {
    assert |Secret(j).secret| == j + 1 && |Secret(k).secret| == k + 1;
  }

  lemma FilledIsReleased(s: Store, i: nat)
    requires Inv(s) && i < |s.records| && s.records[i].state.Filled?
    ensures s.records[i].lease.released
  {
    assert RecordOk(s.records[i]);
  }

  lemma CommitStore(s: Store, op: Op, depth: int)
    requires Apply(s, op, depth).Ok?
    ensures Commit(s, op, depth) == Apply(s, op, depth).value.store
  {
    hide Apply;
  }

  lemma Reserves(s: Store, amount: nat, depth: int, n: nat)
    requires AllFilled(s, amount, n)
    ensures InCycle(Commit(s, ReserveAll(amount, n), depth), amount, n, Reserved)
  {
    hide Inv, StoreEvolves, Commit, Apply, Sum, Secret, FindByKey;
    var op := ReserveAll(amount, n);
    forall i | 0 <= i < |s.records| ensures s.records[i].lease.released && !Addressed(s.records[i], op) {
      FilledIsReleased(s, i);
      SecretsDiffer(i, n);
    }
    NothingHeld(s.records, TheKey());
    RefusedIffNoRoom(s, op.input, depth);
    BookedOnTheTerms(s, op.input, depth);
    CommitStore(s, op, depth);
    CommitKeeps(s, op, depth);
    EvolvedAvailability(s, Commit(s, op, depth), TheKey());
  }

  lemma EvolvedAvailability(s: Store, t: Store, key: InventoryKey)
    requires StoreEvolves(s, t) && key in s.inventory
    ensures key in t.inventory && t.inventory[key].available == s.inventory[key].available
    ensures forall i :: 0 <= i < |s.records| ==> i < |t.records| && SameTerms(s.records[i], t.records[i])
  {
  }

  /** A step of the cycle on its record, by the table of destinations. */
  lemma Advances(s: Store, op: Op, amount: nat, depth: int, n: nat, from: LifecycleState, to: LifecycleState)
    requires InCycle(s, amount, n, from) && !op.Reserve? && Addressed(s.records[n], op)
    requires Accepts(s.records[n], op) && Destination(s.records[n], op, depth) == to && to != from
    requires to.FillObserved? ==> op == ObserveFill(n) && from.Published?
    ensures var t := Commit(s, op, depth);
            && (to.Filled? ==> AllFilled(t, amount, n + 1))
            && (!to.Filled? ==> InCycle(t, amount, n, to))
  {
    hide Inv, StoreEvolves, Commit, Apply, Accepts, Destination, Addressed, Secret;
    OutcomeIsDestination(s, op, depth, n);
    CommitStore(s, op, depth);
    CommitKeeps(s, op, depth);
    EvolvedAvailability(s, Commit(s, op, depth), TheKey());
  }

  lemma {:induction false} RunConcat(s: Store, a: seq<Op>, b: seq<Op>, depth: int)
    ensures Run(s, a + b, depth) == Run(Run(s, a, depth), b, depth)
    decreases |a|
  {
    hide Commit;
    if a == [] {
      assert a + b == b;
    } else {
      assert (a + b)[1..] == a[1..] + b;
      RunConcat(Commit(s, a[0], depth), a[1..], b, depth);
    }
  }

  lemma RunFour(s: Store, a: Op, b: Op, c: Op, d: Op, depth: int)
    ensures Run(s, [a, b, c, d], depth) == Commit(Commit(Commit(Commit(s, a, depth), b, depth), c, depth), d, depth)
  {
    hide Commit;
    assert [a, b, c, d][1..] == [b, c, d] && [b, c, d][1..] == [c, d] && [c, d][1..] == [d] && [d][1..] == [];
    var s1 := Commit(s, a, depth);
    var s2 := Commit(s1, b, depth);
    var s3 := Commit(s2, c, depth);
    assert Run(s3, [d], depth) == Run(Commit(s3, d, depth), [], depth);
    assert Run(s2, [c, d], depth) == Run(s3, [d], depth);
    assert Run(s1, [b, c, d], depth) == Run(s2, [c, d], depth);
  }

  lemma Publishes(s: Store, amount: nat, depth: int, n: nat)
    requires InCycle(s, amount, n, Reserved)
    ensures InCycle(Commit(s, PublishAll(amount, n), depth), amount, n, Published)
  {
    hide Inv, Commit, Secret;
    Advances(s, PublishAll(amount, n), amount, depth, n, Reserved, Published);
  }

  lemma Observes(s: Store, amount: nat, depth: int, n: nat)
    requires InCycle(s, amount, n, Published)
    ensures InCycle(Commit(s, ObserveFill(n), depth), amount, n, FillObserved)
  {
    hide Inv, Commit, Secret;
    Advances(s, ObserveFill(n), amount, depth, n, Published, FillObserved);
  }

  lemma Settles(s: Store, amount: nat, depth: int, n: nat)
    requires InCycle(s, amount, n, FillObserved)
    ensures AllFilled(Commit(s, SettleFill(depth, n), depth), amount, n + 1)
  {
    hide Inv, Commit, Secret, AllFilled;
    Advances(s, SettleFill(depth, n), amount, depth, n, FillObserved, Filled);
  }

  lemma CycleFills(s: Store, amount: nat, depth: int, n: nat)
    requires AllFilled(s, amount, n)
    ensures AllFilled(Run(s, Cycle(amount, depth, n), depth), amount, n + 1)
  {
    hide Inv, Commit, Run, AllFilled, InCycle, Secret;
    Reserves(s, amount, depth, n);
    var s1 := Commit(s, ReserveAll(amount, n), depth);
    Publishes(s1, amount, depth, n);
    var s2 := Commit(s1, PublishAll(amount, n), depth);
    Observes(s2, amount, depth, n);
    Settles(Commit(s2, ObserveFill(n), depth), amount, depth, n);
    RunFour(s, ReserveAll(amount, n), PublishAll(amount, n), ObserveFill(n), SettleFill(depth, n), depth);
  }

  lemma {:induction false} CyclesFill(s0: Store, amount: nat, depth: int, n: nat)
    requires AllFilled(s0, amount, 0)
    ensures AllFilled(Run(s0, Cycles(amount, depth, n), depth), amount, n)
  {
    hide AllFilled, Commit, Cycle;
    if n > 0 {
      CyclesFill(s0, amount, depth, n - 1);
      RunConcat(s0, Cycles(amount, depth, n - 1), Cycle(amount, depth, n - 1), depth);
      CycleFills(Run(s0, Cycles(amount, depth, n - 1), depth), amount, depth, n - 1);
    }
  }

  lemma {:induction false} SettledSum(records: seq<Record>, amount: nat)
    requires forall k :: 0 <= k < |records| ==> FilledInFull(records[k], amount, k)
    ensures Sum(records, Settled, TheKey()) == |records| * amount
  {
    if records != [] {
      SettledSum(records[..|records| - 1], amount);
    }
  }

  /** Whatever the availability of a bucket, there is a run that fills it any number of times over. */
  lemma SettledVolumeIsUnbounded(available: nat, depth: int, n: nat)
    requires available > 0
    ensures var s0 := Store([], map[], map[TheKey() := Bucket(available, 0)]);
            Fresh(s0) && Sum(Run(s0, Cycles(available, depth, n), depth).records, Settled, TheKey()) == n * available
  {
    hide Run, Cycles;
    var s0 := Store([], map[], map[TheKey() := Bucket(available, 0)]);
    FreshInv(s0);
    CyclesFill(s0, available, depth, n);
    SettledSum(Run(s0, Cycles(available, depth, n), depth).records, available);
  }
}
