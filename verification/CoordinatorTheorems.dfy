/** Every reachable state of the concurrent system satisfies the system invariant, and what
    follows from it for callers and for the inventory. */
module CoordinatorTheorems {
  import opened Results
  import opened RfqTypes
  import opened QuoteTransactions
  import opened QuoteLifecycle
  import opened QuoteConservation
  import opened QuoteStoreInvariants
  import opened QuoteStoreTheorems
  import opened CoordinatorProtocol

  /** A reservation, new or existing, returns the record now behind the key. */
  lemma ReserveReturnsCurrent(s: Store, c: Call, depth: int)
    requires Inv(s) && c.phase.Reserving? && Apply(s, ReserveOp(c), depth).Ok?
    ensures var o := Apply(s, ReserveOp(c), depth).value;
            && Current(o.store, c) == Some(o.record)
            && (!o.existing ==> o.record.requestHash == RequestHash(c) && o.record.evidence == c.phase.evidence)
  {
    hide RecordsOk, Conserved, NoncesDense, KeysUnique, StoreEvolves, Sweep;
    var input := ReserveOp(c).input;
    if FindByKey(s.records, c.scope, KeyHash(c)).None? {
      SweepKeeps(s, input.createdAt, |s.records|);
      var t := Sweep(s, input.createdAt, |s.records|).value;
      forall i | 0 <= i < |t.records| ensures !HasKey(t.records[i], c.scope, KeyHash(c)) {
        SweptKeepsKey(s.records[i], input.createdAt);
      }
      var booked := Book(t, input);
      assert booked.records[..|t.records|] == t.records;
      assert HasKey(booked.records[|t.records|], c.scope, KeyHash(c));
    }
  }

  /** Accepting a signature returns the record now behind the key. */
  lemma MarkSignedReturnsCurrent(s: Store, c: Call, now: int, depth: int)
    requires Inv(s) && c.phase.Publishing? && Apply(s, PublishOp(c, now), depth).Ok?
    ensures var o := Apply(s, PublishOp(c, now), depth).value;
            Current(s, c).Some? && Current(o.store, c) == Some(o.record)
            && Evolves(Current(s, c).value, o.record)
  {
    hide Inv, FindByKey, StoreEvolves, Evolves, Publication, Terminate;
    TransactionSound(s, PublishOp(c, now), depth);
    var o := Apply(s, PublishOp(c, now), depth).value;
    CurrentEvolves(s, o.store, c);
    SameKeySameIndex(s, o.store, c);
  }

  /** What the coordinator passes to the store fits the record it is about. */
  lemma NextOpWellCalled(s: Store, c: Call, ch: Choice)
    requires CallOk(s, c) && NextOp(c, ch).Some?
    ensures WellCalled(s, NextOp(c, ch).value)
  {
  }

  /** A call's own step leads it from a good phase to a good phase. */
  lemma CallStepOk(s: Store, c: Call, ch: Choice, depth: int)
    requires Inv(s) && AllFaithful(s) && CallOk(s, c)
    ensures var op := NextOp(c, ch);
            var t := if op.Some? then Commit(s, op.value, depth) else s;
            CallOk(t, c.(phase := NextPhase(s, c, ch, depth)))
  {
    hide Inv, AllFaithful, FindByKey, StoreEvolves, Apply;
    match c.phase
    case Reserving(_, _, _) =>
      if Apply(s, ReserveOp(c), depth).Ok? {
        ReserveReturnsCurrent(s, c, depth);
      }
    case Publishing(_, _) =>
      if ch.clock.Some? && Apply(s, PublishOp(c, ch.clock.value), depth).Ok? {
        MarkSignedReturnsCurrent(s, c, ch.clock.value, depth);
      }
    case Signable(_, _) => CurrentHasKey(s, c);
    case Looking(_) => CurrentIsFound(s, c);
    case _ =>
  }

  lemma CurrentHasKey(s: Store, c: Call)
    requires Current(s, c).Some?
    ensures HasKey(Current(s, c).value, c.scope, KeyHash(c))
  {
  }

  lemma CurrentIsFound(s: Store, c: Call)
    ensures match FindByKey(s.records, c.scope, KeyHash(c))
            case Some(i) => i < |s.records| && Current(s, c) == Some(s.records[i])
            case None => Current(s, c).None?
  {
  }

  lemma NextKeeps(sys: System, step: Step, depth: int)
    requires SysInv(sys)
    ensures SysInv(Next(sys, step, depth)) && StoreEvolves(sys.store, Next(sys, step, depth).store)
  {
    hide Inv, AllFaithful, StoreEvolves, Commit, CallOk, NextOp, NextPhase;
    var s := sys.store;
    StoreEvolvesReflexive(s);
    match step
    case Begin(_, call, now) => LookingOk(s, call, now);
    case Advance(id, ch) =>
      if id in sys.calls {
        var c := sys.calls[id];
        CallStepOk(s, c, ch, depth);
        if NextOp(c, ch).Some? {
          NextOpWellCalled(s, c, ch);
          CommitDisturbsNoCall(sys, NextOp(c, ch).value, depth);
        }
      }
    case Crash(_) =>
    case External(op) =>
      if IsExternal(op) {
        CommitDisturbsNoCall(sys, op, depth);
      }
  }

  lemma LookingOk(s: Store, c: Call, now: int)
    ensures CallOk(s, c.(phase := Looking(now)))
  {
  }

  lemma CommitDisturbsNoCall(sys: System, op: Op, depth: int)
    requires SysInv(sys) && WellCalled(sys.store, op)
    ensures var t := Commit(sys.store, op, depth);
            && Inv(t) && AllFaithful(t) && StoreEvolves(sys.store, t)
            && forall id :: id in sys.calls ==> CallOk(t, sys.calls[id])
  {
    hide Inv, AllFaithful, StoreEvolves, Commit, CallOk, WellCalled;
    CommitKeeps(sys.store, op, depth);
    CommitStaysFaithful(sys.store, op, depth);
    forall id | id in sys.calls ensures CallOk(Commit(sys.store, op, depth), sys.calls[id]) {
      CallStaysOk(sys.store, Commit(sys.store, op, depth), sys.calls[id]);
    }
  }

  lemma {:induction false} PlayKeeps(sys: System, steps: seq<Step>, depth: int)
    requires SysInv(sys)
    ensures SysInv(Play(sys, steps, depth)) && StoreEvolves(sys.store, Play(sys, steps, depth).store)
    decreases |steps|
  {
    hide SysInv, StoreEvolves, Next;
    if steps == [] {
      StoreEvolvesReflexive(sys.store);
    } else {
      var next := Next(sys, steps[0], depth);
      NextKeeps(sys, steps[0], depth);
      PlayKeeps(next, steps[1..], depth);
      StoreEvolvesTransitive(sys.store, next.store, Play(next, steps[1..], depth).store);
    }
  }

  /** Every state reachable by interleaved calls, crashes and settlement events is good. */
  lemma Reachable(sys0: System, steps: seq<Step>, depth: int)
    requires Initial(sys0)
    ensures SysInv(Play(sys0, steps, depth)) && StoreEvolves(sys0.store, Play(sys0, steps, depth).store)
  {
    hide Inv, StoreEvolves, Play;
    FreshInv(sys0.store);
    PlayKeeps(sys0, steps, depth);
  }

  /** Agreement under races: all calls that succeeded for one scope and idempotency key hold
      the identical signed quote. */
  lemma Agreement(sys0: System, steps: seq<Step>, depth: int, id1: nat, id2: nat)
    requires Initial(sys0)
    requires var calls := Play(sys0, steps, depth).calls;
             && id1 in calls && id2 in calls
             && calls[id1].phase.Succeeded? && calls[id2].phase.Succeeded?
             && calls[id1].scope == calls[id2].scope && calls[id1].key == calls[id2].key
    ensures var calls := Play(sys0, steps, depth).calls;
            && calls[id1].phase.signedQuote == calls[id2].phase.signedQuote
            && calls[id1].request == calls[id2].request
  {
    hide Inv, AllFaithful, StoreEvolves, FindByKey, Play;
    Reachable(sys0, steps, depth);
    var sys := Play(sys0, steps, depth);
    assert CallOk(sys.store, sys.calls[id1]) && CallOk(sys.store, sys.calls[id2]);
    assert Current(sys.store, sys.calls[id1]) == Current(sys.store, sys.calls[id2]);
  }

  /** A successful call holds the persisted quote of a record that reserved its amount: the
      terms are the caller's own, and amount, nonce and expiry are those of the lease. */
  lemma SuccessIsBackedByLease(sys0: System, steps: seq<Step>, depth: int, id: nat)
    requires Initial(sys0)
    requires var calls := Play(sys0, steps, depth).calls; id in calls && calls[id].phase.Succeeded?
    ensures var sys := Play(sys0, steps, depth);
            var c := sys.calls[id];
            var sq := c.phase.signedQuote;
            && Current(sys.store, c).Some?
            && (var r := Current(sys.store, c).value;
                && r.signedQuote == Some(sq)
                && sq.quote.amountOut == r.lease.amount && sq.quote.nonce == r.nonce
                && sq.quote.expiry == r.lease.expiresAt == r.createdAt + c.request.ttlSeconds
                && r.lease.key == InventoryKey(c.scope.maker, c.request.tokenOut, c.request.venue)
                && (c.strict.Some? ==> r.evidence.Some?)
                && (c.strict.Some? && c.phase.issuedOn.Some? ==>
                      Admits(c.strict.value, r.evidence.value, c.phase.issuedOn.value)))
            && sq.quote.maker == c.scope.maker && sq.quote.taker == c.request.taker
            && sq.quote.tokenIn == c.request.tokenIn && sq.quote.tokenOut == c.request.tokenOut
            && sq.quote.amountIn == c.request.amountIn && sq.quote.venue == c.request.venue
            && sq.quote.policyId == c.request.policyId
            && sq.domain == Domain(c.scope.chainId, c.scope.adapter)
  {
    hide Inv, StoreEvolves, Play;
    Reachable(sys0, steps, depth);
    var sys := Play(sys0, steps, depth);
    assert CallOk(sys.store, sys.calls[id]);
    var i := FindByKey(sys.store.records, sys.calls[id].scope, KeyHash(sys.calls[id])).value;
    assert Faithful(sys.store.records[i]);
  }

  /** A published quote survives every later step of every call, crash and event. */
  lemma PublishedIsNeverReplaced(sys: System, steps: seq<Step>, depth: int, i: nat)
    requires SysInv(sys) && i < |sys.store.records| && sys.store.records[i].signedQuote.Some?
    ensures i < |Play(sys, steps, depth).store.records|
    ensures Play(sys, steps, depth).store.records[i].signedQuote == sys.store.records[i].signedQuote
  {
    hide SysInv, Play;
    PlayKeeps(sys, steps, depth);
  }

  lemma SignFailureSparesPublished(s: Store, op: Op, depth: int, i: nat)
    requires Inv(s) && op.MarkSignFailed?
    requires i < |s.records| && s.records[i].signedQuote.Some?
    ensures i < |Commit(s, op, depth).records| && Commit(s, op, depth).records[i] == s.records[i]
  {
    hide Path, Conserved, NoncesDense, KeysUnique, Evolves;
    TransactionSound(s, op, depth);
    assert RecordOk(s.records[i]);
    if Apply(s, op, depth).Ok? {
      assert Explained(op, depth, s.records[i], Commit(s, op, depth).records[i]);
    }
  }

  /** A caller whose signing fails retracts nothing: the records that carry a published quote,
      its own included, are left exactly as they are. */
  lemma SigningFailureRetractsNothing(sys: System, id: nat, ch: Choice, depth: int, i: nat)
    requires SysInv(sys) && id in sys.calls && sys.calls[id].phase.Failing?
    requires i < |sys.store.records| && sys.store.records[i].signedQuote.Some?
    ensures i < |Next(sys, Advance(id, ch), depth).store.records|
    ensures Next(sys, Advance(id, ch), depth).store.records[i] == sys.store.records[i]
  {
    hide Inv, AllFaithful, CallOk, Commit;
    if ch.clock.Some? {
      SignFailureSparesPublished(sys.store, NextOp(sys.calls[id], ch).value, depth, i);
    }
  }

  /** Solvency: in every reachable state the signed quotes that can still be settled from a
      bucket add up to at most the availability it was configured with. */
  lemma LiveQuotesAreCovered(sys0: System, steps: seq<Step>, depth: int, key: InventoryKey)
    requires Initial(sys0) && key in sys0.store.inventory
    ensures Sum(Play(sys0, steps, depth).store.records, LiveQuotes, key)
         <= sys0.store.inventory[key].available
  {
    hide Play, Conserved, NoncesDense, KeysUnique;
    Reachable(sys0, steps, depth);
    var s := Play(sys0, steps, depth).store;
    forall i | 0 <= i < |s.records|
      ensures Amount(LiveQuotes, key, s.records[i]) <= Amount(Unreleased, key, s.records[i])
    {
      assert Faithful(s.records[i]) && RecordOk(s.records[i]);
    }
    SumMonotone(s.records, s.records, LiveQuotes, Unreleased, key);
    ReservedWithinAvailable(s, key);
  }

  lemma ReservedWithinAvailable(s: Store, key: InventoryKey)
    requires Conserved(s) && key in s.inventory
    ensures Sum(s.records, Unreleased, key) <= s.inventory[key].available
  {
  }

  /** Whether offering a signature succeeds is decided by the record alone: it does exactly when
      the reservation still stands at the clock reading, and then publishes the offered quote, or
      when another call published first, and then returns what that call published. */
  lemma PublicationOutcome(sys: System, id: nat, now: int, ch: Choice, depth: int)
    requires SysInv(sys) && id in sys.calls && sys.calls[id].phase.Publishing? && ch.clock == Some(now)
    ensures Current(sys.store, sys.calls[id]).Some?
    ensures var r := Current(sys.store, sys.calls[id]).value;
            var phase := NextPhase(sys.store, sys.calls[id], ch, depth);
            && (phase.Succeeded? <==> (r.state.Reserved? && r.lease.expiresAt > now) || r.state.Published?)
            && (phase.Succeeded? && r.state.Reserved? ==> phase.signedQuote == sys.calls[id].phase.candidate)
            && (phase.Succeeded? && r.state.Published? ==> r.signedQuote == Some(phase.signedQuote))
            && (phase.Succeeded? ==> phase.issuedOn == Some(sys.calls[id].phase.admittedAt))
            && (!phase.Succeeded? ==> phase.Failing?)
  {
    hide Conserved, NoncesDense, KeysUnique, StoreEvolves, Path, FindByKey, Terminate;
    assert CallOk(sys.store, sys.calls[id]);
    CurrentIsFound(sys.store, sys.calls[id]);
    var i := FindByKey(sys.store.records, sys.calls[id].scope, KeyHash(sys.calls[id])).value;
    assert RecordOk(sys.store.records[i]) && Faithful(sys.store.records[i]);
    if sys.store.records[i].state.Reserved? && sys.store.records[i].lease.expiresAt <= now {
      TerminateKeeps(sys.store, i, Expired, now);
    }
  }

  /** A call's step touches no record but the one behind its own key, except that a reservation
      expires the leases that ran out by its own clock reading. */
  lemma CallTouchesOnlyItsRecord(sys: System, id: nat, ch: Choice, depth: int, i: nat)
    requires SysInv(sys) && id in sys.calls && i < |sys.store.records|
    requires !HasKey(sys.store.records[i], sys.calls[id].scope, KeyHash(sys.calls[id]))
    ensures i < |Next(sys, Advance(id, ch), depth).store.records|
    ensures var c := sys.calls[id];
            var before, after := sys.store.records[i], Next(sys, Advance(id, ch), depth).store.records[i];
            || after == before
            || (c.phase.Reserving? && Sweepable(before, c.phase.now)
                && after == Terminated(before, Expired, c.phase.now))
  {
    hide Path, RecordOk, Conserved, StoreEvolves, Apply, Terminated;
    var c := sys.calls[id];
    assert CallOk(sys.store, c);
    var op := NextOp(c, ch);
    if op.Some? {
      TransactionSound(sys.store, op.value, depth);
      if Apply(sys.store, op.value, depth).Ok? {
        assert Explained(op.value, depth, sys.store.records[i], Commit(sys.store, op.value, depth).records[i]);
        if (c.phase.Expiring? || c.phase.Revoking?)
           && HasNonce(sys.store.records[i], c.scope, Current(sys.store, c).value.nonce) {
          NonceFindsCurrent(sys.store, c, i);
        }
      }
    }
  }

  lemma NonceFindsCurrent(s: Store, c: Call, i: nat)
    requires NoncesDense(s) && Current(s, c).Some? && i < |s.records|
    requires HasNonce(s.records[i], c.scope, Current(s, c).value.nonce)
    ensures HasKey(s.records[i], c.scope, KeyHash(c))
  {
    var j := FindByKey(s.records, c.scope, KeyHash(c)).value;
    if i < j {
      NoncesIncrease(s.records, LastNonce(s, c.scope), i, j);
    } else if j < i {
      NoncesIncrease(s.records, LastNonce(s, c.scope), j, i);
    }
  }

  lemma PublishedIsSigned(s: Store, i: nat)
    requires Inv(s) && i < |s.records| && s.records[i].state.Published?
    ensures s.records[i].signedQuote.Some?
  {
  }

  lemma SameKeySameIndex(s: Store, t: Store, c: Call)
    requires StoreEvolves(s, t) && Current(s, c).Some?
    ensures FindByKey(t.records, c.scope, KeyHash(c)) == FindByKey(s.records, c.scope, KeyHash(c))
  {
  }

  lemma RevokePublished(s: Store, op: Op, depth: int, i: nat)
    requires Inv(s) && op.Revoke? && i < |s.records| && HasNonce(s.records[i], op.scope, op.nonce)
    requires s.records[i].state.Published?
    ensures |Commit(s, op, depth).records| == |s.records|
    ensures Commit(s, op, depth).records[i] == Terminated(s.records[i], Revoked, op.now)
  {
    hide Path, RecordOk, Conserved, KeysUnique, StoreEvolves, Terminated;
    var j := FindByNonce(s.records, op.scope, op.nonce).value;
    if j < i {
      NoncesIncrease(s.records, LastNonce(s, op.scope), j, i);
    }
    TerminateKeeps(s, i, Revoked, op.now);
  }
}
