/** What a call comes to when nothing disturbs it, and what its last steps commit. */
module CoordinatorProgress {
  import opened Results
  import opened RfqTypes
  import opened QuoteTransactions
  import opened QuoteLifecycle
  import opened QuoteConservation
  import opened QuoteStoreInvariants
  import opened QuoteStoreTheorems
  import opened QuoteStoreOutcomes
  import opened CoordinatorProtocol
  import opened CoordinatorTheorems
  import opened RevocationTheorems

  /** Different idempotency keys, and different requests, are told apart. */
  lemma HashesTellApart(c: Call, d: Call)
    ensures KeyHash(c) == KeyHash(d) <==> c.key == d.key
    ensures RequestHash(c) == RequestHash(d) <==> c.request == d.request
  {
  }

  /** What the other steps do: a call begins under an unused name at the clock's reading, a call that
      is not finished may crash and leaves the store alone, and each of the four outside transactions
      takes place whenever it comes. */
  lemma OtherStepsExactly(sys: System, id: nat, call: Call, now: int, op: Op, depth: int)
    ensures id !in sys.calls ==>
              Next(sys, Begin(id, call, now), depth) == sys.(calls := sys.calls[id := call.(phase := Looking(now))])
    ensures id in sys.calls ==>
              && Next(sys, Begin(id, call, now), depth) == sys
              && Next(sys, Crash(id), depth) == (if sys.calls[id].phase.Succeeded? || sys.calls[id].phase.Failed?
                                                 then sys else sys.(calls := sys.calls - {id}))
    ensures Next(sys, External(op), depth)
         == (match op
             case MarkObserved(_, _, _, _) => sys.(store := Commit(sys.store, op, depth))
             case Reconcile(_, _, _, _, _) => sys.(store := Commit(sys.store, op, depth))
             case Expire(_, _, _) => sys.(store := Commit(sys.store, op, depth))
             case Revoke(_, _, _) => sys.(store := Commit(sys.store, op, depth))
             case _ => sys)
  {
    hide Commit;
  }

  /** Evidence is admitted from when the later snapshot is due, less the allowed skew, until before
      the first of them runs out; a policy's own time, if it names one, replaces the clock. */
  lemma AdmitsWithinWindow(policy: StrictPolicy, e: Evidence, clock: int)
    ensures var t := if policy.now.Some? then policy.now.value else clock;
            var from := if e.pricingObservedAt > e.riskObservedAt then e.pricingObservedAt else e.riskObservedAt;
            var until := if e.pricingValidUntil < e.riskValidUntil then e.pricingValidUntil else e.riskValidUntil;
            Admits(policy, e, clock) <==> from - policy.futureSkew <= t < until
  {
  }

  /** A call reserves exactly when it has a positive price and, if strict, evidence that its policy
      admits at the time it began; otherwise it fails before anything is booked. */
  lemma ReservesExactlyWhen(s: Store, c: Call, ch: Choice, depth: int)
    requires c.phase.Pricing?
    ensures var next := NextPhase(s, c, ch, depth);
            && NextOp(c, ch).None?
            && (if ch.priced.Some? && ch.priced.value.amountOut > 0
                   && (c.strict.Some? ==> Admits(c.strict.value, ch.priced.value.evidence, c.phase.now))
                then next == Reserving(c.phase.now, ch.priced.value.amountOut,
                                       if c.strict.Some? then Some(ch.priced.value.evidence) else None)
                else next == Failed)
  {
  }

  /** How a call answers from a copy of the record behind its key: it replays a stored quote, goes on
      to sign a live reservation of its own request, expires one that ran out, revokes one whose
      evidence its policy does not admit, and fails otherwise. */
  lemma AnswersExactlyWhen(s: Store, c: Call, ch: Choice, depth: int)
    requires c.phase.Responding?
    ensures var r := c.phase.found;
            var next := NextPhase(s, c, ch, depth);
            var own := r.requestHash == RequestHash(c);
            var open := own && r.signedQuote.None? && r.state.Reserved? && ch.clock.Some?;
            var contented := open && ContentWith(c, r.evidence, ch.clock.value);
            var live := contented && !r.lease.released && ch.clock.value < r.lease.expiresAt;
            && NextOp(c, ch).None?
            && (next.Succeeded? <==> own && r.signedQuote.Some? && (c.strict.Some? ==> r.evidence.Some?))
            && (next.Succeeded? ==> next == Succeeded(r.signedQuote.value, None))
            && (live <==> next == Signable(r, if ch.clock.Some? then ch.clock.value else 0))
            && (contented && !live <==> next.Expiring?)
            && (next.Expiring? ==> next == Expiring(r.nonce, ch.clock.value))
            && (open && !contented <==> next.Revoking?)
            && (next.Succeeded? || next.Signable? || next.Expiring? || next.Revoking? || next.Failed?)
  {
    hide Apply, FindByKey, IsFresh;
  }

  /** How a call on a live reservation gets it signed: it expires the reservation if that has run out
      by then; it offers the signature for publication if the signer gives one; and from a refusal by
      the signer, by the clock or by the store it goes on to commit the failure. */
  lemma SignsExactlyWhen(s: Store, c: Call, ch: Choice, depth: int)
    ensures var next := NextPhase(s, c, ch, depth);
            && (c.phase.Signable? ==>
                  var r := c.phase.reserved;
                  r.requestHash == RequestHash(c) && r.state.Reserved? && !r.lease.released && r.scope == c.scope ==>
                    next == if ch.clock.None? then Failed
                            else if r.lease.expiresAt <= ch.clock.value then Expiring(r.nonce, ch.clock.value)
                            else AwaitingSigner(QuoteOf(r), c.phase.admittedAt))
            && (c.phase.AwaitingSigner? && ch.signature.None? ==> next == Failing)
            && (c.phase.AwaitingSigner? && ch.signature.Some? ==>
                  next == Publishing(SignedQuote(c.phase.quote, ch.signature.value, DomainOf(c.scope)),
                                     c.phase.admittedAt))
            && (c.phase.Publishing? ==> next.Succeeded? || next == Failing)
            && (c.phase.Publishing? && ch.clock.None? ==> next == Failing && NextOp(c, ch).None?)
  {
    hide Apply, FindByKey;
  }

  // ---- what the last steps commit ----

  lemma CurrentIndex(s: Store, c: Call) returns (i: nat)
    requires Inv(s) && Current(s, c).Some?
    ensures i < |s.records| && FindByKey(s.records, c.scope, KeyHash(c)) == Some(i)
    ensures s.records[i] == Current(s, c).value && HasKey(s.records[i], c.scope, KeyHash(c))
  {
    hide Inv;
    i := FindByKey(s.records, c.scope, KeyHash(c)).value;
  }

  /** What a call's transaction on the record behind its key leaves there. */
  lemma CommitsToCurrent(sys: System, id: nat, ch: Choice, depth: int)
    requires SysInv(sys) && id in sys.calls && Current(sys.store, sys.calls[id]).Some?
    requires NextOp(sys.calls[id], ch).Some?
    requires Addressed(Current(sys.store, sys.calls[id]).value, NextOp(sys.calls[id], ch).value)
    requires Accepts(Current(sys.store, sys.calls[id]).value, NextOp(sys.calls[id], ch).value)
    ensures var c := sys.calls[id];
            var op := NextOp(c, ch).value;
            var t := Next(sys, Advance(id, ch), depth).store;
            && Current(t, c).Some?
            && Current(t, c).value.state == Destination(Current(sys.store, c).value, op, depth)
            && (Current(t, c).value.state == Current(sys.store, c).value.state ==>
                  Current(t, c).value == Current(sys.store, c).value)
            && (Current(t, c).value.state != Current(sys.store, c).value.state ==>
                  Current(t, c).value.updatedAt == TimeOf(op))
            && (op.MarkSigned? && Current(sys.store, c).value.state.Reserved?
                && Current(t, c).value.state.Published? ==>
                  Current(t, c).value.signerKeyRefHash == op.signerKeyRefHash)
            && RecordOk(Current(t, c).value)
  {
    hide Inv, AllFaithful, StoreEvolves, Apply, FindByKey, Destination, Accepts, Addressed, NextOp, NextPhase, RecordOk,
      Commit;
    var c, s := sys.calls[id], sys.store;
    var op := NextOp(c, ch).value;
    var i := CurrentIndex(s, c);
    OutcomeIsDestination(s, op, depth, i);
    CommitIs(s, op, depth);
    CommitKeeps(s, op, depth);
    SameKeySameIndex(s, Commit(s, op, depth), c);
    GoodRecord(Commit(s, op, depth), i);
  }

  lemma CommitIs(s: Store, op: Op, depth: int)
    requires Apply(s, op, depth).Ok?
    ensures Commit(s, op, depth) == Apply(s, op, depth).value.store
  {
    hide Apply;
  }

  lemma GoodRecord(s: Store, i: nat)
    requires Inv(s) && i < |s.records|
    ensures RecordOk(s.records[i])
  {
  }

  /** A call whose signing failed ends a record that is still RESERVED as SIGN_FAILED, at its clock
      reading and with the lease given back, and leaves any other record as it is. */
  lemma FailureIsCommitted(sys: System, id: nat, ch: Choice, now: int, depth: int)
    requires SysInv(sys) && id in sys.calls && sys.calls[id].phase.Failing? && ch.clock == Some(now)
    ensures var c := sys.calls[id];
            var t := Next(sys, Advance(id, ch), depth).store;
            && Current(sys.store, c).Some? && Current(t, c).Some?
            && (var before, after := Current(sys.store, c).value, Current(t, c).value;
                if before.state.Reserved? then after.state.SignFailed? && after.updatedAt == now && after.lease.released
                else after == before)
  {
    hide Inv, AllFaithful, FindByKey, Path;
    assert CallOk(sys.store, sys.calls[id]);
    var i := CurrentIndex(sys.store, sys.calls[id]);
    CommitsToCurrent(sys, id, ch, depth);
  }

  /** A call that found its reservation run out, or its policy not content, expires or revokes it if
      it is still RESERVED. */
  lemma RetreatIsCommitted(sys: System, id: nat, ch: Choice, depth: int)
    requires SysInv(sys) && id in sys.calls && (sys.calls[id].phase.Expiring? || sys.calls[id].phase.Revoking?)
    ensures var c := sys.calls[id];
            var t := Next(sys, Advance(id, ch), depth).store;
            && Current(sys.store, c).Some?
            && (Current(sys.store, c).value.state.Reserved? ==>
                  && Current(t, c).Some? && Current(t, c).value.updatedAt == c.phase.now
                  && Current(t, c).value.lease.released
                  && Current(t, c).value.state == if c.phase.Expiring? then Expired else Revoked)
  {
    hide Inv, AllFaithful, FindByKey, Path;
    assert CallOk(sys.store, sys.calls[id]);
    var i := CurrentIndex(sys.store, sys.calls[id]);
    if Current(sys.store, sys.calls[id]).value.state.Reserved? {
      CommitsToCurrent(sys, id, ch, depth);
    }
  }

  // ---- progress ----

  /** A call on a live reservation that gets a signature publishes it. */
  lemma SignableSucceeds(sys: System, id: nat, toSigner: Choice, signed: Choice, published: Choice, depth: int)
    requires SysInv(sys) && id in sys.calls && sys.calls[id].phase.Signable?
    requires var r := sys.calls[id].phase.reserved;
             && Current(sys.store, sys.calls[id]) == Some(r) && r.state.Reserved?
             && toSigner.clock.Some? && toSigner.clock.value < r.lease.expiresAt
             && signed.signature.Some?
             && published.clock.Some? && published.clock.value < r.lease.expiresAt
    ensures var c := sys.calls[id];
            var after := Play(sys, [Advance(id, toSigner), Advance(id, signed), Advance(id, published)], depth);
            && id in after.calls
            && after.calls[id].phase == Succeeded(
                 SignedQuote(QuoteOf(c.phase.reserved), signed.signature.value, DomainOf(c.scope)),
                 Some(c.phase.admittedAt))
            && Current(after.store, c).Some? && Current(after.store, c).value.state.Published?
            && SignedWith(Current(after.store, c).value, c)
  {
    hide Inv, AllFaithful, StoreEvolves, Apply, Commit, FindByKey, Play, Next, NextPhase, CallOk;
    var c := sys.calls[id];
    var s1 := Next(sys, Advance(id, toSigner), depth);
    var s2 := Next(s1, Advance(id, signed), depth);
    var s3 := Next(s2, Advance(id, published), depth);
    ThreeSteps(sys, Advance(id, toSigner), Advance(id, signed), Advance(id, published), depth);
    GoodCurrent(sys.store, c);
    SignableIsOwn(sys.store, c);
    SignableSteps(sys, id, toSigner, signed, depth);
    NextKeeps(sys, Advance(id, toSigner), depth);
    NextKeeps(s1, Advance(id, signed), depth);
    NextKeeps(s2, Advance(id, published), depth);
    PublicationOutcome(s2, id, published.clock.value, published, depth);
    AdvancePhase(s2, id, published, depth);
    GoodOutcome(s2, id, published, depth);
  }

  lemma SignableIsOwn(s: Store, c: Call)
    requires CallOk(s, c) && c.phase.Signable?
    ensures c.phase.reserved.requestHash == RequestHash(c)
  {
  }

  lemma GoodCurrent(s: Store, c: Call)
    requires Inv(s) && Current(s, c).Some? && Current(s, c).value.state.Reserved?
    ensures !Current(s, c).value.lease.released && Current(s, c).value.signedQuote.None?
    ensures HasKey(Current(s, c).value, c.scope, KeyHash(c))
  {
    var i := CurrentIndex(s, c);
    assert RecordOk(s.records[i]);
  }

  lemma AdvancePhase(sys: System, id: nat, ch: Choice, depth: int)
    requires id in sys.calls
    ensures id in Next(sys, Advance(id, ch), depth).calls
    ensures Next(sys, Advance(id, ch), depth).calls[id]
         == sys.calls[id].(phase := NextPhase(sys.store, sys.calls[id], ch, depth))
  {
    hide NextPhase, NextOp, Commit;
  }

  lemma SignableSteps(sys: System, id: nat, toSigner: Choice, signed: Choice, depth: int)
    requires id in sys.calls && sys.calls[id].phase.Signable?
    requires var r := sys.calls[id].phase.reserved;
             && r.requestHash == RequestHash(sys.calls[id]) && r.state.Reserved? && !r.lease.released
             && r.scope == sys.calls[id].scope
             && toSigner.clock.Some? && toSigner.clock.value < r.lease.expiresAt && signed.signature.Some?
    ensures var c := sys.calls[id];
            var s2 := Next(Next(sys, Advance(id, toSigner), depth), Advance(id, signed), depth);
            && id in s2.calls && s2.store == sys.store
            && s2.calls[id] == c.(phase := Publishing(
                 SignedQuote(QuoteOf(c.phase.reserved), signed.signature.value, DomainOf(c.scope)),
                 c.phase.admittedAt))
  {
  }

  /** The record names the signer key of the call that published it, as a hash. */
  predicate SignedWith(r: Record, c: Call) {
    r.signerKeyRefHash == match c.signerKeyRef case Some(ref) => Some(OfSecret(ref)) case None => None
  }

  /** After a successful publication the record is PUBLISHED. */
  lemma GoodOutcome(sys: System, id: nat, ch: Choice, depth: int)
    requires SysInv(sys) && id in sys.calls && sys.calls[id].phase.Publishing? && ch.clock.Some?
    requires Current(sys.store, sys.calls[id]).Some?
    requires Current(sys.store, sys.calls[id]).value.state.Reserved?
    requires ch.clock.value < Current(sys.store, sys.calls[id]).value.lease.expiresAt
    ensures var t := Next(sys, Advance(id, ch), depth).store;
            && Current(t, sys.calls[id]).Some? && Current(t, sys.calls[id]).value.state.Published?
            && SignedWith(Current(t, sys.calls[id]).value, sys.calls[id])
  {
    hide Inv, AllFaithful, FindByKey, Path, RecordOk;
    assert CallOk(sys.store, sys.calls[id]);
    var i := CurrentIndex(sys.store, sys.calls[id]);
    CommitsToCurrent(sys, id, ch, depth);
  }

  /** What a call needs to be the first to reserve under its key: an acceptable price and room for
      it beside the leases that are observed or unexpired when the call began. */
  ghost predicate CanReserve(s: Store, c: Call, ch: Choice)
    requires c.phase.Looking?
  {
    && Current(s, c).None? && ch.priced.Some? && ch.priced.value.amountOut > 0
    && (c.strict.Some? ==> Admits(c.strict.value, ch.priced.value.evidence, c.phase.now))
    && LeaseKey(c.scope, c.request) in s.inventory
    && ch.priced.value.amountOut + Sum(s.records, HeldAt(c.phase.now), LeaseKey(c.scope, c.request))
       <= s.inventory[LeaseKey(c.scope, c.request)].available
  }

  lemma LooksAndPrices(sys: System, id: nat, looked: Choice, priced: Choice, depth: int)
    requires id in sys.calls && sys.calls[id].phase.Looking? && CanReserve(sys.store, sys.calls[id], priced)
    ensures var c := sys.calls[id];
            var s2 := Next(Next(sys, Advance(id, looked), depth), Advance(id, priced), depth);
            && id in s2.calls && s2.store == sys.store
            && s2.calls[id] == c.(phase := Reserving(c.phase.now, priced.priced.value.amountOut,
                 if c.strict.Some? then Some(priced.priced.value.evidence) else None))
  {
    hide FindByKey, Admits;
    CurrentIsFound(sys.store, sys.calls[id]);
  }

  /** Reserving where there is room leads to a reservation on the call's own terms that lasts from
      when the call began for as long as it asked. */
  lemma ReservingSucceeds(sys: System, id: nat, ch: Choice, depth: int)
    requires SysInv(sys) && id in sys.calls && sys.calls[id].phase.Reserving?
    requires var c := sys.calls[id];
             && Current(sys.store, c).None? && LeaseKey(c.scope, c.request) in sys.store.inventory
             && c.phase.amountOut + Sum(sys.store.records, HeldAt(c.phase.now), LeaseKey(c.scope, c.request))
                <= sys.store.inventory[LeaseKey(c.scope, c.request)].available
    ensures var c := sys.calls[id];
            var after := Next(sys, Advance(id, ch), depth);
            && id in after.calls && after.calls[id].phase.Signable?
            && (var r := after.calls[id].phase.reserved;
                && after.calls[id] == c.(phase := Signable(r, c.phase.now))
                && Current(after.store, c) == Some(r) && r.state.Reserved?
                && r.scope == c.scope && r.request == c.request && r.evidence == c.phase.evidence
                && r.nonce == LastNonce(sys.store, c.scope) + 1 && r.lease.amount == c.phase.amountOut
                && r.createdAt == c.phase.now && r.lease.expiresAt == c.phase.now + c.request.ttlSeconds)
  {
    hide Inv, AllFaithful, StoreEvolves, FindByKey, Commit, Apply, Next;
    var c, s := sys.calls[id], sys.store;
    CurrentIsFound(s, c);
    NoneAddressed(s, c);
    RefusedIffNoRoom(s, ReserveOp(c).input, depth);
    BookedOnTheTerms(s, ReserveOp(c).input, depth);
    ReserveReturnsCurrent(s, c, depth);
    AdvancePhase(sys, id, ch, depth);
    NextStore(sys, id, ch, depth);
    CommitIs(s, ReserveOp(c), depth);
  }

  lemma NoneAddressed(s: Store, c: Call)
    requires c.phase.Reserving? && FindByKey(s.records, c.scope, KeyHash(c)).None?
    ensures forall i :: 0 <= i < |s.records| ==> !Addressed(s.records[i], ReserveOp(c))
  {
  }

  /** Progress: a call that nothing disturbs, with an acceptable price, room for it, a signer, and
      clock readings before its time is up, publishes and succeeds, whenever it began. Its quote is on
      the terms asked for, under the scope's next nonce, and expires when that time is up. */
  lemma UndisturbedCallSucceeds(sys: System, id: nat, answers: seq<Choice>, depth: int)
    requires SysInv(sys) && id in sys.calls && sys.calls[id].phase.Looking? && |answers| == 6
    requires CanReserve(sys.store, sys.calls[id], answers[1])
    requires var until := sys.calls[id].phase.now + sys.calls[id].request.ttlSeconds;
             && answers[3].clock.Some? && answers[3].clock.value < until
             && answers[4].signature.Some?
             && answers[5].clock.Some? && answers[5].clock.value < until
    ensures var c := sys.calls[id];
            var steps := seq(6, i requires 0 <= i < 6 => Advance(id, answers[i]));
            var after := Play(sys, steps, depth);
            var until := c.phase.now + c.request.ttlSeconds;
            && id in after.calls
            && after.calls[id].phase == Succeeded(
                 SignedQuote(
                   Quote(c.scope.maker, c.request.taker, c.request.tokenIn, c.request.tokenOut, c.request.amountIn,
                         answers[1].priced.value.amountOut, c.request.venue, c.request.policyId,
                         LastNonce(sys.store, c.scope) + 1, until),
                   answers[4].signature.value, Domain(c.scope.chainId, c.scope.adapter)),
                 Some(c.phase.now))
            && Current(after.store, c).Some? && Current(after.store, c).value.state.Published?
            && SignedWith(Current(after.store, c).value, c)
  {
    hide Inv, AllFaithful, StoreEvolves, FindByKey, Commit, Apply, Next, Play, CallOk, NextPhase, NextOp,
      Admits, CanReserve;
    var c := sys.calls[id];
    var a, b, d := Advance(id, answers[0]), Advance(id, answers[1]), Advance(id, answers[2]);
    var s2 := Next(Next(sys, a, depth), b, depth);
    var s3 := Next(s2, d, depth);
    LooksAndPrices(sys, id, answers[0], answers[1], depth);
    NextKeeps(sys, a, depth);
    NextKeeps(Next(sys, a, depth), b, depth);
    NextKeeps(s2, d, depth);
    SameCurrent(s2.store, c, s2.calls[id]);
    RoomStays(sys.store, c, answers[1]);
    ReservingSucceeds(s2, id, answers[2], depth);
    SameCurrent(s3.store, s2.calls[id], s3.calls[id]);
    SignableSucceeds(s3, id, answers[3], answers[4], answers[5], depth);
    ThreeSteps(sys, a, b, d, depth);
    var last := [Advance(id, answers[3]), Advance(id, answers[4]), Advance(id, answers[5])];
    PlayConcat(sys, [a, b, d], last, depth);
    assert seq(6, i requires 0 <= i < 6 => Advance(id, answers[i])) == [a, b, d] + last;
    SameCurrent(Play(s3, last, depth).store, c, s3.calls[id]);
  }

  lemma SameCurrent(s: Store, c: Call, d: Call)
    requires d == c.(phase := d.phase)
    ensures Current(s, c) == Current(s, d)
  {
  }

  lemma RoomStays(s: Store, c: Call, ch: Choice)
    requires c.phase.Looking? && CanReserve(s, c, ch)
    ensures Current(s, c).None? && LeaseKey(c.scope, c.request) in s.inventory
    ensures ch.priced.value.amountOut + Sum(s.records, HeldAt(c.phase.now), LeaseKey(c.scope, c.request))
         <= s.inventory[LeaseKey(c.scope, c.request)].available
  {
  }
}
