/** What each transaction does on a good store, stated without its own branches: when it is
    accepted, where it leads the record it addresses, and what it leaves alone. */
module QuoteStoreOutcomes {
  import opened Checks
  import opened Results
  import opened RfqTypes
  import opened QuoteTransactions
  import opened QuoteLifecycle
  import opened QuoteStoreInvariants

  /** The record a transaction is about: found by key while quoting, by nonce afterwards. */
  predicate Addressed(r: Record, op: Op) {
    match op
    case Reserve(input) => r.scope == input.scope && r.keyHash == input.keyHash
    case MarkSigned(scope, keyHash, _, _, _, _, _) => r.scope == scope && r.keyHash == keyHash
    case MarkSignFailed(scope, keyHash, _, _) => r.scope == scope && r.keyHash == keyHash
    case MarkObserved(scope, nonce, _, _) => r.scope == scope && r.nonce == nonce
    case Reconcile(scope, nonce, _, _, _) => r.scope == scope && r.nonce == nonce
    case Expire(scope, nonce, _) => r.scope == scope && r.nonce == nonce
    case Revoke(scope, nonce, _) => r.scope == scope && r.nonce == nonce
  }

  /** When a transaction on its record returns normally. */
  predicate Accepts(r: Record, op: Op) {
    match op
    case Reserve(input) => r.requestHash == input.requestHash
    case MarkSigned(_, _, requestHash, sq, _, _, now) =>
      && r.requestHash == requestHash
      && (r.state.Reserved? && now < r.lease.expiresAt ==>
            sq.quote.nonce == r.nonce && sq.quote.expiry == r.lease.expiresAt)
    case MarkSignFailed(_, _, requestHash, _) => r.requestHash == requestHash
    case MarkObserved(_, _, observation, _) =>
      || IsTerminal(r.state) || r.state.Published?
      || (IsObserved(r.state) && r.observed.Some? && Reports(r.observed.value, observation))
    case Reconcile(_, _, _, _, _) => true
    case Expire(_, _, now) => !IsObserved(r.state) && (r.state.Published? ==> r.lease.expiresAt <= now)
    case Revoke(_, _, _) => !IsObserved(r.state)
  }

  /** Two reports of one transaction in one block; hashes in any letter case. */
  predicate Reports(a: Observation, b: Observation) {
    && a.kind == b.kind && a.blockNumber == b.blockNumber
    && SameText(a.transactionHash, b.transactionHash) && SameText(a.blockHash, b.blockHash)
  }

  lemma SameObservationExactly(a: Observation, b: Observation)
    ensures SameObservation(a, b) <==> Reports(a, b)
  {
    LowerIgnoresCase(a.transactionHash, b.transactionHash);
    LowerIgnoresCase(a.blockHash, b.blockHash);
  }

  /** The error of a transaction that its record does not admit. */
  function Refusal(r: Record, op: Op): StoreError {
    match op
    case Reserve(_) => KeyConflict
    case MarkSigned(_, _, requestHash, _, _, _, _) =>
      if r.requestHash != requestHash then KeyConflict else QuoteMismatch
    case MarkSignFailed(_, _, _, _) => KeyConflict
    case MarkObserved(_, _, _, _) => if r.state.Reserved? then CannotObserve else ObservationConflict
    case Reconcile(_, _, _, _, _) => ObservationMissing
    case Expire(_, _, _) => if r.state.Published? then NotExpired else ObservedCannotExpire
    case Revoke(_, _, _) => ObservedCannotRevoke
  }

  /** Where an accepted transaction leads its record, as a table over the lifecycle. */
  function Destination(r: Record, op: Op, depth: int): LifecycleState {
    match r.state
    case Reserved =>
      (match op
       case MarkSigned(_, _, _, _, _, _, now) => if now < r.lease.expiresAt then Published else Expired
       case MarkSignFailed(_, _, _, _) => SignFailed
       case Reconcile(_, _, _, _, now) => if now < r.lease.expiresAt then Reserved else Expired
       case Expire(_, _, _) => Expired
       case Revoke(_, _, _) => Revoked
       case _ => Reserved)
    case Published =>
      (match op
       case MarkObserved(_, _, observation, _) => if observation.kind.Fill? then FillObserved else CancelObserved
       case Reconcile(_, _, _, _, now) => if now < r.lease.expiresAt then Published else Expired
       case Expire(_, _, _) => Expired
       case Revoke(_, _, _) => Revoked
       case _ => Published)
    case FillObserved => Settlement(r, op, depth, Filled)
    case CancelObserved => Settlement(r, op, depth, Cancelled)
    case _ => r.state
  }

  function Settlement(r: Record, op: Op, depth: int, final: LifecycleState): LifecycleState {
    match op
    case Reconcile(_, _, currentBlock, Some(hash), _) =>
      if hash == "" || r.observed.None? then r.state
      else if !SameText(hash, r.observed.value.blockHash) then Published
      else if currentBlock - r.observed.value.blockNumber + 1 >= depth then final
      else r.state
    case _ => r.state
  }

  function TimeOf(op: Op): int {
    match op
    case Reserve(input) => input.createdAt
    case MarkSigned(_, _, _, _, _, _, now) => now
    case MarkSignFailed(_, _, _, now) => now
    case MarkObserved(_, _, _, now) => now
    case Reconcile(_, _, _, _, now) => now
    case Expire(_, _, now) => now
    case Revoke(_, _, now) => now
  }

  /** The record after it moved to another state: nothing but the state's own fields differs. */
  function Moved(r: Record, to: LifecycleState, op: Op): Record {
    var now := TimeOf(op);
    var signed := op.MarkSigned? && to.Published?;
    var reason := match to
      case Filled => Some(ReasonFilled)
      case Cancelled => Some(ReasonCancelled)
      case Expired => Some(ReasonExpired)
      case SignFailed => Some(ReasonSignFailed)
      case Revoked => Some(ReasonRevoke)
      case _ => None;
    r.(state := to,
       history := r.history + (if signed then [HistoryEntry(Signed, now)] else []) + [HistoryEntry(to, now)],
       updatedAt := now,
       terminalAt := if reason.Some? then Some(now) else None,
       releaseReason := reason,
       lease := r.lease.(released := reason.Some?, releaseReason := reason),
       signedQuote := if signed then Some(op.signedQuote) else r.signedQuote,
       quoteHash := if signed then Some(op.quoteHash) else r.quoteHash,
       signerKeyRefHash := if signed then op.signerKeyRefHash else r.signerKeyRefHash,
       observed := if op.MarkObserved? then Some(op.observation)
                   else if to.Published? then None else r.observed)
  }

  /** What a reservation or reconciliation makes of the records it is not about: those still waiting
      on a lease that has run out expire. */
  function Lapsed(r: Record, op: Op): Record {
    if (r.state.Reserved? || r.state.Published?) && r.lease.expiresAt <= TimeOf(op) then Moved(r, Expired, op) else r
  }

  /** The outcome of an accepted transaction on record `i`: the record is returned as stored; it is
      untouched if its destination is the state it was in, and moved there otherwise; no other record
      differs, save those whose lease a reconciliation found run out. */
  ghost predicate LeadsTo(s: Store, i: nat, op: Op, depth: int, o: Outcome)
    requires i < |s.records|
  {
    var before := s.records[i];
    var to := Destination(before, op, depth);
    && |o.store.records| == |s.records| && o.store.lastNonce == s.lastNonce && o.existing
    && o.record == o.store.records[i]
    && o.record == (if to == before.state then before else Moved(before, to, op))
    && (forall j :: 0 <= j < |s.records| && j != i ==>
          o.store.records[j] == if op.Reconcile? then Lapsed(s.records[j], op) else s.records[j])
  }

  ghost predicate Meets(s: Store, i: nat, op: Op, depth: int)
    requires i < |s.records|
  {
    match Apply(s, op, depth)
    case Ok(o) => Accepts(s.records[i], op) && LeadsTo(s, i, op, depth, o)
    case Err(e) => !Accepts(s.records[i], op) && e == Refusal(s.records[i], op)
  }

  lemma TerminatedMoves(r: Record, to: LifecycleState, op: Op)
    requires RecordOk(r) && !IsTerminal(r.state) && IsTerminal(to) && !op.MarkObserved?
    ensures Terminated(r, to, TimeOf(op)) == Moved(r, to, op)
  {
    hide Path;
  }

  lemma PublicationMoves(r: Record, op: Op)
    requires RecordOk(r) && r.state.Reserved? && op.MarkSigned?
    ensures Publication(r, op) == Moved(r, Published, op)
  {
    hide Path;
  }

  lemma SightingMoves(r: Record, op: Op)
    requires RecordOk(r) && r.state.Published? && op.MarkObserved?
    ensures Sighting(r, op) == Moved(r, if op.observation.kind.Fill? then FillObserved else CancelObserved, op)
  {
    hide Path;
  }

  lemma RollbackMoves(r: Record, op: Op)
    requires RecordOk(r) && IsObserved(r.state) && op.Reconcile?
    ensures Rollback(r, op.now) == Moved(r, Published, op)
  {
    hide Path;
  }

  lemma SweptIsLapsed(r: Record, op: Op)
    requires RecordOk(r) && (op.Reconcile? || op.Reserve?)
    ensures Swept(r, TimeOf(op)) == Lapsed(r, op)
  {
    hide Path, Moved, Terminated;
    if Sweepable(r, TimeOf(op)) {
      TerminatedMoves(r, Expired, op);
    }
  }

  lemma AllSweptAreLapsed(s: Store, op: Op)
    requires Inv(s) && (op.Reconcile? || op.Reserve?)
    ensures forall j :: 0 <= j < |s.records| ==> Swept(s.records[j], TimeOf(op)) == Lapsed(s.records[j], op)
  {
    hide RecordOk, Conserved, NoncesDense, KeysUnique, Swept, Lapsed;
    forall j | 0 <= j < |s.records| ensures Swept(s.records[j], TimeOf(op)) == Lapsed(s.records[j], op) {
      SweptIsLapsed(s.records[j], op);
    }
  }

  lemma AddressedAtMostOnce(s: Store, op: Op, i: nat, j: nat)
    requires Inv(s) && i < |s.records| && j < |s.records|
    requires Addressed(s.records[i], op) && Addressed(s.records[j], op)
    ensures i == j
  {
    hide RecordOk, Conserved;
    if s.records[i].nonce == s.records[j].nonce && s.records[i].scope == s.records[j].scope && i != j {
      NoncesIncrease(s.records, LastNonce(s, s.records[i].scope), if i < j then i else j, if i < j then j else i);
    }
  }

  lemma FoundByKey(s: Store, op: Op, scope: Scope, keyHash: Digest, i: nat)
    requires Inv(s) && i < |s.records| && HasKey(s.records[i], scope, keyHash)
    requires Addressed(s.records[i], op)
    requires op.Reserve? || op.MarkSigned? || op.MarkSignFailed?
    ensures FindByKey(s.records, scope, keyHash) == Some(i)
  {
  }

  lemma FoundByNonce(s: Store, op: Op, scope: Scope, nonce: nat, i: nat)
    requires Inv(s) && i < |s.records| && HasNonce(s.records[i], scope, nonce)
    requires Addressed(s.records[i], op)
    requires !(op.Reserve? || op.MarkSigned? || op.MarkSignFailed?)
    ensures FindByNonce(s.records, scope, nonce) == Some(i)
  {
    hide Inv;
    var j := FindByNonce(s.records, scope, nonce).value;
    AddressedAtMostOnce(s, op, i, j);
  }

  lemma MarkSignedOutcome(s: Store, op: Op, depth: int, i: nat)
    requires Inv(s) && i < |s.records| && Addressed(s.records[i], op) && op.MarkSigned?
    ensures Meets(s, i, op, depth)
  {
    hide Conserved, NoncesDense, KeysUnique, StoreEvolves, Evolves, RecordOk, Terminate, FindByKey, Moved;
    var r := s.records[i];
    FoundByKey(s, op, r.scope, r.keyHash, i);
    NeverPassing(s, i);
    if r.state.Reserved? {
      OpenIsHeld(r);
      TerminateKeeps(s, i, Expired, op.now);
      TerminatedMoves(r, Expired, op);
      PublicationMoves(r, op);
    }
  }

  lemma KeyOutcome(s: Store, op: Op, depth: int, i: nat)
    requires Inv(s) && i < |s.records| && Addressed(s.records[i], op)
    requires op.Reserve? || op.MarkSignFailed?
    ensures Meets(s, i, op, depth)
  {
    hide Conserved, NoncesDense, KeysUnique, StoreEvolves, Evolves, RecordOk, Terminate, FindByKey, Sweep, Moved;
    var r := s.records[i];
    FoundByKey(s, op, r.scope, r.keyHash, i);
    if r.state.Reserved? {
      TerminateKeeps(s, i, SignFailed, TimeOf(op));
      TerminatedMoves(r, SignFailed, op);
    }
    NeverPassing(s, i);
  }

  lemma NeverPassing(s: Store, i: nat)
    requires Inv(s) && i < |s.records|
    ensures !s.records[i].state.Received? && !s.records[i].state.Signed?
  {
  }

  lemma ObservingOutcome(s: Store, op: Op, depth: int, i: nat)
    requires Inv(s) && i < |s.records| && Addressed(s.records[i], op) && op.MarkObserved?
    requires FindByNonce(s.records, op.scope, op.nonce) == Some(i)
    ensures Meets(s, i, op, depth)
  {
    hide Conserved, NoncesDense, KeysUnique, RecordOk, FindByNonce, Moved, Sighting, SameObservation, Reports;
    var r := s.records[i];
    NeverPassing(s, i);
    if r.state.Published? {
      SightingMoves(r, op);
    }
    if IsObserved(r.state) {
      ObservedHasObservation(s, i);
      SameObservationExactly(r.observed.value, op.observation);
    }
  }

  lemma NonceOutcome(s: Store, op: Op, depth: int, i: nat)
    requires Inv(s) && i < |s.records| && Addressed(s.records[i], op)
    requires op.MarkObserved? || op.Expire? || op.Revoke?
    ensures Meets(s, i, op, depth)
  {
    hide Conserved, NoncesDense, KeysUnique, StoreEvolves, Evolves, RecordOk, Terminate, FindByNonce, Moved;
    var r := s.records[i];
    FoundByNonce(s, op, r.scope, r.nonce, i);
    NeverPassing(s, i);
    if op.MarkObserved? {
      ObservingOutcome(s, op, depth, i);
    } else if !IsTerminal(r.state) && !IsObserved(r.state) {
      OpenIsHeld(r);
      TerminateKeeps(s, i, Expired, TimeOf(op));
      TerminateKeeps(s, i, Revoked, TimeOf(op));
      TerminatedMoves(r, Expired, op);
      TerminatedMoves(r, Revoked, op);
    }
  }

  lemma ReconcileOpenOutcome(s: Store, op: Op, depth: int, i: nat)
    requires Inv(s) && i < |s.records| && Addressed(s.records[i], op)
    requires op.Reconcile? && !IsObserved(s.records[i].state)
    ensures Meets(s, i, op, depth)
  {
    hide Conserved, NoncesDense, KeysUnique, StoreEvolves, Evolves, RecordOk, FindByNonce, Sweep, Moved, Swept;
    var r := s.records[i];
    FoundByNonce(s, op, r.scope, r.nonce, i);
    SweepKeeps(s, op.now, |s.records|);
    AllSweptAreLapsed(s, op);
    NeverPassing(s, i);
    SweptLeavesObserved(r, op.now);
  }

  lemma ReconcileObservedOutcome(s: Store, op: Op, depth: int, i: nat)
    requires Inv(s) && i < |s.records| && Addressed(s.records[i], op)
    requires op.Reconcile? && IsObserved(s.records[i].state)
    ensures Meets(s, i, op, depth)
  {
    hide Conserved, NoncesDense, KeysUnique, StoreEvolves, Evolves, RecordOk, Terminate, FindByNonce, Sweep, Swept,
      Moved, Lapsed, SameText;
    var r := s.records[i];
    FoundByNonce(s, op, r.scope, r.nonce, i);
    SweepKeeps(s, op.now, |s.records|);
    var t := Sweep(s, op.now, |s.records|).value;
    SweptLeavesObserved(r, op.now);
    ObservedHasObservation(s, i);
    AllSweptAreLapsed(s, op);
    var final := if r.state.FillObserved? then Filled else Cancelled;
    TerminateKeeps(t, i, final, op.now);
    TerminatedMoves(r, final, op);
    RollbackMoves(r, op);
    if op.canonicalHash.Some? {
      LowerIgnoresCase(op.canonicalHash.value, r.observed.value.blockHash);
    }
  }

  /** A transaction on a record of a good store is accepted exactly when the record admits it,
      and then takes that record, and nothing else, to its destination. */
  lemma OutcomeIsDestination(s: Store, op: Op, depth: int, i: nat)
    requires Inv(s) && i < |s.records| && Addressed(s.records[i], op)
    ensures Apply(s, op, depth).Ok? <==> Accepts(s.records[i], op)
    ensures match Apply(s, op, depth)
            case Ok(o) => LeadsTo(s, i, op, depth, o)
            case Err(e) => e == Refusal(s.records[i], op)
  {
    hide Inv, LeadsTo, Apply;
    if op.MarkSigned? {
      MarkSignedOutcome(s, op, depth, i);
    } else if op.Reserve? || op.MarkSignFailed? {
      KeyOutcome(s, op, depth, i);
    } else if op.Reconcile? && IsObserved(s.records[i].state) {
      ReconcileObservedOutcome(s, op, depth, i);
    } else if op.Reconcile? {
      ReconcileOpenOutcome(s, op, depth, i);
    } else {
      NonceOutcome(s, op, depth, i);
    }
  }

  /** A transaction that addresses no record fails, unless it books one. */
  lemma UnaddressedIsNotFound(s: Store, op: Op, depth: int)
    requires !op.Reserve? && forall i :: 0 <= i < |s.records| ==> !Addressed(s.records[i], op)
    ensures Apply(s, op, depth) == Err(RecordNotFound)
  {
  }

  /** A reservation on an inventory that is not configured is refused as such, and no other is. */
  lemma UnconfiguredIsRefused(s: Store, input: ReserveInput, depth: int)
    requires Inv(s) && forall i :: 0 <= i < |s.records| ==> !Addressed(s.records[i], Reserve(input))
    ensures Apply(s, Reserve(input), depth) == Err(InventoryNotConfigured) <==> input.key !in s.inventory
  {
    hide RecordsOk, Conserved, NoncesDense, KeysUnique, StoreEvolves, Sweep;
    SweepKeeps(s, input.createdAt, |s.records|);
  }

  /** What a fresh reservation books: the caller's terms under the scope's next nonce, on a lease
      that holds the amount, beside the earlier records, of which those still waiting on a lease that
      has run out have expired. */
  lemma BookedOnTheTerms(s: Store, input: ReserveInput, depth: int)
    requires Inv(s) && forall i :: 0 <= i < |s.records| ==> !Addressed(s.records[i], Reserve(input))
    requires Apply(s, Reserve(input), depth).Ok?
    ensures var o := Apply(s, Reserve(input), depth).value;
            var r := o.record;
            && !o.existing
            && |o.store.records| == |s.records| + 1 && o.store.records[|s.records|] == r
            && (forall i :: 0 <= i < |s.records| ==> o.store.records[i] == Lapsed(s.records[i], Reserve(input)))
            && r.state.Reserved? && r.signedQuote.None? && r.quoteHash.None? && r.signerKeyRefHash.None?
            && r.scope == input.scope && r.keyHash == input.keyHash
            && r.requestHash == input.requestHash && r.request == input.request && r.evidence == input.evidence
            && r.nonce == LastNonce(s, input.scope) + 1 == LastNonce(o.store, input.scope)
            && (forall scope :: scope != input.scope ==> LastNonce(o.store, scope) == LastNonce(s, scope))
            && r.lease.key == input.key && r.lease.amount == input.amount
            && r.lease.leaseId == OfLease(input.scope, r.nonce, input.key, input.amount)
            && r.lease.expiresAt == input.expiresAt && !r.lease.released && r.lease.releaseReason.None?
            && r.createdAt == r.updatedAt == input.createdAt && r.terminalAt.None? && r.releaseReason.None?
            && r.observed.None?
            && r.history == [HistoryEntry(Received, input.createdAt), HistoryEntry(Reserved, input.createdAt)]
  {
    hide RecordsOk, Conserved, NoncesDense, KeysUnique, StoreEvolves, Sweep, Swept, Lapsed;
    BookAfterSweep(s, input);
    AllSweptAreLapsed(s, Reserve(input));
    SweepKeeps(s, input.createdAt, |s.records|);
  }
}
