/** The file-backed coordinator store. Each operation works on a copy of the persisted state
    and writes it back only when it returns normally. */
module QuoteStore {
  import opened Checks
  import opened Results
  import opened RfqTypes
  import opened QuoteTransactions
  import opened QuoteStoreInvariants
  import opened QuoteStoreTheorems

  /** What an operation returns for a transaction's outcome. */
  function Reply(tx: Result<Outcome, StoreError>): Result<Record, StoreError> {
    match tx
    case Ok(o) => Ok(o.record)
    case Err(e) => Err(e)
  }

  /** Once the sweep has failed it stays failed. */
  lemma {:induction false} SweepFailureSticks(s: Store, now: int, n: nat, m: nat)
    requires n <= m <= |s.records| && Sweep(s, now, n).Err?
    ensures Sweep(s, now, m) == Sweep(s, now, n)
  {
    if n < m {
      SweepFailureSticks(s, now, n, m - 1);
    }
  }

  /** Gives the lease of record `i` back to its bucket. */
  method ReleaseLease(state: Store, i: nat, reason: ReleaseReason) returns (res: Result<Store, StoreError>)
    requires i < |state.records|
    ensures res == match Released(state.inventory, state.records[i].lease)
                   case Err(e) => Err(e)
                   case Ok(inventory) =>
                     var r := state.records[i];
                     Ok(state.(inventory := inventory, records := state.records[i :=
                       if r.lease.released then r
                       else r.(lease := r.lease.(released := true, releaseReason := Some(reason)),
                               releaseReason := Some(reason))]))
  {
    var record := state.records[i];
    if record.lease.released {
      assert state.records[i := record] == state.records;
      return Ok(state);
    }
    if record.lease.key !in state.inventory {
      return Err(BucketMissing);
    }
    var bucket := state.inventory[record.lease.key];
    bucket := bucket.(reserved := bucket.reserved - record.lease.amount);
    if bucket.reserved < 0 {
      return Err(ReservationUnderflow);
    }
    record := record.(lease := record.lease.(released := true, releaseReason := Some(reason)));
    record := record.(releaseReason := Some(reason));
    return Ok(state.(inventory := state.inventory[record.lease.key := bucket],
                     records := state.records[i := record]));
  }

  /** Moves record `i` into a terminal state and releases its lease. */
  method Close(state: Store, i: nat, final: LifecycleState, now: int) returns (res: Result<Store, StoreError>)
    requires i < |state.records| && IsTerminal(final)
    ensures res == Terminate(state, i, final, now)
  {
    var record := state.records[i];
    record := record.(state := final);
    record := record.(history := record.history + [HistoryEntry(final, now)]);
    record := record.(updatedAt := now);
    record := record.(terminalAt := Some(now));
    res := ReleaseLease(state.(records := state.records[i := record]), i, ReasonFor(final));
    assert state.records[i := record][i := Terminated(state.records[i], final, now)]
        == state.records[i := Terminated(state.records[i], final, now)];
  }

  /** Expires every unobserved, unfinished record whose lease ran out. */
  method ReleaseExpiredLeases(state: Store, now: int) returns (res: Result<Store, StoreError>)
    ensures res == Sweep(state, now, |state.records|)
  {
    var current := state;
    for i := 0 to |state.records|
      invariant Sweep(state, now, i) == Ok(current)
      invariant |current.records| == |state.records|
    {
      var record := current.records[i];
      if record.lease.released || record.lease.expiresAt > now
         || IsObserved(record.state) || IsTerminal(record.state) {
        continue;
      }
      var closed := Close(current, i, Expired, now);
      if closed.Err? {
        SweepFailureSticks(state, now, i + 1, |state.records|);
        return Err(closed.error);
      }
      current := closed.value;
    }
    return Ok(current);
  }

  class LocalFileQuoteCoordinatorStore {
    var records: seq<Record>
    var lastNonce: map<Scope, nat>
    var inventory: Inventory
    const confirmationDepth: int

    function State(): Store
      reads this
    {
      Store(records, lastNonce, inventory)
    }

    ghost predicate Valid()
      reads this
    {
      Inv(State())
    }

    /** Opens a store on a new file. Availabilities and the depth are checked to be positive. */
    constructor (available: map<InventoryKey, int>, depth: int)
      requires depth > 0 && forall k :: k in available ==> available[k] > 0
      ensures Valid() && Fresh(State()) && confirmationDepth == depth
      ensures inventory.Keys == available.Keys
      ensures forall k :: k in available ==> inventory[k].available == available[k]
    {
      records := [];
      lastNonce := map[];
      inventory := map k | k in available :: Bucket(available[k], 0);
      confirmationDepth := depth;
      new;
      FreshInv(State());
    }

    /** Takes over what a file holds. */
    constructor Load(persisted: Store, depth: int)
      ensures State() == persisted && confirmationDepth == depth
    {
      records := persisted.records;
      lastNonce := persisted.lastNonce;
      inventory := persisted.inventory;
      confirmationDepth := depth;
    }

    /** Writes the working copy back. */
    method WriteState(state: Store)
      modifies this
      ensures State() == state
    {
      records := state.records;
      lastNonce := state.lastNonce;
      inventory := state.inventory;
    }

    method ReserveOrReturnExisting(input: ReserveInput) returns (res: Result<(Record, bool), StoreError>)
      requires Valid()
      modifies this
      ensures Valid() && State() == Commit(old(State()), Reserve(input), confirmationDepth)
      ensures match ReserveTx(old(State()), input)
              case Ok(o) => res == Ok((o.record, o.existing))
              case Err(e) => res == Err(e)
    {
      hide Inv, StoreEvolves, Sweep, NewRecord;
      CommitKeeps(State(), Reserve(input), confirmationDepth);
      var found := FindByKey(records, input.scope, input.keyHash);
      if found.Some? {
        if records[found.value].requestHash != input.requestHash {
          return Err(KeyConflict);
        }
        return Ok((records[found.value], true));
      }
      if input.key !in inventory {
        return Err(InventoryNotConfigured);
      }
      var swept := ReleaseExpiredLeases(State(), input.createdAt);
      if swept.Err? {
        return Err(swept.error);
      }
      var state := swept.value;
      var bucket := state.inventory[input.key];
      if bucket.available - bucket.reserved < input.amount {
        return Err(InsufficientInventory);
      }
      var nonce := (if input.scope in state.lastNonce then state.lastNonce[input.scope] else 0) + 1;
      state := state.(lastNonce := state.lastNonce[input.scope := nonce]);
      bucket := bucket.(reserved := bucket.reserved + input.amount);
      state := state.(inventory := state.inventory[input.key := bucket]);
      var record := NewRecord(input, nonce);
      state := state.(records := state.records + [record]);
      WriteState(state);
      return Ok((record, false));
    }

    method MarkSigned(op: Op) returns (res: Result<Record, StoreError>)
      requires Valid() && op.MarkSigned?
      modifies this
      ensures Valid() && State() == Commit(old(State()), op, confirmationDepth)
      ensures res == Reply(MarkSignedTx(old(State()), op))
    {
      hide Inv, StoreEvolves;
      CommitKeeps(State(), op, confirmationDepth);
      var found := RequireByKey(records, op.scope, op.keyHash, op.requestHash);
      if found.Err? {
        return Err(found.error);
      }
      var record := records[found.value];
      if !record.state.Reserved? || record.lease.released {
        return Ok(record);
      }
      if record.lease.expiresAt <= op.now {
        var closed := Close(State(), found.value, Expired, op.now);
        if closed.Err? {
          return Err(closed.error);
        }
        WriteState(closed.value);
        return Ok(records[found.value]);
      }
      if op.signedQuote.quote.nonce != record.nonce || op.signedQuote.quote.expiry != record.lease.expiresAt {
        return Err(QuoteMismatch);
      }
      record := record.(history := record.history + [HistoryEntry(Signed, op.now)]);
      record := record.(state := Published);
      record := record.(history := record.history + [HistoryEntry(Published, op.now)]);
      record := record.(signedQuote := Some(op.signedQuote));
      record := record.(quoteHash := Some(op.quoteHash));
      record := record.(signerKeyRefHash := op.signerKeyRefHash);
      record := record.(updatedAt := op.now);
      records := records[found.value := record];
      return Ok(record);
    }

    method MarkSignFailed(op: Op) returns (res: Result<Record, StoreError>)
      requires Valid() && op.MarkSignFailed?
      modifies this
      ensures Valid() && State() == Commit(old(State()), op, confirmationDepth)
      ensures res == Reply(MarkSignFailedTx(old(State()), op))
    {
      hide Inv, StoreEvolves;
      CommitKeeps(State(), op, confirmationDepth);
      var found := RequireByKey(records, op.scope, op.keyHash, op.requestHash);
      if found.Err? {
        return Err(found.error);
      }
      var record := records[found.value];
      if record.state.SignFailed? || IsTerminal(record.state) || !record.state.Reserved? {
        return Ok(record);
      }
      var closed := Close(State(), found.value, SignFailed, op.now);
      if closed.Err? {
        return Err(closed.error);
      }
      WriteState(closed.value);
      return Ok(records[found.value]);
    }

    method MarkObserved(op: Op) returns (res: Result<Record, StoreError>)
      requires Valid() && op.MarkObserved?
      modifies this
      ensures Valid() && State() == Commit(old(State()), op, confirmationDepth)
      ensures res == Reply(MarkObservedTx(old(State()), op))
    {
      hide Inv, StoreEvolves;
      CommitKeeps(State(), op, confirmationDepth);
      var found := RequireByNonce(records, op.scope, op.nonce);
      if found.Err? {
        return Err(found.error);
      }
      var record := records[found.value];
      if IsTerminal(record.state) {
        return Ok(record);
      }
      if IsObserved(record.state) {
        if record.observed.Some? && SameObservation(record.observed.value, op.observation) {
          return Ok(record);
        }
        return Err(ObservationConflict);
      }
      if !record.state.Published? {
        return Err(CannotObserve);
      }
      record := record.(state := if op.observation.kind.Fill? then FillObserved else CancelObserved);
      record := record.(history := record.history + [HistoryEntry(record.state, op.now)]);
      record := record.(observed := Some(op.observation));
      record := record.(updatedAt := op.now);
      records := records[found.value := record];
      return Ok(record);
    }

    method Reconcile(op: Op) returns (res: Result<Record, StoreError>)
      requires Valid() && op.Reconcile?
      modifies this
      ensures Valid() && State() == Commit(old(State()), op, confirmationDepth)
      ensures res == Reply(ReconcileTx(old(State()), op, confirmationDepth))
    {
      hide Inv, StoreEvolves;
      CommitKeeps(State(), op, confirmationDepth);
      var found := RequireByNonce(records, op.scope, op.nonce);
      if found.Err? {
        return Err(found.error);
      }
      var swept := ReleaseExpiredLeases(State(), op.now);
      if swept.Err? {
        return Err(swept.error);
      }
      var state := swept.value;
      var i := found.value;
      var record := state.records[i];
      if IsObserved(record.state) {
        if record.observed.None? {
          return Err(ObservationMissing);
        }
        if op.canonicalHash.Some? && op.canonicalHash.value != "" {
          if Lower(op.canonicalHash.value) != Lower(record.observed.value.blockHash) {
            record := record.(state := Published);
            record := record.(history := record.history + [HistoryEntry(Published, op.now)]);
            record := record.(observed := None);
            record := record.(updatedAt := op.now);
            state := state.(records := state.records[i := record]);
          } else if op.currentBlock - record.observed.value.blockNumber + 1 >= confirmationDepth {
            var final := if record.state.FillObserved? then Filled else Cancelled;
            var closed := Close(state, i, final, op.now);
            if closed.Err? {
              return Err(closed.error);
            }
            state := closed.value;
          }
        }
      }
      WriteState(state);
      return Ok(records[i]);
    }

    method Expire(op: Op) returns (res: Result<Record, StoreError>)
      requires Valid() && op.Expire?
      modifies this
      ensures Valid() && State() == Commit(old(State()), op, confirmationDepth)
      ensures res == Reply(ExpireTx(old(State()), op))
    {
      hide Inv, StoreEvolves;
      CommitKeeps(State(), op, confirmationDepth);
      var found := RequireByNonce(records, op.scope, op.nonce);
      if found.Err? {
        return Err(found.error);
      }
      var record := records[found.value];
      if IsTerminal(record.state) {
        return Ok(record);
      }
      if IsObserved(record.state) {
        return Err(ObservedCannotExpire);
      }
      if record.signedQuote.Some? && op.now < record.signedQuote.value.quote.expiry {
        return Err(NotExpired);
      }
      var closed := Close(State(), found.value, Expired, op.now);
      if closed.Err? {
        return Err(closed.error);
      }
      WriteState(closed.value);
      return Ok(records[found.value]);
    }

    method Revoke(op: Op) returns (res: Result<Record, StoreError>)
      requires Valid() && op.Revoke?
      modifies this
      ensures Valid() && State() == Commit(old(State()), op, confirmationDepth)
      ensures res == Reply(RevokeTx(old(State()), op))
    {
      hide Inv, StoreEvolves;
      CommitKeeps(State(), op, confirmationDepth);
      var found := RequireByNonce(records, op.scope, op.nonce);
      if found.Err? {
        return Err(found.error);
      }
      var record := records[found.value];
      if IsTerminal(record.state) {
        return Ok(record);
      }
      if IsObserved(record.state) {
        return Err(ObservedCannotRevoke);
      }
      var closed := Close(State(), found.value, Revoked, op.now);
      if closed.Err? {
        return Err(closed.error);
      }
      WriteState(closed.value);
      return Ok(records[found.value]);
    }

    method GetByIdempotencyKeyHash(scope: Scope, keyHash: Digest) returns (res: Option<Record>)
      requires Valid()
      ensures res.Some? ==> res.value in records && HasKey(res.value, scope, keyHash)
      ensures res.None? ==> forall r :: r in records ==> !HasKey(r, scope, keyHash)
    {
      var found := FindByKey(records, scope, keyHash);
      return if found.Some? then Some(records[found.value]) else None;
    }
  }

  /** The persisted availabilities are the configured ones. */
  predicate Configured(inventory: Inventory, available: map<InventoryKey, int>) {
    forall k :: k in available ==> k in inventory && inventory[k].available == available[k]
  }

  /** Reopens a store on an existing file: accepted exactly when every configured bucket is there
      with the configured availability. */
  method Reopen(persisted: Store, available: map<InventoryKey, int>, depth: int)
    returns (store: LocalFileQuoteCoordinatorStore, accepted: bool)
    ensures fresh(store) && store.State() == persisted && store.confirmationDepth == depth
    ensures accepted <==> Configured(persisted.inventory, available)
    ensures Inv(persisted) ==> store.Valid()
  {
    store := new LocalFileQuoteCoordinatorStore.Load(persisted, depth);
    accepted := true;
    var remaining := available.Keys;
    while remaining != {}
      invariant remaining <= available.Keys
      invariant accepted
      invariant forall k :: k in available && k !in remaining ==>
                  k in persisted.inventory && persisted.inventory[k].available == available[k]
      decreases remaining
    {
      var key :| key in remaining;
      if key !in persisted.inventory || persisted.inventory[key].available != available[key] {
        return store, false;
      }
      remaining := remaining - {key};
    }
  }

  /** A restart with the same configuration is always accepted, whatever was done before, and takes
      over a store that satisfies the invariant. */
  lemma RestartIsAccepted(s0: Store, ops: seq<Op>, depth: int, available: map<InventoryKey, int>)
    requires Fresh(s0) && Configured(s0.inventory, available)
    ensures Configured(Run(s0, ops, depth).inventory, available) && Inv(Run(s0, ops, depth))
  {
    hide Run, Inv;
    FreshInv(s0);
    RunKeeps(s0, ops, depth);
  }
}
