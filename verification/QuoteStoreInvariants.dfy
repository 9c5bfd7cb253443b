/** The store's global invariant, why every transaction keeps it, and what each
    transaction can do to each record. */
module QuoteStoreInvariants {
  import opened Checks
  import opened Results
  import opened RfqTypes
  import opened QuoteTransactions
  import opened QuoteLifecycle
  import opened QuoteConservation

  /** The nonces of one scope, in creation order. */
  function NoncesOf(records: seq<Record>, scope: Scope): seq<nat> {
    if records == [] then []
    else
      var rest := NoncesOf(records[..|records| - 1], scope);
      if records[|records| - 1].scope == scope then rest + [records[|records| - 1].nonce] else rest
  }

  /** 1, 2, ..., n. */
  function UpTo(n: nat): seq<nat> {
    seq(n, i requires 0 <= i < n => i + 1)
  }

  ghost predicate RecordsOk(s: Store) {
    forall i :: 0 <= i < |s.records| ==> RecordOk(s.records[i])
  }

  /** The reserved counter of every bucket is exactly the sum of its unreleased leases. */
  ghost predicate Conserved(s: Store) {
    && (forall i :: 0 <= i < |s.records| ==> s.records[i].lease.key in s.inventory)
    && (forall k :: k in s.inventory ==>
          && s.inventory[k].reserved == Sum(s.records, Unreleased, k)
          && s.inventory[k].reserved <= s.inventory[k].available)
  }

  ghost predicate NoncesDense(s: Store) {
    forall scope :: NoncesOf(s.records, scope) == UpTo(LastNonce(s, scope))
  }

  ghost predicate KeysUnique(s: Store) {
    forall i, j :: 0 <= i < j < |s.records| ==>
      !HasKey(s.records[j], s.records[i].scope, s.records[i].keyHash)
  }

  ghost predicate Inv(s: Store) {
    RecordsOk(s) && Conserved(s) && NoncesDense(s) && KeysUnique(s)
  }

  /** A later store: records are kept in place and evolve, configuration stays, nonces grow. */
  ghost predicate StoreEvolves(s: Store, t: Store) {
    && |s.records| <= |t.records|
    && (forall i :: 0 <= i < |s.records| ==> Evolves(s.records[i], t.records[i]))
    && t.inventory.Keys == s.inventory.Keys
    && (forall k :: k in s.inventory ==> t.inventory[k].available == s.inventory[k].available)
    && (forall scope :: LastNonce(s, scope) <= LastNonce(t, scope))
  }

  lemma StoreEvolvesReflexive(s: Store)
    ensures StoreEvolves(s, s)
  {
  }

  lemma StoreEvolvesTransitive(s: Store, t: Store, u: Store)
    requires StoreEvolves(s, t) && StoreEvolves(t, u)
    ensures StoreEvolves(s, u)
  {
  }

  // ---- nonces ----

  lemma {:induction false} NoncesOfReplace(records: seq<Record>, i: nat, r: Record, scope: Scope)
    requires i < |records| && SameTerms(records[i], r)
    ensures NoncesOf(records[i := r], scope) == NoncesOf(records, scope)
  {
    var n := |records| - 1;
    if i == n {
      assert records[i := r][..n] == records[..n];
    } else {
      assert records[i := r][..n] == records[..n][i := r];
      NoncesOfReplace(records[..n], i, r, scope);
    }
  }

  lemma {:induction false} NonceIsAllocated(records: seq<Record>, i: nat)
    requires i < |records|
    ensures records[i].nonce in NoncesOf(records, records[i].scope)
  {
    if i < |records| - 1 {
      NonceIsAllocated(records[..|records| - 1], i);
    }
  }

  /** Two records of a scope carry different nonces, the earlier one the smaller. */
  lemma {:induction false} NoncesIncrease(records: seq<Record>, n: nat, i: nat, j: nat)
    requires i < j < |records| && records[i].scope == records[j].scope
    requires NoncesOf(records, records[i].scope) == UpTo(n)
    ensures 1 <= records[i].nonce < records[j].nonce <= n
  {
    var last := |records| - 1;
    var scope := records[i].scope;
    var front := records[..last];
    if records[last].scope == scope {
      assert NoncesOf(front, scope) == NoncesOf(records, scope)[..n - 1] == UpTo(n - 1);
      assert NoncesOf(records, scope)[n - 1] == records[last].nonce;
      if j < last {
        NoncesIncrease(front, n - 1, i, j);
      } else {
        NonceIsAllocated(front, i);
      }
    } else {
      NoncesIncrease(front, n, i, j);
    }
  }

  // ---- the two ways a transaction changes a record ----

  lemma ReplaceNumbers(s: Store, t: Store, i: nat, r: Record)
    requires NoncesDense(s) && i < |s.records| && SameTerms(s.records[i], r)
    requires t.records == s.records[i := r] && t.lastNonce == s.lastNonce
    ensures NoncesDense(t)
  {
    forall scope ensures NoncesOf(t.records, scope) == UpTo(LastNonce(t, scope)) {
      NoncesOfReplace(s.records, i, r, scope);
    }
  }

  /** Replacing a record by one with the same terms and lease. */
  lemma ReplaceKeeps(s: Store, i: nat, r: Record)
    requires Inv(s) && i < |s.records|
    requires RecordOk(r) && Evolves(s.records[i], r) && r.lease == s.records[i].lease
    ensures Inv(Replace(s, i, r)) && StoreEvolves(s, Replace(s, i, r))
  {
    hide RecordOk, NoncesDense;
    var t := Replace(s, i, r);
    ReplaceNumbers(s, t, i, r);
    forall k | k in t.inventory
      ensures t.inventory[k].reserved == Sum(t.records, Unreleased, k)
    {
      SumUpdate(s.records, i, r, Unreleased, k);
    }
  }

  lemma TerminatedHoldsNothing(r: Record, state: LifecycleState, now: int, key: InventoryKey)
    requires IsTerminal(state)
    ensures Amount(Unreleased, key, Terminated(r, state, now)) == 0
    ensures Terminated(r, state, now).lease.key == r.lease.key
  {
  }

  lemma TerminateConserves(s: Store, i: nat, state: LifecycleState, now: int)
    requires Conserved(s) && i < |s.records| && IsTerminal(state)
    ensures Terminate(s, i, state, now).Ok? && Conserved(Terminate(s, i, state, now).value)
  {
    hide Terminated, Sum;
    var r := s.records[i];
    SumIncludes(s.records, i, Unreleased, r.lease.key);
    var t := Terminate(s, i, state, now).value;
    TerminatedHoldsNothing(r, state, now, r.lease.key);
    forall k | k in t.inventory
      ensures t.inventory[k].reserved == Sum(t.records, Unreleased, k) <= t.inventory[k].available
    {
      TerminatedHoldsNothing(r, state, now, k);
      SumUpdate(s.records, i, Terminated(r, state, now), Unreleased, k);
    }
  }

  /** Terminating a record: the counter update cannot fail, and it keeps the invariant. */
  lemma TerminateKeeps(s: Store, i: nat, state: LifecycleState, now: int)
    requires Inv(s) && i < |s.records| && IsTerminal(state) && Edge(s.records[i].state, state)
    ensures var t := Terminate(s, i, state, now);
            && t.Ok?
            && t.value.records == s.records[i := Terminated(s.records[i], state, now)]
            && t.value.lastNonce == s.lastNonce
            && Inv(t.value) && StoreEvolves(s, t.value)
  {
    hide Path, RecordOk, Conserved, NoncesDense;
    TerminatedOk(s.records[i], state, now);
    TerminateConserves(s, i, state, now);
    ReplaceNumbers(s, Terminate(s, i, state, now).value, i, Terminated(s.records[i], state, now));
  }

  /** The record after the expiry sweep. */
  function Swept(r: Record, now: int): Record {
    if Sweepable(r, now) then Terminated(r, Expired, now) else r
  }

  lemma SweepableCanExpire(r: Record, now: int)
    requires RecordOk(r) && Sweepable(r, now)
    ensures Edge(r.state, Expired)
  {
  }

  lemma SweptKeepsKey(r: Record, now: int)
    ensures Swept(r, now).scope == r.scope && Swept(r, now).keyHash == r.keyHash
  {
  }

  lemma SweptLeavesObserved(r: Record, now: int)
    ensures IsObserved(r.state) <==> IsObserved(Swept(r, now).state)
    ensures IsObserved(r.state) ==> Swept(r, now) == r
  {
  }

  /** The sweep never fails; it expires exactly the sweepable records. */
  lemma {:induction false} SweepKeeps(s: Store, now: int, n: nat)
    requires Inv(s) && n <= |s.records|
    ensures var t := Sweep(s, now, n);
            && t.Ok?
            && (forall i :: 0 <= i < |s.records| ==>
                  t.value.records[i] == if i < n then Swept(s.records[i], now) else s.records[i])
            && t.value.lastNonce == s.lastNonce
            && Inv(t.value) && StoreEvolves(s, t.value)
  {
    hide RecordOk, Evolves, Conserved, NoncesDense, KeysUnique, Terminated;
    if n == 0 {
      StoreEvolvesReflexive(s);
    } else {
      SweepKeeps(s, now, n - 1);
      var t := Sweep(s, now, n - 1).value;
      if Sweepable(t.records[n - 1], now) {
        SweepableCanExpire(t.records[n - 1], now);
        TerminateKeeps(t, n - 1, Expired, now);
        StoreEvolvesTransitive(s, t, Sweep(s, now, n).value);
      }
    }
  }

  lemma SweptHolds(r: Record, now: int, key: InventoryKey)
    requires RecordOk(r)
    ensures Amount(Unreleased, key, Swept(r, now)) == Amount(HeldAt(now), key, r)
  {
  }

  /** What the sweep leaves reserved in a bucket: the leases observed or unexpired. */
  lemma SweepLeavesHeld(s: Store, now: int, key: InventoryKey)
    requires Inv(s) && key in s.inventory
    ensures Sweep(s, now, |s.records|).Ok?
    ensures Sweep(s, now, |s.records|).value.inventory[key].reserved == Sum(s.records, HeldAt(now), key)
  {
    hide RecordOk, NoncesDense, KeysUnique, StoreEvolves, Swept, Amount, Sum, Sweep;
    SweepKeeps(s, now, |s.records|);
    var t := Sweep(s, now, |s.records|).value;
    forall i | 0 <= i < |s.records|
      ensures Amount(Unreleased, key, t.records[i]) == Amount(HeldAt(now), key, s.records[i])
    {
      SweptHolds(s.records[i], now, key);
    }
    SumMonotone(t.records, s.records, Unreleased, HeldAt(now), key);
    SumMonotone(s.records, t.records, HeldAt(now), Unreleased, key);
  }

  lemma BookConserves(s: Store, input: ReserveInput)
    requires Conserved(s) && input.key in s.inventory
    requires s.inventory[input.key].available - s.inventory[input.key].reserved >= input.amount
    ensures Conserved(Book(s, input))
  {
  }

  lemma BookNumbers(s: Store, input: ReserveInput)
    requires NoncesDense(s) && input.key in s.inventory
    ensures NoncesDense(Book(s, input))
  {
  }

  /** Booking a record under a fresh key, when there is room for it. */
  lemma BookKeeps(s: Store, input: ReserveInput)
    requires Inv(s) && input.key in s.inventory
    requires s.inventory[input.key].available - s.inventory[input.key].reserved >= input.amount
    requires forall i :: 0 <= i < |s.records| ==> !HasKey(s.records[i], input.scope, input.keyHash)
    ensures Inv(Book(s, input)) && StoreEvolves(s, Book(s, input))
  {
    hide RecordOk, Conserved, NoncesDense;
    BookConserves(s, input);
    BookNumbers(s, input);
    NewRecordOk(input, LastNonce(s, input.scope) + 1);
  }

  // ---- transactions ----

  /** Everything a transaction can do to a record that was there before. */
  predicate Explained(op: Op, depth: int, a: Record, b: Record) {
    || b == a
    || (match op
        case Reserve(input) => Sweepable(a, input.createdAt) && b == Terminated(a, Expired, input.createdAt)
        case MarkSigned(scope, keyHash, requestHash, signedQuote, _, _, now) =>
          && HasKey(a, scope, keyHash) && a.requestHash == requestHash && a.state.Reserved?
          && (if a.lease.expiresAt <= now then b == Terminated(a, Expired, now)
              else b == Publication(a, op)
                   && signedQuote.quote.nonce == a.nonce
                   && signedQuote.quote.expiry == a.lease.expiresAt)
        case MarkSignFailed(scope, keyHash, requestHash, now) =>
          && HasKey(a, scope, keyHash) && a.requestHash == requestHash && a.state.Reserved?
          && b == Terminated(a, SignFailed, now)
        case MarkObserved(scope, nonce, _, _) =>
          HasNonce(a, scope, nonce) && a.state.Published? && b == Sighting(a, op)
        case Reconcile(scope, nonce, currentBlock, canonicalHash, now) =>
          || (Sweepable(a, now) && b == Terminated(a, Expired, now))
          || (&& HasNonce(a, scope, nonce) && IsObserved(a.state) && a.observed.Some?
              && canonicalHash.Some? && canonicalHash.value != ""
              && (if Lower(canonicalHash.value) != Lower(a.observed.value.blockHash) then b == Rollback(a, now)
                  else && currentBlock - a.observed.value.blockNumber + 1 >= depth
                       && b == Terminated(a, if a.state.FillObserved? then Filled else Cancelled, now)))
        case Expire(scope, nonce, now) =>
          && HasNonce(a, scope, nonce) && (a.state.Reserved? || a.state.Published?)
          && (a.signedQuote.Some? ==> now >= a.lease.expiresAt)
          && b == Terminated(a, Expired, now)
        case Revoke(scope, nonce, now) =>
          && HasNonce(a, scope, nonce) && (a.state.Reserved? || a.state.Published?)
          && b == Terminated(a, Revoked, now))
  }

  /** The errors that would mean the counters or the record had been corrupted. */
  predicate IsCorruption(e: StoreError) {
    e.BucketMissing? || e.ReservationUnderflow? || e.ObservationMissing?
  }

  /** What a transaction guarantees from a store that satisfies the invariant. */
  ghost predicate Sound(s: Store, op: Op, depth: int) {
    match Apply(s, op, depth)
    case Err(e) => !IsCorruption(e)
    case Ok(o) =>
      && Inv(o.store) && StoreEvolves(s, o.store)
      && (forall i :: 0 <= i < |s.records| ==> Explained(op, depth, s.records[i], o.store.records[i]))
      && (|o.store.records| == |s.records|
          || (op.Reserve? && |o.store.records| == |s.records| + 1
              && o.store.records[|s.records|] == NewRecord(op.input, LastNonce(s, op.input.scope) + 1)))
  }

  /** The store that a successful reservation writes back. */
  lemma BookAfterSweep(s: Store, input: ReserveInput)
    requires Inv(s) && FindByKey(s.records, input.scope, input.keyHash).None? && input.key in s.inventory
    ensures Sweep(s, input.createdAt, |s.records|).Ok?
    ensures var t := Sweep(s, input.createdAt, |s.records|).value;
            t.inventory[input.key].available - t.inventory[input.key].reserved >= input.amount ==>
              && Inv(Book(t, input)) && StoreEvolves(s, Book(t, input))
              && |Book(t, input).records| == |s.records| + 1
              && Book(t, input).records[|s.records|] == NewRecord(input, LastNonce(s, input.scope) + 1)
              && (forall i :: 0 <= i < |s.records| ==>
                    Book(t, input).records[i] == Swept(s.records[i], input.createdAt))
  {
    hide RecordOk, Evolves, Conserved, NoncesDense, KeysUnique, NewRecord, Swept, Sweep;
    SweepKeeps(s, input.createdAt, |s.records|);
    var t := Sweep(s, input.createdAt, |s.records|).value;
    forall i | 0 <= i < |t.records| ensures !HasKey(t.records[i], input.scope, input.keyHash) {
      SweptKeepsKey(s.records[i], input.createdAt);
    }
    if t.inventory[input.key].available - t.inventory[input.key].reserved >= input.amount {
      BookKeeps(t, input);
      StoreEvolvesTransitive(s, t, Book(t, input));
    }
  }

  lemma ReserveSound(s: Store, op: Op, depth: int)
    requires Inv(s) && op.Reserve?
    ensures Sound(s, op, depth)
  {
    hide RecordOk, Evolves, Conserved, NoncesDense, KeysUnique, NewRecord, Book, Sweep;
    StoreEvolvesReflexive(s);
    if FindByKey(s.records, op.input.scope, op.input.keyHash).None? && op.input.key in s.inventory {
      BookAfterSweep(s, op.input);
    }
  }

  lemma MarkSignedSound(s: Store, op: Op, depth: int)
    requires Inv(s) && op.MarkSigned?
    ensures Sound(s, op, depth)
  {
    hide RecordOk, Evolves, Conserved, NoncesDense, KeysUnique, Terminate, Terminated;
    StoreEvolvesReflexive(s);
    var found := RequireByKey(s.records, op.scope, op.keyHash, op.requestHash);
    if found.Ok? && s.records[found.value].state.Reserved? {
      var i := found.value;
      var r := s.records[i];
      if r.lease.expiresAt <= op.now {
        TerminateKeeps(s, i, Expired, op.now);
      } else if op.signedQuote.quote.nonce == r.nonce && op.signedQuote.quote.expiry == r.lease.expiresAt {
        PublicationOk(r, op);
        ReplaceKeeps(s, i, Publication(r, op));
      }
    }
  }

  lemma MarkSignFailedSound(s: Store, op: Op, depth: int)
    requires Inv(s) && op.MarkSignFailed?
    ensures Sound(s, op, depth)
  {
    hide RecordOk, Evolves, Conserved, NoncesDense, KeysUnique, Terminate, Terminated;
    StoreEvolvesReflexive(s);
    var found := RequireByKey(s.records, op.scope, op.keyHash, op.requestHash);
    if found.Ok? && s.records[found.value].state.Reserved? {
      TerminateKeeps(s, found.value, SignFailed, op.now);
    }
  }

  lemma MarkObservedSound(s: Store, op: Op, depth: int)
    requires Inv(s) && op.MarkObserved?
    ensures Sound(s, op, depth)
  {
    hide RecordOk, Evolves, Conserved, NoncesDense, KeysUnique;
    StoreEvolvesReflexive(s);
    var found := RequireByNonce(s.records, op.scope, op.nonce);
    if found.Ok? && s.records[found.value].state.Published? {
      SightingOk(s.records[found.value], op);
      ReplaceKeeps(s, found.value, Sighting(s.records[found.value], op));
    }
  }

  /** The store that a reconciliation writes back for the record it addresses, after the sweep. */
  lemma SettleAfterSweep(s: Store, t: Store, op: Op, depth: int, i: nat)
    requires Inv(s) && Inv(t) && StoreEvolves(s, t) && op.Reconcile? && i < |t.records|
    requires IsObserved(t.records[i].state) && op.canonicalHash.Some?
    ensures t.records[i].observed.Some?
    ensures Lower(op.canonicalHash.value) != Lower(t.records[i].observed.value.blockHash) ==>
              var u := Replace(t, i, Rollback(t.records[i], op.now));
              Inv(u) && StoreEvolves(s, u)
    ensures var final := if t.records[i].state.FillObserved? then Filled else Cancelled;
            var u := Terminate(t, i, final, op.now);
            && u.Ok? && Inv(u.value) && StoreEvolves(s, u.value)
            && u.value.records == t.records[i := Terminated(t.records[i], final, op.now)]
  {
    hide Path, Evolves, Conserved, NoncesDense, KeysUnique;
    var r := t.records[i];
    assert RecordOk(r);
    if Lower(op.canonicalHash.value) != Lower(r.observed.value.blockHash) {
      RollbackOk(r, op.now);
      ReplaceKeeps(t, i, Rollback(r, op.now));
      StoreEvolvesTransitive(s, t, Replace(t, i, Rollback(r, op.now)));
    }
    var final := if r.state.FillObserved? then Filled else Cancelled;
    TerminateKeeps(t, i, final, op.now);
    StoreEvolvesTransitive(s, t, Terminate(t, i, final, op.now).value);
  }

  lemma ReconcileSound(s: Store, op: Op, depth: int)
    requires Inv(s) && op.Reconcile?
    ensures Sound(s, op, depth)
  {
    hide RecordOk, Evolves, Conserved, NoncesDense, KeysUnique, Sweep, Terminate, Terminated, Rollback;
    SweepKeeps(s, op.now, |s.records|);
    var t := Sweep(s, op.now, |s.records|).value;
    var found := RequireByNonce(s.records, op.scope, op.nonce);
    if found.Ok? {
      SweptLeavesObserved(s.records[found.value], op.now);
    }
    if found.Ok? && IsObserved(t.records[found.value].state) {
      ObservedHasObservation(t, found.value);
      if op.canonicalHash.Some? {
        SettleAfterSweep(s, t, op, depth, found.value);
      }
    }
  }

  lemma ObservedHasObservation(s: Store, i: nat)
    requires Inv(s) && i < |s.records| && IsObserved(s.records[i].state)
    ensures s.records[i].observed.Some?
  {
  }

  /** A record neither observed nor finished holds its lease, and expires with it. */
  lemma OpenIsHeld(r: Record)
    requires RecordOk(r) && !IsTerminal(r.state) && !IsObserved(r.state)
    ensures r.state.Reserved? || r.state.Published?
    ensures r.signedQuote.Some? <==> r.state.Published?
    ensures r.signedQuote.Some? ==> r.signedQuote.value.quote.expiry == r.lease.expiresAt
    ensures !r.lease.released
  {
  }

  lemma ExpireSound(s: Store, op: Op, depth: int)
    requires Inv(s) && op.Expire?
    ensures Sound(s, op, depth)
  {
    hide RecordOk, Evolves, Conserved, NoncesDense, KeysUnique, Terminate, Terminated;
    StoreEvolvesReflexive(s);
    var found := RequireByNonce(s.records, op.scope, op.nonce);
    if found.Ok? && !IsTerminal(s.records[found.value].state) && !IsObserved(s.records[found.value].state) {
      OpenIsHeld(s.records[found.value]);
      TerminateKeeps(s, found.value, Expired, op.now);
    }
  }

  lemma RevokeSound(s: Store, op: Op, depth: int)
    requires Inv(s) && op.Revoke?
    ensures Sound(s, op, depth)
  {
    hide RecordOk, Evolves, Conserved, NoncesDense, KeysUnique, Terminate, Terminated;
    StoreEvolvesReflexive(s);
    var found := RequireByNonce(s.records, op.scope, op.nonce);
    if found.Ok? && !IsTerminal(s.records[found.value].state) && !IsObserved(s.records[found.value].state) {
      OpenIsHeld(s.records[found.value]);
      TerminateKeeps(s, found.value, Revoked, op.now);
    }
  }

  /** Every transaction keeps the invariant, never reports corruption, and changes each
      record only as `Explained` allows. */
  lemma TransactionSound(s: Store, op: Op, depth: int)
    requires Inv(s)
    ensures Sound(s, op, depth)
  {
    match op
    case Reserve(_) => ReserveSound(s, op, depth);
    case MarkSigned(_, _, _, _, _, _, _) => MarkSignedSound(s, op, depth);
    case MarkSignFailed(_, _, _, _) => MarkSignFailedSound(s, op, depth);
    case MarkObserved(_, _, _, _) => MarkObservedSound(s, op, depth);
    case Reconcile(_, _, _, _, _) => ReconcileSound(s, op, depth);
    case Expire(_, _, _) => ExpireSound(s, op, depth);
    case Revoke(_, _, _) => RevokeSound(s, op, depth);
  }
}
