/** What holds of every store reachable from a fresh configuration, whatever transactions
    were attempted on it. */
module QuoteStoreTheorems {
  import opened Checks
  import opened Results
  import opened RfqTypes
  import opened QuoteTransactions
  import opened QuoteLifecycle
  import opened QuoteConservation
  import opened QuoteStoreInvariants

  lemma FreshInv(s: Store)
    requires Fresh(s)
    ensures Inv(s)
  {
  }

  /** A transaction, failed or not, leaves the invariant and only evolves the store. */
  lemma CommitKeeps(s: Store, op: Op, depth: int)
    requires Inv(s)
    ensures Inv(Commit(s, op, depth)) && StoreEvolves(s, Commit(s, op, depth))
  {
    hide Inv, StoreEvolves;
    TransactionSound(s, op, depth);
    StoreEvolvesReflexive(s);
  }

  /** So does any run of them. */
  lemma {:induction false} RunKeeps(s: Store, ops: seq<Op>, depth: int)
    requires Inv(s)
    ensures Inv(Run(s, ops, depth)) && StoreEvolves(s, Run(s, ops, depth))
    decreases |ops|
  {
    hide Inv, StoreEvolves, Commit;
    if ops == [] {
      StoreEvolvesReflexive(s);
    } else {
      CommitKeeps(s, ops[0], depth);
      var t := Commit(s, ops[0], depth);
      RunKeeps(t, ops[1..], depth);
      StoreEvolvesTransitive(s, t, Run(t, ops[1..], depth));
    }
  }

  /** Lifecycle safety over whole runs. */
  lemma LifecycleSafety(s0: Store, ops: seq<Op>, depth: int, i: nat)
    requires Fresh(s0) && i < |Run(s0, ops, depth).records|
    ensures var r := Run(s0, ops, depth).records[i];
            && Path(r.history)
            && r.history[|r.history| - 1].state == r.state
            && 2 <= |r.history| <= 6 + 2 * Rollbacks(r.history)
            && (r.lease.released <==> IsTerminal(r.state))
            && r.lease.releaseReason == r.releaseReason
            && (r.releaseReason == Some(ReasonFilled) <==> r.state.Filled?)
            && (r.releaseReason == Some(ReasonCancelled) <==> r.state.Cancelled?)
            && (r.releaseReason == Some(ReasonExpired) <==> r.state.Expired?)
            && (r.releaseReason == Some(ReasonSignFailed) <==> r.state.SignFailed?)
            && (r.releaseReason == Some(ReasonRevoke) <==> r.state.Revoked?)
            && (if IsTerminal(r.state) then r.terminalAt == Some(r.updatedAt) else r.terminalAt.None?)
  {
    hide Run;
    FreshInv(s0);
    RunKeeps(s0, ops, depth);
    var r := Run(s0, ops, depth).records[i];
    assert RecordOk(r);
    HistoryBounded(r.history);
  }

  /** Whatever happens next, a terminal record stays exactly as it is, a stored quote is
      never replaced or erased, and a history is only appended to. */
  lemma TerminalIsAbsorbing(s: Store, later: seq<Op>, depth: int, i: nat)
    requires Inv(s) && i < |s.records|
    ensures i < |Run(s, later, depth).records|
    ensures IsTerminal(s.records[i].state) ==> Run(s, later, depth).records[i] == s.records[i]
    ensures s.records[i].signedQuote.Some? ==>
              Run(s, later, depth).records[i].signedQuote == s.records[i].signedQuote
    ensures s.records[i].history <= Run(s, later, depth).records[i].history
  {
    hide Inv, Run;
    RunKeeps(s, later, depth);
  }

  /** A quote becomes FILLED or CANCELLED only by a reconciliation that found the observed
      block on the canonical chain, buried at the configured depth; which of the two is
      decided by the kind of transaction that was observed. */
  lemma FinalityNeedsConfirmations(s: Store, op: Op, depth: int, i: nat)
    requires Inv(s) && i < |s.records|
    requires var b := Commit(s, op, depth).records;
             i < |b| && (b[i].state.Filled? || b[i].state.Cancelled?) && b[i] != s.records[i]
    ensures op.Reconcile? && HasNonce(s.records[i], op.scope, op.nonce)
    ensures s.records[i].observed.Some? && op.canonicalHash.Some?
    ensures SameText(op.canonicalHash.value, s.records[i].observed.value.blockHash)
    ensures op.currentBlock - s.records[i].observed.value.blockNumber + 1 >= depth
    ensures Commit(s, op, depth).records[i].state.Filled? <==> s.records[i].observed.value.kind.Fill?
  {
    hide Path, Conserved, NoncesDense, KeysUnique;
    TransactionSound(s, op, depth);
    assert RecordOk(s.records[i]);
    assert Explained(op, depth, s.records[i], Commit(s, op, depth).records[i]);
    LowerIgnoresCase(op.canonicalHash.value, s.records[i].observed.value.blockHash);
  }

  /** The reserved counters are an exact index of the outstanding leases. */
  lemma CountersAreExact(s0: Store, ops: seq<Op>, depth: int, key: InventoryKey)
    requires Fresh(s0) && key in s0.inventory
    ensures var s := Run(s0, ops, depth);
            && key in s.inventory
            && s.inventory[key].available == s0.inventory[key].available
            && s.inventory[key].reserved == Sum(s.records, Unreleased, key)
            && 0 <= s.inventory[key].reserved <= s.inventory[key].available
  {
    hide Run, RecordOk;
    FreshInv(s0);
    RunKeeps(s0, ops, depth);
  }

  /** Hence no transaction on a reachable store reports a missing bucket, an underflow or a
      missing observation. */
  lemma CorruptionIsUnreachable(s0: Store, ops: seq<Op>, depth: int, op: Op)
    requires Fresh(s0)
    ensures Apply(Run(s0, ops, depth), op, depth).Err? ==>
              !IsCorruption(Apply(Run(s0, ops, depth), op, depth).error)
  {
    hide Inv, StoreEvolves, Run, Apply;
    FreshInv(s0);
    RunKeeps(s0, ops, depth);
    TransactionSound(Run(s0, ops, depth), op, depth);
  }

  /** A new key on a configured bucket is refused exactly when the bucket lacks room beside the
      leases that are observed or unexpired at the request's own time; otherwise it is booked. */
  lemma RefusedIffNoRoom(s: Store, input: ReserveInput, depth: int)
    requires Inv(s) && input.key in s.inventory
    requires FindByKey(s.records, input.scope, input.keyHash).None?
    ensures var held := Sum(s.records, HeldAt(input.createdAt), input.key);
            var refused := s.inventory[input.key].available < input.amount + held;
            && (Apply(s, Reserve(input), depth) == Err(InsufficientInventory) <==> refused)
            && (Apply(s, Reserve(input), depth).Ok? <==> !refused)
  {
    hide RecordOk, NoncesDense, KeysUnique, Conserved, Sum;
    SweepLeavesHeld(s, input.createdAt, input.key);
    SweepKeeps(s, input.createdAt, |s.records|);
  }

  /** The nonces of a scope are exactly 1..lastNonce in creation order, whatever failed between;
      both lookups therefore identify at most one record. */
  lemma NonceAllocation(s0: Store, ops: seq<Op>, depth: int, scope: Scope)
    requires Fresh(s0)
    ensures var s := Run(s0, ops, depth);
            && NoncesOf(s.records, scope) == UpTo(LastNonce(s, scope))
            && forall i, j :: 0 <= i < j < |s.records| && s.records[i].scope == s.records[j].scope ==>
                 s.records[i].nonce < s.records[j].nonce && s.records[i].keyHash != s.records[j].keyHash
  {
    hide Run, RecordOk, Conserved;
    FreshInv(s0);
    RunKeeps(s0, ops, depth);
    var s := Run(s0, ops, depth);
    forall i, j | 0 <= i < j < |s.records| && s.records[i].scope == s.records[j].scope
      ensures s.records[i].nonce < s.records[j].nonce
    {
      NoncesIncrease(s.records, LastNonce(s, s.records[i].scope), i, j);
    }
  }
}
