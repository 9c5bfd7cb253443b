/** The lifecycle graph of a quote record, and what a well-formed record looks like. */
module QuoteLifecycle {
  import opened Results
  import opened RfqTypes
  import opened QuoteTransactions

  /** The lifecycle graph. */
  predicate Edge(a: LifecycleState, b: LifecycleState) {
    match a
    case Received => b.Reserved?
    case Reserved => b.Signed? || b.Expired? || b.SignFailed? || b.Revoked?
    case Signed => b.Published?
    case Published => b.FillObserved? || b.CancelObserved? || b.Expired? || b.Revoked?
    case FillObserved => b.Published? || b.Filled?
    case CancelObserved => b.Published? || b.Cancelled?
    case _ => false
  }

  /** The terminal states are those without a way out. */
  lemma TerminalHasNoEdge(a: LifecycleState)
    ensures IsTerminal(a) <==> forall b :: !Edge(a, b)
  {
    if !IsTerminal(a) {
      assert Edge(a, match a case Received => Reserved case Reserved => Signed case Signed => Published
                     case Published => FillObserved case _ => Published);
    }
  }

  ghost predicate Path(h: seq<HistoryEntry>) {
    && |h| > 0
    && h[0].state.Received?
    && forall i, j :: 0 <= i < j < |h| && j == i + 1 ==> Edge(h[i].state, h[j].state)
  }

  /** How often a reorganisation sent an observed quote back to PUBLISHED. */
  function Rollbacks(h: seq<HistoryEntry>): nat {
    if |h| < 2 then 0
    else Rollbacks(h[..|h| - 1])
         + (if IsObserved(h[|h| - 2].state) && h[|h| - 1].state.Published? then 1 else 0)
  }

  /** Longest rollback-free history that ends in the state. */
  function Rank(state: LifecycleState): nat {
    match state
    case Received => 1
    case Reserved => 2
    case Signed => 3
    case Published => 4
    case FillObserved => 5
    case CancelObserved => 5
    case _ => 6
  }

  lemma {:induction false} PathRank(h: seq<HistoryEntry>)
    requires Path(h)
    ensures |h| <= Rank(h[|h| - 1].state) + 2 * Rollbacks(h)
  {
    if |h| > 1 {
      var front := h[..|h| - 1];
      PathRank(front);
      assert Edge(h[|h| - 2].state, h[|h| - 1].state);
    }
  }

  /** A history on the graph has at most six entries plus two per reorganisation. */
  lemma HistoryBounded(h: seq<HistoryEntry>)
    requires Path(h)
    ensures |h| <= 6 + 2 * Rollbacks(h)
  {
    PathRank(h);
  }

  /** What every persisted record satisfies. */
  ghost predicate RecordOk(r: Record) {
    && Path(r.history)
    && r.history[|r.history| - 1].state == r.state
    && r.history[0].at == r.createdAt && r.history[|r.history| - 1].at == r.updatedAt
    && !r.state.Received? && !r.state.Signed?
    && (r.lease.released <==> IsTerminal(r.state))
    && (if IsTerminal(r.state) then
          && r.lease.releaseReason == r.releaseReason == Some(ReasonFor(r.state))
          && r.terminalAt == Some(r.updatedAt)
        else
          && r.lease.releaseReason == r.releaseReason == None
          && r.terminalAt.None?)
    && (r.observed.Some? <==> IsObserved(r.state) || r.state.Filled? || r.state.Cancelled?)
    && (r.observed.Some? ==> (r.observed.value.kind.Fill? <==> r.state.FillObserved? || r.state.Filled?))
    && (r.state.Published? || r.observed.Some? ==> r.signedQuote.Some?)
    && (r.state.Reserved? || r.state.SignFailed? ==> r.signedQuote.None?)
    && (r.signedQuote.Some? ==>
          && r.quoteHash.Some?
          && r.signedQuote.value.quote.nonce == r.nonce
          && r.signedQuote.value.quote.expiry == r.lease.expiresAt)
  }

  /** What never changes about a record once it is booked. */
  predicate SameTerms(a: Record, b: Record) {
    && a.scope == b.scope && a.keyHash == b.keyHash && a.requestHash == b.requestHash
    && a.request == b.request && a.nonce == b.nonce && a.createdAt == b.createdAt
    && a.evidence == b.evidence
    && a.lease.leaseId == b.lease.leaseId && a.lease.key == b.lease.key
    && a.lease.amount == b.lease.amount && a.lease.expiresAt == b.lease.expiresAt
  }

  /** How a record may differ later on: same terms, a published quote is never replaced,
      a terminal record never changes, and history is only appended to. */
  ghost predicate Evolves(a: Record, b: Record) {
    && SameTerms(a, b)
    && (a.signedQuote.Some? ==> b.signedQuote == a.signedQuote && b.quoteHash == a.quoteHash)
    && (IsTerminal(a.state) ==> b == a)
    && a.history <= b.history
  }

  lemma EnterKeepsPath(r: Record, state: LifecycleState, now: int)
    requires Path(r.history) && r.history[|r.history| - 1].state == r.state && Edge(r.state, state)
    ensures Path(Enter(r, state, now).history)
  {
  }

  lemma TerminatedOk(r: Record, state: LifecycleState, now: int)
    requires RecordOk(r) && IsTerminal(state) && Edge(r.state, state)
    ensures RecordOk(Terminated(r, state, now)) && Evolves(r, Terminated(r, state, now))
  {
    EnterKeepsPath(r, state, now);
  }

  lemma PublicationOk(r: Record, op: Op)
    requires op.MarkSigned? && RecordOk(r) && r.state.Reserved?
    requires op.signedQuote.quote.nonce == r.nonce && op.signedQuote.quote.expiry == r.lease.expiresAt
    ensures RecordOk(Publication(r, op)) && Evolves(r, Publication(r, op))
  {
    EnterKeepsPath(r, Signed, op.now);
    EnterKeepsPath(Enter(r, Signed, op.now), Published, op.now);
  }

  lemma SightingOk(r: Record, op: Op)
    requires op.MarkObserved? && RecordOk(r) && r.state.Published?
    ensures RecordOk(Sighting(r, op)) && Evolves(r, Sighting(r, op))
  {
  }

  lemma RollbackOk(r: Record, now: int)
    requires RecordOk(r) && IsObserved(r.state)
    ensures RecordOk(Rollback(r, now)) && Evolves(r, Rollback(r, now))
  {
  }

  lemma NewRecordOk(input: ReserveInput, nonce: nat)
    ensures RecordOk(NewRecord(input, nonce))
  {
  }
}
