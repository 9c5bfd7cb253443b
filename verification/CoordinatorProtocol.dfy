/** Concurrent quote calls over one store. A call is a small program whose steps interleave
    arbitrarily with other calls, crashes and settlement events; every answer of a clock, a
    pricing or risk module or a signer is an arbitrary choice. */
module CoordinatorProtocol {
  import opened Results
  import opened RfqTypes
  import opened QuoteTransactions
  import opened QuoteLifecycle
  import opened QuoteStoreInvariants
  import opened QuoteStoreTheorems

  /** A strict call demands fresh evidence, judged at its own time if it names one. */
  datatype StrictPolicy = StrictPolicy(now: Option<int>, futureSkew: int)

  datatype Priced = Priced(amountOut: int, evidence: Evidence)

  /** What the outside world answers in one step; None is a failure. */
  datatype Choice = Choice(clock: Option<int>, priced: Option<Priced>, signature: Option<string>)

  /** Where a call stands. From `Signable` on it remembers the clock reading at which it last found
      the evidence fresh; a success that only replays a stored quote has none. */
  datatype Phase =
    | Looking(now: int)
    | Pricing(now: int)
    | Reserving(now: int, amountOut: nat, evidence: Option<Evidence>)
    | Responding(found: Record)
    | Signable(reserved: Record, admittedAt: int)
    | AwaitingSigner(quote: Quote, admittedAt: int)
    | Publishing(candidate: SignedQuote, admittedAt: int)
    | Failing
    | Expiring(nonce: nat, now: int)
    | Revoking(nonce: nat, now: int)
    | Succeeded(signedQuote: SignedQuote, issuedOn: Option<int>)
    | Failed

  datatype Call = Call(
    scope: Scope, key: string, request: Request, strict: Option<StrictPolicy>,
    signerKeyRef: Option<string>, phase: Phase)

  function KeyHash(c: Call): Digest { OfSecret(c.key) }

  function RequestHash(c: Call): Digest { OfRequest(c.request) }

  function DomainOf(scope: Scope): Domain { Domain(scope.chainId, scope.adapter) }

  function LeaseKey(scope: Scope, request: Request): InventoryKey {
    InventoryKey(scope.maker, request.tokenOut, request.venue)
  }

  predicate IsFresh(e: Evidence, now: int, futureSkew: int) {
    && e.pricingObservedAt <= now + futureSkew && e.pricingValidUntil > now
    && e.riskObservedAt <= now + futureSkew && e.riskValidUntil > now
  }

  predicate Admits(policy: StrictPolicy, e: Evidence, clock: int) {
    IsFresh(e, if policy.now.Some? then policy.now.value else clock, policy.futureSkew)
  }

  /** The quote a reserved record stands for. */
  function QuoteOf(r: Record): Quote {
    Quote(r.scope.maker, r.request.taker, r.request.tokenIn, r.request.tokenOut, r.request.amountIn,
          r.lease.amount, r.request.venue, r.request.policyId, r.nonce, r.lease.expiresAt)
  }

  /** The transaction behind a call's current phase. */
  function ReserveOp(c: Call): Op
    requires c.phase.Reserving?
  {
    Reserve(ReserveInput(c.scope, KeyHash(c), RequestHash(c), c.request, LeaseKey(c.scope, c.request),
                         c.phase.amountOut, c.phase.now + c.request.ttlSeconds, c.phase.now, c.phase.evidence))
  }

  function PublishOp(c: Call, now: int): Op
    requires c.phase.Publishing?
  {
    var sq := c.phase.candidate;
    MarkSigned(c.scope, KeyHash(c), RequestHash(c), sq, OfQuote(sq.quote, sq.domain),
               if c.signerKeyRef.Some? then Some(OfSecret(c.signerKeyRef.value)) else None, now)
  }

  // ---- one step of a call ----

  function StepPricing(c: Call, ch: Choice): Phase
    requires c.phase.Pricing?
  {
    if ch.priced.None? || ch.priced.value.amountOut <= 0 then Failed
    else if c.strict.Some? && !Admits(c.strict.value, ch.priced.value.evidence, c.phase.now) then Failed
    else Reserving(c.phase.now, ch.priced.value.amountOut,
                   if c.strict.Some? then Some(ch.priced.value.evidence) else None)
  }

  function StepResponding(c: Call, ch: Choice): Phase
    requires c.phase.Responding?
  {
    var r := c.phase.found;
    if r.requestHash != RequestHash(c) then Failed
    else if r.signedQuote.Some? then
      if c.strict.Some? && r.evidence.None? then Failed else Succeeded(r.signedQuote.value, None)
    else if !r.state.Reserved? || ch.clock.None? then Failed
    else
      var now := ch.clock.value;
      if c.strict.Some? && !(r.evidence.Some? && Admits(c.strict.value, r.evidence.value, now)) then
        Revoking(r.nonce, now)
      else if r.lease.released || r.lease.expiresAt <= now then Expiring(r.nonce, now)
      else Signable(r, now)
  }

  function StepSignable(c: Call, ch: Choice): Phase
    requires c.phase.Signable?
  {
    var r := c.phase.reserved;
    if r.requestHash != RequestHash(c) || !r.state.Reserved? || r.lease.released || ch.clock.None? then Failed
    else if r.lease.expiresAt <= ch.clock.value then Expiring(r.nonce, ch.clock.value)
    else AwaitingSigner(
      Quote(c.scope.maker, r.request.taker, r.request.tokenIn, r.request.tokenOut, r.request.amountIn,
            r.lease.amount, r.request.venue, r.request.policyId, r.nonce, r.lease.expiresAt),
      c.phase.admittedAt)
  }

  function StepPublishing(s: Store, c: Call, ch: Choice, depth: int): Phase
    requires c.phase.Publishing?
  {
    if ch.clock.None? then Failing
    else match Apply(s, PublishOp(c, ch.clock.value), depth)
      case Err(_) => Failing
      case Ok(o) =>
        var sq := c.phase.candidate;
        if o.record.state.Published? && o.record.quoteHash == Some(OfQuote(sq.quote, sq.domain))
           && o.record.signedQuote.Some?
        then Succeeded(o.record.signedQuote.value, Some(c.phase.admittedAt)) else Failing
  }

  /** The transaction a call commits in its next step, if any. */
  function NextOp(c: Call, ch: Choice): Option<Op> {
    match c.phase
    case Reserving(_, _, _) => Some(ReserveOp(c))
    case Publishing(_, _) => if ch.clock.Some? then Some(PublishOp(c, ch.clock.value)) else None
    case Failing =>
      if ch.clock.Some? then Some(MarkSignFailed(c.scope, KeyHash(c), RequestHash(c), ch.clock.value)) else None
    case Expiring(nonce, now) => Some(Expire(c.scope, nonce, now))
    case Revoking(nonce, now) => Some(Revoke(c.scope, nonce, now))
    case _ => None
  }

  function NextPhase(s: Store, c: Call, ch: Choice, depth: int): Phase {
    match c.phase
    case Looking(now) =>
      (match FindByKey(s.records, c.scope, KeyHash(c))
       case Some(i) => Responding(s.records[i])
       case None => Pricing(now))
    case Pricing(_) => StepPricing(c, ch)
    case Reserving(now, _, _) =>
      (match Apply(s, ReserveOp(c), depth)
       case Err(_) => Failed
       case Ok(o) => if o.existing then Responding(o.record) else Signable(o.record, now))
    case Responding(_) => StepResponding(c, ch)
    case Signable(_, _) => StepSignable(c, ch)
    case AwaitingSigner(quote, admittedAt) =>
      if ch.signature.None? then Failing
      else Publishing(SignedQuote(quote, ch.signature.value, DomainOf(c.scope)), admittedAt)
    case Publishing(_, _) => StepPublishing(s, c, ch, depth)
    case Failing => Failed
    case Expiring(_, _) => Failed
    case Revoking(_, _) => Failed
    case Succeeded(_, _) => c.phase
    case Failed => Failed
  }

  // ---- the whole system ----

  datatype System = System(store: Store, calls: map<nat, Call>)

  datatype Step =
    | Begin(id: nat, call: Call, now: int)
    | Advance(id: nat, choice: Choice)
    | Crash(id: nat)
    | External(op: Op)

  /** Events other than quote calls: settlement observed, reconciled, expired, revoked. */
  predicate IsExternal(op: Op) {
    op.MarkObserved? || op.Reconcile? || op.Expire? || op.Revoke?
  }

  predicate IsFinished(c: Call) {
    c.phase.Succeeded? || c.phase.Failed?
  }

  function Next(sys: System, step: Step, depth: int): System {
    match step
    case Begin(id, call, now) =>
      if id in sys.calls then sys
      else sys.(calls := sys.calls[id := call.(phase := Looking(now))])
    case Advance(id, ch) =>
      if id !in sys.calls then sys
      else
        var c := sys.calls[id];
        var op := NextOp(c, ch);
        System(if op.Some? then Commit(sys.store, op.value, depth) else sys.store,
               sys.calls[id := c.(phase := NextPhase(sys.store, c, ch, depth))])
    case Crash(id) =>
      if id in sys.calls && !IsFinished(sys.calls[id]) then sys.(calls := sys.calls - {id}) else sys
    case External(op) =>
      if IsExternal(op) then sys.(store := Commit(sys.store, op, depth)) else sys
  }

  function Play(sys: System, steps: seq<Step>, depth: int): System
    decreases |steps|
  {
    if steps == [] then sys else Play(Next(sys, steps[0], depth), steps[1..], depth)
  }

  predicate Initial(sys: System) {
    Fresh(sys.store) && sys.calls == map[]
  }

  // ---- what every reachable state satisfies ----

  /** A record was booked for its own request and time to live, and carries no quote but the one it
      stands for. */
  predicate Faithful(r: Record) {
    && r.lease.key == LeaseKey(r.scope, r.request)
    && r.requestHash == OfRequest(r.request)
    && r.lease.expiresAt == r.createdAt + r.request.ttlSeconds
    && (r.signedQuote.Some? ==>
          && r.signedQuote.value.quote == QuoteOf(r)
          && r.signedQuote.value.domain == DomainOf(r.scope)
          && r.quoteHash == Some(OfQuote(QuoteOf(r), DomainOf(r.scope))))
  }

  ghost predicate AllFaithful(s: Store) {
    forall i :: 0 <= i < |s.records| ==> Faithful(s.records[i])
  }

  /** The record behind a call's idempotency key. */
  function Current(s: Store, c: Call): Option<Record> {
    match FindByKey(s.records, c.scope, KeyHash(c))
    case None => None
    case Some(i) => Some(s.records[i])
  }

  /** A copy of the call's record taken earlier: same terms, and any quote it shows is still there. */
  predicate IsSnapshot(s: Store, c: Call, copy: Record) {
    && Current(s, c).Some?
    && SameTerms(copy, Current(s, c).value)
    && (copy.signedQuote.Some? ==> Current(s, c).value.signedQuote == copy.signedQuote)
  }

  /** The record is the caller's own, and proves freshness to a strict caller. */
  predicate Serves(c: Call, r: Record) {
    r.requestHash == RequestHash(c) && (c.strict.Some? ==> r.evidence.Some?)
  }

  /** Evidence with which a strict caller's own policy is content at a clock reading. */
  predicate ContentWith(c: Call, evidence: Option<Evidence>, clock: int) {
    c.strict.Some? ==> evidence.Some? && Admits(c.strict.value, evidence.value, clock)
  }

  predicate CallOk(s: Store, c: Call) {
    match c.phase
    case Reserving(now, amountOut, evidence) => amountOut > 0 && ContentWith(c, evidence, now)
    case Responding(copy) => IsSnapshot(s, c, copy)
    case Signable(copy, admittedAt) =>
      IsSnapshot(s, c, copy) && Serves(c, copy) && ContentWith(c, copy.evidence, admittedAt)
    case AwaitingSigner(quote, admittedAt) =>
      && Current(s, c).Some? && Serves(c, Current(s, c).value) && quote == QuoteOf(Current(s, c).value)
      && ContentWith(c, Current(s, c).value.evidence, admittedAt)
    case Publishing(sq, admittedAt) =>
      && Current(s, c).Some? && Serves(c, Current(s, c).value)
      && sq.quote == QuoteOf(Current(s, c).value) && sq.domain == DomainOf(c.scope)
      && ContentWith(c, Current(s, c).value.evidence, admittedAt)
    case Failing => Current(s, c).Some? && Serves(c, Current(s, c).value)
    case Expiring(nonce, _) => Current(s, c).Some? && nonce == Current(s, c).value.nonce
    case Revoking(nonce, now) =>
      && Current(s, c).Some? && nonce == Current(s, c).value.nonce
      && !ContentWith(c, Current(s, c).value.evidence, now)
    case Succeeded(sq, issuedOn) =>
      && Current(s, c).Some? && Serves(c, Current(s, c).value) && Current(s, c).value.signedQuote == Some(sq)
      && (issuedOn.Some? ==> ContentWith(c, Current(s, c).value.evidence, issuedOn.value))
    case _ => true
  }

  ghost predicate SysInv(sys: System) {
    && Inv(sys.store)
    && AllFaithful(sys.store)
    && forall id :: id in sys.calls ==> CallOk(sys.store, sys.calls[id])
  }

  /** A key once found keeps leading to the same, evolved, record. */
  lemma CurrentEvolves(s: Store, t: Store, c: Call)
    requires StoreEvolves(s, t) && Current(s, c).Some?
    ensures Current(t, c).Some? && Evolves(Current(s, c).value, Current(t, c).value)
  {
  }

  /** What other parties commit does not disturb a call. */
  lemma CallStaysOk(s: Store, t: Store, c: Call)
    requires CallOk(s, c) && StoreEvolves(s, t)
    ensures CallOk(t, c)
  {
    hide StoreEvolves, FindByKey;
    if Current(s, c).Some? {
      CurrentEvolves(s, t, c);
    }
  }

  /** The inputs with which coordinators call the store. */
  predicate WellCalled(s: Store, op: Op) {
    match op
    case Reserve(input) =>
      && input.key == LeaseKey(input.scope, input.request) && input.requestHash == OfRequest(input.request)
      && input.expiresAt == input.createdAt + input.request.ttlSeconds
    case MarkSigned(scope, keyHash, _, sq, quoteHash, _, _) =>
      (match FindByKey(s.records, scope, keyHash)
       case None => true
       case Some(i) => sq.quote == QuoteOf(s.records[i]) && sq.domain == DomainOf(scope)
                       && quoteHash == OfQuote(sq.quote, sq.domain))
    case _ => true
  }

  lemma TerminatedStaysFaithful(r: Record, state: LifecycleState, now: int)
    requires Faithful(r) && IsTerminal(state)
    ensures Faithful(Terminated(r, state, now))
  {
  }

  lemma ExplainedStaysFaithful(op: Op, depth: int, a: Record, b: Record)
    requires Faithful(a) && Explained(op, depth, a, b)
    requires op.MarkSigned? && HasKey(a, op.scope, op.keyHash) ==>
               && op.signedQuote.quote == QuoteOf(a) && op.signedQuote.domain == DomainOf(op.scope)
               && op.quoteHash == OfQuote(op.signedQuote.quote, op.signedQuote.domain)
    ensures Faithful(b)
  {
    hide Terminated, LeaseKey;
    forall state, now | IsTerminal(state) ensures Faithful(Terminated(a, state, now)) {
      TerminatedStaysFaithful(a, state, now);
    }
  }

  lemma CommitStaysFaithful(s: Store, op: Op, depth: int)
    requires Inv(s) && AllFaithful(s) && WellCalled(s, op)
    ensures AllFaithful(Commit(s, op, depth))
  {
    hide RecordsOk, Conserved, NoncesDense, StoreEvolves, Explained, Faithful;
    TransactionSound(s, op, depth);
    var t := Commit(s, op, depth);
    forall i | 0 <= i < |t.records| ensures Faithful(t.records[i]) {
      if i < |s.records| {
        if Apply(s, op, depth).Ok? {
          assert Explained(op, depth, s.records[i], t.records[i]);
          ExplainedStaysFaithful(op, depth, s.records[i], t.records[i]);
        }
      } else {
        NewRecordFaithful(op.input, LastNonce(s, op.input.scope) + 1);
      }
    }
  }

  lemma NewRecordFaithful(input: ReserveInput, nonce: nat)
    requires input.key == LeaseKey(input.scope, input.request) && input.requestHash == OfRequest(input.request)
    requires input.expiresAt == input.createdAt + input.request.ttlSeconds
    ensures Faithful(NewRecord(input, nonce))
  {
  }
}
