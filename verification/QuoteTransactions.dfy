/** The store's transactions as pure functions of the persisted state.

    Every function returns the state that is written back, or the error that leaves
    the persisted state as it was: nothing is written when a transaction throws. */
module QuoteTransactions {
  import opened Checks
  import opened Results
  import opened RfqTypes

  datatype Bucket = Bucket(available: int, reserved: int)

  type Inventory = map<InventoryKey, Bucket>

  datatype Store = Store(
    records: seq<Record>, lastNonce: map<Scope, nat>, inventory: Inventory)

  datatype StoreError =
    | KeyConflict | RecordNotFound
    | InventoryNotConfigured | InsufficientInventory
    | QuoteMismatch
    | ObservationConflict | CannotObserve
    | ObservedCannotExpire | NotExpired | ObservedCannotRevoke
    | ObservationMissing | BucketMissing | ReservationUnderflow

  /** What a transaction hands back to its caller: the new state and a copy of the record. */
  datatype Outcome = Outcome(store: Store, record: Record, existing: bool)

  datatype ReserveInput = ReserveInput(
    scope: Scope, keyHash: Digest, requestHash: Digest, request: Request,
    key: InventoryKey, amount: nat, expiresAt: int, createdAt: int, evidence: Option<Evidence>)

  datatype Op =
    | Reserve(input: ReserveInput)
    | MarkSigned(scope: Scope, keyHash: Digest, requestHash: Digest,
                 signedQuote: SignedQuote, quoteHash: Digest, signerKeyRefHash: Option<Digest>, now: int)
    | MarkSignFailed(scope: Scope, keyHash: Digest, requestHash: Digest, now: int)
    | MarkObserved(scope: Scope, nonce: nat, observation: Observation, now: int)
    | Reconcile(scope: Scope, nonce: nat, currentBlock: int, canonicalHash: Option<string>, now: int)
    | Expire(scope: Scope, nonce: nat, now: int)
    | Revoke(scope: Scope, nonce: nat, now: int)

  // ---- lookups: the first matching record ----

  predicate HasKey(r: Record, scope: Scope, keyHash: Digest) {
    r.scope == scope && r.keyHash == keyHash
  }

  predicate HasNonce(r: Record, scope: Scope, nonce: nat) {
    r.scope == scope && r.nonce == nonce
  }

  function FindByKey(records: seq<Record>, scope: Scope, keyHash: Digest): (found: Option<nat>)
    ensures found.Some? ==> found.value < |records| && HasKey(records[found.value], scope, keyHash)
    ensures found.Some? ==> forall j :: 0 <= j < found.value ==> !HasKey(records[j], scope, keyHash)
    ensures found.None? ==> forall j :: 0 <= j < |records| ==> !HasKey(records[j], scope, keyHash)
  {
    if records == [] then None
    else if HasKey(records[0], scope, keyHash) then Some(0)
    else match FindByKey(records[1..], scope, keyHash)
      case Some(i) => Some(i + 1)
      case None => None
  }

  function FindByNonce(records: seq<Record>, scope: Scope, nonce: nat): (found: Option<nat>)
    ensures found.Some? ==> found.value < |records| && HasNonce(records[found.value], scope, nonce)
    ensures found.Some? ==> forall j :: 0 <= j < found.value ==> !HasNonce(records[j], scope, nonce)
    ensures found.None? ==> forall j :: 0 <= j < |records| ==> !HasNonce(records[j], scope, nonce)
  {
    if records == [] then None
    else if HasNonce(records[0], scope, nonce) then Some(0)
    else match FindByNonce(records[1..], scope, nonce)
      case Some(i) => Some(i + 1)
      case None => None
  }

  function RequireByKey(records: seq<Record>, scope: Scope, keyHash: Digest, requestHash: Digest)
    : (found: Result<nat, StoreError>)
    ensures found.Ok? ==> found.value < |records| && HasKey(records[found.value], scope, keyHash)
                          && records[found.value].requestHash == requestHash
  {
    match FindByKey(records, scope, keyHash)
    case None => Err(RecordNotFound)
    case Some(i) => if records[i].requestHash != requestHash then Err(KeyConflict) else Ok(i)
  }

  function RequireByNonce(records: seq<Record>, scope: Scope, nonce: nat): (found: Result<nat, StoreError>)
    ensures found.Ok? ==> found.value < |records| && HasNonce(records[found.value], scope, nonce)
  {
    match FindByNonce(records, scope, nonce)
    case None => Err(RecordNotFound)
    case Some(i) => Ok(i)
  }

  // ---- steps on one record ----

  function ReasonFor(state: LifecycleState): ReleaseReason
    requires IsTerminal(state)
  {
    match state
    case Filled => ReasonFilled
    case Cancelled => ReasonCancelled
    case Expired => ReasonExpired
    case SignFailed => ReasonSignFailed
    case Revoked => ReasonRevoke
  }

  /** The record enters a state: state, history and modification time move together. */
  function Enter(r: Record, state: LifecycleState, now: int): Record {
    r.(state := state, history := r.history + [HistoryEntry(state, now)], updatedAt := now)
  }

  /** The record after entering a terminal state and giving its lease back. */
  function Terminated(r: Record, state: LifecycleState, now: int): Record
    requires IsTerminal(state)
  {
    var entered := Enter(r, state, now).(terminalAt := Some(now));
    if r.lease.released then entered
    else entered.(lease := r.lease.(released := true, releaseReason := Some(ReasonFor(state))),
                  releaseReason := Some(ReasonFor(state)))
  }

  /** The counters after a lease is given back. */
  function Released(inventory: Inventory, lease: Lease): Result<Inventory, StoreError> {
    if lease.released then Ok(inventory)
    else if lease.key !in inventory then Err(BucketMissing)
    else
      var bucket := inventory[lease.key];
      var reserved := bucket.reserved - lease.amount;
      if reserved < 0 then Err(ReservationUnderflow)
      else Ok(inventory[lease.key := bucket.(reserved := reserved)])
  }

  function Replace(s: Store, i: nat, r: Record): Store
    requires i < |s.records|
  {
    s.(records := s.records[i := r])
  }

  function Terminate(s: Store, i: nat, state: LifecycleState, now: int): Result<Store, StoreError>
    requires i < |s.records| && IsTerminal(state)
  {
    match Released(s.inventory, s.records[i].lease)
    case Err(e) => Err(e)
    case Ok(inventory) =>
      Ok(s.(records := s.records[i := Terminated(s.records[i], state, now)], inventory := inventory))
  }

  /** A lease the expiry sweep takes back. */
  predicate Sweepable(r: Record, now: int) {
    !r.lease.released && r.lease.expiresAt <= now && !IsObserved(r.state) && !IsTerminal(r.state)
  }

  /** The expiry sweep over the first `n` records. */
  function Sweep(s: Store, now: int, n: nat): (swept: Result<Store, StoreError>)
    requires n <= |s.records|
    ensures swept.Ok? ==> |swept.value.records| == |s.records|
    ensures swept.Ok? ==> swept.value.inventory.Keys == s.inventory.Keys
  {
    if n == 0 then Ok(s)
    else match Sweep(s, now, n - 1)
      case Err(e) => Err(e)
      case Ok(t) => if Sweepable(t.records[n - 1], now) then Terminate(t, n - 1, Expired, now) else Ok(t)
  }

  function Done(s: Store, i: nat): Result<Outcome, StoreError>
    requires i < |s.records|
  {
    Ok(Outcome(s, s.records[i], true))
  }

  function TerminateAndReturn(s: Store, i: nat, state: LifecycleState, now: int): Result<Outcome, StoreError>
    requires i < |s.records| && IsTerminal(state)
  {
    match Terminate(s, i, state, now)
    case Err(e) => Err(e)
    case Ok(t) => Done(t, i)
  }

  // ---- transactions ----

  function NewRecord(input: ReserveInput, nonce: nat): Record {
    Record(
      Reserved, input.scope, input.keyHash, input.requestHash, input.request, nonce,
      Lease(OfLease(input.scope, nonce, input.key, input.amount),
            input.key, input.amount, input.expiresAt, false, None),
      None, None, None, input.createdAt, input.createdAt, input.evidence, None, None, None,
      [HistoryEntry(Received, input.createdAt), HistoryEntry(Reserved, input.createdAt)])
  }

  function LastNonce(s: Store, scope: Scope): nat {
    if scope in s.lastNonce then s.lastNonce[scope] else 0
  }

  /** Books a new record on a swept store. */
  function Book(s: Store, input: ReserveInput): Store
    requires input.key in s.inventory
  {
    var nonce := LastNonce(s, input.scope) + 1;
    var bucket := s.inventory[input.key];
    Store(s.records + [NewRecord(input, nonce)],
          s.lastNonce[input.scope := nonce],
          s.inventory[input.key := bucket.(reserved := bucket.reserved + input.amount)])
  }

  function ReserveTx(s: Store, input: ReserveInput): Result<Outcome, StoreError> {
    match FindByKey(s.records, input.scope, input.keyHash)
    case Some(i) =>
      if s.records[i].requestHash != input.requestHash then Err(KeyConflict) else Done(s, i)
    case None =>
      if input.key !in s.inventory then Err(InventoryNotConfigured)
      else match Sweep(s, input.createdAt, |s.records|)
        case Err(e) => Err(e)
        case Ok(t) =>
          if t.inventory[input.key].available - t.inventory[input.key].reserved < input.amount then
            Err(InsufficientInventory)
          else
            var booked := Book(t, input);
            Ok(Outcome(booked, booked.records[|t.records|], false))
  }

  /** The record after its signature is accepted: SIGNED is passed through, never rested in. */
  function Publication(r: Record, op: Op): Record
    requires op.MarkSigned?
  {
    Enter(Enter(r, Signed, op.now), Published, op.now).(
      signedQuote := Some(op.signedQuote), quoteHash := Some(op.quoteHash),
      signerKeyRefHash := op.signerKeyRefHash)
  }

  function MarkSignedTx(s: Store, op: Op): Result<Outcome, StoreError>
    requires op.MarkSigned?
  {
    match RequireByKey(s.records, op.scope, op.keyHash, op.requestHash)
    case Err(e) => Err(e)
    case Ok(i) =>
      var r := s.records[i];
      if !r.state.Reserved? || r.lease.released then Done(s, i)
      else if r.lease.expiresAt <= op.now then TerminateAndReturn(s, i, Expired, op.now)
      else if op.signedQuote.quote.nonce != r.nonce || op.signedQuote.quote.expiry != r.lease.expiresAt then
        Err(QuoteMismatch)
      else
        Done(Replace(s, i, Publication(r, op)), i)
  }

  function MarkSignFailedTx(s: Store, op: Op): Result<Outcome, StoreError>
    requires op.MarkSignFailed?
  {
    match RequireByKey(s.records, op.scope, op.keyHash, op.requestHash)
    case Err(e) => Err(e)
    case Ok(i) =>
      if !s.records[i].state.Reserved? then Done(s, i)
      else TerminateAndReturn(s, i, SignFailed, op.now)
  }

  /** The record after a settlement transaction was seen for it. */
  function Sighting(r: Record, op: Op): Record
    requires op.MarkObserved?
  {
    Enter(r, if op.observation.kind.Fill? then FillObserved else CancelObserved, op.now).(
      observed := Some(op.observation))
  }

  function MarkObservedTx(s: Store, op: Op): Result<Outcome, StoreError>
    requires op.MarkObserved?
  {
    match RequireByNonce(s.records, op.scope, op.nonce)
    case Err(e) => Err(e)
    case Ok(i) =>
      var r := s.records[i];
      if IsTerminal(r.state) then Done(s, i)
      else if IsObserved(r.state) then
        if r.observed.Some? && SameObservation(r.observed.value, op.observation) then Done(s, i)
        else Err(ObservationConflict)
      else if !r.state.Published? then Err(CannotObserve)
      else
        Done(Replace(s, i, Sighting(r, op)), i)
  }

  /** The record after a reorganisation removed the observed block. */
  function Rollback(r: Record, now: int): Record {
    Enter(r, Published, now).(observed := None)
  }

  function ReconcileTx(s: Store, op: Op, depth: int): Result<Outcome, StoreError>
    requires op.Reconcile?
  {
    match RequireByNonce(s.records, op.scope, op.nonce)
    case Err(e) => Err(e)
    case Ok(i) =>
      match Sweep(s, op.now, |s.records|)
      case Err(e) => Err(e)
      case Ok(t) =>
        var r := t.records[i];
        if !IsObserved(r.state) then Done(t, i)
        else if r.observed.None? then Err(ObservationMissing)
        else if op.canonicalHash.None? || op.canonicalHash.value == "" then Done(t, i)
        else if Lower(op.canonicalHash.value) != Lower(r.observed.value.blockHash) then
          Done(Replace(t, i, Rollback(r, op.now)), i)
        else if op.currentBlock - r.observed.value.blockNumber + 1 >= depth then
          TerminateAndReturn(t, i, if r.state.FillObserved? then Filled else Cancelled, op.now)
        else Done(t, i)
  }

  function ExpireTx(s: Store, op: Op): Result<Outcome, StoreError>
    requires op.Expire?
  {
    match RequireByNonce(s.records, op.scope, op.nonce)
    case Err(e) => Err(e)
    case Ok(i) =>
      var r := s.records[i];
      if IsTerminal(r.state) then Done(s, i)
      else if IsObserved(r.state) then Err(ObservedCannotExpire)
      else if r.signedQuote.Some? && op.now < r.signedQuote.value.quote.expiry then Err(NotExpired)
      else TerminateAndReturn(s, i, Expired, op.now)
  }

  function RevokeTx(s: Store, op: Op): Result<Outcome, StoreError>
    requires op.Revoke?
  {
    match RequireByNonce(s.records, op.scope, op.nonce)
    case Err(e) => Err(e)
    case Ok(i) =>
      var r := s.records[i];
      if IsTerminal(r.state) then Done(s, i)
      else if IsObserved(r.state) then Err(ObservedCannotRevoke)
      else TerminateAndReturn(s, i, Revoked, op.now)
  }

  function Apply(s: Store, op: Op, depth: int): Result<Outcome, StoreError> {
    match op
    case Reserve(input) => ReserveTx(s, input)
    case MarkSigned(_, _, _, _, _, _, _) => MarkSignedTx(s, op)
    case MarkSignFailed(_, _, _, _) => MarkSignFailedTx(s, op)
    case MarkObserved(_, _, _, _) => MarkObservedTx(s, op)
    case Reconcile(_, _, _, _, _) => ReconcileTx(s, op, depth)
    case Expire(_, _, _) => ExpireTx(s, op)
    case Revoke(_, _, _) => RevokeTx(s, op)
  }

  /** The persisted state after a transaction: written only when it returns normally. */
  function Commit(s: Store, op: Op, depth: int): Store {
    match Apply(s, op, depth)
    case Ok(outcome) => outcome.store
    case Err(_) => s
  }

  function Run(s: Store, ops: seq<Op>, depth: int): Store
    decreases |ops|
  {
    if ops == [] then s else Run(Commit(s, ops[0], depth), ops[1..], depth)
  }

  /** A freshly configured store: positive availability, nothing reserved. */
  predicate Fresh(s: Store) {
    && s.records == []
    && s.lastNonce == map[]
    && forall k :: k in s.inventory ==> s.inventory[k].available > 0 && s.inventory[k].reserved == 0
  }
}
