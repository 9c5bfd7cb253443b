/** Values exchanged by the RFQ quote coordinator and persisted by its store. */
module RfqTypes {
  import opened Checks
  import opened Results

  /** Normalised (lower-case) 0x-prefixed address. */
  type Address = string

  datatype LifecycleState =
    | Received | Reserved | Signed | Published
    | FillObserved | CancelObserved
    | Filled | Cancelled | Expired | SignFailed | Revoked

  predicate IsTerminal(state: LifecycleState) {
    state.Filled? || state.Cancelled? || state.Expired? || state.SignFailed? || state.Revoked?
  }

  predicate IsObserved(state: LifecycleState) {
    state.FillObserved? || state.CancelObserved?
  }

  datatype ReleaseReason = ReasonSignFailed | ReasonExpired | ReasonRevoke | ReasonFilled | ReasonCancelled

  /** Nonces are allocated per scope. */
  datatype Scope = Scope(chainId: int, adapter: Address, maker: Address)

  /** Inventory is configured and leased per maker, token and venue. */
  datatype InventoryKey = InventoryKey(maker: Address, token: Address, venue: Address)

  /** Amounts are decimal strings of unsigned integers in the original. */
  datatype Request = Request(
    taker: Address, tokenIn: Address, tokenOut: Address, amountIn: nat,
    venue: Address, policyId: string, ttlSeconds: int)

  datatype Quote = Quote(
    maker: Address, taker: Address, tokenIn: Address, tokenOut: Address,
    amountIn: nat, amountOut: nat, venue: Address, policyId: string, nonce: nat, expiry: int)

  datatype Domain = Domain(chainId: int, verifyingContract: Address)

  datatype SignedQuote = SignedQuote(quote: Quote, signature: string, domain: Domain)

  /** SHA-256 over canonical JSON, as a free (hence injective) function of what is hashed. */
  datatype Digest =
    | OfRequest(request: Request)
    | OfSecret(secret: string)
    | OfQuote(quote: Quote, domain: Domain)
    | OfLease(scope: Scope, nonce: nat, key: InventoryKey, amount: nat)

  datatype Lease = Lease(
    leaseId: Digest, key: InventoryKey, amount: nat, expiresAt: int,
    released: bool, releaseReason: Option<ReleaseReason>)

  datatype ObservationKind = Fill | Cancel

  datatype Observation = Observation(
    kind: ObservationKind, transactionHash: string, blockNumber: int, blockHash: string)

  datatype HistoryEntry = HistoryEntry(state: LifecycleState, at: int)

  /** Freshness window of the pricing and risk snapshots kept with a strict quote. */
  datatype Evidence = Evidence(
    pricingObservedAt: int, pricingValidUntil: int, riskObservedAt: int, riskValidUntil: int)

  datatype Record = Record(
    state: LifecycleState,
    scope: Scope,
    keyHash: Digest,
    requestHash: Digest,
    request: Request,
    nonce: nat,
    lease: Lease,
    quoteHash: Option<Digest>,
    signedQuote: Option<SignedQuote>,
    signerKeyRefHash: Option<Digest>,
    createdAt: int,
    updatedAt: int,
    evidence: Option<Evidence>,
    releaseReason: Option<ReleaseReason>,
    observed: Option<Observation>,
    terminalAt: Option<int>,
    history: seq<HistoryEntry>)

  predicate SameObservation(a: Observation, b: Observation) {
    && a.kind == b.kind
    && Lower(a.transactionHash) == Lower(b.transactionHash)
    && a.blockNumber == b.blockNumber
    && Lower(a.blockHash) == Lower(b.blockHash)
  }
}
