/** Well-formed terms for concrete runs, as the coordinator's own checks would let them through. */
module SampleTerms {
  import opened Checks
  import opened RfqTypes

  function TheScope(): Scope { Scope(1, Hex('a', 40), Hex('b', 40)) }

  function TheRequest(): Request {
    Request(Hex('c', 40), Hex('d', 40), Hex('e', 40), 100, Hex('f', 40), Hex('1', 64), 60)
  }

  function TheKey(): InventoryKey {
    InventoryKey(TheScope().maker, TheRequest().tokenOut, TheRequest().venue)
  }

  function TheFill(): Observation { Observation(Fill, Hex('2', 64), 0, TheBlockHash()) }

  function TheBlockHash(): string { Hex('3', 64) }

  function TheSignature(): string { Hex('4', 130) }

  predicate WellFormedTerms(scope: Scope, request: Request, observation: Observation, signature: string) {
    && IsAddress(scope.adapter) && IsAddress(scope.maker)
    && IsAddress(request.taker) && IsAddress(request.tokenIn) && IsAddress(request.tokenOut)
    && request.amountIn > 0 && IsAddress(request.venue) && IsBytes32(request.policyId)
    && IsBytes32(observation.transactionHash) && IsBytes32(observation.blockHash)
    && IsHexOf(signature, 130)
  }

  lemma TheTermsAreWellFormed()
    ensures WellFormedTerms(TheScope(), TheRequest(), TheFill(), TheSignature())
  {
    hide IsHexOf, Hex;
    HexIsHex('a', 40);
    HexIsHex('b', 40);
    HexIsHex('c', 40);
    HexIsHex('d', 40);
    HexIsHex('e', 40);
    HexIsHex('f', 40);
    HexIsHex('1', 64);
    HexIsHex('2', 64);
    HexIsHex('3', 64);
    HexIsHex('4', 130);
  }
}
