/** Sums of lease and quote amounts over the records of one inventory bucket. */
module QuoteConservation {
  import opened Results
  import opened RfqTypes
  import opened QuoteTransactions

  /** Which amount a record contributes to a bucket. */
  datatype Selector =
    | Unreleased          // leases not yet given back
    | HeldAt(now: int)    // of these, the ones observed or unexpired at a time
    | LiveQuotes          // amounts of signed quotes that can still be settled
    | Settled             // leases of the quotes that were filled

  predicate CanSettle(r: Record) {
    r.signedQuote.Some? && (r.state.Published? || IsObserved(r.state))
  }

  function Amount(sel: Selector, key: InventoryKey, r: Record): nat {
    match sel
    case Unreleased => if r.lease.key == key && !r.lease.released then r.lease.amount else 0
    case HeldAt(now) =>
      if r.lease.key == key && !r.lease.released && (IsObserved(r.state) || r.lease.expiresAt > now)
      then r.lease.amount else 0
    case Settled => if r.lease.key == key && r.state.Filled? then r.lease.amount else 0
    case LiveQuotes =>
      if CanSettle(r)
         && r.signedQuote.value.quote.maker == key.maker
         && r.signedQuote.value.quote.tokenOut == key.token
         && r.signedQuote.value.quote.venue == key.venue
      then r.signedQuote.value.quote.amountOut else 0
  }

  function Sum(records: seq<Record>, sel: Selector, key: InventoryKey): nat {
    if records == [] then 0
    else Sum(records[..|records| - 1], sel, key) + Amount(sel, key, records[|records| - 1])
  }

  /** What a record contributes: its lease to the bucket the lease is in, until it is given back, at a
      time only if it is observed or unexpired, for good once the quote is filled; and its signed quote,
      from publication until the end, to the bucket of the quote's maker, outgoing token and venue. */
  lemma AmountsExactly(key: InventoryKey, r: Record, now: int)
    ensures var lease := if r.lease.key == key then r.lease.amount else 0;
            && Amount(Unreleased, key, r) == (if r.lease.released then 0 else lease)
            && Amount(HeldAt(now), key, r) == (if r.lease.released
                 || (r.lease.expiresAt <= now && r.state !in {FillObserved, CancelObserved}) then 0 else lease)
            && Amount(Settled, key, r) == (if r.state == Filled then lease else 0)
    ensures Amount(LiveQuotes, key, r) ==
            match r.signedQuote
            case None => 0
            case Some(sq) =>
              if r.state in {Published, FillObserved, CancelObserved}
                 && key == InventoryKey(sq.quote.maker, sq.quote.tokenOut, sq.quote.venue)
              then sq.quote.amountOut else 0
  {
  }

  /** Sums add up: of one record, and of records in two parts. */
  lemma {:induction false} SumsAddUp(a: seq<Record>, b: seq<Record>, sel: Selector, key: InventoryKey)
    ensures Sum(a + b, sel, key) == Sum(a, sel, key) + Sum(b, sel, key)
    ensures forall r :: Sum([r], sel, key) == Amount(sel, key, r)
  {
    if b == [] {
      assert a + b == a;
    } else {
      SumsAddUp(a, b[..|b| - 1], sel, key);
      assert (a + b)[..|a + b| - 1] == a + b[..|b| - 1];
    }
  }

  lemma {:induction false} SumUpdate(records: seq<Record>, i: nat, r: Record, sel: Selector, key: InventoryKey)
    requires i < |records|
    ensures Sum(records[i := r], sel, key)
         == Sum(records, sel, key) - Amount(sel, key, records[i]) + Amount(sel, key, r)
  {
    var n := |records| - 1;
    if i == n {
      assert records[i := r][..n] == records[..n];
    } else {
      assert records[i := r][..n] == records[..n][i := r];
      SumUpdate(records[..n], i, r, sel, key);
    }
  }

  lemma {:induction false} SumMonotone(
      a: seq<Record>, b: seq<Record>, selA: Selector, selB: Selector, key: InventoryKey)
    requires |a| == |b|
    requires forall i :: 0 <= i < |a| ==> Amount(selA, key, a[i]) <= Amount(selB, key, b[i])
    ensures Sum(a, selA, key) <= Sum(b, selB, key)
  {
    if a != [] {
      SumMonotone(a[..|a| - 1], b[..|b| - 1], selA, selB, key);
    }
  }

  lemma {:induction false} SumIncludes(records: seq<Record>, i: nat, sel: Selector, key: InventoryKey)
    requires i < |records|
    ensures Amount(sel, key, records[i]) <= Sum(records, sel, key)
  {
    if i < |records| - 1 {
      SumIncludes(records[..|records| - 1], i, sel, key);
    }
  }
}
