/** The acquisition resolver: holding-period clocks inherited along lot lineage. */
module Acquisition {
  import opened Results
  import opened Checks

  datatype SourceType = Primary | Secondary | Dividend | Conversion | Pledge | Gift | Trust | Estate

  predicate LineageRequired(t: SourceType) {
    !t.Primary? && !t.Secondary?
  }

  datatype Lot = Lot(
    lotId: string, holder: string, asset: string, quantity: string,
    acquisitionDate: int, paymentCompleteAt: int, sourceType: SourceType, lineageRef: Option<string>)

  datatype Status = Missing | Valid | LineageBroken

  datatype Snapshot = Snapshot(
    holder: string, asset: string, clockStart: int, observedAt: int, expiresAt: int,
    sourceRef: string, status: Status)

  datatype CompileError =
    | BadTimestamp | BadAddress | LotIdRequired | LotMismatch | BadQuantity
    | FutureTimestamp | LineageNotAllowed | DuplicateLot | ExpiryOverflow

  // ---- validation ----

  /** An empty reference counts as none. */
  predicate HasParent(lot: Lot) {
    lot.lineageRef.Some? && lot.lineageRef.value != ""
  }

  /** The first check that a lot fails, if any. */
  function LotFault(lot: Lot, holder: string, asset: string, observedAt: int): Option<CompileError> {
    if IsBlank(lot.lotId) then Some(LotIdRequired)
    else if Lower(lot.holder) != Lower(holder) || Lower(lot.asset) != Lower(asset) then Some(LotMismatch)
    else if !IsPositiveDecimal(lot.quantity) then Some(BadQuantity)
    else if !IsTimestamp(lot.acquisitionDate) || !IsTimestamp(lot.paymentCompleteAt) then Some(BadTimestamp)
    else if lot.acquisitionDate > observedAt || lot.paymentCompleteAt > observedAt then Some(FutureTimestamp)
    else if HasParent(lot) && !LineageRequired(lot.sourceType) then Some(LineageNotAllowed)
    else None
  }

  // ---- clocks ----

  function Max(a: int, b: int): int { if a > b then a else b }

  /** A lot's own clock starts when it is both acquired and paid for. */
  function OwnClock(lot: Lot): int {
    Max(lot.acquisitionDate, lot.paymentCompleteAt)
  }

  type Index = map<string, Lot>

  /** Lots are indexed by their own identifiers. */
  ghost predicate IsIndex(byId: Index) {
    forall id :: id in byId ==> byId[id].lotId == id
  }

  /** The clock a lot inherits; None when its lineage is broken or circular. */
  function ResolveClock(lot: Lot, byId: Index, visiting: set<string>): Option<int>
    requires IsIndex(byId) && lot.lotId in byId && byId[lot.lotId] == lot
    decreases byId.Keys - visiting
  {
    if lot.lotId in visiting then None
    else if !HasParent(lot) then
      if LineageRequired(lot.sourceType) then None else Some(OwnClock(lot))
    else if lot.lineageRef.value !in byId then None
    else ResolveClock(byId[lot.lineageRef.value], byId, visiting + {lot.lotId})
  }

  // ---- the reference definition: walking lineage references ----

  /** The lot reached after following `n` lineage references. */
  function Walk(lot: Lot, byId: Index, n: nat): Option<Lot>
    decreases n
  {
    if n == 0 then Some(lot)
    else if !HasParent(lot) || lot.lineageRef.value !in byId then None
    else Walk(byId[lot.lineageRef.value], byId, n - 1)
  }

  /** Original issues and purchases start a lineage. */
  predicate IsRoot(lot: Lot) {
    !HasParent(lot) && !LineageRequired(lot.sourceType)
  }

  ghost predicate ReachesRoot(lot: Lot, byId: Index, n: nat) {
    Walk(lot, byId, n).Some? && IsRoot(Walk(lot, byId, n).value)
  }

  lemma {:induction false} WalkOn(lot: Lot, byId: Index, m: nat, n: nat)
    requires Walk(lot, byId, m).Some?
    ensures Walk(lot, byId, m + n) == Walk(Walk(lot, byId, m).value, byId, n)
    decreases m
  {
    if m > 0 {
      WalkOn(byId[lot.lineageRef.value], byId, m - 1, n);
    }
  }

  /** A walk that comes back to where it started never ends, so it reaches no root. */
  lemma {:induction false} CyclesReachNoRoot(lot: Lot, byId: Index, period: nat, n: nat)
    requires period > 0 && Walk(lot, byId, period) == Some(lot)
    ensures !ReachesRoot(lot, byId, n)
    decreases n
  {
    if n >= period {
      WalkOn(lot, byId, period, n - period);
      CyclesReachNoRoot(lot, byId, period, n - period);
    } else if ReachesRoot(lot, byId, n) {
      WalkOn(lot, byId, n, period - n);
    }
  }

  /** The visited lots all lead to the current one. */
  ghost predicate LeadHere(lot: Lot, byId: Index, visiting: set<string>) {
    forall id :: id in visiting ==> id in byId && exists n: nat :: n > 0 && Walk(byId[id], byId, n) == Some(lot)
  }

  lemma {:induction false} LeadToParent(lot: Lot, byId: Index, visiting: set<string>)
    requires IsIndex(byId) && lot.lotId in byId && byId[lot.lotId] == lot
    requires HasParent(lot) && lot.lineageRef.value in byId && LeadHere(lot, byId, visiting)
    ensures LeadHere(byId[lot.lineageRef.value], byId, visiting + {lot.lotId})
  {
    var parent := byId[lot.lineageRef.value];
    assert Walk(lot, byId, 1) == Some(parent) by { assert Walk(parent, byId, 0) == Some(parent); }
    forall id | id in visiting + {lot.lotId}
      ensures id in byId && exists n: nat :: n > 0 && Walk(byId[id], byId, n) == Some(parent)
    {
      if id in visiting {
        var n: nat :| n > 0 && Walk(byId[id], byId, n) == Some(lot);
        WalkOn(byId[id], byId, n, 1);
        assert Walk(byId[id], byId, n + 1) == Some(parent);
      } else {
        assert Walk(byId[id], byId, 1) == Some(parent);
      }
    }
  }

  /** Resolution succeeds exactly when the walk reaches a root, and yields that root's clock. */
  lemma {:induction false} ResolvesIffReachesRoot(lot: Lot, byId: Index, visiting: set<string>, n: nat)
    requires IsIndex(byId) && lot.lotId in byId && byId[lot.lotId] == lot
    requires LeadHere(lot, byId, visiting)
    ensures ReachesRoot(lot, byId, n) ==>
              ResolveClock(lot, byId, visiting) == Some(OwnClock(Walk(lot, byId, n).value))
    decreases byId.Keys - visiting
  {
    if lot.lotId in visiting {
      var period: nat :| period > 0 && Walk(byId[lot.lotId], byId, period) == Some(lot);
      CyclesReachNoRoot(lot, byId, period, n);
    } else if HasParent(lot) && lot.lineageRef.value in byId && n > 0 {
      LeadToParent(lot, byId, visiting);
      ResolvesIffReachesRoot(byId[lot.lineageRef.value], byId, visiting + {lot.lotId}, n - 1);
    }
  }

  lemma {:induction false} ResolvedReachesRoot(lot: Lot, byId: Index, visiting: set<string>) returns (n: nat)
    requires IsIndex(byId) && lot.lotId in byId && byId[lot.lotId] == lot
    requires ResolveClock(lot, byId, visiting).Some?
    ensures ReachesRoot(lot, byId, n)
    ensures ResolveClock(lot, byId, visiting) == Some(OwnClock(Walk(lot, byId, n).value))
    decreases byId.Keys - visiting
  {
    if HasParent(lot) {
      var m := ResolvedReachesRoot(byId[lot.lineageRef.value], byId, visiting + {lot.lotId});
      n := m + 1;
    } else {
      n := 0;
    }
  }

  // ---- compiling a snapshot ----

  /** An earlier lot has the same identifier. */
  predicate Repeats(lots: seq<Lot>, i: nat)
    requires i < |lots|
  {
    exists j :: 0 <= j < i && lots[j].lotId == lots[i].lotId
  }

  /** The fault found among the first `n` lots. */
  function FaultIn(lots: seq<Lot>, n: nat, holder: string, asset: string, observedAt: int): Option<CompileError>
    requires n <= |lots|
  {
    if n == 0 then None
    else
      var earlier := FaultIn(lots, n - 1, holder, asset, observedAt);
      if earlier.Some? then earlier
      else if LotFault(lots[n - 1], holder, asset, observedAt).Some? then
        LotFault(lots[n - 1], holder, asset, observedAt)
      else if Repeats(lots, n - 1) then Some(DuplicateLot)
      else None
  }

  /** The first `n` lots by identifier. */
  function IndexLots(lots: seq<Lot>, n: nat): (byId: Index)
    requires n <= |lots|
    ensures IsIndex(byId)
  {
    if n == 0 then map[] else IndexLots(lots, n - 1)[lots[n - 1].lotId := lots[n - 1]]
  }

  /** The clocks of the first `n` lots, if all resolve. */
  function ClocksOf(lots: seq<Lot>, byId: Index, n: nat): (clocks: Option<seq<int>>)
    requires IsIndex(byId) && n <= |lots|
    requires forall i :: 0 <= i < |lots| ==> lots[i].lotId in byId && byId[lots[i].lotId] == lots[i]
    ensures clocks.Some? ==> |clocks.value| == n
    ensures clocks.Some? ==> forall i :: 0 <= i < n ==> ResolveClock(lots[i], byId, {}) == Some(clocks.value[i])
    ensures clocks.None? <==> exists i :: 0 <= i < n && ResolveClock(lots[i], byId, {}).None?
  {
    if n == 0 then Some([])
    else
      var earlier := ClocksOf(lots, byId, n - 1);
      var clock := ResolveClock(lots[n - 1], byId, {});
      if earlier.None? || clock.None? then None else Some(earlier.value + [clock.value])
  }

  function Latest(clocks: seq<int>): (latest: int)
    requires clocks != []
    ensures latest in clocks && forall c :: c in clocks ==> c <= latest
  {
    if |clocks| == 1 then clocks[0]
    else
      assert clocks == clocks[..|clocks| - 1] + [clocks[|clocks| - 1]];
      Max(Latest(clocks[..|clocks| - 1]), clocks[|clocks| - 1])
  }

  /** What a compilation is asked for; the digest of the lots comes from outside. */
  datatype Query = Query(holder: string, asset: string, observedAt: int, ttl: int, lotsHash: seq<Lot> -> string)

  function SnapshotOf(q: Query, lots: seq<Lot>, clockStart: int, status: Status): Result<Snapshot, CompileError> {
    if q.observedAt + q.ttl > MAX_SAFE_INTEGER then Err(ExpiryOverflow)
    else Ok(Snapshot(q.holder, q.asset, clockStart, q.observedAt, q.observedAt + q.ttl, q.lotsHash(lots), status))
  }

  /** The index holds exactly the identifiers of the lots, each under a lot that carries it. */
  lemma {:induction false} IndexHoldsLots(lots: seq<Lot>, n: nat)
    requires n <= |lots|
    ensures forall i :: 0 <= i < n ==> lots[i].lotId in IndexLots(lots, n)
    ensures forall id :: id in IndexLots(lots, n) ==> IndexLots(lots, n)[id] in lots
  {
    if n > 0 {
      IndexHoldsLots(lots, n - 1);
    }
  }

  lemma {:induction false} IndexHoldsExactly(lots: seq<Lot>, n: nat, id: string)
    requires n <= |lots|
    ensures id in IndexLots(lots, n) <==> exists i :: 0 <= i < n && lots[i].lotId == id
  {
    if n > 0 {
      IndexHoldsExactly(lots, n - 1, id);
    }
  }

  /** Faultless lots, said without an order. */
  ghost predicate Faultless(lots: seq<Lot>, n: nat, holder: string, asset: string, observedAt: int)
    requires n <= |lots|
  {
    && (forall i :: 0 <= i < n ==> LotFault(lots[i], holder, asset, observedAt).None?)
    && (forall i, j :: 0 <= i < j < n ==> lots[i].lotId != lots[j].lotId)
  }

  lemma {:induction false} FaultlessUnordered(lots: seq<Lot>, n: nat, holder: string, asset: string, observedAt: int)
    requires n <= |lots|
    ensures FaultIn(lots, n, holder, asset, observedAt).None? <==> Faultless(lots, n, holder, asset, observedAt)
  {
    hide LotFault;
    if n > 0 {
      FaultlessUnordered(lots, n - 1, holder, asset, observedAt);
      assert Repeats(lots, n - 1) <==> exists j :: 0 <= j < n - 1 && lots[j].lotId == lots[n - 1].lotId;
    }
  }

  /** Distinct lots are found again under their identifiers. */
  lemma {:induction false} DistinctAreIndexed(lots: seq<Lot>, n: nat)
    requires n <= |lots| && forall i, j :: 0 <= i < j < n ==> lots[i].lotId != lots[j].lotId
    ensures forall i :: 0 <= i < n ==>
              lots[i].lotId in IndexLots(lots, n) && IndexLots(lots, n)[lots[i].lotId] == lots[i]
  {
    if n > 0 {
      DistinctAreIndexed(lots, n - 1);
    }
  }

  lemma FaultlessIsIndexed(lots: seq<Lot>, n: nat, holder: string, asset: string, observedAt: int)
    requires n <= |lots| && FaultIn(lots, n, holder, asset, observedAt).None?
    ensures forall i :: 0 <= i < n ==>
              lots[i].lotId in IndexLots(lots, n) && IndexLots(lots, n)[lots[i].lotId] == lots[i]
    ensures Faultless(lots, n, holder, asset, observedAt)
  {
    hide LotFault, IndexLots, FaultIn;
    FaultlessUnordered(lots, n, holder, asset, observedAt);
    DistinctAreIndexed(lots, n);
  }

  function Compiled(q: Query, lots: seq<Lot>): Result<Snapshot, CompileError> {
    if !IsTimestamp(q.observedAt) then Err(BadTimestamp)
    else if !IsAddress(q.holder) || !IsAddress(q.asset) then Err(BadAddress)
    else if lots == [] then SnapshotOf(q, [], 0, Missing)
    else
      var fault := FaultIn(lots, |lots|, q.holder, q.asset, q.observedAt);
      if fault.Some? then Err(fault.value)
      else
        FaultlessIsIndexed(lots, |lots|, q.holder, q.asset, q.observedAt);
        var clocks := ClocksOf(lots, IndexLots(lots, |lots|), |lots|);
        if clocks.None? then SnapshotOf(q, lots, 0, LineageBroken)
        else SnapshotOf(q, lots, Latest(clocks.value), Valid)
  }

  /** The recursion over one lot's lineage, with the set of lots being visited updated in place:
      a lot is added before its parent is resolved and removed afterwards. */
  class LineageWalk {
    const byId: Index
    var visiting: set<string>

    constructor (byId: Index)
      ensures this.byId == byId && visiting == {}
    {
      this.byId := byId;
      visiting := {};
    }

    method Resolve(lot: Lot) returns (clock: Option<int>)
      requires IsIndex(byId) && lot.lotId in byId && byId[lot.lotId] == lot
      modifies this
      ensures clock == ResolveClock(lot, byId, old(visiting))
      ensures visiting == old(visiting)
      decreases byId.Keys - visiting
    {
      if lot.lotId in visiting {
        return None;
      }
      if !HasParent(lot) {
        return if LineageRequired(lot.sourceType) then None else Some(OwnClock(lot));
      }
      if lot.lineageRef.value !in byId {
        return None;
      }
      visiting := visiting + {lot.lotId};
      clock := Resolve(byId[lot.lineageRef.value]);
      visiting := visiting - {lot.lotId};
    }
  }

  /** The resolver's own loops: index the lots while validating them, then collect clocks. */
  method Compile(q: Query, lots: seq<Lot>) returns (res: Result<Snapshot, CompileError>)
    requires 0 < q.ttl <= MAX_SAFE_INTEGER
    ensures res == Compiled(q, lots)
  {
    hide LotFault, ResolveClock, SnapshotOf, IsAddress;
    if !IsTimestamp(q.observedAt) {
      return Err(BadTimestamp);
    }
    if !IsAddress(q.holder) || !IsAddress(q.asset) {
      return Err(BadAddress);
    }
    if |lots| == 0 {
      return SnapshotOf(q, [], 0, Missing);
    }
    var byId: Index := map[];
    for i := 0 to |lots|
      invariant byId == IndexLots(lots, i)
      invariant FaultIn(lots, i, q.holder, q.asset, q.observedAt).None?
    {
      IndexHoldsExactly(lots, i, lots[i].lotId);
      var fault := LotFault(lots[i], q.holder, q.asset, q.observedAt);
      if fault.Some? || lots[i].lotId in byId {
        var found := if fault.Some? then fault.value else DuplicateLot;
        FaultSticks(lots, i + 1, |lots|, q.holder, q.asset, q.observedAt);
        return Err(found);
      }
      byId := byId[lots[i].lotId := lots[i]];
    }
    FaultlessIsIndexed(lots, |lots|, q.holder, q.asset, q.observedAt);
    var clocks: seq<int> := [];
    for i := 0 to |lots|
      invariant ClocksOf(lots, byId, i) == Some(clocks)
    {
      var walk := new LineageWalk(byId);
      var clock := walk.Resolve(lots[i]);
      if clock.None? {
        return SnapshotOf(q, lots, 0, LineageBroken);
      }
      clocks := clocks + [clock.value];
    }
    return SnapshotOf(q, lots, Latest(clocks), Valid);
  }

  lemma {:induction false} FaultSticks(lots: seq<Lot>, n: nat, m: nat, holder: string, asset: string, observedAt: int)
    requires n <= m <= |lots| && FaultIn(lots, n, holder, asset, observedAt).Some?
    ensures FaultIn(lots, m, holder, asset, observedAt) == FaultIn(lots, n, holder, asset, observedAt)
    decreases m
  {
    hide LotFault, IndexLots;
    if n < m {
      FaultSticks(lots, n, m - 1, holder, asset, observedAt);
    }
  }
}
