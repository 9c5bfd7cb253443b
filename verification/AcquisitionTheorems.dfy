/** What a compiled acquisition snapshot says about the lots it was compiled from. */
module AcquisitionTheorems {
  import opened Results
  import opened Checks
  import opened Acquisition

  /** The lots pass every check. */
  predicate Accepted(q: Query, lots: seq<Lot>) {
    && IsTimestamp(q.observedAt) && IsAddress(q.holder) && IsAddress(q.asset)
    && lots != []
    && FaultIn(lots, |lots|, q.holder, q.asset, q.observedAt).None?
  }

  /** Some number of lineage references leads to a primary or secondary lot. */
  ghost predicate EndsInRoot(lot: Lot, byId: Index) {
    exists n: nat :: ReachesRoot(lot, byId, n)
  }

  /** A snapshot of accepted lots is VALID exactly when every lot's lineage walk reaches a
      primary or secondary lot. */
  lemma ValidIffEveryWalkEnds(q: Query, lots: seq<Lot>)
    requires Accepted(q, lots) && Compiled(q, lots).Ok?
    ensures Compiled(q, lots).value.status.Valid? <==>
              forall i :: 0 <= i < |lots| ==> EndsInRoot(lots[i], IndexLots(lots, |lots|))
    ensures !Compiled(q, lots).value.status.Valid? ==> Compiled(q, lots).value.status.LineageBroken?
  {
    hide LotFault, IsAddress, FaultIn, IndexLots, EndsInRoot, ResolveClock;
    FaultlessIsIndexed(lots, |lots|, q.holder, q.asset, q.observedAt);
    var byId := IndexLots(lots, |lots|);
    forall i | 0 <= i < |lots|
      ensures ResolveClock(lots[i], byId, {}).Some? <==> EndsInRoot(lots[i], byId)
    {
      ResolvesIff(lots[i], byId);
    }
  }

  lemma ResolvesIff(lot: Lot, byId: Index)
    requires IsIndex(byId) && lot.lotId in byId && byId[lot.lotId] == lot
    ensures ResolveClock(lot, byId, {}).Some? <==> EndsInRoot(lot, byId)
  {
    if ResolveClock(lot, byId, {}).Some? {
      var n := ResolvedReachesRoot(lot, byId, {});
      assert ReachesRoot(lot, byId, n);
    }
    if n: nat :| ReachesRoot(lot, byId, n) {
      ResolvesIffReachesRoot(lot, byId, {}, n);
    }
  }

  lemma {:induction false} WalkStaysInIndex(lot: Lot, byId: Index, n: nat)
    requires Walk(lot, byId, n).Some?
    ensures n > 0 ==> Walk(lot, byId, n).value in byId.Values
    decreases n
  {
    if n > 1 {
      WalkStaysInIndex(byId[lot.lineageRef.value], byId, n - 1);
    } else if n == 1 {
      assert Walk(byId[lot.lineageRef.value], byId, 0).Some?;
    }
  }

  /** The clock of a VALID snapshot is the latest own clock among the root lots, which are
      exactly the lots that the walks end in; it is not later than the observation. */
  lemma ClockIsLatestRoot(q: Query, lots: seq<Lot>)
    requires Accepted(q, lots) && Compiled(q, lots).Ok? && Compiled(q, lots).value.status.Valid?
    ensures var clock := Compiled(q, lots).value.clockStart;
            && (exists i :: 0 <= i < |lots| && IsRoot(lots[i]) && OwnClock(lots[i]) == clock)
            && (forall i :: 0 <= i < |lots| && IsRoot(lots[i]) ==> OwnClock(lots[i]) <= clock)
            && clock <= q.observedAt
  {
    hide LotFault, IsAddress, IndexLots;
    FaultlessIsIndexed(lots, |lots|, q.holder, q.asset, q.observedAt);
    IndexHoldsLots(lots, |lots|);
    var byId := IndexLots(lots, |lots|);
    var clocks := ClocksOf(lots, byId, |lots|).value;
    var clock := Latest(clocks);
    forall i | 0 <= i < |lots| && IsRoot(lots[i]) ensures OwnClock(lots[i]) <= clock {
      assert ResolveClock(lots[i], byId, {}) == Some(clocks[i]);
      assert clocks[i] in clocks;
    }
    var j :| 0 <= j < |lots| && clocks[j] == clock;
    var root := RootOf(lots[j], byId);
    if root != lots[j] {
      assert root in lots;
    }
    var k :| 0 <= k < |lots| && lots[k] == root;
    assert IsRoot(lots[k]) && OwnClock(lots[k]) == clock;
    FaultlessNotFuture(lots[k], q.holder, q.asset, q.observedAt);
  }

  /** It is at least the acquisition and the payment time of every root lot, and one of the two for
      some: no holding period starts before a lot is both acquired and paid for. */
  lemma ClockCoversPayment(q: Query, lots: seq<Lot>)
    requires Accepted(q, lots) && Compiled(q, lots).Ok? && Compiled(q, lots).value.status.Valid?
    ensures var clock := Compiled(q, lots).value.clockStart;
            && (forall i :: 0 <= i < |lots| && IsRoot(lots[i]) ==>
                  lots[i].acquisitionDate <= clock && lots[i].paymentCompleteAt <= clock)
            && (exists i :: 0 <= i < |lots| && IsRoot(lots[i])
                  && (lots[i].acquisitionDate == clock || lots[i].paymentCompleteAt == clock))
  {
    hide Compiled, FaultIn;
    ClockIsLatestRoot(q, lots);
  }

  /** The root whose clock a lot inherits. */
  lemma RootOf(lot: Lot, byId: Index) returns (root: Lot)
    requires IsIndex(byId) && lot.lotId in byId && byId[lot.lotId] == lot
    requires ResolveClock(lot, byId, {}).Some?
    ensures IsRoot(root) && ResolveClock(lot, byId, {}) == Some(OwnClock(root))
    ensures root == lot || exists id :: id in byId && byId[id] == root
  {
    var n := ResolvedReachesRoot(lot, byId, {});
    WalkStaysInIndex(lot, byId, n);
    root := Walk(lot, byId, n).value;
    if n == 0 {
      assert root == lot;
    }
  }

  lemma FaultlessNotFuture(lot: Lot, holder: string, asset: string, observedAt: int)
    requires LotFault(lot, holder, asset, observedAt).None?
    ensures OwnClock(lot) <= observedAt
  {
  }

  /** A root lot is one of a primary or secondary source that names no other lot; the other six
      sources inherit their clock. */
  lemma RootsExactly(lot: Lot)
    ensures IsRoot(lot) <==>
              (lot.sourceType.Primary? || lot.sourceType.Secondary?) && lot.lineageRef in {None, Some("")}
    ensures LineageRequired(lot.sourceType) <==>
              lot.sourceType in {Dividend, Conversion, Pledge, Gift, Trust, Estate}
  {
  }

  /** A lot passes exactly when its identifier is not blank, holder and asset are the ones asked for
      in any letter case, the quantity is a positive decimal, both times are timestamps not after the
      observation, and it names another lot only if its source inherits. */
  lemma LotPassesExactlyWhen(lot: Lot, holder: string, asset: string, observedAt: int)
    ensures LotFault(lot, holder, asset, observedAt).None? <==>
              && !(forall c :: c in lot.lotId ==> c as int in {9, 10, 11, 12, 13, 32})
              && Lower(lot.holder) == Lower(holder) && Lower(lot.asset) == Lower(asset)
              && IsPositiveDecimal(lot.quantity)
              && IsTimestamp(lot.acquisitionDate) && IsTimestamp(lot.paymentCompleteAt)
              && lot.acquisitionDate <= observedAt && lot.paymentCompleteAt <= observedAt
              && (lot.lineageRef in {None, Some("")} || lot.sourceType !in {Primary, Secondary})
  {
    BlankExactly(lot.lotId);
    assert IsBlank(lot.lotId) <==> forall c :: c in lot.lotId ==> c as int in {9, 10, 11, 12, 13, 32};
    assert HasParent(lot) <==> lot.lineageRef !in {None, Some("")};
    assert LineageRequired(lot.sourceType) <==> lot.sourceType !in {Primary, Secondary};
    hide IsBlank, IsPositiveDecimal, Lower;
  }

  /** Which fault is reported: the first in the order of the checks. */
  lemma LotFaultExactly(lot: Lot, holder: string, asset: string, observedAt: int)
    ensures var fault := LotFault(lot, holder, asset, observedAt);
            var blank := IsBlank(lot.lotId);
            var other := Lower(lot.holder) != Lower(holder) || Lower(lot.asset) != Lower(asset);
            var badTime := !IsTimestamp(lot.acquisitionDate) || !IsTimestamp(lot.paymentCompleteAt);
            var future := lot.acquisitionDate > observedAt || lot.paymentCompleteAt > observedAt;
            && (fault == Some(LotIdRequired) <==> blank)
            && (fault == Some(LotMismatch) <==> !blank && other)
            && (fault == Some(BadQuantity) <==> !blank && !other && !IsPositiveDecimal(lot.quantity))
            && (fault == Some(BadTimestamp) <==>
                  !blank && !other && IsPositiveDecimal(lot.quantity) && badTime)
            && (fault == Some(FutureTimestamp) <==>
                  !blank && !other && IsPositiveDecimal(lot.quantity) && !badTime && future)
            && (fault == Some(LineageNotAllowed) ==> !future && lot.sourceType in {Primary, Secondary})
            && (fault.Some? ==> fault.value in {LotIdRequired, LotMismatch, BadQuantity, BadTimestamp,
                                                FutureTimestamp, LineageNotAllowed})
  {
  }

  /** What a compilation reports: the terms it was asked for with an expiry one time to live later;
      MISSING without lots and otherwise without a clock unless VALID; and an error exactly for a bad
      request, a faulty lot or an expiry out of range, in that order. */
  lemma CompilationReports(q: Query, lots: seq<Lot>)
    ensures var res := Compiled(q, lots);
            var badRequest := !IsTimestamp(q.observedAt) || !IsAddress(q.holder) || !IsAddress(q.asset);
            var faulty := FaultIn(lots, |lots|, q.holder, q.asset, q.observedAt).Some?;
            && (res.Ok? <==> !badRequest && !faulty && q.observedAt + q.ttl <= 9_007_199_254_740_991)
            && (res.Ok? ==>
                  && res.value.holder == q.holder && res.value.asset == q.asset
                  && res.value.observedAt == q.observedAt && res.value.expiresAt == q.observedAt + q.ttl
                  && res.value.sourceRef == q.lotsHash(lots)
                  && (res.value.status.Missing? <==> lots == [])
                  && (!res.value.status.Valid? ==> res.value.clockStart == 0))
            && (res == Err(ExpiryOverflow) <==> !badRequest && !faulty && !res.Ok?)
            && (!IsTimestamp(q.observedAt) ==> res == Err(BadTimestamp))
            && (IsTimestamp(q.observedAt) && badRequest ==> res == Err(BadAddress))
            && (!badRequest && faulty ==>
                  res == Err(FaultIn(lots, |lots|, q.holder, q.asset, q.observedAt).value))
  {
    hide LotFault, IsAddress, ResolveClock;
    if !(FaultIn(lots, |lots|, q.holder, q.asset, q.observedAt).Some?) {
      FaultlessIsIndexed(lots, |lots|, q.holder, q.asset, q.observedAt);
    } else {
      FaultsAreOfLots(lots, |lots|, q.holder, q.asset, q.observedAt);
    }
  }

  lemma {:induction false} FaultsAreOfLots(lots: seq<Lot>, n: nat, holder: string, asset: string, observedAt: int)
    requires n <= |lots|
    ensures FaultIn(lots, n, holder, asset, observedAt) != Some(ExpiryOverflow)
  {
    hide LotFault;
    if n > 0 {
      FaultsAreOfLots(lots, n - 1, holder, asset, observedAt);
      LotFaultExactly(lots[n - 1], holder, asset, observedAt);
    }
  }

  // ---- lot order does not matter ----

  lemma {:induction false} RepeatedLot(lots: seq<Lot>, lot: Lot)
    ensures multiset(lots)[lot] >= 2 <==> exists i, j :: 0 <= i < j < |lots| && lots[i] == lots[j] == lot
    ensures multiset(lots)[lot] >= 1 <==> lot in lots
  {
    if lots != [] {
      var n := |lots| - 1;
      assert lots == lots[..n] + [lots[n]];
      RepeatedLot(lots[..n], lot);
      if lots[n] == lot && multiset(lots[..n])[lot] >= 1 {
        var i :| 0 <= i < n && lots[i] == lot;
      }
      if i, j :| 0 <= i < j < |lots| && lots[i] == lots[j] == lot {
        if j == n {
          assert lots[..n][i] == lot;
        } else {
          assert lots[..n][i] == lots[..n][j] == lot;
        }
      }
      if i, j :| 0 <= i < j < n && lots[..n][i] == lots[..n][j] == lot {
        assert lots[i] == lots[j] == lot;
      }
    }
  }

  lemma FaultlessPermutes(a: seq<Lot>, b: seq<Lot>, holder: string, asset: string, observedAt: int)
    requires multiset(a) == multiset(b) && Faultless(a, |a|, holder, asset, observedAt)
    ensures Faultless(b, |b|, holder, asset, observedAt)
  {
    hide LotFault;
    forall lot | lot in b ensures lot in a && LotFault(lot, holder, asset, observedAt).None? {
      assert lot in multiset(b);
      assert lot in a;
    }
    forall i, j | 0 <= i < j < |b| ensures b[i].lotId != b[j].lotId {
      RepeatedLot(a, b[i]);
      RepeatedLot(b, b[i]);
      assert b[i] in a && b[j] in a;
    }
  }

  lemma IndexPermutes(a: seq<Lot>, b: seq<Lot>, holder: string, asset: string, observedAt: int)
    requires multiset(a) == multiset(b)
    requires FaultIn(a, |a|, holder, asset, observedAt).None? && FaultIn(b, |b|, holder, asset, observedAt).None?
    ensures IndexLots(a, |a|) == IndexLots(b, |b|)
  {
    hide LotFault, FaultIn, IndexLots;
    FaultlessIsIndexed(a, |a|, holder, asset, observedAt);
    FaultlessIsIndexed(b, |b|, holder, asset, observedAt);
    IndexHoldsLots(a, |a|);
    IndexHoldsLots(b, |b|);
    var x, y := IndexLots(a, |a|), IndexLots(b, |b|);
    forall id | id in x ensures id in y && x[id] == y[id] {
      assert x[id] in multiset(a);
      assert x[id] in b;
    }
    forall id | id in y ensures id in x {
      assert y[id] in multiset(b);
      assert y[id] in a;
    }
  }

  /** Rearranging the lots changes neither acceptance nor status nor clock. */
  lemma OrderDoesNotMatter(q: Query, a: seq<Lot>, b: seq<Lot>)
    requires multiset(a) == multiset(b)
    ensures Accepted(q, a) <==> Accepted(q, b)
    ensures Compiled(q, a).Ok? <==> Compiled(q, b).Ok?
    ensures Compiled(q, a).Ok? ==>
              && Compiled(q, a).value.status == Compiled(q, b).value.status
              && Compiled(q, a).value.clockStart == Compiled(q, b).value.clockStart
              && Compiled(q, a).value.expiresAt == Compiled(q, b).value.expiresAt
  {
    hide LotFault, IsAddress, FaultIn, IndexLots;
    assert |a| == |multiset(a)| == |b|;
    FaultlessUnordered(a, |a|, q.holder, q.asset, q.observedAt);
    FaultlessUnordered(b, |b|, q.holder, q.asset, q.observedAt);
    if Faultless(a, |a|, q.holder, q.asset, q.observedAt) {
      FaultlessPermutes(a, b, q.holder, q.asset, q.observedAt);
    }
    if Faultless(b, |b|, q.holder, q.asset, q.observedAt) {
      FaultlessPermutes(b, a, q.holder, q.asset, q.observedAt);
    }
    if Accepted(q, a) {
      IndexPermutes(a, b, q.holder, q.asset, q.observedAt);
      FaultlessIsIndexed(a, |a|, q.holder, q.asset, q.observedAt);
      FaultlessIsIndexed(b, |b|, q.holder, q.asset, q.observedAt);
      ClocksPermute(a, b, IndexLots(a, |a|));
    }
  }

  lemma ClocksPermute(a: seq<Lot>, b: seq<Lot>, byId: Index)
    requires IsIndex(byId) && multiset(a) == multiset(b) && a != []
    requires forall i :: 0 <= i < |a| ==> a[i].lotId in byId && byId[a[i].lotId] == a[i]
    requires forall i :: 0 <= i < |b| ==> b[i].lotId in byId && byId[b[i].lotId] == b[i]
    ensures var x, y := ClocksOf(a, byId, |a|), ClocksOf(b, byId, |b|);
            && b != [] && x.Some? == y.Some?
            && (x.Some? ==> Latest(x.value) == Latest(y.value))
  {
    hide ResolveClock;
    assert |a| == |multiset(a)| == |b|;
    ClocksContained(a, b, byId);
    ClocksContained(b, a, byId);
  }

  lemma ClocksContained(a: seq<Lot>, b: seq<Lot>, byId: Index)
    requires IsIndex(byId) && multiset(a) == multiset(b)
    requires forall i :: 0 <= i < |a| ==> a[i].lotId in byId && byId[a[i].lotId] == a[i]
    requires forall i :: 0 <= i < |b| ==> b[i].lotId in byId && byId[b[i].lotId] == b[i]
    ensures var x, y := ClocksOf(a, byId, |a|), ClocksOf(b, byId, |b|);
            && (x.None? ==> y.None?)
            && (x.Some? && y.Some? ==> forall c :: c in x.value ==> c in y.value)
  {
    hide ResolveClock, ClocksOf;
    var x, y := ClocksOf(a, byId, |a|), ClocksOf(b, byId, |b|);
    forall i | 0 <= i < |a| ensures a[i] in b {
      assert a[i] in multiset(a);
    }
    if x.None? {
      var i :| 0 <= i < |a| && ResolveClock(a[i], byId, {}).None?;
      var j :| 0 <= j < |b| && b[j] == a[i];
      assert ResolveClock(b[j], byId, {}).None?;
    } else if y.Some? {
      forall c | c in x.value ensures c in y.value {
        var i :| 0 <= i < |a| && x.value[i] == c;
        var j :| 0 <= j < |b| && b[j] == a[i];
        assert y.value[j] == c;
      }
    }
  }
}
