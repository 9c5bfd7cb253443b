/** The person-group ledger: idempotent commits and rolling three-calendar-month volume. */
module Ledger {
  import opened Results
  import opened Checks
  import opened Calendar

  datatype HolderUpdate = HolderUpdate(groupId: string, isHolder: bool, isAccredited: bool, isUsResident: bool)

  datatype VolumeCommit = VolumeCommit(
    executionId: string, sellerGroupId: string, timestamp: int, amount: string,
    holderUpdates: Option<seq<HolderUpdate>>)

  /** The hash of a commit, as a free (hence injective) function of it. */
  datatype CommitHash = CommitHash(input: VolumeCommit)

  datatype VolumePoint = VolumePoint(groupId: string, timestamp: int, amount: int)

  datatype LedgerError =
    | BadExecutionId | SellerGroupRequired | BadTimestamp | BadAmount | DuplicateHolderGroup
    | ConflictingReplay

  datatype Receipt = Receipt(applied: bool, commitHash: CommitHash)

  datatype State = State(
    commits: map<string, CommitHash>, volumes: seq<VolumePoint>, holders: map<string, HolderUpdate>)

  function Updates(input: VolumeCommit): seq<HolderUpdate> {
    if input.holderUpdates.Some? then input.holderUpdates.value else []
  }

  predicate UniqueGroups(updates: seq<HolderUpdate>) {
    && (forall i :: 0 <= i < |updates| ==> !IsBlank(updates[i].groupId))
    && (forall i, j :: 0 <= i < j < |updates| ==> updates[i].groupId != updates[j].groupId)
  }

  /** The first check that a commit fails, if any. */
  function CommitFault(input: VolumeCommit): Option<LedgerError> {
    if !IsBytes32(input.executionId) then Some(BadExecutionId)
    else if IsBlank(input.sellerGroupId) then Some(SellerGroupRequired)
    else if !IsTimestamp(input.timestamp) then Some(BadTimestamp)
    else if !IsPositiveDecimal(input.amount) then Some(BadAmount)
    else if !UniqueGroups(Updates(input)) then Some(DuplicateHolderGroup)
    else None
  }

  function PointOf(input: VolumeCommit): VolumePoint {
    VolumePoint(input.sellerGroupId, input.timestamp, DecimalValue(input.amount))
  }

  function WithUpdates(holders: map<string, HolderUpdate>, updates: seq<HolderUpdate>): map<string, HolderUpdate> {
    if updates == [] then holders
    else
      var last := updates[|updates| - 1];
      WithUpdates(holders, updates[..|updates| - 1])[last.groupId := last]
  }

  datatype Outcome = Outcome(state: State, receipt: Receipt)

  function Committed(s: State, input: VolumeCommit): Result<Outcome, LedgerError> {
    var fault := CommitFault(input);
    var commitHash := CommitHash(input);
    if fault.Some? then Err(fault.value)
    else if input.executionId in s.commits then
      if s.commits[input.executionId] != commitHash then Err(ConflictingReplay)
      else Ok(Outcome(s, Receipt(false, commitHash)))
    else
      Ok(Outcome(State(s.commits[input.executionId := commitHash], s.volumes + [PointOf(input)],
                       WithUpdates(s.holders, Updates(input))),
                 Receipt(true, commitHash)))
  }

  predicate InWindow(point: VolumePoint, groupId: string, asOf: int) {
    var start := WindowStart(asOf);
    point.groupId == groupId && start.Some? && start.value <= point.timestamp <= asOf
  }

  function VolumeIn(volumes: seq<VolumePoint>, groupId: string, asOf: int): int {
    if volumes == [] then 0
    else
      var last := volumes[|volumes| - 1];
      VolumeIn(volumes[..|volumes| - 1], groupId, asOf) + if InWindow(last, groupId, asOf) then last.amount else 0
  }

  class PersonGroupLedger {
    var commits: map<string, CommitHash>
    var volumes: seq<VolumePoint>
    var holders: map<string, HolderUpdate>
    /** Every commit call so far, rejected ones included. */
    ghost var run: seq<VolumeCommit>

    function Current(): State
      reads this
    {
      State(commits, volumes, holders)
    }

    ghost predicate Valid()
      reads this
    {
      Current() == After(run)
    }

    constructor ()
      ensures Valid() && run == [] && Current() == State(map[], [], map[])
    {
      commits := map[];
      volumes := [];
      holders := map[];
      run := [];
    }

    method Commit(input: VolumeCommit) returns (res: Result<Receipt, LedgerError>)
      requires Valid()
      modifies this
      ensures Valid() && run == old(run) + [input]
      ensures match Committed(old(Current()), input)
              case Ok(o) => Current() == o.state && res == Ok(o.receipt)
              case Err(e) => Current() == old(Current()) && res == Err(e)
    {
      hide WindowStart, CommitFault, PointOf;
      AfterOneMore(run, input);
      run := run + [input];
      var fault := CommitFault(input);
      if fault.Some? {
        return Err(fault.value);
      }
      var commitHash := CommitHash(input);
      if input.executionId in commits {
        if commits[input.executionId] != commitHash {
          return Err(ConflictingReplay);
        }
        return Ok(Receipt(false, commitHash));
      }
      commits := commits[input.executionId := commitHash];
      volumes := volumes + [PointOf(input)];
      var updates := if input.holderUpdates.Some? then input.holderUpdates.value else [];
      ghost var before := holders;
      for i := 0 to |updates|
        invariant holders == WithUpdates(before, updates[..i])
        invariant commits == old(commits)[input.executionId := commitHash]
        invariant volumes == old(volumes) + [PointOf(input)]
        invariant run == old(run) + [input]
      {
        assert updates[..i + 1][..i] == updates[..i];
        holders := holders[updates[i].groupId := updates[i]];
      }
      assert updates[..|updates|] == updates;
      return Ok(Receipt(true, commitHash));
    }

    /** Filters and sums the recorded points; what comes out is the sum over the calls made: the
        first well-formed one of each execution that names the group within the window. */
    method RollingThreeCalendarMonthVolume(groupId: string, asOf: int) returns (res: Result<int, LedgerError>)
      requires Valid()
      ensures res.Ok? <==> IsTimestamp(asOf)
      ensures res.Ok? ==> res.value == FirstVolume(run, |run|, groupId, asOf)
      ensures res.Err? ==> res.error.BadTimestamp?
    {
      hide WindowStart, FirstVolume, After, IsTimestamp;
      if !IsTimestamp(asOf) {
        return Err(BadTimestamp);
      }
      var start := WindowStart(asOf);
      var sum := 0;
      for i := 0 to |volumes|
        invariant sum == VolumeIn(volumes[..i], groupId, asOf)
      {
        var point := volumes[i];
        assert volumes[..i + 1][..i] == volumes[..i];
        if point.groupId == groupId && start.Some? && start.value <= point.timestamp && point.timestamp <= asOf {
          sum := sum + point.amount;
        }
      }
      assert volumes[..|volumes|] == volumes;
      RollingVolumeOfRun(run, groupId, asOf);
      return Ok(sum);
    }
  }

  lemma AfterOneMore(run: seq<VolumeCommit>, input: VolumeCommit)
    ensures After(run + [input]) == match Committed(After(run), input) case Ok(o) => o.state case Err(_) => After(run)
  {
    hide Committed;
    assert (run + [input])[..|run|] == run;
  }

  /** A commit's updates replace exactly the entries of the groups they name. */
  lemma {:induction false} UpdatesReplaceTheirGroups(
      holders: map<string, HolderUpdate>, updates: seq<HolderUpdate>, g: string)
    requires UniqueGroups(updates)
    ensures g in WithUpdates(holders, updates) <==>
              g in holders || exists i :: 0 <= i < |updates| && updates[i].groupId == g
    ensures forall i :: 0 <= i < |updates| && updates[i].groupId == g ==> WithUpdates(holders, updates)[g] == updates[i]
    ensures g in holders && (forall i :: 0 <= i < |updates| ==> updates[i].groupId != g) ==>
              WithUpdates(holders, updates)[g] == holders[g]
  {
    if updates != [] {
      var n := |updates| - 1;
      UpdatesReplaceTheirGroups(holders, updates[..n], g);
      assert forall i :: 0 <= i < n ==> updates[..n][i] == updates[i];
      assert g in WithUpdates(holders, updates) <==> g in WithUpdates(holders, updates[..n]) || updates[n].groupId == g;
    }
  }

  // ---- runs ----

  /** The state after a run of commit calls, rejected ones included. */
  function After(run: seq<VolumeCommit>): State {
    if run == [] then State(map[], [], map[])
    else
      var s := After(run[..|run| - 1]);
      match Committed(s, run[|run| - 1])
      case Ok(o) => o.state
      case Err(_) => s
  }

  ghost predicate WellFormed(input: VolumeCommit) {
    CommitFault(input).None?
  }

  /** No earlier well-formed call of the run names the same execution. */
  ghost predicate IsFirst(run: seq<VolumeCommit>, i: nat)
    requires i < |run|
  {
    WellFormed(run[i]) && forall j :: 0 <= j < i && WellFormed(run[j]) ==> run[j].executionId != run[i].executionId
  }

  /** The first well-formed call of each execution, in order. */
  ghost function Accepted(run: seq<VolumeCommit>): seq<VolumeCommit> {
    if run == [] then []
    else Accepted(run[..|run| - 1]) + if IsFirst(run, |run| - 1) then [run[|run| - 1]] else []
  }

  ghost function PointsOf(inputs: seq<VolumeCommit>): seq<VolumePoint> {
    seq(|inputs|, i requires 0 <= i < |inputs| => PointOf(inputs[i]))
  }

  lemma FirstInPrefix(run: seq<VolumeCommit>, n: nat, i: nat)
    requires i < n <= |run|
    ensures IsFirst(run[..n], i) <==> IsFirst(run, i)
  {
  }

  /** The hash under an identifier is that of the first well-formed call naming it. */
  ghost predicate HeldByFirst(run: seq<VolumeCommit>, id: string, commitHash: CommitHash) {
    exists i :: 0 <= i < |run| && IsFirst(run, i) && run[i].executionId == id && commitHash == CommitHash(run[i])
  }

  lemma HeldInLonger(run: seq<VolumeCommit>, n: nat, id: string, commitHash: CommitHash)
    requires n <= |run| && HeldByFirst(run[..n], id, commitHash)
    ensures HeldByFirst(run, id, commitHash)
  {
  }

  /** What is held under an identifier is its first well-formed call; replays and conflicting
      calls leave no trace. */
  lemma {:induction false} CommitsAreFirst(run: seq<VolumeCommit>)
    ensures forall i :: 0 <= i < |run| && WellFormed(run[i]) ==> run[i].executionId in After(run).commits
    ensures forall id :: id in After(run).commits ==> HeldByFirst(run, id, After(run).commits[id])
  {
    if run != [] {
      hide CommitFault, WithUpdates, HeldByFirst, PointOf;
      var n := |run| - 1;
      CommitsAreFirst(run[..n]);
      forall id | id in After(run).commits ensures HeldByFirst(run, id, After(run).commits[id]) {
        if id in After(run[..n]).commits {
          HeldInLonger(run, n, id, After(run[..n]).commits[id]);
        } else {
          FirstIsHeld(run);
        }
      }
      assert forall i :: 0 <= i < n ==> run[..n][i] == run[i];
    }
  }

  lemma FirstIsHeld(run: seq<VolumeCommit>)
    requires run != []
    requires forall i :: 0 <= i < |run| - 1 && WellFormed(run[i]) ==>
               run[i].executionId in After(run[..|run| - 1]).commits
    ensures WellFormed(run[|run| - 1]) && run[|run| - 1].executionId !in After(run[..|run| - 1]).commits ==>
              IsFirst(run, |run| - 1)
              && HeldByFirst(run, run[|run| - 1].executionId, CommitHash(run[|run| - 1]))
  {
  }

  /** The recorded volumes are exactly those of the first well-formed calls, in order. */
  lemma {:induction false} VolumesAreAccepted(run: seq<VolumeCommit>)
    ensures After(run).volumes == PointsOf(Accepted(run))
  {
    if run != [] {
      hide CommitFault, WithUpdates, PointOf, HeldByFirst, IsFirst;
      var n := |run| - 1;
      VolumesAreAccepted(run[..n]);
      AppliedIffFirst(run);
      if IsFirst(run, n) {
        assert PointsOf(Accepted(run)) == PointsOf(Accepted(run[..n])) + [PointOf(run[n])];
      }
    }
  }

  /** The last call of a run is applied exactly when it is the first well-formed one of its execution. */
  lemma AppliedIffFirst(run: seq<VolumeCommit>)
    requires run != []
    ensures var n := |run| - 1;
            IsFirst(run, n) <==> WellFormed(run[n]) && run[n].executionId !in After(run[..n]).commits
  {
    hide CommitFault, After;
    var n := |run| - 1;
    CommitsAreFirst(run[..n]);
    assert forall i :: 0 <= i < n ==> run[..n][i] == run[i];
    if WellFormed(run[n]) && run[n].executionId in After(run[..n]).commits {
      var id := run[n].executionId;
      assert HeldByFirst(run[..n], id, After(run[..n]).commits[id]);
    }
  }

  /** Rolling volume counts each accepted execution of the window once: it is the sum over the
      first well-formed call of every execution identifier, whatever was replayed or rejected. */
  lemma RollingVolumeOfRun(run: seq<VolumeCommit>, groupId: string, asOf: int)
    ensures VolumeIn(After(run).volumes, groupId, asOf) == FirstVolume(run, |run|, groupId, asOf)
  {
    VolumesAreAccepted(run);
    VolumeOfAccepted(run, |run|, groupId, asOf);
    assert run[..|run|] == run;
  }

  /** The call names the group at a time of the closed window. */
  predicate FallsInWindow(input: VolumeCommit, groupId: string, asOf: int) {
    match WindowStart(asOf)
    case None => false
    case Some(start) => input.sellerGroupId == groupId && start <= input.timestamp && input.timestamp <= asOf
  }

  /** The numbers written in the amounts of the first calls among the first `n`, by position in the
      run, for the calls that name the group in the window. */
  ghost function FirstVolume(run: seq<VolumeCommit>, n: nat, groupId: string, asOf: int): int
    requires n <= |run|
  {
    if n == 0 then 0
    else FirstVolume(run, n - 1, groupId, asOf)
         + if IsFirst(run, n - 1) && FallsInWindow(run[n - 1], groupId, asOf)
           then WrittenNumber(run[n - 1].amount) else 0
  }

  lemma {:induction false} VolumeOfAccepted(run: seq<VolumeCommit>, n: nat, groupId: string, asOf: int)
    requires n <= |run|
    ensures VolumeIn(PointsOf(Accepted(run[..n])), groupId, asOf) == FirstVolume(run, n, groupId, asOf)
  {
    hide IsFirst, VolumeIn, InWindow, FallsInWindow, PointOf, PointsOf, Accepted, WrittenNumber, IsPositiveDecimal;
    if n == 0 {
      NoVolume(groupId, asOf);
      assert run[..0] == [];
    } else {
      VolumeOfAccepted(run, n - 1, groupId, asOf);
      PointsOneMore(run, n);
      if IsFirst(run, n - 1) {
        FirstIsDecimal(run, n - 1);
        PointCounts(run[n - 1], groupId, asOf);
        VolumeOneMore(PointsOf(Accepted(run[..n - 1])), PointOf(run[n - 1]), groupId, asOf);
      }
    }
  }

  lemma NoVolume(groupId: string, asOf: int)
    ensures VolumeIn(PointsOf(Accepted([])), groupId, asOf) == 0
  {
  }

  lemma PointsOneMore(run: seq<VolumeCommit>, n: nat)
    requires 0 < n <= |run|
    ensures var before := PointsOf(Accepted(run[..n - 1]));
            PointsOf(Accepted(run[..n])) == if IsFirst(run, n - 1) then before + [PointOf(run[n - 1])] else before
  {
    hide IsFirst, PointOf;
    assert run[..n][..n - 1] == run[..n - 1];
    FirstInPrefix(run, n, n - 1);
  }

  lemma VolumeOneMore(volumes: seq<VolumePoint>, point: VolumePoint, groupId: string, asOf: int)
    ensures VolumeIn(volumes + [point], groupId, asOf)
         == VolumeIn(volumes, groupId, asOf) + if InWindow(point, groupId, asOf) then point.amount else 0
  {
    hide InWindow;
    assert (volumes + [point])[..|volumes|] == volumes;
  }

  /** The point of a call counts in the window if the call does, at the number that it writes. */
  lemma PointCounts(input: VolumeCommit, groupId: string, asOf: int)
    requires IsPositiveDecimal(input.amount)
    ensures PointOf(input).amount == WrittenNumber(input.amount)
    ensures InWindow(PointOf(input), groupId, asOf) <==> FallsInWindow(input, groupId, asOf)
  {
    hide WindowStart;
    ValueIsWrittenNumber(input.amount);
  }

  lemma FirstIsDecimal(run: seq<VolumeCommit>, i: nat)
    requires i < |run| && IsFirst(run, i)
    ensures IsPositiveDecimal(run[i].amount)
  {
  }

  // ---- what a single call comes to ----

  /** A commit passes exactly when its execution is a 32-byte identifier, the seller's group is not
      blank, the time is a timestamp, the amount a positive decimal, and the holder updates name
      different groups, none of them blank. */
  lemma CommitPassesExactlyWhen(input: VolumeCommit)
    ensures CommitFault(input).None? <==>
              && IsBytes32(input.executionId) && !IsBlank(input.sellerGroupId)
              && 1 <= input.timestamp <= 9_007_199_254_740_991
              && (exists n: nat :: n > 0 && input.amount == Decimal(n))
              && (forall i :: 0 <= i < |Updates(input)| ==> !IsBlank(Updates(input)[i].groupId))
              && (forall i, j :: 0 <= i < j < |Updates(input)| ==>
                    Updates(input)[i].groupId != Updates(input)[j].groupId)
  {
    hide IsBytes32, IsBlank, IsPositiveDecimal, Decimal, DecimalValue;
    if IsPositiveDecimal(input.amount) {
      DecimalsAreWritten(input.amount);
      assert input.amount == Decimal(DecimalValue(input.amount));
    }
    if n: nat :| n > 0 && input.amount == Decimal(n) {
      DecimalDenotes(n);
    }
  }

  /** Which fault is reported: the first in the order of the checks. */
  lemma CommitFaultExactly(input: VolumeCommit)
    ensures var fault := CommitFault(input);
            && (fault == Some(BadExecutionId) <==> !IsBytes32(input.executionId))
            && (fault == Some(SellerGroupRequired) <==>
                  IsBytes32(input.executionId) && IsBlank(input.sellerGroupId))
            && (fault == Some(BadTimestamp) <==>
                  IsBytes32(input.executionId) && !IsBlank(input.sellerGroupId) && !IsTimestamp(input.timestamp))
            && (fault == Some(BadAmount) <==>
                  && IsBytes32(input.executionId) && !IsBlank(input.sellerGroupId) && IsTimestamp(input.timestamp)
                  && !IsPositiveDecimal(input.amount))
            && (fault.Some? ==> fault.value in {BadExecutionId, SellerGroupRequired, BadTimestamp, BadAmount,
                                                DuplicateHolderGroup})
  {
    hide IsBytes32, IsBlank, IsPositiveDecimal, IsTimestamp, UniqueGroups;
  }

  /** A call is applied if it is the first well-formed one of its execution, recognised as a replay if
      it repeats that one, and rejected as conflicting if it differs from it. */
  lemma ReceiptTells(run: seq<VolumeCommit>)
    requires run != [] && WellFormed(run[|run| - 1])
    ensures var n := |run| - 1;
            var res := Committed(After(run[..n]), run[n]);
            && (IsFirst(run, n) ==> res.Ok? && res.value.receipt == Receipt(true, CommitHash(run[n])))
            && (!IsFirst(run, n) ==>
                  exists i :: 0 <= i < n && IsFirst(run, i) && run[i].executionId == run[n].executionId
                    && (if run[i] == run[n] then res.Ok? && res.value.receipt == Receipt(false, CommitHash(run[n]))
                        else res == Err(ConflictingReplay)))
  {
    hide CommitFault, After, WithUpdates, PointOf;
    var n := |run| - 1;
    AppliedIffFirst(run);
    CommitsAreFirst(run[..n]);
    if !IsFirst(run, n) {
      var id := run[n].executionId;
      var i :| 0 <= i < n && IsFirst(run[..n], i) && run[..n][i].executionId == id
               && After(run[..n]).commits[id] == CommitHash(run[..n][i]);
      FirstInPrefix(run, n, i);
      assert run[..n][i] == run[i];
    }
  }

  /** Accepted executions carry distinct identifiers. */
  lemma {:induction false} AcceptedAreDistinct(run: seq<VolumeCommit>)
    ensures forall i, j :: 0 <= i < j < |Accepted(run)| ==> Accepted(run)[i].executionId != Accepted(run)[j].executionId
    ensures forall input :: input in Accepted(run) ==> input in run && WellFormed(input)
  {
    if run != [] {
      hide CommitFault;
      var n := |run| - 1;
      AcceptedAreDistinct(run[..n]);
      forall input | input in Accepted(run[..n]) && IsFirst(run, n) ensures input.executionId != run[n].executionId {
        var j :| 0 <= j < n && run[..n][j] == input;
        assert run[j] == input;
      }
    }
  }
}
