/** The order in which evidence replaces evidence, and what refreshes may report. */
module KycTheorems {
  import opened Results
  import opened Checks
  import opened KycEvidence

  /** Later observations outrank earlier ones; at the same instant the graver status does: revoked
      over anything else, ineligible over active. */
  predicate Precedes(a: Evidence, b: Evidence) {
    || a.assessment.observedAt < b.assessment.observedAt
    || (a.assessment.observedAt == b.assessment.observedAt
        && match b.assessment.status
           case Revoked => !a.assessment.status.Revoked?
           case Ineligible => a.assessment.status.Active?
           case Active => false)
  }

  /** Every slot holds valid evidence of its own. */
  ghost predicate StoreOk(s: Store) {
    forall k :: k in s.current ==> KeyOf(s.current[k].assessment) == k && ValidEvidence(s.current[k])
  }

  /** Evidence is applied exactly when it is valid, no other evidence is known for its
      assessment, and its slot is empty or holds evidence that precedes it. */
  lemma AppliedIffPrecedes(s: Store, e: Evidence)
    requires StoreOk(s)
    ensures Replaced(s, e).Ok? && Replaced(s, e).value.applied <==>
              && ValidEvidence(e)
              && (AssessmentKeyOf(e.assessment) in s.byAssessment ==>
                    s.byAssessment[AssessmentKeyOf(e.assessment)] == e.evidenceHash)
              && (KeyOf(e.assessment) in s.current ==> Precedes(s.current[KeyOf(e.assessment)], e))
  {
    hide ValidAssessment, KeyOf;
    var key := KeyOf(e.assessment);
    if key in s.current && ValidEvidence(e) && s.current[key].evidenceHash == e.evidenceHash {
      assert Normalized(s.current[key].assessment) == Normalized(e.assessment);
    }
  }

  /** What a submission does: it is refused as invalid, conflicting or stale, or confirmed by the very
      evidence that is stored, or else put into its slot and remembered for its assessment. */
  lemma ReplacedExactly(s: Store, e: Evidence)
    requires StoreOk(s)
    ensures var a := e.assessment;
            var slot := StoreKey(a.providerId, Lower(a.subject), LowerOption(a.identity), Lower(a.asset));
            var seen := AssessmentKey(a.providerId, a.assessmentRefHash);
            Replaced(s, e) ==
            if !ValidEvidence(e) then Err(InvalidEvidence)
            else if seen in s.byAssessment && s.byAssessment[seen] != e.evidenceHash then Err(ConflictingAssessment)
            else if slot !in s.current || Precedes(s.current[slot], e) then
              Ok(Replacement(Store(s.current[slot := e], s.byAssessment[seen := e.evidenceHash]), e, true))
            else if s.current[slot].evidenceHash == e.evidenceHash then Ok(Replacement(s, s.current[slot], false))
            else Err(StaleAssessment)
  {
    hide ValidAssessment, Lower;
    CanReplaceIsPrecedes(s, e);
    if KeyOf(e.assessment) in s.current && ValidEvidence(e) {
      SameHashNeverOutranks(s.current[KeyOf(e.assessment)], e);
    }
  }

  function Submitted(s: Store, e: Evidence): Store {
    match Replaced(s, e)
    case Ok(r) => r.store
    case Err(_) => s
  }

  function After(s: Store, run: seq<Evidence>): Store {
    if run == [] then s else Submitted(After(s, run[..|run| - 1]), run[|run| - 1])
  }

  /** A submission leaves every slot as it was, or puts evidence there that strictly outranks it. */
  lemma SubmissionAdvances(s: Store, e: Evidence, k: StoreKey)
    requires StoreOk(s)
    ensures StoreOk(Submitted(s, e))
    ensures k in s.current ==>
              && k in Submitted(s, e).current
              && (Submitted(s, e).current[k] == s.current[k]
                  || (Submitted(s, e).current[k] == e && Precedes(s.current[k], e)))
  {
    hide ValidAssessment, Normalized;
  }

  /** Over any run of submissions a slot's evidence is either untouched or strictly outranked. */
  lemma {:induction false} RunAdvances(s: Store, run: seq<Evidence>, k: StoreKey)
    requires StoreOk(s) && k in s.current
    ensures StoreOk(After(s, run)) && k in After(s, run).current
    ensures After(s, run).current[k] == s.current[k] || Precedes(s.current[k], After(s, run).current[k])
  {
    hide StoreOk, Submitted;
    if run != [] {
      RunAdvances(s, run[..|run| - 1], k);
      SubmissionAdvances(After(s, run[..|run| - 1]), run[|run| - 1], k);
    }
  }

  // ---- any arrival order ----

  predicate EmptyStore(s: Store) {
    s == Store(map[], map[])
  }

  /** No two valid submissions give different evidence for one assessment. */
  ghost predicate NoConflicts(run: seq<Evidence>) {
    forall i, j :: 0 <= i < |run| && 0 <= j < |run| && ValidEvidence(run[i]) && ValidEvidence(run[j])
                   && AssessmentKeyOf(run[i].assessment) == AssessmentKeyOf(run[j].assessment) ==>
      run[i].evidenceHash == run[j].evidenceHash
  }

  /** What the store holds was submitted, and known hashes were submitted for their assessments. */
  ghost predicate FromRun(s: Store, run: seq<Evidence>) {
    && (forall k :: k in s.current ==> s.current[k] in run)
    && (forall a :: a in s.byAssessment ==>
          exists i :: 0 <= i < |run| && ValidEvidence(run[i]) && AssessmentKeyOf(run[i].assessment) == a
                      && run[i].evidenceHash == s.byAssessment[a])
  }

  /** The slot of every valid submission holds evidence that it does not outrank. */
  ghost predicate HoldsMaxima(s: Store, run: seq<Evidence>) {
    forall i :: 0 <= i < |run| && ValidEvidence(run[i]) ==>
      KeyOf(run[i].assessment) in s.current && !Precedes(s.current[KeyOf(run[i].assessment)], run[i])
  }

  lemma FromRunLonger(s: Store, run: seq<Evidence>, e: Evidence)
    requires StoreOk(s) && FromRun(s, run)
    ensures FromRun(Submitted(s, e), run + [e])
  {
    hide ValidEvidence, CanReplace, KeyOf, AssessmentKeyOf;
    var t, longer := Submitted(s, e), run + [e];
    forall a | a in t.byAssessment
      ensures exists i :: 0 <= i < |longer| && ValidEvidence(longer[i]) && AssessmentKeyOf(longer[i].assessment) == a
                          && longer[i].evidenceHash == t.byAssessment[a]
    {
      if t != s && a == AssessmentKeyOf(e.assessment) {
        assert longer[|run|] == e;
      } else {
        var i :| 0 <= i < |run| && ValidEvidence(run[i]) && AssessmentKeyOf(run[i].assessment) == a
                 && run[i].evidenceHash == s.byAssessment[a];
        assert longer[i] == run[i];
      }
    }
  }

  lemma NotOutranked(s: Store, run: seq<Evidence>, e: Evidence, d: Evidence)
    requires StoreOk(s) && FromRun(s, run) && NoConflicts(run + [e])
    requires d == e || (KeyOf(d.assessment) in s.current && !Precedes(s.current[KeyOf(d.assessment)], d))
    requires ValidEvidence(d)
    ensures KeyOf(d.assessment) in Submitted(s, e).current
    ensures !Precedes(Submitted(s, e).current[KeyOf(d.assessment)], d)
  {
    hide ValidEvidence, KeyOf, AssessmentKeyOf;
    var longer := run + [e];
    var a := AssessmentKeyOf(e.assessment);
    assert longer[|run|] == e;
    if a in s.byAssessment && ValidEvidence(e) {
      var i :| 0 <= i < |run| && ValidEvidence(run[i]) && AssessmentKeyOf(run[i].assessment) == a
               && run[i].evidenceHash == s.byAssessment[a];
      assert longer[i] == run[i];
    }
    AppliedIffPrecedes(s, e);
  }

  lemma MaximaLonger(s: Store, run: seq<Evidence>, e: Evidence)
    requires StoreOk(s) && FromRun(s, run) && HoldsMaxima(s, run) && NoConflicts(run + [e])
    ensures HoldsMaxima(Submitted(s, e), run + [e])
  {
    hide StoreOk, FromRun, NoConflicts, ValidEvidence, Precedes, Submitted, KeyOf;
    var longer := run + [e];
    forall i | 0 <= i < |longer| && ValidEvidence(longer[i])
      ensures KeyOf(longer[i].assessment) in Submitted(s, e).current
              && !Precedes(Submitted(s, e).current[KeyOf(longer[i].assessment)], longer[i])
    {
      assert i < |run| ==> longer[i] == run[i];
      NotOutranked(s, run, e, longer[i]);
    }
  }

  lemma NoConflictsInFront(run: seq<Evidence>, n: nat)
    requires n <= |run| && NoConflicts(run)
    ensures NoConflicts(run[..n])
  {
    hide ValidEvidence, AssessmentKeyOf;
    assert forall i :: 0 <= i < n ==> run[..n][i] == run[i];
  }

  /** Without conflicting assessments, whatever the arrival order, each slot ends up holding a
      submission that none of its valid submissions outranks. */
  lemma {:induction false} CurrentIsMaximum(s0: Store, run: seq<Evidence>)
    requires EmptyStore(s0) && NoConflicts(run)
    ensures StoreOk(After(s0, run)) && FromRun(After(s0, run), run) && HoldsMaxima(After(s0, run), run)
  {
    if run != [] {
      hide StoreOk, FromRun, HoldsMaxima, NoConflicts, Submitted, KeyOf;
      var n := |run| - 1;
      var s := After(s0, run[..n]);
      assert run == run[..n] + [run[n]];
      NoConflictsInFront(run, n);
      CurrentIsMaximum(s0, run[..n]);
      FromRunLonger(s, run[..n], run[n]);
      MaximaLonger(s, run[..n], run[n]);
      SubmissionAdvances(s, run[n], KeyOf(run[n].assessment));
    }
  }

  /** Hence the arrival order decides neither which slots are filled nor how high their
      evidence ranks. */
  lemma ArrivalOrderIrrelevant(s0: Store, a: seq<Evidence>, b: seq<Evidence>, k: StoreKey)
    requires EmptyStore(s0) && multiset(a) == multiset(b) && NoConflicts(a) && NoConflicts(b)
    ensures k in After(s0, a).current <==> k in After(s0, b).current
    ensures k in After(s0, a).current ==>
              && !Precedes(After(s0, a).current[k], After(s0, b).current[k])
              && !Precedes(After(s0, b).current[k], After(s0, a).current[k])
  {
    CurrentIsMaximum(s0, a);
    CurrentIsMaximum(s0, b);
    hide StoreOk, FromRun, HoldsMaxima, After, Precedes;
    if k in After(s0, a).current {
      HeldElsewhere(s0, a, b, k);
    }
    if k in After(s0, b).current {
      HeldElsewhere(s0, b, a, k);
    }
  }

  lemma HeldElsewhere(s0: Store, a: seq<Evidence>, b: seq<Evidence>, k: StoreKey)
    requires multiset(a) == multiset(b) && k in After(s0, a).current
    requires StoreOk(After(s0, a)) && FromRun(After(s0, a), a) && HoldsMaxima(After(s0, b), b)
    ensures k in After(s0, b).current && !Precedes(After(s0, b).current[k], After(s0, a).current[k])
  {
    hide ValidEvidence, KeyOf, Precedes, After;
    var e := After(s0, a).current[k];
    assert e in multiset(a);
    var i :| 0 <= i < |b| && b[i] == e;
    assert ValidEvidence(b[i]);
  }

  // ---- refreshes ----

  /** An eligible report is confirmed by the store: the slot held evidence with the reported
      hash, or was replaced by evidence that outranks what it held. */
  lemma EligibleReport(s: Store, r: Request, p: Policy, w: Answers)
    requires StoreOk(s) && Refreshed(s, r, p, w).outcome.Ok?
    ensures var m := Refreshed(s, r, p, w).outcome.value;
            var k := KeyOf(m.assessment);
            && m.eligible && m.assessment.status.Active?
            && m.assessment.facts.sanctions.Clear? && m.assessment.facts.kyc.Verified?
            && m.assessment.facts.accreditedInvestor != Some(NotVerified)
            && m.assessment.facts.qualifiedPurchaser != Some(NotVerified)
            && k == StoreKey(p.providerId, Lower(r.subject), LowerOption(r.identity), Lower(r.asset))
            && (k in s.current ==> s.current[k] == m || Precedes(s.current[k], m))
            && k in Refreshed(s, r, p, w).store.current && Refreshed(s, r, p, w).store.current[k] == m
            && IsFresh(m.assessment, w.now, p.maxFutureSkew, p.freshness)
  {
    hide ValidAssessment, ValidEvidence, IsFresh, Lower, Precedes, CanReplace;
    var a := Normalized(w.assessment.value);
    var snapshot := MakeEvidence(a, w.now);
    LowerIdempotent(r.subject);
    LowerIdempotent(r.asset);
    if r.identity.Some? {
      LowerIdempotent(r.identity.value);
    }
    EligibleIsActive(Refreshed(s, r, p, w).outcome.value);
    AppliedIffPrecedes(s, snapshot);
  }

  // ---- which verdict ----

  predicate LetterOrDigit(c: char) {
    97 <= c as int <= 122 || 48 <= c as int <= 57
  }

  /** The shapes of identifiers: bounded slugs, of which versions may use capitals and colons, and
      country codes of two capitals with an optional subdivision of up to three capitals or digits. */
  lemma IdentifierShapes(s: string)
    ensures IsProviderId(s) <==>
              && 1 <= |s| <= 64 && LetterOrDigit(s[0])
              && forall i :: 1 <= i < |s| ==> LetterOrDigit(s[i]) || s[i] in "._-"
    ensures IsSchemaVersion(s) <==>
              && 1 <= |s| <= 64 && LetterOrDigit(LowerChar(s[0]))
              && forall i :: 1 <= i < |s| ==> LetterOrDigit(LowerChar(s[i])) || LowerChar(s[i]) in "._:-"
    ensures IsJurisdiction(s) <==>
              && |s| in {2, 4, 5, 6} && (|s| > 2 ==> s[2] == '-')
              && forall i :: 0 <= i < |s| && i != 2 ==>
                   65 <= s[i] as int <= 90 || (i > 2 && 48 <= s[i] as int <= 57)
  {
    var extras := ["", "._-", "._:-"];
    forall c: char, i | 0 <= i < 3 ensures IsSlugChar(c, extras[i]) <==> LetterOrDigit(c) || c in extras[i] {
    }
    hide IsSlugChar, LetterOrDigit, LowerChar;
  }

  predicate SameOption(a: Option<string>, b: Option<string>) {
    a.Some? == b.Some? && (a.Some? ==> SameText(a.value, b.value))
  }

  /** A request names addresses and a 32-byte reference. */
  predicate Proper(r: Request) {
    IsAddress(r.subject) && IsAddress(r.asset) && IsBytes32(r.requestRefHash) && IsIdentity(r.identity)
  }

  predicate IsIdentity(identity: Option<string>) {
    identity == None || IsAddress(identity.value)
  }

  /** An assessment names its provider, version, references and parties in their shapes, and is valid
      for a time after its observation, from and up to safe positive integers. */
  predicate ProperAssessment(a: Assessment) {
    && IsProviderId(a.providerId) && IsSchemaVersion(a.schemaVersion)
    && IsBytes32(a.assessmentRefHash) && IsBytes32(a.sourceEvidenceHash)
    && IsAddress(a.subject) && IsIdentity(a.identity) && IsAddress(a.asset)
    && 0 < a.observedAt < a.validUntil <= MAX_SAFE_INTEGER
    && (a.facts.jurisdiction == None || IsJurisdiction(a.facts.jurisdiction.value))
  }

  /** What stops a refresh before its assessment is weighed, first hurdle first. */
  function Unfit(r: Request, p: Policy, w: Answers): Option<Reason> {
    if !Proper(r) then Some(MalformedProviderResult)
    else match w.assessment
      case Err(reason) => Some(reason)
      case Ok(a) =>
        if !ProperAssessment(a) then Some(MalformedProviderResult)
        else if || a.providerId != p.providerId || a.schemaVersion !in p.schemaVersions
                || (a.facts.accreditedInvestor.Some? && CanAccredit !in p.capabilities)
                || (a.facts.qualifiedPurchaser.Some? && CanQualify !in p.capabilities)
                || (a.facts.jurisdiction.Some? && CanLocate !in p.capabilities)
        then Some(ProviderIncompatible)
        else if !(SameText(a.subject, r.subject) && SameOption(a.identity, r.identity) && SameText(a.asset, r.asset))
        then Some(BindingMismatch)
        else if || w.now + p.maxFutureSkew < a.observedAt || a.observedAt + p.freshness < w.now
                || a.validUntil <= w.now
        then Some(StaleOrFuture)
        else if !IsTimestamp(w.now) then Some(UncaughtBadClock)
        else None
  }

  /** A fact that speaks against the subject. */
  predicate Flawed(a: Assessment) {
    || !a.status.Active? || a.facts.sanctions.Hit? || a.facts.kyc.NotVerified?
    || a.facts.accreditedInvestor == Some(NotVerified) || a.facts.qualifiedPurchaser == Some(NotVerified)
  }

  /** The reasons against eligibility, over the assessment's fields. */
  lemma IneligibleExactlyWhen(a: Assessment)
    ensures IneligibleBecause(a).Some? <==> Flawed(a)
    ensures IneligibleBecause(a) == Some(RevokedStatus) <==> a.status.Revoked?
    ensures IneligibleBecause(a) == Some(SanctionsHit) <==> a.status.Active? && a.facts.sanctions.Hit?
    ensures IneligibleBecause(a) == Some(KycNotVerified) <==>
              a.status.Active? && a.facts.sanctions.Clear? && a.facts.kyc.NotVerified?
    ensures IneligibleBecause(a) == Some(IneligibleStatus) <==>
              || a.status.Ineligible?
              || (&& a.status.Active? && a.facts.sanctions.Clear? && a.facts.kyc.Verified?
                  && (a.facts.accreditedInvestor == Some(NotVerified)
                      || a.facts.qualifiedPurchaser == Some(NotVerified)))
  {
  }

  /** Strict auditing that did not come about. */
  predicate Unaudited(p: Policy, w: Answers) {
    p.strictAudit && !(p.hasAudit && w.auditSucceeds)
  }

  /** The store keeps the snapshot out: it has seen the assessment with other contents, or the slot
      holds something else that the snapshot does not outrank. */
  predicate Conflicts(s: Store, e: Evidence) {
    var a := e.assessment;
    var slot := StoreKey(a.providerId, Lower(a.subject), LowerOption(a.identity), Lower(a.asset));
    var seen := AssessmentKey(a.providerId, a.assessmentRefHash);
    || (seen in s.byAssessment && s.byAssessment[seen] != e.evidenceHash)
    || (slot in s.current && s.current[slot].assessment != a && !Precedes(s.current[slot], e))
  }

  /** The evidence a fit refresh submits. */
  function SnapshotOf(w: Answers): Evidence
    requires w.assessment.Ok?
  {
    MakeEvidence(Normalized(w.assessment.value), w.now)
  }

  /** The first hurdle that a refresh does not take, of all of them. */
  function FirstMissed(s: Store, r: Request, p: Policy, w: Answers): Option<Reason> {
    if Unfit(r, p, w).Some? then Unfit(r, p, w)
    else if !Flawed(w.assessment.value) && Unaudited(p, w) then Some(AuditUnavailable)
    else if Conflicts(s, SnapshotOf(w)) then Some(StoreConflict)
    else IneligibleBecause(w.assessment.value)
  }

  /** The whole verdict of a refresh: it reports eligibility if it takes every hurdle, and else the
      first one it missed; it submits its snapshot if it gets that far; success is audited before,
      failure audited and raised after. */
  lemma VerdictExactly(s: Store, r: Request, p: Policy, w: Answers)
    requires StoreOk(s)
    ensures var v := Refreshed(s, r, p, w);
            var missed := FirstMissed(s, r, p, w);
            var fit := Unfit(r, p, w).None?;
            var audits := fit && !Flawed(w.assessment.value);
            var submits := fit && !(audits && Unaudited(p, w));
            var silent := w.assessment.Ok? && missed == Some(UncaughtBadClock);
            && v.outcome == (if missed.Some? then Err(missed.value) else Ok(Reported(s, SnapshotOf(w))))
            && v.store == (if submits then Submitted(s, SnapshotOf(w)) else s)
            && v.effects == (if audits && p.hasAudit then [AuditAttempt(true, None, w.auditSucceeds)] else [])
                            + (if submits then [StoreCall(SnapshotOf(w))] else [])
                            + (if missed.None? || silent then [] else FailureReports(missed.value, p, w))
  {
    hide Refreshed, Conflicts, Submitted, Reported, Flawed, FailureReports, SnapshotOf, StoreOk, ValidRequest,
      ValidAssessment, SameText, SameOption, IsTimestamp;
    if Unfit(r, p, w).Some? {
      UnfitVerdict(s, r, p, w);
    } else {
      NormalizedFlaws(w.assessment.value);
      FitVerdict(s, r, p, w);
    }
  }

  lemma UnfitVerdict(s: Store, r: Request, p: Policy, w: Answers)
    requires Unfit(r, p, w).Some?
    ensures var reason := Unfit(r, p, w).value;
            var silent := w.assessment.Ok? && reason == UncaughtBadClock;
            Refreshed(s, r, p, w) == Verdict(Err(reason), s, if silent then [] else FailureReports(reason, p, w))
  {
    hide ValidRequest, ValidAssessment, Proper, ProperAssessment, IsFresh, Normalized, MatchesMetadata, MatchesRequest,
      IneligibleBecause, Publish, AuditThenPublish, FailWith, MakeEvidence, IsTimestamp, SameText,
      SameOption, FailureReports;
    FailWithExactly(s, p, w);
    ProperExactly(r);
    if w.assessment.Ok? {
      ProperAssessmentExactly(w.assessment.value);
      FitExactly(w.assessment.value, r, p, w.now);
    }
  }

  lemma FitVerdict(s: Store, r: Request, p: Policy, w: Answers)
    requires StoreOk(s) && Unfit(r, p, w).None?
    ensures var v, e := Refreshed(s, r, p, w), SnapshotOf(w);
            var attempt := if p.hasAudit then [AuditAttempt(true, None, w.auditSucceeds)] else [];
            if Flawed(w.assessment.value) then
              v == Submission(s, e, p, w, IneligibleBecause(w.assessment.value), [])
            else if Unaudited(p, w) then
              v == Verdict(Err(AuditUnavailable), s, attempt + FailureReports(AuditUnavailable, p, w))
            else v == Submission(s, e, p, w, None, attempt)
  {
    hide ValidRequest, ValidAssessment, Proper, ProperAssessment, IsFresh, Normalized, MatchesMetadata, MatchesRequest,
      IneligibleBecause, Publish, FailWith, Conflicts, Submitted, Flawed, IsTimestamp, SameText,
      SameOption, FailureReports, StoreOk;
    FailWithExactly(s, p, w);
    ProperExactly(r);
    ProperAssessmentExactly(w.assessment.value);
    FitExactly(w.assessment.value, r, p, w.now);
    NormalizedFlaws(w.assessment.value);
    PublishExactly(s, r, p, w, IneligibleBecause(w.assessment.value), []);
    PublishExactly(s, r, p, w, None, if p.hasAudit then [AuditAttempt(true, None, w.auditSucceeds)] else []);
  }

  /** What an accepted snapshot is reported as: the slot's evidence if it rests on the same assessment,
      and else the snapshot. */
  function Reported(s: Store, e: Evidence): Evidence {
    var a := e.assessment;
    var slot := StoreKey(a.providerId, Lower(a.subject), LowerOption(a.identity), Lower(a.asset));
    if slot in s.current && s.current[slot].assessment == a then s.current[slot] else e
  }

  /** The verdict of submitting a snapshot. */
  function Submission(s: Store, e: Evidence, p: Policy, w: Answers, failure: Option<Reason>, before: seq<Effect>)
    : Verdict
  {
    var missed := if Conflicts(s, e) then Some(StoreConflict) else failure;
    Verdict(if missed.Some? then Err(missed.value) else Ok(Reported(s, e)), Submitted(s, e),
            before + [StoreCall(e)] + if missed.Some? then FailureReports(missed.value, p, w) else [])
  }

  function FailureReports(reason: Reason, p: Policy, w: Answers): seq<Effect> {
    (if p.hasAudit then [AuditAttempt(false, Some(reason), w.failureAuditSucceeds)] else [])
    + (if p.hasIncident then [Incident(reason)] else [])
  }

  /** A refresh reports eligibility exactly when nothing makes it unfit, no fact speaks against the
      subject, a strict audit succeeds and the store lets the snapshot in. */
  lemma EligibleExactlyWhen(s: Store, r: Request, p: Policy, w: Answers)
    requires StoreOk(s)
    ensures Refreshed(s, r, p, w).outcome.Ok? <==>
              && Unfit(r, p, w).None? && !Flawed(w.assessment.value) && !Unaudited(p, w)
              && !Conflicts(s, SnapshotOf(w))
  {
    hide StoreOk, Refreshed, ValidRequest, ValidAssessment, SameText, SameOption, IsTimestamp, Flawed, Conflicts,
      Unaudited, IneligibleBecause, MakeEvidence, Normalized;
    VerdictExactly(s, r, p, w);
    if w.assessment.Ok? {
      NormalizedFlaws(w.assessment.value);
    }
  }

  lemma FailWithExactly(s: Store, p: Policy, w: Answers)
    ensures forall reason, effects ::
              FailWith(s, reason, p, w, effects) == Verdict(Err(reason), s, effects + FailureReports(reason, p, w))
  {
  }

  lemma ProperExactly(r: Request)
    ensures ValidRequest(r) <==> Proper(r)
  {
  }

  lemma ProperAssessmentExactly(a: Assessment)
    ensures ValidAssessment(a) <==> ProperAssessment(a)
  {
  }

  lemma FitExactly(a: Assessment, r: Request, p: Policy, now: int)
    ensures MatchesRequest(Normalized(a), r) <==>
              SameText(a.subject, r.subject) && SameOption(a.identity, r.identity) && SameText(a.asset, r.asset)
    ensures MatchesMetadata(Normalized(a), p) <==>
              && a.providerId == p.providerId && a.schemaVersion in p.schemaVersions
              && (a.facts.accreditedInvestor.Some? ==> CanAccredit in p.capabilities)
              && (a.facts.qualifiedPurchaser.Some? ==> CanQualify in p.capabilities)
              && (a.facts.jurisdiction.Some? ==> CanLocate in p.capabilities)
    ensures IsFresh(Normalized(a), now, p.maxFutureSkew, p.freshness) <==>
              && a.observedAt <= now + p.maxFutureSkew && now <= a.observedAt + p.freshness && now < a.validUntil
  {
    hide Lower, SameText;
    LowerIgnoresCase(a.subject, r.subject);
    LowerIgnoresCase(a.asset, r.asset);
    if a.identity.Some? && r.identity.Some? {
      LowerIgnoresCase(a.identity.value, r.identity.value);
    }
  }

  lemma NormalizedFlaws(a: Assessment)
    ensures IneligibleBecause(Normalized(a)) == IneligibleBecause(a)
    ensures IneligibleBecause(a).Some? <==> Flawed(a)
  {
    hide Lower;
  }

  /** Evidence is valid exactly when its assessment is proper, its time a timestamp, its verdict that of
      the facts, and its hash that of the assessment with hexadecimal fields in lower case. */
  lemma ValidEvidenceExactly(e: Evidence)
    ensures var a := e.assessment;
            ValidEvidence(e) <==>
              && ProperAssessment(a) && 0 < e.materializedAt <= MAX_SAFE_INTEGER && (e.eligible <==> !Flawed(a))
              && e.evidenceHash == EvidenceHash(
                   a.(assessmentRefHash := Lower(a.assessmentRefHash),
                      sourceEvidenceHash := Lower(a.sourceEvidenceHash), subject := Lower(a.subject),
                      identity := LowerOption(a.identity), asset := Lower(a.asset)))
  {
    hide Lower, ValidAssessment, ProperAssessment, Flawed, IneligibleBecause;
    ProperAssessmentExactly(e.assessment);
    NormalizedFlaws(e.assessment);
  }

  /** Two assessments share their hash exactly when they agree in every field, hexadecimal ones in any
      letter case. */
  lemma SameHashExactly(a: Assessment, b: Assessment, now: int, later: int)
    ensures MakeEvidence(a, now).evidenceHash == MakeEvidence(b, later).evidenceHash <==>
              && a.providerId == b.providerId && a.schemaVersion == b.schemaVersion
              && SameText(a.assessmentRefHash, b.assessmentRefHash)
              && SameText(a.sourceEvidenceHash, b.sourceEvidenceHash)
              && SameText(a.subject, b.subject) && SameOption(a.identity, b.identity) && SameText(a.asset, b.asset)
              && a.facts == b.facts && a.observedAt == b.observedAt && a.validUntil == b.validUntil
              && a.status == b.status
  {
    hide Lower, SameText, IneligibleBecause;
    LowerIgnoresCase(a.assessmentRefHash, b.assessmentRefHash);
    LowerIgnoresCase(a.sourceEvidenceHash, b.sourceEvidenceHash);
    LowerIgnoresCase(a.subject, b.subject);
    LowerIgnoresCase(a.asset, b.asset);
    if a.identity.Some? && b.identity.Some? {
      LowerIgnoresCase(a.identity.value, b.identity.value);
    }
  }

  /** What a fit refresh submits: the assessment with its hexadecimal fields in lower case, stamped with
      the refresh's time. */
  lemma SnapshotFields(w: Answers)
    requires w.assessment.Ok? && ValidAssessment(w.assessment.value) && IsTimestamp(w.now)
    ensures var a, e := w.assessment.value, SnapshotOf(w);
            && ValidEvidence(e) && e.materializedAt == w.now && (e.eligible <==> !Flawed(a))
            && e.evidenceHash == EvidenceHash(e.assessment)
            && e.assessment == a.(assessmentRefHash := Lower(a.assessmentRefHash),
                                  sourceEvidenceHash := Lower(a.sourceEvidenceHash), subject := Lower(a.subject),
                                  identity := LowerOption(a.identity), asset := Lower(a.asset))
            && Normalized(e.assessment) == e.assessment
  {
    hide ValidAssessment, IneligibleBecause, Flawed, Lower, IsTimestamp;
    NormalizedIsValid(w.assessment.value);
    NormalizedIsNormal(w.assessment.value);
    NormalizedFlaws(w.assessment.value);
  }

  /** Publication ends in a conflict exactly when the snapshot conflicts with the store. */
  lemma PublishExactly(s: Store, r: Request, p: Policy, w: Answers, failure: Option<Reason>, effects: seq<Effect>)
    requires StoreOk(s) && w.assessment.Ok? && ValidAssessment(w.assessment.value) && IsTimestamp(w.now)
    requires MatchesRequest(SnapshotOf(w).assessment, r)
    requires IsFresh(SnapshotOf(w).assessment, w.now, p.maxFutureSkew, p.freshness)
    ensures var e := SnapshotOf(w);
            Publish(s, e, r, p, w, failure, effects) == Submission(s, e, p, w, failure, effects)
  {
    hide ValidAssessment, IsFresh, Precedes, CanReplace, Normalized, MatchesRequest, IneligibleBecause,
      ConfirmsSnapshot, FailWith, FailureReports, IsTimestamp, Flawed, Lower;
    var a, e := SnapshotOf(w).assessment, SnapshotOf(w);
    SnapshotFields(w);
    FailWithExactly(s, p, w);
    FailWithExactly(Submitted(s, e), p, w);
    NormalKeys(w);
    CanReplaceIsPrecedes(s, e);
    ConfirmsIffSame(e, a, r, p, w.now);
    if KeyOf(a) in s.current {
      SameHashNeverOutranks(s.current[KeyOf(a)], e);
      if s.current[KeyOf(a)].evidenceHash == e.evidenceHash {
        ConfirmsIffSame(s.current[KeyOf(a)], a, r, p, w.now);
      }
    }
  }

  lemma NormalKeys(w: Answers)
    requires w.assessment.Ok?
    ensures var a := SnapshotOf(w).assessment;
            && KeyOf(a) == StoreKey(a.providerId, Lower(a.subject), LowerOption(a.identity), Lower(a.asset))
            && AssessmentKeyOf(a) == AssessmentKey(a.providerId, a.assessmentRefHash)
  {
    hide Lower, IneligibleBecause;
  }

  /** Evidence with the expected hash is confirmed exactly when it is the expected assessment to
      the letter; one stored in other letter case is not. */
  lemma ConfirmsIffSame(stored: Evidence, a: Assessment, r: Request, p: Policy, now: int)
    requires ValidEvidence(stored) && stored.evidenceHash == EvidenceHash(a) && Normalized(a) == a
    requires MatchesRequest(a, r) && IsFresh(a, now, p.maxFutureSkew, p.freshness)
    ensures ConfirmsSnapshot(stored, MakeEvidence(a, now), r, p, now) <==> stored.assessment == a
  {
    hide ValidAssessment, Lower;
    assert Normalized(stored.assessment) == a;
  }

  lemma SameHashNeverOutranks(d: Evidence, e: Evidence)
    requires ValidEvidence(d) && e.evidenceHash == EvidenceHash(Normalized(e.assessment))
    ensures d.evidenceHash == e.evidenceHash ==> !Precedes(d, e)
    ensures d.assessment == e.assessment ==> d.evidenceHash == e.evidenceHash
  {
    hide ValidAssessment;
    if d.evidenceHash == e.evidenceHash {
      assert Normalized(d.assessment) == Normalized(e.assessment);
    }
  }

  /** Whatever else speaks for it, a refresh ends in a store conflict while its slot holds the same
      assessment in other letter case, as a direct submission can put it there. */
  lemma OtherLetterCaseConflicts(s: Store, r: Request, p: Policy, w: Answers)
    requires StoreOk(s) && ValidRequest(r) && w.assessment.Ok? && IsTimestamp(w.now)
    requires ValidAssessment(w.assessment.value)
    requires var a := Normalized(w.assessment.value);
             && MatchesMetadata(a, p) && MatchesRequest(a, r) && IsFresh(a, w.now, p.maxFutureSkew, p.freshness)
             && IneligibleBecause(a).None?
             && KeyOf(a) in s.current && s.current[KeyOf(a)].evidenceHash == EvidenceHash(a)
             && s.current[KeyOf(a)].assessment != a
    requires p.strictAudit ==> p.hasAudit && w.auditSucceeds
    ensures Refreshed(s, r, p, w).outcome == Err(StoreConflict) && Refreshed(s, r, p, w).store == s
  {
    hide ValidAssessment, IsFresh, Normalized, KeyOf, MatchesMetadata, MatchesRequest, IneligibleBecause,
      ConfirmsSnapshot;
    var a := Normalized(w.assessment.value);
    NormalizedIsValid(w.assessment.value);
    NormalizedIsNormal(w.assessment.value);
    ConfirmsIffSame(s.current[KeyOf(a)], a, r, p, w.now);
  }

  /** An active, clear and verified assessment of a subject. */
  function ActiveAssessment(subject: string): Assessment {
    Assessment("provider", "v1", Hex('1', 64), Hex('2', 64), subject, None, Hex('3', 40),
               Facts(Verified, Clear, None, None, None), 100, 1_000, Active)
  }

  /** Such a store and refresh exist: the subject's address was submitted in capitals, and a refresh
      on the very same assessment ends in a store conflict. */
  lemma CapitalsConflict()
    ensures var submitted := MakeEvidence(ActiveAssessment(Hex('A', 40)), 200);
            var s := Submitted(Store(map[], map[]), submitted);
            var r := Request(Hex('A', 40), None, Hex('3', 40), Hex('4', 64));
            var p := Policy("provider", ["v1"], {}, 0, 1_000, false, false, false);
            var w := Answers(200, Ok(ActiveAssessment(Hex('A', 40))), true, true);
            && Replaced(Store(map[], map[]), submitted).Ok?
            && Refreshed(s, r, p, w).outcome == Err(StoreConflict)
  {
    var s := Submitted(Store(map[], map[]), MakeEvidence(ActiveAssessment(Hex('A', 40)), 200));
    CapitalsNormalize();
    CapitalsStored();
    hide Hex, IsHexOf, Lower, Normalized, Submitted, ValidAssessment, StoreOk, Refreshed, KeyOf, MakeEvidence;
    OtherLetterCaseConflicts(s, Request(Hex('A', 40), None, Hex('3', 40), Hex('4', 64)),
                             Policy("provider", ["v1"], {}, 0, 1_000, false, false, false),
                             Answers(200, Ok(ActiveAssessment(Hex('A', 40))), true, true));
  }

  lemma CapitalsStored()
    ensures var capitals, lower := ActiveAssessment(Hex('A', 40)), ActiveAssessment(Hex('a', 40));
            var s := Submitted(Store(map[], map[]), MakeEvidence(capitals, 200));
            && Replaced(Store(map[], map[]), MakeEvidence(capitals, 200)).Ok?
            && StoreOk(s) && KeyOf(lower) in s.current
            && s.current[KeyOf(lower)] == MakeEvidence(capitals, 200)
            && s.current[KeyOf(lower)].evidenceHash == EvidenceHash(lower)
  {
    CapitalsNormalize();
    hide Hex, IsHexOf, Lower, Normalized, ValidAssessment;
  }

  lemma CapitalsNormalize()
    ensures ValidAssessment(ActiveAssessment(Hex('A', 40)))
    ensures Normalized(ActiveAssessment(Hex('A', 40))) == ActiveAssessment(Hex('a', 40))
    ensures ActiveAssessment(Hex('A', 40)) != ActiveAssessment(Hex('a', 40))
    ensures Lower(Hex('A', 40)) == Lower(Hex('a', 40)) == Hex('a', 40) && Lower(Hex('3', 40)) == Hex('3', 40)
    ensures IsHexOf(Hex('A', 40), 40) && IsHexOf(Hex('3', 40), 40) && IsHexOf(Hex('4', 64), 64)
  {
    hide IsHexOf, Lower;
    HexIsHex('A', 40);
    HexIsHex('a', 40);
    HexIsHex('1', 64);
    HexIsHex('2', 64);
    HexIsHex('3', 40);
    HexIsHex('4', 64);
    assert Hex('A', 40)[2] == 'A' && Hex('a', 40)[2] == 'a';
  }

  /** Stores start out good and stay so under submissions and refreshes, so the results above hold
      of every store that is ever used. */
  lemma {:induction false} SubmissionsKeepStoreOk(s: Store, run: seq<Evidence>)
    requires EmptyStore(s) || StoreOk(s)
    ensures StoreOk(After(s, run))
  {
    hide ValidEvidence;
    if run != [] {
      SubmissionsKeepStoreOk(s, run[..|run| - 1]);
      SubmissionAdvances(After(s, run[..|run| - 1]), run[|run| - 1], KeyOf(run[|run| - 1].assessment));
    }
  }

  lemma RefreshKeepsStoreOk(s: Store, r: Request, p: Policy, w: Answers)
    requires StoreOk(s)
    ensures StoreOk(Refreshed(s, r, p, w).store)
  {
    hide StoreOk, Refreshed, Submitted;
    RefreshIsSubmission(s, r, p, w);
    if w.assessment.Ok? {
      var e := MakeEvidence(Normalized(w.assessment.value), w.now);
      SubmissionAdvances(s, e, KeyOf(e.assessment));
    }
  }

  lemma CanReplaceIsPrecedes(s: Store, e: Evidence)
    ensures KeyOf(e.assessment) in s.current ==>
              (CanReplace(s.current[KeyOf(e.assessment)], e) <==> Precedes(s.current[KeyOf(e.assessment)], e))
  {
  }

  lemma NormalizedIsValid(a: Assessment)
    requires ValidAssessment(a)
    ensures ValidAssessment(Normalized(a))
  {
  }

  lemma NormalizedIsNormal(a: Assessment)
    ensures Normalized(Normalized(a)) == Normalized(a)
  {
    LowerIdempotent(a.assessmentRefHash);
    LowerIdempotent(a.sourceEvidenceHash);
    LowerIdempotent(a.subject);
    LowerIdempotent(a.asset);
    if a.identity.Some? {
      LowerIdempotent(a.identity.value);
    }
  }

  lemma EligibleIsActive(e: Evidence)
    ensures ValidEvidence(e) && e.eligible ==>
              && e.assessment.status.Active?
              && e.assessment.facts.sanctions.Clear? && e.assessment.facts.kyc.Verified?
              && e.assessment.facts.accreditedInvestor != Some(NotVerified)
              && e.assessment.facts.qualifiedPurchaser != Some(NotVerified)
  {
  }

  lemma LowerIdempotent(s: string)
    ensures Lower(Lower(s)) == Lower(s)
  {
  }

  /** Once revoked evidence observed at `t` is stored, then whatever is submitted later, no
      refresh of that slot reports eligibility from evidence observed at or before `t`. */
  lemma RevocationHolds(s: Store, later: seq<Evidence>, r: Request, p: Policy, w: Answers, k: StoreKey)
    requires StoreOk(s) && k in s.current && s.current[k].assessment.status.Revoked?
    requires k == StoreKey(p.providerId, Lower(r.subject), LowerOption(r.identity), Lower(r.asset))
    ensures var report := Refreshed(After(s, later), r, p, w).outcome;
            report.Ok? ==> report.value.assessment.observedAt > s.current[k].assessment.observedAt
  {
    hide StoreOk, After, Refreshed, Submitted;
    RunAdvances(s, later, k);
    if Refreshed(After(s, later), r, p, w).outcome.Ok? {
      EligibleReport(After(s, later), r, p, w);
    }
  }

  /** Under strict auditing an eligible report was audited successfully before the store was
      touched, and nothing else happened. */
  lemma AuditPrecedesPublication(s: Store, r: Request, p: Policy, w: Answers)
    requires p.strictAudit && Refreshed(s, r, p, w).outcome.Ok?
    ensures Refreshed(s, r, p, w).effects
         == [AuditAttempt(true, None, true), StoreCall(MakeEvidence(Normalized(w.assessment.value), w.now))]
  {
  }

  predicate Quiet(effects: seq<Effect>) {
    forall e :: e in effects ==> !e.Incident?
  }

  /** An eligible report without an incident, or a failure that ends in the one incident naming it. */
  predicate WellReported(v: Verdict) {
    match v.outcome
    case Ok(_) => Quiet(v.effects)
    case Err(reason) =>
      && |v.effects| > 0 && v.effects[|v.effects| - 1] == Incident(reason)
      && Quiet(v.effects[..|v.effects| - 1])
  }

  lemma FailWithReports(s: Store, reason: Reason, p: Policy, w: Answers, effects: seq<Effect>)
    requires p.hasIncident && Quiet(effects)
    ensures WellReported(FailWith(s, reason, p, w, effects))
  {
    var v := FailWith(s, reason, p, w, effects);
    assert v.effects[..|v.effects| - 1]
        == effects + if p.hasAudit then [AuditAttempt(false, Some(reason), w.failureAuditSucceeds)] else [];
  }

  lemma PublishReports(
      s: Store, snapshot: Evidence, r: Request, p: Policy, w: Answers, failure: Option<Reason>, effects: seq<Effect>)
    requires p.hasIncident && Quiet(effects)
    ensures WellReported(Publish(s, snapshot, r, p, w, failure, effects))
  {
    hide FailWith, ConfirmsSnapshot, Replaced;
    var called := effects + [StoreCall(snapshot)];
    var rep := Replaced(s, snapshot);
    FailWithReports(s, StoreConflict, p, w, called);
    if rep.Ok? {
      FailWithReports(rep.value.store, StoreConflict, p, w, called);
      if failure.Some? {
        FailWithReports(rep.value.store, failure.value, p, w, called);
      }
    }
  }

  lemma AuditThenPublishReports(s: Store, snapshot: Evidence, r: Request, p: Policy, w: Answers)
    requires p.hasIncident
    ensures WellReported(AuditThenPublish(s, snapshot, r, p, w))
  {
    hide FailWith, Publish;
    var attempt := if p.hasAudit then [AuditAttempt(true, None, w.auditSucceeds)] else [];
    FailWithReports(s, AuditUnavailable, p, w, attempt);
    PublishReports(s, snapshot, r, p, w, None, attempt);
  }

  /** With a hook in place every reported failure ends in exactly one incident that names its
      reason, and an eligible report raises none. */
  lemma FailuresRaiseOneIncident(s: Store, r: Request, p: Policy, w: Answers)
    requires p.hasIncident && IsTimestamp(w.now)
    ensures WellReported(Refreshed(s, r, p, w))
  {
    hide ValidAssessment, IsFresh, MatchesMetadata, MatchesRequest, ValidRequest, IneligibleBecause, Normalized,
      FailWith, Publish, AuditThenPublish, WellReported;
    forall reason ensures WellReported(FailWith(s, reason, p, w, [])) {
      FailWithReports(s, reason, p, w, []);
    }
    if w.assessment.Ok? {
      var e := MakeEvidence(Normalized(w.assessment.value), w.now);
      PublishReports(s, e, r, p, w, IneligibleBecause(e.assessment), []);
      AuditThenPublishReports(s, e, r, p, w);
    }
  }

  /** No refresh changes the store unless it got as far as publishing its own snapshot. */
  lemma RefreshIsSubmission(s: Store, r: Request, p: Policy, w: Answers)
    ensures Refreshed(s, r, p, w).store == s
            || (w.assessment.Ok?
                && Refreshed(s, r, p, w).store == Submitted(s, MakeEvidence(Normalized(w.assessment.value), w.now)))
  {
    hide ValidAssessment, IsFresh, MatchesMetadata, ConfirmsSnapshot, Replaced;
  }
}
