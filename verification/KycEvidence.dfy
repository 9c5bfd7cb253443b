/** Provider-neutral KYC evidence: assessments, the store of current evidence, and the refresh
    that publishes to it. */
module KycEvidence {
  import opened Results
  import opened Checks

  datatype Status = Active | Ineligible | Revoked

  datatype FactStatus = Verified | NotVerified

  datatype SanctionsStatus = Clear | Hit

  datatype Facts = Facts(
    kyc: FactStatus, sanctions: SanctionsStatus,
    accreditedInvestor: Option<FactStatus>, qualifiedPurchaser: Option<FactStatus>, jurisdiction: Option<string>)

  datatype Assessment = Assessment(
    providerId: string, schemaVersion: string, assessmentRefHash: string, sourceEvidenceHash: string,
    subject: string, identity: Option<string>, asset: string, facts: Facts,
    observedAt: int, validUntil: int, status: Status)

  datatype Request = Request(subject: string, identity: Option<string>, asset: string, requestRefHash: string)

  /** The evidence hash, as a free (hence injective) function of the normalised assessment. */
  datatype EvidenceHash = EvidenceHash(normalized: Assessment)

  datatype Evidence = Evidence(
    assessment: Assessment, evidenceHash: EvidenceHash, materializedAt: int, eligible: bool)

  datatype Reason =
    | ProviderUnavailable | ProviderTimeout | ProviderIncompatible | MalformedProviderResult
    | BindingMismatch | StaleOrFuture | RevokedStatus | IneligibleStatus | SanctionsHit | KycNotVerified
    | StoreConflict | AuditUnavailable
    | UncaughtBadClock  // not a reported reason: the call itself throws

  // ---- validation and normalisation ----

  predicate IsSlugChar(c: char, extra: string) {
    '0' <= c <= '9' || 'a' <= c <= 'z' || c in extra
  }

  predicate IsProviderId(s: string) {
    1 <= |s| <= 64 && IsSlugChar(s[0], "") && forall i :: 1 <= i < |s| ==> IsSlugChar(s[i], "._-")
  }

  predicate IsSchemaVersion(s: string) {
    && 1 <= |s| <= 64 && IsSlugChar(LowerChar(s[0]), "")
    && forall i :: 1 <= i < |s| ==> IsSlugChar(LowerChar(s[i]), "._:-")
  }

  predicate IsUpper(c: char) { 'A' <= c <= 'Z' }

  /** A country code, optionally with a subdivision. */
  predicate IsJurisdiction(s: string) {
    && |s| >= 2 && IsUpper(s[0]) && IsUpper(s[1])
    && (|s| == 2
        || (4 <= |s| <= 6 && s[2] == '-' && forall i :: 3 <= i < |s| ==> IsUpper(s[i]) || '0' <= s[i] <= '9'))
  }

  predicate ValidAssessment(a: Assessment) {
    && IsProviderId(a.providerId) && IsSchemaVersion(a.schemaVersion)
    && IsBytes32(a.assessmentRefHash) && IsBytes32(a.sourceEvidenceHash)
    && IsAddress(a.subject) && (a.identity.Some? ==> IsAddress(a.identity.value)) && IsAddress(a.asset)
    && IsTimestamp(a.observedAt) && IsTimestamp(a.validUntil) && a.validUntil > a.observedAt
    && (a.facts.jurisdiction.Some? ==> IsJurisdiction(a.facts.jurisdiction.value))
  }

  predicate ValidRequest(r: Request) {
    && IsAddress(r.subject) && (r.identity.Some? ==> IsAddress(r.identity.value))
    && IsAddress(r.asset) && IsBytes32(r.requestRefHash)
  }

  function LowerOption(s: Option<string>): Option<string> {
    if s.Some? then Some(Lower(s.value)) else None
  }

  /** Hexadecimal fields in lower case. */
  function Normalized(a: Assessment): Assessment {
    a.(assessmentRefHash := Lower(a.assessmentRefHash), sourceEvidenceHash := Lower(a.sourceEvidenceHash),
       subject := Lower(a.subject), identity := LowerOption(a.identity), asset := Lower(a.asset))
  }

  /** Why an assessment does not make its subject eligible, if it does not. */
  function IneligibleBecause(a: Assessment): Option<Reason> {
    if a.status.Revoked? then Some(RevokedStatus)
    else if a.status.Ineligible? then Some(IneligibleStatus)
    else if !a.facts.sanctions.Clear? then Some(SanctionsHit)
    else if !a.facts.kyc.Verified? then Some(KycNotVerified)
    else if a.facts.accreditedInvestor == Some(NotVerified) || a.facts.qualifiedPurchaser == Some(NotVerified) then
      Some(IneligibleStatus)
    else None
  }

  predicate ValidEvidence(e: Evidence) {
    && ValidAssessment(e.assessment) && IsTimestamp(e.materializedAt)
    && (e.eligible <==> IneligibleBecause(e.assessment).None?)
    && e.evidenceHash == EvidenceHash(Normalized(e.assessment))
  }

  // ---- the store ----

  /** Canonical JSON of these four fields identifies a slot; distinct fields print differently. */
  datatype StoreKey = StoreKey(providerId: string, subject: string, identity: Option<string>, asset: string)

  function KeyOf(a: Assessment): StoreKey {
    StoreKey(a.providerId, Lower(a.subject), LowerOption(a.identity), Lower(a.asset))
  }

  /** Provider identifiers contain no colon, so the joined text stands for the pair. */
  datatype AssessmentKey = AssessmentKey(providerId: string, assessmentRefHash: string)

  function AssessmentKeyOf(a: Assessment): AssessmentKey {
    AssessmentKey(a.providerId, a.assessmentRefHash)
  }

  datatype Store = Store(current: map<StoreKey, Evidence>, byAssessment: map<AssessmentKey, EvidenceHash>)

  datatype StoreError = InvalidEvidence | ConflictingAssessment | StaleAssessment

  datatype Replacement = Replacement(store: Store, stored: Evidence, applied: bool)

  function StatusRank(s: Status): int {
    match s
    case Active => 1
    case Ineligible => 2
    case Revoked => 3
  }

  predicate CanReplace(previous: Evidence, next: Evidence) {
    if next.assessment.observedAt > previous.assessment.observedAt then true
    else if next.assessment.observedAt < previous.assessment.observedAt then false
    else StatusRank(next.assessment.status) > StatusRank(previous.assessment.status)
  }

  function Replaced(s: Store, e: Evidence): Result<Replacement, StoreError> {
    var key := KeyOf(e.assessment);
    var assessmentKey := AssessmentKeyOf(e.assessment);
    if !ValidEvidence(e) then Err(InvalidEvidence)
    else if assessmentKey in s.byAssessment && s.byAssessment[assessmentKey] != e.evidenceHash then
      Err(ConflictingAssessment)
    else if key in s.current && s.current[key].evidenceHash == e.evidenceHash then
      Ok(Replacement(s, s.current[key], false))
    else if key in s.current && !CanReplace(s.current[key], e) then Err(StaleAssessment)
    else Ok(Replacement(Store(s.current[key := e], s.byAssessment[assessmentKey := e.evidenceHash]), e, true))
  }

  class InMemoryKycEvidenceStore {
    var currentByKey: map<StoreKey, Evidence>
    var evidenceByAssessment: map<AssessmentKey, EvidenceHash>

    function Contents(): Store
      reads this
    {
      Store(currentByKey, evidenceByAssessment)
    }

    constructor ()
      ensures Contents() == Store(map[], map[])
    {
      currentByKey := map[];
      evidenceByAssessment := map[];
    }

    method ReplaceCurrent(snapshot: Evidence) returns (res: Result<(Evidence, bool), StoreError>)
      modifies this
      ensures match Replaced(old(Contents()), snapshot)
              case Ok(r) => Contents() == r.store && res == Ok((r.stored, r.applied))
              case Err(e) => Contents() == old(Contents()) && res == Err(e)
    {
      if !ValidEvidence(snapshot) {
        return Err(InvalidEvidence);
      }
      var key := KeyOf(snapshot.assessment);
      var assessmentKey := AssessmentKeyOf(snapshot.assessment);
      if assessmentKey in evidenceByAssessment && evidenceByAssessment[assessmentKey] != snapshot.evidenceHash {
        return Err(ConflictingAssessment);
      }
      if key in currentByKey {
        var existing := currentByKey[key];
        if existing.evidenceHash == snapshot.evidenceHash {
          return Ok((existing, false));
        }
        if !CanReplace(existing, snapshot) {
          return Err(StaleAssessment);
        }
      }
      currentByKey := currentByKey[key := snapshot];
      evidenceByAssessment := evidenceByAssessment[assessmentKey := snapshot.evidenceHash];
      return Ok((snapshot, true));
    }
  }

  // ---- refreshing ----

  datatype Capability = CanAccredit | CanQualify | CanLocate

  datatype Policy = Policy(
    providerId: string, schemaVersions: seq<string>, capabilities: set<Capability>,
    maxFutureSkew: int, freshness: int, strictAudit: bool, hasAudit: bool, hasIncident: bool)

  /** What the outside world answers during a refresh. */
  datatype Answers = Answers(
    now: int, assessment: Result<Assessment, Reason>, auditSucceeds: bool, failureAuditSucceeds: bool)

  datatype Effect =
    | AuditAttempt(eligible: bool, reason: Option<Reason>, succeeded: bool)
    | StoreCall(snapshot: Evidence)
    | Incident(failure: Reason)

  datatype Verdict = Verdict(outcome: Result<Evidence, Reason>, store: Store, effects: seq<Effect>)

  predicate MatchesMetadata(a: Assessment, p: Policy) {
    && a.providerId == p.providerId && a.schemaVersion in p.schemaVersions
    && (a.facts.accreditedInvestor.Some? ==> CanAccredit in p.capabilities)
    && (a.facts.qualifiedPurchaser.Some? ==> CanQualify in p.capabilities)
    && (a.facts.jurisdiction.Some? ==> CanLocate in p.capabilities)
  }

  predicate MatchesRequest(a: Assessment, r: Request) {
    a.subject == Lower(r.subject) && a.identity == LowerOption(r.identity) && a.asset == Lower(r.asset)
  }

  predicate IsFresh(a: Assessment, now: int, maxFutureSkew: int, freshness: int) {
    a.observedAt <= now + maxFutureSkew && now - a.observedAt <= freshness && a.validUntil > now
  }

  function MakeEvidence(a: Assessment, now: int): Evidence {
    Evidence(a, EvidenceHash(Normalized(a)), now, IneligibleBecause(a).None?)
  }

  /** What a stored snapshot must satisfy to be reported. */
  predicate ConfirmsSnapshot(stored: Evidence, expected: Evidence, r: Request, p: Policy, now: int) {
    && ValidEvidence(stored) && MatchesRequest(stored.assessment, r)
    && stored.assessment.providerId == expected.assessment.providerId
    && stored.assessment.schemaVersion == expected.assessment.schemaVersion
    && stored.assessment.assessmentRefHash == expected.assessment.assessmentRefHash
    && stored.assessment.sourceEvidenceHash == expected.assessment.sourceEvidenceHash
    && stored.evidenceHash == expected.evidenceHash
    && stored.eligible == expected.eligible
    && IsFresh(stored.assessment, now, p.maxFutureSkew, p.freshness)
  }

  /** Failures are audited and then raised as incidents, both on a best-effort basis. */
  function FailWith(s: Store, reason: Reason, p: Policy, w: Answers, effects: seq<Effect>): Verdict {
    Verdict(Err(reason), s,
            effects + (if p.hasAudit then [AuditAttempt(false, Some(reason), w.failureAuditSucceeds)] else [])
                    + (if p.hasIncident then [Incident(reason)] else []))
  }

  /** Hands the snapshot to the store and accepts only its confirmation. */
  function Publish(
      s: Store, snapshot: Evidence, r: Request, p: Policy, w: Answers, failure: Option<Reason>, effects: seq<Effect>)
    : Verdict
  {
    var called := effects + [StoreCall(snapshot)];
    match Replaced(s, snapshot)
    case Err(_) => FailWith(s, StoreConflict, p, w, called)
    case Ok(rep) =>
      if !ConfirmsSnapshot(rep.stored, snapshot, r, p, w.now) then FailWith(rep.store, StoreConflict, p, w, called)
      else if failure.Some? then FailWith(rep.store, failure.value, p, w, called)
      else Verdict(Ok(rep.stored), rep.store, called)
  }

  /** Success is audited before it is published. */
  function AuditThenPublish(s: Store, snapshot: Evidence, r: Request, p: Policy, w: Answers): Verdict {
    var attempt := if p.hasAudit then [AuditAttempt(true, None, w.auditSucceeds)] else [];
    if p.strictAudit && !(p.hasAudit && w.auditSucceeds) then FailWith(s, AuditUnavailable, p, w, attempt)
    else Publish(s, snapshot, r, p, w, None, attempt)
  }

  function Refreshed(s: Store, r: Request, p: Policy, w: Answers): Verdict {
    if !ValidRequest(r) then FailWith(s, MalformedProviderResult, p, w, [])
    else match w.assessment
      case Err(reason) => FailWith(s, reason, p, w, [])
      case Ok(raw) =>
        if !ValidAssessment(raw) then FailWith(s, MalformedProviderResult, p, w, [])
        else
          var a := Normalized(raw);
          if !MatchesMetadata(a, p) then FailWith(s, ProviderIncompatible, p, w, [])
          else if !MatchesRequest(a, r) then FailWith(s, BindingMismatch, p, w, [])
          else if !IsFresh(a, w.now, p.maxFutureSkew, p.freshness) then FailWith(s, StaleOrFuture, p, w, [])
          else if !IsTimestamp(w.now) then Verdict(Err(UncaughtBadClock), s, [])
          else if IneligibleBecause(a).Some? then
            Publish(s, MakeEvidence(a, w.now), r, p, w, IneligibleBecause(a), [])
          else AuditThenPublish(s, MakeEvidence(a, w.now), r, p, w)
  }

  class KycEvidenceCoordinator {
    const policy: Policy
    const store: InMemoryKycEvidenceStore

    constructor (policy: Policy, store: InMemoryKycEvidenceStore)
      ensures this.policy == policy && this.store == store
    {
      this.policy := policy;
      this.store := store;
    }

    /** The best-effort audit and incident of a failure. */
    method Fail(reason: Reason, w: Answers, effects: seq<Effect>)
        returns (outcome: Result<Evidence, Reason>, trail: seq<Effect>)
      ensures forall s :: Verdict(outcome, s, trail) == FailWith(s, reason, policy, w, effects)
    {
      trail := effects;
      if policy.hasAudit {
        trail := trail + [AuditAttempt(false, Some(reason), w.failureAuditSucceeds)];
      } else {
        assert effects + [] == effects;
      }
      if policy.hasIncident {
        trail := trail + [Incident(reason)];
      } else {
        assert trail + [] == trail;
      }
      outcome := Err(reason);
    }

    method Refresh(r: Request, w: Answers) returns (outcome: Result<Evidence, Reason>, effects: seq<Effect>)
      modifies store
      ensures Verdict(outcome, store.Contents(), effects) == Refreshed(old(store.Contents()), r, policy, w)
    {
      effects := [];
      if !ValidRequest(r) {
        outcome, effects := Fail(MalformedProviderResult, w, effects);
        return;
      }
      if w.assessment.Err? {
        outcome, effects := Fail(w.assessment.error, w, effects);
        return;
      }
      if !ValidAssessment(w.assessment.value) {
        outcome, effects := Fail(MalformedProviderResult, w, effects);
        return;
      }
      var assessment := Normalized(w.assessment.value);
      if !MatchesMetadata(assessment, policy) {
        outcome, effects := Fail(ProviderIncompatible, w, effects);
        return;
      }
      if !MatchesRequest(assessment, r) {
        outcome, effects := Fail(BindingMismatch, w, effects);
        return;
      }
      if !IsFresh(assessment, w.now, policy.maxFutureSkew, policy.freshness) {
        outcome, effects := Fail(StaleOrFuture, w, effects);
        return;
      }
      if !IsTimestamp(w.now) {
        outcome := Err(UncaughtBadClock);
        return;
      }
      var snapshot := MakeEvidence(assessment, w.now);
      var failure := IneligibleBecause(assessment);
      if failure.None? {
        if policy.hasAudit {
          effects := effects + [AuditAttempt(true, None, w.auditSucceeds)];
        }
        if policy.strictAudit && !(policy.hasAudit && w.auditSucceeds) {
          outcome, effects := Fail(AuditUnavailable, w, effects);
          return;
        }
      }
      var published := store.ReplaceCurrent(snapshot);
      effects := effects + [StoreCall(snapshot)];
      if published.Err? || !ConfirmsSnapshot(published.value.0, snapshot, r, policy, w.now) {
        outcome, effects := Fail(StoreConflict, w, effects);
        return;
      }
      if failure.Some? {
        outcome, effects := Fail(failure.value, w, effects);
        return;
      }
      outcome := Ok(published.value.0);
    }
  }
}
