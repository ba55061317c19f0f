/**
 Verification of a signed renewal against the ledger's current record, and the
 theorem that a verified renewal is always applicable: the ledger accepts it at
 the same instant unless its renewal id was used before.
 */
module RenewalApproval {
  import opened Wrappers
  import opened Governance
  import opened AdmissionLedger

  /**
   What is read from disk.  `binds` says that the envelope's digest is the digest
   of the renewal, `genuine` that the Ed25519 signature verifies.
   */
  datatype Evidence = Evidence(
    renewal: Renewal, publicKey: Digest, keyId: string, envelope: Digest, binds: bool, genuine: bool)

  datatype ApprovalError =
    | NeedsActive | NeedsProduction | Expired | NoTrustRoot | TrustRootDiffers
    | KeyFingerprint | KeyIdentity | EnvelopeBindsOther | BadSignature | InactiveRenewalApproval
    | Mismatch(field: string) | NoExtension | PredatesTheAdmission

  /** The first field of the renewal that differs from the record. */
  function FirstMismatch(r: Renewal, current: Record): Option<string> {
    if r.deploymentId != current.deploymentId then Some("deployment_id")
    else if r.initialApprovalId != current.approvalId then Some("initial_approval_id")
    else if r.admissionId != current.admissionId then Some("admission_id")
    else if r.priorAuthorizationId != current.authorizationId then Some("prior_authorization_id")
    else if Lower(r.account) != Lower(current.account) then Some("account_address")
    else if LowerOption(r.vault) != LowerOption(current.vault) then Some("vault_address")
    else if r.manifest != current.manifest then Some("artifact_manifest_sha256")
    else if r.configuration != current.configuration then Some("configuration_sha256")
    else if r.image != current.image then Some("image_digest")
    else if r.capital != current.capital then Some("capital_limit_usd")
    else None
  }

  function CheckRecord(current: Record, expectedKey: Digest, now: nat): Option<ApprovalError> {
    if current.state != Active then Some(NeedsActive)
    else if current.stage != Production then Some(NeedsProduction)
    else if now >= current.expiresAt then Some(Expired)
    else if current.publicKey.None? then Some(NoTrustRoot)
    else if Some(expectedKey) != current.publicKey then Some(TrustRootDiffers)
    else None
  }

  function CheckEvidence(e: Evidence, current: Record, expectedKeyId: string, expectedKey: Digest, now: nat): Option<ApprovalError> {
    if e.publicKey != expectedKey then Some(KeyFingerprint)
    else if e.keyId != expectedKeyId then Some(KeyIdentity)
    else if !e.binds then Some(EnvelopeBindsOther)
    else if !e.genuine then Some(BadSignature)
    else if !e.renewal.IsActive(now) then Some(InactiveRenewalApproval)
    else if FirstMismatch(e.renewal, current).Some? then Some(Mismatch(FirstMismatch(e.renewal, current).value))
    else if e.renewal.expiresAt <= current.expiresAt then Some(NoExtension)
    else if e.renewal.approvedAt < current.admittedAt then Some(PredatesTheAdmission)
    else None
  }

  function VerifyRenewal(
    e: Evidence, current: Record, expectedKeyId: string, expectedKey: Digest, now: nat, hash: Hash
  ): (r: Result<VerifiedRenewal, ApprovalError>)
    ensures r.Ok? ==> r.value.Valid(hash)
  {
    var problem := CheckRecord(current, expectedKey, now);
    if problem.Some? then Err(problem.value)
    else
      var rejected := CheckEvidence(e, current, expectedKeyId, expectedKey, now);
      if rejected.Some? then Err(rejected.value)
      else Ok(VerifiedRenewal(hash(RenewalPayload(e.renewal, e.publicKey, e.envelope)), e.renewal, e.publicKey, e.envelope, now))
  }

  // ----- the renewals of one deployment form a duplicate-free chain -----

  lemma {:induction false} ChainHolds(rows: seq<RenewalRow>, i: nat) returns (k: nat)
    requires i < |rows|
    ensures k < |RenewalsOf(rows, rows[i].Deployment())| && RenewalsOf(rows, rows[i].Deployment())[k] == rows[i]
  {
    var init := rows[..|rows| - 1];
    if i == |rows| - 1 {
      k := |RenewalsOf(init, rows[i].Deployment())|;
    } else {
      k := ChainHolds(init, i);
    }
  }

  ghost predicate DistinctRows(rows: seq<RenewalRow>) {
    forall i, j | 0 <= i < j < |rows| :: rows[i].Auth() != rows[j].Auth()
  }

  lemma {:induction false} ChainIsDistinct(rows: seq<RenewalRow>, d: string)
    requires DistinctRows(rows)
    ensures DistinctRows(RenewalsOf(rows, d))
  {
    if rows != [] {
      var init := rows[..|rows| - 1];
      ChainIsDistinct(init, d);
      var chain := RenewalsOf(init, d);
      forall k | 0 <= k < |chain| ensures chain[k].Auth() != rows[|rows| - 1].Auth() {
        var i := ChainIndex(init, d, k);
        assert rows[i] == chain[k];
      }
    }
  }

  lemma {:induction false} EachPriorOnce(record: Record, chain: seq<RenewalRow>, initialExpiry: nat, k: nat)
    requires ChainOk(record, chain, initialExpiry) && DistinctRows(chain)
    requires k < |chain| && chain[|chain| - 1].Auth() != record.admissionId
    ensures chain[k].Prior() != record.authorizationId
  {
    assert LinkedAt(chain, record.admissionId, initialExpiry, k);
    if k > 0 {
      assert chain[..k][k - 1] == chain[k - 1];
    }
  }

  lemma {:induction false} RowsAreDistinct(t: Tables, d: string, hash: Hash)
    requires RenewalsOk(t, hash)
    ensures DistinctRows(RenewalsOf(t.renewals, d))
  {
    assert DistinctRows(t.renewals);
    ChainIsDistinct(t.renewals, d);
  }

  /** The chain of a deployment never visits an authorization twice, and never returns to the admission. */
  lemma {:induction false} TipVisitedOnce(t: Tables, d: string, k: nat, hash: Hash)
    requires CollisionFree(hash) && Inv(t, hash) && d in t.admissions
    requires k < |RenewalsOf(t.renewals, d)|
    ensures RenewalsOf(t.renewals, d)[k].Prior() != t.admissions[d].authorizationId
  {
    var chain := RenewalsOf(t.renewals, d);
    TipIsNotAdmission(t, d, |chain| - 1, hash);
    var initialExpiry := StoredChain(t, d, hash);
    RowsAreDistinct(t, d, hash);
    EachPriorOnce(t.admissions[d], chain, initialExpiry, k);
  }

  lemma {:induction false} SamePayload(t: Tables, v: VerifiedRenewal, i: nat, hash: Hash)
    requires CollisionFree(hash) && RenewalsOk(t, hash) && v.Valid(hash)
    requires i < |t.renewals| && t.renewals[i].Auth() == v.authorizationId
    ensures t.renewals[i].verified.renewal == v.renewal
  {
    assert RowOk(t, i, hash);
    assert hash(t.renewals[i].verified.Payload()) == hash(v.Payload());
  }

  /** No stored renewal has extended the current authorization. */
  lemma {:induction false} CurrentRenewalIsFresh(t: Tables, d: string, i: nat, hash: Hash)
    requires CollisionFree(hash) && Inv(t, hash) && d in t.admissions
    requires i < |t.renewals| && t.renewals[i].Deployment() == d
    ensures t.renewals[i].Prior() != t.admissions[d].authorizationId
  {
    var k := ChainHolds(t.renewals, i);
    TipVisitedOnce(t, d, k, hash);
  }

  ghost predicate FreshAuthorization(t: Tables, authorization: Digest) {
    forall i | 0 <= i < |t.renewals| :: t.renewals[i].Auth() != authorization
  }

  /** A renewal that extends the current authorization cannot have been applied before. */
  lemma {:induction false} NextRenewalIsFresh(t: Tables, v: VerifiedRenewal, hash: Hash)
    requires CollisionFree(hash) && Inv(t, hash) && v.Valid(hash) && v.renewal.deploymentId in t.admissions
    requires v.renewal.priorAuthorizationId == t.admissions[v.renewal.deploymentId].authorizationId
    ensures FreshAuthorization(t, v.authorizationId)
  {
    forall i: nat | i < |t.renewals| ensures t.renewals[i].Auth() != v.authorizationId {
      if t.renewals[i].Auth() == v.authorizationId {
        SamePayload(t, v, i, hash);
        CurrentRenewalIsFresh(t, v.renewal.deploymentId, i, hash);
      }
    }
  }

  lemma {:induction false} ConsumedMeans(t: Tables, v: VerifiedRenewal, now: nat, actor: string, reason: string)
    requires RenewCheck(t, v, now, actor, reason) == Some(RenewalConsumed)
    ensures v.renewal.deploymentId in t.admissions
    ensures v.renewal.priorAuthorizationId == t.admissions[v.renewal.deploymentId].authorizationId
    ensures !FreshAuthorization(t, v.authorizationId)
  {
  }

  /** The ledger's own replay check can never be the one that refuses a renewal. */
  lemma {:induction false} ReplayCheckNeverFires(t: Tables, v: VerifiedRenewal, now: nat, actor: string, reason: string, hash: Hash)
    requires CollisionFree(hash) && Inv(t, hash) && v.Valid(hash)
    ensures RenewCheck(t, v, now, actor, reason) != Some(RenewalConsumed)
  {
    var problem := RenewCheck(t, v, now, actor, reason);
    if problem == Some(RenewalConsumed) {
      ConsumedMeans(t, v, now, actor, reason);
      NextRenewalIsFresh(t, v, hash);
    }
  }

  ghost predicate RenewalIdUsed(t: Tables, renewalId: string) {
    exists i :: 0 <= i < |t.renewals| && t.renewals[i].verified.renewal.renewalId == renewalId
  }

  lemma {:induction false} NoOtherAuthorization(t: Tables, v: VerifiedRenewal, e: string, hash: Hash)
    requires CollisionFree(hash) && Inv(t, hash) && v.Valid(hash) && e in t.admissions
    requires FreshAuthorization(t, v.authorizationId)
    ensures t.admissions[e].authorizationId != v.authorizationId
  {
    var stored := StoredAdmission(t, e, hash);
    assert hash(stored.Payload()) != hash(v.Payload());
    var i := TipIsAuthorization(t, e, hash);
  }

  lemma {:induction false} CanAlwaysReplace(t: Tables, v: VerifiedRenewal, actor: string, reason: string, hash: Hash)
    requires CollisionFree(hash) && Inv(t, hash) && v.Valid(hash) && v.renewal.deploymentId in t.admissions
    requires FreshAuthorization(t, v.authorizationId)
    ensures CanReplace(t, v.renewal.deploymentId, Renewed(t.admissions[v.renewal.deploymentId], v, actor, reason))
  {
    var d := v.renewal.deploymentId;
    var updated := Renewed(t.admissions[d], v, actor, reason);
    assert updated.Owner() == t.admissions[d].Owner();
    forall e | e in t.admissions && e != d ensures Compatible(t.admissions[e], updated) {
      assert Compatible(t.admissions[e], t.admissions[d]);
      NoOtherAuthorization(t, v, e, hash);
    }
  }

  lemma {:induction false} PassedChecks(t: Tables, v: VerifiedRenewal, now: nat, actor: string, reason: string)
    requires RenewCheck(t, v, now, actor, reason).None?
    ensures v.renewal.deploymentId in t.admissions
    ensures v.renewal.priorAuthorizationId == t.admissions[v.renewal.deploymentId].authorizationId
  {
  }

  lemma {:induction false} UniqueExactlyWhen(t: Tables, v: VerifiedRenewal, now: nat)
    requires FreshAuthorization(t, v.authorizationId)
    ensures UniqueRenewal(t.renewals, RenewalRow(v, now)) <==> !RenewalIdUsed(t, v.renewal.renewalId)
  {
  }

  lemma {:induction false} WritesExactlyWhen(t: Tables, v: VerifiedRenewal, now: nat, actor: string, reason: string)
    requires RenewCheck(t, v, now, actor, reason).None? && v.renewal.deploymentId in t.admissions
    requires CanReplace(t, v.renewal.deploymentId, Renewed(t.admissions[v.renewal.deploymentId], v, actor, reason))
    ensures RenewStep(t, v, now, actor, reason).1.Ok? <==> UniqueRenewal(t.renewals, RenewalRow(v, now))
    ensures RenewStep(t, v, now, actor, reason).1.Err? ==> RenewStep(t, v, now, actor, reason).1.error == IntegrityError
  {
  }

  /**
   Once the checks pass, a renewal is applied unless its renewal id was used
   before; that is the only uniqueness constraint it can violate.
   */
  lemma {:induction false} RenewalAppliesExactlyWhen(t: Tables, v: VerifiedRenewal, now: nat, actor: string, reason: string, hash: Hash)
    requires CollisionFree(hash) && Inv(t, hash) && v.Valid(hash)
    requires RenewCheck(t, v, now, actor, reason).None?
    ensures RenewStep(t, v, now, actor, reason).1.Ok? <==> !RenewalIdUsed(t, v.renewal.renewalId)
    ensures RenewStep(t, v, now, actor, reason).1.Err? ==> RenewStep(t, v, now, actor, reason).1.error == IntegrityError
  {
    PassedChecks(t, v, now, actor, reason);
    NextRenewalIsFresh(t, v, hash);
    CanAlwaysReplace(t, v, actor, reason, hash);
    UniqueExactlyWhen(t, v, now);
    WritesExactlyWhen(t, v, now, actor, reason);
  }

  /** What verification against a record establishes. */
  lemma {:induction false} VerifiedBinds(e: Evidence, current: Record, keyId: string, key: Digest, now: nat, hash: Hash)
    requires VerifyRenewal(e, current, keyId, key, now, hash).Ok?
    ensures VerifyRenewal(e, current, keyId, key, now, hash).value.renewal == e.renewal
    ensures e.renewal.deploymentId == current.deploymentId
    ensures e.renewal.priorAuthorizationId == current.authorizationId
  {
  }

  lemma {:induction false} VerifiedMeetsLedgerChecks(
    t: Tables, e: Evidence, keyId: string, key: Digest, now: nat, actor: string, reason: string, hash: Hash)
    requires e.renewal.deploymentId in t.admissions && ValidInput(actor, reason)
    requires VerifyRenewal(e, t.admissions[e.renewal.deploymentId], keyId, key, now, hash).Ok?
    ensures var v := VerifyRenewal(e, t.admissions[e.renewal.deploymentId], keyId, key, now, hash).value;
            RenewCheck(t, v, now, actor, reason).None? || RenewCheck(t, v, now, actor, reason) == Some(RenewalConsumed)
  {
  }

  lemma {:induction false} StoredUnderItsId(t: Tables, d: string, hash: Hash)
    requires Inv(t, hash) && d in t.admissions
    ensures t.admissions[d].deploymentId == d
  {
  }

  lemma {:induction false} VerifiedPassesTheChecks(
    t: Tables, d: string, e: Evidence, keyId: string, key: Digest, now: nat, actor: string, reason: string, hash: Hash)
    requires CollisionFree(hash) && Inv(t, hash) && d in t.admissions && ValidInput(actor, reason)
    requires VerifyRenewal(e, t.admissions[d], keyId, key, now, hash).Ok?
    ensures var v := VerifyRenewal(e, t.admissions[d], keyId, key, now, hash).value;
            v.renewal == e.renewal && e.renewal.deploymentId == d && RenewCheck(t, v, now, actor, reason).None?
  {
    StoredUnderItsId(t, d, hash);
    VerifiedBinds(e, t.admissions[d], keyId, key, now, hash);
    VerifiedMeetsLedgerChecks(t, e, keyId, key, now, actor, reason, hash);
    ReplayCheckNeverFires(
      t, VerifyRenewal(e, t.admissions[d], keyId, key, now, hash).value, now, actor, reason, hash);
  }

  /**
   A renewal that verifies against the ledger's current record is accepted by
   the ledger at that instant exactly when its renewal id is fresh.
   */
  lemma {:induction false} VerifiedRenewalApplies(
    t: Tables, d: string, e: Evidence, keyId: string, key: Digest, now: nat, actor: string, reason: string, hash: Hash)
    requires CollisionFree(hash) && Inv(t, hash) && d in t.admissions && ValidInput(actor, reason)
    requires VerifyRenewal(e, t.admissions[d], keyId, key, now, hash).Ok?
    ensures var v := VerifyRenewal(e, t.admissions[d], keyId, key, now, hash).value;
            RenewStep(t, v, now, actor, reason).1.Ok? <==> !RenewalIdUsed(t, e.renewal.renewalId)
  {
    VerifiedPassesTheChecks(t, d, e, keyId, key, now, actor, reason, hash);
    RenewalAppliesExactlyWhen(
      t, VerifyRenewal(e, t.admissions[d], keyId, key, now, hash).value, now, actor, reason, hash);
  }

  ghost predicate Applied(t: Tables, renewal: Renewal) {
    exists i: nat :: i < |t.renewals| && t.renewals[i].verified.renewal == renewal
  }

  /** Once applied, a renewal never verifies again: it cannot be replayed. */
  lemma {:induction false} AppliedRenewalNeverVerifiesAgain(
    t: Tables, d: string, e: Evidence, keyId: string, key: Digest, later: nat, hash: Hash)
    requires CollisionFree(hash) && Inv(t, hash) && d in t.admissions && Applied(t, e.renewal)
    ensures VerifyRenewal(e, t.admissions[d], keyId, key, later, hash).Err?
  {
    if VerifyRenewal(e, t.admissions[d], keyId, key, later, hash).Ok? {
      StoredUnderItsId(t, d, hash);
      VerifiedBinds(e, t.admissions[d], keyId, key, later, hash);
      var i: nat :| i < |t.renewals| && t.renewals[i].verified.renewal == e.renewal;
      CurrentRenewalIsFresh(t, d, i, hash);
    }
  }
}
