/**
 What an operator and a guard can read off the ledger's tables: exactly which
 calls are accepted, what they leave behind, and exactly when an admission
 authorizes its deployment.
 */
module LedgerAuthority {
  import opened Wrappers
  import opened Governance
  import opened AdmissionLedger
  import opened LedgerGuarantees
  import RenewalApproval

  // ----- names that differ only in letter case -----

  predicate IsCapital(c: char) { 'A' <= c <= 'Z' }

  /** Both are the same character, or one is a capital letter and the other its small form. */
  predicate SameLetter(c: char, d: char) {
    || c == d
    || (IsCapital(c) && d as int == c as int + 32)
    || (IsCapital(d) && c as int == d as int + 32)
  }

  ghost predicate SameName(a: string, b: string) {
    |a| == |b| && forall i | 0 <= i < |a| :: SameLetter(a[i], b[i])
  }

  /** Two names fold to the same string exactly when they differ at most in letter case. */
  lemma {:induction false} LowerExactlyWhen(a: string, b: string)
    ensures Lower(a) == Lower(b) <==> SameName(a, b)
  {
    if a != "" && b != "" {
      LowerExactlyWhen(a[1..], b[1..]);
      assert Lower(a)[0] == Lower(b)[0] <==> SameLetter(a[0], b[0]);
      assert Lower(a)[1..] == Lower(a[1..]) && Lower(b)[1..] == Lower(b[1..]);
      assert SameName(a, b) ==> SameName(a[1..], b[1..]);
      if SameLetter(a[0], b[0]) && SameName(a[1..], b[1..]) {
        forall i | 0 <= i < |a| ensures SameLetter(a[i], b[i]) {
          if i > 0 {
            assert a[1..][i - 1] == a[i] && b[1..][i - 1] == b[i];
          }
        }
      }
    }
  }

  // ----- admissions -----

  /** A record holds the approval's account and vault, letter case aside; no vault counts as the empty one. */
  predicate SameOwner(record: Record, p: Approval) {
    Lower(record.account) == Lower(p.account) && FoldVault(record.vault) == FoldVault(p.vault)
  }

  ghost predicate Unused(t: Tables, p: Approval) {
    forall d | d in t.admissions :: d != p.deploymentId && t.admissions[d].approvalId != p.approvalId
  }

  /** Nobody is active on the account, or, for a production release, the canary it names is. */
  ghost predicate MayTakeOver(t: Tables, p: Approval) {
    if p.stage == ApprovedCanary
    then forall d | d in t.admissions :: !(t.admissions[d].state == Active && SameOwner(t.admissions[d], p))
    else
      && p.rollbackDeploymentId in t.admissions
      && var canary := t.admissions[p.rollbackDeploymentId];
         canary.state == Active && canary.stage == ApprovedCanary && SameOwner(canary, p)
         && Some(canary.approvalId) == p.priorApprovalId
  }

  ghost predicate Admissible(t: Tables, a: Admission, now: nat, actor: string, reason: string) {
    var p := a.approval;
    ValidInput(actor, reason) && p.approvedAt <= now < p.expiresAt && Unused(t, p) && MayTakeOver(t, p)
  }

  lemma {:induction false} UnusedMeans(t: Tables, p: Approval, hash: Hash)
    requires Inv(t, hash)
    ensures Unused(t, p) <==> !Consumed(t, p)
  {
    assert forall d | d in t.admissions :: t.admissions[d].deploymentId == d;
  }

  lemma {:induction false} TakeOverMeans(t: Tables, p: Approval, hash: Hash)
    requires Inv(t, hash)
    ensures var owner := OwnerOf(p.account, p.vault);
            MayTakeOver(t, p)
            <==> if p.stage == ApprovedCanary then !Owned(t, owner)
                 else Owned(t, owner) && Bound(t.admissions[OwnerDeployment(t, owner)], p)
  {
    var owner := OwnerOf(p.account, p.vault);
    assert forall d | d in t.admissions :: t.admissions[d].deploymentId == d;
    assert forall d | d in t.admissions ::
        ActiveFor(t.admissions[d], owner) <==> t.admissions[d].state == Active && SameOwner(t.admissions[d], p);
    if p.stage == Production && MayTakeOver(t, p) {
      assert ActiveFor(t.admissions[p.rollbackDeploymentId], owner);
      OneOwner(t, owner, p.rollbackDeploymentId, OwnerDeployment(t, owner));
    }
  }

  /**
   An admission changes the ledger exactly when its texts and window are valid,
   both its identities are unused, and its account is free or held by the canary
   it names.
   */
  lemma {:induction false} AdmitsExactlyWhen(t: Tables, a: Admission, now: nat, actor: string, reason: string, hash: Hash)
    requires CollisionFree(hash) && Inv(t, hash) && a.Valid(hash)
    ensures AdmitStep(t, a, now, actor, reason).0 != t <==> Admissible(t, a, now, actor, reason)
  {
    UnusedMeans(t, a.approval, hash);
    TakeOverMeans(t, a.approval, hash);
    AdmitNeverClashes(t, a, now, actor, reason, hash);
    var (next, outcome) := AdmitStep(t, a, now, actor, reason);
    assert AdmitCheck(t, a, now, actor, reason).None? <==> Admissible(t, a, now, actor, reason);
    if AdmitCheck(t, a, now, actor, reason).None? {
      assert a.approval.deploymentId in next.admissions && a.approval.deploymentId !in t.admissions;
    }
  }

  /** The record of a fresh admission: the approved release, in force from `now` until the approval expires. */
  ghost predicate Grants(record: Record, a: Admission, now: nat, actor: string, reason: string) {
    var p := a.approval;
    && record.deploymentId == p.deploymentId && record.approvalId == p.approvalId && record.stage == p.stage
    && record.admissionId == a.admissionId == record.authorizationId
    && record.renewalCount == 0 && record.publicKey == Some(a.publicKey)
    && record.account == p.account && record.vault == p.vault
    && record.manifest == p.manifest && record.configuration == p.configuration
    && record.image == p.image && record.capital == p.capital
    && record.admittedAt == now && record.expiresAt == p.expiresAt
    && record.state == Active && record.actor == actor && record.reason == reason
  }

  /** What an admission that changes the ledger writes: its record, its transition, and the end of the canary it replaces. */
  lemma {:induction false} AdmissionWrites(t: Tables, a: Admission, now: nat, actor: string, reason: string, hash: Hash)
    requires Inv(t, hash) && AdmitStep(t, a, now, actor, reason).0 != t
    ensures var p := a.approval;
            var (after, outcome) := AdmitStep(t, a, now, actor, reason);
            && p.deploymentId in after.admissions && outcome == Ok(after.admissions[p.deploymentId])
            && Grants(after.admissions[p.deploymentId], a, now, actor, reason)
            && after.renewals == t.renewals
            && (p.stage == ApprovedCanary ==>
                  && after.admissions - {p.deploymentId} == t.admissions
                  && after.transitions == t.transitions + [TransitionRow(p.deploymentId, now, None, Active)])
            && (p.stage == Production ==>
                  && p.rollbackDeploymentId in t.admissions
                  && after.admissions - {p.deploymentId}
                     == t.admissions[p.rollbackDeploymentId := t.admissions[p.rollbackDeploymentId].(
                          state := Superseded, actor := actor, reason := "superseded by " + p.deploymentId + ": " + reason)]
                  && after.transitions
                     == t.transitions + [TransitionRow(p.rollbackDeploymentId, now, Some(Active), Superseded),
                                         TransitionRow(p.deploymentId, now, None, Active)])
  {
    AdmitShape(t, a, now, actor, reason);
    if a.approval.stage == Production {
      RoomForProduction(t, a, now, actor, reason);
    }
  }

  /** Asking again for an admission that is stored and active returns its record and changes nothing; nothing else does. */
  lemma {:induction false} RepeatsExactlyWhen(t: Tables, a: Admission, now: nat, actor: string, reason: string, hash: Hash)
    requires CollisionFree(hash) && Inv(t, hash) && a.Valid(hash)
    ensures var p := a.approval;
            var (after, outcome) := AdmitStep(t, a, now, actor, reason);
            && (after == t && outcome.Ok?
                <==> && ValidInput(actor, reason) && p.approvedAt <= now < p.expiresAt
                     && p.deploymentId in t.admissions
                     && t.admissions[p.deploymentId].admissionId == a.admissionId
                     && t.admissions[p.deploymentId].state == Active)
            && (after == t && outcome.Ok? ==> outcome.value == t.admissions[p.deploymentId])
  {
    UnusedMeans(t, a.approval, hash);
    AdmitsExactlyWhen(t, a, now, actor, reason, hash);
  }

  // ----- renewals -----

  /** The renewal is for this very record: its release, its owner and its current authorization. */
  ghost predicate ExtendsRecord(r: Renewal, publicKey: Digest, current: Record) {
    && r.admissionId == current.admissionId && r.initialApprovalId == current.approvalId
    && r.priorAuthorizationId == current.authorizationId
    && Lower(r.account) == Lower(current.account)
    && (r.vault.Some? <==> current.vault.Some?)
    && (r.vault.Some? ==> Lower(r.vault.value) == Lower(current.vault.value))
    && r.manifest == current.manifest && r.configuration == current.configuration
    && r.image == current.image && r.capital == current.capital
    && current.publicKey == Some(publicKey)
    && current.admittedAt <= r.approvedAt && current.expiresAt < r.expiresAt
  }

  ghost predicate Renewable(t: Tables, v: VerifiedRenewal, now: nat, actor: string, reason: string) {
    var r := v.renewal;
    && ValidInput(actor, reason) && r.approvedAt <= now < r.expiresAt
    && r.deploymentId in t.admissions
    && t.admissions[r.deploymentId].state == Active && t.admissions[r.deploymentId].stage == Production
    && now < t.admissions[r.deploymentId].expiresAt
    && ExtendsRecord(r, v.publicKey, t.admissions[r.deploymentId])
    && forall i | 0 <= i < |t.renewals| :: t.renewals[i].verified.renewal.renewalId != r.renewalId
  }

  /**
   A renewal is accepted exactly when it extends an active, unexpired production
   record that it matches in everything, under a renewal id that is unused.
   */
  lemma {:induction false} RenewsExactlyWhen(t: Tables, v: VerifiedRenewal, now: nat, actor: string, reason: string, hash: Hash)
    requires CollisionFree(hash) && Inv(t, hash) && v.Valid(hash)
    ensures RenewStep(t, v, now, actor, reason).1.Ok? <==> Renewable(t, v, now, actor, reason)
  {
    RenewalApproval.ReplayCheckNeverFires(t, v, now, actor, reason, hash);
    if RenewCheck(t, v, now, actor, reason).None? {
      RenewalApproval.RenewalAppliesExactlyWhen(t, v, now, actor, reason, hash);
    }
  }

  /** What an accepted renewal writes: one renewal row, one transition row and the extended record. */
  lemma {:induction false} RenewalWrites(t: Tables, v: VerifiedRenewal, now: nat, actor: string, reason: string)
    requires RenewStep(t, v, now, actor, reason).1.Ok?
    ensures var d := v.renewal.deploymentId;
            var (after, outcome) := RenewStep(t, v, now, actor, reason);
            && d in after.admissions && outcome == Ok(after.admissions[d])
            && after.renewals == t.renewals + [RenewalRow(v, now)]
            && after.transitions == t.transitions + [TransitionRow(d, now, Some(Active), Active)]
  {
    RenewAccepted(t, v, now, actor, reason);
  }

  /** What the files on disk must say for a renewal of this record to verify. */
  ghost predicate Verifiable(
    e: RenewalApproval.Evidence, current: Record, expectedKeyId: string, expectedKey: Digest, now: nat)
  {
    && current.state == Active && current.stage == Production && now < current.expiresAt
    && e.publicKey == expectedKey && e.keyId == expectedKeyId && e.binds && e.genuine
    && e.renewal.approvedAt <= now < e.renewal.expiresAt
    && e.renewal.deploymentId == current.deploymentId
    && ExtendsRecord(e.renewal, expectedKey, current)
  }

  /**
   A renewal verifies exactly when it is genuine, in force, signed with the key
   that the record trusts, and extends the record it matches in everything; the
   result carries what was on disk.
   */
  lemma {:induction false} VerifiesExactlyWhen(
    e: RenewalApproval.Evidence, current: Record, expectedKeyId: string, expectedKey: Digest, now: nat, hash: Hash)
    ensures var r := RenewalApproval.VerifyRenewal(e, current, expectedKeyId, expectedKey, now, hash);
            && (r.Ok? <==> Verifiable(e, current, expectedKeyId, expectedKey, now))
            && (r.Ok? ==> r.value.renewal == e.renewal && r.value.publicKey == e.publicKey
                          && r.value.envelope == e.envelope && r.value.verifiedAt == now && r.value.Valid(hash))
  {
  }

  // ----- ending an admission -----

  /** An operator's call ends an admission exactly when it is stored and active and the target is one the operator may choose. */
  lemma {:induction false} DeactivatesExactlyWhen(t: Tables, d: string, target: AdmissionState, now: nat, actor: string, reason: string)
    ensures var (after, outcome) := DeactivateStep(t, d, target, now, actor, reason);
            && (outcome.Ok?
                <==> target in {RolledBack, Revoked} && ValidInput(actor, reason)
                     && d in t.admissions && t.admissions[d].state == Active)
            && (outcome.Err? ==> after == t)
            && (outcome.Ok? ==>
                  && outcome.value == t.admissions[d].(state := target, actor := actor, reason := reason)
                  && after.admissions == t.admissions[d := outcome.value]
                  && after.renewals == t.renewals
                  && after.transitions == t.transitions + [TransitionRow(d, now, Some(Active), target)])
  {
  }

  /** No later call makes the deployment acceptable to the guard again, whatever the instants. */
  ghost predicate EndedForGood(t: Tables, d: string) {
    forall ops: seq<Op>, a: Admission, later: nat | a.approval.deploymentId == d :: !RequireActive(Run(t, ops), a, later)
  }

  lemma {:induction false} InactiveForGood(t: Tables, d: string)
    requires d in t.admissions && t.admissions[d].state != Active
    ensures EndedForGood(t, d)
  {
    forall ops: seq<Op>, a: Admission, later: nat | a.approval.deploymentId == d ensures !RequireActive(Run(t, ops), a, later) {
      ReleasesNeverChange(t, ops);
      assert Later(t.admissions[d], Run(t, ops).admissions[d]);
    }
  }

  /** After a rollback or a revocation the deployment is refused at every instant after every further run. */
  lemma {:induction false} DeactivatedForGood(t: Tables, d: string, target: AdmissionState, now: nat, actor: string, reason: string)
    requires DeactivateStep(t, d, target, now, actor, reason).1.Ok?
    ensures EndedForGood(DeactivateStep(t, d, target, now, actor, reason).0, d)
  {
    DeactivatesExactlyWhen(t, d, target, now, actor, reason);
    InactiveForGood(DeactivateStep(t, d, target, now, actor, reason).0, d);
  }

  /** After a production admission the canary it replaced is refused at every instant after every further run. */
  lemma {:induction false} SupersededForGood(t: Tables, a: Admission, now: nat, actor: string, reason: string, hash: Hash)
    requires Inv(t, hash) && a.approval.stage == Production && AdmitStep(t, a, now, actor, reason).0 != t
    ensures EndedForGood(AdmitStep(t, a, now, actor, reason).0, a.approval.rollbackDeploymentId)
  {
    var after := AdmitStep(t, a, now, actor, reason).0;
    ProductionSupersedesItsCanary(t, a, now, actor, reason);
    assert a.approval.rollbackDeploymentId in after.admissions;
    InactiveForGood(after, a.approval.rollbackDeploymentId);
  }

  // ----- the guard -----

  /** When the last authorization of an admission lapses: its last renewal's expiry, or the approval's own. */
  function LastExpiry(a: Admission, renewals: seq<RenewalRow>): nat {
    if renewals == [] then a.approval.expiresAt else renewals[|renewals| - 1].verified.renewal.expiresAt
  }

  lemma {:induction false} OwnAdmission(t: Tables, a: Admission, hash: Hash)
    requires CollisionFree(hash) && Inv(t, hash) && a.Valid(hash)
    requires a.approval.deploymentId in t.admissions && t.admissions[a.approval.deploymentId].admissionId == a.admissionId
    ensures var d := a.approval.deploymentId;
            && t.admissions[d].approvalId == a.approval.approvalId
            && t.admissions[d].expiresAt == LastExpiry(a, RenewalsOf(t.renewals, d))
  {
    var d := a.approval.deploymentId;
    assert StoredOk(t, d, hash);
    var own: Admission :| FromAdmission(t.admissions[d], own, hash)
                          && ChainOk(t.admissions[d], RenewalsOf(t.renewals, d), own.approval.expiresAt);
    assert own.Payload() == a.Payload();
  }

  /** The admission's digest is stored, its last transition leads to Active, and its last authorization has not lapsed. */
  ghost predicate Authorizes(t: Tables, a: Admission, now: nat) {
    var d := a.approval.deploymentId;
    var rows := TransitionsOf(t.transitions, d);
    && d in t.admissions && t.admissions[d].admissionId == a.admissionId
    && rows != [] && rows[|rows| - 1].next == Active
    && now < LastExpiry(a, RenewalsOf(t.renewals, d))
  }

  lemma {:induction false} LastTransition(t: Tables, d: string, hash: Hash)
    requires Inv(t, hash) && d in t.admissions
    ensures var rows := TransitionsOf(t.transitions, d);
            rows != [] && rows[|rows| - 1].next == t.admissions[d].state
  {
    assert StoredOk(t, d, hash);
  }

  /** Over every run from the empty ledger, the guard accepts an admission exactly when the tables authorize it. */
  lemma {:induction false} AuthorizedExactlyWhen(ops: seq<Op>, a: Admission, now: nat, hash: Hash)
    requires CollisionFree(hash) && ValidOps(ops, hash) && a.Valid(hash)
    ensures RequireActive(Run(EMPTY, ops), a, now) <==> Authorizes(Run(EMPTY, ops), a, now)
  {
    RunKeeps(EMPTY, ops, hash);
    var t := Run(EMPTY, ops);
    var d := a.approval.deploymentId;
    if d in t.admissions {
      LastTransition(t, d, hash);
      if t.admissions[d].admissionId == a.admissionId {
        OwnAdmission(t, a, hash);
      }
    }
  }

  /** The guard never accepts another approval or another digest than the stored ones, even if digests collide. */
  lemma {:induction false} OnlyItsOwnRecord(t: Tables, a: Admission, now: nat)
    requires RequireActive(t, a, now)
    ensures a.approval.deploymentId in t.admissions
    ensures t.admissions[a.approval.deploymentId].approvalId == a.approval.approvalId
    ensures t.admissions[a.approval.deploymentId].admissionId == a.admissionId
  {
  }
}
