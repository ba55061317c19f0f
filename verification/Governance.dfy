/**
 Signed deployment authority: approvals, admissions, renewals and the durable
 record kept for each deployment.  SHA-256 is a function from payloads to
 digests about which nothing is known except, where stated, that it has no
 collisions.  Times are natural numbers.
 */
module Governance {
  import opened Wrappers

  /** A digest, as the number its hexadecimal digits spell. */
  type Digest = nat

  datatype Stage = ApprovedCanary | Production

  datatype AdmissionState = Active | Superseded | RolledBack | Revoked

  datatype Approval = Approval(
    approvalId: string, deploymentId: string, stage: Stage,
    account: string, vault: Option<string>,
    manifest: Digest, configuration: Digest, image: Digest, capital: int,
    rollbackDeploymentId: string, priorApprovalId: Option<string>,
    approvedAt: nat, expiresAt: nat)
  {
    predicate IsActive(now: nat) { approvedAt <= now < expiresAt }

    predicate Valid() {
      && approvedAt < expiresAt
      && deploymentId != rollbackDeploymentId
      && capital > 0
      && (stage == Production <==> priorApprovalId.Some?)
    }
  }

  datatype Renewal = Renewal(
    renewalId: string, deploymentId: string, initialApprovalId: string,
    admissionId: Digest, priorAuthorizationId: Digest,
    account: string, vault: Option<string>,
    manifest: Digest, configuration: Digest, image: Digest, capital: int,
    approvedAt: nat, expiresAt: nat)
  {
    predicate IsActive(now: nat) { approvedAt <= now < expiresAt }
  }

  /** What an identity digest is taken over. */
  datatype Payload =
    | AdmissionPayload(approval: Approval, artifacts: Digest, admissionKey: Digest, envelope: Digest)
    | RenewalPayload(renewal: Renewal, renewalKey: Digest, envelope: Digest)

  type Hash = Payload -> Digest

  ghost predicate CollisionFree(hash: Hash) {
    forall p, q :: hash(p) == hash(q) ==> p == q
  }

  datatype Admission = Admission(
    admissionId: Digest, approval: Approval, artifacts: Digest, publicKey: Digest, envelope: Digest)
  {
    function Payload(): Payload { AdmissionPayload(approval, artifacts, publicKey, envelope) }

    ghost predicate Valid(hash: Hash) { approval.Valid() && admissionId == hash(Payload()) }
  }

  datatype VerifiedRenewal = VerifiedRenewal(
    authorizationId: Digest, renewal: Renewal, publicKey: Digest, envelope: Digest, verifiedAt: nat)
  {
    function Payload(): Payload { RenewalPayload(renewal, publicKey, envelope) }

    ghost predicate Valid(hash: Hash) {
      authorizationId == hash(Payload()) && renewal.IsActive(verifiedAt)
    }
  }

  datatype Record = Record(
    deploymentId: string, approvalId: string, admissionId: Digest, authorizationId: Digest,
    renewalCount: nat, publicKey: Option<Digest>, stage: Stage,
    account: string, vault: Option<string>,
    manifest: Digest, configuration: Digest, image: Digest, capital: int,
    admittedAt: nat, expiresAt: nat, state: AdmissionState, actor: string, reason: string)
  {
    /** The account and vault a record trades for, ignoring letter case. */
    function Owner(): (string, string) { OwnerOf(account, vault) }
  }

  function Lower(s: string): string {
    if s == "" then ""
    else
      var c := s[0];
      [if 'A' <= c <= 'Z' then (c as int + 32) as char else c] + Lower(s[1..])
  }

  function LowerOption(s: Option<string>): Option<string> {
    if s.None? then None else Some(Lower(s.value))
  }

  /** The vault as the owner index compares it: no vault is the empty name. */
  function FoldVault(vault: Option<string>): string { if vault.None? then "" else Lower(vault.value) }

  function OwnerOf(account: string, vault: Option<string>): (string, string) { (Lower(account), FoldVault(vault)) }

  /** White space as the language of the program counts it. */
  predicate IsSpace(c: char) {
    var n := c as int;
    9 <= n <= 13 || 28 <= n <= 32 || n == 133 || n == 160 || n == 5760 || 8192 <= n <= 8202
    || n == 8232 || n == 8233 || n == 8239 || n == 8287 || n == 12288
  }

  predicate Blank(s: string) {
    forall i | 0 <= i < |s| :: IsSpace(s[i])
  }

  predicate ValidInput(actor: string, reason: string) {
    !Blank(actor) && |actor| <= 256 && !Blank(reason) && |reason| <= 512
  }
}
