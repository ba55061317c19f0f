/**
 What the admission ledger guarantees over every run: any sequence of
 admissions, renewals, rollbacks and revocations on a clock that does not run
 backwards.
 */
module LedgerGuarantees {
  import opened Wrappers
  import opened Governance
  import opened AdmissionLedger

  datatype Op =
    | OpAdmit(admission: Admission, at: nat, actor: string, reason: string)
    | OpRenew(renewal: VerifiedRenewal, at: nat, actor: string, reason: string)
    | OpDeactivate(deploymentId: string, target: AdmissionState, at: nat, actor: string, reason: string)
  {
    ghost predicate Valid(hash: Hash) {
      match this
      case OpAdmit(a, _, _, _) => a.Valid(hash)
      case OpRenew(v, _, _, _) => v.Valid(hash)
      case OpDeactivate(_, _, _, _, _) => true
    }
  }

  ghost function Step(t: Tables, op: Op): (Tables, Outcome) {
    match op
    case OpAdmit(a, now, actor, reason) => AdmitStep(t, a, now, actor, reason)
    case OpRenew(v, now, actor, reason) => RenewStep(t, v, now, actor, reason)
    case OpDeactivate(d, target, now, actor, reason) => DeactivateStep(t, d, target, now, actor, reason)
  }

  ghost function Run(t: Tables, ops: seq<Op>): Tables
    decreases |ops|
  {
    if ops == [] then t else Run(Step(t, ops[0]).0, ops[1..])
  }

  ghost predicate ValidOps(ops: seq<Op>, hash: Hash) {
    forall op | op in ops :: op.Valid(hash)
  }

  /** The clock starts at `start` or later and never runs backwards. */
  ghost predicate OnClock(ops: seq<Op>, start: nat) {
    ops == [] || (start <= ops[0].at && OnClock(ops[1..], ops[0].at))
  }

  function LastInstant(ops: seq<Op>, start: nat): nat {
    if ops == [] then start else ops[|ops| - 1].at
  }

  // ----- what a step may change -----

  /** How a stored record may change: releases never, an inactive record not at all. */
  ghost predicate Later(was: Record, record: Record) {
    && record == was.(authorizationId := record.authorizationId, renewalCount := record.renewalCount,
                      expiresAt := record.expiresAt, state := record.state,
                      actor := record.actor, reason := record.reason)
    && was.renewalCount <= record.renewalCount
    && was.expiresAt <= record.expiresAt
    && (was.state != Active ==> record == was)
  }

  ghost predicate Extends(t: Tables, u: Tables) {
    && (forall d | d in t.admissions :: d in u.admissions && Later(t.admissions[d], u.admissions[d]))
    && t.renewals <= u.renewals
    && t.transitions <= u.transitions
  }

  lemma {:induction false} ExtendsTransitive(t: Tables, u: Tables, w: Tables)
    requires Extends(t, u) && Extends(u, w)
    ensures Extends(t, w)
  {
    forall d | d in t.admissions ensures d in w.admissions && Later(t.admissions[d], w.admissions[d]) {
      assert Later(t.admissions[d], u.admissions[d]) && Later(u.admissions[d], w.admissions[d]);
    }
  }

  lemma {:induction false} AdmitExtends(t: Tables, a: Admission, now: nat, actor: string, reason: string)
    ensures Extends(t, AdmitStep(t, a, now, actor, reason).0)
  {
    if AdmitCheck(t, a, now, actor, reason).None? {
      RoomExtends(t, a, now, actor, reason);
      var room := RoomFor(t, a, now, actor, reason);
      var record := NewRecord(a, now, actor, reason);
      if CanInsert(room, record) {
        assert Extends(room, Insert(room, record, now));
        ExtendsTransitive(t, room, Insert(room, record, now));
      }
    }
  }

  lemma {:induction false} RoomExtends(t: Tables, a: Admission, now: nat, actor: string, reason: string)
    requires AdmitCheck(t, a, now, actor, reason).None?
    ensures Extends(t, RoomFor(t, a, now, actor, reason))
    ensures forall e | e in t.admissions :: RoomFor(t, a, now, actor, reason).admissions[e].expiresAt == t.admissions[e].expiresAt
  {
  }

  lemma {:induction false} RenewExtends(t: Tables, v: VerifiedRenewal, now: nat, actor: string, reason: string)
    ensures Extends(t, RenewStep(t, v, now, actor, reason).0)
  {
    if RenewStep(t, v, now, actor, reason).1.Ok? {
      var d := v.renewal.deploymentId;
      var current := t.admissions[d];
      assert Later(current, Renewed(current, v, actor, reason));
    }
  }

  /** No step removes a row, edits a release, or touches a record that is no longer active. */
  lemma {:induction false} StepExtends(t: Tables, op: Op)
    ensures Extends(t, Step(t, op).0)
  {
    match op
    case OpAdmit(a, now, actor, reason) => AdmitExtends(t, a, now, actor, reason);
    case OpRenew(v, now, actor, reason) => RenewExtends(t, v, now, actor, reason);
    case OpDeactivate(d, target, now, actor, reason) =>
  }

  /** Capital, manifest, configuration, image and account of a deployment are the same after any run. */
  lemma {:induction false} ReleasesNeverChange(t: Tables, ops: seq<Op>)
    ensures Extends(t, Run(t, ops))
    decreases |ops|
  {
    if ops != [] {
      StepExtends(t, ops[0]);
      ReleasesNeverChange(Step(t, ops[0]).0, ops[1..]);
      ExtendsTransitive(t, Step(t, ops[0]).0, Run(t, ops));
    }
  }

  lemma {:induction false} StepKeeps(t: Tables, op: Op, hash: Hash)
    requires Inv(t, hash) && op.Valid(hash)
    ensures Inv(Step(t, op).0, hash)
  {
    match op
    case OpAdmit(a, now, actor, reason) => AdmitKeeps(t, a, now, actor, reason, hash);
    case OpRenew(v, now, actor, reason) =>
      if RenewStep(t, v, now, actor, reason).1.Ok? {
        RenewKeeps(t, v, now, actor, reason, hash);
      }
    case OpDeactivate(d, target, now, actor, reason) => DeactivateKeeps(t, d, target, now, actor, reason, hash);
  }

  lemma {:induction false} RunKeeps(t: Tables, ops: seq<Op>, hash: Hash)
    requires Inv(t, hash) && ValidOps(ops, hash)
    ensures Inv(Run(t, ops), hash)
    decreases |ops|
  {
    if ops != [] {
      assert ops[0] in ops;
      StepKeeps(t, ops[0], hash);
      RunKeeps(Step(t, ops[0]).0, ops[1..], hash);
    }
  }

  /** A step that fails leaves every table as it was. */
  lemma {:induction false} FailureRollsBack(t: Tables, op: Op)
    ensures Step(t, op).1.Err? ==> Step(t, op).0 == t
  {
    match op
    case OpAdmit(a, now, actor, reason) =>
      var decided := AdmitCheck(t, a, now, actor, reason);
    case OpRenew(v, now, actor, reason) =>
    case OpDeactivate(d, target, now, actor, reason) =>
  }

  // ----- authority is never revived -----

  /** The admission is registered and refused at `now`. */
  ghost predicate Refused(t: Tables, a: Admission, now: nat) {
    a.approval.deploymentId in t.admissions && !RequireActive(t, a, now)
  }

  lemma {:induction false} AdmitKeepsExpiry(t: Tables, a: Admission, now: nat, actor: string, reason: string, d: string)
    requires d in t.admissions
    ensures d in AdmitStep(t, a, now, actor, reason).0.admissions
    ensures AdmitStep(t, a, now, actor, reason).0.admissions[d].expiresAt == t.admissions[d].expiresAt
  {
    if AdmitCheck(t, a, now, actor, reason).None? {
      RoomExtends(t, a, now, actor, reason);
    }
  }

  /** Nothing moves the expiry of a record that has already expired. */
  lemma {:induction false} ExpiredStaysExpired(t: Tables, op: Op, d: string)
    requires d in t.admissions && t.admissions[d].expiresAt <= op.at
    ensures d in Step(t, op).0.admissions && Step(t, op).0.admissions[d].expiresAt == t.admissions[d].expiresAt
  {
    match op
    case OpAdmit(a, now, actor, reason) => AdmitKeepsExpiry(t, a, now, actor, reason, d);
    case OpRenew(v, now, actor, reason) =>
    case OpDeactivate(e, target, now, actor, reason) =>
  }

  lemma {:induction false} RefusedStays(t: Tables, a: Admission, now: nat, op: Op)
    requires Refused(t, a, now) && now <= op.at
    ensures Refused(Step(t, op).0, a, op.at)
  {
    var d := a.approval.deploymentId;
    StepExtends(t, op);
    assert Later(t.admissions[d], Step(t, op).0.admissions[d]);
    if t.admissions[d].expiresAt <= now {
      ExpiredStaysExpired(t, op, d);
    }
  }

  /** Once a registered admission has been refused, it is refused forever. */
  lemma {:induction false} NeverRevived(t: Tables, a: Admission, now: nat, ops: seq<Op>, later: nat)
    requires Refused(t, a, now) && OnClock(ops, now) && LastInstant(ops, now) <= later
    ensures Refused(Run(t, ops), a, later)
    decreases |ops|
  {
    if ops != [] {
      RefusedStays(t, a, now, ops[0]);
      assert LastInstant(ops[1..], ops[0].at) == LastInstant(ops, now);
      NeverRevived(Step(t, ops[0]).0, a, ops[0].at, ops[1..], later);
    }
  }

  /**
   The clock assumption is needed: with a renewal stamped before the refusal,
   an admission refused as expired is accepted again.
   */
  lemma {:induction false} RevivedByABackwardClock(t: Tables, a: Admission, v: VerifiedRenewal, early: nat, now: nat, actor: string, reason: string)
    requires Refused(t, a, now) && RequireActive(t, a, early)
    requires RenewStep(t, v, early, actor, reason).1.Ok? && v.renewal.deploymentId == a.approval.deploymentId
    requires now < v.renewal.expiresAt
    ensures early < now && RequireActive(Run(t, [OpRenew(v, early, actor, reason)]), a, now)
  {
    var op := OpRenew(v, early, actor, reason);
    assert [op][1..] == [];
    assert Run(t, [op]) == Run(Step(t, op).0, []) == Step(t, op).0;
  }

  // ----- one owner, identities used once -----

  /** At most one deployment is active for an account and vault, whatever the letter case. */
  lemma {:induction false} SingleOwner(ops: seq<Op>, hash: Hash, d: string, e: string)
    requires ValidOps(ops, hash)
    ensures var t := Run(EMPTY, ops);
            d in t.admissions && e in t.admissions
            && t.admissions[d].state == Active && t.admissions[e].state == Active
            && Lower(t.admissions[d].account) == Lower(t.admissions[e].account)
            && FoldVault(t.admissions[d].vault) == FoldVault(t.admissions[e].vault)
            ==> d == e
  {
    RunKeeps(EMPTY, ops, hash);
    var t := Run(EMPTY, ops);
    if d in t.admissions && e in t.admissions && d != e {
      assert Compatible(t.admissions[d], t.admissions[e]);
    }
  }

  /** No two stored records share an approval, an admission digest or a current authorization. */
  lemma {:induction false} RecordsShareNothing(ops: seq<Op>, hash: Hash, d: string, e: string)
    requires ValidOps(ops, hash)
    requires d != e && d in Run(EMPTY, ops).admissions && e in Run(EMPTY, ops).admissions
    ensures var r, s := Run(EMPTY, ops).admissions[d], Run(EMPTY, ops).admissions[e];
            r.approvalId != s.approvalId && r.admissionId != s.admissionId && r.authorizationId != s.authorizationId
  {
    RunKeeps(EMPTY, ops, hash);
    var t := Run(EMPTY, ops);
    assert Compatible(t.admissions[d], t.admissions[e]);
  }

  /** An admission that changes the ledger uses an approval and a deployment no earlier record ever used. */
  lemma {:induction false} IdentitiesUsedOnce(
    t: Tables, ops: seq<Op>, a: Admission, now: nat, actor: string, reason: string, d: string)
    requires d in t.admissions
    requires AdmitStep(Run(t, ops), a, now, actor, reason).0 != Run(t, ops)
    ensures a.approval.approvalId != t.admissions[d].approvalId && a.approval.deploymentId != t.admissions[d].deploymentId
  {
    var u := Run(t, ops);
    ReleasesNeverChange(t, ops);
    assert Later(t.admissions[d], u.admissions[d]);
    assert AdmitCheck(u, a, now, actor, reason).None?;
    assert !SameIdentity(u.admissions[d], a.approval);
  }

  /** `canary` is the active canary that the approval names on its own account and vault. */
  ghost predicate IsNamedCanary(canary: Record, p: Approval) {
    && canary.stage == ApprovedCanary && canary.state == Active
    && canary.deploymentId == p.rollbackDeploymentId
    && Some(canary.approvalId) == p.priorApprovalId
    && canary.Owner() == OwnerOf(p.account, p.vault)
  }

  lemma {:induction false} RoomForProduction(t: Tables, a: Admission, now: nat, actor: string, reason: string)
    requires UniqueAdmissions(t.admissions) && a.approval.stage == Production
    requires AdmitCheck(t, a, now, actor, reason).None?
    ensures var d := a.approval.rollbackDeploymentId;
            d in t.admissions && IsNamedCanary(t.admissions[d], a.approval)
            && RoomFor(t, a, now, actor, reason)
               == SetState(t, d, Superseded, now, actor, SupersededBy(a.approval, reason))
  {
    var p := a.approval;
    var d := OwnerDeployment(t, OwnerOf(p.account, p.vault));
    assert t.admissions[d].deploymentId == d;
  }

  /** A production admission supersedes exactly the canary it names and changes no other row. */
  lemma {:induction false} ProductionSupersedesItsCanary(t: Tables, a: Admission, now: nat, actor: string, reason: string)
    requires UniqueAdmissions(t.admissions) && a.approval.stage == Production
    requires AdmitStep(t, a, now, actor, reason).0 != t
    ensures var p := a.approval;
            var canary := p.rollbackDeploymentId;
            && canary in t.admissions && IsNamedCanary(t.admissions[canary], p) && p.deploymentId !in t.admissions
            && AdmitStep(t, a, now, actor, reason).0.admissions
               == t.admissions[canary := t.admissions[canary].(state := Superseded, actor := actor, reason := SupersededBy(p, reason))]
                              [p.deploymentId := NewRecord(a, now, actor, reason)]
            && AdmitStep(t, a, now, actor, reason).0.renewals == t.renewals
  {
    RoomForProduction(t, a, now, actor, reason);
  }

  // ----- renewals -----

  /** When a renewal is applied the authority is still alive, is extended, and nothing else about it changes. */
  lemma {:induction false} RenewalOnlyExtends(t: Tables, v: VerifiedRenewal, now: nat, actor: string, reason: string)
    requires RenewStep(t, v, now, actor, reason).1.Ok?
    ensures var d := v.renewal.deploymentId;
            var after := RenewStep(t, v, now, actor, reason).0;
            && d in t.admissions && t.admissions[d].state == Active && t.admissions[d].stage == Production
            && now < t.admissions[d].expiresAt < v.renewal.expiresAt
            && after.admissions.Keys == t.admissions.Keys
            && (forall e | e in t.admissions && e != d :: after.admissions[e] == t.admissions[e])
            && after.admissions[d] == t.admissions[d].(
                 authorizationId := v.authorizationId, renewalCount := t.admissions[d].renewalCount + 1,
                 expiresAt := v.renewal.expiresAt, actor := actor, reason := reason)
  {
    RenewAccepted(t, v, now, actor, reason);
  }

  /** The instant an authorization of the chain took effect and the instant it lapses; number 0 is the admission itself. */
  function TakesEffect(record: Record, chain: seq<RenewalRow>, k: nat): nat
    requires k <= |chain|
  {
    if k == 0 then record.admittedAt else chain[k - 1].appliedAt
  }

  function Lapses(chain: seq<RenewalRow>, initialExpiry: nat, k: nat): nat
    requires k <= |chain|
  {
    TipExpiry(chain[..k], initialExpiry)
  }

  /** Some authorization of the chain is in force at every instant from the first grant to the last expiry. */
  lemma {:induction false} CoveredWithoutGap(
    record: Record, chain: seq<RenewalRow>, initialExpiry: nat, x: nat, n: nat) returns (k: nat)
    requires Linked(chain, record.admissionId, initialExpiry) && n <= |chain|
    requires record.admittedAt <= x < Lapses(chain, initialExpiry, n)
    ensures k <= n && TakesEffect(record, chain, k) <= x < Lapses(chain, initialExpiry, k)
  {
    if n == 0 {
      k := 0;
    } else if x < Lapses(chain, initialExpiry, n - 1) {
      k := CoveredWithoutGap(record, chain, initialExpiry, x, n - 1);
    } else {
      assert chain[..n][n - 1] == chain[n - 1] && LinkedAt(chain, record.admissionId, initialExpiry, n - 1);
      k := n;
    }
  }

  lemma {:induction false} ExpiriesIncrease(chain: seq<RenewalRow>, start: Digest, initialExpiry: nat, i: nat, j: nat)
    requires Linked(chain, start, initialExpiry) && i < j <= |chain|
    ensures Lapses(chain, initialExpiry, i) < Lapses(chain, initialExpiry, j)
    decreases j
  {
    assert chain[..j][j - 1] == chain[j - 1];
    assert LinkedAt(chain, start, initialExpiry, j - 1);
    if i < j - 1 {
      ExpiriesIncrease(chain, start, initialExpiry, i, j - 1);
    }
  }

  ghost predicate InForce(record: Record, chain: seq<RenewalRow>, initialExpiry: nat, x: nat) {
    exists k: nat :: k <= |chain| && TakesEffect(record, chain, k) <= x < Lapses(chain, initialExpiry, k)
  }

  /**
   Expiries strictly increase, each renewal names the authorization ahead of it
   and is applied before that one lapses, and at every instant from admission to
   the stored expiry some authorization of the chain is in force.
   */
  ghost predicate Unbroken(record: Record, chain: seq<RenewalRow>, initialExpiry: nat) {
    && record.renewalCount == |chain|
    && record.authorizationId == Tip(chain, record.admissionId)
    && record.expiresAt == Lapses(chain, initialExpiry, |chain|)
    && Linked(chain, record.admissionId, initialExpiry)
    && (forall i, j | 0 <= i < j <= |chain| :: Lapses(chain, initialExpiry, i) < Lapses(chain, initialExpiry, j))
    && (forall x: nat | record.admittedAt <= x < record.expiresAt :: InForce(record, chain, initialExpiry, x))
  }

  lemma {:induction false} LinkedIsUnbroken(record: Record, chain: seq<RenewalRow>, initialExpiry: nat)
    requires ChainOk(record, chain, initialExpiry) && record.admittedAt < initialExpiry
    ensures Unbroken(record, chain, initialExpiry)
  {
    assert chain[..|chain|] == chain;
    forall i, j | 0 <= i < j <= |chain| ensures Lapses(chain, initialExpiry, i) < Lapses(chain, initialExpiry, j) {
      ExpiriesIncrease(chain, record.admissionId, initialExpiry, i, j);
    }
    forall x: nat | record.admittedAt <= x < record.expiresAt ensures InForce(record, chain, initialExpiry, x) {
      var k := CoveredWithoutGap(record, chain, initialExpiry, x, |chain|);
    }
  }

  /** In every reachable ledger the authority of a deployment is one unbroken chain. */
  lemma {:induction false} AuthorityIsContinuous(ops: seq<Op>, hash: Hash, d: string) returns (initialExpiry: nat)
    requires ValidOps(ops, hash) && d in Run(EMPTY, ops).admissions
    ensures var t := Run(EMPTY, ops);
            t.admissions[d].admittedAt < initialExpiry
            && Unbroken(t.admissions[d], RenewalsOf(t.renewals, d), initialExpiry)
  {
    RunKeeps(EMPTY, ops, hash);
    var t := Run(EMPTY, ops);
    initialExpiry := StoredChain(t, d, hash);
    LinkedIsUnbroken(t.admissions[d], RenewalsOf(t.renewals, d), initialExpiry);
  }

  // ----- the transition log -----

  function Ended(state: AdmissionState): nat { if state == Active then 0 else 1 }

  /** One transition row for the grant, one per renewal and one for the end. */
  ghost predicate RowsCounted(t: Tables) {
    forall d | d in t.admissions ::
      |TransitionsOf(t.transitions, d)| == 1 + t.admissions[d].renewalCount + Ended(t.admissions[d].state)
  }

  lemma {:induction false} InsertCounted(t: Tables, record: Record, now: nat, hash: Hash)
    requires RowsCounted(t) && TransitionsKnown(t) && record.deploymentId !in t.admissions
    requires record.renewalCount == 0 && record.state == Active
    ensures RowsCounted(Insert(t, record, now))
  {
    NoTransitions(t.transitions, record.deploymentId);
    var next := Insert(t, record, now);
    forall e | e in next.admissions
      ensures |TransitionsOf(next.transitions, e)| == 1 + next.admissions[e].renewalCount + Ended(next.admissions[e].state)
    {
      TransitionSnoc(t.transitions, TransitionRow(record.deploymentId, now, None, record.state), e);
    }
  }

  lemma {:induction false} SetStateCounted(t: Tables, d: string, state: AdmissionState, now: nat, actor: string, reason: string)
    requires RowsCounted(t) && d in t.admissions && t.admissions[d].state == Active && state != Active
    ensures RowsCounted(SetState(t, d, state, now, actor, reason))
  {
    var next := SetState(t, d, state, now, actor, reason);
    forall e | e in next.admissions
      ensures |TransitionsOf(next.transitions, e)| == 1 + next.admissions[e].renewalCount + Ended(next.admissions[e].state)
    {
      TransitionSnoc(t.transitions, TransitionRow(d, now, Some(t.admissions[d].state), state), e);
    }
  }

  lemma {:induction false} RenewCounted(t: Tables, v: VerifiedRenewal, now: nat, actor: string, reason: string)
    requires RowsCounted(t) && v.renewal.deploymentId in t.admissions
    ensures RowsCounted(ApplyRenewal(t, v, now, actor, reason))
  {
    var d := v.renewal.deploymentId;
    var next := ApplyRenewal(t, v, now, actor, reason);
    forall e | e in next.admissions
      ensures |TransitionsOf(next.transitions, e)| == 1 + next.admissions[e].renewalCount + Ended(next.admissions[e].state)
    {
      TransitionSnoc(t.transitions, TransitionRow(d, now, Some(t.admissions[d].state), t.admissions[d].state), e);
    }
  }

  lemma {:induction false} RoomCounted(t: Tables, a: Admission, now: nat, actor: string, reason: string)
    requires RowsCounted(t) && AdmitCheck(t, a, now, actor, reason).None?
    ensures RowsCounted(RoomFor(t, a, now, actor, reason))
  {
    var p := a.approval;
    if p.stage == Production {
      SetStateCounted(t, OwnerDeployment(t, OwnerOf(p.account, p.vault)), Superseded, now, actor, SupersededBy(p, reason));
    }
  }

  lemma {:induction false} AdmitCounted(t: Tables, a: Admission, now: nat, actor: string, reason: string, hash: Hash)
    requires RowsCounted(t) && Inv(t, hash)
    ensures RowsCounted(AdmitStep(t, a, now, actor, reason).0)
  {
    AdmitShape(t, a, now, actor, reason);
    var next := AdmitStep(t, a, now, actor, reason).0;
    if next != t {
      RoomKeeps(t, a, now, actor, reason, hash);
      RoomCounted(t, a, now, actor, reason);
      InsertCounted(RoomFor(t, a, now, actor, reason), NewRecord(a, now, actor, reason), now, hash);
    }
  }

  lemma {:induction false} DeactivateCounted(t: Tables, d: string, target: AdmissionState, now: nat, actor: string, reason: string)
    requires RowsCounted(t)
    ensures RowsCounted(DeactivateStep(t, d, target, now, actor, reason).0)
  {
    if DeactivateStep(t, d, target, now, actor, reason).1.Ok? {
      SetStateCounted(t, d, target, now, actor, reason);
    }
  }

  lemma {:induction false} StepCounted(t: Tables, op: Op, hash: Hash)
    requires RowsCounted(t) && Inv(t, hash)
    ensures RowsCounted(Step(t, op).0)
  {
    match op
    case OpAdmit(a, now, actor, reason) => AdmitCounted(t, a, now, actor, reason, hash);
    case OpRenew(v, now, actor, reason) =>
      if RenewStep(t, v, now, actor, reason).1.Ok? {
        RenewCounted(t, v, now, actor, reason);
      }
    case OpDeactivate(d, target, now, actor, reason) => DeactivateCounted(t, d, target, now, actor, reason);
  }

  lemma {:induction false} RunCounted(t: Tables, ops: seq<Op>, hash: Hash)
    requires RowsCounted(t) && Inv(t, hash) && ValidOps(ops, hash)
    ensures RowsCounted(Run(t, ops))
    decreases |ops|
  {
    if ops != [] {
      assert ops[0] in ops;
      StepCounted(t, ops[0], hash);
      StepKeeps(t, ops[0], hash);
      RunCounted(Step(t, ops[0]).0, ops[1..], hash);
    }
  }

  /** The rows chain from nothing to the stored state, one per grant, renewal and end. */
  ghost predicate WholeStory(record: Record, rows: seq<TransitionRow>) {
    && |rows| == 1 + record.renewalCount + Ended(record.state)
    && rows[0].previous == None
    && Continuous(rows)
    && rows[|rows| - 1].next == record.state
  }

  lemma {:induction false} StoryOf(t: Tables, d: string, hash: Hash)
    requires Inv(t, hash) && RowsCounted(t) && d in t.admissions
    ensures WholeStory(t.admissions[d], TransitionsOf(t.transitions, d))
  {
    var rows := TransitionsOf(t.transitions, d);
    assert StoredOk(t, d, hash);
    assert ContinuesAt(rows, 0);
  }

  /** In every reachable ledger the transition rows of a deployment account for its stored state. */
  lemma {:induction false} TransitionsTellTheWholeStory(ops: seq<Op>, hash: Hash, d: string)
    requires ValidOps(ops, hash) && d in Run(EMPTY, ops).admissions
    ensures WholeStory(Run(EMPTY, ops).admissions[d], TransitionsOf(Run(EMPTY, ops).transitions, d))
  {
    RunKeeps(EMPTY, ops, hash);
    RunCounted(EMPTY, ops, hash);
    StoryOf(Run(EMPTY, ops), d, hash);
  }

  // ----- which records can be read back -----

  /** The checks across the fields of a record that is read back. */
  ghost predicate Consistent(record: Record) {
    && record.admittedAt < record.expiresAt
    && record.capital > 0
    && (record.renewalCount == 0 <==> record.authorizationId == record.admissionId)
    && (record.renewalCount > 0 ==> record.publicKey.Some?)
  }

  /** The length bounds on the actor and the reason of a record that is read back. */
  predicate Fits(record: Record) { 1 <= |record.actor| <= 256 && 1 <= |record.reason| <= 512 }

  ghost predicate ReadsBack(record: Record) { Consistent(record) && Fits(record) }

  ghost predicate AllReadBack(t: Tables) {
    forall d | d in t.admissions :: ReadsBack(t.admissions[d])
  }

  lemma {:induction false} ChainReadsBack(record: Record, chain: seq<RenewalRow>, initialExpiry: nat)
    requires ChainOk(record, chain, initialExpiry) && record.admittedAt < initialExpiry && record.capital > 0
    requires chain != [] ==> chain[|chain| - 1].Auth() != record.admissionId
    ensures Consistent(record)
  {
    if chain != [] {
      assert chain[..|chain|] == chain && Lapses(chain, initialExpiry, 0) == initialExpiry;
      ExpiriesIncrease(chain, record.admissionId, initialExpiry, 0, |chain|);
    }
  }

  /** In a valid ledger every record is consistent across its fields. */
  lemma {:induction false} StoredIsConsistent(t: Tables, d: string, hash: Hash)
    requires CollisionFree(hash) && Inv(t, hash) && d in t.admissions
    ensures Consistent(t.admissions[d])
  {
    var chain := RenewalsOf(t.renewals, d);
    if chain != [] {
      TipIsNotAdmission(t, d, |chain| - 1, hash);
    }
    var stored := StoredAdmission(t, d, hash);
    var initialExpiry := StoredChain(t, d, hash);
    ChainReadsBack(t.admissions[d], chain, initialExpiry);
  }

  lemma {:induction false} ValidTexts(actor: string, reason: string)
    requires ValidInput(actor, reason)
    ensures 1 <= |actor| <= 256 && 1 <= |reason| <= 512
  {
  }

  /** What every write keeps: only the reason of a superseded record can exceed its bound. */
  predicate FitsUnlessSuperseded(record: Record) {
    1 <= |record.actor| <= 256 && 1 <= |record.reason| && (record.state != Superseded ==> |record.reason| <= 512)
  }

  ghost predicate AllFitUnlessSuperseded(t: Tables) {
    forall d | d in t.admissions :: FitsUnlessSuperseded(t.admissions[d])
  }

  lemma {:induction false} AdmitKeepsTexts(t: Tables, a: Admission, now: nat, actor: string, reason: string)
    requires AllFitUnlessSuperseded(t)
    ensures AllFitUnlessSuperseded(AdmitStep(t, a, now, actor, reason).0)
  {
    AdmitShape(t, a, now, actor, reason);
    if AdmitStep(t, a, now, actor, reason).0 != t {
      ValidTexts(actor, reason);
      assert |SupersededBy(a.approval, reason)| >= 1;
      assert AllFitUnlessSuperseded(RoomFor(t, a, now, actor, reason));
    }
  }

  lemma {:induction false} StepKeepsTexts(t: Tables, op: Op)
    requires AllFitUnlessSuperseded(t)
    ensures AllFitUnlessSuperseded(Step(t, op).0)
  {
    match op
    case OpAdmit(a, now, actor, reason) => AdmitKeepsTexts(t, a, now, actor, reason);
    case OpRenew(v, now, actor, reason) =>
      if ValidInput(actor, reason) {
        ValidTexts(actor, reason);
      }
    case OpDeactivate(d, target, now, actor, reason) =>
      if ValidInput(actor, reason) {
        ValidTexts(actor, reason);
      }
  }

  lemma {:induction false} RunKeepsTexts(t: Tables, ops: seq<Op>)
    requires AllFitUnlessSuperseded(t)
    ensures AllFitUnlessSuperseded(Run(t, ops))
    decreases |ops|
  {
    if ops != [] {
      StepKeepsTexts(t, ops[0]);
      RunKeepsTexts(Step(t, ops[0]).0, ops[1..]);
    }
  }

  /**
   Exactly which records of a reachable ledger can be read back: all of them but
   superseded ones whose composed reason is too long.
   */
  lemma {:induction false} StoredRecordsReadBack(ops: seq<Op>, hash: Hash, d: string)
    requires CollisionFree(hash) && ValidOps(ops, hash) && d in Run(EMPTY, ops).admissions
    ensures var record := Run(EMPTY, ops).admissions[d];
            ReadsBack(record) <==> (record.state == Superseded ==> |record.reason| <= 512)
  {
    RunKeeps(EMPTY, ops, hash);
    RunKeepsTexts(EMPTY, ops);
    StoredIsConsistent(Run(EMPTY, ops), d, hash);
    assert FitsUnlessSuperseded(Run(EMPTY, ops).admissions[d]);
  }

  /** The reason that a production admission would write on its canary is too long to be read back. */
  predicate Overlong(op: Op) {
    op.OpAdmit? && op.admission.approval.stage == Production
    && |SupersededBy(op.admission.approval, op.reason)| > 512
  }

  lemma {:induction false} AdmitFits(t: Tables, a: Admission, now: nat, actor: string, reason: string)
    requires UniqueAdmissions(t.admissions) && (forall d | d in t.admissions :: Fits(t.admissions[d]))
    requires AdmitStep(t, a, now, actor, reason).0 != t
    ensures (forall d | d in AdmitStep(t, a, now, actor, reason).0.admissions ::
               Fits(AdmitStep(t, a, now, actor, reason).0.admissions[d]))
            <==> !Overlong(OpAdmit(a, now, actor, reason))
  {
    AdmitShape(t, a, now, actor, reason);
    ValidTexts(actor, reason);
    var next := AdmitStep(t, a, now, actor, reason).0;
    if a.approval.stage == Production {
      ProductionSupersedesItsCanary(t, a, now, actor, reason);
      var canary := a.approval.rollbackDeploymentId;
      assert next.admissions[canary].reason == SupersededBy(a.approval, reason);
      assert 1 <= |SupersededBy(a.approval, reason)|;
    }
  }

  lemma {:induction false} OtherStepsFit(t: Tables, op: Op)
    requires (forall d | d in t.admissions :: Fits(t.admissions[d])) && !op.OpAdmit?
    ensures forall d | d in Step(t, op).0.admissions :: Fits(Step(t, op).0.admissions[d])
  {
    if ValidInput(op.actor, op.reason) {
      ValidTexts(op.actor, op.reason);
    }
  }

  lemma {:induction false} AllConsistent(t: Tables, hash: Hash)
    requires CollisionFree(hash) && Inv(t, hash)
    ensures AllReadBack(t) <==> forall d | d in t.admissions :: Fits(t.admissions[d])
  {
    forall d | d in t.admissions ensures Consistent(t.admissions[d]) {
      StoredIsConsistent(t, d, hash);
    }
  }

  /**
   From a ledger that can be read, every operation leaves one that can be read,
   except an accepted production admission whose composed reason is too long.
   */
  lemma {:induction false} StaysReadableExactlyWhen(t: Tables, op: Op, hash: Hash)
    requires CollisionFree(hash) && Inv(t, hash) && op.Valid(hash) && AllReadBack(t)
    ensures AllReadBack(Step(t, op).0) <==> Step(t, op).0 == t || !Overlong(op)
  {
    StepKeeps(t, op, hash);
    AllConsistent(t, hash);
    AllConsistent(Step(t, op).0, hash);
    if op.OpAdmit? {
      if Step(t, op).0 != t {
        AdmitFits(t, op.admission, op.at, op.actor, op.reason);
      }
    } else {
      OtherStepsFit(t, op);
    }
  }
}
