/**
 The deployment admission ledger: three tables, transactional operations and
 the uniqueness constraints of the database, then the guarantees that hold over
 every run.
 */
module AdmissionLedger {
  import opened Wrappers
  import opened Governance

  datatype TransitionRow = TransitionRow(
    deploymentId: string, occurredAt: nat, previous: Option<AdmissionState>, next: AdmissionState)

  /** `appliedAt` is the instant of the transaction that inserted the row. */
  datatype RenewalRow = RenewalRow(verified: VerifiedRenewal, appliedAt: nat)
  {
    function Auth(): Digest { verified.authorizationId }
    function Prior(): Digest { verified.renewal.priorAuthorizationId }
    function Deployment(): string { verified.renewal.deploymentId }
  }

  datatype Tables = Tables(
    admissions: map<string, Record>, renewals: seq<RenewalRow>, transitions: seq<TransitionRow>)

  const EMPTY := Tables(map[], [], [])

  datatype LedgerError =
    | InvalidInput | InactiveApproval | IdentityConsumed | AccountOwned | NoCanary | WrongPredecessor
    | InactiveRenewal | NotRegistered | NotActive | NotProduction | AdmissionExpired
    | AdmissionChanged | ApprovalChanged | StaleChain | ImmutableFieldChanged | ExpiryNotExtended | PredatesAdmission
    | RenewalConsumed | IntegrityError | ForbiddenTarget

  type Outcome = Result<Record, LedgerError>

  // ----- queries -----

  predicate SameIdentity(record: Record, approval: Approval) {
    record.approvalId == approval.approvalId || record.deploymentId == approval.deploymentId
  }

  ghost predicate ActiveFor(record: Record, owner: (string, string)) {
    record.state == Active && record.Owner() == owner
  }

  predicate RequireActive(t: Tables, admission: Admission, now: nat) {
    && admission.approval.deploymentId in t.admissions
    && var record := t.admissions[admission.approval.deploymentId];
       && record.state == Active
       && record.admissionId == admission.admissionId
       && record.approvalId == admission.approval.approvalId
       && now < record.expiresAt
  }

  /** UNIQUE and PRIMARY KEY constraints on the admissions table. */
  ghost predicate UniqueAdmissions(admissions: map<string, Record>) {
    && (forall d | d in admissions :: admissions[d].deploymentId == d)
    && (forall d, e | d in admissions && e in admissions && d != e :: Compatible(admissions[d], admissions[e]))
  }

  predicate Compatible(a: Record, b: Record) {
    && a.approvalId != b.approvalId
    && a.admissionId != b.admissionId
    && a.authorizationId != b.authorizationId
    && !(a.state == Active && b.state == Active && a.Owner() == b.Owner())
  }

  predicate UniqueRenewal(rows: seq<RenewalRow>, row: RenewalRow) {
    forall i | 0 <= i < |rows| ::
      rows[i].Auth() != row.Auth() && rows[i].verified.renewal.renewalId != row.verified.renewal.renewalId
  }

  // ----- the operations as functions on tables -----

  function NewRecord(a: Admission, now: nat, actor: string, reason: string): Record {
    var p := a.approval;
    Record(p.deploymentId, p.approvalId, a.admissionId, a.admissionId, 0, Some(a.publicKey), p.stage,
           p.account, p.vault, p.manifest, p.configuration, p.image, p.capital,
           now, p.expiresAt, Active, actor, reason)
  }

  function SetState(t: Tables, d: string, state: AdmissionState, now: nat, actor: string, reason: string): Tables
    requires d in t.admissions
  {
    var was := t.admissions[d];
    t.(admissions := t.admissions[d := was.(state := state, actor := actor, reason := reason)],
       transitions := t.transitions + [TransitionRow(d, now, Some(was.state), state)])
  }

  function Insert(t: Tables, record: Record, now: nat): Tables {
    t.(admissions := t.admissions[record.deploymentId := record],
       transitions := t.transitions + [TransitionRow(record.deploymentId, now, None, record.state)])
  }

  predicate CanInsert(t: Tables, record: Record) {
    record.deploymentId !in t.admissions && forall d | d in t.admissions :: Compatible(t.admissions[d], record)
  }

  ghost predicate Bound(predecessor: Record, approval: Approval) {
    && predecessor.stage == ApprovedCanary
    && Some(predecessor.approvalId) == approval.priorApprovalId
    && predecessor.deploymentId == approval.rollbackDeploymentId
  }

  ghost predicate Owned(t: Tables, owner: (string, string)) {
    exists d :: d in t.admissions && ActiveFor(t.admissions[d], owner)
  }

  /** The deployment that currently owns an account and vault. */
  ghost function OwnerDeployment(t: Tables, owner: (string, string)): (d: string)
    requires Owned(t, owner)
    ensures d in t.admissions && ActiveFor(t.admissions[d], owner)
  {
    var d :| d in t.admissions && ActiveFor(t.admissions[d], owner);
    d
  }

  ghost predicate Consumed(t: Tables, approval: Approval) {
    exists d :: d in t.admissions && SameIdentity(t.admissions[d], approval)
  }

  /**
   The checks of an admission, in order; a result means the call ends without
   writing.  Admitting the same active admission again returns its record.
   */
  ghost function AdmitCheck(t: Tables, a: Admission, now: nat, actor: string, reason: string): Option<Outcome> {
    var p := a.approval;
    var owner := OwnerOf(p.account, p.vault);
    if !ValidInput(actor, reason) then Some(Err(InvalidInput))
    else if !p.IsActive(now) then Some(Err(InactiveApproval))
    else if Consumed(t, p) then Some(Repeated(t, a))
    else if p.stage == ApprovedCanary then if Owned(t, owner) then Some(Err(AccountOwned)) else None
    else if !Owned(t, owner) then Some(Err(NoCanary))
    else if !Bound(t.admissions[OwnerDeployment(t, owner)], p) then Some(Err(WrongPredecessor))
    else None
  }

  function Repeated(t: Tables, a: Admission): Outcome {
    var d := a.approval.deploymentId;
    if d in t.admissions && t.admissions[d].admissionId == a.admissionId && t.admissions[d].state == Active
    then Ok(t.admissions[d])
    else Err(IdentityConsumed)
  }

  /** The tables once the canary that a production release replaces has been superseded. */
  ghost function RoomFor(t: Tables, a: Admission, now: nat, actor: string, reason: string): Tables
    requires AdmitCheck(t, a, now, actor, reason).None?
  {
    var p := a.approval;
    if p.stage == ApprovedCanary then t
    else
      SetState(t, OwnerDeployment(t, OwnerOf(p.account, p.vault)), Superseded, now, actor, SupersededBy(p, reason))
  }

  function SupersededBy(p: Approval, reason: string): string {
    "superseded by " + p.deploymentId + ": " + reason
  }

  ghost function AdmitStep(t: Tables, a: Admission, now: nat, actor: string, reason: string): (Tables, Outcome) {
    var decided := AdmitCheck(t, a, now, actor, reason);
    if decided.Some? then (t, decided.value)
    else
      var room := RoomFor(t, a, now, actor, reason);
      var record := NewRecord(a, now, actor, reason);
      if !CanInsert(room, record) then (t, Err(IntegrityError)) else (Insert(room, record, now), Ok(record))
  }

  predicate ImmutableUnchanged(r: Renewal, publicKey: Digest, current: Record) {
    && Lower(r.account) == Lower(current.account)
    && LowerOption(r.vault) == LowerOption(current.vault)
    && r.manifest == current.manifest
    && Some(publicKey) == current.publicKey
    && r.configuration == current.configuration
    && r.image == current.image
    && r.capital == current.capital
  }

  function Renewed(current: Record, v: VerifiedRenewal, actor: string, reason: string): Record {
    current.(authorizationId := v.authorizationId, renewalCount := current.renewalCount + 1,
             expiresAt := v.renewal.expiresAt, actor := actor, reason := reason)
  }

  predicate CanReplace(t: Tables, d: string, record: Record) {
    forall e | e in t.admissions && e != d :: Compatible(t.admissions[e], record)
  }

  function ApplyRenewal(t: Tables, v: VerifiedRenewal, now: nat, actor: string, reason: string): Tables
    requires v.renewal.deploymentId in t.admissions
  {
    var d := v.renewal.deploymentId;
    var current := t.admissions[d];
    Tables(t.admissions[d := Renewed(current, v, actor, reason)],
           t.renewals + [RenewalRow(v, now)],
           t.transitions + [TransitionRow(d, now, Some(current.state), current.state)])
  }

  /** The checks of a renewal, in order, before anything is written. */
  function RenewCheck(t: Tables, v: VerifiedRenewal, now: nat, actor: string, reason: string): Option<LedgerError> {
    var r := v.renewal;
    if !ValidInput(actor, reason) then Some(InvalidInput)
    else if !r.IsActive(now) then Some(InactiveRenewal)
    else if r.deploymentId !in t.admissions then Some(NotRegistered)
    else
      var current := t.admissions[r.deploymentId];
      if current.state != Active then Some(NotActive)
      else if current.stage != Production then Some(NotProduction)
      else if now >= current.expiresAt then Some(AdmissionExpired)
      else if r.admissionId != current.admissionId then Some(AdmissionChanged)
      else if r.initialApprovalId != current.approvalId then Some(ApprovalChanged)
      else if r.priorAuthorizationId != current.authorizationId then Some(StaleChain)
      else if !ImmutableUnchanged(r, v.publicKey, current) then Some(ImmutableFieldChanged)
      else if r.expiresAt <= current.expiresAt then Some(ExpiryNotExtended)
      else if r.approvedAt < current.admittedAt then Some(PredatesAdmission)
      else if exists i :: 0 <= i < |t.renewals| && t.renewals[i].Auth() == v.authorizationId then Some(RenewalConsumed)
      else None
  }

  function RenewStep(t: Tables, v: VerifiedRenewal, now: nat, actor: string, reason: string): (Tables, Outcome) {
    var problem := RenewCheck(t, v, now, actor, reason);
    if problem.Some? then (t, Err(problem.value))
    else
      var updated := Renewed(t.admissions[v.renewal.deploymentId], v, actor, reason);
      if !UniqueRenewal(t.renewals, RenewalRow(v, now)) || !CanReplace(t, v.renewal.deploymentId, updated)
      then (t, Err(IntegrityError))
      else (ApplyRenewal(t, v, now, actor, reason), Ok(updated))
  }

  function DeactivateStep(
    t: Tables, d: string, target: AdmissionState, now: nat, actor: string, reason: string): (Tables, Outcome)
  {
    if target != RolledBack && target != Revoked then (t, Err(ForbiddenTarget))
    else if !ValidInput(actor, reason) then (t, Err(InvalidInput))
    else if d !in t.admissions then (t, Err(NotRegistered))
    else if t.admissions[d].state != Active then (t, Err(NotActive))
    else
      var next := SetState(t, d, target, now, actor, reason);
      (next, Ok(next.admissions[d]))
  }

  // ----- the invariant -----

  /** The renewal rows of one deployment, oldest first. */
  function RenewalsOf(rows: seq<RenewalRow>, d: string): seq<RenewalRow> {
    if rows == [] then []
    else
      var row := rows[|rows| - 1];
      RenewalsOf(rows[..|rows| - 1], d) + if row.Deployment() == d then [row] else []
  }

  function TransitionsOf(rows: seq<TransitionRow>, d: string): seq<TransitionRow> {
    if rows == [] then []
    else
      var row := rows[|rows| - 1];
      TransitionsOf(rows[..|rows| - 1], d) + if row.deploymentId == d then [row] else []
  }

  function Tip(chain: seq<RenewalRow>, start: Digest): Digest {
    if chain == [] then start else chain[|chain| - 1].Auth()
  }

  function TipExpiry(chain: seq<RenewalRow>, start: nat): nat {
    if chain == [] then start else chain[|chain| - 1].verified.renewal.expiresAt
  }

  /**
   A renewal names the authorization right before it, and is applied before that
   authorization lapses to an instant strictly after it.
   */
  ghost predicate LinkedAt(chain: seq<RenewalRow>, start: Digest, initialExpiry: nat, i: nat)
    requires i < |chain|
  {
    && chain[i].Prior() == Tip(chain[..i], start)
    && chain[i].appliedAt < TipExpiry(chain[..i], initialExpiry) < chain[i].verified.renewal.expiresAt
  }

  ghost predicate Linked(chain: seq<RenewalRow>, start: Digest, initialExpiry: nat) {
    forall i: nat | i < |chain| :: LinkedAt(chain, start, initialExpiry, i)
  }

  function StateAfter(rows: seq<TransitionRow>): Option<AdmissionState> {
    if rows == [] then None else Some(rows[|rows| - 1].next)
  }

  /** The row starts from the state the previous one reached. */
  ghost predicate ContinuesAt(rows: seq<TransitionRow>, i: nat)
    requires i < |rows|
  {
    rows[i].previous == StateAfter(rows[..i])
  }

  ghost predicate Continuous(rows: seq<TransitionRow>) {
    forall i: nat | i < |rows| :: ContinuesAt(rows, i)
  }

  /** Each row starts from the state the previous one reached; the last one reached `state`. */
  ghost predicate Faithful(rows: seq<TransitionRow>, state: AdmissionState) {
    Continuous(rows) && StateAfter(rows) == Some(state)
  }

  ghost predicate ChainOk(record: Record, chain: seq<RenewalRow>, initialExpiry: nat) {
    && Linked(chain, record.admissionId, initialExpiry)
    && record.authorizationId == Tip(chain, record.admissionId)
    && record.expiresAt == TipExpiry(chain, initialExpiry)
    && record.renewalCount == |chain|
    && (chain != [] ==> record.publicKey.Some?)
  }

  /** The identities and the approved release of a record are those of one signed admission. */
  ghost predicate FromAdmission(record: Record, a: Admission, hash: Hash) {
    && a.Valid(hash)
    && record.admissionId == a.admissionId
    && record.approvalId == a.approval.approvalId && record.deploymentId == a.approval.deploymentId
    && record.stage == a.approval.stage
    && record.account == a.approval.account && record.vault == a.approval.vault
    && record.manifest == a.approval.manifest && record.configuration == a.approval.configuration
    && record.image == a.approval.image && record.capital == a.approval.capital
    && record.admittedAt < a.approval.expiresAt
  }

  ghost predicate RecordOk(record: Record, chain: seq<RenewalRow>, rows: seq<TransitionRow>, hash: Hash) {
    && (exists a: Admission :: FromAdmission(record, a, hash) && ChainOk(record, chain, a.approval.expiresAt))
    && Faithful(rows, record.state)
  }

  ghost predicate RowOk(t: Tables, i: nat, hash: Hash)
    requires i < |t.renewals|
  {
    t.renewals[i].verified.Valid(hash) && t.renewals[i].Deployment() in t.admissions
  }

  ghost predicate RenewalsOk(t: Tables, hash: Hash) {
    && (forall i: nat {:trigger RowOk(t, i, hash)} | i < |t.renewals| :: RowOk(t, i, hash))
    && (forall i, j | 0 <= i < j < |t.renewals| ::
          t.renewals[i].Auth() != t.renewals[j].Auth()
          && t.renewals[i].verified.renewal.renewalId != t.renewals[j].verified.renewal.renewalId)
  }

  ghost predicate StoredOk(t: Tables, d: string, hash: Hash)
    requires d in t.admissions
  {
    RecordOk(t.admissions[d], RenewalsOf(t.renewals, d), TransitionsOf(t.transitions, d), hash)
  }

  ghost predicate RecordsOk(t: Tables, hash: Hash) {
    forall d {:trigger StoredOk(t, d, hash)} | d in t.admissions :: StoredOk(t, d, hash)
  }

  ghost predicate TransitionsKnown(t: Tables) {
    forall i | 0 <= i < |t.transitions| :: t.transitions[i].deploymentId in t.admissions
  }

  ghost predicate Inv(t: Tables, hash: Hash) {
    UniqueAdmissions(t.admissions) && RenewalsOk(t, hash) && RecordsOk(t, hash) && TransitionsKnown(t)
  }

  // ----- preservation -----

  lemma {:induction false} NoRowsForUnknown(t: Tables, d: string, hash: Hash)
    requires RenewalsOk(t, hash) && TransitionsKnown(t) && d !in t.admissions
    ensures RenewalsOf(t.renewals, d) == [] && TransitionsOf(t.transitions, d) == []
  {
    forall i: nat | i < |t.renewals| ensures t.renewals[i].Deployment() != d {
      assert RowOk(t, i, hash);
    }
    NoRenewals(t.renewals, d);
    NoTransitions(t.transitions, d);
  }

  lemma {:induction false} NoRenewals(rows: seq<RenewalRow>, d: string)
    requires forall i | 0 <= i < |rows| :: rows[i].Deployment() != d
    ensures RenewalsOf(rows, d) == []
  {
    if rows != [] {
      NoRenewals(rows[..|rows| - 1], d);
    }
  }

  lemma {:induction false} NoTransitions(rows: seq<TransitionRow>, d: string)
    requires forall i | 0 <= i < |rows| :: rows[i].deploymentId != d
    ensures TransitionsOf(rows, d) == []
  {
    if rows != [] {
      NoTransitions(rows[..|rows| - 1], d);
    }
  }

  lemma {:induction false} TransitionSnoc(rows: seq<TransitionRow>, row: TransitionRow, d: string)
    ensures row.deploymentId == d ==> TransitionsOf(rows + [row], d) == TransitionsOf(rows, d) + [row]
    ensures row.deploymentId != d ==> TransitionsOf(rows + [row], d) == TransitionsOf(rows, d)
  {
    assert (rows + [row])[..|rows|] == rows;
  }

  lemma {:induction false} RenewalSnoc(rows: seq<RenewalRow>, row: RenewalRow, d: string)
    ensures row.Deployment() == d ==> RenewalsOf(rows + [row], d) == RenewalsOf(rows, d) + [row]
    ensures row.Deployment() != d ==> RenewalsOf(rows + [row], d) == RenewalsOf(rows, d)
  {
    assert (rows + [row])[..|rows|] == rows;
  }

  lemma {:induction false} FaithfulSnoc(rows: seq<TransitionRow>, row: TransitionRow)
    requires Continuous(rows) && row.previous == StateAfter(rows)
    ensures Faithful(rows + [row], row.next)
  {
    var all := rows + [row];
    forall i: nat | i < |all| ensures ContinuesAt(all, i) {
      assert all[..i] == rows[..i];
      assert i < |rows| ==> ContinuesAt(rows, i);
      assert rows[..|rows|] == rows;
    }
  }

  lemma {:induction false} FirstFaithful(row: TransitionRow)
    requires row.previous == None
    ensures Faithful([row], row.next)
  {
    FaithfulSnoc([], row);
    assert [] + [row] == [row];
  }

  lemma {:induction false} FreshChainOk(a: Admission, now: nat, actor: string, reason: string, hash: Hash)
    requires a.Valid(hash) && a.approval.IsActive(now)
    ensures FromAdmission(NewRecord(a, now, actor, reason), a, hash)
    ensures ChainOk(NewRecord(a, now, actor, reason), [], a.approval.expiresAt)
  {
  }

  lemma {:induction false} RecordOkBy(record: Record, chain: seq<RenewalRow>, rows: seq<TransitionRow>, a: Admission, hash: Hash)
    requires FromAdmission(record, a, hash) && ChainOk(record, chain, a.approval.expiresAt) && Faithful(rows, record.state)
    ensures RecordOk(record, chain, rows, hash)
  {
  }

  lemma {:induction false} FreshRecordOk(a: Admission, now: nat, actor: string, reason: string, row: TransitionRow, hash: Hash)
    requires a.Valid(hash) && a.approval.IsActive(now) && row.previous == None && row.next == Active
    ensures RecordOk(NewRecord(a, now, actor, reason), [], [row], hash)
  {
    FirstFaithful(row);
    FreshChainOk(a, now, actor, reason, hash);
    RecordOkBy(NewRecord(a, now, actor, reason), [], [row], a, hash);
  }

  lemma {:induction false} MovedRecordOk(
    record: Record, moved: Record, chain: seq<RenewalRow>, rows: seq<TransitionRow>, row: TransitionRow, hash: Hash)
    requires RecordOk(record, chain, rows, hash)
    requires moved == record.(state := row.next, actor := moved.actor, reason := moved.reason)
    requires row.previous == Some(record.state)
    ensures RecordOk(moved, chain, rows + [row], hash)
  {
    FaithfulSnoc(rows, row);
    var a: Admission :| FromAdmission(record, a, hash) && ChainOk(record, chain, a.approval.expiresAt);
    assert FromAdmission(moved, a, hash) && ChainOk(moved, chain, a.approval.expiresAt);
  }

  lemma {:induction false} InsertKeepsRecords(t: Tables, record: Record, now: nat, hash: Hash)
    requires RenewalsOk(t, hash) && RecordsOk(t, hash) && TransitionsKnown(t)
    requires record.deploymentId !in t.admissions
    requires RecordOk(record, [], [TransitionRow(record.deploymentId, now, None, record.state)], hash)
    ensures RecordsOk(Insert(t, record, now), hash)
  {
    var d := record.deploymentId;
    var next := Insert(t, record, now);
    var row := TransitionRow(d, now, None, record.state);
    NoRowsForUnknown(t, d, hash);
    forall e | e in next.admissions ensures StoredOk(next, e, hash) {
      TransitionSnoc(t.transitions, row, e);
      assert [] + [row] == [row];
      assert e != d ==> StoredOk(t, e, hash);
    }
  }

  lemma {:induction false} InsertKeepsUnique(admissions: map<string, Record>, record: Record)
    requires UniqueAdmissions(admissions) && record.deploymentId !in admissions
    requires forall d | d in admissions :: Compatible(admissions[d], record)
    ensures UniqueAdmissions(admissions[record.deploymentId := record])
  {
  }

  lemma {:induction false} InsertKeepsRows(t: Tables, record: Record, now: nat, hash: Hash)
    requires RenewalsOk(t, hash) && TransitionsKnown(t)
    ensures RenewalsOk(Insert(t, record, now), hash) && TransitionsKnown(Insert(t, record, now))
  {
    forall i: nat | i < |t.renewals| ensures RowOk(Insert(t, record, now), i, hash) {
      assert RowOk(t, i, hash);
    }
  }

  lemma {:induction false} InsertKeeps(t: Tables, a: Admission, now: nat, actor: string, reason: string, hash: Hash)
    requires Inv(t, hash) && a.Valid(hash) && a.approval.IsActive(now)
    requires CanInsert(t, NewRecord(a, now, actor, reason))
    ensures Inv(Insert(t, NewRecord(a, now, actor, reason), now), hash)
  {
    var record := NewRecord(a, now, actor, reason);
    FreshRecordOk(a, now, actor, reason, TransitionRow(record.deploymentId, now, None, Active), hash);
    InsertKeepsRecords(t, record, now, hash);
    InsertKeepsRows(t, record, now, hash);
    InsertKeepsUnique(t.admissions, record);
  }

  lemma {:induction false} ReplaceKeepsUnique(admissions: map<string, Record>, d: string, record: Record)
    requires UniqueAdmissions(admissions) && d in admissions && record.deploymentId == d
    requires forall e | e in admissions && e != d :: Compatible(admissions[e], record)
    ensures UniqueAdmissions(admissions[d := record])
  {
  }

  lemma {:induction false} StillCompatible(other: Record, record: Record, moved: Record)
    requires Compatible(other, record)
    requires moved == record.(state := moved.state, actor := moved.actor, reason := moved.reason)
    requires moved.state == Active ==> record.state == Active
    ensures Compatible(other, moved)
  {
    assert moved.Owner() == record.Owner();
  }

  lemma {:induction false} SetStateKeepsRecords(
    t: Tables, d: string, state: AdmissionState, now: nat, actor: string, reason: string, hash: Hash)
    requires RecordsOk(t, hash) && d in t.admissions
    ensures RecordsOk(SetState(t, d, state, now, actor, reason), hash)
  {
    var next := SetState(t, d, state, now, actor, reason);
    var row := TransitionRow(d, now, Some(t.admissions[d].state), state);
    forall e | e in next.admissions ensures StoredOk(next, e, hash) {
      TransitionSnoc(t.transitions, row, e);
      assert StoredOk(t, e, hash);
      if e == d {
        MovedRecordOk(t.admissions[d], next.admissions[d], RenewalsOf(t.renewals, d),
                      TransitionsOf(t.transitions, d), row, hash);
      }
    }
  }

  lemma {:induction false} SetStateKeepsRows(
    t: Tables, d: string, state: AdmissionState, now: nat, actor: string, reason: string, hash: Hash)
    requires RenewalsOk(t, hash) && TransitionsKnown(t) && d in t.admissions
    ensures RenewalsOk(SetState(t, d, state, now, actor, reason), hash)
    ensures TransitionsKnown(SetState(t, d, state, now, actor, reason))
  {
    forall i: nat | i < |t.renewals| ensures RowOk(SetState(t, d, state, now, actor, reason), i, hash) {
      assert RowOk(t, i, hash);
    }
  }

  lemma {:induction false} MoveKeepsUnique(admissions: map<string, Record>, d: string, moved: Record)
    requires UniqueAdmissions(admissions) && d in admissions
    requires moved == admissions[d].(state := moved.state, actor := moved.actor, reason := moved.reason)
    requires moved.state != Active
    ensures UniqueAdmissions(admissions[d := moved])
  {
    forall e | e in admissions && e != d ensures Compatible(admissions[e], moved) {
      StillCompatible(admissions[e], admissions[d], moved);
    }
    ReplaceKeepsUnique(admissions, d, moved);
  }

  lemma {:induction false} SetStateKeeps(t: Tables, d: string, state: AdmissionState, now: nat, actor: string, reason: string, hash: Hash)
    requires Inv(t, hash) && d in t.admissions && state != Active
    ensures Inv(SetState(t, d, state, now, actor, reason), hash)
  {
    SetStateKeepsRecords(t, d, state, now, actor, reason, hash);
    SetStateKeepsRows(t, d, state, now, actor, reason, hash);
    MoveKeepsUnique(t.admissions, d, SetState(t, d, state, now, actor, reason).admissions[d]);
  }

  lemma {:induction false} LinkedSnoc(chain: seq<RenewalRow>, row: RenewalRow, start: Digest, initialExpiry: nat)
    requires Linked(chain, start, initialExpiry) && row.Prior() == Tip(chain, start)
    requires row.appliedAt < TipExpiry(chain, initialExpiry) < row.verified.renewal.expiresAt
    ensures Linked(chain + [row], start, initialExpiry)
  {
    var longer := chain + [row];
    forall i: nat | i < |longer| ensures LinkedAt(longer, start, initialExpiry, i) {
      assert longer[..i] == chain[..i];
      assert i < |chain| ==> LinkedAt(chain, start, initialExpiry, i);
      assert chain[..|chain|] == chain;
    }
  }

  lemma {:induction false} RenewedChainOk(
    record: Record, row: RenewalRow, actor: string, reason: string, chain: seq<RenewalRow>, a: Admission, hash: Hash)
    requires FromAdmission(record, a, hash) && ChainOk(record, chain, a.approval.expiresAt) && record.publicKey.Some?
    requires row.Prior() == record.authorizationId
    requires row.appliedAt < record.expiresAt < row.verified.renewal.expiresAt
    ensures FromAdmission(Renewed(record, row.verified, actor, reason), a, hash)
    ensures ChainOk(Renewed(record, row.verified, actor, reason), chain + [row], a.approval.expiresAt)
  {
    LinkedSnoc(chain, row, record.admissionId, a.approval.expiresAt);
  }

  lemma {:induction false} RenewedRecordOk(
    record: Record, row: RenewalRow, actor: string, reason: string,
    chain: seq<RenewalRow>, rows: seq<TransitionRow>, moved: TransitionRow, hash: Hash)
    requires RecordOk(record, chain, rows, hash) && record.publicKey.Some?
    requires row.Prior() == record.authorizationId
    requires row.appliedAt < record.expiresAt < row.verified.renewal.expiresAt
    requires moved.previous == Some(record.state) && moved.next == record.state
    ensures RecordOk(Renewed(record, row.verified, actor, reason), chain + [row], rows + [moved], hash)
  {
    FaithfulSnoc(rows, moved);
    var a: Admission :| FromAdmission(record, a, hash) && ChainOk(record, chain, a.approval.expiresAt);
    RenewedChainOk(record, row, actor, reason, chain, a, hash);
    RecordOkBy(Renewed(record, row.verified, actor, reason), chain + [row], rows + [moved], a, hash);
  }

  /** What a renewal leaves stored about one deployment. */
  lemma {:induction false} RenewalLeaves(t: Tables, v: VerifiedRenewal, now: nat, actor: string, reason: string, e: string)
    requires v.renewal.deploymentId in t.admissions && e in t.admissions
    ensures var next, d := ApplyRenewal(t, v, now, actor, reason), v.renewal.deploymentId;
            var moved := TransitionRow(d, now, Some(t.admissions[d].state), t.admissions[d].state);
            && next.admissions.Keys == t.admissions.Keys
            && next.admissions[e] == (if e == d then Renewed(t.admissions[d], v, actor, reason) else t.admissions[e])
            && RenewalsOf(next.renewals, e)
               == (if e == d then RenewalsOf(t.renewals, e) + [RenewalRow(v, now)] else RenewalsOf(t.renewals, e))
            && TransitionsOf(next.transitions, e)
               == (if e == d then TransitionsOf(t.transitions, e) + [moved] else TransitionsOf(t.transitions, e))
  {
    var d := v.renewal.deploymentId;
    var row, moved := RenewalRow(v, now), TransitionRow(d, now, Some(t.admissions[d].state), t.admissions[d].state);
    TransitionSnoc(t.transitions, moved, e);
    RenewalSnoc(t.renewals, row, e);
  }

  /** One stored record after a renewal, whether it is the renewed one or another. */
  lemma {:induction false} ApplyRenewalKeepsRecord(
    t: Tables, v: VerifiedRenewal, now: nat, actor: string, reason: string, e: string, hash: Hash)
    requires v.renewal.deploymentId in t.admissions && e in t.admissions
    requires StoredOk(t, e, hash)
    requires var current := t.admissions[v.renewal.deploymentId];
             && current.publicKey.Some? && v.renewal.priorAuthorizationId == current.authorizationId
             && now < current.expiresAt < v.renewal.expiresAt
    ensures StoredOk(ApplyRenewal(t, v, now, actor, reason), e, hash)
  {
    RenewalLeaves(t, v, now, actor, reason, e);
    if e == v.renewal.deploymentId {
      var moved := TransitionRow(e, now, Some(t.admissions[e].state), t.admissions[e].state);
      RenewedRecordOk(t.admissions[e], RenewalRow(v, now), actor, reason, RenewalsOf(t.renewals, e),
                      TransitionsOf(t.transitions, e), moved, hash);
    }
  }

  lemma {:induction false} ApplyRenewalKeepsRecords(t: Tables, v: VerifiedRenewal, now: nat, actor: string, reason: string, hash: Hash)
    requires RecordsOk(t, hash) && v.renewal.deploymentId in t.admissions
    requires var current := t.admissions[v.renewal.deploymentId];
             && current.publicKey.Some? && v.renewal.priorAuthorizationId == current.authorizationId
             && now < current.expiresAt < v.renewal.expiresAt
    ensures RecordsOk(ApplyRenewal(t, v, now, actor, reason), hash)
  {
    var next := ApplyRenewal(t, v, now, actor, reason);
    forall e | e in next.admissions ensures StoredOk(next, e, hash) {
      assert StoredOk(t, e, hash);
      ApplyRenewalKeepsRecord(t, v, now, actor, reason, e, hash);
    }
  }

  lemma {:induction false} RenewAccepted(t: Tables, v: VerifiedRenewal, now: nat, actor: string, reason: string)
    requires RenewStep(t, v, now, actor, reason).1.Ok?
    ensures var d := v.renewal.deploymentId;
            && d in t.admissions
            && t.admissions[d].publicKey.Some?
            && v.renewal.priorAuthorizationId == t.admissions[d].authorizationId
            && now < t.admissions[d].expiresAt < v.renewal.expiresAt
            && UniqueRenewal(t.renewals, RenewalRow(v, now))
            && CanReplace(t, d, Renewed(t.admissions[d], v, actor, reason))
            && RenewStep(t, v, now, actor, reason).0 == ApplyRenewal(t, v, now, actor, reason)
  {
  }

  lemma {:induction false} RenewalRowsKept(t: Tables, v: VerifiedRenewal, now: nat, actor: string, reason: string, hash: Hash)
    requires RenewalsOk(t, hash) && TransitionsKnown(t) && v.Valid(hash)
    requires v.renewal.deploymentId in t.admissions && UniqueRenewal(t.renewals, RenewalRow(v, now))
    ensures RenewalsOk(ApplyRenewal(t, v, now, actor, reason), hash)
    ensures TransitionsKnown(ApplyRenewal(t, v, now, actor, reason))
  {
    var next := ApplyRenewal(t, v, now, actor, reason);
    forall i: nat | i < |next.renewals| ensures RowOk(next, i, hash) {
      assert i < |t.renewals| ==> RowOk(t, i, hash);
    }
  }

  lemma {:induction false} RenewKeeps(t: Tables, v: VerifiedRenewal, now: nat, actor: string, reason: string, hash: Hash)
    requires Inv(t, hash) && v.Valid(hash) && RenewStep(t, v, now, actor, reason).1.Ok?
    ensures Inv(RenewStep(t, v, now, actor, reason).0, hash)
  {
    RenewAccepted(t, v, now, actor, reason);
    var d := v.renewal.deploymentId;
    var record := Renewed(t.admissions[d], v, actor, reason);
    assert record.deploymentId == d;
    ApplyRenewalKeepsRecords(t, v, now, actor, reason, hash);
    RenewalRowsKept(t, v, now, actor, reason, hash);
    ReplaceKeepsUnique(t.admissions, d, record);
  }

  // ----- uniqueness constraints never fire on honest input -----

  lemma {:induction false} TipIsAuthorization(t: Tables, d: string, hash: Hash) returns (i: int)
    requires Inv(t, hash) && d in t.admissions
    ensures i == -1 ==> t.admissions[d].authorizationId == t.admissions[d].admissionId
    ensures i != -1 ==>
              0 <= i < |t.renewals| && t.renewals[i].Auth() == t.admissions[d].authorizationId
              && t.renewals[i].Deployment() == d
  {
    var chain := RenewalsOf(t.renewals, d);
    assert StoredOk(t, d, hash);
    if chain == [] {
      i := -1;
    } else {
      i := ChainIndex(t.renewals, d, |chain| - 1);
    }
  }

  lemma {:induction false} ChainIndex(rows: seq<RenewalRow>, d: string, k: nat) returns (i: nat)
    requires k < |RenewalsOf(rows, d)|
    ensures i < |rows| && rows[i] == RenewalsOf(rows, d)[k] && rows[i].Deployment() == d
  {
    var init := rows[..|rows| - 1];
    if k < |RenewalsOf(init, d)| {
      i := ChainIndex(init, d, k);
    } else {
      i := |rows| - 1;
    }
  }

  /** The admission behind a stored record. */
  lemma {:induction false} StoredAdmission(t: Tables, d: string, hash: Hash) returns (a: Admission)
    requires Inv(t, hash) && d in t.admissions
    ensures FromAdmission(t.admissions[d], a, hash)
  {
    assert StoredOk(t, d, hash);
    a :| FromAdmission(t.admissions[d], a, hash)
         && ChainOk(t.admissions[d], RenewalsOf(t.renewals, d), a.approval.expiresAt);
  }

  /** The authorization chain behind a stored record. */
  lemma {:induction false} StoredChain(t: Tables, d: string, hash: Hash) returns (initialExpiry: nat)
    requires Inv(t, hash) && d in t.admissions
    ensures t.admissions[d].admittedAt < initialExpiry
    ensures ChainOk(t.admissions[d], RenewalsOf(t.renewals, d), initialExpiry)
  {
    assert StoredOk(t, d, hash);
    var a: Admission :| FromAdmission(t.admissions[d], a, hash)
                        && ChainOk(t.admissions[d], RenewalsOf(t.renewals, d), a.approval.expiresAt);
    initialExpiry := a.approval.expiresAt;
  }

  /** No authorization of the chain is the admission itself. */
  lemma {:induction false} TipIsNotAdmission(t: Tables, d: string, k: nat, hash: Hash)
    requires CollisionFree(hash) && Inv(t, hash) && d in t.admissions && k < |RenewalsOf(t.renewals, d)|
    ensures RenewalsOf(t.renewals, d)[k].Auth() != t.admissions[d].admissionId
  {
    var stored := StoredAdmission(t, d, hash);
    var i := ChainIndex(t.renewals, d, k);
    assert RowOk(t, i, hash);
    assert hash(t.renewals[i].verified.Payload()) != hash(stored.Payload());
  }

  /** A fresh admission clashes with no stored identity. */
  lemma {:induction false} FreshIdentities(t: Tables, a: Admission, e: string, hash: Hash)
    requires CollisionFree(hash) && Inv(t, hash) && a.Valid(hash) && e in t.admissions
    requires !SameIdentity(t.admissions[e], a.approval)
    ensures t.admissions[e].admissionId != a.admissionId && t.admissions[e].authorizationId != a.admissionId
  {
    var stored := StoredAdmission(t, e, hash);
    assert hash(stored.Payload()) != hash(a.Payload());
    var i := TipIsAuthorization(t, e, hash);
    if i != -1 {
      assert RowOk(t, i, hash);
      assert hash(t.renewals[i].verified.Payload()) != hash(a.Payload());
    }
  }

  lemma {:induction false} CanAlwaysInsert(t: Tables, a: Admission, now: nat, actor: string, reason: string, hash: Hash)
    requires CollisionFree(hash) && Inv(t, hash) && a.Valid(hash) && !Consumed(t, a.approval)
    requires !Owned(t, OwnerOf(a.approval.account, a.approval.vault))
    ensures CanInsert(t, NewRecord(a, now, actor, reason))
  {
    var record := NewRecord(a, now, actor, reason);
    assert record.Owner() == OwnerOf(a.approval.account, a.approval.vault);
    if record.deploymentId in t.admissions {
      assert SameIdentity(t.admissions[record.deploymentId], a.approval);
      assert false;
    }
    forall e | e in t.admissions ensures Compatible(t.admissions[e], record) {
      assert !SameIdentity(t.admissions[e], a.approval);
      assert !ActiveFor(t.admissions[e], record.Owner());
      FreshIdentities(t, a, e, hash);
    }
  }

  lemma {:induction false} SupersededFreesOwner(t: Tables, d: string, now: nat, actor: string, reason: string, approval: Approval)
    requires UniqueAdmissions(t.admissions) && d in t.admissions
    requires ActiveFor(t.admissions[d], OwnerOf(approval.account, approval.vault)) && !Consumed(t, approval)
    ensures var next := SetState(t, d, Superseded, now, actor, reason);
            !Owned(next, OwnerOf(approval.account, approval.vault)) && !Consumed(next, approval)
  {
    var owner := OwnerOf(approval.account, approval.vault);
    var next := SetState(t, d, Superseded, now, actor, reason);
    forall e | e in next.admissions ensures !ActiveFor(next.admissions[e], owner) && !SameIdentity(next.admissions[e], approval) {
      assert !SameIdentity(t.admissions[e], approval);
      if e != d {
        assert Compatible(t.admissions[e], t.admissions[d]);
      }
    }
  }

  lemma {:induction false} RoomKeeps(t: Tables, a: Admission, now: nat, actor: string, reason: string, hash: Hash)
    requires Inv(t, hash) && AdmitCheck(t, a, now, actor, reason).None?
    ensures Inv(RoomFor(t, a, now, actor, reason), hash) && a.approval.IsActive(now)
  {
    var p := a.approval;
    if p.stage == Production {
      SetStateKeeps(t, OwnerDeployment(t, OwnerOf(p.account, p.vault)), Superseded, now, actor,
                    SupersededBy(p, reason), hash);
    }
  }

  lemma {:induction false} RoomIsFree(t: Tables, a: Admission, now: nat, actor: string, reason: string)
    requires UniqueAdmissions(t.admissions) && AdmitCheck(t, a, now, actor, reason).None?
    ensures !Consumed(RoomFor(t, a, now, actor, reason), a.approval)
    ensures !Owned(RoomFor(t, a, now, actor, reason), OwnerOf(a.approval.account, a.approval.vault))
  {
    var p := a.approval;
    if p.stage == Production {
      SupersededFreesOwner(t, OwnerDeployment(t, OwnerOf(p.account, p.vault)), now, actor, SupersededBy(p, reason), p);
    }
  }

  /** An admission either changes nothing or inserts its record where room was made. */
  lemma {:induction false} AdmitShape(t: Tables, a: Admission, now: nat, actor: string, reason: string)
    ensures AdmitStep(t, a, now, actor, reason).0 == t
            || (AdmitCheck(t, a, now, actor, reason).None?
                && CanInsert(RoomFor(t, a, now, actor, reason), NewRecord(a, now, actor, reason))
                && AdmitStep(t, a, now, actor, reason).0
                   == Insert(RoomFor(t, a, now, actor, reason), NewRecord(a, now, actor, reason), now))
  {
  }

  lemma {:induction false} AdmitKeeps(t: Tables, a: Admission, now: nat, actor: string, reason: string, hash: Hash)
    requires Inv(t, hash) && a.Valid(hash)
    ensures Inv(AdmitStep(t, a, now, actor, reason).0, hash)
  {
    AdmitShape(t, a, now, actor, reason);
    var next := AdmitStep(t, a, now, actor, reason).0;
    if next != t {
      RoomKeeps(t, a, now, actor, reason, hash);
      InsertKeeps(RoomFor(t, a, now, actor, reason), a, now, actor, reason, hash);
    }
  }

  /** Without hash collisions no admission ever trips a uniqueness constraint. */
  lemma {:induction false} AdmitNeverClashes(t: Tables, a: Admission, now: nat, actor: string, reason: string, hash: Hash)
    requires CollisionFree(hash) && Inv(t, hash) && a.Valid(hash)
    ensures AdmitStep(t, a, now, actor, reason).1 != Err(IntegrityError)
  {
    if AdmitCheck(t, a, now, actor, reason).None? {
      RoomKeeps(t, a, now, actor, reason, hash);
      RoomIsFree(t, a, now, actor, reason);
      CanAlwaysInsert(RoomFor(t, a, now, actor, reason), a, now, actor, reason, hash);
    }
  }

  lemma {:induction false} DeactivateKeeps(
    t: Tables, d: string, target: AdmissionState, now: nat, actor: string, reason: string, hash: Hash)
    requires Inv(t, hash)
    ensures Inv(DeactivateStep(t, d, target, now, actor, reason).0, hash)
  {
    if DeactivateStep(t, d, target, now, actor, reason).1.Ok? {
      SetStateKeeps(t, d, target, now, actor, reason, hash);
    }
  }

  /** In a valid ledger the stored row with the admission's own identity is the only one that can match it. */
  lemma {:induction false} MatchingRow(t: Tables, a: Admission, d: string, hash: Hash)
    requires CollisionFree(hash) && Inv(t, hash) && a.Valid(hash)
    requires d in t.admissions && SameIdentity(t.admissions[d], a.approval)
    ensures t.admissions[d].admissionId == a.admissionId ==> d == a.approval.deploymentId
    ensures (a.approval.deploymentId in t.admissions
             && t.admissions[a.approval.deploymentId].admissionId == a.admissionId) ==> d == a.approval.deploymentId
  {
    var stored := StoredAdmission(t, d, hash);
    if stored.Payload() != a.Payload() {
      assert hash(stored.Payload()) != hash(a.Payload());
    }
    if a.approval.deploymentId in t.admissions && a.approval.deploymentId != d {
      var own := StoredAdmission(t, a.approval.deploymentId, hash);
      if own.Payload() != a.Payload() {
        assert hash(own.Payload()) != hash(a.Payload());
      }
      assert Compatible(t.admissions[d], t.admissions[a.approval.deploymentId]);
    }
  }

  lemma {:induction false} OneOwner(t: Tables, owner: (string, string), d: string, e: string)
    requires UniqueAdmissions(t.admissions) && d in t.admissions && e in t.admissions
    requires ActiveFor(t.admissions[d], owner) && ActiveFor(t.admissions[e], owner)
    ensures d == e
  {
    assert d != e ==> Compatible(t.admissions[d], t.admissions[e]);
  }

  // ----- the ledger object -----

  /**
   The one-writer ledger.  Each operation runs as a transaction: statements
   change the tables one by one and a failing statement rolls all of them back.
   */
  class DeploymentAdmissionLedger {
    ghost const hash: Hash
    var admissions: map<string, Record>
    var renewals: seq<RenewalRow>
    var transitions: seq<TransitionRow>

    ghost predicate Valid()
      reads this
    {
      Inv(View(), hash)
    }

    ghost function View(): Tables
      reads this
    {
      Tables(admissions, renewals, transitions)
    }

    constructor (ghost hash: Hash)
      ensures this.hash == hash && Valid() && View() == EMPTY
    {
      this.hash := hash;
      admissions, renewals, transitions := map[], [], [];
    }

    /** UPDATE of one admission row and INSERT of its transition row. */
    method UpdateState(d: string, state: AdmissionState, now: nat, actor: string, reason: string)
      requires d in admissions
      modifies this
      ensures View() == SetState(old(View()), d, state, now, actor, reason)
    {
      var was := admissions[d];
      admissions := admissions[d := was.(state := state, actor := actor, reason := reason)];
      transitions := transitions + [TransitionRow(d, now, Some(was.state), state)];
    }

    method InsertAdmission(record: Record, now: nat) returns (ok: bool)
      modifies this
      ensures ok <==> CanInsert(old(View()), record)
      ensures ok ==> View() == Insert(old(View()), record, now)
      ensures !ok ==> View() == old(View())
    {
      if record.deploymentId in admissions || exists d | d in admissions :: !Compatible(admissions[d], record) {
        return false;
      }
      admissions := admissions[record.deploymentId := record];
      transitions := transitions + [TransitionRow(record.deploymentId, now, None, record.state)];
      return true;
    }

    /** The deployments that already use the approval's or the deployment's identity. */
    method FindConsumed(p: Approval) returns (matching: set<string>)
      ensures matching != {} <==> Consumed(View(), p)
      ensures forall d :: d in matching <==> d in admissions && SameIdentity(admissions[d], p)
    {
      matching := set d | d in admissions && SameIdentity(admissions[d], p);
      assert forall d | d in View().admissions && SameIdentity(View().admissions[d], p) :: d in matching;
    }

    method FindOwners(owner: (string, string)) returns (owners: set<string>)
      ensures owners != {} <==> Owned(View(), owner)
      ensures forall d :: d in owners <==> d in admissions && ActiveFor(admissions[d], owner)
    {
      owners := set d | d in admissions && admissions[d].state == Active && admissions[d].Owner() == owner;
      assert forall d | d in View().admissions && ActiveFor(View().admissions[d], owner) :: d in owners;
    }

    /** Answer for an identity that is already stored.  Any row that matches it may be the one fetched. */
    method Repeat(a: Admission) returns (result: Outcome)
      requires Valid() && a.Valid(hash) && Consumed(View(), a.approval)
      ensures CollisionFree(hash) ==> result == Repeated(View(), a)
    {
      var matching := FindConsumed(a.approval);
      var d :| d in matching;
      if CollisionFree(hash) {
        MatchingRow(View(), a, d, hash);
      }
      if admissions[d].admissionId == a.admissionId && admissions[d].state == Active {
        return Ok(admissions[d]);
      }
      return Err(IdentityConsumed);
    }

    /** The admission that currently owns an account and vault, if there is one. */
    method ActiveRow(owner: (string, string)) returns (row: Option<Record>)
      requires Valid()
      ensures row.None? <==> !Owned(View(), owner)
      ensures row.Some? ==> row.value == View().admissions[OwnerDeployment(View(), owner)]
                            && row.value.deploymentId == OwnerDeployment(View(), owner)
    {
      var owners := FindOwners(owner);
      if owners == {} { return None; }
      var d :| d in owners;
      OneOwner(View(), owner, d, OwnerDeployment(View(), owner));
      return Some(admissions[d]);
    }

    method CheckAdmission(a: Admission, now: nat, actor: string, reason: string) returns (decided: Option<Outcome>)
      requires Valid() && a.Valid(hash)
      ensures decided.Some? <==> AdmitCheck(View(), a, now, actor, reason).Some?
      ensures CollisionFree(hash) ==> decided == AdmitCheck(View(), a, now, actor, reason)
    {
      var p := a.approval;
      if !ValidInput(actor, reason) { return Some(Err(InvalidInput)); }
      if !p.IsActive(now) { return Some(Err(InactiveApproval)); }
      var matching := FindConsumed(p);
      if matching != {} {
        var result := Repeat(a);
        return Some(result);
      }
      var active := ActiveRow(OwnerOf(p.account, p.vault));
      if p.stage == ApprovedCanary {
        return if active.Some? then Some(Err(AccountOwned)) else None;
      }
      if active.None? { return Some(Err(NoCanary)); }
      var predecessor := active.value;
      if predecessor.stage != ApprovedCanary || Some(predecessor.approvalId) != p.priorApprovalId
         || predecessor.deploymentId != p.rollbackDeploymentId {
        return Some(Err(WrongPredecessor));
      }
      return None;
    }

    method MakeRoom(a: Admission, now: nat, actor: string, reason: string)
      requires Valid() && AdmitCheck(View(), a, now, actor, reason).None?
      modifies this
      ensures View() == RoomFor(old(View()), a, now, actor, reason)
    {
      var p := a.approval;
      if p.stage == Production {
        var active := ActiveRow(OwnerOf(p.account, p.vault));
        UpdateState(active.value.deploymentId, Superseded, now, actor, SupersededBy(p, reason));
      }
    }

    /** Admit a canary on a free account, or a production release in place of the canary it names. */
    method Admit(a: Admission, now: nat, actor: string, reason: string) returns (result: Outcome)
      requires Valid() && a.Valid(hash)
      modifies this
      ensures Valid()
      ensures View() == AdmitStep(old(View()), a, now, actor, reason).0
      ensures CollisionFree(hash) ==> result == AdmitStep(old(View()), a, now, actor, reason).1
    {
      ghost var was := View();
      AdmitKeeps(was, a, now, actor, reason, hash);
      var decided := CheckAdmission(a, now, actor, reason);
      if decided.Some? { return decided.value; }
      var savedAdmissions, savedRenewals, savedTransitions := admissions, renewals, transitions;
      MakeRoom(a, now, actor, reason);
      var record := NewRecord(a, now, actor, reason);
      var ok := InsertAdmission(record, now);
      if !ok {
        admissions, renewals, transitions := savedAdmissions, savedRenewals, savedTransitions;
        assert View() == was;
        return Err(IntegrityError);
      }
      return Ok(record);
    }

    method CheckRenewal(v: VerifiedRenewal, now: nat, actor: string, reason: string) returns (problem: Option<LedgerError>)
      ensures problem == RenewCheck(View(), v, now, actor, reason)
    {
      var r := v.renewal;
      if !ValidInput(actor, reason) { return Some(InvalidInput); }
      if !r.IsActive(now) { return Some(InactiveRenewal); }
      if r.deploymentId !in admissions { return Some(NotRegistered); }
      var current := admissions[r.deploymentId];
      if current.state != Active { return Some(NotActive); }
      if current.stage != Production { return Some(NotProduction); }
      if now >= current.expiresAt { return Some(AdmissionExpired); }
      if r.admissionId != current.admissionId { return Some(AdmissionChanged); }
      if r.initialApprovalId != current.approvalId { return Some(ApprovalChanged); }
      if r.priorAuthorizationId != current.authorizationId { return Some(StaleChain); }
      if !ImmutableUnchanged(r, v.publicKey, current) { return Some(ImmutableFieldChanged); }
      if r.expiresAt <= current.expiresAt { return Some(ExpiryNotExtended); }
      if r.approvedAt < current.admittedAt { return Some(PredatesAdmission); }
      if exists i | 0 <= i < |renewals| :: renewals[i].Auth() == v.authorizationId { return Some(RenewalConsumed); }
      return None;
    }

    /** INSERT of the renewal row, UPDATE of the admission and INSERT of its transition row, or nothing at all. */
    method WriteRenewal(v: VerifiedRenewal, now: nat, actor: string, reason: string) returns (ok: bool)
      requires v.renewal.deploymentId in admissions
      modifies this
      ensures ok <==>
                UniqueRenewal(old(renewals), RenewalRow(v, now))
                && CanReplace(old(View()), v.renewal.deploymentId,
                              Renewed(old(admissions)[v.renewal.deploymentId], v, actor, reason))
      ensures View() == if ok then ApplyRenewal(old(View()), v, now, actor, reason) else old(View())
    {
      var d := v.renewal.deploymentId;
      var current := admissions[d];
      var updated := Renewed(current, v, actor, reason);
      var row := RenewalRow(v, now);
      if !UniqueRenewal(renewals, row) { return false; }
      var saved := renewals;
      renewals := renewals + [row];
      if exists e | e in admissions :: e != d && !Compatible(admissions[e], updated) {
        renewals := saved;
        return false;
      }
      admissions := admissions[d := updated];
      transitions := transitions + [TransitionRow(d, now, Some(current.state), updated.state)];
      return true;
    }

    method Renew(v: VerifiedRenewal, now: nat, actor: string, reason: string) returns (result: Outcome)
      requires Valid() && v.Valid(hash)
      modifies this
      ensures Valid()
      ensures (View(), result) == RenewStep(old(View()), v, now, actor, reason)
    {
      if RenewStep(View(), v, now, actor, reason).1.Ok? {
        RenewKeeps(View(), v, now, actor, reason, hash);
      }
      var problem := CheckRenewal(v, now, actor, reason);
      if problem.Some? { return Err(problem.value); }
      var ok := WriteRenewal(v, now, actor, reason);
      if !ok { return Err(IntegrityError); }
      return Ok(admissions[v.renewal.deploymentId]);
    }

    method Deactivate(d: string, target: AdmissionState, now: nat, actor: string, reason: string)
      returns (result: Outcome)
      requires Valid()
      modifies this
      ensures Valid()
      ensures (View(), result) == DeactivateStep(old(View()), d, target, now, actor, reason)
    {
      DeactivateKeeps(View(), d, target, now, actor, reason, hash);
      if target != RolledBack && target != Revoked { return Err(ForbiddenTarget); }
      if !ValidInput(actor, reason) { return Err(InvalidInput); }
      if d !in admissions { return Err(NotRegistered); }
      if admissions[d].state != Active { return Err(NotActive); }
      UpdateState(d, target, now, actor, reason);
      return Ok(admissions[d]);
    }
  }
}
