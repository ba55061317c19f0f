/**
 Concrete runs from the empty ledger: a superseded record that cannot be read
 back, and an authority revived by a clock that runs backwards.
 */
module LedgerExamples {
  import opened Wrappers
  import opened Governance
  import opened AdmissionLedger
  import opened LedgerGuarantees
  import RenewalApproval

  const CANARY := Approval("ac", "canary", ApprovedCanary, "0xA", None, 1, 2, 3, 100, "stable", None, 0, 100)

  const RELEASE := Approval("ar", "release", Production, "0xa", None, 1, 2, 3, 100, "canary", Some("ac"), 0, 100)

  function Signed(approval: Approval, hash: Hash): Admission {
    Admission(hash(AdmissionPayload(approval, 4, 5, 6)), approval, 4, 5, 6)
  }

  function Extension(hash: Hash): VerifiedRenewal {
    var admission := Signed(RELEASE, hash).admissionId;
    var r := Renewal("r1", "release", "ar", admission, admission, "0xA", None, 1, 2, 3, 100, 10, 200);
    VerifiedRenewal(hash(RenewalPayload(r, 5, 6)), r, 5, 6, 50)
  }

  function Launch(reason: string, hash: Hash): seq<Op> {
    [OpAdmit(Signed(CANARY, hash), 1, "op", "go"), OpAdmit(Signed(RELEASE, hash), 2, "op", reason)]
  }

  lemma {:induction false} PlainInput(actor: string, reason: string)
    requires 1 <= |actor| <= 256 && 1 <= |reason| <= 512 && !IsSpace(actor[0]) && !IsSpace(reason[0])
    ensures ValidInput(actor, reason)
  {
  }

  /** The canary takes the free account. */
  lemma {:induction false} FirstAdmission(hash: Hash)
    ensures AdmitStep(EMPTY, Signed(CANARY, hash), 1, "op", "go").0
         == Insert(EMPTY, NewRecord(Signed(CANARY, hash), 1, "op", "go"), 1)
  {
    PlainInput("op", "go");
    assert AdmitCheck(EMPTY, Signed(CANARY, hash), 1, "op", "go").None?;
  }

  /** The release takes over from the canary it names. */
  lemma {:induction false} SecondAdmission(t: Tables, reason: string, hash: Hash)
    requires CollisionFree(hash) && Inv(t, hash)
    requires t == Insert(EMPTY, NewRecord(Signed(CANARY, hash), 1, "op", "go"), 1)
    requires 1 <= |reason| <= 512 && !IsSpace(reason[0])
    ensures var next := AdmitStep(t, Signed(RELEASE, hash), 2, "op", reason).0;
            && next != t
            && next.admissions.Keys == {"canary", "release"}
            && next.admissions["canary"].reason == SupersededBy(RELEASE, reason)
            && next.admissions["release"] == NewRecord(Signed(RELEASE, hash), 2, "op", reason)
            && next.renewals == []
  {
    var a := Signed(RELEASE, hash);
    PlainInput("op", reason);
    assert t.admissions.Keys == {"canary"};
    assert OwnerOf(RELEASE.account, RELEASE.vault) == OwnerOf(CANARY.account, CANARY.vault) by {
      SameAccount();
    }
    assert ActiveFor(t.admissions["canary"], OwnerOf(RELEASE.account, RELEASE.vault));
    assert AdmitCheck(t, a, 2, "op", reason).None?;
    AdmitNeverClashes(t, a, 2, "op", reason, hash);
    AdmitShape(t, a, 2, "op", reason);
    assert "release" in AdmitStep(t, a, 2, "op", reason).0.admissions;
    ProductionSupersedesItsCanary(t, a, 2, "op", reason);
  }

  lemma {:induction false} SameAccount()
    ensures Lower("0xA") == Lower("0xa")
  {
    assert "0xA"[1..] == "xA" && "0xa"[1..] == "xa" && "xA"[1..] == "A" && "xa"[1..] == "a";
    assert Lower("A") == ['a'] + Lower("A"[1..]) && Lower("a") == ['a'] + Lower("a"[1..]);
    assert "A"[1..] == "" == "a"[1..];
    assert Lower("xA") == ['x'] + Lower("A") && Lower("xa") == ['x'] + Lower("a");
  }

  lemma {:induction false} Launched(reason: string, hash: Hash) returns (t: Tables)
    requires CollisionFree(hash) && 1 <= |reason| <= 512 && !IsSpace(reason[0])
    ensures t == Run(EMPTY, Launch(reason, hash)) && Inv(t, hash) && ValidOps(Launch(reason, hash), hash)
    ensures t.admissions.Keys == {"canary", "release"} && t.renewals == []
    ensures t.admissions["canary"].reason == SupersededBy(RELEASE, reason)
    ensures t.admissions["release"] == NewRecord(Signed(RELEASE, hash), 2, "op", reason)
  {
    var ops := Launch(reason, hash);
    RunKeeps(EMPTY, ops, hash);
    t := Run(EMPTY, ops);
    FirstAdmission(hash);
    var one := Step(EMPTY, ops[0]).0;
    StepKeeps(EMPTY, ops[0], hash);
    SecondAdmission(one, reason, hash);
    assert ops[1..][1..] == [] && ops[1..][0] == ops[1];
    assert Run(EMPTY, ops) == Run(one, ops[1..]) == Run(Step(one, ops[1]).0, []) == Step(one, ops[1]).0;
  }

  /** Two legal admissions, the second with the longest reason allowed, leave a record that cannot be read back. */
  lemma {:induction false} LongReasonBreaksReading(reason: string, hash: Hash)
    requires CollisionFree(hash) && |reason| == 512 && !IsSpace(reason[0])
    ensures ValidOps(Launch(reason, hash), hash) && !AllReadBack(Run(EMPTY, Launch(reason, hash)))
  {
    var t := Launched(reason, hash);
    assert |t.admissions["canary"].reason| > 512;
    assert !ReadsBack(t.admissions["canary"]);
  }

  /** Refused as expired at 150, and accepted at 150 again after a renewal stamped 50. */
  lemma {:induction false} RevivalIsReachable(hash: Hash)
    requires CollisionFree(hash)
    ensures var t, a, renewal := Run(EMPTY, Launch("go", hash)), Signed(RELEASE, hash), OpRenew(Extension(hash), 50, "op", "go");
            && ValidOps(Launch("go", hash), hash) && renewal.Valid(hash)
            && Refused(t, a, 150) && RequireActive(Run(t, [renewal]), a, 150)
  {
    var t := Launched("go", hash);
    var a, v := Signed(RELEASE, hash), Extension(hash);
    PlainInput("op", "go");
    assert Lower(v.renewal.account) == Lower(t.admissions["release"].account) by {
      SameAccount();
    }
    assert RenewCheck(t, v, 50, "op", "go").None?;
    RenewalApproval.RenewalAppliesExactlyWhen(t, v, 50, "op", "go", hash);
    RevivedByABackwardClock(t, a, v, 50, 150, "op", "go");
  }
}
