/**
 The walk-forward planner and the selection that opens the final holdout.
 */
module WalkForward {
  import opened Wrappers

  datatype Policy = Policy(
    train: nat, purge: nat, validation: nat, embargo: nat, test: nat, step: nat,
    holdout: nat, labelHorizon: nat, minimumFolds: nat)
  {
    /** The checks every policy passed when it was built. */
    predicate Valid() {
      && train > 0 && purge > 0 && validation > 0 && embargo > 0 && test > 0 && step > 0
      && holdout > 0 && labelHorizon > 0 && minimumFolds >= 1
      && purge >= labelHorizon && step >= test
    }

    function Span(): nat { train + purge + validation + embargo + test }
  }

  datatype Role = Train | Purge | Validation | Embargo | Test | Holdout

  datatype Window = Window(role: Role, begin: nat, end: nat)
  {
    predicate Valid() { begin < end }
  }

  predicate Overlap(a: Window, b: Window) { a.begin < b.end && b.begin < a.end }

  datatype Fold = Fold(number: nat, train: Window, purge: Window, validation: Window, embargo: Window, test: Window)
  {
    /** Roles in order, each window starting where the one before it ends. */
    predicate Valid() {
      && train.Valid() && purge.Valid() && validation.Valid() && embargo.Valid() && test.Valid()
      && train.role == Train && purge.role == Purge && validation.role == Validation
      && embargo.role == Embargo && test.role == Test
      && train.end == purge.begin && purge.end == validation.begin
      && validation.end == embargo.begin && embargo.end == test.begin
      && !Overlap(train, purge) && !Overlap(purge, validation) && !Overlap(validation, embargo) && !Overlap(embargo, test)
    }
  }

  datatype Plan = Plan(labelHorizon: nat, folds: seq<Fold>, holdout: Window)
  {
    /** The checks of the finished plan. */
    predicate Valid() {
      && labelHorizon > 0 && |folds| >= 1 && holdout.Valid() && holdout.role == Holdout
      && (forall i | 0 <= i < |folds| :: folds[i].Valid())
      && (forall i | 0 <= i < |folds| :: folds[i].purge.end - folds[i].purge.begin >= labelHorizon)
      && (forall i | 0 <= i < |folds| :: folds[i].test.end <= holdout.begin)
    }
  }

  datatype PlanError = InvalidRange | HoldoutTakesAll | TooFewFolds(count: nat)

  // ----- the planner -----

  function FoldAt(p: Policy, number: nat, cursor: nat): Fold {
    var trainEnd := cursor + p.train;
    var purgeEnd := trainEnd + p.purge;
    var validationEnd := purgeEnd + p.validation;
    var embargoEnd := validationEnd + p.embargo;
    Fold(number, Window(Train, cursor, trainEnd), Window(Purge, trainEnd, purgeEnd),
         Window(Validation, purgeEnd, validationEnd), Window(Embargo, validationEnd, embargoEnd),
         Window(Test, embargoEnd, embargoEnd + p.test))
  }

  /** The number of folds: as many steps as fit before the holdout, in closed form. */
  function FoldCount(p: Policy, begin: nat, holdoutBegin: nat): nat
    requires p.step > 0
  {
    if begin + p.Span() > holdoutBegin then 0 else (holdoutBegin - begin - p.Span()) / p.step + 1
  }

  function Folds(p: Policy, begin: nat, n: nat): seq<Fold> {
    seq(n, i requires 0 <= i < n => FoldAt(p, i, begin + i * p.step))
  }

  function Planned(p: Policy, begin: int, end: int): Result<Plan, PlanError>
    requires p.step > 0
  {
    if begin < 0 || end <= begin then Err(InvalidRange)
    else if end - p.holdout <= begin then Err(HoldoutTakesAll)
    else
      var n := FoldCount(p, begin, end - p.holdout);
      if n < p.minimumFolds then Err(TooFewFolds(n))
      else Ok(Plan(p.labelHorizon, Folds(p, begin, n), Window(Holdout, end - p.holdout, end)))
  }

  lemma {:induction false} CountIsExact(room: nat, step: nat, n: nat)
    requires step > 0 && n * step <= room < (n + 1) * step
    ensures room / step == n
  {
    var q := room / step;
    assert q * step <= room < (q + 1) * step;
    if q < n {
      Monotone(q + 1, n, step);
      assert false;
    }
    if n < q {
      Monotone(n + 1, q, step);
      assert false;
    }
  }

  lemma {:induction false} Monotone(a: nat, b: nat, step: nat)
    requires a <= b
    ensures a * step <= b * step
  {
  }

  method PlanWalkForward(p: Policy, begin: int, end: int) returns (r: Result<Plan, PlanError>)
    requires p.Valid()
    ensures r == Planned(p, begin, end)
  {
    if begin < 0 || end <= begin { return Err(InvalidRange); }
    var holdoutBegin := end - p.holdout;
    if holdoutBegin <= begin { return Err(HoldoutTakesAll); }
    var folds: seq<Fold> := [];
    var cursor: nat := begin;
    while cursor + p.Span() <= holdoutBegin
      invariant cursor == begin + |folds| * p.step
      invariant folds == Folds(p, begin, |folds|)
      invariant |folds| > 0 ==> cursor - p.step + p.Span() <= holdoutBegin
      decreases holdoutBegin - cursor
    {
      folds := folds + [FoldAt(p, |folds|, cursor)];
      cursor := cursor + p.step;
      NextStep(|folds| - 1, p.step);
    }
    if |folds| > 0 {
      var room := holdoutBegin - begin - p.Span();
      NextStep(|folds| - 1, p.step);
      CountIsExact(room, p.step, |folds| - 1);
    }
    if |folds| < p.minimumFolds { return Err(TooFewFolds(|folds|)); }
    return Ok(Plan(p.labelHorizon, folds, Window(Holdout, holdoutBegin, end)));
  }

  lemma {:induction false} NextStep(n: nat, step: nat)
    ensures (n + 1) * step == n * step + step
  {
  }

  // ----- what a plan guarantees -----

  lemma {:induction false} FoldFits(p: Policy, begin: nat, holdoutBegin: nat, i: nat)
    requires p.Valid() && i < FoldCount(p, begin, holdoutBegin)
    ensures FoldAt(p, i, begin + i * p.step).Valid()
    ensures FoldAt(p, i, begin + i * p.step).test.end <= holdoutBegin
  {
    var room := holdoutBegin - begin - p.Span();
    var n := room / p.step;
    assert n * p.step <= room;
    Monotone(i, n, p.step);
  }

  function Length(w: Window): int { w.end - w.begin }

  /** Fold `i` starts `i` steps in, and every window has the length its policy asks for. */
  ghost predicate Laid(p: Policy, begin: nat, i: nat, fold: Fold) {
    && fold.number == i && fold.train.begin == begin + i * p.step
    && Length(fold.train) == p.train && Length(fold.purge) == p.purge && Length(fold.validation) == p.validation
    && Length(fold.embargo) == p.embargo && Length(fold.test) == p.test
  }

  lemma {:induction false} FoldsAreLaid(p: Policy, begin: int, end: int, i: nat)
    requires p.Valid() && Planned(p, begin, end).Ok? && i < |Planned(p, begin, end).value.folds|
    ensures var plan := Planned(p, begin, end).value;
            Laid(p, begin, i, plan.folds[i])
            && plan.holdout == Window(Holdout, end - p.holdout, end) && plan.labelHorizon == p.labelHorizon
  {
  }

  /** A plan is made exactly when the range holds the holdout and the minimum number of folds before it. */
  lemma {:induction false} PlannedExactlyWhen(p: Policy, begin: int, end: int)
    requires p.Valid()
    ensures Planned(p, begin, end).Ok?
            <==> 0 <= begin && begin + (p.minimumFolds - 1) * p.step + p.Span() <= end - p.holdout
    ensures Planned(p, begin, end) == Err(InvalidRange) <==> begin < 0 || end <= begin
    ensures Planned(p, begin, end) == Err(HoldoutTakesAll) <==> 0 <= begin < end && end - begin <= p.holdout
  {
    NotNegative(p.minimumFolds - 1, p.step);
    if 0 <= begin < end - p.holdout && begin + p.Span() <= end - p.holdout {
      var room := end - p.holdout - begin - p.Span();
      FitsExactlyWhen(room, p.step, p.minimumFolds - 1);
    }
  }

  lemma {:induction false} NotNegative(n: nat, step: nat)
    ensures n * step >= 0
  {
  }

  lemma {:induction false} FitsExactlyWhen(room: nat, step: nat, n: nat)
    requires step > 0
    ensures n <= room / step <==> n * step <= room
  {
    var q := room / step;
    assert q * step <= room < (q + 1) * step;
    if n <= q {
      Monotone(n, q, step);
    } else {
      Monotone(q + 1, n, step);
    }
  }

  /** Every check of the folds and of the plan passes once the minimum number of folds is met. */
  lemma {:induction false} PlanIsValid(p: Policy, begin: int, end: int)
    requires p.Valid() && Planned(p, begin, end).Ok?
    ensures Planned(p, begin, end).value.Valid()
  {
    var holdoutBegin := end - p.holdout;
    var plan := Planned(p, begin, end).value;
    forall i | 0 <= i < |plan.folds|
      ensures plan.folds[i].Valid() && plan.folds[i].test.end <= holdoutBegin
      ensures plan.folds[i].purge.end - plan.folds[i].purge.begin >= plan.labelHorizon
    {
      FoldFits(p, begin, holdoutBegin, i);
    }
  }

  /** No further fold would fit before the holdout. */
  lemma {:induction false} PlanIsComplete(p: Policy, begin: nat, holdoutBegin: nat)
    requires p.Valid()
    ensures FoldAt(p, 0, begin + FoldCount(p, begin, holdoutBegin) * p.step).test.end > holdoutBegin
  {
    var n := FoldCount(p, begin, holdoutBegin);
    if n > 0 {
      var room := holdoutBegin - begin - p.Span();
      assert room < (room / p.step) * p.step + p.step;
      NextStep(room / p.step, p.step);
    }
  }

  /** Test windows of different folds never overlap, and none reaches the holdout. */
  lemma {:induction false} TestsAreDisjoint(p: Policy, begin: int, end: int, i: nat, j: nat)
    requires p.Valid() && Planned(p, begin, end).Ok? && i < j < |Planned(p, begin, end).value.folds|
    ensures var plan := Planned(p, begin, end).value;
            !Overlap(plan.folds[i].test, plan.folds[j].test)
            && plan.folds[i].test.end <= plan.folds[j].test.begin
            && !Overlap(plan.folds[j].test, plan.holdout) && !Overlap(plan.folds[i].test, plan.holdout)
  {
    FoldFits(p, begin, end - p.holdout, i);
    FoldFits(p, begin, end - p.holdout, j);
    Monotone(i + 1, j, p.step);
    NextStep(i, p.step);
  }

  /** The label of a sample taken at `at` is decided by `at + horizon`. */
  predicate LabelReaches(at: nat, horizon: nat, w: Window) { at < w.end && at + horizon >= w.begin }

  /** No label of a training sample reaches the validation window. */
  lemma {:induction false} TrainingDoesNotLeak(p: Policy, begin: int, end: int, i: nat, at: nat)
    requires p.Valid() && Planned(p, begin, end).Ok? && i < |Planned(p, begin, end).value.folds|
    requires var fold := Planned(p, begin, end).value.folds[i]; fold.train.begin <= at < fold.train.end
    ensures var plan := Planned(p, begin, end).value;
            !LabelReaches(at, plan.labelHorizon, plan.folds[i].validation)
            && !LabelReaches(at, plan.labelHorizon, plan.folds[i].test)
  {
  }

  /**
   The embargo is not tied to the label horizon: validation labels stay out of
   the test window of their fold exactly when the embargo covers the horizon.
   */
  lemma {:induction false} ValidationLeaksExactlyWhen(p: Policy, begin: int, end: int, i: nat)
    requires p.Valid() && Planned(p, begin, end).Ok? && i < |Planned(p, begin, end).value.folds|
    ensures var plan := Planned(p, begin, end).value;
            var fold := plan.folds[i];
            (exists at: nat :: fold.validation.begin <= at < fold.validation.end
                               && LabelReaches(at, plan.labelHorizon, fold.test))
            <==> p.embargo < p.labelHorizon
  {
    var plan := Planned(p, begin, end).value;
    var fold := plan.folds[i];
    if p.embargo < p.labelHorizon {
      var at: nat := fold.validation.end - 1;
      assert LabelReaches(at, plan.labelHorizon, fold.test);
    }
  }

  // ----- selection -----

  predicate Before(a: string, b: string) {
    b != "" && (a == "" || a[0] < b[0] || (a[0] == b[0] && Before(a[1..], b[1..])))
  }

  /** The better score wins; equal scores go to the smaller id. */
  predicate Preferred(a: string, x: real, b: string, y: real, maximize: bool) {
    (if maximize then x > y else x < y) || (x == y && Before(a, b))
  }

  lemma {:induction false} BeforeIsTotal(a: string, b: string)
    ensures a == b || Before(a, b) || Before(b, a)
  {
    if a != "" && b != "" && a[0] == b[0] {
      BeforeIsTotal(a[1..], b[1..]);
      assert a == [a[0]] + a[1..] && b == [b[0]] + b[1..];
    }
  }

  lemma {:induction false} BeforeIsTransitive(a: string, b: string, d: string)
    requires Before(a, b) && Before(b, d)
    ensures Before(a, d)
  {
    if a != "" && a[0] == b[0] == d[0] {
      BeforeIsTransitive(a[1..], b[1..], d[1..]);
    }
  }

  lemma {:induction false} BeforeIsStrict(a: string, b: string)
    requires Before(a, b)
    ensures !Before(b, a) && a != b
  {
    if a != "" && a[0] == b[0] {
      BeforeIsStrict(a[1..], b[1..]);
    }
  }

  /** `a` is a proper beginning of `b`, or smaller at the first character that differs. */
  ghost predicate Sorts(a: string, b: string) {
    || (|a| < |b| && b[..|a|] == a)
    || exists i :: 0 <= i < |a| && i < |b| && a[..i] == b[..i] && a[i] < b[i]
  }

  lemma {:induction false} HeadAgrees(a: string, b: string, i: nat)
    requires a != "" && b != "" && i < |a| && i < |b| && a[..i] == b[..i] && i > 0
    ensures a[0] == b[0]
  {
    assert a[..i][0] == b[..i][0];
  }

  lemma {:induction false} PrefixAgrees(a: string, b: string)
    requires a != "" && |a| < |b| && b[..|a|] == a
    ensures a[0] == b[0]
  {
    assert b[..|a|][0] == b[0];
  }

  /** Where the first characters differ they decide. */
  lemma {:induction false} SortsByHead(a: string, b: string)
    requires a != "" && b != "" && a[0] != b[0]
    ensures Sorts(a, b) <==> a[0] < b[0]
  {
    if Sorts(a, b) {
      if |a| < |b| && b[..|a|] == a {
        PrefixAgrees(a, b);
        assert false;
      } else {
        var i :| 0 <= i < |a| && i < |b| && a[..i] == b[..i] && a[i] < b[i];
        if i > 0 {
          HeadAgrees(a, b, i);
          assert false;
        }
      }
    }
    if a[0] < b[0] {
      assert a[..0] == b[..0];
    }
  }

  lemma {:induction false} TailSorts(a: string, b: string)
    requires a != "" && b != "" && a[0] == b[0] && Sorts(a[1..], b[1..])
    ensures Sorts(a, b)
  {
    var c, d := a[1..], b[1..];
    assert a == [a[0]] + c && b == [b[0]] + d;
    if |c| < |d| && d[..|c|] == c {
      assert b[..|a|] == [b[0]] + d[..|c|];
    } else {
      var i :| 0 <= i < |c| && i < |d| && c[..i] == d[..i] && c[i] < d[i];
      assert a[..i + 1] == [a[0]] + c[..i] && b[..i + 1] == [b[0]] + d[..i];
      assert a[i + 1] < b[i + 1];
    }
  }

  lemma {:induction false} SortsTail(a: string, b: string)
    requires a != "" && b != "" && a[0] == b[0] && Sorts(a, b)
    ensures Sorts(a[1..], b[1..])
  {
    var c, d := a[1..], b[1..];
    if |a| < |b| && b[..|a|] == a {
      assert d[..|c|] == b[..|a|][1..];
    } else {
      var i :| 0 <= i < |a| && i < |b| && a[..i] == b[..i] && a[i] < b[i];
      assert c[..i - 1] == a[..i][1..] && d[..i - 1] == b[..i][1..];
      assert c[i - 1] < d[i - 1];
    }
  }

  /** The comparison of two ids, character by character. */
  lemma {:induction false} BeforeExactlyWhen(a: string, b: string)
    ensures Before(a, b) <==> Sorts(a, b)
  {
    if a != "" && b != "" {
      if a[0] == b[0] {
        BeforeExactlyWhen(a[1..], b[1..]);
        if Sorts(a[1..], b[1..]) {
          TailSorts(a, b);
        }
        if Sorts(a, b) {
          SortsTail(a, b);
        }
      } else {
        SortsByHead(a, b);
      }
    } else if a == "" && b != "" {
      assert b[..0] == a;
    }
  }

  /** `best` is preferred to every other candidate. */
  ghost predicate Wins(scores: map<string, real>, best: string, maximize: bool) {
    best in scores
    && forall other | other in scores && other != best :: Preferred(best, scores[best], other, scores[other], maximize)
  }

  /** No score beats the winner's, and among equal scores the winner's id sorts first. */
  lemma {:induction false} WinsExactlyWhen(scores: map<string, real>, best: string, maximize: bool)
    ensures Wins(scores, best, maximize)
            <==> best in scores
                 && forall other | other in scores && other != best ::
                      (if maximize then scores[other] <= scores[best] else scores[other] >= scores[best])
                      && (scores[other] == scores[best] ==> Sorts(best, other))
  {
    forall other | other in scores && other != best ensures Before(best, other) <==> Sorts(best, other) {
      BeforeExactlyWhen(best, other);
    }
  }

  /** A score as it comes in; an infinite or undefined one is no number. */
  datatype Score = Finite(value: real) | NotFinite

  datatype SelectionError = NoScores | NoMetric | EmptyId | ScoreNotFinite

  function Values(scores: map<string, Score>): map<string, real> {
    map id | id in scores && scores[id].Finite? :: scores[id].value
  }

  /** The first thing wrong with a selection, in the order of the checks. */
  function SelectionProblem(scores: map<string, Score>, metric: string): Option<SelectionError> {
    if |scores| == 0 then Some(NoScores)
    else if metric == "" then Some(NoMetric)
    else if "" in scores then Some(EmptyId)
    else if exists id | id in scores :: scores[id].NotFinite? then Some(ScoreNotFinite)
    else None
  }

  method SelectCandidate(scores: map<string, Score>, metric: string, maximize: bool)
    returns (selected: Result<string, SelectionError>)
    ensures selected.Err? <==> SelectionProblem(scores, metric).Some?
    ensures selected.Err? ==> SelectionProblem(scores, metric) == Some(selected.error)
    ensures selected == Err(NoScores) <==> scores == map[]
    ensures selected == Err(NoMetric) <==> scores != map[] && metric == ""
    ensures selected == Err(EmptyId) <==> metric != "" && "" in scores
    ensures selected == Err(ScoreNotFinite)
            <==> metric != "" && "" !in scores && exists id :: id in scores && scores[id] == NotFinite
    ensures selected.Ok? ==> Values(scores).Keys == scores.Keys && Wins(Values(scores), selected.value, maximize)
  {
    var problem := SelectionProblem(scores, metric);
    if problem.Some? { return Err(problem.value); }
    var values := Values(scores);
    assert values.Keys == scores.Keys;
    var best := BestCandidate(values, maximize);
    return Ok(best);
  }

  method BestCandidate(scores: map<string, real>, maximize: bool) returns (best: string)
    requires |scores| > 0
    ensures Wins(scores, best, maximize)
  {
    var remaining := scores.Keys;
    assert remaining != {};
    best :| best in remaining;
    remaining := remaining - {best};
    while remaining != {}
      invariant best in scores && best !in remaining && remaining <= scores.Keys
      invariant forall other | other in scores && other != best && other !in remaining ::
        Preferred(best, scores[best], other, scores[other], maximize)
      decreases |remaining|
    {
      var next :| next in remaining;
      remaining := remaining - {next};
      if Preferred(next, scores[next], best, scores[best], maximize) {
        forall other | other in scores && other != next && other !in remaining
          ensures Preferred(next, scores[next], other, scores[other], maximize)
        {
          if other != best && scores[next] == scores[best] == scores[other] {
            BeforeIsTransitive(next, best, other);
          }
        }
        best := next;
      } else {
        BeforeIsTotal(best, next);
      }
    }
  }

  /** The selection does not depend on the order in which the scores are visited. */
  lemma {:induction false} OneWinner(scores: map<string, real>, a: string, b: string, maximize: bool)
    requires Wins(scores, a, maximize) && Wins(scores, b, maximize)
    ensures a == b
  {
    if a != b {
      assert Preferred(a, scores[a], b, scores[b], maximize) && Preferred(b, scores[b], a, scores[a], maximize);
      if Before(a, b) {
        BeforeIsStrict(a, b);
      }
    }
  }

  /** What freezes a selection: the winner and the digest of the plan it was made under. */
  datatype Receipt = Receipt(candidate: string, planDigest: string)

  datatype AccessError = OtherPlan | OtherCandidate

  function AuthorizeHoldout(plan: Plan, receipt: Receipt, candidate: string, digest: Plan -> string): (r: Result<Window, AccessError>)
    ensures r.Ok? <==> receipt.planDigest == digest(plan) && receipt.candidate == candidate
    ensures r.Ok? ==> r.value == plan.holdout
    ensures r == Err(OtherPlan) <==> receipt.planDigest != digest(plan)
  {
    if receipt.planDigest != digest(plan) then Err(OtherPlan)
    else if receipt.candidate != candidate then Err(OtherCandidate)
    else Ok(plan.holdout)
  }

  /** With a collision-free digest only the winner of this very plan ever sees the holdout. */
  lemma {:induction false} OnlyTheWinnerSeesTheHoldout(
    plan: Plan, other: Plan, scores: map<string, real>, winner: string, candidate: string, maximize: bool, digest: Plan -> string)
    requires forall a, b :: digest(a) == digest(b) ==> a == b
    requires Wins(scores, winner, maximize)
    ensures AuthorizeHoldout(other, Receipt(winner, digest(plan)), candidate, digest).Ok?
            <==> other == plan && candidate == winner
  {
  }
}
