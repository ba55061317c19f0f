/**
 The gateway that turns an intent into at most one adapter call.  Risk and
 approval answer arbitrarily, the adapter may raise, the process may die between
 any two steps, and the heartbeat's stale sweep and the venue's order events
 write to the same journal at any point.
 */
module ExecutionGateway {
  import opened Wrappers
  import opened ExecutionJournal
  import opened ExecutionAudit
  import opened JournalAgreement

  /** One order handed to the adapter. */
  datatype Dispatch = Dispatch(intent: string, client: string)

  /** Where a call of `execute_intent` stands; a crash forgets it. */
  datatype Phase =
    | Idle
    | ToRecordDenial(intent: string)
    | ToDeny(intent: string)
    | ToReserve(intent: string, client: string)
    | ToApprove(intent: string, client: string)
    | ToRefuse(intent: string, client: string)
    | ToSubmit(intent: string, client: string)
    | ToDispatch(intent: string, client: string)
    | ToUnknown(intent: string, client: string)

  /** `denied` remembers the intents that risk or approval denied once their identity was durable. */
  datatype Gateway = Gateway(journal: Journal, received: seq<Dispatch>, denied: set<string>, phase: Phase)

  datatype Action =
    | Evaluate(intent: string, allowed: bool, client: string)
    | Write(eventId: string, ts: nat)
    | Approve(ok: bool)
    | Submit(ok: bool)
    | Crash
    | Other(op: Op)

  function MakeEvent(id: string, intent: string, client: Option<string>, state: State, ts: nat): Event {
    Event(id, intent, client, None, state, ts, 0.0)
  }

  /** The journal write the current phase asks for. */
  function PendingWrite(phase: Phase, id: string, ts: nat): Option<Op> {
    match phase
    case ToRecordDenial(i) => Some(OpBegin(MakeEvent(id, i, None, PendingSubmit, ts)))
    case ToReserve(i, c) => Some(OpBegin(MakeEvent(id, i, Some(c), PendingSubmit, ts)))
    case ToDeny(i) => Some(OpAppend(MakeEvent(id, i, None, Denied, ts)))
    case ToRefuse(i, c) => Some(OpAppend(MakeEvent(id, i, Some(c), Denied, ts)))
    case ToSubmit(i, c) => Some(OpAppend(MakeEvent(id, i, Some(c), Submitted, ts)))
    case ToUnknown(i, c) => Some(OpAppend(MakeEvent(id, i, Some(c), Unknown, ts)))
    case _ => None
  }

  /** The phase after a successful write. */
  function AfterWrite(phase: Phase): Phase {
    match phase
    case ToRecordDenial(i) => ToDeny(i)
    case ToReserve(i, c) => ToApprove(i, c)
    case ToSubmit(i, c) => ToDispatch(i, c)
    case _ => Idle
  }

  function Act(g: Gateway, action: Action): Gateway {
    match action
    case Evaluate(i, allowed, c) =>
      if g.phase != Idle then g
      else if allowed then g.(phase := ToReserve(i, c)) else g.(phase := ToRecordDenial(i))
    case Write(id, ts) =>
      var op := PendingWrite(g.phase, id, ts);
      if op.None? then g
      else
        var r := Attempt(g.journal, op.value);
        if r.Err? then g.(phase := Idle)
        else
          Gateway(r.value, g.received,
                  if g.phase.ToRecordDenial? then g.denied + {g.phase.intent} else g.denied, AfterWrite(g.phase))
    case Approve(ok) =>
      if !g.phase.ToApprove? then g
      else if ok then g.(phase := ToSubmit(g.phase.intent, g.phase.client))
      else g.(phase := ToRefuse(g.phase.intent, g.phase.client), denied := g.denied + {g.phase.intent})
    case Submit(ok) =>
      if !g.phase.ToDispatch? then g
      else
        g.(received := g.received + [Dispatch(g.phase.intent, g.phase.client)],
           phase := if ok then Idle else ToUnknown(g.phase.intent, g.phase.client))
    case Crash => g.(phase := Idle)
    case Other(op) => g.(journal := Step(g.journal, op))
  }

  /**
   Events written by others never begin an intent, and repeat the client order
   id of the order they are about or leave it out.
   */
  ghost predicate ValidAction(g: Gateway, action: Action) {
    match action
    case Evaluate(i, _, c) => i != "" && c != ""
    case Write(id, _) => id != ""
    case Other(OpBegin(_)) => false
    case Other(OpAppend(e)) =>
      e.Valid()
      && (e.clientOrderId.Some? && e.intentId in g.journal.orders ==>
            e.clientOrderId == g.journal.orders[e.intentId].clientOrderId)
    case Other(OpSweep(_, _, _, _)) => ValidOp(g.journal, action.op)
    case _ => true
  }

  function RunGateway(g: Gateway, actions: seq<Action>): Gateway
    decreases |actions|
  {
    if actions == [] then g else RunGateway(Act(g, actions[0]), actions[1..])
  }

  ghost predicate ValidActions(g: Gateway, actions: seq<Action>)
    decreases |actions|
  {
    actions == [] || (ValidAction(g, actions[0]) && ValidActions(Act(g, actions[0]), actions[1..]))
  }

  const START := Gateway(EMPTY, [], {}, Idle)

  // ----- the invariant -----

  /** The durable order of the intent carries this client order id. */
  predicate Reserved(j: Journal, d: Dispatch) {
    d.intent in j.orders && j.orders[d.intent].clientOrderId == Some(d.client)
  }

  ghost predicate SubmittedDurably(j: Journal, d: Dispatch) {
    exists i :: 0 <= i < |j.events| && IsSubmission(j.events[i].payload, d)
  }

  predicate IsSubmission(e: Event, d: Dispatch) {
    e.intentId == d.intent && e.state == Submitted && e.clientOrderId == Some(d.client)
  }

  predicate NotReceived(received: seq<Dispatch>, intent: string) {
    forall i | 0 <= i < |received| :: received[i].intent != intent
  }

  ghost predicate ReceivedOk(j: Journal, received: seq<Dispatch>, denied: set<string>) {
    forall i | 0 <= i < |received| ::
      Reserved(j, received[i]) && SubmittedDurably(j, received[i]) && received[i].intent !in denied
  }

  ghost predicate AtMostOnce(received: seq<Dispatch>) {
    forall i, k | 0 <= i < k < |received| :: received[i].intent != received[k].intent
  }

  ghost predicate DeniedKnown(j: Journal, denied: set<string>) {
    forall intent | intent in denied :: intent in j.orders
  }

  ghost predicate Core(j: Journal, received: seq<Dispatch>, denied: set<string>) {
    Sound(j) && ReceivedOk(j, received, denied) && AtMostOnce(received) && DeniedKnown(j, denied)
  }

  /** The order a call has reserved and not yet finished with. */
  function InFlight(phase: Phase): Option<Dispatch> {
    match phase
    case ToApprove(i, c) => Some(Dispatch(i, c))
    case ToRefuse(i, c) => Some(Dispatch(i, c))
    case ToSubmit(i, c) => Some(Dispatch(i, c))
    case ToDispatch(i, c) => Some(Dispatch(i, c))
    case ToUnknown(i, c) => Some(Dispatch(i, c))
    case _ => None
  }

  predicate MayDispatch(phase: Phase) { phase.ToApprove? || phase.ToSubmit? || phase.ToDispatch? }

  ghost predicate PhaseOk(j: Journal, received: seq<Dispatch>, denied: set<string>, phase: Phase) {
    && (InFlight(phase).Some? ==> Reserved(j, InFlight(phase).value))
    && (MayDispatch(phase) ==> NotReceived(received, phase.intent) && phase.intent !in denied)
    && (phase.ToDispatch? ==> SubmittedDurably(j, Dispatch(phase.intent, phase.client)))
  }

  predicate Named(phase: Phase) {
    match phase
    case Idle => true
    case ToRecordDenial(i) => i != ""
    case ToDeny(i) => i != ""
    case ToReserve(i, c) => i != "" && c != ""
    case ToApprove(i, c) => i != "" && c != ""
    case ToRefuse(i, c) => i != "" && c != ""
    case ToSubmit(i, c) => i != "" && c != ""
    case ToDispatch(i, c) => i != "" && c != ""
    case ToUnknown(i, c) => i != "" && c != ""
  }

  ghost predicate Safe(g: Gateway) {
    && Core(g.journal, g.received, g.denied)
    && PhaseOk(g.journal, g.received, g.denied, g.phase)
    && Named(g.phase)
  }

  // ----- what any journal write keeps -----

  /** Orders stay, their client order ids stay, and events are only added. */
  ghost predicate Grows(j: Journal, k: Journal) {
    && (forall i | i in j.orders :: i in k.orders)
    && (forall i | i in j.orders && j.orders[i].clientOrderId.Some? ::
          k.orders[i].clientOrderId == j.orders[i].clientOrderId)
    && j.events <= k.events
  }

  lemma {:induction false} GrowsKeeps(j: Journal, k: Journal, d: Dispatch)
    requires Grows(j, k)
    ensures Reserved(j, d) ==> Reserved(k, d)
    ensures SubmittedDurably(j, d) ==> SubmittedDurably(k, d)
  {
    if SubmittedDurably(j, d) {
      var i :| 0 <= i < |j.events| && IsSubmission(j.events[i].payload, d);
      assert k.events[i] == j.events[i];
    }
  }

  lemma {:induction false} CoreGrows(j: Journal, k: Journal, received: seq<Dispatch>, denied: set<string>)
    requires Core(j, received, denied) && Grows(j, k) && Sound(k)
    ensures Core(k, received, denied)
  {
    forall i | 0 <= i < |received| ensures Reserved(k, received[i]) && SubmittedDurably(k, received[i]) {
      GrowsKeeps(j, k, received[i]);
    }
  }

  lemma {:induction false} PhaseGrows(j: Journal, k: Journal, received: seq<Dispatch>, denied: set<string>, phase: Phase)
    requires PhaseOk(j, received, denied, phase) && Grows(j, k)
    ensures PhaseOk(k, received, denied, phase)
  {
    if InFlight(phase).Some? {
      GrowsKeeps(j, k, InFlight(phase).value);
    }
  }

  lemma {:induction false} BeginGrows(j: Journal, e: Event)
    requires BeginStep(j, e).Ok?
    ensures Grows(j, BeginStep(j, e).value)
  {
  }

  predicate KeepsClient(j: Journal, e: Event) {
    e.clientOrderId.Some? && e.intentId in j.orders && j.orders[e.intentId].clientOrderId.Some? ==>
      e.clientOrderId == j.orders[e.intentId].clientOrderId
  }

  lemma {:induction false} AppendGrows(j: Journal, e: Event)
    requires AppendStep(j, e).Ok? && KeepsClient(j, e)
    ensures Grows(j, AppendStep(j, e).value)
  {
  }

  lemma {:induction false} SweepGrows(j: Journal, stale: seq<string>, id: string -> string, clock: string -> nat)
    requires SweepStep(j, stale, id, clock).Ok?
    ensures Grows(j, SweepStep(j, stale, id, clock).value)
  {
    if stale != [] {
      SweepGrows(j, stale[..|stale| - 1], id, clock);
    }
  }

  lemma {:induction false} OtherGrows(g: Gateway, op: Op)
    requires ValidAction(g, Other(op))
    ensures Grows(g.journal, Step(g.journal, op)) && ValidOp(g.journal, op)
  {
    if Attempt(g.journal, op).Ok? {
      match op
      case OpAppend(e) => AppendGrows(g.journal, e);
      case OpSweep(cutoff, stale, id, clock) => SweepGrows(g.journal, stale, id, clock);
    }
  }

  lemma {:induction false} OtherKeeps(g: Gateway, op: Op)
    requires Safe(g) && ValidAction(g, Other(op))
    ensures Safe(Act(g, Other(op)))
  {
    OtherGrows(g, op);
    StepKeeps(g.journal, op);
    CoreGrows(g.journal, Step(g.journal, op), g.received, g.denied);
    PhaseGrows(g.journal, Step(g.journal, op), g.received, g.denied, g.phase);
  }

  // ----- the gateway's own writes -----

  lemma {:induction false} OwnBegin(g: Gateway, e: Event)
    requires Core(g.journal, g.received, g.denied) && e.Valid() && BeginStep(g.journal, e).Ok?
    ensures Core(BeginStep(g.journal, e).value, g.received, g.denied)
    ensures Core(BeginStep(g.journal, e).value, g.received, g.denied + {e.intentId})
    ensures NotReceived(g.received, e.intentId) && e.intentId !in g.denied
  {
    var k := BeginStep(g.journal, e).value;
    BeginGrows(g.journal, e);
    BeginKeeps(g.journal, e);
    CoreGrows(g.journal, k, g.received, g.denied);
    forall i | 0 <= i < |g.received| ensures g.received[i].intent != e.intentId {
      assert Reserved(g.journal, g.received[i]);
    }
  }

  lemma {:induction false} OwnAppend(g: Gateway, e: Event)
    requires Core(g.journal, g.received, g.denied) && e.Valid() && AppendStep(g.journal, e).Ok?
    requires KeepsClient(g.journal, e)
    ensures Core(AppendStep(g.journal, e).value, g.received, g.denied)
    ensures Grows(g.journal, AppendStep(g.journal, e).value)
  {
    var k := AppendStep(g.journal, e).value;
    AppendGrows(g.journal, e);
    AppendKeeps(g.journal, e);
    CoreGrows(g.journal, k, g.received, g.denied);
  }

  lemma {:induction false} MakeSafe(j: Journal, received: seq<Dispatch>, denied: set<string>, phase: Phase)
    requires Core(j, received, denied) && PhaseOk(j, received, denied, phase) && Named(phase)
    ensures Safe(Gateway(j, received, denied, phase))
  {
  }

  lemma {:induction false} PhaseDropped(g: Gateway, phase: Phase)
    requires Safe(g) && Named(phase) && InFlight(phase).None?
    ensures Safe(g.(phase := phase))
  {
    MakeSafe(g.journal, g.received, g.denied, phase);
  }

  lemma {:induction false} ReserveKeeps(g: Gateway, e: Event, client: string)
    requires Safe(g) && e.Valid() && BeginStep(g.journal, e).Ok? && e.clientOrderId == Some(client)
    ensures Safe(Gateway(BeginStep(g.journal, e).value, g.received, g.denied, ToApprove(e.intentId, client)))
  {
    OwnBegin(g, e);
    MakeSafe(BeginStep(g.journal, e).value, g.received, g.denied, ToApprove(e.intentId, client));
  }

  lemma {:induction false} RecordDenialKeeps(g: Gateway, e: Event)
    requires Safe(g) && e.Valid() && BeginStep(g.journal, e).Ok?
    ensures Safe(Gateway(BeginStep(g.journal, e).value, g.received, g.denied + {e.intentId}, ToDeny(e.intentId)))
  {
    OwnBegin(g, e);
    MakeSafe(BeginStep(g.journal, e).value, g.received, g.denied + {e.intentId}, ToDeny(e.intentId));
  }

  lemma {:induction false} IdleIsSafe(j: Journal, received: seq<Dispatch>, denied: set<string>)
    requires Core(j, received, denied)
    ensures Safe(Gateway(j, received, denied, Idle))
  {
  }

  lemma {:induction false} LastAppendKeeps(g: Gateway, e: Event)
    requires Core(g.journal, g.received, g.denied) && e.Valid()
    requires AppendStep(g.journal, e).Ok? && KeepsClient(g.journal, e)
    ensures Safe(Gateway(AppendStep(g.journal, e).value, g.received, g.denied, Idle))
  {
    OwnAppend(g, e);
    IdleIsSafe(AppendStep(g.journal, e).value, g.received, g.denied);
  }

  lemma {:induction false} SubmitIsDurable(j: Journal, e: Event, d: Dispatch)
    requires AppendStep(j, e).Ok? && IsSubmission(e, d)
    ensures SubmittedDurably(AppendStep(j, e).value, d)
  {
    assert AppendStep(j, e).value.events[|j.events|].payload == e;
  }

  lemma {:induction false} ReadyToDispatch(j: Journal, received: seq<Dispatch>, denied: set<string>, i: string, c: string)
    requires PhaseOk(j, received, denied, ToSubmit(i, c)) && SubmittedDurably(j, Dispatch(i, c))
    ensures PhaseOk(j, received, denied, ToDispatch(i, c))
  {
  }

  lemma {:induction false} SubmitWriteKeeps(g: Gateway, e: Event)
    requires Safe(g) && e.Valid() && AppendStep(g.journal, e).Ok? && KeepsClient(g.journal, e)
    requires g.phase.ToSubmit? && IsSubmission(e, Dispatch(g.phase.intent, g.phase.client))
    ensures Safe(Gateway(AppendStep(g.journal, e).value, g.received, g.denied, ToDispatch(g.phase.intent, g.phase.client)))
  {
    var k := AppendStep(g.journal, e).value;
    OwnAppend(g, e);
    PhaseGrows(g.journal, k, g.received, g.denied, g.phase);
    SubmitIsDurable(g.journal, e, Dispatch(g.phase.intent, g.phase.client));
    ReadyToDispatch(k, g.received, g.denied, g.phase.intent, g.phase.client);
    MakeSafe(k, g.received, g.denied, ToDispatch(g.phase.intent, g.phase.client));
  }

  /** What the event of the current phase looks like. */
  lemma {:induction false} PendingEvent(g: Gateway, id: string, ts: nat)
    requires Named(g.phase) && id != "" && PendingWrite(g.phase, id, ts).Some?
    requires InFlight(g.phase).Some? ==> Reserved(g.journal, InFlight(g.phase).value)
    ensures var op := PendingWrite(g.phase, id, ts).value;
            (op.OpBegin? || op.OpAppend?) && op.event.Valid() && (op.OpAppend? ==> KeepsClient(g.journal, op.event))
  {
  }

  lemma {:induction false} WriteActKeeps(g: Gateway, id: string, ts: nat)
    requires Safe(g) && id != ""
    ensures Safe(Act(g, Write(id, ts)))
  {
    var op := PendingWrite(g.phase, id, ts);
    if op.Some? {
      PendingEvent(g, id, ts);
      if Attempt(g.journal, op.value).Err? {
        PhaseDropped(g, Idle);
      } else if g.phase.ToReserve? {
        ReserveKeeps(g, op.value.event, g.phase.client);
      } else if g.phase.ToRecordDenial? {
        RecordDenialKeeps(g, op.value.event);
      } else if g.phase.ToSubmit? {
        SubmitWriteKeeps(g, op.value.event);
      } else {
        LastAppendKeeps(g, op.value.event);
      }
    }
  }

  lemma {:induction false} DispatchKeepsCore(j: Journal, received: seq<Dispatch>, denied: set<string>, d: Dispatch)
    requires Core(j, received, denied) && Reserved(j, d) && SubmittedDurably(j, d)
    requires NotReceived(received, d.intent) && d.intent !in denied
    ensures Core(j, received + [d], denied)
  {
  }

  lemma {:induction false} DispatchPhase(j: Journal, received: seq<Dispatch>, denied: set<string>, i: string, c: string, ok: bool)
    requires Core(j, received, denied) && PhaseOk(j, received, denied, ToDispatch(i, c))
    ensures Core(j, received + [Dispatch(i, c)], denied)
    ensures PhaseOk(j, received + [Dispatch(i, c)], denied, if ok then Idle else ToUnknown(i, c))
  {
    DispatchKeepsCore(j, received, denied, Dispatch(i, c));
  }

  lemma {:induction false} DispatchActKeeps(g: Gateway, ok: bool)
    requires Safe(g) && g.phase.ToDispatch?
    ensures Safe(Act(g, Submit(ok)))
  {
    var i, c := g.phase.intent, g.phase.client;
    DispatchPhase(g.journal, g.received, g.denied, i, c, ok);
    MakeSafe(g.journal, g.received + [Dispatch(i, c)], g.denied, if ok then Idle else ToUnknown(i, c));
  }

  lemma {:induction false} DenialKeepsCore(j: Journal, received: seq<Dispatch>, denied: set<string>, intent: string)
    requires Core(j, received, denied) && NotReceived(received, intent) && intent in j.orders
    ensures Core(j, received, denied + {intent})
  {
  }

  lemma {:induction false} ApproveActKeeps(g: Gateway, ok: bool)
    requires Safe(g) && g.phase.ToApprove?
    ensures Safe(Act(g, Approve(ok)))
  {
    var i, c := g.phase.intent, g.phase.client;
    if ok {
      MakeSafe(g.journal, g.received, g.denied, ToSubmit(i, c));
    } else {
      DenialKeepsCore(g.journal, g.received, g.denied, i);
      MakeSafe(g.journal, g.received, g.denied + {i}, ToRefuse(i, c));
    }
  }

  lemma {:induction false} ActKeeps(g: Gateway, action: Action)
    requires Safe(g) && ValidAction(g, action)
    ensures Safe(Act(g, action))
  {
    match action
    case Evaluate(i, allowed, c) =>
      if g.phase == Idle {
        PhaseDropped(g, if allowed then ToReserve(i, c) else ToRecordDenial(i));
      }
    case Write(id, ts) => WriteActKeeps(g, id, ts);
    case Approve(ok) =>
      if g.phase.ToApprove? {
        ApproveActKeeps(g, ok);
      }
    case Submit(ok) =>
      if g.phase.ToDispatch? {
        DispatchActKeeps(g, ok);
      }
    case Crash => PhaseDropped(g, Idle);
    case Other(op) => OtherKeeps(g, op);
  }

  lemma {:induction false} GatewayKeeps(g: Gateway, actions: seq<Action>)
    requires Safe(g) && ValidActions(g, actions)
    ensures Safe(RunGateway(g, actions))
    decreases |actions|
  {
    if actions != [] {
      ActKeeps(g, actions[0]);
      GatewayKeeps(Act(g, actions[0]), actions[1..]);
    }
  }

  /**
   At any point of any run, with crashes and other writers in between: the
   adapter has received no intent twice, no client order id twice, none that
   was denied, and only orders whose identity and submission are durable.
   */
  lemma {:induction false} DispatchedAtMostOnce(actions: seq<Action>)
    requires ValidActions(START, actions)
    ensures var g := RunGateway(START, actions);
            && (forall i | 0 <= i < |g.received| ::
                  Reserved(g.journal, g.received[i]) && SubmittedDurably(g.journal, g.received[i])
                  && g.received[i].intent !in g.denied)
            && (forall i, k | 0 <= i < k < |g.received| ::
                  g.received[i].intent != g.received[k].intent && g.received[i].client != g.received[k].client)
  {
    EmptyIsSound();
    GatewayKeeps(START, actions);
    var g := RunGateway(START, actions);
    forall i, k | 0 <= i < k < |g.received| ensures g.received[i].client != g.received[k].client {
      assert Reserved(g.journal, g.received[i]) && Reserved(g.journal, g.received[k]);
      assert DistinctClients(g.journal.orders);
    }
  }

  // ----- the call itself -----

  datatype CallError = JournalRefused(error: JournalError) | ApprovalInvalid | AdapterRaised

  /** The client order id when the order went out, nothing when risk denied it. */
  type CallResult = Result<Option<string>, CallError>

  /** The journal ids and instants of the up to three writes of one call. */
  datatype Stamps = Stamps(id0: string, ts0: nat, id1: string, ts1: nat, id2: string, ts2: nat)

  function Script(intent: string, allowed: bool, client: string, approved: bool, delivered: bool, s: Stamps): seq<Action>
  {
    [Evaluate(intent, allowed, client), Write(s.id0, s.ts0), Approve(approved), Write(s.id1, s.ts1),
     Submit(delivered), Write(s.id2, s.ts2)]
  }

  /** One uninterrupted call, as steps of the gateway. */
  function SixSteps(
    g: Gateway, intent: string, allowed: bool, client: string, approved: bool, delivered: bool, s: Stamps): Gateway
  {
    var g1 := Act(Act(g, Evaluate(intent, allowed, client)), Write(s.id0, s.ts0));
    LastSteps(Act(g1, Approve(approved)), delivered, s)
  }

  function LastSteps(g: Gateway, delivered: bool, s: Stamps): Gateway {
    Act(Act(Act(g, Write(s.id1, s.ts1)), Submit(delivered)), Write(s.id2, s.ts2))
  }

  /** An uninterrupted call is one of the runs covered above. */
  lemma {:induction false} CallIsARun(
    g: Gateway, intent: string, allowed: bool, client: string, approved: bool, delivered: bool, s: Stamps)
    ensures RunGateway(g, Script(intent, allowed, client, approved, delivered, s))
            == SixSteps(g, intent, allowed, client, approved, delivered, s)
  {
    var a := Script(intent, allowed, client, approved, delivered, s);
    var g1 := Act(g, a[0]);
    var g2 := Act(g1, a[1]);
    var g3 := Act(g2, a[2]);
    var g4 := Act(g3, a[3]);
    var g5 := Act(g4, a[4]);
    assert a[1..][1..] == a[2..] && a[2..][1..] == a[3..] && a[3..][1..] == a[4..] && a[4..][1..] == a[5..];
    assert a[5..][1..] == [];
    assert RunGateway(g5, a[5..]) == Act(g5, a[5]);
    assert RunGateway(g4, a[4..]) == RunGateway(g5, a[5..]);
    assert RunGateway(g3, a[3..]) == RunGateway(g4, a[4..]);
    assert RunGateway(g2, a[2..]) == RunGateway(g3, a[3..]);
    assert RunGateway(g1, a[1..]) == RunGateway(g2, a[2..]);
  }

  /** The actions of an uninterrupted call are valid wherever it starts. */
  lemma {:induction false} ScriptIsValid(
    g: Gateway, intent: string, allowed: bool, client: string, approved: bool, delivered: bool, s: Stamps)
    requires intent != "" && client != "" && s.id0 != "" && s.id1 != "" && s.id2 != ""
    ensures ValidActions(g, Script(intent, allowed, client, approved, delivered, s))
  {
    var a := Script(intent, allowed, client, approved, delivered, s);
    var g1 := Act(g, a[0]);
    var g2 := Act(g1, a[1]);
    var g3 := Act(g2, a[2]);
    var g4 := Act(g3, a[3]);
    var g5 := Act(g4, a[4]);
    assert a[1..][1..] == a[2..] && a[2..][1..] == a[3..] && a[3..][1..] == a[4..] && a[4..][1..] == a[5..];
    assert a[5..][1..] == [];
    assert ValidActions(g5, a[5..]);
    assert ValidActions(g4, a[4..]);
    assert ValidActions(g3, a[3..]);
    assert ValidActions(g2, a[2..]);
    assert ValidActions(g1, a[1..]);
  }

  /**
   A denial counts only from the moment it is journaled: when the process dies
   between the risk decision and the first write, a later call that is allowed
   does reach the adapter.
   */
  lemma {:induction false} UnwrittenDenialIsForgotten()
    ensures var actions := [Evaluate("i", false, "c"), Crash]
                           + Script("i", true, "c", true, true, Stamps("e0", 0, "e1", 1, "e2", 2));
            ValidActions(START, actions) && RunGateway(START, actions).received == [Dispatch("i", "c")]
  {
    var s := Stamps("e0", 0, "e1", 1, "e2", 2);
    var call := Script("i", true, "c", true, true, s);
    var denied := Act(START, Evaluate("i", false, "c"));
    assert Act(denied, Crash) == START;
    assert ([Crash] + call)[1..] == call;
    assert ([Evaluate("i", false, "c"), Crash] + call)[1..] == [Crash] + call;
    ScriptIsValid(START, "i", true, "c", true, true, s);
    assert ValidActions(denied, [Crash] + call);
    CallIsARun(START, "i", true, "c", true, true, s);
    assert RunGateway(denied, [Crash] + call) == RunGateway(START, call);
    FirstCallDispatches("i", "c", s);
  }

  lemma {:induction false} FirstCallDispatches(intent: string, client: string, s: Stamps)
    requires s.id0 != s.id1
    ensures SixSteps(START, intent, true, client, true, true, s).received == [Dispatch(intent, client)]
  {
    var g1 := Act(Act(START, Evaluate(intent, true, client)), Write(s.id0, s.ts0));
    assert g1.phase == ToApprove(intent, client);
    var g2 := Act(Act(g1, Approve(true)), Write(s.id1, s.ts1));
    assert g2.phase == ToDispatch(intent, client);
  }

  /** A call that risk allows goes on with the reserved order, or ends where the reservation fails. */
  lemma {:induction false} Reserving(g: Gateway, intent: string, client: string, approved: bool, delivered: bool, s: Stamps)
    requires g.phase == Idle
    ensures var reserved := BeginStep(g.journal, MakeEvent(s.id0, intent, Some(client), PendingSubmit, s.ts0));
            SixSteps(g, intent, true, client, approved, delivered, s)
            == if reserved.Err? then g
               else if approved then LastSteps(g.(journal := reserved.value, phase := ToSubmit(intent, client)), delivered, s)
               else LastSteps(g.(journal := reserved.value, phase := ToRefuse(intent, client), denied := g.denied + {intent}),
                              delivered, s)
  {
    var reserved := BeginStep(g.journal, MakeEvent(s.id0, intent, Some(client), PendingSubmit, s.ts0));
    var g1 := Act(Act(g, Evaluate(intent, true, client)), Write(s.id0, s.ts0));
    assert g1 == if reserved.Err? then g else g.(journal := reserved.value, phase := ToApprove(intent, client));
  }

  /** A reserved order that goes out, and what an adapter failure adds. */
  lemma {:induction false} Submitting(g: Gateway, intent: string, client: string, delivered: bool, s: Stamps)
    requires g.phase == ToSubmit(intent, client)
    ensures var sent := AppendStep(g.journal, MakeEvent(s.id1, intent, Some(client), Submitted, s.ts1));
            var failed := MakeEvent(s.id2, intent, Some(client), Unknown, s.ts2);
            LastSteps(g, delivered, s)
            == if sent.Err? then g.(phase := Idle)
               else if delivered then Gateway(sent.value, g.received + [Dispatch(intent, client)], g.denied, Idle)
               else
                 Gateway(if AppendStep(sent.value, failed).Err? then sent.value else AppendStep(sent.value, failed).value,
                         g.received + [Dispatch(intent, client)], g.denied, Idle)
  {
    var sent := AppendStep(g.journal, MakeEvent(s.id1, intent, Some(client), Submitted, s.ts1));
    var g1 := Act(g, Write(s.id1, s.ts1));
    assert g1 == if sent.Err? then g.(phase := Idle) else g.(journal := sent.value, phase := ToDispatch(intent, client));
  }

  // ----- what one call leaves in the journal -----

  /** The journal refused one of the call's writes. */
  predicate Refused(result: CallResult) { result.Err? && result.error.JournalRefused? }

  /** The order states that a call for one intent appended to the event table, in order, and the client order id they carry. */
  ghost predicate Appended(
    was: seq<EventRow>, now: seq<EventRow>, intent: string, client: Option<string>, states: seq<State>)
  {
    && |now| == |was| + |states| && was <= now
    && forall i | |was| <= i < |now| ::
         && now[i].sequence == i + 1 && now[i].intentId == intent && now[i].state == states[i - |was|]
         && now[i].payload.intentId == intent && now[i].payload.state == states[i - |was|]
         && now[i].payload.clientOrderId == client && now[i].payload.venueOrderId == None && now[i].payload.filled == 0.0
  }

  /** Only the order of the intent changed: it is now in `state`, under the client order id. */
  ghost predicate OrderMoved(
    was: map<string, OrderRow>, now: map<string, OrderRow>, intent: string, client: Option<string>, state: State)
  {
    && intent !in was && now.Keys == was.Keys + {intent}
    && (forall other | other in was :: now[other] == was[other])
    && now[intent].state == state && now[intent].clientOrderId == client
  }

  /** The journal holds exactly these new states of the intent. */
  ghost predicate Recorded(was: Journal, now: Journal, intent: string, client: Option<string>, states: seq<State>) {
    && Appended(was.events, now.events, intent, client, states)
    && if states == [] then now.orders == was.orders
       else OrderMoved(was.orders, now.orders, intent, client, states[|states| - 1])
  }

  /** The states a call writes when every write succeeds. */
  function Plan(allowed: bool, approved: bool, delivered: bool): seq<State> {
    if !allowed || !approved then [PendingSubmit, Denied]
    else if delivered then [PendingSubmit, Submitted]
    else [PendingSubmit, Submitted, Unknown]
  }

  lemma {:induction false} BeginRecords(j: Journal, id: string, intent: string, client: Option<string>, ts: nat)
    requires BeginStep(j, MakeEvent(id, intent, client, PendingSubmit, ts)).Ok?
    ensures Recorded(j, BeginStep(j, MakeEvent(id, intent, client, PendingSubmit, ts)).value, intent, client, [PendingSubmit])
  {
  }

  lemma {:induction false} AppendRecords(
    j: Journal, k: Journal, id: string, intent: string, client: Option<string>, states: seq<State>, next: State, ts: nat)
    requires Recorded(j, k, intent, client, states) && states != []
    requires AppendStep(k, MakeEvent(id, intent, client, next, ts)).Ok?
    ensures Recorded(j, AppendStep(k, MakeEvent(id, intent, client, next, ts)).value, intent, client, states + [next])
  {
    var e := MakeEvent(id, intent, client, next, ts);
    var after := AppendStep(k, e).value;
    assert after.events == k.events + [StoredRow(k.events, e)];
    assert forall n | 0 <= n < |states| :: (states + [next])[n] == states[n];
    assert Appended(j.events, after.events, intent, client, states + [next]);
  }

  /** A call that risk denies: the two writes, one after the other. */
  lemma {:induction false} DenyingCall(g: Gateway, intent: string, client: string, approved: bool, delivered: bool, s: Stamps)
    requires g.phase == Idle
    ensures var begun := BeginStep(g.journal, MakeEvent(s.id0, intent, None, PendingSubmit, s.ts0));
            SixSteps(g, intent, false, client, approved, delivered, s)
            == if begun.Err? then g
               else
                 var ended := AppendStep(begun.value, MakeEvent(s.id1, intent, None, Denied, s.ts1));
                 Gateway(if ended.Err? then begun.value else ended.value, g.received, g.denied + {intent}, Idle)
  {
    var begun := BeginStep(g.journal, MakeEvent(s.id0, intent, None, PendingSubmit, s.ts0));
    var g1 := Act(Act(g, Evaluate(intent, false, client)), Write(s.id0, s.ts0));
    assert g1 == if begun.Err? then g else Gateway(begun.value, g.received, g.denied + {intent}, ToDeny(intent));
  }

  /** A reserved order that is refused. */
  lemma {:induction false} RefusingCall(g: Gateway, intent: string, client: string, delivered: bool, s: Stamps)
    requires g.phase == ToRefuse(intent, client)
    ensures var ended := AppendStep(g.journal, MakeEvent(s.id1, intent, Some(client), Denied, s.ts1));
            LastSteps(g, delivered, s) == if ended.Err? then g.(phase := Idle) else g.(journal := ended.value, phase := Idle)
  {
  }

  class ExecutionGateway {
    const journal: ExecutionJournal
    var received: seq<Dispatch>
    ghost var denied: set<string>

    ghost function View(): Gateway
      reads this, journal
    {
      Gateway(journal.View(), received, denied, Idle)
    }

    constructor (journal: ExecutionJournal)
      ensures this.journal == journal && received == [] && denied == {}
    {
      this.journal := journal;
      received, denied := [], {};
    }

    method RecordDenial(intent: string, ghost client: string, ghost approved: bool, ghost delivered: bool, s: Stamps)
      returns (result: CallResult, ghost written: nat)
      modifies this, journal
      ensures View() == SixSteps(old(View()), intent, false, client, approved, delivered, s)
      ensures received == old(received) && written <= 2
      ensures Recorded(old(journal.View()), journal.View(), intent, None, [PendingSubmit, Denied][..written])
      ensures if written < 2 then Refused(result) else result == Ok(None)
    {
      ghost var was := journal.View();
      DenyingCall(View(), intent, client, approved, delivered, s);
      written := 0;
      var problem := journal.Begin(MakeEvent(s.id0, intent, None, PendingSubmit, s.ts0));
      if problem.Some? { return Err(JournalRefused(problem.value)), written; }
      BeginRecords(was, s.id0, intent, None, s.ts0);
      written := 1;
      denied := denied + {intent};
      ghost var begun := journal.View();
      problem := journal.Append(MakeEvent(s.id1, intent, None, Denied, s.ts1));
      assert [PendingSubmit, Denied][..1] == [PendingSubmit];
      if problem.Some? { return Err(JournalRefused(problem.value)), written; }
      AppendRecords(was, begun, s.id1, intent, None, [PendingSubmit], Denied, s.ts1);
      assert [PendingSubmit, Denied][..2] == [PendingSubmit] + [Denied];
      return Ok(None), 2;
    }

    /** Record the submission, hand the order to the adapter and record an adapter failure. */
    method SubmitReserved(intent: string, client: string, delivered: bool, s: Stamps, ghost was: Journal)
      returns (result: CallResult, ghost written: nat)
      requires Recorded(was, journal.View(), intent, Some(client), [PendingSubmit])
      modifies this, journal
      ensures View() == LastSteps(old(View()).(phase := ToSubmit(intent, client)), delivered, s)
      ensures 1 <= written <= |Plan(true, true, delivered)|
      ensures Recorded(was, journal.View(), intent, Some(client), Plan(true, true, delivered)[..written])
      ensures received == if written == 1 then old(received) else old(received) + [Dispatch(intent, client)]
      ensures if written < |Plan(true, true, delivered)| then Refused(result)
              else result == if delivered then Ok(Some(client)) else Err(AdapterRaised)
    {
      Submitting(View().(phase := ToSubmit(intent, client)), intent, client, delivered, s);
      ghost var reserved := journal.View();
      written := 1;
      assert Plan(true, true, delivered)[..1] == [PendingSubmit];
      assert Plan(true, true, delivered)[..2] == [PendingSubmit] + [Submitted];
      var problem := journal.Append(MakeEvent(s.id1, intent, Some(client), Submitted, s.ts1));
      if problem.Some? { return Err(JournalRefused(problem.value)), written; }
      AppendRecords(was, reserved, s.id1, intent, Some(client), [PendingSubmit], Submitted, s.ts1);
      written := 2;
      received := received + [Dispatch(intent, client)];
      if delivered { return Ok(Some(client)), written; }
      ghost var submitted := journal.View();
      assert Plan(true, true, false)[..3] == ([PendingSubmit] + [Submitted]) + [Unknown];
      problem := journal.Append(MakeEvent(s.id2, intent, Some(client), Unknown, s.ts2));
      if problem.Some? { return Err(JournalRefused(problem.value)), written; }
      AppendRecords(was, submitted, s.id2, intent, Some(client), [PendingSubmit] + [Submitted], Unknown, s.ts2);
      return Err(AdapterRaised), 3;
    }

    /** Record that the approval did not hold for a reserved order. */
    method RefuseReserved(intent: string, client: string, ghost delivered: bool, s: Stamps, ghost was: Journal)
      returns (result: CallResult, ghost written: nat)
      requires Recorded(was, journal.View(), intent, Some(client), [PendingSubmit])
      modifies this, journal
      ensures View() == LastSteps(old(View()).(phase := ToRefuse(intent, client), denied := old(denied) + {intent}),
                                  delivered, s)
      ensures received == old(received) && 1 <= written <= 2
      ensures Recorded(was, journal.View(), intent, Some(client), [PendingSubmit, Denied][..written])
      ensures if written < 2 then Refused(result) else result == Err(ApprovalInvalid)
    {
      denied := denied + {intent};
      ghost var reserved := journal.View();
      RefusingCall(View().(phase := ToRefuse(intent, client)), intent, client, delivered, s);
      assert [PendingSubmit, Denied][..1] == [PendingSubmit];
      var problem := journal.Append(MakeEvent(s.id1, intent, Some(client), Denied, s.ts1));
      if problem.Some? { return Err(JournalRefused(problem.value)), 1; }
      AppendRecords(was, reserved, s.id1, intent, Some(client), [PendingSubmit], Denied, s.ts1);
      assert [PendingSubmit, Denied][..2] == [PendingSubmit] + [Denied];
      return Err(ApprovalInvalid), 2;
    }

    /**
     Risk-check, reserve, approve, record and dispatch one intent, in that order.
     Each answer fixes what the journal then holds: a call whose writes all
     succeed has written the states of its plan, and one that the journal
     refused a proper prefix of them.
     */
    method ExecuteIntent(intent: string, allowed: bool, client: string, approved: bool, delivered: bool, s: Stamps)
      returns (result: CallResult, ghost written: nat)
      modifies this, journal
      ensures View() == SixSteps(old(View()), intent, allowed, client, approved, delivered, s)
      ensures result == Ok(None) ==>
                !allowed && received == old(received)
                && Recorded(old(journal.View()), journal.View(), intent, None, [PendingSubmit, Denied])
      ensures result == Err(ApprovalInvalid) ==>
                allowed && !approved && received == old(received)
                && Recorded(old(journal.View()), journal.View(), intent, Some(client), [PendingSubmit, Denied])
      ensures result == Ok(Some(client)) ==>
                allowed && approved && delivered && received == old(received) + [Dispatch(intent, client)]
                && Recorded(old(journal.View()), journal.View(), intent, Some(client), [PendingSubmit, Submitted])
      ensures result == Err(AdapterRaised) ==>
                allowed && approved && !delivered && received == old(received) + [Dispatch(intent, client)]
                && Recorded(old(journal.View()), journal.View(), intent, Some(client), [PendingSubmit, Submitted, Unknown])
      ensures Refused(result) ==>
                && written < |Plan(allowed, approved, delivered)|
                && Recorded(old(journal.View()), journal.View(), intent, if allowed then Some(client) else None,
                            Plan(allowed, approved, delivered)[..written])
                && received == if allowed && approved && written == 2 then old(received) + [Dispatch(intent, client)]
                               else old(received)
      ensures result in {Ok(None), Ok(Some(client)), Err(ApprovalInvalid), Err(AdapterRaised)} || Refused(result)
    {
      if !allowed {
        result, written := RecordDenial(intent, client, approved, delivered, s);
        assert [PendingSubmit, Denied][..2] == [PendingSubmit, Denied];
        return;
      }
      ghost var g := View();
      Reserving(g, intent, client, approved, delivered, s);
      var problem := journal.Begin(MakeEvent(s.id0, intent, Some(client), PendingSubmit, s.ts0));
      if problem.Some? {
        assert View() == g;
        return Err(JournalRefused(problem.value)), 0;
      }
      BeginRecords(g.journal, s.id0, intent, Some(client), s.ts0);
      assert View() == g.(journal := journal.View());
      if approved {
        result, written := SubmitReserved(intent, client, delivered, s, g.journal);
        assert Plan(true, true, delivered)[..|Plan(true, true, delivered)|] == Plan(true, true, delivered);
      } else {
        result, written := RefuseReserved(intent, client, delivered, s, g.journal);
        assert [PendingSubmit, Denied][..2] == [PendingSubmit, Denied];
      }
    }
  }
}
