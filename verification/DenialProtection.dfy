/**
 When a decided denial protects its intent: exactly from the moment the intent's
 identity is durable in the journal.
 */
module DenialProtection {
  import opened Wrappers
  import opened ExecutionJournal
  import opened JournalAgreement
  import opened ExecutionGateway

  /** The continuation hands the intent to the adapter. */
  ghost predicate DispatchesLater(g: Gateway, actions: seq<Action>, intent: string) {
    exists k :: |g.received| <= k < |RunGateway(g, actions).received| && RunGateway(g, actions).received[k].intent == intent
  }

  /** No valid continuation, with crashes, repeated calls and other writers, ever hands the intent to the adapter. */
  ghost predicate Protected(g: Gateway, intent: string) {
    forall actions | ValidActions(g, actions) :: !DispatchesLater(g, actions, intent)
  }

  // ----- a durable identity protects -----

  ghost predicate Blocked(g: Gateway, intent: string) {
    intent in g.journal.orders && !(MayDispatch(g.phase) && g.phase.intent == intent)
  }

  lemma {:induction false} WriteKeepsBlocked(g: Gateway, id: string, ts: nat, intent: string)
    requires Blocked(g, intent)
    ensures Blocked(Act(g, Write(id, ts)), intent) && Act(g, Write(id, ts)).received == g.received
  {
  }

  lemma {:induction false} BlockedStays(g: Gateway, action: Action, intent: string)
    requires Blocked(g, intent) && ValidAction(g, action)
    ensures Blocked(Act(g, action), intent)
    ensures Act(g, action).received == g.received
            || exists d :: Act(g, action).received == g.received + [d] && d.intent != intent
  {
    match action
    case Write(id, ts) => WriteKeepsBlocked(g, id, ts, intent);
    case Submit(ok) =>
      if g.phase.ToDispatch? {
        var d := Dispatch(g.phase.intent, g.phase.client);
        assert Act(g, action).received == g.received + [d] && d.intent != intent;
      }
    case Other(op) => OtherGrows(g, op);
    case _ =>
  }

  ghost predicate NoneSince(n: nat, received: seq<Dispatch>, intent: string) {
    forall k | n <= k < |received| :: received[k].intent != intent
  }

  lemma {:induction false} BlockedForever(g: Gateway, actions: seq<Action>, n: nat, intent: string)
    requires Blocked(g, intent) && ValidActions(g, actions) && NoneSince(n, g.received, intent)
    ensures NoneSince(n, RunGateway(g, actions).received, intent)
    decreases |actions|
  {
    if actions != [] {
      BlockedStays(g, actions[0], intent);
      BlockedForever(Act(g, actions[0]), actions[1..], n, intent);
    }
  }

  lemma {:induction false} DurableProtects(g: Gateway, intent: string)
    requires Blocked(g, intent)
    ensures Protected(g, intent)
  {
    forall actions | ValidActions(g, actions) ensures !DispatchesLater(g, actions, intent) {
      BlockedForever(g, actions, |g.received|, intent);
    }
  }

  // ----- an unwritten denial does not -----

  function Filler(n: nat): string { seq(n, i requires 0 <= i < n => 'x') }

  lemma {:induction false} LongEnough(used: set<string>) returns (n: nat)
    ensures forall m | m >= n :: Filler(m) !in used
    decreases |used|
  {
    if used == {} {
      n := 0;
    } else {
      var x :| x in used;
      var rest := LongEnough(used - {x});
      n := if rest > |x| then rest else |x| + 1;
      forall m | m >= n ensures Filler(m) !in used {
        assert Filler(m) != x && Filler(m) !in used - {x};
      }
    }
  }

  /** Identifiers the journal has never seen. */
  lemma {:induction false} FreshIds(j: Journal) returns (client: string, s: Stamps)
    ensures client != "" && s.id0 != "" && s.id1 != "" && s.id2 != ""
    ensures s.id0 != s.id1 && !UsesEventId(j.events, s.id0) && !UsesEventId(j.events, s.id1)
    ensures forall intent :: !UsesClientId(j.orders, intent, Some(client))
  {
    var n := LongEnough(set i | 0 <= i < |j.events| :: j.events[i].eventId);
    var clients := set intent | intent in j.orders && j.orders[intent].clientOrderId.Some? ::
                     j.orders[intent].clientOrderId.value;
    var c := LongEnough(clients);
    client := Filler(c + 1);
    s := Stamps(Filler(n + 1), 0, Filler(n + 2), 0, Filler(n + 3), 0);
    assert |s.id0| != |s.id1|;
    assert client !in clients;
  }

  /** A first call for an intent that the journal does not hold, allowed and approved, reaches the adapter. */
  lemma {:induction false} FreshCallDispatches(g: Gateway, intent: string, client: string, s: Stamps)
    requires g.phase == Idle && intent !in g.journal.orders
    requires s.id0 != s.id1 && !UsesEventId(g.journal.events, s.id0) && !UsesEventId(g.journal.events, s.id1)
    requires !UsesClientId(g.journal.orders, intent, Some(client))
    ensures SixSteps(g, intent, true, client, true, true, s).received == g.received + [Dispatch(intent, client)]
  {
    Reserving(g, intent, client, true, true, s);
    var e := MakeEvent(s.id0, intent, Some(client), PendingSubmit, s.ts0);
    assert BeginStep(g.journal, e).Ok?;
    var k := BeginStep(g.journal, e).value;
    assert k.events == g.journal.events + [StoredRow(g.journal.events, e)];
    assert !UsesEventId(k.events, s.id1);
    assert AppendStep(k, MakeEvent(s.id1, intent, Some(client), Submitted, s.ts1)).Ok?;
    Submitting(g.(journal := k, phase := ToSubmit(intent, client)), intent, client, true, s);
  }

  /** A crash and one more call: the continuation that defeats a denial that was not written. */
  lemma {:induction false} CrashAndCallAgain(g: Gateway, intent: string) returns (actions: seq<Action>)
    requires intent != "" && intent !in g.journal.orders
    ensures actions != [] && actions[0] == Crash && ValidActions(g, actions) && DispatchesLater(g, actions, intent)
  {
    var client, s := FreshIds(g.journal);
    var call := Script(intent, true, client, true, true, s);
    var idle := Act(g, Crash);
    actions := [Crash] + call;
    assert actions[1..] == call;
    ScriptIsValid(idle, intent, true, client, true, true, s);
    assert ValidActions(g, actions);
    CallIsARun(idle, intent, true, client, true, true, s);
    FreshCallDispatches(idle, intent, client, s);
    assert RunGateway(g, actions) == RunGateway(idle, call);
    assert RunGateway(g, actions).received[|g.received|] == Dispatch(intent, client);
  }

  // ----- together -----

  /** Risk or approval has denied the intent and the call is about to record it. */
  predicate Denying(phase: Phase, intent: string) {
    phase == ToRecordDenial(intent) || phase == ToDeny(intent) || (phase.ToRefuse? && phase.intent == intent)
  }

  /**
   A decided denial protects its intent from ever reaching the adapter again if
   and only if the intent's identity is durable in the journal.
   */
  lemma {:induction false} DenialProtectsExactlyWhen(g: Gateway, intent: string)
    requires Safe(g) && Denying(g.phase, intent)
    ensures Protected(g, intent) <==> intent in g.journal.orders
  {
    if intent in g.journal.orders {
      DurableProtects(g, intent);
    } else {
      var actions := CrashAndCallAgain(g, intent);
    }
  }

  /** Once the first write of a risk denial has succeeded, the intent is protected. */
  lemma {:induction false} WrittenDenialProtects(g: Gateway, intent: string, id: string, ts: nat)
    requires g.phase == ToRecordDenial(intent) && Act(g, Write(id, ts)).phase == ToDeny(intent)
    ensures Protected(Act(g, Write(id, ts)), intent)
  {
    DurableProtects(Act(g, Write(id, ts)), intent);
  }

  /** An approval that does not hold always protects: its order was reserved before it was asked for. */
  lemma {:induction false} RefusalAlwaysProtects(g: Gateway, intent: string)
    requires Safe(g) && g.phase.ToRefuse? && g.phase.intent == intent
    ensures Protected(g, intent)
  {
    DurableProtects(g, intent);
  }
}
