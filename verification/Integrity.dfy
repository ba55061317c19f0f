/**
 Data-quality accounting: duplicate trades by a bounded table of recent keys,
 time regressions per event type, and receive gaps per channel.
 */
module Integrity {
  import opened Wrappers

  datatype Event =
    | Quote(kind: string, ts: nat)
    | Trade(ts: nat, tradeId: string, transactionHash: Option<string>)
  {
    function Kind(): string { if Quote? then kind else "trade" }
  }

  datatype IssueKind = CadenceAnomaly | TimestampRegression | Duplicate

  datatype Issue = Issue(kind: IssueKind, receiveTs: nat, eventTs: Option<nat>, channel: string)

  datatype Frame = Frame(channel: string, receiveTs: nat, events: seq<Event>)

  datatype Config = Config(cadenceThreshold: nat, duplicateWindow: nat)

  /** `keys` lists the table of trade keys, the one to be evicted next first. */
  datatype State = State(
    issues: seq<Issue>, lastEvent: map<string, nat>, lastReceive: map<string, nat>, keys: seq<string>)

  const INITIAL := State([], map[], map[], [])

  function KeyOf(e: Event): string
    requires e.Trade?
  {
    e.tradeId + ":" + if e.transactionHash.Some? then e.transactionHash.value else ""
  }

  // ----- the tracker as a function -----

  function Without(keys: seq<string>, key: string): seq<string> {
    if keys == [] then []
    else
      var rest := Without(keys[..|keys| - 1], key);
      if keys[|keys| - 1] == key then rest else rest + [keys[|keys| - 1]]
  }

  /** Move a known key to the end, or add a new one and evict the oldest when the table is over full. */
  function Touch(keys: seq<string>, key: string, window: nat): seq<string> {
    if key in keys then Without(keys, key) + [key]
    else
      var longer := keys + [key];
      if |longer| > window then longer[1..] else longer
  }

  function Later(previous: Option<nat>, ts: nat): nat {
    if previous.Some? && previous.value > ts then previous.value else ts
  }

  function LastTs(s: State, kind: string): Option<nat> {
    if kind in s.lastEvent then Some(s.lastEvent[kind]) else None
  }

  function EventIssues(c: Config, s: State, f: Frame, e: Event): seq<Issue> {
    var previous := LastTs(s, e.Kind());
    (if previous.Some? && e.ts < previous.value
     then [Issue(TimestampRegression, f.receiveTs, Some(e.ts), f.channel)] else [])
    + (if e.Trade? && KeyOf(e) in s.keys then [Issue(Duplicate, f.receiveTs, Some(e.ts), f.channel)] else [])
  }

  function EventStep(c: Config, s: State, f: Frame, e: Event): State {
    State(s.issues + EventIssues(c, s, f, e),
          s.lastEvent[e.Kind() := Later(LastTs(s, e.Kind()), e.ts)], s.lastReceive,
          if e.Trade? then Touch(s.keys, KeyOf(e), c.duplicateWindow) else s.keys)
  }

  predicate IsAccepted(s: State, e: Event) { e.Trade? ==> KeyOf(e) !in s.keys }

  /** The state after the events of a frame, and those of them that were accepted. */
  function EventsStep(c: Config, s: State, f: Frame, events: seq<Event>): (State, seq<Event>) {
    if events == [] then (s, [])
    else
      var (before, accepted) := EventsStep(c, s, f, events[..|events| - 1]);
      var e := events[|events| - 1];
      (EventStep(c, before, f, e), if IsAccepted(before, e) then accepted + [e] else accepted)
  }

  function Arrive(c: Config, s: State, f: Frame): State {
    var gap := f.channel in s.lastReceive && f.receiveTs > s.lastReceive[f.channel] + c.cadenceThreshold;
    s.(issues := s.issues + if gap then [Issue(CadenceAnomaly, f.receiveTs, None, f.channel)] else [],
       lastReceive := s.lastReceive[f.channel := f.receiveTs])
  }

  function FrameStep(c: Config, s: State, f: Frame): (State, seq<Event>) {
    EventsStep(c, Arrive(c, s, f), f, f.events)
  }

  function Run(c: Config, frames: seq<Frame>): (State, seq<Event>) {
    if frames == [] then (INITIAL, [])
    else
      var (s, accepted) := Run(c, frames[..|frames| - 1]);
      var (next, more) := FrameStep(c, s, frames[|frames| - 1]);
      (next, accepted + more)
  }

  // ----- what the history says -----

  function EventsOf(frames: seq<Frame>): seq<Event> {
    if frames == [] then [] else EventsOf(frames[..|frames| - 1]) + frames[|frames| - 1].events
  }

  function KeysOf(events: seq<Event>): seq<string> {
    if events == [] then []
    else
      var e := events[|events| - 1];
      KeysOf(events[..|events| - 1]) + if e.Trade? then [KeyOf(e)] else []
  }

  /** The distinct keys of a history, the one seen last at the end. */
  function Recent(keys: seq<string>): seq<string> {
    if keys == [] then [] else Without(Recent(keys[..|keys| - 1]), keys[|keys| - 1]) + [keys[|keys| - 1]]
  }

  function Last(keys: seq<string>, n: nat): seq<string> {
    if |keys| <= n then keys else keys[|keys| - n..]
  }

  function LatestTs(events: seq<Event>, kind: string): Option<nat> {
    if events == [] then None
    else
      var e := events[|events| - 1];
      var before := LatestTs(events[..|events| - 1], kind);
      if e.Kind() == kind then Some(Later(before, e.ts)) else before
  }

  /** The events left when every repetition of a trade key is dropped. */
  function FirstOccurrences(events: seq<Event>): seq<Event> {
    if events == [] then []
    else
      var init, e := events[..|events| - 1], events[|events| - 1];
      FirstOccurrences(init) + if e.Trade? && KeyOf(e) in KeysOf(init) then [] else [e]
  }

  // ----- the table holds the most recent distinct keys -----

  ghost predicate Distinct(keys: seq<string>) { forall i, j | 0 <= i < j < |keys| :: keys[i] != keys[j] }

  lemma {:induction false} WithoutIs(keys: seq<string>, key: string)
    ensures forall k :: k in Without(keys, key) <==> k in keys && k != key
    ensures Distinct(keys) ==> Distinct(Without(keys, key))
    ensures key !in keys ==> Without(keys, key) == keys
    ensures Distinct(keys) && key in keys ==> |Without(keys, key)| == |keys| - 1
  {
    if keys != [] {
      var init, last := keys[..|keys| - 1], keys[|keys| - 1];
      assert keys == init + [last];
      WithoutIs(init, key);
      if Distinct(keys) {
        assert last !in init;
      }
    }
  }

  lemma {:induction false} WithoutConcat(a: seq<string>, b: seq<string>, key: string)
    ensures Without(a + b, key) == Without(a, key) + Without(b, key)
    decreases |b|
  {
    if b == [] {
      assert a + b == a;
    } else {
      var init, last := b[..|b| - 1], b[|b| - 1];
      assert (a + b)[..|a + b| - 1] == a + init;
      WithoutConcat(a, init, key);
    }
  }

  lemma {:induction false} RecentIs(keys: seq<string>)
    ensures Distinct(Recent(keys))
    ensures forall k :: k in Recent(keys) <==> k in keys
  {
    if keys != [] {
      var init, last := keys[..|keys| - 1], keys[|keys| - 1];
      assert keys == init + [last];
      RecentIs(init);
      WithoutIs(Recent(init), last);
    }
  }

  lemma {:induction false} LastOfAppend(a: seq<string>, b: seq<string>, n: nat)
    requires |b| == n || (a == [] && |b| <= n)
    ensures Last(a + b, n) == b
  {
  }

  lemma {:induction false} WithoutAbsent(keys: seq<string>, key: string)
    requires key !in keys
    ensures Without(keys, key) == keys
  {
    if keys != [] {
      WithoutAbsent(keys[..|keys| - 1], key);
    }
  }

  lemma {:induction false} WithoutPresent(keys: seq<string>, key: string)
    requires Distinct(keys) && key in keys
    ensures |Without(keys, key)| == |keys| - 1
  {
    var init, last := keys[..|keys| - 1], keys[|keys| - 1];
    if last == key {
      WithoutAbsent(init, key);
    } else {
      WithoutPresent(init, key);
    }
  }

  lemma {:induction false} TouchKnown(evicted: seq<string>, kept: seq<string>, key: string, window: nat)
    requires Distinct(kept) && key in kept && key !in evicted
    requires |kept| == window || (evicted == [] && |kept| <= window)
    ensures Touch(kept, key, window) == Last(Without(evicted + kept, key) + [key], window)
  {
    WithoutConcat(evicted, kept, key);
    WithoutAbsent(evicted, key);
    WithoutPresent(kept, key);
    LastOfAppend(evicted, Without(kept, key) + [key], window);
    assert evicted + Without(kept, key) + [key] == evicted + (Without(kept, key) + [key]);
  }

  lemma {:induction false} TouchNew(evicted: seq<string>, kept: seq<string>, key: string, window: nat)
    requires key !in kept && (|kept| == window || (evicted == [] && |kept| <= window))
    ensures Touch(kept, key, window) == Last(Without(evicted + kept, key) + [key], window)
  {
    WithoutConcat(evicted, kept, key);
    WithoutAbsent(kept, key);
    var longer, others := kept + [key], Without(evicted, key);
    assert Without(evicted + kept, key) + [key] == others + longer;
    if |longer| > window {
      assert others + longer == (others + [longer[0]]) + longer[1..];
      LastOfAppend(others + [longer[0]], longer[1..], window);
    } else {
      LastOfAppend(others, longer, window);
    }
  }

  lemma {:induction false} NotEvicted(evicted: seq<string>, kept: seq<string>, key: string)
    requires Distinct(evicted + kept) && key in kept
    ensures Distinct(kept) && key !in evicted
  {
    var all := evicted + kept;
    assert forall i | 0 <= i < |kept| :: kept[i] == all[|evicted| + i];
    assert forall i | 0 <= i < |evicted| :: evicted[i] == all[i];
  }

  /** Touching the last `window` recent keys gives the last `window` recent keys of the longer history. */
  lemma {:induction false} TouchKeepsRecent(recent: seq<string>, key: string, window: nat)
    requires Distinct(recent)
    ensures Touch(Last(recent, window), key, window) == Last(Without(recent, key) + [key], window)
  {
    var kept := Last(recent, window);
    var evicted := recent[..|recent| - |kept|];
    assert recent == evicted + kept;
    if key in kept {
      NotEvicted(evicted, kept, key);
      TouchKnown(evicted, kept, key, window);
    } else {
      TouchNew(evicted, kept, key, window);
    }
  }

  lemma {:induction false} KeysSnoc(events: seq<Event>, e: Event)
    ensures e.Trade? ==> KeysOf(events + [e]) == KeysOf(events) + [KeyOf(e)]
    ensures !e.Trade? ==> KeysOf(events + [e]) == KeysOf(events)
    ensures LatestTs(events + [e], e.Kind()) == Some(Later(LatestTs(events, e.Kind()), e.ts))
    ensures forall kind | kind != e.Kind() :: LatestTs(events + [e], kind) == LatestTs(events, kind)
  {
    assert (events + [e])[..|events|] == events;
  }

  lemma {:induction false} RecentSnoc(keys: seq<string>, key: string)
    ensures Recent(keys + [key]) == Without(Recent(keys), key) + [key]
  {
    assert (keys + [key])[..|keys|] == keys;
  }

  ghost predicate Tracks(c: Config, events: seq<Event>, s: State) {
    && s.keys == Last(Recent(KeysOf(events)), c.duplicateWindow)
    && forall kind :: SameTs(events, s, kind)
  }

  ghost predicate SameTs(events: seq<Event>, s: State, kind: string) { LastTs(s, kind) == LatestTs(events, kind) }

  lemma {:induction false} EventTracks(c: Config, events: seq<Event>, s: State, f: Frame, e: Event)
    requires Tracks(c, events, s)
    ensures Tracks(c, events + [e], EventStep(c, s, f, e))
  {
    KeysSnoc(events, e);
    if e.Trade? {
      RecentIs(KeysOf(events));
      TouchKeepsRecent(Recent(KeysOf(events)), KeyOf(e), c.duplicateWindow);
      RecentSnoc(KeysOf(events), KeyOf(e));
    }
    var next := EventStep(c, s, f, e);
    forall kind ensures SameTs(events + [e], next, kind) {
      assert SameTs(events, s, kind) && SameTs(events, s, e.Kind());
    }
  }

  lemma {:induction false} ArriveTracks(c: Config, events: seq<Event>, s: State, f: Frame)
    requires Tracks(c, events, s)
    ensures Tracks(c, events, Arrive(c, s, f))
  {
    forall kind ensures SameTs(events, Arrive(c, s, f), kind) {
      assert SameTs(events, s, kind);
    }
  }

  lemma {:induction false} EventsTrack(c: Config, before: seq<Event>, s: State, f: Frame, events: seq<Event>)
    requires Tracks(c, before, s)
    ensures Tracks(c, before + events, EventsStep(c, s, f, events).0)
    decreases |events|
  {
    if events == [] {
      assert before + events == before;
    } else {
      var init, e := events[..|events| - 1], events[|events| - 1];
      EventsTrack(c, before, s, f, init);
      EventTracks(c, before + init, EventsStep(c, s, f, init).0, f, e);
      assert before + events == before + init + [e];
    }
  }

  /**
   After any frames the key table holds exactly the `duplicateWindow` most
   recently observed distinct trade keys, and each event type's time is the
   latest one seen.
   */
  lemma {:induction false} TableIsMostRecent(c: Config, frames: seq<Frame>)
    ensures Tracks(c, EventsOf(frames), Run(c, frames).0)
    ensures |Run(c, frames).0.keys| <= c.duplicateWindow
  {
    if frames != [] {
      var init, f := frames[..|frames| - 1], frames[|frames| - 1];
      TableIsMostRecent(c, init);
      var s := Run(c, init).0;
      ArriveTracks(c, EventsOf(init), s, f);
      EventsTrack(c, EventsOf(init), Arrive(c, s, f), f, f.events);
    }
  }

  /** What the issues of an event mean, in terms of everything seen before it. */
  lemma {:induction false} IssuesMean(c: Config, events: seq<Event>, s: State, f: Frame, e: Event)
    requires Tracks(c, events, s)
    ensures Issue(Duplicate, f.receiveTs, Some(e.ts), f.channel) in EventIssues(c, s, f, e)
            <==> e.Trade? && KeyOf(e) in Last(Recent(KeysOf(events)), c.duplicateWindow)
    ensures Issue(TimestampRegression, f.receiveTs, Some(e.ts), f.channel) in EventIssues(c, s, f, e)
            <==> LatestTs(events, e.Kind()).Some? && e.ts < LatestTs(events, e.Kind()).value
  {
    assert SameTs(events, s, e.Kind());
  }

  // ----- gaps and keys -----

  /** Position of the last frame of a channel. */
  ghost predicate LastFrame(frames: seq<Frame>, channel: string, i: int) {
    0 <= i < |frames| && frames[i].channel == channel && forall k | i < k < |frames| :: frames[k].channel != channel
  }

  ghost predicate ReceiveKnown(frames: seq<Frame>, s: State, channel: string) {
    if channel in s.lastReceive
    then exists i :: LastFrame(frames, channel, i) && frames[i].receiveTs == s.lastReceive[channel]
    else forall i | 0 <= i < |frames| :: frames[i].channel != channel
  }

  lemma {:induction false} EventsKeepReceive(c: Config, s: State, f: Frame, events: seq<Event>)
    ensures EventsStep(c, s, f, events).0.lastReceive == s.lastReceive
  {
    if events != [] {
      EventsKeepReceive(c, s, f, events[..|events| - 1]);
    }
  }

  lemma {:induction false} ReceiveTracked(c: Config, frames: seq<Frame>, channel: string)
    ensures ReceiveKnown(frames, Run(c, frames).0, channel)
  {
    if frames != [] {
      var init, f := frames[..|frames| - 1], frames[|frames| - 1];
      ReceiveTracked(c, init, channel);
      var s := Run(c, init).0;
      EventsKeepReceive(c, Arrive(c, s, f), f, f.events);
      if channel == f.channel {
        assert LastFrame(frames, channel, |init|);
      } else if channel in s.lastReceive {
        var i :| LastFrame(init, channel, i) && init[i].receiveTs == s.lastReceive[channel];
        assert LastFrame(frames, channel, i) && frames[i].receiveTs == s.lastReceive[channel];
      }
    }
  }

  /** The frame came later than the threshold after the last frame of its channel. */
  ghost predicate Gap(c: Config, frames: seq<Frame>, f: Frame) {
    exists i :: LastFrame(frames, f.channel, i) && f.receiveTs > frames[i].receiveTs + c.cadenceThreshold
  }

  /** A frame raises one cadence anomaly exactly when its channel had gone quiet for longer than the threshold. */
  lemma {:induction false} GapsExactlyWhen(c: Config, frames: seq<Frame>, f: Frame)
    ensures var s := Run(c, frames).0;
            Arrive(c, s, f).issues
            == s.issues + if Gap(c, frames, f) then [Issue(CadenceAnomaly, f.receiveTs, None, f.channel)] else []
  {
    ReceiveTracked(c, frames, f.channel);
    var s := Run(c, frames).0;
    if f.channel in s.lastReceive {
      var i :| LastFrame(frames, f.channel, i) && frames[i].receiveTs == s.lastReceive[f.channel];
      forall k | LastFrame(frames, f.channel, k) ensures k == i {
      }
    }
  }

  /** The transaction a trade names; none counts as the empty name. */
  function HashOf(e: Event): string
    requires e.Trade?
  {
    if e.transactionHash.Some? then e.transactionHash.value else ""
  }

  function FirstColon(s: string): nat {
    if s == "" || s[0] == ':' then 0 else 1 + FirstColon(s[1..])
  }

  lemma {:induction false} FirstColonIs(id: string, rest: string)
    requires ':' !in id
    ensures FirstColon(id + (":" + rest)) == |id|
  {
    if id != "" {
      assert (id + (":" + rest))[1..] == id[1..] + (":" + rest);
      FirstColonIs(id[1..], rest);
    }
  }

  /** Two trades share a key exactly when they share id and transaction, as long as ids hold no colon. */
  lemma {:induction false} KeysAgreeExactlyWhen(a: Event, b: Event)
    requires a.Trade? && b.Trade? && ':' !in a.tradeId && ':' !in b.tradeId
    ensures KeyOf(a) == KeyOf(b) <==> a.tradeId == b.tradeId && HashOf(a) == HashOf(b)
  {
    var x, y := KeyOf(a), KeyOf(b);
    assert x == a.tradeId + (":" + HashOf(a)) && y == b.tradeId + (":" + HashOf(b));
    FirstColonIs(a.tradeId, HashOf(a));
    FirstColonIs(b.tradeId, HashOf(b));
    if x == y {
      assert x[..|a.tradeId|] == a.tradeId && y[..|b.tradeId|] == b.tradeId;
      assert x[|a.tradeId| + 1..] == HashOf(a) && y[|b.tradeId| + 1..] == HashOf(b);
    }
  }

  // ----- while the table never evicts -----

  lemma {:induction false} RecentGrows(a: seq<string>, b: seq<string>)
    ensures |Recent(a)| <= |Recent(a + b)|
    decreases |b|
  {
    if b == [] {
      assert a + b == a;
    } else {
      var init, last := b[..|b| - 1], b[|b| - 1];
      assert a + b == (a + init) + [last];
      RecentGrows(a, init);
      RecentSnoc(a + init, last);
      RecentIs(a + init);
      WithoutIs(Recent(a + init), last);
    }
  }

  lemma {:induction false} KeysConcat(a: seq<Event>, b: seq<Event>)
    ensures KeysOf(a + b) == KeysOf(a) + KeysOf(b)
    decreases |b|
  {
    if b == [] {
      assert a + b == a;
    } else {
      assert (a + b)[..|a + b| - 1] == a + b[..|b| - 1];
      KeysConcat(a, b[..|b| - 1]);
    }
  }

  ghost predicate NeverFull(c: Config, events: seq<Event>) { |Recent(KeysOf(events))| <= c.duplicateWindow }

  lemma {:induction false} NeverFullBefore(c: Config, a: seq<Event>, b: seq<Event>)
    requires NeverFull(c, a + b)
    ensures NeverFull(c, a)
  {
    KeysConcat(a, b);
    RecentGrows(KeysOf(a), KeysOf(b));
  }

  lemma {:induction false} FirstSnoc(events: seq<Event>, e: Event)
    ensures FirstOccurrences(events + [e])
            == FirstOccurrences(events) + if e.Trade? && KeyOf(e) in KeysOf(events) then [] else [e]
  {
    assert (events + [e])[..|events|] == events;
  }

  lemma {:induction false} AcceptsFirsts(c: Config, before: seq<Event>, s: State, f: Frame, events: seq<Event>)
    requires Tracks(c, before, s) && NeverFull(c, before + events)
    ensures FirstOccurrences(before + events) == FirstOccurrences(before) + EventsStep(c, s, f, events).1
    decreases |events|
  {
    if events == [] {
      assert before + events == before;
    } else {
      var init, e := events[..|events| - 1], events[|events| - 1];
      assert before + events == (before + init) + [e];
      NeverFullBefore(c, before + init, [e]);
      AcceptsFirsts(c, before, s, f, init);
      EventsTrack(c, before, s, f, init);
      RecentIs(KeysOf(before + init));
      FirstSnoc(before + init, e);
    }
  }

  /** While no more distinct keys were seen than the table holds, exactly the first occurrences are accepted, in order. */
  lemma {:induction false} AcceptedAreFirstOccurrences(c: Config, frames: seq<Frame>)
    requires NeverFull(c, EventsOf(frames))
    ensures Run(c, frames).1 == FirstOccurrences(EventsOf(frames))
    decreases |frames|
  {
    if frames != [] {
      var init, f := frames[..|frames| - 1], frames[|frames| - 1];
      NeverFullBefore(c, EventsOf(init), f.events);
      AcceptedAreFirstOccurrences(c, init);
      TableIsMostRecent(c, init);
      var s := Run(c, init).0;
      ArriveTracks(c, EventsOf(init), s, f);
      AcceptsFirsts(c, EventsOf(init), Arrive(c, s, f), f, f.events);
    }
  }

  // ----- the tracker object -----

  class IntegrityTracker {
    const config: Config
    var issues: seq<Issue>
    var lastEvent: map<string, nat>
    var lastReceive: map<string, nat>
    var tradeKeys: seq<string>

    ghost function View(): State
      reads this
    {
      State(issues, lastEvent, lastReceive, tradeKeys)
    }

    constructor (config: Config)
      ensures this.config == config && View() == INITIAL
    {
      this.config := config;
      issues, lastEvent, lastReceive, tradeKeys := [], map[], map[], [];
    }

    method IsDuplicateTrade(e: Event) returns (duplicate: bool)
      requires e.Trade?
      modifies this`tradeKeys
      ensures duplicate <==> KeyOf(e) in old(tradeKeys)
      ensures tradeKeys == Touch(old(tradeKeys), KeyOf(e), config.duplicateWindow)
    {
      var key := KeyOf(e);
      if key in tradeKeys {
        tradeKeys := Without(tradeKeys, key) + [key];
        return true;
      }
      tradeKeys := tradeKeys + [key];
      if |tradeKeys| > config.duplicateWindow { tradeKeys := tradeKeys[1..]; }
      return false;
    }

    method ObserveEvent(f: Frame, e: Event) returns (accepted: bool)
      modifies this
      ensures View() == EventStep(config, old(View()), f, e) && accepted == IsAccepted(old(View()), e)
    {
      var kind := e.Kind();
      if kind in lastEvent && e.ts < lastEvent[kind] {
        issues := issues + [Issue(TimestampRegression, f.receiveTs, Some(e.ts), f.channel)];
      }
      lastEvent := lastEvent[kind := if kind in lastEvent && lastEvent[kind] > e.ts then lastEvent[kind] else e.ts];
      accepted := true;
      if e.Trade? {
        var duplicate := IsDuplicateTrade(e);
        if duplicate {
          issues := issues + [Issue(Duplicate, f.receiveTs, Some(e.ts), f.channel)];
          accepted := false;
        }
      }
      assert View().issues == old(issues) + EventIssues(config, old(View()), f, e);
    }

    method ObserveFrame(f: Frame) returns (accepted: seq<Event>)
      modifies this
      ensures (View(), accepted) == FrameStep(config, old(View()), f)
    {
      if f.channel in lastReceive && f.receiveTs > lastReceive[f.channel] + config.cadenceThreshold {
        issues := issues + [Issue(CadenceAnomaly, f.receiveTs, None, f.channel)];
      }
      lastReceive := lastReceive[f.channel := f.receiveTs];
      ghost var arrived := Arrive(config, old(View()), f);
      assert View().issues == arrived.issues;
      accepted := [];
      for i := 0 to |f.events|
        invariant (View(), accepted) == EventsStep(config, arrived, f, f.events[..i])
      {
        assert f.events[..i + 1][..i] == f.events[..i];
        var ok := ObserveEvent(f, f.events[i]);
        if ok { accepted := accepted + [f.events[i]]; }
      }
      assert f.events[..|f.events|] == f.events;
    }
  }
}
