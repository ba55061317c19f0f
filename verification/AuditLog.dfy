/**
 The hash-linked operational evidence log.  Canonical JSON and SHA-256 are
 functions; a log is the bytes of its file.
 */
module AuditLog {
  import opened Wrappers
  import opened BigEndian
  import opened Framing

  datatype Component = Execution | Sentinel

  datatype Kind =
    | Reconciliation | RiskStateChange | ExecutionCancelAll | LivePipelineFault
    | HeartbeatState | DeadmanSchedule | SentinelEmergencyCancel

  /** A digest, as the number its hexadecimal digits spell. */
  type Digest = nat

  /** `riskReasons` are the codes of the typed risk reasons. */
  datatype Event = Event(
    eventId: string, sequence: nat, prior: Option<Digest>, component: Component, kind: Kind, ts: nat,
    success: bool, orderCount: Option<nat>, riskActive: Option<bool>, riskReasons: seq<nat>, detail: string)
  {
    predicate Valid() {
      && 1 <= |eventId| <= 128 && sequence > 0 && 1 <= |detail| <= 1_024
      && (component == Execution <==> kind in {Reconciliation, RiskStateChange, ExecutionCancelAll, LivePipelineFault})
      && (sequence == 1 <==> prior.None?)
      && (kind == RiskStateChange <==> riskActive.Some?)
      && (kind != RiskStateChange ==> riskReasons == [])
      && (forall i, k | 0 <= i < k < |riskReasons| :: riskReasons[i] != riskReasons[k])
      && (riskActive.Some? ==> (riskActive.value <==> riskReasons == []))
    }
  }

  const MAX_AUDIT_BYTES: nat := 67_108_864
  const MAX_AUDIT_EVENTS: nat := 1_000_000
  const NEWLINE: Byte := 10
  const RETURN: Byte := 13

  datatype Codec = Codec(encode: Event -> Bytes, decode: Bytes -> Option<Event>, sha: Event -> Digest)
  {
    /**
     Decoding undoes encoding of a valid event and yields valid events only; canonical JSON is
     printable, and its fixed field names alone take more than sixty-six bytes.
     */
    ghost predicate Canonical() {
      && (forall e: Event :: e.Valid() ==> decode(encode(e)) == Some(e))
      && (forall b: Bytes :: decode(b).Some? ==> decode(b).value.Valid())
      && (forall e: Event :: Unbroken(encode(e)) && |encode(e)| >= 67)
    }

    ghost predicate CollisionFree() {
      forall e, f :: sha(e) == sha(f) ==> e == f
    }
  }

  datatype Error =
    | SizeBound | IncompleteRecord | EventBound | InvalidEvent | NotCanonical | ChainBroken | WrongComponent

  // ----- lines -----

  predicate IsBreak(b: Byte) { b == NEWLINE || b == RETURN }

  predicate UnbrokenTo(s: Bytes, k: nat)
    requires k <= |s|
  {
    forall i | 0 <= i < k :: !IsBreak(s[i])
  }

  predicate Unbroken(line: Bytes) { UnbrokenTo(line, |line|) }

  function FirstBreak(s: Bytes): (k: nat)
    ensures k <= |s| && UnbrokenTo(s, k) && (k < |s| ==> IsBreak(s[k]))
  {
    if s == [] || IsBreak(s[0]) then 0 else 1 + FirstBreak(s[1..])
  }

  /** A line ends at a newline, a carriage return, or the two together; the last one may lack its end. */
  function NextLine(): Reader<Bytes> {
    (s: Bytes) =>
      if s == [] then None
      else
        var k := FirstBreak(s);
        if k == |s| then Some((s, []))
        else if s[k] == RETURN && k + 1 < |s| && s[k + 1] == NEWLINE then Some((s[..k], s[k + 2..]))
        else Some((s[..k], s[k + 1..]))
  }

  function SplitLines(s: Bytes): seq<Bytes> { Items(NextLine(), s).0 }

  function LineBlock(): Bytes -> Bytes { (line: Bytes) => line + [NEWLINE] }

  lemma {:induction false} FirstBreakIs(s: Bytes, k: nat)
    requires k <= |s| && UnbrokenTo(s, k) && (k < |s| ==> IsBreak(s[k]))
    ensures FirstBreak(s) == k
  {
  }

  lemma {:induction false} HasBreak(s: Bytes)
    requires s != [] && s[|s| - 1] == NEWLINE
    ensures FirstBreak(s) < |s|
  {
    assert IsBreak(s[|s| - 1]);
  }

  lemma {:induction false} TakesLine(line: Bytes)
    requires Unbroken(line)
    ensures Takes(NextLine(), LineBlock(), line)
  {
    forall tail: Bytes ensures NextLine()(LineBlock()(line) + tail) == Some((line, tail)) {
      var s := line + [NEWLINE] + tail;
      assert s[..|line|] == line && s[|line|] == NEWLINE && s[|line| + 1..] == tail;
      assert forall i | 0 <= i < |line| :: s[i] == line[i];
      FirstBreakIs(s, |line|);
    }
  }

  /** Lines without breaks, each ended by a newline, split back into themselves. */
  lemma {:induction false} LinesReadBack(lines: seq<Bytes>)
    requires forall i | 0 <= i < |lines| :: Unbroken(lines[i])
    ensures SplitLines(Concat(LineBlock(), lines)) == lines
  {
    forall i | 0 <= i < |lines| ensures Takes(NextLine(), LineBlock(), lines[i]) {
      TakesLine(lines[i]);
    }
    ReadUpTo(NextLine(), LineBlock(), lines, []);
    assert Concat(LineBlock(), lines) + [] == Concat(LineBlock(), lines);
  }

  predicate NoReturn(s: Bytes) { forall i | 0 <= i < |s| :: s[i] != RETURN }

  lemma {:induction false} FirstLine(s: Bytes) returns (k: nat)
    requires s != [] && NoReturn(s) && s[|s| - 1] == NEWLINE
    ensures k < |s| && NextLine()(s) == Some((s[..k], s[k + 1..])) && s == (s[..k] + [NEWLINE]) + s[k + 1..]
    ensures NoReturn(s[k + 1..]) && (s[k + 1..] != [] ==> s[k + 1..][|s| - k - 2] == NEWLINE)
  {
    HasBreak(s);
    k := FirstBreak(s);
    assert s[k] == NEWLINE;
  }

  /** Without carriage returns, a text that ends with a newline is its lines, each ended by a newline. */
  lemma {:induction false} LinesJoin(s: Bytes)
    requires NoReturn(s) && (s != [] ==> s[|s| - 1] == NEWLINE)
    ensures s == Concat(LineBlock(), SplitLines(s))
    decreases |s|
  {
    if s != [] {
      var k := FirstLine(s);
      LinesJoin(s[k + 1..]);
      ItemsStep(NextLine(), s, s[..k], s[k + 1..]);
      ConcatCons(LineBlock(), s[..k], SplitLines(s[k + 1..]));
    }
  }

  // ----- parsing -----

  function Tip(c: Codec, events: seq<Event>): Option<Digest> {
    if events == [] then None else Some(c.sha(events[|events| - 1]))
  }

  function CheckLine(c: Codec, line: Bytes, before: seq<Event>, expected: Option<Component>): Result<Event, Error> {
    var e := c.decode(line);
    if e.None? then Err(InvalidEvent)
    else if c.encode(e.value) != line then Err(NotCanonical)
    else if e.value.sequence != |before| + 1 || e.value.prior != Tip(c, before) then Err(ChainBroken)
    else if expected.Some? && e.value.component != expected.value then Err(WrongComponent)
    else Ok(e.value)
  }

  function CheckLines(c: Codec, lines: seq<Bytes>, expected: Option<Component>): Result<seq<Event>, Error> {
    if lines == [] then Ok([])
    else
      var before := CheckLines(c, lines[..|lines| - 1], expected);
      if before.Err? then before
      else
        var last := CheckLine(c, lines[|lines| - 1], before.value, expected);
        if last.Err? then Err(last.error) else Ok(before.value + [last.value])
  }

  function Parse(c: Codec, payload: Bytes, expected: Option<Component>): Result<seq<Event>, Error> {
    if |payload| > MAX_AUDIT_BYTES then Err(SizeBound)
    else if payload != [] && payload[|payload| - 1] != NEWLINE then Err(IncompleteRecord)
    else if |SplitLines(payload)| > MAX_AUDIT_EVENTS then Err(EventBound)
    else CheckLines(c, SplitLines(payload), expected)
  }

  // ----- what a parsed log looks like -----

  /** Sequence numbers count from one, each event carries the digest of the one before it, and one component owns them. */
  ghost predicate Linked(c: Codec, events: seq<Event>, expected: Option<Component>) {
    forall i | 0 <= i < |events| :: LinkedAt(c, events, i, expected)
  }

  function EncodeAll(c: Codec, events: seq<Event>): seq<Bytes> {
    seq(|events|, i requires 0 <= i < |events| => c.encode(events[i]))
  }

  ghost predicate LinkedAt(c: Codec, events: seq<Event>, i: nat, expected: Option<Component>)
    requires i < |events|
  {
    && events[i].Valid() && events[i].sequence == i + 1 && events[i].prior == Tip(c, events[..i])
    && (expected.Some? ==> events[i].component == expected.value)
  }

  lemma {:induction false} LinkedInit(c: Codec, events: seq<Event>, e: Event, expected: Option<Component>)
    requires Linked(c, events + [e], expected)
    ensures Linked(c, events, expected)
  {
    var all := events + [e];
    forall i | 0 <= i < |events| ensures LinkedAt(c, events, i, expected) {
      assert all[..i] == events[..i];
      assert LinkedAt(c, all, i, expected);
    }
  }

  lemma {:induction false} LinkedSnoc(c: Codec, events: seq<Event>, e: Event, expected: Option<Component>)
    ensures Linked(c, events + [e], expected)
            <==> Linked(c, events, expected) && e.Valid() && e.sequence == |events| + 1 && e.prior == Tip(c, events)
                 && (expected.Some? ==> e.component == expected.value)
  {
    var all := events + [e];
    assert all[..|events|] == events && all[|events|] == e;
    if Linked(c, all, expected) {
      LinkedInit(c, events, e, expected);
      assert LinkedAt(c, all, |events|, expected);
    } else if Linked(c, events, expected) && LinkedAt(c, all, |events|, expected) {
      forall i | 0 <= i < |all| ensures LinkedAt(c, all, i, expected) {
        if i < |events| {
          assert all[..i] == events[..i];
          assert LinkedAt(c, events, i, expected);
        }
      }
    }
  }

  /** Exactly the canonical lines of a linked sequence of events are accepted. */
  lemma {:induction false} AcceptsExactlyLinked(c: Codec, lines: seq<Bytes>, events: seq<Event>, expected: Option<Component>)
    requires c.Canonical()
    ensures CheckLines(c, lines, expected) == Ok(events) <==> Linked(c, events, expected) && lines == EncodeAll(c, events)
    decreases |lines|
  {
    if lines == [] {
      if events != [] {
        assert |EncodeAll(c, events)| != 0;
      }
    } else {
      var init, line := lines[..|lines| - 1], lines[|lines| - 1];
      assert lines == init + [line];
      if events == [] {
        assert |EncodeAll(c, events)| == 0;
      } else {
        var before, e := events[..|events| - 1], events[|events| - 1];
        assert events == before + [e];
        AcceptsExactlyLinked(c, init, before, expected);
        LinkedSnoc(c, before, e, expected);
        EncodeSnoc(c, before, e);
        LastLine(c, init, line, before, e, expected);
      }
    }
  }

  lemma {:induction false} EncodeSnoc(c: Codec, events: seq<Event>, e: Event)
    ensures EncodeAll(c, events + [e]) == EncodeAll(c, events) + [c.encode(e)]
  {
  }

  lemma {:induction false} LastLine(c: Codec, init: seq<Bytes>, line: Bytes, before: seq<Event>, e: Event, expected: Option<Component>)
    requires c.Canonical()
    ensures CheckLines(c, init + [line], expected) == Ok(before + [e])
            <==> CheckLines(c, init, expected) == Ok(before)
                 && e.Valid() && line == c.encode(e) && e.sequence == |before| + 1 && e.prior == Tip(c, before)
                 && (expected.Some? ==> e.component == expected.value)
  {
    assert (init + [line])[..|init|] == init;
    var r := CheckLines(c, init, expected);
    if r.Ok? {
      var last := CheckLine(c, line, r.value, expected);
      if last.Ok? {
        assert r.value + [last.value] == before + [e] <==> r.value == before && last.value == e by {
          if r.value + [last.value] == before + [e] {
            assert (r.value + [last.value])[..|r.value|] == r.value;
            assert (before + [e])[..|before|] == before;
            assert (r.value + [last.value])[|r.value|] == last.value;
          }
        }
      }
    }
  }

  /** The bytes an untouched log consists of. */
  function Written(c: Codec, events: seq<Event>): Bytes {
    Concat(LineBlock(), EncodeAll(c, events))
  }

  lemma {:induction false} WrittenSnoc(c: Codec, events: seq<Event>, e: Event)
    ensures Written(c, events + [e]) == Written(c, events) + (c.encode(e) + [NEWLINE])
  {
    EncodeSnoc(c, events, e);
    ConcatSnoc(LineBlock(), EncodeAll(c, events), c.encode(e));
  }

  lemma {:induction false} WrittenIsLong(c: Codec, events: seq<Event>)
    requires c.Canonical()
    ensures |Written(c, events)| >= 68 * |events|
    ensures Written(c, events) != [] ==> Written(c, events)[|Written(c, events)| - 1] == NEWLINE
  {
    if events != [] {
      var init, last := events[..|events| - 1], events[|events| - 1];
      assert events == init + [last];
      WrittenIsLong(c, init);
      WrittenSnoc(c, init, last);
    }
  }

  lemma {:induction false} WrittenSplits(c: Codec, events: seq<Event>)
    requires c.Canonical()
    ensures SplitLines(Written(c, events)) == EncodeAll(c, events)
  {
    forall i | 0 <= i < |events| ensures Unbroken(EncodeAll(c, events)[i]) {
      assert Unbroken(c.encode(events[i]));
    }
    LinesReadBack(EncodeAll(c, events));
  }

  /**
   What the log wrote parses back exactly when it fits the byte bound; the event
   bound can never be the reason for a refusal.
   */
  lemma {:induction false} WrittenParsesExactlyWhen(c: Codec, events: seq<Event>, expected: Option<Component>)
    requires c.Canonical() && Linked(c, events, expected)
    ensures Parse(c, Written(c, events), expected) == Ok(events) <==> |Written(c, events)| <= MAX_AUDIT_BYTES
    ensures Parse(c, Written(c, events), expected) != Err(EventBound)
  {
    WrittenIsLong(c, events);
    WrittenSplits(c, events);
    AcceptsExactlyLinked(c, EncodeAll(c, events), events, expected);
  }

  /** A log with carriage returns only where no byte is one is byte for byte what was written. */
  lemma {:induction false} ParsedIsWritten(c: Codec, payload: Bytes, expected: Option<Component>)
    requires c.Canonical() && Parse(c, payload, expected).Ok? && NoReturn(payload)
    ensures payload == Written(c, Parse(c, payload, expected).value)
  {
    var events := Parse(c, payload, expected).value;
    AcceptsExactlyLinked(c, SplitLines(payload), events, expected);
    LinesJoin(payload);
  }

  lemma {:induction false} NoReturnInside(lines: seq<Bytes>)
    requires forall i | 0 <= i < |lines| :: Unbroken(lines[i])
    ensures NoReturn(Concat(LineBlock(), lines))
  {
    if lines != [] {
      var init, last := lines[..|lines| - 1], lines[|lines| - 1];
      NoReturnInside(init);
      ConcatSnoc(LineBlock(), init, last);
      assert lines == init + [last];
      assert forall i | 0 <= i < |last| :: !IsBreak(last[i]);
    }
  }

  /** A readable log is byte for byte what was written if and only if it contains no carriage return. */
  lemma {:induction false} ReadableIsWrittenExactlyWhen(c: Codec, payload: Bytes, expected: Option<Component>)
    requires c.Canonical() && Parse(c, payload, expected).Ok?
    ensures payload == Written(c, Parse(c, payload, expected).value) <==> NoReturn(payload)
  {
    NoReturnInside(EncodeAll(c, Parse(c, payload, expected).value));
    if NoReturn(payload) {
      ParsedIsWritten(c, payload, expected);
    }
  }

  /** Exactly which bytes parse to which events. */
  lemma {:induction false} ParsesExactlyWhen(c: Codec, payload: Bytes, events: seq<Event>, expected: Option<Component>)
    requires c.Canonical()
    ensures Parse(c, payload, expected) == Ok(events)
            <==> && |payload| <= MAX_AUDIT_BYTES && (payload != [] ==> payload[|payload| - 1] == NEWLINE)
                 && |events| <= MAX_AUDIT_EVENTS && SplitLines(payload) == EncodeAll(c, events)
                 && Linked(c, events, expected)
  {
    AcceptsExactlyLinked(c, SplitLines(payload), events, expected);
  }

  // ----- appending -----

  /** The new event of an append; the other fields come from the caller. */
  function NextEvent(c: Codec, events: seq<Event>, fields: Event, component: Component): Event {
    fields.(sequence := |events| + 1, prior := Tip(c, events), component := component)
  }

  function AppendStep(c: Codec, payload: Bytes, fields: Event, component: Component): Result<(Bytes, Event), Error> {
    var parsed := Parse(c, payload, Some(component));
    if parsed.Err? then Err(parsed.error)
    else
      var e := NextEvent(c, parsed.value, fields, component);
      if !e.Valid() then Err(InvalidEvent)
      else if |payload| + |c.encode(e)| + 1 > MAX_AUDIT_BYTES then Err(SizeBound)
      else Ok((payload + (c.encode(e) + [NEWLINE]), e))
  }

  /** The event an append adds: the caller's fields under the next number, the digest of the last event and the owner. */
  ghost predicate Adds(c: Codec, events: seq<Event>, fields: Event, component: Component, e: Event) {
    && e.sequence == |events| + 1
    && e.prior == (if events == [] then None else Some(c.sha(events[|events| - 1])))
    && e.component == component && e.eventId == fields.eventId && e.kind == fields.kind && e.ts == fields.ts
    && e.success == fields.success && e.orderCount == fields.orderCount && e.riskActive == fields.riskActive
    && e.riskReasons == fields.riskReasons && e.detail == fields.detail
  }

  /** An append succeeds exactly when the log is readable, the new event is valid and its record still fits. */
  lemma {:induction false} AppendsExactlyWhen(c: Codec, payload: Bytes, fields: Event, component: Component, e: Event)
    ensures var parsed := Parse(c, payload, Some(component));
            AppendStep(c, payload, fields, component) == Ok((payload + (c.encode(e) + [NEWLINE]), e))
            <==> parsed.Ok? && Adds(c, parsed.value, fields, component, e) && e.Valid()
                 && |payload| + |c.encode(e)| + 1 <= MAX_AUDIT_BYTES
  {
    var parsed := Parse(c, payload, Some(component));
    if parsed.Ok? && Adds(c, parsed.value, fields, component, e) {
      assert e == NextEvent(c, parsed.value, fields, component);
    }
  }

  /** Splitting goes line by line up to a final newline, whatever follows it. */
  lemma {:induction false} SplitAppend(s: Bytes, line: Bytes)
    requires (s != [] ==> s[|s| - 1] == NEWLINE) && Unbroken(line)
    ensures SplitLines(s + (line + [NEWLINE])) == SplitLines(s) + [line]
    decreases |s|
  {
    var tail := line + [NEWLINE];
    if s == [] {
      assert s + tail == tail;
      LinesReadBack([line]);
      assert Concat(LineBlock(), [line]) == LineBlock()(line) + Concat(LineBlock(), [line][1..]);
      assert LineBlock()(line) + [] == tail;
      assert SplitLines(s) + [line] == [line];
    } else {
      var (first, rest) := NextLine()(s).value;
      SplitOffFirst(s, tail, first, rest);
      SplitAppend(rest, line);
      ItemsStep(NextLine(), s, first, rest);
      ItemsStep(NextLine(), s + tail, first, rest + tail);
      assert [first] + (SplitLines(rest) + [line]) == [first] + SplitLines(rest) + [line];
    }
  }

  lemma {:induction false} SplitOffFirst(s: Bytes, tail: Bytes, first: Bytes, rest: Bytes)
    requires s != [] && s[|s| - 1] == NEWLINE && tail != [] && NextLine()(s) == Some((first, rest))
    ensures NextLine()(s + tail) == Some((first, rest + tail))
    ensures |rest| < |s| && (rest != [] ==> rest[|rest| - 1] == NEWLINE)
  {
    var k := FirstBreak(s);
    HasBreak(s);
    assert (s + tail)[..k] == s[..k];
    assert forall i | 0 <= i < |s| :: (s + tail)[i] == s[i];
    FirstBreakIs(s + tail, k);
    if s[k] == RETURN && k + 1 < |s| && s[k + 1] == NEWLINE {
      assert (s + tail)[k + 2..] == s[k + 2..] + tail;
    } else {
      assert k + 1 < |s| || s[k] == NEWLINE;
      assert (s + tail)[k + 1..] == s[k + 1..] + tail;
    }
  }

  lemma {:induction false} LinesAreShort(s: Bytes, lines: seq<Bytes>)
    requires SplitLines(s) == lines && forall i | 0 <= i < |lines| :: |lines[i]| >= 67
    requires s != [] ==> s[|s| - 1] == NEWLINE
    ensures 68 * |lines| <= |s|
    decreases |s|
  {
    if s != [] {
      var (first, rest) := NextLine()(s).value;
      SplitOffFirst(s, [NEWLINE], first, rest);
      ItemsStep(NextLine(), s, first, rest);
      assert lines == [first] + SplitLines(rest);
      assert lines[0] == first && lines[1..] == SplitLines(rest);
      FirstIsShort(s, first, rest);
      LinesAreShort(rest, lines[1..]);
    }
  }

  lemma {:induction false} FirstIsShort(s: Bytes, first: Bytes, rest: Bytes)
    requires s != [] && s[|s| - 1] == NEWLINE && NextLine()(s) == Some((first, rest))
    ensures |first| + 1 + |rest| <= |s|
  {
    HasBreak(s);
  }

  /**
   An accepted append makes the log parse to the old events and the new one, so
   no append ever leaves the log unreadable.
   */
  lemma {:induction false} AppendParses(c: Codec, payload: Bytes, fields: Event, component: Component)
    requires c.Canonical() && AppendStep(c, payload, fields, component).Ok?
    ensures var (longer, e) := AppendStep(c, payload, fields, component).value;
            Parse(c, longer, Some(component)) == Ok(Parse(c, payload, Some(component)).value + [e])
  {
    var events := Parse(c, payload, Some(component)).value;
    var (longer, e) := AppendStep(c, payload, fields, component).value;
    var lines := SplitLines(payload);
    AcceptsExactlyLinked(c, lines, events, Some(component));
    SplitAppend(payload, c.encode(e));
    LinkedSnoc(c, events, e, Some(component));
    EncodeSnoc(c, events, e);
    AcceptsExactlyLinked(c, SplitLines(longer), events + [e], Some(component));
    LinesAreLong(c, events + [e], SplitLines(longer));
    LinesAreShort(longer, SplitLines(longer));
  }

  /**
   A torn append never passes for a shorter log: whatever strict part of the new
   record reached the file, reading refuses it as incomplete.
   */
  lemma {:induction false} TornAppendIsIncomplete(c: Codec, payload: Bytes, fields: Event, component: Component, n: nat, expected: Option<Component>)
    requires c.Canonical() && AppendStep(c, payload, fields, component).Ok?
    requires 0 < n <= |c.encode(AppendStep(c, payload, fields, component).value.1)|
    ensures var record := c.encode(AppendStep(c, payload, fields, component).value.1) + [NEWLINE];
            Parse(c, payload + record[..n], expected) == Err(IncompleteRecord)
  {
    var line := c.encode(AppendStep(c, payload, fields, component).value.1);
    var torn := payload + (line + [NEWLINE])[..n];
    assert Unbroken(line);
    assert torn[|torn| - 1] == line[n - 1];
    assert !IsBreak(line[n - 1]);
  }

  lemma {:induction false} LinesAreLong(c: Codec, events: seq<Event>, lines: seq<Bytes>)
    requires c.Canonical() && lines == EncodeAll(c, events)
    ensures forall i | 0 <= i < |lines| :: |lines[i]| >= 67
  {
  }

  // ----- the last digest fixes the whole log -----

  lemma {:induction false} LastLink(c: Codec, events: seq<Event>, expected: Option<Component>)
    requires Linked(c, events, expected) && events != []
    ensures Linked(c, events[..|events| - 1], expected)
    ensures events[|events| - 1].prior == Tip(c, events[..|events| - 1])
  {
    var init := events[..|events| - 1];
    assert events == init + [events[|events| - 1]];
    LinkedSnoc(c, init, events[|events| - 1], expected);
  }

  lemma {:induction false} SameEnds(a: seq<Event>, b: seq<Event>)
    requires a != [] && b != [] && a[|a| - 1] == b[|b| - 1] && a[..|a| - 1] == b[..|b| - 1]
    ensures a == b
  {
    assert a == a[..|a| - 1] + [a[|a| - 1]];
    assert b == b[..|b| - 1] + [b[|b| - 1]];
  }

  /** Two linked histories with the same last digest are the same history. */
  lemma {:induction false} SameTipSameHistory(
    c: Codec, a: seq<Event>, b: seq<Event>, x: Option<Component>, y: Option<Component>)
    requires c.CollisionFree() && Linked(c, a, x) && Linked(c, b, y) && Tip(c, a) == Tip(c, b)
    ensures a == b
    decreases |a|
  {
    if a != [] {
      LastLink(c, a, x);
      LastLink(c, b, y);
      assert c.sha(a[|a| - 1]) == c.sha(b[|b| - 1]);
      SameTipSameHistory(c, a[..|a| - 1], b[..|b| - 1], x, y);
      SameEnds(a, b);
    }
  }

  /** With collision-free hashing, two valid logs with the same last-event digest hold the same events. */
  lemma {:induction false} SameTipSameLog(c: Codec, a: Bytes, b: Bytes, x: Option<Component>, y: Option<Component>)
    requires c.Canonical() && c.CollisionFree() && Parse(c, a, x).Ok? && Parse(c, b, y).Ok?
    requires Tip(c, Parse(c, a, x).value) == Tip(c, Parse(c, b, y).value)
    ensures Parse(c, a, x).value == Parse(c, b, y).value
    ensures NoReturn(b) ==> (a == b <==> NoReturn(a))
  {
    AcceptsExactlyLinked(c, SplitLines(a), Parse(c, a, x).value, x);
    AcceptsExactlyLinked(c, SplitLines(b), Parse(c, b, y).value, y);
    SameTipSameHistory(c, Parse(c, a, x).value, Parse(c, b, y).value, x, y);
    ReadableIsWrittenExactlyWhen(c, a, x);
    ReadableIsWrittenExactlyWhen(c, b, y);
  }

  // ----- carriage returns -----

  function ReturnBlock(): Bytes -> Bytes { (line: Bytes) => line + [RETURN, NEWLINE] }

  /** The log of the same events with every record ended by a carriage return and a newline. */
  function WrittenWithReturns(c: Codec, events: seq<Event>): Bytes {
    Concat(ReturnBlock(), EncodeAll(c, events))
  }

  lemma {:induction false} TakesReturnedLine(line: Bytes)
    requires Unbroken(line)
    ensures Takes(NextLine(), ReturnBlock(), line)
  {
    forall tail: Bytes ensures NextLine()(ReturnBlock()(line) + tail) == Some((line, tail)) {
      var s := line + [RETURN, NEWLINE] + tail;
      assert s[..|line|] == line && s[|line|] == RETURN && s[|line| + 1] == NEWLINE && s[|line| + 2..] == tail;
      assert forall i | 0 <= i < |line| :: s[i] == line[i];
      FirstBreakIs(s, |line|);
    }
  }

  lemma {:induction false} ReturnsReadBack(lines: seq<Bytes>)
    requires forall i | 0 <= i < |lines| :: Unbroken(lines[i])
    ensures SplitLines(Concat(ReturnBlock(), lines)) == lines
  {
    forall i | 0 <= i < |lines| ensures Takes(NextLine(), ReturnBlock(), lines[i]) {
      TakesReturnedLine(lines[i]);
    }
    ReadUpTo(NextLine(), ReturnBlock(), lines, []);
    assert Concat(ReturnBlock(), lines) + [] == Concat(ReturnBlock(), lines);
  }

  lemma {:induction false} EndsWithReturn(lines: seq<Bytes>)
    requires lines != []
    ensures var s := Concat(ReturnBlock(), lines); |s| >= 2 && s[|s| - 2] == RETURN && s[|s| - 1] == NEWLINE
  {
    var init, last := lines[..|lines| - 1], lines[|lines| - 1];
    ConcatSnoc(ReturnBlock(), init, last);
    assert lines == init + [last];
  }

  /**
   The bytes are not fixed by the digest: every non-empty log, with its records
   ended by a carriage return and a newline, is other bytes and reads as the
   same history, as long as it fits.
   */
  lemma {:induction false} CarriageReturnIsAccepted(c: Codec, events: seq<Event>, expected: Option<Component>)
    requires c.Canonical() && Linked(c, events, expected) && events != []
    requires |WrittenWithReturns(c, events)| <= MAX_AUDIT_BYTES
    ensures Parse(c, WrittenWithReturns(c, events), expected) == Ok(events)
    ensures WrittenWithReturns(c, events) != Written(c, events)
  {
    var lines := EncodeAll(c, events);
    var s := WrittenWithReturns(c, events);
    ReturnsReadBack(lines);
    EndsWithReturn(lines);
    LinesAreLong(c, events, lines);
    LinesAreShort(s, lines);
    AcceptsExactlyLinked(c, lines, events, expected);
    NoReturnInside(lines);
    assert !NoReturn(s);
  }

  // ----- the log object -----

  lemma {:induction false} ErrorStays(c: Codec, lines: seq<Bytes>, n: nat, expected: Option<Component>)
    requires n <= |lines| && CheckLines(c, lines[..n], expected).Err?
    ensures CheckLines(c, lines, expected) == CheckLines(c, lines[..n], expected)
    decreases |lines| - n
  {
    if n == |lines| {
      assert lines[..n] == lines;
    } else {
      assert lines[..n + 1][..n] == lines[..n];
      ErrorStays(c, lines, n + 1, expected);
    }
  }

  lemma {:induction false} ParseStep(c: Codec, lines: seq<Bytes>, i: nat, events: seq<Event>, expected: Option<Component>)
    requires i < |lines| && CheckLines(c, lines[..i], expected) == Ok(events)
    ensures var last := CheckLine(c, lines[i], events, expected);
            && (last.Ok? ==> CheckLines(c, lines[..i + 1], expected) == Ok(events + [last.value]))
            && (last.Err? ==> CheckLines(c, lines, expected) == Err(last.error))
  {
    assert lines[..i + 1][..i] == lines[..i];
    if CheckLine(c, lines[i], events, expected).Err? {
      ErrorStays(c, lines, i + 1, expected);
    }
  }

  method ParseOperationalPayload(c: Codec, payload: Bytes, expected: Option<Component>)
    returns (r: Result<seq<Event>, Error>)
    ensures r == Parse(c, payload, expected)
  {
    if |payload| > MAX_AUDIT_BYTES { return Err(SizeBound); }
    if payload != [] && payload[|payload| - 1] != NEWLINE { return Err(IncompleteRecord); }
    var lines := SplitLines(payload);
    if |lines| > MAX_AUDIT_EVENTS { return Err(EventBound); }
    var events: seq<Event> := [];
    var prior: Option<Digest> := None;
    for i := 0 to |lines|
      invariant CheckLines(c, lines[..i], expected) == Ok(events) && |events| == i && prior == Tip(c, events)
    {
      ParseStep(c, lines, i, events, expected);
      var e := c.decode(lines[i]);
      if e.None? { return Err(InvalidEvent); }
      if c.encode(e.value) != lines[i] { return Err(NotCanonical); }
      if e.value.sequence != i + 1 || e.value.prior != prior { return Err(ChainBroken); }
      if expected.Some? && e.value.component != expected.value { return Err(WrongComponent); }
      events := events + [e.value];
      prior := Some(c.sha(e.value));
    }
    assert lines[..|lines|] == lines;
    return Ok(events);
  }

  class OperationalEvidenceLog {
    const codec: Codec
    const component: Component
    var file: Bytes

    /** The log can be read. */
    ghost predicate Valid()
      reads this
    {
      codec.Canonical() && Parse(codec, file, Some(component)).Ok?
    }

    ghost function Events(): seq<Event>
      reads this
      requires Valid()
    {
      Parse(codec, file, Some(component)).value
    }

    /** Opening a log reads it; only a readable log can be opened. */
    constructor (codec: Codec, component: Component, existing: Bytes)
      requires codec.Canonical() && Parse(codec, existing, Some(component)).Ok?
      ensures Valid() && file == existing && this.codec == codec && this.component == component
    {
      this.codec, this.component, file := codec, component, existing;
    }

    /** Read the whole log, link one event to it and write its record, unless the log would grow too large. */
    method Append(fields: Event) returns (r: Result<Event, Error>)
      requires Valid()
      modifies this
      ensures Valid()
      ensures r.Ok? ==> Events() == old(Events()) + [r.value]
                        && r.value == NextEvent(codec, old(Events()), fields, component)
      ensures r.Err? ==> file == old(file)
      ensures var e := NextEvent(codec, old(Events()), fields, component);
              r.Ok? <==> e.Valid() && |old(file)| + |codec.encode(e)| + 1 <= MAX_AUDIT_BYTES
    {
      var parsed := ParseOperationalPayload(codec, file, Some(component));
      var events := parsed.value;
      var e := fields.(sequence := |events| + 1,
                       prior := if events == [] then None else Some(codec.sha(events[|events| - 1])),
                       component := component);
      if !e.Valid() { return Err(InvalidEvent); }
      var record := codec.encode(e) + [NEWLINE];
      if |file| + |record| > MAX_AUDIT_BYTES { return Err(SizeBound); }
      AppendParses(codec, file, fields, component);
      file := file + record;
      return Ok(e);
    }
  }
}
