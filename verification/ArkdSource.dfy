/** Reconnect backoff: the delay before each attempt, and its jitter. */
module Backoff {
  /** Durations in nanoseconds. */
  const RECONNECT_INITIAL_DELAY: nat := 1_000_000_000
  const RECONNECT_MAX_DELAY: nat := 10_000_000_000

  function NextDelay(delay: nat, max: nat): nat {
    if delay * 2 < max then delay * 2 else max
  }

  /** The delay waited before attempt k + 1, as the reconnect loop updates it. */
  function Delay(initial: nat, max: nat, k: nat): nat {
    if k == 0 then initial else NextDelay(Delay(initial, max, k - 1), max)
  }

  function Pow2(k: nat): nat { if k == 0 then 1 else 2 * Pow2(k - 1) }

  lemma DoubleProduct(a: nat, p: nat)
    ensures a * (2 * p) == 2 * (a * p)
  {
  }

  /** Doubling with a ceiling: min(initial * 2^k, max), never above max. */
  lemma {:induction false} DelayClosedForm(initial: nat, max: nat, k: nat)
    requires 0 < initial <= max
    ensures Delay(initial, max, k) == if initial * Pow2(k) < max then initial * Pow2(k) else max
    ensures Delay(initial, max, k) <= max
  {
    if k > 0 {
      DelayClosedForm(initial, max, k - 1);
      DoubleProduct(initial, Pow2(k - 1));
    }
  }

  lemma {:induction false} DelayNondecreasing(initial: nat, max: nat, j: nat, k: nat)
    requires 0 < initial <= max && j <= k
    ensures Delay(initial, max, j) <= Delay(initial, max, k)
    decreases k
  {
    if j < k {
      DelayNondecreasing(initial, max, j, k - 1);
      DelayClosedForm(initial, max, k - 1);
    }
  }

  /** random is drawn from [0, 1); the result is truncated to whole nanoseconds. */
  function Jittered(d: nat, random: real): int {
    var spread := d as real * 0.2;
    (d as real - spread + random * 2.0 * spread).Floor
  }

  lemma FractionOf(r: real, x: real)
    requires 0.0 <= r < 1.0 && 0.0 <= x
    ensures 0.0 <= r * x <= x
  {
  }

  lemma FloorWithin(d: nat, wait: real)
    requires d as real * 0.8 <= wait <= d as real * 1.2
    ensures 5 * wait.Floor <= 6 * d && 5 * (wait.Floor + 1) > 4 * d
  {
    var w := wait.Floor;
    assert w as real <= wait < w as real + 1.0;
    assert (5 * w) as real <= (6 * d) as real;
    assert (5 * (w + 1)) as real > (4 * d) as real;
  }

  /** The jittered wait stays within a fifth of the delay, on both sides. */
  lemma JitterBounds(d: nat, random: real)
    requires 0.0 <= random < 1.0
    ensures 5 * Jittered(d, random) <= 6 * d
    ensures 5 * (Jittered(d, random) + 1) > 4 * d
  {
    var spread := d as real * 0.2;
    FractionOf(random, 2.0 * spread);
    assert random * 2.0 * spread == random * (2.0 * spread);
    FloorWithin(d, d as real - spread + random * 2.0 * spread);
  }

  /** The jittered wait is the delay times a factor drawn from 0.8 up to 1.2, cut to whole nanoseconds. */
  lemma JitterIs(d: nat, random: real)
    requires 0.0 <= random < 1.0
    ensures Jittered(d, random) as real <= d as real * (0.8 + 0.4 * random) < Jittered(d, random) as real + 1.0
  {
    var spread := d as real * 0.2;
    assert random * 2.0 * spread == d as real * (0.4 * random);
    assert d as real - spread == d as real * 0.8;
    assert d as real * (0.8 + 0.4 * random) == d as real * 0.8 + d as real * (0.4 * random);
  }

  /** The shipped delays: one, two, four and eight seconds, then ten. */
  lemma ShippedDelays(k: nat)
    ensures Delay(RECONNECT_INITIAL_DELAY, RECONNECT_MAX_DELAY, k)
            == if k == 0 then 1_000_000_000 else if k == 1 then 2_000_000_000 else if k == 2 then 4_000_000_000
               else if k == 3 then 8_000_000_000 else 10_000_000_000
  {
    if k > 0 {
      ShippedDelays(k - 1);
    }
  }

  /** With the shipped constants no reconnect waits longer than 12 seconds. */
  lemma ShippedWaitBound(k: nat, random: real)
    requires 0.0 <= random < 1.0
    ensures Jittered(Delay(RECONNECT_INITIAL_DELAY, RECONNECT_MAX_DELAY, k), random) <= 12_000_000_000
  {
    DelayClosedForm(RECONNECT_INITIAL_DELAY, RECONNECT_MAX_DELAY, k);
    JitterBounds(Delay(RECONNECT_INITIAL_DELAY, RECONNECT_MAX_DELAY, k), random);
  }
}

/** The filtered subscription as a state machine over the events its goroutine meets. */
module SourceMachine {
  import opened Results
  import opened Bytes
  import opened Backoff

  datatype Code =
    | InvalidArgument | Unauthenticated | PermissionDenied | Unimplemented
    | Unknown | Canceled | Unavailable | OtherCode(n: nat)

  /** Errors without a gRPC status, io.EOF included, are Unknown. */
  predicate IsPermanent(c: Code) {
    c in {InvalidArgument, Unauthenticated, PermissionDenied, Unimplemented}
  }

  type StreamedPsbt = nat

  /** A streamed response: heartbeats and the like, a transaction that is no PSBT, or a packet. */
  datatype Message = NoTx | NotPsbt | PsbtTx(packet: StreamedPsbt)

  datatype Cause = CtxEnded | Rejected(code: Code)

  datatype Pc =
    | FirstOpen
    | Refused(code: Code)              // Subscribe returned the error: there is no channel
    | BackingOff(delay: nat, attempt: nat)
    | Reopening(delay: nat, attempt: nat)
    | Reading(id: nat)
    | Sending(id: nat, packet: StreamedPsbt)
    | Closed(cause: Cause)

  datatype Settings = Settings(initial: nat, max: nat)

  datatype State = State(
    pc: Pc,
    ctxDone: bool,
    children: nat,                     // child contexts created so far; each is known by its number
    live: set<nat>,                    // those no one has cancelled
    received: seq<seq<StreamedPsbt>>,        // per session, the packets decoded from its stream
    sent: seq<StreamedPsbt>,                 // everything put on the channel
    dropped: seq<StreamedPsbt>,
    closes: nat)

  const START := State(FirstOpen, false, 1, {0}, [], [], [], 0)

  datatype Event =
    | CtxEnds
    | WatchdogFires
    | OpenSucceeds
    | OpenFails(code: Code)
    | TimerFires
    | TimerSeesCtx
    | Receives(message: Message)
    | RecvFails(code: Code)
    | Sends
    | SendSeesCtx

  predicate Enabled(s: State, e: Event) {
    match e
    case CtxEnds => true
    case WatchdogFires => s.pc.Reading? || s.pc.Sending?
    case OpenSucceeds => s.pc.FirstOpen? || s.pc.Reopening?
    case OpenFails(_) => s.pc.FirstOpen? || s.pc.Reopening?
    case TimerFires => s.pc.BackingOff?
    case TimerSeesCtx => s.pc.BackingOff? && s.ctxDone
    case Receives(_) => s.pc.Reading?
    case RecvFails(_) => s.pc.Reading?
    case Sends => s.pc.Sending?
    case SendSeesCtx => s.pc.Sending? && s.ctxDone
  }

  function Close(s: State, cause: Cause): State {
    s.(pc := Closed(cause), closes := s.closes + 1)
  }

  function AppendLast(sessions: seq<seq<StreamedPsbt>>, p: StreamedPsbt): seq<seq<StreamedPsbt>> {
    if sessions == [] then [[p]]
    else sessions[..|sessions| - 1] + [sessions[|sessions| - 1] + [p]]
  }

  /** The child context opened last. */
  function Newest(s: State): nat { if s.children == 0 then 0 else s.children - 1 }

  function Step(st: Settings, s: State, e: Event): State
    requires Enabled(s, e)
  {
    match e
    case CtxEnds => s.(ctxDone := true)
    case WatchdogFires => s.(live := s.live - {s.pc.id})
    case OpenSucceeds => s.(pc := Reading(Newest(s)), received := s.received + [[]])
    case OpenFails(code) =>
      var failed := s.(live := s.live - {Newest(s)});
      if s.pc.FirstOpen? then
        if IsPermanent(code) then failed.(pc := Refused(code)) else failed.(pc := BackingOff(st.initial, 0))
      else if s.ctxDone then Close(failed, CtxEnded)
      else if IsPermanent(code) then Close(failed, Rejected(code))
      else failed.(pc := BackingOff(NextDelay(s.pc.delay, st.max), s.pc.attempt + 1))
    case TimerFires =>
      s.(pc := Reopening(s.pc.delay, s.pc.attempt), children := s.children + 1, live := s.live + {s.children})
    case TimerSeesCtx => Close(s, CtxEnded)
    case Receives(PsbtTx(p)) => s.(pc := Sending(s.pc.id, p), received := AppendLast(s.received, p))
    case Receives(_) => s
    case RecvFails(code) =>
      var ended := s.(live := s.live - {s.pc.id});
      if s.ctxDone then Close(ended, CtxEnded)
      else if IsPermanent(code) then Close(ended, Rejected(code))
      else ended.(pc := BackingOff(st.initial, 0))
    case Sends => s.(pc := Reading(s.pc.id), sent := s.sent + [s.pc.packet])
    case SendSeesCtx => Close(s.(live := s.live - {s.pc.id}, dropped := s.dropped + [s.pc.packet]), CtxEnded)
  }

  /** Where a sequence of events leads, if each is possible when it happens. */
  function Replay(st: Settings, events: seq<Event>): Option<State> {
    if events == [] then Some(START)
    else
      var s :- Replay(st, events[..|events| - 1]);
      var e := events[|events| - 1];
      if Enabled(s, e) then Some(Step(st, s, e)) else None
  }

  /** Where the first open leads. */
  lemma FirstOpenStepIs(st: Settings, s: State, e: Event)
    requires s.pc.FirstOpen? && Enabled(s, e) && (e.OpenSucceeds? || e.OpenFails?)
    ensures var s' := Step(st, s, e);
            && s'.ctxDone == s.ctxDone && s'.children == s.children && s'.sent == s.sent
            && s'.live == (if e.OpenSucceeds? then s.live else s.live - {Newest(s)})
            && s'.pc == if e.OpenSucceeds? then Reading(Newest(s))
                        else if IsPermanent(e.code) then Refused(e.code) else BackingOff(st.initial, 0)
  {
  }

  /** Where an attempt to reopen leads. */
  lemma ReopenStep(st: Settings, s: State, e: Event)
    requires s.pc.Reopening? && Enabled(s, e) && (e.OpenSucceeds? || e.OpenFails?)
    ensures var s' := Step(st, s, e);
            && s'.ctxDone == s.ctxDone && s'.children == s.children && s'.sent == s.sent
            && s'.live == (if e.OpenSucceeds? then s.live else s.live - {Newest(s)})
            && s'.pc == if e.OpenSucceeds? then Reading(Newest(s))
                        else if s.ctxDone then Closed(CtxEnded)
                        else if IsPermanent(e.code) then Closed(Rejected(e.code))
                        else BackingOff(NextDelay(s.pc.delay, st.max), s.pc.attempt + 1)
  {
  }

  // ----------------------------------------------------------- invariants

  function Flatten(sessions: seq<seq<StreamedPsbt>>): seq<StreamedPsbt> {
    if sessions == [] then [] else Flatten(sessions[..|sessions| - 1]) + sessions[|sessions| - 1]
  }

  function Pending(s: State): seq<StreamedPsbt> {
    if s.pc.Sending? then [s.pc.packet] else s.dropped
  }

  ghost predicate DeliveryOk(s: State) {
    && Flatten(s.received) == s.sent + Pending(s)
    && |s.dropped| <= 1
    && (s.dropped != [] ==> s.pc == Closed(CtxEnded) && s.ctxDone)
    && (s.pc.Reading? || s.pc.Sending? ==> s.received != [])
  }

  ghost predicate LifetimeOk(s: State) {
    && s.children > 0
    && (s.pc.Reading? || s.pc.Sending? ==> s.pc.id == s.children - 1)
    && s.closes == (if s.pc.Closed? then 1 else 0)
    && (s.pc.Closed? ==> if s.pc.cause.CtxEnded? then s.ctxDone else IsPermanent(s.pc.cause.code))
    && (s.pc.Refused? ==> IsPermanent(s.pc.code))
    && s.live <= match s.pc
                 case FirstOpen => {Newest(s)}
                 case Reopening(_, _) => {Newest(s)}
                 case Reading(id) => {id}
                 case Sending(id, _) => {id}
                 case _ => {}
  }

  ghost predicate BackoffOk(st: Settings, s: State) {
    && (s.pc.BackingOff? ==> s.pc.delay == Delay(st.initial, st.max, s.pc.attempt))
    && (s.pc.Reopening? ==> s.pc.delay == Delay(st.initial, st.max, s.pc.attempt))
  }

  lemma FlattenAppendLast(sessions: seq<seq<StreamedPsbt>>, p: StreamedPsbt)
    ensures Flatten(AppendLast(sessions, p)) == Flatten(sessions) + [p]
  {
    var more := AppendLast(sessions, p);
    if sessions == [] {
      assert more[..0] == [];
      assert Flatten(more[..0]) == [];
    } else {
      assert more[..|more| - 1] == sessions[..|sessions| - 1];
    }
  }

  lemma FlattenEmptySession(sessions: seq<seq<StreamedPsbt>>)
    ensures Flatten(sessions + [[]]) == Flatten(sessions)
  {
    assert (sessions + [[]])[..|sessions|] == sessions;
  }

  lemma OpenKeepsDelivery(st: Settings, s: State)
    requires DeliveryOk(s) && Enabled(s, OpenSucceeds)
    ensures DeliveryOk(Step(st, s, OpenSucceeds))
  {
    FlattenEmptySession(s.received);
  }

  lemma ReceiveKeepsDelivery(st: Settings, s: State, p: StreamedPsbt)
    requires DeliveryOk(s) && s.pc.Reading?
    ensures DeliveryOk(Step(st, s, Receives(PsbtTx(p))))
  {
    FlattenAppendLast(s.received, p);
    assert s.sent + s.dropped == s.sent;
  }

  lemma SendKeepsDelivery(st: Settings, s: State, e: Event)
    requires DeliveryOk(s) && Enabled(s, e) && (e.Sends? || e.SendSeesCtx?)
    ensures DeliveryOk(Step(st, s, e))
  {
    assert s.sent + [s.pc.packet] + [] == s.sent + [s.pc.packet];
    assert [] + [s.pc.packet] == [s.pc.packet];
  }

  predicate Delivers(e: Event) {
    e.OpenSucceeds? || (e.Receives? && e.message.PsbtTx?) || e.Sends? || e.SendSeesCtx?
  }

  /** The other events move no packet and neither start nor end a send. */
  lemma QuietStep(st: Settings, s: State, e: Event)
    requires Enabled(s, e) && !Delivers(e)
    ensures var s' := Step(st, s, e);
            && s'.received == s.received && s'.sent == s.sent && s'.dropped == s.dropped
            && (s'.pc.Sending? || s.pc.Sending? ==> s'.pc == s.pc)
            && (s'.pc.Reading? ==> s.pc.Reading?)
            && (s.pc.Closed? ==> s'.pc == s.pc) && (s.ctxDone ==> s'.ctxDone)
  {
  }

  lemma QuietKeepsDelivery(st: Settings, s: State, e: Event)
    requires DeliveryOk(s) && Enabled(s, e) && !Delivers(e)
    ensures DeliveryOk(Step(st, s, e))
  {
    QuietStep(st, s, e);
  }

  lemma DeliveryKept(st: Settings, s: State, e: Event)
    requires DeliveryOk(s) && Enabled(s, e)
    ensures DeliveryOk(Step(st, s, e))
  {
    if e.OpenSucceeds? {
      OpenKeepsDelivery(st, s);
    } else if e.Receives? && e.message.PsbtTx? {
      ReceiveKeepsDelivery(st, s, e.message.packet);
    } else if e.Sends? || e.SendSeesCtx? {
      SendKeepsDelivery(st, s, e);
    } else {
      QuietKeepsDelivery(st, s, e);
    }
  }

  lemma LifetimeKept(st: Settings, s: State, e: Event)
    requires LifetimeOk(s) && Enabled(s, e)
    ensures LifetimeOk(Step(st, s, e))
  {
  }

  lemma BackoffKept(st: Settings, s: State, e: Event)
    requires BackoffOk(st, s) && Enabled(s, e)
    ensures BackoffOk(st, Step(st, s, e))
  {
  }

  ghost predicate Inv(st: Settings, s: State) {
    DeliveryOk(s) && LifetimeOk(s) && BackoffOk(st, s)
  }

  lemma {:induction false} Invariant(st: Settings, events: seq<Event>)
    requires Replay(st, events).Some?
    ensures Inv(st, Replay(st, events).value)
  {
    if events != [] {
      var front, e := events[..|events| - 1], events[|events| - 1];
      Invariant(st, front);
      DeliveryKept(st, Replay(st, front).value, e);
      LifetimeKept(st, Replay(st, front).value, e);
      BackoffKept(st, Replay(st, front).value, e);
    }
  }

  // --------------------------------------------------------- main results

  function Carried(e: Event): seq<StreamedPsbt> {
    match e
    case Receives(PsbtTx(p)) => [p]
    case _ => []
  }

  /** The decodable packets among the responses, over all sessions. */
  function PacketsOf(events: seq<Event>): seq<StreamedPsbt> {
    if events == [] then []
    else PacketsOf(events[..|events| - 1]) + Carried(events[|events| - 1])
  }

  lemma SessionsReceiveStep(st: Settings, s: State, e: Event)
    requires Enabled(s, e)
    ensures Flatten(Step(st, s, e).received) == Flatten(s.received) + Carried(e)
  {
    if e.OpenSucceeds? {
      FlattenEmptySession(s.received);
    } else if e.Receives? && e.message.PsbtTx? {
      FlattenAppendLast(s.received, e.message.packet);
    }
  }

  lemma {:induction false} SessionsReceiveEvents(st: Settings, events: seq<Event>)
    requires Replay(st, events).Some?
    ensures Flatten(Replay(st, events).value.received) == PacketsOf(events)
  {
    if events != [] {
      var front := events[..|events| - 1];
      SessionsReceiveEvents(st, front);
      SessionsReceiveStep(st, Replay(st, front).value, events[|events| - 1]);
    }
  }

  /**
    Delivery: what was sent is, in order and once each, the decodable packets received
    over all sessions, but for one still being sent, or one given up when the context ended.
  */
  lemma DeliversInOrder(st: Settings, events: seq<Event>)
    requires Replay(st, events).Some?
    ensures var s := Replay(st, events).value;
            && s.sent <= PacketsOf(events)
            && |PacketsOf(events)| - |s.sent| <= 1
            && (|PacketsOf(events)| > |s.sent| ==> s.pc.Sending? || (s.pc == Closed(CtxEnded) && s.ctxDone))
  {
    Invariant(st, events);
    SessionsReceiveEvents(st, events);
  }

  /** Lifetime: the channel is closed at most once, and only for an ended context or a permanent code. */
  lemma ClosesOnlyForCause(st: Settings, events: seq<Event>)
    requires Replay(st, events).Some?
    ensures var s := Replay(st, events).value;
            && s.closes <= 1 && (s.closes == 1 <==> s.pc.Closed?)
            && (s.pc.Closed? ==>
                 s.ctxDone || exists e <- events :: FailureCode(e).Some? && IsPermanent(FailureCode(e).value))
  {
    Invariant(st, events);
    RejectionWasSeen(st, events);
  }

  function FailureCode(e: Event): Option<Code> {
    match e
    case OpenFails(c) => Some(c)
    case RecvFails(c) => Some(c)
    case _ => None
  }

  lemma {:induction false} RejectionWasSeen(st: Settings, events: seq<Event>)
    requires Replay(st, events).Some?
    ensures var s := Replay(st, events).value;
            s.pc.Closed? && s.pc.cause.Rejected? ==>
              exists e <- events :: FailureCode(e) == Some(s.pc.cause.code) && IsPermanent(s.pc.cause.code)
  {
    if events != [] {
      var front, e := events[..|events| - 1], events[|events| - 1];
      RejectionWasSeen(st, front);
      assert events == front + [e];
      assert e in events;
      assert forall x :: x in front ==> x in events;
    }
  }

  lemma RefusalStep(st: Settings, s: State, e: Event)
    requires Enabled(s, e) && (s.pc.FirstOpen? || s.pc.Refused? ==> s.received == [])
    ensures var s' := Step(st, s, e);
            && (s'.pc.FirstOpen? || s'.pc.Refused? ==> s'.received == [])
            && (s'.pc.Refused? ==> s.pc == s'.pc || (IsPermanent(s'.pc.code) && e == OpenFails(s'.pc.code)))
  {
  }

  /** Subscribe refuses only for a permanent code of its first open, before any session. */
  lemma {:induction false} RefusedForFirstError(st: Settings, events: seq<Event>)
    requires Replay(st, events).Some?
    ensures var s := Replay(st, events).value;
            && (s.pc.FirstOpen? || s.pc.Refused? ==> s.received == [])
            && (s.pc.Refused? ==> IsPermanent(s.pc.code) && OpenFails(s.pc.code) in events)
  {
    if events != [] {
      var front, e := events[..|events| - 1], events[|events| - 1];
      RefusedForFirstError(st, front);
      RefusalStep(st, Replay(st, front).value, e);
      assert events == front + [e];
      assert e in events;
    }
  }

  /** An open channel closes at a step exactly when that step ends for the context or sees a permanent code. */
  lemma StepClosesIff(st: Settings, s: State, e: Event)
    requires Enabled(s, e) && !s.pc.Closed?
    ensures Step(st, s, e).pc.Closed?
            <==> e.TimerSeesCtx? || e.SendSeesCtx?
                 || (FailureCode(e).Some? && !s.pc.FirstOpen? && (s.ctxDone || IsPermanent(FailureCode(e).value)))
  {
  }

  /** Nothing is sent on a closed channel, and it never reopens. */
  lemma {:induction false} ClosedForGood(st: Settings, events: seq<Event>, more: seq<Event>)
    requires Replay(st, events).Some? && Replay(st, events).value.pc.Closed?
    requires Replay(st, events + more).Some?
    ensures Replay(st, events + more).value.(ctxDone := true) == Replay(st, events).value.(ctxDone := true)
  {
    if more == [] {
      assert events + more == events;
    } else {
      var front, e := more[..|more| - 1], more[|more| - 1];
      assert (events + more)[..|events + more| - 1] == events + front;
      ClosedForGood(st, events, front);
    }
  }

  /** At most one child context is uncancelled, and none once the subscription is over or between attempts. */
  lemma OneLiveContext(st: Settings, events: seq<Event>)
    requires Replay(st, events).Some?
    ensures var s := Replay(st, events).value;
            && |s.live| <= 1
            && (s.pc.Closed? || s.pc.Refused? || s.pc.BackingOff? ==> s.live == {})
  {
    Invariant(st, events);
    var s := Replay(st, events).value;
    if s.live != {} {
      var x :| x in s.live;
      assert s.live == {x};
    }
  }

  /** Has the first open been answered? */
  predicate FirstAnswered(events: seq<Event>) {
    exists e <- events :: e.OpenSucceeds? || e.OpenFails?
  }

  /** How many attempts to reopen have failed since the last stream was up, the first open not counted. */
  function Retries(events: seq<Event>): nat {
    if events == [] then 0
    else
      var front, e := events[..|events| - 1], events[|events| - 1];
      if e.OpenSucceeds? then 0
      else if e.OpenFails? then if FirstAnswered(front) then Retries(front) + 1 else 0
      else Retries(front)
  }

  lemma AnsweredStep(front: seq<Event>, e: Event)
    ensures FirstAnswered(front + [e]) <==> FirstAnswered(front) || e.OpenSucceeds? || e.OpenFails?
  {
    assert forall x :: x in front + [e] <==> x in front || x == e;
  }

  lemma AttemptStep(st: Settings, s: State, e: Event)
    requires Enabled(s, e)
    ensures var s' := Step(st, s, e);
            && (s'.pc.FirstOpen? <==> s.pc.FirstOpen? && !e.OpenSucceeds? && !e.OpenFails?)
            && (s'.pc.BackingOff? ==>
                  s'.pc.attempt == if s.pc.BackingOff? then s.pc.attempt else if s.pc.Reopening?
                      then s.pc.attempt + 1 else 0)
            && (s'.pc.Reopening? ==> (s.pc.BackingOff? || s.pc.Reopening?) && s'.pc.attempt == s.pc.attempt)
            && (s'.pc.BackingOff? && s.pc.Reopening? ==> e.OpenFails?)
            && (s'.pc.BackingOff? && s.pc.BackingOff? ==> !e.OpenFails? && !e.OpenSucceeds?)
            && (s'.pc.Reopening? ==> !e.OpenFails? && !e.OpenSucceeds?)
            && (s'.pc.Reading? || s'.pc.Sending? ==> s.pc.Reading? || s.pc.Sending? || e.OpenSucceeds?)
            && (s.pc.Reading? || s.pc.Sending? ==> !e.OpenFails? && !e.OpenSucceeds?)
  {
  }

  lemma {:induction false} AttemptsCounted(st: Settings, events: seq<Event>)
    requires Replay(st, events).Some?
    ensures var pc := Replay(st, events).value.pc;
            && (pc.FirstOpen? <==> !FirstAnswered(events))
            && (pc.BackingOff? ==> pc.attempt == Retries(events))
            && (pc.Reopening? ==> pc.attempt == Retries(events))
            && (pc.Reading? || pc.Sending? ==> Retries(events) == 0)
  {
    if events != [] {
      var front, e := events[..|events| - 1], events[|events| - 1];
      AttemptsCounted(st, front);
      AttemptStep(st, Replay(st, front).value, e);
      AnsweredStep(front, e);
      assert events == front + [e];
    }
  }

  /**
    The wait in any run: the initial delay doubled once for every attempt that has failed since
    the last stream was up, or the maximum.
  */
  lemma WaitsFollowBackoff(st: Settings, events: seq<Event>)
    requires 0 < st.initial <= st.max
    requires Replay(st, events).Some? && Replay(st, events).value.pc.BackingOff?
    ensures var doubled := st.initial * Pow2(Retries(events));
            Replay(st, events).value.pc.delay == if doubled < st.max then doubled else st.max
  {
    Invariant(st, events);
    AttemptsCounted(st, events);
    DelayClosedForm(st.initial, st.max, Retries(events));
  }

  /** The watchdog leaves no context uncancelled, and moves nothing else: the failure it causes comes by itself. */
  lemma WatchdogCancels(st: Settings, events: seq<Event>)
    requires Replay(st, events).Some? && Enabled(Replay(st, events).value, WatchdogFires)
    ensures var s := Replay(st, events).value;
            Step(st, s, WatchdogFires) == s.(live := {})
  {
    Invariant(st, events);
  }

  // ------------------------------------------------------ which codes end it

  /** How a failure is sorted while the context is alive, code by code. */
  lemma FailuresSorted(st: Settings, s: State, c: Code)
    requires !s.ctxDone
    ensures var final := c == InvalidArgument || c == Unauthenticated || c == PermissionDenied || c == Unimplemented;
            && (s.pc.Reading? ==>
                  Step(st, s, RecvFails(c)).pc == if final then Closed(Rejected(c)) else BackingOff(st.initial, 0))
            && (s.pc.Reopening? ==>
                  Step(st, s, OpenFails(c)).pc
                  == if final then Closed(Rejected(c))
                     else BackingOff(if 2 * s.pc.delay < st.max then 2 * s.pc.delay else st.max, s.pc.attempt + 1))
            && (s.pc.FirstOpen? ==>
                  Step(st, s, OpenFails(c)).pc == if final then Refused(c) else BackingOff(st.initial, 0))
            && (c.Unknown? || c.Canceled? || c.Unavailable? || c.OtherCode? ==> !final)
  {
  }

  /** Once the context has ended any failure of a stream, or of an attempt to reopen one, closes the channel. */
  lemma FailuresAfterEnd(st: Settings, s: State, c: Code)
    requires s.ctxDone
    ensures s.pc.Reading? ==> Step(st, s, RecvFails(c)).pc == Closed(CtxEnded)
    ensures s.pc.Reopening? ==> Step(st, s, OpenFails(c)).pc == Closed(CtxEnded)
  {
  }

  /** A channel closed while the context is alive has one of the four codes among its events. */
  lemma ClosedAliveForCode(st: Settings, events: seq<Event>)
    requires Replay(st, events).Some? && Replay(st, events).value.pc.Closed? && !Replay(st, events).value.ctxDone
    ensures exists e <- events ::
              FailureCode(e)
                  in {Some(InvalidArgument), Some(Unauthenticated), Some(PermissionDenied), Some(Unimplemented)}
  {
    Invariant(st, events);
    RejectionWasSeen(st, events);
    var cause := Replay(st, events).value.pc.cause;
    var e :| e in events && FailureCode(e) == Some(cause.code) && IsPermanent(cause.code);
  }

  // ------------------------------------------------------ it keeps delivering

  lemma ReplayMore(st: Settings, events: seq<Event>, e: Event)
    requires Replay(st, events).Some? && Enabled(Replay(st, events).value, e)
    ensures Replay(st, events + [e]) == Some(Step(st, Replay(st, events).value, e))
  {
    assert (events + [e])[..|events|] == events;
  }

  /** From wherever it is backing off, the next timer and a successful open put it back to reading. */
  lemma ReconnectsAlways(st: Settings, events: seq<Event>)
    requires Replay(st, events).Some? && Replay(st, events).value.pc.BackingOff?
    ensures var s := Replay(st, events).value;
            var again := Replay(st, events + [TimerFires] + [OpenSucceeds]);
            && again.Some? && again.value.pc == Reading(s.children)
            && again.value.live == s.live + {s.children} && again.value.sent == s.sent
  {
    ReplayMore(st, events, TimerFires);
    ReplayMore(st, events + [TimerFires], OpenSucceeds);
  }

  function PsbtsOf(messages: seq<Message>): seq<StreamedPsbt> {
    if messages == [] then []
    else (if messages[0].PsbtTx? then [messages[0].packet] else []) + PsbtsOf(messages[1..])
  }

  lemma OneMessage(st: Settings, events: seq<Event>, message: Message) returns (more: seq<Event>)
    requires Replay(st, events).Some? && Replay(st, events).value.pc.Reading?
    ensures events <= more && Replay(st, more).Some?
    ensures Replay(st, more).value.pc == Replay(st, events).value.pc
    ensures Replay(st, more).value.sent
            == Replay(st, events).value.sent + if message.PsbtTx? then [message.packet] else []
  {
    ReplayMore(st, events, Receives(message));
    more := events + [Receives(message)];
    if message.PsbtTx? {
      ReplayMore(st, more, Sends);
      more := more + [Sends];
    }
  }

  /** While it is reading, any messages that come can all be taken, and their packets sent, one after the other. */
  lemma {:induction false} AnythingCanBeDelivered(st: Settings, events: seq<Event>, messages: seq<Message>)
    returns (more: seq<Event>)
    requires Replay(st, events).Some? && Replay(st, events).value.pc.Reading?
    ensures events <= more && Replay(st, more).Some?
    ensures Replay(st, more).value.pc == Replay(st, events).value.pc
    ensures Replay(st, more).value.sent == Replay(st, events).value.sent + PsbtsOf(messages)
    decreases |messages|
  {
    more := events;
    if messages != [] {
      var one := OneMessage(st, events, messages[0]);
      more := AnythingCanBeDelivered(st, one, messages[1..]);
      ConcatAssociates(
        Replay(st, events).value.sent, if messages[0].PsbtTx? then [messages[0].packet] else [],
            PsbtsOf(messages[1..]));
    }
  }
}

/** The subscription in its own form, run against any script of the environment's replies. */
module FilteredSource {
  import opened Results
  import opened Backoff
  import opened SourceMachine

  /** How readStream ends: nil, an error to sort, or still blocked when the script runs out. */
  datatype ReadEnd = Nil | Failed(code: Code) | StillReading

  datatype OpenEnd = Up | OpenFailed(code: Code) | StillOpening

  datatype ReopenEnd = Stream(id: nat) | Gone | Refusal(code: Code) | StillReopening

  class Subscription {
    const st: Settings
    const script: seq<Event>
    var pos: nat
    var ctxDone: bool
    var children: nat
    var live: set<nat>
    var sent: seq<StreamedPsbt>
    var closed: bool

    constructor (st: Settings, script: seq<Event>)
      requires forall n :: 0 <= n <= |script| ==> Replay(st, script[..n]).Some?
      ensures Valid() && pos == 0 && !closed && M() == START
      ensures this.st == st && this.script == script
    {
      this.st, this.script := st, script;
      pos, ctxDone, children, live, sent, closed := 0, false, 1, {0}, [], false;
      new;
      assert script[..0] == [];
    }

    ghost predicate Playable() {
      forall n :: 0 <= n <= |script| ==> Replay(st, script[..n]).Some?
    }

    /** The machine state the consumed part of the script leads to. */
    ghost function M(): State
      reads this
      requires Playable() && pos <= |script|
    {
      Replay(st, script[..pos]).value
    }

    ghost predicate Valid()
      reads this
    {
      && Playable() && pos <= |script|
      && M().ctxDone == ctxDone && M().children == children && M().live == live && M().sent == sent
      && children > 0
    }

    lemma NextStep()
      requires Playable() && pos < |script|
      ensures Enabled(M(), script[pos])
      ensures Replay(st, script[..pos + 1]) == Some(Step(st, M(), script[pos]))
    {
      assert script[..pos + 1][..pos] == script[..pos];
      assert Replay(st, script[..pos + 1]).Some?;
    }

    lemma NewestIsRead()
      requires Valid() && (M().pc.Reading? || M().pc.Sending?)
      ensures M().pc.id == children - 1
    {
      Invariant(st, script[..pos]);
    }

    lemma InterruptEffect(s: State, e: Event)
      requires Enabled(s, e) && (e.CtxEnds? || e.WatchdogFires?)
      ensures Step(st, s, e) == if e.CtxEnds? then s.(ctxDone := true) else s.(live := s.live - {s.pc.id})
    {
    }

    /** The state after an answered open. */
    lemma OpenAnswered()
      requires Valid() && pos < |script| && (script[pos].OpenSucceeds? || script[pos].OpenFails?)
      requires M().pc.FirstOpen? || M().pc.Reopening?
      ensures Replay(st, script[..pos + 1]).Some?
      ensures var s, e, answered := M(), script[pos], Replay(st, script[..pos + 1]).value;
              && answered.ctxDone == ctxDone && answered.children == children && answered.sent == sent
              && answered.live == (if e.OpenSucceeds? then live else live - {children - 1})
              && answered.pc == if e.OpenSucceeds? then Reading(children - 1)
                              else if s.pc.FirstOpen?
                              then if IsPermanent(e.code) then Refused(e.code) else BackingOff(st.initial, 0)
                              else if ctxDone then Closed(CtxEnded)
                              else if IsPermanent(e.code) then Closed(Rejected(e.code))
                              else BackingOff(NextDelay(s.pc.delay, st.max), s.pc.attempt + 1)
    {
      NextStep();
      if M().pc.FirstOpen? {
        FirstOpenStepIs(st, M(), script[pos]);
      } else {
        ReopenStep(st, M(), script[pos]);
      }
    }

    /** One event the goroutine does not wait for: the context ends, or the watchdog cancels its stream. */
    method Interrupt()
      requires Valid() && pos < |script| && (script[pos].CtxEnds? || script[pos].WatchdogFires?)
      modifies `pos, `ctxDone, `live
      ensures Valid() && pos == old(pos) + 1
      ensures M() == old(M()).(ctxDone := ctxDone, live := live)
    {
      NextStep();
      InterruptEffect(M(), script[pos]);
      if script[pos].CtxEnds? {
        ctxDone := true;
      } else {
        NewestIsRead();
        live := live - {children - 1};
      }
      pos := pos + 1;
    }

    /** Waits for the goroutine's own next event; None when the script has no more. */
    method Await() returns (e: Option<Event>)
      requires Valid()
      modifies `pos, `ctxDone, `live
      ensures Valid() && old(pos) <= pos
      ensures M() == old(M()).(ctxDone := ctxDone, live := live)
      ensures e.None? ==> pos == |script|
      ensures e.Some? ==> pos < |script| && e.value == script[pos] && Enabled(M(), e.value)
                          && !e.value.CtxEnds? && !e.value.WatchdogFires?
    {
      while pos < |script| && (script[pos].CtxEnds? || script[pos].WatchdogFires?)
        invariant Valid() && old(pos) <= pos
        invariant M() == old(M()).(ctxDone := ctxDone, live := live)
        decreases |script| - pos
      {
        Interrupt();
      }
      if pos == |script| {
        return None;
      }
      NextStep();
      return Some(script[pos]);
    }

    /** Sends unless the context ends first. */
    method Send(pkt: StreamedPsbt) returns (r: Option<bool>)
      requires Valid() && M().pc == Sending(children - 1, pkt) && !closed
      modifies `pos, `ctxDone, `live, `sent
      ensures Valid() && old(pos) <= pos && children == old(children)
      ensures r.None? ==> pos == |script| && M().pc == old(M().pc) && sent == old(sent)
      ensures r == Some(true) ==> old(pos) < pos && M().pc == Reading(children - 1) && sent == old(sent) + [pkt]
      ensures r == Some(false) ==> old(pos) < pos && M().pc == Closed(CtxEnded) && sent == old(sent)
    {
      var e := Await();
      if e.None? {
        return None;
      }
      NextStep();
      pos := pos + 1;
      if e.value.Sends? {
        sent := sent + [pkt];
        return Some(true);
      }
      live := live - {children - 1};
      return Some(false);
    }

    /** One response: a decodable packet is sent, anything else skipped. */
    method TakeMessage(message: Message) returns (going: Option<bool>)
      requires Valid() && M().pc == Reading(children - 1) && !closed
      requires pos < |script| && script[pos] == Receives(message)
      modifies `pos, `ctxDone, `live, `sent
      ensures Valid() && old(pos) < pos && children == old(children)
      ensures going.None? ==> pos == |script| && !M().pc.Closed?
      ensures going.Some? ==> M().pc == if going.value then Reading(children - 1) else Closed(CtxEnded)
      ensures going == Some(true) ==> sent == old(sent) + if message.PsbtTx? then [message.packet] else []
      ensures going != Some(true) ==> sent == old(sent)
    {
      NextStep();
      pos := pos + 1;
      if message.PsbtTx? {
        going := Send(message.packet);
      } else {
        going := Some(true);
      }
    }

    /** Forwards packets until the stream fails; the session's context is cancelled on every way out. */
    method ReadStream() returns (r: ReadEnd)
      requires Valid() && M().pc == Reading(children - 1) && !closed
      modifies `pos, `ctxDone, `live, `sent
      ensures Valid() && children == old(children) && (r.StillReading? || old(pos) < pos)
      ensures r.Nil? ==> M().pc == Closed(CtxEnded)
      ensures r.Failed? ==>
          M().pc == if IsPermanent(r.code) then Closed(Rejected(r.code)) else BackingOff(st.initial, 0)
      ensures r.StillReading? ==> pos == |script| && !M().pc.Closed?
    {
      while true
        invariant Valid() && M().pc == Reading(children - 1) && children == old(children) && old(pos) <= pos
        decreases |script| - pos
      {
        var e := Await();
        if e.None? {
          return StillReading;
        }
        match e.value
        case RecvFails(code) =>
          NextStep();
          pos := pos + 1;
          live := live - {children - 1};
          if ctxDone {
            return Nil;
          }
          return Failed(code);
        case Receives(message) =>
          var going := TakeMessage(message);
          if going.None? {
            return StillReading;
          }
          if !going.value {
            return Nil;
          }
      }
    }

    /** The select between the context and the timer; a new child context once the timer fires. */
    method WaitToReopen(delay: nat, ghost attempt: nat) returns (fired: Option<bool>)
      requires Valid() && M().pc == BackingOff(delay, attempt)
      modifies `pos, `ctxDone, `live, `children
      ensures Valid() && old(pos) <= pos
      ensures fired.None? ==> pos == |script| && M().pc == old(M().pc)
      ensures fired == Some(true) ==> old(pos) < pos && M().pc == Reopening(delay, attempt)
      ensures fired == Some(false) ==> old(pos) < pos && M().pc == Closed(CtxEnded)
    {
      var waited := Await();
      if waited.None? {
        return None;
      }
      NextStep();
      pos := pos + 1;
      if waited.value.TimerSeesCtx? {
        return Some(false);
      }
      children, live := children + 1, live + {children};
      return Some(true);
    }

    /** One attempt in the reconnect loop; a failed one cancels the child context it opened. */
    method OpenSubscription(delay: nat, ghost attempt: nat) returns (r: OpenEnd)
      requires Valid() && M().pc == Reopening(delay, attempt)
      modifies `pos, `ctxDone, `live
      ensures Valid() && old(pos) <= pos && children == old(children)
      ensures r.StillOpening? ==> pos == |script| && M().pc == old(M().pc)
      ensures r.Up? ==> old(pos) < pos && M().pc == Reading(children - 1)
      ensures r.OpenFailed? ==> old(pos) < pos && M().pc == if ctxDone then Closed(CtxEnded)
                                                      else if IsPermanent(r.code) then Closed(Rejected(r.code))
                                                      else BackingOff(NextDelay(delay, st.max), attempt + 1)
    {
      var e := Await();
      if e.None? {
        return StillOpening;
      }
      OpenAnswered();
      pos := pos + 1;
      if e.value.OpenSucceeds? {
        return Up;
      }
      live := live - {children - 1};
      return OpenFailed(e.value.code);
    }

    /** Backs off and reopens until a stream is up, the context ends, or the server refuses for good. */
    method ReopenSubscription() returns (r: ReopenEnd)
      requires Valid() && M().pc == BackingOff(st.initial, 0) && !closed
      modifies `pos, `ctxDone, `live, `children
      ensures Valid() && (r.StillReopening? || old(pos) < pos)
      ensures r.Stream? ==> M().pc == Reading(children - 1) && r.id == children - 1
      ensures r.Gone? ==> M().pc == Closed(CtxEnded)
      ensures r.Refusal? ==> M().pc == Closed(Rejected(r.code)) && IsPermanent(r.code)
      ensures r.StillReopening? ==> pos == |script| && !M().pc.Closed?
    {
      var delay := st.initial;
      ghost var attempt := 0;
      while true
        invariant Valid() && M().pc == BackingOff(delay, attempt) && old(pos) <= pos
        decreases |script| - pos
      {
        var fired := WaitToReopen(delay, attempt);
        if fired.None? {
          return StillReopening;
        }
        if !fired.value {
          return Gone;
        }
        var attempted := OpenSubscription(delay, attempt);
        match attempted
        case StillOpening =>
          return StillReopening;
        case Up =>
          return Stream(children - 1);
        case OpenFailed(code) =>
          if ctxDone {
            return Gone;
          }
          if IsPermanent(code) {
            return Refusal(code);
          }
          delay, attempt := NextDelay(delay, st.max), attempt + 1;
      }
    }

    lemma Delivered()
      requires Valid()
      ensures sent <= PacketsOf(script[..pos]) && |PacketsOf(script[..pos])| - |sent| <= 1
      ensures |live| <= 1 && (M().pc.Closed? || M().pc.Refused? ==> live == {})
    {
      DeliversInOrder(st, script[..pos]);
      OneLiveContext(st, script[..pos]);
    }

    /** The first open, before any other of the goroutine's steps. */
    method FirstOpenStep() returns (first: Option<Event>)
      requires Valid() && pos == 0 && M() == START
      modifies `pos, `ctxDone, `live
      ensures Valid() && (first.None? ==> pos == |script| && M().pc.FirstOpen?)
      ensures first.Some? ==> first.value.OpenSucceeds? || first.value.OpenFails?
      ensures first.Some? ==>
                M().pc == if first.value.OpenSucceeds? then Reading(children - 1)
                          else if IsPermanent(first.value.code) then Refused(first.value.code)
                          else BackingOff(st.initial, 0)
    {
      first := Await();
      if first.None? {
        return;
      }
      OpenAnswered();
      pos := pos + 1;
      if first.value.OpenFails? {
        live := live - {children - 1};
      }
    }

    /** The first open, in the caller; then the goroutine. False when Subscribe itself fails. */
    method SubscribeFiltered() returns (subscribed: bool)
      requires Valid() && pos == 0 && M() == START && !closed
      modifies this
      ensures Valid() && (closed <==> M().pc.Closed?)
      ensures subscribed && !closed ==> pos == |script|
      ensures !subscribed ==> M().pc.Refused? && IsPermanent(M().pc.code) && OpenFails(M().pc.code) in script[..pos]
      ensures !subscribed ==> M().received == [] && sent == []
      ensures sent <= PacketsOf(script[..pos]) && |PacketsOf(script[..pos])| - |sent| <= 1
      ensures |live| <= 1 && (closed || !subscribed ==> live == {})
    {
      var first := FirstOpenStep();
      if first.None? {
        Delivered();
        return true;
      }
      var streaming := first.value.OpenSucceeds?;
      if !streaming && IsPermanent(first.value.code) {
        Delivered();
        RefusedForFirstError(st, script[..pos]);
        return false;
      }
      Forward(streaming);
      Delivered();
      return true;
    }

    /** The goroutine: read, sort the error, reopen; closes the channel on the way out. */
    method Forward(streaming: bool)
      requires Valid() && !closed
      requires M().pc == if streaming then Reading(children - 1) else BackingOff(st.initial, 0)
      modifies this
      ensures Valid() && (closed <==> M().pc.Closed?) && (!closed ==> pos == |script|)
    {
      var up := streaming;
      while true
        invariant Valid() && !closed
        invariant M().pc == if up then Reading(children - 1) else BackingOff(st.initial, 0)
        decreases |script| - pos, !up
      {
        if !up {
          var again := ReopenSubscription();
          match again
          case StillReopening => return;
          case Refusal(_) => closed := true; return;
          case Gone => closed := true; return;
          case Stream(_) => up := true;
        }
        var ended := ReadStream();
        match ended
        case StillReading => return;
        case Nil => closed := true; return;
        case Failed(code) =>
          if IsPermanent(code) {
            closed := true;
            return;
          }
          up := false;
      }
    }
  }
}
