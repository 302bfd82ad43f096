/**
  The executor as a state machine: Run subscribing and waiting, one consumer per
  subscribed plugin, concurrent solves, and an environment that feeds and closes the
  streams, cancels the context, and decides what Match and Solve do.
*/
module Executor {
  import opened Results

  datatype StreamedTx = StreamedTx(id: nat)

  /** How a plugin's Match comes back: with its two results, or by panicking. */
  datatype MatchCall = MatchReturned(intent: Option<nat>, ok: bool) | MatchPanicked

  /** How a plugin's Solve comes back. */
  datatype SolveCall = SolveReturned | SolvePanicked

  /** What the recovering wrapper hands on. */
  datatype Verdict = Verdict(intent: Option<nat>, ok: bool)

  /** The deferred recover turns a panic into a nil intent that did not match. */
  function Recovered(call: MatchCall): Verdict {
    match call
    case MatchReturned(intent, ok) => Verdict(intent, ok)
    case MatchPanicked => Verdict(None, false)
  }

  datatype Phase = Launched | Running | Ended

  datatype Solve = Solve(intent: Option<nat>, phase: Phase, calls: nat)

  /** Where consume stands; the flag says whether it left its loop through cancellation. */
  datatype Pc =
    | Selecting
    | InMatch(tx: StreamedTx)
    | Deciding(verdict: Verdict)
    | Draining(cancelled: bool)
    | Exited(cancelled: bool)

  datatype Consumer = Consumer(
    plugin: nat,
    stream: seq<Option<StreamedTx>>,  // everything its source has put on the channel, nil packets included
    closed: bool,
    taken: nat,
    matches: seq<(StreamedTx, Verdict)>,
    pc: Pc,
    solves: seq<Solve>)

  function Fresh(plugin: nat): Consumer { Consumer(plugin, [], false, 0, [], Selecting, []) }

  datatype RunResult = CtxErr | ErrAllStreamsClosed

  datatype RunPc = Subscribing(next: nat) | AwaitingEither | AwaitingDone | Returned(result: RunResult)

  datatype State = State(plugins: nat, run: RunPc, consumers: seq<Consumer>, ctxDone: bool)

  function Initial(plugins: nat): State { State(plugins, Subscribing(0), [], false) }

  datatype Action =
    // the environment
    | Cancel
    | Put(c: nat, packet: Option<StreamedTx>)
    | CloseStream(c: nat)
    // Run
    | Subscribe(ok: bool)
    | StartWaiting
    | SeeCtxDone
    | SeeDone
    | ReturnAfterDone
    // consume
    | Receive(c: nat)
    | SeeClosed(c: nat)
    | SeeCancelled(c: nat)
    | MatchReturns(c: nat, call: MatchCall)
    | Decide(c: nat)
    | SolveBegins(c: nat, k: nat)
    | SolveReturns(c: nat, k: nat, result: SolveCall)
    | Drained(c: nat)

  predicate AllExited(s: State) {
    forall i :: 0 <= i < |s.consumers| ==> s.consumers[i].pc.Exited?
  }

  predicate AllEnded(c: Consumer) {
    forall k :: 0 <= k < |c.solves| ==> c.solves[k].phase.Ended?
  }

  /** Can this consumer take this action, in a context that is done or not? */
  predicate ConsumerEnabled(c: Consumer, a: Action, ctxDone: bool) {
    match a
    case Put(_, _) => !c.closed
    case CloseStream(_) => !c.closed
    case Receive(_) => c.pc.Selecting? && c.taken < |c.stream|
    case SeeClosed(_) => c.pc.Selecting? && c.closed && c.taken == |c.stream|
    case SeeCancelled(_) => c.pc.Selecting? && ctxDone
    case MatchReturns(_, _) => c.pc.InMatch?
    case Decide(_) => c.pc.Deciding?
    case SolveBegins(_, k) => k < |c.solves| && c.solves[k].phase.Launched?
    case SolveReturns(_, k, _) => k < |c.solves| && c.solves[k].phase.Running?
    case Drained(_) => c.pc.Draining? && AllEnded(c)
    case _ => false
  }

  predicate Enabled(s: State, a: Action) {
    match a
    case Cancel => true
    case Subscribe(_) => s.run.Subscribing? && s.run.next < s.plugins
    case StartWaiting => s.run.Subscribing? && s.run.next == s.plugins
    case SeeCtxDone => s.run.AwaitingEither? && s.ctxDone
    case SeeDone => s.run.AwaitingEither? && AllExited(s)
    case ReturnAfterDone => s.run.AwaitingDone? && AllExited(s)
    case _ => a.c < |s.consumers| && ConsumerEnabled(s.consumers[a.c], a, s.ctxDone)
  }

  function ConsumerStep(c: Consumer, a: Action, ctxDone: bool): Consumer
    requires ConsumerEnabled(c, a, ctxDone)
    requires c.taken <= |c.stream|
  {
    match a
    case Put(_, p) => c.(stream := c.stream + [p])
    case CloseStream(_) => c.(closed := true)
    case Receive(_) =>
      var next := c.(taken := c.taken + 1);
      (match c.stream[c.taken]
       case None => next
       case Some(tx) => next.(pc := InMatch(tx)))
    case SeeClosed(_) => c.(pc := Draining(false))
    case SeeCancelled(_) => c.(pc := Draining(true))
    case MatchReturns(_, call) =>
      c.(pc := Deciding(Recovered(call)), matches := c.matches + [(c.pc.tx, Recovered(call))])
    case Decide(_) =>
      c.(pc := Selecting,
         solves := c.solves + if c.pc.verdict.ok then [Solve(c.pc.verdict.intent, Launched, 0)] else [])
    case SolveBegins(_, k) => c.(solves := c.solves[k := Solve(c.solves[k].intent, Running, c.solves[k].calls + 1)])
    case SolveReturns(_, k, _) => c.(solves := c.solves[k := c.solves[k].(phase := Ended)])
    case Drained(_) => c.(pc := Exited(c.pc.cancelled))
  }

  ghost predicate Bounded(s: State) {
    forall i :: 0 <= i < |s.consumers| ==> s.consumers[i].taken <= |s.consumers[i].stream|
  }

  function Apply(s: State, a: Action): State
    requires Enabled(s, a) && Bounded(s)
  {
    match a
    case Cancel => s.(ctxDone := true)
    case Subscribe(ok) =>
      s.(run := Subscribing(s.run.next + 1), consumers := s.consumers + if ok then [Fresh(s.run.next)] else [])
    case StartWaiting => s.(run := AwaitingEither)
    case SeeCtxDone => s.(run := AwaitingDone)
    case SeeDone => s.(run := Returned(if s.ctxDone then CtxErr else ErrAllStreamsClosed))
    case ReturnAfterDone => s.(run := Returned(CtxErr))
    case _ => s.(consumers := s.consumers[a.c := ConsumerStep(s.consumers[a.c], a, s.ctxDone)])
  }

  ghost predicate IsRun(plugins: nat, actions: seq<Action>, states: seq<State>) {
    && |states| == |actions| + 1
    && states[0] == Initial(plugins)
    && forall i :: 0 <= i < |actions| ==>
         Enabled(states[i], actions[i]) && Bounded(states[i]) && states[i + 1] == Apply(states[i], actions[i])
  }

  // ----------------------------------------------------------- invariants

  function NonNil(s: seq<Option<StreamedTx>>): seq<StreamedTx> {
    if s == [] then []
    else NonNil(s[..|s| - 1]) + if s[|s| - 1].Some? then [s[|s| - 1].value] else []
  }

  function Tried(c: Consumer): seq<StreamedTx> {
    Firsts(c.matches) + if c.pc.InMatch? then [c.pc.tx] else []
  }

  function Firsts(ms: seq<(StreamedTx, Verdict)>): seq<StreamedTx> {
    if ms == [] then [] else Firsts(ms[..|ms| - 1]) + [ms[|ms| - 1].0]
  }

  /** The intents of the successful matches, in match order. */
  function Intents(ms: seq<(StreamedTx, Verdict)>): seq<Option<nat>> {
    if ms == [] then []
    else Intents(ms[..|ms| - 1]) + if ms[|ms| - 1].1.ok then [ms[|ms| - 1].1.intent] else []
  }

  /** The intent matched but not yet launched. */
  function Pending(c: Consumer): seq<Option<nat>> {
    if c.pc.Deciding? && c.pc.verdict.ok then [c.pc.verdict.intent] else []
  }

  ghost predicate SolvesFit(c: Consumer) {
    && |Intents(c.matches)| == |c.solves| + |Pending(c)|
    && Intents(c.matches)[|c.solves|..] == Pending(c)
    && forall k :: 0 <= k < |c.solves| ==>
         && c.solves[k].intent == Intents(c.matches)[k]
         && c.solves[k].calls == if c.solves[k].phase.Launched? then 0 else 1
  }

  ghost predicate ConsumerOk(c: Consumer, ctxDone: bool) {
    && c.taken <= |c.stream|
    && Tried(c) == NonNil(c.stream[..c.taken])
    && SolvesFit(c)
    && (c.pc == Draining(true) || c.pc == Exited(true) ==> ctxDone)
    && (c.pc == Draining(false) || c.pc == Exited(false) ==> c.closed && c.taken == |c.stream|)
    && (c.pc.Exited? ==> AllEnded(c))
  }

  ghost predicate Inv(s: State) {
    && (forall i :: 0 <= i < |s.consumers| ==> ConsumerOk(s.consumers[i], s.ctxDone))
    && (s.run.Subscribing? ==> s.run.next <= s.plugins)
    && (s.run.AwaitingDone? ==> s.ctxDone)
    && (s.run.Returned? ==> AllExited(s))
    && (s.run == Returned(CtxErr) ==> s.ctxDone)
    && (s.run == Returned(ErrAllStreamsClosed) ==>
          forall i :: 0 <= i < |s.consumers| ==> s.consumers[i].pc == Exited(false))
  }

  lemma ReceiveKeeps(c: Consumer, a: Action, ctxDone: bool)
    requires ConsumerOk(c, ctxDone) && a.Receive? && ConsumerEnabled(c, a, ctxDone)
    ensures ConsumerOk(ConsumerStep(c, a, ctxDone), ctxDone)
  {
    var seen := c.stream[..c.taken + 1];
    assert seen[..c.taken] == c.stream[..c.taken];
  }

  lemma MatchKeeps(c: Consumer, a: Action, ctxDone: bool)
    requires ConsumerOk(c, ctxDone) && a.MatchReturns? && ConsumerEnabled(c, a, ctxDone)
    ensures ConsumerOk(ConsumerStep(c, a, ctxDone), ctxDone)
  {
    var ms := c.matches + [(c.pc.tx, Recovered(a.call))];
    assert ms[..|c.matches|] == c.matches;
    assert Intents(ms)[..|c.solves|] == Intents(c.matches);
  }

  lemma DecideKeeps(c: Consumer, a: Action, ctxDone: bool)
    requires ConsumerOk(c, ctxDone) && a.Decide? && ConsumerEnabled(c, a, ctxDone)
    ensures ConsumerOk(ConsumerStep(c, a, ctxDone), ctxDone)
  {
    assert Firsts(c.matches) + [] == Firsts(c.matches);
    if c.pc.verdict.ok {
      assert Intents(c.matches)[|c.solves|..][0] == c.pc.verdict.intent;
    }
  }

  lemma SolveKeeps(c: Consumer, a: Action, ctxDone: bool)
    requires ConsumerOk(c, ctxDone) && (a.SolveBegins? || a.SolveReturns?) && ConsumerEnabled(c, a, ctxDone)
    ensures ConsumerOk(ConsumerStep(c, a, ctxDone), ctxDone)
  {
  }

  lemma ConsumerKeeps(c: Consumer, a: Action, ctxDone: bool)
    requires ConsumerOk(c, ctxDone) && ConsumerEnabled(c, a, ctxDone)
    ensures ConsumerOk(ConsumerStep(c, a, ctxDone), ctxDone)
  {
    if a.Receive? {
      ReceiveKeeps(c, a, ctxDone);
    } else if a.MatchReturns? {
      MatchKeeps(c, a, ctxDone);
    } else if a.Decide? {
      DecideKeeps(c, a, ctxDone);
    } else if a.Put? {
      assert (c.stream + [a.packet])[..c.taken] == c.stream[..c.taken];
    } else if a.SolveBegins? || a.SolveReturns? {
      SolveKeeps(c, a, ctxDone);
    }
  }

  /** A consumer that has exited takes no step but having its stream closed or, if cancelled, fed. */
  lemma ExitedStaysExited(c: Consumer, a: Action, ctxDone: bool)
    requires ConsumerOk(c, ctxDone) && ConsumerEnabled(c, a, ctxDone) && c.pc.Exited?
    ensures ConsumerStep(c, a, ctxDone).pc == c.pc
  {
  }

  /** Cancellation and the steps of Run itself; all others are one consumer's. */
  predicate RunAction(a: Action) {
    a.Cancel? || a.Subscribe? || a.StartWaiting? || a.SeeCtxDone? || a.SeeDone? || a.ReturnAfterDone?
  }

  lemma UpdateKeeps(s: State, i: nat, c: Consumer)
    requires Inv(s) && i < |s.consumers| && ConsumerOk(c, s.ctxDone)
    requires s.run.Returned? ==> c.pc == s.consumers[i].pc
    ensures Inv(s.(consumers := s.consumers[i := c]))
  {
  }

  lemma SubscribeKeeps(s: State, ok: bool)
    requires Inv(s) && Enabled(s, Subscribe(ok))
    ensures Bounded(s) && Inv(Apply(s, Subscribe(ok)))
  {
    assert ConsumerOk(Fresh(s.run.next), s.ctxDone);
  }

  lemma RunStepKeeps(s: State, a: Action)
    requires Inv(s) && Enabled(s, a) && RunAction(a) && !a.Subscribe?
    ensures Bounded(s) && Inv(Apply(s, a))
  {
    assert forall i :: 0 <= i < |s.consumers| ==> ConsumerOk(s.consumers[i], s.ctxDone);
  }

  lemma StepKeeps(s: State, a: Action)
    requires Inv(s) && Enabled(s, a)
    ensures Bounded(s) && Inv(Apply(s, a))
  {
    if a.Subscribe? {
      SubscribeKeeps(s, a.ok);
    } else if RunAction(a) {
      RunStepKeeps(s, a);
    } else {
      var c := s.consumers[a.c];
      ConsumerKeeps(c, a, s.ctxDone);
      if s.run.Returned? {
        ExitedStaysExited(c, a, s.ctxDone);
      }
      UpdateKeeps(s, a.c, ConsumerStep(c, a, s.ctxDone));
    }
  }

  lemma {:induction false} Invariant(plugins: nat, actions: seq<Action>, states: seq<State>, i: nat)
    requires IsRun(plugins, actions, states) && i < |states|
    ensures Inv(states[i])
  {
    if i > 0 {
      Invariant(plugins, actions, states, i - 1);
      StepKeeps(states[i - 1], actions[i - 1]);
    } else {
      assert Inv(Initial(plugins));
    }
  }

  // --------------------------------------------------------- main results

  /** At every moment: each non-nil packet received was handed to Match once, in stream order. */
  lemma MatchedExactlyOnce(plugins: nat, actions: seq<Action>, states: seq<State>, i: nat, c: nat)
    requires IsRun(plugins, actions, states) && i < |states| && c < |states[i].consumers|
    ensures var k := states[i].consumers[c];
            k.taken <= |k.stream| && Tried(k) == NonNil(k.stream[..k.taken])
  {
    Invariant(plugins, actions, states, i);
  }

  /** At every moment: one solve per successful match, once it is launched, and no other; each called at most once. */
  lemma SolvedAtMostOnce(plugins: nat, actions: seq<Action>, states: seq<State>, i: nat, c: nat, k: nat)
    requires IsRun(plugins, actions, states) && i < |states| && c < |states[i].consumers|
    ensures var j := states[i].consumers[c];
            |Intents(j.matches)| == |j.solves| + if j.pc.Deciding? && j.pc.verdict.ok then 1 else 0
    ensures k < |states[i].consumers[c].solves| ==>
              && states[i].consumers[c].solves[k].intent == Intents(states[i].consumers[c].matches)[k]
              && states[i].consumers[c].solves[k].calls <= 1
  {
    Invariant(plugins, actions, states, i);
    assert SolvesFit(states[i].consumers[c]);
  }

  /** When Run has returned, every successful match has been solved exactly once and every solve has ended. */
  lemma RunDrains(plugins: nat, actions: seq<Action>, states: seq<State>, i: nat, c: nat)
    requires IsRun(plugins, actions, states) && i < |states| && states[i].run.Returned?
    requires c < |states[i].consumers|
    ensures var k := states[i].consumers[c];
            && k.taken <= |k.stream| && k.pc.Exited? && Firsts(k.matches) == NonNil(k.stream[..k.taken])
            && |k.solves| == |Intents(k.matches)|
            && forall j :: 0 <= j < |k.solves| ==>
                 k.solves[j].phase.Ended? && k.solves[j].calls == 1 && k.solves[j].intent == Intents(k.matches)[j]
  {
    Invariant(plugins, actions, states, i);
    var k := states[i].consumers[c];
    assert ConsumerOk(k, states[i].ctxDone);
    assert Firsts(k.matches) + [] == Firsts(k.matches);
  }

  /** ErrAllStreamsClosed means nothing put on a subscribed stream was left unconsumed. */
  lemma AllClosedMeansAllConsumed(plugins: nat, actions: seq<Action>, states: seq<State>, i: nat, c: nat)
    requires IsRun(plugins, actions, states) && i < |states| && states[i].run == Returned(ErrAllStreamsClosed)
    requires c < |states[i].consumers|
    ensures var k := states[i].consumers[c];
            && k.pc == Exited(false) && k.closed && Firsts(k.matches) == NonNil(k.stream)
  {
    Invariant(plugins, actions, states, i);
    RunDrains(plugins, actions, states, i, c);
    var k := states[i].consumers[c];
    assert k.stream[..k.taken] == k.stream;
  }

  /** Run returns the context's error exactly when the context is done by then. */
  lemma ReturnsByCause(plugins: nat, actions: seq<Action>, states: seq<State>, i: nat)
    requires IsRun(plugins, actions, states) && i < |actions|
    requires !states[i].run.Returned? && states[i + 1].run.Returned?
    ensures states[i + 1].run == Returned(if states[i].ctxDone then CtxErr else ErrAllStreamsClosed)
  {
    Invariant(plugins, actions, states, i);
  }

  // ------------------------------------------------- solves hold nothing up

  lemma ExtendRun(plugins: nat, actions: seq<Action>, states: seq<State>, a: Action) returns (after: seq<State>)
    requires IsRun(plugins, actions, states) && Enabled(states[|actions|], a)
    ensures Bounded(states[|actions|]) && IsRun(plugins, actions + [a], after)
    ensures states <= after && after[|actions| + 1] == Apply(states[|actions|], a)
  {
    Invariant(plugins, actions, states, |actions|);
    var more := actions + [a];
    after := states + [Apply(states[|actions|], a)];
    forall i | 0 <= i < |more|
      ensures Enabled(after[i], more[i]) && Bounded(after[i]) && after[i + 1] == Apply(after[i], more[i])
    {
      if i < |actions| {
        assert after[i] == states[i] && after[i + 1] == states[i + 1] && more[i] == actions[i];
      } else {
        assert after[i] == states[|actions|] && more[i] == a;
      }
    }
  }

  /** The next step of consumer c's loop, a match coming back as the plugin has it. */
  function LoopStep(c: nat, k: Consumer, plugin: StreamedTx -> MatchCall): Action
    requires k.pc.Selecting? || k.pc.InMatch? || k.pc.Deciding?
  {
    match k.pc
    case InMatch(tx) => MatchReturns(c, plugin(tx))
    case Deciding(_) => Decide(c)
    case _ => Receive(c)
  }

  predicate InLoop(k: Consumer) { k.pc.Selecting? || k.pc.InMatch? || k.pc.Deciding? }

  function LoopLeft(k: Consumer): nat
    requires k.taken <= |k.stream|
  {
    3 * (|k.stream| - k.taken) + if k.pc.InMatch? then 2 else if k.pc.Deciding? then 1 else 0
  }

  lemma LoopMoves(s: State, c: nat, plugin: StreamedTx -> MatchCall)
    requires Inv(s) && c < |s.consumers| && InLoop(s.consumers[c])
    requires !(s.consumers[c].pc.Selecting? && s.consumers[c].taken == |s.consumers[c].stream|)
    ensures Bounded(s) && Enabled(s, LoopStep(c, s.consumers[c], plugin))
    ensures var next := Apply(s, LoopStep(c, s.consumers[c], plugin));
            && c < |next.consumers| && InLoop(next.consumers[c])
                 && next.consumers[c].taken <= |next.consumers[c].stream|
            && next.consumers[c].stream == s.consumers[c].stream
            && LoopLeft(next.consumers[c]) < LoopLeft(s.consumers[c])
            && s.consumers[c].solves <= next.consumers[c].solves
  {
    assert ConsumerOk(s.consumers[c], s.ctxDone);
  }

  /** The steps beyond the first n are all of consumer c's loop: no solve begins or ends among them. */
  predicate OnlyLoops(steps: seq<Action>, n: nat, c: nat) {
    forall k :: n <= k < |steps| ==>
      (steps[k].Receive? || steps[k].MatchReturns? || steps[k].Decide?) && steps[k].c == c
  }

  /**
    From any point of any run, a consumer still in its loop can receive and match everything on
    its stream without a solve beginning or ending, whatever the solves already launched do.
  */
  lemma {:induction false} MatchesWithoutSolving(
      plugins: nat, actions: seq<Action>, states: seq<State>, c: nat, plugin: StreamedTx -> MatchCall)
    returns (more: seq<Action>, after: seq<State>)
    requires IsRun(plugins, actions, states) && c < |states[|actions|].consumers|
    requires InLoop(states[|actions|].consumers[c])
    ensures IsRun(plugins, more, after) && actions <= more && OnlyLoops(more, |actions|, c)
    ensures c < |after[|more|].consumers|
    ensures var k, was := after[|more|].consumers[c], states[|actions|].consumers[c];
            && k.stream == was.stream && k.taken == |k.stream| && k.pc.Selecting?
            && was.solves <= k.solves
            && Firsts(k.matches) == NonNil(k.stream)
    decreases var k := states[|actions|].consumers[c]; if k.taken <= |k.stream| then LoopLeft(k) else 0
  {
    var s := states[|actions|];
    Invariant(plugins, actions, states, |actions|);
    var k := s.consumers[c];
    if k.pc.Selecting? && k.taken == |k.stream| {
      more, after := actions, states;
      CaughtUp(s, c);
    } else {
      LoopMoves(s, c, plugin);
      var a := LoopStep(c, k, plugin);
      var one := ExtendRun(plugins, actions, states, a);
      more, after := MatchesWithoutSolving(plugins, actions + [a], one, c, plugin);
      LoopsOn(more, actions, a, c);
    }
  }

  lemma CaughtUp(s: State, c: nat)
    requires Inv(s) && c < |s.consumers| && s.consumers[c].pc.Selecting?
        && s.consumers[c].taken == |s.consumers[c].stream|
    ensures Firsts(s.consumers[c].matches) == NonNil(s.consumers[c].stream)
  {
    var k := s.consumers[c];
    assert ConsumerOk(k, s.ctxDone);
    assert k.stream[..k.taken] == k.stream && Firsts(k.matches) + [] == Firsts(k.matches);
  }

  lemma LoopsOn(more: seq<Action>, actions: seq<Action>, a: Action, c: nat)
    requires actions + [a] <= more && OnlyLoops(more, |actions| + 1, c)
    requires (a.Receive? || a.MatchReturns? || a.Decide?) && a.c == c
    ensures actions <= more && OnlyLoops(more, |actions|, c)
  {
    assert more[|actions|] == (actions + [a])[|actions|];
    assert actions == (actions + [a])[..|actions|];
  }

  // ---------------------------------------------------- it always finishes

  /** Steps that are not the environment's: they only happen finitely often without new input. */
  predicate Internal(a: Action) { !a.Cancel? && !a.Put? && !a.CloseStream? }

  function PhaseWeight(p: Phase): nat {
    match p
    case Launched => 2
    case Running => 1
    case Ended => 0
  }

  function SolvesWeight(ss: seq<Solve>): nat {
    if ss == [] then 0 else SolvesWeight(ss[..|ss| - 1]) + PhaseWeight(ss[|ss| - 1].phase)
  }

  function PcWeight(pc: Pc): nat {
    match pc
    case Selecting => 2
    case InMatch(_) => 6
    case Deciding(_) => 5
    case Draining(_) => 1
    case Exited(_) => 0
  }

  function ConsumerWeight(c: Consumer): nat
    requires c.taken <= |c.stream|
  {
    5 * (|c.stream| - c.taken) + PcWeight(c.pc) + SolvesWeight(c.solves)
  }

  ghost function ConsumersWeight(cs: seq<Consumer>): nat
    requires forall i :: 0 <= i < |cs| ==> cs[i].taken <= |cs[i].stream|
  {
    if cs == [] then 0 else ConsumersWeight(cs[..|cs| - 1]) + ConsumerWeight(cs[|cs| - 1])
  }

  ghost function Weight(s: State): nat
    requires Inv(s)
  {
    ConsumersWeight(s.consumers) +
    match s.run
    case Subscribing(next) => 3 + 3 * (s.plugins - next)
    case AwaitingEither => 2
    case AwaitingDone => 1
    case Returned(_) => 0
  }

  lemma {:induction false} SolvesWeightUpdate(ss: seq<Solve>, k: nat, x: Solve)
    requires k < |ss|
    ensures SolvesWeight(ss[k := x]) == SolvesWeight(ss) - PhaseWeight(ss[k].phase) + PhaseWeight(x.phase)
  {
    var n := |ss| - 1;
    if k < n {
      SolvesWeightUpdate(ss[..n], k, x);
      assert ss[k := x][..n] == ss[..n][k := x];
    } else {
      assert ss[k := x][..n] == ss[..n];
    }
  }

  lemma DecideWeightDrops(c: Consumer)
    requires c.taken <= |c.stream| && c.pc.Deciding?
    ensures ConsumerWeight(ConsumerStep(c, Decide(0), false)) < ConsumerWeight(c)
  {
    if c.pc.verdict.ok {
      var more := c.solves + [Solve(c.pc.verdict.intent, Launched, 0)];
      assert more[..|c.solves|] == c.solves;
    } else {
      assert c.solves + [] == c.solves;
    }
  }

  lemma SolveWeightDrops(c: Consumer, k: nat, x: Solve)
    requires c.taken <= |c.stream| && k < |c.solves| && PhaseWeight(x.phase) < PhaseWeight(c.solves[k].phase)
    ensures ConsumerWeight(c.(solves := c.solves[k := x])) < ConsumerWeight(c)
  {
    SolvesWeightUpdate(c.solves, k, x);
  }

  lemma ConsumerWeightDrops(c: Consumer, a: Action, ctxDone: bool)
    requires ConsumerOk(c, ctxDone) && ConsumerEnabled(c, a, ctxDone) && Internal(a)
    ensures ConsumerStep(c, a, ctxDone).taken <= |c.stream|
    ensures ConsumerWeight(ConsumerStep(c, a, ctxDone)) < ConsumerWeight(c)
  {
    if a.Decide? {
      DecideWeightDrops(c);
    } else if a.SolveBegins? {
      SolveWeightDrops(c, a.k, Solve(c.solves[a.k].intent, Running, c.solves[a.k].calls + 1));
    } else if a.SolveReturns? {
      SolveWeightDrops(c, a.k, c.solves[a.k].(phase := Ended));
    }
  }

  lemma {:induction false} ConsumersWeightUpdate(cs: seq<Consumer>, i: nat, c: Consumer)
    requires forall k :: 0 <= k < |cs| ==> cs[k].taken <= |cs[k].stream|
    requires i < |cs| && c.taken <= |c.stream|
    ensures ConsumersWeight(cs[i := c]) == ConsumersWeight(cs) - ConsumerWeight(cs[i]) + ConsumerWeight(c)
  {
    var n := |cs| - 1;
    if i < n {
      ConsumersWeightUpdate(cs[..n], i, c);
      assert cs[i := c][..n] == cs[..n][i := c];
    } else {
      assert cs[i := c][..n] == cs[..n];
    }
  }

  /** Every step that is not the environment's brings Run closer to returning. */
  lemma InternalStepsCountDown(s: State, a: Action)
    requires Inv(s) && Enabled(s, a) && Internal(a)
    ensures Bounded(s) && Inv(Apply(s, a)) && Weight(Apply(s, a)) < Weight(s)
  {
    StepKeeps(s, a);
    if a.Subscribe? {
      SubscribeWeight(s.consumers, s.run.next, a.ok);
    } else if !RunAction(a) {
      ConsumersWeightDrops(s.consumers, a, s.ctxDone);
    }
  }

  lemma ConsumersWeightDrops(cs: seq<Consumer>, a: Action, ctxDone: bool)
    requires forall k :: 0 <= k < |cs| ==> cs[k].taken <= |cs[k].stream|
    requires Internal(a) && !RunAction(a) && a.c < |cs| && ConsumerOk(cs[a.c], ctxDone)
        && ConsumerEnabled(cs[a.c], a, ctxDone)
    ensures var next := cs[a.c := ConsumerStep(cs[a.c], a, ctxDone)];
            && (forall k :: 0 <= k < |next| ==> next[k].taken <= |next[k].stream|)
            && ConsumersWeight(next) < ConsumersWeight(cs)
  {
    ConsumerWeightDrops(cs[a.c], a, ctxDone);
    ConsumersWeightUpdate(cs, a.c, ConsumerStep(cs[a.c], a, ctxDone));
  }

  lemma SubscribeWeight(cs: seq<Consumer>, plugin: nat, ok: bool)
    requires forall k :: 0 <= k < |cs| ==> cs[k].taken <= |cs[k].stream|
    ensures ConsumersWeight(cs + if ok then [Fresh(plugin)] else []) <= ConsumersWeight(cs) + 2
  {
    if ok {
      assert (cs + [Fresh(plugin)])[..|cs|] == cs;
    } else {
      assert cs + [] == cs;
    }
  }

  /** The context is done, or every subscription is made and its stream closed. */
  ghost predicate Ending(s: State) {
    s.ctxDone || (!s.run.Subscribing? && forall i :: 0 <= i < |s.consumers| ==> s.consumers[i].closed)
  }

  lemma EndingKept(s: State, a: Action)
    requires Inv(s) && Ending(s) && Enabled(s, a) && Internal(a)
    ensures Bounded(s) && Ending(Apply(s, a))
  {
    if !RunAction(a) {
      ClosedStays(s.consumers[a.c], a, s.ctxDone);
    }
  }

  lemma ClosedStays(c: Consumer, a: Action, ctxDone: bool)
    requires ConsumerEnabled(c, a, ctxDone) && c.taken <= |c.stream|
    ensures c.closed ==> ConsumerStep(c, a, ctxDone).closed
  {
  }

  /** An ending Run that has not returned can always take a step of its own. */
  lemma NeverStuck(s: State)
    requires Inv(s) && Ending(s) && !s.run.Returned?
    ensures exists a :: Internal(a) && Enabled(s, a)
  {
    if s.run.Subscribing? {
      if s.run.next < s.plugins {
        assert Enabled(s, Subscribe(false));
      } else {
        assert Enabled(s, StartWaiting);
      }
    } else if AllExited(s) {
      assert s.run.AwaitingEither? ==> Enabled(s, SeeDone);
      assert s.run.AwaitingDone? ==> Enabled(s, ReturnAfterDone);
    } else {
      var i: nat :| i < |s.consumers| && !s.consumers[i].pc.Exited?;
      ConsumerNotStuck(s, i);
    }
  }

  lemma ConsumerNotStuck(s: State, i: nat)
    requires Inv(s) && Ending(s) && i < |s.consumers| && !s.consumers[i].pc.Exited?
    ensures exists a :: Internal(a) && Enabled(s, a)
  {
    var c := s.consumers[i];
    assert ConsumerOk(c, s.ctxDone);
    match c.pc
    case InMatch(_) => assert Enabled(s, MatchReturns(i, MatchPanicked));
    case Deciding(_) => assert Enabled(s, Decide(i));
    case Selecting =>
      if s.ctxDone {
        assert Enabled(s, SeeCancelled(i));
      } else if c.taken < |c.stream| {
        assert Enabled(s, Receive(i));
      } else {
        assert Enabled(s, SeeClosed(i));
      }
    case Draining(_) =>
      if AllEnded(c) {
        assert Enabled(s, Drained(i));
      } else {
        var k: nat :| k < |c.solves| && !c.solves[k].phase.Ended?;
        assert c.solves[k].phase.Launched? ==> Enabled(s, SolveBegins(i, k));
        assert c.solves[k].phase.Running? ==> Enabled(s, SolveReturns(i, k, SolveReturned));
      }
  }

  /** A returned Run has nothing left to do, and its goroutines neither. */
  lemma ReturnedIsStill(s: State, a: Action)
    requires Inv(s) && s.run.Returned? && Internal(a)
    ensures !Enabled(s, a)
  {
    if !RunAction(a) && a.c < |s.consumers| {
      assert ConsumerOk(s.consumers[a.c], s.ctxDone) && s.consumers[a.c].pc.Exited?;
    }
  }

  /** A schedule: Run's steps and its goroutines', with the environment's among them. */
  ghost predicate IsSchedule(steps: seq<Action>, states: seq<State>) {
    && |states| == |steps| + 1
    && forall i :: 0 <= i < |steps| ==>
         Enabled(states[i], steps[i]) && Bounded(states[i]) && states[i + 1] == Apply(states[i], steps[i])
  }

  /** How many of the first n steps are not the environment's. */
  function InternalSteps(steps: seq<Action>, n: nat): nat
    requires n <= |steps|
  {
    if n == 0 then 0 else InternalSteps(steps, n - 1) + if Internal(steps[n - 1]) then 1 else 0
  }

  /** How many packets the environment puts on the streams in the first n steps. */
  function Puts(steps: seq<Action>, n: nat): nat
    requires n <= |steps|
  {
    if n == 0 then 0 else Puts(steps, n - 1) + if steps[n - 1].Put? then 1 else 0
  }

  /** What a packet adds to the steps left: its receipt and, matched, a solve. */
  const STEPS_PER_PACKET: nat := 5

  lemma PutWeighs(cs: seq<Consumer>, a: Action)
    requires forall k :: 0 <= k < |cs| ==> cs[k].taken <= |cs[k].stream|
    requires a.Put? && a.c < |cs|
    ensures var c := cs[a.c].(stream := cs[a.c].stream + [a.packet]);
            ConsumersWeight(cs[a.c := c]) == ConsumersWeight(cs) + STEPS_PER_PACKET
  {
    ConsumersWeightUpdate(cs, a.c, cs[a.c].(stream := cs[a.c].stream + [a.packet]));
  }

  lemma CloseWeighsNothing(cs: seq<Consumer>, i: nat)
    requires forall k :: 0 <= k < |cs| ==> cs[k].taken <= |cs[k].stream|
    requires i < |cs|
    ensures ConsumersWeight(cs[i := cs[i].(closed := true)]) == ConsumersWeight(cs)
  {
    ConsumersWeightUpdate(cs, i, cs[i].(closed := true));
  }

  /** The environment keeps an ending executor ending, and adds to its work only by packets. */
  lemma EnvironmentStep(s: State, a: Action)
    requires Inv(s) && Ending(s) && Enabled(s, a) && !Internal(a)
    ensures Bounded(s) && Inv(Apply(s, a)) && Ending(Apply(s, a))
    ensures Weight(Apply(s, a)) == Weight(s) + if a.Put? then STEPS_PER_PACKET else 0
  {
    StepKeeps(s, a);
    if a.Put? {
      PutWeighs(s.consumers, a);
    } else if a.CloseStream? {
      CloseWeighsNothing(s.consumers, a.c);
    }
  }

  lemma CountStep(s: State, a: Action, next: State, budget: int, n: nat)
    requires Inv(s) && Ending(s) && Enabled(s, a) && Bounded(s) && next == Apply(s, a)
    requires Weight(s) + n <= budget
    ensures Inv(next) && Ending(next)
    ensures Weight(next) + n + (if Internal(a) then 1 else 0) <= budget + if a.Put? then STEPS_PER_PACKET else 0
  {
    if Internal(a) {
      InternalStepsCountDown(s, a);
      EndingKept(s, a);
    } else {
      EnvironmentStep(s, a);
    }
  }

  lemma {:induction false} ScheduleCountsDown(steps: seq<Action>, states: seq<State>, n: nat)
    requires IsSchedule(steps, states) && n <= |steps| && Inv(states[0]) && Ending(states[0])
    ensures Inv(states[n]) && Ending(states[n])
    ensures Weight(states[n]) + InternalSteps(steps, n) <= Weight(states[0]) + STEPS_PER_PACKET * Puts(steps, n)
  {
    if n > 0 {
      ScheduleCountsDown(steps, states, n - 1);
      CountStep(states[n - 1], steps[n - 1], states[n],
        Weight(states[0]) + STEPS_PER_PACKET * Puts(steps, n - 1), InternalSteps(steps, n - 1));
    }
  }

  /**
    Whatever the schedule, and whatever the environment does meanwhile, an ending executor takes
    at most so many steps of its own as are left to consume and to solve, with five more for each
    packet still put; and none is left to take in a state exactly when Run has returned there.
  */
  lemma EndingRunReturns(steps: seq<Action>, states: seq<State>)
    requires IsSchedule(steps, states) && Inv(states[0]) && Ending(states[0])
    ensures InternalSteps(steps, |steps|) <= Weight(states[0]) + STEPS_PER_PACKET * Puts(steps, |steps|)
    ensures (forall a :: Internal(a) ==> !Enabled(states[|steps|], a)) <==> states[|steps|].run.Returned?
  {
    ScheduleCountsDown(steps, states, |steps|);
    var last := states[|steps|];
    if last.run.Returned? {
      forall a | Internal(a)
        ensures !Enabled(last, a)
      {
        ReturnedIsStill(last, a);
      }
    } else {
      NeverStuck(last);
    }
  }

  // --------------------------------------------- which plugins are subscribed

  /** How many plugins have been asked to subscribe. */
  function Asked(actions: seq<Action>): nat {
    if actions == [] then 0
    else Asked(actions[..|actions| - 1]) + if actions[|actions| - 1].Subscribe? then 1 else 0
  }

  /** The plugins whose subscription succeeded, in order. */
  function Accepted(actions: seq<Action>): seq<nat> {
    if actions == [] then []
    else
      var front, a := actions[..|actions| - 1], actions[|actions| - 1];
      Accepted(front) + if a.Subscribe? && a.ok then [Asked(front)] else []
  }

  function PluginsOf(cs: seq<Consumer>): (ps: seq<nat>)
    ensures |ps| == |cs|
  {
    seq(|cs|, i requires 0 <= i < |cs| => cs[i].plugin)
  }

  lemma PluginsUpdate(cs: seq<Consumer>, i: nat, c: Consumer)
    requires i < |cs| && c.plugin == cs[i].plugin
    ensures PluginsOf(cs[i := c]) == PluginsOf(cs)
  {
  }

  lemma PluginsAppend(cs: seq<Consumer>, c: Consumer)
    ensures PluginsOf(cs + [c]) == PluginsOf(cs) + [c.plugin]
  {
  }

  lemma StepPlugins(s: State, a: Action)
    requires Inv(s) && Enabled(s, a)
    ensures Bounded(s)
    ensures PluginsOf(Apply(s, a).consumers)
            == PluginsOf(s.consumers) + if a.Subscribe? && a.ok then [s.run.next] else []
    ensures Apply(s, a).plugins == s.plugins
  {
    assert PluginsOf(s.consumers) + [] == PluginsOf(s.consumers);
    if a.Subscribe? {
      PluginsAppend(s.consumers, Fresh(s.run.next));
      assert s.consumers + [] == s.consumers;
    } else if !RunAction(a) {
      ConsumerPlugin(s.consumers[a.c], a, s.ctxDone);
      PluginsUpdate(s.consumers, a.c, ConsumerStep(s.consumers[a.c], a, s.ctxDone));
    }
  }

  lemma ConsumerPlugin(c: Consumer, a: Action, ctxDone: bool)
    requires ConsumerEnabled(c, a, ctxDone) && c.taken <= |c.stream|
    ensures ConsumerStep(c, a, ctxDone).plugin == c.plugin
  {
  }

  /** Each consumer serves one plugin: those that subscribed, in the order they were asked. */
  lemma {:induction false} PluginsInOrder(plugins: nat, actions: seq<Action>, states: seq<State>, i: nat)
    requires IsRun(plugins, actions, states) && i < |states|
    ensures var s := states[i];
            && s.plugins == plugins && PluginsOf(s.consumers) == Accepted(actions[..i])
            && Asked(actions[..i]) == if s.run.Subscribing? then s.run.next else plugins
  {
    if i > 0 {
      PluginsInOrder(plugins, actions, states, i - 1);
      Invariant(plugins, actions, states, i - 1);
      StepPlugins(states[i - 1], actions[i - 1]);
      StepAsks(states[i - 1], actions[i - 1]);
      OneMoreAsked(actions, i);
    }
  }

  lemma StepAsks(s: State, a: Action)
    requires Inv(s) && Enabled(s, a) && Bounded(s)
    ensures var asked := if s.run.Subscribing? then s.run.next else s.plugins;
            (if Apply(s, a).run.Subscribing? then Apply(s, a).run.next else s.plugins)
            == asked + if a.Subscribe? then 1 else 0
    ensures a.Subscribe? ==> s.run.Subscribing?
  {
  }

  lemma OneMoreAsked(actions: seq<Action>, i: nat)
    requires 0 < i <= |actions|
    ensures Asked(actions[..i]) == Asked(actions[..i - 1]) + if actions[i - 1].Subscribe? then 1 else 0
    ensures Accepted(actions[..i])
            == Accepted(actions[..i - 1])
               + if actions[i - 1].Subscribe? && actions[i - 1].ok then [Asked(actions[..i - 1])] else []
  {
    assert actions[..i][..i - 1] == actions[..i - 1];
  }

  // ------------------------------------------------- panics are invisible

  /** The same step, but for a call that comes back to the same verdict. */
  predicate SameStep(a: Action, b: Action) {
    match a
    case MatchReturns(c, call) => b.MatchReturns? && b.c == c && Recovered(b.call) == Recovered(call)
    case SolveReturns(c, k, _) => b.SolveReturns? && b.c == c && b.k == k
    case _ => a == b
  }

  lemma SameStepLeadsAlike(s: State, a: Action, b: Action)
    requires Bounded(s) && Enabled(s, a) && SameStep(a, b)
    ensures Enabled(s, b) && Apply(s, b) == Apply(s, a)
  {
  }

  /** The plugins' calls decide a run only through what the wrappers recover of them. */
  lemma OnlyVerdictsMatter(plugins: nat, actions: seq<Action>, others: seq<Action>, states: seq<State>)
    requires IsRun(plugins, actions, states)
    requires |others| == |actions| && forall i :: 0 <= i < |actions| ==> SameStep(actions[i], others[i])
    ensures IsRun(plugins, others, states)
  {
    forall i | 0 <= i < |others|
      ensures Enabled(states[i], others[i]) && states[i + 1] == Apply(states[i], others[i])
    {
      SameStepLeadsAlike(states[i], actions[i], others[i]);
    }
  }

  /** The same step with a declining Match, or a returning Solve, in place of a panic. */
  function CalmAction(a: Action): Action {
    match a
    case MatchReturns(c, MatchPanicked) => MatchReturns(c, MatchReturned(None, false))
    case SolveReturns(c, k, _) => SolveReturns(c, k, SolveReturned)
    case _ => a
  }

  function CalmActions(actions: seq<Action>): (calm: seq<Action>)
    ensures |calm| == |actions| && forall i :: 0 <= i < |calm| ==> calm[i] == CalmAction(actions[i])
  {
    seq(|actions|, i requires 0 <= i < |actions| => CalmAction(actions[i]))
  }

  /** A run with panics goes through the same states as one whose calls declined, or returned. */
  lemma PanicsAreInvisible(plugins: nat, actions: seq<Action>, states: seq<State>)
    requires IsRun(plugins, actions, states)
    ensures IsRun(plugins, CalmActions(actions), states)
  {
    OnlyVerdictsMatter(plugins, actions, CalmActions(actions), states);
  }
}
