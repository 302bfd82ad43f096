/**
  Run, consume and the two recovering wrappers in their own form. Each is one goroutine of an executor whose other
  goroutines, and whose environment, take the steps of an arbitrary run between its own.
*/
module ExecutorLoops {
  import opened Results
  import opened Executor

  /** The steps that only the goroutine consuming stream c takes. */
  predicate Consuming(a: Action, c: nat) {
    (a.Receive? || a.SeeClosed? || a.SeeCancelled? || a.MatchReturns? || a.Decide? || a.Drained?) && a.c == c
  }

  /** The steps that only the goroutine of one solve takes. */
  predicate OfSolve(a: Action, c: nat, k: nat) {
    (a.SolveBegins? || a.SolveReturns?) && a.c == c && a.k == k
  }

  /** The steps that only Run takes. */
  predicate OfRun(a: Action) { RunAction(a) && !a.Cancel? }

  /** What a consumer's own goroutine alone changes. */
  predicate SamePlace(c: Consumer, was: Consumer) {
    && c.pc == was.pc && c.taken == was.taken && c.matches == was.matches
    && |c.solves| == |was.solves| && forall k :: 0 <= k < |c.solves| ==> c.solves[k].intent == was.solves[k].intent
  }

  /** What a solve's own goroutine alone changes. */
  predicate SameSolve(c: Consumer, was: Consumer, k: nat) {
    k < |was.solves| && k < |c.solves| && c.solves[k] == was.solves[k]
  }

  lemma OthersKeepSolve(s: State, a: Action, c: nat, k: nat)
    requires Bounded(s) && Enabled(s, a) && c < |s.consumers| && k < |s.consumers[c].solves| && !OfSolve(a, c, k)
    ensures c < |Apply(s, a).consumers|
    ensures SameSolve(Apply(s, a).consumers[c], s.consumers[c], k)
  {
  }

  lemma OthersKeepPlace(s: State, a: Action, c: nat)
    requires Bounded(s) && Enabled(s, a) && c < |s.consumers| && !Consuming(a, c)
    ensures c < |Apply(s, a).consumers|
    ensures SamePlace(Apply(s, a).consumers[c], s.consumers[c])
  {
  }

  class Runtime {
    const plugins: nat
    const script: seq<Action>
    ghost const states: seq<State>
    var pos: nat
    var ctxDone: bool
    var asked: nat
    var consumers: seq<Consumer>

    constructor (plugins: nat, script: seq<Action>, ghost states: seq<State>)
      requires IsRun(plugins, script, states)
      ensures Valid() && pos == 0
      ensures this.plugins == plugins && this.script == script && this.states == states
    {
      this.plugins, this.script, this.states := plugins, script, states;
      pos, ctxDone, asked, consumers := 0, false, 0, [];
    }

    /** The state the consumed part of the run leads to. */
    ghost function M(): State
      reads this
      requires pos < |states|
    {
      states[pos]
    }

    ghost predicate Valid() reads this {
      && IsRun(plugins, script, states) && pos < |states|
      && M().consumers == consumers && M().ctxDone == ctxDone
      && (M().run.Subscribing? ==> asked == M().run.next)
    }

    lemma NextStep()
      requires Valid() && pos < |script|
      ensures Enabled(M(), script[pos]) && Bounded(M()) && states[pos + 1] == Apply(M(), script[pos])
    {
    }

    lemma ConsumersOk()
      requires Valid()
      ensures Inv(M())
    {
      Invariant(plugins, script, states, pos);
    }

    /** A step of another goroutine, or of the environment. */
    method Elsewhere()
      requires Valid() && pos < |script|
      modifies `pos, `ctxDone, `asked, `consumers
      ensures Valid() && pos == old(pos) + 1
    {
      NextStep();
      var a := script[pos];
      if a.Cancel? {
        ctxDone := true;
      } else if a.Subscribe? {
        consumers := consumers + if a.ok then [Fresh(asked)] else [];
        asked := asked + 1;
      } else if !RunAction(a) {
        consumers := consumers[a.c := ConsumerStep(consumers[a.c], a, ctxDone)];
      }
      pos := pos + 1;
    }

    // ------------------------------------------------------------ consume

    /** Waits for this consumer's own next step; None when the run has no more. */
    method AwaitConsumer(c: nat) returns (e: Option<Action>)
      requires Valid() && c < |consumers|
      modifies `pos, `ctxDone, `asked, `consumers
      ensures Valid() && old(pos) <= pos && c < |consumers|
      ensures SamePlace(consumers[c], old(consumers[c]))
      ensures e.None? ==> pos == |script|
      ensures e.Some? ==> pos < |script| && e.value == script[pos] && Consuming(e.value, c)
      ensures e.Some? ==> ConsumerEnabled(consumers[c], e.value, ctxDone)
    {
      while pos < |script| && !Consuming(script[pos], c)
        invariant Valid() && old(pos) <= pos && c < |consumers|
        invariant SamePlace(consumers[c], old(consumers[c]))
        decreases |script| - pos
      {
        NextStep();
        OthersKeepPlace(M(), script[pos], c);
        Elsewhere();
      }
      if pos == |script| {
        return None;
      }
      NextStep();
      return Some(script[pos]);
    }

    /** This consumer's own step, with the fields it writes. */
    method Move(c: nat, next: Consumer)
      requires Valid() && c < |consumers| && pos < |script| && Consuming(script[pos], c)
      requires ConsumerEnabled(consumers[c], script[pos], ctxDone) && consumers[c].taken <= |consumers[c].stream|
      requires next == ConsumerStep(consumers[c], script[pos], ctxDone)
      modifies `pos, `consumers
      ensures Valid() && pos == old(pos) + 1 && consumers == old(consumers)[c := next]
    {
      NextStep();
      consumers := consumers[c := next];
      pos := pos + 1;
    }

    /**
      Match under its recover. The verdict is positive exactly when the call returned a match;
      the packet is recorded once with it, and no solve is added here.
    */
    method SafeMatch(c: nat) returns (r: Option<Verdict>)
      requires Valid() && c < |consumers| && consumers[c].pc.InMatch?
      modifies `pos, `ctxDone, `asked, `consumers
      ensures Valid() && old(pos) <= pos && c < |consumers|
      ensures r.None? ==> pos == |script|
      ensures r.Some? ==> old(pos) < pos && script[pos - 1].MatchReturns? && script[pos - 1].c == c
      ensures r.Some? ==> var call := script[pos - 1].call;
                          && (r.value.ok <==> call.MatchReturned? && call.ok)
                          && (r.value.ok ==> r.value.intent == call.intent)
                          && (call.MatchPanicked? ==> r.value == Verdict(None, false))
      ensures r.Some? ==> var k, was := consumers[c], old(consumers[c]);
                          && k.pc == Deciding(r.value) && k.taken == was.taken
                          && k.matches == was.matches + [(was.pc.tx, r.value)]
                          && |k.solves| == |was.solves|
                          && forall i :: 0 <= i < |k.solves| ==> k.solves[i].intent == was.solves[i].intent
    {
      var e := AwaitConsumer(c);
      if e.None? {
        return None;
      }
      var k := consumers[c];
      var intent: Option<nat>, ok;
      match e.value.call {
        case MatchReturned(i, matched) => intent, ok := i, matched;
        case MatchPanicked => intent, ok := None, false;
      }
      Move(c, k.(pc := Deciding(Verdict(intent, ok)), matches := k.matches + [(k.pc.tx, Verdict(intent, ok))]));
      return Some(Verdict(intent, ok));
    }

    /** Goes on without a solve, or launches one with the matched intent. */
    method LaunchIfMatched(c: nat, verdict: Verdict) returns (going: bool)
      requires Valid() && c < |consumers| && consumers[c].pc == Deciding(verdict)
      modifies `pos, `ctxDone, `asked, `consumers
      ensures Valid() && old(pos) <= pos && c < |consumers| && (!going ==> pos == |script|)
      ensures going ==> var k, was := consumers[c], old(consumers[c]);
                        && old(pos) < pos && k.pc.Selecting? && k.matches == was.matches
                        && |k.solves| == |was.solves| + (if verdict.ok then 1 else 0)
                        && (verdict.ok ==> k.solves[|was.solves|] == Solve(verdict.intent, Launched, 0))
    {
      var e := AwaitConsumer(c);
      if e.None? {
        return false;
      }
      var k := consumers[c];
      if verdict.ok {
        Move(c, k.(pc := Selecting, solves := k.solves + [Solve(verdict.intent, Launched, 0)]));
      } else {
        assert k.solves + [] == k.solves;
        Move(c, k.(pc := Selecting));
      }
      return true;
    }

    /** Waits for this solve's own next step; None when the run has no more. */
    method AwaitSolve(c: nat, k: nat) returns (e: Option<Action>)
      requires Valid() && c < |consumers| && k < |consumers[c].solves|
      modifies `pos, `ctxDone, `asked, `consumers
      ensures Valid() && old(pos) <= pos && c < |consumers| && SameSolve(consumers[c], old(consumers[c]), k)
      ensures e.None? ==> pos == |script|
      ensures e.Some? ==> pos < |script| && e.value == script[pos] && OfSolve(e.value, c, k)
      ensures e.Some? ==> ConsumerEnabled(consumers[c], e.value, ctxDone)
    {
      while pos < |script| && !OfSolve(script[pos], c, k)
        invariant Valid() && old(pos) <= pos && c < |consumers| && SameSolve(consumers[c], old(consumers[c]), k)
        decreases |script| - pos
      {
        NextStep();
        OthersKeepSolve(M(), script[pos], c, k);
        Elsewhere();
      }
      if pos == |script| {
        return None;
      }
      NextStep();
      return Some(script[pos]);
    }

    /** The call of the plugin's Solve. */
    method BeginSolve(c: nat, k: nat)
      requires Valid() && c < |consumers| && k < |consumers[c].solves| && pos < |script|
      requires script[pos] == SolveBegins(c, k) && ConsumerEnabled(consumers[c], script[pos], ctxDone)
      modifies `pos, `consumers
      ensures Valid() && pos == old(pos) + 1 && c < |consumers| && k < |consumers[c].solves|
      ensures var was := old(consumers[c].solves[k]);
              consumers[c].solves[k] == Solve(was.intent, Running, was.calls + 1)
    {
      NextStep();
      var solve := consumers[c].solves[k];
      var next := solve.(phase := Running, calls := solve.calls + 1);
      consumers := consumers[c := consumers[c].(solves := consumers[c].solves[k := next])];
      pos := pos + 1;
    }

    /** Its end, whichever way it comes back. */
    method EndSolve(c: nat, k: nat)
      requires Valid() && c < |consumers| && k < |consumers[c].solves| && pos < |script|
      requires script[pos].SolveReturns? && OfSolve(script[pos], c, k)
          && ConsumerEnabled(consumers[c], script[pos], ctxDone)
      modifies `pos, `consumers
      ensures Valid() && pos == old(pos) + 1 && c < |consumers| && k < |consumers[c].solves|
      ensures consumers[c].solves[k] == old(consumers[c].solves[k]).(phase := Ended)
    {
      NextStep();
      var next := consumers[c].solves[k].(phase := Ended);
      consumers := consumers[c := consumers[c].(solves := consumers[c].solves[k := next])];
      pos := pos + 1;
    }

    lemma LaunchedUncalled(c: nat, k: nat)
      requires Valid() && c < |consumers| && k < |consumers[c].solves| && consumers[c].solves[k].phase.Launched?
      ensures consumers[c].solves[k].calls == 0
    {
      Invariant(plugins, script, states, pos);
      assert ConsumerOk(consumers[c], ctxDone);
    }

    /** Solve under its recover: called once with the matched intent, and ended whether it returns or panics. */
    method SafeSolve(c: nat, k: nat) returns (result: Option<SolveCall>)
      requires Valid() && c < |consumers| && k < |consumers[c].solves| && consumers[c].solves[k].phase.Launched?
      modifies `pos, `ctxDone, `asked, `consumers
      ensures Valid() && c < |consumers| && k < |consumers[c].solves|
      ensures result.None? ==> pos == |script|
      ensures result.Some? ==> 0 < pos && script[pos - 1] == SolveReturns(c, k, result.value)
      ensures result.Some? ==> consumers[c].solves[k] == Solve(old(consumers[c].solves[k].intent), Ended, 1)
    {
      var e := AwaitSolve(c, k);
      if e.None? {
        return None;
      }
      LaunchedUncalled(c, k);
      BeginSolve(c, k);
      e := AwaitSolve(c, k);
      if e.None? {
        return None;
      }
      EndSolve(c, k);
      return Some(e.value.result);
    }

    /** Receives and matches until the context ends or the stream is closed, then waits for the solves. */
    method Consume(c: nat) returns (finished: bool)
      requires Valid() && c < |consumers| && consumers[c].pc.Selecting?
      modifies `pos, `ctxDone, `asked, `consumers
      ensures Valid() && c < |consumers| && (!finished ==> pos == |script|)
      ensures var k := consumers[c];
              finished ==>
                && k.pc.Exited? && AllEnded(k) && SolvesFit(k) && k.taken <= |k.stream|
                && Firsts(k.matches) == NonNil(k.stream[..k.taken])
                && (k.pc.cancelled || (k.closed && Firsts(k.matches) == NonNil(k.stream)))
    {
      while true
        invariant Valid() && c < |consumers| && consumers[c].pc.Selecting?
        decreases |script| - pos
      {
        var e := AwaitConsumer(c);
        if e.None? {
          return false;
        }
        var k := consumers[c];
        match e.value
        case SeeCancelled(_) =>
          Move(c, k.(pc := Draining(true)));
          break;
        case SeeClosed(_) =>
          Move(c, k.(pc := Draining(false)));
          break;
        case Receive(_) =>
          var tx := k.stream[k.taken];
          if tx.None? {
            Move(c, k.(taken := k.taken + 1));
            continue;
          }
          Move(c, k.(taken := k.taken + 1, pc := InMatch(tx.value)));
          var verdict := SafeMatch(c);
          if verdict.None? {
            return false;
          }
          var going := LaunchIfMatched(c, verdict.value);
          if !going {
            return false;
          }
      }
      finished := WaitForSolves(c);
      var k := consumers[c];
      ConsumersOk();
      assert ConsumerOk(k, ctxDone);
      assert Firsts(k.matches) + [] == Firsts(k.matches);
      assert k.stream[..|k.stream|] == k.stream;
    }

    /** The deferred wait: the last step comes only after every launched solve has ended. */
    method WaitForSolves(c: nat) returns (finished: bool)
      requires Valid() && c < |consumers| && consumers[c].pc.Draining?
      modifies `pos, `ctxDone, `asked, `consumers
      ensures Valid() && c < |consumers| && (!finished ==> pos == |script|)
      ensures finished ==> consumers[c].pc.Exited?
    {
      var e := AwaitConsumer(c);
      if e.None? {
        return false;
      }
      Move(c, consumers[c].(pc := Exited(consumers[c].pc.cancelled)));
      return true;
    }

    // ---------------------------------------------------------------- Run

    /** Waits for Run's own next step; None when the run has no more. */
    method AwaitRun() returns (e: Option<Action>)
      requires Valid()
      modifies `pos, `ctxDone, `asked, `consumers
      ensures Valid() && old(pos) <= pos && M().run == old(M().run)
      ensures e.None? ==> pos == |script|
      ensures e.Some? ==> pos < |script| && e.value == script[pos] && OfRun(e.value) && Enabled(M(), e.value)
    {
      while pos < |script| && !OfRun(script[pos])
        invariant Valid() && old(pos) <= pos && M().run == old(M().run)
        decreases |script| - pos
      {
        NextStep();
        Elsewhere();
      }
      if pos == |script| {
        return None;
      }
      NextStep();
      return Some(script[pos]);
    }

    /** A step of Run that touches no consumer. */
    method Proceed()
      requires Valid() && pos < |script| && OfRun(script[pos]) && !script[pos].Subscribe?
      modifies `pos
      ensures Valid() && pos == old(pos) + 1 && Enabled(old(M()), script[old(pos)])
      ensures var was := old(M());
              M().run == match script[old(pos)]
                         case StartWaiting => AwaitingEither
                         case SeeCtxDone => AwaitingDone
                         case SeeDone => Returned(if ctxDone then CtxErr else ErrAllStreamsClosed)
                         case _ => Returned(CtxErr)
    {
      NextStep();
      pos := pos + 1;
    }

    /** The next plugin's subscription, kept with its stream or skipped. */
    method SubscribeNext()
      requires Valid() && pos < |script| && script[pos].Subscribe? && M().run == Subscribing(asked)
      modifies `pos, `asked, `consumers
      ensures Valid() && pos == old(pos) + 1 && asked == old(asked) + 1 && M().run == Subscribing(asked)
    {
      NextStep();
      if script[pos].ok {
        consumers := consumers + [Fresh(asked)];
      }
      asked, pos := asked + 1, pos + 1;
    }

    lemma AllDrained()
      requires Valid() && M().run.Returned?
      ensures forall k <- consumers :: k.pc.Exited? && AllEnded(k) && SolvesFit(k)
      ensures M().run == Returned(ErrAllStreamsClosed) ==> forall k <- consumers :: k.closed && k.taken == |k.stream|
    {
      Invariant(plugins, script, states, pos);
      forall k | k in consumers
        ensures k.pc.Exited? && AllEnded(k) && SolvesFit(k)
        ensures M().run == Returned(ErrAllStreamsClosed) ==> k.closed && k.taken == |k.stream|
      {
        assert ConsumerOk(k, ctxDone);
      }
    }

    /** Subscribes every plugin in turn, skipping those whose subscription fails. */
    method SubscribeAll() returns (subscribed: bool)
      requires Valid() && M().run == Subscribing(0)
      modifies `pos, `ctxDone, `asked, `consumers
      ensures Valid() && (if subscribed then M().run == AwaitingEither else pos == |script|)
      ensures subscribed ==> Asked(script[..pos]) == plugins
      ensures PluginsOf(consumers) == Accepted(script[..pos])
    {
      PluginsInOrder(plugins, script, states, pos);
      while asked < plugins
        invariant Valid() && asked <= plugins && M().run == Subscribing(asked)
        invariant PluginsOf(consumers) == Accepted(script[..pos])
        decreases plugins - asked
      {
        var e := AwaitRun();
        PluginsInOrder(plugins, script, states, pos);
        if e.None? {
          return false;
        }
        SubscribeNext();
        PluginsInOrder(plugins, script, states, pos);
      }
      var e := AwaitRun();
      PluginsInOrder(plugins, script, states, pos);
      if e.None? {
        return false;
      }
      Proceed();
      PluginsInOrder(plugins, script, states, pos);
      return true;
    }

    /** Returns only once every consumer has exited, with everything consumed unless the context ended. */
    method Run() returns (r: Option<RunResult>)
      requires Valid() && M().run == Subscribing(0)
      modifies `pos, `ctxDone, `asked, `consumers
      ensures Valid() && (r.None? ==> pos == |script|)
      ensures r.Some? ==> M().run == Returned(r.value) && (r.value.CtxErr? ==> ctxDone)
      ensures r.Some? ==> forall k <- consumers :: k.pc.Exited? && AllEnded(k) && SolvesFit(k)
      ensures r == Some(ErrAllStreamsClosed) ==> forall k <- consumers :: k.closed && k.taken == |k.stream|
    {
      var subscribed := SubscribeAll();
      if !subscribed {
        return None;
      }
      var e := AwaitRun();
      if e.None? {
        return None;
      }
      Proceed();
      if e.value.SeeDone? {
        AllDrained();
        return Some(if ctxDone then CtxErr else ErrAllStreamsClosed);
      }
      e := AwaitRun();
      if e.None? {
        return None;
      }
      ConsumersOk();
      Proceed();
      AllDrained();
      return Some(CtxErr);
    }
  }
}
