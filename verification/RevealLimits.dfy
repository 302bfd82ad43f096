/**
  What the registry does not promise, shown by runs: an expired entry can still be
  claimed from, one outpoint can be submitted twice, and a removal can take a newer
  registration with it. The toy instance shows that these runs exist.
*/
module RevealLimits {
  import opened Results
  import opened Bytes
  import opened ChainTypes
  import opened Primitives
  import opened ToyPrimitives
  import opened Packet
  import opened Contract
  import opened Ecies
  import opened Claim
  import opened Claimer
  import opened Reveal
  import opened RevealSystem
  import opened RevealRuns
  import opened RevealProgress

  /** Where a sequence of actions leads, if each is possible when it is taken. */
  ghost function Replay(P: Prims, cfg: Config, actions: seq<Action>): Option<State> {
    if actions == [] then Some(INITIAL)
    else
      var s :- Replay(P, cfg, actions[..|actions| - 1]);
      var a := actions[|actions| - 1];
      if Enabled(s, a) then Some(Apply(P, cfg, s, a)) else None
  }

  /** Reached by a run that shows transactions with hash h exactly n times. */
  ghost predicate Reachable(P: Prims, cfg: Config, s: State, h: bytes, n: nat) {
    exists actions :: Replay(P, cfg, actions) == Some(s) && Observations(P, actions, h) == n
  }

  lemma {:induction false} ReplayIsRun(P: Prims, cfg: Config, actions: seq<Action>) returns (states: seq<State>)
    requires Replay(P, cfg, actions).Some?
    ensures IsRun(P, cfg, actions, states) && Some(states[|actions|]) == Replay(P, cfg, actions)
  {
    if actions == [] {
      states := [INITIAL];
    } else {
      var front := actions[..|actions| - 1];
      var before := ReplayIsRun(P, cfg, front);
      states := ExtendRun(P, cfg, front, before, actions[|actions| - 1]);
      assert actions == front + [actions[|actions| - 1]];
    }
  }

  /** Some run ends in s and shows transactions with hash h exactly n times. */
  ghost predicate RunEndsIn(P: Prims, cfg: Config, s: State, h: bytes, n: nat) {
    exists actions, states ::
      IsRun(P, cfg, actions, states) && states[|actions|] == s && Observations(P, actions, h) == n
  }

  lemma ReachableByRun(P: Prims, cfg: Config, s: State, h: bytes, n: nat)
    requires Reachable(P, cfg, s, h, n)
    ensures RunEndsIn(P, cfg, s, h, n)
  {
    var actions :| Replay(P, cfg, actions) == Some(s) && Observations(P, actions, h) == n;
    var states := ReplayIsRun(P, cfg, actions);
  }

  lemma InitialReachable(P: Prims, cfg: Config, h: bytes)
    ensures Reachable(P, cfg, INITIAL, h, 0)
  {
    assert Replay(P, cfg, []) == Some(INITIAL) && Observations(P, [], h) == 0;
  }

  lemma StepReaches(P: Prims, cfg: Config, s: State, a: Action, h: bytes, n: nat)
    requires Reachable(P, cfg, s, h, n) && Enabled(s, a)
    ensures Reachable(P, cfg, Apply(P, cfg, s, a), h, n + Sees(P, a, h))
  {
    var actions :| Replay(P, cfg, actions) == Some(s) && Observations(P, actions, h) == n;
    var more := actions + [a];
    assert more[..|more| - 1] == actions && more[|more| - 1] == a;
    assert Replay(P, cfg, more) == Some(Apply(P, cfg, s, a));
  }

  /** A swap that can be registered and claimed from output 0 of tx. */
  datatype Swap = Swap(pkScript: bytes, taptree: seq<string>, pkt: ClaimPacket, tx: Psbt)
  {
    function Key(): string { HexEncode(pkScript) }

    function Hash(P: Prims): bytes { P.txHash(tx.unsigned) }

    /** The claim a registration of this swap matches in tx. */
    function Matched(P: Prims, cfg: Config): MatchedClaim
      requires Decrypted(P, cfg.secretKey, pkt).Ok? && |tx.unsigned.outs| > 0
    {
      MatchedClaim(
        OutPoint(P.txHash(tx.unsigned), 0), ToUint64(tx.unsigned.outs[0].value), Some(tx.unsigned),
        ClaimCredentials(Decrypted(P, cfg.secretKey, pkt).value, pkt.arkadeScript, taptree, pkScript))
    }

    ghost predicate Works(P: Prims, cfg: Config) {
      && EntryBinds(P, cfg, Key(), pkt, taptree)
      && |tx.unsigned.outs| > 0 && tx.unsigned.outs[0].pkScript == pkScript
      && !pkt.Underfunds(tx.unsigned.outs[0].value)
      && Submittable(P, cfg, Matched(P, cfg)).Some?
    }
  }

  lemma WorkingPasses(P: Prims, cfg: Config, w: Swap)
    requires w.Works(P, cfg)
    ensures Checked(P, cfg, Some(w.pkScript), w.taptree, w.pkt) == Ok(w.Key())
  {
    CheckedIffBinds(P, cfg, Some(w.pkScript), w.taptree, w.pkt);
  }

  lemma SoleRegistration(reg: Registry, key: string, pkt: ClaimPacket, taptree: seq<string>, now: int)
    requires reg == map[] || reg.Keys == {key}
    ensures Registered(reg, key, pkt, taptree, now)
        == (Ok(()), map[key := Registration(pkt, taptree, now + REGISTRATION_TTL)])
  {
    var live := Unexpired(reg, now);
    assert live.Keys <= {key};
    SubsetSize(live.Keys, {key});
    assert |live.Keys| == |live|;
    assert live[key := Registration(pkt, taptree, now + REGISTRATION_TTL)]
        == map[key := Registration(pkt, taptree, now + REGISTRATION_TTL)];
  }

  lemma PassingSubmit(
      P: Prims, cfg: Config, s: State, pkScript: bytes, taptree: seq<string>, pkt: ClaimPacket, key: string)
    requires Checked(P, cfg, Some(pkScript), taptree, pkt) == Ok(key)
    ensures Apply(P, cfg, s, Submit(Some(pkScript), taptree, pkt))
            == s.(registry := Registered(s.registry, key, pkt, taptree, s.now).1)
  {
  }

  /** A passing submission when nothing is registered under another key. */
  lemma SoleSubmit(
      P: Prims, cfg: Config, s: State, pkScript: bytes, taptree: seq<string>, pkt: ClaimPacket, key: string)
    requires Checked(P, cfg, Some(pkScript), taptree, pkt) == Ok(key)
    requires s.registry == map[] || s.registry.Keys == {key}
    ensures Apply(P, cfg, s, Submit(Some(pkScript), taptree, pkt))
            == s.(registry := map[key := Registration(pkt, taptree, s.now + REGISTRATION_TTL)])
  {
    PassingSubmit(P, cfg, s, pkScript, taptree, pkt, key);
    SoleRegistration(s.registry, key, pkt, taptree, s.now);
  }

  /** Registering a working swap when nothing else is registered. */
  lemma SubmitEffect(P: Prims, cfg: Config, s: State, w: Swap)
    requires w.Works(P, cfg) && (s.registry == map[] || s.registry.Keys == {w.Key()})
    ensures Apply(P, cfg, s, Submit(Some(w.pkScript), w.taptree, w.pkt))
            == s.(registry := map[w.Key() := Registration(w.pkt, w.taptree, s.now + REGISTRATION_TTL)])
  {
    WorkingPasses(P, cfg, w);
    SoleSubmit(P, cfg, s, w.pkScript, w.taptree, w.pkt, w.Key());
  }

  /** A thread that looks at output 0 while the swap is registered goes on to its claim. */
  lemma LookupEffect(P: Prims, cfg: Config, s: State, w: Swap, t: nat)
    requires w.Works(P, cfg) && t < |s.threads| && s.threads[t] == Looking(w.tx, 0)
    requires w.Key() in s.registry && s.registry[w.Key()].packet == w.pkt && s.registry[w.Key()].taptree == w.taptree
    ensures Apply(P, cfg, s, Lookup(t)) == Become(s, t, Gating(w.Matched(P, cfg), w.pkt, FromRegistry))
  {
  }

  lemma ClaimEffect(P: Prims, cfg: Config, s: State, m: MatchedClaim, pkt: ClaimPacket, t: nat)
    requires t < |s.threads| && s.threads[t] == Solving(m, pkt, FromRegistry)
    requires Submittable(P, cfg, m).Some?
    ensures var b := Submittable(P, cfg, m).value;
            AfterSubmit(P, cfg, s, t, true)
            == Become(s, t, Removing(m, pkt)).(submitted := s.submitted + [Submission(m, pkt, b, true)])
  {
  }

  /** The state once thread t has had its claim of the swap accepted. */
  function Claimed(P: Prims, cfg: Config, s: State, w: Swap, t: nat): State
    requires w.Works(P, cfg) && t < |s.threads|
  {
    AfterClaim(s, t, Submission(w.Matched(P, cfg), w.pkt, Submittable(P, cfg, w.Matched(P, cfg)).value, true))
  }

  function AfterClaim(s: State, t: nat, sub: Submission): State
    requires t < |s.threads|
  {
    Become(s, t, Removing(sub.m, sub.pkt)).(submitted := s.submitted + [sub])
  }

  predicate Holds(s: State, w: Swap) {
    w.Key() in s.registry && s.registry[w.Key()].packet == w.pkt && s.registry[w.Key()].taptree == w.taptree
  }

  /** Lookup, gate and claim of a thread that has just started on the swap's transaction. */
  lemma ClaimReaches(P: Prims, cfg: Config, s: State, w: Swap, t: nat, h: bytes, n: nat)
    requires Reachable(P, cfg, s, h, n) && w.Works(P, cfg)
    requires t < |s.threads| && s.threads[t] == Looking(w.tx, 0) && Holds(s, w)
    ensures Reachable(P, cfg, Claimed(P, cfg, s, w, t), h, n)
  {
    var m := w.Matched(P, cfg);
    var gating := Become(s, t, Gating(m, w.pkt, FromRegistry));
    var solving := Become(s, t, Solving(m, w.pkt, FromRegistry));
    LookupEffect(P, cfg, s, w, t);
    StepReaches(P, cfg, s, Lookup(t), h, n);
    GateEffect(P, cfg, s, m, w.pkt, t);
    StepReaches(P, cfg, gating, Gate(t, Unspent(m)), h, n);
    ClaimEffect(P, cfg, solving, m, w.pkt, t);
    StepReaches(P, cfg, solving, SubmitClaim(t, true), h, n);
    assert solving.threads[t := Removing(m, w.pkt)] == s.threads[t := Removing(m, w.pkt)];
  }

  lemma GateEffect(P: Prims, cfg: Config, s: State, m: MatchedClaim, pkt: ClaimPacket, t: nat)
    requires t < |s.threads|
    ensures Apply(P, cfg, Become(s, t, Gating(m, pkt, FromRegistry)), Gate(t, Unspent(m)))
            == Become(s, t, Solving(m, pkt, FromRegistry))
  {
    assert Vtxo(m.outpoint, m.credentials.pkScript) in Unspent(m).value;
    assert s.threads[t := Gating(m, pkt, FromRegistry)][t := Solving(m, pkt, FromRegistry)]
        == s.threads[t := Solving(m, pkt, FromRegistry)];
  }

  lemma SubmitReaches(P: Prims, cfg: Config, s: State, w: Swap, next: State, h: bytes, n: nat)
    requires Reachable(P, cfg, s, h, n) && w.Works(P, cfg)
    requires s.registry == map[] || s.registry.Keys == {w.Key()}
    requires next == s.(registry := map[w.Key() := Registration(w.pkt, w.taptree, s.now + REGISTRATION_TTL)])
    ensures Reachable(P, cfg, next, h, n)
  {
    SubmitEffect(P, cfg, s, w);
    StepReaches(P, cfg, s, Submit(Some(w.pkScript), w.taptree, w.pkt), h, n);
  }

  /** The state once the swap is registered and n threads look at its transaction, after a delay. */
  function Started(w: Swap, delay: nat, n: nat): State {
    State(delay, map[w.Key() := Registration(w.pkt, w.taptree, REGISTRATION_TTL)], seq(n, _ => Looking(w.tx, 0)), [])
  }

  lemma {:induction false} StartReaches(P: Prims, cfg: Config, w: Swap, delay: nat, n: nat)
    requires w.Works(P, cfg)
    ensures Reachable(P, cfg, Started(w, delay, n), w.Hash(P), n)
    decreases n
  {
    if n == 0 {
      RegisteredReaches(P, cfg, w, delay);
    } else {
      StartReaches(P, cfg, w, delay, n - 1);
      ObserveReaches(P, cfg, w, delay, n - 1);
    }
  }

  lemma RegisteredReaches(P: Prims, cfg: Config, w: Swap, delay: nat)
    requires w.Works(P, cfg)
    ensures Reachable(P, cfg, Started(w, delay, 0), w.Hash(P), 0)
  {
    InitialReachable(P, cfg, w.Hash(P));
    RegisteredIsStarted(w);
    SubmitReaches(P, cfg, INITIAL, w, Started(w, 0, 0), w.Hash(P), 0);
    DelayReaches(P, cfg, w, delay);
  }

  lemma DelayReaches(P: Prims, cfg: Config, w: Swap, delay: nat)
    requires Reachable(P, cfg, Started(w, 0, 0), w.Hash(P), 0)
    ensures Reachable(P, cfg, Started(w, delay, 0), w.Hash(P), 0)
  {
    TickEffect(P, cfg, w, delay);
    StepReaches(P, cfg, Started(w, 0, 0), Tick(delay), w.Hash(P), 0);
  }

  lemma ObserveReaches(P: Prims, cfg: Config, w: Swap, delay: nat, n: nat)
    requires w.tx.unsigned.outs != [] && Reachable(P, cfg, Started(w, delay, n), w.Hash(P), n)
    ensures Reachable(P, cfg, Started(w, delay, n + 1), w.Hash(P), n + 1)
  {
    StepReaches(P, cfg, Started(w, delay, n), Observe(w.tx), w.Hash(P), n);
    ObserveEffect(P, cfg, w, delay, n);
  }

  lemma RegisteredIsStarted(w: Swap)
    ensures INITIAL.(registry := map[w.Key() := Registration(w.pkt, w.taptree, INITIAL.now + REGISTRATION_TTL)])
        == Started(w, 0, 0)
  {
  }

  lemma TickEffect(P: Prims, cfg: Config, w: Swap, delay: nat)
    ensures Apply(P, cfg, Started(w, 0, 0), Tick(delay)) == Started(w, delay, 0)
  {
  }

  lemma ObserveEffect(P: Prims, cfg: Config, w: Swap, delay: nat, n: nat)
    requires w.tx.unsigned.outs != []
    ensures Apply(P, cfg, Started(w, delay, n), Observe(w.tx)) == Started(w, delay, n + 1)
  {
    assert Started(w, delay, n).threads + [Looking(w.tx, 0)] == Started(w, delay, n + 1).threads;
  }

  /**
    In this run, which shows the swap's transaction once, thread t looks the swap up at step i,
    after its entry has expired and before anything was submitted. The lookup hits, and by the
    end the claim it led to is accepted.
  */
  ghost predicate LateClaim(
      P: Prims, cfg: Config, w: Swap, actions: seq<Action>, states: seq<State>, i: nat, t: nat)
    requires w.Works(P, cfg)
  {
    && IsRun(P, cfg, actions, states) && Observations(P, actions, w.Hash(P)) == 1
    && i < |actions| && actions[i] == Lookup(t)
    && ExpiredFor(states[i], w) && states[i].submitted == []
    && t < |states[i].threads| && states[i].threads[t] == Looking(w.tx, 0)
    && t < |states[i + 1].threads| && states[i + 1].threads[t] == Gating(w.Matched(P, cfg), w.pkt, FromRegistry)
    && AcceptedIn(w.Matched(P, cfg), states[|actions|].submitted)
  }

  predicate ExpiredFor(s: State, w: Swap) {
    w.Key() in s.registry && s.now > s.registry[w.Key()].expireAt
  }

  ghost predicate ClaimsAfterExpiry(P: Prims, cfg: Config, w: Swap)
    requires w.Works(P, cfg)
  {
    exists actions, states, i: nat, t: nat :: LateClaim(P, cfg, w, actions, states, i, t)
  }

  /** A run, the swap's transaction shown n times, after which n accepted claims spend its one output. */
  ghost predicate SubmitsTimes(P: Prims, cfg: Config, w: Swap, n: nat)
    requires w.Works(P, cfg)
  {
    exists s :: RunEndsIn(P, cfg, s, w.Hash(P), n) && |s.submitted| == n
      && forall k :: 0 <= k < n ==> s.submitted[k].m == w.Matched(P, cfg) && s.submitted[k].accepted
  }

  /** A run after which two accepted claims spend one outpoint. */
  ghost predicate SubmitsTwice(P: Prims, cfg: Config, h: bytes) {
    exists s :: RunEndsIn(P, cfg, s, h, 2) && |s.submitted| == 2
      && s.submitted[0].m.outpoint == s.submitted[1].m.outpoint
      && s.submitted[0].accepted && s.submitted[1].accepted
  }

  /** A run after which a claim of w, finishing, removes an unexpired registration of newer. */
  ghost predicate RemovesNewer(P: Prims, cfg: Config, w: Swap, newer: Swap) {
    exists s, t: nat :: RunEndsIn(P, cfg, s, w.Hash(P), 1) && Enabled(s, Remove(t))
      && w.Key() in s.registry && s.registry[w.Key()].packet == newer.pkt && s.threads[t].pkt == w.pkt
      && s.registry[w.Key()].expireAt > s.now
      && w.Key() !in Apply(P, cfg, s, Remove(t)).registry
  }

  /** Lookup, gate and claim of the swap, appended to a run that ends with thread t about to look. */
  lemma ClaimExtends(P: Prims, cfg: Config, actions: seq<Action>, states: seq<State>, s: State, w: Swap, t: nat)
    returns (more: seq<Action>, after: seq<State>)
    requires IsRun(P, cfg, actions, states) && states[|actions|] == s
    requires w.Works(P, cfg) && t < |s.threads| && s.threads[t] == Looking(w.tx, 0) && Holds(s, w)
    ensures IsRun(P, cfg, more, after) && |more| == |actions| + 3
    ensures Observations(P, more, w.Hash(P)) == Observations(P, actions, w.Hash(P))
    ensures more[|actions|] == Lookup(t) && after[|actions|] == s
    ensures after[|actions| + 1] == Become(s, t, Gating(w.Matched(P, cfg), w.pkt, FromRegistry))
    ensures after[|more|] == Claimed(P, cfg, s, w, t)
  {
    var m := w.Matched(P, cfg);
    var gating := Become(s, t, Gating(m, w.pkt, FromRegistry));
    var solving := Become(s, t, Solving(m, w.pkt, FromRegistry));
    var gate := Gate(t, Unspent(m));
    LookupEffect(P, cfg, s, w, t);
    GateEffect(P, cfg, s, m, w.pkt, t);
    ClaimEffect(P, cfg, solving, m, w.pkt, t);
    assert solving.threads[t := Removing(m, w.pkt)] == s.threads[t := Removing(m, w.pkt)];
    more, after := ThreeSteps(P, cfg, actions, states, Lookup(t), gating, gate, solving, SubmitClaim(t, true),
        w.Hash(P));
  }

  lemma ThreeSteps(
      P: Prims, cfg: Config, actions: seq<Action>, states: seq<State>,
      a: Action, sa: State, b: Action, sb: State, c: Action, h: bytes)
    returns (more: seq<Action>, after: seq<State>)
    requires IsRun(P, cfg, actions, states)
    requires Enabled(states[|actions|], a) && Apply(P, cfg, states[|actions|], a) == sa
    requires Enabled(sa, b) && Apply(P, cfg, sa, b) == sb && Enabled(sb, c)
    requires Shown(a).None? && Shown(b).None? && Shown(c).None?
    ensures IsRun(P, cfg, more, after) && more == actions + [a, b, c]
    ensures Observations(P, more, h) == Observations(P, actions, h)
    ensures after[|actions|] == states[|actions|] && after[|actions| + 1] == sa
    ensures after[|more|] == Apply(P, cfg, sb, c)
  {
    var one := ExtendRun(P, cfg, actions, states, a);
    var two := ExtendRun(P, cfg, actions + [a], one, b);
    after := ExtendRun(P, cfg, actions + [a] + [b], two, c);
    more := actions + [a] + [b] + [c];
    PrefixKeeps(states, one, two, after, |actions|);
    PrefixKeeps(one, one, two, after, |actions| + 1);
    QuietStepsShowNothing(P, actions, a, b, c, h);
  }

  lemma PrefixKeeps<T>(a: seq<T>, b: seq<T>, c: seq<T>, d: seq<T>, i: nat)
    requires a <= b <= c <= d && i < |a|
    ensures d[i] == a[i]
  {
  }

  lemma QuietStepsShowNothing(P: Prims, actions: seq<Action>, a: Action, b: Action, c: Action, h: bytes)
    requires Shown(a).None? && Shown(b).None? && Shown(c).None?
    ensures Observations(P, actions + [a] + [b] + [c], h) == Observations(P, actions, h)
  {
    QuietStepShowsNothing(P, actions, a, h);
    QuietStepShowsNothing(P, actions + [a], b, h);
    QuietStepShowsNothing(P, actions + [a] + [b], c, h);
  }

  lemma QuietStepShowsNothing(P: Prims, actions: seq<Action>, a: Action, h: bytes)
    requires Shown(a).None?
    ensures Observations(P, actions + [a], h) == Observations(P, actions, h)
  {
    assert (actions + [a])[..|actions|] == actions;
  }

  /** The expiry is not consulted when an output is matched. */
  lemma ExpiredEntryIsClaimed(P: Prims, cfg: Config, w: Swap)
    requires w.Works(P, cfg)
    ensures ClaimsAfterExpiry(P, cfg, w)
  {
    var s := Started(w, REGISTRATION_TTL + 1, 1);
    StartReaches(P, cfg, w, REGISTRATION_TTL + 1, 1);
    var actions :| Replay(P, cfg, actions) == Some(s) && Observations(P, actions, w.Hash(P)) == 1;
    var states := ReplayIsRun(P, cfg, actions);
    var more, after := ClaimExtends(P, cfg, actions, states, s, w, 0);
    var end := after[|more|];
    assert end.submitted[0] in end.submitted;
    assert LateClaim(P, cfg, w, more, after, |actions|, 0);
  }

  /** The state once the first k of n threads on the swap's transaction have had their claims accepted. */
  function AfterClaims(w: Swap, sub: Submission, n: nat, k: nat): (s: State)
    requires k <= n
    ensures |s.threads| == n && |s.submitted| == k && Holds(s, w)
    ensures forall t :: k <= t < n ==> s.threads[t] == Looking(w.tx, 0)
    ensures forall j :: 0 <= j < k ==> s.submitted[j] == sub
  {
    if k == 0 then Started(w, 0, n) else AfterClaim(AfterClaims(w, sub, n, k - 1), k - 1, sub)
  }

  /** The submission a working swap's claim makes. */
  function ClaimOf(P: Prims, cfg: Config, w: Swap): Submission
    requires w.Works(P, cfg)
  {
    Submission(w.Matched(P, cfg), w.pkt, Submittable(P, cfg, w.Matched(P, cfg)).value, true)
  }

  lemma OneMoreClaim(P: Prims, cfg: Config, s: State, w: Swap, t: nat, h: bytes, n: nat, sub: Submission)
    requires Reachable(P, cfg, s, h, n) && w.Works(P, cfg) && sub == ClaimOf(P, cfg, w)
    requires t < |s.threads| && s.threads[t] == Looking(w.tx, 0) && Holds(s, w)
    ensures Reachable(P, cfg, AfterClaim(s, t, sub), h, n)
  {
    ClaimReaches(P, cfg, s, w, t, h, n);
  }

  lemma {:induction false} ClaimsReach(P: Prims, cfg: Config, w: Swap, n: nat, k: nat, sub: Submission)
    requires w.Works(P, cfg) && k <= n && sub == ClaimOf(P, cfg, w)
    ensures Reachable(P, cfg, AfterClaims(w, sub, n, k), w.Hash(P), n)
  {
    if k == 0 {
      StartReaches(P, cfg, w, 0, n);
    } else {
      ClaimsReach(P, cfg, w, n, k - 1, sub);
      OneMoreClaim(P, cfg, AfterClaims(w, sub, n, k - 1), w, k - 1, w.Hash(P), n, sub);
    }
  }

  /** The bound on submissions is met: shown n times, a working swap's output is submitted n times. */
  lemma SubmittedAsOftenAsShown(P: Prims, cfg: Config, w: Swap, n: nat)
    requires w.Works(P, cfg)
    ensures SubmitsTimes(P, cfg, w, n)
  {
    var sub := ClaimOf(P, cfg, w);
    ClaimsReach(P, cfg, w, n, n, sub);
    ReachableByRun(P, cfg, AfterClaims(w, sub, n, n), w.Hash(P), n);
  }

  /** Two threads can see the same funded output: its outpoint is then submitted twice. */
  lemma OutpointSubmittedTwice(P: Prims, cfg: Config, w: Swap)
    requires w.Works(P, cfg)
    ensures SubmitsTwice(P, cfg, w.Hash(P))
  {
    var sub := ClaimOf(P, cfg, w);
    ClaimsReach(P, cfg, w, 2, 2, sub);
    ReachableByRun(P, cfg, AfterClaims(w, sub, 2, 2), w.Hash(P), 2);
  }

  /** A claim finishing late removes a registration it never matched, made while it was submitting. */
  lemma RemovalTakesNewerEntry(P: Prims, cfg: Config, w: Swap, newer: Swap)
    requires w.Works(P, cfg) && newer.Works(P, cfg) && newer.pkScript == w.pkScript && newer.pkt != w.pkt
    ensures RemovesNewer(P, cfg, w, newer)
  {
    var s := Started(w, 0, 1);
    StartReaches(P, cfg, w, 0, 1);
    ClaimReaches(P, cfg, s, w, 0, w.Hash(P), 1);
    var claimed := Claimed(P, cfg, s, w, 0);
    var end := claimed.(registry := map[w.Key() := Registration(newer.pkt, newer.taptree,
        claimed.now + REGISTRATION_TTL)]);
    SubmitReaches(P, cfg, claimed, newer, end, w.Hash(P), 1);
    ReachableByRun(P, cfg, end, w.Hash(P), 1);
    assert Enabled(end, Remove(0));
    RemoveEffect(P, cfg, end, w, 0);
  }

  lemma RemoveEffect(P: Prims, cfg: Config, s: State, w: Swap, t: nat)
    requires w.Works(P, cfg) && t < |s.threads| && s.threads[t] == Removing(w.Matched(P, cfg), w.pkt)
    ensures w.Key() !in Apply(P, cfg, s, Remove(t)).registry
  {
    RemoveTakesKey(P, cfg, s, t);
  }

  // ------------------------------------------------- repeat submissions

  /** A minimum no int64 value reaches. */
  predicate NeverPaid(p: ClaimPacket) { p.minAmount.Some? && p.minAmount.value >= 0x8000_0000_0000_0000 }

  /** Every lookup finds the same claim, whichever of the two is registered. */
  ghost predicate LookupsAgree(P: Prims, cfg: Config, key: string, a: Registration, b: Registration) {
    forall tx: Psbt, i: nat | i < |tx.unsigned.outs| ::
      MatchAt(P, cfg, map[key := a], tx, i) == MatchAt(P, cfg, map[key := b], tx, i)
  }

  predicate SameClaim(P: Prims, cfg: Config, a: Registration, b: Registration) {
    && a.packet.arkadeScript == b.packet.arkadeScript && a.taptree == b.taptree
    && Decrypted(P, cfg.secretKey, a.packet) == Decrypted(P, cfg.secretKey, b.packet)
  }

  /** A value that one minimum admits, and the other does not when they differ. */
  function Telling(a: Option<uint64>, b: Option<uint64>): int64
    requires !(a.Some? && a.value >= 0x8000_0000_0000_0000) || !(b.Some? && b.value >= 0x8000_0000_0000_0000)
  {
    if a.None? || b.None? then -1 else if a.value <= b.value then a.value else b.value
  }

  /** Whether a registration claims from a lone output of its script with this value. */
  lemma LoneLookup(P: Prims, cfg: Config, key: string, r: Registration, pkScript: bytes, v: int64)
    requires EntryBinds(P, cfg, key, r.packet, r.taptree) && key == HexEncode(pkScript)
    ensures var tx := Psbt(Tx([TxOut(v, pkScript)], []), []);
            var m := MatchAt(P, cfg, map[key := r], tx, 0);
            && (m.Some? <==> (r.packet.minAmount.None? || 0 <= r.packet.minAmount.value <= v))
            && (m.Some? ==>
                  && Decrypted(P, cfg.secretKey, r.packet) == Ok(m.value.credentials.preimage)
                  && m.value.credentials.arkadeScript == r.packet.arkadeScript
                  && m.value.credentials.taptree == r.taptree)
  {
    LookupDeclines(P, cfg, map[key := r], Psbt(Tx([TxOut(v, pkScript)], []), []), 0);
  }

  lemma AgreeingRepeatIsSame(P: Prims, cfg: Config, key: string, a: Registration, b: Registration)
    requires EntryBinds(P, cfg, key, a.packet, a.taptree) && EntryBinds(P, cfg, key, b.packet, b.taptree)
    requires LookupsAgree(P, cfg, key, a, b) && !(NeverPaid(a.packet) && NeverPaid(b.packet))
    ensures a.packet.minAmount == b.packet.minAmount && SameClaim(P, cfg, a, b)
  {
    var pkScript := P.OutputScript(P.decodeClosures(a.taptree).value).value;
    var v := Telling(a.packet.minAmount, b.packet.minAmount);
    LoneLookup(P, cfg, key, a, pkScript, v);
    LoneLookup(P, cfg, key, b, pkScript, v);
    var tx := Psbt(Tx([TxOut(v, pkScript)], []), []);
    assert MatchAt(P, cfg, map[key := a], tx, 0) == MatchAt(P, cfg, map[key := b], tx, 0);
  }

  lemma SameRepeatAgrees(P: Prims, cfg: Config, key: string, a: Registration, b: Registration, tx: Psbt, i: nat)
    requires i < |tx.unsigned.outs|
    requires (NeverPaid(a.packet) && NeverPaid(b.packet))
             || (a.packet.minAmount == b.packet.minAmount && SameClaim(P, cfg, a, b))
    ensures MatchAt(P, cfg, map[key := a], tx, i) == MatchAt(P, cfg, map[key := b], tx, i)
  {
  }

  /** A repeat submission is equivalent exactly when it states the same minimum and leads to the same claim. */
  lemma RepeatIsEquivalentIff(P: Prims, cfg: Config, key: string, a: Registration, b: Registration)
    requires EntryBinds(P, cfg, key, a.packet, a.taptree) && EntryBinds(P, cfg, key, b.packet, b.taptree)
    ensures LookupsAgree(P, cfg, key, a, b)
            <==> (NeverPaid(a.packet) && NeverPaid(b.packet))
                 || (a.packet.minAmount == b.packet.minAmount && SameClaim(P, cfg, a, b))
  {
    if LookupsAgree(P, cfg, key, a, b) {
      if !(NeverPaid(a.packet) && NeverPaid(b.packet)) {
        AgreeingRepeatIsSame(P, cfg, key, a, b);
      }
    } else {
      var tx: Psbt, i: nat :| i < |tx.unsigned.outs|
        && MatchAt(P, cfg, map[key := a], tx, i) != MatchAt(P, cfg, map[key := b], tx, i);
      if (NeverPaid(a.packet) && NeverPaid(b.packet))
          || (a.packet.minAmount == b.packet.minAmount && SameClaim(P, cfg, a, b)) {
        SameRepeatAgrees(P, cfg, key, a, b, tx, i);
      }
    }
  }

  // ------------------------------------------------------- the toy swaps

  const TOY_CONFIG := Config(PrivKey([]), KEY, KEY, [])

  function ToySwap(min: Option<uint64>): Swap {
    var receiver := [0x51, 0x20] + Zeros(32);
    var pkScript := [0x51, 0x20] + Zeros(32);
    var sealed := Sealed(Toy(), Toy().pubOf(TOY_CONFIG.secretKey), Zeros(PREIMAGE_SIZE), MinAmountBytes(min),
        PrivKey([]), Zeros(12));
    Swap(pkScript, ["claim"], ClaimPacket(sealed, PayTo(receiver).value, [], min),
        Psbt(Tx([TxOut(1, pkScript)], []), []))
  }

  /** Working swaps exist, with and without a minimum amount, so the runs above are real. */
  lemma ToySwapWorks(min: Option<uint64>)
    requires min.Some? ==> min.value <= 1
    ensures ToySwap(min).Works(Toy(), TOY_CONFIG)
  {
    var w := ToySwap(min);
    ToyPacketOpens(min);
    ToyTaptreeBinds(w.pkt.arkadeScript);
    ToySubmits(min);
    BoundWorks(Toy(), TOY_CONFIG, w);
  }

  lemma BoundWorks(P: Prims, cfg: Config, w: Swap)
    requires Decrypted(P, cfg.secretKey, w.pkt).Ok?
    requires Binds(P, cfg, w.taptree, w.pkScript, w.pkt.arkadeScript, Decrypted(P, cfg.secretKey, w.pkt).value)
    requires |w.tx.unsigned.outs| > 0 && w.tx.unsigned.outs[0].pkScript == w.pkScript
    requires !w.pkt.Underfunds(w.tx.unsigned.outs[0].value) && Submittable(P, cfg, w.Matched(P, cfg)).Some?
    ensures w.Works(P, cfg)
  {
  }

  lemma ToySubmits(min: Option<uint64>)
    requires min.Some? ==> min.value <= 1
    requires Decrypted(Toy(), TOY_CONFIG.secretKey, ToySwap(min).pkt) == Ok(Zeros(PREIMAGE_SIZE))
    requires Binds(Toy(), TOY_CONFIG, ["claim"], ToySwap(min).pkScript, ToySwap(min).pkt.arkadeScript,
        Zeros(PREIMAGE_SIZE))
    ensures Submittable(Toy(), TOY_CONFIG, ToySwap(min).Matched(Toy(), TOY_CONFIG)).Some?
  {
    var m := ToySwap(min).Matched(Toy(), TOY_CONFIG);
    ToyIsLawful();
    ToyMatchClaimable(min);
    NoLateFailure(Toy(), TOY_CONFIG, m, ToySwap(min).pkt);
    ToyBuilds(m);
  }

  lemma ToyMatchClaimable(min: Option<uint64>)
    requires min.Some? ==> min.value <= 1
    requires Decrypted(Toy(), TOY_CONFIG.secretKey, ToySwap(min).pkt) == Ok(Zeros(PREIMAGE_SIZE))
    requires Binds(Toy(), TOY_CONFIG, ["claim"], ToySwap(min).pkScript, ToySwap(min).pkt.arkadeScript,
        Zeros(PREIMAGE_SIZE))
    ensures Claimable(Toy(), TOY_CONFIG, ToySwap(min).Matched(Toy(), TOY_CONFIG), ToySwap(min).pkt)
  {
  }

  lemma ToyBuilds(m: MatchedClaim)
    requires Prepare(Toy(), m, KEY, KEY).Ok?
    ensures Submittable(Toy(), TOY_CONFIG, m).Some?
  {
    var p := Prepare(Toy(), m, KEY, KEY).value;
    var b := Build(ClaimInput(m, p), ClaimOutputs(m, p, TxOut(0, m.credentials.arkadeScript)),
        TOY_CONFIG.checkpointTapscript);
    ToyFieldsSet(b);
    WiredInPlace(Toy(), Witnessed(b.checkpoints, m.credentials.preimage));
  }

  lemma ToyFieldsSet(b: Bundle)
    requires |b.checkpoints| == 1
    ensures FieldError(Toy(), b) == None
  {
    assert CheckpointError(Toy(), b.checkpoints, 1) == None;
  }

  lemma ToyPacketOpens(min: Option<uint64>)
    ensures Decrypted(Toy(), TOY_CONFIG.secretKey, ToySwap(min).pkt) == Ok(Zeros(PREIMAGE_SIZE))
  {
    ToyIsLawful();
    var w := ToySwap(min);
    var receiver := [0x51, 0x20] + Zeros(32);
    ValidatedIffPayTo(w.pkt.arkadeScript, receiver);
    AmountBinding(Toy(), TOY_CONFIG.secretKey, Zeros(PREIMAGE_SIZE), min, PrivKey([]), Zeros(12), w.pkt);
  }

  lemma ToyTaptreeBinds(arkadeScript: bytes)
    ensures Toy().OutputScript(Closures(["claim"]).value) == Some([0x51, 0x20] + Zeros(32))
    ensures Binds(Toy(), TOY_CONFIG, ["claim"], [0x51, 0x20] + Zeros(32), arkadeScript, Zeros(PREIMAGE_SIZE))
  {
    ToyIsLawful();
    var cs := Closures(["claim"]).value;
    assert Fit(Zeros(PREIMAGE_SIZE), 20) == Zeros(20);
    assert Fit([], 32) == Zeros(32);
    assert cs[0] in cs && IsClaimClosure(Toy(), cs[0], Condition(Zeros(20)), KEY, KEY);
    FindFailureNamesCause(Toy(), cs, KEY, KEY, Zeros(PREIMAGE_SIZE));
  }

  /**
    A repeat submission for one address need not be equivalent: both pass their checks and are
    registered, and the second replaces the minimum amount of the first.
  */
  lemma ResubmissionMayDiffer(now: int)
    ensures var a, b := ToySwap(None), ToySwap(Some(1));
            var (first, once) := Registered(map[], a.Key(), a.pkt, a.taptree, now);
            var (second, twice) := Registered(once, b.Key(), b.pkt, b.taptree, now);
            && Checked(Toy(), TOY_CONFIG, Some(a.pkScript), a.taptree, a.pkt) == Ok(a.Key())
            && Checked(Toy(), TOY_CONFIG, Some(b.pkScript), b.taptree, b.pkt) == Ok(b.Key())
            && a.Key() == b.Key() && first.Ok? && second.Ok? && a.Key() in once && a.Key() in twice
            && once[a.Key()].packet.minAmount == None && twice[a.Key()].packet.minAmount == Some(1)
  {
    var a, b := ToySwap(None), ToySwap(Some(1));
    ToySwapWorks(None);
    ToySwapWorks(Some(1));
    WorkingPasses(Toy(), TOY_CONFIG, a);
    WorkingPasses(Toy(), TOY_CONFIG, b);
    ToySwapsDiffer();
    TwoRegistrations(a.Key(), a.pkt, a.taptree, b.pkt, b.taptree, now);
  }

  lemma TwoRegistrations(
      key: string, first: ClaimPacket, taptree: seq<string>, second: ClaimPacket, other: seq<string>, now: int)
    ensures Registered(map[], key, first, taptree, now)
        == (Ok(()), map[key := Registration(first, taptree, now + REGISTRATION_TTL)])
    ensures Registered(map[key := Registration(first, taptree, now + REGISTRATION_TTL)], key, second, other, now)
            == (Ok(()), map[key := Registration(second, other, now + REGISTRATION_TTL)])
  {
    SoleRegistration(map[], key, first, taptree, now);
    SoleRegistration(map[key := Registration(first, taptree, now + REGISTRATION_TTL)], key, second, other, now);
  }

  /** So under the toy instance every run above exists. */
  lemma LimitsAreReal()
    ensures ToySwap(None).Works(Toy(), TOY_CONFIG) && ClaimsAfterExpiry(Toy(), TOY_CONFIG, ToySwap(None))
    ensures SubmitsTwice(Toy(), TOY_CONFIG, ToySwap(None).Hash(Toy()))
    ensures forall n: nat :: SubmitsTimes(Toy(), TOY_CONFIG, ToySwap(None), n)
    ensures RemovesNewer(Toy(), TOY_CONFIG, ToySwap(None), ToySwap(Some(1)))
  {
    ToySwapWorks(None);
    ToySwapWorks(Some(1));
    ExpiredEntryIsClaimed(Toy(), TOY_CONFIG, ToySwap(None));
    OutpointSubmittedTwice(Toy(), TOY_CONFIG, ToySwap(None));
    forall n: nat
      ensures SubmitsTimes(Toy(), TOY_CONFIG, ToySwap(None), n)
    {
      SubmittedAsOftenAsShown(Toy(), TOY_CONFIG, ToySwap(None), n);
    }
    ToySwapsDiffer();
    RemovalTakesNewerEntry(Toy(), TOY_CONFIG, ToySwap(None), ToySwap(Some(1)));
  }

  lemma ToySwapsDiffer()
    ensures ToySwap(Some(1)).pkScript == ToySwap(None).pkScript && ToySwap(Some(1)).pkt != ToySwap(None).pkt
  {
    assert ToySwap(Some(1)).pkt.minAmount != ToySwap(None).pkt.minAmount;
  }
}
