/**
  How the machine moves on: each lookup takes a thread one output further, the lookups of a
  thread are one scan, and what can be claimed can be brought to its submission.
*/
module RevealProgress {
  import opened Results
  import opened Bytes
  import opened ChainTypes
  import opened Primitives
  import opened Packet
  import opened Claim
  import opened Claimer
  import opened Reveal
  import opened RevealSystem
  import opened RevealRuns

  // ------------------------------------------------------------- lookups

  /** How many lookups thread t takes from step i to step j. */
  function Lookups(actions: seq<Action>, i: nat, j: nat, t: nat): nat
    requires i <= j <= |actions|
    decreases j - i
  {
    if i == j then 0 else Lookups(actions, i, j - 1, t) + if actions[j - 1] == Lookup(t) then 1 else 0
  }

  lemma LookStep(P: Prims, cfg: Config, s: State, a: Action, t: nat)
    requires Enabled(s, a) && t < |s.threads| && Apply(P, cfg, s, a).threads[t].Looking?
    ensures var th := Apply(P, cfg, s, a).threads[t];
            && s.threads[t].Looking? && th.tx == s.threads[t].tx
            && th.next == s.threads[t].next + (if a == Lookup(t) then 1 else 0)
  {
    if a == Lookup(t) {
      LookupLeads(P, cfg, s, t);
    }
  }

  lemma ThreadsStay(P: Prims, cfg: Config, s: State, a: Action, t: nat)
    requires Enabled(s, a) && t < |s.threads|
    ensures t < |Apply(P, cfg, s, a).threads|
  {
  }

  lemma {:induction false} ThreadThere(
      P: Prims, cfg: Config, actions: seq<Action>, states: seq<State>, i: nat, j: nat, t: nat)
    requires IsRun(P, cfg, actions, states) && i <= j < |states| && t < |states[i].threads|
    ensures t < |states[j].threads|
    decreases j - i
  {
    if i < j {
      ThreadThere(P, cfg, actions, states, i, j - 1, t);
      ThreadsStay(P, cfg, states[j - 1], actions[j - 1], t);
    }
  }

  /** A thread still looking is as many outputs further as it has taken lookups. */
  lemma {:induction false} LookingAdvances(
      P: Prims, cfg: Config, actions: seq<Action>, states: seq<State>, i: nat, j: nat, t: nat)
    requires IsRun(P, cfg, actions, states) && i <= j < |states|
    requires t < |states[i].threads| && t < |states[j].threads| && states[j].threads[t].Looking?
    ensures states[i].threads[t].Looking? && states[j].threads[t].tx == states[i].threads[t].tx
    ensures states[j].threads[t].next == states[i].threads[t].next + Lookups(actions, i, j, t)
    decreases j - i
  {
    if i < j {
      ThreadThere(P, cfg, actions, states, i, j - 1, t);
      LookStep(P, cfg, states[j - 1], actions[j - 1], t);
      LookingAdvances(P, cfg, actions, states, i, j - 1, t);
    }
  }

  /** So a thread that has taken a lookup for each output it had ahead is done looking. */
  lemma LookingEnds(P: Prims, cfg: Config, actions: seq<Action>, states: seq<State>, i: nat, j: nat, t: nat)
    requires P.Lawful() && IsRun(P, cfg, actions, states) && i <= j < |states|
    requires t < |states[i].threads| && states[i].threads[t].Looking?
    requires Lookups(actions, i, j, t) >= |states[i].threads[t].tx.unsigned.outs| - states[i].threads[t].next
    ensures t < |states[j].threads| && !states[j].threads[t].Looking?
  {
    ThreadThere(P, cfg, actions, states, i, j, t);
    if states[j].threads[t].Looking? {
      LookingAdvances(P, cfg, actions, states, i, j, t);
      LookingHasOutput(P, cfg, actions, states, j, t);
    }
  }

  lemma LookingHasOutput(P: Prims, cfg: Config, actions: seq<Action>, states: seq<State>, j: nat, t: nat)
    requires P.Lawful() && IsRun(P, cfg, actions, states) && j < |states|
    requires t < |states[j].threads| && states[j].threads[t].Looking?
    ensures states[j].threads[t].next < |states[j].threads[t].tx.unsigned.outs|
  {
    Invariant(P, cfg, actions, states, j);
    assert ThreadOk(P, cfg, states[j].threads[t], states[j].submitted);
  }

  /** An output that stays paid is hit, or an earlier one is, once the thread's lookups have come to it. */
  lemma PaidOutputIsReached(
      P: Prims, cfg: Config, actions: seq<Action>, states: seq<State>, i: nat, j: nat, t: nat, tx: Psbt, n: nat)
    requires P.Lawful() && IsRun(P, cfg, actions, states) && i <= j < |states|
    requires LooksToward(states[i], t, tx, n)
    requires forall k :: i <= k < j ==> Paid(states[k].registry, tx, n)
    requires Lookups(actions, i, j, t) > n - states[i].threads[t].next
    ensures FoundBetween(P, actions, states, i, j, t, tx, n)
  {
    PaidOutputIsFound(P, cfg, actions, states, i, j, t, tx, n);
    if LooksToward(states[j], t, tx, n) {
      LookingAdvances(P, cfg, actions, states, i, j, t);
    }
  }

  // ------------------------------------------------------ lookups as a scan

  /** The registries those lookups found, in order. */
  function ViewsOf(actions: seq<Action>, states: seq<State>, i: nat, j: nat, t: nat): (vs: seq<Registry>)
    requires i <= j <= |actions| < |states|
    ensures |vs| == Lookups(actions, i, j, t)
    decreases j - i
  {
    if i == j then []
    else ViewsOf(actions, states, i, j - 1, t) + if actions[j - 1] == Lookup(t) then [states[j - 1].registry] else []
  }

  predicate AllMiss(P: Prims, cfg: Config, vs: seq<Registry>, tx: Psbt) {
    |vs| <= |tx.unsigned.outs| && forall q: nat :: q < |vs| ==> MatchAt(P, cfg, vs[q], tx, q) == None
  }

  lemma MissStep(P: Prims, cfg: Config, s: State, t: nat)
    requires t < |s.threads| && s.threads[t].Looking?
        && AfterLookup(P, cfg, s, s.threads[t].tx, s.threads[t].next).Looking?
    ensures s.threads[t].next < |s.threads[t].tx.unsigned.outs|
    ensures MatchAt(P, cfg, s.registry, s.threads[t].tx, s.threads[t].next) == None
  {
  }

  lemma OneMoreMiss(P: Prims, cfg: Config, vs: seq<Registry>, reg: Registry, tx: Psbt)
    requires AllMiss(P, cfg, vs, tx) && |vs| < |tx.unsigned.outs| && MatchAt(P, cfg, reg, tx, |vs|) == None
    ensures AllMiss(P, cfg, vs + [reg], tx)
  {
    forall q: nat | q < |vs + [reg]|
      ensures MatchAt(P, cfg, (vs + [reg])[q], tx, q) == None
    {
      assert q < |vs| ==> (vs + [reg])[q] == vs[q];
    }
  }

  /** While a thread is looking, all of its lookups so far have missed. */
  lemma {:induction false} LookedInVain(
      P: Prims, cfg: Config, actions: seq<Action>, states: seq<State>, i: nat, j: nat, t: nat, tx: Psbt)
    requires IsRun(P, cfg, actions, states) && i <= j < |states|
    requires t < |states[i].threads| && states[i].threads[t] == Looking(tx, 0)
    requires t < |states[j].threads| && states[j].threads[t].Looking?
    ensures AllMiss(P, cfg, ViewsOf(actions, states, i, j, t), tx)
    decreases j - i
  {
    if i < j {
      ThreadThere(P, cfg, actions, states, i, j - 1, t);
      LookStep(P, cfg, states[j - 1], actions[j - 1], t);
      LookedInVain(P, cfg, actions, states, i, j - 1, t, tx);
      if actions[j - 1] == Lookup(t) {
        LookingAdvances(P, cfg, actions, states, i, j - 1, t);
        AnotherMiss(P, cfg, states[j - 1], t, ViewsOf(actions, states, i, j - 1, t), tx);
      }
    }
  }

  /** A lookup after which the thread is still looking was one more miss. */
  lemma AnotherMiss(P: Prims, cfg: Config, s: State, t: nat, vs: seq<Registry>, tx: Psbt)
    requires t < |s.threads| && s.threads[t] == Looking(tx, |vs|) && AllMiss(P, cfg, vs, tx)
    requires Apply(P, cfg, s, Lookup(t)).threads[t].Looking?
    ensures AllMiss(P, cfg, vs + [s.registry], tx)
  {
    LookupLeads(P, cfg, s, t);
    MissStep(P, cfg, s, t);
    OneMoreMiss(P, cfg, vs, s.registry, tx);
  }

  /**
    A thread's lookups, however they are interleaved, are the method's scan of the registries
    they found: a hit is that scan's match, whatever the later outputs would have found, and
    a thread that ends without one has scanned all outputs for nothing.
  */
  lemma LookupsAreTheScan(
      P: Prims, cfg: Config, actions: seq<Action>, states: seq<State>, i: nat, j: nat, t: nat, tx: Psbt)
    requires P.Lawful() && IsRun(P, cfg, actions, states) && i <= j < |actions| && actions[j] == Lookup(t)
    requires t < |states[i].threads| && states[i].threads[t] == Looking(tx, 0)
    ensures t < |states[j + 1].threads|
    ensures var vs := ViewsOf(actions, states, i, j + 1, t);
            |vs| <= |tx.unsigned.outs| &&
            match states[j + 1].threads[t]
            case Looking(tx', next) => tx' == tx && next == |vs| < |tx.unsigned.outs| && AllMiss(P, cfg, vs, tx)
            case Gating(m, _, _) =>
              forall views: seq<Registry> :: vs <= views && |views| == |tx.unsigned.outs| ==>
                MatchOver(P, cfg, views, tx, 0) == Some(m)
            case _ => |vs| == |tx.unsigned.outs| && MatchOver(P, cfg, vs, tx, 0) == None
  {
    var s := states[j];
    LookedInVain(P, cfg, actions, states, i, j, t, tx);
    LookingAdvances(P, cfg, actions, states, i, j, t);
    LookingHasOutput(P, cfg, actions, states, j, t);
    LookupLeads(P, cfg, s, t);
    LastLookup(P, cfg, s, ViewsOf(actions, states, i, j, t), tx);
  }

  /** One lookup after a number of misses. */
  lemma LastLookup(P: Prims, cfg: Config, s: State, vs: seq<Registry>, tx: Psbt)
    requires AllMiss(P, cfg, vs, tx) && |vs| < |tx.unsigned.outs|
    ensures var all := vs + [s.registry];
            match AfterLookup(P, cfg, s, tx, |vs|)
            case Looking(tx', next) => tx' == tx && next == |all| < |tx.unsigned.outs| && AllMiss(P, cfg, all, tx)
            case Gating(m, _, _) =>
              forall views: seq<Registry> :: all <= views && |views| == |tx.unsigned.outs| ==>
                MatchOver(P, cfg, views, tx, 0) == Some(m)
            case _ => |all| == |tx.unsigned.outs| && MatchOver(P, cfg, all, tx, 0) == None
  {
    var all, n := vs + [s.registry], |vs|;
    var found := MatchAt(P, cfg, s.registry, tx, n);
    if found.None? {
      OneMoreMiss(P, cfg, vs, s.registry, tx);
      if n + 1 == |tx.unsigned.outs| {
        MissedAll(P, cfg, all, tx);
      }
    } else {
      forall views: seq<Registry> | all <= views && |views| == |tx.unsigned.outs|
        ensures MatchOver(P, cfg, views, tx, 0) == Some(found.value)
      {
        HitAfterMisses(P, cfg, vs, s.registry, views, tx, found.value);
      }
    }
  }

  lemma MissedAll(P: Prims, cfg: Config, vs: seq<Registry>, tx: Psbt)
    requires AllMiss(P, cfg, vs, tx) && |vs| == |tx.unsigned.outs|
    ensures MatchOver(P, cfg, vs, tx, 0) == None
  {
    MatchOverIs(P, cfg, vs, tx, MatchedClaim(OutPoint([], 0), 0, None, ClaimCredentials([], [], [], [])));
  }

  lemma HitAfterMisses(
      P: Prims, cfg: Config, vs: seq<Registry>, reg: Registry, views: seq<Registry>, tx: Psbt, m: MatchedClaim)
    requires AllMiss(P, cfg, vs, tx) && vs + [reg] <= views && |views| == |tx.unsigned.outs|
    requires MatchAt(P, cfg, reg, tx, |vs|) == Some(m)
    ensures MatchOver(P, cfg, views, tx, 0) == Some(m)
  {
    assert views[|vs|] == (vs + [reg])[|vs|];
    forall j: nat | j < |vs|
      ensures MatchAt(P, cfg, views[j], tx, j) == None
    {
      assert views[j] == (vs + [reg])[j] && (vs + [reg])[j] == vs[j];
    }
    assert m.outpoint.index == |vs|;
    MatchOverIs(P, cfg, views, tx, m);
  }

  // ------------------------------------------------------------ removals

  /** A thread on the reveal path, past its lookup. */
  predicate Revealing(th: Thread) {
    (th.Gating? && th.path.FromRegistry?) || (th.Solving? && th.path.FromRegistry?) || th.Removing?
  }

  lemma RevealingStep(P: Prims, cfg: Config, s: State, a: Action, t: nat)
    requires Enabled(s, a) && t < |Apply(P, cfg, s, a).threads| && Revealing(Apply(P, cfg, s, a).threads[t])
    ensures t < |s.threads|
    ensures || (a == Lookup(t) && Apply(P, cfg, s, a).threads[t].Gating?)
            || (Revealing(s.threads[t]) && s.threads[t].m == Apply(P, cfg, s, a).threads[t].m)
  {
  }

  /** Only what was matched from the registry is ever removed from it: an encrypted claim removes nothing. */
  lemma {:induction false} RevealingWasLookedUp(
      P: Prims, cfg: Config, actions: seq<Action>, states: seq<State>, j: nat, t: nat)
    requires IsRun(P, cfg, actions, states) && j < |states| && t < |states[j].threads|
        && Revealing(states[j].threads[t])
    ensures exists i :: 0 <= i < j && actions[i] == Lookup(t) && t < |states[i + 1].threads|
                        && states[i + 1].threads[t].Gating? && states[i + 1].threads[t].m == states[j].threads[t].m
  {
    if j > 0 {
      RevealingStep(P, cfg, states[j - 1], actions[j - 1], t);
      if Revealing(states[j - 1].threads[t]) && states[j - 1].threads[t].m == states[j].threads[t].m {
        RevealingWasLookedUp(P, cfg, actions, states, j - 1, t);
      }
    }
  }

  // ------------------------------------------------------ runs that go on

  lemma ExtendRun(
      P: Prims, cfg: Config, actions: seq<Action>, states: seq<State>, a: Action)
    returns (after: seq<State>)
    requires IsRun(P, cfg, actions, states) && Enabled(states[|actions|], a)
    ensures IsRun(P, cfg, actions + [a], after)
    ensures states <= after && after[|actions| + 1] == Apply(P, cfg, states[|actions|], a)
  {
    var more := actions + [a];
    after := states + [Apply(P, cfg, states[|actions|], a)];
    forall i | 0 <= i < |more|
      ensures Enabled(after[i], more[i]) && after[i + 1] == Apply(P, cfg, after[i], more[i])
    {
      if i < |actions| {
        assert after[i] == states[i] && after[i + 1] == states[i + 1] && more[i] == actions[i];
      } else {
        assert after[i] == states[|actions|] && more[i] == a;
      }
    }
  }

  lemma MatchedGoesOn(
      P: Prims, cfg: Config, actions: seq<Action>, states: seq<State>, t: nat, m: MatchedClaim, pkt: ClaimPacket,
      path: Path, accepts: bool)
    returns (more: seq<Action>, after: seq<State>)
    requires IsRun(P, cfg, actions, states) && Submittable(P, cfg, m).Some?
    requires t < |states[|actions|].threads| && states[|actions|].threads[t] == Gating(m, pkt, path)
    ensures IsRun(P, cfg, more, after) && actions <= more
    ensures after[|more|].submitted
            == states[|actions|].submitted + [Submission(m, pkt, Submittable(P, cfg, m).value, accepts)]
  {
    var s := states[|actions|];
    GateOpens(P, cfg, s, t, m, pkt, path);
    var one := ExtendRun(P, cfg, actions, states, Gate(t, Unspent(m)));
    SubmitsNow(P, cfg, Become(s, t, Solving(m, pkt, path)), t, m, pkt, path, accepts);
    more := actions + [Gate(t, Unspent(m))] + [SubmitClaim(t, accepts)];
    after := ExtendRun(P, cfg, actions + [Gate(t, Unspent(m))], one, SubmitClaim(t, accepts));
  }

  /** The reply that lists the matched output. */
  function Unspent(m: MatchedClaim): Option<set<Vtxo>> { Some({Vtxo(m.outpoint, m.credentials.pkScript)}) }

  lemma GateOpens(P: Prims, cfg: Config, s: State, t: nat, m: MatchedClaim, pkt: ClaimPacket, path: Path)
    requires t < |s.threads| && s.threads[t] == Gating(m, pkt, path)
    ensures Apply(P, cfg, s, Gate(t, Unspent(m))) == Become(s, t, Solving(m, pkt, path))
  {
    assert Vtxo(m.outpoint, m.credentials.pkScript) in Unspent(m).value;
  }

  lemma SubmitsNow(
      P: Prims, cfg: Config, s: State, t: nat, m: MatchedClaim, pkt: ClaimPacket, path: Path, accepts: bool)
    requires t < |s.threads| && s.threads[t] == Solving(m, pkt, path) && Submittable(P, cfg, m).Some?
    ensures Apply(P, cfg, s, SubmitClaim(t, accepts)).submitted
            == s.submitted + [Submission(m, pkt, Submittable(P, cfg, m).value, accepts)]
  {
  }

  /** From any point of any run, a decodable encrypted transaction can be brought to its submission. */
  lemma EncryptedCanBeSubmitted(
      P: Prims, cfg: Config, actions: seq<Action>, states: seq<State>, tx: Psbt, ext: Extension, accepts: bool)
    returns (more: seq<Action>, after: seq<State>)
    requires IsRun(P, cfg, actions, states) && Decoded(P, cfg, tx, ext).Some?
    requires Submittable(P, cfg, Decoded(P, cfg, tx, ext).value.1).Some?
    ensures var (pkt, m) := Decoded(P, cfg, tx, ext).value;
            && IsRun(P, cfg, more, after) && actions + [ObserveEncrypted(tx, ext)] <= more
            && after[|more|].submitted
               == states[|actions|].submitted + [Submission(m, pkt, Submittable(P, cfg, m).value, accepts)]
  {
    var (pkt, m) := Decoded(P, cfg, tx, ext).value;
    var s := states[|actions|];
    EncryptedIsMatched(P, cfg, s, tx, ext);
    var one := ExtendRun(P, cfg, actions, states, ObserveEncrypted(tx, ext));
    more, after := MatchedGoesOn(
      P, cfg, actions + [ObserveEncrypted(tx, ext)], one, |s.threads|, m, pkt, Encrypted, accepts);
  }

  lemma EncryptedIsMatched(P: Prims, cfg: Config, s: State, tx: Psbt, ext: Extension)
    requires Decoded(P, cfg, tx, ext).Some?
    ensures var (pkt, m) := Decoded(P, cfg, tx, ext).value;
            Apply(P, cfg, s, ObserveEncrypted(tx, ext)) == Spawn(s, Gating(m, pkt, Encrypted))
  {
  }

  lemma LookupMoves(P: Prims, cfg: Config, s: State, t: nat, tx: Psbt, k: nat)
    requires t < |s.threads| && s.threads[t] == Looking(tx, k)
    ensures Apply(P, cfg, s, Lookup(t)) == Become(s, t, AfterLookup(P, cfg, s, tx, k))
  {
  }

  /** Lookups alone take a thread to the match the registry has for its transaction. */
  lemma {:induction false} LookupsReachMatch(
      P: Prims, cfg: Config, actions: seq<Action>, states: seq<State>, t: nat, tx: Psbt, k: nat)
    returns (more: seq<Action>, after: seq<State>, pkt: ClaimPacket)
    requires IsRun(P, cfg, actions, states)
    requires t < |states[|actions|].threads| && states[|actions|].threads[t] == Looking(tx, k)
    requires MatchFrom(P, cfg, states[|actions|].registry, tx, k).Some?
    ensures IsRun(P, cfg, more, after) && actions <= more
    ensures after[|more|].submitted == states[|actions|].submitted
    ensures t < |after[|more|].threads|
    ensures after[|more|].threads[t]
            == Gating(MatchFrom(P, cfg, states[|actions|].registry, tx, k).value, pkt, FromRegistry)
    decreases |tx.unsigned.outs| - k
  {
    var s := states[|actions|];
    LookupMoves(P, cfg, s, t, tx, k);
    more := actions + [Lookup(t)];
    after := ExtendRun(P, cfg, actions, states, Lookup(t));
    var found := MatchAt(P, cfg, s.registry, tx, k);
    if found.Some? {
      pkt := AfterLookup(P, cfg, s, tx, k).pkt;
    } else {
      more, after, pkt := LookupsReachMatch(P, cfg, more, after, t, tx, k + 1);
    }
  }

  /**
    From any point of any run, a transaction an output of which pays a registered script its
    minimum can be brought to the submission of that output's claim, or an earlier output's.
  */
  lemma PaidCanBeSubmitted(
      P: Prims, cfg: Config, actions: seq<Action>, states: seq<State>, tx: Psbt, n: nat, accepts: bool)
    returns (more: seq<Action>, after: seq<State>, sub: Submission)
    requires P.Lawful() && IsRun(P, cfg, actions, states) && Paid(states[|actions|].registry, tx, n)
    requires MatchFrom(P, cfg, states[|actions|].registry, tx, 0).Some? ==>
               Submittable(P, cfg, MatchFrom(P, cfg, states[|actions|].registry, tx, 0).value).Some?
    ensures IsRun(P, cfg, more, after) && actions + [Observe(tx)] <= more
    ensures after[|more|].submitted == states[|actions|].submitted + [sub]
    ensures sub.m.sourceTx == Some(tx.unsigned) && sub.m.outpoint.index <= n && sub.accepted == accepts
  {
    var s := states[|actions|];
    PaidMatches(P, cfg, actions, states, tx, n);
    var m := MatchFrom(P, cfg, s.registry, tx, 0).value;
    var two, looked, pkt := ShownReachesMatch(P, cfg, actions, states, tx, m);
    more, after := MatchedGoesOn(P, cfg, two, looked, |s.threads|, m, pkt, FromRegistry, accepts);
    sub := Submission(m, pkt, Submittable(P, cfg, m).value, accepts);
  }

  lemma PaidMatches(P: Prims, cfg: Config, actions: seq<Action>, states: seq<State>, tx: Psbt, n: nat)
    requires P.Lawful() && IsRun(P, cfg, actions, states) && Paid(states[|actions|].registry, tx, n)
    ensures var r := MatchFrom(P, cfg, states[|actions|].registry, tx, 0);
            r.Some? && r.value.sourceTx == Some(tx.unsigned) && r.value.outpoint.index <= n
  {
    Invariant(P, cfg, actions, states, |actions|);
    PaidOutputIsMatched(P, cfg, states[|actions|].registry, tx, n);
  }

  lemma ObserveStarts(P: Prims, cfg: Config, s: State, tx: Psbt)
    requires tx.unsigned.outs != []
    ensures Apply(P, cfg, s, Observe(tx)) == Spawn(s, Looking(tx, 0))
  {
  }

  lemma ShownReachesMatch(
      P: Prims, cfg: Config, actions: seq<Action>, states: seq<State>, tx: Psbt, m: MatchedClaim)
    returns (more: seq<Action>, after: seq<State>, pkt: ClaimPacket)
    requires IsRun(P, cfg, actions, states) && MatchFrom(P, cfg, states[|actions|].registry, tx, 0) == Some(m)
    ensures IsRun(P, cfg, more, after) && actions + [Observe(tx)] <= more
    ensures after[|more|].submitted == states[|actions|].submitted
    ensures |states[|actions|].threads| < |after[|more|].threads|
    ensures after[|more|].threads[|states[|actions|].threads|] == Gating(m, pkt, FromRegistry)
  {
    var s := states[|actions|];
    ObserveStarts(P, cfg, s, tx);
    var one := ExtendRun(P, cfg, actions, states, Observe(tx));
    more, after, pkt := LookupsReachMatch(P, cfg, actions + [Observe(tx)], one, |s.threads|, tx, 0);
  }
}
