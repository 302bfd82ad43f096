/**
  All interleavings of the claim engine: submissions with their purge, reveal matches
  (streamed or for an already funded address), encrypted matches, spendability gates,
  claims and removals. Every action is one lock section or one external reply; the
  replies, the arriving transactions and the clock are arbitrary.
*/
module RevealSystem {
  import opened Results
  import opened Bytes
  import opened ChainTypes
  import opened Primitives
  import opened Packet
  import opened Contract
  import opened Claim
  import opened Claimer
  import opened Reveal

  datatype Path = FromRegistry | Encrypted

  /** A goroutine's position in Match and Solve, with the packet its claim was matched from. */
  datatype Thread =
    | Looking(tx: Psbt, next: nat)
    | Gating(m: MatchedClaim, pkt: ClaimPacket, path: Path)
    | Solving(m: MatchedClaim, pkt: ClaimPacket, path: Path)
    | Removing(m: MatchedClaim, pkt: ClaimPacket)
    | Finished

  datatype Submission = Submission(m: MatchedClaim, pkt: ClaimPacket, bundle: ClaimBundle, accepted: bool)

  datatype State = State(now: int, registry: Registry, threads: seq<Thread>, submitted: seq<Submission>)

  const INITIAL := State(0, map[], [], [])

  datatype Action =
    | Tick(elapsed: nat)
    | Submit(pkScript: Option<bytes>, taptree: seq<string>, pkt: ClaimPacket)
    | Observe(tx: Psbt)
    | ObserveEncrypted(tx: Psbt, ext: Extension)
    | Lookup(t: nat)
    | Gate(t: nat, reply: Option<set<Vtxo>>)
    | SubmitClaim(t: nat, accepts: bool)
    | Remove(t: nat)

  predicate Enabled(s: State, a: Action) {
    match a
    case Lookup(t) => t < |s.threads| && s.threads[t].Looking?
    case Gate(t, _) => t < |s.threads| && s.threads[t].Gating?
    case SubmitClaim(t, _) => t < |s.threads| && s.threads[t].Solving?
    case Remove(t) => t < |s.threads| && s.threads[t].Removing?
    case _ => true
  }

  function Spawn(s: State, t: Thread): State { s.(threads := s.threads + [t]) }

  function Become(s: State, i: nat, t: Thread): State
    requires i < |s.threads|
  {
    s.(threads := s.threads[i := t])
  }

  /** A thread that is shown a transaction; one without outputs leaves nothing to look up. */
  function Starting(tx: Psbt): Thread {
    if tx.unsigned.outs == [] then Finished else Looking(tx, 0)
  }

  function AfterLookup(P: Prims, cfg: Config, s: State, tx: Psbt, k: nat): Thread {
    if k >= |tx.unsigned.outs| then Finished
    else match MatchAt(P, cfg, s.registry, tx, k)
      case None => if k + 1 < |tx.unsigned.outs| then Looking(tx, k + 1) else Finished
      case Some(m) => Gating(m, s.registry[HexEncode(tx.unsigned.outs[k].pkScript)].packet, FromRegistry)
  }

  function AfterSubmit(P: Prims, cfg: Config, s: State, i: nat, accepts: bool): State
    requires i < |s.threads| && s.threads[i].Solving?
  {
    var Solving(m, pkt, path) := s.threads[i];
    match Submittable(P, cfg, m)
    case None => Become(s, i, Finished)
    case Some(b) =>
      var next := if accepts && path == FromRegistry then Removing(m, pkt) else Finished;
      Become(s, i, next).(submitted := s.submitted + [Submission(m, pkt, b, accepts)])
  }

  function Apply(P: Prims, cfg: Config, s: State, a: Action): State
    requires Enabled(s, a)
  {
    match a
    case Tick(d) => s.(now := s.now + d)
    case Submit(pkScript, taptree, pkt) =>
      (match Checked(P, cfg, pkScript, taptree, pkt)
       case Err(_) => s
       case Ok(key) => s.(registry := Registered(s.registry, key, pkt, taptree, s.now).1))
    case Observe(tx) => Spawn(s, Starting(tx))
    case ObserveEncrypted(tx, ext) =>
      (match Decoded(P, cfg, tx, ext)
       case None => s
       case Some((pkt, m)) => Spawn(s, Gating(m, pkt, Encrypted)))
    case Lookup(t) => Become(s, t, AfterLookup(P, cfg, s, s.threads[t].tx, s.threads[t].next))
    case Gate(t, reply) =>
      var Gating(m, pkt, path) := s.threads[t];
      Become(s, t, if GateSpendable(reply, m) then Solving(m, pkt, path) else Finished)
    case SubmitClaim(t, accepts) => AfterSubmit(P, cfg, s, t, accepts)
    case Remove(t) =>
      Become(s, t, Finished).(registry := s.registry - {HexEncode(s.threads[t].m.credentials.pkScript)})
  }

  /** A run: the states an action sequence passes through. */
  ghost predicate IsRun(P: Prims, cfg: Config, actions: seq<Action>, states: seq<State>) {
    && |states| == |actions| + 1
    && states[0] == INITIAL
    && forall i :: 0 <= i < |actions| ==>
         Enabled(states[i], actions[i]) && states[i + 1] == Apply(P, cfg, states[i], actions[i])
  }

  // ----------------------------------------------------------- invariants

  ghost predicate SafeSubmission(P: Prims, cfg: Config, sub: Submission) {
    && Claimable(P, cfg, sub.m, sub.pkt)
    && Validated(sub.pkt.arkadeScript).Ok?
    && var out := sub.m.sourceTx.value.outs[sub.m.outpoint.index];
       && PaysReceiver(P, sub.m, cfg.checkpointTapscript, sub.bundle)
       && sub.bundle.ark.tx.outs[0] == TxOut(out.value, Validated(sub.pkt.arkadeScript).value)
       && LocksOpen(P, sub.m, cfg.signerPubKey, cfg.emulatorPubKey, sub.bundle)
  }

  predicate AcceptedIn(m: MatchedClaim, submitted: seq<Submission>) {
    exists sub <- submitted :: sub.m == m && sub.accepted
  }

  ghost predicate ThreadOk(P: Prims, cfg: Config, t: Thread, submitted: seq<Submission>) {
    match t
    case Looking(tx, next) => next < |tx.unsigned.outs|
    case Gating(m, pkt, _) => Claimable(P, cfg, m, pkt)
    case Solving(m, pkt, _) => Claimable(P, cfg, m, pkt)
    case Removing(m, pkt) => Claimable(P, cfg, m, pkt) && AcceptedIn(m, submitted)
    case Finished => true
  }

  ghost predicate ThreadsOk(P: Prims, cfg: Config, s: State) {
    forall i :: 0 <= i < |s.threads| ==> ThreadOk(P, cfg, s.threads[i], s.submitted)
  }

  ghost predicate SubmissionsOk(P: Prims, cfg: Config, s: State) {
    forall i :: 0 <= i < |s.submitted| ==> SafeSubmission(P, cfg, s.submitted[i])
  }

  ghost predicate RegistryOk(P: Prims, cfg: Config, s: State) {
    && RegistryBinds(P, cfg, s.registry)
    && |s.registry| <= MAX_REGISTRATIONS
    && forall key :: key in s.registry ==> s.registry[key].expireAt <= s.now + REGISTRATION_TTL
  }

  ghost predicate Inv(P: Prims, cfg: Config, s: State) {
    RegistryOk(P, cfg, s) && ThreadsOk(P, cfg, s) && SubmissionsOk(P, cfg, s)
  }

  /** Only submissions and removals touch the registry. */
  lemma OthersLeaveRegistry(P: Prims, cfg: Config, s: State, a: Action)
    requires Enabled(s, a) && !a.Submit? && !a.Remove?
    ensures Apply(P, cfg, s, a).registry == s.registry && Apply(P, cfg, s, a).now >= s.now
  {
  }

  lemma RegistrySubmitKept(P: Prims, cfg: Config, s: State, key: string, taptree: seq<string>, pkt: ClaimPacket)
    requires RegistryOk(P, cfg, s) && EntryBinds(P, cfg, key, pkt, taptree)
    ensures RegistryOk(P, cfg, s.(registry := Registered(s.registry, key, pkt, taptree, s.now).1))
  {
    RegisterMeans(s.registry, key, pkt, taptree, s.now);
    RegisteredBinds(P, cfg, s.registry, key, pkt, taptree, s.now);
    var reg' := Registered(s.registry, key, pkt, taptree, s.now).1;
    forall k | k in reg'
      ensures reg'[k].expireAt <= s.now + REGISTRATION_TTL
    {
      RegisteredEntries(s.registry, key, pkt, taptree, s.now, k);
    }
  }

  lemma RegistryRemoveKept(P: Prims, cfg: Config, s: State, key: string)
    requires RegistryOk(P, cfg, s)
    ensures RegistryOk(P, cfg, s.(registry := s.registry - {key}))
  {
    var rest := s.registry - {key};
    assert rest.Keys <= s.registry.Keys;
    SubsetSize(rest.Keys, s.registry.Keys);
  }

  lemma RegistryKept(P: Prims, cfg: Config, s: State, a: Action)
    requires RegistryOk(P, cfg, s) && Enabled(s, a)
    ensures RegistryOk(P, cfg, Apply(P, cfg, s, a))
  {
    if a.Submit? {
      var checked := Checked(P, cfg, a.pkScript, a.taptree, a.pkt);
      if checked.Ok? {
        CheckedIffBinds(P, cfg, a.pkScript, a.taptree, a.pkt);
        RegistrySubmitKept(P, cfg, s, checked.value, a.taptree, a.pkt);
      }
    } else if a.Remove? {
      RegistryRemoveKept(P, cfg, s, HexEncode(s.threads[a.t].m.credentials.pkScript));
    } else {
      OthersLeaveRegistry(P, cfg, s, a);
    }
  }

  lemma BecomeKeeps(P: Prims, cfg: Config, s: State, i: nat, t: Thread)
    requires ThreadsOk(P, cfg, s) && i < |s.threads| && ThreadOk(P, cfg, t, s.submitted)
    ensures ThreadsOk(P, cfg, Become(s, i, t))
  {
  }

  lemma MoreSubmissionsKeep(P: Prims, cfg: Config, s: State, sub: Submission)
    requires ThreadsOk(P, cfg, s)
    ensures ThreadsOk(P, cfg, s.(submitted := s.submitted + [sub]))
  {
    forall i | 0 <= i < |s.threads|
      ensures ThreadOk(P, cfg, s.threads[i], s.submitted + [sub])
    {
      if s.threads[i].Removing? {
        var earlier :| earlier in s.submitted && earlier.m == s.threads[i].m && earlier.accepted;
        assert earlier in s.submitted + [sub];
      }
    }
  }

  lemma SubmitKept(P: Prims, cfg: Config, s: State, i: nat, accepts: bool)
    requires P.Lawful() && ThreadsOk(P, cfg, s) && SubmissionsOk(P, cfg, s)
    requires i < |s.threads| && s.threads[i].Solving?
    ensures ThreadsOk(P, cfg, AfterSubmit(P, cfg, s, i, accepts))
    ensures SubmissionsOk(P, cfg, AfterSubmit(P, cfg, s, i, accepts))
  {
    var Solving(m, pkt, path) := s.threads[i];
    assert ThreadOk(P, cfg, s.threads[i], s.submitted);
    var built := Submittable(P, cfg, m);
    if built.None? {
      BecomeKeeps(P, cfg, s, i, Finished);
    } else {
      var sub := Submission(m, pkt, built.value, accepts);
      ClaimablePays(P, cfg, m, pkt);
      ClaimSatisfiesItsLocks(P, m, cfg.checkpointTapscript, cfg.signerPubKey, cfg.emulatorPubKey);
      MoreSubmissionsKeep(P, cfg, s, sub);
      assert sub in s.submitted + [sub];
      BecomeKeeps(P, cfg, s.(submitted := s.submitted + [sub]), i,
        if accepts && path == FromRegistry then Removing(m, pkt) else Finished);
    }
  }

  lemma LookupKept(P: Prims, cfg: Config, s: State, t: nat)
    requires Inv(P, cfg, s) && t < |s.threads| && s.threads[t].Looking?
    ensures ThreadOk(P, cfg, AfterLookup(P, cfg, s, s.threads[t].tx, s.threads[t].next), s.submitted)
  {
    var Looking(tx, k) := s.threads[t];
    if k < |tx.unsigned.outs| && MatchAt(P, cfg, s.registry, tx, k).Some? {
      LookupClaimable(P, cfg, s.registry, tx, k);
    }
  }

  lemma SpawnKeeps(P: Prims, cfg: Config, s: State, t: Thread)
    requires ThreadsOk(P, cfg, s) && ThreadOk(P, cfg, t, s.submitted)
    ensures ThreadsOk(P, cfg, Spawn(s, t))
  {
  }

  lemma EncryptedKept(P: Prims, cfg: Config, s: State, tx: Psbt, ext: Extension)
    requires ThreadsOk(P, cfg, s) && Decoded(P, cfg, tx, ext).Some?
    ensures var (pkt, m) := Decoded(P, cfg, tx, ext).value;
            ThreadsOk(P, cfg, Spawn(s, Gating(m, pkt, Encrypted)))
  {
    DecodedIsClaimable(P, cfg, tx, ext);
    var (pkt, m) := Decoded(P, cfg, tx, ext).value;
    SpawnKeeps(P, cfg, s, Gating(m, pkt, Encrypted));
  }

  lemma GateKept(P: Prims, cfg: Config, s: State, t: nat, reply: Option<set<Vtxo>>)
    requires ThreadsOk(P, cfg, s) && t < |s.threads| && s.threads[t].Gating?
    ensures var Gating(m, pkt, path) := s.threads[t];
            ThreadsOk(P, cfg, Become(s, t, if GateSpendable(reply, m) then Solving(m, pkt, path) else Finished))
  {
    assert ThreadOk(P, cfg, s.threads[t], s.submitted);
  }

  lemma ThreadsKept(P: Prims, cfg: Config, s: State, a: Action)
    requires P.Lawful() && Inv(P, cfg, s) && Enabled(s, a)
    ensures ThreadsOk(P, cfg, Apply(P, cfg, s, a)) && SubmissionsOk(P, cfg, Apply(P, cfg, s, a))
  {
    if a.SubmitClaim? {
      SubmitKept(P, cfg, s, a.t, a.accepts);
    } else if a.ObserveEncrypted? {
      if Decoded(P, cfg, a.tx, a.ext).Some? {
        EncryptedKept(P, cfg, s, a.tx, a.ext);
      }
    } else if a.Lookup? {
      LookupKept(P, cfg, s, a.t);
      BecomeKeeps(P, cfg, s, a.t, AfterLookup(P, cfg, s, s.threads[a.t].tx, s.threads[a.t].next));
    } else if a.Gate? {
      GateKept(P, cfg, s, a.t, a.reply);
    } else if a.Remove? {
      BecomeKeeps(P, cfg, s, a.t, Finished);
    } else if a.Observe? {
      SpawnKeeps(P, cfg, s, Starting(a.tx));
    }
  }

  lemma {:induction false} Invariant(P: Prims, cfg: Config, actions: seq<Action>, states: seq<State>, i: nat)
    requires P.Lawful() && IsRun(P, cfg, actions, states) && i < |states|
    ensures Inv(P, cfg, states[i])
  {
    if i > 0 {
      Invariant(P, cfg, actions, states, i - 1);
      RegistryKept(P, cfg, states[i - 1], actions[i - 1]);
      ThreadsKept(P, cfg, states[i - 1], actions[i - 1]);
    }
  }

  // --------------------------------------------------------- main results

  /**
    Run safety: whatever the interleaving, every claim submitted spends the output its
    outpoint names, at the script its taptree derives, carrying at least the packet's
    minimum amount, pays exactly that value to the receiver of the packet's covenant, and
    satisfies the condition and the covenant it is locked by.
  */
  lemma RunSafety(P: Prims, cfg: Config, actions: seq<Action>, states: seq<State>, i: nat, k: nat)
    requires P.Lawful() && IsRun(P, cfg, actions, states)
    requires i < |states| && k < |states[i].submitted|
    ensures var sub := states[i].submitted[k];
            && NamesOutput(P, sub.m) && PaysReceiver(P, sub.m, cfg.checkpointTapscript, sub.bundle)
            && var out := sub.m.sourceTx.value.outs[sub.m.outpoint.index];
               && P.decodeClosures(sub.m.credentials.taptree).Some?
               && P.OutputScript(P.decodeClosures(sub.m.credentials.taptree).value) == Some(out.pkScript)
               && (sub.pkt.minAmount.Some? ==> 0 <= sub.pkt.minAmount.value <= out.value)
               && Decrypted(P, cfg.secretKey, sub.pkt) == Ok(sub.m.credentials.preimage)
               && (exists receiver :: PayTo(receiver) == Ok(sub.pkt.arkadeScript)
                                      && sub.bundle.ark.tx.outs[0] == TxOut(out.value, receiver))
               && sub.bundle.checkpoints[0].tx.ins[0].outpoint
                    == OutPoint(P.txHash(sub.m.sourceTx.value), sub.m.outpoint.index)
               && sub.bundle.checkpoints[0].tx.ins[0].value == out.value
               && sub.bundle.checkpoints[0].tx.ins[0].taptree == sub.m.credentials.taptree
               && sub.bundle.checkpoints[0].tx.exitTapscript == Some(cfg.checkpointTapscript)
               && LocksOpen(P, sub.m, cfg.signerPubKey, cfg.emulatorPubKey, sub.bundle)
  {
    Invariant(P, cfg, actions, states, i);
    var sub := states[i].submitted[k];
    assert SafeSubmission(P, cfg, sub);
    var out := sub.m.sourceTx.value.outs[sub.m.outpoint.index];
    AmountSurvives(out.value);
    ValidatedIffPayTo(sub.pkt.arkadeScript, Validated(sub.pkt.arkadeScript).value);
  }

  /** In every reachable state each entry still binds, so a hit declines only for too little value. */
  lemma EntriesAlwaysBind(
      P: Prims, cfg: Config, actions: seq<Action>, states: seq<State>, i: nat, key: string, tx: Psbt, k: nat)
    requires P.Lawful() && IsRun(P, cfg, actions, states) && i < |states|
    requires key in states[i].registry
    ensures |states[i].registry| <= MAX_REGISTRATIONS
    ensures var r := states[i].registry[key];
            EntryBinds(P, cfg, key, r.packet, r.taptree) && r.expireAt <= states[i].now + REGISTRATION_TTL
    ensures k < |tx.unsigned.outs| && HexEncode(tx.unsigned.outs[k].pkScript) == key ==>
              (MatchAt(P, cfg, states[i].registry, tx, k).None?
               <==> states[i].registry[key].packet.Underfunds(tx.unsigned.outs[k].value))
  {
    Invariant(P, cfg, actions, states, i);
    if k < |tx.unsigned.outs| {
      LookupDeclines(P, cfg, states[i].registry, tx, k);
    }
  }

  /** No late failure: a claim about to be submitted passes its re-checks and reveals a provable leaf. */
  lemma NeverFailsLate(P: Prims, cfg: Config, actions: seq<Action>, states: seq<State>, i: nat, t: nat)
    requires P.Lawful() && IsRun(P, cfg, actions, states)
    requires i < |states| && t < |states[i].threads| && states[i].threads[t].Solving?
    ensures var m := states[i].threads[t].m;
            var r := Prepare(P, m, cfg.signerPubKey, cfg.emulatorPubKey);
            && r.Ok? && P.proves(m.credentials.pkScript, r.value.controlBlock, r.value.revealed)
            && NamesOutput(P, m)
            && m.credentials.pkScript == m.sourceTx.value.outs[m.outpoint.index].pkScript
  {
    Invariant(P, cfg, actions, states, i);
    var th := states[i].threads[t];
    assert ThreadOk(P, cfg, th, states[i].submitted);
    NoLateFailure(P, cfg, th.m, th.pkt);
  }

  /** A step drops this key by purging it after its expiry, or for an accepted claim of its script. */
  ghost predicate DropsRightly(s: State, a: Action, s': State, key: string) {
    && key in s.registry && key !in s'.registry
    && ((a.Submit? && s.now > s.registry[key].expireAt)
        || (a.Remove? && Enabled(s, a) && HexEncode(s.threads[a.t].m.credentials.pkScript) == key
            && AcceptedIn(s.threads[a.t].m, s.submitted)))
  }

  lemma DropIsRight(P: Prims, cfg: Config, s: State, a: Action, key: string)
    requires ThreadsOk(P, cfg, s) && Enabled(s, a)
    requires key in s.registry && key !in Apply(P, cfg, s, a).registry
    ensures DropsRightly(s, a, Apply(P, cfg, s, a), key)
  {
    if a.Remove? {
      assert ThreadOk(P, cfg, s.threads[a.t], s.submitted);
    } else if !a.Submit? {
      OthersLeaveRegistry(P, cfg, s, a);
    }
  }

  lemma {:induction false} SomeStepDrops(actions: seq<Action>, states: seq<State>, i: nat, j: nat, key: string)
    requires |states| == |actions| + 1 && i <= j < |states|
    requires key in states[i].registry && key !in states[j].registry
    ensures exists k :: i <= k < j && key in states[k].registry && key !in states[k + 1].registry
    decreases j - i
  {
    if key in states[i + 1].registry {
      SomeStepDrops(actions, states, i + 1, j, key);
    }
  }

  /** Retention: between any two moments a key is lost only through a rightful drop. */
  lemma Retention(P: Prims, cfg: Config, actions: seq<Action>, states: seq<State>, i: nat, j: nat, key: string)
    requires P.Lawful() && IsRun(P, cfg, actions, states)
    requires i <= j < |states| && key in states[i].registry && key !in states[j].registry
    ensures exists k :: i <= k < j && DropsRightly(states[k], actions[k], states[k + 1], key)
  {
    SomeStepDrops(actions, states, i, j, key);
    var k :| i <= k < j && key in states[k].registry && key !in states[k + 1].registry;
    Invariant(P, cfg, actions, states, k);
    DropIsRight(P, cfg, states[k], actions[k], key);
  }
}
