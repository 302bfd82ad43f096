/**
  What every run of the interleaving machine obeys, exactly: how often a transaction is
  submitted, which registration a removal takes, how long an expired entry lives, and what
  a passed gate vouches for.
*/
module RevealRuns {
  import opened Results
  import opened Bytes
  import opened ChainTypes
  import opened Primitives
  import opened Packet
  import opened Claim
  import opened Claimer
  import opened Reveal
  import opened RevealSystem
  import opened Scan

  // ------------------------------------------------------- submissions

  /** The transaction an action brings to the plugins' attention. */
  function Shown(a: Action): Option<Psbt> {
    match a
    case Observe(tx) => Some(tx)
    case ObserveEncrypted(tx, _) => Some(tx)
    case _ => None
  }

  function Sees(P: Prims, a: Action, h: bytes): nat {
    if Shown(a).Some? && P.txHash(Shown(a).value.unsigned) == h then 1 else 0
  }

  /** How often a transaction with this hash was shown. */
  function Observations(P: Prims, actions: seq<Action>, h: bytes): nat {
    if actions == [] then 0
    else Observations(P, actions[..|actions| - 1], h) + Sees(P, actions[|actions| - 1], h)
  }

  /** Is this thread on its way to submitting a claim of the transaction? */
  function Pursues(P: Prims, t: Thread, h: bytes): nat {
    match t
    case Looking(tx, _) => if P.txHash(tx.unsigned) == h then 1 else 0
    case Gating(m, _, _) => if m.outpoint.hash == h then 1 else 0
    case Solving(m, _, _) => if m.outpoint.hash == h then 1 else 0
    case _ => 0
  }

  function Pursuers(P: Prims, threads: seq<Thread>, h: bytes): nat {
    if threads == [] then 0
    else Pursuers(P, threads[..|threads| - 1], h) + Pursues(P, threads[|threads| - 1], h)
  }

  /** How many claims of outputs of this transaction were submitted. */
  function Sent(submitted: seq<Submission>, h: bytes): nat {
    if submitted == [] then 0
    else
      Sent(submitted[..|submitted| - 1], h)
      + if submitted[|submitted| - 1].m.outpoint.hash == h then 1 else 0
  }

  lemma {:induction false} PursuersUpdate(P: Prims, threads: seq<Thread>, i: nat, t: Thread, h: bytes)
    requires i < |threads|
    ensures Pursuers(P, threads[i := t], h) == Pursuers(P, threads, h) - Pursues(P, threads[i], h) + Pursues(P, t, h)
  {
    var n := |threads| - 1;
    if i < n {
      PursuersUpdate(P, threads[..n], i, t, h);
      assert threads[i := t][..n] == threads[..n][i := t];
    } else {
      assert threads[i := t][..n] == threads[..n];
    }
  }

  lemma PursuersAppend(P: Prims, threads: seq<Thread>, t: Thread, h: bytes)
    ensures Pursuers(P, threads + [t], h) == Pursuers(P, threads, h) + Pursues(P, t, h)
  {
    assert (threads + [t])[..|threads|] == threads;
  }

  lemma SentAppend(submitted: seq<Submission>, sub: Submission, h: bytes)
    ensures Sent(submitted + [sub], h) == Sent(submitted, h) + if sub.m.outpoint.hash == h then 1 else 0
  {
    assert (submitted + [sub])[..|submitted|] == submitted;
  }

  lemma LookupPursues(P: Prims, cfg: Config, s: State, tx: Psbt, n: nat, h: bytes)
    ensures Pursues(P, AfterLookup(P, cfg, s, tx, n), h) <= Pursues(P, Looking(tx, n), h)
  {
  }

  lemma SubmitSpends(P: Prims, cfg: Config, s: State, t: nat, accepts: bool, h: bytes)
    requires t < |s.threads| && s.threads[t].Solving?
    ensures var s' := AfterSubmit(P, cfg, s, t, accepts);
            Sent(s'.submitted, h) + Pursuers(P, s'.threads, h) <= Sent(s.submitted, h) + Pursuers(P, s.threads, h)
  {
    var Solving(m, pkt, path) := s.threads[t];
    var built := Submittable(P, cfg, m);
    if built.None? {
      PursuersUpdate(P, s.threads, t, Finished, h);
    } else {
      SpendingEnds(P, s, t, Submission(m, pkt, built.value, accepts),
        if accepts && path == FromRegistry then Removing(m, pkt) else Finished, h);
    }
  }

  /** A thread that submits stops pursuing. */
  lemma SpendingEnds(P: Prims, s: State, t: nat, sub: Submission, next: Thread, h: bytes)
    requires t < |s.threads| && s.threads[t].Solving? && s.threads[t].m == sub.m
    requires next.Removing? || next.Finished?
    ensures Sent(s.submitted + [sub], h) + Pursuers(P, s.threads[t := next], h)
            == Sent(s.submitted, h) + Pursuers(P, s.threads, h)
  {
    SentAppend(s.submitted, sub, h);
    PursuersUpdate(P, s.threads, t, next, h);
  }

  lemma EncryptedPursues(P: Prims, cfg: Config, s: State, tx: Psbt, ext: Extension, h: bytes)
    ensures var s' := Apply(P, cfg, s, ObserveEncrypted(tx, ext));
            s'.submitted == s.submitted
            && Pursuers(P, s'.threads, h) <= Pursuers(P, s.threads, h) + Sees(P, ObserveEncrypted(tx, ext), h)
  {
    if Decoded(P, cfg, tx, ext).Some? {
      DecodedIsClaimable(P, cfg, tx, ext);
      var (pkt, m) := Decoded(P, cfg, tx, ext).value;
      PursuersAppend(P, s.threads, Gating(m, pkt, Encrypted), h);
    }
  }

  /** No step adds more submissions and pursuers of a transaction than it shows of it. */
  lemma StepSpends(P: Prims, cfg: Config, s: State, a: Action, h: bytes)
    requires Enabled(s, a)
    ensures var s' := Apply(P, cfg, s, a);
            Sent(s'.submitted, h) + Pursuers(P, s'.threads, h)
            <= Sent(s.submitted, h) + Pursuers(P, s.threads, h) + Sees(P, a, h)
  {
    match a
    case Observe(tx) => PursuersAppend(P, s.threads, Starting(tx), h);
    case ObserveEncrypted(tx, ext) => EncryptedPursues(P, cfg, s, tx, ext, h);
    case Lookup(t) =>
      var Looking(tx, n) := s.threads[t];
      LookupPursues(P, cfg, s, tx, n, h);
      PursuersUpdate(P, s.threads, t, AfterLookup(P, cfg, s, tx, n), h);
    case Gate(t, reply) =>
      var Gating(m, pkt, path) := s.threads[t];
      PursuersUpdate(P, s.threads, t, if GateSpendable(reply, m) then Solving(m, pkt, path) else Finished, h);
    case SubmitClaim(t, accepts) => SubmitSpends(P, cfg, s, t, accepts, h);
    case Remove(t) => PursuersUpdate(P, s.threads, t, Finished, h);
    case _ =>
  }

  lemma {:induction false} SpendsKept(P: Prims, cfg: Config, actions: seq<Action>, states: seq<State>, i: nat, h: bytes)
    requires IsRun(P, cfg, actions, states) && i < |states|
    ensures Sent(states[i].submitted, h) + Pursuers(P, states[i].threads, h) <= Observations(P, actions[..i], h)
  {
    if i > 0 {
      SpendsKept(P, cfg, actions, states, i - 1, h);
      StepSpends(P, cfg, states[i - 1], actions[i - 1], h);
      assert actions[..i][..i - 1] == actions[..i - 1];
    }
  }

  /** A transaction's outputs are submitted at most as often as the transaction is shown. */
  lemma SubmittedAtMostAsShown(P: Prims, cfg: Config, actions: seq<Action>, states: seq<State>, i: nat, h: bytes)
    requires IsRun(P, cfg, actions, states) && i < |states|
    ensures Sent(states[i].submitted, h) <= Observations(P, actions[..i], h)
  {
    SpendsKept(P, cfg, actions, states, i, h);
  }

  lemma {:induction false} SentTwice(submitted: seq<Submission>, j: nat, k: nat, h: bytes)
    requires j < k < |submitted| && submitted[j].m.outpoint.hash == h && submitted[k].m.outpoint.hash == h
    ensures Sent(submitted, h) >= 2
  {
    var front := submitted[..|submitted| - 1];
    if k == |submitted| - 1 {
      SentOnce(front, j, h);
    } else {
      SentTwice(front, j, k, h);
    }
  }

  lemma {:induction false} SentOnce(submitted: seq<Submission>, j: nat, h: bytes)
    requires j < |submitted| && submitted[j].m.outpoint.hash == h
    ensures Sent(submitted, h) >= 1
  {
    if j < |submitted| - 1 {
      SentOnce(submitted[..|submitted| - 1], j, h);
    }
  }

  /** So no outpoint of a transaction shown at most once is submitted twice. */
  lemma ShownOnceSubmittedOnce(P: Prims, cfg: Config, actions: seq<Action>, states: seq<State>, i: nat, j: nat, k: nat)
    requires IsRun(P, cfg, actions, states) && i < |states| && j < k < |states[i].submitted|
    requires Observations(P, actions[..i], states[i].submitted[j].m.outpoint.hash) <= 1
    ensures states[i].submitted[j].m.outpoint != states[i].submitted[k].m.outpoint
  {
    var h := states[i].submitted[j].m.outpoint.hash;
    SubmittedAtMostAsShown(P, cfg, actions, states, i, h);
    if states[i].submitted[k].m.outpoint.hash == h {
      SentTwice(states[i].submitted, j, k, h);
    }
  }

  // ------------------------------------------------- where an entry is from

  /** A submission that passes its checks, for whatever key. */
  predicate Passes(P: Prims, cfg: Config, a: Action) {
    a.Submit? && Checked(P, cfg, a.pkScript, a.taptree, a.pkt).Ok?
  }

  predicate PassesFor(P: Prims, cfg: Config, a: Action, key: string) {
    Passes(P, cfg, a) && Checked(P, cfg, a.pkScript, a.taptree, a.pkt).value == key
  }

  predicate Removes(s: State, a: Action, key: string)
    requires Enabled(s, a)
  {
    a.Remove? && HexEncode(s.threads[a.t].m.credentials.pkScript) == key
  }

  /** Which actions are passing submissions for the key. */
  function Passing(P: Prims, cfg: Config, actions: seq<Action>, key: string): nat -> bool {
    (k: nat) => k < |actions| && PassesFor(P, cfg, actions[k], key)
  }

  /** Among the first n actions, the last submission for the key that passed its checks. */
  function Origin(P: Prims, cfg: Config, actions: seq<Action>, n: nat, key: string): Option<nat> {
    Last(Passing(P, cfg, actions, key), n)
  }

  /** The first action after an origin. */
  function Since(o: Option<nat>): nat { if o.Some? then o.value + 1 else 0 }

  /** No submission for the key passes from step i to step j. */
  predicate NonePass(P: Prims, cfg: Config, actions: seq<Action>, i: nat, j: nat, key: string)
    requires j <= |actions|
  {
    forall k :: i <= k < j ==> !PassesFor(P, cfg, actions[k], key)
  }

  lemma OriginIsLast(P: Prims, cfg: Config, actions: seq<Action>, n: nat, key: string)
    requires n <= |actions|
    ensures var o := Origin(P, cfg, actions, n, key);
            && Since(o) <= n
            && (o.Some? ==> PassesFor(P, cfg, actions[o.value], key))
            && NonePass(P, cfg, actions, Since(o), n, key)
  {
    var hit := Passing(P, cfg, actions, key);
    LastIsLast(hit, n);
    assert forall k :: 0 <= k < n ==> (hit(k) <==> PassesFor(P, cfg, actions[k], key));
  }

  /** An entry after a step is the step's own submission, or was there before. */
  lemma EntryStep(P: Prims, cfg: Config, s: State, a: Action, key: string)
    requires Enabled(s, a) && key in Apply(P, cfg, s, a).registry
    ensures var e := Apply(P, cfg, s, a).registry[key];
            if PassesFor(P, cfg, a, key) then e == Registration(a.pkt, a.taptree, s.now + REGISTRATION_TTL)
            else key in s.registry && e == s.registry[key]
  {
    if Passes(P, cfg, a) {
      RegisteredEntries(s.registry, Checked(P, cfg, a.pkScript, a.taptree, a.pkt).value, a.pkt, a.taptree, s.now, key);
    } else if !a.Submit? && !a.Remove? {
      OthersLeaveRegistry(P, cfg, s, a);
    }
  }

  /** Without a submission for its key an entry is one that was there all along, unchanged. */
  lemma {:induction false} EntryCarried(
      P: Prims, cfg: Config, actions: seq<Action>, states: seq<State>, i: nat, j: nat, key: string)
    requires IsRun(P, cfg, actions, states) && i <= j < |states| && key in states[j].registry
    requires NonePass(P, cfg, actions, i, j, key)
    ensures key in states[i].registry && states[j].registry[key] == states[i].registry[key]
    decreases j - i
  {
    if i < j {
      EntryStep(P, cfg, states[j - 1], actions[j - 1], key);
      EntryCarried(P, cfg, actions, states, i, j - 1, key);
    }
  }

  /** The registration that the k-th action, a submission, makes. */
  function MadeAt(actions: seq<Action>, states: seq<State>, k: nat): Registration
    requires k < |actions| && k < |states| && actions[k].Submit?
  {
    Registration(actions[k].pkt, actions[k].taptree, states[k].now + REGISTRATION_TTL)
  }

  /** Every entry is the registration made by the last passing submission for its key. */
  lemma EntryIsLastSubmitted(P: Prims, cfg: Config, actions: seq<Action>, states: seq<State>, j: nat, key: string)
    requires IsRun(P, cfg, actions, states) && j < |states| && key in states[j].registry
    ensures var o := Origin(P, cfg, actions, j, key);
            && o.Some? && o.value < j && PassesFor(P, cfg, actions[o.value], key)
            && NonePass(P, cfg, actions, o.value + 1, j, key)
            && states[j].registry[key] == MadeAt(actions, states, o.value)
  {
    var o := Origin(P, cfg, actions, j, key);
    OriginIsLast(P, cfg, actions, j, key);
    EntryCarried(P, cfg, actions, states, Since(o), j, key);
    if o.Some? {
      EntryStep(P, cfg, states[o.value], actions[o.value], key);
    }
  }

  /** The origin stays the same exactly while no submission for the key passes. */
  lemma OriginStaysIff(P: Prims, cfg: Config, actions: seq<Action>, i: nat, j: nat, key: string)
    requires i <= j <= |actions|
    ensures Origin(P, cfg, actions, j, key) == Origin(P, cfg, actions, i, key) <==> NonePass(P, cfg, actions, i, j, key)
  {
    var hit := Passing(P, cfg, actions, key);
    LastStaysIff(hit, i, j);
    assert forall k :: 0 <= k < j ==> (hit(k) <==> PassesFor(P, cfg, actions[k], key));
  }

  // ---------------------------------------------------------- removals

  /** Past its lookup a thread keeps its claim and the packet it was matched from. */
  predicate Carries(t: Thread, m: MatchedClaim, pkt: ClaimPacket) {
    match t
    case Looking(_, _) => false
    case Gating(m', pkt', _) => m' == m && pkt' == pkt
    case Solving(m', pkt', _) => m' == m && pkt' == pkt
    case Removing(m', pkt') => m' == m && pkt' == pkt
    case Finished => true
  }

  lemma CarriesStep(P: Prims, cfg: Config, s: State, a: Action, t: nat, m: MatchedClaim, pkt: ClaimPacket)
    requires Enabled(s, a) && t < |s.threads| && Carries(s.threads[t], m, pkt)
    ensures t < |Apply(P, cfg, s, a).threads| && Carries(Apply(P, cfg, s, a).threads[t], m, pkt)
  {
  }

  lemma {:induction false} ThreadCarries(
      P: Prims, cfg: Config, actions: seq<Action>, states: seq<State>, i: nat, j: nat, t: nat, m: MatchedClaim,
      pkt: ClaimPacket)
    requires IsRun(P, cfg, actions, states) && i <= j < |states|
    requires t < |states[i].threads| && Carries(states[i].threads[t], m, pkt)
    ensures t < |states[j].threads| && Carries(states[j].threads[t], m, pkt)
    decreases j - i
  {
    if i < j {
      ThreadCarries(P, cfg, actions, states, i, j - 1, t, m, pkt);
      CarriesStep(P, cfg, states[j - 1], actions[j - 1], t, m, pkt);
    }
  }

  /** The key a looking thread looks up next. */
  function KeyAt(t: Thread): string
    requires t.Looking? && t.next < |t.tx.unsigned.outs|
  {
    HexEncode(t.tx.unsigned.outs[t.next].pkScript)
  }

  lemma HitFrom(P: Prims, cfg: Config, s: State, t: nat)
    requires t < |s.threads| && s.threads[t].Looking?
    requires AfterLookup(P, cfg, s, s.threads[t].tx, s.threads[t].next).Gating?
    ensures var th := s.threads[t];
            && th.next < |th.tx.unsigned.outs| && KeyAt(th) in s.registry
            && var hit := AfterLookup(P, cfg, s, th.tx, th.next);
               hit.pkt == s.registry[KeyAt(th)].packet && HexEncode(hit.m.credentials.pkScript) == KeyAt(th)
  {
  }

  lemma LookupLeads(P: Prims, cfg: Config, s: State, t: nat)
    requires t < |s.threads| && s.threads[t].Looking?
    ensures Apply(P, cfg, s, Lookup(t)).threads[t] == AfterLookup(P, cfg, s, s.threads[t].tx, s.threads[t].next)
  {
  }

  lemma RemoveTakesKey(P: Prims, cfg: Config, s: State, t: nat)
    requires Enabled(s, Remove(t))
    ensures Apply(P, cfg, s, Remove(t)).registry == s.registry - {HexEncode(s.threads[t].m.credentials.pkScript)}
  {
  }

  /**
    Which registration a removal takes. A thread matched an entry at step i and removes at
    step j. It takes the key it matched and no other. Under that key it takes the registration
    it was matched from exactly when no submission for the key passed in between; when one
    did, it takes the last such submission's.
  */
  lemma RemovalTakesLastSubmitted(
      P: Prims, cfg: Config, actions: seq<Action>, states: seq<State>, i: nat, j: nat, t: nat)
    requires IsRun(P, cfg, actions, states) && i < j < |actions|
    requires actions[i] == Lookup(t) && actions[j] == Remove(t)
    requires t < |states[i + 1].threads| && states[i + 1].threads[t].Gating?
    ensures states[i].threads[t].next < |states[i].threads[t].tx.unsigned.outs|
    ensures var key := KeyAt(states[i].threads[t]);
            && key in states[i].registry && states[j + 1].registry == states[j].registry - {key}
            && var matched, taken := Origin(P, cfg, actions, i, key), Origin(P, cfg, actions, j, key);
               && matched.Some? && matched.value < i && actions[matched.value].Submit?
               && states[i].registry[key] == MadeAt(actions, states, matched.value)
               && (taken == matched <==> NonePass(P, cfg, actions, i, j, key))
               && (key in states[j].registry ==>
                     && taken.Some? && taken.value < j && PassesFor(P, cfg, actions[taken.value], key)
                     && NonePass(P, cfg, actions, taken.value + 1, j, key)
                     && states[j].registry[key] == MadeAt(actions, states, taken.value))
  {
    LookupLeads(P, cfg, states[i], t);
    HitFrom(P, cfg, states[i], t);
    var key := KeyAt(states[i].threads[t]);
    var hit := states[i + 1].threads[t];
    ThreadCarries(P, cfg, actions, states, i + 1, j, t, hit.m, hit.pkt);
    RemoveTakesKey(P, cfg, states[j], t);
    EntryIsLastSubmitted(P, cfg, actions, states, i, key);
    OriginStaysIff(P, cfg, actions, i, j, key);
    if key in states[j].registry {
      EntryIsLastSubmitted(P, cfg, actions, states, j, key);
    }
  }

  // ------------------------------------------------------------- expiry

  lemma StepTime(P: Prims, cfg: Config, s: State, a: Action)
    requires Enabled(s, a)
    ensures s.now <= Apply(P, cfg, s, a).now
  {
  }

  lemma {:induction false} TimeGoesOn(P: Prims, cfg: Config, actions: seq<Action>, states: seq<State>, i: nat, j: nat)
    requires IsRun(P, cfg, actions, states) && i <= j < |states|
    ensures states[i].now <= states[j].now
    decreases j - i
  {
    if i < j {
      TimeGoesOn(P, cfg, actions, states, i, j - 1);
      StepTime(P, cfg, states[j - 1], actions[j - 1]);
    }
  }

  lemma PurgeStep(P: Prims, cfg: Config, s: State, a: Action, key: string)
    requires Enabled(s, a) && Passes(P, cfg, a) && key in Apply(P, cfg, s, a).registry
    ensures s.now <= Apply(P, cfg, s, a).registry[key].expireAt
  {
    RegisteredEntries(s.registry, Checked(P, cfg, a.pkScript, a.taptree, a.pkt).value, a.pkt, a.taptree, s.now, key);
  }

  /** No submission passes between an entry's expiry and any later moment it is still there. */
  lemma NoSubmitSinceExpiry(
      P: Prims, cfg: Config, actions: seq<Action>, states: seq<State>, i: nat, key: string, k: nat)
    requires IsRun(P, cfg, actions, states) && k < i < |states|
    requires key in states[i].registry && Passes(P, cfg, actions[k])
    ensures states[k].now <= states[i].registry[key].expireAt
  {
    EntryIsLastSubmitted(P, cfg, actions, states, i, key);
    var o := Origin(P, cfg, actions, i, key).value;
    if k <= o {
      TimeGoesOn(P, cfg, actions, states, k, o);
    } else {
      EntryCarried(P, cfg, actions, states, k + 1, i, key);
      PurgeStep(P, cfg, states[k], actions[k], key);
    }
  }

  lemma UntouchedStep(P: Prims, cfg: Config, s: State, a: Action, key: string)
    requires Enabled(s, a) && key in s.registry && !PassesFor(P, cfg, a, key) && !Removes(s, a, key)
    ensures var reg' := Apply(P, cfg, s, a).registry;
            && (key in reg' <==> !(Passes(P, cfg, a) && s.now > s.registry[key].expireAt))
            && (key in reg' ==> reg'[key] == s.registry[key])
  {
    if !a.Submit? && !a.Remove? {
      OthersLeaveRegistry(P, cfg, s, a);
    }
  }

  lemma {:induction false} UntouchedEntryStays(
      P: Prims, cfg: Config, actions: seq<Action>, states: seq<State>, i: nat, j: nat, key: string)
    requires IsRun(P, cfg, actions, states) && i <= j < |states| && key in states[i].registry
    requires forall k :: i <= k < j ==> !PassesFor(P, cfg, actions[k], key) && !Removes(states[k], actions[k], key)
    requires forall k :: i <= k < j && Passes(P, cfg, actions[k]) ==> states[k].now <= states[i].registry[key].expireAt
    ensures key in states[j].registry && states[j].registry[key] == states[i].registry[key]
    decreases j - i
  {
    if i < j {
      UntouchedEntryStays(P, cfg, actions, states, i, j - 1, key);
      UntouchedStep(P, cfg, states[j - 1], actions[j - 1], key);
    }
  }

  /**
    An entry neither renewed nor removed is still there exactly when no submission has passed
    after its expiry: until then it outlives its fifteen minutes without bound.
  */
  lemma EntryOutlivesItsExpiryIff(
      P: Prims, cfg: Config, actions: seq<Action>, states: seq<State>, i: nat, j: nat, key: string)
    requires IsRun(P, cfg, actions, states) && i <= j < |states| && key in states[i].registry
    requires forall k :: i <= k < j ==> !PassesFor(P, cfg, actions[k], key) && !Removes(states[k], actions[k], key)
    ensures (key in states[j].registry && states[j].registry[key] == states[i].registry[key])
            <==> forall k :: i <= k < j && Passes(P, cfg, actions[k]) ==>
                states[k].now <= states[i].registry[key].expireAt
  {
    if forall k :: i <= k < j && Passes(P, cfg, actions[k]) ==> states[k].now <= states[i].registry[key].expireAt {
      UntouchedEntryStays(P, cfg, actions, states, i, j, key);
    } else if key in states[j].registry {
      var k :| i <= k < j && Passes(P, cfg, actions[k]) && states[k].now > states[i].registry[key].expireAt;
      EntryCarried(P, cfg, actions, states, i, j, key);
      NoSubmitSinceExpiry(P, cfg, actions, states, j, key, k);
    }
  }

  /** Looking up as if the expired were purged differs exactly when an expired entry would be claimed from. */
  lemma PurgedLookupAgreesIff(P: Prims, cfg: Config, reg: Registry, now: int, tx: Psbt, n: nat)
    requires RegistryBinds(P, cfg, reg) && n < |tx.unsigned.outs|
    ensures var out := tx.unsigned.outs[n];
            var key := HexEncode(out.pkScript);
            MatchAt(P, cfg, reg, tx, n) == MatchAt(P, cfg, Unexpired(reg, now), tx, n)
            <==> key !in reg || now <= reg[key].expireAt || reg[key].packet.Underfunds(out.value)
  {
    LookupDeclines(P, cfg, reg, tx, n);
  }

  /**
    In every reachable state a lookup claims from an expired entry exactly when it finds one with
    enough value, and that only while no submission has passed since the expiry.
  */
  lemma ExpiredClaimsIff(P: Prims, cfg: Config, actions: seq<Action>, states: seq<State>, i: nat, tx: Psbt, n: nat)
    requires P.Lawful() && IsRun(P, cfg, actions, states) && i < |states| && n < |tx.unsigned.outs|
    ensures var s := states[i];
            var out := tx.unsigned.outs[n];
            var key := HexEncode(out.pkScript);
            var expired := key in s.registry && s.now > s.registry[key].expireAt
                && !s.registry[key].packet.Underfunds(out.value);
            && (MatchAt(P, cfg, s.registry, tx, n) != MatchAt(P, cfg, Unexpired(s.registry, s.now), tx, n) <==> expired)
            && (expired ==> forall k :: 0 <= k < i && Passes(P, cfg, actions[k]) ==>
                 states[k].now <= s.registry[key].expireAt)
  {
    var key := HexEncode(tx.unsigned.outs[n].pkScript);
    Invariant(P, cfg, actions, states, i);
    PurgedLookupAgreesIff(P, cfg, states[i].registry, states[i].now, tx, n);
    forall k | 0 <= k < i && key in states[i].registry && Passes(P, cfg, actions[k])
      ensures states[k].now <= states[i].registry[key].expireAt
    {
      NoSubmitSinceExpiry(P, cfg, actions, states, i, key, k);
    }
  }

  // --------------------------------------------------------------- gates

  lemma SolvingStep(P: Prims, cfg: Config, s: State, a: Action, t: nat)
    requires Enabled(s, a) && t < |Apply(P, cfg, s, a).threads| && Apply(P, cfg, s, a).threads[t].Solving?
    ensures t < |s.threads|
    ensures s.threads[t] == Apply(P, cfg, s, a).threads[t]
            || (a.Gate? && a.t == t && GateSpendable(a.reply, Apply(P, cfg, s, a).threads[t].m))
  {
  }

  /** A claim about to be submitted was let through by a gate reply of its own. */
  lemma {:induction false} SolvingWasGated(
      P: Prims, cfg: Config, actions: seq<Action>, states: seq<State>, i: nat, t: nat)
    requires IsRun(P, cfg, actions, states) && i < |states| && t < |states[i].threads| && states[i].threads[t].Solving?
    ensures exists k :: 0 <= k < i && actions[k].Gate? && actions[k].t == t
              && GateSpendable(actions[k].reply, states[i].threads[t].m)
  {
    if i > 0 {
      SolvingStep(P, cfg, states[i - 1], actions[i - 1], t);
      if states[i - 1].threads[t] == states[i].threads[t] {
        SolvingWasGated(P, cfg, actions, states, i - 1, t);
      }
    }
  }

  /** If the claimed script was paid once, the matched output itself was spendable at that gate. */
  lemma GatedOutputWasSpendable(
      P: Prims, cfg: Config, actions: seq<Action>, states: seq<State>, i: nat, t: nat, paid: set<Vtxo>)
    requires IsRun(P, cfg, actions, states) && i < |states| && t < |states[i].threads| && states[i].threads[t].Solving?
    requires forall a <- actions :: a.Gate? && a.reply.Some? ==> a.reply.value <= paid
    requires PaidOnce(paid, states[i].threads[t].m)
    ensures exists k :: 0 <= k < i && actions[k].Gate? && actions[k].t == t
              && MatchedIsSpendable(actions[k].reply, states[i].threads[t].m)
  {
    SolvingWasGated(P, cfg, actions, states, i, t);
    var m := states[i].threads[t].m;
    var k :| 0 <= k < i && actions[k].Gate? && actions[k].t == t && GateSpendable(actions[k].reply, m);
    assert actions[k] in actions;
    GateVouchesIffPaidOnce(paid, m);
  }

  // ------------------------------------------------------- completeness

  /** This step is a lookup of thread t that hits output n of tx, or an earlier one. */
  predicate Finds(P: Prims, a: Action, after: State, t: nat, tx: Psbt, n: nat) {
    && a == Lookup(t) && t < |after.threads| && after.threads[t].Gating?
    && after.threads[t].m.outpoint.hash == P.txHash(tx.unsigned) && after.threads[t].m.outpoint.index <= n
  }

  /** Is thread t still looking at tx, with output n ahead of it? */
  predicate LooksToward(s: State, t: nat, tx: Psbt, n: nat) {
    t < |s.threads| && s.threads[t].Looking? && s.threads[t].tx == tx && s.threads[t].next <= n
  }

  lemma PaidLookup(P: Prims, cfg: Config, s: State, tx: Psbt, k: nat, n: nat)
    requires RegistryBinds(P, cfg, s.registry) && k <= n && Paid(s.registry, tx, n)
    ensures var next := AfterLookup(P, cfg, s, tx, k);
            || (next.Looking? && next.tx == tx && next.next <= n)
            || (next.Gating? && next.m.outpoint == OutPoint(P.txHash(tx.unsigned), k))
  {
    if k == n {
      LookupDeclines(P, cfg, s.registry, tx, n);
    }
  }

  lemma OthersLeaveLooking(P: Prims, cfg: Config, s: State, a: Action, t: nat)
    requires Enabled(s, a) && t < |s.threads| && s.threads[t].Looking? && a != Lookup(t)
    ensures t < |Apply(P, cfg, s, a).threads| && Apply(P, cfg, s, a).threads[t] == s.threads[t]
  {
  }

  lemma LookingStep(P: Prims, cfg: Config, s: State, a: Action, t: nat, tx: Psbt, n: nat)
    requires RegistryBinds(P, cfg, s.registry) && Enabled(s, a)
    requires LooksToward(s, t, tx, n) && Paid(s.registry, tx, n)
    ensures LooksToward(Apply(P, cfg, s, a), t, tx, n) || Finds(P, a, Apply(P, cfg, s, a), t, tx, n)
  {
    if a == Lookup(t) {
      LookupLeads(P, cfg, s, t);
      PaidLookup(P, cfg, s, tx, s.threads[t].next, n);
    } else {
      OthersLeaveLooking(P, cfg, s, a, t);
    }
  }

  /** Some step from the i-th to the j-th is such a lookup. */
  predicate FoundBetween(
      P: Prims, actions: seq<Action>, states: seq<State>, i: nat, j: nat, t: nat, tx: Psbt, n: nat)
    requires j <= |actions| < |states|
  {
    exists k :: i <= k < j && Finds(P, actions[k], states[k + 1], t, tx, n)
  }

  lemma StepToward(
      P: Prims, cfg: Config, actions: seq<Action>, states: seq<State>, k: nat, t: nat, tx: Psbt, n: nat)
    requires P.Lawful() && IsRun(P, cfg, actions, states) && k < |actions|
    requires LooksToward(states[k], t, tx, n) && Paid(states[k].registry, tx, n)
    ensures LooksToward(states[k + 1], t, tx, n) || Finds(P, actions[k], states[k + 1], t, tx, n)
  {
    Invariant(P, cfg, actions, states, k);
    LookingStep(P, cfg, states[k], actions[k], t, tx, n);
  }

  /**
    A thread never passes by an output that stays paid: while output n pays a script that stays
    registered, the thread has it still ahead, or has hit it, or an earlier output.
  */
  lemma PaidOutputIsFound(
      P: Prims, cfg: Config, actions: seq<Action>, states: seq<State>, i: nat, j: nat, t: nat, tx: Psbt, n: nat)
    requires P.Lawful() && IsRun(P, cfg, actions, states) && i <= j < |states|
    requires LooksToward(states[i], t, tx, n)
    requires forall k :: i <= k < j ==> Paid(states[k].registry, tx, n)
    ensures LooksToward(states[j], t, tx, n) || FoundBetween(P, actions, states, i, j, t, tx, n)
  {
    var toward := (k: nat) => k < |states| && LooksToward(states[k], t, tx, n);
    var found := (k: nat) => k < |actions| < |states| && Finds(P, actions[k], states[k + 1], t, tx, n);
    forall k: nat | i <= k < j && toward(k)
      ensures toward(k + 1) || found(k)
    {
      StepToward(P, cfg, actions, states, k, t, tx, n);
    }
    UntilFound(toward, found, i, j);
  }
}
