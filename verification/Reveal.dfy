/** The reveal plugin: a shared registry of submitted packets, keyed by funding script. */
module Reveal {
  import opened Results
  import opened Bytes
  import opened ChainTypes
  import opened Primitives
  import opened Packet
  import opened Claim
  import opened Claimer
  import opened Scan

  const MAX_REGISTRATIONS: nat := 10000
  /** 15 minutes, in nanoseconds. */
  const REGISTRATION_TTL: nat := 15 * 60 * 1_000_000_000

  datatype Registration = Registration(packet: ClaimPacket, taptree: seq<string>, expireAt: int)

  type Registry = map<string, Registration>

  datatype SubmitError =
    | BadAddress
    | BadPacket(cause: DecryptError)
    | UndecodableTaptree
    | NoTaptreeKey
    | NoTaptreeScript
    | AddressMismatch
    | NoClosure(search: FindError)
    | RegistryFull

  // ------------------------------------------------------------ functions

  function ValidateAddress(
      P: Prims, cfg: Config, taptree: seq<string>, pkScript: bytes, arkadeScript: bytes, preimage: bytes)
    : Result<(), SubmitError>
  {
    match P.decodeClosures(taptree)
    case None => Err(UndecodableTaptree)
    case Some(cs) =>
      match P.tapKey(cs)
      case None => Err(NoTaptreeKey)
      case Some(key) =>
        match P.p2tr(key)
        case None => Err(NoTaptreeScript)
        case Some(fromTaptree) =>
          if fromTaptree != pkScript then Err(AddressMismatch)
          else match Found(P, cs, cfg.signerPubKey, P.tweak(arkadeScript, cfg.emulatorPubKey), preimage)
            case Err(e) => Err(NoClosure(e))
            case Ok(_) => Ok(())
  }

  /** The checks a submission passes before it touches the registry. */
  function Checked(P: Prims, cfg: Config, pkScript: Option<bytes>, taptree: seq<string>, pkt: ClaimPacket)
    : Result<string, SubmitError>
  {
    if pkScript.None? then Err(BadAddress)
    else match Decrypted(P, cfg.secretKey, pkt)
      case Err(e) => Err(BadPacket(e))
      case Ok(preimage) =>
        var _ :- ValidateAddress(P, cfg, taptree, pkScript.value, pkt.arkadeScript, preimage);
        Ok(HexEncode(pkScript.value))
  }

  /** The entries a registration at time now leaves in place. */
  function Unexpired(reg: Registry, now: int): Registry {
    map key | key in reg && !(now > reg[key].expireAt) :: reg[key]
  }

  function Registered(reg: Registry, key: string, pkt: ClaimPacket, taptree: seq<string>, now: int)
    : (Result<(), SubmitError>, Registry)
  {
    var live := Unexpired(reg, now);
    if key !in live && |live| >= MAX_REGISTRATIONS then (Err(RegistryFull), live)
    else (Ok(()), live[key := Registration(pkt, taptree, now + REGISTRATION_TTL)])
  }

  function MatchAt(P: Prims, cfg: Config, reg: Registry, tx: Psbt, i: nat): Option<MatchedClaim>
    requires i < |tx.unsigned.outs|
  {
    var out := tx.unsigned.outs[i];
    var key := HexEncode(out.pkScript);
    if key !in reg || reg[key].packet.Underfunds(out.value) then None
    else match Decrypted(P, cfg.secretKey, reg[key].packet)
      case Err(_) => None
      case Ok(preimage) =>
        Some(MatchedClaim(
          OutPoint(P.txHash(tx.unsigned), i), ToUint64(out.value), Some(tx.unsigned),
          ClaimCredentials(preimage, reg[key].packet.arkadeScript, reg[key].taptree, out.pkScript)))
  }

  function MatchFrom(P: Prims, cfg: Config, reg: Registry, tx: Psbt, k: nat): Option<MatchedClaim>
    decreases |tx.unsigned.outs| - k
  {
    if k >= |tx.unsigned.outs| then None
    else
      var m := MatchAt(P, cfg, reg, tx, k);
      if m.Some? then m else MatchFrom(P, cfg, reg, tx, k + 1)
  }

  /** The scan when the map changes between lookups: views[k] is what the k-th finds. */
  function MatchOver(P: Prims, cfg: Config, views: seq<Registry>, tx: Psbt, k: nat): Option<MatchedClaim>
    requires |views| == |tx.unsigned.outs|
    decreases |tx.unsigned.outs| - k
  {
    if k >= |tx.unsigned.outs| then None
    else
      var m := MatchAt(P, cfg, views[k], tx, k);
      if m.Some? then m else MatchOver(P, cfg, views, tx, k + 1)
  }

  /** What the map holds after a scan: the view its last lookup found. */
  function LastView(before: Registry, views: seq<Registry>, r: Option<MatchedClaim>): Registry {
    if r.Some? && r.value.outpoint.index < |views| then views[r.value.outpoint.index]
    else if r.Some? || views == [] then before
    else views[|views| - 1]
  }

  /** While nobody changes the map the scan is that of one registry. */
  lemma {:induction false} SteadyScan(P: Prims, cfg: Config, reg: Registry, views: seq<Registry>, tx: Psbt, k: nat)
    requires |views| == |tx.unsigned.outs| && forall i :: 0 <= i < |views| ==> views[i] == reg
    ensures MatchOver(P, cfg, views, tx, k) == MatchFrom(P, cfg, reg, tx, k)
    decreases |tx.unsigned.outs| - k
  {
    if k < |tx.unsigned.outs| {
      SteadyScan(P, cfg, reg, views, tx, k + 1);
    }
  }

  /** A bundle in base64. */
  datatype Wire = Wire(ark: string, checkpoints: seq<string>)

  function WiredPsbts(P: Prims, psbts: seq<ClaimPsbt>): Option<seq<string>> {
    if psbts == [] then Some([])
    else
      var front :- WiredPsbts(P, psbts[..|psbts| - 1]);
      var last :- P.b64(psbts[|psbts| - 1]);
      Some(front + [last])
  }

  /** What goes to the emulator for a bundle, unless a PSBT does not encode. */
  function Wired(P: Prims, b: ClaimBundle): Option<Wire> {
    var ark :- P.b64(b.ark);
    var checkpoints :- WiredPsbts(P, b.checkpoints);
    Some(Wire(ark, checkpoints))
  }

  /** The bundle a claim submits, if it builds and encodes. */
  function Submittable(P: Prims, cfg: Config, m: MatchedClaim): Option<ClaimBundle> {
    match Built(P, m, cfg.checkpointTapscript, cfg.signerPubKey, cfg.emulatorPubKey)
    case Err(_) => None
    case Ok(b) => if Wired(P, b).None? then None else Some(b)
  }

  /** What a claim puts before the emulator: its bundle's wire form, or nothing. */
  function Submitted(P: Prims, cfg: Config, m: MatchedClaim): (ws: seq<Wire>)
    ensures |ws| <= 1 && (ws != [] <==> Submittable(P, cfg, m).Some?)
  {
    match Submittable(P, cfg, m) case None => [] case Some(b) => [Wired(P, b).value]
  }

  /** Each PSBT of the wire form is the encoding of the bundle's, in its place. */
  lemma {:induction false} WiredInPlace(P: Prims, psbts: seq<ClaimPsbt>)
    ensures WiredPsbts(P, psbts).Some? <==> forall i :: 0 <= i < |psbts| ==> P.b64(psbts[i]).Some?
    ensures WiredPsbts(P, psbts).Some? ==>
              && |WiredPsbts(P, psbts).value| == |psbts|
              && forall i :: 0 <= i < |psbts| ==> P.b64(psbts[i]) == Some(WiredPsbts(P, psbts).value[i])
  {
    if psbts != [] {
      var front := psbts[..|psbts| - 1];
      WiredInPlace(P, front);
      assert forall i :: 0 <= i < |front| ==> psbts[i] == front[i];
      if WiredPsbts(P, psbts).Some? {
        forall i | 0 <= i < |psbts|
          ensures P.b64(psbts[i]) == Some(WiredPsbts(P, psbts).value[i])
        {
          assert i < |front| ==> P.b64(front[i]) == Some(WiredPsbts(P, front).value[i]);
        }
      } else if WiredPsbts(P, front).Some? {
        assert P.b64(psbts[|psbts| - 1]).None?;
      } else {
        var i :| 0 <= i < |front| && P.b64(front[i]).None?;
        assert P.b64(psbts[i]).None?;
      }
    }
  }

  /** The wire form is the ark PSBT's encoding with the checkpoints' in order, if all encode. */
  lemma WiredIff(P: Prims, b: ClaimBundle, w: Wire)
    ensures Wired(P, b) == Some(w)
            <==> && P.b64(b.ark) == Some(w.ark) && |w.checkpoints| == |b.checkpoints|
                 && forall i :: 0 <= i < |b.checkpoints| ==> P.b64(b.checkpoints[i]) == Some(w.checkpoints[i])
  {
    WiredInPlace(P, b.checkpoints);
    if WiredPsbts(P, b.checkpoints).Some? && |w.checkpoints| == |b.checkpoints|
       && forall i :: 0 <= i < |b.checkpoints| ==> P.b64(b.checkpoints[i]) == Some(w.checkpoints[i]) {
      assert w.checkpoints == WiredPsbts(P, b.checkpoints).value;
    }
  }

  /** The emulator, as the log of what it was sent. */
  class Emulator {
    var received: seq<Wire>

    constructor ()
      ensures received == []
    {
      received := [];
    }

    method SubmitTx(ark: string, checkpoints: array<string>, accepts: bool) returns (ok: bool)
      modifies this
      ensures received == old(received) + [Wire(ark, checkpoints[..])] && ok == accepts
    {
      received := received + [Wire(ark, checkpoints[..])];
      ok := accepts;
    }
  }

  ghost function Views(ps: seq<PsbtObject>): (vs: seq<ClaimPsbt>)
    reads ps
    ensures |vs| == |ps| && forall i :: 0 <= i < |ps| ==> vs[i] == ps[i].View()
  {
    seq(|ps|, i requires 0 <= i < |ps| reads ps => ps[i].View())
  }

  /** Fills an array with the checkpoints' encodings, in order; None at the first that does not encode. */
  method EncodePsbts(P: Prims, checkpoints: seq<PsbtObject>) returns (encoded: Option<array<string>>)
    ensures encoded.Some? <==> WiredPsbts(P, Views(checkpoints)).Some?
    ensures encoded.Some? ==> fresh(encoded.value) && WiredPsbts(P, Views(checkpoints)) == Some(encoded.value[..])
  {
    ghost var views := Views(checkpoints);
    WiredInPlace(P, views);
    var filled := new string[|checkpoints|];
    for i := 0 to |checkpoints|
      invariant Views(checkpoints) == views
      invariant forall j :: 0 <= j < i ==> P.b64(views[j]) == Some(filled[j])
      modifies filled
    {
      var b64 := P.b64(checkpoints[i].View());
      if b64.None? {
        return None;
      }
      filled[i] := b64.value;
    }
    assert filled[..] == WiredPsbts(P, views).value;
    return Some(filled);
  }

  class RevealPlugin {
    const P: Prims
    const cfg: Config
    var packets: Registry
    var background: seq<string>  // the checks launched for already funded scripts, by key

    constructor (P: Prims, cfg: Config)
      ensures this.P == P && this.cfg == cfg && packets == map[] && background == []
    {
      this.P, this.cfg := P, cfg;
      packets, background := map[], [];
    }

    /** One lock section: drop what has expired, then insert unless that would exceed the cap. */
    method Register(key: string, pkt: ClaimPacket, taptree: seq<string>, now: int) returns (r: Result<(), SubmitError>)
      modifies this`packets
      ensures (r, packets) == Registered(old(packets), key, pkt, taptree, now)
    {
      var keys := packets.Keys;
      while keys != {}
        invariant keys <= packets.Keys <= old(packets).Keys
        invariant forall k :: k in packets ==> packets[k] == old(packets)[k]
        invariant forall k :: k in old(packets) && k !in packets ==> now > old(packets)[k].expireAt
        invariant forall k :: k in packets && k !in keys ==> !(now > packets[k].expireAt)
        decreases |keys|
      {
        var k :| k in keys;
        if now > packets[k].expireAt {
          packets := packets - {k};
        }
        keys := keys - {k};
      }
      assert packets == Unexpired(old(packets), now);
      if key !in packets && |packets| >= MAX_REGISTRATIONS {
        return Err(RegistryFull);
      }
      packets := packets[key := Registration(pkt, taptree, now + REGISTRATION_TTL)];
      return Ok(());
    }

    method Submit(pkScript: Option<bytes>, taptree: seq<string>, pkt: ClaimPacket, now: int)
      returns (r: Result<(), SubmitError>)
      modifies this`packets, this`background
      ensures match Checked(P, cfg, pkScript, taptree, pkt)
              case Err(e) => r == Err(e) && packets == old(packets) && background == old(background)
              case Ok(key) =>
                && (r, packets) == Registered(old(packets), key, pkt, taptree, now)
                && background == old(background) + if r.Ok? then [key] else []
    {
      if pkScript.None? {
        return Err(BadAddress);
      }
      var preimage := Decrypted(P, cfg.secretKey, pkt);
      if preimage.Err? {
        return Err(BadPacket(preimage.error));
      }
      var valid := ValidateAddress(P, cfg, taptree, pkScript.value, pkt.arkadeScript, preimage.value);
      if valid.Err? {
        return Err(valid.error);
      }
      var key := HexEncode(pkScript.value);
      r := Register(key, pkt, taptree, now);
      if r.Err? {
        return r;
      }
      background := background + [key];
    }

    /**
      Looks the outputs up one at a time, each under its own read lock; views[i] is what the
      other goroutines have left in the map by the i-th lookup.
    */
    method MatchRegistered(tx: Option<Psbt>, views: seq<Registry>) returns (r: Option<MatchedClaim>)
      requires tx.Some? ==> |views| == |tx.value.unsigned.outs|
      modifies this`packets
      ensures r == if tx.None? then None else MatchOver(P, cfg, views, tx.value, 0)
      ensures packets == if tx.None? then old(packets) else LastView(old(packets), views, r)
    {
      if tx.None? {
        return None;
      }
      var outs := tx.value.unsigned.outs;
      for i := 0 to |outs|
        invariant MatchOver(P, cfg, views, tx.value, 0) == MatchOver(P, cfg, views, tx.value, i)
        invariant packets == if i == 0 then old(packets) else views[i - 1]
      {
        packets := views[i];
        var out := outs[i];
        var key := HexEncode(out.pkScript);
        if key in packets && !packets[key].packet.Underfunds(out.value) {
          var reg := packets[key];
          var preimage := Decrypted(P, cfg.secretKey, reg.packet);
          if preimage.Ok? {
            return Some(MatchedClaim(
              OutPoint(P.txHash(tx.value.unsigned), i), ToUint64(out.value), Some(tx.value.unsigned),
              ClaimCredentials(preimage.value, reg.packet.arkadeScript, reg.taptree, out.pkScript)));
          }
        }
      }
      return None;
    }

    method Match(tx: Option<Psbt>, views: seq<Registry>, reply: Option<set<Vtxo>>) returns (r: Option<MatchedClaim>)
      requires tx.Some? ==> |views| == |tx.value.unsigned.outs|
      modifies this`packets
      ensures var m := if tx.None? then None else MatchOver(P, cfg, views, tx.value, 0);
              && r == (if m.Some? && GateSpendable(reply, m.value) then m else None)
              && packets == if tx.None? then old(packets) else LastView(old(packets), views, m)
    {
      var matched := MatchRegistered(tx, views);
      if matched.None? || !GateSpendable(reply, matched.value) {
        return None;
      }
      return matched;
    }

    /**
      The check a submission launches. `funding` is the transaction the indexer gives for the
      script, if it gives one that parses; then it is matched and solved as if it were streamed.
    */
    method ClaimIfAlreadyFunded(
        emulator: Emulator, funding: Option<Psbt>, views: seq<Registry>, reply: Option<set<Vtxo>>, accepts: bool)
      requires funding.Some? ==> |views| == |funding.value.unsigned.outs|
      modifies emulator, this`packets
      ensures var m := if funding.None? then None else MatchOver(P, cfg, views, funding.value, 0);
              var seen := if funding.None? then old(packets) else LastView(old(packets), views, m);
              if m.None? || !GateSpendable(reply, m.value)
              then packets == seen && emulator.received == old(emulator.received)
              else
                && emulator.received == old(emulator.received) + Submitted(P, cfg, m.value)
                && packets == if accepts && Submittable(P, cfg, m.value).Some?
                              then seen - {HexEncode(m.value.credentials.pkScript)} else seen
    {
      if funding.None? {
        return;
      }
      var m := Match(funding, views, reply);
      if m.Some? {
        Solve(emulator, m.value, accepts);
      }
    }

    /** Builds, encodes and submits; true when the emulator accepts. */
    method ClaimMatched(emulator: Emulator, m: MatchedClaim, accepts: bool) returns (ok: bool)
      modifies emulator
      ensures emulator.received == old(emulator.received) + Submitted(P, cfg, m)
      ensures ok <==> accepts && Submittable(P, cfg, m).Some?
    {
      var built := BuildClaim(P, Some(m), cfg.checkpointTapscript, cfg.signerPubKey, cfg.emulatorPubKey);
      if built.Err? {
        return false;
      }
      var (arkTx, checkpoints) := built.value;
      ghost var bundle := Built(P, m, cfg.checkpointTapscript, cfg.signerPubKey, cfg.emulatorPubKey).value;
      assert Views(checkpoints) == bundle.checkpoints;
      var ark := P.b64(arkTx.View());
      if ark.None? {
        return false;
      }
      var encoded := EncodePsbts(P, checkpoints);
      if encoded.None? {
        return false;
      }
      ok := emulator.SubmitTx(ark.value, encoded.value, accepts);
    }

    /** Claims and, on success only, removes whatever is registered under the claimed script. */
    method Solve(emulator: Emulator, m: MatchedClaim, accepts: bool)
      modifies emulator, this`packets
      ensures emulator.received == old(emulator.received) + Submitted(P, cfg, m)
      ensures packets == if accepts && Submittable(P, cfg, m).Some?
                         then old(packets) - {HexEncode(m.credentials.pkScript)} else old(packets)
    {
      var key := HexEncode(m.credentials.pkScript);
      var ok := ClaimMatched(emulator, m, accepts);
      if !ok {
        return;
      }
      packets := packets - {key};
    }
  }

  // ---------------------------------------------------------- meaning

  /** Refused exactly when the key is new and the unexpired entries already fill the registry. */
  lemma RegisterMeans(reg: Registry, key: string, pkt: ClaimPacket, taptree: seq<string>, now: int)
    requires |reg| <= MAX_REGISTRATIONS
    ensures var (r, reg') := Registered(reg, key, pkt, taptree, now);
            var live := set k | k in reg && reg[k].expireAt >= now;
            && (r == Err(RegistryFull) <==> key !in live && |live| >= 10_000)
            && (r.Err? ==> r == Err(RegistryFull))
            && |reg'| <= 10_000
            && (forall k :: k in reg' ==> reg'[k].expireAt >= now)
            && reg'.Keys == live + (if r.Ok? then {key} else {})
            && (forall k :: k in live && k != key ==> reg'[k] == reg[k])
  {
    var (r, reg') := Registered(reg, key, pkt, taptree, now);
    var live := set k | k in reg && reg[k].expireAt >= now;
    var kept := Unexpired(reg, now);
    assert kept.Keys == live;
    assert |kept.Keys| == |kept| && |reg.Keys| == |reg|;
    SubsetSize(live, reg.Keys);
    if r.Ok? {
      assert reg'.Keys == live + {key};
      if key in live {
        assert live + {key} == live;
      }
      assert |reg'.Keys| == |reg'|;
    }
  }

  /** Every entry after a registration is the new one or an old one unchanged. */
  lemma RegisteredEntries(reg: Registry, key: string, pkt: ClaimPacket, taptree: seq<string>, now: int, k: string)
    ensures var (r, reg') := Registered(reg, key, pkt, taptree, now);
            k in reg' ==>
              if k == key && r.Ok? then reg'[k] == Registration(pkt, taptree, now + 900_000_000_000)
              else k in reg && reg'[k] == reg[k]
  {
  }

  lemma SubsetSize<T>(a: set<T>, b: set<T>)
    requires a <= b
    ensures |a| <= |b|
  {
    assert |b| == |a| + |b - a| by {
      assert b == a + (b - a);
    }
  }

  /** What registration establishes: key, taptree, packet and preimage all belong together. */
  ghost predicate EntryBinds(P: Prims, cfg: Config, key: string, packet: ClaimPacket, taptree: seq<string>) {
    && Decrypted(P, cfg.secretKey, packet).Ok?
    && P.decodeClosures(taptree).Some?
    && P.OutputScript(P.decodeClosures(taptree).value).Some?
    && var pkScript := P.OutputScript(P.decodeClosures(taptree).value).value;
       && key == HexEncode(pkScript)
       && Binds(P, cfg, taptree, pkScript, packet.arkadeScript, Decrypted(P, cfg.secretKey, packet).value)
  }

  /** A submission passes its checks exactly when its parts bind, and then under its own address. */
  lemma CheckedIffBinds(P: Prims, cfg: Config, pkScript: Option<bytes>, taptree: seq<string>, pkt: ClaimPacket)
    ensures Checked(P, cfg, pkScript, taptree, pkt).Ok?
            <==> pkScript.Some? && EntryBinds(P, cfg, HexEncode(pkScript.value), pkt, taptree)
    ensures Checked(P, cfg, pkScript, taptree, pkt).Ok? ==>
              Checked(P, cfg, pkScript, taptree, pkt).value == HexEncode(pkScript.value)
  {
    if pkScript.Some? && EntryBinds(P, cfg, HexEncode(pkScript.value), pkt, taptree) {
      HexInjective(pkScript.value, P.OutputScript(P.decodeClosures(taptree).value).value);
    }
  }

  /** The first check that fails names the error. */
  lemma CheckedErrors(P: Prims, cfg: Config, pkScript: Option<bytes>, taptree: seq<string>, pkt: ClaimPacket)
    ensures var r := Checked(P, cfg, pkScript, taptree, pkt);
            && (r == Err(BadAddress) <==> pkScript.None?)
            && (pkScript.Some? && Decrypted(P, cfg.secretKey, pkt).Err? ==>
                  r == Err(BadPacket(Decrypted(P, cfg.secretKey, pkt).error)))
            && (pkScript.Some? && Decrypted(P, cfg.secretKey, pkt).Ok? ==>
                  if P.decodeClosures(taptree).None? then r == Err(UndecodableTaptree)
                  else
                    var cs := P.decodeClosures(taptree).value;
                    var search := Found(P, cs, cfg.signerPubKey, P.tweak(pkt.arkadeScript, cfg.emulatorPubKey),
                                        Decrypted(P, cfg.secretKey, pkt).value);
                    && (P.OutputScript(cs).None? ==> r == Err(NoTaptreeKey) || r == Err(NoTaptreeScript))
                    && (P.tapKey(cs).None? <==> r == Err(NoTaptreeKey))
                    && (P.OutputScript(cs).Some? && P.OutputScript(cs) != pkScript ==> r == Err(AddressMismatch))
                    && (P.OutputScript(cs) == pkScript && search.Err? ==> r == Err(NoClosure(search.error))))
  {
  }

  ghost predicate RegistryBinds(P: Prims, cfg: Config, reg: Registry) {
    forall key :: key in reg ==> EntryBinds(P, cfg, key, reg[key].packet, reg[key].taptree)
  }

  lemma RegisteredBinds(
      P: Prims, cfg: Config, reg: Registry, key: string, pkt: ClaimPacket, taptree: seq<string>, now: int)
    requires RegistryBinds(P, cfg, reg) && EntryBinds(P, cfg, key, pkt, taptree)
    ensures RegistryBinds(P, cfg, Registered(reg, key, pkt, taptree, now).1)
  {
    var reg' := Registered(reg, key, pkt, taptree, now).1;
    forall k | k in reg'
      ensures EntryBinds(P, cfg, k, reg'[k].packet, reg'[k].taptree)
    {
      RegisteredEntries(reg, key, pkt, taptree, now, k);
    }
  }

  /** Output i pays a registered script at least its entry's minimum. */
  predicate Paid(reg: Registry, tx: Psbt, i: nat) {
    && i < |tx.unsigned.outs|
    && var out := tx.unsigned.outs[i];
       HexEncode(out.pkScript) in reg && !reg[HexEncode(out.pkScript)].packet.Underfunds(out.value)
  }

  /** On a binding registry a lookup declines only for an unknown script or too little value. */
  lemma LookupDeclines(P: Prims, cfg: Config, reg: Registry, tx: Psbt, i: nat)
    requires RegistryBinds(P, cfg, reg) && i < |tx.unsigned.outs|
    ensures var out := tx.unsigned.outs[i];
            var key := HexEncode(out.pkScript);
            MatchAt(P, cfg, reg, tx, i).None?
            <==> key !in reg
                 || (reg[key].packet.minAmount.Some? && !(0 <= reg[key].packet.minAmount.value <= out.value))
  {
  }

  lemma LookupClaimable(P: Prims, cfg: Config, reg: Registry, tx: Psbt, i: nat)
    requires RegistryBinds(P, cfg, reg) && i < |tx.unsigned.outs| && MatchAt(P, cfg, reg, tx, i).Some?
    ensures Claimable(P, cfg, MatchAt(P, cfg, reg, tx, i).value, reg[HexEncode(tx.unsigned.outs[i].pkScript)].packet)
  {
    var key := HexEncode(tx.unsigned.outs[i].pkScript);
    assert EntryBinds(P, cfg, key, reg[key].packet, reg[key].taptree);
    HexInjective(tx.unsigned.outs[i].pkScript, P.OutputScript(P.decodeClosures(reg[key].taptree).value).value);
  }

  /** Matching never looks at expiry: only a later registration's purge enforces it. */
  lemma {:induction false} ExpiryIgnored(P: Prims, cfg: Config, reg: Registry, other: Registry, tx: Psbt, k: nat)
    requires reg.Keys == other.Keys
    requires forall key :: key in reg ==> reg[key].packet == other[key].packet && reg[key].taptree == other[key].taptree
    ensures MatchFrom(P, cfg, reg, tx, k) == MatchFrom(P, cfg, other, tx, k)
    decreases |tx.unsigned.outs| - k
  {
    if k < |tx.unsigned.outs| {
      ExpiryIgnored(P, cfg, reg, other, tx, k + 1);
    }
  }

  predicate Hits(P: Prims, cfg: Config, reg: Registry, tx: Psbt, i: nat) {
    i < |tx.unsigned.outs| && MatchAt(P, cfg, reg, tx, i).Some?
  }

  lemma {:induction false} RegistryScanStops(P: Prims, cfg: Config, reg: Registry, tx: Psbt, k: nat, hit: nat -> bool)
    requires k <= |tx.unsigned.outs| && forall i: nat :: hit(i) == Hits(P, cfg, reg, tx, i)
    ensures var first := First(hit, k, |tx.unsigned.outs|);
            MatchFrom(P, cfg, reg, tx, k)
            == if first < |tx.unsigned.outs| then MatchAt(P, cfg, reg, tx, first) else None
    decreases |tx.unsigned.outs| - k
  {
    if k < |tx.unsigned.outs| && !hit(k) {
      RegistryScanStops(P, cfg, reg, tx, k + 1, hit);
    }
  }

  lemma {:induction false} OverScanStops(
      P: Prims, cfg: Config, views: seq<Registry>, tx: Psbt, k: nat, hit: nat -> bool)
    requires |views| == |tx.unsigned.outs| && k <= |views|
    requires forall i: nat :: hit(i) == (i < |views| && MatchAt(P, cfg, views[i], tx, i).Some?)
    ensures var first := First(hit, k, |views|);
            MatchOver(P, cfg, views, tx, k) == if first < |views| then MatchAt(P, cfg, views[first], tx, first)
                else None
    decreases |views| - k
  {
    if k < |views| && !hit(k) {
      OverScanStops(P, cfg, views, tx, k + 1, hit);
    }
  }

  /** m is the first hit among these lookups. */
  ghost predicate FirstHit(P: Prims, cfg: Config, views: seq<Registry>, tx: Psbt, m: MatchedClaim)
    requires |views| == |tx.unsigned.outs|
  {
    && m.outpoint.index < |views|
    && MatchAt(P, cfg, views[m.outpoint.index], tx, m.outpoint.index) == Some(m)
    && forall j: nat :: j < m.outpoint.index ==> MatchAt(P, cfg, views[j], tx, j) == None
  }

  lemma MatchOverFinds(P: Prims, cfg: Config, views: seq<Registry>, tx: Psbt)
    requires |views| == |tx.unsigned.outs|
    ensures var r := MatchOver(P, cfg, views, tx, 0);
            if r.Some? then FirstHit(P, cfg, views, tx, r.value)
            else forall j: nat :: j < |views| ==> MatchAt(P, cfg, views[j], tx, j) == None
  {
    var hit := (i: nat) => i < |views| && MatchAt(P, cfg, views[i], tx, i).Some?;
    OverScanStops(P, cfg, views, tx, 0, hit);
    FirstIsLeast(hit, 0, |views|);
    assert forall j: nat :: j < First(hit, 0, |views|) ==> !hit(j);
  }

  /** The scan gives the first hit, each output looked up in the map its own lookup found. */
  lemma MatchOverIs(P: Prims, cfg: Config, views: seq<Registry>, tx: Psbt, m: MatchedClaim)
    requires |views| == |tx.unsigned.outs|
    ensures MatchOver(P, cfg, views, tx, 0) == Some(m) <==> FirstHit(P, cfg, views, tx, m)
    ensures MatchOver(P, cfg, views, tx, 0) == None
            <==> forall j: nat :: j < |views| ==> MatchAt(P, cfg, views[j], tx, j) == None
  {
    MatchOverFinds(P, cfg, views, tx);
    var r := MatchOver(P, cfg, views, tx, 0);
    if r.Some? && FirstHit(P, cfg, views, tx, m) {
      SoleFirstHit(P, cfg, views, tx, r.value, m);
    }
  }

  lemma SoleFirstHit(P: Prims, cfg: Config, views: seq<Registry>, tx: Psbt, m: MatchedClaim, other: MatchedClaim)
    requires |views| == |tx.unsigned.outs| && FirstHit(P, cfg, views, tx, m) && FirstHit(P, cfg, views, tx, other)
    ensures m == other
  {
    assert m.outpoint.index == other.outpoint.index;
  }

  /** A match is the lookup at its own index, and every earlier lookup declined. */
  lemma MatchIsFirstLookup(P: Prims, cfg: Config, reg: Registry, tx: Psbt)
    requires MatchFrom(P, cfg, reg, tx, 0).Some?
    ensures var m := MatchFrom(P, cfg, reg, tx, 0).value;
            && m.outpoint.index < |tx.unsigned.outs|
            && MatchAt(P, cfg, reg, tx, m.outpoint.index) == Some(m)
            && forall j: nat :: j < m.outpoint.index ==> !Hits(P, cfg, reg, tx, j)
  {
    var hit := (j: nat) => Hits(P, cfg, reg, tx, j);
    RegistryScanStops(P, cfg, reg, tx, 0, hit);
    FirstIsLeast(hit, 0, |tx.unsigned.outs|);
    var first := First(hit, 0, |tx.unsigned.outs|);
    assert forall j: nat :: j < first ==> !hit(j);
  }

  /** An output that pays a registered key enough is found, at its own index or an earlier one. */
  lemma PaidOutputIsMatched(P: Prims, cfg: Config, reg: Registry, tx: Psbt, i: nat)
    requires RegistryBinds(P, cfg, reg) && Paid(reg, tx, i)
    ensures var r := MatchFrom(P, cfg, reg, tx, 0);
            && r.Some? && r.value.outpoint.index <= i
            && MatchAt(P, cfg, reg, tx, r.value.outpoint.index) == r
            && forall j: nat :: j < r.value.outpoint.index ==> !Hits(P, cfg, reg, tx, j)
  {
    var hit := (j: nat) => Hits(P, cfg, reg, tx, j);
    LookupDeclines(P, cfg, reg, tx, i);
    RegistryScanStops(P, cfg, reg, tx, 0, hit);
    FirstIsLeast(hit, 0, |tx.unsigned.outs|);
    assert hit(i);
    MatchIsFirstLookup(P, cfg, reg, tx);
  }

  /** The encrypted path's match is the reveal path's, wherever the outputs carry the registered taptree. */
  lemma PathsAgree(P: Prims, cfg: Config, key: string, r: Registration, tx: Psbt)
    requires EntryBinds(P, cfg, key, r.packet, r.taptree)
    requires MatchFrom(P, cfg, map[key := r], tx, 0).Some?
    requires forall j :: 0 <= j < |tx.unsigned.outs| && HexEncode(tx.unsigned.outs[j].pkScript) == key ==>
               j < |tx.outputTaptrees| && tx.outputTaptrees[j] != []
               && P.decodeTapTree(tx.outputTaptrees[j]) == Some(r.taptree)
    ensures var m := MatchFrom(P, cfg, map[key := r], tx, 0).value;
            var tweaked := P.tweak(r.packet.arkadeScript, cfg.emulatorPubKey);
            && MatchOutput(P, cfg, tx, m.outpoint.index, r.packet, m.credentials.preimage, tweaked) == Some(m)
            && forall j :: 0 <= j < m.outpoint.index && HexEncode(tx.unsigned.outs[j].pkScript) == key ==>
                 MatchOutput(P, cfg, tx, j, r.packet, m.credentials.preimage, tweaked) == None
  {
    var reg := map[key := r];
    MatchIsFirstLookup(P, cfg, reg, tx);
    var m := MatchFrom(P, cfg, reg, tx, 0).value;
    LookupClaimable(P, cfg, reg, tx, m.outpoint.index);
    MatchOutputIff(P, cfg, tx, m.outpoint.index, r.packet, m.credentials.preimage);
    forall j | 0 <= j < m.outpoint.index && HexEncode(tx.unsigned.outs[j].pkScript) == key
      ensures MatchOutput(P, cfg, tx, j, r.packet, m.credentials.preimage,
          P.tweak(r.packet.arkadeScript, cfg.emulatorPubKey)) == None
    {
      assert !Hits(P, cfg, reg, tx, j);
      LookupDeclines(P, cfg, reg, tx, j);
    }
  }
}
