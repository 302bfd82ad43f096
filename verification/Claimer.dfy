/** The claim engine both plugins share: opening packets and matching outputs. */
module Claimer {
  import opened Results
  import opened Bytes
  import opened ChainTypes
  import opened Primitives
  import opened Packet
  import opened Contract
  import opened Ecies
  import opened Claim
  import opened Scan

  datatype Config = Config(
    secretKey: PrivKey, emulatorPubKey: PubKey, signerPubKey: PubKey, checkpointTapscript: bytes)

  datatype DecryptError =
    | InvalidArkadeScript(script: ContractError)
    | DecryptFailed(cause: EciesError)
    | WrongPreimageLength(len: nat)

  function Decrypted(P: Prims, secretKey: PrivKey, pkt: ClaimPacket): Result<bytes, DecryptError> {
    match Validated(pkt.arkadeScript)
    case Err(e) => Err(InvalidArkadeScript(e))
    case Ok(_) =>
      match Opened(P, Some(secretKey), pkt.ciphertext, MinAmountBytes(pkt.minAmount))
      case Err(e) => Err(DecryptFailed(e))
      case Ok(preimage) =>
        if |preimage| != PREIMAGE_SIZE then Err(WrongPreimageLength(|preimage|)) else Ok(preimage)
  }

  /** A packet opens to a preimage exactly when its script is a covenant, its text opens, and that has 32 bytes. */
  lemma DecryptsIff(P: Prims, secretKey: PrivKey, pkt: ClaimPacket, preimage: bytes)
    ensures Decrypted(P, secretKey, pkt) == Ok(preimage)
            <==> && (exists receiver :: PayTo(receiver) == Ok(pkt.arkadeScript)) && |preimage| == 32
                 && Opened(P, Some(secretKey), pkt.ciphertext, MinAmountBytes(pkt.minAmount)) == Ok(preimage)
  {
    if Validated(pkt.arkadeScript).Ok? {
      ValidatedIffPayTo(pkt.arkadeScript, Validated(pkt.arkadeScript).value);
    }
    forall receiver | PayTo(receiver) == Ok(pkt.arkadeScript)
      ensures Validated(pkt.arkadeScript).Ok?
    {
      ValidatedIffPayTo(pkt.arkadeScript, receiver);
    }
  }

  /**
    A sealed packet opens exactly when it states the minimum amount it was sealed with:
    editing, adding or stripping the amount makes it unreadable.
  */
  lemma AmountBinding(
      P: Prims, secretKey: PrivKey, preimage: bytes, sealedMin: Option<uint64>, eph: PrivKey, nonce: bytes,
      pkt: ClaimPacket)
    requires P.EcdhCommutes() && P.CompressionParses() && P.OpenInvertsSeal() && P.OpenRejectsOtherSuffix()
    requires |nonce| == ECIES_NONCE_LEN && |preimage| == PREIMAGE_SIZE
    requires pkt.ciphertext == Sealed(P, P.pubOf(secretKey), preimage, MinAmountBytes(sealedMin), eph, nonce)
    requires Validated(pkt.arkadeScript).Ok?
    ensures Decrypted(P, secretKey, pkt)
            == if pkt.minAmount == sealedMin then Ok(preimage) else Err(DecryptFailed(OpenFailed))
  {
    OpensOnlyAsSealed(P, secretKey, preimage, MinAmountBytes(sealedMin), MinAmountBytes(pkt.minAmount), eph, nonce);
    if MinAmountBytes(pkt.minAmount) == MinAmountBytes(sealedMin) {
      MinAmountBytesInjective(pkt.minAmount, sealedMin);
    }
  }

  /** What the claim must find at an output, once: its taptree derives the script and holds the claim closure. */
  ghost predicate Binds(
      P: Prims, cfg: Config, taptree: seq<string>, pkScript: bytes, arkadeScript: bytes, preimage: bytes) {
    && P.decodeClosures(taptree).Some?
    && P.OutputScript(P.decodeClosures(taptree).value) == Some(pkScript)
    && Found(P, P.decodeClosures(taptree).value, cfg.signerPubKey, P.tweak(arkadeScript, cfg.emulatorPubKey),
         preimage).Ok?
  }

  function MatchOutput(
      P: Prims, cfg: Config, tx: Psbt, i: nat, pkt: ClaimPacket, preimage: bytes, tweaked: PubKey)
    : Option<MatchedClaim>
  {
    if i >= |tx.unsigned.outs| || i >= |tx.outputTaptrees| then None
    else
      var out := tx.unsigned.outs[i];
      if tx.outputTaptrees[i] == [] then None
      else
        var leaves :- P.decodeTapTree(tx.outputTaptrees[i]);
        var cs :- P.decodeClosures(leaves);
        if Found(P, cs, cfg.signerPubKey, tweaked, preimage).Err? then None
        else
          var key :- P.tapKey(cs);
          var expectedPk :- P.p2tr(key);
          if out.pkScript != expectedPk || pkt.Underfunds(out.value) then None
          else Some(MatchedClaim(
            OutPoint(P.txHash(tx.unsigned), i), ToUint64(out.value), Some(tx.unsigned),
            ClaimCredentials(preimage, pkt.arkadeScript, leaves, expectedPk)))
  }

  /** The output a claim names, in the transaction it carries. */
  ghost predicate NamesOutput(P: Prims, m: MatchedClaim) {
    && m.sourceTx.Some?
    && m.outpoint.hash == P.txHash(m.sourceTx.value)
    && m.outpoint.index < |m.sourceTx.value.outs|
  }

  /** Everything a matched claim stands for, in terms of the packet it was matched from. */
  ghost predicate Claimable(P: Prims, cfg: Config, m: MatchedClaim, pkt: ClaimPacket) {
    && NamesOutput(P, m)
    && var out := m.sourceTx.value.outs[m.outpoint.index];
       && m.amount == ToUint64(out.value)
       && m.credentials.pkScript == out.pkScript
       && (pkt.minAmount.Some? ==> 0 <= pkt.minAmount.value <= out.value)
       && m.credentials.arkadeScript == pkt.arkadeScript
       && Decrypted(P, cfg.secretKey, pkt) == Ok(m.credentials.preimage)
       && Binds(P, cfg, m.credentials.taptree, out.pkScript, pkt.arkadeScript, m.credentials.preimage)
  }

  lemma MatchOutputClaimable(P: Prims, cfg: Config, tx: Psbt, i: nat, pkt: ClaimPacket, preimage: bytes)
    requires Decrypted(P, cfg.secretKey, pkt) == Ok(preimage)
    requires MatchOutput(P, cfg, tx, i, pkt, preimage, P.tweak(pkt.arkadeScript, cfg.emulatorPubKey)).Some?
    ensures var m := MatchOutput(P, cfg, tx, i, pkt, preimage, P.tweak(pkt.arkadeScript, cfg.emulatorPubKey)).value;
            Claimable(P, cfg, m, pkt) && m.sourceTx == Some(tx.unsigned) && m.outpoint.index == i
  {
  }

  /** An output matches exactly when it carries a taptree that binds it and enough value. */
  lemma MatchOutputIff(P: Prims, cfg: Config, tx: Psbt, i: nat, pkt: ClaimPacket, preimage: bytes)
    ensures MatchOutput(P, cfg, tx, i, pkt, preimage, P.tweak(pkt.arkadeScript, cfg.emulatorPubKey)).Some?
            <==> Funds(P, cfg, tx, i, pkt, preimage)
    ensures Funds(P, cfg, tx, i, pkt, preimage) ==>
              MatchOutput(P, cfg, tx, i, pkt, preimage, P.tweak(pkt.arkadeScript, cfg.emulatorPubKey))
              == Some(ClaimOn(P, tx, i, pkt, preimage))
  {
  }

  /** Output i carries a taptree that binds it to the packet and its preimage, and the packet's minimum. */
  ghost predicate Funds(P: Prims, cfg: Config, tx: Psbt, i: nat, pkt: ClaimPacket, preimage: bytes) {
    && i < |tx.unsigned.outs| && i < |tx.outputTaptrees| && tx.outputTaptrees[i] != []
    && P.decodeTapTree(tx.outputTaptrees[i]).Some?
    && Binds(P, cfg, P.decodeTapTree(tx.outputTaptrees[i]).value, tx.unsigned.outs[i].pkScript,
         pkt.arkadeScript, preimage)
    && (pkt.minAmount.Some? ==> 0 <= pkt.minAmount.value <= tx.unsigned.outs[i].value)
  }

  /** The claim on an output that carries a taptree. */
  function ClaimOn(P: Prims, tx: Psbt, i: nat, pkt: ClaimPacket, preimage: bytes): MatchedClaim
    requires i < |tx.unsigned.outs| && i < |tx.outputTaptrees| && P.decodeTapTree(tx.outputTaptrees[i]).Some?
  {
    MatchedClaim(
      OutPoint(P.txHash(tx.unsigned), i), ToUint64(tx.unsigned.outs[i].value), Some(tx.unsigned),
      ClaimCredentials(
        preimage, pkt.arkadeScript, P.decodeTapTree(tx.outputTaptrees[i]).value, tx.unsigned.outs[i].pkScript))
  }

  /** The re-checks before building never fail on a matched claim, and reveal a provable leaf of its output. */
  lemma NoLateFailure(P: Prims, cfg: Config, m: MatchedClaim, pkt: ClaimPacket)
    requires P.DecodedClosuresEncode() && P.LeavesAreProvable() && P.Hash160Length()
    requires Claimable(P, cfg, m, pkt)
    ensures var r := Prepare(P, m, cfg.signerPubKey, cfg.emulatorPubKey);
            var cs := P.decodeClosures(m.credentials.taptree).value;
            && r.Ok?
            && r.value.closure in cs && P.closureScript(r.value.closure) == Some(r.value.revealed)
            && P.proves(m.credentials.pkScript, r.value.controlBlock, r.value.revealed)
            && PayTo(r.value.receiver) == Ok(pkt.arkadeScript)
  {
    var leaves := m.credentials.taptree;
    var cs := P.decodeClosures(leaves).value;
    var tweaked := P.tweak(pkt.arkadeScript, cfg.emulatorPubKey);
    FirstClaimMeans(P, cs, Condition(P.hash160(m.credentials.preimage)), cfg.signerPubKey, tweaked);
    var closure := Found(P, cs, cfg.signerPubKey, tweaked, m.credentials.preimage).value;
    assert closure in cs;
    assert P.closureScript(closure).Some?;
    ValidatedIffPayTo(pkt.arkadeScript, Validated(pkt.arkadeScript).value);
  }

  /** Whatever is built for a claimable match pays the output's own value to the covenant's receiver. */
  lemma ClaimablePays(P: Prims, cfg: Config, m: MatchedClaim, pkt: ClaimPacket)
    requires P.DecodedClosuresEncode() && P.LeavesAreProvable() && P.Hash160Length() && P.BuilderKeepsShape()
    requires Claimable(P, cfg, m, pkt)
    ensures Prepare(P, m, cfg.signerPubKey, cfg.emulatorPubKey).Ok?
    ensures Validated(pkt.arkadeScript).Ok?
    ensures Prepare(P, m, cfg.signerPubKey, cfg.emulatorPubKey).value.receiver == Validated(pkt.arkadeScript).value
    ensures forall b :: Built(P, m, cfg.checkpointTapscript, cfg.signerPubKey, cfg.emulatorPubKey) == Ok(b) ==>
              && PaysReceiver(P, m, cfg.checkpointTapscript, b)
              && b.ark.tx.outs[0]
                   == TxOut(m.sourceTx.value.outs[m.outpoint.index].value, Validated(pkt.arkadeScript).value)
  {
    NoLateFailure(P, cfg, m, pkt);
    PreparedReceiver(P, m, cfg.signerPubKey, cfg.emulatorPubKey);
    if Built(P, m, cfg.checkpointTapscript, cfg.signerPubKey, cfg.emulatorPubKey).Ok? {
      BuiltPaysValue(P, m, cfg.checkpointTapscript, cfg.signerPubKey, cfg.emulatorPubKey,
        m.sourceTx.value.outs[m.outpoint.index].value);
    }
  }

  // -------------------------------------------------- the spendability gate

  /** An unspent output as the indexer lists it. */
  datatype Vtxo = Vtxo(outpoint: OutPoint, pkScript: bytes)

  /** The indexer's reply is an error, or what is spendable; the gate asks for the claimed script only. */
  predicate GateSpendable(reply: Option<set<Vtxo>>, m: MatchedClaim) {
    reply.Some? && exists v <- reply.value :: v.pkScript == m.credentials.pkScript
  }

  /** Is the output that was matched among those spendable? */
  predicate MatchedIsSpendable(reply: Option<set<Vtxo>>, m: MatchedClaim) {
    reply.Some? && Vtxo(m.outpoint, m.credentials.pkScript) in reply.value
  }

  /** What a reply lists beside the claimed script makes no difference, and only that script lets a claim through. */
  lemma GateAsksForScript(m: MatchedClaim, v: Vtxo, some: set<Vtxo>, others: set<Vtxo>)
    ensures !GateSpendable(None, m) && !GateSpendable(Some({}), m)
    ensures GateSpendable(Some({v}), m) <==> v.pkScript == m.credentials.pkScript
    ensures GateSpendable(Some(some + others), m) <==> GateSpendable(Some(some), m) || GateSpendable(Some(others), m)
  {
    assert v in {v};
    assert forall u :: u in some + others <==> u in some || u in others;
  }

  /** The claimed script was never paid but by the matched output. */
  ghost predicate PaidOnce(paid: set<Vtxo>, m: MatchedClaim) {
    forall v <- paid :: v.pkScript == m.credentials.pkScript ==> v.outpoint == m.outpoint
  }

  /**
    Over all replies drawn from the outputs ever paid, a passed gate vouches for the matched
    output exactly when no other of those outputs pays the claimed script.
  */
  lemma GateVouchesIffPaidOnce(paid: set<Vtxo>, m: MatchedClaim)
    ensures (forall spendable: set<Vtxo> :: spendable <= paid && GateSpendable(Some(spendable), m) ==>
               MatchedIsSpendable(Some(spendable), m))
            <==> PaidOnce(paid, m)
  {
    if !PaidOnce(paid, m) {
      var v :| v in paid && v.pkScript == m.credentials.pkScript && v.outpoint != m.outpoint;
      var other := {v};
      assert v in other && other <= paid;
      assert GateSpendable(Some(other), m) && !MatchedIsSpendable(Some(other), m);
    }
  }

  // ------------------------------------------------- the encrypted plugin

  /** The first output from the k-th on that matches. */
  function FirstMatch(P: Prims, cfg: Config, tx: Psbt, k: nat, pkt: ClaimPacket, preimage: bytes): Option<MatchedClaim>
    decreases |tx.unsigned.outs| - k
  {
    if k >= |tx.unsigned.outs| then None
    else
      var m := MatchOutput(P, cfg, tx, k, pkt, preimage, P.tweak(pkt.arkadeScript, cfg.emulatorPubKey));
      if m.Some? then m else FirstMatch(P, cfg, tx, k + 1, pkt, preimage)
  }

  function Decoded(P: Prims, cfg: Config, tx: Psbt, ext: Extension): Option<(ClaimPacket, MatchedClaim)> {
    match FindClaim(ext)
    case Err(_) => None
    case Ok(None) => None
    case Ok(Some(pkt)) =>
      if pkt.SealedToAnother(P.compress(P.pubOf(cfg.secretKey))) then None
      else match Decrypted(P, cfg.secretKey, pkt)
        case Err(_) => None
        case Ok(preimage) =>
          match FirstMatch(P, cfg, tx, 0, pkt, preimage)
          case None => None
          case Some(m) => Some((pkt, m))
  }

  method Decode(P: Prims, cfg: Config, tx: Psbt, ext: Extension) returns (r: Option<MatchedClaim>)
    ensures r == match Decoded(P, cfg, tx, ext) case None => None case Some((_, m)) => Some(m)
  {
    var found := FindClaim(ext);
    if found.Err? || found.value.None? {
      return None;
    }
    var pkt := found.value.value;
    if pkt.SealedToAnother(P.compress(P.pubOf(cfg.secretKey))) {
      return None;
    }
    var preimage := Decrypted(P, cfg.secretKey, pkt);
    if preimage.Err? {
      return None;
    }
    var tweaked := P.tweak(pkt.arkadeScript, cfg.emulatorPubKey);
    for i := 0 to |tx.unsigned.outs|
      invariant FirstMatch(P, cfg, tx, 0, pkt, preimage.value) == FirstMatch(P, cfg, tx, i, pkt, preimage.value)
    {
      var m := MatchOutput(P, cfg, tx, i, pkt, preimage.value, tweaked);
      if m.Some? {
        return m;
      }
    }
    return None;
  }

  predicate Matches(P: Prims, cfg: Config, tx: Psbt, i: nat, pkt: ClaimPacket, preimage: bytes) {
    MatchOutput(P, cfg, tx, i, pkt, preimage, P.tweak(pkt.arkadeScript, cfg.emulatorPubKey)).Some?
  }

  lemma {:induction false} ScanStops(
      P: Prims, cfg: Config, tx: Psbt, k: nat, pkt: ClaimPacket, preimage: bytes, hit: nat -> bool)
    requires k <= |tx.unsigned.outs| && forall i: nat :: hit(i) == Matches(P, cfg, tx, i, pkt, preimage)
    ensures var first := First(hit, k, |tx.unsigned.outs|);
            FirstMatch(P, cfg, tx, k, pkt, preimage)
            == if first < |tx.unsigned.outs|
               then MatchOutput(P, cfg, tx, first, pkt, preimage, P.tweak(pkt.arkadeScript, cfg.emulatorPubKey))
                   else None
    decreases |tx.unsigned.outs| - k
  {
    if k < |tx.unsigned.outs| && !hit(k) {
      ScanStops(P, cfg, tx, k + 1, pkt, preimage, hit);
    }
  }

  /** The scan returns the match at the lowest index, at or before any index known to match. */
  lemma FirstMatchIsFirst(P: Prims, cfg: Config, tx: Psbt, i: nat, pkt: ClaimPacket, preimage: bytes)
    requires i < |tx.unsigned.outs| && Matches(P, cfg, tx, i, pkt, preimage)
    ensures var r := FirstMatch(P, cfg, tx, 0, pkt, preimage);
            && r.Some? && r.value.outpoint.index <= i
            && r == MatchOutput(P, cfg, tx, r.value.outpoint.index, pkt, preimage,
                 P.tweak(pkt.arkadeScript, cfg.emulatorPubKey))
            && forall j :: 0 <= j < r.value.outpoint.index ==> !Matches(P, cfg, tx, j, pkt, preimage)
  {
    var hit := (j: nat) => Matches(P, cfg, tx, j, pkt, preimage);
    ScanStops(P, cfg, tx, 0, pkt, preimage, hit);
    FirstIsLeast(hit, 0, |tx.unsigned.outs|);
    var first := First(hit, 0, |tx.unsigned.outs|);
    assert hit(i);
    assert forall j: nat :: j < first ==> !hit(j);
  }

  lemma FirstMatchComesFromOutput(P: Prims, cfg: Config, tx: Psbt, pkt: ClaimPacket, preimage: bytes)
    requires FirstMatch(P, cfg, tx, 0, pkt, preimage).Some?
    ensures var m := FirstMatch(P, cfg, tx, 0, pkt, preimage).value;
            Some(m) == MatchOutput(P, cfg, tx, m.outpoint.index, pkt, preimage,
                P.tweak(pkt.arkadeScript, cfg.emulatorPubKey))
  {
    ScanStops(P, cfg, tx, 0, pkt, preimage, (j: nat) => Matches(P, cfg, tx, j, pkt, preimage));
  }

  /** Does the packet name no covclaimd, or this one? */
  predicate MeantForUs(P: Prims, cfg: Config, pkt: ClaimPacket) {
    pkt.covclaimdPubKey == [] || pkt.covclaimdPubKey == P.compress(P.pubOf(cfg.secretKey))
  }

  lemma DeclinesIffMeantForAnother(P: Prims, cfg: Config, pkt: ClaimPacket)
    requires P.CompressionParses()
    ensures pkt.SealedToAnother(P.compress(P.pubOf(cfg.secretKey))) <==> !MeantForUs(P, cfg, pkt)
  {
    assert |P.compress(P.pubOf(cfg.secretKey))| == PUB_LEN;
  }

  /**
    What the encrypted plugin decodes, exactly: the extension's packet names nobody or us, it
    opens, and the claim is the one on the first output that funds it.
  */
  lemma DecodedIff(P: Prims, cfg: Config, tx: Psbt, ext: Extension, pkt: ClaimPacket, m: MatchedClaim)
    requires P.CompressionParses()
    ensures Decoded(P, cfg, tx, ext) == Some((pkt, m))
            <==> && FindClaim(ext) == Ok(Some(pkt))
                 && (pkt.covclaimdPubKey == [] || pkt.covclaimdPubKey == P.compress(P.pubOf(cfg.secretKey)))
                 && Decrypted(P, cfg.secretKey, pkt).Ok?
                 && var preimage, i := Decrypted(P, cfg.secretKey, pkt).value, m.outpoint.index;
                    && Funds(P, cfg, tx, i, pkt, preimage) && m == ClaimOn(P, tx, i, pkt, preimage)
                    && forall j: nat :: j < i ==> !Funds(P, cfg, tx, j, pkt, preimage)
  {
    DeclinesIffMeantForAnother(P, cfg, pkt);
    if FindClaim(ext) == Ok(Some(pkt)) && Decrypted(P, cfg.secretKey, pkt).Ok? {
      FirstMatchIs(P, cfg, tx, pkt, Decrypted(P, cfg.secretKey, pkt).value, m);
    }
  }

  /** The scan finds exactly the claim on the first output that funds the packet. */
  lemma FirstMatchIs(P: Prims, cfg: Config, tx: Psbt, pkt: ClaimPacket, preimage: bytes, m: MatchedClaim)
    ensures FirstMatch(P, cfg, tx, 0, pkt, preimage) == Some(m)
            <==> && Funds(P, cfg, tx, m.outpoint.index, pkt, preimage)
                 && m == ClaimOn(P, tx, m.outpoint.index, pkt, preimage)
                 && forall j: nat :: j < m.outpoint.index ==> !Funds(P, cfg, tx, j, pkt, preimage)
  {
    forall j: nat
      ensures Matches(P, cfg, tx, j, pkt, preimage) <==> Funds(P, cfg, tx, j, pkt, preimage)
    {
      MatchOutputIff(P, cfg, tx, j, pkt, preimage);
    }
    if FirstMatch(P, cfg, tx, 0, pkt, preimage) == Some(m) {
      FirstMatchComesFromOutput(P, cfg, tx, pkt, preimage);
      FirstMatchIsFirst(P, cfg, tx, m.outpoint.index, pkt, preimage);
      MatchOutputIff(P, cfg, tx, m.outpoint.index, pkt, preimage);
    } else if Funds(P, cfg, tx, m.outpoint.index, pkt, preimage)
        && m == ClaimOn(P, tx, m.outpoint.index, pkt, preimage) {
      FirstMatchIsFirst(P, cfg, tx, m.outpoint.index, pkt, preimage);
      var first := FirstMatch(P, cfg, tx, 0, pkt, preimage).value.outpoint.index;
      MatchOutputIff(P, cfg, tx, first, pkt, preimage);
    }
  }

  /** So a transaction is decoded exactly when its packet is meant for us, opens, and is funded somewhere. */
  lemma DecodesIff(P: Prims, cfg: Config, tx: Psbt, ext: Extension)
    requires P.CompressionParses()
    ensures Decoded(P, cfg, tx, ext).Some?
            <==> && FindClaim(ext).Ok? && FindClaim(ext).value.Some?
                 && var pkt := FindClaim(ext).value.value;
                    && MeantForUs(P, cfg, pkt) && Decrypted(P, cfg.secretKey, pkt).Ok?
                    && exists i: nat :: Funds(P, cfg, tx, i, pkt, Decrypted(P, cfg.secretKey, pkt).value)
  {
    if Decoded(P, cfg, tx, ext).Some? {
      var (pkt, m) := Decoded(P, cfg, tx, ext).value;
      DecodedIff(P, cfg, tx, ext, pkt, m);
    } else if FindClaim(ext).Ok? && FindClaim(ext).value.Some? {
      var pkt := FindClaim(ext).value.value;
      DeclinesIffMeantForAnother(P, cfg, pkt);
      if MeantForUs(P, cfg, pkt) && Decrypted(P, cfg.secretKey, pkt).Ok? {
        NothingFunds(P, cfg, tx, pkt, Decrypted(P, cfg.secretKey, pkt).value);
      }
    }
  }

  lemma NothingFunds(P: Prims, cfg: Config, tx: Psbt, pkt: ClaimPacket, preimage: bytes)
    requires FirstMatch(P, cfg, tx, 0, pkt, preimage).None?
    ensures forall i: nat :: !Funds(P, cfg, tx, i, pkt, preimage)
  {
    forall i: nat
      ensures !Funds(P, cfg, tx, i, pkt, preimage)
    {
      MatchOutputIff(P, cfg, tx, i, pkt, preimage);
      if Funds(P, cfg, tx, i, pkt, preimage) {
        FirstMatchIsFirst(P, cfg, tx, i, pkt, preimage);
      }
    }
  }

  /** Every claim the encrypted plugin decodes is claimable under a packet not meant for another. */
  lemma DecodedIsClaimable(P: Prims, cfg: Config, tx: Psbt, ext: Extension)
    requires Decoded(P, cfg, tx, ext).Some?
    ensures var (pkt, m) := Decoded(P, cfg, tx, ext).value;
            Claimable(P, cfg, m, pkt) && m.sourceTx == Some(tx.unsigned)
            && !pkt.SealedToAnother(P.compress(P.pubOf(cfg.secretKey)))
  {
    var (pkt, m) := Decoded(P, cfg, tx, ext).value;
    var preimage := Decrypted(P, cfg.secretKey, pkt).value;
    FirstMatchComesFromOutput(P, cfg, tx, pkt, preimage);
    MatchOutputClaimable(P, cfg, tx, m.outpoint.index, pkt, preimage);
  }
}

/** The funder's side, and the whole path from packet to paid receiver. */
module Maker {
  import opened Results
  import opened Bytes
  import opened ChainTypes
  import opened Primitives
  import opened Packet
  import opened PacketMeaning
  import opened Contract
  import opened Ecies
  import opened Claim
  import opened Claimer

  datatype MakerError =
    | BadPreimage(len: nat)
    | NilCovclaimdKey
    | BadReceiver(script: ContractError)
    | Unserializable(cause: SerializeError)

  /** The packet a maker stamps, for one choice of ephemeral key and nonce. */
  function BuildPacket(
      P: Prims, preimage: bytes, covclaimd: Option<PubKey>, receiver: bytes, eph: PrivKey, nonce: bytes)
    : Result<ExtPacket, MakerError>
  {
    if |preimage| != PREIMAGE_SIZE then Err(BadPreimage(|preimage|))
    else if covclaimd.None? then Err(NilCovclaimdKey)
    else match PayTo(receiver)
      case Err(e) => Err(BadReceiver(e))
      case Ok(arkadeScript) =>
        var ciphertext := Sealed(P, covclaimd.value, preimage, [], eph, nonce);
        match Serialized(ClaimPacket(ciphertext, arkadeScript, P.compress(covclaimd.value), None))
        case Err(e) => Err(Unserializable(e))
        case Ok(body) => Ok(Unknown(PACKET_TYPE, body))
  }

  /** A packet can be made exactly for a 32-byte preimage, a key, and a P2TR receiver. */
  lemma BuildPacketIff(
      P: Prims, preimage: bytes, covclaimd: Option<PubKey>, receiver: bytes, eph: PrivKey, nonce: bytes)
    requires P.CompressionParses() && P.OpenInvertsSeal() && |nonce| == ECIES_NONCE_LEN
    ensures BuildPacket(P, preimage, covclaimd, receiver, eph, nonce).Ok?
            <==> |preimage| == PREIMAGE_SIZE && covclaimd.Some? && IsP2tr(receiver)
  {
    if |preimage| == PREIMAGE_SIZE && covclaimd.Some? && IsP2tr(receiver) {
      Framing(P, covclaimd.value, preimage, [], eph, nonce);
      assert |P.compress(covclaimd.value)| == PUB_LEN;
    }
  }

  /** A made packet parses back, is addressed to its covclaimd, and opens to its preimage. */
  lemma MadePacketOpens(
      P: Prims, secretKey: PrivKey, preimage: bytes, receiver: bytes, eph: PrivKey, nonce: bytes,
      before: Extension, after: Extension)
    requires P.EcdhCommutes() && P.CompressionParses() && P.OpenInvertsSeal() && P.OpenRejectsOtherSuffix()
    requires |preimage| == PREIMAGE_SIZE && IsP2tr(receiver) && |nonce| == ECIES_NONCE_LEN
    requires forall o <- before :: o.typ != PACKET_TYPE
    ensures var made := BuildPacket(P, preimage, Some(P.pubOf(secretKey)), receiver, eph, nonce);
            made.Ok? &&
            var found := FindClaim(before + [made.value] + after);
            && found.Ok? && found.value.Some?
            && var pkt := found.value.value;
               && pkt.AddressedTo(P.compress(P.pubOf(secretKey)))
               && !pkt.SealedToAnother(P.compress(P.pubOf(secretKey)))
               && Ok(pkt.arkadeScript) == PayTo(receiver) && pkt.minAmount == None
               && pkt.ciphertext == Sealed(P, P.pubOf(secretKey), preimage, [], eph, nonce) && |pkt.ciphertext| == 93
               && Decrypted(P, secretKey, pkt) == Ok(preimage)
  {
    var pub := P.pubOf(secretKey);
    var arkadeScript := PayTo(receiver).value;
    var pkt := ClaimPacket(Sealed(P, pub, preimage, [], eph, nonce), arkadeScript, P.compress(pub), None);
    assert |P.compress(pub)| == PUB_LEN;
    Framing(P, pub, preimage, [], eph, nonce);
    assert |arkadeScript| == 43;
    RoundTrip(pkt);
    var made := BuildPacket(P, preimage, Some(pub), receiver, eph, nonce);
    PacketFound(before, made.value, after);
    ValidatedIffPayTo(arkadeScript, receiver);
    AmountBinding(P, secretKey, preimage, None, eph, nonce, pkt);
  }

  /** The extension gives the first packet of a type, whatever stands after it. */
  lemma {:induction false} PacketFound(before: Extension, p: ExtPacket, after: Extension)
    requires forall o <- before :: o.typ != p.typ
    ensures PacketByType(before + [p] + after, p.typ) == Some(p)
  {
    if before != [] {
      assert (before + [p] + after)[1..] == before[1..] + [p] + after;
      PacketFound(before[1..], p, after);
    }
  }

  /** The covenant closure is what the search looks for, wherever it stands among other closures. */
  lemma CovenantClosureIsFound(P: Prims, cfg: Config, cs: seq<Closure>, preimage: bytes, receiver: bytes)
    requires P.Hash160Length() && IsP2tr(receiver)
    requires exists c <- cs ::
               CovenantClaimClosure(P, P.hash160(preimage), receiver, Some(cfg.signerPubKey), Some(cfg.emulatorPubKey))
               == Ok(c)
    ensures Found(P, cs, cfg.signerPubKey, P.tweak(PayTo(receiver).value, cfg.emulatorPubKey), preimage).Ok?
  {
    FirstClaimMeans(P, cs, Condition(P.hash160(preimage)), cfg.signerPubKey,
        P.tweak(PayTo(receiver).value, cfg.emulatorPubKey));
  }

  /** Output i is funded for the receiver: its taptree derives its script and holds the covenant closure. */
  ghost predicate CovenantFunded(P: Prims, cfg: Config, tx: Psbt, i: nat, preimage: bytes, receiver: bytes) {
    && i < |tx.unsigned.outs| && i < |tx.outputTaptrees| && tx.outputTaptrees[i] != []
    && P.decodeTapTree(tx.outputTaptrees[i]).Some?
    && var leaves := P.decodeTapTree(tx.outputTaptrees[i]).value;
       && P.decodeClosures(leaves).Some?
       && P.OutputScript(P.decodeClosures(leaves).value) == Some(tx.unsigned.outs[i].pkScript)
       && exists c <- P.decodeClosures(leaves).value ::
            CovenantClaimClosure(P, P.hash160(preimage), receiver, Some(cfg.signerPubKey), Some(cfg.emulatorPubKey))
            == Ok(c)
  }

  /** The claim decoded from the transaction is at output i or an earlier one, and builds only to pay the receiver. */
  ghost predicate ClaimedFor(
      P: Prims, cfg: Config, tx: Psbt, ext: Extension, i: nat, preimage: bytes, receiver: bytes) {
    && Decoded(P, cfg, tx, ext).Some?
    && var (pkt, m) := Decoded(P, cfg, tx, ext).value;
       && m.outpoint.index <= i && Claimable(P, cfg, m, pkt) && m.sourceTx == Some(tx.unsigned)
       && m.credentials.preimage == preimage
       && Prepare(P, m, cfg.signerPubKey, cfg.emulatorPubKey).Ok?
       && Prepare(P, m, cfg.signerPubKey, cfg.emulatorPubKey).value.receiver == receiver
       && forall b :: Built(P, m, cfg.checkpointTapscript, cfg.signerPubKey, cfg.emulatorPubKey) == Ok(b) ==>
            PaysReceiver(P, m, cfg.checkpointTapscript, b)
            && b.ark.tx.outs[0] == TxOut(tx.unsigned.outs[m.outpoint.index].value, receiver)
  }

  lemma CovenantFunds(P: Prims, cfg: Config, tx: Psbt, i: nat, pkt: ClaimPacket, preimage: bytes, receiver: bytes)
    requires P.Hash160Length() && CovenantFunded(P, cfg, tx, i, preimage, receiver)
    requires PayTo(receiver) == Ok(pkt.arkadeScript)
    requires pkt.minAmount.Some? ==> pkt.minAmount.value <= tx.unsigned.outs[i].value
    ensures Funds(P, cfg, tx, i, pkt, preimage)
  {
    var cs := P.decodeClosures(P.decodeTapTree(tx.outputTaptrees[i]).value).value;
    CovenantClosureIsFound(P, cfg, cs, preimage, receiver);
  }

  /**
    Packet to paid receiver: whatever packet the extension gives, with or without a minimum,
    naming us or nobody. If it is sealed to us under its own minimum and an output is funded
    for its receiver with at least that, the transaction is claimed for the receiver.
  */
  lemma SealedToBot(
      P: Prims, cfg: Config, preimage: bytes, receiver: bytes, eph: PrivKey, nonce: bytes,
      ext: Extension, pkt: ClaimPacket, tx: Psbt, i: nat)
    requires P.Lawful() && |preimage| == PREIMAGE_SIZE && |nonce| == ECIES_NONCE_LEN
    requires FindClaim(ext) == Ok(Some(pkt)) && MeantForUs(P, cfg, pkt) && PayTo(receiver) == Ok(pkt.arkadeScript)
    requires pkt.ciphertext
             == Sealed(P, P.pubOf(cfg.secretKey), preimage, MinAmountBytes(pkt.minAmount), eph, nonce)
    requires CovenantFunded(P, cfg, tx, i, preimage, receiver)
    requires pkt.minAmount.Some? ==> pkt.minAmount.value <= tx.unsigned.outs[i].value
    ensures ClaimedFor(P, cfg, tx, ext, i, preimage, receiver)
  {
    ValidatedIffPayTo(pkt.arkadeScript, receiver);
    AmountBinding(P, cfg.secretKey, preimage, pkt.minAmount, eph, nonce, pkt);
    CovenantFunds(P, cfg, tx, i, pkt, preimage, receiver);
    DecodesIff(P, cfg, tx, ext);
    var m := Decoded(P, cfg, tx, ext).value.1;
    DecodedIff(P, cfg, tx, ext, pkt, m);
    DecodedIsClaimable(P, cfg, tx, ext);
    ClaimablePays(P, cfg, m, pkt);
  }

  /** A body that parses to a packet is what the extension gives, whatever else it holds of other types before it. */
  lemma StampedIsFound(before: Extension, body: bytes, after: Extension, pkt: ClaimPacket)
    requires (forall o <- before :: o.typ != PACKET_TYPE) && Deserialized(body) == Ok(pkt)
    ensures FindClaim(before + [Unknown(PACKET_TYPE, body)] + after) == Ok(Some(pkt))
  {
    PacketFound(before, Unknown(PACKET_TYPE, body), after);
  }

  /**
    Maker to bot: a funded output whose taptree holds the covenant closure, in a transaction
    stamped with the made packet, is claimed for the receiver at that output or an earlier one.
  */
  lemma MakerToBot(
      P: Prims, cfg: Config, preimage: bytes, receiver: bytes, eph: PrivKey, nonce: bytes,
      before: Extension, after: Extension, tx: Psbt, i: nat)
    requires P.Lawful()
    requires |preimage| == PREIMAGE_SIZE && IsP2tr(receiver) && |nonce| == ECIES_NONCE_LEN
    requires forall o <- before :: o.typ != PACKET_TYPE
    requires CovenantFunded(P, cfg, tx, i, preimage, receiver)
    ensures var made := BuildPacket(P, preimage, Some(P.pubOf(cfg.secretKey)), receiver, eph, nonce);
            made.Ok? && ClaimedFor(P, cfg, tx, before + [made.value] + after, i, preimage, receiver)
  {
    MadePacketOpens(P, cfg.secretKey, preimage, receiver, eph, nonce, before, after);
    var made := BuildPacket(P, preimage, Some(P.pubOf(cfg.secretKey)), receiver, eph, nonce).value;
    var ext := before + [made] + after;
    SealedToBot(P, cfg, preimage, receiver, eph, nonce, ext, FindClaim(ext).value.value, tx, i);
  }
}
