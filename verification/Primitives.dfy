/** Transaction-level values shared by the claim engine. */
module ChainTypes {
  import opened Bytes
  import opened Results

  datatype PrivKey = PrivKey(scalar: bytes)
  datatype PubKey = PubKey(point: bytes)

  datatype OutPoint = OutPoint(hash: bytes, index: nat)
  datatype TxOut = TxOut(value: int64, pkScript: bytes)

  /** A transaction as the claim engine sees it: its outputs, and everything else unread. */
  datatype Tx = Tx(outs: seq<TxOut>, rest: bytes)

  /** A streamed PSBT: the unsigned transaction and each output's BIP-371 taptree field. */
  datatype Psbt = Psbt(unsigned: Tx, outputTaptrees: seq<bytes>)

  datatype Closure =
    | ConditionMultisig(condition: bytes, pubKeys: seq<PubKey>)
    | OtherClosure(raw: bytes)

  datatype Tapscript = Tapscript(controlBlock: bytes, revealedScript: bytes)

  datatype VtxoInput = VtxoInput(
    outpoint: OutPoint, amount: int64, tapscript: Tapscript, revealedTapscripts: seq<string>)

  /** A built input, with the taptree it discloses. */
  datatype SpentInput = SpentInput(
    outpoint: OutPoint, value: int64, tapscript: Option<Tapscript>, taptree: seq<string>)

  /** A built transaction; a checkpoint's own output also commits to a tapscript. */
  datatype BuiltTx = BuiltTx(ins: seq<SpentInput>, outs: seq<TxOut>, exitTapscript: Option<bytes>)

  /** What the external builder returns: the ark transaction and its checkpoints. */
  datatype Bundle = Bundle(ark: BuiltTx, checkpoints: seq<BuiltTx>)

  /** The Arkade fields a claim sets on input 0 of what was built. */
  datatype PsbtField = PrevArkTxField | ConditionWitnessField

  /** A built PSBT with those fields. */
  datatype ClaimPsbt = ClaimPsbt(tx: BuiltTx, prevArkTx: Option<Tx>, conditionWitness: Option<seq<bytes>>)

  datatype ClaimBundle = ClaimBundle(ark: ClaimPsbt, checkpoints: seq<ClaimPsbt>)

  /** Where making the emulator's output can fail. */
  datatype EmulatorOutputError = PacketFailed | ExtensionFailed | TxOutFailed
}

/**
  The external functions the claim engine calls, as one record, with the laws
  assumed of them stated as named predicates. A theorem requires only the laws
  its proof uses; ToyPrimitives shows that all of them hold together.
*/
module Primitives {
  import opened Bytes
  import opened Results
  import opened ChainTypes

  const PUB_LEN := 33
  const TAG_LEN := 16

  datatype Prims = Prims(
    // keys
    pubOf: PrivKey -> PubKey,
    compress: PubKey -> bytes,
    parsePub: bytes -> Option<PubKey>,
    xOnly: PubKey -> bytes,
    ecdhX: (PrivKey, PubKey) -> bytes,
    hkdf: (bytes, bytes) -> bytes,
    // AES-256-GCM: key, nonce, text, associated data
    seal: (bytes, bytes, bytes, bytes) -> bytes,
    open: (bytes, bytes, bytes, bytes) -> Option<bytes>,
    hash160: bytes -> bytes,
    // the emulator key tweaked by an arkade script
    tweak: (bytes, PubKey) -> PubKey,
    // taptrees
    decodeTapTree: bytes -> Option<seq<string>>,
    decodeClosures: seq<string> -> Option<seq<Closure>>,
    closureScript: Closure -> Option<bytes>,
    tapKey: seq<Closure> -> Option<bytes>,
    p2tr: bytes -> Option<bytes>,
    merkleProof: (seq<Closure>, bytes) -> Option<bytes>,
    parseControlBlock: bytes -> Option<bytes>,
    // does this control block prove the script under the output script?
    proves: (bytes, bytes, bytes) -> bool,
    // transactions
    txHash: Tx -> bytes,
    emulatorOutput: bytes -> Result<TxOut, EmulatorOutputError>,
    buildTxs: (VtxoInput, seq<TxOut>, bytes) -> Option<Bundle>,
    // can this field be set on input 0? and the base64 form of a PSBT
    setsField: (BuiltTx, PsbtField) -> bool,
    b64: ClaimPsbt -> Option<string>)
  {
    /** Both ends of a key agreement derive the same secret. */
    ghost predicate EcdhCommutes() {
      forall a: PrivKey, b: PrivKey :: ecdhX(a, pubOf(b)) == ecdhX(b, pubOf(a))
    }

    /** SEC compression is 33 bytes, and a key pair's public half parses back. */
    ghost predicate CompressionParses() {
      && (forall k: PubKey :: |compress(k)| == PUB_LEN)
      && (forall a: PrivKey :: parsePub(compress(pubOf(a))) == Some(pubOf(a)))
    }

    /** Open inverts Seal under the same associated data; the tag is 16 bytes. */
    ghost predicate OpenInvertsSeal() {
      forall k: bytes, n: bytes, pt: bytes, aad: bytes ::
        |seal(k, n, pt, aad)| == |pt| + TAG_LEN && open(k, n, seal(k, n, pt, aad), aad) == Some(pt)
    }

    /**
      Open rejects other associated data. Stated only for data that share the
      33-byte key prefix and differ in an empty or eight-byte suffix, the two
      shapes this program uses: a 16-byte tag cannot separate every string.
    */
    ghost predicate OpenRejectsOtherSuffix() {
      forall k: bytes, n: bytes, pt: bytes, e: bytes, x: bytes, y: bytes ::
        |e| == PUB_LEN && |x| in {0, 8} && |y| in {0, 8} && x != y ==>
          open(k, n, seal(k, n, pt, e + x), e + y) == None
    }

    ghost predicate Hash160Length() {
      forall m: bytes :: |hash160(m)| == 20
    }

    /** A decoded taptree's closures all encode back to leaf scripts. */
    ghost predicate DecodedClosuresEncode() {
      forall leaves: seq<string>, c: Closure ::
        decodeClosures(leaves).Some? && c in decodeClosures(leaves).value ==> closureScript(c).Some?
    }

    /**
      Every leaf of a tree has a merkle proof, whose control block parses and proves the leaf under
      the tree's output.
    */
    ghost predicate LeavesAreProvable() {
      forall cs: seq<Closure>, c: Closure ::
        c in cs && closureScript(c).Some? && OutputScript(cs).Some? ==>
          var leaf := closureScript(c).value;
          && merkleProof(cs, leaf).Some? && parseControlBlock(merkleProof(cs, leaf).value).Some?
          && proves(OutputScript(cs).value, parseControlBlock(merkleProof(cs, leaf).value).value, leaf)
    }

    /**
      The builder keeps output order and spends the input through its one checkpoint, at its
      amount, disclosing its taptree and committing to the checkpoint tapscript.
    */
    ghost predicate BuilderKeepsShape() {
      forall vin: VtxoInput, outs: seq<TxOut>, cp: bytes ::
        buildTxs(vin, outs, cp).Some? ==> KeepsShape(buildTxs(vin, outs, cp).value, vin, outs, cp)
    }

    ghost predicate Lawful() {
      && EcdhCommutes() && CompressionParses() && OpenInvertsSeal() && OpenRejectsOtherSuffix()
      && Hash160Length() && DecodedClosuresEncode() && LeavesAreProvable() && BuilderKeepsShape()
    }

    /** The P2TR script a list of closures is funded at. */
    function OutputScript(cs: seq<Closure>): Option<bytes> {
      var key :- tapKey(cs);
      p2tr(key)
    }
  }

  ghost predicate KeepsShape(b: Bundle, vin: VtxoInput, outs: seq<TxOut>, cp: bytes) {
    && outs <= b.ark.outs
    && |b.ark.ins| == 1 && b.ark.ins[0].value == vin.amount
    && |b.checkpoints| == 1 && |b.checkpoints[0].ins| == 1
    && b.checkpoints[0].ins[0] == SpentInput(vin.outpoint, vin.amount, Some(vin.tapscript), vin.revealedTapscripts)
    && b.checkpoints[0].exitTapscript == Some(cp)
  }
}
