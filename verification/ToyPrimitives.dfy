/** One concrete instance: the laws are consistent. */
module ToyPrimitives {
  import opened Bytes
  import opened Results
  import opened ChainTypes
  import opened Primitives
  import opened Contract

  function Zeros(n: nat): (s: bytes)
    ensures |s| == n
  {
    seq(n, _ => 0)
  }

  /** Pads with zeros, or truncates, to n bytes. */
  function Fit(s: bytes, n: nat): (r: bytes)
    ensures |r| == n
    ensures |s| == n ==> r == s
  {
    if |s| >= n then s[..n] else s + Zeros(n - |s|)
  }

  /** Sums the two scalars bytewise, so the order of the parties does not matter. */
  function Mix(a: bytes, b: bytes): bytes {
    seq(32, i requires 0 <= i < 32 => Sum(Fit(a, 32)[i], Fit(b, 32)[i]))
  }

  function Sum(x: byte, y: byte): byte {
    (x as int + y as int) % 256
  }

  /** A tag that spells out the eight-byte suffix of the associated data. */
  function Tag(aad: bytes): (t: bytes)
    ensures |t| == TAG_LEN
  {
    if |aad| == PUB_LEN then Zeros(TAG_LEN)
    else if |aad| == PUB_LEN + 8 then [1] + aad[PUB_LEN..] + Zeros(7)
    else [2] + Zeros(15)
  }

  function Open(ct: bytes, aad: bytes): Option<bytes> {
    if |ct| >= TAG_LEN && ct[|ct| - TAG_LEN..] == Tag(aad) then Some(ct[..|ct| - TAG_LEN]) else None
  }

  const KEY := PubKey(Zeros(PUB_LEN))

  /** One decodable taptree: a single claim closure for the all-zero preimage. */
  function Closures(leaves: seq<string>): Option<seq<Closure>> {
    if leaves == ["claim"] then Some([ConditionMultisig(Condition(Zeros(20)), [KEY, KEY])]) else None
  }

  function LeafScript(c: Closure): bytes {
    match c
    case ConditionMultisig(cond, _) => cond
    case OtherClosure(raw) => raw
  }

  const ANCHOR := TxOut(0, [])

  function Build(vin: VtxoInput, outs: seq<TxOut>, cp: bytes): Bundle {
    Bundle(
      BuiltTx([SpentInput(vin.outpoint, vin.amount, None, [])], outs + [ANCHOR], None),
      [BuiltTx([SpentInput(vin.outpoint, vin.amount, Some(vin.tapscript), vin.revealedTapscripts)], [ANCHOR],
          Some(cp))])
  }

  function Toy(): Prims {
    Prims(
      (k: PrivKey) => PubKey(Fit(k.scalar, PUB_LEN)),
      (k: PubKey) => Fit(k.point, PUB_LEN),
      (s: bytes) => Some(PubKey(s)),
      (k: PubKey) => Fit(k.point, 32),
      (a: PrivKey, b: PubKey) => Mix(a.scalar, b.point),
      (secret: bytes, salt: bytes) => secret,
      (k: bytes, n: bytes, pt: bytes, aad: bytes) => pt + Tag(aad),
      (k: bytes, n: bytes, ct: bytes, aad: bytes) => Open(ct, aad),
      (m: bytes) => Fit(m, 20),
      (script: bytes, k: PubKey) => k,
      (raw: bytes) => Some(["claim"]),
      (leaves: seq<string>) => Closures(leaves),
      (c: Closure) => Some(LeafScript(c)),
      (cs: seq<Closure>) => Some([]),
      (key: bytes) => Some([0x51, 0x20] + Fit(key, 32)),
      (cs: seq<Closure>, leaf: bytes) => Some([]),
      (proof: bytes) => Some(proof),
      (pk: bytes, cb: bytes, leaf: bytes) => true,
      (tx: Tx) => Zeros(32),
      (script: bytes) => Ok(TxOut(0, script)),
      (vin: VtxoInput, outs: seq<TxOut>, cp: bytes) => Some(Build(vin, outs, cp)),
      (tx: BuiltTx, field: PsbtField) => true,
      (psbt: ClaimPsbt) => Some(""))
  }

  lemma ToyIsLawful()
    ensures Toy().Lawful()
  {
    var p := Toy();
    assert p.EcdhCommutes() by {
      forall a: PrivKey, b: PrivKey
        ensures p.ecdhX(a, p.pubOf(b)) == p.ecdhX(b, p.pubOf(a))
      {
        assert Fit(Fit(a.scalar, PUB_LEN), 32) == Fit(a.scalar, 32);
        assert Fit(Fit(b.scalar, PUB_LEN), 32) == Fit(b.scalar, 32);
        assert Mix(a.scalar, Fit(b.scalar, PUB_LEN)) == Mix(b.scalar, Fit(a.scalar, PUB_LEN));
      }
    }
    assert p.OpenInvertsSeal() by {
      forall pt: bytes, aad: bytes
        ensures Open(pt + Tag(aad), aad) == Some(pt)
      {
        assert (pt + Tag(aad))[..|pt|] == pt;
      }
    }
    assert p.OpenRejectsOtherSuffix() by {
      forall pt: bytes, e: bytes, x: bytes, y: bytes |
        |e| == PUB_LEN && |x| in {0, 8} && |y| in {0, 8} && x != y
        ensures Open(pt + Tag(e + x), e + y) == None
      {
        TagSeparates(e, x, y);
        assert (pt + Tag(e + x))[|pt|..] == Tag(e + x);
      }
    }
  }

  lemma TagSeparates(e: bytes, x: bytes, y: bytes)
    requires |e| == PUB_LEN && |x| in {0, 8} && |y| in {0, 8} && x != y
    ensures Tag(e + x) != Tag(e + y)
  {
    assert (e + x)[PUB_LEN..] == x && (e + y)[PUB_LEN..] == y;
    if |x| == 8 && |y| == 8 {
      assert Tag(e + x)[1..9] == x && Tag(e + y)[1..9] == y;
    } else if |x| == 8 {
      assert Tag(e + x)[0] == 1;
    } else if |y| == 8 {
      assert Tag(e + y)[0] == 1;
    }
  }
}
