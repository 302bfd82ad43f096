/** The claim packet and its TLV codec. */
module Packet {
  import opened Results
  import opened Bytes

  const PACKET_TYPE: byte := 0x04

  const TLV_CIPHERTEXT: byte := 0x01
  const TLV_ARKADE_SCRIPT: byte := 0x02
  const TLV_COVCLAIMD_PUBKEY: byte := 0x03
  const TLV_MIN_AMOUNT: byte := 0x04

  const COMPRESSED_PUBKEY_LEN := 33
  const MIN_AMOUNT_LEN := 8

  /** An absent CovclaimdPubKey is the empty string; an absent MinAmount is None. */
  datatype ClaimPacket = ClaimPacket(
    ciphertext: bytes,
    arkadeScript: bytes,
    covclaimdPubKey: bytes,
    minAmount: Option<uint64>)
  {
    predicate Underfunds(value: int64) {
      minAmount.Some? && (value < 0 || ToUint64(value) < minAmount.value)
    }

    predicate AddressedTo(pub: bytes) {
      |pub| == COMPRESSED_PUBKEY_LEN && covclaimdPubKey == pub
    }

    predicate SealedToAnother(pub: bytes) {
      |covclaimdPubKey| > 0 && !AddressedTo(pub)
    }
  }

  /** The associated data that binds a minimum amount: nothing, or eight bytes. */
  function MinAmountBytes(m: Option<uint64>): (s: bytes)
    ensures |s| == if m.None? then 0 else MIN_AMOUNT_LEN
  {
    match m
    case None => []
    case Some(v) => BigEndian(v, MIN_AMOUNT_LEN)
  }

  lemma MinAmountBytesInjective(a: Option<uint64>, b: Option<uint64>)
    requires MinAmountBytes(a) == MinAmountBytes(b)
    ensures a == b
  {
    if a.Some? && b.Some? {
      Pow256Values();
      BigEndianDecodes(a.value, MIN_AMOUNT_LEN);
      BigEndianDecodes(b.value, MIN_AMOUNT_LEN);
    }
  }

  /** Underfunds compares the two's-complement value as the integer it stands for. */
  lemma UnderfundsIsIntegerComparison(p: ClaimPacket, value: int64)
    ensures !p.Underfunds(value) <==> (p.minAmount.Some? ==> 0 <= p.minAmount.value <= value)
  {
  }

  // ---------------------------------------------------------------- writing

  datatype Tlv = Tlv(typ: byte, val: bytes)

  /** Two bytes for a length, which is cast to uint16 without a check. */
  function LengthHeader(n: nat): (h: bytes)
    ensures |h| == 2
  {
    var u := n % 0x1_0000;
    [u / 256, u % 256]
  }

  function HeaderLength(h: bytes): (n: nat)
    requires |h| == 2
    ensures n < 0x1_0000
  {
    h[0] as int * 256 + h[1] as int
  }

  lemma LengthHeaderReads(n: nat)
    requires n < 0x1_0000
    ensures HeaderLength(LengthHeader(n)) == n
  {
  }

  lemma LengthHeaderWrites(h: bytes)
    requires |h| == 2
    ensures LengthHeader(HeaderLength(h)) == h
  {
  }

  function EncodeTlv(t: Tlv): (s: bytes)
    ensures |s| == 3 + |t.val|
  {
    [t.typ] + LengthHeader(|t.val|) + t.val
  }

  function EncodeAll(ts: seq<Tlv>): bytes {
    if ts == [] then [] else EncodeTlv(ts[0]) + EncodeAll(ts[1..])
  }

  datatype SerializeError = EmptyCiphertext | EmptyArkadeScript | BadPubKeyLength(got: nat)

  function PacketTlvs(p: ClaimPacket): seq<Tlv> {
    [Tlv(TLV_CIPHERTEXT, p.ciphertext), Tlv(TLV_ARKADE_SCRIPT, p.arkadeScript),
     Tlv(TLV_COVCLAIMD_PUBKEY, p.covclaimdPubKey)]
    + if p.minAmount.Some? then [Tlv(TLV_MIN_AMOUNT, MinAmountBytes(p.minAmount))] else []
  }

  function Serialized(p: ClaimPacket): Result<bytes, SerializeError> {
    if |p.ciphertext| == 0 then Err(EmptyCiphertext)
    else if |p.arkadeScript| == 0 then Err(EmptyArkadeScript)
    else if |p.covclaimdPubKey| != COMPRESSED_PUBKEY_LEN then Err(BadPubKeyLength(|p.covclaimdPubKey|))
    else Ok(EncodeAll(PacketTlvs(p)))
  }

  /** The first field at fault names the error. */
  lemma SerializeErrors(p: ClaimPacket)
    ensures Serialized(p) == Err(EmptyCiphertext) <==> p.ciphertext == []
    ensures Serialized(p) == Err(EmptyArkadeScript) <==> p.ciphertext != [] && p.arkadeScript == []
    ensures Serialized(p) == Err(BadPubKeyLength(|p.covclaimdPubKey|))
            <==> p.ciphertext != [] && p.arkadeScript != [] && |p.covclaimdPubKey| != 33
    ensures Serialized(p).Ok? <==> p.ciphertext != [] && p.arkadeScript != [] && |p.covclaimdPubKey| == 33
  {
  }

  lemma EncodeAllAppend(ts: seq<Tlv>, t: Tlv)
    ensures EncodeAll(ts + [t]) == EncodeAll(ts) + EncodeTlv(t)
  {
    if ts == [] {
      assert [t][1..] == [];
      assert ts + [t] == [t];
    } else {
      EncodeAllAppend(ts[1..], t);
      assert (ts + [t])[1..] == ts[1..] + [t];
    }
  }

  method Serialize(p: ClaimPacket) returns (r: Result<bytes, SerializeError>)
    ensures r == Serialized(p)
  {
    if |p.ciphertext| == 0 {
      return Err(EmptyCiphertext);
    }
    if |p.arkadeScript| == 0 {
      return Err(EmptyArkadeScript);
    }
    if |p.covclaimdPubKey| != COMPRESSED_PUBKEY_LEN {
      return Err(BadPubKeyLength(|p.covclaimdPubKey|));
    }
    ghost var none: seq<Tlv> := [];
    var buf: bytes := [];
    buf := buf + EncodeTlv(Tlv(TLV_CIPHERTEXT, p.ciphertext));
    EncodeAllAppend(none, PacketTlvs(p)[0]);
    buf := buf + EncodeTlv(Tlv(TLV_ARKADE_SCRIPT, p.arkadeScript));
    EncodeAllAppend(none + [PacketTlvs(p)[0]], PacketTlvs(p)[1]);
    buf := buf + EncodeTlv(Tlv(TLV_COVCLAIMD_PUBKEY, p.covclaimdPubKey));
    EncodeAllAppend(none + [PacketTlvs(p)[0]] + [PacketTlvs(p)[1]], PacketTlvs(p)[2]);
    ghost var three := none + [PacketTlvs(p)[0]] + [PacketTlvs(p)[1]] + [PacketTlvs(p)[2]];
    assert buf == EncodeAll(three);
    if p.minAmount.Some? {
      buf := buf + EncodeTlv(Tlv(TLV_MIN_AMOUNT, MinAmountBytes(p.minAmount)));
      EncodeAllAppend(three, PacketTlvs(p)[3]);
      assert PacketTlvs(p) == three + [PacketTlvs(p)[3]];
    } else {
      assert PacketTlvs(p) == three;
    }
    return Ok(buf);
  }

  // ---------------------------------------------------------------- reading

  datatype DecodeError =
    | TruncatedHeader
    | TruncatedValue(typ: byte, want: nat, left: nat)
    | BadPubKeyTlv(len: nat)
    | BadMinAmountTlv(len: nat)
    | MissingCiphertext
    | MissingArkadeScript

  /** What the decoder has collected: an Option here is a field with its has-flag. */
  datatype Partial = Partial(
    ciphertext: Option<bytes>,
    arkadeScript: Option<bytes>,
    covclaimdPubKey: bytes,
    minAmount: Option<uint64>)

  const NOTHING := Partial(None, None, [], None)

  function Absorb(p: Partial, t: Tlv): Result<Partial, DecodeError> {
    if t.typ == TLV_CIPHERTEXT then Ok(p.(ciphertext := Some(t.val)))
    else if t.typ == TLV_ARKADE_SCRIPT then Ok(p.(arkadeScript := Some(t.val)))
    else if t.typ == TLV_COVCLAIMD_PUBKEY then
      if |t.val| != COMPRESSED_PUBKEY_LEN then Err(BadPubKeyTlv(|t.val|))
      else Ok(p.(covclaimdPubKey := t.val))
    else if t.typ == TLV_MIN_AMOUNT then
      if |t.val| != MIN_AMOUNT_LEN then Err(BadMinAmountTlv(|t.val|))
      else Ok(p.(minAmount := Some(AmountOf(t.val))))
    else Ok(p)
  }

  function AmountOf(val: bytes): uint64
    requires |val| == MIN_AMOUNT_LEN
  {
    Pow256Values();
    FromBigEndian(val)
  }

  /** The minimum is read, and written, with its most significant byte first. */
  lemma AmountWeighs(val: bytes, v: uint64)
    requires |val| == MIN_AMOUNT_LEN
    ensures AmountOf(val) == Weighed(val)
    ensures Weighed(MinAmountBytes(Some(v))) == v
    ensures MinAmountBytes(Some(v)) == val <==> v == Weighed(val)
  {
    EightBytesWeigh(val);
    EightBytesWeigh(MinAmountBytes(Some(v)));
    Pow256Values();
    BigEndianDecodes(v, MIN_AMOUNT_LEN);
    BigEndianEncodes(val);
  }

  /** The TLV at the head of data, if data holds one completely. */
  function HeadTlv(data: bytes): (r: Result<Tlv, DecodeError>)
    ensures r.Ok? ==> 3 + |r.value.val| <= |data|
  {
    if |data| < 3 then Err(TruncatedHeader)
    else
      var want := HeaderLength(data[1..3]);
      if 3 + want > |data| then Err(TruncatedValue(data[0], want, |data| - 3))
      else Ok(Tlv(data[0], data[3..3 + want]))
  }

  function DecodeFrom(data: bytes, p: Partial): Result<Partial, DecodeError>
    decreases |data|
  {
    if data == [] then Ok(p)
    else
      var t :- HeadTlv(data);
      var q :- Absorb(p, t);
      DecodeFrom(data[3 + |t.val|..], q)
  }

  function Finish(p: Partial): Result<ClaimPacket, DecodeError> {
    if p.ciphertext.None? then Err(MissingCiphertext)
    else if p.arkadeScript.None? then Err(MissingArkadeScript)
    else Ok(ClaimPacket(p.ciphertext.value, p.arkadeScript.value, p.covclaimdPubKey, p.minAmount))
  }

  function Deserialized(data: bytes): Result<ClaimPacket, DecodeError> {
    var p :- DecodeFrom(data, NOTHING);
    Finish(p)
  }

  /** The TLV that starts at an offset, read off the whole data. */
  lemma HeadAt(data: bytes, offset: nat)
    requires offset < |data|
    ensures offset + 3 > |data| ==> HeadTlv(data[offset..]) == Err(TruncatedHeader)
    ensures offset + 3 <= |data| ==>
              var n := HeaderLength(data[offset + 1..offset + 3]);
              if offset + 3 + n > |data|
              then HeadTlv(data[offset..]) == Err(TruncatedValue(data[offset], n, |data| - offset - 3))
              else HeadTlv(data[offset..]) == Ok(Tlv(data[offset], data[offset + 3..offset + 3 + n]))
                   && data[offset..][3 + n..] == data[offset + 3 + n..]
  {
    var rest := data[offset..];
    if offset + 3 <= |data| {
      assert rest[1..3] == data[offset + 1..offset + 3];
      var n := HeaderLength(data[offset + 1..offset + 3]);
      if offset + 3 + n <= |data| {
        assert rest[3..3 + n] == data[offset + 3..offset + 3 + n];
      }
    }
  }

  /** Decoding of what an offset leaves, one round at a time. */
  function DecodeTail(data: bytes, offset: nat, p: Partial): Result<Partial, DecodeError>
    requires offset <= |data|
  {
    DecodeFrom(data[offset..], p)
  }

  lemma DecodeAt(data: bytes, offset: nat, p: Partial)
    requires offset < |data|
    ensures var head := HeadTlv(data[offset..]);
            && (head.Err? ==> DecodeTail(data, offset, p) == Err(head.error))
            && (head.Ok? ==>
                  var stored := Absorb(p, head.value);
                  DecodeTail(data, offset, p)
                  == if stored.Err? then Err(stored.error)
                      else DecodeTail(data, offset + 3 + |head.value.val|, stored.value))
  {
    var head := HeadTlv(data[offset..]);
    if head.Ok? {
      assert data[offset..][3 + |head.value.val|..] == data[offset + 3 + |head.value.val|..];
    }
  }

  /** The TLV at an offset: its header, then its value. */
  method ReadTlv(data: bytes, offset: nat) returns (r: Result<Tlv, DecodeError>)
    requires offset < |data|
    ensures r == HeadTlv(data[offset..])
    ensures r.Ok? ==> offset + 3 + |r.value.val| <= |data|
  {
    HeadAt(data, offset);
    if offset + 3 > |data| {
      return Err(TruncatedHeader);
    }
    var tlvType := data[offset];
    var tlvLen := HeaderLength(data[offset + 1..offset + 3]);
    var start := offset + 3;
    if start + tlvLen > |data| {
      return Err(TruncatedValue(tlvType, tlvLen, |data| - start));
    }
    return Ok(Tlv(tlvType, data[start..start + tlvLen]));
  }

  /** Files a value under its type, over any earlier one; unknown types are passed over. */
  method Store(out: Partial, tlvType: byte, val: bytes) returns (r: Result<Partial, DecodeError>)
    ensures r == Absorb(out, Tlv(tlvType, val))
  {
    if tlvType == TLV_CIPHERTEXT {
      return Ok(out.(ciphertext := Some(val)));
    } else if tlvType == TLV_ARKADE_SCRIPT {
      return Ok(out.(arkadeScript := Some(val)));
    } else if tlvType == TLV_COVCLAIMD_PUBKEY {
      if |val| != COMPRESSED_PUBKEY_LEN {
        return Err(BadPubKeyTlv(|val|));
      }
      return Ok(out.(covclaimdPubKey := val));
    } else if tlvType == TLV_MIN_AMOUNT {
      if |val| != MIN_AMOUNT_LEN {
        return Err(BadMinAmountTlv(|val|));
      }
      return Ok(out.(minAmount := Some(AmountOf(val))));
    }
    return Ok(out);
  }

  /** The loop over offsets, up to the end of the data or the first error. */
  method DecodeAll(data: bytes) returns (r: Result<Partial, DecodeError>)
    ensures r == DecodeFrom(data, NOTHING)
  {
    var out := NOTHING;
    var offset := 0;
    assert data[0..] == data;
    while offset < |data|
      invariant offset <= |data|
      invariant DecodeFrom(data, NOTHING) == DecodeTail(data, offset, out)
    {
      DecodeAt(data, offset, out);
      var tlv := ReadTlv(data, offset);
      if tlv.Err? {
        return Err(tlv.error);
      }
      offset := offset + 3 + |tlv.value.val|;
      var stored := Store(out, tlv.value.typ, tlv.value.val);
      if stored.Err? {
        return Err(stored.error);
      }
      out := stored.value;
    }
    assert data[offset..] == [];
    return Ok(out);
  }

  method DeserializeClaim(data: bytes) returns (r: Result<ClaimPacket, DecodeError>)
    ensures r == Deserialized(data)
  {
    var decoded := DecodeAll(data);
    if decoded.Err? {
      return Err(decoded.error);
    }
    var out := decoded.value;
    if out.ciphertext.None? {
      return Err(MissingCiphertext);
    }
    if out.arkadeScript.None? {
      return Err(MissingArkadeScript);
    }
    return Ok(ClaimPacket(out.ciphertext.value, out.arkadeScript.value, out.covclaimdPubKey, out.minAmount));
  }

  // ------------------------------------------------------------ extensions

  /** A packet of a transaction's extension: an opaque body, or one a library type claimed. */
  datatype ExtPacket = Unknown(typ: byte, data: bytes) | Foreign(typ: byte)

  type Extension = seq<ExtPacket>

  datatype ExtensionError = UnexpectedType | Undecodable(error: DecodeError)

  function PacketByType(ext: Extension, typ: byte): Option<ExtPacket> {
    if ext == [] then None
    else if ext[0].typ == typ then Some(ext[0])
    else PacketByType(ext[1..], typ)
  }

  function FindClaim(ext: Extension): Result<Option<ClaimPacket>, ExtensionError> {
    match PacketByType(ext, PACKET_TYPE)
    case None => Ok(None)
    case Some(Foreign(_)) => Err(UnexpectedType)
    case Some(Unknown(_, data)) =>
      match Deserialized(data)
      case Ok(p) => Ok(Some(p))
      case Err(e) => Err(Undecodable(e))
  }
}
