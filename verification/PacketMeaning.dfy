/** What the codec means, independently of the order in which it reads bytes. */
module PacketMeaning {
  import opened Results
  import opened Bytes
  import opened Packet

  /** data is exactly this list of TLVs, each with its length written in full. */
  ghost predicate Splits(data: bytes, ts: seq<Tlv>) {
    data == EncodeAll(ts) && LengthsFit(ts)
  }

  ghost predicate LengthsFit(ts: seq<Tlv>) {
    forall i :: 0 <= i < |ts| ==> |ts[i].val| < 0x1_0000
  }

  ghost predicate Has(ts: seq<Tlv>, typ: byte) {
    exists t <- ts :: t.typ == typ
  }

  /** The value of the last TLV of this type. */
  function LastOf(ts: seq<Tlv>, typ: byte): Option<bytes> {
    if ts == [] then None
    else if ts[|ts| - 1].typ == typ then Some(ts[|ts| - 1].val)
    else LastOf(ts[..|ts| - 1], typ)
  }

  lemma {:induction false} LastOfOccurs(ts: seq<Tlv>, typ: byte)
    ensures LastOf(ts, typ).None? <==> !Has(ts, typ)
    ensures LastOf(ts, typ).Some? ==> Tlv(typ, LastOf(ts, typ).value) in ts
  {
    if ts != [] {
      var front := ts[..|ts| - 1];
      LastOfOccurs(front, typ);
      assert ts == front + [ts[|ts| - 1]];
      assert forall t :: t in ts <==> t in front || t == ts[|ts| - 1];
    }
  }

  lemma LastOfSnoc(ts: seq<Tlv>, t: Tlv, typ: byte)
    ensures LastOf(ts + [t], typ) == if t.typ == typ then Some(t.val) else LastOf(ts, typ)
  {
    assert (ts + [t])[..|ts|] == ts;
  }

  ghost predicate FixedSizesOk(ts: seq<Tlv>) {
    forall i :: 0 <= i < |ts| ==> FixedSizeOk(ts[i])
  }

  ghost predicate Acceptable(ts: seq<Tlv>) {
    FixedSizesOk(ts) && LastOf(ts, TLV_CIPHERTEXT).Some? && LastOf(ts, TLV_ARKADE_SCRIPT).Some?
  }

  lemma AcceptableHasBoth(ts: seq<Tlv>)
    ensures Acceptable(ts) <==>
            FixedSizesOk(ts) && Has(ts, TLV_CIPHERTEXT) && Has(ts, TLV_ARKADE_SCRIPT)
  {
    LastOfOccurs(ts, TLV_CIPHERTEXT);
    LastOfOccurs(ts, TLV_ARKADE_SCRIPT);
  }

  ghost function LastKey(ts: seq<Tlv>): bytes {
    match LastOf(ts, TLV_COVCLAIMD_PUBKEY) case Some(v) => v case None => []
  }

  ghost function LastAmount(ts: seq<Tlv>): Option<uint64> {
    match LastOf(ts, TLV_MIN_AMOUNT)
    case Some(v) => if |v| == MIN_AMOUNT_LEN then Some(AmountOf(v)) else None
    case None => None
  }

  /** The packet an acceptable list of TLVs stands for. */
  ghost function Meaning(ts: seq<Tlv>): ClaimPacket
    requires Acceptable(ts)
  {
    ClaimPacket(LastOf(ts, TLV_CIPHERTEXT).value, LastOf(ts, TLV_ARKADE_SCRIPT).value, LastKey(ts), LastAmount(ts))
  }

  ghost function Collected(ts: seq<Tlv>): Partial {
    Partial(LastOf(ts, TLV_CIPHERTEXT), LastOf(ts, TLV_ARKADE_SCRIPT), LastKey(ts), LastAmount(ts))
  }

  predicate FixedSizeOk(t: Tlv) {
    && (t.typ == TLV_COVCLAIMD_PUBKEY ==> |t.val| == COMPRESSED_PUBKEY_LEN)
    && (t.typ == TLV_MIN_AMOUNT ==> |t.val| == MIN_AMOUNT_LEN)
  }

  lemma AbsorbCollects(pre: seq<Tlv>, t: Tlv)
    ensures Absorb(Collected(pre), t).Ok? <==> FixedSizeOk(t)
    ensures FixedSizeOk(t) ==> Absorb(Collected(pre), t).value == Collected(pre + [t])
  {
    LastOfSnoc(pre, t, TLV_CIPHERTEXT);
    LastOfSnoc(pre, t, TLV_ARKADE_SCRIPT);
    LastOfSnoc(pre, t, TLV_COVCLAIMD_PUBKEY);
    LastOfSnoc(pre, t, TLV_MIN_AMOUNT);
  }

  lemma HeadOfEncoding(t: Tlv, rest: bytes)
    requires |t.val| < 0x1_0000
    ensures HeadTlv(EncodeTlv(t) + rest) == Ok(t)
    ensures (EncodeTlv(t) + rest)[3 + |t.val|..] == rest
  {
    var data := EncodeTlv(t) + rest;
    LengthHeaderReads(|t.val|);
    assert data[1..3] == LengthHeader(|t.val|);
    assert data[3..3 + |t.val|] == t.val;
  }

  lemma FixedSizesCons(ts: seq<Tlv>)
    requires ts != []
    ensures FixedSizesOk(ts) <==> FixedSizeOk(ts[0]) && FixedSizesOk(ts[1..])
  {
    if FixedSizeOk(ts[0]) && FixedSizesOk(ts[1..]) {
      forall i | 0 <= i < |ts|
        ensures FixedSizeOk(ts[i])
      {
        assert i > 0 ==> ts[i] == ts[1..][i - 1];
      }
    }
  }

  function AbsorbAll(p: Partial, ts: seq<Tlv>): Result<Partial, DecodeError>
    decreases |ts|
  {
    if ts == [] then Ok(p)
    else
      var q :- Absorb(p, ts[0]);
      AbsorbAll(q, ts[1..])
  }

  lemma {:induction false} DecodeAbsorbs(p: Partial, ts: seq<Tlv>)
    requires LengthsFit(ts)
    ensures DecodeFrom(EncodeAll(ts), p) == AbsorbAll(p, ts)
    decreases |ts|
  {
    if ts != [] {
      HeadOfEncoding(ts[0], EncodeAll(ts[1..]));
      var q := Absorb(p, ts[0]);
      if q.Ok? {
        DecodeAbsorbs(q.value, ts[1..]);
      }
    }
  }

  /** Absorbing collects the last occurrence of each known type. */
  lemma {:induction false} AbsorbContinues(pre: seq<Tlv>, ts: seq<Tlv>)
    requires FixedSizesOk(ts)
    ensures AbsorbAll(Collected(pre), ts) == Ok(Collected(pre + ts))
    decreases |ts|
  {
    if ts == [] {
      assert pre + ts == pre;
    } else {
      FixedSizesCons(ts);
      AbsorbCollects(pre, ts[0]);
      AbsorbContinues(pre + [ts[0]], ts[1..]);
      assert pre + [ts[0]] + ts[1..] == pre + ts;
    }
  }

  lemma {:induction false} AbsorbRefuses(pre: seq<Tlv>, ts: seq<Tlv>)
    requires !FixedSizesOk(ts)
    ensures AbsorbAll(Collected(pre), ts).Err?
    decreases |ts|
  {
    AbsorbCollects(pre, ts[0]);
    FixedSizesCons(ts);
    if FixedSizeOk(ts[0]) {
      AbsorbRefuses(pre + [ts[0]], ts[1..]);
    }
  }

  /** The TLVs of data, when it splits completely. */
  function Split(data: bytes): Option<seq<Tlv>>
    decreases |data|
  {
    if data == [] then Some([])
    else match HeadTlv(data)
      case Err(_) => None
      case Ok(t) =>
        match Split(data[3 + |t.val|..])
        case None => None
        case Some(ts) => Some([t] + ts)
  }

  lemma HeadReencodes(data: bytes)
    requires HeadTlv(data).Ok?
    ensures var t := HeadTlv(data).value;
            |t.val| < 0x1_0000 && data == EncodeTlv(t) + data[3 + |t.val|..]
  {
    var t := HeadTlv(data).value;
    LengthHeaderWrites(data[1..3]);
    InFour(data, |t.val|);
  }

  lemma InFour(data: bytes, n: nat)
    requires 3 + n <= |data|
    ensures data == [data[0]] + data[1..3] + data[3..3 + n] + data[3 + n..]
  {
  }

  lemma {:induction false} SplitIsExact(data: bytes, p: Partial)
    ensures Split(data).Some? ==> Splits(data, Split(data).value)
    ensures Split(data).None? ==> DecodeFrom(data, p).Err?
    decreases |data|
  {
    if data != [] && HeadTlv(data).Ok? {
      var t := HeadTlv(data).value;
      var rest := data[3 + |t.val|..];
      HeadReencodes(data);
      var q := Absorb(p, t);
      SplitIsExact(rest, if q.Ok? then q.value else p);
      if Split(data).Some? {
        var ts := Split(rest).value;
        assert ([t] + ts)[1..] == ts;
      }
    }
  }

  lemma SplitStep(t: Tlv, rest: bytes)
    requires |t.val| < 0x1_0000
    ensures Split(EncodeTlv(t) + rest) == match Split(rest)
                                          case None => None
                                          case Some(ts) => Some([t] + ts)
  {
    HeadOfEncoding(t, rest);
  }

  lemma {:induction false} SplitFindsAll(ts: seq<Tlv>)
    requires LengthsFit(ts)
    ensures Split(EncodeAll(ts)) == Some(ts)
  {
    if ts != [] {
      SplitStep(ts[0], EncodeAll(ts[1..]));
      SplitFindsAll(ts[1..]);
      assert ts == [ts[0]] + ts[1..];
    }
  }

  /** Any list of TLVs that makes up data decides the outcome by its meaning alone. */
  lemma DecodesToMeaning(data: bytes, ts: seq<Tlv>)
    requires Splits(data, ts)
    ensures Deserialized(data).Ok? <==> Acceptable(ts)
    ensures Acceptable(ts) ==> Deserialized(data) == Ok(Meaning(ts))
  {
    assert Collected([]) == NOTHING;
    DecodeAbsorbs(NOTHING, ts);
    if FixedSizesOk(ts) {
      AbsorbContinues([], ts);
      assert [] + ts == ts;
    } else {
      AbsorbRefuses([], ts);
    }
  }

  /** The decoder accepts exactly the complete splits with both mandatory fields. */
  lemma DecoderAccepts(data: bytes)
    ensures Deserialized(data).Ok? <==> exists ts :: Splits(data, ts) && Acceptable(ts)
    ensures forall ts :: Splits(data, ts) && Acceptable(ts) ==> Deserialized(data) == Ok(Meaning(ts))
  {
    SplitIsExact(data, NOTHING);
    if Split(data).Some? {
      DecodesToMeaning(data, Split(data).value);
    }
    forall ts | Splits(data, ts) && Acceptable(ts)
      ensures Deserialized(data) == Ok(Meaning(ts))
    {
      DecodesToMeaning(data, ts);
    }
  }

  lemma OneDecodes(before: seq<Tlv>, t: Tlv, rest: bytes)
    requires |t.val| < 0x1_0000 && FixedSizeOk(t)
    ensures DecodeFrom(EncodeTlv(t) + rest, Collected(before)) == DecodeFrom(rest, Collected(before + [t]))
  {
    AbsorbCollects(before, t);
    HeadOfEncoding(t, rest);
  }

  /** Good TLVs are absorbed, and decoding goes on with what is left. */
  lemma {:induction false} PrefixDecodes(ts: seq<Tlv>, rest: bytes)
    requires LengthsFit(ts) && FixedSizesOk(ts)
    ensures DecodeFrom(EncodeAll(ts) + rest, Collected([])) == DecodeFrom(rest, Collected(ts))
    decreases |ts|
  {
    if ts == [] {
      assert EncodeAll(ts) + rest == rest;
    } else {
      var front, t := ts[..|ts| - 1], ts[|ts| - 1];
      assert ts == front + [t] && FixedSizeOk(t) && |t.val| < 0x1_0000;
      EncodeAllAppend(front, t);
      ConcatAssociates(EncodeAll(front), EncodeTlv(t), rest);
      PrefixDecodes(front, EncodeTlv(t) + rest);
      OneDecodes(front, t, rest);
    }
  }

  /** After any good TLVs, the first fault is the one reported; with none, the first mandatory type missing. */
  lemma FirstFaultReported(ts: seq<Tlv>, rest: bytes)
    requires LengthsFit(ts) && FixedSizesOk(ts)
    ensures var r := Deserialized(EncodeAll(ts) + rest);
            && (0 < |rest| < 3 ==> r == Err(TruncatedHeader))
            && (|rest| >= 3 ==>
                  var n := rest[1] as int * 256 + rest[2] as int;
                  && (3 + n > |rest| ==> r == Err(TruncatedValue(rest[0], n, |rest| - 3)))
                  && (3 + n <= |rest| && rest[0] == 3 && n != 33 ==> r == Err(BadPubKeyTlv(n)))
                  && (3 + n <= |rest| && rest[0] == 4 && n != 8 ==> r == Err(BadMinAmountTlv(n))))
            && (rest == [] && !Has(ts, 1) ==> r == Err(MissingCiphertext))
            && (rest == [] && Has(ts, 1) && !Has(ts, 2) ==> r == Err(MissingArkadeScript))
  {
    PrefixDecodes(ts, rest);
    assert Collected([]) == NOTHING;
    LastOfOccurs(ts, TLV_CIPHERTEXT);
    LastOfOccurs(ts, TLV_ARKADE_SCRIPT);
    FaultOf(rest, Collected(ts));
  }

  lemma FaultOf(rest: bytes, p: Partial)
    ensures 0 < |rest| < 3 ==> DecodeFrom(rest, p) == Err(TruncatedHeader)
    ensures |rest| >= 3 ==>
              var n := rest[1] as int * 256 + rest[2] as int;
              && (3 + n > |rest| ==> DecodeFrom(rest, p) == Err(TruncatedValue(rest[0], n, |rest| - 3)))
              && (3 + n <= |rest| && rest[0] == 3 && n != 33 ==> DecodeFrom(rest, p) == Err(BadPubKeyTlv(n)))
              && (3 + n <= |rest| && rest[0] == 4 && n != 8 ==> DecodeFrom(rest, p) == Err(BadMinAmountTlv(n)))
    ensures rest == [] ==> DecodeFrom(rest, p) == Ok(p)
  {
  }

  /** At most one way to split. */
  lemma SplitUnique(data: bytes, ts: seq<Tlv>, us: seq<Tlv>)
    requires Splits(data, ts) && Splits(data, us)
    ensures ts == us
  {
    SplitFindsAll(ts);
    SplitFindsAll(us);
  }

  predicate Known(typ: byte) { TLV_CIPHERTEXT <= typ <= TLV_MIN_AMOUNT }

  ghost predicate NoRepeatedKnown(ts: seq<Tlv>) {
    forall i, j :: 0 <= i < j < |ts| && ts[i].typ == ts[j].typ ==> !Known(ts[i].typ)
  }

  lemma LastOfPermutation(ts: seq<Tlv>, us: seq<Tlv>, typ: byte)
    requires multiset(ts) == multiset(us) && NoRepeatedKnown(ts) && Known(typ)
    ensures LastOf(ts, typ) == LastOf(us, typ)
  {
    LastOfOccurs(ts, typ);
    LastOfOccurs(us, typ);
    SameMembers(ts, us);
    if LastOf(us, typ).Some? {
      var t := Tlv(typ, LastOf(us, typ).value);
      assert t in ts && t.typ == typ;
      var v := Tlv(typ, LastOf(ts, typ).value);
      assert v in ts;
      var i :| 0 <= i < |ts| && ts[i] == t;
      var j :| 0 <= j < |ts| && ts[j] == v;
      assert i == j;
    } else if LastOf(ts, typ).Some? {
      assert Tlv(typ, LastOf(ts, typ).value) in us;
    }
  }

  lemma SameMembers(ts: seq<Tlv>, us: seq<Tlv>)
    requires multiset(ts) == multiset(us)
    ensures forall t :: t in ts <==> t in us
  {
    forall t
      ensures t in ts <==> t in us
    {
      assert t in ts <==> t in multiset(ts);
      assert t in us <==> t in multiset(us);
    }
  }

  /** TLV order is irrelevant as long as no known type occurs twice. */
  lemma OrderIrrelevant(data: bytes, ts: seq<Tlv>, shuffled: bytes, us: seq<Tlv>)
    requires Splits(data, ts) && Splits(shuffled, us)
    requires multiset(ts) == multiset(us) && NoRepeatedKnown(ts)
    ensures Deserialized(data).Ok? <==> Deserialized(shuffled).Ok?
    ensures Deserialized(data).Ok? ==> Deserialized(shuffled) == Deserialized(data)
  {
    DecodesToMeaning(data, ts);
    DecodesToMeaning(shuffled, us);
    forall typ: byte | Known(typ)
      ensures LastOf(ts, typ) == LastOf(us, typ)
    {
      LastOfPermutation(ts, us, typ);
    }
    SameMembers(ts, us);
    FixedSizesCarry(ts, us);
    FixedSizesCarry(us, ts);
  }

  /** Only the known TLVs decide whether the fixed sizes are right. */
  lemma FixedSizesCarry(ts: seq<Tlv>, us: seq<Tlv>)
    requires forall t :: t in us && Known(t.typ) ==> t in ts
    ensures FixedSizesOk(ts) ==> FixedSizesOk(us)
  {
    if FixedSizesOk(ts) {
      forall i | 0 <= i < |us|
        ensures FixedSizeOk(us[i])
      {
        assert us[i] in us;
      }
    }
  }

  /** Unknown TLVs anywhere in the packet change nothing. */
  lemma UnknownIgnored(data: bytes, ts: seq<Tlv>, extra: Tlv, us: seq<Tlv>)
    requires Splits(data, ts + us) && !Known(extra.typ) && |extra.val| < 0x1_0000
    ensures var padded := EncodeAll(ts + [extra] + us);
            (Deserialized(padded).Ok? <==> Deserialized(data).Ok?) &&
            (Deserialized(data).Ok? ==> Deserialized(padded) == Deserialized(data))
  {
    var all, more := ts + us, ts + [extra] + us;
    forall i | 0 <= i < |more|
      ensures |more[i].val| < 0x1_0000
    {
      assert i < |ts| ==> more[i] == all[i];
      assert i > |ts| ==> more[i] == all[i - 1];
    }
    DecodesToMeaning(data, all);
    DecodesToMeaning(EncodeAll(more), more);
    forall typ: byte | Known(typ)
      ensures LastOf(all, typ) == LastOf(more, typ)
    {
      LastOfInsert(ts, extra, us, typ);
    }
    FixedSizesCarry(all, more);
    FixedSizesCarry(more, all);
  }

  lemma {:induction false} LastOfInsert(ts: seq<Tlv>, extra: Tlv, us: seq<Tlv>, typ: byte)
    requires extra.typ != typ
    ensures LastOf(ts + us, typ) == LastOf(ts + [extra] + us, typ)
  {
    if us == [] {
      assert ts + us == ts && (ts + [extra] + us)[..|ts|] == ts;
    } else {
      var front := us[..|us| - 1];
      LastOfInsert(ts, extra, front, typ);
      assert (ts + us)[..|ts + us| - 1] == ts + front;
      assert (ts + [extra] + us)[..|ts| + |us|] == ts + [extra] + front;
    }
  }

  // ------------------------------------------------------------ round trip

  /** Nothing longer than 65535 bytes can ever come out of the decoder. */
  lemma DecodedFieldsAreShort(data: bytes)
    requires Deserialized(data).Ok?
    ensures var p := Deserialized(data).value;
            |p.ciphertext| < 0x1_0000 && |p.arkadeScript| < 0x1_0000 &&
            |p.covclaimdPubKey| in {0, COMPRESSED_PUBKEY_LEN}
  {
    DecoderAccepts(data);
    var ts :| Splits(data, ts) && Acceptable(ts);
    LastOfOccurs(ts, TLV_CIPHERTEXT);
    LastOfOccurs(ts, TLV_ARKADE_SCRIPT);
    LastOfOccurs(ts, TLV_COVCLAIMD_PUBKEY);
    assert FixedSizesOk(ts);
  }

  lemma PacketTlvsMean(p: ClaimPacket)
    requires |p.covclaimdPubKey| == COMPRESSED_PUBKEY_LEN
    ensures Acceptable(PacketTlvs(p)) && Meaning(PacketTlvs(p)) == p
  {
    var ts := PacketTlvs(p);
    var amount := Tlv(TLV_MIN_AMOUNT, MinAmountBytes(p.minAmount));
    forall typ: byte | Known(typ)
      ensures LastOf(ts[..3], typ) == if typ == TLV_MIN_AMOUNT then None else Some(ts[typ - 1].val)
    {
      LastOfSnoc(ts[..2], ts[2], typ);
      LastOfSnoc(ts[..1], ts[1], typ);
      LastOfSnoc([], ts[0], typ);
      assert ts[..3] == ts[..2] + [ts[2]] && ts[..2] == ts[..1] + [ts[1]] && ts[..1] == [] + [ts[0]];
    }
    if p.minAmount.Some? {
      assert ts == ts[..3] + [amount];
      LastOfSnoc(ts[..3], amount, TLV_CIPHERTEXT);
      LastOfSnoc(ts[..3], amount, TLV_ARKADE_SCRIPT);
      LastOfSnoc(ts[..3], amount, TLV_COVCLAIMD_PUBKEY);
      LastOfSnoc(ts[..3], amount, TLV_MIN_AMOUNT);
      Pow256Values();
      BigEndianDecodes(p.minAmount.value, MIN_AMOUNT_LEN);
    } else {
      assert ts == ts[..3];
    }
  }

  /** A packet survives the wire exactly when both variable fields fit their length headers. */
  lemma RoundTrip(p: ClaimPacket)
    requires Serialized(p).Ok?
    ensures Deserialized(Serialized(p).value) == Ok(p)
            <==> |p.ciphertext| < 0x1_0000 && |p.arkadeScript| < 0x1_0000
  {
    var data := Serialized(p).value;
    if |p.ciphertext| < 0x1_0000 && |p.arkadeScript| < 0x1_0000 {
      assert Splits(data, PacketTlvs(p));
      PacketTlvsMean(p);
      DecodesToMeaning(data, PacketTlvs(p));
    } else if Deserialized(data).Ok? {
      DecodedFieldsAreShort(data);
    }
  }

  /** A packet the encoder writes and the decoder then reads as something else. */
  lemma OversizeFieldIsLost(p: ClaimPacket)
    requires |p.ciphertext| == 0x1_0000 && |p.arkadeScript| > 0
    requires |p.covclaimdPubKey| == COMPRESSED_PUBKEY_LEN
    ensures Serialized(p).Ok? && Deserialized(Serialized(p).value) != Ok(p)
  {
    RoundTrip(p);
  }

  /** Re-serializing whatever was accepted gives the canonical form, which reads back the same. */
  lemma Canonical(data: bytes)
    requires Deserialized(data).Ok?
    ensures var p := Deserialized(data).value;
            Serialized(p).Ok? ==> Deserialized(Serialized(p).value) == Ok(p)
    ensures var p := Deserialized(data).value;
            Serialized(p).Ok? <==> |p.ciphertext| > 0 && |p.arkadeScript| > 0 && |p.covclaimdPubKey| > 0
  {
    DecodedFieldsAreShort(data);
    if Serialized(Deserialized(data).value).Ok? {
      RoundTrip(Deserialized(data).value);
    }
  }

  /** The encoder's own layout: each known type once, in order, the amount optional, neither field empty. */
  ghost predicate InOrder(ts: seq<Tlv>) {
    && 3 <= |ts| <= 4
    && ts[0].typ == TLV_CIPHERTEXT && ts[1].typ == TLV_ARKADE_SCRIPT && ts[2].typ == TLV_COVCLAIMD_PUBKEY
    && (|ts| == 4 ==> ts[3].typ == TLV_MIN_AMOUNT)
    && ts[0].val != [] && ts[1].val != []
  }

  lemma LastOfThree(a: Tlv, b: Tlv, c: Tlv, typ: byte)
    ensures LastOf([a, b, c], typ) == if c.typ == typ then Some(c.val)
                                      else if b.typ == typ then Some(b.val)
                                      else if a.typ == typ then Some(a.val) else None
  {
    assert [a, b, c] == [a, b] + [c] && [a, b] == [a] + [b] && [a] == [] + [a];
    LastOfSnoc([a, b], c, typ);
    LastOfSnoc([a], b, typ);
    LastOfSnoc([], a, typ);
  }

  /** An amount's eight bytes are those that its value encodes to. */
  lemma AmountBytes(val: bytes)
    requires |val| == MIN_AMOUNT_LEN
    ensures MinAmountBytes(Some(AmountOf(val))) == val
  {
    BigEndianEncodes(val);
  }

  lemma InOrderMeaning(ts: seq<Tlv>)
    requires InOrder(ts) && Acceptable(ts)
    ensures PacketTlvs(Meaning(ts)) == ts
  {
    var a, b, c := ts[0], ts[1], ts[2];
    LastOfThree(a, b, c, TLV_CIPHERTEXT);
    LastOfThree(a, b, c, TLV_ARKADE_SCRIPT);
    LastOfThree(a, b, c, TLV_COVCLAIMD_PUBKEY);
    LastOfThree(a, b, c, TLV_MIN_AMOUNT);
    if |ts| == 3 {
      assert ts == [a, b, c];
      assert Meaning(ts) == ClaimPacket(a.val, b.val, c.val, None);
    } else {
      var d := ts[3];
      assert ts == [a, b, c] + [d] && FixedSizeOk(d);
      LastOfSnoc([a, b, c], d, TLV_CIPHERTEXT);
      LastOfSnoc([a, b, c], d, TLV_ARKADE_SCRIPT);
      LastOfSnoc([a, b, c], d, TLV_COVCLAIMD_PUBKEY);
      LastOfSnoc([a, b, c], d, TLV_MIN_AMOUNT);
      assert Meaning(ts) == ClaimPacket(a.val, b.val, c.val, Some(AmountOf(d.val)));
      AmountBytes(d.val);
    }
  }

  /** Accepted bytes are what the encoder writes for them exactly when they are laid out as it lays them out. */
  lemma CanonicalBytes(data: bytes)
    requires Deserialized(data).Ok?
    ensures Serialized(Deserialized(data).value) == Ok(data) <==> exists ts :: Splits(data, ts) && InOrder(ts)
  {
    var p := Deserialized(data).value;
    if Serialized(p) == Ok(data) {
      DecodedFieldsAreShort(data);
      assert Splits(data, PacketTlvs(p)) && InOrder(PacketTlvs(p));
    }
    if exists ts :: Splits(data, ts) && InOrder(ts) {
      var ts :| Splits(data, ts) && InOrder(ts);
      DecodesToMeaning(data, ts);
      InOrderMeaning(ts);
      assert FixedSizeOk(ts[2]);
    }
  }

  /** A packet asking a minimum of 1000, byte for byte, for any key. */
  function ThousandSats(key: bytes): bytes {
    [0x01, 0, 1, 0xaa] + [0x02, 0, 1, 0x51] + ([0x03, 0, 0x21] + key) + [0x04, 0, 8, 0, 0, 0, 0, 0, 0, 0x03, 0xe8]
  }

  lemma ThousandSatsSplits(key: bytes)
    requires |key| == 33
    ensures var ts := [Tlv(1, [0xaa]), Tlv(2, [0x51]), Tlv(3, key), Tlv(4, [0, 0, 0, 0, 0, 0, 0x03, 0xe8])];
            Splits(ThousandSats(key), ts)
  {
    var a, b, c, d := Tlv(1, [0xaa]), Tlv(2, [0x51]), Tlv(3, key), Tlv(4, [0, 0, 0, 0, 0, 0, 0x03, 0xe8]);
    assert EncodeTlv(a) == [0x01, 0, 1, 0xaa] && EncodeTlv(b) == [0x02, 0, 1, 0x51];
    assert EncodeTlv(c) == [0x03, 0, 0x21] + key;
    assert EncodeTlv(d) == [0x04, 0, 8, 0, 0, 0, 0, 0, 0, 0x03, 0xe8];
    var none: seq<Tlv> := [];
    EncodeAllAppend(none, a);
    EncodeAllAppend([a], b);
    EncodeAllAppend([a, b], c);
    EncodeAllAppend([a, b, c], d);
    assert none + [a] == [a] && [a] + [b] == [a, b] && [a, b] + [c] == [a, b, c] && [a, b, c] + [d] == [a, b, c, d];
    assert EncodeAll(none) == [] && EncodeAll([a]) == EncodeTlv(a);
  }

  /** It reads as 1000, and is what the encoder writes for it. */
  lemma MinimumOnTheWire(key: bytes)
    requires |key| == 33
    ensures var p := ClaimPacket([0xaa], [0x51], key, Some(1000));
            Deserialized(ThousandSats(key)) == Ok(p) && Serialized(p) == Ok(ThousandSats(key))
  {
    var amount: bytes := [0, 0, 0, 0, 0, 0, 0x03, 0xe8];
    var a, b, c, d := Tlv(1, [0xaa]), Tlv(2, [0x51]), Tlv(3, key), Tlv(4, amount);
    var p := ClaimPacket([0xaa], [0x51], key, Some(1000));
    ThousandSatsSplits(key);
    AmountWeighs(amount, 1000);
    assert PacketTlvs(p) == [a, b, c] + [d] && [a, b, c, d] == [a, b, c] + [d];
    PacketTlvsMean(p);
    DecodesToMeaning(ThousandSats(key), [a, b, c, d]);
  }
}
