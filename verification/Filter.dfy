/** The server-side filter: the subscription expression and what it selects. */
module Filter {
  import opened Results
  import opened Bytes
  import opened Packet
  import opened PacketMeaning

  /** The committed-key TLV exactly as the packet encoder writes it. */
  function Needle(pubKey: bytes): bytes {
    EncodeTlv(Tlv(TLV_COVCLAIMD_PUBKEY, pubKey))
  }

  const FILTER_OPEN := "has(tx.extension) && hasPacket(tx.extension, 4) && tx.extension[4].contains('"
  const FILTER_CLOSE := "')"

  method FilterExpression(pubKey: bytes) returns (expr: string)
    ensures expr == FILTER_OPEN + HexEncode(Needle(pubKey)) + FILTER_CLOSE
    ensures '\'' !in HexEncode(Needle(pubKey))
    ensures |pubKey| == 33 ==>
              expr == "has(tx.extension) && hasPacket(tx.extension, 4) && tx.extension[4].contains('030021"
                      + HexEncode(pubKey) + "')"
  {
    if |pubKey| == 33 {
      NeedleHex(pubKey);
    }
    HexDigitsOnly(Needle(pubKey));
    var needle: bytes := [];
    needle := needle + EncodeTlv(Tlv(TLV_COVCLAIMD_PUBKEY, pubKey));
    assert needle == Needle(pubKey);
    expr := FILTER_OPEN + HexEncode(needle) + FILTER_CLOSE;
  }

  lemma NeedleHex(pubKey: bytes)
    requires |pubKey| == 33
    ensures HexEncode(Needle(pubKey)) == "030021" + HexEncode(pubKey)
  {
    var header: bytes := [0x03, 0x00, 0x21];
    assert Needle(pubKey) == header + pubKey;
    HexConcat(header, pubKey);
    HexDigitsAt(header, 0);
    HexDigitsAt(header, 1);
    HexDigitsAt(header, 2);
    assert HexEncode(header) == "030021";
  }

  /** The expression's value on a transaction whose extension is the map of packet type to body hex. */
  ghost predicate Selects(pubKey: bytes, extension: map<byte, string>) {
    PACKET_TYPE in extension && Contains(extension[PACKET_TYPE], HexEncode(Needle(pubKey)))
  }

  lemma {:induction false} MemberIsInside(ts: seq<Tlv>, t: Tlv)
    requires t in ts
    ensures Contains(EncodeAll(ts), EncodeTlv(t))
  {
    var head, tail := EncodeTlv(ts[0]), EncodeAll(ts[1..]);
    if t == ts[0] {
      assert ContainsAt(head + tail, head, 0);
    } else {
      MemberIsInside(ts[1..], t);
      var i: nat :| ContainsAt(tail, EncodeTlv(t), i);
      assert (head + tail)[|head| + i..|head| + i + |EncodeTlv(t)|] == tail[i..i + |EncodeTlv(t)|];
      assert ContainsAt(head + tail, EncodeTlv(t), |head| + i);
    }
  }

  /** A packet committed to our key carries the needle, whatever its TLV order and extra TLVs. */
  lemma NeedleInPacket(body: bytes)
    requires Deserialized(body).Ok? && |Deserialized(body).value.covclaimdPubKey| > 0
    ensures Contains(body, Needle(Deserialized(body).value.covclaimdPubKey))
  {
    DecoderAccepts(body);
    var ts :| Splits(body, ts) && Acceptable(ts);
    LastOfOccurs(ts, TLV_COVCLAIMD_PUBKEY);
    MemberIsInside(ts, Tlv(TLV_COVCLAIMD_PUBKEY, Deserialized(body).value.covclaimdPubKey));
  }

  /** No packet the plugin would go on to decrypt is filtered out, unless it names no covclaimd. */
  lemma FilterNeverMisses(pubKey: bytes, extension: map<byte, string>, body: bytes)
    requires PACKET_TYPE in extension && extension[PACKET_TYPE] == HexEncode(body)
    requires Deserialized(body).Ok? && !Deserialized(body).value.SealedToAnother(pubKey)
    ensures Selects(pubKey, extension) || Deserialized(body).value.covclaimdPubKey == []
  {
    if Deserialized(body).value.covclaimdPubKey != [] {
      NeedleInPacket(body);
      HexContains(body, Needle(pubKey));
    }
  }

  /** The two-field shape that names nobody is never declined, yet the filter drops it. */
  lemma FilterDropsUnaddressed(pubKey: bytes)
    requires |pubKey| == COMPRESSED_PUBKEY_LEN
    ensures var body := [0x01, 0x00, 0x01, 0xaa, 0x02, 0x00, 0x01, 0x51];
            Deserialized(body).Ok?
            && !Deserialized(body).value.SealedToAnother(pubKey)
            && !Selects(pubKey, map[PACKET_TYPE := HexEncode(body)])
  {
    var body: bytes := [0x01, 0x00, 0x01, 0xaa, 0x02, 0x00, 0x01, 0x51];
    var ts := [Tlv(TLV_CIPHERTEXT, [0xaa]), Tlv(TLV_ARKADE_SCRIPT, [0x51])];
    assert EncodeTlv(ts[0]) == [0x01, 0x00, 0x01, 0xaa] && EncodeTlv(ts[1]) == [0x02, 0x00, 0x01, 0x51];
    assert EncodeAll(ts[1..]) == EncodeTlv(ts[1]);
    assert EncodeAll(ts) == body;
    LastOfSnoc([ts[0]], ts[1], TLV_CIPHERTEXT);
    LastOfSnoc([ts[0]], ts[1], TLV_ARKADE_SCRIPT);
    LastOfSnoc([ts[0]], ts[1], TLV_COVCLAIMD_PUBKEY);
    LastOfSnoc([], ts[0], TLV_CIPHERTEXT);
    LastOfSnoc([], ts[0], TLV_COVCLAIMD_PUBKEY);
    assert ts == [ts[0]] + [ts[1]] && [ts[0]] == [] + [ts[0]];
    DecodesToMeaning(body, ts);
  }

  // ------------------------------------------------- selection by shape

  /** The TLV types of a body, in order. */
  ghost predicate OfShape(body: bytes, types: seq<byte>) {
    exists ts :: Splits(body, ts) && HasTypes(ts, types)
  }

  predicate HasTypes(ts: seq<Tlv>, types: seq<byte>) {
    |ts| == |types| && forall i :: 0 <= i < |ts| ==> ts[i].typ == types[i]
  }

  /** The plugin parses this body and does not leave it to another covclaimd. */
  predicate Undeclined(pubKey: bytes, body: bytes) {
    Deserialized(body).Ok? && !Deserialized(body).value.SealedToAnother(pubKey)
  }

  /** The barest TLV of a type: no value, and for an amount zero. */
  function BlankTlv(typ: byte): Tlv {
    Tlv(typ, if typ == TLV_MIN_AMOUNT then [0, 0, 0, 0, 0, 0, 0, 0] else [])
  }

  function Blank(types: seq<byte>): (ts: seq<Tlv>)
    ensures |ts| == |types| && forall i :: 0 <= i < |ts| ==> ts[i] == BlankTlv(types[i])
  {
    seq(|types|, i requires 0 <= i < |types| => BlankTlv(types[i]))
  }

  lemma BlankIsUndeclined(pubKey: bytes, types: seq<byte>)
    requires TLV_CIPHERTEXT in types && TLV_ARKADE_SCRIPT in types && TLV_COVCLAIMD_PUBKEY !in types
    ensures OfShape(EncodeAll(Blank(types)), types) && Undeclined(pubKey, EncodeAll(Blank(types)))
  {
    var ts := Blank(types);
    assert Splits(EncodeAll(ts), ts) && HasTypes(ts, types);
    BlankHas(types, TLV_CIPHERTEXT);
    BlankHas(types, TLV_ARKADE_SCRIPT);
    AcceptableHasBoth(ts);
    LastOfOccurs(ts, TLV_COVCLAIMD_PUBKEY);
    DecodesToMeaning(EncodeAll(ts), ts);
  }

  lemma BlankHas(types: seq<byte>, typ: byte)
    requires typ in types
    ensures Has(Blank(types), typ)
  {
    var i :| 0 <= i < |types| && types[i] == typ;
    assert Blank(types)[i] in Blank(types);
  }

  /** No byte 03, and 30 only before a zero byte: a needle's hex can then start at no digit. */
  predicate Quiet(s: bytes) {
    forall i: nat :: i < |s| ==> QuietAt(s, i)
  }

  predicate QuietAt(s: bytes, i: nat)
    requires i < |s|
  {
    s[i] != 0x03 && (s[i] == 0x30 ==> i + 1 < |s| && s[i + 1] == 0)
  }

  lemma BlankTlvIsQuiet(typ: byte)
    requires typ != TLV_COVCLAIMD_PUBKEY
    ensures Quiet(EncodeTlv(BlankTlv(typ)))
  {
    if typ == TLV_MIN_AMOUNT {
      assert EncodeTlv(BlankTlv(typ)) == [0x04, 0, 8, 0, 0, 0, 0, 0, 0, 0, 0];
    } else {
      assert EncodeTlv(BlankTlv(typ)) == [typ, 0, 0];
    }
  }

  lemma {:induction false} BlankIsQuiet(types: seq<byte>)
    requires TLV_COVCLAIMD_PUBKEY !in types
    ensures Quiet(EncodeAll(Blank(types)))
  {
    if types != [] {
      BlankTlvIsQuiet(types[0]);
      BlankIsQuiet(types[1..]);
      assert Blank(types)[1..] == Blank(types[1..]);
      QuietConcat(EncodeTlv(BlankTlv(types[0])), EncodeAll(Blank(types[1..])));
    }
  }

  lemma QuietConcat(a: bytes, b: bytes)
    requires Quiet(a) && Quiet(b)
    ensures Quiet(a + b)
  {
    forall i: nat | i < |a + b|
      ensures QuietAt(a + b, i)
    {
      assert if i < |a| then QuietAt(a, i) else QuietAt(b, i - |a|);
    }
  }

  lemma EvenDigits(body: bytes, k: nat)
    requires k < |body| && HexEncode(body)[2 * k] == '0' && HexEncode(body)[2 * k + 1] == '3'
    ensures !QuietAt(body, k)
  {
    HexDigitsAt(body, k);
    DigitsOfByte(body[k]);
  }

  lemma OddDigits(body: bytes, k: nat)
    requires k + 2 < |body|
    requires HexEncode(body)[2 * (k + 1)] == '3' && HexEncode(body)[2 * (k + 1) + 1] == '0'
    requires HexEncode(body)[2 * (k + 2)] == '0' && HexEncode(body)[2 * (k + 2) + 1] == '2'
    ensures !QuietAt(body, k + 1)
  {
    HexDigitsAt(body, k + 1);
    HexDigitsAt(body, k + 2);
    DigitsOfByte(body[k + 1]);
    DigitsOfByte(body[k + 2]);
  }

  lemma StartsAlike(h: string, n: string, o: nat)
    requires ContainsAt(h, n, o) && |n| >= 5 && n[..5] == "03002"
    ensures o + 5 <= |h| && h[o] == '0' && h[o + 1] == '3' && h[o + 2] == '0' && h[o + 3] == '0' && h[o + 4] == '2'
  {
    var found := h[o..o + |n|];
    assert found[0] == n[..5][0] && found[1] == n[..5][1] && found[2] == n[..5][2];
    assert found[3] == n[..5][3] && found[4] == n[..5][4];
  }

  /** A needle found at an even digit starts at a byte 03; at an odd one it runs over bytes 30 and 02. */
  lemma QuietHidesNeedle(body: bytes, pubKey: bytes)
    requires Quiet(body) && |pubKey| == COMPRESSED_PUBKEY_LEN
    ensures !Contains(HexEncode(body), HexEncode(Needle(pubKey)))
  {
    var h, n := HexEncode(body), HexEncode(Needle(pubKey));
    if Contains(h, n) {
      var o: nat :| ContainsAt(h, n, o);
      NeedleDigits(pubKey);
      StartsAlike(h, n, o);
      var k := o / 2;
      if o == 2 * k {
        EvenDigits(body, k);
      } else {
        OddDigits(body, k);
      }
    }
  }

  lemma NeedleDigits(pubKey: bytes)
    requires |pubKey| == COMPRESSED_PUBKEY_LEN
    ensures |HexEncode(Needle(pubKey))| == 72 && HexEncode(Needle(pubKey))[..5] == "03002"
  {
    var needle := Needle(pubKey);
    HexDigitsAt(needle, 0);
    HexDigitsAt(needle, 1);
    HexDigitsAt(needle, 2);
  }

  lemma DigitsOfByte(x: byte)
    ensures HexDigit(x / 16) == '0' && HexDigit(x % 16) == '3' ==> x == 0x03
    ensures HexDigit(x / 16) == '3' && HexDigit(x % 16) == '0' ==> x == 0x30
    ensures HexDigit(x / 16) == '0' && HexDigit(x % 16) == '2' ==> x == 0x02
  {
  }

  /**
    The types of a packet's TLVs decide what the filter promises for it: every undeclined body
    of a shape is selected, exactly when the shape has a committed key.
  */
  lemma SelectedByShapeIff(pubKey: bytes, types: seq<byte>)
    requires |pubKey| == COMPRESSED_PUBKEY_LEN && TLV_CIPHERTEXT in types && TLV_ARKADE_SCRIPT in types
    ensures (forall body :: OfShape(body, types) && Undeclined(pubKey, body) ==>
               Selects(pubKey, map[PACKET_TYPE := HexEncode(body)]))
            <==> TLV_COVCLAIMD_PUBKEY in types
  {
    if TLV_COVCLAIMD_PUBKEY in types {
      forall body | OfShape(body, types) && Undeclined(pubKey, body)
        ensures Selects(pubKey, map[PACKET_TYPE := HexEncode(body)])
      {
        ShapeNamesKey(body, types);
        FilterNeverMisses(pubKey, map[PACKET_TYPE := HexEncode(body)], body);
      }
    } else {
      var body := EncodeAll(Blank(types));
      BlankIsUndeclined(pubKey, types);
      BlankIsQuiet(types);
      QuietHidesNeedle(body, pubKey);
    }
  }

  lemma ShapeNamesKey(body: bytes, types: seq<byte>)
    requires OfShape(body, types) && TLV_COVCLAIMD_PUBKEY in types && Deserialized(body).Ok?
    ensures Deserialized(body).value.covclaimdPubKey != []
  {
    var ts :| Splits(body, ts) && HasTypes(ts, types);
    var i :| 0 <= i < |types| && types[i] == TLV_COVCLAIMD_PUBKEY;
    assert ts[i] in ts;
    DecodesToMeaning(body, ts);
    LastOfOccurs(ts, TLV_COVCLAIMD_PUBKEY);
  }
}
