/** Sealing and opening a blob: ephemeral key, nonce, then ciphertext with its tag. */
module Ecies {
  import opened Results
  import opened Bytes
  import opened ChainTypes
  import opened Primitives

  const ECIES_PUB_LEN := 33
  const ECIES_NONCE_LEN := 12
  const ECIES_HEADER := ECIES_PUB_LEN + ECIES_NONCE_LEN
  const ECIES_OVERHEAD := ECIES_HEADER + 16

  datatype EciesError = NilKey | BlobTooShort(len: nat) | BadEphemeralKey | OpenFailed

  function SymKey(P: Prims, priv: PrivKey, peer: PubKey, salt: bytes): bytes {
    P.hkdf(P.ecdhX(priv, peer), salt)
  }

  /** The blob EncryptWithAAD lays out for one choice of ephemeral key and nonce. */
  function Sealed(P: Prims, recipient: PubKey, plaintext: bytes, extra: bytes, eph: PrivKey, nonce: bytes): bytes {
    var ephPub := P.compress(P.pubOf(eph));
    ephPub + nonce + P.seal(SymKey(P, eph, recipient, ephPub), nonce, plaintext, ephPub + extra)
  }

  method EncryptWithAAD(
      P: Prims, recipient: Option<PubKey>, plaintext: bytes, extra: bytes, eph: PrivKey, nonce: bytes)
    returns (r: Result<bytes, EciesError>)
    ensures r == if recipient.None? then Err(NilKey)
                 else Ok(Sealed(P, recipient.value, plaintext, extra, eph, nonce))
  {
    if recipient.None? {
      return Err(NilKey);
    }
    var ephPub := P.compress(P.pubOf(eph));
    var symKey := SymKey(P, eph, recipient.value, ephPub);
    var ct := P.seal(symKey, nonce, plaintext, ephPub + extra);
    var out: bytes := [];
    out := out + ephPub;
    out := out + nonce;
    out := out + ct;
    assert out == Sealed(P, recipient.value, plaintext, extra, eph, nonce);
    return Ok(out);
  }

  function Opened(P: Prims, priv: Option<PrivKey>, blob: bytes, extra: bytes): Result<bytes, EciesError> {
    if priv.None? then Err(NilKey)
    else if |blob| < ECIES_OVERHEAD then Err(BlobTooShort(|blob|))
    else
      var ephPubBytes := blob[..ECIES_PUB_LEN];
      var nonce := blob[ECIES_PUB_LEN..ECIES_HEADER];
      var ct := blob[ECIES_HEADER..];
      match P.parsePub(ephPubBytes)
      case None => Err(BadEphemeralKey)
      case Some(ephPub) =>
        match P.open(SymKey(P, priv.value, ephPub, ephPubBytes), nonce, ct, ephPubBytes + extra)
        case None => Err(OpenFailed)
        case Some(pt) => Ok(pt)
  }

  /** Opens a blob held in a buffer, which the additional data is copied out of and never written to. */
  method DecryptWithAAD(P: Prims, priv: Option<PrivKey>, blob: array<byte>, extra: bytes)
    returns (r: Result<bytes, EciesError>)
    ensures r == Opened(P, priv, blob[..], extra)
  {
    if priv.None? {
      return Err(NilKey);
    }
    if blob.Length < ECIES_OVERHEAD {
      return Err(BlobTooShort(blob.Length));
    }
    var ephPubBytes := blob[..ECIES_PUB_LEN];
    var nonce := blob[ECIES_PUB_LEN..ECIES_HEADER];
    var ct := blob[ECIES_HEADER..];
    ghost var whole := blob[..];
    assert ephPubBytes == whole[..ECIES_PUB_LEN];
    assert nonce == whole[ECIES_PUB_LEN..ECIES_HEADER] && ct == whole[ECIES_HEADER..];
    var ephPub := P.parsePub(ephPubBytes);
    if ephPub.None? {
      return Err(BadEphemeralKey);
    }
    var symKey := SymKey(P, priv.value, ephPub.value, ephPubBytes);
    var pt := P.open(symKey, nonce, ct, ephPubBytes + extra);
    if pt.None? {
      return Err(OpenFailed);
    }
    return Ok(pt.value);
  }

  /** The 33/12/16-byte framing adds 61 bytes, and cutting at those widths recovers the parts. */
  lemma Framing(P: Prims, recipient: PubKey, pt: bytes, extra: bytes, eph: PrivKey, nonce: bytes)
    requires P.CompressionParses() && P.OpenInvertsSeal() && |nonce| == ECIES_NONCE_LEN
    ensures var blob := Sealed(P, recipient, pt, extra, eph, nonce);
            var ephPub := P.compress(P.pubOf(eph));
            && |blob| == 61 + |pt|
            && blob[..33] == ephPub && blob[33..45] == nonce
            && blob[45..] == P.seal(P.hkdf(P.ecdhX(eph, recipient), ephPub), nonce, pt, ephPub + extra)
  {
    assert |P.compress(P.pubOf(eph))| == ECIES_PUB_LEN;
  }

  /** What opens, cut and keyed byte for byte: the salt is the ephemeral key, which also leads the associated data. */
  lemma OpensIff(P: Prims, priv: PrivKey, blob: bytes, extra: bytes, pt: bytes)
    ensures Opened(P, Some(priv), blob, extra) == Ok(pt)
            <==> && |blob| >= 61 && P.parsePub(blob[..33]).Some?
                 && var key := P.hkdf(P.ecdhX(priv, P.parsePub(blob[..33]).value), blob[..33]);
                    P.open(key, blob[33..45], blob[45..], blob[..33] + extra) == Some(pt)
  {
  }

  /** The recipient's key opens the blob exactly under the associated data it was sealed with. */
  lemma OpensOnlyAsSealed(
      P: Prims, priv: PrivKey, pt: bytes, sealedWith: bytes, openedWith: bytes, eph: PrivKey, nonce: bytes)
    requires P.EcdhCommutes() && P.CompressionParses() && P.OpenInvertsSeal() && P.OpenRejectsOtherSuffix()
    requires |nonce| == ECIES_NONCE_LEN && |sealedWith| in {0, 8} && |openedWith| in {0, 8}
    ensures Opened(P, Some(priv), Sealed(P, P.pubOf(priv), pt, sealedWith, eph, nonce), openedWith)
            == if openedWith == sealedWith then Ok(pt) else Err(OpenFailed)
  {
    Framing(P, P.pubOf(priv), pt, sealedWith, eph, nonce);
    assert P.ecdhX(priv, P.pubOf(eph)) == P.ecdhX(eph, P.pubOf(priv));
    assert P.parsePub(P.compress(P.pubOf(eph))) == Some(P.pubOf(eph));
    var ephPub := P.compress(P.pubOf(eph));
    var key := SymKey(P, eph, P.pubOf(priv), ephPub);
    assert P.open(key, nonce, P.seal(key, nonce, pt, ephPub + sealedWith), ephPub + sealedWith) == Some(pt);
  }
}
