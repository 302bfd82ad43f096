/** Script bytes: the builder's pushes and the tokenizer that reads them back. */
module Script {
  import opened Results
  import opened Bytes

  const OP_0: byte := 0x00
  const OP_DATA_1: byte := 0x01
  const OP_DATA_20: byte := 0x14
  const OP_DATA_32: byte := 0x20
  const OP_DATA_75: byte := 0x4b
  const OP_PUSHDATA1: byte := 0x4c
  const OP_PUSHDATA2: byte := 0x4d
  const OP_PUSHDATA4: byte := 0x4e
  const OP_1NEGATE: byte := 0x4f
  const OP_1: byte := 0x51
  const OP_16: byte := 0x60
  const OP_DUP: byte := 0x76
  const OP_SIZE: byte := 0x82
  const OP_EQUAL: byte := 0x87
  const OP_EQUALVERIFY: byte := 0x88
  const OP_GREATERTHANOREQUAL: byte := 0xa2
  const OP_HASH160: byte := 0xa9
  const OP_INSPECTINPUTVALUE: byte := 0xc9
  const OP_PUSHCURRENTINPUTINDEX: byte := 0xcd
  const OP_INSPECTOUTPUTVALUE: byte := 0xcf
  const OP_INSPECTOUTPUTSCRIPTPUBKEY: byte := 0xd1

  function LittleEndian(s: bytes): nat {
    if s == [] then 0 else s[0] + 256 * LittleEndian(s[1..])
  }

  /** The shortest push of data, as the script builder chooses it. */
  function Push(data: bytes): bytes
    requires |data| < 0x1_0000
  {
    if |data| == 0 || data == [0] then [OP_0]
    else if |data| == 1 && 1 <= data[0] <= 16 then [OP_1 - 1 + data[0]]
    else if |data| == 1 && data[0] == 0x81 then [OP_1NEGATE]
    else if |data| <= 75 then [|data|] + data
    else if |data| <= 255 then [OP_PUSHDATA1, |data|] + data
    else [OP_PUSHDATA2, |data| % 256, |data| / 256] + data
  }

  datatype Token = Token(op: byte, data: bytes)

  /** How many bytes after the opcode hold the length of its data. */
  function LengthBytes(op: byte): nat {
    if op == OP_PUSHDATA1 then 1 else if op == OP_PUSHDATA2 then 2 else if op == OP_PUSHDATA4 then 4 else 0
  }

  /** The token at the head of a script, with the bytes it takes; None when truncated. */
  function Head(s: bytes): (r: Option<(Token, nat)>)
    requires s != []
    ensures r.Some? ==> 1 <= r.value.1 <= |s|
  {
    var op := s[0];
    if OP_DATA_1 <= op <= OP_DATA_75 then
      if |s| < 1 + op then None else Some((Token(op, s[1..1 + op]), 1 + op))
    else if OP_PUSHDATA1 <= op <= OP_PUSHDATA4 then
      var w := LengthBytes(op);
      if |s| < 1 + w then None
      else
        var len := LittleEndian(s[1..1 + w]);
        if len >= 0x8000_0000 || len > |s| - 1 - w then None
        else Some((Token(op, s[1 + w..1 + w + len]), 1 + w + len))
    else Some((Token(op, []), 1))
  }

  function Tokenize(s: bytes): Option<seq<Token>>
    decreases |s|
  {
    if s == [] then Some([])
    else
      var (t, n) :- Head(s);
      var ts :- Tokenize(s[n..]);
      Some([t] + ts)
  }

  /** The tokenizer walks a script, holding the token it last read. */
  class Tokenizer {
    const script: bytes
    var offset: nat
    var op: byte
    var data: bytes
    var failed: bool

    ghost predicate Valid() reads this { offset <= |script| }

    /** What is left to read. */
    ghost function Rest(): bytes
      reads this
      requires Valid()
    {
      script[offset..]
    }

    constructor (script: bytes)
      ensures Valid() && !failed && Rest() == script
    {
      this.script := script;
      offset, op, data, failed := 0, 0, [], false;
    }

    method Next() returns (more: bool)
      requires Valid()
      modifies this
      ensures Valid()
      ensures more <==> !old(failed) && old(Rest()) != [] && Head(old(Rest())).Some?
      ensures more ==> Head(old(Rest())) == Some((Token(op, data), |old(Rest())| - |Rest()|)) && !failed
      ensures more ==> Rest() == old(Rest())[|old(Rest())| - |Rest()|..] && |Rest()| < |old(Rest())|
      ensures !more ==> unchanged(`offset) && failed == (old(failed) || old(Rest()) != [])
    {
      if failed || offset == |script| {
        return false;
      }
      ghost var rest := script[offset..];
      var opcode := script[offset];
      if OP_DATA_1 <= opcode <= OP_DATA_75 {
        if |script| - offset < 1 + opcode {
          failed := true;
          return false;
        }
        assert rest[1..1 + opcode] == script[offset + 1..offset + 1 + opcode];
        op, data := opcode, script[offset + 1..offset + 1 + opcode];
        offset := offset + 1 + opcode;
      } else if OP_PUSHDATA1 <= opcode <= OP_PUSHDATA4 {
        var w := LengthBytes(opcode);
        if |script| - offset < 1 + w {
          failed := true;
          return false;
        }
        var start := offset + 1 + w;
        assert rest[1..1 + w] == script[offset + 1..start];
        var len := LittleEndian(script[offset + 1..start]);
        if len >= 0x8000_0000 || len > |script| - start {
          failed := true;
          return false;
        }
        assert rest[1 + w..1 + w + len] == script[start..start + len];
        op, data := opcode, script[start..start + len];
        offset := start + len;
      } else {
        op, data := opcode, [];
        offset := offset + 1;
      }
      return true;
    }
  }

  lemma LongPushReadsBack(data: bytes, rest: bytes)
    requires 75 < |data| < 0x1_0000
    ensures var h := Head(Push(data) + rest);
            var w := if |data| <= 255 then 1 else 2;
            h == Some((Token(if w == 1 then OP_PUSHDATA1 else OP_PUSHDATA2, data), 1 + w + |data|))
            && (Push(data) + rest)[1 + w + |data|..] == rest
  {
    var t := Token(if |data| <= 255 then OP_PUSHDATA1 else OP_PUSHDATA2, data);
    assert Push(data) == Spelled(t);
    SpelledReads(t, rest);
  }

  /** A push reads back as one push: of the same data exactly unless that is a single zero byte. */
  lemma PushReadsBack(data: bytes, rest: bytes)
    requires |data| < 0x1_0000
    ensures var h := Head(Push(data) + rest);
            && h.Some? && (Push(data) + rest)[h.value.1..] == rest
            && PushedValue(h.value.0) == Some(if data == [0] then [] else data)
            && (PushedValue(h.value.0) == Some(data) <==> data != [0])
  {
    var s := Push(data) + rest;
    if |data| == 0 || (|data| == 1 && (data[0] <= 16 || data[0] == 0x81)) {
      assert data == [] || data == [data[0]];
      assert s[1..] == rest;
    } else if |data| <= 75 {
      assert s[1..1 + |data|] == data && s[1 + |data|..] == rest;
    } else {
      LongPushReadsBack(data, rest);
    }
  }

  /** The stack element a push token leaves. */
  function PushedValue(t: Token): Option<bytes> {
    if t.op <= OP_PUSHDATA4 then Some(t.data)
    else if t.op == OP_1NEGATE then Some([0x81])
    else if OP_1 <= t.op <= OP_16 then Some([t.op - OP_1 + 1])
    else None
  }

  lemma PlainOpReads(op: byte, rest: bytes)
    requires op == OP_0 || op > OP_PUSHDATA4
    ensures Tokenize([op] + rest) == match Tokenize(rest)
                                     case None => None
                                     case Some(ts) => Some([Token(op, [])] + ts)
  {
    assert ([op] + rest)[1..] == rest;
  }

  lemma DirectPushReads(data: bytes, rest: bytes)
    requires 1 < |data| <= 75
    ensures Tokenize(Push(data) + rest) == match Tokenize(rest)
                                           case None => None
                                           case Some(ts) => Some([Token(|data|, data)] + ts)
  {
    var s := Push(data) + rest;
    assert s[1..1 + |data|] == data && s[1 + |data|..] == rest;
  }

  // ------------------------------------------------ what the tokenizer reads

  /** A token's bytes in a script: its opcode, for a PUSHDATA the length of its data, its data. */
  function Spelled(t: Token): bytes {
    var n := |t.data|;
    [t.op]
    + (if t.op == 0x4c then [n % 256]
       else if t.op == 0x4d then [n % 256, n / 0x100 % 256]
       else if t.op == 0x4e then [n % 256, n / 0x100 % 256, n / 0x1_0000 % 256, n / 0x100_0000 % 256]
       else [])
    + t.data
  }

  /** How much data each opcode takes. */
  predicate WellFormed(t: Token) {
    if 0x01 <= t.op <= 0x4b then |t.data| == t.op
    else if t.op == 0x4c then |t.data| < 0x100
    else if t.op == 0x4d then |t.data| < 0x1_0000
    else if t.op == 0x4e then |t.data| < 0x8000_0000
    else t.data == []
  }

  lemma LittleEndianOf4(a: byte, b: byte, c: byte, d: byte)
    ensures LittleEndian([a]) == a && LittleEndian([a, b]) == a + 0x100 * b
    ensures LittleEndian([a, b, c, d]) == a + 0x100 * b + 0x1_0000 * c + 0x100_0000 * d
  {
    assert [a][1..] == [] && [a, b][1..] == [b] && [b][1..] == [];
    assert [a, b, c, d][1..] == [b, c, d] && [b, c, d][1..] == [c, d] && [c, d][1..] == [d] && [d][1..] == [];
    assert LittleEndian([d]) == d;
    assert LittleEndian([c, d]) == c + 0x100 * d;
  }

  lemma FourDigits(n: nat)
    requires n < 0x1_0000_0000
    ensures n == n % 256 + 0x100 * (n / 0x100 % 256) + 0x1_0000 * (n / 0x1_0000 % 256)
        + 0x100_0000 * (n / 0x100_0000 % 256)
  {
    assert n / 0x1_0000 == n / 0x100 / 0x100 && n / 0x100_0000 == n / 0x100 / 0x100 / 0x100;
  }

  lemma DigitsUnique(a: byte, b: byte, c: byte, d: byte)
    ensures var n := a + 0x100 * b + 0x1_0000 * c + 0x100_0000 * d;
            n % 256 == a && n / 0x100 % 256 == b && n / 0x1_0000 % 256 == c && n / 0x100_0000 % 256 == d
  {
    var n := a + 0x100 * b + 0x1_0000 * c + 0x100_0000 * d;
    assert n / 0x100 == b + 0x100 * c + 0x1_0000 * d;
    assert n / 0x1_0000 == c + 0x100 * d;
    assert n / 0x100_0000 == d;
  }

  /** A token read off a script: its opcode, the bytes of a length, its data. */
  lemma HeadCuts(s: bytes)
    requires s != [] && Head(s).Some?
    ensures var (t, n) := Head(s).value;
            var w := LengthBytes(s[0]);
            && t.op == s[0] && n == 1 + w + |t.data| <= |s|
            && s[..n] == [s[0]] + s[1..1 + w] + t.data
            && if w > 0 then LittleEndian(s[1..1 + w]) == |t.data| < 0x8000_0000
               else if 0x01 <= s[0] <= 0x4b then |t.data| == s[0] else t.data == []
  {
    var (t, n) := Head(s).value;
    var w := LengthBytes(s[0]);
    assert t.data == s[1 + w..n];
  }

  /** The bytes of a length are the ones it is spelled with. */
  lemma LengthSpells(len: bytes, n: nat)
    requires |len| in {1, 2, 4} && LittleEndian(len) == n
    ensures n < Pow256(|len|)
    ensures |len| == 1 ==> len == [n % 256]
    ensures |len| == 2 ==> len == [n % 256, n / 0x100 % 256]
    ensures |len| == 4 ==> len == [n % 256, n / 0x100 % 256, n / 0x1_0000 % 256, n / 0x100_0000 % 256]
  {
    var b, c, d := if |len| > 1 then len[1] else 0, if |len| > 2 then len[2] else 0, if |len| > 3 then len[3] else 0;
    LittleEndianOf4(len[0], b, c, d);
    DigitsUnique(len[0], b, c, d);
    assert |len| == 1 ==> len == [len[0]];
    assert |len| == 2 ==> len == [len[0], b];
    assert |len| == 4 ==> len == [len[0], b, c, d];
    assert Pow256(1) == 0x100 && Pow256(2) == 0x1_0000;
  }

  lemma HeadSpells(s: bytes)
    requires s != [] && Head(s).Some?
    ensures var (t, n) := Head(s).value;
            WellFormed(t) && n == |Spelled(t)| && s[..n] == Spelled(t)
  {
    var (t, n) := Head(s).value;
    var w := LengthBytes(s[0]);
    HeadCuts(s);
    if w > 0 {
      LengthSpells(s[1..1 + w], |t.data|);
    }
    assert Pow256(1) == 0x100 && Pow256(2) == 0x1_0000;
  }

  lemma SpelledReads(t: Token, rest: bytes)
    requires WellFormed(t)
    ensures Head(Spelled(t) + rest) == Some((t, |Spelled(t)|)) && (Spelled(t) + rest)[|Spelled(t)|..] == rest
  {
    var n := |t.data|;
    if t.op == 0x4c {
      LittleEndianOf4(n, 0, 0, 0);
      CountedReads(t.op, [n], t.data, rest);
    } else if t.op == 0x4d {
      FourDigits(n);
      LittleEndianOf4(n % 256, n / 0x100 % 256, 0, 0);
      CountedReads(t.op, [n % 256, n / 0x100 % 256], t.data, rest);
    } else if t.op == 0x4e {
      LongestReads(t.data, rest);
    } else {
      CountedReads(t.op, [], t.data, rest);
    }
  }

  lemma LongestReads(data: bytes, rest: bytes)
    requires |data| < 0x8000_0000
    ensures var s := Spelled(Token(0x4e, data));
            Head(s + rest) == Some((Token(0x4e, data), |s|)) && (s + rest)[|s|..] == rest
  {
    var n := |data|;
    FourDigits(n);
    LittleEndianOf4(n % 256, n / 0x100 % 256, n / 0x1_0000 % 256, n / 0x100_0000 % 256);
    CountedReads(0x4e, [n % 256, n / 0x100 % 256, n / 0x1_0000 % 256, n / 0x100_0000 % 256], data, rest);
  }

  /** An opcode, the bytes of a length, the data: read back for what they are. */
  lemma CountedReads(op: byte, len: bytes, data: bytes, rest: bytes)
    requires |len| == LengthBytes(op)
    requires if 0x4c <= op <= 0x4e then LittleEndian(len) == |data| < 0x8000_0000
             else if 0x01 <= op <= 0x4b then |data| == op else data == []
    ensures var s := [op] + len + data;
            Head(s + rest) == Some((Token(op, data), |s|)) && (s + rest)[|s|..] == rest
  {
    FourParts(op, len, data, rest);
    HeadIs([op] + len + data + rest, op, len, data);
  }

  lemma FourParts(op: byte, len: bytes, data: bytes, rest: bytes)
    ensures var s, w := [op] + len + data + rest, |len|;
            && s[0] == op && s[1..1 + w] == len && s[1 + w..1 + w + |data|] == data && s[1 + w + |data|..] == rest
  {
  }

  lemma HeadIs(s: bytes, op: byte, len: bytes, data: bytes)
    requires |len| == LengthBytes(op) && |s| >= 1 + |len| + |data|
    requires s[0] == op && s[1..1 + |len|] == len && s[1 + |len|..1 + |len| + |data|] == data
    requires if 0x4c <= op <= 0x4e then LittleEndian(len) == |data| < 0x8000_0000
             else if 0x01 <= op <= 0x4b then |data| == op else data == []
    ensures Head(s) == Some((Token(op, data), 1 + |len| + |data|))
  {
  }

  function SpelledAll(ts: seq<Token>): bytes {
    if ts == [] then [] else Spelled(ts[0]) + SpelledAll(ts[1..])
  }

  predicate AllWellFormed(ts: seq<Token>) { forall t <- ts :: WellFormed(t) }

  lemma SpelledCons(t: Token, ts: seq<Token>)
    ensures SpelledAll([t] + ts) == Spelled(t) + SpelledAll(ts)
    ensures AllWellFormed([t] + ts) <==> WellFormed(t) && AllWellFormed(ts)
  {
    assert ([t] + ts)[1..] == ts;
    assert forall u :: u in [t] + ts <==> u == t || u in ts;
  }

  lemma {:induction false} SpelledConcat(ts: seq<Token>, us: seq<Token>)
    ensures SpelledAll(ts + us) == SpelledAll(ts) + SpelledAll(us)
  {
    if ts == [] {
      assert ts + us == us;
    } else {
      SpelledConcat(ts[1..], us);
      SpelledCons(ts[0], ts[1..] + us);
      assert ts + us == [ts[0]] + (ts[1..] + us);
      ConcatAssociates(Spelled(ts[0]), SpelledAll(ts[1..]), SpelledAll(us));
    }
  }

  lemma SpelledStep(s: bytes, n: nat, t: Token, ts: seq<Token>)
    requires n <= |s| && s[..n] == Spelled(t) && s[n..] == SpelledAll(ts) && WellFormed(t) && AllWellFormed(ts)
    ensures s == SpelledAll([t] + ts) && AllWellFormed([t] + ts)
  {
    SpelledCons(t, ts);
    assert s == s[..n] + s[n..];
  }

  lemma {:induction false} TokensSpell(s: bytes)
    requires Tokenize(s).Some?
    ensures s == SpelledAll(Tokenize(s).value) && AllWellFormed(Tokenize(s).value)
    decreases |s|
  {
    if s != [] {
      var (t, n) := Head(s).value;
      HeadSpells(s);
      TokensSpell(s[n..]);
      SpelledStep(s, n, t, Tokenize(s[n..]).value);
    }
  }

  lemma {:induction false} SpelledAllReads(ts: seq<Token>)
    requires AllWellFormed(ts)
    ensures Tokenize(SpelledAll(ts)) == Some(ts)
  {
    if ts != [] {
      SpelledReads(ts[0], SpelledAll(ts[1..]));
      SpelledAllReads(ts[1..]);
      assert ts == [ts[0]] + ts[1..];
    }
  }

  /** A script reads as these tokens exactly when they spell it, each with as much data as its opcode takes. */
  lemma TokenizesIff(s: bytes, ts: seq<Token>)
    ensures Tokenize(s) == Some(ts) <==> s == SpelledAll(ts) && AllWellFormed(ts)
  {
    if Tokenize(s).Some? {
      TokensSpell(s);
    }
    if s == SpelledAll(ts) && AllWellFormed(ts) {
      SpelledAllReads(ts);
    }
  }
}
