/** The contract scripts: the pay-to covenant, the preimage condition, and their validation. */
module Contract {
  import opened Results
  import opened Bytes
  import opened ChainTypes
  import opened Primitives
  import opened Script

  const PREIMAGE_SIZE := 32

  datatype ContractError =
    | NotP2tr
    | BadHashLength(len: nat)
    | EmptyScript
    | Untokenizable
    | NoWitnessProgram
    | TooManyWitnessPrograms(count: nat)
    | UnsupportedShape
    | NilServerKey
    | NilEmulatorKey

  predicate IsP2tr(pkScript: bytes) {
    |pkScript| == 34 && pkScript[0] == OP_1 && pkScript[1] == OP_DATA_32
  }

  function WitnessProgram(pkScript: bytes): Result<bytes, ContractError> {
    if IsP2tr(pkScript) then Ok(pkScript[2..]) else Err(NotP2tr)
  }

  /** Collects opcodes and pushes, as the script builder does. */
  class ScriptBuilder {
    var code: bytes

    constructor ()
      ensures code == []
    {
      code := [];
    }

    method AddOp(op: byte)
      modifies this
      ensures code == old(code) + [op]
    {
      code := code + [op];
    }

    method AddData(data: bytes)
      requires |data| < 0x1_0000
      modifies this
      ensures code == old(code) + Push(data)
    {
      code := code + Push(data);
    }
  }

  /** Output i must pay this witness program at least what input i carries, i the current input. */
  function PayToScript(program: bytes): bytes
    requires |program| < 0x1_0000
  {
    [OP_PUSHCURRENTINPUTINDEX, OP_DUP, OP_INSPECTOUTPUTSCRIPTPUBKEY, OP_1, OP_EQUALVERIFY]
    + Push(program)
    + [OP_EQUALVERIFY, OP_INSPECTOUTPUTVALUE, OP_PUSHCURRENTINPUTINDEX, OP_INSPECTINPUTVALUE, OP_GREATERTHANOREQUAL]
  }

  function PayTo(receiver: bytes): Result<bytes, ContractError> {
    var program :- WitnessProgram(receiver);
    Ok(PayToScript(program))
  }

  method EnforcePayTo(receiver: bytes) returns (r: Result<bytes, ContractError>)
    ensures r == PayTo(receiver)
  {
    var program := WitnessProgram(receiver);
    if program.Err? {
      return Err(program.error);
    }
    var b := new ScriptBuilder();
    b.AddOp(OP_PUSHCURRENTINPUTINDEX);
    b.AddOp(OP_DUP);
    b.AddOp(OP_INSPECTOUTPUTSCRIPTPUBKEY);
    b.AddOp(OP_1);
    b.AddOp(OP_EQUALVERIFY);
    FiveMore([], OP_PUSHCURRENTINPUTINDEX, OP_DUP, OP_INSPECTOUTPUTSCRIPTPUBKEY, OP_1, OP_EQUALVERIFY);
    b.AddData(program.value);
    ghost var pushed := b.code;
    b.AddOp(OP_EQUALVERIFY);
    b.AddOp(OP_INSPECTOUTPUTVALUE);
    b.AddOp(OP_PUSHCURRENTINPUTINDEX);
    b.AddOp(OP_INSPECTINPUTVALUE);
    b.AddOp(OP_GREATERTHANOREQUAL);
    FiveMore(pushed, OP_EQUALVERIFY, OP_INSPECTOUTPUTVALUE, OP_PUSHCURRENTINPUTINDEX, OP_INSPECTINPUTVALUE,
        OP_GREATERTHANOREQUAL);
    return Ok(b.code);
  }

  lemma FiveMore(code: bytes, a: byte, b: byte, c: byte, d: byte, e: byte)
    ensures code + [a] + [b] + [c] + [d] + [e] == code + [a, b, c, d, e]
    ensures [] + [a, b, c, d, e] == [a, b, c, d, e]
  {
  }

  function Condition(hash: bytes): bytes
    requires |hash| == 20
  {
    [OP_SIZE] + Push([PREIMAGE_SIZE]) + [OP_EQUALVERIFY] + [OP_HASH160] + Push(hash) + [OP_EQUAL]
  }

  method PreimageCondition(hash: bytes) returns (r: Result<bytes, ContractError>)
    ensures r == if |hash| == 20 then Ok(Condition(hash)) else Err(BadHashLength(|hash|))
  {
    if |hash| != 20 {
      return Err(BadHashLength(|hash|));
    }
    var b := new ScriptBuilder();
    b.AddOp(OP_SIZE);
    assert b.code == [OP_SIZE];
    b.AddData([PREIMAGE_SIZE]);
    b.AddOp(OP_EQUALVERIFY);
    b.AddOp(OP_HASH160);
    b.AddData(hash);
    b.AddOp(OP_EQUAL);
    return Ok(b.code);
  }

  function CovenantClaimClosure(
      P: Prims, hash: bytes, receiver: bytes, server: Option<PubKey>, emulator: Option<PubKey>)
    : Result<Closure, ContractError>
  {
    if server.None? then Err(NilServerKey)
    else if emulator.None? then Err(NilEmulatorKey)
    else
      var enforcement :- PayTo(receiver);
      if |hash| != 20 then Err(BadHashLength(|hash|))
      else Ok(ConditionMultisig(Condition(hash), [server.value, P.tweak(enforcement, emulator.value)]))
  }

  // ------------------------------------------------------- on the wire

  /** The covenant, byte for byte. */
  lemma PayToWire(receiver: bytes)
    ensures PayTo(receiver).Ok? <==> |receiver| == 34 && receiver[0] == 0x51 && receiver[1] == 0x20
    ensures PayTo(receiver).Ok? ==>
              PayTo(receiver).value
              == [0xcd, 0x76, 0xd1, 0x51, 0x88, 0x20] + receiver[2..] + [0x88, 0xcf, 0xcd, 0xc9, 0xa2]
  {
  }

  /** The preimage condition, byte for byte. */
  lemma ConditionWire(hash: bytes)
    requires |hash| == 20
    ensures Condition(hash) == [0x82, 0x01, 0x20, 0x88, 0xa9, 0x14] + hash + [0x87]
  {
  }

  /** A covenant closure is made exactly for both keys, a P2TR receiver and a HASH160; the server's key comes first. */
  lemma CovenantClosureIff(
      P: Prims, hash: bytes, receiver: bytes, server: Option<PubKey>, emulator: Option<PubKey>, c: Closure)
    ensures CovenantClaimClosure(P, hash, receiver, server, emulator) == Ok(c)
            <==> && server.Some? && emulator.Some? && |hash| == 20
                 && |receiver| == 34 && receiver[0] == 0x51 && receiver[1] == 0x20
                 && c.ConditionMultisig? && c.condition == [0x82, 0x01, 0x20, 0x88, 0xa9, 0x14] + hash + [0x87]
                 && var covenant := [0xcd, 0x76, 0xd1, 0x51, 0x88, 0x20] + receiver[2..]
                      + [0x88, 0xcf, 0xcd, 0xc9, 0xa2];
                    c.pubKeys == [server.value, P.tweak(covenant, emulator.value)]
  {
    PayToWire(receiver);
    if |hash| == 20 {
      ConditionWire(hash);
    }
  }

  // ------------------------------------------------------------ validation

  function WitnessPrograms(ts: seq<Token>): seq<bytes> {
    if ts == [] then []
    else (if ts[0].op == OP_DATA_32 then [ts[0].data] else []) + WitnessPrograms(ts[1..])
  }

  function ReceiverOf(code: bytes): Result<bytes, ContractError> {
    if |code| == 0 then Err(EmptyScript)
    else match Tokenize(code)
      case None => Err(Untokenizable)
      case Some(ts) =>
        var programs := WitnessPrograms(ts);
        if |programs| == 0 then Err(NoWitnessProgram)
        else if |programs| > 1 then Err(TooManyWitnessPrograms(|programs|))
        else Ok([OP_1, OP_DATA_32] + programs[0])
  }

  /** Tokenizing on from a rest already reached. */
  function ProgramsFrom(seen: seq<bytes>, rest: bytes): Option<seq<bytes>> {
    var ts :- Tokenize(rest);
    Some(seen + WitnessPrograms(ts))
  }

  lemma ProgramsStep(seen: seq<bytes>, rest: bytes)
    requires rest != []
    ensures Head(rest).None? ==> ProgramsFrom(seen, rest) == None
    ensures Head(rest).Some? ==>
              var (t, n) := Head(rest).value;
              ProgramsFrom(seen, rest)
              == ProgramsFrom(if t.op == OP_DATA_32 then seen + [t.data] else seen, rest[n..])
  {
    if Head(rest).Some? {
      var (t, n) := Head(rest).value;
      if Tokenize(rest[n..]).Some? {
        var ts := Tokenize(rest[n..]).value;
        assert ([t] + ts)[1..] == ts;
        assert seen + [t.data] + WitnessPrograms(ts) == seen + ([t.data] + WitnessPrograms(ts));
        assert [] + WitnessPrograms(ts) == WitnessPrograms(ts);
      }
    }
  }

  lemma ProgramsOfWhole(code: bytes)
    ensures ProgramsFrom([], code).None? <==> Tokenize(code).None?
    ensures Tokenize(code).Some? ==> ProgramsFrom([], code) == Some(WitnessPrograms(Tokenize(code).value))
  {
    if Tokenize(code).Some? {
      var programs := WitnessPrograms(Tokenize(code).value);
      assert [] + programs == programs;
    }
  }

  method ParseReceiverFromArkadeScript(code: bytes) returns (r: Result<bytes, ContractError>)
    ensures r == ReceiverOf(code)
  {
    if |code| == 0 {
      return Err(EmptyScript);
    }
    var tokenizer := new Tokenizer(code);
    var programs: seq<bytes> := [];
    assert ProgramsFrom([], code) == ProgramsFrom(programs, tokenizer.Rest());
    var more := true;
    while more
      invariant tokenizer.Valid()
      invariant more ==> !tokenizer.failed
      invariant !more && !tokenizer.failed ==> tokenizer.Rest() == []
      invariant tokenizer.failed ==> ProgramsFrom([], code) == None
      invariant !tokenizer.failed ==> ProgramsFrom([], code) == ProgramsFrom(programs, tokenizer.Rest())
      decreases more, |tokenizer.Rest()|
    {
      ghost var rest := tokenizer.Rest();
      if rest != [] {
        ProgramsStep(programs, rest);
      }
      more := tokenizer.Next();
      if more && tokenizer.op == OP_DATA_32 {
        programs := programs + [tokenizer.data];
      }
    }
    ProgramsOfWhole(code);
    if tokenizer.failed {
      return Err(Untokenizable);
    }
    assert programs + [] == programs;
    if |programs| == 0 {
      return Err(NoWitnessProgram);
    }
    if |programs| > 1 {
      return Err(TooManyWitnessPrograms(|programs|));
    }
    return Ok([OP_1, OP_DATA_32] + programs[0]);
  }

  function Validated(code: bytes): Result<bytes, ContractError> {
    var receiver :- ReceiverOf(code);
    var expected :- PayTo(receiver);
    if code != expected then Err(UnsupportedShape) else Ok(receiver)
  }

  method ValidateArkadeScript(code: bytes) returns (r: Result<bytes, ContractError>)
    ensures r == Validated(code)
  {
    var receiver := ParseReceiverFromArkadeScript(code);
    if receiver.Err? {
      return Err(receiver.error);
    }
    var expected := EnforcePayTo(receiver.value);
    if expected.Err? {
      return Err(expected.error);
    }
    if code != expected.value {
      return Err(UnsupportedShape);
    }
    return Ok(receiver.value);
  }

  ghost function WitnessIndices(ts: seq<Token>): set<nat> {
    set i: nat | i < |ts| && ts[i].op == 0x20
  }

  lemma {:induction false} ProgramsSnoc(ts: seq<Token>, t: Token)
    ensures WitnessPrograms(ts + [t]) == WitnessPrograms(ts) + if t.op == 0x20 then [t.data] else []
  {
    if ts == [] {
      assert ts + [t] == [t] && [t][1..] == [];
    } else {
      ProgramsSnoc(ts[1..], t);
      assert (ts + [t])[1..] == ts[1..] + [t];
      ConcatAssociates(if ts[0].op == 0x20 then [ts[0].data] else [], WitnessPrograms(ts[1..]),
        if t.op == 0x20 then [t.data] else []);
    }
  }

  lemma {:induction false} ProgramsCounted(ts: seq<Token>)
    ensures |WitnessPrograms(ts)| == |WitnessIndices(ts)|
    ensures |WitnessPrograms(ts)| == 1 ==> forall i <- WitnessIndices(ts) :: WitnessPrograms(ts)[0] == ts[i].data
    decreases |ts|
  {
    if ts != [] {
      var n: nat := |ts| - 1;
      var front := ts[..n];
      assert ts == front + [ts[n]];
      ProgramsSnoc(front, ts[n]);
      ProgramsCounted(front);
      IndicesSnoc(front, ts[n]);
    }
  }

  lemma IndicesSnoc(ts: seq<Token>, t: Token)
    ensures WitnessIndices(ts + [t]) == WitnessIndices(ts) + if t.op == 0x20 then {|ts|} else {}
  {
  }

  /** Which receiver a script names, and what is wrong with one that names none. */
  lemma ReceiverOfIff(code: bytes)
    ensures ReceiverOf(code) == Err(EmptyScript) <==> code == []
    ensures ReceiverOf(code) == Err(Untokenizable) <==> code != [] && Tokenize(code).None?
    ensures code != [] && Tokenize(code).Some? ==>
              var ts := Tokenize(code).value;
              var n := |WitnessIndices(ts)|;
              && (ReceiverOf(code) == Err(NoWitnessProgram) <==> n == 0)
              && (ReceiverOf(code) == Err(TooManyWitnessPrograms(n)) <==> n > 1)
              && (ReceiverOf(code).Ok? <==> n == 1)
              && (n == 1 ==> forall i <- WitnessIndices(ts) :: ReceiverOf(code) == Ok([0x51, 0x20] + ts[i].data))
  {
    if code != [] && Tokenize(code).Some? {
      ProgramsCounted(Tokenize(code).value);
    }
  }

  /** The tokens of the covenant, whatever bytes the witness program holds. */
  function PayToTokens(program: bytes): seq<Token> {
    [Token(OP_PUSHCURRENTINPUTINDEX, []), Token(OP_DUP, []), Token(OP_INSPECTOUTPUTSCRIPTPUBKEY, []),
     Token(OP_1, []), Token(OP_EQUALVERIFY, []), Token(OP_DATA_32, program),
     Token(OP_EQUALVERIFY, []), Token(OP_INSPECTOUTPUTVALUE, []), Token(OP_PUSHCURRENTINPUTINDEX, []),
     Token(OP_INSPECTINPUTVALUE, []), Token(OP_GREATERTHANOREQUAL, [])]
  }

  function PlainTokens(ops: bytes): seq<Token> {
    if ops == [] then [] else [Token(ops[0], [])] + PlainTokens(ops[1..])
  }

  /** A run of opcodes without data spells its tokens one for one. */
  lemma {:induction false} PlainOpsSpell(ops: bytes)
    requires forall i :: 0 <= i < |ops| ==> ops[i] > OP_PUSHDATA4
    ensures SpelledAll(PlainTokens(ops)) == ops && AllWellFormed(PlainTokens(ops))
  {
    if ops != [] {
      PlainOpsSpell(ops[1..]);
      SpelledCons(Token(ops[0], []), PlainTokens(ops[1..]));
      assert ops == [ops[0]] + ops[1..];
    }
  }

  lemma FivePlainTokens(a: byte, b: byte, c: byte, d: byte, e: byte)
    ensures PlainTokens([a, b, c, d, e])
            == [Token(a, []), Token(b, []), Token(c, []), Token(d, []), Token(e, [])]
  {
    var ops: bytes := [a, b, c, d, e];
    assert ops[1..] == [b, c, d, e] && ops[1..][1..] == [c, d, e];
    assert ops[1..][1..][1..] == [d, e] && ops[1..][1..][1..][1..] == [e];
    assert PlainTokens([e]) == [Token(e, [])];
    assert PlainTokens([d, e]) == [Token(d, []), Token(e, [])];
    assert PlainTokens([c, d, e]) == [Token(c, []), Token(d, []), Token(e, [])];
  }

  lemma PlainPushSpells(pre: bytes, data: bytes, post: bytes)
    requires forall i :: 0 <= i < |pre| ==> pre[i] > OP_PUSHDATA4
    requires forall i :: 0 <= i < |post| ==> post[i] > OP_PUSHDATA4
    requires 1 < |data| <= 75
    ensures var ts := PlainTokens(pre) + [Token(|data|, data)] + PlainTokens(post);
            SpelledAll(ts) == pre + Push(data) + post && AllWellFormed(ts)
  {
    PlainOpsSpell(pre);
    PlainOpsSpell(post);
    DirectPushSpells(data);
    InThreeSpells(PlainTokens(pre), [Token(|data|, data)], PlainTokens(post), pre, Push(data), post);
  }

  lemma DirectPushSpells(data: bytes)
    requires 1 < |data| <= 75
    ensures SpelledAll([Token(|data|, data)]) == Push(data) && AllWellFormed([Token(|data|, data)])
  {
    var t := Token(|data|, data);
    SpelledCons(t, []);
    assert [t] + [] == [t];
  }

  lemma InThreeSpells(ts: seq<Token>, us: seq<Token>, vs: seq<Token>, a: bytes, b: bytes, c: bytes)
    requires SpelledAll(ts) == a && SpelledAll(us) == b && SpelledAll(vs) == c
    requires AllWellFormed(ts) && AllWellFormed(us) && AllWellFormed(vs)
    ensures SpelledAll(ts + us + vs) == a + b + c && AllWellFormed(ts + us + vs)
  {
    SpelledConcat(ts + us, vs);
    SpelledConcat(ts, us);
  }

  /** Plain opcodes, one direct push, plain opcodes. */
  lemma PlainPushPlain(pre: bytes, data: bytes, post: bytes)
    requires forall i :: 0 <= i < |pre| ==> pre[i] > OP_PUSHDATA4
    requires forall i :: 0 <= i < |post| ==> post[i] > OP_PUSHDATA4
    requires 1 < |data| <= 75
    ensures Tokenize(pre + Push(data) + post)
            == Some(PlainTokens(pre) + [Token(|data|, data)] + PlainTokens(post))
  {
    PlainPushSpells(pre, data, post);
    SpelledAllReads(PlainTokens(pre) + [Token(|data|, data)] + PlainTokens(post));
  }

  lemma TokensInThree(program: bytes, before: seq<Token>, after: seq<Token>)
    requires before == [Token(OP_PUSHCURRENTINPUTINDEX, []), Token(OP_DUP, []), Token(OP_INSPECTOUTPUTSCRIPTPUBKEY, []),
                        Token(OP_1, []), Token(OP_EQUALVERIFY, [])]
    requires after == [Token(OP_EQUALVERIFY, []), Token(OP_INSPECTOUTPUTVALUE, []), Token(OP_PUSHCURRENTINPUTINDEX, []),
                       Token(OP_INSPECTINPUTVALUE, []), Token(OP_GREATERTHANOREQUAL, [])]
    ensures before + [Token(OP_DATA_32, program)] + after == PayToTokens(program)
  {
  }

  lemma PayToTokenizes(program: bytes)
    requires |program| == 32
    ensures Tokenize(PayToScript(program)) == Some(PayToTokens(program))
  {
    var pre: bytes := [OP_PUSHCURRENTINPUTINDEX, OP_DUP, OP_INSPECTOUTPUTSCRIPTPUBKEY, OP_1, OP_EQUALVERIFY];
    var post: bytes := [OP_EQUALVERIFY, OP_INSPECTOUTPUTVALUE, OP_PUSHCURRENTINPUTINDEX, OP_INSPECTINPUTVALUE,
        OP_GREATERTHANOREQUAL];
    PlainPushPlain(pre, program, post);
    FivePlainTokens(OP_PUSHCURRENTINPUTINDEX, OP_DUP, OP_INSPECTOUTPUTSCRIPTPUBKEY, OP_1, OP_EQUALVERIFY);
    FivePlainTokens(OP_EQUALVERIFY, OP_INSPECTOUTPUTVALUE, OP_PUSHCURRENTINPUTINDEX, OP_INSPECTINPUTVALUE,
        OP_GREATERTHANOREQUAL);
    TokensInThree(program, PlainTokens(pre), PlainTokens(post));
  }

  /** Builder and parser are exact inverses: validation accepts the covenants and nothing else. */
  lemma ValidatedIffPayTo(code: bytes, receiver: bytes)
    ensures Validated(code) == Ok(receiver) <==> PayTo(receiver) == Ok(code)
  {
    if PayTo(receiver) == Ok(code) {
      var program := receiver[2..];
      PayToTokenizes(program);
      OneWitnessProgram(program);
      assert receiver == [OP_1, OP_DATA_32] + program;
    }
  }

  lemma OneWitnessProgram(program: bytes)
    ensures WitnessPrograms(PayToTokens(program)) == [program]
  {
    var ts := PayToTokens(program);
    forall i | 0 <= i <= 11
      ensures WitnessPrograms(ts[i..]) == if i <= 5 then [program] else []
    {
      ProgramsOfSuffix(program, i);
    }
    assert ts[0..] == ts;
  }

  lemma {:induction false} ProgramsOfSuffix(program: bytes, i: nat)
    requires i <= 11
    ensures WitnessPrograms(PayToTokens(program)[i..]) == if i <= 5 then [program] else []
    decreases 11 - i
  {
    var ts := PayToTokens(program);
    if i < 11 {
      ProgramsOfSuffix(program, i + 1);
      assert ts[i..][1..] == ts[i + 1..];
    }
  }

  /** Different receivers give different covenants, and a non-P2TR receiver gives none. */
  lemma PayToInjective(a: bytes, b: bytes)
    requires PayTo(a).Ok? && PayTo(a) == PayTo(b)
    ensures a == b
  {
    ValidatedIffPayTo(PayTo(a).value, a);
    ValidatedIffPayTo(PayTo(a).value, b);
  }
}
