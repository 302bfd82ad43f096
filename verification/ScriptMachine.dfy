/**
  A stack interpreter for the opcodes the contract scripts use. The meaning of
  the introspection opcodes is an assumption about the emulator.
*/
module ScriptMachine {
  import opened Results
  import opened Bytes
  import opened Primitives
  import opened Script
  import opened Contract

  /** Script numbers: little-endian, shortest, with the top bit of the last byte as sign. */
  function ScriptNum(n: int): bytes {
    if n >= 0 then Magnitude(n)
    else
      MagnitudeReadsBack(-n);
      Negated(Magnitude(-n))
  }

  function Magnitude(n: nat): bytes {
    if n == 0 then []
    else if n < 128 then [n]
    else if n < 256 then [n, 0]
    else [n % 256] + Magnitude(n / 256)
  }

  /** The same number with its sign bit set. */
  function Negated(s: bytes): bytes
    requires s != [] && s[|s| - 1] < 128
  {
    s[..|s| - 1] + [s[|s| - 1] + 128]
  }

  function NumValue(s: bytes): int {
    if s == [] then 0
    else if s[|s| - 1] < 128 then LittleEndian(s)
    else Pow256(|s| - 1) * 128 - LittleEndian(s)
  }

  /** Script numbers of either sign read back as the values they encode. */
  lemma ScriptNumReadsBack(n: int)
    ensures NumValue(ScriptNum(n)) == n
  {
    if n >= 0 {
      MagnitudeReadsBack(n);
    } else {
      MagnitudeReadsBack(-n);
      NegatedReadsBack(Magnitude(-n));
    }
  }

  lemma {:induction false} NegatedReadsBack(s: bytes)
    requires s != [] && s[|s| - 1] < 128
    ensures LittleEndian(Negated(s)) == LittleEndian(s) + 128 * Pow256(|s| - 1)
    ensures NumValue(Negated(s)) + LittleEndian(s) == 0
  {
    if |s| == 1 {
      assert Negated(s)[1..] == s[1..];
    } else {
      NegatedReadsBack(s[1..]);
      assert Negated(s)[1..] == Negated(s[1..]);
    }
  }

  lemma {:induction false} MagnitudeReadsBack(n: nat)
    ensures LittleEndian(Magnitude(n)) == n
    ensures n > 0 ==> Magnitude(n) != [] && Magnitude(n)[|Magnitude(n)| - 1] < 128
    ensures NumValue(Magnitude(n)) == n
  {
    var s := Magnitude(n);
    if 0 < n < 256 {
      assert s[1..] == if n < 128 then [] else [0];
      assert LittleEndian([0]) == 0;
    } else if n >= 256 {
      MagnitudeReadsBack(n / 256);
      assert s[1..] == Magnitude(n / 256);
    }
  }

  datatype OutView = OutView(value: int, pkScript: bytes)

  /** The spending transaction as introspection opcodes see it. */
  datatype TxView = TxView(index: nat, inputValues: seq<int>, outs: seq<OutView>)

  /** The main stack, top first. */
  datatype Stack = Empty | On(top: bytes, below: Stack)

  function Bool(b: bool): bytes { if b then [1] else [] }

  function Truthy(s: bytes): bool {
    exists i :: 0 <= i < |s| && s[i] != 0 && !(i == |s| - 1 && s[i] == 0x80)
  }

  lemma TruthyBool(b: bool)
    ensures Truthy(Bool(b)) <==> b
  {
    if b {
      var one := Bool(b);
      assert one[0] != 0;
    }
  }

  /** Version and program of a segwit output script. */
  function WitnessParts(pkScript: bytes): Option<(nat, bytes)> {
    if 4 <= |pkScript| <= 42 && (pkScript[0] == OP_0 || OP_1 <= pkScript[0] <= OP_16) && pkScript[1] == |pkScript| - 2
    then Some((if pkScript[0] == OP_0 then 0 else pkScript[0] - OP_1 + 1, pkScript[2..]))
    else None
  }

  function Step(P: Prims, v: TxView, t: Token, st: Stack): Option<Stack> {
    if PushedValue(t).Some? then Some(On(PushedValue(t).value, st))
    else if t.op == OP_PUSHCURRENTINPUTINDEX then Some(On(ScriptNum(v.index), st))
    else match st
      case Empty => None
      case On(top, below) =>
        if t.op == OP_DUP then Some(On(top, st))
        else if t.op == OP_SIZE then Some(On(ScriptNum(|top|), st))
        else if t.op == OP_HASH160 then Some(On(P.hash160(top), below))
        else if t.op == OP_INSPECTINPUTVALUE then
          if 0 <= NumValue(top) < |v.inputValues| then Some(On(ScriptNum(v.inputValues[NumValue(top)]), below))
          else None
        else if t.op == OP_INSPECTOUTPUTVALUE then
          if 0 <= NumValue(top) < |v.outs| then Some(On(ScriptNum(v.outs[NumValue(top)].value), below))
          else None
        else if t.op == OP_INSPECTOUTPUTSCRIPTPUBKEY then
          if 0 <= NumValue(top) < |v.outs| then Some(PushScriptPubKey(P, v.outs[NumValue(top)].pkScript, below))
          else None
        else match below
          case Empty => None
          case On(second, rest) =>
            if t.op == OP_EQUAL then Some(On(Bool(second == top), rest))
            else if t.op == OP_EQUALVERIFY then if second == top then Some(rest) else None
            else if t.op == OP_GREATERTHANOREQUAL then Some(On(Bool(NumValue(second) >= NumValue(top)), rest))
            else None
  }

  /** Program then version on top; for other scripts a digest and -1. */
  function PushScriptPubKey(P: Prims, pkScript: bytes, st: Stack): Stack {
    match WitnessParts(pkScript)
    case Some((version, program)) => On(ScriptNum(version), On(program, st))
    case None => On([0x81], On(P.hash160(pkScript), st))
  }

  /** Runs the tokens from the k-th on. */
  function Exec(P: Prims, v: TxView, ts: seq<Token>, k: nat, st: Stack): Option<Stack>
    requires k <= |ts|
    decreases |ts| - k
  {
    if k == |ts| then Some(st)
    else
      var next :- Step(P, v, ts[k], st);
      Exec(P, v, ts, k + 1, next)
  }

  /** A script accepts when it runs to the end and leaves exactly one true element. */
  predicate Accepts(P: Prims, v: TxView, code: bytes, items: Stack) {
    match Tokenize(code)
    case None => false
    case Some(ts) =>
      var end := Exec(P, v, ts, 0, items);
      end.Some? && end.value.On? && end.value.below.Empty? && Truthy(end.value.top)
  }

  lemma Advance(P: Prims, v: TxView, ts: seq<Token>, k: nat, st: Stack, next: Stack)
    requires k < |ts| && Step(P, v, ts[k], st) == Some(next)
    ensures Exec(P, v, ts, k, st) == Exec(P, v, ts, k + 1, next)
  {
  }

  // ------------------------------------------------- the preimage condition

  function ConditionTokens(hash: bytes): seq<Token> {
    [Token(OP_SIZE, []), Token(OP_DATA_1, [PREIMAGE_SIZE]), Token(OP_EQUALVERIFY, []), Token(OP_HASH160, []),
     Token(OP_DATA_20, hash), Token(OP_EQUAL, [])]
  }

  lemma ConditionTokenizes(hash: bytes)
    requires |hash| == 20
    ensures Tokenize(Condition(hash)) == Some(ConditionTokens(hash))
  {
    var tail := [OP_HASH160] + (Push(hash) + [OP_EQUAL]);
    HashCheckReads(hash);
    SizeCheckReads(tail);
    Regroup([OP_SIZE], Push([PREIMAGE_SIZE]), OP_EQUALVERIFY, OP_HASH160, Push(hash), [OP_EQUAL]);
    var size, check := ConditionTokens(hash)[..3], ConditionTokens(hash)[3..];
    assert size == [Token(OP_SIZE, []), Token(OP_DATA_1, [PREIMAGE_SIZE]), Token(OP_EQUALVERIFY, [])];
    assert check == [Token(OP_HASH160, []), Token(OP_DATA_20, hash), Token(OP_EQUAL, [])];
    assert size + check == ConditionTokens(hash);
  }

  lemma Regroup(a: bytes, b: bytes, c: byte, d: byte, e: bytes, f: bytes)
    ensures a + b + [c] + [d] + e + f == a + (b + ([c] + ([d] + (e + f))))
  {
  }

  lemma HashCheckReads(hash: bytes)
    requires |hash| == 20
    ensures Tokenize([OP_HASH160] + (Push(hash) + [OP_EQUAL]))
            == Some([Token(OP_HASH160, []), Token(OP_DATA_20, hash), Token(OP_EQUAL, [])])
  {
    var eq := [Token(OP_EQUAL, [])];
    PlainOpReads(OP_EQUAL, []);
    assert [OP_EQUAL] == [OP_EQUAL] + [] && eq + [] == eq;
    DirectPushReads(hash, [OP_EQUAL]);
    var push := [Token(OP_DATA_20, hash), Token(OP_EQUAL, [])];
    assert [Token(OP_DATA_20, hash)] + eq == push;
    PlainOpReads(OP_HASH160, Push(hash) + [OP_EQUAL]);
    assert [Token(OP_HASH160, [])] + push == [Token(OP_HASH160, []), Token(OP_DATA_20, hash), Token(OP_EQUAL, [])];
  }

  lemma SizeCheckReads(rest: bytes)
    requires Tokenize(rest).Some?
    ensures Tokenize([OP_SIZE] + (Push([PREIMAGE_SIZE]) + ([OP_EQUALVERIFY] + rest)))
            == Some([Token(OP_SIZE, []), Token(OP_DATA_1, [PREIMAGE_SIZE]), Token(OP_EQUALVERIFY, [])]
                    + Tokenize(rest).value)
  {
    var checked := [OP_EQUALVERIFY] + rest;
    PlainOpReads(OP_EQUALVERIFY, rest);
    SizePushReads(checked);
    PlainOpReads(OP_SIZE, Push([PREIMAGE_SIZE]) + checked);
    var a, b, c, ts := Token(OP_SIZE, []), Token(OP_DATA_1, [PREIMAGE_SIZE]), Token(OP_EQUALVERIFY, []),
        Tokenize(rest).value;
    assert [a] + ([b] + ([c] + ts)) == [a, b, c] + ts;
  }

  lemma SizePushReads(rest: bytes)
    requires Tokenize(rest).Some?
    ensures Tokenize(Push([PREIMAGE_SIZE]) + rest)
            == Some([Token(OP_DATA_1, [PREIMAGE_SIZE])] + Tokenize(rest).value)
  {
    var s := Push([PREIMAGE_SIZE]) + rest;
    assert s == [OP_DATA_1, PREIMAGE_SIZE] + rest;
    assert s[1..2] == [PREIMAGE_SIZE] && s[2..] == rest;
  }

  /** A size check passes for 32 bytes only: no other length has the same script number. */
  lemma SizeIsPreimageSize(n: nat)
    ensures ScriptNum(n) == [PREIMAGE_SIZE] <==> n == PREIMAGE_SIZE
  {
    MagnitudeReadsBack(n);
    var size: bytes := [PREIMAGE_SIZE];
    assert size[1..] == [];
    assert LittleEndian(size) == PREIMAGE_SIZE;
  }

  lemma SizeCheck(P: Prims, v: TxView, hash: bytes, items: Stack)
    requires |hash| == 20
    ensures Exec(P, v, ConditionTokens(hash), 0, items)
            == if items.On? && |items.top| == PREIMAGE_SIZE then Exec(P, v, ConditionTokens(hash), 3, items) else None
  {
    var ts := ConditionTokens(hash);
    if items.On? {
      SizeIsPreimageSize(|items.top|);
      var sized := On(ScriptNum(|items.top|), items);
      Advance(P, v, ts, 0, items, sized);
      Advance(P, v, ts, 1, sized, On([PREIMAGE_SIZE], sized));
      if |items.top| == PREIMAGE_SIZE {
        Advance(P, v, ts, 2, On([PREIMAGE_SIZE], sized), items);
      }
    }
  }

  lemma HashCheck(P: Prims, v: TxView, hash: bytes, top: bytes, below: Stack)
    requires |hash| == 20
    ensures Exec(P, v, ConditionTokens(hash), 3, On(top, below)) == Some(On(Bool(P.hash160(top) == hash), below))
  {
    var ts := ConditionTokens(hash);
    var hashed := On(P.hash160(top), below);
    Advance(P, v, ts, 3, On(top, below), hashed);
    Advance(P, v, ts, 4, hashed, On(hash, hashed));
    Advance(P, v, ts, 5, On(hash, hashed), On(Bool(P.hash160(top) == hash), below));
  }

  /** The condition opens for one witness element of 32 bytes with this hash, and nothing else. */
  lemma ConditionAccepts(P: Prims, v: TxView, hash: bytes, items: Stack)
    requires |hash| == 20
    ensures Accepts(P, v, Condition(hash), items)
            <==> items.On? && items.below.Empty? && |items.top| == PREIMAGE_SIZE && P.hash160(items.top) == hash
  {
    ConditionTokenizes(hash);
    SizeCheck(P, v, hash, items);
    if items.On? {
      HashCheck(P, v, hash, items.top, items.below);
      TruthyBool(P.hash160(items.top) == hash);
    }
  }

  // -------------------------------------------------- the pay-to covenant

  /** The covenant accepts exactly when the output beside this input pays the program in full. */
  lemma PayToAccepts(P: Prims, v: TxView, program: bytes)
    requires |program| == 32
    ensures Accepts(P, v, PayToScript(program), Empty)
            <==> v.index < |v.outs| && v.index < |v.inputValues|
                 && v.outs[v.index].pkScript == [OP_1, OP_DATA_32] + program
                 && v.outs[v.index].value >= v.inputValues[v.index]
  {
    PayToTokenizes(program);
    InspectScript(P, v, program);
    if v.index < |v.outs| {
      VersionOneProgram(v.outs[v.index].pkScript, program);
      ChecksDecide(P, v, program);
      if v.index < |v.inputValues| {
        TruthyBool(v.outs[v.index].value >= v.inputValues[v.index]);
      }
    }
  }

  /** From the inspected script to the end. */
  lemma ChecksDecide(P: Prims, v: TxView, program: bytes)
    requires |program| == 32 && v.index < |v.outs|
    ensures Exec(P, v, PayToTokens(program), 3, PushScriptPubKey(P, v.outs[v.index].pkScript, IndexStack(v)))
            == if WitnessParts(v.outs[v.index].pkScript) == Some((1, program)) && v.index < |v.inputValues|
               then Some(On(Bool(v.outs[v.index].value >= v.inputValues[v.index]), Empty))
               else None
  {
    var parts := WitnessParts(v.outs[v.index].pkScript);
    if parts.None? {
      RejectNonWitness(P, v, program);
    } else {
      var (version, paid) := parts.value;
      CheckVersion(P, v, program, paid, version);
      InspectValues(P, v, paid, program);
      CompareValues(P, v, program);
    }
  }

  /** The stack under the checks: the current input's index. */
  function IndexStack(v: TxView): Stack { On(ScriptNum(v.index), Empty) }

  /** Duplicates the index and inspects the output script beside it. */
  lemma InspectScript(P: Prims, v: TxView, program: bytes)
    ensures Exec(P, v, PayToTokens(program), 0, Empty)
            == if v.index < |v.outs|
               then Exec(P, v, PayToTokens(program), 3, PushScriptPubKey(P, v.outs[v.index].pkScript, IndexStack(v)))
               else None
  {
    var ts := PayToTokens(program);
    var i := ScriptNum(v.index);
    ScriptNumReadsBack(v.index);
    Advance(P, v, ts, 0, Empty, On(i, Empty));
    Advance(P, v, ts, 1, On(i, Empty), On(i, On(i, Empty)));
    if v.index < |v.outs| {
      Advance(P, v, ts, 2, On(i, On(i, Empty)), PushScriptPubKey(P, v.outs[v.index].pkScript, IndexStack(v)));
    }
  }

  lemma CheckVersion(P: Prims, v: TxView, program: bytes, paid: bytes, version: nat)
    ensures Exec(P, v, PayToTokens(program), 3, On(ScriptNum(version), On(paid, IndexStack(v))))
            == if version == 1 then Exec(P, v, PayToTokens(program), 5, On(paid, IndexStack(v))) else None
  {
    var ts := PayToTokens(program);
    var seen := On(ScriptNum(version), On(paid, IndexStack(v)));
    Advance(P, v, ts, 3, seen, On([1], seen));
    ScriptNumReadsBack(version);
    ScriptNumReadsBack(1);
    if version == 1 {
      Advance(P, v, ts, 4, On([1], seen), On(paid, IndexStack(v)));
    }
  }

  lemma RejectNonWitness(P: Prims, v: TxView, program: bytes)
    requires v.index < |v.outs| && WitnessParts(v.outs[v.index].pkScript).None?
    ensures Exec(P, v, PayToTokens(program), 3, PushScriptPubKey(P, v.outs[v.index].pkScript, IndexStack(v))) == None
  {
    var seen := PushScriptPubKey(P, v.outs[v.index].pkScript, IndexStack(v));
    Advance(P, v, PayToTokens(program), 3, seen, On([1], seen));
  }

  lemma VersionOneProgram(pkScript: bytes, program: bytes)
    requires |program| == 32
    ensures WitnessParts(pkScript) == Some((1, program)) <==> pkScript == [OP_1, OP_DATA_32] + program
  {
    if WitnessParts(pkScript) == Some((1, program)) {
      assert pkScript == [pkScript[0], pkScript[1]] + pkScript[2..];
    } else {
      assert ([OP_1, OP_DATA_32] + program)[2..] == program;
    }
  }

  /** Checks the program, then inspects the value of the output beside this input. */
  lemma InspectValues(P: Prims, v: TxView, paid: bytes, program: bytes)
    requires |program| == 32 && v.index < |v.outs|
    ensures Exec(P, v, PayToTokens(program), 5, On(paid, IndexStack(v)))
            == if paid == program
               then Exec(P, v, PayToTokens(program), 8, On(ScriptNum(v.outs[v.index].value), Empty))
               else None
  {
    var ts := PayToTokens(program);
    ScriptNumReadsBack(v.index);
    var both := On(program, On(paid, IndexStack(v)));
    Advance(P, v, ts, 5, On(paid, IndexStack(v)), both);
    if paid == program {
      Advance(P, v, ts, 6, both, IndexStack(v));
      Advance(P, v, ts, 7, IndexStack(v), On(ScriptNum(v.outs[v.index].value), Empty));
    }
  }

  lemma CompareValues(P: Prims, v: TxView, program: bytes)
    requires v.index < |v.outs|
    ensures Exec(P, v, PayToTokens(program), 8, On(ScriptNum(v.outs[v.index].value), Empty))
            == if v.index < |v.inputValues|
               then Some(On(Bool(v.outs[v.index].value >= v.inputValues[v.index]), Empty))
               else None
  {
    var ts := PayToTokens(program);
    var out := On(ScriptNum(v.outs[v.index].value), Empty);
    ScriptNumReadsBack(v.index);
    Advance(P, v, ts, 8, out, On(ScriptNum(v.index), out));
    if v.index < |v.inputValues| {
      var both := On(ScriptNum(v.inputValues[v.index]), out);
      Advance(P, v, ts, 9, On(ScriptNum(v.index), out), both);
      ScriptNumReadsBack(v.outs[v.index].value);
      ScriptNumReadsBack(v.inputValues[v.index]);
      Advance(P, v, ts, 10, both, On(Bool(v.outs[v.index].value >= v.inputValues[v.index]), Empty));
    }
  }
}
