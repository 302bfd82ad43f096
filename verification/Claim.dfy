/** Finding the claim closure and building the claim transactions. */
module Claim {
  import opened Results
  import opened Bytes
  import opened ChainTypes
  import opened Primitives
  import opened Contract
  import opened Script
  import opened ScriptMachine

  datatype ClaimCredentials = ClaimCredentials(
    preimage: bytes, arkadeScript: bytes, taptree: seq<string>, pkScript: bytes)

  datatype MatchedClaim = MatchedClaim(
    outpoint: OutPoint, amount: uint64, sourceTx: Option<Tx>, credentials: ClaimCredentials)

  // ------------------------------------------------------- closure search

  predicate HasExactlyTwoKeys(P: Prims, keys: seq<PubKey>, a: PubKey, b: PubKey) {
    |keys| == 2 &&
    ((P.xOnly(keys[0]) == P.xOnly(a) && P.xOnly(keys[1]) == P.xOnly(b)) ||
     (P.xOnly(keys[0]) == P.xOnly(b) && P.xOnly(keys[1]) == P.xOnly(a)))
  }

  function XOnlyKeys(P: Prims, keys: seq<PubKey>): (xs: seq<bytes>)
    ensures |xs| == |keys|
  {
    seq(|keys|, i requires 0 <= i < |keys| => P.xOnly(keys[i]))
  }

  /** The key check is order-free equality of the two x-only keys, with multiplicity. */
  lemma TwoKeysAsMultiset(P: Prims, keys: seq<PubKey>, a: PubKey, b: PubKey)
    ensures HasExactlyTwoKeys(P, keys, a, b)
            <==> multiset(XOnlyKeys(P, keys)) == multiset{P.xOnly(a), P.xOnly(b)}
  {
    var xs := XOnlyKeys(P, keys);
    assert |multiset(xs)| == |xs|;
    if |keys| == 2 {
      assert xs == [xs[0], xs[1]];
      var x, y, xa, xb := xs[0], xs[1], P.xOnly(a), P.xOnly(b);
      if multiset{x, y} == multiset{xa, xb} {
        assert x in multiset{xa, xb} && y in multiset{xa, xb};
        assert xa in multiset{x, y} && xb in multiset{x, y};
      }
    }
  }

  datatype FindError =
    | BadCondition(len: nat)
    | NoConditionClosure(total: nat)
    | NoConditionMatch(conditionClosures: nat)
    | WrongKeys(conditionMatches: nat)

  predicate Commits(c: Closure, condition: bytes) {
    c.ConditionMultisig? && c.condition == condition
  }

  /** The closures a search for this condition and these keys may return. */
  predicate IsClaimClosure(P: Prims, c: Closure, condition: bytes, server: PubKey, tweaked: PubKey) {
    Commits(c, condition) && HasExactlyTwoKeys(P, c.pubKeys, server, tweaked)
  }

  function FirstClaim(P: Prims, cs: seq<Closure>, condition: bytes, server: PubKey, tweaked: PubKey): Option<Closure> {
    if cs == [] then None
    else if IsClaimClosure(P, cs[0], condition, server, tweaked) then Some(cs[0])
    else FirstClaim(P, cs[1..], condition, server, tweaked)
  }

  function CountConditions(cs: seq<Closure>): nat {
    if cs == [] then 0
    else CountConditions(cs[..|cs| - 1]) + if cs[|cs| - 1].ConditionMultisig? then 1 else 0
  }

  function CountCommitting(cs: seq<Closure>, condition: bytes): nat {
    if cs == [] then 0
    else CountCommitting(cs[..|cs| - 1], condition) + if Commits(cs[|cs| - 1], condition) then 1 else 0
  }

  /** What the search returns, and on failure which wall it hit with how many closures behind it. */
  function Found(
      P: Prims, cs: seq<Closure>, server: PubKey, tweaked: PubKey, preimage: bytes)
    : Result<Closure, FindError>
  {
    var hash := P.hash160(preimage);
    if |hash| != 20 then Err(BadCondition(|hash|))
    else
      match FirstClaim(P, cs, Condition(hash), server, tweaked)
      case Some(c) => Ok(c)
      case None =>
        if CountConditions(cs) == 0 then Err(NoConditionClosure(|cs|))
        else if CountCommitting(cs, Condition(hash)) == 0 then Err(NoConditionMatch(CountConditions(cs)))
        else Err(WrongKeys(CountCommitting(cs, Condition(hash))))
  }

  method FindClaimClosure(P: Prims, cs: seq<Closure>, server: PubKey, tweaked: PubKey, preimage: bytes)
    returns (r: Result<Closure, FindError>)
    ensures r == Found(P, cs, server, tweaked, preimage)
  {
    var expected := PreimageCondition(P.hash160(preimage));
    if expected.Err? {
      return Err(BadCondition(|P.hash160(preimage)|));
    }
    var condition := expected.value;
    var conditionClosures, conditionMatches := 0, 0;
    for i := 0 to |cs|
      invariant conditionClosures == CountConditions(cs[..i])
      invariant conditionMatches == CountCommitting(cs[..i], condition)
      invariant FirstClaim(P, cs, condition, server, tweaked) == FirstClaim(P, cs[i..], condition, server, tweaked)
    {
      assert cs[..i + 1][..i] == cs[..i] && cs[i..][1..] == cs[i + 1..];
      var c := cs[i];
      if c.ConditionMultisig? {
        conditionClosures := conditionClosures + 1;
        if c.condition == condition {
          conditionMatches := conditionMatches + 1;
          if HasExactlyTwoKeys(P, c.pubKeys, server, tweaked) {
            return Ok(c);
          }
        }
      }
    }
    assert cs[..|cs|] == cs;
    if conditionClosures == 0 {
      return Err(NoConditionClosure(|cs|));
    }
    if conditionMatches == 0 {
      return Err(NoConditionMatch(conditionClosures));
    }
    return Err(WrongKeys(conditionMatches));
  }

  /** The search returns the first claim closure, and fails exactly when there is none. */
  lemma {:induction false} FirstClaimMeans(
      P: Prims, cs: seq<Closure>, condition: bytes, server: PubKey, tweaked: PubKey)
    ensures var r := FirstClaim(P, cs, condition, server, tweaked);
            && (r.None? <==> forall c <- cs :: !IsClaimClosure(P, c, condition, server, tweaked))
            && (r.Some? ==>
                  exists i :: 0 <= i < |cs| && cs[i] == r.value && IsClaimClosure(P, cs[i], condition, server, tweaked)
                    && forall j :: 0 <= j < i ==> !IsClaimClosure(P, cs[j], condition, server, tweaked))
  {
    if cs != [] && !IsClaimClosure(P, cs[0], condition, server, tweaked) {
      var rest := cs[1..];
      FirstClaimMeans(P, rest, condition, server, tweaked);
      assert forall c :: c in cs <==> c == cs[0] || c in rest;
      var r := FirstClaim(P, rest, condition, server, tweaked);
      if r.Some? {
        var i :| 0 <= i < |rest| && rest[i] == r.value && IsClaimClosure(P, rest[i], condition, server, tweaked)
          && forall j :: 0 <= j < i ==> !IsClaimClosure(P, rest[j], condition, server, tweaked);
        assert cs[i + 1] == r.value;
        assert forall j :: 0 < j < i + 1 ==> cs[j] == rest[j - 1];
      }
    }
  }

  ghost function ConditionIndices(cs: seq<Closure>): set<nat> {
    set i: nat | i < |cs| && cs[i].ConditionMultisig?
  }

  ghost function CommittingIndices(cs: seq<Closure>, condition: bytes): set<nat> {
    set i: nat | i < |cs| && Commits(cs[i], condition)
  }

  /** The error counts are the sizes of the two filters. */
  lemma {:induction false} CountsConditions(cs: seq<Closure>)
    ensures CountConditions(cs) == |ConditionIndices(cs)|
  {
    if cs != [] {
      var n: nat := |cs| - 1;
      CountsConditions(cs[..n]);
      assert ConditionIndices(cs) == ConditionIndices(cs[..n]) + if cs[n].ConditionMultisig? then {n} else {};
    }
  }

  lemma {:induction false} CountsCommitting(cs: seq<Closure>, condition: bytes)
    ensures CountCommitting(cs, condition) == |CommittingIndices(cs, condition)|
  {
    if cs != [] {
      var n: nat := |cs| - 1;
      CountsCommitting(cs[..n], condition);
      assert CommittingIndices(cs, condition)
          == CommittingIndices(cs[..n], condition) + if Commits(cs[n], condition) then {n} else {};
    }
  }

  /** Each failure names its cause: no closure of the kind, none for this preimage, or only wrong keys. */
  lemma FindFailureNamesCause(P: Prims, cs: seq<Closure>, server: PubKey, tweaked: PubKey, preimage: bytes)
    requires P.Hash160Length()
    ensures var r := Found(P, cs, server, tweaked, preimage);
            var condition := Condition(P.hash160(preimage));
            && (r.Ok? <==> exists c <- cs :: IsClaimClosure(P, c, condition, server, tweaked))
            && (r == Err(NoConditionClosure(|cs|)) <==> forall c <- cs :: c.OtherClosure?)
            && (r.Err? && r.error.NoConditionMatch? <==>
                  (exists c <- cs :: c.ConditionMultisig?) && forall c <- cs :: !Commits(c, condition))
            && (r.Err? && r.error.WrongKeys? <==>
                  (exists c <- cs :: Commits(c, condition))
                      && forall c <- cs :: !IsClaimClosure(P, c, condition, server, tweaked))
  {
    var condition := Condition(P.hash160(preimage));
    FirstClaimMeans(P, cs, condition, server, tweaked);
    CountZero(cs, condition);
  }

  lemma {:induction false} CountZero(cs: seq<Closure>, condition: bytes)
    ensures CountConditions(cs) == 0 <==> forall c <- cs :: !c.ConditionMultisig?
    ensures CountCommitting(cs, condition) == 0 <==> forall c <- cs :: !Commits(c, condition)
  {
    if cs != [] {
      var front, last := cs[..|cs| - 1], cs[|cs| - 1];
      CountZero(front, condition);
      assert forall c :: c in cs <==> c in front || c == last;
    }
  }

  // ------------------------------------------------------- building claims

  datatype BuildError =
    | NilMatched
    | NoSourceTx
    | BadPreimageLength(len: nat)
    | BadArkadeScript(script: ContractError)
    | BadTaptree
    | NoClaimClosure(cause: FindError)
    | UnencodableClosure
    | NoTapTree
    | NoMerkleProof
    | BadControlBlock
    | NoEmulatorOutput(output: EmulatorOutputError)
    | BuilderFailed
    | ArkFieldUnset(field: PsbtField)
    | CheckpointFieldUnset(index: nat)

  /** What the re-checks establish before any transaction is built. */
  datatype Prepared = Prepared(receiver: bytes, closure: Closure, revealed: bytes, controlBlock: bytes)

  function Prepare(P: Prims, m: MatchedClaim, signer: PubKey, emulator: PubKey): Result<Prepared, BuildError> {
    var creds := m.credentials;
    if m.sourceTx.None? then Err(NoSourceTx)
    else if |creds.preimage| != PREIMAGE_SIZE then Err(BadPreimageLength(|creds.preimage|))
    else match Validated(creds.arkadeScript)
      case Err(e) => Err(BadArkadeScript(e))
      case Ok(receiver) =>
        match P.decodeClosures(creds.taptree)
        case None => Err(BadTaptree)
        case Some(cs) =>
          match Found(P, cs, signer, P.tweak(creds.arkadeScript, emulator), creds.preimage)
          case Err(e) => Err(NoClaimClosure(e))
          case Ok(closure) =>
            match P.closureScript(closure)
            case None => Err(UnencodableClosure)
            case Some(revealed) =>
              if P.tapKey(cs).None? then Err(NoTapTree)
              else match P.merkleProof(cs, revealed)
                case None => Err(NoMerkleProof)
                case Some(proof) =>
                  match P.parseControlBlock(proof)
                  case None => Err(BadControlBlock)
                  case Some(cb) => Ok(Prepared(receiver, closure, revealed, cb))
  }

  /**
    The re-checks pass exactly for a claim with its source transaction, a 32-byte preimage, a
    covenant for a script, and a taptree with a claim closure that encodes and can be proved.
  */
  lemma PrepareIff(P: Prims, m: MatchedClaim, signer: PubKey, emulator: PubKey)
    ensures Prepare(P, m, signer, emulator).Ok?
            <==> && m.sourceTx.Some? && |m.credentials.preimage| == 32
                 && (exists receiver :: PayTo(receiver) == Ok(m.credentials.arkadeScript))
                 && P.decodeClosures(m.credentials.taptree).Some?
                 && var cs := P.decodeClosures(m.credentials.taptree).value;
                    var found := Found(P, cs, signer, P.tweak(m.credentials.arkadeScript, emulator),
                        m.credentials.preimage);
                    && found.Ok? && P.closureScript(found.value).Some? && P.tapKey(cs).Some?
                    && var proof := P.merkleProof(cs, P.closureScript(found.value).value);
                       proof.Some? && P.parseControlBlock(proof.value).Some?
  {
    var code := m.credentials.arkadeScript;
    if Validated(code).Ok? {
      ValidatedIffPayTo(code, Validated(code).value);
    }
    forall receiver | PayTo(receiver) == Ok(code)
      ensures Validated(code).Ok?
    {
      ValidatedIffPayTo(code, receiver);
    }
  }

  /** The first re-check that fails names the error. */
  lemma PrepareErrors(P: Prims, m: MatchedClaim, signer: PubKey, emulator: PubKey)
    ensures var r := Prepare(P, m, signer, emulator);
            var creds := m.credentials;
            && (r == Err(NoSourceTx) <==> m.sourceTx.None?)
            && (m.sourceTx.Some? ==> (r == Err(BadPreimageLength(|creds.preimage|)) <==> |creds.preimage| != 32))
            && (m.sourceTx.Some? && |creds.preimage| == 32 && Validated(creds.arkadeScript).Err? ==>
                  r == Err(BadArkadeScript(Validated(creds.arkadeScript).error)))
            && (m.sourceTx.Some? && |creds.preimage| == 32 && Validated(creds.arkadeScript).Ok? ==>
                  if P.decodeClosures(creds.taptree).None? then r == Err(BadTaptree)
                  else
                    var search := Found(P, P.decodeClosures(creds.taptree).value, signer,
                                        P.tweak(creds.arkadeScript, emulator), creds.preimage);
                    search.Err? ==> r == Err(NoClaimClosure(search.error)))
  {
  }

  /**
    The first field that cannot be set names the error: the source transaction, the witness, then
    the checkpoints in order.
  */
  lemma FieldErrors(P: Prims, b: Bundle, k: nat)
    ensures FieldError(P, b) == Some(ArkFieldUnset(PrevArkTxField)) <==> !P.setsField(b.ark, PrevArkTxField)
    ensures FieldError(P, b) == Some(ArkFieldUnset(ConditionWitnessField))
            <==> P.setsField(b.ark, PrevArkTxField) && !P.setsField(b.ark, ConditionWitnessField)
    ensures P.setsField(b.ark, PrevArkTxField) && P.setsField(b.ark, ConditionWitnessField) ==>
              (FieldError(P, b) == Some(CheckpointFieldUnset(k))
               <==> k < |b.checkpoints| && !P.setsField(b.checkpoints[k], ConditionWitnessField)
                    && forall i :: 0 <= i < k ==> P.setsField(b.checkpoints[i], ConditionWitnessField))
  {
    CheckpointErrors(P, b.checkpoints, 0, k);
  }

  lemma {:induction false} CheckpointErrors(P: Prims, txs: seq<BuiltTx>, from: nat, k: nat)
    ensures CheckpointError(P, txs, from) == Some(CheckpointFieldUnset(k))
            <==> from <= k < |txs| && !P.setsField(txs[k], ConditionWitnessField)
                 && forall i :: from <= i < k ==> P.setsField(txs[i], ConditionWitnessField)
    ensures CheckpointError(P, txs, from).Some? ==> CheckpointError(P, txs, from).value.CheckpointFieldUnset?
    decreases |txs| - from
  {
    if from < |txs| && P.setsField(txs[from], ConditionWitnessField) {
      CheckpointErrors(P, txs, from + 1, k);
    }
  }

  function ClaimInput(m: MatchedClaim, p: Prepared): VtxoInput {
    VtxoInput(m.outpoint, ToInt64(m.amount), Tapscript(p.controlBlock, p.revealed), m.credentials.taptree)
  }

  function ClaimOutputs(m: MatchedClaim, p: Prepared, ext: TxOut): seq<TxOut> {
    [TxOut(ToInt64(m.amount), p.receiver), ext]
  }

  /** The first checkpoint from the k-th on that the witness cannot be set on. */
  function CheckpointError(P: Prims, txs: seq<BuiltTx>, k: nat): Option<BuildError>
    decreases |txs| - k
  {
    if k >= |txs| then None
    else if !P.setsField(txs[k], ConditionWitnessField) then Some(CheckpointFieldUnset(k))
    else CheckpointError(P, txs, k + 1)
  }

  /** The first field of what was built that cannot be set. */
  function FieldError(P: Prims, b: Bundle): Option<BuildError> {
    if !P.setsField(b.ark, PrevArkTxField) then Some(ArkFieldUnset(PrevArkTxField))
    else if !P.setsField(b.ark, ConditionWitnessField) then Some(ArkFieldUnset(ConditionWitnessField))
    else CheckpointError(P, b.checkpoints, 0)
  }

  function Witnessed(txs: seq<BuiltTx>, preimage: bytes): (ps: seq<ClaimPsbt>)
    ensures |ps| == |txs|
  {
    seq(|txs|, i requires 0 <= i < |txs| => ClaimPsbt(txs[i], None, Some([preimage])))
  }

  function Built(P: Prims, m: MatchedClaim, checkpointTapscript: bytes, signer: PubKey, emulator: PubKey)
    : Result<ClaimBundle, BuildError>
  {
    var p :- Prepare(P, m, signer, emulator);
    match P.emulatorOutput(m.credentials.arkadeScript)
    case Err(e) => Err(NoEmulatorOutput(e))
    case Ok(ext) =>
      match P.buildTxs(ClaimInput(m, p), ClaimOutputs(m, p, ext), checkpointTapscript)
      case None => Err(BuilderFailed)
      case Some(b) =>
        match FieldError(P, b)
        case Some(e) => Err(e)
        case None =>
          Ok(ClaimBundle(
            ClaimPsbt(b.ark, m.sourceTx, Some([m.credentials.preimage])),
            Witnessed(b.checkpoints, m.credentials.preimage)))
  }

  /** A PSBT under construction. */
  class PsbtObject {
    const tx: BuiltTx
    var prevArkTx: Option<Tx>
    var conditionWitness: Option<seq<bytes>>

    constructor (tx: BuiltTx)
      ensures View() == ClaimPsbt(tx, None, None)
    {
      this.tx := tx;
      prevArkTx, conditionWitness := None, None;
    }

    function View(): ClaimPsbt reads this { ClaimPsbt(tx, prevArkTx, conditionWitness) }

    method SetPrevArkTx(source: Tx)
      modifies this`prevArkTx
      ensures View() == old(View()).(prevArkTx := Some(source))
    {
      prevArkTx := Some(source);
    }

    method SetConditionWitness(items: seq<bytes>)
      modifies this`conditionWitness
      ensures View() == old(View()).(conditionWitness := Some(items))
    {
      conditionWitness := Some(items);
    }
  }

  method Recheck(P: Prims, m: MatchedClaim, signer: PubKey, emulator: PubKey) returns (r: Result<Prepared, BuildError>)
    ensures r == Prepare(P, m, signer, emulator)
  {
    if m.sourceTx.None? {
      return Err(NoSourceTx);
    }
    var creds := m.credentials;
    if |creds.preimage| != PREIMAGE_SIZE {
      return Err(BadPreimageLength(|creds.preimage|));
    }
    var receiver := ValidateArkadeScript(creds.arkadeScript);
    if receiver.Err? {
      return Err(BadArkadeScript(receiver.error));
    }
    var closures := P.decodeClosures(creds.taptree);
    if closures.None? {
      return Err(BadTaptree);
    }
    var cs := closures.value;
    var closure := FindClaimClosure(P, cs, signer, P.tweak(creds.arkadeScript, emulator), creds.preimage);
    if closure.Err? {
      return Err(NoClaimClosure(closure.error));
    }
    var revealed := P.closureScript(closure.value);
    if revealed.None? {
      return Err(UnencodableClosure);
    }
    if P.tapKey(cs).None? {
      return Err(NoTapTree);
    }
    var proof := P.merkleProof(cs, revealed.value);
    if proof.None? {
      return Err(NoMerkleProof);
    }
    var controlBlock := P.parseControlBlock(proof.value);
    if controlBlock.None? {
      return Err(BadControlBlock);
    }
    return Ok(Prepared(receiver.value, closure.value, revealed.value, controlBlock.value));
  }

  method BuildClaim(
      P: Prims, matched: Option<MatchedClaim>, checkpointTapscript: bytes, signer: PubKey, emulator: PubKey)
    returns (r: Result<(PsbtObject, seq<PsbtObject>), BuildError>)
    ensures matched.None? ==> r == Err(NilMatched)
    ensures matched.Some? ==>
              match Built(P, matched.value, checkpointTapscript, signer, emulator)
              case Err(e) => r == Err(e)
              case Ok(b) =>
                && r.Ok? && fresh(r.value.0) && r.value.0.View() == b.ark
                && |r.value.1| == |b.checkpoints|
                && forall i :: 0 <= i < |b.checkpoints| ==>
                     fresh(r.value.1[i]) && r.value.1[i].View() == b.checkpoints[i]
  {
    if matched.None? {
      return Err(NilMatched);
    }
    var m := matched.value;
    var creds := m.credentials;
    var prepared := Recheck(P, m, signer, emulator);
    if prepared.Err? {
      return Err(prepared.error);
    }
    var ext := P.emulatorOutput(creds.arkadeScript);
    if ext.Err? {
      return Err(NoEmulatorOutput(ext.error));
    }
    var outputs := [TxOut(ToInt64(m.amount), prepared.value.receiver), ext.value];
    var vtxoInput := VtxoInput(
      m.outpoint, ToInt64(m.amount),
      Tapscript(prepared.value.controlBlock, prepared.value.revealed), creds.taptree);
    var built := P.buildTxs(vtxoInput, outputs, checkpointTapscript);
    if built.None? {
      return Err(BuilderFailed);
    }
    r := SetClaimFields(P, built.value, m.sourceTx.value, creds.preimage);
  }

  /**
    Proves the claimed prevout and attaches the preimage, on the ark PSBT and on every
    checkpoint, until a field cannot be set.
  */
  method SetClaimFields(P: Prims, b: Bundle, source: Tx, preimage: bytes)
    returns (r: Result<(PsbtObject, seq<PsbtObject>), BuildError>)
    ensures match FieldError(P, b)
            case Some(e) => r == Err(e)
            case None =>
              && r.Ok? && fresh(r.value.0) && r.value.0.View() == ClaimPsbt(b.ark, Some(source), Some([preimage]))
              && |r.value.1| == |b.checkpoints|
              && forall i :: 0 <= i < |b.checkpoints| ==>
                   fresh(r.value.1[i]) && r.value.1[i].View() == Witnessed(b.checkpoints, preimage)[i]
  {
    var arkTx := new PsbtObject(b.ark);
    var checkpoints := OpenPsbts(b.checkpoints);
    if !P.setsField(b.ark, PrevArkTxField) {
      return Err(ArkFieldUnset(PrevArkTxField));
    }
    arkTx.SetPrevArkTx(source);
    if !P.setsField(b.ark, ConditionWitnessField) {
      return Err(ArkFieldUnset(ConditionWitnessField));
    }
    arkTx.SetConditionWitness([preimage]);
    var failed := SetWitnesses(P, b.checkpoints, checkpoints, preimage);
    if failed.Some? {
      return Err(failed.value);
    }
    return Ok((arkTx, checkpoints));
  }

  method SetWitnesses(P: Prims, txs: seq<BuiltTx>, checkpoints: seq<PsbtObject>, preimage: bytes)
    returns (failed: Option<BuildError>)
    requires |checkpoints| == |txs|
    requires forall i :: 0 <= i < |txs| ==> checkpoints[i].View() == ClaimPsbt(txs[i], None, None)
    requires forall i, j :: 0 <= i < j < |txs| ==> checkpoints[i] != checkpoints[j]
    modifies checkpoints
    ensures failed == CheckpointError(P, txs, 0)
    ensures failed.None? ==> forall i :: 0 <= i < |txs| ==> checkpoints[i].View() == Witnessed(txs, preimage)[i]
  {
    for i := 0 to |checkpoints|
      invariant CheckpointError(P, txs, 0) == CheckpointError(P, txs, i)
      invariant forall j :: 0 <= j < |checkpoints| ==>
        checkpoints[j].View() == ClaimPsbt(txs[j], None, if j < i then Some([preimage]) else None)
    {
      if !P.setsField(txs[i], ConditionWitnessField) {
        return Some(CheckpointFieldUnset(i));
      }
      checkpoints[i].SetConditionWitness([preimage]);
    }
    return None;
  }

  method OpenPsbts(txs: seq<BuiltTx>) returns (ps: seq<PsbtObject>)
    ensures |ps| == |txs| && fresh(ps)
    ensures forall i :: 0 <= i < |ps| ==> ps[i].View() == ClaimPsbt(txs[i], None, None)
    ensures forall i, j :: 0 <= i < j < |ps| ==> ps[i] != ps[j]
  {
    ps := [];
    for i := 0 to |txs|
      invariant |ps| == i && fresh(ps)
      invariant forall k :: 0 <= k < i ==> ps[k].View() == ClaimPsbt(txs[k], None, None)
      invariant forall j, k :: 0 <= j < k < i ==> ps[j] != ps[k]
    {
      var p := new PsbtObject(txs[i]);
      ps := ps + [p];
    }
  }

  // --------------------------------------------------- what a claim does

  /** Both conversions on the way from the matched output to the built one cancel. */
  lemma AmountSurvives(v: int64)
    ensures ToInt64(ToUint64(v)) == v
  {
  }

  /** The claim spends the matched output through a checkpoint and pays its value to the validated receiver. */
  ghost predicate PaysReceiver(P: Prims, m: MatchedClaim, cp: bytes, b: ClaimBundle) {
    && Validated(m.credentials.arkadeScript).Ok?
    && |b.ark.tx.outs| >= 2
    && b.ark.tx.outs[0] == TxOut(ToInt64(m.amount), Validated(m.credentials.arkadeScript).value)
    && P.emulatorOutput(m.credentials.arkadeScript) == Ok(b.ark.tx.outs[1])
    && |b.ark.tx.ins| == 1 && b.ark.tx.ins[0].value == ToInt64(m.amount)
    && |b.checkpoints| == 1 && |b.checkpoints[0].tx.ins| == 1
    && b.checkpoints[0].tx.ins[0].outpoint == m.outpoint
    && b.checkpoints[0].tx.ins[0].taptree == m.credentials.taptree
    && b.checkpoints[0].tx.exitTapscript == Some(cp)
    && b.checkpoints[0].tx.ins[0].value == ToInt64(m.amount)
    && b.ark.prevArkTx == m.sourceTx
    && b.ark.conditionWitness == Some([m.credentials.preimage])
    && b.checkpoints[0].conditionWitness == Some([m.credentials.preimage])
  }

  lemma BuiltPaysReceiver(P: Prims, m: MatchedClaim, cp: bytes, signer: PubKey, emulator: PubKey)
    requires P.BuilderKeepsShape() && Built(P, m, cp, signer, emulator).Ok?
    ensures PaysReceiver(P, m, cp, Built(P, m, cp, signer, emulator).value)
    ensures Built(P, m, cp, signer, emulator).value.checkpoints[0].tx.ins[0].tapscript
            == var p := Prepare(P, m, signer, emulator).value; Some(Tapscript(p.controlBlock, p.revealed))
  {
    var p := Prepare(P, m, signer, emulator).value;
    var ext := P.emulatorOutput(m.credentials.arkadeScript).value;
    var outs := ClaimOutputs(m, p, ext);
    var bundle := P.buildTxs(ClaimInput(m, p), outs, cp).value;
    assert KeepsShape(bundle, ClaimInput(m, p), outs, cp);
    assert bundle.ark.outs[..2] == outs;
    assert bundle.ark.outs[0] == bundle.ark.outs[..2][0];
    assert bundle.ark.outs[1] == bundle.ark.outs[..2][1];
  }

  lemma BuiltPaysValue(P: Prims, m: MatchedClaim, cp: bytes, signer: PubKey, emulator: PubKey, value: int64)
    requires P.BuilderKeepsShape() && Built(P, m, cp, signer, emulator).Ok? && m.amount == ToUint64(value)
    ensures var b := Built(P, m, cp, signer, emulator).value;
            PaysReceiver(P, m, cp, b) && b.ark.tx.outs[0] == TxOut(value, Validated(m.credentials.arkadeScript).value)
  {
    BuiltPaysReceiver(P, m, cp, signer, emulator);
    AmountSurvives(value);
  }

  lemma PreparedReceiver(P: Prims, m: MatchedClaim, signer: PubKey, emulator: PubKey)
    requires Prepare(P, m, signer, emulator).Ok?
    ensures Validated(m.credentials.arkadeScript) == Ok(Prepare(P, m, signer, emulator).value.receiver)
  {
  }

  /** The ark transaction as its own input 0 sees it. */
  function ViewAtZero(tx: BuiltTx): TxView {
    TxView(0,
      seq(|tx.ins|, k requires 0 <= k < |tx.ins| => tx.ins[k].value),
      seq(|tx.outs|, k requires 0 <= k < |tx.outs| => OutView(tx.outs[k].value, tx.outs[k].pkScript)))
  }

  /** The attached preimage opens the condition of the closure the claim reveals. */
  lemma PreimageOpensClosure(P: Prims, m: MatchedClaim, signer: PubKey, emulator: PubKey, v: TxView)
    requires P.Hash160Length() && Prepare(P, m, signer, emulator).Ok?
    ensures var p := Prepare(P, m, signer, emulator).value;
            p.closure.ConditionMultisig? && Accepts(P, v, p.closure.condition, On(m.credentials.preimage, Empty))
  {
    PreparedClosure(P, m, signer, emulator);
    FoundCommits(P, P.decodeClosures(m.credentials.taptree).value, signer,
      P.tweak(m.credentials.arkadeScript, emulator), m.credentials.preimage);
    ConditionAccepts(P, v, P.hash160(m.credentials.preimage), On(m.credentials.preimage, Empty));
  }

  lemma PreparedClosure(P: Prims, m: MatchedClaim, signer: PubKey, emulator: PubKey)
    requires Prepare(P, m, signer, emulator).Ok?
    ensures P.decodeClosures(m.credentials.taptree).Some? && |m.credentials.preimage| == PREIMAGE_SIZE
    ensures Found(P, P.decodeClosures(m.credentials.taptree).value, signer,
                  P.tweak(m.credentials.arkadeScript, emulator), m.credentials.preimage)
            == Ok(Prepare(P, m, signer, emulator).value.closure)
  {
  }

  lemma FoundCommits(P: Prims, cs: seq<Closure>, server: PubKey, tweaked: PubKey, preimage: bytes)
    requires P.Hash160Length() && Found(P, cs, server, tweaked, preimage).Ok?
    ensures var c := Found(P, cs, server, tweaked, preimage).value;
            c in cs && Commits(c, Condition(P.hash160(preimage)))
  {
    FirstClaimMeans(P, cs, Condition(P.hash160(preimage)), server, tweaked);
  }

  /** A validated covenant accepts a view whose output 0 pays its receiver what input 0 carries. */
  lemma CovenantAccepts(P: Prims, code: bytes, receiver: bytes, v: TxView)
    requires Validated(code) == Ok(receiver)
    requires v.index == 0 && |v.outs| > 0 && |v.inputValues| > 0
    ensures Accepts(P, v, code, Empty)
            <==> v.outs[0].pkScript == receiver && v.outs[0].value >= v.inputValues[0]
  {
    ValidatedIffPayTo(code, receiver);
    var program := receiver[2..];
    assert receiver == [OP_1, OP_DATA_32] + program;
    PayToAccepts(P, v, program);
  }

  /** The witness attached to a bundle opens the closure it reveals, and its covenant accepts its outputs. */
  ghost predicate LocksOpen(P: Prims, m: MatchedClaim, signer: PubKey, emulator: PubKey, b: ClaimBundle) {
    && Prepare(P, m, signer, emulator).Ok?
    && var p := Prepare(P, m, signer, emulator).value;
       && p.closure.ConditionMultisig?
       && b.ark.conditionWitness == Some([m.credentials.preimage])
       && b.checkpoints != []
       && b.checkpoints[0].tx.ins != []
       && b.checkpoints[0].tx.ins[0].tapscript == Some(Tapscript(p.controlBlock, p.revealed))
       && P.closureScript(p.closure) == Some(p.revealed)
       && Accepts(P, ViewAtZero(b.ark.tx), p.closure.condition, On(m.credentials.preimage, Empty))
       && Accepts(P, ViewAtZero(b.ark.tx), m.credentials.arkadeScript, Empty)
  }

  /** Every built claim opens its own locks. */
  lemma ClaimSatisfiesItsLocks(P: Prims, m: MatchedClaim, cp: bytes, signer: PubKey, emulator: PubKey)
    requires P.BuilderKeepsShape() && P.Hash160Length() && Built(P, m, cp, signer, emulator).Ok?
    ensures LocksOpen(P, m, signer, emulator, Built(P, m, cp, signer, emulator).value)
  {
    BuiltPaysReceiver(P, m, cp, signer, emulator);
    PreparedReceiver(P, m, signer, emulator);
    var v := ViewAtZero(Built(P, m, cp, signer, emulator).value.ark.tx);
    PreimageOpensClosure(P, m, signer, emulator, v);
    CovenantAccepts(P, m.credentials.arkadeScript, Prepare(P, m, signer, emulator).value.receiver, v);
  }
}
