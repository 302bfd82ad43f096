# covclaimd, modelled and verified in Dafny

covclaimd watches arkd's transaction stream and claims an output as soon as a preimage it
can decrypt opens it. This project models the decisions between the stream and the claim,
and proves what they keep. Verify it with `dafny verify dfyconfig.toml`.

## Structure

| File | What it models |
|---|---|
| `Bytes.dfy` | bytes, Go's fixed-width integers, lowercase hex, scans of a range |
| `Packet.dfy`, `PacketMeaning.dfy` | the claim packet's TLV codec, and what it means independently of byte order |
| `Filter.dfy` | the subscription expression and the packets it selects |
| `Primitives.dfy`, `ToyPrimitives.dfy` | the external functions with the laws assumed of them; one instance that satisfies every law |
| `Ecies.dfy` | sealing and opening, over those functions |
| `Script.dfy`, `Contract.dfy` | pushes and the tokenizer, the pay-to covenant, the preimage condition, validation |
| `ScriptMachine.dfy` | a stack interpreter for the opcodes these scripts use |
| `Claim.dfy`, `Claimer.dfy` | closure search, claim building, output matching, the encrypted plugin, the maker |
| `Reveal.dfy` | the reveal plugin: registry, submission, matching, solving |
| `RevealSystem.dfy`, `RevealRuns.dfy`, `RevealProgress.dfy`, `RevealLimits.dfy` | every interleaving of the above; what its runs obey exactly; how they get on; what they do not promise |
| `Executor.dfy`, `ExecutorLoops.dfy` | the executor as a state machine; its own loops, run against it |
| `ArkdSource.dfy` | reconnect backoff, the filtered subscription as a state machine, and its own loops |

Code that updates state is modelled by methods and classes. Each is proved equal to a
function of its inputs, or of the old state, and the results are proved about that function.
The interleaving machines use the very same functions, so their results speak about the methods.

## What is assumed

The external functions are the fields of `Primitives.Prims`, arbitrary total functions. A
theorem that needs more names the law it needs:

- `EcdhCommutes`, `CompressionParses`: both sides of a key agreement derive one secret; a
  compressed key has 33 bytes and a key pair's public half parses back.
- `OpenInvertsSeal`, `OpenRejectsOtherSuffix`: AES-GCM (sections 7.1 and 7.2 of NIST SP
  800-38D) opens what it sealed, and refuses other associated data. The refusal is stated for
  data that agree on the 33-byte key prefix and have an empty or eight-byte suffix, the two
  shapes this program builds. Stated for all strings it would be false: a tag has 16 bytes.
- `Hash160Length`, `DecodedClosuresEncode`, `LeavesAreProvable`: a HASH160 has 20 bytes, a
  decoded closure has a script, and a leaf of a taptree has a merkle proof whose control block proves it
  under the tree's output script (BIP-341, "Constructing and spending Taproot outputs").
- `BuilderKeepsShape`: the external transaction builder keeps the order of the outputs it is
  given and spends the one input, at its amount, through one checkpoint, which discloses the
  input's taptree and commits to the checkpoint tapscript.

`ToyPrimitives.ToyIsLawful` gives an instance of all of them, and `RevealLimits` builds
runs of it that reach accepted claims, so no theorem here holds for want of an instance. The
meaning of the introspection opcodes in `ScriptMachine` is an assumption about the emulator.
Opcode bytes agree with `pkg/preimage/testdata/serialization_fixtures.json`.

The clock, the indexer's and the emulator's replies, the arriving transactions, the
scheduler, the random draws (ephemeral key, nonce, jitter) and the network's errors are
parameters or nondeterministic steps.

## Where the code and its documentation disagree

The model follows the code.

- `README.md:110-112` calls a repeat submission for one address equivalent. It may carry
  another minimum amount: `ResubmissionMayDiffer` exhibits one, and `RepeatIsEquivalentIff` says
  exactly when a repeat is equivalent. A repeat made while a claim is being submitted can be
  deleted by it (`RemovalTakesNewerEntry`; `RemovalTakesLastSubmitted` says exactly when).
- `README.md:112` and `pkg/preimage/README.md:126` give registrations a life of 15 minutes.
  Only the purge of a later submission that passes its checks enforces it: `ExpiryIgnored`,
  `ExpiredEntryIsClaimed`, and exactly `EntryOutlivesItsExpiryIff` and `ExpiredClaimsIff`.
- `README.md:30-31` says each PSBT is signed. No code signs.

The filter is no disagreement but a condition. `pkg/preimage/README.md:89-95` warns against
wiring a subscription client before every emitter stamps its key, and
`cmd/covclaimd/main.go:131` wires none. Once one is wired, the shapes at risk are exactly
those of `SelectedByShapeIff`; `FilterDropsUnaddressed` is a packet of one.

## Model

| member | source | states |
|---|---|---|
| RevealSystem.RunSafety | pkg/preimage/reveal_plugin.go:49-202 | over every interleaving of submissions, purges, lookups, gates, claims and removals, and of encrypted matches: each claim sent spends the output its outpoint names, at the script its taptree derives, carrying at least the packet's minimum as an integer, pays exactly that value to the covenant's receiver, discloses the taptree and commits to the configured checkpoint tapscript, and its witness and outputs satisfy the condition and the covenant of the closure it reveals |
| RevealSystem.NeverFailsLate | pkg/preimage/claim.go:43-88 | in every reachable state a claim about to be submitted passes all of the re-checks and reveals a leaf provable under the output it spends |
| RevealRuns.PaidOutputIsFound | pkg/preimage/reveal_plugin.go:174-202 | over any run, while an output of its transaction keeps paying a registered script its minimum, a looking thread has it still ahead or has hit it or an earlier output |
| RevealProgress.PaidOutputIsReached | pkg/preimage/reveal_plugin.go:178-201 | and once the thread has taken more lookups than there were outputs before that one, it or an earlier one has been hit |
| RevealProgress.LookingAdvances | pkg/preimage/reveal_plugin.go:178-201 | over any run a thread still looking is exactly as many outputs further as it has taken lookups |
| RevealProgress.LookingEnds | pkg/preimage/reveal_plugin.go:178-201 | a thread that has taken a lookup for each output it had ahead is done looking |
| RevealProgress.LookupsAreTheScan | pkg/preimage/reveal_plugin.go:174-202 | a thread's lookups in any run, each on the registry of its own moment, are the method's scan of those registries: the same hit, or none after all outputs |
| RevealProgress.PaidCanBeSubmitted | pkg/preimage/reveal_plugin.go:149-172 | from any point of any run a transaction that pays a registered script its minimum can be brought to the submission of that output, or an earlier one |
| RevealProgress.EncryptedCanBeSubmitted | pkg/preimage/plugin.go:71-108 | from any point of any run a decodable encrypted transaction can be brought to its submission |
| RevealProgress.RevealingWasLookedUp | pkg/preimage/plugin.go:100-108 | in every run what is claimed and then removed was matched by a lookup: an encrypted claim removes nothing |
| RevealSystem.EntriesAlwaysBind | pkg/preimage/reveal_plugin.go:79-120 | in every reachable state each entry's taptree derives the script its key encodes, its packet opens, the claim closure is there; so a lookup that finds it declines only for too little value; at most 10000 entries, none expiring later than the TTL from now |
| RevealSystem.Retention | pkg/preimage/reveal_plugin.go:103-172 | between any two moments of a run a key is lost only by a purge after its expiry, or by the removal after an accepted claim of its script |
| RevealSystem.Invariant | pkg/preimage/reveal_plugin.go:49-202 | every step keeps the registry, thread and submission invariants together |
| RevealRuns.SubmittedAtMostAsShown | pkg/preimage/claimer.go:138-189 | in every run the claims submitted of one transaction number at most the times it was shown, streamed or fetched, to either plugin |
| RevealRuns.ShownOnceSubmittedOnce | pkg/preimage/claimer.go:138-189 | so no outpoint of a transaction shown at most once is submitted twice |
| RevealRuns.EntryIsLastSubmitted | pkg/preimage/reveal_plugin.go:116-118 | every entry of every reachable state is the registration of the last submission for its key that passed its checks |
| RevealRuns.RemovalTakesLastSubmitted | pkg/preimage/reveal_plugin.go:157-172 | a removal takes the key its thread matched and no other; what it takes is the registration matched exactly when no submission for the key passed in between, and otherwise the last such submission's |
| RevealRuns.EntryOutlivesItsExpiryIff | pkg/preimage/reveal_plugin.go:107-112 | over any stretch of a run an entry neither renewed nor removed is still there exactly when no submission passed after its expiry |
| RevealRuns.NoSubmitSinceExpiry | pkg/preimage/reveal_plugin.go:107-112 | an expired entry is present only if no submission passed since its expiry |
| RevealRuns.PurgedLookupAgreesIff | pkg/preimage/reveal_plugin.go:178-184 | a lookup agrees with one after a purge exactly when its key is absent, unexpired or underfunded |
| RevealRuns.ExpiredClaimsIff | pkg/preimage/reveal_plugin.go:178-184 | in every reachable state a lookup claims from an expired entry exactly when it finds one with enough value, and then no submission has passed since the expiry |
| RevealRuns.SolvingWasGated | pkg/preimage/claimer.go:123-136 | every claim about to be submitted was let through by a reply listing its script |
| RevealRuns.GatedOutputWasSpendable | pkg/preimage/claimer.go:123-136 | if its script was paid only once, that reply listed the matched output itself |
| Reveal.RevealPlugin.Register | pkg/preimage/reveal_plugin.go:103-120 | one lock section turns the old map into the registered one, whatever order the purge visits keys in |
| Reveal.RegisterMeans | pkg/preimage/reveal_plugin.go:103-120 | refused exactly when the key is not among the unexpired entries and they already number 10000; afterwards nothing expired is left, the keys are the unexpired ones and the new one, and the others are unchanged |
| Reveal.RegisteredEntries | pkg/preimage/reveal_plugin.go:116-118 | every entry afterwards is the submitted one with a fresh expiry, under its own key, or an old one unchanged |
| Reveal.RevealPlugin.Submit | pkg/preimage/reveal_plugin.go:49-77 | the first failing check decides the error and leaves the map alone; otherwise the registration under the hex of the address's script decides both, and when it succeeds the check for an already funded output is launched for that key |
| Reveal.CheckedIffBinds | pkg/preimage/reveal_plugin.go:53-66 | a submission passes exactly when address, taptree, closure, script and preimage belong together |
| Reveal.CheckedErrors | pkg/preimage/reveal_plugin.go:53-101 | the first check that fails names the error |
| Reveal.RegisteredBinds | pkg/preimage/reveal_plugin.go:103-120 | registering a bound submission keeps every entry bound |
| Reveal.RevealPlugin.MatchRegistered | pkg/preimage/reveal_plugin.go:174-202 | the loop, each output looked up in whatever the other goroutines have left in the map by then, returns the first lookup that hits |
| Reveal.MatchOverIs | pkg/preimage/reveal_plugin.go:178-201 | the result is the first output that hits in the registry its own lookup found; none exactly when every lookup misses |
| Reveal.SteadyScan | pkg/preimage/reveal_plugin.go:178-201 | while nobody changes the map that scan is the scan of one registry |
| Reveal.RevealPlugin.Match | pkg/preimage/reveal_plugin.go:149-155 | a match is let through exactly when the gate passes it |
| Reveal.RevealPlugin.ClaimIfAlreadyFunded | pkg/preimage/reveal_plugin.go:122-143 | the launched check claims and removes as a streamed match does, and does nothing without a funding transaction, a match or a passed gate |
| Reveal.MatchIsFirstLookup | pkg/preimage/reveal_plugin.go:178-201 | the match is the lookup at its own index, and every earlier lookup declined |
| Reveal.PaidOutputIsMatched | pkg/preimage/reveal_plugin.go:174-202 | on a bound registry an output that pays a registered script its minimum is matched, at its index or an earlier one |
| Reveal.LookupDeclines | pkg/preimage/reveal_plugin.go:180-188 | on a bound registry a lookup declines exactly for an unknown script or a value below the minimum: the decryption decline cannot happen |
| Reveal.LookupClaimable | pkg/preimage/reveal_plugin.go:189-199 | what a lookup matches on a bound registry is a claimable output of the transaction |
| Reveal.ExpiryIgnored | pkg/preimage/reveal_plugin.go:178-184 | matching gives the same answer whatever the expiry times are |
| Reveal.PathsAgree | pkg/preimage/claimer.go:43-106 | wherever the outputs carry the registered taptree, the encrypted path matches the reveal path's output with an equal claim, and declines each earlier output of that script |
| Reveal.RevealPlugin.ClaimMatched | pkg/preimage/claimer.go:138-189 | the emulator is sent the wire form of the built bundle, once, or nothing when building or encoding fails; true exactly when it was sent and accepted |
| Reveal.EncodePsbts | pkg/preimage/claimer.go:172-179 | the array holds the checkpoints' encodings in order, or there is none because one of them does not encode |
| Reveal.WiredInPlace | pkg/preimage/claimer.go:172-179 | a wire form exists exactly when every PSBT encodes, and each stands in its own place |
| Reveal.WiredIff | pkg/preimage/claimer.go:167-180 | the wire form is the ark PSBT's encoding with the checkpoints' in order, exactly when all encode |
| Reveal.RevealPlugin.Solve | pkg/preimage/reveal_plugin.go:157-172 | the entry under the claimed script goes exactly when the claim was accepted |
| RevealLimits.ExpiredEntryIsClaimed | pkg/preimage/reveal_plugin.go:178-184 | a run, its transaction shown once, in which a lookup made after the entry expired, and before anything was submitted, hits, and the claim it leads to is accepted |
| RevealLimits.OutpointSubmittedTwice | pkg/preimage/claimer.go:123-136 | a run, the transaction shown twice, ends with two accepted claims of one outpoint |
| RevealLimits.SubmittedAsOftenAsShown | pkg/preimage/claimer.go:123-136 | the bound is met: for every n a run that shows a transaction n times ends with n accepted claims of its one output |
| RevealLimits.RemovalTakesNewerEntry | pkg/preimage/reveal_plugin.go:169-171 | a run after which a claim finishing late removes an unexpired registration it was not matched from |
| RevealLimits.RepeatIsEquivalentIff | pkg/preimage/reveal_plugin.go:116-118 | two registrations for one key give equal lookups on all transactions exactly when their minimums, preimages, scripts and taptrees are equal, or neither minimum can be paid |
| RevealLimits.ResubmissionMayDiffer | pkg/preimage/reveal_plugin.go:113-118 | two submissions for one address, both passing their checks and both registered, the second replacing the minimum of the first |
| RevealLimits.ToySwapWorks | pkg/preimage/claim.go:38-150 | a swap exists, with and without a minimum, that registers, matches and builds |
| RevealLimits.ReachableByRun | pkg/preimage/reveal_plugin.go:49-202 | every state the exhibits construct is the last of a run of the interleaving machine |
| RevealLimits.LimitsAreReal | pkg/preimage/reveal_plugin.go:49-202 | all of these runs exist under the toy instance |
| Claim.FindClaimClosure | pkg/preimage/claim.go:152-200 | the loop with its two counters returns the specified closure or the specified error |
| Claim.FirstClaimMeans | pkg/preimage/claim.go:166-179 | the result is the first closure with the condition and the keys; none exactly when there is none |
| Claim.FindFailureNamesCause | pkg/preimage/claim.go:181-199 | success and each error exactly when the closures are of that kind: none with a condition, none for this preimage, or only wrong keys |
| Claim.CountsConditions | pkg/preimage/claim.go:165-171 | the first count is the number of condition closures |
| Claim.CountsCommitting | pkg/preimage/claim.go:172-175 | the second count is the number that commit to the preimage |
| Claim.TwoKeysAsMultiset | pkg/preimage/claim.go:202-212 | the key check is equality of the two x-only keys as multisets |
| Claim.Recheck | pkg/preimage/claim.go:46-88 | the checks before building, in order, each with its own error |
| Claim.PrepareIff | pkg/preimage/claim.go:46-88 | the re-checks pass exactly for a claim with its source transaction, a 32-byte preimage, a covenant, and a decodable taptree with a provable claim closure |
| Claim.PrepareErrors | pkg/preimage/claim.go:46-69 | the first re-check that fails names the error |
| Claim.FieldErrors | pkg/preimage/claim.go:129-147 | the first field that cannot be set names the error |
| Claim.BuildClaim | pkg/preimage/claim.go:38-150 | new PSBT objects whose fields are those of the built bundle, or the first error, each step's its own |
| Claim.SetClaimFields | pkg/preimage/claim.go:129-147 | the source transaction is set on the ark PSBT alone, the preimage on it and on each checkpoint, up to the first field that cannot be set |
| Claim.SetWitnesses | pkg/preimage/claim.go:141-147 | the loop sets every checkpoint, or names the first it cannot |
| Claim.AmountSurvives | pkg/preimage/claim.go:108-114 | the conversions of a value to uint64 and back cancel, also for negative values |
| Claim.BuiltPaysReceiver | pkg/preimage/claim.go:107-149 | output 0 pays the amount to the validated receiver, output 1 is the emulator's, the one checkpoint spends the outpoint at the amount by the revealed leaf, discloses the taptree and commits to the checkpoint tapscript, the witness is the preimage |
| Claim.BuiltPaysValue | pkg/preimage/claim.go:107-115 | output 0 carries the matched output's own value |
| Claim.PreimageOpensClosure | pkg/preimage/claim.go:135-147 | the attached witness makes the revealed closure's condition accept |
| Claim.CovenantAccepts | pkg/preimage/contract.go:66-79 | a validated script accepts at input 0 exactly when output 0 pays its receiver at least the input's value |
| Claim.ClaimSatisfiesItsLocks | pkg/preimage/claim.go:107-147 | every built claim, whatever its values, satisfies both the condition and the covenant of the closure its checkpoint reveals |
| Claimer.AmountBinding | pkg/preimage/packet.go:61-75 | a sealed packet opens to its preimage exactly when it states the minimum it was sealed with; an edited, added or stripped one fails in the open |
| Claimer.MatchOutputIff | pkg/preimage/claimer.go:43-106 | an output matches exactly when it carries a taptree that derives its script and holds the claim closure, and its value as an integer reaches the minimum; the match is then the claim written out for that output |
| Claimer.MatchOutputClaimable | pkg/preimage/claimer.go:95-105 | the match carries that output's outpoint, value, script and source transaction |
| Claimer.NoLateFailure | pkg/preimage/claim.go:43-88 | the re-checks agree with the first checks, and the revealed script is a provable leaf of the output |
| Claimer.ClaimablePays | pkg/preimage/claim.go:38-150 | whatever is built for a match pays the output's value to the covenant's receiver |
| Claimer.Decode | pkg/preimage/plugin.go:110-142 | the loop returns the scan, after the packet is found, not sealed to another, and opened |
| Claimer.DecodedIff | pkg/preimage/plugin.go:110-142 | exactly what is decoded: the packet names nobody or this covclaimd, it opens, and the claim is the one on the first output that funds it |
| Claimer.DecodesIff | pkg/preimage/plugin.go:110-142 | a transaction is decoded exactly when its packet is meant for us, opens, and some output funds it |
| Claimer.DecryptsIff | pkg/preimage/packet.go:61-75 | a packet opens to a preimage exactly when its script is a covenant, its ciphertext opens under its minimum, and the text has 32 bytes |
| Claimer.FirstMatchIsFirst | pkg/preimage/plugin.go:136-141 | the lowest matching index wins |
| Claimer.DecodedIsClaimable | pkg/preimage/plugin.go:110-142 | every decoded claim is claimable under a packet that is not another's |
| Claimer.GateVouchesIffPaidOnce | pkg/preimage/claimer.go:123-136 | over all replies drawn from the outputs ever paid, a passed gate implies that the matched output is spendable exactly when no other output pays its script |
| Claimer.GateAsksForScript | pkg/preimage/claimer.go:123-136 | an error and an empty reply stop a claim; any reply that lists the claimed script lets it through, whatever else it lists |
| Maker.BuildPacketIff | pkg/preimage/maker.go:11-35 | a packet is made exactly for a 32-byte preimage, a key and a P2TR receiver |
| Maker.MadePacketOpens | pkg/preimage/maker.go:11-35 | among any other packets it is found, parses back, names its covclaimd and opens to the preimage |
| Maker.CovenantClosureIsFound | pkg/preimage/contract.go:36-64 | the covenant closure is found anywhere among other closures |
| Maker.SealedToBot | pkg/preimage/plugin.go:110-142 | any packet the extension gives, with or without a minimum, naming us or nobody, sealed to us under its own minimum: an output funded for its receiver with at least that is claimed for the receiver, at it or an earlier output |
| Maker.StampedIsFound | pkg/preimage/packet.go:166-179 | a body that parses is the packet the extension gives, after any others of other types |
| Maker.MakerToBot | pkg/preimage/plugin.go:110-142 | the same for the packet the maker builds |
| Packet.Serialize | pkg/preimage/packet.go:79-100 | the buffer is the encoding of the packet's TLVs, or the first missing field's error |
| Packet.SerializeErrors | pkg/preimage/packet.go:80-91 | the first field at fault names the error |
| Packet.DeserializeClaim | pkg/preimage/packet.go:110-164 | the loop over offsets returns the recursive decoder's result, error for error |
| Packet.UnderfundsIsIntegerComparison | pkg/preimage/packet.go:38-40 | the uint64 comparison with its sign test is the comparison of integers |
| Packet.MinAmountBytesInjective | pkg/preimage/packet.go:42-47 | different minimums, absent included, give different associated data |
| Packet.AmountWeighs | pkg/preimage/packet.go:42-47 | the eight bytes of a minimum are read, and written, most significant first |
| PacketMeaning.DecoderAccepts | pkg/preimage/packet.go:110-164 | accepted exactly when the data splits completely into TLVs of the right sizes with both mandatory types; the result is the last of each type |
| PacketMeaning.FirstFaultReported | pkg/preimage/packet.go:116-162 | after any good TLVs the first fault is the one reported, and with none the first mandatory type missing |
| PacketMeaning.MinimumOnTheWire | pkg/preimage/packet.go:79-164 | one packet with a minimum of 1000, byte for byte and for every key: it reads as 1000 and is what the encoder writes |
| PacketMeaning.DecodesToMeaning | pkg/preimage/packet.go:116-155 | any split decides acceptance and result |
| PacketMeaning.AcceptableHasBoth | pkg/preimage/packet.go:157-162 | acceptable means right sizes and at least one of each mandatory type |
| PacketMeaning.LastOfOccurs | pkg/preimage/packet.go:131-154 | the last value of a type is one that occurs, and exists exactly when the type does |
| PacketMeaning.SplitUnique | pkg/preimage/packet.go:116-129 | there is at most one split |
| PacketMeaning.OrderIrrelevant | pkg/preimage/packet.go:131-154 | permuting TLVs with no repeated known type changes nothing |
| PacketMeaning.UnknownIgnored | pkg/preimage/packet.go:131-154 | an unknown TLV inserted anywhere changes nothing |
| PacketMeaning.RoundTrip | pkg/preimage/packet.go:79-187 | a serialized packet reads back as itself exactly when ciphertext and script are each below 65536 bytes |
| PacketMeaning.OversizeFieldIsLost | pkg/preimage/packet.go:181-187 | a 65536-byte ciphertext is written without error and not read back |
| PacketMeaning.DecodedFieldsAreShort | pkg/preimage/packet.go:121-145 | no decoded field exceeds its header; the key is absent or 33 bytes |
| PacketMeaning.Canonical | pkg/preimage/packet.go:79-164 | re-serializing an accepted packet reads back the same; it is refused exactly for an empty field |
| PacketMeaning.CanonicalBytes | pkg/preimage/packet.go:79-164 | accepted bytes are exactly what the encoder writes for them if and only if they hold each known type once, in order, with neither field empty |
| Filter.FilterExpression | pkg/preimage/plugin.go:62-69 | the expression, character for character for a 33-byte key; the needle's hex stays inside its quotes |
| Filter.NeedleInPacket | pkg/preimage/plugin.go:62-69 | every accepted body that names a key contains that key's needle, in any TLV order |
| Filter.FilterNeverMisses | pkg/preimage/plugin.go:45-69 | a packet that is not another's is selected, or names no covclaimd |
| Filter.SelectedByShapeIff | pkg/preimage/plugin.go:45-69 | for every list of TLV types with both mandatory ones, and every key: all undeclined bodies of that shape are selected exactly when the shape has the committed-key type, however the needle's hex might fall across bytes |
| Filter.FilterDropsUnaddressed | pkg/preimage/plugin.go:52-55 | a two-TLV packet that is not declined and not selected |
| Bytes.HexContains | pkg/preimage/plugin.go:62-69 | hex of a body contains the hex of whatever the body contains |
| Bytes.HexInjective | pkg/preimage/reveal_plugin.go:66-66 | a registry key identifies one script |
| Bytes.HexOfDigits | pkg/preimage/plugin.go:66-66 | hex is lower case, high digit first |
| Ecies.EncryptWithAAD | pkg/preimage/crypto.go:33-59 | the appended blob is key, nonce, ciphertext |
| Ecies.DecryptWithAAD | pkg/preimage/crypto.go:65-91 | the result is that of opening the buffer's contents, which it does not write |
| Ecies.Framing | pkg/preimage/crypto.go:17-25 | a blob is 61 bytes longer than its text, and cuts at 33 and 45 into the ephemeral key, the nonce, and the text sealed under the key derived with the ephemeral key as salt |
| Ecies.OpensIff | pkg/preimage/crypto.go:65-99 | a blob opens to a text exactly when it has 61 bytes, its first 33 are a key, and the rest opens under the key and the associated data derived from them |
| Ecies.OpensOnlyAsSealed | pkg/preimage/crypto.go:31-91 | the recipient opens a blob exactly under the associated data it was sealed with |
| Script.Tokenizer.Next | pkg/preimage/contract.go:115-121 | one token forward, or failure, as the specified reader has it |
| Script.TokenizesIff | pkg/preimage/contract.go:115-121 | a script reads as these tokens exactly when they spell it: opcode, little-endian length of one, two or four bytes for a PUSHDATA, and as much data as the opcode takes; so truncations fail |
| Script.PushReadsBack | pkg/preimage/contract.go:27-27 | every push form reads back as one push, of the same data exactly unless that is a single zero byte, which reads back empty |
| Contract.EnforcePayTo | pkg/preimage/contract.go:15-34 | the built covenant, or a refusal of anything but P2TR |
| Contract.PreimageCondition | pkg/preimage/contract.go:91-103 | the built condition, or a refusal of a hash that is not 20 bytes |
| Contract.ParseReceiverFromArkadeScript | pkg/preimage/contract.go:111-135 | the loop over the tokenizer finds the one 32-byte push, or names what is wrong |
| Contract.ReceiverOfIff | pkg/preimage/contract.go:111-135 | a script names a receiver exactly when it reads with one 32-byte push, and then that push's; otherwise it is empty, unreadable, or has none or the counted many |
| Contract.ValidateArkadeScript | pkg/preimage/contract.go:66-79 | parse, rebuild and compare, with each error |
| Contract.ValidatedIffPayTo | pkg/preimage/contract.go:66-135 | validation returns r exactly when r is P2TR and the script is the covenant for r, whatever bytes the program holds |
| Contract.PayToTokenizes | pkg/preimage/contract.go:21-33 | the covenant reads as its eleven tokens |
| Contract.PayToInjective | pkg/preimage/contract.go:15-34 | different receivers have different covenants |
| Contract.PayToWire | pkg/preimage/contract.go:15-34 | the covenant byte for byte, made exactly for 34 bytes that begin 51 20 |
| Contract.ConditionWire | pkg/preimage/contract.go:91-103 | the condition byte for byte |
| Contract.CovenantClosureIff | pkg/preimage/contract.go:36-64 | a covenant closure is made exactly for both keys, a P2TR receiver and a HASH160; its condition byte for byte, its keys the server's and the one tweaked by the covenant's bytes, in that order |
| ScriptMachine.ConditionAccepts | pkg/preimage/contract.go:91-103 | the condition accepts exactly a single 32-byte element with that hash |
| ScriptMachine.SizeIsPreimageSize | pkg/preimage/contract.go:96-98 | no other length passes the size check |
| ScriptMachine.PayToAccepts | pkg/preimage/contract.go:15-34 | at any input the covenant accepts exactly when the output beside it pays the program at least the input's value |
| ScriptMachine.ScriptNumReadsBack | pkg/preimage/contract.go:29-32 | script numbers of either sign read back as the values they encode |
| Executor.MatchedExactlyOnce | pkg/executor/executor.go:110-136 | in every schedule each non-nil packet received was handed to Match once, in stream order |
| Executor.SolvedAtMostOnce | pkg/executor/executor.go:125-133 | one solve for each successful match, once launched, called at most once, with its intent |
| Executor.RunDrains | pkg/executor/executor.go:74-105 | when Run has returned, every successful match was solved exactly once and every solve has ended |
| Executor.AllClosedMeansAllConsumed | pkg/executor/executor.go:99-103 | ErrAllStreamsClosed means no consumer was cancelled and every packet put on a stream was consumed |
| Executor.ReturnsByCause | pkg/executor/executor.go:95-104 | Run returns the context's error exactly when the context is done by then |
| Executor.MatchesWithoutSolving | pkg/executor/executor.go:114-135 | from any point of any run a consumer in its loop can receive and match everything on its stream while no solve begins or ends |
| Executor.PanicsAreInvisible | pkg/executor/executor.go:138-157 | the calls decide a run only through their recovered verdicts: a run with panics goes through the very states of one whose calls declined, or returned |
| Executor.PluginsInOrder | pkg/executor/executor.go:77-89 | each consumer serves one plugin: those whose subscription succeeded, in order |
| Executor.InternalStepsCountDown | pkg/executor/executor.go:74-136 | every step that is not the environment's lowers a bound on what is left |
| Executor.NeverStuck | pkg/executor/executor.go:95-135 | once the context is done, or all streams are closed, Run can always take a step until it returns |
| Executor.EndingRunReturns | pkg/executor/executor.go:92-135 | whatever the schedule, with the environment's steps among the executor's own, these number at most what was left plus five for each packet still put, and none is left exactly where Run has returned |
| ExecutorLoops.Runtime.Consume | pkg/executor/executor.go:110-136 | the receive loop, among any steps of the other goroutines, takes exactly the machine's steps; when it returns, all received were matched and all solves have ended |
| ExecutorLoops.Runtime.SafeMatch | pkg/executor/executor.go:138-147 | the verdict is positive exactly when the call returned a match, with its intent; a panic reads as a nil intent not matched; the packet is recorded once and no solve added |
| ExecutorLoops.Runtime.LaunchIfMatched | pkg/executor/executor.go:125-133 | a positive verdict launches one solve, with its intent; any other none |
| ExecutorLoops.Runtime.SafeSolve | pkg/executor/executor.go:149-157 | the solve is called once with the matched intent and has ended, whether the call returned or panicked |
| ExecutorLoops.Runtime.SubscribeAll | pkg/executor/executor.go:77-93 | every plugin has been asked, and the consumers are those of the plugins that subscribed, in order |
| ExecutorLoops.Runtime.Run | pkg/executor/executor.go:74-105 | the value returned is the machine's; all consumers have exited, and without cancellation every stream is consumed to its end |
| SourceMachine.DeliversInOrder | pkg/executor/arkdsource/arkdsource.go:245-342 | over any number of sessions what was sent is, in order and once each, the decodable packets received, but for one in hand, given up only when the context ended |
| SourceMachine.ClosesOnlyForCause | pkg/executor/arkdsource/arkdsource.go:246-280 | the channel closes at most once, and only for an ended context or a permanent code seen |
| SourceMachine.StepClosesIff | pkg/executor/arkdsource/arkdsource.go:231-375 | the exact steps that close it: EOF, transport errors and the watchdog are none of them |
| SourceMachine.FailuresSorted | pkg/executor/arkdsource/arkdsource.go:71-83 | with the context alive a broken stream, and a failed attempt to reopen, close the channel exactly for InvalidArgument, Unauthenticated, PermissionDenied and Unimplemented, and a failed first open is refused for exactly those; every other code backs off |
| SourceMachine.FailuresAfterEnd | pkg/executor/arkdsource/arkdsource.go:318-323 | with the context ended any such failure closes it |
| SourceMachine.ClosedAliveForCode | pkg/executor/arkdsource/arkdsource.go:249-279 | a channel closed while the context is alive has one of those four codes among its events |
| SourceMachine.ReconnectsAlways | pkg/executor/arkdsource/arkdsource.go:348-363 | from any backoff the timer and a successful open put a new stream up |
| SourceMachine.AnythingCanBeDelivered | pkg/executor/arkdsource/arkdsource.go:316-341 | while reading, any messages that come can all be taken and their packets sent, in order |
| SourceMachine.WatchdogCancels | pkg/executor/arkdsource/arkdsource.go:313-315 | the watchdog leaves no context uncancelled and changes nothing else |
| SourceMachine.ClosedForGood | pkg/executor/arkdsource/arkdsource.go:246-280 | nothing but the context's end changes after it is closed |
| SourceMachine.RefusedForFirstError | pkg/executor/arkdsource/arkdsource.go:234-238 | Subscribe refuses only for a permanent code of its first open, before any session |
| SourceMachine.OneLiveContext | pkg/executor/arkdsource/arkdsource.go:285-314 | at most one child context is uncancelled, and none once closed, refused or between attempts |
| SourceMachine.WaitsFollowBackoff | pkg/executor/arkdsource/arkdsource.go:351-373 | in any run the delay is the initial one doubled once for every attempt that failed since a stream was last up, or the maximum |
| FilteredSource.Subscription.ReadStream | pkg/executor/arkdsource/arkdsource.go:307-342 | the loop follows the machine; its result says how the session ended |
| FilteredSource.Subscription.TakeMessage | pkg/executor/arkdsource/arkdsource.go:324-340 | a decodable packet is sent, anything else skipped; nothing is sent when the context ends first |
| FilteredSource.Subscription.ReopenSubscription | pkg/executor/arkdsource/arkdsource.go:348-375 | a stream, a permanent code, or nothing when the context ended, with the machine in the matching state |
| FilteredSource.Subscription.Send | pkg/executor/arkdsource/arkdsource.go:382-389 | the packet is sent, or dropped because the context ended |
| FilteredSource.Subscription.SubscribeFiltered | pkg/executor/arkdsource/arkdsource.go:231-281 | against any script of replies: what was sent is the packets received but for at most one, no child context outlives the channel, closed exactly when the machine is, refused only for a permanent first error |
| FilteredSource.Subscription.Forward | pkg/executor/arkdsource/arkdsource.go:249-279 | read, sort the error, reopen, until there is a reason to close |
| Backoff.DelayClosedForm | pkg/executor/arkdsource/arkdsource.go:351-373 | the delay is the initial one doubled k times, or the maximum |
| Backoff.DelayNondecreasing | pkg/executor/arkdsource/arkdsource.go:373-373 | and never falls |
| Backoff.JitterBounds | pkg/executor/arkdsource/arkdsource.go:377-380 | the jittered wait stays within a fifth of the delay |
| Backoff.JitterIs | pkg/executor/arkdsource/arkdsource.go:377-380 | it is the delay times 0.8 plus 0.4 times the draw, cut to whole nanoseconds |
| Backoff.ShippedDelays | pkg/executor/arkdsource/arkdsource.go:43-49 | the shipped delays are 1, 2, 4 and 8 seconds, then 10 |
| Backoff.ShippedWaitBound | pkg/executor/arkdsource/arkdsource.go:43-49 | no shipped wait exceeds 12 seconds |

## Left out

- Servers, handlers, configuration, `main`, generated code: plumbing around the modelled calls.
- Curve arithmetic, AES, SHA-256, HKDF and the key tweak: parameters with the laws above.
- The taptree, PSBT, extension and address codecs, the base64 form, the setting of PSBT fields and the transaction builder are external: parameters that may fail.
- Logging, timings and message texts. Error values keep what tells one failure from another.
- The staleness watchdog's duration: it may cancel the stream at any moment.
- The unfiltered subscription: a simpler copy of the filtered one.
- Slices and pointers are values: aliasing between a packet and what is stored of it is not modelled, except that `DecryptWithAAD` takes a buffer and leaves it unchanged.
- A submission's checks and its registration are one step of the interleaving machine; the checks read no shared state. A lookup, a gate reply, a submission's reply and a removal are separate steps.
- The indexer's replies are arbitrary: any set of spendable outputs, or an error, at each gate.
- Output indices past 2^32, durations past int64 and pushes of 65536 bytes or more do not arise from the modelled inputs and are not given a meaning.
- The checks for nil configuration fields, and for a foreign intent in Solve: the types rule them out.
- Jittered: reals stand for the floating-point product; its rounding is not modelled.
- EndingRunReturns: a call's return counts as one step; nothing in the code bounds how long a call takes.
