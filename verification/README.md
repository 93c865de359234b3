# Verified model of the KRY verification surface

KRY lets a stranger check an operator's claims: attestations of metered work, action logs chained by hashes, post-quantum
signatures by one key or by a council, enclave attestation documents, reconciliations against a provider's bill. This
project models the parts of those checks that are self-contained algorithms, and proves what they promise for every
input, every log and every interleaving.

Each component has a module with the code's data and steps, and one or more modules with what is proved about it. Code
that loops over mutable state is a method with loop invariants, proved against a function that says what it computes;
the theorems are about that function.

| component | modules |
|---|---|
| CBOR decoder and encoder (RFC 8949, RFC 9052) | `Bytes`, `Utf8`, `CborWire` (the grammar), `CborFloat`, `CborDecode`, `CborLoops` (the code's loops), `CborComplete`, `CborSound`, `CborUnambiguous`, `CborExact`, `CborEncode` |
| lease authority with an O_EXCL lock file | `Lease` (state machine), `LeaseProof`, `LeaseLimits`, `LeaseFailures`, `LeaseAlone` |
| JSON text, its limits | `Json`, `JsonInjective`, `JsonLimits`, `JsonWalk`, `JsonLexer`, `JsonRead` (a reader), `JsonRoundTrip` |
| action attestations and anchors | `ActionChain`, `ActionBinding`, `ActionRemint`, `ActionFloor` |
| reconciliation of receipts with provider rows | `Reconcile`, `ReconcileJoin`, `ReconcileGreedy`, `ReconcileVerdict` |
| signing domains and m-of-n councils | `SigningDomains`, `Quorum`, `QuorumProof`, `QuorumExact`, `QuorumCombine` |
| privacy scan of artifacts | `PrivacyScan`, `PrivacyVerdict`, `PrivacyCap`, `PrivacyExact` |
| explicit links between usage and provider rows | `UsageLink`, `UsageLinkProof`, `UsageLinkExact` |
| savings report and its mints | `Savings`, `SavingsProof`, `SavingsFigures`, `SavingsMint` |
| Wilson interval | `Wilson` |
| shared | `Options`, `Sequences`, `Maximum`, `Totals` (order-independent counts and sums) |

## How the source's values are represented

- Hashes, ML-DSA, base64, float parsing and printing are function-valued parameters without laws, except where a lemma
  asks for one by name (a SHA-256 hex digest has 64 hex digits; decoding inverts base64 encoding). Collision resistance
  is never assumed: binding lemmas return the colliding texts.
- CBOR text is its UTF-8 bytes. A decoded map is the list of assignments that built the dict, read last write first and
  with Python's equality of numbers; a decoded float is its IEEE 754 bytes, which have an exact value. JSON strings are
  UTF-16 code units, an object is its members in the order in which they are written, a JSON float is its shortest
  decimal text.
- The lease is a state machine whose steps are those of the script: exclusive create, exists, read, decide (which opens
  and truncates the file), an exception before that, write complete, write failed, unlink, time-out, crash. Amounts are
  reals.
- Wilson bounds and savings are over the reals; the square root is a non-negative number with the right square.

## Where the code and its promise differ

Each item names an input that shows the difference and the theorem that says exactly when the promise holds.

- CBOR: the limit is described as a nesting depth of 64. The break code of an indefinite-length item is read by a
  recursive call, so an item of indefinite length that sits at level 64 is refused even when it is empty
  (`CborExact.EmptyIndefiniteArrayAtLimit`). A legal encoding is accepted if and only if it nests at most 64 levels and
  has no indefinite-length item at level 64 (`CborExact.LegalEncodingDecodes`).
- Lease: a write that fails after truncation leaves an unreadable file with the lock released, and the next lock holder
  meets it (`LeaseFailures.FailedWriteIsSeen`). Over every run the file is incomplete outside its writer's hands if and
  only if some write has failed (`LeaseFailures.BrokenExactly`); from then on nobody gets a verdict any more
  (`LeaseFailures.BrokenForever`).
- Action log: a log re-hashed from genesis is described as internally consistent. Distinct string ids are not enough
  for that, a text for a timestamp is refused (`ActionRemint.UniqueIdsAreNotEnough`). It passes the integrity loop if
  and only if each link is an object with its own string id and a `ts` that is absent or a number that has a finite
  double, which 10^400 has not (`ActionRemint.RemintPassesIntegrity`).
- Reconciliation: the number of token matches can depend on the order of the receipts, with any positive tolerance
  (`ReconcileGreedy.ToleranceDependsOnOrder`) and, at tolerance 0, with counts without cache tokens
  (`ReconcileGreedy.LegacyDependsOnOrder`). It is independent of order over all inputs without ids if and only if the
  tolerance is 0 and no row has such a count (`ReconcileGreedy.OrderMattersExactly`). In any order at least half as
  many receipts are matched as any one-to-one assignment has pairs (`ReconcileGreedy.AtLeastHalf`), and no more than half
  can happen (`ReconcileGreedy.HalfIsAttained`).
- Councils: `combine` filters out contributions that are not registered, but raises on one that is no object, or whose
  fingerprint is a list or an object (`QuorumCombine.JunkStopsCombine`), and gives an artifact if and only if there is
  none of these (`QuorumCombine.CombineExact`).
- Privacy scan: the limit on reports is not a cap. It is one, for every value of the limit, if and only if in no object
  that the traversal enters a member with reports below it is followed by a member that is reported itself
  (`PrivacyCap.CapExactly`). The bound of one extra report per enclosing object is attained at every limit and at every
  depth that the traversal enters (`PrivacyCap.OvershootAttained`).
- Savings: report and mint differ in three ways. A held-out record that is also marked as a cache hit or shows a
  displacement is reported as no saving, but is minted (`SavingsMint.HeldOutHitIsMinted`). A strict report leaves out
  the hits of classes without enough held-out calls, but minting beside it has no strict mode and mints them in full
  (`SavingsMint.UnmeasuredHitIsMinted`). A hit worth less than one token after the discount is reported as a saving, but
  is not minted (`SavingsMint.ScrapIsNotMinted`). In either mode the two carry the same value if and only if the first
  two amounts together equal the third; without valued hits of the third kind, if and only if there is no valued record
  of the first two kinds; and the other way round (`SavingsMint.MintMatchesReport`).

## Model

| member | source | states |
|---|---|---|
| CborLoops.DecodeAt | scripts/kry_tee_verify.py:103-217 | the index-based decoder never reads outside the buffer, terminates, strictly advances on success, and at every index gives the value, break marker or error that the decoding function gives for the unread bytes |
| CborLoops.IndefiniteLength | scripts/kry_tee_verify.py:114-150 | the indefinite-length branch agrees with the decoding function on every major type, including the break code and the types for which it is not allowed |
| CborLoops.ReadChunks | scripts/kry_tee_verify.py:121-129 | the loop over the chunks of an indefinite string returns the concatenation of the definite chunks up to the break, or the first error |
| CborLoops.ReadPairsToBreak | scripts/kry_tee_verify.py:138-149 | the indefinite map loop collects exactly the assignments up to the break; the key is hashed only after the value was decoded, so the value's error comes first |
| CborLoops.ReadPairs | scripts/kry_tee_verify.py:190-199 | the counted map loop collects exactly the announced number of assignments, or stops with the first error |
| CborLoops.ReadItems | scripts/kry_tee_verify.py:184-189 | the counted array loop collects exactly the announced number of items in order, or stops with the first error |
| CborLoops.DecodeWhole | scripts/kry_tee_verify.py:332-336 | decode, then refuse trailing bytes: accepts a document if and only if it is a legal encoding within the depth limit, and then returns the meaning of every legal reading of it |
| CborComplete.DecodesLegal | scripts/kry_tee_verify.py:103-217 | every legal encoding (any head width, definite or indefinite containers, chunked strings, tags) decodes to its meaning and stops at its end, at any starting depth and whatever follows |
| CborSound.WireOf | scripts/kry_tee_verify.py:103-217 | whenever a value is returned, the bytes consumed are a legal encoding of exactly that value within the depth limit; the encoding is produced |
| CborExact.DecodeExact | scripts/kry_tee_verify.py:103-217 | the decoder returns a value and a rest if and only if the input splits into a legal, shallow enough encoding of that value and that rest |
| CborExact.StopExact | scripts/kry_tee_verify.py:115-118 | the break marker is returned if and only if the caller allowed it and the next byte is 0xFF |
| CborExact.ReachIsHeight | scripts/kry_tee_verify.py:100-107 | the recursion needed to read an item is its nesting depth, plus one for an indefinite item at the deepest level |
| CborExact.LegalEncodingDecodes | scripts/kry_tee_verify.py:103-217 | a legal encoding is decoded to its meaning if and only if it nests at most 64 levels and has no indefinite-length item at level 64; otherwise it is an error |
| CborExact.EmptyIndefiniteArrayAtLimit | scripts/kry_tee_verify.py:130-137 | the same value at nesting depth 64 is accepted with a definite and refused with an indefinite empty array |
| CborExact.LastWriteWins | scripts/kry_tee_verify.py:145-147 | looking a key up in a decoded map (integer, text or byte string) gives the value of the last pair whose key equals it in Python's sense, and None when there is none |
| CborExact.OneHasManyNames | scripts/kry_tee_verify.py:360-361 | the algorithm identifier under key 1 is also found when the header stores it under true or under the half-precision float 1.0 |
| CborExact.TextIsUtf8 | scripts/kry_tee_verify.py:175-183 | a definite text string is accepted if and only if its bytes encode some sequence of Unicode scalar values (RFC 3629), and is an error otherwise |
| CborExact.KeysAreScalars | scripts/kry_tee_verify.py:190-199 | a map of one pair is accepted if and only if its key means neither a list nor a map |
| Utf8.ValidExactly | scripts/kry_tee_verify.py:179-183 | the byte patterns accept exactly the concatenations of encodings of scalar values, by the ranges of section 3 of RFC 3629: no overlong form, no surrogate, nothing above U+10FFFF |
| Utf8.EncodeInjective | scripts/kry_tee_verify.py:179-183 | different texts have different bytes, so bytes may stand for texts |
| CborFloat.FieldsOf | scripts/kry_tee_verify.py:210-215 | a bit pattern stands for the number of its sign, exponent and mantissa fields |
| CborFloat.OneUnitApart | scripts/kry_tee_verify.py:210-215 | from zero upwards each pattern of a finite float is one unit in the last place above the one before, also where the exponent changes; with zero and the sign this fixes the value of every float |
| CborFloat.SignNegates | scripts/kry_tee_verify.py:210-215 | the sign bit negates, and a full exponent field is no number |
| CborUnambiguous.Unambiguous | scripts/kry_tee_verify.py:103-217 | legal encodings are prefix-free and determine their concrete syntax tree, so no bytes have two readings |
| CborEncode.HeadIsShortest | scripts/kry_tee_verify.py:220-229 | the head is the shortest legal head for its argument and exists exactly for arguments below 2^64 |
| CborEncode.Encode | scripts/kry_tee_verify.py:232-244 | the appending loop produces the specified encoding of nested lists, or fails exactly where the source raises |
| CborEncode.DecodeEncoded | scripts/kry_tee_verify.py:232-244 | decoding inverts encoding, whatever bytes follow, for lists nested up to 64 deep; deeper ones are refused by the decoder |
| CborEncode.EncodedPrefixFree | scripts/kry_tee_verify.py:232-244 | the encoder is injective and no encoding is a prefix of another, at any nesting depth |
| CborEncode.SignedBytesDetermineContent | scripts/kry_tee_verify.py:389 | the bytes of a Sig_structure determine the protected header and the payload, even if more bytes follow |
| CborEncode.SigStructureLayout | scripts/kry_tee_verify.py:389 | the signed bytes are an array of four, the text Signature1, the protected header, an empty byte string and the payload (section 4.4 of RFC 9052) |
| CborEncode.ContextText | scripts/kry_tee_verify.py:389 | the context string is the ASCII text Signature1 |
| Bytes.UnpackPack | scripts/kry_tee_verify.py:156-167 | unpacking a big-endian argument inverts packing it |
| Bytes.MostSignificantFirst | scripts/kry_tee_verify.py:156-167 | the first byte of an argument is its most significant one |
| LeaseProof.SequentialEquivalence | lab/hole_d_double_spend.py:95-141 | for any number of processes and any interleaving with time-outs, exceptions, failed writes and crashes: mutual exclusion, no lock taken twice, every verdict is that of running the requests one at a time in lock order, and with the lock free the file holds that run's ledger; a request whose process left by an exception has no part in that run |
| LeaseProof.OnlyHolderUnlocks | lab/hole_d_lease.py:24-61 | the lock file is removed only by the process that created it last, from its own finally block; a timed-out process never removes it |
| LeaseFailures.BrokenExactly | lab/hole_d_double_spend.py:130-141 | over every run the file is incomplete outside its writer's hands if and only if some write has failed |
| LeaseFailures.NoTornRead | lab/hole_d_double_spend.py:130-141 | while no write has failed, every process about to read finds the file complete: it is incomplete only while its writer owns the lock |
| LeaseLimits.CeilingHolds | lab/hole_d_double_spend.py:125-141 | in every reachable state what callers were granted for a key, on top of earlier leases, is at most what the file records, which is at most any bound on the ceilings named for the key, plus 1e-9, and on the earlier lease |
| LeaseLimits.ExactlyAsManyAsFit | lab/hole_d_double_spend.py:187-204 | when n equal integer requests of amount a against ceiling c have all returned and l was leased before, exactly min(n, (c - l) / a) were granted, and none if l exceeds c |
| LeaseFailures.BrokenForever | lab/hole_d_lease.py:45-61 | in every run with a failed write the file stays unreadable from there to the end, and whoever has a verdict at the end had it before the failure |
| LeaseFailures.FailedWriteIsSeen | lab/hole_d_double_spend.py:130-141 | a schedule in which a write fails after truncation and the next lock holder meets the broken file |
| LeaseLimits.RunKeepsBooks | lab/hole_d_double_spend.py:130-138 | in every reachable state the readable file records exactly the initial leases plus the committed amounts, and the text being written is that plus the writer's request |
| LeaseAlone.AloneExactly | lab/hole_d_double_spend.py:125-141 | a request that runs alone is granted if and only if what its key has and its amount are at most its ceiling plus 1e-9; that sum is then stored under its key and nothing else changes; otherwise the file stays as it is |
| LeaseAlone.SlackIsAttained | lab/hole_d_double_spend.py:136-138 | for every key and ceiling one request takes the key exactly 1e-9 above it |
| JsonLimits.CheckJsonDepth | scripts/kry_action_verify.py:65-83 | the character loop accepts a text exactly when the scanner state machine gets through it without passing depth 64 |
| JsonLimits.ScanCanon | scripts/kry_action_verify.py:65-83 | scanning the canonical text of a value fails exactly when the value nests past the limit, and otherwise returns to the starting depth outside any string, whatever quotes, backslashes and brackets its strings hold |
| JsonWalk.CheckValueLimits | scripts/kry_action_verify.py:86-98 | the explicit-stack walk passes a value if and only if it nests at most 64 containers and all its integers are below 10^640 in magnitude; its error names a limit that is exceeded |
| JsonWalk.DigitLimitAgrees | scripts/kry_action_verify.py:101-105 | an integer's decimal text passes the digit limit if and only if its magnitude is below 10^640 |
| JsonLexer.CanonRead | scripts/kry_action_verify.py:101-113 | a lexer that skips strings and takes maximal numbers finds in the canonical text exactly the integers of the value, in order, whatever its strings and floats contain |
| JsonLexer.LimitsAgree | scripts/kry_action_verify.py:65-105 | the depth scan of the canonical text and the digit check on the literals read from it pass exactly when the tree walk's two conditions hold |
| JsonInjective.CanonInjective | scripts/kry_action_verify.py:128-129 | canonical texts are self-delimiting: from a text followed by anything that can follow a value, the value and the rest are determined |
| JsonInjective.CanonDetermines | scripts/kry_action_verify.py:128-129 | two values with the same canonical text are the same value |
| JsonRoundTrip.ReadInvertsCanon | scripts/kry_action_verify.py:128-129 | a reader of JSON written from RFC 8259 gets every value back from its canonical text |
| JsonRoundTrip.EscapeIsForced | scripts/kry_action_verify.py:128-129 | an escape is as short as any printable ASCII text that reads as its unit, with lower-case hexadecimal digits |
| JsonRoundTrip.CanonIsAscii | scripts/kry_action_verify.py:128-129 | canonical text is printable ASCII |
| ActionChain.CheckLink | scripts/kry_action_verify.py:205-236 | one round of the integrity loop reports exactly the first thing wrong with a link, and otherwise its id and the re-derived chain hash |
| ActionChain.CheckLinks | scripts/kry_action_verify.py:201-241 | the integrity loop passes if and only if every link re-derives on top of the chain from genesis and its id is new; otherwise it names the first link at fault |
| ActionChain.CheckFloor | scripts/kry_action_verify.py:254-281 | a declared floor passes exactly when it is a finite number within 0.01 of the floor re-derived from coerced tiers |
| ActionChain.VerifyActionAttestation | scripts/kry_action_verify.py:176-283 | accepts exactly the attestations within the limits, of the right kind and version, whose links all re-derive from genesis with distinct string ids, and whose tip, count and floor are the re-derived ones; otherwise the reason is the first of these tests that fails |
| ActionChain.VerifyAgainstAnchor | scripts/kry_action_verify.py:286-331 | passes exactly when the tip at the anchor's count is the published one; otherwise the reason is the first failing test, "dropped" for fewer links than the anchor commits to and "re-minted" for a different tip at that count |
| ActionBinding.HistoryBound | scripts/kry_action_verify.py:224-229 | equal chain hashes, even at different positions, come from equal histories of hashed texts, or a collision (or a preimage of the genesis string) is exhibited |
| ActionBinding.TipBindsHistory | scripts/kry_action_verify.py:148-162 | two accepted attestations with the same tip record the same tools, commits, statuses, agents, tiers, evidence and times in the same order, or the colliding texts are exhibited; with equal counts no genesis preimage is needed |
| ActionBinding.AnchorBindsPrefix | scripts/kry_action_verify.py:286-331 | accepted attestations that pass the same anchor agree, field by field, on all links it commits to, or a collision is exhibited |
| ActionBinding.AppendOnly | scripts/kry_action_verify.py:286-331 | after an anchor was published for a log, whatever is accepted and passes it extends that log with every field of its links unchanged, or a collision is exhibited: a shorter, edited or re-minted log fails |
| ActionBinding.AppendKeepsAnchors | scripts/kry_action_verify.py:304-331 | appending links keeps every anchor passing that passed before |
| ActionBinding.OwnAnchorMatches | scripts/kry_action_verify.py:286-331 | an anchor that repeats the count and tip of an accepted attestation is met by it |
| ActionBinding.TipIsHex | scripts/kry_action_verify.py:305-308 | a tip is accepted as such if and only if it is the text of 64 lower-case hex digits |
| ActionBinding.PayloadFixesRecord | scripts/kry_action_verify.py:148-162 | the hashed payloads of two links are equal if and only if the links agree on tool, args_commit, result_commit, status, agent_id, evidence_tier and server_evidence_commit, each with its default, and on the double of ts |
| ActionBinding.PayloadIs | scripts/kry_action_verify.py:148-162 | the payload has these nine keys in this order, the version 1 and the recorded values |
| ActionBinding.EditShows | scripts/kry_action_verify.py:220-223 | two links that pass with the same receipt hash record the same action, or their texts collide |
| ActionBinding.ChainIs | scripts/kry_action_verify.py:201-229 | the chain starts at 64 zeros and each hash is over the previous one, a colon and the hash of the link's text |
| ActionRemint.RemintPassesIntegrity | examples/try_kry_action.py:116-127 | a log re-hashed from genesis passes the integrity loop if and only if its links are objects with distinct string ids and timestamps that are absent or numbers with a finite double |
| ActionRemint.UniqueIdsAreNotEnough | scripts/kry_action_verify.py:233-236 | a log of one link with a string id and a text for a timestamp fails the integrity loop however it is re-hashed |
| ActionFloor.AnchoredNeedsWitness | scripts/kry_action_verify.py:165-173 | a link counts as anchored if and only if its tier is server_witnessed or attested and its server evidence is there and not empty |
| ActionFloor.FloorIsHonest | scripts/kry_action_verify.py:254-280 | an accepted floor is a number within 0.01005 of the fraction of links that name an anchored tier with a witness, rounding included |
| ActionFloor.HonestFloorPasses | scripts/kry_action_verify.py:262-280 | every number within 0.00995 of that fraction passes as a floor |
| ActionFloor.EmptyFloor | scripts/kry_action_verify.py:262-280 | over an empty log a floor passes if and only if it is within 0.01 of 0 |
| ActionFloor.RoundedToNearest | scripts/kry_action_verify.py:262 | the fraction is rounded to the nearest ten-thousandth, to the even one half-way |
| Reconcile.BuildIndex | scripts/kry_reconcile.py:320-323 | the index lists, for every id digest, exactly the rows that carry it, in order |
| Reconcile.CountReceiptIds | scripts/kry_reconcile.py:324-326 | the histogram counts the receipts of every id digest, the missing one included |
| Reconcile.MatchOne | scripts/kry_reconcile.py:343-358 | the two scans take the first free candidate with close full counts, else the first with close legacy counts, and mark just that row as used |
| Reconcile.MatchAll | scripts/kry_reconcile.py:327-375 | the loop with its used flags and histograms computes the specified matches, reasons and legacy count, or stops at the first malformed receipt |
| Reconcile.ReconcileRows | scripts/kry_reconcile.py:376-402 | the report is the specified one, including the diagnostic self-call on stripped input, which calls itself no further |
| Reconcile.ReconcileReceipts | scripts/kry_reconcile.py:305-402 | a report exactly when the tolerance is a natural number, all provider records can be normalised and all receipts are well formed; otherwise the first error in the source's order |
| ReconcileJoin.MatchedExactly | scripts/kry_reconcile.py:357-360 | the matched list names exactly the receipts with a hit, in order |
| ReconcileJoin.NobodyLost | scripts/kry_reconcile.py:357-376 | matched and unmatched receipts add up to all of them |
| ReconcileJoin.NeverBlocked | scripts/kry_reconcile.py:338-347 | with ids, the row a receipt may join has never been used by an earlier receipt |
| ReconcileJoin.IdentityJoin | scripts/kry_reconcile.py:316-360 | with any id present, a receipt is matched if and only if its digest is valid, unique on both sides, and the counts of the joined row fit (full or legacy), then to that row, and by the legacy count only if the full one does not fit |
| ReconcileJoin.IdentityJoinIgnoresOrder | scripts/kry_reconcile.py:316-375 | permuting receipts and provider rows changes no receipt's outcome in the id join: whether it is matched, by which count, or for what reason it is left over |
| ReconcileJoin.IdentityVerdictIgnoresOrder | scripts/kry_reconcile.py:399-400 | nor the verdict |
| ReconcileGreedy.GreedyIsMaximal | scripts/kry_reconcile.py:336-360 | without ids each receipt gets the first row free at its turn that fits it, by the full count if one does; the matching is one-to-one, and a receipt left over fits no row that is still free |
| ReconcileGreedy.AtLeastHalf | scripts/kry_reconcile.py:336-360 | without ids, no one-to-one assignment of receipts to rows that fit them, at any tolerance and with legacy counts, has more than twice as many pairs as there are matches |
| ReconcileGreedy.HalfIsAttained | scripts/kry_reconcile.py:336-360 | for every positive tolerance, two receipts and two rows that can be assigned one-to-one and give a single match |
| ReconcileGreedy.ExactMatchCount | scripts/kry_reconcile.py:336-360 | without ids, at tolerance 0 and without legacy counts, the number of matches is the size of the multiset intersection of the token pairs, and nobody is unmatched exactly when the receipts are a sub-multiset of the rows |
| ReconcileGreedy.OrderMattersExactly | scripts/kry_reconcile.py:336-360 | over all receipts and rows without ids the number of matches is independent of their order if and only if the tolerance is 0 and rows have no legacy counts |
| ReconcileGreedy.ToleranceDependsOnOrder | scripts/kry_reconcile.py:343-347 | for every positive tolerance, two receipts and two rows that give two matches in one order and one in the other |
| ReconcileGreedy.LegacyDependsOnOrder | scripts/kry_reconcile.py:349-356 | at tolerance 0, two receipts and two rows, one with a legacy count, that give one match in one order and two in the other |
| ReconcileVerdict.BasisExactly | scripts/kry_reconcile.py:316-317 | a report is by identity if and only if some receipt or some row supplies an id |
| ReconcileVerdict.VerdictByIdentity | scripts/kry_reconcile.py:399-400 | with ids the verdict is NoReceipts without receipts, Reconciled if every receipt joins some row, and Discrepancy otherwise |
| ReconcileVerdict.VerdictByCounts | scripts/kry_reconcile.py:399-400 | without ids, at tolerance 0 and without legacy counts, the verdict is Reconciled if and only if the token pairs of the receipts are a non-empty sub-multiset of those of the rows |
| ReconcileVerdict.ReconciledIsAssigned | scripts/kry_reconcile.py:336-400 | without ids, at every tolerance and with legacy counts, Reconciled means that all receipts are assigned one-to-one to rows that fit them, Discrepancy that some receipt fits no row left free |
| ReconcileVerdict.ReasonExactly | scripts/kry_reconcile.py:362-373 | the reason for a receipt left over is the first that applies of: no id, invalid id, id carried by another receipt or by two rows, and if no row carries it, a row without id, a row with an invalid id, or no such row; else the counts |
| ReconcileVerdict.ReportExactly | scripts/kry_reconcile.py:357-395 | the matched and the unmatched list are those of the receipts with and without a hit, they add up, and legacy matches are counted once each |
| ReconcileVerdict.DiagnosisIgnoresIds | scripts/kry_reconcile.py:379-387 | the diagnostic count is that of the token matching over the same receipts and rows without ids, and is given exactly by identity with receipts left over |
| ReconcileVerdict.DiagnosisExactly | scripts/kry_reconcile.py:379-387 | at tolerance 0 and without legacy counts it is the size of the intersection of the token pairs |
| SigningDomains.SignedBytesDetermineContext | kry_pqc/threshold.py:46-48 | signed bytes determine the scheme, the policy digest and the attestation, over everything the verifiers let through |
| SigningDomains.AcceptableExactly | kry_pqc/verify.py:152-153 | v1 is let through for exactly the bytes that start with neither v2 domain, v2 for one key always |
| SigningDomains.GuardIsNeeded | kry_pqc/verify.py:152-153 | without the reserved-domain guard any v2 message, single or threshold, could be relabelled as a v1 attestation with the same signed bytes; the guard refuses all of them |
| SigningDomains.DomainTexts | kry_pqc/verify.py:51-52 | the domains are the ASCII texts kry-pqc/v2/single and kry-pqc/v2/threshold with a zero byte |
| Quorum.CountSigners | kry_pqc/threshold.py:192-214 | the loop with its skips counts exactly the registered fingerprints that have at least one valid entry |
| Quorum.CheckInputs | kry_pqc/threshold.py:119-136 | malformed policies and artifacts are refused cleanly: no error exactly when all fields the checks read are there and well typed, otherwise the first guard that fails, with the first bad council entry |
| Quorum.DistinctKeys | kry_pqc/threshold.py:184-185 | comparing the size of the key set with the number of keys finds exactly the councils that list a key twice |
| Quorum.VerifyThreshold | kry_pqc/threshold.py:107-219 | true exactly when the inputs are well formed, the header binds these bytes and this policy, the council is sound and the counted signers reach the threshold |
| QuorumProof.AcceptedMeansDistinctKeys | kry_pqc/threshold.py:107-219 | acceptance yields at least threshold distinct registered public keys, each with a valid signature over these bytes for this policy, even if fingerprints collide |
| QuorumProof.MoreEntriesNeverHurt | kry_pqc/threshold.py:192-214 | reordering, repeating or adding entries never loses a counted signer |
| QuorumExact.VerifiesExactly | kry_pqc/threshold.py:107-219 | an artifact is accepted if and only if its header is that of these bytes and this policy, every member is listed under its own fingerprint with a key of the right length, no key twice, and at least threshold members have an entry with a valid signature, where of members whose fingerprints collide only the last one listed can count |
| QuorumExact.HeaderIsFixed | kry_pqc/threshold.py:148-164 | an accepted artifact with any of scheme, algorithm, message digest, policy digest, threshold or council size changed is refused |
| QuorumExact.ArtifactFixesSubject | kry_pqc/threshold.py:148-164 | one artifact accepted for two attestations or policies: their digests, thresholds, algorithms and council sizes agree |
| QuorumExact.MessageFixesSubject | kry_pqc/threshold.py:46-48 | the bytes that members sign fix the attestation and the policy digest |
| QuorumCombine.MadePolicyIsGood | kry_pqc/threshold.py:55-65 | every policy built by make_policy over keys of the right length passes all policy and council checks |
| QuorumCombine.MadeExactly | kry_pqc/threshold.py:55-65 | a policy is made if and only if the threshold is between 1 and the number of keys and no two keys share a fingerprint |
| QuorumCombine.SameKey | kry_pqc/threshold.py:86-94 | two fingerprints are one member of the known set if and only if Python finds them equal, and exactly lists and objects cannot be looked up |
| QuorumCombine.CombineContributions | kry_pqc/threshold.py:85-104 | the set of known fingerprints and the filter give the specified artifact, or none where the source raises |
| QuorumCombine.KeptExactly | kry_pqc/threshold.py:94 | the filter raises nothing exactly when every contribution can be looked up, and keeps exactly the registered ones |
| QuorumCombine.CombineExact | kry_pqc/threshold.py:85-104 | over a properly listed council combine gives an artifact if and only if every contribution is an object whose fingerprint can be hashed |
| QuorumCombine.JunkStopsCombine | kry_pqc/threshold.py:94 | a contribution that is no object, or has a list or an object for a fingerprint, leaves no artifact, wherever it stands |
| QuorumCombine.HonestArtifactVerifies | kry_pqc/threshold.py:85-104 | for a made policy combine gives an artifact if and only if every contribution can be looked up, and that artifact verifies if and only if at least threshold members contributed valid signatures, in any order and among any other contributions |
| PrivacyScan.Scan.VisitValue | scripts/kry_artifact_privacy.py:134-198 | the recursive visitor appends to the shared list exactly what the specified traversal with early returns reports, and touches nothing else |
| PrivacyScan.PrivateKeyErrors | scripts/kry_artifact_privacy.py:123-201 | the result is that of the specified traversal from the root with an empty list |
| PrivacyVerdict.VisitMeets | scripts/kry_artifact_privacy.py:134-198 | at every node, from any list below the limit, stopping early keeps the reports of the full traversal up to the limit and adds at most one per enclosing object |
| PrivacyVerdict.EarlyExitKeepsVerdict | scripts/kry_artifact_privacy.py:123-201 | the early-exit result is empty exactly when the full traversal finds nothing, and its first limit entries are those of the full traversal in order, with at most one more per enclosing object |
| PrivacyCap.CapExactly | scripts/kry_artifact_privacy.py:134-198 | the limit is never exceeded, whatever it is set to, if and only if in no entered object a member with reports below it is followed by a member that is reported itself |
| PrivacyCap.Overshoots | scripts/kry_artifact_privacy.py:134-198 | where that condition fails, a limit is produced that the scan exceeds, from any list of reports so far |
| PrivacyCap.OvershootAttained | scripts/kry_artifact_privacy.py:134-198 | for every limit and every depth of nesting that the traversal enters, a document exceeds the limit by one report for each enclosing object, so the bound cannot be improved |
| PrivacyExact.AllExactly | scripts/kry_artifact_privacy.py:134-198 | the full traversal reports exactly the faults at the places that paths outside token counters lead to, down to 64 levels: a private text, or a member whose key or value breaks the rules; and too deep nesting if there is a place below |
| PrivacyExact.ScanExactly | scripts/kry_artifact_privacy.py:123-201 | whatever the scan with its limit reports is a fault of its place; it reports nothing only if there is none, and below its limit it reports all of them |
| UsageLink.CollectLinks | scripts/kry_usage_link.py:139-181 | the loop passes exactly links that are fine by themselves and pairwise compatible; otherwise its error is that of the first link that is refused on top of those before it |
| UsageLink.AssessLinks | scripts/kry_usage_link.py:121-194 | a report is given if and only if the links are fine, pairwise compatible and as many as the rows of either side; it holds the sorted rows, the linked and excluded counts, the summed amount and the seal over these; otherwise the error is for empty input, for the first refused link, or for incomplete coverage |
| UsageLinkProof.LinksAreBijection | scripts/kry_usage_link.py:139-183 | accepted links cover every usage row and every provider row, each exactly once |
| UsageLinkProof.PairingIsForced | scripts/kry_usage_link.py:139-183 | any pairing of usage rows with provider rows of the same identity is the one that the accepted links state |
| UsageLinkProof.NothingUncounted | scripts/kry_usage_link.py:187-188 | the attestation's receipts that carry a linked id are as many as the links, and the excluded count is the rest |
| UsageLinkProof.AmountIsTotal | scripts/kry_usage_link.py:184-189 | the report has one row for each link and its amount is the sum over the links |
| UsageLinkProof.SealCoversReport | scripts/kry_usage_link.py:193 | the report's hash covers its rows, both counts and the amount |
| UsageLinkExact.AcceptsExactly | scripts/kry_usage_link.py:132-183 | links are accepted if and only if they are as many as the rows of either side, each names rows with one identity and a prepared report row, repeats that row and names the only receipt with its id, which opens to it, and any two differ in rows, receipt and identity hash and do not mix namespaces in one account |
| UsageLinkExact.LinkExactly | scripts/kry_usage_link.py:143-175 | one link is fine by itself if and only if its rows and its receipt support it, and then its report row is made of these |
| UsageLinkExact.RefusalExactly | scripts/kry_usage_link.py:140-175 | a link is refused for the first reason that applies, in terms of the links before it and of the rows and receipts |
| UsageLinkExact.ReportIsSorted | scripts/kry_usage_link.py:184 | the rows of the report are those of the links, by receipt id in text order |
| UsageLinkProof.ReportIgnoresOrder | scripts/kry_usage_link.py:184-194 | permuting the links changes neither the verdict nor anything in the report |
| Savings.TallyOne | scripts/kry_savings_report.py:239-265 | one record changes its own bucket, one kind, the spend, the unpriced count and the lists for the second pass as its flags say |
| Savings.FirstPass | scripts/kry_savings_report.py:224-265 | the first pass leaves per-class counts, kinds and spend that are counts and sums over all records |
| Savings.EnterHits | scripts/kry_savings_report.py:271-284 | the second pass values every cache hit with the discount of its class measured over the whole log |
| Savings.TwoPasses | scripts/kry_savings_report.py:223-296 | the two passes compute the report given by independent sums over the records: total, tiers, buckets, kinds, spend, holdout cost, unpriced calls |
| Savings.ProviderCalls | scripts/kry_savings_report.py:190-207 | the calls handed to the prompt cache summary are those of the records not served from the cache, with contradictory tiers and batch origin marked |
| Savings.Analyze | scripts/kry_savings_report.py:210-338 | what is published are the figures of the two passes and those derived from them (dollars, efficiency, floor, rates and bounds per class), each rounded, and the summary over the provider calls |
| SavingsProof.ReportIgnoresOrder | scripts/kry_savings_report.py:210-338 | two logs with the same records in any order give the same report |
| SavingsProof.SavingsAddUp | scripts/kry_savings_report.py:268-296 | the buckets are those of the classes in the log, their savings sum to the total, so do the tiers', and the anchored tiers hold nothing |
| SavingsProof.KindsPartition | scripts/kry_savings_report.py:236-265 | every record is counted under exactly one kind |
| SavingsProof.StrictIsConservative | scripts/kry_savings_report.py:271-284 | strict mode never reports more than normal mode, in total and class by class |
| SavingsProof.PublishedRatios | scripts/kry_savings_report.py:295-317 | the veracity floor of an imported log is always 0, and with non-negative prices the efficiency lies between 0 and 1 |
| SavingsProof.PublishedIgnoresOrder | scripts/kry_savings_report.py:297-338 | two logs with the same records in any order publish the same figures, if the prompt cache summary ignores the order of calls |
| SavingsProof.OneCallEach | scripts/kry_savings_report.py:190-207 | provider calls and cache hits together are as many as the records |
| SavingsProof.TiersAreHonest | scripts/kry_savings_report.py:190-207 | a call is handed to the prompt cache summary at an ordinary tier only for a record outside the cache, outside any batch, none of whose stated tiers says otherwise |
| SavingsFigures.SpendByFlags | scripts/kry_savings_report.py:239-265 | spend is the price of the record's own model over held-out and ordinary calls plus that of the serving model over displacements, cache hits add nothing; holdout cost and unpriced calls likewise |
| SavingsFigures.AvoidedIsNotCharged | scripts/kry_savings_report.py:255-260 | replacing the avoided model of a displacement by any other than the serving one changes no spend |
| SavingsFigures.SavedByFlags | scripts/kry_savings_report.py:271-296 | the saving is the discounted value of plain cache hits plus the net value of displacements, in total and within each class, and a class counts its plain hits, its held-out calls and the paid ones among them |
| SavingsFigures.PublishedAmounts | scripts/kry_savings_report.py:296-322 | the published amounts are the rounded sums, in dollars the rounded sum times the rate, and the efficiency is the share of the saving in all that flowed |
| SavingsFigures.PublishedTiers | scripts/kry_savings_report.py:312-317 | all of the saving is published as self-reported, none as anchored, with a floor of 0 |
| SavingsFigures.PublishedLine | scripts/kry_savings_report.py:323-335 | a class publishes its counts, its rounded saving, the share of its held-out calls that was paid and the lower bound for it |
| SavingsFigures.MeasuredClasses | scripts/kry_savings_report.py:318-322 | as many classes are published as measured as have a held-out call |
| SavingsFigures.CallOfRecord | scripts/kry_savings_report.py:190-207 | the call of a record stands behind those of the records before it, names the serving model or else the record's own, and carries the batch tier, the one stated tier, or the conflict mark |
| SavingsMint.CountHoldouts | scripts/kry_savings_report.py:348-356 | the minting pass counts held-out and paid calls per class as the report does |
| SavingsMint.Mint | scripts/kry_savings_report.py:357-372 | the minting loop writes exactly the specified mints, in the order of the log |
| SavingsMint.MintedAtBasis | scripts/kry_savings_report.py:357-372 | a minted cache hit is worth what the report's formula with the same class factor gives |
| SavingsMint.MintExactly | scripts/kry_savings_report.py:357-372 | a hit mints its discounted tokens if they make at least one, a displacement all of its tokens, anything else nothing |
| SavingsMint.MintConservation | scripts/kry_savings_report.py:341-377 | in either mode of the report, minted value plus what is too small to mint is the reported saving plus what held-out records show on top of it and what a strict report leaves out |
| SavingsMint.MintMatchesReport | scripts/kry_savings_report.py:341-377 | in either mode, minted and reported value are equal if and only if what is too small to mint is worth what held-out records show and a strict report leaves out; without valued records of the last two kinds, if and only if no valued hit is too small; and the other way round |
| SavingsMint.HeldOutHitIsMinted | scripts/kry_savings_report.py:357-368 | one call marked as held out and as a cache hit is reported as no saving, in either mode, and minted in full |
| SavingsMint.UnmeasuredHitIsMinted | scripts/kry_savings_report.py:436-444 | one plain hit of a class that was never measured is reported as no saving by a strict report and minted in full, with no held-out record of value and nothing too small |
| SavingsMint.ScrapIsNotMinted | scripts/kry_savings_report.py:358-368 | for every holdout threshold, a discounted one-token hit beside that many ordinary held-out calls is reported as a positive saving, in either mode, and not minted |
| Wilson.IntervalContainsEstimate | lab/ollama_gsm8k_oracle.py:71-78 | the bounds satisfy 0 <= lo <= k/n <= hi <= 1 and neither clamp ever changes a bound |
| Wilson.IntervalIsScoreTest | lab/ollama_gsm8k_oracle.py:71-78 | for every rate x, the interval holds x if and only if (k/n - x)^2 is at most 1.96^2 x (1 - x) / n: it is the interval of the score test |
| Wilson.IntervalReflects | lab/ollama_gsm8k_oracle.py:71-78 | swapping successes and failures reflects the interval to (1 - hi, 1 - lo) |
| Wilson.NoTrials | lab/ollama_gsm8k_oracle.py:72-73 | without trials the interval excludes no rate |

## Left out

- The package under `src/kry` (mint, chain attestation, settlement, token prices, prompt cache summary): not part of this
  model; where a modelled function calls it, it is a parameter.
- X.509 chains, the ES384 and ML-DSA signature checks, freshness windows and policy checks of enclave reports: fixed
  checks around the codec.
- JSON parsing itself: depth and digit limits and the reader are related to canonical text, not to every way of writing
  a value.
- CborDecode.Decode: `struct.unpack` of floats is kept as bytes with an exact value; no float arithmetic on decoded
  documents is modelled.
- ActionChain.VerifyActionAttestation: the warnings (timestamps that go backwards, coerced tiers, a missing floor) are
  not part of the verdict; the error texts are error kinds; the floor's quotient is rounded exactly, not as a double.
- ActionRemint.RemintPassesIntegrity: the tip, count and floor of the forged attestation are the forger's to fill in and
  are not part of the statement.
- LeaseProof.SequentialEquivalence: an unlink that fails looks like a crash in front of it, an exception before the lock
  is created like a crash in front of the lock; neither is a step of its own.
- LeaseLimits.CeilingHolds: asks that no request for the key has a negative amount, which would give a lease back.
- LeaseLimits.ExactlyAsManyAsFit: integer amounts, ceiling and earlier lease, as in the experiment.
- Lease liveness, stale locks left by a crash, the Windows retry path and the 30 second clock: a time-out may happen
  whenever the lock is taken.
- `float` rounding in lease amounts, Wilson bounds, savings and the floor: exact arithmetic instead.
- `request_id_digest`, `normalize_provider_record` and `load_t1_receipts`: a receipt or row comes with its digest (or
  none), its token pair and its legacy count, or with the fact that it cannot be normalised.
- `aggregate_reconcile`: one comparison of two sums.
- `prepare_link` beyond the identity test, and the semantic and opening checks of a receipt: parameters of the profile.
- UsageLink.AssessLinks: the report's fixed texts; its hash is a function of the other contents. The attestation has
  already been verified.
- PrivacyScan.Scan.VisitValue: the normal form of a key, its word and fragment tests and the regular expression on
  values are parameters; error texts are kinds with paths.
- Savings.Analyze: `normalize` is not modelled; rounding and the summary of the prompt cache are parameters.
- SavingsMint.Mint: what `mint` does with its arguments is in the package; mints are compared by the report's rates.
- Quorum.VerifyThreshold: the report's list of named checks is one verdict per group of checks.
- QuorumCombine.HonestArtifactVerifies: contributions are given as entries; signing itself is not modelled.
- QuorumCombine.Combine: a council file whose `signers` is an empty string or object counts as one that raises; JSON's
  NaN and infinities as fingerprints are not modelled.
- Command lines, files, standard input, git and pip gates, release and finops reports.
