# CKB session controller: a Dafny model

This project models two on-chain verifiers of the controller and the off-chain
builders that must agree with them, and proves how they fit together.

- **Session lock.** An account cell is guarded by a lock that accepts either the
  owner or a *session key*. A session key is bounded by an expiry checked against a
  header the transaction names, an allowlist of scripts (a Merkle root), a spend cap
  per transaction, and the rule that account outputs keep their args and data.
  `SessionLock` has the lock's checks and loops; `PolicyMerkle`, `MerkleSoundness`
  and `PolicyCoverage` the tree, its proofs and the walk over framed proofs;
  `SessionWitness` the SDK's byte layouts; `SessionLedger` runs of the whole ledger
  (`CellLedger`) under session keys, `Revocation` what an owner's epoch bump does to
  carried authorizations, `SessionExpiry` what the expiry bounds and `SpendBudget`
  what a budget does.
- **Shared game.** A board advances by batches of signed moves under one rule
  (`GameRules`). The game cell's type script re-derives the rule (`GameCell`,
  `GameCodec`), an operator sequences moves and builds transitions (`Operator`,
  `Sighash`), and `GameOrder`, `GameHistory` and `GameScope` say what follows for
  orderings, batches, whole runs from genesis and all games on one ledger.
- **Supporting parts.** Payment channel sessions (`PaymentChannel`), sponsor tokens
  (`SponsorToken`) and fee sponsorship (`Sponsorship`), sized by the transaction as
  written (`Molecule`).

`Prelude` holds arithmetic, sequence and little-endian helpers; `Chain` holds the
chain's records. Code that updates state in place is a class or a loop proved
against a specification function; the theorems are lemmas about those functions.

The cryptography is a record of arbitrary functions. `blake2b` is not assumed
injective: policy soundness says *the script is listed, or these strings, all of
them actually hashed, collide or hash to the padding node*. Signature checks are
an arbitrary predicate. Machine widths are explicit, and each truncating cast shows
up as the exact bound in a theorem.

## Findings

- `submit` promises that a doomed intent never enters the mempool and jams later
  flushes (paymaster-service/src/operator.rs:113-118). It checks the sequence number
  for the queue without the newcomer, so at the last sequence number it admits a
  move no flush can apply. `Operator.AdmissionCanJam` is the input,
  `Operator.AdmittedFlushableExact` and `Operator.RunningJamExact` the exact
  condition, and `Operator.JamLastsUntilDrop` the consequence.
- Bumping the epoch is said to invalidate every outstanding carried authorization of
  an older epoch at once (docs/internals/invariants.md:172-180). It does so exactly
  when no live account cell carries the old epoch (`Revocation.UsableExact`). While
  two cells carry it one bump is not enough (`Revocation.OneBumpLeavesSecondCell`),
  and whoever creates an account cell with empty data, as a channel settlement does,
  makes epoch-0 authorizations usable again (`Revocation.SettleRevives`); sessions
  themselves cannot (`Revocation.RunRevivesOnlyByCreation`).
- A game id is said to make each game a distinct singleton
  (contracts/controller-game-cell/src/main.rs:22). The id is a singleton if and only
  if at most one genesis of it was committed (`GameScope.SingletonExact`), for a
  second one is accepted beside a live game (`GameScope.SecondGenesis`). With one
  genesis no move is ever accepted twice (`GameScope.OneGenesisNothingTwice`); with
  two, one signed batch counts on both cells (`GameScope.TwoGenesesReplay`).
- An expired session key is said to unlock nothing (docs/guide/trust.md:18,
  docs/guide/sessions.md:26-27). The lock reads the timestamp of a header the
  transaction names, and any committed header may be named, so an expiring session
  unlocks exactly when some committed header is from before its expiry, and then for
  good (`SessionExpiry.UnlockableExact`, `SessionExpiry.UnlocksForGood`).
- The channel budget is said to be the session's entire economic exposure
  (sdk/src/channel.rs:21-23). The cap is per transaction: after k fundings the same
  session key has taken out k budgets, for every k the account can pay
  (`SpendBudget.BudgetTakenTimes`), and never more (`SessionLedger.RunLosesAtMostCaps`).
- The operator tracks its tip only from its own flushes. Its tip is live if and only
  if nobody else has spent it (`Operator.OperatorTracksChain`), and once somebody has,
  every flush is refused (`Operator.OrphanedForGood`).
- `equals_unordered` checks one direction only. It means "permutation" exactly when
  the derived board has no repeated entry (`GameOrder.ComparisonExactIff`), which
  holds at every point of every run from genesis
  (`GameHistory.RunComparisonExact`).
- The policy walk skips outputs by lock code alone, so it is the continuity walk
  that stops a session from paying into another account's args
  (`PolicyCoverage.PolicyWalkSkipsByCode`, `PolicyCoverage.SessionOutputsCovered`).
- A scoped session that passed its policy before sponsorship fails it after, for the
  relayer's change is one more output to prove
  (`Sponsorship.SponsorshipBreaksPolicy`); it passes exactly with one more frame,
  which needs the relayer's lock on the allowlist (`Sponsorship.ExtraFrameExact`,
  `Sponsorship.SponsoredNeedsRelayerListed`).
- Exact bounds of the truncating writers: batches up to 65535 intents, states up to
  2^32 - 1 players, token strings up to 65535 bytes. A guardian signature must be
  supplied exactly when a guardian is configured, or the lock reads another proof
  region. Channel capacity is conserved exactly when the budget is within the
  account's capacity, because the change saturates at zero.

## Model

| member | source | states |
|---|---|---|
| `PolicyMerkle.HashPair` | contracts/controller-session-lock/src/main.rs:557-567 | The 64-byte buffer filled in place hashes the node that is smaller at the first differing byte before the other, whichever way round the two are given |
| `PolicyMerkle.PairInputOrdered` | sdk/src/lib.rs:133-143 | Of two nodes the one with the smaller byte at the first difference comes first in the bytes hashed, given in either order |
| `PolicyMerkle.PairInputInjective` | sdk/src/lib.rs:133-143 | Sorted-pair inputs determine the unordered pair of nodes |
| `PolicyMerkle.FoldLevel` | sdk/src/lib.rs:145-150 | The loop computes the folded level of the specification, odd levels padded with the zero node |
| `PolicyMerkle.MerkleRoot` | sdk/src/lib.rs:154-163 | The folding loop computes the root, for no leaf, one leaf or any number |
| `PolicyMerkle.MerkleProof` | sdk/src/lib.rs:166-178 | The loop computes the sibling path of `ProofVerifies` and `ProofLength`, for every index it does not stumble over: any in a list of at most one leaf, else one within the padded level |
| `PolicyMerkle.MerkleVerify` | sdk/src/lib.rs:181-187 | Accepts exactly when climbing from the leaf through the siblings ends at the root |
| `PolicyMerkle.ProofVerifies` | sdk/src/lib.rs:154-187 | Completeness: for every hash function, leaf count and index, the built proof leads from its leaf to the root |
| `PolicyMerkle.PaddingProofVerifies` | sdk/src/lib.rs:166-178 | At the index after an odd number of leaves the builder proves the zero padding node a member |
| `PolicyMerkle.ProofLength` | sdk/src/lib.rs:166-178 | The proof length is the binary logarithm of the leaf count, rounded up |
| `PolicyMerkle.ProofFitsFrame` | sdk/src/lib.rs:195-199 | A proof over any machine-countable leaf list has at most 64 siblings, so its one length byte never truncates |
| `MerkleSoundness.ClimbMeetsLevel` | contracts/controller-session-lock/src/main.rs:544-567 | A climb ending at a level's root passes through a node of that level or a zero node, unless the hash broke on the strings hashed |
| `MerkleSoundness.MembershipSound` | contracts/controller-session-lock/src/main.rs:544-554 | Soundness: an accepted proof of any length against the SDK's root means the script hash is listed, or two named hashed strings collide or one hashes to the padding node |
| `MerkleSoundness.AcceptedIsListed` | contracts/controller-session-lock/src/main.rs:544-554 | Where no two of the strings hashed collide and none hashes to the padding node, what is accepted is listed |
| `SessionLock.FillSessionAuthMessage` | contracts/controller-session-lock/src/main.rs:228-240 | The buffer filled field by field hashes domain, script hash, epoch and params in order, as the SDK's message does |
| `SessionLock.AuthMessageBinds` | contracts/controller-session-lock/src/main.rs:222-240 | One blessing message for two of (lock, epoch, params) is a collision of the two named strings hashed, so no cross-account or cross-epoch reuse without one |
| `Chain.TxMessageBinds` | docs/internals/invariants.md:56-62 | The signing message does not change with the cell deps, and one message for two transactions means equal header deps, inputs and outputs or a collision of the two named raw transactions |
| `SessionLock.MerkleVerifyFlat` | contracts/controller-session-lock/src/main.rs:544-554 | The chunk loop accepts exactly whole 32-byte chunks whose climb ends at the root |
| `SessionLock.CheckOutputPolicies` | contracts/controller-session-lock/src/main.rs:411-462 | The two-cursor loop reaches the verdict, error included, that `PolicyWalkExact` characterises |
| `SessionLock.EnforceAccountOutputs` | contracts/controller-session-lock/src/main.rs:471-506 | Succeeds exactly when every output under the account's code keeps its args and data, and returns their capacity, clamped to 128 bits |
| `SessionLock.CheckSpendCap` | contracts/controller-session-lock/src/main.rs:514-529 | Rejects exactly when the cap is finite and the group's capacity less what is returned exceeds it |
| `SessionLock.VerifySession` | contracts/controller-session-lock/src/main.rs:255-356 | The whole session check, in the source's order, with the first failing check's error |
| `PolicyCoverage.BuildProofRegion` | sdk/src/lib.rs:195-205 | The nested loops write one frame per entry in order, the length truncated to a byte |
| `PolicyCoverage.PolicyWalkExact` | contracts/controller-session-lock/src/main.rs:411-462 | The walk accepts exactly when every foreign output has its own frame in the region and that frame proves its type or lock under the root |
| `PolicyCoverage.FrameRefusals` | contracts/controller-session-lock/src/main.rs:434-458 | What one frame does: missing, malformed, not allowed, or consumed with the rest of the region left, for every region |
| `PolicyCoverage.WalkRefusal` | contracts/controller-session-lock/src/main.rs:411-462 | A refused walk was refused at the first output whose frame is refused, foreign and past an accepted prefix, with that frame's error |
| `PolicyCoverage.FramesReadBack` | sdk/src/lib.rs:191-205 | The frames written are the frames the lock reads, wherever account outputs are interleaved and whatever follows |
| `PolicyCoverage.SdkRegionAccepted` | contracts/controller-session-lock/src/main.rs:411-462 | Completeness: a region of built proofs, one per foreign output whose type or lock is listed, is accepted |
| `PolicyCoverage.FlatProofVerifies` | contracts/controller-session-lock/src/main.rs:544-554 | A built proof, flattened, passes the lock's chunked check |
| `PolicyCoverage.PolicyWalkSkipsByCode` | contracts/controller-session-lock/src/main.rs:426-432 | An output with the account's code but other args passes the policy walk with any region and only the continuity walk rejects it |
| `PolicyCoverage.SessionOutputsCovered` | contracts/controller-session-lock/src/main.rs:488-502 | Every output of an accepted scoped-session transaction is an exact continuation of the account or is proved by a frame of its witness |
| `PolicyCoverage.SessionOutputsAllowed` | contracts/controller-session-lock/src/main.rs:398-410 | The same against the SDK's root: continuation, or type or lock on the allowlist, or the hash broke on the strings hashed for that output |
| `SessionWitness.ParamsReadBack` | sdk/src/lib.rs:45-60 | The lock's parser inverts the SDK's parameter block |
| `SessionWitness.ParamsBlockUnique` | contracts/controller-session-lock/src/main.rs:212-220 | The SDK's block inverts the lock's parser: no two blocks parse alike |
| `SessionWitness.EpochReadBack` | sdk/src/lib.rs:75-81 | The lock reads back the epoch the SDK wrote, empty data for zero included |
| `SessionWitness.LimitsExact` | contracts/controller-session-lock/src/main.rs:327-356 | Expiry, policy, continuity and cap, cursors and saturating sums included, enforce exactly the guard rails stated over true sums and milliseconds |
| `SessionWitness.SignaturesReadBack` | contracts/controller-session-lock/src/main.rs:293-327 | The signature region is cut where it was glued: the signatures given are the ones checked and the region given is what is left |
| `SessionWitness.GuardianMismatchShiftsRegion` | contracts/controller-session-lock/src/main.rs:312-327 | The lock sees the intended proof region exactly when a guardian signature is present exactly when a guardian is configured |
| `SessionWitness.RegisteredWitnessMeans` | sdk/src/lib.rs:223-235 | Registered model: the lock accepts an SDK witness exactly when its parts authorize the transaction, and resolves the same params and region |
| `SessionWitness.CarriedWitnessMeans` | sdk/src/lib.rs:239-255 | Carried model: the same, and the owner's blessing of these params holds for this lock at the spent cell's epoch |
| `SessionWitness.OwnerWitnessMeans` | sdk/src/lib.rs:215-219 | Owner mode is accepted exactly on the owner's signature over the transaction, in both trust models |
| `SessionWitness.LockAcceptsExact` | contracts/controller-session-lock/src/main.rs:156-200 | Over raw witness bytes: the lock accepts exactly a session, or mode byte 0 followed by at least 65 bytes of which the first 65 are the owner's signature over the transaction, with one input and args of a known length; never both, nothing else |
| `SessionWitness.EntryRefusals` | contracts/controller-session-lock/src/main.rs:156-200 | Which error the lock gives before a session is looked at: two inputs, args length, missing or unparsable witness, no lock bytes, unknown mode, short or wrong owner signature, in that order |
| `SessionWitness.SessionRefusals` | contracts/controller-session-lock/src/main.rs:267-327 | Which error a session gets for a cut or unblessed carried block, the empty session key, and a cut or wrong session or guardian signature |
| `SessionWitness.LimitRefusals` | contracts/controller-session-lock/src/main.rs:329-356 | Which of no header, expired, policy, administered output and spend cap a session is refused for: the first that applies, stated over true sums and milliseconds |
| `SessionWitness.AcceptedRegisteredForm` | contracts/controller-session-lock/src/main.rs:267-327 | Converse, registered model: every accepted session witness is an SDK witness whose parts authorize the transaction |
| `SessionWitness.AcceptedCarriedForm` | contracts/controller-session-lock/src/main.rs:270-291 | Converse, carried model: likewise, with a valid owner authorization at the spent cell's epoch |
| `SessionWitness.SdkSessionAccepted` | contracts/controller-session-lock/src/main.rs:255-356 | End to end: SDK root, proofs, frames, args and witness with live signatures, unexpired, continuing the account and within the cap, are accepted |
| `SessionExpiry.UnlocksOnExact` | contracts/controller-session-lock/src/main.rs:329-339 | On header deps of the builder's choice, in both trust models, the lock accepts exactly when the first one's timestamp is before the expiry and the other rails hold |
| `SessionExpiry.UnlockableExact` | contracts/controller-session-lock/src/main.rs:531-535 | A session transaction within its other limits can be made to unlock if and only if the session never expires or some committed header is from before its expiry |
| `SessionExpiry.UnlocksForGood` | contracts/controller-session-lock/src/main.rs:531-535 | What unlocks on the headers there are unlocks on any longer chain of headers |
| `SessionLedger.StepLosesAtMostCap` | contracts/controller-session-lock/src/main.rs:508-529 | A session step over the live cells takes at most its cap out of the account's total |
| `SessionLedger.StepKeepsData` | contracts/controller-session-lock/src/main.rs:464-506 | A session step leaves the data of every live account cell as it was |
| `SessionLedger.RunLosesAtMostCaps` | contracts/controller-session-lock/src/main.rs:508-529 | After k session steps with caps of at most `cap` the account holds at least its start minus k times `cap` |
| `SessionLedger.RegisteredRunLosesAtMostCap` | contracts/controller-session-lock/src/main.rs:267-269 | In the registered model the bound is the cap in the args, which no witness can replace |
| `SessionLedger.RunKeepsData` | contracts/controller-session-lock/src/main.rs:469-470 | In every ledger of a session-only run all account cells still carry the starting data |
| `SessionLedger.RunKeepsAuthorizations` | contracts/controller-session-lock/src/main.rs:245-252 | So in a session-only run the epoch and the verdict on any carried authorization never change; owner transactions and deposits are the subject of `Revocation` |
| `SessionLedger.TotalsDoNotSaturate` | contracts/controller-session-lock/src/main.rs:478-505 | The saturating total is the true total for any machine-countable number of outputs |
| `SpendBudget.FundingStep` | contracts/controller-session-lock/src/main.rs:508-529 | A channel funding is an accepted session step that takes exactly the budget and leaves the account ready for another |
| `SpendBudget.BudgetTakenTimes` | sdk/src/channel.rs:162-184 | For every k with k budgets in the account, an accepted run of k fundings by the session key leaves the account exactly k budgets short, so the bound of `RunLosesAtMostCaps` is attained |
| `Revocation.VerifiesAtExact` | contracts/controller-session-lock/src/main.rs:228-252 | A blessing passes the check at an epoch exactly when it was made for it, unless the strings of the two epochs collide |
| `Revocation.BlessingAcceptedExact` | contracts/controller-session-lock/src/main.rs:270-290 | The lock accepts a carried witness exactly when the spent cell is at the blessing's epoch and the session authorizes the transaction, unless two named strings collide |
| `Revocation.BlessingMeans` | contracts/controller-session-lock/src/main.rs:270-290 | Where the messages of the two epochs differ, the lock accepts a carried witness exactly when the spent cell is at the blessing's epoch and the session authorizes the transaction |
| `Revocation.UsableExact` | contracts/controller-session-lock/src/main.rs:87-91 | A blessing is usable exactly while some live account cell carries its epoch, unless the epochs of live cells collide |
| `Revocation.UsableMeans` | contracts/controller-session-lock/src/main.rs:87-91 | And where the messages of the live epochs differ, a blessing is usable exactly while a live account cell is at its epoch |
| `Revocation.EpochAfterExact` | contracts/controller-session-lock/src/main.rs:242-252 | After any committed transaction an epoch is live exactly when a cell at it was left unspent or one was created |
| `Revocation.RunRevivesOnlyByCreation` | contracts/controller-session-lock/src/main.rs:464-471 | Along any run of owner, session and foreign transactions an epoch no cell carries returns only when an owner transaction or a deposit creates an account cell at it |
| `Revocation.RevivalHasCreator` | contracts/controller-session-lock/src/main.rs:464-471 | So whenever an epoch has come back, an owner transaction or a deposit before created an account cell at it |
| `Revocation.RevokedStaysRevoked` | contracts/controller-session-lock/src/main.rs:278-283 | Until then the lock refuses the revoked blessing on every live account cell, unless two named strings collide |
| `Revocation.OneBumpLeavesSecondCell` | contracts/controller-session-lock/src/main.rs:156-160 | While two live cells carry an epoch no single transaction retires it |
| `Revocation.SettleRevives` | sdk/src/channel.rs:257-271 | The reviving input: with the account at epoch 1, a channel settlement creates an account cell with empty data and an epoch-0 blessing is usable again |
| `GameRules.GameState.ApplyIntent` | game-rules/src/lib.rs:83-107 | One move on the state in place; on an error the state is untouched and the error is the rule's |
| `GameRules.GameState.ApplyBatch` | game-rules/src/lib.rs:158-167 | A batch reaches the specification's board; on an error the moves before the failing one stay applied and the sequence does not move |
| `GameOrder.MoveRefusals` | game-rules/src/lib.rs:83-107 | A move is refused for its points, an exhausted nonce, a stale nonce or an overflowing score, the first of these, and for nothing else |
| `GameOrder.BatchRefusals` | game-rules/src/lib.rs:158-167 | A batch is refused for its first move refused after the moves before it, or, with all of them applied, for the sequence |
| `GameOrder.PlayerReplayExact` | game-rules/src/lib.rs:83-107 | A player's moves apply exactly when nonces continue without gaps, each is within the cap and the total fits; then nonce and score advance by their number and points |
| `GameOrder.BatchAcceptedExact` | game-rules/src/lib.rs:158-167 | A batch is accepted exactly when every player's own moves are playable and the sequence fits |
| `GameOrder.EntryAfterBatch` | game-rules/src/lib.rs:158-167 | After an accepted batch each player's entry has advanced by exactly their own moves, others keep theirs |
| `GameOrder.OrderCannotChangeBoard` | game-rules/src/lib.rs:156-182 | Two accepted orderings of the same moves leave the same entries and compare equal |
| `GameOrder.InterleavingCannotReject` | game-rules/src/lib.rs:158-167 | Lists in which every player has the same subsequence hold the same moves and are accepted alike |
| `GameOrder.ReplayKeepsDistinct` | game-rules/src/lib.rs:87-104 | Moves never give a player a second entry |
| `GameOrder.ComparisonExactWhenDistinct` | game-rules/src/lib.rs:169-182 | With distinct players on the derived board the one-directional comparison is permutation |
| `GameOrder.ComparisonExactIff` | game-rules/src/lib.rs:172-182 | The comparison is exact against every board if and only if the derived board has no repeated entry |
| `GameOrder.BatchingTransparent` | game-rules/src/lib.rs:158-167 | Two batches in a row succeed exactly when their concatenation does, with the same board and sequence |
| `GameCodec.WriteState` | game-rules/src/lib.rs:118-128 | The writing loop produces the state encoding |
| `GameCodec.ParseState` | game-rules/src/lib.rs:131-154 | The reading loop decides and decodes exactly as specified, errors included |
| `GameCodec.StateLayout` | game-rules/src/lib.rs:117-128 | Entry i sits at offset 12 + 36 i: hash, score, nonce |
| `GameCodec.StateRoundTripExact` | game-rules/src/lib.rs:118-154 | Decoding inverts encoding exactly up to 2^32 - 1 players; beyond, the data is malformed |
| `GameCodec.StateCanonical` | game-rules/src/lib.rs:131-154 | Every accepted non-empty data is the encoding of what it decodes to |
| `GameCodec.EmptyStateExact` | game-rules/src/lib.rs:131-154 | The empty board has exactly two spellings, no data and the twelve-byte header |
| `GameCodec.IntentReadBack` | game-rules/src/lib.rs:196-215 | Intents read back as written |
| `GameCodec.IntentMessageBinds` | game-rules/src/lib.rs:218-229 | One message for two of (game, player, points, nonce) is a collision of the two named strings hashed, so no cross-game reuse without one |
| `GameCodec.WriteBatch` | game-rules/src/lib.rs:232-239 | The writing loop produces the batch encoding, the count truncated to two bytes |
| `GameCodec.ParseBatch` | game-rules/src/lib.rs:242-256 | The reading loop decides and decodes exactly as specified |
| `GameCodec.BatchRoundTripExact` | game-rules/src/lib.rs:232-256 | Decoding inverts encoding exactly up to 65535 intents; longer batches are malformed |
| `GameCodec.BatchCanonical` | game-rules/src/lib.rs:242-256 | Every accepted batch is the encoding of what it decodes to |
| `GameCell.FindGroupInput` | contracts/controller-game-cell/src/main.rs:218-229 | The scan returns the first input carrying the script, or none |
| `GameCell.VerifyTransition` | contracts/controller-game-cell/src/main.rs:162-193 | Decoding, signatures, rule and comparison in the source's order, with the first failing step's error, as `CellRefusals` spells out |
| `GameCell.Verify` | contracts/controller-game-cell/src/main.rs:130-157 | Genesis must decode to the empty board; a one-to-one transaction is a transition; any other shape is refused |
| `GameHistory.StepAcceptedExact` | contracts/controller-game-cell/src/main.rs:162-193 | On a sound board the script accepts exactly the batches that apply, whose output is a permutation of the derived board and whose every move carries a signature verifying, for the mover's hash, over domain, game id, hash, points and nonce |
| `GameHistory.BatchAtOwnInput` | contracts/controller-game-cell/src/main.rs:162-184 | With the game cell at any input the batch is the one in the witness of that input, and acceptance is exactly as above on it |
| `GameHistory.CellRefusals` | contracts/controller-game-cell/src/main.rs:130-193 | Which error the type script gives, genesis and transition, for every transaction shape, state, witness, batch, signature, rule and comparison failure, the first that applies |
| `GameHistory.RunIsPlay` | contracts/controller-game-cell/src/main.rs:130-193 | Every accepted run from genesis is a legal play of moves all signed for this game |
| `GameHistory.PlaySound` | game-rules/src/lib.rs:83-182 | Every board reached in play has distinct players, a sequence equal to the sum of nonces and scores of at most 1000 per nonce |
| `GameHistory.RunBoardSound` | contracts/controller-game-cell/src/main.rs:150-193 | The same invariant for the cell at every point of every accepted run |
| `GameHistory.RunComparisonExact` | game-rules/src/lib.rs:169-182 | At every point of a run, passing the comparison means being a permutation of the derived board |
| `GameHistory.SoundBatchNeverOverflows` | game-rules/src/lib.rs:83-167 | From a sound board no batch of n moves overflows while 1000 (sequence + n) fits 64 bits |
| `GameHistory.RunNeverOverflows` | game-rules/src/lib.rs:158-167 | The same from every board an accepted run reaches |
| `GameHistory.SameBoardTransition` | game-rules/src/lib.rs:156-182 | A batch cannot tell two permutations of a board apart, in verdict or result |
| `GameHistory.PlayIsReplay` | game-rules/src/lib.rs:158-182 | The board reached is, up to order, the rule applied to the empty board and every move played |
| `GameHistory.RunIsReplay` | contracts/controller-game-cell/src/main.rs:159-193 | Exact history on chain: the same for every accepted run, every move of it with a signature verifying over domain, game id, hash, points and nonce |
| `GameHistory.RunHasNoReplay` | game-rules/src/lib.rs:79-107 | The intents ever accepted for a player carry nonces 1, 2, 3, … in order; the entry holds their number and points; the sequence counts all accepted intents |
| `GameHistory.RunAcceptsNothingTwice` | game-rules/src/lib.rs:218-220 | Two intents of one player accepted in a run have strictly increasing nonces, so none is accepted twice |
| `GameHistory.StepTouchesOnlyMovers` | contracts/controller-game-cell/src/main.rs:185-192 | An accepted step leaves the entry of every player it carries no intent for |
| `GameScope.GenesisAcceptedExact` | contracts/controller-game-cell/src/main.rs:130-157 | With no input of the type, acceptance is exactly one output of the type with empty state; nothing else on the ledger matters |
| `GameScope.AtMostOneExact` | contracts/controller-game-cell/src/main.rs:22 | A game id is a singleton on a ledger exactly when its live cells, counted, are at most one |
| `GameScope.StepCount` | contracts/controller-game-cell/src/main.rs:130-146 | A committed transaction adds a live cell of the game exactly when it is an accepted genesis, and never takes one away |
| `GameScope.GamesAfter` | contracts/controller-game-cell/src/main.rs:130-193 | The live cells of a game after a step are those it left alone and the one it created, if the script had its say |
| `GameScope.GameContinues` | docs/internals/invariants.md:140-154 | No game cell is destroyed or split: a live one stays as it is or is replaced by exactly one, by a step of the rule |
| `GameScope.RunCount` | contracts/controller-game-cell/src/main.rs:130-146 | Along any run of the ledger the live cells are those there were and one for every genesis since |
| `GameScope.SingletonExact` | contracts/controller-game-cell/src/main.rs:22 | From a ledger without the game, the id is a singleton throughout a run if and only if at most one genesis of it was committed |
| `GameScope.LiveCellHasRun` | contracts/controller-game-cell/src/main.rs:130-193 | Every live game cell is the last cell of an accepted run, from its own genesis, of transactions the ledger committed |
| `GameScope.LiveGamesSound` | contracts/controller-game-cell/src/main.rs:150-193 | So every live game cell decodes to a sound board, however many games share the id |
| `GameScope.OneGenesisIsOneRun` | contracts/controller-game-cell/src/main.rs:130-193 | With at most one genesis, the transactions the script judged form one run, its last cell is the only live one, and its moves are all the moves committed |
| `GameScope.OneGenesisNothingTwice` | game-rules/src/lib.rs:79-82 | And then no move committed under the game id is accepted twice: a player's nonces strictly increase across the ledger |
| `GameScope.SecondGenesis` | contracts/controller-game-cell/src/main.rs:138-146 | A genesis is accepted beside a live cell of the same game id, and both are live afterwards |
| `GameScope.TwoGenesesReplay` | contracts/controller-game-cell/src/main.rs:162-193 | The failing input: two geneses on one ledger, then one signed batch on the cell of each; all four commit, every move is accepted twice and both cells are live |
| `Sighash.Sign` | paymaster-service/src/sighash.rs:20-53 | The hasher fed piece by piece signs the message `SighashBinds` characterises, and witness 0 is replaced by itself with the lock filled |
| `Sighash.PlaceholderExact` | paymaster-service/src/sighash.rs:55-63 | The lock is hashed as 65 zero bytes and the other two fields as they are |
| `Sighash.SighashBinds` | paymaster-service/src/sighash.rs:28-44 | The bytes signed begin with the transaction hash, and one message for two transactions means equal transaction hashes, equal witness 0 but for its lock and equal witnesses beyond the inputs, or a collision of the two named strings |
| `Sighash.SigningFillsOnlyTheLock` | paymaster-service/src/sighash.rs:46-52 | Signing keeps the raw transaction, every other witness and the batch in witness 0 |
| `Sighash.SigningIsStable` | paymaster-service/src/sighash.rs:55-68 | The message recomputed from the signed transaction is the one signed, so signing again changes nothing |
| `Operator.GameOperator.constructor` | paymaster-service/src/operator.rs:91-99 | A new operator has the given tip and an empty mempool |
| `Operator.GameOperator.Submit` | paymaster-service/src/operator.rs:119-125 | Queues the intent exactly on admission, and changes nothing otherwise |
| `Operator.GameOperator.Build` | paymaster-service/src/operator.rs:129-179 | Builds the specified transition without touching tip or mempool |
| `Operator.GameOperator.Flush` | paymaster-service/src/operator.rs:185-205 | Moves the tip to output 0 of the broadcast transaction and empties the mempool only when every step succeeds |
| `Operator.GameOperator.DropPending` | paymaster-service/src/operator.rs:211-213 | Empties the mempool and keeps the tip |
| `Operator.GameOperator.FlushOrShed` | paymaster-service/src/bin/game-operator.rs:377-387 | As a flush, except that the queue is shed on a node rejection and only then, as `FlushOutcomes` spells out |
| `Operator.FlushOutcomes` | paymaster-service/src/bin/game-operator.rs:374-387 | With a transition built: a failed finalize keeps queue and tip in both flushes, a node rejection keeps them in the plain flush and empties the mempool alone in the shedding one, and a broadcast advances the tip in both |
| `Operator.FlushReports` | paymaster-service/src/operator.rs:185-205 | What a flush reports: the build's error, the finalizer's, the node's, or the hash of what the finalizer returned |
| `Operator.OperatorRefusals` | paymaster-service/src/operator.rs:119-150 | Why a build or a submission is refused: empty queue, the rule's own error for queue or newcomer, or a cell too small for the fee, and nothing else |
| `Operator.RejectionInRuns` | paymaster-service/src/bin/game-operator.rs:374-387 | In runs a rejected flush leaves ledger and accounts alone and empties the mempool exactly when shedding |
| `Operator.TransitionAcceptedExact` | paymaster-service/src/operator.rs:129-179 | A built and sighash-signed transition passes the type script exactly when intents fit two bytes, players four, and every queued intent's signature verifies over domain, game id, hash, points and nonce; it carries the configured cell deps and no header dep |
| `Operator.FlushReplacesTip` | paymaster-service/src/operator.rs:181-205 | A flush an honest node takes removes the old tip from the ledger and puts the new one on it, live, holding the board the queue led to and the same output less the fee |
| `Operator.AdmissionExact` | paymaster-service/src/operator.rs:119-125 | An intent is admitted exactly when the queue and then it apply and the sequence has room for the queue alone |
| `Operator.AdmittedFlushableExact` | paymaster-service/src/operator.rs:113-125 | An admitted intent can be flushed exactly when the sequence also has room for it |
| `Operator.RunningJamExact` | paymaster-service/src/operator.rs:119-150 | In a run the queue is jammed exactly when it holds one move more than the sequence number has room for |
| `Operator.AdmissionCanJam` | paymaster-service/src/operator.rs:113-125 | On a board that keeps every invariant of a reachable one, at the last sequence number, another player's first move is admitted that no flush can apply |
| `Operator.JamLastsUntilDrop` | paymaster-service/src/operator.rs:119-213 | Over any run without a drop a jammed operator keeps its queue and tip, refusing every move and every flush, shedding included |
| `Operator.EventKeepsInStep` | paymaster-service/src/operator.rs:119-213 | Each event keeps the fee account exact and the mempool applicable, and the tip live exactly when it was and nobody else spends it |
| `Operator.OperatorTracksChain` | docs/internals/invariants.md:126-139 | After any interleaving of submissions, flushes, failed finalizations, rejections kept or shed, drops and other people's transactions, fees and mempool are as accounted, and the tip is live on the ledger, output and state, if and only if nobody else has spent it |
| `Operator.OrphanedForGood` | docs/internals/invariants.md:126-139 | Once someone else has spent the tip it stays the remembered one, off the ledger, and every flush is refused for the rest of the run |
| `Operator.HonestFlushHappens` | paymaster-service/src/operator.rs:181-205 | With the tip live, a buildable queue of signed intents, counts that fit and a new hash, an honest node takes the sighash-signed transition and the flush advances the tip |
| `Operator.RunningMempoolBuilds` | paymaster-service/src/operator.rs:129-150 | At any point of a run a non-empty mempool builds exactly when the sequence has room and the cell can pay the fee |
| `Operator.RunningTransitionAccepted` | contracts/controller-game-cell/src/main.rs:162-193 | While the tip is live, a transition built at any point of a run spends it and, once signed, passes the type script, given signed intents and counts within two and four bytes |
| `PaymentChannel.MockRail.Open` | sdk/src/channel.rs:120-132 | Appends a channel holding the whole budget locally and returns its index |
| `PaymentChannel.MockRail.Pay` | sdk/src/channel.rs:134-142 | Moves the amount across the one channel, or changes nothing and says why |
| `PaymentChannel.MockRail.Close` | sdk/src/channel.rs:144-150 | Returns the channel's two balances, or unknown channel |
| `PaymentChannel.ChannelSession.constructor` | sdk/src/channel.rs:304-313 | A new session is closed with nothing budgeted or spent |
| `PaymentChannel.ChannelSession.OpenChannel` | sdk/src/channel.rs:318-337 | Opens on the rail against the funding outpoint and returns the funding transaction; refuses when open |
| `PaymentChannel.ChannelSession.PayPeer` | sdk/src/channel.rs:342-354 | Pays within what is left or changes nothing, keeping the rail balanced |
| `PaymentChannel.ChannelSession.CloseChannel` | sdk/src/channel.rs:359-365 | Returns the settlement and its settle transaction and closes the session; refuses when not open |
| `PaymentChannel.PayExact` | sdk/src/channel.rs:339-354 | A payment goes through exactly when it fits what is left; the rail never has cause to refuse; other channels are untouched |
| `PaymentChannel.ChannelRefusals` | sdk/src/channel.rs:318-354 | Why the session or the rail refuses: already open, not open, over budget with what remained and what was asked, unknown channel or too little in it |
| `PaymentChannel.PayAllBalanced` | sdk/src/channel.rs:342-354 | Any sequence of payments keeps the rail holding exactly the unspent budget and the peer exactly the spent |
| `PaymentChannel.AffordablePaymentsSucceed` | sdk/src/channel.rs:342-354 | Payments whose total fits the budget all go through |
| `PaymentChannel.SessionConserves` | sdk/src/channel.rs:234-365 | Closing returns the unspent budget and the spent; with the funding change this is the account's capacity exactly when the budget was within it |
| `PaymentChannel.SettleSpendsFunding` | sdk/src/channel.rs:257-271 | The session's settle transaction spends the funding cell it opened, output 1 of the funding transaction, carries the configured deps and has one output, to the account, of the unspent budget |
| `PaymentChannel.FundingTxAccepted` | sdk/src/channel.rs:162-251 | For an empty-data account, a funding lock of other code, live signatures and a configured header from before the expiry, the funding transaction, with the configured deps and the timestamps of its own header deps, passes every check of the lock under its SDK witness, for any budget |
| `SponsorToken.Print` | paymaster/src/authz.rs:31-39 | The buffer appended piece by piece is the canonical form |
| `SponsorToken.ParseToken` | paymaster/src/authz.rs:43-87 | The moving cursor decides and reads exactly as specified, errors included |
| `SponsorToken.ParsePrintExact` | paymaster/src/authz.rs:31-87 | Parsing inverts printing before any suffix exactly when both strings fit two-byte lengths |
| `SponsorToken.PrintParse` | paymaster/src/authz.rs:41-87 | Whatever parses prints back to the bytes consumed |
| `SponsorToken.CanonicalPrefixFree` | paymaster/src/authz.rs:31-39 | No capability's canonical form begins another's |
| `SponsorToken.AuthorizeExact` | paymaster/src/authz.rs:154-177 | A token is accepted exactly when it is the canonical form of the capability returned, a valid signature over it and any tail, in scope and in time |
| `SponsorToken.AuthorizeRefusals` | paymaster/src/authz.rs:154-177 | Which error a token gets: malformed or cut short, signature, scope, expiry, the first of these |
| `SponsorToken.IssuedTokenAccepted` | paymaster/src/authz.rs:131-137 | Every issued token for strings that fit is accepted for its scope until it expires |
| `Sponsorship.BalanceTx` | paymaster/src/assemble.rs:38-69 | Appends one input, one change output and the deps not already there, or reports an insufficient fee cell |
| `Sponsorship.MissingExact` | paymaster/src/assemble.rs:61-66 | Each fee dep is appended as often as it is listed unless the client has it already, and nothing else is |
| `Sponsorship.MissingInOrder` | paymaster/src/assemble.rs:61-66 | And in the order they are listed, dep by dep |
| `Sponsorship.FeeDepsCarried` | paymaster/src/assemble.rs:61-66 | The balanced deps are the client's with every fee dep present |
| `Sponsorship.WrittenSize` | paymaster/src/assemble.rs:31-34 | The size priced is the length of the transaction as written in molecule tables and vectors |
| `Sponsorship.MinChangeExact` | paymaster-service/src/service.rs:96-105 | The least change is the occupied capacity of the change cell, whatever it holds |
| `Sponsorship.MinFeeExact` | paymaster/src/assemble.rs:31-34 | The minimum fee is the least covering the size at the rate while the product fits 64 bits |
| `Sponsorship.BalancedSize` | paymaster-service/src/service.rs:120-130 | The dry run and the final transaction serialize to the same length |
| `Sponsorship.SponsorSound` | paymaster-service/src/service.rs:109-157 | On success the fee covers the final transaction, the client's part is an unchanged prefix, the deps are the client's and the fee's, and the change is the rest of the cell, at least its occupied capacity exactly when the collector met its bound |
| `Sponsorship.SponsorRefusals` | paymaster-service/src/service.rs:109-157 | Why sponsoring fails: unauthorized, a bound over 64 bits, the collector's error, no cell, or a cell below the fee; otherwise what is returned is for the token's subject |
| `Sponsorship.SponsoredContinuity` | contracts/controller-session-lock/src/main.rs:471-506 | A change output of other code leaves the continuity verdict and returned capacity unchanged |
| `Sponsorship.SponsoredPolicyExact` | contracts/controller-session-lock/src/main.rs:411-462 | In a scoped session sponsorship keeps the policy verdict exactly when the region holds one more frame after the client's and that frame proves the change |
| `Sponsorship.SponsorshipBreaksPolicy` | contracts/controller-session-lock/src/main.rs:434-437 | A region of frames for exactly the client's outputs, accepted before when they prove them, is refused once the change is there |
| `Sponsorship.ExtraFrameExact` | sdk/src/lib.rs:189-205 | With one more entry the sponsored outputs pass exactly when the client's frames prove the client's outputs and the entry proves the change |
| `Sponsorship.SponsoredNeedsRelayerListed` | contracts/controller-session-lock/src/main.rs:398-410 | An accepted sponsored scoped session has the relayer's lock on its allowlist, or the hash broke on the strings hashed for the change |
| `Sponsorship.SponsoredLimitsExact` | contracts/controller-session-lock/src/main.rs:327-356 | With a fee cell and change output of other lock code, sponsorship changes the lock's limits verdict only through that frame |
| `Sponsorship.SponsoredSessionExact` | paymaster/src/assemble.rs:1-13 | Assemble, then sign, registered model: the lock accepts what the service returned exactly when the signatures cover the sponsored transaction, the client's own transaction was within limits and, if scoped, the change is framed |
| `Sponsorship.SponsoredCarriedExact` | paymaster/src/assemble.rs:1-13 | The same in the carried model, with the owner's blessing at the spent cell's epoch |

## Left out

- Hash functions, secp256k1, ckb-auth and Ed25519: arbitrary functions and predicates; `IssuedTokenAccepted` takes the signature's own correctness as a hypothesis.
- CKB-VM syscalls and molecule decoding: transactions are records, each output is paired with its data, a witness either parses or does not. `Molecule` writes them for their length alone; hashes are arbitrary functions of the records.
- System errors a lock or type script cannot meet on these records (missing items, short lengths) and the panics on unknown ones.
- Input `since` values and transaction versions: every input has the default, as the builders here write it.
- `min_change` panics when the occupied capacity overflows; the model computes it without bound and reports an insufficient fee instead.
- `SponsorToken.ParseToken` treats UTF-8 validity as an arbitrary predicate on bytes.
- Script groups of the lock and the game cell are given as index lists by hash; `count_group_cells` and the group-relative loaders are not modelled as loops.
- The error strings of the finalizer and the node are carried along but not modelled.
- The general rail interface: the channel session is modelled over the in-memory rail, whose channel ids are unbounded indices.
- SessionLedger.RunKeepsAuthorizations: runs here are session transactions of one account, because the cap accounting is about them; runs with owner transactions, deposits and settlements are those of `Revocation`.
- `Revocation` takes the owner's signature to verify for one message only; that is the signature scheme's own correctness.
- An operator's restart, which looks its tip up on the chain again, and node acceptance that is later reverted.
- Header deps in `SessionExpiry` are any committed headers; the chain's own maturity rule for them is not modelled.
- The biscuit token gate, whose meaning is that of an external policy engine.
- HTTP servers, the RPC client, configuration, the invoice relay, the results log, the WASM and JavaScript bindings, the demo, the command line and address encoding.
