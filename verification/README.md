# A verified model of the tkmchain state machines

tkmchain is a Go-Ethereum descendant that adds a shielded pool, wrapped
confidential tokens, account stamps, governance votes and an oracle and
cross-chain message registry to a proof-of-work chain. This project models the
parts whose correctness depends on state carried from one operation to the next
and proves what every step keeps and what holds after every run.

| file | what it models |
|---|---|
| `MerkleSpec.dfy` | the abstract fixed-depth tree behind every accumulator, and authentication paths |
| `FrontierTree.dfy` | the first note tree: one pending node per level, witnesses frozen at append time |
| `SparseTree.dfy` | the second note tree: every touched node persisted in 32-byte slots, read back by path queries; the stamp and binding registries run the same code under other slot prefixes |
| `Registries.dfy` | stamps (one per address and per owner) and recipient bindings (one per stamped owner) |
| `ConfidentialLedger.dfy` | the public totals of confidential assets, the shared reserve, and the money of one envelope or migration |
| `LedgerRuns.dfy` | every movement of the shared account, validator bonds and Shield6 boundaries included, and what holds over whole runs |
| `PoolModel.dfy` | the machine the shielded pool implements: money and three histories, without trees, slots or validation order |
| `ShieldedPool.dfy` | the Shield3, Shield4 and Shield5 processors over the note tree, the replay marks and the ledger |
| `ChainSpec.dfy`, `BlockChain.dfy` | block store, canonical index, transaction lookup, heads, reorganisation, checkpoints |
| `HeaderChain.dfy` | header-chain reorganisation, ancestor queries, and the block-hash oracle of the EVM |
| `AddressVote.dfy` | suspension votes, counters and the burned fee |
| `ChunkedRegistry.dfy` | oracle rounds, cross-chain replay protection, and values stored in 32-byte words |
| `Common.dfy` | hashes, addresses and results; storage slots with a zero default; sequences without repeats |

Code that updates state in place is a class whose methods are proved against
value-level specifications; a `ghost` field records the history the slots stand
for, and `Valid()` ties the slots to it. Whole-run results are the `Run` methods
and lemmas, which take an arbitrary sequence of operations. Where the source keeps
several slots in step, the run is also proved to follow a simpler machine defined
on its own: the pool follows `PoolModel`, the vote slots follow a set of votes, the
oracle and cross-chain slots follow a map of records, and the chain index follows
the stored blocks and the head.

## Modelling decisions

- Hash functions are parameters. Injectivity is never assumed: soundness of a
  path says that it is the true one or names a level at which it exhibits a
  collision of the pair hash with the tree. `PredictedWitnessIsStored` assumes
  that the pair hash never yields the zero hash. `HashIsNative` states that the digest hash takes canonical digests to
  canonical ones. The tree depth is a parameter (32 in the repository).
- Storage slots are typed keys, so two different slots never coincide. The
  repository derives them by hashing a role and a key.
- A storage word of the sparse tree is four 8-byte lanes, a digest is five. A
  digest is written to two words; reading fails on non-zero padding or on a
  lane that is not a field element.
- Transaction and block hashes are non-zero, and a hash identifies one block.
  A transaction occurs at most once on a chain: its nonce forbids a second time.
- Proofs, signatures, ciphertexts, stamps of the sender and relay rules are
  booleans of the call; the answers are arbitrary.
- A ledger run contains every operation that debits the pool account: Shield3 to
  Shield5 envelopes, V2 migrations, Shield6 withdrawals, and the withdrawal and
  slashing of validator bonds. Everything else that happens to the other accounts,
  and any gift to the pool, is one step with arbitrary amounts; nobody holds a key
  to the pool. Signature, height and unbonding checks of validator transactions
  only make runs fewer and are not modelled.
- The pool and all other accounts together hold less than 2^256 wei.

## Results that differ from the intent of the code

`shieldedV3SpendablePoolReserve` (core/shielded_v3_state.go) is documented to let
every native release spend only the excess over the wrapped-token backing, and
`confidentialNativeReserve` (core/confidential_ledger.go) states that validator
bonds in the shared account back no notes. Before the ledger fork the state checks
alone guarantee neither.

- A V2 migration compares with the whole balance and can leave pTKM under-backed:
  `MigrationCanUnbackWrapped`, with the exact condition in `MigrationBeforeFork`.
- No check looks at the bonds, so an envelope or a migration can release them:
  `ReleaseCanSpendBonds` and `MigrationCanSpendBonds`, with the exact conditions in
  `BondsBeforeFork` and `MigrationSparesBonds`.
- A bond leaves whenever the balance holds it (core/validator_registry.go), even if
  that money backs pTKM: `BondExitCanUnbackWrapped` gives the run for every bond
  size, `BondExitKeepsWrapped` the exact condition.

For runs the conditions are exact at every moment: `RunKeepsReserve` (bonds and
pTKM covered) and `RunKeepsWrapped` (pTKM covered). Two results say when nothing
can go wrong. Once a ledger is open everything is covered without any condition
(`RunNeverShort`). And over every run, before the fork too, the reserve grows at
least by the native notes issued (`RunCoversNotes`), so proofs that never release
more than the notes hold keep everything covered (`SoundProofsSuffice`).

## Model

| member | source | states |
|---|---|---|
| MerkleSpec.UpIsShift | core/shielded_tx.go:1090-1090 | the ancestor of leaf `i` used throughout is `i` shifted right by the level |
| MerkleSpec.FitsIffTopIsZero | core/shielded_v3_state.go:132-132 | an index is below the capacity `1 << depth` exactly when its ancestor at the top level is node 0, so the climb ends at the root |
| MerkleSpec.UntouchedIsZero | core/shielded_v3_state.go:123-129 | a node above no leaf has the precomputed zero digest of its level, whatever the leaves are |
| MerkleSpec.AppendElsewhere | core/shielded_v3_state.go:130-167 | appending a leaf changes no node off that leaf's own path |
| MerkleSpec.WasRootNext | core/shielded_v3_state.go:164-164 | the roots a tree has had after one more append are the earlier ones and the new one, nothing else |
| MerkleSpec.WitnessClimbs | core/shielded_tx.go:1107-1125 | completeness: siblings of a leaf fold to the subtree root at every level |
| MerkleSpec.ClimbIsBinding | core/shielded_tx.go:1107-1125 | soundness for any pair hash: a path that folds to a node is the true leaf with its true siblings if and only if it exhibits no collision with the tree on its way |
| MerkleSpec.KnownRootBinds | core/shielded_tx.go:477-479 | whatever folds to a root the tree has had is a leaf of the tree of that time (or an unused one), or exhibits a collision |
| MerkleSpec.WitnessOpensOnly | core/shielded_v3_state.go:177-199 | a true sibling path is the only opening of its index under the root, short of a collision |
| FrontierTree.RootsNext | core/shielded_tx.go:1103-1103 | marking the new root keeps "marked exactly when the tree has had this root" |
| FrontierTree.FrontierNext | core/shielded_tx.go:1088-1100 | writing pending nodes only at zero bits of the index keeps every pending node equal to the completed left sibling the next append will need |
| FrontierTree.SiblingAt | core/shielded_tx.go:1089-1097 | the sibling chosen by the bit test (zero hash or pending node) is the true sibling in the grown tree |
| FrontierTree.FrozenKept | core/shielded_tx.go:1099-1099 | an append under another commitment leaves a frozen witness as it was |
| FrontierTree.WitnessNext | core/shielded_tx.go:1099-1102 | after an append every stored index and witness still describes its own leaf in the tree of its own append |
| FrontierTree.SlotsNext | core/shielded_tx.go:1080-1105 | one append preserves the meaning of all slots together: frontier, witnesses, indices and root marks |
| FrontierTree.FoldIsClimb | core/shielded_tx.go:1107-1125 | folding by recorded direction bits equals climbing by index when the bits are those of the index |
| FrontierTree.ComputeRoot | core/shielded_tx.go:1107-1125 | the loop computes the fold, a missing sibling counting as zero and a missing direction as left, for all path lengths |
| FrontierTree.ZeroHashes | core/shielded_tx.go:1127-1133 | entry `l` is the root of an empty subtree of height `l` |
| FrontierTree.AppendPathFolds | core/shielded_tx.go:835-835 | the witness of an append folds, by its own direction bits, to the root of the tree right after that append |
| FrontierTree.Tree.constructor | core/shielded_tx.go:814-816 | empty storage is a valid empty tree |
| FrontierTree.Tree.KnownExactly | core/shielded_tx.go:1073-1078 | the accepted anchors are exactly the roots the tree has had, the zero hash excepted |
| FrontierTree.Tree.AnchorBinds | core/shielded_tx.go:1073-1078 | a leaf and path that fold to an accepted anchor were in the tree when it had that root, or exhibit a collision |
| FrontierTree.Tree.RecordAncestors | core/shielded_tx.go:1086-1100 | the level loop ends at the root of the grown tree, having written exactly the pending nodes and this leaf's witness |
| FrontierTree.Tree.AppendLeaf | core/shielded_tx.go:1080-1105 | succeeds exactly below capacity; then the leaf is the next one, its index slot is index + 1, the new root is marked, and all slots keep their meaning |
| FrontierTree.Tree.AddOutput | core/shielded_tx.go:520-529 | accepts exactly a new commitment with room left; its slot holds the payload hash, the new root is filed under the transaction; roots once known stay known on every path |
| FrontierTree.Tree.AddOutputs | core/shielded_tx.go:520-529 | outputs offered one after another join exactly if new and while there is room; index and payload of earlier leaves never change |
| FrontierTree.Tree.CommitmentPath | core/shielded_tx.go:820-843 | found exactly for appended commitments; the answer is the witness of that commitment's own append, and its root is an accepted anchor for ever after |
| FrontierTree.Tree.NextPath | core/shielded_tx.go:847-868 | while there is room, the prediction is the witness the next append would produce |
| FrontierTree.Tree.PredictedWitnessIsStored | core/shielded_tx.go:845-868 | predict, append, offer any outputs after it, query: the prediction and the stored witness are equal, the root is known, and the commitment still names its payload |
| SparseTree.DigestRoundTrip | core/shielded_v3_state.go:42-57 | reading back a written digest gives it exactly when all five lanes are below the field modulus, an error otherwise |
| SparseTree.ReadIsWritten | core/shielded_v3_state.go:42-52 | a digest that reads back is canonical and lies in storage exactly as writing it would put it there, padding included |
| SparseTree.SubtreeCanonical | core/shielded_v3_state.go:152-156 | every node over canonical leaves is canonical, so no stored ancestor can be refused on reading |
| SparseTree.NodeReads | core/shielded_v3_state.go:123-129 | reading any node of a level, present or absent, gives that node of the abstract tree |
| SparseTree.HalfWayNext | core/shielded_v3_state.go:141-161 | in the middle of a climb the levels below belong to the grown tree and the levels above to the old one |
| SparseTree.RootsNext | core/shielded_v3_state.go:164-164 | the marked roots remain exactly the roots the tree has had |
| SparseTree.KeysNext | core/shielded_v3_state.go:162-162 | every key ever appended keeps an index slot that leads to an append of that key |
| SparseTree.TreeNext | core/shielded_v3_state.go:130-167 | climb plus final writes re-establish nodes, keys, count, current root and root marks, clear no root mark, and file the new root under the transaction |
| SparseTree.PathFolds | core/shielded_v3_state.go:177-199 | a full sibling path of a stored leaf folds to the current root, which is a marked one |
| SparseTree.Zeroes | core/shielded_v3_state.go:106-116 | entry `l` is the root of an empty subtree of height `l`, up to and including the tree's own height |
| SparseTree.Tree.constructor | core/shielded_v3_state.go:58-60 | empty storage is a valid empty tree |
| SparseTree.Tree.RecordAncestors | core/shielded_v3_state.go:139-161 | the climb succeeds exactly for a canonical leaf, ends at the root of the grown tree and touches node slots only |
| SparseTree.Tree.Append | core/shielded_v3_state.go:130-167 | succeeds exactly below capacity with a canonical leaf, extends leaves and keys by one, files the new root and no other under the transaction; a failure leaves nothing behind |
| SparseTree.Tree.KnownExactly | core/shielded_v3.go:345-347 | the accepted anchors are exactly the roots the tree has had |
| SparseTree.Tree.AnchorBinds | core/shielded_v3.go:345-347 | a leaf and path that fold to an accepted anchor were in the tree when it had that root, or exhibit a collision |
| SparseTree.Tree.CurrentRootDigest | core/shielded_v6_recipient_state.go:28-34 | the root read back is the root of all leaves, the zero digest of the top level for an empty tree |
| SparseTree.Tree.Siblings | core/shielded_v3_state.go:189-196 | the loop returns the sibling path of the index in the current tree |
| SparseTree.Tree.Path | core/shielded_v3_state.go:177-199 | found exactly for appended keys; the path folds from the stored leaf to the returned root, which is the current root and an accepted anchor, and no other leaf or path does short of a collision; never an error |
| Registries.StampsNext | core/antartical_stamp.go:332-333 | a registration keeps addresses and owners in one-to-one correspondence with the leaves |
| Registries.OneStampPerOwner | core/antartical_stamp.go:310-318 | two stamped addresses share an owner only if they are the same address |
| Registries.StampRegistry.constructor | core/antartical_stamp.go:287-337 | the registry starts empty and valid |
| Registries.StampRegistry.Register | core/antartical_stamp.go:306-336 | exact acceptance condition; acceptance adds one address, owner and leaf; repeating the same transaction is a silent no-op; a refusal changes nothing |
| Registries.StampRegistry.StampPath | core/antartical_stamp.go:387-409 | found exactly for registered owners; the path folds from the owner's leaf to the current, known root, and no other does short of a collision |
| Registries.BindingsNext | core/shielded_v6_recipient_state.go:103-104 | a binding keeps one commitment per owner, each hashed into its own leaf |
| Registries.OneBindingPerOwner | core/shielded_v6_recipient_state.go:49-51 | an owner is bound once, and its leaf commits to the one commitment stored for it |
| Registries.BindingRegistry.constructor | core/shielded_v6_recipient_state.go:24-34 | the registry starts empty and valid |
| Registries.BindingRegistry.Register | core/shielded_v6_recipient_state.go:44-109 | exact acceptance condition: only the stamped owner of the sender, not suspended, once, with a canonical non-zero commitment and room left; a refusal changes nothing |
| Registries.BindingRegistry.BindingPath | core/shielded_v6_recipient_state.go:113-142 | found exactly for bound owners; the path folds from the leaf of owner and stored commitment to the current, known root |
| ConfidentialLedger.NativeReserve | core/confidential_ledger.go:126-143 | succeeds exactly when all bonds are well formed and the balance covers bonds and wrapped supply; gives the difference; names the failure |
| ConfidentialLedger.LedgerTransition | core/confidential_ledger.go:83-121 | succeeds exactly when the reserve covers the recorded backing and all totals stay within 256 bits; an unopened ledger opens on the wrapped supply or on the balance less bonds and wrapped supply; each total moves by its own amount; each error has its own condition |
| ConfidentialLedger.NativeTakes | core/confidential_ledger.go:96-119 | in a solvent state the native ledger takes a movement exactly when withdrawal and fee are within the recorded backing, or within the free reserve on first use, and no total overflows |
| ConfidentialLedger.FirstWithdrawalTaken | core/confidential_ledger.go:96-119 | notes from before the fork stay spendable: the first native withdrawal and fee are taken exactly when they are at most the balance less bonds and wrapped supply |
| ConfidentialLedger.WrappedTakes | core/confidential_ledger.go:93-119 | in a solvent state the wrapped ledger, open or not, takes exactly what the supply covers |
| ConfidentialLedger.CommitExact | core/confidential_ledger.go:145-152 | committing in-range totals stores them without loss in 256-bit words and touches no other asset |
| ConfidentialLedger.MovedBalanced | core/confidential_ledger.go:96-114 | an admitted transition keeps backing equal to opening plus deposits less withdrawals less burned fees |
| ConfidentialLedger.NeverShort | core/confidential_ledger.go:89-103 | in a solvent state with an opened ledger neither shortfall error can occur |
| ConfidentialLedger.CheckReserve | core/shielded_v3.go:354-370 | the nested checks decide exactly: wrapped supply backed and within range, and the release within the spendable reserve of its asset |
| ConfidentialLedger.SettledConserves | core/shielded_v3.go:423-457 | an accepted envelope conserves pool plus outside plus burned money, the outer deposit included |
| ConfidentialLedger.SettledKeepsWrapped | core/shielded_v3_state.go:84-98 | an accepted envelope keeps the balance at or above the wrapped supply, before and after the fork |
| ConfidentialLedger.SettledKeepsSolvent | core/shielded_v3.go:423-457 | an accepted envelope keeps both ledgers balanced, wrapped backing equal to the supply, and the native reserve above the native backing |
| ConfidentialLedger.Migrate | core/shielded_tx.go:440-454 | a V2 migration release is taken exactly when the ledger transition (after the fork) and the whole-balance test allow it; it moves from the pool to outside, is booked as withdrawn, and nothing else changes |
| ConfidentialLedger.MigratesExactly | core/shielded_tx.go:440-454 | in a solvent state a migration is taken exactly within the balance and, after the fork, within the native backing or the free reserve |
| ConfidentialLedger.MigratedKeepsSolvent | core/shielded_tx.go:440-454 | a migration release keeps the ledgers balanced and the reserve above the native backing |
| ConfidentialLedger.MigrationBeforeFork | core/shielded_tx.go:449-454 | before the fork wrapped backing survives a migration release if and only if it is within the spendable native reserve |
| ConfidentialLedger.MigrationCanUnbackWrapped | core/shielded_tx.go:449-454 | a solvent state and an accepted migration release after which the balance is below the wrapped supply |
| ConfidentialLedger.MigrationAfterFork | core/shielded_tx.go:441-448 | after the fork a migration release leaves bonds and wrapped supply covered |
| ConfidentialLedger.BondsBeforeFork | core/shielded_v3.go:367-370 | before the fork an accepted native envelope leaves bonds and wrapped supply covered if and only if its release is within the true excess |
| ConfidentialLedger.MigrationSparesBonds | core/shielded_tx.go:449-454 | before the fork a migration leaves bonds and wrapped supply covered if and only if it is within the true excess |
| ConfidentialLedger.WrappedKeepsExcess | core/shielded_v3.go:423-457 | a wrapped envelope never lowers the excess over bonds and wrapped supply |
| ConfidentialLedger.ReleaseCanSpendBonds | core/shielded_v3.go:367-370 | a solvent state and an accepted native release that spends bonded money before the fork |
| ConfidentialLedger.MigrationCanSpendBonds | core/shielded_tx.go:449-454 | a solvent state and an accepted migration that spends bonded money before the fork |
| ConfidentialLedger.BondsAfterFork | core/confidential_ledger.go:123-143 | after the fork an accepted envelope always leaves bonds and wrapped supply covered |
| LedgerRuns.RegisterValidator | core/validator_registry.go:449-537 | a bond is accepted exactly for a new or bondless validator while the set has room and the sender can pay bond and fee; then bond and fee move and the stake is recorded |
| LedgerRuns.WithdrawBond | core/validator_registry.go:563-571 | a bond leaves exactly when it is positive and the account holds it; it is paid out in full, nothing is forfeited, and its stake is cleared |
| LedgerRuns.SlashBond | core/validator_registry.go:618-627 | a bond is destroyed exactly when the account holds it; nobody is paid, and its stake is cleared |
| LedgerRuns.BondsKeepExcess | core/validator_registry.go:563-571 | bonding, unbonding and slashing leave the excess over bonds and wrapped supply unchanged |
| LedgerRuns.BondExitKeepsWrapped | core/validator_registry.go:563-568 | a departing bond leaves the wrapped supply backed if and only if it is within the spendable native reserve |
| LedgerRuns.BondExitCanUnbackWrapped | core/validator_registry.go:563-568 | for every bond size, a run of three accepted pre-fork steps from a covered state to a balance below the wrapped supply |
| LedgerRuns.Cross | core/shielded_v6_state.go:296-333 | a Shield6 boundary moves its deposit into the pool or its withdrawal out of it and books exactly that in the native ledger, or changes nothing |
| LedgerRuns.CrossesExactly | core/shielded_v6_state.go:296-333 | in a solvent state a boundary is taken exactly after the fork, one direction at a time, within the backing and without overflow |
| LedgerRuns.CrossingIsBacked | core/shielded_v6_state.go:329-333 | the ledger transition alone guarantees that the unguarded debit does not underflow |
| LedgerRuns.CrossedKeepsSolvent | core/shielded_v6_state.go:296-333 | a Shield6 boundary keeps solvency and leaves bonds and wrapped supply covered |
| LedgerRuns.StepKeepsSolvent | core/confidential_ledger.go:80-121 | every movement of the account keeps solvency |
| LedgerRuns.RunStaysSolvent | core/confidential_ledger.go:80-121 | solvency holds after every finite run of movements |
| LedgerRuns.RunAddsUp | core/confidential_ledger.go:109-119 | after any run each open ledger's backing is opening plus deposits less withdrawals less fees, native backing plus wrapped supply plus bonds is at most the balance, and wrapped backing equals the supply |
| LedgerRuns.RunNeverShort | core/confidential_ledger.go:89-103 | after any run, once a ledger is open, no shortfall error can be raised and bonds and wrapped supply are covered |
| LedgerRuns.StepwiseExact | core/confidential_ledger.go:123-143 | a condition that is exact for single steps from solvent states is exact, at every moment, for whole runs |
| LedgerRuns.StepKeepsReserve | core/confidential_ledger.go:123-143 | bonds and wrapped supply stay covered by a step if and only if it is no pre-fork native release beyond the excess |
| LedgerRuns.RunKeepsReserve | core/confidential_ledger.go:123-143 | bonds and wrapped supply are covered at every moment of a run if and only if every pre-fork native release was within the excess of its time |
| LedgerRuns.StepKeepsWrapped | core/shielded_v3_state.go:84-98 | the wrapped supply stays backed by a step if and only if it is no pre-fork migration and no departing or slashed bond beyond the spendable reserve |
| LedgerRuns.RunKeepsWrapped | core/shielded_v3_state.go:84-98 | the wrapped supply is backed at every moment of a run if and only if every step was of that kind |
| LedgerRuns.CoveredReserveBacksWrapped | core/shielded_v3_state.go:84-98 | while bonds and wrapped supply are covered together, bonds may come and go without touching the wrapped backing |
| LedgerRuns.RunBacksWrapped | core/shielded_v3_state.go:84-98 | at the end of any run the wrapped supply is backed if a ledger is open, or if all pre-fork releases were careful |
| LedgerRuns.StepCoversNotes | core/confidential_ledger.go:80-82 | a step raises the reserve at least by the native notes it issues net of those it redeems, and exactly by that unless money stays in or is given to the pool |
| LedgerRuns.RunCoversNotes | core/confidential_ledger.go:80-82 | over every run, before and after the fork, a reserve that covers the native notes keeps covering them, beside bonds and wrapped supply |
| LedgerRuns.SoundProofsSuffice | core/confidential_ledger.go:80-82 | if proofs never redeem more native notes than there are, bonds and wrapped supply are covered at every moment and all careful conditions hold |
| LedgerRuns.RunForfeits | core/validator_registry.go:520-523 | over every run the forfeited money grows exactly by the registration fees of accepted bonds and the stakes of accepted slashings |
| LedgerRuns.RunConserves | core/shielded_v3.go:423-457 | over every run of envelopes, migrations, boundaries, bonds and activation, pool plus outside plus burned money falls by the forfeited amount and by nothing else |
| LedgerRuns.FeesRecorded | core/confidential_ledger.go:109-114 | a committed transition raises the recorded native fees by its fee and leaves the wrapped ones |
| LedgerRuns.StepBurnsItsFees | core/confidential_ledger.go:158-161 | every step burns exactly the prepaid fee the native ledger records; the wrapped ledger records none |
| LedgerRuns.RunBurnsItsFees | core/confidential_ledger.go:158-161 | over every run burned money and recorded fees grow by the same amount |
| PoolModel.NeverTwice | core/shielded_v3.go:339-344 | once an input is spent, no envelope that names it under the same asset is taken after any further run |
| ShieldedPool.CheckSlots | core/shielded_v3.go:69-96 | the loop accepts exactly: distinct non-zero active inputs, zero in every inactive slot |
| ShieldedPool.Nullifiers | core/shielded_v4.go:92-119 | the extracted inputs are the active slots in order, for both legacy and multi-input envelopes; an error exactly for ill-formed slots |
| ShieldedPool.Inputs | core/shielded_v5.go:75-103 | the inputs of a well-formed envelope are pairwise distinct |
| ShieldedPool.CappedView | core/shielded_v5.go:134-140 | the Shield4 view of a Shield5 envelope is well formed and carries its first four inputs, or all if there are fewer |
| ShieldedPool.RecordsOne | core/shielded_v3.go:414-417 | marking an unmarked pair extends the history of pairs without a repeat |
| ShieldedPool.NoneMarked | core/shielded_v4_state.go:57-73 | the loops over inputs and over outputs accept exactly when none is marked under the asset |
| ShieldedPool.CheckSpend | core/shielded_v4_state.go:56-68 | accepts exactly when all inputs and, from Shield4 on, the link tag are unspent and the anchor is known |
| ShieldedPool.CheckLedgerShape | core/confidential_ledger.go:56-78 | accepts exactly: no sponsorship, or an exact prepaid fee of a native private spend, once the fork is active; no fee mode before it |
| ShieldedPool.CheckBasics | core/shielded_v3.go:186-267 | the ordered checks of the public fields and the output loop accept exactly the well-shaped envelopes |
| ShieldedPool.ValidateV4 | core/shielded_v4_state.go:41-95 | decides exactly the state condition: registry root, stamps, unspent inputs and tag, known anchor, new commitments, reserve rules, room for four outputs |
| ShieldedPool.SplitCheckIsWhole | core/shielded_v5_state.go:22-39 | checking four inputs through the Shield4 view and the rest in a second loop decides the condition on all sixteen |
| ShieldedPool.ValidateV5 | core/shielded_v5_state.go:17-41 | decides the same state condition for Shield5, ill-formed inputs refused |
| ShieldedPool.BasicsShapesFlow | core/confidential_ledger.go:56-78 | an envelope that passes the shape checks moves money only in the ways the ledger theorems cover |
| ShieldedPool.AcceptedSettles | core/shielded_v3.go:354-370 | acceptance implies that no balance, supply or total under- or overflows when the money moves |
| ShieldedPool.UnspentIsUnseen | core/shielded_v3.go:389-394 | the per-block duplicate check never refuses an envelope that the persistent marks admit |
| ShieldedPool.MintedIsFiled | core/shielded_v3.go:412-418 | a commitment is in the note tree exactly when it was minted under some asset |
| ShieldedPool.InputsAgree | core/shielded_v5.go:75-103 | reading the slots finds exactly the declared inputs: distinct, canonical and non-zero, all other slots empty, none for a deposit |
| ShieldedPool.FormAgrees | core/shielded_v3.go:186-267 | the nested checks of the public fields accept exactly the envelopes that are in order as a deposit or as a private spend with its fee |
| ShieldedPool.UnusedAgrees | core/shielded_v4_state.go:56-73 | the marks refuse exactly the inputs, tags and outputs that the histories contain |
| ShieldedPool.FundedAgrees | core/shielded_v3.go:354-370 | reserve checks and ledger transition together ask exactly whether the account can pay, wrapped backing is left alone, and the ledger can record it |
| ShieldedPool.PaidAgrees | core/shielded_v3.go:423-457 | the books after an accepted envelope are those of the machine: money, supply, burned fee and totals |
| ShieldedPool.Pool.constructor | core/shielded_v3.go:376-457 | a pool over empty storage with solvent books is valid |
| ShieldedPool.Pool.StartBlock | core/shielded_v3.go:376-394 | a new block forgets what was seen and nothing else |
| ShieldedPool.Pool.AppendOutputs | core/shielded_v3.go:412-418 | the outputs become the next leaves in order, each filed under itself and marked once with the transaction, as is every new root; no failure after the room check |
| ShieldedPool.Pool.ConsumeInputs | core/shielded_v3.go:419-422 | exactly the inputs become spent by this transaction and seen in this block |
| ShieldedPool.Pool.MoveMoney | core/shielded_v3.go:423-457 | supply, ledger, fee burn, fee ticket and releases together give the settled books, up to the outer transfer |
| ShieldedPool.Pool.SeenInBlock | core/shielded_v4_state.go:97-192 | hits exactly when an input, or from Shield4 on the link tag, was used earlier in the block |
| ShieldedPool.Pool.Decide | core/shielded_v4_state.go:97-192 | all checks in the processor's order accept exactly the envelopes that satisfy the order-free condition |
| ShieldedPool.Pool.RecordSpend | core/shielded_v4_state.go:97-192 | an accepted envelope's outputs, inputs and link tag are recorded under the transaction; a deposit consumes no tag |
| ShieldedPool.Pool.SettleBooks | core/shielded_v3.go:423-457 | the books become the settled ones and stay solvent and below 2^256 |
| ShieldedPool.Pool.SeenExactly | core/shielded_v3.go:345-373 | a validation sees an anchor as known exactly when the tree has had that root, and room exactly when four more leaves fit |
| ShieldedPool.Pool.TakesExactly | core/shielded_v4_state.go:97-192 | all checks of the processors together accept exactly what the machine takes |
| ShieldedPool.Pool.Execute | core/shielded_v5_state.go:43-145 | checks, then records, then money: accepted exactly on the checked condition, with the whole new state; no change at all on refusal |
| ShieldedPool.Pool.Step | core/shielded_v5_state.go:43-145 | an envelope is accepted exactly when the machine takes it, a spend only under a root the note tree has had; the new state is the machine's; inputs, tag, outputs and new roots name the transaction; a refusal changes nothing |
| ShieldedPool.Pool.Move | core/validator_registry.go:539-572 | a migration, Shield6 boundary, bond operation, activation or outside event changes the books as the ledger run says and keeps them valid |
| ShieldedPool.Pool.Take | core/shielded_v3.go:376-457 | one event of a run is one step of the machine, keeps the pool valid, loses no record or anchor, and makes at most one movement of money |
| ShieldedPool.Pool.Run | core/shielded_v3.go:376-457 | over any interleaving of versions, blocks, migrations, bonds, boundaries and activation the pool ends where the machine ends: no nullifier, link tag or commitment is used twice per asset, nothing recorded is lost, anchors stay known, the books are those of a ledger run, and wrapped tokens are backed once a ledger is open or if the run was careful |
| ShieldedPool.Pool.NotePath | core/shielded_v3_state.go:177-199 | found exactly for minted commitments of any asset; the path folds from the commitment to the current, known root, and no other does short of a collision |
| ShieldedPool.Pool.AnchorOpensMinted | core/shielded_v3.go:345-347 | whatever non-zero leaf is opened under an accepted anchor was minted, or the opening exhibits a collision |
| ChainSpec.AncestorParent | core/blockchain.go:2626-2634 | the ancestor one level down is the stored parent |
| ChainSpec.AncestorOfAncestor | core/headerchain.go:352-384 | ancestors compose |
| ChainSpec.MeetBelow | core/blockchain.go:2614-2635 | two chains that share a block share everything below it |
| BlockChain.WalkDown | core/blockchain.go:2596-2607 | the reducing loop reaches the ancestor at the target height and collects exactly the blocks above it, top first |
| BlockChain.FindFork | core/blockchain.go:2591-2635 | finds the highest common block and both branches above it; the error occurs exactly for chains with different genesis blocks |
| BlockChain.ForkIsUnique | core/blockchain.go:2614-2635 | two chains have one fork height |
| BlockChain.CheckCheckpoints | core/blockchain.go:2636-2651 | passes exactly when no enforced checkpoint lies on the abandoned branch and no enforced height of the new branch disagrees; the first failure is reported first |
| BlockChain.MoveExactly | core/blockchain.go:2636-2651 | a move between branches is allowed exactly when both start at one genesis block, every canonical checkpoint that is validated or mandatory stays canonical, and every block that becomes canonical at such a height is the checkpoint |
| BlockChain.NoCheckpointsNoRefusal | params/checkpoints.go:133-138 | with validation off and nothing mandatory, no move between chains of one genesis block is refused |
| BlockChain.CheckpointsSurvive | core/blockchain.go:2636-2651 | an enforced checkpoint on the old chain is on the new chain, also when the new chain is shorter |
| BlockChain.LookupCut | core/blockchain.go:2764-2766 | removing dropped-but-not-reborn transactions from the overwritten lookup leaves exactly the canonical transactions at their canonical heights |
| BlockChain.HeadExtends | core/blockchain.go:1291-1314 | writing a child of the head extends both indexes to the child's chain |
| BlockChain.HeadRepeats | core/blockchain.go:1291-1314 | writing the head again changes neither index |
| BlockChain.Difference | core/types/transaction.go:750-765 | as sets, the result is the difference |
| BlockChain.CollectTxs | core/blockchain.go:2717-2734 | the collected hashes are exactly the transactions of the abandoned branch |
| BlockChain.Chain.constructor | core/blockchain.go:1291-1314 | a chain of one genesis block is valid |
| BlockChain.Chain.WriteHeadBlock | core/blockchain.go:1291-1314 | number index, lookup entries and all three head markers move to the block |
| BlockChain.Chain.ApplyBranch | core/blockchain.go:2735-2755 | the forward loop installs the new branch except its last block and collects exactly its transactions |
| BlockChain.Chain.DeleteNumbersFrom | core/blockchain.go:2774-2780 | the scan to the first gap deletes exactly the assigned numbers from the start on |
| BlockChain.Chain.DropOldEntries | core/blockchain.go:2764-2766 | afterwards the lookup is exact for the part of the new chain already written |
| BlockChain.Chain.CutNumbers | core/blockchain.go:2767-2780 | afterwards the number index is exactly the part of the new chain already written |
| BlockChain.Chain.Rewrite | core/blockchain.go:2680-2787 | both indexes become those of the new head when it is an ancestor of the old one, of its parent otherwise |
| BlockChain.Chain.Reorg | core/blockchain.go:2590-2788 | exact condition for each outcome; an error changes nothing; on success the indexes are as in `Rewrite` for the unique fork |
| BlockChain.Chain.SetHead | core/blockchain.go:1677-1686 | the head moves exactly when the block extends it or checkpoints allow the move; then all three markers and all indexes describe the new chain; a canonical checkpoint that is validated or mandatory is never lost |
| BlockChain.Chain.WriteBlock | core/blockchain.go:1690-1693 | a block is stored exactly when its parent is known, and no index or head moves (also core/blockchain.go:2367-2369) |
| BlockChain.Chain.WriteBlockAndSetHead | core/blockchain.go:1814-1830 | an unknown parent is refused without change; otherwise the block is stored, and the head moves as in `SetHead` or the indexes stay |
| BlockChain.Chain.Run | core/blockchain.go:1814-1830 | any sequence of imports, side blocks (core/blockchain.go:2367-2369) and head choices (core/blockchain.go:2810-2830) ends with the blocks and head its steps prescribe, indexes and lookup describe exactly that head's chain, and checkpoints that are validated or mandatory, once canonical, stay canonical |
| HeaderChain.HeaderIsAncestor | core/headerchain.go:122-186 | every header of a contiguous batch is the ancestor of the last at its own height |
| HeaderChain.CrossLinked | core/headerchain.go:145-163 | when the backward walk meets an agreeing entry, everything below the batch is already the new chain |
| HeaderChain.Headers.DropAbove | core/headerchain.go:137-144 | exactly the assignments above the new head are deleted |
| HeaderChain.Headers.WalkBack | core/headerchain.go:145-163 | the walk always finds the cross link and leaves a map that is right below the first header |
| HeaderChain.Headers.WriteAll | core/headerchain.go:165-176 | writing parent hashes for all headers but the last gives the number map of the last header's chain |
| HeaderChain.Headers.Reorg | core/headerchain.go:122-186 | for every contiguous stored batch, extending or switching, the number map becomes that of the last header; an empty batch changes nothing |
| HeaderChain.Headers.GetAncestor | core/headerchain.go:352-384 | every answer is the true ancestor; for a stored block it succeeds exactly when the ancestor exists and is reached as parent, within the budget, or through a canonical block within the budget |
| HeaderChain.WalkArrives | core/evm.go:124-135 | over a complete store the uncached walk ends at the true ancestor |
| HeaderChain.HashFn.constructor | core/evm.go:102-107 | a fresh function has a valid empty cache |
| HeaderChain.HashFn.Get | core/evm.go:107-137 | caching is invisible: any sequence of queries in any order answers as the uncached walk does, zero outside the range and past a missing header |
| AddressVote.VoteBook.constructor | core/address_vote.go:181-187 | an empty vote book is consistent |
| AddressVote.VoteBook.ValidateState | core/address_vote.go:196-226 | accepts exactly a well-formed vote of a stamped owner on another address, unvoting an active vote or casting a new one below the threshold |
| AddressVote.VoteBook.Burn | core/address_vote.go:49-67 | total money falls by exactly 50 TKM, all of it the voter's, or nothing changes |
| AddressVote.TotalAfterBurn | core/address_vote.go:61-67 | debiting one account lowers the sum over all accounts by that amount |
| AddressVote.UnvoteKeepsCounts | core/address_vote.go:246-261 | an active vote makes the counter positive, and removing it keeps counter and suspension in step with the voters |
| AddressVote.VoteKeepsCounts | core/address_vote.go:262-275 | a new vote below the threshold keeps counter and suspension in step with the voters |
| AddressVote.VoteBook.ClearVote | core/address_vote.go:253-259 | one owner's vote and reason are cleared and the target is not suspended any more |
| AddressVote.VoteBook.CastVote | core/address_vote.go:268-274 | one owner's vote and reason are recorded, suspension follows the threshold |
| AddressVote.VoteBook.Process | core/address_vote.go:231-276 | exact acceptance; the voter set of one target changes by one owner; one burn per acceptance; a refusal changes nothing; the counter never underflows |
| AddressVote.VoteBook.CountsExactly | core/address_vote.go:196-226 | validation and fee together accept exactly: a vote in form by a stamped owner on another address, taking back an own vote or adding one to fewer than 15, with 50 TKM to pay |
| AddressVote.VoteBook.Handle | core/address_vote.go:231-276 | a call is one step of the set of votes and of the balances |
| AddressVote.VoteBook.Run | core/address_vote.go:231-276 | after any run the slots stand for the set of votes the calls leave; counters equal active voters, suspension equals reaching 15, and burned money is 50 TKM times the accepted calls |
| ChunkedRegistry.ChunkExtends | core/oracle_crosschain.go:192-196 | joining the next stored word extends the read prefix of the value, the zero padding falling away at the end |
| ChunkedRegistry.Registry.constructor | core/oracle_crosschain.go:184-190 | an empty registry is valid |
| ChunkedRegistry.Registry.WriteChunks | core/oracle_crosschain.go:287-292 | length and words of the value are stored under the key and no other key's words change |
| ChunkedRegistry.Registry.Read | core/oracle_crosschain.go:184-197 | round trip: found exactly for accepted keys, and the bytes are the accepted ones for every length within the limit |
| ChunkedRegistry.RoundsNext | core/oracle_crosschain.go:280-284 | comparing with the recorded round is comparing with every accepted round of the feed |
| ChunkedRegistry.Registry.ProcessOracle | core/oracle_crosschain.go:277-293 | accepted exactly for a value within the limit and a round above the last; round, observation and value are recorded, no earlier value is overwritten |
| ChunkedRegistry.Registry.ProcessCrossChain | core/oracle_crosschain.go:340-358 | accepted exactly for a payload within the limit under an unused replay key, which then names the transaction; nothing else changes |
| ChunkedRegistry.Registry.Handle | core/oracle_crosschain.go:231-359 | a call is one step of the map of accepted records |
| ChunkedRegistry.Registry.Run | core/oracle_crosschain.go:231-359 | over any run the registry holds the map of records the calls leave; the log of additions is complete, rounds of a feed strictly rise, no key is accepted twice, and everything ever accepted stays readable unchanged |

## Left out

- Proof systems, signatures, ciphertexts, envelope encodings, activation heights and time windows: booleans or already decoded fields of the call.
- Shield6 ring spends apart from their public money, the V1 and V2 spend loop with its own nullifier namespace, and read-only status queries: they would repeat the shape of the modelled processors.
- Shield3, Shield4 and Shield5 share one processor model with version branches; error texts and the nonce of the registry account are dropped.
- The quorum and signer rules of the oracle and of cross-chain messages are the `authorised` argument.
- The stamp sponsor rule, code-size test, ownership proof and stored stamp commitment are the `accepted` argument of the stamp registration.
- Refunds and the later use of a fee ticket in gas accounting, contract execution, parallel execution, consensus, networking, transaction pools and wallets.
- Database failures, missing blocks, the freezer, snapshots, state recovery in `SetCanonical`, and rewinding by `SetHead` of the original: the block store is complete below every stored block.
- Logs, events, metrics, caches other than the block-hash cache, and locks; each operation is one atomic step.
- Machine widths of indices and heights: unbounded naturals. A tree cannot exceed 2^32 leaves and a height never reaches 2^64.
- FrontierTree.Tree.AddOutput: after a full-tree error the payload slot stays written, as in the source, where the failing transaction is discarded as a whole; the contract keeps only the tree part valid in that case.
- FrontierTree.Tree.PredictedWitnessIsStored: assumes a pair hash that never yields the zero hash, because the source refuses the zero root as an anchor.
- SparseTree.Tree.Append: restores the storage itself on failure, where in the source its callers take and revert the snapshot.
- BlockChain.Chain.Reorg: the missing-header and missing-block errors cannot occur over a complete store, so a missing parent is only reachable at genesis.
- HeaderChain.Headers.Reorg: the missing-parent error cannot occur over a complete store.
- HeaderChain.Headers.GetAncestor: the header cache, which the source consults by hash without comparing the number, is not modelled.
- ConfidentialLedger.NativeReserve: a missing stake is treated as an invalid one.
- LedgerRuns.WithdrawBond: exit, unbonding and jail heights, public keys and the registration fields beside the stake are not modelled; they only forbid more.
- ShieldedPool.Pool.Run: a V2 migration is its money only; the V2 note tree is `FrontierTree`, with its own runs.
- ShieldedPool.Pool.Step: the sender's ability to pay the outer transfer is tested first; in the source that test belongs to the ordinary balance check of a transaction.
