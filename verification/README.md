# Chainpoint Core, modelled and proved

Chainpoint Core collects submitted hashes, aggregates them in Merkle trees, records the roots in a
calendar chain run by many cores, anchors ranges of the calendar in Bitcoin, and hands every
submitter a proof: a list of operations that leads from the hash to the Merkle root of a Bitcoin
block. This project models the parts on which that promise rests and proves what they promise.

* **Merkle trees.** `Merkle` says level by level what a tree computes, with its two switches as
  parameters (promotion or duplication of a lone node, one or two hashes). `MerkleTools` is the
  linked, mutable tree of the Go package, proved to compute it; it also says of exactly which leaves
  a tree that was made before gives right proofs. `Rfc6962` proves that the shape is the one of
  sections 2.1 and 2.1.1 of RFC 6962, without that standard's prefixes; `Binding` extracts a hash
  collision from any two lists of 32-byte leaves of equal length that share a root, and from any two
  accepted proofs of 32-byte values with equal directions.
* **The proof pipeline.** `ByteStrings` (hexadecimal, the UTF-8 repair of JSON, substring
  search), `Utf8`, `ProofOps` (ops, how they are written, what a reader computes), `Aggregator`,
  `Salting`, `Calendar`, `BtcAnchor`, `ProofRows`, `ProofGen`, and `EndToEnd`, where the branches of a
  generated proof are shown to lead from the submitted hash to the block. `BtcBatch` does this for whole batches, from
  the tables and the caches to the stored proofs, and says exactly when what was cached spoils them;
  `BtcSample` shows that such batches exist. `MixedProofs` is about a proof made of the rows of two
  anchorings, `StoredProofs` about the table of finished proofs.
* **Rotation, elections, rewards.** `Divisibility` and `Rotation` (the in-place juggling rotation),
  `Ordering` (Go's string order, sorting, de-duplication in place), `Leader`, `Rewards`.
* **The anchor epochs of the ABCI application.** `AnchorApp` (transactions and commits, as methods
  of the application object), `AnchorRuns` (runs of them and of anchoring goroutines, in any
  interleaving), `AnchorBtc` (the goroutines' own code, each piece of which does what a step of a run
  does), `AnchorCoverage` (any number of anchorings at a time), `AnchorEpochs` (one at a time, with
  BTC-As of other cores for any roots), `AnchorRange` and `AnchorProofs` (the roots of the ranges, and
  the ops that lead to them from every CAL that was left behind), `AnchorProgress` (what anchorings
  achieve when nothing fails), `AnchorSkips` (what an untimely BTC-A does), `AnchorReplicas`
  (agreement between cores), `AnchorHistory` (what state and tags say about the past).
* **The proof-state store.** `CachedTable` (a first-write-wins table with its Redis cache),
  `ProofStateService` (batched, at-least-once message handling), `BtcJoin` (the Bitcoin batch).

SHA-256 is any function from byte strings to 32 bytes: every result holds for each such function.
Operations that change objects or arrays are methods proved against specification functions, and
the properties are proved about those functions. Where a property is false of the code on some
inputs, a lemma says exactly on which: a value that is mangled on its way through JSON
(`ProofOps.ReadBack`), a root whose digits occur in the transaction between two bytes
(`BtcAnchor.TransactionIsRebuilt`, `BtcAnchor.MisalignedOccurrence`), a proof that is handed to
another aggregation because a root before it is not hexadecimal (`Calendar.HandedOutProof`), a leaf
that is not clean when its tree is made again (`MerkleTools.MerkleTree.GetProof`,
`MerkleTools.RegrownTree`), a BTC-A that comes after a timeout (`AnchorEpochs.TimelyBtcAsKeepCoverage`,
`AnchorSkips.UntimelyBtcA`), a transaction that does not verify
(`AnchorReplicas.UnverifiedMustBeHarmless`), a CAL at the boundary of two ranges of which the table
kept the first row and the cache took the second (`CachedTable.SecondRowAfterFailure`,
`BtcJoin.FirstAnchorIsEveryones`; a comment in node-proof-gen-service/server.js:161-162 says that all
anchor rows of a batch have one ID), and a calendar batch that is delivered again after the Bitcoin
batch (`StoredProofs.LateCalBatch`).

`dafny verify dfyconfig.toml` checks the whole project.

## Model

| member | source | states |
|---|---|---|
| `Merkle.PathFoldsToRoot` | go-abci-service/merkletools/merkletools.go:83-249 | in either mode, the proof of every leaf folds to the root |
| `Merkle.PathLength` | go-abci-service/merkletools/merkletools.go:89-99 | no proof has more than ceil(log2 n) steps |
| `Merkle.DuplicatingPathLength` | go-abci-service/merkletools/merkletools.go:89-99 | with duplication every proof has exactly ceil(log2 n) steps |
| `Merkle.NodeCount` | go-abci-service/merkletools/merkletools.go:133-176 | with promotion the node list has the sum of ceil(n / 2^k) entries over the levels |
| `Merkle.UpperNodesHold` | go-abci-service/merkletools/merkletools.go:133-184 | what stands where in the node list: above the leaves the padding copy, then the parents in order, level by level, and the root last |
| `Rfc6962.RootIsTreeHash` | go-abci-service/merkletools/merkletools.go:133-224 | the level-by-level root is the hash of the top-down recursion that splits at the largest power of two below n |
| `Rfc6962.PathIsAuditPath` | go-abci-service/merkletools/merkletools.go:83-102 | the proof of a leaf is that recursion's audit path, sides included |
| `Rfc6962.SplitIsPower` | go-abci-service/merkletools/merkletools.go:133-224 | the recursion splits at the largest power of two below n |
| `Rfc6962.AuditPathsDiffer` | go-abci-service/merkletools/merkletools.go:83-102 | different leaves of a tree have different proofs, even when their hashes are equal |
| `Binding.LeafCollision` | go-abci-service/merkletools/merkletools.go:186-224 | two different equal-length lists of 32-byte leaves with one root yield this hash collision |
| `Binding.ProofCollision` | go-abci-service/merkletools/merkletools.go:226-249 | two different proofs with the same directions and the same result yield this hash collision |
| `Binding.ForgeryCollision` | go-abci-service/merkletools/merkletools.go:83-249 | an accepted proof with the directions of leaf i's is leaf i's proof, for leaf i, or yields this hash collision |
| `MerkleTools.HashNodePair` | go-abci-service/merkletools/merkletools.go:186-224 | parent hash and all links of a pair and of a lone node, and which fields stay as they were |
| `MerkleTools.BuildLevel` | go-abci-service/merkletools/merkletools.go:142-176 | one round makes exactly the parents of the level and wires every node to its sibling and parent; what its nodes held otherwise stays |
| `MerkleTools.BuildRounds` | go-abci-service/merkletools/merkletools.go:141-177 | the rounds keep root and node list of the tree and leave a chain of linked levels |
| `MerkleTools.BuildLevels` | go-abci-service/merkletools/merkletools.go:133-184 | the node that remains carries the root and is marked as the root |
| `MerkleTools.MerkleTree.AddLeaf` | go-abci-service/merkletools/merkletools.go:51-54 | one new leaf at the end; leaves that were ready for a build stay ready |
| `MerkleTools.MerkleTree.AddLeaves` | go-abci-service/merkletools/merkletools.go:57-62 | the new leaves at the end, in order; leaves that were ready stay ready |
| `MerkleTools.MerkleTree.MakeTree` | go-abci-service/merkletools/merkletools.go:117-184 | whatever the leaves held before: the root, the node list and a finished chain of levels; leaves that were not clean stay so, because IsRoot and stale links are never cleared |
| `MerkleTools.RegrownTree` | go-abci-service/merkletools/merkletools.go:83-184 | a one-leaf tree that grows and is made again has the right root but an empty proof for its first leaf |
| `MerkleTools.WalkUp` | go-abci-service/merkletools/merkletools.go:89-101 | the walk over parent pointers ends, and collects the specified proof if and only if the leaf is the only one or clean |
| `MerkleTools.MerkleTree.GetProof` | go-abci-service/merkletools/merkletools.go:83-102 | nil outside the leaves; for each leaf, the specified proof if and only if the leaf is the only one or was clean when the tree was made |
| `MerkleTools.VerifyProof` | go-abci-service/merkletools/merkletools.go:226-249 | accepts exactly the proofs that fold to the root |
| `MerkleTools.NewTree` | go-abci-service/merkletools/merkletools.go:57-62 | adding leaves to a new tree and making it always gives a built tree |
| `MerkleTools.ProveAndVerify` | go-abci-service/merkletools/merkletools_test.go:229-248 | for all leaves, modes and indexes: make the tree, get the proof, verify it, and it is accepted |
| `Divisibility.ComputeGcd` | go-abci-service/util/util.go:335-340 | the loop computes the recursive gcd |
| `Divisibility.GcdDivides` | go-abci-service/util/util.go:335-340 | the gcd divides both arguments |
| `Divisibility.GcdIsGreatest` | go-abci-service/util/util.go:335-340 | every common divisor divides the gcd |
| `Divisibility.Bezout` | go-abci-service/util/util.go:335-340 | the gcd is an integer combination of its arguments |
| `Divisibility.GoRemWraps` | go-abci-service/util/util.go:290-297 | Go's truncating remainder, corrected when negative, is the mathematical one, for negative amounts too |
| `Rotation.PlaceReturns` | go-abci-service/util/util.go:312-325 | a cycle is back at its start after n / gcd moves |
| `Rotation.PlacesDiffer` | go-abci-service/util/util.go:312-325 | and not before: its places are pairwise different |
| `Rotation.PlaceResidue` | go-abci-service/util/util.go:307-325 | a cycle stays in one residue class of the gcd, so different cycles share no index |
| `Rotation.PlaceCovers` | go-abci-service/util/util.go:307-325 | a cycle reaches every index of its residue class |
| `Rotation.CycleStructure` | go-abci-service/util/util.go:304-330 | the cycle of i visits exactly the indexes congruent to i, each once, in the order of the moves |
| `Rotation.RotateCycle` | go-abci-service/util/util.go:308-329 | the inner loop ends and moves the elements of one cycle, and no others, one place along it |
| `Rotation.JuggleCycles` | go-abci-service/util/util.go:303-330 | all cycles together move every element by the amount |
| `Rotation.Rotate` | go-abci-service/util/util.go:269-333 | for every amount, negative or larger than the slice: element i becomes the old element (i + amount) mod n; a nil slice is the only error |
| `Rotation.RotateLeft` | go-abci-service/util/util.go:348-350 | the same |
| `Rotation.RotateRight` | go-abci-service/util/util.go:343-345 | rotation by the negated amount |
| `Rotation.RotatedTwice` | go-abci-service/util/util.go:269-350 | rotating twice is rotating by the sum |
| `Rotation.RotateRightUndoesLeft` | go-abci-service/util/util.go:343-350 | rotating right by the same amount restores the slice |
| `Rotation.RotatedMembers` | go-abci-service/util/util.go:269-333 | a rotation keeps the elements |
| `Rotation.RotatedDistinct` | go-abci-service/util/util.go:269-333 | a rotation of different elements has different elements |
| `Ordering.SortDescending` | go-abci-service/abci/leader.go:76-78 | a permutation of the slice in descending order of the keys |
| `Ordering.DescendingIsUnique` | go-abci-service/abci/leader.go:115-117 | with different keys there is only one such order, so the sort is deterministic |
| `Ordering.LessAtFirstDifference` | go-abci-service/abci/leader.go:115-117 | the order of strings is decided by the first byte in which they differ, or by which one ends first |
| `Ordering.Uniquify` | go-abci-service/util/util.go:372-399 | although it writes the slice it reads: the first occurrences, in order, and the rest of the slice untouched |
| `Ordering.FirstOccurrencesElements` | go-abci-service/util/util.go:372-399 | de-duplication loses no element and repeats none |
| `Ordering.FirstOccurrencesPositions` | go-abci-service/util/util.go:372-399 | what is kept stands at exactly the positions of first occurrences, in increasing order |
| `Leader.GetSortedPeerList` | go-abci-service/abci/leader.go:101-119 | the IDs of the peers and of the core itself in descending order; the caller's peers get their addresses corrected |
| `Leader.RotateAndTake` | go-abci-service/abci/leader.go:50-67 | the IDs at the drawn index and after it, wrapped around, as many as asked for or one when there are not so many; and whether the core is among them and not catching up |
| `Leader.DetermineLeader` | go-abci-service/abci/leader.go:122-148 | the verdict depends only on the IDs in play, the drawn index, and whether the core catches up |
| `Leader.DetermineValidatorLeader` | go-abci-service/abci/leader.go:44-68 | the same for validators |
| `Leader.LeadersFollowTheDraw` | go-abci-service/abci/leader.go:101-148 | who is elected: number k of the leaders is the ID at (index + k) modulo the length of the list of all IDs in descending order |
| `Leader.LeadsIfDrawn` | go-abci-service/abci/leader.go:122-148 | when one is to be elected, a core leads if and only if its ID stands at the drawn index of that list and it is not catching up |
| `Leader.SameIdsSameLeaders` | go-abci-service/abci/leader.go:101-148 | the same IDs in any order elect the same leaders |
| `Leader.LeadersAreDistinct` | go-abci-service/abci/leader.go:122-148 | as many different leaders as asked for, all of them known, or one when more are asked for than there are |
| `Leader.CoresAgree` | go-abci-service/abci/leader.go:122-148 | all cores of a fully known network, each drawing below the length of its own list, compute the same leaders |
| `Leader.ExactlyOneLeader` | go-abci-service/abci/leader.go:122-148 | when one is to be elected and nobody catches up, exactly one core considers itself the leader |
| `Rewards.GetNodeRewardCandidates` | go-abci-service/abci/nodes.go:219-250 | the canonical list of the collected addresses and its hash; an error when the search fails, when there are none, or when data is malformed |
| `Rewards.UniqueAndSorted` | go-abci-service/abci/nodes.go:243-246 | de-duplication and sorting in place give the canonical list |
| `Rewards.CollectedSays` | go-abci-service/abci/nodes.go:224-242 | the collection fails exactly when some transaction is malformed, and otherwise holds exactly the addresses that the others list |
| `Rewards.CanonicalForm` | go-abci-service/abci/nodes.go:224-247 | the list is the same for any order and any multiplicities of the same addresses |
| `Rewards.CanonicalLists` | go-abci-service/abci/nodes.go:243-247 | it holds exactly the collected addresses, each once, in descending order |
| `ByteStrings.HexRoundTrip` | go-abci-service/calendar/calendar.go:43-50 | decoding hexadecimal text gives the encoded bytes back |
| `ByteStrings.HexIsLower` | go-abci-service/calendar/calendar.go:43-50 | the encoding of bytes is the one lower-case text that decodes to them |
| `ByteStrings.HexIgnoresCase` | go-abci-service/calendar/calendar.go:43-50 | upper-case digits are read like lower-case ones |
| `ByteStrings.HexTexts` | go-abci-service/calendar/calendar.go:43-50 | a text is hexadecimal if and only if it has an even number of characters, all of them digits of either case |
| `ByteStrings.HexOfMalformed` | go-abci-service/aggregator/aggregator.go:149 | of a malformed text, the longest well-formed part in front is decoded |
| `ByteStrings.HexConcat` | go-abci-service/abci/anchor.go:115-118 | an even-length part of a text is decoded on its own |
| `ByteStrings.JsonFaithful` | go-abci-service/aggregator/aggregator.go:194-196 | a Go string survives JSON if and only if it is well-formed UTF-8 |
| `Utf8.Utf8EncodesScalars` | go-abci-service/aggregator/aggregator.go:194-196 | and these are exactly the encodings of Unicode scalar values as in section 3 of RFC 3629 |
| `ByteStrings.IndexFrom` | go-abci-service/abci/anchor.go:115-118 | the first occurrence of a substring, or -1 when there is none |
| `ProofOps.WriteSteps` | go-abci-service/aggregator/aggregator.go:191-203 | the line items of a proof, in order, two for each step |
| `ProofOps.WrittenAsItIs` | go-abci-service/aggregator/aggregator.go:193-201 | a value is written as it is if and only if it is a left value of the aggregator with the bytes of nistv2 or core_id somewhere in it, and in hexadecimal otherwise |
| `ProofOps.ReadBack` | go-abci-service/aggregator/aggregator.go:193-201 | a reader of the published text gets a step's value back if and only if it was written in hexadecimal or is well-formed UTF-8 |
| `ProofOps.EvalItems` | go-abci-service/aggregator/aggregator.go:192-203 | evaluating the published items of a proof is folding its steps |
| `Aggregator.SaltHashes` | go-abci-service/aggregator/aggregator.go:139-165 | the decodable messages and their leaves, in step with each other |
| `Aggregator.DecodableInOrder` | go-abci-service/aggregator/aggregator.go:139-145 | every message that can be decoded counts, in order, and no other |
| `Salting.SaltCollision` | go-abci-service/aggregator/aggregator.go:146-163 | two submissions that differ in the ID, the hash or the beacon value have different leaves, or yield this hash collision |
| `Aggregator.ProcessAggregation` | go-abci-service/aggregator/aggregator.go:134-207 | the root over the salted leaves and one entry per decodable message, with its ID, its hash and its ops; an empty aggregation when there are none |
| `Aggregator.EntryLeadsToRoot` | go-abci-service/aggregator/aggregator.go:146-205 | from the submitted hash, its published ops lead to the aggregation root |
| `Aggregator.UnmarkedEntryLeadsToRoot` | go-abci-service/aggregator/aggregator.go:146-205 | so they do whenever ID and beacon value are UTF-8 and no sibling contains the bytes of nistv2 or core_id anywhere |
| `Calendar.GenerateCalendarTree` | go-abci-service/calendar/calendar.go:39-69 | the root over the decodable aggregation roots; proofs are handed out by position |
| `Calendar.LeafPosition` | go-abci-service/calendar/calendar.go:42-48 | the leaf of a hexadecimal root stands behind as many leaves as there are hexadecimal roots before it; at the root's own position if and only if no root before it was skipped |
| `Calendar.HandedOutProof` | go-abci-service/calendar/calendar.go:42-66 | an aggregation is handed the proof of its own leaf if no root before it was skipped or there is one leaf only, and, when no root is the empty text, only then |
| `Calendar.CollectCals` | go-abci-service/calendar/calendar.go:96-112 | the CAL transactions with hexadecimal data, and their data |
| `Calendar.OnlyCalsCount` | go-abci-service/calendar/calendar.go:96-112 | a transaction counts, in its place, if and only if it is of type CAL with hexadecimal data; any other changes nothing about what is anchored |
| `Calendar.AggregateAnchorTx` | go-abci-service/calendar/calendar.go:91-139 | root, ID and one proof per CAL; a panic exactly when there is no CAL or the root has fewer than 16 bytes |
| `Calendar.RootIsLongEnough` | go-abci-service/calendar/calendar.go:113-117 | with at least one CAL, all of 32 bytes, the root has 32 bytes |
| `Calendar.ItemsLeadToRoot` | go-abci-service/calendar/calendar.go:55-64 | from each leaf, its published ops lead to the root |
| `BtcAnchor.TransactionIsRebuilt` | go-abci-service/abci/anchor.go:113-118 | the two texts around the anchored root rebuild the transaction's bytes if and only if the root's text starts at an even offset |
| `BtcAnchor.MisalignedOccurrence` | go-abci-service/abci/anchor.go:115-118 | for roots of every size, a transaction that contains the root and in which its text is first found at an odd offset |
| `BtcAnchor.TxOpsLeadToDoubleHash` | go-abci-service/abci/anchor.go:109-124 | from the anchored root, the transaction's published ops lead to the double hash of its bytes |
| `BtcAnchor.BuildHeadOps` | go-abci-service/abci/anchor.go:183-192 | the ops of a reported path, an empty side leaving no op |
| `BtcAnchor.HeadOpsFold` | go-abci-service/abci/anchor.go:183-192 | evaluating them folds the path with two hashes at each step |
| `BtcAnchor.HeadOpsLeadToBlockRoot` | go-abci-service/abci/anchor.go:183-192 | from a transaction of a block, the ops of its Merkle path lead to the block's root |
| `ProofRows.LookupHolds` | node-proof-gen-service/server.js:109-112 | a lookup table holds rows of its list under their own keys, and every key of the list |
| `ProofGen.Proof.AddBtcBranch` | node-proof-gen-service/server.js:77-91 | the Bitcoin branch goes into the first branch, nothing else changes |
| `ProofGen.BranchesAttest` | node-proof-gen-service/server.js:61-91 | one anchor at the end of each branch: that of the calendar row in the calendar branch, that of the head row in the Bitcoin branch, of the kind of the network |
| `ProofGen.MakeProofs` | node-proof-gen-service/server.js:114-132 | the proofs, header and branches, that satisfy the schema, in the order of their rows; an exception exactly when a row leads to a missing one or its ID holds no time |
| `ProofGen.KeptSay` | node-proof-gen-service/server.js:49-132 | every proof that is kept has the header of its row, satisfies the schema, and attests those anchors |
| `ProofGen.WhatPrevents` | node-proof-gen-service/server.js:49-132 | an exception prevents a proof exactly when its ID holds no time, or a calendar or anchor row it leads to is missing |
| `ProofGen.KeptInOrder` | node-proof-gen-service/server.js:114-132 | the proofs stand in the order of their rows |
| `ProofGen.ProofTable.StoreProofs` | node-proof-gen-service/server.js:230-248 | an insert replaces the proofs of its hash IDs, and nothing else; one that is not answered, or has two proofs of one ID, changes nothing and goes unnoticed |
| `ProofGen.ConsumeCalBatch` | node-proof-gen-service/server.js:102-145 | a calendar batch generates and stores those proofs, or goes back to the queue, with nothing stored, exactly when a calendar row or a time is missing |
| `ProofGen.ConsumeBtcBatch` | node-proof-gen-service/server.js:146-228 | a Bitcoin batch takes its single rows by the first anchor row; it is dropped without a transaction row, goes back to the queue without a head row or with an incomplete row, and else generates and stores its proofs |
| `ProofGen.ReadBranch` | node-proof-gen-service/server.js:61-91 | a branch leads where its ops lead: the anchors at its end change nothing |
| `StoredProofs.LastInsertCounts` | node-lib/lib/models/Proof.js:60-75 | after any run of inserts, some of them lost, an ID has the proof of the last insert that went through with one for it |
| `StoredProofs.BtcBranchStays` | node-proof-gen-service/server.js:102-228 | a stored proof has a Bitcoin branch if and only if the last batch stored with a proof for its hash was a Bitcoin batch |
| `StoredProofs.LateCalBatch` | node-proof-gen-service/server.js:102-145 | so a calendar batch that is delivered again after the Bitcoin batch takes the Bitcoin branch away |
| `EndToEnd.JourneyExists` | go-abci-service/calendar/calendar.go:39-139 | the hypotheses of the end-to-end results can be met by every hash of any aggregation among any others, if its ID and values survive JSON |
| `EndToEnd.ReachesAggRoot` | go-abci-service/aggregator/aggregator.go:134-207 | first station: the aggregation root |
| `EndToEnd.ReachesCalRoot` | go-abci-service/calendar/calendar.go:39-69 | second station: the calendar root |
| `EndToEnd.ReachesAnchorRoot` | go-abci-service/calendar/calendar.go:91-139 | third station: the anchor root |
| `EndToEnd.ReachesTransaction` | go-abci-service/abci/anchor.go:109-124 | fourth station: the double hash of the Bitcoin transaction |
| `EndToEnd.ReachesBlock` | go-abci-service/abci/anchor.go:183-192 | fifth station: the block's Merkle root |
| `EndToEnd.ProofLeadsToCalendar` | node-proof-gen-service/server.js:61-75 | the proof of a calendar batch leads from the submitted hash to the calendar root |
| `EndToEnd.ProofLeadsToBlock` | node-proof-gen-service/server.js:61-91 | the calendar branch of a Bitcoin proof leads from the submitted hash to the calendar root, and the Bitcoin branch from there to the block's Merkle root |
| `BtcBatch.RowLeadsToBlock` | node-proof-gen-service/server.js:148-200 | the lookups lead from a row to the tables' rows if and only if the caches do not contradict the tables on its way; when that holds of every row of the batch, its branches exist, lead to the block and attest the anchors of its calendar row and of the head row |
| `BtcSample.BatchExists` | node-proof-gen-service/server.js:148-155 | such batches exist: for any legible hashes of any aggregations under one calendar transaction, and for any contents of the caches |
| `BtcBatch.FreshBatchProves` | node-proof-gen-service/server.js:186-210 | in a batch that the caches do not spoil, nothing prevents a proof but an ID without a time, and all proofs that pass the schema lead to the block and attest the right anchors, each for its own hash |
| `BtcBatch.GenerateBtcProofs` | node-proof-gen-service/server.js:146-212 | the handler works with the tables' rows if and only if the caches do not contradict the tables on the way of any row of the batch; then, when all IDs hold times, the proofs it generates and stores lead from their hashes to the block's Merkle root, with headers of their rows and the anchors of the calendar and head rows |
| `BtcBatch.BoundaryBatchIsDropped` | node-proof-gen-service/server.js:162-174 | a run after which the batch of a boundary CAL's hash is dropped for good: the table kept the first anchor row, the cache took the second, and that range's transaction row is not there yet |
| `MixedProofs.MixedProofCollides` | node-proof-gen-service/server.js:77-91 | a proof made of another anchoring's ops does not lead to the block, unless it exposes a collision of the hash function |
| `AnchorApp.AnchorApplication.UpdateStateFromTx` | go-abci-service/abci/transactions.go:56-162 | the whole new state, the response, the keys and copies kept beside the state, and the goroutines started, for every kind of transaction |
| `AnchorHistory.CalNumberHeld` | go-abci-service/abci/transactions.go:75-79 | over any deliveries, LatestCalTxInt is the number of the last CAL: the number of numbered transactions up to it, after the initial TxInt |
| `AnchorHistory.BtccNumberHeld` | go-abci-service/abci/transactions.go:98-109 | and LatestBtccTxInt that of the last BTC-C |
| `AnchorHistory.NistHeld` | go-abci-service/abci/transactions.go:110-116 | the NIST record is the last one delivered |
| `AnchorHistory.ConfirmerHeld` | go-abci-service/abci/transactions.go:103-105 | the core that anchored last is that of the last BTC-C |
| `AnchorHistory.NodeMintBeforeHeld` | go-abci-service/abci/transactions.go:117-126 | the mint before the last is the last but one that was delivered |
| `AnchorHistory.CoreMintBeforeHeld` | go-abci-service/abci/transactions.go:127-136 | the same for cores |
| `AnchorHistory.CoreSignaturesHeld` | go-abci-service/abci/transactions.go:141-144 | the signatures held are those that came, each once |
| `AnchorHistory.TagsSay` | go-abci-service/abci/transactions.go:75-153 | what each transaction is tagged with: its number, the Bitcoin transaction of a BTC-A, and the block of the last mint before a BTC-C or NODE-RC |
| `AnchorHistory.KeysHeld` | go-abci-service/abci/nodes.go:85-102 | the key held of a core is the last one of it that can be decoded |
| `AnchorHistory.OwnKeySeen` | go-abci-service/abci/nodes.go:89-92 | a node has seen its own key exactly when a transaction with that key's ID came |
| `AnchorHistory.NistIsCopied` | go-abci-service/abci/transactions.go:110-116 | the aggregator of a core that aggregates uses the last NIST record delivered since the start, as the state does |
| `AnchorHistory.RefusedIfUnknown` | go-abci-service/abci/transactions.go:158-160 | only a transaction without a known type is refused |
| `AnchorHistory.TokensAreUpserted` | go-abci-service/abci/transactions.go:154-157 | every node upserts each token that it receives, verified or not, synced or not |
| `AnchorHistory.ReadUnverified` | go-abci-service/util/util.go:136-147 | a synced node reads an unverified transaction as it is if and only if it is a token or a key |
| `AnchorHistory.KeysReachEveryNode` | go-abci-service/util/util.go:136-173 | so every node learns a key by which it cannot verify yet, and refuses whatever else it cannot verify |
| `AnchorApp.AnchorApplication.CheckTx` | go-abci-service/abci/transactions.go:26-53 | which transactions are refused, which are passed on, and that only a new BTC-C changes the state |
| `AnchorApp.AnchorApplication.DeliverTx` | go-abci-service/abci/abci.go:280-282 | a delivered transaction always counts |
| `AnchorApp.AnchorApplication.DeliverMsg` | go-abci-service/abci/abci.go:284-290 | gossip counts on a synced node only |
| `AnchorApp.AnchorApplication.Commit` | go-abci-service/abci/abci.go:309-345 | which goroutines a commit starts, with which anchor range, that an unsynced node moves End instead, and what is saved |
| `AnchorApp.WhatCommitStarts` | go-abci-service/abci/abci.go:311-335 | when each goroutine is started, and that the anchoring goes from Begin to the latest CAL |
| `AnchorBtc.CommitIsStep` | go-abci-service/abci/abci.go:309-345 | in a run, a commit leaves this state and starts exactly the anchorings that the run starts |
| `AnchorBtc.DeliveryIsStep` | go-abci-service/abci/transactions.go:80-97 | in a run, a delivery leaves this state, and the BTC-As that a node then watches are those of the run |
| `AnchorApp.GetCalTxRange` | go-abci-service/abci/transactions.go:165-181 | all transactions of the range, in order; an error for an empty range or a failing search |
| `AnchorApp.FoundHolds` | go-abci-service/abci/transactions.go:169-179 | whatever the search yields for a number of the range is in the result |
| `AnchorRuns.StepKeepsBounds` | go-abci-service/abci/anchor.go:48-99 | every step keeps Begin and End at most LatestCal, that at most TxInt, and each of the three 0 or the number of a CAL |
| `AnchorRuns.RunKeepsBounds` | go-abci-service/abci/transactions.go:75-97 | the same over every run, with any number of goroutines in any interleaving |
| `AnchorRuns.AcceptedRangeHasCal` | go-abci-service/abci/transactions.go:165-181 | every range accepted for anchoring ends with a CAL |
| `AnchorRuns.RecordedWasDelivered` | go-abci-service/abci/anchor.go:80-92 | over every run, the recorded root comes from a delivered BTC-A, so an anchoring that finds its own root was answered |
| `AnchorRuns.LastRecordIsHeld` | go-abci-service/abci/anchor.go:107-108 | over every run, the root and the Bitcoin transaction held are those recorded last |
| `AnchorRuns.ConcludesByLastRecord` | go-abci-service/abci/anchor.go:82-96 | over every run, a waiting anchoring concludes without a reset if the last record was its own root and its message is queued, and else resets; it times out if and only if it was another root |
| `AnchorRuns.AnsweredIsNotReset` | go-abci-service/abci/anchor.go:80-96 | once the BTC-A with its root is recorded, an anchoring is not reset, whatever else happens but the record of another root |
| `AnchorRuns.PublicationHoldsOff` | go-abci-service/abci/anchor.go:77-78 | after a publication, and whatever happens but a reset, no commit starts an anchoring before the interval has passed |
| `AnchorRuns.ResetAnchorsAgain` | go-abci-service/abci/anchor.go:271-276 | over every run: whenever a goroutine resets the anchoring, the next commit of a synced core starts a new one, of a proper range, from the start of the range that failed to the latest CAL |
| `AnchorProgress.EpochSucceeds` | go-abci-service/abci/anchor.go:48-99 | an anchoring that is published, answered and recorded ends with Begin and End at the latest CAL of its start, next to any other goroutines |
| `AnchorProgress.UnsyncedFollows` | go-abci-service/abci/abci.go:321-335 | an unsynced node only moves End when an anchoring is due, and Begin follows with the BTC-A of the others |
| `AnchorProgress.HeightsAreOfTheirBlock` | go-abci-service/abci/transactions.go:91-100 | the heights kept of BTC-A and BTC-C are those of the blocks they are delivered in |
| `AnchorBtc.GatherTree` | go-abci-service/abci/anchor.go:58-69 | the tree of what the chain holds under the range's numbers; an error for an empty range or a failing search, a panic only when no root can be anchored |
| `AnchorBtc.BeginAnchoring` | go-abci-service/abci/anchor.go:48-79 | the first part of the goroutine does to the state what giving up, failing to queue or publishing does in a run, and it never panics in a bounded state |
| `AnchorBtc.ConcludeAnchoring` | go-abci-service/abci/anchor.go:86-97 | its last part does what concluding does in a run: a reset unless the recorded root is its own and the message is queued |
| `AnchorBtc.ConsumeBtcTxMsg` | go-abci-service/abci/anchor.go:102-124 | a BTC-A is recorded as in a run, and its row gets the ops around the first occurrence of the root; a panic exactly when there is none |
| `AnchorCoverage.AnyNumberCoverage` | go-abci-service/abci/anchor.go:48-99 | over every run of a synced node, with any number of anchorings at a time and BTC-As for any roots: if at each BTC-A the answered ranges, its own included, reach End, then at every moment each CAL up to Begin lies in a published range whose BTC-A was delivered |
| `AnchorCoverage.BtcACoversIfOnTime` | go-abci-service/abci/transactions.go:91-94 | that condition is exact for every BTC-A, whatever root it carries and whatever is in flight |
| `AnchorCoverage.CoveredUpToFrontier` | go-abci-service/abci/anchor.go:77-92 | without gaps, the answered ranges cover exactly the CALs up to the end of the furthest one |
| `AnchorEpochs.OneAtATimeCoverage` | go-abci-service/abci/anchor.go:48-99 | on a node that stays synced, with one anchoring in flight at a time and, between a timeout and the next publication, no BTC-A but a timely one: whenever no anchoring waits for its BTC-A, each CAL up to Begin lies in a published range whose BTC-A was delivered; ranges leave no gaps, and Begin <= End <= LatestCal |
| `AnchorEpochs.TimelyBtcAsKeepCoverage` | go-abci-service/abci/transactions.go:91-94 | that condition is exact too: when no anchoring waits, a BTC-A keeps the coverage if and only if no anchoring has timed out since the last publication, or the answered ranges reach End, or its root is that of the range that timed out |
| `AnchorEpochs.ConcludeStaysDisciplined` | go-abci-service/abci/anchor.go:86-96 | comparing roots and resetting repairs what BTC-As of other cores did to Begin while the anchoring waited |
| `AnchorSkips.UntimelyBtcA` | go-abci-service/abci/anchor.go:76-92 | two epochs time out, nothing is in flight, and the BTC-A of the first one arrives: a CAL of the second is skipped, in all further runs without the BTC-A of the second |
| `AnchorSkips.SkippedForGood` | go-abci-service/abci/anchor.go:272-276 | in no run whatever is a CAL before everything Begin can be reset to covered again, unless by the BTC-A of a range published before |
| `AnchorEpochs.FreshCoreIsDisciplined` | go-abci-service/abci/abci.go:41-51 | a core on an empty chain satisfies the invariants of these runs as soon as it is synced |
| `AnchorReplicas.RunAgreesWithReplay` | go-abci-service/abci/transactions.go:56-162 | gossip, sync flips, commits and anchoring goroutines change nothing that numbers and tags depend on |
| `AnchorReplicas.ReplicasAgree` | go-abci-service/abci/abci.go:280-290 | two cores with the same verified deliveries agree on the numbers, the mint heights and all emitted tags |
| `AnchorReplicas.UnverifiedMustBeHarmless` | go-abci-service/abci/transactions.go:61-65 | of a transaction that does not verify, a synced and an unsynced core make the same if and only if it changes nothing they agree on |
| `AnchorReplicas.EachNumberTagsOne` | go-abci-service/abci/transactions.go:21-24 | every number given out tags exactly one transaction, and no number is skipped |
| `AnchorRange.AnchoringFindsItsRoot` | go-abci-service/calendar/calendar.go:113-117 | whenever a bounded core anchors a range there is something to publish, and the root it cuts 16 bytes from has 32 |
| `AnchorRange.FoundIsTheLedgers` | go-abci-service/abci/transactions.go:165-181 | a search that fails or yields what the chain holds fails for a range or yields all of it |
| `AnchorRange.TxsInOrder` | go-abci-service/abci/transactions.go:169-179 | the transactions of a range are those of its parts, in order |
| `AnchorProofs.EveryCalIsAnchored` | go-abci-service/abci/anchor.go:48-99 | over every run as in OneAtATimeCoverage, whenever no anchoring waits: from the data of every CAL up to Begin, the ops of a range that the core published lead to a root that a delivered BTC-A carries |
| `AnchorProofs.EveryCalIsAlwaysAnchored` | go-abci-service/abci/anchor.go:48-99 | the same at every moment of a run as in AnyNumberCoverage |
| `CachedTable.Table.WriteBulk` | node-lib/lib/models/cachedProofState.js:312-397 | the first row of an ID stays, in the table and, when Redis takes it, in the cache; an insert of nothing is an error |
| `CachedTable.Table.ReadBulk` | node-lib/lib/models/cachedProofState.js:97-231 | the rows of a partly cached read and what it leaves in the cache; an exception exactly when Redis does not answer a read of some IDs |
| `CachedTable.RowsInOrder` | node-lib/lib/models/cachedProofState.js:97-148 | the order of the rows: first the answer of the database, in its order, then what was cached, in the order of the IDs |
| `CachedTable.LookupIsTheTables` | node-lib/lib/models/cachedProofState.js:97-231 | the lookup table made of a partly cached read has the database's row of an ID if and only if the cache does not contradict it, whichever of the possibly repeated IDs were cached |
| `CachedTable.ReadEqualsDatabase` | node-lib/lib/models/cachedProofState.js:97-231 | so on each ID it is the lookup table of a read without Redis, under the same condition and no other |
| `CachedTable.StepAgreesAt` | node-lib/lib/models/cachedProofState.js:312-397 | exactly which writes, cache writes, expiries and prunes leave cache and table in agreement on an ID, with many rows, several for one ID, and cache writes that come later or fail |
| `CachedTable.RunAgreesAt` | node-lib/lib/models/cachedProofState.js:312-397 | after any run they agree on an ID if and only if the last change to its rows was harmless |
| `CachedTable.SecondRowAfterFailure` | node-lib/lib/models/cachedProofState.js:354-397 | a failed cache write and a second row for the ID leave the table with the first row and the cache with the second |
| `CachedTable.SecondRowAfterExpiry` | node-lib/lib/models/cachedProofState.js:354-397 | so does, without any failure, a first row that expires in the cache before the second is written |
| `CachedTable.RunsAgree` | node-lib/lib/models/cachedProofState.js:97-397 | when all writes of a run carry one row per ID, as those of calendar rows do, table and cache hold the same rows throughout |
| `CachedTable.OneRowReadsAlike` | node-lib/lib/models/cachedProofState.js:97-397 | and any read in it is as good as one of the database |
| `CachedTable.RunsReadAlike` | node-lib/lib/models/cachedProofState.js:97-397 | after any run, asking the cache at one time and the database at a later one is reading the database alone on an ID if and only if what was cached then is what the database holds now |
| `ProofStateService.BatchesAreTheList` | node-proof-state-service/server.js:100-108 | the spliced batches are the list, in order, in pieces of 1 to the batch size |
| `ProofStateService.WriteRows` | node-proof-state-service/server.js:100-102 | a run of the first loop, stopped after any number of writes, and what it leaves in the table |
| `ProofStateService.AnnounceHashes` | node-proof-state-service/server.js:104-119 | a run of the second loop, stopped after any number of messages |
| `ProofStateService.ConsumeCalendarBatch` | node-proof-state-service/server.js:81-128 | a handler does a first part of its plan, and acknowledges exactly when that is the whole plan |
| `ProofStateService.CompleteRunAnnouncesAll` | node-proof-state-service/server.js:98-119 | a complete run writes all rows and announces all hash IDs, in order, in batches of 200 and 2500 of which only the last may be smaller, and announces nothing before all rows are written |
| `ProofStateService.PartThenAll` | node-lib/lib/models/cachedProofState.js:327-329 | writing a first part of the rows and then all of them is writing all of them |
| `ProofStateService.StoppedAttempt` | node-proof-state-service/server.js:98-128 | a stopped handler leaves the table as if a first part of the rows had been written |
| `ProofStateService.RedeliveryIsHarmless` | node-proof-state-service/server.js:81-128 | any number of stopped attempts and then a complete run leave the table as one complete run |
| `ProofStateService.ConsumeBtcMon` | node-proof-state-service/server.js:192-230 | the head row is written before the first announcement, and the message acknowledged exactly when all hashes are announced |
| `ProofStateService.ConfirmationAnnouncesAll` | node-proof-state-service/server.js:205-224 | a complete confirmation announces all hash IDs, in order, in batches of 2500 of which only the last may be smaller, after the head row |
| `BtcJoin.JoinedHashesShareAnchoring` | node-lib/lib/models/cachedProofState.js:64-74 | all hashes joined to a Bitcoin transaction lead to one and the same anchoring |
| `BtcJoin.BoundaryCalStaysWithFirst` | node-lib/lib/models/cachedProofState.js:354-372 | a CAL at the boundary of two ranges stays with the range whose row was written first |
| `BtcJoin.ReadsTablesIfFresh` | node-proof-gen-service/server.js:148-181 | the batch's lookups lead from a row to the rows the tables hold if and only if the caches do not contradict the tables on its way |
| `BtcJoin.FirstAnchorIsEveryones` | node-proof-gen-service/server.js:148-181 | taking the first anchor row's ID for the whole batch is right, with lookups that hold the tables' rows, if and only if that is so for every row |
| `BtcJoin.RightAfterRuns` | node-lib/lib/models/cachedProofState.js:312-397 | after any runs of the two tables and their caches: if and only if the last change to the rows on the way of each hash was harmless |
| `BtcJoin.BoundaryRowIsRead` | node-lib/lib/models/cachedProofState.js:354-397 | the input that fails: of a boundary CAL the batch reads the second range's row, though its hash is joined to the first's transaction |

## Left out

- Hash functions, signatures, JSON and random choice: SHA-256 is any function to 32 bytes; whether a transaction verifies, what its data parses to, the drawn index and new UUIDs are parameters. Of JSON only its effect on text that is not UTF-8 is modelled.
- Machine integers and slice capacities: integers are unbounded, slices are values or fixed-length arrays; overflow, the reuse of spare capacity by `append`, and a slice expression that reaches into spare capacity are not modelled.
- MerkleTools.BuildLevel: pads a level before its loop, where the source pads in the loop's first iteration; the goroutine for each pair is a call, because it is awaited before the next one starts.
- Merkle.NodeCount: the count is for promotion only; with duplication the list also holds the padding copies, as the contract of MakeTree says.
- MerkleTools.MerkleTree.MakeTree: demands that no leaf object occurs twice in the leaves, which AddLeaf and AddLeaves guarantee.
- Reset, GetLeaf, GetLeafCount and GetMerkleRoot of the Merkle tree: easy members.
- DetermineIP and GetSeededRandInt (go-abci-service/util/util.go): a function of the peer and a number below the argument.
- Ordering.SortDescending: which sorted order sort.Slice gives for equal keys is left open; its own algorithm is not modelled.
- Rewards.GetNodeRewardCandidates: the hash that the rewards contract makes of the list is a parameter.
- The npm packages of the Bitcoin services (merkle-tools, btc-bridge) are not part of this model: that the reported path is the transaction's Bitcoin Merkle path is a hypothesis of EndToEnd.
- EndToEnd: roots that are not hexadecimal before the hash's own, and anchored roots found at odd offsets, are excluded by hypothesis; `Calendar.HandedOutProof` and `BtcAnchor.TransactionIsRebuilt` say what happens then.
- ProofGen.ConsumeCalBatch: starts when the bulk rows are read; the time in a hash ID, the schema and whether the database answers are parameters. Log lines are left out.
- ProofGen.ConsumeBtcBatch: the same; the single rows are looked up in tables.
- AnchorApp.AnchorApplication.UpdateStateFromTx: the copies of keys in Redis are left out; undecodable input is a transaction of another type; the two signature lists, which the source keeps beside the saved state, are part of it here.
- AnchorApp.AnchorApplication.Commit: the encoding of the height is a parameter, and the monitors, audits and mints are started but not modelled further.
- AnchorBTC and the other goroutines: each atomic piece is a step of `AnchorRuns.Step`; waiting times, elections and failing calls are nondeterministic choices; assignments of single fields of one piece are not interleaved with other steps. `AnchorRuns.Config` leaves the root of a range open; `AnchorProofs` takes it from what the chain holds, which for a given number never changes. A panic of a goroutine, which ends the process, is no event of a run.
- ConsumeBtcMonMsg beyond its ops: the transaction search, the BTC-C broadcast, its waits and the anchor's URIs.
- CachedTable.Table.ReadBulk: runs in one piece as a method of the table; the events of `CachedTable.StoreRun` separate asking the cache, asking the database and filling the cache, and `RunsReadAlike` covers them. Rows carry no timestamps.
- Pruning by age and cache expiry: events that remove any rows.
- The agg_states bulk insert, the single-object reads and writes of btctx_states and btchead_states with their cache (which also caches misses), and the other message handlers of the proof-state service: not modelled.
- ProofStateService.ConsumeCalendarBatch: the order in which the query returns the hash IDs is a parameter, and each write or announcement happens entirely or not at all.
- RabbitMQ, Redis, Postgres, Tendermint RPC and HTTP, the aggregator's worker threads, Ethereum contracts, staking and audits, usage tokens, the API and the CLI: transport, timing or request checks.
- Validator transactions: their case is commented out in the source (go-abci-service/abci/transactions.go:69-74).
