# Verified model of the Project Ledger core

A Dafny model of the parts of the repository whose correctness depends on two pieces of code
agreeing, or on an argument about every run. `dafny verify dfyconfig.toml` checks all of it.

Digests are an abstract type and the node hash `h` is never interpreted. Theorems that need
collision resistance say so, as `Injective(h)` or `InjectiveHash(hash)`; all others hold for any
hash. Signatures are a pair of uninterpreted functions related by `Trusts`.

`Doubles` defines IEEE 754 binary64 rounding, to nearest with ties to even. The chain audit, the
number printers and the bill expansion are stated with it, so their results hold of what the code
computes and not only of exact arithmetic.

- **Merkle log** (`MerkleTree`, `Inclusion`, `Consistency`, `MerkleBatch`, `TransparencyLog`).
  The tree of RFC 9162 is built by recursive splitting and level by level; inclusion is checked
  top-down and bottom-up; consistency proofs come from a recursive prover and are checked by an
  iterative loop. All of these are proved to agree, acceptance is characterised exactly, and the
  log is proved append-only over every interleaving of appends and awaited signatures.
- **Receipt chain** (`Receipts`, `ChainAudit`, `ChainStore`, `ChainProtocol`, with `Sorting`).
  Any number of concurrent calls, each with its own key pair, retry against one compare-and-set
  store. Every reachable state is fork-free and linked, whatever the keys, and each call returns a
  receipt with its own content; if the verifier holds the keys, what the calls returned passes the
  auditor. The auditor in turn accepts only bodies that were signed (`AcceptedIsSigned`).
- **Canonical JSON**, RFC 8785 (`Numerals`, `NumeralReader`, `Unicode`, `JsonText`, `JsonRoundTrip`,
  `DoubleDigits`, `JsonPrinters`). A parser inverts the printer. The Go writer, on bytes, and the
  Rust writer, on characters, each with its own number and escape code, are proved to print the same
  text for the same value as long as integers held as such are at most 2^53, with keys by ascending
  UTF-16 code units.
- **Workflows** (`WorkflowGraph`, `StateMachine`, `Approval`). Kahn's algorithm yields the one
  greedy replay order, described on every run, with ids that repeat or not. The asynchronous state
  machine's queue is proved to make validate, guard, action and commit a critical section that never
  blocks by itself, and no change commits without the consent of its guard and the success of its
  action. The approval workflow is a run of that machine.
- **Encoders and arithmetic** (`Der`, `Checksums`, `PiiScan`, `Apportion`). A strict decoder undoes
  the DER encoder, the two checksums catch the typing errors they are for, the de-overlap pass
  and the bill expansion keep what they promise.

Where the code falls short of what its comments promise, the code is modelled as it is, the
shortfall is shown on an input, and the exact condition is proved:

- A parent recorded twice makes an acyclic workflow look cyclic
  (`RepeatedParentLooksCyclic`, `CoversIffAcyclic`).
- A root listed twice releases its children twice: a run with a cycle can be reported as acyclic
  (`CycleLooksAcyclic`), and a child replayed before its parent (`ChildBeforeParent`). When the flag
  is set is proved for every run (`CoversExactly`); as long as no root repeats, it means what it says
  (`CoversTruly`).
- Receipts with one id that differ make the graph depend on the order of the list, and nothing else
  does (`LastOfTwoCounts`, `GraphOrderFree`).
- Chain heights are doubles, and 2^53 is its own successor: two receipts at that height can pass
  the audit in one order and fail in the other (`OrderMattersAtTheEdge`). Below 2^53 the audit means
  consecutive heights and the order of the list is irrelevant (`ConsecutiveExactly`,
  `AuditOrderFree`, `OrderFreeExactly`).
- Above 2^53 the Rust integer path and the Go double path can print one number differently, 2^60 for
  one (`TwoTo60Differs`); they agree if and only if the double's digits denote the integer
  (`TextsAgreeExactly`), which up to 2^53 they always do (`SafeDigits`).
- Splitting a token total can lose a token once requests x tokens is past 2^53, without the bill
  being sampled or a residual being reported (`TokenLost`); the parts add up if and only if the last
  boundary comes out as the total (`SplitExactly`), and are otherwise one token short, or from 2^52
  tokens on one or two off (`SplitNearly`).
- The evidence-pack copy of the inclusion loop has no range check on `leaf_index`: it agrees with
  the others exactly for indexes in range (`PackAgreesExactly`), and takes a genuine proof at every
  index that differs by a multiple of 2^depth, if its leaf is at full depth (`PackAcceptsExactly`,
  `SameTurnsExactly`).
- `proveConsistency` does not end on a negative old size below the new one (`NegativeNeverEnds`).
- The history of published heads can be out of order of size (`HistoryMayBeOutOfOrder`); it is in
  order if signatures resolve in the order they were asked for (`OrderlyHistory`).
- A guard or action that awaits a further transition on its own machine never settles
  (`SelfAwaitNeverSettles`); nothing else blocks the queue (`QueueMoves`).
- `verifyConsistency` accepts any proof for an empty old tree (`ConsistencyExact`).
- Object identifier arcs from 2^31 on, and first arcs that need more than one octet, are encoded
  as something else; negative integers are encoded as nothing (`OidRoundTrip`, `IdentifiersLost`,
  `IntegerRoundTrip`).
- The de-overlap pass can drop a match that overlaps nothing it keeps (`FirstOfThreeLost`,
  `CoveredExactly`, `ScanLossless`).
- An IBAN with two unlike neighbours swapped can stay valid, a digit with a letter (`IbanSwap`).
- The memory store commits on a tenant it has never seen whatever height the caller claims, the
  other two stores do not (`StoresAgree`). States obtained from `load` never make that difference.

Classes model the objects that the repository updates in place: the log, the three stores, the
state machine, the approval workflow, the text and byte buffers. An asynchronous method is split
at its awaits, and its methods are proved to be the steps of the relation that the theorems about
all runs quantify over.

## Model

| member | source | states |
|---|---|---|
| `MerkleTree.FindSplit` | src/transparency-log/log.ts:86-87 | The doubling loop finds the largest power of two strictly below n. |
| `MerkleTree.SplitHalf` | src/transparency-log/log.ts:86-90 | The split point one level up is half the split point, which is what lets the recursive tree be read level by level. |
| `MerkleTree.RootLevel` | src/transparency-log/log.ts:79-91 | Pairing neighbours and promoting the odd last node leaves the recursively split root unchanged, for every non-empty list and every node hash. |
| `MerkleTree.SmallRoots` | src/transparency-log/log.ts:79-91 | The roots of the trees of up to three leaves, written out: the empty digest, the leaf itself, and left before right. |
| `MerkleTree.PathLevel` | src/transparency-log/log.ts:227-237 | The recursive audit path is the list of level siblings, with nothing for a promoted node: the path a level-by-level builder records. |
| `MerkleBatch.NextLevel` | src/merkle.ts:90-102 | The pairing loop computes one level up. |
| `MerkleBatch.BuildLevels` | src/merkle.ts:86-104 | The retained levels start at the leaves, follow from each other, and end in the root of recursive splitting. |
| `MerkleBatch.AuditPath` | src/merkle.ts:111-120 | The siblings met while climbing the levels are, entry for entry, the path of the recursive prover. |
| `MerkleBatch.BuildBatch` | src/merkle.ts:78-128 | Refuses exactly the empty batch; otherwise root and size are those of the recursive tree and every id maps to the proof of its last occurrence. |
| `MerkleBatch.BatchProofsVerify` | src/merkle.ts:78-181 | With distinct ids every receipt of a batch has a proof, and the loop and `climb` both accept it against the root. |
| `MerkleBatch.MerkleRoot` | src/data-lineage/dataset-attestation.ts:173-194 | The dataset root equals `rootFromLeaves` on every list, including the empty one. |
| `Inclusion.VerifyInclusion` | src/merkle.ts:142-181 | The index-arithmetic loop decides the level-by-level acceptance predicate, for any integer index and any path, undecodable entries included. |
| `Inclusion.UpIsDown` | src/transparency-log/log.ts:314-340 | Bottom-up index arithmetic and top-down descent give the same hash and leave the same part of the path, for every index below the size. |
| `Inclusion.VerifiersAgree` | src/transparency-log/log.ts:290-346 | The two inclusion verifiers give the same verdict on every index, size, path and root, and consume the same number of entries. |
| `Inclusion.PathLeadsToRoot` | src/merkle.ts:142-181 | A genuine leaf and path reach the root and use up the path, whatever the node hash is. |
| `Inclusion.OnlyPathLeadsToRoot` | src/merkle.ts:142-181 | With an injective node hash only the genuine leaf and the genuine path reach the root. |
| `Inclusion.InclusionExact` | src/transparency-log/log.ts:290-346 | Against the root of s, acceptance at index i holds if and only if i is in range, the leaf is the one at i, and the path is its own: completeness and position binding in one statement. |
| `Inclusion.InclusionComplete` | src/transparency-log/log.ts:217-240 | Every proof the provers emit is accepted by both verifiers, without any assumption on the hash. |
| `Consistency.VerifyConsistency` | src/transparency-log/log.ts:355-425 | The shift-and-parity loops decide the acceptance predicate, including the shortcuts for equal sizes and for an empty old tree. |
| `Consistency.SubProofEven` | src/transparency-log/log.ts:247-281 | SUBPROOF of an even old size over s is SUBPROOF of its half over the level above: what shifting the common low bits relies on. |
| `Consistency.SubProofOdd` | src/transparency-log/log.ts:247-281 | SUBPROOF of an odd old size is its last leaf as seed followed by that leaf's audit path in the new tree. |
| `Consistency.PathAscends` | src/transparency-log/log.ts:399-418 | The final loops turn the audit path of the last old node into both roots at once. |
| `Consistency.OnlyPathAscends` | src/transparency-log/log.ts:399-418 | With an injective hash, reaching the genuine new root forces every node used and makes the old chain end in the genuine old root. |
| `Consistency.ProofRebuilds` | src/transparency-log/log.ts:355-425 | The verifier rebuilds exactly the two roots from the prover's output and uses up the proof. |
| `Consistency.OnlyProofRebuilds` | src/transparency-log/log.ts:355-425 | With an injective hash nothing but the prover's output rebuilds the genuine new root, and then the old root is genuine. |
| `Consistency.ConsistencyComplete` | src/transparency-log/log.ts:247-425 | For all 0 <= m <= n <= size, `verifyConsistency` accepts what `proveConsistency` emits, against the roots of the first m and the first n leaves. |
| `Consistency.ConsistencyExact` | src/transparency-log/log.ts:355-425 | Against the root of s, an old size m > 0 is accepted if and only if m <= size, the old root is that of the first m leaves, and the proof is the prover's own; for m = 0 any root of 32 bytes and any proof is accepted. |
| `Consistency.ProofShape` | src/transparency-log/log.ts:247-281 | A proof is the audit path of one node of the level where the old size turns odd, headed by that node itself unless the old size is a power of two: the seed is omitted exactly then. |
| `Consistency.NoProofExactly` | src/transparency-log/log.ts:247-254 | No proof nodes are emitted if and only if the old tree is empty or the sizes are equal. |
| `Consistency.SplitIsPow2` | src/transparency-log/log.ts:86-87 | The split point is a power of two, below n and not below half of n. |
| `MerkleBatch.CheckPackProof` | src/evidence/evidence-pack.ts:265-302 | The inlined loop decides acceptance without a range check on the index. |
| `MerkleBatch.VerifyAllReceiptsInPack` | src/evidence/evidence-pack.ts:257-306 | What it returns is a subsequence of the receipts, and a receipt is in it if and only if its id has no proof or the inlined loop rejects its proof; it is empty if and only if every receipt has a proof that is accepted. |
| `MerkleBatch.NoFailureMeansIncluded` | src/evidence/evidence-pack.ts:257-306 | With an injective node hash and proofs for the size of the tree, a pack without failures has every receipt's leaf at a leaf of the tree, with the path of that leaf as its proof. |
| `MerkleBatch.PackAgreesExactly` | src/evidence/evidence-pack.ts:257-306 | The two verifiers give the same verdict on every leaf, path and root if and only if the index is in range: at every index out of range some path separates them. |
| `MerkleBatch.PackAcceptsAliases` | src/evidence/evidence-pack.ts:269-292 | What the missing range check lets through: on a tree of 2^z leaves a genuine proof is accepted at every index that differs by a multiple of the size, and the batch verifier refuses all of those. |
| `MerkleBatch.PackAliasesExactly` | src/evidence/evidence-pack.ts:269-292 | With an injective node hash and 2^z leaves, the copy accepts at index g + j x size if and only if leaf and path are those of position g. |
| `MerkleBatch.PackAcceptsExactly` | src/evidence/evidence-pack.ts:269-292 | On a tree of any size, with an injective node hash and leaf digests that are no node digests, the copy accepts at any integer index if and only if leaf and path are those of a position at which the loop takes the same turns. |
| `MerkleBatch.SameTurnsExactly` | src/evidence/evidence-pack.ts:269-292 | An index takes the turns of a position if and only if it is that position, or the position is promoted at no level and the two differ by a multiple of 2^depth. |
| `TransparencyLog.TransparencyLog.constructor` | src/transparency-log/log.ts:97-111 | A new log is empty and valid. |
| `TransparencyLog.TransparencyLog.Append` | src/transparency-log/log.ts:113-132 | Refuses exactly a leaf hash that is not 32 bytes and then changes nothing; otherwise the leaf and its entry go to the end, with the old size as index. |
| `TransparencyLog.TransparencyLog.BeginPublish` | src/transparency-log/log.ts:184-199 | The snapshot awaiting its signature is the size and root of the log at that moment. |
| `TransparencyLog.TransparencyLog.FinishPublish` | src/transparency-log/log.ts:199-214 | The snapshot, not the log as it is by then, is what goes into the history. |
| `TransparencyLog.TransparencyLog.ProveInclusion` | src/transparency-log/log.ts:217-240 | Succeeds exactly for 0 <= index < size <= log size, with the recursive audit path over the first `size` leaves. |
| `TransparencyLog.TransparencyLog.ProveConsistency` | src/transparency-log/log.ts:247-281 | Succeeds exactly for first <= second <= log size with first not negative or equal to second: with the SUBPROOF of RFC 6962 over the first `second` leaves, or the empty proof. |
| `TransparencyLog.InclusionInner` | src/transparency-log/log.ts:222-238 | The prover's recursion over absolute positions pushes exactly the audit path. |
| `TransparencyLog.ConsistencyInner` | src/transparency-log/log.ts:260-279 | The prover's recursion over absolute positions pushes exactly SUBPROOF(m, D[start:end], b). |
| `TransparencyLog.NegativeNeverEnds` | src/transparency-log/log.ts:260-279 | For a negative old size below the new one no call at any depth of the recursion is the base case and each goes left again. |
| `TransparencyLog.StepKeeps` | src/transparency-log/log.ts:113-214 | Every append, snapshot, resolved or rejected signature keeps the leaves as a prefix, keeps every published head, and keeps all heads genuine. |
| `TransparencyLog.RunKeeps` | src/transparency-log/log.ts:113-214 | The same between any two moments of a run. |
| `TransparencyLog.PublishedHeadsStay` | src/transparency-log/log.ts:113-214 | Append-only over every run: a published head stays published and stays the root of the first tree_size leaves of the log, however appends interleave with the awaited signatures. |
| `TransparencyLog.PublishedHeadsAreConsistent` | src/transparency-log/log.ts:184-281 | Any two published heads, ordered by size, are joined by a proof that `verifyConsistency` accepts. |
| `TransparencyLog.HistoryMayBeOutOfOrder` | src/transparency-log/log.ts:184-214 | A run in which a slow signature records the smaller head after the larger one: the history itself is not ordered by size. |
| `TransparencyLog.OrderlyHistory` | src/transparency-log/log.ts:184-214 | In every run in which signatures resolve in the order they were asked for, whichever are rejected, the history is in order of size. |
| `TransparencyLog.NoOverlapInOrder` | src/transparency-log/log.ts:184-214 | In particular in every run in which no two publications overlap. |
| `Receipts.AnySignatureValid` | src/verify.ts:148-169 | True exactly when some EdDSA entry, under a supplied key that is not empty, verifies over the body and its hash. |
| `Receipts.VerifyReceipt` | src/verify.ts:95-253 | `valid` holds exactly when the envelope, the hash, some signature, the time-stamp imprints and the chain link all check; each reported check is determined as well, the chain link also for a receipt that cannot be canonicalized. The expected height is the rounded sum. |
| `Receipts.ValidMeans` | src/verify.ts:95-253 | A receipt is valid if and only if, written out to the fields: the envelope is in shape, the hash is that of the body, some EdDSA entry verifies over body and hash under the supplied key of its kid, no time-stamp token is for other bytes, the height is a positive integer, and the genesis rule or the link to the previous receipt holds. |
| `Doubles.SuccessorExact` | src/verify.ts:191-191 | Adding 1 is exact for every integer below 2^53. |
| `Doubles.SuccessorStuck` | src/verify.ts:191-191 | 2^53 is its own successor. |
| `Doubles.NoConsecutive` | src/verify.ts:191-191 | From 2^53 on no double is one more than another. |
| `ChainAudit.VerifyChain` | src/verify.ts:277-338 | `valid`, `completeFromGenesis`, length, tenant and the first broken index, against the receipts in height order; an index is given exactly for a non-empty list that fails. |
| `ChainAudit.AuditMeans` | src/verify.ts:277-338 | On any list, `valid` holds if and only if, in height order, there is one tenant, every receipt passes its own checks, each height is the rounded successor of the one before, every link matches, and the genesis rule holds for the first. |
| `ChainAudit.AcceptedIsSound` | src/verify.ts:122-338 | Every receipt of an accepted list has the hash of its own fields, an EdDSA entry that verifies over them under the supplied key of its kid, a well-formed envelope and no mismatched imprint. |
| `ChainAudit.AcceptedIsSigned` | src/verify.ts:122-338 | Unforgeability: if the supplied keys verify signatures over bodies of some set only, the body of every receipt of an accepted list, with all its fields, is in that set. |
| `ChainAudit.ForgedIsRefused` | src/verify.ts:148-169 | A list with one receipt none of whose entries verifies is refused. |
| `ChainAudit.FirstTenantNamed` | src/verify.ts:277-338 | The tenant that is reported is that of the first receipt in the list that names one. |
| `ChainAudit.HeightOrderMeans` | src/verify.ts:295-295 | The audit runs in ascending order of height, a height that is no finite number counting as 2^53 - 1. |
| `ChainAudit.ConsecutiveExactly` | src/verify.ts:185-202 | With heights that are doubles, heights really are consecutive integers if and only if the list is valid and no receipt but the last has height 2^53 or more. |
| `ChainAudit.AuditMeaning` | src/verify.ts:277-338 | With heights that are safe integers, as the signer makes them, `valid` holds if and only if, in height order, there is one tenant, every receipt passes its own checks, heights are consecutive, every link matches, and the genesis rule holds for the first. |
| `ChainAudit.ChainOrder` | src/verify.ts:295-295 | A chain comes out of the sort in chain order, however its receipts are permuted. |
| `ChainAudit.AuditOrderFree` | src/verify.ts:277-338 | The verdict is the same for every permutation as long as no two receipts share a height of 2^53 or more; duplicate lower heights and malformed ones are rejected in every order. |
| `ChainAudit.OrderFreeExactly` | src/verify.ts:277-338 | If no two receipts of the list follow each other both ways, a list that passes in some order passes in every order if and only if no height repeats. |
| `ChainAudit.OrderMattersAtTheEdge` | src/verify.ts:185-338 | Two linked receipts at height 2^53 that pass in one order and fail in the other. |
| `ChainAudit.HashFixesPrefix` | src/verify.ts:122-214 | With the hash of the canonical body injective, equal hashes at two positions of linked lists from genesis force equal positions and identical bodies from genesis up to them. |
| `ChainAudit.AuditedHeadFixesHistory` | src/verify.ts:277-338 | Two receipt lists that `verifyChain` accepts as complete from genesis and whose last hashes are equal have the same length and identical bodies throughout, whatever their heights. |
| `ChainStore.StoresAgree` | src/chain-store.ts:57-313 | On heads written by `advance` the file and Postgres rules always agree, and the memory rule agrees with them if and only if the tenant has a head or the claimed height is 0. |
| `ChainStore.MemoryChainStateStore.Load` | src/chain-store.ts:91-100 | The stored head of the tenant, or the genesis state. |
| `ChainStore.MemoryChainStateStore.Advance` | src/chain-store.ts:102-123 | Commits exactly when the store's height rule allows it, and then replaces the tenant's head by the next state; a refused write changes nothing. |
| `ChainStore.PostgresChainStateStore.Load` | src/chain-store.ts:231-257 | The stored head of the tenant, or the genesis state. |
| `ChainStore.PostgresChainStateStore.Advance` | src/chain-store.ts:259-313 | Commits exactly when the store's height rule allows it, and then replaces the tenant's head by the next state; a refused write changes nothing. |
| `ChainStore.FileChainStateStore.Load` | src/chain-store.ts:58-60 | The stored head of the tenant, or the genesis state. |
| `ChainStore.FileChainStateStore.Advance` | src/chain-store.ts:62-78 | Commits exactly when the store's height rule allows it, and then replaces the tenant's head by the next state; a refused write changes nothing. |
| `ChainStore.BuiltPassesOwnChecks` | src/receipt.ts:77-113 | A freshly built receipt passes every check of `verifyReceipt` that does not concern its place in the chain. |
| `ChainStore.Interfere` | src/chain-store.ts:102-123 | Rival writers between a load and the matching advance move the height on by one each. |
| `ChainStore.SignReceiptWithStore` | src/receipt.ts:154-185 | Returns at the first attempt that no rival beats; throws exactly when maxRetries + 1 attempts are beaten, or at once when the loaded head leaves no safe height. What it returns carries the tenant and content it was given, the height and hash of the head it replaced, the hash of the body with these fields, and the one EdDSA entry of the caller over them; the stored head is then its height, hash and id. |
| `ChainProtocol.StepKeeps` | src/receipt.ts:154-185 | Every step of any number of concurrent calls, each with its own key pair, against any of the three stores, keeps the chain invariant and every receipt already committed. No key need be trusted. |
| `ChainProtocol.RunKeeps` | src/receipt.ts:154-185 | The invariant holds in every state of every run. |
| `ChainProtocol.AllowedMeansHead` | src/chain-store.ts:102-123 | Heights never repeat, so for a state that was once loaded the height test passes if and only if it is still the head, with the same hash. |
| `ChainProtocol.ForkFree` | src/receipt.ts:154-185 | In every reachable state each height from 1 to the stored height was returned by exactly one call, and no other height was returned, whatever keys the calls sign with. |
| `ChainProtocol.ChainIsLinked` | src/receipt.ts:77-185 | The receipts at heights 1 to h link to each other from genesis, each as one of the calls signed it, and the stored head holds hash and id of the last. |
| `ChainProtocol.ReturnedCarriesItsCall` | src/receipt.ts:77-185 | In every run what a call returns carries the tenant and content of that call, the hash of the body with all its fields, and one EdDSA entry, the caller's signature over them. |
| `ChainProtocol.AuditorAccepts` | src/verify.ts:277-338 | If the verifier holds the keys of the callers, in every reachable state the receipts returned for a tenant, in any order, pass `verifyChain` as complete from genesis, and the last of them is the stored head. |
| `ChainProtocol.OnlyReturnedCallsWin` | src/receipt.ts:163-179 | Every committed height belongs to a call that returned: a call that threw left nothing on a chain. |
| `Numerals.LayoutDigits` | go-sdk/canonicalize.go:237-276 | The four range rules as loops and slices. |
| `Numerals.ExponentExactly` | go-sdk/canonicalize.go:237-276 | An exponent is written if and only if the number is at least 10^21 or below 10^-6. |
| `Numerals.LayoutExamples` | go-sdk/canonicalize.go:191-276 | Numbers next to each bound of the rules, as ECMAScript writes them. |
| `Numerals.NumberToString` | go-sdk/canonicalize.go:191-276 | Refuses exactly NaN and the infinities; prints every other double by the layout. |
| `NumeralReader.LayoutReads` | go-sdk/canonicalize.go:237-276 | Each layout is a JSON numeral, and reading it finds exactly the parts the four rules describe, whatever text follows. |
| `NumeralReader.LayoutDenotes` | go-sdk/canonicalize.go:237-276 | Each of the four rules denotes exactly digits x 10^(n - k). |
| `NumeralReader.NumberRoundTrip` | go-sdk/canonicalize.go:191-276 | Reading a printed double gives that double back, up to the sign of zero. |
| `NumeralReader.NumberTextInjective` | rust-sdk/src/canonicalize.rs:40-104 | Distinct doubles print differently, the two zeros excepted. |
| `NumeralReader.IntegerLayout` | rust-sdk/src/canonicalize.rs:18-104 | Whatever normal digits and exponent denote an integer below 10^21, the layout is its plain decimal text. |
| `Unicode.Utf16Encode` | go-sdk/canonicalize.go:122-133 | The encoder emits the UTF-16 code units of the string. |
| `Unicode.Utf16Decodes` | go-sdk/canonicalize.go:122-133 | Below 0x10000 a character is its own unit; above, it takes a high and a low surrogate that decode to it. |
| `Unicode.CompareUTF16` | go-sdk/canonicalize.go:100-120 | For each sign of the result what it says of the code units: equal, or a proper prefix, or smaller or greater at the first difference. |
| `Unicode.KeyOrderMeans` | go-sdk/canonicalize.go:70-120 | A key is not above another if and only if they are equal or the first one's code units are a proper prefix, or smaller at the first difference. |
| `Unicode.Utf16Injective` | go-sdk/canonicalize.go:122-133 | Different strings have different code units. |
| `Unicode.KeyOrderTotal` | rust-sdk/src/canonicalize.rs:171-175 | The key order is total: transitive, and only equal strings compare as equal. |
| `Unicode.Utf8Injective` | rust-sdk/src/canonicalize.rs:107-109 | Different strings have different UTF-8 bytes. |
| `Unicode.Utf8Shortest` | rust-sdk/src/canonicalize.rs:107-109 | A character takes as few bytes as its value allows, with the lead and continuation bytes of UTF-8, and its payload bits give it back. |
| `JsonText.KeyOrderUnique` | go-sdk/canonicalize.go:70-80 | Sorting any enumeration of an object's keys gives the same list, so the output does not depend on map iteration. |
| `JsonText.KeysAscend` | go-sdk/canonicalize.go:70-120 | Of any two keys of an object the earlier one's UTF-16 code units are a proper prefix of the later one's, or smaller at the first difference. |
| `JsonText.PrintedMembers` | go-sdk/canonicalize.go:66-95 | What is printed for an object is, between braces, each member once, by ascending code units of its key, at stated places in the text. |
| `JsonText.PrintedArray` | go-sdk/canonicalize.go:55-66 | An array is printed between brackets, its elements in order and a comma apart. |
| `JsonText.PrintedString` | rust-sdk/src/canonicalize.rs:145-169 | A string is printed between quotation marks, the escape of each character in order. |
| `JsonText.PrintedLiterals` | go-sdk/canonicalize.go:36-52 | null, true, false and integers with their sign, as JSON has them. |
| `JsonText.EscapesAre` | rust-sdk/src/canonicalize.rs:151-168 | Every escape written out: seven of two characters, other control characters as four lower-case hexadecimal digits of their value, nothing else. |
| `JsonRoundTrip.QuoteReads` | rust-sdk/src/canonicalize.rs:145-169 | Reading an escaped string literal gives the string back. |
| `JsonRoundTrip.RoundTrip` | go-sdk/canonicalize.go:36-97 | The parser recovers every printable value, nested arrays and objects included, and stops at its end. |
| `JsonRoundTrip.IntegerPathWrites` | rust-sdk/src/canonicalize.rs:18-34 | The exact-integer path writes what the layout writes for the decimal of the same value, below 10^21 in magnitude. |
| `JsonRoundTrip.CanonPrints` | go-sdk/canonicalize.go:36-97 | Values that write the same decimals, held as integers or as digits and exponent, print the same. |
| `JsonRoundTrip.SameTextSameDecimals` | go-sdk/canonicalize.go:19-97 | Two values have the same canonical text, and the same bytes, if and only if they write the same decimals at the same places: the printer is injective. |
| `DoubleDigits.SafeDigits` | go-sdk/canonicalize.go:205-235 | The shortest digits that round to the double of an integer up to 2^53, and among those the closest, are the integer's own, and no others are. |
| `DoubleDigits.TextsAgreeExactly` | rust-sdk/src/canonicalize.rs:18-104 | The texts of an integer below 10^21 and of a double are the same if and only if the double's digits denote the integer. |
| `DoubleDigits.IntegerPathAgrees` | rust-sdk/src/canonicalize.rs:18-34 | Up to 2^53 the exact-integer path prints what the library's digits print for the double of the same value. |
| `DoubleDigits.TwoTo60Differs` | rust-sdk/src/canonicalize.rs:18-34 | No library double of 2^60 prints as the integer does: the digits 1152921504606847 with exponent 18 hold it and print as 1152921504606847000. |
| `DoubleDigits.SameTextSameValue` | go-sdk/canonicalize.go:19-97 | With integers held as such up to 2^53, two values have the same canonical text, and the same bytes, if and only if they are the same value, however their numbers are held. |
| `JsonPrinters.WriteString` | rust-sdk/src/canonicalize.rs:145-169 | The Rust string writer, with its own match on escapes, pushes exactly the quoted text. |
| `JsonPrinters.PushEscaped` | rust-sdk/src/canonicalize.rs:151-168 | The match arms and the four lower-case hexadecimal digits push the escape of the character. |
| `JsonPrinters.FormatF64` | rust-sdk/src/canonicalize.rs:40-104 | Rust's own number formatter refuses exactly NaN and the infinities and otherwise yields the text of the Go formatter. |
| `JsonPrinters.WriteValue` | rust-sdk/src/canonicalize.rs:111-143 | The Rust writer, with its own number formatter, fails exactly on a non-finite number and otherwise pushes the canonical text. |
| `JsonPrinters.WriteJSONString` | go-sdk/canonicalize.go:144-176 | The Go writer, working byte by byte on UTF-8, writes the bytes of the quoted text. |
| `JsonPrinters.WriteEscaped` | go-sdk/canonicalize.go:146-173 | The switch on one byte, with its two table lookups for control bytes, writes the escape of that byte. |
| `JsonPrinters.EscapeBytesOf` | go-sdk/canonicalize.go:144-176 | Escaping the bytes of a string is escaping its characters: no byte of a multi-byte character is touched. |
| `JsonPrinters.WriteCanonical` | go-sdk/canonicalize.go:36-97 | The Go writer fails exactly on a non-finite number or an unsupported type and otherwise writes the bytes of the canonical text. |
| `JsonPrinters.CanonicalizeBoth` | go-sdk/canonicalize.go:19-97 | For values whose integers are at most 2^53 the Go and Rust outputs are the same bytes if and only if the two inputs are the same value; beyond, if and only if they write the same decimals. |
| `WorkflowGraph.BuildGraph` | src/workflow-graph.ts:73-91 | Collects the recorded parents that are in the run, repeats included, and the missing ones, on every run: of receipts with one id the last counts. |
| `WorkflowGraph.KahnOrder` | src/workflow-graph.ts:94-121 | On every run, with any repeats of ids, the loop yields the whole trace: each step is the least by (chain_height, id) of the ids still waiting, and at the end none waits. A root waits once per receipt; any other id once, as soon as its counter, which each receipt with this id takes down by one whenever a parent is taken, is not above zero. |
| `WorkflowGraph.Visit` | src/workflow-graph.ts:111-119 | One turn of the inner loop takes the counter of a child down by one and puts its id into the ready list when it reaches zero: the list stays sorted and holds each id as often as it is still to be taken. No turn takes the algorithm away from its end. |
| `WorkflowGraph.LeftZero` | src/workflow-graph.ts:96-116 | With distinct ids a counter is zero if and only if no present parent is recorded twice and all of them are done. |
| `WorkflowGraph.ReconstructWorkflow` | src/workflow-graph.ts:48-138 | On every run: order, entry points, outputs, missing parents and the acyclic flag, which holds if and only if each id with a present parent occurs once and these ids can be listed so that none is blocked. With distinct ids that is: no cycle, and no receipt records a present parent twice. |
| `WorkflowGraph.RunMeans` | src/workflow-graph.ts:48-70 | The run has, at ascending places of the list, exactly the receipts of one workflow, the given one or that of the first receipt, and of one tenant, the given one or that of the first receipt of the workflow. |
| `WorkflowGraph.GraphMeans` | src/workflow-graph.ts:72-91 | Of the last receipt with an id the graph has its height and those recorded parents that are in the run, each as often as recorded. |
| `WorkflowGraph.IdOrderMeans` | src/workflow-graph.ts:97-101 | The replay order is by height, and at one height by ascending UTF-16 code units of the ids. |
| `WorkflowGraph.PartsMean` | src/workflow-graph.ts:121-138 | Roots record no parent of the run, leaves are recorded by no receipt of the run, and missing are the recorded parents that the run does not have. |
| `WorkflowGraph.CoversExactly` | src/workflow-graph.ts:93-122 | On every run, the order covers it if and only if each id with a present parent occurs once and these ids can be listed so that for each the distinct present parents, counted as often as they occur among the roots of the run and the ids before, are at least as many as the parents it records. |
| `WorkflowGraph.CoversTruly` | src/workflow-graph.ts:93-122 | As long as no root occurs twice, the order covers the run if and only if all ids are distinct, there is no cycle, and no receipt records a present parent twice. |
| `WorkflowGraph.CycleLooksAcyclic` | src/workflow-graph.ts:93-122 | Every run p, p, x, y with x and y each other's parents and p another parent of x has a cycle and is covered, so it is reported as acyclic. |
| `WorkflowGraph.ChildBeforeParent` | src/workflow-graph.ts:104-121 | Every run p, p, q, c with c below its parent q is covered by an order that has c before q. |
| `WorkflowGraph.TraceUnique` | src/workflow-graph.ts:93-121 | Graph and ids of the run determine the order, repeats or not. |
| `WorkflowGraph.TraceIsReplay` | src/workflow-graph.ts:93-121 | With distinct ids a trace is a greedy replay: an id waits if and only if all its present parents are done and none is recorded twice. |
| `WorkflowGraph.CoversIffAcyclic` | src/workflow-graph.ts:94-122 | With distinct ids the order covers the run if and only if the parent relation has no cycle and no receipt records a present parent twice. |
| `WorkflowGraph.RepeatedParentLooksCyclic` | src/workflow-graph.ts:94-122 | An acyclic run that is reported as cyclic, because a parent recorded twice is counted twice and released once. |
| `WorkflowGraph.ParentsFirst` | src/workflow-graph.ts:104-121 | Every parent in the order comes before its child. |
| `WorkflowGraph.ReplayUnique` | src/workflow-graph.ts:97-121 | There is exactly one greedy order. |
| `WorkflowGraph.GraphOrderFree` | src/workflow-graph.ts:73-91 | For every run: the graph is the same for every order of the list if and only if receipts with the same id agree in height and present parents, as they do when ids are distinct. |
| `WorkflowGraph.LastOfTwoCounts` | src/workflow-graph.ts:72-73 | Of two receipts with the same id the one listed last counts. |
| `WorkflowGraph.ReplayOrderFree` | src/workflow-graph.ts:48-121 | With workflow and tenant given, the replay order is the same for every permutation of the input that has the same graph, which is every permutation if receipts with the same id agree. |
| `StateMachine.StepKeeps` | src/workflows/state-machine.ts:74-121 | Every step of any interleaving keeps the invariant and only extends the history. |
| `StateMachine.OneAtATime` | src/workflows/state-machine.ts:74-86 | A call that has left the queue has only settled calls before it and only waiting ones after it: derived from the chaining, not assumed. |
| `StateMachine.HistoryIsPath` | src/workflows/state-machine.ts:74-121 | In every reachable state the history is a connected path of table entries from the initial state to the current one, and it records exactly the calls that succeeded, in call order. |
| `StateMachine.EveryChangeGranted` | src/workflows/state-machine.ts:88-121 | With the answers of guards and actions recorded along the run, under every interleaving: every change in the history was made by a call whose rule's guard, if it has one, answered true for that call before, and whose rule's action, if it has one, succeeded. |
| `StateMachine.CriticalSection` | src/workflows/state-machine.ts:47-57 | While a call is between validation and commit no other is, and state and history stay what it validated against. |
| `StateMachine.FailureChangesNothing` | src/workflows/state-machine.ts:88-121 | A call that fails, at validation, in its guard or in its action, changes nothing: in every run, from before it leaves the queue until it fails, state and history stay as they are across its awaits, whatever else is called meanwhile. |
| `StateMachine.QueueMoves` | src/workflows/state-machine.ts:74-121 | In every reachable state a call whose predecessors are all settled can go on, whatever its guard or action answers, and if any call is not settled there is such a call. |
| `StateMachine.Finishes` | src/workflows/state-machine.ts:74-121 | Between two moments without a new call no more than three steps per call are taken, so every call settles if guards and actions do. |
| `StateMachine.SelfAwaitNeverSettles` | src/workflows/state-machine.ts:74-121 | A call whose guard or action awaits a later call on the same machine stays in flight for the rest of the run, the later call stays queued, and state and history stand still. |
| `StateMachine.QueuedMachine.constructor` | src/workflows/state-machine.ts:59-64 | A new machine is in its initial state with an empty history. |
| `StateMachine.QueuedMachine.Transition` | src/workflows/state-machine.ts:74-86 | Queues the call behind all earlier ones and changes nothing else. |
| `StateMachine.QueuedMachine.Begin` | src/workflows/state-machine.ts:88-102 | Without a rule the call fails; with a guard it waits for the answer, else for the action; with neither the state becomes the target and the history gains that one change. Nothing else changes in any case. |
| `StateMachine.QueuedMachine.ResumeGuard` | src/workflows/state-machine.ts:100-110 | A guard that says no fails the call and leaves state and history alone; one that says yes leads to the action, or without one to the target state with exactly that change appended. |
| `StateMachine.QueuedMachine.ResumeAction` | src/workflows/state-machine.ts:109-120 | An action that fails fails the call and leaves state and history alone; one that succeeds leads to the target state with exactly that change appended. |
| `Approval.HistoryShape` | src/workflows/approval.ts:22-29 | Under every interleaving of submissions, expiry and resumed callers the history is a prefix of: pending to one outcome, that outcome to done. |
| `Approval.ApprovalIsEarned` | src/workflows/approval.ts:67-100 | An approved workflow has a prefix of decisions that are all approvals, by at least `threshold` different allowed approvers. |
| `Approval.RejectionIsCast` | src/workflows/approval.ts:67-100 | A rejected workflow has a rejection by an allowed approver. |
| `Approval.DecisionsAct` | src/workflows/approval.ts:67-100 | As many approvals as the threshold, with no rejection before them, have the approval queued; a first rejection has the rejection queued. |
| `Approval.EnoughApprove` | src/workflows/approval.ts:67-100 | As many approvals as the threshold, once nothing is left to run and with neither rejection nor expiry queued, have led from pending by way of approved to done. |
| `Approval.EarlyRejectBlocks` | src/workflows/approval.ts:87-94 | One rejection among fewer decisions than the threshold keeps the workflow from ever being approved. |
| `Approval.QuietMeansDone` | src/workflows/approval.ts:67-108 | Once nothing is left to run, the workflow is pending or done: no run is left standing at an outcome. |
| `Approval.ApprovalWorkflow.constructor` | src/workflows/approval.ts:51-57 | A new workflow is pending, with no decisions. |
| `Approval.ApprovalWorkflow.Decide` | src/workflows/approval.ts:67-100 | The synchronous part of `submit`: which refusals apply, in which order, what is recorded and what is queued. |
| `Approval.ApprovalWorkflow.ExpireNow` | src/workflows/approval.ts:103-108 | Queues the expiry only while pending. |
| `Approval.ApprovalWorkflow.ResumeCaller` | src/workflows/approval.ts:89-99 | After the outcome transition, "done" is queued only if it succeeded. |
| `Der.TlvRoundTrip` | src/tsa.ts:45-61 | Encoding fails exactly on contents of 2^24 bytes or more; otherwise a decoder that refuses every length not in shortest form recovers tag and content and stops at their end (X.690, sections 8.1.3 and 10.1). |
| `Der.DerWrap` | src/tsa.ts:54-61 | The filled buffer is tag, length, contents. |
| `Der.Concat` | src/tsa.ts:63-73 | The filled buffer is the arrays one after the other. |
| `Der.DerInteger` | src/tsa.ts:75-86 | The loop writes the base-256 digits, padded to stay positive. |
| `Der.IntegerRoundTrip` | src/tsa.ts:75-86 | The encoding decodes, as a minimal two's complement INTEGER (X.690, section 8.3), to the number if and only if the number is not negative. |
| `Der.DerIntegerBytes` | src/tsa.ts:88-95 | The loop strips leading zeros but one and pads to stay positive. |
| `Der.IntegerBytesRoundTrip` | src/tsa.ts:88-95 | Any non-empty byte string becomes a minimal INTEGER of the same big-endian value. |
| `Der.EncodingExamples` | src/tsa.ts:45-86 | Lengths next to each bound of the forms, and integers next to each bound of the padding. |
| `Der.PushGroups` | src/tsa.ts:118-123 | The loop of 32-bit mask and shift collects the base-128 groups of the arc as the machine sees it. |
| `Der.PopGroups` | src/tsa.ts:124-127 | Popping the stack writes the groups with their continuation bits. |
| `Der.DerOid` | src/tsa.ts:112-130 | Refuses exactly fewer than two arcs; otherwise encodes head octet and arcs. |
| `Der.OidRoundTrip` | src/tsa.ts:112-130 | An object identifier decodes to itself (X.690, section 8.19) if and only if its first two arcs are legal and fit one octet below 128 and every later arc is below 2^31. |
| `Der.IdentifiersLost` | src/tsa.ts:116-122 | 2.999 and 1.2.2147483648 do not survive. |
| `Der.Sha256Oid` | src/tsa.ts:132-132 | The encoder produces the published nine bytes of the SHA-256 identifier. |
| `Der.BuildTimeStampReq` | src/tsa.ts:139-155 | Assembles the request from its parts. |
| `Der.TimeStampReqRoundTrip` | src/tsa.ts:139-155 | A request is refused exactly for an imprint that is not 32 bytes; otherwise the strict decoder recovers version 1, the SHA-256 identifier, the imprint, the nonce and certReq, with nothing left over (RFC 3161, section 2.4.1). |
| `Der.RequestLayout` | src/tsa.ts:139-155 | Every byte of the request for an imprint of 32 bytes and a nonce of eight that needs no padding. |
| `Checksums.LuhnValid` | src/safety/pii-detector.ts:61-76 | Accepts exactly texts with 13 to 19 digits whose sum, with every second digit from the right doubled, less 9 when above 9, is 0 modulo 10. |
| `Checksums.LuhnIsDigitSum` | src/safety/pii-detector.ts:61-76 | The sum of the loop is that of the digits where every second one from the right is doubled, less 9 when above 9, and the last one is not. |
| `Checksums.DigitsMean` | src/safety/pii-detector.ts:62-62 | The digits of a text are its characters 0 to 9, in order; everything else is dropped. |
| `Checksums.LuhnCatchesChange` | src/safety/pii-detector.ts:61-76 | A valid card number with one digit replaced by another is never valid, separators or not. |
| `Checksums.LuhnSwap` | src/safety/pii-detector.ts:61-76 | Swapping two neighbouring digits of a valid number stays unnoticed if and only if they are equal or are 0 and 9. |
| `Checksums.Mod97` | src/safety/pii-detector.ts:90-91 | The remainder taken digit by digit is that of the whole number. |
| `Checksums.IbanValid` | src/safety/pii-detector.ts:79-93 | White space removed and upper-cased by the runtime's functions, it accepts exactly 15 to 34 letters and digits whose rearranged number is 1 modulo 97. |
| `Checksums.CheckDigits` | src/safety/pii-detector.ts:79-93 | The rule by which check digits are issued: an IBAN is valid if and only if its check digits are, up to a multiple of 97, 98 less the remainder of the number with 00 in their place. |
| `Checksums.LetterCodes` | src/safety/pii-detector.ts:88-89 | The digits 0 and 9 stand for themselves, A for 10 and Z for 35; 1B, 2M and 3X spell the same either way round. |
| `Checksums.StrippedMeans` | src/safety/pii-detector.ts:80-80 | What is removed is every white space, and nothing else. |
| `Checksums.IbanCatchesChange` | src/safety/pii-detector.ts:79-93 | A valid IBAN with one digit replaced by another digit, or one letter by another letter, is never valid. |
| `Checksums.IbanSwap` | src/safety/pii-detector.ts:79-93 | Swapping two neighbours of a valid IBAN stays unnoticed if and only if they are equal or are a digit and a letter spelling the same number either way (1B, 2M, 3X). For the fourth and fifth character, which rearranging puts at the two ends: two of a kind if and only if they are equal, a digit and a letter if and only if a stated linear combination of the rest is 0 modulo 97. Two different digits are always caught. |
| `Checksums.TenPowerNotOne` | src/safety/pii-detector.ts:90-91 | 10 generates the units modulo 97, so no IBAN is long enough for its first and last digit to weigh the same. |
| `PiiScan.ScanPii` | src/safety/pii-detector.ts:198-225 | The sort, the de-overlap loop and the tally. |
| `PiiScan.ScanMeaning` | src/safety/pii-detector.ts:200-225 | The findings are matches in order of start and pairwise disjoint, `count` is their number and the sum of the categories, nothing is reported only of nothing, and a confident finding is reported if and only if there was a confident match. |
| `PiiScan.KeptUnbeaten` | src/safety/pii-detector.ts:202-217 | No match that starts within a kept one is more confident than it, or as confident and longer. |
| `PiiScan.BetterOfTwo` | src/safety/pii-detector.ts:202-217 | Of two overlapping matches the one listed first is kept unless the other is more confident, or as confident and longer. |
| `PiiScan.TallyCounts` | src/safety/pii-detector.ts:218-219 | The tally of a category is the number of kept findings of that category. |
| `PiiScan.MatchGivesWay` | src/safety/pii-detector.ts:202-217 | Every match is kept, or leads to a kept one through a chain of matches each of which overlaps the one before and is at least as confident. |
| `PiiScan.ConfidenceKept` | src/safety/pii-detector.ts:202-217 | For every match something at least as confident is kept. |
| `PiiScan.CoveredExactly` | src/safety/pii-detector.ts:202-217 | The same match by match: one overlaps something kept if and only if it is not stranded. |
| `PiiScan.ScanLossless` | src/safety/pii-detector.ts:198-217 | Every match overlaps something kept if and only if, among the sorted matches, none is stranded: none of them is dealt with in a place that later passes to a match starting only where it has ended. The line of matches that hold a place is defined on the sorted matches alone. |
| `PiiScan.LosslessExactly` | src/safety/pii-detector.ts:202-217 | The same run along with the pass: nothing is lost if and only if no replacement started at or beyond the end of a match that shared its place. |
| `PiiScan.FirstOfThreeLost` | src/safety/pii-detector.ts:198-217 | A number of form us_ssn, one of form indian_aadhaar and an e-mail address in a row, at the offsets they have in 123-45-6789 1234 2000@example.com: only the last is kept, although the first overlaps nothing kept. |
| `Apportion.SplitIsExact` | src/cost/ingest.ts:198-201 | The parts sum to exactly the total, each is the mean rounded down or one more, and the first k of them sum to k x total / n rounded down: in doubles while n x total is at most 2^53, in exact arithmetic always. |
| `Apportion.SplitExactly` | src/cost/ingest.ts:198-201 | In doubles, for every safe total, the parts sum to the total if and only if floor(n x total / n), as computed, is the total. |
| `Apportion.SplitNearly` | src/cost/ingest.ts:198-201 | In doubles, whatever n: the parts of a total up to 2^52 sum to it or to one less, no part is negative, and each is at most two below and three above the mean rounded down. From there to 2^53 the sum is at most two below and one above, a part four below and five above. |
| `Apportion.SplitFallsShort` | src/cost/ingest.ts:198-201 | 199339 parts of 45248239363 sum to 45248239362. |
| `Apportion.ReceiptsFromWorkloads` | src/cost/ingest.ts:209-253 | The two passes with their running totals and receipt list, every operation rounded to a double. |
| `Apportion.LiveMeans` | src/cost/ingest.ts:214-214 | The rows that count are those with requests, each as often as given; with no others in the bill, the bill as it is. |
| `Apportion.CountMeans` | src/cost/ingest.ts:221-221 | In exact arithmetic a row of a sampled bill gets its share of the cap rounded half up, but at least one receipt. |
| `Apportion.ResidualMeans` | src/cost/ingest.ts:251-251 | In exact arithmetic the residual is half the mean drift of a request. |
| `Apportion.RequestsRecovered` | src/cost/ingest.ts:213-252 | Emitted receipts times scale is the number of requests up to one rounding; while that number is below 2^53 it is the true sum and there are at most max(cap, 0) receipts plus one a row, up to two roundings; the residual is 0 if and only if every row's rescaled count is its requests, and in exact arithmetic a fraction. |
| `Apportion.UnsampledExact` | src/cost/ingest.ts:213-252 | A bill within the cap, of fewer than 2^53 requests, is expanded one receipt a request, with scale 1 and residual 0. |
| `Apportion.TokensRecovered` | src/cost/ingest.ts:234-245 | Each row's receipts carry its app, and rescaled they are within half a scale, and one rounding, of its input and output tokens while receipts x share is at most 2^53; past that a share up to 2^52 adds at most one scale, and any safe share two. |
| `Apportion.TokensExactly` | src/cost/ingest.ts:234-245 | Within the cap a row's tokens are kept while requests x tokens is at most 2^53; any safe number of tokens is kept if and only if the last boundary comes out as the total, and is otherwise one or two off as `SplitNearly` says. |
| `Apportion.TokenLost` | src/cost/ingest.ts:213-252 | A bill of one row within the default cap, reported with scale 1 and residual 0, whose receipts lack a token. |
| `Apportion.Numbered` | src/cost/ingest.ts:242-244 | Receipts are numbered in order from 0, so no two share an identifier. |

## Left out

- TransparencyLog.TransparencyLog.ProveConsistency: the stack overflow of the endless recursion is an
  error like the thrown ones; sizes are integers.
- Consistency.VerifyConsistency: sizes are integers; the code does not check that they are.
- MerkleBatch.VerifyAllReceiptsInPack: index and size are integers; the code does not check that.
- ChainStore.SignReceiptWithStore: shows the retry loop against the memory store with given rivals;
  all interleavings, and the other stores, are covered by the step relation of `ChainProtocol`.
- ChainStore.FileChainStateStore.Advance: check and write are one step, as they are within one
  process, where nothing is awaited in between; races between processes are not modelled.
- ChainStore.PostgresChainStateStore.Advance: one atomic compare-and-set; SQL, row-level security,
  connections and commits whose outcome is unknown are not modelled.
- Numerals.NumberToString: the shortest digits and exponent are an input, since they come from
  library formatting; `DoubleDigits` states what the library promises of them.
- JsonPrinters.FormatF64: the digits and exponent of `{:e}` are an input as well.
- DoubleDigits.TwoTo60Differs: rounding has unbounded exponents, so overflow and subnormal doubles
  are outside it and outside every other use of `Doubles`.
- Checksums.IbanValid: what `\s` matches and how the runtime upper-cases are parameters.
- Apportion.ReceiptsFromWorkloads: requests and tokens are integers, and the number of receipts is
  counted exactly, since no list is longer than 2^53.
- Apportion.SplitExactly: totals beyond the safe integers, where the difference of two boundaries may
  round too.
- ChainStore.MemoryChainStateStore.Advance: stored heights are exact integers. Signing refuses to go
  beyond 2^53 - 1 (src/receipt.ts:57-66), so a caller of `advance` alone could get further.
- Der.DerInteger: numbers are unbounded integers, exact below 2^53 in the code; `parseInt` of the
  identifier's text is not modelled either.
- StateMachine.QueuedMachine.constructor: takes the table as a map keyed by pairs; the code builds
  it from a list, the last entry for a pair winning, and joins the two names with `=>` as the key.
- Approval.ApprovalWorkflow.Decide: whether the deadline has passed is an input.
- SHA-256, Ed25519, base64 and hex parsing: digests and signatures are opaque, and an entry that
  does not decode to 32 bytes is `None`.
- Object property names such as `__proto__` on records used as maps.
- Go's `json.Number`, written verbatim, and Go strings that are not valid UTF-8.
- The TypeScript canonicalizer, a wrapper around a package that is not part of this model.
- Regular-expression matching in `scanPii` and redaction: the matches are an input.
- Envelope shape guards, time-stamp tokens, telemetry, error texts, clocks and random ids: at most
  an abstract flag or part of a receipt's content.
- `verifyWorkflow`, `appendBatch`, `signReceipt` on the file store, evidence-pack assembly: wrappers
  around parts that are modelled.
- HSM and KMS drivers, HTTP clients, adapters, proxies, exporters, console and CLI: I/O.
- Policy templates, price and carbon tables, scoring: data.
