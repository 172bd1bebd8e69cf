# merkle: a Dafny model of a Merkle tree library

This project models the core of the `merkle` library, covering both the
TypeScript sources under `lib/` and the compiled JavaScript under `bin/`:

- **Building the tree.** `MerkleTree.create` takes a list of leaves, or a
  vector of leaves. It builds the node buffer with `buildMerkleNodes` of the
  pure-JavaScript hash.
- **The buffer layout.** The buffer is a heap of `2^depth` 32-byte slots:
  - slot 1 is the root;
  - the children of slot `k` are `2k` and `2k+1`;
  - the upper half holds the parents of leaf pairs;
  - slot 0 is never written.
- **Single-leaf proofs.** `prove` returns, for one leaf:
  - the leaf itself;
  - the leaf it is paired with;
  - the siblings on the path from the leaf parent to the root.

  `verify` folds such a proof back to a root.
- **Batch proofs.** `proveBatch` and `verifyBatch` do the same for several
  leaves at once. Both rely on two helpers:
  - `normalizeIndexes` turns the requested leaves into their sorted,
    distinct leaf pairs;
  - `mapIndexes` checks the indexes and maps each one to its request
    position.
- **Vectors.** `JsVector` is the vector of equal-length byte records that
  the tree stores its leaves in. It covers `length`, `byteLength`,
  `toBuffer`, `copyValue` and `fromBuffer`.

The hash algorithm is a parameter. `HashFn` is any function from bytes to a
32-byte digest. `digest(v)` is that function applied to `v`, and
`merge(a, b)` is that function applied to the concatenation `a + b`. Every
property below holds for every such function.

JavaScript behaviour the model writes out explicitly:

- **32-bit bit operations.** `>> 1`, `& 1` and `^ 1` act on the ToInt32
  conversion of their operand (`Int32.Shr1`, `Int32.And1`, `Int32.Xor1`).
- **`undefined`.** A read that misses is `None`. This covers a vector read
  out of range, an array index past the end, and `Map.get` of an absent key.
- **Exceptions.** A thrown exception is an `Err`:
  - the library's own `Invalid index` and `Repeating indexes` errors;
  - a `TypeError` when `undefined` reaches a hash or `.equals`;
  - a `RangeError` when a ranged `Buffer.from` reads past the node buffer.

Where the source works in place, the model does too:

- `buildMerkleNodes` fills an `array` of digests slot by slot.
- `copyValue` writes into a destination `array` of bytes.

Everything else in the core computes values, and is modelled as:

- functions;
- methods whose loops are proved equal to those functions.

Each of `prove`, `verify`, `proveBatch`, `verifyBatch`, `normalizeIndexes`,
`mapIndexes`, `toBuffer` and `fromBuffer` has both:

- a function that gives its meaning;
- a method that follows the source's loops step by step and is proved equal
  to it.

Module layout:

- `foundation.dfy`: `Wrappers` (Option, Result), `Int32` (32-bit bit
  operations, powers of two, the exact `ceil(log2 n)`) and `Bytes` (bytes,
  concatenation of records).
- `indexes.dfy`: `normalizeIndexes` and `mapIndexes`.
- `js_vector.dfy`: `JsVector`.
- `js_hash.dfy`: `merge`, `digest` and `buildMerkleNodes`.
- `merkle_tree.dfy`: the tree, `create`, `prove` and `verify`.
- `batch_prove.dfy` and `batch_verify.dfy`: `proveBatch` and `verifyBatch`.
- `batch_sound.dfy`: the batch round trip.
- `batch_levels.dfy`: the levels the second loop of `proveBatch` climbs,
  and why they stay strictly ascending.
- `batch_edges.dfy`: the cases the batch functions refuse, and the edge
  cases.
- `prove_fixes.dfy`: the two defects of `prove`, and a corrected `prove`.

The TypeScript and JavaScript versions behave the same wherever the core is
modelled. One builder, `buildMerkleNodes` in `bin/lib/hash/JsHash.js`, also
accepts a plain array of leaves; `JsHash.BuildMerkleNodesFromArray` models
that branch.

`verify` and `verifyBatch` are declared as returning `boolean`
(merkle.d.ts:47, 56), so a caller checking untrusted proofs would expect
`false` on a malformed proof. The code differs. It
throws a `TypeError` when a missing proof entry (`undefined`) reaches
`merge` or `equals`. `verifyBatch` also rethrows the `Invalid index` and
`Repeating indexes` errors of `mapIndexes` (`BatchEdges.VerifyBatchInvalid`,
`BatchEdges.VerifyBatchRepeating`). It returns `false` in two places only: a
node-list count other than the pair count
(`BatchEdges.VerifyBatchCountMismatch`), and a node or sibling missing in the
level loops (`BatchEdges.VerifyBatchStops`). The model follows the code, and
`ProveFixes` and `BatchEdges` show inputs where it throws.

## Model

| member | source | states |
|---|---|---|
| Int32.ToInt32 | lib/MerkleTree.ts:57-64 | the ToInt32 conversion the bit operators apply: the result is in `[-2^31, 2^31)`, is the input itself inside `[0, 2^31)`, and keeps the input's parity |
| Int32.Shr1 | lib/MerkleTree.ts:60-64 | `x >> 1` is `x / 2` (floor) for every `x` in `[0, 2^31)` |
| Int32.And1 | lib/MerkleTree.ts:138 | `x & 1` is `x % 2` for every integer `x` |
| Int32.Xor1 | lib/MerkleTree.ts:57 | `x ^ 1` flips the last bit for every `x` in `[0, 2^31)`: `x + 1` for even `x`, `x - 1` for odd `x` |
| Int32.CeilLog2 | lib/MerkleTree.ts:23 | `Math.ceil(Math.log2(n))` as the least `d` with `n <= 2^d` |
| Int32.CeilLog2Least | lib/MerkleTree.ts:23 | no `m` below `CeilLog2(n)` has `n <= 2^m` |
| Indexes.Sort | lib/MerkleTree.ts:243 | `indexes.sort` gives an ascending permutation of its input |
| Indexes.Insert | lib/MerkleTree.ts:243 | inserting into a sorted list keeps it sorted and adds exactly the new element |
| Indexes.Even | lib/MerkleTree.ts:246 | `index - (index & 1)` is the even number at or just below `index` |
| Indexes.Normalize | lib/MerkleTree.ts:242-249 | `normalizeIndexes`: the sorted requests, each rounded down to its even pair, without repeats; `Indexes.NormalizeSpec` states what it holds |
| Indexes.NormalizeIndexes | lib/MerkleTree.ts:242-249 | the loop of `normalizeIndexes` computes `Normalize` |
| Indexes.CollectEvens | lib/MerkleTree.ts:244-248 | the set-building loop over the sorted copy computes `Collect` |
| Indexes.CollectElements | lib/MerkleTree.ts:244-247 | an even number is collected iff some input element rounds down to it |
| Indexes.CollectAscending | lib/MerkleTree.ts:243-248 | from a sorted input the collected pairs are strictly ascending and end with the last element's pair |
| Indexes.NormalizeSpec | lib/MerkleTree.ts:242-249 | `normalizeIndexes` is strictly ascending, holds only even numbers, and holds `z` iff some requested index rounds down to `z` |
| Indexes.FirstInvalid | lib/MerkleTree.ts:257-259 | points at the first index that is below 0 or above `maxValid`, and is `None` iff every index is valid |
| Indexes.IndexMap | lib/MerkleTree.ts:251-265 | `mapIndexes`: the first invalid index is an `Invalid index` error, a repeat `Repeating indexes`, else the map of each index to its position; `Indexes.IndexMapSpec` states when it succeeds and what it maps |
| Indexes.MapIndexes | lib/MerkleTree.ts:251-265 | the loop of `mapIndexes` computes `IndexMap` |
| Indexes.PositionsKeys | lib/MerkleTree.ts:252-256 | the map's keys are exactly the input's elements, and each key maps to a position holding it |
| Indexes.PositionsSize | lib/MerkleTree.ts:262 | the map has as many entries as the input iff the input has no repeats |
| Indexes.PositionsOfDistinct | lib/MerkleTree.ts:253-255 | for distinct input each element maps to its own position |
| Indexes.IndexMapSpec | lib/MerkleTree.ts:251-265 | `mapIndexes` succeeds iff every index is in `[0, maxValid]` and none repeats; it then maps each requested index to its position, with one entry per index |
| Indexes.IndexMapFirstError | lib/MerkleTree.ts:253-262 | `mapIndexes` throws `Invalid index` naming the first invalid index, even past repeats |
| Indexes.IndexMapBound | lib/MerkleTree.ts:257-258 | any bound above every index gives the same map |
| JsVectors.New | lib/JsVector.ts:12-15 | `new JsVector(values)` succeeds iff there is a record; its element size is that of the first record, and it is well formed when all records share that size |
| JsVectors.ByteLengthIsFlatLength | lib/JsVector.ts:17-23 | `byteLength` is `length * elementSize`, the size of all records concatenated |
| JsVectors.ValueAt | lib/JsVector.ts:30-31 | reading record `i` gives it iff `0 <= i < length`, `undefined` otherwise |
| JsVectors.CopyInto | lib/vectors/JsVector.ts:37-41 | `Buffer.copy` writes as much of the record as fits from the offset on, returns that count and leaves every other byte alone |
| JsVectors.CopyValue | lib/vectors/JsVector.ts:37-41 | `copyValue` throws on a missing record or a negative offset; otherwise it returns the element size and the destination holds the record's bytes from the offset on, the rest unchanged |
| JsVectors.ToBuffer | lib/vectors/JsVector.ts:43-60 | `toBuffer(start, count)` returns record `start` itself for a count of one; otherwise it throws on a negative size, is empty for a non-positive count, throws on a missing record, and else is records `start .. start+count-1` concatenated, `count * elementSize` bytes |
| JsVectors.CopyRecords | lib/vectors/JsVector.ts:53-58 | the copy loop of `toBuffer` produces the records concatenated |
| JsVectors.Records | lib/vectors/JsVector.ts:17-27 | cutting a buffer into records of `elementSize` bytes gives records whose concatenation is the buffer |
| JsVectors.FromBuffer | lib/vectors/JsVector.ts:17-27 | `fromBuffer(buffer, size)` succeeds iff the size is positive and divides a non-empty buffer, yielding the buffer's records; a size that does not divide it is `PartialElement`, an empty buffer `NoElements`, a negative size `BadArrayLength` |
| JsVectors.Split | lib/vectors/JsVector.ts:20-25 | the records `fromBuffer` slices from `n * size` bytes: `n` records, each of `size` bytes |
| JsVectors.SliceRecords | lib/vectors/JsVector.ts:20-25 | the slicing loop of `fromBuffer` computes `Split` |
| JsVectors.FlattenSplit | lib/vectors/JsVector.ts:17-27 | concatenating the records `fromBuffer` cut gives back the buffer |
| JsVectors.SplitFlatten | lib/vectors/JsVector.ts:43-60 | cutting the concatenation of equal-size records gives back the records |
| JsVectors.FromBufferToBuffer | lib/vectors/JsVector.ts:17-60 | `fromBuffer(b, size).toBuffer()` is `b` again for every buffer `fromBuffer` accepts |
| JsHash.DigestOf | lib/hash/JsHash.ts:32-36 | `digest(value)` is the hash algorithm applied to `value`, a 32-byte digest |
| JsHash.Merge | lib/hash/JsHash.ts:38-43 | `merge(a, b)` is the digest of `a` followed by `b` in one hash context, modelled as the hash of `a + b`; every statement about the node buffer and about `verify` is made in terms of it |
| JsHash.WriteSlot | lib/hash/JsHash.ts:63 | `digest.copy(nodeBuffer, t * 32)` writes slot `t` when it exists and nothing otherwise |
| JsHash.BuildMerkleNodes | lib/hash/JsHash.ts:45-94 | the buffer has `2^depth` slots (`2^depth * 32` bytes), slot 0 is left as allocated, the upper half holds the merge of each leaf pair (an odd last leaf merged with 32 zero bytes, the rest with two of them), and every upper slot is the merge of its two children |
| JsHash.VectorLeafRow | bin/lib/hash/JsHash.js:56-69 | the leaf loop and the odd-leaf read leave the merge of each full leaf pair in the leaf-parent row and return the odd last leaf |
| JsHash.LeafBytes | lib/hash/JsHash.ts:57 | `leaves.toBuffer()` is all leaves concatenated |
| JsHash.OddLeaf | bin/lib/hash/JsHash.js:66-68 | the bytes after the last full pair are the odd last leaf, if any |
| JsHash.HashLeafPairs | lib/hash/JsHash.ts:58-64 | the pair loop merges leaves `2j` and `2j+1` into slot `parentCount + j` |
| JsHash.BuildMerkleNodesFromArray | bin/lib/hash/JsHash.js:35-95 | the JavaScript builder on a plain array of leaves gives the same buffer shape as on a vector |
| JsHash.ArrayLeafRow | bin/lib/hash/JsHash.js:44-55 | the array branch merges each full pair and returns the odd last leaf |
| JsHash.OddLeafParent | lib/hash/JsHash.ts:67-73 | an odd last leaf is merged with 32 zero bytes into the next slot |
| JsHash.PadLeafParents | lib/hash/JsHash.ts:76-82 | every remaining leaf-parent slot is the merge of two blocks of 32 zero bytes |
| JsHash.FoldNodes | lib/hash/JsHash.ts:85-91 | the fold from `parentCount - 1` down to 1 makes every upper slot the merge of its children, leaving the leaf-parent row and slot 0 alone |
| JsHash.FinishNodes | lib/hash/JsHash.ts:67-93 | the odd leaf, the padding and the fold together complete `Built` |
| MerkleTree.DepthBounds | lib/MerkleTree.ts:23 | for 2 to `2^26` leaves the depth is between 1 and 26 and the leaves fit `2^depth` |
| MerkleTree.ShapedBounds | lib/hash/JsHash.ts:48-53 | a tree of depth 1..26 has `2 * 2^(depth-1)` slots, at most `2^26` |
| MerkleTree.Create | lib/MerkleTree.ts:22-35 | `create` on an array of equal-size leaves has depth `ceil(log2 n)`, wraps the leaves in a vector and holds the buffer `buildMerkleNodes` promises for them |
| MerkleTree.CreateFromVector | lib/MerkleTree.ts:22-27 | `create` on a vector keeps that vector and builds its buffer |
| MerkleTree.CreateFromArray | bin/lib/MerkleTree.js:13-28 | the JavaScript `create` builds from the array itself and lets the constructor wrap it |
| MerkleTree.Root | lib/MerkleTree.ts:38-40 | `root` is node slot 1 of the buffer; `MerkleTree.ProveVerifies` and `BatchSound.BatchRoundTrip` verify against it |
| MerkleTree.GetLeaf | lib/MerkleTree.ts:42-44 | `getLeaf(i)` is leaf `i` for an index of a leaf and `undefined` otherwise |
| MerkleTree.ReadNode | lib/MerkleTree.ts:62 | `Buffer.from(nodes, j * 32, 32)` is slot `j` inside the buffer and a `RangeError` outside it |
| MerkleTree.ProveSpec | lib/MerkleTree.ts:48-68 | `prove(index)`: `Invalid index` below 0 or above the leaf count, else the leaf, leaf `index ^ 1` and the siblings read on the climb; `MerkleTree.ProveShape` states its shape |
| MerkleTree.Prove | lib/MerkleTree.ts:48-68 | the loop of `prove` computes `ProveSpec` |
| MerkleTree.SiblingLevel | lib/MerkleTree.ts:61-62 | the sibling of a node lies on the node's level |
| MerkleTree.AscendShape | lib/MerkleTree.ts:60-65 | climbing from a node on level `k` pushes the `k` siblings of its path and cannot throw |
| MerkleTree.LeafParentStart | lib/MerkleTree.ts:60 | `(index + nodeCount) >> 1` is slot `2^(depth-1) + index/2`, the parent of the leaf's pair |
| MerkleTree.ProveShape | lib/MerkleTree.ts:48-68 | for an index it accepts, `prove` returns `depth + 1` entries: the leaf, leaf `index ^ 1`, then the siblings of the path from the leaf parent up |
| MerkleTree.ProveClimb | lib/MerkleTree.ts:60-65 | the loop after the two leaves gathers the `depth - 1` path siblings |
| MerkleTree.ProveAscends | lib/MerkleTree.ts:48-60 | `prove` of an accepted index is the climb from its leaf parent |
| MerkleTree.MergeValues | lib/hash/JsHash.ts:38-43 | `merge` of two present values is their merge; `undefined` on either side throws a `TypeError` |
| MerkleTree.At | lib/MerkleTree.ts:139-140 | `proof[k]` is the entry when `k` is in range, `undefined` otherwise |
| MerkleTree.VerifySpec | lib/MerkleTree.ts:136-155 | `verify(root, index, proof)`: the first merge in the order `index & 1` gives, the fold from `(index + 2^(length-1)) >> 1` up, the comparison with the root, and a `TypeError` on an `undefined` entry; `MerkleTree.ShapedProofVerifies` states when it is true |
| MerkleTree.Verify | lib/MerkleTree.ts:136-155 | the loop of `verify` computes `VerifySpec` |
| MerkleTree.FoldStep | lib/MerkleTree.ts:145-151 | with the true sibling, one step of `verify` turns a node into its parent |
| MerkleTree.FoldAscent | lib/MerkleTree.ts:143-154 | the siblings of a path fold a node of the tree up to the root |
| MerkleTree.PairInRange | lib/MerkleTree.ts:54 | with an even leaf count both leaves of every pair exist |
| MerkleTree.HasPairLeaf | lib/MerkleTree.ts:56 | leaf `index ^ 1` exists for every leaf but the last leaf of an odd leaf list, and then both leaves of the pair exist |
| MerkleTree.LeafPairNode | lib/hash/JsHash.ts:58-64 | for any leaf whose pair leaf `index ^ 1` exists, the leaf parent is the merge of its pair |
| MerkleTree.FirstMerge | lib/MerkleTree.ts:138-141 | the first merge of `verify`, over the leaf and its pair in order, is the merge the build made |
| MerkleTree.VerifyStart | lib/MerkleTree.ts:136-155 | `verify` compares the root with the fold from the leaf parent, after the first merge |
| MerkleTree.LeafPairMerges | lib/MerkleTree.ts:138-143 | `verify` starts at the leaf parent the build stored |
| MerkleTree.LeafParentFolds | lib/MerkleTree.ts:143-154 | folding the path siblings from the leaf parent reaches the root |
| MerkleTree.ShapedProofVerifies | lib/MerkleTree.ts:136-155 | for a leaf whose pair leaf `index ^ 1` exists (every leaf but the odd last one), a proof of the shape `prove` gives verifies against the tree's root |
| MerkleTree.ProveVerifies | lib/MerkleTree.ts:48-68 | `verify(root, i, prove(i))` is `true` for every leaf `i` whose pair leaf `i ^ 1` exists, which is every leaf of an even leaf count and every leaf but the last of an odd one |
| BatchProve.Store | lib/MerkleTree.ts:94-104 | `array[k] = x` sets slot `k`, grows the array if needed and leaves every other slot alone |
| BatchProve.Holes | lib/MerkleTree.ts:77 | `new Array(n)` has `n` slots, all `undefined` |
| BatchProve.ProveBatchSpec | lib/MerkleTree.ts:70-132 | `proveBatch(indexes)`: the `mapIndexes` errors, else the leaf loop and the level loops over the normalized pairs; `BatchSound.ProveBatchShape` and `BatchEdges.ProveBatchAccepts` state what it returns |
| BatchProve.ProveBatch | lib/MerkleTree.ts:70-132 | `proveBatch` computes `ProveBatchSpec` |
| BatchProve.ProvePairsLoop | lib/MerkleTree.ts:76-131 | both loops of `proveBatch` compute `ProvePairs` |
| BatchProve.LeafLevelLoop | lib/MerkleTree.ts:83-109 | the leaf loop of `proveBatch` computes `LeafLevel` |
| BatchProve.ProveLevelsLoop | lib/MerkleTree.ts:112-129 | the level loops of `proveBatch` compute `ProveUp` |
| BatchVerify.Lookup | lib/MerkleTree.ts:214-223 | `v.get(k)` is the stored node iff `k` is a key |
| BatchVerify.VerifyLeaves | lib/MerkleTree.ts:166-200 | the leaf loop of `verifyBatch` records one pointer and one parent per pair |
| BatchVerify.LevelStep | lib/MerkleTree.ts:207-233 | one inner step keeps the pointer count and moves at least one position forward |
| BatchVerify.RootMatches | lib/MerkleTree.ts:236 | `verifyBatch` is `true` iff the rebuilt node 1 is the root; with node 1 missing it throws |
| BatchVerify.VerifyBatchSpec | lib/MerkleTree.ts:157-237 | `verifyBatch(root, indexes, proof)`: the `mapIndexes` errors against `2^depth - 1`, `false` for a node-list count other than the pair count, else both loops and the root comparison; `BatchSound.BatchRoundTrip` states when it is true |
| BatchVerify.VerifyBatch | lib/MerkleTree.ts:157-237 | `verifyBatch` computes `VerifyBatchSpec` |
| BatchVerify.VerifyPairsLoop | lib/MerkleTree.ts:166-236 | both loops of `verifyBatch` and the root check compute `VerifyPairs` |
| BatchVerify.VerifyLeavesLoop | lib/MerkleTree.ts:166-200 | the leaf loop of `verifyBatch` computes `VerifyLeaves` |
| BatchVerify.VerifyLevelsLoop | lib/MerkleTree.ts:202-234 | the level loops of `verifyBatch` compute `VerifyUp` |
| BatchSound.HalfLevel | lib/MerkleTree.ts:230 | the parent of a node on level `d` is on level `d - 1` |
| BatchSound.InnerNode | lib/MerkleTree.ts:207-230 | a node between the leaf parents and the root lies inside the buffer, and so does its parent |
| BatchSound.ParentOfPair | lib/hash/JsHash.ts:85-91 | a node and its sibling share a parent, and the parent is their merge in heap order |
| BatchSound.ProveUpAppends | lib/MerkleTree.ts:112-129 | the level loops of `proveBatch` only append to the node lists |
| BatchSound.ProveUpOk | lib/MerkleTree.ts:112-129 | the level loops of `proveBatch` cannot throw while every index is a node of the level |
| BatchSound.LonelyEntry | lib/MerkleTree.ts:121-124 | a node whose sibling is not on the level puts that sibling next in its node list |
| BatchSound.TreeStep | lib/MerkleTree.ts:207-232 | one verifier step at a node of the tree learns the tree's own parent |
| BatchSound.ClimbingStep | lib/MerkleTree.ts:207-233 | after one step the verifier has learnt the parent and the two loops remain in step |
| BatchSound.ClimbPaired | lib/MerkleTree.ts:116-120 | a node followed by its sibling is skipped by both sides |
| BatchSound.ClimbLonely | lib/MerkleTree.ts:119-124 | a node whose sibling is absent takes the sibling from its node list |
| BatchSound.ClimbLevel | lib/MerkleTree.ts:112-114 | at a level's end both sides go up to the parents they collected |
| BatchSound.ClimbTop | lib/MerkleTree.ts:203 | at level counter 0 the verifier holds the root |
| BatchSound.ClimbVerifies | lib/MerkleTree.ts:203-234 | when the verifier climbs in step with the prover, it rebuilds the root |
| BatchSound.EvenOfPair | lib/MerkleTree.ts:246 | both leaves of an even pair normalize to that pair |
| BatchSound.LeafLevelShape | lib/MerkleTree.ts:83-109 | the leaf loop of `proveBatch` opens one node list per pair with the unrequested leaf of the pair, and records the leaf parent |
| BatchSound.LeafLevelValues | lib/MerkleTree.ts:89-106 | the leaf loop stores every requested leaf at its request position |
| BatchSound.LeafPairStep | lib/MerkleTree.ts:169-200 | at a complete pair the verifier's leaf step recomputes the parent the prover recorded |
| BatchSound.LeavesVerify | lib/MerkleTree.ts:166-200 | the verifier's leaf loop recomputes every leaf parent of the request |
| BatchSound.RequestPositions | lib/MerkleTree.ts:251-265 | valid, distinct indexes map each index to its own position |
| BatchSound.LeafParentLevel | lib/MerkleTree.ts:108 | a leaf parent is on level `depth - 1` |
| BatchSound.PairOfRequested | lib/MerkleTree.ts:246 | the pair of a requested leaf is even, lies among the leaves, and has a requested leaf |
| BatchSound.PairsOfRequest | lib/MerkleTree.ts:242-249 | every normalized pair of a request lies among the leaves and has a requested leaf |
| BatchSound.LeafParentsLevel | lib/MerkleTree.ts:108 | the parents the leaf loop records are on level `depth - 1` |
| BatchSound.ProvePairsIs | lib/MerkleTree.ts:76-131 | both loops of `proveBatch` succeed once the level loops do |
| BatchSound.ProveBatchIs | lib/MerkleTree.ts:74-75 | `proveBatch` goes on to its loops once the indexes are mapped |
| BatchSound.RequestedValues | lib/MerkleTree.ts:77-106 | `proof.values[k]` is leaf `indexes[k]` |
| BatchSound.LeafLevelOut | lib/MerkleTree.ts:83-109 | the leaf loop hands the level loops one leaf parent per pair |
| BatchSound.PairNodeLists | lib/MerkleTree.ts:96-105 | each node list starts with the pair's unrequested leaf |
| BatchSound.ProveBatchShape | lib/MerkleTree.ts:70-132 | for valid, distinct indexes `proveBatch` succeeds with the tree's depth, the requested leaves in request order, and one node list per pair starting with its unrequested leaf |
| BatchSound.PairsFit | lib/MerkleTree.ts:242-249 | complete requested pairs make every normalized pair complete |
| BatchSound.VerifyBatchMapped | lib/MerkleTree.ts:161-164 | `verifyBatch` maps and normalizes the indexes before its loops |
| BatchSound.VerifyMappedTrue | lib/MerkleTree.ts:161-237 | mapped indexes, matching list counts and loops reaching the root make `verifyBatch` true |
| BatchSound.LeafingFrom | lib/MerkleTree.ts:166-200 | the two leaf loops start in step |
| BatchSound.LeafingStart | lib/MerkleTree.ts:70-109 | the verifier's leaf loop starts in step with the prover's on the prover's own proof |
| BatchSound.ClimbingFrom | lib/MerkleTree.ts:203-234 | the level loops start in step once the leaf loops agree |
| BatchSound.ClimbingStart | lib/MerkleTree.ts:112-129 | after the leaf loops, the level loops run in step up to the root |
| BatchSound.ProverLevels | lib/MerkleTree.ts:83-129 | for a non-empty request the prover's level loops start from the leaf parents and succeed |
| BatchSound.VerifyPairsTrue | lib/MerkleTree.ts:236 | loops of `verifyBatch` that end at the root return `true` |
| BatchSound.PairsVerify | lib/MerkleTree.ts:167-236 | the loops of `verifyBatch` over a batch proof reach the root |
| BatchSound.BatchRoundTrip | lib/MerkleTree.ts:70-237 | `verifyBatch(root, indexes, proveBatch(indexes))` is `true` for every non-empty request of distinct leaves whose pairs are complete |
| BatchLevels.Parents | lib/MerkleTree.ts:116-128 | the parents one pass over a level pushes: `siblingIndex >> 1` once per node, and once for a node with its sibling beside it |
| BatchLevels.ProveLevel | lib/MerkleTree.ts:116-125 | what one pass over a level does to the node lists: each node without its sibling beside it gets that sibling appended to list `i` |
| BatchLevels.ProveLevels | lib/MerkleTree.ts:112-129 | the second loop of `proveBatch` as one pass per level, each pass starting from the parents of the one before |
| BatchLevels.ProveUpPass | lib/MerkleTree.ts:116-128 | the rest of an inner loop from position `i` is the rest of the pass over the level, and the next level starts from the parents collected so far followed by those that rest pushes |
| BatchLevels.ProveUpIsLevels | lib/MerkleTree.ts:112-129 | the second loop of `proveBatch` is the level-by-level climb `ProveLevels`, for every level, counter and node lists |
| BatchLevels.NextParentAbove | lib/MerkleTree.ts:118-128 | in a strictly ascending level, the next node the loop handles after node `i` has a strictly higher parent |
| BatchLevels.ParentsAscending | lib/MerkleTree.ts:116-128 | one pass over a strictly ascending level pushes strictly ascending parents, no more than the nodes left, the first being the parent of the node the pass starts from |
| BatchLevels.LevelsAscending | lib/MerkleTree.ts:112-129 | every level the climb reaches from a strictly ascending level is strictly ascending and no longer than that level |
| BatchLevels.SiblingAdjacent | lib/MerkleTree.ts:118 | in a strictly ascending level, a node's sibling that is on the level stands right beside it: after an even node, before an odd one, where the pair was handled together one step earlier |
| BatchLevels.NormalizedBelow | lib/MerkleTree.ts:242-249 | the pairs `normalizeIndexes` gives for leaf indexes below `n` are below `n` too |
| BatchLevels.LeafLevelParents | lib/MerkleTree.ts:108 | the first loop of `proveBatch` pushes `(index + nodeCount) >> 1` for each pair, in order |
| BatchLevels.PairParentsAscending | lib/MerkleTree.ts:108 | strictly ascending even pairs give strictly ascending leaf parents |
| BatchLevels.LeafParentsAscending | lib/MerkleTree.ts:75-108 | for any request of leaves, the leaf parents handed to the second loop are strictly ascending |
| BatchLevels.ProverLevelsAscending | lib/MerkleTree.ts:75-129 | for any request of leaves, `proveBatch`'s loops are the leaf loop followed by the level-by-level climb from the leaf parents, and every level `k` of that climb is strictly ascending |
| BatchEdges.ProveBatchAccepts | lib/MerkleTree.ts:74-75 | `proveBatch` throws exactly when `mapIndexes` does, with the same error |
| BatchEdges.ProveBatchInvalid | lib/MerkleTree.ts:257-258 | `proveBatch` reports the first index outside the leaves |
| BatchEdges.ProveBatchRepeating | lib/MerkleTree.ts:262 | `proveBatch` refuses repeated valid indexes |
| BatchEdges.VerifyBatchInvalid | lib/MerkleTree.ts:161-162 | `verifyBatch` bounds the indexes by the `2^depth` leaf slots and reports the first outside them |
| BatchEdges.VerifyBatchRepeating | lib/MerkleTree.ts:162 | `verifyBatch` refuses repeated valid indexes |
| BatchEdges.VerifyBatchCountMismatch | lib/MerkleTree.ts:164 | a proof with a node-list count other than the pair count is `false` |
| BatchEdges.ListRunsOut | lib/MerkleTree.ts:207-226 | at a node without its sibling beside it, a node list already read to its end gives an `undefined` sibling, and the level loops stop |
| BatchEdges.MappedStops | lib/MerkleTree.ts:164-236 | once `mapIndexes` has succeeded and there is one node list per pair: when the leaf loop gets through and the level loops stop early, the rest of `verifyBatch` is `false` |
| BatchEdges.VerifyBatchStops | lib/MerkleTree.ts:203-236 | for every request `mapIndexes` accepts and every proof with one node list per pair: when the leaf loop gets through and the level loops stop early, `verifyBatch` is `false` and does not throw |
| BatchEdges.ShortProofFalse | lib/MerkleTree.ts:213-226 | in a tree of depth 2 or more, the proof of one even leaf whose node list holds only the other leaf of the pair runs out one level up, and `verifyBatch` is `false` |
| BatchEdges.ProveUpEmpty | lib/MerkleTree.ts:112-129 | the prover's level loops over an empty level change nothing |
| BatchEdges.VerifyUpEmpty | lib/MerkleTree.ts:203-234 | the verifier's level loops over an empty level learn nothing |
| BatchEdges.EmptyBatch | lib/MerkleTree.ts:70-237 | the empty request proves to an empty proof, and verifying it throws a `TypeError` at the root comparison |
| BatchEdges.EvenBatchRoundTrip | lib/MerkleTree.ts:70-237 | with an even leaf count, every non-empty request of distinct leaves round-trips through `proveBatch` and `verifyBatch` |
| BatchEdges.SingleRequest | lib/MerkleTree.ts:242-265 | a request of one leaf normalizes to its pair alone and maps the leaf to position 0 |
| BatchEdges.SingleShape | lib/MerkleTree.ts:70-132 | the batch proof of one leaf has the tree's depth and one node list, led by what the leaf's pair contributes |
| BatchEdges.OddLastBatchProof | lib/MerkleTree.ts:86-100 | with an odd leaf count, the batch proof of the last leaf has one node list, and it starts with `undefined`, the missing pair |
| BatchEdges.MissingLeafThrows | lib/MerkleTree.ts:182-195 | a pair with one requested leaf and no node for the other makes the leaf loop of `verifyBatch` throw a `TypeError` |
| BatchEdges.SingleMissingThrows | lib/MerkleTree.ts:157-200 | `verifyBatch` of one even leaf throws on a proof whose one node list starts with `undefined` |
| BatchEdges.OddLastBatchThrows | lib/MerkleTree.ts:70-200 | with an odd leaf count, `verifyBatch(root, [n-1], proveBatch([n-1]))` throws a `TypeError`, whatever the root |
| ProveFixes.ProveAtLength | lib/MerkleTree.ts:49-50 | `prove(values.length)` is accepted; its first entry is `undefined`, and with a full leaf row it throws a `RangeError` instead |
| ProveFixes.OddLastLeafThrows | lib/MerkleTree.ts:56-58 | with an odd leaf count, the proof of the last leaf has `undefined` as its second entry, and `verify` throws on it whatever the root |
| ProveFixes.OddLastProof | lib/MerkleTree.ts:56-58 | the proof of an odd last leaf has `depth + 1` entries, the second `undefined` |
| ProveFixes.LastOfOdd | lib/MerkleTree.ts:57 | the last index of an odd count is even and pairs with the count itself |
| ProveFixes.MissingPairThrows | lib/MerkleTree.ts:138-141 | `verify` throws on a proof of an even index whose second entry is `undefined` |
| ProveFixes.PairedLeaf | lib/hash/JsHash.ts:67-73 | the leaf the build paired a leaf with: its pair, or 32 zero bytes for an odd last leaf |
| ProveFixes.LeafClimb | lib/MerkleTree.ts:60-65 | the climb from a leaf parent yields `depth + 1` entries led by the two given |
| ProveFixes.ProveIntendedShape | lib/MerkleTree.ts:48-68 | the corrected `prove` returns the leaf, the leaf it was paired with, and the path siblings |
| ProveFixes.ProveIntendedSpec | lib/MerkleTree.ts:49-50 | the corrected `prove` rejects exactly the indexes of no leaf, with `Invalid index` |
| ProveFixes.PairedFirstMerge | lib/hash/JsHash.ts:58-73 | over the leaf and the leaf it was paired with, the first merge of `verify` is the stored leaf parent |
| ProveFixes.PairedProofVerifies | lib/MerkleTree.ts:136-155 | a proof of the corrected shape verifies against the root |
| ProveFixes.ProveIntendedVerifies | lib/MerkleTree.ts:136-155 | `verify(root, i, proveIntended(i))` is `true` for every leaf, an odd last leaf included |

## Left out

- Non-integer indexes: the `Number.isInteger` checks of `mapIndexes` and the
  `Invalid index` thrown for fractional numbers. Indexes are modelled as `int`.
- Floating point: `Math.ceil(Math.log2(n))` is modelled as the exact
  `CeilLog2`. This assumes `Math.log2` is exact at powers of two and
  rounds no other leaf count up to `2^26` across an integer.
- Trees deeper than 26 (more than `2^26` leaves) are not modelled. The
  model bounds the depth by 26 (`JsHash.MAX_DEPTH`) because the fold of
  `buildMerkleNodes` shifts the byte offset `i * 32` left by one, and
  that 32-bit shift stays exact only up to that depth.
- Single-leaf trees are not modelled. Their depth 0 makes `parentCount`
  one half, and the node buffer is then not a heap.
- MerkleTree.Create: requires every leaf to have the first leaf's length.
  `toBuffer` places record `i` at byte `i * elementSize`, so a longer leaf
  is overwritten by the next one and a shorter one leaves zero bytes; leaves
  of unequal length are not modelled.
- Buffer aliasing: `toBuffer` with a count of one returns the stored record
  itself rather than a copy, and `fromBuffer` slices share the source's
  memory. The model works on byte values, so later writes through such a
  shared buffer are not captured.
- WebAssembly vectors and hashes (`WasmVector`, `wasmBlake2s`) are not
  modelled. Neither are the internals of the hash algorithms (sha256,
  blake2s), which `HashFn` abstracts. `JsHash.Merge` feeds `a` and then `b`
  to one hash context; the model takes that to be the hash of `a + b`.
- `createAsync` adds nothing but a promise around `create`.
- Rejection of tampered proofs is not modelled. This covers a flipped proof
  byte, a wrong root, and `verifyBatch` against a different index set.
  Showing that `verify` refuses these needs collision resistance of the
  hash, which no property over an arbitrary `HashFn` can state.
- Proofs whose `depth` is negative or huge, and proofs of the wrong types,
  are not modelled. `BatchProof.depth` is a `nat`, and `Pow2(depth)` is exact
  where the source's `2 ** depth` would round.
- MerkleTree.VerifySpec: takes `2 ** (proof.length - 1)` exactly. The
  source adds it to `index` in floating point, so for proofs of 54 or more
  entries the sum rounds (`3 + 2^53` becomes `2^53 + 4`, and the fold then
  starts at node 2, not node 1). From 1025 entries the power is `Infinity`,
  whose 32-bit conversion is 0. `prove` never returns more than 27 entries,
  so no statement about its proofs depends on this.
- MerkleTree.Verify: computes `MerkleTree.VerifySpec`, with the same exact
  power of two.
- `Indexes.Sort` is specified by its result (sorted, a permutation). The
  engine's `Array.prototype.sort` algorithm is not modelled.
- That `proveBatch` never sends a node twice is not stated. The round trip
  states instead that every node the verifier needs is in its list.
- MerkleTree.ProveVerifies: requires that leaf `index ^ 1` exists
  (`MerkleTree.HasPairLeaf`: every leaf but the last leaf of an odd leaf
  list). That last leaf's proof makes `verify` throw (see Findings).
- BatchSound.BatchRoundTrip: requires every requested pair to be complete
  (`WholePairs`). With an odd leaf count a request with the last leaf puts
  `undefined` into that pair's node list, and `verifyBatch` throws hashing
  it, the batch form of the second finding. `BatchEdges.OddLastBatchThrows`
  proves the throw for the request of the last leaf alone; there is no
  corrected `proveBatch`, and requests mixing it with other leaves are not
  covered.

## Findings

| source | as written | input that shows it | evidently intended | confidence | as-written member | corrected member |
|---|---|---|---|---|---|---|
| lib/MerkleTree.ts:50 (bin/lib/MerkleTree.js:42-43) | `prove` refuses only `index > values.length`, so `index == values.length` passes the check | any tree, `index = values.length`: the proof starts with `undefined`, and when the leaf count is a power of two the read of the sibling node past the buffer throws a `RangeError` | refuse every index that is not a leaf, `index >= values.length`, with `Invalid index` | not executed | ProveFixes.ProveAtLength | ProveFixes.ProveIntendedSpec |
| lib/MerkleTree.ts:57 against lib/hash/JsHash.ts:67-73 | the build merges an odd last leaf with 32 zero bytes, but `prove` reads its pair as leaf `index ^ 1`, which does not exist, and returns `undefined` there | any tree with an odd leaf count, e.g. three leaves, `index = 2`: `verify(root, 2, prove(2))` throws a `TypeError` in `merge` | the proof of an odd last leaf carries the zero bytes it was merged with and verifies | not executed | ProveFixes.OddLastLeafThrows | ProveFixes.ProveIntendedVerifies |
