/** The software hash provider: `digest`, `merge` and the construction of
    the node buffer, a 1-indexed binary heap of `2^depth` digest slots.
    The hash algorithm itself is a parameter `h`. */
module JsHash {
  import opened Wrappers
  import opened Bytes
  import opened Int32
  import JsVectors

  const DIGEST_SIZE: nat := 32

  /** The fold addresses slot `i` through the byte offset `(i * 32) << 1`,
      a 32-bit shift: it is exact while the tree has depth 26 or less. */
  const MAX_DEPTH: nat := 26

  function Zeroes(n: nat): Bytes
  {
    seq(n, _ => 0)
  }

  type Digest = s: Bytes | |s| == DIGEST_SIZE witness Zeroes(DIGEST_SIZE)

  /** A hash algorithm (sha256, blake2s256): any input to a 32-byte digest. */
  type HashFn = Bytes -> Digest

  /** `NULL_BUFFER`: 32 zero bytes. */
  function NullBuffer(): Digest
  {
    Zeroes(DIGEST_SIZE)
  }

  /** `digest(value)`: one hash context fed `value`. */
  function DigestOf(h: HashFn, value: Bytes): Digest
  {
    h(value)
  }

  /** `merge(a, b)`: one hash context fed `a`, then `b`. Modelled as `h`
      of the concatenation: this assumes two `update` calls on one context
      give the digest of one `update` with `a + b`, as they do for the
      streaming hashes the library names. */
  function Merge(h: HashFn, a: Bytes, b: Bytes): Digest
  {
    h(a + b)
  }

  /** What the build stores in leaf-parent slot `parentCount + j`: the
      merge of leaves `2j` and `2j+1`; an odd last leaf merged with zero
      bytes; `merge(ZERO, ZERO)` once the leaves run out. */
  function LeafParent(h: HashFn, leaves: seq<Bytes>, j: nat): Digest
  {
    if 2 * j + 1 < |leaves| then Merge(h, leaves[2 * j], leaves[2 * j + 1])
    else if 2 * j < |leaves| then Merge(h, leaves[2 * j], NullBuffer())
    else Merge(h, NullBuffer(), NullBuffer())
  }

  /** Slot `i` holds the merge of its children `2i` and `2i+1`. */
  ghost predicate MergedAt(h: HashFn, nodes: seq<Digest>, i: nat)
    requires 2 * i + 1 < |nodes|
  {
    nodes[i] == Merge(h, nodes[2 * i], nodes[2 * i + 1])
  }

  /** Every slot of the upper half is the merge of its children. */
  ghost predicate HeapInvariant(h: HashFn, nodes: seq<Digest>, parentCount: nat)
  {
    |nodes| == 2 * parentCount &&
    forall i :: 1 <= i < parentCount ==> MergedAt(h, nodes, i)
  }

  /** The leaf-parent row `[parentCount, 2 * parentCount)` is as `LeafParent` says. */
  ghost predicate LeafRow(h: HashFn, nodes: seq<Digest>, leaves: seq<Bytes>, parentCount: nat)
  {
    |nodes| == 2 * parentCount &&
    forall j :: 0 <= j < parentCount ==> nodes[parentCount + j] == LeafParent(h, leaves, j)
  }

  /** What `buildMerkleNodes(depth, leaves)` returns: `2^depth` slots, slot 0
      left as allocated (zero bytes), the leaf-parent row, and every upper
      slot the merge of its children. */
  ghost predicate Built(h: HashFn, nodes: seq<Digest>, depth: nat, leaves: seq<Bytes>)
  {
    1 <= depth &&
    |nodes| == Pow2(depth) &&
    nodes[0] == NullBuffer() &&
    LeafRow(h, nodes, leaves, Pow2(depth - 1)) &&
    HeapInvariant(h, nodes, Pow2(depth - 1))
  }

  /** `digest.copy(nodeBuffer, t * 32)`: a copy past the end writes nothing. */
  method WriteSlot(nodes: array<Digest>, t: nat, d: Digest)
    modifies nodes
    ensures nodes[..] == if t < nodes.Length then old(nodes[..])[t := d] else old(nodes[..])
  {
    if t < nodes.Length {
      nodes[t] := d;
    }
  }

  /** `buildMerkleNodes` over a vector: the leaf pairs are read as slices of
      `2 * elementSize` bytes of `leaves.toBuffer()`. */
  method BuildMerkleNodes(h: HashFn, depth: nat, leaves: JsVectors.JsVector)
    returns (nodes: array<Digest>)
    requires 1 <= depth <= MAX_DEPTH
    requires JsVectors.WellFormed(leaves)
    ensures fresh(nodes)
    ensures Built(h, nodes[..], depth, leaves.values)
    ensures |Flatten(nodes[..])| == Pow2(depth) * DIGEST_SIZE
  {
    var nodeCount := Pow2(depth);
    nodes := new Digest[nodeCount](_ => NullBuffer());
    var parentCount := nodeCount / 2;
    assert parentCount == Pow2(depth - 1);
    var t, lastLeaf := VectorLeafRow(h, nodes, parentCount, leaves);
    FinishNodes(h, nodes, depth, t, lastLeaf, |leaves.values|, leaves.values);
    FlattenLength(nodes[..], DIGEST_SIZE);
  }

  /** The vector branch up to the odd leaf: the merged leaf pairs from slot
      `parentCount` on, and the last leaf when the leaf count is odd. */
  method VectorLeafRow(h: HashFn, nodes: array<Digest>, parentCount: nat, leaves: JsVectors.JsVector)
    returns (t: nat, lastLeaf: Option<Bytes>)
    requires nodes.Length == 2 * parentCount && parentCount >= 1
    requires JsVectors.WellFormed(leaves)
    modifies nodes
    ensures t == parentCount + |leaves.values| / 2
    ensures lastLeaf == if |leaves.values| % 2 == 1 then Some(leaves.values[|leaves.values| - 1]) else None
    ensures nodes[0] == old(nodes[0])
    ensures forall j :: parentCount <= j < t && j < nodes.Length ==>
      nodes[j] == LeafParent(h, leaves.values, j - parentCount)
  {
    ghost var L := leaves.values;
    var n := JsVectors.Length(leaves);
    var evenLeafCount := if And1(n) == 1 then n - 1 else n;
    var size := leaves.elementSize;
    var lBuffer := LeafBytes(leaves);
    var s;
    s, t := HashLeafPairs(h, nodes, lBuffer, size, parentCount, evenLeafCount, L);
    lastLeaf := OddLeaf(lBuffer, size, s, evenLeafCount, n, L);
  }

  /** `leaves.toBuffer()`: every record, in order. */
  method LeafBytes(leaves: JsVectors.JsVector) returns (lBuffer: Bytes)
    requires JsVectors.WellFormed(leaves)
    ensures lBuffer == Flatten(leaves.values)
  {
    ghost var L := leaves.values;
    var flat := JsVectors.ToBuffer(leaves, 0, None);
    assert L[0..|L|] == L;
    if |L| == 1 {
      assert L[..0] == [];
      assert Flatten(L) == Flatten([]) + L[0];
    }
    lBuffer := flat.value.value;
  }

  /** `lBuffer.slice(sOffset)` once the pairs are done: the last leaf when
      the leaf count is odd. */
  method OddLeaf(lBuffer: Bytes, size: nat, s: nat, evenLeafCount: nat, n: nat,
                 ghost L: seq<Bytes>) returns (lastLeaf: Option<Bytes>)
    requires Uniform(L, size) && lBuffer == Flatten(L) && n == |L|
    requires evenLeafCount == if n % 2 == 1 then n - 1 else n
    requires s == evenLeafCount * size
    ensures lastLeaf == if |L| % 2 == 1 then Some(L[|L| - 1]) else None
  {
    lastLeaf := None;
    if evenLeafCount != n {
      FlattenLast(L, size);
      lastLeaf := Some(lBuffer[s..]);
    }
  }

  /** The vector branch's pair loop: leaf pair `i, i+1` is the slice
      `[i * size, (i + 2) * size)` of the flat leaf buffer. */
  method HashLeafPairs(h: HashFn, nodes: array<Digest>, lBuffer: Bytes, size: nat,
                       parentCount: nat, evenLeafCount: nat, ghost L: seq<Bytes>)
    returns (s: nat, t: nat)
    requires nodes.Length == 2 * parentCount && parentCount >= 1
    requires Uniform(L, size) && lBuffer == Flatten(L)
    requires evenLeafCount % 2 == 0 && evenLeafCount <= |L|
    modifies nodes
    ensures s == evenLeafCount * size
    ensures t == parentCount + evenLeafCount / 2
    ensures nodes[0] == old(nodes[0])
    ensures forall j :: parentCount <= j < t && j < nodes.Length ==>
      nodes[j] == LeafParent(h, L, j - parentCount)
  {
    var i := 0;
    s, t := 0, parentCount;
    while i < evenLeafCount
      invariant 0 <= i <= evenLeafCount && i % 2 == 0
      invariant s == i * size
      invariant t == parentCount + i / 2
      invariant nodes[0] == old(nodes[0])
      invariant forall j :: parentCount <= j < t && j < nodes.Length ==>
        nodes[j] == LeafParent(h, L, j - parentCount)
    {
      FlattenPair(L, size, i);
      assert (i + 2) * size == s + 2 * size;
      assert LeafParent(h, L, t - parentCount) == h(lBuffer[s..s + 2 * size]);
      WriteSlot(nodes, t, h(lBuffer[s..s + 2 * size]));
      i, s, t := i + 2, s + 2 * size, t + 1;
    }
  }

  /** `buildMerkleNodes` over a plain array of leaf buffers: leaf `i` and
      leaf `i+1` are fed to one hash context one after the other. */
  method BuildMerkleNodesFromArray(h: HashFn, depth: nat, leaves: seq<Bytes>)
    returns (nodes: array<Digest>)
    requires 1 <= depth <= MAX_DEPTH
    ensures fresh(nodes)
    ensures Built(h, nodes[..], depth, leaves)
    ensures |Flatten(nodes[..])| == Pow2(depth) * DIGEST_SIZE
  {
    var nodeCount := Pow2(depth);
    nodes := new Digest[nodeCount](_ => NullBuffer());
    var parentCount := nodeCount / 2;
    assert parentCount == Pow2(depth - 1);
    var t, lastLeaf := ArrayLeafRow(h, nodes, parentCount, leaves);
    FinishNodes(h, nodes, depth, t, lastLeaf, |leaves|, leaves);
    FlattenLength(nodes[..], DIGEST_SIZE);
  }

  /** The array branch up to the odd leaf. */
  method ArrayLeafRow(h: HashFn, nodes: array<Digest>, parentCount: nat, leaves: seq<Bytes>)
    returns (t: nat, lastLeaf: Option<Bytes>)
    requires nodes.Length == 2 * parentCount && parentCount >= 1
    modifies nodes
    ensures t == parentCount + |leaves| / 2
    ensures lastLeaf == if |leaves| % 2 == 1 then Some(leaves[|leaves| - 1]) else None
    ensures nodes[0] == old(nodes[0])
    ensures forall j :: parentCount <= j < t && j < nodes.Length ==>
      nodes[j] == LeafParent(h, leaves, j - parentCount)
  {
    var n := |leaves|;
    var evenLeafCount := if And1(n) == 1 then n - 1 else n;
    var i := 0;
    t := parentCount;
    while i < evenLeafCount
      invariant 0 <= i <= evenLeafCount && i % 2 == 0
      invariant t == parentCount + i / 2
      invariant nodes[0] == old(nodes[0])
      invariant forall j :: parentCount <= j < t && j < nodes.Length ==>
        nodes[j] == LeafParent(h, leaves, j - parentCount)
    {
      WriteSlot(nodes, t, h(leaves[i] + leaves[i + 1]));
      i, t := i + 2, t + 1;
    }
    lastLeaf := None;
    if evenLeafCount != n {
      lastLeaf := Some(leaves[evenLeafCount]);
    }
  }

  /** The part both branches share: the odd last leaf, the padding of the
      leaf-parent row with `merge(ZERO, ZERO)`, and the bottom-up fold. */
  method FinishNodes(h: HashFn, nodes: array<Digest>, depth: nat, t: nat,
                     lastLeaf: Option<Bytes>, leafCount: nat, ghost leaves: seq<Bytes>)
    requires 1 <= depth <= MAX_DEPTH
    requires nodes.Length == Pow2(depth)
    requires leafCount == |leaves|
    requires t == Pow2(depth - 1) + |leaves| / 2
    requires lastLeaf == if |leaves| % 2 == 1 then Some(leaves[|leaves| - 1]) else None
    requires nodes[0] == NullBuffer()
    requires forall j :: Pow2(depth - 1) <= j < t && j < nodes.Length ==>
      nodes[j] == LeafParent(h, leaves, j - Pow2(depth - 1))
    modifies nodes
    ensures Built(h, nodes[..], depth, leaves)
  {
    var parentCount := Pow2(depth - 1);
    var tOffset := OddLeafParent(h, nodes, parentCount, t, lastLeaf, leaves);
    PadLeafParents(h, nodes, parentCount, tOffset, leafCount, leaves);
    FoldNodes(h, nodes, parentCount);
    assert LeafRow(h, nodes[..], leaves, parentCount);
  }

  /** `if (lastLeaf)`: the odd last leaf is merged with `ZERO` into the next
      slot of the leaf-parent row. */
  method OddLeafParent(h: HashFn, nodes: array<Digest>, parentCount: nat, t: nat,
                       lastLeaf: Option<Bytes>, ghost leaves: seq<Bytes>) returns (tOffset: nat)
    requires nodes.Length == 2 * parentCount && parentCount >= 1
    requires t == parentCount + |leaves| / 2
    requires lastLeaf == if |leaves| % 2 == 1 then Some(leaves[|leaves| - 1]) else None
    requires forall j :: parentCount <= j < t && j < nodes.Length ==>
      nodes[j] == LeafParent(h, leaves, j - parentCount)
    modifies nodes
    ensures tOffset == parentCount + (|leaves| + 1) / 2
    ensures nodes[0] == old(nodes[0])
    ensures forall j :: parentCount <= j < tOffset && j < nodes.Length ==>
      nodes[j] == LeafParent(h, leaves, j - parentCount)
  {
    tOffset := t;
    if lastLeaf.Some? {
      WriteSlot(nodes, tOffset, Merge(h, lastLeaf.value, NullBuffer()));
      tOffset := tOffset + 1;
    }
  }

  /** `while (tOffset < nodes.byteLength)`: when there are fewer leaves than
      slots, the rest of the leaf-parent row becomes `merge(ZERO, ZERO)`. */
  method PadLeafParents(h: HashFn, nodes: array<Digest>, parentCount: nat, t: nat,
                        leafCount: nat, ghost leaves: seq<Bytes>)
    requires nodes.Length == 2 * parentCount && parentCount >= 1
    requires leafCount == |leaves|
    requires t == parentCount + (|leaves| + 1) / 2
    requires forall j :: parentCount <= j < t && j < nodes.Length ==>
      nodes[j] == LeafParent(h, leaves, j - parentCount)
    modifies nodes
    ensures nodes[0] == old(nodes[0])
    ensures forall j :: parentCount <= j < nodes.Length ==>
      nodes[j] == LeafParent(h, leaves, j - parentCount)
  {
    var tOffset := t;
    if leafCount < nodes.Length {
      var nullParent := Merge(h, NullBuffer(), NullBuffer());
      while tOffset < nodes.Length
        invariant t <= tOffset
        invariant nodes[0] == old(nodes[0])
        invariant forall j :: parentCount <= j < tOffset && j < nodes.Length ==>
          nodes[j] == LeafParent(h, leaves, j - parentCount)
      {
        nodes[tOffset] := nullParent;
        tOffset := tOffset + 1;
      }
    }
  }

  /** `for (i = parentCount - 1; i > 0; i--)`: slot `i` becomes the merge of
      slots `2i` and `2i+1`, which are final by then. */
  method FoldNodes(h: HashFn, nodes: array<Digest>, parentCount: nat)
    requires nodes.Length == 2 * parentCount && parentCount >= 1
    modifies nodes
    ensures nodes[0] == old(nodes[0])
    ensures forall j :: parentCount <= j < nodes.Length ==> nodes[j] == old(nodes[j])
    ensures HeapInvariant(h, nodes[..], parentCount)
  {
    var i := parentCount - 1;
    while i > 0
      invariant 0 <= i < parentCount
      invariant nodes[0] == old(nodes[0])
      invariant forall j :: parentCount <= j < nodes.Length ==> nodes[j] == old(nodes[j])
      invariant forall k :: i < k < parentCount ==>
        nodes[k] == Merge(h, nodes[2 * k], nodes[2 * k + 1])
    {
      nodes[i] := Merge(h, nodes[2 * i], nodes[2 * i + 1]);
      i := i - 1;
    }
    forall k | 1 <= k < parentCount
      ensures MergedAt(h, nodes[..], k)
    {
    }
  }
}
