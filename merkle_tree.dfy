/** The tree object, single-leaf proofs and their verification. The tree
    keeps its node buffer (`nodes`, slot `k` is heap node `k`), its leaves
    and its depth; none of them changes after `create`. */
module MerkleTree {
  import opened Wrappers
  import opened Bytes
  import opened Int32
  import opened JsVectors
  import opened JsHash
  import opened Indexes

  /** A proof entry or leaf read: `undefined` when the read misses. */
  type Value = Option<Bytes>

  /** `MerkleTree`: `nodeSize` is always the digest size, 32. */
  datatype Tree = Tree(depth: nat, nodes: seq<Digest>, values: JsVector)

  /** A tree as `create` leaves it: the node buffer is built from its own
      leaves at its own depth. */
  ghost predicate BuiltTree(h: HashFn, t: Tree)
  {
    Built(h, t.nodes, t.depth, t.values.values) &&
    Shaped(t) &&
    |t.values.values| <= |t.nodes|
  }

  /** `2^depth` node slots for a depth the node arithmetic supports. */
  predicate Shaped(t: Tree)
  {
    1 <= t.depth <= MAX_DEPTH && |t.nodes| == Pow2(t.depth)
  }

  lemma {:induction false} ShapedBounds(t: Tree)
    requires Shaped(t)
    ensures |t.nodes| == 2 * Pow2(t.depth - 1) <= 0x400_0000
  {
    Pow2Monotone(t.depth, MAX_DEPTH);
    Pow2Of26();
  }

  /** `Math.ceil(Math.log2(n))` for the leaf counts a tree can hold. */
  lemma {:induction false} DepthBounds(n: nat)
    requires 2 <= n <= Pow2(MAX_DEPTH)
    ensures 1 <= CeilLog2(n) <= MAX_DEPTH
    ensures n <= Pow2(CeilLog2(n))
  {
    CeilLog2Least(n, MAX_DEPTH);
  }

  /** `MerkleTree.create(values, hash)` with a plain array: the array is
      wrapped in a vector, which `buildMerkleNodes` reads. */
  method Create(h: HashFn, values: seq<Bytes>) returns (t: Tree)
    requires 2 <= |values| <= Pow2(MAX_DEPTH)
    requires Uniform(values, |values[0]|)
    ensures t.depth == CeilLog2(|values|)
    ensures t.values == JsVector(values, |values[0]|)
    ensures BuiltTree(h, t)
  {
    DepthBounds(|values|);
    var depth := CeilLog2(|values|);
    var leaves := New(values).value;
    var nodes := BuildMerkleNodes(h, depth, leaves);
    t := Tree(depth, nodes[..], leaves);
  }

  /** `MerkleTree.create(values, hash)` with a vector. */
  method CreateFromVector(h: HashFn, leaves: JsVector) returns (t: Tree)
    requires WellFormed(leaves)
    requires 2 <= |leaves.values| <= Pow2(MAX_DEPTH)
    ensures t.depth == CeilLog2(|leaves.values|)
    ensures t.values == leaves
    ensures BuiltTree(h, t)
  {
    DepthBounds(|leaves.values|);
    var depth := CeilLog2(|leaves.values|);
    var nodes := BuildMerkleNodes(h, depth, leaves);
    t := Tree(depth, nodes[..], leaves);
  }

  /** The compiled `create`: `buildMerkleNodes` gets the raw array, and the
      constructor wraps it in a vector afterwards. */
  method CreateFromArray(h: HashFn, values: seq<Bytes>) returns (t: Tree)
    requires 2 <= |values| <= Pow2(MAX_DEPTH)
    ensures t.depth == CeilLog2(|values|)
    ensures t.values == JsVector(values, |values[0]|)
    ensures BuiltTree(h, t)
  {
    DepthBounds(|values|);
    var depth := CeilLog2(|values|);
    var nodes := BuildMerkleNodesFromArray(h, depth, values);
    var leaves := New(values).value;
    t := Tree(depth, nodes[..], leaves);
  }

  /** `root`: node slot 1. */
  function Root(t: Tree): Digest
    requires |t.nodes| >= 2
  {
    t.nodes[1]
  }

  /** `getLeaf(index)`: `values.toBuffer(index, 1)`. */
  function GetLeaf(t: Tree, index: int): (r: Value)
    ensures r.Some? <==> 0 <= index < |t.values.values|
    ensures r.Some? ==> r.value == t.values.values[index]
  {
    ValueAt(t.values, index)
  }

  /** `Buffer.from(this.nodes, j * nodeSize, nodeSize)`: a slot outside the
      buffer is a `RangeError`. */
  function ReadNode(nodes: seq<Digest>, j: int): (r: Result<Value, Error>)
    ensures r.Ok? <==> 0 <= j < |nodes|
    ensures r.Ok? ==> r.value == Some(nodes[j])
    ensures r.Err? ==> r.error == RangeError
  {
    if 0 <= j < |nodes| then Ok(Some(nodes[j])) else Err(RangeError)
  }

  /** The `while (index > 1)` loop of `prove`: push node `index ^ 1`, then
      move to the parent. */
  function Ascend(nodes: seq<Digest>, a: int, acc: seq<Value>): Result<seq<Value>, Error>
    decreases if a > 1 then a else 0
  {
    if a <= 1 then Ok(acc)
    else
      var sibling :- ReadNode(nodes, Xor1(a));
      Ascend(nodes, Shr1(a), acc + [sibling])
  }

  /** `prove(index)`. */
  function ProveSpec(t: Tree, index: int): Result<seq<Value>, Error>
  {
    if index < 0 || index > |t.values.values| then Err(InvalidIndex(index))
    else
      var value1 := ValueAt(t.values, index);
      var value2 := ValueAt(t.values, Xor1(index));
      Ascend(t.nodes, Shr1(index + |t.nodes|), [value1, value2])
  }

  method Prove(t: Tree, index: int) returns (r: Result<seq<Value>, Error>)
    ensures r == ProveSpec(t, index)
  {
    if index < 0 {
      return Err(InvalidIndex(index));
    }
    if index > |t.values.values| {
      return Err(InvalidIndex(index));
    }
    var nodeCount := |t.nodes|;
    var value1 := ValueAt(t.values, index);
    var value2 := ValueAt(t.values, Xor1(index));
    var proof := [value1, value2];
    var i := Shr1(index + nodeCount);
    while i > 1
      invariant Ascend(t.nodes, i, proof) == Ascend(t.nodes, Shr1(index + nodeCount), [value1, value2])
      decreases i
    {
      var s := Xor1(i);
      if !(0 <= s < nodeCount) {
        return Err(RangeError);
      }
      proof := proof + [Some(t.nodes[s])];
      i := Shr1(i);
    }
    return Ok(proof);
  }

  /** The sibling of a node on level `m >= 1` is on the same level. */
  lemma {:induction false} SiblingLevel(b: int, m: nat)
    requires Pow2(m) <= b < Pow2(m + 1) && 1 <= m && b < TWO_31
    ensures Pow2(m) <= Xor1(b) < Pow2(m + 1)
  {
    var q := Pow2(m - 1);
    assert Pow2(m) == 2 * q;
    assert Pow2(m + 1) == 4 * q;
    if b % 2 == 0 {
      assert Xor1(b) == b + 1;
      assert b <= 4 * q - 2;
    } else {
      assert Xor1(b) == b - 1;
      assert b >= 2 * q + 1;
    }
  }

  /** Entries `i, i + 1, ...` of a proof hold the siblings of node `a`, of
      its parent `a / 2`, of its grandparent, and so on. */
  predicate SiblingsFrom(nodes: seq<Digest>, a: int, proof: seq<Value>, i: nat)
    decreases |proof| - i
  {
    i >= |proof| ||
    (var b := Xor1(a);
     0 <= b < |nodes| && proof[i] == Some(nodes[b]) && SiblingsFrom(nodes, a / 2, proof, i + 1))
  }

  /** Climbing from node `a`, `k` levels below the root, collects `k`
      entries after `acc`: the siblings of the path from `a`. */
  lemma {:induction false} AscendShape(nodes: seq<Digest>, a: int, k: nat, acc: seq<Value>)
    requires Pow2(k) <= a < Pow2(k + 1) <= |nodes| && a < TWO_31
    ensures Ascend(nodes, a, acc).Ok?
    ensures var p := Ascend(nodes, a, acc).value;
      |p| == |acc| + k && p[..|acc|] == acc && SiblingsFrom(nodes, a, p, |acc|)
    decreases k
  {
    if k > 0 {
      SiblingLevel(a, k);
      assert Pow2(k) == 2 * Pow2(k - 1);
      var acc' := acc + [Some(nodes[Xor1(a)])];
      assert Ascend(nodes, a, acc) == Ascend(nodes, a / 2, acc');
      AscendShape(nodes, a / 2, k - 1, acc');
      var p := Ascend(nodes, a, acc).value;
      assert p[..|acc'|] == acc';
      assert p[..|acc|] == acc'[..|acc|];
      assert p[|acc|] == p[..|acc'|][|acc|];
    }
  }

  /** `prove` starts its ascent at the leaf's parent, on level `depth - 1`. */
  lemma {:induction false} LeafParentStart(t: Tree, index: int)
    requires Shaped(t) && 0 <= index < |t.nodes|
    ensures Shr1(index + |t.nodes|) == Pow2(t.depth - 1) + index / 2
    ensures Pow2(t.depth - 1) <= Shr1(index + |t.nodes|) < Pow2(t.depth - 1 + 1) <= |t.nodes|
    ensures Shr1(index + |t.nodes|) < TWO_31
  {
    ShapedBounds(t);
  }

  /** What `prove(index)` returns for an index inside the node buffer:
      `depth + 1` entries, leaf `index`, leaf `index ^ 1`, then the sibling of
      each node on the path from the leaf parent up to level 1. */
  lemma {:induction false} ProveShape(t: Tree, index: int)
    requires Shaped(t)
    requires 0 <= index <= |t.values.values| && index < |t.nodes|
    ensures ProveSpec(t, index).Ok?
    ensures var p := ProveSpec(t, index).value;
      |p| == t.depth + 1 &&
      p[0] == ValueAt(t.values, index) &&
      p[1] == ValueAt(t.values, Xor1(index)) &&
      SiblingsFrom(t.nodes, Shr1(index + |t.nodes|), p, 2)
  {
    ProveAscends(t, index);
    ProveClimb(t, index);
    PairPrefix(ProveSpec(t, index).value, [ValueAt(t.values, index), ValueAt(t.values, Xor1(index))]);
  }

  /** The climb `prove` makes from the leaf parent: `depth - 1` siblings
      after the leaf and its pair. */
  lemma {:induction false} ProveClimb(t: Tree, index: int)
    requires Shaped(t) && 0 <= index < |t.nodes|
    ensures var acc := [ValueAt(t.values, index), ValueAt(t.values, Xor1(index))];
      var r := Ascend(t.nodes, Shr1(index + |t.nodes|), acc);
      r.Ok? && |r.value| == t.depth + 1 && r.value[..2] == acc &&
      SiblingsFrom(t.nodes, Shr1(index + |t.nodes|), r.value, 2)
  {
    LeafParentStart(t, index);
    AscendShape(t.nodes, Shr1(index + |t.nodes|), t.depth - 1,
      [ValueAt(t.values, index), ValueAt(t.values, Xor1(index))]);
  }

  /** For an index it accepts, `prove` is the climb from node
      `(index + nodeCount) >> 1` after the leaf and its pair. */
  lemma {:induction false} ProveAscends(t: Tree, index: int)
    requires 0 <= index <= |t.values.values|
    ensures ProveSpec(t, index) == Ascend(t.nodes, Shr1(index + |t.nodes|),
      [ValueAt(t.values, index), ValueAt(t.values, Xor1(index))])
  {
  }

  lemma {:induction false} PairPrefix(p: seq<Value>, acc: seq<Value>)
    requires |acc| == 2 && |p| >= 2 && p[..2] == acc
    ensures p[0] == acc[0] && p[1] == acc[1]
  {
    assert p[..2][0] == p[0];
    assert p[..2][1] == p[1];
  }

  /** `hash.merge(a, b)` on proof entries: hashing `undefined` throws. */
  function MergeValues(h: HashFn, a: Value, b: Value): (r: Result<Digest, Error>)
    ensures r.Ok? <==> a.Some? && b.Some?
    ensures r.Ok? ==> r.value == Merge(h, a.value, b.value)
    ensures r.Err? ==> r.error == TypeError
  {
    if a.Some? && b.Some? then Ok(Merge(h, a.value, b.value)) else Err(TypeError)
  }

  /** `proof[k]`: `undefined` past the end. */
  function At(proof: seq<Value>, k: int): (r: Value)
    ensures r.Some? ==> 0 <= k < |proof| && r == proof[k]
  {
    if 0 <= k < |proof| then proof[k] else None
  }

  /** The loop of `verify` from entry `i` on: an odd node index puts the
      entry on the left, an even one on the right. */
  function Fold(h: HashFn, proof: seq<Value>, i: nat, index: int, v: Digest): Result<Digest, Error>
    decreases |proof| - i
  {
    if i >= |proof| then Ok(v)
    else
      var next :- if And1(index) == 1 then MergeValues(h, proof[i], Some(v))
                  else MergeValues(h, Some(v), proof[i]);
      Fold(h, proof, i + 1, Shr1(index), next)
  }

  /** `MerkleTree.verify(root, index, proof, hash)`. */
  function VerifySpec(h: HashFn, root: Bytes, index: int, proof: seq<Value>): Result<bool, Error>
  {
    var r := And1(index);
    var v :- MergeValues(h, At(proof, r), At(proof, 1 - r));
    var start := Shr1(index + Pow2(|proof| - 1));
    var top :- Fold(h, proof, 2, start, v);
    Ok(root == top)
  }

  method Verify(h: HashFn, root: Bytes, index: int, proof: seq<Value>) returns (r: Result<bool, Error>)
    ensures r == VerifySpec(h, root, index, proof)
  {
    var bit := And1(index);
    var first := MergeValues(h, At(proof, bit), At(proof, 1 - bit));
    if first.Err? {
      return Err(first.error);
    }
    var v := first.value;
    var i := Shr1(index + Pow2(|proof| - 1));
    ghost var start := i;
    for k := 2 to |proof|
      invariant Fold(h, proof, k, i, v) == Fold(h, proof, 2, start, first.value)
    {
      var next := if And1(i) == 1 then MergeValues(h, proof[k], Some(v))
                  else MergeValues(h, Some(v), proof[k]);
      if next.Err? {
        return Err(next.error);
      }
      v := next.value;
      i := Shr1(i);
    }
    return Ok(root == v);
  }

  /** One step of `verify`: node `a` and its sibling merge into the parent. */
  lemma {:induction false} FoldStep(h: HashFn, nodes: seq<Digest>, parentCount: nat, proof: seq<Value>, i: nat, a: int)
    requires HeapInvariant(h, nodes, parentCount)
    requires 2 <= a < |nodes| == 2 * parentCount && a < TWO_31 && i < |proof|
    requires proof[i] == Some(nodes[Xor1(a)])
    ensures Fold(h, proof, i, a, nodes[a]) == Fold(h, proof, i + 1, a / 2, nodes[a / 2])
  {
    var q := a / 2;
    assert 1 <= q < parentCount;
    assert MergedAt(h, nodes, q);
    assert Shr1(a) == q;
    if a % 2 == 1 {
      assert And1(a) == 1 && Xor1(a) == 2 * q;
      assert MergeValues(h, proof[i], Some(nodes[a])) == Ok(nodes[q]);
    } else {
      assert And1(a) == 0 && Xor1(a) == 2 * q + 1;
      assert MergeValues(h, Some(nodes[a]), proof[i]) == Ok(nodes[q]);
    }
  }

  /** Folding the `k` siblings of node `a` with the node itself climbs the
      heap to the root. */
  lemma {:induction false} FoldAscent(h: HashFn, nodes: seq<Digest>, parentCount: nat,
                                      proof: seq<Value>, i: nat, a: int, k: nat)
    requires HeapInvariant(h, nodes, parentCount)
    requires Pow2(k) <= a < Pow2(k + 1) <= |nodes| && a < TWO_31
    requires i + k == |proof|
    requires SiblingsFrom(nodes, a, proof, i)
    ensures Fold(h, proof, i, a, nodes[a]) == Ok(nodes[1])
    decreases k
  {
    if k > 0 {
      var q := a / 2;
      assert Pow2(k) == 2 * Pow2(k - 1);
      FoldStep(h, nodes, parentCount, proof, i, a);
      FoldAscent(h, nodes, parentCount, proof, i + 1, q, k - 1);
    }
  }

  /** The leaf pair of leaf `index` sits inside an even-length leaf list. */
  lemma {:induction false} PairInRange(index: int, n: nat)
    requires n % 2 == 0 && 0 <= index < n
    ensures 0 <= Even(index) && Even(index) + 1 < n
  {
  }

  /** Leaf `index ^ 1` exists for every leaf but the last leaf of an odd
      leaf list; its pair is then `index` and `index ^ 1`. */
  lemma {:induction false} HasPairLeaf(index: int, n: nat)
    requires 0 <= index < n && n <= TWO_31
    ensures 0 <= Xor1(index) < n <==> !(n % 2 == 1 && index == n - 1)
    ensures 0 <= Xor1(index) < n ==> 0 <= Even(index) && Even(index) + 1 < n
  {
  }

  /** The leaf-parent slot of leaf `index`, where `prove` starts its climb,
      holds the merge of the leaf pair when leaf `index ^ 1` exists. */
  lemma {:induction false} LeafPairNode(h: HashFn, t: Tree, index: int)
    requires BuiltTree(h, t)
    requires 0 <= index < |t.values.values| && Xor1(index) < |t.values.values|
    ensures 0 <= Even(index) && Even(index) + 1 < |t.values.values|
    ensures Pow2(t.depth - 1) <= Shr1(index + |t.nodes|) < |t.nodes|
    ensures t.nodes[Shr1(index + |t.nodes|)] ==
      Merge(h, t.values.values[Even(index)], t.values.values[Even(index) + 1])
  {
    var L := t.values.values;
    LeafParentStart(t, index);
    ShapedBounds(t);
    HasPairLeaf(index, |L|);
    var e := Even(index);
    assert e / 2 == index / 2;
    assert t.nodes[Pow2(t.depth - 1) + e / 2] == LeafParent(h, L, e / 2);
  }

  /** The first merge of `verify` over a proof that starts with leaf
      `index` and leaf `index ^ 1` is the merge of the leaf pair. */
  lemma {:induction false} FirstMerge(h: HashFn, values: JsVector, index: int, p: seq<Value>)
    requires 0 <= index < |values.values| && index < TWO_31 && Xor1(index) < |values.values| && |p| >= 2
    requires p[0] == ValueAt(values, index) && p[1] == ValueAt(values, Xor1(index))
    ensures 0 <= Even(index) && Even(index) + 1 < |values.values|
    ensures MergeValues(h, At(p, And1(index)), At(p, 1 - And1(index))) ==
      Ok(Merge(h, values.values[Even(index)], values.values[Even(index) + 1]))
  {
    if index % 2 == 0 {
      assert Xor1(index) == index + 1 && And1(index) == 0;
    } else {
      assert Xor1(index) == index - 1 && And1(index) == 1;
    }
  }

  /** `verify` over a proof whose first merge and start index are known. */
  lemma {:induction false} VerifyStart(h: HashFn, root: Bytes, index: int, p: seq<Value>,
                                       v: Digest, start: int, top: Digest)
    requires MergeValues(h, At(p, And1(index)), At(p, 1 - And1(index))) == Ok(v)
    requires Shr1(index + Pow2(|p| - 1)) == start
    requires Fold(h, p, 2, start, v) == Ok(top)
    ensures VerifySpec(h, root, index, p) == Ok(root == top)
  {
  }

  /** Over a proof of the shape `prove` gives, `verify` starts where `prove`
      started, and its first merge gives the node found there. */
  lemma {:induction false} LeafPairMerges(h: HashFn, t: Tree, index: int, p: seq<Value>)
    requires BuiltTree(h, t)
    requires 0 <= index < |t.values.values| && Xor1(index) < |t.values.values|
    requires |p| == t.depth + 1
    requires p[0] == ValueAt(t.values, index) && p[1] == ValueAt(t.values, Xor1(index))
    ensures Shr1(index + Pow2(|p| - 1)) == Shr1(index + |t.nodes|)
    ensures Pow2(t.depth - 1) <= Shr1(index + |t.nodes|) < |t.nodes|
    ensures MergeValues(h, At(p, And1(index)), At(p, 1 - And1(index))) ==
      Ok(t.nodes[Shr1(index + |t.nodes|)])
  {
    LeafParentStart(t, index);
    LeafPairNode(h, t, index);
    FirstMerge(h, t.values, index, p);
  }

  /** The rest of `verify` climbs from that node to the root. */
  lemma {:induction false} LeafParentFolds(h: HashFn, t: Tree, index: int, p: seq<Value>)
    requires Shaped(t) && HeapInvariant(h, t.nodes, Pow2(t.depth - 1))
    requires 0 <= index < |t.nodes|
    requires |p| == t.depth + 1
    requires SiblingsFrom(t.nodes, Shr1(index + |t.nodes|), p, 2)
    ensures Pow2(t.depth - 1) <= Shr1(index + |t.nodes|) < |t.nodes|
    ensures Fold(h, p, 2, Shr1(index + |t.nodes|), t.nodes[Shr1(index + |t.nodes|)]) == Ok(Root(t))
  {
    LeafParentStart(t, index);
    FoldAscent(h, t.nodes, Pow2(t.depth - 1), p, 2, Shr1(index + |t.nodes|), t.depth - 1);
  }

  /** A proof of the shape `prove` gives (leaf, its pair, then the siblings
      of the path from the leaf parent up) verifies against the root. */
  lemma {:induction false} ShapedProofVerifies(h: HashFn, t: Tree, index: int, p: seq<Value>)
    requires BuiltTree(h, t)
    requires 0 <= index < |t.values.values| && Xor1(index) < |t.values.values|
    requires |p| == t.depth + 1
    requires p[0] == ValueAt(t.values, index) && p[1] == ValueAt(t.values, Xor1(index))
    requires SiblingsFrom(t.nodes, Shr1(index + |t.nodes|), p, 2)
    ensures VerifySpec(h, Root(t), index, p) == Ok(true)
  {
    var start := Shr1(index + |t.nodes|);
    LeafPairMerges(h, t, index, p);
    LeafParentFolds(h, t, index, p);
    VerifyStart(h, Root(t), index, p, t.nodes[start], start, Root(t));
  }

  /** `verify(root, i, prove(i))` holds for every leaf `i` whose pair leaf
      `i ^ 1` exists: every leaf but the last leaf of an odd leaf list
      (`HasPairLeaf`; that last leaf is `ProveFixes.OddLastLeafThrows`). */
  lemma {:induction false} ProveVerifies(h: HashFn, t: Tree, index: int)
    requires BuiltTree(h, t)
    requires 0 <= index < |t.values.values| && Xor1(index) < |t.values.values|
    ensures ProveSpec(t, index).Ok?
    ensures VerifySpec(h, Root(t), index, ProveSpec(t, index).value) == Ok(true)
  {
    ProveShape(t, index);
    ShapedProofVerifies(h, t, index, ProveSpec(t, index).value);
  }
}
