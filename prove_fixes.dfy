/** Two places where `prove` departs from what the tree it reads promises,
    each beside a corrected `prove` and what is proved about it. */
module ProveFixes {
  import opened Wrappers
  import opened Bytes
  import opened Int32
  import opened JsVectors
  import opened JsHash
  import opened Indexes
  import opened MerkleTree

  /** `prove` admits `index == values.length`: the first entry is then
      `undefined`, and when the leaf row is full the sibling read beyond
      the buffer throws a `RangeError`. */
  lemma {:induction false} ProveAtLength(t: Tree)
    requires Shaped(t) && |t.values.values| <= |t.nodes|
    ensures |t.values.values| < |t.nodes| ==>
      ProveSpec(t, |t.values.values|).Ok? && |ProveSpec(t, |t.values.values|).value| > 0 &&
      ProveSpec(t, |t.values.values|).value[0] == None
    ensures |t.values.values| == |t.nodes| ==> ProveSpec(t, |t.values.values|) == Err(RangeError)
  {
    var n := |t.values.values|;
    if n < |t.nodes| {
      ProveShape(t, n);
    } else {
      var N := |t.nodes|;
      ShapedBounds(t);
      assert Shr1(n + N) == N;
      assert ReadNode(t.nodes, Xor1(N)) == Err(RangeError);
    }
  }

  /** With an odd number of leaves the build merges the last leaf with 32
      zero bytes, but `prove` hands out `undefined` as its pair, and
      `verify` throws hashing it, whatever the root. */
  lemma {:induction false} OddLastLeafThrows(h: HashFn, t: Tree, root: Bytes)
    requires Shaped(t) && |t.values.values| <= |t.nodes| && |t.values.values| % 2 == 1
    ensures ProveSpec(t, |t.values.values| - 1).Ok?
    ensures |ProveSpec(t, |t.values.values| - 1).value| == t.depth + 1
    ensures ProveSpec(t, |t.values.values| - 1).value[1] == None
    ensures VerifySpec(h, root, |t.values.values| - 1, ProveSpec(t, |t.values.values| - 1).value) ==
      Err(TypeError)
  {
    var n := |t.values.values|;
    OddLastProof(t);
    MissingPairThrows(h, root, n - 1, ProveSpec(t, n - 1).value);
  }

  /** The proof of an odd last leaf has `undefined` as its second entry. */
  lemma {:induction false} OddLastProof(t: Tree)
    requires Shaped(t) && |t.values.values| <= |t.nodes| && |t.values.values| % 2 == 1
    ensures 0 <= |t.values.values| - 1 < TWO_31 && (|t.values.values| - 1) % 2 == 0
    ensures ProveSpec(t, |t.values.values| - 1).Ok?
    ensures |ProveSpec(t, |t.values.values| - 1).value| == t.depth + 1
    ensures ProveSpec(t, |t.values.values| - 1).value[1] == None
  {
    var n := |t.values.values|;
    ShapedBounds(t);
    ProveShape(t, n - 1);
    LastOfOdd(n);
  }

  /** The last index of an odd count is even, and its pair is the count. */
  lemma {:induction false} LastOfOdd(n: int)
    requires 0 < n < TWO_31 && n % 2 == 1
    ensures (n - 1) % 2 == 0 && Xor1(n - 1) == n
  {
  }

  /** `verify` throws on a proof for an even index whose second entry is
      `undefined`. */
  lemma {:induction false} MissingPairThrows(h: HashFn, root: Bytes, index: int, p: seq<Value>)
    requires 0 <= index < TWO_31 && index % 2 == 0 && |p| >= 2 && p[1] == None
    ensures VerifySpec(h, root, index, p) == Err(TypeError)
  {
    assert And1(index) == 0;
  }

  /** The leaf the build paired with leaf `index`: leaf `index ^ 1`, or the
      zero bytes it merged an odd last leaf with. */
  function PairedLeaf(t: Tree, index: int): (r: Value)
    ensures r.Some?
    ensures 0 <= Xor1(index) < |t.values.values| ==> r == ValueAt(t.values, Xor1(index))
  {
    if 0 <= Xor1(index) < |t.values.values| then ValueAt(t.values, Xor1(index)) else Some(NullBuffer())
  }

  /** `prove` as its error message and the build intend: an index of no
      leaf is refused, and an odd last leaf comes with the zero bytes it
      was merged with. */
  function ProveIntended(t: Tree, index: int): Result<seq<Value>, Error>
  {
    if index < 0 || index >= |t.values.values| then Err(InvalidIndex(index))
    else Ascend(t.nodes, Shr1(index + |t.nodes|), [ValueAt(t.values, index), PairedLeaf(t, index)])
  }

  /** The climb from the leaf parent of leaf `index` collects `depth - 1`
      siblings after the two entries it starts with. */
  lemma {:induction false} LeafClimb(t: Tree, index: int, acc: seq<Value>)
    requires Shaped(t) && 0 <= index < |t.nodes| && |acc| == 2
    ensures var r := Ascend(t.nodes, Shr1(index + |t.nodes|), acc);
      r.Ok? && |r.value| == t.depth + 1 && r.value[..2] == acc &&
      SiblingsFrom(t.nodes, Shr1(index + |t.nodes|), r.value, 2)
  {
    LeafParentStart(t, index);
    AscendShape(t.nodes, Shr1(index + |t.nodes|), t.depth - 1, acc);
  }

  /** What the corrected `prove` returns: `depth + 1` entries, the leaf, the
      leaf it was paired with, then the siblings of the path from the leaf
      parent up. */
  lemma {:induction false} ProveIntendedShape(t: Tree, index: int)
    requires Shaped(t) && 0 <= index < |t.values.values| <= |t.nodes|
    ensures ProveIntended(t, index).Ok?
    ensures var p := ProveIntended(t, index).value;
      |p| == t.depth + 1 &&
      p[0] == Some(t.values.values[index]) &&
      p[1] == PairedLeaf(t, index) &&
      SiblingsFrom(t.nodes, Shr1(index + |t.nodes|), p, 2)
  {
    var acc := [ValueAt(t.values, index), PairedLeaf(t, index)];
    LeafClimb(t, index, acc);
    PairPrefix(ProveIntended(t, index).value, acc);
  }

  /** The corrected `prove` rejects exactly the indexes of no leaf, and
      every proof it returns starts with the leaf itself. */
  lemma {:induction false} ProveIntendedSpec(t: Tree, index: int)
    requires Shaped(t) && |t.values.values| <= |t.nodes|
    ensures ProveIntended(t, index).Ok? <==> 0 <= index < |t.values.values|
    ensures ProveIntended(t, index).Err? ==> ProveIntended(t, index) == Err(InvalidIndex(index))
    ensures ProveIntended(t, index).Ok? ==>
      |ProveIntended(t, index).value| == t.depth + 1 &&
      ProveIntended(t, index).value[0] == Some(t.values.values[index])
  {
    if 0 <= index < |t.values.values| {
      ProveIntendedShape(t, index);
    }
  }

  /** The first merge of `verify` over a proof that starts with a leaf and
      the leaf it was paired with is the leaf parent the build stored. */
  lemma {:induction false} PairedFirstMerge(h: HashFn, t: Tree, index: int, p: seq<Value>)
    requires BuiltTree(h, t) && 0 <= index < |t.values.values| && |p| >= 2
    requires p[0] == Some(t.values.values[index]) && p[1] == PairedLeaf(t, index)
    ensures Pow2(t.depth - 1) <= Shr1(index + |t.nodes|) < |t.nodes|
    ensures MergeValues(h, At(p, And1(index)), At(p, 1 - And1(index))) ==
      Ok(t.nodes[Shr1(index + |t.nodes|)])
  {
    var L := t.values.values;
    var P := Pow2(t.depth - 1);
    LeafParentStart(t, index);
    var j := index / 2;
    assert t.nodes[P + j] == LeafParent(h, L, j);
    if index % 2 == 0 {
      assert Xor1(index) == index + 1 && And1(index) == 0;
    } else {
      assert Xor1(index) == index - 1 && And1(index) == 1;
    }
  }

  /** A proof of the shape the corrected `prove` gives verifies against
      the root. */
  lemma {:induction false} PairedProofVerifies(h: HashFn, t: Tree, index: int, p: seq<Value>)
    requires BuiltTree(h, t) && 0 <= index < |t.values.values|
    requires |p| == t.depth + 1
    requires p[0] == Some(t.values.values[index]) && p[1] == PairedLeaf(t, index)
    requires SiblingsFrom(t.nodes, Shr1(index + |t.nodes|), p, 2)
    ensures VerifySpec(h, Root(t), index, p) == Ok(true)
  {
    var start := Shr1(index + |t.nodes|);
    PairedFirstMerge(h, t, index, p);
    LeafParentFolds(h, t, index, p);
    VerifyStart(h, Root(t), index, p, t.nodes[start], start, Root(t));
  }

  /** `verify(root, i, proveIntended(i))` holds for every leaf, an odd last
      leaf included. */
  lemma {:induction false} ProveIntendedVerifies(h: HashFn, t: Tree, index: int)
    requires BuiltTree(h, t) && 0 <= index < |t.values.values|
    ensures ProveIntended(t, index).Ok?
    ensures VerifySpec(h, Root(t), index, ProveIntended(t, index).value) == Ok(true)
  {
    ProveIntendedShape(t, index);
    PairedProofVerifies(h, t, index, ProveIntended(t, index).value);
  }
}
