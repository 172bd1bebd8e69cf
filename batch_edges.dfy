/** How `proveBatch` and `verifyBatch` treat the requests they refuse, the
    empty request, and trees with an even number of leaves. */
module BatchEdges {
  import opened Wrappers
  import opened Bytes
  import opened Int32
  import opened JsVectors
  import opened JsHash
  import opened Indexes
  import opened MerkleTree
  import opened BatchProve
  import opened BatchVerify
  import opened BatchSound

  /** `proveBatch` throws exactly when `mapIndexes` does, and throws what
      it throws: once the indexes are accepted the loops cannot fail. */
  lemma {:induction false} ProveBatchAccepts(t: Tree, S: seq<int>)
    requires Shaped(t) && |t.values.values| <= |t.nodes|
    ensures ProveBatchSpec(t, S).Ok? <==> IndexMap(S, |t.values.values| - 1).Ok?
    ensures IndexMap(S, |t.values.values| - 1).Err? ==>
      ProveBatchSpec(t, S) == Err(IndexMap(S, |t.values.values| - 1).error)
  {
    IndexMapSpec(S, |t.values.values| - 1);
    if IndexMap(S, |t.values.values| - 1).Ok? {
      ProveBatchShape(t, S);
    }
  }

  /** `proveBatch` reports the first index outside the leaves. */
  lemma {:induction false} ProveBatchInvalid(t: Tree, S: seq<int>, k: nat)
    requires k < |S| && !(0 <= S[k] < |t.values.values|)
    requires forall j :: 0 <= j < k ==> 0 <= S[j] < |t.values.values|
    ensures ProveBatchSpec(t, S) == Err(InvalidIndex(S[k]))
  {
    IndexMapFirstError(S, |t.values.values| - 1, k);
  }

  /** `proveBatch` refuses valid indexes that repeat. */
  lemma {:induction false} ProveBatchRepeating(t: Tree, S: seq<int>)
    requires forall k :: 0 <= k < |S| ==> 0 <= S[k] < |t.values.values|
    requires !Distinct(S)
    ensures ProveBatchSpec(t, S) == Err(RepeatingIndexes)
  {
    IndexMapSpec(S, |t.values.values| - 1);
  }

  /** `verifyBatch` bounds the indexes by the `2^depth` leaf slots of the
      proof's depth and reports the first one outside them. */
  lemma {:induction false} VerifyBatchInvalid(h: HashFn, root: Bytes, S: seq<int>, proof: BatchProof, k: nat)
    requires k < |S| && !(0 <= S[k] < Pow2(proof.depth))
    requires forall j :: 0 <= j < k ==> 0 <= S[j] < Pow2(proof.depth)
    ensures VerifyBatchSpec(h, root, S, proof) == Err(InvalidIndex(S[k]))
  {
    IndexMapFirstError(S, Pow2(proof.depth) - 1, k);
    VerifyBatchMapped(h, root, S, proof);
  }

  /** `verifyBatch` refuses valid indexes that repeat. */
  lemma {:induction false} VerifyBatchRepeating(h: HashFn, root: Bytes, S: seq<int>, proof: BatchProof)
    requires forall k :: 0 <= k < |S| ==> 0 <= S[k] < Pow2(proof.depth)
    requires !Distinct(S)
    ensures VerifyBatchSpec(h, root, S, proof) == Err(RepeatingIndexes)
  {
    IndexMapSpec(S, Pow2(proof.depth) - 1);
    VerifyBatchMapped(h, root, S, proof);
  }

  /** A proof with a node list count other than the number of leaf pairs
      of the request is `false`, whatever it holds. */
  lemma {:induction false} VerifyBatchCountMismatch(h: HashFn, root: Bytes, S: seq<int>, proof: BatchProof)
    requires forall k :: 0 <= k < |S| ==> 0 <= S[k] < Pow2(proof.depth)
    requires Distinct(S) && |Normalize(S)| != |proof.nodes|
    ensures VerifyBatchSpec(h, root, S, proof) == Ok(false)
  {
    IndexMapSpec(S, Pow2(proof.depth) - 1);
    VerifyBatchMapped(h, root, S, proof);
  }

  /** A lone node whose node list has run out stops the second loop of
      `verifyBatch`: its sibling is `undefined` (`return false`). */
  lemma {:induction false} ListRunsOut(h: HashFn, proof: BatchProof, d: int, L: seq<int>, i: nat,
                                       next: seq<int>, v: map<int, Bytes>, ptr: seq<int>)
    requires i < |L| <= |ptr| == |proof.nodes| && |next| + |L| - i <= |ptr| && d > 0
    requires !(i + 1 < |L| && L[i + 1] == Xor1(L[i])) && ptr[i] >= |proof.nodes[i]|
    ensures VerifyUp(h, proof, d, L, i, next, v, ptr) == None
  {
    assert LevelStep(h, proof, L, i, v, ptr) == None;
  }

  /** After `mapIndexes` and `normalizeIndexes`: a leaf loop that gets
      through followed by level loops that stop early is `false`. */
  lemma {:induction false} MappedStops(h: HashFn, root: Bytes, proof: BatchProof,
                                       mapped: Result<map<int, nat>, Error>, m: map<int, nat>, E: seq<int>)
    requires mapped == Ok(m) && |E| == |proof.nodes|
    requires var leaf := VerifyLeaves(h, proof, m, E, Pow2(proof.depth), 0, map[], [], []);
      leaf.Ok? && VerifyUp(h, proof, proof.depth - 1, leaf.value.2, 0, [], leaf.value.0, leaf.value.1) == None
    ensures VerifyMapped(h, root, proof, mapped, E) == Ok(false)
  {
  }

  /** Whenever the leaf loop of `verifyBatch` gets through and the level
      loops stop early, `verifyBatch` is `false`: the early exit is the one
      place where a malformed proof is refused without a throw. */
  lemma {:induction false} VerifyBatchStops(h: HashFn, root: Bytes, S: seq<int>, proof: BatchProof)
    requires IndexMap(S, Pow2(proof.depth) - 1).Ok? && |Normalize(S)| == |proof.nodes|
    requires var leaf := VerifyLeaves(h, proof, IndexMap(S, Pow2(proof.depth) - 1).value, Normalize(S),
                                      Pow2(proof.depth), 0, map[], [], []);
      leaf.Ok? && VerifyUp(h, proof, proof.depth - 1, leaf.value.2, 0, [], leaf.value.0, leaf.value.1) == None
    ensures VerifyBatchSpec(h, root, S, proof) == Ok(false)
  {
    var mapped := IndexMap(S, Pow2(proof.depth) - 1);
    VerifyBatchMapped(h, root, S, proof);
    MappedStops(h, root, proof, mapped, mapped.value, Normalize(S));
  }

  /** The leaf loop of `verifyBatch` over one pair, one leaf requested,
      the other leaf first in the node list: the pair's parent, pointer 1. */
  lemma {:induction false} ShortLeafLoop(h: HashFn, x: int, a: Bytes, b: Bytes, depth: nat)
    ensures var proof := BatchProof([Some(a)], [[Some(b)]], depth);
      var p := Shr1(Pow2(depth) + x);
      VerifyLeaves(h, proof, map[x := 0], [x], Pow2(depth), 0, map[], [], []) ==
        Ok((map[p := Merge(h, a, b)], [1], [p]))
  {
    var proof := BatchProof([Some(a)], [[Some(b)]], depth);
    var m := map[x := 0];
    var p := Shr1(Pow2(depth) + x);
    var v := map[p := Merge(h, a, b)];
    assert LeafInputs(proof, m, x, 0) == (Some(a), Some(b), 1);
    assert MergeValues(h, Some(a), Some(b)) == Ok(Merge(h, a, b));
    assert map[][p := Merge(h, a, b)] == v && [] + [1] == [1] && [] + [p] == [p];
    assert VerifyLeaves(h, proof, m, [x], Pow2(depth), 1, v, [1], [p]) == Ok((v, [1], [p]));
  }

  /** A batch proof of one even leaf whose node list holds only the other
      leaf of the pair, for a tree of depth 2 or more: the lists run out
      at the first level above the leaves, and `verifyBatch` is `false`. */
  lemma {:induction false} ShortProofFalse(h: HashFn, root: Bytes, x: int, a: Bytes, b: Bytes, depth: nat)
    requires 2 <= depth && 0 <= x < Pow2(depth) && x % 2 == 0
    ensures VerifyBatchSpec(h, root, [x], BatchProof([Some(a)], [[Some(b)]], depth)) == Ok(false)
  {
    var proof := BatchProof([Some(a)], [[Some(b)]], depth);
    SingleRequest(x, Pow2(depth) - 1);
    assert Normalize([x]) == [x] by {
      assert Even(x) == x;
    }
    var p := Shr1(Pow2(depth) + x);
    ShortLeafLoop(h, x, a, b, depth);
    ListRunsOut(h, proof, depth - 1, [p], 0, [], map[p := Merge(h, a, b)], [1]);
    VerifyBatchStops(h, root, [x], proof);
  }

  /** Climbing from an empty level changes no node list. */
  lemma {:induction false} ProveUpEmpty(nodes: seq<Digest>, d: int, pn: seq<seq<Value>>)
    ensures ProveUp(nodes, d, [], 0, [], pn) == Ok(pn)
    decreases if d > 0 then d else 0
  {
    if d > 0 {
      ProveUpEmpty(nodes, d - 1, pn);
    }
  }

  /** Climbing from an empty level learns no node. */
  lemma {:induction false} VerifyUpEmpty(h: HashFn, proof: BatchProof, d: int, v: map<int, Bytes>, ptr: seq<int>)
    requires |ptr| == |proof.nodes|
    ensures VerifyUp(h, proof, d, [], 0, [], v, ptr) == Some(v)
    decreases if d > 0 then d else 0
  {
    if d > 0 {
      VerifyUpEmpty(h, proof, d - 1, v, ptr);
    }
  }

  /** The empty request: `proveBatch` returns a proof with no values and no
      node lists, and `verifyBatch` then throws, comparing the root with
      the node it never learnt. */
  lemma {:induction false} EmptyBatch(h: HashFn, t: Tree, root: Bytes)
    ensures ProveBatchSpec(t, []) == Ok(BatchProof([], [], t.depth))
    ensures VerifyBatchSpec(h, root, [], BatchProof([], [], t.depth)) == Err(TypeError)
  {
    assert IndexMap([], |t.values.values| - 1) == Ok(map[]);
    assert Normalize([]) == [];
    ProveUpEmpty(t.nodes, t.depth - 1, []);
    var proof := BatchProof([], [], t.depth);
    assert IndexMap([], Pow2(proof.depth) - 1) == Ok(map[]);
    VerifyUpEmpty(h, proof, proof.depth - 1, map[], []);
    VerifyBatchMapped(h, root, [], proof);
  }

  /** In a tree with an even number of leaves every leaf has its pair, so
      every non-empty request of distinct leaves makes a batch proof that
      `verifyBatch` accepts against the tree's root. */
  lemma {:induction false} EvenBatchRoundTrip(h: HashFn, t: Tree, S: seq<int>)
    requires BuiltTree(h, t) && |t.values.values| % 2 == 0
    requires (forall k :: 0 <= k < |S| ==> 0 <= S[k] < |t.values.values|) && Distinct(S) && S != []
    ensures ProveBatchSpec(t, S).Ok?
    ensures VerifyBatchSpec(h, Root(t), S, ProveBatchSpec(t, S).value) == Ok(true)
  {
    forall k | 0 <= k < |S|
      ensures Even(S[k]) + 1 < |t.values.values|
    {
      PairInRange(S[k], |t.values.values|);
    }
    BatchRoundTrip(h, t, S);
  }

  /** A request of one leaf: one pair, and a map from the leaf to position 0. */
  lemma {:induction false} SingleRequest(x: int, maxValid: int)
    ensures Normalize([x]) == [Even(x)]
    ensures 0 <= x <= maxValid ==> IndexMap([x], maxValid) == Ok(map[x := 0])
  {
    assert Sort([x]) == Insert(x, Sort([]));
    assert Collect([x]) == [Even(x)] by {
      assert [x][..0] == [];
    }
    assert Positions([x]) == map[x := 0] by {
      assert [x][..0] == [];
    }
    assert [x][1..] == [];
  }

  /** The batch proof of a single leaf: the tree's depth, and one node
      list, led by what the leaf's pair contributes. */
  lemma {:induction false} SingleShape(t: Tree, x: int)
    requires Shaped(t) && |t.values.values| <= |t.nodes| && 0 <= x < |t.values.values|
    ensures ProveBatchSpec(t, [x]).Ok?
    ensures var p := ProveBatchSpec(t, [x]).value;
      p.depth == t.depth && |p.nodes| == 1 && Prefix(LeafNodes(t, map[x := 0], Even(x)), p.nodes[0])
  {
    SingleRequest(x, |t.values.values| - 1);
    assert Distinct([x]);
    ProveBatchShape(t, [x]);
  }

  /** With an odd number of leaves, the last leaf `x` is even and has no
      pair: its batch proof alone has one node list, and that list starts
      with `undefined` for the missing pair. */
  lemma {:induction false} OddLastBatchProof(t: Tree, x: int)
    requires Shaped(t) && |t.values.values| <= |t.nodes|
    requires x % 2 == 0 && x + 1 == |t.values.values|
    ensures ProveBatchSpec(t, [x]).Ok?
    ensures var p := ProveBatchSpec(t, [x]).value;
      p.depth == t.depth && |p.nodes| == 1 && At(p.nodes[0], 0) == None
  {
    SingleShape(t, x);
    assert Even(x) == x;
    assert LeafNodes(t, map[x := 0], x) == [None];
    var p := ProveBatchSpec(t, [x]).value;
    assert p.nodes[0][0] == p.nodes[0][..1][0];
  }

  /** A lone pair with one requested leaf and no node for the other makes
      the first loop of `verifyBatch` throw. */
  lemma {:induction false} MissingLeafThrows(h: HashFn, root: Bytes, proof: BatchProof, m: map<int, nat>, e: int)
    requires |proof.nodes| == 1 && e in m && e + 1 !in m && At(proof.nodes[0], 0) == None
    ensures VerifyPairs(h, root, proof, m, [e]) == Err(TypeError)
  {
    var inputs := LeafInputs(proof, m, e, 0);
    assert inputs.1 == None;
    assert MergeValues(h, inputs.0, inputs.1) == Err(TypeError);
    assert VerifyLeaves(h, proof, m, [e], Pow2(proof.depth), 0, map[], [], []) == Err(TypeError);
  }

  /** `verifyBatch` throws on any proof whose one node list starts with
      `undefined`, given the request of a single even leaf. */
  lemma {:induction false} SingleMissingThrows(h: HashFn, root: Bytes, proof: BatchProof, x: int)
    requires 0 <= x < Pow2(proof.depth) && x % 2 == 0
    requires |proof.nodes| == 1 && At(proof.nodes[0], 0) == None
    ensures VerifyBatchSpec(h, root, [x], proof) == Err(TypeError)
  {
    var maxValid := Pow2(proof.depth) - 1;
    SingleRequest(x, maxValid);
    assert Normalize([x]) == [x] by {
      assert Even(x) == x;
    }
    VerifyBatchMapped(h, root, [x], proof);
    MissingLeafThrows(h, root, proof, map[x := 0], x);
    assert VerifyMapped(h, root, proof, Ok(map[x := 0]), [x]) == Err(TypeError);
  }

  /** With an odd number of leaves (the last leaf `x` even), `verifyBatch`
      throws on the batch proof of the last leaf alone, whatever the root:
      it hashes the missing pair. */
  lemma {:induction false} OddLastBatchThrows(h: HashFn, t: Tree, root: Bytes, x: int)
    requires Shaped(t) && |t.values.values| <= |t.nodes|
    requires x % 2 == 0 && x + 1 == |t.values.values|
    ensures ProveBatchSpec(t, [x]).Ok?
    ensures VerifyBatchSpec(h, root, [x], ProveBatchSpec(t, [x]).value) == Err(TypeError)
  {
    OddLastBatchProof(t, x);
    var p := ProveBatchSpec(t, [x]).value;
    assert 0 <= x < Pow2(p.depth);
    SingleMissingThrows(h, root, p, x);
  }
}
