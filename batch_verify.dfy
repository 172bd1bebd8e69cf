/** `verifyBatch`: rebuilds the nodes on the paths of the requested leaves
    into a map keyed by node index, reading each missing sibling from the
    node list of its position through a per-position pointer. */
module BatchVerify {
  import opened Wrappers
  import opened Bytes
  import opened Int32
  import opened JsHash
  import opened Indexes
  import opened MerkleTree
  import opened BatchProve

  /** `v.get(k)`. */
  function Lookup(v: map<int, Bytes>, k: int): (r: Value)
    ensures r.Some? <==> k in v
    ensures r.Some? ==> r.value == v[k]
  {
    if k in v then Some(v[k]) else None
  }

  /** The two leaves of pair `e` at position `i` and the pointer into node
      list `i` after them: a requested leaf comes from `values`, the other
      one from `nodes[i][0]`. `values[undefined]` is `undefined`. */
  function LeafInputs(proof: BatchProof, m: map<int, nat>, e: int, i: nat): (Value, Value, nat)
    requires i < |proof.nodes|
  {
    if e in m then
      if e + 1 in m then (At(proof.values, m[e]), At(proof.values, m[e + 1]), 0)
      else (At(proof.values, m[e]), At(proof.nodes[i], 0), 1)
    else (At(proof.nodes[i], 0), if e + 1 in m then At(proof.values, m[e + 1]) else None, 1)
  }

  /** The first loop of `verifyBatch`, from position `i` on: merge the two
      leaves of each pair into their parent `(offset + index) >> 1`. */
  function VerifyLeaves(h: HashFn, proof: BatchProof, m: map<int, nat>, E: seq<int>, offset: int,
                        i: nat, v: map<int, Bytes>, ptr: seq<int>, next: seq<int>)
    : (r: Result<(map<int, Bytes>, seq<int>, seq<int>), Error>)
    requires |E| <= |proof.nodes|
    ensures r.Ok? && i <= |E| ==> |r.value.1| == |ptr| + |E| - i && |r.value.2| == |next| + |E| - i
    decreases |E| - i
  {
    if i >= |E| then Ok((v, ptr, next))
    else
      var inputs := LeafInputs(proof, m, E[i], i);
      var parent :- MergeValues(h, inputs.0, inputs.1);
      var parentIndex := Shr1(offset + E[i]);
      VerifyLeaves(h, proof, m, E, offset, i + 1, v[parentIndex := parent],
                   ptr + [inputs.2], next + [parentIndex])
  }

  /** One iteration of the inner loop of the second loop at position `i`:
      the sibling is the next index's node when that is the sibling (and
      the loop skips it), else the next entry of node list `i`. Gives the
      next position, the map, the pointers and the parent index, or `None`
      when the node or its sibling is missing (`return false`). */
  function LevelStep(h: HashFn, proof: BatchProof, L: seq<int>, i: nat,
                     v: map<int, Bytes>, ptr: seq<int>)
    : (r: Option<(nat, map<int, Bytes>, seq<int>, int)>)
    requires i < |L| <= |ptr| == |proof.nodes|
    ensures r.Some? ==> i < r.value.0 <= |L| && |r.value.2| == |ptr|
  {
    var nodeIndex := L[i];
    var siblingIndex := Xor1(nodeIndex);
    var paired := i + 1 < |L| && L[i + 1] == siblingIndex;
    var sibling := if paired then Lookup(v, siblingIndex) else At(proof.nodes[i], ptr[i]);
    var ptr' := if paired then ptr else ptr[i := ptr[i] + 1];
    var node := Lookup(v, nodeIndex);
    if node.None? || sibling.None? then None
    else
      var parent := if And1(nodeIndex) == 1 then Merge(h, sibling.value, node.value)
                    else Merge(h, node.value, sibling.value);
      var parentIndex := Shr1(nodeIndex);
      Some((if paired then i + 2 else i + 1, v[parentIndex := parent], ptr', parentIndex))
  }

  /** The second loop of `verifyBatch` (`for (d = depth - 1; d > 0; d--)`
      around the loop over the current level), at level counter `d` and
      position `i` of level `L`, with the parents `next` collected so far;
      `None` is `return false`. */
  function VerifyUp(h: HashFn, proof: BatchProof, d: int, L: seq<int>, i: nat, next: seq<int>,
                    v: map<int, Bytes>, ptr: seq<int>): Option<map<int, Bytes>>
    requires i <= |L| <= |ptr| == |proof.nodes| && |next| + |L| - i <= |ptr|
    decreases if d > 0 then d else 0, |L| - i
  {
    if d <= 0 then Some(v)
    else if i >= |L| then VerifyUp(h, proof, d - 1, next, 0, [], v, ptr)
    else
      match LevelStep(h, proof, L, i, v, ptr)
      case None => None
      case Some(s) => VerifyUp(h, proof, d, L, s.0, next + [s.3], s.1, s.2)
  }

  /** `MerkleTree.verifyBatch(root, indexes, proof, hash)`. */
  function VerifyBatchSpec(h: HashFn, root: Bytes, indexes: seq<int>, proof: BatchProof)
    : Result<bool, Error>
  {
    VerifyMapped(h, root, proof, IndexMap(indexes, Pow2(proof.depth) - 1), Normalize(indexes))
  }

  /** `verifyBatch` after `mapIndexes` and `normalizeIndexes`: a rejected
      index list is rethrown, and a pair count other than the number of
      node lists is `false`. */
  function VerifyMapped(h: HashFn, root: Bytes, proof: BatchProof, mapped: Result<map<int, nat>, Error>,
                        E: seq<int>): Result<bool, Error>
  {
    match mapped
    case Err(e) => Err(e)
    case Ok(m) => if |E| != |proof.nodes| then Ok(false) else VerifyPairs(h, root, proof, m, E)
  }

  /** Both loops of `verifyBatch` over the normalized pairs, then the
      comparison with the root. */
  function VerifyPairs(h: HashFn, root: Bytes, proof: BatchProof, m: map<int, nat>, E: seq<int>)
    : Result<bool, Error>
    requires |E| == |proof.nodes|
  {
    var leaf :- VerifyLeaves(h, proof, m, E, Pow2(proof.depth), 0, map[], [], []);
    RootMatches(root, VerifyUp(h, proof, proof.depth - 1, leaf.2, 0, [], leaf.0, leaf.1))
  }

  /** `root.equals(v.get(1))`: comparing with a missing node throws. */
  function RootMatches(root: Bytes, top: Option<map<int, Bytes>>): (r: Result<bool, Error>)
    ensures r.Ok? <==> top.Some? ==> 1 in top.value
    ensures r == Ok(true) <==> top.Some? && 1 in top.value && top.value[1] == root
  {
    match top
    case None => Ok(false)
    case Some(v) => if 1 in v then Ok(root == v[1]) else Err(TypeError)
  }

  method VerifyBatch(h: HashFn, root: Bytes, indexes: seq<int>, proof: BatchProof)
    returns (r: Result<bool, Error>)
    ensures r == VerifyBatchSpec(h, root, indexes, proof)
  {
    var offset := Pow2(proof.depth);
    var mapped := MapIndexes(indexes, offset - 1);
    if mapped.Err? {
      return Err(mapped.error);
    }
    var E := NormalizeIndexes(indexes);
    if |E| != |proof.nodes| {
      return Ok(false);
    }
    r := VerifyPairsLoop(h, root, proof, mapped.value, E);
  }

  /** Both loops of `verifyBatch` and the final comparison. */
  method VerifyPairsLoop(h: HashFn, root: Bytes, proof: BatchProof, m: map<int, nat>, E: seq<int>)
    returns (r: Result<bool, Error>)
    requires |E| == |proof.nodes|
    ensures r == VerifyPairs(h, root, proof, m, E)
  {
    var leaf := VerifyLeavesLoop(h, proof, m, E, Pow2(proof.depth));
    if leaf.Err? {
      return Err(leaf.error);
    }
    var top := VerifyLevelsLoop(h, proof, proof.depth - 1, leaf.value.2, leaf.value.0, leaf.value.1);
    if top.None? {
      return Ok(false);
    }
    if 1 !in top.value {
      return Err(TypeError);
    }
    return Ok(root == top.value[1]);
  }

  /** The first loop of `verifyBatch`. */
  method VerifyLeavesLoop(h: HashFn, proof: BatchProof, m: map<int, nat>, E: seq<int>, offset: int)
    returns (r: Result<(map<int, Bytes>, seq<int>, seq<int>), Error>)
    requires |E| <= |proof.nodes|
    ensures r == VerifyLeaves(h, proof, m, E, offset, 0, map[], [], [])
  {
    var v: map<int, Bytes> := map[];
    var ptr: seq<int> := [];
    var next: seq<int> := [];
    for i := 0 to |E|
      invariant VerifyLeaves(h, proof, m, E, offset, i, v, ptr, next) ==
        VerifyLeaves(h, proof, m, E, offset, 0, map[], [], [])
    {
      var index := E[i];
      var inputs := LeafInputs(proof, m, index, i);
      var v1, v2 := inputs.0, inputs.1;
      ptr := ptr + [inputs.2];
      var parent := MergeValues(h, v1, v2);
      if parent.Err? {
        return Err(parent.error);
      }
      var parentIndex := Shr1(offset + index);
      v := v[parentIndex := parent.value];
      next := next + [parentIndex];
    }
    return Ok((v, ptr, next));
  }

  /** The second loop of `verifyBatch`. */
  method VerifyLevelsLoop(h: HashFn, proof: BatchProof, depth: int, level: seq<int>,
                          v0: map<int, Bytes>, ptr0: seq<int>)
    returns (r: Option<map<int, Bytes>>)
    requires |level| <= |ptr0| == |proof.nodes|
    ensures r == VerifyUp(h, proof, depth, level, 0, [], v0, ptr0)
  {
    var v: map<int, Bytes>, ptr: seq<int>, indexes: seq<int> := v0, ptr0, level;
    var d := depth;
    while d > 0
      invariant |indexes| <= |ptr| == |proof.nodes|
      invariant VerifyUp(h, proof, d, indexes, 0, [], v, ptr) == VerifyUp(h, proof, depth, level, 0, [], v0, ptr0)
      decreases d
    {
      var next: seq<int> := [];
      var i := 0;
      while i < |indexes|
        invariant i <= |indexes| && |ptr| == |proof.nodes| && |next| + |indexes| - i <= |ptr|
        invariant VerifyUp(h, proof, d, indexes, i, next, v, ptr) == VerifyUp(h, proof, depth, level, 0, [], v0, ptr0)
        decreases |indexes| - i
      {
        var nodeIndex := indexes[i];
        var siblingIndex := Xor1(nodeIndex);
        var sibling: Value;
        if i + 1 < |indexes| && indexes[i + 1] == siblingIndex {
          sibling := Lookup(v, siblingIndex);
          i := i + 1;
        } else {
          var pointer := ptr[i];
          sibling := At(proof.nodes[i], pointer);
          ptr := ptr[i := pointer + 1];
        }
        var node := Lookup(v, nodeIndex);
        if node.None? || sibling.None? {
          return None;
        }
        var parent := if And1(nodeIndex) == 1 then Merge(h, sibling.value, node.value)
                      else Merge(h, node.value, sibling.value);
        var parentIndex := Shr1(nodeIndex);
        v := v[parentIndex := parent];
        next := next + [parentIndex];
        i := i + 1;
      }
      indexes := next;
      d := d - 1;
    }
    return Some(v);
  }
}
