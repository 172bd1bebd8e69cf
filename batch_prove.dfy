/** `proveBatch`: one proof for several leaves. Each normalized leaf pair
    gets a list of nodes; climbing the tree level by level, a node whose
    sibling is also on the current level needs no proof entry. */
module BatchProve {
  import opened Wrappers
  import opened Int32
  import opened JsVectors
  import opened JsHash
  import opened Indexes
  import opened MerkleTree

  /** `BatchMerkleProof`: the requested leaves in request order, one node
      list per leaf pair, and the depth of the tree. */
  datatype BatchProof = BatchProof(values: seq<Value>, nodes: seq<seq<Value>>, depth: nat)

  /** `array[k] = x`: a slot past the end grows the array, the slots in
      between left `undefined`. */
  function Store(vals: seq<Value>, k: nat, x: Value): (r: seq<Value>)
    ensures |r| == if k < |vals| then |vals| else k + 1
    ensures r[k] == x
    ensures forall j :: 0 <= j < |vals| && j != k ==> r[j] == vals[j]
  {
    if k < |vals| then vals[k := x] else vals + Holes(k - |vals|) + [x]
  }

  /** The leaves of pair `e` that were not requested: what `nodes[i]`
      starts with. */
  function LeafNodes(t: Tree, m: map<int, nat>, e: int): seq<Value>
  {
    if e in m then (if e + 1 in m then [] else [ValueAt(t.values, e + 1)])
    else [ValueAt(t.values, e)]
  }

  /** The requested leaves of pair `e`, stored at their request positions.
      With neither requested, `values[undefined] = v2` sets a property
      named "undefined" and no slot. */
  function StorePair(t: Tree, m: map<int, nat>, e: int, vals: seq<Value>): seq<Value>
  {
    var v1 := ValueAt(t.values, e);
    var v2 := ValueAt(t.values, e + 1);
    if e in m then
      if e + 1 in m then Store(Store(vals, m[e], v1), m[e + 1], v2) else Store(vals, m[e], v1)
    else if e + 1 in m then Store(vals, m[e + 1], v2)
    else vals
  }

  /** The first loop of `proveBatch`, from position `i` of the normalized
      indexes on: store the requested leaves, start node list `i`, and
      record the leaf parent `(index + nodeCount) >> 1`. */
  function LeafLevel(t: Tree, m: map<int, nat>, E: seq<int>, i: nat,
                     vals: seq<Value>, pn: seq<seq<Value>>, next: seq<int>)
    : (seq<Value>, seq<seq<Value>>, seq<int>)
    decreases |E| - i
  {
    if i >= |E| then (vals, pn, next)
    else
      LeafLevel(t, m, E, i + 1, StorePair(t, m, E[i], vals),
                pn + [LeafNodes(t, m, E[i])], next + [Shr1(E[i] + |t.nodes|)])
  }

  /** The second loop of `proveBatch` (`for (d = depth - 1; d > 0; d--)`
      around the loop over the current level), at level counter `d` and
      position `i` of level `L`, with the parents `next` collected so far.
      A node followed by its sibling skips both; otherwise the sibling is
      appended to node list `i`. */
  function ProveUp(nodes: seq<Digest>, d: int, L: seq<int>, i: nat, next: seq<int>, pn: seq<seq<Value>>)
    : Result<seq<seq<Value>>, Error>
    decreases if d > 0 then d else 0, |L| - i
  {
    if d <= 0 then Ok(pn)
    else if i >= |L| then ProveUp(nodes, d - 1, next, 0, [], pn)
    else
      var sibling := Xor1(L[i]);
      if i + 1 < |L| && L[i + 1] == sibling then
        ProveUp(nodes, d, L, i + 2, next + [Shr1(sibling)], pn)
      else
        var node :- ReadNode(nodes, sibling);
        if i >= |pn| then Err(TypeError)
        else ProveUp(nodes, d, L, i + 1, next + [Shr1(sibling)], pn[i := pn[i] + [node]])
  }

  /** `new Array(n)`: `n` slots, all `undefined`. */
  function Holes(n: nat): (r: seq<Value>)
    ensures |r| == n && forall j :: 0 <= j < n ==> r[j] == None
  {
    seq(n, _ => None)
  }

  /** `proveBatch(indexes)`. */
  function ProveBatchSpec(t: Tree, indexes: seq<int>): Result<BatchProof, Error>
  {
    var m :- IndexMap(indexes, |t.values.values| - 1);
    ProvePairs(t, m, Normalize(indexes))
  }

  /** Both loops of `proveBatch` over the normalized pairs `E`; the values
      array starts as `new Array(indexMap.size)`. */
  function ProvePairs(t: Tree, m: map<int, nat>, E: seq<int>): Result<BatchProof, Error>
  {
    var leaf := LeafLevel(t, m, E, 0, Holes(|m|), [], []);
    var pn :- ProveUp(t.nodes, t.depth - 1, leaf.2, 0, [], leaf.1);
    Ok(BatchProof(leaf.0, pn, t.depth))
  }

  method ProveBatch(t: Tree, indexes: seq<int>) returns (r: Result<BatchProof, Error>)
    ensures r == ProveBatchSpec(t, indexes)
  {
    var mapped := MapIndexes(indexes, |t.values.values| - 1);
    if mapped.Err? {
      return Err(mapped.error);
    }
    var E := NormalizeIndexes(indexes);
    r := ProvePairsLoop(t, mapped.value, E);
  }

  /** Both loops of `proveBatch`. */
  method ProvePairsLoop(t: Tree, m: map<int, nat>, E: seq<int>) returns (r: Result<BatchProof, Error>)
    ensures r == ProvePairs(t, m, E)
  {
    var vals, pn, next := LeafLevelLoop(t, m, E);
    var nodes := ProveLevelsLoop(t.nodes, t.depth - 1, next, pn);
    if nodes.Err? {
      return Err(nodes.error);
    }
    return Ok(BatchProof(vals, nodes.value, t.depth));
  }

  /** The first loop of `proveBatch`. */
  method LeafLevelLoop(t: Tree, m: map<int, nat>, E: seq<int>)
    returns (vals: seq<Value>, pn: seq<seq<Value>>, next: seq<int>)
    ensures (vals, pn, next) == LeafLevel(t, m, E, 0, Holes(|m|), [], [])
  {
    vals := Holes(|m|);
    pn := [];
    next := [];
    ghost var vals0 := vals;
    for i := 0 to |E|
      invariant LeafLevel(t, m, E, i, vals, pn, next) == LeafLevel(t, m, E, 0, vals0, [], [])
    {
      var index := E[i];
      var v1 := ValueAt(t.values, index);
      var v2 := ValueAt(t.values, index + 1);
      if index in m {
        if index + 1 in m {
          vals := Store(vals, m[index], v1);
          vals := Store(vals, m[index + 1], v2);
          pn := pn + [[]];
        } else {
          vals := Store(vals, m[index], v1);
          pn := pn + [[v2]];
        }
      } else {
        if index + 1 in m {
          vals := Store(vals, m[index + 1], v2);
        }
        pn := pn + [[v1]];
      }
      next := next + [Shr1(index + |t.nodes|)];
    }
  }

  /** The second loop of `proveBatch`. */
  method ProveLevelsLoop(nodes: seq<Digest>, depth: int, level: seq<int>, pn0: seq<seq<Value>>)
    returns (r: Result<seq<seq<Value>>, Error>)
    ensures r == ProveUp(nodes, depth, level, 0, [], pn0)
  {
    var pn := pn0;
    var indexes := level;
    var d := depth;
    while d > 0
      invariant ProveUp(nodes, d, indexes, 0, [], pn) == ProveUp(nodes, depth, level, 0, [], pn0)
      decreases d
    {
      var next: seq<int> := [];
      var i := 0;
      while i < |indexes|
        invariant i <= |indexes|
        invariant ProveUp(nodes, d, indexes, i, next, pn) == ProveUp(nodes, depth, level, 0, [], pn0)
        decreases |indexes| - i
      {
        var siblingIndex := Xor1(indexes[i]);
        if i + 1 < |indexes| && indexes[i + 1] == siblingIndex {
          i := i + 1;
        } else {
          var sibling := ReadNode(nodes, siblingIndex);
          if sibling.Err? {
            return Err(sibling.error);
          }
          if i >= |pn| {
            return Err(TypeError);
          }
          pn := pn[i := pn[i] + [sibling.value]];
        }
        next := next + [Shr1(siblingIndex)];
        i := i + 1;
      }
      indexes := next;
      d := d - 1;
    }
    return Ok(pn);
  }
}
