/** The levels the second loop of `proveBatch` climbs through. Each pass
    over a level pushes one parent per node, or one per node and sibling
    side by side. The levels stay strictly ascending, so a node's sibling,
    when it is on the level at all, stands right beside it. That is what
    lets the `indexes[i + 1] === siblingIndex` test see every such sibling. */
module BatchLevels {
  import opened Wrappers
  import opened Int32
  import opened JsVectors
  import opened JsHash
  import opened Indexes
  import opened MerkleTree
  import opened BatchProve
  import BatchSound

  /** Every entry is an index the bit operators take as it is. */
  predicate InRange(L: seq<int>)
  {
    forall k :: 0 <= k < |L| ==> 0 <= L[k] < TWO_31
  }

  /** The node at position `i` is followed by its sibling, and the loop
      handles the two in one iteration. */
  predicate PairedAt(L: seq<int>, i: nat)
  {
    i + 1 < |L| && L[i + 1] == Xor1(L[i])
  }

  /** The parents one pass over level `L` pushes from position `i` on
      (`nextIndexes.push(siblingIndex >> 1)`). */
  function Parents(L: seq<int>, i: nat): seq<int>
    decreases |L| - i
  {
    if i >= |L| then []
    else if PairedAt(L, i) then [Shr1(Xor1(L[i]))] + Parents(L, i + 2)
    else [Shr1(Xor1(L[i]))] + Parents(L, i + 1)
  }

  /** What one pass over level `L` from position `i` on does to the node
      lists: a node with no sibling beside it gets the sibling appended to
      list `i`. */
  function ProveLevel(nodes: seq<Digest>, L: seq<int>, i: nat, pn: seq<seq<Value>>)
    : Result<seq<seq<Value>>, Error>
    decreases |L| - i
  {
    if i >= |L| then Ok(pn)
    else if PairedAt(L, i) then ProveLevel(nodes, L, i + 2, pn)
    else
      var node :- ReadNode(nodes, Xor1(L[i]));
      if i >= |pn| then Err(TypeError)
      else ProveLevel(nodes, L, i + 1, pn[i := pn[i] + [node]])
  }

  /** The climb one level at a time: a pass over `L`, then `d - 1` more
      levels from the parents of `L`. */
  function ProveLevels(nodes: seq<Digest>, d: int, L: seq<int>, pn: seq<seq<Value>>)
    : Result<seq<seq<Value>>, Error>
    decreases if d > 0 then d else 0
  {
    if d <= 0 then Ok(pn)
    else
      var pn' :- ProveLevel(nodes, L, 0, pn);
      ProveLevels(nodes, d - 1, Parents(L, 0), pn')
  }

  /** The level `k` passes above `L`. */
  function Level(L: seq<int>, k: nat): seq<int>
    decreases k
  {
    if k == 0 then L else Level(Parents(L, 0), k - 1)
  }

  /** A node followed by its sibling: both loops skip the two together,
      and the pair's parent is pushed once. */
  lemma {:induction false} PassPaired(nodes: seq<Digest>, d: int, L: seq<int>, i: nat,
                                      next: seq<int>, pn: seq<seq<Value>>)
    requires d > 0 && PairedAt(L, i)
    ensures ProveUp(nodes, d, L, i, next, pn) == ProveUp(nodes, d, L, i + 2, next + [Shr1(Xor1(L[i]))], pn)
    ensures ProveLevel(nodes, L, i, pn) == ProveLevel(nodes, L, i + 2, pn)
    ensures Parents(L, i) == [Shr1(Xor1(L[i]))] + Parents(L, i + 2)
  {
  }

  /** A node without its sibling beside it: the sibling is read and
      appended to list `i`, unless the read or the list is missing. */
  lemma {:induction false} PassLone(nodes: seq<Digest>, d: int, L: seq<int>, i: nat,
                                    next: seq<int>, pn: seq<seq<Value>>)
    requires d > 0 && i < |L| && !PairedAt(L, i)
    ensures var node := ReadNode(nodes, Xor1(L[i]));
      var p := Shr1(Xor1(L[i]));
      if node.Err? then
        ProveUp(nodes, d, L, i, next, pn) == Err(node.error) && ProveLevel(nodes, L, i, pn) == Err(node.error)
      else if i >= |pn| then
        ProveUp(nodes, d, L, i, next, pn) == Err(TypeError) && ProveLevel(nodes, L, i, pn) == Err(TypeError)
      else
        ProveUp(nodes, d, L, i, next, pn) == ProveUp(nodes, d, L, i + 1, next + [p], pn[i := pn[i] + [node.value]]) &&
        ProveLevel(nodes, L, i, pn) == ProveLevel(nodes, L, i + 1, pn[i := pn[i] + [node.value]])
    ensures Parents(L, i) == [Shr1(Xor1(L[i]))] + Parents(L, i + 1)
  {
  }

  /** At counter `d > 0`, the rest of the inner loop from position `i` is
      the rest of the pass over `L`. The next level then starts from `next`
      followed by the parents that rest pushes. */
  lemma {:induction false} ProveUpPass(nodes: seq<Digest>, d: int, L: seq<int>, i: nat,
                                       next: seq<int>, pn: seq<seq<Value>>)
    requires d > 0 && i <= |L|
    ensures ProveUp(nodes, d, L, i, next, pn) ==
      match ProveLevel(nodes, L, i, pn)
      case Err(e) => Err(e)
      case Ok(pn') => ProveUp(nodes, d - 1, next + Parents(L, i), 0, [], pn')
    decreases |L| - i
  {
    if i == |L| {
      assert next + Parents(L, i) == next;
    } else {
      var p := Shr1(Xor1(L[i]));
      if PairedAt(L, i) {
        PassPaired(nodes, d, L, i, next, pn);
        ProveUpPass(nodes, d, L, i + 2, next + [p], pn);
        assert next + [p] + Parents(L, i + 2) == next + Parents(L, i);
      } else {
        PassLone(nodes, d, L, i, next, pn);
        var node := ReadNode(nodes, Xor1(L[i]));
        if node.Ok? && i < |pn| {
          ProveUpPass(nodes, d, L, i + 1, next + [p], pn[i := pn[i] + [node.value]]);
          assert next + [p] + Parents(L, i + 1) == next + Parents(L, i);
        }
      }
    }
  }

  /** The second loop of `proveBatch` is the climb one level at a time. */
  lemma {:induction false} ProveUpIsLevels(nodes: seq<Digest>, d: int, L: seq<int>, pn: seq<seq<Value>>)
    ensures ProveUp(nodes, d, L, 0, [], pn) == ProveLevels(nodes, d, L, pn)
    decreases if d > 0 then d else 0
  {
    if d > 0 {
      ProveUpPass(nodes, d, L, 0, [], pn);
      assert [] + Parents(L, 0) == Parents(L, 0);
      var r := ProveLevel(nodes, L, 0, pn);
      if r.Ok? {
        ProveUpIsLevels(nodes, d - 1, Parents(L, 0), r.value);
      }
    }
  }

  /** In a strictly ascending level, the node after a lone node lies in a
      later pair: its parent is above the lone node's. */
  lemma {:induction false} NextParentAbove(L: seq<int>, i: nat)
    requires StrictlyAscending(L) && InRange(L)
    requires i + 1 < |L|
    ensures var j := if PairedAt(L, i) then i + 2 else i + 1;
      j < |L| ==> L[i] / 2 < L[j] / 2
  {
    if PairedAt(L, i) {
      assert L[i] < L[i + 1];
      assert L[i] % 2 == 0;
      if i + 2 < |L| {
        assert L[i + 1] < L[i + 2];
      }
    }
  }

  /** A pass over a strictly ascending level pushes strictly ascending
      parents, each at or above the parent of the node it starts from, and
      no more of them than there are nodes left. */
  lemma {:induction false} ParentsAscending(L: seq<int>, i: nat)
    requires StrictlyAscending(L) && InRange(L) && i <= |L|
    ensures StrictlyAscending(Parents(L, i)) && InRange(Parents(L, i))
    ensures |Parents(L, i)| <= |L| - i
    ensures i < |L| ==> Parents(L, i) != [] && Parents(L, i)[0] == L[i] / 2
    ensures i < |L| ==> forall k :: 0 <= k < |Parents(L, i)| ==> L[i] / 2 <= Parents(L, i)[k]
    decreases |L| - i
  {
    if i < |L| {
      var j := if PairedAt(L, i) then i + 2 else i + 1;
      var rest := Parents(L, j);
      ParentsAscending(L, j);
      ParentOf(L[i]);
      assert Parents(L, i) == [L[i] / 2] + rest;
      if j < |L| {
        NextParentAbove(L, i);
      }
      ConsAscending(L[i] / 2, rest);
    }
  }

  /** `(x ^ 1) >> 1` is the parent `x / 2` of node `x`. */
  lemma {:induction false} ParentOf(x: int)
    requires 0 <= x < TWO_31
    ensures Shr1(Xor1(x)) == x / 2 && 0 <= x / 2 < TWO_31
  {
  }

  /** A strictly ascending list stays so with a smaller first element. */
  lemma {:induction false} ConsAscending(a: int, rest: seq<int>)
    requires StrictlyAscending(rest) && forall k :: 0 <= k < |rest| ==> a < rest[k]
    ensures StrictlyAscending([a] + rest)
  {
    var s := [a] + rest;
    forall x, y | 0 <= x < y < |s|
      ensures s[x] < s[y]
    {
      if x > 0 {
        assert s[x] == rest[x - 1];
      }
      assert s[y] == rest[y - 1];
    }
  }

  /** Every level the climb reaches from a strictly ascending level is
      strictly ascending, and no longer than the level it started from. */
  lemma {:induction false} LevelsAscending(L: seq<int>, k: nat)
    requires StrictlyAscending(L) && InRange(L)
    ensures StrictlyAscending(Level(L, k)) && InRange(Level(L, k))
    ensures |Level(L, k)| <= |L|
    decreases k
  {
    if k > 0 {
      ParentsAscending(L, 0);
      LevelsAscending(Parents(L, 0), k - 1);
    }
  }

  /** In a strictly ascending level, a node whose sibling is on the level
      has it right beside it. An even node is followed by its sibling. An
      odd node is preceded by it, and the two were taken together one step
      earlier. */
  lemma {:induction false} SiblingAdjacent(L: seq<int>, i: nat)
    requires StrictlyAscending(L) && InRange(L) && i < |L| && Xor1(L[i]) in L
    ensures L[i] % 2 == 0 ==> PairedAt(L, i)
    ensures L[i] % 2 == 1 ==> i > 0 && PairedAt(L, i - 1)
  {
    var j :| 0 <= j < |L| && L[j] == Xor1(L[i]);
    if L[i] % 2 == 0 {
      assert L[j] == L[i] + 1 && i < j;
    } else {
      assert L[j] == L[i] - 1 && j < i;
      assert Xor1(L[i - 1]) == L[i];
    }
  }

  /** The pairs of requested leaves are leaf pairs too. */
  lemma {:induction false} NormalizedBelow(S: seq<int>, n: int)
    requires forall k :: 0 <= k < |S| ==> 0 <= S[k] < n
    ensures forall k :: 0 <= k < |Normalize(S)| ==> 0 <= Normalize(S)[k] < n
  {
    NormalizeSpec(S);
    forall k | 0 <= k < |Normalize(S)|
      ensures 0 <= Normalize(S)[k] < n
    {
      var z := Normalize(S)[k];
      assert z in Normalize(S);
      var x :| x in S && Even(x) == z;
      var j :| 0 <= j < |S| && S[j] == x;
    }
  }

  /** The leaf parents the first loop of `proveBatch` hands upward are
      strictly ascending, since the normalized pairs are. */
  lemma {:induction false} LeafParentsAscending(t: Tree, m: map<int, nat>, S: seq<int>)
    requires Shaped(t) && |t.values.values| <= |t.nodes|
    requires forall k :: 0 <= k < |S| ==> 0 <= S[k] < |t.values.values|
    ensures var leaf := LeafLevel(t, m, Normalize(S), 0, Holes(|m|), [], []);
      StrictlyAscending(leaf.2) && InRange(leaf.2)
  {
    NormalizeSpec(S);
    NormalizedBelow(S, |t.values.values|);
    PairParentsAscending(t, m, Normalize(S));
  }

  /** The first loop of `proveBatch` pushes the leaf parent
      `(index + nodeCount) >> 1` of each pair from position `i` on. */
  lemma {:induction false} LeafLevelParents(t: Tree, m: map<int, nat>, E: seq<int>, i: nat,
                                            vals: seq<Value>, pn: seq<seq<Value>>, next: seq<int>)
    requires i <= |E| && |next| == i
    ensures var r := LeafLevel(t, m, E, i, vals, pn, next).2;
      |r| == |E| && (forall j :: 0 <= j < i ==> r[j] == next[j]) &&
      forall j :: i <= j < |E| ==> r[j] == Shr1(E[j] + |t.nodes|)
    decreases |E| - i
  {
    if i < |E| {
      LeafLevelParents(t, m, E, i + 1, StorePair(t, m, E[i], vals),
                       pn + [LeafNodes(t, m, E[i])], next + [Shr1(E[i] + |t.nodes|)]);
    }
  }

  /** Two even numbers apart are at least two apart, and so are their
      halves one apart after adding the same even offset. */
  lemma {:induction false} EvenHalves(a: int, b: int, p: nat)
    requires 0 <= a < b && a % 2 == 0 && b % 2 == 0
    ensures (a + 2 * p) / 2 < (b + 2 * p) / 2
  {
    assert a + 2 <= b;
  }

  /** Halving strictly ascending even numbers after an even offset keeps
      them strictly ascending. */
  lemma {:induction false} HalvesAscending(E: seq<int>, p: nat, r: seq<int>)
    requires StrictlyAscending(E) && |r| == |E|
    requires forall k :: 0 <= k < |E| ==> 0 <= E[k] && E[k] % 2 == 0 && r[k] == (E[k] + 2 * p) / 2
    ensures StrictlyAscending(r)
  {
    forall a, b | 0 <= a < b < |E|
      ensures r[a] < r[b]
    {
      EvenHalves(E[a], E[b], p);
    }
  }

  /** Strictly ascending even leaf pairs have strictly ascending parents. */
  lemma {:induction false} PairParentsAscending(t: Tree, m: map<int, nat>, E: seq<int>)
    requires Shaped(t) && StrictlyAscending(E)
    requires forall k :: 0 <= k < |E| ==> 0 <= E[k] < |t.nodes| && E[k] % 2 == 0
    ensures var leaf := LeafLevel(t, m, E, 0, Holes(|m|), [], []);
      StrictlyAscending(leaf.2) && InRange(leaf.2)
  {
    var P := Pow2(t.depth - 1);
    var N := |t.nodes|;
    var r := LeafLevel(t, m, E, 0, Holes(|m|), [], []).2;
    ShapedBounds(t);
    assert N == 2 * P;
    LeafLevelParents(t, m, E, 0, Holes(|m|), [], []);
    forall k | 0 <= k < |E|
      ensures r[k] == (E[k] + 2 * P) / 2 && 0 <= r[k] < TWO_31
    {
      assert 0 <= E[k] + N < TWO_31;
    }
    HalvesAscending(E, P, r);
  }

  /** The levels `proveBatch` climbs through, for any request of leaves:
      the climb is the leaf parents' level followed by the levels above it,
      and each of these, `Level(leaf parents, k)`, is strictly ascending. */
  lemma {:induction false} ProverLevelsAscending(t: Tree, m: map<int, nat>, S: seq<int>, k: nat)
    requires Shaped(t) && |t.values.values| <= |t.nodes|
    requires forall j :: 0 <= j < |S| ==> 0 <= S[j] < |t.values.values|
    ensures var leaf := LeafLevel(t, m, Normalize(S), 0, Holes(|m|), [], []);
      ProvePairs(t, m, Normalize(S)) ==
        (match ProveLevels(t.nodes, t.depth - 1, leaf.2, leaf.1)
         case Err(e) => Err(e)
         case Ok(pn) => Ok(BatchProof(leaf.0, pn, t.depth))) &&
      StrictlyAscending(Level(leaf.2, k)) && InRange(Level(leaf.2, k))
  {
    var leaf := LeafLevel(t, m, Normalize(S), 0, Holes(|m|), [], []);
    ProveUpIsLevels(t.nodes, t.depth - 1, leaf.2, leaf.1);
    LeafParentsAscending(t, m, S);
    LevelsAscending(leaf.2, k);
  }
}
