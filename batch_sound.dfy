/** What `proveBatch` and `verifyBatch` promise together: a batch proof
    built from a tree verifies against that tree's root. Both second loops
    are walked in lockstep: the prover appends the sibling of each node
    whose sibling is not also on the level, and the verifier reads that
    very entry back through its pointer. */
module BatchSound {
  import opened Wrappers
  import opened Bytes
  import opened Int32
  import opened JsVectors
  import opened JsHash
  import opened Indexes
  import opened MerkleTree
  import opened BatchProve
  import opened BatchVerify

  /** `a` is a prefix of `b`. */
  predicate Prefix(a: seq<Value>, b: seq<Value>)
  {
    |a| <= |b| && b[..|a|] == a
  }

  /** Every node the verifier holds is the tree's own node. */
  predicate Known(nodes: seq<Digest>, v: map<int, Bytes>)
  {
    forall x :: x in v ==> 0 <= x < |nodes| && v[x] == nodes[x]
  }

  /** Node `x` is on level `d` of the heap. */
  predicate OnLevel(x: int, d: nat)
  {
    Pow2(d) <= x < Pow2(d + 1)
  }

  /** The parent of a node on level `d >= 1` is on level `d - 1`. */
  lemma {:induction false} HalfLevel(x: int, d: nat)
    requires 1 <= d && OnLevel(x, d)
    ensures OnLevel(x / 2, d - 1)
  {
    assert Pow2(d) == 2 * Pow2(d - 1);
    assert Pow2(d + 1) == 2 * Pow2(d);
  }

  /** A node on a level below the leaf parents' and above the root's lies
      inside the node buffer, where the bit operators are exact, and has
      its parent on the level above. */
  lemma {:induction false} InnerNode(t: Tree, d: nat, x: int)
    requires Shaped(t) && 1 <= d < t.depth && OnLevel(x, d)
    ensures 2 <= x < |t.nodes| && x < TWO_31 && 0 <= x / 2 < |t.nodes| && OnLevel(x / 2, d - 1)
  {
    ShapedBounds(t);
    Pow2Monotone(d + 1, t.depth);
    Pow2Monotone(1, d);
    HalfLevel(x, d);
  }

  /** A node below the root and its sibling have the same parent, and the
      verifier's merge of the two, in the order the low bit says, is that
      parent's slot. */
  lemma {:induction false} ParentOfPair(h: HashFn, nodes: seq<Digest>, parentCount: nat, x: int)
    requires HeapInvariant(h, nodes, parentCount)
    requires 2 <= x < |nodes| && x < TWO_31
    ensures 0 <= Xor1(x) < |nodes| && Shr1(x) == x / 2 == Shr1(Xor1(x))
    ensures (if And1(x) == 1 then Merge(h, nodes[Xor1(x)], nodes[x])
             else Merge(h, nodes[x], nodes[Xor1(x)])) == nodes[x / 2]
  {
    var q := x / 2;
    assert 1 <= q < parentCount;
    assert MergedAt(h, nodes, q);
    if x % 2 == 1 {
      assert Xor1(x) == 2 * q;
    } else {
      assert Xor1(x) == 2 * q + 1;
    }
  }

  /** The second loop of `proveBatch` only appends to the node lists. */
  lemma {:induction false} ProveUpAppends(nodes: seq<Digest>, d: int, L: seq<int>, i: nat,
                                          next: seq<int>, pn: seq<seq<Value>>)
    requires ProveUp(nodes, d, L, i, next, pn).Ok?
    ensures var F := ProveUp(nodes, d, L, i, next, pn).value;
      |F| == |pn| && forall j :: 0 <= j < |pn| ==> Prefix(pn[j], F[j])
    decreases if d > 0 then d else 0, |L| - i
  {
    if d <= 0 {
    } else if i >= |L| {
      ProveUpAppends(nodes, d - 1, next, 0, [], pn);
    } else {
      var sibling := Xor1(L[i]);
      if i + 1 < |L| && L[i + 1] == sibling {
        ProveUpAppends(nodes, d, L, i + 2, next + [Shr1(sibling)], pn);
      } else {
        var node := ReadNode(nodes, sibling).value;
        var pn' := pn[i := pn[i] + [node]];
        ProveUpAppends(nodes, d, L, i + 1, next + [Shr1(sibling)], pn');
        var F := ProveUp(nodes, d, L, i, next, pn).value;
        assert F[i][..|pn[i]|] == F[i][..|pn'[i]|][..|pn[i]|];
      }
    }
  }

  /** The second loop of `proveBatch` cannot fail while every index of the
      current level, and every parent collected, lies on its level inside
      the node buffer. */
  lemma {:induction false} ProveUpOk(nodes: seq<Digest>, d: nat, L: seq<int>, i: nat,
                                     next: seq<int>, pn: seq<seq<Value>>)
    requires Pow2(d + 1) <= |nodes| <= 0x400_0000
    requires i <= |L| <= |pn| && |next| + |L| - i <= |pn|
    requires forall j :: i <= j < |L| ==> OnLevel(L[j], d)
    requires forall j :: 0 <= j < |next| ==> 1 <= d && OnLevel(next[j], d - 1)
    ensures ProveUp(nodes, d, L, i, next, pn).Ok?
    decreases d, |L| - i
  {
    if d == 0 {
    } else if i >= |L| {
      Pow2Monotone(d, d + 1);
      ProveUpOk(nodes, d - 1, next, 0, [], pn);
    } else {
      var s := Xor1(L[i]);
      SiblingLevel(L[i], d);
      HalfLevel(s, d);
      if i + 1 < |L| && L[i + 1] == s {
        ProveUpOk(nodes, d, L, i + 2, next + [Shr1(s)], pn);
      } else {
        ProveUpOk(nodes, d, L, i + 1, next + [Shr1(s)], pn[i := pn[i] + [Some(nodes[s])]]);
      }
    }
  }

  /** The two second loops in lockstep at level counter `d` and position
      `i` of level `L`: the prover, from here with node lists `pn`, ends
      with the proof's node lists; the verifier holds the tree's own nodes
      for the rest of `L` and for the parents `next`, and its pointer into
      each list sits just past the entries the prover had made so far. */
  ghost predicate Climbing(h: HashFn, t: Tree, proof: BatchProof, d: nat, L: seq<int>, i: nat,
                           next: seq<int>, v: map<int, Bytes>, ptr: seq<int>, pn: seq<seq<Value>>)
  {
    Shaped(t) && HeapInvariant(h, t.nodes, Pow2(t.depth - 1)) && d < t.depth &&
    i <= |L| <= |ptr| == |pn| == |proof.nodes| && |next| + |L| - i <= |ptr| &&
    0 < |next| + |L| - i && (d == 0 ==> i == 0 && next == []) &&
    (forall j :: i <= j < |L| ==> OnLevel(L[j], d) && L[j] in v) &&
    (forall j :: 0 <= j < |next| ==> 1 <= d && OnLevel(next[j], d - 1) && next[j] in v) &&
    Known(t.nodes, v) &&
    (forall j :: 0 <= j < |ptr| ==> ptr[j] == |pn[j]|) &&
    ProveUp(t.nodes, d, L, i, next, pn) == Ok(proof.nodes)
  }

  /** After one iteration the verifier has also learnt parent `q`, on the
      level above, and the pointers still match the node lists: the two
      loops go on in lockstep to the root. */
  lemma {:induction false} ClimbingStep(h: HashFn, t: Tree, proof: BatchProof, d: nat,
                                        L: seq<int>, i: nat, i2: nat, next: seq<int>,
                                        v: map<int, Bytes>, ptr: seq<int>, pn: seq<seq<Value>>,
                                        q: int, ptr': seq<int>, pn': seq<seq<Value>>)
    requires Climbing(h, t, proof, d, L, i, next, v, ptr, pn) && 1 <= d
    requires i < i2 <= |L| && 0 <= q < |t.nodes| && OnLevel(q, d - 1)
    requires |ptr'| == |ptr| && |pn'| == |pn| && forall j :: 0 <= j < |ptr'| ==> ptr'[j] == |pn'[j]|
    requires ProveUp(t.nodes, d, L, i2, next + [q], pn') == Ok(proof.nodes)
    ensures Reached(VerifyUp(h, proof, d, L, i2, next + [q], v[q := t.nodes[q]], ptr'), t.nodes[1])
    decreases d, |L| - i, 0
  {
    ClimbVerifies(h, t, proof, d, L, i2, next + [q], v[q := t.nodes[q]], ptr', pn');
  }

  /** The prover's side of a node whose sibling is not on the level: the
      sibling goes at the end of node list `i`, where the proof keeps it. */
  lemma {:induction false} LonelyEntry(nodes: seq<Digest>, d: nat, L: seq<int>, i: nat,
                                       next: seq<int>, pn: seq<seq<Value>>, F: seq<seq<Value>>)
    requires 1 <= d && i < |L| && i < |pn| && 0 <= Xor1(L[i]) < |nodes|
    requires !(i + 1 < |L| && L[i + 1] == Xor1(L[i]))
    requires ProveUp(nodes, d, L, i, next, pn) == Ok(F)
    ensures var s := Xor1(L[i]);
      ProveUp(nodes, d, L, i + 1, next + [Shr1(s)], pn[i := pn[i] + [Some(nodes[s])]]) == Ok(F)
    ensures i < |F| && At(F[i], |pn[i]|) == Some(nodes[Xor1(L[i])])
  {
    var s := Xor1(L[i]);
    var pn' := pn[i := pn[i] + [Some(nodes[s])]];
    ProveUpAppends(nodes, d, L, i + 1, next + [Shr1(s)], pn');
    assert F[i][..|pn'[i]|] == pn'[i];
  }

  /** One iteration of the verifier's inner loop at a node it holds, whose
      sibling it holds or finds at the pointer: the parent it computes is
      the tree's own. */
  lemma {:induction false} TreeStep(h: HashFn, nodes: seq<Digest>, parentCount: nat, proof: BatchProof,
                                    L: seq<int>, i: nat, v: map<int, Bytes>, ptr: seq<int>)
    requires HeapInvariant(h, nodes, parentCount)
    requires i < |L| <= |ptr| == |proof.nodes|
    requires 2 <= L[i] < |nodes| && L[i] < TWO_31 && L[i] in v && Known(nodes, v)
    requires i + 1 < |L| && L[i + 1] == Xor1(L[i]) ==> L[i + 1] in v
    requires !(i + 1 < |L| && L[i + 1] == Xor1(L[i])) ==> At(proof.nodes[i], ptr[i]) == Some(nodes[Xor1(L[i])])
    ensures var paired := i + 1 < |L| && L[i + 1] == Xor1(L[i]);
      LevelStep(h, proof, L, i, v, ptr) ==
      Some((if paired then i + 2 else i + 1, v[L[i] / 2 := nodes[L[i] / 2]],
            if paired then ptr else ptr[i := ptr[i] + 1], L[i] / 2))
  {
    ParentOfPair(h, nodes, parentCount, L[i]);
  }

  /** A node whose sibling follows it on the level: both sides skip the
      pair, and the verifier learns the parent. */
  lemma {:induction false} ClimbPaired(h: HashFn, t: Tree, proof: BatchProof, d: nat,
                                       L: seq<int>, i: nat, next: seq<int>,
                                       v: map<int, Bytes>, ptr: seq<int>, pn: seq<seq<Value>>)
    requires Climbing(h, t, proof, d, L, i, next, v, ptr, pn) && 1 <= d
    requires i + 1 < |L| && L[i + 1] == Xor1(L[i])
    ensures Reached(VerifyUp(h, proof, d, L, i, next, v, ptr), t.nodes[1])
    decreases d, |L| - i, 1
  {
    var x := L[i];
    InnerNode(t, d, x);
    ParentOfPair(h, t.nodes, Pow2(t.depth - 1), x);
    var q := x / 2;
    var v' := v[q := t.nodes[q]];
    TreeStep(h, t.nodes, Pow2(t.depth - 1), proof, L, i, v, ptr);
    ClimbingStep(h, t, proof, d, L, i, i + 2, next, v, ptr, pn, q, ptr, pn);
  }

  /** A node whose sibling is not on the level: the prover appends the
      sibling to node list `i`, and the verifier reads it back there. */
  lemma {:induction false} ClimbLonely(h: HashFn, t: Tree, proof: BatchProof, d: nat,
                                       L: seq<int>, i: nat, next: seq<int>,
                                       v: map<int, Bytes>, ptr: seq<int>, pn: seq<seq<Value>>)
    requires Climbing(h, t, proof, d, L, i, next, v, ptr, pn) && 1 <= d && i < |L|
    requires !(i + 1 < |L| && L[i + 1] == Xor1(L[i]))
    ensures Reached(VerifyUp(h, proof, d, L, i, next, v, ptr), t.nodes[1])
    decreases d, |L| - i, 1
  {
    var x := L[i];
    InnerNode(t, d, x);
    ParentOfPair(h, t.nodes, Pow2(t.depth - 1), x);
    var s, q := Xor1(x), x / 2;
    var v' := v[q := t.nodes[q]];
    var pn' := pn[i := pn[i] + [Some(t.nodes[s])]];
    var ptr' := ptr[i := ptr[i] + 1];
    LonelyEntry(t.nodes, d, L, i, next, pn, proof.nodes);
    TreeStep(h, t.nodes, Pow2(t.depth - 1), proof, L, i, v, ptr);
    ClimbingStep(h, t, proof, d, L, i, i + 1, next, v, ptr, pn, q, ptr', pn');
  }

  /** The end of a level: both sides move to the parents collected. */
  lemma {:induction false} ClimbLevel(h: HashFn, t: Tree, proof: BatchProof, d: nat,
                                      L: seq<int>, i: nat, next: seq<int>,
                                      v: map<int, Bytes>, ptr: seq<int>, pn: seq<seq<Value>>)
    requires Climbing(h, t, proof, d, L, i, next, v, ptr, pn) && 1 <= d && i >= |L|
    ensures Reached(VerifyUp(h, proof, d, L, i, next, v, ptr), t.nodes[1])
    decreases d, |L| - i, 0
  {
    ClimbVerifies(h, t, proof, d - 1, next, 0, [], v, ptr, pn);
  }

  /** The verifier's second loop ended holding `root` as node 1. */
  predicate Reached(top: Option<map<int, Bytes>>, root: Bytes)
  {
    top.Some? && 1 in top.value && top.value[1] == root
  }

  /** At level counter 0 the level is the root alone, which the verifier
      holds. */
  lemma {:induction false} ClimbTop(h: HashFn, t: Tree, proof: BatchProof,
                                    L: seq<int>, i: nat, next: seq<int>,
                                    v: map<int, Bytes>, ptr: seq<int>, pn: seq<seq<Value>>)
    requires Climbing(h, t, proof, 0, L, i, next, v, ptr, pn)
    ensures Reached(VerifyUp(h, proof, 0, L, i, next, v, ptr), t.nodes[1])
  {
    assert OnLevel(L[0], 0);
  }

  /** Climbing in lockstep, the verifier reaches the tree's root. */
  lemma {:induction false} ClimbVerifies(h: HashFn, t: Tree, proof: BatchProof, d: nat,
                                         L: seq<int>, i: nat, next: seq<int>,
                                         v: map<int, Bytes>, ptr: seq<int>, pn: seq<seq<Value>>)
    requires Climbing(h, t, proof, d, L, i, next, v, ptr, pn)
    ensures Reached(VerifyUp(h, proof, d, L, i, next, v, ptr), t.nodes[1])
    decreases d, |L| - i, 2
  {
    if d == 0 {
      ClimbTop(h, t, proof, L, i, next, v, ptr, pn);
    } else if i >= |L| {
      ClimbLevel(h, t, proof, d, L, i, next, v, ptr, pn);
    } else if i + 1 < |L| && L[i + 1] == Xor1(L[i]) {
      ClimbPaired(h, t, proof, d, L, i, next, v, ptr, pn);
    } else {
      ClimbLonely(h, t, proof, d, L, i, next, v, ptr, pn);
    }
  }

  /** Leaf pair `e` lies inside the leaves, and at least one of its two
      leaves was requested. */
  predicate PairFits(t: Tree, m: map<int, nat>, e: int)
  {
    e % 2 == 0 && 0 <= e && e + 1 < |t.values.values| && (e in m || e + 1 in m)
  }

  /** Both leaves of an even pair normalize to the pair. */
  lemma {:induction false} EvenOfPair(e: int)
    requires e % 2 == 0
    ensures Even(e) == e && Even(e + 1) == e
  {
  }

  /** The first loop of `proveBatch` opens one node list and records one
      leaf parent per pair: node list `j` starts with the unrequested
      leaves of pair `j`. */
  lemma {:induction false} LeafLevelShape(t: Tree, m: map<int, nat>, E: seq<int>, i: nat,
                                          vals: seq<Value>, pn: seq<seq<Value>>, next: seq<int>)
    requires i <= |E| && |pn| == i && |next| == i
    ensures var r := LeafLevel(t, m, E, i, vals, pn, next);
      |r.1| == |E| && |r.2| == |E| &&
      (forall j :: 0 <= j < i ==> r.1[j] == pn[j] && r.2[j] == next[j]) &&
      (forall j :: i <= j < |E| ==> r.1[j] == LeafNodes(t, m, E[j]) && r.2[j] == Shr1(E[j] + |t.nodes|))
    decreases |E| - i
  {
    if i < |E| {
      LeafLevelShape(t, m, E, i + 1, StorePair(t, m, E[i], vals),
                     pn + [LeafNodes(t, m, E[i])], next + [Shr1(E[i] + |t.nodes|)]);
    }
  }

  /** The first loop of `proveBatch` stores each requested leaf of the pairs
      at its request position. `S` is the request list, of which `m` gives
      positions. */
  lemma {:induction false} LeafLevelValues(t: Tree, m: map<int, nat>, S: seq<int>, E: seq<int>, i: nat,
                                           vals: seq<Value>, pn: seq<seq<Value>>, next: seq<int>)
    requires i <= |E| && |vals| == |S|
    requires forall k :: 0 <= k < |E| ==> E[k] % 2 == 0
    requires forall x :: x in m ==> m[x] < |S| && S[m[x]] == x
    requires forall x :: x in m && Even(x) in E[..i] ==> vals[m[x]] == ValueAt(t.values, x)
    ensures var r := LeafLevel(t, m, E, i, vals, pn, next).0;
      |r| == |S| && forall x :: x in m && Even(x) in E ==> r[m[x]] == ValueAt(t.values, x)
    decreases |E| - i
  {
    if i == |E| {
      assert E[..i] == E;
    } else {
      var e := E[i];
      var vals' := StorePair(t, m, e, vals);
      EvenOfPair(e);
      assert E[..i + 1] == E[..i] + [e];
      forall x | x in m && Even(x) in E[..i + 1]
        ensures vals'[m[x]] == ValueAt(t.values, x)
      {
        if Even(x) != e {
          assert x != e && x != e + 1;
        }
      }
      LeafLevelValues(t, m, S, E, i + 1, vals', pn + [LeafNodes(t, m, e)], next + [Shr1(e + |t.nodes|)]);
    }
  }

  /** One iteration of the verifier's first loop at a fitting pair: the
      requested leaves come from the values, the other one from the start
      of node list `i`, and their merge is the tree's leaf parent. */
  lemma {:induction false} LeafPairStep(h: HashFn, t: Tree, proof: BatchProof, m: map<int, nat>,
                                        E: seq<int>, i: nat)
    requires Shaped(t) && LeafRow(h, t.nodes, t.values.values, Pow2(t.depth - 1))
    requires |t.values.values| <= |t.nodes|
    requires i < |E| <= |proof.nodes| && PairFits(t, m, E[i])
    requires Prefix(LeafNodes(t, m, E[i]), proof.nodes[i])
    requires forall x :: x in m && Even(x) in E ==> At(proof.values, m[x]) == ValueAt(t.values, x)
    ensures var e := E[i];
      var inputs := LeafInputs(proof, m, e, i);
      var p := Shr1(|t.nodes| + e);
      0 <= p < |t.nodes| && p == Shr1(e + |t.nodes|) &&
      MergeValues(h, inputs.0, inputs.1) == Ok(t.nodes[p]) &&
      inputs.2 == |LeafNodes(t, m, e)|
  {
    var e := E[i];
    var L := t.values.values;
    var P := Pow2(t.depth - 1);
    EvenOfPair(e);
    ShapedBounds(t);
    LeafParentStart(t, e);
    assert e / 2 < P && Even(e) in E;
    assert t.nodes[P + e / 2] == LeafParent(h, L, e / 2);
    var nodes := LeafNodes(t, m, e);
    if |nodes| == 1 {
      assert proof.nodes[i][0] == nodes[0];
    }
  }

  /** The two first loops side by side at position `i`: the pairs still to
      come fit and their node lists start as the prover made them, the
      requested leaves sit at their positions, the verifier holds the tree's
      own nodes, among them every parent so far, and its pointer into each
      node list sits just past that list's leaf entries. */
  ghost predicate Leafing(h: HashFn, t: Tree, proof: BatchProof, m: map<int, nat>, E: seq<int>, i: nat,
                          v: map<int, Bytes>, ptr: seq<int>, pn: seq<seq<Value>>, next: seq<int>)
  {
    Shaped(t) && LeafRow(h, t.nodes, t.values.values, Pow2(t.depth - 1)) &&
    |t.values.values| <= |t.nodes| &&
    i <= |E| <= |proof.nodes| && |pn| == i && |next| == i && |ptr| == i &&
    (forall j :: i <= j < |E| ==> PairFits(t, m, E[j]) && Prefix(LeafNodes(t, m, E[j]), proof.nodes[j])) &&
    (forall x :: x in m && Even(x) in E ==> At(proof.values, m[x]) == ValueAt(t.values, x)) &&
    Known(t.nodes, v) &&
    (forall j :: 0 <= j < i ==> next[j] in v && ptr[j] == |pn[j]|)
  }

  /** What the verifier's first loop ends with, beside the prover's. */
  predicate LeavesAgree(nodes: seq<Digest>, r: Result<(map<int, Bytes>, seq<int>, seq<int>), Error>,
                        p: (seq<Value>, seq<seq<Value>>, seq<int>))
  {
    r.Ok? && r.value.2 == p.2 && |r.value.1| == |p.1| && Known(nodes, r.value.0) &&
    forall j :: 0 <= j < |r.value.1| ==> j < |r.value.2| && r.value.2[j] in r.value.0 && r.value.1[j] == |p.1[j]|
  }

  /** The verifier's first loop recomputes the parents the prover recorded. */
  lemma {:induction false} LeavesVerify(h: HashFn, t: Tree, proof: BatchProof, m: map<int, nat>, E: seq<int>,
                                        i: nat, v: map<int, Bytes>, ptr: seq<int>, pn: seq<seq<Value>>,
                                        next: seq<int>, vals: seq<Value>)
    requires Leafing(h, t, proof, m, E, i, v, ptr, pn, next)
    ensures LeavesAgree(t.nodes, VerifyLeaves(h, proof, m, E, |t.nodes|, i, v, ptr, next),
                        LeafLevel(t, m, E, i, vals, pn, next))
    decreases |E| - i
  {
    if i < |E| {
      var e := E[i];
      LeafPairStep(h, t, proof, m, E, i);
      var inputs := LeafInputs(proof, m, e, i);
      var p := Shr1(|t.nodes| + e);
      var v' := v[p := t.nodes[p]];
      var ptr', pn', next' := ptr + [inputs.2], pn + [LeafNodes(t, m, e)], next + [p];
      assert Leafing(h, t, proof, m, E, i + 1, v', ptr', pn', next');
      LeavesVerify(h, t, proof, m, E, i + 1, v', ptr', pn', next', StorePair(t, m, e, vals));
    }
  }

  /** A request of valid, distinct leaf indexes maps each index to its own
      request position. */
  lemma {:induction false} RequestPositions(S: seq<int>, maxValid: int)
    requires (forall k :: 0 <= k < |S| ==> 0 <= S[k] <= maxValid) && Distinct(S)
    ensures IndexMap(S, maxValid).Ok?
    ensures var m := IndexMap(S, maxValid).value;
      |m| == |S| &&
      (forall x :: x in m ==> m[x] < |S| && S[m[x]] == x) &&
      (forall k :: 0 <= k < |S| ==> S[k] in m && m[S[k]] == k)
  {
    IndexMapSpec(S, maxValid);
    PositionsKeys(S);
  }

  /** The leaf parent of a leaf is on level `depth - 1`. */
  lemma {:induction false} LeafParentLevel(t: Tree, e: int)
    requires Shaped(t) && 0 <= e < |t.nodes|
    ensures OnLevel(Shr1(e + |t.nodes|), t.depth - 1)
  {
    LeafParentStart(t, e);
  }

  /** The pair of a requested leaf fits the leaves. */
  lemma {:induction false} PairOfRequested(t: Tree, m: map<int, nat>, x: int)
    requires x in m && 0 <= x < |t.values.values|
    ensures var e := Even(x);
      e % 2 == 0 && 0 <= e < |t.values.values| && (e in m || e + 1 in m)
  {
    EvenOfPair(Even(x));
  }

  /** Every pair of a request of leaves lies among the leaves, and at least
      one of its leaves is requested. */
  lemma {:induction false} PairsOfRequest(t: Tree, m: map<int, nat>, S: seq<int>)
    requires forall k :: 0 <= k < |S| ==> 0 <= S[k] < |t.values.values| && S[k] in m
    ensures var E := Normalize(S);
      forall j :: 0 <= j < |E| ==>
        E[j] % 2 == 0 && 0 <= E[j] < |t.values.values| && (E[j] in m || E[j] + 1 in m)
  {
    var E := Normalize(S);
    NormalizeSpec(S);
    forall j | 0 <= j < |E|
      ensures E[j] % 2 == 0 && 0 <= E[j] < |t.values.values| && (E[j] in m || E[j] + 1 in m)
    {
      assert E[j] in E;
      var x :| x in S && Even(x) == E[j];
      PairOfRequested(t, m, x);
    }
  }

  /** The leaf parents of leaves are on level `depth - 1`. */
  lemma {:induction false} LeafParentsLevel(t: Tree, E: seq<int>)
    requires Shaped(t) && forall j :: 0 <= j < |E| ==> 0 <= E[j] < |t.nodes|
    ensures forall j :: 0 <= j < |E| ==> OnLevel(Shr1(E[j] + |t.nodes|), t.depth - 1)
  {
    forall j | 0 <= j < |E|
      ensures OnLevel(Shr1(E[j] + |t.nodes|), t.depth - 1)
    {
      LeafParentLevel(t, E[j]);
    }
  }

  /** Both loops of `proveBatch` succeed once the second one does. */
  lemma {:induction false} ProvePairsIs(t: Tree, m: map<int, nat>, E: seq<int>)
    requires var leaf := LeafLevel(t, m, E, 0, Holes(|m|), [], []);
      ProveUp(t.nodes, t.depth - 1, leaf.2, 0, [], leaf.1).Ok?
    ensures var leaf := LeafLevel(t, m, E, 0, Holes(|m|), [], []);
      ProvePairs(t, m, E) == Ok(BatchProof(leaf.0, ProveUp(t.nodes, t.depth - 1, leaf.2, 0, [], leaf.1).value, t.depth))
  {
  }

  /** `proveBatch` goes on to its loops once the indexes are mapped. */
  lemma {:induction false} ProveBatchIs(t: Tree, S: seq<int>)
    requires IndexMap(S, |t.values.values| - 1).Ok?
    ensures ProveBatchSpec(t, S) == ProvePairs(t, IndexMap(S, |t.values.values| - 1).value, Normalize(S))
  {
  }

  /** The values array of `proveBatch` holds the requested leaves in
      request order. */
  lemma {:induction false} RequestedValues(t: Tree, m: map<int, nat>, S: seq<int>, E: seq<int>)
    requires |m| == |S| && forall x :: x in m ==> m[x] < |S| && S[m[x]] == x
    requires forall k :: 0 <= k < |S| ==> S[k] in m && m[S[k]] == k && Even(S[k]) in E
    requires forall j :: 0 <= j < |E| ==> E[j] % 2 == 0
    ensures var vals := LeafLevel(t, m, E, 0, Holes(|m|), [], []).0;
      |vals| == |S| && forall k :: 0 <= k < |S| ==> vals[k] == ValueAt(t.values, S[k])
  {
    assert E[..0] == [];
    LeafLevelValues(t, m, S, E, 0, Holes(|m|), [], []);
    var vals := LeafLevel(t, m, E, 0, Holes(|m|), [], []).0;
    forall k | 0 <= k < |S|
      ensures vals[k] == ValueAt(t.values, S[k])
    {
      assert Even(S[k]) in E;
    }
  }

  /** The first loop of `proveBatch` hands the second one the leaf
      parents, all on level `depth - 1`, and a node list per pair. */
  lemma {:induction false} LeafLevelOut(t: Tree, m: map<int, nat>, E: seq<int>)
    requires Shaped(t) && forall j :: 0 <= j < |E| ==> 0 <= E[j] < |t.nodes|
    ensures var leaf := LeafLevel(t, m, E, 0, Holes(|m|), [], []);
      |leaf.1| == |E| && |leaf.2| == |E| &&
      (forall j :: 0 <= j < |E| ==> leaf.1[j] == LeafNodes(t, m, E[j])) &&
      (forall j :: 0 <= j < |E| ==> OnLevel(leaf.2[j], t.depth - 1))
  {
    LeafLevelShape(t, m, E, 0, Holes(|m|), [], []);
    LeafParentsLevel(t, E);
  }

  /** The node lists of `proveBatch`, one per pair, each starting with the
      pair's unrequested leaf. */
  lemma {:induction false} PairNodeLists(t: Tree, m: map<int, nat>, E: seq<int>)
    requires Shaped(t) && forall j :: 0 <= j < |E| ==> 0 <= E[j] < |t.nodes|
    ensures var leaf := LeafLevel(t, m, E, 0, Holes(|m|), [], []);
      var F := ProveUp(t.nodes, t.depth - 1, leaf.2, 0, [], leaf.1);
      F.Ok? && |F.value| == |E| && forall j :: 0 <= j < |E| ==> Prefix(LeafNodes(t, m, E[j]), F.value[j])
  {
    var leaf := LeafLevel(t, m, E, 0, Holes(|m|), [], []);
    LeafLevelOut(t, m, E);
    ShapedBounds(t);
    ProveUpOk(t.nodes, t.depth - 1, leaf.2, 0, [], leaf.1);
    ProveUpAppends(t.nodes, t.depth - 1, leaf.2, 0, [], leaf.1);
  }

  /** What `proveBatch` returns for valid, distinct indexes: the requested
      leaves in request order, one node list per leaf pair that starts with
      the pair's unrequested leaf, and the tree's depth. */
  lemma {:induction false} ProveBatchShape(t: Tree, S: seq<int>)
    requires Shaped(t) && |t.values.values| <= |t.nodes|
    requires (forall k :: 0 <= k < |S| ==> 0 <= S[k] < |t.values.values|) && Distinct(S)
    ensures ProveBatchSpec(t, S).Ok?
    ensures var p := ProveBatchSpec(t, S).value;
      var m := IndexMap(S, |t.values.values| - 1).value;
      var E := Normalize(S);
      p.depth == t.depth &&
      |p.values| == |S| && (forall k :: 0 <= k < |S| ==> p.values[k] == ValueAt(t.values, S[k])) &&
      |p.nodes| == |E| && forall j :: 0 <= j < |E| ==> Prefix(LeafNodes(t, m, E[j]), p.nodes[j])
  {
    RequestPositions(S, |t.values.values| - 1);
    var m := IndexMap(S, |t.values.values| - 1).value;
    var E := Normalize(S);
    NormalizeSpec(S);
    PairsOfRequest(t, m, S);
    RequestedValues(t, m, S, E);
    PairNodeLists(t, m, E);
    ProvePairsIs(t, m, E);
    ProveBatchIs(t, S);
  }

  /** With the last leaf of every requested pair inside the leaves, every
      pair fits. */
  lemma {:induction false} PairsFit(t: Tree, m: map<int, nat>, S: seq<int>)
    requires forall k :: 0 <= k < |S| ==> 0 <= S[k] < |t.values.values| && S[k] in m
    requires forall k :: 0 <= k < |S| ==> Even(S[k]) + 1 < |t.values.values|
    ensures forall j :: 0 <= j < |Normalize(S)| ==> PairFits(t, m, Normalize(S)[j])
  {
    var E := Normalize(S);
    PairsOfRequest(t, m, S);
    NormalizeSpec(S);
    forall j | 0 <= j < |E|
      ensures E[j] + 1 < |t.values.values|
    {
      assert E[j] in E;
      var x :| x in S && Even(x) == E[j];
      var k :| 0 <= k < |S| && S[k] == x;
    }
  }

  /** `verifyBatch` maps and normalizes the indexes before its loops. */
  lemma {:induction false} VerifyBatchMapped(h: HashFn, root: Bytes, S: seq<int>, proof: BatchProof)
    ensures VerifyBatchSpec(h, root, S, proof) ==
      VerifyMapped(h, root, proof, IndexMap(S, Pow2(proof.depth) - 1), Normalize(S))
  {
  }

  /** Mapped indexes, as many node lists as pairs and loops that reach
      the root make `verifyBatch` `true`. */
  lemma {:induction false} VerifyMappedTrue(h: HashFn, root: Bytes, proof: BatchProof,
                                            mapped: Result<map<int, nat>, Error>, m: map<int, nat>, E: seq<int>)
    requires mapped == Ok(m) && |E| == |proof.nodes| && VerifyPairs(h, root, proof, m, E) == Ok(true)
    ensures VerifyMapped(h, root, proof, mapped, E) == Ok(true)
  {
  }

  /** A request `proveBatch` and `verifyBatch` both accept: valid, distinct
      leaf indexes, each pair of them complete in the leaves. */
  predicate WholePairs(t: Tree, S: seq<int>)
  {
    (forall k :: 0 <= k < |S| ==> 0 <= S[k] < |t.values.values|) && Distinct(S) &&
    (forall k :: 0 <= k < |S| ==> Even(S[k]) + 1 < |t.values.values|)
  }

  /** The verifier's first loop starts beside the prover's, given what
      `proveBatch` returned. */
  lemma {:induction false} LeafingFrom(h: HashFn, t: Tree, S: seq<int>, m: map<int, nat>, E: seq<int>,
                                       proof: BatchProof)
    requires BuiltTree(h, t)
    requires forall x :: x in m ==> m[x] < |S| && S[m[x]] == x
    requires |proof.values| == |S| && forall k :: 0 <= k < |S| ==> proof.values[k] == ValueAt(t.values, S[k])
    requires |E| == |proof.nodes|
    requires forall j :: 0 <= j < |E| ==> PairFits(t, m, E[j]) && Prefix(LeafNodes(t, m, E[j]), proof.nodes[j])
    ensures Leafing(h, t, proof, m, E, 0, map[], [], [], [])
  {
    forall x | x in m && Even(x) in E
      ensures At(proof.values, m[x]) == ValueAt(t.values, x)
    {
      assert proof.values[m[x]] == ValueAt(t.values, S[m[x]]);
    }
  }

  /** The verifier's first loop starts beside the prover's. */
  lemma {:induction false} LeafingStart(h: HashFn, t: Tree, S: seq<int>)
    requires BuiltTree(h, t) && WholePairs(t, S)
    ensures ProveBatchSpec(t, S).Ok?
    ensures Leafing(h, t, ProveBatchSpec(t, S).value, IndexMap(S, |t.values.values| - 1).value,
                    Normalize(S), 0, map[], [], [], [])
  {
    ProveBatchShape(t, S);
    RequestPositions(S, |t.values.values| - 1);
    var m := IndexMap(S, |t.values.values| - 1).value;
    PairsFit(t, m, S);
    LeafingFrom(h, t, S, m, Normalize(S), ProveBatchSpec(t, S).value);
  }

  /** The second loops start in lockstep, and so reach the root, once the
      verifier's first loop has recomputed the leaf parents the prover
      recorded. */
  lemma {:induction false} ClimbingFrom(h: HashFn, t: Tree, proof: BatchProof, E: seq<int>,
                                        r: (map<int, Bytes>, seq<int>, seq<int>),
                                        leaf: (seq<Value>, seq<seq<Value>>, seq<int>))
    requires BuiltTree(h, t)
    requires LeavesAgree(t.nodes, Ok(r), leaf)
    requires 0 < |E| == |proof.nodes| && |leaf.1| == |E| && |leaf.2| == |E|
    requires forall j :: 0 <= j < |E| ==> OnLevel(leaf.2[j], t.depth - 1)
    requires ProveUp(t.nodes, t.depth - 1, leaf.2, 0, [], leaf.1) == Ok(proof.nodes)
    ensures Reached(VerifyUp(h, proof, t.depth - 1, r.2, 0, [], r.0, r.1), t.nodes[1])
  {
    ClimbVerifies(h, t, proof, t.depth - 1, r.2, 0, [], r.0, r.1, leaf.1);
  }

  /** After the first loops the second ones run in lockstep up to the
      root. */
  lemma {:induction false} ClimbingStart(h: HashFn, t: Tree, S: seq<int>)
    requires BuiltTree(h, t) && WholePairs(t, S) && S != []
    ensures ProveBatchSpec(t, S).Ok? && IndexMap(S, |t.values.values| - 1).Ok?
    ensures var proof := ProveBatchSpec(t, S).value;
      var m := IndexMap(S, |t.values.values| - 1).value;
      var E := Normalize(S);
      |E| == |proof.nodes| && proof.depth == t.depth &&
      var r := VerifyLeaves(h, proof, m, E, |t.nodes|, 0, map[], [], []);
      r.Ok? && Reached(VerifyUp(h, proof, t.depth - 1, r.value.2, 0, [], r.value.0, r.value.1), t.nodes[1])
  {
    LeafingStart(h, t, S);
    ProverLevels(t, S);
    var proof := ProveBatchSpec(t, S).value;
    var m := IndexMap(S, |t.values.values| - 1).value;
    var E := Normalize(S);
    LeavesVerify(h, t, proof, m, E, 0, map[], [], [], [], Holes(|m|));
    var leaf := LeafLevel(t, m, E, 0, Holes(|m|), [], []);
    ClimbingFrom(h, t, proof, E, VerifyLeaves(h, proof, m, E, |t.nodes|, 0, map[], [], []).value, leaf);
  }

  /** For a non-empty request, the first loop of `proveBatch` hands the
      second a non-empty level of leaf parents, one node list per pair,
      and the second loop's node lists are the proof's. */
  lemma {:induction false} ProverLevels(t: Tree, S: seq<int>)
    requires Shaped(t) && |t.values.values| <= |t.nodes| && S != []
    requires (forall k :: 0 <= k < |S| ==> 0 <= S[k] < |t.values.values|) && Distinct(S)
    ensures IndexMap(S, |t.values.values| - 1).Ok? && ProveBatchSpec(t, S).Ok?
    ensures var proof := ProveBatchSpec(t, S).value;
      var m := IndexMap(S, |t.values.values| - 1).value;
      var E := Normalize(S);
      var leaf := LeafLevel(t, m, E, 0, Holes(|m|), [], []);
      0 < |E| == |proof.nodes| && proof.depth == t.depth && |leaf.1| == |E| && |leaf.2| == |E| &&
      (forall j :: 0 <= j < |E| ==> OnLevel(leaf.2[j], t.depth - 1)) &&
      ProveUp(t.nodes, t.depth - 1, leaf.2, 0, [], leaf.1) == Ok(proof.nodes)
  {
    RequestPositions(S, |t.values.values| - 1);
    var m := IndexMap(S, |t.values.values| - 1).value;
    var E := Normalize(S);
    NormalizeSpec(S);
    assert Even(S[0]) in E;
    PairsOfRequest(t, m, S);
    LeafLevelOut(t, m, E);
    PairNodeLists(t, m, E);
    ProvePairsIs(t, m, E);
    ProveBatchIs(t, S);
  }

  /** Both loops of `verifyBatch` ending at the root make it `true`. */
  lemma {:induction false} VerifyPairsTrue(h: HashFn, t: Tree, proof: BatchProof, m: map<int, nat>,
                                           E: seq<int>, r: (map<int, Bytes>, seq<int>, seq<int>))
    requires Shaped(t) && proof.depth == t.depth && |E| == |proof.nodes|
    requires VerifyLeaves(h, proof, m, E, |t.nodes|, 0, map[], [], []) == Ok(r)
    requires Reached(VerifyUp(h, proof, t.depth - 1, r.2, 0, [], r.0, r.1), t.nodes[1])
    ensures VerifyPairs(h, Root(t), proof, m, E) == Ok(true)
  {
  }

  /** Both loops of `verifyBatch` on the pairs of a batch proof reach the
      root of the tree that made it. */
  lemma {:induction false} PairsVerify(h: HashFn, t: Tree, S: seq<int>)
    requires BuiltTree(h, t) && WholePairs(t, S) && S != []
    ensures ProveBatchSpec(t, S).Ok? && IndexMap(S, |t.values.values| - 1).Ok?
    ensures var proof := ProveBatchSpec(t, S).value;
      |Normalize(S)| == |proof.nodes| && proof.depth == t.depth &&
      VerifyPairs(h, Root(t), proof, IndexMap(S, |t.values.values| - 1).value, Normalize(S)) == Ok(true)
  {
    ClimbingStart(h, t, S);
    var proof := ProveBatchSpec(t, S).value;
    var m := IndexMap(S, |t.values.values| - 1).value;
    var E := Normalize(S);
    VerifyPairsTrue(h, t, proof, m, E, VerifyLeaves(h, proof, m, E, |t.nodes|, 0, map[], [], []).value);
  }

  /** `verifyBatch(root, indexes, proveBatch(indexes))` is `true` for the
      root of the tree that made the proof, whenever every requested leaf's
      pair is complete. */
  lemma {:induction false} BatchRoundTrip(h: HashFn, t: Tree, S: seq<int>)
    requires BuiltTree(h, t) && WholePairs(t, S) && S != []
    ensures ProveBatchSpec(t, S).Ok?
    ensures VerifyBatchSpec(h, Root(t), S, ProveBatchSpec(t, S).value) == Ok(true)
  {
    PairsVerify(h, t, S);
    var proof := ProveBatchSpec(t, S).value;
    var m := IndexMap(S, |t.values.values| - 1).value;
    IndexMapBound(S, |t.values.values| - 1, Pow2(proof.depth) - 1);
    VerifyBatchMapped(h, Root(t), S, proof);
    VerifyMappedTrue(h, Root(t), proof, IndexMap(S, Pow2(proof.depth) - 1), m, Normalize(S));
  }
}
