/** The two index helpers the batch prover and verifier share:
    `normalizeIndexes` (sort, round down to even, drop repeats) and
    `mapIndexes` (validate and map each index to its position). */
module Indexes {
  import opened Wrappers
  import opened Int32

  /** What the tree operations throw. `InvalidIndex` is the `TypeError`
      "Invalid index"; `RepeatingIndexes` the plain `Error` "Repeating
      indexes detected"; `TypeError` is reading through `undefined` (hashing
      it, comparing with it, indexing it); `RangeError` is a node read
      outside the node buffer. */
  datatype Error = InvalidIndex(index: int) | RepeatingIndexes | TypeError | RangeError

  predicate Sorted(s: seq<int>)
  {
    forall i, j :: 0 <= i < j < |s| ==> s[i] <= s[j]
  }

  predicate StrictlyAscending(s: seq<int>)
  {
    forall i, j :: 0 <= i < j < |s| ==> s[i] < s[j]
  }

  predicate Distinct(s: seq<int>)
  {
    forall i, j :: 0 <= i < j < |s| ==> s[i] != s[j]
  }

  /** Ordered insertion into a sorted list. */
  function Insert(x: int, s: seq<int>): (r: seq<int>)
    requires Sorted(s)
    ensures Sorted(r)
    ensures multiset(r) == multiset(s) + multiset{x}
    ensures |r| == |s| + 1 && (r[0] == x || (|s| > 0 && r[0] == s[0]))
  {
    if s == [] || x <= s[0] then
      SortedCons(x, s);
      [x] + s
    else
      var rest := Insert(x, s[1..]);
      assert s == [s[0]] + s[1..];
      SortedCons(s[0], rest);
      [s[0]] + rest
  }

  lemma {:induction false} SortedCons(a: int, s: seq<int>)
    requires Sorted(s) && (s == [] || a <= s[0])
    ensures Sorted([a] + s)
  {
    var r := [a] + s;
    forall i, j | 0 <= i < j < |r|
      ensures r[i] <= r[j]
    {
      if i == 0 {
        assert r[j] == s[j - 1] && s[0] <= s[j - 1];
      } else {
        assert r[i] == s[i - 1] && r[j] == s[j - 1];
      }
    }
  }

  /** `input.slice().sort(compareNumbers)`: for numbers every correct sort
      yields the same list, the ascending permutation of the input. */
  function Sort(s: seq<int>): (r: seq<int>)
    ensures Sorted(r)
    ensures multiset(r) == multiset(s)
  {
    if s == [] then []
    else
      assert s == [s[0]] + s[1..];
      Insert(s[0], Sort(s[1..]))
  }

  /** `index - (index & 1)`: the even index of the leaf pair. */
  function Even(x: int): (r: int)
    ensures r % 2 == 0
    ensures r <= x < r + 2
  {
    var b := And1(x);
    assert x == 2 * (x / 2) + b;
    x - b
  }

  lemma {:induction false} EvenMonotone(a: int, b: int)
    requires a <= b
    ensures Even(a) <= Even(b)
  {
  }

  /** The `Set` the loop fills, in insertion order (`Array.from`): the even
      index of each element, first occurrence kept. */
  function Collect(s: seq<int>): seq<int>
  {
    if s == [] then []
    else
      var p := Collect(s[..|s| - 1]);
      var y := Even(s[|s| - 1]);
      if y in p then p else p + [y]
  }

  /** `normalizeIndexes(input)`. */
  function Normalize(input: seq<int>): seq<int>
  {
    Collect(Sort(input))
  }

  method NormalizeIndexes(input: seq<int>) returns (out: seq<int>)
    ensures out == Normalize(input)
  {
    var sorted := Sort(input);
    out := CollectEvens(sorted);
  }

  /** The loop of `normalizeIndexes`: the `Set` of even indexes, and the
      array it becomes. */
  method CollectEvens(sorted: seq<int>) returns (out: seq<int>)
    ensures out == Collect(sorted)
  {
    var output: set<int> := {};
    out := [];
    for k := 0 to |sorted|
      invariant out == Collect(sorted[..k])
      invariant forall z :: z in output <==> z in out
    {
      assert sorted[..k + 1][..k] == sorted[..k];
      var y := sorted[k] - And1(sorted[k]);
      if y !in output {
        output := output + {y};
        out := out + [y];
      }
    }
    assert sorted[..|sorted|] == sorted;
  }

  /** Every element of the output is the even index of some input, and
      every input's even index is in the output. */
  lemma {:induction false} CollectElements(s: seq<int>, z: int)
    ensures z in Collect(s) <==> exists j :: 0 <= j < |s| && Even(s[j]) == z
  {
    if s != [] {
      var pre := s[..|s| - 1];
      CollectElements(pre, z);
      if exists j :: 0 <= j < |pre| && Even(pre[j]) == z {
        var j :| 0 <= j < |pre| && Even(pre[j]) == z;
        assert s[j] == pre[j];
      }
      if exists j :: 0 <= j < |s| && Even(s[j]) == z {
        var j :| 0 <= j < |s| && Even(s[j]) == z;
        if j < |pre| {
          assert pre[j] == s[j];
        }
      }
    }
  }

  /** Over a sorted list the output is strictly ascending and ends with
      the even index of the last element. */
  lemma {:induction false} CollectAscending(s: seq<int>)
    requires Sorted(s)
    ensures StrictlyAscending(Collect(s))
    ensures s != [] ==> Collect(s) != [] && Collect(s)[|Collect(s)| - 1] == Even(s[|s| - 1])
  {
    if s != [] {
      var pre := s[..|s| - 1];
      CollectAscending(pre);
      var p := Collect(pre);
      var y := Even(s[|s| - 1]);
      if pre != [] {
        EvenMonotone(s[|s| - 2], s[|s| - 1]);
        assert p[|p| - 1] <= y;
        if y in p {
          var k :| 0 <= k < |p| && p[k] == y;
          assert p[k] <= p[|p| - 1];
        }
      }
    }
  }

  lemma {:induction false} CollectEven(s: seq<int>)
    ensures forall k :: 0 <= k < |Collect(s)| ==> Collect(s)[k] % 2 == 0
  {
    if s != [] {
      CollectEven(s[..|s| - 1]);
    }
  }

  /** `normalizeIndexes` returns a strictly ascending list of even numbers,
      exactly the set `{ x - x % 2 | x in input }`. */
  lemma {:induction false} NormalizeSpec(input: seq<int>)
    ensures StrictlyAscending(Normalize(input))
    ensures forall k :: 0 <= k < |Normalize(input)| ==> Normalize(input)[k] % 2 == 0
    ensures forall z :: z in Normalize(input) <==> exists x :: x in input && Even(x) == z
  {
    var sorted := Sort(input);
    CollectAscending(sorted);
    CollectEven(sorted);
    forall z
      ensures z in Normalize(input) <==> exists x :: x in input && Even(x) == z
    {
      CollectElements(sorted, z);
      if exists x :: x in input && Even(x) == z {
        var x :| x in input && Even(x) == z;
        assert x in multiset(sorted);
        var j :| 0 <= j < |sorted| && sorted[j] == x;
      }
      if exists j :: 0 <= j < |sorted| && Even(sorted[j]) == z {
        var j :| 0 <= j < |sorted| && Even(sorted[j]) == z;
        assert sorted[j] in multiset(input);
      }
    }
  }

  predicate ValidIndex(x: int, maxValid: int)
  {
    0 <= x <= maxValid
  }

  /** The position of the first index `mapIndexes` rejects, if any. */
  function FirstInvalid(input: seq<int>, maxValid: int): (r: Option<nat>)
    ensures r.Some? ==> r.value < |input| && !ValidIndex(input[r.value], maxValid)
    ensures r.Some? ==> forall j :: 0 <= j < r.value ==> ValidIndex(input[j], maxValid)
    ensures r.None? <==> forall j :: 0 <= j < |input| ==> ValidIndex(input[j], maxValid)
  {
    if input == [] then None
    else if !ValidIndex(input[0], maxValid) then Some(0)
    else
      match FirstInvalid(input[1..], maxValid)
      case None => None
      case Some(k) => Some(k + 1)
  }

  /** The `Map` the loop fills: `output.set(index, i)` in order of
      position, a later position replacing an earlier one. */
  function Positions(s: seq<int>): map<int, nat>
  {
    if s == [] then map[] else Positions(s[..|s| - 1])[s[|s| - 1] := |s| - 1]
  }

  /** What `mapIndexes(input, maxValid)` returns or throws: the first
      out-of-range index is reported; a list with repeats is refused;
      otherwise every index maps to its position. */
  function IndexMap(input: seq<int>, maxValid: int): Result<map<int, nat>, Error>
  {
    match FirstInvalid(input, maxValid)
    case Some(k) => Err(InvalidIndex(input[k]))
    case None => if Distinct(input) then Ok(Positions(input)) else Err(RepeatingIndexes)
  }

  method MapIndexes(input: seq<int>, maxValid: int) returns (r: Result<map<int, nat>, Error>)
    ensures r == IndexMap(input, maxValid)
  {
    var output: map<int, nat> := map[];
    for i := 0 to |input|
      invariant output == Positions(input[..i])
      invariant forall j :: 0 <= j < i ==> ValidIndex(input[j], maxValid)
    {
      assert input[..i + 1][..i] == input[..i];
      var index := input[i];
      output := output[index := i];
      if index < 0 || index > maxValid {
        return Err(InvalidIndex(index));
      }
    }
    assert input[..|input|] == input;
    PositionsSize(input);
    if |input| != |output| {
      return Err(RepeatingIndexes);
    }
    return Ok(output);
  }

  /** The map's keys are the prefix's elements, and each key maps to a
      position holding it. */
  lemma {:induction false} PositionsKeys(s: seq<int>)
    ensures forall x :: x in Positions(s) <==> x in s
    ensures forall x :: x in Positions(s) ==> Positions(s)[x] < |s| && s[Positions(s)[x]] == x
  {
    if s != [] {
      var pre := s[..|s| - 1];
      PositionsKeys(pre);
      forall x | x in pre
        ensures x in s
      {
        var j :| 0 <= j < |pre| && pre[j] == x;
        assert s[j] == x;
      }
      forall x | x in s
        ensures x in pre || x == s[|s| - 1]
      {
        var j :| 0 <= j < |s| && s[j] == x;
        if j < |pre| {
          assert pre[j] == x;
        }
      }
    }
  }

  /** JavaScript's `output.size === input.length` exactly when the input
      has no repeats. */
  lemma {:induction false} PositionsSize(s: seq<int>)
    ensures |Positions(s)| <= |s|
    ensures |Positions(s)| == |s| <==> Distinct(s)
  {
    if s != [] {
      var pre := s[..|s| - 1];
      var x := s[|s| - 1];
      PositionsSize(pre);
      PositionsKeys(pre);
      var m := Positions(pre);
      if x in m {
        assert m[x := |s| - 1].Keys == m.Keys;
        var j := m[x];
        assert s[j] == x;
      } else {
        assert m[x := |s| - 1].Keys == m.Keys + {x};
        assert x !in pre;
        if Distinct(pre) {
          forall i, j | 0 <= i < j < |s|
            ensures s[i] != s[j]
          {
            if j < |s| - 1 {
              assert s[i] == pre[i] && s[j] == pre[j];
            } else {
              assert s[i] == pre[i];
            }
          }
        } else {
          var i, j :| 0 <= i < j < |pre| && pre[i] == pre[j];
          assert s[i] == s[j];
        }
      }
    }
  }

  /** On a list without repeats, index `input[k]` maps to `k`. */
  lemma {:induction false} PositionsOfDistinct(s: seq<int>)
    requires Distinct(s)
    ensures forall x :: x in Positions(s) <==> x in s
    ensures forall k :: 0 <= k < |s| ==> Positions(s)[s[k]] == k
  {
    PositionsKeys(s);
    forall k | 0 <= k < |s|
      ensures Positions(s)[s[k]] == k
    {
      assert s[k] in s;
      var j := Positions(s)[s[k]];
      assert s[j] == s[k];
    }
  }

  /** `mapIndexes` succeeds exactly on valid indexes without repeats, and
      then maps each index to its position. */
  lemma {:induction false} IndexMapSpec(input: seq<int>, maxValid: int)
    ensures IndexMap(input, maxValid).Ok? <==>
      (forall k :: 0 <= k < |input| ==> ValidIndex(input[k], maxValid)) && Distinct(input)
    ensures IndexMap(input, maxValid).Ok? ==>
      var m := IndexMap(input, maxValid).value;
      (forall x :: x in m <==> x in input) && |m| == |input| &&
      forall k :: 0 <= k < |input| ==> m[input[k]] == k
  {
    if IndexMap(input, maxValid).Ok? {
      PositionsOfDistinct(input);
      PositionsSize(input);
    }
  }

  /** The rejection reported is the first invalid index, even when later
      positions repeat or are invalid too. */
  lemma {:induction false} IndexMapFirstError(input: seq<int>, maxValid: int, k: nat)
    requires k < |input| && !ValidIndex(input[k], maxValid)
    requires forall j :: 0 <= j < k ==> ValidIndex(input[j], maxValid)
    ensures IndexMap(input, maxValid) == Err(InvalidIndex(input[k]))
  {
    var f := FirstInvalid(input, maxValid);
    assert f.Some?;
    assert f.value == k;
  }

  /** The bound only decides which indexes are rejected: two bounds that
      both admit every index give the same map. */
  lemma {:induction false} IndexMapBound(input: seq<int>, a: int, b: int)
    requires forall k :: 0 <= k < |input| ==> 0 <= input[k] <= a && input[k] <= b
    ensures IndexMap(input, a) == IndexMap(input, b)
  {
  }
}
