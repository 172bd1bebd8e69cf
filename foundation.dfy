/** Small shared vocabulary: optional values, results, bytes and the
    JavaScript integer operators the Merkle code relies on. */
module Wrappers {
  /** `None` stands for JavaScript's `undefined`: a missing array slot or
      a map lookup that found nothing. */
  datatype Option<+T> = None | Some(value: T)

  /** A JavaScript throw becomes `Err`; `:-` propagates it as the throw would. */
  datatype Result<+T, +E> = Ok(value: T) | Err(error: E)
  {
    predicate IsFailure() { Err? }

    function PropagateFailure<U>(): Result<U, E>
      requires Err?
    {
      Err(error)
    }

    function Extract(): T
      requires Ok?
    {
      value
    }
  }
}

module Int32 {
  const TWO_31: int := 0x8000_0000
  const TWO_32: int := 0x1_0000_0000

  /** JavaScript's ToInt32: the operand of `>>`, `&` and `^` is reduced
      modulo 2^32 into the signed 32-bit range. */
  function ToInt32(x: int): (r: int)
    ensures -TWO_31 <= r < TWO_31
    ensures 0 <= x < TWO_31 ==> r == x
    ensures r % 2 == x % 2
  {
    if -TWO_31 <= x < TWO_31 then x else Wrap32(x)
  }

  /** The reduction itself, for an operand outside the signed range. */
  function Wrap32(x: int): (r: int)
    ensures -TWO_31 <= r < TWO_31
    ensures r % 2 == x % 2
  {
    var m := x % TWO_32;
    if m >= TWO_31 then m - TWO_32 else m
  }

  /** `x >> 1`: an arithmetic shift, i.e. floor division of the 32-bit value. */
  function Shr1(x: int): (r: int)
    ensures 0 <= x < TWO_31 ==> r == x / 2
    ensures x > 1 ==> r < x
  {
    ToInt32(x) / 2
  }

  /** `x & 1`: the low bit, which the reduction to 32 bits never changes. */
  function And1(x: int): (r: int)
    ensures r == x % 2
  {
    ToInt32(x) % 2
  }

  /** `x ^ 1`: flips the low bit of the 32-bit value. */
  function Xor1(x: int): (r: int)
    ensures 0 <= x < TWO_31 ==> r == (if x % 2 == 0 then x + 1 else x - 1)
  {
    var v := ToInt32(x);
    if v % 2 == 0 then v + 1 else v - 1
  }

  function Pow2(n: nat): (r: nat)
    ensures r >= 1
  {
    if n == 0 then 1 else 2 * Pow2(n - 1)
  }

  lemma {:induction false} Pow2Monotone(a: nat, b: nat)
    requires a <= b
    ensures Pow2(a) <= Pow2(b)
  {
    if a < b {
      Pow2Monotone(a, b - 1);
    }
  }

  /** `2^26`, the node count of the deepest tree the library supports. */
  lemma {:induction false} Pow2Of26()
    ensures Pow2(26) == 0x400_0000
  {
    assert Pow2(1) == 2;
    assert Pow2(2) == 4;
    assert Pow2(3) == 8;
    assert Pow2(4) == 16;
    assert Pow2(5) == 32;
    assert Pow2(6) == 64;
    assert Pow2(7) == 128;
    assert Pow2(8) == 256;
    assert Pow2(9) == 512;
    assert Pow2(10) == 1024;
    assert Pow2(11) == 2048;
    assert Pow2(12) == 4096;
    assert Pow2(13) == 8192;
    assert Pow2(14) == 16384;
    assert Pow2(15) == 32768;
    assert Pow2(16) == 65536;
    assert Pow2(17) == 131072;
    assert Pow2(18) == 262144;
    assert Pow2(19) == 524288;
    assert Pow2(20) == 1048576;
    assert Pow2(21) == 2097152;
    assert Pow2(22) == 4194304;
    assert Pow2(23) == 8388608;
    assert Pow2(24) == 16777216;
    assert Pow2(25) == 33554432;
    assert Pow2(26) == 67108864;
  }

  /** The smallest `d` with `n <= 2^d`: what `Math.ceil(Math.log2(n))`
      computes for the leaf counts a tree can have. */
  function CeilLog2(n: nat): (d: nat)
    requires n >= 1
    ensures n <= Pow2(d)
    ensures d > 0 ==> Pow2(d - 1) < n
    decreases n
  {
    if n == 1 then 0 else 1 + CeilLog2((n + 1) / 2)
  }

  /** `CeilLog2(n)` is the least such exponent: any `m` with `n <= 2^m` is
      at least as large. */
  lemma {:induction false} CeilLog2Least(n: nat, m: nat)
    requires 1 <= n <= Pow2(m)
    ensures CeilLog2(n) <= m
    decreases n
  {
    if n > 1 {
      assert m > 0;
      CeilLog2Least((n + 1) / 2, m - 1);
    }
  }
}

module Bytes {
  newtype byte = x: int | 0 <= x < 256

  type Bytes = seq<byte>

  /** The records laid end to end, first record first. */
  function Flatten(rs: seq<Bytes>): Bytes
  {
    if rs == [] then [] else Flatten(rs[..|rs| - 1]) + rs[|rs| - 1]
  }

  predicate Uniform(rs: seq<Bytes>, size: nat)
  {
    forall k :: 0 <= k < |rs| ==> |rs[k]| == size
  }

  lemma {:induction false} MulLe(a: nat, b: nat, c: nat)
    requires a <= b
    ensures a * c <= b * c
  {
  }

  lemma {:induction false} FlattenLength(rs: seq<Bytes>, size: nat)
    requires Uniform(rs, size)
    ensures |Flatten(rs)| == |rs| * size
  {
    if rs != [] {
      var pre := rs[..|rs| - 1];
      FlattenLength(pre, size);
      assert |Flatten(rs)| == |Flatten(pre)| + |rs[|rs| - 1]|;
      assert |rs| * size == |pre| * size + size;
    }
  }

  lemma {:induction false} FlattenCons(r: Bytes, rs: seq<Bytes>)
    ensures Flatten([r] + rs) == r + Flatten(rs)
    decreases |rs|
  {
    if rs == [] {
      assert [r] + rs == [r];
      assert Flatten([r]) == Flatten([]) + r;
    } else {
      var all, init, last := [r] + rs, rs[..|rs| - 1], rs[|rs| - 1];
      assert all[..|all| - 1] == [r] + init && all[|all| - 1] == last;
      FlattenCons(r, init);
      calc {
        Flatten(all);
        Flatten([r] + init) + last;
        (r + Flatten(init)) + last;
        r + (Flatten(init) + last);
        r + Flatten(rs);
      }
    }
  }

  lemma {:induction false} FlattenAppend(rs: seq<Bytes>, r: Bytes)
    ensures Flatten(rs + [r]) == Flatten(rs) + r
  {
    assert (rs + [r])[..|rs|] == rs;
  }

  lemma {:induction false} FlattenConcat(a: seq<Bytes>, b: seq<Bytes>)
    ensures Flatten(a + b) == Flatten(a) + Flatten(b)
    decreases |b|
  {
    if b == [] {
      assert a + b == a;
    } else {
      var pre := b[..|b| - 1];
      assert (a + b)[..|a + b| - 1] == a + pre;
      FlattenConcat(a, pre);
    }
  }

  /** Record `k` of a uniform list occupies bytes `[k*size, (k+1)*size)`. */
  lemma {:induction false} FlattenAt(rs: seq<Bytes>, size: nat, k: nat)
    requires Uniform(rs, size) && k < |rs|
    ensures |Flatten(rs)| == |rs| * size
    ensures Flatten(rs)[k * size..(k + 1) * size] == rs[k]
  {
    FlattenLength(rs, size);
    var pre := rs[..|rs| - 1];
    FlattenLength(pre, size);
    if k < |rs| - 1 {
      FlattenAt(pre, size, k);
      MulLe(k + 1, |rs| - 1, size);
      assert Flatten(rs) == Flatten(pre) + rs[|rs| - 1];
    }
  }

  /** Two neighbouring records `k, k+1` occupy bytes `[k*size, (k+2)*size)`. */
  lemma {:induction false} FlattenPair(rs: seq<Bytes>, size: nat, k: nat)
    requires Uniform(rs, size) && k + 1 < |rs|
    ensures |Flatten(rs)| == |rs| * size
    ensures k * size + 2 * size <= |Flatten(rs)|
    ensures Flatten(rs)[k * size..k * size + 2 * size] == rs[k] + rs[k + 1]
  {
    FlattenAt(rs, size, k);
    FlattenAt(rs, size, k + 1);
    MulLe(k + 2, |rs|, size);
    var f := Flatten(rs);
    assert (k + 1) * size == k * size + size;
    assert (k + 2) * size == k * size + 2 * size;
    assert f[k * size..(k + 2) * size] == f[k * size..(k + 1) * size] + f[(k + 1) * size..(k + 2) * size];
  }

  /** Everything after the first `|rs| - 1` records is the last record. */
  lemma {:induction false} FlattenLast(rs: seq<Bytes>, size: nat)
    requires Uniform(rs, size) && |rs| > 0
    ensures |Flatten(rs)| == |rs| * size
    ensures Flatten(rs)[(|rs| - 1) * size..] == rs[|rs| - 1]
  {
    FlattenAt(rs, size, |rs| - 1);
  }
}
