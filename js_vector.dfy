/** The heap-backed leaf container: a list of byte records read as one
    vector of `length` records of `elementSize` bytes. */
module JsVectors {
  import opened Wrappers
  import opened Bytes

  /** Why a vector operation throws. */
  datatype VectorError =
    | NoElements        // `values[0].byteLength` on an empty list
    | MissingRecord     // `values[i].copy(...)` with no record at `i`
    | NegativeSize      // `Buffer.alloc` of a negative size
    | NegativeOffset    // `Buffer.copy` to a negative target offset
    | PartialElement    // the buffer does not hold a whole number of records
    | BadArrayLength    // `new Array(n)` with a negative `n`

  datatype JsVector = JsVector(values: seq<Bytes>, elementSize: nat)

  /** The layout the container is meant for: at least one record, and
      every record as long as the first. */
  predicate WellFormed(v: JsVector)
  {
    |v.values| > 0 && Uniform(v.values, v.elementSize)
  }

  /** `new JsVector(values)`: the element size is taken from record 0. */
  function New(values: seq<Bytes>): (r: Result<JsVector, VectorError>)
    ensures r.Ok? <==> |values| > 0
    ensures r.Ok? ==> r.value.values == values && r.value.elementSize == |values[0]|
    ensures r.Ok? && Uniform(values, |values[0]|) ==> WellFormed(r.value)
  {
    if |values| == 0 then Err(NoElements) else Ok(JsVector(values, |values[0]|))
  }

  function Length(v: JsVector): nat
  {
    |v.values|
  }

  function ByteLength(v: JsVector): nat
  {
    |v.values| * v.elementSize
  }

  lemma {:induction false} ByteLengthIsFlatLength(v: JsVector)
    requires WellFormed(v)
    ensures ByteLength(v) == |Flatten(v.values)|
    ensures ByteLength(v) == Length(v) * |v.values[0]|
  {
    FlattenLength(v.values, v.elementSize);
  }

  /** `toBuffer(i, 1)`: record `i` itself, or `undefined` when there is none. */
  function ValueAt(v: JsVector, i: int): (r: Option<Bytes>)
    ensures r.Some? <==> 0 <= i < |v.values|
    ensures r.Some? ==> r.value == v.values[i]
  {
    if 0 <= i < |v.values| then Some(v.values[i]) else None
  }

  /** `Buffer.prototype.copy(target, offset)`: writes as much of `src` as
      fits from `offset` on and returns how many bytes it wrote. */
  method CopyInto(src: Bytes, dst: array<byte>, offset: nat) returns (n: nat)
    modifies dst
    ensures n == if offset >= dst.Length then 0
                 else if |src| <= dst.Length - offset then |src| else dst.Length - offset
    ensures offset < dst.Length ==>
      dst[..] == old(dst[..offset]) + src[..n] + old(dst[offset + n..])
    ensures offset >= dst.Length ==> dst[..] == old(dst[..])
  {
    if offset >= dst.Length {
      return 0;
    }
    n := if |src| <= dst.Length - offset then |src| else dst.Length - offset;
    var k := 0;
    while k < n
      invariant 0 <= k <= n
      invariant forall i :: 0 <= i < dst.Length ==>
        dst[i] == if offset <= i < offset + k then src[i - offset] else old(dst[i])
    {
      dst[offset + k] := src[k];
      k := k + 1;
    }
    assert dst[..] == old(dst[..offset]) + src[..n] + old(dst[offset + n..]);
  }

  /** `copyValue(index, destination, offset)`: copies record `index` into
      `destination` and returns the element size. */
  method CopyValue(v: JsVector, index: int, dst: array<byte>, offset: int)
    returns (r: Result<nat, VectorError>)
    modifies dst
    ensures !(0 <= index < |v.values|) ==> r == Err(MissingRecord) && dst[..] == old(dst[..])
    ensures 0 <= index < |v.values| && offset < 0 ==> r == Err(NegativeOffset) && dst[..] == old(dst[..])
    ensures 0 <= index < |v.values| && 0 <= offset ==> r == Ok(v.elementSize)
    ensures 0 <= index < |v.values| && 0 <= offset < dst.Length ==>
      var n := if |v.values[index]| <= dst.Length - offset then |v.values[index]| else dst.Length - offset;
      dst[..] == old(dst[..offset]) + v.values[index][..n] + old(dst[offset + n..])
    ensures 0 <= index < |v.values| && dst.Length <= offset ==> dst[..] == old(dst[..])
  {
    if !(0 <= index < |v.values|) {
      return Err(MissingRecord);
    }
    if offset < 0 {
      return Err(NegativeOffset);
    }
    var _ := CopyInto(v.values[index], dst, offset);
    r := Ok(v.elementSize);
  }

  /** The count `toBuffer(start, count)` works with: an absent count means
      "to the end". */
  function EffectiveCount(v: JsVector, start: int, count: Option<int>): int
  {
    if count.None? then |v.values| - start else count.value
  }

  /** `toBuffer(start, count)`. A count of one returns record `start`
      itself; any other count copies records `start .. start+count-1` into a
      fresh buffer of `count * elementSize` bytes. */
  method ToBuffer(v: JsVector, start: int, count: Option<int>)
    returns (r: Result<Option<Bytes>, VectorError>)
    requires WellFormed(v)
    ensures var c := EffectiveCount(v, start, count);
      c == 1 ==> r == Ok(ValueAt(v, start))
    ensures var c := EffectiveCount(v, start, count);
      c != 1 && c * v.elementSize < 0 ==> r == Err(NegativeSize)
    ensures var c := EffectiveCount(v, start, count);
      c != 1 && c <= 0 && c * v.elementSize >= 0 ==> r == Ok(Some([]))
    ensures var c := EffectiveCount(v, start, count);
      c > 1 && !(0 <= start && start + c <= |v.values|) ==> r == Err(MissingRecord)
    ensures var c := EffectiveCount(v, start, count);
      c > 1 && 0 <= start && start + c <= |v.values| ==>
        r == Ok(Some(Flatten(v.values[start..start + c])))
        && |Flatten(v.values[start..start + c])| == c * v.elementSize
  {
    var c := EffectiveCount(v, start, count);
    if c == 1 {
      return Ok(ValueAt(v, start));
    }
    if c * v.elementSize < 0 {
      return Err(NegativeSize);
    }
    if c <= 0 {
      return Ok(Some([]));
    }
    if !(0 <= start && start + c <= |v.values|) {
      // the copy loop reaches `values[i].copy` for a missing record and throws
      return Err(MissingRecord);
    }
    FlattenLength(v.values[start..start + c], v.elementSize);
    var bytes := CopyRecords(v.values[start..start + c], v.elementSize);
    r := Ok(Some(bytes));
  }

  /** The copy loop of `toBuffer`: a fresh buffer of `|rs| * size` bytes,
      record `k` copied to offset `k * size`. */
  method CopyRecords(rs: seq<Bytes>, size: nat) returns (out: Bytes)
    requires Uniform(rs, size)
    ensures out == Flatten(rs)
  {
    FlattenLength(rs, size);
    var result := new byte[|rs| * size];
    var k, offset := 0, 0;
    while k < |rs|
      invariant 0 <= k <= |rs|
      invariant offset == |Flatten(rs[..k])|
      invariant offset <= result.Length == |Flatten(rs)|
      invariant result[..offset] == Flatten(rs[..k])
    {
      FlattenPrefixStep(rs, size, k);
      assert |rs[k]| == size;
      ghost var before := result[..];
      var n := CopyInto(rs[k], result, offset);
      assert result[..offset + n] == before[..offset] + rs[k];
      k, offset := k + 1, offset + size;
    }
    assert rs[..k] == rs;
    assert result[..] == result[..offset];
    out := result[..];
  }

  /** One more record copied: the prefix grows by record `k`, and it still
      fits in the whole. */
  lemma {:induction false} FlattenPrefixStep(rs: seq<Bytes>, size: nat, k: nat)
    requires Uniform(rs, size) && k < |rs|
    ensures Flatten(rs[..k + 1]) == Flatten(rs[..k]) + rs[k]
    ensures |Flatten(rs[..k])| + size <= |Flatten(rs)|
  {
    assert rs[..k + 1] == rs[..k] + [rs[k]];
    FlattenAppend(rs[..k], rs[k]);
    assert rs == rs[..k + 1] + rs[k + 1..];
    FlattenConcat(rs[..k + 1], rs[k + 1..]);
  }

  /** The records `fromBuffer` cuts a buffer of `n * size` bytes into:
      `n` consecutive slices of `size` bytes from offset 0 on. */
  function Split(b: Bytes, size: nat, n: nat): (rs: seq<Bytes>)
    requires |b| == n * size
    ensures |rs| == n
    ensures Uniform(rs, size)
    decreases n
  {
    if n == 0 then []
    else
      MulStep(n, size);
      [b[..size]] + Split(b[size..], size, n - 1)
  }

  /** The whole buffer cut into records of `size` bytes. */
  function Records(b: Bytes, size: nat): (rs: seq<Bytes>)
    requires size > 0 && |b| % size == 0
    ensures |rs| * size == |b|
    ensures Uniform(rs, size)
    ensures Flatten(rs) == b
  {
    DivExact(|b|, size);
    FlattenSplit(b, size, |b| / size);
    Split(b, size, |b| / size)
  }

  /** `fromBuffer(values, valueSize)`: the JavaScript division
      `byteLength / valueSize` must give a whole, non-negative, non-zero
      count (a count of zero makes the constructor read `values[0]`). */
  method FromBuffer(b: Bytes, size: int) returns (r: Result<JsVector, VectorError>)
    ensures r.Ok? <==> size > 0 && |b| > 0 && |b| % size == 0
    ensures r.Ok? ==> r.value.elementSize == size && r.value.values == Records(b, size)
    ensures (size == 0 || |b| % Abs(size) != 0) ==> r == Err(PartialElement)
    ensures size != 0 && |b| % Abs(size) == 0 && |b| == 0 ==> r == Err(NoElements)
    ensures size < 0 && |b| % Abs(size) == 0 && |b| > 0 ==> r == Err(BadArrayLength)
  {
    if size == 0 || |b| % Abs(size) != 0 {
      return Err(PartialElement);
    }
    if |b| == 0 {
      return Err(NoElements);
    }
    if size < 0 {
      return Err(BadArrayLength);
    }
    DivExact(|b|, size);
    var records := SliceRecords(b, size, |b| / size);
    r := New(records);
  }

  /** The loop of `fromBuffer`: slot `i` gets bytes `[offset, offset + size)`
      with `offset` advancing by `size`. */
  method SliceRecords(b: Bytes, size: nat, count: nat) returns (rs: seq<Bytes>)
    requires |b| == count * size
    ensures rs == Split(b, size, count)
  {
    var result := new Bytes[count](_ => []);
    var i, offset := 0, 0;
    while i < count
      invariant 0 <= i <= count
      invariant 0 <= offset <= |b|
      invariant |b[offset..]| == (count - i) * size
      invariant result[..i] + Split(b[offset..], size, count - i) == Split(b, size, count)
    {
      MulStep(count - i, size);
      assert b[offset..][size..] == b[offset + size..];
      assert b[offset..][..size] == b[offset..offset + size];
      result[i] := b[offset..offset + size];
      assert result[..i + 1] == result[..i] + [b[offset..offset + size]];
      i, offset := i + 1, offset + size;
    }
    assert result[..] == result[..i];
    rs := result[..];
  }

  function Abs(x: int): nat
  {
    if x < 0 then -x else x
  }

  lemma {:induction false} DivExact(n: nat, s: nat)
    requires s > 0 && n % s == 0
    ensures n == (n / s) * s
  {
  }

  lemma {:induction false} MulStep(n: nat, s: nat)
    requires n > 0
    ensures n * s == (n - 1) * s + s
  {
  }

  lemma {:induction false} FlattenSplit(b: Bytes, size: nat, n: nat)
    requires |b| == n * size
    ensures Flatten(Split(b, size, n)) == b
    decreases n
  {
    if n > 0 {
      MulStep(n, size);
      FlattenSplit(b[size..], size, n - 1);
      FlattenCons(b[..size], Split(b[size..], size, n - 1));
    }
  }

  lemma {:induction false} SplitFlatten(rs: seq<Bytes>, size: nat)
    requires Uniform(rs, size)
    ensures |Flatten(rs)| == |rs| * size
    ensures Split(Flatten(rs), size, |rs|) == rs
    decreases |rs|
  {
    FlattenLength(rs, size);
    if rs != [] {
      var tail := rs[1..];
      assert rs == [rs[0]] + tail;
      FlattenCons(rs[0], tail);
      SplitFlatten(tail, size);
      MulStep(|rs|, size);
      assert Flatten(rs)[size..] == Flatten(tail);
      assert Flatten(rs)[..size] == rs[0];
    }
  }

  /** Round trip: cutting a buffer into records and reading them all back
      with `toBuffer()` gives the original bytes. */
  method FromBufferToBuffer(b: Bytes, size: int) returns (back: Option<Bytes>)
    requires size > 0 && |b| > 0 && |b| % size == 0
    ensures back == Some(b)
  {
    var v := FromBuffer(b, size);
    var rs := v.value.values;
    assert |rs| > 0;
    var out := ToBuffer(v.value, 0, None);
    assert Flatten(rs) == b;
    assert EffectiveCount(v.value, 0, None) == |rs|;
    assert rs[0..|rs|] == rs;
    if |rs| == 1 {
      assert rs[..0] == [];
      assert Flatten(rs) == Flatten([]) + rs[0];
      assert out == Ok(Some(rs[0]));
      assert rs[0] == b;
      assert out == Ok(Some(b));
    } else {
      assert out == Ok(Some(Flatten(rs)));
      assert out == Ok(Some(b));
    }
    back := out.value;
  }
}
