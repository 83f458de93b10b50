/** The bytes of a run of values of one scalar type, as both generations of
    the leaf emitters write them: `for v in values { out.extend(v.to_bytes(..)?) }`
    (src/emit.rs, src/layout/entry.rs), and the padding loop that follows
    (`while out.len() < total { out.push(padding) }`). */
module ValueBytes {
  import opened Common
  import opened Primitives
  import opened LayoutSettings
  import opened Errors
  import opened Schema

  /** The values converted one after another, in order; the first value
      that does not convert is the error. */
  function ValuesBytes(values: seq<DataValue>, st: ScalarType, e: Endianness, strict: bool, codec: FloatCodec): (r: Result<seq<byte>, NvmError>)
    ensures r.Ok? ==> |r.value| == |values| * st.SizeBytes()
    ensures r.Err? ==> r.error.DataValueExportFailed?
    decreases |values|
  {
    if values == [] then Ok([])
    else
      assert |values| * st.SizeBytes() == st.SizeBytes() + (|values| - 1) * st.SizeBytes();
      var b :- ToBytes(values[0], st, e, strict, codec);
      var rest :- ValuesBytes(values[1..], st, e, strict, codec);
      Ok(b + rest)
  }

  /** The run converts exactly when every value in it converts. */
  lemma {:induction false} ValuesBytesOk(values: seq<DataValue>, st: ScalarType, e: Endianness, strict: bool, codec: FloatCodec)
    ensures ValuesBytes(values, st, e, strict, codec).Ok?
        <==> forall i :: 0 <= i < |values| ==> ToBytes(values[i], st, e, strict, codec).Ok?
    decreases |values|
  {
    if values != [] {
      ValuesBytesOk(values[1..], st, e, strict, codec);
      assert forall i :: 0 <= i < |values| - 1 ==> values[1..][i] == values[i + 1];
    }
  }

  /** A result with `out` placed in front of its bytes. */
  function Prepend(out: seq<byte>, r: Result<seq<byte>, NvmError>): (p: Result<seq<byte>, NvmError>)
    ensures p.Ok? <==> r.Ok?
    ensures p.Ok? ==> p.value == out + r.value
    ensures p.Err? ==> p.error == r.error
  {
    match r
    case Ok(b) => Ok(out + b)
    case Err(e) => Err(e)
  }

  /** The bytes of one result followed by those of another; the first
      error wins. */
  function Then(first: Result<seq<byte>, NvmError>, rest: Result<seq<byte>, NvmError>): Result<seq<byte>, NvmError>
  {
    match first
    case Err(err) => Err(err)
    case Ok(x) => Prepend(x, rest)
  }

  /** Unfolding one step of the conversion of a non-empty run. */
  lemma ValuesBytesCons(values: seq<DataValue>, st: ScalarType, e: Endianness, strict: bool, codec: FloatCodec)
    requires values != []
    ensures ValuesBytes(values, st, e, strict, codec)
         == Then(ToBytes(values[0], st, e, strict, codec), ValuesBytes(values[1..], st, e, strict, codec))
  {
  }

  /** Chunk i of width w of s: the bytes from `i * w` up to `(i + 1) * w`. */
  function Chunk(s: seq<byte>, i: nat, w: nat): (c: seq<byte>)
    requires (i + 1) * w <= |s|
    ensures |c| == w
  {
    assert (i + 1) * w == i * w + w;
    s[i * w..(i + 1) * w]
  }

  /** In `b + rest` with `|b| == w`, chunk i (for i > 0) of width w is chunk
      i - 1 of `rest`. */
  lemma ChunkAfter(all: seq<byte>, b: seq<byte>, rest: seq<byte>, w: nat, i: nat)
    requires all == b + rest && |b| == w && 0 < i
    requires i * w <= |rest|
    ensures (i + 1) * w <= |all|
    ensures Chunk(all, i, w) == Chunk(rest, i - 1, w)
  {
    assert i * w == w + (i - 1) * w;
    assert (i + 1) * w == w + i * w;
  }

  /** The value at position i is written at `i * width`, as its own
      conversion gives it. */
  lemma {:induction false} ValuesBytesAt(values: seq<DataValue>, st: ScalarType, e: Endianness, strict: bool, codec: FloatCodec, i: nat)
    requires ValuesBytes(values, st, e, strict, codec).Ok?
    requires i < |values|
    ensures ToBytes(values[i], st, e, strict, codec).Ok?
    ensures (i + 1) * st.SizeBytes() <= |ValuesBytes(values, st, e, strict, codec).value|
    ensures Chunk(ValuesBytes(values, st, e, strict, codec).value, i, st.SizeBytes())
         == ToBytes(values[i], st, e, strict, codec).value
  {
    ValuesBytesCons(values, st, e, strict, codec);
    var all := ValuesBytes(values, st, e, strict, codec).value;
    var b := ToBytes(values[0], st, e, strict, codec).value;
    var rest := ValuesBytes(values[1..], st, e, strict, codec).value;
    if i > 0 {
      ValuesBytesAt(values[1..], st, e, strict, codec, i - 1);
      ChunkAfter(all, b, rest, st.SizeBytes(), i);
      assert values[1..][i - 1] == values[i];
    } else {
      ChunkFirst(all, b, rest, st.SizeBytes());
    }
  }

  /** In `b + rest` with `|b| == w`, chunk 0 of width w is b. */
  lemma ChunkFirst(all: seq<byte>, b: seq<byte>, rest: seq<byte>, w: nat)
    requires all == b + rest && |b| == w
    ensures (0 + 1) * w <= |all|
    ensures Chunk(all, 0, w) == b
  {
  }

  /** Converting two runs one after the other is converting their
      concatenation. */
  lemma {:induction false} ValuesBytesAppend(a: seq<DataValue>, b: seq<DataValue>, st: ScalarType, e: Endianness, strict: bool, codec: FloatCodec)
    ensures ValuesBytes(a + b, st, e, strict, codec)
         == Then(ValuesBytes(a, st, e, strict, codec), ValuesBytes(b, st, e, strict, codec))
    decreases |a|
  {
    if a == [] {
      assert a + b == b;
      match ValuesBytes(b, st, e, strict, codec)
      case Err(_) =>
      case Ok(ys) => assert [] + ys == ys;
    } else {
      ValuesBytesAppend(a[1..], b, st, e, strict, codec);
      AppendFront(a, b, st, e, strict, codec);
    }
  }

  /** The induction step of `ValuesBytesAppend`: the first value of `a`
      is the first value of `a + b`. */
  lemma AppendFront(a: seq<DataValue>, b: seq<DataValue>, st: ScalarType, e: Endianness, strict: bool, codec: FloatCodec)
    requires a != []
    requires ValuesBytes(a[1..] + b, st, e, strict, codec)
         == Then(ValuesBytes(a[1..], st, e, strict, codec), ValuesBytes(b, st, e, strict, codec))
    ensures ValuesBytes(a + b, st, e, strict, codec)
         == Then(ValuesBytes(a, st, e, strict, codec), ValuesBytes(b, st, e, strict, codec))
  {
    ConsSlices(a, b);
    ValuesBytesCons(a + b, st, e, strict, codec);
    ValuesBytesCons(a, st, e, strict, codec);
    ThenAssociates(ToBytes(a[0], st, e, strict, codec), ValuesBytes(a[1..], st, e, strict, codec), ValuesBytes(b, st, e, strict, codec));
  }

  /** The head and the tail of a concatenation whose first part is not empty. */
  lemma ConsSlices<T>(a: seq<T>, b: seq<T>)
    requires a != []
    ensures (a + b)[0] == a[0] && (a + b)[1..] == a[1..] + b
  {
  }

  /** Placing bytes in front is associative. */
  lemma ThenAssociates(x: Result<seq<byte>, NvmError>, y: Result<seq<byte>, NvmError>, z: Result<seq<byte>, NvmError>)
    ensures Then(x, Then(y, z)) == Then(Then(x, y), z)
  {
    if x.Ok? && y.Ok? && z.Ok? {
      assert x.value + (y.value + z.value) == (x.value + y.value) + z.value;
    }
  }

  /** One loop step: converting the value at i and then the rest. */
  lemma AppendStep(acc: seq<byte>, values: seq<DataValue>, i: nat, st: ScalarType, e: Endianness, strict: bool, codec: FloatCodec)
    requires i < |values|
    requires ToBytes(values[i], st, e, strict, codec).Ok?
    ensures Prepend(acc, ValuesBytes(values[i..], st, e, strict, codec))
         == Prepend(acc + ToBytes(values[i], st, e, strict, codec).value, ValuesBytes(values[i + 1..], st, e, strict, codec))
  {
    assert values[i..][1..] == values[i + 1..];
    assert values[i..][0] == values[i];
    ValuesBytesCons(values[i..], st, e, strict, codec);
    var b := ToBytes(values[i], st, e, strict, codec).value;
    match ValuesBytes(values[i + 1..], st, e, strict, codec)
    case Err(_) =>
    case Ok(rest) => assert acc + (b + rest) == (acc + b) + rest;
  }

  /** The conversion loop: `out` extended with the bytes of every value,
      stopping at the first that does not convert. */
  method AppendValues(out: seq<byte>, values: seq<DataValue>, st: ScalarType, e: Endianness, strict: bool, codec: FloatCodec)
    returns (r: Result<seq<byte>, NvmError>)
    ensures r == Prepend(out, ValuesBytes(values, st, e, strict, codec))
  {
    var acc := out;
    var i := 0;
    while i < |values|
      invariant 0 <= i <= |values|
      invariant Prepend(acc, ValuesBytes(values[i..], st, e, strict, codec))
             == Prepend(out, ValuesBytes(values, st, e, strict, codec))
    {
      var b := ToBytes(values[i], st, e, strict, codec);
      if b.Err? {
        assert values[i..][0] == values[i];
        ValuesBytesCons(values[i..], st, e, strict, codec);
        return Err(b.error);
      }
      AppendStep(acc, values, i, st, e, strict, codec);
      acc := acc + b.value;
      i := i + 1;
    }
    assert values[i..] == [];
    assert acc + [] == acc;
    r := Ok(acc);
  }

  // ---------------------------------------------------------------------
  // Rows

  /** Every row of the data has `cols` values. */
  predicate Rectangular(data: seq<seq<DataValue>>, cols: nat)
  {
    forall k :: 0 <= k < |data| ==> |data[k]| == cols
  }

  /** The column check of the 2D emitters: does every row have `cols`
      values? */
  method AllRowsHave(data: seq<seq<DataValue>>, cols: nat) returns (b: bool)
    ensures b <==> Rectangular(data, cols)
  {
    var k := 0;
    while k < |data|
      invariant 0 <= k <= |data|
      invariant forall m :: 0 <= m < k ==> |data[m]| == cols
    {
      if |data[k]| != cols {
        return false;
      }
      k := k + 1;
    }
    return true;
  }

  /** The flattened rows of a rectangle no taller than `rows` fit in
      `rows * cols` elements. */
  lemma Size2D(data: seq<seq<DataValue>>, rows: nat, cols: nat, w: nat)
    requires Rectangular(data, cols) && |data| <= rows
    ensures |Flatten(data)| == |data| * cols
    ensures |Flatten(data)| * w <= rows * cols * w
  {
    FlattenUniformLength(data, cols);
    MulMonotone(|data|, rows, cols);
    MulMonotone(|data| * cols, rows * cols, w);
  }

  /** The value in row i and column j of a rectangle is written at element
      `i * cols + j` of its bytes: row-major order. With
      `LayoutEntry.Shape2DLayout`, this places every value of a
      two-dimensional leaf. */
  lemma RowMajor(data: seq<seq<DataValue>>, cols: nat, st: ScalarType, e: Endianness, strict: bool, codec: FloatCodec,
                  bytes: seq<byte>, i: nat, j: nat)
    requires Rectangular(data, cols) && i < |data| && j < cols
    requires ValuesBytes(Flatten(data), st, e, strict, codec) == Ok(bytes)
    ensures ToBytes(data[i][j], st, e, strict, codec).Ok?
    ensures (RowMajorIndex(i, cols, j) + 1) * st.SizeBytes() <= |bytes|
    ensures Chunk(bytes, RowMajorIndex(i, cols, j), st.SizeBytes()) == ToBytes(data[i][j], st, e, strict, codec).value
  {
    var flat := Flatten(data);
    var k := RowMajorIndex(i, cols, j);
    FlattenUniformAt(data, cols, i, j);
    assert k < |flat| && flat[k] == data[i][j];
    ValuesBytesAt(flat, st, e, strict, codec, k);
  }

  /** The bytes of the rows one after the other, stopping at the first
      value that does not convert. */
  function RowsBytes(data: seq<seq<DataValue>>, st: ScalarType, e: Endianness, strict: bool, codec: FloatCodec): Result<seq<byte>, NvmError>
    decreases |data|
  {
    if data == [] then Ok([])
    else Then(ValuesBytes(data[0], st, e, strict, codec), RowsBytes(data[1..], st, e, strict, codec))
  }

  /** Row after row is the same as the flattened rows in one run. */
  lemma {:induction false} RowsBytesFlatten(data: seq<seq<DataValue>>, st: ScalarType, e: Endianness, strict: bool, codec: FloatCodec)
    ensures RowsBytes(data, st, e, strict, codec) == ValuesBytes(Flatten(data), st, e, strict, codec)
    decreases |data|
  {
    if data != [] {
      RowsBytesFlatten(data[1..], st, e, strict, codec);
      FlattenFrom(data, 0);
      assert data[0..] == data;
      ValuesBytesAppend(data[0], Flatten(data[1..]), st, e, strict, codec);
    }
  }

  /** The rows from i on: row i, then the rows after it. */
  lemma RowsFrom(data: seq<seq<DataValue>>, i: nat, st: ScalarType, e: Endianness, strict: bool, codec: FloatCodec)
    requires i < |data|
    ensures RowsBytes(data[i..], st, e, strict, codec)
         == Then(ValuesBytes(data[i], st, e, strict, codec), RowsBytes(data[i + 1..], st, e, strict, codec))
  {
    ConsSlices([data[i]], data[i + 1..]);
    assert data[i..] == [data[i]] + data[i + 1..];
  }

  /** Flattening from row i on is row i, then the flattening of the rows
      after it. */
  lemma FlattenFrom<T>(data: seq<seq<T>>, i: nat)
    requires i < |data|
    ensures Flatten(data[i..]) == data[i] + Flatten(data[i + 1..])
  {
    assert data[i..] == [data[i]] + data[i + 1..];
    FlattenCons(data[i], data[i + 1..]);
  }

  /** Placing bytes in front of a chain of results is placing them in
      front of its first result. */
  lemma PrependThen(acc: seq<byte>, x: Result<seq<byte>, NvmError>, y: Result<seq<byte>, NvmError>)
    ensures Prepend(acc, Then(x, y)) == Then(Prepend(acc, x), y)
  {
    if x.Ok? && y.Ok? {
      assert acc + (x.value + y.value) == (acc + x.value) + y.value;
    }
  }

  /** Placing no bytes in front changes nothing. */
  lemma PrependNothing(r: Result<seq<byte>, NvmError>)
    ensures Prepend([], r) == r
  {
    if r.Ok? {
      assert [] + r.value == r.value;
    }
  }

  /** One pass of the row loop: row i's values after `out`. */
  method AppendRow(out: seq<byte>, data: seq<seq<DataValue>>, i: nat, st: ScalarType, e: Endianness, strict: bool, codec: FloatCodec)
    returns (next: Result<seq<byte>, NvmError>)
    requires i < |data|
    ensures next == Prepend(out, ValuesBytes(data[i], st, e, strict, codec))
    ensures Then(next, RowsBytes(data[i + 1..], st, e, strict, codec))
         == Prepend(out, RowsBytes(data[i..], st, e, strict, codec))
  {
    RowsFrom(data, i, st, e, strict, codec);
    PrependThen(out, ValuesBytes(data[i], st, e, strict, codec), RowsBytes(data[i + 1..], st, e, strict, codec));
    next := AppendValues(out, data[i], st, e, strict, codec);
  }

  /** The row loop of the 2D emitters: every row's values, row after row. */
  method AppendRows(data: seq<seq<DataValue>>, st: ScalarType, e: Endianness, strict: bool, codec: FloatCodec)
    returns (r: Result<seq<byte>, NvmError>)
    ensures r == ValuesBytes(Flatten(data), st, e, strict, codec)
  {
    RowsBytesFlatten(data, st, e, strict, codec);
    var out: seq<byte> := [];
    var i := 0;
    assert data[0..] == data;
    PrependNothing(RowsBytes(data, st, e, strict, codec));
    while i < |data|
      invariant 0 <= i <= |data|
      invariant Prepend(out, RowsBytes(data[i..], st, e, strict, codec)) == RowsBytes(data, st, e, strict, codec)
    {
      var next := AppendRow(out, data, i, st, e, strict, codec);
      if next.Err? {
        return Err(next.error);
      }
      out := next.value;
      i := i + 1;
    }
    assert data[i..] == [];
    assert out + [] == out;
    r := Ok(out);
  }

  // ---------------------------------------------------------------------
  // Padding

  /** `out` grown with the padding byte up to `total` bytes, and left as it
      is when it already has that many. */
  function Padded(out: seq<byte>, total: nat, padding: byte): (r: seq<byte>)
    ensures |r| == if |out| < total then total else |out|
    ensures r[..|out|] == out
    ensures forall i :: |out| <= i < |r| ==> r[i] == padding
  {
    if |out| < total then
      var r := out + Fill(total - |out|, padding);
      assert r[..|out|] == out;
      r
    else out
  }

  /** Data no longer than `total` is padded with exactly the bytes it
      lacks. */
  lemma PaddedIsFill(out: seq<byte>, total: nat, padding: byte)
    requires |out| <= total
    ensures Padded(out, total, padding) == out + Fill(total - |out|, padding)
  {
    if |out| == total {
      assert Fill(0, padding) == [] && out + [] == out;
    }
  }

  /** The padding loop (`while out.len() < total { out.push(padding) }`). */
  method PadTo(out: seq<byte>, total: nat, padding: byte) returns (r: seq<byte>)
    ensures r == Padded(out, total, padding)
  {
    r := out;
    assert Fill(0, padding) == [];
    while |r| < total
      invariant |out| <= |r|
      invariant |out| < total ==> |r| <= total
      invariant |out| >= total ==> r == out
      invariant r == out + Fill(|r| - |out|, padding)
      decreases total - |r|
    {
      assert Fill(|r| - |out|, padding) + [padding] == Fill(|r| + 1 - |out|, padding);
      r := r + [padding];
    }
  }
}
