/** The data dump of the older pipeline (src/dump.rs): the values a block
    would hold, as a JSON tree shaped like the block, and metadata saying
    where padding goes. It walks the tree with the same offset accounting
    as the byte-stream builder (alignment padding before each leaf, then
    the leaf's declared size, then a 4-byte tail for a keyword CRC), but it
    writes no bytes.

    The `resolve_*_value` functions are pure and become functions here;
    the walk threads a mutable offset and padding map, and becomes the
    `Dumper` class, proved against the functions `Walk` and `WalkLeaf`. */
module Dump {
  import opened Common
  import opened Primitives
  import opened LayoutSettings
  import opened Errors
  import opened Schema
  import ValueBytes
  import LegacyEmit
  import LayoutBlock

  /** The JSON values the dump is made of. An object is a map from key to
      value: a later insertion under the same key replaces the earlier. */
  datatype Json =
    | Number(n: Primitive)
    | Text(s: string)
    | List(items: seq<Json>)
    | Object(fields: map<string, Json>)

  // ---------------------------------------------------------------------
  // Values

  /** `data_value_to_json`: the lossy `TryFrom` of the value to the
      leaf's type; only a string fails. */
  function ToJson(v: DataValue, st: ScalarType, codec: FloatCodec): (r: Result<Json, NvmError>)
    ensures r.Ok? <==> !v.Str?
    ensures r.Ok? ==> r.value.Number? && r.value.n.Width() == st.SizeBytes()
    ensures r.Err? ==> r.error == DataValueExportFailed(StringToScalar)
  {
    var p :- LossyCast(v, st, codec);
    Ok(Number(p))
  }

  /** The number the dump shows is the number the non-strict image holds:
      laid out in either byte order it gives the bytes `to_bytes` writes. */
  lemma DumpedValueIsWritten(v: DataValue, st: ScalarType, e: Endianness, codec: FloatCodec)
    requires !v.Str?
    ensures ToBytes(v, st, e, false, codec) == Ok(ToEndianBytes(ToJson(v, st, codec).value.n, e))
  {
    NonStrictIsLossyCast(v, st, e, codec);
  }

  /** The element loop of `resolve_1d_value`: every value converted, in
      order; a string anywhere fails the whole array. */
  function ToJsonAll(values: seq<DataValue>, st: ScalarType, codec: FloatCodec): (r: Result<seq<Json>, NvmError>)
    decreases |values|
    ensures r.Ok? <==> forall i :: 0 <= i < |values| ==> !values[i].Str?
    ensures r.Ok? ==> |r.value| == |values|
    ensures r.Ok? ==> forall i :: 0 <= i < |values| ==> Ok(r.value[i]) == ToJson(values[i], st, codec)
    ensures r.Err? ==> r.error == DataValueExportFailed(StringToScalar)
  {
    if values == [] then Ok([])
    else
      var init :- ToJsonAll(values[..|values| - 1], st, codec);
      var last :- ToJson(values[|values| - 1], st, codec);
      assert forall i :: 0 <= i < |values| - 1 ==> values[i] == values[..|values| - 1][i];
      Ok(init + [last])
  }

  /** The row loop of `resolve_2d_value`: each row a JSON list. */
  function ToJsonRows(data: seq<seq<DataValue>>, st: ScalarType, codec: FloatCodec): (r: Result<seq<Json>, NvmError>)
    decreases |data|
    ensures r.Ok? <==> forall k :: 0 <= k < |data| ==> ToJsonAll(data[k], st, codec).Ok?
    ensures r.Ok? ==> |r.value| == |data|
    ensures r.Ok? ==> forall k :: 0 <= k < |data| ==> r.value[k] == List(ToJsonAll(data[k], st, codec).value)
    ensures r.Err? ==> r.error == DataValueExportFailed(StringToScalar)
  {
    if data == [] then Ok([])
    else
      var init :- ToJsonRows(data[..|data| - 1], st, codec);
      var last :- ToJsonAll(data[|data| - 1], st, codec);
      assert forall k :: 0 <= k < |data| - 1 ==> data[k] == data[..|data| - 1][k];
      Ok(init + [List(last)])
  }

  /** The element loop as the source writes it. */
  method ConvertAll(values: seq<DataValue>, st: ScalarType, codec: FloatCodec) returns (r: Result<seq<Json>, NvmError>)
    ensures r == ToJsonAll(values, st, codec)
  {
    var out: seq<Json> := [];
    var i := 0;
    while i < |values|
      invariant 0 <= i <= |values|
      invariant ToJsonAll(values[..i], st, codec) == Ok(out)
    {
      ValuesStep(values, i, st, codec);
      var v := ToJson(values[i], st, codec);
      if v.Err? {
        return Err(v.error);
      }
      out := out + [v.value];
      i := i + 1;
    }
    assert values[..i] == values;
    r := Ok(out);
  }

  /** One more value: it fails the array when it is a string, and
      otherwise adds its number at the end. */
  lemma ValuesStep(values: seq<DataValue>, i: nat, st: ScalarType, codec: FloatCodec)
    requires i < |values| && ToJsonAll(values[..i], st, codec).Ok?
    ensures ToJson(values[i], st, codec).Err? ==> ToJsonAll(values, st, codec) == Err(DataValueExportFailed(StringToScalar))
    ensures ToJson(values[i], st, codec).Ok? ==>
      ToJsonAll(values[..i + 1], st, codec) == Ok(ToJsonAll(values[..i], st, codec).value + [ToJson(values[i], st, codec).value])
  {
    assert values[..i + 1][..i] == values[..i];
  }

  /** The row loop as the source writes it. */
  method ConvertRows(data: seq<seq<DataValue>>, st: ScalarType, codec: FloatCodec) returns (r: Result<seq<Json>, NvmError>)
    ensures r == ToJsonRows(data, st, codec)
  {
    var out: seq<Json> := [];
    var k := 0;
    while k < |data|
      invariant 0 <= k <= |data|
      invariant ToJsonRows(data[..k], st, codec) == Ok(out)
    {
      var row := ConvertAll(data[k], st, codec);
      RowsStep(data, k, st, codec, out, row);
      if row.Err? {
        return Err(row.error);
      }
      out := out + [List(row.value)];
      k := k + 1;
    }
    assert data[..k] == data;
    r := Ok(out);
  }

  /** One more row: it fails the rows when it fails, and otherwise adds
      its list at the end. */
  lemma RowsStep(data: seq<seq<DataValue>>, k: nat, st: ScalarType, codec: FloatCodec, out: seq<Json>, row: Result<seq<Json>, NvmError>)
    requires k < |data| && ToJsonRows(data[..k], st, codec) == Ok(out)
    requires row == ToJsonAll(data[k], st, codec)
    ensures row.Err? ==> ToJsonRows(data, st, codec) == Err(row.error)
    ensures row.Ok? ==> ToJsonRows(data[..k + 1], st, codec) == Ok(out + [List(row.value)])
  {
    assert data[..k + 1][..k] == data[..k];
  }

  // ---------------------------------------------------------------------
  // Leaves

  /** What `resolve_*_value` give back: the value, the bytes the leaf
      occupies, and how many of those the data leaves unfilled. */
  datatype Resolved = Resolved(value: Json, consumed: nat, within: nat)

  /** The bytes a leaf's declaration reserves: one element, `size`
      elements, or `rows * cols` elements. */
  function DeclaredBytes(leaf: LeafEntry): nat
  {
    match leaf.size
    case None => leaf.scalarType.SizeBytes()
    case Some(OneD(size)) => size * leaf.scalarType.SizeBytes()
    case Some(TwoD(rows, cols)) => rows * cols * leaf.scalarType.SizeBytes()
  }

  /** `resolve_scalar_value` */
  function ResolveScalar(leaf: LeafEntry, sheet: LegacyEmit.Lookups, codec: FloatCodec): (r: Result<Resolved, NvmError>)
    ensures r.Ok? ==> r.value.consumed == leaf.scalarType.SizeBytes() && r.value.within == 0
    ensures r.Ok? ==> r.value.value.Number?
    ensures leaf.source.Value? && leaf.source.literal.Array? ==> r == Err(DataValueExportFailed(SingleExpected))
    ensures leaf.source.Name? && sheet.single(leaf.source.name).Err? ==> r == Err(sheet.single(leaf.source.name).error)
  {
    var v :- match leaf.source
      case Name(name) => sheet.single(name)
      case Value(Single(v)) => Ok(v)
      case Value(Array(_)) => Err(DataValueExportFailed(SingleExpected));
    var value :- ToJson(v, leaf.scalarType, codec);
    Ok(Resolved(value, leaf.scalarType.SizeBytes(), 0))
  }

  /** The bytes the supplied data of a 1D leaf fills: the string's UTF-8
      bytes, or one element per value. */
  function UsedBytes(vs: ValueSource, st: ScalarType): nat
  {
    match vs
    case Single(v) => if v.Str? then |Utf8(v.s)| else 0
    case Array(values) => |values| * st.SizeBytes()
  }

  /** The common part of both branches of `resolve_1d_value`, once the
      data is in hand: a string only for `u8`, an array converted element
      by element, and in both cases no more than the declared size. */
  function Resolve1DSource(vs: ValueSource, st: ScalarType, size: nat, codec: FloatCodec): (r: Result<Resolved, NvmError>)
    ensures vs.Single? ==> (r.Ok? <==> st == U8 && vs.value.Str? && |Utf8(vs.value.s)| <= size)
    ensures vs.Array? ==> (r.Ok? <==> (forall i :: 0 <= i < |vs.values| ==> !vs.values[i].Str?) && |vs.values| <= size)
    ensures vs.Single? && st != U8 ==> r == Err(DataValueExportFailed(StringsNeedU8))
    ensures r.Ok? ==> r.value.consumed == size * st.SizeBytes()
    ensures r.Ok? ==> UsedBytes(vs, st) + r.value.within == r.value.consumed
  {
    var declared := size * st.SizeBytes();
    match vs
    case Single(v) =>
      if st != U8 then Err(DataValueExportFailed(StringsNeedU8))
      else if !v.Str? then Err(DataValueExportFailed(StringExpected))
      else if |Utf8(v.s)| > declared then Err(DataValueExportFailed(LargerThanDefined))
      else Ok(Resolved(Text(v.s), declared, declared - |Utf8(v.s)|))
    case Array(values) =>
      var out :- ToJsonAll(values, st, codec);
      if |out| > size then Err(DataValueExportFailed(LargerThanDefined))
      else
        MulMonotone(|out|, size, st.SizeBytes());
        Ok(Resolved(List(out), declared, (size - |out|) * st.SizeBytes()))
  }

  /** `resolve_1d_value`: the data from the sheet or the literal, then the
      checks above. */
  function Resolve1D(leaf: LeafEntry, sheet: LegacyEmit.Lookups, size: nat, codec: FloatCodec): (r: Result<Resolved, NvmError>)
    ensures leaf.source.Value? ==> r == Resolve1DSource(leaf.source.literal, leaf.scalarType, size, codec)
    ensures leaf.source.Name? ==>
      r == match sheet.array1D(leaf.source.name)
           case Err(err) => Err(err)
           case Ok(vs) => Resolve1DSource(vs, leaf.scalarType, size, codec)
  {
    var vs :- match leaf.source
      case Name(name) => sheet.array1D(name)
      case Value(vs) => Ok(vs);
    Resolve1DSource(vs, leaf.scalarType, size, codec)
  }

  /** The checks and conversion of `resolve_2d_value`: every row exactly
      `cols` long, no more than `rows` rows, then the values. */
  function ResolveRows(data: seq<seq<DataValue>>, rows: nat, cols: nat, st: ScalarType, codec: FloatCodec): (r: Result<Resolved, NvmError>)
    ensures !ValueBytes.Rectangular(data, cols) ==> r == Err(DataValueExportFailed(ColumnMismatch))
    ensures ValueBytes.Rectangular(data, cols) && |data| > rows ==> r == Err(DataValueExportFailed(TooManyRows))
    ensures r.Ok? <==> ValueBytes.Rectangular(data, cols) && |data| <= rows && ToJsonRows(data, st, codec).Ok?
    ensures r.Ok? ==> r.value.consumed == rows * cols * st.SizeBytes()
    ensures r.Ok? ==> |data| * cols * st.SizeBytes() + r.value.within == r.value.consumed
  {
    var total := rows * cols * st.SizeBytes();
    if !ValueBytes.Rectangular(data, cols) then Err(DataValueExportFailed(ColumnMismatch))
    else if |data| > rows then Err(DataValueExportFailed(TooManyRows))
    else
      var out :- ToJsonRows(data, st, codec);
      MulMonotone(|out|, rows, cols);
      MulMonotone(|out| * cols, rows * cols, st.SizeBytes());
      Ok(Resolved(List(out), total, total - |out| * cols * st.SizeBytes()))
  }

  /** `resolve_2d_value`: only a named source; a literal is refused. */
  function Resolve2D(leaf: LeafEntry, sheet: LegacyEmit.Lookups, rows: nat, cols: nat, codec: FloatCodec): (r: Result<Resolved, NvmError>)
    ensures leaf.source.Value? ==> r == Err(DataValueExportFailed(TwoDLiteral))
    ensures leaf.source.Name? ==>
      r == match sheet.array2D(leaf.source.name)
           case Err(err) => Err(err)
           case Ok(data) => ResolveRows(data, rows, cols, leaf.scalarType, codec)
  {
    match leaf.source
    case Value(_) => Err(DataValueExportFailed(TwoDLiteral))
    case Name(name) =>
      var data :- sheet.array2D(name);
      ResolveRows(data, rows, cols, leaf.scalarType, codec)
  }

  /** The dispatch of `resolve_leaf` on the declared shape. */
  function ResolveValue(leaf: LeafEntry, sheet: LegacyEmit.Lookups, codec: FloatCodec): (r: Result<Resolved, NvmError>)
    ensures r.Ok? ==> r.value.consumed == DeclaredBytes(leaf) && r.value.within <= r.value.consumed
  {
    match leaf.size
    case None => ResolveScalar(leaf, sheet, codec)
    case Some(OneD(size)) => Resolve1D(leaf, sheet, size, codec)
    case Some(TwoD(rows, cols)) => Resolve2D(leaf, sheet, rows, cols, codec)
  }

  /** The dump and the byte emitter agree on a leaf's size: when both
      succeed, the leaf occupies exactly the bytes the emitter writes. */
  lemma ResolvedSizeIsEmittedSize(leaf: LeafEntry, sheet: LegacyEmit.Lookups, target: LegacyEmit.Target, codec: FloatCodec)
    requires ResolveValue(leaf, sheet, codec).Ok?
    requires LegacyEmit.Emit(leaf, sheet, target, codec).Ok?
    ensures ResolveValue(leaf, sheet, codec).value.consumed == |LegacyEmit.Emit(leaf, sheet, target, codec).value|
  {
  }

  /** For a one-dimensional leaf, the `within_bytes` the dump reports are
      exactly the padding bytes the emitter appends after the data. */
  lemma WithinIsEmittedPadding(leaf: LeafEntry, sheet: LegacyEmit.Lookups, size: nat, target: LegacyEmit.Target, codec: FloatCodec)
    requires Resolve1D(leaf, sheet, size, codec).Ok?
    requires LegacyEmit.Emit1D(leaf, sheet, size, target, codec).Ok?
    ensures var out := LegacyEmit.Emit1D(leaf, sheet, size, target, codec).value;
      var within := Resolve1D(leaf, sheet, size, codec).value.within;
      && within <= |out|
      && out == LegacyEmit.Data1D(leaf, sheet, target, codec).value + Fill(within, target.padding)
  {
    var out := LegacyEmit.Emit1D(leaf, sheet, size, target, codec).value;
    var data := LegacyEmit.Data1D(leaf, sheet, target, codec).value;
    var vs := if leaf.source.Value? then leaf.source.literal else sheet.array1D(leaf.source.name).value;
    LegacyEmit.Emit1DLayout(leaf, sheet, size, target, codec);
    assert |data| == UsedBytes(vs, leaf.scalarType);
    var within := Resolve1D(leaf, sheet, size, codec).value.within;
    assert out[..|data|] == data;
    assert out == data + Fill(within, target.padding) by {
      assert |out| == |data| + within;
      forall i | 0 <= i < |out|
        ensures out[i] == (data + Fill(within, target.padding))[i]
      {
        if i >= |data| {
          assert out[i] == target.padding;
        } else {
          assert out[i] == out[..|data|][i];
        }
      }
    }
  }

  // ---------------------------------------------------------------------
  // The walk, as functions

  /** How a leaf is resolved: `ResolveValue` with the data sheet (see
      `LeafResolver`). The walk is stated for any resolver. */
  type Resolver = LeafEntry -> Result<Resolved, NvmError>

  function LeafResolver(sheet: LegacyEmit.Lookups, codec: FloatCodec): (resolve: Resolver)
    ensures forall leaf :: resolve(leaf) == ResolveValue(leaf, sheet, codec)
  {
    leaf => ResolveValue(leaf, sheet, codec)
  }

  /** A resolver that reserves exactly the declared bytes of every leaf,
      whatever data it finds. */
  ghost predicate Declares(resolve: Resolver)
  {
    forall leaf :: resolve(leaf).Ok? ==> resolve(leaf).value.consumed == DeclaredBytes(leaf)
  }

  lemma LeafResolverDeclares(sheet: LegacyEmit.Lookups, codec: FloatCodec)
    ensures Declares(LeafResolver(sheet, codec))
  {
  }

  /** The padding metadata of one path: the alignment bytes before it and
      the unfilled bytes within it, each present only when non-zero. */
  datatype PadMeta = PadMeta(before: Option<nat>, within: Option<nat>)

  function NonZero(n: nat): (r: Option<nat>)
    ensures r.Some? <==> n != 0
    ensures r.Some? ==> r.value == n
  {
    if n == 0 then None else Some(n)
  }

  /** Every recorded path says something: at least one count, and no count
      is zero. */
  ghost predicate Meaningful(padding: map<string, PadMeta>)
  {
    forall p :: p in padding ==>
      && (padding[p].before.Some? || padding[p].within.Some?)
      && (padding[p].before.Some? ==> padding[p].before.value > 0)
      && (padding[p].within.Some? ==> padding[p].within.value > 0)
  }

  /** The end of `resolve_leaf`: the path is recorded only when there is
      padding before it or within it. */
  function Record(padding: map<string, PadMeta>, path: string, before: nat, within: nat): (r: map<string, PadMeta>)
    ensures path in r <==> path in padding || before != 0 || within != 0
    ensures before != 0 || within != 0 ==> r[path] == PadMeta(NonZero(before), NonZero(within))
    ensures forall p :: p != path ==> (p in r <==> p in padding)
    ensures forall p :: p in padding && (p != path || (before == 0 && within == 0)) ==> r[p] == padding[p]
    ensures Meaningful(padding) ==> Meaningful(r)
  {
    if before == 0 && within == 0 then padding
    else padding[path := PadMeta(NonZero(before), NonZero(within))]
  }

  /** The path of a field: the bare key at the top, otherwise the parent's
      path, a dot, and the key. */
  function ChildPath(path: string, key: string): (r: string)
    ensures path == [] ==> r == key
    ensures path != [] ==> |r| == |path| + 1 + |key| && r[..|path|] == path && r[|path|] == '.' && r[|path| + 1..] == key
  {
    if path == [] then key else path + "." + key
  }

  /** Sibling fields get distinct paths. */
  lemma ChildPathIsInjective(path: string, k1: string, k2: string)
    requires ChildPath(path, k1) == ChildPath(path, k2)
    ensures k1 == k2
  {
    if path != [] {
      assert k1 == ChildPath(path, k1)[|path| + 1..];
    }
  }

  /** The state after a walk: the value, the offset, the padding map. */
  datatype Walked = Walked(value: Json, offset: nat, padding: map<string, PadMeta>)

  /** `resolve_leaf` on a leaf at `offset`: alignment padding first, then
      the leaf's bytes. */
  function WalkLeaf(path: string, leaf: LeafEntry, resolve: Resolver, offset: nat, padding: map<string, PadMeta>)
    : (r: Result<Walked, NvmError>)
  {
    var before := LayoutBlock.AlignPad(offset, leaf.Alignment());
    var res :- resolve(leaf);
    Ok(Walked(res.value, offset + before + res.consumed, Record(padding, path, before, res.within)))
  }

  /** `walk_entry`: a leaf, or a branch whose fields are walked in order,
      each under its own path. */
  function Walk(path: string, e: Entry, resolve: Resolver, offset: nat, padding: map<string, PadMeta>)
    : (r: Result<Walked, NvmError>)
    decreases e, 1
  {
    match e
    case Leaf(leaf) => WalkLeaf(path, leaf, resolve, offset, padding)
    case Branch(children) => WalkFields(path, children, 0, resolve, offset, padding, map[])
  }

  /** The field loop of `walk_entry` from the i-th field on, with the
      offset, the padding map and the object built so far. */
  function WalkFields(path: string, children: seq<(string, Entry)>, i: nat, resolve: Resolver,
                      offset: nat, padding: map<string, PadMeta>, out: map<string, Json>)
    : (r: Result<Walked, NvmError>)
    requires i <= |children|
    decreases Branch(children), 0, |children| - i
  {
    if i == |children| then Ok(Walked(Object(out), offset, padding))
    else
      var w :- Walk(ChildPath(path, children[i].0), children[i].1, resolve, offset, padding);
      WalkFields(path, children, i + 1, resolve, w.offset, w.padding, out[children[i].0 := w.value])
  }

  /** The offset after a tree by its declaration alone: before each leaf
      the padding to its alignment, then its declared bytes. */
  function Extent(e: Entry, offset: nat): (r: nat)
    decreases e, 1
    ensures r >= offset
  {
    match e
    case Leaf(leaf) => offset + LayoutBlock.AlignPad(offset, leaf.Alignment()) + DeclaredBytes(leaf)
    case Branch(children) => ExtentFields(children, 0, offset)
  }

  function ExtentFields(children: seq<(string, Entry)>, i: nat, offset: nat): (r: nat)
    requires i <= |children|
    decreases Branch(children), 0, |children| - i
    ensures r >= offset
  {
    if i == |children| then offset
    else ExtentFields(children, i + 1, Extent(children[i].1, offset))
  }

  /** The offset the dump reaches depends only on the declarations: with a
      resolver that reserves the declared bytes, a successful walk ends at
      the tree's extent, whatever data was supplied. */
  lemma {:induction false} WalkEndsAtExtent(path: string, e: Entry, resolve: Resolver, offset: nat, padding: map<string, PadMeta>)
    requires Declares(resolve)
    requires Walk(path, e, resolve, offset, padding).Ok?
    decreases e, 1
    ensures Walk(path, e, resolve, offset, padding).value.offset == Extent(e, offset)
  {
    match e {
      case Leaf(leaf) =>
      case Branch(children) => FieldsEndAtExtent(path, children, 0, resolve, offset, padding, map[]);
    }
  }

  lemma {:induction false} FieldsEndAtExtent(path: string, children: seq<(string, Entry)>, i: nat, resolve: Resolver,
                                             offset: nat, padding: map<string, PadMeta>, out: map<string, Json>)
    requires i <= |children|
    requires Declares(resolve)
    requires WalkFields(path, children, i, resolve, offset, padding, out).Ok?
    decreases Branch(children), 0, |children| - i
    ensures WalkFields(path, children, i, resolve, offset, padding, out).value.offset == ExtentFields(children, i, offset)
  {
    if i < |children| {
      var w := Walk(ChildPath(path, children[i].0), children[i].1, resolve, offset, padding).value;
      WalkEndsAtExtent(ChildPath(path, children[i].0), children[i].1, resolve, offset, padding);
      FieldsEndAtExtent(path, children, i + 1, resolve, w.offset, w.padding, out[children[i].0 := w.value]);
    }
  }

  /** A walk only records paths that say something. */
  lemma {:induction false} WalkKeepsMeaningful(path: string, e: Entry, resolve: Resolver, offset: nat, padding: map<string, PadMeta>)
    requires Meaningful(padding)
    requires Walk(path, e, resolve, offset, padding).Ok?
    decreases e, 1
    ensures Meaningful(Walk(path, e, resolve, offset, padding).value.padding)
  {
    match e {
      case Leaf(leaf) =>
      case Branch(children) => FieldsKeepMeaningful(path, children, 0, resolve, offset, padding, map[]);
    }
  }

  lemma {:induction false} FieldsKeepMeaningful(path: string, children: seq<(string, Entry)>, i: nat, resolve: Resolver,
                                                offset: nat, padding: map<string, PadMeta>, out: map<string, Json>)
    requires i <= |children|
    requires Meaningful(padding)
    requires WalkFields(path, children, i, resolve, offset, padding, out).Ok?
    decreases Branch(children), 0, |children| - i
    ensures Meaningful(WalkFields(path, children, i, resolve, offset, padding, out).value.padding)
  {
    if i < |children| {
      var w := Walk(ChildPath(path, children[i].0), children[i].1, resolve, offset, padding).value;
      WalkKeepsMeaningful(ChildPath(path, children[i].0), children[i].1, resolve, offset, padding);
      FieldsKeepMeaningful(path, children, i + 1, resolve, w.offset, w.padding, out[children[i].0 := w.value]);
    }
  }

  // ---------------------------------------------------------------------
  // The dump

  /** The metadata object: the header fields, the padding map and the CRC
      tail. */
  datatype DumpMeta = DumpMeta(header: Header, endianness: Endianness, padding: map<string, PadMeta>, crcAlign: Option<nat>)

  datatype DumpResult = DumpResult(values: Json, meta: DumpMeta)

  /** `crc_align_padding_bytes`: for a keyword CRC, the bytes up to the
      next 4-byte boundary, recorded only when there are any. */
  function CrcAlign(location: CrcLocation, offset: nat): (r: Option<nat>)
    ensures r.Some? <==> location.Keyword? && offset % 4 != 0
    ensures r.Some? ==> 0 < r.value < 4 && (offset + r.value) % 4 == 0
  {
    if location.Keyword? then NonZero(LayoutBlock.AlignPad(offset, 4)) else None
  }

  /** `build_dump`: the walk from offset 0 with an empty padding map, then
      the metadata. */
  function Dump(block: Block, resolve: Resolver, settings: Schema.Settings): (r: Result<DumpResult, NvmError>)
  {
    var w :- Walk([], block.data, resolve, 0, map[]);
    Ok(DumpResult(w.value, DumpMeta(block.header, settings.endianness, w.padding, CrcAlign(block.header.crcLocation, w.offset))))
  }

  /** The dump's CRC tail is fixed by the declarations: it is the distance
      from the tree's extent to the next 4-byte boundary. */
  lemma CrcAlignFollowsExtent(block: Block, resolve: Resolver, settings: Schema.Settings)
    requires Declares(resolve)
    requires Dump(block, resolve, settings).Ok?
    ensures Dump(block, resolve, settings).value.meta.crcAlign == CrcAlign(block.header.crcLocation, Extent(block.data, 0))
    ensures Meaningful(Dump(block, resolve, settings).value.meta.padding)
  {
    WalkEndsAtExtent([], block.data, resolve, 0, map[]);
    WalkKeepsMeaningful([], block.data, resolve, 0, map[]);
  }

  // ---------------------------------------------------------------------
  // The walk, as the source runs it

  /** The offset and padding map `build_dump` threads through the walk. */
  class Dumper {
    var offset: nat
    var padding: map<string, PadMeta>

    constructor ()
      ensures offset == 0 && padding == map[]
    {
      offset := 0;
      padding := map[];
    }

    /** `walk_entry` */
    method WalkEntry(path: string, e: Entry, resolve: Resolver) returns (r: Result<Json, NvmError>)
      modifies this
      decreases e, 1
      ensures var expected := Walk(path, e, resolve, old(offset), old(padding));
        && (r.Ok? <==> expected.Ok?)
        && (r.Err? ==> r.error == expected.error)
        && (r.Ok? ==> r.value == expected.value.value && offset == expected.value.offset && padding == expected.value.padding)
    {
      match e {
        case Leaf(leaf) => r := ResolveLeaf(path, leaf, resolve);
        case Branch(children) => r := WalkBranch(path, children, resolve);
      }
    }

    /** `resolve_leaf` */
    method ResolveLeaf(path: string, leaf: LeafEntry, resolve: Resolver) returns (r: Result<Json, NvmError>)
      modifies this
      ensures var expected := WalkLeaf(path, leaf, resolve, old(offset), old(padding));
        && (r.Ok? <==> expected.Ok?)
        && (r.Err? ==> r.error == expected.error)
        && (r.Ok? ==> r.value == expected.value.value && offset == expected.value.offset && padding == expected.value.padding)
    {
      var alignment := leaf.Alignment();
      var before := (alignment - offset % alignment) % alignment;
      offset := offset + before;
      var resolved := resolve(leaf);
      if resolved.Err? {
        return Err(resolved.error);
      }
      offset := offset + resolved.value.consumed;
      var meta := PadMeta(None, None);
      if before != 0 {
        meta := meta.(before := Some(before));
      }
      if resolved.value.within != 0 {
        meta := meta.(within := Some(resolved.value.within));
      }
      if meta != PadMeta(None, None) {
        padding := padding[path := meta];
      }
      r := Ok(resolved.value.value);
    }

    /** The field loop of `walk_entry`. */
    method WalkBranch(path: string, children: seq<(string, Entry)>, resolve: Resolver) returns (r: Result<Json, NvmError>)
      modifies this
      decreases Branch(children), 0
      ensures var expected := WalkFields(path, children, 0, resolve, old(offset), old(padding), map[]);
        && (r.Ok? <==> expected.Ok?)
        && (r.Err? ==> r.error == expected.error)
        && (r.Ok? ==> r.value == expected.value.value && offset == expected.value.offset && padding == expected.value.padding)
    {
      var out: map<string, Json> := map[];
      var i := 0;
      while i < |children|
        invariant 0 <= i <= |children|
        invariant WalkFields(path, children, i, resolve, offset, padding, out)
               == WalkFields(path, children, 0, resolve, old(offset), old(padding), map[])
      {
        var key := children[i].0;
        var childPath := if path == [] then key else path + "." + key;
        var v := WalkEntry(childPath, children[i].1, resolve);
        if v.Err? {
          return Err(v.error);
        }
        out := out[key := v.value];
        i := i + 1;
      }
      r := Ok(Object(out));
    }

    /** The tail loop of `build_dump`: the offset moved up to the next
        4-byte boundary, one byte at a time, and the bytes counted. */
    method AlignCrc() returns (count: nat)
      modifies this
      ensures count == LayoutBlock.AlignPad(old(offset), 4)
      ensures offset == old(offset) + count && padding == old(padding)
    {
      count := 0;
      while offset % 4 != 0
        invariant offset == old(offset) + count && padding == old(padding)
        invariant count <= LayoutBlock.AlignPad(old(offset), 4)
        invariant forall k :: old(offset) <= k < offset ==> !LayoutBlock.OnBoundary(k, 4)
        decreases LayoutBlock.AlignPad(old(offset), 4) - count
      {
        count := count + 1;
        offset := offset + 1;
      }
      assert LayoutBlock.OnBoundary(old(offset) + count, 4);
    }
  }

  /** `build_dump` */
  method BuildDump(block: Block, sheet: LegacyEmit.Lookups, settings: Schema.Settings, codec: FloatCodec)
    returns (r: Result<DumpResult, NvmError>)
    ensures r == Dump(block, LeafResolver(sheet, codec), settings)
  {
    var dumper := new Dumper();
    var values := dumper.WalkEntry([], block.data, LeafResolver(sheet, codec));
    if values.Err? {
      return Err(values.error);
    }
    var crcAlign: Option<nat> := None;
    if block.header.crcLocation.Keyword? {
      var count := dumper.AlignCrc();
      if count != 0 {
        crcAlign := Some(count);
      }
    }
    r := Ok(DumpResult(values.value, DumpMeta(block.header, settings.endianness, dumper.padding, crcAlign)));
  }
}
