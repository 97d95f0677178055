/** serialize_tensor and serialize_gradients of cpp/include/rpc/serialization.hpp. Fields the
    source leaves uninitialised (`reserved` in each tensor's header, `total_size`) are arbitrary
    inputs here. */
module GradientSerialization {
  import opened Wrappers
  import opened Bytes
  import opened Buffers

  datatype Dtype = FLOAT32 | FLOAT16 | BFLOAT16 | INT32 | INT64 | UINT8 | INT8
  {
    function Code(): (c: byte)
      ensures c <= 6
    {
      match this
      case FLOAT32 => 0
      case FLOAT16 => 1
      case BFLOAT16 => 2
      case INT32 => 3
      case INT64 => 4
      case UINT8 => 5
      case INT8 => 6
    }

    function Size(): nat {
      match this
      case FLOAT32 => 4
      case FLOAT16 => 2
      case BFLOAT16 => 2
      case INT32 => 4
      case INT64 => 8
      case UINT8 => 1
      case INT8 => 1
    }
  }

  function DtypeOf(code: byte): Option<Dtype> {
    match code
    case 0 => Some(FLOAT32)
    case 1 => Some(FLOAT16)
    case 2 => Some(BFLOAT16)
    case 3 => Some(INT32)
    case 4 => Some(INT64)
    case 5 => Some(UINT8)
    case 6 => Some(INT8)
    case _ => None
  }

  const TENSOR_MAGIC: nat := 0x54454E53
  const GRADIENT_MAGIC: nat := 0x47524144

  datatype Tensor = Tensor(dtype: Dtype, dims: seq<nat>, data: seq<byte>)

  /** A tensor with what its header's `reserved` field happens to hold. */
  datatype Item = Item(tensor: Tensor, reserved: nat)

  /** The element count, as uint64_t multiplication leaves it. */
  function Numel(dims: seq<nat>): nat {
    if dims == [] then 1 else Numel(dims[..|dims| - 1]) * dims[|dims| - 1] % U64
  }

  function DataSize(numel: nat, dtype: Dtype): nat {
    numel * dtype.Size() % U64
  }

  /** What the caller of serialize_tensor must supply. */
  ghost predicate WellFormed(t: Tensor) {
    && (forall d :: d in t.dims ==> d < U64)
    && |t.data| == DataSize(Numel(t.dims), t.dtype)
  }

  /** Each value as a uint64_t. */
  function Words(ws: seq<nat>): (s: seq<byte>)
    ensures |s| == 8 * |ws|
  {
    if ws == [] then [] else Words(ws[..|ws| - 1]) + Le(ws[|ws| - 1], 8)
  }

  function TensorHeader(t: Tensor, reserved: nat): (s: seq<byte>)
    ensures |s| == 16
  {
    Le(TENSOR_MAGIC, 4) + [t.dtype.Code(), |t.dims| % 256] + Le(reserved, 2) + Le(Numel(t.dims), 8)
  }

  function TensorBytes(x: Item): (s: seq<byte>)
    ensures |s| == 16 + 8 * |x.tensor.dims| + |x.tensor.data|
  {
    TensorHeader(x.tensor, x.reserved) + Words(x.tensor.dims) + x.tensor.data
  }

  function AllBytes(items: seq<Item>): seq<byte> {
    if items == [] then [] else AllBytes(items[..|items| - 1]) + TensorBytes(items[|items| - 1])
  }

  /** The position of each tensor when the first starts at `at`. */
  function Offsets(at: nat, items: seq<Item>): (offsets: seq<nat>)
    ensures |offsets| == |items|
  {
    if items == [] then []
    else
      var front := items[..|items| - 1];
      Offsets(at, front) + [at + |AllBytes(front)|]
  }

  datatype Meta = Meta(step: nat, totalSize: nat, compressionType: nat, ratioBits: nat)

  function GradientHeader(meta: Meta, count: nat): (s: seq<byte>)
    ensures |s| == 32
  {
    Le(GRADIENT_MAGIC, 4) + Le(count, 4) + Le(meta.step, 8) + Le(meta.totalSize, 8)
      + Le(meta.compressionType, 4) + Le(meta.ratioBits, 4)
  }

  /** Everything serialize_gradients writes when it starts at position `at`. */
  function GradientBytes(at: nat, meta: Meta, items: seq<Item>): (s: seq<byte>)
    ensures |s| == 32 + 8 * |items| + |AllBytes(items)|
  {
    GradientHeader(meta, |items|) + Words(Offsets(at + 32 + 8 * |items|, items)) + AllBytes(items)
  }

  lemma NumelStep(dims: seq<nat>, i: nat)
    requires i < |dims|
    ensures Numel(dims[..i + 1]) == Numel(dims[..i]) * dims[i] % U64
  {
    assert dims[..i + 1][..i] == dims[..i];
  }

  method SerializeTensor(writer: BufferWriter, x: Item) returns (ok: bool)
    requires writer.Valid() && WellFormed(x.tensor)
    modifies writer.buffer`size, writer.buffer.data
    ensures writer.Valid()
    ensures ok <==> |TensorBytes(x)| <= old(writer.buffer.Remaining())
    ensures ok ==> writer.buffer.Contents() == old(writer.buffer.Contents()) + TensorBytes(x)
    ensures old(writer.buffer.Contents()) <= writer.buffer.Contents()
  {
    hide Numel, TensorHeader, Words;
    var t := x.tensor;
    ghost var before := writer.buffer.Contents();
    var numel := 1;
    NumelEmpty();
    for i := 0 to |t.dims|
      modifies {}
      invariant numel == Numel(t.dims[..i])
    {
      NumelStep(t.dims, i);
      numel := numel * t.dims[i] % U64;
    }
    assert t.dims[..|t.dims|] == t.dims;
    var header, dims := TensorHeader(t, x.reserved), Words(t.dims);
    ok := writer.Write(header);
    if !ok {
      return;
    }
    ok := writer.Write(dims);
    if !ok {
      return;
    }
    var dataSize := numel * t.dtype.Size() % U64;
    assert dataSize == |t.data| && t.data[..dataSize] == t.data;
    ok := writer.Write(t.data[..dataSize]);
    if ok {
      assert writer.buffer.Contents() == before + (header + dims + t.data);
    }
  }

  lemma NumelEmpty()
    ensures forall dims: seq<nat> :: Numel(dims[..0]) == 1
  {
  }

  lemma {:induction false} AllBytesMonotone(items: seq<Item>, i: nat)
    requires i <= |items|
    ensures |AllBytes(items[..i])| <= |AllBytes(items)|
    decreases |items|
  {
    if i == |items| {
      assert items[..i] == items;
    } else {
      var front := items[..|items| - 1];
      assert front[..i] == items[..i];
      AllBytesMonotone(front, i);
    }
  }

  lemma LastTensor(at: nat, items: seq<Item>, i: nat)
    requires i < |items|
    ensures AllBytes(items[..i + 1]) == AllBytes(items[..i]) + TensorBytes(items[i])
    ensures Offsets(at, items[..i + 1]) == Offsets(at, items[..i]) + [at + |AllBytes(items[..i])|]
    ensures |AllBytes(items[..i + 1])| <= |AllBytes(items)|
  {
    hide TensorBytes;
    assert items[..i + 1][..i] == items[..i];
    AllBytesMonotone(items, i + 1);
  }

  /** The loop that writes the tensors and records where each one starts. */
  method WriteTensors(writer: BufferWriter, items: seq<Item>) returns (ok: bool, offsets: seq<nat>)
    requires writer.Valid() && forall x :: x in items ==> WellFormed(x.tensor)
    modifies writer.buffer`size, writer.buffer.data
    ensures writer.Valid()
    ensures ok <==> |AllBytes(items)| <= old(writer.buffer.Remaining())
    ensures ok ==> writer.buffer.Contents() == old(writer.buffer.Contents()) + AllBytes(items)
    ensures ok ==> offsets == Offsets(old(writer.buffer.size), items)
    ensures old(writer.buffer.Contents()) <= writer.buffer.Contents()
  {
    hide TensorBytes, WellFormed, Offsets, AllBytes;
    var buffer := writer.buffer;
    ghost var before := buffer.Contents();
    offsets := [];
    NoTensors(|before|);
    assert items[..0] == [];
    for i := 0 to |items|
      invariant writer.Valid()
      invariant offsets == Offsets(|before|, items[..i])
      invariant buffer.Contents() == before + AllBytes(items[..i])
    {
      offsets := offsets + [buffer.size];
      LastTensor(|before|, items, i);
      assert items[i] in items;
      ok := SerializeTensor(writer, items[i]);
      if !ok {
        assert before <= buffer.Contents();
        return;
      }
      assert buffer.Contents() == before + (AllBytes(items[..i]) + TensorBytes(items[i]));
    }
    assert items[..|items|] == items;
    ok := true;
  }

  lemma NoTensors(at: nat)
    ensures AllBytes([]) == [] && Offsets(at, []) == []
  {
  }

  lemma GradientParts(at: nat, meta: Meta, items: seq<Item>)
    ensures GradientBytes(at, meta, items)
         == GradientHeader(meta, |items|) + Words(Offsets(at + 32 + 8 * |items|, items)) + AllBytes(items)
  {
  }

  /** The header, and room for the table behind it. */
  method WriteHeader(writer: BufferWriter, header: seq<byte>, tableSize: nat) returns (table: Option<nat>)
    requires writer.Valid()
    modifies writer.buffer`size, writer.buffer.data
    ensures writer.Valid()
    ensures table.Some? <==> |header| + tableSize <= old(writer.buffer.Remaining())
    ensures table.Some? ==> table.value == old(writer.buffer.size) + |header| && writer.buffer.size == table.value + tableSize
    ensures table.Some? ==> writer.buffer.Contents()[..table.value] == old(writer.buffer.Contents()) + header
    ensures old(writer.buffer.Contents()) <= writer.buffer.Contents()
  {
    var ok := writer.Write(header);
    if !ok {
      return None;
    }
    ghost var written := writer.buffer.Contents();
    table := writer.Reserve(tableSize);
    assert written <= writer.buffer.Contents();
  }

  /** Succeeds exactly when everything fits; then the back-patched message follows what was
      there. Bytes already in the buffer are never touched, also on failure. */
  method SerializeGradients(writer: BufferWriter, meta: Meta, items: seq<Item>) returns (ok: bool)
    requires writer.Valid() && forall x :: x in items ==> WellFormed(x.tensor)
    modifies writer.buffer`size, writer.buffer.data
    ensures writer.Valid()
    ensures ok <==> |GradientBytes(old(writer.buffer.size), meta, items)| <= old(writer.buffer.Remaining())
    ensures ok ==> (
      writer.buffer.Contents() == old(writer.buffer.Contents()) + GradientBytes(old(writer.buffer.size), meta, items))
    ensures old(writer.buffer.Contents()) <= writer.buffer.Contents()
  {
    hide WellFormed, Offsets, AllBytes, Words, GradientHeader, GradientBytes;
    GradientParts(writer.buffer.size, meta, items);
    ghost var before := writer.buffer.Contents();
    var header := GradientHeader(meta, |items|);
    var table := WriteHeader(writer, header, 8 * |items|);
    if table.None? {
      return false;
    }
    ghost var base := writer.buffer.Contents();
    var offsets: seq<nat>;
    ok, offsets := WriteTensors(writer, items);
    assert before <= base <= writer.buffer.Contents();
    if !ok {
      return;
    }
    var words := Words(offsets);
    PatchHole(writer.buffer.Contents(), before, header, base[table.value..], AllBytes(items), words);
    writer.buffer.Patch(table.value, words);
  }

  /** Overwriting a hole of the same length behind a header. */
  lemma PatchHole(c: seq<byte>, before: seq<byte>, header: seq<byte>, hole: seq<byte>, all: seq<byte>, patch: seq<byte>)
    requires c == before + header + hole + all && |hole| == |patch|
    ensures var at := |before| + |header|;
      c[..at] + patch + c[at + |patch|..] == before + (header + patch + all)
  {
  }

  // ---- The table and the regions it describes ----

  lemma {:induction false} OffsetAt(at: nat, items: seq<Item>, i: nat)
    requires i < |items|
    ensures Offsets(at, items)[i] == at + |AllBytes(items[..i])|
    decreases |items|
  {
    if i < |items| - 1 {
      var front := items[..|items| - 1];
      assert front[..i] == items[..i];
      OffsetAt(at, front, i);
    }
  }

  /** The regions tile the buffer: each tensor ends where the next begins, the last at the end,
      so the offsets strictly increase. */
  lemma OffsetsTile(at: nat, items: seq<Item>, i: nat)
    requires i < |items|
    ensures var o := Offsets(at, items);
      && o[0] == at
      && o[i] + |TensorBytes(items[i])| == (if i + 1 < |items| then o[i + 1] else at + |AllBytes(items)|)
      && (i + 1 < |items| ==> o[i] + 16 <= o[i + 1])
  {
    OffsetAt(at, items, 0);
    OffsetAt(at, items, i);
    assert items[..i + 1][..i] == items[..i];
    if i + 1 < |items| {
      OffsetAt(at, items, i + 1);
    } else {
      assert items[..i + 1] == items;
    }
  }

  // ---- Reading back ----

  function ReadWord(c: seq<byte>, pos: nat): nat
    requires pos + 8 <= |c|
  {
    FromLe(c[pos..pos + 8])
  }

  function ReadWords(c: seq<byte>, pos: nat, n: nat): (ws: seq<nat>)
    requires pos + 8 * n <= |c|
    ensures |ws| == n
  {
    seq(n, i requires 0 <= i < n => ReadWord(c, pos + 8 * i))
  }

  /** Decodes the tensor at `pos`: header, dims, then as many bytes as the header announces. */
  function ParseTensor(c: seq<byte>, pos: nat): Option<Tensor> {
    if pos + 16 > |c| || FromLe(c[pos..pos + 4]) != TENSOR_MAGIC then None
    else
      var ndim: nat := c[pos + 5];
      var dtype, numel := DtypeOf(c[pos + 4]), FromLe(c[pos + 8..pos + 16]);
      if dtype.None? || pos + 16 + 8 * ndim > |c| then None
      else
        var at, size := pos + 16 + 8 * ndim, DataSize(numel, dtype.value);
        if at + size > |c| then None
        else Some(Tensor(dtype.value, ReadWords(c, pos + 16, ndim), c[at..at + size]))
  }

  /** The same, by the calls a consumer makes on a BufferReader. */
  method ReadTensor(reader: BufferReader, offset: nat) returns (t: Option<Tensor>)
    requires reader.Valid()
    modifies reader`pos
    ensures reader.Valid() && t == ParseTensor(reader.data, offset)
  {
    var ok := reader.Seek(offset);
    if !ok {
      return None;
    }
    var header := reader.Read(16);
    if header.None? {
      return None;
    }
    var h := header.value;
    assert h[..4] == reader.data[offset..offset + 4] && h[8..16] == reader.data[offset + 8..offset + 16];
    if FromLe(h[..4]) != TENSOR_MAGIC {
      return None;
    }
    var dtype := DtypeOf(h[4]);
    if dtype.None? {
      return None;
    }
    var ndim: nat := h[5];
    var raw := reader.Read(8 * ndim);
    if raw.None? {
      return None;
    }
    var dims := ReadWords(raw.value, 0, ndim);
    ReadWordsSlice(reader.data, offset + 16, ndim);
    var data := reader.Read(DataSize(FromLe(h[8..16]), dtype.value));
    if data.None? {
      return None;
    }
    return Some(Tensor(dtype.value, dims, data.value));
  }

  lemma ReadWordsSlice(c: seq<byte>, pos: nat, n: nat)
    requires pos + 8 * n <= |c|
    ensures ReadWords(c[pos..pos + 8 * n], 0, n) == ReadWords(c, pos, n)
  {
    var raw := c[pos..pos + 8 * n];
    forall i | 0 <= i < n
      ensures ReadWord(raw, 8 * i) == ReadWord(c, pos + 8 * i)
    {
      SliceOfSlice(c, pos, pos + 8 * n, 8 * i, 8 * i + 8);
    }
  }

  lemma NumelBound(dims: seq<nat>)
    ensures Numel(dims) < U64
  {
  }

  lemma HeaderAt(c: seq<byte>, pos: nat, t: Tensor, reserved: nat)
    requires At(c, pos, TensorHeader(t, reserved))
    ensures FromLe(c[pos..pos + 4]) == TENSOR_MAGIC
    ensures DtypeOf(c[pos + 4]) == Some(t.dtype) && c[pos + 5] == |t.dims| % 256
    ensures FromLe(c[pos + 8..pos + 16]) == Numel(t.dims)
  {
    hide FromLe, Le, Numel;
    var magic, codes, rest, numel := Le(TENSOR_MAGIC, 4), [t.dtype.Code(), |t.dims| % 256], Le(reserved, 2), Le(Numel(t.dims), 8);
    AtPart(c, pos, magic, codes, rest + numel) by {
      assert magic + codes + (rest + numel) == TensorHeader(t, reserved);
    }
    AtPart(c, pos + 6, rest, numel, []) by {
      assert rest + numel + [] == rest + numel;
    }
    assert c[pos + 4] == c[pos + 4..pos + 6][0] && c[pos + 5] == c[pos + 4..pos + 6][1];
    Le32(TENSOR_MAGIC);
    NumelBound(t.dims);
    Le64(Numel(t.dims));
  }

  lemma ReadWordAt(c: seq<byte>, pos: nat, x: nat)
    requires At(c, pos, Le(x, 8)) && x < U64
    ensures ReadWord(c, pos) == x
  {
    hide FromLe, Le;
    Le64(x);
  }

  lemma LastWord(ws: seq<nat>)
    requires ws != []
    ensures Words(ws) == Words(ws[..|ws| - 1]) + Le(ws[|ws| - 1], 8) + []
  {
    hide Le;
  }

  lemma LastWordAt(c: seq<byte>, pos: nat, ws: seq<nat>, n: nat)
    requires At(c, pos, Words(ws)) && |ws| == n + 1
    ensures At(c, pos, Words(ws[..n])) && At(c, pos + |Words(ws[..n])|, Le(ws[n], 8))
  {
    hide Le, Words, At;
    LastWord(ws);
    AtPart(c, pos, Words(ws[..n]), Le(ws[n], 8), []);
  }

  lemma {:induction false} WordPlace(c: seq<byte>, pos: nat, ws: seq<nat>, i: nat)
    requires At(c, pos, Words(ws)) && i < |ws|
    ensures At(c, pos + |Words(ws[..i])|, Le(ws[i], 8))
  {
    hide Le, Words, At;
    LastWordAt(c, pos, ws, |ws| - 1);
    if i < |ws| - 1 {
      var front := ws[..|ws| - 1];
      WordPlace(c, pos, front, i);
      assert front[..i] == ws[..i];
    }
  }

  lemma {:induction false} WordFromAt(c: seq<byte>, pos: nat, ws: seq<nat>, i: nat, p: nat)
    requires At(c, pos, Words(ws)) && i < |ws| && ws[i] < U64 && p == pos + 8 * i
    ensures p + 8 <= |c| && ReadWord(c, p) == ws[i]
  {
    hide ReadWord, Words, At, Le;
    WordPlace(c, pos, ws, i);
    AtSame(c, pos + |Words(ws[..i])|, p, Le(ws[i], 8));
    AtFits(c, p, Le(ws[i], 8));
    ReadWordAt(c, p, ws[i]);
  }

  lemma {:induction false} DimsAt(c: seq<byte>, pos: nat, dims: seq<nat>)
    requires At(c, pos, Words(dims)) && forall d :: d in dims ==> d < U64
    ensures pos + 8 * |dims| <= |c| && ReadWords(c, pos, |dims|) == dims
  {
    hide ReadWord, Words, At;
    AtFits(c, pos, Words(dims));
    forall i | 0 <= i < |dims|
      ensures ReadWord(c, pos + 8 * i) == dims[i]
    {
      assert dims[i] in dims;
      WordFromAt(c, pos, dims, i, pos + 8 * i);
    }
  }

  /** Reading a serialized tensor recovers its dtype, dims and data exactly when it has fewer than
      256 dims: the header stores their number in one byte. */
  lemma ParseRecoversExactly(c: seq<byte>, pos: nat, x: Item)
    requires WellFormed(x.tensor) && At(c, pos, TensorBytes(x))
    ensures ParseTensor(c, pos) == Some(x.tensor) <==> |x.tensor.dims| < 256
  {
    var t := x.tensor;
    hide FromLe, Words, TensorHeader, Numel, ReadWords, DtypeOf;
    AtPart(c, pos, TensorHeader(t, x.reserved), Words(t.dims), t.data);
    HeaderAt(c, pos, t, x.reserved);
    if |t.dims| < 256 {
      DimsAt(c, pos + 16, t.dims);
    }
  }

  /** The type codes on the wire and the element sizes in bytes. */
  lemma DtypeTable()
    ensures FLOAT32.Code() == 0 && FLOAT32.Size() == 4
    ensures FLOAT16.Code() == 1 && FLOAT16.Size() == 2
    ensures BFLOAT16.Code() == 2 && BFLOAT16.Size() == 2
    ensures INT32.Code() == 3 && INT32.Size() == 4
    ensures INT64.Code() == 4 && INT64.Size() == 8
    ensures UINT8.Code() == 5 && UINT8.Size() == 1
    ensures INT8.Code() == 6 && INT8.Size() == 1
    ensures forall code: byte :: DtypeOf(code).Some? <==> code <= 6
    ensures forall d: Dtype :: DtypeOf(d.Code()) == Some(d)
  {
  }

  ghost function Product(dims: seq<nat>): nat {
    if dims == [] then 1 else dims[0] * Product(dims[1..])
  }

  lemma {:induction false} ProductLast(dims: seq<nat>)
    requires dims != []
    ensures Product(dims) == Product(dims[..|dims| - 1]) * dims[|dims| - 1]
  {
    if |dims| > 1 {
      var rest, front := dims[1..], dims[..|dims| - 1];
      ProductLast(rest);
      assert rest[..|rest| - 1] == front[1..];
      var a, p, z := dims[0], Product(front[1..]), dims[|dims| - 1];
      assert a * (p * z) == a * p * z;
    } else {
      assert dims[1..] == [] && dims[..0] == [];
    }
  }

  /** The element count is the product of the dims, modulo 2^64. */
  lemma {:induction false} NumelIsProduct(dims: seq<nat>)
    ensures Numel(dims) == Product(dims) % 0x1_0000_0000_0000_0000
  {
    if dims != [] {
      var front, z := dims[..|dims| - 1], dims[|dims| - 1];
      NumelIsProduct(front);
      ProductLast(dims);
      ModProduct(Product(front), z, U64);
    }
  }

  lemma ModProduct(p: nat, z: nat, m: nat)
    requires m > 0
    ensures (p % m) * z % m == p * z % m
  {
    var q, r := p / m, p % m;
    assert p == m * q + r;
    assert p * z == m * (q * z) + r * z;
    AddMultiple(r * z, q * z, m);
  }

  lemma AddMultiple(x: nat, k: nat, m: nat)
    requires m > 0
    ensures (m * k + x) % m == x % m
  {
    var q := x / m;
    assert x == m * q + x % m;
    assert m * k + x == m * (k + q) + x % m;
    DivUnique(m * k + x, m, k + q, x % m);
  }

  /** What lies where in a serialized tensor. */
  lemma TensorLayout(x: Item, i: nat)
    requires WellFormed(x.tensor)
    ensures var c, t := TensorBytes(x), x.tensor;
      && |c| == 16 + 8 * |t.dims| + |t.data|
      && FromLe(c[0..4]) == 0x54454E53
      && c[4] == t.dtype.Code() && c[5] == |t.dims| % 256
      && FromLe(c[8..16]) == Product(t.dims) % 0x1_0000_0000_0000_0000
      && (i < |t.dims| ==> FromLe(c[16 + 8 * i..24 + 8 * i]) == t.dims[i])
      && c[16 + 8 * |t.dims|..] == t.data
      && |t.data| == Product(t.dims) % 0x1_0000_0000_0000_0000 * t.dtype.Size() % 0x1_0000_0000_0000_0000
  {
    var c, t := TensorBytes(x), x.tensor;
    NumelIsProduct(t.dims);
    hide FromLe, Words, TensorHeader, Numel, Product;
    WholeAt(c, c);
    AtPart(c, 0, TensorHeader(t, x.reserved), Words(t.dims), t.data);
    HeaderAt(c, 0, t, x.reserved);
    CodeAt(c, 0, t, x.reserved);
    if i < |t.dims| {
      assert t.dims[i] in t.dims;
      WordFromAt(c, 16, t.dims, i, 16 + 8 * i);
    }
  }

  lemma CodeAt(c: seq<byte>, pos: nat, t: Tensor, reserved: nat)
    requires At(c, pos, TensorHeader(t, reserved))
    ensures c[pos + 4] == t.dtype.Code()
  {
    hide FromLe, Le, Numel;
    var h := TensorHeader(t, reserved);
    assert h[4] == t.dtype.Code();
    assert c[pos..pos + |h|][4] == c[pos + 4];
  }

  /** The smallest such tensor: 256 empty dims and no data. */
  lemma DeepTensorUnreadable(reserved: nat)
    ensures var t := Tensor(UINT8, seq(256, _ => 0), []);
      WellFormed(t) && ParseTensor(TensorBytes(Item(t, reserved)), 0) != Some(t)
  {
    hide TensorBytes, ParseTensor;
    var t := Tensor(UINT8, seq(256, _ => 0), []);
    assert Numel(t.dims) == Numel(t.dims[..255]) * 0 % U64;
    var x := Item(t, reserved);
    WholeAt(TensorBytes(x), TensorBytes(x));
    ParseRecoversExactly(TensorBytes(x), 0, x);
  }

  lemma LastBytes(items: seq<Item>)
    requires items != []
    ensures AllBytes(items)
         == AllBytes(items[..|items| - 1]) + TensorBytes(items[|items| - 1]) + []
  {
    hide TensorBytes;
  }

  lemma LastTensorAt(c: seq<byte>, pos: nat, items: seq<Item>, n: nat)
    requires At(c, pos, AllBytes(items)) && |items| == n + 1
    ensures At(c, pos, AllBytes(items[..n]))
    ensures At(c, pos + |AllBytes(items[..n])|, TensorBytes(items[n]))
  {
    hide TensorBytes, AllBytes, At;
    LastBytes(items);
    AtPart(c, pos, AllBytes(items[..n]), TensorBytes(items[n]), []);
  }

  lemma {:induction false} TensorPlace(c: seq<byte>, pos: nat, items: seq<Item>, i: nat)
    requires At(c, pos, AllBytes(items)) && i < |items|
    ensures At(c, pos + |AllBytes(items[..i])|, TensorBytes(items[i]))
    decreases |items|
  {
    hide TensorBytes, AllBytes, At;
    LastTensorAt(c, pos, items, |items| - 1);
    if i < |items| - 1 {
      var front := items[..|items| - 1];
      TensorPlace(c, pos, front, i);
      assert front[..i] == items[..i];
    }
  }

  /** The message's own header reads back: the step always, the number of tensors exactly when it fits
      its four bytes. Its total_size is whatever the field happened to hold, whatever the message's
      size. */
  lemma GradientHeaderRecovers(prefix: seq<byte>, meta: Meta, items: seq<Item>)
    requires meta.step < U64
    ensures var c, p := prefix + GradientBytes(|prefix|, meta, items), |prefix|;
      && FromLe(c[p..p + 4]) == 0x47524144
      && FromLe(c[p + 8..p + 16]) == meta.step
      && FromLe(c[p + 16..p + 24]) == meta.totalSize % U64
      && FromLe(c[p + 24..p + 28]) == meta.compressionType % U32
      && FromLe(c[p + 28..p + 32]) == meta.ratioBits % U32
      && (FromLe(c[p + 4..p + 8]) == |items| <==> |items| < U32)
  {
    hide Le, FromLe, Words, Offsets, AllBytes;
    var c := prefix + GradientBytes(|prefix|, meta, items);
    var magic, count, step := Le(GRADIENT_MAGIC, 4), Le(|items|, 4), Le(meta.step, 8);
    var rest := Le(meta.totalSize, 8) + Le(meta.compressionType, 4) + Le(meta.ratioBits, 4);
    var tail := Words(Offsets(|prefix| + 32 + 8 * |items|, items)) + AllBytes(items);
    assert c == prefix + (magic + count + step) + (rest + tail);
    AtPart(c, 0, prefix, magic + count + step, rest + tail) by {
      WholeAt(c, prefix + (magic + count + step) + (rest + tail));
    }
    AtPart(c, |prefix|, magic, count, step);
    TotalSizeAt(c, prefix + (magic + count + step), meta, tail);
    Le32(GRADIENT_MAGIC);
    Le64(meta.step);
    FromLeWraps(|items|, 4);
    Widths();
  }

  lemma TotalSizeAt(c: seq<byte>, before: seq<byte>, meta: Meta, tail: seq<byte>)
    requires var rest := Le(meta.totalSize, 8) + Le(meta.compressionType, 4) + Le(meta.ratioBits, 4);
      c == before + (rest + tail)
    ensures |before| + 16 <= |c| && FromLe(c[|before|..|before| + 8]) == meta.totalSize % U64
    ensures FromLe(c[|before| + 8..|before| + 12]) == meta.compressionType % U32
    ensures FromLe(c[|before| + 12..|before| + 16]) == meta.ratioBits % U32
  {
    hide Le, FromLe;
    var kind, ratio := Le(meta.compressionType, 4), Le(meta.ratioBits, 4);
    assert c[|before| + 8..|before| + 12] == kind && c[|before| + 12..|before| + 16] == ratio;
    FromLeWraps(meta.compressionType, 4);
    FromLeWraps(meta.ratioBits, 4);
    var total, others := Le(meta.totalSize, 8), Le(meta.compressionType, 4) + Le(meta.ratioBits, 4);
    assert c == before + total + (others + tail);
    assert c[|before|..|before| + 8] == total;
    FromLeWraps(meta.totalSize, 8);
    Widths();
  }

  /** Every entry of the table leads a reader to its tensor. */
  lemma TableLeadsToTensors(prefix: seq<byte>, meta: Meta, items: seq<Item>, i: nat)
    requires i < |items|
    ensures var c := prefix + GradientBytes(|prefix|, meta, items);
      var entry := |prefix| + 32 + 8 * i;
      && entry + 8 <= |c|
      && (WellFormed(items[i].tensor) && |c| < U64 ==>
            (ParseTensor(c, ReadWord(c, entry)) == Some(items[i].tensor) <==> |items[i].tensor.dims| < 256))
  {
    hide ReadWord, Words, Offsets, AllBytes, TensorBytes, ParseTensor, WellFormed, GradientHeader;
    var header, start := GradientHeader(meta, |items|), |prefix| + 32 + 8 * |items|;
    var offsets, all := Offsets(start, items), AllBytes(items);
    var table := Words(offsets);
    var c := prefix + GradientBytes(|prefix|, meta, items);
    assert c == (prefix + header) + table + all;
    var entry := |prefix| + 32 + 8 * i;
    AtPart(c, 0, prefix + header, table, all);
    OffsetAt(start, items, i);
    TensorPlace(c, start, items, i);
    if |c| >= U64 || !WellFormed(items[i].tensor) {
      return;
    }
    AtFits(c, start + |AllBytes(items[..i])|, TensorBytes(items[i]));
    WordFromAt(c, |prefix| + 32, offsets, i, entry);
    AtSame(c, start + |AllBytes(items[..i])|, offsets[i], TensorBytes(items[i]));
    ParseRecoversExactly(c, offsets[i], items[i]);
  }
}
