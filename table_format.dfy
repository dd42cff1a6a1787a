/**
 * The binary layout of the coefficient table: `write_binary_table` appends the z
 * nodes and then every coefficient as 4 little-endian bytes, and
 * `load_table_from_binary` reads them back into nested vectors. Values are f32 bit
 * patterns (`bv32`), so the byte round trip is exact.
 */
module TableFormat {
  import opened TableInit

  type Byte = bv8

  /** `load_table_from_binary`'s own `TABLE_SIZE`. */
  const LoaderTableSize: nat := 64

  /** `f32::to_le_bytes` on the bit pattern. */
  function LeBytes(v: bv32): (r: seq<Byte>)
    ensures |r| == 4
  {
    [(v & 0xFF) as Byte, ((v >> 8) & 0xFF) as Byte, ((v >> 16) & 0xFF) as Byte, ((v >> 24) & 0xFF) as Byte]
  }

  /** `f32::from_le_bytes` on the bit pattern. */
  function FromLeBytes(b0: Byte, b1: Byte, b2: Byte, b3: Byte): bv32
  {
    (b0 as bv32) | ((b1 as bv32) << 8) | ((b2 as bv32) << 16) | ((b3 as bv32) << 24)
  }

  /** Reading back the four bytes of a value gives the value. */
  lemma LeBytesRoundTrip(v: bv32)
    ensures var b := LeBytes(v); FromLeBytes(b[0], b[1], b[2], b[3]) == v
  {
  }

  /** The bytes of a sequence of values, each as 4 little-endian bytes, in order. */
  function Bytes(vs: seq<bv32>): (r: seq<Byte>)
    ensures |r| == 4 * |vs|
  {
    if |vs| == 0 then [] else Bytes(vs[..|vs| - 1]) + LeBytes(vs[|vs| - 1])
  }

  lemma BytesExtend(vs: seq<bv32>, n: nat)
    requires n < |vs|
    ensures Bytes(vs[..n + 1]) == Bytes(vs[..n]) + LeBytes(vs[n])
  {
    assert vs[..n + 1][..n] == vs[..n];
  }

  /** Byte 4n + j of the encoding is byte j of value n. */
  lemma {:induction false} BytesAt(vs: seq<bv32>, n: nat, j: nat)
    requires n < |vs| && j < 4
    ensures Bytes(vs)[4 * n + j] == LeBytes(vs[n])[j]
    decreases |vs|
  {
    var last := |vs| - 1;
    if n < last {
      BytesAt(vs[..last], n, j);
    }
  }

  // ---------------------------------------------------------------------------
  // The table of bit patterns and its write order

  /** A table nested like `Vec<Vec<Vec<Vec<Vec<T>>>>>`, indexed [maxComponent][zi][yi][xi][component]. */
  type Grid<T> = seq<seq<seq<seq<seq<T>>>>>

  /** The table as f32 bit patterns. */
  type BitTable = Grid<bv32>

  /** The 3 × T × T × T × 3 shape of a table of values, down to the component level. */
  predicate GridShaped<T>(t: Grid<T>)
  {
    |t| == 3 &&
    (forall mc :: 0 <= mc < 3 ==> |t[mc]| == TableSize) &&
    (forall mc, zi :: 0 <= mc < 3 && 0 <= zi < TableSize ==> |t[mc][zi]| == TableSize) &&
    (forall mc, zi, yi :: 0 <= mc < 3 && 0 <= zi < TableSize && 0 <= yi < TableSize ==>
       |t[mc][zi][yi]| == TableSize) &&
    (forall mc, zi, yi, xi :: 0 <= mc < 3 && 0 <= zi < TableSize && 0 <= yi < TableSize && 0 <= xi < TableSize ==>
       |t[mc][zi][yi][xi]| == 3)
  }

  function Cell<T>(t: Grid<T>, g: GridIndex): (r: seq<T>)
    requires GridShaped(t) && InGrid(g)
    ensures |r| == 3
  {
    t[g.maxComponent][g.zi][g.yi][g.xi]
  }

  /** The number of coefficients, `3 * TABLE_SIZE^3 * 3`. */
  const ValueCount: nat := CellCount * 3

  /** The coefficients in write order: [maxComponent][zi][yi][xi][component], component fastest. */
  function FlatTable(t: BitTable): (r: seq<bv32>)
    requires GridShaped(t)
    ensures |r| == ValueCount
  {
    seq(ValueCount, n requires 0 <= n < ValueCount =>
      DecomposeCompose(n / 3);
      Cell(t, Decompose(n / 3))[n % 3])
  }

  /** Every value the writer emits: the z nodes, then the table. */
  function Values(zNodes: seq<bv32>, t: BitTable): seq<bv32>
    requires GridShaped(t)
  {
    zNodes + FlatTable(t)
  }

  /** The file `write_binary_table` produces. */
  function Encoding(zNodes: seq<bv32>, t: BitTable): seq<Byte>
    requires GridShaped(t)
  {
    Bytes(Values(zNodes, t))
  }

  /** The position in write order of component c of a cell. */
  function Position(zCount: nat, g: GridIndex, c: nat): nat
  {
    zCount + 3 * Compose(g) + c
  }

  lemma ValuesAtPosition(zNodes: seq<bv32>, t: BitTable, g: GridIndex, c: nat)
    requires GridShaped(t) && InGrid(g) && c < 3
    ensures Position(|zNodes|, g, c) < |Values(zNodes, t)|
    ensures Values(zNodes, t)[Position(|zNodes|, g, c)] == Cell(t, g)[c]
  {
    ComposeDecompose(g);
    var n := 3 * Compose(g) + c;
    assert n / 3 == Compose(g) && n % 3 == c;
  }

  /** The file length: 4 bytes per z node and per coefficient. */
  lemma EncodingLength(zNodes: seq<bv32>, t: BitTable)
    requires GridShaped(t)
    ensures |Encoding(zNodes, t)| == 4 * |zNodes| + 36 * TableSize * TableSize * TableSize
  {
  }

  // ---------------------------------------------------------------------------
  // The output file

  /**
   * The file stream: what has been written so far, and the number of `write_all`
   * calls made. The call numbered `failAt` fails and writes nothing (partial
   * writes are not modelled).
   */
  class Sink {
    var contents: seq<Byte>
    var writes: nat
    const failAt: nat

    constructor (failAt: nat)
      ensures contents == [] && writes == 0 && this.failAt == failAt
    {
      contents, writes, this.failAt := [], 0, failAt;
    }

    /** `write_all`. */
    method WriteAll(bytes: seq<Byte>) returns (ok: bool)
      modifies this
      ensures ok <==> old(writes) != failAt
      ensures writes == old(writes) + 1
      ensures contents == if ok then old(contents) + bytes else old(contents)
    {
      ok := writes != failAt;
      if ok {
        contents := contents + bytes;
      }
      writes := writes + 1;
    }
  }

  /**
   * After writing the values before `end` of `vs` (or failing on the way), the file
   * holds that prefix; on failure it holds the prefix before the failing call.
   */
  ghost predicate WrittenUpTo(file: Sink, vs: seq<bv32>, end: nat, ok: bool)
    reads file
    requires end <= |vs|
  {
    (ok <==> end <= file.failAt) &&
    (ok ==> file.contents == Bytes(vs[..end]) && file.writes == end) &&
    (!ok ==> file.failAt < end && file.contents == Bytes(vs[..file.failAt]))
  }

  /** One `write_all` of the value at position `pos` of `vs`. */
  method WriteValue(file: Sink, ghost vs: seq<bv32>, ghost pos: nat, value: bv32) returns (ok: bool)
    requires pos < |vs| && vs[pos] == value
    requires pos <= file.failAt && file.writes == pos && file.contents == Bytes(vs[..pos])
    modifies file
    ensures WrittenUpTo(file, vs, pos + 1, ok)
  {
    BytesExtend(vs, pos);
    ok := file.WriteAll(LeBytes(value));
  }

  /** `vs` holds, after `zCount` leading values, the values of `t` in write order. */
  ghost predicate Layout(vs: seq<bv32>, t: BitTable, zCount: nat)
  {
    GridShaped(t) && |vs| == zCount + ValueCount &&
    forall g, c :: InGrid(g) && 0 <= c < 3 ==> vs[Position(zCount, g, c)] == Cell(t, g)[c]
  }

  lemma ValuesLayout(zNodes: seq<bv32>, t: BitTable)
    requires GridShaped(t)
    ensures Layout(Values(zNodes, t), t, |zNodes|)
  {
    forall g, c | InGrid(g) && 0 <= c < 3
      ensures Values(zNodes, t)[Position(|zNodes|, g, c)] == Cell(t, g)[c]
    {
      ValuesAtPosition(zNodes, t, g, c);
    }
  }

  /** The file holds the values before `pos`, and no write has failed yet. */
  ghost predicate WrittenBefore(file: Sink, vs: seq<bv32>, pos: nat)
    reads file
    requires pos <= |vs|
  {
    pos <= file.failAt && file.writes == pos && file.contents == Bytes(vs[..pos])
  }

  /** The three values of a cell sit in `vs` from its position on, in component order. */
  lemma CellInLayout(vs: seq<bv32>, t: BitTable, zCount: nat, g: GridIndex)
    requires Layout(vs, t, zCount) && InGrid(g)
    ensures Position(zCount, g, 0) + 3 <= |vs|
    ensures |t| == 3 && |t[g.maxComponent]| == TableSize && |t[g.maxComponent][g.zi]| == TableSize
    ensures |t[g.maxComponent][g.zi][g.yi]| == TableSize && |t[g.maxComponent][g.zi][g.yi][g.xi]| == 3
    ensures forall c :: 0 <= c < 3 ==> vs[Position(zCount, g, 0) + c] == t[g.maxComponent][g.zi][g.yi][g.xi][c]
  {
    forall c | 0 <= c < 3
      ensures vs[Position(zCount, g, 0) + c] == t[g.maxComponent][g.zi][g.yi][g.xi][c]
    {
      assert vs[Position(zCount, g, c)] == Cell(t, g)[c];
    }
    assert vs[Position(zCount, g, 2)] == Cell(t, g)[2];
  }

  /** The innermost `for component in 0..3` loop. */
  method WriteCell(file: Sink, t: BitTable, g: GridIndex, ghost vs: seq<bv32>, ghost zCount: nat) returns (ok: bool)
    requires Layout(vs, t, zCount) && InGrid(g)
    requires WrittenBefore(file, vs, Position(zCount, g, 0))
    modifies file
    ensures WrittenUpTo(file, vs, Position(zCount, g, 0) + 3, ok)
  {
    ghost var start := Position(zCount, g, 0);
    CellInLayout(vs, t, zCount, g);
    for c := 0 to 3
      invariant WrittenBefore(file, vs, start + c)
    {
      ok := WriteValue(file, vs, start + c, t[g.maxComponent][g.zi][g.yi][g.xi][c]);
      if !ok {
        return;
      }
    }
    ok := true;
  }

  /** Within a row, cell xi starts 3 xi values after the row. */
  lemma RowPosition(zCount: nat, mc: nat, zi: nat, yi: nat, xi: nat)
    ensures Position(zCount, GridIndex(mc, zi, yi, xi), 0) == Position(zCount, GridIndex(mc, zi, yi, 0), 0) + 3 * xi
  {
  }

  /** Within a plane, row yi starts 3 TableSize yi values after the plane. */
  lemma PlanePosition(zCount: nat, mc: nat, zi: nat, yi: nat)
    ensures Position(zCount, GridIndex(mc, zi, yi, 0), 0) == Position(zCount, GridIndex(mc, zi, 0, 0), 0) + 3 * TableSize * yi
  {
  }

  /** Within a channel, plane zi starts 3 TableSize^2 zi values after the channel. */
  lemma ChannelPosition(zCount: nat, mc: nat, zi: nat)
    ensures Position(zCount, GridIndex(mc, zi, 0, 0), 0) ==
      Position(zCount, GridIndex(mc, 0, 0, 0), 0) + 3 * TableSize * TableSize * zi
  {
  }

  /** Row yi + 1 starts where row yi ends, no later than the end of its plane. */
  lemma NextRow(zCount: nat, mc: nat, zi: nat, yi: nat)
    requires yi < TableSize
    ensures Position(zCount, GridIndex(mc, zi, yi + 1, 0), 0) == Position(zCount, GridIndex(mc, zi, yi, 0), 0) + 3 * TableSize
    ensures Position(zCount, GridIndex(mc, zi, yi + 1, 0), 0) <= Position(zCount, GridIndex(mc, zi, 0, 0), 0) + 3 * TableSize * TableSize
  {
  }

  /** Plane zi + 1 starts where plane zi ends, no later than the end of its channel. */
  lemma NextPlane(zCount: nat, mc: nat, zi: nat)
    requires zi < TableSize
    ensures Position(zCount, GridIndex(mc, zi + 1, 0, 0), 0) ==
      Position(zCount, GridIndex(mc, zi, 0, 0), 0) + 3 * TableSize * TableSize
    ensures Position(zCount, GridIndex(mc, zi + 1, 0, 0), 0) <=
      Position(zCount, GridIndex(mc, 0, 0, 0), 0) + 3 * TableSize * TableSize * TableSize
  {
  }

  /** Channel mc + 1 starts where channel mc ends, no later than the end of the table. */
  lemma NextChannel(zCount: nat, mc: nat)
    requires mc < 3
    ensures Position(zCount, GridIndex(mc + 1, 0, 0, 0), 0) ==
      Position(zCount, GridIndex(mc, 0, 0, 0), 0) + 3 * TableSize * TableSize * TableSize
    ensures Position(zCount, GridIndex(mc + 1, 0, 0, 0), 0) <= zCount + ValueCount
  {
  }

  /** The `for xi` loop. */
  method WriteRow(file: Sink, t: BitTable, mc: nat, zi: nat, yi: nat, ghost vs: seq<bv32>, ghost zCount: nat)
    returns (ok: bool)
    requires Layout(vs, t, zCount) && InGrid(GridIndex(mc, zi, yi, 0))
    requires WrittenBefore(file, vs, Position(zCount, GridIndex(mc, zi, yi, 0), 0))
    modifies file
    ensures Position(zCount, GridIndex(mc, zi, yi, 0), 0) + 3 * TableSize <= |vs|
    ensures WrittenUpTo(file, vs, Position(zCount, GridIndex(mc, zi, yi, 0), 0) + 3 * TableSize, ok)
  {
    ghost var start := Position(zCount, GridIndex(mc, zi, yi, 0), 0);
    CellInLayout(vs, t, zCount, GridIndex(mc, zi, yi, TableSize - 1));
    RowPosition(zCount, mc, zi, yi, TableSize - 1);
    for xi := 0 to TableSize
      invariant WrittenBefore(file, vs, start + 3 * xi)
    {
      RowPosition(zCount, mc, zi, yi, xi);
      ok := WriteCell(file, t, GridIndex(mc, zi, yi, xi), vs, zCount);
      if !ok {
        return;
      }
    }
    ok := true;
  }

  /** The `for yi` loop. */
  method WritePlane(file: Sink, t: BitTable, mc: nat, zi: nat, ghost vs: seq<bv32>, ghost zCount: nat)
    returns (ok: bool)
    requires Layout(vs, t, zCount) && InGrid(GridIndex(mc, zi, 0, 0))
    requires WrittenBefore(file, vs, Position(zCount, GridIndex(mc, zi, 0, 0), 0))
    modifies file
    ensures Position(zCount, GridIndex(mc, zi, 0, 0), 0) + 3 * TableSize * TableSize <= |vs|
    ensures WrittenUpTo(file, vs, Position(zCount, GridIndex(mc, zi, 0, 0), 0) + 3 * TableSize * TableSize, ok)
  {
    for yi := 0 to TableSize
      invariant Position(zCount, GridIndex(mc, zi, yi, 0), 0) <= |vs|
      invariant WrittenBefore(file, vs, Position(zCount, GridIndex(mc, zi, yi, 0), 0))
    {
      ok := WriteRow(file, t, mc, zi, yi, vs, zCount);
      NextRow(zCount, mc, zi, yi);
      if !ok {
        return;
      }
    }
    PlanePosition(zCount, mc, zi, TableSize);
    ok := true;
  }

  /** The `for zi` loop. */
  method WriteChannel(file: Sink, t: BitTable, mc: nat, ghost vs: seq<bv32>, ghost zCount: nat) returns (ok: bool)
    requires Layout(vs, t, zCount) && mc < 3
    requires WrittenBefore(file, vs, Position(zCount, GridIndex(mc, 0, 0, 0), 0))
    modifies file
    ensures Position(zCount, GridIndex(mc, 0, 0, 0), 0) + 3 * TableSize * TableSize * TableSize <= |vs|
    ensures WrittenUpTo(file, vs, Position(zCount, GridIndex(mc, 0, 0, 0), 0) + 3 * TableSize * TableSize * TableSize, ok)
  {
    for zi := 0 to TableSize
      invariant Position(zCount, GridIndex(mc, zi, 0, 0), 0) <= |vs|
      invariant WrittenBefore(file, vs, Position(zCount, GridIndex(mc, zi, 0, 0), 0))
    {
      ok := WritePlane(file, t, mc, zi, vs, zCount);
      NextPlane(zCount, mc, zi);
      if !ok {
        return;
      }
    }
    ChannelPosition(zCount, mc, TableSize);
    ok := true;
  }

  /** `anyhow::Result<()>`. */
  datatype WriteResult = Written | WriteFailed

  /** The `for max_component in 0..3` loop: the table's values after the `zCount` z nodes. */
  method WriteTable(file: Sink, t: BitTable, ghost vs: seq<bv32>, ghost zCount: nat) returns (ok: bool)
    requires Layout(vs, t, zCount)
    requires WrittenBefore(file, vs, zCount)
    modifies file
    ensures WrittenUpTo(file, vs, |vs|, ok)
  {
    for mc := 0 to 3
      invariant Position(zCount, GridIndex(mc, 0, 0, 0), 0) <= |vs|
      invariant WrittenBefore(file, vs, Position(zCount, GridIndex(mc, 0, 0, 0), 0))
    {
      ok := WriteChannel(file, t, mc, vs, zCount);
      NextChannel(zCount, mc);
      if !ok {
        return;
      }
    }
    ok := true;
  }

  /**
   * `write_binary_table`: the z nodes, then the table in [maxComponent][zi][yi][xi][component]
   * order, each value as 4 little-endian bytes; the first failing write ends it with an error.
   */
  method WriteBinaryTable(file: Sink, zNodes: seq<bv32>, t: BitTable) returns (r: WriteResult)
    requires GridShaped(t) && file.writes == 0 && file.contents == []
    modifies file
    ensures r == Written <==> |Values(zNodes, t)| <= file.failAt
    ensures r == Written ==> file.contents == Encoding(zNodes, t)
    ensures r == WriteFailed ==> file.contents == Bytes(Values(zNodes, t)[..file.failAt])
  {
    ghost var vs := Values(zNodes, t);
    ValuesLayout(zNodes, t);
    assert vs[..0] == [];
    for i := 0 to |zNodes|
      invariant i <= |vs|
      invariant WrittenBefore(file, vs, i)
    {
      var ok := WriteValue(file, vs, i, zNodes[i]);
      if !ok {
        return WriteFailed;
      }
    }
    var ok := WriteTable(file, t, vs, |zNodes|);
    if !ok {
      return WriteFailed;
    }
    assert vs[..|vs|] == vs;
    r := Written;
  }

  // ---------------------------------------------------------------------------
  // The loader

  /** The size the loader asserts: `TABLE_SIZE * 4 + 3 * TABLE_SIZE^3 * 3 * 4`. */
  const ExpectedSize: nat := LoaderTableSize * 4 + 3 * LoaderTableSize * LoaderTableSize * LoaderTableSize * 3 * 4

  /** The value whose 4 bytes start at byte 4n. */
  function DecodeValue(data: seq<Byte>, n: nat): bv32
    requires 4 * n + 4 <= |data|
  {
    FromLeBytes(data[4 * n], data[4 * n + 1], data[4 * n + 2], data[4 * n + 3])
  }

  function DecodeCell(data: seq<Byte>, g: GridIndex): (r: seq<bv32>)
    requires |data| == ExpectedSize && InGrid(g)
    ensures |r| == 3
  {
    ComposeDecompose(g);
    seq(3, c requires 0 <= c < 3 => DecodeValue(data, Position(TableSize, g, c)))
  }

  function DecodeRow(data: seq<Byte>, mc: nat, zi: nat, yi: nat): (r: seq<seq<bv32>>)
    requires |data| == ExpectedSize && InGrid(GridIndex(mc, zi, yi, 0))
    ensures |r| == TableSize
  {
    seq(TableSize, xi requires 0 <= xi < TableSize => DecodeCell(data, GridIndex(mc, zi, yi, xi)))
  }

  function DecodePlane(data: seq<Byte>, mc: nat, zi: nat): (r: seq<seq<seq<bv32>>>)
    requires |data| == ExpectedSize && InGrid(GridIndex(mc, zi, 0, 0))
    ensures |r| == TableSize
  {
    seq(TableSize, yi requires 0 <= yi < TableSize => DecodeRow(data, mc, zi, yi))
  }

  function DecodeChannel(data: seq<Byte>, mc: nat): (r: seq<seq<seq<seq<bv32>>>>)
    requires |data| == ExpectedSize && mc < 3
    ensures |r| == TableSize
  {
    seq(TableSize, zi requires 0 <= zi < TableSize => DecodePlane(data, mc, zi))
  }

  /** The table as read: the entry (mc, zi, yi, xi, c) comes from byte 4 (T + ((mc T + zi) T + yi) T + xi) 3 + c). */
  function DecodeTable(data: seq<Byte>): (r: BitTable)
    requires |data| == ExpectedSize
    ensures GridShaped(r)
    ensures forall g, c :: InGrid(g) && 0 <= c < 3 ==> Cell(r, g)[c] == DecodeValue(data, Position(TableSize, g, c))
  {
    seq(3, mc requires 0 <= mc < 3 => DecodeChannel(data, mc))
  }

  function DecodeZNodes(data: seq<Byte>): (r: seq<bv32>)
    requires |data| == ExpectedSize
    ensures |r| == TableSize
  {
    seq(TableSize, i requires 0 <= i < TableSize => DecodeValue(data, i))
  }

  /** `RgbToSpectrumTable` as loaded, or the failed `assert_eq!` on the data size. */
  datatype Loaded = Loaded(zNodes: seq<bv32>, table: BitTable) | SizeMismatch

  function Decode(data: seq<Byte>): Loaded
  {
    if |data| != ExpectedSize then SizeMismatch else Loaded(DecodeZNodes(data), DecodeTable(data))
  }

  /** The writer's file for T z nodes has exactly the size the loader accepts. */
  lemma SizesAgree(zNodes: seq<bv32>, t: BitTable)
    requires GridShaped(t) && |zNodes| == TableSize
    ensures |Encoding(zNodes, t)| == ExpectedSize
    ensures LoaderTableSize == TableSize
  {
  }

  /** Loading what the writer wrote gives back the z nodes and the table. */
  lemma LoadAfterWrite(zNodes: seq<bv32>, t: BitTable)
    requires GridShaped(t) && |zNodes| == TableSize
    ensures Decode(Encoding(zNodes, t)) == Loaded(zNodes, t)
  {
    var data := Encoding(zNodes, t);
    var vs := Values(zNodes, t);
    forall n | 0 <= n < |vs|
      ensures DecodeValue(data, n) == vs[n]
    {
      BytesAt(vs, n, 0);
      BytesAt(vs, n, 1);
      BytesAt(vs, n, 2);
      BytesAt(vs, n, 3);
      LeBytesRoundTrip(vs[n]);
    }
    assert DecodeZNodes(data) == zNodes;
    var d := DecodeTable(data);
    forall g | InGrid(g)
      ensures Cell(d, g) == Cell(t, g)
    {
      forall c | 0 <= c < 3
        ensures Cell(d, g)[c] == Cell(t, g)[c]
      {
        ValuesAtPosition(zNodes, t, g, c);
      }
    }
    TablesEqual(d, t);
  }

  /** Two shaped tables with equal cells are equal. */
  lemma TablesEqual(a: BitTable, b: BitTable)
    requires GridShaped(a) && GridShaped(b)
    requires forall g :: InGrid(g) ==> Cell(a, g) == Cell(b, g)
    ensures a == b
  {
    forall mc | 0 <= mc < 3
      ensures a[mc] == b[mc]
    {
      forall zi | 0 <= zi < TableSize
        ensures a[mc][zi] == b[mc][zi]
      {
        forall yi | 0 <= yi < TableSize
          ensures a[mc][zi][yi] == b[mc][zi][yi]
        {
          forall xi | 0 <= xi < TableSize
            ensures a[mc][zi][yi][xi] == b[mc][zi][yi][xi]
          {
            assert Cell(a, GridIndex(mc, zi, yi, xi)) == Cell(b, GridIndex(mc, zi, yi, xi));
          }
        }
      }
    }
  }

  /** The innermost read loop: three values, 4 bytes each. */
  method ReadCell(data: seq<Byte>, g: GridIndex, offset0: nat) returns (cell: seq<bv32>, offset: nat)
    requires |data| == ExpectedSize && InGrid(g) && offset0 == 4 * Position(TableSize, g, 0)
    ensures cell == DecodeCell(data, g) && offset == offset0 + 12
  {
    ComposeDecompose(g);
    cell := [];
    offset := offset0;
    for c := 0 to 3
      invariant offset == 4 * Position(TableSize, g, c)
      invariant cell == DecodeCell(data, g)[..c]
    {
      var value := FromLeBytes(data[offset], data[offset + 1], data[offset + 2], data[offset + 3]);
      cell := cell + [value];
      offset := offset + 4;
    }
  }

  method ReadRow(data: seq<Byte>, mc: nat, zi: nat, yi: nat, offset0: nat) returns (row: seq<seq<bv32>>, offset: nat)
    requires |data| == ExpectedSize && InGrid(GridIndex(mc, zi, yi, 0))
    requires offset0 == 4 * Position(TableSize, GridIndex(mc, zi, yi, 0), 0)
    ensures row == DecodeRow(data, mc, zi, yi) && offset == offset0 + 12 * TableSize
  {
    row := [];
    offset := offset0;
    for xi := 0 to TableSize
      invariant offset == 4 * Position(TableSize, GridIndex(mc, zi, yi, xi), 0)
      invariant row == DecodeRow(data, mc, zi, yi)[..xi]
    {
      var cell;
      cell, offset := ReadCell(data, GridIndex(mc, zi, yi, xi), offset);
      row := row + [cell];
    }
  }

  method ReadPlane(data: seq<Byte>, mc: nat, zi: nat, offset0: nat) returns (plane: seq<seq<seq<bv32>>>, offset: nat)
    requires |data| == ExpectedSize && InGrid(GridIndex(mc, zi, 0, 0))
    requires offset0 == 4 * Position(TableSize, GridIndex(mc, zi, 0, 0), 0)
    ensures plane == DecodePlane(data, mc, zi) && offset == offset0 + 12 * TableSize * TableSize
  {
    plane := [];
    offset := offset0;
    for yi := 0 to TableSize
      invariant offset == 4 * Position(TableSize, GridIndex(mc, zi, yi, 0), 0)
      invariant plane == DecodePlane(data, mc, zi)[..yi]
    {
      var row;
      row, offset := ReadRow(data, mc, zi, yi, offset);
      plane := plane + [row];
    }
  }

  method ReadChannel(data: seq<Byte>, mc: nat, offset0: nat) returns (channel: seq<seq<seq<seq<bv32>>>>, offset: nat)
    requires |data| == ExpectedSize && mc < 3
    requires offset0 == 4 * Position(TableSize, GridIndex(mc, 0, 0, 0), 0)
    ensures channel == DecodeChannel(data, mc) && offset == offset0 + 12 * TableSize * TableSize * TableSize
  {
    channel := [];
    offset := offset0;
    for zi := 0 to TableSize
      invariant offset == 4 * Position(TableSize, GridIndex(mc, zi, 0, 0), 0)
      invariant channel == DecodeChannel(data, mc)[..zi]
    {
      var plane;
      plane, offset := ReadPlane(data, mc, zi, offset);
      channel := channel + [plane];
    }
  }

  /**
   * `load_table_from_binary`: the size assertion, then the z nodes and the table,
   * each value from the next 4 bytes, the offset ending at the data length.
   */
  method LoadTableFromBinary(data: seq<Byte>) returns (r: Loaded)
    ensures r == Decode(data)
  {
    if |data| != ExpectedSize {
      return SizeMismatch;
    }
    var offset := 0;
    var zNodes := [];
    for i := 0 to LoaderTableSize
      invariant offset == 4 * i
      invariant zNodes == DecodeZNodes(data)[..i]
    {
      var value := FromLeBytes(data[offset], data[offset + 1], data[offset + 2], data[offset + 3]);
      zNodes := zNodes + [value];
      offset := offset + 4;
    }
    var table := [];
    for mc := 0 to 3
      invariant offset == 4 * Position(TableSize, GridIndex(mc, 0, 0, 0), 0)
      invariant table == DecodeTable(data)[..mc]
    {
      var channel;
      channel, offset := ReadChannel(data, mc, offset);
      table := table + [channel];
    }
    assert offset == |data|;
    assert zNodes == DecodeZNodes(data);
    assert table == DecodeTable(data);
    r := Loaded(zNodes, table);
  }
}
