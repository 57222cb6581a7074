/**
 * The map decoder of the ECU parser: `extract_map_data` reads a
 * rows × columns calibration table out of a firmware image, one cell per
 * byte (`8bit`) or per 16-bit word (`16bit_hi_lo` big-endian,
 * `16bit_lo_hi` little-endian), signed (two's complement) or unsigned,
 * multiplies every raw cell by a conversion factor and returns the cells
 * row by row.
 */
module EcuParser {
  import opened Wrappers

  /** One byte of a firmware image. */
  type Byte = b: int | 0 <= b < 256

  /** The three cell encodings the decoder accepts. */
  datatype DataType = Bit8 | Bit16HiLo | Bit16LoHi

  /** Why `extract_map_data` refuses to decode. */
  datatype MapError =
    | UnsupportedDataType(dataType: string)                      // ValueError
    | OutOfBounds(byteCount: nat, startAddress: nat, fileSize: nat) // IndexError

  /** The name a caller passes for each encoding. */
  function DataTypeName(t: DataType): string
  {
    match t
    case Bit8 => "8bit"
    case Bit16HiLo => "16bit_hi_lo"
    case Bit16LoHi => "16bit_lo_hi"
  }

  /** The branch on `data_type`: exactly the three names are accepted. */
  function ParseDataType(name: string): (r: Option<DataType>)
    ensures r.Some? ==> DataTypeName(r.value) == name
    ensures r.None? <==> forall t: DataType :: DataTypeName(t) != name
  {
    if name == "8bit" then Some(Bit8)
    else if name == "16bit_hi_lo" || name == "16bit_lo_hi" then
      Some(if name == "16bit_hi_lo" then Bit16HiLo else Bit16LoHi)
    else None
  }

  /** Size in bytes of one cell. */
  function CellWidth(t: DataType): nat
  {
    if t == Bit8 then 1 else 2
  }

  /** Bytes read for a map of `columns * rows` cells. */
  function ByteCount(t: DataType, columns: nat, rows: nat): (n: nat)
    ensures n == columns * rows * CellWidth(t)
  {
    var dataSize := columns * rows;
    if t == Bit8 then dataSize else dataSize * 2
  }

  /** Smallest raw value a cell can hold. */
  function CellMin(t: DataType, signed: bool): int
  {
    if !signed then 0 else if t == Bit8 then -128 else -32768
  }

  /** Largest raw value a cell can hold. */
  function CellMax(t: DataType, signed: bool): int
  {
    if t == Bit8 then (if signed then 127 else 255)
    else (if signed then 32767 else 65535)
  }

  predicate InRange(t: DataType, signed: bool, v: int)
  {
    CellMin(t, signed) <= v <= CellMax(t, signed)
  }

  // ---------------------------------------------------------------------
  // struct.unpack: the item codes b, B (one byte) and h, H (one word)
  // ---------------------------------------------------------------------

  /** Item code `b`: a byte read as two's complement. */
  function SignedByte(u: Byte): int
  {
    if u < 128 then u else u - 256
  }

  /** Item codes `H` and `h`: a word from its high and low byte. */
  function Word(hi: Byte, lo: Byte, signed: bool): int
  {
    var u: int := hi * 256 + lo;
    if signed && u >= 32768 then u - 65536 else u
  }

  /** One item of the unpacked tuple, from the bytes it occupies. */
  function DecodeCell(t: DataType, signed: bool, chunk: seq<Byte>): (v: int)
    requires |chunk| == CellWidth(t)
    ensures InRange(t, signed, v)
  {
    match t
    case Bit8 => if signed then SignedByte(chunk[0]) else chunk[0]
    case Bit16HiLo => Word(chunk[0], chunk[1], signed)
    case Bit16LoHi => Word(chunk[1], chunk[0], signed)
  }

  /** The unpacked tuple: consecutive cells of `raw`, first byte first. */
  function Unpack(t: DataType, signed: bool, raw: seq<Byte>): (cells: seq<int>)
    requires |raw| % CellWidth(t) == 0
    ensures |cells| == |raw| / CellWidth(t)
    ensures forall i :: 0 <= i < |cells| ==> InRange(t, signed, cells[i])
    decreases |raw|
  {
    if |raw| == 0 then []
    else
      var w := CellWidth(t);
      [DecodeCell(t, signed, raw[..w])] + Unpack(t, signed, raw[w..])
  }

  // ---------------------------------------------------------------------
  // The reference reading: cell i straight from the image
  // ---------------------------------------------------------------------

  /** `u` of `modulus` (256 or 65536) read as two's complement. */
  function TwosComplement(u: int, modulus: int): int
  {
    if u >= modulus / 2 then u - modulus else u
  }

  /**
   * Cell number `i` of a map starting at `start`: byte `start + i` for
   * `8bit`; for the 16-bit formats the word at `start + 2i`, most
   * significant byte first for `16bit_hi_lo` and last for `16bit_lo_hi`.
   */
  function CellAt(binary: seq<Byte>, start: nat, t: DataType, signed: bool, i: nat): int
    requires t == Bit8 ==> start + i < |binary|
    requires t != Bit8 ==> start + 2 * i + 1 < |binary|
  {
    var u: int :=
      match t
      case Bit8 => binary[start + i] as int
      case Bit16HiLo => (binary[start + 2 * i] as int) * 256 + binary[start + 2 * i + 1]
      case Bit16LoHi => (binary[start + 2 * i] as int) + 256 * (binary[start + 2 * i + 1] as int);
    if signed then TwosComplement(u, if t == Bit8 then 256 else 65536) else u
  }

  // ---------------------------------------------------------------------
  // Scaling and reshaping
  // ---------------------------------------------------------------------

  /** One raw cell converted to its physical value. */
  function Convert(raw: int, factor: real): real
  {
    raw as real * factor
  }

  /** The vectorised multiply by the conversion factor. */
  function Scale(cells: seq<int>, factor: real): (values: seq<real>)
    ensures |values| == |cells|
    ensures forall i :: 0 <= i < |cells| ==> values[i] == Convert(cells[i], factor)
  {
    seq(|cells|, i requires 0 <= i < |cells| => Convert(cells[i], factor))
  }

  /** Row-major reshape of a flat sequence into `rows` rows of `columns`. */
  function Reshape<T>(values: seq<T>, rows: nat, columns: nat): (grid: seq<seq<T>>)
    requires |values| == rows * columns
    ensures |grid| == rows
    ensures forall r :: 0 <= r < rows ==> |grid[r]| == columns
    decreases rows
  {
    if rows == 0 then []
    else
      MulSucc(rows, columns);
      [values[..columns]] + Reshape(values[columns..], rows - 1, columns)
  }

  /** Peeling one row off a `rows × columns` block leaves `(rows - 1) × columns`. */
  lemma MulSucc(rows: nat, columns: nat)
    requires rows > 0
    ensures rows * columns == columns + (rows - 1) * columns
    ensures (rows - 1) * columns >= 0
  {
  }

  /** Cell (i, j) of a `rows × columns` block has a flat index inside the block. */
  lemma MulBound(i: nat, rows: nat, columns: nat, j: nat)
    requires i < rows && j < columns
    ensures i * columns + j < rows * columns
  {
    MulSucc(rows - i, columns);
    assert rows * columns == i * columns + (rows - i) * columns;
  }

  /** The rows of a grid, one after the other. */
  function Flatten<T>(grid: seq<seq<T>>): seq<T>
  {
    if grid == [] then [] else grid[0] + Flatten(grid[1..])
  }

  // ---------------------------------------------------------------------
  // extract_map_data
  // ---------------------------------------------------------------------

  /**
   * Decode the map of `columns * rows` cells of type `dataType` that starts
   * at `startAddress`, scaled by `conversionFactor`.
   */
  function ExtractMapData(binary: seq<Byte>, startAddress: nat, columns: nat, rows: nat,
                          dataType: string, isSigned: bool, conversionFactor: real)
    : (r: Result<seq<seq<real>>, MapError>)
    ensures r.Success? ==>
              && |r.value| == rows
              && forall i :: 0 <= i < rows ==> |r.value[i]| == columns
  {
    match ParseDataType(dataType)
    case None => Failure(UnsupportedDataType(dataType))
    case Some(t) =>
      var byteCount := ByteCount(t, columns, rows);
      var endAddress := startAddress + byteCount;
      if endAddress > |binary| then
        Failure(OutOfBounds(byteCount, startAddress, |binary|))
      else
        var raw := binary[startAddress..endAddress];
        var cells := Unpack(t, isSigned, raw);
        Success(Reshape(Scale(cells, conversionFactor), rows, columns))
  }

  // ---------------------------------------------------------------------
  // Encoding, the inverse of decoding
  // ---------------------------------------------------------------------

  /** The bytes that `struct.pack` writes for one in-range raw value. */
  function EncodeCell(t: DataType, signed: bool, v: int): (chunk: seq<Byte>)
    requires InRange(t, signed, v)
    ensures |chunk| == CellWidth(t)
    ensures DecodeCell(t, signed, chunk) == v
  {
    var u: int := if v < 0 then v + (if t == Bit8 then 256 else 65536) else v;
    match t
    case Bit8 => [u]
    case Bit16HiLo => [u / 256, u % 256]
    case Bit16LoHi => [u % 256, u / 256]
  }

  /** The bytes of a whole sequence of raw values, in order. */
  function Encode(t: DataType, signed: bool, cells: seq<int>): (bytes: seq<Byte>)
    requires forall i :: 0 <= i < |cells| ==> InRange(t, signed, cells[i])
    ensures |bytes| == if t == Bit8 then |cells| else 2 * |cells|
  {
    if cells == [] then []
    else EncodeCell(t, signed, cells[0]) + Encode(t, signed, cells[1..])
  }

  // ---------------------------------------------------------------------
  // Properties
  // ---------------------------------------------------------------------

  /** Every encoding is accepted under its own name. */
  lemma ParseDataTypeName(t: DataType)
    ensures ParseDataType(DataTypeName(t)) == Some(t)
  {
  }

  /** The reference reading of a cell lies in the cell type's range. */
  lemma CellAtInRange(binary: seq<Byte>, start: nat, t: DataType, signed: bool, i: nat)
    requires t == Bit8 ==> start + i < |binary|
    requires t != Bit8 ==> start + 2 * i + 1 < |binary|
    ensures InRange(t, signed, CellAt(binary, start, t, signed, i))
  {
  }

  /** Item i of the unpacked tuple is the reference reading of cell i. */
  lemma {:induction false} UnpackAt(t: DataType, signed: bool, raw: seq<Byte>, i: nat)
    requires |raw| % CellWidth(t) == 0
    requires i < |raw| / CellWidth(t)
    ensures Unpack(t, signed, raw)[i] == CellAt(raw, 0, t, signed, i)
    decreases i
  {
    var w := CellWidth(t);
    if i == 0 {
      DecodeFirstCell(t, signed, raw);
    } else {
      UnpackAt(t, signed, raw[w..], i - 1);
      CellAtNext(t, signed, raw, i);
    }
  }

  /** The first chunk decodes to the reference reading of cell 0. */
  lemma DecodeFirstCell(t: DataType, signed: bool, raw: seq<Byte>)
    requires |raw| >= CellWidth(t)
    ensures t == Bit8 ==> 0 < |raw|
    ensures t != Bit8 ==> 1 < |raw|
    ensures DecodeCell(t, signed, raw[..CellWidth(t)]) == CellAt(raw, 0, t, signed, 0)
  {
  }

  /** Dropping the first chunk moves every later cell one place forward. */
  lemma CellAtNext(t: DataType, signed: bool, raw: seq<Byte>, i: nat)
    requires i > 0
    requires t == Bit8 ==> i < |raw|
    requires t != Bit8 ==> 2 * i + 1 < |raw|
    ensures CellAt(raw[CellWidth(t)..], 0, t, signed, i - 1) == CellAt(raw, 0, t, signed, i)
  {
  }

  /** Unpacking what was encoded gives back the raw values. */
  lemma {:induction false} UnpackEncode(t: DataType, signed: bool, cells: seq<int>)
    requires forall i :: 0 <= i < |cells| ==> InRange(t, signed, cells[i])
    ensures Unpack(t, signed, Encode(t, signed, cells)) == cells
  {
    if cells != [] {
      var e := Encode(t, signed, cells);
      var w := CellWidth(t);
      assert e[..w] == EncodeCell(t, signed, cells[0]);
      assert e[w..] == Encode(t, signed, cells[1..]);
      UnpackEncode(t, signed, cells[1..]);
    }
  }

  /** Cell (i, j) of a reshaped grid is element i * columns + j. */
  lemma {:induction false} ReshapeAt<T>(values: seq<T>, rows: nat, columns: nat, i: nat, j: nat)
    requires |values| == rows * columns
    requires i < rows && j < columns
    ensures i * columns + j < |values|
    ensures Reshape(values, rows, columns)[i][j] == values[i * columns + j]
    decreases rows
  {
    MulSucc(rows, columns);
    if i > 0 {
      MulSucc(i, columns);
      ReshapeAt(values[columns..], rows - 1, columns, i - 1, j);
    }
  }

  /** Reshaping loses nothing: reading the rows back in order gives the input. */
  lemma {:induction false} FlattenReshape<T>(values: seq<T>, rows: nat, columns: nat)
    requires |values| == rows * columns
    ensures Flatten(Reshape(values, rows, columns)) == values
    decreases rows
  {
    if rows > 0 {
      MulSucc(rows, columns);
      FlattenReshape(values[columns..], rows - 1, columns);
      assert values == values[..columns] + values[columns..];
    }
  }

  /**
   * An unsupported `data_type` raises ValueError, whatever the image and
   * the bounds, so that check comes before the bounds check.
   */
  lemma ExtractUnsupported(binary: seq<Byte>, startAddress: nat, columns: nat, rows: nat,
                           dataType: string, isSigned: bool, conversionFactor: real)
    ensures var r := ExtractMapData(binary, startAddress, columns, rows, dataType, isSigned, conversionFactor);
            (r == Failure(UnsupportedDataType(dataType)))
            <==> dataType !in ["8bit", "16bit_hi_lo", "16bit_lo_hi"]
  {
  }

  /**
   * The bounds check: the read fails with IndexError exactly when it would
   * pass the end of the image; a map ending on the last byte is read.
   */
  lemma ExtractBounds(binary: seq<Byte>, startAddress: nat, columns: nat, rows: nat,
                      t: DataType, isSigned: bool, conversionFactor: real)
    ensures var r := ExtractMapData(binary, startAddress, columns, rows, DataTypeName(t), isSigned, conversionFactor);
            && (r.Failure? <==> startAddress + ByteCount(t, columns, rows) > |binary|)
            && (r.Failure? ==> r.error == OutOfBounds(ByteCount(t, columns, rows), startAddress, |binary|))
  {
    ParseDataTypeName(t);
  }

  /**
   * Cell (i, j) of a decoded map is cell number i * columns + j of the
   * image read at the start address, times the conversion factor.
   */
  lemma ExtractCell(binary: seq<Byte>, startAddress: nat, columns: nat, rows: nat,
                    t: DataType, isSigned: bool, conversionFactor: real, grid: seq<seq<real>>, i: nat, j: nat)
    requires ExtractMapData(binary, startAddress, columns, rows, DataTypeName(t), isSigned, conversionFactor)
             == Success(grid)
    requires i < rows && j < columns
    ensures startAddress + ByteCount(t, columns, rows) <= |binary|
    ensures i * columns + j < columns * rows
    ensures t == Bit8 ==> startAddress + i * columns + j < |binary|
    ensures t != Bit8 ==> startAddress + 2 * (i * columns + j) + 1 < |binary|
    ensures i < |grid| && j < |grid[i]|
    ensures grid[i][j] == Convert(CellAt(binary, startAddress, t, isSigned, i * columns + j), conversionFactor)
  {
    ParseDataTypeName(t);
    var byteCount := ByteCount(t, columns, rows);
    DecodedCell(binary, startAddress, columns, rows, t, isSigned, conversionFactor, i, j);
  }

  /** The grid built from the slice, cell by cell. */
  lemma DecodedCell(binary: seq<Byte>, startAddress: nat, columns: nat, rows: nat,
                    t: DataType, isSigned: bool, conversionFactor: real, i: nat, j: nat)
    requires startAddress + ByteCount(t, columns, rows) <= |binary|
    requires i < rows && j < columns
    ensures i * columns + j < columns * rows
    ensures t == Bit8 ==> startAddress + i * columns + j < |binary|
    ensures t != Bit8 ==> startAddress + 2 * (i * columns + j) + 1 < |binary|
    ensures var raw := binary[startAddress..startAddress + ByteCount(t, columns, rows)];
            Reshape(Scale(Unpack(t, isSigned, raw), conversionFactor), rows, columns)[i][j]
            == Convert(CellAt(binary, startAddress, t, isSigned, i * columns + j), conversionFactor)
  {
    var byteCount := ByteCount(t, columns, rows);
    var raw := binary[startAddress..startAddress + byteCount];
    DecodedRawCell(binary, startAddress, columns, rows, t, isSigned, i, j);
    var cells := Unpack(t, isSigned, raw);
    ReshapeScaleAt(cells, conversionFactor, rows, columns, i, j);
  }

  /** The same, before scaling. */
  lemma DecodedRawCell(binary: seq<Byte>, startAddress: nat, columns: nat, rows: nat,
                       t: DataType, isSigned: bool, i: nat, j: nat)
    requires startAddress + ByteCount(t, columns, rows) <= |binary|
    requires i < rows && j < columns
    ensures i * columns + j < columns * rows
    ensures t == Bit8 ==> startAddress + i * columns + j < |binary|
    ensures t != Bit8 ==> startAddress + 2 * (i * columns + j) + 1 < |binary|
    ensures var raw := binary[startAddress..startAddress + ByteCount(t, columns, rows)];
            |Unpack(t, isSigned, raw)| == rows * columns
            && Unpack(t, isSigned, raw)[i * columns + j] == CellAt(binary, startAddress, t, isSigned, i * columns + j)
  {
    var size := columns * rows;
    var byteCount := ByteCount(t, columns, rows);
    assert byteCount == if t == Bit8 then size else 2 * size;
    var raw := binary[startAddress..startAddress + byteCount];
    var cells := Unpack(t, isSigned, raw);
    assert |cells| == size;
    MulBound(i, rows, columns, j);
    var k := i * columns + j;
    UnpackAt(t, isSigned, raw, k);
    CellAtShift(binary, startAddress, byteCount, t, isSigned, k);
  }

  /** Scaling before reshaping scales each cell of the grid. */
  lemma ReshapeScaleAt(cells: seq<int>, factor: real, rows: nat, columns: nat, i: nat, j: nat)
    requires |cells| == rows * columns
    requires i < rows && j < columns
    ensures i * columns + j < |cells|
    ensures Reshape(Scale(cells, factor), rows, columns)[i][j] == Convert(cells[i * columns + j], factor)
  {
    var scaled := Scale(cells, factor);
    var k := i * columns + j;
    ReshapeAt(scaled, rows, columns, i, j);
    ScaleAt(cells, factor, k, cells[k]);
  }

  /** Element k of a scaled sequence, for a known raw value c. */
  lemma ScaleAt(cells: seq<int>, factor: real, k: nat, c: int)
    requires k < |cells| && cells[k] == c
    ensures Scale(cells, factor)[k] == Convert(c, factor)
  {
  }

  /** Reading a cell from a slice of the image is reading it from the image. */
  lemma CellAtShift(binary: seq<Byte>, start: nat, len: nat, t: DataType, signed: bool, i: nat)
    requires start + len <= |binary|
    requires t == Bit8 ==> i < len
    requires t != Bit8 ==> 2 * i + 1 < len
    ensures CellAt(binary[start..start + len], 0, t, signed, i) == CellAt(binary, start, t, signed, i)
  {
  }

  /**
   * Only the bytes in [start, start + byteCount) affect the decoded map:
   * two images that agree there decode alike.
   */
  lemma ExtractReadsOnlyItsRange(b1: seq<Byte>, b2: seq<Byte>, startAddress: nat, columns: nat, rows: nat,
                                 t: DataType, isSigned: bool, conversionFactor: real)
    requires startAddress + ByteCount(t, columns, rows) <= |b1|
    requires startAddress + ByteCount(t, columns, rows) <= |b2|
    requires b1[startAddress..startAddress + ByteCount(t, columns, rows)]
          == b2[startAddress..startAddress + ByteCount(t, columns, rows)]
    ensures ExtractMapData(b1, startAddress, columns, rows, DataTypeName(t), isSigned, conversionFactor)
         == ExtractMapData(b2, startAddress, columns, rows, DataTypeName(t), isSigned, conversionFactor)
  {
    ParseDataTypeName(t);
  }

  /**
   * Round trip: a map encoded anywhere in an image decodes to its raw values
   * times the conversion factor, laid out row by row.
   */
  lemma ExtractEncoded(prefix: seq<Byte>, cells: seq<int>, suffix: seq<Byte>, columns: nat, rows: nat,
                       t: DataType, isSigned: bool, conversionFactor: real)
    requires |cells| == columns * rows
    requires forall i :: 0 <= i < |cells| ==> InRange(t, isSigned, cells[i])
    ensures var r := ExtractMapData(prefix + Encode(t, isSigned, cells) + suffix, |prefix|, columns, rows,
                                    DataTypeName(t), isSigned, conversionFactor);
            && r == Success(Reshape(Scale(cells, conversionFactor), rows, columns))
            && Flatten(r.value) == Scale(cells, conversionFactor)
  {
    ParseDataTypeName(t);
    var e := Encode(t, isSigned, cells);
    var b := prefix + e + suffix;
    assert b[|prefix|..|prefix| + |e|] == e;
    UnpackEncode(t, isSigned, cells);
    FlattenReshape(Scale(cells, conversionFactor), rows, columns);
  }

  /** With the default factor 1.0 an encoded map decodes to the raw values. */
  lemma ExtractEncodedUnitFactor(prefix: seq<Byte>, cells: seq<int>, suffix: seq<Byte>, columns: nat, rows: nat,
                                 t: DataType, isSigned: bool, i: nat, j: nat)
    requires |cells| == columns * rows
    requires forall k :: 0 <= k < |cells| ==> InRange(t, isSigned, cells[k])
    requires i < rows && j < columns
    ensures var r := ExtractMapData(prefix + Encode(t, isSigned, cells) + suffix, |prefix|, columns, rows,
                                    DataTypeName(t), isSigned, 1.0);
            && r.Success?
            && i * columns + j < |cells|
            && r.value[i][j] == cells[i * columns + j] as real
  {
    ExtractEncoded(prefix, cells, suffix, columns, rows, t, isSigned, 1.0);
    UnitGridAt(cells, rows, columns, i, j);
  }

  /** Scaling by 1.0 and reshaping puts raw value i * columns + j at (i, j). */
  lemma UnitGridAt(cells: seq<int>, rows: nat, columns: nat, i: nat, j: nat)
    requires |cells| == rows * columns
    requires i < rows && j < columns
    ensures i * columns + j < |cells|
    ensures Reshape(Scale(cells, 1.0), rows, columns)[i][j] == cells[i * columns + j] as real
  {
    ReshapeScaleAt(cells, 1.0, rows, columns, i, j);
  }

  /**
   * With the default factor 1.0 every decoded cell is a raw value of the
   * cell type: within [-128, 127] or [0, 255] for bytes, within
   * [-32768, 32767] or [0, 65535] for words.
   */
  lemma ExtractUnitFactorInRange(binary: seq<Byte>, startAddress: nat, columns: nat, rows: nat,
                                 t: DataType, isSigned: bool, grid: seq<seq<real>>, i: nat, j: nat)
    requires ExtractMapData(binary, startAddress, columns, rows, DataTypeName(t), isSigned, 1.0) == Success(grid)
    requires i < rows && j < columns
    ensures i < |grid| && j < |grid[i]|
    ensures CellMin(t, isSigned) as real <= grid[i][j] <= CellMax(t, isSigned) as real
  {
    var c := ExtractRawCell(binary, startAddress, columns, rows, t, isSigned, 1.0, grid, i, j);
    assert Convert(c, 1.0) == c as real;
  }

  /** Cell (i, j) of a decoded map is some in-range raw value times the factor. */
  lemma ExtractRawCell(binary: seq<Byte>, startAddress: nat, columns: nat, rows: nat,
                       t: DataType, isSigned: bool, conversionFactor: real, grid: seq<seq<real>>, i: nat, j: nat)
      returns (c: int)
    requires ExtractMapData(binary, startAddress, columns, rows, DataTypeName(t), isSigned, conversionFactor)
             == Success(grid)
    requires i < rows && j < columns
    ensures i < |grid| && j < |grid[i]|
    ensures InRange(t, isSigned, c) && grid[i][j] == Convert(c, conversionFactor)
  {
    ParseDataTypeName(t);
    var size := columns * rows;
    var byteCount := ByteCount(t, columns, rows);
    assert byteCount == if t == Bit8 then size else 2 * size;
    var cells := Unpack(t, isSigned, binary[startAddress..startAddress + byteCount]);
    assert |cells| == size;
    c := ScaledGridCell(t, isSigned, cells, conversionFactor, rows, columns, i, j);
  }

  /** Cell (i, j) of a scaled grid of in-range values is an in-range value times the factor. */
  lemma ScaledGridCell(t: DataType, signed: bool, cells: seq<int>, factor: real,
                       rows: nat, columns: nat, i: nat, j: nat) returns (c: int)
    requires |cells| == rows * columns
    requires forall k :: 0 <= k < |cells| ==> InRange(t, signed, cells[k])
    requires i < rows && j < columns
    ensures InRange(t, signed, c) && Reshape(Scale(cells, factor), rows, columns)[i][j] == Convert(c, factor)
  {
    ReshapeScaleAt(cells, factor, rows, columns, i, j);
    c := cells[i * columns + j];
  }

}
