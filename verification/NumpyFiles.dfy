/**
 Files that NumPy itself writes: either element order, either width of the header
 length, any known type. What the reader makes of them, element by element.
 */
module NumpyFiles {
  import opened Arithmetic
  import opened BufferGeometry
  import opened Bytes
  import opened NpyFormat
  import opened NpyText
  import opened Wrappers

  /** A dtype descriptor, with its byte-order character. */
  function TypeText(order: char, t: int): string {
    [order] + if t == UNSIGNED_BYTE then "u1"
              else if t == UNSIGNED_SHORT then "u2"
              else if t == SHORT then "i2"
              else if t == INT32 then "i4"
              else if t == FLOAT32 then "f4"
              else "f8"
  }

  lemma TypeRead(order: char, t: int)
    requires IsKnown(t) && order != '>'
    ensures MapDtype(TypeText(order, t)) == Ok(DType(t, TypeSize(t)))
  {
    var digit := TypeText(order, t)[2..];
    assert |digit| == 1 && digit[1..] == "" && digit[..1] == digit && digit[..0] == "";
    assert LeadingDigits("") == 0;
    assert LeadingDigits(digit) == 1;
    assert Number("") == 0;
    assert Number(digit) == DigitValue(digit[0]);
  }

  /** What comes before the dict: version 1 gives its length two bytes, later ones four. */
  function Preamble(major: Byte, minor: Byte, length: nat): (s: seq<Byte>)
    ensures |s| == if major == 1 then 10 else 12
  {
    MAGIC + [major, minor] + LittleEndian(length, if major == 1 then 2 else 4)
  }

  lemma PreambleRead(major: Byte, minor: Byte, dict: string, payload: seq<Byte>)
    requires major >= 1 && Narrow(dict) && |dict| <= if major == 1 then 0xFFFF else MAX_HEADER
    ensures ParseHeaderSpan(Preamble(major, minor, |dict|) + ToBytes(dict) + payload)
         == Ok(NpyHeader(dict, |Preamble(major, minor, |dict|)| + |dict|))
  {
    var k := if major == 1 then 2 else 4;
    var data := Preamble(major, minor, |dict|) + ToBytes(dict) + payload;
    assert data[..6] == MAGIC && data[6] == major;
    assert data[8..8 + k] == LittleEndian(|dict|, k);
    assert Power256(2) == 0x1_0000 && Power256(4) == 0x1_0000_0000;
    LittleEndianRoundTrip(|dict|, k);
    assert data[8 + k..8 + k + |dict|] == ToBytes(dict);
    TextRoundTrip(dict);
  }

  function Dict(order: char, t: int, fortran: bool, dims: seq<nat>, tail: string): string
    requires dims != []
  {
    DictText(TypeText(order, t), fortran, DimsText(dims), tail)
  }

  function File(major: Byte, minor: Byte, dict: string, payload: seq<Byte>): seq<Byte> {
    Preamble(major, minor, |dict|) + ToBytes(dict) + payload
  }

  // ---------------------------------------------------------------------
  // What the reader returns
  // ---------------------------------------------------------------------

  /** How many elements a shape of two or three dimensions has. */
  function Count(dims: seq<nat>): nat
    requires |dims| == 2 || |dims| == 3
  {
    if |dims| == 2 then dims[0] * dims[1] else dims[0] * dims[1] * dims[2]
  }

  lemma CountIsProduct(dims: seq<nat>)
    requires |dims| == 2 || |dims| == 3
    ensures ElementCount(dims) == Count(dims)
  {
    var all: seq<int> := dims;
    var none: seq<int> := [];
    assert all[..2] == [all[0], all[1]] && all[..2][..1] == [all[0]] && [all[0]][..0] == none;
    assert ElementCount([all[0]]) == all[0];
    assert ElementCount([all[0], all[1]]) == all[0] * all[1];
    if |dims| == 2 { assert all == [all[0], all[1]]; }
  }

  /** The pixels an array is shown as: C order row by row; Fortran order column by
      column, to be shown transposed. */
  function Shown(fortran: bool, dims: seq<nat>): Layout
    requires |dims| == 2 || |dims| == 3
  {
    if |dims| == 3 then Layout(dims[1], dims[0], dims[2], dims[1], false)
    else if fortran then Layout(dims[0], dims[1], 1, dims[0], true)
    else Layout(dims[1], dims[0], 1, dims[1], false)
  }

  predicate Displayable(dims: seq<nat>)
    requires |dims| == 2 || |dims| == 3
  {
    && 1 <= dims[0] <= MAX_DIMENSION && 1 <= dims[1] <= MAX_DIMENSION
    && (|dims| == 3 ==> 1 <= dims[2] <= MAX_CHANNELS)
  }

  /** Every file NumPy writes with two or three dimensions, in either order: refused
      exactly for a Fortran-ordered cube, an undisplayable shape or a payload of the
      wrong size, and otherwise read with its type, its geometry and its payload. */
  lemma NumpyFileRead(major: Byte, minor: Byte, order: char, t: int, fortran: bool, dims: seq<nat>, tail: string,
                      payload: seq<Byte>)
    requires major >= 1 && IsKnown(t) && order in "<|=" && (|dims| == 2 || |dims| == 3) && IntDims(dims)
    requires var dict := Dict(order, t, fortran, dims, tail);
      Narrow(dict) && |dict| <= if major == 1 then 0xFFFF else MAX_HEADER
    ensures Decode(File(major, minor, Dict(order, t, fortran, dims, tail), payload))
         == if |dims| == 3 && fortran then Error(FortranCube)
            else if !Displayable(dims) then Error(OutOfRange)
            else if |payload| != Count(dims) * TypeSize(t) then Error(SizeMismatch)
            else Ok(NpyArray(t, Shown(fortran, dims), payload))
  {
    var dict := Dict(order, t, fortran, dims, tail);
    var file := File(major, minor, dict, payload);
    TypeRead(order, t);
    assert QuoteFree(TypeText(order, t)) && |TypeText(order, t)| == 3;
    DictDescribed(TypeText(order, t), fortran, dims, tail);
    PreambleRead(major, minor, dict, payload);
    CountIsProduct(dims);
    assert file[|Preamble(major, minor, |dict|)| + |dict|..] == payload;
  }

  // ---------------------------------------------------------------------
  // Element by element
  // ---------------------------------------------------------------------

  /** Where element (i, j, k) of an array of this shape lies among its elements. */
  function Position(fortran: bool, dims: seq<int>, i: nat, j: nat, k: nat): int
    requires |dims| == 2 || |dims| == 3
  {
    if |dims| == 3 then (i * dims[1] + j) * dims[2] + k
    else if fortran then i + j * dims[0]
    else i * dims[1] + j
  }

  /** Where the renderer looks for channel `k` of pixel (x, y). */
  function Looked(l: Layout, x: nat, y: nat, k: nat): int { (y * l.step + x) * l.channels + k }

  predicate HasElement(dims: seq<int>, i: nat, j: nat, k: nat) {
    && (|dims| == 2 || |dims| == 3) && i < dims[0] && j < dims[1]
    && k < if |dims| == 3 then dims[2] else 1
  }

  lemma Within(i: nat, n: int, j: nat, m: int)
    requires i < n && j < m
    ensures 0 <= i * m + j < n * m
  {
    RowSpan(i, n, m);
  }

  lemma PixelIsElement(dims: seq<int>, fortran: bool, i: nat, j: nat, k: nat)
    requires LayoutFromShape(dims, fortran).Ok? && HasElement(dims, i, j, k)
    ensures var l := LayoutFromShape(dims, fortran).value;
      && l.transpose == fortran
      && (fortran ==> i < l.width && j < l.height && Looked(l, i, j, k) == Position(fortran, dims, i, j, k))
      && (!fortran ==> j < l.width && i < l.height && Looked(l, j, i, k) == Position(fortran, dims, i, j, k))
      && k < l.channels
      && 0 <= Position(fortran, dims, i, j, k) < ElementCount(dims)
  {
    CountIsProduct(dims);
    if |dims| == 2 {
      if fortran { Within(j, dims[1], i, dims[0]); } else { Within(i, dims[0], j, dims[1]); }
    } else {
      Within(i, dims[0], j, dims[1]);
      Within(i * dims[1] + j, dims[0] * dims[1], k, dims[2]);
    }
  }

  /** The dimensions and the order an accepted file states. */
  function StatedDims(data: seq<Byte>): seq<int>
    requires Decode(data).Ok?
  {
    Describe(ParseHeaderSpan(data).value.text).value.dims
  }

  function StatedOrder(data: seq<Byte>): bool
    requires Decode(data).Ok?
  {
    ExtractFortran(ParseHeaderSpan(data).value.text).value
  }

  lemma DecodedParts(data: seq<Byte>)
    requires Decode(data).Ok?
    ensures var a, dims := Decode(data).value, StatedDims(data);
      && LayoutFromShape(dims, StatedOrder(data)) == Ok(a.layout)
      && |a.bytes| == ElementCount(dims) * TypeSize(a.bufferType)
      && |a.bytes| <= |data| && a.bytes == data[|data| - |a.bytes|..]
  {
    DescribedCount(ParseHeaderSpan(data).value.text);
  }

  lemma BytesAt(data: seq<Byte>, bytes: seq<Byte>, at: nat, count: nat, size: nat)
    requires |bytes| == count * size && |bytes| <= |data| && bytes == data[|data| - |bytes|..] && at < count
    ensures 0 <= at * size <= at * size + size <= |bytes|
    ensures var start := |data| - |bytes| + at * size;
            bytes[at * size..at * size + size] == data[start..start + size]
  {
    RowSpan(at, count, size);
  }

  /** Element (i, j, k) is shown in its place: row i and column j of a C-ordered array
      are row i and column j of the image; of a Fortran-ordered one they are its column
      and row, and the image is shown transposed. The bytes there are the element's own,
      counted from where the file's payload starts. */
  predicate InPlace(data: seq<Byte>, a: NpyArray, dims: seq<int>, fortran: bool, i: nat, j: nat, k: nat)
    requires |dims| == 2 || |dims| == 3
  {
    var at, size := Position(fortran, dims, i, j, k), TypeSize(a.bufferType);
    && a.layout.transpose == fortran
    && (fortran ==> i < a.layout.width && j < a.layout.height && Looked(a.layout, i, j, k) == at)
    && (!fortran ==> j < a.layout.width && i < a.layout.height && Looked(a.layout, j, i, k) == at)
    && 0 <= at * size <= at * size + size <= |a.bytes| <= |data|
    && var start := |data| - |a.bytes| + at * size;
       a.bytes[at * size..at * size + size] == data[start..start + size]
  }

  lemma PartsInPlace(data: seq<Byte>, a: NpyArray, dims: seq<int>, fortran: bool, i: nat, j: nat, k: nat)
    requires LayoutFromShape(dims, fortran) == Ok(a.layout) && HasElement(dims, i, j, k)
    requires |a.bytes| == ElementCount(dims) * TypeSize(a.bufferType)
    requires |a.bytes| <= |data| && a.bytes == data[|data| - |a.bytes|..]
    ensures InPlace(data, a, dims, fortran, i, j, k)
  {
    PixelIsElement(dims, fortran, i, j, k);
    BytesAt(data, a.bytes, Position(fortran, dims, i, j, k), ElementCount(dims), TypeSize(a.bufferType));
  }

  /** Every element of an accepted array is shown where it belongs. */
  lemma ElementsInPlace(data: seq<Byte>, i: nat, j: nat, k: nat)
    requires Decode(data).Ok? && HasElement(StatedDims(data), i, j, k)
    ensures InPlace(data, Decode(data).value, StatedDims(data), StatedOrder(data), i, j, k)
  {
    DecodedParts(data);
    PartsInPlace(data, Decode(data).value, StatedDims(data), StatedOrder(data), i, j, k);
  }
}
