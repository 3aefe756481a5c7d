/**
 The .npy writer and reader. The writer emits the version 1.0 layout of NEP 1,
 "Format Specification: Version 1.0"; the reader locates its dict's values by
 substring search and takes any later version's wider length as well.
 */
module NpyFormat {
  import opened Arithmetic
  import opened BufferGeometry
  import opened Bytes
  import opened NpyText
  import opened Wrappers

  const MAGIC: seq<Byte> := [0x93, 0x4E, 0x55, 0x4D, 0x50, 0x59]
  const MAX_HEADER: nat := 65536

  function ToBytes(s: string): (b: seq<Byte>)
    ensures |b| == |s|
  {
    seq(|s|, i requires 0 <= i < |s| => (s[i] as int % 256) as Byte)
  }

  function ToText(b: seq<Byte>): (s: string)
    ensures |s| == |b|
  {
    seq(|b|, i requires 0 <= i < |b| => b[i] as char)
  }

  predicate Narrow(s: string) { forall c <- s :: (c as int) < 256 }

  lemma TextRoundTrip(s: string)
    requires Narrow(s)
    ensures ToText(ToBytes(s)) == s
  {
    forall i | 0 <= i < |s| ensures ToText(ToBytes(s))[i] == s[i] { assert s[i] in s; }
  }

  // ---------------------------------------------------------------------
  // Writer
  // ---------------------------------------------------------------------

  function Descr(t: int): string {
    if t == UNSIGNED_BYTE then "|u1"
    else if t == UNSIGNED_SHORT then "<u2"
    else if t == SHORT then "<i2"
    else if t == INT32 then "<i4"
    else if t == FLOAT32 || t == FLOAT64 then "<f4"
    else "|u1"
  }

  function ShapeText(height: nat, width: nat, channels: nat): string {
    Print(height) + ", " + Print(width) + if channels == 1 then "" else ", " + Print(channels)
  }

  function Spaces(n: nat): string { seq(n, _ => ' ') }

  /** The dict before it is padded. */
  function Dict(descr: string, height: nat, width: nat, channels: nat): string {
    "{'descr': '" + descr + "', " + "'fortran_order': False, " + "'shape': (" + ShapeText(height, width, channels) + "), }"
  }

  function Padding(dictSize: nat): (n: nat)
    ensures (10 + dictSize + n + 1) % 64 == 0 && n < 64
  {
    var unpadded := 10 + dictSize + 1;
    (unpadded + 63) / 64 * 64 - unpadded
  }

  function PaddedDict(descr: string, height: nat, width: nat, channels: nat): string {
    var dict := Dict(descr, height, width, channels);
    dict + Spaces(Padding(|dict|)) + "\n"
  }

  function Header(descr: string, height: nat, width: nat, channels: nat): seq<Byte> {
    var dict := PaddedDict(descr, height, width, channels);
    MAGIC + [1, 0] + LittleEndian(|dict| % 0x1_0000, 2) + ToBytes(dict)
  }

  /** The first `height` rows of `data` without their padding. */
  function Rows(data: seq<Byte>, rowBytes: nat, rowStride: nat, height: nat): (s: seq<Byte>)
    requires height > 0 ==> (height - 1) * rowStride + rowBytes <= |data|
    ensures |s| == height * rowBytes
    decreases height
  {
    if height == 0 then []
    else
      RowBound(rowBytes, rowStride, height, |data|);
      Rows(data, rowBytes, rowStride, height - 1)
      + data[(height - 1) * rowStride..(height - 1) * rowStride + rowBytes]
  }

  lemma RowBound(rowBytes: nat, rowStride: nat, height: nat, size: nat)
    requires height > 0 && (height - 1) * rowStride + rowBytes <= size
    ensures 0 <= (height - 1) * rowStride
    ensures height > 1 ==> (height - 2) * rowStride + rowBytes <= size
    ensures (height - 1) * rowBytes + rowBytes == height * rowBytes
  {
    MulMonotone(0, height - 1, rowStride);
    MulMonotone(height - 2, height - 1, rowStride);
  }

  function RowSize(t: int, channels: nat, pixels: nat): nat { DisplayElementSize(t) * channels * pixels }

  /** What the caller hands over: `height` rows `step` pixels apart. */
  predicate HasRows(data: seq<Byte>, t: int, width: nat, height: nat, channels: nat, step: nat) {
    height > 0 ==> (height - 1) * RowSize(t, channels, step) + RowSize(t, channels, width) <= |data|
  }

  function File(data: seq<Byte>, t: int, width: nat, height: nat, channels: nat, step: nat): seq<Byte>
    requires HasRows(data, t, width, height, channels, step)
  {
    Header(Descr(t), height, width, channels)
    + Rows(data, RowSize(t, channels, width), RowSize(t, channels, step), height)
  }

  // ---------------------------------------------------------------------
  // Reader
  // ---------------------------------------------------------------------

  datatype Problem =
    | TooSmall | BadMagic | UnsupportedVersion | HeaderTooLarge | HeaderPastEnd
    | MissingKey | MalformedValue | BadDtype | MalformedShape | BadDimension
    | UnsupportedRank | FortranCube | OutOfRange | SizeMismatch

  datatype Result<+T> = Ok(value: T) | Error(problem: Problem)

  datatype NpyHeader = NpyHeader(text: string, payloadOffset: nat)
  datatype DType = DType(bufferType: int, itemsize: nat)
  datatype Layout = Layout(width: int, height: int, channels: int, step: int, transpose: bool)
  datatype NpyArray = NpyArray(bufferType: int, layout: Layout, bytes: seq<Byte>)

  function ParseHeaderSpan(data: seq<Byte>): Result<NpyHeader> {
    if |data| < 10 then Error(TooSmall)
    else if data[..6] != MAGIC then Error(BadMagic)
    else if data[6] == 1 then HeaderAt(data, 10, FromLittleEndian(data[8..10]))
    else if data[6] >= 2 then
      if |data| < 12 then Error(TooSmall) else HeaderAt(data, 12, FromLittleEndian(data[8..12]))
    else Error(UnsupportedVersion)
  }

  function HeaderAt(data: seq<Byte>, offset: nat, length: nat): Result<NpyHeader>
    requires offset <= |data|
  {
    if length > MAX_HEADER then Error(HeaderTooLarge)
    else if offset + length > |data| then Error(HeaderPastEnd)
    else Ok(NpyHeader(ToText(data[offset..offset + length]), offset + length))
  }

  /** std::from_chars on an int: an optional minus, then digits; None when there
      are none or the value does not fit. */
  function FromChars(s: string): (r: Option<(int, string)>)
    ensures r.Some? ==> |r.value.1| < |s|
  {
    var negative := s != [] && s[0] == '-';
    var body := if negative then s[1..] else s;
    var k := LeadingDigits(body);
    if k == 0 then None
    else
      var n := Number(body[..k]);
      var value: int := if negative then 0 - n else n;
      if INT_MIN <= value <= INT_MAX then Some((value, body[k..])) else None
  }

  function MapDtype(descr: string): Result<DType> {
    if |descr| < 3 then Error(BadDtype)
    else if descr[0] == '>' then Error(BadDtype)
    else
      match FromChars(descr[2..])
      case None => Error(BadDtype)
      case Some((itemsize, rest)) =>
        if rest != [] then Error(BadDtype)
        else DtypeOf(descr[1], itemsize)
  }

  function DtypeOf(kind: char, itemsize: int): Result<DType> {
    if kind == 'u' && itemsize == 1 then Ok(DType(UNSIGNED_BYTE, 1))
    else if kind == 'u' && itemsize == 2 then Ok(DType(UNSIGNED_SHORT, 2))
    else if kind == 'i' && itemsize == 2 then Ok(DType(SHORT, 2))
    else if kind == 'i' && itemsize == 4 then Ok(DType(INT32, 4))
    else if kind == 'f' && itemsize == 4 then Ok(DType(FLOAT32, 4))
    else if kind == 'f' && itemsize == 8 then Ok(DType(FLOAT64, 8))
    else Error(BadDtype)
  }

  function ExtractQuoted(header: string, key: string): Result<string> {
    match Find(header, key, 0)
    case None => Error(MissingKey)
    case Some(at) =>
      match Find(header, "'", at + |key|)
      case None => Error(MalformedValue)
      case Some(quote) =>
        match Find(header, "'", quote + 1)
        case None => Error(MalformedValue)
        case Some(end) =>
          if quote + 1 <= end <= |header| then Ok(header[quote + 1..end]) else Error(MalformedValue)
  }

  function ExtractFortran(header: string): Result<bool> {
    match Find(header, "'fortran_order'", 0)
    case None => Error(MissingKey)
    case Some(at) =>
      match Find(header, "True", at)
      case None => Ok(false)
      case Some(yes) =>
        match Find(header, ",", at)
        case None => Ok(true)
        case Some(comma) => Ok(yes < comma)
  }

  function SkipSeparators(s: string): (t: string)
    ensures |t| <= |s| && (t != [] ==> t[0] != ' ' && t[0] != ',')
  {
    if s != [] && (s[0] == ' ' || s[0] == ',') then SkipSeparators(s[1..]) else s
  }

  function ParseDims(inner: string): Result<seq<int>>
    decreases |inner|
  {
    var s := SkipSeparators(inner);
    if s == [] then Ok([])
    else
      match FromChars(s)
      case None => Error(BadDimension)
      case Some((value, rest)) =>
        match ParseDims(rest)
        case Error(e) => Error(e)
        case Ok(more) => Ok([value] + more)
  }

  function Parenthesized(header: string, from: nat): Result<string> {
    match Find(header, "(", from)
    case None => Error(MalformedShape)
    case Some(open) =>
      match Find(header, ")", open)
      case None => Error(MalformedShape)
      case Some(close) =>
        if open + 1 <= close <= |header| then Ok(header[open + 1..close]) else Error(MalformedShape)
  }

  function ShapeInner(header: string): Result<string> {
    match Find(header, "'shape'", 0)
    case None => Error(MissingKey)
    case Some(at) => Parenthesized(header, at)
  }

  function ExtractShape(header: string): Result<seq<int>> {
    match ShapeInner(header)
    case Error(e) => Error(e)
    case Ok(inner) => ParseDims(inner)
  }

  function LayoutFromShape(dims: seq<int>, fortran: bool): Result<Layout> {
    if |dims| == 2 then
      CheckedLayout(if fortran then Layout(dims[0], dims[1], 1, dims[0], true)
                    else Layout(dims[1], dims[0], 1, dims[1], false))
    else if |dims| == 3 then
      if fortran then Error(FortranCube)
      else CheckedLayout(Layout(dims[1], dims[0], dims[2], dims[1], false))
    else Error(UnsupportedRank)
  }

  function CheckedLayout(layout: Layout): Result<Layout> {
    if WithinDisplayLimits(layout.width, layout.height, layout.channels) then Ok(layout) else Error(OutOfRange)
  }

  function ElementCount(dims: seq<int>): int {
    if dims == [] then 1 else ElementCount(dims[..|dims| - 1]) * dims[|dims| - 1]
  }

  datatype Described = Described(dtype: DType, dims: seq<int>, layout: Layout)

  /** Everything the header's dict says. */
  function Describe(header: string): Result<Described> {
    match ExtractQuoted(header, "'descr'")
    case Error(e) => Error(e)
    case Ok(descr) =>
      match MapDtype(descr)
      case Error(e) => Error(e)
      case Ok(dtype) =>
        match ExtractFortran(header)
        case Error(e) => Error(e)
        case Ok(fortran) =>
          match ExtractShape(header)
          case Error(e) => Error(e)
          case Ok(dims) =>
            match LayoutFromShape(dims, fortran)
            case Error(e) => Error(e)
            case Ok(layout) => Ok(Described(dtype, dims, layout))
  }

  function Decode(data: seq<Byte>): Result<NpyArray> {
    match ParseHeaderSpan(data)
    case Error(e) => Error(e)
    case Ok(parsed) =>
      match Describe(parsed.text)
      case Error(e) => Error(e)
      case Ok(d) => WithPayload(data, parsed.payloadOffset, d)
  }

  function WithPayload(data: seq<Byte>, offset: nat, d: Described): Result<NpyArray> {
    if offset > |data| || |data| - offset != ElementCount(d.dims) * d.dtype.itemsize then Error(SizeMismatch)
    else Ok(NpyArray(d.dtype.bufferType, d.layout, data[offset..]))
  }

  // ---------------------------------------------------------------------
  // What the reader finds in a written header
  // ---------------------------------------------------------------------

  function OrderText(fortran: bool): string { if fortran then "True" else "False" }

  /** A dict as NumPy writes it, up to its tail: either order, any shape. */
  function DictText(descr: string, fortran: bool, shape: string, tail: string): string {
    "{'descr': '" + descr + ("', " + ("'fortran_order': " + OrderText(fortran) + ", ") + ("'shape': (" + (shape + (")" + tail))))
  }

  /** Such a dict, cut at its quotes. */
  predicate HeaderParts(parts: seq<string>, descr: string, fortran: bool, shape: string, tail: string) {
    && |parts| == 9 && parts[0] == "{" && parts[1] == "descr" && parts[2] == ": " && parts[3] == descr
    && parts[4] == ", " && parts[5] == "fortran_order" && parts[6] == ": " + OrderText(fortran) + ", "
    && parts[7] == "shape" && parts[8] == ": (" + (shape + (")" + tail))
  }

  function Parts(descr: string, fortran: bool, shape: string, tail: string): (parts: seq<string>)
    ensures HeaderParts(parts, descr, fortran, shape, tail)
  {
    ["{", "descr", ": ", descr, ", ", "fortran_order", ": " + OrderText(fortran) + ", ", "shape",
     ": (" + (shape + (")" + tail))]
  }

  lemma PartsApart(parts: seq<string>, descr: string, fortran: bool, shape: string, tail: string)
    requires HeaderParts(parts, descr, fortran, shape, tail) && QuoteFree(descr) && |descr| == 3
    ensures forall j :: 0 <= j < 8 ==> QuoteFree(parts[j])
    ensures forall j :: 0 < j < 5 ==> parts[j] != "fortran_order"
    ensures forall j :: 0 < j < 7 ==> parts[j] != "shape"
  {
    assert |"fortran_order"| == 13 && |"shape"| == 5 && |"descr"| == 5 && "descr"[0] != "shape"[0];
  }

  lemma LastPart(parts: seq<string>)
    requires |parts| > 1
    ensures FromPart(parts, |parts| - 1) == "'" + parts[|parts| - 1]
  {
  }

  lemma FrontOfDict(descr: string, rest: string)
    ensures "{" + ("'" + "descr" + ("'" + ": " + ("'" + descr + rest))) == "{'descr': '" + descr + rest
  {
    assert "{" + "'" + "descr" + "'" + ": " + "'" == "{'descr': '";
  }

  lemma MiddleOfDict(order: string, rest: string)
    ensures "'" + ", " + ("'" + "fortran_order" + ("'" + (": " + order + ", ") + rest))
         == "', " + ("'fortran_order': " + order + ", ") + rest
  {
    assert "'" + ", " == "', ";
    assert "'" + "fortran_order" + "'" + ": " == "'fortran_order': ";
  }

  lemma BackOfDict(rest: string)
    ensures "'" + "shape" + ("'" + (": (" + rest)) == "'shape': (" + rest
  {
    assert "'" + "shape" + "'" + ": (" == "'shape': (";
  }

  lemma QuotedIsDict(parts: seq<string>, descr: string, fortran: bool, shape: string, tail: string)
    requires HeaderParts(parts, descr, fortran, shape, tail)
    ensures Quoted(parts) == DictText(descr, fortran, shape, tail)
  {
    var r4, r7 := FromPart(parts, 4), FromPart(parts, 7);
    assert r7 == "'shape': (" + (shape + (")" + tail)) by {
      QuotedTail(parts, 7);
      LastPart(parts);
      BackOfDict(shape + (")" + tail));
    }
    assert r4 == "', " + ("'fortran_order': " + OrderText(fortran) + ", ") + r7 by {
      QuotedTail(parts, 4);
      QuotedTail(parts, 5);
      QuotedTail(parts, 6);
      MiddleOfDict(OrderText(fortran), r7);
    }
    assert Quoted(parts) == "{" + FromPart(parts, 1);
    QuotedTail(parts, 1);
    QuotedTail(parts, 2);
    QuotedTail(parts, 3);
    FrontOfDict(descr, r4);
  }

  /** The writer's dict is one of them. */
  lemma PaddedDictText(descr: string, height: nat, width: nat, channels: nat) returns (tail: string)
    ensures PaddedDict(descr, height, width, channels) == DictText(descr, false, ShapeText(height, width, channels), tail)
  {
    var shape := ShapeText(height, width, channels);
    var padding := Spaces(Padding(|Dict(descr, height, width, channels)|));
    tail := ", }" + padding + "\n";
    assert "'fortran_order': False, " == "'fortran_order': " + OrderText(false) + ", ";
    Reassociate("{'descr': '" + descr, "', ", "'fortran_order': False, ", "'shape': (", shape, padding);
  }

  lemma Reassociate(front: string, comma: string, order: string, key: string, shape: string, padding: string)
    ensures front + comma + order + key + shape + "), }" + padding + "\n"
         == front + (comma + order + (key + (shape + (")" + (", }" + padding + "\n")))))
  {
    assert "), }" == ")" + ", }";
    var head := front + comma + order + key + shape;
    assert head + "), }" + padding + "\n" == head + (")" + (", }" + padding + "\n"));
  }

  /** The next quote after some quote-free text. */
  lemma QuoteFound(text: string, from: nat, gap: string, rest: string)
    requires from <= |text| && text[from..] == gap + ("'" + rest) && QuoteFree(gap)
    ensures var quote := from + |gap|;
      quote < |text| && Find(text, "'", from) == Some(quote) && text[quote + 1..] == rest
      && text[from..quote] == gap
  {
    SkipText(gap, "'" + rest, "'");
    FoundHere("'", rest);
    assert text[from + |gap| + 1..] == text[from..][|gap| + 1..];
    assert text[from..from + |gap|] == text[from..][..|gap|];
  }

  /** A quoted value some quote-free text after a position. */
  lemma ValueFound(text: string, from: nat, gap: string, value: string, rest: string)
    requires from <= |text| && text[from..] == gap + ("'" + (value + ("'" + rest)))
    requires QuoteFree(gap) && QuoteFree(value)
    ensures var quote := from + |gap|;
      Find(text, "'", from) == Some(quote)
      && Find(text, "'", quote + 1) == Some(quote + 1 + |value|)
      && quote + 1 + |value| <= |text| && text[quote + 1..quote + 1 + |value|] == value
  {
    QuoteFound(text, from, gap, value + ("'" + rest));
    QuoteFound(text, from + |gap| + 1, value, rest);
  }

  lemma DescrFound(parts: seq<string>, descr: string, fortran: bool, shape: string, tail: string)
    requires HeaderParts(parts, descr, fortran, shape, tail) && QuoteFree(descr) && |descr| == 3
    ensures ExtractQuoted(Quoted(parts), "'descr'") == Ok(descr)
  {
    PartsApart(parts, descr, fortran, shape, tail);
    var text := Quoted(parts);
    assert Key("descr") == "'descr'";
    var at := FindKey(parts, "descr", 1);
    assert text[0..] == text;
    DescrKeyText(parts, descr, fortran, shape, tail);
    DescrAt(text, at, descr, Quoted(parts[4..]));
  }

  lemma DescrKeyText(parts: seq<string>, descr: string, fortran: bool, shape: string, tail: string)
    requires HeaderParts(parts, descr, fortran, shape, tail)
    ensures FromPart(parts, 1) == "'descr'" + (": " + ("'" + (descr + ("'" + Quoted(parts[4..])))))
  {
    QuotedTail(parts, 1);
    QuotedTail(parts, 2);
    QuotedTail(parts, 3);
    QuotedTail(parts, 4);
    DescrText(descr, Quoted(parts[4..]));
  }

  lemma DescrAt(text: string, at: nat, descr: string, rest: string)
    requires at <= |text| && text[at..] == "'descr'" + (": " + ("'" + (descr + ("'" + rest)))) && QuoteFree(descr)
    ensures var quote := at + 9;
      Find(text, "'", at + 7) == Some(quote)
      && Find(text, "'", quote + 1) == Some(quote + 1 + |descr|)
      && quote + 1 + |descr| <= |text| && text[quote + 1..quote + 1 + |descr|] == descr
  {
    assert text[at + 7..] == text[at..][7..] == ": " + ("'" + (descr + ("'" + rest)));
    ValueFound(text, at + 7, ": ", descr, rest);
  }

  lemma DescrText(descr: string, rest: string)
    ensures "'" + "descr" + ("'" + ": " + ("'" + descr + ("'" + rest)))
         == "'descr'" + (": " + ("'" + (descr + ("'" + rest))))
  {
    assert "'" + "descr" + "'" == "'descr'";
  }

  /** The text from the fortran_order key on, cut before its comma. */
  lemma FortranText(order: string, rest: string)
    ensures "'" + "fortran_order" + ("'" + (": " + order + ", ") + rest)
         == "'fortran_order': " + (order + ("," + (" " + rest)))
  {
    assert "'" + "fortran_order" + "'" + ": " == "'fortran_order': " && ", " == "," + " ";
  }

  lemma FortranKeyAt(parts: seq<string>, descr: string, fortran: bool, shape: string, tail: string) returns (at: nat)
    requires HeaderParts(parts, descr, fortran, shape, tail) && QuoteFree(descr) && |descr| == 3
    ensures IndexOf(Quoted(parts), "'fortran_order'") == Some(at) && at <= |Quoted(parts)|
    ensures Quoted(parts)[at..] == "'fortran_order': " + (OrderText(fortran) + ("," + (" " + FromPart(parts, 7))))
  {
    PartsApart(parts, descr, fortran, shape, tail);
    assert Key("fortran_order") == "'fortran_order'";
    at := FindKey(parts, "fortran_order", 5);
    QuotedTail(parts, 5);
    QuotedTail(parts, 6);
    FortranText(OrderText(fortran), FromPart(parts, 7));
  }

  lemma FortranFound(parts: seq<string>, descr: string, fortran: bool, shape: string, tail: string)
    requires HeaderParts(parts, descr, fortran, shape, tail) && QuoteFree(descr) && |descr| == 3
    ensures ExtractFortran(Quoted(parts)) == Ok(fortran)
  {
    var at := FortranKeyAt(parts, descr, fortran, shape, tail);
    KeyLetters();
    FortranRead(Quoted(parts), at, "'fortran_order': ", fortran, OrderText(fortran), " " + FromPart(parts, 7));
  }

  lemma KeyLetters()
    ensures ',' !in "'fortran_order': " && 'T' !in "'fortran_order': "
  {
  }

  lemma OrderLetters(fortran: bool)
    ensures ',' !in OrderText(fortran) && (!fortran ==> 'T' !in OrderText(fortran))
  {
  }

  lemma Regrouped(a: string, b: string, c: string)
    ensures a + (b + c) == (a + b) + c
  {
  }

  lemma FortranRead(text: string, at: nat, key: string, fortran: bool, order: string, after: string)
    requires IndexOf(text, "'fortran_order'") == Some(at) && ',' !in key && 'T' !in key
    requires order == OrderText(fortran) && at <= |text| && text[at..] == key + (order + ("," + after))
    ensures ExtractFortran(text) == Ok(fortran)
  {
    OrderLetters(fortran);
    var before := key + order;
    Regrouped(key, order, "," + after);
    if fortran {
      TrueRead(text, at, key, before, after);
    } else {
      assert 'T' !in before;
      FalseRead(text, at, before, after);
    }
  }

  lemma TrueRead(text: string, at: nat, key: string, before: string, after: string)
    requires IndexOf(text, "'fortran_order'") == Some(at) && ',' !in before && 'T' !in key && |key| < |before|
    requires at <= |text| && text[at..] == before + ("," + after) == key + ("True" + ("," + after))
    ensures ExtractFortran(text) == Ok(true)
  {
    assert text[0..] == text;
    CommaFirst(text, at, before, after);
    TrueFound(text, at, key, "," + after);
  }

  lemma FalseRead(text: string, at: nat, before: string, after: string)
    requires IndexOf(text, "'fortran_order'") == Some(at) && ',' !in before && 'T' !in before
    requires at <= |text| && text[at..] == before + ("," + after)
    ensures ExtractFortran(text) == Ok(false)
  {
    assert text[0..] == text;
    CommaFirst(text, at, before, after);
    NoTrueBefore(text, at, before, "," + after);
  }

  lemma CommaFirst(text: string, at: nat, before: string, after: string)
    requires at <= |text| && text[at..] == before + ("," + after) && ',' !in before
    ensures Find(text, ",", at) == Some(at + |before|)
  {
    SkipText(before, "," + after, ",");
    FoundHere(",", after);
  }

  lemma TrueFound(text: string, at: nat, before: string, after: string)
    requires at <= |text| && text[at..] == before + ("True" + after) && 'T' !in before
    ensures Find(text, "True", at) == Some(at + |before|)
  {
    SkipText(before, "True" + after, "True");
    FoundHere("True", after);
  }

  lemma NoTrueBefore(text: string, at: nat, before: string, after: string)
    requires at <= |text| && text[at..] == before + after && 'T' !in before
    ensures Find(text, "True", at).Some? ==> Find(text, "True", at).value >= at + |before|
  {
    SkipText(before, after, "True");
  }

  lemma ShapeKeyText(rest: string)
    ensures "'" + "shape" + ("'" + (": (" + rest)) == "'shape': " + ("(" + rest)
  {
    assert "'" + "shape" + "'" + ": (" == "'shape': " + "(";
  }

  lemma ShapeKeyAt(parts: seq<string>, descr: string, fortran: bool, shape: string, tail: string) returns (at: nat)
    requires HeaderParts(parts, descr, fortran, shape, tail) && QuoteFree(descr) && |descr| == 3
    ensures IndexOf(Quoted(parts), "'shape'") == Some(at) && at <= |Quoted(parts)|
    ensures Quoted(parts)[at..] == "'shape': " + ("(" + (shape + (")" + tail)))
  {
    PartsApart(parts, descr, fortran, shape, tail);
    assert Key("shape") == "'shape'";
    at := FindKey(parts, "shape", 7);
    QuotedTail(parts, 7);
    LastPart(parts);
    ShapeKeyText(shape + (")" + tail));
  }

  lemma ShapeFound(parts: seq<string>, descr: string, fortran: bool, shape: string, tail: string)
    requires HeaderParts(parts, descr, fortran, shape, tail) && QuoteFree(descr) && |descr| == 3 && ')' !in shape
    ensures ShapeInner(Quoted(parts)) == Ok(shape)
  {
    var at := ShapeKeyAt(parts, descr, fortran, shape, tail);
    assert Quoted(parts)[0..] == Quoted(parts);
    ParenthesesFound(Quoted(parts), at, "'shape': ", shape, tail);
  }

  lemma ParenthesesFound(text: string, from: nat, gap: string, inner: string, rest: string)
    requires from <= |text| && text[from..] == gap + ("(" + (inner + (")" + rest)))
    requires '(' !in gap && ')' !in inner
    ensures Parenthesized(text, from) == Ok(inner)
  {
    var tail := inner + (")" + rest);
    SkipText(gap, "(" + tail, "(");
    FoundHere("(", tail);
    assert text[from + |gap|..] == "(" + tail;
    CloseFound(text, from + |gap|, inner, rest);
  }

  lemma CloseFound(text: string, open: nat, inner: string, rest: string)
    requires open <= |text| && text[open..] == "(" + (inner + (")" + rest)) && ')' !in inner
    ensures Find(text, ")", open) == Some(open + 1 + |inner|)
    ensures open + 1 + |inner| <= |text| && text[open + 1..open + 1 + |inner|] == inner
  {
    assert "(" + (inner + (")" + rest)) == ("(" + inner) + (")" + rest);
    SkipText("(" + inner, ")" + rest, ")");
    FoundHere(")", rest);
    assert text[open + 1..open + 1 + |inner|] == text[open..][1..][..|inner|];
  }

  // ---------------------------------------------------------------------
  // Numbers
  // ---------------------------------------------------------------------

  /** A printed number followed by something that is not a digit. */
  lemma PrintedIsRead(n: nat, rest: string)
    requires n <= INT_MAX && (rest != [] ==> !IsDigit(rest[0]))
    ensures FromChars(Print(n) + rest) == Some((n, rest))
    ensures SkipSeparators(Print(n) + rest) == Print(n) + rest
  {
    var s := Print(n) + rest;
    assert s[0] == Print(n)[0] && Print(n)[0] in Print(n);
    LeadingDigitsAre(Print(n), rest);
    assert s[..|Print(n)|] == Print(n) && s[|Print(n)|..] == rest;
    PrintedNumber(n);
  }

  lemma SeparatorSkipped(n: nat, rest: string)
    requires n <= INT_MAX && (rest != [] ==> !IsDigit(rest[0]))
    ensures SkipSeparators(", " + Print(n) + rest) == Print(n) + rest
  {
    PrintedIsRead(n, rest);
    assert ", " + Print(n) + rest == ", " + (Print(n) + rest);
    CommaSkipped(Print(n) + rest);
  }

  lemma CommaSkipped(t: string)
    ensures SkipSeparators(", " + t) == SkipSeparators(t)
  {
    var s := ", " + t;
    assert s[1..] == " " + t && s[1..][1..] == t;
  }

  function Prepend(n: nat, more: Result<seq<int>>): Result<seq<int>> {
    match more
    case Ok(dims) => Ok([n] + dims)
    case Error(e) => Error(e)
  }

  lemma FirstDim(n: nat, rest: string)
    requires n <= INT_MAX && (rest != [] ==> rest[0] == ',')
    ensures ParseDims(Print(n) + rest) == Prepend(n, ParseDims(rest))
  {
    PrintedIsRead(n, rest);
  }

  lemma NextDim(n: nat, rest: string)
    requires n <= INT_MAX && (rest != [] ==> rest[0] == ',')
    ensures ParseDims(", " + Print(n) + rest) == Prepend(n, ParseDims(rest))
  {
    SeparatorSkipped(n, rest);
    PrintedIsRead(n, rest);
  }

  function DimsOf(height: nat, width: nat, channels: nat): seq<nat> {
    if channels == 1 then [height, width] else [height, width, channels]
  }

  /** The dimensions after the first, and all of them, as NumPy prints them. */
  function LaterText(dims: seq<nat>): string {
    if dims == [] then "" else ", " + Print(dims[0]) + LaterText(dims[1..])
  }

  function DimsText(dims: seq<nat>): string
    requires dims != []
  {
    Print(dims[0]) + LaterText(dims[1..])
  }

  predicate IntDims(dims: seq<nat>) { forall i :: 0 <= i < |dims| ==> dims[i] <= INT_MAX }

  lemma {:induction false} LaterRead(dims: seq<nat>)
    requires IntDims(dims)
    ensures ParseDims(LaterText(dims)) == Ok(dims)
    ensures LaterText(dims) != [] ==> LaterText(dims)[0] == ','
    decreases |dims|
  {
    if dims != [] {
      LaterRead(dims[1..]);
      NextDim(dims[0], LaterText(dims[1..]));
      assert [dims[0] as int] + dims[1..] == dims;
    }
  }

  /** A printed shape is read back. */
  lemma DimsRead(dims: seq<nat>)
    requires dims != [] && IntDims(dims)
    ensures ParseDims(DimsText(dims)) == Ok(dims)
  {
    LaterRead(dims[1..]);
    FirstDim(dims[0], LaterText(dims[1..]));
    assert [dims[0] as int] + dims[1..] == dims;
  }

  lemma LaterCons(d: nat, rest: seq<nat>)
    ensures LaterText([d] + rest) == ", " + Print(d) + LaterText(rest)
    ensures LaterText([d]) == ", " + Print(d)
  {
    assert ([d] + rest)[1..] == rest && [d][1..] == [] && LaterText([]) == "";
    assert ", " + Print(d) + "" == ", " + Print(d);
  }

  lemma ShapeIsDims(height: nat, width: nat, channels: nat)
    ensures ShapeText(height, width, channels) == DimsText(DimsOf(height, width, channels))
  {
    var dims := DimsOf(height, width, channels);
    LaterCons(width, [channels]);
    LaterCons(channels, []);
    if channels == 1 {
      assert dims[1..] == [width];
      assert Print(height) + ", " + Print(width) + "" == Print(height) + (", " + Print(width));
    } else {
      assert dims[1..] == [width] + [channels];
      Regrouped(Print(height), ", " + Print(width), ", " + Print(channels));
      Regrouped(Print(height), ", ", Print(width));
    }
  }

  lemma {:induction false} NoParenthesis(dims: seq<nat>)
    ensures ')' !in LaterText(dims)
    decreases |dims|
  {
    assert !IsDigit(')');
    if dims != [] { NoParenthesis(dims[1..]); }
  }

  /** Doubles are stored as floats, and come back as such. */
  function StoredType(t: int): int { if t == FLOAT64 then FLOAT32 else t }

  lemma DescrRead(t: int)
    requires IsKnown(t)
    ensures MapDtype(Descr(t)) == Ok(DType(StoredType(t), DisplayElementSize(t)))
    ensures QuoteFree(Descr(t)) && |Descr(t)| == 3
  {
    var digit := Descr(t)[2..];
    assert |digit| == 1 && digit[1..] == "" && digit[..1] == digit && digit[..0] == "";
    assert LeadingDigits("") == 0;
    assert LeadingDigits(digit) == 1;
    assert Number("") == 0;
    assert Number(digit) == DigitValue(digit[0]);
  }

  /** What the reader finds in a dict: its descriptor, its order and its shape. */
  lemma DictDescribed(descr: string, fortran: bool, dims: seq<nat>, tail: string)
    requires QuoteFree(descr) && |descr| == 3 && dims != [] && IntDims(dims)
    ensures var header := DictText(descr, fortran, DimsText(dims), tail);
      && ExtractQuoted(header, "'descr'") == Ok(descr)
      && ExtractFortran(header) == Ok(fortran)
      && ExtractShape(header) == Ok(dims)
  {
    var shape := DimsText(dims);
    var parts := Parts(descr, fortran, shape, tail);
    QuotedIsDict(parts, descr, fortran, shape, tail);
    DescrFound(parts, descr, fortran, shape, tail);
    FortranFound(parts, descr, fortran, shape, tail);
    NoParenthesis(dims[1..]);
    assert !IsDigit(')');
    ShapeFound(parts, descr, fortran, shape, tail);
    DimsRead(dims);
  }

  lemma HeaderDescribed(t: int, height: nat, width: nat, channels: nat)
    requires IsKnown(t) && WithinDisplayLimits(width, height, channels)
    ensures Describe(PaddedDict(Descr(t), height, width, channels))
         == Ok(Described(DType(StoredType(t), DisplayElementSize(t)), DimsOf(height, width, channels),
                         Layout(width, height, channels, width, false)))
  {
    var tail := PaddedDictText(Descr(t), height, width, channels);
    ShapeIsDims(height, width, channels);
    DescrRead(t);
    DictDescribed(Descr(t), false, DimsOf(height, width, channels), tail);
  }

  // ---------------------------------------------------------------------
  // The round trip
  // ---------------------------------------------------------------------

  lemma DimensionDigits(n: nat)
    requires n <= 131072
    ensures |Print(n)| <= 6
  {
    assert Power10(2) == 100 && Power10(4) == 10000 && Power10(6) == 1000000;
    PrintedLength(n, 6, 1000000);
  }

  lemma DictIsShort(descr: string, height: nat, width: nat, channels: nat)
    requires |descr| == 3 && height <= 131072 && width <= 131072 && channels <= 131072
    ensures |PaddedDict(descr, height, width, channels)| < 0x1_0000
  {
    DimensionDigits(height);
    DimensionDigits(width);
    DimensionDigits(channels);
  }

  lemma NarrowJoin(a: string, b: string)
    requires Narrow(a) && Narrow(b)
    ensures Narrow(a + b)
  {
  }

  lemma DigitsAreNarrow(s: string)
    requires AllDigits(s)
    ensures Narrow(s)
  {
    assert '9' as int < 256;
  }

  lemma ShapeIsNarrow(height: nat, width: nat, channels: nat)
    ensures Narrow(ShapeText(height, width, channels))
  {
    DigitsAreNarrow(Print(height));
    DigitsAreNarrow(Print(width));
    DigitsAreNarrow(Print(channels));
    assert Narrow(", ");
  }

  lemma NarrowJoinFour(a: string, b: string, c: string, d: string)
    requires Narrow(a) && Narrow(b) && Narrow(c) && Narrow(d)
    ensures Narrow(a + b + c + d)
  {
    NarrowJoin(a, b);
    NarrowJoin(a + b, c);
    NarrowJoin(a + b + c, d);
  }

  lemma FrontIsNarrow(t: int)
    ensures Narrow("{'descr': '" + Descr(t) + "', " + "'fortran_order': False, ")
  {
    assert Narrow(Descr(t));
    assert Narrow("{'descr': '");
    assert Narrow("', ") && Narrow("'fortran_order': False, ");
    NarrowJoinFour("{'descr': '", Descr(t), "', ", "'fortran_order': False, ");
  }

  lemma DictIsNarrow(t: int, height: nat, width: nat, channels: nat)
    ensures Narrow(PaddedDict(Descr(t), height, width, channels))
  {
    var front, shape := "{'descr': '" + Descr(t) + "', " + "'fortran_order': False, ", ShapeText(height, width, channels);
    FrontIsNarrow(t);
    ShapeIsNarrow(height, width, channels);
    PaddedIsNarrow(front, shape, Padding(|Dict(Descr(t), height, width, channels)|));
  }

  lemma PaddedIsNarrow(front: string, shape: string, padding: nat)
    requires Narrow(front) && Narrow(shape)
    ensures Narrow(front + "'shape': (" + shape + "), }" + Spaces(padding) + "\n")
  {
    assert Narrow("'shape': (") && Narrow("), }") && Narrow("\n");
    NarrowJoinFour(front, "'shape': (", shape, "), }");
    NarrowJoin(front + "'shape': (" + shape + "), }", Spaces(padding));
    NarrowJoin(front + "'shape': (" + shape + "), }" + Spaces(padding), "\n");
  }

  /** The payload begins on a 64-byte boundary. */
  lemma PayloadIsAligned(t: int, height: nat, width: nat, channels: nat)
    ensures |Header(Descr(t), height, width, channels)| % 64 == 0
  {
  }

  /** A header written with its length in two bytes is read back whole. */
  lemma HeaderRead(dict: string, payload: seq<Byte>)
    requires Narrow(dict) && |dict| < 0x1_0000
    ensures ParseHeaderSpan(MAGIC + [1, 0] + LittleEndian(|dict|, 2) + ToBytes(dict) + payload)
         == Ok(NpyHeader(dict, 10 + |dict|))
  {
    var data := MAGIC + [1, 0] + LittleEndian(|dict|, 2) + ToBytes(dict) + payload;
    assert data[..6] == MAGIC && data[6] == 1;
    assert data[8..10] == LittleEndian(|dict|, 2);
    assert Power256(2) == 0x1_0000;
    LittleEndianRoundTrip(|dict|, 2);
    assert data[10..10 + |dict|] == ToBytes(dict);
    TextRoundTrip(dict);
  }

  lemma PayloadSize(t: int, height: nat, width: nat, channels: nat)
    ensures ElementCount(DimsOf(height, width, channels)) * DisplayElementSize(t)
         == height * RowSize(t, channels, width)
  {
    var dims, e := DimsOf(height, width, channels), DisplayElementSize(t);
    assert ElementCount(dims) == height * width * channels by {
      var none: seq<int> := [];
      assert dims[..2] == [height, width] && dims[..2][..1] == [height] && dims[..1][..0] == none;
      assert ElementCount(dims[..1]) == height;
      assert ElementCount(dims[..2]) == height * width;
      if channels != 1 { assert ElementCount(dims) == ElementCount(dims[..2]) * channels; }
      else { assert dims[..2] == dims; }
    }
    assert height * width * channels * e == height * (e * channels * width) by {
      assert height * width * channels == height * (width * channels);
      assert height * (width * channels) * e == height * (width * channels * e);
      assert width * channels == channels * width;
      assert channels * width * e == e * (channels * width) == e * channels * width;
    }
  }

  /** Reading a written file gives back its geometry with no padding, the type its
      descriptor names, and exactly the rows. */
  lemma NpyRoundTrip(data: seq<Byte>, t: int, width: nat, height: nat, channels: nat, step: nat)
    requires IsKnown(t) && WithinDisplayLimits(width, height, channels)
    requires HasRows(data, t, width, height, channels, step)
    ensures Decode(File(data, t, width, height, channels, step))
         == Ok(NpyArray(StoredType(t), Layout(width, height, channels, width, false),
                        Rows(data, RowSize(t, channels, width), RowSize(t, channels, step), height)))
  {
    var dict := PaddedDict(Descr(t), height, width, channels);
    var payload := Rows(data, RowSize(t, channels, width), RowSize(t, channels, step), height);
    FileParsed(data, t, width, height, channels, step);
    HeaderDescribed(t, height, width, channels);
    PayloadSize(t, height, width, channels);
    DecodedFrom(File(data, t, width, height, channels, step), dict, payload,
                Described(DType(StoredType(t), DisplayElementSize(t)), DimsOf(height, width, channels),
                          Layout(width, height, channels, width, false)));
  }

  lemma FileParsed(data: seq<Byte>, t: int, width: nat, height: nat, channels: nat, step: nat)
    requires IsKnown(t) && WithinDisplayLimits(width, height, channels)
    requires HasRows(data, t, width, height, channels, step)
    ensures var dict := PaddedDict(Descr(t), height, width, channels);
      var file := File(data, t, width, height, channels, step);
      && ParseHeaderSpan(file) == Ok(NpyHeader(dict, 10 + |dict|))
      && 10 + |dict| <= |file|
      && file[10 + |dict|..] == Rows(data, RowSize(t, channels, width), RowSize(t, channels, step), height)
  {
    DescrRead(t);
    DictIsShort(Descr(t), height, width, channels);
    DictIsNarrow(t, height, width, channels);
    var dict := PaddedDict(Descr(t), height, width, channels);
    var rows := Rows(data, RowSize(t, channels, width), RowSize(t, channels, step), height);
    FileText(data, t, width, height, channels, step);
    HeaderRead(dict, rows);
    AfterHeader(dict, rows);
  }

  lemma FileText(data: seq<Byte>, t: int, width: nat, height: nat, channels: nat, step: nat)
    requires HasRows(data, t, width, height, channels, step)
    requires |PaddedDict(Descr(t), height, width, channels)| < 0x1_0000
    ensures var dict := PaddedDict(Descr(t), height, width, channels);
      File(data, t, width, height, channels, step)
      == MAGIC + [1, 0] + LittleEndian(|dict|, 2) + ToBytes(dict)
         + Rows(data, RowSize(t, channels, width), RowSize(t, channels, step), height)
  {
  }

  lemma AfterHeader(dict: string, rows: seq<Byte>)
    ensures (MAGIC + [1, 0] + LittleEndian(|dict|, 2) + ToBytes(dict) + rows)[10 + |dict|..] == rows
  {
  }

  lemma DecodedFrom(file: seq<Byte>, header: string, payload: seq<Byte>, d: Described)
    requires 10 + |header| <= |file| && file[10 + |header|..] == payload
    requires ParseHeaderSpan(file) == Ok(NpyHeader(header, 10 + |header|)) && Describe(header) == Ok(d)
    requires ElementCount(d.dims) * d.dtype.itemsize == |payload|
    ensures Decode(file) == Ok(NpyArray(d.dtype.bufferType, d.layout, payload))
  {
  }

  /** Row `y` of what was written is row `y` of the buffer, padding dropped. */
  lemma {:induction false} RowsAreTheRows(data: seq<Byte>, rowBytes: nat, rowStride: nat, height: nat, y: nat)
    requires y < height && (height - 1) * rowStride + rowBytes <= |data|
    ensures 0 <= y * rowStride && y * rowStride + rowBytes <= |data|
    ensures 0 <= y * rowBytes && (y + 1) * rowBytes <= height * rowBytes
    ensures Rows(data, rowBytes, rowStride, height)[y * rowBytes..(y + 1) * rowBytes]
         == data[y * rowStride..y * rowStride + rowBytes]
    decreases height
  {
    RowBound(rowBytes, rowStride, height, |data|);
    RowSpan(y, height, rowBytes);
    var front := Rows(data, rowBytes, rowStride, height - 1);
    if y == height - 1 {
      assert Rows(data, rowBytes, rowStride, height)[|front|..] == data[y * rowStride..y * rowStride + rowBytes];
    } else {
      RowsAreTheRows(data, rowBytes, rowStride, height - 1, y);
      assert Rows(data, rowBytes, rowStride, height)[..|front|] == front;
      assert Rows(data, rowBytes, rowStride, height)[y * rowBytes..(y + 1) * rowBytes]
          == front[y * rowBytes..(y + 1) * rowBytes];
    }
  }

  lemma {:induction false} UnpaddedRows(data: seq<Byte>, rowBytes: nat, height: nat)
    requires height * rowBytes <= |data|
    ensures height > 0 ==> (height - 1) * rowBytes + rowBytes <= |data|
    ensures Rows(data, rowBytes, rowBytes, height) == data[..height * rowBytes]
    decreases height
  {
    if height > 0 {
      assert (height - 1) * rowBytes + rowBytes == height * rowBytes;
      MulMonotone(0, height - 1, rowBytes);
      UnpaddedRows(data, rowBytes, height - 1);
    }
  }

  /** Writing what was read writes the same file again, byte for byte. */
  lemma ReexportIsIdentical(data: seq<Byte>, t: int, width: nat, height: nat, channels: nat, step: nat)
    requires IsKnown(t) && WithinDisplayLimits(width, height, channels)
    requires HasRows(data, t, width, height, channels, step)
    ensures var file := File(data, t, width, height, channels, step);
      var read := Decode(file);
      && read.Ok?
      && HasRows(read.value.bytes, read.value.bufferType, width, height, channels, width)
      && File(read.value.bytes, read.value.bufferType, width, height, channels, width) == file
  {
    NpyRoundTrip(data, t, width, height, channels, step);
    var rowBytes := RowSize(t, channels, width);
    var payload := Rows(data, rowBytes, RowSize(t, channels, step), height);
    UnpaddedRows(payload, rowBytes, height);
    assert payload[..height * rowBytes] == payload;
  }

  /** Whatever is accepted has a displayable shape and exactly its bytes, taken
      from the end of the input. */
  lemma AcceptedIsConsistent(data: seq<Byte>)
    requires Decode(data).Ok?
    ensures var a := Decode(data).value;
      && IsKnown(a.bufferType)
      && WithinDisplayLimits(a.layout.width, a.layout.height, a.layout.channels)
      && a.layout.step == a.layout.width
      && |a.bytes| == a.layout.width * a.layout.height * a.layout.channels * TypeSize(a.bufferType)
      && |a.bytes| <= |data| && a.bytes == data[|data| - |a.bytes|..]
  {
    var parsed := ParseHeaderSpan(data).value;
    var d := Describe(parsed.text).value;
    DescribedCount(parsed.text);
  }

  lemma DescribedCount(header: string)
    requires Describe(header).Ok?
    ensures var d := Describe(header).value;
      && ElementCount(d.dims) == d.layout.width * d.layout.height * d.layout.channels
      && IsKnown(d.dtype.bufferType) && d.dtype.itemsize == TypeSize(d.dtype.bufferType)
      && WithinDisplayLimits(d.layout.width, d.layout.height, d.layout.channels)
      && d.layout.step == d.layout.width
  {
    var d := Describe(header).value;
    var descr := ExtractQuoted(header, "'descr'").value;
    DtypeIsKnown(descr);
    CountOfLayout(d.dims, ExtractFortran(header).value);
  }

  lemma DtypeIsKnown(descr: string)
    requires MapDtype(descr).Ok?
    ensures IsKnown(MapDtype(descr).value.bufferType)
    ensures MapDtype(descr).value.itemsize == TypeSize(MapDtype(descr).value.bufferType)
  {
  }

  lemma CountOfLayout(dims: seq<int>, fortran: bool)
    requires LayoutFromShape(dims, fortran).Ok?
    ensures var l := LayoutFromShape(dims, fortran).value;
      ElementCount(dims) == l.width * l.height * l.channels
      && WithinDisplayLimits(l.width, l.height, l.channels) && l.step == l.width
  {
    var none: seq<int> := [];
    assert dims[..2] == [dims[0], dims[1]] && dims[..2][..1] == [dims[0]] && dims[..1][..0] == none;
    assert ElementCount(dims[..1]) == dims[0];
    assert ElementCount(dims[..2]) == dims[0] * dims[1] == dims[1] * dims[0];
    if |dims| == 2 { assert dims[..2] == dims; }
  }
}
