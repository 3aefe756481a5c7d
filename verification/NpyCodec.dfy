/** The .npy writer and reader as the loops that carry them out. */
module NpyCodec {
  import opened Arithmetic
  import opened BufferGeometry
  import opened Bytes
  import opened NpyFormat
  import opened NpyText
  import opened Wrappers

  method WriteNpyHeader(descr: string, height: nat, width: nat, channels: nat) returns (ofs: seq<Byte>)
    ensures ofs == Header(descr, height, width, channels)
  {
    var dict := Dict(descr, height, width, channels);
    var unpadded := 10 + |dict| + 1;
    var padded := (unpadded + 63) / 64 * 64;
    dict := dict + Spaces(padded - unpadded);
    dict := dict + "\n";
    var headerLen := |dict| % 0x1_0000;
    ofs := MAGIC;
    ofs := ofs + [1, 0];
    ofs := ofs + LittleEndian(headerLen, 2);
    ofs := ofs + ToBytes(dict);
  }

  /** export_npy_raw(): false, with nothing written, for a type outside the enum. */
  method ExportNpy(data: seq<Byte>, t: int, width: nat, height: nat, channels: nat, step: nat)
    returns (ok: bool, ofs: seq<Byte>)
    requires HasRows(data, t, width, height, channels, step)
    ensures ok <==> IsKnown(t)
    ensures ofs == if ok then File(data, t, width, height, channels, step) else []
  {
    if !IsKnown(t) {
      return false, [];
    }
    ofs := WriteNpyHeader(Descr(t), height, width, channels);
    ofs := WriteRows(ofs, data, RowSize(t, channels, width), RowSize(t, channels, step), height);
    return true, ofs;
  }

  /** The row loop: each row's pixels, its padding left out. */
  method WriteRows(header: seq<Byte>, data: seq<Byte>, rowBytes: nat, rowStride: nat, height: nat)
    returns (ofs: seq<Byte>)
    requires height > 0 ==> (height - 1) * rowStride + rowBytes <= |data|
    ensures ofs == header + Rows(data, rowBytes, rowStride, height)
  {
    ofs := header;
    for y := 0 to height
      invariant y > 0 ==> (y - 1) * rowStride + rowBytes <= |data|
      invariant ofs == header + Rows(data, rowBytes, rowStride, y)
    {
      MulMonotone(y, height - 1, rowStride);
      MulMonotone(0, y, rowStride);
      ofs := ofs + data[y * rowStride..y * rowStride + rowBytes];
    }
  }

  method ReadU32Le(data: seq<Byte>, offset: nat) returns (value: nat)
    requires offset + 4 <= |data|
    ensures value == FromLittleEndian(data[offset..offset + 4])
  {
    value := 0;
    var weight := 1;
    for i := 0 to 4
      invariant weight == Power256(i)
      invariant value + weight * FromLittleEndian(data[offset + i..offset + 4]) == FromLittleEndian(data[offset..offset + 4])
    {
      var rest := data[offset + i..offset + 4];
      assert rest[0] == data[offset + i] && rest[1..] == data[offset + i + 1..offset + 4];
      Distribute(weight, rest[0] as int, FromLittleEndian(rest[1..]));
      value := value + data[offset + i] as int * weight;
      weight := weight * 256;
    }
    assert data[offset + 4..offset + 4] == [];
  }

  lemma Distribute(weight: int, digit: int, more: int)
    ensures weight * (digit + 256 * more) == digit * weight + weight * 256 * more
  {
    assert weight * (256 * more) == weight * 256 * more;
  }

  method ParseHeader(data: seq<Byte>) returns (r: Result<NpyHeader>)
    ensures r == ParseHeaderSpan(data)
  {
    if |data| < 10 {
      return Error(TooSmall);
    }
    for i := 0 to |MAGIC|
      invariant data[..i] == MAGIC[..i]
    {
      if data[i] != MAGIC[i] {
        assert data[..6][i] != MAGIC[i];
        return Error(BadMagic);
      }
    }
    assert MAGIC[..6] == MAGIC;
    var headerLen, dataOff;
    if data[6] == 1 {
      assert data[8..10][1..] == [data[9]];
      headerLen, dataOff := data[8] as int + 256 * data[9] as int, 10;
      SixteenBits(data);
    } else if data[6] >= 2 {
      if |data| < 12 {
        return Error(TooSmall);
      }
      headerLen := ReadU32Le(data, 8);
      dataOff := 12;
    } else {
      return Error(UnsupportedVersion);
    }
    return HeaderAt(data, dataOff, headerLen);
  }

  lemma SixteenBits(data: seq<Byte>)
    requires |data| >= 10
    ensures FromLittleEndian(data[8..10]) == data[8] as int + 256 * data[9] as int
  {
    var two := data[8..10];
    assert two[1..] == [data[9]] && two[1..][1..] == [];
    assert FromLittleEndian(two[1..]) == data[9] as int;
  }

  function Appended(dims: seq<int>, more: Result<seq<int>>): Result<seq<int>> {
    match more
    case Ok(rest) => Ok(dims + rest)
    case Error(e) => Error(e)
  }

  method SkipTo(inner: string, from: nat) returns (i: nat)
    requires from <= |inner|
    ensures from <= i <= |inner| && inner[i..] == SkipSeparators(inner[from..])
  {
    i := from;
    while i < |inner| && (inner[i] == ' ' || inner[i] == ',')
      invariant from <= i <= |inner|
      invariant SkipSeparators(inner[i..]) == SkipSeparators(inner[from..])
    {
      assert inner[i..][1..] == inner[i + 1..];
      i := i + 1;
    }
  }

  /** from_chars leaves a suffix of its input. */
  lemma FromCharsRest(s: string)
    requires FromChars(s).Some?
    ensures |FromChars(s).value.1| <= |s| && s[|s| - |FromChars(s).value.1|..] == FromChars(s).value.1
  {
  }

  /** The dimensions read so far, and what is left to read. */
  predicate DimsRead(inner: string, i: nat, dims: seq<int>) {
    i <= |inner| && ParseDims(inner) == Appended(dims, ParseDims(inner[i..]))
  }

  lemma NothingRead(inner: string)
    ensures DimsRead(inner, 0, [])
  {
    assert inner[0..] == inner;
    if ParseDims(inner).Ok? { assert [] + ParseDims(inner).value == ParseDims(inner).value; }
  }

  lemma AllRead(inner: string, i: nat, dims: seq<int>)
    requires DimsRead(inner, i, dims) && SkipSeparators(inner[i..]) == []
    ensures ParseDims(inner) == Ok(dims)
  {
    assert dims + [] == dims;
  }

  lemma BadRead(inner: string, i: nat, s: string, dims: seq<int>)
    requires DimsRead(inner, i, dims) && s == SkipSeparators(inner[i..]) && s != [] && FromChars(s) == None
    ensures ParseDims(inner) == Error(BadDimension)
  {
    assert ParseDims(inner[i..]) == Error(BadDimension);
  }

  lemma FirstRead(t: string, s: string, value: int, rest: string)
    requires s == SkipSeparators(t) && s != [] && FromChars(s) == Some((value, rest))
    ensures ParseDims(t) == Appended([value], ParseDims(rest))
  {
  }

  lemma RestOfRest(inner: string, start: nat, rest: string)
    requires start <= |inner| && |rest| <= |inner| - start && inner[start..][|inner| - start - |rest|..] == rest
    ensures inner[|inner| - |rest|..] == rest
  {
  }

  /** One value more, taken from what is left to read. */
  lemma OneMore(all: Result<seq<int>>, dims: seq<int>, left: Result<seq<int>>, value: int, more: Result<seq<int>>)
    requires all == Appended(dims, left) && left == Appended([value], more)
    ensures all == Appended(dims + [value], more)
  {
    if more.Ok? { assert dims + ([value] + more.value) == dims + [value] + more.value; }
  }

  lemma OneMoreRead(inner: string, i: nat, start: nat, dims: seq<int>, value: int, rest: string)
    requires DimsRead(inner, i, dims) && start < |inner| && inner[start..] == SkipSeparators(inner[i..])
    requires FromChars(inner[start..]) == Some((value, rest))
    ensures |rest| <= |inner| && DimsRead(inner, |inner| - |rest|, dims + [value])
  {
    FirstRead(inner[i..], inner[start..], value, rest);
    FromCharsRest(inner[start..]);
    RestOfRest(inner, start, rest);
    OneMore(ParseDims(inner), dims, ParseDims(inner[i..]), value, ParseDims(rest));
  }

  /** One number of the dimension list. */
  method TakeDim(inner: string, i: nat, start: nat, dims: seq<int>) returns (r: Result<(seq<int>, nat)>)
    requires i <= start < |inner| && DimsRead(inner, i, dims) && inner[start..] == SkipSeparators(inner[i..])
    ensures r.Error? ==> ParseDims(inner) == Error(r.problem)
    ensures r.Ok? ==> i < r.value.1 && DimsRead(inner, r.value.1, r.value.0)
  {
    var taken := FromChars(inner[start..]);
    if taken.None? {
      BadRead(inner, i, inner[start..], dims);
      return Error(BadDimension);
    }
    OneMoreRead(inner, i, start, dims, taken.value.0, taken.value.1);
    return Ok((dims + [taken.value.0], |inner| - |taken.value.1|));
  }

  /** The dimension loop: skip separators, take a number, repeat. */
  method ExtractDims(inner: string) returns (r: Result<seq<int>>)
    ensures r == ParseDims(inner)
  {
    var dims: seq<int> := [];
    var i := 0;
    NothingRead(inner);
    while i < |inner|
      invariant DimsRead(inner, i, dims)
      decreases |inner| - i
    {
      var start := SkipTo(inner, i);
      if start >= |inner| {
        AllRead(inner, i, dims);
        return Ok(dims);
      }
      var taken := TakeDim(inner, i, start, dims);
      if taken.Error? {
        return Error(taken.problem);
      }
      dims, i := taken.value.0, taken.value.1;
    }
    AllRead(inner, i, dims);
    return Ok(dims);
  }

  method DecodeNpy(data: seq<Byte>) returns (r: Result<NpyArray>)
    ensures r == Decode(data)
  {
    var parsed := ParseHeader(data);
    match parsed
    case Error(e) => return Error(e);
    case Ok(header) =>
      var described := ReadDict(header.text);
      match described
      case Error(e) => return Error(e);
      case Ok(d) =>
        var elementCount := 1;
        for k := 0 to |d.dims|
          invariant elementCount == ElementCount(d.dims[..k])
        {
          assert d.dims[..k + 1][..k] == d.dims[..k];
          elementCount := elementCount * d.dims[k];
        }
        assert d.dims[..|d.dims|] == d.dims;
        var expected := elementCount * d.dtype.itemsize;
        OffsetInside(data);
        if |data| - header.payloadOffset != expected {
          return Error(SizeMismatch);
        }
        return Ok(NpyArray(d.dtype.bufferType, d.layout, data[header.payloadOffset..]));
  }

  lemma OffsetInside(data: seq<Byte>)
    requires ParseHeaderSpan(data).Ok?
    ensures ParseHeaderSpan(data).value.payloadOffset <= |data|
  {
  }

  method ReadDict(header: string) returns (r: Result<Described>)
    ensures r == Describe(header)
  {
    match ExtractQuoted(header, "'descr'")
    case Error(e) => return Error(e);
    case Ok(descr) =>
      match MapDtype(descr)
      case Error(e) => return Error(e);
      case Ok(dtype) =>
        match ExtractFortran(header)
        case Error(e) => return Error(e);
        case Ok(fortran) =>
          match ShapeInner(header)
          case Error(e) => return Error(e);
          case Ok(inner) =>
            var shape := ExtractDims(inner);
            match shape
            case Error(e) => return Error(e);
            case Ok(dims) =>
              match LayoutFromShape(dims, fortran)
              case Error(e) => return Error(e);
              case Ok(layout) => return Ok(Described(dtype, dims, layout));
  }

  /** With an accepted shape the element count is small: nothing the source
      computes from it leaves 64 bits. */
  lemma ElementCountIsSmall(header: string)
    requires Describe(header).Ok?
    ensures var d := Describe(header).value;
      0 < ElementCount(d.dims) * d.dtype.itemsize <= 131072 * 131072 * 4 * 8
  {
    DescribedCount(header);
    var d := Describe(header).value;
    var l := d.layout;
    MulMonotone(l.width, 131072, l.height);
    MulMonotone(l.height, 131072, 131072);
    MulMonotone(1, l.width, l.height);
    MulMonotone(l.width * l.height, 131072 * 131072, l.channels);
    MulMonotone(l.channels, 4, 131072 * 131072);
    MulMonotone(1, l.width * l.height, l.channels);
    MulMonotone(l.width * l.height * l.channels, 131072 * 131072 * 4, d.dtype.itemsize);
    MulMonotone(1, l.width * l.height * l.channels, d.dtype.itemsize);
  }

  /** Written, then read: the buffer without its padding. */
  method ExportThenDecode(data: seq<Byte>, t: int, width: nat, height: nat, channels: nat, step: nat)
    returns (r: Result<NpyArray>)
    requires IsKnown(t) && WithinDisplayLimits(width, height, channels)
    requires HasRows(data, t, width, height, channels, step)
    ensures r == Ok(NpyArray(StoredType(t), Layout(width, height, channels, width, false),
                             Rows(data, RowSize(t, channels, width), RowSize(t, channels, step), height)))
  {
    var ok, file := ExportNpy(data, t, width, height, channels, step);
    NpyRoundTrip(data, t, width, height, channels, step);
    r := DecodeNpy(file);
  }
}
