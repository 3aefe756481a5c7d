/**
 Which files the .npy reader refuses, and for which of its reasons.
 */
module NpyRefusals {
  import opened BufferGeometry
  import opened Bytes
  import opened NpyFormat
  import opened NpyText
  import opened Wrappers

  predicate Occurs(s: string, pattern: string) { exists k :: 0 <= k <= |s| && OccursAt(s, pattern, k) }

  lemma FoundExactly(s: string, pattern: string)
    ensures IndexOf(s, pattern).Some? <==> Occurs(s, pattern)
  {
    IndexOfIsFirst(s, pattern);
  }

  // ---------------------------------------------------------------------
  // Before the dict
  // ---------------------------------------------------------------------

  /** The length a file with this many bytes of preamble gives its dict. */
  function StatedLength(data: seq<Byte>): nat
    requires |data| >= 12 || (|data| >= 10 && data[6] == 1)
  {
    FromLittleEndian(data[8..if data[6] == 1 then 10 else 12])
  }

  predicate HasPreamble(data: seq<Byte>) {
    && |data| >= 10 && data[..6] == MAGIC && data[6] >= 1 && (data[6] == 1 || |data| >= 12)
  }

  /** Why a file is refused before its dict is looked at. */
  lemma PreambleRefusedExactly(data: seq<Byte>)
    ensures var r := ParseHeaderSpan(data);
      && (r == Error(BadMagic) <==> |data| >= 10 && data[..6] != MAGIC)
      && (r == Error(UnsupportedVersion) <==> |data| >= 10 && data[..6] == MAGIC && data[6] == 0)
      && (r == Error(TooSmall) <==> |data| < 10 || (data[..6] == MAGIC && data[6] >= 2 && |data| < 12))
      && (r == Error(HeaderTooLarge) <==> HasPreamble(data) && StatedLength(data) > 65536)
      && (r == Error(HeaderPastEnd) <==>
            HasPreamble(data) && StatedLength(data) <= 65536
            && (if data[6] == 1 then 10 else 12) + StatedLength(data) > |data|)
      && (r.Error? ==> r.problem in {BadMagic, UnsupportedVersion, TooSmall, HeaderTooLarge, HeaderPastEnd})
  {
  }

  // ---------------------------------------------------------------------
  // Numbers
  // ---------------------------------------------------------------------

  /** A printed number is read exactly while it fits an int, negative or not. */
  lemma IntsReadExactly(n: nat, rest: string)
    requires rest != [] ==> !IsDigit(rest[0])
    ensures FromChars(Print(n) + rest) == if n < 0x8000_0000 then Some((n, rest)) else None
    ensures var minus: int := 0 - n;
            FromChars("-" + (Print(n) + rest)) == if n <= 0x8000_0000 then Some((minus, rest)) else None
  {
    var s := Print(n) + rest;
    assert s[0] == Print(n)[0] && Print(n)[0] in Print(n);
    LeadingDigitsAre(Print(n), rest);
    assert s[..|Print(n)|] == Print(n) && s[|Print(n)|..] == rest;
    PrintedNumber(n);
    assert ("-" + s)[1..] == s;
  }

  // ---------------------------------------------------------------------
  // Types
  // ---------------------------------------------------------------------

  function KindLetter(t: int): char {
    if t == UNSIGNED_BYTE || t == UNSIGNED_SHORT then 'u' else if t == SHORT || t == INT32 then 'i' else 'f'
  }

  /** A descriptor names a type exactly when it is not big-endian and has the type's
      letter and, to its end, the type's size; every other one is refused. */
  lemma DtypeReadExactly(descr: string, t: int)
    requires IsKnown(t)
    ensures MapDtype(descr) == Ok(DType(t, TypeSize(t))) <==>
      |descr| >= 3 && descr[0] != '>' && descr[1] == KindLetter(t) && FromChars(descr[2..]) == Some((TypeSize(t), ""))
    ensures MapDtype(descr).Error? ==> MapDtype(descr).problem == BadDtype
    ensures MapDtype(descr).Ok? ==>
      IsKnown(MapDtype(descr).value.bufferType) && MapDtype(descr).value.itemsize == TypeSize(MapDtype(descr).value.bufferType)
  {
  }

  // ---------------------------------------------------------------------
  // In the dict
  // ---------------------------------------------------------------------

  /** A missing key is reported exactly when the key is not in the dict at all. */
  lemma MissingKeyExactly(header: string, key: string)
    ensures ExtractQuoted(header, key) == Error(MissingKey) <==> !Occurs(header, key)
    ensures ExtractQuoted(header, key).Error? ==> ExtractQuoted(header, key).problem in {MissingKey, MalformedValue}
  {
    FoundExactly(header, key);
    FoundFromTheStart(header, key);
  }

  lemma FoundFromTheStart(header: string, key: string)
    ensures Find(header, key, 0) == IndexOf(header, key)
  {
    assert header[0..] == header;
  }

  /** After its key and text without quotes, the header has `v` between quotes. */
  predicate Quotes(header: string, key: string, gap: string, v: string, rest: string) {
    && IndexOf(header, key).Some? && IndexOf(header, key).value + |key| <= |header|
    && header[IndexOf(header, key).value + |key|..] == gap + ("'" + (v + ("'" + rest)))
    && QuoteFree(gap) && QuoteFree(v)
  }

  /** The first quote at or after `from`, with the text before it. */
  lemma QuoteSplits(text: string, from: nat, quote: nat)
    requires from <= |text| && Find(text, "'", from) == Some(quote)
    ensures from <= quote < |text| && QuoteFree(text[from..quote])
    ensures text[from..] == text[from..quote] + ("'" + text[quote + 1..])
  {
    var tail, k := text[from..], quote - from;
    IndexOfIsFirst(tail, "'");
    assert tail[k..][..1] == "'" && tail[k] == text[quote];
    forall j | 0 <= j < k ensures tail[j] != '\'' {
      assert !OccursAt(tail, "'", j);
      assert tail[j..][..1] == [tail[j]];
    }
    assert text[from..quote] == tail[..k];
  }

  lemma QuotesAreThere(header: string, key: string, v: string) returns (gap: string, rest: string)
    requires ExtractQuoted(header, key) == Ok(v)
    ensures Quotes(header, key, gap, v, rest)
  {
    FoundFromTheStart(header, key);
    IndexOfIsFirst(header, key);
    var from := IndexOf(header, key).value + |key|;
    var quote := Find(header, "'", from).value;
    var end := Find(header, "'", quote + 1).value;
    QuoteSplits(header, from, quote);
    QuoteSplits(header, quote + 1, end);
    gap, rest := header[from..quote], header[end + 1..];
  }

  lemma QuotesAreRead(header: string, key: string, gap: string, v: string, rest: string)
    requires Quotes(header, key, gap, v, rest)
    ensures ExtractQuoted(header, key) == Ok(v)
  {
    FoundFromTheStart(header, key);
    ValueFound(header, IndexOf(header, key).value + |key|, gap, v, rest);
  }

  ghost predicate QuotedAs(header: string, key: string, v: string) { exists gap, rest :: Quotes(header, key, gap, v, rest) }

  /** A quoted value is read exactly when it is what stands between the first two quotes
      after its key. */
  lemma QuotedReadExactly(header: string, key: string, v: string)
    ensures ExtractQuoted(header, key) == Ok(v) <==> QuotedAs(header, key, v)
  {
    if ExtractQuoted(header, key) == Ok(v) {
      var gap, rest := QuotesAreThere(header, key, v);
      assert QuotedAs(header, key, v);
    }
    if QuotedAs(header, key, v) {
      var gap, rest :| Quotes(header, key, gap, v, rest);
      QuotesAreRead(header, key, gap, v, rest);
    }
  }

  lemma MissingOrderExactly(header: string)
    ensures ExtractFortran(header) == Error(MissingKey) <==> !Occurs(header, "'fortran_order'")
    ensures ExtractFortran(header).Error? ==> ExtractFortran(header).problem == MissingKey
  {
    FoundExactly(header, "'fortran_order'");
    FoundFromTheStart(header, "'fortran_order'");
  }

  /** `True` stands before any comma. */
  predicate TrueBeforeComma(text: string) {
    exists k :: 0 <= k <= |text| && OccursAt(text, "True", k) && ',' !in text[..k]
  }

  lemma FirstTrue(text: string)
    ensures TrueBeforeComma(text) <==>
      && IndexOf(text, "True").Some?
      && (IndexOf(text, ",").None? || IndexOf(text, "True").value < IndexOf(text, ",").value)
  {
    IndexOfIsFirst(text, "True");
    IndexOfIsFirst(text, ",");
    forall j | 0 <= j < |text| ensures OccursAt(text, ",", j) <==> text[j] == ',' { CommaAt(text, j); }
    if k :| 0 <= k <= |text| && OccursAt(text, "True", k) && ',' !in text[..k] {
      TrueIsNoComma(text, k);
      if IndexOf(text, ",").Some? {
        var c := IndexOf(text, ",").value;
        CommaAt(text, c);
        assert IndexOf(text, "True").value <= k;
      }
    }
  }

  lemma CommaAt(text: string, j: nat)
    ensures OccursAt(text, ",", j) <==> j < |text| && text[j] == ','
  {
    if j < |text| { assert text[j..][..1] == [text[j]]; }
  }

  lemma TrueIsNoComma(text: string, k: nat)
    requires OccursAt(text, "True", k)
    ensures k < |text| && text[k] == 'T'
  {
    assert text[k..][0] == "True"[0];
  }

  /** The order is Fortran's exactly when, from the key on, True stands before any
      comma. */
  lemma OrderReadExactly(header: string)
    requires Occurs(header, "'fortran_order'")
    ensures IndexOf(header, "'fortran_order'").Some? && IndexOf(header, "'fortran_order'").value <= |header|
    ensures ExtractFortran(header) == Ok(TrueBeforeComma(header[IndexOf(header, "'fortran_order'").value..]))
  {
    FoundExactly(header, "'fortran_order'");
    IndexOfIsFirst(header, "'fortran_order'");
    FoundFromTheStart(header, "'fortran_order'");
    FirstTrue(header[IndexOf(header, "'fortran_order'").value..]);
  }

  lemma {:induction false} BadDimensionsOnly(inner: string)
    ensures ParseDims(inner).Error? ==> ParseDims(inner).problem == BadDimension
    decreases |inner|
  {
    var s := SkipSeparators(inner);
    if s != [] && FromChars(s).Some? { BadDimensionsOnly(FromChars(s).value.1); }
  }

  /** The shape is missing, not in parentheses, or not made of numbers. */
  lemma MissingShapeExactly(header: string)
    ensures ExtractShape(header) == Error(MissingKey) <==> !Occurs(header, "'shape'")
    ensures ExtractShape(header) == Error(MalformedShape) <==>
              Occurs(header, "'shape'") && Parenthesized(header, IndexOf(header, "'shape'").value).Error?
    ensures ExtractShape(header).Error? ==> ExtractShape(header).problem in {MissingKey, MalformedShape, BadDimension}
  {
    FoundExactly(header, "'shape'");
    FoundFromTheStart(header, "'shape'");
    ShapeErrors(header, Find(header, "'shape'", 0));
  }

  lemma ShapeErrors(header: string, at: Option<nat>)
    requires at == Find(header, "'shape'", 0)
    ensures ExtractShape(header) ==
      match at
      case None => Error(MissingKey)
      case Some(from) =>
        match Parenthesized(header, from)
        case Error(e) => Error(e)
        case Ok(inner) => ParseDims(inner)
    ensures at.Some? && Parenthesized(header, at.value).Ok? ==>
      var dims := ParseDims(Parenthesized(header, at.value).value); dims.Error? ==> dims.problem == BadDimension
    ensures at.Some? && Parenthesized(header, at.value).Error? ==>
      Parenthesized(header, at.value).problem == MalformedShape
  {
    if at.Some? && Parenthesized(header, at.value).Ok? { BadDimensionsOnly(Parenthesized(header, at.value).value); }
  }

  /** Which shapes are refused, and how. */
  lemma ShapeRefusedExactly(dims: seq<int>, fortran: bool)
    ensures var r := LayoutFromShape(dims, fortran);
      && (r == Error(UnsupportedRank) <==> |dims| != 2 && |dims| != 3)
      && (r == Error(FortranCube) <==> |dims| == 3 && fortran)
      && (r == Error(OutOfRange) <==>
            && (|dims| == 2 || (|dims| == 3 && !fortran))
            && !(1 <= dims[0] <= 131072 && 1 <= dims[1] <= 131072 && (|dims| == 3 ==> 1 <= dims[2] <= 4)))
      && (r.Error? ==> r.problem in {UnsupportedRank, FortranCube, OutOfRange})
  {
  }

  /** The first complaint about a dict is the one reported: of its descriptor, its
      order, its shape, its geometry, in turn. */
  lemma DictRefusedInTurn(header: string)
    ensures var r := Describe(header);
      var descr, order, shape := ExtractQuoted(header, "'descr'"), ExtractFortran(header), ExtractShape(header);
      && (descr.Error? ==> r == Error(descr.problem))
      && (descr.Ok? && MapDtype(descr.value).Error? ==> r == Error(BadDtype))
      && (descr.Ok? && MapDtype(descr.value).Ok? && order.Error? ==> r == Error(MissingKey))
      && (descr.Ok? && MapDtype(descr.value).Ok? && order.Ok? && shape.Error? ==> r == Error(shape.problem))
      && (descr.Ok? && MapDtype(descr.value).Ok? && order.Ok? && shape.Ok? ==>
            match LayoutFromShape(shape.value, order.value)
            case Error(e) => r == Error(e)
            case Ok(layout) => r == Ok(Described(MapDtype(descr.value).value, shape.value, layout)))
  {
  }

  /** A payload is refused exactly when its size is not the shape's. */
  lemma SizeRefusedExactly(data: seq<Byte>)
    requires ParseHeaderSpan(data).Ok? && Describe(ParseHeaderSpan(data).value.text).Ok?
    ensures var parsed := ParseHeaderSpan(data).value;
      var d := Describe(parsed.text).value;
      Decode(data) == Error(SizeMismatch) <==>
        |data| - parsed.payloadOffset != d.layout.width * d.layout.height * d.layout.channels * TypeSize(d.dtype.bufferType)
  {
    DescribedCount(ParseHeaderSpan(data).value.text);
  }
}
