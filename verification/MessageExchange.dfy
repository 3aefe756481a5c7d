/**
 The bridge's message stream: fields written back to back, each variable-length
 one behind an eight-byte length, and read from a transport that may deliver
 any non-empty part of what was asked for.
 */
module MessageExchange {
  import opened Bytes
  import opened BufferGeometry
  import opened ByteStreams

  const MAX_STRING_BYTES: nat := 0x100_0000

  /** A field of a message. Fixed-width values other than int are carried as
      their bytes. */
  datatype Field =
    | Int(value: Int32)
    | Fixed(bytes: seq<Byte>)
    | Text(text: seq<Byte>)
    | Payload(payload: seq<Byte>)
    | Texts(texts: seq<seq<Byte>>)

  /** What the reader asks for. */
  datatype Shape = IntShape | FixedShape(width: nat) | TextShape | PayloadShape | TextsShape

  function ShapeOf(f: Field): Shape {
    match f
    case Int(_) => IntShape
    case Fixed(bytes) => FixedShape(|bytes|)
    case Text(_) => TextShape
    case Payload(_) => PayloadShape
    case Texts(_) => TextsShape
  }

  datatype Result<+T> = Ok(value: T) | TimedOut | Refused
  /** A result together with the bytes left on the wire. */
  datatype Outcome<+T> = Outcome(result: Result<T>, rest: seq<Byte>)

  function Map<A, B>(o: Outcome<A>, f: A -> B): Outcome<B> {
    match o.result
    case Ok(v) => Outcome(Ok(f(v)), o.rest)
    case TimedOut => Outcome(TimedOut, o.rest)
    case Refused => Outcome(Refused, o.rest)
  }

  function Prepend<T>(first: T, o: Outcome<seq<T>>): Outcome<seq<T>> {
    match o.result
    case Ok(more) => Outcome(Ok([first] + more), o.rest)
    case TimedOut => Outcome(TimedOut, o.rest)
    case Refused => Outcome(Refused, o.rest)
  }

  lemma PrependWhole<T>(all: seq<T>, rest: seq<Byte>)
    requires all != []
    ensures Prepend(all[0], Outcome(Ok(all[1..]), rest)) == Outcome(Ok(all), rest)
  {
    assert [all[0]] + all[1..] == all;
  }

  /** static_cast<int> of a 64-bit count. */
  function AsInt(n: nat): (i: Int32) {
    var low := n % 0x1_0000_0000;
    if low <= INT_MAX then low else low - 0x1_0000_0000
  }

  function EncodeTexts(texts: seq<seq<Byte>>): seq<Byte> { LittleEndian(|texts|, 8) + EncodeEach(texts) }

  function EncodeInt(i: Int32): (s: seq<Byte>)
    ensures |s| == 4
  {
    LittleEndian(if i >= 0 then i else i + 0x1_0000_0000, 4)
  }

  function EncodeSized(s: seq<Byte>): seq<Byte> { LittleEndian(|s|, 8) + s }

  function EncodeEach(texts: seq<seq<Byte>>): seq<Byte> {
    if texts == [] then [] else EncodeSized(texts[0]) + EncodeEach(texts[1..])
  }

  function Encode(f: Field): seq<Byte> {
    match f
    case Int(i) => EncodeInt(i)
    case Fixed(bytes) => bytes
    case Text(t) => EncodeSized(t)
    case Payload(p) => EncodeSized(p)
    case Texts(ts) => EncodeTexts(ts)
  }

  function Take(n: nat, input: seq<Byte>): Outcome<seq<Byte>> {
    if |input| >= n then Outcome(Ok(input[..n]), input[n..]) else Outcome(TimedOut, [])
  }

  function DecodeSize(input: seq<Byte>): Outcome<nat> {
    Map(Take(8, input), s => FromLittleEndian(s))
  }

  function DecodeSized(limit: nat, input: seq<Byte>): Outcome<seq<Byte>> {
    var size := DecodeSize(input);
    match size.result
    case TimedOut => Outcome(TimedOut, size.rest)
    case Refused => Outcome(Refused, size.rest)
    case Ok(n) => if n > limit then Outcome(Refused, size.rest) else Take(n, size.rest)
  }

  function DecodeEach(count: nat, input: seq<Byte>): Outcome<seq<seq<Byte>>> {
    if count == 0 then Outcome(Ok([]), input)
    else
      var first := DecodeSized(MAX_STRING_BYTES, input);
      match first.result
      case TimedOut => Outcome(TimedOut, first.rest)
      case Refused => Outcome(Refused, first.rest)
      case Ok(t) => Prepend(t, DecodeEach(count - 1, first.rest))
  }

  /** The list loop compares an int counter with the count cast to int. */
  function Repetitions(count: nat): nat { if AsInt(count) > 0 then AsInt(count) else 0 }

  function DecodeTexts(input: seq<Byte>): Outcome<seq<seq<Byte>>> {
    var size := DecodeSize(input);
    match size.result
    case TimedOut => Outcome(TimedOut, size.rest)
    case Refused => Outcome(Refused, size.rest)
    case Ok(n) => DecodeEach(Repetitions(n), size.rest)
  }

  function Decode(shape: Shape, input: seq<Byte>): Outcome<Field> {
    match shape
    case IntShape => Map(Take(4, input), s => Int(AsInt(FromLittleEndian(s))))
    case FixedShape(n) => Map(Take(n, input), s => Fixed(s))
    case TextShape => Map(DecodeSized(MAX_STRING_BYTES, input), t => Text(t))
    case PayloadShape => Map(DecodeSized(MAX_BUFFER_BYTES, input), p => Payload(p))
    case TextsShape => Map(DecodeTexts(input), ts => Texts(ts))
  }

  predicate EachAtMost(texts: seq<seq<Byte>>, limit: nat) {
    forall i :: 0 <= i < |texts| ==> |texts[i]| <= limit
  }

  /** Sizes are 64-bit on the sending side. */
  predicate Representable(f: Field) {
    match f
    case Int(_) | Fixed(_) => true
    case Text(t) => |t| <= SIZE_MAX
    case Payload(p) => |p| <= SIZE_MAX
    case Texts(ts) => |ts| <= SIZE_MAX && EachAtMost(ts, SIZE_MAX)
  }

  /** What the reader's limits let through. */
  predicate WithinLimits(f: Field) {
    match f
    case Int(_) | Fixed(_) => true
    case Text(t) => |t| <= MAX_STRING_BYTES
    case Payload(p) => |p| <= MAX_BUFFER_BYTES
    case Texts(ts) => |ts| <= INT_MAX && EachAtMost(ts, MAX_STRING_BYTES)
  }

  predicate AllWithinLimits(fields: seq<Field>) {
    forall i :: 0 <= i < |fields| ==> WithinLimits(fields[i])
  }

  // ---------------------------------------------------------------------
  // One field
  // ---------------------------------------------------------------------

  lemma TakeExactly(s: seq<Byte>, rest: seq<Byte>)
    ensures Take(|s|, s + rest) == Outcome(Ok(s), rest)
  {
    assert (s + rest)[..|s|] == s && (s + rest)[|s|..] == rest;
  }

  lemma SizeRoundTrip(n: nat, rest: seq<Byte>)
    requires n <= SIZE_MAX
    ensures DecodeSize(LittleEndian(n, 8) + rest) == Outcome(Ok(n), rest)
  {
    EightBytes(n);
    TakeExactly(LittleEndian(n, 8), rest);
  }

  /** A sized run is read back whole exactly when it is within the limit, and is
      otherwise refused with nothing but its length consumed. */
  lemma SizedRoundTrip(limit: nat, s: seq<Byte>, rest: seq<Byte>)
    requires |s| <= SIZE_MAX
    ensures DecodeSized(limit, EncodeSized(s) + rest)
         == if |s| <= limit then Outcome(Ok(s), rest) else Outcome(Refused, s + rest)
  {
    assert EncodeSized(s) + rest == LittleEndian(|s|, 8) + (s + rest);
    SizeRoundTrip(|s|, s + rest);
  }

  /** One text off the front of a list. */
  lemma EachStep(count: nat, first: seq<Byte>, more: seq<Byte>)
    requires |first| <= SIZE_MAX
    ensures DecodeEach(count + 1, EncodeSized(first) + more)
         == if |first| <= MAX_STRING_BYTES then Prepend(first, DecodeEach(count, more))
            else Outcome(Refused, first + more)
  {
    SizedRoundTrip(MAX_STRING_BYTES, first, more);
  }

  lemma EachSplit(texts: seq<seq<Byte>>, rest: seq<Byte>)
    requires texts != []
    ensures EncodeEach(texts) + rest == EncodeSized(texts[0]) + (EncodeEach(texts[1..]) + rest)
  {
  }

  lemma EachFrom(count: nat, first: seq<Byte>, more: seq<Byte>, input: seq<Byte>)
    requires |first| <= SIZE_MAX && input == EncodeSized(first) + more
    ensures DecodeEach(count + 1, input)
         == if |first| <= MAX_STRING_BYTES then Prepend(first, DecodeEach(count, more)) else Outcome(Refused, first + more)
  {
    EachStep(count, first, more);
  }

  lemma {:induction false} EachRoundTrip(texts: seq<seq<Byte>>, rest: seq<Byte>)
    requires EachAtMost(texts, MAX_STRING_BYTES)
    ensures DecodeEach(|texts|, EncodeEach(texts) + rest) == Outcome(Ok(texts), rest)
    decreases |texts|
  {
    var input := EncodeEach(texts) + rest;
    if texts == [] {
      assert input == rest;
    } else {
      var more := EncodeEach(texts[1..]) + rest;
      EachRoundTrip(texts[1..], rest);
      EachSplit(texts, rest);
      EachFrom(|texts| - 1, texts[0], more, input);
      PrependWhole(texts, rest);
    }
  }

  lemma {:induction false} EachRefused(texts: seq<seq<Byte>>, k: nat, rest: seq<Byte>)
    requires EachAtMost(texts, SIZE_MAX)
    requires k < |texts| && |texts[k]| > MAX_STRING_BYTES
    ensures DecodeEach(|texts|, EncodeEach(texts) + rest).result == Refused
    decreases |texts|
  {
    var input, more := EncodeEach(texts) + rest, EncodeEach(texts[1..]) + rest;
    EachSplit(texts, rest);
    EachFrom(|texts| - 1, texts[0], more, input);
    if |texts[0]| <= MAX_STRING_BYTES { EachRefused(texts[1..], k - 1, rest); }
  }

  lemma {:induction false} EachLength(count: nat, input: seq<Byte>)
    ensures DecodeEach(count, input).result.Ok? ==> |DecodeEach(count, input).result.value| == count
    decreases count
  {
    if count > 0 { EachLength(count - 1, DecodeSized(MAX_STRING_BYTES, input).rest); }
  }

  lemma IntBytes(i: Int32)
    ensures AsInt(FromLittleEndian(EncodeInt(i))) == i
  {
    var n := if i >= 0 then i else i + 0x1_0000_0000;
    FourBytes(n);
    assert AsInt(n) == i;
  }

  lemma IntRoundTrip(i: Int32, rest: seq<Byte>)
    ensures Decode(IntShape, EncodeInt(i) + rest) == Outcome(Ok(Int(i)), rest)
  {
    IntBytes(i);
    TakeExactly(EncodeInt(i), rest);
  }

  lemma TextsRoundTrip(ts: seq<seq<Byte>>, rest: seq<Byte>)
    requires Representable(Texts(ts))
    ensures DecodeTexts(EncodeTexts(ts) + rest) == Outcome(Ok(ts), rest) <==> WithinLimits(Texts(ts))
  {
    var body := EncodeEach(ts) + rest;
    assert EncodeTexts(ts) + rest == LittleEndian(|ts|, 8) + body;
    SizeRoundTrip(|ts|, body);
    CountTooLarge(|ts|);
    if |ts| > INT_MAX {
      EachLength(Repetitions(|ts|), body);
    } else if k :| 0 <= k < |ts| && |ts[k]| > MAX_STRING_BYTES {
      EachRefused(ts, k, rest);
    } else {
      EachRoundTrip(ts, rest);
    }
  }

  lemma CountTooLarge(n: nat)
    ensures Repetitions(n) <= INT_MAX && (Repetitions(n) == n <==> n <= INT_MAX)
  {
  }

  /** Every field the sender can write is read back, leaving the next field
      aligned, exactly when it is within the reader's limits. */
  lemma FieldRoundTrip(f: Field, rest: seq<Byte>)
    requires Representable(f)
    ensures Decode(ShapeOf(f), Encode(f) + rest) == Outcome(Ok(f), rest) <==> WithinLimits(f)
  {
    match f
    case Int(i) => IntRoundTrip(i, rest);
    case Fixed(bytes) => TakeExactly(bytes, rest);
    case Text(t) => SizedRoundTrip(MAX_STRING_BYTES, t, rest);
    case Payload(p) => SizedRoundTrip(MAX_BUFFER_BYTES, p, rest);
    case Texts(ts) => TextsRoundTrip(ts, rest);
  }

  /** An over-limit length is refused before any of its bytes are consumed. */
  lemma RefusalConsumesOnlyTheLength(f: Field, rest: seq<Byte>)
    requires Representable(f) && (f.Text? || f.Payload?) && !WithinLimits(f)
    ensures Decode(ShapeOf(f), Encode(f) + rest)
         == Outcome(Refused, (if f.Text? then f.text else f.payload) + rest)
  {
    match f
    case Text(t) => SizedRoundTrip(MAX_STRING_BYTES, t, rest);
    case Payload(p) => SizedRoundTrip(MAX_BUFFER_BYTES, p, rest);
  }

  // ---------------------------------------------------------------------
  // Proper prefixes
  // ---------------------------------------------------------------------

  lemma SizedPrefix(limit: nat, s: seq<Byte>, input: seq<Byte>)
    requires |s| <= limit && |s| <= SIZE_MAX && input < EncodeSized(s)
    ensures DecodeSized(limit, input) == Outcome(TimedOut, [])
  {
    if |input| >= 8 {
      var rest := SplitPrefix(LittleEndian(|s|, 8), s, input);
      SizeRoundTrip(|s|, rest);
    }
  }

  lemma {:induction false} EachPrefix(texts: seq<seq<Byte>>, input: seq<Byte>)
    requires EachAtMost(texts, MAX_STRING_BYTES)
    requires input < EncodeEach(texts)
    ensures DecodeEach(|texts|, input) == Outcome(TimedOut, [])
    decreases |texts|
  {
    var first := EncodeSized(texts[0]);
    if |input| < |first| {
      ShortPrefix(first, EncodeEach(texts[1..]), input);
      SizedPrefix(MAX_STRING_BYTES, texts[0], input);
    } else {
      var rest := SplitPrefix(first, EncodeEach(texts[1..]), input);
      SizedRoundTrip(MAX_STRING_BYTES, texts[0], rest);
      EachPrefix(texts[1..], rest);
    }
  }

  /** Cut a field anywhere before its end and the reader times out, having
      consumed what there was. */
  lemma ProperPrefixTimesOut(f: Field, input: seq<Byte>)
    requires WithinLimits(f) && input < Encode(f)
    ensures Decode(ShapeOf(f), input) == Outcome(TimedOut, [])
  {
    match f
    case Int(_) =>
    case Fixed(_) =>
    case Text(t) => SizedPrefix(MAX_STRING_BYTES, t, input);
    case Payload(p) => SizedPrefix(MAX_BUFFER_BYTES, p, input);
    case Texts(ts) => TextsPrefix(ts, input);
  }

  lemma TextsPrefix(ts: seq<seq<Byte>>, input: seq<Byte>)
    requires WithinLimits(Texts(ts)) && input < EncodeTexts(ts)
    ensures DecodeTexts(input) == Outcome(TimedOut, [])
  {
    if |input| >= 8 {
      var rest := SplitPrefix(LittleEndian(|ts|, 8), EncodeEach(ts), input);
      SizeRoundTrip(|ts|, rest);
      EachPrefix(ts, rest);
    }
  }

  // ---------------------------------------------------------------------
  // What was read is what was written
  // ---------------------------------------------------------------------

  lemma SizeIsWritten(input: seq<Byte>)
    requires DecodeSize(input).result.Ok?
    ensures DecodeSize(input).result.value <= SIZE_MAX
    ensures input == LittleEndian(DecodeSize(input).result.value, 8) + DecodeSize(input).rest
  {
    EightBytesOnto(input[..8]);
  }

  lemma SizedIsWritten(limit: nat, input: seq<Byte>)
    requires DecodeSized(limit, input).result.Ok?
    ensures input == EncodeSized(DecodeSized(limit, input).result.value) + DecodeSized(limit, input).rest
  {
    SizeIsWritten(input);
  }

  lemma {:induction false} EachIsWritten(count: nat, input: seq<Byte>)
    requires DecodeEach(count, input).result.Ok?
    ensures input == EncodeEach(DecodeEach(count, input).result.value) + DecodeEach(count, input).rest
    decreases count
  {
    if count > 0 {
      var first := DecodeSized(MAX_STRING_BYTES, input);
      SizedIsWritten(MAX_STRING_BYTES, input);
      EachIsWritten(count - 1, first.rest);
      var tail := DecodeEach(count - 1, first.rest);
      var texts := [first.result.value] + tail.result.value;
      assert texts[1..] == tail.result.value;
      assert EncodeEach(texts) == EncodeSized(texts[0]) + EncodeEach(texts[1..]);
    }
  }

  lemma IntIsWritten(input: seq<Byte>)
    requires |input| >= 4
    ensures EncodeInt(AsInt(FromLittleEndian(input[..4]))) == input[..4]
  {
    FourBytesOnto(input[..4]);
  }

  lemma TextsAreWritten(input: seq<Byte>)
    requires DecodeTexts(input).result.Ok?
    ensures input == EncodeTexts(DecodeTexts(input).result.value) + DecodeTexts(input).rest
            <==> DecodeSize(input).result.value <= INT_MAX
  {
    SizeIsWritten(input);
    var size, o := DecodeSize(input), DecodeTexts(input);
    var declared := size.result.value;
    var count := Repetitions(declared);
    EachIsWritten(count, size.rest);
    EachLength(count, size.rest);
    CountTooLarge(declared);
    assert EncodeTexts(o.result.value) + o.rest == LittleEndian(count, 8) + size.rest;
    SizeRoundTrip(count, size.rest);
  }

  /** Whatever the reader accepts is the encoding of what it returns, byte for
      byte -- except that a list whose declared count does not fit an int is
      accepted as one of another length. */
  lemma AcceptedIsTheEncoding(shape: Shape, input: seq<Byte>)
    requires Decode(shape, input).result.Ok?
    ensures ShapeOf(Decode(shape, input).result.value) == shape
    ensures input == Encode(Decode(shape, input).result.value) + Decode(shape, input).rest
            <==> (shape.TextsShape? ==> DecodeSize(input).result.value <= INT_MAX)
  {
    match shape
    case IntShape => IntIsWritten(input);
    case FixedShape(n) => assert input == input[..n] + input[n..];
    case TextShape => SizedIsWritten(MAX_STRING_BYTES, input);
    case PayloadShape => SizedIsWritten(MAX_BUFFER_BYTES, input);
    case TextsShape => TextsAreWritten(input);
  }

  /** A count of 2^32 announces four billion names and delivers none. */
  lemma HugeCountReadsAsEmpty()
    ensures Decode(TextsShape, LittleEndian(0x1_0000_0000, 8)) == Outcome(Ok(Texts([])), [])
  {
    SizeRoundTrip(0x1_0000_0000, []);
    assert LittleEndian(0x1_0000_0000, 8) + [] == LittleEndian(0x1_0000_0000, 8);
  }

  // ---------------------------------------------------------------------
  // Streams
  // ---------------------------------------------------------------------

  function EncodeAll(fields: seq<Field>): seq<Byte> {
    if fields == [] then [] else Encode(fields[0]) + EncodeAll(fields[1..])
  }

  function ShapesOf(fields: seq<Field>): (shapes: seq<Shape>)
    ensures |shapes| == |fields|
  {
    if fields == [] then [] else [ShapeOf(fields[0])] + ShapesOf(fields[1..])
  }

  function DecodeAll(shapes: seq<Shape>, input: seq<Byte>): Outcome<seq<Field>> {
    if shapes == [] then Outcome(Ok([]), input)
    else
      var first := Decode(shapes[0], input);
      match first.result
      case TimedOut => Outcome(TimedOut, first.rest)
      case Refused => Outcome(Refused, first.rest)
      case Ok(f) => Prepend(f, DecodeAll(shapes[1..], first.rest))
  }

  lemma LimitsAreRepresentable(f: Field)
    requires WithinLimits(f)
    ensures Representable(f)
  {
  }

  lemma StreamStep(fields: seq<Field>, rest: seq<Byte>)
    requires fields != []
    ensures EncodeAll(fields) + rest == Encode(fields[0]) + (EncodeAll(fields[1..]) + rest)
    ensures ShapesOf(fields)[0] == ShapeOf(fields[0]) && ShapesOf(fields)[1..] == ShapesOf(fields[1..])
  {
  }

  lemma DecodeAllFrom(shapes: seq<Shape>, input: seq<Byte>, f: Field, more: seq<Byte>)
    requires shapes != [] && Decode(shapes[0], input) == Outcome(Ok(f), more)
    ensures DecodeAll(shapes, input) == Prepend(f, DecodeAll(shapes[1..], more))
  {
  }

  lemma {:induction false} StreamRoundTrip(fields: seq<Field>, rest: seq<Byte>)
    requires AllWithinLimits(fields)
    ensures DecodeAll(ShapesOf(fields), EncodeAll(fields) + rest) == Outcome(Ok(fields), rest)
    decreases |fields|
  {
    var input := EncodeAll(fields) + rest;
    if fields == [] {
      assert input == rest;
    } else {
      var more := EncodeAll(fields[1..]) + rest;
      LimitsAreRepresentable(fields[0]);
      FieldRoundTrip(fields[0], more);
      StreamRoundTrip(fields[1..], rest);
      StreamStep(fields, rest);
      DecodeAllFrom(ShapesOf(fields), input, fields[0], more);
      PrependWhole(fields, rest);
    }
  }

  /** Messages sent one after another: reading the first takes exactly its own
      bytes, whatever follows, and no proper prefix of the stream is enough. */
  lemma {:induction false} StreamPrefixTimesOut(fields: seq<Field>, input: seq<Byte>)
    requires AllWithinLimits(fields)
    requires input < EncodeAll(fields)
    ensures DecodeAll(ShapesOf(fields), input) == Outcome(TimedOut, [])
    decreases |fields|
  {
    var first := Encode(fields[0]);
    assert ShapesOf(fields)[1..] == ShapesOf(fields[1..]);
    if |input| < |first| {
      ShortPrefix(first, EncodeAll(fields[1..]), input);
      ProperPrefixTimesOut(fields[0], input);
    } else {
      var rest := SplitPrefix(first, EncodeAll(fields[1..]), input);
      FieldRoundTrip(fields[0], rest);
      StreamPrefixTimesOut(fields[1..], rest);
    }
  }

  // ---------------------------------------------------------------------
  // Composer and decoder
  // ---------------------------------------------------------------------

  class MessageComposer {
    var messageBlocks: seq<seq<Byte>>

    function Contents(): seq<Byte>
      reads this
    {
      Flatten(messageBlocks)
    }

    constructor ()
      ensures Contents() == []
    {
      messageBlocks := [];
    }

    method PushFixed(bytes: seq<Byte>)
      modifies this
      ensures Contents() == old(Contents()) + bytes
    {
      FlattenSnoc(messageBlocks, bytes);
      messageBlocks := messageBlocks + [bytes];
    }

    method PushInt(i: Int32)
      modifies this
      ensures Contents() == old(Contents()) + Encode(Int(i))
    {
      PushFixed(EncodeInt(i));
    }

    method PushSized(bytes: seq<Byte>)
      modifies this
      ensures Contents() == old(Contents()) + EncodeSized(bytes)
    {
      PushFixed(LittleEndian(|bytes|, 8));
      PushFixed(bytes);
    }

    method PushEach(texts: seq<seq<Byte>>)
      modifies this
      ensures Contents() == old(Contents()) + EncodeEach(texts)
    {
      ghost var before := Contents();
      for i := 0 to |texts|
        invariant Contents() == before + EncodeEach(texts[..i])
      {
        EncodeNext(texts, i, before);
        PushSized(texts[i]);
      }
      assert texts[..|texts|] == texts;
    }

    method PushTexts(texts: seq<seq<Byte>>)
      modifies this
      ensures Contents() == old(Contents()) + Encode(Texts(texts))
    {
      PushFixed(LittleEndian(|texts|, 8));
      PushEach(texts);
    }

    method Push(f: Field)
      modifies this
      ensures Contents() == old(Contents()) + Encode(f)
    {
      match f
      case Int(i) => PushInt(i);
      case Fixed(bytes) => PushFixed(bytes);
      case Text(t) => PushSized(t);
      case Payload(p) => PushSized(p);
      case Texts(ts) => PushTexts(ts);
    }

    method Clear()
      modifies this
      ensures Contents() == []
    {
      messageBlocks := [];
    }

    method Send(transport: Transport)
      modifies transport`sent
      ensures transport.sent == old(transport.sent) + Contents()
    {
      var frame: seq<Byte> := [];
      for i := 0 to |messageBlocks|
        invariant frame == Flatten(messageBlocks[..i]) && transport.sent == old(transport.sent)
      {
        FlattenSnoc(messageBlocks[..i], messageBlocks[i]);
        assert messageBlocks[..i + 1] == messageBlocks[..i] + [messageBlocks[i]];
        frame := frame + messageBlocks[i];
      }
      assert messageBlocks[..|messageBlocks|] == messageBlocks;
      if frame != [] {
        transport.Send(frame);
      }
    }
  }

  function Flatten(blocks: seq<seq<Byte>>): seq<Byte> {
    if blocks == [] then [] else blocks[0] + Flatten(blocks[1..])
  }

  lemma {:induction false} FlattenSnoc(blocks: seq<seq<Byte>>, block: seq<Byte>)
    ensures Flatten(blocks + [block]) == Flatten(blocks) + block
    decreases |blocks|
  {
    if blocks == [] {
      assert [block][1..] == [];
    } else {
      FlattenSnoc(blocks[1..], block);
      assert (blocks + [block])[1..] == blocks[1..] + [block];
    }
  }

  lemma EncodeNext(texts: seq<seq<Byte>>, i: nat, before: seq<Byte>)
    requires i < |texts|
    ensures before + EncodeEach(texts[..i + 1]) == before + EncodeEach(texts[..i]) + EncodeSized(texts[i])
  {
    EncodeEachSnoc(texts[..i], texts[i]);
    assert texts[..i + 1] == texts[..i] + [texts[i]];
  }

  lemma {:induction false} EncodeEachSnoc(texts: seq<seq<Byte>>, text: seq<Byte>)
    ensures EncodeEach(texts + [text]) == EncodeEach(texts) + EncodeSized(text)
    decreases |texts|
  {
    if texts == [] {
      assert [text][1..] == [];
    } else {
      EncodeEachSnoc(texts[1..], text);
      assert (texts + [text])[1..] == texts[1..] + [text];
    }
  }

  class MessageDecoder {
    const transport: Transport

    constructor (transport: Transport)
      ensures this.transport == transport
    {
      this.transport := transport;
    }

    /** Fills the whole destination, or fails when the transport runs dry. */
    method ReadImpl(dst: array<Byte>) returns (ok: bool)
      modifies transport`incoming, dst
      ensures ok <==> |old(transport.incoming)| >= dst.Length
      ensures Outcome(if ok then Ok(dst[..]) else TimedOut, transport.incoming)
           == Take(dst.Length, old(transport.incoming))
    {
      var offset := 0;
      while offset < dst.Length
        invariant offset <= dst.Length && offset <= |old(transport.incoming)|
        invariant dst[..offset] == old(transport.incoming)[..offset]
        invariant transport.incoming == old(transport.incoming)[offset..]
      {
        ghost var before := dst[..offset];
        var n := transport.Receive(dst, offset);
        if n == 0 {
          return false;
        }
        ReceivedMore(old(transport.incoming), offset, n, before, dst[..offset + n]);
        offset := offset + n;
      }
      assert dst[..dst.Length] == dst[..];
      return true;
    }

    method ReadFixed(width: nat) returns (r: Result<seq<Byte>>)
      modifies transport`incoming
      ensures Outcome(r, transport.incoming) == Take(width, old(transport.incoming))
    {
      var dst := new Byte[width];
      var ok := ReadImpl(dst);
      return if ok then Ok(dst[..]) else TimedOut;
    }

    method ReadSize() returns (r: Result<nat>)
      modifies transport`incoming
      ensures Outcome(r, transport.incoming) == DecodeSize(old(transport.incoming))
    {
      var bytes := ReadFixed(8);
      match bytes
      case Ok(s) => return Ok(FromLittleEndian(s));
      case TimedOut => return TimedOut;
      case Refused => return Refused;
    }

    /** The vector and string overloads: the length is checked before anything is
        allocated or read for it. */
    method ReadSized(limit: nat) returns (r: Result<seq<Byte>>)
      modifies transport`incoming
      ensures Outcome(r, transport.incoming) == DecodeSized(limit, old(transport.incoming))
    {
      var size := ReadSize();
      match size
      case TimedOut => return TimedOut;
      case Refused => return Refused;
      case Ok(n) =>
        if n > limit {
          return Refused;
        }
        r := ReadFixed(n);
    }

    method ReadTexts() returns (r: Result<seq<seq<Byte>>>)
      modifies transport`incoming
      ensures Outcome(r, transport.incoming) == DecodeTexts(old(transport.incoming))
    {
      var size := ReadSize();
      match size
      case TimedOut => return TimedOut;
      case Refused => return Refused;
      case Ok(n) => r := ReadEach(n);
    }

    method ReadEach(n: nat) returns (r: Result<seq<seq<Byte>>>)
      modifies transport`incoming
      ensures Outcome(r, transport.incoming) == DecodeEach(Repetitions(n), old(transport.incoming))
    {
      var texts: seq<seq<Byte>> := [];
      var s := 0;
      ghost var all := DecodeEach(Repetitions(n), transport.incoming);
      AppendNothing(all);
      while s < AsInt(n)
        invariant 0 <= s <= Repetitions(n)
        invariant all == Append(texts, DecodeEach(Repetitions(n) - s, transport.incoming))
      {
        var text := ReadSized(MAX_STRING_BYTES);
        match text
        case TimedOut => return TimedOut;
        case Refused => return Refused;
        case Ok(t) =>
          AppendOne(texts, t, DecodeEach(Repetitions(n) - s - 1, transport.incoming));
          texts := texts + [t];
          s := s + 1;
      }
      assert texts + [] == texts;
      return Ok(texts);
    }

    method Read(shape: Shape) returns (r: Result<Field>)
      modifies transport`incoming
      ensures Outcome(r, transport.incoming) == Decode(shape, old(transport.incoming))
    {
      match shape
      case IntShape =>
        var bytes := ReadFixed(4);
        return Map(Outcome(bytes, []), s => Int(AsInt(FromLittleEndian(s)))).result;
      case FixedShape(n) =>
        var bytes := ReadFixed(n);
        return Map(Outcome(bytes, []), s => Fixed(s)).result;
      case TextShape =>
        var bytes := ReadSized(MAX_STRING_BYTES);
        return Map(Outcome(bytes, []), t => Text(t)).result;
      case PayloadShape =>
        var bytes := ReadSized(MAX_BUFFER_BYTES);
        return Map(Outcome(bytes, []), p => Payload(p)).result;
      case TextsShape =>
        var texts := ReadTexts();
        return Map(Outcome(texts, []), ts => Texts(ts)).result;
    }
  }

  function Append(texts: seq<seq<Byte>>, o: Outcome<seq<seq<Byte>>>): Outcome<seq<seq<Byte>>> {
    match o.result
    case Ok(more) => Outcome(Ok(texts + more), o.rest)
    case TimedOut => Outcome(TimedOut, o.rest)
    case Refused => Outcome(Refused, o.rest)
  }

  lemma AppendNothing(o: Outcome<seq<seq<Byte>>>)
    ensures Append([], o) == o
  {
    if o.result.Ok? { assert [] + o.result.value == o.result.value; }
  }

  lemma AppendOne(texts: seq<seq<Byte>>, t: seq<Byte>, o: Outcome<seq<seq<Byte>>>)
    ensures Append(texts, Prepend(t, o)) == Append(texts + [t], o)
  {
    if o.result.Ok? {
      assert texts + ([t] + o.result.value) == texts + [t] + o.result.value;
    }
  }

  /** One message pushed onto an empty composer and sent. */
  method Compose(fields: seq<Field>, composer: MessageComposer, transport: Transport)
    requires composer.Contents() == []
    modifies composer, transport`sent
    ensures transport.sent == old(transport.sent) + EncodeAll(fields)
  {
    for i := 0 to |fields|
      invariant composer.Contents() == EncodeAll(fields[..i]) && transport.sent == old(transport.sent)
    {
      composer.Push(fields[i]);
      EncodeAllSnoc(fields[..i], fields[i]);
      assert fields[..i + 1] == fields[..i] + [fields[i]];
    }
    assert fields[..|fields|] == fields;
    composer.Send(transport);
  }

  type Conversation = seq<seq<Field>>

  function Wire(messages: Conversation): seq<Byte> {
    if messages == [] then [] else Wire(messages[..|messages| - 1]) + EncodeAll(messages[|messages| - 1])
  }

  /** Messages sent one after another through one composer, cleared in between. */
  method ComposeEach(messages: Conversation, transport: Transport)
    modifies transport`sent
    ensures transport.sent == old(transport.sent) + Wire(messages)
  {
    var composer := new MessageComposer();
    for i := 0 to |messages|
      invariant composer.Contents() == [] && transport.sent == old(transport.sent) + Wire(messages[..i])
    {
      Compose(messages[i], composer, transport);
      assert messages[..i + 1][..i] == messages[..i];
      composer.Clear();
    }
    assert messages[..|messages|] == messages;
  }

  /** Reading a message field by field, stopping at the first failure. */
  method Receive(shapes: seq<Shape>, decoder: MessageDecoder) returns (r: Result<seq<Field>>)
    modifies decoder.transport`incoming
    ensures Outcome(r, decoder.transport.incoming) == DecodeAll(shapes, old(decoder.transport.incoming))
    decreases |shapes|
  {
    if shapes == [] {
      return Ok([]);
    }
    var first := decoder.Read(shapes[0]);
    match first
    case TimedOut => return TimedOut;
    case Refused => return Refused;
    case Ok(f) =>
      var more := Receive(shapes[1..], decoder);
      match more
      case TimedOut => return TimedOut;
      case Refused => return Refused;
      case Ok(fs) => return Ok([f] + fs);
  }

  lemma {:induction false} WireFront(messages: Conversation)
    requires messages != []
    ensures Wire(messages) == EncodeAll(messages[0]) + Wire(messages[1..])
    decreases |messages|
  {
    var last := |messages| - 1;
    if last > 0 {
      WireFront(messages[..last]);
      assert messages[..last][1..] == messages[1..][..last - 1];
    }
  }

  lemma NextOnWire(messages: Conversation, i: nat, following: seq<Byte>)
    requires i < |messages|
    ensures Wire(messages[i..]) + following == EncodeAll(messages[i]) + (Wire(messages[i + 1..]) + following)
  {
    WireFront(messages[i..]);
    assert messages[i..][1..] == messages[i + 1..];
  }

  /** Reading the message that is next on the wire. */
  method ReceiveNext(fields: seq<Field>, ghost rest: seq<Byte>, decoder: MessageDecoder) returns (r: seq<Field>)
    requires AllWithinLimits(fields) && decoder.transport.incoming == EncodeAll(fields) + rest
    modifies decoder.transport`incoming
    ensures r == fields && decoder.transport.incoming == rest
  {
    StreamRoundTrip(fields, rest);
    var message := Receive(ShapesOf(fields), decoder);
    return message.value;
  }

  /** A whole conversation written by a composer and read by a decoder, over any
      fragmentation of the bytes between them: the same messages come out, each with
      the same fields, and the transport is left at the first byte of whatever
      followed. */
  method Exchange(messages: Conversation, following: seq<Byte>) returns (received: Conversation, left: seq<Byte>)
    requires forall i :: 0 <= i < |messages| ==> AllWithinLimits(messages[i])
    ensures received == messages && left == following
  {
    var outgoing := new Transport([]);
    ComposeEach(messages, outgoing);
    assert outgoing.sent == Wire(messages);
    var transport := new Transport(outgoing.sent + following);
    var decoder := new MessageDecoder(transport);
    received := [];
    assert messages[0..] == messages;
    for i := 0 to |messages|
      invariant received == messages[..i] && transport.incoming == Wire(messages[i..]) + following
    {
      NextOnWire(messages, i, following);
      var message := ReceiveNext(messages[i], Wire(messages[i + 1..]) + following, decoder);
      received := received + [message];
    }
    left := transport.incoming;
  }

  lemma {:induction false} EncodeAllSnoc(fields: seq<Field>, f: Field)
    ensures EncodeAll(fields + [f]) == EncodeAll(fields) + Encode(f)
    decreases |fields|
  {
    if fields == [] {
      assert [f][1..] == [];
    } else {
      EncodeAllSnoc(fields[1..], f);
      assert (fields + [f])[1..] == fields[1..] + [f];
    }
  }
}
