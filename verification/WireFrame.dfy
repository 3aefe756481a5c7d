/**
 The agent protocol's frames: a four-byte length, a JSON object, and raw bytes
 when the object's "payload" field announces them. The JSON libraries of the two
 sides appear only as a writer and a reader of text.
 */
module WireFrame {
  import opened Bytes
  import opened ByteStreams
  import opened Wrappers

  const MAX_FRAME_BYTES: nat := 0x10_0000
  const INT64_MAX: int := 0x7FFF_FFFF_FFFF_FFFF
  const INT64_MIN: int := -0x8000_0000_0000_0000
  const UINT64_MAX: int := 0xFFFF_FFFF_FFFF_FFFF

  datatype Json =
    | Null
    | Bool(b: bool)
    | Int(i: int)
    | Float(literal: string)
    | String(s: string)
    | Array(elements: seq<Json>)
    | Object(members: Members)

  type Members = map<string, Json>
  type Writer = Json -> seq<Byte>

  /** How one side reads: its parser, and the size it takes a "payload" field to
      announce. */
  datatype Reader = Reader(parse: seq<Byte> -> Option<Json>, size: Json -> Option<int>)

  /** The library on one side reads back what the library on the other wrote. */
  predicate Carries(write: Writer, reader: Reader, members: Members) {
    reader.parse(write(Object(members))) == Some(Object(members))
  }

  /** get<int64_t>() of an integer: one past the signed range wraps. Anything that
      is not an integer is refused, and so is one beyond both 64-bit ranges, which the
      parser turned into a double. */
  function CppSize(v: Json): Option<int> {
    match v
    case Int(i) =>
      if INT64_MIN <= i <= INT64_MAX then Some(i)
      else if 0 <= i <= UINT64_MAX then Some(i - (UINT64_MAX + 1))
      else None
    case _ => None
  }

  /** Python's int(): booleans are 0 and 1, and `coerce` stands for what it makes
      of the remaining types. */
  function PythonSize(coerce: Json -> Option<int>, v: Json): Option<int> {
    match v
    case Int(i) => Some(i)
    case Bool(b) => Some(if b then 1 else 0)
    case _ => coerce(v)
  }

  datatype Failure =
    | Closed
    | FrameTooLarge
    | NotJson
    | NotObject
    | BadPayloadField
    | NegativePayload
    | PayloadOverLimit

  datatype Reply = Frame(members: Members, payload: seq<Byte>) | Failed(why: Failure)
  datatype Outcome = Outcome(reply: Reply, rest: seq<Byte>)

  /** The object as sent: a payload's length replaces any "payload" it had. */
  function Announced(members: Members, payloadSize: nat): Members {
    if payloadSize > 0 then members["payload" := Int(payloadSize)] else members
  }

  function Prefixed(json: seq<Byte>): seq<Byte> { BigEndian(|json|, 4) + json }

  function EncodeHeader(write: Writer, members: Members, payloadSize: nat): Option<seq<Byte>> {
    var json := write(Object(Announced(members, payloadSize)));
    if |json| > MAX_FRAME_BYTES then None else Some(Prefixed(json))
  }

  function Encode(write: Writer, members: Members, payload: seq<Byte>): Option<seq<Byte>> {
    var json := write(Object(Announced(members, |payload|)));
    if |json| > MAX_FRAME_BYTES then None else Some(Prefixed(json) + payload)
  }

  function Decode(reader: Reader, maxPayload: Option<nat>, input: seq<Byte>): Outcome {
    if |input| < 4 then Outcome(Failed(Closed), [])
    else
      var n := FromBigEndian(input[..4]);
      if n > MAX_FRAME_BYTES then Outcome(Failed(FrameTooLarge), input[4..])
      else if |input| < 4 + n then Outcome(Failed(Closed), [])
      else DecodeParsed(reader, maxPayload, reader.parse(input[4..4 + n]), input[4 + n..])
  }

  function DecodeParsed(reader: Reader, maxPayload: Option<nat>, parsed: Option<Json>, rest: seq<Byte>): Outcome {
    match parsed
    case None => Outcome(Failed(NotJson), rest)
    case Some(v) =>
      if !v.Object? then Outcome(Failed(NotObject), rest)
      else if "payload" !in v.members then Outcome(Frame(v.members, []), rest)
      else DecodePayload(v.members, reader.size(v.members["payload"]), maxPayload, rest)
  }

  function DecodePayload(members: Members, size: Option<int>, maxPayload: Option<nat>, rest: seq<Byte>): Outcome {
    match size
    case None => Outcome(Failed(BadPayloadField), rest)
    case Some(n) =>
      if n < 0 then Outcome(Failed(NegativePayload), rest)
      else if maxPayload.Some? && n > maxPayload.value then Outcome(Failed(PayloadOverLimit), rest)
      else if |rest| < n then Outcome(Failed(Closed), [])
      else Outcome(Frame(members, rest[..n]), rest[n..])
  }

  // ---------------------------------------------------------------------
  // One frame
  // ---------------------------------------------------------------------

  lemma BodyReached(reader: Reader, maxPayload: Option<nat>, json: seq<Byte>, rest: seq<Byte>)
    requires |json| < LIMIT_4
    ensures Decode(reader, maxPayload, Prefixed(json) + rest)
         == if |json| > MAX_FRAME_BYTES then Outcome(Failed(FrameTooLarge), json + rest)
            else DecodeParsed(reader, maxPayload, reader.parse(json), rest)
  {
    var input := Prefixed(json) + rest;
    FourBytes(|json|);
    assert input[..4] == BigEndian(|json|, 4);
    assert input[4..] == json + rest;
    if |json| <= MAX_FRAME_BYTES {
      assert input[4..4 + |json|] == json && input[4 + |json|..] == rest;
    }
  }

  /** The size the reader takes a frame's object to announce, if the text is an object
      with a "payload" field. */
  function SizeAnnounced(reader: Reader, parsed: Option<Json>): Option<Option<int>> {
    match parsed
    case Some(Object(members)) => if "payload" in members then Some(reader.size(members["payload"])) else None
    case _ => None
  }

  predicate Within(n: int, maxPayload: Option<nat>) { maxPayload.Some? ==> n <= maxPayload.value }

  /** A size that could be read and meets `meets`. */
  predicate Sized(size: Option<Option<int>>, meets: int -> bool) {
    size.Some? && size.value.Some? && meets(size.value.value)
  }

  /** Each refusal has its own reason, and no other input meets it. */
  ghost predicate RefusedForCause(reader: Reader, maxPayload: Option<nat>, parsed: Option<Json>, rest: seq<Byte>,
                                  why: Reply) {
    var size := SizeAnnounced(reader, parsed);
    && (why == Failed(NotJson) <==> parsed.None?)
    && (why == Failed(NotObject) <==> parsed.Some? && !parsed.value.Object?)
    && (why == Failed(BadPayloadField) <==> size == Some(None))
    && (why == Failed(NegativePayload) <==> Sized(size, n => n < 0))
    && (why == Failed(PayloadOverLimit) <==> Sized(size, n => n >= 0 && !Within(n, maxPayload)))
    && (why == Failed(Closed) <==> Sized(size, n => n > |rest| && Within(n, maxPayload)))
    && why != Failed(FrameTooLarge)
  }

  /** What is accepted is the object, with exactly the bytes it announces. */
  ghost predicate TakenWhole(reader: Reader, parsed: Option<Json>, rest: seq<Byte>, r: Outcome) {
    r.reply.Frame? ==>
      && parsed == Some(Object(r.reply.members)) && r.reply.payload + r.rest == rest
      && var size := SizeAnnounced(reader, parsed);
         if size.None? then r.reply.payload == [] else size.value == Some(|r.reply.payload|)
  }

  lemma BodyJudged(reader: Reader, maxPayload: Option<nat>, parsed: Option<Json>, rest: seq<Byte>)
    ensures RefusedForCause(reader, maxPayload, parsed, rest, DecodeParsed(reader, maxPayload, parsed, rest).reply)
    ensures TakenWhole(reader, parsed, rest, DecodeParsed(reader, maxPayload, parsed, rest))
    ensures var r := DecodeParsed(reader, maxPayload, parsed, rest);
            r.reply.Failed? ==> r.rest == if r.reply.why == Closed then [] else rest
  {
    var size := SizeAnnounced(reader, parsed);
    if Sized(size, n => 0 <= n <= |rest|) {
      assert rest[..size.value.value] + rest[size.value.value..] == rest;
    }
  }

  /** What becomes of a frame whose length and text arrive whole: it is refused for
      exactly one of these reasons, with the bytes after the text unread unless they
      ran out, or it is the object, with exactly the bytes it announces. */
  lemma RefusalsExactly(reader: Reader, maxPayload: Option<nat>, json: seq<Byte>, rest: seq<Byte>)
    requires |json| <= MAX_FRAME_BYTES
    ensures var r := Decode(reader, maxPayload, Prefixed(json) + rest);
      && RefusedForCause(reader, maxPayload, reader.parse(json), rest, r.reply)
      && TakenWhole(reader, reader.parse(json), rest, r)
      && (r.reply.Failed? ==> r.rest == if r.reply.why == Closed then [] else rest)
  {
    BodyReached(reader, maxPayload, json, rest);
    BodyJudged(reader, maxPayload, reader.parse(json), rest);
  }

  /** The object does not announce bytes that are not sent. */
  predicate Honest(reader: Reader, members: Members, payload: seq<Byte>) {
    payload != [] || "payload" !in members || reader.size(members["payload"]) == Some(0)
  }

  predicate Admits(maxPayload: Option<nat>, payload: seq<Byte>) {
    maxPayload.None? || |payload| <= maxPayload.value
  }

  /** A frame comes back as the object that was sent, the payload's length
      included, and the payload -- with the next frame aligned -- exactly when an
      empty payload goes with an object that announces none. */
  lemma FrameRoundTrip(write: Writer, reader: Reader, maxPayload: Option<nat>, members: Members,
                       payload: seq<Byte>, rest: seq<Byte>)
    requires Encode(write, members, payload).Some?
    requires Carries(write, reader, Announced(members, |payload|))
    requires reader.size(Int(|payload|)) == Some(|payload|) && Admits(maxPayload, payload)
    ensures Decode(reader, maxPayload, Encode(write, members, payload).value + rest)
            == Outcome(Frame(Announced(members, |payload|), payload), rest)
            <==> Honest(reader, members, payload)
  {
    var sent := Announced(members, |payload|);
    var json := write(Object(sent));
    assert Prefixed(json) + payload + rest == Prefixed(json) + (payload + rest);
    BodyReached(reader, maxPayload, json, payload + rest);
    assert (payload + rest)[..|payload|] == payload && (payload + rest)[|payload|..] == rest;
    if payload == [] {
      assert payload + rest == rest;
    }
  }

  /** An object that announces a byte of its own takes it from the next frame. */
  lemma OwnFieldLosesFraming(write: Writer, reader: Reader, rest: seq<Byte>)
    requires var own := map["payload" := Int(1)];
             Encode(write, own, []).Some? && Carries(write, reader, own)
    requires reader.size(Int(1)) == Some(1) && rest != []
    ensures var own := map["payload" := Int(1)];
            Decode(reader, None, Encode(write, own, []).value + rest) == Outcome(Frame(own, rest[..1]), rest[1..])
  {
    var json := write(Object(map["payload" := Int(1)]));
    assert Prefixed(json) + [] + rest == Prefixed(json) + rest;
    BodyReached(reader, None, json, rest);
  }

  /** A payload over the reader's limit is refused with all of it still unread. */
  lemma OverLimitConsumesNoPayload(write: Writer, reader: Reader, limit: nat, members: Members,
                                   payload: seq<Byte>, rest: seq<Byte>)
    requires Encode(write, members, payload).Some? && |payload| > limit
    requires Carries(write, reader, Announced(members, |payload|))
    requires reader.size(Int(|payload|)) == Some(|payload|)
    ensures Decode(reader, Some(limit), Encode(write, members, payload).value + rest)
         == Outcome(Failed(PayloadOverLimit), payload + rest)
  {
    var json := write(Object(Announced(members, |payload|)));
    assert Prefixed(json) + payload + rest == Prefixed(json) + (payload + rest);
    BodyReached(reader, Some(limit), json, payload + rest);
  }

  /** The cap is the same at both ends: the sender refuses an object exactly when
      the receiver would have refused its frame. */
  lemma OversizeRefusedAtBothEnds(write: Writer, reader: Reader, members: Members, rest: seq<Byte>)
    requires |write(Object(members))| < LIMIT_4
    ensures Encode(write, members, []).None?
            <==> Decode(reader, None, Prefixed(write(Object(members))) + rest).reply == Failed(FrameTooLarge)
  {
    BodyReached(reader, None, write(Object(members)), rest);
  }

  /** Any frame cut short reads as a closed connection, never as another frame. */
  lemma ProperPrefixIsClosed(write: Writer, reader: Reader, maxPayload: Option<nat>, members: Members,
                             payload: seq<Byte>, input: seq<Byte>)
    requires Encode(write, members, payload).Some?
    requires Carries(write, reader, Announced(members, |payload|))
    requires reader.size(Int(|payload|)) == Some(|payload|) && Admits(maxPayload, payload)
    requires input < Encode(write, members, payload).value
    ensures Decode(reader, maxPayload, input) == Outcome(Failed(Closed), [])
  {
    var json := write(Object(Announced(members, |payload|)));
    if |input| >= |Prefixed(json)| {
      var rest := SplitPrefix(Prefixed(json), payload, input);
      BodyReached(reader, maxPayload, json, rest);
    } else {
      ShortPrefix(Prefixed(json), payload, input);
      if |input| >= 4 {
        FourBytes(|json|);
        assert input[..4] == Prefixed(json)[..4] == BigEndian(|json|, 4);
      }
    }
  }

  // ---------------------------------------------------------------------
  // Streams of frames
  // ---------------------------------------------------------------------

  datatype Message = Message(members: Members, payload: seq<Byte>)

  /** A message this writer can send and this reader takes as it was meant. */
  predicate Deliverable(write: Writer, reader: Reader, maxPayload: Option<nat>, m: Message) {
    && Encode(write, m.members, m.payload).Some?
    && Carries(write, reader, Announced(m.members, |m.payload|))
    && reader.size(Int(|m.payload|)) == Some(|m.payload|)
    && Admits(maxPayload, m.payload)
    && Honest(reader, m.members, m.payload)
  }

  function EncodeAll(write: Writer, messages: seq<Message>): seq<Byte> {
    if messages == [] then []
    else Encode(write, messages[0].members, messages[0].payload).GetOr([]) + EncodeAll(write, messages[1..])
  }

  function Received(messages: seq<Message>): seq<Reply> {
    if messages == [] then []
    else [Frame(Announced(messages[0].members, |messages[0].payload|), messages[0].payload)] + Received(messages[1..])
  }

  /** Reading `count` frames, stopping at the first failure. */
  function DecodeAll(reader: Reader, maxPayload: Option<nat>, count: nat, input: seq<Byte>): (r: (seq<Reply>, seq<Byte>)) {
    if count == 0 then ([], input)
    else
      var first := Decode(reader, maxPayload, input);
      if first.reply.Failed? then ([first.reply], first.rest)
      else
        var more := DecodeAll(reader, maxPayload, count - 1, first.rest);
        ([first.reply] + more.0, more.1)
  }

  lemma {:induction false} StreamRoundTrip(write: Writer, reader: Reader, maxPayload: Option<nat>,
                                           messages: seq<Message>, rest: seq<Byte>)
    requires forall i :: 0 <= i < |messages| ==> Deliverable(write, reader, maxPayload, messages[i])
    ensures DecodeAll(reader, maxPayload, |messages|, EncodeAll(write, messages) + rest) == (Received(messages), rest)
    decreases |messages|
  {
    if messages == [] {
      assert EncodeAll(write, messages) + rest == rest;
    } else {
      var m := messages[0];
      var more := EncodeAll(write, messages[1..]) + rest;
      var frame := Encode(write, m.members, m.payload).value;
      assert EncodeAll(write, messages) + rest == frame + more;
      FrameRoundTrip(write, reader, maxPayload, m.members, m.payload, more);
      StreamRoundTrip(write, reader, maxPayload, messages[1..], rest);
    }
  }

  // ---------------------------------------------------------------------
  // The two languages
  // ---------------------------------------------------------------------

  /** get<int64_t>() exactly: an integer of either 64-bit range, modulo 2^64; nothing
      else is a size. */
  lemma CppSizeExactly(v: Json, n: int)
    ensures CppSize(v) == Some(n) <==>
      && v.Int? && -0x8000_0000_0000_0000 <= v.i < 0x1_0000_0000_0000_0000
      && -0x8000_0000_0000_0000 <= n < 0x8000_0000_0000_0000
      && (n == v.i || n == v.i - 0x1_0000_0000_0000_0000)
  {
  }

  /** Both readers take the size a sender announces for what it is. */
  lemma BothReadAnnouncedSizes(coerce: Json -> Option<int>, n: nat)
    requires n <= INT64_MAX
    ensures CppSize(Int(n)) == Some(n) == PythonSize(coerce, Int(n))
  {
  }

  /** A frame from either language is read by both, the same, over whatever JSON
      library each uses -- as long as both libraries read its object back. */
  lemma BothLanguagesReadAFrame(write: Writer, cppParse: seq<Byte> -> Option<Json>, pyParse: seq<Byte> -> Option<Json>,
                                coerce: Json -> Option<int>, maxPayload: Option<nat>, members: Members,
                                payload: seq<Byte>, rest: seq<Byte>)
    requires Encode(write, members, payload).Some?
    requires Carries(write, Reader(cppParse, CppSize), Announced(members, |payload|))
    requires Carries(write, Reader(pyParse, v => PythonSize(coerce, v)), Announced(members, |payload|))
    requires |payload| <= INT64_MAX && Admits(maxPayload, payload)
    requires payload == [] ==> "payload" !in members
    ensures var frame := Encode(write, members, payload).value + rest;
      var received := Outcome(Frame(Announced(members, |payload|), payload), rest);
      && Decode(Reader(cppParse, CppSize), maxPayload, frame) == received
      && Decode(Reader(pyParse, v => PythonSize(coerce, v)), maxPayload, frame) == received
  {
    BothReadAnnouncedSizes(coerce, |payload|);
    FrameRoundTrip(write, Reader(cppParse, CppSize), maxPayload, members, payload, rest);
    FrameRoundTrip(write, Reader(pyParse, v => PythonSize(coerce, v)), maxPayload, members, payload, rest);
  }

  /** The text a reader comes to parse, if it gets that far. */
  function TextReached(input: seq<Byte>): Option<seq<Byte>> {
    if |input| < 4 then None
    else
      var n := FromBigEndian(input[..4]);
      if n > MAX_FRAME_BYTES || |input| < 4 + n then None else Some(input[4..4 + n])
  }

  /** The "payload" field it then comes to look at, if there is one. */
  function FieldIn(parsed: Option<Json>): Option<Json> {
    match parsed
    case Some(Object(members)) => if "payload" in members then Some(members["payload"]) else None
    case _ => None
  }

  /** A field that is no size to Python either, or an integer in the signed range. */
  predicate SameToBoth(coerce: Json -> Option<int>, field: Json) {
    match field
    case Int(i) => INT64_MIN <= i <= INT64_MAX
    case Bool(_) => false
    case _ => coerce(field) == None
  }

  /** Over libraries that parse a text alike, the two readers come to the same reply and
      leave the same bytes unread on exactly those inputs whose "payload" field, if they
      get to one, is the same to both. */
  lemma ReadersAgreeExactly(cppParse: seq<Byte> -> Option<Json>, pyParse: seq<Byte> -> Option<Json>,
                            coerce: Json -> Option<int>, maxPayload: Option<nat>, input: seq<Byte>)
    requires TextReached(input).Some? ==> cppParse(TextReached(input).value) == pyParse(TextReached(input).value)
    ensures Decode(Reader(cppParse, CppSize), maxPayload, input)
            == Decode(Reader(pyParse, v => PythonSize(coerce, v)), maxPayload, input)
            <==> (TextReached(input).Some? ==>
                    var field := FieldIn(cppParse(TextReached(input).value));
                    field.Some? ==> SameToBoth(coerce, field.value))
  {
    if TextReached(input).Some? && FieldIn(cppParse(TextReached(input).value)).Some? {
      var parsed := cppParse(TextReached(input).value).value;
      PayloadsAgreeExactly(coerce, maxPayload, parsed.members, parsed.members["payload"], input[4 + FromBigEndian(input[..4])..]);
    }
  }

  lemma PayloadsAgreeExactly(coerce: Json -> Option<int>, maxPayload: Option<nat>, members: Members, field: Json,
                             rest: seq<Byte>)
    ensures DecodePayload(members, CppSize(field), maxPayload, rest)
            == DecodePayload(members, PythonSize(coerce, field), maxPayload, rest)
            <==> SameToBoth(coerce, field)
  {
  }

  /** A boolean "payload" is a size, one byte or none, to one side and an error to the
      other. */
  lemma ReadersDisagreeOnBooleans(parse: seq<Byte> -> Option<Json>, coerce: Json -> Option<int>, json: seq<Byte>, b: bool)
    requires |json| <= MAX_FRAME_BYTES && parse(json) == Some(Object(map["payload" := Bool(b)]))
    ensures Decode(Reader(parse, CppSize), None, Prefixed(json) + [0]).reply == Failed(BadPayloadField)
    ensures Decode(Reader(parse, v => PythonSize(coerce, v)), None, Prefixed(json) + [0])
         == if b then Outcome(Frame(map["payload" := Bool(b)], [0]), [])
            else Outcome(Frame(map["payload" := Bool(b)], []), [0])
  {
    BodyReached(Reader(parse, CppSize), None, json, [0]);
    BodyReached(Reader(parse, v => PythonSize(coerce, v)), None, json, [0]);
    var tail: seq<Byte> := [0];
    assert tail[..1] == tail && tail[1..] == [] && tail[..0] == [] && tail[0..] == tail;
  }

  // ---------------------------------------------------------------------
  // The codecs
  // ---------------------------------------------------------------------

  lemma BigEndianDigits(n: nat)
    requires n < LIMIT_4
    ensures BigEndian(n, 4) == [(n / 0x100_0000) as Byte, (n / 0x1_0000 % 256) as Byte,
                                (n / 0x100 % 256) as Byte, (n % 256) as Byte]
  {
    assert n / 256 / 256 == n / 0x1_0000 && n / 256 / 256 / 256 == n / 0x100_0000 < 256;
    var digits := BigEndian(n, 4);
    assert digits[3] == Digit(n, 0);
    assert digits[2] == Digit(n, 1) == Digit(n / 256, 0);
    assert digits[1] == Digit(n, 2) == Digit(n / 256, 1) == Digit(n / 256 / 256, 0);
    assert digits[0] == Digit(n, 3) == Digit(n / 256, 2) == Digit(n / 256 / 256, 1) == Digit(n / 256 / 256 / 256, 0);
  }

  function ReadBeLength(header: seq<Byte>): (n: nat)
    requires |header| == 4
    ensures n == FromBigEndian(header)
  {
    assert header[..3][..2][..1] == header[..1] && header[..3][..2] == header[..2];
    assert FromBigEndian(header[..1]) == header[0] as int;
    assert FromBigEndian(header[..2]) == 256 * FromBigEndian(header[..1]) + header[1] as int;
    assert FromBigEndian(header[..3]) == 256 * FromBigEndian(header[..2]) + header[2] as int;
    header[0] as int * 0x100_0000 + header[1] as int * 0x1_0000 + header[2] as int * 0x100 + header[3] as int
  }

  method FillPrefixedJson(out: array<Byte>, s: seq<Byte>)
    requires out.Length >= 4 + |s| && |s| < LIMIT_4
    modifies out
    ensures out[..4 + |s|] == Prefixed(s)
  {
    var n := |s|;
    out[0], out[1], out[2], out[3] :=
      (n / 0x100_0000) as Byte, (n / 0x1_0000 % 256) as Byte, (n / 0x100 % 256) as Byte, (n % 256) as Byte;
    BigEndianDigits(n);
    assert out[..4] == BigEndian(n, 4);
    var pos := 4;
    for k := 0 to |s|
      invariant pos == 4 + k
      invariant out[..pos] == BigEndian(n, 4) + s[..k]
    {
      out[pos] := s[k];
      pos := pos + 1;
      assert out[..pos] == out[..pos - 1] + [s[k]];
      assert s[..k + 1] == s[..k] + [s[k]];
    }
    assert s[..|s|] == s;
  }

  method EncodeFrameHeader(write: Writer, members: Members, payloadSize: nat) returns (r: Option<seq<Byte>>)
    ensures r == EncodeHeader(write, members, payloadSize)
  {
    var json := write(Object(Announced(members, payloadSize)));
    if |json| > MAX_FRAME_BYTES {
      return None;
    }
    var out := new Byte[4 + |json|];
    FillPrefixedJson(out, json);
    assert out[..] == out[..4 + |json|];
    return Some(out[..]);
  }

  method EncodeFrame(write: Writer, members: Members, payload: seq<Byte>) returns (r: Option<seq<Byte>>)
    ensures r == Encode(write, members, payload)
  {
    var json := write(Object(Announced(members, |payload|)));
    if |json| > MAX_FRAME_BYTES {
      return None;
    }
    var out := new Byte[4 + |json| + |payload|];
    FillPrefixedJson(out, json);
    var pos := 4 + |json|;
    for k := 0 to |payload|
      invariant pos == 4 + |json| + k
      invariant out[..pos] == Prefixed(json) + payload[..k]
    {
      out[pos] := payload[k];
      pos := pos + 1;
      assert out[..pos] == out[..pos - 1] + [payload[k]];
      assert payload[..k + 1] == payload[..k] + [payload[k]];
    }
    assert payload[..|payload|] == payload && out[..] == out[..pos];
    return Some(out[..]);
  }

  /** The reply sent in place of one whose object does not fit a frame. */
  const TOO_LARGE: Members := map["error" := Object(map[
    "code" := String("internal"), "message" := String("response too large for one frame")])]

  function ReplyBytes(write: Writer, body: Members, payload: seq<Byte>): seq<Byte> {
    Encode(write, body, payload).GetOr(Encode(write, TOO_LARGE, []).GetOr([]))
  }

  /** write_reply(): the header and then the payload from its own buffer are on the
      wire what the combined frame would have been; an oversized object becomes a
      small error frame instead. */
  method WriteReply(sock: Transport, write: Writer, body: Members, payload: seq<Byte>)
    modifies sock`sent
    ensures sock.sent == old(sock.sent) + ReplyBytes(write, body, payload)
  {
    var header := EncodeFrameHeader(write, body, |payload|);
    if header.None? {
      var error := EncodeFrameHeader(write, TOO_LARGE, 0);
      if error.Some? {
        sock.Send(error.value);
      }
      return;
    }
    sock.Send(header.value);
    if payload != [] {
      sock.Send(payload);
    }
    assert old(sock.sent) + header.value + payload == old(sock.sent) + (header.value + payload);
  }

  /** Whatever a handler replies, its client receives exactly one frame -- the reply,
      or the error when the reply's object is over the cap -- and the next frame is
      aligned. */
  lemma ReplyIsOneFrame(write: Writer, reader: Reader, body: Members, payload: seq<Byte>, rest: seq<Byte>)
    requires Encode(write, TOO_LARGE, []).Some? && Carries(write, reader, TOO_LARGE)
    requires Carries(write, reader, Announced(body, |payload|))
    requires reader.size(Int(|payload|)) == Some(|payload|) && reader.size(Int(0)) == Some(0)
    requires Honest(reader, body, payload)
    ensures Decode(reader, None, ReplyBytes(write, body, payload) + rest)
         == Outcome(if |write(Object(Announced(body, |payload|)))| <= MAX_FRAME_BYTES
                    then Frame(Announced(body, |payload|), payload) else Frame(TOO_LARGE, []), rest)
  {
    if Encode(write, body, payload).Some? {
      FrameRoundTrip(write, reader, None, body, payload, rest);
    } else {
      FrameRoundTrip(write, reader, None, TOO_LARGE, [], rest);
    }
  }

  /** Fills one preallocated buffer from however many receives it takes; None when
      the peer closes first. */
  method RecvExact(sock: Transport, size: nat) returns (r: Option<seq<Byte>>)
    modifies sock`incoming
    ensures if |old(sock.incoming)| >= size
            then r == Some(old(sock.incoming)[..size]) && sock.incoming == old(sock.incoming)[size..]
            else r == None && sock.incoming == []
  {
    if size == 0 {
      return Some([]);
    }
    var buf := new Byte[size];
    var pos := 0;
    while pos < size
      invariant pos <= size && pos <= |old(sock.incoming)|
      invariant buf[..pos] == old(sock.incoming)[..pos]
      invariant sock.incoming == old(sock.incoming)[pos..]
    {
      ghost var before := buf[..pos];
      var received := sock.Receive(buf, pos);
      if received == 0 {
        return None;
      }
      ReceivedMore(old(sock.incoming), pos, received, before, buf[..pos + received]);
      pos := pos + received;
    }
    assert buf[..] == buf[..pos];
    return Some(buf[..]);
  }

  /** One frame off a fragmenting transport: decode_frame with C++'s reading of the
      size, recv_frame with Python's. */
  method RecvFrame(sock: Transport, reader: Reader, maxPayload: Option<nat>) returns (reply: Reply)
    modifies sock`incoming
    ensures Outcome(reply, sock.incoming) == Decode(reader, maxPayload, old(sock.incoming))
  {
    var header := RecvExact(sock, 4);
    if header.None? {
      return Failed(Closed);
    }
    var length := ReadBeLength(header.value);
    if length > MAX_FRAME_BYTES {
      return Failed(FrameTooLarge);
    }
    var body := RecvExact(sock, length);
    if body.None? {
      return Failed(Closed);
    }
    BodyOf(old(sock.incoming), length);
    reply := RecvPayload(sock, reader, maxPayload, reader.parse(body.value));
  }

  lemma BodyOf(input: seq<Byte>, length: nat)
    requires 4 + length <= |input|
    ensures input[4..][..length] == input[4..4 + length] && input[4..][length..] == input[4 + length..]
  {
  }

  /** The rest of a frame once its JSON has been parsed. */
  method RecvPayload(sock: Transport, reader: Reader, maxPayload: Option<nat>, parsed: Option<Json>) returns (reply: Reply)
    modifies sock`incoming
    ensures Outcome(reply, sock.incoming) == DecodeParsed(reader, maxPayload, parsed, old(sock.incoming))
  {
    if parsed.None? {
      return Failed(NotJson);
    }
    if !parsed.value.Object? {
      return Failed(NotObject);
    }
    var members := parsed.value.members;
    if "payload" !in members {
      return Frame(members, []);
    }
    var size := reader.size(members["payload"]);
    if size.None? {
      return Failed(BadPayloadField);
    }
    if size.value < 0 {
      return Failed(NegativePayload);
    }
    if maxPayload.Some? && size.value > maxPayload.value {
      return Failed(PayloadOverLimit);
    }
    var payload := RecvExact(sock, size.value);
    if payload.None? {
      return Failed(Closed);
    }
    return Frame(members, payload.value);
  }

  /** send_frame(): the header and the payload go out separately. */
  method SendFrame(sock: Transport, write: Writer, members: Members, payload: seq<Byte>) returns (ok: bool)
    modifies sock`sent
    ensures ok <==> Encode(write, members, payload).Some?
    ensures sock.sent == old(sock.sent) + Encode(write, members, payload).GetOr([])
  {
    var data := write(Object(Announced(members, |payload|)));
    if |data| > MAX_FRAME_BYTES {
      return false;
    }
    sock.Send(BigEndian(|data|, 4) + data);
    if payload != [] {
      sock.Send(payload);
    }
    assert old(sock.sent) + Prefixed(data) + payload == old(sock.sent) + (Prefixed(data) + payload);
    return true;
  }
}
