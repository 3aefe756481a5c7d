/**
 Reassembling a buffer from row strips. The assembler keeps one flat byte
 vector and one arrival flag per row for each name; the model behind it keeps,
 per row, the last payload accepted for it. Whole runs of calls are then
 described by where in the run each row was last written.
 */
module BufferAssembly {
  import opened Arithmetic
  import opened Wrappers
  import opened Bytes
  import opened BufferGeometry

  datatype BeginParams = BeginParams(
    variableName: string, displayName: string, pixelLayout: string, transpose: bool,
    width: Int32, height: Int32, channels: Int32, stride: Int32, bufferType: Int32, totalByteSize: nat)

  datatype AssembledBuffer = AssembledBuffer(
    variableName: string, displayName: string, pixelLayout: string, transpose: bool,
    width: Int32, height: Int32, channels: Int32, stride: Int32, bufferType: Int32, bytes: seq<Byte>)

  function Assembled(p: BeginParams, bytes: seq<Byte>): AssembledBuffer {
    AssembledBuffer(p.variableName, p.displayName, p.pixelLayout, p.transpose,
                    p.width, p.height, p.channels, p.stride, p.bufferType, bytes)
  }

  /** What begin() demands of a declaration. */
  predicate Acceptable(p: BeginParams) {
    && IsKnown(p.bufferType)
    && p.totalByteSize <= MAX_BUFFER_BYTES
    && WithinDisplayLimits(p.width, p.height, p.channels)
    && PaddedPayloadSize(p.width, p.height, p.channels, p.stride, p.bufferType) == Some(p.totalByteSize)
  }

  /** Bytes of one row, stride included. */
  function RowBytes(p: BeginParams): (width: nat)
    requires Acceptable(p)
  {
    MulMonotone(0, p.channels, p.stride);
    MulMonotone(0, p.stride * p.channels, TypeSize(p.bufferType));
    p.stride * p.channels * TypeSize(p.bufferType)
  }

  lemma Regroup(stride: int, height: int, channels: int, size: int)
    ensures stride * height * channels * size == height * (stride * channels * size)
  {
    assert stride * height == height * stride;
    assert height * stride * channels == height * (stride * channels);
    assert height * (stride * channels) * size == height * (stride * channels * size);
  }

  lemma RowsDivideEvenly(p: BeginParams)
    requires Acceptable(p)
    ensures p.totalByteSize == p.height * RowBytes(p)
    ensures p.totalByteSize / p.height == RowBytes(p)
  {
    Regroup(p.stride, p.height, p.channels, TypeSize(p.bufferType));
    ExactQuotient(p.height, RowBytes(p));
  }

  // ---------------------------------------------------------------------
  // The model: one optional payload per row
  // ---------------------------------------------------------------------

  datatype Transfer = Transfer(params: BeginParams, rows: seq<Option<seq<Byte>>>)

  datatype Strip = Strip(rowOffset: nat, rowCount: nat, bytes: seq<Byte>) {
    predicate Covers(r: nat) { rowOffset <= r < rowOffset + rowCount }

    predicate Fits(p: BeginParams)
      requires Acceptable(p)
    {
      rowOffset + rowCount <= p.height && |bytes| == rowCount * RowBytes(p)
    }

    /** The strip's bytes for row `r`, rows being `width` bytes. */
    function Row(width: nat, r: nat): (row: seq<Byte>)
      requires |bytes| == rowCount * width && Covers(r)
      ensures |row| == width
    {
      RowSpan(r - rowOffset, rowCount, width);
      bytes[(r - rowOffset) * width..(r - rowOffset + 1) * width]
    }
  }

  datatype Call =
    | Begin(params: BeginParams)
    | Chunk(variable: string, strip: Strip)
    | End(variable: string)
    | Abort(variable: string)
  {
    function Name(): string {
      match this
      case Begin(p) => p.variableName
      case Chunk(n, _) => n
      case End(n) => n
      case Abort(n) => n
    }
  }

  datatype Reply = Flag(ok: bool) | Buffer(buffer: Option<AssembledBuffer>)

  type Transfers = map<string, Transfer>

  predicate Sound(t: Transfer) {
    && Acceptable(t.params) && |t.rows| == t.params.height
    && forall r :: 0 <= r < |t.rows| ==> t.rows[r].Some? ==> |t.rows[r].value| == RowBytes(t.params)
  }

  ghost predicate AllSound(m: Transfers) {
    forall name <- m :: Sound(m[name]) && m[name].params.variableName == name
  }

  function Opened(p: BeginParams): Transfer
    requires Acceptable(p)
  {
    Transfer(p, seq(p.height, _ => None))
  }

  function Written(t: Transfer, s: Strip): Transfer
    requires Acceptable(t.params) && s.Fits(t.params)
  {
    t.(rows := Overlaid(t.rows, s, RowBytes(t.params)))
  }

  function Overlaid(rows: seq<Option<seq<Byte>>>, s: Strip, width: nat): seq<Option<seq<Byte>>>
    requires |s.bytes| == s.rowCount * width
  {
    seq(|rows|, r requires 0 <= r < |rows| => if s.Covers(r) then Some(s.Row(width, r)) else rows[r])
  }

  function Complete(t: Transfer): bool { forall row <- t.rows :: row.Some? }

  function Joined(rows: seq<Option<seq<Byte>>>): seq<Byte>
    requires forall row <- rows :: row.Some?
  {
    if rows == [] then [] else Joined(rows[..|rows| - 1]) + rows[|rows| - 1].value
  }

  /** One call, on the model. */
  function Step(m: Transfers, call: Call): (r: (Transfers, Reply))
    requires AllSound(m)
    ensures AllSound(r.0)
  {
    match call
    case Begin(p) =>
      if Acceptable(p) then (m[p.variableName := Opened(p)], Flag(true))
      else (m - {p.variableName}, Flag(false))
    case Chunk(n, s) =>
      if n in m && s.Fits(m[n].params) then
        (m[n := Written(m[n], s)], Flag(true))
      else (m, Flag(false))
    case End(n) =>
      if n in m && Complete(m[n]) then
        (m - {n}, Buffer(Some(Assembled(m[n].params, Joined(m[n].rows)))))
      else (m - {n}, Buffer(None))
    case Abort(n) => (m - {n}, Flag(n in m))
  }

  function After(calls: seq<Call>): (m: Transfers)
    ensures AllSound(m)
    decreases |calls|
  {
    if calls == [] then map[] else Step(After(calls[..|calls| - 1]), calls[|calls| - 1]).0
  }

  // ---------------------------------------------------------------------
  // Runs described by position
  // ---------------------------------------------------------------------

  /** The transfer of `name` in flight after `calls` was begun at `i`. */
  predicate OpenedAt(calls: seq<Call>, name: string, i: nat) {
    && i < |calls| && calls[i].Begin? && calls[i].Name() == name && Acceptable(calls[i].params)
    && forall k :: i < k < |calls| && calls[k].Name() == name ==> calls[k].Chunk?
  }

  /** Call `j` is a chunk of the transfer begun at `i`, accepted, and covering
      row `r`. */
  predicate WritesRow(calls: seq<Call>, p: BeginParams, i: nat, j: nat, r: nat)
    requires Acceptable(p)
  {
    && i < j < |calls| && calls[j].Chunk? && calls[j].variable == p.variableName
    && calls[j].strip.Fits(p) && calls[j].strip.Covers(r)
  }

  predicate WritesRowLast(calls: seq<Call>, p: BeginParams, i: nat, j: nat, r: nat)
    requires Acceptable(p)
  {
    WritesRow(calls, p, i, j, r) && forall k :: j < k < |calls| ==> !WritesRow(calls, p, i, k, r)
  }

  lemma OneOpening(calls: seq<Call>, name: string, i: nat, k: nat)
    requires OpenedAt(calls, name, i) && OpenedAt(calls, name, k)
    ensures i == k
  {
  }

  lemma OpeningPrefix(calls: seq<Call>, call: Call, name: string, i: nat)
    requires i < |calls|
    ensures OpenedAt(calls + [call], name, i) <==> OpenedAt(calls, name, i) && (call.Name() == name ==> call.Chunk?)
  {
    var all := calls + [call];
    if OpenedAt(calls, name, i) && (call.Name() == name ==> call.Chunk?) {
      assert forall k :: i < k < |all| ==> all[k] == (if k < |calls| then calls[k] else call);
    }
    if OpenedAt(all, name, i) {
      assert all[|calls|] == call;
      forall k | i < k < |calls| && calls[k].Name() == name ensures calls[k].Chunk? { assert all[k] == calls[k]; }
    }
  }

  /** What the model holds about `name` after a run, by position: it holds a
      transfer exactly when one is open, opened with those parameters, and each
      of its rows is the last accepted write to it since the opening, if any. */
  ghost predicate Explains(calls: seq<Call>, m: Transfers, name: string) {
    && (name in m <==> exists i: nat :: OpenedAt(calls, name, i))
    && forall i: nat :: OpenedAt(calls, name, i) ==> name in m && TransferExplained(calls, i, m[name])
  }

  ghost predicate TransferExplained(calls: seq<Call>, i: nat, t: Transfer)
    requires i < |calls| && calls[i].Begin? && Acceptable(calls[i].params)
  {
    && t.params == calls[i].params && |t.rows| == t.params.height
    && forall r :: 0 <= r < |t.rows| ==> RowExplained(calls, t.params, i, r, t.rows[r])
  }

  ghost predicate RowExplained(calls: seq<Call>, p: BeginParams, i: nat, r: nat, row: Option<seq<Byte>>)
    requires Acceptable(p)
  {
    && (row.Some? <==> exists j: nat :: WritesRow(calls, p, i, j, r))
    && forall j: nat :: WritesRowLast(calls, p, i, j, r) ==> row == Some(calls[j].strip.Row(RowBytes(p), r))
  }

  lemma WritePrefix(calls: seq<Call>, call: Call, p: BeginParams, i: nat, j: nat, r: nat)
    requires Acceptable(p) && j < |calls|
    ensures WritesRow(calls + [call], p, i, j, r) <==> WritesRow(calls, p, i, j, r)
  {
  }

  /** A call that does not write row `r` leaves its explanation standing. */
  lemma RowKept(calls: seq<Call>, call: Call, p: BeginParams, i: nat, r: nat, row: Option<seq<Byte>>)
    requires Acceptable(p) && RowExplained(calls, p, i, r, row)
    requires !WritesRow(calls + [call], p, i, |calls|, r)
    ensures RowExplained(calls + [call], p, i, r, row)
  {
    var all := calls + [call];
    forall j: nat | j < |calls| ensures WritesRow(all, p, i, j, r) <==> WritesRow(calls, p, i, j, r) {
      WritePrefix(calls, call, p, i, j, r);
    }
    if row.Some? {
      var j: nat :| WritesRow(calls, p, i, j, r);
      assert WritesRow(all, p, i, j, r);
    }
    forall j: nat | WritesRowLast(all, p, i, j, r)
      ensures row == Some(all[j].strip.Row(RowBytes(p), r))
    {
      LastBefore(calls, call, p, i, j, r);
    }
  }

  lemma LastBefore(calls: seq<Call>, call: Call, p: BeginParams, i: nat, j: nat, r: nat)
    requires Acceptable(p) && j != |calls| && WritesRowLast(calls + [call], p, i, j, r)
    ensures WritesRowLast(calls, p, i, j, r) && (calls + [call])[j] == calls[j]
  {
    WritePrefix(calls, call, p, i, j, r);
    forall k | j < k < |calls| ensures !WritesRow(calls, p, i, k, r) { WritePrefix(calls, call, p, i, k, r); }
  }

  lemma RowOverwritten(calls: seq<Call>, call: Call, p: BeginParams, i: nat, r: nat)
    requires Acceptable(p) && WritesRow(calls + [call], p, i, |calls|, r)
    ensures RowExplained(calls + [call], p, i, r, Some(call.strip.Row(RowBytes(p), r)))
  {
    var all := calls + [call];
    forall j: nat | WritesRowLast(all, p, i, j, r) ensures j == |calls| {}
  }

  lemma ExplainsChunk(calls: seq<Call>, call: Call, m: Transfers, i: nat)
    requires call.Chunk? && AllSound(m) && Explains(calls, m, call.variable)
    requires OpenedAt(calls, call.variable, i)
    ensures Explains(calls + [call], Step(m, call).0, call.variable)
  {
    var all, name, after := calls + [call], call.variable, Step(m, call).0;
    OpeningPrefix(calls, call, name, i);
    forall k: nat | OpenedAt(all, name, k) ensures k == i { OneOpening(all, name, i, k); }
    var t := after[name];
    forall r | 0 <= r < |t.rows| ensures RowExplained(all, t.params, i, r, t.rows[r]) {
      if WritesRow(all, t.params, i, |calls|, r) {
        RowOverwritten(calls, call, t.params, i, r);
      } else {
        RowKept(calls, call, t.params, i, r, m[name].rows[r]);
      }
    }
    assert TransferExplained(all, i, t);
  }

  /** A call that cannot touch `name`'s transfer. */
  lemma ExplainsUnmoved(calls: seq<Call>, call: Call, name: string, m: Transfers, after: Transfers)
    requires AllSound(m) && Explains(calls, m, name)
    requires call.Name() != name || (call.Chunk? && name !in m)
    requires (name in m <==> name in after) && (name in m ==> m[name] == after[name])
    ensures Explains(calls + [call], after, name)
  {
    var all := calls + [call];
    forall k: nat | OpenedAt(all, name, k) ensures OpenedAt(calls, name, k) { OpeningPrefix(calls, call, name, k); }
    forall k: nat | OpenedAt(calls, name, k) ensures OpenedAt(all, name, k) { OpeningPrefix(calls, call, name, k); }
    forall i: nat | OpenedAt(all, name, i) ensures TransferExplained(all, i, after[name]) {
      var t := m[name];
      assert TransferExplained(calls, i, t);
      forall r | 0 <= r < |t.rows| ensures RowExplained(all, t.params, i, r, t.rows[r]) {
        RowKept(calls, call, t.params, i, r, t.rows[r]);
      }
    }
  }

  /** Begin, end and abort forget whatever `name` had received. */
  lemma ExplainsFresh(calls: seq<Call>, call: Call, m: Transfers)
    requires AllSound(m) && !call.Chunk?
    ensures Explains(calls + [call], Step(m, call).0, call.Name())
  {
    var all, name := calls + [call], call.Name();
    assert all[|calls|] == call;
    forall k: nat | OpenedAt(all, name, k) ensures k == |calls| {}
    if call.Begin? && Acceptable(call.params) {
      assert OpenedAt(all, name, |calls|);
    }
  }

  /** Calls about other names change nothing about this one. */
  lemma {:induction false} OtherNamesDoNotInterfere(m: Transfers, call: Call, name: string)
    requires AllSound(m) && call.Name() != name
    ensures var after := Step(m, call).0;
      && (name in after <==> name in m) && (name in m ==> after[name] == m[name])
  {
  }

  lemma {:induction false} EveryRunExplained(calls: seq<Call>, name: string)
    ensures Explains(calls, After(calls), name)
    decreases |calls|
  {
    if calls != [] {
      var prefix, call := calls[..|calls| - 1], calls[|calls| - 1];
      assert calls == prefix + [call];
      var m := After(prefix);
      EveryRunExplained(prefix, name);
      if call.Name() == name && !call.Chunk? {
        ExplainsFresh(prefix, call, m);
      } else if call.Name() == name && name in m {
        var i: nat :| OpenedAt(prefix, name, i);
        ExplainsChunk(prefix, call, m, i);
      } else {
        if call.Name() != name { OtherNamesDoNotInterfere(m, call, name); }
        ExplainsUnmoved(prefix, call, name, m, Step(m, call).0);
      }
    }
  }

  // ---------------------------------------------------------------------
  // What a run delivers
  // ---------------------------------------------------------------------

  lemma {:induction false} JoinedRows(rows: seq<Option<seq<Byte>>>, width: nat, r: nat)
    requires forall row <- rows :: row.Some? && |row.value| == width
    requires r < |rows|
    ensures |Joined(rows)| == |rows| * width
    ensures 0 <= r * width <= (r + 1) * width <= |Joined(rows)|
    ensures Joined(rows)[r * width..(r + 1) * width] == rows[r].value
    decreases |rows|
  {
    var n := |rows| - 1;
    JoinedLength(rows, width);
    RowSpan(r, |rows|, width);
    var front := Joined(rows[..n]);
    JoinedLength(rows[..n], width);
    assert Joined(rows) == front + rows[n].value;
    if r < n {
      JoinedRows(rows[..n], width, r);
      assert Joined(rows)[r * width..(r + 1) * width] == front[r * width..(r + 1) * width];
    } else {
      assert Joined(rows)[n * width..] == rows[n].value;
    }
  }

  lemma {:induction false} JoinedLength(rows: seq<Option<seq<Byte>>>, width: nat)
    requires forall row <- rows :: row.Some? && |row.value| == width
    ensures |Joined(rows)| == |rows| * width
    decreases |rows|
  {
    if rows != [] {
      JoinedLength(rows[..|rows| - 1], width);
      assert (|rows| - 1) * width + width == |rows| * width;
    }
  }

  /** Ending `name` after a run returns a buffer exactly when a transfer is open
      and each of its rows has been written since it was begun. The buffer then
      has the declared size to the byte, the begin's own description, and in
      every row the payload of the last accepted chunk that covered it. */
  lemma EndReturnsTheLastWrites(calls: seq<Call>, name: string)
    ensures var reply := Step(After(calls), End(name)).1;
      && reply.Buffer?
      && (reply.buffer.Some? <==> exists i: nat :: OpenedAt(calls, name, i) && EveryRowWritten(calls, i))
      && (reply.buffer.Some? ==> forall i: nat :: OpenedAt(calls, name, i) ==>
            DeliversLastWrites(calls, i, reply.buffer.value))
  {
    EveryRunExplained(calls, name);
    var m := After(calls);
    if name in m {
      var i: nat :| OpenedAt(calls, name, i);
      forall k: nat | OpenedAt(calls, name, k) ensures k == i { OneOpening(calls, name, i, k); }
      CompleteMeansWritten(calls, i, m[name]);
      if Complete(m[name]) { DeliveryIsExact(calls, i, m[name]); }
    }
  }

  ghost predicate EveryRowWritten(calls: seq<Call>, i: nat)
    requires i < |calls| && calls[i].Begin? && Acceptable(calls[i].params)
  {
    forall r: nat :: r < calls[i].params.height ==> IsWritten(calls, calls[i].params, i, r)
  }

  ghost predicate IsWritten(calls: seq<Call>, p: BeginParams, i: nat, r: nat)
    requires Acceptable(p)
  {
    exists j: nat :: WritesRow(calls, p, i, j, r)
  }

  lemma CompleteMeansWritten(calls: seq<Call>, i: nat, t: Transfer)
    requires i < |calls| && calls[i].Begin? && Acceptable(calls[i].params) && TransferExplained(calls, i, t)
    ensures Complete(t) <==> EveryRowWritten(calls, i)
  {
    var p := t.params;
    forall r: nat | r < p.height ensures t.rows[r].Some? <==> IsWritten(calls, p, i, r) {
      assert RowExplained(calls, p, i, r, t.rows[r]);
    }
    if !Complete(t) {
      var r: nat :| r < |t.rows| && t.rows[r].None?;
      assert !IsWritten(calls, p, i, r);
    }
  }

  /** The buffer carries the description it was begun with, item by item. */
  predicate DescribedAs(p: BeginParams, b: AssembledBuffer) {
    && b.variableName == p.variableName && b.displayName == p.displayName
    && b.pixelLayout == p.pixelLayout && b.transpose == p.transpose
    && b.width == p.width && b.height == p.height && b.channels == p.channels
    && b.stride == p.stride && b.bufferType == p.bufferType
  }

  ghost predicate DeliversLastWrites(calls: seq<Call>, i: nat, b: AssembledBuffer)
    requires i < |calls| && calls[i].Begin? && Acceptable(calls[i].params)
  {
    var p := calls[i].params;
    && DescribedAs(p, b)
    && |b.bytes| == p.stride * p.height * p.channels * TypeSize(p.bufferType)
    && forall r: nat, j: nat :: r < p.height && WritesRowLast(calls, p, i, j, r) ==>
         BytesOfRow(b.bytes, RowBytes(p), r) == Some(calls[j].strip.Row(RowBytes(p), r))
  }

  function BytesOfRow(bytes: seq<Byte>, width: nat, r: nat): Option<seq<Byte>> {
    if 0 <= r * width <= (r + 1) * width <= |bytes| then Some(bytes[r * width..(r + 1) * width]) else None
  }

  lemma DeliveryIsExact(calls: seq<Call>, i: nat, t: Transfer)
    requires i < |calls| && calls[i].Begin? && Acceptable(calls[i].params) && TransferExplained(calls, i, t)
    requires Sound(t) && Complete(t)
    ensures DeliversLastWrites(calls, i, Assembled(t.params, Joined(t.rows)))
  {
    var p := t.params;
    var width := RowBytes(p);
    RowsDivideEvenly(p);
    JoinedLength(t.rows, width);
    forall r: nat, j: nat | r < p.height && WritesRowLast(calls, p, i, j, r)
      ensures BytesOfRow(Joined(t.rows), width, r) == Some(calls[j].strip.Row(width, r))
    {
      assert RowExplained(calls, p, i, r, t.rows[r]);
      JoinedRows(t.rows, width, r);
    }
  }

  /** A declaration is accepted exactly when its type is known, its geometry can be
      displayed, its rows are at least as long as the image is wide, and its size is
      that of all its rows, within the limit. */
  lemma AcceptableExactly(p: BeginParams)
    ensures Acceptable(p) <==>
      && IsKnown(p.bufferType)
      && 1 <= p.width <= 131072 && 1 <= p.height <= 131072 && 1 <= p.channels <= 4 && p.stride >= p.width
      && p.totalByteSize == p.stride * p.height * p.channels * TypeSize(p.bufferType)
      && p.totalByteSize <= 16 * 1024 * 1024 * 1024
  {
  }

  /** What each call answers after a run: begin, whether the declaration is acceptable;
      chunk, whether a transfer is open that has the strip's rows and the strip exactly
      their bytes; abort, whether a transfer was open. */
  lemma RepliesExactly(calls: seq<Call>, call: Call)
    requires !call.End?
    ensures Step(After(calls), call).1 ==
      Flag(match call
           case Begin(p) => Acceptable(p)
           case Chunk(name, s) => exists i: nat :: OpenedAt(calls, name, i) && HasRowsOf(calls[i].params, s)
           case Abort(name) => exists i: nat :: OpenedAt(calls, name, i))
  {
    EveryRunExplained(calls, call.Name());
    if call.Chunk? && call.variable in After(calls) {
      var i: nat :| OpenedAt(calls, call.variable, i);
      forall k: nat | OpenedAt(calls, call.variable, k) ensures k == i { OneOpening(calls, call.variable, i, k); }
      FitsExactly(calls[i].params, call.strip);
    }
  }

  predicate HasRowsOf(p: BeginParams, s: Strip) {
    && s.rowOffset + s.rowCount <= p.height
    && |s.bytes| == s.rowCount * (p.stride * p.channels * TypeSize(p.bufferType))
  }

  lemma FitsExactly(p: BeginParams, s: Strip)
    requires Acceptable(p)
    ensures s.Fits(p) <==> HasRowsOf(p, s)
  {
  }

  /** A begin discards the transfer it replaces even when it is itself refused,
      and end always does: whatever was received before, the next end fails. */
  lemma NothingSurvivesARefusal(calls: seq<Call>, call: Call)
    requires (call.Begin? && !Acceptable(call.params)) || call.End? || call.Abort?
    ensures Step(After(calls + [call]), End(call.Name())).1 == Buffer(None)
    ensures forall s :: Step(After(calls + [call]), Chunk(call.Name(), s)).1 == Flag(false)
  {
    assert (calls + [call])[..|calls|] == calls;
  }

  // ---------------------------------------------------------------------
  // Strips in any order
  // ---------------------------------------------------------------------

  function WriteAll(t: Transfer, strips: seq<Strip>): (u: Transfer)
    requires Acceptable(t.params) && forall s <- strips :: s.Fits(t.params)
    ensures u.params == t.params && |u.rows| == |t.rows|
    decreases |strips|
  {
    if strips == [] then t
    else Written(WriteAll(t, strips[..|strips| - 1]), strips[|strips| - 1])
  }

  /** A row that one strip of the run covers, and no other, ends as that strip's. */
  lemma {:induction false} WrittenByOne(t: Transfer, strips: seq<Strip>, s: Strip, r: nat)
    requires Acceptable(t.params) && forall c <- strips :: c.Fits(t.params)
    requires r < |t.rows| && s in strips && s.Covers(r)
    requires forall c <- strips :: c.Covers(r) ==> c == s
    ensures WriteAll(t, strips).rows[r] == Some(s.Row(RowBytes(t.params), r))
    decreases |strips|
  {
    var front, last := strips[..|strips| - 1], strips[|strips| - 1];
    if !last.Covers(r) {
      assert s in front;
      WrittenByOne(t, front, s, r);
    }
  }

  lemma {:induction false} WrittenByNone(t: Transfer, strips: seq<Strip>, r: nat)
    requires Acceptable(t.params) && forall c <- strips :: c.Fits(t.params)
    requires r < |t.rows| && forall c <- strips :: !c.Covers(r)
    ensures WriteAll(t, strips).rows[r] == t.rows[r]
    decreases |strips|
  {
    if strips != [] { WrittenByNone(t, strips[..|strips| - 1], r); }
  }

  ghost predicate Disjoint(strips: seq<Strip>) {
    forall a, b, r :: 0 <= a < b < |strips| && strips[a].Covers(r) ==> !strips[b].Covers(r)
  }

  /** Disjoint strips may arrive in any order: every arrangement of them leaves
      the same transfer. */
  lemma StripsInAnyOrder(t: Transfer, strips: seq<Strip>, other: seq<Strip>)
    requires Acceptable(t.params) && forall s <- strips :: s.Fits(t.params)
    requires Disjoint(strips) && multiset(strips) == multiset(other)
    ensures forall s <- other :: s.Fits(t.params)
    ensures WriteAll(t, strips) == WriteAll(t, other)
  {
    assert forall s :: s in strips <==> s in multiset(strips);
    assert forall s :: s in other <==> s in multiset(other);
    var u, v := WriteAll(t, strips), WriteAll(t, other);
    forall r | 0 <= r < |t.rows| ensures u.rows[r] == v.rows[r] {
      if a :| 0 <= a < |strips| && strips[a].Covers(r) {
        WrittenByOne(t, strips, strips[a], r);
        WrittenByOne(t, other, strips[a], r);
      } else {
        WrittenByNone(t, strips, r);
        WrittenByNone(t, other, r);
      }
    }
    assert u.rows == v.rows;
  }

  function Chunks(name: string, strips: seq<Strip>): seq<Call> {
    if strips == [] then [] else Chunks(name, strips[..|strips| - 1]) + [Chunk(name, strips[|strips| - 1])]
  }

  lemma AfterOneMore(calls: seq<Call>, call: Call)
    ensures After(calls + [call]) == Step(After(calls), call).0
  {
    assert (calls + [call])[..|calls|] == calls;
  }

  /** The same over calls: chunks of an open transfer are those writes. */
  lemma {:induction false} ChunksAreWrites(calls: seq<Call>, name: string, strips: seq<Strip>)
    requires name in After(calls) && forall s <- strips :: s.Fits(After(calls)[name].params)
    ensures name in After(calls + Chunks(name, strips))
    ensures After(calls + Chunks(name, strips))[name] == WriteAll(After(calls)[name], strips)
    decreases |strips|
  {
    if strips == [] {
      assert calls + [] == calls;
    } else {
      var front, last := strips[..|strips| - 1], strips[|strips| - 1];
      ChunksAreWrites(calls, name, front);
      AfterOneMore(calls + Chunks(name, front), Chunk(name, last));
      assert calls + Chunks(name, strips) == calls + Chunks(name, front) + [Chunk(name, last)];
    }
  }

  // ---------------------------------------------------------------------
  // The assembler
  // ---------------------------------------------------------------------

  datatype InProgress = InProgress(params: BeginParams, bytes: seq<Byte>, rowsReceived: seq<bool>)

  predicate WellFormed(e: InProgress) {
    Acceptable(e.params) && |e.bytes| == e.params.totalByteSize && |e.rowsReceived| == e.params.height
  }

  function RowOf(bytes: seq<Byte>, height: nat, width: nat, r: nat): (row: seq<Byte>)
    requires |bytes| == height * width && r < height
    ensures |row| == width
  {
    RowSpan(r, height, width);
    bytes[r * width..(r + 1) * width]
  }

  function Rows(bytes: seq<Byte>, received: seq<bool>, width: nat): seq<Option<seq<Byte>>>
    requires |bytes| == |received| * width
  {
    seq(|received|, r requires 0 <= r < |received| =>
          if received[r] then Some(RowOf(bytes, |received|, width, r)) else None)
  }

  function Abstract(e: InProgress): Transfer
    requires WellFormed(e)
  {
    RowsDivideEvenly(e.params);
    Transfer(e.params, Rows(e.bytes, e.rowsReceived, RowBytes(e.params)))
  }

  /** Copying a strip into the flat bytes writes exactly its rows. */
  lemma SpliceIsOverlay(bytes: seq<Byte>, received: seq<bool>, s: Strip, width: nat, updated: seq<Byte>, marked: seq<bool>)
    requires |bytes| == |received| * width && |updated| == |bytes| && |marked| == |received|
    requires s.rowOffset + s.rowCount <= |received| && |s.bytes| == s.rowCount * width
    requires var offset := s.rowOffset * width;
      && 0 <= offset <= offset + |s.bytes| <= |bytes|
      && updated == bytes[..offset] + s.bytes + bytes[offset + |s.bytes|..]
    requires forall r :: 0 <= r < |received| ==> marked[r] == (received[r] || s.Covers(r))
    ensures Rows(updated, marked, width) == Overlaid(Rows(bytes, received, width), s, width)
  {
    forall r | 0 <= r < |received|
      ensures RowOf(updated, |received|, width, r)
           == if s.Covers(r) then s.Row(width, r) else RowOf(bytes, |received|, width, r)
    {
      SplicedRow(bytes, |received|, s, width, updated, r);
    }
  }

  /** A stretch of a spliced sequence lies before, within or after the splice. */
  lemma SpliceParts(bytes: seq<Byte>, offset: nat, middle: seq<Byte>, from: nat, to: nat)
    requires offset + |middle| <= |bytes| && from <= to <= |bytes|
    ensures var all := bytes[..offset] + middle + bytes[offset + |middle|..];
      && |all| == |bytes|
      && (to <= offset || offset + |middle| <= from ==> all[from..to] == bytes[from..to])
      && (offset <= from && to <= offset + |middle| ==> all[from..to] == middle[from - offset..to - offset])
  {
  }

  lemma SplicedRow(bytes: seq<Byte>, height: nat, s: Strip, width: nat, updated: seq<Byte>, r: nat)
    requires |bytes| == height * width && |updated| == |bytes| && r < height
    requires s.rowOffset + s.rowCount <= height && |s.bytes| == s.rowCount * width
    requires var offset := s.rowOffset * width;
      && 0 <= offset <= offset + |s.bytes| <= |bytes|
      && updated == bytes[..offset] + s.bytes + bytes[offset + |s.bytes|..]
    ensures RowOf(updated, height, width, r)
         == if s.Covers(r) then s.Row(width, r) else RowOf(bytes, height, width, r)
  {
    RowSpan(r, height, width);
    SpliceParts(bytes, s.rowOffset * width, s.bytes, r * width, (r + 1) * width);
    RowPosition(s.rowOffset, s.rowCount, width, r);
  }

  /** Where row `r` lies relative to a run of rows, in bytes. */
  lemma RowPosition(offset: nat, count: nat, width: nat, r: nat)
    ensures r < offset ==> (r + 1) * width <= offset * width
    ensures r >= offset + count ==> offset * width + count * width <= r * width
    ensures offset <= r < offset + count ==>
              && offset * width <= r * width && (r + 1) * width <= offset * width + count * width
              && r * width - offset * width == (r - offset) * width
              && (r + 1) * width - offset * width == (r - offset + 1) * width
  {
    assert (offset + count) * width == offset * width + count * width;
    if r < offset {
      MulMonotone(r + 1, offset, width);
    } else if r >= offset + count {
      MulMonotone(offset + count, r, width);
    } else {
      MulMonotone(offset, r, width);
      MulMonotone(r + 1, offset + count, width);
      assert (r - offset) * width == r * width - offset * width;
      assert (r - offset + 1) * width == (r + 1) * width - offset * width;
    }
  }

  lemma {:induction false} JoinedPrefix(bytes: seq<Byte>, received: seq<bool>, width: nat, n: nat)
    requires |bytes| == |received| * width && n <= |received|
    requires forall r :: 0 <= r < |received| ==> received[r]
    ensures 0 <= n * width <= |bytes|
    ensures Joined(Rows(bytes, received, width)[..n]) == bytes[..n * width]
  {
    if n > 0 {
      JoinedPrefix(bytes, received, width, n - 1);
      RowSpan(n - 1, |received|, width);
      var rows := Rows(bytes, received, width);
      assert rows[..n][..n - 1] == rows[..n - 1];
    }
  }

  lemma JoinedIsTheBytes(e: InProgress)
    requires WellFormed(e) && forall r :: 0 <= r < |e.rowsReceived| ==> e.rowsReceived[r]
    ensures Complete(Abstract(e)) && Joined(Abstract(e).rows) == e.bytes
  {
    RowsDivideEvenly(e.params);
    JoinedPrefix(e.bytes, e.rowsReceived, RowBytes(e.params), |e.rowsReceived|);
    assert Abstract(e).rows[..|e.rowsReceived|] == Abstract(e).rows;
  }

  ghost predicate AllWellFormed(m: map<string, InProgress>) {
    forall name <- m :: WellFormed(m[name]) && m[name].params.variableName == name
  }

  ghost function Abstraction(m: map<string, InProgress>): (t: Transfers)
    requires AllWellFormed(m)
    ensures AllSound(t) && t.Keys == m.Keys
  {
    map name <- m :: Abstract(m[name])
  }

  lemma AbstractionOfRemoval(m: map<string, InProgress>, name: string)
    requires AllWellFormed(m)
    ensures AllWellFormed(m - {name}) && Abstraction(m - {name}) == Abstraction(m) - {name}
  {
  }

  lemma AbstractionOfUpdate(m: map<string, InProgress>, name: string, e: InProgress)
    requires AllWellFormed(m) && WellFormed(e) && e.params.variableName == name
    ensures AllWellFormed(m[name := e]) && Abstraction(m[name := e]) == Abstraction(m)[name := Abstract(e)]
  {
  }

  function Fresh(p: BeginParams): (e: InProgress)
    requires Acceptable(p)
    ensures WellFormed(e) && Abstract(e) == Opened(p)
  {
    InProgress(p, seq(p.totalByteSize, _ => 0), seq(p.height, _ => false))
  }

  class BufferAssembler {
    var inProgress: map<string, InProgress>

    ghost predicate Valid()
      reads this
    {
      AllWellFormed(inProgress)
    }

    ghost function Model(): (m: Transfers)
      requires Valid()
      reads this
      ensures AllSound(m)
    {
      Abstraction(inProgress)
    }

    constructor ()
      ensures Valid() && Model() == map[]
    {
      inProgress := map[];
    }

    method BeginTransfer(params: BeginParams) returns (ok: bool)
      requires Valid()
      modifies this
      ensures Valid() && (Model(), Flag(ok)) == Step(old(Model()), Begin(params))
    {
      var name := params.variableName;
      AbstractionOfRemoval(inProgress, name);
      if !IsKnown(params.bufferType) {
        inProgress := inProgress - {name};
        return false;
      }
      if params.totalByteSize > MAX_BUFFER_BYTES {
        inProgress := inProgress - {name};
        return false;
      }
      if !WithinDisplayLimits(params.width, params.height, params.channels) {
        inProgress := inProgress - {name};
        return false;
      }
      var required := ComputePaddedPayloadSize(params.width, params.height, params.channels, params.stride,
                                               params.bufferType);
      if required != Some(params.totalByteSize) {
        inProgress := inProgress - {name};
        return false;
      }
      AbstractionOfUpdate(inProgress, name, Fresh(params));
      inProgress := inProgress[name := Fresh(params)];
      return true;
    }

    method ReceiveChunk(name: string, rowOffset: nat, rowCount: nat, bytes: seq<Byte>) returns (ok: bool)
      requires Valid()
      modifies this
      ensures Valid() && (Model(), Flag(ok)) == Step(old(Model()), Chunk(name, Strip(rowOffset, rowCount, bytes)))
    {
      if name !in inProgress {
        return false;
      }
      var entry := inProgress[name];
      var updated := CopyStrip(entry, rowOffset, rowCount, bytes);
      if updated.None? {
        return false;
      }
      AbstractionOfUpdate(inProgress, name, updated.value);
      inProgress := inProgress[name := updated.value];
      return true;
    }

    method EndTransfer(name: string) returns (out: Option<AssembledBuffer>)
      requires Valid()
      modifies this
      ensures Valid() && (Model(), Buffer(out)) == Step(old(Model()), End(name))
    {
      AbstractionOfRemoval(inProgress, name);
      if name !in inProgress {
        assert Abstraction(inProgress) - {name} == Abstraction(inProgress);
        return None;
      }
      var entry := inProgress[name];
      inProgress := inProgress - {name};
      var all := AllReceived(entry.rowsReceived);
      if !all {
        MissingRow(entry);
        return None;
      }
      JoinedIsTheBytes(entry);
      return Some(Assembled(entry.params, entry.bytes));
    }

    method AbortTransfer(name: string) returns (existed: bool)
      requires Valid()
      modifies this
      ensures Valid() && (Model(), Flag(existed)) == Step(old(Model()), Abort(name))
    {
      AbstractionOfRemoval(inProgress, name);
      existed := name in inProgress;
      inProgress := inProgress - {name};
    }
  }

  lemma MissingRow(e: InProgress)
    requires WellFormed(e) && exists r :: 0 <= r < |e.rowsReceived| && !e.rowsReceived[r]
    ensures !Complete(Abstract(e))
  {
    var r :| 0 <= r < |e.rowsReceived| && !e.rowsReceived[r];
    assert Abstract(e).rows[r] == None && Abstract(e).rows[r] in Abstract(e).rows;
  }

  lemma StripInside(offset: nat, count: nat, height: nat, width: nat)
    requires offset + count <= height
    ensures 0 <= offset * width <= offset * width + count * width <= height * width
  {
    MulMonotone(offset + count, height, width);
    MulMonotone(0, offset, width);
    MulMonotone(0, count, width);
    assert (offset + count) * width == offset * width + count * width;
  }

  /** The body of chunk() once its transfer is found: None when the strip is
      refused. */
  method CopyStrip(entry: InProgress, rowOffset: nat, rowCount: nat, bytes: seq<Byte>) returns (r: Option<InProgress>)
    requires WellFormed(entry)
    ensures r.Some? <==> Strip(rowOffset, rowCount, bytes).Fits(entry.params)
    ensures r.Some? ==> WellFormed(r.value) && r.value.params == entry.params
    ensures r.Some? ==> Abstract(r.value) == Written(Abstract(entry), Strip(rowOffset, rowCount, bytes))
  {
    var height := entry.params.height;
    if rowOffset > height || rowCount > height - rowOffset {
      return None;
    }
    var bytesPerRow := |entry.bytes| / height;
    RowsDivideEvenly(entry.params);
    var offset := rowOffset * bytesPerRow;
    var expected := rowCount * bytesPerRow;
    StripInside(rowOffset, rowCount, height, bytesPerRow);
    if |bytes| != expected || offset + |bytes| > |entry.bytes| {
      return None;
    }
    var copied := entry.bytes[..offset] + bytes + entry.bytes[offset + |bytes|..];
    var received := MarkReceived(entry.rowsReceived, rowOffset, rowCount);
    SpliceIsOverlay(entry.bytes, entry.rowsReceived, Strip(rowOffset, rowCount, bytes), bytesPerRow, copied, received);
    return Some(InProgress(entry.params, copied, received));
  }

  method MarkReceived(rows: seq<bool>, from: nat, count: nat) returns (marked: seq<bool>)
    requires from + count <= |rows|
    ensures |marked| == |rows|
    ensures forall r :: 0 <= r < |rows| ==> marked[r] == (rows[r] || from <= r < from + count)
  {
    marked := rows;
    for r := from to from + count
      invariant |marked| == |rows|
      invariant forall k :: 0 <= k < |rows| ==> marked[k] == (rows[k] || from <= k < r)
    {
      marked := marked[r := true];
    }
  }

  method AllReceived(rows: seq<bool>) returns (all: bool)
    ensures all <==> forall r :: 0 <= r < |rows| ==> rows[r]
  {
    for r := 0 to |rows|
      invariant forall k :: 0 <= k < r ==> rows[k]
    {
      if !rows[r] { return false; }
    }
    return true;
  }
}
