/**
 The inspector built from an accepted entry: get_buffer_metadata, and what the
 dictionary it returns says of the entry's fields.
 */
module DeclarativeMetadata {
  import opened DeclarativeTemplates
  import opened DeclarativeTypes
  import opened Wrappers

  // ---------------------------------------------------------------------
  // The inspector
  // ---------------------------------------------------------------------

  datatype Metadata = Metadata(
    displayName: string, pointer: nat, width: int, height: int, channels: int,
    dtype: int, rowStride: int, pixelLayout: string, transpose: bool)

  predicate GoodMetadata(m: Metadata) {
    && m.width >= 0 && m.height >= 0 && m.channels >= 0 && m.rowStride >= 0
    && m.dtype in DTYPE_ELEMSIZE && LayoutText(m.pixelLayout)
  }

  /** _resolve_display_name: a failing template falls back to the default. */
  function DisplayName(env: Env, template: Json, name: string, typeName: string): string {
    if !template.Str? then name + " (" + typeName + ")"
    else match Substitute(env, map["name" := name, "type" := typeName], template.s)
      case Substituted(text) => text
      case _ => name + " (" + typeName + ")"
  }

  /** The default template shows what the fallback shows. */
  lemma DefaultDisplayIsTheFallback(env: Env, name: string, typeName: string)
    ensures DisplayName(env, DEFAULTS["display_name"], name, typeName) == name + " (" + typeName + ")"
  {
    var ph := map["name" := name, "type" := typeName];
    DefaultTemplate();
    TwoPlaceholders(env, ph, "name", " (", "type", ")");
    assert name + (" (" + (typeName + ")")) == name + " (" + typeName + ")";
  }

  lemma DefaultTemplate()
    ensures DEFAULTS["display_name"] == Str(Braced("name") + (" (" + (Braced("type") + ")")))
    ensures IsWord("name") && IsWord("type") && '{' !in " (" && '{' !in ")"
  {
    assert "{name} ({type})" == Braced("name") + (" (" + (Braced("type") + ")"));
  }

  /** _resolve_pixel_layout's loop. */
  method PickLayout(env: Env, ph: Placeholders, layout: Json) returns (r: Eval<string>)
    ensures r == ResolveLayout(env, ph, layout)
  {
    var node, clean := layout, true;
    while node.Obj?
      invariant ResolveLayout(env, ph, layout) == ResolveLayout(env, ph, node).After(clean)
      decreases node
    {
      if "if" !in node.fields {
        return Raise(Malformed, clean);
      }
      var condition := Condition(env, ph, node.fields["if"]);
      clean := condition.clean && clean;
      if condition.Raise? {
        return Raise(condition.error, clean);
      }
      var branch := if condition.value then "then" else "else";
      if branch !in node.fields {
        return Raise(Malformed, clean);
      }
      node := node.fields[branch];
    }
    return if node.Str? then Ok(node.s, clean) else Raise(Malformed, clean);
  }

  lemma NextSound(env: Env, entry: Entry, ph: Placeholders, values: seq<FieldValue>)
    requires FieldsAccepted(entry) && FitsInOrder(values) && |values| < FIELDS
    requires Stage(env, entry, |values|) == Ok(Progress(ph, values), true)
    ensures var f := InOrder(|values|);
            var v := Extended(env, ph, entry, f);
            && v.clean
            && (v.Ok? ==>
                  && FitsField(f, v.value) && FitsInOrder(values + [v.value])
                  && Stage(env, entry, |values| + 1) == Ok(Progress(Derived(env, ph, f, v.value), values + [v.value]), true))
            && (v.Raise? ==> Accounted(env, entry, v.error) && Resolution(env, entry) == Raise(v.error, true))
  {
    ExtendedSound(env, entry, ph, values);
    NextStage(env, entry, ph, values);
    NextRaise(env, entry, ph, values);
    var v := Extended(env, ph, entry, InOrder(|values|));
    if v.Ok? { NextFits(values, v.value); }
  }

  lemma ExtendedSound(env: Env, entry: Entry, ph: Placeholders, values: seq<FieldValue>)
    requires FieldsAccepted(entry) && |values| < FIELDS
    requires Stage(env, entry, |values|) == Ok(Progress(ph, values), true)
    ensures var v := Extended(env, ph, entry, InOrder(|values|));
            && v.clean
            && (if v.Ok? then FitsField(InOrder(|values|), v.value) else Accounted(env, entry, v.error))
  {
    StageSound(env, entry, |values|);
    ExtendedFieldSound(env, ph, entry, InOrder(|values|));
  }

  lemma NextFits(values: seq<FieldValue>, v: FieldValue)
    requires FitsInOrder(values) && |values| < FIELDS && FitsField(InOrder(|values|), v)
    ensures FitsInOrder(values + [v])
  {
  }

  lemma NextStage(env: Env, entry: Entry, ph: Placeholders, values: seq<FieldValue>)
    requires |values| < FIELDS && Stage(env, entry, |values|) == Ok(Progress(ph, values), true)
    ensures var f := InOrder(|values|);
            var v := Extended(env, ph, entry, f);
            v.Ok? && v.clean ==>
              Stage(env, entry, |values| + 1) == Ok(Progress(Derived(env, ph, f, v.value), values + [v.value]), true)
  {
  }

  /** A field that raises decides the whole resolution. */
  lemma NextRaise(env: Env, entry: Entry, ph: Placeholders, values: seq<FieldValue>)
    requires |values| < FIELDS && Stage(env, entry, |values|) == Ok(Progress(ph, values), true)
    ensures var v := Extended(env, ph, entry, InOrder(|values|));
            v.Raise? && v.clean ==> Resolution(env, entry) == Raise(v.error, true)
  {
    var v := Extended(env, ph, entry, InOrder(|values|));
    if v.Raise? && v.clean { RaisesToTheEnd(env, entry, |values| + 1, FIELDS); }
  }

  /** get_buffer_metadata's dictionary, from the field values in resolution order. */
  function Packed(values: seq<FieldValue>, displayName: string): (m: Metadata)
    requires |values| == FIELDS && FitsInOrder(values)
    ensures GoodMetadata(m)
  {
    assert forall j :: 0 <= j < |values| ==> FitsField(InOrder(j), values[j]);
    CodesHaveSizes(values[0].r.i);
    Metadata(displayName, values[5].id, values[2].r.i, values[3].r.i, values[4].r.i,
             values[0].r.i, values[6].r.i, values[7].s, values[1].r.b)
  }

  // ---------------------------------------------------------------------
  // What the dictionary says of the entry
  // ---------------------------------------------------------------------

  function ShownAs(env: Env, i: int): string { env.show(i).GetOr("") }

  /** A placeholder's text, read off the finished metadata. */
  function Spelled(env: Env, m: Metadata, key: string): string {
    if key == "sym" then env.sym
    else if key == "dtype" then ShownAs(env, m.dtype)
    else if key == "elemsize" then ShownAs(env, if m.dtype in DTYPE_ELEMSIZE then DTYPE_ELEMSIZE[m.dtype] else 0)
    else if key == "transpose" then if m.transpose then "1" else "0"
    else if key == "width" then ShownAs(env, m.width)
    else if key == "height" then ShownAs(env, m.height)
    else if key == "channels" then ShownAs(env, m.channels)
    else ShownAs(env, m.rowStride)
  }

  /** The placeholders at a stage, spelling out the fields before it. */
  function Filling(env: Env, m: Metadata, available: set<string>): Placeholders {
    map key | key in available + {"sym"} :: Spelled(env, m, key)
  }

  /** The entry's field `name`, or its default, comes to `r` given the other fields. */
  ghost predicate ComesTo(env: Env, entry: Entry, m: Metadata, name: string, stage: Field, kind: Kind, r: Result) {
    && FieldNode(entry, name).Some?
    && ResolveNode(env, Filling(env, m, DerivedByStage(stage)), kind, FieldNode(entry, name).value) == Ok(r, true)
  }

  ghost predicate PointsTo(env: Env, entry: Entry, m: Metadata) {
    exists v :: ComesTo(env, entry, m, "pointer", BufferPointer, Pointer, ValueResult(v)) && env.cast(v) == Some(m.pointer)
  }

  ghost predicate LaidOut(env: Env, entry: Entry, m: Metadata) {
    && FieldNode(entry, "pixel_layout").Some?
    && ResolveLayout(env, Filling(env, m, DerivedByStage(PixelLayout)), FieldNode(entry, "pixel_layout").value)
       == Ok(m.pixelLayout, true)
  }

  /** Each item of the metadata is what the entry's field of that name comes to, with
      the placeholders spelling out the items resolved before it. */
  ghost predicate Describes(env: Env, entry: Entry, m: Metadata) {
    && ComesTo(env, entry, m, "dtype", Dtype, Code, IntResult(m.dtype))
    && ComesTo(env, entry, m, "transpose", Transpose, Flag, BoolResult(m.transpose))
    && ComesTo(env, entry, m, "width", Width, Size, IntResult(m.width))
    && ComesTo(env, entry, m, "height", Height, Size, IntResult(m.height))
    && ComesTo(env, entry, m, "channels", Channels, Size, IntResult(m.channels))
    && PointsTo(env, entry, m)
    && ComesTo(env, entry, m, "row_stride", RowStride, Size, IntResult(m.rowStride))
    && LaidOut(env, entry, m)
  }

  /** The value of field `f` in the metadata. */
  function Slot(m: Metadata, f: Field): FieldValue {
    match f
    case Dtype => Resolved(IntResult(m.dtype))
    case Transpose => Resolved(BoolResult(m.transpose))
    case Width => Resolved(IntResult(m.width))
    case Height => Resolved(IntResult(m.height))
    case Channels => Resolved(IntResult(m.channels))
    case BufferPointer => Buffer(m.pointer)
    case RowStride => Resolved(IntResult(m.rowStride))
    case PixelLayout => Layout(m.pixelLayout)
  }

  lemma PackedSlots(values: seq<FieldValue>, displayName: string, k: nat)
    requires |values| == FIELDS && FitsInOrder(values) && k < FIELDS
    ensures Slot(Packed(values, displayName), InOrder(k)) == values[k]
  {
    assert FitsField(InOrder(k), values[k]);
  }

  /** Field `k` resolved to `v` under `ph`, which becomes `next`. */
  ghost predicate Leads(env: Env, entry: Entry, k: nat, ph: Placeholders, v: FieldValue, next: Placeholders) {
    && ResolveField(env, ph, entry, InOrder(k)) == Ok(v, true)
    && Prints(env, Printed(InOrder(k), v)) && next == Derived(env, ph, InOrder(k), v)
  }

  /** The placeholders before and after each field of a resolution. */
  ghost predicate Traced(env: Env, entry: Entry, phs: seq<Placeholders>, values: seq<FieldValue>) {
    && |phs| == |values| + 1 && phs[0] == map["sym" := env.sym]
    && forall k :: 0 <= k < |values| ==> Leads(env, entry, k, phs[k], values[k], phs[k + 1])
  }

  lemma TraceGrows(env: Env, entry: Entry, phs: seq<Placeholders>, values: seq<FieldValue>, v: FieldValue, next: Placeholders)
    requires Traced(env, entry, phs, values) && Leads(env, entry, |values|, phs[|values|], v, next)
    ensures Traced(env, entry, phs + [next], values + [v])
  {
  }

  lemma StageLeads(env: Env, entry: Entry, k: nat, q: Progress) returns (p: Progress, v: FieldValue)
    requires 0 < k <= FIELDS && Stage(env, entry, k) == Ok(q, true)
    ensures Stage(env, entry, k - 1) == Ok(p, true)
    ensures q.values == p.values + [v] && Leads(env, entry, k - 1, p.ph, v, q.ph)
  {
    p := Stage(env, entry, k - 1).value;
    v := Extended(env, p.ph, entry, InOrder(k - 1)).value;
  }

  /** The trace of one field more. */
  lemma OneFieldMore(env: Env, entry: Entry, phs: seq<Placeholders>, p: Progress, v: FieldValue, q: Progress)
    returns (more: seq<Placeholders>)
    requires Traced(env, entry, phs, p.values) && phs[|p.values|] == p.ph
    requires q.values == p.values + [v] && Leads(env, entry, |p.values|, p.ph, v, q.ph)
    ensures Traced(env, entry, more, q.values) && more[|q.values|] == q.ph
  {
    TraceGrows(env, entry, phs, p.values, v, q.ph);
    more := phs + [q.ph];
  }

  lemma {:induction false} StageTraced(env: Env, entry: Entry, k: nat, q: Progress) returns (phs: seq<Placeholders>)
    requires k <= FIELDS && Stage(env, entry, k) == Ok(q, true)
    ensures |q.values| == k && Traced(env, entry, phs, q.values) && phs[k] == q.ph
    decreases k
  {
    if k == 0 {
      NothingTraced(env, entry, q);
      phs := [q.ph];
    } else {
      var p, v := StageLeads(env, entry, k, q);
      phs := StageTraced(env, entry, k - 1, p);
      phs := OneFieldMore(env, entry, phs, p, v, q);
    }
  }

  lemma NothingTraced(env: Env, entry: Entry, q: Progress)
    requires Stage(env, entry, 0) == Ok(q, true)
    ensures Traced(env, entry, [q.ph], q.values) && q.values == []
  {
  }

  lemma FillingWith(env: Env, m: Metadata, available: set<string>, key: string)
    ensures Filling(env, m, available)[key := Spelled(env, m, key)] == Filling(env, m, available + {key})
  {
  }

  /** The placeholder a field of one adds. */
  lemma DerivedOne(env: Env, m: Metadata, ph: Placeholders, f: Field)
    requires f in {Transpose, Width, Height, Channels, RowStride}
    requires Prints(env, Printed(f, Slot(m, f)))
    ensures Derived(env, ph, f, Slot(m, f)) == ph[Name(f) := Spelled(env, m, Name(f))]
  {
    if f != Transpose { assert env.show(Printed(f, Slot(m, f))[0]).Some?; }
  }

  lemma DerivedFromDtype(env: Env, m: Metadata, ph: Placeholders)
    requires m.dtype in DTYPE_ELEMSIZE && Prints(env, Printed(Dtype, Slot(m, Dtype)))
    ensures Derived(env, ph, Dtype, Slot(m, Dtype))
         == ph["dtype" := Spelled(env, m, "dtype")]["elemsize" := Spelled(env, m, "elemsize")]
  {
    assert env.show(Printed(Dtype, Slot(m, Dtype))[0]).Some? && env.show(Printed(Dtype, Slot(m, Dtype))[1]).Some?;
  }

  lemma DtypeFilling(env: Env, m: Metadata)
    requires m.dtype in DTYPE_ELEMSIZE && Prints(env, Printed(Dtype, Slot(m, Dtype)))
    ensures Derived(env, Filling(env, m, {}), Dtype, Slot(m, Dtype)) == Filling(env, m, {"dtype", "elemsize"})
  {
    DerivedFromDtype(env, m, Filling(env, m, {}));
    FillingWith(env, m, {}, "dtype");
    FillingWith(env, m, {"dtype"}, "elemsize");
    assert {} + {"dtype"} == {"dtype"} && {"dtype"} + {"elemsize"} == {"dtype", "elemsize"};
  }

  lemma StageAdds(k: nat)
    requires k + 1 < FIELDS && InOrder(k) != Dtype && InOrder(k) != BufferPointer
    ensures DerivedByStage(InOrder(k)) + {Name(InOrder(k))} == DerivedByStage(InOrder(k + 1))
  {
  }

  /** The placeholders a field adds are those of the next field's stage. */
  lemma DerivedFilling(env: Env, m: Metadata, k: nat)
    requires k + 1 < FIELDS && m.dtype in DTYPE_ELEMSIZE
    requires Prints(env, Printed(InOrder(k), Slot(m, InOrder(k))))
    ensures Derived(env, Filling(env, m, DerivedByStage(InOrder(k))), InOrder(k), Slot(m, InOrder(k)))
         == Filling(env, m, DerivedByStage(InOrder(k + 1)))
  {
    var f := InOrder(k);
    var available := DerivedByStage(f);
    var ph := Filling(env, m, available);
    if f == Dtype {
      DtypeFilling(env, m);
    } else if f != BufferPointer {
      DerivedOne(env, m, ph, f);
      FillingWith(env, m, available, Name(f));
      StageAdds(k);
    }
  }

  /** The metadata has the values resolved, each in its field's slot. */
  ghost predicate Holds(m: Metadata, values: seq<FieldValue>) {
    && |values| == FIELDS && m.dtype in DTYPE_ELEMSIZE
    && forall j :: 0 <= j < FIELDS ==> Slot(m, InOrder(j)) == values[j]
  }

  /** The placeholders are those of the stage of field `k`. */
  ghost predicate AtStage(env: Env, m: Metadata, ph: Placeholders, k: nat) {
    k < FIELDS && ph == Filling(env, m, DerivedByStage(InOrder(k)))
  }

  lemma FirstStage(env: Env, m: Metadata)
    ensures AtStage(env, m, map["sym" := env.sym], 0)
  {
    assert map["sym" := env.sym] == Filling(env, m, {});
  }

  lemma TraceStep(env: Env, entry: Entry, m: Metadata, k: nat, ph: Placeholders, next: Placeholders)
    requires Leads(env, entry, k, ph, Slot(m, InOrder(k)), next) && AtStage(env, m, ph, k)
    requires k + 1 < FIELDS && m.dtype in DTYPE_ELEMSIZE
    ensures AtStage(env, m, next, k + 1)
  {
    DerivedFilling(env, m, k);
  }

  lemma {:induction false} TraceFilling(env: Env, entry: Entry, m: Metadata, phs: seq<Placeholders>,
                                        values: seq<FieldValue>, k: nat)
    requires Traced(env, entry, phs, values) && Holds(m, values) && k < FIELDS
    ensures AtStage(env, m, phs[k], k)
    decreases k
  {
    if k == 0 {
      FirstStage(env, m);
    } else {
      TraceFilling(env, entry, m, phs, values, k - 1);
      assert Leads(env, entry, k - 1, phs[k - 1], values[k - 1], phs[k - 1 + 1]);
      TraceStep(env, entry, m, k - 1, phs[k - 1], phs[k]);
    }
  }

  /** A field's place in the resolution order. */
  function Place(f: Field): (k: nat)
    ensures k < FIELDS && InOrder(k) == f
  {
    match f
    case Dtype => 0
    case Transpose => 1
    case Width => 2
    case Height => 3
    case Channels => 4
    case BufferPointer => 5
    case RowStride => 6
    case PixelLayout => 7
  }

  /** Field `f` resolves to its slot. */
  ghost predicate FillsItsSlot(env: Env, entry: Entry, m: Metadata, f: Field) {
    ResolveField(env, Filling(env, m, DerivedByStage(f)), entry, f) == Ok(Slot(m, f), true)
  }

  lemma NodeDescribed(env: Env, entry: Entry, m: Metadata, f: Field)
    requires FillsItsSlot(env, entry, m, f) && f != BufferPointer && f != PixelLayout
    ensures ComesTo(env, entry, m, Name(f), f, KindOf(f), Slot(m, f).r)
  {
  }

  lemma PointerDescribed(env: Env, entry: Entry, m: Metadata)
    requires FillsItsSlot(env, entry, m, BufferPointer)
    ensures PointsTo(env, entry, m)
  {
    var v := ResolveNode(env, Filling(env, m, DerivedByStage(BufferPointer)), Pointer, FieldNode(entry, "pointer").value).value.v;
    assert ComesTo(env, entry, m, "pointer", BufferPointer, Pointer, ValueResult(v));
  }

  lemma LayoutDescribed(env: Env, entry: Entry, m: Metadata)
    requires FillsItsSlot(env, entry, m, PixelLayout)
    ensures LaidOut(env, entry, m)
  {
  }

  lemma SlotsDescribe(env: Env, entry: Entry, m: Metadata)
    requires forall f :: FillsItsSlot(env, entry, m, f)
    ensures Describes(env, entry, m)
  {
    NodeDescribed(env, entry, m, Dtype);
    NodeDescribed(env, entry, m, Transpose);
    NodeDescribed(env, entry, m, Width);
    NodeDescribed(env, entry, m, Height);
    NodeDescribed(env, entry, m, Channels);
    NodeDescribed(env, entry, m, RowStride);
    PointerDescribed(env, entry, m);
    LayoutDescribed(env, entry, m);
  }

  lemma PackedDescribes(env: Env, entry: Entry, p: Progress, displayName: string)
    requires Resolution(env, entry) == Ok(p, true) && |p.values| == FIELDS && FitsInOrder(p.values)
    ensures Describes(env, entry, Packed(p.values, displayName))
  {
    var m := Packed(p.values, displayName);
    var phs := StageTraced(env, entry, FIELDS, p);
    forall j | 0 <= j < FIELDS ensures Slot(m, InOrder(j)) == p.values[j] { PackedSlots(p.values, displayName, j); }
    forall f: Field ensures FillsItsSlot(env, entry, m, f) {
      var k := Place(f);
      TraceFilling(env, entry, m, phs, p.values, k);
      assert Leads(env, entry, k, phs[k], p.values[k], phs[k + 1]);
    }
    SlotsDescribe(env, entry, m);
  }

  /** Both have the same items up to a stage. */
  predicate AlikeAt(m: Metadata, n: Metadata, stage: Field) {
    var k := Place(stage);
    && (k > 0 ==> m.dtype == n.dtype) && (k > 1 ==> m.transpose == n.transpose)
    && (k > 2 ==> m.width == n.width) && (k > 3 ==> m.height == n.height)
    && (k > 4 ==> m.channels == n.channels) && (k > 6 ==> m.rowStride == n.rowStride)
  }

  lemma SpelledAlike(env: Env, m: Metadata, n: Metadata, stage: Field, key: string)
    requires AlikeAt(m, n, stage) && key in DerivedByStage(stage)
    ensures Spelled(env, m, key) == Spelled(env, n, key)
  {
  }

  lemma SameFilling(env: Env, m: Metadata, n: Metadata, stage: Field)
    requires AlikeAt(m, n, stage)
    ensures Filling(env, m, DerivedByStage(stage)) == Filling(env, n, DerivedByStage(stage))
  {
    forall key | key in DerivedByStage(stage) ensures Spelled(env, m, key) == Spelled(env, n, key) {
      SpelledAlike(env, m, n, stage, key);
    }
  }

  lemma ComesToOne(env: Env, entry: Entry, m: Metadata, n: Metadata, name: string, stage: Field, kind: Kind,
                   r: Result, q: Result)
    requires AlikeAt(m, n, stage)
    requires ComesTo(env, entry, m, name, stage, kind, r) && ComesTo(env, entry, n, name, stage, kind, q)
    ensures r == q
  {
    SameFilling(env, m, n, stage);
  }

  lemma PointsToOne(env: Env, entry: Entry, m: Metadata, n: Metadata)
    requires AlikeAt(m, n, BufferPointer) && PointsTo(env, entry, m) && PointsTo(env, entry, n)
    ensures m.pointer == n.pointer
  {
    var v :| ComesTo(env, entry, m, "pointer", BufferPointer, Pointer, ValueResult(v)) && env.cast(v) == Some(m.pointer);
    var w :| ComesTo(env, entry, n, "pointer", BufferPointer, Pointer, ValueResult(w)) && env.cast(w) == Some(n.pointer);
    ComesToOne(env, entry, m, n, "pointer", BufferPointer, Pointer, ValueResult(v), ValueResult(w));
  }

  lemma AlikeUpTo(m: Metadata, n: Metadata)
    ensures AlikeAt(m, n, Dtype)
    ensures m.dtype == n.dtype ==> AlikeAt(m, n, Transpose)
    ensures m.dtype == n.dtype && m.transpose == n.transpose ==>
              && AlikeAt(m, n, Width)
              && (m.width == n.width ==> AlikeAt(m, n, Height))
              && (m.width == n.width && m.height == n.height ==> AlikeAt(m, n, Channels))
              && (m.width == n.width && m.height == n.height && m.channels == n.channels ==>
                    && AlikeAt(m, n, BufferPointer) && AlikeAt(m, n, RowStride)
                    && (m.rowStride == n.rowStride ==> AlikeAt(m, n, PixelLayout)))
  {
  }

  lemma SizesOnce(env: Env, entry: Entry, m: Metadata, n: Metadata)
    requires Describes(env, entry, m) && Describes(env, entry, n)
    ensures m.dtype == n.dtype && m.transpose == n.transpose && m.width == n.width
    ensures m.height == n.height && m.channels == n.channels
  {
    AlikeUpTo(m, n);
    ComesToOne(env, entry, m, n, "dtype", Dtype, Code, IntResult(m.dtype), IntResult(n.dtype));
    ComesToOne(env, entry, m, n, "transpose", Transpose, Flag, BoolResult(m.transpose), BoolResult(n.transpose));
    ComesToOne(env, entry, m, n, "width", Width, Size, IntResult(m.width), IntResult(n.width));
    ComesToOne(env, entry, m, n, "height", Height, Size, IntResult(m.height), IntResult(n.height));
    ComesToOne(env, entry, m, n, "channels", Channels, Size, IntResult(m.channels), IntResult(n.channels));
  }

  /** The description is complete: an entry and a debugger leave one choice for every
      item of the metadata. */
  lemma DescribedOnce(env: Env, entry: Entry, m: Metadata, n: Metadata)
    requires Describes(env, entry, m) && Describes(env, entry, n)
    ensures m.(displayName := n.displayName) == n
  {
    SizesOnce(env, entry, m, n);
    AlikeUpTo(m, n);
    PointsToOne(env, entry, m, n);
    ComesToOne(env, entry, m, n, "row_stride", RowStride, Size, IntResult(m.rowStride), IntResult(n.rowStride));
    SameFilling(env, m, n, PixelLayout);
  }

  lemma DefaultNodes(entry: Entry)
    ensures "channels" !in entry ==> FieldNode(entry, "channels") == Some(Int(1))
    ensures "transpose" !in entry ==> FieldNode(entry, "transpose") == Some(Bool(false))
    ensures "pixel_layout" !in entry ==> FieldNode(entry, "pixel_layout") == Some(Str("rgba"))
    ensures "row_stride" !in entry ==> FieldNode(entry, "row_stride") == Some(Str(Braced("width")))
  {
    assert "{width}" == Braced("width");
  }

  /** A size that is a placeholder is the number the placeholder spells. */
  lemma PlaceholderSize(env: Env, ph: Placeholders, w: string, n: int)
    requires IsWord(w) && w in ph && env.parseInt(ph[w]) == Some(n)
    ensures var e := ResolveNode(env, ph, Size, Str(Braced(w))); e.Ok? ==> e.value == IntResult(n)
  {
    LonePlaceholder(env, ph, w);
  }

  lemma StrideStage(env: Env, m: Metadata)
    ensures IsWord("width")
    ensures var ph := Filling(env, m, DerivedByStage(RowStride));
            "width" in ph && ph["width"] == ShownAs(env, m.width)
  {
  }

  lemma DefaultValues(env: Env, ph: Placeholders)
    ensures ResolveNode(env, ph, Size, Int(1)) == Ok(IntResult(1), true)
    ensures ResolveNode(env, ph, Flag, Bool(false)) == Ok(BoolResult(false), true)
    ensures ResolveLayout(env, ph, Str("rgba")) == Ok("rgba", true)
  {
  }

  lemma DefaultChannels(env: Env, entry: Entry, m: Metadata)
    requires ComesTo(env, entry, m, "channels", Channels, Size, IntResult(m.channels))
    ensures "channels" !in entry ==> m.channels == 1
  {
    DefaultNodes(entry);
    DefaultValues(env, Filling(env, m, DerivedByStage(Channels)));
  }

  lemma DefaultTranspose(env: Env, entry: Entry, m: Metadata)
    requires ComesTo(env, entry, m, "transpose", Transpose, Flag, BoolResult(m.transpose))
    ensures "transpose" !in entry ==> !m.transpose
  {
    DefaultNodes(entry);
    DefaultValues(env, Filling(env, m, DerivedByStage(Transpose)));
  }

  lemma DefaultLayout(env: Env, entry: Entry, m: Metadata)
    requires LaidOut(env, entry, m)
    ensures "pixel_layout" !in entry ==> m.pixelLayout == "rgba"
  {
    DefaultNodes(entry);
    DefaultValues(env, Filling(env, m, DerivedByStage(PixelLayout)));
  }

  lemma DefaultRowStride(env: Env, entry: Entry, m: Metadata)
    requires ComesTo(env, entry, m, "row_stride", RowStride, Size, IntResult(m.rowStride))
    ensures "row_stride" !in entry && env.parseInt(ShownAs(env, m.width)) == Some(m.width) ==> m.rowStride == m.width
  {
    DefaultNodes(entry);
    if "row_stride" !in entry && env.parseInt(ShownAs(env, m.width)) == Some(m.width) {
      StrideStage(env, m);
      PlaceholderSize(env, Filling(env, m, DerivedByStage(RowStride)), "width", m.width);
    }
  }

  /** What an entry need not say: one channel, no transpose, rgba, and rows as long as
      the image is wide -- as long as a printed number reads back as itself. */
  lemma DefaultItems(env: Env, entry: Entry, m: Metadata)
    requires Describes(env, entry, m)
    ensures "channels" !in entry ==> m.channels == 1
    ensures "transpose" !in entry ==> !m.transpose
    ensures "pixel_layout" !in entry ==> m.pixelLayout == "rgba"
    ensures "row_stride" !in entry && env.parseInt(ShownAs(env, m.width)) == Some(m.width) ==> m.rowStride == m.width
  {
    DefaultChannels(env, entry, m);
    DefaultTranspose(env, entry, m);
    DefaultLayout(env, entry, m);
    DefaultRowStride(env, entry, m);
  }

  /** Per-plot state: the field being resolved and the placeholders so far. */
  class ResolutionState {
    const env: Env
    var field: Field
    var placeholders: Placeholders

    constructor (env: Env)
      ensures this.env == env && placeholders == map["sym" := env.sym]
    {
      this.env := env;
      field := Dtype;
      placeholders := map["sym" := env.sym];
    }

    /** Resolves one field and fills in the placeholders it derives. */
    method Resolve(entry: Entry, f: Field) returns (v: Eval<FieldValue>)
      modifies this
      ensures field == f && v == Extended(env, old(placeholders), entry, f)
      ensures placeholders == if v.Ok? then Derived(env, old(placeholders), f, v.value) else old(placeholders)
    {
      field := f;
      if f == PixelLayout {
        v := ResolveLayoutField(entry);
      } else {
        v := ResolveField(env, placeholders, entry, f);
      }
      if v.Ok? {
        if !Prints(env, Printed(f, v.value)) {
          return Raise(ConvertError, v.clean);
        }
        placeholders := Derived(env, placeholders, f, v.value);
      }
    }

    method ResolveLayoutField(entry: Entry) returns (v: Eval<FieldValue>)
      ensures v == ResolveField(env, placeholders, entry, PixelLayout)
    {
      var node := FieldNode(entry, Name(PixelLayout));
      if node == None {
        return Raise(Malformed, true);
      }
      var layout := PickLayout(env, placeholders, node.value);
      return match layout case Ok(s, c) => Ok(Layout(s), c) case Raise(x, c) => Raise(x, c);
    }
  }

  class DeclarativeInspector {
    const entry: Entry

    /** The loader builds inspectors from entries the validator accepted. */
    constructor (entry: Entry, ghost compiles: string -> bool)
      requires ValidEntry(entry, compiles)
      ensures this.entry == entry && FieldsAccepted(entry)
    {
      this.entry := entry;
      AcceptedFields(entry, compiles);
    }

    /** get_buffer_metadata: whatever the bridge does, the metadata of the fields
        resolved in order, all in range -- or EntryEvaluationError, or one of the
        escapes Accounted names. */
    method GetBufferMetadata(env: Env, name: string, typeName: string) returns (r: Eval<Metadata>)
      requires FieldsAccepted(entry)
      ensures r.clean
      ensures match r
              case Raise(x, _) => Accounted(env, entry, x) && Resolution(env, entry) == Raise(x, true)
              case Ok(m, _) =>
                && GoodMetadata(m) && Describes(env, entry, m) && Resolution(env, entry).Ok?
                && m.displayName == DisplayName(env, FieldNode(entry, "display_name").GetOr(Null), name, typeName)
    {
      var resolution := new ResolutionState(env);
      var values := [];
      for k := 0 to FIELDS
        invariant resolution.env == env && |values| == k && FitsInOrder(values)
        invariant Stage(env, entry, k) == Ok(Progress(resolution.placeholders, values), true)
      {
        NextSound(env, entry, resolution.placeholders, values);
        var v := resolution.Resolve(entry, InOrder(k));
        if v.Raise? {
          return Raise(v.error, v.clean);
        }
        values := values + [v.value];
      }
      var displayName := DisplayName(env, FieldNode(entry, "display_name").GetOr(Null), name, typeName);
      PackedDescribes(env, entry, Progress(resolution.placeholders, values), displayName);
      r := Ok(Packed(values, displayName), true);
    }
  }
}
