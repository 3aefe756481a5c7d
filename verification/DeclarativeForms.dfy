/**
 The forms a declarative entry's nodes may take. The validator accepts a node exactly
 when it has one of these forms and its parts are accepted in turn.
 */
module DeclarativeForms {
  import opened DeclarativeTypes
  import opened Wrappers

  function ListNode(candidates: seq<Json>): Json { Obj(map["first_valid" := Arr(candidates)]) }

  function IfNode(condition: Json, yes: Json, no: Json): Json {
    Obj(map["if" := condition, "then" := yes, "else" := no])
  }

  function MapNode(expr: Json, cases: map<string, Json>, fallback: Option<Json>): Json {
    match fallback
    case None => Obj(map["expr" := expr, "map" := Obj(cases)])
    case Some(node) => Obj(map["expr" := expr, "map" := Obj(cases), "default" := node])
  }

  function MinimumNode(expr: Json, least: int): Json { Obj(map["expr" := expr, "min" := Int(least)]) }

  /** A list is accepted exactly when it has candidates and all of them are. */
  lemma ListAcceptedExactly(available: set<string>, policy: Policy, candidates: seq<Json>)
    ensures ValidNode(available, policy, ListNode(candidates)) <==>
              candidates != [] && forall c :: c in candidates ==> ValidCandidate(available, policy, c)
  {
  }

  /** A choice, exactly when its condition is a known template and both branches are
      accepted. */
  lemma IfAcceptedExactly(available: set<string>, policy: Policy, condition: Json, yes: Json, no: Json)
    ensures ValidNode(available, policy, IfNode(condition, yes, no)) <==>
              && condition.Str? && ValidText(available, condition.s)
              && ValidNode(available, policy, yes) && ValidNode(available, policy, no)
  {
    assert IfNode(condition, yes, no).fields.Keys == {"if", "then", "else"};
  }

  /** A lookup, exactly when its expression is a known template and it has cases, all of
      them accepted, as is the default if there is one. */
  lemma MapAcceptedExactly(available: set<string>, policy: Policy, expr: Json, cases: map<string, Json>,
                           fallback: Option<Json>)
    ensures ValidNode(available, policy, MapNode(expr, cases, fallback)) <==>
              && expr.Str? && ValidText(available, expr.s) && cases != map[]
              && (forall k :: k in cases ==> ValidNode(available, policy, cases[k]))
              && (fallback.Some? ==> ValidNode(available, policy, fallback.value))
  {
    var node := MapNode(expr, cases, fallback);
    assert cases.Keys != {} <==> cases != map[];
    if fallback.Some? {
      assert node.fields.Keys == {"expr", "map", "default"};
    } else {
      assert node.fields.Keys == {"expr", "map"};
    }
  }

  /** An expression with a minimum is accepted as a candidate of a field that takes
      numbers; any other candidate, as the node it is. */
  lemma CandidateAcceptedExactly(available: set<string>, policy: Policy, expr: Json, least: int, node: Json)
    ensures ValidCandidate(available, policy, MinimumNode(expr, least)) <==>
              policy != NoNumbers && expr.Str? && ValidText(available, expr.s)
    ensures !(node.Obj? && "min" in node.fields) ==>
              (ValidCandidate(available, policy, node) <==> ValidNode(available, policy, node))
  {
    assert MinimumNode(expr, least).fields.Keys == {"expr", "min"};
  }

  /** Bare values: texts by their placeholders, numbers and truth values by the field. */
  lemma ScalarAcceptedExactly(available: set<string>, policy: Policy, node: Json)
    requires !node.Obj?
    ensures ValidNode(available, policy, node) <==>
              || (node.Str? && ValidText(available, node.s))
              || (node.Int? && policy != NoNumbers)
              || ((node.Bool? || node.Float?) && policy == AnyNumber)
  {
  }

  ghost predicate IsForm(node: Json) {
    || (exists candidates :: node == ListNode(candidates))
    || (exists condition, yes, no :: node == IfNode(condition, yes, no))
    || (exists expr, cases, fallback :: node == MapNode(expr, cases, fallback))
  }

  /** Every accepted object has one of these forms: a misspelt or an extra key is never
      let through. */
  lemma AcceptedIsForm(available: set<string>, policy: Policy, node: Json)
    requires node.Obj? && ValidNode(available, policy, node)
    ensures IsForm(node)
  {
    var fields := node.fields;
    if "first_valid" in fields {
      assert fields == map["first_valid" := fields["first_valid"]];
      assert node == ListNode(fields["first_valid"].items);
    } else if "if" in fields {
      assert fields == map["if" := fields["if"], "then" := fields["then"], "else" := fields["else"]];
      assert node == IfNode(fields["if"], fields["then"], fields["else"]);
    } else if "default" in fields {
      assert fields == map["expr" := fields["expr"], "map" := fields["map"], "default" := fields["default"]];
      assert node == MapNode(fields["expr"], fields["map"].fields, Some(fields["default"]));
    } else {
      assert fields == map["expr" := fields["expr"], "map" := fields["map"]];
      assert node == MapNode(fields["expr"], fields["map"].fields, None);
    }
  }

  lemma AcceptedCandidateIsForm(available: set<string>, policy: Policy, node: Json)
    requires node.Obj? && ValidCandidate(available, policy, node)
    ensures IsForm(node) || exists expr, least :: node == MinimumNode(expr, least)
  {
    var fields := node.fields;
    if "min" in fields {
      assert fields == map["expr" := fields["expr"], "min" := fields["min"]];
      assert node == MinimumNode(fields["expr"], fields["min"].i);
    } else {
      AcceptedIsForm(available, policy, node);
    }
  }

  /** A pixel layout: four letters, or a choice between layouts. */
  lemma LayoutAcceptedExactly(available: set<string>, condition: Json, yes: Json, no: Json)
    ensures ValidLayout(available, IfNode(condition, yes, no)) <==>
              && condition.Str? && ValidText(available, condition.s)
              && ValidLayout(available, yes) && ValidLayout(available, no)
  {
    assert IfNode(condition, yes, no).fields.Keys == {"if", "then", "else"};
  }

  lemma AcceptedLayoutIsForm(available: set<string>, node: Json)
    requires ValidLayout(available, node)
    ensures (node.Str? && LayoutText(node.s)) || exists condition, yes, no :: node == IfNode(condition, yes, no)
  {
    if node.Obj? {
      var fields := node.fields;
      assert fields == map["if" := fields["if"], "then" := fields["then"], "else" := fields["else"]];
      assert node == IfNode(fields["if"], fields["then"], fields["else"]);
    }
  }

  // ---------------------------------------------------------------------
  // Entries
  // ---------------------------------------------------------------------

  /** The entry's field `name`, or its default, passes as a node of this policy. */
  predicate Passes(entry: Entry, name: string, stage: Field, policy: Policy) {
    FieldNode(entry, name).Some? ==> ValidNode(DerivedByStage(stage), policy, FieldNode(entry, name).value)
  }

  /** The fields by name: sizes and the dtype may be bare integers, the transpose any
      bare number or truth value, the pointer neither; the layout is of its own kind. */
  lemma FieldsAcceptedExactly(entry: Entry)
    ensures (forall f :: ValidField(entry, f)) <==>
      && Passes(entry, "dtype", Dtype, Integers) && Passes(entry, "transpose", Transpose, AnyNumber)
      && Passes(entry, "width", Width, Integers) && Passes(entry, "height", Height, Integers)
      && Passes(entry, "channels", Channels, Integers) && Passes(entry, "pointer", BufferPointer, NoNumbers)
      && Passes(entry, "row_stride", RowStride, Integers)
      && (FieldNode(entry, "pixel_layout").Some? ==>
            ValidLayout(DerivedByStage(PixelLayout), FieldNode(entry, "pixel_layout").value))
  {
    FieldPasses(entry, Dtype);
    FieldPasses(entry, Transpose);
    FieldPasses(entry, Width);
    FieldPasses(entry, Height);
    FieldPasses(entry, Channels);
    FieldPasses(entry, BufferPointer);
    FieldPasses(entry, RowStride);
    FieldPasses(entry, PixelLayout);
  }

  lemma FieldPasses(entry: Entry, f: Field)
    ensures f != PixelLayout ==> (ValidField(entry, f) <==> Passes(entry, Name(f), f, PolicyOf(KindOf(f))))
    ensures f == PixelLayout ==>
      (ValidField(entry, f) <==>
        (FieldNode(entry, "pixel_layout").Some? ==>
           ValidLayout(DerivedByStage(PixelLayout), FieldNode(entry, "pixel_layout").value)))
  {
  }

  /** An entry is accepted exactly when nothing required is missing, no key is unknown,
      the match compiles, and its fields, its display name and its description pass. */
  lemma EntryAcceptedExactly(entry: Entry, compiles: string -> bool)
    ensures ValidEntry(entry, compiles) <==>
      && (forall key :: key in REQUIRED ==> key in entry)
      && (forall key :: key in entry ==> key in KNOWN_KEYS)
      && entry["match"].Str? && compiles(entry["match"].s)
      && (forall f :: ValidField(entry, f)) && ValidDisplayName(entry)
      && ("description" !in entry || entry["description"].Str?)
  {
  }

  /** Four of the letters, and perhaps a final newline. */
  lemma LayoutTextExactly(s: string)
    ensures LayoutText(s) <==>
      exists a, b, c, d :: {a, b, c, d} <= {'r', 'g', 'b', 'a'} && (s == [a, b, c, d] || s == [a, b, c, d, '\n'])
  {
    if LayoutText(s) {
      var a, b, c, d := s[0], s[1], s[2], s[3];
      assert s[..4] == [a, b, c, d] && s == s[..4] + s[4..];
      assert {a, b, c, d} <= {'r', 'g', 'b', 'a'};
    }
  }

  /** The check of a display template is exact: where template arguments resolve, it
      passes if and only if the template substitutes, whatever the name and the type. */
  lemma DisplayNameIsExact(env: Env, entry: Entry, name: string, typeName: string)
    requires forall token :: env.targ(token).Some?
    ensures ValidDisplayName(entry) <==>
      var node := FieldNode(entry, "display_name").value;
      node.Str? && Substitute(env, map["name" := name, "type" := typeName], node.s).Substituted?
  {
    var node := FieldNode(entry, "display_name").value;
    if node.Str? { DisplayPiecesAreExact(env, map["name" := name, "type" := typeName], Pieces(node.s)); }
  }

  lemma {:induction false} DisplayPiecesAreExact(env: Env, ph: Placeholders, pieces: seq<Piece>)
    requires ph.Keys == {"name", "type"} && forall token :: env.targ(token).Some?
    ensures SubstitutePieces(env, ph, pieces).Substituted? <==>
              forall p :: p in pieces && p.Token? ==> p.name in {"name", "type"} || IsTarg(p.name)
    decreases |pieces|
  {
    if pieces != [] {
      DisplayPiecesAreExact(env, ph, pieces[1..]);
      assert pieces == [pieces[0]] + pieces[1..];
    }
  }
}
