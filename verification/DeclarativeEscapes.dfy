/**
 Exactly when the resolution of an accepted entry raises something other than
 EntryEvaluationError: which literal, or which debugger value, the path taken
 through the entry comes to.
 */
module DeclarativeEscapes {
  import opened DeclarativeTypes
  import opened Wrappers

  /** What may get past EntryEvaluationError: int() of an infinity, whatever a debugger
      value's own int() or str() raises, and the ValueError of a number of too many
      digits to print. */
  predicate Escaping(x: Exception) { x == OverflowError || x == BridgeLeak || x == ConvertError }

  /** The expression came to a debugger value whose int() raises something of its
      own. */
  predicate Leaky(e: Eval<Value>) { e.Ok? && e.value.Handle? && e.value.asInt.Leaks? }

  /** ... or, where true and false are looked for next, whose int() refuses and whose
      str() raises something of its own. */
  predicate LeakyFlag(e: Eval<Value>) {
    Leaky(e) || (e.Ok? && e.value.Handle? && e.value.asInt.Refuses? && e.value.shown.ShowLeaks?)
  }

  predicate Raises<T>(e: Eval<T>, x: Exception) { e.Raise? && e.error == x }

  // ---------------------------------------------------------------------
  // Templates and conversions
  // ---------------------------------------------------------------------

  /** A template fails with EntryEvaluationError and nothing else; it does so uncleanly
      exactly for an unknown placeholder or a node that is no template. */
  lemma TemplateFailsExactly(env: Env, ph: Placeholders, node: Json)
    ensures var e := SubstituteNode(env, ph, node);
      && (e.Raise? <==> !node.Str? || !Substitute(env, ph, node.s).Substituted?)
      && (e.Raise? ==> e.error == EntryError)
      && (e.clean <==> node.Str? && Substitute(env, ph, node.s) != UnknownPlaceholder)
  {
  }

  /** int() of a debugger value, and reading it as true or false, raise a bare
      ValueError or the value's own error, each exactly for its own reason. */
  lemma ConversionFailsExactly(env: Env, v: Value, x: Exception)
    ensures Raises(ToInt(env, v), x) <==>
      || (x == ConvertError && ((v.Text? && env.parseAny(v.s).None?) || (v.Handle? && v.asInt.Refuses?)))
      || (x == BridgeLeak && v.Handle? && v.asInt.Leaks?)
    ensures Raises(ToBool(env, v), x) <==>
      || (x == ConvertError && AsNumber(env, v).None? && (if AsText(v).Some? then !SpellsTruth(env, AsText(v).value)
                                                          else v.Handle? && v.asInt.Refuses? && v.shown.ShowRefuses?))
      || (x == BridgeLeak && v.Handle? && (v.asInt.Leaks? || (v.asInt.Refuses? && v.shown.ShowLeaks?)))
  {
  }

  predicate SpellsTruth(env: Env, text: string) { env.lower(env.strip(text)) in {"true", "false"} }

  // ---------------------------------------------------------------------
  // Leaves
  // ---------------------------------------------------------------------

  /** The number a size or a dtype code is read from, if it comes to one. */
  function NumberOf(env: Env, ph: Placeholders, kind: Kind, node: Json): Option<int> {
    if node.Int? then Some(node.i)
    else if !node.Str? then None
    else
      var raw := SubstituteNode(env, ph, node);
      if raw.Raise? then None
      else
        var text := if kind == Code then env.strip(raw.value) else raw.value;
        if kind == Code && text in DTYPE_NAMES then Some(DTYPE_NAMES[text])
        else
          var v := EvaluateText(env, text);
          if v.Ok? && ToInt(env, v.value).Ok? then Some(ToInt(env, v.value).value) else None
  }

  predicate InRange(kind: Kind, i: int) { if kind == Code then i in DTYPE_NAMES.Values else i >= 0 }

  /** Where a terminal scalar lets `x` out: the infinite flag literal; a leaky value
      that is converted -- a dtype name is not evaluated, and a pointer not converted --;
      and a number out of range that the message cannot quote. */
  predicate LeafEscapes(env: Env, ph: Placeholders, kind: Kind, node: Json, x: Exception) {
    match x
    case OverflowError => kind == Flag && node == Float(Infinite)
    case BridgeLeak =>
      && node.Str?
      && (match kind
          case Pointer => false
          case Code =>
            var raw := SubstituteNode(env, ph, node);
            raw.Ok? && env.strip(raw.value) !in DTYPE_NAMES && Leaky(EvaluateText(env, env.strip(raw.value)))
          case Size => Leaky(Evaluate(env, ph, node))
          case Flag => LeakyFlag(Evaluate(env, ph, node)))
    case ConvertError =>
      && (kind == Size || kind == Code)
      && var i := NumberOf(env, ph, kind, node);
         i.Some? && !InRange(kind, i.value) && env.show(i.value) == None
    case _ => false
  }

  lemma LiteralEscapesExactly(env: Env, ph: Placeholders, available: set<string>, kind: Kind, node: Json, x: Exception)
    requires !node.Obj? && !node.Str? && ValidNode(available, PolicyOf(kind), node) && Escaping(x)
    ensures Raises(Leaf(env, ph, kind, node), x) <==> LeafEscapes(env, ph, kind, node, x)
  {
  }

  lemma CodeEscapesExactly(env: Env, ph: Placeholders, available: set<string>, node: Json, x: Exception)
    requires Filled(ph, available) && node.Str? && ValidNode(available, PolicyOf(Code), node) && Escaping(x)
    ensures Raises(Leaf(env, ph, Code, node), x) <==> LeafEscapes(env, ph, Code, node, x)
  {
    ExpressionSound(env, ph, available, node);
    var raw := SubstituteNode(env, ph, node);
    if raw.Ok? { EvaluatedTextSound(env, env.strip(raw.value)); }
  }

  lemma SizeEscapesExactly(env: Env, ph: Placeholders, available: set<string>, node: Json, x: Exception)
    requires Filled(ph, available) && node.Str? && ValidNode(available, PolicyOf(Size), node) && Escaping(x)
    ensures Raises(Leaf(env, ph, Size, node), x) <==> LeafEscapes(env, ph, Size, node, x)
  {
    ExpressionSound(env, ph, available, node);
  }

  lemma TruthEscapesExactly(env: Env, e: Eval<Value>, x: Exception)
    requires e.Ok? && Escaping(x)
    ensures Raises(AsFlag(ToBool(env, e.value).After(e.clean)), x) <==> x == BridgeLeak && LeakyFlag(e)
  {
  }

  lemma FlagEscapesExactly(env: Env, ph: Placeholders, available: set<string>, node: Json, x: Exception)
    requires Filled(ph, available) && node.Str? && ValidNode(available, PolicyOf(Flag), node) && Escaping(x)
    ensures Raises(Leaf(env, ph, Flag, node), x) <==> LeafEscapes(env, ph, Flag, node, x)
  {
    ExpressionSound(env, ph, available, node);
    var e := Evaluate(env, ph, node);
    if e.Ok? { TruthEscapesExactly(env, e, x); }
  }

  /** A leaf raises past EntryEvaluationError exactly when it is an infinite flag, the
      debugger's answer to its text is a value that is converted and leaks, or it comes
      to a number that is out of range and has too many digits to say so. */
  lemma LeafEscapesExactly(env: Env, ph: Placeholders, available: set<string>, kind: Kind, node: Json, x: Exception)
    requires Filled(ph, available) && !node.Obj? && ValidNode(available, PolicyOf(kind), node) && Escaping(x)
    ensures Raises(Leaf(env, ph, kind, node), x) <==> LeafEscapes(env, ph, kind, node, x)
  {
    if !node.Str? {
      LiteralEscapesExactly(env, ph, available, kind, node, x);
    } else {
      match kind
      case Code => CodeEscapesExactly(env, ph, available, node, x);
      case Size => SizeEscapesExactly(env, ph, available, node, x);
      case Flag => FlagEscapesExactly(env, ph, available, node, x);
      case Pointer => ExpressionSound(env, ph, available, node);
    }
  }

  /** An accepted condition raises past EntryEvaluationError exactly when its value
      leaks. */
  lemma ConditionEscapesExactly(env: Env, ph: Placeholders, available: set<string>, node: Json, x: Exception)
    requires Filled(ph, available) && ValidExpression(available, node) && Escaping(x)
    ensures Raises(Condition(env, ph, node), x) <==> x == BridgeLeak && LeakyFlag(Evaluate(env, ph, node))
  {
    ExpressionSound(env, ph, available, node);
  }

  predicate RenderingEscapes(shown: Rendering, x: Exception) {
    (shown.ShowRefuses? && x == ConvertError) || (shown.ShowLeaks? && x == BridgeLeak)
  }

  /** Where looking a value up lets `x` out: a number too long to print, a value whose
      int() leaks, and one that has to be printed and cannot. */
  predicate KeyEscapes(env: Env, v: Value, x: Exception) {
    match v
    case Number(i) => env.show(i) == None && x == ConvertError
    case Text(_) => false
    case Handle(_, Converts(i), shown) => env.show(i) == None && RenderingEscapes(shown, x)
    case Handle(_, Refuses, shown) => RenderingEscapes(shown, x)
    case Handle(_, Leaks, _) => x == BridgeLeak
  }

  lemma MapKeyEscapesExactly(env: Env, v: Value, x: Exception)
    ensures Raises(MapKey(env, v), x) <==> KeyEscapes(env, v, x)
    ensures MapKey(env, v).Raise? ==> Escaping(MapKey(env, v).error)
  {
  }

  // ---------------------------------------------------------------------
  // Nodes
  // ---------------------------------------------------------------------

  /** The path taken through the node ends where `x` gets out: the first candidate
      that is not swallowed, as a ValueError is, the branch the condition takes, the
      case looked up -- or the expression looked at on the way lets it out. */
  ghost predicate NodeEscapes(env: Env, ph: Placeholders, kind: Kind, node: Json, x: Exception)
    decreases node, 1
  {
    if !node.Obj? then LeafEscapes(env, ph, kind, node, x)
    else if "first_valid" in node.fields then
      && x != ConvertError && node.fields["first_valid"].Arr?
      && var candidates := node.fields["first_valid"].items;
         exists n: nat ::
           && FirstToDecide(env, ph, kind, candidates, n)
           && CandidateEscapes(env, ph, kind, candidates[n], x)
    else if "if" in node.fields then
      if LeakyFlag(Evaluate(env, ph, node.fields["if"])) then x == BridgeLeak
      else
        var c := Condition(env, ph, node.fields["if"]);
        && c.Ok?
        && var branch := if c.value then "then" else "else";
           branch in node.fields && NodeEscapes(env, ph, kind, node.fields[branch], x)
    else
      && "expr" in node.fields
      && var e := Evaluate(env, ph, node.fields["expr"]);
         && e.Ok?
         && if MapKey(env, e.value).Raise? then KeyEscapes(env, e.value, x)
         else
           && "map" in node.fields && node.fields["map"].Obj?
           && var key := MapKey(env, e.value).value;
              if key in node.fields["map"].fields then NodeEscapes(env, ph, kind, node.fields["map"].fields[key], x)
              else "default" in node.fields && NodeEscapes(env, ph, kind, node.fields["default"], x)
  }

  ghost predicate CandidateEscapes(env: Env, ph: Placeholders, kind: Kind, node: Json, x: Exception)
    decreases node, 2
  {
    if node.Obj? && "min" in node.fields then
      "expr" in node.fields && x == BridgeLeak && Leaky(Evaluate(env, ph, node.fields["expr"]))
    else NodeEscapes(env, ph, kind, node, x)
  }

  ghost predicate NodeIsExact(env: Env, ph: Placeholders, kind: Kind, node: Json, x: Exception) {
    Raises(ResolveNode(env, ph, kind, node), x) <==> NodeEscapes(env, ph, kind, node, x)
  }

  ghost predicate CandidateIsExact(env: Env, ph: Placeholders, kind: Kind, node: Json, x: Exception) {
    Raises(Candidate(env, ph, kind, node), x) <==> CandidateEscapes(env, ph, kind, node, x)
  }

  /** A node the validator accepts raises past EntryEvaluationError exactly when the
      path taken through it comes to an infinite flag or a leaking value. */
  lemma {:induction false} NodeEscapesExactly(env: Env, ph: Placeholders, available: set<string>, kind: Kind, node: Json,
                                              x: Exception)
    requires Filled(ph, available) && ValidNode(available, PolicyOf(kind), node) && Escaping(x)
    ensures NodeIsExact(env, ph, kind, node, x)
    decreases node, 2
  {
    if !node.Obj? {
      LeafEscapesExactly(env, ph, available, kind, node, x);
    } else if "first_valid" in node.fields {
      ListEscapesExactly(env, ph, available, kind, node, x);
    } else if "if" in node.fields {
      IfEscapesExactly(env, ph, available, kind, node, x);
    } else {
      MapEscapesExactly(env, ph, available, kind, node, x);
    }
  }

  lemma {:induction false} ListEscapesExactly(env: Env, ph: Placeholders, available: set<string>, kind: Kind, node: Json,
                                              x: Exception)
    requires Filled(ph, available) && ValidNode(available, PolicyOf(kind), node) && Escaping(x)
    requires node.Obj? && "first_valid" in node.fields
    ensures NodeIsExact(env, ph, kind, node, x)
    decreases node, 1
  {
    var candidates := node.fields["first_valid"].items;
    if x == ConvertError {
      CandidatesSwallow(env, ph, kind, candidates);
    } else {
      forall n | 0 <= n < |candidates| ensures CandidateIsExact(env, ph, kind, candidates[n], x) {
        assert candidates[n] in candidates;
        CandidateEscapesExactly(env, ph, available, kind, candidates[n], x);
      }
      FirstValidEscapesExactly(env, ph, kind, candidates, x);
    }
  }

  /** No candidate list lets a ValueError out. */
  lemma {:induction false} CandidatesSwallow(env: Env, ph: Placeholders, kind: Kind, candidates: seq<Json>)
    ensures !Raises(FirstValid(env, ph, kind, candidates), ConvertError)
    decreases candidates
  {
    if candidates != [] { CandidatesSwallow(env, ph, kind, candidates[1..]); }
  }

  lemma {:induction false} IfEscapesExactly(env: Env, ph: Placeholders, available: set<string>, kind: Kind, node: Json,
                                            x: Exception)
    requires Filled(ph, available) && ValidNode(available, PolicyOf(kind), node) && Escaping(x)
    requires node.Obj? && "first_valid" !in node.fields && "if" in node.fields
    ensures NodeIsExact(env, ph, kind, node, x)
    decreases node, 1
  {
    ConditionEscapesExactly(env, ph, available, node.fields["if"], x);
    ConditionEscapesExactly(env, ph, available, node.fields["if"], BridgeLeak);
    NodeEscapesExactly(env, ph, available, kind, node.fields["then"], x);
    NodeEscapesExactly(env, ph, available, kind, node.fields["else"], x);
  }

  lemma {:induction false} MapEscapesExactly(env: Env, ph: Placeholders, available: set<string>, kind: Kind, node: Json,
                                             x: Exception)
    requires Filled(ph, available) && ValidNode(available, PolicyOf(kind), node) && Escaping(x)
    requires node.Obj? && "first_valid" !in node.fields && "if" !in node.fields
    ensures NodeIsExact(env, ph, kind, node, x)
    decreases node, 1
  {
    ExpressionSound(env, ph, available, node.fields["expr"]);
    var e := Evaluate(env, ph, node.fields["expr"]);
    if e.Ok? {
      MapKeyEscapesExactly(env, e.value, x);
      if MapKey(env, e.value).Ok? {
        var key := MapKey(env, e.value).value;
        var cases := node.fields["map"];
        if key in cases.fields {
          NodeEscapesExactly(env, ph, available, kind, cases.fields[key], x);
        } else if "default" in node.fields {
          NodeEscapesExactly(env, ph, available, kind, node.fields["default"], x);
        }
      }
    }
  }

  lemma {:induction false} CandidateEscapesExactly(env: Env, ph: Placeholders, available: set<string>, kind: Kind,
                                                   node: Json, x: Exception)
    requires Filled(ph, available) && ValidCandidate(available, PolicyOf(kind), node)
    requires Escaping(x) && x != ConvertError
    ensures CandidateIsExact(env, ph, kind, node, x)
    decreases node, 3
  {
    if node.Obj? && "min" in node.fields {
      ExpressionSound(env, ph, available, node.fields["expr"]);
      var e := Evaluate(env, ph, node.fields["expr"]);
      if e.Ok? && ToInt(env, e.value).Ok? {
        LeafSound(env, ph, available, kind, Int(ToInt(env, e.value).value));
      }
    } else {
      NodeEscapesExactly(env, ph, available, kind, node, x);
    }
  }

  /** Either some candidate is the first not to be swallowed, or all are. */
  lemma {:induction false} SomeDecides(env: Env, ph: Placeholders, kind: Kind, candidates: seq<Json>)
    ensures (exists n: nat :: FirstToDecide(env, ph, kind, candidates, n))
            || (forall j :: 0 <= j < |candidates| ==>
                  var e := Candidate(env, ph, kind, candidates[j]); e.Raise? && Caught(e.error))
    decreases |candidates|
  {
    if candidates != [] {
      var last := |candidates| - 1;
      var front := candidates[..last];
      SomeDecides(env, ph, kind, front);
      assert forall j :: 0 <= j < last ==> front[j] == candidates[j];
      if n: nat :| FirstToDecide(env, ph, kind, front, n) {
        assert FirstToDecide(env, ph, kind, candidates, n);
      } else {
        var e := Candidate(env, ph, kind, candidates[last]);
        if e.Ok? || !Caught(e.error) {
          assert forall j :: 0 <= j < last ==>
              var c := Candidate(env, ph, kind, front[j]); c.Raise? && Caught(c.error);
          assert FirstToDecide(env, ph, kind, candidates, last);
        }
      }
    }
  }

  lemma FirstValidEscapesExactly(env: Env, ph: Placeholders, kind: Kind, candidates: seq<Json>, x: Exception)
    requires Escaping(x) && x != ConvertError
    requires forall n :: 0 <= n < |candidates| ==> CandidateIsExact(env, ph, kind, candidates[n], x)
    ensures Raises(FirstValid(env, ph, kind, candidates), x)
            <==> exists n: nat ::
                   && FirstToDecide(env, ph, kind, candidates, n)
                   && CandidateEscapes(env, ph, kind, candidates[n], x)
  {
    SomeDecides(env, ph, kind, candidates);
    if n: nat :| FirstToDecide(env, ph, kind, candidates, n) {
      FirstValidIsLeast(env, ph, kind, candidates, n);
      assert CandidateIsExact(env, ph, kind, candidates[n], x);
      forall m: nat | FirstToDecide(env, ph, kind, candidates, m) ensures m == n {}
    } else {
      FirstValidFails(env, ph, kind, candidates);
    }
  }

  // ---------------------------------------------------------------------
  // Entries
  // ---------------------------------------------------------------------

  /** A nested layout whose conditions, on the path taken, come to a leak. */
  predicate LayoutLeaks(env: Env, ph: Placeholders, node: Json)
    decreases node
  {
    && node.Obj? && "if" in node.fields
    && (|| LeakyFlag(Evaluate(env, ph, node.fields["if"]))
        || (var c := Condition(env, ph, node.fields["if"]);
            && c.Ok?
            && var branch := if c.value then "then" else "else";
               branch in node.fields && LayoutLeaks(env, ph, node.fields[branch])))
  }

  lemma {:induction false} LayoutLeaksExactly(env: Env, ph: Placeholders, available: set<string>, node: Json, x: Exception)
    requires Filled(ph, available) && ValidLayout(available, node) && Escaping(x)
    ensures Raises(ResolveLayout(env, ph, node), x) <==> x == BridgeLeak && LayoutLeaks(env, ph, node)
    decreases node
  {
    if node.Obj? {
      ConditionEscapesExactly(env, ph, available, node.fields["if"], x);
      ConditionEscapesExactly(env, ph, available, node.fields["if"], BridgeLeak);
      LayoutLeaksExactly(env, ph, available, node.fields["then"], x);
      LayoutLeaksExactly(env, ph, available, node.fields["else"], x);
    }
  }

  /** Where a field lets `x` out: on the path to its value, or in printing it for the
      placeholders of later fields. */
  ghost predicate FieldEscapes(env: Env, ph: Placeholders, entry: Entry, f: Field, x: Exception) {
    match FieldNode(entry, Name(f))
    case None => false
    case Some(node) =>
      if f == PixelLayout then x == BridgeLeak && LayoutLeaks(env, ph, node)
      else NodeEscapes(env, ph, KindOf(f), node, x) || (x == ConvertError && Unprintable(env, ph, entry, f))
  }

  /** The field comes to a number of too many digits to print. */
  predicate Unprintable(env: Env, ph: Placeholders, entry: Entry, f: Field) {
    var v := ResolveField(env, ph, entry, f);
    v.Ok? && exists k :: 0 <= k < |Printed(f, v.value)| && env.show(Printed(f, v.value)[k]) == None
  }

  lemma FieldEscapesExactly(env: Env, ph: Placeholders, entry: Entry, f: Field, x: Exception)
    requires FieldNode(entry, Name(f)).Some? && ValidField(entry, f) && Filled(ph, DerivedByStage(f)) && Escaping(x)
    ensures Raises(Extended(env, ph, entry, f), x) <==> FieldEscapes(env, ph, entry, f, x)
  {
    var node := FieldNode(entry, Name(f)).value;
    if f == PixelLayout {
      LayoutLeaksExactly(env, ph, DerivedByStage(f), node, x);
      LayoutsPrintNothing(env, ph, entry);
    } else {
      ValueEscapesExactly(env, ph, entry, f, x);
    }
  }

  lemma LayoutsPrintNothing(env: Env, ph: Placeholders, entry: Entry)
    ensures Extended(env, ph, entry, PixelLayout) == ResolveField(env, ph, entry, PixelLayout)
  {
  }

  lemma ValueEscapesExactly(env: Env, ph: Placeholders, entry: Entry, f: Field, x: Exception)
    requires FieldNode(entry, Name(f)).Some? && ValidField(entry, f) && Filled(ph, DerivedByStage(f)) && Escaping(x)
    requires f != PixelLayout
    ensures Raises(Extended(env, ph, entry, f), x) <==> FieldEscapes(env, ph, entry, f, x)
  {
    var node := FieldNode(entry, Name(f)).value;
    NodeEscapesExactly(env, ph, DerivedByStage(f), KindOf(f), node, x);
    NodeSound(env, ph, DerivedByStage(f), KindOf(f), node);
  }

  /** Resolution gets as far as field `k`, and `x` gets out of that field. */
  ghost predicate EscapesAt(env: Env, entry: Entry, k: nat, x: Exception) {
    k < FIELDS && Stage(env, entry, k).Ok? && FieldEscapes(env, Stage(env, entry, k).value.ph, entry, InOrder(k), x)
  }

  lemma FieldEscapesAt(env: Env, entry: Entry, k: nat, x: Exception)
    requires FieldsAccepted(entry) && k < FIELDS && Stage(env, entry, k).Ok? && Escaping(x)
    ensures Raises(Stage(env, entry, k + 1), x) <==> EscapesAt(env, entry, k, x)
  {
    StageSound(env, entry, k);
    var f := InOrder(k);
    assert FieldNode(entry, Name(f)).Some? && ValidField(entry, f);
    FieldEscapesExactly(env, Stage(env, entry, k).value.ph, entry, f, x);
  }

  /** Something that does not hold at first and holds at `n` starts somewhere. */
  lemma {:induction false} Onset(holds: set<nat>, n: nat) returns (k: nat)
    requires 0 !in holds && n in holds
    ensures k < n && k !in holds && k + 1 in holds
    decreases n
  {
    if n - 1 in holds { k := Onset(holds, n - 1); } else { k := n - 1; }
  }

  predicate Failed(env: Env, entry: Entry, k: nat) { k <= FIELDS && Stage(env, entry, k).Raise? }

  function Failures(env: Env, entry: Entry, n: nat): (failed: set<nat>)
    requires n <= FIELDS
    ensures forall i: nat :: i in failed <==> i <= n && Stage(env, entry, i).Raise?
  {
    set i: nat | i <= n && Stage(env, entry, i).Raise?
  }

  lemma FailureOnset(env: Env, entry: Entry, n: nat) returns (k: nat)
    requires n <= FIELDS && Stage(env, entry, n).Raise?
    ensures k < n && !Failed(env, entry, k) && Failed(env, entry, k + 1)
  {
    assert Stage(env, entry, 0).Ok?;
    k := Onset(Failures(env, entry, n), n);
  }

  /** The field at which a resolution fails. */
  lemma FirstFailure(env: Env, entry: Entry, n: nat) returns (k: nat)
    requires n <= FIELDS && Stage(env, entry, n).Raise?
    ensures k < n && Stage(env, entry, k).Ok? && Stage(env, entry, k + 1) == Stage(env, entry, n)
  {
    k := FailureOnset(env, entry, n);
    RaisesToTheEnd(env, entry, k + 1, n);
  }

  /** The resolution of an accepted entry raises past EntryEvaluationError exactly
      when it gets as far as a field whose path comes to an infinite flag, a leaking
      value or a number that has to be printed and cannot; and nothing else gets
      past. */
  lemma ResolutionEscapesExactly(env: Env, entry: Entry, x: Exception)
    requires FieldsAccepted(entry)
    ensures Escaping(x) ==> (Raises(Resolution(env, entry), x) <==> exists k: nat :: EscapesAt(env, entry, k, x))
    ensures !Escaping(x) && x != EntryError ==> !Raises(Resolution(env, entry), x)
  {
    StageSound(env, entry, FIELDS);
    if Escaping(x) && Raises(Resolution(env, entry), x) {
      var k := FirstFailure(env, entry, FIELDS);
      FieldEscapesAt(env, entry, k, x);
    }
    if Escaping(x) && exists k: nat :: EscapesAt(env, entry, k, x) {
      var k: nat :| EscapesAt(env, entry, k, x);
      FieldEscapesAt(env, entry, k, x);
      RaisesToTheEnd(env, entry, k + 1, FIELDS);
    }
  }

  /** Only a flag overflows, so only the transpose does. */
  lemma OnlyTransposeOverflows(env: Env, entry: Entry, k: nat)
    requires FieldsAccepted(entry) && EscapesAt(env, entry, k, OverflowError)
    ensures k == 1
  {
    StageSound(env, entry, k);
    var f, ph := InOrder(k), Stage(env, entry, k).value.ph;
    assert FieldNode(entry, Name(f)).Some? && ValidField(entry, f);
    if f != PixelLayout {
      var node := FieldNode(entry, Name(f)).value;
      NodeEscapesExactly(env, ph, DerivedByStage(f), KindOf(f), node, OverflowError);
      NodeSound(env, ph, DerivedByStage(f), KindOf(f), node);
    }
  }

  lemma TransposeNode(entry: Entry)
    requires FieldsAccepted(entry)
    ensures FieldNode(entry, "transpose").Some?
  {
    assert FieldNode(entry, Name(Transpose)).Some?;
  }

  /** Under a debugger none of whose values leak, resolution escapes exactly when the
      dtype resolves and the transpose's path comes to an infinity. */
  lemma TransposeEscapesExactly(env: Env, entry: Entry)
    requires FieldsAccepted(entry) && Tame(env)
    ensures FieldNode(entry, "transpose").Some?
    ensures (exists x :: x != EntryError && Raises(Resolution(env, entry), x))
            <==> (var one := Stage(env, entry, 1);
                  one.Ok? && NodeEscapes(env, one.value.ph, Flag, FieldNode(entry, "transpose").value, OverflowError))
  {
    TransposeNode(entry);
    StageSound(env, entry, FIELDS);
    ResolutionEscapesExactly(env, entry, OverflowError);
    assert Name(InOrder(1)) == "transpose" && KindOf(InOrder(1)) == Flag;
    if Raises(Resolution(env, entry), OverflowError) {
      var k: nat :| EscapesAt(env, entry, k, OverflowError);
      OnlyTransposeOverflows(env, entry, k);
    }
    if EscapesAt(env, entry, 1, OverflowError) {
      assert Raises(Resolution(env, entry), OverflowError);
    }
  }

  /** ... which for a plain transpose, one that is not an object, is to be the
      infinite literal itself. */
  lemma PlainTransposeEscapesExactly(env: Env, entry: Entry)
    requires FieldsAccepted(entry) && Tame(env)
    requires FieldNode(entry, "transpose").Some? && !FieldNode(entry, "transpose").value.Obj?
    ensures (exists x :: x != EntryError && Raises(Resolution(env, entry), x))
            <==> Stage(env, entry, 1).Ok? && FieldNode(entry, "transpose").value == Float(Infinite)
  {
    TransposeEscapesExactly(env, entry);
  }

  // ---------------------------------------------------------------------
  // Witnesses
  // ---------------------------------------------------------------------

  function Shape(f: Field): (nat, char) {
    match f
    case Dtype => (5, 'd')
    case Transpose => (9, 't')
    case Width => (5, 'w')
    case Height => (6, 'h')
    case Channels => (8, 'c')
    case BufferPointer => (7, 'p')
    case RowStride => (10, 'r')
    case PixelLayout => (12, 'p')
  }

  lemma NameShape(f: Field)
    ensures Name(f) != [] && (|Name(f)|, Name(f)[0]) == Shape(f)
  {
  }

  /** A field's name is its own. */
  lemma NamesApart(f: Field, g: Field)
    ensures f != g ==> Name(f) != Name(g)
    ensures Name(f) != "match" && Name(f) != "display_name" && Name(f) != "description"
  {
    NameShape(f);
    NameShape(g);
    assert |"match"| == 5 && |"display_name"| == 12 && |"description"| == 11;
    assert "match"[0] == 'm' && "display_name"[0] == 'd';
  }

  predicate ValidFor(f: Field, node: Json) {
    if f == PixelLayout then ValidLayout(DerivedByStage(f), node)
    else ValidNode(DerivedByStage(f), PolicyOf(KindOf(f)), node)
  }

  /** An accepted entry stays accepted when one field is given another valid node. */
  lemma ReplacedIsAccepted(entry: Entry, compiles: string -> bool, f: Field, node: Json)
    requires ValidEntry(entry, compiles) && ValidFor(f, node)
    ensures ValidEntry(entry[Name(f) := node], compiles)
    ensures forall g :: FieldNode(entry[Name(f) := node], Name(g)) == if g == f then Some(node) else FieldNode(entry, Name(g))
  {
    var other := entry[Name(f) := node];
    NamesApart(f, f);
    forall g: Field
      ensures FieldNode(other, Name(g)) == if g == f then Some(node) else FieldNode(entry, Name(g))
      ensures ValidField(other, g)
    {
      NamesApart(f, g);
      assert ValidField(entry, g);
    }
    assert Name(f) in KNOWN_KEYS;
  }

  ghost predicate SameAt(env: Env, entry: Entry, other: Entry, k: nat)
    requires k <= FIELDS
  {
    Stage(env, entry, k) == Stage(env, other, k)
  }

  lemma SameNext(env: Env, entry: Entry, other: Entry, k: nat)
    requires k < FIELDS && SameAt(env, entry, other, k)
    requires FieldNode(entry, Name(InOrder(k))) == FieldNode(other, Name(InOrder(k)))
    ensures SameAt(env, entry, other, k + 1)
  {
  }

  function Differences(env: Env, entry: Entry, other: Entry, n: nat): (differing: set<nat>)
    requires n <= FIELDS
    ensures forall i: nat :: i in differing <==> i <= n && Stage(env, entry, i) != Stage(env, other, i)
  {
    set i: nat | i <= n && Stage(env, entry, i) != Stage(env, other, i)
  }

  lemma DifferenceOnset(env: Env, entry: Entry, other: Entry, n: nat) returns (k: nat)
    requires n <= FIELDS && Stage(env, entry, n) != Stage(env, other, n)
    ensures k < n && SameAt(env, entry, other, k) && !SameAt(env, entry, other, k + 1)
  {
    assert Stage(env, entry, 0) == Stage(env, other, 0);
    k := Onset(Differences(env, entry, other, n), n);
  }

  /** Fields resolve alike as long as the entries agree on them. */
  lemma SameStages(env: Env, entry: Entry, other: Entry, k: nat)
    requires k <= FIELDS
    requires forall j :: 0 <= j < k ==> FieldNode(entry, Name(InOrder(j))) == FieldNode(other, Name(InOrder(j)))
    ensures SameAt(env, entry, other, k)
  {
    if !SameAt(env, entry, other, k) {
      var j := DifferenceOnset(env, entry, other, k);
      SameNext(env, entry, other, j);
    }
  }

  /** From every accepted entry: setting its transpose to 1e999 keeps it accepted, and
      once its dtype resolves it never comes to anything but OverflowError. */
  lemma InfiniteTransposeEscapes(env: Env, entry: Entry, compiles: string -> bool)
    requires ValidEntry(entry, compiles)
    ensures var bad := entry["transpose" := Float(Infinite)];
            && ValidEntry(bad, compiles)
            && (Stage(env, entry, 1).Ok? ==> Raises(Resolution(env, bad), OverflowError))
  {
    var bad := entry["transpose" := Float(Infinite)];
    ReplacedIsAccepted(entry, compiles, Transpose, Float(Infinite));
    AcceptedFields(bad, compiles);
    SameStages(env, entry, bad, 1);
    ResolutionEscapesExactly(env, bad, OverflowError);
    if Stage(env, entry, 1).Ok? {
      assert FieldNode(bad, Name(InOrder(1))) == Some(Float(Infinite));
      assert EscapesAt(env, bad, 1, OverflowError);
    }
  }

  /** From every accepted entry: with a dtype whose text comes to a leaking value, it
      never comes to anything but what that value raises. */
  lemma LeakingDtypeEscapes(env: Env, entry: Entry, compiles: string -> bool, text: string)
    requires ValidEntry(entry, compiles) && ValidText({}, text)
    requires LeafEscapes(env, map["sym" := env.sym], Code, Str(text), BridgeLeak)
    ensures var bad := entry["dtype" := Str(text)];
            ValidEntry(bad, compiles) && Raises(Resolution(env, bad), BridgeLeak)
  {
    var bad := entry["dtype" := Str(text)];
    ReplacedIsAccepted(entry, compiles, Dtype, Str(text));
    AcceptedFields(bad, compiles);
    ResolutionEscapesExactly(env, bad, BridgeLeak);
    assert FieldNode(bad, Name(InOrder(0))) == Some(Str(text));
    assert EscapesAt(env, bad, 0, BridgeLeak);
  }

  /** An entry of empty expressions. */
  function Sample(): Entry {
    map key | key in KNOWN_KEYS :: if key == Name(PixelLayout) then Str("rgba") else Str("")
  }

  lemma EmptyIsValid(available: set<string>, policy: Policy)
    ensures ValidNode(available, policy, Str("")) && Pieces("") == []
  {
  }

  lemma SampleIsAccepted(compiles: string -> bool)
    requires compiles("")
    ensures ValidEntry(Sample(), compiles)
    ensures forall f :: FieldNode(Sample(), Name(f)) == Some(if f == PixelLayout then Str("rgba") else Str(""))
  {
    forall f: Field
      ensures FieldNode(Sample(), Name(f)) == Some(if f == PixelLayout then Str("rgba") else Str(""))
      ensures ValidField(Sample(), f)
    {
      NamesApart(f, PixelLayout);
      assert Name(f) in KNOWN_KEYS;
      EmptyIsValid(DerivedByStage(f), PolicyOf(KindOf(f)));
    }
    NamesApart(PixelLayout, PixelLayout);
    EmptyIsValid({}, NoNumbers);
    assert Sample().Keys == KNOWN_KEYS;
  }

  /** A debugger that answers every expression with `v`. */
  function Answering(v: Value): Env {
    Env("", _ => Some(v), _ => None, _ => None, _ => None, _ => Some(""), _ => "", s => s, _ => Some(0))
  }

  lemma EmptyLeaks(ph: Placeholders)
    ensures LeafEscapes(Answering(Handle(0, Leaks, Shows(""))), ph, Code, Str(""), BridgeLeak)
  {
    EmptyIsValid({}, Integers);
    assert SubstituteNode(Answering(Handle(0, Leaks, Shows(""))), ph, Str("")) == Ok("", true);
    assert "" !in DTYPE_NAMES;
  }

  /** An accepted entry and a debugger whose value raises an error of its own. */
  lemma LeakWitness(compiles: string -> bool)
    requires compiles("")
    ensures ValidEntry(Sample(), compiles)
    ensures Raises(Resolution(Answering(Handle(0, Leaks, Shows(""))), Sample()), BridgeLeak)
  {
    var env := Answering(Handle(0, Leaks, Shows("")));
    SampleIsAccepted(compiles);
    EmptyIsValid({}, Integers);
    EmptyLeaks(map["sym" := env.sym]);
    LeakingDtypeEscapes(env, Sample(), compiles, "");
    assert Sample()["dtype" := Str("")] == Sample() by {
      assert FieldNode(Sample(), Name(Dtype)) == Some(Str(""));
      assert "dtype" in KNOWN_KEYS;
    }
  }

  /** A dtype looked up by the value of an expression. */
  function LookedUp(text: string): Json {
    Obj(map["expr" := Str(text), "map" := Obj(map["0" := Int(0)])])
  }

  lemma LookedUpIsValid(text: string)
    requires ValidText({}, text)
    ensures ValidFor(Dtype, LookedUp(text))
  {
    var cases := map["0" := Int(0)];
    assert "0" in cases && "expr" != "first_valid" && "map" != "first_valid" && "expr" != "if" && "map" != "if";
  }

  /** From every accepted entry: with a dtype looked up by a value that cannot be printed,
      it never comes to anything but what printing the value raises -- a ValueError
      too. */
  lemma UnprintedKeyEscapes(env: Env, entry: Entry, compiles: string -> bool, text: string, x: Exception)
    requires ValidEntry(entry, compiles) && ValidText({}, text)
    requires var e := Evaluate(env, map["sym" := env.sym], Str(text)); e.Ok? && KeyEscapes(env, e.value, x)
    ensures var bad := entry["dtype" := LookedUp(text)];
            ValidEntry(bad, compiles) && Raises(Resolution(env, bad), x)
  {
    var bad := entry["dtype" := LookedUp(text)];
    LookedUpIsValid(text);
    ReplacedIsAccepted(entry, compiles, Dtype, LookedUp(text));
    AcceptedFields(bad, compiles);
    ResolutionEscapesExactly(env, bad, x);
    LookedUpEscapes(env, text, x);
    assert FieldNode(bad, Name(InOrder(0))) == Some(LookedUp(text));
    assert EscapesAt(env, bad, 0, x);
  }

  lemma LookedUpEscapes(env: Env, text: string, x: Exception)
    requires var e := Evaluate(env, map["sym" := env.sym], Str(text)); e.Ok? && KeyEscapes(env, e.value, x)
    ensures NodeEscapes(env, map["sym" := env.sym], Code, LookedUp(text), x) && Escaping(x)
  {
    var e := Evaluate(env, map["sym" := env.sym], Str(text));
    MapKeyEscapesExactly(env, e.value, x);
    assert "first_valid" !in LookedUp(text).fields && "if" !in LookedUp(text).fields;
  }

  /** An accepted entry and a debugger whose value refuses to be printed. */
  lemma UnprintedKeyWitness(compiles: string -> bool)
    requires compiles("")
    ensures var entry := Sample()["dtype" := LookedUp("")];
            && ValidEntry(entry, compiles)
            && Raises(Resolution(Answering(Handle(0, Refuses, ShowRefuses)), entry), ConvertError)
  {
    var env := Answering(Handle(0, Refuses, ShowRefuses));
    SampleIsAccepted(compiles);
    EmptyIsValid({}, Integers);
    assert SubstituteNode(env, map["sym" := env.sym], Str("")) == Ok("", true);
    UnprintedKeyEscapes(env, Sample(), compiles, "", ConvertError);
  }

  /** From every accepted entry: "rgba\n" is accepted as its layout, and is the layout
      its buffer is shown with once the fields before it resolve. */
  lemma NewlineLayoutIsShown(env: Env, entry: Entry, compiles: string -> bool)
    requires ValidEntry(entry, compiles)
    ensures var other := entry["pixel_layout" := Str("rgba\n")];
            && ValidEntry(other, compiles)
            && (Stage(env, entry, 7).Ok? ==>
                  && Resolution(env, other).Ok?
                  && Resolution(env, other).value.values == Stage(env, entry, 7).value.values + [Layout("rgba\n")])
  {
    var other := entry["pixel_layout" := Str("rgba\n")];
    assert LayoutText("rgba\n") by { assert "rgba\n"[4..] == "\n"; }
    ReplacedIsAccepted(entry, compiles, PixelLayout, Str("rgba\n"));
    SameStages(env, entry, other, 7);
    assert FieldNode(other, Name(InOrder(7))) == Some(Str("rgba\n"));
  }

  lemma EmptyResolves(ph: Placeholders, kind: Kind)
    ensures var e := ResolveNode(Answering(Number(0)), ph, kind, Str("")); e.Ok? && Fits(kind, e.value)
  {
    var env := Answering(Number(0));
    EmptyIsValid({}, NoNumbers);
    assert SubstituteNode(env, ph, Str("")) == Ok("", true);
    assert DTYPE_NAMES["uint8"] == 0;
  }

  ghost predicate AlwaysResolves(env: Env, entry: Entry) {
    forall ph, f {:trigger Extended(env, ph, entry, f)} :: Extended(env, ph, entry, f).Ok?
  }

  lemma OneMoreResolves(env: Env, entry: Entry, k: nat)
    requires AlwaysResolves(env, entry) && k < FIELDS && Stage(env, entry, k).Ok?
    ensures Stage(env, entry, k + 1).Ok?
  {
    assert Extended(env, Stage(env, entry, k).value.ph, entry, InOrder(k)).Ok?;
  }

  lemma ReachesAll(env: Env, entry: Entry, n: nat)
    requires AlwaysResolves(env, entry) && n <= FIELDS
    ensures Stage(env, entry, n).Ok?
  {
    if Stage(env, entry, n).Raise? {
      var k := FirstFailure(env, entry, n);
      OneMoreResolves(env, entry, k);
    }
  }

  lemma SampleResolves(compiles: string -> bool)
    requires compiles("")
    ensures AlwaysResolves(Answering(Number(0)), Sample())
  {
    SampleIsAccepted(compiles);
    forall ph, f ensures Extended(Answering(Number(0)), ph, Sample(), f).Ok? {
      assert FieldNode(Sample(), Name(f)) == Some(if f == PixelLayout then Str("rgba") else Str(""));
      EmptyResolves(ph, KindOf(f));
    }
  }

  /** There is such a buffer: an accepted entry that comes to five characters of
      layout. */
  lemma NewlineWitness(compiles: string -> bool)
    requires compiles("")
    ensures var entry := Sample()["pixel_layout" := Str("rgba\n")];
            && ValidEntry(entry, compiles)
            && Resolution(Answering(Number(0)), entry).Ok?
            && Layout("rgba\n") in Resolution(Answering(Number(0)), entry).value.values
  {
    SampleIsAccepted(compiles);
    SampleResolves(compiles);
    ReachesAll(Answering(Number(0)), Sample(), 7);
    NewlineLayoutIsShown(Answering(Number(0)), Sample(), compiles);
  }

  /** The layout check admits a fifth character: a layout it accepts has exactly
      four exactly when the literal does not end in a newline. */
  lemma LayoutIsFourLettersExactlyWhenNoNewline(s: string)
    requires LayoutText(s)
    ensures |s| == 4 <==> s[|s| - 1] != '\n'
  {
    assert s[3] in "rgba";
    assert s[..4] + s[4..] == s;
  }
}
