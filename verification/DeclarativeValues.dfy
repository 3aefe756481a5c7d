/**
 What the nodes of a declarative entry mean: a node comes to a value exactly when
 some way through it -- each turn taken for its own reason -- ends at a scalar that
 gives that value.
 */
module DeclarativeValues {
  import opened DeclarativeTypes
  import opened Wrappers

  // ---------------------------------------------------------------------
  // Scalars
  // ---------------------------------------------------------------------

  /** An expression's value: the number its text spells, or what the debugger says. */
  predicate EvaluatesTo(env: Env, ph: Placeholders, node: Json, v: Value) {
    && node.Str? && Substitute(env, ph, node.s).Substituted?
    && SpellsOrEvaluates(env, Substitute(env, ph, node.s).text, v)
  }

  predicate SpellsOrEvaluates(env: Env, text: string, v: Value) {
    match env.parseInt(text)
    case Some(i) => v == Number(i)
    case None => env.evaluate(text) == Some(v)
  }

  /** int() of a value; a text may carry a base. */
  predicate IsNumber(env: Env, v: Value, n: int) {
    match v
    case Number(i) => n == i
    case Text(s) => env.parseAny(s) == Some(n)
    case Handle(_, asInt, _) => asInt == Converts(n)
  }

  /** A value is true or false as its number is nonzero or zero, or, having none, as its
      text spells the word. */
  predicate IsTruth(env: Env, v: Value, b: bool) {
    match AsNumber(env, v)
    case Some(i) => b == (i != 0)
    case None => AsText(v).Some? && env.lower(env.strip(AsText(v).value)) == if b then "true" else "false"
  }

  predicate IsLiteralTruth(node: Json, b: bool) {
    || node == Bool(b)
    || (node.Int? && b == (node.i != 0))
    || (node.Float? && node.x.Finite? && b == (node.x.r >= 1.0 || node.x.r <= -1.0))
  }

  /** An expression's number and its truth. */
  ghost predicate ComesToNumber(env: Env, ph: Placeholders, node: Json, n: int) {
    exists v :: EvaluatesTo(env, ph, node, v) && IsNumber(env, v, n)
  }

  ghost predicate ComesToTruth(env: Env, ph: Placeholders, node: Json, b: bool) {
    exists v :: EvaluatesTo(env, ph, node, v) && IsTruth(env, v, b)
  }

  /** The number a size is read from, the code of a dtype and the truth of a flag. */
  ghost predicate ReadsNumber(env: Env, ph: Placeholders, node: Json, n: int) {
    node == Int(n) || ComesToNumber(env, ph, node, n)
  }

  ghost predicate ReadsCode(env: Env, ph: Placeholders, node: Json, n: int) {
    || node == Int(n)
    || (&& node.Str? && Substitute(env, ph, node.s).Substituted?
        && var text := env.strip(Substitute(env, ph, node.s).text);
           if text in DTYPE_NAMES then n == DTYPE_NAMES[text]
           else exists v :: SpellsOrEvaluates(env, text, v) && IsNumber(env, v, n))
  }

  ghost predicate ReadsTruth(env: Env, ph: Placeholders, node: Json, b: bool) {
    IsLiteralTruth(node, b) || ComesToTruth(env, ph, node, b)
  }

  /** What a terminal scalar gives: a size that is not negative, a known dtype's code, a
      truth value, or a debugger value as it is. */
  ghost predicate ScalarGives(env: Env, ph: Placeholders, kind: Kind, node: Json, r: Result) {
    && !node.Obj?
    && match kind
       case Size => r.IntResult? && r.i >= 0 && ReadsNumber(env, ph, node, r.i)
       case Code => r.IntResult? && r.i in {0, 2, 3, 4, 5, 6} && ReadsCode(env, ph, node, r.i)
       case Flag => r.BoolResult? && ReadsTruth(env, ph, node, r.b)
       case Pointer =>
         && r.ValueResult? && node.Str? && Substitute(env, ph, node.s).Substituted?
         && env.evaluate(Substitute(env, ph, node.s).text) == Some(r.v)
  }

  lemma EvaluatedExactly(env: Env, ph: Placeholders, node: Json, v: Value)
    ensures EvaluatesTo(env, ph, node, v) <==> Evaluate(env, ph, node).Ok? && Evaluate(env, ph, node).value == v
  {
  }

  lemma NumberExactly(env: Env, v: Value, n: int)
    ensures IsNumber(env, v, n) <==> ToInt(env, v).Ok? && ToInt(env, v).value == n
  {
  }

  lemma TruncatedIsZero(r: real)
    ensures Truncated(r) != 0 <==> r >= 1.0 || r <= -1.0
  {
  }

  lemma LiteralTruthExactly(node: Json, b: bool)
    ensures IsLiteralTruth(node, b) <==> LiteralBool(node).Ok? && LiteralBool(node).value == b
  {
    if node.Float? && node.x.Finite? { TruncatedIsZero(node.x.r); }
  }

  ghost predicate Comes<T>(e: Eval<T>, r: T) { e.Ok? && e.value == r }

  /** A value an expression comes to, and what is then made of it. */
  lemma EvaluatesToOne(env: Env, ph: Placeholders, node: Json)
    ensures forall v :: EvaluatesTo(env, ph, node, v) <==> Comes(Evaluate(env, ph, node), v)
  {
    forall v ensures EvaluatesTo(env, ph, node, v) <==> Comes(Evaluate(env, ph, node), v) {
      EvaluatedExactly(env, ph, node, v);
    }
  }

  lemma NumberRead(env: Env, ph: Placeholders, node: Json, n: int)
    ensures ComesToNumber(env, ph, node, n) <==>
              var e := Evaluate(env, ph, node); e.Ok? && Comes(ToInt(env, e.value), n)
  {
    EvaluatesToOne(env, ph, node);
    var e := Evaluate(env, ph, node);
    if e.Ok? {
      NumberExactly(env, e.value, n);
      assert EvaluatesTo(env, ph, node, e.value);
    }
  }

  lemma TruthRead(env: Env, ph: Placeholders, node: Json, b: bool)
    ensures ComesToTruth(env, ph, node, b) <==>
              var e := Evaluate(env, ph, node); e.Ok? && Comes(ToBool(env, e.value), b)
  {
    EvaluatesToOne(env, ph, node);
    var e := Evaluate(env, ph, node);
    if e.Ok? {
      TruthExactly(env, e.value, b);
      assert EvaluatesTo(env, ph, node, e.value);
    }
  }

  lemma SizeExactly(env: Env, ph: Placeholders, node: Json, r: Result)
    requires !node.Obj?
    ensures ScalarGives(env, ph, Size, node, r) <==> Comes(Leaf(env, ph, Size, node), r)
  {
    if node.Str? && r.IntResult? { NumberRead(env, ph, node, r.i); }
  }

  lemma TextRead(env: Env, text: string, n: int)
    ensures (exists v :: SpellsOrEvaluates(env, text, v) && IsNumber(env, v, n)) <==>
              var e := EvaluateText(env, text); e.Ok? && Comes(ToInt(env, e.value), n)
  {
    var e := EvaluateText(env, text);
    forall v ensures SpellsOrEvaluates(env, text, v) <==> Comes(e, v) {}
    if e.Ok? {
      NumberExactly(env, e.value, n);
      assert SpellsOrEvaluates(env, text, e.value);
    }
  }

  lemma CodesAreThese(n: int)
    ensures n in DTYPE_NAMES.Values <==> n in {0, 2, 3, 4, 5, 6}
  {
    CodesHaveSizes(n);
  }

  lemma CodeExactly(env: Env, ph: Placeholders, node: Json, r: Result)
    requires !node.Obj?
    ensures ScalarGives(env, ph, Code, node, r) <==> Comes(Leaf(env, ph, Code, node), r)
  {
    if r.IntResult? {
      CodesAreThese(r.i);
      if node.Str? && Substitute(env, ph, node.s).Substituted? {
        TextRead(env, env.strip(Substitute(env, ph, node.s).text), r.i);
      }
    }
  }

  lemma FlagExactly(env: Env, ph: Placeholders, node: Json, r: Result)
    requires !node.Obj?
    ensures ScalarGives(env, ph, Flag, node, r) <==> Comes(Leaf(env, ph, Flag, node), r)
  {
    if r.BoolResult? {
      LiteralTruthExactly(node, r.b);
      TruthRead(env, ph, node, r.b);
    }
  }

  /** What a terminal scalar gives is what reading it comes to. */
  lemma ScalarExactly(env: Env, ph: Placeholders, kind: Kind, node: Json, r: Result)
    requires !node.Obj?
    ensures ScalarGives(env, ph, kind, node, r) <==> Comes(Leaf(env, ph, kind, node), r)
  {
    match kind
    case Size => SizeExactly(env, ph, node, r);
    case Code => CodeExactly(env, ph, node, r);
    case Flag => FlagExactly(env, ph, node, r);
    case Pointer =>
  }

  // ---------------------------------------------------------------------
  // Ways through a node
  // ---------------------------------------------------------------------

  /** One turn on the way from a node to a scalar. */
  datatype Turn = Tried(i: nat) | Taken(b: bool) | Found(key: string) | Otherwise

  /** The text a map is searched for: the value's number, printed, or else its text. */
  predicate IsKey(env: Env, v: Value, key: string) {
    var number := AsNumber(env, v);
    var printed := if number.Some? then env.show(number.value) else None;
    match printed
    case Some(text) => key == text
    case None =>
      match v
      case Number(_) => false
      case Text(s) => key == s
      case Handle(_, asInt, shown) => !asInt.Leaks? && shown == Shows(key)
  }

  ghost predicate LooksUp(env: Env, ph: Placeholders, node: Json, key: string) {
    exists v :: EvaluatesTo(env, ph, node, v) && IsKey(env, v, key)
  }

  /** The candidate fails with EntryEvaluationError or a bare TypeError or ValueError,
      which is what the next one makes up for. */
  ghost predicate PassedOver(env: Env, ph: Placeholders, kind: Kind, node: Json) {
    var e := Candidate(env, ph, kind, node);
    e.Raise? && (e.error == EntryError || e.error == ConvertError)
  }

  /** The turn leads from `node` to `child`, and for the right reason. */
  ghost predicate LeadsTo(env: Env, ph: Placeholders, kind: Kind, node: Json, turn: Turn, child: Json) {
    && node.Obj?
    && (turn.Tried? <==> "first_valid" in node.fields)
    && (turn.Taken? <==> "first_valid" !in node.fields && "if" in node.fields)
    && match turn
       case Tried(i) =>
         && node.fields["first_valid"].Arr? && i < |node.fields["first_valid"].items|
         && child == node.fields["first_valid"].items[i]
         && forall j :: 0 <= j < i ==> PassedOver(env, ph, kind, node.fields["first_valid"].items[j])
       case Taken(b) =>
         && ComesToTruth(env, ph, node.fields["if"], b)
         && (if b then "then" in node.fields && child == node.fields["then"]
             else "else" in node.fields && child == node.fields["else"])
       case Found(key) =>
         && "expr" in node.fields && "map" in node.fields && node.fields["map"].Obj?
         && LooksUp(env, ph, node.fields["expr"], key)
         && key in node.fields["map"].fields && child == node.fields["map"].fields[key]
       case Otherwise =>
         && "expr" in node.fields && "map" in node.fields && node.fields["map"].Obj?
         && (exists key :: LooksUp(env, ph, node.fields["expr"], key) && key !in node.fields["map"].fields)
         && "default" in node.fields && child == node.fields["default"]
  }

  /** A candidate with a minimum gives its expression's number, if that is no less. */
  ghost predicate MinimumGives(env: Env, ph: Placeholders, kind: Kind, node: Json, r: Result) {
    && node.Obj? && "min" in node.fields && "expr" in node.fields && node.fields["min"].Int?
    && exists n :: ComesToNumber(env, ph, node.fields["expr"], n)
         && n >= node.fields["min"].i && ScalarGives(env, ph, kind, Int(n), r)
  }

  predicate HasMinimum(node: Json) { node.Obj? && "min" in node.fields }

  /** The way `path` from `node` ends at a scalar, or a minimum, that gives `r`. */
  ghost predicate Arrives(env: Env, ph: Placeholders, kind: Kind, node: Json, path: seq<Turn>, r: Result)
    decreases |path|
  {
    if path == [] then ScalarGives(env, ph, kind, node, r)
    else exists child ::
      && LeadsTo(env, ph, kind, node, path[0], child)
      && if path[0].Tried? && HasMinimum(child) then |path| == 1 && MinimumGives(env, ph, kind, child, r)
         else Arrives(env, ph, kind, child, path[1..], r)
  }

  lemma ConditionExactly(env: Env, ph: Placeholders, node: Json, b: bool)
    ensures ComesToTruth(env, ph, node, b) <==> Comes(Condition(env, ph, node), b)
  {
    TruthRead(env, ph, node, b);
  }

  lemma KeyExactly(env: Env, v: Value, key: string)
    ensures IsKey(env, v, key) <==> Comes(MapKey(env, v), key)
  {
  }

  lemma LookupExactly(env: Env, ph: Placeholders, node: Json, key: string)
    ensures LooksUp(env, ph, node, key) <==>
              var e := Evaluate(env, ph, node); e.Ok? && Comes(MapKey(env, e.value), key)
  {
    EvaluatesToOne(env, ph, node);
    var e := Evaluate(env, ph, node);
    if e.Ok? {
      KeyExactly(env, e.value, key);
      assert EvaluatesTo(env, ph, node, e.value);
    }
  }

  lemma MinimumExactly(env: Env, ph: Placeholders, kind: Kind, node: Json, r: Result)
    requires HasMinimum(node)
    ensures MinimumGives(env, ph, kind, node, r) <==> Comes(Candidate(env, ph, kind, node), r)
  {
    if "expr" in node.fields && node.fields["min"].Int? {
      var expr := node.fields["expr"];
      var e := Evaluate(env, ph, expr);
      forall n ensures ComesToNumber(env, ph, expr, n) <==> e.Ok? && Comes(ToInt(env, e.value), n) {
        NumberRead(env, ph, expr, n);
      }
      if e.Ok? && ToInt(env, e.value).Ok? {
        ScalarExactly(env, ph, kind, Int(ToInt(env, e.value).value), r);
      }
    }
  }

  // ---------------------------------------------------------------------
  // What a node comes to
  // ---------------------------------------------------------------------

  /** The candidate a list's value comes from. */
  lemma {:induction false} FirstToCome(env: Env, ph: Placeholders, kind: Kind, candidates: seq<Json>, r: Result) returns (n: nat)
    requires Comes(FirstValid(env, ph, kind, candidates), r)
    ensures n < |candidates| && Comes(Candidate(env, ph, kind, candidates[n]), r)
    ensures forall j :: 0 <= j < n ==> PassedOver(env, ph, kind, candidates[j])
    decreases candidates
  {
    if Candidate(env, ph, kind, candidates[0]).Ok? {
      n := 0;
    } else {
      var m := FirstToCome(env, ph, kind, candidates[1..], r);
      n := m + 1;
      forall j | 0 <= j < n ensures PassedOver(env, ph, kind, candidates[j]) {
        if j > 0 { assert candidates[j] == candidates[1..][j - 1]; }
      }
    }
  }

  lemma {:induction false} ComesFromCandidate(env: Env, ph: Placeholders, kind: Kind, candidates: seq<Json>, n: nat, r: Result)
    requires n < |candidates| && Comes(Candidate(env, ph, kind, candidates[n]), r)
    requires forall j :: 0 <= j < n ==> PassedOver(env, ph, kind, candidates[j])
    ensures Comes(FirstValid(env, ph, kind, candidates), r)
    decreases n
  {
    if n > 0 {
      assert PassedOver(env, ph, kind, candidates[0]);
      forall j | 0 <= j < n - 1 ensures PassedOver(env, ph, kind, candidates[1..][j]) {
        assert candidates[1..][j] == candidates[j + 1];
      }
      ComesFromCandidate(env, ph, kind, candidates[1..], n - 1, r);
    }
  }

  /** Putting a turn before a way. */
  lemma WayGrows(env: Env, ph: Placeholders, kind: Kind, node: Json, turn: Turn, child: Json, rest: seq<Turn>, r: Result)
    requires LeadsTo(env, ph, kind, node, turn, child)
    requires if turn.Tried? && HasMinimum(child) then rest == [] && MinimumGives(env, ph, kind, child, r)
             else Arrives(env, ph, kind, child, rest, r)
    ensures Arrives(env, ph, kind, node, [turn] + rest, r)
  {
    assert ([turn] + rest)[1..] == rest;
  }

  /** A node that comes to a value has a way to it. */
  lemma {:induction false} WayTo(env: Env, ph: Placeholders, kind: Kind, node: Json, r: Result) returns (path: seq<Turn>)
    requires Comes(ResolveNode(env, ph, kind, node), r)
    ensures Arrives(env, ph, kind, node, path, r)
    decreases node
  {
    if !node.Obj? {
      ScalarExactly(env, ph, kind, node, r);
      path := [];
    } else if "first_valid" in node.fields {
      var candidates := node.fields["first_valid"].items;
      var n := FirstToCome(env, ph, kind, candidates, r);
      var child := candidates[n];
      var rest: seq<Turn> := [];
      if HasMinimum(child) {
        MinimumExactly(env, ph, kind, child, r);
      } else {
        assert child in candidates && child < node.fields["first_valid"];
        rest := WayTo(env, ph, kind, child, r);
      }
      WayGrows(env, ph, kind, node, Tried(n), child, rest, r);
      path := [Tried(n)] + rest;
    } else if "if" in node.fields {
      var b := Condition(env, ph, node.fields["if"]).value;
      ConditionExactly(env, ph, node.fields["if"], b);
      var child := node.fields[if b then "then" else "else"];
      var rest := WayTo(env, ph, kind, child, r);
      WayGrows(env, ph, kind, node, Taken(b), child, rest, r);
      path := [Taken(b)] + rest;
    } else {
      path := WayThroughMap(env, ph, kind, node, r);
    }
  }

  lemma {:induction false} WayThroughMap(env: Env, ph: Placeholders, kind: Kind, node: Json, r: Result) returns (path: seq<Turn>)
    requires node.Obj? && "first_valid" !in node.fields && "if" !in node.fields
    requires Comes(ResolveNode(env, ph, kind, node), r)
    ensures Arrives(env, ph, kind, node, path, r)
    decreases node, 0
  {
    var key := MapKey(env, Evaluate(env, ph, node.fields["expr"]).value).value;
    LookupExactly(env, ph, node.fields["expr"], key);
    var cases := node.fields["map"].fields;
    var turn := if key in cases then Found(key) else Otherwise;
    var child := if key in cases then cases[key] else node.fields["default"];
    if key in cases { assert child < node.fields["map"]; }
    var rest := WayTo(env, ph, kind, child, r);
    WayGrows(env, ph, kind, node, turn, child, rest, r);
    path := [turn] + rest;
  }

  /** A way to a value is what the node comes to. */
  lemma {:induction false} ComesByWay(env: Env, ph: Placeholders, kind: Kind, node: Json, path: seq<Turn>, r: Result)
    requires Arrives(env, ph, kind, node, path, r)
    ensures Comes(ResolveNode(env, ph, kind, node), r)
    decreases |path|
  {
    if path == [] {
      ScalarExactly(env, ph, kind, node, r);
    } else {
      var child :|
        && LeadsTo(env, ph, kind, node, path[0], child)
        && if path[0].Tried? && HasMinimum(child) then |path| == 1 && MinimumGives(env, ph, kind, child, r)
           else Arrives(env, ph, kind, child, path[1..], r);
      if path[0].Tried? && HasMinimum(child) {
        MinimumExactly(env, ph, kind, child, r);
      } else {
        ComesByWay(env, ph, kind, child, path[1..], r);
      }
      TurnTaken(env, ph, kind, node, path[0], child, r);
    }
  }

  lemma TurnTaken(env: Env, ph: Placeholders, kind: Kind, node: Json, turn: Turn, child: Json, r: Result)
    requires LeadsTo(env, ph, kind, node, turn, child)
    requires Comes(if turn.Tried? then Candidate(env, ph, kind, child) else ResolveNode(env, ph, kind, child), r)
    ensures Comes(ResolveNode(env, ph, kind, node), r)
  {
    match turn
    case Tried(i) => ComesFromCandidate(env, ph, kind, node.fields["first_valid"].items, i, r);
    case Taken(b) => ConditionExactly(env, ph, node.fields["if"], b);
    case Found(key) => LookupExactly(env, ph, node.fields["expr"], key);
    case Otherwise =>
      var key :| LooksUp(env, ph, node.fields["expr"], key) && key !in node.fields["map"].fields;
      LookupExactly(env, ph, node.fields["expr"], key);
  }

  ghost predicate HasWay(env: Env, ph: Placeholders, kind: Kind, node: Json, r: Result) {
    exists path :: Arrives(env, ph, kind, node, path, r)
  }

  /** The meaning of a value node: it comes to a value exactly when some way through it
      ends at a scalar that gives that value. */
  lemma NodeComesToExactly(env: Env, ph: Placeholders, kind: Kind, node: Json, r: Result)
    ensures Comes(ResolveNode(env, ph, kind, node), r) <==> HasWay(env, ph, kind, node, r)
  {
    if Comes(ResolveNode(env, ph, kind, node), r) {
      var path := WayTo(env, ph, kind, node, r);
      assert HasWay(env, ph, kind, node, r);
    }
    if HasWay(env, ph, kind, node, r) {
      var path :| Arrives(env, ph, kind, node, path, r);
      ComesByWay(env, ph, kind, node, path, r);
    }
  }

  // ---------------------------------------------------------------------
  // Pixel layouts
  // ---------------------------------------------------------------------

  /** The branches taken end at this layout text. */
  ghost predicate LaysOut(env: Env, ph: Placeholders, node: Json, taken: seq<bool>, s: string)
    decreases |taken|
  {
    if taken == [] then node == Str(s)
    else
      var branch := if taken[0] then "then" else "else";
      && node.Obj? && "if" in node.fields && ComesToTruth(env, ph, node.fields["if"], taken[0])
      && branch in node.fields && LaysOut(env, ph, node.fields[branch], taken[1..], s)
  }

  lemma {:induction false} BranchesTo(env: Env, ph: Placeholders, node: Json, s: string) returns (taken: seq<bool>)
    requires Comes(ResolveLayout(env, ph, node), s)
    ensures LaysOut(env, ph, node, taken, s)
    decreases node
  {
    if node.Str? {
      taken := [];
    } else {
      var b := Condition(env, ph, node.fields["if"]).value;
      ConditionExactly(env, ph, node.fields["if"], b);
      var rest := BranchesTo(env, ph, node.fields[if b then "then" else "else"], s);
      taken := [b] + rest;
      assert taken[1..] == rest;
    }
  }

  lemma {:induction false} LaidOutByBranches(env: Env, ph: Placeholders, node: Json, taken: seq<bool>, s: string)
    requires LaysOut(env, ph, node, taken, s)
    ensures Comes(ResolveLayout(env, ph, node), s)
    decreases |taken|
  {
    if taken != [] {
      ConditionExactly(env, ph, node.fields["if"], taken[0]);
      LaidOutByBranches(env, ph, node.fields[if taken[0] then "then" else "else"], taken[1..], s);
    }
  }

  ghost predicate HasBranches(env: Env, ph: Placeholders, node: Json, s: string) {
    exists taken :: LaysOut(env, ph, node, taken, s)
  }

  /** A layout node comes to the text its conditions lead to, and to no other. */
  lemma LayoutComesToExactly(env: Env, ph: Placeholders, node: Json, s: string)
    ensures Comes(ResolveLayout(env, ph, node), s) <==> HasBranches(env, ph, node, s)
  {
    if Comes(ResolveLayout(env, ph, node), s) {
      var taken := BranchesTo(env, ph, node, s);
      assert HasBranches(env, ph, node, s);
    }
    if HasBranches(env, ph, node, s) {
      var taken :| LaysOut(env, ph, node, taken, s);
      LaidOutByBranches(env, ph, node, taken, s);
    }
  }
}
