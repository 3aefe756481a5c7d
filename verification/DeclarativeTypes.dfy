/**
 Declarative type entries: JSON descriptions of a type's buffer, checked when
 they are loaded (_validate_*) and resolved against a debugger when a symbol is
 plotted (_resolve_*). A validator and an interpreter over the same value trees.
 */
module DeclarativeTypes {
  import opened Wrappers

  // ---------------------------------------------------------------------
  // Values
  // ---------------------------------------------------------------------

  /** JSON as Python's json module decodes it; 1e999 decodes to an infinity. */
  datatype Double = Finite(r: real) | Infinite | NaN

  datatype Json =
    | Null
    | Bool(b: bool)
    | Int(i: int)
    | Float(x: Double)
    | Str(s: string)
    | Arr(items: seq<Json>)
    | Obj(fields: map<string, Json>)

  /** What int() does to a debugger value, and str(). Refusing is a TypeError or a
      ValueError, leaking is anything else raised. */
  datatype Conversion = Converts(i: int) | Refuses | Leaks
  datatype Rendering = Shows(text: string) | ShowRefuses | ShowLeaks

  /** What the bridge may hand back for an expression: never a Python bool or
      float. */
  datatype Value =
    | Number(i: int)
    | Text(s: string)
    | Handle(id: nat, asInt: Conversion, shown: Rendering)

  /** Everything outside this module: the bridge, the symbol's template arguments
      and Python's text conversions. Any functions will do. */
  datatype Env = Env(
    sym: string,                        // {sym} for this symbol
    evaluate: string -> Option<Value>,  // evaluate_expression; None when it raises
    targ: string -> Option<string>,     // a {targ:...} token; None when it raises
    parseInt: string -> Option<int>,    // int(text)
    parseAny: string -> Option<int>,    // int(text, 0)
    show: int -> Option<string>,        // str(n); None for a number of too many digits
    strip: string -> string,            // text.strip()
    lower: string -> string,            // text.lower()
    cast: Value -> Option<nat>)         // get_casted_pointer('char', .); None for null

  predicate TameValue(v: Value) { v.Handle? ==> !v.asInt.Leaks? && v.shown.Shows? }

  /** Every number prints, and every debugger value prints too and converts or refuses
      to. */
  ghost predicate Tame(env: Env) {
    && (forall text, v :: env.evaluate(text) == Some(v) ==> TameValue(v))
    && (forall i {:trigger env.show(i)} :: env.show(i).Some?)
  }

  // ---------------------------------------------------------------------
  // Placeholders
  // ---------------------------------------------------------------------

  predicate IsLower(c: char) { 'a' <= c <= 'z' || c == '_' }
  predicate IsDigit(c: char) { '0' <= c <= '9' }

  /** End of the longest run of [a-z_] (or of digits) starting at `i`. */
  function LowerEnd(t: string, i: nat): (e: nat)
    requires i <= |t|
    ensures i <= e <= |t|
    decreases |t| - i
  {
    if i < |t| && IsLower(t[i]) then LowerEnd(t, i + 1) else i
  }

  function DigitEnd(t: string, i: nat): (e: nat)
    requires i <= |t|
    ensures i <= e <= |t|
    decreases |t| - i
  {
    if i < |t| && IsDigit(t[i]) then DigitEnd(t, i + 1) else i
  }

  /** End of \d+(\.\d+)* starting at `i`, or `i` when it does not match. */
  function IndexPathEnd(t: string, i: nat): (e: nat)
    requires i <= |t|
    ensures i <= e <= |t|
    decreases |t| - i
  {
    var d := DigitEnd(t, i);
    if d == i then i
    else if d < |t| && t[d] == '.' && DigitEnd(t, d + 1) > d + 1 then IndexPathEnd(t, d + 1)
    else d
  }

  predicate IsTarg(token: string) { "targ:" <= token }

  /** The placeholder pattern at a '{': the index of its closing brace. */
  function TokenEnd(t: string, i: nat): (e: Option<nat>)
    requires i < |t|
    ensures e.Some? ==> i < e.value < |t|
  {
    if t[i] != '{' then None
    else
      var word := LowerEnd(t, i + 1);
      if word > i + 1 && word < |t| && t[word] == '}' then Some(word)
      else if "targ:" <= t[i + 1..] then
        var path := IndexPathEnd(t, i + 6);
        if path > i + 6 && path < |t| && t[path] == '}' then Some(path) else None
      else None
  }

  datatype Piece = Literal(c: char) | Token(name: string)

  /** The template scanned left to right, as finditer and sub both see it. */
  function Pieces(t: string, i: nat := 0): seq<Piece>
    requires i <= |t|
    decreases |t| - i
  {
    if i == |t| then []
    else match TokenEnd(t, i)
      case Some(e) => [Token(t[i + 1..e])] + Pieces(t, e + 1)
      case None => [Literal(t[i])] + Pieces(t, i + 1)
  }

  datatype Substitution = Substituted(text: string) | UnknownPlaceholder | TargFailed

  type Placeholders = map<string, string>

  function SubstitutePieces(env: Env, ph: Placeholders, pieces: seq<Piece>): Substitution {
    if pieces == [] then Substituted("")
    else
      var head := match pieces[0]
        case Literal(c) => Substituted([c])
        case Token(name) =>
          if IsTarg(name) then
            (match env.targ(name) case Some(text) => Substituted(text) case None => TargFailed)
          else if name in ph then Substituted(ph[name])
          else UnknownPlaceholder;
      if !head.Substituted? then head
      else match SubstitutePieces(env, ph, pieces[1..])
        case Substituted(text) => Substituted(head.text + text)
        case failure => failure
  }

  function Substitute(env: Env, ph: Placeholders, text: string): Substitution {
    SubstitutePieces(env, ph, Pieces(text))
  }

  // ---------------------------------------------------------------------
  // The interpreter
  // ---------------------------------------------------------------------

  datatype Exception =
    | EntryError      // EntryEvaluationError
    | ConvertError    // a bare TypeError or ValueError
    | OverflowError   // int() of an infinity
    | BridgeLeak      // whatever else a debugger value's int() or str() raised
    | Malformed       // a missing key or a value of the wrong JSON type

  /** A computation's outcome. `clean` records that it never took the
      unknown-placeholder branch and never substituted into a non-string --
      not even inside a candidate whose failure was swallowed. */
  datatype Eval<+T> = Ok(value: T, clean: bool) | Raise(error: Exception, clean: bool) {
    function After(before: bool): Eval<T> {
      match this
      case Ok(v, c) => Ok(v, c && before)
      case Raise(e, c) => Raise(e, c && before)
    }
  }

  function EvaluateViaBridge(env: Env, text: string): Eval<Value> {
    match env.evaluate(text)
    case Some(v) => Ok(v, true)
    case None => Raise(EntryError, true)
  }

  function EvaluateText(env: Env, text: string): Eval<Value> {
    match env.parseInt(text)
    case Some(i) => Ok(Number(i), true)
    case None => EvaluateViaBridge(env, text)
  }

  function SubstituteNode(env: Env, ph: Placeholders, node: Json): Eval<string> {
    if !node.Str? then Raise(EntryError, false)
    else match Substitute(env, ph, node.s)
      case Substituted(text) => Ok(text, true)
      case UnknownPlaceholder => Raise(EntryError, false)
      case TargFailed => Raise(EntryError, true)
  }

  function Evaluate(env: Env, ph: Placeholders, node: Json): Eval<Value> {
    match SubstituteNode(env, ph, node)
    case Ok(text, c) => EvaluateText(env, text).After(c)
    case Raise(e, c) => Raise(e, c)
  }

  /** _to_int on a debugger value. */
  function ToInt(env: Env, v: Value): Eval<int> {
    match v
    case Number(i) => Ok(i, true)
    case Text(s) => (match env.parseAny(s) case Some(i) => Ok(i, true) case None => Raise(ConvertError, true))
    case Handle(_, Converts(i), _) => Ok(i, true)
    case Handle(_, Refuses, _) => Raise(ConvertError, true)
    case Handle(_, Leaks, _) => Raise(BridgeLeak, true)
  }

  /** Wrapping a conversion failure with the entry and the field. */
  function Wrapped<T>(e: Eval<T>): Eval<T> {
    match e
    case Raise(ConvertError, c) => Raise(EntryError, c)
    case _ => e
  }

  /** str() of a debugger value. */
  function Rendered(shown: Rendering): Eval<string> {
    match shown
    case Shows(text) => Ok(text, true)
    case ShowRefuses => Raise(ConvertError, true)
    case ShowLeaks => Raise(BridgeLeak, true)
  }

  function TextBool(env: Env, shown: string): Eval<bool> {
    var text := env.lower(env.strip(shown));
    if text == "true" then Ok(true, true)
    else if text == "false" then Ok(false, true)
    else Raise(ConvertError, true)
  }

  /** _to_bool on a debugger value. */
  function ToBool(env: Env, v: Value): Eval<bool> {
    match v
    case Number(i) => Ok(i != 0, true)
    case Text(s) => (match env.parseInt(s) case Some(i) => Ok(i != 0, true) case None => TextBool(env, s))
    case Handle(_, Converts(i), _) => Ok(i != 0, true)
    case Handle(_, Refuses, shown) =>
      (match Rendered(shown) case Ok(text, _) => TextBool(env, text) case Raise(x, c) => Raise(x, c))
    case Handle(_, Leaks, _) => Raise(BridgeLeak, true)
  }

  /** int() of a debugger value, where it converts, and str() where that is what is
      left to look at. */
  function AsNumber(env: Env, v: Value): Option<int> {
    match v
    case Number(i) => Some(i)
    case Text(s) => env.parseInt(s)
    case Handle(_, asInt, _) => if asInt.Converts? then Some(asInt.i) else None
  }

  function AsText(v: Value): Option<string> {
    match v
    case Number(_) => None
    case Text(s) => Some(s)
    case Handle(_, asInt, shown) => if asInt.Refuses? && shown.Shows? then Some(shown.text) else None
  }

  /** A debugger value is true or false exactly as its number is nonzero or zero, or,
      having no number, as its text spells the word. */
  lemma TruthExactly(env: Env, v: Value, b: bool)
    ensures ToBool(env, v) == Ok(b, true) <==>
      match AsNumber(env, v)
      case Some(i) => b == (i != 0)
      case None => AsText(v).Some? && env.lower(env.strip(AsText(v).value)) == if b then "true" else "false"
  {
  }

  function Truncated(r: real): int { if r >= 0.0 then r.Floor else -((-r).Floor) }

  /** _to_bool on a JSON literal. */
  function LiteralBool(node: Json): Eval<bool> {
    match node
    case Bool(b) => Ok(b, true)
    case Int(i) => Ok(i != 0, true)
    case Float(Finite(r)) => Ok(Truncated(r) != 0, true)
    case Float(Infinite) => Raise(OverflowError, true)
    case _ => Raise(ConvertError, true)
  }

  const DTYPE_NAMES: map<string, int> := map[
    "uint8" := 0, "unsigned char" := 0, "uint8_t" := 0,
    "uint16" := 2, "unsigned short" := 2, "uint16_t" := 2,
    "int16" := 3, "short" := 3, "int16_t" := 3,
    "int32" := 4, "int" := 4, "int32_t" := 4,
    "float32" := 5, "float" := 5,
    "float64" := 6, "double" := 6]

  const DTYPE_ELEMSIZE: map<int, int> := map[0 := 1, 2 := 2, 3 := 2, 4 := 4, 5 := 4, 6 := 8]

  /** The three ways a terminal scalar is read, and what each gives. */
  datatype Kind = Size | Code | Flag | Pointer

  datatype Result = IntResult(i: int) | BoolResult(b: bool) | ValueResult(v: Value)

  /** The error for a number out of range, which quotes it. */
  function OutOfRange(env: Env, i: int): Exception { if env.show(i).Some? then EntryError else ConvertError }

  function AsSize(env: Env, e: Eval<int>): Eval<Result> {
    match Wrapped(e)
    case Ok(i, c) => if i < 0 then Raise(OutOfRange(env, i), c) else Ok(IntResult(i), c)
    case Raise(x, c) => Raise(x, c)
  }

  function AsCode(env: Env, e: Eval<int>): Eval<Result> {
    match Wrapped(e)
    case Ok(i, c) => if i in DTYPE_NAMES.Values then Ok(IntResult(i), c) else Raise(OutOfRange(env, i), c)
    case Raise(x, c) => Raise(x, c)
  }

  function AsFlag(e: Eval<bool>): Eval<Result> {
    match Wrapped(e)
    case Ok(b, c) => Ok(BoolResult(b), c)
    case Raise(x, c) => Raise(x, c)
  }

  function LiteralInt(node: Json): Eval<int> {
    match node
    case Int(i) => Ok(i, true)
    case Bool(_) => Raise(EntryError, true)
    case Float(_) => Raise(EntryError, true)
    case _ => Raise(ConvertError, true)
  }

  function Leaf(env: Env, ph: Placeholders, kind: Kind, node: Json): Eval<Result> {
    match kind
    case Size =>
      if !node.Str? then AsSize(env, LiteralInt(node))
      else (match Evaluate(env, ph, node)
        case Ok(v, c) => AsSize(env, ToInt(env, v).After(c))
        case Raise(x, c) => Raise(x, c))
    case Code =>
      if !node.Str? then AsCode(env, LiteralInt(node))
      else (match SubstituteNode(env, ph, node)
        case Raise(x, c) => Raise(x, c)
        case Ok(raw, c) =>
          var text := env.strip(raw);
          if text in DTYPE_NAMES then AsCode(env, Ok(DTYPE_NAMES[text], c))
          else match EvaluateText(env, text)
            case Ok(v, _) => AsCode(env, ToInt(env, v).After(c))
            case Raise(x, _) => Raise(x, c))
    case Flag =>
      if !node.Str? then AsFlag(LiteralBool(node))
      else (match Evaluate(env, ph, node)
        case Ok(v, c) => AsFlag(ToBool(env, v).After(c))
        case Raise(x, c) => Raise(x, c))
    case Pointer =>
      (match SubstituteNode(env, ph, node)
        case Raise(x, c) => Raise(x, c)
        case Ok(text, c) =>
          match EvaluateViaBridge(env, text)
          case Ok(v, _) => Ok(ValueResult(v), c)
          case Raise(x, _) => Raise(x, c))
  }

  function Condition(env: Env, ph: Placeholders, node: Json): Eval<bool> {
    match Evaluate(env, ph, node)
    case Ok(v, c) => Wrapped(ToBool(env, v).After(c))
    case Raise(x, c) => Raise(x, c)
  }

  /** The text a map node looks its expression's value up by: str(int(raw)), or
      str(raw) if that refuses. */
  function MapKey(env: Env, v: Value): Eval<string> {
    match v
    case Number(i) => (match env.show(i) case Some(text) => Ok(text, true) case None => Raise(ConvertError, true))
    case Text(s) =>
      var i := env.parseInt(s);
      var text := if i.Some? then env.show(i.value) else None;
      Ok(text.GetOr(s), true)
    case Handle(_, Converts(i), shown) =>
      (match env.show(i) case Some(text) => Ok(text, true) case None => Rendered(shown))
    case Handle(_, Refuses, shown) => Rendered(shown)
    case Handle(_, Leaks, _) => Raise(BridgeLeak, true)
  }

  predicate Caught(x: Exception) { x == EntryError || x == ConvertError }

  function ResolveNode(env: Env, ph: Placeholders, kind: Kind, node: Json): Eval<Result>
    decreases node, 1
  {
    if !node.Obj? then Leaf(env, ph, kind, node)
    else if "first_valid" in node.fields then
      if node.fields["first_valid"].Arr? then FirstValid(env, ph, kind, node.fields["first_valid"].items)
      else Raise(Malformed, true)
    else if "if" in node.fields then
      match Condition(env, ph, node.fields["if"])
      case Raise(x, c) => Raise(x, c)
      case Ok(b, c) =>
        var branch := if b then "then" else "else";
        if branch in node.fields then ResolveNode(env, ph, kind, node.fields[branch]).After(c)
        else Raise(Malformed, c)
    else if "expr" !in node.fields then Raise(Malformed, true)
    else
      match Evaluate(env, ph, node.fields["expr"])
      case Raise(x, c) => Raise(x, c)
      case Ok(v, c) =>
        match MapKey(env, v)
        case Raise(x, _) => Raise(x, c)
        case Ok(key, _) =>
          if "map" !in node.fields || !node.fields["map"].Obj? then Raise(Malformed, c)
          else if key in node.fields["map"].fields then
            ResolveNode(env, ph, kind, node.fields["map"].fields[key]).After(c)
          else if "default" in node.fields then
            ResolveNode(env, ph, kind, node.fields["default"]).After(c)
          else Raise(EntryError, c)
  }

  /** One first_valid candidate; a value below its `min` counts as failing. */
  function Candidate(env: Env, ph: Placeholders, kind: Kind, node: Json): Eval<Result>
    decreases node, 2
  {
    if node.Obj? && "min" in node.fields then
      if "expr" !in node.fields then Raise(Malformed, true)
      else
        match Evaluate(env, ph, node.fields["expr"])
        case Raise(x, c) => Raise(x, c)
        case Ok(v, c) =>
          match ToInt(env, v)
          case Raise(x, _) => Raise(x, c)
          case Ok(i, _) =>
            if !node.fields["min"].Int? then Raise(Malformed, c)
            else if i < node.fields["min"].i then Raise(EntryError, c)
            else Leaf(env, ph, kind, Int(i)).After(c)
    else ResolveNode(env, ph, kind, node)
  }

  function FirstValid(env: Env, ph: Placeholders, kind: Kind, candidates: seq<Json>): Eval<Result>
    decreases candidates
  {
    if candidates == [] then Raise(EntryError, true)
    else
      match Candidate(env, ph, kind, candidates[0])
      case Ok(r, c) => Ok(r, c)
      case Raise(x, c) =>
        if Caught(x) then FirstValid(env, ph, kind, candidates[1..]).After(c) else Raise(x, c)
  }

  // ---------------------------------------------------------------------
  // The validator
  // ---------------------------------------------------------------------

  /** A placeholder an expression may use when `available` are filled in. */
  predicate Known(available: set<string>, token: string) {
    token == "sym" || IsTarg(token) || token in available
  }

  /** _string_node_errors finds nothing. */
  predicate ValidText(available: set<string>, text: string) {
    forall p :: p in Pieces(text) && p.Token? ==> Known(available, p.name)
  }

  predicate ValidExpression(available: set<string>, node: Json) {
    node.Str? && ValidText(available, node.s)
  }

  /** Which bare numeric literals a field's nodes may hold. */
  datatype Policy = NoNumbers | Integers | AnyNumber

  /** _validate_node finds nothing. */
  predicate ValidNode(available: set<string>, policy: Policy, node: Json)
    decreases node, 1
  {
    match node
    case Bool(_) => policy == AnyNumber
    case Float(_) => policy == AnyNumber
    case Int(_) => policy != NoNumbers
    case Str(text) => ValidText(available, text)
    case Obj(fields) =>
      if "first_valid" in fields then
        fields.Keys == {"first_valid"}
        && fields["first_valid"].Arr? && fields["first_valid"].items != []
        && forall c :: c in fields["first_valid"].items ==> ValidCandidate(available, policy, c)
      else if "if" in fields then
        fields.Keys == {"if", "then", "else"}
        && ValidExpression(available, fields["if"])
        && ValidNode(available, policy, fields["then"]) && ValidNode(available, policy, fields["else"])
      else
        && "expr" in fields && "map" in fields && fields.Keys <= {"expr", "map", "default"}
        && ValidExpression(available, fields["expr"])
        && fields["map"].Obj? && fields["map"].fields.Keys != {}
        && (forall k :: k in fields["map"].fields ==> ValidNode(available, policy, fields["map"].fields[k]))
        && ("default" in fields ==> ValidNode(available, policy, fields["default"]))
    case _ => false
  }

  predicate ValidCandidate(available: set<string>, policy: Policy, node: Json)
    decreases node, 2
  {
    if node.Obj? && "min" in node.fields then
      && policy != NoNumbers
      && node.fields.Keys == {"expr", "min"}
      && node.fields["min"].Int? && ValidExpression(available, node.fields["expr"])
    else ValidNode(available, policy, node)
  }

  // ---------------------------------------------------------------------
  // What validation buys: one field
  // ---------------------------------------------------------------------

  /** The placeholders at a stage: {sym} and those derived from earlier fields. */
  predicate Filled(ph: Placeholders, available: set<string>) {
    available + {"sym"} <= ph.Keys
  }

  lemma {:induction false} SubstituteKnown(env: Env, ph: Placeholders, available: set<string>, pieces: seq<Piece>)
    requires Filled(ph, available)
    requires forall p :: p in pieces && p.Token? ==> Known(available, p.name)
    ensures SubstitutePieces(env, ph, pieces) != UnknownPlaceholder
  {
    if pieces != [] {
      assert pieces[0] in pieces;
      SubstituteKnown(env, ph, available, pieces[1..]);
    }
  }

  /** The placeholder check is exact: with the stage's placeholders filled in and
      every {targ:...} resolving, a template substitutes if and only if it passes. */
  lemma ValidTextIsExact(env: Env, ph: Placeholders, available: set<string>, text: string)
    requires ph.Keys == available + {"sym"}
    requires forall token :: env.targ(token).Some?
    ensures ValidText(available, text) <==> Substitute(env, ph, text).Substituted?
    ensures !ValidText(available, text) <==> Substitute(env, ph, text) == UnknownPlaceholder
  {
    PiecesAreExact(env, ph, available, Pieces(text));
  }

  lemma {:induction false} PiecesAreExact(env: Env, ph: Placeholders, available: set<string>, pieces: seq<Piece>)
    requires ph.Keys == available + {"sym"}
    requires forall token :: env.targ(token).Some?
    ensures var known := forall p :: p in pieces && p.Token? ==> Known(available, p.name);
            && (known <==> SubstitutePieces(env, ph, pieces).Substituted?)
            && (!known <==> SubstitutePieces(env, ph, pieces) == UnknownPlaceholder)
  {
    if pieces != [] {
      PiecesAreExact(env, ph, available, pieces[1..]);
      assert pieces == [pieces[0]] + pieces[1..];
    }
  }

  /** No infinite float literal anywhere a flag is read from. */
  predicate NoInfinity(node: Json)
    decreases node
  {
    match node
    case Float(x) => x != Infinite
    case Arr(items) => forall c :: c in items ==> NoInfinity(c)
    case Obj(fields) => forall k :: k in fields ==> NoInfinity(fields[k])
    case _ => true
  }

  /** What resolving a node may come to. */
  ghost predicate Sound(env: Env, kind: Kind, node: Json, e: Eval<Result>) {
    && e.clean
    && match e
       case Ok(r, _) => Fits(kind, r)
       case Raise(x, _) =>
         || x == EntryError
         || (x == ConvertError && ((node.Obj? && "min" in node.fields) || !Tame(env)))
         || (x == OverflowError && kind == Flag && !NoInfinity(node))
         || (x == BridgeLeak && !Tame(env))
  }

  /** A field's value lies where the field's consumers expect it. */
  predicate Fits(kind: Kind, r: Result) {
    match kind
    case Size => r.IntResult? && r.i >= 0
    case Code => r.IntResult? && r.i in DTYPE_NAMES.Values
    case Flag => r.BoolResult?
    case Pointer => r.ValueResult?
  }

  function PolicyOf(kind: Kind): Policy {
    match kind
    case Flag => AnyNumber
    case Pointer => NoNumbers
    case _ => Integers
  }

  lemma ExpressionSound(env: Env, ph: Placeholders, available: set<string>, node: Json)
    requires Filled(ph, available) && ValidExpression(available, node)
    ensures var e := SubstituteNode(env, ph, node); e.clean && (e.Raise? ==> e.error == EntryError)
    ensures var e := Evaluate(env, ph, node);
            && e.clean && (e.Raise? ==> e.error == EntryError)
            && (e.Ok? && !TameValue(e.value) ==> !Tame(env))
  {
    SubstituteKnown(env, ph, available, Pieces(node.s));
    TextSound(env, ph, node);
  }

  lemma TextSound(env: Env, ph: Placeholders, node: Json)
    ensures var e := Evaluate(env, ph, node);
            e.Ok? && !TameValue(e.value) ==> !Tame(env)
  {
    var e := SubstituteNode(env, ph, node);
    if e.Ok? { EvaluatedTextSound(env, e.value); }
  }

  lemma EvaluatedTextSound(env: Env, text: string)
    ensures var e := EvaluateText(env, text);
            e.clean && (if e.Ok? then !TameValue(e.value) ==> !Tame(env) else e.error == EntryError)
  {
    var v := env.evaluate(text);
    if v.Some? && !TameValue(v.value) {
      assert env.evaluate(text) == Some(v.value);
    }
  }

  lemma LiteralLeafSound(env: Env, ph: Placeholders, available: set<string>, kind: Kind, node: Json)
    requires !node.Obj? && !node.Str? && ValidNode(available, PolicyOf(kind), node)
    ensures Sound(env, kind, node, Leaf(env, ph, kind, node))
  {
  }

  lemma CodeLeafSound(env: Env, ph: Placeholders, available: set<string>, node: Json)
    requires Filled(ph, available) && node.Str? && ValidNode(available, PolicyOf(Code), node)
    ensures Sound(env, Code, node, Leaf(env, ph, Code, node))
  {
    ExpressionSound(env, ph, available, node);
    var e := SubstituteNode(env, ph, node);
    if e.Ok? { EvaluatedTextSound(env, env.strip(e.value)); }
  }

  lemma TextLeafSound(env: Env, ph: Placeholders, available: set<string>, kind: Kind, node: Json)
    requires Filled(ph, available) && node.Str? && kind != Code && ValidNode(available, PolicyOf(kind), node)
    ensures Sound(env, kind, node, Leaf(env, ph, kind, node))
  {
    ExpressionSound(env, ph, available, node);
  }

  lemma LeafSound(env: Env, ph: Placeholders, available: set<string>, kind: Kind, node: Json)
    requires Filled(ph, available) && !node.Obj? && ValidNode(available, PolicyOf(kind), node)
    ensures Sound(env, kind, node, Leaf(env, ph, kind, node))
  {
    if !node.Str? {
      LiteralLeafSound(env, ph, available, kind, node);
    } else if kind == Code {
      CodeLeafSound(env, ph, available, node);
    } else {
      TextLeafSound(env, ph, available, kind, node);
    }
  }

  lemma ConditionSound(env: Env, ph: Placeholders, available: set<string>, node: Json)
    requires Filled(ph, available) && ValidExpression(available, node)
    ensures var e := Condition(env, ph, node);
            e.clean && (e.Raise? ==> e.error == EntryError || (e.error == BridgeLeak && !Tame(env)))
  {
    ExpressionSound(env, ph, available, node);
  }

  /** A node below `node` is sound for it too. */
  lemma Lifts(env: Env, kind: Kind, child: Json, node: Json, e: Eval<Result>)
    requires Sound(env, kind, child, e) && (e.Raise? && e.error == ConvertError ==> !Tame(env))
    requires NoInfinity(node) ==> NoInfinity(child)
    ensures Sound(env, kind, node, e) && Sound(env, kind, node, e.After(true)) && e.After(true).clean
  {
  }

  ghost predicate NodeIsSound(env: Env, ph: Placeholders, kind: Kind, node: Json) {
    var e := ResolveNode(env, ph, kind, node);
    Sound(env, kind, node, e) && (e.Raise? && e.error == ConvertError ==> !Tame(env))
  }

  /** Type soundness of value nodes: whatever the bridge does, a node the validator
      accepts resolves to a value that fits its field, or raises
      EntryEvaluationError -- unless an infinite literal reaches int(), a debugger
      value's own int() or str() raises something of its own, or a number has too many
      digits to print. */
  lemma {:induction false} NodeSound(env: Env, ph: Placeholders, available: set<string>, kind: Kind, node: Json)
    requires Filled(ph, available) && ValidNode(available, PolicyOf(kind), node)
    ensures NodeIsSound(env, ph, kind, node)
    decreases node, 3
  {
    if !node.Obj? {
      LeafSound(env, ph, available, kind, node);
    } else if "first_valid" in node.fields {
      CandidatesSound(env, ph, available, kind, node.fields["first_valid"].items);
      assert NoInfinity(node) ==> NoInfinity(node.fields["first_valid"]);
    } else if "if" in node.fields {
      IfSound(env, ph, available, kind, node);
    } else {
      MapNodeSound(env, ph, available, kind, node);
    }
  }

  lemma {:induction false} IfSound(env: Env, ph: Placeholders, available: set<string>, kind: Kind, node: Json)
    requires Filled(ph, available) && ValidNode(available, PolicyOf(kind), node)
    requires node.Obj? && "first_valid" !in node.fields && "if" in node.fields
    ensures NodeIsSound(env, ph, kind, node)
    decreases node, 2
  {
    ConditionSound(env, ph, available, node.fields["if"]);
    ChildSound(env, ph, available, kind, node, node.fields["then"]);
    ChildSound(env, ph, available, kind, node, node.fields["else"]);
  }

  lemma {:induction false} MapNodeSound(env: Env, ph: Placeholders, available: set<string>, kind: Kind, node: Json)
    requires Filled(ph, available) && ValidNode(available, PolicyOf(kind), node)
    requires node.Obj? && "first_valid" !in node.fields && "if" !in node.fields
    ensures NodeIsSound(env, ph, kind, node)
    decreases node, 2
  {
    ExpressionSound(env, ph, available, node.fields["expr"]);
    var e := Evaluate(env, ph, node.fields["expr"]);
    if e.Ok? {
      KeySound(env, e.value);
      if MapKey(env, e.value).Ok? { CaseSound(env, ph, available, kind, node, MapKey(env, e.value).value); }
    }
  }

  lemma KeySound(env: Env, v: Value)
    ensures MapKey(env, v).Raise? ==> MapKey(env, v).error in {ConvertError, BridgeLeak}
    ensures MapKey(env, v).Raise? ==> !TameValue(v) || !Tame(env)
  {
  }

  /** The case a map node's key leads to. */
  lemma {:induction false} CaseSound(env: Env, ph: Placeholders, available: set<string>, kind: Kind, node: Json, key: string)
    requires Filled(ph, available) && ValidNode(available, PolicyOf(kind), node)
    requires node.Obj? && "first_valid" !in node.fields && "if" !in node.fields
    ensures var cases := node.fields["map"].fields;
            (key in cases || "default" in node.fields) ==>
              var child := if key in cases then cases[key] else node.fields["default"];
              var e := ResolveNode(env, ph, kind, child).After(true);
              Sound(env, kind, node, e) && (e.Raise? && e.error == ConvertError ==> !Tame(env))
    decreases node, 1, 1
  {
    var cases := node.fields["map"];
    if key in cases.fields {
      assert NoInfinity(node) ==> NoInfinity(cases);
      ChildSound(env, ph, available, kind, node, cases.fields[key]);
    } else if "default" in node.fields {
      ChildSound(env, ph, available, kind, node, node.fields["default"]);
    }
  }

  lemma {:induction false} ChildSound(env: Env, ph: Placeholders, available: set<string>, kind: Kind, node: Json, child: Json)
    requires Filled(ph, available) && ValidNode(available, PolicyOf(kind), child)
    requires child < node && (NoInfinity(node) ==> NoInfinity(child))
    ensures var e := ResolveNode(env, ph, kind, child).After(true);
            Sound(env, kind, node, e) && (e.Raise? && e.error == ConvertError ==> !Tame(env))
    decreases node, 1, 0
  {
    NodeSound(env, ph, available, kind, child);
    Lifts(env, kind, child, node, ResolveNode(env, ph, kind, child));
  }

  lemma {:induction false} CandidateSound(env: Env, ph: Placeholders, available: set<string>, kind: Kind, node: Json)
    requires Filled(ph, available) && ValidCandidate(available, PolicyOf(kind), node)
    ensures Sound(env, kind, node, Candidate(env, ph, kind, node))
    decreases node, 4
  {
    if node.Obj? && "min" in node.fields {
      ExpressionSound(env, ph, available, node.fields["expr"]);
      var e := Evaluate(env, ph, node.fields["expr"]);
      if e.Ok? && ToInt(env, e.value).Ok? {
        LeafSound(env, ph, available, kind, Int(ToInt(env, e.value).value));
      }
    } else {
      NodeSound(env, ph, available, kind, node);
    }
  }

  lemma {:induction false} CandidatesSound(env: Env, ph: Placeholders, available: set<string>, kind: Kind, candidates: seq<Json>)
    requires Filled(ph, available)
    requires forall c :: c in candidates ==> ValidCandidate(available, PolicyOf(kind), c)
    ensures Sound(env, kind, Arr(candidates), FirstValid(env, ph, kind, candidates))
    decreases candidates
  {
    if candidates != [] {
      CandidateSound(env, ph, available, kind, candidates[0]);
      CandidatesSound(env, ph, available, kind, candidates[1..]);
      assert candidates[0] in candidates;
      assert NoInfinity(Arr(candidates)) ==> NoInfinity(candidates[0]) && NoInfinity(Arr(candidates[1..]));
    }
  }

  // ---------------------------------------------------------------------
  // first_valid
  // ---------------------------------------------------------------------

  /** Candidate `n` is the first whose failure, if any, is not swallowed. */
  predicate FirstToDecide(env: Env, ph: Placeholders, kind: Kind, candidates: seq<Json>, n: nat) {
    && n < |candidates|
    && (var e := Candidate(env, ph, kind, candidates[n]); e.Ok? || !Caught(e.error))
    && forall j :: 0 <= j < n ==>
         var e := Candidate(env, ph, kind, candidates[j]); e.Raise? && Caught(e.error)
  }

  /** first_valid is the value of the least candidate that succeeds, and no
      candidate after it matters; when all fail it fails itself. */
  lemma {:induction false} FirstValidIsLeast(env: Env, ph: Placeholders, kind: Kind, candidates: seq<Json>, n: nat)
    requires FirstToDecide(env, ph, kind, candidates, n)
    ensures var c, e := Candidate(env, ph, kind, candidates[n]), FirstValid(env, ph, kind, candidates);
            if c.Ok? then e.Ok? && e.value == c.value else e.Raise? && e.error == c.error
    ensures FirstValid(env, ph, kind, candidates) == FirstValid(env, ph, kind, candidates[..n + 1])
    decreases n
  {
    assert candidates[..n + 1][0] == candidates[0];
    if n > 0 {
      assert forall j :: 0 <= j < n - 1 ==> candidates[1..][j] == candidates[j + 1];
      FirstValidIsLeast(env, ph, kind, candidates[1..], n - 1);
      assert candidates[..n + 1][1..] == candidates[1..][..n];
    }
  }

  lemma {:induction false} FirstValidFails(env: Env, ph: Placeholders, kind: Kind, candidates: seq<Json>)
    requires forall j :: 0 <= j < |candidates| ==>
               var e := Candidate(env, ph, kind, candidates[j]); e.Raise? && Caught(e.error)
    ensures var e := FirstValid(env, ph, kind, candidates); e.Raise? && e.error == EntryError
    decreases candidates
  {
    if candidates != [] {
      assert forall j :: 0 <= j < |candidates| - 1 ==> candidates[1..][j] == candidates[j + 1];
      FirstValidFails(env, ph, kind, candidates[1..]);
    }
  }

  // ---------------------------------------------------------------------
  // Entries
  // ---------------------------------------------------------------------

  datatype Field = Dtype | Transpose | Width | Height | Channels | BufferPointer | RowStride | PixelLayout

  /** RESOLUTION_ORDER: the fixed order the fields are resolved in. */
  function InOrder(k: nat): Field {
    match k
    case 0 => Dtype
    case 1 => Transpose
    case 2 => Width
    case 3 => Height
    case 4 => Channels
    case 5 => BufferPointer
    case 6 => RowStride
    case _ => PixelLayout
  }

  const FIELDS: nat := 8

  /** The validator's table: derived placeholders each field may use. */
  function DerivedByStage(f: Field): set<string> {
    match f
    case Dtype => {}
    case Transpose => {"dtype", "elemsize"}
    case Width => {"dtype", "elemsize", "transpose"}
    case Height => {"dtype", "elemsize", "transpose", "width"}
    case Channels => {"dtype", "elemsize", "transpose", "width", "height"}
    case BufferPointer => {"dtype", "elemsize", "transpose", "width", "height", "channels"}
    case RowStride => {"dtype", "elemsize", "transpose", "width", "height", "channels"}
    case PixelLayout => {"dtype", "elemsize", "transpose", "width", "height", "channels", "row_stride"}
  }

  function Name(f: Field): string {
    match f
    case Dtype => "dtype"
    case Transpose => "transpose"
    case Width => "width"
    case Height => "height"
    case Channels => "channels"
    case BufferPointer => "pointer"
    case RowStride => "row_stride"
    case PixelLayout => "pixel_layout"
  }

  function KindOf(f: Field): Kind {
    match f
    case Dtype => Code
    case Transpose => Flag
    case BufferPointer => Pointer
    case _ => Size
  }

  const REQUIRED := {"match", "pointer", "width", "height", "dtype"}
  const KNOWN_KEYS := {
    "name", "description", "match", "language", "pointer", "width", "height", "channels",
    "dtype", "row_stride", "pixel_layout", "transpose", "display_name"}
  const DEFAULTS: map<string, Json> := map[
    "channels" := Int(1), "row_stride" := Str("{width}"), "pixel_layout" := Str("rgba"),
    "transpose" := Bool(false), "display_name" := Str("{name} ({type})")]

  type Entry = map<string, Json>

  function FieldNode(entry: Entry, name: string): Option<Json> {
    if name in entry then Some(entry[name])
    else if name in DEFAULTS then Some(DEFAULTS[name])
    else None
  }

  /** ^[rgba]{4}$ as re.match reads it: `$` also matches before a final newline. */
  predicate LayoutText(s: string) {
    && |s| >= 4 && (forall i :: 0 <= i < 4 ==> s[i] in "rgba")
    && (|s| == 4 || s[4..] == "\n")
  }

  /** _validate_pixel_layout finds nothing. */
  predicate ValidLayout(available: set<string>, node: Json) {
    match node
    case Str(s) => LayoutText(s)
    case Obj(fields) =>
      && "if" in fields && fields.Keys == {"if", "then", "else"}
      && ValidExpression(available, fields["if"])
      && ValidLayout(available, fields["then"]) && ValidLayout(available, fields["else"])
    case _ => false
  }

  /** _validate_field finds nothing; a missing required field is reported
      elsewhere. */
  predicate ValidField(entry: Entry, f: Field) {
    match FieldNode(entry, Name(f))
    case None => true
    case Some(node) =>
      if f == PixelLayout then ValidLayout(DerivedByStage(f), node)
      else ValidNode(DerivedByStage(f), PolicyOf(KindOf(f)), node)
  }

  predicate ValidDisplayName(entry: Entry) {
    var node := FieldNode(entry, "display_name").value;
    node.Str? && forall p :: p in Pieces(node.s) && p.Token? ==> p.name in {"name", "type"} || IsTarg(p.name)
  }

  /** _validate_entry finds nothing; `compiles` is re.compile's verdict. */
  predicate ValidEntry(entry: Entry, compiles: string -> bool) {
    && REQUIRED <= entry.Keys <= KNOWN_KEYS
    && entry["match"].Str? && compiles(entry["match"].s)
    && (forall f: Field :: ValidField(entry, f))
    && ValidDisplayName(entry)
    && ("description" in entry ==> entry["description"].Str?)
  }

  // ---------------------------------------------------------------------
  // Resolving an entry
  // ---------------------------------------------------------------------

  function ResolveLayout(env: Env, ph: Placeholders, node: Json): Eval<string>
    decreases node
  {
    match node
    case Str(s) => Ok(s, true)
    case Obj(fields) =>
      if "if" !in fields then Raise(Malformed, true)
      else
        (match Condition(env, ph, fields["if"])
         case Raise(x, c) => Raise(x, c)
         case Ok(b, c) =>
           var branch := if b then "then" else "else";
           if branch in fields then ResolveLayout(env, ph, fields[branch]).After(c) else Raise(Malformed, c))
    case _ => Raise(Malformed, true)
  }

  datatype FieldValue = Resolved(r: Result) | Layout(s: string) | Buffer(id: nat)

  function ResolveField(env: Env, ph: Placeholders, entry: Entry, f: Field): Eval<FieldValue> {
    match FieldNode(entry, Name(f))
    case None => Raise(Malformed, true)
    case Some(node) =>
      if f == PixelLayout then
        (match ResolveLayout(env, ph, node)
         case Ok(s, c) => Ok(Layout(s), c)
         case Raise(x, c) => Raise(x, c))
      else
        match ResolveNode(env, ph, KindOf(f), node)
        case Raise(x, c) => Raise(x, c)
        case Ok(r, c) =>
          if f != BufferPointer then Ok(Resolved(r), c)
          else if !r.ValueResult? then Raise(Malformed, c)
          else match env.cast(r.v)
            case Some(id) => Ok(Buffer(id), c)
            case None => Raise(EntryError, c)
  }

  /** The numbers a resolved field's placeholders are the text of. */
  function Printed(f: Field, v: FieldValue): seq<int> {
    match (f, v)
    case (Dtype, Resolved(IntResult(i))) => if i in DTYPE_ELEMSIZE then [i, DTYPE_ELEMSIZE[i]] else []
    case (Width, Resolved(IntResult(i))) => [i]
    case (Height, Resolved(IntResult(i))) => [i]
    case (Channels, Resolved(IntResult(i))) => [i]
    case (RowStride, Resolved(IntResult(i))) => [i]
    case _ => []
  }

  predicate Prints(env: Env, numbers: seq<int>) { forall k :: 0 <= k < |numbers| ==> env.show(numbers[k]).Some? }

  /** The placeholders a resolved field adds. */
  function Derived(env: Env, ph: Placeholders, f: Field, v: FieldValue): Placeholders
    requires Prints(env, Printed(f, v))
  {
    var text := Printed(f, v);
    match (f, v)
    case (Dtype, Resolved(IntResult(i))) =>
      if i in DTYPE_ELEMSIZE then ph["dtype" := env.show(text[0]).value]["elemsize" := env.show(text[1]).value] else ph
    case (Transpose, Resolved(BoolResult(b))) => ph["transpose" := if b then "1" else "0"]
    case (Width, Resolved(IntResult(i))) => ph["width" := env.show(text[0]).value]
    case (Height, Resolved(IntResult(i))) => ph["height" := env.show(text[0]).value]
    case (Channels, Resolved(IntResult(i))) => ph["channels" := env.show(text[0]).value]
    case (RowStride, Resolved(IntResult(i))) => ph["row_stride" := env.show(text[0]).value]
    case _ => ph
  }

  /** A field resolved, and the numbers its placeholders quote printed. */
  function Extended(env: Env, ph: Placeholders, entry: Entry, f: Field): Eval<FieldValue> {
    IfPrinted(env, f, ResolveField(env, ph, entry, f))
  }

  function IfPrinted(env: Env, f: Field, v: Eval<FieldValue>): Eval<FieldValue> {
    if v.Ok? && !Prints(env, Printed(f, v.value)) then Raise(ConvertError, v.clean) else v
  }

  datatype Progress = Progress(ph: Placeholders, values: seq<FieldValue>)

  /** The first `k` fields resolved in order, each under the placeholders of the
      ones before it. */
  function Stage(env: Env, entry: Entry, k: nat): Eval<Progress>
    requires k <= FIELDS
  {
    if k == 0 then Ok(Progress(map["sym" := env.sym], []), true)
    else
      var f := InOrder(k - 1);
      match Stage(env, entry, k - 1)
      case Raise(x, c) => Raise(x, c)
      case Ok(p, c) =>
        match Extended(env, p.ph, entry, f)
        case Raise(x, d) => Raise(x, c && d)
        case Ok(v, d) => Ok(Progress(Derived(env, p.ph, f, v), p.values + [v]), c && d)
  }

  predicate FitsField(f: Field, v: FieldValue) {
    match f
    case PixelLayout => v.Layout? && LayoutText(v.s)
    case BufferPointer => v.Buffer?
    case _ => v.Resolved? && Fits(KindOf(f), v.r)
  }

  lemma CodesHaveSizes(code: int)
    ensures code in DTYPE_NAMES.Values <==> code in DTYPE_ELEMSIZE
  {
    if code in DTYPE_ELEMSIZE {
      var name := match code
        case 0 => "uint8" case 2 => "uint16" case 3 => "int16"
        case 4 => "int32" case 5 => "float32" case _ => "float64";
      assert DTYPE_NAMES[name] == code;
    }
  }

  /** Resolving field `k` adds exactly the placeholders the table gives the next
      field over this one. */
  lemma StageTableIsExact(env: Env, ph: Placeholders, k: nat, v: FieldValue)
    requires k + 1 < FIELDS && FitsField(InOrder(k), v) && Prints(env, Printed(InOrder(k), v))
    requires ph.Keys == DerivedByStage(InOrder(k)) + {"sym"}
    ensures Derived(env, ph, InOrder(k), v).Keys == DerivedByStage(InOrder(k + 1)) + {"sym"}
  {
    if k == 0 { CodesHaveSizes(v.r.i); }
  }

  lemma {:induction false} LayoutSound(env: Env, ph: Placeholders, available: set<string>, node: Json)
    requires Filled(ph, available) && ValidLayout(available, node)
    ensures var e := ResolveLayout(env, ph, node);
            && e.clean
            && (if e.Ok? then LayoutText(e.value)
                else e.error == EntryError || (e.error == BridgeLeak && !Tame(env)))
    decreases node
  {
    if node.Obj? {
      ConditionSound(env, ph, available, node.fields["if"]);
      LayoutSound(env, ph, available, node.fields["then"]);
      LayoutSound(env, ph, available, node.fields["else"]);
    }
  }

  /** What may escape get_buffer_metadata other than EntryEvaluationError. */
  ghost predicate Accounted(env: Env, entry: Entry, x: Exception) {
    || x == EntryError
    || (x == OverflowError && exists node :: FieldNode(entry, "transpose") == Some(node) && !NoInfinity(node))
    || ((x == BridgeLeak || x == ConvertError) && !Tame(env))
  }

  lemma EntryFields(entry: Entry, compiles: string -> bool, f: Field)
    requires ValidEntry(entry, compiles)
    ensures FieldNode(entry, Name(f)).Some? && ValidField(entry, f)
  {
    assert Name(f) in REQUIRED || Name(f) in DEFAULTS;
  }

  lemma FieldSound(env: Env, ph: Placeholders, entry: Entry, f: Field)
    requires FieldNode(entry, Name(f)).Some? && ValidField(entry, f) && Filled(ph, DerivedByStage(f))
    ensures var e := ResolveField(env, ph, entry, f);
            && e.clean
            && (if e.Ok? then FitsField(f, e.value) else Accounted(env, entry, e.error))
  {
    var node := FieldNode(entry, Name(f)).value;
    if f == PixelLayout {
      LayoutSound(env, ph, DerivedByStage(f), node);
    } else {
      NodeSound(env, ph, DerivedByStage(f), KindOf(f), node);
      if f == Transpose && !NoInfinity(node) {
        assert FieldNode(entry, "transpose") == Some(node);
      }
    }
  }

  lemma IfPrintedSound(env: Env, entry: Entry, f: Field, v: Eval<FieldValue>)
    requires v.clean && (if v.Ok? then FitsField(f, v.value) else Accounted(env, entry, v.error))
    ensures var e := IfPrinted(env, f, v);
            e.clean && (if e.Ok? then FitsField(f, e.value) else Accounted(env, entry, e.error))
  {
  }

  lemma ExtendedFieldSound(env: Env, ph: Placeholders, entry: Entry, f: Field)
    requires FieldNode(entry, Name(f)).Some? && ValidField(entry, f) && Filled(ph, DerivedByStage(f))
    ensures var v := Extended(env, ph, entry, f);
            v.clean && (if v.Ok? then FitsField(f, v.value) else Accounted(env, entry, v.error))
  {
    FieldSound(env, ph, entry, f);
    IfPrintedSound(env, entry, f, ResolveField(env, ph, entry, f));
  }

  /** What holds of the first `k` fields' resolution. */
  ghost predicate StageIsSound(env: Env, entry: Entry, k: nat, e: Eval<Progress>)
    requires k <= FIELDS
  {
    && e.clean
    && match e
       case Raise(x, _) => Accounted(env, entry, x)
       case Ok(p, _) =>
         && |p.values| == k
         && (forall j :: 0 <= j < k ==> FitsField(InOrder(j), p.values[j]))
         && (k < FIELDS ==> p.ph.Keys == DerivedByStage(InOrder(k)) + {"sym"})
  }

  lemma ProgressSound(env: Env, entry: Entry, k: nat, p: Progress, v: FieldValue)
    requires k < FIELDS && StageIsSound(env, entry, k, Ok(p, true))
    requires FitsField(InOrder(k), v) && Prints(env, Printed(InOrder(k), v))
    ensures StageIsSound(env, entry, k + 1,
              Ok(Progress(Derived(env, p.ph, InOrder(k), v), p.values + [v]), true))
  {
    if k + 1 < FIELDS { StageTableIsExact(env, p.ph, k, v); }
  }

  /** Every resolvable field of the entry passed its check. */
  ghost predicate FieldsAccepted(entry: Entry) {
    forall f :: FieldNode(entry, Name(f)).Some? && ValidField(entry, f)
  }

  lemma AcceptedFields(entry: Entry, compiles: string -> bool)
    requires ValidEntry(entry, compiles)
    ensures FieldsAccepted(entry)
  {
    forall f: Field ensures FieldNode(entry, Name(f)).Some? && ValidField(entry, f) {
      EntryFields(entry, compiles, f);
    }
  }

  lemma StageStep(env: Env, entry: Entry, k: nat)
    requires FieldsAccepted(entry) && k < FIELDS
    requires StageIsSound(env, entry, k, Stage(env, entry, k))
    ensures StageIsSound(env, entry, k + 1, Stage(env, entry, k + 1))
  {
    var e := Stage(env, entry, k);
    if e.Ok? {
      var f := InOrder(k);
      ExtendedFieldSound(env, e.value.ph, entry, f);
      var v := Extended(env, e.value.ph, entry, f);
      if v.Ok? { ProgressSound(env, entry, k, e.value, v.value); }
    }
  }

  /** Checker soundness, field by field: resolving an accepted entry never reaches
      the unknown-placeholder branch, a missing key or a non-string template. */
  lemma {:induction false} StageSound(env: Env, entry: Entry, k: nat)
    requires FieldsAccepted(entry) && k <= FIELDS
    ensures StageIsSound(env, entry, k, Stage(env, entry, k))
    decreases k
  {
    if k > 0 {
      StageSound(env, entry, k - 1);
      StageStep(env, entry, k - 1);
    }
  }

  // ---------------------------------------------------------------------
  // A whole resolution
  // ---------------------------------------------------------------------

  lemma {:induction false} RaisesToTheEnd(env: Env, entry: Entry, k: nat, n: nat)
    requires k <= n <= FIELDS && Stage(env, entry, k).Raise?
    ensures Stage(env, entry, n) == Stage(env, entry, k)
    decreases n
  {
    if k < n { RaisesToTheEnd(env, entry, k, n - 1); }
  }

  /** Every field of an entry resolved in order. */
  function Resolution(env: Env, entry: Entry): Eval<Progress> {
    Stage(env, entry, FIELDS)
  }

  predicate FitsInOrder(values: seq<FieldValue>) {
    |values| <= FIELDS && forall j :: 0 <= j < |values| ==> FitsField(InOrder(j), values[j])
  }
}
