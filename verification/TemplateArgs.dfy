/**
 Template arguments read back out of a printed C++ type name. The reference is a
 tree of names; the code sees only its text.
 */
module TemplateArgs {
  import opened Wrappers

  /** A type name as printed: plain text, or text, an argument list, and whatever
      follows the list (`*`, `::type`, another argument list). */
  datatype Name =
    | Text(text: string)
    | Template(head: string, args: Args, tail: Name)

  /** Arguments with the white space printed around each. */
  datatype Args = End | Arg(before: string, name: Name, after: string, more: Args)

  function Print(n: Name): string {
    match n
    case Text(text) => text
    case Template(head, args, tail) => head + "<" + PrintArgs(args) + ">" + Print(tail)
  }

  function PrintArg(before: string, name: Name, after: string): string { before + Print(name) + after }

  function PrintArgs(args: Args): string {
    match args
    case End => ""
    case Arg(before, name, after, more) =>
      if more.End? then before + Print(name) + after
      else before + Print(name) + after + "," + PrintArgs(more)
  }

  /** str.isspace(). */
  predicate IsSpace(c: char) {
    || '\t' <= c <= '\r' || '\U{1C}' <= c <= ' ' || c == '\U{85}' || c == '\U{A0}' || c == '\U{1680}'
    || '\U{2000}' <= c <= '\U{200A}' || c == '\U{2028}' || c == '\U{2029}' || c == '\U{202F}'
    || c == '\U{205F}' || c == '\U{3000}'
  }

  predicate Blank(s: string) { forall c <- s :: IsSpace(c) }

  function StripLeft(s: string): string {
    if s != [] && IsSpace(s[0]) then StripLeft(s[1..]) else s
  }

  function StripRight(s: string): string {
    if s != [] && IsSpace(s[|s| - 1]) then StripRight(s[..|s| - 1]) else s
  }

  function Strip(s: string): string { StripRight(StripLeft(s)) }

  predicate Trimmed(s: string) { s == [] || (!IsSpace(s[0]) && !IsSpace(s[|s| - 1])) }

  /** Text the reader takes as it stands. */
  predicate Plain(s: string) { '<' !in s && '>' !in s }

  /** Angle brackets come only from argument lists; commas may stand anywhere, as
      between the parameters of a function type. */
  predicate Printable(n: Name) {
    match n
    case Text(text) => Plain(text)
    case Template(head, args, tail) => Plain(head) && PrintableArgs(args) && Printable(tail)
  }

  predicate PrintableArgs(args: Args) {
    match args
    case End => true
    case Arg(before, name, after, more) => Blank(before) && Printable(name) && Blank(after) && PrintableArgs(more)
  }

  /** A name prints a comma outside its own argument lists. */
  predicate HasOpenComma(n: Name) {
    match n
    case Text(text) => ',' in text
    case Template(head, _, tail) => ',' in head || HasOpenComma(tail)
  }

  predicate AnyOpenComma(args: Args) {
    match args
    case End => false
    case Arg(_, name, _, more) => HasOpenComma(name) || AnyOpenComma(more)
  }

  // ---------------------------------------------------------------------
  // The scanners
  // ---------------------------------------------------------------------

  function Shift(delta: nat, at: Option<nat>): Option<nat> {
    match at
    case Some(k) => Some(delta + k)
    case None => None
  }

  function Deeper(c: char, depth: int): int {
    if c == '<' then depth + 1 else if c == '>' then depth - 1 else depth
  }

  /** Where the first closing bracket brings the depth to zero. */
  function MatchIn(s: string, depth: int): Option<nat> {
    if s == [] then None
    else if s[0] == '>' && depth - 1 == 0 then Some(0)
    else Shift(1, MatchIn(s[1..], Deeper(s[0], depth)))
  }

  function SplitIn(s: string, depth: int, current: string): seq<string> {
    if s == [] then (if Strip(current) != [] then [Strip(current)] else [])
    else if s[0] == ',' && depth == 0 then [Strip(current)] + SplitIn(s[1..], depth, "")
    else SplitIn(s[1..], Deeper(s[0], depth), current + [s[0]])
  }

  function IndexOf(s: string, c: char): Option<nat> {
    if s == [] then None else if s[0] == c then Some(0) else Shift(1, IndexOf(s[1..], c))
  }

  function SplitTemplateArgs(typeName: string): seq<string> {
    match IndexOf(typeName, '<')
    case None => []
    case Some(start) =>
      if start > |typeName| then []
      else
        match MatchIn(typeName[start..], 0)
        case None => []
        case Some(length) =>
          if 1 <= length && start + length <= |typeName| then SplitIn(typeName[start + 1..start + length], 0, "") else []
  }

  /** TemplateTypeName.template_argument(): None is an IndexError. */
  function TemplateArgument(typeName: string, index: nat): Option<string> {
    var args := SplitTemplateArgs(typeName);
    if index < |args| then Some(args[index]) else None
  }

  // ---------------------------------------------------------------------
  // Passing over printed text
  // ---------------------------------------------------------------------

  lemma {:induction false} MatchOverPlain(s: string, rest: string, depth: int)
    requires Plain(s)
    ensures MatchIn(s + rest, depth) == Shift(|s|, MatchIn(rest, depth))
    decreases |s|
  {
    if s == [] {
      assert s + rest == rest;
    } else {
      assert s[0] in s && (s + rest)[1..] == s[1..] + rest;
      MatchOverPlain(s[1..], rest, depth);
    }
  }

  lemma {:induction false} SplitOverPlain(s: string, rest: string, depth: int, current: string)
    requires Plain(s) && (depth != 0 || ',' !in s)
    ensures SplitIn(s + rest, depth, current) == SplitIn(rest, depth, current + s)
    decreases |s|
  {
    if s == [] {
      assert s + rest == rest && current + s == current;
    } else {
      assert s[0] in s && (s + rest)[1..] == s[1..] + rest;
      SplitOverPlain(s[1..], rest, depth, current + [s[0]]);
      assert current + [s[0]] + s[1..] == current + s;
    }
  }

  lemma StepChar(c: char, rest: string, depth: int, current: string)
    requires !(c == ',' && depth == 0)
    ensures SplitIn([c] + rest, depth, current) == SplitIn(rest, Deeper(c, depth), current + [c])
    ensures !(c == '>' && depth == 1) ==> MatchIn([c] + rest, depth) == Shift(1, MatchIn(rest, Deeper(c, depth)))
  {
    assert ([c] + rest)[1..] == rest;
  }

  lemma BlankIsPlain(s: string)
    requires Blank(s)
    ensures Plain(s) && ',' !in s
  {
  }

  /** Inside an argument list nothing a name prints is a separator or the list's
      own end. */
  lemma {:induction false} MatchOverName(n: Name, rest: string, depth: int)
    requires Printable(n) && depth >= 1
    ensures MatchIn(Print(n) + rest, depth) == Shift(|Print(n)|, MatchIn(rest, depth))
    decreases n, 0
  {
    match n
    case Text(text) => MatchOverPlain(text, rest, depth);
    case Template(head, args, tail) =>
      var list := "<" + (PrintArgs(args) + (">" + (Print(tail) + rest)));
      assert Print(n) + rest == head + list;
      MatchOverPlain(head, list, depth);
      MatchOverList(args, Print(tail) + rest, depth);
      MatchOverName(tail, rest, depth);
  }

  lemma MatchOverList(args: Args, rest: string, depth: int)
    requires PrintableArgs(args) && depth >= 1
    ensures MatchIn("<" + (PrintArgs(args) + (">" + rest)), depth) == Shift(|PrintArgs(args)| + 2, MatchIn(rest, depth))
    decreases args, 1
  {
    var close := ">" + rest;
    assert MatchIn(close, depth + 1) == Shift(1, MatchIn(rest, depth)) by { StepChar('>', rest, depth + 1, ""); }
    MatchOverArgs(args, close, depth + 1);
    StepChar('<', PrintArgs(args) + close, depth, "");
  }

  lemma {:induction false} MatchOverArgs(args: Args, rest: string, depth: int)
    requires PrintableArgs(args) && depth >= 1
    ensures MatchIn(PrintArgs(args) + rest, depth) == Shift(|PrintArgs(args)|, MatchIn(rest, depth))
    decreases args, 0
  {
    match args
    case End => assert "" + rest == rest;
    case Arg(before, name, after, more) =>
      var text := PrintArg(before, name, after);
      if more.End? {
        assert PrintArgs(args) == text;
        MatchOverArg(before, name, after, rest, depth);
      } else {
        var r1 := PrintArgs(more) + rest;
        assert PrintArgs(args) + rest == text + ("," + r1);
        MatchOverArg(before, name, after, "," + r1, depth);
        StepChar(',', r1, depth, "");
        MatchOverArgs(more, rest, depth);
      }
  }

  lemma MatchOverArg(before: string, name: Name, after: string, rest: string, depth: int)
    requires Blank(before) && Printable(name) && Blank(after) && depth >= 1
    ensures MatchIn(PrintArg(before, name, after) + rest, depth)
         == Shift(|PrintArg(before, name, after)|, MatchIn(rest, depth))
    decreases name, 1
  {
    BlankIsPlain(before);
    BlankIsPlain(after);
    assert PrintArg(before, name, after) + rest == before + (Print(name) + (after + rest));
    MatchOverPlain(before, Print(name) + (after + rest), depth);
    MatchOverName(name, after + rest, depth);
    MatchOverPlain(after, rest, depth);
  }

  lemma {:induction false} SplitOverName(n: Name, rest: string, depth: int, current: string)
    requires Printable(n) && depth >= 0 && (depth == 0 ==> !HasOpenComma(n))
    ensures SplitIn(Print(n) + rest, depth, current) == SplitIn(rest, depth, current + Print(n))
    decreases n, 0
  {
    match n
    case Text(text) => SplitOverPlain(text, rest, depth, current);
    case Template(head, args, tail) =>
      var r1 := Print(tail) + rest;
      var r2 := ">" + r1;
      var r3 := PrintArgs(args) + r2;
      assert Print(n) + rest == head + ("<" + r3);
      SplitOverPlain(head, "<" + r3, depth, current);
      StepChar('<', r3, depth, current + head);
      SplitOverArgs(args, r2, depth + 1, current + head + "<");
      StepChar('>', r1, depth + 1, current + head + "<" + PrintArgs(args));
      SplitOverName(tail, rest, depth, current + head + "<" + PrintArgs(args) + ">");
      assert current + head + "<" + PrintArgs(args) + ">" + Print(tail) == current + Print(n);
  }

  lemma {:induction false} SplitOverArgs(args: Args, rest: string, depth: int, current: string)
    requires PrintableArgs(args) && depth >= 1
    ensures SplitIn(PrintArgs(args) + rest, depth, current) == SplitIn(rest, depth, current + PrintArgs(args))
    decreases args, 0
  {
    match args
    case End => assert "" + rest == rest && current + "" == current;
    case Arg(before, name, after, more) =>
      var tail := if more.End? then rest else "," + (PrintArgs(more) + rest);
      var text := PrintArg(before, name, after);
      assert PrintArgs(args) + rest == text + tail;
      SplitOverArg(before, name, after, tail, depth, current);
      if more.End? {
        assert PrintArgs(args) == text;
      } else {
        StepChar(',', PrintArgs(more) + rest, depth, current + text);
        SplitOverArgs(more, rest, depth, current + text + ",");
        assert current + text + "," + PrintArgs(more) == current + PrintArgs(args);
      }
  }

  lemma SplitOverArg(before: string, name: Name, after: string, rest: string, depth: int, current: string)
    requires Blank(before) && Printable(name) && Blank(after) && depth >= 0
    requires depth == 0 ==> !HasOpenComma(name)
    ensures SplitIn(PrintArg(before, name, after) + rest, depth, current)
         == SplitIn(rest, depth, current + PrintArg(before, name, after))
    decreases name, 1
  {
    BlankIsPlain(before);
    BlankIsPlain(after);
    assert PrintArg(before, name, after) + rest == before + (Print(name) + (after + rest));
    SplitOverPlain(before, Print(name) + (after + rest), depth, current);
    SplitOverName(name, after + rest, depth, current + before);
    SplitOverPlain(after, rest, depth, current + before + Print(name));
    assert current + before + Print(name) + after == current + PrintArg(before, name, after);
  }

  // ---------------------------------------------------------------------
  // Splitting recovers the printed arguments
  // ---------------------------------------------------------------------

  function ArgTexts(args: Args): seq<string> {
    match args
    case End => []
    case Arg(before, name, after, more) => [Strip(PrintArg(before, name, after))] + ArgTexts(more)
  }

  /** The final argument, if there is one, prints something. */
  predicate EndsVisibly(args: Args) {
    match args
    case End => true
    case Arg(before, name, after, more) =>
      if more.End? then Strip(PrintArg(before, name, after)) != [] else EndsVisibly(more)
  }

  lemma {:induction false} SplitArgs(args: Args)
    requires PrintableArgs(args) && !AnyOpenComma(args)
    ensures EndsVisibly(args) ==> SplitIn(PrintArgs(args), 0, "") == ArgTexts(args)
    ensures !EndsVisibly(args) ==> |SplitIn(PrintArgs(args), 0, "")| == |ArgTexts(args)| - 1
    decreases args
  {
    match args
    case End => assert Strip("") == "";
    case Arg(before, name, after, more) =>
      var text := PrintArg(before, name, after);
      var tail := if more.End? then "" else "," + PrintArgs(more);
      assert PrintArgs(args) == text + tail;
      SplitOverArg(before, name, after, tail, 0, "");
      assert "" + text == text;
      if !more.End? {
        assert tail[1..] == PrintArgs(more);
        SplitArgs(more);
      }
  }

  lemma {:induction false} IndexOfPast(s: string, rest: string, c: char)
    requires c !in s
    ensures IndexOf(s + ([c] + rest), c) == Some(|s|)
    decreases |s|
  {
    if s == [] {
      assert s + ([c] + rest) == [c] + rest;
    } else {
      assert (s + ([c] + rest))[1..] == s[1..] + ([c] + rest);
      IndexOfPast(s[1..], rest, c);
    }
  }

  lemma {:induction false} NoIndex(s: string, c: char)
    requires c !in s
    ensures IndexOf(s, c) == None
    decreases |s|
  {
    if s != [] { NoIndex(s[1..], c); }
  }

  lemma ListFound(n: Name)
    requires Printable(n) && n.Template?
    ensures SplitTemplateArgs(Print(n)) == SplitIn(PrintArgs(n.args), 0, "")
  {
    var inner, after := PrintArgs(n.args), ">" + Print(n.tail);
    assert Print(n) == n.head + ("<" + (inner + after));
    IndexOfPast(n.head, inner + after, '<');
    StepChar('<', inner + after, 0, "");
    MatchOverArgs(n.args, after, 1);
    assert MatchIn(after, 1) == Some(0);
    ListBetween(Print(n), n.head, inner, after);
  }

  lemma ListBetween(text: string, head: string, inner: string, after: string)
    requires text == head + ("<" + (inner + after))
    requires IndexOf(text, '<') == Some(|head|) && MatchIn("<" + (inner + after), 0) == Some(1 + |inner|)
    ensures SplitTemplateArgs(text) == SplitIn(inner, 0, "")
  {
    assert text[|head|..] == "<" + (inner + after);
    assert text[|head| + 1..|head| + 1 + |inner|] == inner;
  }

  // ---------------------------------------------------------------------
  // Open commas
  // ---------------------------------------------------------------------

  function DepthAfter(s: string, depth: int): int {
    if s == [] then depth else DepthAfter(s[1..], Deeper(s[0], depth))
  }

  /** A comma met at depth zero. */
  predicate OpenComma(s: string, depth: int) {
    s != [] && ((s[0] == ',' && depth == 0) || OpenComma(s[1..], Deeper(s[0], depth)))
  }

  lemma {:induction false} OpenCommaConcat(a: string, b: string, depth: int)
    ensures DepthAfter(a + b, depth) == DepthAfter(b, DepthAfter(a, depth))
    ensures OpenComma(a + b, depth) <==> OpenComma(a, depth) || OpenComma(b, DepthAfter(a, depth))
    decreases |a|
  {
    if a == [] {
      assert a + b == b;
    } else {
      assert (a + b)[1..] == a[1..] + b;
      OpenCommaConcat(a[1..], b, Deeper(a[0], depth));
    }
  }

  lemma {:induction false} PlainOpenComma(s: string, depth: int)
    requires Plain(s)
    ensures DepthAfter(s, depth) == depth
    ensures OpenComma(s, depth) <==> depth == 0 && ',' in s
    decreases |s|
  {
    if s != [] {
      assert s[0] in s && s == [s[0]] + s[1..];
      PlainOpenComma(s[1..], depth);
    }
  }

  /** A printed name leaves the depth where it was, and its open commas are those
      of its tree. */
  lemma {:induction false} NameOpenComma(n: Name, depth: int)
    requires Printable(n) && depth >= 0
    ensures DepthAfter(Print(n), depth) == depth
    ensures OpenComma(Print(n), depth) <==> depth == 0 && HasOpenComma(n)
    decreases n, 0
  {
    match n
    case Text(text) => PlainOpenComma(text, depth);
    case Template(head, args, tail) =>
      var list := "<" + PrintArgs(args) + ">";
      assert Print(n) == head + (list + Print(tail));
      PlainOpenComma(head, depth);
      ListOpenComma(args, depth);
      NameOpenComma(tail, depth);
      OpenCommaConcat(list, Print(tail), depth);
      OpenCommaConcat(head, list + Print(tail), depth);
  }

  lemma {:induction false} ListOpenComma(args: Args, depth: int)
    requires PrintableArgs(args) && depth >= 0
    ensures var list := "<" + PrintArgs(args) + ">"; DepthAfter(list, depth) == depth && !OpenComma(list, depth)
    decreases args, 1
  {
    var inner := PrintArgs(args);
    ArgsOpenComma(args, depth + 1);
    OpenCommaConcat("<", inner, depth);
    OpenCommaConcat("<" + inner, ">", depth);
    assert "<"[1..] == "" && ">"[1..] == "";
  }

  lemma {:induction false} ArgsOpenComma(args: Args, depth: int)
    requires PrintableArgs(args) && depth >= 1
    ensures DepthAfter(PrintArgs(args), depth) == depth && !OpenComma(PrintArgs(args), depth)
    decreases args, 0
  {
    match args
    case End =>
    case Arg(before, name, after, more) =>
      var text := PrintArg(before, name, after);
      ArgOpenComma(before, name, after, depth);
      if more.End? {
        assert PrintArgs(args) == text;
      } else {
        assert PrintArgs(args) == text + ("," + PrintArgs(more));
        ArgsOpenComma(more, depth);
        assert ","[1..] == "";
        OpenCommaConcat(",", PrintArgs(more), depth);
        OpenCommaConcat(text, "," + PrintArgs(more), depth);
      }
  }

  lemma {:induction false} ArgOpenComma(before: string, name: Name, after: string, depth: int)
    requires Blank(before) && Printable(name) && Blank(after) && depth >= 0
    ensures var text := PrintArg(before, name, after);
            && DepthAfter(text, depth) == depth
            && (OpenComma(text, depth) <==> depth == 0 && HasOpenComma(name))
    decreases name, 1
  {
    BlankIsPlain(before);
    BlankIsPlain(after);
    PlainOpenComma(before, depth);
    PlainOpenComma(after, depth);
    NameOpenComma(name, depth);
    OpenCommaConcat(before, Print(name), depth);
    OpenCommaConcat(before + Print(name), after, depth);
  }

  /** Trimming takes no bracket and no comma away. */
  lemma {:induction false} StripLeftKeepsCommas(s: string, depth: int)
    ensures OpenComma(StripLeft(s), depth) <==> OpenComma(s, depth)
    decreases |s|
  {
    if s != [] && IsSpace(s[0]) { StripLeftKeepsCommas(s[1..], depth); }
  }

  lemma {:induction false} StripRightKeepsCommas(s: string, depth: int)
    ensures OpenComma(StripRight(s), depth) <==> OpenComma(s, depth)
    decreases |s|
  {
    if s != [] && IsSpace(s[|s| - 1]) {
      var front, last := s[..|s| - 1], [s[|s| - 1]];
      assert s == front + last && last[1..] == [];
      OpenCommaConcat(front, last, depth);
      StripRightKeepsCommas(front, depth);
    }
  }

  lemma StripKeepsCommas(s: string)
    ensures OpenComma(Strip(s), 0) <==> OpenComma(s, 0)
  {
    StripLeftKeepsCommas(s, 0);
    StripRightKeepsCommas(StripLeft(s), 0);
  }

  /** A piece that should have been split further. */
  predicate Leftover(piece: string) { OpenComma(piece, 0) }

  /** Whatever text is split, no piece has an open comma left in it. */
  lemma {:induction false} PiecesHaveNoOpenComma(s: string, depth: int, current: string)
    requires DepthAfter(current, 0) == depth && !OpenComma(current, 0)
    ensures forall piece :: piece in SplitIn(s, depth, current) ==> !Leftover(piece)
    decreases |s|
  {
    StripKeepsCommas(current);
    if s != [] {
      if s[0] == ',' && depth == 0 {
        PiecesHaveNoOpenComma(s[1..], depth, "");
      } else {
        assert [s[0]][1..] == [];
        OpenCommaConcat(current, [s[0]], 0);
        PiecesHaveNoOpenComma(s[1..], Deeper(s[0], depth), current + [s[0]]);
      }
    }
  }

  lemma {:induction false} ArgTextsOpenComma(args: Args)
    requires PrintableArgs(args)
    ensures AnyOpenComma(args) <==> exists piece :: piece in ArgTexts(args) && Leftover(piece)
    decreases args
  {
    match args
    case End =>
    case Arg(before, name, after, more) =>
      var text := PrintArg(before, name, after);
      ArgOpenComma(before, name, after, 0);
      StripKeepsCommas(text);
      ArgTextsOpenComma(more);
      assert Leftover(Strip(text)) <==> HasOpenComma(name);
      assert Strip(text) in ArgTexts(args);
      assert forall piece :: piece in ArgTexts(args) <==> piece == Strip(text) || piece in ArgTexts(more);
  }

  /** A printed template's arguments come back, trimmed and in order, exactly when
      the last one is not blank and none of them prints a comma outside angle
      brackets. */
  lemma SplitRecoversArguments(n: Name)
    requires Printable(n) && n.Template?
    ensures SplitTemplateArgs(Print(n)) == ArgTexts(n.args) <==> EndsVisibly(n.args) && !AnyOpenComma(n.args)
  {
    ListFound(n);
    if AnyOpenComma(n.args) {
      PiecesHaveNoOpenComma(PrintArgs(n.args), 0, "");
      ArgTextsOpenComma(n.args);
    } else {
      SplitArgs(n.args);
    }
  }

  // ---------------------------------------------------------------------
  // Index paths
  // ---------------------------------------------------------------------

  /** On every level arguments print with no space at their ends and no comma outside
      brackets, and the last is not empty. */
  predicate Tidy(n: Name) {
    match n
    case Text(_) => true
    case Template(_, args, _) => EndsVisibly(args) && TidyArgs(args)
  }

  predicate TidyArgs(args: Args) {
    match args
    case End => true
    case Arg(_, name, _, more) => Tidy(name) && Trimmed(Print(name)) && !HasOpenComma(name) && TidyArgs(more)
  }

  function ArgAt(args: Args, index: nat): Option<Name> {
    match args
    case End => None
    case Arg(_, name, _, more) => if index == 0 then Some(name) else ArgAt(more, index - 1)
  }

  /** The subtree a path of argument indices leads to. */
  function SubtreeAt(n: Name, path: seq<nat>): Option<Name>
    decreases |path|
  {
    if path == [] then Some(n)
    else if n.Text? then None
    else
      match ArgAt(n.args, path[0])
      case None => None
      case Some(arg) => SubtreeAt(arg, path[1..])
  }

  /** What {targ:i.j} resolves to: template_argument() once per index. */
  function Follow(typeName: string, path: seq<nat>): Option<string>
    decreases |path|
  {
    if path == [] then Some(typeName)
    else
      match TemplateArgument(typeName, path[0])
      case None => None
      case Some(arg) => Follow(arg, path[1..])
  }

  lemma {:induction false} StripLeftOver(blank: string, s: string)
    requires Blank(blank)
    ensures StripLeft(blank + s) == StripLeft(s)
    decreases |blank|
  {
    if blank == [] {
      assert blank + s == s;
    } else {
      assert blank[0] in blank && (blank + s)[1..] == blank[1..] + s;
      StripLeftOver(blank[1..], s);
    }
  }

  lemma {:induction false} StripRightOver(s: string, blank: string)
    requires Blank(blank)
    ensures StripRight(s + blank) == StripRight(s)
    decreases |blank|
  {
    if blank == [] {
      assert s + blank == s;
    } else {
      assert blank[|blank| - 1] in blank && (s + blank)[..|s + blank| - 1] == s + blank[..|blank| - 1];
      StripRightOver(s, blank[..|blank| - 1]);
    }
  }

  lemma ArgTextIsName(before: string, name: Name, after: string)
    requires Blank(before) && Blank(after) && Trimmed(Print(name))
    ensures Strip(PrintArg(before, name, after)) == Print(name)
  {
    if Print(name) == [] {
      assert before + Print(name) + after == before + after && after + "" == after;
      StripLeftOver(before, after);
      StripLeftOver(after, "");
    }
    assert PrintArg(before, name, after) == before + (Print(name) + after);
    StripLeftOver(before, Print(name) + after);
    StripRightOver(Print(name), after);
  }

  lemma {:induction false} ArgTextAt(args: Args, index: nat)
    requires PrintableArgs(args) && TidyArgs(args)
    ensures !AnyOpenComma(args)
    ensures index < |ArgTexts(args)| <==> ArgAt(args, index).Some?
    ensures index < |ArgTexts(args)| ==>
              && ArgTexts(args)[index] == Print(ArgAt(args, index).value)
              && Printable(ArgAt(args, index).value) && Tidy(ArgAt(args, index).value)
    decreases args
  {
    match args
    case End =>
    case Arg(before, name, after, more) =>
      ArgTextIsName(before, name, after);
      ArgTextAt(more, if index == 0 then 0 else index - 1);
  }

  function Printed(n: Option<Name>): Option<string> {
    match n
    case Some(name) => Some(Print(name))
    case None => None
  }

  /** Following a path through the text lands on the printed subtree at that path,
      and fails exactly when the tree has nothing there. */
  lemma {:induction false} FollowIsSubtree(n: Name, path: seq<nat>)
    requires Printable(n) && Tidy(n)
    ensures Follow(Print(n), path) == Printed(SubtreeAt(n, path))
    decreases |path|
  {
    if path != [] {
      match n
      case Text(text) => NoIndex(text, '<');
      case Template(head, args, tail) =>
        ArgTextAt(args, path[0]);
        SplitRecoversArguments(n);
        if ArgAt(args, path[0]).Some? {
          FollowIsSubtree(ArgAt(args, path[0]).value, path[1..]);
        }
    }
  }

  // ---------------------------------------------------------------------
  // ... and only for tidy names
  // ---------------------------------------------------------------------

  ghost predicate FollowsExactly(n: Name) {
    forall path {:trigger Follow(Print(n), path)} :: Follow(Print(n), path) == Printed(SubtreeAt(n, path))
  }

  lemma StripTrims(s: string)
    ensures Trimmed(Strip(s))
  {
    StripLeftTrims(s);
    StripRightTrims(StripLeft(s));
  }

  lemma {:induction false} StripLeftTrims(s: string)
    ensures StripLeft(s) == [] || !IsSpace(StripLeft(s)[0])
    decreases |s|
  {
    if s != [] && IsSpace(s[0]) { StripLeftTrims(s[1..]); }
  }

  lemma {:induction false} StripRightTrims(s: string)
    requires s == [] || !IsSpace(s[0])
    ensures Trimmed(StripRight(s))
    decreases |s|
  {
    if s != [] && IsSpace(s[|s| - 1]) { StripRightTrims(s[..|s| - 1]); }
  }

  lemma {:induction false} ArgsCounted(args: Args, i: nat)
    ensures ArgAt(args, i).Some? <==> i < |ArgTexts(args)|
    ensures PrintableArgs(args) && ArgAt(args, i).Some? ==> Printable(ArgAt(args, i).value)
    decreases args
  {
    match args
    case End =>
    case Arg(_, _, _, more) => if i > 0 { ArgsCounted(more, i - 1); }
  }

  lemma FollowOne(typeName: string, i: nat)
    ensures Follow(typeName, [i]) == TemplateArgument(typeName, i)
  {
    assert [i][1..] == [];
    var arg := TemplateArgument(typeName, i);
    if arg.Some? { assert Follow(arg.value, []) == Some(arg.value); }
  }

  lemma SubtreeOne(n: Name, i: nat)
    requires n.Template?
    ensures SubtreeAt(n, [i]) == ArgAt(n.args, i)
  {
    assert [i][1..] == [];
    var arg := ArgAt(n.args, i);
    if arg.Some? { assert SubtreeAt(arg.value, []) == Some(arg.value); }
  }

  /** Single indices give the pieces of the split. */
  lemma PieceIsArgument(n: Name, i: nat)
    requires n.Template? && FollowsExactly(n)
    ensures var pieces := SplitTemplateArgs(Print(n));
            && (i < |pieces| <==> i < |ArgTexts(n.args)|)
            && (i < |pieces| ==> ArgAt(n.args, i).Some? && pieces[i] == Print(ArgAt(n.args, i).value))
  {
    ArgsCounted(n.args, i);
    assert Follow(Print(n), [i]) == Printed(SubtreeAt(n, [i]));
    FollowOne(Print(n), i);
    SubtreeOne(n, i);
  }

  lemma PiecesAreArguments(n: Name)
    requires n.Template? && FollowsExactly(n)
    ensures var pieces := SplitTemplateArgs(Print(n));
            && |pieces| == |ArgTexts(n.args)|
            && forall i: nat :: i < |pieces| ==> ArgAt(n.args, i).Some? && pieces[i] == Print(ArgAt(n.args, i).value)
  {
    var pieces := SplitTemplateArgs(Print(n));
    PieceIsArgument(n, |pieces|);
    PieceIsArgument(n, |ArgTexts(n.args)|);
    forall i: nat | i < |pieces| ensures ArgAt(n.args, i).Some? && pieces[i] == Print(ArgAt(n.args, i).value) {
      PieceIsArgument(n, i);
    }
  }

  lemma {:induction false} NoneHasOpenComma(args: Args)
    requires forall i: nat :: ArgAt(args, i).Some? ==> !HasOpenComma(ArgAt(args, i).value)
    ensures !AnyOpenComma(args)
    decreases args
  {
    match args
    case End =>
    case Arg(_, name, _, more) =>
      assert ArgAt(args, 0) == Some(name);
      forall i: nat | ArgAt(more, i).Some? ensures !HasOpenComma(ArgAt(more, i).value) {
        assert ArgAt(args, i + 1) == ArgAt(more, i);
      }
      NoneHasOpenComma(more);
  }

  lemma ArgumentsAreClosed(n: Name)
    requires Printable(n) && n.Template? && FollowsExactly(n)
    ensures !AnyOpenComma(n.args)
  {
    PiecesAreArguments(n);
    ListFound(n);
    PiecesHaveNoOpenComma(PrintArgs(n.args), 0, "");
    forall i: nat | ArgAt(n.args, i).Some? ensures !HasOpenComma(ArgAt(n.args, i).value) {
      ArgsCounted(n.args, i);
      assert SplitTemplateArgs(Print(n))[i] in SplitIn(PrintArgs(n.args), 0, "");
      assert !Leftover(Print(ArgAt(n.args, i).value));
      NameOpenComma(ArgAt(n.args, i).value, 0);
    }
    NoneHasOpenComma(n.args);
  }

  /** What exactness says of the arguments themselves. */
  lemma ArgumentsAreTidy(n: Name, i: nat)
    requires Printable(n) && n.Template? && FollowsExactly(n) && ArgAt(n.args, i).Some?
    ensures var arg := ArgAt(n.args, i).value; Trimmed(Print(arg)) && FollowsExactly(arg)
  {
    var arg := ArgAt(n.args, i).value;
    PiecesAreArguments(n);
    ArgsCounted(n.args, i);
    ArgumentsAreClosed(n);
    ListFound(n);
    SplitArgs(n.args);
    ArgTextTrimmed(n.args, i);
    forall path ensures Follow(Print(arg), path) == Printed(SubtreeAt(arg, path)) {
      assert ([i] + path)[1..] == path;
      assert Follow(Print(n), [i] + path) == Printed(SubtreeAt(n, [i] + path));
    }
  }

  lemma {:induction false} ArgTextTrimmed(args: Args, i: nat)
    requires i < |ArgTexts(args)|
    ensures Trimmed(ArgTexts(args)[i])
    decreases args
  {
    match args
    case Arg(before, name, after, more) =>
      StripTrims(PrintArg(before, name, after));
      if i > 0 { ArgTextTrimmed(more, i - 1); }
  }

  lemma {:induction false} ArgsMustBeTidy(args: Args)
    requires PrintableArgs(args) && !AnyOpenComma(args)
    requires forall i: nat :: ArgAt(args, i).Some? ==>
               Trimmed(Print(ArgAt(args, i).value)) && FollowsExactly(ArgAt(args, i).value)
    ensures TidyArgs(args)
    decreases args, 0
  {
    match args
    case End =>
    case Arg(_, name, _, more) =>
      assert ArgAt(args, 0) == Some(name);
      MustBeTidy(name);
      forall i: nat | ArgAt(more, i).Some?
        ensures Trimmed(Print(ArgAt(more, i).value)) && FollowsExactly(ArgAt(more, i).value)
      {
        assert ArgAt(args, i + 1) == ArgAt(more, i);
      }
      ArgsMustBeTidy(more);
  }

  lemma {:induction false} MustBeTidy(n: Name)
    requires Printable(n) && FollowsExactly(n)
    ensures Tidy(n)
    decreases n, 1
  {
    if n.Template? {
      PiecesAreArguments(n);
      ArgumentsAreClosed(n);
      ListFound(n);
      SplitArgs(n.args);
      forall i: nat | ArgAt(n.args, i).Some?
        ensures Trimmed(Print(ArgAt(n.args, i).value)) && FollowsExactly(ArgAt(n.args, i).value)
      {
        ArgumentsAreTidy(n, i);
      }
      ArgsMustBeTidy(n.args);
    }
  }

  /** Index paths follow the tree, all of them, exactly when the name is tidy. */
  lemma FollowsExactlyWhenTidy(n: Name)
    requires Printable(n)
    ensures FollowsExactly(n) <==> Tidy(n)
  {
    if Tidy(n) {
      forall path ensures Follow(Print(n), path) == Printed(SubtreeAt(n, path)) { FollowIsSubtree(n, path); }
    } else if FollowsExactly(n) {
      MustBeTidy(n);
    }
  }

  lemma OneCommaSplits(left: string, right: string)
    requires Plain(left) && Plain(right) && ',' !in left && ',' !in right && Strip(right) != []
    ensures SplitIn(left + ("," + right), 0, "") == [Strip(left), Strip(right)]
  {
    SplitOverPlain(left, "," + right, 0, "");
    assert "" + left == left && ("," + right)[1..] == right;
    assert right + "" == right && "" + right == right;
    SplitOverPlain(right, "", 0, "");
  }

  lemma OneArgument(head: string, text: string)
    requires Plain(head) && Plain(text)
    ensures var f := Template(head, Arg("", Text(text), "", End), Text(""));
            && Printable(f) && PrintArgs(f.args) == text
            && SplitTemplateArgs(Print(f)) == SplitIn(text, 0, "")
  {
    assert Plain("") && Blank("");
    ListFound(Template(head, Arg("", Text(text), "", End), Text("")));
  }

  /** A function type with two parameters is one argument that comes back as two. */
  lemma ParametersAreSplit(head: string, result: string, p: string, q: string)
    requires Plain(head) && Plain(result) && Plain(p) && Plain(q)
    requires ',' !in result && ',' !in p && ',' !in q
    ensures var f := Template(head, Arg("", Text(result + "(" + p + "," + q + ")"), "", End), Text(""));
            && SplitTemplateArgs(Print(f)) == [Strip(result + "(" + p), Strip(q + ")")]
            && SplitTemplateArgs(Print(f)) != ArgTexts(f.args)
  {
    var left, right := result + "(" + p, q + ")";
    var whole := result + "(" + p + "," + q + ")";
    assert whole == left + ("," + right) && Plain(whole);
    OneArgument(head, whole);
    StripKeeps(q, ')');
    OneCommaSplits(left, right);
  }

  lemma {:induction false} StripKeeps(s: string, c: char)
    requires !IsSpace(c)
    ensures Strip(s + [c]) != []
    decreases |s|
  {
    if s != [] && IsSpace(s[0]) {
      assert (s + [c])[1..] == s[1..] + [c];
      StripKeeps(s[1..], c);
    } else {
      assert (s + [c])[|s|] == c;
    }
  }

  // ---------------------------------------------------------------------
  // The loops
  // ---------------------------------------------------------------------

  method MatchingAngle(typeName: string, start: nat) returns (r: int)
    requires start <= |typeName|
    ensures r == match MatchIn(typeName[start..], 0) case Some(k) => start + k case None => -1
  {
    var depth := 0;
    for i := start to |typeName|
      invariant MatchIn(typeName[start..], 0) == Shift(i - start, MatchIn(typeName[i..], depth))
    {
      var c := typeName[i];
      assert typeName[i..][1..] == typeName[i + 1..];
      if c == '<' {
        depth := depth + 1;
      } else if c == '>' {
        depth := depth - 1;
        if depth == 0 {
          return i;
        }
      }
    }
    return -1;
  }

  method SplitTopLevelCommas(inner: string) returns (args: seq<string>)
    ensures args == SplitIn(inner, 0, "")
  {
    args := [];
    var depth := 0;
    var current := "";
    assert inner[0..] == inner;
    for i := 0 to |inner|
      invariant SplitIn(inner, 0, "") == args + SplitIn(inner[i..], depth, current)
    {
      var c := inner[i];
      assert inner[i..][1..] == inner[i + 1..];
      if c == '<' {
        depth := depth + 1;
      } else if c == '>' {
        depth := depth - 1;
      }
      if c == ',' && depth == 0 {
        args := args + [Strip(current)];
        current := "";
      } else {
        current := current + [c];
      }
    }
    if Strip(current) != [] {
      args := args + [Strip(current)];
    }
  }

  method SplitArguments(typeName: string) returns (args: seq<string>)
    ensures args == SplitTemplateArgs(typeName)
  {
    var start := IndexOf(typeName, '<');
    if start == None {
      return [];
    }
    BracketFound(typeName);
    var end := MatchingAngle(typeName, start.value);
    if end == -1 {
      return [];
    }
    args := SplitTopLevelCommas(typeName[start.value + 1..end]);
  }

  lemma {:induction false} IndexInside(s: string, c: char)
    ensures IndexOf(s, c).Some? ==> IndexOf(s, c).value < |s| && s[IndexOf(s, c).value] == c
    decreases |s|
  {
    if s != [] { IndexInside(s[1..], c); }
  }

  lemma {:induction false} MatchInside(s: string, depth: int)
    ensures MatchIn(s, depth).Some? ==> MatchIn(s, depth).value < |s| && s[MatchIn(s, depth).value] == '>'
    decreases |s|
  {
    if s != [] { MatchInside(s[1..], Deeper(s[0], depth)); }
  }

  /** The list found lies inside the name, after its opening bracket. */
  lemma BracketFound(typeName: string)
    ensures IndexOf(typeName, '<').Some? ==>
              var start := IndexOf(typeName, '<').value;
              && start < |typeName|
              && (MatchIn(typeName[start..], 0).Some? ==>
                    1 <= MatchIn(typeName[start..], 0).value && start + MatchIn(typeName[start..], 0).value < |typeName|)
  {
    IndexInside(typeName, '<');
    if IndexOf(typeName, '<').Some? {
      MatchInside(typeName[IndexOf(typeName, '<').value..], 0);
    }
  }
}
