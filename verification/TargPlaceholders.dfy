/**
 {targ:i.j} placeholders of a declarative entry, resolved by following the indices
 through a printed type name: the placeholder scanner and the template-argument
 reader put together.
 */
module TargPlaceholders {
  import opened DeclarativeTypes
  import opened TemplateArgs
  import opened Wrappers
  import NpyText

  predicate Digits(s: string) { s != [] && NpyText.AllDigits(s) }

  /** text.split('.'). */
  function SplitDots(text: string): (parts: seq<string>)
    ensures parts != []
  {
    if text == [] then [""]
    else
      var more := SplitDots(text[1..]);
      if text[0] == '.' then [""] + more else [[text[0]] + more[0]] + more[1..]
  }

  function Joined(parts: seq<string>): string
    requires parts != []
  {
    if |parts| == 1 then parts[0] else parts[0] + "." + Joined(parts[1..])
  }

  predicate AllDigits(parts: seq<string>) { forall i :: 0 <= i < |parts| ==> Digits(parts[i]) }

  function Numbers(parts: seq<string>): seq<nat>
    requires AllDigits(parts)
  {
    if parts == [] then [] else [NpyText.Number(parts[0])] + Numbers(parts[1..])
  }

  /** str(int(current)), or str(current) when either refuses. */
  function Rewritten(env: Env, text: string): string {
    match env.parseInt(text)
    case Some(i) => env.show(i).GetOr(text)
    case None => text
  }

  /** _resolve_targ_token on a printed type name; None is an error raised. */
  function ResolveTarg(env: Env, canonical: string, token: string): Option<string> {
    if |token| < 5 then None
    else
      var parts := SplitDots(token[5..]);
      if !AllDigits(parts) then None
      else match Follow(canonical, Numbers(parts))
        case Some(text) => Some(Rewritten(env, text))
        case None => None
  }

  /** The symbol's type prints as `canonical`. */
  ghost predicate ReadsType(env: Env, canonical: string) {
    forall token :: env.targ(token) == ResolveTarg(env, canonical, token)
  }

  function Token(parts: seq<string>): string
    requires parts != []
  {
    "targ:" + Joined(parts)
  }

  // ---------------------------------------------------------------------
  // Reading the indices back
  // ---------------------------------------------------------------------

  lemma {:induction false} SplitDigits(digits: string, rest: string)
    requires forall i :: 0 <= i < |digits| ==> DeclarativeTypes.IsDigit(digits[i])
    ensures SplitDots(digits + rest) == [digits + SplitDots(rest)[0]] + SplitDots(rest)[1..]
    decreases |digits|
  {
    if digits == [] {
      assert digits + rest == rest;
      assert SplitDots(rest) == [SplitDots(rest)[0]] + SplitDots(rest)[1..];
      assert "" + SplitDots(rest)[0] == SplitDots(rest)[0];
    } else {
      assert (digits + rest)[1..] == digits[1..] + rest;
      SplitDigits(digits[1..], rest);
      assert [digits[0]] + (digits[1..] + SplitDots(rest)[0]) == digits + SplitDots(rest)[0];
    }
  }

  lemma {:induction false} SplitJoined(parts: seq<string>)
    requires parts != [] && AllDigits(parts)
    ensures SplitDots(Joined(parts)) == parts
    decreases |parts|
  {
    if |parts| == 1 {
      assert parts[0] + "" == parts[0];
      SplitDigits(parts[0], "");
      assert parts == [parts[0]];
    } else {
      var rest := "." + Joined(parts[1..]);
      assert Joined(parts) == parts[0] + rest && rest[1..] == Joined(parts[1..]);
      SplitJoined(parts[1..]);
      SplitDigits(parts[0], rest);
      assert SplitDots(rest) == [""] + parts[1..] && parts[0] + "" == parts[0];
      assert [parts[0]] + parts[1..] == parts;
    }
  }

  lemma {:induction false} DigitsPassed(t: string, i: nat, digits: string)
    requires i + |digits| <= |t| && t[i..i + |digits|] == digits
    requires forall k :: 0 <= k < |digits| ==> DeclarativeTypes.IsDigit(digits[k])
    requires i + |digits| < |t| ==> !DeclarativeTypes.IsDigit(t[i + |digits|])
    ensures DigitEnd(t, i) == i + |digits|
    decreases |digits|
  {
    if digits != [] {
      assert t[i] == digits[0];
      assert t[i + 1..i + |digits|] == digits[1..];
      DigitsPassed(t, i + 1, digits[1..]);
    }
  }

  lemma JoinedStarts(parts: seq<string>)
    requires parts != [] && AllDigits(parts)
    ensures Joined(parts) != [] && DeclarativeTypes.IsDigit(Joined(parts)[0])
  {
    assert Joined(parts)[0] == parts[0][0];
  }

  lemma LastIsBrace(t: string, i: nat, path: string)
    requires i <= |t| && t[i..] == path + "}" && path != []
    ensures i < |t| - 1 && t[|t| - 1] == '}'
  {
    assert t[|t| - 1] == t[i..][|t| - 1 - i];
  }

  /** The scanner takes the whole index path. */
  lemma {:induction false} PathPassed(t: string, i: nat, parts: seq<string>)
    requires parts != [] && AllDigits(parts) && i <= |t| && t[i..] == Joined(parts) + "}"
    ensures IndexPathEnd(t, i) == |t| - 1 && i < |t| - 1 && t[|t| - 1] == '}'
    decreases |parts|
  {
    JoinedStarts(parts);
    LastIsBrace(t, i, Joined(parts));
    FirstPassed(t, i, parts);
    if |parts| > 1 {
      var d := i + |parts[0]|;
      PathPassed(t, d + 1, parts[1..]);
      MoreDigits(t, d + 1, parts[1..]);
    }
  }

  lemma FirstPassed(t: string, i: nat, parts: seq<string>)
    requires parts != [] && AllDigits(parts) && i <= |t| && t[i..] == Joined(parts) + "}"
    ensures var d := i + |parts[0]|;
            && d < |t| && DigitEnd(t, i) == d
            && (if |parts| == 1 then d == |t| - 1 && t[d] == '}'
                else t[d] == '.' && t[d + 1..] == Joined(parts[1..]) + "}")
  {
    var first, d := parts[0], i + |parts[0]|;
    assert t[i..d] == t[i..][..|first|] == first;
    if |parts| > 1 {
      assert t[i..] == first + ("." + (Joined(parts[1..]) + "}"));
      assert t[d + 1..] == t[i..][|first| + 1..];
    }
    assert t[d] == t[i..][|first|];
    DigitsPassed(t, i, first);
  }

  lemma MoreDigits(t: string, i: nat, parts: seq<string>)
    requires parts != [] && AllDigits(parts) && i <= |t| && t[i..] == Joined(parts) + "}"
    ensures DigitEnd(t, i) > i
  {
    JoinedStarts(parts);
    assert t[i] == t[i..][0] == Joined(parts)[0];
  }

  lemma WordEnds(t: string)
    requires |t| > 6 && t[..6] == "{targ:"
    ensures LowerEnd(t, 1) == 5 && t[5] == ':' && "targ:" <= t[1..]
  {
    var head := "{targ:";
    assert t[1] == head[1] && t[2] == head[2] && t[3] == head[3] && t[4] == head[4] && t[5] == head[5];
    assert LowerEnd(t, 5) == 5;
    assert LowerEnd(t, 4) == 5;
    assert LowerEnd(t, 3) == 5;
    assert LowerEnd(t, 2) == 5;
    assert t[1..][..5] == "targ:";
  }

  /** The whole template is one placeholder. */
  lemma OnePiece(parts: seq<string>)
    requires parts != [] && AllDigits(parts)
    ensures Pieces("{" + Token(parts) + "}") == [Piece.Token(Token(parts))]
  {
    var t := "{" + Token(parts) + "}";
    assert t == "{targ:" + (Joined(parts) + "}");
    assert t[..6] == "{targ:" && t[6..] == Joined(parts) + "}";
    PathPassed(t, 6, parts);
    WordEnds(t);
    assert t[0] == '{' && TokenEnd(t, 0) == Some(|t| - 1);
    assert t[1..|t| - 1] == Token(parts);
    assert Pieces(t, |t|) == [];
  }

  // ---------------------------------------------------------------------
  // The placeholder reads the tree
  // ---------------------------------------------------------------------

  /** For a symbol whose type prints tidily, {targ:i.j...} is substituted by the subtree
      at those indices -- rewritten if it is a number -- and fails exactly when the
      type has no argument there. */
  lemma TargIsSubtree(env: Env, ph: Placeholders, n: Name, parts: seq<string>)
    requires Printable(n) && Tidy(n) && ReadsType(env, Print(n))
    requires parts != [] && AllDigits(parts)
    ensures Substitute(env, ph, "{" + Token(parts) + "}")
         == match SubtreeAt(n, Numbers(parts))
            case Some(u) => Substituted(Rewritten(env, Print(u)))
            case None => TargFailed
  {
    OnePiece(parts);
    OneTarg(env, ph, Token(parts));
    TokenResolved(env, n, parts);
  }

  lemma OneTarg(env: Env, ph: Placeholders, token: string)
    requires IsTarg(token)
    ensures SubstitutePieces(env, ph, [Piece.Token(token)])
         == match env.targ(token) case Some(text) => Substituted(text) case None => TargFailed
  {
    assert [Piece.Token(token)][1..] == [];
    assert SubstitutePieces(env, ph, []) == Substituted("");
    if env.targ(token).Some? { assert env.targ(token).value + "" == env.targ(token).value; }
  }

  lemma TokenResolved(env: Env, n: Name, parts: seq<string>)
    requires Printable(n) && Tidy(n) && ReadsType(env, Print(n))
    requires parts != [] && AllDigits(parts)
    ensures env.targ(Token(parts))
         == match SubtreeAt(n, Numbers(parts)) case Some(u) => Some(Rewritten(env, Print(u))) case None => None
  {
    assert Token(parts)[5..] == Joined(parts);
    SplitJoined(parts);
    FollowIsSubtree(n, Numbers(parts));
    assert env.targ(Token(parts)) == ResolveTarg(env, Print(n), Token(parts));
  }

  // ---------------------------------------------------------------------
  // Indices as numbers
  // ---------------------------------------------------------------------

  function Dotted(path: seq<nat>): (parts: seq<string>)
    ensures |parts| == |path|
  {
    seq(|path|, i requires 0 <= i < |path| => NpyText.Print(path[i]))
  }

  lemma {:induction false} DottedNumbers(path: seq<nat>)
    ensures AllDigits(Dotted(path)) && Numbers(Dotted(path)) == path
    decreases |path|
  {
    if path != [] {
      assert Dotted(path)[1..] == Dotted(path[1..]);
      DottedNumbers(path[1..]);
      NpyText.PrintedNumber(path[0]);
    }
  }

  /** For a symbol whose type prints tidily and any path of indices, {targ:i.j...} is
      replaced by what the subtree there prints as -- by the number it reads as, where
      it is one that prints -- and fails exactly when there is no such subtree. */
  lemma TargAtIndices(env: Env, ph: Placeholders, n: Name, path: seq<nat>)
    requires Printable(n) && Tidy(n) && ReadsType(env, Print(n)) && path != []
    ensures var r := Substitute(env, ph, "{" + Token(Dotted(path)) + "}");
      match SubtreeAt(n, path)
      case None => r == TargFailed
      case Some(u) =>
        var number := env.parseInt(Print(u));
        if number.Some? && env.show(number.value).Some? then r == Substituted(env.show(number.value).value)
        else r == Substituted(Print(u))
  {
    DottedNumbers(path);
    TargIsSubtree(env, ph, n, Dotted(path));
  }
}
