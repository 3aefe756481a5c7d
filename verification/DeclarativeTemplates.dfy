/**
 What a declarative template comes to: its own text, with each placeholder's value
 in place of the placeholder.
 */
module DeclarativeTemplates {
  import opened DeclarativeTypes
  import opened Wrappers

  // ---------------------------------------------------------------------
  // Scanning behind a prefix
  // ---------------------------------------------------------------------

  lemma {:induction false} LowerEndShifts(p: string, t: string, i: nat)
    requires i <= |t|
    ensures LowerEnd(p + t, |p| + i) == |p| + LowerEnd(t, i)
    decreases |t| - i
  {
    if i < |t| && IsLower(t[i]) { LowerEndShifts(p, t, i + 1); }
  }

  lemma {:induction false} DigitEndShifts(p: string, t: string, i: nat)
    requires i <= |t|
    ensures DigitEnd(p + t, |p| + i) == |p| + DigitEnd(t, i)
    decreases |t| - i
  {
    if i < |t| && IsDigit(t[i]) { DigitEndShifts(p, t, i + 1); }
  }

  lemma {:induction false} PathEndShifts(p: string, t: string, i: nat)
    requires i <= |t|
    ensures IndexPathEnd(p + t, |p| + i) == |p| + IndexPathEnd(t, i)
    decreases |t| - i
  {
    DigitEndShifts(p, t, i);
    var d := DigitEnd(t, i);
    if i < d < |t| {
      DigitEndShifts(p, t, d + 1);
      if t[d] == '.' && DigitEnd(t, d + 1) > d + 1 { PathEndShifts(p, t, d + 1); }
    }
  }

  lemma TokenEndShifts(p: string, t: string, i: nat)
    requires i < |t|
    ensures TokenEnd(p + t, |p| + i)
         == match TokenEnd(t, i) case Some(e) => Some(|p| + e) case None => None
  {
    LowerEndShifts(p, t, i + 1);
    assert (p + t)[|p| + i + 1..] == t[i + 1..];
    if "targ:" <= t[i + 1..] { PathEndShifts(p, t, i + 6); }
  }

  /** What the scanner passes at index `i`, and where it goes on. */
  function Head(t: string, i: nat): Piece
    requires i < |t|
  {
    match TokenEnd(t, i) case Some(e) => Token(t[i + 1..e]) case None => Literal(t[i])
  }

  function Next(t: string, i: nat): (n: nat)
    requires i < |t|
    ensures i < n <= |t|
  {
    match TokenEnd(t, i) case Some(e) => e + 1 case None => i + 1
  }

  lemma PiecesFrom(t: string, i: nat)
    requires i < |t|
    ensures Pieces(t, i) == [Head(t, i)] + Pieces(t, Next(t, i))
  {
  }

  lemma HeadShifts(p: string, t: string, i: nat)
    requires i < |t|
    ensures Moves(p + t, t, |p|, i)
  {
    TokenEndShifts(p, t, i);
    match TokenEnd(t, i)
    case Some(e) => assert (p + t)[|p| + i + 1..|p| + e] == t[i + 1..e];
    case None =>
  }

  /** Scanning `g` at `k + j` passes the piece that scanning `t` at `j` does. */
  ghost predicate Moves(g: string, t: string, k: nat, j: nat) {
    j < |t| && |g| == k + |t| && Head(g, k + j) == Head(t, j) && Next(g, k + j) == k + Next(t, j)
  }

  lemma PieceMoved(g: string, t: string, k: nat, i: nat, after: seq<Piece>)
    requires Moves(g, t, k, i) && Pieces(t, Next(t, i)) == after == Pieces(g, Next(g, k + i))
    ensures Pieces(g, k + i) == [Head(t, i)] + after
    ensures Pieces(t, i) == [Head(t, i)] + after
  {
    PiecesFrom(t, i);
    PiecesFrom(g, k + i);
  }

  /** The same characters, `k` places on, are the same pieces. */
  lemma {:induction false} PiecesMoved(g: string, t: string, k: nat, i: nat)
    requires i <= |t| && |g| == k + |t|
    requires forall j :: 0 <= j < |t| ==> Moves(g, t, k, j)
    ensures Pieces(g, k + i) == Pieces(t, i)
    decreases |t| - i
  {
    if i < |t| {
      assert Moves(g, t, k, i);
      PiecesMoved(g, t, k, Next(t, i));
      PieceMoved(g, t, k, i, Pieces(t, Next(t, i)));
    }
  }

  lemma PiecesShift(p: string, t: string, i: nat)
    requires i <= |t|
    ensures Pieces(p + t, |p| + i) == Pieces(t, i)
  {
    forall j | 0 <= j < |t| ensures Moves(p + t, t, |p|, j) {
      HeadShifts(p, t, j);
    }
    PiecesMoved(p + t, t, |p|, i);
  }

  // ---------------------------------------------------------------------
  // Text and placeholders
  // ---------------------------------------------------------------------

  /** The substitution of a text put before another's. */
  function Before(text: string, rest: Substitution): Substitution {
    match rest case Substituted(more) => Substituted(text + more) case failure => failure
  }

  lemma BeforeNothing(rest: Substitution)
    ensures Before("", rest) == rest
  {
    if rest.Substituted? { assert "" + rest.text == rest.text; }
  }

  lemma BeforeTwice(a: string, b: string, rest: Substitution)
    ensures Before(a, Before(b, rest)) == Before(a + b, rest)
  {
    if rest.Substituted? { assert a + (b + rest.text) == (a + b) + rest.text; }
  }

  lemma SubstituteFirst(env: Env, ph: Placeholders, c: char, t: string)
    requires c != '{'
    ensures Substitute(env, ph, [c] + t) == Before([c], Substitute(env, ph, t))
  {
    PiecesShift([c], t, 0);
    PiecesFrom([c] + t, 0);
    assert Head([c] + t, 0) == Literal(c) && Next([c] + t, 0) == |[c]| + 0;
  }

  /** Text without a brace stays as it is. */
  lemma {:induction false} PlainTextStays(env: Env, ph: Placeholders, plain: string, t: string)
    requires '{' !in plain
    ensures Substitute(env, ph, plain + t) == Before(plain, Substitute(env, ph, t))
    decreases |plain|
  {
    if plain == [] {
      assert plain + t == t;
      BeforeNothing(Substitute(env, ph, t));
    } else {
      assert plain + t == [plain[0]] + (plain[1..] + t) && plain[0] in plain;
      SubstituteFirst(env, ph, plain[0], plain[1..] + t);
      PlainTextStays(env, ph, plain[1..], t);
      BeforeTwice([plain[0]], plain[1..], Substitute(env, ph, t));
      assert [plain[0]] + plain[1..] == plain;
    }
  }

  predicate IsWord(w: string) { w != [] && forall i :: 0 <= i < |w| ==> IsLower(w[i]) }

  lemma {:induction false} WordPassed(t: string, i: nat, e: nat)
    requires i <= e < |t| && !IsLower(t[e]) && forall k :: i <= k < e ==> IsLower(t[k])
    ensures LowerEnd(t, i) == e
    decreases e - i
  {
    if i < e { WordPassed(t, i + 1, e); }
  }

  /** A placeholder at the front. */
  lemma TokenFirst(w: string, t: string)
    requires IsWord(w)
    ensures Pieces("{" + w + "}" + t) == [Token(w)] + Pieces(t) && !IsTarg(w)
  {
    var token := "{" + w + "}";
    var s := token + t;
    forall k | 1 <= k < |w| + 1 ensures IsLower(s[k]) { assert s[k] == w[k - 1]; }
    assert s[0] == '{' && s[|w| + 1] == '}';
    WordPassed(s, 1, |w| + 1);
    assert s[1..|w| + 1] == w;
    PiecesShift(token, t, 0);
    PiecesFrom(s, 0);
    assert Head(s, 0) == Token(w) && Next(s, 0) == |token| + 0;
    assert !IsLower("targ:"[4]);
  }

  /** A named placeholder is replaced by its value, whatever surrounds it; one that is
      not filled in fails the template. */
  lemma PlaceholderIsReplaced(env: Env, ph: Placeholders, plain: string, w: string, t: string)
    requires '{' !in plain && IsWord(w)
    ensures Substitute(env, ph, plain + ("{" + w + "}" + t))
         == if w in ph then Before(plain + ph[w], Substitute(env, ph, t)) else UnknownPlaceholder
  {
    PlainTextStays(env, ph, plain, "{" + w + "}" + t);
    TokenFirst(w, t);
    assert ([Token(w)] + Pieces(t))[1..] == Pieces(t);
    if w in ph { BeforeTwice(plain, ph[w], Substitute(env, ph, t)); }
  }

  function Braced(w: string): string { "{" + w + "}" }

  /** A placeholder by itself. */
  lemma LonePlaceholder(env: Env, ph: Placeholders, w: string)
    requires IsWord(w) && w in ph
    ensures Substitute(env, ph, Braced(w)) == Substituted(ph[w])
  {
    PlaceholderIsReplaced(env, ph, "", w, "");
    assert "" + (Braced(w) + "") == Braced(w) && ("" + ph[w]) + "" == ph[w];
    assert Pieces("") == [] && Substitute(env, ph, "") == Substituted("");
  }

  /** Two named placeholders with text between and after them. */
  lemma TwoPlaceholders(env: Env, ph: Placeholders, first: string, between: string, second: string, after: string)
    requires IsWord(first) && IsWord(second) && {first, second} <= ph.Keys
    requires '{' !in between && '{' !in after
    ensures Substitute(env, ph, Braced(first) + (between + (Braced(second) + after)))
         == Substituted(ph[first] + (between + (ph[second] + after)))
  {
    var rest := between + (Braced(second) + after);
    assert "" + (Braced(first) + rest) == Braced(first) + rest && "" + ph[first] == ph[first];
    PlaceholderIsReplaced(env, ph, "", first, rest);
    PlaceholderIsReplaced(env, ph, between, second, after);
    PlainTextStays(env, ph, after, "");
    assert after + "" == after && Pieces("") == [] && Substitute(env, ph, "") == Substituted("");
    assert (between + ph[second]) + after == between + (ph[second] + after);
  }

  // ---------------------------------------------------------------------
  // What is a placeholder, and what is left alone
  // ---------------------------------------------------------------------

  predicate IsIndex(s: string) { s != [] && forall i :: 0 <= i < |s| ==> IsDigit(s[i]) }

  /** Numbers with dots between them. */
  predicate IsIndexPath(s: string)
    decreases |s|, 1
  {
    IsIndex(s) || exists k: nat :: k < |s| && GoesOnAt(s, k)
  }

  predicate GoesOnAt(s: string, k: nat)
    requires k < |s|
    decreases |s|, 0
  {
    s[k] == '.' && IsIndex(s[..k]) && IsIndexPath(s[k + 1..])
  }

  /** What may stand between the braces of a placeholder. */
  predicate IsToken(w: string) { IsWord(w) || ("targ:" <= w && IsIndexPath(w[5..])) }

  /** A placeholder from `i` to its closing brace at `e`. */
  predicate IsPlaceholder(t: string, i: nat, e: nat) {
    i < e < |t| && t[i] == '{' && t[e] == '}' && IsToken(t[i + 1..e])
  }

  lemma {:induction false} LowerRun(t: string, i: nat)
    requires i <= |t|
    ensures forall k :: i <= k < LowerEnd(t, i) ==> IsLower(t[k])
    decreases |t| - i
  {
    if i < |t| && IsLower(t[i]) { LowerRun(t, i + 1); }
  }

  lemma {:induction false} DigitRun(t: string, i: nat)
    requires i <= |t|
    ensures forall k :: i <= k < DigitEnd(t, i) ==> IsDigit(t[k])
    ensures DigitEnd(t, i) < |t| ==> !IsDigit(t[DigitEnd(t, i)])
    decreases |t| - i
  {
    if i < |t| && IsDigit(t[i]) { DigitRun(t, i + 1); }
  }

  lemma {:induction false} DigitsPassed(t: string, i: nat, e: nat)
    requires i <= e < |t| && !IsDigit(t[e]) && forall k :: i <= k < e ==> IsDigit(t[k])
    ensures DigitEnd(t, i) == e
    decreases e - i
  {
    if i < e { DigitsPassed(t, i + 1, e); }
  }

  /** The scanned path is one ... */
  lemma {:induction false} ScannedPath(t: string, i: nat)
    requires i <= |t| && IndexPathEnd(t, i) > i
    ensures IsIndexPath(t[i..IndexPathEnd(t, i)])
    decreases |t| - i
  {
    var d, e := DigitEnd(t, i), IndexPathEnd(t, i);
    DigitRun(t, i);
    if d < |t| && t[d] == '.' && DigitEnd(t, d + 1) > d + 1 {
      ScannedMore(t, d + 1);
      ScannedPath(t, d + 1);
      var s := t[i..e];
      assert s[..d - i] == t[i..d] && s[d - i + 1..] == t[d + 1..e];
      assert GoesOnAt(s, d - i);
    } else {
      assert IsIndex(t[i..e]);
    }
  }

  lemma ScannedMore(t: string, i: nat)
    requires i <= |t| && DigitEnd(t, i) > i
    ensures IndexPathEnd(t, i) > i
  {
  }

  lemma IndexScanned(t: string, i: nat, e: nat)
    requires i < e < |t| && !IsDigit(t[e]) && IsIndex(t[i..e])
    ensures DigitEnd(t, i) == e
  {
    forall k | i <= k < e ensures IsDigit(t[k]) { assert t[k] == t[i..e][k - i]; }
    DigitsPassed(t, i, e);
  }

  lemma SlicesOf(t: string, i: nat, e: nat, k: nat)
    requires i + k < e <= |t|
    ensures t[i..e][..k] == t[i..i + k] && t[i..e][k + 1..] == t[i + k + 1..e] && t[i..e][k] == t[i + k]
  {
  }

  /** A path that goes on after its first number. */
  lemma PathGoesOn(t: string, i: nat, e: nat) returns (d: nat)
    requires i < e < |t| && IsIndexPath(t[i..e]) && !IsIndex(t[i..e])
    ensures i < d < e - 1 && t[d] == '.' && IsIndex(t[i..d]) && IsIndexPath(t[d + 1..e])
  {
    var s := t[i..e];
    var k: nat :| k < |s| && GoesOnAt(s, k);
    d := i + k;
    SlicesOf(t, i, e, k);
    NotEmpty(s[k + 1..]);
  }

  /** ... and one that ends at a brace is scanned whole. */
  lemma {:induction false} PathScanned(t: string, i: nat, e: nat)
    requires i < e < |t| && t[e] == '}' && IsIndexPath(t[i..e])
    ensures IndexPathEnd(t, i) == e && DigitEnd(t, i) > i
    decreases e - i
  {
    if IsIndex(t[i..e]) {
      IndexScanned(t, i, e);
    } else {
      var d := PathGoesOn(t, i, e);
      IndexScanned(t, i, d);
      PathScanned(t, d + 1, e);
    }
  }

  lemma NotEmpty(s: string)
    requires IsIndexPath(s)
    ensures s != []
  {
  }

  /** The scanner takes exactly the placeholders: a lower-case word in braces, or
      targ: and a path of numbers. */
  lemma PlaceholdersExactly(t: string, i: nat, e: nat)
    requires i < |t|
    ensures TokenEnd(t, i) == Some(e) <==> IsPlaceholder(t, i, e)
  {
    if TokenEnd(t, i) == Some(e) { TokenIsPlaceholder(t, i, e); }
    if IsPlaceholder(t, i, e) { PlaceholderIsToken(t, i, e); }
  }

  lemma TokenIsPlaceholder(t: string, i: nat, e: nat)
    requires i < |t| && TokenEnd(t, i) == Some(e)
    ensures IsPlaceholder(t, i, e)
  {
    var w := t[i + 1..e];
    LowerRun(t, i + 1);
    if e == LowerEnd(t, i + 1) && e > i + 1 {
      assert IsWord(w);
    } else {
      ScannedPath(t, i + 6);
      assert w[..5] == t[i + 1..][..5] && w[5..] == t[i + 6..e];
    }
  }

  lemma PlaceholderIsToken(t: string, i: nat, e: nat)
    requires IsPlaceholder(t, i, e)
    ensures TokenEnd(t, i) == Some(e)
  {
    var w := t[i + 1..e];
    if IsWord(w) {
      forall k | i + 1 <= k < e ensures IsLower(t[k]) { assert t[k] == w[k - i - 1]; }
      WordPassed(t, i + 1, e);
    } else {
      NotEmpty(w[5..]);
      assert w[5..] == t[i + 6..e] && t[i + 1..][..5] == w[..5] == "targ:";
      TargWordEnds(t, i);
      PathScanned(t, i + 6, e);
    }
  }

  lemma TargWordEnds(t: string, i: nat)
    requires i + 6 < |t| && t[i + 1..][..5] == "targ:"
    ensures LowerEnd(t, i + 1) == i + 5 && t[i + 5] == ':'
  {
    var head := "targ:";
    forall k | 0 <= k < 5 ensures t[i + 1 + k] == head[k] { assert t[i + 1..][..5][k] == head[k]; }
    WordPassed(t, i + 1, i + 5);
  }

  /** Text without a placeholder is left as it is, other braces included. */
  lemma {:induction false} OtherBracesStay(env: Env, ph: Placeholders, t: string, i: nat)
    requires i <= |t| && forall j, e :: !IsPlaceholder(t, j, e)
    ensures SubstitutePieces(env, ph, Pieces(t, i)) == Substituted(t[i..])
    decreases |t| - i
  {
    if i < |t| {
      if e :| TokenEnd(t, i) == Some(e) { PlaceholdersExactly(t, i, e); }
      OtherBracesStay(env, ph, t, i + 1);
      assert ([Literal(t[i])] + Pieces(t, i + 1))[1..] == Pieces(t, i + 1);
      assert [t[i]] + t[i + 1..] == t[i..];
    }
  }
}
