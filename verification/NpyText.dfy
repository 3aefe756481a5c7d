/** Text as .npy headers use it: searching, and decimal numbers. */
module NpyText {
  import opened Wrappers

  // ---------------------------------------------------------------------
  // Searching
  // ---------------------------------------------------------------------

  function Shift(delta: nat, at: Option<nat>): Option<nat> {
    match at
    case Some(k) => Some(delta + k)
    case None => None
  }

  /** The first occurrence of `pattern`. */
  function IndexOf(s: string, pattern: string): Option<nat> {
    if pattern <= s then Some(0)
    else if s == [] then None
    else Shift(1, IndexOf(s[1..], pattern))
  }

  /** string_view::find: the first occurrence at or after `from`. */
  function Find(s: string, pattern: string, from: nat): Option<nat> {
    if from > |s| then None else Shift(from, IndexOf(s[from..], pattern))
  }

  predicate OccursAt(s: string, pattern: string, k: nat) {
    k <= |s| && pattern <= s[k..]
  }

  /** It is the first occurrence, and None means there is none. */
  lemma {:induction false} IndexOfIsFirst(s: string, pattern: string)
    ensures match IndexOf(s, pattern)
      case Some(k) => OccursAt(s, pattern, k) && forall j: nat :: j < k ==> !OccursAt(s, pattern, j)
      case None => forall j: nat :: !OccursAt(s, pattern, j)
    decreases |s|
  {
    if pattern <= s {
      assert s[0..] == s;
    } else if s != [] {
      IndexOfIsFirst(s[1..], pattern);
      forall j: nat ensures j > 0 ==> (OccursAt(s, pattern, j) <==> OccursAt(s[1..], pattern, j - 1)) {
        if 0 < j <= |s| { assert s[j..] == s[1..][j - 1..]; }
      }
      assert s[0..] == s;
    }
  }

  /** Text before the pattern's first character can hold no occurrence. */
  lemma {:induction false} SkipText(a: string, b: string, pattern: string)
    requires pattern != [] && pattern[0] !in a
    ensures IndexOf(a + b, pattern) == Shift(|a|, IndexOf(b, pattern))
    decreases |a|
  {
    if a == [] {
      assert a + b == b;
    } else {
      assert (a + b)[0] == a[0];
      assert (a + b)[1..] == a[1..] + b;
      SkipText(a[1..], b, pattern);
    }
  }

  lemma FoundHere(pattern: string, rest: string)
    ensures IndexOf(pattern + rest, pattern) == Some(0)
  {
  }

  // ---------------------------------------------------------------------
  // Text cut at its quotes
  // ---------------------------------------------------------------------

  function Quoted(parts: seq<string>): string
    requires |parts| > 0
  {
    if |parts| == 1 then parts[0] else parts[0] + "'" + Quoted(parts[1..])
  }

  function Key(name: string): string { "'" + name + "'" }

  predicate QuoteFree(s: string) { '\'' !in s }

  /** The text from part `k` on, its opening quote included. */
  function FromPart(parts: seq<string>, k: nat): string
    requires 0 < k < |parts|
  {
    "'" + Quoted(parts[k..])
  }

  /** Text before the first quote is determined by the whole. */
  lemma {:induction false} SameUpToQuote(a: string, x: string, b: string, y: string)
    requires QuoteFree(a) && QuoteFree(b) && a + "'" + x == b + "'" + y
    ensures a == b
    decreases |a|
  {
    var s := a + "'" + x;
    assert s[|a|] == '\'' && s[|b|] == '\'';
    if |a| == |b| {
      assert s[..|a|] == a && s[..|b|] == b;
    }
  }

  lemma KeyIsNotPrefix(part: string, rest: string, name: string)
    requires QuoteFree(part) && QuoteFree(name) && part != name
    ensures !(Key(name) <= "'" + part + "'" + rest)
  {
    var s, key := "'" + part + "'" + rest, Key(name);
    if key <= s {
      var tail := s[|key|..];
      assert s == key + tail;
      assert s[1..] == name + "'" + tail && s[1..] == part + "'" + rest;
      SameUpToQuote(name, tail, part, rest);
    }
  }

  lemma StepOver(s: string, part: string, tail: string, key: string)
    requires s != [] && !(key <= s) && s[1..] == part + tail
    requires key != [] && key[0] !in part
    ensures IndexOf(s, key) == Shift(1 + |part|, IndexOf(tail, key))
  {
    SkipText(part, tail, key);
  }

  lemma QuotedTail(parts: seq<string>, k: nat)
    requires 0 < k < |parts| - 1
    ensures FromPart(parts, k) == "'" + parts[k] + FromPart(parts, k + 1)
  {
    assert parts[k..][0] == parts[k] && parts[k..][1..] == parts[k + 1..];
  }

  /** A quoted name is found at the first part that is exactly that name. */
  lemma {:induction false} FindKeyFrom(parts: seq<string>, name: string, i: nat, k: nat)
    returns (at: nat)
    requires 0 < i <= k < |parts| - 1 && parts[k] == name && QuoteFree(name)
    requires forall j :: i <= j < k ==> QuoteFree(parts[j]) && parts[j] != name
    ensures IndexOf(FromPart(parts, i), Key(name)) == Some(at)
    ensures at <= |FromPart(parts, i)| && FromPart(parts, i)[at..] == FromPart(parts, k)
    decreases k - i
  {
    if i == k {
      at := 0;
      KeyAtPart(parts, k);
    } else {
      var inner := FindKeyFrom(parts, name, i + 1, k);
      at := PastPart(parts, name, i, inner);
    }
  }

  lemma KeyAtPart(parts: seq<string>, k: nat)
    requires 0 < k < |parts| - 1
    ensures Key(parts[k]) <= FromPart(parts, k)
    ensures FromPart(parts, k)[|Key(parts[k])|..] == Quoted(parts[k + 1..])
  {
    QuotedTail(parts, k);
    assert FromPart(parts, k) == Key(parts[k]) + Quoted(parts[k + 1..]);
  }

  /** A part that is not the name sought, its opening quote dropped. */
  lemma PartPassed(parts: seq<string>, name: string, i: nat)
    requires 0 < i < |parts| - 1 && QuoteFree(name) && QuoteFree(parts[i]) && parts[i] != name
    ensures !(Key(name) <= FromPart(parts, i)) && FromPart(parts, i)[1..] == parts[i] + FromPart(parts, i + 1)
  {
    var rest := Quoted(parts[i + 1..]);
    QuotedTail(parts, i);
    assert "'" + parts[i] + ("'" + rest) == "'" + parts[i] + "'" + rest;
    KeyIsNotPrefix(parts[i], rest, name);
  }

  lemma PastPart(parts: seq<string>, name: string, i: nat, inner: nat) returns (at: nat)
    requires 0 < i < |parts| - 1 && QuoteFree(name) && QuoteFree(parts[i]) && parts[i] != name
    requires IndexOf(FromPart(parts, i + 1), Key(name)) == Some(inner) && inner <= |FromPart(parts, i + 1)|
    ensures IndexOf(FromPart(parts, i), Key(name)) == Some(at) && at <= |FromPart(parts, i)|
    ensures FromPart(parts, i)[at..] == FromPart(parts, i + 1)[inner..]
  {
    PartPassed(parts, name, i);
    at := PastText(FromPart(parts, i), parts[i], FromPart(parts, i + 1), Key(name), inner);
  }

  lemma PastText(here: string, part: string, next: string, key: string, inner: nat) returns (at: nat)
    requires here != [] && !(key <= here) && here[1..] == part + next
    requires key != [] && key[0] !in part && IndexOf(next, key) == Some(inner) && inner <= |next|
    ensures IndexOf(here, key) == Some(at) && at <= |here| && here[at..] == next[inner..]
  {
    StepOver(here, part, next, key);
    at := 1 + |part| + inner;
    FurtherOn(here, part, next, inner);
  }

  lemma FurtherOn(here: string, part: string, next: string, inner: nat)
    requires here != [] && here[1..] == part + next && inner <= |next|
    ensures 1 + |part| + inner <= |here| && here[1 + |part| + inner..] == next[inner..]
  {
    assert here[1..][|part|..] == next;
  }

  lemma FindKey(parts: seq<string>, name: string, k: nat) returns (at: nat)
    requires 0 < k < |parts| - 1 && parts[k] == name && QuoteFree(name)
    requires forall j :: 0 <= j < k ==> QuoteFree(parts[j])
    requires forall j :: 0 < j < k ==> parts[j] != name
    ensures IndexOf(Quoted(parts), Key(name)) == Some(at)
    ensures at <= |Quoted(parts)| && Quoted(parts)[at..] == FromPart(parts, k)
  {
    var inner := FindKeyFrom(parts, name, 1, k);
    assert Quoted(parts) == parts[0] + FromPart(parts, 1);
    SkipText(parts[0], FromPart(parts, 1), Key(name));
    at := |parts[0]| + inner;
    assert Quoted(parts)[at..] == FromPart(parts, 1)[inner..];
  }

  // ---------------------------------------------------------------------
  // Decimal
  // ---------------------------------------------------------------------

  predicate IsDigit(c: char) { '0' <= c <= '9' }

  function DigitChar(d: nat): (c: char)
    requires d < 10
    ensures IsDigit(c)
  {
    '0' + d as char
  }

  function DigitValue(c: char): (d: nat)
    requires IsDigit(c)
    ensures d < 10
  {
    c as int - '0' as int
  }

  predicate AllDigits(s: string) { forall i :: 0 <= i < |s| ==> IsDigit(s[i]) }

  function Print(n: nat): (s: string)
    ensures s != [] && AllDigits(s)
  {
    if n < 10 then [DigitChar(n)] else Print(n / 10) + [DigitChar(n % 10)]
  }

  function Number(s: string): nat
    requires AllDigits(s)
  {
    if s == [] then 0 else 10 * Number(s[..|s| - 1]) + DigitValue(s[|s| - 1])
  }

  lemma {:induction false} PrintedNumber(n: nat)
    ensures Number(Print(n)) == n
  {
    if n < 10 {
      assert Print(n)[..0] == [];
      assert Number([]) == 0;
    } else {
      PrintedNumber(n / 10);
      assert Print(n)[..|Print(n)| - 1] == Print(n / 10);
    }
  }

  /** Lengths of printed numbers: enough to bound a header. */
  lemma {:induction false} PrintedLength(n: nat, digits: nat, bound: nat)
    requires n < bound && bound == Power10(digits) && digits > 0
    ensures |Print(n)| <= digits
    decreases digits
  {
    if n >= 10 { PrintedLength(n / 10, digits - 1, Power10(digits - 1)); }
  }

  function Power10(n: nat): nat { if n == 0 then 1 else 10 * Power10(n - 1) }

  function LeadingDigits(s: string): (k: nat)
    ensures k <= |s| && AllDigits(s[..k]) && (k < |s| ==> !IsDigit(s[k]))
  {
    if s == [] || !IsDigit(s[0]) then 0
    else
      var k := 1 + LeadingDigits(s[1..]);
      assert s[..k] == [s[0]] + s[1..][..k - 1];
      k
  }

  lemma {:induction false} LeadingDigitsAre(digits: string, rest: string)
    requires AllDigits(digits) && (rest != [] ==> !IsDigit(rest[0]))
    ensures LeadingDigits(digits + rest) == |digits|
    decreases |digits|
  {
    if digits == [] {
      assert digits + rest == rest;
    } else {
      assert (digits + rest)[1..] == digits[1..] + rest;
      LeadingDigitsAre(digits[1..], rest);
    }
  }
}
