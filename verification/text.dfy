/** The fragments of Python's string behaviour the simulator relies on:
    whitespace, digit and letter classes, `str.strip`, `str.split`, code-point
    ordering of strings, and `float`/`int` of digit texts. */
module Text {
  import opened Errors

  /** Python's `str.isspace`, which `str.strip()` and the regular-expression
      class `\s` both use. */
  predicate IsSpace(c: char) {
    || c == ' ' || c == '\t' || c == '\n' || c == '\r' || c == '\U{0b}' || c == '\U{0c}'
    || ('\U{1c}' <= c <= '\U{1f}') || c == '\U{85}' || c == '\U{a0}' || c == '\U{1680}'
    || ('\U{2000}' <= c <= '\U{200a}') || c == '\U{2028}' || c == '\U{2029}'
    || c == '\U{202f}' || c == '\U{205f}' || c == '\U{3000}'
  }

  predicate IsDigit(c: char) {
    '0' <= c <= '9'
  }

  predicate IsAsciiUpper(c: char) {
    'A' <= c <= 'Z'
  }

  predicate AllSpace(s: string) {
    forall i :: 0 <= i < |s| ==> IsSpace(s[i])
  }

  predicate HasDigit(t: string) {
    exists i :: 0 <= i < |t| && IsDigit(t[i])
  }

  predicate AllDigits(s: string) {
    forall i :: 0 <= i < |s| ==> IsDigit(s[i])
  }

  /** The longest prefix of `s` whose characters satisfy `p`. */
  function PrefixWhile(s: string, p: char -> bool): (n: nat)
    ensures n <= |s|
    ensures forall i :: 0 <= i < n ==> p(s[i])
    ensures n < |s| ==> !p(s[n])
  {
    if |s| == 0 || !p(s[0]) then 0 else 1 + PrefixWhile(s[1..], p)
  }

  /** A run of `p`-characters followed by a character that is not one is
      exactly the prefix `PrefixWhile` finds. */
  lemma {:induction false} PrefixWhileConcat(a: string, b: string, p: char -> bool)
    requires forall i :: 0 <= i < |a| ==> p(a[i])
    requires |b| > 0 ==> !p(b[0])
    ensures PrefixWhile(a + b, p) == |a|
    decreases |a|
  {
    if |a| > 0 {
      assert (a + b)[1..] == a[1..] + b;
      PrefixWhileConcat(a[1..], b, p);
    } else {
      assert a + b == b;
    }
  }

  /** The length of the longest suffix of `s` whose characters satisfy `p`. */
  function SuffixWhile(s: string, p: char -> bool): (n: nat)
    ensures n <= |s|
    ensures forall i :: |s| - n <= i < |s| ==> p(s[i])
    ensures n < |s| ==> !p(s[|s| - n - 1])
  {
    if |s| == 0 || !p(s[|s| - 1]) then 0 else 1 + SuffixWhile(s[..|s| - 1], p)
  }

  /** `s.strip(chars)` for a predicate describing the stripped characters:
      removes the longest prefix and then the longest suffix of such characters. */
  function StripWith(s: string, p: char -> bool): (r: string)
    ensures |r| <= |s|
    ensures |r| > 0 ==> !p(r[0]) && !p(r[|r| - 1])
    ensures (forall i :: 0 <= i < |s| ==> p(s[i])) <==> r == []
    ensures exists i, j ::
      && 0 <= i <= j <= |s| && r == s[i..j]
      && (forall k :: 0 <= k < i ==> p(s[k]))
      && (forall k :: j <= k < |s| ==> p(s[k]))
  {
    var lead := PrefixWhile(s, p);
    var rest := s[lead..];
    var j := |s| - SuffixWhile(rest, p);
    SuffixCut(s, p, lead);
    var r := rest[..|rest| - SuffixWhile(rest, p)];
    assert r == s[lead..j];
    r
  }

  /** Cutting the longest `p`-suffix off `s[lead..]` leaves a slice of `s`
      followed only by `p`-characters. */
  lemma SuffixCut(s: string, p: char -> bool, lead: nat)
    requires lead <= |s|
    ensures var rest := s[lead..]; var j := |s| - SuffixWhile(rest, p);
      && lead <= j
      && rest[..|rest| - SuffixWhile(rest, p)] == s[lead..j]
      && forall k :: j <= k < |s| ==> p(s[k])
  {
    var rest := s[lead..];
    forall k | |s| - SuffixWhile(rest, p) <= k < |s| ensures p(s[k]) {
      assert s[k] == rest[k - lead];
    }
  }

  /** Python's `s.strip()`. */
  function Strip(s: string): string {
    StripWith(s, IsSpace)
  }

  /** A string with a non-space character does not strip to nothing. */
  lemma StripKeeps(s: string, i: nat)
    requires i < |s| && !IsSpace(s[i])
    ensures Strip(s) != ""
  {
  }

  /** The length of the piece `s` starts with: up to the first `sep`. */
  function PieceLength(s: string, sep: char): (n: nat)
    ensures n <= |s| && sep !in s[..n]
    ensures n < |s| ==> s[n] == sep
  {
    var n := PrefixWhile(s, c => c != sep);
    assert forall i :: 0 <= i < n ==> s[..n][i] == s[i];
    n
  }

  /** Python's `s.split(sep)`: the pieces between occurrences of `sep`; an
      empty string gives one empty piece. */
  function Split(s: string, sep: char): (r: seq<string>)
    ensures |r| >= 1
    ensures forall k :: 0 <= k < |r| ==> sep !in r[k]
    decreases |s|
  {
    var n := PieceLength(s, sep);
    if n == |s| then [s] else [s[..n]] + Split(s[n + 1..], sep)
  }

  /** Python's `sep.join(pieces)`. */
  function JoinWith(pieces: seq<string>, sep: char): string {
    if |pieces| == 0 then ""
    else if |pieces| == 1 then pieces[0]
    else pieces[0] + [sep] + JoinWith(pieces[1..], sep)
  }

  /** Splitting and re-joining with the same separator gives back the text,
      so every character of the phase text lands in exactly one clause. */
  lemma {:induction false} SplitJoin(s: string, sep: char)
    ensures JoinWith(Split(s, sep), sep) == s
    decreases |s|
  {
    var n := PieceLength(s, sep);
    if n < |s| {
      var tail := s[n + 1..];
      SplitJoin(tail, sep);
      var rest := Split(tail, sep);
      assert Split(s, sep) == [s[..n]] + rest;
      JoinCons(s[..n], rest, sep);
      CutAt(s, n);
    }
  }

  /** A text is the part before a position, the character there, and the rest. */
  lemma CutAt(s: string, n: nat)
    requires n < |s|
    ensures s == s[..n] + [s[n]] + s[n + 1..]
  {
  }

  lemma JoinCons(a: string, rest: seq<string>, sep: char)
    requires |rest| >= 1
    ensures JoinWith([a] + rest, sep) == a + [sep] + JoinWith(rest, sep)
  {
    assert ([a] + rest)[1..] == rest;
  }

  /** A text without the separator is a single piece. */
  lemma SplitWithoutSeparator(s: string, sep: char)
    requires sep !in s
    ensures Split(s, sep) == [s]
  {
    var n := PieceLength(s, sep);
    if n < |s| {
      assert false;
    }
  }

  /** Python's ordering of strings: by code point, a proper prefix first. */
  predicate LexLess(a: string, b: string)
    decreases |a|
  {
    if |a| == 0 then |b| > 0
    else if |b| == 0 then false
    else if a[0] != b[0] then a[0] < b[0]
    else LexLess(a[1..], b[1..])
  }

  lemma {:induction false} LexIrreflexive(a: string)
    ensures !LexLess(a, a)
    decreases |a|
  {
    if |a| > 0 {
      LexIrreflexive(a[1..]);
    }
  }

  lemma {:induction false} LexTransitive(a: string, b: string, c: string)
    requires LexLess(a, b) && LexLess(b, c)
    ensures LexLess(a, c)
    decreases |a|
  {
    if |a| > 0 && a[0] == b[0] && b[0] == c[0] {
      LexTransitive(a[1..], b[1..], c[1..]);
    }
  }

  lemma {:induction false} LexTotal(a: string, b: string)
    requires a != b
    ensures LexLess(a, b) || LexLess(b, a)
    decreases |a|
  {
    if |a| > 0 && |b| > 0 && a[0] == b[0] {
      assert a == [a[0]] + a[1..] && b == [b[0]] + b[1..];
      LexTotal(a[1..], b[1..]);
    }
  }

  lemma {:induction false} LexAsymmetric(a: string, b: string)
    requires LexLess(a, b)
    ensures !LexLess(b, a)
    decreases |a|
  {
    if |a| > 0 && a[0] == b[0] {
      LexAsymmetric(a[1..], b[1..]);
    }
  }

  /** The value of a run of decimal digits, most significant first. */
  function DigitsValue(d: string): (v: nat)
    requires AllDigits(d)
  {
    if |d| == 0 then 0 else 10 * DigitsValue(d[..|d| - 1]) + ((d[|d| - 1] as int) - ('0' as int))
  }

  function Pow10(k: nat): (p: nat)
    ensures p >= 1
  {
    if k == 0 then 1 else 10 * Pow10(k - 1)
  }

  /** A text of digits with at most one dot, the only shape the simulator's
      regular expressions hand to `float`. */
  predicate IsDecimalShape(t: string) {
    var n := PrefixWhile(t, IsDigit);
    n == |t| || (t[n] == '.' && AllDigits(t[n + 1..]))
  }

  /** Python's `float(t)` on a digits-and-dot text: exact when it holds at
      least one digit, a ValueError when it is empty or only a dot. */
  function ParseDecimal(t: string): (r: Result<real>)
    requires IsDecimalShape(t)
    ensures r.Ok? <==> exists i :: 0 <= i < |t| && IsDigit(t[i])
    ensures r.Err? ==> r.error == BadFloat(t)
    ensures r.Ok? ==> r.value >= 0.0
  {
    var n := PrefixWhile(t, IsDigit);
    var whole := t[..n];
    var frac := if n == |t| then "" else t[n + 1..];
    if |whole| == 0 && |frac| == 0 then
      assert forall i :: 0 <= i < |t| ==> !IsDigit(t[i]) by {
        forall i | 0 <= i < |t| ensures !IsDigit(t[i]) {
          if n < |t| { assert i == n; }
        }
      }
      Err(BadFloat(t))
    else
      assert |whole| > 0 ==> IsDigit(t[0]);
      assert |whole| == 0 ==> IsDigit(t[n + 1]);
      Ok(DigitsValue(whole) as real + DigitsValue(frac) as real / Pow10(|frac|) as real)
  }

  /** The decimal text of a natural number, without leading zeros. */
  function NatText(v: nat): (t: string)
    ensures |t| >= 1 && AllDigits(t)
  {
    if v < 10 then [('0' as int + v) as char]
    else NatText(v / 10) + [('0' as int + v % 10) as char]
  }

  /** Reading back the decimal text of a number gives the number. */
  lemma {:induction false} NatTextValue(v: nat)
    ensures DigitsValue(NatText(v)) == v
  {
    if v >= 10 {
      NatTextValue(v / 10);
      var t := NatText(v);
      assert t[..|t| - 1] == NatText(v / 10);
    }
  }

  /** `float` of the decimal text of a natural number is that number. */
  lemma ParseNatText(v: nat)
    ensures IsDecimalShape(NatText(v))
    ensures ParseDecimal(NatText(v)) == Ok(v as real)
  {
    var t := NatText(v);
    assert PrefixWhile(t, IsDigit) == |t| by { PrefixOfDigits(t); }
    NatTextValue(v);
    assert t[..|t|] == t;
  }

  /** Digits read as one run are the leading digits shifted past the
      trailing ones. */
  lemma {:induction false} DigitsValueConcat(w: string, f: string)
    requires AllDigits(w) && AllDigits(f)
    ensures AllDigits(w + f)
    ensures DigitsValue(w + f) == DigitsValue(w) * Pow10(|f|) + DigitsValue(f)
    decreases |f|
  {
    if |f| == 0 {
      assert w + f == w;
    } else {
      var init := f[..|f| - 1];
      DigitsValueConcat(w, init);
      assert (w + f)[..|w + f| - 1] == w + init;
      Distribute(DigitsValue(w), Pow10(|init|), DigitsValue(init));
    }
  }

  lemma Distribute(a: int, b: int, c: int)
    ensures 10 * (a * b + c) == a * (10 * b) + 10 * c
  {
  }

  lemma ShiftDivide(a: nat, b: nat, c: nat)
    requires b >= 1
    ensures (a * b + c) as real / b as real == a as real + c as real / b as real
  {
    assert (a * b) as real == a as real * b as real;
  }

  /** `float` of a text with a dot reads all its digits as one whole number
      and divides it by ten to the number of digits after the dot: `0.5` is
      5/10 and `.3` is 3/10. */
  lemma {:induction false} ParseDecimalValue(w: string, f: string)
    requires AllDigits(w) && AllDigits(f) && |w| + |f| > 0
    ensures IsDecimalShape(w + "." + f)
    ensures ParseDecimal(w + "." + f) == Ok(DigitsValue(w + f) as real / Pow10(|f|) as real)
  {
    DecimalPieces(w, f);
    DigitsValueConcat(w, f);
    ShiftDivide(DigitsValue(w), Pow10(|f|), DigitsValue(f));
  }

  /** `float('0.5')` is one half. */
  lemma HalfParses()
    ensures IsDecimalShape("0.5") && ParseDecimal("0.5") == Ok(0.5)
  {
    ParseDecimalValue("0", "5");
    assert "0" + "." + "5" == "0.5";
    assert DigitsValue("0" + "5") == 5 && Pow10(|"5"|) == 10;
  }

  /** `float('.3')`, with no whole digits, is three tenths. */
  lemma TenthsParse()
    ensures IsDecimalShape(".3") && ParseDecimal(".3") == Ok(0.3)
  {
    ParseDecimalValue("", "3");
    assert "" + "." + "3" == ".3";
    assert DigitsValue("" + "3") == 3 && Pow10(|"3"|) == 10;
  }

  /** The dot of such a text separates the whole digits from the fraction. */
  lemma {:induction false} DecimalPieces(w: string, f: string)
    requires AllDigits(w) && AllDigits(f) && |w| + |f| > 0
    ensures IsDecimalShape(w + "." + f)
    ensures ParseDecimal(w + "." + f) == Ok(DigitsValue(w) as real + DigitsValue(f) as real / Pow10(|f|) as real)
  {
    var t := w + "." + f;
    assert t == w + ("." + f);
    PrefixWhileConcat(w, "." + f, IsDigit);
    assert t[..|w|] == w && t[|w| + 1..] == f;
  }

  /** `float` of a text without a dot is the whole number its digits spell. */
  lemma {:induction false} ParseWholeValue(w: string)
    requires AllDigits(w) && |w| > 0
    ensures IsDecimalShape(w)
    ensures ParseDecimal(w) == Ok(DigitsValue(w) as real)
  {
    PrefixOfDigits(w);
    assert w[..|w|] == w;
  }

  lemma {:induction false} PrefixOfDigits(t: string)
    requires AllDigits(t)
    ensures PrefixWhile(t, IsDigit) == |t|
  {
    if |t| > 0 {
      PrefixOfDigits(t[1..]);
    }
  }

  /** Python's `int(d or '1')` on a run of digits. */
  function CountOf(d: string): (n: nat)
    requires AllDigits(d)
    ensures |d| == 0 ==> n == 1
    ensures |d| > 0 ==> n == DigitsValue(d)
  {
    if |d| == 0 then 1 else DigitsValue(d)
  }

  /** The characters of `s` without repetitions, in order of first appearance:
      the members of `set(s)`. */
  function Distinct(s: string): (r: seq<char>)
    ensures forall c :: c in r <==> c in s
    ensures forall i, j :: 0 <= i < j < |r| ==> r[i] != r[j]
    ensures |r| <= |s|
  {
    if |s| == 0 then []
    else
      var rest := Distinct(s[..|s| - 1]);
      if s[|s| - 1] in rest then rest else rest + [s[|s| - 1]]
  }

  /** Python's `sum` over a list of numbers. */
  function Sum(xs: seq<real>): real {
    if |xs| == 0 then 0.0 else Sum(xs[..|xs| - 1]) + xs[|xs| - 1]
  }
}
