/** `Phase` (Experiment.py): the phase mini-language. A phase text is a
    '/'-separated list of clauses, each one of `rand`, a λ clause
    `lamda = <n>`, a trial clause `<n><CS><sign>` or a blank clause. */
module Phases {
  import opened Errors
  import opened Text
  import opened Ordering

  /** One trial of a phase: the CS presented together and the outcome sign. */
  type Trial = (string, string)

  /** A parsed phase: its text, its trials in order, whether it is
      randomised, and its own λ. */
  datatype Phase = Phase(text: string, elems: seq<Trial>, rand: bool, lamda: Option<real>)

  /** `Environment.split_cs` and `Environment.list_cs` are not part of this
      model: the parser and `Phase.cs` take them as given functions. */
  type Splitter = string -> seq<string>

  /** The letter class `[A-Za-zÑñ]` of a trial clause. */
  predicate IsLetter(c: char) {
    ('A' <= c <= 'Z') || ('a' <= c <= 'z') || c == 'Ñ' || c == 'ñ'
  }

  /** `(?:[A-Za-zÑñ]'*)+`: a letter, then letters and primes. */
  predicate IsCsWord(w: string) {
    |w| > 0 && IsLetter(w[0]) && forall i :: 0 <= i < |w| ==> IsLetter(w[i]) || w[i] == '\''
  }

  predicate IsSign(t: string) {
    t == "" || t == "+" || t == "-"
  }

  /** The trial pattern `([0-9]*)((?:[A-Za-zÑñ]'*)+)([+-]?)` matches the
      whole clause, with these three groups. */
  predicate TrialShape(part: string, num: string, word: string, sign: string) {
    part == num + word + sign && AllDigits(num) && IsCsWord(word) && IsSign(sign)
  }

  predicate IsBlank(c: char) {
    c == ' '
  }

  predicate AllBlank(t: string) {
    forall i :: 0 <= i < |t| ==> IsBlank(t[i])
  }

  /** The λ pattern `lamb?da *= *([0-9]*(?:\.[0-9]*)?)` matches the whole
      clause, with these pieces; only the space character may surround `=`. */
  predicate LamdaShape(part: string, word: string, before: string, after: string, num: string) {
    && (word == "lamda" || word == "lambda")
    && AllBlank(before) && AllBlank(after)
    && IsDecimalShape(num)
    && part == word + before + "=" + after + num
  }

  /** Matching the trial pattern: the leading digits, then the word up to an
      optional final sign. */
  function TrialPieces(part: string): (r: Option<(string, string, string)>)
    ensures r.Some? ==> TrialShape(part, r.value.0, r.value.1, r.value.2)
  {
    var n := PrefixWhile(part, IsDigit);
    var rest := part[n..];
    var k := if |rest| > 0 && (rest[|rest| - 1] == '+' || rest[|rest| - 1] == '-') then |rest| - 1 else |rest|;
    if IsCsWord(rest[..k]) then
      assert part == part[..n] + rest[..k] + rest[k..];
      assert k < |rest| ==> rest[k..] == [rest[k]];
      Some((part[..n], rest[..k], rest[k..]))
    else None
  }

  /** The pattern has one way to match: whenever it matches, the groups are
      the ones `TrialPieces` finds. */
  lemma TrialPiecesUnique(part: string, num: string, word: string, sign: string)
    requires TrialShape(part, num, word, sign)
    ensures TrialPieces(part) == Some((num, word, sign))
  {
    assert part == num + (word + sign);
    PrefixWhileConcat(num, word + sign, IsDigit);
    var rest := part[|num|..];
    assert rest == word + sign;
    if sign == "" {
      assert rest == word;
      assert rest[|rest| - 1] == word[|word| - 1];
    } else {
      assert rest[|rest| - 1] == sign[0];
      assert rest[..|rest| - 1] == word;
    }
  }

  /** A decimal text starts with a digit or a dot, never a space. */
  lemma DecimalStartsNonBlank(num: string)
    requires IsDecimalShape(num) && |num| > 0
    ensures !IsBlank(num[0])
  {
    var n := PrefixWhile(num, IsDigit);
    if n == 0 {
      assert num[0] == '.';
    }
  }

  /** The length of the key word a λ clause starts with, or 0. */
  function LamdaWord(part: string): (w: nat)
    ensures w == 0 || w == 5 || w == 6
    ensures w > 0 ==> |part| >= w && (part[..w] == "lamda" || part[..w] == "lambda")
  {
    if |part| >= 5 && part[..5] == "lamda" then 5
    else if |part| >= 6 && part[..6] == "lambda" then 6
    else 0
  }

  /** Matching the λ pattern: the key word, spaces, `=`, spaces, the number. */
  function LamdaPieces(part: string): (r: Option<(string, string, string, string)>)
    ensures r.Some? ==> LamdaShape(part, r.value.0, r.value.1, r.value.2, r.value.3)
  {
    var w := LamdaWord(part);
    if w == 0 then None
    else
      var t := part[w..];
      var a := PrefixWhile(t, IsBlank);
      if a == |t| || t[a] != '=' then None
      else
        var u := t[a + 1..];
        var b := PrefixWhile(u, IsBlank);
        if IsDecimalShape(u[b..]) then
          LamdaJoin(part, w, a, b);
          Some((part[..w], t[..a], u[..b], u[b..]))
        else None
  }

  lemma LamdaJoin(part: string, w: nat, a: nat, b: nat)
    requires w <= |part| && a < |part[w..]| && part[w..][a] == '=' && b <= |part[w..][a + 1..]|
    ensures var t := part[w..]; var u := t[a + 1..];
      part == part[..w] + t[..a] + "=" + u[..b] + u[b..]
  {
    var t := part[w..];
    var u := t[a + 1..];
    assert u == u[..b] + u[b..];
    assert t == t[..a] + "=" + u;
    assert part == part[..w] + t;
  }

  /** The λ pattern has one way to match. */
  lemma LamdaPiecesUnique(part: string, word: string, before: string, after: string, num: string)
    requires LamdaShape(part, word, before, after, num)
    ensures LamdaPieces(part) == Some((word, before, after, num))
  {
    var t := before + "=" + after + num;
    assert part == word + t;
    LamdaWordOf(part, word, t);
    LamdaTail(t, before, after, num);
    LamdaPiecesAt(part, t, word, before, after, num);
  }

  /** What `LamdaPieces` returns once its three scans are known. */
  lemma LamdaPiecesAt(part: string, t: string, word: string, before: string, after: string, num: string)
    requires LamdaWord(part) == |word| > 0 && part == word + t
    requires PrefixWhile(t, IsBlank) == |before| < |t| && t[..|before|] == before && t[|before|] == '='
    requires var u := t[|before| + 1..];
      PrefixWhile(u, IsBlank) == |after| && u[..|after|] == after && u[|after|..] == num
    requires IsDecimalShape(num)
    ensures LamdaPieces(part) == Some((word, before, after, num))
  {
    assert part[..|word|] == word && part[|word|..] == t;
  }

  /** The key word a λ clause starts with is found whole. */
  lemma LamdaWordOf(part: string, word: string, t: string)
    requires (word == "lamda" || word == "lambda") && part == word + t
    ensures LamdaWord(part) == |word|
  {
    assert part[..|word|] == word;
    if word == "lambda" {
      assert part[3] == 'b';
      assert part[..5] != "lamda";
    }
  }

  /** After the key word: the blanks, `=`, the blanks and the number are
      found as they were put together. */
  lemma LamdaTail(t: string, before: string, after: string, num: string)
    requires AllBlank(before) && AllBlank(after) && IsDecimalShape(num)
    requires t == before + "=" + after + num
    ensures PrefixWhile(t, IsBlank) == |before| && t[..|before|] == before && t[|before|] == '='
    ensures var u := t[|before| + 1..];
      PrefixWhile(u, IsBlank) == |after| && u[..|after|] == after && u[|after|..] == num
  {
    assert t == before + ("=" + after + num);
    PrefixWhileConcat(before, "=" + after + num, IsBlank);
    var u := t[|before| + 1..];
    assert u == after + num;
    if |num| > 0 {
      DecimalStartsNonBlank(num);
    }
    PrefixWhileConcat(after, num, IsBlank);
  }

  /** A λ clause holds an `=`, which no trial clause does. */
  lemma LamdaHasEquals(part: string, word: string, before: string, after: string, num: string)
    requires LamdaShape(part, word, before, after, num)
    ensures '=' in part
  {
    assert part[|word| + |before|] == '=';
  }

  lemma NoEqualsNoLamda(part: string)
    requires '=' !in part
    ensures LamdaPieces(part).None?
  {
    if LamdaPieces(part).Some? {
      var l := LamdaPieces(part).value;
      LamdaHasEquals(part, l.0, l.1, l.2, l.3);
      assert false;
    }
  }

  lemma TrialHasNoEquals(part: string, num: string, word: string, sign: string)
    requires TrialShape(part, num, word, sign)
    ensures '=' !in part
  {
    forall i | 0 <= i < |part| ensures part[i] != '=' {
      if i < |num| {
        assert part[i] == num[i];
      } else if i < |num| + |word| {
        assert part[i] == word[i - |num|];
      } else {
        assert part[i] == sign[i - |num| - |word|];
      }
    }
  }

  /** Python's `str.upper` on the characters a trial word can hold. */
  function UpperChar(c: char): char {
    if 'a' <= c <= 'z' then (c as int - 32) as char
    else if c == 'ñ' then 'Ñ'
    else c
  }

  /** `w.upper()`: each lower-case letter becomes the same capital and every
      other character is kept, so no lower-case letter is left. */
  function Upper(w: string): (r: string)
    ensures |r| == |w|
    ensures forall i :: 0 <= i < |w| && 'a' <= w[i] <= 'z' ==>
      'A' <= r[i] <= 'Z' && r[i] as int - 'A' as int == w[i] as int - 'a' as int
    ensures forall i :: 0 <= i < |w| && w[i] == 'ñ' ==> r[i] == 'Ñ'
    ensures forall i :: 0 <= i < |w| && !('a' <= w[i] <= 'z' || w[i] == 'ñ') ==> r[i] == w[i]
    ensures forall i :: 0 <= i < |r| ==> !('a' <= r[i] <= 'z' || r[i] == 'ñ')
  {
    seq(|w|, i requires 0 <= i < |w| => UpperChar(w[i]))
  }

  /** Upper-casing twice is upper-casing once. */
  lemma UpperIdempotent(w: string)
    ensures Upper(Upper(w)) == Upper(w)
  {
    var r := Upper(w);
    assert forall i :: 0 <= i < |r| ==> Upper(r)[i] == r[i];
  }

  /** `''.join(xs)`. */
  function Concat(xs: seq<string>): string {
    if |xs| == 0 then "" else xs[0] + Concat(xs[1..])
  }

  /** What one clause of a phase text says. */
  datatype Clause =
    | RandClause
    | LamdaClause(value: real)
    | TrialClause(count: nat, cs: string, sign: string)
    | BlankClause

  /** One clause of `Phase.__init__`, the branches tried in the source's
      order: the literal `rand`, the λ pattern (whose number `float` may
      reject), the trial pattern, a clause that strips to nothing, and
      otherwise a ValueError naming the clause and the phase text. */
  function ParseClause(part: string, text: string, split: Splitter): (r: Result<Clause>)
    ensures r == Ok(RandClause) <==> part == "rand"
    ensures r.Err? ==> r.error == CannotParse(part, text) || r.error.BadFloat?
    ensures r.Ok? && r.value.TrialClause? ==> r.value.sign == "+" || r.value.sign == "-"
    ensures r == Ok(BlankClause) ==> AllSpace(part)
  {
    if part == "rand" then Ok(RandClause)
    else if LamdaPieces(part).Some? then
      var v :- ParseDecimal(LamdaPieces(part).value.3);
      Ok(LamdaClause(v))
    else if TrialPieces(part).Some? then
      var pieces := TrialPieces(part).value;
      Ok(TrialClause(CountOf(pieces.0), Concat(split(Upper(pieces.1))), if pieces.2 == "" then "+" else pieces.2))
    else if Strip(part) == "" then Ok(BlankClause)
    else Err(CannotParse(part, text))
  }

  /** A clause of the λ form sets the phase's λ to its number, or fails in
      `float` when the number has no digit (`lambda=`, `lamda = .`). */
  lemma ClauseOfLamda(part: string, word: string, before: string, after: string, num: string, text: string, split: Splitter)
    requires LamdaShape(part, word, before, after, num)
    ensures HasDigit(num) ==> ParseClause(part, text, split) == Ok(LamdaClause(ParseDecimal(num).value))
    ensures !HasDigit(num) ==> ParseClause(part, text, split) == Err(BadFloat(num))
  {
    LamdaPiecesUnique(part, word, before, after, num);
    assert part != "rand" by {
      LamdaHasEquals(part, word, before, after, num);
    }
  }

  /** A clause of the trial form contributes its count (1 when no digits are
      written) of trials of the upper-cased, re-split CS, with '+' when no
      sign is written. */
  lemma ClauseOfTrial(part: string, num: string, word: string, sign: string, text: string, split: Splitter)
    requires TrialShape(part, num, word, sign) && part != "rand"
    ensures ParseClause(part, text, split) == Ok(TrialClause(CountOf(num), Concat(split(Upper(word))), if sign == "" then "+" else sign))
  {
    TrialPiecesUnique(part, num, word, sign);
    assert LamdaPieces(part).None? by {
      TrialHasNoEquals(part, num, word, sign);
      NoEqualsNoLamda(part);
    }
  }

  /** A clause is rejected by name exactly when it is not `rand`, matches
      neither pattern, and is not blank. */
  lemma ClauseRejected(part: string, text: string, split: Splitter)
    ensures ParseClause(part, text, split) == Err(CannotParse(part, text)) <==>
      && part != "rand"
      && (forall w, a, b, n :: !LamdaShape(part, w, a, b, n))
      && (forall n, w, s :: !TrialShape(part, n, w, s))
      && !AllSpace(part)
  {
    NoLamdaShape(part);
    NoTrialShape(part);
    assert AllSpace(part) <==> Strip(part) == "";
    RejectedPieces(part, text, split);
  }

  lemma NoLamdaShape(part: string)
    ensures (forall w, a, b, n :: !LamdaShape(part, w, a, b, n)) <==> LamdaPieces(part).None?
  {
    forall w, a, b, n | LamdaShape(part, w, a, b, n) ensures LamdaPieces(part).Some? {
      LamdaPiecesUnique(part, w, a, b, n);
    }
  }

  lemma NoTrialShape(part: string)
    ensures (forall n, w, s :: !TrialShape(part, n, w, s)) <==> TrialPieces(part).None?
  {
    forall n, w, s | TrialShape(part, n, w, s) ensures TrialPieces(part).Some? {
      TrialPiecesUnique(part, n, w, s);
    }
  }

  /** Rejection in terms of what the matchers return. */
  lemma RejectedPieces(part: string, text: string, split: Splitter)
    ensures ParseClause(part, text, split) == Err(CannotParse(part, text)) <==>
      part != "rand" && LamdaPieces(part).None? && TrialPieces(part).None? && Strip(part) != ""
  {
  }

  /** A clause that is not `rand`, matches neither pattern and is not blank
      is rejected by name. */
  lemma Unparsed(part: string, text: string, split: Splitter, i: nat)
    requires part != "rand" && '=' !in part && TrialPieces(part).None?
    requires i < |part| && !IsSpace(part[i])
    ensures ParseClause(part, text, split) == Err(CannotParse(part, text))
  {
    NoEqualsNoLamda(part);
    StripKeeps(part, i);
  }

  /** A doubled sign is no sign. */
  lemma DoubledSignRejected(text: string, split: Splitter)
    ensures ParseClause("A++", text, split) == Err(CannotParse("A++", text))
  {
    var part := "A++";
    assert TrialPieces(part).None? by {
      assert PrefixWhile(part, IsDigit) == 0;
      assert part[0..] == part && part[..2] == "A+";
      assert !IsCsWord("A+") by { assert "A+"[1] == '+' && !IsLetter('+'); }
    }
    assert part[0] == 'A' && '=' !in part;
    Unparsed(part, text, split, 0);
  }

  /** The phase text is stripped as a whole, not clause by clause: a space
      before a slash leaves a clause that matches no form. */
  lemma TrailingSpaceRejected(text: string, split: Splitter)
    ensures ParseClause("A+ ", text, split) == Err(CannotParse("A+ ", text))
  {
    var part := "A+ ";
    assert TrialPieces(part).None? by {
      assert PrefixWhile(part, IsDigit) == 0;
      assert part[0..] == part;
      assert !IsCsWord(part) by { assert part[1] == '+' && !IsLetter('+'); }
    }
    assert part[0] == 'A' && '=' !in part;
    Unparsed(part, text, split, 0);
  }

  /** Nor may a space follow a slash. */
  lemma LeadingSpaceRejected(text: string, split: Splitter)
    ensures ParseClause(" B", text, split) == Err(CannotParse(" B", text))
  {
    var part := " B";
    assert TrialPieces(part).None? by {
      assert PrefixWhile(part, IsDigit) == 0;
      assert part[0..] == part;
      assert !IsCsWord(part) by { assert !IsLetter(' '); }
    }
    assert part[1] == 'B' && '=' !in part;
    Unparsed(part, text, split, 1);
  }

  /** A λ clause without a number fails in `float`. */
  lemma EmptyLamdaRejected(text: string, split: Splitter)
    ensures ParseClause("lambda=", text, split) == Err(BadFloat(""))
  {
    assert "lambda=" == "lambda" + "" + "=" + "" + "";
    ClauseOfLamda("lambda=", "lambda", "", "", "", text, split);
  }

  /** A written count repeats the trial and the sign is kept. */
  lemma CountedTwice(text: string, split: Splitter)
    ensures ParseClause("2AB-", text, split) == Ok(TrialClause(2, Concat(split("AB")), "-"))
  {
    assert "2AB-" == "2" + "AB" + "-";
    assert IsCsWord("AB");
    assert Upper("AB") == "AB";
    assert DigitsValue("2") == 2 by {
      assert "2"[..0] == "";
    }
    ClauseOfTrial("2AB-", "2", "AB", "-", text, split);
  }

  /** A written zero count is allowed, lower-case letters are upper-cased
      and a missing sign means '+'. */
  lemma CountedNever(text: string, split: Splitter)
    ensures ParseClause("0a", text, split) == Ok(TrialClause(0, Concat(split("A")), "+"))
  {
    assert "0a" == "0" + "a" + "";
    assert IsCsWord("a");
    assert Upper("a") == "A";
    assert DigitsValue("0") == 0 by {
      assert "0"[..0] == "";
    }
    ClauseOfTrial("0a", "0", "a", "", text, split);
  }

  /** `int(num or '1') * [(cs, sign or '+')]`. */
  function Repeat(t: Trial, n: nat): (r: seq<Trial>)
    ensures |r| == n && forall i :: 0 <= i < n ==> r[i] == t
  {
    seq(n, i => t)
  }

  /** What a clause does to the phase being built. */
  function Apply(p: Phase, c: Clause): Phase {
    match c
    case RandClause => p.(rand := true)
    case LamdaClause(v) => p.(lamda := Some(v))
    case TrialClause(n, cs, sign) => p.(elems := p.elems + Repeat((cs, sign), n))
    case BlankClause => p
  }

  /** How each clause of a text is read. The loop over the clauses is the
      same whatever the reader. */
  type Reader = string -> Result<Clause>

  /** The reader of a phase text: `ParseClause` with the text and splitter. */
  function ClauseReader(text: string, split: Splitter): Reader {
    part => ParseClause(part, text, split)
  }

  /** The loop of `Phase.__init__` over the clauses, stopping at the first
      clause that raises. */
  function ParseClauses(parts: seq<string>, read: Reader, p: Phase): (r: Result<Phase>)
    ensures r.Ok? ==> r.value.text == p.text
    ensures r.Ok? ==> |r.value.elems| >= |p.elems| && r.value.elems[..|p.elems|] == p.elems
  {
    if |parts| == 0 then Ok(p)
    else
      var c :- read(parts[0]);
      ParseClauses(parts[1..], read, Apply(p, c))
  }

  /** The clauses of a phase text: the stripped text split at '/'. */
  function Parts(text: string): seq<string> {
    Split(Strip(text), '/')
  }

  /** `Phase(phase_str)`. */
  function ParsePhase(text: string, split: Splitter): (r: Result<Phase>)
    ensures r.Ok? ==> r.value.text == text
  {
    ParseClauses(Parts(text), ClauseReader(text, split), Phase(text, [], false, None))
  }

  /** Every clause read on its own, in order, stopping at the first error. */
  function ParseAll(parts: seq<string>, read: Reader): (r: Result<seq<Clause>>)
    ensures r.Ok? <==> forall i :: 0 <= i < |parts| ==> read(parts[i]).Ok?
    ensures r.Ok? ==> |r.value| == |parts| && forall i :: 0 <= i < |parts| ==> read(parts[i]) == Ok(r.value[i])
    ensures r.Err? ==> exists i :: (0 <= i < |parts| && read(parts[i]) == Err(r.error) &&
      (forall j :: 0 <= j < i ==> read(parts[j]).Ok?))
  {
    if |parts| == 0 then Ok([])
    else
      var c :- read(parts[0]);
      var rest :- ParseAll(parts[1..], read);
      Ok([c] + rest)
  }

  /** The trials a list of clauses contributes, in written order. */
  function TrialsOf(cs: seq<Clause>): seq<Trial> {
    if |cs| == 0 then []
    else (if cs[0].TrialClause? then Repeat((cs[0].cs, cs[0].sign), cs[0].count) else []) + TrialsOf(cs[1..])
  }

  /** The value of the last λ clause, if there is one. */
  function LastLamda(cs: seq<Clause>): Option<real> {
    if |cs| == 0 then None
    else if LastLamda(cs[1..]).Some? then LastLamda(cs[1..])
    else if cs[0].LamdaClause? then Some(cs[0].value)
    else None
  }

  /** The loop succeeds exactly when every clause reads, and otherwise
      fails with the first failing clause's error. */
  lemma {:induction false} ParseClausesSucceeds(parts: seq<string>, read: Reader, p: Phase)
    ensures ParseClauses(parts, read, p).Ok? <==> ParseAll(parts, read).Ok?
    ensures ParseClauses(parts, read, p).Err? ==> ParseClauses(parts, read, p).error == ParseAll(parts, read).error
    decreases |parts|
  {
    if |parts| > 0 && read(parts[0]).Ok? {
      ParseClausesSucceeds(parts[1..], read, Apply(p, read(parts[0]).value));
    }
  }

  /** The phase a list of clauses builds on top of `p`: the trials of the
      trial clauses appended in order, the flag raised by any `rand`, the
      last λ clause's value. */
  function Built(p: Phase, cs: seq<Clause>): Phase {
    Phase(p.text, p.elems + TrialsOf(cs), p.rand || RandClause in cs, if LastLamda(cs).Some? then LastLamda(cs) else p.lamda)
  }

  /** Applying the first clause and building the rest is building them all. */
  lemma BuiltCons(p: Phase, c: Clause, tail: seq<Clause>)
    ensures Built(Apply(p, c), tail) == Built(p, [c] + tail)
  {
    var cs := [c] + tail;
    assert cs[1..] == tail;
    assert RandClause in cs <==> c == RandClause || RandClause in tail;
    assert p.elems + TrialsOf(cs) == Apply(p, c).elems + TrialsOf(tail);
  }

  /** What the loop builds: `Built` over the clauses read. */
  lemma {:induction false} ParseClausesContent(parts: seq<string>, read: Reader, p: Phase)
    requires ParseAll(parts, read).Ok?
    ensures ParseClauses(parts, read, p).Ok?
    ensures ParseClauses(parts, read, p).value == Built(p, ParseAll(parts, read).value)
    decreases |parts|
  {
    ParseClausesSucceeds(parts, read, p);
    if |parts| > 0 {
      var c := read(parts[0]).value;
      var tail := ParseAll(parts[1..], read).value;
      assert ParseAll(parts, read).value == [c] + tail;
      ParseClausesContent(parts[1..], read, Apply(p, c));
      assert ParseClauses(parts, read, p) == ParseClauses(parts[1..], read, Apply(p, c));
      BuiltCons(p, c, tail);
    }
  }

  /** What a phase text means: it parses exactly when every clause does, the
      error is the first failing clause's, and the phase holds the trials of
      the trial clauses in written order, is random when some clause is
      `rand`, and takes the last λ clause's value. */
  lemma ParsePhaseMeaning(text: string, split: Splitter)
    ensures ParsePhase(text, split).Ok? <==> ParseAll(Parts(text), ClauseReader(text, split)).Ok?
    ensures ParsePhase(text, split).Err? ==> ParsePhase(text, split).error == ParseAll(Parts(text), ClauseReader(text, split)).error
    ensures ParsePhase(text, split).Ok? ==>
      var cs := ParseAll(Parts(text), ClauseReader(text, split)).value;
      ParsePhase(text, split).value == Phase(text, TrialsOf(cs), RandClause in cs, LastLamda(cs))
  {
    ParseClausesSucceeds(Parts(text), ClauseReader(text, split), Phase(text, [], false, None));
    if ParsePhase(text, split).Ok? {
      ParseClausesContent(Parts(text), ClauseReader(text, split), Phase(text, [], false, None));
      var cs := ParseAll(Parts(text), ClauseReader(text, split)).value;
      assert [] + TrialsOf(cs) == TrialsOf(cs);
    }
  }

  /** `Phase.cs`: the union of the listed names of every trial's CS, empty
      for a phase without trials. */
  function PhaseCs(elems: seq<Trial>, listCs: Splitter): (r: set<string>)
    ensures elems == [] ==> r == {}
    ensures forall x :: x in r <==> exists i :: 0 <= i < |elems| && x in listCs(elems[i].0)
  {
    if |elems| == 0 then {}
    else
      var rest := PhaseCs(elems[1..], listCs);
      assert forall x :: x in rest <==> exists i :: 1 <= i < |elems| && x in listCs(elems[i].0) by {
        forall x | x in rest ensures exists i :: 1 <= i < |elems| && x in listCs(elems[i].0) {
          var i :| 0 <= i < |elems[1..]| && x in listCs(elems[1..][i].0);
          assert x in listCs(elems[i + 1].0);
        }
        forall x, i | 1 <= i < |elems| && x in listCs(elems[i].0) ensures x in rest {
          assert elems[1..][i - 1] == elems[i];
        }
      }
      (set x | x in listCs(elems[0].0)) + rest
  }

  /** `{cs for cs, _ in self.elems}`. */
  function TrialNames(elems: seq<Trial>): set<string> {
    set i | 0 <= i < |elems| :: elems[i].0
  }

  /** `Phase.compound_cs`: the phase's names and its trials' compounds,
      each once, sorted by length without the marks `'`, `(`, `)` and then
      by code point. */
  function CompoundCs(p: Phase, listCs: Splitter): (r: seq<string>)
    ensures forall x :: x in PhaseCs(p.elems, listCs) ==> x in r
    ensures forall i :: 0 <= i < |p.elems| ==> p.elems[i].0 in r
    ensures forall x :: x in r ==> x in PhaseCs(p.elems, listCs) || exists i :: 0 <= i < |p.elems| && p.elems[i].0 == x
    ensures StrictlySorted(ByStrippedLength, r)
  {
    var names := PhaseCs(p.elems, listCs) + TrialNames(p.elems);
    assert forall i :: 0 <= i < |p.elems| ==> p.elems[i].0 in names;
    SortSet(ByStrippedLength, names)
  }

  /** Shuffling a phase's trials does not change its compound names, so the
      report after a randomised phase lists the same CS. */
  lemma CompoundCsIgnoresOrder(p: Phase, q: Phase, listCs: Splitter)
    requires multiset(p.elems) == multiset(q.elems)
    ensures CompoundCs(p, listCs) == CompoundCs(q, listCs)
  {
    forall t ensures t in p.elems <==> t in q.elems {
      assert t in p.elems <==> t in multiset(p.elems);
      assert t in q.elems <==> t in multiset(q.elems);
    }
    forall x | x in PhaseCs(p.elems, listCs) ensures x in PhaseCs(q.elems, listCs) {
      var i :| 0 <= i < |p.elems| && x in listCs(p.elems[i].0);
      assert p.elems[i] in q.elems;
      var j :| 0 <= j < |q.elems| && q.elems[j] == p.elems[i];
    }
    forall x | x in PhaseCs(q.elems, listCs) ensures x in PhaseCs(p.elems, listCs) {
      var i :| 0 <= i < |q.elems| && x in listCs(q.elems[i].0);
      assert q.elems[i] in p.elems;
      var j :| 0 <= j < |p.elems| && p.elems[j] == q.elems[i];
    }
    forall x | x in TrialNames(p.elems) ensures x in TrialNames(q.elems) {
      var i :| 0 <= i < |p.elems| && p.elems[i].0 == x;
      assert p.elems[i] in q.elems;
      var j :| 0 <= j < |q.elems| && q.elems[j] == p.elems[i];
    }
    forall x | x in TrialNames(q.elems) ensures x in TrialNames(p.elems) {
      var i :| 0 <= i < |q.elems| && q.elems[i].0 == x;
      assert q.elems[i] in p.elems;
      var j :| 0 <= j < |p.elems| && p.elems[j] == q.elems[i];
    }
    assert PhaseCs(p.elems, listCs) == PhaseCs(q.elems, listCs);
    assert TrialNames(p.elems) == TrialNames(q.elems);
  }
}
