/** `Simulator.match_args` and its use in `parse_args`: per-CS parameters
    given on the command line as `--alpha-A=0.4`, `--salience_(AB)=0.2`, …,
    collected pass by pass, whatever no pass claims being an error. */
module Arguments {
  import opened Errors
  import opened Text

  /** `[A-Z]|\([A-Z]+\)`: one capital, or capitals in parentheses. */
  predicate IsCsName(cs: string) {
    || (|cs| == 1 && IsAsciiUpper(cs[0]))
    || (|cs| >= 3 && cs[0] == '(' && cs[|cs| - 1] == ')' && forall i :: 1 <= i < |cs| - 1 ==> IsAsciiUpper(cs[i]))
  }

  /** The part of the pattern after the CS name, `\s*=?\s*([0-9]*\.?[0-9]*)`,
      matching all of `tail`, with these pieces. */
  predicate TailShape(tail: string, before: string, eq: string, after: string, num: string) {
    && AllSpace(before) && (eq == "" || eq == "=") && AllSpace(after)
    && IsDecimalShape(num)
    && tail == before + eq + after + num
  }

  /** The whole pattern `--{name}[-_]([A-Z]|\([A-Z]+\))\s*=?\s*([0-9]*\.?[0-9]*)`
      matching all of `arg`, with these pieces. */
  predicate ArgShape(arg: string, name: string, sep: char, cs: string, before: string, eq: string, after: string, num: string) {
    && (sep == '-' || sep == '_')
    && IsCsName(cs)
    && TailShape(before + eq + after + num, before, eq, after, num)
    && arg == "--" + name + [sep] + cs + (before + eq + after + num)
  }

  /** The pieces of one match; `cs` and `num` are the two groups. */
  datatype ArgMatch = ArgMatch(sep: char, cs: string, before: string, eq: string, after: string, num: string)

  /** The length of the CS name `u` starts with, 0 when there is none. */
  function CsNameLength(u: string): (n: nat)
    ensures n <= |u|
    ensures n > 0 ==> IsCsName(u[..n])
  {
    if |u| > 0 && IsAsciiUpper(u[0]) then 1
    else if |u| > 0 && u[0] == '(' then
      var m := PrefixWhile(u[1..], IsAsciiUpper);
      if m > 0 && m + 1 < |u| && u[m + 1] == ')' then
        BracketedName(u, m);
        m + 2
      else 0
    else 0
  }

  lemma BracketedName(u: string, m: nat)
    requires 0 < m && m + 1 < |u| && u[0] == '(' && u[m + 1] == ')'
    requires forall i :: 0 <= i < m ==> IsAsciiUpper(u[1..][i])
    ensures IsCsName(u[..m + 2])
  {
    var c := u[..m + 2];
    forall i | 1 <= i < |c| - 1 ensures IsAsciiUpper(c[i]) {
      assert c[i] == u[1..][i - 1];
    }
  }

  /** The run of spaces `PrefixWhile` finds is all spaces. */
  lemma SpaceRun(t: string)
    ensures AllSpace(t[..PrefixWhile(t, IsSpace)])
  {
    var a := PrefixWhile(t, IsSpace);
    forall i | 0 <= i < a ensures IsSpace(t[..a][i]) {
      assert t[..a][i] == t[i];
    }
  }

  /** A CS name followed by anything is found whole. */
  lemma CsNameUnique(cs: string, tail: string)
    requires IsCsName(cs)
    ensures CsNameLength(cs + tail) == |cs|
  {
    var u := cs + tail;
    if |cs| != 1 {
      var mid := cs[1..|cs| - 1];
      assert u[1..] == mid + ([')'] + tail);
      PrefixWhileConcat(mid, [')'] + tail, IsAsciiUpper);
      assert u[|cs| - 1] == ')';
    }
  }

  /** Matching the tail of the pattern from left to right: the spaces, an
      optional `=`, then the rest. */
  function TailPieces(tail: string): (r: Option<(string, string, string, string)>)
    ensures r.Some? ==> TailShape(tail, r.value.0, r.value.1, r.value.2, r.value.3)
  {
    var a := PrefixWhile(tail, IsSpace);
    SpaceRun(tail);
    if a < |tail| && tail[a] == '=' then
      assert tail[a..a + 1] == "=";
      TailFrom(tail, a, "=", tail[a + 1..])
    else
      assert tail[a..a] == "";
      TailFrom(tail, a, "", tail[a..])
  }

  /** The rest of the tail after the spaces `tail[..a]` and the optional
      `eq`: more spaces, then the number, which must be all that is left. */
  function TailFrom(tail: string, a: nat, eq: string, w: string): (r: Option<(string, string, string, string)>)
    requires a <= |tail| && AllSpace(tail[..a]) && (eq == "" || eq == "=")
    requires a + |eq| <= |tail| && tail[a..a + |eq|] == eq && w == tail[a + |eq|..]
    ensures r.Some? <==> IsDecimalShape(w[PrefixWhile(w, IsSpace)..])
    ensures r.Some? ==> TailShape(tail, r.value.0, r.value.1, r.value.2, r.value.3)
    ensures r.Some? ==> r.value.3 == w[PrefixWhile(w, IsSpace)..]
  {
    var b := PrefixWhile(w, IsSpace);
    if !IsDecimalShape(w[b..]) then None
    else
      SpaceRun(w);
      TailCut(tail, a, eq, w, b);
      Some((tail[..a], eq, w[..b], w[b..]))
  }

  /** The cuts `TailPieces` makes put the tail back together. */
  lemma TailCut(tail: string, a: nat, eq: string, w: string, b: nat)
    requires a <= |tail| && AllSpace(tail[..a]) && (eq == "" || eq == "=")
    requires a + |eq| <= |tail| && tail[a..a + |eq|] == eq && w == tail[a + |eq|..]
    requires b <= |w| && AllSpace(w[..b]) && IsDecimalShape(w[b..])
    ensures TailShape(tail, tail[..a], eq, w[..b], w[b..])
  {
    Rejoin(tail, a, eq, b);
  }

  /** Cutting a text at `i`, after the piece `e` there, and `k` further on,
      and putting it back together. */
  lemma Rejoin(t: string, i: nat, e: string, k: nat)
    requires i + |e| <= |t| && t[i..i + |e|] == e && k <= |t| - i - |e|
    ensures t == t[..i] + e + t[i + |e|..][..k] + t[i + |e|..][k..]
  {
    var w := t[i + |e|..];
    assert w == w[..k] + w[k..];
    assert t == t[..i] + t[i..i + |e|] + w;
  }

  lemma DecimalStartsNonSpace(num: string)
    requires IsDecimalShape(num) && |num| > 0
    ensures !IsSpace(num[0]) && num[0] != '='
  {
    var n := PrefixWhile(num, IsDigit);
    if n == 0 {
      assert num[0] == '.';
    }
  }

  /** The tail has one way to match, as far as the number goes. */
  lemma TailPiecesUnique(tail: string, before: string, eq: string, after: string, num: string)
    requires TailShape(tail, before, eq, after, num)
    ensures TailPieces(tail).Some? && TailPieces(tail).value.3 == num
  {
    if |num| > 0 {
      DecimalStartsNonSpace(num);
    }
    if eq == "=" {
      TailWithEquals(tail, before, after, num);
    } else {
      TailWithoutEquals(tail, before + after, num);
    }
  }

  lemma TailWithEquals(tail: string, before: string, after: string, num: string)
    requires AllSpace(before) && AllSpace(after) && IsDecimalShape(num)
    requires |num| > 0 ==> !IsSpace(num[0])
    requires tail == before + "=" + after + num
    ensures TailPieces(tail).Some? && TailPieces(tail).value.3 == num
  {
    var rest := after + num;
    assert tail == before + ("=" + rest);
    PrefixWhileConcat(before, "=" + rest, IsSpace);
    assert PrefixWhile(tail, IsSpace) == |before|;
    assert tail[|before|] == '=';
    assert tail[|before| + 1..] == rest;
    PrefixWhileConcat(after, num, IsSpace);
    assert PrefixWhile(rest, IsSpace) == |after|;
    assert rest[|after|..] == num;
  }

  lemma TailWithoutEquals(tail: string, spaces: string, num: string)
    requires AllSpace(spaces) && IsDecimalShape(num)
    requires |num| > 0 ==> !IsSpace(num[0]) && num[0] != '='
    requires tail == spaces + num
    ensures TailPieces(tail).Some? && TailPieces(tail).value.3 == num
  {
    PrefixWhileConcat(spaces, num, IsSpace);
    assert tail[|spaces|..] == num;
    assert PrefixWhile(num, IsSpace) == 0;
    assert num[0..] == num;
  }

  /** Matching the whole pattern from left to right. */
  function ArgPieces(name: string, arg: string): (r: Option<ArgMatch>)
    ensures r.Some? ==> ArgShape(arg, name, r.value.sep, r.value.cs, r.value.before, r.value.eq, r.value.after, r.value.num)
  {
    var k := |name| + 2;
    if |arg| <= k || arg[..k] != "--" + name || (arg[k] != '-' && arg[k] != '_') then None
    else
      var n := CsNameLength(arg[k + 1..]);
      if n == 0 then None
      else
        match TailPieces(arg[k + 1 + n..])
        case None => None
        case Some(p) =>
          ArgAssembly(arg, k, n, p.0 + p.1 + p.2 + p.3);
          Some(ArgMatch(arg[k], arg[k + 1..k + 1 + n], p.0, p.1, p.2, p.3))
  }

  lemma ArgAssembly(arg: string, k: nat, n: nat, tail: string)
    requires k < |arg| && n <= |arg| - (k + 1)
    requires tail == arg[k + 1 + n..]
    ensures arg == arg[..k] + [arg[k]] + arg[k + 1..k + 1 + n] + tail
    ensures arg[k + 1..][..n] == arg[k + 1..k + 1 + n]
  {
  }

  /** The pattern has one way to match, as far as its groups go. */
  lemma ArgPiecesUnique(arg: string, name: string, sep: char, cs: string, before: string, eq: string, after: string, num: string)
    requires ArgShape(arg, name, sep, cs, before, eq, after, num)
    ensures ArgPieces(name, arg).Some?
    ensures ArgPieces(name, arg).value.cs == cs && ArgPieces(name, arg).value.num == num
  {
    var tail := before + eq + after + num;
    TailPiecesUnique(tail, before, eq, after, num);
    ArgPiecesOf(arg, "--" + name, sep, cs, tail);
  }

  lemma ArgPiecesOf(arg: string, prefix: string, sep: char, cs: string, tail: string)
    requires IsCsName(cs) && (sep == '-' || sep == '_')
    requires arg == prefix + [sep] + cs + tail
    ensures |arg| > |prefix| && arg[..|prefix|] == prefix && arg[|prefix|] == sep
    ensures CsNameLength(arg[|prefix| + 1..]) == |cs|
    ensures arg[|prefix| + 1..|prefix| + 1 + |cs|] == cs
    ensures arg[|prefix| + 1 + |cs|..] == tail
  {
    assert arg == prefix + ([sep] + (cs + tail));
    assert arg[|prefix| + 1..] == cs + tail;
    CsNameUnique(cs, tail);
  }

  /** What one pass reads from one argument: nothing when the pattern does
      not claim it, else the CS group and what `float` makes of the number. */
  type Reader = string -> Option<(string, Result<real>)>

  function Reading(name: string): Reader {
    (arg: string) => ReadArg(name, arg)
  }

  function ReadArg(name: string, arg: string): (r: Option<(string, Result<real>)>)
    ensures r.Some? <==> ArgPieces(name, arg).Some?
    ensures r.Some? ==> r.value == (ArgPieces(name, arg).value.cs, ParseDecimal(ArgPieces(name, arg).value.num))
  {
    match ArgPieces(name, arg)
    case None => None
    case Some(m) => Some((m.cs, ParseDecimal(m.num)))
  }

  predicate Claims(name: string, arg: string) {
    ArgPieces(name, arg).Some?
  }

  /** The per-CS values a pass collected and the arguments it left. */
  datatype Matched = Matched(values: map<string, real>, rest: seq<string>)

  /** The arguments `read` does not claim, front to back. */
  function Left(read: Reader, args: seq<string>): seq<string>
  {
    if |args| == 0 then [] else (if read(args[0]).None? then [args[0]] else []) + Left(read, args[1..])
  }

  /** The arguments `read` leaves of `args` are those it leaves of all but
      the last, then the last one when it is not claimed. */
  lemma {:induction false} LeftSnoc(read: Reader, args: seq<string>)
    requires |args| > 0
    ensures Left(read, args) == Left(read, args[..|args| - 1]) + (if read(args[|args| - 1]).None? then [args[|args| - 1]] else [])
    decreases |args|
  {
    var n := |args| - 1;
    if n > 0 {
      assert args[1..][..n - 1] == args[..n][1..];
      assert args[1..][n - 1] == args[n];
      LeftSnoc(read, args[1..]);
    }
  }

  /** `args[i]` is the first argument `read` claims whose number fails, with
      error `e`. */
  predicate FirstFails(read: Reader, args: seq<string>, i: int, e: Error) {
    && 0 <= i < |args| && read(args[i]).Some? && read(args[i]).value.1 == Err(e)
    && forall j :: 0 <= j < i && read(args[j]).Some? ==> read(args[j]).value.1.Ok?
  }

  /** The first failure among some arguments is the first among more. */
  lemma FirstFailsGrows(read: Reader, args: seq<string>, n: nat, e: Error)
    requires n <= |args| && exists i :: FirstFails(read, args[..n], i, e)
    ensures exists i :: FirstFails(read, args, i, e)
    ensures !forall i :: 0 <= i < |args| && read(args[i]).Some? ==> read(args[i]).value.1.Ok?
  {
    var i :| FirstFails(read, args[..n], i, e);
    assert args[..n][i] == args[i];
    forall j | 0 <= j < i ensures args[..n][j] == args[j] {
    }
    assert FirstFails(read, args, i, e);
  }

  /** What a pass over `args` yields: it succeeds when every claimed number
      converts, else fails with the first failure; it leaves the unclaimed
      arguments in order and has a value for every CS some argument names. */
  ghost predicate PassOutcome(read: Reader, args: seq<string>, r: Result<Matched>) {
    && (r.Ok? <==> forall i :: 0 <= i < |args| && read(args[i]).Some? ==> read(args[i]).value.1.Ok?)
    && (r.Err? ==> exists i :: FirstFails(read, args, i, r.error))
    && (r.Ok? ==> forall a :: a in r.value.rest <==> a in args && read(a).None?)
    && (r.Ok? ==> r.value.rest == Left(read, args))
    && (r.Ok? ==> forall k :: k in r.value.values <==> exists i :: 0 <= i < |args| && read(args[i]).Some? && read(args[i]).value.0 == k)
  }

  /** One iteration of the loop of `match_args`. */
  function PassStep(read: Reader, prev: Result<Matched>, arg: string): Result<Matched> {
    var before :- prev;
    var got := read(arg);
    if got.None? then Ok(before.(rest := before.rest + [arg]))
    else if got.value.1.Err? then Err(got.value.1.error)
    else Ok(before.(values := before.values[got.value.0 := got.value.1.value]))
  }

  /** One more argument keeps what a pass yields. */
  lemma PassStepOutcome(read: Reader, args: seq<string>, prev: Result<Matched>)
    requires |args| > 0 && PassOutcome(read, args[..|args| - 1], prev)
    ensures PassOutcome(read, args, PassStep(read, prev, args[|args| - 1]))
  {
    var n := |args| - 1;
    assert forall i :: 0 <= i < n ==> args[..n][i] == args[i];
    assert args == args[..n] + [args[n]];
    var r := PassStep(read, prev, args[n]);
    if prev.Err? {
      FirstFailsGrows(read, args, n, prev.error);
    } else {
      LeftSnoc(read, args);
      if read(args[n]).Some? && read(args[n]).value.1.Err? {
        assert FirstFails(read, args, n, r.error);
      }
    }
  }

  /** The loop of `match_args`: the arguments the reader claims give the
      value of their CS (a later one replacing an earlier), the others are
      left in order; the first claimed argument whose number `float`
      rejects fails the pass. */
  function MatchWith(read: Reader, args: seq<string>): (r: Result<Matched>)
    ensures r.Ok? <==> forall i :: 0 <= i < |args| && read(args[i]).Some? ==> read(args[i]).value.1.Ok?
    ensures r.Err? ==> exists i :: FirstFails(read, args, i, r.error)
    ensures r.Ok? ==> forall a :: a in r.value.rest <==> a in args && read(a).None?
    ensures r.Ok? ==> r.value.rest == Left(read, args)
    ensures r.Ok? ==> forall k :: k in r.value.values <==> exists i :: 0 <= i < |args| && read(args[i]).Some? && read(args[i]).value.0 == k
    decreases |args|
  {
    if |args| == 0 then Ok(Matched(map[], []))
    else
      var prev := MatchWith(read, args[..|args| - 1]);
      PassStepOutcome(read, args, prev);
      PassStep(read, prev, args[|args| - 1])
  }

  /** `Simulator.match_args`. */
  function MatchArgs(name: string, args: seq<string>): (r: Result<Matched>)
  {
    MatchWith(Reading(name), args)
  }

  /** The last argument naming a CS gives its value. */
  lemma LastWins(read: Reader, args: seq<string>, i: nat)
    requires MatchWith(read, args).Ok? && i < |args| && read(args[i]).Some?
    requires forall j :: i < j < |args| && read(args[j]).Some? ==> read(args[j]).value.0 != read(args[i]).value.0
    ensures read(args[i]).value.1.Ok?
    ensures read(args[i]).value.0 in MatchWith(read, args).value.values
    ensures MatchWith(read, args).value.values[read(args[i]).value.0] == read(args[i]).value.1.value
  {
    MatchValues(read, args);
    LastWinsValues(read, args, i);
  }

  /** The values the claimed arguments give, front to back, a later one
      replacing an earlier. */
  function Values(read: Reader, args: seq<string>): map<string, real>
  {
    if |args| == 0 then map[]
    else
      var v := Values(read, args[..|args| - 1]);
      var got := read(args[|args| - 1]);
      if got.Some? && got.value.1.Ok? then v[got.value.0 := got.value.1.value] else v
  }

  /** A pass that succeeds collects exactly those values. */
  lemma {:induction false} MatchValues(read: Reader, args: seq<string>)
    requires MatchWith(read, args).Ok?
    ensures MatchWith(read, args).value.values == Values(read, args)
    decreases |args|
  {
    if |args| > 0 {
      MatchLast(read, args);
      MatchValues(read, args[..|args| - 1]);
    }
  }

  lemma {:induction false} LastWinsValues(read: Reader, args: seq<string>, i: nat)
    requires i < |args| && read(args[i]).Some? && read(args[i]).value.1.Ok?
    requires forall j :: i < j < |args| && read(args[j]).Some? ==> read(args[j]).value.0 != read(args[i]).value.0
    ensures read(args[i]).value.0 in Values(read, args)
    ensures Values(read, args)[read(args[i]).value.0] == read(args[i]).value.1.value
    decreases |args|
  {
    var n := |args| - 1;
    if i < n {
      assert forall j :: 0 <= j < n ==> args[..n][j] == args[j];
      LastWinsValues(read, args[..n], i);
    }
  }

  /** A pass over the arguments is a pass over all but the last, with the
      last one's value added when the reader claims it. */
  lemma MatchLast(read: Reader, args: seq<string>)
    requires |args| > 0 && MatchWith(read, args).Ok?
    ensures var n := |args| - 1; var before := MatchWith(read, args[..n]);
      && before.Ok?
      && (read(args[n]).Some? ==> read(args[n]).value.1.Ok?)
      && (read(args[n]).Some? ==>
            MatchWith(read, args).value.values == before.value.values[read(args[n]).value.0 := read(args[n]).value.1.value])
      && (read(args[n]).None? ==> MatchWith(read, args).value.values == before.value.values)
      && (read(args[n]).Some? ==> read(args[n]).value.0 in MatchWith(read, args).value.values)
      && (read(args[n]).Some? ==>
            MatchWith(read, args).value.values[read(args[n]).value.0] == read(args[n]).value.1.value)
  {
    var n := |args| - 1;
    var prev := MatchWith(read, args[..n]);
    assert MatchWith(read, args) == PassStep(read, prev, args[n]);
  }

  /** What a pass leaves, a second pass with the same reader leaves alone. */
  lemma {:induction false} MatchSettles(read: Reader, args: seq<string>)
    requires MatchWith(read, args).Ok?
    ensures MatchWith(read, MatchWith(read, args).value.rest) == Ok(Matched(map[], MatchWith(read, args).value.rest))
    decreases |args|
  {
    if |args| > 0 {
      var n := |args| - 1;
      MatchSettles(read, args[..n]);
      var rest := MatchWith(read, args[..n]).value.rest;
      if read(args[n]).None? {
        var more := rest + [args[n]];
        assert more[..|rest|] == rest && more[|rest|] == args[n];
        assert MatchWith(read, args).value.rest == more;
        assert MatchWith(read, more) == Ok(Matched(map[], more));
      } else {
        assert MatchWith(read, args).value.rest == rest;
      }
    }
  }

  /** The per-CS tables `parse_args` builds. */
  datatype Tables = Tables(
    alphas: map<string, real>,
    saliences: map<string, real>,
    habituations: map<string, real>,
    alphaMacks: map<string, real>,
    alphaHalls: map<string, real>)

  /** Some pass of `parse_args` claims the argument. */
  predicate ClaimedByAny(arg: string) {
    Claims("alpha", arg) || Claims("salience", arg) || Claims("habituation", arg) || Claims("alpha_mack", arg) || Claims("alpha_hall", arg)
  }

  /** The readers of the five passes of `parse_args`, in order. */
  function Passes(): seq<Reader> {
    [Reading("alpha"), Reading("salience"), Reading("habituation"), Reading("alpha_mack"), Reading("alpha_hall")]
  }

  /** The passes of `parse_args` over what `argparse` did not know, in
      order; whatever no pass claims is an error naming all of it. */
  function ParseArgs(unknown: seq<string>): (r: Result<Tables>)
    ensures r.Ok? <==> forall a :: a in unknown ==> ClaimedByAny(a) && Converts(Passes(), a)
    ensures r.Err? ==> r.error.BadFloat? || r.error.UnrecognisedArgs?
    ensures r.Err? && r.error.BadFloat? ==> exists a :: a in unknown && ClaimedByAny(a) && FailsWith(Passes(), a, r.error)
    ensures r.Err? && r.error.UnrecognisedArgs? ==> forall a :: a in unknown ==> Converts(Passes(), a)
    ensures r.Err? && r.error.UnrecognisedArgs? ==> r.error.rest == Unrecognised(Passes(), unknown) && r.error.rest != []
    ensures r.Err? && r.error.UnrecognisedArgs? ==> forall a :: a in r.error.rest <==> a in unknown && !ClaimedByAny(a)
  {
    var ra, rs, rh, rm, rl := Reading("alpha"), Reading("salience"), Reading("habituation"), Reading("alpha_mack"), Reading("alpha_hall");
    assert forall a :: ClaimedByAny(a) <==> AnyReads(ra, rs, rh, rm, rl, a);
    ReadingFailsAsFloat("alpha");
    ReadingFailsAsFloat("salience");
    ReadingFailsAsFloat("habituation");
    ReadingFailsAsFloat("alpha_mack");
    ReadingFailsAsFloat("alpha_hall");
    ParseWith(ra, rs, rh, rm, rl, unknown)
  }

  /** A reader's only failure is a number `float` rejects. */
  ghost predicate FailsAsFloat(read: Reader) {
    forall a :: read(a).Some? && read(a).value.1.Err? ==> read(a).value.1.error.BadFloat?
  }

  lemma ReadingFailsAsFloat(name: string)
    ensures FailsAsFloat(Reading(name))
  {
    forall a | Reading(name)(a).Some? && Reading(name)(a).value.1.Err?
      ensures Reading(name)(a).value.1.error.BadFloat?
    {
      assert Reading(name)(a) == ReadArg(name, a);
    }
  }

  /** Some of the five readers claims `a`. */
  predicate AnyReads(ra: Reader, rs: Reader, rh: Reader, rm: Reader, rl: Reader, a: string) {
    ra(a).Some? || rs(a).Some? || rh(a).Some? || rm(a).Some? || rl(a).Some?
  }

  /** Some reader of `readers` claims `a`. */
  predicate ClaimedBy(readers: seq<Reader>, a: string) {
    exists j :: 0 <= j < |readers| && readers[j](a).Some?
  }

  /** The first reader of `readers` that claims `a`, if any, converts its
      number. */
  predicate Converts(readers: seq<Reader>, a: string)
    decreases |readers|
  {
    |readers| == 0 || (if readers[0](a).Some? then readers[0](a).value.1.Ok? else Converts(readers[1..], a))
  }

  /** The first reader of `readers` that claims `a` fails with `e`. */
  predicate FailsWith(readers: seq<Reader>, a: string, e: Error)
    decreases |readers|
  {
    |readers| > 0 && (if readers[0](a).Some? then readers[0](a).value.1 == Err(e) else FailsWith(readers[1..], a, e))
  }

  /** The arguments no reader of `readers` claims, front to back. */
  function Unrecognised(readers: seq<Reader>, args: seq<string>): seq<string> {
    if |args| == 0 then [] else (if ClaimedBy(readers, args[0]) then [] else [args[0]]) + Unrecognised(readers, args[1..])
  }

  lemma {:induction false} UnrecognisedMembers(readers: seq<Reader>, args: seq<string>)
    ensures forall a :: a in Unrecognised(readers, args) <==> a in args && !ClaimedBy(readers, a)
    decreases |args|
  {
    if |args| > 0 {
      UnrecognisedMembers(readers, args[1..]);
      assert args == [args[0]] + args[1..];
    }
  }

  lemma {:induction false} UnrecognisedByNone(args: seq<string>)
    ensures Unrecognised([], args) == args
    decreases |args|
  {
    if |args| > 0 {
      UnrecognisedByNone(args[1..]);
    }
  }

  /** A reader that does not claim `a` leaves the question to the rest. */
  lemma ClaimedByRest(readers: seq<Reader>, a: string)
    requires |readers| > 0 && readers[0](a).None?
    ensures ClaimedBy(readers, a) <==> ClaimedBy(readers[1..], a)
  {
    if ClaimedBy(readers, a) {
      var j :| 0 <= j < |readers| && readers[j](a).Some?;
      assert readers[1..][j - 1] == readers[j];
    }
    if ClaimedBy(readers[1..], a) {
      var j :| 0 <= j < |readers[1..]| && readers[1..][j](a).Some?;
      assert readers[j + 1] == readers[1..][j];
    }
  }

  /** What the first pass leaves and the later passes do not claim is what
      no pass claims. */
  lemma {:induction false} UnrecognisedAfterFirst(readers: seq<Reader>, args: seq<string>)
    requires |readers| > 0
    ensures Unrecognised(readers[1..], Left(readers[0], args)) == Unrecognised(readers, args)
    decreases |args|
  {
    if |args| > 0 {
      var x, tail := args[0], Left(readers[0], args[1..]);
      UnrecognisedAfterFirst(readers, args[1..]);
      if readers[0](x).None? {
        assert ([x] + tail)[0] == x && ([x] + tail)[1..] == tail;
        ClaimedByRest(readers, x);
      } else {
        assert readers[0](x).Some?;
        assert ClaimedBy(readers, x);
        assert Left(readers[0], args) == tail;
      }
    }
  }

  lemma {:induction false} FailsIsClaimed(readers: seq<Reader>, a: string, e: Error)
    requires FailsWith(readers, a, e)
    ensures ClaimedBy(readers, a) && !Converts(readers, a)
    decreases |readers|
  {
    if readers[0](a).None? {
      FailsIsClaimed(readers[1..], a, e);
      var j :| 0 <= j < |readers[1..]| && readers[1..][j](a).Some?;
      assert readers[j + 1] == readers[1..][j];
    } else {
      assert readers[0](a).Some?;
    }
  }

  /** The reader an argument fails with is one of `readers`. */
  lemma {:induction false} FailsAt(readers: seq<Reader>, a: string, e: Error) returns (j: nat)
    requires FailsWith(readers, a, e)
    ensures j < |readers| && readers[j](a).Some? && readers[j](a).value.1 == Err(e)
    decreases |readers|
  {
    if readers[0](a).None? {
      var k := FailsAt(readers[1..], a, e);
      j := k + 1;
      assert readers[j] == readers[1..][k];
    } else {
      j := 0;
    }
  }

  /** A first pass that fails blames an argument its reader claims. */
  lemma FirstPassBlames(readers: seq<Reader>, args: seq<string>, e: Error)
    requires |readers| > 0 && exists i :: FirstFails(readers[0], args, i, e)
    ensures exists a :: a in args && FailsWith(readers, a, e) && !Converts(readers, a)
  {
    var i :| FirstFails(readers[0], args, i, e);
    assert FailsWith(readers, args[i], e);
  }

  /** A later pass that fails blames an argument the first reader left. */
  lemma LaterPassBlames(readers: seq<Reader>, args: seq<string>, rest: seq<string>, e: Error)
    requires |readers| > 0
    requires forall a :: a in rest ==> a in args && readers[0](a).None?
    requires exists a :: a in rest && FailsWith(readers[1..], a, e) && !Converts(readers[1..], a)
    ensures exists a :: a in args && FailsWith(readers, a, e) && !Converts(readers, a)
  {
    var a :| a in rest && FailsWith(readers[1..], a, e) && !Converts(readers[1..], a);
    assert FailsWith(readers, a, e);
  }

  /** Both passes succeeding means every argument converts. */
  lemma PassesConvert(readers: seq<Reader>, args: seq<string>, rest: seq<string>)
    requires |readers| > 0
    requires forall i :: 0 <= i < |args| && readers[0](args[i]).Some? ==> readers[0](args[i]).value.1.Ok?
    requires forall a :: a in args && readers[0](a).None? ==> a in rest
    requires forall a :: a in rest ==> Converts(readers[1..], a)
    ensures forall a :: a in args ==> Converts(readers, a)
  {
    forall a | a in args
      ensures Converts(readers, a)
    {
      var i :| 0 <= i < |args| && args[i] == a;
    }
  }

  /** The passes `readers` in order, each over what the ones before it
      left: the tables they collect and the arguments none claims. */
  function RunPasses(readers: seq<Reader>, args: seq<string>): (r: Result<(seq<map<string, real>>, seq<string>)>)
    ensures r.Ok? <==> forall a :: a in args ==> Converts(readers, a)
    ensures r.Ok? ==> |r.value.0| == |readers| && r.value.1 == Unrecognised(readers, args)
    ensures r.Err? ==> exists a :: a in args && FailsWith(readers, a, r.error) && !Converts(readers, a)
    decreases |readers|
  {
    if |readers| == 0 then
      UnrecognisedByNone(args);
      Ok(([], args))
    else
      var m := MatchWith(readers[0], args);
      if m.Err? then
        FirstPassBlames(readers, args, m.error);
        Err(m.error)
      else
        var sub := RunPasses(readers[1..], m.value.rest);
        if sub.Err? then
          LaterPassBlames(readers, args, m.value.rest, sub.error);
          Err(sub.error)
        else
          PassesConvert(readers, args, m.value.rest);
          UnrecognisedAfterFirst(readers, args);
          Ok(([m.value.values] + sub.value.0, sub.value.1))
  }

  /** The five readers claim an argument exactly when one of them does. */
  lemma FiveClaim(ra: Reader, rs: Reader, rh: Reader, rm: Reader, rl: Reader, a: string)
    ensures AnyReads(ra, rs, rh, rm, rl, a) <==> ClaimedBy([ra, rs, rh, rm, rl], a)
  {
    var readers := [ra, rs, rh, rm, rl];
    if AnyReads(ra, rs, rh, rm, rl, a) {
      var j := if ra(a).Some? then 0 else if rs(a).Some? then 1 else if rh(a).Some? then 2 else if rm(a).Some? then 3 else 4;
      assert readers[j](a).Some?;
    }
  }

  /** The five passes with the readers given: each pass works on what the
      ones before it left. */
  function ParseWith(ra: Reader, rs: Reader, rh: Reader, rm: Reader, rl: Reader, unknown: seq<string>): (r: Result<Tables>)
    requires FailsAsFloat(ra) && FailsAsFloat(rs) && FailsAsFloat(rh) && FailsAsFloat(rm) && FailsAsFloat(rl)
    ensures r.Ok? <==> forall a :: a in unknown ==> AnyReads(ra, rs, rh, rm, rl, a) && Converts([ra, rs, rh, rm, rl], a)
    ensures r.Err? ==> r.error.BadFloat? || r.error.UnrecognisedArgs?
    ensures r.Err? && r.error.BadFloat? ==>
      exists a :: a in unknown && AnyReads(ra, rs, rh, rm, rl, a) && FailsWith([ra, rs, rh, rm, rl], a, r.error)
    ensures r.Err? && r.error.UnrecognisedArgs? ==> forall a :: a in unknown ==> Converts([ra, rs, rh, rm, rl], a)
    ensures r.Err? && r.error.UnrecognisedArgs? ==>
      r.error.rest == Unrecognised([ra, rs, rh, rm, rl], unknown) && r.error.rest != []
    ensures r.Err? && r.error.UnrecognisedArgs? ==>
      forall a :: a in r.error.rest <==> a in unknown && !AnyReads(ra, rs, rh, rm, rl, a)
  {
    var p := RunPasses([ra, rs, rh, rm, rl], unknown);
    if p.Err? then
      FiveFails(ra, rs, rh, rm, rl, unknown);
      Err(p.error)
    else
      FiveLeave(ra, rs, rh, rm, rl, unknown);
      if p.value.1 != [] then
        assert p.value.1[0] in p.value.1;
        Err(UnrecognisedArgs(p.value.1))
      else
        Ok(Tables(p.value.0[0], p.value.0[1], p.value.0[2], p.value.0[3], p.value.0[4]))
  }

  /** A failing pass of the five blames a claimed argument whose number
      `float` rejects. */
  lemma FiveFails(ra: Reader, rs: Reader, rh: Reader, rm: Reader, rl: Reader, unknown: seq<string>)
    requires FailsAsFloat(ra) && FailsAsFloat(rs) && FailsAsFloat(rh) && FailsAsFloat(rm) && FailsAsFloat(rl)
    requires RunPasses([ra, rs, rh, rm, rl], unknown).Err?
    ensures RunPasses([ra, rs, rh, rm, rl], unknown).error.BadFloat?
    ensures exists a :: a in unknown && AnyReads(ra, rs, rh, rm, rl, a) && FailsWith([ra, rs, rh, rm, rl], a, RunPasses([ra, rs, rh, rm, rl], unknown).error)
  {
    var readers := [ra, rs, rh, rm, rl];
    var e := RunPasses(readers, unknown).error;
    var a :| a in unknown && FailsWith(readers, a, e) && !Converts(readers, a);
    FailsIsClaimed(readers, a, e);
    FiveClaim(ra, rs, rh, rm, rl, a);
    var j := FailsAt(readers, a, e);
    FiveFailAsFloat(ra, rs, rh, rm, rl, j);
  }

  lemma FiveFailAsFloat(ra: Reader, rs: Reader, rh: Reader, rm: Reader, rl: Reader, j: nat)
    requires FailsAsFloat(ra) && FailsAsFloat(rs) && FailsAsFloat(rh) && FailsAsFloat(rm) && FailsAsFloat(rl)
    requires j < 5
    ensures FailsAsFloat([ra, rs, rh, rm, rl][j])
  {
    if j == 0 {
      assert [ra, rs, rh, rm, rl][j] == ra;
    } else if j == 1 {
      assert [ra, rs, rh, rm, rl][j] == rs;
    } else if j == 2 {
      assert [ra, rs, rh, rm, rl][j] == rh;
    } else if j == 3 {
      assert [ra, rs, rh, rm, rl][j] == rm;
    } else {
      assert [ra, rs, rh, rm, rl][j] == rl;
    }
  }

  /** What the five passes leave is exactly what none of them claims. */
  lemma FiveLeave(ra: Reader, rs: Reader, rh: Reader, rm: Reader, rl: Reader, unknown: seq<string>)
    requires RunPasses([ra, rs, rh, rm, rl], unknown).Ok?
    ensures forall a :: a in RunPasses([ra, rs, rh, rm, rl], unknown).value.1 <==> a in unknown && !AnyReads(ra, rs, rh, rm, rl, a)
  {
    var readers := [ra, rs, rh, rm, rl];
    UnrecognisedMembers(readers, unknown);
    forall a
      ensures a in Unrecognised(readers, unknown) <==> a in unknown && !AnyReads(ra, rs, rh, rm, rl, a)
    {
      FiveClaim(ra, rs, rh, rm, rl, a);
    }
  }

  /** `--alpha_mack-A` is not an `--alpha-…` argument: the character after
      the separator must be a capital or `(`. */
  lemma MackIsNotAlpha()
    ensures !Claims("alpha", "--alpha_mack-A=1")
  {
    var arg := "--alpha_mack-A=1";
    assert arg[8..][0] == 'm';
    assert CsNameLength(arg[8..]) == 0;
  }

  /** The `--alpha_mack-…` pass takes it instead. */
  lemma MackPassTakesIt()
    ensures MatchArgs("alpha_mack", ["--alpha_mack-A=1"]) == Ok(Matched(map["A" := 1.0], []))
  {
    var arg := "--alpha_mack-A=1";
    assert ArgShape(arg, "alpha_mack", '-', "A", "", "=", "", "1");
    ArgPiecesUnique(arg, "alpha_mack", '-', "A", "", "=", "", "1");
    assert ReadArg("alpha_mack", arg) == Some(("A", ParseDecimal("1")));
    assert ParseDecimal("1") == Ok(1.0) by {
      ParseNatText(1);
      assert NatText(1) == "1";
    }
    assert [arg][..0] == [];
  }

  /** A parenthesised compound keeps its parentheses as its key, and spaces
      may surround `=`. */
  lemma ParenthesisedCompound()
    ensures ArgPieces("salience", "--salience_(AB) = 25").Some?
    ensures ArgPieces("salience", "--salience_(AB) = 25").value.cs == "(AB)"
    ensures ArgPieces("salience", "--salience_(AB) = 25").value.num == "25"
  {
    assert ArgShape("--salience_(AB) = 25", "salience", '_', "(AB)", " ", "=", " ", "25");
    ArgPiecesUnique("--salience_(AB) = 25", "salience", '_', "(AB)", " ", "=", " ", "25");
  }

  /** A claimed argument without a number makes `float('')` fail. */
  lemma EmptyNumberRejected()
    ensures MatchArgs("alpha", ["--alpha-A="]) == Err(BadFloat(""))
  {
    var arg := "--alpha-A=";
    assert ArgShape(arg, "alpha", '-', "A", "", "=", "", "");
    ArgPiecesUnique(arg, "alpha", '-', "A", "", "=", "", "");
    assert ReadArg("alpha", arg) == Some(("A", ParseDecimal("")));
    assert ParseDecimal("") == Err(BadFloat(""));
    PassFails(Reading("alpha"), arg);
  }

  /** A single claimed argument whose number fails makes the pass fail with
      that error. */
  lemma PassFails(read: Reader, arg: string)
    requires read(arg).Some? && read(arg).value.1.Err?
    ensures MatchWith(read, [arg]) == Err(read(arg).value.1.error)
  {
    assert [arg][..0] == [];
    assert MatchWith(read, []) == Ok(Matched(map[], []));
  }

  /** An argument that differs from `--{name}` within its length, or whose
      character after it is no separator, is not claimed. */
  lemma Unclaimed(name: string, arg: string, i: nat)
    requires i < |name| + 2 < |arg|
    requires arg[i] != ("--" + name)[i] || (i == 0 && arg[|name| + 2] != '-' && arg[|name| + 2] != '_')
    ensures !Claims(name, arg)
  {
    if arg[i] != ("--" + name)[i] {
      assert arg[..|name| + 2][i] == arg[i];
    }
  }

  /** A pass leaves an argument it does not claim. */
  lemma PassLeaves(name: string, arg: string)
    requires !Claims(name, arg)
    ensures MatchArgs(name, [arg]) == Ok(Matched(map[], [arg]))
  {
    var read := Reading(name);
    assert read(arg).None?;
    assert [arg][..0] == [];
    var prev := MatchWith(read, []);
    assert prev == Ok(Matched(map[], []));
    assert MatchWith(read, [arg]) == Ok(prev.value.(rest := prev.value.rest + [arg]));
    assert [] + [arg] == [arg];
  }

  /** Arguments no pass claims are all named, in order, by the error. */
  lemma NothingClaimed(unknown: seq<string>)
    requires unknown != [] && forall a :: a in unknown ==> !ClaimedByAny(a)
    ensures ParseArgs(unknown) == Err(UnrecognisedArgs(unknown))
  {
    var r := ParseArgs(unknown);
    assert unknown[0] in unknown;
    assert !r.Ok?;
    if r.error.BadFloat? {
      assert false;
    }
    forall a | a in unknown
      ensures !ClaimedBy(Passes(), a)
    {
      PassesClaim(a);
    }
    UnrecognisedAll(Passes(), unknown);
  }

  /** The five passes claim an argument exactly when one of them does. */
  lemma PassesClaim(a: string)
    ensures ClaimedBy(Passes(), a) <==> ClaimedByAny(a)
  {
    var ra, rs, rh, rm, rl := Reading("alpha"), Reading("salience"), Reading("habituation"), Reading("alpha_mack"), Reading("alpha_hall");
    FiveClaim(ra, rs, rh, rm, rl, a);
    assert ClaimedByAny(a) <==> AnyReads(ra, rs, rh, rm, rl, a);
  }

  lemma {:induction false} UnrecognisedAll(readers: seq<Reader>, args: seq<string>)
    requires forall a :: a in args ==> !ClaimedBy(readers, a)
    ensures Unrecognised(readers, args) == args
    decreases |args|
  {
    if |args| > 0 {
      assert args[0] in args;
      assert forall a :: a in args[1..] ==> a in args;
      UnrecognisedAll(readers, args[1..]);
    }
  }

  /** The plural spelling the help text shows is claimed by no pass. */
  lemma PluralSpellingRejected()
    ensures ParseArgs(["--saliences-A=0.5"]) == Err(UnrecognisedArgs(["--saliences-A=0.5"]))
  {
    var arg := "--saliences-A=0.5";
    PluralUnclaimed(arg);
    NothingClaimed([arg]);
  }

  lemma PluralUnclaimed(arg: string)
    requires arg == "--saliences-A=0.5"
    ensures !Claims("alpha", arg) && !Claims("salience", arg) && !Claims("habituation", arg)
    ensures !Claims("alpha_mack", arg) && !Claims("alpha_hall", arg)
  {
    assert arg[2] == 's' && arg[10] == 's';
    Unclaimed("alpha", arg, 2);
    Unclaimed("salience", arg, 0);
    Unclaimed("habituation", arg, 2);
    Unclaimed("alpha_mack", arg, 2);
    Unclaimed("alpha_hall", arg, 2);
  }
}
