/** `Environment` and `StimulusHistory` (Environment.py): the mapping from CS
    names to stimuli, compound lookup by summation, the environment-wide
    algebra used for averaging, and the transposition of per-CS histories
    into per-step environments. */
module Environments {
  import opened Errors
  import opened Text
  import opened Stimuli
  import opened Ordering
  import opened Counting

  /** CS name to stimulus. The Python class also keeps a `cs` set; every way
      the core builds an environment makes that set equal to the dictionary's
      keys, so the model keeps the dictionary alone. */
  type Env = map<string, Stimulus>

  /** Every key is one character: the only keys a compound lookup can reach,
      since a lookup reads its key one character at a time. */
  predicate Elementary(e: Env) {
    forall k :: k in e ==> |k| == 1
  }

  predicate HasSaliences(e: Env) {
    forall k :: k in e ==> e[k].salience.Some?
  }

  /** The environments a group builds: elementary keys and numeric saliences. */
  predicate WellFormed(e: Env) {
    Elementary(e) && HasSaliences(e)
  }

  predicate NoRepeats(key: string) {
    forall i, j :: 0 <= i < j < |key| ==> key[i] != key[j]
  }

  predicate AllPresent(e: Env, key: string) {
    forall i :: 0 <= i < |key| ==> [key[i]] in e
  }

  /** The stored stimuli a key names, one per character. */
  function Constituents(e: Env, key: string): (xs: seq<Stimulus>)
    requires AllPresent(e, key)
    ensures |xs| == |key|
    ensures forall i :: 0 <= i < |key| ==> xs[i] == e[[key[i]]]
  {
    seq(|key|, i requires 0 <= i < |key| => e[[key[i]]])
  }

  /** `reduce(lambda a, b: a + b, xs)`: the left fold of stimulus addition. */
  function FoldAdd(xs: seq<Stimulus>): Result<Stimulus>
    requires |xs| > 0
  {
    if |xs| == 1 then Ok(xs[0])
    else
      var acc :- FoldAdd(xs[..|xs| - 1]);
      Add(acc, xs[|xs| - 1])
  }

  function SumField(xs: seq<Stimulus>, f: Field): real {
    if |xs| == 0 then 0.0 else SumField(xs[..|xs| - 1], f) + Get(xs[|xs| - 1], f)
  }

  predicate AllSaliences(xs: seq<Stimulus>) {
    forall i :: 0 <= i < |xs| ==> xs[i].salience.Some?
  }

  /** The errors stimulus addition and compound lookup can raise. */
  predicate IsCombineError(err: Error) {
    err in {MissingKey, RepeatedCharacter, EmptyReduce, UnknownFieldType, OperandType}
  }

  /** The fold succeeds on one stimulus, and on several exactly when all of
      them carry a salience; its linear fields are the sums of the operands'. */
  lemma {:induction false} FoldAddSums(xs: seq<Stimulus>)
    requires |xs| > 0
    ensures FoldAdd(xs).Ok? <==> |xs| == 1 || AllSaliences(xs)
    ensures FoldAdd(xs).Err? ==> IsCombineError(FoldAdd(xs).error)
    ensures FoldAdd(xs).Ok? ==> forall f :: Get(FoldAdd(xs).value, f) == SumField(xs, f)
    ensures FoldAdd(xs).Ok? && |xs| > 1 ==> FoldAdd(xs).value.salience.Some?
  {
    if |xs| > 1 {
      var init := xs[..|xs| - 1];
      FoldAddSums(init);
      assert SumField(init, AssocField) == SumField(xs[..|xs| - 1], AssocField);
      if |init| == 1 {
        assert SumField(init[..0], AssocField) == 0.0;
        forall f ensures SumField(init, f) == Get(xs[0], f) {
          assert init[..0] == [];
        }
      }
      if AllSaliences(xs) {
        assert AllSaliences(init);
      } else {
        var i :| 0 <= i < |xs| && xs[i].salience.None?;
        if i < |xs| - 1 && |init| > 1 {
          assert init[i] == xs[i];
        }
      }
    } else {
      forall f ensures SumField(xs, f) == Get(xs[0], f) {
        assert xs[..0] == [];
      }
    }
  }

  /** `Environment.__getitem__`: a key with a repeated character fails the
      assertion, every character must name a stored CS, an empty key leaves
      `reduce` with nothing to fold, and otherwise the stored stimuli of the
      characters are added left to right. */
  function Lookup(e: Env, key: string): (r: Result<Stimulus>)
    ensures !NoRepeats(key) ==> r == Err(RepeatedCharacter)
    ensures NoRepeats(key) && !AllPresent(e, key) ==> r == Err(MissingKey)
    ensures key == [] ==> r == Err(EmptyReduce)
    ensures r.Err? ==> IsCombineError(r.error)
    ensures r.Ok? <==> NoRepeats(key) && AllPresent(e, key) && key != [] && (|key| == 1 || AllSaliences(Constituents(e, key)))
    ensures r.Ok? ==> forall f :: Get(r.value, f) == SumField(Constituents(e, key), f)
  {
    if !NoRepeats(key) then Err(RepeatedCharacter)
    else if !AllPresent(e, key) then Err(MissingKey)
    else if |key| == 0 then Err(EmptyReduce)
    else
      FoldAddSums(Constituents(e, key));
      FoldAdd(Constituents(e, key))
  }

  /** A one-character key returns the stored stimulus itself, not a copy: a
      zero `alpha_mack` survives this lookup. */
  lemma LookupSingle(e: Env, c: char)
    requires [c] in e
    ensures Lookup(e, [c]) == Ok(e[[c]])
  {
    assert Constituents(e, [c]) == [e[[c]]];
  }

  lemma {:induction false} SumFieldAppend(xs: seq<Stimulus>, ys: seq<Stimulus>, f: Field)
    ensures SumField(xs + ys, f) == SumField(xs, f) + SumField(ys, f)
    decreases |ys|
  {
    if |ys| == 0 {
      assert xs + ys == xs;
    } else {
      var init := ys[..|ys| - 1];
      SumFieldAppend(xs, init, f);
      assert (xs + ys)[..|xs + ys| - 1] == xs + init;
      assert (xs + ys)[|xs + ys| - 1] == ys[|ys| - 1];
    }
  }

  /** The summation invariant: the value of a compound made of two disjoint
      parts is, field by field, the value of one part plus the value of the
      other. */
  lemma CompoundIsSum(e: Env, k1: string, k2: string)
    requires k1 != [] && k2 != []
    requires Lookup(e, k1 + k2).Ok?
    ensures Lookup(e, k1).Ok? && Lookup(e, k2).Ok?
    ensures forall f :: Get(Lookup(e, k1 + k2).value, f) == Get(Lookup(e, k1).value, f) + Get(Lookup(e, k2).value, f)
  {
    var k := k1 + k2;
    KeyParts(e, k1, k2);
    var xs1 := Constituents(e, k1);
    var xs2 := Constituents(e, k2);
    assert AllSaliences(xs1 + xs2);
    assert AllSaliences(xs1) by {
      forall i | 0 <= i < |xs1| ensures xs1[i].salience.Some? {
        assert xs1[i] == (xs1 + xs2)[i];
      }
    }
    assert AllSaliences(xs2) by {
      forall i | 0 <= i < |xs2| ensures xs2[i].salience.Some? {
        assert xs2[i] == (xs1 + xs2)[|xs1| + i];
      }
    }
    forall f ensures Get(Lookup(e, k).value, f) == Get(Lookup(e, k1).value, f) + Get(Lookup(e, k2).value, f) {
      SumFieldAppend(xs1, xs2, f);
    }
  }

  /** The parts of a present, repetition-free key are present and
      repetition-free, and their constituents concatenate to the whole's. */
  lemma KeyParts(e: Env, k1: string, k2: string)
    requires NoRepeats(k1 + k2) && AllPresent(e, k1 + k2)
    ensures NoRepeats(k1) && NoRepeats(k2) && AllPresent(e, k1) && AllPresent(e, k2)
    ensures Constituents(e, k1 + k2) == Constituents(e, k1) + Constituents(e, k2)
  {
    var k := k1 + k2;
    forall i | 0 <= i < |k1| ensures k1[i] == k[i] { }
    forall i | 0 <= i < |k2| ensures k2[i] == k[|k1| + i] { }
    assert NoRepeats(k1) by {
      forall i, j | 0 <= i < j < |k1| ensures k1[i] != k1[j] {
        assert k1[i] == k[i] && k1[j] == k[j];
      }
    }
    assert NoRepeats(k2) by {
      forall i, j | 0 <= i < j < |k2| ensures k2[i] != k2[j] {
        assert k2[i] == k[|k1| + i] && k2[j] == k[|k1| + j];
      }
    }
    assert AllPresent(e, k1) by {
      forall i | 0 <= i < |k1| ensures [k1[i]] in e {
        assert k1[i] == k[i];
      }
    }
    assert AllPresent(e, k2) by {
      forall i | 0 <= i < |k2| ensures [k2[i]] in e {
        assert k2[i] == k[|k1| + i];
      }
    }
  }

  /** One key of `Environment.__add__`: `self[k] + other[k]`. */
  function KeySum(a: Env, b: Env, k: string): (r: Result<Stimulus>)
    ensures r.Err? ==> IsCombineError(r.error)
  {
    var x :- Lookup(a, k);
    var y :- Lookup(b, k);
    Add(x, y)
  }

  /** Every key of either operand sums without error. */
  predicate SumsOk(a: Env, b: Env) {
    forall k :: k in a.Keys + b.Keys ==> KeySum(a, b, k).Ok?
  }

  /** Some key of either operand fails to sum with error `err`. */
  predicate FailsWith(a: Env, b: Env, err: Error) {
    exists k :: k in a.Keys + b.Keys && KeySum(a, b, k) == Err(err)
  }

  /** The error `+` reports: when several keys fail, Python reports the first
      one in set-iteration order; the model picks a failing key's error by a
      fixed priority of error kinds. */
  function SumsError(a: Env, b: Env): (err: Error)
    requires !SumsOk(a, b)
    ensures FailsWith(a, b, err)
  {
    if FailsWith(a, b, MissingKey) then MissingKey
    else if FailsWith(a, b, RepeatedCharacter) then RepeatedCharacter
    else if FailsWith(a, b, EmptyReduce) then EmptyReduce
    else if FailsWith(a, b, UnknownFieldType) then UnknownFieldType
    else
      var k :| k in a.Keys + b.Keys && KeySum(a, b, k).Err?;
      assert KeySum(a, b, k) == Err(OperandType);
      OperandType
  }

  /** `Environment.__add__`: every key of either operand is looked up (as a
      compound) in both and the two values are added. */
  function EnvAdd(a: Env, b: Env): (r: Result<Env>)
    ensures r.Ok? <==> SumsOk(a, b)
    ensures r.Ok? ==> r.value.Keys == a.Keys + b.Keys
    ensures r.Ok? ==> forall k :: k in r.value ==> KeySum(a, b, k) == Ok(r.value[k])
    ensures r.Err? ==> FailsWith(a, b, r.error)
  {
    if SumsOk(a, b) then Ok(map k | k in a.Keys + b.Keys :: KeySum(a, b, k).value)
    else Err(SumsError(a, b))
  }

  /** On well-formed environments, `+` succeeds exactly when both operands
      hold the same CS, and then adds the stimuli key by key. */
  lemma EnvAddSameKeys(a: Env, b: Env)
    requires WellFormed(a) && WellFormed(b)
    ensures EnvAdd(a, b).Ok? <==> a.Keys == b.Keys
    ensures EnvAdd(a, b).Ok? ==> forall k :: k in a ==> Ok(EnvAdd(a, b).value[k]) == Add(a[k], b[k])
  {
    if a.Keys == b.Keys {
      forall k | k in a.Keys + b.Keys ensures KeySum(a, b, k) == Add(a[k], b[k]) && KeySum(a, b, k).Ok? {
        KeySumElementary(a, b, k);
      }
      assert SumsOk(a, b);
    } else {
      var k :| k in (a.Keys - b.Keys) + (b.Keys - a.Keys);
      KeySumElementary(a, b, k);
      assert !SumsOk(a, b);
    }
  }

  /** A one-character key is looked up directly in each operand. */
  lemma KeySumElementary(a: Env, b: Env, k: string)
    requires WellFormed(a) && WellFormed(b) && k in a.Keys + b.Keys
    ensures KeySum(a, b, k).Ok? <==> k in a && k in b
    ensures k in a && k in b ==> KeySum(a, b, k) == Add(a[k], b[k])
  {
    assert |k| == 1;
    var c := k[0];
    assert k == [c];
    if k in a { LookupSingle(a, c); } else { assert !AllPresent(a, k); }
    if k in b { LookupSingle(b, c); } else { assert !AllPresent(b, k); }
  }

  /** `Environment.__truediv__`: every stored stimulus divided by `n`. A zero
      divisor fails on the first key, so an empty environment divides by
      anything. */
  function EnvDiv(e: Env, n: int): (r: Result<Env>)
    ensures r.Ok? <==> e == map[] || (n != 0 && HasSaliences(e))
    ensures r.Ok? ==> r.value.Keys == e.Keys && forall k :: k in e ==> Ok(r.value[k]) == Div(e[k], n)
    ensures r.Err? ==> r.error == (if n == 0 then ZeroDivision else UnknownFieldType)
  {
    if forall k :: k in e ==> Div(e[k], n).Ok? then
      assert e != map[] ==> n != 0 by {
        if e != map[] {
          var k :| k in e;
        }
      }
      Ok(map k | k in e :: Div(e[k], n).value)
    else if n == 0 then Err(ZeroDivision)
    else Err(UnknownFieldType)
  }

  /** `Environment.copy`: every stimulus rebuilt through the constructor. */
  function EnvCopy(e: Env): (r: Env)
    ensures r.Keys == e.Keys
    ensures forall k :: k in e ==> r[k] == Copy(e[k])
  {
    map k | k in e :: Copy(e[k])
  }

  /** `[x / n for x in val]`, stopping at the first failure in list order. */
  function DivideAll(val: seq<Env>, n: int): (r: Result<seq<Env>>)
    ensures r.Ok? <==> forall i :: 0 <= i < |val| ==> EnvDiv(val[i], n).Ok?
    ensures r.Ok? ==> |r.value| == |val| && forall i :: 0 <= i < |val| ==> EnvDiv(val[i], n) == Ok(r.value[i])
  {
    if |val| == 0 then Ok([])
    else
      var init :- DivideAll(val[..|val| - 1], n);
      var last :- EnvDiv(val[|val| - 1], n);
      Ok(init + [last])
  }

  /** `reduce(lambda a, b: a + b, envs)`: the left fold of environment addition. */
  function FoldEnvAdd(envs: seq<Env>): Result<Env>
    requires |envs| > 0
  {
    if |envs| == 1 then Ok(envs[0])
    else
      var acc :- FoldEnvAdd(envs[..|envs| - 1]);
      EnvAdd(acc, envs[|envs| - 1])
  }

  /** `Environment.avg`: divide every environment by the count, then add the
      quotients left to right. An empty list fails in `reduce`. */
  function Avg(val: seq<Env>): (r: Result<Env>)
    ensures val == [] ==> r == Err(EmptyReduce)
  {
    var quots :- DivideAll(val, |val|);
    if |quots| == 0 then Err(EmptyReduce) else FoldEnvAdd(quots)
  }

  /** Dividing by one only rebuilds the stimulus through the constructor. */
  lemma DivByOne(s: Stimulus)
    requires s.salience.Some?
    ensures Div(s, 1) == Ok(Copy(s))
  {
    var r := Div(s, 1).value;
    assert r.window == s.window;
    assert r.salience == s.salience;
    assert r == Copy(s);
  }

  /** Averaging a single environment copies it. */
  lemma AvgOfOne(e: Env)
    requires HasSaliences(e)
    ensures Avg([e]) == Ok(EnvCopy(e))
  {
    forall k | k in e ensures Div(e[k], 1) == Ok(Copy(e[k])) {
      DivByOne(e[k]);
    }
    var q := EnvDiv(e, 1).value;
    assert q == EnvCopy(e);
    assert [e][..0] == [];
    assert DivideAll([], 1) == Ok([]);
    assert EnvDiv([e][0], 1) == Ok(q);
    assert DivideAll([e], 1).Ok?;
    assert DivideAll([e], 1).value == [q];
  }

  /** The sum, over the environments of `val` that hold CS `k`, of its field `f`. */
  function ColumnSum(val: seq<Env>, k: string, f: Field): real {
    if |val| == 0 then 0.0
    else
      var last := val[|val| - 1];
      ColumnSum(val[..|val| - 1], k, f) + (if k in last then Get(last[k], f) else 0.0)
  }

  /** A quotient of a well-formed environment is well formed over the same CS. */
  lemma QuotientShape(v: Env, n: nat, q: Env)
    requires WellFormed(v) && EnvDiv(v, n) == Ok(q)
    ensures WellFormed(q) && q.Keys == v.Keys
    ensures forall k, f :: k in v ==> Get(q[k], f) == Get(v[k], f) / (n as real)
  {
    forall k | k in v ensures q[k].salience.Some? && forall f :: Get(q[k], f) == Get(v[k], f) / (n as real) {
      assert Div(v[k], n) == Ok(q[k]);
    }
  }

  lemma SumOfQuotients(x: real, y: real, q: real)
    requires q > 0.0
    ensures x / q + y / q == (x + y) / q
  {
  }

  /** Adding environments over the same CS adds every linear field. */
  lemma EnvAddFields(a: Env, b: Env)
    requires WellFormed(a) && WellFormed(b) && a.Keys == b.Keys
    ensures EnvAdd(a, b).Ok? && EnvAdd(a, b).value.Keys == a.Keys && WellFormed(EnvAdd(a, b).value)
    ensures forall k, f :: k in a ==> Get(EnvAdd(a, b).value[k], f) == Get(a[k], f) + Get(b[k], f)
  {
    EnvAddSameKeys(a, b);
    var r := EnvAdd(a, b).value;
    forall k | k in a ensures r[k].salience.Some? && forall f :: Get(r[k], f) == Get(a[k], f) + Get(b[k], f) {
      assert Ok(r[k]) == Add(a[k], b[k]);
    }
  }

  /** Environments that are well formed over one set of CS. */
  predicate Uniform(envs: seq<Env>, keys: set<string>) {
    forall i :: 0 <= i < |envs| ==> WellFormed(envs[i]) && envs[i].Keys == keys
  }

  /** Adding up environments over the same CS sums every linear field. */
  lemma {:induction false} FoldEnvAddFields(envs: seq<Env>, keys: set<string>)
    requires |envs| > 0 && Uniform(envs, keys)
    ensures FoldEnvAdd(envs).Ok?
    ensures FoldEnvAdd(envs).value.Keys == keys && WellFormed(FoldEnvAdd(envs).value)
    ensures forall k, f :: k in keys ==> Get(FoldEnvAdd(envs).value[k], f) == ColumnSum(envs, k, f)
  {
    var m := |envs|;
    var last := envs[m - 1];
    if m == 1 {
      assert envs[..0] == [];
    } else {
      var init := envs[..m - 1];
      assert Uniform(init, keys);
      FoldEnvAddFields(init, keys);
      var acc := FoldEnvAdd(init).value;
      assert FoldEnvAdd(envs) == EnvAdd(acc, last);
      EnvAddFields(acc, last);
    }
  }

  lemma {:induction false} ColumnSumLast(val: seq<Env>, k: string, f: Field)
    requires |val| > 0 && k in val[|val| - 1]
    ensures ColumnSum(val, k, f) == ColumnSum(val[..|val| - 1], k, f) + Get(val[|val| - 1][k], f)
  {
  }

  lemma SumOfQuotientParts(a: real, b: real, c: real, d: real, q: real, x: real, y: real)
    requires q > 0.0 && c == a / q && d == b / q && x == c + d && y == a + b
    ensures x == y / q
  {
    SumOfQuotients(a, b, q);
  }

  lemma {:induction false} ColumnSumStep(qs: seq<Env>, val: seq<Env>, n: nat, k: string, f: Field)
    requires n > 0 && |qs| == |val| > 0
    requires ColumnSum(qs[..|qs| - 1], k, f) == ColumnSum(val[..|val| - 1], k, f) / (n as real)
    requires k in qs[|qs| - 1] && k in val[|val| - 1]
    requires Get(qs[|qs| - 1][k], f) == Get(val[|val| - 1][k], f) / (n as real)
    ensures ColumnSum(qs, k, f) == ColumnSum(val, k, f) / (n as real)
  {
    ColumnSumLast(qs, k, f);
    ColumnSumLast(val, k, f);
    SumOfQuotientParts(ColumnSum(val[..|val| - 1], k, f), Get(val[|val| - 1][k], f),
                       ColumnSum(qs[..|qs| - 1], k, f), Get(qs[|qs| - 1][k], f), n as real,
                       ColumnSum(qs, k, f), ColumnSum(val, k, f));
  }

  /** Column sums of quotients are quotients of column sums. */
  lemma {:induction false} ColumnSumQuotients(qs: seq<Env>, val: seq<Env>, n: nat, keys: set<string>)
    requires n > 0 && |qs| == |val| && Uniform(val, keys)
    requires forall i :: 0 <= i < |qs| ==> EnvDiv(val[i], n) == Ok(qs[i])
    ensures Uniform(qs, keys)
    ensures forall k, f :: k in keys ==> ColumnSum(qs, k, f) == ColumnSum(val, k, f) / (n as real)
  {
    var m := |qs|;
    if m > 0 {
      var init := qs[..m - 1];
      var vinit := val[..m - 1];
      assert Uniform(vinit, keys);
      ColumnSumQuotients(init, vinit, n, keys);
      QuotientShape(val[m - 1], n, qs[m - 1]);
      forall k, f | k in keys ensures ColumnSum(qs, k, f) == ColumnSum(val, k, f) / (n as real) {
        ColumnSumStep(qs, val, n, k, f);
      }
    }
  }

  /** The average of environments holding the same CS is, for every CS and
      every linear field, the arithmetic mean of that field across the list. */
  lemma AvgIsMean(val: seq<Env>, keys: set<string>)
    requires |val| > 0 && Uniform(val, keys)
    ensures Avg(val).Ok?
    ensures Avg(val).value.Keys == keys
    ensures forall k, f :: k in keys ==> Get(Avg(val).value[k], f) == ColumnSum(val, k, f) / (|val| as real)
  {
    var n := |val|;
    forall i | 0 <= i < n ensures EnvDiv(val[i], n).Ok? {
    }
    var quots := DivideAll(val, n).value;
    ColumnSumQuotients(quots, val, n, keys);
    FoldEnvAddFields(quots, keys);
  }

  /** `StimulusHistory.add`: appends a copy of the stimulus. */
  function Record(h: seq<Stimulus>, s: Stimulus): (r: seq<Stimulus>)
    ensures |r| == |h| + 1 && r[..|h|] == h
    ensures Get(r[|h|], AssocField) == s.assoc && r[|h|].window == s.window
    ensures r[|h|] == Copy(s) && forall f :: Get(r[|h|], f) == Get(s, f)
    ensures r[|h|].salience == s.salience && IsNormal(r[|h|])
    ensures IsNormal(s) ==> r[|h|] == s
  {
    h + [Copy(s)]
  }

  /** `StimulusHistory.__getattr__`: one field of every snapshot, in order. */
  function Attr(h: seq<Stimulus>, f: Field): (r: seq<real>)
    ensures |r| == |h|
    ensures forall i :: 0 <= i < |h| ==> r[i] == Get(h[i], f)
  {
    seq(|h|, i requires 0 <= i < |h| => Get(h[i], f))
  }

  /** `n` is the length of the longest history. */
  predicate IsLongest(hs: map<string, seq<Stimulus>>, n: nat) {
    && (exists cs :: cs in hs && |hs[cs]| == n)
    && (forall cs :: cs in hs ==> |hs[cs]| <= n)
  }

  lemma {:induction false} LongestWitness(hs: map<string, seq<Stimulus>>) returns (n: nat)
    requires hs != map[]
    ensures IsLongest(hs, n)
    decreases |hs|
  {
    var k :| k in hs;
    if hs.Keys - {k} == {} {
      n := |hs[k]|;
      forall j | j in hs ensures |hs[j]| <= n {
        assert j !in hs.Keys - {k};
      }
    } else {
      var rest := map j | j in hs && j != k :: hs[j];
      assert rest.Keys == hs.Keys - {k};
      var other :| other in hs.Keys - {k};
      assert other in rest;
      assert |rest| < |hs|;
      var m := LongestWitness(rest);
      if |hs[k]| > m {
        n := |hs[k]|;
      } else {
        n := m;
        var w :| w in rest && |rest[w]| == m;
        assert w in hs;
      }
      forall j | j in hs ensures |hs[j]| <= n {
        if j != k { assert j in rest; }
      }
    }
  }

  lemma LongestExists(hs: map<string, seq<Stimulus>>)
    requires hs != map[]
    ensures exists n: nat :: IsLongest(hs, n)
  {
    var n := LongestWitness(hs);
  }

  /** `max(len(x.hist) for x in histories.values())`. */
  function Longest(hs: map<string, seq<Stimulus>>): (n: nat)
    requires hs != map[]
    ensures IsLongest(hs, n)
  {
    LongestExists(hs);
    var n: nat :| IsLongest(hs, n);
    n
  }

  /** `Environment.fromHistories`: one environment per position up to the
      longest history; position `i` holds exactly the CS whose history is
      longer than `i`, bound to its `i`-th snapshot. No histories at all make
      `max` fail. */
  function FromHistories(hs: map<string, seq<Stimulus>>): (r: Result<seq<Env>>)
    ensures hs == map[] <==> r == Err(EmptyMax)
    ensures r.Ok? ==> IsLongest(hs, |r.value|)
    ensures r.Ok? ==> forall i, cs :: 0 <= i < |r.value| ==> (cs in r.value[i] <==> cs in hs && i < |hs[cs]|)
    ensures r.Ok? ==> forall i, cs :: 0 <= i < |r.value| && cs in r.value[i] ==> r.value[i][cs] == hs[cs][i]
  {
    if hs == map[] then Err(EmptyMax)
    else
      var longest := Longest(hs);
      Ok(seq(longest, i requires 0 <= i < longest => map cs | cs in hs && |hs[cs]| > i :: hs[cs][i]))
  }

  /** The positions of `envs` that hold `cs`, read back in order. */
  function Column(envs: seq<Env>, cs: string): seq<Stimulus> {
    if |envs| == 0 then []
    else Column(envs[..|envs| - 1], cs) + (if cs in envs[|envs| - 1] then [envs[|envs| - 1][cs]] else [])
  }

  /** Transposition loses nothing: reading one CS back out of the per-step
      environments gives its history. */
  lemma TransposeKeepsHistories(hs: map<string, seq<Stimulus>>, cs: string)
    requires cs in hs
    ensures FromHistories(hs).Ok?
    ensures Column(FromHistories(hs).value, cs) == hs[cs]
  {
    var envs := FromHistories(hs).value;
    ColumnPrefix(envs, hs, cs, |envs|);
    assert envs[..|envs|] == envs;
  }

  /** The steps of non-empty histories: at least one, the first holding
      every history's first snapshot, and each CS present in as many steps
      as its history is long. */
  lemma HistoryShape(hs: map<string, seq<Stimulus>>, cs: string)
    requires FromHistories(hs).Ok? && forall c :: c in hs ==> |hs[c]| > 0
    ensures var envs := FromHistories(hs).value;
      && |envs| > 0
      && (cs in hs ==> cs in envs[0] && envs[0][cs] == hs[cs][0] && |Column(envs, cs)| == |hs[cs]|)
      && (forall i :: 0 <= i < |envs| ==> (cs in envs[i] <==> cs in hs && i < |hs[cs]|))
  {
    if cs in hs {
      TransposeKeepsHistories(hs, cs);
    }
  }

  lemma {:induction false} ColumnPrefix(envs: seq<Env>, hs: map<string, seq<Stimulus>>, cs: string, m: nat)
    requires cs in hs && m <= |envs| && |hs[cs]| <= |envs|
    requires forall i :: 0 <= i < |envs| ==> (cs in envs[i] <==> i < |hs[cs]|)
    requires forall i :: 0 <= i < |envs| && cs in envs[i] ==> envs[i][cs] == hs[cs][i]
    ensures Column(envs[..m], cs) == hs[cs][..if m < |hs[cs]| then m else |hs[cs]|]
  {
    if m > 0 {
      ColumnPrefix(envs, hs, cs, m - 1);
      assert envs[..m][..m - 1] == envs[..m - 1];
    }
  }

  /** The single-character names of an environment. */
  function Simples(e: Env): set<char> {
    set k | k in e && |k| == 1 :: k[0]
  }

  /** `Environment.combined_cs`: the sorted concatenation of every non-empty
      combination of single-character names. */
  function CombinedCs(e: Env): set<string> {
    set sub | sub <= Simples(e) && sub != {} :: SortedChars(sub)
  }

  /** A name is a combined CS exactly when it is non-empty, its characters
      strictly increase, and each of them is a stored single-character name. */
  lemma CombinedCsMembers(e: Env, x: string)
    ensures x in CombinedCs(e) <==> x != [] && StrictlyIncreasing(x) && forall i :: 0 <= i < |x| ==> [x[i]] in e
  {
    if x in CombinedCs(e) {
      var sub :| sub <= Simples(e) && sub != {} && x == SortedChars(sub);
      SortedCharsSpec(sub);
      forall i | 0 <= i < |x| ensures [x[i]] in e {
        assert x[i] in CharSet(x);
        var k :| k in e && |k| == 1 && k[0] == x[i];
        assert k == [x[i]];
      }
    }
    if x != [] && StrictlyIncreasing(x) && forall i :: 0 <= i < |x| ==> [x[i]] in e {
      var sub := CharSet(x);
      assert x[0] in sub;
      forall c | c in sub ensures c in Simples(e) {
        var i :| 0 <= i < |x| && x[i] == c;
        assert [c] in e && |[c]| == 1 && [c][0] == c;
      }
      SortedCharsUnique(x);
    }
  }

  /** With `k` single-character names there are `2^k - 1` combined CS. */
  lemma CombinedCsCount(e: Env)
    ensures |CombinedCs(e)| == Pow2(|Simples(e)|) - 1
  {
    var s := Simples(e);
    var nonEmpty := Subsets(s) - {{}};
    SubsetsCard(s);
    assert {} in Subsets(s);
    assert |nonEmpty| == |Subsets(s)| - 1;
    SpellingsCard(nonEmpty);
    assert CombinedCs(e) == Spellings(nonEmpty);
  }

  /** `Environment.ordered_cs`: the combined CS sorted by length, then name. */
  function OrderedCs(e: Env): (r: seq<string>)
    ensures forall x :: x in r <==> x in CombinedCs(e)
    ensures |r| == |CombinedCs(e)|
    ensures StrictlySorted(ByLength, r)
  {
    SortSet(ByLength, CombinedCs(e))
  }

  /** `Environment.assocs`: the associative strength of every stored CS. */
  function Assocs(e: Env): (r: map<string, real>)
    ensures r.Keys == e.Keys
    ensures forall k :: k in e ==> r[k] == e[k].assoc
  {
    map k | k in e :: e[k].assoc
  }
}
