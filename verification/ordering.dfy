/** Python's `sorted(xs, key = lambda x: (measure(x), x))` over sets of CS
    names: names are ordered by a length measure first and by code point second. */
module Ordering {
  import opened Text

  /** The two sort keys the simulator uses: plain length (`Environment.ordered_cs`)
      and length once the characters `'`, `(` and `)` are stripped from both ends
      (`Phase.compound_cs`). */
  datatype SortKey = ByLength | ByStrippedLength

  predicate IsMark(c: char) {
    c == '\'' || c == '(' || c == ')'
  }

  function Measure(key: SortKey, x: string): nat {
    match key
    case ByLength => |x|
    case ByStrippedLength => |StripWith(x, IsMark)|
  }

  /** `a` sorts strictly before `b`: the tuple `(measure(a), a)` is smaller. */
  predicate Before(key: SortKey, a: string, b: string) {
    Measure(key, a) < Measure(key, b) || (Measure(key, a) == Measure(key, b) && LexLess(a, b))
  }

  lemma BeforeIrreflexive(key: SortKey, a: string)
    ensures !Before(key, a, a)
  {
    LexIrreflexive(a);
  }

  lemma BeforeAsymmetric(key: SortKey, a: string, b: string)
    requires Before(key, a, b)
    ensures !Before(key, b, a)
  {
    if Measure(key, a) == Measure(key, b) {
      LexAsymmetric(a, b);
    }
  }

  lemma BeforeTransitive(key: SortKey, a: string, b: string, c: string)
    requires Before(key, a, b) && Before(key, b, c)
    ensures Before(key, a, c)
  {
    if Measure(key, a) == Measure(key, b) == Measure(key, c) {
      LexTransitive(a, b, c);
    }
  }

  lemma BeforeTotal(key: SortKey, a: string, b: string)
    requires a != b
    ensures Before(key, a, b) || Before(key, b, a)
  {
    LexTotal(a, b);
  }

  /** `m` is the element of `s` that sorts first. */
  predicate IsFirst(key: SortKey, s: set<string>, m: string) {
    m in s && forall y :: y in s && y != m ==> Before(key, m, y)
  }

  lemma {:induction false} FirstWitness(key: SortKey, s: set<string>) returns (m: string)
    requires s != {}
    ensures IsFirst(key, s, m)
    decreases |s|
  {
    var x :| x in s;
    if s - {x} == {} {
      assert s == {x} by {
        forall y | y in s ensures y == x { assert y !in s - {x}; }
      }
      m := x;
    } else {
      var m' := FirstWitness(key, s - {x});
      if x != m' && Before(key, x, m') {
        m := x;
        forall y | y in s && y != m ensures Before(key, m, y) {
          if y != m' {
            assert y in s - {x};
            BeforeTransitive(key, x, m', y);
          }
        }
      } else {
        m := m';
        if x != m' {
          BeforeTotal(key, x, m');
        }
      }
    }
  }

  lemma FirstExistsUnique(key: SortKey, s: set<string>)
    requires s != {}
    ensures exists m :: IsFirst(key, s, m)
    ensures forall m1, m2 :: IsFirst(key, s, m1) && IsFirst(key, s, m2) ==> m1 == m2
  {
    var m := FirstWitness(key, s);
    forall m1, m2 | IsFirst(key, s, m1) && IsFirst(key, s, m2) ensures m1 == m2 {
      if m1 != m2 {
        BeforeAsymmetric(key, m1, m2);
      }
    }
  }

  function First(key: SortKey, s: set<string>): (m: string)
    requires s != {}
    ensures IsFirst(key, s, m)
  {
    FirstExistsUnique(key, s);
    var m :| IsFirst(key, s, m);
    m
  }

  predicate StrictlySorted(key: SortKey, xs: seq<string>) {
    forall i, j :: 0 <= i < j < |xs| ==> Before(key, xs[i], xs[j])
  }

  /** `sorted(s, key = …)` of a set: every member once, in strictly increasing order. */
  function SortSet(key: SortKey, s: set<string>): (r: seq<string>)
    ensures |r| == |s|
    ensures forall x :: x in r <==> x in s
    ensures StrictlySorted(key, r)
    decreases |s|
  {
    if s == {} then []
    else
      var m := First(key, s);
      var rest := SortSet(key, s - {m});
      assert forall i :: 0 <= i < |rest| ==> rest[i] in s - {m};
      ConsSorted(key, m, rest);
      [m] + rest
  }

  lemma ConsSorted(key: SortKey, m: string, rest: seq<string>)
    requires StrictlySorted(key, rest) && forall i :: 0 <= i < |rest| ==> Before(key, m, rest[i])
    ensures StrictlySorted(key, [m] + rest)
  {
    var y := [m] + rest;
    forall i, j | 0 <= i < j < |y| ensures Before(key, y[i], y[j]) {
      assert y[j] == rest[j - 1];
      if i > 0 {
        assert y[i] == rest[i - 1];
      }
    }
  }

  /** A strictly sorted sequence holds no name twice. */
  lemma SortedDistinct(key: SortKey, xs: seq<string>)
    requires StrictlySorted(key, xs)
    ensures forall i, j :: 0 <= i < j < |xs| ==> xs[i] != xs[j]
  {
    forall i, j | 0 <= i < j < |xs| ensures xs[i] != xs[j] {
      if xs[i] == xs[j] {
        BeforeIrreflexive(key, xs[i]);
      }
    }
  }
}
