/** Finite-set facts behind `Environment.combined_cs`: sorted spellings of
    character sets and the number of non-empty subsets. */
module Counting {

  function Pow2(k: nat): (p: nat)
    ensures p >= 1
  {
    if k == 0 then 1 else 2 * Pow2(k - 1)
  }

  /** Every subset of `s`. */
  function Subsets(s: set<char>): set<set<char>> {
    set sub | sub <= s
  }

  /** The subsets of `s` that contain `x`, built from those that do not. */
  function WithElement(subs: set<set<char>>, x: char): set<set<char>> {
    set sub | sub in subs :: sub + {x}
  }

  /** The subsets of `s` split into those without `x` and those with it. */
  lemma SubsetsSplit(s: set<char>, x: char)
    requires x in s
    ensures Subsets(s) == Subsets(s - {x}) + WithElement(Subsets(s - {x}), x)
    ensures Subsets(s - {x}) !! WithElement(Subsets(s - {x}), x)
  {
    var rest := s - {x};
    forall sub | sub in Subsets(s) ensures sub in Subsets(rest) + WithElement(Subsets(rest), x) {
      if x in sub {
        assert sub - {x} in Subsets(rest);
        assert sub == (sub - {x}) + {x};
      } else {
        assert sub <= rest;
      }
    }
    forall sub | sub in WithElement(Subsets(rest), x) ensures sub !in Subsets(rest) {
      assert x in sub;
    }
  }

  lemma {:induction false} WithElementCard(subs: set<set<char>>, x: char)
    requires forall sub :: sub in subs ==> x !in sub
    ensures |WithElement(subs, x)| == |subs|
    decreases |subs|
  {
    if subs != {} {
      var a :| a in subs;
      var rest := subs - {a};
      WithElementCard(rest, x);
      assert WithElement(subs, x) == WithElement(rest, x) + {a + {x}};
      forall b | b in rest ensures b + {x} != a + {x} {
        assert b == (b + {x}) - {x};
        assert a == (a + {x}) - {x};
      }
    }
  }

  /** A set of `k` elements has `2^k` subsets. */
  lemma {:induction false} SubsetsCard(s: set<char>)
    ensures |Subsets(s)| == Pow2(|s|)
    decreases |s|
  {
    if s == {} {
      assert Subsets(s) == {{}} by {
        forall sub | sub in Subsets(s) ensures sub == {} {
        }
      }
    } else {
      var x :| x in s;
      var rest := s - {x};
      SubsetsCard(rest);
      SubsetsSplit(s, x);
      WithElementCard(Subsets(rest), x);
      var without := Subsets(rest);
      var with := WithElement(without, x);
      assert |Subsets(s)| == |without| + |with|;
      assert |rest| == |s| - 1;
    }
  }

  /** The characters of a string, in strictly increasing code-point order. */
  predicate StrictlyIncreasing(x: string) {
    forall i, j :: 0 <= i < j < |x| ==> x[i] < x[j]
  }

  function CharSet(x: string): set<char> {
    set c | c in x
  }

  predicate IsLeast(s: set<char>, c: char) {
    c in s && forall d :: d in s ==> c <= d
  }

  lemma {:induction false} LeastWitness(s: set<char>) returns (c: char)
    requires s != {}
    ensures IsLeast(s, c)
    decreases |s|
  {
    var x :| x in s;
    if s - {x} == {} {
      assert s == {x} by {
        forall y | y in s ensures y == x { assert y !in s - {x}; }
      }
      c := x;
    } else {
      var m := LeastWitness(s - {x});
      c := if x < m then x else m;
      forall d | d in s ensures c <= d {
        if d != x { assert d in s - {x}; }
      }
    }
  }

  lemma LeastExists(s: set<char>)
    requires s != {}
    ensures exists c :: IsLeast(s, c)
  {
    var c := LeastWitness(s);
  }

  function Least(s: set<char>): (c: char)
    requires s != {}
    ensures IsLeast(s, c)
  {
    LeastExists(s);
    var c :| IsLeast(s, c);
    c
  }

  lemma ConsCharSet(c: char, rest: string)
    ensures CharSet([c] + rest) == {c} + CharSet(rest)
  {
    var y := [c] + rest;
    forall d | d in y ensures d in {c} + CharSet(rest) {
      if d != c {
        var i :| 0 <= i < |y| && y[i] == d;
        assert rest[i - 1] == d;
      }
    }
    forall d | d in rest ensures d in y {
      var i :| 0 <= i < |rest| && rest[i] == d;
      assert y[i + 1] == d;
    }
  }

  lemma ConsIncreasing(c: char, rest: string)
    requires StrictlyIncreasing(rest)
    requires forall j :: 0 <= j < |rest| ==> c < rest[j]
    ensures StrictlyIncreasing([c] + rest)
  {
    var y := [c] + rest;
    forall i, j | 0 <= i < j < |y| ensures y[i] < y[j] {
      assert y[j] == rest[j - 1];
      if i > 0 {
        assert y[i] == rest[i - 1];
      }
    }
  }

  /** The sorted concatenation of a set of one-character names, as
      `''.join(sorted(names))` spells it. */
  function SortedChars(s: set<char>): string
    decreases |s|
  {
    if s == {} then "" else [Least(s)] + SortedChars(s - {Least(s)})
  }

  /** The sorted spelling holds exactly the set's characters, once each. */
  lemma {:induction false} SortedCharsMembers(s: set<char>)
    ensures CharSet(SortedChars(s)) == s
    ensures |SortedChars(s)| == |s|
    decreases |s|
  {
    if s != {} {
      var c := Least(s);
      SortedCharsMembers(s - {c});
      ConsCharSet(c, SortedChars(s - {c}));
    }
  }

  /** The sorted spelling is strictly increasing and holds exactly the set's
      characters. */
  lemma {:induction false} SortedCharsSpec(s: set<char>)
    ensures StrictlyIncreasing(SortedChars(s))
    ensures CharSet(SortedChars(s)) == s
    ensures |SortedChars(s)| == |s|
    decreases |s|
  {
    SortedCharsMembers(s);
    if s != {} {
      var c := Least(s);
      var rest := SortedChars(s - {c});
      SortedCharsSpec(s - {c});
      BelowAll(s, c, rest);
      ConsIncreasing(c, rest);
      assert SortedChars(s) == [c] + rest;
    }
  }

  lemma BelowAll(s: set<char>, c: char, rest: string)
    requires IsLeast(s, c) && CharSet(rest) == s - {c}
    ensures forall j :: 0 <= j < |rest| ==> c < rest[j]
  {
    forall j | 0 <= j < |rest| ensures c < rest[j] {
      assert rest[j] in CharSet(rest);
    }
  }

  /** A strictly increasing string is the sorted spelling of its characters. */
  lemma {:induction false} SortedCharsUnique(x: string)
    requires StrictlyIncreasing(x)
    ensures SortedChars(CharSet(x)) == x
    decreases |x|
  {
    if |x| > 0 {
      var s := CharSet(x);
      assert x[0] in s;
      assert IsLeast(s, x[0]) by {
        forall d | d in s ensures x[0] <= d {
          var i :| 0 <= i < |x| && x[i] == d;
        }
      }
      assert Least(s) == x[0];
      var tail := x[1..];
      assert CharSet(tail) == s - {x[0]} by {
        assert x == [x[0]] + tail;
        forall d | d in tail ensures d != x[0] {
          var i :| 0 <= i < |tail| && tail[i] == d;
          assert x[i + 1] == d;
        }
      }
      SortedCharsUnique(tail);
      assert x == [x[0]] + tail;
    }
  }

  /** The sorted spellings of a family of character sets. */
  function Spellings(subs: set<set<char>>): set<string> {
    set sub | sub in subs :: SortedChars(sub)
  }

  /** Distinct sets have distinct sorted spellings, so a family has as many
      spellings as members. */
  lemma {:induction false} SpellingsCard(subs: set<set<char>>)
    ensures |Spellings(subs)| == |subs|
    decreases |subs|
  {
    if subs != {} {
      var a :| a in subs;
      var rest := subs - {a};
      SpellingsCard(rest);
      assert Spellings(subs) == Spellings(rest) + {SortedChars(a)};
      SortedCharsMembers(a);
      forall b | b in rest ensures SortedChars(b) != SortedChars(a) {
        SortedCharsMembers(b);
      }
    }
  }
}
