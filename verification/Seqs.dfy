/** Sequences, multisets and maps of sequences: the vocabulary the operators share. */
module Seqs {

  datatype Option<+T> = None | Some(value: T)

  /** The subsequence of elements that satisfy `p`, in order. */
  function Filter<T>(s: seq<T>, p: T -> bool): (r: seq<T>)
    ensures |r| <= |s|
    ensures forall x :: x in r ==> x in s && p(x)
  {
    if s == [] then [] else
      Filter(s[..|s| - 1], p) + if p(s[|s| - 1]) then [s[|s| - 1]] else []
  }

  lemma {:induction false} FilterSnoc<T>(s: seq<T>, x: T, p: T -> bool)
    ensures Filter(s + [x], p) == Filter(s, p) + if p(x) then [x] else []
  {
    assert (s + [x])[..|s|] == s;
  }

  /** Filtering a prefix that is one longer. */
  lemma {:induction false} FilterNext<T>(s: seq<T>, i: nat, p: T -> bool)
    requires i < |s|
    ensures p(s[i]) ==> Filter(s[..i + 1], p) == Filter(s[..i], p) + [s[i]]
    ensures !p(s[i]) ==> Filter(s[..i + 1], p) == Filter(s[..i], p)
  {
    assert s[..i + 1] == s[..i] + [s[i]];
    FilterSnoc(s[..i], s[i], p);
  }

  lemma {:induction false} LastJoins<T>(s: seq<T>)
    requires s != []
    ensures s[..|s| - 1] + [s[|s| - 1]] == s
  {
  }

  lemma {:induction false} Associates<T>(a: seq<T>, b: seq<T>, c: seq<T>)
    ensures (a + b) + c == a + (b + c)
  {
  }

  lemma {:induction false} NothingAdded<T>(a: seq<T>, b: seq<T>)
    ensures a + ([] + []) == a && a + (b + []) == a + b && a + ([] + b) == a + b
  {
    assert b + [] == b == [] + b;
  }

  lemma {:induction false} FilterConcat<T>(a: seq<T>, b: seq<T>, p: T -> bool)
    ensures Filter(a + b, p) == Filter(a, p) + Filter(b, p)
  {
    if b == [] {
      assert a + b == a;
    } else {
      var b', x := b[..|b| - 1], b[|b| - 1];
      var tail := if p(x) then [x] else [];
      calc {
        Filter(a + b, p);
        { assert a + b == (a + b') + [x]; }
        Filter((a + b') + [x], p);
        { FilterSnoc(a + b', x, p); }
        Filter(a + b', p) + tail;
        { FilterConcat(a, b', p); }
        (Filter(a, p) + Filter(b', p)) + tail;
        { Associates(Filter(a, p), Filter(b', p), tail); }
        Filter(a, p) + (Filter(b', p) + tail);
      }
    }
  }

  lemma {:induction false} CountSnoc<T>(s: seq<T>, x: T, y: T)
    ensures multiset(s + [x])[y] == multiset(s)[y] + if x == y then 1 else 0
  {
  }

  /** The last element may or may not be there. */
  lemma {:induction false} CountMaybe<T>(s: seq<T>, there: bool, x: T, y: T)
    ensures multiset(s + if there then [x] else [])[y] == multiset(s)[y] + if there && x == y then 1 else 0
  {
    if there {
      CountSnoc(s, x, y);
    } else {
      assert s + [] == s;
    }
  }

  lemma {:induction false} CountLast<T>(s: seq<T>, y: T)
    requires s != []
    ensures multiset(s)[y] == multiset(s[..|s| - 1])[y] + if s[|s| - 1] == y then 1 else 0
  {
    assert s == s[..|s| - 1] + [s[|s| - 1]];
    CountSnoc(s[..|s| - 1], s[|s| - 1], y);
  }

  /** A second filter that asks for more makes the first one superfluous. */
  lemma {:induction false} FilterTwice<T(!new)>(s: seq<T>, p: T -> bool, q: T -> bool)
    requires forall x :: q(x) ==> p(x)
    ensures Filter(Filter(s, p), q) == Filter(s, q)
  {
    if s != [] {
      FilterTwice(s[..|s| - 1], p, q);
      if p(s[|s| - 1]) {
        FilterSnoc(Filter(s[..|s| - 1], p), s[|s| - 1], q);
      } else {
        assert Filter(s[..|s| - 1], p) + [] == Filter(s[..|s| - 1], p);
        assert Filter(s[..|s| - 1], q) + [] == Filter(s[..|s| - 1], q);
      }
    }
  }

  /** Filtering keeps exactly the occurrences that satisfy the predicate. */
  lemma {:induction false} FilterCount<T>(s: seq<T>, p: T -> bool, x: T)
    ensures multiset(Filter(s, p))[x] == if p(x) then multiset(s)[x] else 0
  {
    if s != [] {
      FilterCount(s[..|s| - 1], p, x);
      assert s == s[..|s| - 1] + [s[|s| - 1]];
    }
  }

  lemma {:induction false} FilterNone<T>(s: seq<T>, p: T -> bool)
    requires forall x :: x in s ==> !p(x)
    ensures Filter(s, p) == []
  {
    if s != [] {
      FilterNone(s[..|s| - 1], p);
    }
  }

  lemma {:induction false} FilterAll<T>(s: seq<T>, p: T -> bool)
    requires forall x :: x in s ==> p(x)
    ensures Filter(s, p) == s
  {
    if s != [] {
      var s', x := s[..|s| - 1], s[|s| - 1];
      assert p(x) && s == s' + [x];
      FilterAll(s', p);
      FilterSnoc(s', x, p);
    }
  }

  /** Go's read of a missing map entry: the empty slice. */
  function At<K, T>(m: map<K, seq<T>>, k: K): (xs: seq<T>)
  {
    if k in m then m[k] else []
  }

  /** `a` is `b` with some elements left out: the order is kept. */
  ghost predicate Subsequence<T>(a: seq<T>, b: seq<T>)
  {
    a == [] || (b != [] && (Subsequence(a, b[..|b| - 1])
                            || (a[|a| - 1] == b[|b| - 1] && Subsequence(a[..|a| - 1], b[..|b| - 1]))))
  }

  lemma {:induction false} SubsequenceRefl<T>(a: seq<T>)
    ensures Subsequence(a, a)
  {
    if a != [] {
      SubsequenceRefl(a[..|a| - 1]);
    }
  }

  lemma {:induction false} SubsequenceSnoc<T>(a: seq<T>, b: seq<T>, x: T)
    requires Subsequence(a, b)
    ensures Subsequence(a + [x], b + [x])
    ensures Subsequence(a, b + [x])
  {
    assert (a + [x])[..|a|] == a && (b + [x])[..|b|] == b;
  }

  lemma {:induction false} SubsequenceTrans<T>(a: seq<T>, b: seq<T>, c: seq<T>)
    requires Subsequence(a, b) && Subsequence(b, c)
    ensures Subsequence(a, c)
    decreases |c|
  {
    if a != [] && b != [] && c != [] {
      var c' := c[..|c| - 1];
      if Subsequence(b, c') {
        SubsequenceTrans(a, b, c');
      } else if Subsequence(a, b[..|b| - 1]) {
        SubsequenceTrans(a, b[..|b| - 1], c');
      } else {
        SubsequenceTrans(a[..|a| - 1], b[..|b| - 1], c');
      }
    }
  }

  lemma {:induction false} DropIsSubsequence<T>(a: seq<T>, n: nat)
    requires n <= |a|
    ensures Subsequence(a[n..], a)
  {
    if n == |a| {
    } else {
      var a' := a[..|a| - 1];
      DropIsSubsequence(a', n);
      assert a[n..][..|a| - n - 1] == a'[n..];
    }
  }

  lemma {:induction false} FilterIsSubsequence<T>(a: seq<T>, p: T -> bool)
    ensures Subsequence(Filter(a, p), a)
  {
    if a != [] {
      var a', x := a[..|a| - 1], a[|a| - 1];
      FilterIsSubsequence(a', p);
      SubsequenceSnoc(Filter(a', p), a', x);
      assert a == a' + [x];
      if p(x) {
        assert Filter(a, p) == Filter(a', p) + [x];
      } else {
        assert Filter(a, p) == Filter(a', p);
      }
    }
  }

  /** The number of elements held in a map of lists. */
  ghost function TotalLen<K(!new), T>(m: map<K, seq<T>>): nat
  {
    if m == map[] then 0 else
      var k :| k in m;
      |m[k]| + TotalLen(m - {k})
  }

  lemma {:induction false} TotalLenRemove<K(!new), T>(m: map<K, seq<T>>, k: K)
    requires k in m
    ensures TotalLen(m) == |m[k]| + TotalLen(m - {k})
    decreases |m|
  {
    var c :| c in m && TotalLen(m) == |m[c]| + TotalLen(m - {c});
    if c != k {
      TotalLenRemove(m - {c}, k);
      TotalLenRemove(m - {k}, c);
      assert (m - {c}) - {k} == (m - {k}) - {c};
    }
  }

  lemma {:induction false} TotalLenUpdate<K(!new), T>(m: map<K, seq<T>>, k: K, xs: seq<T>)
    ensures TotalLen(m[k := xs]) == TotalLen(m) - |At(m, k)| + |xs|
  {
    var m' := m[k := xs];
    TotalLenRemove(m', k);
    assert m' - {k} == m - {k};
    if k in m {
      TotalLenRemove(m, k);
    } else {
      assert m - {k} == m;
    }
  }

  /** `keys` lists the members of `all`, each exactly once: one order in which Go may visit a map. */
  ghost predicate Enumerates<K(!new)>(keys: seq<K>, all: set<K>) {
    && (forall k :: k in keys <==> k in all)
    && (forall i, j :: 0 <= i < j < |keys| ==> keys[i] != keys[j])
  }

  /** The pairs that `a` occurrences form with `b` others. */
  function Pairs(a: nat, b: nat): nat {
    a * b
  }

  lemma {:induction false} NoPairs(b: nat)
    ensures Pairs(0, b) == 0 == Pairs(b, 0)
  {
  }

  lemma {:induction false} SomePairs(a: nat, b: nat)
    ensures Pairs(a, b) > 0 <==> a > 0 && b > 0
  {
  }

  lemma {:induction false} MorePairs(a: nat, c: nat, b: nat)
    ensures Pairs(a + c, b) == Pairs(a, b) + Pairs(c, b)
    ensures Pairs(b, a + c) == Pairs(b, a) + Pairs(c, b)
  {
  }

  lemma {:induction false} PairsGrow(c: nat, a: nat, b: nat)
    requires a <= b
    ensures Pairs(c, a) <= Pairs(c, b)
  {
    if a < b {
      MorePairs(a, b - a, c);
    }
  }

  lemma {:induction false} OneMorePair(a: nat, b: nat)
    ensures Pairs(a + 1, b) == Pairs(a, b) + b && Pairs(a, b + 1) == Pairs(a, b) + a
  {
  }
}
