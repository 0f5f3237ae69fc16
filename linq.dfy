/**
 * The few .NET collection operations the scheduler relies on, as functions on
 * sequences: LINQ's Where and Except, List.Remove, and the distinctness of a
 * sequence's elements.
 */
module Linq {

  import opened Wrappers

  /** No element occurs twice. */
  predicate Distinct<T(==)>(s: seq<T>) {
    forall i, j | 0 <= i < j < |s| :: s[i] != s[j]
  }

  /** LINQ Where: the elements satisfying p, in their original order. */
  function Where<T>(s: seq<T>, p: T -> bool): (r: seq<T>)
    ensures |r| <= |s|
    ensures forall x | x in r :: x in s && p(x)
    ensures forall x | x in s && p(x) :: x in r
    ensures multiset(r) <= multiset(s)
    ensures forall x | x in s && p(x) :: multiset(r)[x] == multiset(s)[x]
  {
    if s == [] then []
    else
      assert s == [s[0]] + s[1..];
      if p(s[0]) then [s[0]] + Where(s[1..], p) else Where(s[1..], p)
  }

  /** The elements failing p, in their original order: the other half of Where. */
  function WhereNot<T>(s: seq<T>, p: T -> bool): (r: seq<T>)
    ensures forall x | x in r :: x in s && !p(x)
    ensures forall x | x in s && !p(x) :: x in r
    ensures multiset(r) <= multiset(s)
    ensures forall x | x in s && !p(x) :: multiset(r)[x] == multiset(s)[x]
  {
    Where(s, x => !p(x))
  }

  /**
   * LINQ Except: the elements of s that are not in excluded, each at most
   * once, in the order of their first occurrence. Like the library, an element
   * is added to the excluded set as it is yielded, so repeats are dropped.
   */
  function Except<T(==)>(s: seq<T>, excluded: set<T>): (r: seq<T>)
    ensures forall x | x in r :: x in s && x !in excluded
    ensures forall x | x in s && x !in excluded :: x in r
    ensures Distinct(r)
  {
    if s == [] then []
    else if s[0] in excluded then Except(s[1..], excluded)
    else [s[0]] + Except(s[1..], excluded + {s[0]})
  }

  /** r is s without its first occurrence of x, the other elements kept in order. */
  ghost predicate DropsFirst<T>(s: seq<T>, x: T, r: seq<T>) {
    exists i | 0 <= i < |s| && s[i] == x && x !in s[..i] :: r == s[..i] + s[i+1..]
  }

  /**
   * List.Remove: drops the first occurrence of x, if there is one, and keeps
   * the other elements in their order.
   */
  function RemoveFirst<T(==)>(s: seq<T>, x: T): (r: seq<T>)
    ensures x in s ==> multiset(r) == multiset(s) - multiset{x}
    ensures x in s ==> DropsFirst(s, x, r)
    ensures x !in s ==> r == s
  {
    if s == [] then []
    else
      assert s == [s[0]] + s[1..];
      if s[0] == x then
        assert DropsFirst(s, x, s[1..]) by {
          assert s[..0] == [] && s[0+1..] == s[1..];
        }
        s[1..]
      else
        var rest := RemoveFirst(s[1..], x);
        assert x in s ==> DropsFirst(s, x, [s[0]] + rest) by {
          if x in s {
            DropsFirstCons(s, x, rest);
          }
        }
        [s[0]] + rest
  }

  /** Dropping the first x after a different head keeps the head in front. */
  lemma DropsFirstCons<T>(s: seq<T>, x: T, rest: seq<T>)
    requires s != [] && s[0] != x && DropsFirst(s[1..], x, rest)
    ensures DropsFirst(s, x, [s[0]] + rest)
  {
    var j :| 0 <= j < |s[1..]| && s[1..][j] == x && x !in s[1..][..j] && rest == s[1..][..j] + s[1..][j+1..];
    assert s[..j+1] == [s[0]] + s[1..][..j];
    assert s[j+1+1..] == s[1..][j+1..];
  }

  /** List.Remove applied to each element of xs in turn. */
  function RemoveEach<T(==)>(s: seq<T>, xs: seq<T>): (r: seq<T>)
    ensures multiset(r) <= multiset(s)
    ensures multiset(xs) <= multiset(s) ==> multiset(r) == multiset(s) - multiset(xs)
    decreases xs
  {
    if xs == [] then s
    else
      assert xs == [xs[0]] + xs[1..];
      var s1 := RemoveFirst(s, xs[0]);
      assert multiset(xs) <= multiset(s) ==> xs[0] in s && multiset(xs[1..]) <= multiset(s1);
      RemoveEach(s1, xs[1..])
  }

  /**
   * On a sequence without repeats, removing one by one the elements a filter
   * keeps leaves exactly the complementary filter, in its order.
   */
  lemma {:induction false} RemoveEachWhere<T>(s: seq<T>, p: T -> bool)
    requires Distinct(s)
    ensures RemoveEach(s, Where(s, p)) == WhereNot(s, p)
  {
    if s != [] {
      var x, rest := s[0], s[1..];
      assert Distinct(rest) && x !in rest by {
        assert forall i | 0 <= i < |rest| :: rest[i] == s[i + 1];
      }
      RemoveEachWhere(rest, p);
      if p(x) {
        RemoveEachWhereKept(s, p);
      } else {
        RemoveEachWhereDropped(s, p);
      }
    }
  }

  lemma RemoveEachWhereKept<T>(s: seq<T>, p: T -> bool)
    requires s != [] && p(s[0])
    ensures RemoveEach(s, Where(s, p)) == RemoveEach(s[1..], Where(s[1..], p))
    ensures WhereNot(s, p) == WhereNot(s[1..], p)
  {
    assert Where(s, p) == [s[0]] + Where(s[1..], p);
  }

  lemma RemoveEachWhereDropped<T>(s: seq<T>, p: T -> bool)
    requires s != [] && !p(s[0]) && s[0] !in s[1..]
    ensures RemoveEach(s, Where(s, p)) == [s[0]] + RemoveEach(s[1..], Where(s[1..], p))
    ensures WhereNot(s, p) == [s[0]] + WhereNot(s[1..], p)
  {
    assert s == [s[0]] + s[1..];
    RemoveEachCons(s[0], s[1..], Where(s[1..], p));
  }

  /** Removing elements other than the head leaves the head in front. */
  lemma {:induction false} RemoveEachCons<T>(x: T, t: seq<T>, xs: seq<T>)
    requires x !in xs
    ensures RemoveEach([x] + t, xs) == [x] + RemoveEach(t, xs)
    decreases xs
  {
    if xs != [] {
      assert xs[0] != x && x !in xs[1..];
      assert ([x] + t)[1..] == t;
      assert RemoveFirst([x] + t, xs[0]) == [x] + RemoveFirst(t, xs[0]);
      RemoveEachCons(x, RemoveFirst(t, xs[0]), xs[1..]);
    }
  }

  /**
   * On a sequence without repeats, Except by a filter's own output is the
   * complementary filter: the two halves partition the sequence.
   */
  lemma {:induction false} ExceptOfWhere<T>(s: seq<T>, p: T -> bool)
    requires Distinct(s)
    ensures Except(s, set x | x in Where(s, p)) == WhereNot(s, p)
    ensures multiset(Where(s, p)) + multiset(WhereNot(s, p)) == multiset(s)
  {
    ExceptFiltered(s, p, set x | x in Where(s, p));
    PartitionCount(s, p);
  }

  lemma {:induction false} ExceptFiltered<T>(s: seq<T>, p: T -> bool, excluded: set<T>)
    requires Distinct(s)
    requires forall x :: x in s ==> (x in excluded <==> p(x))
    ensures Except(s, excluded) == WhereNot(s, p)
  {
    if s != [] {
      if s[0] in excluded {
        ExceptFiltered(s[1..], p, excluded);
      } else {
        assert forall x :: x in s[1..] ==> x != s[0];
        ExceptFiltered(s[1..], p, excluded + {s[0]});
      }
    }
  }

  lemma {:induction false} PartitionCount<T>(s: seq<T>, p: T -> bool)
    ensures multiset(Where(s, p)) + multiset(WhereNot(s, p)) == multiset(s)
  {
    if s != [] {
      var x, rest := s[0], s[1..];
      var w, n := multiset(Where(rest, p)), multiset(WhereNot(rest, p));
      assert w + n == multiset(rest) by {
        PartitionCount(rest, p);
      }
      assert multiset(s) == multiset{x} + multiset(rest) by {
        assert s == [x] + rest;
      }
      if p(x) {
        assert multiset(Where(s, p)) == multiset{x} + w && multiset(WhereNot(s, p)) == n by {
          assert Where(s, p) == [x] + Where(rest, p);
        }
        MultisetShift(multiset{x}, w, n, multiset(rest));
      } else {
        assert multiset(Where(s, p)) == w && multiset(WhereNot(s, p)) == multiset{x} + n by {
          assert WhereNot(s, p) == [x] + WhereNot(rest, p);
        }
        MultisetSwap(multiset{x}, w, n, multiset(rest));
      }
    }
  }

  /** Except never yields more copies of an element than its input holds. */
  lemma {:induction false} ExceptSubMultiset<T>(s: seq<T>, excluded: set<T>)
    ensures multiset(Except(s, excluded)) <= multiset(s)
  {
    if s != [] {
      assert s == [s[0]] + s[1..];
      if s[0] in excluded {
        ExceptSubMultiset(s[1..], excluded);
      } else {
        ExceptSubMultiset(s[1..], excluded + {s[0]});
      }
    }
  }

  /** On a sequence without repeats, excluding none of its elements gives it back unchanged. */
  lemma {:induction false} ExceptNone<T>(s: seq<T>, excluded: set<T>)
    requires Distinct(s)
    requires forall x | x in s :: x !in excluded
    ensures Except(s, excluded) == s
  {
    if s != [] {
      var x, rest := s[0], s[1..];
      assert Except(rest, excluded + {x}) == rest by {
        assert forall y | y in rest :: y != x && y !in excluded by {
          assert forall y | y in rest :: y in s;
        }
        ExceptNone(rest, excluded + {x});
      }
      assert x in s;
      assert s == [x] + rest;
    }
  }

  /** Adding the same part on the left of both sides of a multiset equation. */
  lemma MultisetShift<T>(a: multiset<T>, b: multiset<T>, x: multiset<T>, c: multiset<T>)
    requires b + x == c
    ensures (a + b) + x == a + c
  {
  }

  /** Adding the same part in the middle of the left side and in front of the right. */
  lemma MultisetSwap<T>(a: multiset<T>, b: multiset<T>, x: multiset<T>, c: multiset<T>)
    requires b + x == c
    ensures b + (a + x) == a + c
  {
  }

  /** Moving the first part of a sum to its end. */
  lemma MultisetFront<T>(a: multiset<T>, b: multiset<T>, c: multiset<T>)
    ensures (b + c) + a == (a + b) + c
  {
  }

  lemma MultisetAssoc<T>(a: multiset<T>, b: multiset<T>, c: multiset<T>)
    ensures a + (b + c) == (a + b) + c
  {
  }

  /** Two parts added to two different summands of a sum. */
  lemma MultisetInterleave<T>(a: multiset<T>, x: multiset<T>, b: multiset<T>, y: multiset<T>, c: multiset<T>)
    ensures (a + x) + ((b + y) + c) == (a + (b + c)) + (x + y)
  {
  }

  /** r can be obtained from s by dropping elements: its elements occur in s in the same order. */
  ghost predicate IsSubsequence<T>(r: seq<T>, s: seq<T>)
    decreases |s|
  {
    if r == [] then true
    else if s == [] then false
    else (r[0] == s[0] && IsSubsequence(r[1..], s[1..])) || IsSubsequence(r, s[1..])
  }

  /** Where keeps the order of its input. */
  lemma {:induction false} WhereSubsequence<T>(s: seq<T>, p: T -> bool)
    ensures IsSubsequence(Where(s, p), s)
  {
    if s != [] {
      WhereSubsequence(s[1..], p);
      if p(s[0]) {
        assert Where(s, p) == [s[0]] + Where(s[1..], p);
        assert Where(s, p)[1..] == Where(s[1..], p);
      }
    }
  }

  /** Where keeps every copy of an element that satisfies the test, wherever it is held. */
  lemma WhereCount<T>(s: seq<T>, p: T -> bool, x: T)
    requires p(x)
    ensures multiset(Where(s, p))[x] == multiset(s)[x]
  {
    if x !in s {
      assert multiset(Where(s, p))[x] <= multiset(s)[x];
    }
  }

  /** WhereNot keeps the order of its input. */
  lemma {:induction false} WhereNotSubsequence<T>(s: seq<T>, p: T -> bool)
    ensures IsSubsequence(WhereNot(s, p), s)
  {
    if s != [] {
      WhereNotSubsequence(s[1..], p);
      if !p(s[0]) {
        assert WhereNot(s, p) == [s[0]] + WhereNot(s[1..], p);
        assert WhereNot(s, p)[1..] == WhereNot(s[1..], p);
      }
    }
  }

  /** A subsequence of d is one of any c + d. */
  lemma {:induction false} SubsequenceOfSuffix<T>(b: seq<T>, c: seq<T>, d: seq<T>)
    requires IsSubsequence(b, d)
    ensures IsSubsequence(b, c + d)
    decreases |c|
  {
    if c == [] {
      assert c + d == d;
    } else if b != [] {
      SubsequenceOfSuffix(b, c[1..], d);
      assert (c + d)[1..] == c[1..] + d;
    }
  }

  /** Subsequences of two parts, joined, are a subsequence of the two parts joined. */
  lemma {:induction false} SubsequenceAppend<T>(a: seq<T>, b: seq<T>, c: seq<T>, d: seq<T>)
    requires IsSubsequence(a, c) && IsSubsequence(b, d)
    ensures IsSubsequence(a + b, c + d)
    decreases |c|
  {
    if a == [] {
      assert a + b == b;
      SubsequenceOfSuffix(b, c, d);
    } else {
      assert (a + b)[0] == a[0] && (a + b)[1..] == a[1..] + b;
      assert (c + d)[0] == c[0] && (c + d)[1..] == c[1..] + d;
      if a[0] == c[0] && IsSubsequence(a[1..], c[1..]) {
        SubsequenceAppend(a[1..], b, c[1..], d);
      } else {
        SubsequenceAppend(a, b, c[1..], d);
      }
    }
  }

  /** LINQ FirstOrDefault: the first element satisfying p, or null when none does. */
  function FirstOrDefault<T>(s: seq<T>, p: T -> bool): (r: Option<T>)
    ensures r.None? <==> forall i | 0 <= i < |s| :: !p(s[i])
    ensures r.Some? ==> exists i | 0 <= i < |s| :: s[i] == r.value && p(s[i]) && forall j | 0 <= j < i :: !p(s[j])
  {
    if s == [] then None
    else if p(s[0]) then Some(s[0])
    else
      var r := FirstOrDefault(s[1..], p);
      assert forall i | 1 <= i < |s| :: s[i] == s[1..][i - 1];
      r
  }

  /** The values paired with key k, in the order of the pairs. */
  function ValuesOf<K(==), V>(pairs: seq<(K, V)>, k: K): (r: seq<V>)
    ensures |r| <= |pairs|
    ensures forall v | v in r :: (k, v) in pairs
    ensures forall i | 0 <= i < |pairs| && pairs[i].0 == k :: pairs[i].1 in r
  {
    if pairs == [] then []
    else
      assert pairs == [pairs[0]] + pairs[1..];
      (if pairs[0].0 == k then [pairs[0].1] else []) + ValuesOf(pairs[1..], k)
  }

  /**
   * ToLookup's grouping keeps the order of the pairs: the values of a key
   * taken from two runs of pairs are those of the first run followed by
   * those of the second, and one pair carrying the key gives its value alone.
   */
  lemma {:induction false} ValuesOfAppend<K, V>(a: seq<(K, V)>, b: seq<(K, V)>, k: K)
    ensures ValuesOf(a + b, k) == ValuesOf(a, k) + ValuesOf(b, k)
    ensures forall v: V :: ValuesOf([(k, v)], k) == [v]
  {
    if a != [] {
      assert (a + b)[0] == a[0] && (a + b)[1..] == a[1..] + b;
      ValuesOfAppend(a[1..], b, k);
    } else {
      assert a + b == b;
    }
  }

  /**
   * LINQ ToLookup, as a map from each key to its values: a key is present
   * exactly when some pair carries it, and then holds every value paired
   * with it, in the order of the pairs.
   */
  function ToLookup<K(==), V>(pairs: seq<(K, V)>): (r: map<K, seq<V>>)
    ensures forall k | k in r :: exists i | 0 <= i < |pairs| :: pairs[i].0 == k
    ensures forall i | 0 <= i < |pairs| :: pairs[i].0 in r
    ensures forall k | k in r :: r[k] == ValuesOf(pairs, k) && r[k] != []
  {
    map k | k in (set i | 0 <= i < |pairs| :: pairs[i].0) :: ValuesOf(pairs, k)
  }

  /** A value under a key of the lookup was paired with that key. */
  lemma ToLookupSound<K, V>(pairs: seq<(K, V)>, k: K, v: V)
    requires k in ToLookup(pairs) && v in ToLookup(pairs)[k]
    ensures (k, v) in pairs
  {
    assert v in ValuesOf(pairs, k);
  }
}
