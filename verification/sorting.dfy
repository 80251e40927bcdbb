/**
 Sorting as Python's `list.sort` does it, for the orders the model uses.
 Every key used here is a total order, so the sorted permutation is unique
 and the stability of Python's sort does not show; the model sorts by
 insertion and proves the result sorted and a permutation of the input.
 */
module Sorting {
  import Seqs

  /** `leq` is total and transitive. */
  ghost predicate IsTotalPreorder<T(!new)>(leq: (T, T) -> bool)
  {
    && (forall a, b :: leq(a, b) || leq(b, a))
    && (forall a, b, c :: leq(a, b) && leq(b, c) ==> leq(a, c))
  }

  /** `leq` is also antisymmetric: a total order. */
  ghost predicate IsTotalOrder<T(!new)>(leq: (T, T) -> bool)
  {
    IsTotalPreorder(leq) && forall a, b :: leq(a, b) && leq(b, a) ==> a == b
  }

  predicate SortedBy<T>(s: seq<T>, leq: (T, T) -> bool)
  {
    forall i, j :: 0 <= i < j < |s| ==> leq(s[i], s[j])
  }

  function Insert<T(!new)>(x: T, s: seq<T>, leq: (T, T) -> bool): (r: seq<T>)
    requires IsTotalPreorder(leq) && SortedBy(s, leq)
    ensures SortedBy(r, leq)
    ensures multiset(r) == multiset(s) + multiset{x}
    ensures |r| == |s| + 1
  {
    if s == [] then [x]
    else if leq(x, s[0]) then [x] + s
    else
      var rest := Insert(x, s[1..], leq);
      assert s == [s[0]] + s[1..];
      assert forall k :: 0 <= k < |rest| ==> leq(s[0], rest[k]) by {
        forall k | 0 <= k < |rest|
          ensures leq(s[0], rest[k])
        {
          assert rest[k] in multiset(rest);
          assert rest[k] == x || rest[k] in multiset(s[1..]);
          if rest[k] != x {
            var j :| 0 <= j < |s[1..]| && s[1..][j] == rest[k];
            assert s[j + 1] == rest[k];
          }
        }
      }
      [s[0]] + rest
  }

  /** Insertion sort. */
  function Sort<T(!new)>(s: seq<T>, leq: (T, T) -> bool): (r: seq<T>)
    requires IsTotalPreorder(leq)
    ensures SortedBy(r, leq)
    ensures multiset(r) == multiset(s)
    ensures |r| == |s|
  {
    if s == [] then []
    else
      assert s == s[..|s| - 1] + [s[|s| - 1]];
      Insert(s[|s| - 1], Sort(s[..|s| - 1], leq), leq)
  }

  /** Under a total order there is only one sorted arrangement of a multiset. */
  lemma {:induction false} SortedUnique<T(!new)>(a: seq<T>, b: seq<T>, leq: (T, T) -> bool)
    requires IsTotalOrder(leq)
    requires SortedBy(a, leq) && SortedBy(b, leq)
    requires multiset(a) == multiset(b)
    ensures a == b
    decreases |a|
  {
    if a != [] {
      assert |a| == |multiset(a)| == |b|;
      SortedHeadsAgree(a, b, leq);
      TailsAgree(a, b);
      SortedUnique(a[1..], b[1..], leq);
      assert a == [a[0]] + a[1..] && b == [b[0]] + b[1..];
    }
  }

  /** Two sorted arrangements of one multiset start with the same element. */
  lemma SortedHeadsAgree<T(!new)>(a: seq<T>, b: seq<T>, leq: (T, T) -> bool)
    requires IsTotalOrder(leq)
    requires SortedBy(a, leq) && SortedBy(b, leq)
    requires multiset(a) == multiset(b) && a != [] && b != []
    ensures a[0] == b[0]
  {
    assert a[0] in multiset(b);
    var j :| 0 <= j < |b| && b[j] == a[0];
    assert b[0] in multiset(a);
    var i :| 0 <= i < |a| && a[i] == b[0];
    assert leq(b[0], a[0]);
    assert leq(a[0], b[0]);
  }

  lemma TailsAgree<T>(a: seq<T>, b: seq<T>)
    requires multiset(a) == multiset(b) && a != [] && b != [] && a[0] == b[0]
    ensures multiset(a[1..]) == multiset(b[1..])
  {
    assert a == [a[0]] + a[1..] && b == [b[0]] + b[1..];
    assert multiset(a) == multiset{a[0]} + multiset(a[1..]);
    assert multiset(b) == multiset{b[0]} + multiset(b[1..]);
    assert multiset(a[1..]) == multiset(a) - multiset{a[0]};
    assert multiset(b[1..]) == multiset(b) - multiset{b[0]};
  }

  /** Sorting keeps exactly the elements of the input. */
  lemma SortKeepsElements<T(!new)>(s: seq<T>, leq: (T, T) -> bool, x: T)
    requires IsTotalPreorder(leq)
    ensures x in Sort(s, leq) <==> x in s
  {
    var r := Sort(s, leq);
    assert x in r <==> x in multiset(r);
    assert x in s <==> x in multiset(s);
  }

  /** A sequence with no repeated element. */
  predicate Distinct<T(==)>(s: seq<T>)
  {
    forall i, j :: 0 <= i < j < |s| ==> s[i] != s[j]
  }

  lemma DistinctIffMultiplicityOne<T>(s: seq<T>)
    ensures Distinct(s) <==> forall x :: x in s ==> multiset(s)[x] == 1
  {
    if s != [] {
      var t := s[1..];
      assert s == [s[0]] + t;
      DistinctIffMultiplicityOne(t);
      if Distinct(s) {
        assert s[0] !in t by {
          assert forall j :: 0 <= j < |t| ==> t[j] == s[j + 1];
        }
        assert Distinct(t) by {
          forall i, j | 0 <= i < j < |t| ensures t[i] != t[j] {
            assert t[i] == s[i + 1] && t[j] == s[j + 1];
          }
        }
      } else {
        var i, j :| 0 <= i < j < |s| && s[i] == s[j];
        if i == 0 {
          assert s[j] in t;
          assert multiset(s)[s[0]] >= 2;
        } else {
          assert t[i - 1] == t[j - 1];
          assert !Distinct(t);
          var x :| x in t && multiset(t)[x] != 1;
          assert multiset(s) == multiset{s[0]} + multiset(t);
          assert x in s && multiset(s)[x] != 1;
        }
      }
    }
  }

  /** Sorting a sequence without repetitions gives one without repetitions. */
  lemma SortKeepsDistinct<T(!new)>(s: seq<T>, leq: (T, T) -> bool)
    requires IsTotalPreorder(leq)
    requires Distinct(s)
    ensures Distinct(Sort(s, leq))
  {
    var r := Sort(s, leq);
    DistinctIffMultiplicityOne(s);
    DistinctIffMultiplicityOne(r);
    forall x | x in r ensures multiset(r)[x] == 1 {
      assert x in multiset(r);
    }
  }

  /** The members of a set in some order, each once. */
  method Enumerate<T>(s: set<T>) returns (r: seq<T>)
    ensures Distinct(r)
    ensures forall x :: x in r <==> x in s
  {
    r := [];
    var rest := s;
    while rest != {}
      invariant rest <= s && Distinct(r)
      invariant forall x :: x in r <==> x in s && x !in rest
      decreases |rest|
    {
      var x :| x in rest;
      r := r + [x];
      rest := rest - {x};
    }
  }

  // ---------------------------------------------------------------------
  // Integers in ascending order

  /** The integer order, as a sort key. */
  predicate IntLeq(a: int, b: int)
  {
    a <= b
  }

  lemma IntLeqIsTotalOrder()
    ensures IsTotalOrder(IntLeq)
  {
  }

  /** Sorted without repetition means strictly increasing. */
  lemma SortedDistinctIncreasing(cs: seq<int>)
    requires SortedBy(cs, IntLeq) && Distinct(cs)
    ensures forall i, j :: 0 <= i < j < |cs| ==> cs[i] < cs[j]
  {
    forall i, j | 0 <= i < j < |cs|
      ensures cs[i] < cs[j]
    {
      assert IntLeq(cs[i], cs[j]) && cs[i] != cs[j];
    }
  }

  /** The members of a set of integers in strictly increasing order: Python's `sorted(s)`. */
  method Ascending(s: set<int>) returns (xs: seq<int>)
    ensures forall x :: x in xs <==> x in s
    ensures forall i :: 0 <= i < |xs| ==> xs[i] in s
    ensures forall i, j :: 0 <= i < j < |xs| ==> xs[i] < xs[j]
  {
    var listed := Enumerate(s);
    IntLeqIsTotalOrder();
    xs := Sort(listed, IntLeq);
    SortKeepsDistinct(listed, IntLeq);
    forall x
      ensures x in xs <==> x in s
    {
      SortKeepsElements(listed, IntLeq, x);
    }
    SortedDistinctIncreasing(xs);
  }

  // ---------------------------------------------------------------------
  // Stable sorting by a key

  /** The keys of `s` are in `leq` order. */
  predicate KeySorted<T, K>(s: seq<T>, key: T -> K, leq: (K, K) -> bool)
  {
    forall i, j :: 0 <= i < j < |s| ==> leq(key(s[i]), key(s[j]))
  }

  /** The elements whose key is `k`. */
  function KeyIs<T, K(==)>(key: T -> K, k: K): T -> bool
  {
    x => key(x) == k
  }

  /**
   Insert `x` into a key-sorted sequence after every element whose key is at
   most its own, so that it lands behind the elements it ties with.
   */
  function InsertAfter<T, K(!new)>(x: T, s: seq<T>, key: T -> K, leq: (K, K) -> bool): (r: seq<T>)
    requires IsTotalOrder(leq) && KeySorted(s, key, leq)
    ensures KeySorted(r, key, leq)
    ensures multiset(r) == multiset(s) + multiset{x}
    ensures |r| == |s| + 1
  {
    if s == [] then [x]
    else
      var init, last := s[..|s| - 1], s[|s| - 1];
      assert s == init + [last];
      if leq(key(last), key(x)) then s + [x]
      else
        var rest := InsertAfter(x, init, key, leq);
        assert forall k :: 0 <= k < |rest| ==> leq(key(rest[k]), key(last)) by {
          forall k | 0 <= k < |rest|
            ensures leq(key(rest[k]), key(last))
          {
            assert rest[k] in multiset(rest);
            if rest[k] != x {
              assert rest[k] in multiset(init);
              var j :| 0 <= j < |init| && init[j] == rest[k];
              assert s[j] == rest[k];
            }
          }
        }
        rest + [last]
  }

  /** `sorted(s, key=key)`: Python's sort is stable, so ties keep their input order. */
  function StableSort<T, K(!new)>(s: seq<T>, key: T -> K, leq: (K, K) -> bool): (r: seq<T>)
    requires IsTotalOrder(leq)
    ensures KeySorted(r, key, leq)
    ensures multiset(r) == multiset(s)
    ensures |r| == |s|
  {
    if s == [] then []
    else
      assert s == s[..|s| - 1] + [s[|s| - 1]];
      InsertAfter(s[|s| - 1], StableSort(s[..|s| - 1], key, leq), key, leq)
  }

  /** The elements of `s` with key `k` and then `x` when it has that key. */
  function WithKeyThen<T, K(==)>(s: seq<T>, x: T, key: T -> K, k: K): seq<T>
  {
    Seqs.Filter(s, KeyIs(key, k)) + (if key(x) == k then [x] else [])
  }

  /** Inserting `x` appends it to the elements that share its key and leaves the other keys' runs alone. */
  lemma {:induction false} InsertAfterStable<T, K(!new)>(x: T, s: seq<T>, key: T -> K, leq: (K, K) -> bool, k: K)
    requires IsTotalOrder(leq) && KeySorted(s, key, leq)
    ensures Seqs.Filter(InsertAfter(x, s, key, leq), KeyIs(key, k)) == WithKeyThen(s, x, key, k)
    decreases |s|
  {
    if s == [] {
      Seqs.FilterSnoc([], x, KeyIs(key, k));
      assert [] + [x] == [x];
    } else if leq(key(s[|s| - 1]), key(x)) {
      InsertBehindLast(x, s, key, leq, k);
    } else {
      InsertAfterStable(x, s[..|s| - 1], key, leq, k);
      InsertBeforeLast(x, s, key, leq, k);
    }
  }

  /** The case where `x` goes at the end. */
  lemma InsertBehindLast<T, K(!new)>(x: T, s: seq<T>, key: T -> K, leq: (K, K) -> bool, k: K)
    requires IsTotalOrder(leq) && KeySorted(s, key, leq)
    requires s != [] && leq(key(s[|s| - 1]), key(x))
    ensures Seqs.Filter(InsertAfter(x, s, key, leq), KeyIs(key, k)) == WithKeyThen(s, x, key, k)
  {
    assert InsertAfter(x, s, key, leq) == s + [x];
    Seqs.FilterSnoc(s, x, KeyIs(key, k));
  }

  /** The case where `x` goes before the last element, whose key is then different from its own. */
  lemma InsertBeforeLast<T, K(!new)>(x: T, s: seq<T>, key: T -> K, leq: (K, K) -> bool, k: K)
    requires IsTotalOrder(leq) && KeySorted(s, key, leq)
    requires s != [] && !leq(key(s[|s| - 1]), key(x))
    requires KeySorted(s[..|s| - 1], key, leq)
    requires Seqs.Filter(InsertAfter(x, s[..|s| - 1], key, leq), KeyIs(key, k)) == WithKeyThen(s[..|s| - 1], x, key, k)
    ensures Seqs.Filter(InsertAfter(x, s, key, leq), KeyIs(key, k)) == WithKeyThen(s, x, key, k)
  {
    InsertAfterUnfold(x, s, key, leq);
    LeqReflexive(leq, key(x));
    FilterPassLast(InsertAfter(x, s[..|s| - 1], key, leq), s, x, key, k);
  }

  lemma LeqReflexive<K(!new)>(leq: (K, K) -> bool, a: K)
    requires IsTotalOrder(leq)
    ensures leq(a, a)
  {
  }

  lemma InsertAfterUnfold<T, K(!new)>(x: T, s: seq<T>, key: T -> K, leq: (K, K) -> bool)
    requires IsTotalOrder(leq) && KeySorted(s, key, leq)
    requires s != [] && !leq(key(s[|s| - 1]), key(x))
    ensures KeySorted(s[..|s| - 1], key, leq)
    ensures InsertAfter(x, s, key, leq) == InsertAfter(x, s[..|s| - 1], key, leq) + [s[|s| - 1]]
  {
  }

  /** Moving an element with a different key past `x` does not change what either key keeps. */
  lemma FilterPassLast<T, K>(rest: seq<T>, s: seq<T>, x: T, key: T -> K, k: K)
    requires s != [] && key(s[|s| - 1]) != key(x)
    requires Seqs.Filter(rest, KeyIs(key, k)) == WithKeyThen(s[..|s| - 1], x, key, k)
    ensures Seqs.Filter(rest + [s[|s| - 1]], KeyIs(key, k)) == WithKeyThen(s, x, key, k)
  {
    var p := KeyIs(key, k);
    var init, last := s[..|s| - 1], s[|s| - 1];
    assert s == init + [last];
    Seqs.FilterSnoc(rest, last, p);
    Seqs.FilterSnoc(init, last, p);
    var f := Seqs.Filter(init, p);
    if key(x) == k {
      assert Seqs.Filter(s, p) == f;
    } else if key(last) == k {
      assert Seqs.Filter(rest, p) == f;
    } else {
      assert Seqs.Filter(rest, p) == f;
    }
  }

  /** The stable sort keeps the input order among the elements of each key. */
  lemma {:induction false} StableSortStable<T, K(!new)>(s: seq<T>, key: T -> K, leq: (K, K) -> bool, k: K)
    requires IsTotalOrder(leq)
    ensures Seqs.Filter(StableSort(s, key, leq), KeyIs(key, k)) == Seqs.Filter(s, KeyIs(key, k))
    decreases |s|
  {
    if s != [] {
      var init, last := s[..|s| - 1], s[|s| - 1];
      assert s == init + [last];
      StableSortStable(init, key, leq, k);
      InsertAfterStable(last, StableSort(init, key, leq), key, leq, k);
      assert StableSort(s, key, leq) == InsertAfter(last, StableSort(init, key, leq), key, leq);
      Seqs.FilterSnoc(init, last, KeyIs(key, k));
    }
  }
}
