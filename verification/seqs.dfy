/**
 Order-preserving selection over sequences: the reference definition that
 the list comprehensions and filtering loops of the Telegram pipeline are
 proved against.
 */
module Seqs {
  import opened Wrappers

  /** The elements of `s` that satisfy `p`, in their original order. */
  function Filter<T>(s: seq<T>, p: T -> bool): (r: seq<T>)
    ensures |r| <= |s|
    ensures forall k :: 0 <= k < |r| ==> p(r[k])
  {
    if |s| == 0 then []
    else
      var init := Filter(s[..|s| - 1], p);
      if p(s[|s| - 1]) then init + [s[|s| - 1]] else init
  }

  /** An element is kept exactly when it occurs in `s` and satisfies `p`. */
  lemma {:induction false} FilterMembers<T>(s: seq<T>, p: T -> bool, x: T)
    ensures x in Filter(s, p) <==> x in s && p(x)
  {
    if |s| > 0 {
      FilterMembers(s[..|s| - 1], p, x);
      assert s == s[..|s| - 1] + [s[|s| - 1]];
    }
  }

  /** `FilterMembers` for every element at once. */
  lemma FilterMembersAll<T>(s: seq<T>, p: T -> bool)
    ensures forall x :: x in Filter(s, p) <==> x in s && p(x)
  {
    forall x
      ensures x in Filter(s, p) <==> x in s && p(x)
    {
      FilterMembers(s, p, x);
    }
  }

  /** Filtering a sequence extended by one element. */
  lemma FilterSnoc<T>(s: seq<T>, x: T, p: T -> bool)
    ensures Filter(s + [x], p) == if p(x) then Filter(s, p) + [x] else Filter(s, p)
  {
    assert (s + [x])[..|s + [x]| - 1] == s;
  }

  /** Filtering a single element keeps it exactly when it passes. */
  lemma FilterSingle<T>(x: T)
    ensures forall p: T -> bool :: Filter([x], p) == if p(x) then [x] else []
  {
    assert [x][..0] == [];
  }

  /** Filtering distributes over concatenation. */
  lemma {:induction false} FilterConcat<T>(a: seq<T>, b: seq<T>, p: T -> bool)
    ensures Filter(a + b, p) == Filter(a, p) + Filter(b, p)
    decreases |b|
  {
    if |b| == 0 {
      assert a + b == a;
    } else {
      var init := b[..|b| - 1];
      var x := b[|b| - 1];
      FilterConcat(a, init, p);
      assert a + b == (a + init) + [x];
      assert b == init + [x];
      FilterSnoc(a + init, x, p);
      FilterSnoc(init, x, p);
      if p(x) {
        calc {
          Filter(a + b, p);
          Filter(a + init, p) + [x];
          (Filter(a, p) + Filter(init, p)) + [x];
          Filter(a, p) + (Filter(init, p) + [x]);
        }
      }
    }
  }

  /** When every element passes, nothing is dropped. */
  lemma {:induction false} FilterKeepsAll<T>(s: seq<T>, p: T -> bool)
    requires forall k :: 0 <= k < |s| ==> p(s[k])
    ensures Filter(s, p) == s
  {
    if |s| > 0 {
      FilterKeepsAll(s[..|s| - 1], p);
      assert s == s[..|s| - 1] + [s[|s| - 1]];
    }
  }

  /** Every element lands on exactly one side of a filter and its complement. */
  lemma {:induction false} FilterPartition<T>(s: seq<T>, p: T -> bool)
    ensures |Filter(s, p)| + |Filter(s, x => !p(x))| == |s|
  {
    if |s| > 0 {
      FilterPartition(s[..|s| - 1], p);
    }
  }

  /** Two tests that agree on every element select the same elements. */
  lemma {:induction false} FilterExt<T>(s: seq<T>, p: T -> bool, q: T -> bool)
    requires forall x :: p(x) == q(x)
    ensures Filter(s, p) == Filter(s, q)
  {
    if |s| > 0 {
      FilterExt(s[..|s| - 1], p, q);
    }
  }

  /** Filtering twice with the same predicate changes nothing. */
  lemma FilterIdempotent<T>(s: seq<T>, p: T -> bool)
    ensures Filter(Filter(s, p), p) == Filter(s, p)
  {
    FilterKeepsAll(Filter(s, p), p);
  }

  /** Filtering by `p` and then by `q` is filtering by both. */
  lemma {:induction false} FilterFilter<T>(s: seq<T>, p: T -> bool, q: T -> bool)
    ensures Filter(Filter(s, p), q) == Filter(s, x => p(x) && q(x))
  {
    if |s| > 0 {
      var init := s[..|s| - 1];
      var x := s[|s| - 1];
      FilterFilter(init, p, q);
      if p(x) {
        FilterSnoc(Filter(init, p), x, q);
      }
    }
  }

  // ---------------------------------------------------------------------
  // First match

  /** The position of the first element satisfying `p`, None when there is none. */
  function FirstIndex<T>(s: seq<T>, p: T -> bool): (r: Option<nat>)
    ensures r.Some? ==> r.value < |s| && p(s[r.value])
    ensures r.Some? ==> forall j :: 0 <= j < r.value ==> !p(s[j])
    ensures r.None? ==> forall j :: 0 <= j < |s| ==> !p(s[j])
  {
    if s == [] then None
    else if p(s[0]) then Some(0)
    else
      match FirstIndex(s[1..], p)
      case None => None
      case Some(k) => Some(k + 1)
  }

  /** The first index is pinned down by its element passing and every earlier one failing. */
  lemma {:induction false} FirstIndexIs<T>(s: seq<T>, p: T -> bool, i: nat)
    requires i < |s| && p(s[i]) && forall j :: 0 <= j < i ==> !p(s[j])
    ensures FirstIndex(s, p) == Some(i)
  {
    if i > 0 {
      FirstIndexIs(s[1..], p, i - 1);
    }
  }

  /** One more element that fails extends the failing prefix. */
  lemma NoneBeforeNext<T>(s: seq<T>, p: T -> bool, i: nat)
    requires i < |s| && !p(s[i]) && forall j :: 0 <= j < i ==> !p(s[j])
    ensures forall j :: 0 <= j < i + 1 ==> !p(s[j])
  {
  }

  lemma FirstIndexNone<T>(s: seq<T>, p: T -> bool)
    requires forall j :: 0 <= j < |s| ==> !p(s[j])
    ensures FirstIndex(s, p).None?
  {
  }

  // ---------------------------------------------------------------------
  // Filtering loops

  /** A loop appending every element that satisfies `p`. */
  method FilterLoop<T>(s: seq<T>, p: T -> bool) returns (r: seq<T>)
    ensures r == Filter(s, p)
  {
    r := [];
    var i := 0;
    while i < |s|
      invariant 0 <= i <= |s|
      invariant r == Filter(s[..i], p)
    {
      assert s[..i + 1] == s[..i] + [s[i]];
      FilterSnoc(s[..i], s[i], p);
      if p(s[i]) {
        r := r + [s[i]];
      }
      i := i + 1;
    }
    assert s[..i] == s;
  }

  /** A loop that keeps the elements satisfying `keep` and counts the others. */
  method DropCounting<T>(s: seq<T>, keep: T -> bool) returns (kept: seq<T>, dropped: nat)
    ensures kept == Filter(s, keep)
    ensures |kept| + dropped == |s|
  {
    kept := [];
    dropped := 0;
    var i := 0;
    while i < |s|
      invariant 0 <= i <= |s|
      invariant kept == Filter(s[..i], keep)
      invariant |kept| + dropped == i
    {
      assert s[..i + 1] == s[..i] + [s[i]];
      FilterSnoc(s[..i], s[i], keep);
      if keep(s[i]) {
        kept := kept + [s[i]];
      } else {
        dropped := dropped + 1;
      }
      i := i + 1;
    }
    assert s[..i] == s;
  }

  // ---------------------------------------------------------------------
  // Grouping by key

  /** The admitted elements whose key is `k`, in their original order. */
  function Bucket<T, K(==)>(s: seq<T>, admit: T -> bool, key: T -> K, k: K): seq<T>
  {
    Filter(s, x => admit(x) && key(x) == k)
  }

  /** `g` holds exactly the non-empty buckets. */
  ghost predicate IsGrouping<T, K(!new)>(g: map<K, seq<T>>, s: seq<T>, admit: T -> bool, key: T -> K)
  {
    forall k :: (k in g <==> Bucket(s, admit, key, k) != []) && (k in g ==> g[k] == Bucket(s, admit, key, k))
  }

  /** A loop appending each admitted element to the list under its key. */
  method GroupBy<T, K(!new)>(s: seq<T>, admit: T -> bool, key: T -> K) returns (g: map<K, seq<T>>)
    ensures IsGrouping(g, s, admit, key)
  {
    g := map[];
    var i := 0;
    while i < |s|
      invariant 0 <= i <= |s|
      invariant IsGrouping(g, s[..i], admit, key)
    {
      var x := s[i];
      assert s[..i + 1] == s[..i] + [x];
      forall k
        ensures Bucket(s[..i + 1], admit, key, k) ==
          if admit(x) && key(x) == k then Bucket(s[..i], admit, key, k) + [x] else Bucket(s[..i], admit, key, k)
      {
        FilterSnoc(s[..i], x, y => admit(y) && key(y) == k);
      }
      if admit(x) {
        var prev := if key(x) in g then g[key(x)] else [];
        g := g[key(x) := prev + [x]];
      }
      i := i + 1;
    }
    assert s[..i] == s;
  }

  /** A bucket of a sequence extended by one element. */
  lemma BucketSnoc<T, K>(s: seq<T>, x: T, admit: T -> bool, key: T -> K, k: K)
    ensures Bucket(s + [x], admit, key, k) ==
      if admit(x) && key(x) == k then Bucket(s, admit, key, k) + [x] else Bucket(s, admit, key, k)
  {
    FilterSnoc(s, x, y => admit(y) && key(y) == k);
  }

  /** An element sits in exactly the bucket of its own key. */
  lemma BucketMembership<T, K>(s: seq<T>, admit: T -> bool, key: T -> K, k: K, x: T)
    ensures x in Bucket(s, admit, key, k) <==> x in s && admit(x) && key(x) == k
  {
    FilterMembers(s, y => admit(y) && key(y) == k, x);
  }

  // ---------------------------------------------------------------------
  // First occurrence by key

  /** Position `i` holds the first element with its key, and that key passes `ok`. */
  predicate FirstWithKey<T>(s: seq<T>, i: nat, key: T -> Option<int>, ok: int -> bool)
    requires i < |s|
  {
    key(s[i]).Some? && ok(key(s[i]).value) && forall j :: 0 <= j < i ==> key(s[j]) != key(s[i])
  }

  /** The first occurrence of every accepted key, in input order. */
  function FirstOccurrences<T>(s: seq<T>, key: T -> Option<int>, ok: int -> bool): seq<T>
  {
    if |s| == 0 then []
    else
      var tail := if FirstWithKey(s, |s| - 1, key, ok) then [s[|s| - 1]] else [];
      FirstOccurrences(s[..|s| - 1], key, ok) + tail
  }

  /** The accepted keys occurring in `s`. */
  function KeysOf<T>(s: seq<T>, key: T -> Option<int>, ok: int -> bool): set<int>
  {
    set j | 0 <= j < |s| && key(s[j]).Some? && ok(key(s[j]).value) :: key(s[j]).value
  }

  /** A loop keeping an element when its key is present, accepted and not seen before. */
  method FirstOccurrencesLoop<T>(s: seq<T>, key: T -> Option<int>, ok: int -> bool) returns (res: seq<T>)
    ensures res == FirstOccurrences(s, key, ok)
  {
    res := [];
    var seen: set<int> := {};
    var i := 0;
    while i < |s|
      invariant 0 <= i <= |s|
      invariant res == FirstOccurrences(s[..i], key, ok)
      invariant seen == KeysOf(s[..i], key, ok)
    {
      var x := s[i];
      var pre := s[..i + 1];
      assert pre[..i] == s[..i];
      assert pre[i] == x;
      if key(x).None? || !ok(key(x).value) {
        assert !FirstWithKey(pre, i, key, ok);
        assert KeysOf(pre, key, ok) == KeysOf(s[..i], key, ok);
      } else if key(x).value in seen {
        var j :| 0 <= j < i && key(s[..i][j]).Some? && ok(key(s[..i][j]).value) && key(s[..i][j]).value == key(x).value;
        assert key(pre[j]) == key(x);
        assert !FirstWithKey(pre, i, key, ok);
        assert KeysOf(pre, key, ok) == KeysOf(s[..i], key, ok);
      } else {
        forall j | 0 <= j < i
          ensures key(pre[j]) != key(pre[i])
        {
          assert pre[j] == s[..i][j];
        }
        assert FirstWithKey(pre, i, key, ok);
        assert KeysOf(pre, key, ok) == KeysOf(s[..i], key, ok) + {key(x).value};
        seen := seen + {key(x).value};
        res := res + [x];
      }
      i := i + 1;
    }
    assert s[..i] == s;
  }

  /** Every element of `r` has an accepted key, and no key occurs twice. */
  predicate AcceptedDistinctKeys<T>(r: seq<T>, key: T -> Option<int>, ok: int -> bool)
  {
    && (forall k :: 0 <= k < |r| ==> key(r[k]).Some? && ok(key(r[k]).value))
    && (forall k, l :: 0 <= k < l < |r| ==> key(r[k]) != key(r[l]))
  }

  /** Every kept element has an accepted key, no key is kept twice, and nothing is invented. */
  lemma {:induction false} FirstOccurrencesDistinct<T>(s: seq<T>, key: T -> Option<int>, ok: int -> bool)
    ensures AcceptedDistinctKeys(FirstOccurrences(s, key, ok), key, ok)
    ensures forall x :: x in FirstOccurrences(s, key, ok) ==> x in s
  {
    if |s| > 0 {
      var init := s[..|s| - 1];
      var last := s[|s| - 1];
      FirstOccurrencesDistinct(init, key, ok);
      var prev := FirstOccurrences(init, key, ok);
      var r := FirstOccurrences(s, key, ok);
      assert forall x :: x in init ==> x in s;
      if FirstWithKey(s, |s| - 1, key, ok) {
        assert r == prev + [last];
        forall k | 0 <= k < |prev|
          ensures key(prev[k]) != key(last)
        {
          assert prev[k] in init;
          var j :| 0 <= j < |init| && init[j] == prev[k];
          assert s[j] == prev[k];
        }
        forall k, l | 0 <= k < l < |r|
          ensures key(r[k]) != key(r[l])
        {
          if l == |prev| {
            assert r[k] == prev[k] && r[l] == last;
          } else {
            assert r[k] == prev[k] && r[l] == prev[l];
          }
        }
        assert forall k :: 0 <= k < |r| ==> r[k] == if k < |prev| then prev[k] else last;
      } else {
        assert r == prev;
      }
    }
  }

  /** Every accepted key that occurs is kept once. */
  lemma {:induction false} FirstOccurrencesKeepEveryKey<T>(s: seq<T>, key: T -> Option<int>, ok: int -> bool, i: nat)
    requires i < |s| && key(s[i]).Some? && ok(key(s[i]).value)
    ensures var r := FirstOccurrences(s, key, ok);
      exists k :: 0 <= k < |r| && key(r[k]) == key(s[i])
    decreases |s|
  {
    var n := |s| - 1;
    var init := s[..n];
    var prev := FirstOccurrences(init, key, ok);
    if exists j :: 0 <= j < n && key(s[j]) == key(s[i]) {
      var j :| 0 <= j < n && key(s[j]) == key(s[i]);
      assert init[j] == s[j];
      FirstOccurrencesKeepEveryKey(init, key, ok, j);
      var k :| 0 <= k < |prev| && key(prev[k]) == key(s[i]);
      assert FirstOccurrences(s, key, ok)[k] == prev[k];
    } else {
      assert i == n;
      assert FirstWithKey(s, n, key, ok);
      assert FirstOccurrences(s, key, ok) == prev + [s[i]];
      assert FirstOccurrences(s, key, ok)[|prev|] == s[i];
    }
  }

  // ---------------------------------------------------------------------
  // Small equalities the solver does not find in a large context

  lemma SnocAssoc<T>(a: seq<T>, b: seq<T>, x: T)
    ensures a + (b + [x]) == (a + b) + [x]
  {
  }

  lemma AppendInitLast<T>(a: seq<T>, s: seq<T>)
    requires s != []
    ensures (a + s[..|s| - 1]) + [s[|s| - 1]] == a + s
  {
    assert s == s[..|s| - 1] + [s[|s| - 1]];
  }

  lemma InitOfSnoc<T>(s: seq<T>, x: T)
    ensures (s + [x])[..|s|] == s
  {
  }

  /** Membership in a non-empty sequence: in its prefix or its last element. */
  lemma InitLast<T>(s: seq<T>, x: T)
    requires s != []
    ensures x in s <==> x in s[..|s| - 1] || x == s[|s| - 1]
  {
    assert s == s[..|s| - 1] + [s[|s| - 1]];
  }

  /** Maps with the same keys and the same value at each key are equal. */
  lemma MapExt<K, V>(a: map<K, V>, b: map<K, V>)
    requires forall j :: (j in a <==> j in b) && (j in a ==> a[j] == b[j])
    ensures a == b
  {
    assert a.Keys == b.Keys;
  }
}
