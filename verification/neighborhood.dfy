/**
 The retrieve-memory skill's neighbourhood listing
 (data/fs/skills/meta/retrieve-memory/neighborhood.py): a breadth-first walk
 over both link directions from a start id, a depth bound, and the listing
 of the visited ids in id order.

 Reading the record index and the files is a parameter: `load(id)` is what
 `load_record` returns (None when the id is not indexed or the file cannot
 be read as an object), and `show` is Python's `str` on a link value that is
 not already a string.

 The reference definition is `Ball(g, start, k)`, the ids within k link
 steps of `start`, where only loadable (non-empty) records have links. The
 walk returns every id of `Ball` within the bound, each with its distance.
 */
module Neighborhood {
  import opened Wrappers
  import opened PyStr
  import opened Json
  import opened Sorting
  import opened MemoryAncestors

  // ---------------------------------------------------------------------
  // The link graph

  /** `str(x)` for each element of a link list; a missing, null or empty list has no elements. */
  function LinkIds(v: Option<Json>, show: Json -> string): (ids: seq<string>)
    ensures v.Some? && v.value.JArr? ==> |ids| == |v.value.items|
  {
    match v
    case Some(JArr(items)) =>
      seq(|items|, k requires 0 <= k < |items| => if items[k].JStr? then items[k].s else show(items[k]))
    case _ => []
  }

  /**
   The ids `related` visits from a record: its parents, then its children.
   An id whose record does not load, or loads as an empty object, has none.
   */
  function Links(load: string -> Option<Json>, show: Json -> string): string -> seq<string>
  {
    id => match load(id)
      case Some(rec) =>
        if Truthy(rec) then LinkIds(Get(rec, "parents"), show) + LinkIds(Get(rec, "children"), show) else []
      case None => []
  }

  /** The ids within `k` link steps of `start`. */
  function Ball(g: string -> seq<string>, start: string, k: nat): set<string>
  {
    if k == 0 then {start} else Ball(g, start, k - 1) + Expand(g, Ball(g, start, k - 1))
  }

  /** `k` is the length of a shortest link path from `start` to `x`. */
  predicate IsDistance(g: string -> seq<string>, start: string, x: string, k: int)
  {
    k >= 0 && x in Ball(g, start, k) && (k == 0 || x !in Ball(g, start, k - 1))
  }

  /** The depth bound as the walk applies it: a negative bound keeps only the start. */
  function Cap(maxDepth: int): nat
  {
    if maxDepth < 0 then 0 else maxDepth
  }

  /** What `related` returns: every id within the bound, mapped to its distance from the start. */
  predicate RelatedSpec(g: string -> seq<string>, start: string, maxDepth: int, depths: map<string, int>)
  {
    && depths.Keys == Ball(g, start, Cap(maxDepth))
    && forall x :: x in depths ==> IsDistance(g, start, x, depths[x])
  }

  lemma {:induction false} BallGrows(g: string -> seq<string>, start: string, a: nat, b: nat)
    requires a <= b
    ensures Ball(g, start, a) <= Ball(g, start, b)
    decreases b
  {
    if a < b {
      BallGrows(g, start, a, b - 1);
    }
  }

  lemma BallStep(g: string -> seq<string>, start: string, x: string, y: string, k: nat)
    requires x in Ball(g, start, k) && y in g(x)
    ensures y in Ball(g, start, k + 1)
  {
    assert y in Expand(g, Ball(g, start, k));
  }

  // ---------------------------------------------------------------------
  // The walk

  /** Every recorded depth is within the bound and reachable in that many steps; the start has depth 0. */
  ghost predicate Sound(g: string -> seq<string>, start: string, maxDepth: int, depths: map<string, int>)
  {
    && start in depths && depths[start] == 0
    && forall x :: x in depths ==> 0 <= depths[x] <= Cap(maxDepth) && x in Ball(g, start, depths[x])
  }

  /** A dequeued id below the bound has all its links recorded, one step further at most. */
  ghost predicate Closed(g: string -> seq<string>, maxDepth: int, depths: map<string, int>, q: seq<string>)
  {
    forall x, y :: x in depths && x !in q && depths[x] < maxDepth && y in g(x) ==>
      y in depths && depths[y] <= depths[x] + 1
  }

  /** The queue holds recorded ids in non-decreasing depth, and no depth exceeds the front's by more than one. */
  predicate QueueOrdered(depths: map<string, int>, q: seq<string>)
  {
    && (forall i :: 0 <= i < |q| ==> q[i] in depths)
    && (forall i, j :: 0 <= i < j < |q| ==> depths[q[i]] <= depths[q[j]])
    && (q != [] ==> forall x :: x in depths ==> depths[x] <= depths[q[0]] + 1)
  }

  ghost predicate BfsInv(g: string -> seq<string>, start: string, maxDepth: int, depths: map<string, int>, q: seq<string>)
  {
    Sound(g, start, maxDepth, depths) && Closed(g, maxDepth, depths, q) && QueueOrdered(depths, q)
  }

  /**
   `related`: a FIFO walk from `start`. An id at the bound is not expanded;
   a link is recorded at depth d + 1 unless it already has a depth no greater,
   or d + 1 exceeds the bound.
   */
  method Related(load: string -> Option<Json>, show: Json -> string, start: string, maxDepth: int)
    returns (depths: map<string, int>)
    ensures RelatedSpec(Links(load, show), start, maxDepth, depths)
  {
    var g := Links(load, show);
    depths := map[start := 0];
    var q := [start];
    ghost var universe := Ball(g, start, Cap(maxDepth));
    WithinUniverse(g, start, maxDepth, depths);
    while q != []
      invariant BfsInv(g, start, maxDepth, depths, q)
      invariant depths.Keys <= universe
      decreases |universe - depths.Keys|, |q|
    {
      var depths', q' := Dequeue(load, show, g, start, maxDepth, depths, q);
      WithinUniverse(g, start, maxDepth, depths');
      Fewer(universe, depths.Keys, depths'.Keys);
      depths, q := depths', q';
    }
    Complete(g, start, maxDepth, depths);
  }

  /** One turn of the loop of `related`: dequeue an id and, below the bound, record and queue its new links. */
  method Dequeue(load: string -> Option<Json>, show: Json -> string, g: string -> seq<string>, start: string,
                 maxDepth: int, depths: map<string, int>, q: seq<string>)
    returns (depths': map<string, int>, q': seq<string>)
    requires g == Links(load, show) && q != []
    requires BfsInv(g, start, maxDepth, depths, q)
    ensures BfsInv(g, start, maxDepth, depths', q')
    ensures (depths'.Keys == depths.Keys && |q'| < |q|) || depths.Keys < depths'.Keys
  {
    var cur := q[0];
    var rec := load(cur);
    LinksAt(load, show, cur);
    if depths[cur] == maxDepth || rec.None? || !Truthy(rec.value) {
      DequeueKeepsInv(g, start, maxDepth, depths, q);
      return depths, q[1..];
    }
    var ns := LinkIds(Get(rec.value, "parents"), show) + LinkIds(Get(rec.value, "children"), show);
    depths', q' := ExpandFront(g, start, maxDepth, depths, q, ns);
  }

  /** The links of one id: none unless its record loads and is truthy. */
  lemma LinksAt(load: string -> Option<Json>, show: Json -> string, id: string)
    ensures load(id).None? || !Truthy(load(id).value) ==> Links(load, show)(id) == []
    ensures load(id).Some? && Truthy(load(id).value) ==>
      Links(load, show)(id) == LinkIds(Get(load(id).value, "parents"), show) + LinkIds(Get(load(id).value, "children"), show)
  {
  }

  /** The expanding turn: the front id records and queues those of its links `ns` within the bound. */
  method ExpandFront(g: string -> seq<string>, start: string, maxDepth: int, depths: map<string, int>, q: seq<string>,
                     ns: seq<string>)
    returns (depths': map<string, int>, q': seq<string>)
    requires q != [] && BfsInv(g, start, maxDepth, depths, q)
    requires ns == g(q[0])
    ensures BfsInv(g, start, maxDepth, depths', q')
    ensures (depths'.Keys == depths.Keys && |q'| < |q|) || depths.Keys < depths'.Keys
  {
    var cur, rest := q[0], q[1..];
    assert q == [cur] + rest;
    var added;
    depths', added := Visit(depths, ns, depths[cur], maxDepth);
    VisitKeepsInv(g, start, maxDepth, depths, cur, rest, depths', added);
    q' := rest + added;
    if added != [] {
      assert added[0] in depths'.Keys - depths.Keys;
    } else {
      assert depths'.Keys == depths.Keys;
    }
  }

  /** Every recorded id is within the bound. */
  lemma WithinUniverse(g: string -> seq<string>, start: string, maxDepth: int, depths: map<string, int>)
    requires Sound(g, start, maxDepth, depths)
    ensures depths.Keys <= Ball(g, start, Cap(maxDepth))
  {
    forall x | x in depths ensures x in Ball(g, start, Cap(maxDepth)) {
      BallGrows(g, start, depths[x], Cap(maxDepth));
    }
  }

  /** Recording new ids of a finite universe leaves fewer unrecorded. */
  lemma Fewer(universe: set<string>, keys: set<string>, keys': set<string>)
    requires keys <= keys' <= universe
    ensures |universe - keys'| <= |universe - keys|
    ensures keys < keys' ==> |universe - keys'| < |universe - keys|
  {
    var a, b := universe - keys', universe - keys;
    assert b == a + (b - a);
    if keys < keys' {
      var w :| w in keys' && w !in keys;
      assert w in b - a;
    }
  }

  /** Dequeueing an id that is not expanded (at the bound, or without links) keeps the invariant. */
  lemma DequeueKeepsInv(g: string -> seq<string>, start: string, maxDepth: int, depths: map<string, int>, q: seq<string>)
    requires BfsInv(g, start, maxDepth, depths, q) && q != []
    requires depths[q[0]] >= maxDepth || g(q[0]) == []
    ensures BfsInv(g, start, maxDepth, depths, q[1..])
  {
    var rest := q[1..];
    assert q == [q[0]] + rest;
    assert Closed(g, maxDepth, depths, rest);
    assert QueueOrdered(depths, rest) by {
      assert forall i :: 0 <= i < |rest| ==> rest[i] == q[i + 1];
      if rest != [] {
        assert depths[q[0]] <= depths[rest[0]];
      }
    }
  }

  /**
   The inner loops of `related` for one dequeued id at depth `d`: each link
   not yet recorded is recorded at depth d + 1 and queued, when d + 1 is
   within the bound.
   */
  method Visit(depths: map<string, int>, ns: seq<string>, d: int, maxDepth: int)
    returns (depths': map<string, int>, added: seq<string>)
    requires forall x :: x in depths ==> depths[x] <= d + 1
    ensures forall x :: x in depths ==> x in depths' && depths'[x] == depths[x]
    ensures forall x :: x in depths' && x !in depths ==> depths'[x] == d + 1 <= maxDepth && x in ns && x in added
    ensures forall i :: 0 <= i < |added| ==> added[i] in depths' && added[i] !in depths
    ensures d + 1 <= maxDepth ==> forall y :: y in ns ==> y in depths' && depths'[y] <= d + 1
    ensures forall x :: x in depths' ==> depths'[x] <= d + 1
  {
    depths', added := depths, [];
    var nd := d + 1;
    for i := 0 to |ns|
      invariant forall x :: x in depths ==> x in depths' && depths'[x] == depths[x]
      invariant forall x :: x in depths' && x !in depths ==> depths'[x] == nd <= maxDepth && x in ns[..i] && x in added
      invariant forall k :: 0 <= k < |added| ==> added[k] in depths' && added[k] !in depths
      invariant nd <= maxDepth ==> forall y :: y in ns[..i] ==> y in depths' && depths'[y] <= nd
      invariant forall x :: x in depths' ==> depths'[x] <= nd
    {
      var next := ns[i];
      if next in depths' && depths'[next] <= nd {
        continue;
      }
      if nd > maxDepth {
        continue;
      }
      depths' := depths'[next := nd];
      added := added + [next];
    }
  }

  /** Expanding a dequeued id below the bound keeps the invariant of the walk. */
  lemma VisitKeepsInv(g: string -> seq<string>, start: string, maxDepth: int, depths: map<string, int>,
                      cur: string, rest: seq<string>, depths': map<string, int>, added: seq<string>)
    requires BfsInv(g, start, maxDepth, depths, [cur] + rest)
    requires forall x :: x in depths ==> x in depths' && depths'[x] == depths[x]
    requires forall x :: x in depths' && x !in depths ==> depths'[x] == depths[cur] + 1 <= maxDepth && x in g(cur) && x in added
    requires forall i :: 0 <= i < |added| ==> added[i] in depths' && added[i] !in depths
    requires depths[cur] < maxDepth ==> forall y :: y in g(cur) ==> y in depths' && depths'[y] <= depths[cur] + 1
    requires forall x :: x in depths' ==> depths'[x] <= depths[cur] + 1
    ensures BfsInv(g, start, maxDepth, depths', rest + added)
  {
    VisitSound(g, start, maxDepth, depths, cur, depths');
    VisitClosed(g, maxDepth, depths, cur, rest, depths', added);
    VisitOrdered(depths, cur, rest, depths', added);
  }

  lemma VisitSound(g: string -> seq<string>, start: string, maxDepth: int, depths: map<string, int>,
                   cur: string, depths': map<string, int>)
    requires Sound(g, start, maxDepth, depths) && cur in depths
    requires forall x :: x in depths ==> x in depths' && depths'[x] == depths[x]
    requires forall x :: x in depths' && x !in depths ==> depths'[x] == depths[cur] + 1 <= maxDepth && x in g(cur)
    ensures Sound(g, start, maxDepth, depths')
  {
    forall x | x in depths' ensures 0 <= depths'[x] <= Cap(maxDepth) && x in Ball(g, start, depths'[x]) {
      if x in depths {
        assert depths'[x] == depths[x];
      } else {
        var d := depths[cur];
        assert 0 <= d && cur in Ball(g, start, d);
        BallStep(g, start, cur, x, d);
        assert depths'[x] == d + 1;
      }
    }
  }

  lemma VisitClosed(g: string -> seq<string>, maxDepth: int, depths: map<string, int>,
                    cur: string, rest: seq<string>, depths': map<string, int>, added: seq<string>)
    requires Closed(g, maxDepth, depths, [cur] + rest) && cur in depths
    requires forall x :: x in depths ==> x in depths' && depths'[x] == depths[x]
    requires forall x :: x in depths' && x !in depths ==> x in added
    requires depths[cur] < maxDepth ==> forall y :: y in g(cur) ==> y in depths' && depths'[y] <= depths[cur] + 1
    ensures Closed(g, maxDepth, depths', rest + added)
  {
    forall x, y | x in depths' && x !in rest + added && depths'[x] < maxDepth && y in g(x)
      ensures y in depths' && depths'[y] <= depths'[x] + 1
    {
      if x != cur {
        assert x in depths && x !in [cur] + rest;
      }
    }
  }

  lemma VisitOrdered(depths: map<string, int>, cur: string, rest: seq<string>, depths': map<string, int>, added: seq<string>)
    requires cur in depths && QueueOrdered(depths, [cur] + rest)
    requires forall x :: x in depths ==> x in depths' && depths'[x] == depths[x]
    requires forall x :: x in depths' && x !in depths ==> depths'[x] == depths[cur] + 1
    requires forall i :: 0 <= i < |added| ==> added[i] in depths' && added[i] !in depths
    requires forall x :: x in depths' ==> depths'[x] <= depths[cur] + 1
    ensures QueueOrdered(depths', rest + added)
  {
    var q, q' := [cur] + rest, rest + added;
    var d := depths[cur];
    forall i | 0 <= i < |rest| ensures rest[i] in depths && rest[i] in depths' && d <= depths'[rest[i]] <= d + 1 {
      assert rest[i] == q[i + 1];
      assert depths[q[0]] <= depths[q[i + 1]];
    }
    forall i | 0 <= i < |q'| ensures q'[i] in depths' && (i >= |rest| ==> depths'[q'[i]] == d + 1) {
      if i >= |rest| {
        assert q'[i] == added[i - |rest|];
      }
    }
    forall i, j | 0 <= i < j < |q'| ensures depths'[q'[i]] <= depths'[q'[j]] {
      if j < |rest| {
        assert rest[i] == q[i + 1] && rest[j] == q[j + 1];
        assert depths[q[i + 1]] <= depths[q[j + 1]];
      }
    }
  }

  /** Every link of a recorded id below the bound is recorded, one step further at most. */
  ghost predicate LinksRecorded(g: string -> seq<string>, maxDepth: int, depths: map<string, int>)
  {
    forall x, y :: x in depths && depths[x] < maxDepth && y in g(x) ==> y in depths && depths[y] <= depths[x] + 1
  }

  /** When the queue is empty every id within the bound has a depth no greater than its distance. */
  lemma Complete(g: string -> seq<string>, start: string, maxDepth: int, depths: map<string, int>)
    requires BfsInv(g, start, maxDepth, depths, [])
    ensures RelatedSpec(g, start, maxDepth, depths)
  {
    assert LinksRecorded(g, maxDepth, depths);
    forall x | x in depths ensures IsDistance(g, start, x, depths[x]) {
      if depths[x] > 0 && x in Ball(g, start, depths[x] - 1) {
        Covered(g, start, maxDepth, depths, depths[x] - 1, x);
      }
    }
    WithinUniverse(g, start, maxDepth, depths);
    forall y | y in Ball(g, start, Cap(maxDepth)) ensures y in depths {
      Covered(g, start, maxDepth, depths, Cap(maxDepth), y);
    }
  }

  lemma {:induction false} Covered(g: string -> seq<string>, start: string, maxDepth: int, depths: map<string, int>,
                                   k: nat, y: string)
    requires start in depths && depths[start] == 0 && LinksRecorded(g, maxDepth, depths)
    requires k <= Cap(maxDepth) && y in Ball(g, start, k)
    ensures y in depths && depths[y] <= k
  {
    CoveredUpTo(g, start, maxDepth, depths, k);
  }

  /** Layer by layer: every id within k steps has a recorded depth of at most k. */
  lemma {:induction false} CoveredUpTo(g: string -> seq<string>, start: string, maxDepth: int, depths: map<string, int>,
                                       k: nat)
    requires start in depths && depths[start] == 0 && LinksRecorded(g, maxDepth, depths)
    requires k <= Cap(maxDepth)
    ensures forall y :: y in Ball(g, start, k) ==> y in depths && depths[y] <= k
  {
    if k > 0 {
      CoveredUpTo(g, start, maxDepth, depths, k - 1);
      var prev := Ball(g, start, k - 1);
      assert Ball(g, start, k) == prev + Expand(g, prev);
      LayerCovered(g, maxDepth, depths, prev, k);
    }
  }

  lemma LayerCovered(g: string -> seq<string>, maxDepth: int, depths: map<string, int>, prev: set<string>, k: nat)
    requires 0 < k <= maxDepth && LinksRecorded(g, maxDepth, depths)
    requires forall y :: y in prev ==> y in depths && depths[y] <= k - 1
    ensures forall y :: y in prev + Expand(g, prev) ==> y in depths && depths[y] <= k
  {
    forall y | y in Expand(g, prev) ensures y in depths && depths[y] <= k {
      var x :| x in prev && y in g(x);
      LinkRecorded(g, maxDepth, depths, x, y);
    }
  }

  lemma LinkRecorded(g: string -> seq<string>, maxDepth: int, depths: map<string, int>, x: string, y: string)
    requires LinksRecorded(g, maxDepth, depths)
    requires x in depths && depths[x] < maxDepth && y in g(x)
    ensures y in depths && depths[y] <= depths[x] + 1
  {
  }

  // ---------------------------------------------------------------------
  // The listing

  lemma StrLeIsTotalOrder()
    ensures IsTotalOrder((a: string, b: string) => StrLe(a, b))
  {
    forall a: string, b: string ensures StrLe(a, b) || StrLe(b, a) {
      StrLeTotal(a, b);
    }
    forall a: string, b: string, c: string | StrLe(a, b) && StrLe(b, c) ensures StrLe(a, c) {
      StrLeTransitive(a, b, c);
    }
    forall a: string, b: string | StrLe(a, b) && StrLe(b, a) ensures a == b {
      StrLeAntisymmetric(a, b);
    }
  }

  /** `x` occurs in `s` before some occurrence of `y`. */
  predicate Before(s: seq<string>, x: string, y: string)
  {
    exists a, b :: 0 <= a < b < |s| && s[a] == x && s[b] == y
  }

  /** The ids of `s` whose record loads, kept in order. */
  function Loadable(s: seq<string>, load: string -> Option<Json>): (r: seq<string>)
    ensures forall x :: x in r <==> x in s && load(x).Some?
    ensures forall i, j :: 0 <= i < j < |r| ==> Before(s, r[i], r[j])
  {
    if s == [] then []
    else
      var rest := Loadable(s[1..], load);
      assert forall x :: x in s[1..] ==> x in s;
      BeforeInTail(s, rest);
      if load(s[0]).Some? then
        HeadBefore(s, rest);
        [s[0]] + rest
      else rest
  }

  /** The head of `s` followed by ids in order from its tail is in order. */
  lemma HeadBefore(s: seq<string>, rest: seq<string>)
    requires s != [] && forall x :: x in rest ==> x in s[1..]
    requires forall i, j :: 0 <= i < j < |rest| ==> Before(s, rest[i], rest[j])
    ensures forall i, j :: 0 <= i < j < |[s[0]] + rest| ==> Before(s, ([s[0]] + rest)[i], ([s[0]] + rest)[j])
  {
    var r := [s[0]] + rest;
    forall i, j | 0 <= i < j < |r| ensures Before(s, r[i], r[j]) {
      assert r[j] == rest[j - 1] && rest[j - 1] in s[1..];
      if i == 0 {
        var b :| 0 <= b < |s[1..]| && s[1..][b] == r[j];
        assert s[0] == r[i] && s[b + 1] == r[j];
      } else {
        assert r[i] == rest[i - 1];
      }
    }
  }

  /** What comes in order in the tail of `s` comes in order in `s`. */
  lemma BeforeInTail(s: seq<string>, r: seq<string>)
    requires s != []
    requires forall i, j :: 0 <= i < j < |r| ==> Before(s[1..], r[i], r[j])
    ensures forall i, j :: 0 <= i < j < |r| ==> Before(s, r[i], r[j])
  {
    forall i, j | 0 <= i < j < |r| ensures Before(s, r[i], r[j]) {
      var a, b :| 0 <= a < b < |s[1..]| && s[1..][a] == r[i] && s[1..][b] == r[j];
      assert s[a + 1] == r[i] && s[b + 1] == r[j];
    }
  }

  /**
   The ids `main` prints: the visited ids whose record loads, in ascending
   order of the id string. Record ids sort in creation order.
   */
  method Listing(load: string -> Option<Json>, show: Json -> string, start: string, maxDepth: int)
    returns (ids: seq<string>)
    ensures forall x :: x in ids <==> x in Ball(Links(load, show), start, Cap(maxDepth)) && load(x).Some?
    ensures forall i, j :: 0 <= i < j < |ids| ==> StrLe(ids[i], ids[j]) && ids[i] != ids[j]
  {
    var depths := Related(load, show, start, maxDepth);
    var keys := Enumerate(depths.Keys);
    var leq := (a: string, b: string) => StrLe(a, b);
    StrLeIsTotalOrder();
    var sorted := Sort(keys, leq);
    SortKeepsDistinct(keys, leq);
    forall x ensures x in sorted <==> x in keys {
      SortKeepsElements(keys, leq, x);
    }
    ids := Loadable(sorted, load);
  }

  // ---------------------------------------------------------------------
  // Argument normalisation

  predicate IsKnownFlag(t: string)
  {
    t == "-h" || t == "--help" || t == "-n" || t == "--levels" || t == "--id"
  }

  /** A token argparse would take for an option although it is meant as an id. */
  predicate LooksLikeOption(t: string)
  {
    StartsWith(t, "-") && !IsKnownFlag(t)
  }

  /** The position of the first "--id" token. */
  function FirstIdFlag(argv: seq<string>): (r: Option<nat>)
    ensures r.Some? ==> r.value < |argv| && argv[r.value] == "--id" && forall k :: 0 <= k < r.value ==> argv[k] != "--id"
    ensures r.None? <==> "--id" !in argv
  {
    if argv == [] then None
    else if argv[0] == "--id" then Some(0)
    else match FirstIdFlag(argv[1..])
      case None => None
      case Some(i) => Some(i + 1)
  }

  /**
   The argv rewriting of `main`: a leading token that looks like an option
   becomes "--id=<token>"; then the token after the first "--id", if it looks
   like an option, is joined to it as "--id=<token>".
   */
  function NormalizeArgv(argv: seq<string>): (r: seq<string>)
    ensures |argv| - 1 <= |r| <= |argv|
  {
    var a := if |argv| > 0 && LooksLikeOption(argv[0]) then argv[0 := "--id=" + argv[0]] else argv;
    match FirstIdFlag(a)
    case Some(i) =>
      if i + 1 < |a| && LooksLikeOption(a[i + 1]) then a[..i] + ["--id=" + a[i + 1]] + a[i + 2..] else a
    case None => a
  }

  /** A leading id that begins with '-' is passed as "--id=<id>". */
  lemma LeadingIdBecomesFlag(v: string, tail: seq<string>)
    requires LooksLikeOption(v) && "--id" !in tail
    ensures NormalizeArgv([v] + tail) == ["--id=" + v] + tail
  {
    var a := ([v] + tail)[0 := "--id=" + v];
    assert a == ["--id=" + v] + tail;
    assert "--id" !in a by {
      assert "--id=" + v != "--id" by {
        assert |"--id=" + v| > |"--id"|;
      }
    }
  }

  /** "--id" followed by an id that begins with '-' becomes "--id=<id>". */
  lemma IdFlagJoinsValue(v: string, tail: seq<string>)
    requires LooksLikeOption(v)
    ensures NormalizeArgv(["--id", v] + tail) == ["--id=" + v] + tail
  {
    var argv := ["--id", v] + tail;
    assert !LooksLikeOption(argv[0]);
    assert FirstIdFlag(argv) == Some(0);
    assert argv[2..] == tail;
  }

  /** Argument lists without a token that looks like an option are left alone. */
  lemma PlainArgvUnchanged(argv: seq<string>)
    requires forall k :: 0 <= k < |argv| ==> !LooksLikeOption(argv[k])
    ensures NormalizeArgv(argv) == argv
  {
  }
}
