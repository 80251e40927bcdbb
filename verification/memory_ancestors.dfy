/**
 `get_ancestors` (core/src/k/agent/memory/simple.py and folder.py, the same
 code in both): a breadth-first walk up the parent links, layer by layer,
 returning each id once.

 The reference definition is `Reach(g, ps, k)`, the ids reachable from a
 record with parent list `ps` in 1 to k parent steps, where only stored
 records are expanded. The walk returns exactly the ids of `Reach` within
 the level bound, without repetition and ordered by layer, and terminates
 when the links form a cycle.
 */
module MemoryAncestors {
  import opened Wrappers
  import opened MemoryRecords
  import opened MemoryStore
  import opened Sorting

  function SetOf(s: seq<string>): set<string>
  {
    set x | x in s
  }

  /** The parents of a stored id; an id that is not stored has none (the walk does not expand it). */
  function ParentsOf(st: Store, id: string): seq<string>
  {
    match GetById(st, id)
    case None => []
    case Some(rec) => rec.parents
  }

  /** The parent links of a store, as a function from id to parent ids. */
  function Graph(st: Store): string -> seq<string>
  {
    id => ParentsOf(st, id)
  }

  /** The parents of the members of `s`. */
  function Expand(g: string -> seq<string>, s: set<string>): set<string>
  {
    set x, p | x in s && p in g(x) :: p
  }

  /** The ids reachable in 1 to k parent steps from a record whose parents are `ps`. */
  function Reach(g: string -> seq<string>, ps: seq<string>, k: nat): set<string>
  {
    if k == 0 then {} else SetOf(ps) + Expand(g, Reach(g, ps, k - 1))
  }

  /** Within the level bound (`None` is unbounded). */
  predicate WithinLevel(level: Option<nat>, k: nat)
  {
    level.None? || k <= level.value
  }

  /** The layers whose ids the walk looks up in strict mode: one beyond the bound. */
  predicate Probed(level: Option<nat>, k: nat)
  {
    level.None? || k <= level.value + 1
  }

  predicate AllIn(st: Store, s: set<string>)
  {
    forall y :: y in s ==> Stored(st, y)
  }

  /** `seen` is the set of the ids listed, each listed once. */
  predicate Ledger(ids: seq<string>, seen: set<string>)
  {
    seen == SetOf(ids) && Distinct(ids)
  }

  /** Later ids never belong to a nearer layer than earlier ones. */
  ghost predicate LevelOrdered(st: Store, ps: seq<string>, ids: seq<string>)
  {
    forall i, j, k: nat :: 0 <= i < j < |ids| && ids[j] in Reach(Graph(st), ps, k) ==> ids[i] in Reach(Graph(st), ps, k)
  }

  /**
   The state of the walk before layer `depth + 1` is expanded: `seen` holds
   layers 1 to `depth`, listed once each in layer order in `ancestors`, and
   the frontier supplies the rest of layer `depth + 1`, all of which passed
   the strict check.
   */
  ghost predicate WalkInv(st: Store, ps: seq<string>, level: Option<nat>, strict: bool, depth: nat,
                          ancestors: seq<string>, seen: set<string>, frontier: seq<string>)
  {
    && Ledger(ancestors, seen)
    && seen == Reach(Graph(st), ps, depth)
    && Reach(Graph(st), ps, depth + 1) == seen + SetOf(frontier)
    && LevelOrdered(st, ps, ancestors)
    && (level.Some? ==> depth <= level.value)
    && (strict ==> AllIn(st, Reach(Graph(st), ps, depth + 1)))
  }

  /**
   What the walk returns for a record with parents `ps`: in strict mode a
   KeyError exactly when some probed layer holds an id that is not stored;
   otherwise the distinct ids of the layers within the bound, nearer layers
   first.
   */
  ghost predicate AncestorsSpec(st: Store, ps: seq<string>, level: Option<nat>, strict: bool, r: Outcome<seq<string>>)
  {
    && (r.Fail? ==> strict && r.exc == KeyError)
    && (strict ==> (r.Fail? <==> exists k: nat :: Probed(level, k) && !AllIn(st, Reach(Graph(st), ps, k))))
    && (r.Ok? ==> Distinct(r.value))
    && (r.Ok? ==> forall x :: x in r.value <==> exists k: nat :: WithinLevel(level, k) && x in Reach(Graph(st), ps, k))
    && (r.Ok? ==> LevelOrdered(st, ps, r.value))
  }

  /**
   `get_ancestors`: a negative level is a ValueError; the record is resolved
   (ValueError or KeyError); level 0 gives []; otherwise the walk.
   */
  method GetAncestors(st: Store, ref: RecordRef, level: Option<int>, strict: bool, parse: string -> Option<string>)
    returns (r: Outcome<seq<string>>)
    requires Valid(st)
    ensures level.Some? && level.value < 0 ==> r == Fail(ValueError)
    ensures (level.None? || level.value >= 0) && CoerceRecord(st, ref, parse).Fail? ==>
      r == Fail(CoerceRecord(st, ref, parse).exc)
    ensures level == Some(0) && CoerceRecord(st, ref, parse).Ok? ==> r == Ok([])
    ensures (level.None? || level.value > 0) && CoerceRecord(st, ref, parse).Ok? ==>
      AncestorsSpec(st, CoerceRecord(st, ref, parse).value.parents,
                    if level.None? then None else Some(level.value as nat), strict, r)
  {
    if level.Some? && level.value < 0 {
      return Fail(ValueError);
    }
    var current := CoerceRecord(st, ref, parse);
    if current.Fail? {
      return Fail(current.exc);
    }
    if level == Some(0) {
      return Ok([]);
    }
    var bound: Option<nat> := if level.None? then None else Some(level.value as nat);
    r := Walk(st, current.value.parents, bound, strict);
  }

  /** The walk itself, from the parents of the resolved record. */
  method Walk(st: Store, ps: seq<string>, level: Option<nat>, strict: bool) returns (r: Outcome<seq<string>>)
    requires Valid(st)
    requires level != Some(0)
    ensures AncestorsSpec(st, ps, level, strict, r)
  {
    var g := Graph(st);
    if strict && !AllStored(st, ps) {
      var j :| 0 <= j < |ps| && !Stored(st, ps[j]);
      assert ps[j] in Reach(g, ps, 1);
      FailSpec(st, ps, level, 1);
      return Fail(KeyError);
    }
    assert Reach(g, ps, 1) == SetOf(ps) + Expand(g, {});
    StartInv(st, ps, level, strict);
    r := Layers(st, ps, level, strict, 0, [], {}, ps);
  }

  /**
   The layer loop of the walk, once the parents of the record itself have
   passed the strict check, written as a recursion over the layers: the loop
   runs while the frontier is non-empty and the level bound is not reached.
   */
  method Layers(st: Store, ps: seq<string>, level: Option<nat>, strict: bool, depth: nat,
                ancestors: seq<string>, seen: set<string>, frontier: seq<string>)
    returns (r: Outcome<seq<string>>)
    requires Valid(st)
    requires WalkInv(st, ps, level, strict, depth, ancestors, seen, frontier)
    ensures AncestorsSpec(st, ps, level, strict, r)
    decreases |StoredIds(st) - seen|, if frontier == [] then 0 else 1
  {
    if frontier == [] || (level.Some? && depth >= level.value) {
      OkSpec(st, ps, level, strict, depth, ancestors, seen, frontier);
      return Ok(ancestors);
    }
    var failed, ancestors', seen', next := Step(st, ps, level, strict, depth, frontier, ancestors, seen);
    if failed {
      return Fail(KeyError);
    }
    r := Layers(st, ps, level, strict, depth + 1, ancestors', seen', next);
  }

  lemma StartInv(st: Store, ps: seq<string>, level: Option<nat>, strict: bool)
    requires strict ==> AllIn(st, Reach(Graph(st), ps, 1))
    ensures WalkInv(st, ps, level, strict, 0, [], {}, ps)
  {
    assert Reach(Graph(st), ps, 1) == SetOf(ps) + Expand(Graph(st), {});
  }

  /** One iteration of the layer loop, with the loop's invariant before and after. */
  method Step(st: Store, ps: seq<string>, level: Option<nat>, strict: bool, depth: nat,
              frontier: seq<string>, ancestors: seq<string>, seen: set<string>)
    returns (failed: bool, ancestors': seq<string>, seen': set<string>, next: seq<string>)
    requires Valid(st)
    requires level.None? || depth < level.value
    requires WalkInv(st, ps, level, strict, depth, ancestors, seen, frontier)
    ensures failed ==> AncestorsSpec(st, ps, level, strict, Fail(KeyError))
    ensures !failed ==> WalkInv(st, ps, level, strict, depth + 1, ancestors', seen', next)
    ensures !failed ==> |StoredIds(st) - seen'| <= |StoredIds(st) - seen|
    ensures !failed && next != [] ==> |StoredIds(st) - seen'| < |StoredIds(st) - seen|
  {
    var g := Graph(st);
    failed, ancestors', seen', next := Layer(st, g, strict, frontier, ancestors, seen);
    if failed {
      ReachExpand(g, ps, depth + 1);
      FailSpec(st, ps, level, depth + 2);
      return;
    }
    NextLayer(g, ps, depth, seen, SetOf(frontier), seen', SetOf(next));
    LevelOrderedAppend(st, ps, ancestors, ancestors'[|ancestors|..], depth);
    Shrinks(st, seen, seen', next != []);
  }

  /** A strict walk that meets an unstored id in a probed layer fails as specified. */
  lemma FailSpec(st: Store, ps: seq<string>, level: Option<nat>, k: nat)
    requires Probed(level, k) && !AllIn(st, Reach(Graph(st), ps, k))
    ensures AncestorsSpec(st, ps, level, true, Fail(KeyError))
  {
  }

  /** A walk that stops at an empty frontier or at the level bound returns what is specified. */
  lemma OkSpec(st: Store, ps: seq<string>, level: Option<nat>, strict: bool, depth: nat,
               ancestors: seq<string>, seen: set<string>, frontier: seq<string>)
    requires WalkInv(st, ps, level, strict, depth, ancestors, seen, frontier)
    requires frontier == [] || (level.Some? && depth >= level.value)
    ensures AncestorsSpec(st, ps, level, strict, Ok(ancestors))
  {
    var g := Graph(st);
    if frontier == [] {
      assert SetOf(frontier) == {};
      ReachFixpoint(g, ps, depth);
    }
    StoppedLayers(g, ps, level, depth, frontier == []);
    StoppedMembers(g, ps, level, depth, ancestors);
  }

  /**
   Where the walk stops, every probed layer lies within layer depth + 1 and
   every layer within the bound lies within layer depth.
   */
  lemma StoppedLayers(g: string -> seq<string>, ps: seq<string>, level: Option<nat>, depth: nat, exhausted: bool)
    requires exhausted ==> forall k: nat :: Reach(g, ps, k) <= Reach(g, ps, depth)
    requires exhausted || (level.Some? && depth >= level.value)
    ensures forall k: nat :: Probed(level, k) ==> Reach(g, ps, k) <= Reach(g, ps, depth + 1)
    ensures forall k: nat :: WithinLevel(level, k) ==> Reach(g, ps, k) <= Reach(g, ps, depth)
  {
    ReachGrows(g, ps, depth);
    forall k: nat | Probed(level, k) ensures Reach(g, ps, k) <= Reach(g, ps, depth + 1) {
      if k <= depth + 1 {
        ReachMonotone(g, ps, k, depth + 1);
      }
    }
    forall k: nat | WithinLevel(level, k) ensures Reach(g, ps, k) <= Reach(g, ps, depth) {
      if k <= depth {
        ReachMonotone(g, ps, k, depth);
      }
    }
  }

  /** The listed ids are exactly the ids of the layers within the bound. */
  lemma StoppedMembers(g: string -> seq<string>, ps: seq<string>, level: Option<nat>, depth: nat, ancestors: seq<string>)
    requires SetOf(ancestors) == Reach(g, ps, depth)
    requires WithinLevel(level, depth)
    requires forall k: nat :: WithinLevel(level, k) ==> Reach(g, ps, k) <= Reach(g, ps, depth)
    ensures forall x :: x in ancestors <==> exists k: nat :: WithinLevel(level, k) && x in Reach(g, ps, k)
  {
    forall x ensures x in ancestors <==> exists k: nat :: WithinLevel(level, k) && x in Reach(g, ps, k) {
      assert x in ancestors <==> x in SetOf(ancestors);
      if x in ancestors {
        assert WithinLevel(level, depth) && x in Reach(g, ps, depth);
      }
    }
  }

  /** One completed layer advances the layer invariant of the walk by one. */
  lemma NextLayer(g: string -> seq<string>, ps: seq<string>, d: nat,
                  seen: set<string>, f: set<string>, seen': set<string>, n: set<string>)
    requires seen == Reach(g, ps, d) && Reach(g, ps, d + 1) == seen + f
    requires seen' == seen + f && n == Expand(g, f - seen)
    ensures seen' == Reach(g, ps, d + 1) && Reach(g, ps, d + 2) == seen' + n
  {
    ReachStep(g, ps, d);
    assert Reach(g, ps, d + 1) - Reach(g, ps, d) == f - seen;
  }

  /**
   One layer of the walk: every id of the frontier not yet seen is appended
   and its parents are queued; in strict mode a parent that is not stored
   stops the walk. `g` is the store's parent relation.
   */
  method Layer(st: Store, g: string -> seq<string>, strict: bool,
               frontier: seq<string>, ancestors: seq<string>, seen: set<string>)
    returns (failed: bool, ancestors': seq<string>, seen': set<string>, next: seq<string>)
    requires g == Graph(st)
    requires seen == SetOf(ancestors) && Distinct(ancestors)
    requires strict ==> AllIn(st, seen + SetOf(frontier))
    ensures failed ==> strict && !AllIn(st, Expand(g, seen + SetOf(frontier)))
    ensures !failed ==> seen' == SetOf(ancestors') && Distinct(ancestors')
    ensures !failed ==> seen' == seen + SetOf(frontier)
    ensures !failed ==> |ancestors| <= |ancestors'| && ancestors' == ancestors + ancestors'[|ancestors|..]
    ensures !failed ==> SetOf(ancestors'[|ancestors|..]) == SetOf(frontier) - seen
    ensures !failed ==> SetOf(next) == Expand(g, SetOf(frontier) - seen)
    ensures !failed && strict ==> AllIn(st, SetOf(next))
    ensures !failed && next != [] ==> exists w :: w in seen' && w !in seen && Stored(st, w)
  {
    failed, ancestors', seen', next := false, ancestors, seen, [];
    ghost var w: string := [];
    var j := 0;
    while j < |frontier|
      invariant 0 <= j <= |frontier|
      invariant seen' == seen + SetOf(frontier[..j])
      invariant seen' == SetOf(ancestors') && Distinct(ancestors')
      invariant |ancestors| <= |ancestors'| && ancestors' == ancestors + ancestors'[|ancestors|..]
      invariant SetOf(ancestors'[|ancestors|..]) == SetOf(frontier[..j]) - seen
      invariant SetOf(next) == Expand(g, SetOf(frontier[..j]) - seen)
      invariant strict ==> AllIn(st, SetOf(next))
      invariant next != [] ==> w in seen' && w !in seen && Stored(st, w)
    {
      var x := frontier[j];
      assert x in SetOf(frontier);
      ghost var done := SetOf(frontier[..j]);
      assert frontier[..j + 1] == frontier[..j] + [x];
      SetOfSnoc(frontier[..j], x);
      if x !in seen' {
        LedgerSnoc(ancestors, ancestors', seen, done, x);
        seen' := seen' + {x};
        ancestors' := ancestors' + [x];
        QueueStep(g, seen, done, x);
        var stop, next', w' := Visit(st, g, strict, x, next, w);
        if stop {
          ExpandMonotone(g, {x}, seen + SetOf(frontier));
          return true, ancestors', seen', next;
        }
        next, w := next', w';
      } else {
        assert (done + {x}) - seen == done - seen;
      }
      j := j + 1;
    }
    assert frontier[..|frontier|] == frontier;
  }

  /**
   Visiting a new id: its parents are queued; in strict mode a parent that
   is not stored stops the walk. A stored id with parents becomes the
   witness `w` that the walk saw something new.
   */
  method Visit(st: Store, g: string -> seq<string>, strict: bool, x: string, next: seq<string>, ghost w: string)
    returns (failed: bool, next': seq<string>, ghost w': string)
    requires g == Graph(st)
    requires strict ==> Stored(st, x)
    ensures failed ==> strict && !AllIn(st, Expand(g, {x}))
    ensures !failed ==> SetOf(next') == SetOf(next) + SetOf(g(x))
    ensures !failed && strict && AllIn(st, SetOf(next)) ==> AllIn(st, SetOf(next'))
    ensures !failed && next' != [] ==> (w' == x && Stored(st, x)) || (next != [] && w' == w)
  {
    ExpandSingleton(g, x);
    match GetById(st, x)
    case None =>
      // The code raises KeyError here in strict mode; every id in the
      // frontier was already checked, so that cannot happen.
      assert !strict;
      assert g(x) == [];
      assert next + [] == next;
      return false, next, w;
    case Some(rec) =>
      assert g(x) == rec.parents;
      if strict && !AllStored(st, rec.parents) {
        var i :| 0 <= i < |rec.parents| && !Stored(st, rec.parents[i]);
        assert rec.parents[i] in SetOf(g(x));
        return true, next, w;
      }
      SetOfAppend(next, rec.parents);
      w' := if rec.parents != [] then x else w;
      return false, next + rec.parents, w';
  }

  /** Appending a new id `x` of the frontier keeps the walk's ledger in step. */
  lemma LedgerSnoc(ancestors: seq<string>, anc: seq<string>, seen: set<string>, done: set<string>, x: string)
    requires seen + done == SetOf(anc) && Distinct(anc) && x !in SetOf(anc)
    requires |ancestors| <= |anc| && anc == ancestors + anc[|ancestors|..]
    requires SetOf(anc[|ancestors|..]) == done - seen
    ensures seen + (done + {x}) == SetOf(anc + [x]) && Distinct(anc + [x])
    ensures anc + [x] == ancestors + (anc + [x])[|ancestors|..]
    ensures SetOf((anc + [x])[|ancestors|..]) == (done + {x}) - seen
  {
    DistinctSnoc(anc, x);
    SetOfSnoc(anc, x);
    SetOfSnoc(anc[|ancestors|..], x);
    assert (anc + [x])[|ancestors|..] == anc[|ancestors|..] + [x];
  }

  /** The parents queued after visiting a new id `x` are those of the new ids so far. */
  lemma QueueStep(g: string -> seq<string>, seen: set<string>, done: set<string>, x: string)
    requires x !in seen
    ensures Expand(g, (done + {x}) - seen) == Expand(g, done - seen) + SetOf(g(x))
  {
    assert (done + {x}) - seen == (done - seen) + {x};
    ExpandUnion(g, done - seen, {x});
    ExpandSingleton(g, x);
  }

  function StoredIds(st: Store): set<string>
  {
    set rec | rec in st.records :: rec.id
  }

  /** Growing `seen` never enlarges the unseen stored ids, and seeing a new stored id shrinks them. */
  lemma Shrinks(st: Store, seen: set<string>, seen': set<string>, grew: bool)
    requires seen <= seen'
    requires grew ==> exists w :: w in seen' && w !in seen && Stored(st, w)
    ensures |StoredIds(st) - seen'| <= |StoredIds(st) - seen|
    ensures grew ==> |StoredIds(st) - seen'| < |StoredIds(st) - seen|
  {
    var a, b := StoredIds(st) - seen', StoredIds(st) - seen;
    assert b == a + (b - a);
    if grew {
      var w :| w in seen' && w !in seen && Stored(st, w);
      var k := Find(st.records, w).value;
      assert st.records[k] in st.records;
      assert w in b - a;
    }
  }

  lemma SetOfSnoc(s: seq<string>, x: string)
    ensures SetOf(s + [x]) == SetOf(s) + {x}
  {
  }

  lemma SetOfAppend(a: seq<string>, b: seq<string>)
    ensures SetOf(a + b) == SetOf(a) + SetOf(b)
  {
  }

  lemma ExpandSingleton(g: string -> seq<string>, x: string)
    ensures Expand(g, {x}) == SetOf(g(x))
  {
  }

  lemma DistinctSnoc(s: seq<string>, x: string)
    requires Distinct(s) && x !in s
    ensures Distinct(s + [x])
  {
  }

  /** Appending ids first reached in layer d + 1 to the ids of layers up to d keeps the layer order. */
  lemma LevelOrderedAppend(st: Store, ps: seq<string>, ids: seq<string>, t: seq<string>, d: nat)
    requires LevelOrdered(st, ps, ids)
    requires SetOf(ids) == Reach(Graph(st), ps, d)
    requires SetOf(t) <= Reach(Graph(st), ps, d + 1) - Reach(Graph(st), ps, d)
    ensures LevelOrdered(st, ps, ids + t)
  {
    var s := ids + t;
    ReachGrows(Graph(st), ps, d);
    forall i, j, k: nat | 0 <= i < j < |s| && s[j] in Reach(Graph(st), ps, k)
      ensures s[i] in Reach(Graph(st), ps, k)
    {
      if j < |ids| {
        assert s[i] == ids[i] && s[j] == ids[j];
      } else {
        assert s[j] in SetOf(t);
        if i < |ids| {
          assert s[i] in SetOf(ids);
        } else {
          assert s[i] == t[i - |ids|];
          assert s[i] in SetOf(t);
        }
        LastLayer(Graph(st), ps, s[i], s[j], d, k);
      }
    }
  }

  /** An id first reached in layer d + 1 belongs only to layers from d + 1 on, which hold every id of layer d + 1. */
  lemma LastLayer(g: string -> seq<string>, ps: seq<string>, y: string, x: string, d: nat, k: nat)
    requires y in Reach(g, ps, d + 1)
    requires x !in Reach(g, ps, d)
    requires x in Reach(g, ps, k)
    ensures y in Reach(g, ps, k)
  {
    if k <= d {
      ReachMonotone(g, ps, k, d);
    } else {
      ReachMonotone(g, ps, d + 1, k);
    }
  }

  /** The parents of layer k are in layer k + 1. */
  lemma ReachExpand(g: string -> seq<string>, ps: seq<string>, k: nat)
    ensures Expand(g, Reach(g, ps, k)) <= Reach(g, ps, k + 1)
  {
  }

  lemma {:induction false} ReachMonotone(g: string -> seq<string>, ps: seq<string>, a: nat, b: nat)
    requires a <= b
    ensures Reach(g, ps, a) <= Reach(g, ps, b)
    decreases b
  {
    if a < b {
      ReachMonotone(g, ps, a, b - 1);
      ReachGrows(g, ps, b - 1);
    }
  }

  lemma {:induction false} ReachGrows(g: string -> seq<string>, ps: seq<string>, k: nat)
    ensures Reach(g, ps, k) <= Reach(g, ps, k + 1)
  {
    if k > 0 {
      var a, b := Reach(g, ps, k - 1), Reach(g, ps, k);
      ReachGrows(g, ps, k - 1);
      ExpandMonotone(g, a, b);
      assert b == SetOf(ps) + Expand(g, a);
      assert Reach(g, ps, k + 1) == SetOf(ps) + Expand(g, b);
    }
  }

  lemma ExpandMonotone(g: string -> seq<string>, a: set<string>, b: set<string>)
    requires a <= b
    ensures Expand(g, a) <= Expand(g, b)
  {
    forall p | p in Expand(g, a) ensures p in Expand(g, b) {
      var x :| x in a && p in g(x);
    }
  }

  /**
   One layer of the walk: if `seen` is layer d and `seen + frontier` is
   layer d + 1, then layer d + 2 adds the parents of the frontier's new ids.
   */
  lemma ReachStep(g: string -> seq<string>, ps: seq<string>, d: nat)
    ensures Reach(g, ps, d + 2) == Reach(g, ps, d + 1) + Expand(g, Reach(g, ps, d + 1) - Reach(g, ps, d))
  {
    var rd, rd1 := Reach(g, ps, d), Reach(g, ps, d + 1);
    ReachGrows(g, ps, d);
    ReachGrows(g, ps, d + 1);
    assert rd1 == rd + (rd1 - rd);
    ExpandUnion(g, rd, rd1 - rd);
    if d > 0 {
      assert Expand(g, rd) <= rd1;
    }
  }

  lemma ExpandUnion(g: string -> seq<string>, a: set<string>, b: set<string>)
    ensures Expand(g, a + b) == Expand(g, a) + Expand(g, b)
  {
  }

  /** Once a layer adds nothing, no later layer does. */
  lemma {:induction false} ReachFixpoint(g: string -> seq<string>, ps: seq<string>, d: nat)
    requires Reach(g, ps, d + 1) == Reach(g, ps, d)
    ensures forall k: nat :: Reach(g, ps, k) <= Reach(g, ps, d)
  {
    forall k: nat ensures Reach(g, ps, k) <= Reach(g, ps, d) {
      if k <= d {
        ReachMonotone(g, ps, k, d);
      } else {
        ReachFixpointFrom(g, ps, d, k);
      }
    }
  }

  lemma {:induction false} ReachFixpointFrom(g: string -> seq<string>, ps: seq<string>, d: nat, k: nat)
    requires Reach(g, ps, d + 1) == Reach(g, ps, d)
    requires k >= d
    ensures Reach(g, ps, k) == Reach(g, ps, d)
    decreases k
  {
    if k > d {
      ReachFixpointFrom(g, ps, d, k - 1);
      assert Reach(g, ps, k) == SetOf(ps) + Expand(g, Reach(g, ps, k - 1));
      assert Reach(g, ps, d + 1) == SetOf(ps) + Expand(g, Reach(g, ps, d));
    }
  }
}
