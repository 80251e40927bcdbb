/**
 The memory record store as an in-memory state: the records in append order.
 Both stores (core/src/k/agent/memory/simple.py, one JSONL file, and
 core/src/k/agent/memory/folder.py, one file per record plus an order file)
 keep this state after loading, answer queries from it, and update it the
 same way on `append`. Files, caching and reloads are not modelled.

 Record ids are plain strings. Turning a caller's id into a key goes through
 `coerce_uuid`, whose parser is a parameter of the model.
 */
module MemoryStore {
  import opened Wrappers
  import opened MemoryRecords
  import opened Sorting

  datatype Store = Store(records: seq<MemoryRecord>)

  /** Loading rejects a second record with an id already seen, so ids are unique. */
  predicate Valid(st: Store)
  {
    forall i, j :: 0 <= i < j < |st.records| ==> st.records[i].id != st.records[j].id
  }

  /** The position of the record with id `id`, if any. */
  function Find(recs: seq<MemoryRecord>, id: string): (r: Option<nat>)
    ensures r.Some? ==> r.value < |recs| && recs[r.value].id == id
    ensures r.Some? ==> forall k :: 0 <= k < r.value ==> recs[k].id != id
    ensures r.None? <==> forall k :: 0 <= k < |recs| ==> recs[k].id != id
  {
    if recs == [] then None
    else if recs[0].id == id then Some(0)
    else match Find(recs[1..], id)
      case None => None
      case Some(i) => Some(i + 1)
  }

  predicate Stored(st: Store, id: string)
  {
    Find(st.records, id).Some?
  }

  lemma FindIsPosition(st: Store, k: nat)
    requires Valid(st) && k < |st.records|
    ensures Find(st.records, st.records[k].id) == Some(k)
  {
  }

  /** `get_by_id` on an already coerced id. */
  function GetById(st: Store, id: string): (r: Option<MemoryRecord>)
    ensures r.Some? <==> exists k :: 0 <= k < |st.records| && st.records[k].id == id
    ensures r.Some? ==> r.value in st.records && r.value.id == id
  {
    match Find(st.records, id)
    case None => None
    case Some(i) => Some(st.records[i])
  }

  /** `get_latest`: the most recently appended id, not the newest `created_at`. */
  function GetLatest(st: Store): (r: Option<string>)
    ensures r.None? <==> st.records == []
    ensures r.Some? ==> r.value == st.records[|st.records| - 1].id
  {
    if st.records == [] then None else Some(st.records[|st.records| - 1].id)
  }

  /** A caller's id: already a key (a UUID object in the code), or text to parse. */
  datatype IdRef = Key(key: string) | Text(text: string)

  /**
   `coerce_uuid`: a key passes unchanged; text goes through the parser, and a
   parse failure is a ValueError.
   */
  function CoerceId(ref: IdRef, parse: string -> Option<string>): (r: Outcome<string>)
    ensures ref.Key? ==> r == Ok(ref.key)
    ensures ref.Text? ==> (r.Ok? <==> parse(ref.text).Some?)
    ensures ref.Text? && r.Ok? ==> r.value == parse(ref.text).value
    ensures r.Fail? ==> r.exc == ValueError
  {
    match ref
    case Key(k) => Ok(k)
    case Text(t) => if parse(t).Some? then Ok(parse(t).value) else Fail(ValueError)
  }

  /** Coercing an already coerced id changes nothing. */
  lemma CoerceIdIdempotent(ref: IdRef, parse: string -> Option<string>)
    requires CoerceId(ref, parse).Ok?
    ensures CoerceId(Key(CoerceId(ref, parse).value), parse) == CoerceId(ref, parse)
  {
  }

  /** `get_by_id`: coerce, then look up. */
  function GetByRef(st: Store, ref: IdRef, parse: string -> Option<string>): (r: Outcome<Option<MemoryRecord>>)
    ensures r.Fail? <==> CoerceId(ref, parse).Fail?
    ensures r.Fail? ==> r.exc == ValueError
    ensures r.Ok? ==> r.value == GetById(st, CoerceId(ref, parse).value)
  {
    match CoerceId(ref, parse)
    case Fail(e) => Fail(e)
    case Ok(k) => Ok(GetById(st, k))
  }

  /** A record given directly, or by id. */
  datatype RecordRef = Rec(record: MemoryRecord) | Ref(ref: IdRef)

  /** `_coerce_record`: a record passes through; an id must name a stored record (KeyError otherwise). */
  function CoerceRecord(st: Store, ref: RecordRef, parse: string -> Option<string>): (r: Outcome<MemoryRecord>)
    ensures ref.Rec? ==> r == Ok(ref.record)
    ensures ref.Ref? && CoerceId(ref.ref, parse).Fail? ==> r == Fail(ValueError)
    ensures ref.Ref? && CoerceId(ref.ref, parse).Ok? ==>
      (r.Ok? <==> Stored(st, CoerceId(ref.ref, parse).value))
    ensures ref.Ref? && r.Ok? ==> r.value in st.records && r.value.id == CoerceId(ref.ref, parse).value
    ensures r.Fail? ==> r.exc in {ValueError, KeyError}
  {
    match ref
    case Rec(rec) => Ok(rec)
    case Ref(idRef) =>
      match CoerceId(idRef, parse)
      case Fail(e) => Fail(e)
      case Ok(k) =>
        match GetById(st, k)
        case None => Fail(KeyError)
        case Some(rec) => Ok(rec)
  }

  predicate AllStored(st: Store, ids: seq<string>)
  {
    forall k :: 0 <= k < |ids| ==> Stored(st, ids[k])
  }

  /**
   `get_parents` / `get_children` once the record is resolved: the link list
   as stored, or KeyError in strict mode when a linked record is missing.
   */
  function Links(st: Store, ids: seq<string>, strict: bool): (r: Outcome<seq<string>>)
    ensures r.Fail? <==> strict && !AllStored(st, ids)
    ensures r.Fail? ==> r.exc == KeyError
    ensures r.Ok? ==> r.value == ids
  {
    if strict && !AllStored(st, ids) then Fail(KeyError) else Ok(ids)
  }

  function GetParents(st: Store, ref: RecordRef, strict: bool, parse: string -> Option<string>): (r: Outcome<seq<string>>)
    ensures r.Ok? ==> CoerceRecord(st, ref, parse).Ok? && r.value == CoerceRecord(st, ref, parse).value.parents
    ensures r.Fail? <==> CoerceRecord(st, ref, parse).Fail?
                         || (strict && !AllStored(st, CoerceRecord(st, ref, parse).value.parents))
  {
    match CoerceRecord(st, ref, parse)
    case Fail(e) => Fail(e)
    case Ok(rec) => Links(st, rec.parents, strict)
  }

  function GetChildren(st: Store, ref: RecordRef, strict: bool, parse: string -> Option<string>): (r: Outcome<seq<string>>)
    ensures r.Ok? ==> CoerceRecord(st, ref, parse).Ok? && r.value == CoerceRecord(st, ref, parse).value.children
    ensures r.Fail? <==> CoerceRecord(st, ref, parse).Fail?
                         || (strict && !AllStored(st, CoerceRecord(st, ref, parse).value.children))
  {
    match CoerceRecord(st, ref, parse)
    case Fail(e) => Fail(e)
    case Ok(rec) => Links(st, rec.children, strict)
  }

  // ---------------------------------------------------------------------
  // Chronological selections: `get_by_ids` and `get_between`
  // ---------------------------------------------------------------------

  /** The `created_at` instant at a store position (0 outside the store). */
  function MicrosAt(st: Store, i: int): int
  {
    if 0 <= i < |st.records| then st.records[i].createdAt.micros else 0
  }

  /** The sort key of both queries: (`created_at`, store position). */
  predicate TimeThenPosition(st: Store, i: int, j: int)
  {
    MicrosAt(st, i) < MicrosAt(st, j) || (MicrosAt(st, i) == MicrosAt(st, j) && i <= j)
  }

  lemma TimeThenPositionIsTotalOrder(st: Store)
    ensures IsTotalOrder((i: int, j: int) => TimeThenPosition(st, i, j))
  {
  }

  /** The positions, in store order, of the records satisfying `keep`. */
  function Positions(recs: seq<MemoryRecord>, keep: MemoryRecord -> bool, from: nat): (ps: seq<nat>)
    requires from <= |recs|
    ensures forall k :: 0 <= k < |ps| ==> from <= ps[k] < |recs| && keep(recs[ps[k]])
    ensures forall i :: from <= i < |recs| && keep(recs[i]) ==> i in ps
    ensures forall a, b :: 0 <= a < b < |ps| ==> ps[a] < ps[b]
    decreases |recs| - from
  {
    if from == |recs| then []
    else
      var rest := Positions(recs, keep, from + 1);
      if keep(recs[from]) then [from] + rest else rest
  }

  /** The positions of the records satisfying `keep`, sorted by (`created_at`, store position). */
  function SortedPositions(st: Store, keep: MemoryRecord -> bool): (ps: seq<int>)
    ensures forall k :: 0 <= k < |ps| ==> 0 <= ps[k] < |st.records| && keep(st.records[ps[k]])
    ensures forall i :: 0 <= i < |st.records| && keep(st.records[i]) ==> i in ps
    ensures Distinct(ps)
    ensures forall a, b :: 0 <= a < b < |ps| ==> TimeThenPosition(st, ps[a], ps[b])
  {
    var leq := (i: int, j: int) => TimeThenPosition(st, i, j);
    TimeThenPositionIsTotalOrder(st);
    var pos: seq<int> := Positions(st.records, keep, 0);
    var sorted := Sort(pos, leq);
    assert forall k :: 0 <= k < |sorted| ==> sorted[k] in pos by {
      forall k | 0 <= k < |sorted| ensures sorted[k] in pos {
        SortKeepsElements(pos, leq, sorted[k]);
      }
    }
    assert forall i :: 0 <= i < |st.records| && keep(st.records[i]) ==> i in sorted by {
      forall i | 0 <= i < |st.records| && keep(st.records[i]) ensures i in sorted {
        SortKeepsElements(pos, leq, i);
      }
    }
    assert Distinct(pos);
    SortKeepsDistinct(pos, leq);
    sorted
  }

  /** The store position of a stored id (-1 for an id not stored). */
  function PositionOf(st: Store, id: string): int
  {
    match Find(st.records, id)
    case None => -1
    case Some(i) => i
  }

  /** The `created_at` instant of a stored id (0 for an id not stored). */
  function MicrosOf(st: Store, id: string): int
  {
    match GetById(st, id)
    case None => 0
    case Some(rec) => rec.createdAt.micros
  }

  /** The records at the given positions. */
  function AtPositions(st: Store, ps: seq<int>): (r: seq<MemoryRecord>)
    requires forall k :: 0 <= k < |ps| ==> 0 <= ps[k] < |st.records|
    ensures |r| == |ps| && forall k :: 0 <= k < |ps| ==> r[k] == st.records[ps[k]]
  {
    seq(|ps|, k requires 0 <= k < |ps| => st.records[ps[k]])
  }

  /** The records satisfying `keep`, sorted by (`created_at`, store position). */
  function Chronological(st: Store, keep: MemoryRecord -> bool): (r: seq<MemoryRecord>)
    requires Valid(st)
    ensures forall k :: 0 <= k < |r| ==> r[k] in st.records && keep(r[k])
    ensures forall x :: x in st.records && keep(x) ==> x in r
    ensures forall a, b :: 0 <= a < b < |r| ==> r[a].id != r[b].id
    ensures forall a, b :: 0 <= a < b < |r| ==> r[a].createdAt.micros <= r[b].createdAt.micros
    ensures forall a, b :: 0 <= a < b < |r| && r[a].createdAt.micros == r[b].createdAt.micros ==>
      PositionOf(st, r[a].id) < PositionOf(st, r[b].id)
  {
    var ps := SortedPositions(st, keep);
    var r := AtPositions(st, ps);
    ChronologicalComplete(st, keep, ps, r);
    ChronologicalOrdered(st, ps, r);
    r
  }

  lemma ChronologicalComplete(st: Store, keep: MemoryRecord -> bool, ps: seq<int>, r: seq<MemoryRecord>)
    requires forall k :: 0 <= k < |ps| ==> 0 <= ps[k] < |st.records| && keep(st.records[ps[k]])
    requires forall i :: 0 <= i < |st.records| && keep(st.records[i]) ==> i in ps
    requires r == AtPositions(st, ps)
    ensures forall k :: 0 <= k < |r| ==> r[k] in st.records && keep(r[k])
    ensures forall x :: x in st.records && keep(x) ==> x in r
  {
    forall x | x in st.records && keep(x) ensures x in r {
      var i :| 0 <= i < |st.records| && st.records[i] == x;
      var k :| 0 <= k < |ps| && ps[k] == i;
      assert r[k] == x;
    }
  }

  lemma ChronologicalOrdered(st: Store, ps: seq<int>, r: seq<MemoryRecord>)
    requires Valid(st)
    requires forall k :: 0 <= k < |ps| ==> 0 <= ps[k] < |st.records|
    requires Distinct(ps)
    requires forall a, b :: 0 <= a < b < |ps| ==> TimeThenPosition(st, ps[a], ps[b])
    requires r == AtPositions(st, ps)
    ensures forall a, b :: 0 <= a < b < |r| ==> r[a].id != r[b].id
    ensures forall a, b :: 0 <= a < b < |r| ==> r[a].createdAt.micros <= r[b].createdAt.micros
    ensures forall a, b :: 0 <= a < b < |r| && r[a].createdAt.micros == r[b].createdAt.micros ==>
      PositionOf(st, r[a].id) < PositionOf(st, r[b].id)
  {
    forall a, b | 0 <= a < b < |r|
      ensures r[a].id != r[b].id
      ensures r[a].createdAt.micros <= r[b].createdAt.micros
      ensures r[a].createdAt.micros == r[b].createdAt.micros ==> PositionOf(st, r[a].id) < PositionOf(st, r[b].id)
    {
      assert ps[a] != ps[b];
      assert TimeThenPosition(st, ps[a], ps[b]);
      FindIsPosition(st, ps[a]);
      FindIsPosition(st, ps[b]);
    }
  }

  /**
   `get_by_ids`: coerce every id (ValueError on the first bad one), drop
   duplicates, raise KeyError in strict mode if any id is not stored, and
   return the stored records sorted by (`created_at`, store position).
   */
  function GetByIds(st: Store, refs: set<IdRef>, strict: bool, parse: string -> Option<string>): (r: Outcome<seq<MemoryRecord>>)
    requires Valid(st)
    ensures r.Fail? <==> (exists x :: x in refs && CoerceId(x, parse).Fail?)
                         || (strict && exists x :: x in refs && CoerceId(x, parse).Ok? && !Stored(st, CoerceId(x, parse).value))
    ensures r.Fail? ==> r.exc == (if exists x :: x in refs && CoerceId(x, parse).Fail? then ValueError else KeyError)
    ensures r.Ok? ==> forall rec :: rec in r.value <==>
      rec in st.records && exists x :: x in refs && CoerceId(x, parse) == Ok(rec.id)
    ensures r.Ok? ==> forall a, b :: 0 <= a < b < |r.value| ==> r.value[a].id != r.value[b].id
    ensures r.Ok? ==> forall a, b :: 0 <= a < b < |r.value| ==>
      r.value[a].createdAt.micros <= r.value[b].createdAt.micros
    ensures r.Ok? ==> forall a, b :: 0 <= a < b < |r.value| && r.value[a].createdAt.micros == r.value[b].createdAt.micros ==>
      PositionOf(st, r.value[a].id) < PositionOf(st, r.value[b].id)
  {
    if exists x :: x in refs && CoerceId(x, parse).Fail? then Fail(ValueError)
    else
      var keys := set x | x in refs :: CoerceId(x, parse).value;
      if strict && exists k :: k in keys && !Stored(st, k) then Fail(KeyError)
      else Ok(Chronological(st, (rec: MemoryRecord) => rec.id in keys))
  }

  /** `_in_datetime_range`: each bound is closed or open according to its flag. */
  predicate InRange(value: int, start: int, end: int, includeStart: bool, includeEnd: bool)
  {
    (if includeStart then start <= value else start < value)
    && (if includeEnd then value <= end else value < end)
  }

  /**
   `get_between`: ValueError if start is after end; otherwise the ids of the
   records inside the range, sorted by (`created_at`, store position).
   */
  function GetBetween(st: Store, start: int, end: int, includeStart: bool, includeEnd: bool): (r: Outcome<seq<string>>)
    requires Valid(st)
    ensures r.Fail? <==> start > end
    ensures r.Fail? ==> r.exc == ValueError
    ensures r.Ok? ==> forall id :: id in r.value <==>
      exists rec :: rec in st.records && rec.id == id && InRange(rec.createdAt.micros, start, end, includeStart, includeEnd)
    ensures r.Ok? ==> forall a, b :: 0 <= a < b < |r.value| ==> r.value[a] != r.value[b]
    ensures r.Ok? ==> forall a, b :: 0 <= a < b < |r.value| ==>
      MicrosOf(st, r.value[a]) <= MicrosOf(st, r.value[b])
    ensures r.Ok? ==> forall a, b :: 0 <= a < b < |r.value| && MicrosOf(st, r.value[a]) == MicrosOf(st, r.value[b]) ==>
      PositionOf(st, r.value[a]) < PositionOf(st, r.value[b])
  {
    if start > end then Fail(ValueError)
    else
      var keep := (rec: MemoryRecord) => InRange(rec.createdAt.micros, start, end, includeStart, includeEnd);
      ChronologicalIds(st, keep);
      Ok(IdsOf(Chronological(st, keep)))
  }

  function IdsOf(recs: seq<MemoryRecord>): (ids: seq<string>)
    ensures |ids| == |recs| && forall k :: 0 <= k < |recs| ==> ids[k] == recs[k].id
  {
    seq(|recs|, k requires 0 <= k < |recs| => recs[k].id)
  }

  lemma StoredRecordLookup(st: Store, rec: MemoryRecord)
    requires Valid(st) && rec in st.records
    ensures GetById(st, rec.id) == Some(rec)
  {
    var i :| 0 <= i < |st.records| && st.records[i] == rec;
    FindIsPosition(st, i);
  }

  /** `Chronological` stated on the ids it returns. */
  lemma ChronologicalIds(st: Store, keep: MemoryRecord -> bool)
    requires Valid(st)
    ensures var ids := IdsOf(Chronological(st, keep));
      && (forall id :: id in ids <==> exists rec :: rec in st.records && rec.id == id && keep(rec))
      && (forall a, b :: 0 <= a < b < |ids| ==> ids[a] != ids[b])
      && (forall a, b :: 0 <= a < b < |ids| ==> MicrosOf(st, ids[a]) <= MicrosOf(st, ids[b]))
      && (forall a, b :: 0 <= a < b < |ids| && MicrosOf(st, ids[a]) == MicrosOf(st, ids[b]) ==>
            PositionOf(st, ids[a]) < PositionOf(st, ids[b]))
  {
    ChronologicalIdsMembers(st, keep);
    ChronologicalIdsOrder(st, keep);
  }

  lemma ChronologicalIdsMembers(st: Store, keep: MemoryRecord -> bool)
    requires Valid(st)
    ensures var ids := IdsOf(Chronological(st, keep));
      forall id :: id in ids <==> exists rec :: rec in st.records && rec.id == id && keep(rec)
  {
    forall id | id in IdsOf(Chronological(st, keep))
      ensures exists rec :: rec in st.records && rec.id == id && keep(rec)
    {
      ListedIdIsKept(Chronological(st, keep), st, keep, id);
    }
    forall id | exists rec :: rec in st.records && rec.id == id && keep(rec)
      ensures id in IdsOf(Chronological(st, keep))
    {
      var rec :| rec in st.records && rec.id == id && keep(rec);
      KeptIdIsListed(Chronological(st, keep), rec);
    }
  }

  lemma ListedIdIsKept(recs: seq<MemoryRecord>, st: Store, keep: MemoryRecord -> bool, id: string)
    requires forall k :: 0 <= k < |recs| ==> recs[k] in st.records && keep(recs[k])
    requires id in IdsOf(recs)
    ensures exists rec :: rec in st.records && rec.id == id && keep(rec)
  {
    var ids := IdsOf(recs);
    var k :| 0 <= k < |ids| && ids[k] == id;
    assert recs[k] in st.records && keep(recs[k]);
  }

  lemma KeptIdIsListed(recs: seq<MemoryRecord>, rec: MemoryRecord)
    requires rec in recs
    ensures rec.id in IdsOf(recs)
  {
    var k :| 0 <= k < |recs| && recs[k] == rec;
    assert IdsOf(recs)[k] == rec.id;
  }

  lemma ChronologicalIdsOrder(st: Store, keep: MemoryRecord -> bool)
    requires Valid(st)
    ensures var ids := IdsOf(Chronological(st, keep));
      && (forall a, b :: 0 <= a < b < |ids| ==> ids[a] != ids[b])
      && (forall a, b :: 0 <= a < b < |ids| ==> MicrosOf(st, ids[a]) <= MicrosOf(st, ids[b]))
      && (forall a, b :: 0 <= a < b < |ids| && MicrosOf(st, ids[a]) == MicrosOf(st, ids[b]) ==>
            PositionOf(st, ids[a]) < PositionOf(st, ids[b]))
  {
    var recs := Chronological(st, keep);
    var ids := IdsOf(recs);
    forall k | 0 <= k < |recs| ensures MicrosOf(st, ids[k]) == recs[k].createdAt.micros {
      StoredRecordLookup(st, recs[k]);
    }
  }

  /** An open bound only ever removes records from the closed range. */
  lemma OpenBoundsNarrow(st: Store, start: int, end: int, includeStart: bool, includeEnd: bool, id: string)
    requires Valid(st) && start <= end
    requires id in GetBetween(st, start, end, includeStart, includeEnd).value
    ensures id in GetBetween(st, start, end, true, true).value
  {
    var rec :| rec in st.records && rec.id == id && InRange(rec.createdAt.micros, start, end, includeStart, includeEnd);
    assert InRange(rec.createdAt.micros, start, end, true, true);
  }

  // ---------------------------------------------------------------------
  // append
  // ---------------------------------------------------------------------

  /**
   The outcome of `append`: the in-memory state afterwards, and the state the
   files hold afterwards. Both stores check everything before writing, so a
   failed append writes nothing; but the parents' `children` lists are
   updated in place while the parents are checked, so a KeyError on a later
   parent leaves the earlier parents linked in memory.
   */
  datatype AppendResult = AppendResult(outcome: Outcome<()>, memory: Store, disk: Store)

  /** Add `child` to the children of the record at position `i`, unless it is already there. */
  function LinkChild(recs: seq<MemoryRecord>, i: nat, child: string): (r: seq<MemoryRecord>)
    requires i < |recs|
    ensures |r| == |recs|
    ensures forall k :: 0 <= k < |recs| && k != i ==> r[k] == recs[k]
    ensures r[i] == recs[i].(children := if child in recs[i].children then recs[i].children
                                         else recs[i].children + [child])
  {
    var p := recs[i];
    if child in p.children then recs
    else recs[i := p.(children := p.children + [child])]
  }

  /** The parent loop: link each parent in list order, failing with KeyError at the first unknown one. */
  function LinkParents(recs: seq<MemoryRecord>, parents: seq<string>, child: string): (r: (Outcome<()>, seq<MemoryRecord>))
    ensures |r.1| == |recs|
    ensures forall k :: 0 <= k < |recs| ==> r.1[k].(children := recs[k].children) == recs[k]
    ensures r.0.Fail? <==> exists j :: 0 <= j < |parents| && Find(recs, parents[j]).None?
    ensures r.0.Fail? ==> r.0.exc == KeyError
    decreases |parents|
  {
    if parents == [] then (Ok(()), recs)
    else
      match Find(recs, parents[0])
      case None => (Fail(KeyError), recs)
      case Some(i) =>
        var linked := LinkChild(recs, i, child);
        var rest := LinkParents(linked, parents[1..], child);
        MissingParentAfterLink(recs, linked, parents);
        rest
  }

  /** Linking a child changes no id, so the later parents are missing from `linked` exactly when from `recs`. */
  lemma MissingParentAfterLink(recs: seq<MemoryRecord>, linked: seq<MemoryRecord>, parents: seq<string>)
    requires SameIds(recs, linked) && parents != [] && Find(recs, parents[0]).Some?
    ensures (exists j :: 0 <= j < |parents| && Find(recs, parents[j]).None?)
        <==> (exists j :: 0 <= j < |parents[1..]| && Find(linked, parents[1..][j]).None?)
  {
    forall id ensures Find(linked, id) == Find(recs, id) {
      FindIgnoresChildren(recs, linked, id);
    }
    assert forall j :: 1 <= j < |parents| ==> parents[j] == parents[1..][j - 1];
  }

  lemma {:induction false} FindIgnoresChildren(a: seq<MemoryRecord>, b: seq<MemoryRecord>, id: string)
    requires |a| == |b| && forall k :: 0 <= k < |a| ==> a[k].id == b[k].id
    ensures Find(a, id) == Find(b, id)
  {
    if a != [] {
      FindIgnoresChildren(a[1..], b[1..], id);
    }
  }

  /**
   `append` (both stores): ValueError for an id already stored; KeyError for
   an unknown parent; otherwise each parent gains the new id as a child if it
   lacks it, and the record goes last.
   */
  function Append(st: Store, rec: MemoryRecord): (r: AppendResult)
    ensures r.outcome.Fail? ==> r.disk == st
    ensures r.outcome.Ok? ==> r.disk == r.memory
    ensures Stored(st, rec.id) ==> r.outcome == Fail(ValueError) && r.memory == st
    ensures !Stored(st, rec.id) ==>
      (r.outcome.Fail? <==> exists j :: 0 <= j < |rec.parents| && !Stored(st, rec.parents[j]))
    ensures !Stored(st, rec.id) && r.outcome.Fail? ==> r.outcome.exc == KeyError && |r.memory.records| == |st.records|
    ensures r.outcome.Ok? ==> |r.memory.records| == |st.records| + 1 && r.memory.records[|st.records|] == rec
    ensures r.outcome.Ok? ==> GetLatest(r.memory) == Some(rec.id)
    ensures forall k :: 0 <= k < |st.records| && k < |r.memory.records| ==>
      r.memory.records[k].(children := st.records[k].children) == st.records[k]
  {
    if Stored(st, rec.id) then AppendResult(Fail(ValueError), st, st)
    else
      var (outcome, linked) := LinkParents(st.records, rec.parents, rec.id);
      if outcome.Fail? then AppendResult(outcome, Store(linked), st)
      else
        var after := Store(linked + [rec]);
        AppendResult(Ok(()), after, after)
  }

  /** The number of parents checked before the first unknown one (all of them when none is unknown). */
  function FirstMissing(recs: seq<MemoryRecord>, parents: seq<string>): (m: nat)
    ensures m <= |parents|
    ensures forall j :: 0 <= j < m ==> Find(recs, parents[j]).Some?
    ensures m < |parents| ==> Find(recs, parents[m]).None?
  {
    if parents == [] || Find(recs, parents[0]).None? then 0
    else 1 + FirstMissing(recs, parents[1..])
  }

  /** The children list a record ends with once `child` has been linked to `linked` parents. */
  function ChildrenAfter(rec: MemoryRecord, linked: seq<string>, child: string): seq<string>
  {
    if rec.id in linked && child !in rec.children then rec.children + [child] else rec.children
  }

  /**
   The parent loop changes exactly the `children` lists of the parents it got
   through, each gaining the child once and only if it lacked it.
   */
  lemma {:induction false} LinkParentsEffect(recs: seq<MemoryRecord>, parents: seq<string>, child: string, k: nat)
    requires Valid(Store(recs)) && k < |recs|
    ensures LinkParents(recs, parents, child).1[k].children
            == ChildrenAfter(recs[k], parents[..FirstMissing(recs, parents)], child)
    decreases |parents|
  {
    if parents != [] && Find(recs, parents[0]).Some? {
      var i := Find(recs, parents[0]).value;
      var linked := LinkChild(recs, i, child);
      LinkStep(recs, parents, child);
      var m := FirstMissing(recs, parents);
      LinkParentsEffect(linked, parents[1..], child, k);
      var before := parents[..m];
      var rest := parents[1..][..m - 1];
      SliceHead(parents, m);
      if k == i {
        assert child in linked[k].children;
        assert recs[k].id in before;
      } else {
        assert linked[k] == recs[k];
        assert recs[k].id != parents[0];
        assert (recs[k].id in before) == (recs[k].id in rest);
      }
    }
  }

  /** One round of the parent loop: the first parent is linked and the rest run on a store with the same ids. */
  lemma LinkStep(recs: seq<MemoryRecord>, parents: seq<string>, child: string)
    requires Valid(Store(recs)) && parents != [] && Find(recs, parents[0]).Some?
    ensures var linked := LinkChild(recs, Find(recs, parents[0]).value, child);
      && LinkParents(recs, parents, child) == LinkParents(linked, parents[1..], child)
      && Valid(Store(linked))
      && FirstMissing(recs, parents) == 1 + FirstMissing(linked, parents[1..])
  {
    var linked := LinkChild(recs, Find(recs, parents[0]).value, child);
    assert SameIds(recs, linked);
    FirstMissingIgnoresChildren(recs, linked, parents[1..]);
    assert Valid(Store(linked)) by {
      assert forall a :: 0 <= a < |recs| ==> linked[a].id == recs[a].id;
    }
  }

  lemma SliceHead<T>(s: seq<T>, m: nat)
    requires 1 <= m <= |s|
    ensures s[..m] == [s[0]] + s[1..][..m - 1]
  {
  }

  predicate SameIds(a: seq<MemoryRecord>, b: seq<MemoryRecord>)
  {
    |a| == |b| && forall k :: 0 <= k < |a| ==> a[k].id == b[k].id
  }

  lemma {:induction false} FirstMissingIgnoresChildren(a: seq<MemoryRecord>, b: seq<MemoryRecord>, parents: seq<string>)
    requires SameIds(a, b)
    ensures FirstMissing(a, parents) == FirstMissing(b, parents)
    decreases |parents|
  {
    if parents != [] {
      FindIgnoresChildren(a, b, parents[0]);
      FirstMissingIgnoresChildren(a, b, parents[1..]);
    }
  }

  /**
   What `append` leaves in memory, record by record: after success every
   parent holds the new id once; after a KeyError only the parents before the
   unknown one do. No other field of any record changes.
   */
  lemma AppendEffect(st: Store, rec: MemoryRecord, k: nat)
    requires Valid(st) && !Stored(st, rec.id) && k < |st.records|
    ensures var r := Append(st, rec);
      r.memory.records[k].children
      == ChildrenAfter(st.records[k], rec.parents[..FirstMissing(st.records, rec.parents)], rec.id)
  {
    LinkParentsEffect(st.records, rec.parents, rec.id, k);
  }

  /** After a successful append every listed parent has the new record among its children (store.py's promise). */
  lemma AppendLinksParents(st: Store, rec: MemoryRecord, p: string)
    requires Valid(st) && Append(st, rec).outcome.Ok?
    requires p in rec.parents
    ensures var m := Append(st, rec).memory;
      GetById(m, p).Some? && rec.id in GetById(m, p).value.children
  {
    var r := Append(st, rec);
    var j :| 0 <= j < |rec.parents| && rec.parents[j] == p;
    var i := Find(st.records, p).value;
    AppendEffect(st, rec, i);
    assert FirstMissing(st.records, rec.parents) == |rec.parents|;
    assert rec.parents[..|rec.parents|] == rec.parents;
    assert r.memory.records[i].id == p;
    FindIsPosition(r.memory, i) by {
      AppendKeepsValid(st, rec);
    }
  }

  /** A successful append keeps ids unique. */
  lemma AppendKeepsValid(st: Store, rec: MemoryRecord)
    requires Valid(st) && Append(st, rec).outcome.Ok?
    ensures Valid(Append(st, rec).memory)
  {
    var m := Append(st, rec).memory;
    forall k | 0 <= k < |st.records| ensures m.records[k].id == st.records[k].id {
    }
    assert forall k :: 0 <= k < |st.records| ==> st.records[k].id != rec.id;
  }

  /**
   A KeyError for the second parent still links the first: the append is not
   atomic in memory, though nothing is written.
   */
  lemma KeyErrorAfterFirstParentLinksIt(st: Store, rec: MemoryRecord, k: nat)
    requires Valid(st) && !Stored(st, rec.id) && k < |st.records|
    requires |rec.parents| == 2 && rec.parents[0] == st.records[k].id && !Stored(st, rec.parents[1])
    ensures Append(st, rec).outcome == Fail(KeyError)
    ensures Append(st, rec).disk == st
    ensures rec.id in Append(st, rec).memory.records[k].children
  {
    FindIsPosition(st, k);
    AppendEffect(st, rec, k);
    assert FirstMissing(st.records, rec.parents) == 1;
    assert rec.parents[..1] == [rec.parents[0]];
  }
}
