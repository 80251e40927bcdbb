/**
 The bookkeeping around one agent run (core/src/k/agent/core/agent.py): the
 memory records selected as context for the run, the trimming of the run's
 message history before it is stored, and the parent list of the record the
 run produces.
 */
module AgentRun {
  import opened Wrappers
  import opened MemoryRecords
  import opened MemoryStore
  import opened MemoryAncestors
  import opened Sorting

  // ---------------------------------------------------------------------------
  // History stripping
  // ---------------------------------------------------------------------------

  /** A message part: the user prompt (its content items), or any other part. */
  datatype Part = UserPrompt(content: seq<string>) | OtherPart(text: string)

  /** A model request (sent to the model) or response (received from it). */
  datatype Message = Request(parts: seq<Part>) | Response(parts: seq<Part>)

  /**
   The first message, reduced: a request keeps only its last part, whose
   content becomes the instruct when it is a user prompt; a request without
   parts fails on the index; a response is kept.
   */
  function StripFirst(m: Message, instruct: seq<string>): (r: Outcome<Message>)
    ensures r.Fail? <==> m.Request? && m.parts == []
    ensures r.Fail? ==> r.exc == IndexError
    ensures r.Ok? && m.Response? ==> r.value == m
    ensures r.Ok? && m.Request? ==> r.value.Request? && |r.value.parts| == 1
    ensures r.Ok? && m.Request? ==>
      (r.value.parts[0].UserPrompt? <==> m.parts[|m.parts| - 1].UserPrompt?)
    ensures r.Ok? && r.value.Request? && r.value.parts[0].UserPrompt? ==> r.value.parts[0].content == instruct
    ensures r.Ok? && m.Request? && !m.parts[|m.parts| - 1].UserPrompt? ==> r.value.parts[0] == m.parts[|m.parts| - 1]
  {
    match m
    case Response(_) => Ok(m)
    case Request(parts) =>
      if parts == [] then Fail(IndexError)
      else
        var last := parts[|parts| - 1];
        Ok(Request([if last.UserPrompt? then UserPrompt(instruct) else last]))
  }

  /**
   `_strip_history`: the reduced first message followed by the messages
   between the first and the last; the final message is dropped. An empty
   history fails on the index.
   */
  function StripHistory(msgs: seq<Message>, instruct: seq<string>): (r: Outcome<seq<Message>>)
    ensures r.Fail? <==> msgs == [] || StripFirst(msgs[0], instruct).Fail?
    ensures r.Fail? ==> r.exc == IndexError
    ensures r.Ok? ==> |r.value| == (if |msgs| == 1 then 1 else |msgs| - 1)
    ensures r.Ok? ==> r.value[0] == StripFirst(msgs[0], instruct).value
    ensures r.Ok? && |msgs| >= 2 ==> r.value[1..] == msgs[1..|msgs| - 1]
  {
    if msgs == [] then Fail(IndexError)
    else
      match StripFirst(msgs[0], instruct)
      case Fail(e) => Fail(e)
      case Ok(first) => Ok([first] + (if |msgs| >= 2 then msgs[1..|msgs| - 1] else []))
  }

  /** Reducing the first message twice is reducing it once. */
  lemma StripFirstIdempotent(m: Message, instruct: seq<string>)
    requires StripFirst(m, instruct).Ok?
    ensures StripFirst(StripFirst(m, instruct).value, instruct) == StripFirst(m, instruct)
  {
    var once := StripFirst(m, instruct).value;
    if m.Request? {
      assert once.parts[|once.parts| - 1] == once.parts[0];
    }
  }

  /**
   Nothing but the first and the last message is altered: the stripped
   history, with the first message restored and the last appended, is the
   original history.
   */
  lemma StripHistoryLosesOnlyEnds(msgs: seq<Message>, instruct: seq<string>)
    requires |msgs| >= 2 && StripHistory(msgs, instruct).Ok?
    ensures var r := StripHistory(msgs, instruct).value;
      msgs == [msgs[0]] + r[1..] + [msgs[|msgs| - 1]]
  {
    var r := StripHistory(msgs, instruct).value;
    assert msgs == [msgs[0]] + msgs[1..|msgs| - 1] + [msgs[|msgs| - 1]];
  }

  /** A user prompt as the last part of the first request is replaced by the instruct. */
  lemma StripHistoryInstructExample(other: string, previous: seq<string>, instruct: seq<string>, reply: Message)
    ensures StripHistory([Request([OtherPart(other), UserPrompt(previous)]), reply], instruct)
      == Ok([Request([UserPrompt(instruct)])])
  {
    var msgs := [Request([OtherPart(other), UserPrompt(previous)]), reply];
    assert msgs[0].parts[|msgs[0].parts| - 1] == UserPrompt(previous);
    assert StripFirst(msgs[0], instruct) == Ok(Request([UserPrompt(instruct)]));
    assert msgs[1..|msgs| - 1] == [];
    assert StripHistory(msgs, instruct) == Ok([Request([UserPrompt(instruct)])] + msgs[1..|msgs| - 1]);
    assert [Request([UserPrompt(instruct)])] + msgs[1..|msgs| - 1] == [Request([UserPrompt(instruct)])];
  }

  // ---------------------------------------------------------------------------
  // Memory selection
  // ---------------------------------------------------------------------------

  /** Ancestor levels of the records shown compacted. */
  const CompactedLevels: nat := 5
  /** Ancestor levels of the records loaded at all. */
  const RawPairLevels: nat := 20

  /** A parent memory is named by its id text. */
  function ParentRef(p: string): RecordRef
  {
    Ref(Text(p))
  }

  /** `x` lies within `level` parent steps above the record the id text `p` names. */
  ghost predicate AncestorWithin(st: Store, parse: string -> Option<string>, p: string, level: nat, x: string)
  {
    && CoerceRecord(st, ParentRef(p), parse).Ok?
    && exists k: nat :: k <= level && x in Reach(Graph(st), CoerceRecord(st, ParentRef(p), parse).value.parents, k)
  }

  /** `x` is a parent id text, or an ancestor within `level` steps of one of the first `n` parents. */
  ghost predicate SelectedUpTo(st: Store, parse: string -> Option<string>, parents: seq<string>, n: nat, level: nat, x: string)
  {
    x in parents || exists i :: 0 <= i < n && i < |parents| && AncestorWithin(st, parse, parents[i], level, x)
  }

  /** `x` is a parent id text, or an ancestor within `level` steps of some parent. */
  ghost predicate Selected(st: Store, parse: string -> Option<string>, parents: seq<string>, level: nat, x: string)
  {
    SelectedUpTo(st, parse, parents, |parents|, level, x)
  }

  /** The ids handed to `get_by_ids` after `n` parents: the parent texts, and ancestor keys within 20 levels. */
  ghost predicate QueriedUpTo(st: Store, parse: string -> Option<string>, parents: seq<string>, n: nat, y: IdRef)
  {
    (y.Text? && y.text in parents)
    || (y.Key? && exists j :: 0 <= j < n && j < |parents| && AncestorWithin(st, parse, parents[j], RawPairLevels, y.key))
  }

  /** The id a loaded record may have: a parsed parent, or an ancestor within `RawPairLevels` steps. */
  ghost predicate Loaded(st: Store, parse: string -> Option<string>, parents: seq<string>, id: string)
  {
    (exists i :: 0 <= i < |parents| && parse(parents[i]) == Some(id))
    || exists i :: 0 <= i < |parents| && AncestorWithin(st, parse, parents[i], RawPairLevels, id)
  }

  /** Every parent names a stored record. */
  predicate ParentsResolve(st: Store, parse: string -> Option<string>, parents: seq<string>)
  {
    forall i :: 0 <= i < |parents| ==> CoerceRecord(st, ParentRef(parents[i]), parse).Ok?
  }

  /**
   `_memory_select`: for every parent, its ancestors within 5 levels join the
   recent set and those within 20 levels the loaded set; both start from the
   parents themselves. The loaded ids are then fetched with `get_by_ids`.
   The first parent that does not name a stored record fails the call.
   */
  method MemorySelect(st: Store, parents: seq<string>, parse: string -> Option<string>)
    returns (r: Outcome<(seq<MemoryRecord>, set<string>)>)
    requires Valid(st)
    ensures r.Fail? <==> !ParentsResolve(st, parse, parents)
    ensures r.Fail? ==> exists i :: 0 <= i < |parents| && CoerceRecord(st, ParentRef(parents[i]), parse) == Fail(r.exc)
                                   && forall j :: 0 <= j < i ==> CoerceRecord(st, ParentRef(parents[j]), parse).Ok?
    ensures r.Ok? ==> forall x :: x in r.value.1 <==> Selected(st, parse, parents, CompactedLevels, x)
    ensures r.Ok? ==> forall rec :: rec in r.value.0 <==> rec in st.records && Loaded(st, parse, parents, rec.id)
    ensures r.Ok? ==> Distinct(IdsOf(r.value.0))
  {
    var recent: set<string> := SetOf(parents);
    var all: set<IdRef> := set p | p in parents :: Text(p);
    var i := 0;
    while i < |parents|
      invariant 0 <= i <= |parents|
      invariant forall j :: 0 <= j < i ==> CoerceRecord(st, ParentRef(parents[j]), parse).Ok?
      invariant forall x :: x in recent <==> SelectedUpTo(st, parse, parents, i, CompactedLevels, x)
      invariant forall y :: y in all <==> QueriedUpTo(st, parse, parents, i, y)
    {
      var near := GetAncestors(st, ParentRef(parents[i]), Some(CompactedLevels as int), false, parse);
      if near.Fail? {
        return Fail(near.exc);
      }
      var far := GetAncestors(st, ParentRef(parents[i]), Some(RawPairLevels as int), false, parse);
      AncestorsAt(st, parse, parents[i], CompactedLevels, near);
      AncestorsAt(st, parse, parents[i], RawPairLevels, far);
      ExtendRecent(st, parse, parents, i, recent, near.value);
      ExtendQueried(st, parse, parents, i, all, far.value);
      recent := recent + SetOf(near.value);
      all := all + KeysOf(far.value);
      i := i + 1;
    }
    var recs := GetByIds(st, all, false, parse);
    LoadedRecords(st, parse, parents, all, recs);
    return Ok((recs.value, recent));
  }

  lemma ExtendRecent(st: Store, parse: string -> Option<string>, parents: seq<string>, i: nat,
                      recent: set<string>, anc: seq<string>)
    requires i < |parents|
    requires forall x :: x in recent <==> SelectedUpTo(st, parse, parents, i, CompactedLevels, x)
    requires forall x :: x in anc <==> AncestorWithin(st, parse, parents[i], CompactedLevels, x)
    ensures forall x :: x in recent + SetOf(anc) <==> SelectedUpTo(st, parse, parents, i + 1, CompactedLevels, x)
  {
    forall x ensures x in recent + SetOf(anc) <==> SelectedUpTo(st, parse, parents, i + 1, CompactedLevels, x) {
      if x in recent + SetOf(anc) && x !in parents {
        if x in recent {
          assert SelectedUpTo(st, parse, parents, i, CompactedLevels, x);
          var j :| 0 <= j < i && j < |parents| && AncestorWithin(st, parse, parents[j], CompactedLevels, x);
          assert 0 <= j < i + 1;
        } else {
          assert x in anc;
          assert AncestorWithin(st, parse, parents[i], CompactedLevels, x);
        }
      }
      if SelectedUpTo(st, parse, parents, i + 1, CompactedLevels, x) && x !in parents {
        var j :| 0 <= j < i + 1 && j < |parents| && AncestorWithin(st, parse, parents[j], CompactedLevels, x);
        if j < i {
          assert SelectedUpTo(st, parse, parents, i, CompactedLevels, x);
        } else {
          assert j == i && parents[j] == parents[i];
          assert AncestorWithin(st, parse, parents[i], CompactedLevels, x);
        }
      }
    }
  }

  /** Ancestor ids as keys (`get_ancestors` answers ids, not text). */
  function KeysOf(anc: seq<string>): (r: set<IdRef>)
    ensures forall y :: y in r <==> y.Key? && y.key in anc
  {
    set a | a in anc :: Key(a)
  }

  lemma ExtendQueried(st: Store, parse: string -> Option<string>, parents: seq<string>, i: nat,
                      all: set<IdRef>, anc: seq<string>)
    requires i < |parents|
    requires forall y :: y in all <==> QueriedUpTo(st, parse, parents, i, y)
    requires forall x :: x in anc <==> AncestorWithin(st, parse, parents[i], RawPairLevels, x)
    ensures forall y :: y in all + KeysOf(anc) <==> QueriedUpTo(st, parse, parents, i + 1, y)
  {
    forall y ensures y in all + KeysOf(anc) <==> QueriedUpTo(st, parse, parents, i + 1, y) {
      if QueriedUpTo(st, parse, parents, i + 1, y) && y.Key? && !QueriedUpTo(st, parse, parents, i, y) {
        var j :| 0 <= j < i + 1 && j < |parents| && AncestorWithin(st, parse, parents[j], RawPairLevels, y.key);
        assert j == i;
      }
    }
  }

  /** What one `get_ancestors(parent, level=n)` call answers, for a parent that resolves. */
  lemma AncestorsAt(st: Store, parse: string -> Option<string>, p: string, level: nat, r: Outcome<seq<string>>)
    requires level > 0
    requires CoerceRecord(st, ParentRef(p), parse).Ok? ==>
      AncestorsSpec(st, CoerceRecord(st, ParentRef(p), parse).value.parents, Some(level), false, r)
    requires CoerceRecord(st, ParentRef(p), parse).Fail? ==> r == Fail(CoerceRecord(st, ParentRef(p), parse).exc)
    ensures r.Ok? <==> CoerceRecord(st, ParentRef(p), parse).Ok?
    ensures r.Ok? ==> forall x :: x in r.value <==> AncestorWithin(st, parse, p, level, x)
  {
  }

  /** The `get_by_ids` call succeeds and loads exactly the records whose ids are `Loaded`. */
  lemma LoadedRecords(st: Store, parse: string -> Option<string>, parents: seq<string>, all: set<IdRef>,
                      recs: Outcome<seq<MemoryRecord>>)
    requires Valid(st)
    requires ParentsResolve(st, parse, parents)
    requires forall y :: y in all <==> QueriedUpTo(st, parse, parents, |parents|, y)
    requires recs == GetByIds(st, all, false, parse)
    ensures recs.Ok?
    ensures forall rec :: rec in recs.value <==> rec in st.records && Loaded(st, parse, parents, rec.id)
    ensures Distinct(IdsOf(recs.value))
  {
    QueriedCoerce(st, parse, parents, all);
    forall rec | rec in st.records
      ensures (exists x :: x in all && CoerceId(x, parse) == Ok(rec.id)) <==> Loaded(st, parse, parents, rec.id)
    {
      QueriedId(st, parse, parents, all, rec.id);
    }
    var ids := IdsOf(recs.value);
    forall a, b | 0 <= a < b < |ids| ensures ids[a] != ids[b] {
      assert recs.value[a].id != recs.value[b].id;
    }
  }

  /** An id is among the coerced queried ids exactly when it is `Loaded`. */
  lemma QueriedId(st: Store, parse: string -> Option<string>, parents: seq<string>, all: set<IdRef>, id: string)
    requires forall y :: y in all <==> QueriedUpTo(st, parse, parents, |parents|, y)
    ensures (exists x :: x in all && CoerceId(x, parse) == Ok(id)) <==> Loaded(st, parse, parents, id)
  {
    if exists x :: x in all && CoerceId(x, parse) == Ok(id) {
      var x :| x in all && CoerceId(x, parse) == Ok(id);
      if x.Text? {
        var j :| 0 <= j < |parents| && parents[j] == x.text;
        assert parse(parents[j]) == Some(id);
      }
    }
    if Loaded(st, parse, parents, id) {
      if exists i :: 0 <= i < |parents| && parse(parents[i]) == Some(id) {
        var i :| 0 <= i < |parents| && parse(parents[i]) == Some(id);
        assert Text(parents[i]) in all && CoerceId(Text(parents[i]), parse) == Ok(id);
      } else {
        assert Key(id) in all && CoerceId(Key(id), parse) == Ok(id);
      }
    }
  }

  /** Every queried id coerces: parent texts because the parents resolve, ancestor keys trivially. */
  lemma QueriedCoerce(st: Store, parse: string -> Option<string>, parents: seq<string>, all: set<IdRef>)
    requires ParentsResolve(st, parse, parents)
    requires forall y :: y in all <==> QueriedUpTo(st, parse, parents, |parents|, y)
    ensures forall x :: x in all ==> CoerceId(x, parse).Ok?
  {
    forall x | x in all
      ensures CoerceId(x, parse).Ok?
    {
      if x.Text? {
        var j :| 0 <= j < |parents| && parents[j] == x.text;
        assert CoerceRecord(st, ParentRef(parents[j]), parse).Ok?;
      }
    }
  }

  /** Recent is within loaded: a recent ancestor lies within 20 levels too, since 5 <= 20. */
  lemma RecentWithinLoaded(st: Store, parse: string -> Option<string>, parents: seq<string>, x: string)
    requires Selected(st, parse, parents, CompactedLevels, x)
    ensures Selected(st, parse, parents, RawPairLevels, x)
    ensures x !in parents ==> Loaded(st, parse, parents, x)
  {
    if x !in parents {
      var i :| 0 <= i < |parents| && AncestorWithin(st, parse, parents[i], CompactedLevels, x);
      assert AncestorWithin(st, parse, parents[i], RawPairLevels, x);
    }
  }

  // ---------------------------------------------------------------------------
  // Parents of the new record
  // ---------------------------------------------------------------------------

  /** The distinct elements of `s`, each at its first occurrence. */
  function Dedup(s: seq<string>): (r: seq<string>)
    ensures Distinct(r)
    ensures forall x :: x in r <==> x in s
    ensures |r| <= |s|
    decreases |s|
  {
    if s == [] then []
    else
      var init := Dedup(s[..|s| - 1]);
      var last := s[|s| - 1];
      assert forall x :: x in s <==> x in s[..|s| - 1] || x == last;
      if last in init then init else init + [last]
  }

  /** A list without repetitions is its own deduplication. */
  lemma {:induction false} DedupDistinct(s: seq<string>)
    requires Distinct(s)
    ensures Dedup(s) == s
    decreases |s|
  {
    if s != [] {
      var init := s[..|s| - 1];
      assert Distinct(init);
      DedupDistinct(init);
      assert s[|s| - 1] !in init;
      assert init + [s[|s| - 1]] == s;
    }
  }

  /**
   The new record's parents, `list(set(parent_memories + referenced))`: every
   parent memory and every referenced memory once. The set's iteration order
   is not modelled; first occurrences are kept in order.
   */
  function NewRecordParents(parentMemories: seq<string>, referenced: seq<string>): (r: seq<string>)
    ensures Distinct(r)
    ensures forall x :: x in r <==> x in parentMemories || x in referenced
    ensures |r| <= |parentMemories| + |referenced|
  {
    Dedup(parentMemories + referenced)
  }

  /** Deduplication is idempotent: the parents of a record already deduplicated stay as they are. */
  lemma NewRecordParentsStable(parentMemories: seq<string>, referenced: seq<string>)
    ensures Dedup(NewRecordParents(parentMemories, referenced)) == NewRecordParents(parentMemories, referenced)
    ensures NewRecordParents(NewRecordParents(parentMemories, referenced), []) == NewRecordParents(parentMemories, referenced)
  {
    var r := NewRecordParents(parentMemories, referenced);
    DedupDistinct(r);
    assert r + [] == r;
  }
}
