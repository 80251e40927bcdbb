/**
 One dispatch round of the Telegram starter (core/src/k/starters/telegram/runner.py):
 - which updates are plain enough to compact for the agent;
 - the per-chat group filters (forum-topic service messages, the trigger cursor);
 - the overlay with stored recent history;
 - the cursor advance;
 - the argument checks;
 - the selection of the groups to dispatch.
 */
module TgRunner {
  import opened Wrappers
  import opened PyStr
  import opened Json
  import opened Seqs
  import opened TgUpdates
  import TgLegacy

  /** Updates grouped by chat id; the None key holds the chat-less updates. */
  type Groups = map<Option<int>, seq<Json>>

  // ---------------------------------------------------------------------
  // Text-compaction eligibility

  /** The update keys whose value is a message object. */
  const MessageUpdateKeys: set<string> := {
    "message", "edited_message", "channel_post", "edited_channel_post",
    "business_message", "edited_business_message"}

  /** The only keys a plain text message may carry. */
  const PlainTextKeys: set<string> := {
    "message_id", "date", "edit_date", "chat", "from", "text", "entities",
    "link_preview_options", "message_thread_id", "is_topic_message", "reply_to_message"}

  /** The update's fields other than `update_id`. */
  function Payload(fields: seq<(string, Json)>): seq<(string, Json)>
  {
    Filter(fields, (f: (string, Json)) => f.0 != "update_id")
  }

  /** A message-like key holding an object. */
  predicate MessageField(f: (string, Json))
  {
    f.0 in MessageUpdateKeys && f.1.JObj?
  }

  /** The scan of `_extract_single_text_message_object` once `found` is held. */
  function ScanMessage(fields: seq<(string, Json)>, found: Option<Json>): Option<Json>
  {
    if fields == [] then found
    else if fields[0].0 == "update_id" then ScanMessage(fields[1..], found)
    else if !MessageField(fields[0]) then None
    else if found.Some? then None
    else ScanMessage(fields[1..], Some(fields[0].1))
  }

  /** The payload of a non-empty field list, split at its head. */
  lemma PayloadCons(fields: seq<(string, Json)>)
    requires fields != []
    ensures Payload(fields) == (if fields[0].0 != "update_id" then [fields[0]] else []) + Payload(fields[1..])
  {
    assert fields == [fields[0]] + fields[1..];
    FilterConcat([fields[0]], fields[1..], (f: (string, Json)) => f.0 != "update_id");
    assert [fields[0]][..0] == [];
  }

  /** Once a message is held, the scan keeps it only if no other payload field follows. */
  lemma {:induction false} ScanHolding(fields: seq<(string, Json)>, x: Json)
    ensures ScanMessage(fields, Some(x)) == if Payload(fields) == [] then Some(x) else None
  {
    if fields != [] {
      PayloadCons(fields);
      ScanHolding(fields[1..], x);
    }
  }

  /** From an empty hold, the scan yields the single payload field's object when there is exactly one and it is message-like. */
  lemma {:induction false} ScanFresh(fields: seq<(string, Json)>)
    ensures ScanMessage(fields, None) ==
      if |Payload(fields)| == 1 && MessageField(Payload(fields)[0]) then Some(Payload(fields)[0].1) else None
  {
    if fields != [] {
      PayloadCons(fields);
      if fields[0].0 == "update_id" {
        ScanFresh(fields[1..]);
      } else if MessageField(fields[0]) {
        ScanHolding(fields[1..], fields[0].1);
      }
    }
  }

  /**
   `_extract_single_text_message_object`: the message object when the update
   has exactly one key besides `update_id` and that key is message-like with
   an object value.
   */
  function SingleTextMessage(u: Json): (r: Option<Json>)
    ensures r.Some? <==> u.JObj? && |Payload(u.fields)| == 1 && MessageField(Payload(u.fields)[0])
    ensures r.Some? ==> u.JObj? && r.value == Payload(u.fields)[0].1 && r.value.JObj?
  {
    if u.JObj? then
      ScanFresh(u.fields);
      ScanMessage(u.fields, None)
    else None
  }

  /** The message has a non-empty string `text`. */
  predicate NonEmptyText(m: Json)
  {
    GetStr(m, "text").Some? && GetStr(m, "text").value != []
  }

  /** `_is_forum_topic_created_message`. */
  predicate ForumTopicStub(m: Json)
  {
    HasKey(m, "forum_topic_created")
  }

  /** One field of a plain text message: an allowlisted key, and a reply that is an object and still plain. */
  predicate PlainField(f: (string, Json))
    decreases f, 0
  {
    f.0 in PlainTextKeys && (f.0 == "reply_to_message" ==> PlainReply(f.1))
  }

  /**
   The plain-text rule: a non-empty string text, only allowlisted keys, and
   any reply either a forum-topic stub or itself plain text.
   */
  predicate PlainText(m: Json)
    decreases m, 1
  {
    m.JObj? && NonEmptyText(m) && forall i :: 0 <= i < |m.fields| ==> PlainField(m.fields[i])
  }

  /** `_is_plain_text_reply_message` on an object; non-objects are not plain replies. */
  predicate PlainReply(m: Json)
    decreases m, 2
  {
    m.JObj? && (ForumTopicStub(m) || PlainText(m))
  }

  /** The key loop shared by both message checks, returning at the first field that fails. */
  method FieldsArePlain(m: Json) returns (b: bool)
    requires m.JObj?
    ensures b <==> forall i :: 0 <= i < |m.fields| ==> PlainField(m.fields[i])
    decreases m, 0
  {
    var i := 0;
    while i < |m.fields|
      invariant 0 <= i <= |m.fields|
      invariant forall j :: 0 <= j < i ==> PlainField(m.fields[j])
    {
      var (key, value) := m.fields[i];
      if key !in PlainTextKeys {
        return false;
      }
      if key == "reply_to_message" {
        if !value.JObj? {
          return false;
        }
        if !ForumTopicStub(value) {
          assert value < m;
          var ok := IsPlainTextReply(value);
          if !ok {
            return false;
          }
        }
      }
      i := i + 1;
    }
    return true;
  }

  /** `_is_plain_text_message` as the source writes it: the text check, then the key loop. */
  method IsPlainTextMessage(m: Json) returns (b: bool)
    requires m.JObj?
    ensures b <==> PlainText(m)
  {
    var text := GetStr(m, "text");
    if text.None? || text.value == [] {
      return false;
    }
    b := FieldsArePlain(m);
  }

  /** `_is_plain_text_reply_message`: a forum-topic stub passes at once, otherwise the same checks. */
  method IsPlainTextReply(m: Json) returns (b: bool)
    requires m.JObj?
    ensures b <==> PlainReply(m)
    decreases m, 1
  {
    if ForumTopicStub(m) {
      return true;
    }
    var text := GetStr(m, "text");
    if text.None? || text.value == [] {
      return false;
    }
    b := FieldsArePlain(m);
  }

  /** `_should_compact_update_for_agent`. */
  predicate ShouldCompact(u: Json)
  {
    match SingleTextMessage(u)
    case None => false
    case Some(m) => PlainText(m)
  }

  /**
   An update is compacted exactly when, besides `update_id`, it has one
   message-like key whose object is plain text.
   */
  lemma CompactionIffSinglePlainMessage(u: Json)
    ensures ShouldCompact(u) <==>
      u.JObj? && |Payload(u.fields)| == 1 && Payload(u.fields)[0].0 in MessageUpdateKeys
      && PlainText(Payload(u.fields)[0].1)
  {
  }

  /** Any key outside the allowlist, such as a photo, keeps the update uncompacted. */
  lemma ForeignKeyBlocksCompaction(u: Json, key: string)
    requires key !in PlainTextKeys
    requires SingleTextMessage(u).Some? && HasKey(SingleTextMessage(u).value, key)
    ensures !ShouldCompact(u)
  {
    var m := SingleTextMessage(u).value;
    var k :| 0 <= k < |m.fields| && m.fields[k] == (key, Get(m, key).value);
    assert !PlainField(m.fields[k]);
  }

  /** A reply that is a forum-topic stub never blocks compaction, whatever else the stub holds. */
  lemma ForumStubReplyIsPlain(text: string, stub: seq<(string, Json)>)
    requires text != []
    requires "forum_topic_created" in set f | f in stub :: f.0
    ensures PlainText(JObj([("text", JStr(text)), ("reply_to_message", JObj(stub))]))
  {
    var f :| f in stub && f.0 == "forum_topic_created";
    var k :| 0 <= k < |stub| && stub[k] == f;
    assert Lookup(stub, "forum_topic_created").Some?;
  }

  // ---------------------------------------------------------------------
  // Counting updates across groups

  lemma NonEmptyHasKey(g: Groups)
    requires g != map[]
    ensures exists k :: k in g
  {
    if forall k :: k !in g {
      assert false;
    }
  }

  ghost function PickKey(g: Groups): (k: Option<int>)
    requires g != map[]
    ensures k in g
  {
    NonEmptyHasKey(g);
    var k :| k in g; k
  }

  /** The number of updates in all groups together. */
  ghost function TotalLen(g: Groups): nat
    decreases |g.Keys|
  {
    if g == map[] then 0
    else
      var k := PickKey(g);
      assert (g - {k}).Keys == g.Keys - {k};
      |g[k]| + TotalLen(g - {k})
  }

  /** The total does not depend on which group is counted first. */
  lemma {:induction false} TotalLenRemove(g: Groups, k: Option<int>)
    requires k in g
    ensures TotalLen(g) == |g[k]| + TotalLen(g - {k})
    decreases |g.Keys|
  {
    var j := PickKey(g);
    if j != k {
      assert (g - {j}).Keys == g.Keys - {j};
      assert (g - {k}).Keys == g.Keys - {k};
      TotalLenRemove(g - {j}, k);
      TotalLenRemove(g - {k}, j);
      assert (g - {j}) - {k} == (g - {k}) - {j};
    }
  }

  /** Adding a new group adds its length. */
  lemma TotalLenAdd(g: Groups, k: Option<int>, us: seq<Json>)
    requires k !in g
    ensures TotalLen(g[k := us]) == TotalLen(g) + |us|
  {
    TotalLenRemove(g[k := us], k);
    assert g[k := us] - {k} == g;
  }

  // ---------------------------------------------------------------------
  // Filtering groups

  /** The updates of chat `k` that pass `keep`. */
  function Kept(g: Groups, k: Option<int>, keep: (Option<int>, Json) -> bool): seq<Json>
    requires k in g
  {
    Filter(g[k], u => keep(k, u))
  }

  /**
   The groups a per-update filter leaves: a pass-through chat keeps its
   group as it is, any other chat keeps its passing updates and is dropped
   when none pass.
   */
  function Selected(g: Groups, keep: (Option<int>, Json) -> bool, pass: Option<int> -> bool): (r: Groups)
    ensures r.Keys <= g.Keys
  {
    map k | k in g && (pass(k) || Kept(g, k, keep) != []) :: if pass(k) then g[k] else Kept(g, k, keep)
  }

  /** The groups of the chats already visited, i.e. those not in `todo`. */
  function Visited(g: Groups, todo: set<Option<int>>): Groups
  {
    map k | k in g && k !in todo :: g[k]
  }

  /** One chat of the filtering loop: the new group, the updates it lost, whether it was emptied. */
  method FilterOne(g: Groups, k: Option<int>, keep: (Option<int>, Json) -> bool, pass: Option<int> -> bool)
    returns (kept: seq<Json>, dropped: nat, emptied: bool)
    requires k in g
    ensures pass(k) ==> kept == g[k] && dropped == 0 && !emptied
    ensures !pass(k) ==> kept == Kept(g, k, keep) && |kept| + dropped == |g[k]| && (emptied <==> kept == [])
  {
    if pass(k) {
      return g[k], 0, false;
    }
    kept, dropped := DropCounting(g[k], u => keep(k, u));
    emptied := kept == [];
  }

  /**
   The filtering loop over the chats: it builds the selected groups and
   counts the updates it removed and the groups it emptied.
   */
  method FilterGroups(g: Groups, keep: (Option<int>, Json) -> bool, pass: Option<int> -> bool)
    returns (filtered: Groups, droppedUpdates: nat, droppedGroups: nat)
    ensures filtered == Selected(g, keep, pass)
    ensures droppedUpdates + TotalLen(filtered) == TotalLen(g)
    ensures droppedGroups + |filtered.Keys| == |g.Keys|
  {
    filtered := map[];
    droppedUpdates := 0;
    droppedGroups := 0;
    var todo := g.Keys;
    assert Visited(g, todo) == map[];
    while todo != {}
      invariant todo <= g.Keys
      invariant filtered == Selected(Visited(g, todo), keep, pass)
      invariant droppedUpdates + TotalLen(filtered) == TotalLen(Visited(g, todo))
      invariant droppedGroups + |filtered.Keys| + |todo| == |g.Keys|
      decreases |todo|
    {
      var k :| k in todo;
      var kept, dropped, emptied := FilterOne(g, k, keep, pass);
      FilterStep(g, todo, k, keep, pass, filtered);
      TotalLenAdd(Visited(g, todo), k, g[k]);
      if !emptied {
        TotalLenAdd(filtered, k, kept);
        filtered := filtered[k := kept];
      } else {
        droppedGroups := droppedGroups + 1;
      }
      droppedUpdates := droppedUpdates + dropped;
      todo := todo - {k};
    }
    assert Visited(g, todo) == g;
  }

  /** Adding a new chat to the input changes the selection at that chat only. */
  lemma SelectedAddOthers(m: Groups, k: Option<int>, v: seq<Json>, keep: (Option<int>, Json) -> bool, pass: Option<int> -> bool)
    requires k !in m
    ensures forall j :: j != k ==> (j in Selected(m[k := v], keep, pass) <==> j in Selected(m, keep, pass))
    ensures forall j :: j != k && j in Selected(m, keep, pass) ==> Selected(m[k := v], keep, pass)[j] == Selected(m, keep, pass)[j]
    ensures k !in Selected(m, keep, pass)
    ensures Kept(m[k := v], k, keep) == Filter(v, u => keep(k, u))
  {
    forall j | j != k && j in m
      ensures Kept(m[k := v], j, keep) == Kept(m, j, keep)
    {
      KeptUnchanged(m, k, v, j, keep);
    }
  }

  /** A new chat whose group survives the filter is added to the selection. */
  lemma SelectedAddKept(m: Groups, k: Option<int>, v: seq<Json>, keep: (Option<int>, Json) -> bool, pass: Option<int> -> bool)
    requires k !in m
    requires pass(k) || Filter(v, u => keep(k, u)) != []
    ensures Selected(m[k := v], keep, pass) == Selected(m, keep, pass)[k := if pass(k) then v else Filter(v, u => keep(k, u))]
  {
    SelectedAddOthers(m, k, v, keep, pass);
  }

  /** A new chat whose group the filter empties leaves the selection as it was. */
  lemma SelectedAddEmptied(m: Groups, k: Option<int>, v: seq<Json>, keep: (Option<int>, Json) -> bool, pass: Option<int> -> bool)
    requires k !in m
    requires !pass(k) && Filter(v, u => keep(k, u)) == []
    ensures Selected(m[k := v], keep, pass) == Selected(m, keep, pass)
  {
    SelectedAddOthers(m, k, v, keep, pass);
  }

  /** A chat's kept updates do not change when another chat is added. */
  lemma KeptUnchanged(m: Groups, k: Option<int>, v: seq<Json>, j: Option<int>, keep: (Option<int>, Json) -> bool)
    requires j in m && j != k
    ensures Kept(m[k := v], j, keep) == Kept(m, j, keep)
  {
    assert m[k := v][j] == m[j];
  }

  /** `Kept` under a test that agrees with `q` on this chat. */
  lemma KeptExt(g: Groups, k: Option<int>, keep: (Option<int>, Json) -> bool, q: Json -> bool)
    requires k in g
    requires forall u :: keep(k, u) == q(u)
    ensures Kept(g, k, keep) == Filter(g[k], q)
  {
    FilterExt(g[k], u => keep(k, u), q);
  }

  /** Visiting one more chat extends the visited groups and the selection by that chat alone. */
  lemma FilterStep(g: Groups, todo: set<Option<int>>, k: Option<int>, keep: (Option<int>, Json) -> bool,
                   pass: Option<int> -> bool, filtered: Groups)
    requires k in todo && todo <= g.Keys
    requires filtered == Selected(Visited(g, todo), keep, pass)
    ensures k !in Visited(g, todo) && k !in filtered
    ensures Visited(g, todo - {k}) == Visited(g, todo)[k := g[k]]
    ensures pass(k) || Kept(g, k, keep) != [] ==>
      Selected(Visited(g, todo - {k}), keep, pass) == filtered[k := if pass(k) then g[k] else Kept(g, k, keep)]
    ensures !pass(k) && Kept(g, k, keep) == [] ==> Selected(Visited(g, todo - {k}), keep, pass) == filtered
  {
    assert Visited(g, todo - {k}) == Visited(g, todo)[k := g[k]];
    if pass(k) || Kept(g, k, keep) != [] {
      SelectedAddKept(Visited(g, todo), k, g[k], keep, pass);
    } else {
      SelectedAddEmptied(Visited(g, todo), k, g[k], keep, pass);
    }
  }

  // ---------------------------------------------------------------------
  // Dropping forum-topic service updates

  /** The per-update test of the forum-topic filter. */
  predicate NotForumTopic(k: Option<int>, u: Json)
  {
    !IsForumTopicCreated(u)
  }

  /** No chat passes the forum-topic filter unchecked. */
  predicate NeverPass(k: Option<int>)
  {
    false
  }

  /**
   `filter_dispatch_groups_without_forum_topic_created_updates`: every chat
   keeps its non-service updates in order, chats left with none are
   removed, and the counts add up to what went in.
   */
  method FilterForumTopicGroups(g: Groups) returns (filtered: Groups, droppedUpdates: nat, droppedGroups: nat)
    ensures forall k :: k in filtered <==> k in g && Filter(g[k], u => !IsForumTopicCreated(u)) != []
    ensures forall k :: k in filtered ==> filtered[k] == Filter(g[k], u => !IsForumTopicCreated(u))
    ensures forall k, i :: k in filtered && 0 <= i < |filtered[k]| ==> !IsForumTopicCreated(filtered[k][i])
    ensures droppedUpdates + TotalLen(filtered) == TotalLen(g)
    ensures droppedGroups + |filtered.Keys| == |g.Keys|
  {
    filtered, droppedUpdates, droppedGroups := FilterGroups(g, NotForumTopic, NeverPass);
    forall k
      ensures k in filtered <==> k in g && Filter(g[k], u => !IsForumTopicCreated(u)) != []
      ensures k in filtered ==> filtered[k] == Filter(g[k], u => !IsForumTopicCreated(u))
    {
      ForumSelectedAt(g, k);
    }
  }

  /** The generic selection with the forum-topic test, chat by chat. */
  lemma ForumSelectedAt(g: Groups, k: Option<int>)
    ensures k in Selected(g, NotForumTopic, NeverPass) <==> k in g && Filter(g[k], u => !IsForumTopicCreated(u)) != []
    ensures k in Selected(g, NotForumTopic, NeverPass) ==>
      Selected(g, NotForumTopic, NeverPass)[k] == Filter(g[k], u => !IsForumTopicCreated(u))
  {
    if k in g {
      KeptExt(g, k, NotForumTopic, u => !IsForumTopicCreated(u));
    }
  }

  // ---------------------------------------------------------------------
  // The per-chat trigger cursor

  /** Chats the cursor filter leaves alone: the chat-less group and chats without a cursor. */
  predicate NoCursor(cursors: map<int, int>, k: Option<int>)
  {
    k.None? || k.value !in cursors
  }

  /** An update newer than its chat's cursor; an update without an int id never is. */
  predicate NewerThanCursor(cursors: map<int, int>, k: Option<int>, u: Json)
  {
    !NoCursor(cursors, k) && UpdateId(u).Some? && UpdateId(u).value > cursors[k.value]
  }

  /**
   `filter_dispatch_groups_after_last_trigger`: the chat-less group and
   cursor-less chats pass untouched; any other chat keeps only its updates
   with an int id above the cursor and is removed when none is left.
   */
  method FilterAfterCursor(g: Groups, cursors: map<int, int>)
    returns (filtered: Groups, droppedUpdates: nat, droppedGroups: nat)
    ensures forall k :: k in g && NoCursor(cursors, k) ==> k in filtered && filtered[k] == g[k]
    ensures forall k :: k in g && !NoCursor(cursors, k) ==>
      var kept := Filter(g[k], u => UpdateId(u).Some? && UpdateId(u).value > cursors[k.value]);
      (k in filtered <==> kept != []) && (k in filtered ==> filtered[k] == kept)
    ensures filtered.Keys <= g.Keys
    ensures forall k, u :: k in filtered && u in filtered[k] ==> u in g[k]
    ensures droppedUpdates + TotalLen(filtered) == TotalLen(g)
    ensures droppedGroups + |filtered.Keys| == |g.Keys|
  {
    filtered, droppedUpdates, droppedGroups := FilterGroups(g, CursorTest(cursors), CursorPass(cursors));
    forall k
      ensures k in g && NoCursor(cursors, k) ==> k in filtered && filtered[k] == g[k]
      ensures k in g && !NoCursor(cursors, k) ==>
        var kept := Filter(g[k], u => UpdateId(u).Some? && UpdateId(u).value > cursors[k.value]);
        (k in filtered <==> kept != []) && (k in filtered ==> filtered[k] == kept)
      ensures k in filtered ==> forall u :: u in filtered[k] ==> u in g[k]
    {
      CursorSelectedAt(g, cursors, k);
    }
  }

  /** The per-update test of the cursor filter. */
  function CursorTest(cursors: map<int, int>): (Option<int>, Json) -> bool
  {
    (k, u) => NewerThanCursor(cursors, k, u)
  }

  /** The chats the cursor filter passes through. */
  function CursorPass(cursors: map<int, int>): Option<int> -> bool
  {
    k => NoCursor(cursors, k)
  }

  /** The generic selection with the cursor test, chat by chat. */
  lemma CursorSelectedAt(g: Groups, cursors: map<int, int>, k: Option<int>)
    ensures k in g && NoCursor(cursors, k) ==>
      k in Selected(g, CursorTest(cursors), CursorPass(cursors)) && Selected(g, CursorTest(cursors), CursorPass(cursors))[k] == g[k]
    ensures k in g && !NoCursor(cursors, k) ==>
      var kept := Filter(g[k], u => UpdateId(u).Some? && UpdateId(u).value > cursors[k.value]);
      (k in Selected(g, CursorTest(cursors), CursorPass(cursors)) <==> kept != [])
      && (k in Selected(g, CursorTest(cursors), CursorPass(cursors)) ==> Selected(g, CursorTest(cursors), CursorPass(cursors))[k] == kept)
    ensures k in Selected(g, CursorTest(cursors), CursorPass(cursors)) ==>
      forall u :: u in Selected(g, CursorTest(cursors), CursorPass(cursors))[k] ==> u in g[k]
  {
    if k in g && !NoCursor(cursors, k) {
      KeptExt(g, k, CursorTest(cursors), u => UpdateId(u).Some? && UpdateId(u).value > cursors[k.value]);
      FilterMembersAll(g[k], u => UpdateId(u).Some? && UpdateId(u).value > cursors[k.value]);
    }
  }

  // ---------------------------------------------------------------------
  // Advancing the cursors

  /** The largest int update id of a group, None when it has none. */
  function MaxId(us: seq<Json>): Option<int>
  {
    TgLegacy.Latest(None, us)
  }

  /** Chat `c` was dispatched with at least one int update id. */
  predicate HasMaxId(g: Groups, c: int)
  {
    Some(c) in g && MaxId(g[Some(c)]).Some?
  }

  /** The cursor of `c` after the advance: raised to the group's maximum when that is higher. */
  function AdvancedCursor(state: map<int, int>, g: Groups, c: int): int
    requires c in state || HasMaxId(g, c)
  {
    if !HasMaxId(g, c) then state[c]
    else if c in state && state[c] >= MaxId(g[Some(c)]).value then state[c]
    else MaxId(g[Some(c)]).value
  }

  /** The chat ids with a group. */
  function Chats(g: Groups): set<int>
  {
    set k | k in g && k.Some? :: k.value
  }

  /** The chats whose cursor the advance creates or raises. */
  function Moved(state: map<int, int>, g: Groups): set<int>
  {
    set c | c in Chats(g) && HasMaxId(g, c) && (c !in state || MaxId(g[Some(c)]).value > state[c])
  }

  /** The chats moved among those visited, i.e. not in `todo`. */
  function MovedVisited(state: map<int, int>, g: Groups, todo: set<Option<int>>): set<int>
  {
    set c | c in Moved(state, g) && Some(c) !in todo
  }

  /** Visiting chat `k` adds it to the moved chats exactly when its cursor moves. */
  lemma MovedStep(state: map<int, int>, g: Groups, todo: set<Option<int>>, k: Option<int>)
    requires k in todo
    ensures MovedVisited(state, g, todo - {k}) ==
      if k.Some? && k.value in Moved(state, g) then MovedVisited(state, g, todo) + {k.value} else MovedVisited(state, g, todo)
    ensures k.Some? ==> k.value !in MovedVisited(state, g, todo)
  {
  }

  /** The largest id of a group bounds every int id in it and is one of them. */
  lemma MaxIdMeaning(us: seq<Json>)
    ensures MaxId(us).None? <==> forall j :: 0 <= j < |us| ==> UpdateId(us[j]).None?
    ensures forall j :: 0 <= j < |us| && UpdateId(us[j]).Some? ==> UpdateId(us[j]).value <= MaxId(us).value
    ensures MaxId(us).Some? ==> exists j :: 0 <= j < |us| && UpdateId(us[j]) == MaxId(us)
  {
    TgLegacy.LatestMeaning(None, us);
  }

  /** The largest id of one group, by the source's inner loop. */
  method GroupMaxId(us: seq<Json>) returns (m: Option<int>)
    ensures m == MaxId(us)
  {
    m := None;
    var i := 0;
    while i < |us|
      invariant 0 <= i <= |us|
      invariant m == TgLegacy.Latest(None, us[..i])
    {
      assert us[..i + 1][..i] == us[..i];
      var id := UpdateId(us[i]);
      if id.Some? && (m.None? || id.value > m.value) {
        m := id;
      }
      i := i + 1;
    }
    assert us[..i] == us;
  }

  /**
   `update_last_trigger_update_id_by_chat`: every dispatched chat with an
   int update id gets its cursor raised to the group's largest id when that
   is higher; the chat-less group and all other cursors are left alone, and
   the count is the number of cursors created or raised.
   */
  method AdvanceCursors(state: map<int, int>, g: Groups) returns (state': map<int, int>, updated: nat)
    ensures forall c :: c in state' <==> c in state || HasMaxId(g, c)
    ensures forall c :: c in state' ==> state'[c] == AdvancedCursor(state, g, c)
    ensures updated == |Moved(state, g)|
    ensures state' == Advanced(state, g)
  {
    state' := state;
    updated := 0;
    var todo := g.Keys;
    ghost var moved: set<int> := {};
    while todo != {}
      invariant todo <= g.Keys
      invariant AdvancedSoFar(state, g, todo, state')
      invariant moved == MovedVisited(state, g, todo)
      invariant updated == |moved|
      decreases |todo|
    {
      var k :| k in todo;
      MovedStep(state, g, todo, k);
      var bumped;
      state', bumped := AdvanceOne(state, g, todo, state', k);
      if bumped {
        updated := updated + 1;
        moved := moved + {k.value};
      }
      todo := todo - {k};
    }
    AdvancedAll(state, g, state');
    AdvanceCursorsIsAdvanced(state, g, state');
  }

  /** With every chat visited, the loop's cursors are the advanced ones and all moved chats are counted. */
  lemma AdvancedAll(state: map<int, int>, g: Groups, cur: map<int, int>)
    requires AdvancedSoFar(state, g, {}, cur)
    ensures forall c :: c in cur <==> c in state || HasMaxId(g, c)
    ensures forall c :: c in cur ==> cur[c] == AdvancedCursor(state, g, c)
    ensures MovedVisited(state, g, {}) == Moved(state, g)
  {
  }

  /** The cursors once the chats outside `todo` are visited. */
  ghost predicate AdvancedSoFar(state: map<int, int>, g: Groups, todo: set<Option<int>>, cur: map<int, int>)
  {
    (forall c :: c in cur <==> c in state || (Some(c) !in todo && HasMaxId(g, c)))
    && (forall c :: c in cur ==>
          cur[c] == if Some(c) !in todo && HasMaxId(g, c) then AdvancedCursor(state, g, c) else state[c])
  }

  /** One chat of the advance loop; `bumped` reports whether its cursor moved. */
  method AdvanceOne(state: map<int, int>, g: Groups, todo: set<Option<int>>, cur: map<int, int>, k: Option<int>)
    returns (cur': map<int, int>, bumped: bool)
    requires k in todo && todo <= g.Keys
    requires AdvancedSoFar(state, g, todo, cur)
    ensures AdvancedSoFar(state, g, todo - {k}, cur')
    ensures bumped <==> k.Some? && k.value in Moved(state, g)
  {
    cur' := cur;
    bumped := false;
    if k.Some? {
      var c := k.value;
      var m := GroupMaxId(g[k]);
      assert c in Chats(g);
      if m.Some? && (c !in cur || m.value > cur[c]) {
        cur' := cur[c := m.value];
        bumped := true;
      }
    }
  }


  /** The cursors after the advance, as a map. */
  function Advanced(state: map<int, int>, g: Groups): (r: map<int, int>)
    ensures forall c :: c in r <==> c in state || HasMaxId(g, c)
    ensures forall c :: c in r ==> r[c] == AdvancedCursor(state, g, c)
  {
    map c | c in state.Keys + Chats(g) && (c in state || HasMaxId(g, c)) :: AdvancedCursor(state, g, c)
  }

  /** The loop's cursors are the advanced map. */
  lemma AdvanceCursorsIsAdvanced(state: map<int, int>, g: Groups, cur: map<int, int>)
    requires forall c :: c in cur <==> c in state || HasMaxId(g, c)
    requires forall c :: c in cur ==> cur[c] == AdvancedCursor(state, g, c)
    ensures cur == Advanced(state, g)
  {
    var adv := Advanced(state, g);
    forall c
      ensures c in cur <==> c in adv
    {
    }
    assert cur.Keys == adv.Keys;
  }

  /** The advance only raises cursors, and the new cursor of a dispatched chat bounds all its int ids. */
  lemma AdvancedBounds(state: map<int, int>, g: Groups, c: int)
    ensures c in state ==> Advanced(state, g)[c] >= state[c]
    ensures HasMaxId(g, c) ==> forall j :: 0 <= j < |g[Some(c)]| && UpdateId(g[Some(c)][j]).Some? ==>
      UpdateId(g[Some(c)][j]).value <= Advanced(state, g)[c]
  {
    if HasMaxId(g, c) {
      MaxIdMeaning(g[Some(c)]);
    }
  }

  /**
   Advancing the cursors from the dispatched groups and then filtering those
   same groups leaves nothing of any chat that had an int update id: its
   cursor now exists and no update of the group is above it.
   */
  lemma AdvanceThenFilterDropsChat(state: map<int, int>, g: Groups, c: int)
    requires HasMaxId(g, c)
    ensures !NoCursor(Advanced(state, g), Some(c))
    ensures Filter(g[Some(c)], u => UpdateId(u).Some? && UpdateId(u).value > Advanced(state, g)[c]) == []
  {
    var cursors := Advanced(state, g);
    var us := g[Some(c)];
    var p := u => UpdateId(u).Some? && UpdateId(u).value > cursors[c];
    AdvancedBounds(state, g, c);
    var kept := Filter(us, p);
    if kept != [] {
      FilterMembers(us, p, kept[0]);
      assert false;
    }
  }

  // ---------------------------------------------------------------------
  // Overlay with stored recent history

  /** The store holds a non-empty recent list for chat `k`. */
  predicate Replaces(recent: Groups, k: Option<int>)
  {
    k in recent && recent[k] != []
  }

  /** The dispatch groups with each chat's group swapped for its stored recent list when that is non-empty. */
  function OverlayGroups(dispatch: Groups, recent: Groups): (r: Groups)
    ensures r.Keys == dispatch.Keys
  {
    map k | k in dispatch :: if Replaces(recent, k) then recent[k] else dispatch[k]
  }

  /** The visited chats the store replaces. */
  function ReplacedVisited(dispatch: Groups, recent: Groups, todo: set<Option<int>>): set<Option<int>>
  {
    set k | k in dispatch && k !in todo && Replaces(recent, k)
  }

  /** The overlay restricted to the visited chats. */
  function OverlayVisited(dispatch: Groups, recent: Groups, todo: set<Option<int>>): Groups
  {
    map k | k in dispatch && k !in todo :: if Replaces(recent, k) then recent[k] else dispatch[k]
  }

  /** Visiting chat `k` adds its overlaid group, and counts it when the store replaces it. */
  lemma OverlayStep(dispatch: Groups, recent: Groups, todo: set<Option<int>>, k: Option<int>)
    requires k in todo && todo <= dispatch.Keys
    ensures OverlayVisited(dispatch, recent, todo - {k}) ==
      OverlayVisited(dispatch, recent, todo)[k := if Replaces(recent, k) then recent[k] else dispatch[k]]
    ensures ReplacedVisited(dispatch, recent, todo - {k}) ==
      if Replaces(recent, k) then ReplacedVisited(dispatch, recent, todo) + {k} else ReplacedVisited(dispatch, recent, todo)
    ensures k !in ReplacedVisited(dispatch, recent, todo)
  {
  }

  /**
   `overlay_dispatch_groups_with_recent`: exactly the dispatch chats, each
   with its stored recent updates when the store has a non-empty list for
   it and its pending updates otherwise, and the number of chats replaced.
   */
  method OverlayWithRecent(dispatch: Groups, recent: Groups) returns (selected: Groups, replaced: nat)
    ensures selected.Keys == dispatch.Keys
    ensures forall k :: k in dispatch && Replaces(recent, k) ==> selected[k] == recent[k]
    ensures forall k :: k in dispatch && !Replaces(recent, k) ==> selected[k] == dispatch[k]
    ensures replaced == |set k | k in dispatch && Replaces(recent, k)|
    ensures selected == OverlayGroups(dispatch, recent)
  {
    selected := map[];
    replaced := 0;
    var todo := dispatch.Keys;
    assert OverlayVisited(dispatch, recent, todo) == map[];
    while todo != {}
      invariant todo <= dispatch.Keys
      invariant selected == OverlayVisited(dispatch, recent, todo)
      invariant replaced == |ReplacedVisited(dispatch, recent, todo)|
      decreases |todo|
    {
      var k :| k in todo;
      OverlayStep(dispatch, recent, todo, k);
      var recentUpdates := if k in recent then recent[k] else [];
      if recentUpdates != [] {
        selected := selected[k := recentUpdates];
        replaced := replaced + 1;
      } else {
        selected := selected[k := dispatch[k]];
      }
      todo := todo - {k};
    }
    OverlayDone(dispatch, recent);
  }

  /** With every chat visited, the loop's map is the whole overlay. */
  lemma OverlayDone(dispatch: Groups, recent: Groups)
    ensures OverlayVisited(dispatch, recent, {}) == OverlayGroups(dispatch, recent)
    ensures ReplacedVisited(dispatch, recent, {}) == set k | k in dispatch && Replaces(recent, k)
  {
  }

  /** The overlay never adds a chat, and an empty store leaves the dispatch groups as they were. */
  lemma OverlayKeepsBoundary(dispatch: Groups, recent: Groups)
    ensures OverlayGroups(dispatch, recent).Keys == dispatch.Keys
    ensures (forall k :: k in dispatch ==> !Replaces(recent, k)) ==> OverlayGroups(dispatch, recent) == dispatch
  {
  }

  // ---------------------------------------------------------------------
  // Arguments

  /**
   `_poll_and_run_forever`'s checks before any I/O: a positive timeout, a
   keyword that is not blank, a non-negative recent-history size, and an
   updates store whenever that size is positive. Each failure is a ValueError.
   */
  function ValidateRunArgs(timeout: int, keyword: string, recentPerChat: int, hasStore: bool): (r: Outcome<()>)
    ensures r.Ok? <==> timeout > 0 && !AllSpace(keyword) && recentPerChat >= 0 && (recentPerChat > 0 ==> hasStore)
    ensures r.Fail? ==> r.exc == ValueError
  {
    StripEmptyIffAllSpace(keyword);
    if timeout <= 0 then Fail(ValueError)
    else if Strip(keyword) == [] then Fail(ValueError)
    else if recentPerChat < 0 then Fail(ValueError)
    else if recentPerChat > 0 && !hasStore then Fail(ValueError)
    else Ok(())
  }

  // ---------------------------------------------------------------------
  // Selecting the groups to dispatch

  /** With a watchlist, only the listed chats are dispatched; the chat-less group never is. */
  function Watchlisted(grouped: Groups, chatIds: Option<set<int>>): (r: Groups)
    ensures r.Keys <= grouped.Keys
    ensures forall k :: k in r ==> r[k] == grouped[k]
    ensures chatIds.None? ==> r == grouped
    ensures chatIds.Some? ==> forall k :: k in grouped ==> (k in r <==> k.Some? && k.value in chatIds.value)
  {
    if chatIds.None? then grouped
    else map k | k in grouped && k.Some? && k.value in chatIds.value :: grouped[k]
  }

  /**
   The dispatch selection as the source writes it: when stored recent
   history was loaded, the overlay is applied to all triggered groups
   rather than to the watchlisted ones. None means the pending updates are
   cleared without a dispatch.
   */
  function SelectDispatchAsWritten(grouped: Groups, chatIds: Option<set<int>>, recent: Option<Groups>): (r: Option<Groups>)
    ensures r.None? <==> Watchlisted(grouped, chatIds) == map[]
    ensures r.Some? && recent.Some? ==> r.value.Keys == grouped.Keys
  {
    var watched := Watchlisted(grouped, chatIds);
    if watched == map[] then None
    else if recent.Some? then Some(OverlayGroups(grouped, recent.value))
    else Some(watched)
  }

  /**
   With the watchlist {1}, a trigger in chat 1 and a pending update in
   chat 2, and recent history loaded (even with nothing stored), the
   as-written selection dispatches chat 2, which the watchlist excludes.
   */
  lemma AsWrittenDispatchesUnwatchedChat(a: Json, b: Json)
    ensures SelectDispatchAsWritten(map[Some(1) := [a], Some(2) := [b]], Some({1}), Some(map[])).Some?
    ensures Some(2) in SelectDispatchAsWritten(map[Some(1) := [a], Some(2) := [b]], Some({1}), Some(map[])).value
  {
    var grouped := map[Some(1) := [a], Some(2) := [b]];
    assert Some(1) in Watchlisted(grouped, Some({1}));
  }

  /**
   The dispatch selection with the overlay applied to the watchlisted
   groups, as the overlay's own documentation intends: the dispatched
   chats are exactly the watchlisted ones, whether or not recent history
   was loaded.
   */
  function SelectDispatch(grouped: Groups, chatIds: Option<set<int>>, recent: Option<Groups>): (r: Option<Groups>)
    ensures r.None? <==> Watchlisted(grouped, chatIds) == map[]
    ensures r.Some? ==> r.value.Keys == Watchlisted(grouped, chatIds).Keys
    ensures r.Some? && chatIds.Some? ==> forall k :: k in r.value ==> k.Some? && k.value in chatIds.value
    ensures r.Some? && recent.None? ==> r.value == Watchlisted(grouped, chatIds)
  {
    var watched := Watchlisted(grouped, chatIds);
    if watched == map[] then None
    else if recent.Some? then Some(OverlayGroups(watched, recent.value))
    else Some(watched)
  }

  // ---------------------------------------------------------------------
  // One round

  /** What one round does with the pending updates. */
  datatype Round =
    | Waiting     // no watched update triggers: the pending updates stay
    | Cleared     // triggered, but nothing is left to dispatch: the pending updates are dropped
    | Dispatched(groups: Groups, cursors: map<int, int>)

  /** The chats of the pending updates. */
  function PendingChats(ordered: seq<Json>): set<Option<int>>
  {
    set u | u in ordered :: ChatId(u)
  }

  /** An update of chat `k` that the forum-topic and cursor filters let through. */
  predicate Survives(cursors: map<int, int>, k: Option<int>, u: Json)
  {
    !IsForumTopicCreated(u) && (NoCursor(cursors, k) || NewerThanCursor(cursors, k, u))
  }

  /**
   The end of a triggered round: the forum-topic filter, the cursor filter
   and, when anything is left, the cursor advance. Every update the two
   filters let through is dispatched.
   */
  method FilterAndAdvance(selection: Groups, cursors: map<int, int>) returns (r: Round)
    ensures !r.Waiting?
    ensures r.Dispatched? ==> r.groups != map[] && r.groups.Keys <= selection.Keys
    ensures r.Dispatched? ==> forall k, u :: k in r.groups && u in r.groups[k] ==> u in selection[k] && Survives(cursors, k, u)
    ensures forall k, u :: k in selection && u in selection[k] && Survives(cursors, k, u) ==>
      r.Dispatched? && k in r.groups && u in r.groups[k]
    ensures r.Dispatched? ==> r.cursors == Advanced(cursors, r.groups)
    ensures r.Dispatched? ==> forall c :: HasMaxId(r.groups, c) ==>
      (c in r.cursors && Filter(r.groups[Some(c)], u => UpdateId(u).Some? && UpdateId(u).value > r.cursors[c]) == [])
  {
    var noForum, _, _ := FilterForumTopicGroups(selection);
    var newer, _, _ := FilterAfterCursor(noForum, cursors);
    SurvivorsKept(selection, cursors, noForum, newer);
    if newer == map[] {
      return Cleared;
    }
    RoundGroupsClean(noForum, cursors, newer);
    var advanced, _ := AdvanceCursors(cursors, newer);
    forall c | HasMaxId(newer, c)
      ensures c in advanced && Filter(newer[Some(c)], u => UpdateId(u).Some? && UpdateId(u).value > advanced[c]) == []
    {
      AdvanceThenFilterDropsChat(cursors, newer, c);
    }
    return Dispatched(newer, advanced);
  }

  /** The two filters keep exactly the surviving updates of each chat. */
  lemma SurvivorsKept(selection: Groups, cursors: map<int, int>, noForum: Groups, newer: Groups)
    requires forall k :: k in noForum <==> k in selection && Filter(selection[k], u => !IsForumTopicCreated(u)) != []
    requires forall k :: k in noForum ==> noForum[k] == Filter(selection[k], u => !IsForumTopicCreated(u))
    requires forall k :: k in noForum && NoCursor(cursors, k) ==> k in newer && newer[k] == noForum[k]
    requires forall k :: k in noForum && !NoCursor(cursors, k) ==>
      var kept := Filter(noForum[k], u => UpdateId(u).Some? && UpdateId(u).value > cursors[k.value]);
      (k in newer <==> kept != []) && (k in newer ==> newer[k] == kept)
    requires newer.Keys <= noForum.Keys
    ensures forall k, u :: k in newer && u in newer[k] ==> u in selection[k] && Survives(cursors, k, u)
    ensures forall k, u :: k in selection && u in selection[k] && Survives(cursors, k, u) ==> k in newer && u in newer[k]
  {
    forall k, u | k in newer && u in newer[k]
      ensures u in selection[k] && Survives(cursors, k, u)
    {
      FilterMembers(selection[k], u => !IsForumTopicCreated(u), u);
      if !NoCursor(cursors, k) {
        FilterMembers(noForum[k], u => UpdateId(u).Some? && UpdateId(u).value > cursors[k.value], u);
      }
    }
    forall k, u | k in selection && u in selection[k] && Survives(cursors, k, u)
      ensures k in newer && u in newer[k]
    {
      FilterMembers(selection[k], u => !IsForumTopicCreated(u), u);
      if !NoCursor(cursors, k) {
        FilterMembers(noForum[k], u => UpdateId(u).Some? && UpdateId(u).value > cursors[k.value], u);
      }
    }
  }

  /**
   One round of the main loop on the pending updates in id order, as the
   source writes it: the trigger test, the watchlist, the overlay with
   recent history when it was loaded (applied to all triggered groups), the
   forum-topic and cursor filters, and the cursor advance. The recent
   history is a parameter: None when the overlay is off or loading it
   failed. Only without loaded history does the watchlist bound the
   dispatched chats; with it, every pending update the filters let through
   and the store does not replace is dispatched, watched or not.
   */
  method TriggerRound(ordered: seq<Json>, cfg: TriggerConfig, chatIds: Option<set<int>>, ops: TextOps,
                      recent: Option<Groups>, cursors: map<int, int>) returns (r: Round)
    ensures r.Waiting? <==> !WatchedTrigger(ordered, cfg, chatIds, ops)
    ensures r.Dispatched? ==> r.groups != map[] && r.groups.Keys <= PendingChats(ordered)
    ensures r.Dispatched? && chatIds.Some? && recent.None? ==> forall k :: k in r.groups ==> k.Some? && k.value in chatIds.value
    ensures WatchedTrigger(ordered, cfg, chatIds, ops) ==> forall i ::
      (0 <= i < |ordered| && Survives(cursors, ChatId(ordered[i]), ordered[i]) &&
       (if recent.Some? then !Replaces(recent.value, ChatId(ordered[i])) else Watched(ordered[i], chatIds))) ==>
      r.Dispatched? && ChatId(ordered[i]) in r.groups && ordered[i] in r.groups[ChatId(ordered[i])]
    ensures r.Dispatched? ==> forall k, u :: k in r.groups && u in r.groups[k] ==> Survives(cursors, k, u)
    ensures r.Dispatched? ==> r.cursors == Advanced(cursors, r.groups)
    ensures r.Dispatched? ==> forall c :: HasMaxId(r.groups, c) ==>
      (c in r.cursors && Filter(r.groups[Some(c)], u => UpdateId(u).Some? && UpdateId(u).value > r.cursors[c]) == [])
  {
    var grouped := DispatchGroups(ordered, cfg, chatIds, ops);
    if grouped.None? {
      return Waiting;
    }
    // The triggering update is itself watched, so the watchlist never
    // empties a triggered batch and the source's "nothing to dispatch"
    // branch after it cannot be taken.
    WatchedTriggerHasWatchedChat(ordered, cfg, chatIds, ops, grouped.value);
    var selection := SelectDispatchAsWritten(grouped.value, chatIds, recent);
    assert selection.value.Keys <= grouped.value.Keys;
    PendingChatsCover(ordered, grouped.value);
    SelectionKeepsPending(ordered, grouped.value, chatIds, recent, selection.value, false);
    r := FilterAndAdvance(selection.value, cursors);
  }

  /**
   The round with the overlay applied to the watchlisted groups only, as
   the watchlist is meant to act: the dispatched chats are always watched
   ones, and every watched pending update the filters let through and the
   store does not replace is dispatched.
   */
  method TriggerRoundIntended(ordered: seq<Json>, cfg: TriggerConfig, chatIds: Option<set<int>>, ops: TextOps,
                              recent: Option<Groups>, cursors: map<int, int>) returns (r: Round)
    ensures r.Waiting? <==> !WatchedTrigger(ordered, cfg, chatIds, ops)
    ensures r.Dispatched? ==> r.groups != map[] && r.groups.Keys <= PendingChats(ordered)
    ensures r.Dispatched? && chatIds.Some? ==> forall k :: k in r.groups ==> k.Some? && k.value in chatIds.value
    ensures WatchedTrigger(ordered, cfg, chatIds, ops) ==> forall i ::
      (0 <= i < |ordered| && Survives(cursors, ChatId(ordered[i]), ordered[i]) &&
       Watched(ordered[i], chatIds) && (recent.Some? ==> !Replaces(recent.value, ChatId(ordered[i])))) ==>
      r.Dispatched? && ChatId(ordered[i]) in r.groups && ordered[i] in r.groups[ChatId(ordered[i])]
    ensures r.Dispatched? ==> forall k, u :: k in r.groups && u in r.groups[k] ==> Survives(cursors, k, u)
    ensures r.Dispatched? ==> r.cursors == Advanced(cursors, r.groups)
  {
    var grouped := DispatchGroups(ordered, cfg, chatIds, ops);
    if grouped.None? {
      return Waiting;
    }
    // The triggering update is itself watched, so the watchlist never
    // empties a triggered batch and the source's "nothing to dispatch"
    // branch after it cannot be taken.
    WatchedTriggerHasWatchedChat(ordered, cfg, chatIds, ops, grouped.value);
    var selection := SelectDispatch(grouped.value, chatIds, recent);
    PendingChatsCover(ordered, grouped.value);
    SelectionKeepsPending(ordered, grouped.value, chatIds, recent, selection.value, true);
    r := FilterAndAdvance(selection.value, cursors);
  }

  /** The chat of a watched triggering update survives the watchlist. */
  lemma WatchedTriggerHasWatchedChat(ordered: seq<Json>, cfg: TriggerConfig, chatIds: Option<set<int>>, ops: TextOps, grouped: Groups)
    requires WatchedTrigger(ordered, cfg, chatIds, ops)
    requires forall i :: 0 <= i < |ordered| ==> ChatId(ordered[i]) in grouped
    ensures Watchlisted(grouped, chatIds) != map[]
  {
    var i :| 0 <= i < |ordered| && Watched(ordered[i], chatIds) && Triggers(ordered[i], cfg, ops);
    assert ChatId(ordered[i]) in Watchlisted(grouped, chatIds);
  }

  /** The triggered groups are keyed by chats of pending updates. */
  lemma PendingChatsCover(ordered: seq<Json>, grouped: Groups)
    requires forall k, u :: k in grouped && u in grouped[k] ==> u in ordered && ChatId(u) == k
    requires forall k :: k in grouped ==> grouped[k] != []
    ensures grouped.Keys <= PendingChats(ordered)
  {
    forall k | k in grouped
      ensures k in PendingChats(ordered)
    {
      var u := grouped[k][0];
      assert u in grouped[k];
      assert u in ordered && ChatId(u) == k;
    }
  }

  /**
   Where a pending update sits in the selection: the as-written one keeps
   every chat when history was loaded, the intended one only watched chats;
   either way a chat the store does not replace keeps its pending group.
   */
  lemma SelectionKeepsPending(ordered: seq<Json>, grouped: Groups, chatIds: Option<set<int>>, recent: Option<Groups>,
                              selection: Groups, intended: bool)
    requires forall i :: 0 <= i < |ordered| ==> ChatId(ordered[i]) in grouped && ordered[i] in grouped[ChatId(ordered[i])]
    requires Watchlisted(grouped, chatIds) != map[]
    requires intended ==> Some(selection) == SelectDispatch(grouped, chatIds, recent)
    requires !intended ==> Some(selection) == SelectDispatchAsWritten(grouped, chatIds, recent)
    ensures selection.Keys <= grouped.Keys
    ensures forall i ::
      (0 <= i < |ordered| && (if recent.Some? && !intended then true else Watched(ordered[i], chatIds)) &&
       (recent.Some? ==> !Replaces(recent.value, ChatId(ordered[i])))) ==>
      ChatId(ordered[i]) in selection && ordered[i] in selection[ChatId(ordered[i])]
  {
    var watched := Watchlisted(grouped, chatIds);
    forall i | 0 <= i < |ordered| && (if recent.Some? && !intended then true else Watched(ordered[i], chatIds)) &&
      (recent.Some? ==> !Replaces(recent.value, ChatId(ordered[i])))
      ensures ChatId(ordered[i]) in selection && ordered[i] in selection[ChatId(ordered[i])]
    {
      var k := ChatId(ordered[i]);
      if recent.Some? && !intended {
        assert selection == OverlayGroups(grouped, recent.value);
      } else {
        assert k in watched;
        if recent.Some? {
          assert selection == OverlayGroups(watched, recent.value);
        }
      }
    }
  }

  /**
   The round as written, on the watchlist {1}, a pending update `a` of
   chat 1 that triggers and a pending update `b` of chat 2, with recent
   history loaded but empty and no cursors: chat 2 is dispatched although
   the watchlist excludes it.
   */
  method AsWrittenRoundDispatchesUnwatchedChat(a: Json, b: Json, cfg: TriggerConfig, ops: TextOps) returns (r: Round)
    requires ChatId(a) == Some(1) && Triggers(a, cfg, ops)
    requires ChatId(b) == Some(2) && !IsForumTopicCreated(b)
    ensures r.Dispatched? && Some(2) in r.groups && b in r.groups[Some(2)]
  {
    var ordered := [a, b];
    assert ordered[0] == a && ordered[1] == b;
    assert Watched(ordered[0], Some({1}));
    assert WatchedTrigger(ordered, cfg, Some({1}), ops);
    assert Survives(map[], ChatId(ordered[1]), ordered[1]);
    r := TriggerRound(ordered, cfg, Some({1}), ops, Some(map[]), map[]);
  }

  /** What the two filters leave holds no service update, and only updates above their chat's cursor. */
  lemma RoundGroupsClean(noForum: Groups, cursors: map<int, int>, newer: Groups)
    requires forall k, i :: k in noForum && 0 <= i < |noForum[k]| ==> !IsForumTopicCreated(noForum[k][i])
    requires newer.Keys <= noForum.Keys
    requires forall k, u :: k in newer && u in newer[k] ==> u in noForum[k]
    requires forall k :: k in noForum && !NoCursor(cursors, k) ==>
      var kept := Filter(noForum[k], u => UpdateId(u).Some? && UpdateId(u).value > cursors[k.value]);
      k in newer ==> newer[k] == kept
    ensures forall k, u :: k in newer && u in newer[k] ==> !IsForumTopicCreated(u)
    ensures forall k, u :: k in newer && !NoCursor(cursors, k) && u in newer[k] ==>
      UpdateId(u).Some? && UpdateId(u).value > cursors[k.value]
  {
    forall k, u | k in newer && !NoCursor(cursors, k) && u in newer[k]
      ensures UpdateId(u).Some? && UpdateId(u).value > cursors[k.value]
    {
      FilterMembers(noForum[k], u => UpdateId(u).Some? && UpdateId(u).value > cursors[k.value], u);
    }
  }
}
