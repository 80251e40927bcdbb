/**
 The polling loop's pure state updates in the legacy Telegram starter
 (core/src/k/starters/telegram.py): pruning the pending updates by the time
 window, the argument checks made before any I/O, and consuming a batch of
 unseen updates into the pending map and the update cursor.
 */
module TgLegacy {
  import opened Wrappers
  import opened PyStr
  import opened Json
  import opened TgUpdates

  // ---------------------------------------------------------------------
  // Pruning the pending map

  /** The entries of `m` whose value satisfies `keep`, with their values. */
  function Retained<V>(m: map<int, V>, keep: V -> bool): (r: map<int, V>)
    ensures r.Keys <= m.Keys
  {
    map k | k in m && keep(m[k]) :: m[k]
  }

  /** Collect the keys to drop, then delete them: the source's two-pass shape. */
  method DropWhere<V>(m: map<int, V>, keep: V -> bool) returns (r: map<int, V>)
    ensures r == Retained(m, keep)
  {
    var toDrop: set<int> := {};
    var todo := m.Keys;
    while |todo| > 0
      invariant todo <= m.Keys
      invariant forall k :: k in toDrop <==> k in m && k !in todo && !keep(m[k])
      decreases |todo|
    {
      NonEmptyHasElement(todo);
      var k :| k in todo;
      if !keep(m[k]) {
        toDrop := toDrop + {k};
      }
      todo := todo - {k};
    }
    assert todo == {};
    r := m - toDrop;
    forall k
      ensures k in r <==> k in Retained(m, keep)
    {
      if k in m && keep(m[k]) {
        assert k !in toDrop;
      }
    }
  }

  /**
   `_prune_pending_updates_by_time_window`: a negative window is a
   ValueError; otherwise the entries dated more than `window` seconds
   before `now` are deleted and every other entry is kept as it was.
   */
  method PrunePending(pending: map<int, Json>, now: int, window: int) returns (r: Outcome<map<int, Json>>)
    ensures r.Fail? <==> window < 0
    ensures r.Fail? ==> r.exc == ValueError
    ensures r.Ok? ==> forall id :: id in r.value <==>
      id in pending && (DateOf(pending[id]).None? || now - DateOf(pending[id]).value <= window)
    ensures r.Ok? ==> forall id :: id in r.value ==> r.value[id] == pending[id]
  {
    if window < 0 {
      return Fail(ValueError);
    }
    var kept := DropWhere(pending, u => InWindow(u, now, window));
    return Ok(kept);
  }

  /** Pruning again with the same clock and window removes nothing more. */
  lemma RetainedIdempotent<V>(m: map<int, V>, keep: V -> bool)
    ensures Retained(Retained(m, keep), keep) == Retained(m, keep)
  {
    var once := Retained(m, keep);
    assert Retained(once, keep).Keys == once.Keys;
  }

  /** Retaining by a weaker test keeps at least as many entries. */
  lemma RetainedMonotone<V>(m: map<int, V>, strong: V -> bool, weak: V -> bool)
    requires forall k :: k in m && strong(m[k]) ==> weak(m[k])
    ensures Retained(m, strong).Keys <= Retained(m, weak).Keys
  {
    forall k | k in Retained(m, strong)
      ensures k in Retained(m, weak)
    {
      assert strong(m[k]);
    }
  }

  /** A later clock prunes at least as much: what survives at `later` survived at `now`. */
  lemma LaterClockPrunesMore(pending: map<int, Json>, now: int, later: int, window: int)
    requires now <= later
    ensures Retained(pending, u => InWindow(u, later, window)).Keys
      <= Retained(pending, u => InWindow(u, now, window)).Keys
  {
    var atLater := u => InWindow(u, later, window);
    var atNow := u => InWindow(u, now, window);
    forall k | k in pending && atLater(pending[k])
      ensures atNow(pending[k])
    {
      assert InWindow(pending[k], later, window);
    }
    RetainedMonotone(pending, atLater, atNow);
  }

  // ---------------------------------------------------------------------
  // Argument checks

  /**
   `_poll_and_run_forever`'s checks before any I/O: a positive poll
   timeout, a keyword that is not blank, and a non-negative window. Each
   failure is a ValueError.
   */
  function ValidatePollArgs(timeout: int, keyword: string, window: int): (r: Outcome<()>)
    ensures r.Ok? <==> timeout > 0 && !AllSpace(keyword) && window >= 0
    ensures r.Fail? ==> r.exc == ValueError
  {
    StripEmptyIffAllSpace(keyword);
    if timeout <= 0 then Fail(ValueError)
    else if Strip(keyword) == [] then Fail(ValueError)
    else if window < 0 then Fail(ValueError)
    else Ok(())
  }

  // ---------------------------------------------------------------------
  // Consuming a batch

  /** The pending map after `pending.setdefault(update_id, update)` for every update with an int id. */
  function Absorb(pending: map<int, Json>, us: seq<Json>): (r: map<int, Json>)
    decreases |us|
  {
    if us == [] then pending
    else
      var p := Absorb(pending, us[..|us| - 1]);
      var u := us[|us| - 1];
      match UpdateId(u)
      case None => p
      case Some(id) => if id in p then p else p[id := u]
  }

  /** The largest of the cursor and the int ids in `us`. */
  function Latest(cursor: Option<int>, us: seq<Json>): Option<int>
    decreases |us|
  {
    if us == [] then cursor
    else
      var c := Latest(cursor, us[..|us| - 1]);
      match UpdateId(us[|us| - 1])
      case None => c
      case Some(id) => if c.None? || id > c.value then Some(id) else c
  }

  /** An update id occurs in `us`. */
  predicate HasId(us: seq<Json>, id: int)
  {
    exists j :: 0 <= j < |us| && UpdateId(us[j]) == Some(id)
  }

  /** `us[j]` is the first update in `us` with the id `id`. */
  predicate FirstWithId(us: seq<Json>, j: int, id: int)
  {
    0 <= j < |us| && UpdateId(us[j]) == Some(id)
    && forall i :: 0 <= i < j ==> UpdateId(us[i]) != Some(id)
  }

  /**
   `setdefault` keeps every old entry, adds exactly the new ids, and maps a
   new id to the first update that carried it.
   */
  lemma {:induction false} AbsorbMeaning(pending: map<int, Json>, us: seq<Json>, id: int)
    ensures id in Absorb(pending, us) <==> id in pending || HasId(us, id)
    ensures id in pending ==> Absorb(pending, us)[id] == pending[id]
    ensures id !in pending && HasId(us, id) ==>
      exists j :: FirstWithId(us, j, id) && Absorb(pending, us)[id] == us[j]
    decreases |us|
  {
    if us != [] {
      var front := us[..|us| - 1];
      AbsorbMeaning(pending, front, id);
      assert forall j :: 0 <= j < |front| ==> front[j] == us[j];
      if HasId(us, id) && !HasId(front, id) {
        var j :| 0 <= j < |us| && UpdateId(us[j]) == Some(id);
        assert j == |us| - 1;
      }
      if id !in pending && HasId(front, id) {
        var j :| FirstWithId(front, j, id) && Absorb(pending, front)[id] == front[j];
        assert FirstWithId(us, j, id);
      }
      if id !in pending && HasId(us, id) && !HasId(front, id) {
        assert FirstWithId(us, |us| - 1, id);
      }
    }
  }

  /**
   The cursor only moves up: it is None only when it was None and no update
   had an int id; otherwise it bounds the old cursor and every id, and it is
   the old cursor or one of the ids.
   */
  lemma {:induction false} LatestMeaning(cursor: Option<int>, us: seq<Json>)
    ensures Latest(cursor, us).None? <==> cursor.None? && forall j :: 0 <= j < |us| ==> UpdateId(us[j]).None?
    ensures cursor.Some? ==> Latest(cursor, us).Some? && Latest(cursor, us).value >= cursor.value
    ensures forall j :: 0 <= j < |us| && UpdateId(us[j]).Some? ==>
      Latest(cursor, us).Some? && UpdateId(us[j]).value <= Latest(cursor, us).value
    ensures Latest(cursor, us) == cursor || HasId(us, Latest(cursor, us).value)
    decreases |us|
  {
    if us != [] {
      var front := us[..|us| - 1];
      LatestMeaning(cursor, front);
      assert forall j :: 0 <= j < |front| ==> front[j] == us[j];
      if Latest(cursor, front) != cursor {
        var v := Latest(cursor, front).value;
        var j :| 0 <= j < |front| && UpdateId(front[j]) == Some(v);
        assert UpdateId(us[j]) == Some(v);
      }
    }
  }

  /**
   One polling round's bookkeeping for the unseen updates: every update with
   an int id is `setdefault` into the pending map, the consumed cursor
   becomes the largest id seen, and whenever there is a cursor the next
   offset is one past it (both stay as they were when there is neither a
   cursor nor an update with an int id).
   */
  method ConsumeBatch(unseen: seq<Json>, cursor: Option<int>, offset: Option<int>, pending: map<int, Json>)
    returns (cursor': Option<int>, offset': Option<int>, pending': map<int, Json>)
    ensures pending' == Absorb(pending, unseen)
    ensures cursor' == Latest(cursor, unseen)
    ensures cursor'.Some? ==> offset' == Some(cursor'.value + 1)
    ensures cursor'.None? ==> cursor.None? && offset' == offset
    ensures cursor.Some? ==> cursor'.Some? && cursor'.value >= cursor.value
  {
    pending' := pending;
    var latest := cursor;
    var i := 0;
    while i < |unseen|
      invariant 0 <= i <= |unseen|
      invariant pending' == Absorb(pending, unseen[..i])
      invariant latest == Latest(cursor, unseen[..i])
    {
      var next := unseen[..i + 1];
      assert next[..|next| - 1] == unseen[..i] && next[|next| - 1] == unseen[i];
      var id := UpdateId(unseen[i]);
      if id.Some? {
        if id.value !in pending' {
          pending' := pending'[id.value := unseen[i]];
        }
        if latest.None? || id.value > latest.value {
          latest := Some(id.value);
        }
      }
      i := i + 1;
    }
    assert unseen[..i] == unseen;
    LatestMeaning(cursor, unseen);
    if latest.Some? {
      cursor' := latest;
      offset' := Some(latest.value + 1);
    } else {
      cursor' := cursor;
      offset' := offset;
    }
  }

  // ---------------------------------------------------------------------
  // Message compaction

  /** `isinstance(x, int)`: an int, or a boolean, since Python's bool is an int. */
  predicate IsPyInt(v: Json)
  {
    v.JInt? || v.JBool?
  }

  /** A field that is emitted only when there is a value for it. */
  function Opt(key: string, v: Option<Json>): (r: seq<(string, Json)>)
    ensures v.Some? ==> r == [(key, v.value)]
    ensures v.None? ==> r == []
  {
    if v.Some? then [(key, v.value)] else []
  }

  /** The value under `key` when it is an int, kept exactly as it came. */
  function RawInt(v: Json, key: string): (r: Option<Json>)
    ensures r.Some? <==> Get(v, key).Some? && IsPyInt(Get(v, key).value)
    ensures r.Some? ==> r == Get(v, key)
  {
    match Get(v, key)
    case Some(x) => if IsPyInt(x) then Some(x) else None
    case None => None
  }

  /** The value under `key` when it is a non-empty string. */
  function NonEmptyStr(v: Json, key: string): Option<Json>
  {
    match GetStr(v, key)
    case Some(s) => if s != [] then Some(JStr(s)) else None
    case None => None
  }

  /**
   `_compact_chat`: None without an int id; otherwise `id` first, then a
   non-empty type, title and username, and the joined first and last name
   only when the chat has neither a truthy title nor a truthy username.
   */
  function CompactChat(chat: Json): (r: Option<Json>)
    ensures r.Some? <==> RawInt(chat, "id").Some?
    ensures r.Some? ==> r.value.JObj? && r.value.fields != [] && r.value.fields[0] == ("id", RawInt(chat, "id").value)
  {
    match RawInt(chat, "id")
    case None => None
    case Some(id) =>
      var named := !Truthy(GetOrNull(chat, "title")) && !Truthy(GetOrNull(chat, "username"));
      Some(JObj([("id", id)] + Opt("type", NonEmptyStr(chat, "type")) + Opt("title", NonEmptyStr(chat, "title"))
                + Opt("username", NonEmptyStr(chat, "username")) + Opt("name", if named then NameOf(chat) else None)))
  }

  /** The keys emitted after the reply, in order: the photo, the document-like media, the location. */
  const MediaKeys: seq<string> := ["photo", "document", "video", "audio", "voice", "animation", "sticker", "video_note", "location"]

  /** The media fields, each compacted by `media` (largest photo size, file ids, coordinates). */
  function MediaFields(msg: Json, media: (string, Json) -> Option<Json>, keys: seq<string>): (r: seq<(string, Json)>)
    ensures forall i :: 0 <= i < |r| ==> r[i].0 in keys
  {
    if keys == [] then []
    else
      var rest := MediaFields(msg, media, keys[1..]);
      Opt(keys[0], media(keys[0], GetOrNull(msg, keys[0]))) + rest
  }

  /** A value read from an object is smaller than the object. */
  lemma GetIsSmaller(v: Json, key: string)
    requires Get(v, key).Some?
    ensures Get(v, key).value < v
  {
    var k :| 0 <= k < |v.fields| && v.fields[k] == (key, Get(v, key).value);
    assert v.fields[k] in v.fields;
  }

  /** The compacted reply: only an object reply, and only when its compaction is not None. */
  function CompactReply(msg: Json, media: (string, Json) -> Option<Json>): Option<Json>
    decreases msg, 0
  {
    match Get(msg, "reply_to_message")
    case Some(reply) =>
      if reply.JObj? then
        GetIsSmaller(msg, "reply_to_message");
        CompactMessage(reply, media)
      else None
    case None => None
  }

  /** The fields `_compact_message` emits that come before the reply, in order. */
  function HeadFields(msg: Json): seq<(string, Json)>
  {
    Opt("message_id", RawInt(msg, "message_id")) + Opt("date", RawInt(msg, "date")) + SenderFields(msg)
  }

  /** The chat, the sender, the text and the caption. */
  function SenderFields(msg: Json): seq<(string, Json)>
  {
    Opt("chat", CompactChat(GetOrNull(msg, "chat"))) + Opt("from", CompactUser(GetOrNull(msg, "from")))
    + Opt("text", NonEmptyStr(msg, "text")) + Opt("caption", NonEmptyStr(msg, "caption"))
  }

  /**
   The legacy starter's `_compact_message`: for an object, the int
   `message_id` and `date` exactly as they came, the compacted chat and
   sender, non-empty text and caption, the compacted reply, then the media
   fields; None when nothing is left or the value is not an object. Unlike
   the collections module's compaction, the date is not rendered as text.
   */
  function CompactMessage(msg: Json, media: (string, Json) -> Option<Json>): (r: Option<Json>)
    ensures r.Some? ==> msg.JObj? && r.value.JObj? && r.value.fields != []
    decreases msg, 2
  {
    if !msg.JObj? then None
    else
      var fields := MessageFields(msg, media);
      if fields == [] then None else Some(JObj(fields))
  }

  /** Every field `_compact_message` may emit, in emission order. */
  function MessageFields(msg: Json, media: (string, Json) -> Option<Json>): seq<(string, Json)>
    decreases msg, 1
  {
    HeadFields(msg) + Opt("reply_to_message", CompactReply(msg, media)) + MediaFields(msg, media, MediaKeys)
  }

  /** No field of `fields` is named `key`. */
  predicate Lacks(fields: seq<(string, Json)>, key: string)
  {
    forall i :: 0 <= i < |fields| ==> fields[i].0 != key
  }

  lemma LacksConcat(a: seq<(string, Json)>, b: seq<(string, Json)>, key: string)
    requires Lacks(a, key) && Lacks(b, key)
    ensures Lacks(a + b, key)
  {
    forall i | 0 <= i < |a + b|
      ensures (a + b)[i].0 != key
    {
      if i >= |a| {
        assert (a + b)[i] == b[i - |a|];
      }
    }
  }

  /** An optional field under another key never holds `key`. */
  lemma OptLacks(k: string, v: Option<Json>, key: string)
    requires k != key
    ensures Lacks(Opt(k, v), key)
  {
  }

  /** The media keys and the keys around the date are all different from `date`. */
  lemma OtherKeysAreNotDate()
    ensures "date" !in MediaKeys
    ensures "chat" != "date" && "from" != "date" && "text" != "date" && "caption" != "date"
    ensures "reply_to_message" != "date" && "message_id" != "date"
  {
  }

  /** The media fields never hold a key outside `keys`. */
  lemma MediaLacks(msg: Json, media: (string, Json) -> Option<Json>, keys: seq<string>, key: string)
    requires key !in keys
    ensures Lacks(MediaFields(msg, media, keys), key)
  {
  }

  /** `date` is none of the keys after the head fields. */
  lemma DateNotAfterHead(msg: Json, media: (string, Json) -> Option<Json>)
    ensures Lacks(SenderFields(msg) + Opt("reply_to_message", CompactReply(msg, media)) + MediaFields(msg, media, MediaKeys), "date")
  {
    OtherKeysAreNotDate();
    var chat := Opt("chat", CompactChat(GetOrNull(msg, "chat")));
    var from := Opt("from", CompactUser(GetOrNull(msg, "from")));
    var text := Opt("text", NonEmptyStr(msg, "text"));
    var caption := Opt("caption", NonEmptyStr(msg, "caption"));
    var reply := Opt("reply_to_message", CompactReply(msg, media));
    var mediaFields := MediaFields(msg, media, MediaKeys);
    OptLacks("chat", CompactChat(GetOrNull(msg, "chat")), "date");
    OptLacks("from", CompactUser(GetOrNull(msg, "from")), "date");
    OptLacks("text", NonEmptyStr(msg, "text"), "date");
    OptLacks("caption", NonEmptyStr(msg, "caption"), "date");
    OptLacks("reply_to_message", CompactReply(msg, media), "date");
    MediaLacks(msg, media, MediaKeys, "date");
    LacksConcat(chat, from, "date");
    LacksConcat(chat + from, text, "date");
    LacksConcat(chat + from + text, caption, "date");
    assert SenderFields(msg) == chat + from + text + caption;
    LacksConcat(SenderFields(msg), reply, "date");
    LacksConcat(SenderFields(msg) + reply, mediaFields, "date");
  }

  lemma Regroup<T>(a: seq<T>, b: seq<T>, c: seq<T>, d: seq<T>)
    ensures a + b + c + d == a + (b + c + d)
  {
  }

  /** The lookup of a key that only the middle part can hold. */
  lemma LookupMiddle(a: seq<(string, Json)>, b: seq<(string, Json)>, c: seq<(string, Json)>, key: string)
    requires Lookup(a, key).None? && Lookup(c, key).None?
    ensures Lookup(a + b + c, key) == Lookup(b, key)
  {
    assert a + b + c == a + (b + c);
    LookupConcat(a, b + c, key);
    LookupConcat(b, c, key);
  }

  /**
   A message's date survives compaction as the raw value: an int date makes
   the compaction non-empty and is emitted unchanged under `date`, and any
   other date is dropped.
   */
  lemma CompactMessageKeepsRawDate(msg: Json, media: (string, Json) -> Option<Json>)
    requires msg.JObj?
    ensures RawInt(msg, "date").Some? ==> CompactMessage(msg, media).Some?
    ensures CompactMessage(msg, media).Some? ==> Get(CompactMessage(msg, media).value, "date") == RawInt(msg, "date")
  {
    DateField(msg, media);
  }

  /** Among all the fields, the only one named `date` is the raw int date. */
  lemma DateField(msg: Json, media: (string, Json) -> Option<Json>)
    ensures Lookup(MessageFields(msg, media), "date") == RawInt(msg, "date")
  {
    var mid := Opt("message_id", RawInt(msg, "message_id"));
    var date := Opt("date", RawInt(msg, "date"));
    var tail := SenderFields(msg) + Opt("reply_to_message", CompactReply(msg, media)) + MediaFields(msg, media, MediaKeys);
    Regroup(mid + date, SenderFields(msg), Opt("reply_to_message", CompactReply(msg, media)), MediaFields(msg, media, MediaKeys));
    OtherKeysAreNotDate();
    OptLacks("message_id", RawInt(msg, "message_id"), "date");
    DateNotAfterHead(msg, media);
    LookupMiddle(mid, date, tail, "date");
  }

  /** The keys whose values the legacy update compaction hands to `_compact_message`. */
  const MessageKeys: set<string> :=
    {"message", "edited_message", "channel_post", "edited_channel_post", "business_message", "edited_business_message"}

  /** The legacy per-key compactor: message-like keys by `CompactMessage`, the others by `other`. */
  function LegacyCompactor(media: (string, Json) -> Option<Json>, other: (string, Json) -> Option<Json>): (string, Json) -> Option<Json>
  {
    (k, v) => if k in MessageKeys then CompactMessage(v, media) else other(k, v)
  }

  /**
   Compacting a whole update with the legacy compactor keeps the raw
   integer date of each message-like field.
   */
  lemma CompactedUpdateKeepsRawDate(u: Json, key: string, media: (string, Json) -> Option<Json>,
                                    other: (string, Json) -> Option<Json>)
    requires u.JObj? && DistinctKeys(u.fields) && key in MessageKeys
    requires Get(u, key).Some? && Get(u, key).value.JObj? && RawInt(Get(u, key).value, "date").Some?
    ensures var c := CompactUpdate(u, LegacyCompactor(media, other));
      Get(c, key).Some? && Get(Get(c, key).value, "date") == Get(Get(u, key).value, "date")
  {
    assert key != "update_id";
    CompactMessageKeepsRawDate(Get(u, key).value, media);
  }
}
