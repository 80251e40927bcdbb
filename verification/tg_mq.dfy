/**
 The AMQP variant of the Telegram starter
 (collections/src/kapy_collections/starters/telegram_mq/runner.py): the
 mapping of a queue message to a Telegram update, the sender lookup that
 keeps the bot's own messages out, the intake of one message into the
 pending updates, the '|'-separated keyword list, the choice of the keyword
 that triggers, the bound on the pending updates, and one round of the
 dispatch decision, which reuses the polling runner's filters.

 The message date is parsed with `datetime.fromisoformat` and falls back to
 the clock; both are outside the model, so the timestamp is a parameter.
 */
module TgMq {
  import opened Wrappers
  import opened PyStr
  import opened Json
  import opened Seqs
  import opened Sorting
  import opened TgUpdates
  import TgLegacy
  import TgRunner

  // ---------------------------------------------------------------------
  // Queue message to update

  /** `mq_msg.get(key)`: a missing key reads as null. */
  function Field(mq: Json, key: string): Json
  {
    GetOrNull(mq, key)
  }

  /** The `chat` object of a mapped message: the queue's chat id, always a supergroup. */
  function ChatObject(chatId: Json): Json
  {
    JObj([("id", chatId), ("type", JStr("supergroup"))])
  }

  /** A `from` object: the sender id first, then the naming fields. */
  function FromObject(id: Json, naming: seq<(string, Json)>): Json
  {
    JObj([("id", id)] + naming)
  }

  /** The `message` object `_mq_to_update` builds, before any reply is attached. */
  function MqMessage(mq: Json, ts: int): Json
  {
    MessageObject(
      Field(mq, "message_id"), ts, ChatObject(Field(mq, "chat_id")),
      FromObject(Field(mq, "sender_id"), [
        ("username", Field(mq, "sender_username")),
        ("first_name", Field(mq, "sender_fullname")),
        ("is_bot", Get(mq, "is_bot").GetOr(JBool(false)))]),
      [("text", Field(mq, "text")),
       ("caption", Field(mq, "caption")),
       ("message_thread_id", Field(mq, "message_thread_id"))])
  }

  /** A message object with its id, date, chat and sender first, and the remaining fields after them. */
  function MessageObject(id: Json, ts: int, chat: Json, from: Json, rest: seq<(string, Json)>): Json
  {
    JObj([("message_id", id), ("date", JInt(ts)), ("chat", chat), ("from", from)] + rest)
  }

  /** The `reply_to_message` object built from the message's `reply_to` object. */
  function MqReply(reply: Json): Json
  {
    JObj([
      ("message_id", Field(reply, "message_id")),
      ("from", FromObject(Field(reply, "sender_id"), [
        ("username", Field(reply, "sender_username")),
        ("first_name", Field(reply, "sender_fullname"))])),
      ("text", Field(reply, "text"))])
  }

  /** A reply is attached when `is_reply` and `reply_to` are both truthy. */
  predicate WantsReply(mq: Json)
  {
    Truthy(Field(mq, "is_reply")) && Truthy(Field(mq, "reply_to"))
  }

  /** The `message` object with `reply_to_message` set when a reply is wanted. */
  function MqMessageWithReply(mq: Json, ts: int): Json
  {
    var msg := MqMessage(mq, ts);
    if WantsReply(mq) then JObj(msg.fields + [("reply_to_message", MqReply(Field(mq, "reply_to")))]) else msg
  }

  /**
   `_mq_to_update`, with `ts` the timestamp the date parsing (or the clock)
   gives. `.get` on a message or a `reply_to` that is not an object raises
   AttributeError.
   */
  function MqToUpdate(mq: Json, ts: int): (r: Outcome<Json>)
    ensures r.Fail? <==> !mq.JObj? || (WantsReply(mq) && !Field(mq, "reply_to").JObj?)
    ensures r.Fail? ==> r.exc == AttributeError
    ensures r.Ok? ==> r.value.JObj?
  {
    if !mq.JObj? then Fail(AttributeError)
    else if WantsReply(mq) && !Field(mq, "reply_to").JObj? then Fail(AttributeError)
    else Ok(UpdateObject(Field(mq, "message_id"), MqMessageWithReply(mq, ts)))
  }

  /** An update object holding one message. */
  function UpdateObject(id: Json, msg: Json): Json
  {
    JObj([("update_id", id), ("message", msg)])
  }

  /** The `message` object of an update. */
  function MessageOf(u: Json): Json
  {
    GetOrNull(u, "message")
  }

  /** The two fields of an update object read back. */
  lemma UpdateObjectFields(id: Json, msg: Json)
    ensures Get(UpdateObject(id, msg), "update_id") == Some(id)
    ensures MessageOf(UpdateObject(id, msg)) == msg
  {
    var fs := UpdateObject(id, msg).fields;
    LookupAt(fs, 0, "update_id");
    assert fs[0].0 != "message";
    LookupAt(fs, 1, "message");
  }

  /** The message id stands in for the update id. */
  lemma MqUpdateId(mq: Json, ts: int)
    requires MqToUpdate(mq, ts).Ok?
    ensures UpdateId(MqToUpdate(mq, ts).value) == GetInt(mq, "message_id")
  {
    UpdateObjectFields(Field(mq, "message_id"), MqMessageWithReply(mq, ts));
  }

  /** The names of a message object's first fields. */
  lemma MessageObjectNames(id: Json, ts: int, chat: Json, from: Json, rest: seq<(string, Json)>)
    ensures var fs := MessageObject(id, ts, chat, from, rest).fields;
      && |fs| == 4 + |rest| && fs[4..] == rest
      && fs[0] == ("message_id", id) && fs[1] == ("date", JInt(ts)) && fs[2] == ("chat", chat) && fs[3] == ("from", from)
  {
  }

  /** The date, chat and sender of a message object, whatever fields follow them. */
  lemma MessageObjectReads(id: Json, ts: int, chat: Json, from: Json, rest: seq<(string, Json)>, extra: seq<(string, Json)>)
    ensures var m := JObj(MessageObject(id, ts, chat, from, rest).fields + extra);
      && Get(m, "date") == Some(JInt(ts)) && Get(m, "chat") == Some(chat) && Get(m, "from") == Some(from)
  {
    MessageObjectNames(id, ts, chat, from, rest);
    var fs := MessageObject(id, ts, chat, from, rest).fields + extra;
    assert fs[0].0 == "message_id" && fs[1].0 == "date" && fs[2].0 == "chat" && fs[3].0 == "from";
    assert "message_id" != "date";
    LookupAt(fs, 1, "date");
    assert "message_id" != "chat" && "date" != "chat";
    LookupAt(fs, 2, "chat");
    assert "message_id" != "from" && "date" != "from" && "chat" != "from";
    LookupAt(fs, 3, "from");
  }

  /** The field names of the mapped message before any reply. */
  const MqMessageNames: seq<string> :=
    ["message_id", "date", "chat", "from", "text", "caption", "message_thread_id"]

  lemma MqMessageHasNames(mq: Json, ts: int)
    ensures var fs := MqMessage(mq, ts).fields;
      |fs| == |MqMessageNames| && forall k :: 0 <= k < |fs| ==> fs[k].0 == MqMessageNames[k]
  {
  }

  /** A mapped message carries `reply_to_message` exactly when both reply flags are truthy, and then it is the mapped reply. */
  lemma MqReplyOnlyWhenFlagged(mq: Json, ts: int)
    requires MqToUpdate(mq, ts).Ok?
    ensures HasKey(MessageOf(MqToUpdate(mq, ts).value), "reply_to_message") <==> WantsReply(mq)
    ensures WantsReply(mq) ==>
      Get(MessageOf(MqToUpdate(mq, ts).value), "reply_to_message") == Some(MqReply(Field(mq, "reply_to")))
  {
    UpdateObjectFields(Field(mq, "message_id"), MqMessageWithReply(mq, ts));
    ReplyKeyIsNew(mq, ts);
    AppendedKey(MqMessage(mq, ts).fields, "reply_to_message", MqReply(Field(mq, "reply_to")));
  }

  /** No field of the mapped message, before any reply, is named `reply_to_message`. */
  lemma ReplyKeyIsNew(mq: Json, ts: int)
    ensures forall k :: 0 <= k < |MqMessage(mq, ts).fields| ==> MqMessage(mq, ts).fields[k].0 != "reply_to_message"
  {
    MqMessageHasNames(mq, ts);
  }

  /** A key none of the fields has is absent, and once appended it reads back. */
  lemma AppendedKey(fs: seq<(string, Json)>, key: string, v: Json)
    requires forall k :: 0 <= k < |fs| ==> fs[k].0 != key
    ensures Lookup(fs, key).None? && Lookup(fs + [(key, v)], key) == Some(v)
  {
    LookupAt(fs + [(key, v)], |fs|, key);
  }

  /** Walking a three-step path. */
  lemma Walk3(u: Json, a: string, b: string, c: string)
    ensures Walk(u, [a, b, c]) ==
      if u.JObj? && GetOrNull(u, a).JObj? && GetOrNull(GetOrNull(u, a), b).JObj?
      then Some(GetOrNull(GetOrNull(GetOrNull(u, a), b), c)) else None
  {
    assert [a, b, c][1..] == [b, c];
    assert [b, c][1..] == [c];
    assert [c][1..] == [];
    if u.JObj? {
      var v := GetOrNull(u, a);
      assert Walk(u, [a, b, c]) == Walk(v, [b, c]);
      if v.JObj? {
        var w := GetOrNull(v, b);
        assert Walk(v, [b, c]) == Walk(w, [c]);
        if w.JObj? {
          assert Walk(w, [c]) == Walk(GetOrNull(w, c), []);
        }
      }
    }
  }

  /** The sender and chat objects read back. */
  lemma ChatAndFromRead(chatId: Json, id: Json, naming: seq<(string, Json)>)
    ensures GetOrNull(ChatObject(chatId), "id") == chatId
    ensures GetOrNull(ChatObject(chatId), "type") == JStr("supergroup")
    ensures GetOrNull(FromObject(id, naming), "id") == id
  {
    LookupAt(FromObject(id, naming).fields, 0, "id");
    var chat := ChatObject(chatId).fields;
    LookupAt(chat, 0, "id");
    assert "id" != "type";
    LookupAt(chat, 1, "type");
  }

  /** The date, chat and sender of an update holding a message object, each on its first path. */
  lemma MessageObjectPaths(uid: Json, id: Json, ts: int, chatId: Json, sender: Json, naming: seq<(string, Json)>,
                           rest: seq<(string, Json)>, extra: seq<(string, Json)>)
    ensures var u := UpdateObject(uid, JObj(MessageObject(id, ts, ChatObject(chatId), FromObject(sender, naming), rest).fields + extra));
      && Walk(u, ["message", "date"]) == Some(JInt(ts))
      && Walk(u, ["message", "chat", "type"]) == Some(JStr("supergroup"))
      && Walk(u, ["message", "chat", "id"]) == Some(chatId)
      && Walk(u, ["message", "from", "id"]) == Some(sender)
  {
    var m := JObj(MessageObject(id, ts, ChatObject(chatId), FromObject(sender, naming), rest).fields + extra);
    var u := UpdateObject(uid, m);
    UpdateObjectFields(uid, m);
    MessageObjectReads(id, ts, ChatObject(chatId), FromObject(sender, naming), rest, extra);
    ChatAndFromRead(chatId, sender, naming);
    assert ["message", "date"][1..] == ["date"];
    assert ["date"][1..] == [];
    Walk3(u, "message", "chat", "type");
    Walk3(u, "message", "chat", "id");
    Walk3(u, "message", "from", "id");
  }

  /** The date, chat and sender of a mapped update, each on its first path. */
  lemma MqFirstPaths(mq: Json, ts: int)
    requires MqToUpdate(mq, ts).Ok?
    ensures var u := MqToUpdate(mq, ts).value;
      && Walk(u, ["message", "date"]) == Some(JInt(ts))
      && Walk(u, ["message", "chat", "type"]) == Some(JStr("supergroup"))
      && Walk(u, ["message", "chat", "id"]) == Some(Field(mq, "chat_id"))
      && Walk(u, ["message", "from", "id"]) == Some(Field(mq, "sender_id"))
  {
    var naming := [
      ("username", Field(mq, "sender_username")),
      ("first_name", Field(mq, "sender_fullname")),
      ("is_bot", Get(mq, "is_bot").GetOr(JBool(false)))];
    var rest := [
      ("text", Field(mq, "text")),
      ("caption", Field(mq, "caption")),
      ("message_thread_id", Field(mq, "message_thread_id"))];
    var extra := if WantsReply(mq) then [("reply_to_message", MqReply(Field(mq, "reply_to")))] else [];
    var msg := MqMessage(mq, ts);
    assert MqMessageWithReply(mq, ts) == JObj(msg.fields + extra);
    MessageObjectPaths(Field(mq, "message_id"), Field(mq, "message_id"), ts, Field(mq, "chat_id"), Field(mq, "sender_id"),
                       naming, rest, extra);
  }

  /** Paths that start under any key but `update_id` and `message` find nothing in an update object. */
  lemma {:induction false} OtherPathsFindNothing(uid: Json, m: Json, paths: seq<Path>)
    requires forall k :: 0 <= k < |paths| ==> |paths[k]| >= 2 && paths[k][0] != "update_id" && paths[k][0] != "message"
    ensures FirstSome(UpdateObject(uid, m), paths, NestedInt).None?
    decreases |paths|
  {
    if paths != [] {
      var u := UpdateObject(uid, m);
      var p := paths[0];
      assert Get(u, p[0]).None?;
      assert Walk(u, p) == Walk(JNull, p[1..]);
      OtherPathsFindNothing(uid, m, paths[1..]);
    }
  }

  /**
   The mapped update reads back through the core extractors: the date is
   the timestamp, the chat is the message's `chat_id` in a supergroup, and
   the sender is the message's `sender_id`.
   */
  lemma MqUpdateReadsBack(mq: Json, ts: int)
    requires MqToUpdate(mq, ts).Ok?
    ensures DateOf(MqToUpdate(mq, ts).value) == Some(ts)
    ensures ChatType(MqToUpdate(mq, ts).value) == Some("supergroup")
    ensures ChatId(MqToUpdate(mq, ts).value) == GetInt(mq, "chat_id")
    ensures SenderId(MqToUpdate(mq, ts).value) == GetInt(mq, "sender_id")
  {
    MqFirstPaths(mq, ts);
    var uid := Field(mq, "message_id");
    var m := MqMessageWithReply(mq, ts);
    ChatIdPathsOtherwise();
    FirstPathDecides(uid, m, ChatIdPaths, Field(mq, "chat_id"));
    SenderPathsOtherwise();
    FirstPathDecides(uid, m, SenderPaths, Field(mq, "sender_id"));
  }

  /** The int read from a field, as `GetInt` reads it. */
  function AsInt(v: Json): Option<int>
  {
    if v.JInt? then Some(v.i) else None
  }

  /** When the first path leads to `x` and no other path starts under `message`, `x` decides the lookup. */
  lemma FirstPathDecides(uid: Json, m: Json, paths: seq<Path>, x: Json)
    requires |paths| >= 1 && Walk(UpdateObject(uid, m), paths[0]) == Some(x)
    requires forall k :: 1 <= k < |paths| ==> |paths[k]| >= 2 && paths[k][0] != "update_id" && paths[k][0] != "message"
    ensures FirstSome(UpdateObject(uid, m), paths, NestedInt) == AsInt(x)
  {
    assert forall k :: 0 <= k < |paths[1..]| ==> paths[1..][k] == paths[k + 1];
    OtherPathsFindNothing(uid, m, paths[1..]);
  }

  lemma ChatIdPathsOtherwise()
    ensures forall k :: 1 <= k < |ChatIdPaths| ==>
      |ChatIdPaths[k]| >= 2 && ChatIdPaths[k][0] != "update_id" && ChatIdPaths[k][0] != "message"
  {
  }

  lemma SenderPathsOtherwise()
    ensures forall k :: 1 <= k < |SenderPaths| ==>
      |SenderPaths[k]| >= 2 && SenderPaths[k][0] != "update_id" && SenderPaths[k][0] != "message"
  {
  }

  // ---------------------------------------------------------------------
  // The sender

  /** The top-level keys `_extract_update_from_user_id` looks under, in order. */
  const SenderKeys: seq<string> := [
    "message", "edited_message", "channel_post", "edited_channel_post",
    "business_message", "edited_business_message", "callback_query"]

  /**
   The sender-id paths in the order the lookup tries them: `from.id` under
   each key, and for a callback query also the sender of its message.
   */
  const SenderPaths: seq<Path> := [
    ["message", "from", "id"], ["edited_message", "from", "id"], ["channel_post", "from", "id"],
    ["edited_channel_post", "from", "id"], ["business_message", "from", "id"],
    ["edited_business_message", "from", "id"], ["callback_query", "from", "id"],
    ["callback_query", "message", "from", "id"]]

  /** The sender id of an update: the first path that leads to an int. */
  function SenderId(u: Json): Option<int>
  {
    FirstSome(u, SenderPaths, NestedInt)
  }

  /** The int `id` of an object's `from` object. */
  function FromId(v: Json): Option<int>
  {
    var sender := GetOrNull(v, "from");
    if sender.JObj? && GetOrNull(sender, "id").JInt? then Some(GetOrNull(sender, "id").i) else None
  }

  /** Walking `key.from.id`. */
  lemma FromIdPath(u: Json, key: string)
    ensures NestedInt(u, [key, "from", "id"]) == if u.JObj? && GetOrNull(u, key).JObj? then FromId(GetOrNull(u, key)) else None
  {
    Walk3(u, key, "from", "id");
  }

  /** Walking `key.message.from.id`. */
  lemma MessageFromIdPath(u: Json, key: string)
    ensures NestedInt(u, [key, "message", "from", "id"]) ==
      if u.JObj? && GetOrNull(u, key).JObj? && GetOrNull(GetOrNull(u, key), "message").JObj?
      then FromId(GetOrNull(GetOrNull(u, key), "message")) else None
  {
    assert [key, "message", "from", "id"][1..] == ["message", "from", "id"];
    Walk3(GetOrNull(u, key), "message", "from", "id");
  }

  /** FirstSome skips a path that yields nothing. */
  lemma FirstSomeSkip(u: Json, paths: seq<Path>, i: nat)
    requires i < |paths| && NestedInt(u, paths[i]).None?
    ensures FirstSome(u, paths[i..], NestedInt) == FirstSome(u, paths[i + 1..], NestedInt)
  {
    assert paths[i..][1..] == paths[i + 1..];
  }

  /**
   `_extract_update_from_user_id`: the loop over the keys, returning the
   first int sender; under `callback_query` it falls back to the sender of
   the query's message. It agrees with the path lookup `SenderId`.
   */
  method ExtractSenderId(u: Json) returns (r: Option<int>)
    requires u.JObj?
    ensures r == SenderId(u)
  {
    var i := 0;
    while i < |SenderKeys|
      invariant 0 <= i <= |SenderKeys|
      invariant i < |SenderKeys| ==> FirstSome(u, SenderPaths[i..], NestedInt) == SenderId(u)
      invariant i == |SenderKeys| ==> SenderId(u).None?
    {
      var key := SenderKeys[i];
      assert SenderPaths[i] == [key, "from", "id"];
      FromIdPath(u, key);
      var val := GetOrNull(u, key);
      if val.JObj? {
        var sender := FromId(val);
        if sender.Some? {
          assert FirstSome(u, SenderPaths[i..], NestedInt) == sender by {
            assert SenderPaths[i..][0] == SenderPaths[i];
          }
          return sender;
        }
        if key == "callback_query" {
          assert i == 6;
          FirstSomeSkip(u, SenderPaths, 6);
          MessageFromIdPath(u, key);
          var msg := GetOrNull(val, "message");
          if msg.JObj? {
            var inner := FromId(msg);
            if inner.Some? {
              assert FirstSome(u, SenderPaths[7..], NestedInt) == inner by {
                assert SenderPaths[7..][0] == SenderPaths[7];
              }
              return inner;
            }
          }
          FirstSomeSkip(u, SenderPaths, 7);
          assert SenderPaths[8..] == [];
        }
      }
      if key == "callback_query" && !val.JObj? {
        FirstSomeSkip(u, SenderPaths, 6);
        MessageFromIdPath(u, key);
        FirstSomeSkip(u, SenderPaths, 7);
        assert SenderPaths[8..] == [];
      }
      if key != "callback_query" {
        FirstSomeSkip(u, SenderPaths, i);
      }
      i := i + 1;
    }
    return None;
  }

  /** An update counts as the bot's own when a bot id is known and the sender is that id. */
  predicate FromBot(u: Json, botId: Option<int>)
  {
    botId.Some? && SenderId(u) == Some(botId.value)
  }

  /** A message the bot sent through the queue maps to an update from the bot. */
  lemma BotMessageIsFromBot(mq: Json, ts: int, botId: int)
    requires MqToUpdate(mq, ts).Ok? && GetInt(mq, "sender_id") == Some(botId)
    ensures FromBot(MqToUpdate(mq, ts).value, Some(botId))
  {
    MqUpdateReadsBack(mq, ts);
  }

  // ---------------------------------------------------------------------
  // Intake of one message

  /**
   `"chat_id" in body` on whatever the queue body decoded to: a key test on
   an object, a substring test on a string, a membership test on an array.
   On any other value `in` raises TypeError (None).
   */
  function ChatIdTest(body: Json): (r: Option<bool>)
    ensures r.None? <==> !(body.JObj? || body.JStr? || body.JArr?)
    ensures body.JObj? ==> r == Some(HasKey(body, "chat_id"))
    ensures body.JStr? ==> r == Some(Contains(body.s, "chat_id"))
    ensures body.JArr? ==> r == Some(JStr("chat_id") in body.items)
  {
    match body
    case JObj(_) => Some(HasKey(body, "chat_id"))
    case JStr(s) => Some(Contains(s, "chat_id"))
    case JArr(items) => Some(JStr("chat_id") in items)
    case _ => None
  }

  /**
   The update a queue body stands for: a body that passes the `chat_id`
   test is in the queue's own format and is mapped; any other body is
   taken as an update already, object or not. An exception inside the
   handler (the test raising, or the mapping failing) skips the message
   (None).
   */
  function ReceiveBody(body: Json, ts: int): (r: Option<Json>)
    ensures r.None? <==> ChatIdTest(body).None? || (ChatIdTest(body) == Some(true) && MqToUpdate(body, ts).Fail?)
    ensures ChatIdTest(body) == Some(false) ==> r == Some(body)
    ensures ChatIdTest(body) == Some(true) && r.Some? ==> body.JObj? && r.value.JObj?
    ensures r.Some? && !r.value.JObj? <==>
      (body.JStr? && !Contains(body.s, "chat_id")) || (body.JArr? && JStr("chat_id") !in body.items)
  {
    match ChatIdTest(body)
    case None => None
    case Some(hasChatId) =>
      if hasChatId then
        match MqToUpdate(body, ts)
        case Ok(u) => Some(u)
        case Fail(_) => None
      else Some(body)
  }

  /** An unseen update enters the pending map: not the bot's own, and with an int id. */
  predicate Accepted(u: Json, botId: Option<int>)
  {
    !FromBot(u, botId) && UpdateId(u).Some?
  }

  /** The acceptance test as a value, so that contracts and loops name the same function. */
  function AcceptTest(botId: Option<int>): Json -> bool
  {
    u => Accepted(u, botId)
  }

  /** One step of the acceptance loop: the sender test against the bot, then the id test. */
  method AcceptOne(u: Json, botId: Option<int>) returns (ok: bool)
    requires u.JObj?
    ensures ok <==> Accepted(u, botId)
  {
    if botId.Some? {
      var from := ExtractSenderId(u);
      if from == botId {
        return false;
      }
    }
    ok := UpdateId(u).Some?;
  }

  /**
   The acceptance loop: updates from the bot and updates without an int id
   are skipped; the others are added with `setdefault` and raise the
   consumed cursor to the largest id seen.
   */
  method AcceptUpdates(unseen: seq<Json>, botId: Option<int>, pending: map<int, Json>, last: Option<int>)
    returns (pending': map<int, Json>, accepted: seq<Json>, last': Option<int>)
    requires forall i :: 0 <= i < |unseen| ==> unseen[i].JObj?
    ensures accepted == Filter(unseen, AcceptTest(botId))
    ensures pending' == TgLegacy.Absorb(pending, accepted)
    ensures last' == TgLegacy.Latest(last, accepted)
  {
    pending', accepted, last' := pending, [], last;
    var i := 0;
    while i < |unseen|
      invariant 0 <= i <= |unseen|
      invariant accepted == Filter(unseen[..i], AcceptTest(botId))
      invariant pending' == TgLegacy.Absorb(pending, accepted)
      invariant last' == TgLegacy.Latest(last, accepted)
    {
      accepted, pending', last' := AcceptStep(unseen, i, botId, pending, last, accepted, pending', last');
      i := i + 1;
    }
    assert unseen[..i] == unseen;
  }

  /** One turn of the acceptance loop: the `i`-th update is examined and, when accepted, absorbed. */
  method AcceptStep(unseen: seq<Json>, i: nat, botId: Option<int>, pending: map<int, Json>, last: Option<int>,
                    accepted: seq<Json>, cur: map<int, Json>, curLast: Option<int>)
    returns (accepted': seq<Json>, next: map<int, Json>, nextLast: Option<int>)
    requires i < |unseen| && unseen[i].JObj?
    requires accepted == Filter(unseen[..i], AcceptTest(botId))
    requires cur == TgLegacy.Absorb(pending, accepted) && curLast == TgLegacy.Latest(last, accepted)
    ensures accepted' == Filter(unseen[..i + 1], AcceptTest(botId))
    ensures next == TgLegacy.Absorb(pending, accepted') && nextLast == TgLegacy.Latest(last, accepted')
  {
    var u := unseen[i];
    AcceptedPrefix(unseen, i, botId);
    var ok := AcceptOne(u, botId);
    accepted', next, nextLast := accepted, cur, curLast;
    if ok {
      next, nextLast := AbsorbStep(pending, last, accepted, cur, curLast, u);
      accepted' := accepted + [u];
    }
  }

  /** The accepted prefix grows by the next update exactly when that update is accepted. */
  lemma AcceptedPrefix(unseen: seq<Json>, i: nat, botId: Option<int>)
    requires i < |unseen|
    ensures Filter(unseen[..i + 1], AcceptTest(botId))
         == if Accepted(unseen[i], botId) then Filter(unseen[..i], AcceptTest(botId)) + [unseen[i]]
            else Filter(unseen[..i], AcceptTest(botId))
  {
    assert unseen[..i + 1] == unseen[..i] + [unseen[i]];
    FilterSnoc(unseen[..i], unseen[i], AcceptTest(botId));
  }

  /** Absorbing one more accepted update: kept when its id is new, and the cursor moves up to its id. */
  method AbsorbStep(pending: map<int, Json>, last: Option<int>, accepted: seq<Json>,
                    cur: map<int, Json>, curLast: Option<int>, u: Json)
    returns (next: map<int, Json>, nextLast: Option<int>)
    requires UpdateId(u).Some?
    requires cur == TgLegacy.Absorb(pending, accepted) && curLast == TgLegacy.Latest(last, accepted)
    ensures next == TgLegacy.Absorb(pending, accepted + [u]) && nextLast == TgLegacy.Latest(last, accepted + [u])
  {
    var id := UpdateId(u).value;
    InitOfSnoc(accepted, u);
    next, nextLast := cur, curLast;
    if id !in next {
      next := next[id := u];
    }
    if nextLast.None? || id > nextLast.value {
      nextLast := Some(id);
    }
  }

  /** Nothing the bot sent is ever added to the pending updates. */
  lemma BotUpdatesStayOut(unseen: seq<Json>, botId: int, pending: map<int, Json>, id: int)
    requires id !in pending
    requires id in TgLegacy.Absorb(pending, Filter(unseen, AcceptTest(Some(botId))))
    ensures !FromBot(TgLegacy.Absorb(pending, Filter(unseen, AcceptTest(Some(botId))))[id], Some(botId))
    ensures TgLegacy.Absorb(pending, Filter(unseen, AcceptTest(Some(botId))))[id] in unseen
  {
    var accepted := Filter(unseen, AcceptTest(Some(botId)));
    TgLegacy.AbsorbMeaning(pending, accepted, id);
    var j :| TgLegacy.FirstWithId(accepted, j, id) && TgLegacy.Absorb(pending, accepted)[id] == accepted[j];
    assert AcceptTest(Some(botId))(accepted[j]);
    FilterMembers(unseen, AcceptTest(Some(botId)), accepted[j]);
  }

  /** An update the intake keeps: an int id past the consumed cursor, and not a topic-created service message. */
  predicate Admissible(u: Json, last: Option<int>)
  {
    UpdateId(u).Some? && PastCursor(UpdateId(u).value, last) && !IsForumTopicCreated(u)
  }

  /** The outcome of taking one queue message in. */
  datatype Intake =
    | Skipped                                   // unparsable, already seen, or a topic-created service message
    | Taken(pending: map<int, Json>, accepted: seq<Json>, last: Option<int>)
    | Crashed                                   // a non-object update reached `extract_update_id` outside the handler

  /**
   One message's intake (runner.py:300-338): the body becomes an update,
   the update must be unseen by the consumed cursor and not a forum-topic
   service message, and then it goes through the acceptance loop. A
   skipped message leaves all state alone and skips the trigger check too.
   A string or array body the `chat_id` test lets through as an update
   makes `extract_update_id` call `.get` on it outside the handler: the
   AttributeError ends the consumer.
   */
  method TakeMessage(body: Json, ts: int, botId: Option<int>, pending: map<int, Json>, last: Option<int>)
    returns (r: Intake)
    ensures r.Crashed? <==> (body.JStr? && !Contains(body.s, "chat_id")) || (body.JArr? && JStr("chat_id") !in body.items)
    ensures r.Skipped? <==>
      (ReceiveBody(body, ts).None? || (ReceiveBody(body, ts).value.JObj? && !Admissible(ReceiveBody(body, ts).value, last)))
    ensures r.Taken? ==> r.accepted == Filter([ReceiveBody(body, ts).value], AcceptTest(botId))
    ensures r.Taken? ==> r.pending == TgLegacy.Absorb(pending, r.accepted)
    ensures r.Taken? ==> r.last == TgLegacy.Latest(last, r.accepted)
  {
    var received := ReceiveBody(body, ts);
    if received.None? {
      return Skipped;
    }
    var u := received.value;
    if !u.JObj? {
      return Crashed;
    }
    var unseen := FilterUnseen([u], last);
    FirstOccurrencesSingle(u, UpdateId);
    assert unseen == if UpdateId(u).Some? && PastCursor(UpdateId(u).value, last) then [u] else [];
    var kept, _ := FilterForumTopicCreated(unseen);
    FilterSingle(u);
    assert kept == if Admissible(u, last) then [u] else [];
    if kept == [] {
      return Skipped;
    }
    var pending', accepted, last' := AcceptUpdates(kept, botId, pending, last);
    return Taken(pending', accepted, last');
  }

  /** De-duplicating a single update keeps it exactly when its key is present and accepted. */
  lemma FirstOccurrencesSingle<T>(x: T, key: T -> Option<int>)
    ensures forall ok: int -> bool :: FirstOccurrences([x], key, ok) ==
                                      if key(x).Some? && ok(key(x).value) then [x] else []
  {
    assert [x][..0] == [];
  }

  // ---------------------------------------------------------------------
  // Keywords

  /** `[k.strip() for k in keyword.split("|") if k.strip()]`. */
  function Keywords(keyword: string): (ks: seq<string>)
    ensures forall i :: 0 <= i < |ks| ==> IsTrimmed(ks[i])
  {
    StrippedParts(keyword, '|')
  }

  /** A keyword list joined with '|' splits back into the same list. */
  lemma KeywordsRoundTrip(ks: seq<string>)
    requires |ks| >= 1
    requires forall i :: 0 <= i < |ks| ==> IsTrimmed(ks[i]) && '|' !in ks[i]
    ensures Keywords(Join(ks, "|")) == ks
  {
    StrippedPartsJoin(ks, '|');
  }

  /** Without '|', the keyword string is one keyword, or none when it is blank. */
  lemma SingleKeyword(keyword: string)
    requires '|' !in keyword
    ensures Keywords(keyword) == if AllSpace(keyword) then [] else [Strip(keyword)]
  {
    StripEmptyIffAllSpace(keyword);
    assert Split(keyword, '|') == [keyword];
    assert [keyword][1..] == [];
  }

  // ---------------------------------------------------------------------
  // The triggering keyword

  /** The trigger configuration for one keyword. */
  function ConfigFor(k: string, botId: Option<int>, botUsername: Option<string>): TriggerConfig
  {
    TriggerConfig(k, botId, botUsername)
  }

  /** `bool(dispatch_groups_for_batch(...))` for one keyword. */
  method KeywordHits(updates: seq<Json>, k: string, botId: Option<int>, botUsername: Option<string>,
                     chatIds: Option<set<int>>, ops: TextOps)
    returns (hit: bool)
    ensures hit <==> WatchedTrigger(updates, ConfigFor(k, botId, botUsername), chatIds, ops)
  {
    var grouped := DispatchGroups(updates, ConfigFor(k, botId, botUsername), chatIds, ops);
    hit := grouped.Some?;
  }

  /** Whether a keyword triggers on the batch, as a test on keywords. */
  function KeywordTest(updates: seq<Json>, botId: Option<int>, botUsername: Option<string>,
                       chatIds: Option<set<int>>, ops: TextOps): string -> bool
  {
    k => WatchedTrigger(updates, ConfigFor(k, botId, botUsername), chatIds, ops)
  }

  /**
   `get_triggered_keyword`: the first keyword for which
   `dispatch_groups_for_batch` finds a watched update that triggers.
   */
  method TriggeredKeyword(updates: seq<Json>, keywords: seq<string>, botId: Option<int>, botUsername: Option<string>,
                          chatIds: Option<set<int>>, ops: TextOps)
    returns (r: Option<nat>)
    ensures r == FirstIndex(keywords, KeywordTest(updates, botId, botUsername, chatIds, ops))
  {
    var test := KeywordTest(updates, botId, botUsername, chatIds, ops);
    var i := 0;
    while i < |keywords|
      invariant 0 <= i <= |keywords|
      invariant forall j :: 0 <= j < i ==> !test(keywords[j])
    {
      var hit := KeywordHits(updates, keywords[i], botId, botUsername, chatIds, ops);
      if hit {
        FirstIndexIs(keywords, test, i);
        return Some(i);
      }
      NoneBeforeNext(keywords, test, i);
      i := i + 1;
    }
    FirstIndexNone(keywords, test);
    return None;
  }

  /** The configuration of the first keyword that triggers on `updates`, if any. */
  function TriggeredConfig(updates: seq<Json>, keywords: seq<string>, botId: Option<int>, botUsername: Option<string>,
                           chatIds: Option<set<int>>, ops: TextOps): (r: Option<TriggerConfig>)
    ensures r.None? <==> NoKeywordTriggers(updates, keywords, botId, botUsername, chatIds, ops)
    ensures r.Some? ==> WatchedTrigger(updates, r.value, chatIds, ops)
    ensures r.Some? ==> exists i :: 0 <= i < |keywords| && r.value == ConfigFor(keywords[i], botId, botUsername)
                          && forall j :: 0 <= j < i ==> !WatchedTrigger(updates, ConfigFor(keywords[j], botId, botUsername), chatIds, ops)
  {
    var test := KeywordTest(updates, botId, botUsername, chatIds, ops);
    match FirstIndex(keywords, test)
    case None => None
    case Some(i) =>
      assert forall j :: 0 <= j < i ==> !test(keywords[j]);
      Some(ConfigFor(keywords[i], botId, botUsername))
  }

  // ---------------------------------------------------------------------
  // The pending updates

  /** At most this many updates wait for a trigger. */
  const PendingCap: nat := 100

  /** The pending updates in ascending id order: `[pending[i] for i in sorted(pending)]`. */
  method InIdOrder(pending: map<int, Json>) returns (ids: seq<int>, ordered: seq<Json>)
    ensures forall id :: id in ids <==> id in pending
    ensures forall i, j :: 0 <= i < j < |ids| ==> ids[i] < ids[j]
    ensures |ordered| == |ids|
    ensures forall i :: 0 <= i < |ids| ==> ids[i] in pending && ordered[i] == pending[ids[i]]
  {
    ids := Ascending(pending.Keys);
    ordered := seq(|ids|, i requires 0 <= i < |ids| => pending[ids[i]]);
  }

  /** The smallest id of a non-empty pending map: `min(pending)`. */
  method MinId(pending: map<int, Json>) returns (m: int)
    requires |pending.Keys| > 0
    ensures m in pending && forall id :: id in pending ==> m <= id
  {
    var ids := Ascending(pending.Keys);
    DistinctCount(ids, pending.Keys);
    m := ids[0];
    forall id | id in pending
      ensures m <= id
    {
      var j :| 0 <= j < |ids| && ids[j] == id;
    }
  }

  /** `kept` is `pending` with some smallest ids removed. */
  ghost predicate DropsSmallest(pending: map<int, Json>, kept: map<int, Json>)
  {
    && (forall id :: id in kept ==> id in pending && kept[id] == pending[id])
    && (forall a, b :: a in pending && a !in kept && b in kept ==> a < b)
  }

  /**
   The bound kept while no keyword triggers: while more than `PendingCap`
   updates wait, the smallest id is evicted. The largest `PendingCap` ids
   stay, with their updates.
   */
  method TrimPending(pending: map<int, Json>) returns (kept: map<int, Json>)
    ensures |kept.Keys| == if |pending.Keys| > PendingCap then PendingCap else |pending.Keys|
    ensures forall id :: id in kept ==> id in pending && kept[id] == pending[id]
    ensures forall a, b :: a in pending && a !in kept && b in kept ==> a < b
  {
    kept := pending;
    while |kept.Keys| > PendingCap
      invariant DropsSmallest(pending, kept)
      invariant |pending.Keys| > PendingCap ==> |kept.Keys| >= PendingCap
      invariant |pending.Keys| <= PendingCap ==> kept == pending
      decreases |kept.Keys|
    {
      var m := MinId(kept);
      var smaller := kept - {m};
      assert smaller.Keys == kept.Keys - {m};
      kept := smaller;
    }
  }

  // ---------------------------------------------------------------------
  // Arguments

  /**
   `run_amqp_forever`'s checks before any I/O: a non-negative recent-history
   size, and an updates store whenever that size is positive.
   */
  function ValidateMqArgs(recentPerChat: int, hasStore: bool): (r: Outcome<()>)
    ensures r.Fail? ==> r.exc == ValueError
  {
    if recentPerChat < 0 then Fail(ValueError)
    else if recentPerChat > 0 && !hasStore then Fail(ValueError)
    else Ok(())
  }

  /**
   The AMQP starter accepts exactly the recent-history settings the polling
   starter accepts; it has no timeout and takes a blank keyword as no keyword.
   */
  lemma MqArgsMatchPolling(recentPerChat: int, hasStore: bool, timeout: int, keyword: string)
    requires timeout > 0 && !AllSpace(keyword)
    ensures ValidateMqArgs(recentPerChat, hasStore).Ok? <==> TgRunner.ValidateRunArgs(timeout, keyword, recentPerChat, hasStore).Ok?
  {
  }

  // ---------------------------------------------------------------------
  // One round

  /** No keyword of the list triggers on `updates`. */
  predicate NoKeywordTriggers(updates: seq<Json>, keywords: seq<string>, botId: Option<int>, botUsername: Option<string>,
                              chatIds: Option<set<int>>, ops: TextOps)
  {
    forall i :: 0 <= i < |keywords| ==> !WatchedTrigger(updates, ConfigFor(keywords[i], botId, botUsername), chatIds, ops)
  }

  /**
   The decision after a message was taken in (runner.py:355-521): the
   pending updates in id order are matched keyword by keyword; without a
   trigger they wait, trimmed to `PendingCap`; with one, the triggered
   keyword's groups go through the polling runner's round as written
   (watchlist, recent-history overlay of all triggered groups, forum-topic
   and cursor filters, cursor advance; runner.py:383-481), and the pending
   updates are cleared whether or not anything is left.
   */
  method MqRound(pending: map<int, Json>, keyword: string, botId: Option<int>, botUsername: Option<string>,
                 chatIds: Option<set<int>>, ops: TextOps, recent: Option<TgRunner.Groups>, cursors: map<int, int>)
    returns (ids: seq<int>, ordered: seq<Json>, r: TgRunner.Round, pending': map<int, Json>)
    ensures forall id :: id in ids <==> id in pending
    ensures forall i, j :: 0 <= i < j < |ids| ==> ids[i] < ids[j]
    ensures |ordered| == |ids| == |pending.Keys|
    ensures forall i :: 0 <= i < |ids| ==> ids[i] in pending && ordered[i] == pending[ids[i]]
    ensures r.Waiting? <==> NoKeywordTriggers(ordered, Keywords(keyword), botId, botUsername, chatIds, ops)
    ensures r.Waiting? ==> |pending'.Keys| == (if |pending.Keys| > PendingCap then PendingCap else |pending.Keys|)
    ensures r.Waiting? ==> DropsSmallest(pending, pending')
    ensures !r.Waiting? ==> pending' == map[]
    ensures r.Dispatched? ==> r.groups != map[] && r.groups.Keys <= TgRunner.PendingChats(ordered)
    ensures r.Dispatched? && chatIds.Some? && recent.None? ==> forall k :: k in r.groups ==> k.Some? && k.value in chatIds.value
    ensures r.Dispatched? ==> forall k, u :: k in r.groups && u in r.groups[k] ==> TgRunner.Survives(cursors, k, u)
    ensures r.Dispatched? ==> r.cursors == TgRunner.Advanced(cursors, r.groups)
    ensures r.Dispatched? ==> forall c :: TgRunner.HasMaxId(r.groups, c) ==>
      (c in r.cursors && Filter(r.groups[Some(c)], u => UpdateId(u).Some? && UpdateId(u).value > r.cursors[c]) == [])
    ensures TriggeredConfig(ordered, Keywords(keyword), botId, botUsername, chatIds, ops).Some? ==> forall i ::
      (0 <= i < |ordered| && TgRunner.Survives(cursors, ChatId(ordered[i]), ordered[i]) &&
       (if recent.Some? then !TgRunner.Replaces(recent.value, ChatId(ordered[i])) else Watched(ordered[i], chatIds))) ==>
      r.Dispatched? && ChatId(ordered[i]) in r.groups && ordered[i] in r.groups[ChatId(ordered[i])]
  {
    ids, ordered := InIdOrder(pending);
    DistinctCount(ids, pending.Keys);
    var keywords := Keywords(keyword);
    var k := TriggeredKeyword(ordered, keywords, botId, botUsername, chatIds, ops);
    if k.None? {
      r := TgRunner.Waiting;
      pending' := TrimPending(pending);
      return;
    }
    assert TriggeredConfig(ordered, keywords, botId, botUsername, chatIds, ops) == Some(ConfigFor(keywords[k.value], botId, botUsername));
    r := TgRunner.TriggerRound(ordered, ConfigFor(keywords[k.value], botId, botUsername), chatIds, ops, recent, cursors);
    pending' := map[];
  }

  /** A strictly increasing listing of a set has one entry per member. */
  lemma DistinctCount(ids: seq<int>, s: set<int>)
    requires forall id :: id in ids <==> id in s
    requires forall i, j :: 0 <= i < j < |ids| ==> ids[i] < ids[j]
    ensures |ids| == |s|
    decreases |ids|
  {
    if ids != [] {
      var rest := ids[1..];
      forall id
        ensures id in rest <==> id in s - {ids[0]}
      {
        if id in rest {
          var j :| 0 <= j < |rest| && rest[j] == id;
          assert ids[j + 1] == id;
        }
        if id in s - {ids[0]} {
          var j :| 0 <= j < |ids| && ids[j] == id;
          assert j > 0;
          assert rest[j - 1] == id;
        }
      }
      DistinctCount(rest, s - {ids[0]});
    } else {
      assert forall y :: y !in s;
      assert s == {};
    }
  }
}
