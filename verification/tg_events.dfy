/**
 Telegram update -> agent `Event` conversion (core/src/k/starters/telegram/events.py):
 the `telegram/chat/<id>[/thread/<tid>]` channel of one update, the
 chat-level channel of a batch, and the newline-joined event content.
 */
module TgEvents {
  import opened Wrappers
  import opened PyStr
  import opened Json
  import opened Channels
  import opened Events
  import opened TgUpdates

  // ---------------------------------------------------------------------
  // Channel strings and their segments

  /** `f"telegram/chat/{chat_id}"`. */
  function ChatChannel(id: int): string
  {
    "telegram/chat/" + IntToStr(id)
  }

  /** `f"{channel}/thread/{thread_id}"` on a chat channel. */
  function ThreadChannel(id: int, tid: int): string
  {
    ChatChannel(id) + "/thread/" + IntToStr(tid)
  }

  function ChatSegments(id: int): seq<string>
  {
    ["telegram", "chat", IntToStr(id)]
  }

  lemma NoSlashInNumber(n: int)
    ensures '/' !in IntToStr(n) && IntToStr(n) != []
    ensures !IsSpace(IntToStr(n)[0]) && !IsSpace(IntToStr(n)[|IntToStr(n)| - 1])
  {
    var s := IntToStr(n);
    forall k | 0 <= k < |s|
      ensures s[k] != '/' && !IsSpace(s[k])
    {
      if n >= 0 {
        assert IsDigit(s[k]);
      } else if k > 0 {
        assert IsDigit(s[1..][k - 1]);
      }
    }
  }

  /** The first and last characters of a join of non-empty parts. */
  lemma {:induction false} JoinEdges(parts: seq<string>, sep: string)
    requires |parts| >= 1 && forall k :: 0 <= k < |parts| ==> parts[k] != []
    ensures var j := Join(parts, sep);
      j != [] && j[0] == parts[0][0] && j[|j| - 1] == parts[|parts| - 1][|parts[|parts| - 1]| - 1]
    decreases |parts|
  {
    if |parts| > 1 {
      JoinEdges(parts[1..], sep);
    }
  }

  /**
   Joining non-empty, slash-free parts whose outer characters are not
   whitespace gives a channel whose segments are exactly those parts.
   */
  lemma ChannelOfSegments(parts: seq<string>)
    requires |parts| >= 1
    requires forall k :: 0 <= k < |parts| ==> parts[k] != [] && '/' !in parts[k]
    requires !IsSpace(parts[0][0]) && !IsSpace(parts[|parts| - 1][|parts[|parts| - 1]| - 1])
    ensures Segments(Join(parts, "/")) == parts
    ensures IsChannel(Join(parts, "/")) && Root(Join(parts, "/")) == parts[0]
  {
    var c := Join(parts, "/");
    SplitJoin(parts, '/');
    JoinEdges(parts, "/");
    assert LStrip(c) == c;
    assert RStrip(c) == c;
    RootIsFirstSegment(c);
  }

  lemma JoinThree(a: string, b: string, c: string)
    ensures Join([a, b, c], "/") == a + "/" + b + "/" + c
  {
    assert [a, b, c][1..] == [b, c];
    assert [b, c][1..] == [c];
    assert Join([b, c], "/") == b + "/" + c;
    assert Join([a, b, c], "/") == a + "/" + (b + "/" + c);
  }

  /** A three-segment channel `a/b/c`; the parts are abstract so no literal is unfolded. */
  lemma ChannelOfThree(a: string, b: string, c: string)
    requires a != [] && b != [] && c != [] && '/' !in a && '/' !in b && '/' !in c
    requires !IsSpace(a[0]) && !IsSpace(c[|c| - 1])
    ensures Segments(a + "/" + b + "/" + c) == [a, b, c]
    ensures IsChannel(a + "/" + b + "/" + c) && Root(a + "/" + b + "/" + c) == a
  {
    JoinThree(a, b, c);
    ChannelOfSegments([a, b, c]);
  }

  lemma ChatChannelShape(id: int)
    ensures Segments(ChatChannel(id)) == ChatSegments(id)
    ensures IsChannel(ChatChannel(id)) && Root(ChatChannel(id)) == "telegram"
  {
    var s := IntToStr(id);
    assert ChatChannel(id) == "telegram" + "/" + "chat" + "/" + s;
    NoSlashInNumber(id);
    ChannelOfThree("telegram", "chat", s);
  }

  lemma SegmentsExtend(p: string, b: string, c: string)
    requires '/' !in b && '/' !in c
    ensures Segments(p + "/" + b + "/" + c) == Segments(p) + [b, c]
  {
    assert p + "/" + b + "/" + c == p + ['/'] + (b + ['/'] + c);
    SplitAppend(p, b + ['/'] + c, '/');
    SplitAppend(b, c, '/');
  }

  /** A string with no edge whitespace and no empty segment is a channel. */
  lemma ChannelFromParts(x: string)
    requires x != [] && !IsSpace(x[0]) && !IsSpace(x[|x| - 1]) && NoEmptySegment(x)
    ensures IsChannel(x)
  {
    assert LStrip(x) == x;
    assert RStrip(x) == x;
  }

  lemma ExtendedPrefix(p: string, b: string, c: string)
    ensures HasPrefix(p + "/" + b + "/" + c, p)
  {
    var x := p + "/" + b + "/" + c;
    assert x[..|p + "/"|] == p + "/";
  }

  lemma ExtendedSegmentsNonEmpty(p: string, b: string, c: string)
    requires NoEmptySegment(p) && b != [] && c != [] && '/' !in b && '/' !in c
    ensures NoEmptySegment(p + "/" + b + "/" + c)
  {
    SegmentsExtend(p, b, c);
    var parts := Segments(p) + [b, c];
    forall k | 0 <= k < |parts|
      ensures parts[k] != []
    {
      if k < |Segments(p)| {
        assert parts[k] == Segments(p)[k];
      }
    }
  }

  lemma ExtendedEdges(p: string, b: string, c: string)
    requires IsChannel(p) && c != [] && !IsSpace(c[|c| - 1])
    ensures var x := p + "/" + b + "/" + c;
      x != [] && !IsSpace(x[0]) && !IsSpace(x[|x| - 1])
  {
    assert LStrip(p) == p;
  }

  lemma ExtendedRoot(p: string, b: string, c: string)
    requires '/' !in b && '/' !in c
    ensures Root(p + "/" + b + "/" + c) == Root(p)
  {
    SegmentsExtend(p, b, c);
    RootIsFirstSegment(p + "/" + b + "/" + c);
    RootIsFirstSegment(p);
  }

  /** Appending `/b/c` to a channel `p` keeps it a channel below `p` with the same root. */
  lemma ExtendByTwo(p: string, b: string, c: string)
    requires IsChannel(p) && b != [] && c != [] && '/' !in b && '/' !in c && !IsSpace(c[|c| - 1])
    ensures IsChannel(p + "/" + b + "/" + c) && Root(p + "/" + b + "/" + c) == Root(p)
    ensures HasPrefix(p + "/" + b + "/" + c, p)
  {
    ExtendedSegmentsNonEmpty(p, b, c);
    ExtendedEdges(p, b, c);
    ChannelFromParts(p + "/" + b + "/" + c);
    ExtendedRoot(p, b, c);
    ExtendedPrefix(p, b, c);
  }

  lemma SpelledThread(p: string, t: string)
    ensures p + "/thread/" + t == p + "/" + "thread" + "/" + t
  {
    assert "/" + "thread" + "/" == "/thread/";
  }

  /** `p/thread/t` below a channel `p`, for any slash-free `t`. */
  lemma ThreadSuffixShape(x: string, p: string, t: string)
    requires IsChannel(p) && t != [] && '/' !in t && !IsSpace(t[|t| - 1])
    requires x == p + "/thread/" + t
    ensures IsChannel(x) && Root(x) == Root(p) && HasPrefix(x, p)
  {
    SpelledThread(p, t);
    ExtendByTwo(p, "thread", t);
  }

  lemma ThreadBelowChat(id: int, tid: int)
    requires IsChannel(ChatChannel(id))
    requires IntToStr(tid) != [] && '/' !in IntToStr(tid) && !IsSpace(IntToStr(tid)[|IntToStr(tid)| - 1])
    ensures IsChannel(ThreadChannel(id, tid)) && Root(ThreadChannel(id, tid)) == Root(ChatChannel(id))
    ensures HasPrefix(ThreadChannel(id, tid), ChatChannel(id))
  {
    ThreadSuffixShape(ThreadChannel(id, tid), ChatChannel(id), IntToStr(tid));
  }

  lemma ThreadChannelShape(id: int, tid: int)
    ensures IsChannel(ThreadChannel(id, tid)) && Root(ThreadChannel(id, tid)) == "telegram"
    ensures HasPrefix(ThreadChannel(id, tid), ChatChannel(id))
  {
    ChatChannelShape(id);
    NoSlashInNumber(tid);
    ThreadBelowChat(id, tid);
  }

  lemma TelegramIsChannel()
    ensures Segments("telegram") == ["telegram"] && IsChannel("telegram") && Root("telegram") == "telegram"
  {
    ChannelOfSegments(["telegram"]);
  }

  /** Every chat or thread channel lies below the bare "telegram" channel. */
  lemma UnderTelegram(c: string)
    requires IsChannel(c) && Root(c) == "telegram"
    ensures HasPrefix(c, "telegram")
  {
    RootIsAncestor(c);
  }

  // ---------------------------------------------------------------------
  // Thread id

  /** `_MESSAGE_OBJECT_PATHS`. */
  const MessageObjectPaths: seq<Path> := [
    ["message"], ["edited_message"], ["channel_post"], ["edited_channel_post"],
    ["callback_query", "message"], ["business_message"], ["edited_business_message"]]

  /**
   The forum topic id carried by the message at `path`: only when that
   message is an object marked `is_topic_message: true` and its
   `message_thread_id` is an int.
   */
  function TopicThreadAt(u: Json, path: Path): (r: Option<int>)
    ensures r.Some? <==>
      NestedObj(u, path).Some? && Get(NestedObj(u, path).value, "is_topic_message") == Some(JBool(true))
      && GetInt(NestedObj(u, path).value, "message_thread_id").Some?
  {
    match NestedObj(u, path)
    case None => None
    case Some(message) =>
      if Get(message, "is_topic_message") != Some(JBool(true)) then None
      else GetInt(message, "message_thread_id")
  }

  /** `_extract_message_thread_id`: the first message object that yields a topic id. */
  function MessageThreadId(u: Json): Option<int>
  {
    FirstSome(u, MessageObjectPaths, TopicThreadAt)
  }

  /** A thread id is found iff some message object is an explicitly marked topic message. */
  lemma ThreadIdNeedsTopicMarker(u: Json)
    ensures MessageThreadId(u).Some? <==>
      exists k :: 0 <= k < |MessageObjectPaths| && TopicThreadAt(u, MessageObjectPaths[k]).Some?
  {
    FirstSomeIsFirst(u, MessageObjectPaths, TopicThreadAt);
  }

  // ---------------------------------------------------------------------
  // Channel of one update and of a batch

  /** `_in_channel_for_update`. */
  function InChannelForUpdate(u: Json): (r: string)
    ensures IsChannel(r) && Root(r) == "telegram"
    ensures ChatId(u).None? ==> r == "telegram"
    ensures ChatId(u).Some? && MessageThreadId(u).None? ==> r == ChatChannel(ChatId(u).value)
    ensures ChatId(u).Some? && MessageThreadId(u).Some? ==>
      r == ThreadChannel(ChatId(u).value, MessageThreadId(u).value)
    ensures ChatId(u).Some? ==> HasPrefix(r, ChatChannel(ChatId(u).value))
  {
    ChannelFor(ChatId(u), MessageThreadId(u))
  }

  /** The channel for an update's chat id and thread id, once both are extracted. */
  function ChannelFor(chat: Option<int>, thread: Option<int>): (r: string)
    ensures IsChannel(r) && Root(r) == "telegram"
    ensures chat.Some? ==> HasPrefix(r, ChatChannel(chat.value))
  {
    match chat
    case None =>
      TelegramIsChannel();
      "telegram"
    case Some(id) =>
      match thread
      case None =>
        ChatChannelShape(id);
        HasPrefixReflexive(ChatChannel(id));
        ChatChannel(id)
      case Some(tid) =>
        ThreadChannelShape(id, tid);
        ThreadChannel(id, tid)
  }

  /** The chat ids of the updates that carry one, in input order. */
  function ChatIdList(us: seq<Json>): (ids: seq<int>)
    ensures forall x :: x in ids <==> exists i :: 0 <= i < |us| && ChatId(us[i]) == Some(x)
  {
    if us == [] then []
    else
      var rest := ChatIdList(us[1..]);
      assert forall i :: 1 <= i < |us| ==> us[i] == us[1..][i - 1];
      assert forall i :: 0 <= i < |us[1..]| ==> us[1..][i] == us[i + 1];
      match ChatId(us[0])
      case None => rest
      case Some(x) => [x] + rest
  }

  /** The updates carrying a chat id carry exactly the one chat id `id` (the id set is `{id}`). */
  predicate SingleChat(us: seq<Json>, id: int)
  {
    && (exists i :: 0 <= i < |us| && ChatId(us[i]) == Some(id))
    && (forall i :: 0 <= i < |us| && ChatId(us[i]).Some? ==> ChatId(us[i]) == Some(id))
  }

  /** The chat channel shared by a batch, if its updates name exactly one chat. */
  function SharedChat(us: seq<Json>): (r: Option<int>)
    ensures r.Some? <==> exists id :: SingleChat(us, id)
    ensures r.Some? ==> SingleChat(us, r.value)
  {
    var ids := ChatIdList(us);
    if ids != [] && forall k :: 0 <= k < |ids| ==> ids[k] == ids[0] then
      assert ids[0] in ids;
      assert forall i :: 0 <= i < |us| && ChatId(us[i]).Some? ==> ChatId(us[i]).value in ids;
      assert SingleChat(us, ids[0]);
      Some(ids[0])
    else
      NoSharedChat(us);
      None
  }

  /** Under a single chat every listed chat id is that chat. */
  lemma ListedIdIsTheChat(us: seq<Json>, id: int, k: nat)
    requires SingleChat(us, id) && k < |ChatIdList(us)|
    ensures ChatIdList(us)[k] == id
  {
    var ids := ChatIdList(us);
    assert ids[k] in ids;
  }

  lemma NoSharedChat(us: seq<Json>)
    requires var ids := ChatIdList(us);
      !(ids != [] && forall k :: 0 <= k < |ids| ==> ids[k] == ids[0])
    ensures forall id :: !SingleChat(us, id)
  {
    var ids := ChatIdList(us);
    forall id | SingleChat(us, id)
      ensures false
    {
      var i :| 0 <= i < |us| && ChatId(us[i]) == Some(id);
      assert id in ids;
      var k :| 0 <= k < |ids| && ids[k] != ids[0];
      ListedIdIsTheChat(us, id, k);
      ListedIdIsTheChat(us, id, 0);
    }
  }

  /** `_in_channel_for_updates`. */
  function InChannelForUpdates(us: seq<Json>): (r: string)
    ensures IsChannel(r) && Root(r) == "telegram"
    ensures |us| == 0 ==> r == "telegram"
    ensures |us| == 1 ==> r == InChannelForUpdate(us[0])
    ensures |us| > 1 && SharedChat(us).Some? ==> r == ChatChannel(SharedChat(us).value)
    ensures |us| > 1 && SharedChat(us).None? ==> r == "telegram"
  {
    if |us| == 0 then
      TelegramIsChannel();
      "telegram"
    else if |us| == 1 then InChannelForUpdate(us[0])
    else SharedChatChannel(us)
  }

  /** The channel of a batch of several updates. */
  function SharedChatChannel(us: seq<Json>): (r: string)
    ensures IsChannel(r) && Root(r) == "telegram"
    ensures SharedChat(us).Some? ==> r == ChatChannel(SharedChat(us).value)
    ensures SharedChat(us).None? ==> r == "telegram"
  {
    match SharedChat(us)
    case None =>
      TelegramIsChannel();
      "telegram"
    case Some(id) =>
      ChatChannelShape(id);
      ChatChannel(id)
  }

  /**
   In a batch of several updates, the batch channel is a prefix-ancestor of
   the channel of every member that carries a chat id.
   */
  lemma BatchChannelIsAncestor(us: seq<Json>, i: nat)
    requires i < |us| && ChatId(us[i]).Some?
    ensures HasPrefix(InChannelForUpdate(us[i]), InChannelForUpdates(us))
  {
    if |us| == 1 {
      SingleMemberBatch(us, i);
    } else if SharedChat(us).None? {
      MixedBatch(us, i);
    } else {
      SharedChatIsAncestor(us, i);
    }
  }

  lemma SingleMemberBatch(us: seq<Json>, i: nat)
    requires |us| == 1 && i < |us|
    ensures HasPrefix(InChannelForUpdate(us[i]), InChannelForUpdates(us))
  {
    assert i == 0;
    assert us[i] == us[0];
    HasPrefixReflexive(InChannelForUpdate(us[0]));
  }

  lemma MixedBatch(us: seq<Json>, i: nat)
    requires |us| > 1 && i < |us| && SharedChat(us).None?
    ensures HasPrefix(InChannelForUpdate(us[i]), InChannelForUpdates(us))
  {
    UnderTelegram(InChannelForUpdate(us[i]));
  }

  lemma SharedChatIsAncestor(us: seq<Json>, i: nat)
    requires i < |us| && |us| > 1 && SharedChat(us).Some? && ChatId(us[i]).Some?
    ensures HasPrefix(InChannelForUpdate(us[i]), InChannelForUpdates(us))
  {
    assert ChatId(us[i]) == Some(SharedChat(us).value);
  }

  // ---------------------------------------------------------------------
  // Events

  /**
   Serialisation of one update: `json.dumps` of the compacted update, or of
   the raw update when compaction is off. Both are opaque here.
   */
  datatype BodyOps = BodyOps(compactUpdate: Json -> Json, dumps: Json -> string)

  function Body(u: Json, compact: bool, ops: BodyOps): string
  {
    ops.dumps(if compact then ops.compactUpdate(u) else u)
  }

  function Bodies(us: seq<Json>, compact: bool, ops: BodyOps): (bs: seq<string>)
    ensures |bs| == |us|
    ensures forall k :: 0 <= k < |us| ==> bs[k] == Body(us[k], compact, ops)
  {
    seq(|us|, k requires 0 <= k < |us| => Body(us[k], compact, ops))
  }

  /** `telegram_updates_to_event`: the batch channel and the bodies joined by newlines. */
  function UpdatesToEvent(us: seq<Json>, compact: bool, ops: BodyOps): (e: Event)
    ensures WellFormed(e) && e.outChannel.None?
    ensures e.inChannel == InChannelForUpdates(us)
    ensures MakeEvent(Some(e.inChannel), None, e.content) == Ok(e)
  {
    var e := Event(InChannelForUpdates(us), None, Join(Bodies(us, compact, ops), "\n"));
    RevalidateIsIdentity(e);
    e
  }

  /** `telegram_update_to_event`: one update, its own channel. */
  function UpdateToEvent(u: Json, compact: bool, ops: BodyOps): (e: Event)
    ensures WellFormed(e) && e.outChannel.None?
    ensures e.inChannel == InChannelForUpdate(u) && e.content == Body(u, compact, ops)
  {
    Event(InChannelForUpdate(u), None, Body(u, compact, ops))
  }

  /** A one-update batch is the single-update event. */
  lemma SingleUpdateBatch(u: Json, compact: bool, ops: BodyOps)
    ensures UpdatesToEvent([u], compact, ops) == UpdateToEvent(u, compact, ops)
  {
  }

  /**
   Minified JSON never contains a raw newline, so splitting a batch event's
   content on newlines recovers the per-update bodies in input order.
   */
  lemma ContentSplitsIntoBodies(us: seq<Json>, compact: bool, ops: BodyOps)
    requires |us| >= 1
    requires forall k :: 0 <= k < |us| ==> '\n' !in Body(us[k], compact, ops)
    ensures Split(UpdatesToEvent(us, compact, ops).content, '\n') == Bodies(us, compact, ops)
  {
    SplitJoin(Bodies(us, compact, ops), '\n');
  }
}
