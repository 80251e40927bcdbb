/**
 Telegram update helpers shared by the starters
 (collections/src/kapy_collections/starters/telegram/compact.py and the
 legacy core/src/k/starters/telegram.py): nested field extraction, the
 supergroup watchlist expansion, de-duplication against the update cursor,
 the time window, grouping by chat id, the forum-topic filter, trigger
 evaluation and user compaction.
 */
module TgUpdates {
  import opened Wrappers
  import opened PyStr
  import opened Json
  import opened Seqs

  /**
   The operations the model leaves uninterpreted: Unicode `casefold` and
   `json.dumps(update, ensure_ascii=False)`.
   */
  datatype TextOps = TextOps(fold: string -> string, dumps: Json -> string)

  // ---------------------------------------------------------------------
  // Nested extraction

  type Path = seq<string>

  /**
   Follow `path` through nested objects. A non-object on the way ends the
   walk with None; a missing key reads as null, which the next step or the
   final type test then rejects.
   */
  function Walk(v: Json, path: Path): Option<Json>
    decreases |path|
  {
    if path == [] then Some(v)
    else if !v.JObj? then None
    else Walk(GetOrNull(v, path[0]), path[1..])
  }

  /** `_extract_nested_int`. */
  function NestedInt(v: Json, path: Path): Option<int>
  {
    match Walk(v, path)
    case Some(JInt(i)) => Some(i)
    case _ => None
  }

  /** `_extract_nested_str`. */
  function NestedStr(v: Json, path: Path): Option<string>
  {
    match Walk(v, path)
    case Some(JStr(s)) => Some(s)
    case _ => None
  }

  /** `_extract_nested_dict`. */
  function NestedObj(v: Json, path: Path): Option<Json>
  {
    match Walk(v, path)
    case Some(JObj(f)) => Some(JObj(f))
    case _ => None
  }

  /** `_extract_first_int` / `_extract_first_str`: the value at the first path that yields one. */
  function FirstSome<A>(v: Json, paths: seq<Path>, get: (Json, Path) -> Option<A>): Option<A>
  {
    if |paths| == 0 then None
    else match get(v, paths[0])
      case Some(x) => Some(x)
      case None => FirstSome(v, paths[1..], get)
  }

  /** The value found comes from the first path that yields one; None means no path yields one. */
  lemma {:induction false} FirstSomeIsFirst<A>(v: Json, paths: seq<Path>, get: (Json, Path) -> Option<A>)
    ensures var r := FirstSome(v, paths, get);
      r.Some? ==>
        exists k :: 0 <= k < |paths| && get(v, paths[k]) == r &&
          forall j :: 0 <= j < k ==> get(v, paths[j]).None?
    ensures FirstSome(v, paths, get).None? <==> forall k :: 0 <= k < |paths| ==> get(v, paths[k]).None?
  {
    if |paths| > 0 && get(v, paths[0]).None? {
      FirstSomeIsFirst(v, paths[1..], get);
      var r := FirstSome(v, paths[1..], get);
      if r.Some? {
        var k :| 0 <= k < |paths[1..]| && get(v, paths[1..][k]) == r &&
          forall j :: 0 <= j < k ==> get(v, paths[1..][j]).None?;
        assert get(v, paths[k + 1]) == r;
        assert forall j :: 0 <= j < k + 1 ==> get(v, paths[j]).None? by {
          forall j | 0 <= j < k + 1
            ensures get(v, paths[j]).None?
          {
            if j > 0 {
              assert paths[j] == paths[1..][j - 1];
            }
          }
        }
      } else {
        forall k | 0 <= k < |paths|
          ensures get(v, paths[k]).None?
        {
          if k > 0 {
            assert paths[k] == paths[1..][k - 1];
          }
        }
      }
    }
  }

  const DatePaths: seq<Path> := [
    ["message", "date"], ["edited_message", "date"], ["channel_post", "date"],
    ["edited_channel_post", "date"], ["callback_query", "message", "date"],
    ["my_chat_member", "date"], ["chat_member", "date"], ["chat_join_request", "date"],
    ["business_message", "date"], ["edited_business_message", "date"]]

  const KeywordTextPaths: seq<Path> := [
    ["message", "text"], ["edited_message", "text"], ["channel_post", "text"],
    ["edited_channel_post", "text"], ["message", "caption"], ["edited_message", "caption"],
    ["channel_post", "caption"], ["edited_channel_post", "caption"],
    ["callback_query", "data"], ["inline_query", "query"]]

  const ChatIdPaths: seq<Path> := [
    ["message", "chat", "id"], ["edited_message", "chat", "id"], ["channel_post", "chat", "id"],
    ["edited_channel_post", "chat", "id"], ["callback_query", "message", "chat", "id"],
    ["my_chat_member", "chat", "id"], ["chat_member", "chat", "id"],
    ["chat_join_request", "chat", "id"], ["business_message", "chat", "id"],
    ["edited_business_message", "chat", "id"]]

  const ChatTypePaths: seq<Path> := [
    ["message", "chat", "type"], ["edited_message", "chat", "type"], ["channel_post", "chat", "type"],
    ["edited_channel_post", "chat", "type"], ["callback_query", "message", "chat", "type"],
    ["my_chat_member", "chat", "type"], ["chat_member", "chat", "type"],
    ["chat_join_request", "chat", "type"], ["business_message", "chat", "type"],
    ["edited_business_message", "chat", "type"]]

  const ReplyFromIdPaths: seq<Path> := [
    ["message", "reply_to_message", "from", "id"], ["edited_message", "reply_to_message", "from", "id"]]

  const ReplyFromUsernamePaths: seq<Path> := [
    ["message", "reply_to_message", "from", "username"],
    ["edited_message", "reply_to_message", "from", "username"]]

  const ForumTopicPaths: seq<Path> := [
    ["message", "forum_topic_created"], ["edited_message", "forum_topic_created"],
    ["channel_post", "forum_topic_created"], ["edited_channel_post", "forum_topic_created"],
    ["callback_query", "message", "forum_topic_created"],
    ["business_message", "forum_topic_created"], ["edited_business_message", "forum_topic_created"]]

  /** `extract_update_id`. */
  function UpdateId(u: Json): Option<int>
  {
    GetInt(u, "update_id")
  }

  /** `extract_update_date_unix_seconds`. */
  function DateOf(u: Json): Option<int>
  {
    FirstSome(u, DatePaths, NestedInt)
  }

  /** `extract_chat_id`. */
  function ChatId(u: Json): Option<int>
  {
    FirstSome(u, ChatIdPaths, NestedInt)
  }

  /** `extract_chat_type`. */
  function ChatType(u: Json): Option<string>
  {
    FirstSome(u, ChatTypePaths, NestedStr)
  }

  /** The first text-bearing field used for keyword and mention tests. */
  function KeywordText(u: Json): Option<string>
  {
    FirstSome(u, KeywordTextPaths, NestedStr)
  }

  // ---------------------------------------------------------------------
  // Supergroup watchlist expansion

  /** Both halves of a decimal string: the value of `a + b` from the values of `a` and `b`. */
  lemma {:induction false} DigitsConcat(a: string, b: string)
    requires AllDigits(a) && AllDigits(b)
    ensures AllDigits(a + b)
    ensures DigitsValue(a + b) == DigitsValue(a) * Pow10(|b|) + DigitsValue(b)
    decreases |b|
  {
    if |b| == 0 {
      assert a + b == a;
    } else {
      var init := b[..|b| - 1];
      var c := b[|b| - 1];
      DigitsConcat(a, init);
      assert a + b == (a + init) + [c];
      DigitsValueSnoc(a + init, c);
      assert b == init + [c];
      DigitsValueSnoc(init, c);
      var va, vi, p := DigitsValue(a), DigitsValue(init), Pow10(|init|);
      assert DigitsValue(a + b) == 10 * (va * p + vi) + DigitValue(c);
      assert Pow10(|b|) == 10 * p;
      ShiftDigit(va, p, vi, DigitValue(c));
    }
  }

  lemma ShiftDigit(va: int, p: int, vi: int, d: int)
    ensures 10 * (va * p + vi) + d == va * (10 * p) + (10 * vi + d)
  {
  }

  /** A digit string without a leading zero has a positive value. */
  lemma {:induction false} LeadingDigitPositive(s: string)
    requires AllDigits(s) && |s| >= 1 && s[0] != '0'
    ensures DigitsValue(s) >= 1
  {
    if |s| > 1 {
      LeadingDigitPositive(s[..|s| - 1]);
    }
  }

  /** `str(int(s))` gives back `s` when `s` has no leading zero. */
  lemma {:induction false} CanonicalDigits(s: string)
    requires AllDigits(s) && |s| >= 1 && (|s| > 1 ==> s[0] != '0')
    ensures NatToDigits(DigitsValue(s)) == s
  {
    if |s| > 1 {
      var init := s[..|s| - 1];
      CanonicalDigits(init);
      LeadingDigitPositive(init);
      assert s == init + [s[|s| - 1]];
    }
  }

  /** The digit string "100" that marks the long supergroup form. */
  const SupergroupPrefix: string := "100"

  /** Whether the decimal digits of `-c` have the long `100...` form with something after it. */
  predicate LongForm(c: int)
    requires c < 0
  {
    var d := NatToDigits(-c);
    |d| > 3 && d[..3] == SupergroupPrefix
  }

  /**
   The id `_expand_chat_id_watchlist` adds for a negative chat id: the long
   form loses its "100" digits, any other id gains them.
   */
  function Partner(c: int): (p: int)
    requires c < 0
    ensures p <= 0
    ensures LongForm(c) ==> -c == 100 * Pow10(|NatToDigits(-c)| - 3) + -p
    ensures !LongForm(c) ==> -p == 100 * Pow10(|NatToDigits(-c)|) + -c
  {
    var d := NatToDigits(-c);
    assert AllDigits(SupergroupPrefix);
    assert DigitsValue(SupergroupPrefix) == 100 by {
      DigitsValueSnoc("1", '0');
      assert "1" + "0" == "10";
      DigitsValueSnoc("10", '0');
      assert "10" + "0" == SupergroupPrefix;
    }
    if |d| > 3 && d[..3] == SupergroupPrefix then
      assert d == d[..3] + d[3..];
      DigitsConcat(d[..3], d[3..]);
      0 - DigitsValue(d[3..]) as int
    else
      DigitsConcat(SupergroupPrefix, d);
      0 - DigitsValue(SupergroupPrefix + d) as int
  }

  /** Going from the short form to the long one and back returns the original id. */
  lemma PartnerRoundTrip(c: int)
    requires c < 0 && !LongForm(c)
    ensures Partner(c) < 0 && LongForm(Partner(c)) && Partner(Partner(c)) == c
  {
    var d := NatToDigits(-c);
    ShortPartnerDigits(c);
    var long := SupergroupPrefix + d;
    assert long[..3] == SupergroupPrefix && long[3..] == d;
  }

  /** The partner of a short-form id is negative and its digits are "100" before the original digits. */
  lemma ShortPartnerDigits(c: int)
    requires c < 0 && !LongForm(c)
    ensures Partner(c) < 0 && NatToDigits(-Partner(c)) == SupergroupPrefix + NatToDigits(-c)
  {
    var long := SupergroupPrefix + NatToDigits(-c);
    assert AllDigits(long);
    CanonicalDigits(long);
    LeadingDigitPositive(long);
  }

  /** Every id the expansion adds. */
  function Partners(chatIds: set<int>): set<int>
  {
    set c | c in chatIds && c < 0 :: Partner(c)
  }

  /** `_expand_chat_id_watchlist`: the watchlist plus the partner of each negative id. */
  method ExpandWatchlist(chatIds: set<int>) returns (r: set<int>)
    ensures r == chatIds + Partners(chatIds)
    ensures chatIds <= r
  {
    r := chatIds;
    var todo := chatIds;
    while |todo| > 0
      invariant todo <= chatIds
      invariant r == chatIds + Partners(chatIds - todo)
      decreases |todo|
    {
      NonEmptyHasElement(todo);
      var c :| c in todo;
      PartnersAdd(chatIds, todo, c);
      if c < 0 {
        r := r + {Partner(c)};
      }
      todo := todo - {c};
    }
    assert chatIds - todo == chatIds;
  }

  /** A non-empty set of ids has an element (the witness for picking one in the loop). */
  lemma NonEmptyHasElement(s: set<int>)
    requires s != {}
    ensures exists x :: x in s
  {
    if forall x :: x !in s {
      assert false;
    }
  }

  lemma PartnersAdd(chatIds: set<int>, todo: set<int>, c: int)
    requires c in todo && todo <= chatIds
    ensures Partners(chatIds - (todo - {c})) == Partners(chatIds - todo) + (if c < 0 then {Partner(c)} else {})
  {
    assert chatIds - (todo - {c}) == (chatIds - todo) + {c};
  }

  /** A watchlist of non-negative ids is not expanded. */
  lemma NonNegativeWatchlistUnchanged(chatIds: set<int>)
    requires forall c :: c in chatIds ==> c >= 0
    ensures chatIds + Partners(chatIds) == chatIds
  {
    assert Partners(chatIds) == {};
  }

  /** Expansion reaches both forms: the partner of a short-form id expands back to it. */
  lemma ExpansionIsSymmetric(c: int)
    requires c < 0 && !LongForm(c)
    ensures c in Partners({Partner(c)}) && Partner(c) in Partners({c})
  {
    PartnerRoundTrip(c);
  }

  // ---------------------------------------------------------------------
  // De-duplication against the cursor

  predicate PastCursor(id: int, cursor: Option<int>)
  {
    cursor.None? || id > cursor.value
  }

  /** `filter_unseen_updates`: the first update of each id past the cursor, in input order. */
  method FilterUnseen(updates: seq<Json>, cursor: Option<int>) returns (res: seq<Json>)
    ensures res == FirstOccurrences(updates, UpdateId, id => PastCursor(id, cursor))
  {
    res := FirstOccurrencesLoop(updates, UpdateId, id => PastCursor(id, cursor));
  }

  /**
   What the de-duplication keeps: updates of the input with an int id past
   the cursor, no id twice, and every such id of the input represented.
   */
  lemma UnseenMeaning(updates: seq<Json>, cursor: Option<int>, i: nat)
    requires i < |updates| && UpdateId(updates[i]).Some? && PastCursor(UpdateId(updates[i]).value, cursor)
    ensures var r := FirstOccurrences(updates, UpdateId, id => PastCursor(id, cursor));
      && (forall k :: 0 <= k < |r| ==> r[k] in updates && UpdateId(r[k]).Some? && PastCursor(UpdateId(r[k]).value, cursor))
      && (forall k, l :: 0 <= k < l < |r| ==> UpdateId(r[k]) != UpdateId(r[l]))
      && (exists k :: 0 <= k < |r| && UpdateId(r[k]) == UpdateId(updates[i]))
  {
    FirstOccurrencesDistinct(updates, UpdateId, id => PastCursor(id, cursor));
    FirstOccurrencesKeepEveryKey(updates, UpdateId, id => PastCursor(id, cursor), i);
  }

  // ---------------------------------------------------------------------
  // Time window

  /** Undated updates are kept; dated ones when they are at most `window` seconds old. */
  predicate InWindow(u: Json, now: int, window: int)
  {
    DateOf(u).None? || now - DateOf(u).value <= window
  }

  /** `filter_updates_in_time_window`. */
  method FilterTimeWindow(updates: seq<Json>, now: int, window: int) returns (r: Outcome<seq<Json>>)
    ensures r.Fail? <==> window < 0
    ensures r.Fail? ==> r.exc == ValueError
    ensures r.Ok? ==> r.value == Filter(updates, u => InWindow(u, now, window))
  {
    if window < 0 {
      return Fail(ValueError);
    }
    var kept := FilterLoop(updates, u => InWindow(u, now, window));
    return Ok(kept);
  }

  /** A wider window keeps every update a narrower one keeps, and undated updates always survive. */
  lemma WiderWindowKeepsMore(updates: seq<Json>, now: int, narrow: int, wide: int, u: Json)
    requires narrow <= wide
    ensures u in Filter(updates, v => InWindow(v, now, narrow)) ==> u in Filter(updates, v => InWindow(v, now, wide))
    ensures u in updates && DateOf(u).None? ==> u in Filter(updates, v => InWindow(v, now, narrow))
  {
    FilterMembers(updates, v => InWindow(v, now, narrow), u);
    FilterMembers(updates, v => InWindow(v, now, wide), u);
  }

  // ---------------------------------------------------------------------
  // Forum-topic service messages

  /** `update_is_forum_topic_created`: some message-like payload carries a `forum_topic_created` object. */
  predicate IsForumTopicCreated(u: Json)
  {
    exists k :: 0 <= k < |ForumTopicPaths| && NestedObj(u, ForumTopicPaths[k]).Some?
  }

  /** `filter_non_forum_topic_created_updates`: the kept updates and the number dropped. */
  method FilterForumTopicCreated(updates: seq<Json>) returns (kept: seq<Json>, dropped: nat)
    ensures kept == Filter(updates, u => !IsForumTopicCreated(u))
    ensures forall k :: 0 <= k < |kept| ==> !IsForumTopicCreated(kept[k])
    ensures |kept| + dropped == |updates|
  {
    kept, dropped := DropCounting(updates, u => !IsForumTopicCreated(u));
  }

  // ---------------------------------------------------------------------
  // Grouping by chat id

  /** Whether an update passes the optional allow-list: its chat id must be present and listed. */
  predicate Admitted(u: Json, allow: Option<set<int>>)
  {
    allow.None? || (ChatId(u).Some? && ChatId(u).value in allow.value)
  }

  /** `group_updates_by_chat_id`: each admitted update appended to the list of its chat id. */
  method GroupByChatId(updates: seq<Json>, allow: Option<set<int>>) returns (grouped: map<Option<int>, seq<Json>>)
    ensures IsGrouping(grouped, updates, u => Admitted(u, allow), ChatId)
  {
    grouped := GroupBy(updates, u => Admitted(u, allow), ChatId);
  }

  /** Each update sits in exactly the group of its own chat id, and without an allow-list every update is grouped. */
  lemma GroupMembership(updates: seq<Json>, allow: Option<set<int>>, key: Option<int>, u: Json)
    ensures u in Bucket(updates, v => Admitted(v, allow), ChatId, key) <==>
      u in updates && Admitted(u, allow) && ChatId(u) == key
    ensures allow.None? && u in updates ==> u in Bucket(updates, v => Admitted(v, allow), ChatId, ChatId(u))
  {
    BucketMembership(updates, v => Admitted(v, allow), ChatId, key, u);
    BucketMembership(updates, v => Admitted(v, allow), ChatId, ChatId(u), u);
  }

  /** With an allow-list, chat-less updates and unlisted chats get no group. */
  lemma AllowListDropsUnlisted(updates: seq<Json>, allowed: set<int>, key: Option<int>)
    requires key.None? || key.value !in allowed
    ensures Bucket(updates, v => Admitted(v, Some(allowed)), ChatId, key) == []
  {
    var b := Bucket(updates, v => Admitted(v, Some(allowed)), ChatId, key);
    if b != [] {
      BucketMembership(updates, v => Admitted(v, Some(allowed)), ChatId, key, b[0]);
    }
  }

  // ---------------------------------------------------------------------
  // Triggers

  datatype TriggerConfig = TriggerConfig(keyword: string, botId: Option<int>, botUsername: Option<string>)

  /** The text searched for the keyword: the first text field, else the update's JSON text. */
  function SearchText(u: Json, ops: TextOps): string
  {
    match KeywordText(u)
    case Some(t) => t
    case None => ops.dumps(u)
  }

  /** `update_matches_keyword`. */
  predicate MatchesKeyword(u: Json, keyword: string, ops: TextOps)
  {
    var kw := Strip(keyword);
    kw != [] && Contains(ops.fold(SearchText(u, ops)), ops.fold(kw))
  }

  /** A whitespace-only keyword never matches, and surrounding whitespace is irrelevant. */
  lemma KeywordIgnoresWhitespace(u: Json, keyword: string, ops: TextOps)
    ensures AllSpace(keyword) ==> !MatchesKeyword(u, keyword, ops)
    ensures MatchesKeyword(u, Strip(keyword), ops) == MatchesKeyword(u, keyword, ops)
  {
    StripEmptyIffAllSpace(keyword);
    StripIdempotent(keyword);
  }

  /** `update_is_private_chat`. */
  predicate IsPrivateChat(u: Json)
  {
    ChatType(u) == Some("private")
  }

  predicate NonEmptyName(name: Option<string>)
  {
    name.Some? && name.value != []
  }

  /** `update_mentions_bot`: `@<username>` occurs in the first text field, compared case-insensitively. */
  predicate MentionsBot(u: Json, botUsername: Option<string>, ops: TextOps)
  {
    NonEmptyName(botUsername) && KeywordText(u).Some? &&
    Contains(ops.fold(KeywordText(u).value), ops.fold("@" + botUsername.value))
  }

  /** `update_is_reply_to_bot`: by the replied-to sender's id, else by username. */
  predicate RepliesToBot(u: Json, botId: Option<int>, botUsername: Option<string>, ops: TextOps)
  {
    var fromId := FirstSome(u, ReplyFromIdPaths, NestedInt);
    var fromName := FirstSome(u, ReplyFromUsernamePaths, NestedStr);
    (botId.Some? && fromId == botId) ||
    (NonEmptyName(botUsername) && NonEmptyName(fromName) && ops.fold(fromName.value) == ops.fold(botUsername.value))
  }

  /** One update triggers when any of the four conditions holds. */
  predicate Triggers(u: Json, cfg: TriggerConfig, ops: TextOps)
  {
    MatchesKeyword(u, cfg.keyword, ops) || IsPrivateChat(u) ||
    MentionsBot(u, cfg.botUsername, ops) || RepliesToBot(u, cfg.botId, cfg.botUsername, ops)
  }

  /** Whether some update of `us` satisfies `p` (Python's `any`, and the early-exit loops). */
  function AnyUpdate(us: seq<Json>, p: Json -> bool): (r: bool)
    ensures r <==> exists i :: 0 <= i < |us| && p(us[i])
  {
    if |us| == 0 then false
    else
      var rest := AnyUpdate(us[1..], p);
      assert forall i :: 1 <= i < |us| ==> us[i] == us[1..][i - 1];
      p(us[0]) || rest
  }

  /** `chat_group_is_triggered`: the loop returns at the first triggering update. */
  function GroupIsTriggered(us: seq<Json>, cfg: TriggerConfig, ops: TextOps): bool
  {
    AnyUpdate(us, u => Triggers(u, cfg, ops))
  }

  datatype TriggerFlags = TriggerFlags(keyword: bool, private: bool, mention: bool, reply: bool)

  /** `trigger_flags_for_updates`. */
  function TriggerFlagsFor(us: seq<Json>, cfg: TriggerConfig, ops: TextOps): TriggerFlags
  {
    TriggerFlags(
      AnyUpdate(us, u => MatchesKeyword(u, cfg.keyword, ops)),
      AnyUpdate(us, u => IsPrivateChat(u)),
      AnyUpdate(us, u => MentionsBot(u, cfg.botUsername, ops)),
      AnyUpdate(us, u => RepliesToBot(u, cfg.botId, cfg.botUsername, ops)))
  }

  /** The reported flags agree with the trigger decision: some flag is set iff the group triggers. */
  lemma FlagsExplainTrigger(us: seq<Json>, cfg: TriggerConfig, ops: TextOps)
    ensures var f := TriggerFlagsFor(us, cfg, ops);
      GroupIsTriggered(us, cfg, ops) <==> f.keyword || f.private || f.mention || f.reply
  {
  }

  /** Whether an update is considered for triggering under the optional watchlist. */
  predicate Watched(u: Json, chatIds: Option<set<int>>)
  {
    chatIds.None? || (ChatId(u).Some? && ChatId(u).value in chatIds.value)
  }

  /** Some update of the batch is watched and triggers. */
  predicate WatchedTrigger(updates: seq<Json>, cfg: TriggerConfig, chatIds: Option<set<int>>, ops: TextOps)
  {
    exists i :: 0 <= i < |updates| && Watched(updates[i], chatIds) && Triggers(updates[i], cfg, ops)
  }

  lemma WatchedTriggerIffFilteredTriggers(updates: seq<Json>, cfg: TriggerConfig, chatIds: Option<set<int>>, ops: TextOps)
    ensures GroupIsTriggered(Filter(updates, u => Watched(u, chatIds)), cfg, ops) <==> WatchedTrigger(updates, cfg, chatIds, ops)
  {
    var t := Filter(updates, u => Watched(u, chatIds));
    if GroupIsTriggered(t, cfg, ops) {
      var k :| 0 <= k < |t| && Triggers(t[k], cfg, ops);
      FilterMembers(updates, u => Watched(u, chatIds), t[k]);
      var i :| 0 <= i < |updates| && updates[i] == t[k];
    }
    if WatchedTrigger(updates, cfg, chatIds, ops) {
      var i :| 0 <= i < |updates| && Watched(updates[i], chatIds) && Triggers(updates[i], cfg, ops);
      FilterMembers(updates, u => Watched(u, chatIds), updates[i]);
      var k :| 0 <= k < |t| && t[k] == updates[i];
    }
  }

  /**
   `dispatch_groups_for_batch`: None unless some watched update triggers;
   otherwise every update of the batch grouped by chat id, watched or not.
   */
  method DispatchGroups(updates: seq<Json>, cfg: TriggerConfig, chatIds: Option<set<int>>, ops: TextOps)
    returns (r: Option<map<Option<int>, seq<Json>>>)
    ensures r.Some? <==> WatchedTrigger(updates, cfg, chatIds, ops)
    ensures r.Some? ==> IsGrouping(r.value, updates, u => Admitted(u, None), ChatId) && r.value != map[]
    ensures r.Some? ==> forall i :: 0 <= i < |updates| ==> ChatId(updates[i]) in r.value && updates[i] in r.value[ChatId(updates[i])]
    ensures r.Some? ==> forall k, u :: k in r.value && u in r.value[k] ==> u in updates && ChatId(u) == k
  {
    var triggerUpdates := Filter(updates, u => Watched(u, chatIds));
    WatchedTriggerIffFilteredTriggers(updates, cfg, chatIds, ops);
    if |triggerUpdates| == 0 {
      return None;
    }
    if !GroupIsTriggered(triggerUpdates, cfg, ops) {
      return None;
    }
    var grouped := GroupByChatId(updates, None);
    var i :| 0 <= i < |updates| && Watched(updates[i], chatIds) && Triggers(updates[i], cfg, ops);
    GroupMembership(updates, None, ChatId(updates[i]), updates[i]);
    assert ChatId(updates[i]) in grouped;
    forall j | 0 <= j < |updates|
      ensures ChatId(updates[j]) in grouped && updates[j] in grouped[ChatId(updates[j])]
    {
      GroupMembership(updates, None, ChatId(updates[j]), updates[j]);
    }
    forall k, u | k in grouped && u in grouped[k]
      ensures u in updates && ChatId(u) == k
    {
      GroupMembership(updates, None, k, u);
    }
    return Some(grouped);
  }

  // ---------------------------------------------------------------------
  // User compaction

  /** The name built from optional first and last names: one space only between two non-empty parts. */
  function JoinName(first: Json, last: Json): Option<string>
  {
    if !first.JStr? && !last.JStr? then None
    else
      var f := if first.JStr? then first.s else "";
      var l := if last.JStr? then last.s else "";
      var name := Strip(f + (if f != [] && l != [] then " " else "") + l);
      if name != [] then Some(name) else None
  }

  /** `out[key] = value` on an object whose first key differs from `key` keeps that first field. */
  function SetAfterFirst(out: Json, key: string, value: Json): (r: Json)
    requires out.JObj? && |out.fields| >= 1 && out.fields[0].0 != key
    ensures r.JObj? && |r.fields| >= 1 && r.fields[0] == out.fields[0]
    ensures Get(r, key) == Some(value)
    ensures forall k :: k != key ==> Get(r, k) == Get(out, k)
  {
    Set(out, key, value)
  }

  /** The username field `_compact_user` emits: only a non-empty string. */
  function UsernameOf(user: Json): Option<Json>
  {
    match GetStr(user, "username")
    case Some(u) => if u != [] then Some(JStr(u)) else None
    case None => None
  }

  /** The name field `_compact_user` emits. */
  function NameOf(user: Json): Option<Json>
  {
    match JoinName(GetOrNull(user, "first_name"), GetOrNull(user, "last_name"))
    case Some(n) => Some(JStr(n))
    case None => None
  }

  /** Add a field when there is one to add. */
  function SetIfSome(out: Json, key: string, value: Option<Json>): (r: Json)
    requires out.JObj? && |out.fields| >= 1 && out.fields[0].0 != key
    ensures r.JObj? && |r.fields| >= 1 && r.fields[0] == out.fields[0]
    ensures Get(r, key) == if value.Some? then value else Get(out, key)
    ensures forall k :: k != key ==> Get(r, k) == Get(out, k)
  {
    if value.Some? then SetAfterFirst(out, key, value.value) else out
  }

  /**
   `_compact_user`: None without an int id; otherwise `id` first, then a
   non-empty username, then the joined name when it is not blank.
   */
  function CompactUser(user: Json): (r: Option<Json>)
    ensures r.Some? <==> GetInt(user, "id").Some?
    ensures r.Some? ==> r.value.JObj? && |r.value.fields| >= 1 && r.value.fields[0] == ("id", JInt(GetInt(user, "id").value))
    ensures r.Some? ==> Get(r.value, "username") == UsernameOf(user)
    ensures r.Some? ==> Get(r.value, "name") == NameOf(user)
    ensures r.Some? ==> forall k :: k != "id" && k != "username" && k != "name" ==> Get(r.value, k).None?
  {
    match GetInt(user, "id")
    case None => None
    case Some(id) =>
      assert "username" != "id" && "name" != "id" && "name" != "username" by {
        assert "username"[0] != "id"[0] && "name"[0] != "id"[0] && |"name"| != |"username"|;
      }
      Some(FirstThenTwo("id", JInt(id), "username", UsernameOf(user), "name", NameOf(user)))
  }

  /** An object with `k0` first, then `k1` and `k2` each when it has a value, and no other key. */
  function FirstThenTwo(k0: string, v0: Json, k1: string, o1: Option<Json>, k2: string, o2: Option<Json>): (r: Json)
    requires k0 != k1 && k0 != k2 && k1 != k2
    ensures r.JObj? && |r.fields| >= 1 && r.fields[0] == (k0, v0)
    ensures Get(r, k1) == o1 && Get(r, k2) == o2
    ensures forall k :: k != k0 && k != k1 && k != k2 ==> Get(r, k).None?
  {
    var out := JObj([(k0, v0)]);
    assert forall k :: k != k0 ==> Get(out, k).None?;
    SetIfSome(SetIfSome(out, k1, o1), k2, o2)
  }

  /** Two plain names are joined with exactly one space. */
  lemma CompactUserJoinsNames(first: string, last: string)
    requires first != [] && last != [] && !IsSpace(first[0]) && !IsSpace(last[|last| - 1])
    ensures JoinName(JStr(first), JStr(last)) == Some(first + " " + last)
  {
    var joined := first + " " + last;
    assert joined[0] == first[0];
    assert joined[|joined| - 1] == last[|last| - 1];
    assert LStrip(joined) == joined;
    assert RStrip(joined) == joined;
  }

  // ---------------------------------------------------------------------
  // Update compaction

  predicate DistinctKeys(fields: seq<(string, Json)>)
  {
    forall i, j :: 0 <= i < j < |fields| ==> fields[i].0 != fields[j].0
  }

  /** The compacted fields other than `update_id`, in input order. */
  function CompactFields(fields: seq<(string, Json)>, compact: (string, Json) -> Option<Json>): (r: seq<(string, Json)>)
    requires DistinctKeys(fields)
    ensures forall k :: k != "update_id" ==>
      Lookup(r, k) == (match Lookup(fields, k) case Some(v) => compact(k, v) case None => None)
    ensures Lookup(r, "update_id").None?
    ensures DistinctKeys(r)
  {
    if |fields| == 0 then []
    else
      var rest := CompactFields(fields[1..], compact);
      var (k, v) := fields[0];
      assert forall j :: 1 <= j < |fields| ==> fields[j].0 != k;
      assert Lookup(fields[1..], k).None?;
      if k == "update_id" then rest
      else match compact(k, v)
        case Some(c) =>
          assert Lookup(rest, k).None?;
          [(k, c)] + rest
        case None => rest
  }

  /**
   `_compact_telegram_update` with the per-key compactors as a parameter:
   `update_id` first when it is an int, then each other key whose compaction
   is not None, in input order.
   */
  function CompactUpdate(u: Json, compact: (string, Json) -> Option<Json>): (r: Json)
    requires u.JObj? && DistinctKeys(u.fields)
    ensures r.JObj?
    ensures Get(r, "update_id") == (match UpdateId(u) case Some(id) => Some(JInt(id)) case None => None)
    ensures UpdateId(u).Some? ==> r.fields[0] == ("update_id", JInt(UpdateId(u).value))
    ensures forall k :: k != "update_id" ==>
      Get(r, k) == (match Get(u, k) case Some(v) => compact(k, v) case None => None)
  {
    var rest := CompactFields(u.fields, compact);
    match UpdateId(u)
    case Some(id) => JObj([("update_id", JInt(id))] + rest)
    case None => JObj(rest)
  }
}
