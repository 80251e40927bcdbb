/**
 The two command-line helpers of the Telegram messenger skill that read a
 saved `getUpdates` dump: `list_messages.py` lists and filters the messages
 in it, `extract_update.py` picks out whole updates. Reading the file, the
 JSON decoding and the printing are left to the caller; the model starts
 from the decoded payload and ends with the selected values and the exit
 status.
 */
module TgCli {
  import opened Wrappers
  import opened PyStr
  import opened Json
  import opened Seqs
  import opened Sorting

  // ---------------------------------------------------------------------
  // The dump

  /** The message kinds looked at by default, and the default `--kind` argument that lists them. */
  const DefaultKindNames: seq<string> := ["message", "edited_message", "channel_post", "edited_channel_post"]
  const DefaultKinds: string := Join(DefaultKindNames, ",")

  /** `[k.strip() for k in args.kind.split(",") if k.strip()]`. */
  function Kinds(arg: string): (ks: seq<string>)
    ensures forall i :: 0 <= i < |ks| ==> IsTrimmed(ks[i])
  {
    StrippedParts(arg, ',')
  }

  /** The default argument names the four message kinds, in this order. */
  lemma DefaultKindList()
    ensures Kinds(DefaultKinds) == DefaultKindNames
  {
    var ks := DefaultKindNames;
    forall i | 0 <= i < |ks|
      ensures IsTrimmed(ks[i]) && ',' !in ks[i]
    {
      assert ks[i][0] in "mec" && ks[i][|ks[i]| - 1] in "eto";
    }
    StrippedPartsJoin(ks, ',');
  }

  predicate IsObject(v: Json)
  {
    v.JObj?
  }

  /** `_iter_updates`: the dict entries of the payload's "result" list; any other "result" yields nothing. */
  function DumpUpdates(payload: Json): (us: seq<Json>)
    requires payload.JObj?
    ensures forall i :: 0 <= i < |us| ==> us[i].JObj?
  {
    match Get(payload, "result")
    case Some(JArr(items)) => Filter(items, IsObject)
    case _ => []
  }

  /** The updates of a dump are exactly the dicts in its "result" list. */
  lemma DumpUpdatesMembers(payload: Json, u: Json)
    requires payload.JObj?
    ensures u in DumpUpdates(payload)
        <==> (Get(payload, "result").Some? && Get(payload, "result").value.JArr?
              && u in Get(payload, "result").value.items && u.JObj?)
  {
    match Get(payload, "result")
    case Some(JArr(items)) => FilterMembers(items, IsObject, u);
    case _ =>
  }

  /** A value when it is a dict, nothing otherwise. */
  function ObjectOrNothing(v: Json): (r: seq<Json>)
  {
    if v.JObj? then [v] else []
  }

  /** The dict values of `u` under the given kinds, in kind order. */
  function KindMessages(u: Json, kinds: seq<string>): (ms: seq<Json>)
    ensures |ms| <= |kinds|
    ensures forall i :: 0 <= i < |ms| ==> ms[i].JObj?
  {
    if kinds == [] then []
    else KindMessages(u, kinds[..|kinds| - 1]) + ObjectOrNothing(GetOrNull(u, kinds[|kinds| - 1]))
  }

  /** `_iter_messages`: per update in order, the dict values of the requested kinds in kind order. */
  function IterMessages(updates: seq<Json>, kinds: seq<string>): (ms: seq<Json>)
    ensures forall i :: 0 <= i < |ms| ==> ms[i].JObj?
  {
    if updates == [] then []
    else IterMessages(updates[..|updates| - 1], kinds) + KindMessages(updates[|updates| - 1], kinds)
  }

  /** A value comes out of one update exactly when it is a dict stored under one of the kinds. */
  lemma {:induction false} KindMessagesMembers(u: Json, kinds: seq<string>, m: Json)
    ensures m in KindMessages(u, kinds) <==> m.JObj? && StoredIn([u], kinds, GetOrNull, m)
  {
    if kinds != [] {
      KindMessagesMembers(u, kinds[..|kinds| - 1], m);
      StoredInKeySnoc(u, kinds, GetOrNull, m);
    }
  }

  /** A message is listed exactly when it is a dict stored under a requested kind of some update. */
  lemma {:induction false} IterMessagesMembers(updates: seq<Json>, kinds: seq<string>, m: Json)
    ensures m in IterMessages(updates, kinds) <==> m.JObj? && StoredIn(updates, kinds, GetOrNull, m)
  {
    if updates != [] {
      var init, u := updates[..|updates| - 1], updates[|updates| - 1];
      IterMessagesMembers(init, kinds, m);
      KindMessagesMembers(u, kinds, m);
      StoredInSnoc(updates, kinds, GetOrNull, m);
    }
  }

  /** `m` is stored under one of the keys in one of the containers. */
  predicate StoredIn<U, K, V(==)>(us: seq<U>, keys: seq<K>, get: (U, K) -> V, m: V)
  {
    exists i, j :: 0 <= i < |us| && 0 <= j < |keys| && get(us[i], keys[j]) == m
  }

  lemma StoredInSnoc<U, K, V>(us: seq<U>, keys: seq<K>, get: (U, K) -> V, m: V)
    requires us != []
    ensures StoredIn(us, keys, get, m)
        == (StoredIn(us[..|us| - 1], keys, get, m) || StoredIn([us[|us| - 1]], keys, get, m))
  {
    var init, last := us[..|us| - 1], [us[|us| - 1]];
    if StoredIn(us, keys, get, m) {
      var i, j :| 0 <= i < |us| && 0 <= j < |keys| && get(us[i], keys[j]) == m;
      if i < |init| {
        assert init[i] == us[i];
      } else {
        assert last[0] == us[i];
      }
    }
    if StoredIn(init, keys, get, m) {
      var i, j :| 0 <= i < |init| && 0 <= j < |keys| && get(init[i], keys[j]) == m;
      assert us[i] == init[i];
    }
    if StoredIn(last, keys, get, m) {
      var i, j :| 0 <= i < 1 && 0 <= j < |keys| && get(last[i], keys[j]) == m;
      assert us[|us| - 1] == last[i];
    }
  }

  /** Stored in one container under a key list extended by one key. */
  lemma StoredInKeySnoc<U, K, V>(u: U, keys: seq<K>, get: (U, K) -> V, m: V)
    requires keys != []
    ensures StoredIn([u], keys, get, m)
        == (StoredIn([u], keys[..|keys| - 1], get, m) || get(u, keys[|keys| - 1]) == m)
  {
    var init := keys[..|keys| - 1];
    if StoredIn([u], keys, get, m) {
      var i, j :| 0 <= i < 1 && 0 <= j < |keys| && get([u][i], keys[j]) == m;
      if j < |init| {
        assert init[j] == keys[j];
      }
    }
    if StoredIn([u], init, get, m) {
      var i, j :| 0 <= i < 1 && 0 <= j < |init| && get([u][i], init[j]) == m;
      assert keys[j] == init[j];
    }
    if get(u, keys[|keys| - 1]) == m {
      assert [u][0] == u;
    }
  }

  // ---------------------------------------------------------------------
  // Message filters

  /** The optional `--chat-id`, `--from-id`, `--thread-id` and `--reply-to` arguments. */
  datatype Filters = Filters(chatId: Option<int>, fromId: Option<int>, threadId: Option<int>, replyTo: Option<int>)

  /** Python `d.get(key) == n` where `d` is a dict that may be missing. */
  predicate FieldIs(d: Option<Json>, key: string, n: int)
  {
    d.Some? && EqInt(GetOrNull(d.value, key), n)
  }

  /**
   A message survives the listing loop: its chat is a dict, and every
   supplied filter holds (the sender and the replied-to message must be
   dicts when their filter is given).
   */
  predicate Selected(m: Json, f: Filters)
  {
    && GetObj(m, "chat").Some?
    && (f.chatId.Some? ==> FieldIs(GetObj(m, "chat"), "id", f.chatId.value))
    && (f.fromId.Some? ==> FieldIs(GetObj(m, "from"), "id", f.fromId.value))
    && (f.threadId.Some? ==> EqInt(GetOrNull(m, "message_thread_id"), f.threadId.value))
    && (f.replyTo.Some? ==> FieldIs(GetObj(m, "reply_to_message"), "message_id", f.replyTo.value))
  }

  function SelectedTest(f: Filters): Json -> bool
  {
    m => Selected(m, f)
  }

  /** The body of the listing loop, one `continue` after another. */
  method SelectOne(m: Json, f: Filters) returns (keep: bool)
    ensures keep <==> Selected(m, f)
  {
    var chat := GetObj(m, "chat");
    if chat.None? {
      return false;
    }
    if f.chatId.Some? && !EqInt(GetOrNull(chat.value, "id"), f.chatId.value) {
      return false;
    }
    if f.fromId.Some? {
      var frm := GetObj(m, "from");
      if frm.None? || !EqInt(GetOrNull(frm.value, "id"), f.fromId.value) {
        return false;
      }
    }
    if f.threadId.Some? && !EqInt(GetOrNull(m, "message_thread_id"), f.threadId.value) {
      return false;
    }
    if f.replyTo.Some? {
      var rtm := GetObj(m, "reply_to_message");
      if rtm.None? || !EqInt(GetOrNull(rtm.value, "message_id"), f.replyTo.value) {
        return false;
      }
    }
    return true;
  }

  /** The filters of `g` are a subset of those of `f`, with the same values. */
  predicate FewerFilters(g: Filters, f: Filters)
  {
    && (g.chatId.Some? ==> g.chatId == f.chatId)
    && (g.fromId.Some? ==> g.fromId == f.fromId)
    && (g.threadId.Some? ==> g.threadId == f.threadId)
    && (g.replyTo.Some? ==> g.replyTo == f.replyTo)
  }

  /** Dropping filters never drops a message: each filter only narrows the listing. */
  lemma FewerFiltersSelectMore(m: Json, f: Filters, g: Filters)
    requires FewerFilters(g, f)
    requires Selected(m, f)
    ensures Selected(m, g)
  {
  }

  /** Without filters, exactly the messages whose chat is a dict are listed. */
  lemma NoFiltersSelectChats(m: Json)
    ensures Selected(m, Filters(None, None, None, None)) <==> GetObj(m, "chat").Some?
  {
  }

  /** The messages of the dump that pass the filters, in dump order. */
  function SelectedMessages(updates: seq<Json>, kinds: seq<string>, f: Filters): (ms: seq<Json>)
    ensures forall i :: 0 <= i < |ms| ==> Selected(ms[i], f)
  {
    Filter(IterMessages(updates, kinds), SelectedTest(f))
  }

  /** The messages of one update that pass the filters, by the inner loop over the kinds. */
  method SelectFromUpdate(u: Json, kinds: seq<string>, f: Filters) returns (ms: seq<Json>)
    ensures ms == Filter(KindMessages(u, kinds), SelectedTest(f))
  {
    ms := [];
    var j := 0;
    while j < |kinds|
      invariant 0 <= j <= |kinds|
      invariant ms == Filter(KindMessages(u, kinds[..j]), SelectedTest(f))
    {
      ms := SelectKind(u, kinds, j, f, ms);
      j := j + 1;
    }
    assert kinds[..j] == kinds;
  }

  /** One pass of the inner loop: the message under kind `j`, when it is a dict that passes the filters. */
  method SelectKind(u: Json, kinds: seq<string>, j: nat, f: Filters, ms: seq<Json>) returns (r: seq<Json>)
    requires j < |kinds|
    requires ms == Filter(KindMessages(u, kinds[..j]), SelectedTest(f))
    ensures r == Filter(KindMessages(u, kinds[..j + 1]), SelectedTest(f))
  {
    var v := GetOrNull(u, kinds[j]);
    KindStepFilter(u, kinds, j, f);
    r := ms;
    if v.JObj? {
      var keep := SelectOne(v, f);
      if keep {
        r := ms + [v];
      }
    }
  }

  /** One more kind adds its message to the listing when it is a dict that passes the filters. */
  lemma KindStepFilter(u: Json, kinds: seq<string>, j: nat, f: Filters)
    requires j < |kinds|
    ensures var v := GetOrNull(u, kinds[j]);
      Filter(KindMessages(u, kinds[..j + 1]), SelectedTest(f))
        == Filter(KindMessages(u, kinds[..j]), SelectedTest(f)) + (if v.JObj? && Selected(v, f) then [v] else [])
  {
    var v := GetOrNull(u, kinds[j]);
    KindMessagesStep(u, kinds, j);
    FilterConcat(KindMessages(u, kinds[..j]), ObjectOrNothing(v), SelectedTest(f));
    FilterSingle(v);
    assert Filter([], SelectedTest(f)) == [];
  }

  lemma KindMessagesStep(u: Json, kinds: seq<string>, j: nat)
    requires j < |kinds|
    ensures KindMessages(u, kinds[..j + 1]) == KindMessages(u, kinds[..j]) + ObjectOrNothing(GetOrNull(u, kinds[j]))
  {
    assert kinds[..j + 1][..j] == kinds[..j];
  }

  /** The listing loop of `main`: every update in turn, then every kind. */
  method CollectMessages(updates: seq<Json>, kinds: seq<string>, f: Filters) returns (msgs: seq<Json>)
    ensures msgs == SelectedMessages(updates, kinds, f)
  {
    msgs := [];
    var i := 0;
    while i < |updates|
      invariant 0 <= i <= |updates|
      invariant msgs == Filter(IterMessages(updates[..i], kinds), SelectedTest(f))
    {
      var u := updates[i];
      var ms := SelectFromUpdate(u, kinds, f);
      assert updates[..i + 1][..i] == updates[..i];
      assert IterMessages(updates[..i + 1], kinds) == IterMessages(updates[..i], kinds) + KindMessages(u, kinds);
      FilterConcat(IterMessages(updates[..i], kinds), KindMessages(u, kinds), SelectedTest(f));
      msgs := msgs + ms;
      i := i + 1;
    }
    assert updates[..i] == updates;
  }

  // ---------------------------------------------------------------------
  // Ordering and the limit

  /** `v or 0` read as a number: an int as itself, a boolean as 0 or 1, anything else as 0. */
  function OrZero(v: Json): (n: int)
    ensures !Truthy(v) ==> n == 0
  {
    match v
    case JInt(i) => i
    case JBool(b) => if b then 1 else 0
    case _ => 0
  }

  /** The sort key `(date or 0, message_id or 0)`. */
  function SortKey(m: Json): (int, int)
  {
    (OrZero(GetOrNull(m, "date")), OrZero(GetOrNull(m, "message_id")))
  }

  /** Tuple comparison: by date, then by message id. */
  predicate KeyLeq(a: (int, int), b: (int, int))
  {
    a.0 < b.0 || (a.0 == b.0 && a.1 <= b.1)
  }

  lemma KeyLeqIsTotalOrder()
    ensures IsTotalOrder(KeyLeq)
  {
  }

  /**
   `msgs[-limit:]` when the limit is non-zero and smaller than the count. A
   positive limit keeps the last `limit` messages; a negative one, through
   Python's slicing, drops the first `-limit` instead.
   */
  function ApplyLimit(msgs: seq<Json>, limit: int): (r: seq<Json>)
    ensures |r| <= |msgs|
    ensures r == msgs[|msgs| - |r|..]
    ensures limit == 0 ==> r == msgs
    ensures limit > 0 ==> |r| == if |msgs| > limit then limit else |msgs|
    ensures limit < 0 ==> |r| == if |msgs| > -limit then |msgs| + limit else 0
  {
    if limit != 0 && |msgs| > limit then
      if limit > 0 then msgs[|msgs| - limit..]
      else if -limit <= |msgs| then msgs[-limit..] else []
    else msgs
  }

  /** `msgs.sort(key=...)`: stable, by date and then by message id. */
  function SortMessages(ms: seq<Json>): (r: seq<Json>)
    ensures KeySorted(r, SortKey, KeyLeq)
    ensures multiset(r) == multiset(ms)
    ensures |r| == |ms|
  {
    KeyLeqIsTotalOrder();
    StableSort(ms, SortKey, KeyLeq)
  }

  /** Sorting keeps the input order among messages with equal keys. */
  lemma SortMessagesStable(ms: seq<Json>, k: (int, int))
    ensures Filter(SortMessages(ms), KeyIs(SortKey, k)) == Filter(ms, KeyIs(SortKey, k))
  {
    KeyLeqIsTotalOrder();
    StableSortStable(ms, SortKey, KeyLeq, k);
  }

  /** The selected messages of a well-formed payload. */
  function PayloadSelection(payload: Json, kindArg: string, f: Filters): (ms: seq<Json>)
    requires payload.JObj?
    ensures forall i :: 0 <= i < |ms| ==> Selected(ms[i], f)
  {
    SelectedMessages(DumpUpdates(payload), Kinds(kindArg), f)
  }

  /** The listed messages: the selected ones sorted stably by key, then cut to the limit. */
  function ListMessages(payload: Json, kindArg: string, f: Filters, limit: int): (r: Outcome<seq<Json>>)
    ensures r.Fail? <==> !payload.JObj?
    ensures r.Fail? ==> r.exc == AttributeError
    ensures r.Ok? ==> forall i :: 0 <= i < |r.value| ==> Selected(r.value[i], f)
    ensures r.Ok? ==> KeySorted(r.value, SortKey, KeyLeq)
  {
    if !payload.JObj? then Fail(AttributeError)
    else
      var selected := PayloadSelection(payload, kindArg, f);
      var sorted := SortMessages(selected);
      var listed := ApplyLimit(sorted, limit);
      SortedSuffix(selected, sorted, |sorted| - |listed|, f);
      Ok(listed)
  }

  /** A suffix of a sorted permutation of selected messages is sorted and holds only selected messages. */
  lemma SortedSuffix(selected: seq<Json>, sorted: seq<Json>, d: nat, f: Filters)
    requires forall i :: 0 <= i < |selected| ==> Selected(selected[i], f)
    requires multiset(sorted) == multiset(selected)
    requires KeySorted(sorted, SortKey, KeyLeq)
    requires d <= |sorted|
    ensures forall i :: 0 <= i < |sorted[d..]| ==> Selected(sorted[d..][i], f)
    ensures KeySorted(sorted[d..], SortKey, KeyLeq)
  {
    forall i | 0 <= i < |sorted[d..]|
      ensures Selected(sorted[d..][i], f)
    {
      assert sorted[d..][i] in multiset(selected);
      var j :| 0 <= j < |selected| && selected[j] == sorted[d..][i];
    }
    forall i, j | 0 <= i < j < |sorted[d..]|
      ensures KeyLeq(SortKey(sorted[d..][i]), SortKey(sorted[d..][j]))
    {
      assert sorted[d..][i] == sorted[d + i] && sorted[d..][j] == sorted[d + j];
    }
  }

  /** What a sorted arrangement loses by dropping a prefix sorts no later than what it keeps. */
  lemma DroppedPrefixSortsFirst(selected: seq<Json>, sorted: seq<Json>, d: nat)
    requires multiset(sorted) == multiset(selected)
    requires KeySorted(sorted, SortKey, KeyLeq)
    requires d <= |sorted|
    ensures multiset(sorted[d..]) <= multiset(selected)
    ensures forall x, y :: x in multiset(selected) - multiset(sorted[d..]) && y in sorted[d..] ==> KeyLeq(SortKey(x), SortKey(y))
  {
    assert sorted == sorted[..d] + sorted[d..];
    assert multiset(sorted) == multiset(sorted[..d]) + multiset(sorted[d..]);
    forall x, y | x in multiset(selected) - multiset(sorted[d..]) && y in sorted[d..]
      ensures KeyLeq(SortKey(x), SortKey(y))
    {
      assert x in multiset(sorted[..d]);
      var i :| 0 <= i < d && sorted[..d][i] == x;
      var j :| 0 <= j < |sorted[d..]| && sorted[d..][j] == y;
      assert sorted[i] == x && sorted[d + j] == y;
    }
  }

  /** The listing of a well-formed payload is the sorted selection cut to the limit. */
  lemma ListingIsSortedSelection(payload: Json, kindArg: string, f: Filters, limit: int)
    requires payload.JObj?
    ensures ListMessages(payload, kindArg, f, limit).value == ApplyLimit(SortMessages(PayloadSelection(payload, kindArg, f)), limit)
  {
  }

  /** With a positive limit, the listing has `limit` messages, or all of them when there are fewer. */
  lemma LimitCount(payload: Json, kindArg: string, f: Filters, limit: int)
    requires payload.JObj? && limit > 0
    ensures |ListMessages(payload, kindArg, f, limit).value|
         == if |PayloadSelection(payload, kindArg, f)| > limit then limit else |PayloadSelection(payload, kindArg, f)|
  {
    ListingIsSortedSelection(payload, kindArg, f, limit);
  }

  /**
   The listing keeps the latest messages: every listed message is a
   selected one, and every selected message left out sorts no later than
   every listed one.
   */
  lemma LimitKeepsLatest(payload: Json, kindArg: string, f: Filters, limit: int)
    requires payload.JObj?
    ensures var selected := PayloadSelection(payload, kindArg, f);
      var listed := ListMessages(payload, kindArg, f, limit).value;
      && multiset(listed) <= multiset(selected)
      && forall x, y :: x in multiset(selected) - multiset(listed) && y in listed ==> KeyLeq(SortKey(x), SortKey(y))
  {
    var selected := PayloadSelection(payload, kindArg, f);
    var sorted := SortMessages(selected);
    ListingIsSortedSelection(payload, kindArg, f, limit);
    var listed := ApplyLimit(sorted, limit);
    DroppedPrefixSortsFirst(selected, sorted, |sorted| - |listed|);
  }

  /** Messages with the same key keep the order in which the dump holds them. */
  lemma TiesKeepDumpOrder(payload: Json, kindArg: string, f: Filters, k: (int, int))
    requires payload.JObj?
    ensures var selected := PayloadSelection(payload, kindArg, f);
      Filter(ListMessages(payload, kindArg, f, 0).value, KeyIs(SortKey, k)) == Filter(selected, KeyIs(SortKey, k))
  {
    SortMessagesStable(PayloadSelection(payload, kindArg, f), k);
  }

  /** `0 if msgs else 1`. */
  function ExitStatus<T>(listed: seq<T>): (code: int)
    ensures code == 0 || code == 1
  {
    if listed != [] then 0 else 1
  }

  /**
   Without a negative limit the exit status is 1 exactly when no message
   passes the filters; a negative limit also gives 1 when it drops them all.
   */
  lemma ExitStatusIffNoneSelected(payload: Json, kindArg: string, f: Filters, limit: int)
    requires payload.JObj?
    ensures var n := |PayloadSelection(payload, kindArg, f)|;
      (ExitStatus(ListMessages(payload, kindArg, f, limit).value) == 1 <==> if limit >= 0 then n == 0 else n <= -limit)
  {
  }

  // ---------------------------------------------------------------------
  // Text preview

  /** The placeholder fields, in the order they are tried, and their labels. */
  const PlaceholderKeys: seq<string> := ["photo", "document", "sticker", "voice", "video"]
  const PlaceholderLabels: seq<string> := ["<photo>", "<document>", "<sticker>", "<voice>", "<video>"]
  const NonTextLabel: string := "<non-text message>"

  /** A string field that is not blank. */
  predicate HasText(m: Json, key: string)
  {
    GetStr(m, key).Some? && !AllSpace(GetStr(m, key).value)
  }

  /** The label of the first placeholder field present in `m`, from index `i` on. */
  function PlaceholderFrom(m: Json, i: nat): (r: string)
    requires i <= |PlaceholderKeys|
    ensures r == NonTextLabel || r in PlaceholderLabels
    decreases |PlaceholderKeys| - i
  {
    if i == |PlaceholderKeys| then NonTextLabel
    else if HasKey(m, PlaceholderKeys[i]) then PlaceholderLabels[i]
    else PlaceholderFrom(m, i + 1)
  }

  /** The text the preview is made of: the text, else the caption, else a placeholder. */
  function PreviewSource(m: Json): string
  {
    if HasText(m, "text") then GetStr(m, "text").value
    else if HasText(m, "caption") then GetStr(m, "caption").value
    else PlaceholderFrom(m, 0)
  }

  /** The ellipsis that marks a cut preview. */
  const Ellipsis: char := '…'

  /**
   `_text_preview`: the source text with whitespace runs collapsed to one
   space, cut to `width - 1` characters plus an ellipsis when longer than
   `width`.
   */
  function TextPreview(m: Json, width: nat): (r: string)
    requires width >= 1
    ensures |r| <= width
    ensures |CollapseWhitespace(PreviewSource(m))| <= width ==> r == CollapseWhitespace(PreviewSource(m))
    ensures |CollapseWhitespace(PreviewSource(m))| > width ==>
      |r| == width && r[..width - 1] == CollapseWhitespace(PreviewSource(m))[..width - 1] && r[width - 1] == Ellipsis
  {
    var one := CollapseWhitespace(PreviewSource(m));
    if |one| > width then one[..width - 1] + [Ellipsis] else one
  }

  /** The only whitespace a preview holds is the single spaces between words. */
  lemma PreviewSpaces(m: Json, width: nat)
    requires width >= 1
    ensures forall i :: 0 <= i < |TextPreview(m, width)| && IsSpace(TextPreview(m, width)[i]) ==> TextPreview(m, width)[i] == ' '
  {
    var one := CollapseWhitespace(PreviewSource(m));
    CollapseHasNoSpaceButBlank(PreviewSource(m));
    var r := TextPreview(m, width);
    forall i | 0 <= i < |r| && IsSpace(r[i])
      ensures r[i] == ' '
    {
      if |one| > width && i < width - 1 {
        assert r[i] == one[i];
      }
    }
  }

  /** A one-word text no wider than the preview is shown as it is. */
  lemma WordPreviewsAsItself(m: Json, width: nat)
    requires width >= 1
    requires GetStr(m, "text").Some?
    requires var w := GetStr(m, "text").value; w != [] && NoSpace(w) && |w| <= width
    ensures TextPreview(m, width) == GetStr(m, "text").value
  {
    var w := GetStr(m, "text").value;
    assert !IsSpace(w[0]);
    assert !AllSpace(w);
    OneWord(w);
  }

  /** A non-empty word without whitespace splits into itself. */
  lemma OneWord(w: string)
    requires w != [] && NoSpace(w)
    ensures CollapseWhitespace(w) == w
  {
    assert !IsSpace(w[0]);
    assert LStrip(w) == w;
    assert WordLen(w) == |w| by {
      WordLenAll(w);
    }
    assert w[..|w|] == w;
    assert LeadingWord(w) == w;
    assert w[|w|..] == [];
    assert SplitWhitespace(w) == [w];
  }

  lemma {:induction false} WordLenAll(t: string)
    requires NoSpace(t)
    ensures WordLen(t) == |t|
  {
    if |t| > 0 {
      assert !IsSpace(t[0]);
      WordLenAll(t[1..]);
    }
  }

  /** A message with neither text nor caption, only a photo, shows as "<photo>". */
  lemma PhotoPlaceholder(m: Json, width: nat)
    requires width >= 9
    requires !HasText(m, "text") && !HasText(m, "caption") && HasKey(m, "photo")
    ensures TextPreview(m, width) == "<photo>"
  {
    assert PreviewSource(m) == "<photo>";
    OneWord("<photo>");
  }

  // ---------------------------------------------------------------------
  // extract_update.py

  /** The optional `--update-id`, `--chat-id` and `--message-id` arguments. */
  datatype ExtractFilters = ExtractFilters(updateId: Option<int>, chatId: Option<int>, messageId: Option<int>)

  /** A value under one kind satisfies the chat and message filters: a dict message with a dict chat. */
  predicate KindMatches(v: Json, a: ExtractFilters)
  {
    && v.JObj?
    && GetObj(v, "chat").Some?
    && (a.chatId.Some? ==> FieldIs(GetObj(v, "chat"), "id", a.chatId.value))
    && (a.messageId.Some? ==> EqInt(GetOrNull(v, "message_id"), a.messageId.value))
  }

  /** Some listed kind of `u` satisfies the chat and message filters. */
  predicate SomeKindMatches(u: Json, kinds: seq<string>, a: ExtractFilters)
  {
    exists j :: 0 <= j < |kinds| && KindMatches(GetOrNull(u, kinds[j]), a)
  }

  /**
   An update is extracted when its id equals a given `--update-id`, and,
   when a chat or message id is given, some listed kind matches them.
   */
  predicate Extracted(u: Json, kinds: seq<string>, a: ExtractFilters)
  {
    && (a.updateId.Some? ==> EqInt(GetOrNull(u, "update_id"), a.updateId.value))
    && (a.chatId.Some? || a.messageId.Some? ==> SomeKindMatches(u, kinds, a))
  }

  function ExtractedTest(kinds: seq<string>, a: ExtractFilters): Json -> bool
  {
    u => Extracted(u, kinds, a)
  }

  /** The inner `for k in kinds` loop with its `break`. */
  method FindKind(u: Json, kinds: seq<string>, a: ExtractFilters) returns (found: bool)
    ensures found <==> SomeKindMatches(u, kinds, a)
  {
    found := false;
    var j := 0;
    while j < |kinds|
      invariant 0 <= j <= |kinds|
      invariant forall i :: 0 <= i < j ==> !KindMatches(GetOrNull(u, kinds[i]), a)
    {
      var m := GetOrNull(u, kinds[j]);
      if !m.JObj? {
        j := j + 1;
        continue;
      }
      var chat := GetObj(m, "chat");
      if chat.None? {
        j := j + 1;
        continue;
      }
      if a.chatId.Some? && !EqInt(GetOrNull(chat.value, "id"), a.chatId.value) {
        j := j + 1;
        continue;
      }
      if a.messageId.Some? && !EqInt(GetOrNull(m, "message_id"), a.messageId.value) {
        j := j + 1;
        continue;
      }
      found := true;
      break;
    }
  }

  /** The loop of `main`: the updates of the dump that match, in dump order. */
  method ExtractUpdates(payload: Json, kindArg: string, a: ExtractFilters) returns (r: Outcome<seq<Json>>)
    ensures r.Fail? <==> !payload.JObj?
    ensures r.Fail? ==> r.exc == AttributeError
    ensures r.Ok? ==> r.value == Filter(DumpUpdates(payload), ExtractedTest(Kinds(kindArg), a))
  {
    if !payload.JObj? {
      return Fail(AttributeError);
    }
    var matches := ExtractFrom(DumpUpdates(payload), Kinds(kindArg), a);
    return Ok(matches);
  }

  /** The updates that match, in dump order. */
  method ExtractFrom(updates: seq<Json>, kinds: seq<string>, a: ExtractFilters) returns (matches: seq<Json>)
    ensures matches == Filter(updates, ExtractedTest(kinds, a))
  {
    matches := [];
    var i := 0;
    while i < |updates|
      invariant 0 <= i <= |updates|
      invariant matches == Filter(updates[..i], ExtractedTest(kinds, a))
    {
      var u := updates[i];
      assert updates[..i + 1] == updates[..i] + [u];
      FilterSnoc(updates[..i], u, ExtractedTest(kinds, a));
      var keep := ExtractOne(u, kinds, a);
      if keep {
        matches := matches + [u];
      }
      i := i + 1;
    }
    assert updates[..i] == updates;
  }

  /** The body of the loop over the updates, with its two `continue`s. */
  method ExtractOne(u: Json, kinds: seq<string>, a: ExtractFilters) returns (keep: bool)
    ensures keep <==> Extracted(u, kinds, a)
  {
    if a.updateId.Some? && !EqInt(GetOrNull(u, "update_id"), a.updateId.value) {
      return false;
    }
    if a.chatId.None? && a.messageId.None? {
      return true;
    }
    keep := FindKind(u, kinds, a);
  }

  /** An update whose id differs from a given `--update-id` is never extracted. */
  lemma OtherUpdateIdNeverExtracted(updates: seq<Json>, kinds: seq<string>, a: ExtractFilters, u: Json)
    requires a.updateId.Some? && !EqInt(GetOrNull(u, "update_id"), a.updateId.value)
    ensures u !in Filter(updates, ExtractedTest(kinds, a))
  {
    FilterMembers(updates, ExtractedTest(kinds, a), u);
  }

  /** With neither a chat id nor a message id, every update passing the id filter is extracted. */
  lemma IdOnlyExtractsAll(updates: seq<Json>, kinds: seq<string>, a: ExtractFilters)
    requires a.chatId.None? && a.messageId.None?
    ensures a.updateId.None? ==> Filter(updates, ExtractedTest(kinds, a)) == updates
    ensures forall u :: (u in Filter(updates, ExtractedTest(kinds, a))
                         <==> u in updates && (a.updateId.Some? ==> EqInt(GetOrNull(u, "update_id"), a.updateId.value)))
  {
    FilterMembersAll(updates, ExtractedTest(kinds, a));
    if a.updateId.None? {
      FilterKeepsAll(updates, ExtractedTest(kinds, a));
    }
  }

  /** The exit status is 0 exactly when something was extracted. */
  lemma ExtractExitStatus(payload: Json, kindArg: string, a: ExtractFilters)
    requires payload.JObj?
    ensures var matches := Filter(DumpUpdates(payload), ExtractedTest(Kinds(kindArg), a));
      ExitStatus(matches) == 0 <==> exists u :: u in DumpUpdates(payload) && Extracted(u, Kinds(kindArg), a)
  {
    FilterMembersAll(DumpUpdates(payload), ExtractedTest(Kinds(kindArg), a));
    var matches := Filter(DumpUpdates(payload), ExtractedTest(Kinds(kindArg), a));
    if matches != [] {
      assert matches[0] in matches;
    }
  }
}
