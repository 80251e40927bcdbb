/**
 The Telegram starter's persistence (core/src/k/starters/telegram/history.py):
 - the append-only JSON Lines log of raw updates;
 - the per-chat "last N" view of that log;
 - the per-chat trigger cursors saved beside it.
 Files are modelled as their lines or their decoded JSON; the encoder and
 decoder are parameters.
 */
module TgHistory {
  import opened Wrappers
  import opened PyStr
  import opened Json
  import opened Seqs
  import opened Sorting
  import opened TgUpdates
  import TgRunner

  // ---------------------------------------------------------------------
  // The update log

  /** The lines `append_updates_jsonl` writes for `updates`, one serialised update each. */
  function Dumped(updates: seq<Json>, dumps: Json -> string): (r: seq<string>)
    ensures |r| == |updates|
    ensures forall i :: 0 <= i < |updates| ==> r[i] == dumps(updates[i])
    decreases |updates|
  {
    if updates == [] then []
    else Dumped(updates[..|updates| - 1], dumps) + [dumps(updates[|updates| - 1])]
  }

  /**
   `append_updates_jsonl`: the log gains one line per update, in order, and
   the count written is the number of updates (0 for none, with the log
   untouched).
   */
  method AppendUpdates(log: seq<string>, updates: seq<Json>, dumps: Json -> string)
    returns (log': seq<string>, written: nat)
    ensures written == |updates|
    ensures log' == log + Dumped(updates, dumps)
  {
    if |updates| == 0 {
      return log, 0;
    }
    log' := log;
    written := 0;
    while written < |updates|
      invariant written <= |updates|
      invariant log' == log + Dumped(updates[..written], dumps)
    {
      assert updates[..written + 1][..written] == updates[..written];
      log' := log' + [dumps(updates[written])];
      written := written + 1;
    }
    assert updates[..written] == updates;
  }

  /** One line of the log: a blank line is skipped, any other line must decode to an object. */
  function ParseLine(raw: string, loads: string -> Option<Json>): (r: Outcome<Option<Json>>)
    ensures r.Fail? ==> r.exc == ValueError
    ensures r.Ok? && r.value.Some? ==> r.value.value.JObj?
  {
    var line := Strip(raw);
    if line == [] then Ok(None)
    else match loads(line)
      case None => Fail(ValueError)
      case Some(u) => if u.JObj? then Ok(Some(u)) else Fail(ValueError)
  }

  /**
   A line is skipped exactly when it is all whitespace; otherwise it yields
   the object its stripped text decodes to, and fails when that text does
   not decode or decodes to something other than an object.
   */
  lemma ParseLineMeaning(raw: string, loads: string -> Option<Json>)
    ensures ParseLine(raw, loads) == Ok(None) <==> AllSpace(raw)
    ensures ParseLine(raw, loads).Ok? && ParseLine(raw, loads).value.Some? ==>
      loads(Strip(raw)) == Some(ParseLine(raw, loads).value.value)
    ensures ParseLine(raw, loads).Fail? <==>
      !AllSpace(raw) && (loads(Strip(raw)).None? || !loads(Strip(raw)).value.JObj?)
  {
    StripEmptyIffAllSpace(raw);
  }

  /** The updates of a log in file order, or a ValueError from the first bad line. */
  function ParseLog(lines: seq<string>, loads: string -> Option<Json>): (r: Outcome<seq<Json>>)
    ensures r.Fail? ==> r.exc == ValueError
    ensures r.Ok? ==> forall i :: 0 <= i < |r.value| ==> r.value[i].JObj?
    ensures r.Ok? ==> |r.value| <= |lines|
    decreases |lines|
  {
    if lines == [] then Ok([])
    else
      match ParseLog(lines[..|lines| - 1], loads)
      case Fail(e) => Fail(e)
      case Ok(us) =>
        match ParseLine(lines[|lines| - 1], loads)
        case Fail(e) => Fail(e)
        case Ok(None) => Ok(us)
        case Ok(Some(u)) => Ok(us + [u])
  }

  /** Reading one more line of a log whose prefix parsed. */
  lemma ParseLogStep(lines: seq<string>, loads: string -> Option<Json>, i: nat)
    requires i < |lines| && ParseLog(lines[..i], loads).Ok?
    ensures ParseLine(lines[i], loads).Fail? ==> ParseLog(lines[..i + 1], loads).Fail?
    ensures ParseLine(lines[i], loads) == Ok(None) ==> ParseLog(lines[..i + 1], loads) == ParseLog(lines[..i], loads)
    ensures ParseLine(lines[i], loads).Ok? && ParseLine(lines[i], loads).value.Some? ==>
      ParseLog(lines[..i + 1], loads) == Ok(ParseLog(lines[..i], loads).value + [ParseLine(lines[i], loads).value.value])
  {
    assert lines[..i + 1][..i] == lines[..i];
    assert lines[..i + 1][i] == lines[i];
  }

  /** A log fails to parse when some line of it does. */
  lemma {:induction false} ParseLogFailsWithLine(lines: seq<string>, loads: string -> Option<Json>, i: nat)
    requires i < |lines| && ParseLine(lines[i], loads).Fail?
    ensures ParseLog(lines, loads).Fail?
    decreases |lines|
  {
    if i < |lines| - 1 {
      var init := lines[..|lines| - 1];
      assert init[i] == lines[i];
      ParseLogFailsWithLine(init, loads, i);
    }
  }

  /** Parsing a log with one more line: that line's failure or update joins the result. */
  lemma ParseLogSnoc(lines: seq<string>, raw: string, loads: string -> Option<Json>)
    ensures ParseLog(lines + [raw], loads) ==
      match ParseLog(lines, loads)
      case Fail(e) => Fail(e)
      case Ok(us) =>
        match ParseLine(raw, loads)
        case Fail(e) => Fail(e)
        case Ok(None) => Ok(us)
        case Ok(Some(u)) => Ok(us + [u])
  {
    assert (lines + [raw])[..|lines|] == lines;
  }

  /** The decoder reads back the encoded object `u` from its line, which is not blank. */
  predicate ReadsBack(u: Json, dumps: Json -> string, loads: string -> Option<Json>)
  {
    u.JObj? && !AllSpace(dumps(u)) && loads(Strip(dumps(u))) == Some(u)
  }

  /** One appended update is read back after what the log held. */
  lemma AppendOneThenParse(log: seq<string>, u: Json, dumps: Json -> string, loads: string -> Option<Json>)
    requires ParseLog(log, loads).Ok? && ReadsBack(u, dumps, loads)
    ensures ParseLog(log + [dumps(u)], loads) == Ok(ParseLog(log, loads).value + [u])
  {
    ParseLogSnoc(log, dumps(u), loads);
    ParseLineMeaning(dumps(u), loads);
  }

  /**
   What is appended is read back: when the decoder inverts the encoder on
   every appended update and no encoded update is blank, parsing the longer
   log gives the old updates followed by the new ones.
   */
  lemma {:induction false} AppendThenParse(log: seq<string>, updates: seq<Json>, dumps: Json -> string,
                                           loads: string -> Option<Json>)
    requires ParseLog(log, loads).Ok?
    requires forall i :: 0 <= i < |updates| ==> ReadsBack(updates[i], dumps, loads)
    ensures ParseLog(log + Dumped(updates, dumps), loads) == Ok(ParseLog(log, loads).value + updates)
    decreases |updates|
  {
    if updates == [] {
      assert log + Dumped(updates, dumps) == log;
      assert ParseLog(log, loads).value + updates == ParseLog(log, loads).value;
    } else {
      var init := updates[..|updates| - 1];
      var u := updates[|updates| - 1];
      var v := ParseLog(log, loads).value;
      assert ReadsBack(u, dumps, loads);
      AppendThenParse(log, init, dumps, loads);
      assert log + Dumped(updates, dumps) == (log + Dumped(init, dumps)) + [dumps(u)] by {
        SnocAssoc(log, Dumped(init, dumps), dumps(u));
      }
      AppendOneThenParse(log + Dumped(init, dumps), u, dumps, loads);
      AppendInitLast(v, updates);
    }
  }

  // ---------------------------------------------------------------------
  // The last N updates per chat

  /** The last `n` elements of `s` (all of them when there are fewer): a deque with `maxlen=n`. */
  function LastN<T>(s: seq<T>, n: nat): (r: seq<T>)
  {
    if |s| <= n then s else s[|s| - n..]
  }

  /** Appending to a bounded deque: trimming before or after the append keeps the same last `n`. */
  lemma LastNSnoc<T>(s: seq<T>, x: T, n: nat)
    requires n > 0
    ensures LastN(s + [x], n) == LastN(LastN(s, n) + [x], n)
  {
  }

  /** A deque holding at most `n` elements drops its oldest one when an append overflows it. */
  lemma DequeAppend<T>(b: seq<T>, x: T, n: nat)
    requires 0 < n && |b| <= n
    ensures LastN(b + [x], n) == if |b + [x]| > n then (b + [x])[1..] else b + [x]
  {
  }

  /** Every update is admitted to a chat group. */
  predicate Always(u: Json)
  {
    true
  }

  /** The updates of chat `k` in log order. */
  function ChatUpdates(us: seq<Json>, k: Option<int>): seq<Json>
  {
    Bucket(us, Always, ChatId, k)
  }

  /** The chat ids that occur in the log, None for chat-less updates. */
  function ChatKeys(us: seq<Json>): set<Option<int>>
  {
    set u | u in us :: ChatId(u)
  }

  /** The grouping `load_recent_updates_grouped_by_chat_id` returns for a parsed log. */
  function Recent(us: seq<Json>, n: nat): TgRunner.Groups
  {
    map k | k in ChatKeys(us) :: LastN(ChatUpdates(us, k), n)
  }

  /**
   A chat has a group exactly when some update of the log belongs to it,
   and the group is that chat's last `n` updates in log order: never empty,
   never longer than `n`, and only that chat's updates.
   */
  lemma RecentMeaning(us: seq<Json>, n: nat, k: Option<int>)
    requires n > 0
    ensures k in Recent(us, n) <==> exists i :: 0 <= i < |us| && ChatId(us[i]) == k
    ensures k in Recent(us, n) ==> 0 < |Recent(us, n)[k]| <= n
    ensures k in Recent(us, n) ==> forall u :: u in Recent(us, n)[k] ==> u in us && ChatId(u) == k
    ensures k in Recent(us, n) && |ChatUpdates(us, k)| <= n ==> Recent(us, n)[k] == ChatUpdates(us, k)
  {
    if k in ChatKeys(us) {
      var u :| u in us && ChatId(u) == k;
      BucketMembership(us, Always, ChatId, k, u);
      var b := ChatUpdates(us, k);
      forall v | v in LastN(b, n)
        ensures v in us && ChatId(v) == k
      {
        BucketMembership(us, Always, ChatId, k, v);
      }
    }
  }

  /** A chat occurs in the log exactly when its bucket is not empty. */
  lemma ChatKeysIff(us: seq<Json>, k: Option<int>)
    ensures k in ChatKeys(us) <==> ChatUpdates(us, k) != []
  {
    if k in ChatKeys(us) {
      var u :| u in us && ChatId(u) == k;
      BucketMembership(us, Always, ChatId, k, u);
    } else if ChatUpdates(us, k) != [] {
      BucketMembership(us, Always, ChatId, k, ChatUpdates(us, k)[0]);
    }
  }

  /** The group of chat `j` after one more update `u`. */
  lemma RecentSnocAt(us: seq<Json>, u: Json, n: nat, j: Option<int>)
    requires n > 0
    ensures j in Recent(us + [u], n) <==> j in Recent(us, n) || j == ChatId(u)
    ensures j in Recent(us + [u], n) && j != ChatId(u) ==> Recent(us + [u], n)[j] == Recent(us, n)[j]
    ensures j == ChatId(u) ==> (Recent(us + [u], n)[j] ==
      LastN((if j in Recent(us, n) then Recent(us, n)[j] else []) + [u], n))
  {
    BucketSnoc(us, u, Always, ChatId, j);
    ChatKeysIff(us, j);
    ChatKeysIff(us + [u], j);
    if j == ChatId(u) && j in Recent(us, n) {
      LastNSnoc(ChatUpdates(us, j), u, n);
    }
  }

  /** One more update extends only its own chat's group, as a bounded deque. */
  lemma RecentSnoc(us: seq<Json>, u: Json, n: nat)
    requires n > 0
    ensures Recent(us + [u], n) ==
      Recent(us, n)[ChatId(u) := LastN((if ChatId(u) in Recent(us, n) then Recent(us, n)[ChatId(u)] else []) + [u], n)]
  {
    var k := ChatId(u);
    var before := Recent(us, n);
    var after := Recent(us + [u], n);
    var expected := before[k := LastN((if k in before then before[k] else []) + [u], n)];
    forall j
      ensures (j in after <==> j in expected) && (j in after ==> after[j] == expected[j])
    {
      RecentSnocAt(us, u, n, j);
    }
    MapExt(after, expected);
  }

  /** One line of the loading loop, with the deque append of `load_recent_updates_grouped_by_chat_id`. */
  method LoadLine(grouped: TgRunner.Groups, parsed: seq<Json>, raw: string, limit: nat,
                  loads: string -> Option<Json>)
    returns (r: Outcome<(TgRunner.Groups, seq<Json>)>)
    requires limit > 0 && grouped == Recent(parsed, limit)
    ensures r.Fail? <==> ParseLine(raw, loads).Fail?
    ensures r.Fail? ==> r.exc == ValueError
    ensures r.Ok? && ParseLine(raw, loads) == Ok(None) ==> r.value == (grouped, parsed)
    ensures r.Ok? && ParseLine(raw, loads).value.Some? ==>
      r.value.1 == parsed + [ParseLine(raw, loads).value.value] && r.value.0 == Recent(r.value.1, limit)
  {
    match ParseLine(raw, loads)
    case Fail(e) =>
      return Fail(e);
    case Ok(None) =>
      return Ok((grouped, parsed));
    case Ok(Some(u)) =>
      var k := ChatId(u);
      var bucket := if k in grouped then grouped[k] else [];
      RecentMeaning(parsed, limit, k);
      DequeAppend(bucket, u, limit);
      bucket := bucket + [u];
      if |bucket| > limit {
        bucket := bucket[1..];
      }
      RecentSnoc(parsed, u, limit);
      return Ok((grouped[k := bucket], parsed + [u]));
  }

  /**
   `load_recent_updates_grouped_by_chat_id`: a non-positive limit is a
   ValueError, a missing log gives no groups, a bad line is a ValueError,
   and otherwise each chat's group is its last `limit` updates in log order.
   */
  method LoadRecent(limit: int, present: bool, lines: seq<string>, loads: string -> Option<Json>)
    returns (r: Outcome<TgRunner.Groups>)
    ensures limit <= 0 ==> r == Fail(ValueError)
    ensures limit > 0 && !present ==> r == Ok(map[])
    ensures limit > 0 && present ==> (r.Fail? <==> ParseLog(lines, loads).Fail?)
    ensures r.Fail? ==> r.exc == ValueError
    ensures limit > 0 && present && r.Ok? ==> r.value == Recent(ParseLog(lines, loads).value, limit)
  {
    if limit <= 0 {
      return Fail(ValueError);
    }
    if !present {
      return Ok(map[]);
    }
    var grouped: TgRunner.Groups := map[];
    var parsed: seq<Json> := [];
    var i := 0;
    while i < |lines|
      invariant 0 <= i <= |lines|
      invariant ParseLog(lines[..i], loads) == Ok(parsed)
      invariant grouped == Recent(parsed, limit)
    {
      ParseLogStep(lines, loads, i);
      var step := LoadLine(grouped, parsed, lines[i], limit, loads);
      if step.Fail? {
        ParseLogFailsWithLine(lines, loads, i);
        return Fail(ValueError);
      }
      grouped, parsed := step.value.0, step.value.1;
      i := i + 1;
    }
    assert lines[..i] == lines;
    return Ok(grouped);
  }

  // ---------------------------------------------------------------------
  // The cursor-state file's path

  /** The name suffix of the cursor-state file. */
  const CursorStateSuffix: string := ".trigger_cursor_state.json"

  /**
   `trigger_cursor_state_path_for_updates_store`: the store's file name with
   the suffix appended, in the same directory. A path with an empty name has
   no file name to extend, which `with_name` reports as a ValueError.
   */
  function CursorStatePath(store: seq<string>): (r: Outcome<seq<string>>)
    ensures r.Fail? <==> store == [] || store[|store| - 1] == ""
    ensures r.Fail? ==> r.exc == ValueError
    ensures r.Ok? ==> |r.value| == |store| && r.value[..|store| - 1] == store[..|store| - 1]
    ensures r.Ok? ==> r.value[|store| - 1] == store[|store| - 1] + CursorStateSuffix
  {
    if store == [] || store[|store| - 1] == "" then Fail(ValueError)
    else Ok(store[..|store| - 1] + [store[|store| - 1] + CursorStateSuffix])
  }

  /** The state file never is the store itself, and distinct stores get distinct state files. */
  lemma CursorStatePathSeparate(store: seq<string>, other: seq<string>)
    requires CursorStatePath(store).Ok? && CursorStatePath(other).Ok?
    ensures CursorStatePath(store).value != store
    ensures CursorStatePath(store) == CursorStatePath(other) ==> store == other
  {
    var p := CursorStatePath(store).value;
    assert |p[|store| - 1]| > |store[|store| - 1]|;
    if CursorStatePath(store) == CursorStatePath(other) {
      var a := store[|store| - 1];
      var b := other[|other| - 1];
      assert a + CursorStateSuffix == b + CursorStateSuffix;
      assert a == (a + CursorStateSuffix)[..|a|];
      assert store == store[..|store| - 1] + [a];
      assert other == other[..|other| - 1] + [b];
    }
  }

  // ---------------------------------------------------------------------
  // The cursor-state file's contents

  /** The schema version written and required. */
  const TriggerStateVersion: int := 1

  /** The key of the chat-to-cursor object. */
  const CursorMapKey: string := "last_trigger_update_id_by_chat"

  /** The state file as read: missing, not valid JSON, or a decoded payload. */
  datatype StateFile = Missing | Unparsable | Stored(payload: Json)

  /**
   A cursor `isinstance(v, int) and v >= 0` accepts: a non-negative int, or
   a boolean, which Python counts as the int 0 or 1.
   */
  predicate ValidCursor(v: Json)
  {
    (v.JInt? && v.i >= 0) || v.JBool?
  }

  /** The integer value of a valid cursor. */
  function CursorValue(v: Json): (r: int)
    requires ValidCursor(v)
    ensures r >= 0 && EqInt(v, r)
  {
    if v.JInt? then v.i else if v.b then 1 else 0
  }

  /** An entry of the stored map: a key `readKey` accepts and a valid cursor. */
  predicate ValidEntry(f: (string, Json), readKey: string -> Option<int>)
  {
    readKey(f.0).Some? && ValidCursor(f.1)
  }

  /**
   The loop of `load_last_trigger_update_id_by_chat` over the stored map's
   entries: each key is read as an int by `readKey` (Python's `int()`, which
   LoadCursorState passes as PyStr.ParseInt) and each value must be a valid
   cursor; a later entry for the same chat overwrites an earlier one.
   */
  function DecodeEntries(fields: seq<(string, Json)>, readKey: string -> Option<int>): (r: Outcome<map<int, int>>)
    ensures r.Fail? ==> r.exc == ValueError
    ensures r.Ok? ==> forall c :: c in r.value ==> r.value[c] >= 0
    decreases |fields|
  {
    if fields == [] then Ok(map[])
    else
      var init := fields[..|fields| - 1];
      var (key, value) := fields[|fields| - 1];
      match DecodeEntries(init, readKey)
      case Fail(e) => Fail(e)
      case Ok(m) =>
        match readKey(key)
        case None => Fail(ValueError)
        case Some(c) => if ValidCursor(value) then Ok(m[c := CursorValue(value)]) else Fail(ValueError)
  }

  /** Decoding one more entry. */
  lemma DecodeEntriesSnoc(fields: seq<(string, Json)>, f: (string, Json), readKey: string -> Option<int>)
    ensures DecodeEntries(fields + [f], readKey) ==
      match DecodeEntries(fields, readKey)
      case Fail(e) => Fail(e)
      case Ok(m) =>
        match readKey(f.0)
        case None => Fail(ValueError)
        case Some(c) => if ValidCursor(f.1) then Ok(m[c := CursorValue(f.1)]) else Fail(ValueError)
  {
    InitOfSnoc(fields, f);
  }

  /** Decoding succeeds exactly when every entry is valid. */
  lemma {:induction false} DecodeEntriesOk(fields: seq<(string, Json)>, readKey: string -> Option<int>)
    ensures DecodeEntries(fields, readKey).Ok? <==> forall i :: 0 <= i < |fields| ==> ValidEntry(fields[i], readKey)
    decreases |fields|
  {
    if fields != [] {
      var init := fields[..|fields| - 1];
      DecodeEntriesOk(init, readKey);
      assert (forall i :: 0 <= i < |fields| ==> ValidEntry(fields[i], readKey)) <==>
        (forall i :: 0 <= i < |init| ==> ValidEntry(init[i], readKey)) && ValidEntry(fields[|fields| - 1], readKey) by {
        assert forall i :: 0 <= i < |init| ==> init[i] == fields[i];
      }
    }
  }

  /** A decoded map has a cursor for chat `c` exactly when some entry's key reads as `c`. */
  lemma {:induction false} DecodeEntriesKeys(fields: seq<(string, Json)>, readKey: string -> Option<int>, c: int)
    requires DecodeEntries(fields, readKey).Ok?
    ensures c in DecodeEntries(fields, readKey).value <==> exists i :: 0 <= i < |fields| && readKey(fields[i].0) == Some(c)
    decreases |fields|
  {
    if fields != [] {
      var init := fields[..|fields| - 1];
      DecodeEntriesKeys(init, readKey, c);
      if c !in DecodeEntries(init, readKey).value && readKey(fields[|fields| - 1].0) != Some(c) {
        forall i | 0 <= i < |fields|
          ensures readKey(fields[i].0) != Some(c)
        {
          if i < |init| {
            assert init[i] == fields[i];
          }
        }
      } else if c in DecodeEntries(init, readKey).value {
        var i :| 0 <= i < |init| && readKey(init[i].0) == Some(c);
        assert fields[i] == init[i];
      }
    }
  }

  /** The last entry for a chat decides its cursor. */
  lemma DecodeEntriesLastWins(fields: seq<(string, Json)>, readKey: string -> Option<int>, c: int)
    requires DecodeEntries(fields, readKey).Ok? && |fields| > 0 && readKey(fields[|fields| - 1].0) == Some(c)
    ensures c in DecodeEntries(fields, readKey).value
    ensures DecodeEntries(fields, readKey).value[c] == CursorValue(fields[|fields| - 1].1)
  {
  }

  /**
   `load_last_trigger_update_id_by_chat`: a missing file is no cursors; a
   file that is not JSON, not an object, of another version, without the
   map object, or with a bad entry is a ValueError.
   */
  function LoadCursorState(file: StateFile): (r: Outcome<map<int, int>>)
    ensures file.Missing? ==> r == Ok(map[])
    ensures file.Unparsable? ==> r == Fail(ValueError)
    ensures r.Fail? ==> r.exc == ValueError
    ensures file.Stored? && r.Ok? ==>
      && Get(file.payload, "version").Some?
      && EqInt(Get(file.payload, "version").value, TriggerStateVersion)
      && GetObj(file.payload, CursorMapKey).Some?
    ensures r.Ok? ==> forall c :: c in r.value ==> r.value[c] >= 0
  {
    match file
    case Missing => Ok(map[])
    case Unparsable => Fail(ValueError)
    case Stored(payload) =>
      if !payload.JObj? then Fail(ValueError)
      else if Get(payload, "version").None? || !EqInt(Get(payload, "version").value, TriggerStateVersion) then Fail(ValueError)
      else
        match GetObj(payload, CursorMapKey)
        case None => Fail(ValueError)
        case Some(inner) => DecodeEntries(inner.fields, ParseInt)
  }

  /** The stored entries of the chats `cs`, in that order. */
  function Entries(cs: seq<int>, byChat: map<int, Json>): (r: seq<(string, Json)>)
    requires forall i :: 0 <= i < |cs| ==> cs[i] in byChat
    ensures |r| == |cs|
    ensures forall i :: 0 <= i < |cs| ==> r[i] == (IntToStr(cs[i]), byChat[cs[i]])
    decreases |cs|
  {
    if cs == [] then []
    else Entries(cs[..|cs| - 1], byChat) + [(IntToStr(cs[|cs| - 1]), byChat[cs[|cs| - 1]])]
  }

  /** Decoding stored entries for distinct chats gives back each chat's cursor. */
  lemma {:induction false} DecodeEntriesRoundTrip(cs: seq<int>, byChat: map<int, Json>, readKey: string -> Option<int>)
    requires forall c :: readKey(IntToStr(c)) == Some(c)
    requires forall i :: 0 <= i < |cs| ==> cs[i] in byChat && ValidCursor(byChat[cs[i]])
    ensures DecodeEntries(Entries(cs, byChat), readKey) == Ok(map c | c in cs :: CursorValue(byChat[c]))
    decreases |cs|
  {
    if cs != [] {
      var init := cs[..|cs| - 1];
      var c := cs[|cs| - 1];
      DecodeEntriesRoundTrip(init, byChat, readKey);
      DecodeEntriesSnoc(Entries(init, byChat), (IntToStr(c), byChat[c]), readKey);
      var before := map x | x in init :: CursorValue(byChat[x]);
      var after := map x | x in cs :: CursorValue(byChat[x]);
      forall x
        ensures (x in after <==> x in before[c := CursorValue(byChat[c])])
          && (x in after ==> after[x] == before[c := CursorValue(byChat[c])][x])
      {
        InitLast(cs, x);
      }
      MapExt(after, before[c := CursorValue(byChat[c])]);
    }
  }

  /** The stored chat ids of an entry list, read back with `int()`, strictly increase. */
  predicate ChatOrdered(fields: seq<(string, Json)>)
  {
    forall i, j :: 0 <= i < j < |fields| ==>
      ParseInt(fields[i].0).Some? && ParseInt(fields[j].0).Some? && ParseInt(fields[i].0).value < ParseInt(fields[j].0).value
  }

  /** The entries of chats in increasing order are stored in increasing order of chat id. */
  lemma EntriesOrdered(cs: seq<int>, byChat: map<int, Json>)
    requires forall i :: 0 <= i < |cs| ==> cs[i] in byChat
    requires forall i, j :: 0 <= i < j < |cs| ==> cs[i] < cs[j]
    ensures ChatOrdered(Entries(cs, byChat))
  {
    forall i | 0 <= i < |cs|
      ensures ParseInt(Entries(cs, byChat)[i].0) == Some(cs[i])
    {
      IntToStrRoundTrip(cs[i]);
    }
  }

  /** Every cursor is valid: the validation loop of `save_last_trigger_update_id_by_chat`. */
  method AllCursorsValid(byChat: map<int, Json>) returns (ok: bool)
    ensures ok <==> forall c :: c in byChat ==> ValidCursor(byChat[c])
  {
    var chats := Enumerate(byChat.Keys);
    var i := 0;
    while i < |chats|
      invariant 0 <= i <= |chats|
      invariant forall j :: 0 <= j < i ==> ValidCursor(byChat[chats[j]])
    {
      if !ValidCursor(byChat[chats[i]]) {
        var c := chats[i];
        assert c in byChat.Keys;
        assert c in byChat && !ValidCursor(byChat[c]);
        return false;
      }
      i := i + 1;
    }
    forall c | c in byChat
      ensures ValidCursor(byChat[c])
    {
      var j :| 0 <= j < |chats| && chats[j] == c;
    }
    return true;
  }

  /** The payload saved for the chats `cs`, in that order. */
  function StatePayload(cs: seq<int>, byChat: map<int, Json>): Json
    requires forall i :: 0 <= i < |cs| ==> cs[i] in byChat
  {
    JObj([("version", JInt(TriggerStateVersion)), (CursorMapKey, JObj(Entries(cs, byChat)))])
  }

  /** The saved payload's version and cursor map. */
  lemma StatePayloadFields(cs: seq<int>, byChat: map<int, Json>)
    requires forall i :: 0 <= i < |cs| ==> cs[i] in byChat
    ensures Get(StatePayload(cs, byChat), "version") == Some(JInt(TriggerStateVersion))
    ensures GetObj(StatePayload(cs, byChat), CursorMapKey) == Some(JObj(Entries(cs, byChat)))
  {
    var fields := StatePayload(cs, byChat).fields;
    assert CursorMapKey != "version" by {
      assert CursorMapKey[0] != "version"[0];
    }
    assert Lookup(fields[1..], CursorMapKey) == Some(JObj(Entries(cs, byChat)));
  }

  /** A payload with the right version and a cursor map loads as that map's entries. */
  lemma LoadStored(payload: Json, fields: seq<(string, Json)>)
    requires Get(payload, "version") == Some(JInt(TriggerStateVersion))
    requires GetObj(payload, CursorMapKey) == Some(JObj(fields))
    ensures LoadCursorState(Stored(payload)) == DecodeEntries(fields, ParseInt)
  {
  }

  /** Loading a saved payload gives back the cursors of exactly the saved chats. */
  lemma StatePayloadLoads(cs: seq<int>, byChat: map<int, Json>)
    requires forall i :: 0 <= i < |cs| ==> cs[i] in byChat
    requires forall c :: c in byChat ==> c in cs
    requires forall c :: c in byChat ==> ValidCursor(byChat[c])
    ensures LoadCursorState(Stored(StatePayload(cs, byChat))) == Ok(map c | c in byChat :: CursorValue(byChat[c]))
  {
    StatePayloadFields(cs, byChat);
    LoadStored(StatePayload(cs, byChat), Entries(cs, byChat));
    forall c ensures ParseInt(IntToStr(c)) == Some(c) {
      IntToStrRoundTrip(c);
    }
    DecodeEntriesRoundTrip(cs, byChat, ParseInt);
    var a := map c | c in cs :: CursorValue(byChat[c]);
    var b := map c | c in byChat :: CursorValue(byChat[c]);
    forall c
      ensures (c in a <==> c in b) && (c in a ==> a[c] == b[c])
    {
      if c in cs {
        var i :| 0 <= i < |cs| && cs[i] == c;
      }
    }
    MapExt(a, b);
  }

  /**
   `save_last_trigger_update_id_by_chat`: any cursor that is not a
   non-negative int is a ValueError; otherwise the payload carries the
   version and the map with chat ids as decimal strings in increasing
   order, and loading it gives back exactly the saved cursors.
   */
  method SaveCursorState(byChat: map<int, Json>) returns (r: Outcome<Json>)
    ensures r.Fail? <==> exists c :: c in byChat && !ValidCursor(byChat[c])
    ensures r.Fail? ==> r.exc == ValueError
    ensures r.Ok? ==> Get(r.value, "version") == Some(JInt(TriggerStateVersion))
    ensures r.Ok? ==> GetObj(r.value, CursorMapKey).Some? && ChatOrdered(GetObj(r.value, CursorMapKey).value.fields)
    ensures r.Ok? ==> LoadCursorState(Stored(r.value)) == Ok(map c | c in byChat :: CursorValue(byChat[c]))
  {
    var ok := AllCursorsValid(byChat);
    if !ok {
      return Fail(ValueError);
    }
    var cs := Ascending(byChat.Keys);
    StatePayloadFields(cs, byChat);
    EntriesOrdered(cs, byChat);
    StatePayloadLoads(cs, byChat);
    return Ok(StatePayload(cs, byChat));
  }
}
