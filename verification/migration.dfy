/**
 The one-off migration of folder-store record files from the legacy `kind`
 field to channels (core/src/k/agent/memory/folder_migrate_kind_to_channel.py):
 record file selection, the detailed sidecar lookup, Telegram input parsing,
 channel inference from a legacy Telegram record, and the payload rewrite.
 The filesystem and `json.loads` are parameters.
 */
module Migration {
  import opened Wrappers
  import opened PyStr
  import opened Json
  import opened Channels
  import opened Seqs
  import opened Sorting
  import opened TgUpdates
  import opened TgEvents

  /** `json.loads` (None for a decoding error) and `str.splitlines`. */
  datatype Codec = Codec(loads: string -> Option<Json>, splitLines: string -> seq<string>)

  /** A filesystem path as its list of components; the last one is the name. */
  type FsPath = seq<string>

  /**
   The files the migration reads: `path.exists()`, `path.read_text().splitlines()`
   (None for an OSError) and `json.loads(path.read_text())` for a record file
   (None when reading or decoding raises).
   */
  datatype Disk = Disk(present: FsPath -> bool, readLines: FsPath -> Option<seq<string>>,
                       readRecord: FsPath -> Option<Json>)

  function Name(p: FsPath): string
  {
    if p == [] then "" else p[|p| - 1]
  }

  // ---------------------------------------------------------------------
  // Record file selection

  /** Python's ordering of paths: component lists compared lexicographically. */
  predicate PathLe(a: FsPath, b: FsPath)
  {
    a == [] || (b != [] && ((a[0] != b[0] && StrLe(a[0], b[0])) || (a[0] == b[0] && PathLe(a[1..], b[1..]))))
  }

  lemma {:induction false} PathLeTotal(a: FsPath, b: FsPath)
    ensures PathLe(a, b) || PathLe(b, a)
  {
    if a != [] && b != [] {
      if a[0] == b[0] {
        PathLeTotal(a[1..], b[1..]);
      } else {
        StrLeTotal(a[0], b[0]);
      }
    }
  }

  lemma {:induction false} PathLeTransitive(a: FsPath, b: FsPath, c: FsPath)
    requires PathLe(a, b) && PathLe(b, c)
    ensures PathLe(a, c)
  {
    if a != [] {
      if a[0] == b[0] && b[0] == c[0] {
        PathLeTransitive(a[1..], b[1..], c[1..]);
      } else if a[0] != b[0] && b[0] != c[0] {
        StrLeTransitive(a[0], b[0], c[0]);
        if a[0] == c[0] {
          StrLeAntisymmetric(a[0], b[0]);
        }
      }
    }
  }

  lemma {:induction false} PathLeAntisymmetric(a: FsPath, b: FsPath)
    requires PathLe(a, b) && PathLe(b, a)
    ensures a == b
  {
    if a != [] {
      if a[0] == b[0] {
        PathLeAntisymmetric(a[1..], b[1..]);
        assert a == [a[0]] + a[1..] && b == [b[0]] + b[1..];
      } else {
        StrLeAntisymmetric(a[0], b[0]);
      }
    }
  }

  lemma PathOrderIsTotal()
    ensures IsTotalOrder((a: FsPath, b: FsPath) => PathLe(a, b))
  {
    forall a: FsPath, b: FsPath ensures PathLe(a, b) || PathLe(b, a) {
      PathLeTotal(a, b);
    }
    forall a: FsPath, b: FsPath, c: FsPath | PathLe(a, b) && PathLe(b, c) ensures PathLe(a, c) {
      PathLeTransitive(a, b, c);
    }
    forall a: FsPath, b: FsPath | PathLe(a, b) && PathLe(b, a) ensures a == b {
      PathLeAntisymmetric(a, b);
    }
  }

  /** Sidecar files (`*.detailed.json`, `*.compacted.json`) are not records. */
  predicate IsRecordFile(p: FsPath)
  {
    !EndsWith(Name(p), ".detailed.json") && !EndsWith(Name(p), ".compacted.json")
  }

  /**
   `_iter_record_json_files`: of the `*.json` paths the directory walk found,
   the record files, sorted.
   */
  function RecordJsonFiles(found: seq<FsPath>): (files: seq<FsPath>)
    ensures SortedBy(files, (a: FsPath, b: FsPath) => PathLe(a, b))
    ensures multiset(files) == multiset(Filter(found, IsRecordFile))
    ensures forall p :: p in files <==> p in found && IsRecordFile(p)
  {
    PathOrderIsTotal();
    var kept := Filter(found, IsRecordFile);
    var files := Sort(kept, (a: FsPath, b: FsPath) => PathLe(a, b));
    forall p
      ensures p in files <==> p in found && IsRecordFile(p)
    {
      FilterMembers(found, IsRecordFile, p);
      assert p in files <==> p in multiset(files);
      assert p in kept <==> p in multiset(kept);
    }
    files
  }

  /** The selection is the one sorted arrangement of the kept paths. */
  lemma RecordJsonFilesUnique(found: seq<FsPath>, other: seq<FsPath>)
    requires SortedBy(other, (a: FsPath, b: FsPath) => PathLe(a, b))
    requires multiset(other) == multiset(Filter(found, IsRecordFile))
    ensures other == RecordJsonFiles(found)
  {
    PathOrderIsTotal();
    SortedUnique(other, RecordJsonFiles(found), (a: FsPath, b: FsPath) => PathLe(a, b));
  }

  // ---------------------------------------------------------------------
  // The detailed sidecar

  function DropSuffix(s: string, suffix: string): (r: string)
    requires EndsWith(s, suffix)
    ensures r + suffix == s
  {
    s[..|s| - |suffix|]
  }

  /**
   `_detailed_path_for_record`: `<id>.core.json` and `<id>.json` (but not
   `<id>.detailed.json`) have the sidecar `<id>.detailed.jsonl` beside them.
   */
  function DetailedPathFor(p: FsPath): (r: Option<FsPath>)
    ensures r.Some? ==> p != [] && |r.value| == |p| && r.value[..|p| - 1] == p[..|p| - 1]
    ensures r.Some? ==> EndsWith(Name(r.value), ".detailed.jsonl")
    ensures r.Some? <==> EndsWith(Name(p), ".core.json")
                         || (EndsWith(Name(p), ".json") && !EndsWith(Name(p), ".detailed.json"))
  {
    var name := Name(p);
    if EndsWith(name, ".core.json") then
      Some(p[..|p| - 1] + [DropSuffix(name, ".core.json") + ".detailed.jsonl"])
    else if EndsWith(name, ".json") && !EndsWith(name, ".detailed.json") then
      Some(p[..|p| - 1] + [DropSuffix(name, ".json") + ".detailed.jsonl"])
    else None
  }

  /** The sidecar of `<id>.core.json` and of a plain `<id>.json` is `<id>.detailed.jsonl`. */
  lemma DetailedNameKeepsId(dir: FsPath, id: string, suffix: string)
    requires suffix == ".core.json" || (suffix == ".json" && !EndsWith(id + suffix, ".core.json")
                                        && !EndsWith(id + suffix, ".detailed.json"))
    ensures DetailedPathFor(dir + [id + suffix]) == Some(dir + [id + ".detailed.jsonl"])
  {
    var p := dir + [id + suffix];
    assert Name(p) == id + suffix;
    assert (id + suffix)[|id + suffix| - |suffix|..] == suffix;
    assert DropSuffix(id + suffix, suffix) == id;
    assert p[..|p| - 1] == dir;
  }

  /**
   `_read_legacy_input_text_from_detailed`, the loop over the sidecar's
   lines: blank lines are skipped and the first other line decides.
   */
  function SidecarInput(lines: seq<string>, loads: string -> Option<Json>): Option<string>
  {
    if lines == [] then None
    else if Strip(lines[0]) == [] then SidecarInput(lines[1..], loads)
    else LineInput(Strip(lines[0]), loads)
  }

  /**
   What the deciding line yields: a JSON string is the input itself, an
   object or array line is taken verbatim, anything else (or a decoding
   error) gives None.
   */
  function LineInput(line: string, loads: string -> Option<Json>): Option<string>
  {
    match loads(line)
    case Some(JStr(s)) => Some(s)
    case Some(JObj(_)) => Some(line)
    case Some(JArr(_)) => Some(line)
    case _ => None
  }

  /** The position of the first line that is not blank. */
  function FirstNonBlank(lines: seq<string>): (r: Option<nat>)
    ensures r.Some? ==> r.value < |lines| && Strip(lines[r.value]) != []
    ensures r.Some? ==> forall j :: 0 <= j < r.value ==> Strip(lines[j]) == []
    ensures r.None? ==> forall j :: 0 <= j < |lines| ==> Strip(lines[j]) == []
  {
    FirstIndex(lines, NotBlank)
  }

  predicate NotBlank(line: string)
  {
    Strip(line) != []
  }

  /** The sidecar's input is what its first non-blank line yields; an all-blank sidecar yields None. */
  lemma {:induction false} SidecarDecidedByFirstLine(lines: seq<string>, loads: string -> Option<Json>)
    ensures SidecarInput(lines, loads) ==
      match FirstNonBlank(lines)
      case None => None
      case Some(k) => LineInput(Strip(lines[k]), loads)
  {
    if lines != [] && Strip(lines[0]) == [] {
      SidecarDecidedByFirstLine(lines[1..], loads);
      match FirstNonBlank(lines[1..])
      case None =>
      case Some(k) => assert lines[1..][k] == lines[k + 1];
    }
  }

  /**
   `_extract_legacy_input_text`: a string `input` field, else the sidecar
   input when the sidecar exists and can be read.
   */
  function LegacyInput(data: Json, path: FsPath, disk: Disk, codec: Codec): (r: Option<string>)
    ensures GetStr(data, "input").Some? ==> r == GetStr(data, "input")
    ensures GetStr(data, "input").None? && r.Some? ==>
      DetailedPathFor(path).Some? && disk.present(DetailedPathFor(path).value)
      && disk.readLines(DetailedPathFor(path).value).Some?
  {
    match GetStr(data, "input")
    case Some(s) => Some(s)
    case None =>
      match DetailedPathFor(path)
      case None => None
      case Some(d) =>
        if !disk.present(d) then None
        else
          match disk.readLines(d)
          case None => None
          case Some(lines) => SidecarInput(lines, codec.loads)
  }

  // ---------------------------------------------------------------------
  // Telegram input and channel inference

  /** The JSON objects among the non-blank lines, in order. */
  function LineObjects(lines: seq<string>, loads: string -> Option<Json>): (r: seq<Json>)
    ensures forall k :: 0 <= k < |r| ==> r[k].JObj?
    ensures |r| <= |lines|
  {
    if lines == [] then []
    else LineObject(lines[0], loads) + LineObjects(lines[1..], loads)
  }

  /** One line's contribution: its object, or nothing for a blank or non-object line. */
  function LineObject(raw: string, loads: string -> Option<Json>): (r: seq<Json>)
    ensures |r| <= 1
    ensures r != [] ==> r[0].JObj? && Strip(raw) != [] && loads(Strip(raw)) == Some(r[0])
  {
    var line := Strip(raw);
    if line == [] then []
    else
      match loads(line)
      case Some(JObj(f)) => [JObj(f)]
      case _ => []
  }

  /** `_parse_telegram_updates`: objects one per line, else one object or an array of them. */
  function ParseTelegramUpdates(text: string, codec: Codec): (r: seq<Json>)
    ensures forall k :: 0 <= k < |r| ==> r[k].JObj?
    ensures LineObjects(codec.splitLines(text), codec.loads) != [] ==>
      r == LineObjects(codec.splitLines(text), codec.loads)
    ensures LineObjects(codec.splitLines(text), codec.loads) == [] && Strip(text) != [] ==>
      match codec.loads(Strip(text))
      case Some(JObj(f)) => r == [JObj(f)]
      case Some(JArr(items)) => forall x :: x in r <==> x in items && x.JObj?
      case _ => r == []
  {
    var perLine := LineObjects(codec.splitLines(text), codec.loads);
    if perLine != [] then perLine
    else
      var stripped := Strip(text);
      if stripped == [] then []
      else
        match codec.loads(stripped)
        case Some(JObj(f)) => [JObj(f)]
        case Some(JArr(items)) =>
          FilterMembersAll(items, (x: Json) => x.JObj?);
          Filter(items, (x: Json) => x.JObj?)
        case _ => []
  }

  /** Line `k` holds, after stripping, exactly the object `objs[k]`. */
  predicate OneObjectEach(lines: seq<string>, objs: seq<Json>, loads: string -> Option<Json>)
  {
    |lines| == |objs|
    && (forall k :: 0 <= k < |lines| ==> Strip(lines[k]) != [] && loads(Strip(lines[k])) == Some(objs[k]))
    && (forall k :: 0 <= k < |objs| ==> objs[k].JObj?)
  }

  lemma OneObjectEachTail(lines: seq<string>, objs: seq<Json>, loads: string -> Option<Json>)
    requires lines != [] && OneObjectEach(lines, objs, loads)
    ensures OneObjectEach(lines[1..], objs[1..], loads)
    ensures LineObject(lines[0], loads) == [objs[0]]
  {
    assert forall k :: 0 <= k < |lines| - 1 ==> lines[1..][k] == lines[k + 1] && objs[1..][k] == objs[k + 1];
  }

  /** Text whose lines each hold one JSON object parses to exactly those objects. */
  lemma {:induction false} OneObjectPerLine(lines: seq<string>, objs: seq<Json>, loads: string -> Option<Json>)
    requires OneObjectEach(lines, objs, loads)
    ensures LineObjects(lines, loads) == objs
  {
    if lines != [] {
      OneObjectEachTail(lines, objs, loads);
      OneObjectPerLine(lines[1..], objs[1..], loads);
      assert objs == [objs[0]] + objs[1..];
    }
  }

  /**
   `_infer_in_channel_from_legacy_kind`: only for `kind == "telegram"`
   with non-empty input holding at least one update; then the chat channel
   when the updates name exactly one chat, else plain "telegram".
   */
  function InferInChannel(data: Json, path: FsPath, disk: Disk, codec: Codec): (r: Option<string>)
    ensures r.Some? ==> Get(data, "kind") == Some(JStr("telegram"))
    ensures r.Some? ==> IsChannel(r.value) && Root(r.value) == "telegram" && Validate(r.value) == Ok(r.value)
  {
    if Get(data, "kind") != Some(JStr("telegram")) then None
    else
      match LegacyInput(data, path, disk, codec)
      case None => None
      case Some(text) =>
        if text == [] then None
        else InferFromUpdates(ParseTelegramUpdates(text, codec))
  }

  /** The channel named by a non-empty batch of parsed updates. */
  function InferFromUpdates(updates: seq<Json>): (r: Option<string>)
    ensures r.Some? <==> updates != []
    ensures r.Some? ==> IsChannel(r.value) && Root(r.value) == "telegram" && Validate(r.value) == Ok(r.value)
    ensures r.Some? && r.value != "telegram" ==> exists id :: SingleChat(updates, id) && r.value == ChatChannel(id)
    ensures forall id :: SingleChat(updates, id) ==> r == Some(ChatChannel(id))
  {
    TelegramIsChannel();
    ChannelValidatesToItself("telegram");
    if updates == [] then
      assert forall id :: !SingleChat(updates, id);
      None
    else
      match SharedChat(updates)
      case None => Some("telegram")
      case Some(id) =>
        ChatChannelShape(id);
        ChannelValidatesToItself(ChatChannel(id));
        SingleChatUnique(updates, id);
        Some(ChatChannel(id))
  }

  lemma SingleChatUnique(us: seq<Json>, id: int)
    requires SingleChat(us, id)
    ensures forall other :: SingleChat(us, other) ==> other == id
  {
  }

  // ---------------------------------------------------------------------
  // Payload rewrite

  /** The three keys the rewrite touches are different keys. */
  lemma KeyNamesDiffer()
    ensures "in_channel" != "out_channel" && "in_channel" != "kind" && "out_channel" != "kind"
  {
    assert "in_channel"[0] == 'i' && "out_channel"[0] == 'o' && "kind"[0] == 'k';
  }

  datatype Migrated = Migrated(changed: bool, data: Json)

  /** The in-channel step: the validated in-channel, the data after it, and whether it changed. */
  datatype InStep = InStep(inChannel: string, data: Json, changed: bool)

  /** A string `in_channel` is validated and the payload is left as it was. */
  function KeepIn(data: Json, written: string): (r: Outcome<InStep>)
    ensures r.Fail? ==> r.exc == ValueError
    ensures r.Ok? <==> Validate(written).Ok?
    ensures r.Ok? ==> r.value.data == data && !r.value.changed && Validate(written) == Ok(r.value.inChannel)
  {
    match Validate(written)
    case Fail(_) => Fail(ValueError)
    case Ok(v) => Ok(InStep(v, data, false))
  }

  /**
   Without a string `in_channel` a string `kind` is required; the inferred
   channel replaces it when there is one, and the validated result is
   stored as `in_channel`.
   */
  function DeriveIn(data: Json, inferred: Option<string>): (r: Outcome<InStep>)
    requires data.JObj?
    ensures r.Fail? ==> r.exc == ValueError
    ensures r.Ok? <==> GetStr(data, "kind").Some? && Validate(inferred.GetOr(GetStr(data, "kind").value)).Ok?
    ensures r.Ok? ==> r.value.changed && r.value.data.JObj?
    ensures r.Ok? ==> r.value.inChannel == Validate(inferred.GetOr(GetStr(data, "kind").value)).value
    ensures r.Ok? ==> Get(r.value.data, "in_channel") == Some(JStr(r.value.inChannel))
    ensures r.Ok? ==> Validate(r.value.inChannel) == Ok(r.value.inChannel)
    ensures r.Ok? ==> forall k :: k != "in_channel" ==> Get(r.value.data, k) == Get(data, k)
  {
    match GetStr(data, "kind")
    case None => Fail(ValueError)
    case Some(kind) =>
      match Validate(inferred.GetOr(kind))
      case Fail(_) => Fail(ValueError)
      case Ok(v) =>
        ValidateIdempotent(inferred.GetOr(kind));
        Ok(InStep(v, Set(data, "in_channel", JStr(v)), true))
  }

  /** The in-channel half of the rewrite. */
  function MigrateIn(data: Json, inferred: Option<string>): (r: Outcome<InStep>)
    requires data.JObj?
    ensures r.Fail? ==> r.exc == ValueError
    ensures r.Ok? ==> r.value.data.JObj?
    ensures r.Ok? ==> (GetStr(r.value.data, "in_channel").Some?
                       && Validate(GetStr(r.value.data, "in_channel").value) == Ok(r.value.inChannel))
    ensures r.Ok? ==> forall k :: k != "in_channel" ==> Get(r.value.data, k) == Get(data, k)
    ensures r.Ok? ==> (r.value.changed <==> GetStr(data, "in_channel").None?)
    ensures r.Ok? ==> (r.value.changed <==> r.value.data != data)
  {
    match GetStr(data, "in_channel")
    case Some(s) => KeepIn(data, s)
    case None =>
      var r := DeriveIn(data, inferred);
      if r.Ok? then
        assert GetStr(r.value.data, "in_channel") != GetStr(data, "in_channel");
        r
      else r
  }

  /**
   The out-channel half: a missing key is added as null, null stays, a
   string is validated and becomes null when it names the in-channel, and
   any other value is a ValueError.
   */
  function MigrateOut(data: Json, inChannel: string): (r: Outcome<(Json, bool)>)
    requires data.JObj?
    ensures r.Fail? ==> r.exc == ValueError
    ensures r.Fail? <==> !OutChannelAccepted(Get(data, "out_channel"))
    ensures r.Ok? ==> r.value.0.JObj?
    ensures r.Ok? ==> forall k :: k != "out_channel" ==> Get(r.value.0, k) == Get(data, k)
    ensures r.Ok? ==> (r.value.1 <==> r.value.0 != data)
    ensures r.Ok? ==> OutChannelSettled(r.value.0, inChannel)
    ensures r.Ok? && Get(data, "out_channel").None? ==> Get(r.value.0, "out_channel") == Some(JNull)
  {
    match OutDecision(Get(data, "out_channel"), inChannel)
    case Fail(e) => Fail(e)
    case Ok(toNull) => if toNull then Ok((NullOut(data), true)) else Ok((data, false))
  }

  /**
   What the out-channel step does with the current value: Ok(true) to store
   null, Ok(false) to keep it, or a ValueError.
   */
  function OutDecision(v: Option<Json>, inChannel: string): (r: Outcome<bool>)
    ensures r.Fail? ==> r.exc == ValueError
    ensures r.Fail? <==> !OutChannelAccepted(v)
    ensures r == Ok(true) ==> v != Some(JNull)
    ensures r == Ok(false) ==> SettledOut(v, inChannel)
    ensures v.None? ==> r == Ok(true)
  {
    match v
    case None => Ok(true)
    case Some(JNull) => Ok(false)
    case Some(JStr(o)) => StrOutDecision(o, inChannel)
    case Some(_) => Fail(ValueError)
  }

  /** A string out-channel must validate; it is nulled when it names the in-channel. */
  function StrOutDecision(o: string, inChannel: string): (r: Outcome<bool>)
    ensures r.Fail? <==> Validate(o).Fail?
    ensures r.Fail? ==> r.exc == ValueError
    ensures r.Ok? ==> (r.value <==> Validate(o).value == inChannel)
  {
    match Validate(o)
    case Fail(_) => Fail(ValueError)
    case Ok(c) => Ok(c == inChannel)
  }

  /** `data["out_channel"] = None` on a payload whose out-channel is not already null. */
  function NullOut(data: Json): (r: Json)
    requires data.JObj? && Get(data, "out_channel") != Some(JNull)
    ensures r.JObj? && Get(r, "out_channel") == Some(JNull) && r != data
    ensures forall k :: k != "out_channel" ==> Get(r, k) == Get(data, k)
  {
    Set(data, "out_channel", JNull)
  }

  /** An `out_channel` value the rewrite accepts: absent, null, or a valid channel string. */
  predicate OutChannelAccepted(v: Option<Json>)
  {
    match v
    case None => true
    case Some(JNull) => true
    case Some(JStr(o)) => Validate(o).Ok?
    case Some(_) => false
  }

  /** `out_channel` is null, or a valid channel other than `inChannel`. */
  predicate OutChannelSettled(d: Json, inChannel: string)
  {
    SettledOut(Get(d, "out_channel"), inChannel)
  }

  predicate SettledOut(v: Option<Json>, inChannel: string)
  {
    match v
    case Some(JNull) => true
    case Some(JStr(o)) => Validate(o).Ok? && Validate(o).value != inChannel
    case _ => false
  }

  /** The last step: a `kind` key is popped. */
  function DropKind(d: Json): (r: Json)
    requires d.JObj?
    ensures r.JObj? && !HasKey(r, "kind")
    ensures forall k :: k != "kind" ==> Get(r, k) == Get(d, k)
    ensures r == d <==> !HasKey(d, "kind")
  {
    if HasKey(d, "kind") then
      var r := Remove(d, "kind");
      assert Get(r, "kind") != Get(d, "kind");
      r
    else d
  }

  /** The shape every successfully migrated payload has. */
  predicate IsMigrated(d: Json)
  {
    && d.JObj?
    && GetStr(d, "in_channel").Some? && Validate(GetStr(d, "in_channel").value).Ok?
    && !HasKey(d, "kind")
    && OutChannelSettled(d, Validate(GetStr(d, "in_channel").value).value)
  }

  /**
   `_migrate_record_payload`: a non-object is a ValueError; otherwise the
   in-channel step, the out-channel step and the removal of `kind`, with
   `changed` reporting whether anything was edited. `inferred` is the
   Telegram inference for this record (see `MigrateRecord`).
   */
  function MigratePayload(payload: Json, inferred: Option<string>): (r: Outcome<Migrated>)
    ensures r.Fail? ==> r.exc == ValueError
    ensures !payload.JObj? ==> r.Fail?
    ensures r.Ok? ==> IsMigrated(r.value.data)
    ensures r.Ok? ==> (r.value.changed <==> r.value.data != payload)
  {
    if !payload.JObj? then Fail(ValueError)
    else
      match MigrateIn(payload, inferred)
      case Fail(e) => Fail(e)
      case Ok(step) =>
        match MigrateOut(step.data, step.inChannel)
        case Fail(e) => Fail(e)
        case Ok(out) =>
          var d := DropKind(out.0);
          FinalShape(step, out.0, d);
          ChangedIffEdited(payload, step, out.0, out.1, d);
          Ok(Migrated(step.changed || out.1 || HasKey(out.0, "kind"), d))
  }

  lemma FinalShape(step: InStep, out: Json, d: Json)
    requires GetStr(step.data, "in_channel").Some? && Validate(GetStr(step.data, "in_channel").value) == Ok(step.inChannel)
    requires forall k :: k != "out_channel" ==> Get(out, k) == Get(step.data, k)
    requires OutChannelSettled(out, step.inChannel)
    requires d.JObj? && !HasKey(d, "kind")
    requires forall k :: k != "kind" ==> Get(d, k) == Get(out, k)
    ensures IsMigrated(d)
  {
    KeyNamesDiffer();
    assert Get(d, "in_channel") == Get(out, "in_channel") == Get(step.data, "in_channel");
    assert GetStr(d, "in_channel") == GetStr(step.data, "in_channel");
    assert Get(d, "out_channel") == Get(out, "out_channel");
    assert OutChannelSettled(d, step.inChannel);
  }

  lemma ChangedIffEdited(payload: Json, step: InStep, out: Json, outChanged: bool, d: Json)
    requires step.changed <==> step.data != payload
    requires step.changed ==> Get(step.data, "in_channel") != Get(payload, "in_channel")
    requires outChanged <==> out != step.data
    requires forall k :: k != "out_channel" ==> Get(out, k) == Get(step.data, k)
    requires outChanged ==> Get(out, "out_channel") != Get(step.data, "out_channel")
    requires !step.changed ==> forall k :: Get(step.data, k) == Get(payload, k)
    requires forall k :: k != "kind" ==> Get(d, k) == Get(out, k)
    requires d == out <==> !HasKey(out, "kind")
    requires HasKey(out, "kind") ==> !HasKey(d, "kind")
    ensures (step.changed || outChanged || HasKey(out, "kind")) <==> d != payload
  {
    KeyNamesDiffer();
    if step.changed {
      assert Get(d, "in_channel") != Get(payload, "in_channel");
    } else if outChanged {
      assert Get(d, "out_channel") != Get(payload, "out_channel");
    } else if HasKey(out, "kind") {
      assert Get(d, "kind") != Get(payload, "kind");
    }
  }

  /** The keys the rewrite does not own are left exactly as they were. */
  lemma MigrateKeepsOtherKeys(payload: Json, inferred: Option<string>, k: string)
    requires MigratePayload(payload, inferred).Ok?
    requires k != "in_channel" && k != "out_channel" && k != "kind"
    ensures Get(MigratePayload(payload, inferred).value.data, k) == Get(payload, k)
  {
    var step := MigrateIn(payload, inferred).value;
    var out := MigrateOut(step.data, step.inChannel).value;
    DropKindKeeps(out.0, k);
    OutKeeps(step.data, step.inChannel, k);
  }

  /**
   Which in-channel the migrated payload carries: a string `in_channel` as
   it was written, otherwise the validated inference or `kind`.
   */
  lemma MigrateInChannel(payload: Json, inferred: Option<string>)
    requires MigratePayload(payload, inferred).Ok?
    ensures GetStr(payload, "in_channel").Some? ==>
      Get(MigratePayload(payload, inferred).value.data, "in_channel") == Get(payload, "in_channel")
    ensures GetStr(payload, "in_channel").None? ==>
      GetStr(payload, "kind").Some?
      && GetStr(MigratePayload(payload, inferred).value.data, "in_channel")
         == Some(Validate(inferred.GetOr(GetStr(payload, "kind").value)).value)
  {
    KeyNamesDiffer();
    MigratedData(payload, inferred);
    var step := MigrateIn(payload, inferred).value;
    var out := MigrateOut(step.data, step.inChannel).value;
    DropKindKeeps(out.0, "in_channel");
    OutKeeps(step.data, step.inChannel, "in_channel");
    if GetStr(payload, "in_channel").None? {
      assert step == DeriveIn(payload, inferred).value;
    } else {
      assert step == KeepIn(payload, GetStr(payload, "in_channel").value).value;
    }
  }

  /** Dropping `kind` keeps every other key. */
  lemma DropKindKeeps(d: Json, k: string)
    requires d.JObj? && k != "kind"
    ensures Get(DropKind(d), k) == Get(d, k)
  {
  }

  /** A successful out-channel step keeps every key but `out_channel`. */
  lemma OutKeeps(data: Json, inChannel: string, k: string)
    requires data.JObj? && MigrateOut(data, inChannel).Ok? && k != "out_channel"
    ensures Get(MigrateOut(data, inChannel).value.0, k) == Get(data, k)
  {
  }

  /** A successful migration went through both steps and dropped `kind` from the result. */
  lemma MigratedData(payload: Json, inferred: Option<string>)
    requires MigratePayload(payload, inferred).Ok?
    ensures payload.JObj? && MigrateIn(payload, inferred).Ok?
    ensures var step := MigrateIn(payload, inferred).value;
      && MigrateOut(step.data, step.inChannel).Ok?
      && MigratePayload(payload, inferred).value.data == DropKind(MigrateOut(step.data, step.inChannel).value.0)
  {
  }

  /** A payload without `out_channel` gets an explicit null. */
  lemma MigrateAddsNullOut(payload: Json, inferred: Option<string>)
    requires MigratePayload(payload, inferred).Ok?
    requires !HasKey(payload, "out_channel")
    ensures Get(MigratePayload(payload, inferred).value.data, "out_channel") == Some(JNull)
    ensures MigratePayload(payload, inferred).value.changed
  {
    KeyNamesDiffer();
    var step := MigrateIn(payload, inferred).value;
    assert Get(step.data, "out_channel") == Get(payload, "out_channel");
    var out := MigrateOut(step.data, step.inChannel).value;
    assert Get(DropKind(out.0), "out_channel") == Get(out.0, "out_channel");
  }

  /**
   The failure cases: a non-object, neither a string `in_channel` nor a
   string `kind`, an invalid channel, or an `out_channel` that is not null
   or a valid channel string.
   */
  lemma MigrateFailsWhen(payload: Json, inferred: Option<string>)
    requires payload.JObj?
    ensures GetStr(payload, "in_channel").None? && GetStr(payload, "kind").None? ==> MigratePayload(payload, inferred).Fail?
    ensures GetStr(payload, "in_channel").Some? && Validate(GetStr(payload, "in_channel").value).Fail? ==>
      MigratePayload(payload, inferred).Fail?
    ensures !OutChannelAccepted(Get(payload, "out_channel")) ==> MigratePayload(payload, inferred).Fail?
  {
    InStepFailsWhen(payload, inferred);
    if MigrateIn(payload, inferred).Fail? {
      assert MigratePayload(payload, inferred).Fail?;
    } else if !OutChannelAccepted(Get(payload, "out_channel")) {
      OutStepFails(payload, inferred);
    }
  }

  lemma InStepFailsWhen(payload: Json, inferred: Option<string>)
    requires payload.JObj?
    ensures GetStr(payload, "in_channel").None? && GetStr(payload, "kind").None? ==> MigrateIn(payload, inferred).Fail?
    ensures GetStr(payload, "in_channel").Some? && Validate(GetStr(payload, "in_channel").value).Fail? ==>
      MigrateIn(payload, inferred).Fail?
  {
  }

  lemma OutStepFails(payload: Json, inferred: Option<string>)
    requires payload.JObj? && MigrateIn(payload, inferred).Ok?
    requires !OutChannelAccepted(Get(payload, "out_channel"))
    ensures MigratePayload(payload, inferred).Fail?
  {
    KeyNamesDiffer();
    var step := MigrateIn(payload, inferred).value;
    assert Get(step.data, "out_channel") == Get(payload, "out_channel");
    assert MigrateOut(step.data, step.inChannel).Fail?;
  }

  /** Migrating an already migrated payload changes nothing, whatever the inference says. */
  lemma MigrateIdempotent(payload: Json, inferred: Option<string>, again: Option<string>)
    requires MigratePayload(payload, inferred).Ok?
    ensures var d := MigratePayload(payload, inferred).value.data;
      MigratePayload(d, again) == Ok(Migrated(false, d))
  {
    var d := MigratePayload(payload, inferred).value.data;
    MigratedIsFixed(d, again);
  }

  lemma MigratedIsFixed(d: Json, inferred: Option<string>)
    requires IsMigrated(d)
    ensures MigratePayload(d, inferred) == Ok(Migrated(false, d))
  {
    var inC := GetStr(d, "in_channel").value;
    assert MigrateIn(d, inferred) == Ok(InStep(Validate(inC).value, d, false));
    assert MigrateOut(d, Validate(inC).value) == Ok((d, false));
  }

  /** The whole record step: inference for this record, then the payload rewrite. */
  function MigrateRecord(payload: Json, path: FsPath, disk: Disk, codec: Codec): (r: Outcome<Migrated>)
    ensures r.Fail? ==> r.exc == ValueError
    ensures r.Ok? ==> IsMigrated(r.value.data) && (r.value.changed <==> r.value.data != payload)
    ensures payload.JObj? && GetStr(payload, "in_channel").None? && Get(payload, "kind") == Some(JStr("telegram"))
            && (Get(payload, "out_channel").None? || Get(payload, "out_channel") == Some(JNull))
      ==> r.Ok? && Root(GetStr(r.value.data, "in_channel").value) == "telegram"
  {
    var inferred := if payload.JObj? then InferInChannel(payload, path, disk, codec) else None;
    if payload.JObj? && GetStr(payload, "in_channel").None? && Get(payload, "kind") == Some(JStr("telegram"))
       && (Get(payload, "out_channel").None? || Get(payload, "out_channel") == Some(JNull)) then
      TelegramKindMigrates(payload, inferred);
      MigratePayload(payload, inferred)
    else MigratePayload(payload, inferred)
  }

  /**
   A record in the legacy shape the kind-to-channel step rewrites: an
   object with `kind` but no string `in_channel`, no out-channel (absent or
   null), and any inferred channel valid and under `kind`.
   */
  predicate LegacyKindRecord(payload: Json, inferred: Option<string>, kind: string)
  {
    && payload.JObj?
    && GetStr(payload, "in_channel").None?
    && Get(payload, "kind") == Some(JStr(kind))
    && (Get(payload, "out_channel").None? || Get(payload, "out_channel") == Some(JNull))
    && (inferred.Some? ==> Validate(inferred.value) == Ok(inferred.value) && Root(inferred.value) == kind)
  }

  /** The payload migrates, and its stored `in_channel` lies under `root`. */
  predicate MigratesUnder(payload: Json, inferred: Option<string>, root: string)
  {
    && MigratePayload(payload, inferred).Ok?
    && GetStr(MigratePayload(payload, inferred).value.data, "in_channel").Some?
    && Root(GetStr(MigratePayload(payload, inferred).value.data, "in_channel").value) == root
  }

  /**
   A legacy Telegram record without an out-channel always migrates, to a
   channel under "telegram", whatever its input holds: every inferred
   channel, and "telegram" itself, pass validation.
   */
  lemma TelegramKindMigrates(payload: Json, inferred: Option<string>)
    requires LegacyKindRecord(payload, inferred, "telegram")
    ensures MigratesUnder(payload, inferred, "telegram")
  {
    TelegramIsRootChannel("telegram");
    KindMigrates(payload, inferred, "telegram");
  }

  /**
   A legacy record whose `kind` is a root channel, without an out-channel,
   migrates to a channel under that root when every inferred channel lies
   under it.
   */
  lemma KindMigrates(payload: Json, inferred: Option<string>, kind: string)
    requires LegacyKindRecord(payload, inferred, kind)
    requires IsChannel(kind) && Root(kind) == kind
    ensures MigratesUnder(payload, inferred, kind)
  {
    ChannelValidatesToItself(kind);
    KindInStep(payload, inferred, kind);
    AcceptedOutMigrates(payload, inferred);
    DerivedChannelStored(payload, inferred);
  }

  /** A successful in-channel step followed by an accepted `out_channel` migrates. */
  lemma AcceptedOutMigrates(payload: Json, inferred: Option<string>)
    requires payload.JObj? && MigrateIn(payload, inferred).Ok?
    requires OutChannelAccepted(Get(MigrateIn(payload, inferred).value.data, "out_channel"))
    ensures MigratePayload(payload, inferred).Ok?
  {
    var step := MigrateIn(payload, inferred).value;
    OutAcceptedSucceeds(step.data, step.inChannel);
  }

  /** An accepted `out_channel` never makes the out-channel step fail. */
  lemma OutAcceptedSucceeds(data: Json, inChannel: string)
    requires data.JObj? && OutChannelAccepted(Get(data, "out_channel"))
    ensures MigrateOut(data, inChannel).Ok?
  {
  }

  /** When `in_channel` is derived, the migrated payload stores exactly the derived channel. */
  lemma DerivedChannelStored(payload: Json, inferred: Option<string>)
    requires MigratePayload(payload, inferred).Ok? && GetStr(payload, "in_channel").None?
    ensures GetStr(MigratePayload(payload, inferred).value.data, "in_channel") == Some(MigrateIn(payload, inferred).value.inChannel)
  {
    KeyNamesDiffer();
    var step := MigrateIn(payload, inferred).value;
    assert step == DeriveIn(payload, inferred).value;
    var out := MigrateOut(step.data, step.inChannel).value;
    DropKindKeeps(out.0, "in_channel");
    OutKeeps(step.data, step.inChannel, "in_channel");
  }

  /** "telegram" is a channel that validates to itself and is its own root. */
  lemma TelegramIsRootChannel(kind: string)
    requires kind == "telegram"
    ensures IsChannel(kind) && Root(kind) == kind
  {
    TelegramIsChannel();
  }

  /**
   Deriving from a `kind` that is itself a root channel, with an inferred
   channel under it if any, succeeds under `kind`.
   */
  lemma KindInStep(payload: Json, inferred: Option<string>, kind: string)
    requires payload.JObj? && GetStr(payload, "in_channel").None? && Get(payload, "kind") == Some(JStr(kind))
    requires Validate(kind) == Ok(kind) && Root(kind) == kind
    requires inferred.Some? ==> Validate(inferred.value) == Ok(inferred.value) && Root(inferred.value) == kind
    ensures MigrateIn(payload, inferred).Ok?
    ensures Root(MigrateIn(payload, inferred).value.inChannel) == kind
    ensures Get(MigrateIn(payload, inferred).value.data, "out_channel") == Get(payload, "out_channel")
  {
    assert GetStr(payload, "kind") == Some(kind);
    var step := DeriveValidChannel(payload, inferred, inferred.GetOr(kind));
  }

  /** Deriving from `kind` a channel that already validates to itself stores that channel. */
  lemma DeriveValidChannel(payload: Json, inferred: Option<string>, c: string) returns (step: InStep)
    requires payload.JObj? && GetStr(payload, "in_channel").None? && GetStr(payload, "kind").Some?
    requires inferred.GetOr(GetStr(payload, "kind").value) == c && Validate(c) == Ok(c)
    ensures MigrateIn(payload, inferred) == Ok(step)
    ensures step.inChannel == c && Get(step.data, "out_channel") == Get(payload, "out_channel")
  {
    KeyNamesDiffer();
    var r := DeriveIn(payload, inferred);
    assert r.Ok?;
    step := r.value;
    assert step.inChannel == c;
    assert Get(step.data, "out_channel") == Get(payload, "out_channel");
    assert MigrateIn(payload, inferred) == r;
  }

  // ---------------------------------------------------------------------
  // The whole run

  /** `MigrationReport`; the error messages are represented by the failing paths. */
  datatype Report = Report(scannedFiles: nat, changedFiles: nat, unchangedFiles: nat, errors: seq<FsPath>)

  /** One file of the run: read and decode it, then migrate it. */
  function MigrateFile(path: FsPath, disk: Disk, codec: Codec): (r: Outcome<Migrated>)
    ensures disk.readRecord(path).None? ==> r.Fail?
    ensures disk.readRecord(path).Some? ==> r == MigrateRecord(disk.readRecord(path).value, path, disk, codec)
  {
    match disk.readRecord(path)
    case None => Fail(ValueError)
    case Some(payload) => MigrateRecord(payload, path, disk, codec)
  }

  /** The file failed: it could not be read or decoded, or its payload was rejected. */
  predicate Failed(step: FsPath -> Outcome<Migrated>, p: FsPath)
  {
    step(p).Fail?
  }

  /** The file migrated and its payload changed. */
  predicate Changed(step: FsPath -> Outcome<Migrated>, p: FsPath)
  {
    step(p).Ok? && step(p).value.changed
  }

  /** The rewritten payloads of the changed files, in scan order. */
  function Rewrites(files: seq<FsPath>, step: FsPath -> Outcome<Migrated>): (w: seq<(FsPath, Json)>)
    ensures |w| == |Filter(files, p => Changed(step, p))|
    ensures forall k :: 0 <= k < |w| ==>
      (Changed(step, w[k].0) && w[k].1 == step(w[k].0).value.data)
    decreases |files|
  {
    if files == [] then []
    else
      var w := Rewrites(files[..|files| - 1], step);
      var p := files[|files| - 1];
      FilterSnoc(files[..|files| - 1], p, q => Changed(step, q));
      assert files == files[..|files| - 1] + [p];
      if Changed(step, p) then w + [(p, step(p).value.data)] else w
  }

  lemma RewritesSnoc(files: seq<FsPath>, p: FsPath, step: FsPath -> Outcome<Migrated>)
    ensures Rewrites(files + [p], step)
      == if Changed(step, p) then Rewrites(files, step) + [(p, step(p).value.data)] else Rewrites(files, step)
  {
    assert (files + [p])[..|files|] == files;
  }

  /**
   A changed file whose rewrite fails outside a dry run: it was already
   counted as changed when `_atomic_write_text` raised, and the handler
   records it as an error too.
   */
  predicate WriteFailed(step: FsPath -> Outcome<Migrated>, writable: FsPath -> bool, dryRun: bool, p: FsPath)
  {
    Changed(step, p) && !dryRun && !writable(p)
  }

  /** The file ends up in the report's errors: its step failed or its rewrite did. */
  predicate Errs(step: FsPath -> Outcome<Migrated>, writable: FsPath -> bool, dryRun: bool, p: FsPath)
  {
    Failed(step, p) || WriteFailed(step, writable, dryRun, p)
  }

  /**
   The per-file loop of the run: every file is scanned once and counted as
   changed, unchanged or an error, in order; outside a dry run each changed
   file is rewritten with its migrated payload. `writable` says whether the
   atomic rewrite of a path succeeds; a changed file whose rewrite fails is
   counted both as changed and as an error, so the three counts exceed the
   scanned files by the failed rewrites.
   */
  method Tally(files: seq<FsPath>, step: FsPath -> Outcome<Migrated>, writable: FsPath -> bool, dryRun: bool)
    returns (report: Report, writes: seq<(FsPath, Json)>)
    ensures report.scannedFiles == |files|
    ensures report.changedFiles + report.unchangedFiles + |report.errors|
      == report.scannedFiles + |Filter(files, p => WriteFailed(step, writable, dryRun, p))|
    ensures report.errors == Filter(files, p => Errs(step, writable, dryRun, p))
    ensures report.changedFiles == |Filter(files, p => Changed(step, p))|
    ensures writes == if dryRun then [] else Rewrites(Filter(files, writable), step)
  {
    report := Report(0, 0, 0, []);
    writes := [];
    var i := 0;
    while i < |files|
      invariant 0 <= i <= |files|
      invariant TalliedSoFar(files, i, step, writable, dryRun, report, writes)
    {
      report, writes := TallyStep(files, i, step, writable, dryRun, report, writes);
      i := i + 1;
    }
    assert files[..i] == files;
  }

  /** The report and the writes after the first `i` files. */
  ghost predicate TalliedSoFar(files: seq<FsPath>, i: nat, step: FsPath -> Outcome<Migrated>, writable: FsPath -> bool,
                               dryRun: bool, report: Report, writes: seq<(FsPath, Json)>)
    requires i <= |files|
  {
    && report.scannedFiles == i
    && report.changedFiles + report.unchangedFiles + |report.errors|
       == i + |Filter(files[..i], p => WriteFailed(step, writable, dryRun, p))|
    && report.errors == Filter(files[..i], p => Errs(step, writable, dryRun, p))
    && report.changedFiles == |Filter(files[..i], p => Changed(step, p))|
    && writes == if dryRun then [] else Rewrites(Filter(files[..i], writable), step)
  }

  /** One turn of the per-file loop. */
  method TallyStep(files: seq<FsPath>, i: nat, step: FsPath -> Outcome<Migrated>, writable: FsPath -> bool, dryRun: bool,
                   report: Report, writes: seq<(FsPath, Json)>)
    returns (report': Report, writes': seq<(FsPath, Json)>)
    requires i < |files|
    requires TalliedSoFar(files, i, step, writable, dryRun, report, writes)
    ensures TalliedSoFar(files, i + 1, step, writable, dryRun, report', writes')
  {
    var path := files[i];
    assert files[..i + 1] == files[..i] + [path];
    FilterSnoc(files[..i], path, p => Errs(step, writable, dryRun, p));
    FilterSnoc(files[..i], path, p => Changed(step, p));
    FilterSnoc(files[..i], path, p => WriteFailed(step, writable, dryRun, p));
    FilterSnoc(files[..i], path, writable);
    RewritesSnoc(Filter(files[..i], writable), path, step);
    report', writes' := TallyOne(report, writes, path, step, writable, dryRun);
  }

  /** Without a failed rewrite, each scanned file is counted exactly once. */
  lemma TallyExactWithoutWriteFailures(files: seq<FsPath>, step: FsPath -> Outcome<Migrated>, writable: FsPath -> bool, dryRun: bool)
    requires dryRun || forall p :: p in files && Changed(step, p) ==> writable(p)
    ensures Filter(files, p => WriteFailed(step, writable, dryRun, p)) == []
  {
    var lost := p => WriteFailed(step, writable, dryRun, p);
    if Filter(files, lost) != [] {
      var p := Filter(files, lost)[0];
      FilterMembers(files, lost, p);
    }
  }

  /** One file's contribution to the report and the writes. */
  method TallyOne(report: Report, writes: seq<(FsPath, Json)>, path: FsPath, step: FsPath -> Outcome<Migrated>,
                  writable: FsPath -> bool, dryRun: bool)
    returns (report': Report, writes': seq<(FsPath, Json)>)
    ensures report'.scannedFiles == report.scannedFiles + 1
    ensures report'.errors == if Errs(step, writable, dryRun, path) then report.errors + [path] else report.errors
    ensures report'.changedFiles == if Changed(step, path) then report.changedFiles + 1 else report.changedFiles
    ensures report'.unchangedFiles
      == if Failed(step, path) || Changed(step, path) then report.unchangedFiles else report.unchangedFiles + 1
    ensures writes' == if !dryRun && Changed(step, path) && writable(path) then writes + [(path, step(path).value.data)] else writes
  {
    report' := report.(scannedFiles := report.scannedFiles + 1);
    writes' := writes;
    var outcome := step(path);
    if outcome.Fail? {
      report' := report'.(errors := report.errors + [path]);
    } else if outcome.value.changed {
      report' := report'.(changedFiles := report.changedFiles + 1);
      if !dryRun {
        if writable(path) {
          writes' := writes + [(path, outcome.value.data)];
        } else {
          report' := report'.(errors := report.errors + [path]);
        }
      }
    } else {
      report' := report'.(unchangedFiles := report.unchangedFiles + 1);
    }
  }

  /**
   `migrate_folder_memory_kind_to_channel`: without a `records` directory an
   empty report; otherwise the per-file loop over the record files, sorted,
   where reading, decoding, migration and rewrite failures all count as
   errors.
   */
  method MigrateRun(recordsPresent: bool, found: seq<FsPath>, disk: Disk, codec: Codec, writable: FsPath -> bool, dryRun: bool)
    returns (report: Report, writes: seq<(FsPath, Json)>)
    ensures !recordsPresent ==> report == Report(0, 0, 0, []) && writes == []
    ensures recordsPresent ==> report.scannedFiles == |RecordJsonFiles(found)|
    ensures report.changedFiles + report.unchangedFiles + |report.errors| >= report.scannedFiles
    ensures dryRun ==> report.scannedFiles == report.changedFiles + report.unchangedFiles + |report.errors|
    ensures recordsPresent ==> report.errors == Filter(RecordJsonFiles(found), p => Errs(FileStep(disk, codec), writable, dryRun, p))
    ensures dryRun ==> writes == []
    ensures !dryRun && recordsPresent ==> writes == Rewrites(Filter(RecordJsonFiles(found), writable), FileStep(disk, codec))
  {
    if !recordsPresent {
      return Report(0, 0, 0, []), [];
    }
    report, writes := Tally(RecordJsonFiles(found), FileStep(disk, codec), writable, dryRun);
    if dryRun {
      TallyExactWithoutWriteFailures(RecordJsonFiles(found), FileStep(disk, codec), writable, dryRun);
    }
  }

  /** `MigrateFile` as the per-file step of the loop. */
  function FileStep(disk: Disk, codec: Codec): (step: FsPath -> Outcome<Migrated>)
    ensures forall p :: step(p) == MigrateFile(p, disk, codec)
  {
    p => MigrateFile(p, disk, codec)
  }

  /** `main`'s exit status: 1 when any file failed, else 0. */
  function ExitStatus(report: Report): (code: int)
    ensures code == 0 || code == 1
    ensures code == 1 <==> report.errors != []
  {
    if report.errors != [] then 1 else 0
  }

  /**
   A second run over the files a first run rewrote finds nothing left to
   change: a migrated payload is a fixed point of the payload rewrite.
   */
  lemma RewritesAreFixed(files: seq<FsPath>, disk: Disk, codec: Codec, k: nat, again: Option<string>)
    requires k < |Rewrites(files, FileStep(disk, codec))|
    ensures var d := Rewrites(files, FileStep(disk, codec))[k].1;
      MigratePayload(d, again) == Ok(Migrated(false, d))
  {
    var w := Rewrites(files, FileStep(disk, codec));
    assert IsMigrated(MigrateFile(w[k].0, disk, codec).value.data);
    MigratedIsFixed(w[k].1, again);
  }
}
