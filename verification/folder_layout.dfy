/**
 The on-disk layout of the folder store (core/src/k/agent/memory/folder.py):
 where a record file lives, how an order-file line is read back into an
 entry, how an entry is resolved to a record file, how a missing order file
 is rebuilt, and how loading turns the order file into the store state.

 File contents, directory listings, JSON text and ISO timestamps stay
 abstract: `decode` stands for `json.loads` (None when it raises), `dumps`
 for `json.dumps`, `parseId` for `UUID(...)` and `parseTime` for
 `datetime.fromisoformat`.
 */
module FolderLayout {
  import opened Wrappers
  import opened PyStr
  import opened Json
  import opened Sorting
  import opened MemoryRecords
  import opened MemoryStore

  // ---------------------------------------------------------------------
  // Record paths

  /** The ranges `datetime` keeps its calendar fields in. */
  predicate CalendarStamp(c: Stamp)
  {
    1 <= c.year <= 9999 && 1 <= c.month <= 12 && 1 <= c.day <= 31 && 0 <= c.hour <= 23
  }

  /** A zero-padded decimal field of exactly `width` digits. */
  predicate Field(s: string, width: nat, value: int)
  {
    |s| == width && AllDigits(s) && DigitsValue(s) == value
  }

  /**
   `_record_path_for_id_and_created_at`, relative to the store root, as path
   parts: records/YYYY/MM/DD/HH/<id>.json.
   */
  function RecordPath(id: string, c: Stamp): (parts: seq<string>)
    requires CalendarStamp(c)
    ensures |parts| == 6 && parts[0] == "records"
    ensures Field(parts[1], 4, c.year) && Field(parts[2], 2, c.month)
    ensures Field(parts[3], 2, c.day) && Field(parts[4], 2, c.hour)
    ensures parts[5] == id + ".json"
  {
    assert Pow10(4) == 10000 && Pow10(2) == 100;
    ["records", ZeroPad(c.year, 4), ZeroPad(c.month, 2), ZeroPad(c.day, 2), ZeroPad(c.hour, 2), id + ".json"]
  }

  datatype PathFields = PathFields(year: int, month: int, day: int, hour: int, id: string)

  /** Reads the calendar fields and the id back out of a record path. */
  function ParseRecordPath(parts: seq<string>): (r: Option<PathFields>)
  {
    if |parts| == 6 && parts[0] == "records"
       && |parts[1]| == 4 && AllDigits(parts[1]) && |parts[2]| == 2 && AllDigits(parts[2])
       && |parts[3]| == 2 && AllDigits(parts[3]) && |parts[4]| == 2 && AllDigits(parts[4])
       && EndsWith(parts[5], ".json")
    then Some(PathFields(DigitsValue(parts[1]), DigitsValue(parts[2]), DigitsValue(parts[3]),
                         DigitsValue(parts[4]), parts[5][..|parts[5]| - 5]))
    else None
  }

  /** The path of a record gives back its id and the hour bucket of its creation. */
  lemma RecordPathRoundTrip(id: string, c: Stamp)
    requires CalendarStamp(c)
    ensures ParseRecordPath(RecordPath(id, c)) == Some(PathFields(c.year, c.month, c.day, c.hour, id))
  {
    var parts := RecordPath(id, c);
    assert parts[5][..|parts[5]| - 5] == id;
  }

  /** Two records share a directory exactly when they were created in the same wall-clock hour. */
  lemma SameDirectoryIffSameHour(a: string, ca: Stamp, b: string, cb: Stamp)
    requires CalendarStamp(ca) && CalendarStamp(cb)
    ensures RecordPath(a, ca)[..5] == RecordPath(b, cb)[..5] <==>
      ca.year == cb.year && ca.month == cb.month && ca.day == cb.day && ca.hour == cb.hour
  {
    var pa, pb := RecordPath(a, ca), RecordPath(b, cb);
    if pa[..5] == pb[..5] {
      SamePrefixSameParts(pa, pb, 5);
    }
  }

  lemma SamePrefixSameParts(x: seq<string>, y: seq<string>, n: nat)
    requires n <= |x| && n <= |y| && x[..n] == y[..n]
    ensures forall k :: 0 <= k < n ==> x[k] == y[k]
  {
    forall k | 0 <= k < n ensures x[k] == y[k] {
      assert x[..n][k] == y[..n][k];
    }
  }

  /** Different ids never share a record file. */
  lemma RecordPathInjective(a: string, ca: Stamp, b: string, cb: Stamp)
    requires CalendarStamp(ca) && CalendarStamp(cb)
    requires RecordPath(a, ca) == RecordPath(b, cb)
    ensures a == b
  {
    RecordPathRoundTrip(a, ca);
    RecordPathRoundTrip(b, cb);
  }

  // ---------------------------------------------------------------------
  // Order-file entries

  datatype OrderEntry = OrderEntry(id: string, createdAt: Option<Stamp>, relpath: Option<string>)

  /** An optional field read with `decoded.get(key)`: absent and null both mean None. */
  function OptionalStr(obj: Json, key: string): (r: Outcome<Option<string>>)
    ensures r.Fail? ==> r.exc == ValueError
    ensures r == Ok(None) <==> Get(obj, key).None? || Get(obj, key) == Some(JNull)
    ensures r.Ok? && r.value.Some? <==> Get(obj, key).Some? && Get(obj, key).value.JStr?
    ensures r.Ok? && r.value.Some? ==> Get(obj, key) == Some(JStr(r.value.value))
  {
    match Get(obj, key)
    case None => Ok(None)
    case Some(JNull) => Ok(None)
    case Some(JStr(s)) => Ok(Some(s))
    case Some(_) => Fail(ValueError)
  }

  /**
   One line of `order.jsonl` as `_read_order_file` reads it: Ok(None) for a
   blank line; a bare id (a JSON string, or any text that is not JSON); or an
   object with a string "id" and optional string "created_at" and "relpath".
   Anything else, and any id or timestamp that does not parse, is a
   ValueError.
   */
  function ParseOrderLine(raw: string, decode: string -> Option<Json>, parseId: string -> Option<string>,
                          parseTime: string -> Option<Stamp>): (r: Outcome<Option<OrderEntry>>)
    ensures r == Ok(None) <==> Strip(raw) == []
    ensures r.Fail? ==> r.exc == ValueError
    ensures Strip(raw) != [] && decode(Strip(raw)).None? ==>
      r == (if parseId(Strip(raw)).Some? then Ok(Some(OrderEntry(parseId(Strip(raw)).value, None, None))) else Fail(ValueError))
    ensures r.Ok? && r.value.Some? && decode(Strip(raw)).Some? && decode(Strip(raw)).value.JObj? ==>
      exists rawId :: Get(decode(Strip(raw)).value, "id") == Some(JStr(rawId)) && parseId(rawId) == Some(r.value.value.id)
  {
    var line := Strip(raw);
    if line == [] then Ok(None)
    else
      var decoded := match decode(line) case Some(j) => j case None => JStr(line);
      match decoded
      case JStr(s) =>
        (match parseId(s)
         case None => Fail(ValueError)
         case Some(id) => Ok(Some(OrderEntry(id, None, None))))
      case JObj(_) => ParseObjectLine(decoded, parseId, parseTime)
      case _ => Fail(ValueError)
  }

  /**
   An object line: a string `id` that parses, an optional `created_at` that
   parses as a timestamp and an optional string `relpath`; anything else is
   a ValueError.
   */
  function ParseObjectLine(obj: Json, parseId: string -> Option<string>, parseTime: string -> Option<Stamp>)
    : (r: Outcome<Option<OrderEntry>>)
    requires obj.JObj?
    ensures r.Fail? ==> r.exc == ValueError
    ensures r.Ok? ==> r.value.Some?
    ensures r.Ok? ==> exists rawId :: Get(obj, "id") == Some(JStr(rawId)) && parseId(rawId) == Some(r.value.value.id)
    ensures r.Ok? ==> OptionalStr(obj, "relpath") == Ok(r.value.value.relpath)
  {
    match Get(obj, "id")
    case Some(JStr(rawId)) =>
      (match parseId(rawId)
       case None => Fail(ValueError)
       case Some(id) =>
         match OptionalStr(obj, "created_at")
         case Fail(e) => Fail(e)
         case Ok(rawTime) =>
           var createdAt := if rawTime.None? then Ok(None) else
             (match parseTime(rawTime.value) case None => Fail(ValueError) case Some(t) => Ok(Some(t)));
           if createdAt.Fail? then Fail(ValueError)
           else
             match OptionalStr(obj, "relpath")
             case Fail(e) => Fail(e)
             case Ok(relpath) => Ok(Some(OrderEntry(id, createdAt.value, relpath))))
    case _ => Fail(ValueError)
  }

  /** The result of `_read_order_file`: the entries, or the 1-based number of the first bad line. */
  datatype OrderRead = Entries(entries: seq<OrderEntry>) | BadLine(lineNo: nat)

  /** The entries of the non-blank lines, in file order. */
  function EntriesOf(lines: seq<string>, parse: string -> Outcome<Option<OrderEntry>>): (es: seq<OrderEntry>)
    requires forall k :: 0 <= k < |lines| ==> parse(lines[k]).Ok?
    ensures |es| <= |lines|
  {
    if lines == [] then []
    else
      var rest := EntriesOf(lines[1..], parse);
      match parse(lines[0])
      case Ok(Some(e)) => [e] + rest
      case _ => rest
  }

  /**
   `_read_order_file` over the lines of the file, each line read by `parse`
   (`ParseOrderLine` with the codecs fixed): a ValueError at the first line
   that does not parse, otherwise the entries of the non-blank lines.
   */
  function ReadOrderLines(lines: seq<string>, parse: string -> Outcome<Option<OrderEntry>>): (r: OrderRead)
    ensures r.Entries? <==> forall k :: 0 <= k < |lines| ==> parse(lines[k]).Ok?
    ensures r.Entries? ==> r.entries == EntriesOf(lines, parse)
    ensures r.BadLine? ==> 1 <= r.lineNo <= |lines| && parse(lines[r.lineNo - 1]).Fail?
    ensures r.BadLine? ==> forall k :: 0 <= k < r.lineNo - 1 ==> parse(lines[k]).Ok?
  {
    if lines == [] then Entries([])
    else
      var rest := ReadOrderLines(lines[1..], parse);
      assert forall k :: 1 <= k < |lines| ==> lines[k] == lines[1..][k - 1];
      match parse(lines[0])
      case Fail(_) => BadLine(1)
      case Ok(line) =>
        match rest
        case BadLine(n) => BadLine(n + 1)
        case Entries(es) => Entries(if line.Some? then [line.value] + es else es)
  }

  /** `ParseOrderLine` with the codecs fixed. */
  function LineParser(decode: string -> Option<Json>, parseId: string -> Option<string>,
                      parseTime: string -> Option<Stamp>): string -> Outcome<Option<OrderEntry>>
  {
    raw => ParseOrderLine(raw, decode, parseId, parseTime)
  }

  /** The JSON object `_persist_order` and `_append_order_line` write for an entry. */
  function Payload(e: OrderEntry, iso: Stamp -> string): (p: Json)
    ensures p.JObj? && Get(p, "id") == Some(JStr(e.id))
    ensures Get(p, "created_at") == (if e.createdAt.Some? then Some(JStr(iso(e.createdAt.value))) else None)
    ensures Get(p, "relpath") == (if e.relpath.Some? then Some(JStr(e.relpath.value)) else None)
  {
    assert "created_at" != "id" && "relpath" != "id" && "relpath" != "created_at" by {
      assert |"created_at"| != |"id"| && |"relpath"| != |"id"| && |"relpath"| != |"created_at"|;
    }
    var id := ("id", JStr(e.id));
    match (e.createdAt, e.relpath)
    case (None, None) => JObj([id])
    case (Some(c), None) =>
      var f := [id, ("created_at", JStr(iso(c)))];
      assert f[1..][1..] == [];
      assert Lookup(f[1..], "created_at") == Some(JStr(iso(c)));
      JObj(f)
    case (None, Some(rel)) =>
      var f := [id, ("relpath", JStr(rel))];
      assert f[1..][1..] == [];
      assert Lookup(f[1..], "relpath") == Some(JStr(rel));
      JObj(f)
    case (Some(c), Some(rel)) =>
      var f := [id, ("created_at", JStr(iso(c))), ("relpath", JStr(rel))];
      assert f[1..][1..] == [("relpath", JStr(rel))] && f[1..][1..][1..] == [];
      assert Lookup(f[1..][1..], "relpath") == Some(JStr(rel));
      assert Lookup(f[1..], "relpath") == Some(JStr(rel));
      JObj(f)
  }

  /** One written line of `order.jsonl`. */
  function OrderLine(e: OrderEntry, iso: Stamp -> string, dumps: Json -> string): string
  {
    dumps(Payload(e, iso)) + "\n"
  }

  /**
   What reading a written line back needs from the abstract codecs: the JSON
   text decodes to the payload, the id text parses to itself and the ISO text
   of the timestamp parses back to it.
   */
  predicate CodecsAgree(e: OrderEntry, iso: Stamp -> string, dumps: Json -> string, decode: string -> Option<Json>,
                        parseId: string -> Option<string>, parseTime: string -> Option<Stamp>)
  {
    var line := Strip(OrderLine(e, iso, dumps));
    && line != []
    && decode(line) == Some(Payload(e, iso))
    && parseId(e.id) == Some(e.id)
    && (e.createdAt.Some? ==> parseTime(iso(e.createdAt.value)) == Some(e.createdAt.value))
  }

  /** A written order line reads back as the entry it was written for. */
  lemma OrderLineRoundTrip(e: OrderEntry, iso: Stamp -> string, dumps: Json -> string, decode: string -> Option<Json>,
                           parseId: string -> Option<string>, parseTime: string -> Option<Stamp>)
    requires CodecsAgree(e, iso, dumps, decode, parseId, parseTime)
    ensures ParseOrderLine(OrderLine(e, iso, dumps), decode, parseId, parseTime) == Ok(Some(e))
  {
    PayloadParsesBack(e, iso, parseId, parseTime);
    var raw := OrderLine(e, iso, dumps);
    ObjectLineParses(raw, Payload(e, iso), decode, parseId, parseTime);
  }

  /** A non-blank line that decodes to an object is parsed as that object. */
  lemma ObjectLineParses(raw: string, obj: Json, decode: string -> Option<Json>, parseId: string -> Option<string>,
                         parseTime: string -> Option<Stamp>)
    requires Strip(raw) != [] && decode(Strip(raw)) == Some(obj) && obj.JObj?
    ensures ParseOrderLine(raw, decode, parseId, parseTime) == ParseObjectLine(obj, parseId, parseTime)
  {
  }

  /** The object written for an entry parses back to that entry. */
  lemma PayloadParsesBack(e: OrderEntry, iso: Stamp -> string, parseId: string -> Option<string>,
                          parseTime: string -> Option<Stamp>)
    requires parseId(e.id) == Some(e.id)
    requires e.createdAt.Some? ==> parseTime(iso(e.createdAt.value)) == Some(e.createdAt.value)
    ensures ParseObjectLine(Payload(e, iso), parseId, parseTime) == Ok(Some(e))
  {
    var p := Payload(e, iso);
    assert OptionalStr(p, "relpath") == Ok(e.relpath);
    if e.createdAt.Some? {
      assert OptionalStr(p, "created_at") == Ok(Some(iso(e.createdAt.value)));
    } else {
      assert OptionalStr(p, "created_at") == Ok(None);
    }
  }

  /** The lines `_persist_order` writes for a list of entries. */
  function OrderLines(es: seq<OrderEntry>, iso: Stamp -> string, dumps: Json -> string): (lines: seq<string>)
    ensures |lines| == |es| && forall k :: 0 <= k < |es| ==> lines[k] == OrderLine(es[k], iso, dumps)
  {
    seq(|es|, k requires 0 <= k < |es| => OrderLine(es[k], iso, dumps))
  }

  /** An order file written by `_persist_order` reads back as the same entries, in order. */
  lemma {:induction false} OrderFileRoundTrip(es: seq<OrderEntry>, iso: Stamp -> string, dumps: Json -> string,
                                              decode: string -> Option<Json>, parseId: string -> Option<string>,
                                              parseTime: string -> Option<Stamp>)
    requires forall k :: 0 <= k < |es| ==> CodecsAgree(es[k], iso, dumps, decode, parseId, parseTime)
    ensures ReadOrderLines(OrderLines(es, iso, dumps), LineParser(decode, parseId, parseTime)) == Entries(es)
  {
    var lines := OrderLines(es, iso, dumps);
    var parse := LineParser(decode, parseId, parseTime);
    forall k | 0 <= k < |es| ensures parse(lines[k]) == Ok(Some(es[k])) {
      OrderLineRoundTrip(es[k], iso, dumps, decode, parseId, parseTime);
    }
    ReadEveryLine(lines, es, parse);
  }

  /** When every line parses to an entry, reading gives exactly those entries. */
  lemma {:induction false} ReadEveryLine(lines: seq<string>, es: seq<OrderEntry>,
                                         parse: string -> Outcome<Option<OrderEntry>>)
    requires |lines| == |es| && forall k :: 0 <= k < |es| ==> parse(lines[k]) == Ok(Some(es[k]))
    ensures ReadOrderLines(lines, parse) == Entries(es)
  {
    if es != [] {
      assert forall k :: 0 <= k < |es| - 1 ==> lines[1..][k] == lines[k + 1] && es[1..][k] == es[k + 1];
      ReadEveryLine(lines[1..], es[1..], parse);
      assert es == [es[0]] + es[1..];
    }
  }

  /** Appending a line (as `_append_order_line` does) appends its entry to what is read. */
  lemma AppendedLineIsReadLast(lines: seq<string>, e: OrderEntry, iso: Stamp -> string, dumps: Json -> string,
                               decode: string -> Option<Json>, parseId: string -> Option<string>,
                               parseTime: string -> Option<Stamp>)
    requires ReadOrderLines(lines, LineParser(decode, parseId, parseTime)).Entries?
    requires CodecsAgree(e, iso, dumps, decode, parseId, parseTime)
    ensures ReadOrderLines(lines + [OrderLine(e, iso, dumps)], LineParser(decode, parseId, parseTime))
      == Entries(ReadOrderLines(lines, LineParser(decode, parseId, parseTime)).entries + [e])
  {
    OrderLineRoundTrip(e, iso, dumps, decode, parseId, parseTime);
    assert LineParser(decode, parseId, parseTime)(OrderLine(e, iso, dumps)) == Ok(Some(e));
    EntriesOfSnoc(lines, OrderLine(e, iso, dumps), e, LineParser(decode, parseId, parseTime));
  }

  lemma {:induction false} EntriesOfSnoc(lines: seq<string>, line: string, e: OrderEntry,
                                         parse: string -> Outcome<Option<OrderEntry>>)
    requires forall k :: 0 <= k < |lines| ==> parse(lines[k]).Ok?
    requires parse(line) == Ok(Some(e))
    ensures forall k :: 0 <= k < |lines + [line]| ==> parse((lines + [line])[k]).Ok?
    ensures EntriesOf(lines + [line], parse) == EntriesOf(lines, parse) + [e]
  {
    if lines == [] {
      assert [line][1..] == [];
    } else {
      assert (lines + [line])[1..] == lines[1..] + [line];
      EntriesOfSnoc(lines[1..], line, e, parse);
    }
  }

  // ---------------------------------------------------------------------
  // Resolving an entry to its record file

  /** Where `_resolve_record_path` finds a record file. */
  datatype Location = AtRelpath(relpath: string) | AtDerived(parts: seq<string>) | AtFound(path: string)

  /**
   `_resolve_record_path`: the stored relpath, else the path derived from
   `created_at`, else the single search hit among `found` (the `rglob`
   results); no hit or several hits are a ValueError.
   */
  function ResolveRecordPath(e: OrderEntry, found: seq<string>): (r: Outcome<Location>)
    requires e.createdAt.Some? ==> CalendarStamp(e.createdAt.value)
    ensures r.Fail? <==> e.relpath.None? && e.createdAt.None? && |found| != 1
    ensures r.Fail? ==> r.exc == ValueError
    ensures e.relpath.Some? ==> r == Ok(AtRelpath(e.relpath.value))
    ensures r.Ok? && r.value.AtDerived? ==>
      && e.createdAt.Some?
      && ParseRecordPath(r.value.parts) == Some(PathFields(e.createdAt.value.year, e.createdAt.value.month,
                                                           e.createdAt.value.day, e.createdAt.value.hour, e.id))
    ensures r.Ok? && r.value.AtFound? ==> e.relpath.None? && e.createdAt.None? && found == [r.value.path]
  {
    if e.relpath.Some? then Ok(AtRelpath(e.relpath.value))
    else if e.createdAt.Some? then
      RecordPathRoundTrip(e.id, e.createdAt.value);
      Ok(AtDerived(RecordPath(e.id, e.createdAt.value)))
    else if |found| == 0 then Fail(ValueError)
    else if |found| > 1 then Fail(ValueError)
    else Ok(AtFound(found[0]))
  }

  /** Joins path parts with '/'. */
  function JoinPath(parts: seq<string>): string
  {
    Join(parts, "/")
  }

  /**
   The entry `append` writes for a record names the record's own file: its
   relpath is the derived path, and the derived path would resolve the same.
   */
  lemma AppendedEntryResolves(rec: MemoryRecord)
    requires CalendarStamp(rec.createdAt)
    ensures var parts := RecordPath(rec.id, rec.createdAt);
      var e := OrderEntry(rec.id, Some(rec.createdAt), Some(JoinPath(parts)));
      && ResolveRecordPath(e, []) == Ok(AtRelpath(JoinPath(parts)))
      && ResolveRecordPath(e.(relpath := None), []) == Ok(AtDerived(parts))
  {
  }

  // ---------------------------------------------------------------------
  // Rebuilding a missing order file

  /** A record file found by the rebuild, with its path relative to the store root. */
  datatype Indexed = Indexed(record: MemoryRecord, relpath: string)

  function MicrosAtItem(items: seq<Indexed>, i: int): int
  {
    if 0 <= i < |items| then items[i].record.createdAt.micros else 0
  }

  function IdAtItem(items: seq<Indexed>, i: int): string
  {
    if 0 <= i < |items| then items[i].record.id else ""
  }

  /**
   The rebuild's key `(created_at, str(id))` on positions, with the position
   as the tie-break that Python's stable sort supplies.
   */
  predicate RebuildLe(items: seq<Indexed>, i: int, j: int)
  {
    var mi, mj := MicrosAtItem(items, i), MicrosAtItem(items, j);
    var di, dj := IdAtItem(items, i), IdAtItem(items, j);
    mi < mj || (mi == mj && di != dj && StrLe(di, dj)) || (mi == mj && di == dj && i <= j)
  }

  lemma RebuildLeIsTotalOrder(items: seq<Indexed>)
    ensures IsTotalOrder((i: int, j: int) => RebuildLe(items, i, j))
  {
    forall a: string, b: string ensures StrLe(a, b) || StrLe(b, a) {
      StrLeTotal(a, b);
    }
    forall a: string, b: string, c: string | StrLe(a, b) && StrLe(b, c) ensures StrLe(a, c) {
      StrLeTransitive(a, b, c);
    }
    forall a: string, b: string | StrLe(a, b) && StrLe(b, a) ensures a == b {
      StrLeAntisymmetric(a, b);
    }
  }

  lemma RebuildLeOrdersEntries(items: seq<Indexed>, i: int, j: int)
    requires 0 <= i < |items| && 0 <= j < |items| && RebuildLe(items, i, j)
    ensures EntryBefore(EntryOf(items[i]), EntryOf(items[j]))
  {
    StrLeTotal(items[i].record.id, items[i].record.id);
  }

  /** The order entry the rebuild writes for a found record. */
  function EntryOf(x: Indexed): OrderEntry
  {
    OrderEntry(x.record.id, Some(x.record.createdAt), Some(x.relpath))
  }

  /** `created_at` first, then the id as a string. */
  predicate EntryBefore(a: OrderEntry, b: OrderEntry)
    requires a.createdAt.Some? && b.createdAt.Some?
  {
    var ma, mb := a.createdAt.value.micros, b.createdAt.value.micros;
    ma < mb || (ma == mb && StrLe(a.id, b.id))
  }

  function Range(n: nat): (r: seq<int>)
    ensures |r| == n && forall k :: 0 <= k < n ==> r[k] == k
  {
    seq(n, k => k)
  }

  /**
   `_rebuild_order_from_records`: one entry per found record file, carrying
   its id, `created_at` and relpath, sorted by (`created_at`, id).
   */
  function RebuildOrder(items: seq<Indexed>): (r: seq<OrderEntry>)
    ensures |r| == |items|
    ensures forall i :: 0 <= i < |items| ==> EntryOf(items[i]) in r
    ensures forall k :: 0 <= k < |r| ==> exists i :: 0 <= i < |items| && r[k] == EntryOf(items[i])
    ensures forall k :: 0 <= k < |r| ==> r[k].createdAt.Some? && r[k].relpath.Some?
    ensures forall a, b :: 0 <= a < b < |r| ==> EntryBefore(r[a], r[b])
  {
    var ps := RebuildPositions(items);
    var r := seq(|ps|, k requires 0 <= k < |ps| => EntryOf(items[ps[k]]));
    EntriesCoverItems(items, ps, r);
    EntriesOrdered(items, ps, r);
    r
  }

  lemma EntriesCoverItems(items: seq<Indexed>, ps: seq<int>, r: seq<OrderEntry>)
    requires forall k :: 0 <= k < |ps| ==> 0 <= ps[k] < |items|
    requires forall i :: 0 <= i < |items| ==> i in ps
    requires |r| == |ps| && forall k :: 0 <= k < |ps| ==> r[k] == EntryOf(items[ps[k]])
    ensures forall i :: 0 <= i < |items| ==> EntryOf(items[i]) in r
    ensures forall k :: 0 <= k < |r| ==> exists i :: 0 <= i < |items| && r[k] == EntryOf(items[i])
  {
    forall i | 0 <= i < |items| ensures EntryOf(items[i]) in r {
      assert i in ps;
      var k :| 0 <= k < |ps| && ps[k] == i;
      assert r[k] == EntryOf(items[i]);
    }
    forall k | 0 <= k < |r| ensures exists i :: 0 <= i < |items| && r[k] == EntryOf(items[i]) {
      assert r[k] == EntryOf(items[ps[k]]);
    }
  }

  lemma EntriesOrdered(items: seq<Indexed>, ps: seq<int>, r: seq<OrderEntry>)
    requires forall k :: 0 <= k < |ps| ==> 0 <= ps[k] < |items|
    requires forall a, b :: 0 <= a < b < |ps| ==> RebuildLe(items, ps[a], ps[b])
    requires |r| == |ps| && forall k :: 0 <= k < |ps| ==> r[k] == EntryOf(items[ps[k]])
    ensures forall k :: 0 <= k < |r| ==> r[k].createdAt.Some? && r[k].relpath.Some?
    ensures forall a, b :: 0 <= a < b < |r| ==> EntryBefore(r[a], r[b])
  {
    forall a, b | 0 <= a < b < |r| ensures EntryBefore(r[a], r[b]) {
      RebuildLeOrdersEntries(items, ps[a], ps[b]);
    }
  }

  /** The item positions in (`created_at`, id) order: each position exactly once. */
  function RebuildPositions(items: seq<Indexed>): (ps: seq<int>)
    ensures |ps| == |items|
    ensures forall k :: 0 <= k < |ps| ==> 0 <= ps[k] < |items|
    ensures forall i :: 0 <= i < |items| ==> i in ps
    ensures forall a, b :: 0 <= a < b < |ps| ==> RebuildLe(items, ps[a], ps[b])
  {
    var leq := (i: int, j: int) => RebuildLe(items, i, j);
    RebuildLeIsTotalOrder(items);
    var all := Range(|items|);
    var ps := Sort(all, leq);
    assert forall k :: 0 <= k < |ps| ==> 0 <= ps[k] < |items| by {
      forall k | 0 <= k < |ps| ensures 0 <= ps[k] < |items| {
        SortKeepsElements(all, leq, ps[k]);
      }
    }
    assert forall i :: 0 <= i < |items| ==> i in ps by {
      forall i | 0 <= i < |items| ensures i in ps {
        assert all[i] == i;
        SortKeepsElements(all, leq, i);
      }
    }
    ps
  }

  // ---------------------------------------------------------------------
  // Loading

  /** No two entries share an id. */
  predicate DistinctIds(es: seq<OrderEntry>)
  {
    forall i, j :: 0 <= i < j < |es| ==> es[i].id != es[j].id
  }

  /**
   The loop of `_load_if_needed` over the order entries. `read` stands for
   resolving, reading and validating an entry's record file, None where any
   of that raises (each becomes a ValueError). A record whose id is not the
   entry's, or an id seen before, is a ValueError.
   */
  function LoadRecords(es: seq<OrderEntry>, read: OrderEntry -> Option<MemoryRecord>): (r: Outcome<Store>)
    ensures r.Fail? ==> r.exc == ValueError
    ensures r.Ok? <==>
      DistinctIds(es) && forall k :: 0 <= k < |es| ==> read(es[k]).Some? && read(es[k]).value.id == es[k].id
    ensures r.Ok? ==>
      Valid(r.value) && |r.value.records| == |es| && forall k :: 0 <= k < |es| ==> r.value.records[k] == read(es[k]).value
  {
    if es == [] then Ok(Store([]))
    else
      var last := es[|es| - 1];
      var init := es[..|es| - 1];
      assert forall k :: 0 <= k < |init| ==> init[k] == es[k];
      match LoadRecords(init, read)
      case Fail(e) => Fail(e)
      case Ok(st) =>
        match read(last)
        case None => Fail(ValueError)
        case Some(rec) =>
          if rec.id != last.id then Fail(ValueError)
          else if Stored(st, rec.id) then
            assert !DistinctIds(es) by {
              var k :| 0 <= k < |st.records| && st.records[k].id == rec.id;
              assert es[k].id == last.id;
            }
            Fail(ValueError)
          else
            LoadedSnoc(es, read, st, rec);
            Ok(Store(st.records + [rec]))
  }

  /** A record with a new id, read for the last entry, extends the records loaded for the others. */
  lemma LoadedSnoc(es: seq<OrderEntry>, read: OrderEntry -> Option<MemoryRecord>, st: Store, rec: MemoryRecord)
    requires es != [] && DistinctIds(es[..|es| - 1]) && Valid(st) && |st.records| == |es| - 1
    requires forall k :: 0 <= k < |es| - 1 ==> read(es[k]) == Some(st.records[k]) && st.records[k].id == es[k].id
    requires read(es[|es| - 1]) == Some(rec) && rec.id == es[|es| - 1].id && !Stored(st, rec.id)
    ensures DistinctIds(es) && forall k :: 0 <= k < |es| ==> read(es[k]).Some? && read(es[k]).value.id == es[k].id
    ensures Valid(Store(st.records + [rec])) && forall k :: 0 <= k < |es| ==> (st.records + [rec])[k] == read(es[k]).value
  {
    var init := es[..|es| - 1];
    assert forall k :: 0 <= k < |init| ==> init[k] == es[k];
  }
}
