/**
 The persisted `MemoryRecord` (core/src/k/agent/memory/entities.py): its
 fields, the validation that runs on construction, and the id derived from
 `created_at` when none is given. The `detailed` message list is not modelled.
 */
module MemoryRecords {
  import opened Wrappers
  import opened PyStr
  import opened Channels
  import MemoryIds

  /**
   A timezone-aware `created_at`: the UTC instant in microseconds since the
   epoch, and the wall-clock year, month, day and hour of its own zone. Aware
   datetimes compare by instant.
   */
  datatype Stamp = Stamp(micros: int, year: int, month: int, day: int, hour: int)

  datatype MemoryRecord = MemoryRecord(
    createdAt: Stamp,
    inChannel: string,
    outChannel: Option<string>,
    id: string,
    parents: seq<string>,
    children: seq<string>,
    input: string,
    compacted: seq<string>,
    output: string)

  predicate AllIds(ids: seq<string>)
  {
    forall k :: 0 <= k < |ids| ==> MemoryIds.IsMemoryRecordId(ids[k])
  }

  /** What every constructed record satisfies. */
  predicate WellFormed(r: MemoryRecord)
  {
    && IsChannel(r.inChannel)
    && (r.outChannel.Some? ==> IsChannel(r.outChannel.value) && r.outChannel.value != r.inChannel)
    && MemoryIds.IsMemoryRecordId(r.id)
    && AllIds(r.parents)
    && AllIds(r.children)
  }

  /** The POSIX millisecond of a `created_at`. */
  function MillisOf(createdAt: Stamp): int
  {
    MemoryIds.AwareMillis(createdAt.micros)
  }

  /** `memory_record_id_from_created_at`. */
  function IdFromCreatedAt(createdAt: Stamp): (r: Outcome<string>)
    ensures r.Ok? <==> 0 <= MillisOf(createdAt) < MemoryIds.Limit
    ensures r.Ok? ==> MemoryIds.IsMemoryRecordId(r.value) && MemoryIds.Decode(r.value) == MillisOf(createdAt)
  {
    MemoryIds.IdFromMillis(MillisOf(createdAt))
  }

  /**
   Construction. The field validators check `in_channel` and a non-null
   `out_channel`; the model validator then drops an out-channel equal to the
   in-channel, fills an empty id from `created_at`, and rejects any id, parent
   id or child id that is not a memory record id. Every failure is a
   validation error, which is a ValueError.
   */
  function MakeRecord(
    createdAt: Stamp, inChannel: string, outChannel: Option<string>, id: string,
    parents: seq<string>, children: seq<string>, input: string, compacted: seq<string>, output: string
  ): (r: Outcome<MemoryRecord>)
    ensures r.Ok? <==>
      && Validate(inChannel).Ok?
      && (outChannel.Some? ==> Validate(outChannel.value).Ok?)
      && (id == [] ==> 0 <= MillisOf(createdAt) < MemoryIds.Limit)
      && (id != [] ==> MemoryIds.IsMemoryRecordId(id))
      && AllIds(parents) && AllIds(children)
    ensures r.Fail? ==> r.exc == ValueError
    ensures r.Ok? ==> WellFormed(r.value)
    ensures r.Ok? ==>
      && r.value.inChannel == Strip(inChannel)
      && (r.value.outChannel.None? <==> outChannel.None? || Strip(outChannel.value) == Strip(inChannel))
      && (r.value.outChannel.Some? ==> r.value.outChannel.value == Strip(outChannel.value))
    ensures r.Ok? && id != [] ==> r.value.id == id
    ensures r.Ok? && id == [] ==> MemoryIds.Decode(r.value.id) == MillisOf(createdAt)
    ensures r.Ok? ==>
      && r.value.createdAt == createdAt && r.value.parents == parents && r.value.children == children
      && r.value.input == input && r.value.compacted == compacted && r.value.output == output
  {
    match ValidatePair(inChannel, outChannel)
    case Fail(_) => Fail(ValueError)
    case Ok((inC, out)) =>
      var rid := if id == [] then IdFromCreatedAt(createdAt) else Ok(id);
      if rid.Fail? || !MemoryIds.IsMemoryRecordId(rid.value) then Fail(ValueError)
      else if !AllIds(parents) || !AllIds(children) then Fail(ValueError)
      else Ok(MemoryRecord(createdAt, inC, out, rid.value, parents, children, input, compacted, output))
  }

  /** Validating an already constructed record again returns it unchanged. */
  lemma RevalidateIsIdentity(r: MemoryRecord)
    requires WellFormed(r)
    ensures MakeRecord(r.createdAt, r.inChannel, r.outChannel, r.id, r.parents, r.children,
                       r.input, r.compacted, r.output) == Ok(r)
  {
    var m := MakeRecord(r.createdAt, r.inChannel, r.outChannel, r.id, r.parents, r.children,
                        r.input, r.compacted, r.output);
    ValidatePairOfChannels(r.inChannel, r.outChannel);
    assert m.value.id == r.id by {
      assert r.id != [];
    }
  }

  /**
   A record built without an id gets the id of its creation millisecond, so
   records created in the same millisecond collide and earlier records get
   smaller ids.
   */
  lemma DerivedIdsFollowTime(a: MemoryRecord, b: MemoryRecord, ca: Stamp, cb: Stamp)
    requires MakeRecord(ca, a.inChannel, a.outChannel, [], a.parents, a.children, a.input, a.compacted, a.output) == Ok(a)
    requires MakeRecord(cb, b.inChannel, b.outChannel, [], b.parents, b.children, b.input, b.compacted, b.output) == Ok(b)
    ensures MillisOf(ca) == MillisOf(cb) ==> a.id == b.id
    ensures MillisOf(ca) < MillisOf(cb) ==> MemoryIds.LexLess(a.id, b.id)
  {
    if MillisOf(ca) < MillisOf(cb) {
      MemoryIds.IdOrderIsTimeOrder(MillisOf(ca), MillisOf(cb));
    }
  }

  /** The effective out-channel of a record. */
  function RecordEffectiveOut(r: MemoryRecord): (c: string)
    requires WellFormed(r)
    ensures IsChannel(c)
    ensures r.outChannel.Some? ==> c == r.outChannel.value
    ensures r.outChannel.None? ==> c == r.inChannel
  {
    EffectiveOut(r.inChannel, r.outChannel)
  }
}
