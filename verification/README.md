# project-k core, modelled in Dafny

This project models the pure, sequential core of project-k, an LLM agent
runtime, and proves what its helpers promise. The model covers:

- **Channels.** `/`-separated channel paths: validation, root, the
  segment-exact prefix test, root-to-leaf prefixes, out-channel
  normalisation and the effective out-channel (`Channels`). It also covers
  `Event` and `MemoryRecord` construction (`Events`, `MemoryRecords`), and
  the Telegram chat and thread channels (`TgEvents`).
- **Memory.** Record ids: the 48-bit millisecond timestamp written as
  eight order-preserving characters (`MemoryIds`). The JSONL record store
  is an in-memory state: append with parent-to-child links, lookups,
  `get_by_ids` and `get_between` (`MemoryStore`). Also:
  - the breadth-first ancestor walk (`MemoryAncestors`);
  - the folder store's paths, order file and rebuild order
    (`FolderLayout`);
  - the retrieve-memory neighbourhood search (`Neighborhood`);
  - the legacy `kind` to channel migration (`Migration`).
- **Agent prompt and run.** Preference files per channel, the persona
  override, and channel skill routing (`AgentPrompt`). The history
  stripping, memory selection and parent union of a run (`AgentRun`).
- **Telegram pipeline.** These modules are pure functions over sequences
  and maps of JSON values (`Json`):
  - `TgUpdates`: update compaction, watchlist expansion, dedup by cursor,
    the time window, grouping by chat, keyword and trigger evaluation;
  - `TgLegacy`: the legacy monolith's pending-map pruning, offset cursor
    and message compaction;
  - `TgRunner`: the polling runner's plain-text eligibility test,
    forum-topic filter, recent-history overlay, per-chat trigger cursors
    and one dispatch round;
  - `TgHistory`: the update log and the cursor-state file;
  - `TgMq`: the AMQP consumer's message mapping, acceptance and rounds;
  - `Tz`: timezone offset parsing;
  - `TgCli`: the two command-line filters over saved dumps.
- **Text utilities.**
  - `LineEdit`: the line-slice file edit and its unique-match skill
    variant.
  - `TextTool`: the marker-based text tool-call parser.
  - `Compactor`: the base64 payload detector and the multimodal mapping
    classifier.
  - `Media`: the media-type to media-kind classifier and `read_media` spec
    validation.
  - `ShellQuote`: POSIX single-quote escaping as in section 2.2.2 of IEEE
    Std 1003.1, and the launcher command built around it.
- **Bash tool.** The countdown reminder, the stuck warning, timeout
  validation, the output length guard and `edit_file` (`ShellTools`).

Python exceptions become `Outcome.Fail` values naming the exception class
(`Wrappers`); their message texts are not modelled. Parameters stand for
what the core only calls:
- reading and writing files;
- `json.loads` and `json.dumps`;
- Unicode `casefold`;
- the tokenizer's count;
- the IANA zone database;
- URL MIME guessing and sniffing;
- the clock.

`Seqs`, `Sorting` and `PyStr` hold the sequence, sorting and Python string
helpers the modules share.

## Model

| member | source | states |
|---|---|---|
| Channels.Validate | core/src/k/agent/channels.py:11-32 | a channel is accepted exactly when, after trimming whitespace, it is non-empty and has no empty `/`-segment; the accepted value is the trimmed string and a rejection is a ValueError |
| Channels.SlashShapeIffNoEmptySegment | core/src/k/agent/channels.py:24-31 | "no empty segment after splitting on `/`" is the same as "non-empty, no leading or trailing `/`, no `//`", so the edge-slash test and the segment test reject the same shapes |
| Channels.ValidateIdempotent | core/src/k/agent/channels.py:23-32 | validating an accepted channel again accepts it unchanged |
| Channels.ChannelValidatesToItself | core/src/k/agent/channels.py:23-32 | a well-formed channel passes validation as it is |
| Channels.ValidatePair | core/src/k/agent/core/entities.py:38-56 | the in-channel and any non-null out-channel are both validated; the pair is rejected exactly when one of them fails; an out-channel equal to the in-channel after trimming is stored as None, and a kept one differs from the in-channel |
| Channels.ValidatePairOfChannels | core/src/k/agent/core/entities.py:38-56 | already validated and normalised channel fields pass through unchanged |
| Channels.NormalizeOut | core/src/k/agent/channels.py:35-40 | the result is None exactly when the out-channel is None or equals the in-channel, and otherwise the out-channel itself |
| Channels.NormalizeIdempotent | core/src/k/agent/channels.py:35-40 | normalising twice is normalising once |
| Channels.EffectiveOut | core/src/k/agent/channels.py:43-46 | the result is a non-empty out-channel when one is given, otherwise the in-channel (an empty string falls back, as `or` does) |
| Channels.NormalizePreservesEffective | core/src/k/agent/channels.py:35-46 | normalising the out-channel first never changes the effective out-channel |
| Channels.Root | core/src/k/agent/channels.py:49-52 | the root has no `/`, starts the channel, and is followed by a `/` or is the whole channel |
| Channels.RootIsFirstSegment | core/src/k/agent/channels.py:49-52 | the root is the first `/`-segment |
| Channels.RootIsAncestor | core/src/k/agent/channels.py:49-58 | every channel lies in its root's subtree |
| Channels.HasPrefixIffSegmentPrefix | core/src/k/agent/channels.py:55-58 | `channel == prefix or channel.startswith(prefix + "/")` holds exactly when the prefix's segments are a prefix of the channel's segments |
| Channels.PrefixIsSegmentExact | core/src/k/agent/channels.py:55-58 | "telegram/chat/1" is not a prefix of "telegram/chat/12" but is one of "telegram/chat/1/thread/2" |
| Channels.HasPrefixReflexive | core/src/k/agent/channels.py:55-58 | every channel has itself as prefix |
| Channels.HasPrefixTransitive | core/src/k/agent/channels.py:55-58 | the prefix relation is transitive |
| Channels.Prefixes | core/src/k/agent/channels.py:61-65 | one prefix per segment, starting with the root and ending with the channel itself |
| Channels.PrefixesChain | core/src/k/agent/channels.py:61-65 | each listed prefix is a strictly shorter prefix of the next |
| Channels.PrefixesAreExactlyTheAncestors | core/src/k/agent/channels.py:55-65 | a string is listed among the prefixes exactly when the channel has it as prefix |
| Channels.PrefixesHaveNoEmptySegment | core/src/k/agent/channels.py:61-65 | every prefix of a valid channel is itself non-empty with no empty segment |
| Events.MakeEvent | core/src/k/agent/core/entities.py:28-56 | an event is built exactly when `in_channel` is present and valid and a non-null `out_channel` is valid; the stored channels are the trimmed ones, an out-channel equal to the in-channel is stored as None, and any failure is a validation error |
| Events.EffectiveOutIsSuppliedOrIn | core/src/k/agent/core/entities.py:50-63 | the effective out-channel of a built event is the supplied out-channel when one was given, else the in-channel |
| Events.RevalidateIsIdentity | core/src/k/agent/core/entities.py:38-56 | validating an already built event again gives the same event |
| Events.SameOutChannelStoredAsNone | core/tests/test_event_channel_model.py:10-17 | the same in- and out-channel builds an event whose out-channel is None |
| Events.Guard | core/src/k/agent/core/entities.py:78-99 | a returned value passes through, `CancelledError` propagates, and every other exception becomes its error text |
| MemoryIds.IdFromMillis | core/src/k/agent/memory/entities.py:66-75 | a ValueError exactly when millis is outside [0, 2^48); otherwise a valid id that decodes back to millis |
| MemoryIds.DigitCharStrictlyIncreasing | core/src/k/agent/memory/entities.py:40-42 | the alphabet is in ascending character order |
| MemoryIds.AlphabetByRanges | core/src/k/agent/memory/entities.py:39-42 | the 64-character alphabet literal is `-`, the digits, `A`-`Z`, `_`, `a`-`z`, in that order |
| MemoryIds.DigitOf | core/src/k/agent/memory/entities.py:43 | the decode table inverts the alphabet |
| MemoryIds.IdIffEightAlphabetChars | core/src/k/agent/memory/entities.py:88-99 | a string is an id exactly when it has 8 alphabet characters: the 48-bit range check can never fail |
| MemoryIds.EncodeRoundTrip | core/src/k/agent/memory/entities.py:72-75 | decoding the n-character encoding of m < 64^n gives m back |
| MemoryIds.DecodeRoundTrip | core/src/k/agent/memory/entities.py:93-98 | encoding the decoded value of an alphabet string gives the string back |
| MemoryIds.EncodeIsShiftGroups | core/src/k/agent/memory/entities.py:73-74 | character k of the encoding is the alphabet character of the k-th 6-bit group, most significant first |
| MemoryIds.EncodeOrderPreserving | core/src/k/agent/memory/entities.py:7-18 | smaller numbers encode to lexicographically smaller strings of the same length |
| MemoryIds.IdOrderIsTimeOrder | core/src/k/agent/memory/entities.py:66-75 | for m1 < m2 < 2^48 both ids exist and id(m1) sorts before id(m2) |
| MemoryIds.ZeroId | core/src/k/agent/memory/entities.py:72-75 | millisecond 0 encodes to "--------" |
| MemoryIds.LegacyIdsRejected | core/tests/test_memory_record_id.py:35-69 | 32-character hex ids and 36-character UUIDs are not memory record ids |
| MemoryIds.AwareMillis | core/src/k/agent/memory/entities.py:59-63 | the millisecond of an aware instant is its microsecond offset from the epoch divided by 1000 and rounded toward minus infinity, as the `timedelta` arithmetic gives for negative offsets too |
| MemoryIds.SameMillisecondSameId | core/src/k/agent/memory/entities.py:20-22 | two instants in the same millisecond get the same id |
| MemoryRecords.IdFromCreatedAt | core/src/k/agent/memory/entities.py:78-85 | an id exists exactly when the creation millisecond is in range, and it decodes to that millisecond |
| MemoryRecords.MakeRecord | core/src/k/agent/memory/entities.py:102-150 | a record is built exactly when both channels validate, the id (given, or derived from `created_at` when empty) is a memory record id, and every parent and child id is one; channels are trimmed, a same-as-input out-channel becomes None, the other fields are kept, and every failure is a ValueError |
| MemoryRecords.RevalidateIsIdentity | core/src/k/agent/memory/entities.py:122-150 | validating a built record again gives it back unchanged |
| MemoryRecords.DerivedIdsFollowTime | core/src/k/agent/memory/entities.py:7-22 | records with derived ids collide when created in the same millisecond, and an earlier record gets a smaller id |
| MemoryRecords.RecordEffectiveOut | core/src/k/agent/memory/entities.py:152-157 | a record's effective out-channel is a valid channel: the stored out-channel if any, else the in-channel |
| MemoryStore.Find | core/src/k/agent/memory/simple.py:79-84 | the lookup answers the first position holding the id, and None exactly when no record has it |
| MemoryStore.FindIsPosition | core/src/k/agent/memory/simple.py:362-367 | in a store with unique ids, looking up a record's id finds that record's own position |
| MemoryStore.GetById | core/src/k/agent/memory/simple.py:79-84 | a record is returned exactly when some stored record has the id, and it is a stored record with that id |
| MemoryStore.StoredRecordLookup | core/src/k/agent/memory/simple.py:79-84 | with unique ids, looking up a stored record's id gives back that very record |
| MemoryStore.GetLatest | core/src/k/agent/memory/simple.py:73-77 | the latest id is None exactly for an empty store, and otherwise the id of the last appended record, whatever its `created_at` |
| MemoryStore.CoerceId | core/src/k/agent/memory/store.py:30-42 | an id already parsed passes unchanged; text is accepted exactly when the parser accepts it, as the parsed key; a rejection is a ValueError |
| MemoryStore.CoerceIdIdempotent | core/src/k/agent/memory/store.py:37-38 | coercing the result of a coercion gives the same result |
| MemoryStore.GetByRef | core/src/k/agent/memory/simple.py:79-84 | `get_by_id` fails (ValueError) exactly when the id does not parse, and otherwise answers the lookup of the parsed key |
| MemoryStore.CoerceRecord | core/src/k/agent/memory/simple.py:313-320 | a record object passes through; an id that does not parse is a ValueError, one not stored is a KeyError, and a stored one resolves to the stored record with that id |
| MemoryStore.Links | core/src/k/agent/memory/simple.py:119-126 | the link list comes back as stored, in order; it fails, with KeyError, exactly in strict mode when some linked id is not stored |
| MemoryStore.GetParents | core/src/k/agent/memory/simple.py:109-126 | the parents of the resolved record, in `record.parents` order; it fails when resolving fails or, in strict mode, when a parent is missing |
| MemoryStore.GetChildren | core/src/k/agent/memory/simple.py:128-145 | the children of the resolved record, in `record.children` order; it fails when resolving fails or, in strict mode, when a child is missing |
| MemoryStore.TimeThenPositionIsTotalOrder | core/src/k/agent/memory/simple.py:105-106 | ordering positions by (`created_at`, store position) is a total order, so the sort has a well-defined result |
| MemoryStore.Positions | core/src/k/agent/memory/simple.py:230-239 | the scan collects, strictly increasing, exactly the positions of the records the filter keeps |
| MemoryStore.SortedPositions | core/src/k/agent/memory/simple.py:230-242 | exactly the kept positions, each once, ordered by (`created_at`, store position) |
| MemoryStore.Chronological | core/src/k/agent/memory/simple.py:104-107 | exactly the stored records the filter keeps, each once, ordered by `created_at` and, on equal times, by store position |
| MemoryStore.GetByIds | core/src/k/agent/memory/simple.py:86-107 | a ValueError when some id does not parse; otherwise a KeyError exactly in strict mode when some id is not stored; otherwise exactly the stored records whose id was asked for, duplicates dropped, sorted by (`created_at`, store position) |
| MemoryStore.GetBetween | core/src/k/agent/memory/simple.py:205-242 | a ValueError exactly when start is after end; otherwise exactly the ids of records whose `created_at` is within the range under the two inclusion flags, each once, sorted by (`created_at`, store position) |
| MemoryStore.ChronologicalIds | core/src/k/agent/memory/simple.py:241-242 | the ids of a chronological selection are distinct and ordered by (`created_at`, store position) |
| MemoryStore.OpenBoundsNarrow | core/src/k/agent/memory/simple.py:372-389 | an id returned with one or both bounds open is also returned with both closed |
| MemoryStore.LinkChild | core/src/k/agent/memory/simple.py:264-265 | only the record at the parent's position changes, and only by gaining the child id at the end of its children when it lacked it |
| MemoryStore.LinkParents | core/src/k/agent/memory/simple.py:260-265 | the parent loop fails, with KeyError, exactly when some parent id is not stored, and changes nothing but `children` lists |
| MemoryStore.FirstMissing | core/src/k/agent/memory/simple.py:260-263 | the count of parents checked before the first unknown one: every parent before it is stored and the one at it is not |
| MemoryStore.LinkParentsEffect | core/src/k/agent/memory/simple.py:260-265 | each record's children after the loop are its children with the child id added once for each parent, up to the first unknown one, that names it and lacked it |
| MemoryStore.Append | core/src/k/agent/memory/simple.py:244-270 | a stored id is a ValueError with nothing changed; an unknown parent is a KeyError with nothing written; on success the record goes last, becomes the latest, is written with the linked parents, and no field other than `children` changes on any earlier record |
| MemoryStore.AppendEffect | core/src/k/agent/memory/folder.py:198-222 | after `append`, every earlier record's children are exactly its old children plus the new id from each parent reached before any failure |
| MemoryStore.AppendLinksParents | core/src/k/agent/memory/store.py:12-14 | after a successful append every listed parent record holds the new id among its children |
| MemoryStore.AppendKeepsValid | core/src/k/agent/memory/simple.py:255-268 | a successful append keeps ids unique |
| MemoryStore.KeyErrorAfterFirstParentLinksIt | core/src/k/agent/memory/simple.py:260-265 | with the second parent unknown, the append fails with KeyError and writes nothing, yet the first parent already holds the new id in memory |
| FolderLayout.RecordPath | core/src/k/agent/memory/folder.py:338-348 | a record lives at records/YYYY/MM/DD/HH/<id>.json, with the year in four zero-padded digits and month, day and hour in two |
| FolderLayout.RecordPathRoundTrip | core/src/k/agent/memory/folder.py:338-348 | reading the path of a record back gives its id and the year, month, day and hour of its creation |
| FolderLayout.SameDirectoryIffSameHour | core/src/k/agent/memory/folder.py:341-346 | two records share a directory exactly when they were created in the same wall-clock hour |
| FolderLayout.RecordPathInjective | core/src/k/agent/memory/folder.py:338-348 | records with different ids never share a file |
| FolderLayout.OptionalStr | core/src/k/agent/memory/folder.py:469-486 | an optional field is None when absent or null, the string when it is a string, and a ValueError for any other value |
| FolderLayout.ParseOrderLine | core/src/k/agent/memory/folder.py:434-496 | a blank line (after trimming) is skipped, and only a blank line; text that is not JSON is read as a bare id, kept when the id parses and a ValueError otherwise; an object line keeps the id it names; every failure is a ValueError |
| FolderLayout.ParseObjectLine | core/src/k/agent/memory/folder.py:455-492 | an object line yields an entry whose id is the parse of a string `id` field and whose relpath is the optional string `relpath`; anything else is a ValueError |
| FolderLayout.ReadOrderLines | core/src/k/agent/memory/folder.py:431-497 | the file reads as the entries of its non-blank lines, in order, exactly when every line parses; otherwise the failure names the first bad line, and every line before it parsed |
| FolderLayout.Payload | core/src/k/agent/memory/folder.py:383-389 | the written object always carries the id, and carries `created_at` (in ISO form) and `relpath` exactly when the entry has them |
| FolderLayout.OrderLineRoundTrip | core/src/k/agent/memory/folder.py:383-389 | a line written for an entry reads back as that entry, given codecs that agree with each other |
| FolderLayout.PayloadParsesBack | core/src/k/agent/memory/folder.py:455-492 | the object written for an entry parses back to the same entry |
| FolderLayout.OrderFileRoundTrip | core/src/k/agent/memory/folder.py:370-390 | an order file written for a list of entries reads back as the same entries in the same order |
| FolderLayout.AppendedLineIsReadLast | core/src/k/agent/memory/folder.py:392-400 | appending a line for a record to a readable order file makes that record's entry the last one read |
| FolderLayout.ResolveRecordPath | core/src/k/agent/memory/folder.py:411-428 | a stored relpath wins, else the path derived from `created_at`, else the single search hit; it fails, with ValueError, exactly when there is neither relpath nor time and the search does not find exactly one file |
| FolderLayout.AppendedEntryResolves | core/src/k/agent/memory/folder.py:218-219 | the entry `append` writes for a record resolves to the record's own derived file, through its relpath or, without one, through its time |
| FolderLayout.RebuildLeIsTotalOrder | core/src/k/agent/memory/folder.py:309-310 | the rebuild's sort key (`created_at`, then id text) with the stable-sort tie-break is a total order |
| FolderLayout.RebuildPositions | core/src/k/agent/memory/folder.py:295-310 | every found record file appears exactly once, ordered by `created_at` and then by id |
| FolderLayout.RebuildOrder | core/src/k/agent/memory/folder.py:288-320 | the rebuilt order has one entry per found record file, each carrying id, `created_at` and relpath, ordered by (`created_at`, id), and nothing else |
| FolderLayout.LoadRecords | core/src/k/agent/memory/folder.py:248-286 | loading succeeds exactly when every entry's file reads as a record with the entry's id and no id repeats; the store then holds those records in order file order, and every failure is a ValueError |
| FolderLayout.LoadedSnoc | core/src/k/agent/memory/folder.py:270-281 | a record with a fresh id read for one more entry extends the loaded store, keeping ids unique |
| MemoryAncestors.GetAncestors | core/src/k/agent/memory/simple.py:147-203 | a negative level is a ValueError; an unresolvable record fails as resolution does; level 0 gives []; otherwise the ids reachable in 1 to `level` parent steps, each once and nearer layers first, or a KeyError in strict mode exactly when a looked-up layer holds an unstored id |
| MemoryAncestors.Walk | core/src/k/agent/memory/folder.py:141-169 | the walk from a record's parents returns exactly the ids of the parent layers within the bound, without repetition and in layer order, and terminates on cyclic links |
| MemoryAncestors.Layers | core/src/k/agent/memory/simple.py:186-201 | the layer loop, run from any state that satisfies the walk's invariant, ends with the specified result |
| MemoryAncestors.StartInv | core/src/k/agent/memory/simple.py:181-184 | before the first layer, nothing is listed and the frontier is exactly the record's parents, which form layer 1 |
| MemoryAncestors.Step | core/src/k/agent/memory/simple.py:186-201 | one layer either fails as specified or advances the invariant by one layer, and a non-empty next frontier leaves fewer unseen stored ids |
| MemoryAncestors.Layer | core/src/k/agent/memory/simple.py:188-201 | one pass over the frontier lists each new id once, after the earlier ones, and queues exactly the parents of the new ids; in strict mode it fails only on an unstored parent |
| MemoryAncestors.Visit | core/src/k/agent/memory/simple.py:190-200 | visiting a new id queues its parents when it is stored; in strict mode an unstored parent fails the walk |
| MemoryAncestors.FailSpec | core/src/k/agent/memory/simple.py:197-198 | a strict walk that meets an unstored id in a probed layer answers KeyError, as specified |
| MemoryAncestors.OkSpec | core/src/k/agent/memory/simple.py:186-203 | a walk that stops at an empty frontier or at the level bound returns exactly the ids within the bound |
| MemoryAncestors.ReachFixpoint | core/src/k/agent/memory/simple.py:186 | once a layer adds no id, no later layer adds one, so an empty frontier ends the walk with nothing missed |
| MemoryAncestors.ReachStep | core/src/k/agent/memory/simple.py:188-201 | each layer adds exactly the parents of the ids the previous layer added |
| MemoryAncestors.LevelOrderedAppend | core/src/k/agent/memory/simple.py:193 | appending ids first reached in the next layer keeps the listing ordered by layer |
| Neighborhood.LinkIds | data/fs/skills/meta/retrieve-memory/neighborhood.py:114-115 | a link list gives one id per element, strings kept and other values shown with `str` |
| Neighborhood.Related | data/fs/skills/meta/retrieve-memory/neighborhood.py:97-124 | the result maps exactly the ids within `max_depth` link steps of the start (either direction, only loaded non-empty records expanded) to their distance from the start; a negative bound keeps only the start |
| Neighborhood.Dequeue | data/fs/skills/meta/retrieve-memory/neighborhood.py:103-122 | one turn of the loop keeps the walk's invariant and either records a new id or shortens the queue |
| Neighborhood.LinksAt | data/fs/skills/meta/retrieve-memory/neighborhood.py:109-114 | an id with no record, or an empty one, has no links; otherwise its parents followed by its children |
| Neighborhood.ExpandFront | data/fs/skills/meta/retrieve-memory/neighborhood.py:113-122 | expanding the front id below the bound keeps the walk's invariant and records a new id or shortens the queue |
| Neighborhood.DequeueKeepsInv | data/fs/skills/meta/retrieve-memory/neighborhood.py:104-111 | dropping an id at the bound, or one without links, keeps the walk's invariant |
| Neighborhood.Visit | data/fs/skills/meta/retrieve-memory/neighborhood.py:113-122 | each link is recorded at depth d + 1 and queued exactly when it had no depth of at most d + 1 and d + 1 is within the bound; no recorded depth grows |
| Neighborhood.VisitKeepsInv | data/fs/skills/meta/retrieve-memory/neighborhood.py:113-122 | the inner loops keep every recorded depth reachable, the queue ordered by depth, and every expanded id's links recorded |
| Neighborhood.Complete | data/fs/skills/meta/retrieve-memory/neighborhood.py:103 | when the queue empties, the recorded ids are exactly those within the bound, each at its distance |
| Neighborhood.CoveredUpTo | data/fs/skills/meta/retrieve-memory/neighborhood.py:97-98 | every id within k steps of the start, for k up to the bound, is recorded at depth at most k |
| Neighborhood.Loadable | data/fs/skills/meta/retrieve-memory/neighborhood.py:180-183 | the ids kept are exactly those whose record loads, in their original order |
| Neighborhood.Listing | data/fs/skills/meta/retrieve-memory/neighborhood.py:177-184 | the printed ids are exactly the visited ids whose record loads, each once, in ascending order of the id string |
| Neighborhood.FirstIdFlag | data/fs/skills/meta/retrieve-memory/neighborhood.py:139-140 | the position of the first "--id" token, and None exactly when there is none |
| Neighborhood.NormalizeArgv | data/fs/skills/meta/retrieve-memory/neighborhood.py:131-145 | the rewriting removes at most one token |
| Neighborhood.LeadingIdBecomesFlag | data/fs/skills/meta/retrieve-memory/neighborhood.py:136-137 | a leading id beginning with '-' that is not a known flag is passed as "--id=<id>" |
| Neighborhood.IdFlagJoinsValue | data/fs/skills/meta/retrieve-memory/neighborhood.py:139-145 | "--id" followed by an id beginning with '-' becomes the single token "--id=<id>" |
| Neighborhood.PlainArgvUnchanged | data/fs/skills/meta/retrieve-memory/neighborhood.py:131-145 | an argument list with no token that looks like an unknown option is left alone |
| Migration.PathOrderIsTotal | core/src/k/agent/memory/folder_migrate_kind_to_channel.py:108 | the path order used to sort the record files is a total order |
| Migration.RecordJsonFiles | core/src/k/agent/memory/folder_migrate_kind_to_channel.py:99-108 | the selected files are exactly the found `*.json` paths that are not `.detailed.json` or `.compacted.json` sidecars, with their multiplicity, in sorted order |
| Migration.RecordJsonFilesUnique | core/src/k/agent/memory/folder_migrate_kind_to_channel.py:108 | any sorted arrangement of the kept paths is the selection itself |
| Migration.DropSuffix | core/src/k/agent/memory/folder_migrate_kind_to_channel.py:114-116 | removing a suffix the name ends with leaves the part that, with the suffix appended, gives the name back |
| Migration.DetailedPathFor | core/src/k/agent/memory/folder_migrate_kind_to_channel.py:111-119 | a sidecar path exists exactly for names ending in `.core.json` or `.json` but not `.detailed.json`; it sits in the same directory and ends in `.detailed.jsonl` |
| Migration.DetailedNameKeepsId | core/src/k/agent/memory/folder_migrate_kind_to_channel.py:111-119 | `<id>.core.json` and a plain `<id>.json` both have the sidecar `<id>.detailed.jsonl` beside them |
| Migration.FirstNonBlank | core/src/k/agent/memory/folder_migrate_kind_to_channel.py:135-138 | the first line that is not blank after trimming, and None exactly when every line is blank |
| Migration.SidecarDecidedByFirstLine | core/src/k/agent/memory/folder_migrate_kind_to_channel.py:122-148 | the sidecar's input depends only on its first non-blank line: a JSON string is the input, a JSON object or array gives the line itself, anything else gives None, and an all-blank sidecar gives None |
| Migration.LegacyInput | core/src/k/agent/memory/folder_migrate_kind_to_channel.py:151-164 | a string `input` field wins; otherwise the input comes from the sidecar when the record has one that exists and reads |
| Migration.LineObjects | core/src/k/agent/memory/folder_migrate_kind_to_channel.py:171-180 | the objects collected are JSON objects, at most one per line |
| Migration.LineObject | core/src/k/agent/memory/folder_migrate_kind_to_channel.py:172-180 | a line contributes at most one value, and only a non-blank line whose trimmed text decodes to that object |
| Migration.ParseTelegramUpdates | core/src/k/agent/memory/folder_migrate_kind_to_channel.py:167-198 | the updates are the objects found one per line when there are any; otherwise the whole trimmed text decoded as one object or an array whose objects are kept; every update is an object |
| Migration.OneObjectPerLine | core/src/k/agent/memory/folder_migrate_kind_to_channel.py:171-182 | text whose lines each hold one JSON object parses to exactly those objects, in order |
| Migration.InferInChannel | core/src/k/agent/memory/folder_migrate_kind_to_channel.py:201-234 | a channel is inferred only for `kind == "telegram"`, and it is always a valid channel under "telegram" |
| Migration.InferFromUpdates | core/src/k/agent/memory/folder_migrate_kind_to_channel.py:221-234 | a channel is inferred exactly for a non-empty batch of updates: the chat channel when the updates name exactly one chat, else "telegram"; both are valid channels |
| Migration.SingleChatUnique | core/src/k/agent/memory/folder_migrate_kind_to_channel.py:225-230 | when the updates name a single chat, that chat id is unique |
| Migration.KeepIn | core/src/k/agent/memory/folder_migrate_kind_to_channel.py:249-251 | a string `in_channel` must validate (ValueError otherwise); the payload is then left unchanged |
| Migration.DeriveIn | core/src/k/agent/memory/folder_migrate_kind_to_channel.py:252-268 | without a string `in_channel`, a string `kind` is required; the inferred channel replaces it when present; the validated result is stored as `in_channel`, every other key is kept, and the payload counts as changed |
| Migration.MigrateIn | core/src/k/agent/memory/folder_migrate_kind_to_channel.py:249-268 | the in-channel step touches only `in_channel`, and changes the payload exactly when there was no string `in_channel` |
| Migration.MigrateOut | core/src/k/agent/memory/folder_migrate_kind_to_channel.py:270-282 | the out-channel step fails, with ValueError, exactly when `out_channel` is neither absent, null nor a valid channel string; it adds a missing key as null, nulls one that names the in-channel, touches no other key, and reports a change exactly when it edited |
| Migration.OutDecision | core/src/k/agent/memory/folder_migrate_kind_to_channel.py:270-282 | a missing value is stored as null, an accepted one is kept or nulled, and anything else is a ValueError |
| Migration.StrOutDecision | core/src/k/agent/memory/folder_migrate_kind_to_channel.py:276-280 | a string out-channel fails exactly when it does not validate, and is nulled exactly when its validated form equals the in-channel |
| Migration.NullOut | core/src/k/agent/memory/folder_migrate_kind_to_channel.py:274-279 | the out-channel becomes null and no other key changes |
| Migration.DropKind | core/src/k/agent/memory/folder_migrate_kind_to_channel.py:284-286 | `kind` is removed, every other key is kept, and the payload changes exactly when it had `kind` |
| Migration.MigratePayload | core/src/k/agent/memory/folder_migrate_kind_to_channel.py:237-288 | a non-object is a ValueError; a success has a valid `in_channel`, a settled `out_channel` and no `kind`, and reports a change exactly when the payload was edited |
| Migration.MigrateKeepsOtherKeys | core/src/k/agent/memory/folder_migrate_kind_to_channel.py:246 | keys other than `in_channel`, `out_channel` and `kind` are left as they were |
| Migration.MigrateInChannel | core/src/k/agent/memory/folder_migrate_kind_to_channel.py:249-268 | the migrated `in_channel` is the written string when there was one, otherwise the validated inference or `kind` |
| Migration.MigrateAddsNullOut | core/src/k/agent/memory/folder_migrate_kind_to_channel.py:271-275 | a payload without `out_channel` gets an explicit null and counts as changed |
| Migration.MigrateFailsWhen | core/src/k/agent/memory/folder_migrate_kind_to_channel.py:243-282 | the migration fails without a string `in_channel` or `kind`, with an invalid written channel, or with an `out_channel` that is not null or a valid channel string |
| Migration.AcceptedOutMigrates | core/src/k/agent/memory/folder_migrate_kind_to_channel.py:270-288 | a successful in-channel step followed by an accepted `out_channel` always migrates |
| Migration.MigrateIdempotent | core/src/k/agent/memory/folder_migrate_kind_to_channel.py:237-288 | migrating an already migrated payload reports no change and returns it as it is, whatever the inference says |
| Migration.MigratedIsFixed | core/src/k/agent/memory/folder_migrate_kind_to_channel.py:249-288 | a payload of the migrated shape is a fixed point of the rewrite |
| Migration.MigrateRecord | core/src/k/agent/memory/folder_migrate_kind_to_channel.py:237-268 | the record step fails only with ValueError; a success has the migrated shape; a legacy Telegram record without in-channel and with an accepted out-channel always migrates |
| Migration.TelegramKindMigrates | core/src/k/agent/memory/folder_migrate_kind_to_channel.py:213-268 | a legacy Telegram record without `out_channel` migrates to a channel under "telegram", whatever its input holds |
| Migration.KindMigrates | core/src/k/agent/memory/folder_migrate_kind_to_channel.py:213-268 | a legacy record whose `kind` is a root channel, with no out-channel and every inferred channel valid and under that root, migrates to a channel under that root |
| Migration.KindInStep | core/src/k/agent/memory/folder_migrate_kind_to_channel.py:252-268 | deriving from a root-channel `kind`, with any inferred channel under it, succeeds under that root |
| Migration.DeriveValidChannel | core/src/k/agent/memory/folder_migrate_kind_to_channel.py:261-267 | a derived channel that already validates to itself is stored unchanged as `in_channel` |
| Migration.DerivedChannelStored | core/src/k/agent/memory/folder_migrate_kind_to_channel.py:263-267 | when `in_channel` is derived, the migrated payload stores exactly the derived channel |
| Migration.MigrateFile | core/src/k/agent/memory/folder_migrate_kind_to_channel.py:74-81 | a file that cannot be read or decoded fails; otherwise the file's payload goes through the record step |
| Migration.Rewrites | core/src/k/agent/memory/folder_migrate_kind_to_channel.py:82-90 | one write per changed file, in scan order, each with that file's migrated payload |
| Migration.TallyOne | core/src/k/agent/memory/folder_migrate_kind_to_channel.py:72-94 | one file is counted as changed or unchanged when its migration succeeds, and is an error when the migration fails or, outside a dry run, the write of a changed file fails; a changed file is written only outside a dry run |
| Migration.Tally | core/src/k/agent/memory/folder_migrate_kind_to_channel.py:72-96 | every file is scanned once; changed plus unchanged plus errors is the scan count plus the files whose write failed, because such a file is counted as changed and then as an error; errors list the failing files in order; writes are the rewrites of the writable changed files, none in a dry run |
| Migration.MigrateRun | core/src/k/agent/memory/folder_migrate_kind_to_channel.py:50-96 | without a `records` directory the report is empty; otherwise the counts and errors cover the sorted record files, the counts add up to at least the scan count and exactly to it in a dry run, and a dry run writes nothing |
| Migration.FileStep | core/src/k/agent/memory/folder_migrate_kind_to_channel.py:72-81 | the loop's step is the per-file migration at every path |
| Migration.ExitStatus | core/src/k/agent/memory/folder_migrate_kind_to_channel.py:354 | the exit status is 1 exactly when some file failed, else 0 |
| Migration.RewritesAreFixed | core/src/k/agent/memory/folder_migrate_kind_to_channel.py:237-288 | a payload a run wrote is left unchanged by a second migration, so a second run finds nothing to change |
| Migration.TallyExactWithoutWriteFailures | core/src/k/agent/memory/folder_migrate_kind_to_channel.py:82-94 | in a dry run, or when every changed file can be written, no file is counted twice, so the counts add up to the scan count |
| AgentPrompt.PersonaOverride | core/src/k/agent/core/agent.py:216-225 | the override is trimmed; a non-empty one is the trimmed PERSONA.md, which always wins when it exists and is not blank; the default file is consulted only when PERSONA.md is missing; any other read failure gives no override |
| AgentPrompt.BlankPersonaHidesDefault | core/src/k/agent/core/agent.py:217-225 | a PERSONA.md that exists but is blank gives no override, whatever PERSONA.default.md holds |
| AgentPrompt.MissingPersonaUsesDefault | core/src/k/agent/core/agent.py:218-220 | with PERSONA.md missing, a non-blank default file is the override, trimmed |
| AgentPrompt.CandidatesOf | core/src/k/agent/core/agent.py:233-235 | two candidates per prefix, in prefix order: `<prefix>.md`, then `<prefix>/PREFERENCES.md` |
| AgentPrompt.PreferenceCandidates | core/src/k/agent/core/agent.py:228-236 | two candidates for each prefix of the input channel, from the root to the channel itself |
| AgentPrompt.CandidatesAreAncestorFiles | core/src/k/agent/core/agent.py:228-236 | a prefix's files are candidates exactly when the prefix is an ancestor of (or equal to) the channel, and then its `.md` file comes immediately before its directory file |
| AgentPrompt.CandidatesRootToLeaf | core/src/k/agent/core/agent.py:229 | candidates run from the root to the leaf: an earlier prefix is a strictly shorter ancestor of a later one |
| AgentPrompt.Blocks | core/src/k/agent/core/agent.py:248-258 | at most one section per candidate, none exactly when no candidate loads non-blank text, and each section ends with `---` |
| AgentPrompt.BlocksAreLoadedFiles | core/src/k/agent/core/agent.py:248-258 | the sections are those of exactly the candidates that load, in candidate order, each holding the file's path and trimmed text |
| AgentPrompt.LoadPreferences | core/src/k/agent/core/agent.py:239-262 | the prompt is empty exactly when no candidate loads; otherwise it is wrapped in `<Preferences>` and `</Preferences>` |
| AgentPrompt.PreferencesHoldEverySection | core/src/k/agent/core/agent.py:260-262 | the right-strip removes nothing, so the prompt holds every section whole, joined by newlines |
| AgentPrompt.Present | core/src/k/agent/core/agent.py:321 | the chunks kept are exactly those that were found |
| AgentPrompt.JoinAllSpace | core/src/k/agent/core/agent.py:321 | a newline join is blank exactly when every part is |
| AgentPrompt.ChannelMd | core/src/k/agent/core/agent.py:317-321 | the channel text is empty exactly when every found chunk is blank (or none was found) |
| AgentPrompt.ConcatSkillsPrompt | core/src/k/agent/core/agent.py:310-325 | the prompt always starts with the basic skills; a `<ChannelSkills>` section is added exactly when the context skill of the input channel or the messager skill of the effective output channel supplies non-blank text |
| AgentPrompt.ChannelSkillsHoldBothChunks | core/src/k/agent/core/agent.py:317-324 | with both skills found and the messager skill not blank, the section holds the context skill whole, a newline, then the messager skill right-stripped |
| AgentRun.StripFirst | core/src/k/agent/core/agent.py:336-343 | a request without parts fails on the index; a response is kept as it is; a request is reduced to its last part alone: a user prompt gets the instruct as its content, and any other part is kept itself |
| AgentRun.StripHistory | core/src/k/agent/core/agent.py:333-348 | an empty history fails on the index; otherwise the reduced first message followed by the messages strictly between the first and the last, so the last message is dropped (a one-message history keeps just the reduced first) |
| AgentRun.StripFirstIdempotent | core/src/k/agent/core/agent.py:336-343 | reducing an already reduced first message changes nothing |
| AgentRun.StripHistoryLosesOnlyEnds | core/src/k/agent/core/agent.py:344-347 | the stripped history with the original first message restored and the last message appended is the original history |
| AgentRun.StripHistoryInstructExample | core/src/k/agent/core/agent.py:338-343 | example, for one fixed two-message history: a user prompt that ends the first request is replaced by the instruct, and the other parts of that request go |
| AgentRun.MemorySelect | core/src/k/agent/core/agent.py:362-375 | the call fails exactly when some parent does not name a stored record, with that parent's error; otherwise the recent set is exactly the parents and their ancestors within 5 levels, and the loaded records are exactly the stored records named by a parent or within 20 levels above one, each once |
| AgentRun.AncestorsAt | core/src/k/agent/core/agent.py:371-372 | one `get_ancestors` call with a positive level succeeds exactly when the parent resolves, and then answers exactly the ancestors within that level |
| AgentRun.LoadedRecords | core/src/k/agent/core/agent.py:374 | the final `get_by_ids` call succeeds and loads exactly the records whose ids were selected, each once |
| AgentRun.RecentWithinLoaded | core/src/k/agent/core/agent.py:365-372 | every recent id is also within 20 levels, so every recent record other than a parent text is loaded |
| AgentRun.Dedup | core/src/k/agent/core/agent.py:428 | the result holds every element of the input exactly once and nothing else |
| AgentRun.DedupDistinct | core/src/k/agent/core/agent.py:428 | a list without repetitions is left unchanged |
| AgentRun.NewRecordParents | core/src/k/agent/core/agent.py:428 | the new record's parents are every parent memory and every referenced memory, each exactly once |
| AgentRun.NewRecordParentsStable | core/src/k/agent/core/agent.py:428 | deduplicating the parents again, or merging them with nothing, changes nothing |
| TgEvents.ChannelOfSegments | core/src/k/starters/telegram/events.py:116-120 | joining non-empty, slash-free parts with `/` gives a channel whose segments are exactly those parts and whose root is the first |
| TgEvents.ChatChannelShape | core/src/k/starters/telegram/events.py:116 | `telegram/chat/<id>` is a channel with three segments under the root "telegram" |
| TgEvents.ExtendByTwo | core/src/k/starters/telegram/events.py:120 | appending two slash-free non-empty segments to a channel keeps it a channel with the same root, below the original |
| TgEvents.ThreadChannelShape | core/src/k/starters/telegram/events.py:116-120 | a thread channel is a channel under "telegram" and below its chat's channel |
| TgEvents.TelegramIsChannel | core/src/k/starters/telegram/events.py:113-114 | the bare "telegram" fallback is itself a one-segment channel |
| TgEvents.UnderTelegram | core/src/k/starters/telegram/events.py:93-120 | every channel rooted at "telegram" lies below the bare "telegram" channel |
| TgEvents.TopicThreadAt | core/src/k/starters/telegram/events.py:142-152 | a message object yields a topic id exactly when it is marked `is_topic_message: true` and its `message_thread_id` is an int |
| TgEvents.ThreadIdNeedsTopicMarker | core/src/k/starters/telegram/events.py:134-153 | an update has a thread id exactly when one of its message objects is an explicitly marked topic message with an int thread id |
| TgEvents.InChannelForUpdate | core/src/k/starters/telegram/events.py:111-120 | "telegram" without a chat id; `telegram/chat/<id>` without a topic id; with both, the thread channel below it; always a valid channel under "telegram" |
| TgEvents.ChannelFor | core/src/k/starters/telegram/events.py:111-120 | the channel for extracted chat and thread ids is a valid channel under "telegram", below the chat's channel when there is a chat |
| TgEvents.ChatIdList | core/src/k/starters/telegram/events.py:99-103 | the listed chat ids are exactly those of the updates that carry one |
| TgEvents.SharedChat | core/src/k/starters/telegram/events.py:99-107 | a chat is found exactly when the updates that carry a chat id all name the same single chat, and it is that chat |
| TgEvents.InChannelForUpdates | core/src/k/starters/telegram/events.py:93-108 | an empty batch is "telegram"; one update takes its own channel; several take the shared chat's channel, or "telegram" when the chat ids are mixed or absent |
| TgEvents.BatchChannelIsAncestor | core/src/k/starters/telegram/events.py:56-58 | the batch channel is an ancestor of the channel of every member that carries a chat id |
| TgEvents.Bodies | core/src/k/starters/telegram/events.py:61-64 | one body per update, in order, each the serialisation of that update |
| TgEvents.UpdatesToEvent | core/src/k/starters/telegram/events.py:47-65 | the event has the batch channel, no out-channel, and passes the event validation unchanged |
| TgEvents.UpdateToEvent | core/src/k/starters/telegram/events.py:25-44 | the event has the update's own channel, no out-channel, and the update's body |
| TgEvents.SingleUpdateBatch | core/src/k/starters/telegram/events.py:96-97 | a batch of one update is the same event as the single-update conversion |
| TgEvents.ContentSplitsIntoBodies | core/src/k/starters/telegram/events.py:55-56 | when no body holds a newline, splitting the content on newlines gives back the bodies in input order |
| TgUpdates.FirstSomeIsFirst | collections/src/kapy_collections/starters/telegram/compact.py:497-505 | the value found comes from the first path that yields one, and there is none exactly when no path yields one |
| TgUpdates.DigitsConcat | collections/src/kapy_collections/starters/telegram/compact.py:102-107 | the decimal value of two digit strings written one after the other is the first value shifted by the second's length plus the second value |
| TgUpdates.CanonicalDigits | collections/src/kapy_collections/starters/telegram/compact.py:102 | `str(int(s))` gives back a digit string without a leading zero |
| TgUpdates.Partner | collections/src/kapy_collections/starters/telegram/compact.py:99-107 | for a negative id, the long `-100…` form (more than three digits) loses its leading "100" digits and any other id gains them; the partner is never positive |
| TgUpdates.PartnerRoundTrip | collections/src/kapy_collections/starters/telegram/compact.py:90-94 | going from the short form to the long form and back returns the original id |
| TgUpdates.ExpandWatchlist | collections/src/kapy_collections/starters/telegram/compact.py:87-109 | the expanded watchlist is exactly the original ids plus the partner of each negative one |
| TgUpdates.NonNegativeWatchlistUnchanged | collections/src/kapy_collections/starters/telegram/compact.py:99-100 | a watchlist without negative ids is not expanded |
| TgUpdates.ExpansionIsSymmetric | collections/src/kapy_collections/starters/telegram/compact.py:90-94 | whichever form is listed, the expansion reaches the other one |
| TgUpdates.FilterUnseen | collections/src/kapy_collections/starters/telegram/compact.py:461-485 | the kept updates are the first update of each int id past the cursor, in input order |
| TgUpdates.UnseenMeaning | collections/src/kapy_collections/starters/telegram/compact.py:461-485 | every kept update comes from the input with an int id past the cursor, no id is kept twice, and every such id of the input is represented |
| TgUpdates.FilterTimeWindow | collections/src/kapy_collections/starters/telegram/compact.py:576-599 | a negative window is a ValueError; otherwise exactly the updates without a date or at most `window` seconds old, in order |
| TgUpdates.WiderWindowKeepsMore | collections/src/kapy_collections/starters/telegram/compact.py:590-598 | a wider window keeps every update a narrower one keeps, and undated updates are always kept |
| TgUpdates.FilterForumTopicCreated | collections/src/kapy_collections/starters/telegram/compact.py:557-573 | the kept updates are exactly those without a forum-topic-created payload, in order, and kept plus dropped counts every update |
| TgUpdates.GroupByChatId | collections/src/kapy_collections/starters/telegram/compact.py:735-753 | each group key maps to exactly the admitted updates with that chat id, in order, and only keys with some update appear |
| TgUpdates.GroupMembership | collections/src/kapy_collections/starters/telegram/compact.py:742-744 | an update sits in exactly the group of its own chat id when admitted, and without an allow-list every update is grouped |
| TgUpdates.AllowListDropsUnlisted | collections/src/kapy_collections/starters/telegram/compact.py:750-751 | with an allow-list, chat-less updates and unlisted chats get no group |
| TgUpdates.KeywordIgnoresWhitespace | collections/src/kapy_collections/starters/telegram/compact.py:756-771 | a blank keyword never matches, and surrounding whitespace does not change the match |
| TgUpdates.AnyUpdate | collections/src/kapy_collections/starters/telegram/compact.py:655-667 | the early-exit loop answers true exactly when some update satisfies the test |
| TgUpdates.FlagsExplainTrigger | collections/src/kapy_collections/starters/telegram/compact.py:648-691 | some reported trigger flag is set exactly when the group triggers |
| TgUpdates.WatchedTriggerIffFilteredTriggers | collections/src/kapy_collections/starters/telegram/compact.py:710-729 | the watched updates trigger as a group exactly when some single watched update triggers |
| TgUpdates.DispatchGroups | collections/src/kapy_collections/starters/telegram/compact.py:694-732 | groups are returned exactly when some watched update triggers, and then they group every update of the batch by chat id, watched or not, and are not empty |
| TgUpdates.SetAfterFirst | collections/src/kapy_collections/starters/telegram/compact.py:170-182 | setting a key other than the first keeps the first field in place, sets the key and leaves every other key |
| TgUpdates.CompactUser | collections/src/kapy_collections/starters/telegram/compact.py:163-184 | a user compacts exactly when it has an int id; `id` is then the first key, `username` is kept when a non-empty string, `name` is the trimmed joined name when not blank, and no other key appears |
| TgUpdates.FirstThenTwo | collections/src/kapy_collections/starters/telegram/compact.py:170-182 | the object has the first key first, each of the other two exactly when it has a value, and no other key |
| TgUpdates.CompactUserJoinsNames | collections/src/kapy_collections/starters/telegram/compact.py:178-180 | a first and a last name are joined with exactly one space |
| TgUpdates.CompactFields | collections/src/kapy_collections/starters/telegram/compact.py:136-158 | every key other than `update_id` carries its compaction when that is not None, `update_id` is skipped, and keys stay distinct |
| TgUpdates.CompactUpdate | collections/src/kapy_collections/starters/telegram/compact.py:112-160 | an int `update_id` comes first; every other key maps to its compaction when that is not None and is absent otherwise |
| TgLegacy.DropWhere | core/src/k/starters/telegram.py:956-965 | collecting the keys to drop and then deleting them leaves exactly the entries whose value passes the test |
| TgLegacy.PrunePending | core/src/k/starters/telegram.py:947-965 | a negative window is a ValueError; otherwise exactly the entries that are undated or at most `window` seconds old remain, each with its value unchanged |
| TgLegacy.RetainedIdempotent | core/src/k/starters/telegram.py:956-965 | pruning twice with the same clock and window removes nothing more |
| TgLegacy.RetainedMonotone | core/src/k/starters/telegram.py:956-965 | retaining by a weaker test keeps at least the entries a stronger one keeps |
| TgLegacy.LaterClockPrunesMore | core/src/k/starters/telegram.py:961 | whatever survives pruning at a later clock survived at an earlier one |
| TgLegacy.ValidatePollArgs | core/src/k/starters/telegram.py:978-986 | the loop starts exactly with a positive poll timeout, a keyword that is not blank and a non-negative window; each failure is a ValueError |
| TgLegacy.AbsorbMeaning | core/src/k/starters/telegram.py:1065-1070 | after `setdefault`, an id is pending exactly when it was pending or some update carries it; old entries keep their value, and a new id maps to the first update that carried it |
| TgLegacy.LatestMeaning | core/src/k/starters/telegram.py:1062-1080 | the cursor only moves up: it stays None only when it was None and no update had an int id; otherwise it bounds the old cursor and every id, and is the old cursor or one of the ids |
| TgLegacy.ConsumeBatch | core/src/k/starters/telegram.py:1062-1083 | one round absorbs the updates into the pending map; when some update id is seen the cursor moves up to the largest one and the next offset is one past it; when none is, both cursor and offset are left as they were, so the offset is one past the cursor whenever the round set it |
| TgLegacy.RawInt | core/src/k/starters/telegram.py:338-346 | an int field, booleans included, is kept as the very value it came with, and any other field is dropped |
| TgLegacy.CompactChat | core/src/k/starters/telegram.py:271-302 | a chat is compacted exactly when it has an int id, and the compacted chat starts with that id, unchanged |
| TgLegacy.CompactMessage | core/src/k/starters/telegram.py:335-401 | a compacted message comes only from an object and is never empty: an empty result gives None |
| TgLegacy.DateField | core/src/k/starters/telegram.py:335-401 | among all the fields a message compacts to, the only one named `date` is the message's raw int date |
| TgLegacy.CompactMessageKeepsRawDate | core/src/k/starters/telegram.py:344-346 | an int `date` makes the message's compaction exist and is emitted under `date` as the raw integer, not rendered as text; any other date is dropped |
| TgLegacy.CompactedUpdateKeepsRawDate | core/src/k/starters/telegram.py:199-244 | compacting a whole update with the legacy per-key compactors keeps, under each message-like key, the message's raw integer date |
| TgRunner.SingleTextMessage | core/src/k/starters/telegram/runner.py:75-89 | an update yields its message object exactly when, besides `update_id`, it has one key, that key is a message key and its value is an object |
| TgRunner.ScanHolding | core/src/k/starters/telegram/runner.py:80-89 | once a message object is held, any further payload key makes the scan answer None |
| TgRunner.ScanFresh | core/src/k/starters/telegram/runner.py:80-89 | from nothing held, the scan answers the sole payload field's object when it is message-like and None otherwise |
| TgRunner.FieldsArePlain | core/src/k/starters/telegram/runner.py:104-116 | the key loop accepts a message exactly when every key is allowed and every reply is an object that is a forum-topic stub or a plain reply |
| TgRunner.IsPlainTextMessage | core/src/k/starters/telegram/runner.py:92-117 | a message is plain exactly when its `text` is a non-empty string and the key loop accepts it |
| TgRunner.IsPlainTextReply | core/src/k/starters/telegram/runner.py:127-152 | a reply is plain when it is a forum-topic stub, and otherwise under the same checks as a message |
| TgRunner.CompactionIffSinglePlainMessage | core/src/k/starters/telegram/runner.py:155-161 | an update is compacted exactly when it has a single message object and that object is plain text |
| TgRunner.ForeignKeyBlocksCompaction | core/src/k/starters/telegram/runner.py:104-106 | a message carrying any key outside the allowlist, such as a photo, is never compacted |
| TgRunner.ForumStubReplyIsPlain | core/src/k/starters/telegram/runner.py:108-114 | a text message replying to a forum-topic stub stays compactable, whatever else the stub holds |
| TgRunner.FilterForumTopicGroups | core/src/k/starters/telegram/runner.py:188-208 | each chat keeps its non-service updates in order, chats left with none are removed, and the dropped counts account for every update and group removed |
| TgRunner.FilterAfterCursor | core/src/k/starters/telegram/runner.py:306-345 | the chat-less group and chats without a cursor pass untouched; other chats keep only the updates with an id above their cursor and are removed when none remain; the counts add up |
| TgRunner.MaxIdMeaning | core/src/k/starters/telegram/runner.py:356-362 | a group's largest id bounds every int id in it and is one of them, and is None only when no update has an int id |
| TgRunner.GroupMaxId | core/src/k/starters/telegram/runner.py:356-362 | the inner loop finds the group's largest int update id |
| TgRunner.AdvanceCursors | core/src/k/starters/telegram/runner.py:348-374 | a dispatched chat with an int id gets its cursor created or raised to its largest id; the chat-less group and other cursors are untouched; the count is the number of cursors that moved |
| TgRunner.AdvancedBounds | core/src/k/starters/telegram/runner.py:364-366 | the advance never lowers a cursor, and a dispatched chat's new cursor bounds every id it dispatched |
| TgRunner.AdvanceThenFilterDropsChat | core/src/k/starters/telegram/runner.py:306-374 | after the cursors advance past a dispatched batch, the cursor filter drops every update of that batch, so the same updates are not dispatched twice |
| TgRunner.OverlayWithRecent | core/src/k/starters/telegram/runner.py:283-303 | exactly the dispatch chats come out, each with its stored recent updates when the store has a non-empty list for it and with its pending updates otherwise, and the count is the number replaced |
| TgRunner.OverlayKeepsBoundary | core/src/k/starters/telegram/runner.py:288-292 | the overlay never creates a chat run, and with nothing stored it changes nothing |
| TgRunner.ValidateRunArgs | core/src/k/starters/telegram/runner.py:389-403 | the loop starts exactly with a positive timeout, a keyword that is not blank, a non-negative recent count, and an updates store whenever that count is positive; each failure is a ValueError |
| TgRunner.Watchlisted | core/src/k/starters/telegram/runner.py:575-581 | with a watchlist only the listed chats remain, with their groups unchanged, and the chat-less group never does; without one everything remains |
| TgRunner.SelectDispatchAsWritten | core/src/k/starters/telegram/runner.py:569-604 | pending is cleared without dispatch exactly when no watched chat triggered; once recent history is loaded, the overlay runs on all triggered groups, so the dispatched chats are all the triggered ones, watched or not |
| TgRunner.AsWrittenDispatchesUnwatchedChat | core/src/k/starters/telegram/runner.py:599-604 | with the watchlist {1}, triggers in chats 1 and 2 and recent history loaded, chat 2 is dispatched although it is not watched |
| TgRunner.SelectDispatch | core/src/k/starters/telegram/runner.py:569-604 | with the overlay applied to the watchlisted groups, the dispatched chats are exactly the watched chats that triggered, whether or not recent history was loaded, and without recent history their groups are unchanged |
| TgRunner.TriggerRound | core/src/k/starters/telegram/runner.py:558-680 | as written: a round waits exactly when no watched chat triggered; what it dispatches comes from pending chats, is free of forum-topic service updates and newer than each chat's cursor; every pending update that survives the filters is dispatched when it is watched (no history loaded) or its chat is not replaced (history loaded), so only without loaded history does the watchlist bound the chats; the cursors advance over the dispatch and drop it from the next round |
| TgRunner.FilterAndAdvance | core/src/k/starters/telegram/runner.py:609-680 | after the forum-topic and cursor filters nothing is waiting: an empty result clears the batch; otherwise exactly the updates the two filters let through are dispatched, and the cursors advance over them so none is dispatched again |
| TgRunner.SurvivorsKept | core/src/k/starters/telegram/runner.py:609-625 | the two filters keep, chat by chat, exactly the updates that are not forum-topic service updates and are above the chat's cursor, when it has one |
| TgRunner.TriggerRoundIntended | core/src/k/starters/telegram/runner.py:567-604 | with the overlay on the watchlisted groups, the dispatched chats are always watched, and every watched pending update that survives the filters and whose chat the store does not replace is dispatched |
| TgRunner.AsWrittenRoundDispatchesUnwatchedChat | core/src/k/starters/telegram/runner.py:567-604 | with the watchlist {1}, a trigger in chat 1, a pending update in chat 2 and recent history loaded but empty, the round as written dispatches chat 2 |
| TgHistory.Dumped | core/src/k/starters/telegram/history.py:50-53 | one serialised line per update, in the updates' order |
| TgHistory.AppendUpdates | core/src/k/starters/telegram/history.py:29-55 | the log gains exactly the serialised updates, in order, and the count returned is the number of updates; no updates leave the log untouched |
| TgHistory.ParseLine | core/src/k/starters/telegram/history.py:87-97 | a log line is skipped or yields an object; every failure is a ValueError |
| TgHistory.ParseLineMeaning | core/src/k/starters/telegram/history.py:87-97 | a line is skipped exactly when it is blank; otherwise it yields the object its stripped text decodes to, and it fails exactly when that text does not decode to an object |
| TgHistory.ParseLog | core/src/k/starters/telegram/history.py:86-104 | a parsed log holds only objects, at most one per line; a failure is a ValueError |
| TgHistory.ParseLogStep | core/src/k/starters/telegram/history.py:86-104 | reading one more line fails, skips, or appends that line's object |
| TgHistory.ParseLogFailsWithLine | core/src/k/starters/telegram/history.py:92-97 | one bad line anywhere makes the whole load fail |
| TgHistory.ParseLogSnoc | core/src/k/starters/telegram/history.py:86-104 | parsing a log with one more line combines the prefix's result with that line's |
| TgHistory.AppendOneThenParse | core/src/k/starters/telegram/history.py:50-53 | an update appended to a readable log is read back after what was already there |
| TgHistory.AppendThenParse | core/src/k/starters/telegram/history.py:29-104 | when the decoder inverts the encoder on every update, what the append writes is read back, after the old updates and in order |
| TgHistory.LastNSnoc | core/src/k/starters/telegram/history.py:100-104 | trimming a bounded deque before or after an append keeps the same last `n` elements |
| TgHistory.DequeAppend | core/src/k/starters/telegram/history.py:100-104 | a full deque drops its oldest element when another is appended |
| TgHistory.RecentMeaning | core/src/k/starters/telegram/history.py:58-106 | a chat has a group exactly when some logged update belongs to it; the group is that chat's last `n` updates in log order: non-empty, at most `n` long, and only that chat's updates |
| TgHistory.ChatKeysIff | core/src/k/starters/telegram/history.py:99-103 | a chat is a key exactly when its bucket has an update |
| TgHistory.RecentSnocAt | core/src/k/starters/telegram/history.py:99-103 | one more update adds or extends only its own chat's group |
| TgHistory.RecentSnoc | core/src/k/starters/telegram/history.py:99-103 | one more update extends its own chat's group as a bounded deque and leaves every other group as it was |
| TgHistory.LoadLine | core/src/k/starters/telegram/history.py:87-103 | one loop step fails exactly when the line is bad, skips a blank line, and otherwise appends the update to its chat's deque |
| TgHistory.LoadRecent | core/src/k/starters/telegram/history.py:58-106 | a non-positive limit is a ValueError, a missing log has no groups, a bad line is a ValueError, and otherwise each chat's group is its last `limit` updates |
| TgHistory.CursorStatePath | core/src/k/starters/telegram/history.py:109-114 | the state file sits in the store's directory, named after the store with the suffix appended; a path with no file name is a ValueError |
| TgHistory.CursorStatePathSeparate | core/src/k/starters/telegram/history.py:109-114 | the state file is never the store itself, and distinct stores get distinct state files |
| TgHistory.CursorValue | core/src/k/starters/telegram/history.py:161 | a valid cursor is a non-negative int |
| TgHistory.DecodeEntries | core/src/k/starters/telegram/history.py:153-166 | decoding the stored map gives non-negative cursors, and a bad entry is a ValueError |
| TgHistory.DecodeEntriesSnoc | core/src/k/starters/telegram/history.py:153-166 | decoding one more entry checks it and then sets or overwrites its chat's cursor |
| TgHistory.DecodeEntriesOk | core/src/k/starters/telegram/history.py:153-166 | decoding succeeds exactly when every entry has an int key and a valid cursor |
| TgHistory.DecodeEntriesKeys | core/src/k/starters/telegram/history.py:153-166 | a chat has a cursor exactly when some entry's key reads as that chat |
| TgHistory.DecodeEntriesLastWins | core/src/k/starters/telegram/history.py:166 | the last entry for a chat decides its cursor |
| TgHistory.LoadCursorState | core/src/k/starters/telegram/history.py:117-168 | a missing file has no cursors; bad JSON, a non-object, a wrong version, a missing map or a bad entry is a ValueError; every cursor loaded is non-negative |
| TgHistory.Entries | core/src/k/starters/telegram/history.py:190 | each chat's entry has its id as a decimal string and its cursor |
| TgHistory.DecodeEntriesRoundTrip | core/src/k/starters/telegram/history.py:153-190 | decoding the entries stored for distinct chats gives back each chat's cursor |
| TgHistory.EntriesOrdered | core/src/k/starters/telegram/history.py:195-197 | the entries of chats taken in increasing order are stored in increasing chat id order |
| TgHistory.AllCursorsValid | core/src/k/starters/telegram/history.py:186-191 | the validation loop accepts exactly when every cursor is a non-negative int |
| TgHistory.StatePayloadFields | core/src/k/starters/telegram/history.py:193-198 | the saved payload carries the version and the cursor map |
| TgHistory.LoadStored | core/src/k/starters/telegram/history.py:139-166 | a payload with the right version and a map object loads as that map's entries |
| TgHistory.StatePayloadLoads | core/src/k/starters/telegram/history.py:117-198 | loading a saved payload gives back the cursors of exactly the saved chats |
| TgHistory.SaveCursorState | core/src/k/starters/telegram/history.py:170-198 | an invalid cursor is a ValueError; otherwise the payload has the version and the map in increasing chat id order, and loading it gives back exactly the saved cursors |
| TgMq.MqToUpdate | collections/src/kapy_collections/starters/telegram_mq/runner.py:128-167 | mapping fails, with AttributeError, exactly when the message is not an object or it asks for a reply whose `reply_to` is not an object; otherwise it gives an update object |
| TgMq.UpdateObjectFields | collections/src/kapy_collections/starters/telegram_mq/runner.py:167 | the update's `update_id` and `message` read back as built |
| TgMq.MqUpdateId | collections/src/kapy_collections/starters/telegram_mq/runner.py:166-167 | the queue message's id stands in for the update id |
| TgMq.MqReplyOnlyWhenFlagged | collections/src/kapy_collections/starters/telegram_mq/runner.py:154-164 | the mapped message carries `reply_to_message` exactly when both reply flags are truthy, and then it is the mapped reply |
| TgMq.MqFirstPaths | collections/src/kapy_collections/starters/telegram_mq/runner.py:139-152 | the date, chat and sender of a mapped update sit on the first paths the extractors try |
| TgMq.MqUpdateReadsBack | collections/src/kapy_collections/starters/telegram_mq/runner.py:128-167 | the mapped update reads back through the core extractors: its date is the timestamp, its chat is the message's `chat_id` in a supergroup, and its sender is the message's `sender_id` |
| TgMq.ExtractSenderId | collections/src/kapy_collections/starters/telegram_mq/runner.py:170-197 | the key loop returns the first int sender, falling back under `callback_query` to the sender of its message, and agrees with the core sender lookup |
| TgMq.BotMessageIsFromBot | collections/src/kapy_collections/starters/telegram_mq/runner.py:144-145 | a message the bot sent through the queue maps to an update from the bot |
| TgMq.ReceiveBody | collections/src/kapy_collections/starters/telegram_mq/runner.py:302-307 | the `"chat_id" in body` test is a key test on an object, a substring test on a string and a membership test on an array, and a TypeError otherwise; a body that passes it is mapped and is skipped when mapping fails; a body that fails it is taken as an update as it is, even when it is not an object |
| TgMq.AcceptOne | collections/src/kapy_collections/starters/telegram_mq/runner.py:318-326 | an update is accepted exactly when it is not from the bot and has an int id |
| TgMq.AcceptUpdates | collections/src/kapy_collections/starters/telegram_mq/runner.py:316-336 | the loop accepts exactly the updates that pass the test, adds them with `setdefault`, and raises the consumed cursor to the largest id seen |
| TgMq.AcceptStep | collections/src/kapy_collections/starters/telegram_mq/runner.py:317-334 | one turn of the loop keeps the accepted prefix, the pending map and the cursor in step with the specification |
| TgMq.AbsorbStep | collections/src/kapy_collections/starters/telegram_mq/runner.py:327-334 | absorbing one more accepted update keeps it when its id is new and moves the cursor up to its id |
| TgMq.BotUpdatesStayOut | collections/src/kapy_collections/starters/telegram_mq/runner.py:318-329 | nothing the bot sent is ever added to the pending updates, and everything added came from the message |
| TgMq.TakeMessage | collections/src/kapy_collections/starters/telegram_mq/runner.py:300-338 | a message crashes the consumer exactly when its `chat_id` test raises or a string or array body without `chat_id` reaches the update lookup; it is skipped, leaving all state alone, exactly when it does not map or is already seen or is a forum-topic service message; otherwise it goes through the acceptance loop |
| TgMq.FirstOccurrencesSingle | collections/src/kapy_collections/starters/telegram_mq/runner.py:309-312 | de-duplicating a single update keeps it exactly when its id is present and accepted |
| TgMq.Keywords | collections/src/kapy_collections/starters/telegram_mq/runner.py:355 | every keyword of the list is stripped and non-empty |
| TgMq.KeywordsRoundTrip | collections/src/kapy_collections/starters/telegram_mq/runner.py:355 | a list of trimmed, non-empty keywords without '\|', joined with '\|', splits back into the same list |
| TgMq.SingleKeyword | collections/src/kapy_collections/starters/telegram_mq/runner.py:355 | a keyword string without '\|' is one keyword, or none when it is blank |
| TgMq.KeywordHits | collections/src/kapy_collections/starters/telegram_mq/runner.py:365-375 | one keyword hits exactly when some watched update triggers under it |
| TgMq.TriggeredKeyword | collections/src/kapy_collections/starters/telegram_mq/runner.py:363-380 | the keyword chosen is the first one, in list order, that triggers on the pending updates |
| TgMq.TriggeredConfig | collections/src/kapy_collections/starters/telegram_mq/runner.py:363-389 | the configuration that drives the round: none iff no keyword triggers, otherwise that of a keyword that triggers with no triggering keyword before it |
| TgMq.InIdOrder | collections/src/kapy_collections/starters/telegram_mq/runner.py:358-361 | the pending updates are listed by strictly increasing id, each with its own update |
| TgMq.MinId | collections/src/kapy_collections/starters/telegram_mq/runner.py:520 | the smallest pending id |
| TgMq.TrimPending | collections/src/kapy_collections/starters/telegram_mq/runner.py:517-521 | while waiting, the pending map is cut to its `PendingCap` largest ids, with their updates unchanged, by evicting the smallest ids |
| TgMq.ValidateMqArgs | collections/src/kapy_collections/starters/telegram_mq/runner.py:215-223 | every rejected setting is reported as a ValueError before any I/O |
| TgMq.MqArgsMatchPolling | collections/src/kapy_collections/starters/telegram_mq/runner.py:215-223 | the AMQP starter accepts exactly the recent-history settings the polling starter accepts |
| TgMq.MqRound | collections/src/kapy_collections/starters/telegram_mq/runner.py:355-521 | without a triggering keyword the updates wait, trimmed to the largest ids; with one, the polling runner's round as written runs on that keyword's groups: the dispatch comes from pending chats, is watched when no history was loaded, survives the filters, and the pending updates are cleared. Once a keyword triggers, every pending update that survives the filters, and is watched or not replaced by loaded history, is dispatched, and each dispatched chat's cursor reaches its largest id |
| TgMq.DistinctCount | collections/src/kapy_collections/starters/telegram_mq/runner.py:358-361 | a strictly increasing listing of the pending ids has one entry per update |
| TgMq.ChatIdTest | collections/src/kapy_collections/starters/telegram_mq/runner.py:304 | `"chat_id" in body` is a key test on an object, a substring test on a string, an element test on an array, and raises TypeError on any other value |
| Tz.OffsetDigits | collections/src/kapy_collections/starters/telegram/tz.py:37 | the digits part of the offset pattern yields hours and minutes of at most two digits each |
| Tz.SignOf | collections/src/kapy_collections/starters/telegram/tz.py:49 | '+' is east and '-' is west |
| Tz.OffsetMatch | collections/src/kapy_collections/starters/telegram/tz.py:36-40 | a match of the offset pattern carries a sign of +1 or -1 |
| Tz.SignedOffset | collections/src/kapy_collections/starters/telegram/tz.py:37 | the part of the match from the sign on starts with the sign it reports |
| Tz.SignedMinutes | collections/src/kapy_collections/starters/telegram/tz.py:49-51 | the offset is the sign times the hours and minutes, and stays within 23 hours 59 minutes either way |
| Tz.ParseStripped | collections/src/kapy_collections/starters/telegram/tz.py:32-59 | on a stripped argument, every failure is a ValueError, a fixed offset is within range, and an argument that is neither a UTC name nor an offset gives its zone when the name is known and a ValueError when it is not |
| Tz.ParseTimezone | collections/src/kapy_collections/starters/telegram/tz.py:19-59 | every failure is a ValueError; a fixed offset is within 23 hours 59 minutes; a non-blank stripped argument that is neither a UTC name nor an offset gives its zone when the name is known and a ValueError when it is not |
| Tz.BlankRejected | collections/src/kapy_collections/starters/telegram/tz.py:28-30 | a blank argument is a ValueError |
| Tz.UtcNames | collections/src/kapy_collections/starters/telegram/tz.py:32-34 | "UTC" and "Z" in any case and with surrounding blanks give UTC |
| Tz.OffsetDigitsWithColon | collections/src/kapy_collections/starters/telegram/tz.py:37 | "HH:MM" reads back as its hours and minutes |
| Tz.OffsetDigitsPacked | collections/src/kapy_collections/starters/telegram/tz.py:37 | "HHMM" without a colon reads back as its hours and minutes too |
| Tz.SignedBodyOffset | collections/src/kapy_collections/starters/telegram/tz.py:37 | a sign followed by a blank-free digits part is the signed part of the pattern |
| Tz.UtcPrefixSkipped | collections/src/kapy_collections/starters/telegram/tz.py:37 | before the sign, an optional "UTC" prefix is skipped and nothing else is |
| Tz.SignedBodyMatches | collections/src/kapy_collections/starters/telegram/tz.py:36-44 | a sign and a digits part, after an optional "UTC", match the pattern with that sign, hours and minutes |
| Tz.RenderedOffsetMatches | collections/src/kapy_collections/starters/telegram/tz.py:36-44 | a rendered offset, after an optional "UTC", matches the pattern with its own sign, hours and minutes |
| Tz.MatchedOffsetParses | collections/src/kapy_collections/starters/telegram/tz.py:41-51 | an argument that matches the offset pattern is bounds-checked and never looked up as a zone name |
| Tz.LongNotUtc | collections/src/kapy_collections/starters/telegram/tz.py:33 | nothing longer than "UTC" is a UTC name |
| Tz.RenderedOffsetParses | collections/src/kapy_collections/starters/telegram/tz.py:19-51 | every offset within range, written with or without "UTC", parses back to the same number of minutes, whatever zone names exist |
| Tz.HoursOutOfRange | collections/src/kapy_collections/starters/telegram/tz.py:45-46 | hours above 23 are a ValueError, never a zone lookup |
| Tz.MinutesOutOfRange | collections/src/kapy_collections/starters/telegram/tz.py:47-48 | minutes above 59 are a ValueError as well |
| Tz.DefaultParses | collections/src/kapy_collections/starters/telegram/tz.py:15-16 | the default argument "UTC+8" parses to the fixed eight-hour offset that is the default zone |
| TgCli.Kinds | data/fs/skills/messager/telegram/list_messages.py:105 | every kind of the `--kind` list is stripped and non-empty |
| TgCli.DefaultKindList | data/fs/skills/messager/telegram/list_messages.py:34 | the default `--kind` argument names the four message kinds, in order |
| TgCli.DumpUpdates | data/fs/skills/messager/telegram/list_messages.py:37-42 | the updates of a dump are dicts |
| TgCli.DumpUpdatesMembers | data/fs/skills/messager/telegram/list_messages.py:37-42 | the updates of a dump are exactly the dicts in its "result" list, and there are none when "result" is not a list |
| TgCli.KindMessages | data/fs/skills/messager/telegram/list_messages.py:50-53 | an update yields at most one dict per requested kind |
| TgCli.IterMessages | data/fs/skills/messager/telegram/list_messages.py:45-53 | every listed message is a dict |
| TgCli.KindMessagesMembers | data/fs/skills/messager/telegram/list_messages.py:50-53 | a value comes out of an update exactly when it is a dict stored under one of the kinds |
| TgCli.IterMessagesMembers | data/fs/skills/messager/telegram/list_messages.py:45-53 | a message is iterated exactly when it is a dict stored under a requested kind of some update |
| TgCli.SelectOne | data/fs/skills/messager/telegram/list_messages.py:108-128 | the loop body keeps a message exactly when its chat is a dict and it passes each filter that was given |
| TgCli.FewerFiltersSelectMore | data/fs/skills/messager/telegram/list_messages.py:112-126 | each filter only narrows the listing, so dropping filters never drops a message |
| TgCli.NoFiltersSelectChats | data/fs/skills/messager/telegram/list_messages.py:109-111 | without filters exactly the messages whose chat is a dict are listed |
| TgCli.SelectedMessages | data/fs/skills/messager/telegram/list_messages.py:107-128 | every collected message passes the filters |
| TgCli.SelectFromUpdate | data/fs/skills/messager/telegram/list_messages.py:50-53 | the inner loop collects the update's messages that pass the filters, in kind order |
| TgCli.SelectKind | data/fs/skills/messager/telegram/list_messages.py:50-53 | one pass of the inner loop adds the kind's message when it is a dict that passes |
| TgCli.CollectMessages | data/fs/skills/messager/telegram/list_messages.py:107-128 | the listing loop collects exactly the selected messages, in dump order |
| TgCli.OrZero | data/fs/skills/messager/telegram/list_messages.py:131 | a falsy value sorts as 0 |
| TgCli.KeyLeqIsTotalOrder | data/fs/skills/messager/telegram/list_messages.py:131 | the sort key comparison is a total order |
| TgCli.ApplyLimit | data/fs/skills/messager/telegram/list_messages.py:133-134 | the cut is a suffix; a zero limit keeps all; a positive limit keeps the last `limit` messages, or all when fewer; a negative limit drops the first `-limit` |
| TgCli.SortMessages | data/fs/skills/messager/telegram/list_messages.py:131 | the result is sorted by date and then message id, and is a permutation of the input |
| TgCli.SortMessagesStable | data/fs/skills/messager/telegram/list_messages.py:131 | messages with equal keys keep their input order |
| TgCli.PayloadSelection | data/fs/skills/messager/telegram/list_messages.py:104-128 | every selected message of a dump passes the filters |
| TgCli.ListMessages | data/fs/skills/messager/telegram/list_messages.py:104-134 | a payload that is not an object fails with AttributeError; otherwise the listing holds only messages passing the filters, sorted by key |
| TgCli.SortedSuffix | data/fs/skills/messager/telegram/list_messages.py:131-134 | a suffix of the sorted selection is sorted and holds only selected messages |
| TgCli.DroppedPrefixSortsFirst | data/fs/skills/messager/telegram/list_messages.py:133-134 | what the limit drops sorts no later than what it keeps |
| TgCli.ListingIsSortedSelection | data/fs/skills/messager/telegram/list_messages.py:104-134 | the listing is the selection sorted stably by key and then cut to the limit |
| TgCli.LimitCount | data/fs/skills/messager/telegram/list_messages.py:133-134 | with a positive limit the listing has `limit` messages, or all when fewer pass |
| TgCli.LimitKeepsLatest | data/fs/skills/messager/telegram/list_messages.py:130-134 | every listed message was selected, and every selected message left out sorts no later than every listed one |
| TgCli.TiesKeepDumpOrder | data/fs/skills/messager/telegram/list_messages.py:130-131 | messages with the same date and id keep the order the dump holds them in |
| TgCli.ExitStatusIffNoneSelected | data/fs/skills/messager/telegram/list_messages.py:133-161 | without a negative limit the exit status is 1 exactly when no message passes the filters; a negative limit also gives 1 when it drops them all |
| TgCli.PlaceholderFrom | data/fs/skills/messager/telegram/list_messages.py:70-81 | the placeholder is the label of a present media key, or the non-text label |
| TgCli.TextPreview | data/fs/skills/messager/telegram/list_messages.py:63-86 | the preview is at most `width` long; a short text is shown with whitespace runs collapsed to one space; a long one is cut to `width - 1` characters plus an ellipsis |
| TgCli.PreviewSpaces | data/fs/skills/messager/telegram/list_messages.py:83 | the only whitespace in a preview is single spaces |
| TgCli.WordPreviewsAsItself | data/fs/skills/messager/telegram/list_messages.py:65-86 | a one-word text no wider than the preview is shown as it is |
| TgCli.OneWord | data/fs/skills/messager/telegram/list_messages.py:83 | a word without whitespace splits into itself |
| TgCli.PhotoPlaceholder | data/fs/skills/messager/telegram/list_messages.py:65-71 | a message with no text or caption but a photo shows as "<photo>" |
| TgCli.FindKind | data/fs/skills/messager/telegram/extract_update.py:54-67 | the inner loop finds a match exactly when some kind holds a dict message whose chat is a dict and whose chat id and message id pass the filters |
| TgCli.ExtractUpdates | data/fs/skills/messager/telegram/extract_update.py:41-70 | a payload that is not an object fails with AttributeError; otherwise the result is the dump's updates that match, in dump order |
| TgCli.ExtractFrom | data/fs/skills/messager/telegram/extract_update.py:45-70 | the loop keeps exactly the matching updates, in order |
| TgCli.ExtractOne | data/fs/skills/messager/telegram/extract_update.py:46-70 | the loop body keeps an update exactly when its id passes and it has no chat or message filter or a kind matches |
| TgCli.OtherUpdateIdNeverExtracted | data/fs/skills/messager/telegram/extract_update.py:47-48 | an update whose id differs from `--update-id` is never extracted |
| TgCli.IdOnlyExtractsAll | data/fs/skills/messager/telegram/extract_update.py:50-52 | with neither a chat id nor a message id, every update passing the id filter is extracted |
| TgCli.ExtractExitStatus | data/fs/skills/messager/telegram/extract_update.py:75 | the exit status is 0 exactly when something was extracted |
| LineEdit.Normalize | fs_base/.kapybara/edit.py:31-32 | normalised text holds no CR |
| LineEdit.DetectLfIffNoCr | fs_base/.kapybara/edit.py:35-40 | LF is the detected style exactly when the file holds no CR |
| LineEdit.NormalizeKeepsPlain | fs_base/.kapybara/edit.py:31-32 | text without CR is left as it is |
| LineEdit.NormalizeIdempotent | fs_base/.kapybara/edit.py:31-32 | normalising twice is normalising once |
| LineEdit.CrlfCollapse | fs_base/.kapybara/edit.py:31-32 | collapsing the CRLF pairs of CRLF-restyled text gives the LF text back |
| LineEdit.NormalizeRestyled | fs_base/.kapybara/edit.py:31-32 | a file written in any newline style reads back, normalised, as the LF text that was written |
| LineEdit.CrlfRestyledContains | fs_base/.kapybara/edit.py:35-40 | a CRLF-restyled text holds a CRLF as soon as it had an LF |
| LineEdit.RestyledDetected | fs_base/.kapybara/edit.py:35-40 | a restyled text with a newline is detected in the style it was written in |
| LineEdit.ToLines | fs_base/.kapybara/edit.py:76-97 | no line holds an LF, and the text has a trailing newline exactly when it ends with LF |
| LineEdit.SplitTrailing | fs_base/.kapybara/edit.py:80-83 | a text ending with LF splits with an empty last piece |
| LineEdit.TerminatedLines | fs_base/.kapybara/edit.py:80-83 | the lines of a text ending with LF are the pieces of the text before that LF |
| LineEdit.ToLinesRender | fs_base/.kapybara/edit.py:76-83 | cutting a text into lines and joining them again gives the text back |
| LineEdit.ToLinesWellFormed | fs_base/.kapybara/edit.py:76-83 | every text cuts into well-formed lines |
| LineEdit.RenderToLines | fs_base/.kapybara/edit.py:76-83 | well-formed lines, joined and cut again, are the same lines |
| LineEdit.Splice | fs_base/.kapybara/edit.py:99-138 | a line number below 1 or past the end is a ValueError; old lines not found there are a mismatch; otherwise the lines before and after the slice keep their places around the new lines, and the trailing newline follows the file, or, when the edit reaches the end, the new content, or, when nothing is inserted, whether lines precede the edit |
| LineEdit.SplicePreservesWellFormed | fs_base/.kapybara/edit.py:123-138 | the edited lines are well formed, so the result reads back as the same lines |
| LineEdit.DeleteAllLeavesEmpty | fs_base/.kapybara/edit.py:126-132 | deleting every line of a file leaves an empty file without a newline |
| LineEdit.EmptyOldInserts | fs_base/.kapybara/edit.py:105-124 | empty old content inserts the new lines before the given line |
| LineEdit.ApplyEdit | fs_base/.kapybara/edit.py:57-65 | a line number below 1 is a ValueError before the file is read, and an unreadable file is an OSError |
| LineEdit.ToLinesNoCr | fs_base/.kapybara/edit.py:76-83 | a line cut from text without CR holds no CR |
| LineEdit.EditReadsBack | fs_base/.kapybara/edit.py:57-141 | what the edit writes, normalised and cut into lines, is the spliced file, and every newline in it is in the file's detected style |
| LineEdit.WrittenReadsBack | fs_base/.kapybara/edit.py:136-140 | well-formed lines without CR, written in a style, read back as themselves |
| LineEdit.SpliceNoCr | fs_base/.kapybara/edit.py:124 | an edit of lines without CR has no CR in its lines |
| LineEdit.EditKeepsStyle | fs_base/.kapybara/edit.py:65-140 | a written file with a newline is detected in the same style as the original |
| LineEdit.OccurrencesSound | data/fs/skills/meta/edit_file/edit.py:64-72 | every index the search reports is an occurrence at or after the start |
| LineEdit.OccurrencesAscending | data/fs/skills/meta/edit_file/edit.py:64-72 | the search reports indices in strictly ascending order |
| LineEdit.OccurrencesComplete | data/fs/skills/meta/edit_file/edit.py:64-72 | the search misses no occurrence, overlapping ones included |
| LineEdit.FindOccurrences | data/fs/skills/meta/edit_file/edit.py:64-72 | the `find` loop lists exactly the occurrences, in order |
| LineEdit.NewlineCountConcat | data/fs/skills/meta/edit_file/edit.py:83 | counting LFs adds up over a concatenation |
| LineEdit.UniqueStartLine | data/fs/skills/meta/edit_file/edit.py:60-84 | empty old content is a ValueError; a missing or repeated occurrence is a mismatch; a single occurrence gives 1 plus the LFs before it |
| LineEdit.ApplySkillEdit | data/fs/skills/meta/edit_file/edit.py:87-108 | an unreadable file is an OSError; with the line omitted, empty old content is a ValueError |
| LineEdit.VariantsAgree | data/fs/skills/meta/edit_file/edit.py:87-175 | given a line number and a readable file, the skill edits exactly as the base script does |
| LineEdit.VariantsCheckInOtherOrder | fs_base/.kapybara/edit.py:61-64 | a bad line number on an unreadable file is a ValueError in the base script and an OSError in the skill, which reads the file first |
| LineEdit.SplitLine | data/fs/skills/meta/edit_file/edit.py:83 | the line holding a position is the piece of the split numbered by the LFs before it |
| LineEdit.MidLineSliceMismatch | data/fs/skills/meta/edit_file/edit.py:83-148 | an occurrence that begins inside a line gives a line number whose slice check fails |
| LineEdit.MidLineMatchFails | data/fs/skills/meta/edit_file/edit.py:107-148 | with the line omitted, old content found once but in the middle of a line is reported as a mismatch |
| LineEdit.ExitCode | data/fs/skills/meta/edit_file/edit.py:217-231 | the exit status is 0 exactly on success and 3 exactly on a mismatch, and 2 for every other error |
| LineEdit.SkillMain | data/fs/skills/meta/edit_file/edit.py:210-231 | a usage error or an unreadable file exits with 2 |
| LineEdit.RestyleLine | fs_base/.kapybara/edit.py:140 | restyling passes a line through and rewrites the LF after it |
| LineEdit.EditOfStyled | fs_base/.kapybara/edit.py:57-141 | editing a file written in a style splices its lines and writes them back in the same style |
| LineEdit.ReplacesMiddleLine | fs_base/.kapybara/edit.py:57-141 | replacing the middle line of a three-line file changes that line only |
| LineEdit.KeepsCrlf | fs_base/.kapybara/edit.py:65-140 | a CRLF file keeps its CRLF newlines and its trailing newline |
| LineEdit.MismatchExitsThree | fs_base/.kapybara/edit.py:112-121 | old content that is not at the given line exits with 3 |
| LineEdit.InsertsAtTop | fs_base/.kapybara/edit.py:105-124 | empty old content at line 1 inserts before the first line |
| LineEdit.FillsEmptyFile | fs_base/.kapybara/edit.py:76-78 | an empty file takes the new content as it is |
| LineEdit.LocatesUniqueMatch | data/fs/skills/meta/edit_file/edit.py:107-108 | with the line omitted, a line found exactly once is located and edited |
| LineEdit.AmbiguousMatchExitsThree | data/fs/skills/meta/edit_file/edit.py:76-79 | with the line omitted, old content that occurs twice exits with 3 |
| LineEdit.OmittedLineNeedsOldContent | data/fs/skills/meta/edit_file/edit.py:61-62 | with the line omitted, empty old content exits with 2 |
| TextTool.SplitOnce | core/src/k/agent/text_tool_agent.py:168-169 | `split(sep, 1)` fails exactly when `sep` is absent; otherwise the text is the part before, `sep` and the part after, cut at the first occurrence |
| TextTool.CallFields | core/src/k/agent/text_tool_agent.py:172-184 | a missing `tool_name` or a non-string one is a retry; falsy `arguments` become an empty object and `arguments` that are not an object are a retry; a call carries the object's `tool_name` |
| TextTool.FromDecoded | core/src/k/agent/text_tool_agent.py:121-135 | undecodable JSON and a decoded value that is not an object are each a retry |
| TextTool.TextBegin | core/src/k/agent/text_tool_agent.py:168 | the text argument begins just past the first start marker |
| TextTool.MarkedReply | core/src/k/agent/text_tool_agent.py:168-184 | with a start marker present, the marker parse never reports a missing marker, and a call's arguments are an object |
| TextTool.MarkedPieces | core/src/k/agent/text_tool_agent.py:168-169 | the JSON head is what precedes the first start marker, and the text argument runs to the first end marker after it |
| TextTool.SplitPieces | core/src/k/agent/text_tool_agent.py:168-169 | cutting at the first `left` and then at the first `right` after it is cutting at the positions `find` reports |
| TextTool.MarkedReplyFailures | core/src/k/agent/text_tool_agent.py:168-184 | with both markers present, the parse raises ValueError exactly when no end marker follows the first start marker, and any retry comes from the JSON head |
| TextTool.MarkedReplyCall | core/src/k/agent/text_tool_agent.py:168-184 | a marker call takes its tool name and other arguments from the JSON head and its `text` argument, overriding any in the head, from the stripped text between the markers |
| TextTool.FindSplit | core/src/k/agent/text_tool_agent.py:168 | `split` cuts at the occurrence `find` reports |
| TextTool.BareReply | core/src/k/agent/text_tool_agent.py:186-208 | the bare format gives a call or a retry, never a ValueError |
| TextTool.BareReplyText | core/src/k/agent/text_tool_agent.py:186-208 | a bare call's `text` argument is the decoded object's `arguments.text`, if any |
| TextTool.CallArgumentsKey | core/src/k/agent/text_tool_agent.py:178-183 | every argument of a call is the argument of the object's `arguments`, and falsy arguments give none |
| TextTool.Parse | core/src/k/agent/text_tool_agent.py:100-208 | an end marker without a start marker, or a start marker without an end marker, is a retry; a ValueError comes exactly when no end marker follows the first start marker; without markers a call's `text` is the leading object's `arguments.text` |
| TextTool.ParseStripped | core/src/k/agent/text_tool_agent.py:148-208 | on stripped text, the same marker checks come first and the bare object follows |
| TextTool.MarkerFormatRoundTrip | core/src/k/agent/text_tool_agent.py:100-184 | a call written as a JSON head, the markers and a text parses back to that call, with the stripped text as its `text` argument |
| TextTool.MarkedRoundTrip | core/src/k/agent/text_tool_agent.py:168-184 | the same round trip for the marker parse of an already stripped message |
| TextTool.MarkersLocated | core/src/k/agent/text_tool_agent.py:168-169 | in a message built from a head, a start marker, a text and an end marker, the markers are found where they were put |
| TextTool.ParseSelfStripped | core/src/k/agent/text_tool_agent.py:148 | a trimmed head followed by both markers is parsed in the marker format as it stands |
| TextTool.MarkedReplyAt | core/src/k/agent/text_tool_agent.py:168-184 | the marker parse once the first start marker, and the first end marker after it, are located |
| TextTool.StartFound | core/src/k/agent/text_tool_agent.py:168 | the start marker is found right after the head that holds none |
| TextTool.EndFound | core/src/k/agent/text_tool_agent.py:169 | the end marker is found right after the text that holds none |
| TextTool.FindFrom | core/src/k/agent/text_tool_agent.py:169 | the first occurrence of a pattern from a position is where it occurs when nothing before it holds or straddles one |
| TextTool.TrimmedConcat | core/src/k/agent/text_tool_agent.py:148 | a trimmed head followed by text that ends in a non-space strips to itself |
| ShellTools.AppendSystemMsg | core/src/k/agent/core/shell_tools.py:51-54 | after a non-empty message the extra text follows on a line of its own; with no message, or an empty one, the result is the extra text alone |
| ShellTools.AppendSystemMsgLines | core/src/k/agent/core/shell_tools.py:51-54 | for a one-line extra text, appending keeps the message's lines and adds exactly one last line |
| ShellTools.ValidateTimeout | core/src/k/agent/core/shell_tools.py:57-62 | an absent or positive timeout passes through unchanged, and any other is a ValueError |
| ShellTools.SessionDesc | core/src/k/agent/core/shell_tools.py:176 | a command of at most 30 characters describes itself; a longer one is cut to 30 characters and marked with "..." |
| ShellTools.TooLongNote | core/src/k/agent/core/shell_tools.py:137-140 | the withheld-output note comes last, after any existing message |
| ShellTools.NewEvent | core/src/k/agent/core/shell_tools.py:117-149 | the event keeps the session, exit code and sessions; output is withheld, with a note added, exactly when it is longer than the limit in both characters and tokens, so what is kept is within the limit in one of the two |
| ShellTools.TooLongJoinAgrees | core/src/k/agent/core/shell_tools.py:138-140 | the note joins on `is None` rather than on emptiness, so it agrees with `_append_system_msg` on every message but the empty one |
| ShellTools.StuckCheck | core/src/k/agent/core/shell_tools.py:178-188 | the stripped command is always recorded; a command equal to the last recorded one draws a warning, the stern one once the counter has reached its limit, and bumps the counter |
| ShellTools.RepeatedWarns | core/src/k/agent/core/shell_tools.py:180-188 | issuing one command over and over, every call after the first warns, the counter grows by one per warning, and the stern warning comes once the counter reaches the limit |
| ShellTools.Countdown | core/src/k/agent/core/shell_tools.py:77-105 | each wrapped call steps the counter down to no lower than zero, and an event gets the progress reminder exactly when the counter stood at one |
| ShellTools.CountdownRun | core/src/k/agent/core/shell_tools.py:77-105 | a run of wrapped calls answers once per call |
| ShellTools.CountdownRunRemindsOnce | core/src/k/agent/core/shell_tools.py:77-105 | from a counter `c`, a run of `n` calls leaves `max(c - n, 0)`, and the reminder comes once, on the call that brings the counter to zero |
| ShellTools.Wrap | core/src/k/agent/core/shell_tools.py:87-91 | an error the tool raises passes through the countdown and leaves the counter alone |
| ShellTools.Launch | core/src/k/agent/core/shell_tools.py:172-177 | a new session runs the launcher command for the text and is described by its first 30 characters |
| ShellTools.BashImpl | core/src/k/agent/core/shell_tools.py:152-194 | a non-positive timeout is a ValueError; otherwise the stripped command is recorded, the counter is untouched, and the event carries a system message exactly when the command repeats or its output was withheld |
| ShellTools.Bash | core/src/k/agent/core/shell_tools.py:196-207 | `bash` answers an event, records the command and steps the counter once |
| ShellTools.Resume | core/src/k/agent/core/shell_tools.py:210-259 | `bash_input` and `bash_wait` reject a non-positive timeout, answer the unknown-session message exactly when the session is unknown, step the counter, and record no history |
| ShellTools.Interrupt | core/src/k/agent/core/shell_tools.py:262-271 | the interrupt answers "Session ended." exactly when the session was known |
| ShellTools.EditCommand | core/src/k/agent/core/shell_tools.py:285-295 | as written: the skill call starts with the edit script `python3 ~/skills/...`, and it ends with a space exactly when no start line is given |
| ShellTools.EditFile | core/src/k/agent/core/shell_tools.py:274-295 | `edit_file` always answers, and steps the counter once |
| ShellTools.EditFileIsBash | core/src/k/agent/core/shell_tools.py:274-295 | `edit_file` is `bash` on the quoted skill call without a timeout, with the counter stepped once and not twice |
| ShellTools.StuckThenReminderExample | core/src/k/agent/core/shell_tools.py:77-194 | a repeated command at the stuck limit with the counter at one gets the stern warning and then the progress reminder on its own line |
| ShellQuote.SingleQuote | core/src/k/runner_helpers/basic_os.py:60-61 | the quoted word starts and ends with a quote |
| ShellQuote.EscapeHead | core/src/k/runner_helpers/basic_os.py:56-57 | escaping works character by character: a quote is expanded and anything else kept |
| ShellQuote.EscapeNoQuote | core/src/k/runner_helpers/basic_os.py:56-57 | text without quotes is its own escape |
| ShellQuote.EscapeConcat | core/src/k/runner_helpers/basic_os.py:56-57 | escaping a concatenation escapes each part |
| ShellQuote.EscapeLength | core/src/k/runner_helpers/basic_os.py:56-57 | the escape has one character per unquoted character and four per quote |
| ShellQuote.EscapeReadsBack | core/src/k/runner_helpers/basic_os.py:56-57 | inside a quoted run, escaped text reads back as the original, and the shell carries on after it |
| ShellQuote.SingleQuoteRoundTrip | core/src/k/runner_helpers/basic_os.py:56-61 | the shell reads the single-quoted word as exactly the original text |
| ShellQuote.SingleQuoteInjective | core/src/k/runner_helpers/basic_os.py:60-61 | different texts are quoted differently |
| ShellQuote.CommandBase | core/src/k/runner_helpers/basic_os.py:70-81 | without both an SSH user and address the prefix is the local `script` one; otherwise it is an `ssh` line ending with `user@addr ` |
| ShellQuote.EnvText | core/src/k/runner_helpers/basic_os.py:96-99 | the environment part is empty exactly when there are no variables |
| ShellQuote.PayloadIsEscapedScript | core/src/k/runner_helpers/basic_os.py:91-102 | the payload is the escape of the whole script, because the bootstrap holds no quote |
| ShellQuote.Command | core/src/k/runner_helpers/basic_os.py:83-106 | a local command is the `script` prefix, the payload and `/dev/null`; a remote one ends with the payload's closing quote |
| ShellQuote.CommandRoundTrip | core/src/k/runner_helpers/basic_os.py:83-106 | the launcher hands the shell one quoted word that reads back as exactly the bootstrap, the variable assignments and the command |
| ShellTools.EditCommandFor | core/src/k/agent/core/shell_tools.py:292-295 | the skill call is the script followed by the quoted arguments, and it ends with a space exactly when no start line is given |
| ShellTools.AsWrittenEditCommandLacksConfigBase | core/src/k/agent/core/shell_tools.py:293 | for arguments without `$`, such as `x.txt`, the command as written never contains the `${K_CONFIG_BASE:-~/.kapybara}/skills/meta/edit-file/edit` path the tests expect |
| ShellTools.EditCommandIntended | core/tests/test_bash_tool_countdown.py:136 | the skill call the tests expect names the script under the configuration base, contains that path, and passes exactly the arguments of the command as written |
| ShellQuote.EscapeAddsOnlyQuotes | core/src/k/runner_helpers/basic_os.py:56-57 | escaping adds no character other than those of the quote expansion, so a character outside it is in the escape only when it is in the text |
| Compactor.LooksLikeBase64 | core/src/k/agent/memory/compactor.py:51-69 | a data URL with `;base64,` is a payload and a plain web URL is not; otherwise a value is a payload exactly when it is at least 128 characters of the base64 class, holds no whitespace and its length is not 1 modulo 4 |
| Compactor.Base64CharsAreNotSpace | core/src/k/agent/memory/compactor.py:63-66 | no character of the base64 class is whitespace, so the whitespace test never rejects what the class test accepts |
| Compactor.SextetChar | core/src/k/agent/memory/compactor.py:48 | every six-bit group maps to a character of the class, standard or URL-safe, that is not padding |
| Compactor.BlockChars | core/src/k/agent/memory/compactor.py:48 | the characters of a 24-bit block all belong to the class |
| Compactor.Encode | core/src/k/agent/memory/compactor.py:68-69 | a base64 encoding, in either alphabet, padded or not, has the encoder's length and only characters of the class |
| Compactor.EncodedLenNotOneModFour | core/src/k/agent/memory/compactor.py:68-69 | no encoder produces a length of 1 modulo 4, and 96 bytes or more encode to at least 128 characters |
| Compactor.EncodedPayloadDetected | core/src/k/agent/memory/compactor.py:51-69 | any encoding of at least 96 bytes, standard or URL-safe, padded or not, is detected as a payload |
| Compactor.DetectionExamples | core/src/k/agent/memory/compactor.py:60-69 | two hundred `a`s are taken for a payload and a short word is not |
| Compactor.MappingUrlOrBinary | core/src/k/agent/memory/compactor.py:72-92 | a part is never both a URL and binary; it is binary exactly when its `kind` is `binary`, and it has a URL exactly when its `kind` is a URL kind and its `url` is a non-empty string, which is then the URL |
| Media.KindFromMediaType | core/src/k/agent/core/media_tools.py:35-45 | after lower-casing, an `image/`, `audio/` or `video/` type gives that kind, a PDF or `text/` type gives a document, each exactly when its test holds |
| Media.PrefixesExclusive | core/src/k/agent/core/media_tools.py:37-44 | the four prefix tests exclude each other, so their order does not matter |
| Media.KindIgnoresCase | core/src/k/agent/core/media_tools.py:36 | a media type gives the same kind in upper case, in lower case and as written |
| Media.InferUrlKind | core/src/k/agent/core/media_tools.py:79-93 | the kind of the type guessed from the URL's path wins when it has one; otherwise the kind of the sniffed type; otherwise a document |
| Media.ReadOne | core/src/k/agent/core/media_tools.py:109-145 | a blank or kind-prefixed spec is a ModelRetry; an HTTP URL becomes a URL part of the inferred kind with the stripped URL; anything else is read as a file, and a failed read is a ModelRetry; every failure is a ModelRetry |
| Media.ReadMedia | core/src/k/agent/core/media_tools.py:96-147 | `read_media` fails only with ModelRetry, and a success has one part per spec |
| Media.ReadMediaItems | core/src/k/agent/core/media_tools.py:109-147 | the call succeeds exactly when every spec does, and then each part is that spec's part, in order |
| Media.BadSpecFailsAll | core/src/k/agent/core/media_tools.py:110-119 | one blank or kind-prefixed spec anywhere in the list fails the whole call |
| Media.RejectedSpecExamples | core/src/k/agent/core/media_tools.py:110-119 | `audio:https://example.com/stream` and a blank spec are rejected with ModelRetry |
| Media.PartsAsMappings | core/src/k/agent/core/media_tools.py:123-132 | a URL part, seen as a mapping by the compactor, keeps its URL, and a binary part is recognised as binary |

## Left out

- Concurrency, subprocesses and the network are not modelled: the shell process pumps, the async task groups of the polling and AMQP loops, `run_agent_for_chat_batch`, the Bot API client, the queue client and URL sniffing. Only the pure state updates inside those loops are modelled.
- The LLM wiring is not modelled (`agent.run`, compaction runs, `print_detailed`, the prompts), because it is calls into pydantic_ai.
- Floats are not modelled. The JSON type has no floats, so the naive-datetime branch of the millisecond conversion and `_format_unix_seconds` are out.
- The AMQP date parsing and its `now()` fallback are not modelled; the timestamp is a parameter.
- Files are not modelled: atomic temp-file writes, glob and rglob, mtime and size cache keys, the JSON encoder and decoder, the regex engine, Unicode `casefold` and token counting. Each is a parameter of the member that uses it.
- Exception messages are not modelled; only the exception class is kept.
- Log lines and printed diagnostics are not modelled, including the trigger reasons and the dispatch summaries.
- Ids are not modelled consistently with the source. `folder.py` and `store.py` coerce ids to UUIDs while record ids are eight-character strings; the model keeps ids as strings and leaves the UUID parser a parameter of `MemoryStore.CoerceId`.
- The SSH settings of the launcher are an abstract configuration record, because the configuration class does not define them.
- `cap_dispatch_groups_per_chat`, the root preference fallback, `preferences_system_prompt` and the multi-route memory search appear in the repository's tests, but their code is not part of this model.
- Json.Get: on a duplicated key the FIRST field wins, while `json.loads` keeps the last (`{"update_id":1,"update_id":2}` reads 2 in Python). Decoded objects are taken to have distinct keys.
- Json.GetInt: a boolean is not an int here, although Python's `isinstance(True, int)` holds. The same holds for TgUpdates.NestedInt, TgUpdates.UpdateId and TgUpdates.ChatId, so an update whose `update_id` or chat id is `true` is treated as having none. TgHistory.ValidCursor, Json.EqInt (used by the TgCli filters) and TgLegacy.RawInt do accept booleans, as the source does.
- PyStr.IsDigit: only ASCII digits count. `\d` and `int()` in `tz.py` also accept other Unicode decimal digits, so Tz.ParseTimezone rejects offsets such as "+٠٨" that the source accepts.
- TgHistory.LoadCursorState: a float `version` such as `1.0`, which Python accepts because `1.0 == 1`, cannot be written in the model's JSON.
- TgCli.OrZero: a truthy `date` or `message_id` that is not an int (a non-empty string, list or object) counts as 0, because the sort key is compared as a pair of ints. In the source such a value stays in the key as it is. When every such `date` is a string, the source orders those messages by the strings, lexicographically; the model ties them at 0 and orders them by `message_id`, then by dump order. The same holds for a string `message_id` among equal dates. When a string key meets an int key, the source's sort raises TypeError; the model never fails there.
- FolderLayout.LoadRecords: every failure to read a record file is a ValueError. In the source only a missing file becomes ValueError; any other OSError propagates as it is.
- Neighborhood.LinkIds: a link value that is not a list counts as no links. In the source a string is iterated character by character, an object by its keys, and an int raises TypeError.
- AgentPrompt.PersonaOverride: a PERSONA file that is not valid UTF-8 gives no override. In the source the UnicodeDecodeError is not an OSError and propagates.
- AgentPrompt.LoadPreferences: a preference file that is not valid UTF-8 is skipped. In the source the UnicodeDecodeError propagates.
- Migration.SidecarInput: the sidecar's lines are a parameter, so a sidecar that is not valid UTF-8 reads as unavailable. In the source the UnicodeDecodeError propagates out of the migration of that file.
- TgUpdates.CompactUpdate: the per-key compactors are a parameter. The legacy monolith's message and chat compactors are modelled in TgLegacy, but the photo-size, document, location, callback-query, chat-member and join-request compactors stay inside that parameter.
- Migration.ParseTelegramUpdates: `splitlines` is a parameter, so "all-blank text gives no updates" is not stated; the whole-text fallback is.
- Migration.Tally: whether a rewrite succeeds is a parameter (`writable`); the atomic temp-file write itself is not modelled.
- TgRunner.TriggerRound: loading recent history is a parameter (`recent`). None stands for the overlay being off or the load failing. The cursor save after a dispatch is file I/O and is not modelled.
- ShellTools.EditCommand follows the code, not the tests; see Findings.

## Findings

| source | as written | input that shows it | evidently intended | confidence | as-written member | corrected member |
|---|---|---|---|---|---|---|
| core/src/k/starters/telegram/runner.py:599-604 | with recent history loaded, the overlay runs on `grouped`, every triggered chat, instead of the watchlisted `dispatch_groups`; the AMQP round repeats it at collections/src/kapy_collections/starters/telegram_mq/runner.py:429-434, and TgMq.MqRound follows it | `chat_ids = {1}`, a trigger in chat 1, a pending update in chat 2, `dispatch_recent_per_chat > 0` and a store that loads, even empty: chat 2 is dispatched | the watchlist is "an exclusive filter for dispatching" (runner.py:567-568), so only chat 1 is dispatched | not executed | TgRunner.AsWrittenRoundDispatchesUnwatchedChat | TgRunner.TriggerRoundIntended |
| core/src/k/starters/telegram/runner.py:599-604 | the dispatch selection overlays the triggered groups, not the watchlisted ones | the same watchlist and groups, with recent history loaded: the selection holds chat 2 | the selection holds exactly the watched chats that triggered | not executed | TgRunner.AsWrittenDispatchesUnwatchedChat | TgRunner.SelectDispatch |
| core/src/k/agent/core/shell_tools.py:293 | `edit_file` runs `python3 ~/skills/meta/edit-file/edit.py ...` | `edit_file("x.txt", "old\n", "new\n")`: the command lacks `${K_CONFIG_BASE:-~/.kapybara}/skills/meta/edit-file/edit`, which core/tests/test_bash_tool_countdown.py:136 asserts | the skill is named under the configuration base | not executed | ShellTools.AsWrittenEditCommandLacksConfigBase | ShellTools.EditCommandIntended |
