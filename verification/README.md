# Verified models of the Onisin services

Dafny models of the parts of the Onisin repository whose correctness is hardest to see from the code, with
proofs. Verify everything with `dafny verify dfyconfig.toml`.

**oosmem, the event store** (`Format`, `Layout`, `Codec`, `EventLog`, `EventGraph`, `Recovery`, `StoreRuns`,
`StoreSafety`, `StoreHeaders`, `StoreStranding`, `StoreGuards`, `StoreFaults`, `Store`). `Format` defines the
record layout as functions, `Layout` says octet by octet where every field lies, `Codec` fills and reads buffers
as the program does and is proved equal to it. `EventLog` is the re-decoding of a file, `EventGraph` the four
maps as functions of a log, `Recovery` what repair leaves. `StoreRuns` is a state machine over two files and a
header: open, append, snapshot, death of the process anywhere inside them, and power loss at any moment; its
history keeps every append as its caller sent it, and what is recovered is compared with that. A death leaves
what was written; a power loss may bring back anything a file passed through since it was last synced.
`StoreSafety` proves what holds after every run: recovery, unless an index entry is torn or a power loss took a
record that the index kept an entry for. `StoreStranding` shows the second of these happening, `StoreGuards`
tells from the files alone whether a store opens, and `StoreFaults` covers a process that goes on after failed
writes. `Store` holds the classes: a disk that records every state a death could leave, and the store whose
methods refine the machine.

**oosmem, the queries** (`Sorting`, `MemServer`, `MemSearch`, `Episodes`): paging, exact top-k search and
episode aggregation. Scores are 32-bit patterns in the total order of `f32::total_cmp`; cosine and float
addition are parameters.

**oosmlx, generation** (`Utf8`, `Scalars`, `Streaming`, `ToolSpans`, `DecodeLoop`, `Engine`, `EngineAnswers`). A
KV cache is abstracted to the sequence of (model, token) slots it has consumed, a forward pass to appending to
it, decoding to the lossy UTF-8 reading of the concatenated token bytes. The lookahead loop, chunked prefill,
prefix reuse and incremental streaming are each proved equal to the simple form, and `EngineAnswers` says what
an answer holds in terms of the tokens picked.

**oosrun profiles** (`Profiles`, `ProfileOrder`): the include walk, on graphs with cycles, the order it collects
in, and first-name deduplication.

**oosiam and the desktop client** (`Pkce`, `AuthCodes`, `PercentEncoding`, `Redirect`, `Loopback`): the
authorization-code protocol over whole runs, and the redirect from the server's encoder through the browser and
one bounded read of its request to the client's parser.

**Pipeline validator** (`Pipeline`) and **oosgql data layer** (`Sql`, `DataCompiler`, `DataOrdering`,
`DataMutation`): the validator against an independent definition of every diagnostic, and the request compiler
against what a request asks for, stated from the request alone.

## What does not hold as one might expect

- `StoreSafety.ReopenAfterAnyRun`: recovery after a crash has two gaps. A 28-byte index entry torn by a crash is
  reported and never repaired (store.rs:123-125). And a process killed between writing a record and syncing it
  (store.rs:320-321) leaves a record that the next open indexes, syncing only the index (389-390; events.bin is
  synced at 247, when something is cut off). If the power fails before the next append, the index is ahead of
  events.bin and no open succeeds any more (218-219), although every acknowledged event is still there:
  `StoreStranding.StrandingRun`. `StoreGuards.TornRun` is a run into the first gap.
- `StoreGuards.GuardsDecide`: the checks at store.rs:122 and 218 do not tell every store that opens from one that
  does not. When a process dies between cutting off a torn record and syncing that (246-247), the cut can be
  undone by a power loss after a later record was written in its place and indexed; both checks then pass and
  loading fails: `LostCutRun`. `OpensIffDescribed` is the exact condition.
- `StoreFaults.ReopenAfterFaults`: the server answers an I/O error and keeps the store (server.rs:149-153).
  Acknowledged events keep their ids and places. But `events_bytes` has advanced when an index entry fails: two
  such failures make a reopen find two events with one id, and an answer after one leaves a gap in the index
  (`FaultyRun`). A record whose sync fails stays in the file: it comes back as an event, and so does what a
  shorter record leaves of it when a record happens to begin there (`RemainsComeBackIff`, `RemainsRun`).
- `Engine.Flush`: a reasoning text that is a proper beginning of the name line (`tho`) is never streamed, not
  even at the end, although the answer holds it (engine.rs:649-651).
- `Engine.PanicExactly`: the subtraction at engine.rs:324 underflows exactly when the prefix an earlier request
  left is extended by a later prompt and reaches beyond the reuse boundary of that prompt; `PanicRun` is
  such a pair of requests. It takes a model family whose reusable part of one prompt may end inside the
  non-reusable end of a later one. Only gemma4 has a non-reusable end at all (gemma4.rs:1096-1106; the
  speculative pair delegates to it), and its prompts end in the opener of the model turn, the whole thought
  prefill, or a tool response marker (gemma4.rs:1077-1092), so no family in the repository leaves a prefix
  that ends inside the prefill: the panic is latent in the `Model` interface. With overflow checks off the
  subtraction wraps, and the chunk loop then runs off the end of the prompt and panics there, unless a
  forward pass fails first; the model describes the checked build.
- `DataOrdering.AnsweredAsAskedIff`: result columns are selected as `(c)::text AS c`, and a bare name in ORDER
  BY refers to the output column, so a selected integer field is ordered as text. `AgesComeBackAsText` is
  such a request. Requests that order by unselected fields or by text are answered as asked. The theorem takes a
  server that shows different values of one type differently; `SomeLegible` gives one.
- `Loopback.RecoversIff`: a redirect URI that itself has a query or a fragment loses code and state, and so does
  a request whose target is not covered by the one read of at most 4096 octets (commands.rs:332-339):
  `ArrivesExactly` is the exact condition, `OverlongStateIsLost` a whole family of inputs.
- `Format.DecodeEncodedIsIdentity`: an event closed at the epoch, or with a time outside the 64-bit
  nanosecond range, does not come back unchanged; `LiveGraphEqualsReloaded` carries the same condition.
- `Format.ReencodeIffTextValid`: the comment in format.rs:454-456 says the lossy decoder never triggers on a
  well-formed store; a record whose text is not UTF-8 is accepted and would re-encode differently.
- `Episodes.IsEpisode`: the comment in store.rs:48-50 says the server names streams when a write supplies a
  name; nothing does, so the name in an episode is always empty.
- `Pipeline.Needs`: a step and a source may share a name; the validator then takes the source.

## Model

| member | source | states |
|---|---|---|
| Utf8.LossyIdentityIffValid | services/oosmem/src/format.rs:457-459 | the lossy text decoder changes nothing exactly when the bytes are UTF-8 |
| Utf8.LossyIsValid | services/oosmem/src/format.rs:457-459 | whatever the bytes, the decoded text is UTF-8 |
| Scalars.ValidExactly | services/oosmem/src/format.rs:457-459 | the byte strings taken for UTF-8 are exactly the encodings of sequences of Unicode scalar values |
| Scalars.IllFormedIsMaximal | services/oosmem/src/format.rs:457-459 | one replacement character stands for as many octets as could begin a character, and at least one |
| LittleEndian.RoundTrip64 | services/oosmem/src/format.rs:226-236 | a 64-bit word written in little-endian order is read back |
| Format.RecordSizeBound | services/oosmem/src/format.rs:304-311 | an encodable record has between 49 and 1,572,889 bytes, so the u32 length cast is exact |
| Codec.EncodeEvent | services/oosmem/src/format.rs:313-370 | fills a buffer piece by piece and returns exactly the specified encoding, or the first field that does not fit, in the order the checks are made; the closing length check never fires |
| Codec.FillRecord | services/oosmem/src/format.rs:330-364 | the buffer filled with a moving offset ends exactly full and holds the specified bytes |
| Codec.EncodeRefs | services/oosmem/src/format.rs:348-354 | appends the refs at the offset and leaves what is before it |
| Codec.EncodeVector | services/oosmem/src/format.rs:361-364 | appends the vector words at the offset and leaves what is before it |
| Codec.DecodeEventAt | services/oosmem/src/format.rs:375-452 | decodes any byte string without reading outside it, with the error cases in order |
| Codec.DecodeFields | services/oosmem/src/format.rs:384-431 | the offset-driven reads give exactly the fields the layout defines |
| Codec.DecodeRefs | services/oosmem/src/format.rs:408-417 | the ref loop reads the refs the layout defines |
| Codec.DecodeVector | services/oosmem/src/format.rs:426-430 | the vector loop reads the words the layout defines |
| Format.DecodeEncoded | services/oosmem/src/format.rs:313-452 | self-delimiting: whatever follows an encoding, decoding returns the event as the format stores it and the exact record length |
| Format.DecodeEncodedIsIdentity | services/oosmem/src/format.rs:202-222 | the event comes back unchanged if and only if its times survive the nanosecond and NULL encoding and its offset is 0 |
| Format.ProperPrefixRejected | services/oosmem/src/format.rs:375-382 | no proper prefix of an encoding decodes |
| Format.ReencodeIffTextValid | services/oosmem/src/format.rs:313-459 | canonical: an accepted record re-encodes to exactly the bytes consumed if and only if its text fields are UTF-8 |
| Format.DecodeExtends | services/oosmem/src/format.rs:372-382 | bytes behind a decodable record do not change its decoding |
| Format.DecodeIdxBytes | services/oosmem/src/format.rs:280-299 | an index entry reads back as written, up to time normalisation |
| Format.DecodeMetaBytes | services/oosmem/src/format.rs:240-276 | a header reads back as written up to time normalisation; wrong magic and future versions are refused, in that order |
| Layout.EventLaidOut | services/oosmem/src/format.rs:330-364 | octet by octet: where every field, ref, text and vector word of an encoded event lies, least significant octet first, times in two's complement |
| Layout.DecodedLaid | services/oosmem/src/format.rs:384-452 | every field of any accepted record is read from that place, texts lossily, zero as no closing time |
| Layout.DecodedExactly | services/oosmem/src/format.rs:375-406 | a byte string is accepted if and only if the record is all there and its length is that of its parts; the error for each other case |
| Layout.RefusedExactly | services/oosmem/src/format.rs:314-329 | an event is refused exactly for its first field of more than 65,535 items, or else for a vector of the wrong dimension |
| Layout.EntryLaidOut | services/oosmem/src/format.rs:280-287 | the places of the four fields of an index entry |
| Layout.MetaLaidOut | services/oosmem/src/format.rs:240-252 | the places of the fields of meta.bin; the last 16 octets are zero |
| Layout.MetaDecoded | services/oosmem/src/format.rs:254-276 | any octets are accepted as a header exactly with the magic number and a version of at most 2, and are read in place; the error for each other case |
| EventLog.ScanTiles | services/oosmem/src/store.rs:225-253 | the entries found by re-decoding tile the bytes read from start to end, no gap, no overlap |
| EventLog.ScanIsLongest | services/oosmem/src/store.rs:225-253 | re-decoding never loses a complete record: any fully decodable head is kept, and it stops only where nothing decodes |
| EventLog.ScanConcat | services/oosmem/src/store.rs:225-253 | re-decoding continues behind a fully decoded stretch as if started there |
| EventLog.ScanCut | services/oosmem/src/store.rs:242-250 | cutting off undecodable bytes does not change what is found |
| EventLog.IdxFileAt | services/oosmem/src/store.rs:367-371 | slot i of the index file holds entry i |
| EventGraph.ByIdMeaning | services/oosmem/src/store.rs:180-205 | an event is found under its id and nothing under any other |
| EventGraph.ByStreamMeaning | services/oosmem/src/store.rs:185 | the list of a stream is the ids of its events in log order |
| EventGraph.IdsOfMeaning | services/oosmem/src/store.rs:270-273 | those ids are strictly ascending and exactly the ids of events of that stream |
| EventGraph.StreamsMeaning | services/oosmem/src/store.rs:186-196 | a stream record lists the same ids and opens at the earliest creation time of its events |
| EventGraph.InverseRefsMeaning | services/oosmem/src/store.rs:198-203 | inverse refs are the exact converse of the forward refs, with multiplicity |
| EventGraph.LiveEqualsReloaded | services/oosmem/src/store.rs:152-205 | the graph of a log equals the graph of its stored form if and only if all times survive the format |
| Recovery.ScanEntry | services/oosmem/src/store.rs:159-163 | an entry found by repair locates its event: reading just that range decodes to it |
| Recovery.ScanResumes | services/oosmem/src/store.rs:211-254 | repair may start behind any entry and finds exactly the rest |
| Recovery.LoadScan | services/oosmem/src/store.rs:152-176 | loading through the first k entries yields the first k events |
| Recovery.RepairConsistent | services/oosmem/src/store.rs:211-254 | on a consistent disk repair succeeds, keeps every decodable record and completes the index |
| Recovery.RepairedIsClean | services/oosmem/src/store.rs:211-254 | after repair the index tiles events.bin from 0 to its end and loading yields the whole log |
| StoreSafety.OpenConsistent | services/oosmem/src/store.rs:98-142 | opening a consistent aligned disk yields the whole log and clean files |
| StoreSafety.OpenMisaligned | services/oosmem/src/store.rs:121-125 | a torn index entry makes open fail with the file size reported and leaves every file as it is |
| StoreSafety.OpenedGood | services/oosmem/src/store.rs:98-142 | what an open leaves, the contents the disk may fall back to included, is good again: every file content a power loss may bring back holds a part of the current log and of its index |
| StoreSafety.OpenLeavesGood | services/oosmem/src/store.rs:211-254 | a death anywhere inside open, with records of events.bin that no sync covers yet, leaves a disk with the same log |
| StoreSafety.RepairRestartable | services/oosmem/src/store.rs:211-254 | dying inside open and opening again ends with the same files and log as one undisturbed open |
| StoreSafety.AppendGood | services/oosmem/src/store.rs:305-343 | a completed append extends the log on disk by exactly its event, under the next id |
| StoreRuns.StoredIsSent | services/oosmem/src/store.rs:305-315 | the event an append stores is the one handed in, but for its id, a missing creation time, its place, and the hints of refs whose target the log holds |
| StoreSafety.StoredCompletes | services/oosmem/src/store.rs:305-315 | on a good store that is the next id, and the hint of a ref is the place of its target exactly when its id is at most the number of events |
| StoreSafety.AppendLeavesGood | services/oosmem/src/store.rs:318-332 | a death inside an append leaves the old log or the old log plus exactly that event, and what was acknowledged is safe from a power loss |
| StoreSafety.SnapshotGood | services/oosmem/src/store.rs:348-354 | a snapshot changes only the header and keeps the disk and session good |
| StoreSafety.PowerLossKeeps | services/oosmem/src/store.rs:318-332 | a power loss that leaves no indexed record behind keeps every acknowledged event, at most forgetting events never acknowledged |
| StoreSafety.SyncedIsSafe | services/oosmem/src/store.rs:320-321 | while events.bin is synced no power loss takes a record that the index has an entry for |
| StoreSafety.StepKeepsInv | services/oosmem/src/store.rs:98-354 | every step of the machine (open, append, snapshot, death of the process anywhere in these, power loss at any moment) keeps the invariant |
| StoreSafety.RunKeepsInv | services/oosmem/src/store.rs:98-354 | the invariant holds after every run |
| StoreSafety.StrandedExactly | services/oosmem/src/store.rs:211-254 | a store has entries for records that events.bin lost exactly when a power loss of the run did that; no later step heals it |
| StoreSafety.ReopenAfterAnyRun | services/oosmem/src/store.rs:98-142 | after any run of opens, appends, snapshots, deaths and power losses, open succeeds iff no index entry is torn and no power loss took a record that the index kept an entry for; it then holds every acknowledged event under its id as the format stores it, ids 1..n, and at most one unacknowledged event per death inside an append |
| StoreSafety.NeverLostWithoutCutAppend | services/oosmem/src/store.rs:318-332 | that power loss takes a process that died inside an append before |
| StoreSafety.AcknowledgedUnchanged | services/oosmem/src/format.rs:202-222 | an acknowledged event comes back as its caller sent it, up to id, missing creation time, place and hints, and is unchanged by storing if and only if its times survive the format |
| StoreSafety.ExactlyAcknowledged | services/oosmem/src/store.rs:305-343 | after a run without a death inside an append a reopened store holds exactly the acknowledged events |
| StoreSafety.LiveGraphEqualsReloaded | services/oosmem/src/store.rs:152-205 | in any run the live maps equal the maps a reopen rebuilds if and only if all times survive the format |
| StoreHeaders.FreshHeaderIs | services/oosmem/src/store.rs:104-116 | a directory without a store gets a header of version 2 with the dimension and time given and all counts zero |
| StoreHeaders.StoredDimensionWins | services/oosmem/src/store.rs:101-103 | an existing header is kept, whatever dimension is asked for |
| StoreHeaders.CountedIn | services/oosmem/src/store.rs:387-397 | indexing records adds their number to the event count, modulo 2^64, and keeps the highest id |
| StoreHeaders.AppendCounts | services/oosmem/src/store.rs:334-337 | an append counts one event more and keeps the highest id |
| StoreHeaders.SnapshotCounts | services/oosmem/src/store.rs:348-354 | a snapshot writes how many events the log has and how many different streams, and the time, and nothing else |
| StoreStranding.StrandingSteps | services/oosmem/src/store.rs:211-254 | from any running store: killed between write and sync of a record, reopened, power lost. The index is aligned, events.bin is what it was, and every open reports an index ahead of it |
| StoreStranding.StrandingRun | services/oosmem/src/store.rs:318-332 | a whole run from an empty directory that ends so with an acknowledged event in events.bin |
| StoreGuards.OpensIffDescribed | services/oosmem/src/store.rs:98-142 | told from the files alone, after any run: open succeeds iff no index entry is torn and the index is an initial part of the one that re-decoding events.bin from the start gives |
| StoreGuards.LostIsAhead | services/oosmem/src/store.rs:218-220 | a beginning of events.bin that lost an indexed record ends before the index does |
| StoreGuards.GuardsDecide | services/oosmem/src/store.rs:121-125 | unless a process died while cutting bytes off events.bin, a store opens iff its two guards pass: index size a multiple of an entry, index not ahead of events.bin (218-220) |
| StoreGuards.LostCutRun | services/oosmem/src/store.rs:242-250 | a run with such a death after which both guards pass and open fails on a record that does not decode |
| StoreGuards.TornRun | services/oosmem/src/store.rs:121-125 | a run that ends with a torn index entry, reported by every open |
| StoreFaults.FailedEntryKeeps | services/oosmem/src/store.rs:318-331 | after a failed index entry everything in memory stays readable through the index, and the record stands behind it under the next id |
| StoreFaults.WrittenEntryKeeps | services/oosmem/src/store.rs:318-342 | an append that succeeds after failures stays readable and leaves the index with a gap exactly if records stood behind it |
| StoreFaults.FailedRecordKeeps | services/oosmem/src/store.rs:318-321 | after a failed record nothing counted has changed |
| StoreFaults.TornIsCut | services/oosmem/src/store.rs:242-250 | the bytes of a failed record that is not wholly in the file are cut off |
| StoreFaults.WholeComesBack | services/oosmem/src/store.rs:225-241 | a failed record wholly in the file comes back as its event, under the id its caller did not get |
| StoreFaults.RemainsComeBackIff | services/oosmem/src/store.rs:225-241 | what a shorter record leaves of it comes back as events iff a record begins there |
| StoreFaults.TornEntryIsReported | services/oosmem/src/store.rs:121-125 | a part of a failed index entry at the end of events.idx makes open fail and leave the files alone |
| StoreFaults.WholeEntryIsAnswered | services/oosmem/src/store.rs:324-332 | a failed index entry wholly in the file leaves the files of an answered append |
| StoreFaults.ReopenAfterFaults | services/oosmem/src/server.rs:149-153 | a process that answers failed writes and syncs and goes on, then a reopen: open succeeds with every acknowledged event in its place, then the events whose entries failed since the last answer, then what decodes of the bytes failed records left (the rest is cut off, all of it iff no record begins there); if nothing of these comes back ids are 1..n iff at most one entry failed since; the index tiles events.bin iff no answer followed a failed entry |
| StoreFaults.AnsweredIsHeld | services/oosmem/src/server.rs:149-153 | whatever fails before and later, an answered append is held under the id it was answered with as its caller sent it, and a reopen finds it there |
| StoreFaults.RemainsRun | services/oosmem/src/server.rs:149-153 | two requests on a fresh store, one answered, after which a reopen finds two events |
| StoreFaults.FaultyRun | services/oosmem/src/server.rs:149-153 | three requests on a fresh store after which a reopen finds two events with one id, and then an index with a gap |
| Store.Store.Absorb | services/oosmem/src/store.rs:180-205 | updating the four maps in place keeps them equal to the graph of the log |
| Store.Store.JoinStream | services/oosmem/src/store.rs:186-196 | the stream of the event gets its id, and opens no later than the event |
| Store.Store.PointBack | services/oosmem/src/store.rs:198-203 | the inverse-ref loop adds exactly the refs of one event |
| Store.Store.FillHints | services/oosmem/src/store.rs:311-315 | every ref whose target is known gets the offset of its target, others keep theirs |
| Store.Store.Persist | services/oosmem/src/store.rs:319-332 | record, sync, entry, sync; every disk state a death may leave in between, synced or not, is one the protocol allows |
| Store.Store.AppendEvent | services/oosmem/src/store.rs:305-343 | moves disk and session as the append specification says, stores the event handed in, completed but otherwise unchanged, and may leave only what a death in it may |
| Store.Store.AppendIdxRecord | services/oosmem/src/store.rs:387-397 | appends one entry and counts it into the header |
| Store.Store.RepairIdx | services/oosmem/src/store.rs:211-254 | refines the repair specification on any disk, synced or not, with all a death may leave; terminates on every file |
| Store.Store.RepairTail | services/oosmem/src/store.rs:225-253 | the decode loop indexes what decodes, syncing the index only, and cuts off the rest |
| Store.Store.CutEvents | services/oosmem/src/store.rs:245-248 | truncates to the last clean boundary |
| Store.Store.ReadAllIdxRecords | services/oosmem/src/store.rs:373-385 | returns the entries of the index file in order |
| Store.Store.ReadEvent | services/oosmem/src/store.rs:160-162 | decodes the range an entry names and sets the offset |
| Store.Store.AbsorbIndexed | services/oosmem/src/store.rs:156-170 | absorbs the indexed events in order and takes the next id from the highest entry |
| Store.Store.OpenOrCreate | services/oosmem/src/store.rs:98-142 | refines the open specification on any disk, with all a death may leave; a stored dimension wins |
| Store.Store.Snapshot | services/oosmem/src/store.rs:348-354 | rewrites the header atomically with current counts |
| MemServer.StreamEvents | services/oosmem/src/server.rs:170-193 | returns exactly the specified page: newest first, below the bound, up to the limit |
| MemServer.PageIsNewest | services/oosmem/src/server.rs:174-191 | a page holds ids of the stream below the bound, newest first, and each such id left out is older than all of a full page |
| MemServer.NextPage | services/oosmem/src/server.rs:177-191 | the page before the j-th id continues the first listing, whatever was appended since |
| MemServer.PagingEnumerates | services/oosmem/src/server.rs:170-193 | paging enumerates, strictly descending and exactly once, the ids present at the first page, with appends interleaved |
| MemServer.PagingEnds | services/oosmem/src/server.rs:170-193 | behind the last id every later page is empty |
| MemSearch.SearchIsTopK | services/oosmem/src/store.rs:287-298 | min(k, candidates) distinct hits, best first, with their own scores, and no omitted candidate strictly better |
| MemSearch.AnswerSearch | services/oosmem/src/server.rs:197-214 | a search request is answered with the best hits and their events: 10 by default, at most 256, of the stream asked for or of all streams for 0 |
| MemSearch.EligibleIsCandidate | services/oosmem/src/store.rs:289-293 | what a search can find: events of the stream, or of any stream for 0, whose vector is not all zeros |
| MemSearch.ScoreOrder | services/oosmem/src/store.rs:295 | scores compare as f32::total_cmp does: by sign and then by bits, which negative floats reverse |
| MemSearch.RankedAll | services/oosmem/src/store.rs:288-295 | before truncation every candidate appears once, best first |
| Sorting.SortSorts | services/oosmem/src/store.rs:295 | sorting by a total preorder puts the list in order |
| Sorting.SortKeeps | services/oosmem/src/store.rs:295 | sorting permutes |
| Episodes.Aggregate | services/oosmem/src/server.rs:240-254 | each stream with a hit gets one account, with its hit count and folded score, in first-seen order |
| Episodes.ScoresMean | services/oosmem/src/server.rs:240-254 | the scores of an account are those of the hits in its stream, in the order of the hits |
| Episodes.TotalAdds | services/oosmem/src/server.rs:244-250 | its score starts with the first of them and adds one after the other |
| Episodes.EpisodeLookup | services/oosmem/src/server.rs:218-279 | with 5 episodes by default and at most 20, of six times as many hits and at most 256: accounts partition the hits, and the episodes are filled from the best accounts, best first, every one left out being behind every one returned |
| Episodes.RankedAreBest | services/oosmem/src/server.rs:255-256 | sorting and truncating keeps min(k, accounts) distinct accounts in order, and each omitted one is outranked by all kept: by score, ties by first appearance |
| Episodes.BucketsMean | services/oosmem/src/server.rs:264-275 | trace 1 goes to space, 2 to time, 3 to action, every other to untracked |
| Episodes.FillBuckets | services/oosmem/src/server.rs:264-275 | the events of a stream go to the buckets of their perspectives, ids ascending |
| Episodes.BucketsPartition | services/oosmem/src/server.rs:364-381 | the four buckets together hold every event of the stream exactly as often as the stream does |
| Episodes.TracedMembers | services/oosmem/src/server.rs:373-378 | an event is in a bucket exactly when its trace says so |
| Episodes.TracedAscends | services/oosmem/src/server.rs:369-371 | each bucket is in ascending id order |
| Streaming.StreamDelta | services/oosmlx/src/engine.rs:634-667 | one delta: keeps the channel state; afterwards nothing is sent of a text that is a proper beginning of the name line, and of any other text everything up to a remainder that ends in U+FFFD |
| Streaming.SentIsPrefix | services/oosmlx/src/engine.rs:624-667 | what was sent is always a prefix of the final text, less its name line |
| Streaming.StreamedGrows | services/oosmlx/src/engine.rs:624-632 | later tokens never invalidate what was sent |
| Streaming.NotReplaced | services/oosmlx/src/engine.rs:658-664 | a delta that starts on a character and does not end in U+FFFD leaves nothing unfinished |
| ToolSpans.StripToolSpans | services/oosmlx/src/engine.rs:584-601 | keeps exactly the tokens outside call blocks |
| ToolSpans.SplitChannels | services/oosmlx/src/engine.rs:606-622 | splits along the channel markers |
| ToolSpans.SplitAccounts | services/oosmlx/src/engine.rs:606-622 | every token other than the markers is in exactly one channel, with multiplicity |
| ToolSpans.AccountCall | services/oosmlx/src/engine.rs:413-426 | a token of a call extends the blocks and not the text |
| ToolSpans.AccountText | services/oosmlx/src/engine.rs:399-402 | as long as no call was issued every other token is text |
| ToolSpans.TextBeforeCalls | services/oosmlx/src/engine.rs:395-402 | the kept text is what precedes the first open marker; everything later belongs to call blocks |
| ToolSpans.SplitMeans | services/oosmlx/src/engine.rs:606-622 | a token is reasoning exactly when it is no channel marker and an open marker before it has no close marker in between; content and reasoning keep their order |
| ToolSpans.InsideMeans | services/oosmlx/src/engine.rs:584-601 | the end is inside a call exactly when an open marker has no close marker behind it |
| ToolSpans.BlocksUnique | services/oosmlx/src/engine.rs:413-426 | tokens can be read as call blocks in one way only |
| DecodeLoop.PipelinedDecode | services/oosmlx/src/engine.rs:378-458 | the lookahead loop yields the completion of the one-token-at-a-time loop; its spans and views are those of the two-pass split, and what it streamed is faithful |
| DecodeLoop.OneByOneIsTranscript | services/oosmlx/src/engine.rs:382-409 | the reference yields a completion within the budget that is shorter only when a pick halts |
| DecodeLoop.TranscriptUnique | services/oosmlx/src/engine.rs:382-409 | there is only one such completion |
| DecodeLoop.RouteCall | services/oosmlx/src/engine.rs:413-426 | call tokens extend the captured spans as the markers say |
| DecodeLoop.RouteText | services/oosmlx/src/engine.rs:428-456 | other tokens extend the view of their channel, and the delta of that channel is sent |
| DecodeLoop.Emit | services/oosmlx/src/engine.rs:432-453 | a delta of one channel leaves the other channel alone |
| DecodeLoop.KvCache.Forward | services/oosmlx/src/models/mod.rs:38-44 | a successful forward pass appends its tokens to what the cache has consumed |
| DecodeLoop.KvCache.Snapshot | services/oosmlx/src/models/mod.rs:220-232 | a snapshot has consumed the same tokens and is independent of the original |
| Engine.MlxEngine.Resume | services/oosmlx/src/engine.rs:285-301 | takes the kept cache exactly when the prompt strictly extends its prefix; the cache has consumed the reused part |
| Engine.MlxEngine.PrefillChunks | services/oosmlx/src/engine.rs:319-329 | the chunk loop advances through the prompt and leaves at most one chunk before the boundary |
| Engine.MlxEngine.Freeze | services/oosmlx/src/engine.rs:351-356 | the kept cache covers exactly its own prompt and is a separate object |
| Engine.MlxEngine.Prefill | services/oosmlx/src/engine.rs:285-377 | on success the cache has consumed exactly the prompt, as after a full prefill, and the kept prefix is the reusable part; otherwise it panics exactly when the reused prefix passes the boundary |
| Engine.MlxEngine.Generate | services/oosmlx/src/engine.rs:273-577 | one request on the resident model behaves as specified |
| Engine.MlxEngine.RunGeneration | services/oosmlx/src/engine.rs:193-578 | load or swap, then generate; a kept prefix never crosses models |
| Engine.Flush | services/oosmlx/src/engine.rs:477-491 | after the flush each channel has sent all but a remainder ending in U+FFFD; a reasoning text that is a proper beginning of the name line has not been sent at all |
| Engine.Conclude | services/oosmlx/src/engine.rs:493-577 | complete spans become calls, the text is split from the rest, and the answer is the function of the completion that EngineAnswers.AnswerMeans describes |
| Engine.FinishIsJustified | services/oosmlx/src/engine.rs:557-568 | stop means a stop token was picked next, length that the budget was used up without a complete call, tool_calls that a call completed |
| Engine.AnswersIgnoreHistory | services/oosmlx/src/engine.rs:193-578 | over every sequence of requests and model swaps, a completed request is answered and streamed as a fresh engine would, for any chunk size, boundary and reuse |
| EngineAnswers.CompletedAnswer | services/oosmlx/src/engine.rs:477-577 | over every run: the text of an answer is the decoding of the content tokens in front of the first open marker, its reasoning is that of the reasoning tokens less the name line, trimmed, and none when empty, its calls are the complete call blocks, and what was streamed is the text of the answer |
| EngineAnswers.AnswerMeans | services/oosmlx/src/engine.rs:493-577 | the same for the answer of any completion |
| EngineAnswers.CompletionMeans | services/oosmlx/src/engine.rs:382-409 | every token of a completion is the pick after what precedes it, none is a stop token or follows closed calls without opening one, and it is shorter than the budget only when the next pick would be |
| EngineAnswers.BadCallIsThere | services/oosmlx/src/engine.rs:499-518 | a request fails with a bad call only when one of the complete calls of its completion does not parse |
| EngineAnswers.AcceleratedAnswer | services/oosmlx/src/engine.rs:250-271 | what the accelerated path returns is answered as text and reasoning, without calls |
| EngineAnswers.LoadFailsExactly | services/oosmlx/src/engine.rs:193-215 | loading fails exactly for a model that is not in the catalogue, unless an earlier panic makes the engine refuse |
| EngineAnswers.KeptMeans | services/oosmlx/src/engine.rs:231-239 | what a request leaves for the next is its prompt without the non-reusable suffix, once the cache has come that far |
| Engine.PrefixHeld | services/oosmlx/src/engine.rs:285-301 | in every run the prefix held for a model is the reusable part of the prompt of the last request that left one, provided every request since asked for that model and did not touch the prefix |
| Engine.PanicExactly | services/oosmlx/src/engine.rs:324 | in every run a request panics if and only if none did before, its model can be loaded, and its prompt extends the prefix an earlier request left for that model, which reaches beyond its own reuse boundary; after a panic every request is refused |
| Engine.PanicExample | services/oosmlx/src/engine.rs:324 | a concrete pair of requests, the second of which panics in every run that serves just these two from a fresh engine and completes the first |
| Engine.PanicRun | services/oosmlx/src/engine.rs:324 | such a run exists |
| Engine.WholePromptNeverPanics | services/oosmlx/src/engine.rs:231-239 | requests whose whole prompt is reusable never panic |
| Profiles.Resolver.Resolve | tools/oosrun/src/config.rs:87-124 | terminates on every include graph; on success it has finished exactly the new profiles of its walk, includes first, collecting their procs; an error names a reachable unreadable profile |
| Profiles.Resolver.ResolveIncludes | tools/oosrun/src/config.rs:103-113 | after the loop every include has been visited |
| Profiles.Resolver.PushProcs | tools/oosrun/src/config.rs:115-122 | appends the procs of the profile in order |
| Profiles.PostorderNext | tools/oosrun/src/config.rs:107-112 | the profiles finished by the include loop are those of the includes before, then those of the next include |
| Profiles.WholeWalk | tools/oosrun/src/config.rs:75-77 | a complete walk has finished exactly the reachable profiles; an include precedes its includer unless it leads back to it |
| Profiles.Dedup | tools/oosrun/src/config.rs:79-83 | keeps the first spec of every name |
| Profiles.FirstByNameMeaning | tools/oosrun/src/config.rs:79-83 | afterwards names are unique, none is lost, a spec is kept exactly when it is the first of its name, and the original order is kept |
| Profiles.Parse | tools/oosrun/src/config.rs:62-84 | succeeds if and only if the profile is declared and every reachable profile can be read, and then collects exactly those, each once, in depth-first postorder; an error names a problem its profile has |
| ProfileOrder.ListedOrder | tools/oosrun/src/config.rs:107-112 | an include of the profile asked for is finished before anything reached only from includes listed behind it |
| ProfileOrder.WalkFinishes | tools/oosrun/src/config.rs:87-124 | a walk finishes exactly what it sees for the first time, and only what it reaches |
| ProfileOrder.GetMeans | tools/oosrun/src/config.rs:95-103 | a field is the value of the first entry with its key |
| ProfileOrder.ProcsInOrder | tools/oosrun/src/config.rs:115-122 | the procs of one profile are its list, entry by entry |
| ProfileOrder.CollectConcat | tools/oosrun/src/config.rs:115-122 | the procs of several profiles stand one profile after the other |
| ProfileOrder.CollectOne | tools/oosrun/src/config.rs:115-122 | one profile contributes its own procs |
| Pkce.TimingSafeEq | services/oosiam/src/pkce.rs:21-30 | the fold over all octets decides equality |
| Pkce.DiffIsEquality | services/oosiam/src/pkce.rs:25-29 | the folded difference is zero if and only if the strings are equal |
| Pkce.VerifyS256 | services/oosiam/src/pkce.rs:13-17 | accepts exactly when the digest of the verifier equals the challenge (section 4.6 of RFC 7636) |
| AuthCodes.AuthServer.AuthSubmit | services/oosiam/src/server.rs:146-192 | records a code for a user who logged in and changes nothing otherwise |
| AuthCodes.AuthServer.Token | services/oosiam/src/server.rs:204-235 | removes the code before checking anything about it, then answers as specified, error cases in order |
| AuthCodes.OutstandingCodes | services/oosiam/src/server.rs:168-180 | after any run the map holds exactly the codes issued and not looked up since, as recorded |
| AuthCodes.GrantedExactly | services/oosiam/src/server.rs:204-235 | a token is granted if and only if an earlier login issued the code, nothing looked it up since, its lifetime has not passed, the verifier matches and signing works |
| AuthCodes.GrantedTokenIsTheirs | services/oosiam/src/server.rs:219-227 | the token carries the subject and client recorded with the code |
| AuthCodes.DeniedExactly | services/oosiam/src/server.rs:204-235 | when a request is denied for each reason: a field is missing, the code does not stand, its lifetime has passed, the verifier does not match, or signing fails |
| AuthCodes.LookupBurns | services/oosiam/src/server.rs:208-212 | a code that was looked up is refused until it is issued anew, whatever the first answer was |
| AuthCodes.OneTokenPerCode | services/oosiam/src/server.rs:208-212 | with fresh codes each code yields at most one token (section 4.1.2 of RFC 6749) |
| PercentEncoding.UrlEncode | services/oosiam/src/server.rs:317-326 | encodes octet by octet as specified |
| PercentEncoding.UrlDecode | apps/oos/src-tauri/src/commands.rs:384-411 | decodes as specified, a percent sign without two hexadecimal digits standing for itself |
| PercentEncoding.RoundTrip | apps/oos/src-tauri/src/commands.rs:371-420 | decoding undoes encoding, for a byte string if and only if it is UTF-8 |
| PercentEncoding.EncodedAlphabet | services/oosiam/src/server.rs:317-326 | an encoded value holds unreserved characters and percent signs only |
| PercentEncoding.EncodingTable | services/oosiam/src/server.rs:317-326 | letters, digits and -_.~ stay, any other octet becomes a percent sign and its two upper-case digits |
| PercentEncoding.EncodedConcat | services/oosiam/src/server.rs:317-326 | a text is encoded octet by octet |
| PercentEncoding.HeadMeans | apps/oos/src-tauri/src/commands.rs:384-411 | a percent sign with the digits of an octet, in either case, stands for it, a plus sign for a space, anything else for itself |
| Redirect.RedirectUrl | services/oosiam/src/server.rs:182-186 | the Location is the redirect URI, the code and, unless empty, the state |
| Redirect.UrlMeans | services/oosiam/src/server.rs:182-186 | in front of the encoded code stands ?code=, in front of an encoded state that is not empty &state= |
| Redirect.Delimiters | apps/oos/src-tauri/src/commands.rs:287-293 | the delimiters and keys both sides use are ? & = # and code, state |
| Redirect.SplitMeans | apps/oos/src-tauri/src/commands.rs:287-291 | splitting is undone by joining, and no part holds the delimiter |
| Redirect.QueryDecides | apps/oos/src-tauri/src/commands.rs:287-288 | the query is what stands between the first question mark and the next |
| Redirect.LastDecides | apps/oos/src-tauri/src/commands.rs:288-296 | the last pair of a key decides, whatever stands around it |
| Redirect.NoneDecides | apps/oos/src-tauri/src/commands.rs:288-296 | nothing is read exactly when no pair has the key |
| Redirect.ReadTarget | apps/oos/src-tauri/src/commands.rs:286-296 | the splitting loop finds the last code and state of the query |
| Redirect.ReadBack | apps/oos/src-tauri/src/commands.rs:286-296 | splitting a whole target yields exactly the code and the non-empty state the server printed, for any redirect URI without query and fragment |
| Redirect.NothingArrives | apps/oos/src-tauri/src/commands.rs:287 | if the redirect URI itself has a query or a fragment, what the client reads does not depend on code and state |
| PercentEncoding.CutIsNoticed | apps/oos/src-tauri/src/commands.rs:384-411 | a text without percent signs and replacement characters is never read back from a cut encoding of it |
| Loopback.TargetReads | apps/oos/src-tauri/src/commands.rs:329-340 | what is seen of the target is exactly the part the read covers behind the method |
| Loopback.WaitForCode | apps/oos/src-tauri/src/commands.rs:278-325 | the first callback request decides, others are turned away |
| Loopback.VerdictMeans | apps/oos/src-tauri/src/commands.rs:297-315 | a login succeeds exactly with a code and the expected state, a state mismatch needs both, and a missing one is reported |
| Loopback.LineMeans | apps/oos/src-tauri/src/commands.rs:334-338 | the request line ends at the line feed, less a carriage return in front of it |
| Loopback.WordMeans | apps/oos/src-tauri/src/commands.rs:334-340 | the target is the second word of the line |
| Loopback.FitsArrives | apps/oos/src-tauri/src/commands.rs:286-340 | code and state arrive whenever the redirect URI has neither query nor fragment and the read of the request covers the target |
| Loopback.ArrivesExactly | apps/oos/src-tauri/src/commands.rs:286-340 | for code and state without percent signs and replacement characters, if and only if the read covers the target |
| Loopback.OverlongStateIsLost | apps/oos/src-tauri/src/commands.rs:332-333 | a state of 4096 octets or more never arrives |
| Loopback.CutByChance | apps/oos/src-tauri/src/commands.rs:384-411 | a concrete state, a percent sign, that survives a cut of its encoding; why the exact condition excepts it |
| Loopback.RecoversIff | apps/oos/src-tauri/src/commands.rs:286-340 | everything that fits the read arrives if and only if the redirect URI has neither query nor fragment, or is so long that no code fits |
| Loopback.LoginEnds | apps/oos/src-tauri/src/commands.rs:297-315 | a login whose redirect fits the read ends with the code exactly when the expected state came back; an empty state is reported as a missing code |
| Pipeline.ValidatePipeline | packages/oos-pipeline-ts/src/validator.ts:22-184 | pushes exactly the specified diagnostics in order, and none if and only if the pipeline is well formed |
| Pipeline.CheckStep | packages/oos-pipeline-ts/src/validator.ts:51-161 | the diagnostics of one step |
| Pipeline.CheckInput | packages/oos-pipeline-ts/src/validator.ts:136-159 | the diagnostics of a step input |
| Pipeline.CheckDuplicates | packages/oos-pipeline-ts/src/validator.ts:163-181 | one diagnostic for every name seen before |
| Pipeline.NoDiagnosticsIffWellFormed | packages/oos-pipeline-ts/src/validator.ts:22-184 | sound and complete against an independent definition of well-formedness |
| Pipeline.DiagnosticsExactly | packages/oos-pipeline-ts/src/validator.ts:22-184 | each problem is reported exactly where it is: which definitions, steps, inputs and names get which diagnostic |
| Pipeline.StepReported | packages/oos-pipeline-ts/src/validator.ts:51-161 | a step is told exactly what is wrong with it, in terms of declared sources and the names of earlier and other steps |
| Pipeline.RepeatsCounted | packages/oos-pipeline-ts/src/validator.ts:163-181 | a name is reported once for every time it comes up again |
| Pipeline.FinishedExactly | packages/oos-pipeline-ts/src/validator.ts:65-83 | running in list order gets through if and only if every need is met by an earlier step |
| Pipeline.WellFormedRuns | packages/oos-pipeline-ts/src/validator.ts:16-21 | a well-formed pipeline runs to its end in list order |
| Pipeline.Acyclic | packages/oos-pipeline-ts/src/validator.ts:16-21 | following what steps draw on never leads back |
| DataCompiler.BuildSelect | services/oosgql/src/data.rs:146-201 | accepts exactly the legal requests, compiles them as specified, and gives others the first error in the order columns, conditions, order, limit |
| DataCompiler.ColumnNames | services/oosgql/src/data.rs:298-310 | the requested columns, all declared, or every declared one; else the first that is not declared |
| DataCompiler.CompileWhere | services/oosgql/src/data.rs:152-175 | one condition and one bind per request condition, placeholders in step; else the error of the first bad condition |
| DataCompiler.CompileOrder | services/oosgql/src/data.rs:177-191 | one key per order term; else the error of the first bad term |
| DataCompiler.PlaceholdersMatchBinds | services/oosgql/src/data.rs:152-175 | placeholders are exactly 1 to n, in order, with n binds |
| DataCompiler.SelectedFieldsAreColumns | services/oosgql/src/data.rs:312-321 | every selected column is read back under its name and declared type, also where declared names repeat |
| DataCompiler.ReadBackAs | services/oosgql/src/data.rs:313-321 | a named column has the type of the first field of that name; with all columns each has its own |
| DataCompiler.SamePassing | services/oosgql/src/data.rs:152-175 | the compiled WHERE keeps exactly the rows that satisfy all conditions, NULLs included |
| DataCompiler.CompiledMeansAsked | services/oosgql/src/data.rs:146-201 | for requests safe to order, the compiled statement may answer a result exactly when the request asks for it: the requested or all columns of the rows of the domain's table that satisfy the conditions, descending by a term exactly for desc and DESC, cut at the limit |
| DataCompiler.AskedMeans | services/oosgql/src/data.rs:146-201 | what is asked, stated from the request alone, is what the compiled statement means when ORDER BY refers to the columns of the table |
| DataCompiler.LegalIffAnswerable | services/oosgql/src/data.rs:152-199 | exactly the requests over declared fields, filterable ones or id, with operators that fit the type, a known direction and a limit that is not negative are accepted |
| DataCompiler.CondErrorMeans | services/oosgql/src/data.rs:152-163 | which complaint a condition gets |
| DataCompiler.TermErrorMeans | services/oosgql/src/data.rs:177-188 | which complaint an order term gets |
| DataCompiler.BoundTexts | services/oosgql/src/data.rs:367-380 | null is bound as NULL, anything else as its text, between percent signs for contains |
| DataCompiler.ReadIsOfType | services/oosgql/src/data.rs:350-359 | a bound value is read as a value of the type of its field |
| DataCompiler.TextIsSafe | services/oosgql/src/data.rs:148 | ordering by a text field is always as asked |
| DataOrdering.OrdersAsAskedIff | services/oosgql/src/data.rs:148-190 | rows are ordered as asked if and only if no order field is both selected and of a type whose text sorts differently from its values |
| DataOrdering.AnsweredAsAskedIff | services/oosgql/src/data.rs:146-201 | on a server that shows different values of one type differently, a request with a limit other than 0 is answered as asked over every table if and only if no two rows it asks for are told apart by text order and value order |
| DataOrdering.SomeLegible | services/oosgql/src/data.rs:146-148 | there is such a server, one that sorts the text 10 before 9 |
| DataOrdering.SafeTellsNoneApart | services/oosgql/src/data.rs:146-201 | safe order fields tell no rows apart, and without conditions only they do |
| DataOrdering.IntIsUnsafe | services/oosgql/src/data.rs:148 | the text of integers sorts differently from the integers |
| DataOrdering.AgesComeBackAsText | services/oosgql/src/data.rs:148-190 | a concrete request, ages 9 and 10 in ascending order, that is answered 10 before 9 |
| Sql.ConjunctionIsAll | services/oosgql/src/data.rs:174 | under three-valued logic a row passes AND exactly when every conjunct is true |
| Sql.KeyOrder | services/oosgql/src/data.rs:177-190 | DESC is the reverse of ASC, which puts values in their order and NULLs last |
| Sql.Projected | services/oosgql/src/data.rs:146-148 | every result row has the columns asked for, in their order, as text |
| DataMutation.SettableAssignments | services/oosgql/src/data.rs:267-288 | columns, placeholders and binds in step for exactly the chosen fields |
| DataMutation.ChosenExactly | services/oosgql/src/data.rs:276-286 | the chosen fields are the declared, not read-only, non-id fields the request names |
| DataMutation.BuildMutate | services/oosgql/src/data.rs:203-262 | compiles the change as specified, with its error cases in order |
| DataMutation.IsActionAllowed | services/oosgql/src/data.rs:382-389 | the first permission entry of the role decides; without one nothing is allowed |
| DataMutation.Mutate | services/oosgql/src/data.rs:119-135 | refuses an unknown operation, a blank role and a role without the permission, in that order, and compiles otherwise; a delete takes the delete permission, an insert and an update the write permission |
| DataMutation.WhiteTable | services/oosgql/src/data.rs:127 | a role is blank when all of it is white space as Unicode has it |
| DataMutation.CompiledExactly | services/oosgql/src/data.rs:203-262 | when a change compiles, and that it is the insert, update or delete asked for, to the table of the domain |
| DataMutation.AssignsExactly | services/oosgql/src/data.rs:267-288 | exactly the fields given that are declared and neither id nor read-only are assigned |
| DataMutation.IdIsOfType | services/oosgql/src/data.rs:361-363 | the id is read as the type of the declared field id, or as an integer |
| DataMutation.LastBindIsId | services/oosgql/src/data.rs:230-250 | an update has placeholders 1 to n, the id last, and n binds |
| DataMutation.UpdateMeans | services/oosgql/src/data.rs:230-250 | an update writes the readable request values to settable fields of the rows with that id and changes nothing else |
| DataMutation.UpdateTakenIff | services/oosgql/src/data.rs:230-250 | with distinct field names it is taken if and only if the id and all values can be read as their types |
| DataMutation.InsertTakenIff | services/oosgql/src/data.rs:217-229 | with distinct field names it is taken if and only if all values can be read as their types |
| DataMutation.InsertMeans | services/oosgql/src/data.rs:217-229 | an insert appends one row, the request values over the defaults |
| DataMutation.DeleteMeans | services/oosgql/src/data.rs:251-259 | a delete removes exactly the rows with that id |

## Left out

- Store.Store.AppendEvent: an I/O error other than a full file is modelled as the death of the process; StoreFaults covers a process that goes on.
- StoreFaults.ReopenAfterFaults: one process, without a death or power loss in the middle of a request; index entries that fail leave no bytes, apart from TornEntryIsReported and WholeEntryIsAnswered, so entries of which two failures wrote parts are not modelled.
- Store.Disk: a write reaches the disk as a prefix of itself, and after a power loss a file holds what it held at some moment since its last sync; reordering of bytes within one write and failing syncs are not modelled.
- StoreSafety.ReopenAfterAnyRun: recovery is not claimed after a torn index entry or after a power loss that took an indexed record, where the program does not recover.
- StoreSafety.SnapshotGood: the write, sync and rename of meta.bin is one atomic and durable step, as is creating the files.
- Recovery.RepairFrom: offset plus length of a corrupt index entry is added without wrap-around.
- Format.Event: times are integers of nanoseconds; leap seconds and sub-nanosecond digits of chrono are not represented, and vectors are u32 bit patterns.
- Store.Store.Session: the load report and its counters are not modelled.
- MemServer.StreamEvents: the conversion of events to JSON, and request decoding.
- MemSearch.SearchIsTopK: the cosine itself, and how query vectors are built.
- Episodes.EpisodeLookup: float addition of scores is a parameter.
- DecodeLoop.KvCache: slots, masks, rotation and copy-on-write of the real cache; the model assumes that a forward pass depends only on the tokens consumed.
- DecodeLoop.PipelinedDecode: token ids are natural numbers, without the casts between i32 and u32; picks are a function of what was consumed, so sampling at a temperature is covered for a fixed random source only.
- Streaming.StreamDelta: a special token decodes to no bytes; tokenizers whose text is not the lossy reading of concatenated bytes are not covered, and decode errors are left out.
- Engine.Conclude: names, arguments and ids of the parsed calls; the answer holds the token spans they are parsed from.
- Engine.MlxEngine.RunGeneration: the accelerated greedy path returns an arbitrary completion and does not fail; detokenizer errors are not outcomes; loading is a lookup in a catalogue and tokenizing is part of the request. An empty prompt is excluded.
- Engine.MlxEngine.PrefillChunks: the chunk size (2048 unless set) shows in no outcome, so nothing but the bound on what the loop leaves depends on it.
- Profiles.Parse: which of several problems is reported first; reading the YAML text, and the body of parse_proc, which is a function parameter; load's refusal of an empty result.
- Pkce.VerifyS256: SHA-256 and base64url are a function parameter.
- AuthCodes.AuthServer.Token: RSA signing is a flag, iat and exp of the token are not modelled; password checking is a parameter; expired codes are never purged, as in the program.
- AuthCodes.AuthServer.AuthSubmit: the login page, and the panic of the response builder on a redirect URI that is no header value.
- Loopback.WaitForCode: sockets, failing accepts, the reply pages, and the deadline, which is the end of the list of requests.
- Loopback.Received: the one read takes everything up to its limit; a read that returns less is a smaller limit.
- Redirect.Requested: the origin of the redirect URI, which a request does not carry, is left off.
- Pipeline.ValidatePipeline: message texts; step fields the rules do not look at.
- DataCompiler.BuildSelect: statement text; the model compiles to a syntax tree. LIKE wildcards inside a contains value keep their meaning, as in the program. Names are compared exactly: Postgres folds unquoted mixed-case names to lower case, and the program then reads such a column as NULL.
- DataOrdering.AnsweredAsAskedIff: a limit of 0, with which no row is returned whatever the order; servers whose text does not tell values of one type apart, such as one set to print floats with few digits.
- Sql.SqlValue: a double is its place in the server's order of doubles, so the text of minus zero is that of zero.
- DataCompiler.CompiledMeansAsked: Postgres' casts, rendering, collation and ILIKE are parameters; statement failures other than a rejected bind are not modelled.
- DataCompiler.SelectedFieldsAreColumns: the re-typing of text to JSON values, and option lists.
- DataMutation.UpdateMeans: constraints, triggers and defaults of the table other than a row of default values; the RETURNING row.
- NATS, HTTP, Tauri, Postgres and keychain plumbing, process spawning, ptys, chat, observation buffers, the user interface and the Langium parsers: input and output without a hidden algorithm, or sources that are not part of this model.
