# Verified models of the Omnivox tools

Omnivox is a speech server. Around it the repository keeps tools that prepare and package its inputs, watch its
protocol and measure its output. This project models the logic of those tools in Dafny and proves what they promise.

| part | files |
|---|---|
| extraction of an archive into a fresh directory, as steps on a filesystem with links | `ArchivePaths`, `Disk`, `ArchiveTree`, `ArchiveChecks`, `ArchiveWrites`, `ArchiveCopies`, `Extracted`, `Extraction`, `ExtractionOrder` |
| the byte stream behind a tree digest, and which trees it tells apart | `TreeDigest` |
| the strict and the lenient monitor of speech dispatches | `DispatchMonitor`, `DispatchHistories` |
| the monitor of one synthesis stream | `SynthesisMonitor`, `SynthesisStreams` |
| the online and the offline monitor of a cancellation | `CancelMonitor` |
| process trees and their totals | `ProcessTree`, `ProcessTotals`, `SetSums` |
| the protobuf encoder of the ONNX fixtures, with a decoder, the schema's field numbers, and what the graphs compute | `Protobuf`, `OnnxFixture`, `OnnxSchema`, `OnnxEvaluation` |
| the PE import reader, with a writer of images | `PeImports`, `PeImage` |
| the WAV writer and its two readers | `Wav`, `WavRoundTrip`, `WavSamples` |
| the linear resampler | `Resampler` |
| heading anchors of documents | `Anchors` |
| the two readers of the lock files | `Locks` |
| records cut into parts | `Multipart` |
| the shared cancellation token | `Cancellation` |
| shared pieces | `Wrappers`, `Sequences`, `Sets`, `Binary`, `Arithmetic` |

Loops of the tools are methods with loops, each proved against a specification; objects whose fields change
(`Disks.Disk`, `DispatchMonitor.Histories`, the cancellation token) are classes, and the resampler works on arrays.
The specifications are stated without the loops: a monitor accepts exactly the traces of a stated language, a tree is
the least closed set, an extraction leaves exactly the tree that its member list describes. Lemmas named `...Exact`
say the same once more on the fields of the inputs alone, without the predicates that a method shares with its
specification.

## Findings

The proofs settle some points on which the tools do less, or more, than their shape suggests.

- Extraction with links kept needs two conditions that no check states: a link's target text must be storable (not
  empty and without NUL), and a regular file may not be a proper ancestor of another member. The operating system
  refuses both (`ExtractionOrder.EmptyLink`, `ExtractionOrder.FileBelowFile`). With them the conditions are exact, and
  the containment check of `extraction_target` never fires.
- Extraction with links copied depends on the order of the members: a link to a later link is refused
  (`ExtractionOrder.CopyOrderMatters`). It also depends on the modes that the members set themselves: a file without
  the owner's read bit cannot be copied, except by a privileged process (`ExtractionOrder.UnreadableFile`). Exactly,
  every link's target must be a member file that may be read, or an earlier link, by the time it is copied
  (`ArchiveCopies.AvailableUpTo`).
- The digest stream is not injective once names or link targets hold newlines: a link's newline can move into the next
  name, and `TreeDigest.SortedCollision` gives two sorted listings with one stream. The lists with the stream of a
  given one are exactly its other cuts at such newlines (`TreeDigest.SameStreamExact`), so a sorted listing is told
  apart exactly when none of its other cuts is a sorted listing (`TreeDigest.DigestStreamExact`). Without newlines
  every list is told apart (`TreeDigest.NoNewlines`); a newline to spare does not always hurt
  (`TreeDigest.OrderIdentifies`).
- A process never descends from itself by its own presence: a root is in its tree, but the parent walk finds it only
  when it sits on a cycle (`ProcessTree.RootDescendsOnCycle`).
- `read_wav` does not skip the pad byte after an odd chunk, which `wav_duration` does. On files without odd chunks
  both see the same chunks. After an odd chunk that is not the last, `read_wav` takes the last byte of the next id and
  three bytes of its size for a size, and where less than that remains it silently drops all later chunks, audio
  included (`WavRoundTrip.OddChunkHidesAudio`). An odd data chunk is refused (`WavRoundTrip.OddDataRefused`), and an
  odd chunk of another kind at the end does no harm (`WavRoundTrip.OddLastHarmless`).
- A file within eight bytes above 4 GiB fits the writer's header and is refused by `wav_duration`
  (`WavRoundTrip.WrittenDuration`).
- When a lock entry has no `archive` member, the packager records the archive `None` and the verifier the empty name.
  They agree if and only if every entry names its archive (`Locks.ReadersAgree`).
- The offline cancellation checker accepts logs the online monitor refuses; `CancelMonitor.OnlineIsStrictOffline` says
  exactly which further conditions the online monitor asks.

## Model

| member | source | states |
|---|---|---|
| Extraction.ExtractTarArchive | tools/prepare_piper_inputs.py:119-206 | for any member list, any portable archive root and a fresh destination: success exactly on the stated list conditions, in both link modes; on success every file member holds its content and permission bits, every directory member stands, and every link member holds its own text or, copied, the content of the file its chain of targets leads to; nothing but members' paths and the directories above them, even on failure; no containment check ever rejects a member |
| Extracted.MembersStand | tools/prepare_piper_inputs.py:167-202 | links kept: every member stands at the path its name gives, as the archive holds it |
| Extracted.MembersCopied | tools/prepare_piper_inputs.py:186-199 | links copied: every link leads to a file member and holds that file's content and permission bits |
| Extraction.AcceptableExact | tools/prepare_piper_inputs.py:119-205 | the conditions of both modes, member by member: the two limits, the names, the types, the link targets, no duplicates, only directories above members, and the archive root |
| Extraction.BytesCounted | tools/prepare_piper_inputs.py:134-139 | the byte limit counts the content of files only |
| Extraction.ExtractableExact | tools/prepare_piper_inputs.py:200-202 | links kept: and every link text is not empty and holds no NUL |
| Extraction.MaterializableExact | tools/prepare_piper_inputs.py:193-199 | links copied: and every link points to a file that may be read, or to an earlier link |
| ExtractionOrder.OrderIrrelevant | tools/prepare_piper_inputs.py:144-202 | links kept: any permutation of the members has the same verdict and the same final tree |
| ExtractionOrder.CopiesAgree | tools/prepare_piper_inputs.py:193-199 | links copied: any two orders that both finish leave the same tree, provided one meets the order condition |
| ExtractionOrder.CopyOrderMatters | tools/prepare_piper_inputs.py:193-199 | links copied: a three-member list that extracts in one order and is refused in another |
| ExtractionOrder.FileBelowFile | tools/prepare_piper_inputs.py:144-184 | a file below a file passes every check and does not extract |
| ExtractionOrder.EmptyLink | tools/prepare_piper_inputs.py:106-116 | a link with an empty target passes every check and does not extract |
| ExtractionOrder.UnreadableFile | tools/prepare_piper_inputs.py:181-199 | links copied: a link to a file without the owner's read bit passes every check and extracts only for a privileged process |
| ExtractionOrder.MaterializedOnce | tools/prepare_piper_inputs.py:186-199 | an item list in a good order determines the copied tree |
| ArchiveChecks.Admit | tools/prepare_piper_inputs.py:128-140 | the counting loop lets through exactly the lists within the member and byte limits at every prefix |
| ArchiveChecks.RecordMembers | tools/prepare_piper_inputs.py:144-159 | the member loop succeeds exactly when every member is sound and no path repeats, and records all paths and link paths |
| ArchiveChecks.CheckTraversal | tools/prepare_piper_inputs.py:161-165 | true exactly when no recorded path has a link as a proper ancestor |
| ArchiveChecks.CheckMembers | tools/prepare_piper_inputs.py:141-165 | both loops together: success exactly on sound, distinct lists with nothing below a link |
| ArchiveChecks.SoundIsPlaced | tools/prepare_piper_inputs.py:145-158 | what a sound member's parsed path and link target look like: under the root and without a climb |
| ArchiveWrites.WriteMembers | tools/prepare_piper_inputs.py:167-184 | the first write phase checks every member's place, links included, and leaves exactly the directories and files of the list, or stops at a file used as a directory |
| ArchiveWrites.WriteMember | tools/prepare_piper_inputs.py:168-184 | one member of the first phase adds its entry and the directories above it |
| ArchiveWrites.WriteLinks | tools/prepare_piper_inputs.py:186-202 | the second phase adds exactly the links, and fails exactly where the list forbids it |
| ArchiveWrites.WriteLink | tools/prepare_piper_inputs.py:189-202 | one link of the second phase |
| ArchiveCopies.MaterializeLinks | tools/prepare_piper_inputs.py:186-199 | the second phase with copies: success exactly when every link's target is a file that may be read by the time it is copied |
| ArchiveCopies.CopyLink | tools/prepare_piper_inputs.py:189-199 | one copy: the link's path gets the content and mode of the file at its lexical target, which must be readable |
| ArchiveTree.DescribesUnique | tools/prepare_piper_inputs.py:167-202 | a member list describes at most one tree |
| ArchiveTree.DirectoryOutcome | tools/prepare_piper_inputs.py:171-172 | making a directory succeeds exactly when no planned file or link stands on its way |
| ArchiveTree.LeafOutcome | tools/prepare_piper_inputs.py:176-202 | writing a leaf succeeds exactly when nothing planned clashes with it, and adds just that entry |
| ArchivePaths.SymlinkTarget | tools/prepare_piper_inputs.py:106-116 | an accepted target never holds a parent component |
| ArchivePaths.LinkTargetExact | tools/prepare_piper_inputs.py:106-116 | a link is accepted exactly when a strict component walk from the member's parent never climbs out and ends inside the archive root; the target is where it ends |
| ArchivePaths.NormalizeIsClimb | tools/prepare_piper_inputs.py:111-114 | path normalisation agrees with the strict walk, and keeps a parent component when that walk leaves |
| ArchivePaths.SafePartsArePortable | tools/archive_paths.py:6-19 | accepted names parse into portable components |
| ArchivePaths.SafePartsOfPathString | tools/archive_paths.py:6-19 | the text of a path is accepted exactly when the path is portable, and parses back to it |
| ArchivePaths.SafePartsExact | tools/archive_paths.py:6-19 | a name is accepted exactly when it is relative, holds no forbidden character, names something, and no part climbs or ends in a dot or a space |
| ArchivePaths.PiecesKept | tools/archive_paths.py:14-15 | a text is read piece by piece between slashes: empty pieces and "." go, all others stay |
| Disks.ResolvePlain | tools/archive_paths.py:27-32 | where no link is met, resolving a path under the destination stays at that path |
| Disks.MakeDirsPlain | tools/prepare_piper_inputs.py:171-179 | where no link is met, making a directory adds exactly its missing ancestors |
| TreeDigest.FeedTree | tools/prepare_piper_inputs.py:86-98 | the loop feeds one record per entry and refuses exactly a list with a special entry |
| TreeDigest.LinkText | tools/prepare_piper_inputs.py:88-92 | a link adds its name, its tag and its target to the stream |
| TreeDigest.FileText | tools/prepare_piper_inputs.py:88-98 | a file adds its name, its tag and its hash |
| TreeDigest.StreamDetermines | tools/prepare_piper_inputs.py:86-98 | two genuine lists with the same stream are equal when one of them is unambiguous |
| TreeDigest.StreamIdentifies | tools/prepare_piper_inputs.py:86-98 | among all genuine lists, one is identified by its stream if and only if no link can share a newline with the next name |
| TreeDigest.NoNewlines | tools/prepare_piper_inputs.py:86-98 | so every list without newlines in names and targets is identified |
| TreeDigest.SameStreamExact | tools/prepare_piper_inputs.py:86-98 | two genuine lists have one stream if and only if one is the other with its links ending at other newlines |
| TreeDigest.DigestStreamExact | tools/prepare_piper_inputs.py:80-99 | a sorted listing of a directory is identified among the sorted listings if and only if none of its other cuts is one |
| TreeDigest.OrderIdentifies | tools/prepare_piper_inputs.py:80-99 | a sorted listing with a newline to spare that is identified all the same |
| TreeDigest.SortedCollision | tools/prepare_piper_inputs.py:80-99 | two different sorted lists with the same stream |
| DispatchMonitor.Histories.RecordOutputLine | tools/stress_server.py:116-164 | one line keeps every tracked history in step with its own records, and fails exactly when order breaks |
| DispatchMonitor.Histories.RecordMarker | tools/stress_server.py:121-146 | a marker: the next number, before the terminal, first start kept |
| DispatchMonitor.Histories.RecordTerminal | tools/stress_server.py:148-164 | a terminal: the first only |
| DispatchMonitor.AwaitTerminals | tools/stress_server.py:172-176 | the first loop stops at the shortest prefix in which every dispatch has ended |
| DispatchMonitor.WatchQuietWindow | tools/stress_server.py:178-189 | the quiet window reads its lines under the same checks |
| DispatchMonitor.CollectHistories | tools/stress_server.py:167-190 | accepts exactly the outputs orderly up to the end of the quiet window; each history is that of the dispatch's own records |
| DispatchMonitor.CompleteDispatch | tools/stress_server.py:129-164 | ordered and ended means markers 1 to n and then exactly one terminal |
| DispatchMonitor.ExchangeKeepsMine | tools/stress_server.py:125-128 | exchanging neighbours of different dispatches leaves each dispatch's records alone |
| DispatchMonitor.ExchangeIrrelevant | tools/stress_server.py:116-164 | so order, completion and every history survive any such exchange |
| DispatchMonitor.InterleavingIrrelevant | tools/stress_server.py:167-190 | any interleaving of the same records of each dispatch is accepted too by the collector that reads a whole output, with the same histories |
| DispatchMonitor.OrderlyExact | tools/stress_server.py:116-164 | a log is orderly if and only if no event breaks the order of its dispatch |
| DispatchMonitor.EndedIsFinal | tools/stress_server.py:129-164 | in an orderly log nothing of a dispatch follows its terminal |
| DispatchMonitor.StopUnique | tools/stress_server.py:174-176 | the first loop has one stopping point |
| DispatchMonitor.WaitForDispatches | tools/benchmark_server.py:394-432 | accepts exactly the outputs readable up to the first point where every dispatch has ended, and reports first source and last terminal |
| DispatchMonitor.StrictRefinesLenient | tools/benchmark_server.py:394-432 | what the strict collector accepts the lenient one accepts at the same stop, with the same answers |
| DispatchMonitor.StrictnessIsOrder | tools/stress_server.py:167-190 | the strict collector accepts exactly the lenient acceptances in which no event up to the end of the quiet window breaks the order of its dispatch |
| DispatchHistories.OrderExact | tools/stress_server.py:116-164 | by position in the whole output: orderly means no malformed record, every marker with the next number, and nothing of a dispatch after its terminal |
| DispatchHistories.HistoryExact | tools/stress_server.py:129-164 | the history of a dispatch: numbers from one, each marker's kind in its place, the first start with its time, engine and voice, and the terminal with its time and status |
| DispatchHistories.StrictExact | tools/stress_server.py:167-190 | the strict collector asks for order up to the end of the quiet window |
| DispatchHistories.StopExact | tools/benchmark_server.py:406-432 | both monitors stop at the first point before which every dispatch has a terminal |
| DispatchHistories.LenientExact | tools/benchmark_server.py:406-432 | the lenient one asks only for readable records up to there |
| DispatchHistories.OutcomeExact | tools/benchmark_server.py:412-432 | what it reports: the first start and the last terminal of each dispatch |
| ProcessTree.TreeProcessIds | tools/process_metrics.py:259-271 | the fixpoint loop ends on any parent map and returns the tree, in any iteration order |
| ProcessTree.AddChildren | tools/process_metrics.py:266-270 | one pass adds only processes of the tree, and adds none only when the set is closed |
| ProcessTree.TreeIsLeast | tools/process_metrics.py:259-271 | the tree is the least set with the root and closed under children |
| ProcessTree.IsDescendant | tools/stress_server.py:512-525 | the guarded walk finds an ancestor exactly when some parent chain reaches one, cycles included |
| ProcessTree.TreeIsDescendants | tools/stress_server.py:512-525 | the two algorithms select the same processes below a root |
| ProcessTree.RootDescendsOnCycle | tools/stress_server.py:512-525 | where they differ: the root itself descends from itself exactly on a cycle |
| ProcessTotals.AggregateTree | tools/process_metrics.py:274-302 | whole and per-name totals of the tree, in any visiting order, and none exactly for an absent root |
| ProcessTotals.AddProcess | tools/process_metrics.py:291-301 | one process goes into both totals once |
| ProcessTotals.CountedByName | tools/process_metrics.py:290-302 | a named process is counted under exactly its name, and one without a name under "unknown" |
| ProcessTotals.AddMetrics | tools/process_metrics.py:297-301 | each reported metric is added to both totals, the others are left alone |
| ProcessTotals.TotalsConserved | tools/process_metrics.py:289-302 | count and every metric are the sums of the per-name totals, and a total is present exactly when some name has it |
| Protobuf.EncodeVarint | tools/generate_piper_speaker_fixture.py:14-20 | the loop computes the base-128 encoding |
| Protobuf.VarintRoundTrip | tools/generate_piper_speaker_fixture.py:14-20 | decoding any encoding gives the number and what follows |
| Protobuf.VarintPrefixFree | tools/generate_piper_speaker_fixture.py:14-20 | no encoding is the beginning of another |
| Protobuf.VarintMinimal | tools/generate_piper_speaker_fixture.py:14-20 | no shorter bytes decode to the same number |
| Protobuf.VarintGroups | tools/generate_piper_speaker_fixture.py:14-20 | the groups of seven bits, lowest first, with the continuation bit on all but the last |
| Protobuf.IntegerRoundTrip | tools/generate_piper_speaker_fixture.py:23-24 | an integer field is read back whatever follows |
| Protobuf.BlobRoundTrip | tools/generate_piper_speaker_fixture.py:27-30 | a length-delimited field is read back whatever follows |
| Protobuf.FieldsRoundTrip | tools/generate_piper_speaker_fixture.py:23-30 | any list of fields is read back from its bytes |
| Protobuf.DocumentedBytes | tools/generate_piper_speaker_fixture.py:23-30 | the two encodings the Protocol Buffers guide gives as examples |
| OnnxFixture.ValueInfoRoundTrip | tools/generate_piper_speaker_fixture.py:33-36 | name, element type and dimensions are read back |
| OnnxFixture.TensorRoundTrip | tools/generate_piper_speaker_fixture.py:39-41 | dimensions, name and samples are read back |
| OnnxFixture.AttributeRoundTrip | tools/generate_piper_speaker_fixture.py:50 | name, value and kind of the conversion's attribute are read back |
| OnnxFixture.NodeRoundTrip | tools/generate_piper_speaker_fixture.py:44-46 | inputs, output, operation and the optional attribute are read back |
| OnnxFixture.GraphRoundTrip | tools/generate_piper_speaker_fixture.py:56-60 | nodes, initializers, inputs and outputs are read back |
| OnnxFixture.ModelRoundTrip | tools/generate_piper_speaker_fixture.py:61 | every field of a whole model is read back through all nesting |
| OnnxFixture.FixturesDiffer | tools/generate_piper_speaker_fixture.py:49-61 | models for different base samples have different bytes |
| OnnxEvaluation.FixtureComputes | tools/generate_piper_speaker_fixture.py:49-61 | a run of the graph for speaker sid gives 128 samples of base + 0.125 * sid |
| OnnxEvaluation.BytesCompute | tools/generate_piper_speaker_fixture.py:49-61 | and so does the graph read back from the bytes |
| OnnxEvaluation.ShapesFit | tools/generate_piper_speaker_fixture.py:39-60 | every constant has as many samples as its dimensions say |
| OnnxSchema.DimSchema | tools/generate_piper_speaker_fixture.py:34 | a dimension is a size in field 1 or a symbol in field 2 |
| OnnxSchema.ValueInfoSchema | tools/generate_piper_speaker_fixture.py:33-36 | the fields of a value description and their numbers, through the nesting |
| OnnxSchema.TensorSchema | tools/generate_piper_speaker_fixture.py:39-41 | the fields of a tensor and their numbers |
| OnnxSchema.AttributeSchema | tools/generate_piper_speaker_fixture.py:50 | the fields of the attribute and their numbers |
| OnnxSchema.NodeSchema | tools/generate_piper_speaker_fixture.py:44-46 | the fields of a node and their numbers |
| OnnxSchema.GraphSchema | tools/generate_piper_speaker_fixture.py:56-60 | the fields of a graph and their numbers |
| OnnxSchema.ModelSchema | tools/generate_piper_speaker_fixture.py:61 | the fields of a model and their numbers |
| SynthesisMonitor.Synthesize | tools/stress_helper.py:208-328 | accepts exactly the lawful streams that close, and reports frame, marker and byte totals |
| SynthesisMonitor.Observe | tools/stress_helper.py:215-261 | the loop body accepts a frame exactly when it may follow the stream, and keeps the locals equal to the stream's totals |
| SynthesisMonitor.CheckBatch | tools/stress_helper.py:247-260 | the progressive batch check: whole offsets, not behind the audio, not decreasing |
| SynthesisMonitor.CheckCompletion | tools/stress_helper.py:262-326 | the completion is accepted exactly when the frame total matches and the closing checks hold |
| SynthesisMonitor.Close | tools/stress_helper.py:270-325 | the closing loops: marker ranges, required kinds, anchors, bounds |
| SynthesisMonitor.AcceptedStream | tools/stress_helper.py:208-328 | an accepted stream has one start, chunks numbered from zero, bytes equal to frames times channels times two, and ordered offsets in range |
| SynthesisMonitor.StartsOnce | tools/stress_helper.py:217-234 | one start, before every chunk |
| SynthesisMonitor.WholeFrames | tools/stress_helper.py:239-241 | no partial sample frame is ever left over |
| SynthesisMonitor.PublishedGrows | tools/stress_helper.py:248 | published audio never shrinks |
| SynthesisMonitor.OffsetsMonotonic | tools/stress_helper.py:247-260 | progressive offsets are whole and never decrease over the whole stream |
| SynthesisMonitor.MarkersBeforeAudio | tools/stress_helper.py:247-260 | at every cut, a marker within published audio was emitted before the cut |
| SynthesisStreams.StartExact | tools/stress_helper.py:217-232 | a start follows exactly a stream without one, with a known format and the voice asked for |
| SynthesisStreams.ChunkExact | tools/stress_helper.py:233-242 | a chunk follows exactly a start, numbered by the chunks before it and of whole frames |
| SynthesisStreams.MarkersExact | tools/stress_helper.py:243-261 | a marker batch follows when it is not empty and, in a progressive stream, comes after a start with its offsets in time |
| SynthesisStreams.NothingElse | tools/stress_helper.py:215-329 | nothing but starts, chunks and marker batches |
| SynthesisStreams.AcceptedMarkers | tools/stress_helper.py:132-147 | in an accepted stream every marker lies in the audio, and its range, if it has one, in the text up to its end |
| SynthesisStreams.PlainStream | tools/stress_helper.py:262-272 | conversely, where no kinds and anchors are asked for, a lawful stream with the right total and such markers is accepted |
| SynthesisStreams.RightTotal | tools/stress_helper.py:265-269 | the total is right exactly when the counted frames fill the bytes |
| SynthesisStreams.ClosesExact | tools/stress_helper.py:270-326 | the closing checks on the fields of the markers: ranges, kinds, first answers to the anchors, and bounds |
| CancelMonitor.CancelSynthesis | tools/stress_helper.py:342-383 | the online monitor returns exactly when a prefix is start, output, acknowledgement, terminal |
| CancelMonitor.CheckCancellation | tools/WindowsHelperCancellationTests.cs:248-278 | the offline checker passes exactly the offline traces |
| CancelMonitor.OnlineIsOffline | tools/WindowsHelperCancellationTests.cs:248-278 | what the online monitor accepts, the offline checker passes under any renaming to ids 2 and 3 |
| CancelMonitor.OnlineIsStrictOffline | tools/stress_helper.py:350-383 | online acceptance is offline acceptance plus start first, one acknowledgement, no foreign id, only output before it, and ending at the terminal |
| CancelMonitor.OfflineIsWeaker | tools/WindowsHelperCancellationTests.cs:248-278 | a log without a start that only the offline checker passes |
| CancelMonitor.RenamingExists | tools/WindowsHelperCancellationTests.cs:254-265 | two distinct ids can always be renamed so |
| CancelMonitor.OnlineExact | tools/stress_helper.py:350-383 | the online language, field by field |
| CancelMonitor.OfflineExact | tools/WindowsHelperCancellationTests.cs:248-278 | the offline language, field by field |
| PeImports.PeImports | tools/verify_piper_release.py:366-412 | returns just the texts without capitals that the names of the image's import list spell, and fails exactly on data that has no list |
| PeImports.ReadHeader | tools/verify_piper_release.py:373-391 | sections and import address are those of the headers, and fails exactly when there are none |
| PeImports.ReadSections | tools/verify_piper_release.py:383-391 | each section with the larger of its two sizes |
| PeImports.FindOffset | tools/verify_piper_release.py:393-397 | the file offset by the first section that holds the address |
| PeImports.ReadTable | tools/verify_piper_release.py:401-412 | the descriptor loop with its bound of 4096 |
| PeImports.ReadEntry | tools/verify_piper_release.py:404-410 | one descriptor: terminator, name or error |
| PeImports.ReadName | tools/verify_piper_release.py:407-410 | the name up to the first NUL within 1023 bytes, ASCII only |
| PeImports.ImportsUnique | tools/verify_piper_release.py:366-412 | no data has two import lists |
| PeImports.LowerExact | tools/verify_piper_release.py:410 | a name spells one text, without capitals: itself with its capital letters made small |
| PeImports.SpellingsAgree | tools/verify_piper_release.py:410-419 | names that differ only in capitals give the same set |
| PeImports.LaidOutImports | tools/verify_piper_release.py:393-412 | an image of disjoint sections as the loader sees it has exactly its names as import list, and none from 4096 descriptors on |
| PeImports.ReadLaidOut | tools/verify_piper_release.py:366-412 | reading such an image returns exactly the lower-cased name set |
| PeImports.MappedAtOffset | tools/verify_piper_release.py:393-397 | with disjoint sections mapped bytes are read at the offset of their address |
| PeImage.HeaderRead | tools/verify_piper_release.py:373-391 | the reader finds in written headers the sections and import address they were written for |
| PeImage.ImageLaidOut | tools/verify_piper_release.py:393-412 | any list of names short enough for the header's widths is laid out by a written image |
| PeImage.ReadWritten | tools/verify_piper_release.py:366-412 | reading a written image gives back exactly its names in lower case, up to the bound of the table |
| Wav.WriteWav | tools/tts_reference.swift:18-63 | writes the header of 44 bytes and the samples, exactly when every field fits its width |
| Wav.ReadWav | tools/compare_wavs.py:16-57 | the chunk loop computes the fold over the file |
| Wav.WavDuration | tools/audit_speech_rates.py:78-121 | the chunk walk ends on any bytes and computes data bytes over byte rate |
| Wav.ScanChunks | tools/audit_speech_rates.py:91-117 | the walk itself, whose position only grows |
| WavRoundTrip.UnpaddedFile | tools/compare_wavs.py:24-57 | any file of chunks without pad bytes reads as the fold of its chunks |
| WavRoundTrip.PaddedFile | tools/audit_speech_rates.py:91-117 | any file of padded chunks counts as the fold of its chunks |
| WavRoundTrip.EvenIsUnpadded | tools/audit_speech_rates.py:116-117 | without odd payloads the two kinds of file are the same |
| WavRoundTrip.WrittenReadsBack | tools/compare_wavs.py:16-57 | reading a written file gives back samples, rate and channels |
| WavRoundTrip.WrittenDuration | tools/audit_speech_rates.py:78-121 | its duration is samples over rate times channels, with the exact cases in which it is refused |
| WavRoundTrip.ScanExact | tools/audit_speech_rates.py:91-117 | on any bytes the walk succeeds exactly on whole chunks it can count, with their counts |
| WavRoundTrip.DurationExact | tools/audit_speech_rates.py:78-121 | on any bytes a duration is given exactly for a RIFF file of whole, countable chunks with a format and audio, and is their audio bytes over the byte rate |
| WavRoundTrip.OddChunkHidesAudio | tools/compare_wavs.py:24-57 | after any even chunks and an odd one, read_wav reads the next header one byte early; where less than its shifted size remains it reports only the chunks before, while wav_duration counts them all |
| WavRoundTrip.OddDataRefused | tools/compare_wavs.py:33-55 | an odd data chunk in a supported format is always refused |
| WavRoundTrip.OddLastHarmless | tools/compare_wavs.py:24-57 | an odd chunk at the end is read like the others |
| WavSamples.FloatsRead | tools/compare_wavs.py:43-46 | 32-bit floats are read word by word |
| WavSamples.ShortsRead | tools/compare_wavs.py:47-50 | 16-bit samples are read in two's complement |
| WavSamples.OtherFormatsSkipped | tools/compare_wavs.py:51-53 | data in any other format is passed over |
| WavSamples.PcmReadsBack | tools/compare_wavs.py:33-50 | a 16-bit file gives back its samples, negative ones too, with rate and channels |
| WavSamples.DurationOfTwo | tools/audit_speech_rates.py:78-121 | the duration of a format and a data chunk, with every way to be refused |
| WavSamples.PcmDuration | tools/audit_speech_rates.py:104-121 | a 16-bit file lasts its frames over its rate |
| WavSamples.WrittenBytes | tools/tts_reference.swift:18-63 | every field of the written header, and every sample after it |
| Binary.LowestFirst | tools/compare_wavs.py:31-39 | integers are read with the lowest byte first |
| Resampler.ResampleToRate | tools/tts_reference.swift:66-105 | the loops compute the interleaved interpolation |
| Resampler.Deinterleave | tools/tts_reference.swift:74-79 | each channel gets its own samples |
| Resampler.Interpolate | tools/tts_reference.swift:82-95 | each channel is interpolated at every output frame |
| Resampler.Interleave | tools/tts_reference.swift:98-103 | each sample goes to its frame and channel |
| Resampler.SourceInside | tools/tts_reference.swift:86-93 | every output frame has its source frame inside the input |
| Resampler.SamplesBetweenNeighbours | tools/tts_reference.swift:66-105 | every output sample lies between its two neighbouring input samples of the same channel |
| Resampler.ExactPosition | tools/tts_reference.swift:86-88 | index and fraction together are the exact position |
| Resampler.Interpolated | tools/tts_reference.swift:82-95 | every output sample is the linear interpolation of the two frames around its position, in whole numbers |
| Resampler.AffineStays | tools/tts_reference.swift:82-95 | a channel affine in the frame number stays affine in the position |
| Resampler.OutputLength | tools/tts_reference.swift:72-81 | as many output frames as fit into the duration of the input |
| Resampler.UpAndBack | tools/tts_reference.swift:66-105 | up by an integer factor and back gives the original frames |
| Anchors.Anchors | tools/check_documentation_links.py:63-88 | the counters and the suffix search give each heading the least free suffix |
| Anchors.AddHeading | tools/check_documentation_links.py:80-87 | one heading, where the counter skips only suffixes in use |
| Anchors.TakenBound | tools/check_documentation_links.py:83-85 | only as many suffixes can be taken as there are ids: the search ends |
| Anchors.CandidateInjective | tools/check_documentation_links.py:82-85 | different suffixes give different ids |
| Anchors.AnchorsDistinct | tools/check_documentation_links.py:63-88 | all heading anchors are pairwise distinct, and with the declared ids they are the ids |
| Anchors.AnchorExact | tools/check_documentation_links.py:80-87 | a heading gets its slug if that is free, else the slug, a hyphen and the least free number |
| Anchors.DecimalExact | tools/check_documentation_links.py:82-85 | the number is written in decimal |
| Anchors.UsedExact | tools/check_documentation_links.py:66-87 | in use are the ids declared so far and the anchors of earlier headings |
| Locks.LockedArchives | tools/package_piper_source.py:138-206 | accepts exactly the well-formed, consistent locks, in any member order, with one digest, URL and kind per archive and all its uses, each once |
| Locks.LockTarget | tools/package_piper_source.py:152-174 | the components of one target |
| Locks.AddArchive | tools/package_piper_source.py:157-174 | one entry: refused exactly when invalid or in conflict |
| Locks.EntryExact | tools/package_piper_source.py:105-128 | which entries each reader accepts, and under which name |
| Locks.ShapeExact | tools/package_piper_source.py:143-156 | an entry for every component of every target, and nothing else |
| Locks.NativeExact | tools/package_piper_source.py:138-174 | valid entries, and the same digest and URL for the same archive |
| Locks.SourceExact | tools/package_piper_source.py:175-192 | the corresponding source each reader accepts |
| Locks.LockedInputDigests | tools/verify_piper_source.py:177-227 | accepts exactly the locks consistent for the verifier, with one digest per archive |
| Locks.ReadersAgree | tools/verify_piper_source.py:177-227 | of what the packager accepts, the verifier derives the same digests if and only if every entry names its archive |
| Locks.NamedReadersAgree | tools/verify_piper_source.py:192-199 | with every archive named the verifier accepts and derives the same |
| Locks.MissingNames | tools/package_piper_source.py:113-119 | a lock with missing names that both accept |
| Multipart.PartsOfRecord | tools/benchmark_server.py:265-281 | parts exist exactly for 2 to the record's length, join to the record, are not empty, are numbered in order and differ in size by at most one |
| Multipart.PartSlice | tools/benchmark_server.py:265-281 | each part runs from its share of the record, rounded down, to the next |
| Cancellation.Perform | omnivox-audio/src/cancellation.rs:12-37 | over any run of create, clone and cancel, handles share a flag exactly when cloning relates them, and read cancelled exactly when a related handle was cancelled |
| Cancellation.CloneSharesOrigin | omnivox-audio/src/cancellation.rs:12-15 | that sharing relates each clone to its source |
| Cancellation.OriginIsLeast | omnivox-audio/src/cancellation.rs:12-15 | and is the least equivalence that does |
| Cancellation.CancelledKept | omnivox-audio/src/cancellation.rs:23-31 | once cancelled in a run, cancelled in every longer run |
| Cancellation.CancellationToken.Cancel | omnivox-audio/src/cancellation.rs:25-27 | sets the shared flag |
| Cancellation.CancellationToken.Clone | omnivox-audio/src/cancellation.rs:12-15 | a clone shares the flag |
| Cancellation.ReadAfter | omnivox-audio/src/cancellation.rs:41-52 | after any event the lifetime reads cancelled exactly when its token was cancelled in the run or the generation moved on |
| Cancellation.CancelledForever | omnivox-audio/src/cancellation.rs:23-52 | over any events on tokens and a generation that only grows, a lifetime that reads cancelled reads so ever after |

## Reading the model

- A path is the list of its components. Names are parsed once into items, where the source parses them again in each
  loop; the parsers are pure. The filesystem is POSIX, case-sensitive and without limits on space or name length, and
  `Disk.hops` bounds the links one lookup follows: every theorem holds for any bound. Files keep their permission
  bits; `Disk.privileged` says whether the process may read a file whose owner may not. Directories are always open
  to it.
- Monitors start from decoded lines and frames: a line that cannot be decoded is one event, a field of the wrong type
  another. A deadline is the end of the events. The quiet window is an arbitrary number of further events.
- Process ids are an abstract type with equality, so nothing depends on their order. Sets and JSON objects are visited
  in any order.
- A file's own hash in the digest is an opaque word of 64 characters, and characters stand for bytes. The list of
  entries is the filtered and sorted one; links that resolve to directories are not in it, so they are not recovered.
- Float samples are 32-bit words in the WAV files, and exact numbers in the resampler and in the run of a graph.
- What a synthesis request asks for (kinds, anchors, resolutions and bounds) is given, as the caller derives it from
  the capabilities that the helper announces.
- Contracts say exactly when a tool refuses its input; they do not say with which of its messages.
- The lock readers take the URL check and the values of the members as given.

## Left out

- Resampler.ResampleToRate: computes over exact numbers, without the rounding of Double and Float, because rounding is not what its index and interpolation logic is about.
- DispatchMonitor.CollectHistories: takes the length of the quiet window in events as given, because the clock decides it.
- PeImports.LaidOutImports: speaks of tables and names that lie wholly in the file part of one section each.
- WavRoundTrip.OddChunkHidesAudio: is about files in which less than the shifted size remains; where more remains, read_wav goes on at whatever bytes follow.
- WavRoundTrip.OddDataRefused: is about the two supported formats, as read_wav skips data in any other.
- Extraction.ExtractTarArchive: proves where writes land and what links hold, not where chains of links lead afterwards, as the source checks targets lexically; the archive root is portable, so the names "", "." and "..", for which the source returns an existing directory on an empty archive, are left out.
- Locks.LockedArchives: gives each archive's uses without their order, and not the digests of the two lock files, which hash their whole text.
- Locks.LockedInputDigests: does not give the digests of the two lock files, for the same reason.
- Cancellation.CancelledForever: takes the generation as a counter without wrap-around at 64 bits, whose growth is arbitrary because its writer is not part of this model.
- OnnxEvaluation.FixtureComputes: computes over exact numbers, for base samples that are finite, because rounding is not what the graph is about.
- Anchors.Anchors: starts from the ids and the slug found on each line, without the regular expressions and the set of titles.
- Zip extraction repeats the tar checks without links.
- `validate_histories` and `select_fault_target` filter finished tables.
- `prose_lines`, `heading_slug`, `trim_silence`, `to_mono`, `nearest_rank`, `dense_actions` and `IdentitySequence` are short text and number helpers.
- `file_manifest` and `verify_manifest` compare hashed directory listings.
- `Input` of the Windows helper tests is a queue between threads; its blocking is not modelled.
- SHA-256, gzip, JSON, Base64 and regular expressions are taken as given.
- Sockets, subprocesses, threads, timeouts, PowerShell and `/proc` become arbitrary inputs.
- The speech server, the helper hosts and the receiver of multipart records are not part of this model.
