# kgd: the MessagePack engine and the placement engine

This project models two parts of kgd and proves what they are for.

**The MessagePack engine under the C client.** `mpack.c` without extension types, tracking
or size optimisation, on 64 bits, with an allocator that succeeds. A recursive decoder
(`Format.DecodeValue`) and a one-shot encoder (`Encoding.Encode`) are the specification.
Both are held to the format table of the MessagePack specification, byte by byte
(`WireFormat`). The code that has to agree with them is

- the in-memory reader and `mpack_discard` (`Reading`), and the client's receive loop on
  top of it (`Framing`);
- the growable writer and the paged *builder*, which lets containers be written before
  their counts are known (`BuildPages`, `Tokens`, `Writing`, `Building`);
- the iterative tree parser with its explicit stack, its ledger of promised bytes, its
  pauses and its node limit (`NodeCount`, `TreeLayout`, `TreeStorage`, `TreeParsing`,
  `TreeRuns`). It is part of `mpack.c`, but this client builds with `MPACK_NODE=0`
  (`clients/c/CMakeLists.txt:12`) and reads messages with the expect functions instead;
- the UTF-8 checker (`Utf8`), against scalar values and the grammar of RFC 3629, the
  client's table of pending calls (`PendingCalls`) and the memory of the results stored in
  it (`PendingMemory`).

**The placement engine.** The daemon's single-owner event loop (`PlacementEngine`), the
reference-counted upload cache it owns (`UploadCache`), anchor resolution (`Geometry`), the
escapes it drives the terminal with (`Kitty`, `TTYOutput`; `KittyText` has them letter by
letter), a terminal that interprets them (`Interpreter`) and the request and shutdown
protocol in front of it (`Dispatch`). The engine owns the printer that it gives its
transmit, place and delete commands to. Its view of the terminal is a ghost value (`Screen`)
that these commands change, and everything written, once interpreted, shows that view.
Every map iteration picks its next key freely.

## How the parts fit together

`EngineState` gives each event of the engine its effect as a function of the state before
and, where a map is visited, of the order of the visit; `EngineInvariants` proves what
every event keeps, `EngineTheorems` what that means over whole runs, `EngineRequests` that
the state is what the clients asked for, and `PlacementEngine.Engine` is the imperative
engine, each handler of which ends in a state that these functions allow. In the same way `UploadCache.Cache` is proved to act on its
contents as `Stored` and `Released` do, and `PendingCalls.Table` as the critical sections
of the protocol do. `Dispatch` and `PendingCalls` are state machines with one step for
each atomic action of a thread or goroutine; their theorems hold for every interleaving
and any number of callers.

For the builder, a page run is read back through the page list (`BuildPages.Holds`), the
builds laid out in it are described by `BuildPages.Laid`, and what resolve must emit is a
log of bytes and of containers whose count is not known yet (`Tokens.Resolved`). For the
tree parser, the proof keeps with every level of the stack the values already complete
there; the parse is then always a prefix of the recursive decoding (`TreeLayout.Parsing`).
What arrives when is a list of read sizes the tree is given, so that claims about every
delivery, and about one that makes the parser fail, speak of the same code.

## Where the code and its documentation differ

The model follows the code.

- `README.md:10` speaks of SHA256; `internal/upload/cache.go` uses 128-bit xxh3, which the
  model takes as an arbitrary function to digests. `README.md:126` speaks of an RWMutex on
  the cache; there is none, the engine owns it alone.
- `internal/engine/engine.go:426-427` promises that nothing stays in the terminal after
  shutdown. Images that are cached but that nobody holds a handle for stay:
  `EngineTheorems.CleanupIsCompleteIffAllHeld` and `FreedImageOutlivesShutdown`.
- `internal/rpc/dispatch.go:22-25` promises that every event sent is processed. An event
  sent after the engine's last look at the channel is not: `Dispatch.GapLeavesEventUnanswered`
  and `AnyoneCanFallInTheGap`. Over every run a request is answered if and only if it was
  sent before that look: `AnsweredIffSentInTime`.
- After `handleClientDisconnect` other clients' placements may stay on the screen although
  their window is gone, from the next redraw on they do not: `EngineTheorems.IncrementalIsFull`,
  `DisconnectLeavesLag`, and a run that shows it, `DisconnectLagIsReachable`.
- A call of the C client that waits when the stream ends returns success without a result,
  and the end of the stream is harmless if and only if nobody waits then:
  `PendingCalls.WokenWithoutAnswer`, `EndOfStreamIsSafeIffAnswered`, and a run of four steps
  that shows it, `EndOfStreamMisleads`. A call that shares its slot with a timed-out call may
  return that call's result: `StrayAnswersMislead`, `TimeoutMisleads`. A stray error behind
  such a result has it freed twice: `PendingMemory.StrayErrorFreesTwice`.
- The receive loop takes every error of discard for an incomplete message
  (`clients/c/kgd.c:1226-1229`). Over every continuation of a stream nothing more is handed
  on if and only if the pending bytes lead to a byte that no value starts with:
  `Framing.WaitsInVainIffBlocked`, and `ReservedByteSilences` for one such byte.
- With a node limit, a container that has to pause is counted again on resume. A message
  that keeps to a limit is accepted under every delivery if and only if its root has no
  children: `TreeRuns.ParseChildless` for one half; for the other, `PauseUntilTooBig` makes
  any message with a root that has children exceed any limit, and `PairUnderLimitThree` does
  so with the array [1, 2]. In memory a limit means what it says: `ParseWithin`.

## Model

| member | source | states |
|---|---|---|
| Format.LoadStored | clients/c/mpack.h:2688-2786 | a number stored in a field of any width in the middle of a buffer loads back as that number |
| Format.SkipSplits | clients/c/mpack.c:3757-3798 | skipping a + b values is skipping a and then b, so a flat count of owed values describes nested content |
| Format.DecodeSkips | clients/c/mpack.c:3757-3798 | a value decodes exactly when the flat skip over its header, content and children gets past it, and both stop at the same byte |
| Format.HeaderStable | clients/c/mpack.c:3347-3697 | a complete header is read the same from every extension of the data |
| Format.DecodeStable | clients/c/mpack.c:3347-3798 | a value that decodes from a prefix decodes to the same value, with the same length, from every extension of the data |
| Encoding.TagReadsBack | clients/c/mpack.c:1592-2160 | every tag that can be written, wherever it stands in the data, is read back as the same tag, with the length of its encoding |
| Encoding.TagIsShortest | clients/c/mpack.c:1865-2160 | no header the reader accepts for the same number, string length or count is shorter than the one written |
| Encoding.ValueReadsBack | clients/c/mpack.c:1592-2262 | an encoded value decodes to itself from any position it occurs at, consuming exactly its bytes (non-negative signed integers come back unsigned) |
| Encoding.ValuesReadBack | clients/c/mpack.c:2077-2108 | the same for the elements of a container, in order |
| Encoding.EncodeIsShortest | clients/c/mpack.c:1592-2262 | any bytes that decode to the value, with whatever forms inside, are at least as long as its encoding |
| WireFormat.StoreIsBigEndian | clients/c/mpack.h:2733-2786 | the byte at place k of a stored number is the number divided by 256 to the places behind k, modulo 256: the most significant comes first |
| WireFormat.BigEndianIsLoaded | clients/c/mpack.h:2688-2732 | a field with the bytes of any integer, negative ones in two's complement, loads as that integer modulo what the field can hold |
| WireFormat.UnsignedField | clients/c/mpack.h:2688-2732 | an unsigned field reads as the one number whose bytes it has |
| WireFormat.SignedField | clients/c/mpack.h:2779-2782 | a signed field of any width reads as the one number, negative or not, whose two's complement it has |
| WireFormat.HeaderIffSpelled | clients/c/mpack.c:3347-3697 | a header is read as a tag if and only if its bytes spell that tag in the format table: every form of every type, and for integers all ten forms that can hold them |
| WireFormat.HeaderRefused | clients/c/mpack.c:3347-3697 | whatever the table does not spell is refused, as unsupported exactly if it leads an extension type |
| WireFormat.WrittenIffShortest | clients/c/mpack.c:1592-2160 | bytes are the header the writer emits if and only if they spell it in the table and no spelling is shorter, so there is only one |
| WireFormat.DecodedIsSpelled | clients/c/mpack.c:3757-3798 | a decoded value is a spelled header, the content or elements it announces right behind it, first element first, two for each map entry, and nothing else |
| WireFormat.DecodeFailsFor | clients/c/mpack.c:3347-3798 | decoding fails as unsupported exactly when an extension type comes up before the data runs out, and as invalid otherwise |
| Encoding.SignedInvertsUnsigned | clients/c/mpack.h:2779-2786 | every integer that a signed field can hold is stored and loaded as itself |
| Reading.Reader.constructor | clients/c/mpack.c:2823-2836 | a reader over a buffer starts at its first byte without an error |
| Reading.Reader.FlagError | clients/c/mpack.c:2979-2989 | the first error sticks and empties the reader; later ones change nothing |
| Reading.Reader.ParseTag | clients/c/mpack.c:3347-3697 | the cursor's header as the specification reads it, or the specification's error, leaving the cursor where it was |
| Reading.Reader.ReadTag | clients/c/mpack.c:3699-3740 | one header is consumed, or the error is flagged and a nil tag returned |
| Reading.Reader.SkipBytes | clients/c/mpack.c:3161-3177 | exactly that many bytes are consumed, or the reader is flagged when there are fewer |
| Reading.Reader.Discard | clients/c/mpack.c:3757-3798 | one value is consumed exactly as far as the recursive decoder goes, and an error is flagged exactly when the decoder fails, with the decoder's error |
| Reading.FailurePersists | clients/c/mpack.c:3775-3795 | once an element cannot be read, the container it is in fails with that error however many elements were to follow |
| Framing.FramingConserves | clients/c/kgd.c:1221-1242 | the messages handed on, followed by what is still pending, are the stream: nothing is lost, invented or reordered |
| Framing.FramingResumes | clients/c/kgd.c:1219-1242 | framing a stream and then framing its remainder with more data gives the messages and the remainder of the longer stream |
| Framing.RemainderIsIncomplete | clients/c/kgd.c:1226-1229 | what is pending after framing does not start with a complete message |
| Framing.BlockedStays | clients/c/mpack.c:3757-3798 | where the walk over headers meets a byte that no value starts with, discard fails on every extension of the data |
| Framing.Completable | clients/c/mpack.c:3757-3798 | everywhere else some more bytes bring the walk to its end, whatever header or content is cut off |
| Framing.WaitsInVainIffBlocked | clients/c/kgd.c:1226-1229 | no continuation of a stream hands on another message if and only if the walk over its pending bytes meets a byte that no value starts with |
| Framing.ReservedByteSilences | clients/c/kgd.c:1226-1229 | after the byte 0xc1 in front of a message, nothing is handed on any more |
| Framing.Receiver.Grow | clients/c/kgd.c:1204-1217 | the receive buffer is doubled, from 65536 if there was none, until there is room and no oftener, keeping what is pending |
| Framing.Receiver.Drop | clients/c/kgd.c:1236-1241 | the first bytes are dropped in place and the rest moves to the front |
| Framing.Receiver.Receive | clients/c/kgd.c:1192-1243 | one read hands on exactly the messages in the pending bytes and the new piece together, in order, and leaves the rest pending |
| Framing.ReadLoop | clients/c/kgd.c:1188-1247 | for every division of a stream into reads, the messages handed on and the bytes left over depend on the stream alone |
| Utf8.EncodingIsPrefixFree | clients/c/mpack.c:822-910 | encodings of two scalar values at the same place are the same scalar value |
| Utf8.TextIsUnique | clients/c/mpack.c:822-910 | a byte string is the UTF-8 encoding of at most one sequence of scalar values |
| Utf8.CharsAreScalars | clients/c/mpack.c:822-910 | the byte ranges of UTF8-char in section 4 of RFC 3629 are the encodings of the scalar values |
| Utf8.OctetsAreTexts | clients/c/mpack.c:822-910 | the byte strings of that grammar are the encodings of texts, those without a NUL byte of texts without NUL |
| Utf8.CheckOne | clients/c/mpack.c:830-904 | one turn of the checker accepts exactly the bytes of one encoded scalar value, rejecting overlong forms, surrogates and values beyond U+10FFFF |
| Utf8.Check | clients/c/mpack.c:822-910 | accepts exactly the encodings of sequences of Unicode scalar values, without NUL unless NUL is allowed, which are exactly the byte strings of the grammar |
| BuildPages.HoldsLater | clients/c/mpack.c:2483-2522 | a run of bytes across pages stays readable when later pages are added |
| BuildPages.HoldsAcross | clients/c/mpack.c:1411-1444 | bytes that straddle a page boundary continue the run on the next page |
| BuildPages.LaidFill | clients/c/mpack.c:2466-2481 | bytes added to the last page extend the content of the last build and of no other |
| BuildPages.LaidAddBuild | clients/c/mpack.c:2524-2590 | a new build header, placed after the content so far, starts an empty build and disturbs nothing |
| BuildPages.LaidStops | clients/c/mpack.c:2672-2715 | after the last build's content the page list holds no further build header |
| Tokens.RenderedIsResolved | clients/c/mpack.c:2636-2715 | emitting each build's header and bytes in page order is resolving the whole log |
| Writing.Writer.GrowableFlush | clients/c/mpack.c:1130-1191 | the buffer is doubled, and again until what is buffered and the extra data fit and no oftener; everything written so far is kept, and straddling data is appended |
| Writing.Writer.NativeStraddle | clients/c/mpack.c:1368-1472 | data larger than the room left is written in full, to the buffer or across pages |
| Writing.Writer.StraddlePages | clients/c/mpack.c:1411-1444 | inside a build, data is split over as many pages as it needs, in order |
| Writing.Writer.ApplyWrites | clients/c/mpack.c:2466-2481 | what was written into the current page becomes part of the latest build's content |
| Writing.Writer.AddPage | clients/c/mpack.c:2446-2464 | a new page becomes the writer's buffer without changing what was written |
| Writing.Writer.TrackElement | clients/c/mpack.c:1021-1047 | an element at the top level of the current build is counted, in maps every second one; elements of nested containers are not |
| Writing.Writer.BuilderBuild | clients/c/mpack.c:2524-2590 | a container of unknown size is opened: counted in its parent, logged, and made current |
| Writing.Writer.BuilderComplete | clients/c/mpack.c:2726-2763 | the current build is closed and its parent becomes current again, or everything is resolved |
| Writing.Writer.CopyOut | clients/c/mpack.c:2650-2700 | a build's bytes are copied from the page list into the growable buffer, page after page |
| Writing.Writer.Resolve | clients/c/mpack.c:2592-2724 | the pages turn into the bytes written before the outermost build followed by every build's now known header and content |
| Writing.Writer.CompoundPush | clients/c/mpack.h:3725-3734 | a container started inside a build stops the build from counting its elements |
| Writing.Writer.CompoundPop | clients/c/mpack.h:3736-3745 | finishing it makes the build count again |
| Writing.Writer.StartCompound | clients/c/mpack.c:2077-2108 | a container of known size is counted once and its shortest header is written |
| Writing.Writer.WriteStr | clients/c/mpack.c:2202-2255 | header and bytes are written whichever of the three paths is taken |
| Writing.Writer.WriteBin | clients/c/mpack.c:2257-2263 | header and bytes are written |
| Writing.Writer.WriteTag | clients/c/mpack.c:1592-2048 | a scalar is counted once and its shortest encoding is written |
| Writing.Writer.Teardown | clients/c/mpack.c:1193-1228 | the caller gets exactly the bytes written |
| Building.CountIsExact | clients/c/mpack.c:1021-1047 | counting element by element ends at the number of elements, or of pairs with no key left without a value |
| Building.NestedIsNotCounted | clients/c/mpack.c:1021-1047 | while a started container is open, elements leave the build's count alone |
| Building.NextItem | clients/c/mpack.c:1021-1047 | an item added after others resolves to its own encoding and leaves the earlier builds as they were |
| Building.EmitStarted | clients/c/mpack.c:2097-2108 | start, items and finish come out as the container's one-shot encoding, inside a build or not |
| Building.EmitBuilt | clients/c/mpack.c:2765-2779 | build, items and complete come out as the container's one-shot encoding, although its count was not known |
| Building.Emit | clients/c/mpack.c:2407-2779 | every well-nested run of writes, starts and builds, with any page size, comes out as the encoding that knew every count in advance |
| RoundTrip.Serialize | clients/c/mpack.c:1130-1228 | the final buffer of any such run is the one-shot encoding and decodes to the value, for every buffer and page size |
| RoundTrip.DiscardSerialized | clients/c/mpack.c:3757-3798 | discarding what was serialized consumes all of it and no more |
| RoundTrip.WrittenValuesAreFramed | clients/c/kgd.c:1221-1242 | a stream of written values with an incomplete tail is framed into exactly those values, leaving the tail |
| RoundTrip.Deliver | clients/c/kgd.c:1188-1247 | written values arrive as the same messages, whatever pieces they are delivered in |
| NodeCount.WeighSplits | clients/c/mpack.c:5169-5190 | the children announced by a run of values are those announced by its parts |
| NodeCount.DecodeWeighs | clients/c/mpack.c:5169-5190 | the children announced along the headers of a message are the nodes below its root |
| NodeCount.NodesAreBytes | clients/c/mpack.h:6934-6952 | a message never has more nodes than bytes |
| NodeCount.TrackMeets | clients/c/mpack.c:5186-5190 | the children of any container that the parse meets belong to the message's own count |
| TreeLayout.TooFewBytes | clients/c/mpack.c:5083-5105 | a node that needs more than the ledger leaves cannot be completed from the data, whatever its siblings are |
| TreeLayout.StepLeaf | clients/c/mpack.c:5278-5690 | a node without children completes a value of the innermost open container |
| TreeLayout.StepOpen | clients/c/mpack.c:5120-5262 | a container with children opens a level whose block overlaps no other open block |
| TreeLayout.StepClose | clients/c/mpack.c:5713-5723 | a level with nothing left becomes a value of the level below, as the recursive decoder has it |
| TreeLayout.StepFinish | clients/c/mpack.c:5713-5723 | when the bottom level is done the root's value is the decoded message and ends at the bytes consumed |
| TreeStorage.TakeFromPage | clients/c/mpack.c:5197-5202 | a block taken from the page is nobody else's, and apart from what is left of the page |
| TreeStorage.FreshPage | clients/c/mpack.c:5203-5252 | a block at the start of a fresh page is nobody else's, and the rest of that page is left for later |
| TreeStorage.StorageDone | clients/c/mpack.c:5169-5262 | when a container gets a vacant block, all containers' blocks, of open and finished ones, stay pairwise disjoint |
| TreeParsing.Tree.ReserveFill | clients/c/mpack.c:4984-5066 | reads of any size go on until the reservation is covered or nothing is there; no byte of the stream is lost |
| TreeParsing.Tree.ReserveBytes | clients/c/mpack.c:5083-5105 | bytes are reserved for the current node beyond those promised to others, or the parse pauses or fails |
| TreeParsing.Tree.AllocateChildren | clients/c/mpack.c:5196-5252 | the children get a block of nodes that nothing else uses, from the page, a page of their own or a fresh page |
| TreeParsing.Tree.PushStack | clients/c/mpack.c:5112-5167 | a level is pushed, the stack doubling when full, and lower levels stay |
| TreeParsing.Tree.ParseChildren | clients/c/mpack.c:5169-5262 | a container is opened with a byte promised to each child, or is left to be read again; the node limit trips exactly when the count exceeds it |
| TreeParsing.Tree.ParseNode | clients/c/mpack.c:5655-5684 | one node is read and the ledger kept, or nothing is lost and the failure is real |
| TreeParsing.Tree.ContinueParsing | clients/c/mpack.c:5692-5725 | the loop ends with a complete message the limit accepts, a pause, or an error that the whole data or the limit justifies |
| TreeParsing.Tree.LimitTripped | clients/c/mpack.c:5186-5190 | a limit trips only at a container, and without pauses or with a childless root only for a message that has too many nodes |
| TreeParsing.Tree.ParseStart | clients/c/mpack.c:5748-5837 | the previous message's bytes are dropped, and parsing starts when one byte is there |
| TreeParsing.Tree.TryParse | clients/c/mpack.c:5870-5885 | an attempt yields the next message of the stream, or pauses losing nothing, or fails because the data cannot be decoded; after an error it does nothing |
| TreeParsing.Tree.Parse | clients/c/mpack.c:5839-5868 | with the data in memory, parsing succeeds exactly when the message decodes and the node limit, if any, accepts its value; after an error it does nothing |
| TreeParsing.Tree.Extract | clients/c/mpack.c:5278-5652 | reading the finished nodes gives the value they stand for, and never reaches outside the data |
| TreeRuns.ParseAndDiscard | clients/c/mpack.c:5692-5868 | on every buffer the tree parser accepts exactly what the decoder accepts, builds its value, and ends where discard ends |
| TreeRuns.ParseStream | clients/c/mpack.c:5870-5885 | for every delivery and any pauses, the trees obtained are those of the whole stream, in order, and all of them when the stream is exhausted |
| TreeRuns.NodesFit | clients/c/mpack.h:6934-6952 | while a message is parsed, every byte present is consumed, owed to a level of the stack or a possible node, nodes handed out and possible nodes together never exceed the bytes present, and the level stays on the stack |
| TreeRuns.BlocksAreHandedOut | clients/c/mpack.c:5196-5252 | the children of every container of a tree, being parsed or complete, lie among the nodes and leave out the root; while parsing, none of them is still free |
| TreeRuns.BlocksNeverOverlap | clients/c/mpack.c:5196-5252 | no two containers of a tree, being parsed or complete, share a child |
| TreeRuns.DecodeTight | clients/c/mpack.c:3347-3798 | a value depends on no byte behind its end |
| TreeRuns.MessagesAreWhole | clients/c/kgd.c:1226-1234 | each message handed on is one value from its first byte to its last |
| TreeRuns.ParseMessages | clients/c/mpack.c:5839-5868 | the tree parser, given the messages that framing hands on, yields the values of the stream for every division into reads |
| TreeRuns.WriteThenParse | clients/c/mpack.c:2407-2779 | a value written by any run of calls is the value the tree parser extracts |
| TreeRuns.ParseWithin | clients/c/mpack.c:5839-5868 | in memory a message is accepted under a limit exactly when it decodes and is no container or has no more nodes than the limit; its blocks are disjoint |
| TreeRuns.ParseChildless | clients/c/mpack.c:5870-5885 | a message whose root has no children is never refused by a limit that accepts it, under every delivery and any pauses |
| TreeRuns.PauseUntilTooBig | clients/c/mpack.c:5186-5195 | every message whose root has children is refused under every limit by some delivery: its header alone, and pauses |
| TreeRuns.PairUnderLimitThree | clients/c/mpack.c:5186-5195 | the array [1, 2] under a limit of three: accepted in memory, refused after pauses behind its first byte; under a limit of two refused in memory |
| PendingCalls.Table.Claim | clients/c/kgd.c:860-878 | a free slot is claimed and cleared; a busy one is refused and left alone |
| PendingCalls.Table.Answer | clients/c/kgd.c:1000-1016 | an answer goes to whichever call holds its slot, or nowhere |
| PendingCalls.Table.Release | clients/c/kgd.c:886-923 | a slot is let go of: outside the critical section for a call that fails or is cut off, as for one not sent or timed out |
| PendingCalls.Table.Collect | clients/c/kgd.c:891-923 | a call returns what its slot holds, or is cut off; only a success empties and frees the slot there and then |
| PendingCalls.Table.WakeAll | clients/c/kgd.c:1249-1257 | every active slot is marked done, and no other |
| PendingCalls.StepKeepsOwned | clients/c/kgd.c:860-924 | in every state a slot is active exactly while one call in progress owns it |
| PendingCalls.RefusedIffSlotTaken | clients/c/kgd.c:860-872 | over every run, a new call is refused exactly when a live call has the same id modulo 64 |
| PendingCalls.SixtyFourAtOnce | clients/c/kgd.c:860-878 | any 64 calls with consecutive ids can hold their slots at once |
| PendingCalls.StepActsAsMap | clients/c/kgd.c:860-1016 | every such step keeps the table a map from message ids to answers, also after the end of the stream |
| PendingCalls.CarefulRunsGetOwn | clients/c/kgd.c:860-1016 | over every run from the start in which calls start in slots no stray answer can reach and the stream ends with nobody waiting, each call that ends with an answer ends with its own |
| PendingCalls.CallsGetOwnAnswers | clients/c/kgd.c:860-1016 | the same for every run from the start without a timeout, a close or a lost connection, with no condition on slots |
| PendingCalls.StrayAnswersMislead | clients/c/kgd.c:1000-1016 | the condition is exact: whenever a stray answer can reach a free slot, a call started there can be given it |
| PendingCalls.TimeoutMisleads | clients/c/kgd.c:891-902 | calls 0 and 64: after a timeout the second returns the first one's result |
| PendingCalls.WokenWithoutAnswer | clients/c/kgd.c:1249-1257 | every call, sent or about to be, that still waits when the stream ends can return success with no result |
| PendingCalls.EndOfStreamIsSafeIffAnswered | clients/c/kgd.c:1249-1257 | after the end of the stream every continuation gives every call its own answer if and only if nobody waited for one then |
| PendingCalls.EndOfStreamMisleads | clients/c/kgd.c:1249-1257 | a run from the start: call 0 is sent, the stream ends, and the call returns success although it has no answer |
| PendingMemory.StepKeepsTidy | clients/c/kgd.c:860-1016 | in such runs a live call's slot has no data but its own answer's, also while it is being let go |
| PendingMemory.CarefulRunsAccount | clients/c/kgd.c:860-1016 | in every state of such a run each stored result is pointed to by one slot, or has been freed or handed out once |
| PendingMemory.ResultsAreDisposedOfOnce | clients/c/kgd.c:808-923 | over every such run from the start no stored result is freed or handed out twice, and closing the client leaves none over |
| PendingMemory.StrayErrorFreesTwice | clients/c/kgd.c:904-908 | a run with a stray error after a result: the call that returns the error frees the result, and so does the next call in the slot |
| UploadCache.KeptIsMaximal | internal/upload/cache.go:67-83 | the entries evicted are exactly the longest unreferenced run at the back that room is needed from |
| UploadCache.VictimsAreDropped | internal/upload/cache.go:67-83 | the ids reported are those of the entries that left, from the back |
| UploadCache.StoreBounds | internal/upload/cache.go:67-96 | after a new entry the size is within the maximum, or one, or the back entry is referenced |
| UploadCache.StoreKeepsDistinct | internal/upload/cache.go:58-96 | no digest and no id occurs twice |
| UploadCache.OrderIsRecency | internal/upload/cache.go:61-65 | after every history of stores and releases the list is in order of last store |
| UploadCache.Cache.Lookup | internal/upload/cache.go:48-54 | finds the id stored for the digest, or nothing |
| UploadCache.Cache.Store | internal/upload/cache.go:58-96 | a hit adds a reference and moves to the front; a miss evicts from the back and enters at the front; both indexes and the list stay in step |
| UploadCache.Cache.Evict | internal/upload/cache.go:67-83 | removes exactly the victims from the list and both indexes |
| UploadCache.Cache.Release | internal/upload/cache.go:99-103 | takes one reference from the entry with that id, if there is one |
| Geometry.OtherWinsDoNotMatter | internal/engine/placement.go:63-97 | a placement's position depends on no window but its own |
| Geometry.VisibleIffHeld | internal/engine/placement.go:41-101 | a placement is visible at a cell if and only if the cell, counted from the corner of its pane or window and from the first line on display, holds what the placement is anchored to |
| Geometry.ColumnsAreNotClipped | internal/engine/placement.go:68-97 | outside tmux the column never hides a placement in a window; it may be shown beside the window |
| Geometry.ScrollingMoves | internal/engine/placement.go:72-78 | scrolling by k lines moves what stays visible by k rows the other way and by no column |
| Geometry.CountedFromCorner | internal/engine/placement.go:72-94 | the first line on display is at the corner of the window, and of its pane, and lines and columns count on from there |
| Geometry.WindowMoves | internal/engine/placement.go:77-94 | moving a window moves what stays visible in it the same way |
| Geometry.PaneMoves | internal/engine/placement.go:53-94 | moving a pane moves all that is visible in it, or in a window in it, the same way |
| EngineInvariants.RefreshedIsDrawn | internal/engine/engine.go:542-567 | the commands chosen by comparing old and new position leave the terminal showing the placement where it now is, or not at all |
| EngineInvariants.RedrawEachIs | internal/engine/engine.go:526-577 | redrawing in any order brings exactly the visited placements to their new position, on record and on the terminal |
| EngineInvariants.RedrawKeepsGood | internal/engine/engine.go:526-577 | after a redraw every placement is where its anchor now is |
| EngineInvariants.PlaceKeepsGood | internal/engine/engine.go:189-235 | a new placement is shown exactly if visible |
| EngineInvariants.RemoveEachKeepsGood | internal/engine/engine.go:237-267 | removing placements one by one, in any order, removes them from the terminal and leaves the others |
| EngineInvariants.HitKeepsGood | internal/engine/engine.go:269-278 | a cache hit adds one handle and one reference |
| EngineInvariants.TransmitIs | internal/engine/engine.go:280-297 | evicting takes no handle from anybody, whatever notifyEviction looks for |
| EngineInvariants.MissKeepsSound | internal/engine/engine.go:280-302 | a miss changes terminal and cache together: the new image comes, the victims go |
| EngineInvariants.FreeKeepsGood | internal/engine/engine.go:304-316 | freeing a handle releases the one reference it stood for |
| EngineInvariants.DisconnectHolders | internal/engine/engine.go:367-372 | a leaving client's references are exactly its handles, image by image |
| EngineInvariants.DisconnectKeepsGood | internal/engine/engine.go:356-380 | a disconnect releases them all; only placements at the client's dropped windows may lag |
| EngineInvariants.StepKeepsGood | internal/engine/engine.go:130-163 | every event, in any map order, keeps drawing, reference counts, cache and terminal, numbering, uploads and notifications right |
| EngineInvariants.RunsKeepGood | internal/engine/engine.go:60-100 | so does every run, at every state |
| EngineTheorems.IncrementalIsFull | internal/engine/engine.go:526-577 | in every good state the terminal shows exactly what a full redraw would show if and only if no visible placement waits at a window dropped by a disconnect |
| EngineTheorems.RedrawnIsFull | internal/engine/engine.go:318-354 | over every run, the terminal is a full redraw after each event that changes the geometry |
| EngineTheorems.ShownIsInside | internal/engine/placement.go:41-101 | over every run, what is shown after such an event is at the cell that holds what it is anchored to, inside the terminal or inside its active pane |
| EngineTheorems.DisconnectLeavesLag | internal/engine/engine.go:374-379 | a visible placement of another client lags after a disconnect exactly if its window was the leaving client's |
| EngineTheorems.DisconnectLagIsReachable | internal/engine/engine.go:356-380 | a run of four events from the start after which a placement is shown that a full redraw would not show |
| EngineTheorems.EvictionsFindNoHandle | internal/engine/engine.go:289-297 | no evicted image has a handle |
| EngineTheorems.NobodyIsEvicted | internal/engine/engine.go:511-522 | over every run no eviction is ever notified and no image is freed twice |
| EngineTheorems.HandlesNameTheirBytes | internal/engine/engine.go:269-302 | over every run whose uploaded bytes the hash tells apart, each handle names an image in the terminal with exactly the bytes its client uploaded, in a format and size that somebody uploaded them with |
| EngineTheorems.NotificationsTellTheTruth | internal/engine/engine.go:570-575 | over every run, the visibility told for a live placement alternates and ends with its current visibility |
| EngineTheorems.EraseEachIs | internal/engine/engine.go:433-439 | erasing in any order removes exactly the shown placements visited |
| EngineTheorems.CleanupLeavesUnheldImages | internal/engine/engine.go:426-452 | shutdown leaves no placement, frees each referenced image exactly once, and leaves exactly the cached images nobody holds |
| EngineTheorems.CleanupIsCompleteIffAllHeld | internal/engine/engine.go:426-452 | no image is left exactly when every cached image is referenced |
| EngineTheorems.FreedImageOutlivesShutdown | internal/engine/engine.go:426-452 | upload, free and shut down leaves the image in the terminal |
| EngineRequests.PlaceAdds | internal/engine/engine.go:189-235 | a place request is refused and nothing changes, or it adds one placement with the client, handle, anchor and look of the request and the image of that handle, and leaves the others as they were |
| EngineRequests.StepPlacements | internal/engine/engine.go:130-163 | after an event those placements are there that were and were not taken by their own client, and the one just granted |
| EngineRequests.PlacementsAreRequests | internal/engine/engine.go:189-267 | over every run, the placements are exactly the granted requests that their own clients have not taken away since, each with all that was asked for |
| EngineRequests.ShownAsRequested | internal/engine/engine.go:189-235 | over every run, whatever is on the screen has the look of the request it was placed by and the image that the request's handle named then |
| EngineRequests.StepHandles | internal/engine/engine.go:269-316 | an upload gives its client the smallest free handle, for an image in the terminal with the digest of the bytes; freeing and leaving take handles, and nothing else changes any |
| EngineRequests.SecondUploadSharesFirst | internal/engine/engine.go:271-278 | bytes that are cached are not transmitted again, whatever format and size come with them |
| EngineRequests.PaneMapIs | internal/engine/engine.go:347-354 | a pane id stands for a pane exactly when the last entry for it in the list is that pane |
| EngineRequests.StepGeometry | internal/engine/engine.go:318-380 | after each event panes, windows and size are what the event says, a scrolled window has the given first line and is otherwise the same, and nothing else changes them |
| EngineRequests.ScrollShifts | internal/engine/engine.go:318-325 | scrolling a window moves every placement that stays visible in it by as many rows |
| PlacementEngine.Engine.HandlePlace | internal/engine/engine.go:189-235 | replies and state as specified, including both error replies; `EngineRequests.PlaceAdds` says what they mean |
| PlacementEngine.Engine.HandleUnplace | internal/engine/engine.go:237-253 | removes only a placement of that client |
| PlacementEngine.Engine.HandleUnplaceAll | internal/engine/engine.go:255-267 | removes all placements of a client, in some order |
| PlacementEngine.Engine.AssignHandle | internal/engine/engine.go:493-507 | assigns the smallest positive handle the client does not use |
| PlacementEngine.Engine.HandleUpload | internal/engine/engine.go:269-302 | shares a cached image or transmits a new one, evicting and notifying as specified |
| PlacementEngine.Engine.NotifyEviction | internal/engine/engine.go:511-522 | exactly the handles for the image are taken away, and each holder is told once |
| PlacementEngine.Engine.HandleFree | internal/engine/engine.go:304-316 | frees one handle and releases its image |
| PlacementEngine.Engine.RecomputePlacements | internal/engine/engine.go:526-577 | is a redraw of all placements in some order, batched, with nothing left in the batch |
| PlacementEngine.Engine.Refresh | internal/engine/engine.go:542-567 | the branches issue the commands that take a placement from where it was to where it is |
| PlacementEngine.Engine.HandleUpdatePanes | internal/engine/engine.go:347-354 | replaces the panes, the last entry for an id winning, and redraws |
| PlacementEngine.Engine.HandleClientDisconnect | internal/engine/engine.go:356-380 | removes the client's placements, handles, references and windows without redrawing |
| PlacementEngine.Engine.FreeImages | internal/engine/engine.go:440-451 | frees every referenced image, each once, in some order |
| PlacementEngine.Engine.Handle | internal/engine/engine.go:130-163 | each event leads to a state its specification allows, and everything is kept |
| PlacementEngine.Engine.HandleAll | internal/engine/engine.go:60-100 | after any events, a terminal that interprets everything written so far, plain or through tmux, shows what the engine believes, but for what was placed off the screen |
| PlacementEngine.Engine.Run | internal/engine/engine.go:60-100 | any run of events followed by the shutdown leaves nothing on the screen and no image that anybody holds, also on the terminal that interprets everything written |
| PlacementEngine.ScreenShowsEngine | internal/graphics/tty.go:35-111 | whenever the engine is between events, interpreting everything written shows what the engine believes is shown, without placements at negative positions, which are never written |
| Dispatch.StepKeepsGood | internal/rpc/dispatch.go:12-40 | every step of every caller and of the engine keeps each request tracked: queued or in hand and unanswered, or answered once |
| Dispatch.EngineNeverBlocks | internal/engine/engine.go:468-490 | in every run, whenever the engine is to reply, the reply channel has room |
| Dispatch.HeldUpIffFull | internal/rpc/dispatch.go:12-40 | before the engine is done a caller is held up in sending exactly while 256 events are queued |
| Dispatch.FirstSentFirstTaken | internal/rpc/dispatch.go:12-40 | over every run, events are taken in the order in which they were sent, whoever sent them |
| Dispatch.ShutdownProgresses | internal/engine/engine.go:468-490 | every step of anybody during a shutdown brings its end nearer |
| Dispatch.ShutdownIsBounded | internal/engine/engine.go:468-490 | without new calls a shutdown takes a bounded number of steps in every interleaving |
| Dispatch.ShutdownEndsReleased | internal/engine/engine.go:60-66 | where a shutdown cannot go on, the engine is done and no caller is stuck |
| Dispatch.GapLeavesEventUnanswered | internal/rpc/dispatch.go:22-25 | a run in which an accepted event is never answered |
| Dispatch.AnyoneCanFallInTheGap | internal/rpc/dispatch.go:22-25 | that can happen to every caller still sending after the engine's last look |
| Dispatch.AnsweredIffSentInTime | internal/rpc/dispatch.go:22-40 | over every run that has taken the last look, a request that wants a reply is answered, once, if and only if it was sent before that look; while its caller waits, the reply can be received or the event is still in the channel |
| Text.NumberReadsBack | internal/kitty/kitty.go:48-117 | printed integers, negative ones included, read back and contain no separator |
| Text.NumberText | internal/kitty/kitty.go:48-117 | the digit k places from the right is the number divided by ten to the k, modulo ten; no zero comes first, and a negative number has a minus sign in front |
| Text.SymbolsInRows | internal/kitty/kitty.go:30-30 | the symbols are those of table 1 of RFC 4648 |
| Text.Base64Group | internal/kitty/kitty.go:30-30 | each group of four symbols stands for three bytes, six bits a symbol from the left, with padding for one or two bytes |
| Text.Base64ReadsBack | internal/kitty/kitty.go:30-30 | every byte string reads back from its base64, which contains no escape |
| Kitty.TokenReadsBack | internal/kitty/kitty.go:29-135 | an escape is recognised whatever follows it, with its keys and payload |
| Kitty.ChunksAre | internal/kitty/kitty.go:166-177 | chunks are full but for the last and together are the text |
| Kitty.ChunksFit | internal/kitty/kitty.go:29-60 | each chunk is at most 4096 long and a multiple of 4, and only the last says that no more follows |
| Kitty.PlaceReadsBack | internal/kitty/kitty.go:79-114 | a placement at a valid position reads back with its position and every key |
| Kitty.TransmitReadsBack | internal/kitty/kitty.go:29-60 | an upload, chunked or not, reads back with its id and original bytes, and with format and size where the format is rgb or rgba |
| Kitty.DeleteReadsBack | internal/kitty/kitty.go:124-134 | a deletion reads back, with or without a placement and freeing |
| Kitty.StreamReadsBack | internal/kitty/kitty.go:29-135 | the escapes of any list of commands parse back to those commands |
| Kitty.WrapReadsBack | internal/kitty/kitty.go:143-147 | tmux passes on exactly what was wrapped |
| KittyText.PlaceText | internal/kitty/kitty.go:79-114 | a placement is printed letter by letter as the protocol has it: its cell from one, image, id, columns, rows, source rectangle and order, with nothing said of zeros |
| KittyText.DeleteText | internal/kitty/kitty.go:124-134 | a deletion is printed letter by letter, with a capital where the image goes too |
| KittyText.CodeIsPrinted | internal/kitty/kitty.go:154-163 | rgb is 24, rgba is 32 and everything else 100 |
| KittyText.SmallUploadText | internal/kitty/kitty.go:29-43 | an upload of up to 4096 symbols is one escape with format, id, the size of raw pixels and the base64 |
| KittyText.ChunkAt | internal/kitty/kitty.go:166-177 | the i-th chunk is the i-th stretch of the text, full unless the text ends |
| KittyText.ChunkText | internal/kitty/kitty.go:45-60 | piece i of a longer upload carries symbols 4096 i onward; the first says what is uploaded, and all but the last that more follows |
| KittyText.UploadReadsBack | internal/kitty/kitty.go:29-60 | an upload of rgb or rgba reads back as it was given, any other as a PNG with the same bytes and no size |
| KittyText.WrapText | internal/kitty/kitty.go:143-147 | a passthrough is the text in its frame, every escape doubled and nothing else changed |
| TTYOutput.SplitChunks | internal/kitty/kitty.go:166-177 | the loop cuts off the specified chunks |
| TTYOutput.SerializeChunks | internal/kitty/kitty.go:29-60 | one escape per chunk, the header in the first |
| TTYOutput.SerializePlace | internal/kitty/kitty.go:79-114 | the specified escapes, and nothing at a negative position |
| TTYOutput.DeleteIsPrinted | internal/kitty/kitty.go:124-134 | the deletion's text is its escape |
| TTYOutput.TTYGraphics.Transmit | internal/graphics/tty.go:35-56 | one write per chunk, at once even in a batch, and the stream stays readable |
| TTYOutput.TTYGraphics.Send | internal/graphics/tty.go:89-98 | the escape is wrapped if need be and written or batched |
| TTYOutput.TTYGraphics.BeginBatch | internal/graphics/tty.go:100-103 | an unflushed batch is dropped |
| TTYOutput.TTYGraphics.FlushBatch | internal/graphics/tty.go:105-111 | a batch with anything in it goes out in one write behind everything sent before |
| TTYOutput.TTYGraphics.WritesReadBack | internal/graphics/tty.go:35-111 | whatever was sent, plain or through tmux, batched or not, the terminal parses back to the same commands |
| Interpreter.AllEffectiveShows | internal/kitty/kitty.go:29-135 | what commands amount to on the wire shows what they show, but for sizes the format carries itself and placements off the screen |
| Interpreter.ShowsAsSaid | internal/graphics/tty.go:35-87 | each number of a command ends up on the screen as what it says, and nothing else changes |
| Interpreter.SeenAsSized | internal/kitty/kitty.go:35-42 | an image in rgb or rgba is seen with the size given, any other with none |

## Left out

- Sockets, the terminal device, ioctl, signals, the tmux subprocess, logging, command line, auto-launch and path resolution: input and output around the modelled code.
- The Python, Node, .NET, Rust and Go clients: their decoding is done by libraries that are not part of this repository.
- `internal/rpc/server.go`: session takeover and reaping follow the wall clock.
- Extension types, timestamps, tracking, printing, file readers and writers, v4 compatibility and arithmetic on floats: not compiled into the client or not used by it; floats are opaque bits.
- Allocation failure and sizes beyond `SIZE_MAX`: allocation succeeds and sizes are unbounded.
- Calls on a writer after an error was flagged on it: the model's runs never flag one.
- The builder's pages are values in a sequence rather than memory linked by pointers, with build headers kept beside the bytes; sizes, alignment and page boundaries are those of the code, aliasing of pages is not captured.
- The tree parser's buffer, stack and nodes are sequences that the methods reassign; node addresses are indices, so moving a grown buffer or stack is not captured.
- TreeParsing.Tree.ReserveFill: without the `max_size` limit and without errors of the read function, so it pauses or runs out where the code may also refuse a size or report an input error.
- TreeParsing.Tree.AllocateChildren: without the fixed node pool and its failure; nodes come from pages, as with an allocator.
- The depth counter of containers nested in a build is unbounded where the code has 32 bits.
- Writing.Writer.WriteStr: strings of up to 0xffffffff bytes, as the 32-bit length parameter allows, but not the UTF-8 checked variants.
- The parsing of a response into its result and error, and of notifications, in `process_message`: the pending table takes the outcome as given.
- The bytes of a request that was only partly sent: such a request counts as not sent.
- Graphics commands that fail, and an engine without graphics or notifier: commands take effect and both are there.
- Image and placement ids beyond 32 bits: ids never wrap around.
- Placements are values in the engine's map, updated by storing them again; the code keeps pointers that nothing else holds.
- The hello, list, status and stop requests, and the change of colours: they leave the modelled state alone and report parts of it.
- The order of notifications for different placements: each placement's own sequence is kept.
- What a batch does for tearing: the commands of a redraw take effect one by one in the engine's view, and together with the batch's one write in what is written.
- Fairness between cancelling and taking events while the engine runs: the bound on a shutdown starts when the engine drains.
