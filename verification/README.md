# Verified core of wedb

A Dafny model of the parts of wedb whose correctness is least visible from the code, with proofs over all inputs, all
runs or all reachable states. `dafny verify dfyconfig.toml` checks the whole project.

| file | models |
|---|---|
| `GroupCommit.dfy` | the leader/follower group-commit pipeline: its lock-protected state as a class, and all interleavings of its callers as a transition system |
| `Glob.dfy`, `GlobText.dfy`, `NsPrefix.dfy` | the one-backtrack-point glob matcher and the tenant prefixes that are matched through it |
| `Record.dfy`, `RecordLayout.dfy` | the migration record codec, its wire format and its streaming chunker |
| `Align.dfy`, `Flush.dfy`, `Segments.dfy`, `LogDevice.dfy` | sector rounding, the flush kernel over a byte medium, the segmented device against one flat address space, and a log flushed to, truncated on and read back from that device |
| `Words.dfy`, `BitPos.dfy`, `BitCount.dfy`, `BitUpdate.dfy`, `BitOp.dfy` | the word-wide bitmap commands against per-bit definitions |
| `Crc64.dfy`, `CrcLaws.dfy` | the table-driven CRC-64 against the bitwise one, and the hash as a polynomial remainder |
| `Varint.dfy` | the order-preserving prefix varint |
| `Config.dfy` | the CONFIG slot table over every sequence of CONFIG SET calls |
| `Seal.dfy`, `SealLayout.dfy` | the checkpoint metadata stream and its integrity seal |
| `Bytes.dfy`, `Layout.dfy`, `Wrappers.dfy` | bytes, little-endian integers, fields at offsets, Option and Result |

Conventions. Machine integers are mathematical integers with their bounds written out; bitwise operations are defined on
bits (as recursive functions on naturals, or on words as bit strings, most significant bit first). `usize` is 64 bits
wide. Fallible results are `Result` values.

What is taken from outside as a parameter:

- Group commit: `watermark()` reads the durable watermark, which only grows; a step that succeeds returns a position
  between the watermark read before it and the durable watermark after it. A task may be cancelled or panic at every
  await point and inside every call into the injected step. The two statements between the end of the cascade and the
  disarming of the guard contain no such point; `DropInReturningWindowBreaksSuccessor` shows that this matters.
- Flush: whether the pool lends a buffer, what the engine copies, how much of a write is transferred and which of its
  addresses reach the medium.
- Segmented device: a list of outcomes says what the host does to each open, read, write, removal, directory sync and
  buffer lease: all of it, part of it, or an error that transfers nothing.
- Chunker: at which send the network fails.
- Seal: CRC-32 and the metadata decoder are arbitrary functions; a streaming digest equals the digest of the
  concatenated bytes.

Where the code and its comments or the expected law disagree, the model follows the code:

- The glob matcher answers false for the pattern `*` on the empty text (`Glob.GlobMatchOpt`), which shows through
  tenant prefixes as `NsPrefix.EmptyChannelException`.
- The comment on `strip` says that no domain's keys open another's; that holds for equal depths only
  (`NsPrefix.StripInverts`, `NsPrefix.SubdomainIsNotSeparated`, `NsPrefix.PrefixExact`).
- A chunk of 2^31 bytes or more loses its length to the continuation flag; `Record.ChunkingIsLosslessIff` gives the
  exact condition. A full frame count wraps when a frame is prepended (`Record.PrependParses`).
- The CONFIG table takes its seeds as they come. Startup validation bounds every knob that reaches it except
  `aof-sync-max-lag-bytes` (`Config.ValidatedInRangeIff`, `Config.UncheckedLagBudget`); tables built directly from
  options can also hold an attach timeout beyond 32 bits (`Config.OversizedAttachTimeout`). `Config.SeedsDeclaredIff`
  gives the exact condition under which the bounds hold from the start and `Config.GetThenSet` what happens otherwise.
- Zero is an accepted start for `aof-commit-freq`, and then feeding its GET text back is an error that changes nothing.

## Model

| member | source | states |
|---|---|---|
| GroupCommit.Pipeline.constructor | wedb/wbase/src/group_commit.rs:95-102 | a new pipeline has no leader, no waiters and no channels: the locked part of every initial protocol state |
| GroupCommit.Pipeline.Enter | wedb/wbase/src/group_commit.rs:121-141 | a target at or below the watermark is answered at once and registers nothing; otherwise exactly one waiter is appended, with a fresh reply channel under a sitting leader, without one for the caller that becomes leader; on the locked part of any protocol state this is the protocol's entry action, with the same continuation of the task |
| GroupCommit.Pipeline.BatchTarget | wedb/wbase/src/group_commit.rs:195-199 | the batch target is the larger of the tail and the largest registered target, so it covers every waiter; it is the one the protocol's collect action takes in any state with this locked part |
| GroupCommit.Pipeline.RetainLagging | wedb/wbase/src/group_commit.rs:213-222 | the retain pass sends the position to exactly the waiters it covers and keeps the others in order |
| GroupCommit.Pipeline.SettleRound | wedb/wbase/src/group_commit.rs:209-240 | leadership is released exactly when no waiter is left and no new tail lies beyond the position; on the locked part of any protocol state this is the settle action: drained, the leader returns with the position; otherwise it goes on, yielding exactly after a round without progress |
| GroupCommit.Pipeline.Broadcast | wedb/wbase/src/group_commit.rs:243-252 | on a step error every registered follower is told it failed, the list is emptied and leadership released; this is the protocol's broadcast on the locked part of any state |
| GroupCommit.LeaderGuard.constructor | wedb/wbase/src/group_commit.rs:71-75 | a guard starts armed on its pipeline |
| GroupCommit.LeaderGuard.Drop | wedb/wbase/src/group_commit.rs:78-91 | dropping an armed guard is the protocol's broadcast on the locked part of any state; dropping a disarmed one changes nothing |
| GroupCommit.RetainOne | wedb/wbase/src/group_commit.rs:213-222 | one turn of the retain loop: the head is answered or kept and the rest is still to do |
| GroupCommit.Filtered | wedb/wbase/src/group_commit.rs:213-222 | covered and lagging waiters split the list: each keeps distinct entries and together they hold every one |
| GroupCommit.Removed | wedb/wbase/src/group_commit.rs:156-166 | a waiter whose sender is lost leaves the list, and nobody else does |
| GroupCommit.AllDelivered | wedb/wbase/src/group_commit.rs:213-222 | a delivery appends the answer to exactly the channels whose sender is in the delivered list, once |
| GroupCommit.RegisterKeeps | wedb/wbase/src/group_commit.rs:126-140 | registering a follower or a new leader keeps the invariant of the whole protocol state |
| GroupCommit.DoneKeeps | wedb/wbase/src/group_commit.rs:123-125 | the immediate answer keeps the invariant |
| GroupCommit.EnvironmentKeeps | wedb/wbase/src/group_commit.rs:261-275 | the durable watermark growing on its own keeps the invariant |
| GroupCommit.LeaderStepKeeps | wedb/wbase/src/group_commit.rs:193-206 | collecting a batch, reading the watermark, a finished or failed step and the yield keep the invariant |
| GroupCommit.SettleTask | wedb/wbase/src/group_commit.rs:208-240 | a settle ends the leader's term exactly when its position covers every waiter and the tail, returning that position; otherwise the leader goes on with its own entry still registered or already covered |
| GroupCommit.SettleKeeps | wedb/wbase/src/group_commit.rs:208-240 | settling a round, or panicking inside it, keeps the invariant |
| GroupCommit.BroadcastKeeps | wedb/wbase/src/group_commit.rs:243-252 | the error arm and the guard drop keep the invariant |
| GroupCommit.CallerStepKeeps | wedb/wbase/src/group_commit.rs:149-168 | disarming hands on the answer unchanged, a woken follower is told what its channel carries or, its sender lost, what the watermark says; these and giving up keep the invariant |
| GroupCommit.LoseKeeps | wedb/wbase/src/group_commit.rs:156-166 | a sender that disappears unsent keeps the invariant |
| GroupCommit.StepKeeps | wedb/wbase/src/group_commit.rs:121-256 | every enabled action of every task keeps the invariant |
| GroupCommit.Reachable | wedb/wbase/src/group_commit.rs:121-256 | the invariant holds in every state of every interleaving from the empty pipeline |
| GroupCommit.SuccessIsDurable | wedb/wbase/src/group_commit.rs:121-256 | in every interleaving of entries, steps, errors and cancellations, whoever is told success with c, at entry, as follower (including the closed-channel fallback) or as leader, has its own target <= c <= the durable watermark |
| GroupCommit.FollowerConservation | wedb/wbase/src/group_commit.rs:126-133 | in every reachable state a registered follower is in exactly one place: waiting under a live leader with an unused channel, answered exactly once, or its sender was lost by the environment, and the last never happens unless the environment does it |
| GroupCommit.NothingLost | wedb/wbase/src/group_commit.rs:213-222 | no action of the protocol itself ever loses a sender |
| GroupCommit.NobodyStranded | wedb/wbase/src/group_commit.rs:78-91 | whenever nobody leads, by normal exit, step error or guard drop, the list is empty and every follower has its answer |
| GroupCommit.ToldBy | wedb/wbase/src/group_commit.rs:121-256 | every task that has been told anything was told so by one step of the run: at entry the watermark covering it, as follower what its channel carried (or, its sender lost, what the watermark said), as leader the position of the round that drained, or failure after a failed step |
| GroupCommit.FollowerIsToldItsChannel | wedb/wbase/src/group_commit.rs:155-156 | in every reachable state a finished follower whose sender was not lost was told exactly the one answer on its channel |
| GroupCommit.FollowerWoke | wedb/wbase/src/group_commit.rs:149-166 | every finished follower woke in some state of the run, with its channel's answer there or, its sender lost, with success exactly when that state's watermark covered its target |
| GroupCommit.AnsweredBy | wedb/wbase/src/group_commit.rs:213-252 | every answer on a channel goes back to a settled position that covers the follower, or to a failed or dropped term |
| GroupCommit.DrainTellsLeader | wedb/wbase/src/group_commit.rs:225-232 | a settle ends the leader's term exactly when the position covers every waiter and the tail, and then the leader is told that position |
| GroupCommit.ToldForever | wedb/wbase/src/group_commit.rs:180-256 | what a task was told is never taken back in any run, and a leader whose step failed is told failure from then on |
| GroupCommit.UntoldBy | wedb/wbase/src/group_commit.rs:78-90 | a task that ended untold did so because its armed guard was dropped, or because its caller gave up waiting |
| GroupCommit.TargetEntered | wedb/wbase/src/group_commit.rs:121-141 | every task of every reachable state holds the target it entered with |
| GroupCommit.CascadeStep | wedb/wbase/src/group_commit.rs:193-241 | wherever the cascade stands, one step of the run put it there: batch targets are the maximum of tail and registered targets, a step runs only for a target beyond the watermark, the position to settle is what the step returned or else the watermark, and a yield follows a round without progress |
| GroupCommit.ChannelsGrow | wedb/wbase/src/group_commit.rs:211-252 | an action withdraws no channel and no answer |
| GroupCommit.AnswersAreFinal | wedb/wbase/src/group_commit.rs:211-252 | over any stretch of any run an answer once sent stays the only one |
| GroupCommit.OneStepInFlight | wedb/wbase/src/group_commit.rs:193-206 | at most one physical step is in flight, and only under the leading flag |
| GroupCommit.GuardDropEndsItsOwnTerm | wedb/wbase/src/group_commit.rs:78-91 | when a guard drop takes effect nobody else leads and no other task changes, so a successor is never reset |
| GroupCommit.DropInReturningWindowBreaksSuccessor | wedb/wbase/src/group_commit.rs:180-188 | why the disarm must follow the release without interruption: from any drained settle a successor can already lead, and the drop body run in that window would clear the successor's flag |
| Glob.RangeIsInterval | wedb/wbase/src/glob.rs:22-36 | the wrapping-subtraction range test is the closed interval between the two end points in either order, folded after ordering when case is ignored |
| Glob.ScanOne | wedb/wbase/src/glob.rs:57-80 | one turn of the bracket scan consumes one item and adds exactly that item's bytes to the class |
| Glob.ScanEnd | wedb/wbase/src/glob.rs:57-84 | the scan stops at the closing bracket or the end of the pattern with nothing left to add |
| Glob.MatchBracket | wedb/wbase/src/glob.rs:48-85 | the loop accepts exactly the bytes of the class, and how much pattern it consumes depends on the pattern alone |
| Glob.StarWitness | wedb/wbase/src/glob.rs:104-163 | a star matches only if what follows it matches from some later position |
| Glob.EarlierStarIsSubsumed | wedb/wbase/src/glob.rs:156-162 | once a new star or the end of the text is reached, retrying the previous star cannot help: remembering the last star is enough |
| Glob.StarStep | wedb/wbase/src/glob.rs:107-119 | a run of stars becomes one backtrack point and keeps the loop's invariant; a trailing star decides the match |
| Glob.ElementStep | wedb/wbase/src/glob.rs:120-151 | consuming one accepted element keeps the invariant |
| Glob.Mismatch | wedb/wbase/src/glob.rs:156-162 | a mismatch without a star refutes the match; with one, resuming one byte later keeps the invariant |
| Glob.Exhausted | wedb/wbase/src/glob.rs:165-170 | once the text is used up the match holds exactly when only stars remain |
| Glob.MatchElement | wedb/wbase/src/glob.rs:120-151 | one non-star element (literal, escape, any byte, class) accepts exactly the bytes it denotes and consumes its own length |
| Glob.GlobMatchOpt | wedb/wbase/src/glob.rs:94-171 | for every pattern, every non-empty text and both case modes the loop terminates with exactly the answer of the nondeterministic definition; the empty text is matched by the empty pattern only |
| Glob.LastOfRun | wedb/wbase/src/glob.rs:108-110 | skips to the last star of a run |
| Glob.OnlyStars | wedb/wbase/src/glob.rs:165-170 | decides whether only stars remain |
| GlobText.LiteralMatches | wedb/wbase/src/glob.rs:8-14 | a pattern of literal bytes matches exactly the text it spells, byte for byte, or up to the case of ASCII letters where case is ignored |
| GlobText.Wildcards | wedb/wbase/src/glob.rs:107-144 | a star matches everything, a question mark any one byte, an escape the byte behind it, a trailing escape itself |
| GlobText.OneByteClass | wedb/wbase/src/glob.rs:48-85 | `[x]`, the unclosed `[x` and `[^x]` accept exactly x, x, and all but x |
| GlobText.RangeAndEscape | wedb/wbase/src/glob.rs:22-36 | `[x-y]` accepts exactly the bytes between its ends in either order; an escaped class byte accepts itself alone in both modes |
| GlobText.CaseOfTextIsIgnored | wedb/wbase/src/glob.rs:8-36 | where case is ignored, changing the case of any letters of the text changes no answer, for patterns whose classes escape nothing |
| GlobText.EscapedClassByteKeepsCase | wedb/wbase/src/glob.rs:57-66 | that proviso is needed: an escaped class byte compares exactly even where case is ignored |
| NsPrefix.Prefix.Push | wedb/wbase/src/ns_prefix.rs:54-69 | the used part grows by the decimal digits of the segment and one delimiter |
| NsPrefix.New | wedb/wbase/src/ns_prefix.rs:73-75 | a one-segment prefix holds exactly the encoding of its domain |
| NsPrefix.Join | wedb/wbase/src/ns_prefix.rs:79-81 | any second segment fits behind any first one |
| NsPrefix.DigitsFit | wedb/wbase/src/ns_prefix.rs:23-27 | every 64-bit number has at most 20 digits, so two segments never overrun the 42-byte buffer |
| NsPrefix.ValueOfDigits | wedb/wbase/src/ns_prefix.rs:54-69 | decimal text determines its number |
| NsPrefix.DigitPlaces | wedb/wbase/src/ns_prefix.rs:54-69 | each digit of a segment counts the powers of ten behind it, and only zero opens with a zero |
| NsPrefix.SegmentSpelled | wedb/wbase/src/ns_prefix.rs:21-22 | a segment is the digits and one colon |
| NsPrefix.SegmentSplits | wedb/wbase/src/ns_prefix.rs:99-106 | because of the delimiter one segment's text opens another's only if the numbers are equal |
| NsPrefix.PrefixExact | wedb/wbase/src/ns_prefix.rs:99-106 | exactly when one domain's prefix opens another domain's key, at any two depths |
| NsPrefix.StripInverts | wedb/wbase/src/ns_prefix.rs:91-106 | strip undoes isolate in the same domain and refuses every other domain of the same depth |
| NsPrefix.SubdomainIsNotSeparated | wedb/wbase/src/ns_prefix.rs:99-106 | across depths it does not refuse: a one-segment domain strips the keys of its own two-segment subdomains, contrary to the comment |
| NsPrefix.LiteralPrefix | wedb/wbase/src/ns_prefix.rs:91-97 | a prefix free of glob metacharacters matches itself and nothing else, in both case modes |
| NsPrefix.IsolatedMatch | wedb/wbase/src/ns_prefix.rs:91-97 | under the glob definition, isolated pattern and isolated text match exactly when the domains are equal and the bare ones match |
| NsPrefix.TenantIsolation | wedb/wbase/src/ns_prefix.rs:91-97 | for any two prefixes of domains of equal depth: isolated pattern and channel never match across domains, and within one they match as without prefixes for every non-empty channel |
| NsPrefix.MatchIsolated | wedb/wbase/src/ns_prefix.rs:91-97 | the matching loop itself, run on an isolated pattern and an isolated channel, answers exactly that; on the empty channel it accepts exactly patterns of stars within the domain |
| NsPrefix.EmptyChannelException | wedb/wbase/src/ns_prefix.rs:91-97 | on the empty channel the prefix changes the answer exactly for a non-empty pattern of stars |
| Record.SegRoundTrip | wedb/wconn/src/record.rs:321-340 | taking a length-prefixed segment returns what was written and leaves what follows |
| Record.SegCanonical | wedb/wconn/src/record.rs:321-332 | an accepted segment is exactly the writer's bytes |
| Record.TicksRoundTrip | wedb/wconn/src/record.rs:358-386 | signed expiry ticks survive their unsigned eight bytes, in both directions |
| Record.RecRoundTrip | wedb/wconn/src/record.rs:358-386 | a record body parses back to its record and leaves what follows |
| Record.RecCanonical | wedb/wconn/src/record.rs:358-386 | an accepted record body is exactly the encoding of the record read |
| Record.ChunkRoundTrip | wedb/wconn/src/record.rs:403-513 | chunk bytes and continuation flag survive for lengths below 2^31 |
| Record.ChunkCanonical | wedb/wconn/src/record.rs:403-513 | an accepted chunk is exactly its own encoding |
| Record.StreamRoundTrip | wedb/wconn/src/record.rs:644-666 | a tree-stream frame parses back |
| Record.StreamCanonical | wedb/wconn/src/record.rs:403-513 | an accepted tree-stream frame is exactly its own encoding |
| Record.DomainRoundTrip | wedb/wconn/src/record.rs:228-254 | a domain-context frame parses back |
| Record.DomainCanonical | wedb/wconn/src/record.rs:228-254 | an accepted domain-context frame is exactly its own encoding |
| Record.TwoSegsRoundTrip | wedb/wconn/src/record.rs:343-349 | a frame of two segments parses back |
| Record.TwoSegsCanonical | wedb/wconn/src/record.rs:343-349 | two accepted segments are exactly their own encoding |
| Record.ElementRoundTrip | wedb/wconn/src/record.rs:686-697 | a vector element frame parses back |
| Record.ElementCanonical | wedb/wconn/src/record.rs:403-513 | an accepted vector element frame is exactly its own encoding |
| Record.FrameRoundTrip | wedb/wconn/src/record.rs:403-513 | parsing inverts encoding for each of the eight frame kinds, whatever follows |
| Record.FrameCanonical | wedb/wconn/src/record.rs:403-513 | every accepted frame is the encoding of what it parses to, so no two byte strings mean one frame |
| Record.FramesRoundTrip | wedb/wconn/src/record.rs:403-513 | the same for any list of frames, which also never has more frames than bytes |
| Record.FramesCanonical | wedb/wconn/src/record.rs:403-513 | the same for any accepted list |
| Record.PayloadRoundTrip | wedb/wconn/src/record.rs:552-560 | a counted payload of any list of encodable frames parses to that list, even with bytes left over; of 2^32 frames or more the receiver reads as many as the narrowed count announces |
| Record.PayloadCanonical | wedb/wconn/src/record.rs:403-513 | an accepted payload opens with the encoding of exactly the frames it yields |
| RecordLayout.RecordLayout | wedb/wconn/src/record.rs:520-526 | kinds 1 and 2 byte by byte: kind 1 for strings and 2 for envelopes, key and value behind four-byte little-endian lengths, two's-complement ticks in the last eight bytes |
| RecordLayout.ChunkLayout | wedb/wconn/src/record.rs:615-620 | kind 3: the length with the continuation flag in its top bit, then the bytes |
| RecordLayout.StreamLayout | wedb/wconn/src/record.rs:644-662 | kind 4: object type, next expiry and expiry in seventeen bytes, then the bytes behind their length |
| RecordLayout.TwoSegmentLayout | wedb/wconn/src/record.rs:343-348 | kinds 5 and 8: two length-prefixed segments |
| RecordLayout.ElementLayout | wedb/wconn/src/record.rs:686-697 | kind 6: four length-prefixed segments |
| RecordLayout.DomainLayout | wedb/wconn/src/record.rs:228-239 | kind 7: four eight-byte words, virtual namespace, virtual database, namespace, database |
| RecordLayout.PayloadLayout | wedb/wconn/src/record.rs:552-560 | a payload opens with its four-byte count and holds each frame behind those before it |
| RecordLayout.SegmentTaken | wedb/wconn/src/record.rs:321-332 | a segment is refused for a short length or short bytes, each by its own error, and otherwise taken whole |
| RecordLayout.FrameRefused | wedb/wconn/src/record.rs:403-513 | the error for an empty frame, an unknown kind and a missing fixed part of each kind |
| RecordLayout.RecordRefused | wedb/wconn/src/record.rs:358-386 | a record cut inside its ticks is refused as such |
| RecordLayout.ChunkRefused | wedb/wconn/src/record.rs:403-513 | a chunk cut inside its bytes is refused as such |
| RecordLayout.TruncationIsRefused | wedb/wconn/src/record.rs:403-513 | no payload of encodable frames can be cut short anywhere unnoticed |
| Record.ParseMigrationPayload | wedb/wconn/src/record.rs:403-513 | the cursor loop computes the recursive definition of parsing, errors included, on every input |
| Record.PrependParses | wedb/wconn/src/record.rs:564-574 | the prepended frame comes first, the old frames follow and the count rises by one; a count that is already 2^32-1 wraps and the receiver sees no frames; a payload too short for a count becomes the frame alone |
| Record.WriteRecordFrame | wedb/wconn/src/record.rs:520-526 | appends the record's frame, of exactly the announced length, opening with kind 1 for a string and 2 for an envelope |
| Record.EncodeMigrationPayload | wedb/wconn/src/record.rs:531-539 | the loop builds the counted payload of all items in order |
| Record.PiecesConcat | wedb/wconn/src/record.rs:590-603 | the six pieces the chunker walks through concatenate to the frame that is never built |
| Record.CursorStep | wedb/wconn/src/record.rs:623-633 | one copy moves bytes from the current piece to the chunk and loses none |
| Record.FillChunk | wedb/wconn/src/record.rs:622-633 | the inner loop takes exactly the next bytes and leaves the rest |
| Record.SendChunkedRecord | wedb/wconn/src/record.rs:582-640 | what is sent is the frame cut into consecutive chunks, flagged on all but the last; a failing send stops after the chunks before it; a zero limit sends nothing and reports success |
| Record.ChunkPayloadParses | wedb/wconn/src/record.rs:403-513 | each chunk payload parses to one chunk with its bytes and flag |
| Record.ChunksReassemble | wedb/wconn/src/record.rs:582-640 | concatenating the parsed chunks gives back exactly the bytes that were cut |
| Record.ChunkedRecordRoundTrip | wedb/wconn/src/record.rs:389-395 | end to end: sent chunks, reassembled and parsed, give back the record, for every record and every limit up to 2^31-1 |
| Record.ChunkPayloadReads | wedb/wconn/src/record.rs:403-513 | for a chunk of any length the receiver reads its length modulo 2^31 |
| Record.ReassembledLength | wedb/wconn/src/record.rs:582-640 | a cut with a chunk of 2^31 bytes or more always loses bytes |
| Record.ChunkingIsLosslessIff | wedb/wconn/src/record.rs:582-640 | cutting is lossless exactly when every chunk is shorter than 2^31 |
| Align.MaskLow | wedb/wbase/src/align.rs:43-52 | masking with a power of two less one takes the remainder |
| Align.MaskHigh | wedb/wbase/src/align.rs:43-52 | masking with the complement clears the remainder |
| Align.ShiftDivides | wedb/wdev/src/chunk.rs:70-82 | shifting by the trailing zeros of a power of two divides by it |
| Align.FloorIsGreatest | wedb/wbase/src/align.rs:43-52 | the reference: the floor is the greatest multiple not above the value |
| Align.CeilIsLeast | wedb/wbase/src/align.rs:64-86 | the reference: the ceiling is the least multiple not below the value |
| Align.AlignDownIsFloor | wedb/wbase/src/align.rs:43-52 | both arms, masked and divided, and the degenerate alignments give the greatest multiple |
| Align.CheckedAlignUpIsCeil | wedb/wbase/src/align.rs:64-86 | all arms give the least multiple, and overflow is reported exactly when that multiple does not fit 64 bits |
| Align.AlignUpIsCeilOrTop | wedb/wbase/src/align.rs:96-107 | the saturating form gives the least multiple when it fits and otherwise the greatest one that does |
| Flush.PlanExact | wedb/wdev/src/device.rs:138-143 | the planned write starts at the sector below the range and ends at its end (buffered) or the next sector (direct); a plan fails exactly in direct mode when that sector end does not fit 64 bits |
| Flush.OverlayAt | wedb/wdev/src/device.rs:157-165 | a partial write changes exactly the addresses that reached the medium |
| Flush.BlockDevice.constructor | wedb/wdev/src/device.rs:39-55 | a new device holds nothing |
| Flush.BlockDevice.FlushRangeAligned | wedb/wdev/src/device.rs:128-167 | one write of the filled range and its zero padding; a pool without buffers or a refused fill writes nothing, and a plan that does not exist panics before anything is written; success is reported exactly for a full transfer, a short one with both counts |
| Flush.StepKeepsPrefix | wedb/wdev/src/device.rs:128-167 | an append or a flush, however it ends, keeps the flushed prefix and never moves the watermark back |
| Flush.FlushedPrefixSurvives | wedb/wdev/src/device.rs:128-167 | over any run of appends and contiguous flushes, in both modes, with short, torn and failed writes anywhere, the device bytes below the watermark equal the log: padding behind one flush is repaired by the next one's rounded-down start |
| Flush.FlushTouchesItsPlan | wedb/wdev/src/device.rs:128-167 | however a flush ends, every address outside its planned range keeps its byte or its absence |
| Flush.FlushWritesLogThenZeros | wedb/wdev/src/device.rs:152-165 | however a flush ends, each byte that reached the medium is the log below the flushed end and zero from there on |
| Flush.FillAndPad | wedb/wdev/src/device.rs:152-155 | the buffer is the filled range followed by zeros |
| Segments.SegmentChunks.constructor | wedb/wdev/src/chunk.rs:107-117 | the iterator starts at the offset with nothing consumed |
| Segments.SegmentChunks.Next | wedb/wdev/src/chunk.rs:123-151 | each piece is non-empty, stays inside one segment, starts where the last one ended and is as long as it can be; iteration ends when the buffer does, and fails exactly when the segment number leaves 32 bits |
| Segments.PieceIsFlat | wedb/wdev/src/segmented_device/io.rs:292-458 | writing a piece into its segment's file is a flat write of that piece |
| Segments.FlatJoins | wedb/wdev/src/segmented_device/io.rs:292-458 | flat writes of adjacent pieces are one flat write |
| Segments.SegmentedDevice.constructor | wedb/wdev/src/device.rs:39-55 | a new device holds no files |
| Segments.SegmentedDevice.WriteChunk | wedb/wdev/src/segmented_device/io.rs:326-355 | one piece: fenced segments are refused, short writes are repeated, a zero-byte or failed write stops with exactly the bytes before it in place |
| Segments.SegmentedDevice.WritePieces | wedb/wdev/src/segmented_device/io.rs:292-458 | whatever the host does to opens and writes, a prefix of the buffer is on the device as one flat write and nothing else changed; only a full write reports success; short of trouble with the host it falls short exactly where the segment numbers end, or at once below the fence |
| Segments.SegmentedDevice.WriteOnePiece | wedb/wdev/src/segmented_device/io.rs:292-458 | the single-segment fast path ends in the same ways |
| Segments.SegmentedDevice.WriteAligned | wedb/wdev/src/segmented_device/io.rs:292-458 | a read-only device, a bad offset, a bad length in direct mode or an overflow write nothing; otherwise a prefix lands as one flat write, all of it exactly on success, and a quiet host succeeds exactly for ranges that have segment numbers at or above the fence |
| Segments.SegmentedDevice.TruncateUntilAddress | wedb/wdev/src/device.rs:372-383 | reads lose exactly the whole segments below the address, at once and even if their files cannot be removed; success means the files are gone; an address past the last segment number is refused and changes nothing |
| Segments.SegmentedDevice.TruncateUntilSegment | wedb/wdev/src/segmented_device/truncate.rs:197-275 | the fence rises first; files below it are removed and no others; a failed removal leaves the purged mark, so that the same call takes up the removal again |
| Segments.SegmentedDevice.Pread | wedb/wdev/src/segmented_device/io.rs:86-108 | a file read returns bytes of the file at the offset; a missing or fenced segment is not found; a quiet host stops short only at the end of the file, and a short read returns no more than was transferred |
| Segments.SegmentedDevice.ReadPieces | wedb/wdev/src/segmented_device/io.rs:137-286 | whatever the host does, the bytes read are those of the accessible flat view; a quiet host stops short only at an absent byte |
| Segments.SegmentedDevice.ReadOnePiece | wedb/wdev/src/segmented_device/io.rs:137-286 | the single-segment fast path does the same |
| Segments.SegmentedDevice.ReadImpl | wedb/wdev/src/segmented_device/io.rs:137-286 | the read kernel as a whole: bad arguments read nothing, otherwise as its two paths |
| Segments.SegmentedDevice.ReadRangePooled | wedb/wdev/src/device.rs:222-266 | in both modes a pooled read returns exactly the bytes of the range or an error; success implies, and a quiet host gives it whenever, all bytes are present and the range (in direct mode its last sector) fits the address space |
| Segments.SegmentedDevice.ReadBuffered | wedb/wdev/src/device.rs:232-245 | the buffered arm of the pooled read |
| Segments.SegmentedDevice.ReadDirect | wedb/wdev/src/device.rs:246-266 | the direct arm: an aligned read around the range, then the sub-range |
| Segments.SegmentedDevice.ReadAround | wedb/wdev/src/device.rs:248-260 | the aligned read delivers enough of its range or fails, and on a quiet host delivers it whenever the range is present |
| Segments.CalculateExact | wedb/wbase/src/align.rs:216-249 | the least sector-aligned range around a non-empty range, or an overflow exactly when it leaves the address space |
| Segments.AlignedReadCovers | wedb/wdev/src/device.rs:246-266 | a read of the aligned range cannot stop or fail before it has covered a range that is present |
| LogDevice.PlanIsWritable | wedb/wdev/src/device.rs:138-143 | a planned flush starts on a sector, is whole sectors in direct mode and never reaches behind the fence |
| LogDevice.FlushKeeps | wedb/wdev/src/device.rs:128-167 | any prefix of a flush image written over the device leaves the flushed log in place, and the whole image adds the flushed range |
| LogDevice.TruncateKeeps | wedb/wdev/src/device.rs:372-383 | truncation keeps the log above the new start |
| LogDevice.FlushedLog.FlushUpTo | wedb/wdev/src/device.rs:128-167 | the flush kernel on the segmented device: whatever the host does, the flushed log stays on the device and the watermark advances exactly on success; a quiet host lets every flush through that fits |
| LogDevice.FlushedLog.WritePlanned | wedb/wdev/src/device.rs:157-165 | the single write of a flush and its length check |
| LogDevice.FlushedLog.Truncate | wedb/wdev/src/device.rs:372-383 | truncating flushed addresses moves the readable start to that segment and keeps the log above it |
| LogDevice.FlushedLog.ReadLog | wedb/wdev/src/device.rs:222-266 | any range below the watermark reads back as the log's bytes, or fails; truncated ranges fail; a quiet host delivers every range that is left |
| LogDevice.FlushedLog.Replay | wedb/wdev/src/device.rs:128-167 | any run of appends, flushes and truncations, over any behaviour of the host, ends in a log whose flushed part is on the device, so that it reads back |
| Words.LoadBit | wedb/wbitmap/src/bit_pos.rs:111-150 | bit k of a big-endian word is bit k of the bitmap from there on |
| Words.FirstOne | wedb/wbitmap/src/bit_pos.rs:111-150 | counting leading zeros finds the first one |
| Words.NormalizeScanRange | wedb/wbitmap/src/manager.rs:188-216 | a returned range is ordered and inside the value |
| Words.NormalizeMeans | wedb/wbitmap/src/manager.rs:171-216 | the normalised range is exactly the units between the two offsets, counted from the end when negative and clamped, that exist |
| BitPos.SkipFinds | wedb/wbitmap/src/bit_pos.rs:111-173 | the complement and count-leading-zeros step finds the first wanted bit of a word |
| BitPos.WordHit | wedb/wbitmap/src/bit_pos.rs:111-150 | a word of 8, 4 or 1 bytes holds no wanted bit exactly when it is the fill pattern, else its hit is the first |
| BitPos.OctetHit | wedb/wbitmap/src/bit_pos.rs:151-170 | an octet shifted to the top of a 64-bit word gives the same hit |
| BitPos.ByteSearch | wedb/wbitmap/src/bit_pos.rs:97-173 | least position with the wanted bit in a byte range; else -1, or the bit length for a zero without explicit end |
| BitPos.ClipFinds | wedb/wbitmap/src/bit_pos.rs:64-90 | clipping, comparing and shifting one octet finds its first wanted bit inside the clip |
| BitPos.ClipStep | wedb/wbitmap/src/bit_pos.rs:64-90 | one turn of the bit loop in the bitmap's own positions |
| BitPos.BitSearch | wedb/wbitmap/src/bit_pos.rs:55-92 | least position with the wanted bit in a bit range, else -1 |
| BitPos.BitPosDriver | wedb/wbitmap/src/bit_pos.rs:18-50 | BITPOS in both units: the least position in the normalised range holding the wanted bit; otherwise -1, or the bit length when a zero is sought in bytes without explicit end |
| BitCount.BuildRangeMasks | wedb/wbitmap/src/manager.rs:19-39 | the table built by the nested loops holds, for each pair, exactly the mask that the octet counts read |
| BitCount.CountIsCardinality | wedb/wbitmap/src/bit_count.rs:51-103 | the count that the BITCOUNT members state is the cardinality of the set of positions whose bit is set |
| BitCount.BitIndexCountExact | wedb/wbitmap/src/bit_count.rs:21-27 | the masked octet count is the number of set bits between the two positions |
| BitCount.WordOnes | wedb/wbitmap/src/bit_count.rs:187-202 | the population count of a machine word is the number of set bits of its bytes, whatever the byte order |
| BitCount.PopcTail | wedb/wbitmap/src/bit_count.rs:206-215 | bytewise tail count |
| BitCount.PopcBytes | wedb/wbitmap/src/bit_count.rs:195-202 | wordwise block count |
| BitCount.PopcU64Span | wedb/wbitmap/src/bit_count.rs:110-137 | four words at a time, then one, then the tail: the set bits of the span |
| BitCount.ScalarPopc | wedb/wbitmap/src/bit_count.rs:142-144 | the scalar path counts the set bits of the byte range |
| BitCount.WidePopc | wedb/wbitmap/src/bit_count.rs:149-182 | the wide path counts the same for every length |
| BitCount.PopcBlocks | wedb/wbitmap/src/bit_count.rs:155-178 | whole blocks of 256 or 32 bytes |
| BitCount.EdgeCount | wedb/wbitmap/src/bit_count.rs:32-46 | the two edge octets of a bit range, and what lies between them, add up to the range |
| BitCount.BitCountDriver | wedb/wbitmap/src/bit_count.rs:51-103 | BITCOUNT in both units and every length is the number of set bits in the inclusive normalised range; two negative offsets in the wrong order count nothing |
| BitUpdate.MaskedWrite | wedb/wbitmap/src/manager.rs:141-152 | the mask expression for an arbitrary byte: its low bit lands on the position, its other bits are or-ed into the positions before; the shifted mask reads the old bit |
| BitUpdate.SplicedOneBit | wedb/wbitmap/src/manager.rs:141-152 | exactly one bit is replaced if and only if no stray bit of the byte meets a clear one, which 0 and 1 guarantee |
| BitUpdate.UpdateBitmap | wedb/wbitmap/src/manager.rs:141-152 | SETBIT in place changes one octet only, by the spliced byte, for 0 and 1 exactly the addressed bit, and returns the old bit |
| BitUpdate.GetBit | wedb/wbitmap/src/manager.rs:159-165 | GETBIT reads the bit, and zero outside the payload, negative offsets included |
| BitUpdate.GetAfterUpdate | wedb/wbitmap/src/manager.rs:141-165 | GETBIT after SETBIT: the new bit at its own offset, the old ones everywhere else |
| BitUpdate.CountAfterUpdate | wedb/wbitmap/src/manager.rs:141-152 | a SETBIT moves the count of any range around it by exactly the difference of the two bits |
| BitOp.TailIsZero | wedb/wbitmap/src/bit_op.rs:111-121 | beyond the shortest source AND is zero; beyond the longest, every operator but NOT is |
| BitOp.LongestIsMax | wedb/wbitmap/src/bit_op.rs:57-108 | the longest length is reached by some source and exceeded by none |
| BitOp.Accumulator.constructor | wedb/wbitmap/src/bit_op.rs:44-51 | a new accumulator has folded nothing |
| BitOp.Accumulator.Fold | wedb/wbitmap/src/bit_op.rs:57-108 | after any number of sources the buffer has the length of the longest (for NOT, of the first) and its settled bytes are the operator over all sources so far; NOT ignores further sources |
| BitOp.Accumulator.Finish | wedb/wbitmap/src/bit_op.rs:111-121 | the result is, at every byte, the operator applied in order to the zero-padded sources, stale AND tail cleared; bit by bit: AND says every source has it, OR some, XOR an odd number, DIFF the first and no later one, NOT that the first lacks it; DIFF over a single source is refused |
| BitOp.FirstSource | wedb/wbitmap/src/bit_op.rs:63-72 | the first source is copied, inverted for NOT |
| BitOp.FoldInto | wedb/wbitmap/src/bit_op.rs:73-107 | folding in place: the common prefix is combined, a longer side is kept, taken over or zero-filled by operator |
| BitOp.FoldedByte | wedb/wbitmap/src/bit_op.rs:73-107 | each settled byte of the fold is the combination over one more source |
| BitOp.CombinedSays | wedb/wbitmap/src/bit_op.rs:73-107 | combining sources one after the other says, at every bit, what the operator says of all of them at once |
| BitOp.BitOpAll | wedb/wnode/src/resp/bitmap/bitmap_commands.rs:318-348 | the command's loop over its sources gives, at every bit, what the operator says of the zero-padded sources, missing keys as empty ones; the first source of a wrong type, deferred or failing decides the reply |
| Crc64.StepLinear | wedb/wbase/src/crc64.rs:20-31 | a register step is linear over xor |
| Crc64.RoundsLinear | wedb/wbase/src/crc64.rs:20-31 | any number of steps is linear over xor |
| Crc64.FeedIsRounds | wedb/wbase/tests/suite/crc64.rs:5-22 | feeding bits one at a time is adding them all at the top and running that many steps |
| Crc64.BuildTable | wedb/wbase/src/crc64.rs:17-35 | entry i of the table is eight steps of the octet i at the top of the register |
| Crc64.LookupIsRounds | wedb/wbase/src/crc64.rs:41-47 | eight steps are one table lookup on the top octet |
| Crc64.ByteStep | wedb/wbase/src/crc64.rs:41-47 | one byte of the table loop is eight bits of the reference, least significant first |
| Crc64.TableHash | wedb/wbase/src/crc64.rs:41-47 | on every input the table-driven hash equals the bit-at-a-time register that reads each byte least significant bit first and reflects at the end |
| CrcLaws.HashIsRemainder | wedb/wbase/src/crc64.rs:3-5 | the hash is the remainder: message bits times x^64 and the reflected hash differ by a carry-less multiple of the polynomial |
| CrcLaws.HashIsLinear | wedb/wbase/src/crc64.rs:41-47 | the hash of the bytewise xor of two equally long inputs is the xor of their hashes |
| CrcLaws.LastBitHash | wedb/wbase/src/crc64.rs:10-10 | after any number of zero bytes the byte 0x80 hashes to 0x95ac9329ac4bc9b5, which fixes every bit of the polynomial |
| Varint.OrAdds | wedb/wbase/src/varint.rs:139-169 | or-ing a marker over clear bits adds it |
| Varint.MarkerFits | wedb/wbase/src/varint.rs:132-170 | in each class the offset leaves the marker's bits clear |
| Varint.EncodeIsBE | wedb/wbase/src/varint.rs:122-190 | every encoding is one big-endian number, a class prefix over the offset, and its first byte announces its length |
| Varint.WireTwo | wedb/wbase/src/varint.rs:132-143 | the two bytes of the second class, as numbers |
| Varint.WireThree | wedb/wbase/src/varint.rs:144-156 | the three bytes of the third class, as numbers |
| Varint.WireFour | wedb/wbase/src/varint.rs:157-170 | the four bytes of the fourth class, as numbers |
| Varint.WireOneAndNine | wedb/wbase/src/varint.rs:122-190 | the one byte of the first class and the nine of the last, as numbers |
| Varint.ShorterIsSmaller | wedb/wbase/src/varint.rs:122-190 | shorter encodings belong to smaller values and have smaller first bytes |
| Varint.OrderPreserved | wedb/wbase/src/varint.rs:122-190 | a < b exactly when the encoding of a is lexicographically smaller |
| Varint.RoundTrip | wedb/wbase/src/varint.rs:196-234 | decoding an encoding followed by anything gives the value and its length |
| Varint.Canonical | wedb/wbase/src/varint.rs:196-234 | an accepted input opens with exactly the encoding of the value returned |
| Varint.DecodesIff | wedb/wbase/src/varint.rs:196-234 | the decoder accepts exactly the inputs that open with some encoding, and returns that value |
| Varint.PrefixFree | wedb/wbase/src/varint.rs:196-234 | no encoding opens another |
| Varint.ErrorsOverExtension | wedb/wbase/src/varint.rs:211-232 | a short buffer stays short until the announced number of bytes is there and is then judged; a non-canonical verdict is final |
| Varint.BuildLenTable | wedb/wbase/src/varint.rs:53-68 | the table built by the loop gives, for every encoding followed by anything, its length from the first byte |
| Varint.EncodeU64 | wedb/wbase/src/varint.rs:122-190 | writes the encoding at the front of the destination and nothing behind it, or leaves a destination that is too short untouched and reports both lengths |
| Varint.EncodeU64ToArray | wedb/wbase/src/varint.rs:112-118 | a nine-byte buffer always suffices and keeps zeros behind the encoding |
| Config.TrimmedIff | wedb/wconf/src/runtime_server_config.rs:702-735 | trimming and integer parsing accept exactly the texts that are an optionally signed decimal number between blanks, within the width |
| Config.ParseIntIff | wedb/wbase/src/cfg.rs:89-92 | the same without blanks, as enum texts are read |
| Config.ParseEnumIff | wedb/wbase/src/cfg.rs:89-105 | an enum text is a declared number or a member's name in any case, and never both |
| Config.BytesBeforeDigit | wedb/wconf/src/runtime_server_config.rs:699-704 | the bytes an integer option takes in front of a digit: the five ASCII blanks, a plus and a zero |
| Config.ParseValueIff | wedb/wconf/src/runtime_server_config.rs:691-761 | a text is accepted exactly when the option is settable and the text stands for a declared value |
| Config.MeansOne | wedb/wconf/src/runtime_server_config.rs:691-761 | no text stands for two values of one option |
| Config.ActionsAccept | wedb/wconf/src/runtime_server_config.rs:787-896 | on declared values an update action refuses only the commit frequency, when it would become zero or the server started with zero |
| Config.AcceptedIff | wedb/wconf/src/runtime_server_config.rs:686-779 | CONFIG SET succeeds with a value exactly when the option is settable, the text stands for it, it is declared and it is not refused |
| Config.RefusalReasons | wedb/wconf/src/runtime_server_config.rs:692-779 | why a call is refused: read-only and unsettable slots, texts that are no number of the width, numbers outside the bounds, words that are no bool, texts that are no member, and the two refusals of the commit frequency |
| Config.SetKeeps | wedb/wconf/src/runtime_server_config.rs:686-779 | a refused call changes no slot; an accepted one changes its own slot only, to a declared value |
| Config.RunKeeps | wedb/wconf/src/runtime_server_config.rs:686-779 | after any sequence of calls from any table every slot holds its first value or a declared one, and unsettable slots never move |
| Config.SeedsDeclaredIff | wedb/wconf/src/runtime_server_config.rs:500-574 | the startup seeds are declared values exactly when the startup options respect the slots' bounds |
| Config.BoundsHold | wedb/wconf/src/runtime_server_config.rs:146-386 | from such seeds every slot stays within its declared values over every run |
| Config.CommitModeIsFixed | wedb/wconf/src/runtime_server_config.rs:787-801 | over every run aof-commit-freq is zero exactly when the server started with zero: no call crosses |
| Config.Spelled | wedb/wbase/src/cfg.rs:76-105 | the words and member names of CONFIG texts, letter by letter |
| Config.GetShows | wedb/wconf/src/runtime_server_config.rs:1028-1060 | GET shows yes or no, a member's name and no numeral, or a decimal number without plus sign or leading zeros |
| Config.GetThenSet | wedb/wconf/src/runtime_server_config.rs:1028-1060 | GET text fed back to SET, on any table whatsoever: accepted exactly when the shown value is declared and not refused, and the table is unchanged exactly when it was refused or the shown value is the slot's own |
| Config.GetThenSetOnRuns | wedb/wconf/src/runtime_server_config.rs:1028-1060 | after any run from any startup, feeding GET back to SET leaves the whole table unchanged for every option, the attach timeout provided it started within 32 bits; the reply is success exactly for settable, declared values that are not refused |
| Config.OversizedAttachTimeout | wedb/wconf/src/runtime_server_config.rs:500-574 | that proviso is needed: a table built from options past startup validation can hold an attach timeout that is shown truncated, and setting what is shown stores the truncation |
| Config.ValidatedInRangeIff | wedb/wconf/src/node_options/validation.rs:248-500 | of the knobs that reach the table validation leaves one unchecked: the projected options are in range exactly when the AOF sync lag budget is at least -1 |
| Config.ValidatedServer | wedb/wconf/src/node_options/views.rs:91-173 | on a server started from validated arguments, after every run, GET fed back to SET changes nothing and every option holds a declared value, the lag budget possibly its startup value |
| Config.UncheckedLagBudget | wedb/wconf/src/node_options/mod.rs:265-275 | a validated start with a lag budget of -2 holds an undeclared value and is refused its own text |
| Config.MessageCarriesSlot | wedb/wconf/src/runtime_server_config.rs:787-896 | the message of an accepted call carries the value now in the slot, the cluster timeout in milliseconds |
| Config.ConvertDurationFloors | wedb/wconf/src/runtime_server_config.rs:948-973 | for every declared value of a duration option the conversion cannot overflow and rounds down |
| Config.SlotUnits | wedb/wconf/src/runtime_server_config.rs:146-386 | the unit of every duration option, by what its values convert to |
| Config.ConvertDurationExact | wedb/wconf/src/runtime_server_config.rs:948-973 | for every 64-bit value: the conversion overflows exactly outside the bounds given, keeps the value in its own unit and otherwise rounds toward zero |
| Config.DurationOverflowsIff | wedb/wconf/src/runtime_server_config.rs:948-973 | over every startup and every run the one conversion that overflows is of an attach timeout started beyond 9223372036854 seconds, not set since and read in a finer unit |
| Config.RuntimeServerConfig.constructor | wedb/wconf/src/runtime_server_config.rs:500-574 | the seeding loop fills the table with the startup options |
| Config.RuntimeServerConfig.TrySet | wedb/wconf/src/runtime_server_config.rs:686-779 | store, action and rollback together have the meaning of one CONFIG SET, and a rejected call leaves all slots unchanged |
| Seal.WordsSplit | wedb/wcpr/src/meta.rs:269-305 | equally long word lists with equal bytes are equal, and so is what follows |
| Seal.HeadSplits | wedb/wcpr/src/meta.rs:262-287 | the fixed-width fields are determined by the front of the stream |
| Seal.PathSplits | wedb/wcpr/src/meta.rs:288-294 | the optional path is determined by its length or its sentinel |
| Seal.AddressesSplit | wedb/wcpr/src/meta.rs:297-305 | so is the optional list of log addresses |
| Seal.StreamSplits | wedb/wcpr/src/meta.rs:260-307 | two metadata values with equal streams agree on every field except the seal, both optional variable-length fields included, and no stream opens another |
| SealLayout.HeadLayout | wedb/wcpr/src/meta.rs:262-287 | the fixed-width fields at their offsets, little-endian, the checkpoint type as 0 for fold-over and 1 for snapshot |
| SealLayout.StreamLayout | wedb/wcpr/src/meta.rs:260-307 | the whole stream at its offsets: path behind its length or all ones, next key and creation time, addresses behind their count or all ones, and nothing after |
| Seal.Hasher.constructor | wedb/wbase/src/crc.rs:21-25 | a new digest has been fed nothing |
| Seal.Hasher.Update | wedb/wbase/src/crc.rs:29-31 | bytes are appended to what was fed |
| Seal.Hasher.UpdateU64 | wedb/wbase/src/crc.rs:35-37 | a word is fed as its eight little-endian bytes |
| Seal.Hasher.UpdateU32 | wedb/wbase/src/crc.rs:41-43 | a half word is fed as its four little-endian bytes |
| Seal.FeedHead | wedb/wcpr/src/meta.rs:262-287 | the statements up to the optional path feed exactly the fixed-width fields |
| Seal.FeedAddresses | wedb/wcpr/src/meta.rs:297-305 | the loop feeds the count and every address, or the sentinel |
| Seal.IntegrityDigest | wedb/wcpr/src/meta.rs:260-307 | the digest is the checksum of exactly the whole stream |
| Seal.Draft.Seal | wedb/wcpr/src/meta.rs:311-313 | sealing changes the seal only, and sealed metadata of the current version is trusted |
| Seal.VerifySealed | wedb/wcpr/src/meta.rs:336-358 | metadata is returned exactly when it decodes, carries the token and the current version and its seal is the checksum of its contents; otherwise the first fault in that order is reported |
| Seal.TamperingNeedsCollision | wedb/wcpr/src/meta.rs:336-358 | altered contents always have another stream, so under the old seal they pass exactly when the checksum collides on the two; an altered seal alone never passes |

## Left out

- Async runtime, sockets, TLS, connection lifecycle and client facades; the command parser of the connection layer.
- ACL rules and their rationalised description.
- Compaction, B-tree, hybrid log, hash index, epochs, recovery and checkpoint file naming.
- The internals of CRC-32, of the metadata serialiser and of SIMD dispatch; the wide popcount is modelled as the loop over blocks that it is.
- Of the segmented device: capacity eviction, handle caches and the fallback from direct to buffered mode, preallocation of new files, buffer-address alignment, recovery and tail erasure, and the Windows arms; interrupted system calls, which are repeated, count as one call.
- The `begin` address kept beside the device and the drain barrier in front of a truncation.
- Concurrent CONFIG SET calls: the store and rollback pair is not atomic, so calls are taken one at a time.
- Name lookup of CONFIG options, the texts of read-only options (an arbitrary function of the option here) and option names inside error values.
- Typed CONFIG getters other than the duration conversion; what a conversion that overflows goes on to return.
- Validation of startup knobs that do not reach the CONFIG table, and of combinations of knobs.
- Bitfield commands, the coarse offset validators of the bitmap commands, and BITOP's argument checks and storing of the result.
- The eight output bytes of the CRC-64 `hash` wrapper, which stores the register little-endian.
- Display texts of errors throughout; the error a leader returns from a failed step is one failure value in the group-commit model.
- Progress of the group-commit loop: the yield is an action, and nothing is claimed about when a leader drains.
- Base-32, hexadecimal, number and size formatting helpers, float parsing, sampling, clocks, backoff and supervision counters: easier members.
- Benchmarks, scripts, website, C# drivers and command-line parsing.
- Seal.IntegrityDigest: the mutable fraction is its bit pattern, so fractions that compare equal with different bits differ here too.
