# Verified models of the wings daemon and its backup client

Dafny models of the parts of calagopus/wings whose correctness depends on
more than one function: the PBS backup client (catalog files, the chunk
index, chunk uploads and random-access reads) and the daemon's concurrency,
streaming, configuration, token, rate-limit and activity code. Each model
follows the branches, constants and error cases of the source. Code that
changes state step by step is a class or a method with loops, proved against
a function that says what it computes; protocols between threads or tasks are
step systems whose properties hold over every interleaving.

`dafny verify dfyconfig.toml` checks the whole project.

## Files

| file | subject |
|---|---|
| Bytes.dfy | integer widths, byte strings, outcome types, newlines |
| Varint.dfy, Catalog.dfy, CatalogWriter.dfy, CatalogReader.dfy | the catalog format, its stack-machine writer and its parser |
| CatalogRoundTrip.dfy, CatalogBounds.dfy, CatalogFormat.dfy | parsing undoes writing; on any bytes it stays bounded and reads what they say |
| ChunkCache.dfy, DynamicIndex.dfy, ChunkReader.dfy, FileReader.dfy | LRU cache, chunk index, reads through both, and the polled file reader |
| Upload.dfy, UploadEconomy.dfy, ArchiveRoundTrip.dfy | the upload protocol, what it costs and that it ends, and reading back what it uploaded |
| InFlightLimit.dfy, FallibleReader.dfy, PowerLock.dfy, PendingRestart.dfy, CrashRestart.dfy | concurrent protocols |
| LineBuffer.dfy, Tail.dfy | cutting streams into lines, and the last lines of a file |
| Json.dfy, StripPaths.dfy, EnvOverrides.dfy | configuration trees, protected paths, environment overrides |
| Revocations.dfy, RateLimit.dfy, Activity.dfy | token revocation, rate limits, activity merging |
| Ordering.dfy, Paths.dfy | sorting, and the minimal cover of a list of paths |

## Where the code differs from what one might expect

- The catalog's entry limit is checked before every entry below the root, also before
  those that are not listed, so a listing of exactly the limit is accepted only if nothing
  unlisted follows it (`CatalogRoundTrip.FitsLimit`).
- A stream read without `require_eof` can end early even if the producer closes the pipe before
  it signals success: a read polls the pipe first and the signal after it, and everything may
  happen in between (`FallibleReading.ClosedFirstMayTruncate`). Every end that can follow a success
  is complete exactly if, at that moment, the pipe is closed and no read that found it empty has
  missed anything (`FallibleReading.PlainModeIsCompleteIff`).
- A read of an archive file that is under way keeps the size of the buffer it was started with. A caller
  that polls on with a smaller buffer can get more than fits, which panics
  (`FileReading.OverflowIff`, `FileReading.ShrunkBufferOverflows`), and so does any poll after a
  failed one (`FileReading.FailureIsFinal`).
- `async_tail` and `async_tail_stream` agree exactly when none of the lines returned
  exceeds the stream's line limit (`Tailing.BackwardEqualsForward`).
- A patch that is not an object is not protected by stripping (`PathStripping.NonObjectPatch`;
  the route refuses such patches), and stripping a scalar that stands in for the parent of a
  listed path also keeps that parent's other members (`PathStripping.UnlistedPathsMerge`).
- Activities merge if less than 61 seconds apart, because whole seconds are compared
  (`ActivityMerging.NearIff`).
- A half-open interval of one window length sees at most two budgets; with both ends
  included it can see three (`RateLimiting.ThreeBudgetsMeet`).
- `execute_action` is documented to revert to the previous state. It reads that state before
  it waits for the lock, so it restores what the action found exactly when the two agree
  (`PowerActions.RevertRestoresIff`, `PowerActions.StaleRevert`).
- The state and the pending-restart mark are not changed together. A mark can stay on an offline server
  exactly if it is stored after the server went offline and was cleared, by a caller that looked at the state
  before (`PendingRestarts.MarkedOfflineIff`, `PendingRestarts.LateMark`).

## Model

| member | source | states |
|---|---|---|
| Varint.EncodeU64 | pbs-client/src/catalog.rs:24-33 | the loop appends exactly the seven-bit groups of the value, least significant first, continuation bit on all but the last |
| Varint.EncodeI64 | pbs-client/src/catalog.rs:35-52 | the loop appends the groups of the magnitude, the sign in bit six of the last byte |
| Varint.VarintRoundTrip | pbs-client/src/catalog.rs:24-52 | decoding at any position, before any suffix, returns every u64 and every i64 (also the least) and consumes exactly its encoding |
| Varint.UnsignedFormat | pbs-client/src/catalog.rs:24-33 | the bytes are one varint without a group too many, whose seven-bit groups add up to the value |
| Varint.SignedFormat | pbs-client/src/catalog.rs:35-52 | the sign is bit six of the last byte, and without it the groups add up to the magnitude |
| Varint.ReadUnsignedEncoded | pbs-client/src/catalog.rs:275-289 | an unsigned decoder that has read some groups adds the rest of an encoding without overflow or over-long shift |
| Varint.ReadSignedEncoded | pbs-client/src/catalog.rs:291-311 | the same for the signed decoder: on encoder output its wrapping arithmetic never wraps |
| Catalog.Emit | pbs-client/src/catalog.rs:156-176 | a directory's tables are all written between the position it was started at and its end, so every child lies strictly before its parent |
| Catalog.EmitSnoc | pbs-client/src/catalog.rs:171-184 | adding a node appends its blocks and its one entry and moves nothing written before |
| CatalogWriting.EncodeEntry | pbs-client/src/catalog.rs:97-123 | type byte, name length, name and payload; the offset to a child never underflows |
| CatalogWriting.EncodeDirectory | pbs-client/src/catalog.rs:83-95 | the length-prefixed table of all entries |
| CatalogWriting.EmitClosed | pbs-client/src/catalog.rs:156-176 | ending a directory turns the file of the open directories into that of the tree with the directory in it |
| CatalogWriting.CatalogWriter.constructor | pbs-client/src/catalog.rs:131-138 | the file starts with the magic and one open root |
| CatalogWriting.CatalogWriter.StartDirectory | pbs-client/src/catalog.rs:152-154 | opens an empty directory and writes nothing |
| CatalogWriting.CatalogWriter.EndDirectory | pbs-client/src/catalog.rs:156-176 | the ended directory becomes a node of the one around it and the file stays that of the open directories; ending the root or nothing fails and what it leaves |
| CatalogWriting.CatalogWriter.Add | pbs-client/src/catalog.rs:178-212 | the item becomes a node of the innermost directory, or the call fails without one |
| CatalogWriting.CatalogWriter.Finish | pbs-client/src/catalog.rs:214-231 | with exactly one open directory the file is the catalog of its tree; otherwise an error and no write |
| CatalogReading.Cursor.Byte | pbs-client/src/catalog.rs:251-259 | the byte at the position, which advances, or an error at the end |
| CatalogReading.Cursor.Slice | pbs-client/src/catalog.rs:261-273 | succeeds exactly if the length neither overflows nor exceeds the data; gives the bytes between the old and the new position, and a failed call does not advance |
| CatalogReading.Cursor.U64 | pbs-client/src/catalog.rs:275-289 | the loop reads what the recursive decoder reads, errors included |
| CatalogReading.Cursor.I64 | pbs-client/src/catalog.rs:291-311 | the same for signed values, with wrapping arithmetic |
| CatalogReading.ReadEntries | pbs-client/src/catalog.rs:336-367 | whatever count is declared, each entry read has used two bytes of table, a valid name, and no pointer beyond its own block |
| CatalogReading.ReadTable | pbs-client/src/catalog.rs:327-368 | a table that is read starts inside the data, holds fewer than half as many entries as there are bytes, and points only backwards |
| CatalogReading.LoadTable | pbs-client/src/catalog.rs:327-368 | the cursor loops return that table or its first error |
| CatalogReading.CatalogWalk.PushWalk | pbs-client/src/catalog.rs:370-431 | the recursive walk leaves exactly the listing, visited set and error of the specification, failing runs included |
| CatalogReading.ParseCatalog | pbs-client/src/catalog.rs:433-479 | the result is that of walking from the trailer's root |
| CatalogBounds.ParseIsBounded | pbs-client/src/catalog.rs:370-479 | on every byte string: output within the limit, no block opened twice, every block strictly before the one that led to it, nesting below the limit |
| CatalogBounds.ExpansionsAreFew | pbs-client/src/catalog.rs:370-479 | on every byte string, no more blocks are opened than the root's offset |
| CatalogFormat.ReadUnsignedIs | pbs-client/src/catalog.rs:275-289 | on any bytes: the sum of the groups modulo 2^64 if a varint of at most ten bytes is there, otherwise which of the two errors |
| CatalogFormat.ReadSignedIs | pbs-client/src/catalog.rs:291-311 | on any bytes: the same for signed values, in two's complement |
| CatalogFormat.ReadEntryIff | pbs-client/src/catalog.rs:338-364 | on any bytes: an entry is read exactly if a tag, a length, a valid name and what the tag calls for are there, and as what they say |
| CatalogFormat.ReadTableIs | pbs-client/src/catalog.rs:327-368 | on any bytes: a table that is read is a length, that many bytes, and in them a count and that many entries one after the other |
| CatalogRoundTrip.ReadTableEncoded | pbs-client/src/catalog.rs:327-368 | a written block is read back as its entries, or refused for an invalid name in it |
| CatalogRoundTrip.WalkableIffListable | pbs-client/src/catalog.rs:378-388 | the walk's checks one entry at a time amount to depth, names and entry count of the whole tree |
| CatalogRoundTrip.RootListableBySize | pbs-client/src/catalog.rs:386-388 | a well-formed tree below the entry limit is accepted, none above it is |
| CatalogRoundTrip.CatalogRoundTrip | pbs-client/src/catalog.rs:433-479 | for every tree, parsing the finished file succeeds exactly if the tree is listable and then returns its pre-order listing, sizes and times included |
| ChunkCaching.UseKept | pbs-client/src/accessor.rs:67-74 | a hit moves the chunk to the end of the recency order and drops nothing |
| ChunkCaching.UseOther | pbs-client/src/accessor.rs:76-87 | a miss on a full cache drops exactly the least recently used |
| ChunkCaching.CoherentOrder | pbs-client/src/accessor.rs:52-88 | the order is duplicate-free, names exactly the cached chunks and never exceeds the capacity |
| ChunkCaching.ChunkCache.constructor | pbs-client/src/accessor.rs:59-65 | an empty cache with capacity at least one |
| ChunkCaching.ChunkCache.Get | pbs-client/src/accessor.rs:67-74 | returns what is cached and counts a hit as a use; the cache remains the most recently used chunks |
| ChunkCaching.ChunkCache.Insert | pbs-client/src/accessor.rs:76-87 | adds a new chunk, evicting the least recently used if full; an existing one is left alone |
| DynamicIndex.ParseDynamicIndexEntries | pbs-client/src/reader.rs:116-144 | the entries after the header, or the error for a short file or a cut entry |
| DynamicIndex.ParseDynamicIndex | pbs-client/src/reader.rs:146-151 | succeeds exactly on well-sized files and returns their digests in order |
| DynamicIndex.EntryAt | pbs-client/src/reader.rs:127-143 | entry i is the forty bytes from 40 i on, the end offset in the first eight, the digest in the rest |
| DynamicIndex.ReadEntriesOfLayout | pbs-client/src/reader.rs:127-143 | laying out 40-byte entries and parsing them is the identity |
| DynamicIndex.Locate | pbs-client/src/accessor.rs:137-144 | the partition point of an offset is the chunk whose stretch of the stream contains it |
| DynamicIndex.UploadedIndexDescribes | pbs-client/src/reader.rs:116-144 | the index of any chunking, laid out and parsed back, gives its cumulative ends and names its contents |
| ChunkReading.ChunkReader.constructor | pbs-client/src/accessor.rs:263-289 | ends, digests and size are taken from the index, the cache is empty |
| ChunkReading.ChunkReader.FetchChunk | pbs-client/src/accessor.rs:99-130 | whatever the cache holds, the chunk is the archive's own; fails only if out of range or not downloadable; a delivered chunk is cached as the latest use |
| ChunkReading.ChunkReader.ReadInto | pbs-client/src/accessor.rs:132-157 | fills the buffer's front with the stream from the offset to the end of that chunk or of the buffer, never nothing before the end, and leaves the rest of the buffer |
| FileReading.PbsFileReader.Fetched | pbs-client/src/accessor.rs:220-225 | the future's body: exactly the stretch of the stream from the offset that its chunk has, up to the size wanted |
| FileReading.PbsFileReader.PollRead | pbs-client/src/accessor.rs:195-228 | one poll with the future it keeps: new state and result, panics included, whatever buffer each poll brings |
| FileReading.PollsConserveIff | pbs-client/src/accessor.rs:203-226 | over any sequence of polls, offset and remaining add up, and what was delivered followed by what is left is the window exactly if no delivery failed to fit |
| FileReading.OverflowIff | pbs-client/src/accessor.rs:204-211 | a delivery fails to fit exactly if the read was started by an earlier poll and yields more than this poll's room |
| FileReading.ReadLengthIs | pbs-client/src/accessor.rs:132-157 | a read yields all that was wanted, or ends at a chunk's end, or is at the stream's end |
| FileReading.AsMuchAsFits | pbs-client/src/accessor.rs:213-225 | a read asks for as much as there is room for and left to read |
| FileReading.SteadyBuffersFit | pbs-client/src/accessor.rs:204-225 | if no buffer is smaller than the one before while a read is under way, every delivery fits |
| FileReading.ShrunkBufferOverflows | pbs-client/src/accessor.rs:204-225 | two polls, the second with less room than the read yields, and it panics |
| FileReading.FailureIsFinal | pbs-client/src/accessor.rs:204-206 | a failed read is not let go, so every later poll panics |
| FileReading.PbsFileReader.Read | pbs-client/src/accessor.rs:235-241 | a blocking read, after any number of waits, delivers the next part of the window; empty only at its end or without room |
| FileReading.PbsFileReader.ReadToEnd | pbs-client/src/accessor.rs:195-241 | reading to the end, with any buffers and waits, delivers exactly the window of the flat stream |
| ChunkReading.Reassemble | pbs-client/src/reader.rs:88-113 | the whole stream in order and its length as progress, exactly if every chunk can be downloaded |
| Uploading.Produce | pbs-client/src/writer.rs:112-158 | a chunk is sent with its data exactly if neither the previous snapshot nor an earlier chunk of the stream has its digest, otherwise by digest and size |
| Uploading.Consume | pbs-client/src/writer.rs:160-216 | the loop's requests and index are those of handling the messages one by one |
| Uploading.HandledConsistently | pbs-client/src/writer.rs:166-208 | after any prefix: batches and pending lists are the handled chunks in order, every digest named was known or uploaded, and the batch is not full |
| Uploading.FinishedConsistently | pbs-client/src/writer.rs:210-213 | after the last batch the registrations are exactly the stream's digests and start offsets |
| Uploading.NextKeeps | pbs-client/src/writer.rs:110-231 | every step of producer, channel, encoders and consumer, failures included, keeps the protocol invariant |
| Uploading.UploadSafety | pbs-client/src/writer.rs:110-261 | in every run: no batch names a digest the server cannot have, batches are 1 to 256 long and in stream order, and a close is last, with the right count and size, only after the whole stream was read without error |
| UploadEconomy.UploadsAreFrugal | pbs-client/src/writer.rs:122-208 | in every run, failures included: no digest is uploaded twice or although the previous snapshot had it, each upload is a chunk under its digest, and every batch but the last is full |
| UploadEconomy.ChannelIsBounded | pbs-client/src/writer.rs:110 | in every run no more messages wait than the channel holds |
| UploadEconomy.NeverStuck | pbs-client/src/writer.rs:110-231 | an upload in which nothing has failed can go on until it is closed |
| UploadEconomy.SmoothUploadsClose | pbs-client/src/writer.rs:110-231 | runs without failures are no longer than three steps a chunk and four, and one that cannot go on has posted the close |
| Uploading.EntriesAreIndex | pbs-client/src/writer.rs:168-197 | the entries are the cumulative ends and digests of the stream |
| ArchiveRoundTrip.ClosedUploadReadsBack | pbs-client/src/writer.rs:218-231 | after a close, the index laid out from the requests describes the stream and every chunk it names is stored |
| InFlightLimits.NextKeeps | application/src/threading.rs:110-126 | every acquire, park, recheck, release and notification keeps the count and the wake-up balance |
| InFlightLimits.AcquiresIff | application/src/threading.rs:111-118 | whoever asks, or was woken, gets a permit exactly if a slot is free and waits exactly if none is |
| InFlightLimits.NoLostWakeup | application/src/threading.rs:92-126 | in every reachable state count is the number of live permits and within the limit; with a waiter, free slots are at most the wake-ups on their way, so none is free once there are none |
| InFlightLimits.WakeupsSettle | application/src/threading.rs:110-126 | pending notifications and wake-ups are used up in a bounded number of steps, and then no waiter is beside a free slot |
| FallibleReading.FallibleReader.Read | application/src/io/fallible_reader.rs:83-120 | a settled outcome never changes; data is handed on whatever the outcome; a clean end means success (and the pipe's end if required), an error the recorded failure |
| FallibleReading.NextKeeps | application/src/io/fallible_reader.rs:17-121 | writes, close, the signal in all its forms and the two polls of a read, in any order, keep the invariant; signal and end are final |
| FallibleReading.CompleteOrFailed | application/src/io/fallible_reader.rs:82-121 | over every interleaving, also between the two polls of a read: no clean end without success, none in a run with a failure, and with `require_eof` an end means every byte was delivered in order |
| FallibleReading.PlainModeIsCompleteIff | application/src/io/fallible_reader.rs:93-118 | without `require_eof`, every clean end that can follow a success is complete exactly if then the pipe is closed and no read between its polls has missed a byte |
| FallibleReading.UndividedPollsAreComplete | application/src/io/fallible_reader.rs:93-118 | a producer that closes before it succeeds gives complete ends in runs where nothing is written between the two polls of a read |
| FallibleReading.ClosedFirstMayTruncate | application/src/io/fallible_reader.rs:93-118 | for any last bytes, a run that closes before success and ends without them |
| FallibleReading.UnsettledMayTruncate | application/src/io/fallible_reader.rs:117 | from any other state with success signalled, a continuation that ends the stream short |
| LineBuffering.GreedyIsReference | application/src/io/line_buffer.rs:22-57 | the greedy cut equals splitting at newlines and chopping each line to the maximum |
| LineBuffering.LinesResume | application/src/io/line_buffer.rs:18-45 | cutting what has arrived and going on later gives the lines of the whole |
| LineBuffering.LineBuffer.Extend | application/src/io/line_buffer.rs:18-20 | appends to what is unread |
| LineBuffering.LineBuffer.NextLine | application/src/io/line_buffer.rs:22-45 | takes the next line that is certain, trimmed at its end, or nothing; with nothing left to take and nothing to compact, the buffer is within threshold plus line length |
| LineBuffering.LineBuffer.Compact | application/src/io/line_buffer.rs:47-52 | drops the consumed part exactly when large and more than half; what is unread stays |
| LineBuffering.LineBuffer.Flush | application/src/io/line_buffer.rs:54-57 | nothing exactly if all is consumed; after the certain lines are out, exactly the reference lines of what is left, trimmed of whitespace and no more |
| LineBuffering.DriveLines | application/src/server/mod.rs:1213-1255 | the driver's lines are those of the whole stream, and the buffer's peak is at most threshold plus line length plus the longest piece, however long the stream |
| LineBuffering.LogsLines | application/src/server/mod.rs:1213-1255 | for every way the stream is cut into reads the lines are those of the whole stream |
| Tailing.AsyncTail | application/src/io/tail.rs:13-58 | the position found by scanning buffers backwards leaves exactly the last lines of the split |
| Tailing.ReadLine | application/src/io/tail.rs:60-98 | over any buffer fills: one line is consumed and its front kept up to the limit |
| Tailing.ReadLineCapped | application/src/io/tail.rs:84-109 | the next line with its content cut to the limit and its newline kept, or none at the end |
| Tailing.CappedKeeps | application/src/io/tail.rs:91-107 | capping keeps the newline and as much content as the limit allows |
| Tailing.AsyncTailStream | application/src/io/tail.rs:188-210 | the last lines of the split, each capped |
| Tailing.LinesEndAtNewlines | application/src/io/tail.rs:39-53 | the lines are the pieces between newlines, none empty, and only the last may lack its newline |
| Tailing.LineCount | application/src/io/tail.rs:39-53 | there is one line more than newlines that are not the file's last byte |
| Tailing.BackwardEqualsForward | application/src/io/tail.rs:13-210 | both tails yield the same bytes exactly when no line returned has content longer than the limit |
| Json.SilentMerge | application/src/config.rs:2687-2741 | a merge patch that lacks a key somewhere along a path leaves the value there, whatever the document holds on the way |
| Json.MergeSameAlong | application/src/config.rs:2702-2741 | patches that agree along a path give the same value there |
| Json.PatchedValue | application/src/config.rs:2702-2741 | a patch's own value at a path, if no object, ends up there; a null leaves nothing there |
| PathStripping.StripOne | application/src/utils.rs:241-264 | the cursor loop removes what the recursive definition removes |
| PathStripping.StripPaths | application/src/utils.rs:240-266 | all paths stripped in turn |
| PathStripping.ProtectedPathsSurvive | application/src/utils.rs:240-266 | for every document, object patch and path list, each listed path keeps its value through the merge |
| PathStripping.NonObjectPatch | application/src/routes/api/update.rs:29-35 | a patch that is no object leaves a listed path as it was only if there was nothing there |
| PathStripping.UnlistedPathsMerge | application/src/utils.rs:255-258 | unrelated paths merge as unstripped, except below a removed scalar parent, where the document's value stays |
| EnvironmentOverrides.ResolvePath | application/src/env_overrides.rs:15-38 | the backtracking loop finds what the recursive search finds |
| EnvironmentOverrides.ResolutionIsBest | application/src/env_overrides.rs:11-38 | a result exists in the tree and joins to the name; there is none exactly if no path does; none beats it in key lengths compared lexicographically |
| EnvironmentOverrides.Apply | application/src/env_overrides.rs:57-89 | the recognised variables, sorted, are applied or reported one after the other |
| EnvironmentOverrides.OverrideTakesEffect | application/src/env_overrides.rs:69-86 | a variable that resolves sets its path to the parsed value and is reported as applied; any other changes nothing and is reported as unknown |
| EnvironmentOverrides.OverridesTakeEffect | application/src/env_overrides.rs:69-86 | in the end every applied path not related to a later applied one holds its parsed value |
| EnvironmentOverrides.VariablesTaken | application/src/env_overrides.rs:60-67 | exactly the entries with the prefix and something after it are taken, in dictionary order of their names |
| EnvironmentOverrides.ApplyChangesOnlyResolvedPaths | application/src/env_overrides.rs:69-86 | values at paths diverging from all written ones do not change |
| EnvironmentOverrides.OrderIndependent | application/src/env_overrides.rs:60-67 | the outcome depends only on which variables there are |
| TokenRevocation.Revocations.RevokeTokens | application/src/remote/jwt.rs:279-307 | each named id is revoked as of the given time or its later one, nothing else changes |
| TokenRevocation.Revocations.Prune | application/src/remote/jwt.rs:150-164 | exactly the entries at or before the cutoff go, and the general revocation rises to the largest of them |
| TokenRevocation.Retain | application/src/remote/jwt.rs:150-164 | one map's pruning with its effect on the general revocation |
| TokenRevocation.NeverLowered | application/src/remote/jwt.rs:139-165 | over every history a revocation time never decreases |
| TokenRevocation.RevocationsAreGiven | application/src/remote/jwt.rs:150-164 | over every history, what a token is revoked as of is a time that was given to revoke, never the cutoff of a pruning |
| TokenRevocation.RevocationIsBracketed | application/src/remote/jwt.rs:121-165 | it is at least the latest revocation of either id and at most the larger of that and the latest cutoff |
| TokenRevocation.RevokedStaysDenied | application/src/remote/jwt.rs:77-100 | a revoked token is refused ever after, whatever is pruned |
| TokenRevocation.LaterTokenPasses | application/src/remote/jwt.rs:77-100 | a token later than every revocation of its ids and every cutoff is never denied by revocation: of the checks of its time of issue it passes all exactly if issued after the daemon's start and not in the future |
| RateLimiting.LimitedStream.Transact | application/src/io/limited_reader.rs:31-63 | a call waits only with its budget used up, and then to the end of the window; it moves as much as wanted and left of the budget; the account stays within it and the history grows by just that |
| RateLimiting.AsyncLimitedReader.Admit | application/src/io/limited_reader.rs:108-140 | a poll passes exactly if budget is left or the window is over, and with a delay exactly once the timer has reached the window's end plus the time its creation took |
| RateLimiting.AsyncLimitedReader.PollRead | application/src/io/limited_reader.rs:93-158 | one poll: nobody who is due is held back, and what is read is cut only by using the budget up; it is booked when it completes, and nothing else |
| RateLimiting.RateBound | application/src/io/limited_writer.rs:32-65 | by time t at most limit times whole windows plus one has been moved |
| RateLimiting.TwoWindowBound | application/src/io/limited_reader.rs:40-60 | any half-open interval of one window length sees at most twice the limit |
| RateLimiting.ThreeBudgetsMeet | application/src/io/limited_reader.rs:40-60 | a run in which a closed interval sees three times the limit |
| ActivityMerging.NearIff | application/src/server/activity.rs:215-220 | activities count as close exactly if less than 61 seconds apart |
| ActivityMerging.SameClassIff | application/src/server/activity.rs:200-241 | activities are of one class exactly if they can be merged and agree on event and user, uploads also on the directory |
| ActivityMerging.FilesAreItems | application/src/server/activity.rs:288-296 | the files are the items of the `files` member if that is an array |
| ActivityMerging.FinalizeWrites | application/src/server/activity.rs:298-307 | finalizing writes the `files` member and nothing else |
| ActivityMerging.MergeActivities | application/src/server/activity.rs:197-286 | every class is merged as if alone, in order, what passes through keeps its order, and the last group of each class comes at the end, SFTP groups before uploads |
| ActivityMerging.Placement | application/src/server/activity.rs:212-236 | the activities of a class agree on event, user and directory and fall into consecutive runs, each near its first activity and begun out of reach of the one before; that first becomes the group holding all their files |
| ActivityMerging.MergeConserves | application/src/server/activity.rs:288-307 | the multiset of file values is unchanged |
| ActivityMerging.MergeIdempotent | application/src/server/activity.rs:197-286 | merging a merged batch leaves every class and everything passed through as it is |
| ActivityMerging.SendRound | application/src/server/activity.rs:125-142 | leftovers and new activities are merged, at most the send count is sent, no file value is lost between sent and kept |
| PowerActions.ServerStateLock.UpdateState | application/src/server/state.rs:56-80 | the state is set; a change to offline or starting clears a pending restart, no other change touches it |
| PowerActions.ServerStateLock.UpdatePendingRestart | application/src/server/state.rs:82-97 | the mark is cleared, or set unless the server is offline; either way none is left on an offline server |
| PowerActions.NextKeeps | application/src/server/state.rs:56-192 | every step of every caller and every outside write keeps the record of who holds the lock and wrote what |
| PowerActions.PowerActionSafety | application/src/server/state.rs:160-192 | in every reachable state: one action at a time, refused callers wrote and ran nothing, a failed one wrote its target and then the state read at entry, no pending restart while offline |
| PowerActions.ChangeClearsMark | application/src/server/state.rs:75-79 | a step that takes the server offline or starts it leaves no restart pending |
| PowerActions.MarkChanges | application/src/server/state.rs:75-97 | a pending restart appears or goes only by being marked, unmarked, or such a change |
| PowerActions.MarkIsNewerThanStart | application/src/server/state.rs:56-97 | over runs, a restart pending on a server that was started or went offline was asked for since |
| PowerActions.RevertRestoresIff | application/src/server/state.rs:169-188 | a failed action restores the state it found exactly if its caller had read that state at entry |
| PowerActions.RevertRestoresEntryIff | application/src/server/state.rs:169-188 | over runs: exactly if the state at the lock is that at entry, so always if nothing changed it in between |
| PowerActions.StaleRevert | application/src/server/state.rs:169-188 | a run in which a failing action takes a running server offline |
| PendingRestarts.StepKeepsIff | application/src/server/state.rs:56-97 | with the parts of the methods apart, a step leaves a lasting mark on an offline server exactly if it stores the mark late |
| PendingRestarts.MarkedOfflineIff | application/src/server/state.rs:56-97 | over every run, a mark on an offline server is always about to be cleared exactly if none was stored late |
| PendingRestarts.LateMark | application/src/server/state.rs:82-87 | a run that ends offline with a restart pending and nothing under way |
| PendingRestarts.LateMarkWasOvertaken | application/src/server/state.rs:82-87 | a mark stored on an offline server was checked before the server went offline |
| PendingRestarts.ChangeIsCleared | application/src/server/state.rs:56-80 | after a change to offline or starting, its clearing is still to come or the mark has been clear since |
| CrashRestarts.CrashRecord.Admit | application/src/server/mod.rs:739-792 | a restart goes ahead exactly if none is recorded or the timeout has passed, and is then recorded |
| CrashRestarts.DecideIff | application/src/server/mod.rs:739-792 | in the step system, too, a restart goes ahead exactly if none is recorded or the timeout has passed |
| CrashRestarts.StopHandling | application/src/server/mod.rs:616-672 | a stop goes on to crash handling exactly if nobody asked for it, detection is on and it is not handled yet; one that was asked for uses the request up |
| CrashRestarts.RestartsFollowCrashes | application/src/server/mod.rs:603-811 | over runs, every task in crash handling, and so every crash restart, goes back to a stop nobody asked for |
| CrashRestarts.NextKeeps | application/src/server/mod.rs:603-811 | every step of every status task, and any change of the flags, keeps the spacing |
| CrashRestarts.CrashRestartsAreSpaced | application/src/server/mod.rs:603-811 | in every run recorded crash restarts are a timeout apart, so an interval holds at most one a timeout and one more |
| PathCover.Between | application/src/utils.rs:195-201 | in component order, what lies between a path and its descendant is a descendant |
| PathCover.DeduplicatePaths | application/src/utils.rs:187-207 | exactly the paths without a proper ancestor in the list, each once, in order; every path has exactly one of them as prefix |

## Left out

- Transport, TLS, HTTP, zstd, CRC-32 and SHA-256: downloads, uploads and encodings are exact, and the digest is a function without collisions among the contents at hand.
- FastCDC: the chunks of a stream are any sequence of byte strings.
- FileReading.PbsFileReader.PollRead: the reader works on the whole archive instead of one pxar entry's contents, and a read's access to chunks happens at the poll that completes it.
- Write errors of the catalog's sink: the sink is in memory.
- 64-bit overflow of catalog positions and archive sizes: positions are unbounded, and the round trips are stated for files below 2^64 bytes.
- CatalogReading.ParseCatalog: on a platform whose usize is narrower than 64 bits further errors exist; paths are sequences of names, as the names accepted hold no separator.
- ChunkReading.ChunkReader.constructor: the index describes the chunks it names; damaged index files and chunks are not modelled.
- InFlightLimits.NextKeeps: what happens under the mutex is one step, and weak-memory effects are not modelled.
- FallibleReading.PlainModeIsCompleteIff: the wrapped reader is a pipe that is not ready only while open and empty; the runtime's cooperative budget, which makes both polls of a read not ready, and wakers are not modelled.
- DynamicIndex.UploadedIndexDescribes: the header's contents and the index checksum are not modelled, and the server is taken to lay out what was registered.
- Tailing.AsyncTail: a file that changes while it is read, and I/O errors, are not modelled.
- LineBuffering.LogsLines: lines are bytes; their lossy conversion to text is not modelled.
- PathCover.DeduplicatePaths: a path is its sequence of components, not its raw spelling.
- PathStripping.StripPaths: removal through a mutable cursor is a functional update, and a path is given as its keys instead of a dotted string.
- EnvironmentOverrides.Apply: lower-casing and the YAML value parser are parameters, and log lines are pairs of name and path.
- PowerActions.NextKeeps: each method call is one step here, and cancelled callers are not modelled; overlapping parts of the methods are the subject of PendingRestarts, where comparing and setting the state are still one step.
- CrashRestarts.NextKeeps: container, schedule and disk-limiter effects, and changes of the timeout, are not modelled; flags change arbitrarily.
- RateLimiting.LimitedStream.Transact: how much longer than asked a sleep lasts is an input.
- LimitedWriter: the same accounting as the blocking reader, modelled once.
- Shared worker errors, walk batches, token use counts, denied token ids and expiry checks: single-branch facts.
- Configuration defaults, commands, set-up, installation, routes, websockets and container execution: input and output without a deep invariant.
