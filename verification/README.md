# Verified models of the `ii` file-transfer tool

`ii` moves files between machines: directly, over HTTP and WebDAV, and through object stores. Its
hand-written state machines and codecs are modelled here in Dafny, and what they are for is proved.
Code that changes state is a class or a method with the source's loops and branches; each is proved
against a pure function, and the theorems are about those functions and their histories. A socket,
file or server that may behave in several ways is a class whose methods choose freely: read sizes,
failures, the order of events and lost answers are all arbitrary.

`dafny verify dfyconfig.toml` checks the project.

## Modules

| module | what it is about |
|---|---|
| `ChunkedCoding`, `ChunkedMessages`, `ChunkedStreams`, `Bytes`, `Utf8` | Chunked transfer coding (section 7.1 of RFC 9112): the messages as a grammar, and one pure decoder that accepts exactly those; the DAV body reader, the byte counter and the proxy relay, each of which mixes buffered bytes with direct reads, refine it. |
| `RequestBody` | The body of a PUT, chunked or sized, from the connection to a file. |
| `DavTree`, `DavServer`, `DavSafety` | The WebDAV server (RFC 4918): files, locks, every state-changing method, and what holds over any sequence of requests. The handlers give the store and answer of one reply function each; what those mean is said in `DavSafety`. |
| `KeepAlive` | The scheduler of a sender that stays up: active transfers, handshakes, a FIFO queue and two limits. |
| `RateLimiting` | The limiter that concurrent streams share, in exact time. |
| `Watch`, `WatchScan` | The directory watch: the debouncer over a history of scans, and what one scan finds. |
| `ArchiveWalk`, `DirGraph` | The filtered archive walk over a directory graph with symbolic links. |
| `Resume` | Resumable receiving: plan, seek, append, and a cut at any byte. |
| `XmlText`, `Multipart`, `Pieces`, `Readers`, `Decimal` | Uploads to S3, from a stream with short reads to the object a server assembles from the completion document. |
| `PercentCoding`, `SignedRequest` | What an S3 request signs and what it sends. |
| `Multistatus` | Recognising a WebDAV answer from XML reader events. |
| `AzureBlocks`, `Base64` | Block uploads to Azure. |
| `JsonLine` | Event lines that a JSON parser reads back. |
| `Wrappers`, `Sequences` | What the others share. |

## What the code does that one might not expect

- Locks move along with MOVE, where section 7.6 of RFC 4918 has them stay behind. A permitted MOVE can
  therefore put one lock above another: `DavSafety.MoveKeepsApart` gives the exact condition,
  `DavSafety.MoveCanNestLocks` a family of examples. The guard of locked subtrees holds regardless.
- MOVE and COPY remove the destination before they read the source. When the destination contains the
  source, or is the source and a file, the request fails and the data is gone:
  `DavSafety.FailedTransferLosesData` says exactly when, `DavSafety.OntoItselfIsLost` gives a family.
- Automatic resume trusts any shorter file to be the start of the source and does not compare digests
  afterwards: `Resume.CompletedIsSource`, `Resume.UnrelatedFileIsContinued`.
- A download from an object store cannot tell a body that is cut short from one that has ended: the HTTP
  client reads a body of known length until the connection ends
  (`vendor/attohttpc/src/parsing/body_reader.rs:14`, `vendor/attohttpc/src/tls/rustls_impl.rs:144-148`),
  and the copy loop takes that for the end of the object. Such a receive reports success, and an object
  that is to be deleted after receiving is then deleted: `Resume.CutBodyIsReportedComplete`. What is
  there is still a prefix, and comparing its length with the ticket's size would tell. The theorem that a
  completed receive leaves the source holds for the peer route only.
- A server that ignores Range makes a resumed download start afresh, so it may hold less than before
  when it is cut; it is still a prefix: `Resume.IgnoredRangeLosesGround`.
- A bucket name with a slash, in path style, is sent with `%2F` and signed with `/`:
  `SignedRequest.SignedPathIsSent`, `SignedRequest.SlashInBucketIsSignedDifferently`.
- The canonical query is sorted before its names are encoded, where Signature Version 4 sorts after. For
  the names in use it makes no difference; `SignedRequest.ServerSignsTheSame` says when it does.
- The answer to a completed multipart upload is judged by its status alone, so that an error in the body
  of a 200 counts as success: `Multipart.ErrorUnder200CountsAsSuccess`, `Multipart.PutObjectStream`.
- A character or entity reference outside the root element is accepted, though text there is not:
  `Multistatus.ReferenceOutsideIsAccepted`, `Multistatus.StrictlyYesExactly`.
- The archive walk treats a directory that returns to its own path as an error, the watch scan passes
  over it.

## Model

| member | source | states |
|---|---|---|
| `Bytes.FromStrRadixOfUpperHex` | src/service/network.rs:544-546 | A chunk size printed in upper-case hex is read back by `from_str_radix` for every 64-bit size |
| `Bytes.FromStrRadixExactly` | src/web/dav.rs:651-652 | A chunk size is read from digits of either case, with any leading zeros and one plus sign or none, that write a 64-bit number, and from no other text |
| `Utf8.ValidExactly` | src/web/dav.rs:688-690 | The byte-wise UTF-8 test passes exactly the codings of sequences of code points, as RFC 3629 defines them |
| `ChunkedMessages.HeaderExactly` | src/web/dav.rs:650-652 | A header line announces n iff it is UTF-8 and a size that writes n, alone or before a semicolon and anything else |
| `ChunkedMessages.MessageIsDecoded` | src/web/dav.rs:644-680 | Every chunked message, in any such spelling, with any extensions and trailers and anything behind it, decodes to its data, its trailers and its longest line |
| `ChunkedMessages.AcceptedExactly` | src/web/dav.rs:644-680 | The decoder accepts exactly the inputs that begin with a chunked message, a grammar written without it |
| `ChunkedCoding.DecodeExtends` | src/web/dav.rs:644-680 | Bytes behind an accepted message change nothing but what is left over |
| `ChunkedCoding.DecodeIsLocal` | src/service/network.rs:274-321 | The consumed prefix alone, followed by anything, decodes to the same body and trailers |
| `ChunkedCoding.DecodeOfEncode` | src/service/lan.rs:407-434 | Decoding any sequence of non-empty chunks as the speed writers frame them gives their concatenation and leaves exactly what follows |
| `ChunkedStreams.Wire.FillPending` | src/service/network.rs:924-934 | A read moves bytes from the stream to the buffer, so buffer ++ stream stays the same; it fails only at the end of the stream |
| `ChunkedStreams.Wire.TakeLine` | src/web/dav.rs:682-704 | However the stream is cut into reads, a returned line is the text before the first CRLF of the unconsumed input; failure means no CRLF, a line of 8192 bytes or more, or invalid UTF-8 |
| `ChunkedStreams.Wire.Fill` | src/web/dav.rs:706-720 | Nothing is consumed; on success the wanted bytes are buffered, on failure the input is shorter |
| `ChunkedStreams.Wire.TakeTrailers` | src/web/dav.rs:653-656 | Consumes exactly the trailers the pure decoder sees |
| `ChunkedStreams.Wire.CopyChunk` | src/web/dav.rs:657-672 | Buffered bytes and direct reads together append exactly the next `length` bytes of the input to the file |
| `ChunkedStreams.Wire.TakeChunk` | src/web/dav.rs:657-678 | Succeeds iff the chunk is complete and followed by CRLF |
| `ChunkedStreams.Wire.WriteChunkedBody` | src/web/dav.rs:644-680 | Success writes exactly the decoder's body and leaves exactly its rest; failure on an input the decoder accepts happens only with a line of 8192 bytes or more or a trailer that is not UTF-8 |
| `ChunkedStreams.Wire.ReadLine` | src/service/network.rs:886-898 | First line of buffer ++ stream, or none within 16 KiB and nothing consumed |
| `ChunkedStreams.Wire.ReadExactBuffered` | src/service/network.rs:913-922 | Takes exactly the next bytes of the input, or fails because there are fewer |
| `ChunkedStreams.Wire.Discard` | src/service/network.rs:900-911 | Skips exactly `length` bytes of the input whatever the buffer holds |
| `ChunkedStreams.Wire.SkipTrailers` | src/service/network.rs:868-874 | Ends where the decoder's trailers end |
| `ChunkedStreams.Wire.DiscardChunk` | src/service/network.rs:875-879 | Succeeds iff the chunk is complete and followed by CRLF, and ends behind it |
| `ChunkedStreams.Wire.ReadChunkedCount` | src/service/network.rs:858-884 | Returns the length of the body the decoder gives, so of the body the DAV reader writes; fails on an accepted input only with a 16 KiB line or a body of 2^64 bytes |
| `ChunkedStreams.Wire.RelayBuffered` | src/service/network.rs:323-343 | Forwards exactly the next bytes of the input, also when it fails half way |
| `ChunkedStreams.Wire.RelayTrailers` | src/service/network.rs:294-308 | output ++ unconsumed input stays the same; ends where the decoder's trailers end |
| `ChunkedStreams.Wire.RelayChunk` | src/service/network.rs:309-319 | Forwards a chunk with its CRLF; never forwards a byte that was not received |
| `ChunkedStreams.Wire.RelayChunked` | src/service/network.rs:274-321 | Success forwards byte for byte the prefix the decoder consumes; failure forwards only received bytes in order |
| `ChunkedStreams.WriteSpeedBody` | src/service/network.rs:542-563 | The writer's output is the encoding of `rounds` copies of the data |
| `ChunkedStreams.SpeedTransfer` | src/service/lan.rs:407-462 | Writer, proxy relay and counter in a row, under any read sizes, count exactly what was written |
| `DavTree.GraftIsCopy` | src/web/dav.rs:896-907 | A copied tree is the source's, node for node; the source and everything outside the destination are as before |
| `DavTree.GraftKeepsWellFormed` | src/web/dav.rs:896-907 | Every node keeps an existing directory as its parent |
| `DavServer.Server.PruneLocks` | src/web/dav.rs:806-809 | The loop over the table leaves exactly the locks that expire later than now |
| `DavServer.Server.LockPermits` | src/web/dav.rs:787-795 | True iff every live lock at, above or below the target is presented |
| `DavServer.Server.MoveLocks` | src/web/dav.rs:811-825 | The loops that take locks out and put them back: live locks at and below the source reappear at the same place below the destination, replacing what was there |
| `RequestBody.WriteRequestBody` | src/web/dav.rs:616-642 | Chunked, sized or neither: success adds exactly the body the input delivers to the file, and failure comes only where no body is delivered or a chunk line reaches the cut-off |
| `RequestBody.WriteSizedBody` | src/web/dav.rs:629-641 | Succeeds iff the input holds the declared length, and then the file gains exactly that many bytes, buffered ones first |
| `RequestBody.EncodedIsDelivered` | src/web/dav.rs:616-680 | Any non-empty chunks, framed and followed by anything, cut between head and body anywhere: reading cannot fail, and the body delivered is the chunks joined and no other |
| `RequestBody.MessageIsDelivered` | src/web/dav.rs:616-680 | The same for every chunked message with lines below 8 KiB and text trailers, sizes in either case and extensions included |
| `RequestBody.SizedIsDelivered` | src/web/dav.rs:629-641 | A sized body can be read iff the input delivers a body of that length |
| `DavServer.Server.Put` | src/web/dav.rs:320-359 | From the bytes on the connection to the tree: a PUT that may be made stores exactly the body they decode to, or answers 400 on input that can fail; one that is not carried out leaves the tree as it was, and 423 comes before anything is read |
| `DavServer.PutSucceedsExactly` | src/web/dav.rs:327-357 | PUT is carried out iff its path may hold a file, its locks are presented and its body has come; nothing but that file changes, and then only |
| `DavServer.Server.CopyPath` | src/web/dav.rs:896-907 | The recursive copy, child by child in any order, makes the destination exactly the source's subtree and fails only when the source is gone or there is no place for it |
| `DavServer.Server.CopyEntries` | src/web/dav.rs:896-907 | The loop over a directory's entries: whatever order they are listed in, the whole subtree has been copied at its end |
| `DavServer.Server.MoveOrCopy` | src/web/dav.rs:424-499 | The reply and the new store for every combination of source, destination, overwrite and locks, with the destination removed before the source is read |
| `DavSafety.ServeKeepsWellFormed` | src/web/dav.rs:320-499 | Every request leaves a tree without orphans |
| `DavSafety.RunKeepsWellFormed` | src/web/dav.rs:320-596 | So does every sequence of requests |
| `DavSafety.ServeIsGuarded` | src/web/dav.rs:787-804 | No request that does not present a live lock's token changes any node at or below the locked path, or the lock |
| `DavSafety.RunIsGuarded` | src/web/dav.rs:320-596 | The same over any sequence of such requests |
| `DavSafety.LockLasts` | src/web/dav.rs:516-547 | A new or refreshed lock is live at exactly the readings below now + d: d is 3600 without a Timeout header, n for 1 <= n <= 3600, 1 for 0 and 3600 above |
| `DavSafety.LockProtects` | src/web/dav.rs:501-566 | From a successful LOCK until those d seconds have passed, requests without the returned token leave everything at and below the path as it was, and the lock in place |
| `DavSafety.OneLockCovers` | src/web/dav.rs:532-537 | While locked paths are prefix-incomparable, at most one lock covers any path |
| `DavSafety.MoveKeepsApart` | src/web/dav.rs:811-825 | Moving locks keeps locked paths incomparable iff no lock that stays is above the destination or clashes with an arriving one |
| `DavSafety.ServeKeepsApart` | src/web/dav.rs:501-596 | LOCK, refresh, UNLOCK, expiry and the other methods keep locked paths incomparable; a MOVE does iff it cannot be carried out or its locks arrive clear of those that stay, both read off the state before it |
| `DavSafety.RunKeepsApart` | src/web/dav.rs:501-596 | Hence over every sequence of requests whose moves are clear |
| `DavSafety.FreeDestinationIsClear` | src/web/dav.rs:811-825 | A destination to which no unmoved lock is comparable is always clear |
| `DavSafety.MoveCanNestLocks` | src/web/dav.rs:487-488 | A family of stores and permitted MOVE requests after which one lock lies above another |
| `DavSafety.TransferSucceedsExactly` | src/web/dav.rs:424-499 | A MOVE or COPY succeeds iff the source exists, neither path contains the other, the destination's parent is a directory, an existing destination may be overwritten and all locks of both are presented |
| `DavSafety.SuccessfulTransfer` | src/web/dav.rs:460-487 | What a successful MOVE or COPY answers, 204 over an old destination and 201 otherwise, and what it makes of the tree |
| `DavSafety.CopyReproduces` | src/web/dav.rs:484-493 | A successful COPY reproduces the source's subtree and leaves it and everything else outside the destination unchanged |
| `DavSafety.MoveIsCopyThenDelete` | src/web/dav.rs:414-493 | A successful MOVE gives the tree of COPY followed by DELETE of the source, with the same answer |
| `DavSafety.FailedTransferLosesData` | src/web/dav.rs:469-493 | A MOVE or COPY fails and has changed the tree all the same iff it is a permitted overwrite whose destination is the source file or contains the source |
| `DavSafety.OntoItselfIsLost` | src/web/dav.rs:477-486 | A family of such losses: a file moved or copied onto itself is gone and the request fails |
| `DavSafety.BlockedIsRefused` | src/web/dav.rs:787-795 | For every lock table: 423 is answered only when a live lock on a touched path stands against the request, and no such request is carried out; against a LOCK stands the path's own lock when its token is missing, or any comparable lock when the path has none |
| `DavSafety.OnlyNamedChanges` | src/web/dav.rs:320-596 | No request changes a node or a live lock that is neither at nor below a path it names |
| `DavSafety.RefusedIsUnchanged` | src/web/dav.rs:320-596 | A request that is not carried out leaves tree and live locks as they were; the one exception is a transfer that failed |
| `DavSafety.MkcolSucceedsExactly` | src/web/dav.rs:361-395 | MKCOL succeeds iff it has no body, nothing is at its path, the parent is a directory and the locks are presented; it then adds an empty directory and nothing else |
| `DavSafety.DeleteSucceedsExactly` | src/web/dav.rs:397-422 | DELETE succeeds iff its path is there, is not the root and its locks are presented; the whole subtree goes and nothing else |
| `DavSafety.LockSucceedsExactly` | src/web/dav.rs:501-566 | LOCK succeeds iff the path could hold a file and either its own lock's token is presented, which is kept, or no live lock is comparable, and the new token stands; no other lock changes |
| `DavSafety.UnlockSucceedsExactly` | src/web/dav.rs:568-596 | UNLOCK succeeds iff the live lock at its path has the given token; that lock goes and nothing else |
| `DavSafety.RefusalMeans` | src/web/dav.rs:320-596 | Every status other than success names a reason that holds in the state before the request |
| `DavSafety.UnlockUndoesLock` | src/web/dav.rs:501-596 | UNLOCK with the token in force, within the granted seconds, leaves the other locks that would be there without the LOCK: after a new lock all of them, after a refresh all but the refreshed one |
| `DavSafety.DeleteUndoesCreation` | src/web/dav.rs:320-422 | DELETE by the same presenter takes back exactly what PUT or MKCOL has just made |
| `KeepAlive.RefillSettles` | src/service/send.rs:523-543 | The refill at the top of the loop keeps the numbering and leaves the queue empty or the active set full |
| `KeepAlive.RunSettles` | src/service/send.rs:442-506 | In every run: started connections are 1..k in order, waiting is k+1..next-1, the limits hold, and a non-empty queue means full activity |
| `KeepAlive.QueueIsBounded` | src/service/send.rs:519-521 | The queue never exceeds its limit, though only the sum is checked |
| `KeepAlive.RefillTakesFront` | src/service/send.rs:531-535 | A refill starts exactly the front of the queue, as many as fit |
| `KeepAlive.StartsCountCompletions` | src/service/send.rs:455-461 | How many queued connections start equals the completions, until the queue runs out |
| `KeepAlive.WaitIsExact` | src/service/send.rs:442-543 | A connection at queue position p has been started iff at least p + 1 transfers have completed since |
| `KeepAlive.RunConserves` | src/service/send.rs:455-461 | Started minus active moves with completions, and the total counts exactly the transfers reported as sent |
| `KeepAlive.RunTakesEveryone` | src/service/send.rs:465-504 | Over every run: started plus waiting connections grow by exactly the handshakes that ended well; handshakes under way are those admitted, while active, waiting and handshakes are below the two limits together, less those finished |
| `KeepAlive.FreeSlotIsUsed` | src/service/send.rs:470-484 | A connection whose handshake ends while a slot is free gets the next number and starts at once |
| `KeepAlive.RunningExactly` | src/service/send.rs:458-464 | The running transfers are exactly those started and not completed since |
| `KeepAlive.UpToStopIsLongest` | src/service/send.rs:455-457 | What is handled is everything before the first interrupt or closing of the endpoint |
| `KeepAlive.Sender.StartTransfer` | src/service/send.rs:545-566 | The transfer becomes active and is recorded as started |
| `KeepAlive.Sender.StartQueuedTransfers` | src/service/send.rs:523-543 | The loop that pops the queue is the refill function |
| `KeepAlive.Sender.Select` | src/service/send.rs:452-506 | One arm of the select statement, for any arm that is enabled |
| `KeepAlive.Sender.Serve` | src/service/send.rs:435-517 | The whole loop returns the sent count and start order of the run up to the first stop, and leaves nothing behind |
| `RateLimiting.RateIsKept` | src/transport/progress.rs:284-292 | For any interleaving and any clock readings, the bytes let go by time T never exceed rate x (T - creation) |
| `RateLimiting.WaitIsBounded` | src/transport/progress.rs:284-292 | With k streams holding one reservation each, no wait exceeds k of the longest reservations |
| `RateLimiting.ChunkOverRate` | src/transport/progress.rs:266-288 | What a chunk takes, times the rate, is the chunk size |
| `RateLimiting.ChunkWaits` | src/transport/progress.rs:266-292 | With one chunk-sized reservation a stream at a time no wait exceeds k times what a chunk takes |
| `RateLimiting.TurnKeeps` | src/transport/progress.rs:206-226 | A step of any copy loop, reading and reserving or waking and writing, keeps one chunk-sized reservation per stream and loses no byte |
| `RateLimiting.RunKeeps` | src/transport/progress.rs:206-226 | So does any schedule of any number of loops |
| `RateLimiting.CopiesWaitInTurn` | src/transport/progress.rs:193-292 | For any streams and any schedule, no reservation waits longer than the number of streams times what a chunk takes |
| `RateLimiting.CopiesAreWhole` | src/transport/progress.rs:193-247 | A stream that has ended has written its source and reserved just as many bytes |
| `RateLimiting.TurnsFinish` | src/transport/progress.rs:193-247 | Twice its bytes and one more turns finish a stream, none of them taken while it has to sleep, whatever the others do |
| `RateLimiting.Copies.Turn` | src/transport/progress.rs:206-226 | One step of one loop on the shared limiter: read at most a chunk, reserve, sleep, write |
| `RateLimiting.Copies.Run` | src/transport/progress.rs:206-226 | Any schedule of such steps |
| `RateLimiting.QuarterSecondPerStream` | src/transport/progress.rs:266-268 | From four bytes a second on that is at most a quarter of a second per stream |
| `RateLimiting.ChunkSize` | src/transport/progress.rs:266-268 | Between 1 and 64 KiB, and at most a quarter of the rate when that is at least one byte |
| `RateLimiting.ChunkIsQuarter` | src/transport/progress.rs:266-268 | Exactly a quarter of a second's bytes, rounded down, but at least 1 and at most 65536 |
| `RateLimiting.RateLimiter.Reserve` | src/transport/progress.rs:284-292 | Claims the next free stretch and returns the time to its end |
| `Watch.PendingHasWindow` | src/service/watch.rs:38-48 | A timed stamp was first seen at its start and has not been interrupted since |
| `Watch.WindowIsPending` | src/service/watch.rs:38-48 | An uninterrupted stretch of one new stamp is being timed from its beginning at the latest |
| `Watch.QueuedExactly` | src/service/watch.rs:37-58 | A path is queued by a scan iff its stamp differs from the last one dealt with and a scan at least `stabilize` earlier began an uninterrupted stretch of it |
| `Watch.NeverTwice` | src/service/watch.rs:49-53 | The same stamp is queued twice only with another stamp or an absence in between |
| `Watch.QueuedInTime` | src/service/watch.rs:37-58 | A new stamp that holds through `stabilize` is queued by then |
| `Watch.SeenExactly` | src/service/watch.rs:34-58 | What a path was last seen as is the stamp queued last, or the one at start-up while nothing was queued, and nothing after an absence |
| `Watch.ReturnIsQueued` | src/service/watch.rs:57-58 | A stamp that returns after an absence and holds through the delay is queued again |
| `Watch.Watcher.Consider` | src/service/watch.rs:37-56 | The maps change for one path as the per-path rule says, and for no other |
| `Watch.Watcher.Turn` | src/service/watch.rs:36-58 | One scan applies the rule to every path, found or not, and queues no path twice |
| `Watch.WatchAll` | src/service/watch.rs:28-70 | Over any history of scans, scan n queues p iff the history of p alone says so |
| `WatchScan.ScanFindsExactly` | src/service/watch.rs:136-182 | On any graph, cycles included, a scan finds exactly the selected files (and, when links are rejected, every link) reached through pairwise distinct directories |
| `WatchScan.ScanFailsExactly` | src/service/watch.rs:159-162 | A scan fails iff following leads to a broken link through pairwise distinct directories |
| `WatchScan.LinkIsScanned` | src/service/watch.rs:152-165 | A followed link finds what its target finds and fails if there is none; a kept one is found as a selected file would be, a rejected one always, and neither is entered |
| `WatchScan.PlainIsScanned` | src/service/watch.rs:145-178 | Files are found if selected and directories on their own path passed over, under every policy |
| `WatchScan.Scanner.Consider` | src/service/watch.rs:146-179 | What one entry adds to the result |
| `WatchScan.Scanner.ScanDirectory` | src/service/watch.rs:136-182 | The recursion computes the scan and restores `visited` |
| `WatchScan.Scanner.ScanEntries` | src/service/watch.rs:146-180 | The loop over a listing adds what each entry adds |
| `ArchiveWalk.WalkOrder` | src/transport/source.rs:602-638 | Archive paths never repeat, and every directory follows all its descendants |
| `ArchiveWalk.WalkEmitsLeaves` | src/transport/source.rs:572-643 | A file, or a preserved link, is emitted iff it is selected and no directory above it is excluded |
| `ArchiveWalk.WalkEmitsDirs` | src/transport/source.rs:602-638 | A directory is emitted iff neither it nor one above is excluded and it is selected or something below it is emitted |
| `ArchiveWalk.WalkKeepsParents` | src/transport/source.rs:632-636 | Whatever is emitted brings its parent directory, inside each input |
| `ArchiveWalk.WalkStopsExactly` | src/transport/source.rs:572-612 | The walk ends on every graph, and in an error iff a path through unexcluded directories leads to a refused link or back to a directory on that path |
| `ArchiveWalk.InputsOrder` | src/transport/source.rs:360-381 | Archives of several inputs keep distinct paths and the order |
| `ArchiveWalk.Archiver.AppendFilteredPath` | src/transport/source.rs:562-644 | Appends exactly what the walk emits, restores `visited`, and returns true iff something was appended |
| `ArchiveWalk.Archiver.AppendDirectory` | src/transport/source.rs:602-638 | The same for a directory, which is appended last |
| `ArchiveWalk.Archiver.AppendEntries` | src/transport/source.rs:617-631 | The same for the loop over a directory's entries |
| `ArchiveWalk.Archiver.AppendInputs` | src/transport/source.rs:360-381 | The loop over the inputs stops on a repeated name or a failed walk |
| `ArchiveWalk.NoRepeatIsDistinct` | src/transport/source.rs:366-368 | The set of seen names detects exactly the repeated top-level names |
| `ArchiveWalk.InputsEmitFiles` | src/transport/source.rs:364-382 | Of each input exactly those files are archived that the globs select: inside a directory, or a link to one, by the path from it on, otherwise by the input's name, with no directory on the way excluded |
| `ArchiveWalk.FollowedLink` | src/transport/source.rs:572-603 | A followed link yields what its target yields, and is an error without one |
| `ArchiveWalk.UnfollowedLink` | src/transport/source.rs:572-597 | A kept link yields itself if selected and is never entered; a rejected one stops the walk |
| `ArchiveWalk.PlainEntries` | src/transport/source.rs:602-652 | A file yields itself if selected; a directory its entries and then itself if it or something in it is selected, nothing if excluded, an error on its own path |
| `ArchiveWalk.Archiver.FromArchive` | src/transport/source.rs:357-395 | Success iff the names are distinct, no walk fails and something matched; then the archive holds exactly the files of the rows above, directories after what they hold |
| `Resume.Destination.Copy` | src/transport/progress.rs:193-247 | Under any read sizes, failed reads and half-done writes, the file gains a prefix of what was to be read, all of it unless one of those failed; the count saturates at 2^64 - 1 |
| `Resume.Destination.WriteToFile` | src/transport/p2p.rs:24-59 | Appends when resuming and starts afresh otherwise; success iff no open, read or write fails; a failed open changes nothing |
| `Resume.Destination.DownloadS3ToFile` | src/backend/s3.rs:266-310 | 206 continues the file; 200 to a ranged request starts afresh from a second, whole answer; success iff the answer in use has a status of the 200s and no open, read or write fails, the body being taken to end wherever it was cut; a failure status leaves the file unopened and unchanged |
| `Resume.Destination.ReceiveFromPeer` | src/service/recv.rs:89-285 | Plan, request, seek and append together are one step of the receive relation, complete only with the whole payload; failed only by the plan, a refused archive, or a fault |
| `Resume.Destination.ReceiveFromStore` | src/backend/s3.rs:174-214 | So are plan and download from an object server, whatever it makes of Range and wherever its body ends; failed only by the plan, the last status, or a fault |
| `Resume.Stream` | src/transport/source.rs:464-485 | The sender streams from the offset on, nothing past the end, and refuses to resume an archive |
| `Resume.PrefixIsKept` | src/transport/p2p.rs:275-336 | One receive by either route keeps a prefix of the source a prefix; one that reports success has the source iff the length is right, and always from a peer or by a skip |
| `Resume.AnyReceivesHoldAPrefix` | src/transport/p2p.rs:275-336 | From no file, through any receives with any flags, by any mix of routes, cut at any byte: always a prefix, and success as in the row above |
| `Resume.CutBodyIsReportedComplete` | src/backend/s3.rs:294-307 | For every source, every start and every cut, a store's body that ends early is written and reported as complete |
| `Resume.CompletedIsSource` | src/transport/p2p.rs:275-327 | From any old file, what a completed receive leaves equals the source iff everything was delivered and it started afresh or the old file was a prefix |
| `Resume.SkippedIsSource` | src/transport/p2p.rs:302-310 | A skip changes nothing and means equal size and digest, no more |
| `Resume.UnrelatedFileIsContinued` | src/transport/p2p.rs:312-324 | Every shorter file that is not a prefix is continued without flags into one of the right size and the wrong content |
| `Resume.OverwriteBeginsAfresh` | src/transport/p2p.rs:281-284 | Under --overwrite, whatever was there: an opened file is left with a prefix of the source, and by a completed receive from a peer with exactly the source |
| `Resume.ResumeGoesOn` | src/transport/p2p.rs:285-292 | Under --resume a directory in the way and an archive are refused; any file is continued from its own length, and none is begun afresh |
| `Resume.PlainReceive` | src/transport/p2p.rs:293-327 | Without flags a file of the ticket's size and digest, and no other, is skipped; a shorter one is continued; any other, or none, is begun afresh; a directory is refused |
| `Resume.ReceivesMayComplete` | src/transport/p2p.rs:275-327 | None of these is refused without need: each may complete from a peer |
| `Resume.GroundIsKeptExactly` | src/backend/s3.rs:279-293 | Bytes of a prefix already held are kept iff the file is not opened, is appended to, or is begun afresh and filled as far again |
| `Resume.GroundIsKept` | src/transport/p2p.rs:300-327 | Given a ticket with the source's size and digest: without --overwrite and a range-ignoring server no receive gives up bytes it holds |
| `Resume.IgnoredRangeLosesGround` | src/backend/s3.rs:281-284 | For every prefix held, a server that ignores Range and is cut earlier leaves less than before |
| `XmlText.EscapeIsOnePass` | src/s3.rs:423-430 | Five replacements in a row replace every special character once, none of their own output |
| `XmlText.UnescapeOfEscape` | src/s3.rs:423-439 | Unescaping gives back every string |
| `XmlText.EscapeHasNoMarkup` | src/s3.rs:423-430 | Escaped text holds no angle bracket |
| `XmlText.XmlTagReadsEscaped` | src/s3.rs:415-421 | The first tag of a name yields exactly the value that was escaped into it |
| `Decimal.ValueOfNumeral` | src/s3.rs:162-163 | A printed number reads back as itself |
| `Multipart.ChunksTile` | src/s3.rs:152-183 | Parts concatenate to the source, none is empty, all but the last are CHUNK_SIZE long, and there are ceil(length / CHUNK_SIZE) |
| `Multipart.CompletionBody` | src/s3.rs:185-193 | The loop writes the completion document of the collected parts |
| `Multipart.CompletionReadsBack` | src/s3.rs:185-193 | A reader of that document finds exactly the part numbers and tags in order, whatever characters the tags hold |
| `Multipart.CompletionIsXml` | src/s3.rs:184-192 | The document's tags, letter by letter |
| `Multipart.CompletionMakesSource` | src/s3.rs:185-203 | A server that assembles the listed parts gets the source |
| `Multipart.ReadChunk` | src/s3.rs:385-397 | Under any short reads the chunk is full unless the stream has ended; there is none iff a read failed |
| `Multipart.UploadParts` | src/s3.rs:159-183 | Uploads exactly the chunks of the stream as parts 1, 2, ... and collects their tags; stops early iff a read or a request fails |
| `Multipart.PutMultipart` | src/s3.rs:150-202 | Success iff the completion was answered with a status of 200 to 299, a hidden failure iff with an error body besides; the object is the source iff the answer reports no error |
| `Multipart.ErrorUnder200CountsAsSuccess` | src/s3.rs:195-203 | An error in the body of a 200 answer to the completion passes as success in any state of the store |
| `Multipart.InitiateMultipart` | src/s3.rs:140-150 | A returned id is that of the new, empty upload |
| `Multipart.PutInParts` | src/s3.rs:113-118 | The same, and after anything else than success the last call aborts the upload if its id is known; one that stays open was so aborted, or the answer to its initiation was lost |
| `Multipart.PutObjectStream` | src/s3.rs:107-119 | For any stream, read sizes and server failures: success iff the one PUT (below 8 MiB) or the completion (from there on) was answered with a status of 200 to 299; then everything has been read, the calls are that PUT or the chunks as parts, and object == source with nothing left open, unless a completion error was hidden under that status; any other outcome with a known id ends in its abort |
| `PercentCoding.DecodeOfEncode` | src/s3.rs:449-459 | Percent-decoding undoes `uri_encode`, in either slash mode and whatever follows |
| `PercentCoding.EncodeIsInjective` | src/s3.rs:449-459 | Different texts encode differently |
| `PercentCoding.DecodeSplitsAtSlash` | src/s3.rs:478-479 | Decoding a path decodes its segments, stray percent signs included |
| `PercentCoding.EncodedAlphabet` | src/s3.rs:16-46 | Only unreserved characters, percent signs and, where allowed, slashes remain |
| `PercentCoding.EncodeByteExactly` | src/s3.rs:16-46 | Each of the sixty-six listed characters, and a slash unless it is to be encoded, stands for itself, every other byte becomes a percent sign and two upper-case digits |
| `PercentCoding.ListedTextIsKept` | src/s3.rs:16-46 | Text of those characters is its own encoding |
| `PercentCoding.EncodingsAgree` | src/s3.rs:46-46 | The two encodings agree on text without slashes and the stricter one is never shorter |
| `SignedRequest.SignedIsCanonical` | src/s3.rs:478-481 | Decode, repair and encode return a path unchanged iff it is the encoding of valid UTF-8 |
| `SignedRequest.Utf8Splits` | src/s3.rs:478-478 | Text joined by an ASCII character is valid UTF-8 iff both sides are |
| `SignedRequest.SignedPathIsSent` | src/s3.rs:358-367 | The signed path is the sent path iff the endpoint's own path is canonical and, in path style, the bucket holds no slash; for every key |
| `SignedRequest.ServerReadsKey` | src/s3.rs:358-367 | Decoding the path that is sent gives, behind the endpoint's path, the bucket in path style and the key without its leading slashes |
| `SignedRequest.SlashInBucketIsSignedDifferently` | src/s3.rs:358-367 | Every bucket name with a slash, in path style, is sent and signed differently, for every endpoint path and key |
| `SignedRequest.SortSorts` | src/s3.rs:462-463 | Sorting gives an ordered permutation |
| `SignedRequest.SortedIsUnique` | src/s3.rs:462-463 | There is only one, so the sort used does not matter |
| `SignedRequest.QueryReadsBack` | src/s3.rs:461-469 | A reader of the query string finds the sorted pairs |
| `SignedRequest.QueryIsText` | src/s3.rs:461-469 | The query's text: encoded names and values with an equals sign between them, pairs with an ampersand |
| `SignedRequest.CanonicalQueryIsExact` | src/s3.rs:461-469 | Two queries have the same canonical form iff they hold the same pairs with the same multiplicities |
| `SignedRequest.EncodedOrder` | src/s3.rs:461-469 | Encoding keeps the order of two texts, or turns it around exactly when at the first difference a kept byte is smaller than an escaped one |
| `SignedRequest.ServerSignsTheSame` | src/s3.rs:441-469 | A server that sorts after encoding, as Signature Version 4 has it, gets the code's canonical query iff no two pairs are turned around |
| `SignedRequest.ServerSignsWhatItReads` | src/s3.rs:441-469 | It makes the same of the sent query as of the pairs themselves |
| `SignedRequest.PlainNamesAgree` | src/s3.rs:140-229 | Distinct names of unreserved characters, as all requests here have, are signed alike whatever the values |
| `SignedRequest.RawOrderDiffers` | src/s3.rs:461-469 | The names `a0` and `a:` are not, whatever the values |
| `Multistatus.IsMultistatus` | src/webdav.rs:35-80 | The event loop answers yes iff the status is in 200..299 and the events spell one tree rooted in multistatus, no iff the status is another or the tree is or there is none, and an error otherwise |
| `Multistatus.ForestIsPassed` | src/webdav.rs:60-66 | Inside the root, balanced content leaves the automaton where it was |
| `Multistatus.DocumentIsAccepted` | src/webdav.rs:45-75 | Every rooted document gets an answer, by its root's name |
| `Multistatus.ForestIsFound` | src/webdav.rs:60-66 | What is passed up to an end tag is the linearisation of a forest, which is constructed |
| `Multistatus.DocumentIsFound` | src/webdav.rs:45-75 | Every stream that gets an answer is a document, which is constructed, or has no element |
| `Multistatus.YesExactly` | src/webdav.rs:35-79 | The answer is yes iff the stream is the linearisation of one rooted tree with root `multistatus`, and white space, comments and references around it |
| `Multistatus.NoExactly` | src/webdav.rs:35-79 | The answer is no iff the root is another or there is none; every other stream is an error |
| `Multistatus.StraysInDocument` | src/webdav.rs:62-75 | In a document a reference is met outside the root iff one stands there |
| `Multistatus.StrictlyYesExactly` | src/webdav.rs:35-79 | A yes means a tree with only white space and comments around it iff no reference is met outside the root |
| `Multistatus.ReferenceOutsideIsAccepted` | src/webdav.rs:75-75 | A reference in front of the root is content, and the answer is yes all the same |
| `Base64.DecodeOfEncode` | src/backend/azure.rs:445-447 | Base64 with padding decodes to the encoded bytes (section 4 of RFC 4648) |
| `Base64.EncodedLength` | src/backend/azure.rs:445-447 | Its length depends on the number of bytes only |
| `Base64.FromOfToBeBytes` | src/backend/azure.rs:445-447 | Big-endian bytes give back the number |
| `AzureBlocks.BlockSizeFits` | src/backend/azure.rs:433-443 | Whole MiB between 8 and 4000, enough for 50000 blocks, and no step leaves 64 bits |
| `AzureBlocks.BlockSizeIsSmallest` | src/backend/azure.rs:433-443 | Sizes beyond 50000 blocks of 4000 MiB, and no others, are refused; otherwise the block is the smallest whole number of MiB, from 8 on, of which 50000 hold the file |
| `AzureBlocks.BlockIdIsUnique` | src/backend/azure.rs:445-447 | Different block numbers have different ids |
| `AzureBlocks.BlockIdReadsBack` | src/backend/azure.rs:445-447 | An id decodes to the eight big-endian bytes of its index |
| `AzureBlocks.BlockIdLength` | src/backend/azure.rs:445-447 | All ids have twelve characters |
| `AzureBlocks.PlanTiles` | src/backend/azure.rs:132-153 | Blocks follow each other without gap or overlap to the end; all but the last are full, none is empty |
| `AzureBlocks.PlanIsShort` | src/backend/azure.rs:440-442 | No more blocks than the size asks for |
| `AzureBlocks.PlanIsWithinLimits` | src/backend/azure.rs:120-153 | Every size the service takes is cut within all its limits |
| `AzureBlocks.UploadBlocks` | src/backend/azure.rs:132-153 | The loop stages every block under its own id, so the list of ids assembles to the file; it ends early iff a request fails |
| `AzureBlocks.UploadSource` | src/backend/azure.rs:114-159 | Success iff the file is within the limits and no request fails; then blob == file, with exactly the planned requests; a file beyond the limits is refused before any request |
| `JsonLine.PushString` | src/json.rs:60-76 | Appends the quoted, escaped string |
| `JsonLine.EscapeExactly` | src/json.rs:60-76 | The two-character escapes of quotes, backslashes, line ends and tabs; four lower-case digits for any other control character, C1 included; everything else as it is |
| `JsonLine.PushFields` | src/json.rs:18-26 | Appends the fields in order |
| `JsonLine.Line` | src/json.rs:15-30 | A line is the JSON object of schema, event and fields |
| `JsonLine.LineIsObject` | src/json.rs:15-17 | The fixed start of a line is the schema member and the name of the event member |
| `JsonLine.ObjectReadsBack` | src/json.rs:15-30 | A JSON parser gets back the members in order, for all strings and numbers (section 7 of RFC 8259) |
| `JsonLine.ObjectHasNoControls` | src/json.rs:62-73 | No line holds a raw line break or another control character, C0 or C1 |
| `JsonLine.StreamReadsBack` | src/json.rs:9-13 | Splitting the output of any sequence of events at line breaks and parsing each line gives the events |

## Left out

- ChunkedStreams.Wire.WriteChunkedBody: for a line of 8192 bytes or more whether the reader accepts depends on how the input is cut into reads, so only its successes are characterised there; file and socket errors other than the end of the stream are not modelled.
- ChunkedStreams.Wire.ReadChunkedCount: the same for lines of 16 KiB or more; `usize` has 64 bits, so the conversion of a size cannot fail.
- ChunkedStreams.Wire.RelayChunked: the same for lines of 16 KiB or more; header text that is not UTF-8 and not a number is refused either way and is not told apart.
- The chunk readers of `src/service/lan.rs` are the same code as those of `src/service/network.rs` and are modelled once.
- DavServer.Server.Put: write errors of the disk are not modelled, nor is `Expect: 100-continue`; other requests wait until the body has been read.
- RequestBody.WriteRequestBody: a line of 8192 bytes or more in a chunked body may be accepted or refused; the headers that frame the body are parsed already.
- DavServer.Server.MoveOrCopy: errors of the file system other than a missing source, a missing parent or an existing name are not modelled.
- DavServer.Server.LockPermits: the If and Lock-Token headers are the set of tokens they present; the substring search in the If header is abstract.
- DavServer.Server.TakeLock: the fresh random token is a parameter, and each request reads the clock once.
- DAV requests are atomic and paths free of symbolic links; PROPFIND, PROPPATCH, GET and authentication are not part of this model.
- KeepAlive.Sender.Select: any enabled arm may be picked, which covers the biased order of the source; what a transfer does is not part of it.
- RateLimiting.Copies.Turn: the clock does not go back between steps; the display of progress is left out.
- RateLimiting.RateLimiter.Reserve: time is exact, so the rounding of `from_secs_f64` and the fallback for overflowing instants are not modelled; the rate is positive, as the command line demands.
- Watch.Watcher.Turn: one clock reading serves a whole scan, and the send that follows a queued path is outside the model.
- WatchScan.ScanFindsExactly: the stamps of the files found, globs, and special files that are neither file, directory nor link are abstract.
- ArchiveWalk.Archiver.AppendFilteredPath: globs are predicates, a directory is identified by its canonical path, the listing may come in any order (the source sorts it), and errors of the file system are limited to broken links.
- Resume.Destination.ReceiveFromPeer: one receiver at a time works on the destination, and digests are an uninterpreted function, on which only `Resume.SkippedIsSource` depends; a clean end of the stream is taken to come from the sender's `finish` (`src/transport/p2p.rs:401`), so what the QUIC library, which is not part of this model, makes of a stream that the sender drops after a failed read of its own file is left out.
- Resume.Destination.DownloadS3ToFile: a status of the 200s other than 200 and 206 is taken not to occur; the WebDAV, FTP and SFTP downloads follow the same scheme over other libraries and are not modelled again.
- Multipart.PutObjectStream: part numbers are unbounded (the source counts in 32 bits, far beyond what servers accept), and other clients of the same object are not modelled.
- SignedRequest.SignedPathIsSent: the path is compared as put into the URL; how an HTTP library may normalise dot segments of a key afterwards is outside the model, as are header canonicalisation, hashes and HMAC.
- Multistatus.IsMultistatus: the XML reader, which matches end tags to start tags, is its events.
- AzureBlocks.UploadSource: the XML of the block list, request signing and `canonical_resource` are left out; the file does not change during the upload.
- JsonLine.ObjectReadsBack: the parser reads objects of strings, numbers and null, which is all that is printed, and no surrogate pairs in `\u` escapes, which are never printed.
- Sockets, TLS, QUIC, the relay, FTP and SFTP, the ticket formats, the user interfaces and progress output are left out: they are glue or library behaviour.
