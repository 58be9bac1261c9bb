# my-s3: a verified model

`my-s3` is an S3 client for tokio. This project models the parts of it where order, counting or
text rules decide whether the answer is right, and proves what they promise, in Dafny 4.11:

```
dafny verify dfyconfig.toml
```

## What is modelled

**The streamed upload** (`UploadProtocol.dfy`, `UploadInvariant.dfy`, `UploadTheorems.dfy`,
`UploadEnding.dfy`, `UploadChunks.dfy`, `UploadLiveness.dfy`, `UploadWriter.dfy`). A writer, an upload task and a handle share four atomics,
a `Notify` and a channel of four chunks. Each step of the transition system is one atomic point of
one party: reserve, count, publish, store `upload_ended`, record the end, announce it, drop the
sender, and so on; the HTTP client takes chunks, drops the receiver and answers whenever it likes;
the handle reads one flag at a time. A run is one interleaving, and the theorems are about every
reachable state and every run. `S3UploadWriter` is then a class whose polls let the other parties
run at every atomic point; its invariant is that the object has taken part in a run of the
transition system, so the theorems hold of it.

Assumptions: the atomics are sequentially consistent; the channel is a bounded FIFO whose `reserve`
fails only when the receiver is gone, may make a send wait even when there is room, and whose `recv`
ends only when every sender is dropped and the queue is empty; `Notify` stores one permit.

**The reader** (`DownloadStream.dfy`, `Reader.dfy`, `ReaderRuns.dfy`, `ReaderObject.dfy`). A run is
any sequence of polls, with any buffer sizes, and with a server that answers late, fails, cuts the
body short or sends too much; the theorems relate every run to a seekable file. `S3Reader` is then a
class whose invariant is that its polls are such a run, and whose contracts are what a file does.
The assumption is that the object does not change: the bytes that arrive for a range are the bytes
at its start.

**The signed query** (`UriEncoding.dfy`, `CanonicalQuery.dfy`, `QueryAgreement.dfy`). Strings are
their UTF-8 bytes, which is how the source compares and splits them. Percent-encoding follows
sections 2.1 and 2.3 of RFC 3986. The server is the one in the repository's tests.

**The listing** (`XmlGuard.dfy`, `XmlText.dfy`, `XmlWalker.dfy`, `XmlDocument.dfy`,
`XmlUnique.dfy`, `ListObjects.dfy`,
`ListingContents.dfy`, `Decimals.dfy`). The guard is a scan over bytes, for any notion of valid UTF-8. The XML reader is
a stream of tags annotated with their depth, as a document gives it; entities are those of section
4.6 of XML 1.0. `XmlDocument` joins the two: what the guard does with the UTF-8 bytes of a document
the walker reads. `XmlUnique` shows that those bytes determine the document and its page, for any
rule of reading names off tags.

## Where the code and its documentation differ

The model follows the code.

- `finish` returning `Ok` is documented as "every declared byte went out". What is counted is what
  reached the channel: a storage that answers 2xx early is reported as a success although the
  request never took the bytes (`EarlyAnswerIsReportedAsStored`). A request that reads its body to
  the end is reported exactly (`AcceptedAfterTheEndIsExact`). In general
  (`SuccessTookTheBodyExactlyWhen`) a success means that the body was taken if and only if, at the
  last moment the request held the receiver, every declared byte was counted and none was left in
  the channel or on its way there - whether the request let go of the receiver before it answered,
  as it answered or not at all.
- `upload_with_writer` is documented as not needing `body_ended`, because it waits for the producer.
  A producer may return while its writer lives on elsewhere, and then a failure of the storage is
  reported as a short body (`LivingWriterIsBlamed`); `ProducerBlameIsExact` is the rule.
- A seek is documented as free to complete at any time. `poll_complete` does not look at a request
  in flight, so a read polled between `start_seek` and `poll_complete` can make later reads hand out
  bytes of the old place (`ReadBetweenSeekHalvesCorrupts`). For a given object the runs that follow
  are those of a file if and only if the range in flight reads like the bytes at the target
  (`CompleteIsRightExactlyWhen`); for every object, if and only if it is the range at the target
  (`CompleteIsSafeExactlyWhen`). `SeekExtIsSafe` shows that `AsyncSeekExt::seek` always meets that.
- A `poll_read` is documented as exactly one ranged `GET`; it makes none when bytes are left over, a
  request is in flight, the buffer is empty or the position is at the end (`RequestDiscipline`, an if and only if on every run).

## Model

| member | source | states |
|---|---|---|
| UploadInvariant.InitInv | src/upload_writer.rs:312-337 | a fresh writer, channel and task satisfy the protocol invariant, whatever chunk size was asked for |
| UploadInvariant.WriterKeepsInv | src/upload_writer.rs:389-617 | every atomic step of the writer keeps the whole invariant: shape, conservation, channel contents, flag order, gate and verdict |
| UploadInvariant.TaskKeepsInv | src/s3_client.rs:604-629 | every step of the upload - waiting, reading the flags, taking chunks, answering, failing - keeps the invariant |
| UploadInvariant.HandleKeepsInv | src/upload_handle.rs:126-180 | every step of `finish`, of `finish_upload_with_writer` and of dropping the handle keeps the invariant |
| UploadInvariant.EndIsFinal | src/upload_writer.rs:586-617 | once `body_ended` is set no writer step takes, counts or refuses anything |
| UploadTheorems.ConsumedNeverAheadOfSent | src/upload_writer.rs:427-444 | in every reachable state what the upload took is a prefix of what was counted, which is a prefix of what was accepted, and consumed <= sent <= accepted <= content_length |
| UploadTheorems.BytesAreConserved | src/upload_writer.rs:389-454 | the accepted bytes are the counted chunks followed by one of a chunk in hand, a parked chunk, a refused chunk and the buffer, the other three being empty |
| UploadTheorems.LossImpliesUploadEnded | src/upload_writer.rs:363-402 | a chunk is lost only to a closed channel, and `upload_ended` is set before the poll is over and before the body can end |
| UploadTheorems.LossIsFinal | src/upload_writer.rs:486-492 | on every run after a loss nothing more is taken, counted or lost |
| UploadTheorems.EndIsRecordedBeforeItIsSeen | src/upload_writer.rs:586-593 | whenever the upload can see the end of the body, `body_ended` is set and the upload has taken every counted byte |
| UploadTheorems.SentIsFinalOnceEnded | src/upload_writer.rs:606-617 | on every run after `body_ended`, by shutdown or by dropping a writer with a parked send, `sent` and the counted chunks do not change |
| UploadTheorems.SuccessIsSound | src/upload_handle.rs:126-159 | a success, on either path, means the request was accepted, sent == accepted == content_length, the counted chunks are the accepted bytes in order, and nothing is buffered, parked, in hand or lost |
| UploadTheorems.AcceptedAfterTheEndIsExact | src/upload_handle.rs:126-159 | on every run from where the request saw the end of its body to an accepted answer and a decision: `finish` reports success if and only if content_length bytes were read, and they are the accepted bytes; otherwise the body is reported as short; on the other path only the producer's own failure comes in between |
| UploadTheorems.HasTheBodyExactlyWhen | src/upload_handle.rs:144-147 | on every run that ends in success, at any moment the request holds the receiver, it has the whole body if and only if every declared byte is counted and none is queued or about to be |
| UploadTheorems.ClosedIsFinal | src/s3_client.rs:410-415 | on every run after the receiver is gone it stays gone, and nothing more is taken |
| UploadTheorems.LetGoWithTheBodyExactlyWhen | src/s3_client.rs:410-415 | for every step by which the request lets go of the receiver and every run from there to success, the request took the body if and only if the channel was drained of all that was declared just before that step |
| UploadTheorems.SuccessTookTheBodyExactlyWhen | src/upload_handle.rs:144-147 | every successful state, on either path, has a last moment at which the request held the receiver, and the request took the accepted bytes if and only if the channel was drained of all that was declared at that moment |
| UploadTheorems.SuccessfulUploadTookTheBody | src/upload_handle.rs:144-147 | corollary by count: wherever the upload is when the success is reported, it took the accepted bytes exactly when it took content_length bytes |
| UploadTheorems.DeliveredIsNeverShort | src/upload_writer.rs:430-435 | once the upload has taken the whole body, no run on either path reports a short body, and `finish` reports an accepted one as a success |
| UploadTheorems.BlameIsExact | src/upload_handle.rs:130-158 | `finish` blames the writer if and only if fewer bytes than declared were sent and either the storage accepted or the body had ended with no send ever refused; a lost task is never the writer's failure |
| UploadTheorems.ProducerBlameIsExact | src/s3_client.rs:1228-1255 | `upload_with_writer` blames the producer if and only if it failed or returned with fewer bytes sent than declared, and the storage accepted or `upload_ended` was not set; that flag is set only by a send that found the channel closed |
| UploadTheorems.SettlingIsSound | src/upload_writer.rs:192-214 | on both paths a decided upload that answered is a success exactly when it was accepted with no body failure; an accepted one with a failure is the producer's; a failed one with a failure is the producer's too, unless a send was refused |
| UploadTheorems.SeenClosedSurfacesTheUploadError | src/s3_client.rs:1228-1255 | on both paths, on every run after the writer saw the channel close with nothing decided yet, a failed upload surfaces its own error |
| UploadTheorems.RefusedWriterSurfacesTheUploadError | src/upload_writer.rs:206-212 | a failed upload whose writer found the channel closed surfaces its own error |
| UploadTheorems.EndedShortNeverSurfaces | src/s3_client.rs:609-618 | the task's "ended short" error is never the verdict; that run is reported as an unexpected end of the body |
| UploadTheorems.EndedShortIsTheWriters | src/s3_client.rs:609-618 | from that error on, on every run, the body stays ended, `sent` stays short, and `upload_ended` stays unset while the handle lives |
| UploadEnding.ShortBodyMakesNoRequest | src/s3_client.rs:609-618 | from every reachable state whose body ended short before its request, on every run no request is made and nothing is taken; a task that returns gives the "ended short" error, and `finish` tells the writer unless the task was lost |
| UploadEnding.DroppingEndsTheUpload | src/upload_handle.rs:171-180 | dropping the handle of an upload that is not finished sets `upload_ended` by the time the handle is gone, on every run |
| UploadEnding.DroppingStopsTheWriter | src/upload_handle.rs:171-180 | and from the next poll on, on every run, the writer takes nothing, starts no send and ends no body; at most the parked chunk is counted |
| UploadEnding.DroppingAFinishedUploadLeavesItAlone | src/upload_handle.rs:173-175 | dropping the handle of a finished upload changes nothing else, and after it only a refused send ever ends the upload |
| UploadEnding.ResultIsKept | src/s3_client.rs:604-629 | on every run a task that is over keeps the result it came back with |
| UploadEnding.ProducerErrorSurfaces | src/s3_client.rs:1234-1255 | on every run a producer that failed is never a success: its own error is reported, or that of a failed upload that had refused one of the writer's sends |
| UploadTheorems.NothingStartsAfterUploadEnded | src/upload_writer.rs:474-492 | on every run from a state between polls with `upload_ended` set, no byte is taken, no send is started, no shutdown ends the body, and at most the parked chunk is still counted |
| UploadTheorems.SpaceIsBounded | src/upload_writer.rs:22-27 | channel and writer together never hold more than five chunks' worth of bytes; between polls the buffer is shorter than a chunk, a parked send means an empty buffer, and every chunk has 1 to chunk_size bytes |
| UploadTheorems.ChunksAreTheFixedSplit | src/upload_writer.rs:514-535 | in every reachable state the pieces concatenate to the accepted bytes, and are their fixed-size split if and only if no byte was taken after a shorter chunk had been started |
| UploadChunks.SplitExactlyWithoutFlushes | src/upload_writer.rs:514-567 | on every run the pieces are the fixed-size split of the accepted bytes if and only if the run takes no byte after a flush, a flush being a send of a chunk that is not full |
| UploadChunks.WrittenThenEndedIsTheSplit | src/upload_writer.rs:514-596 | a run without flushes, followed by any run that takes nothing more, leaves the fixed-size split |
| UploadTheorems.EvenPiecesAreTheSplit | src/upload_writer.rs:514-535 | pieces that are all full but the last are the fixed-size split of their concatenation |
| UploadLiveness.RequestWaitsForTheBody | src/s3_client.rs:604-607 | the request is out, or on its way, only once a send was started or the body ended |
| UploadLiveness.NoWakeUpIsLost | src/upload_writer.rs:82-93 | in whatever order the writer announces and the task waits, an announced body lets the task pass |
| UploadLiveness.HeldBackTaskIsReleased | src/upload_writer.rs:143-148 | from every reachable state with a started send or an announced end, the task gets past the gate by its own steps, without failing |
| UploadLiveness.ParkedSendCanAlwaysFinish | src/upload_writer.rs:389-454 | from every reachable state with a parked send, the upload's own steps and then one poll of the writer lead to where its chunk is counted and in the channel, or was refused |
| UploadLiveness.PollEnds | src/upload_writer.rs:389-617 | from every state of the invariant the writer's own steps end its poll, or its drop: none of them waits for the upload |
| UploadLiveness.FinishDecides | src/upload_handle.rs:126-159 | once the task is over, `finish` decides by its own steps, on the result the task had |
| UploadLiveness.AnyEndIsPossible | src/s3_client.rs:604-629 | a task that is not over may be lost at any moment, and a request may be answered in any way |
| UploadLiveness.EarlyAnswerIsReportedAsStored | src/upload_handle.rs:144-147 | a reachable state with a success verdict and nothing taken by the request |
| UploadLiveness.LivingWriterIsBlamed | src/upload_writer.rs:75-79 | a reachable state of `upload_with_writer` where the storage failed, the writer is alive, and the verdict is a short body |
| UploadWriter.S3UploadWriter.constructor | src/upload_writer.rs:312-337 | the new writer is the initial state of the protocol; a chunk size of zero becomes one |
| UploadWriter.S3UploadWriter.PollSend | src/upload_writer.rs:427-453 | under any interference, polling a send parks it unchanged, or counts then publishes its chunk, or loses it with `upload_ended` stored |
| UploadWriter.S3UploadWriter.PollPending | src/upload_writer.rs:389-402 | `Ready` means no send is outstanding; waiting keeps the same send |
| UploadWriter.S3UploadWriter.SendBuffer | src/upload_writer.rs:409-454 | the buffered chunk is counted, or parked whole, or refused with `upload_ended` set; only then is it not counted |
| UploadWriter.S3UploadWriter.PollWrite | src/upload_writer.rs:464-535 | what is taken is exactly the reported prefix of the buffer, as much as fits the chunk and the declared length; a pending write takes nothing; a refusal past the length takes nothing; a write that fails because the upload is gone took nothing, or filled the chunk that was refused; after `upload_ended` nothing is taken, and a write is told that the upload is gone, whatever was written before; after a shutdown every write is told so |
| UploadWriter.S3UploadWriter.PollFlush | src/upload_writer.rs:542-567 | a flush that succeeds has counted every accepted byte; after `upload_ended` none succeeds |
| UploadWriter.S3UploadWriter.PollShutdown | src/upload_writer.rs:573-596 | a shutdown that succeeds has counted every accepted byte, set `body_ended` and left no sender; a second one changes nothing; a first one after `upload_ended` does not succeed |
| UploadWriter.S3UploadWriter.Drop | src/upload_writer.rs:611-617 | dropping ends the body with no sender left, and counts nothing |
| DownloadStream.S3DownloadStream.GetNextChunk | src/download_stream.rs:92-111 | chunks come in order and are counted; the end is reported if and only if the transport ended and the stated length has arrived |
| DownloadStream.CollectBody | src/reader.rs:153-171 | the loop collects what the specification says, stopping at the first byte too many |
| DownloadStream.AcceptedIffDelivered | src/reader.rs:223-253 | a range is accepted if and only if its chunks hold exactly the requested bytes, the transport ended, and no more was stated; then it is their concatenation |
| DownloadStream.RefusedBecause | src/download_stream.rs:92-111 | why a range is not accepted, over the transport alone: each of too much, too little, a broken connection and an end before the stated length, as an if-and-only-if |
| DownloadStream.SplittingDoesNotMatter | src/download_stream.rs:72-75 | how the body is cut into chunks changes neither acceptance nor the bytes |
| ReaderObject.S3Reader.constructor | src/reader.rs:91-102 | a new reader is a file handle at the start of the object |
| ReaderObject.S3Reader.DrainLeftover | src/reader.rs:125-133 | what it hands over and what it keeps are the leftover, cut where the buffer ends; the bytes are those of the object at the position, which moves by as many |
| ReaderObject.S3Reader.StartRead | src/reader.rs:140-174 | records one request, at the position, inside the object, that fills the buffer or ends with the object |
| ReaderObject.S3Reader.PollRead | src/reader.rs:178-259 | the poll is a read of a file at the position and extends the run; the position moves by exactly the bytes handed over; an error leaves nothing in flight; a request is at the position and inside the object; which error it is follows from what the server sent: `UnexpectedEof` for a short body, `InvalidData` for a long one, each as an if-and-only-if |
| ReaderObject.S3Reader.StartSeek | src/reader.rs:269-297 | the poll is a seek of a file that moves nothing yet, taken if and only if nothing is in flight or in progress and the target is a 64-bit offset; which error is given otherwise |
| ReaderObject.S3Reader.PollComplete | src/reader.rs:299-311 | the poll is the move of a file to the target unless a request is in flight for another place, and then that request is still expected at the new position |
| ReaderRuns.StepRefines | src/reader.rs:178-311 | every poll is a move of a seekable file over the object and keeps position, leftover and request in flight describing it |
| ReaderRuns.ReaderRefinesFile | src/reader.rs:11-16 | every run is a run of a seekable file; the bytes handed out since the last seek are the slice of the object from there; an Ok read gives nothing to a nonempty buffer exactly at or past the end; fetched == delivered + leftover + discarded |
| ReaderRuns.RequestDiscipline | src/reader.rs:135-174 | on every run all requests are inside the object; a poll makes one if and only if it is a read with nothing left over, nothing in flight, room in the buffer and bytes to come; it starts at the first byte not received since the last seek and fills the buffer or ends with the object |
| ReaderRuns.NothingIsRefetched | src/reader.rs:66-75 | on every run the ranges accepted since the last seek are requests the reader made, do not overlap, and cover exactly the bytes handed out or left over since |
| ReaderRuns.DeliveredRangeIsHandedOut | src/reader.rs:255-258 | a range that arrives whole is handed out as far as the buffer goes and the rest is kept |
| ReaderRuns.FailureMovesNothing | src/reader.rs:218-253 | a failed read leaves position, leftover and seek alone and nothing in flight |
| ReaderRuns.FailureSaysWhy | src/reader.rs:218-253 | every error of a read as an if-and-only-if over the bytes sent, the bytes asked for, and how the connection ended |
| ReaderRuns.SeekStartsExactlyWhen | src/reader.rs:269-340 | a seek is taken if and only if nothing is in flight or in progress and the target is a 64-bit offset, and is then to that target; otherwise the first of these that fails is the error |
| ReaderRuns.CompleteIsRightExactlyWhen | src/reader.rs:299-308 | after a seek is applied over a request in flight, every run is a run of a file at the target if and only if the range asked for reads like the bytes there |
| ReaderRuns.CompleteIsSafeExactlyWhen | src/reader.rs:299-308 | that holds for every object the reader may be reading if and only if the request in flight is for the target itself |
| ReaderRuns.ReadBetweenSeekHalvesIsRightExactlyWhen | src/reader.rs:272-308 | for any object, target and buffer, a read polled between the halves of a first seek is harmless if and only if the object's start reads like the bytes at the target |
| ReaderRuns.SeekExtIsSafe | src/reader.rs:272-286 | completing every seek before the next read meets that condition on every run |
| ReaderRuns.ReadBetweenSeekHalvesCorrupts | src/reader.rs:299-308 | a run that violates it hands out a wrong byte |
| UriEncoding.EncodeUriComponent | src/utils.rs:160-175 | the loop appends the encoding of the source to the destination |
| UriEncoding.UriEncode | tests/fake_s3/mod.rs:849-870 | the server's loop computes the server's own encoding, written with character ranges and a table of digits |
| UriEncoding.EncodersAgree | tests/fake_s3/mod.rs:849-870 | client and server encode every byte string alike |
| UriEncoding.PercentDecode | tests/fake_s3/mod.rs:825-847 | computes the decoding, invalid escapes being left as they are |
| UriEncoding.DecodedExactlyWhen | tests/fake_s3/mod.rs:825-847 | decoding byte by byte: two digits in either case after a percent sign, or a plus sign and a digit, are one byte; everything else stands for itself, a plus sign and a broken escape too |
| UriEncoding.DecodeUndoesEncode | src/utils.rs:138-160 | decoding an encoding gives back every byte string |
| UriEncoding.NormalizedIsCanonical | tests/fake_s3/mod.rs:780-803 | decode-then-encode is idempotent and leaves alone exactly the encodings |
| CanonicalQuery.SplitUndoesJoin | src/utils.rs:111-133 | splitting a joined query gives back its pairs |
| CanonicalQuery.PairsConcat | src/utils.rs:111-118 | for any two queries, the pairs of both joined by `&` are the pairs of the one and then of the other |
| CanonicalQuery.PieceIsOnePair | src/utils.rs:111-118 | a piece without `&` is no pair if it is empty, and otherwise the name up to its first `=` and the value after it, or a name with no value |
| CanonicalQuery.BytesLeqExactlyWhen | src/utils.rs:120-123 | byte strings are ordered by the first byte that differs, a prefix coming first |
| CanonicalQuery.LeqExactlyWhen | src/utils.rs:120-123 | pairs are ordered by name, and by value when the names are equal |
| CanonicalQuery.SortedIsUnique | src/utils.rs:120-123 | only one order is sorted by name and then value |
| CanonicalQuery.SortSorts | src/utils.rs:120-123 | sorting gives a sorted permutation |
| CanonicalQuery.JoinPairs | src/utils.rs:125-135 | the loop joins the pairs |
| CanonicalQuery.CanonicalQueryString | src/utils.rs:102-136 | computes the canonical form, an absent or empty query giving the empty string |
| CanonicalQuery.CanonicalSplitsSorted | src/utils.rs:96-101 | the pairs of the canonical form are the sorted permutation of the pairs of any query |
| CanonicalQuery.CanonicalIsIdempotent | src/utils.rs:96-101 | for any query, canonicalising twice is canonicalising once |
| CanonicalQuery.CanonicalDecidesEquality | src/utils.rs:96-101 | two queries have one canonical form if and only if they hold the same multiset of pairs |
| QueryAgreement.SignaturesAgreeIffWellEncoded | tests/fake_s3/mod.rs:781-823 | for any query, client and server sign the same string if and only if every name and value is its own decode-then-encode |
| QueryAgreement.RawReservedByteBreaksTheSignature | src/utils.rs:140-156 | a reserved byte sent as it is makes the two signatures differ |
| QueryAgreement.AppendQueryParam | src/utils.rs:177-192 | appends the encoded pair, and nothing for an absent value |
| QueryAgreement.BuiltPairs | src/utils.rs:177-192 | the built query splits into exactly the encoded parameters asked for, in order |
| QueryAgreement.BuiltQueryIsSignedAlike | src/utils.rs:102-192 | for every set of parameters client and server sign the same string, and decoding gives back the names and values |
| QueryAgreement.ListQueryIsWritten | src/s3_client.rs:957-969 | the built listing query is, byte for byte, `list-type=2` and then `&prefix=`, `&delimiter=`, `&continuation-token=` and `&max-keys=` with the encoded values that were asked for |
| QueryAgreement.BuildListQuery | src/s3_client.rs:957-969 | computes that query; decoding it gives back the names with the values asked for; client and server sign it alike |
| Decimals.ParseUndoesPrint | src/s3_client.rs:959 | a printed number is digits without leading zeros whose value is the number |
| Decimals.PrintUndoesParse | src/list_objects.rs:215-222 | digits without leading zeros are what printing their value gives |
| XmlGuard.IsSafeToRead | src/xml.rs:36-78 | accepts exactly the valid UTF-8 bodies whose depth never goes below zero and ends at zero with every tag closed |
| XmlGuard.TagScans | src/xml.rs:53-73 | the source's classification of a whole tag is what reading it byte by byte gives |
| XmlGuard.BalancedExactlyWhen | src/xml.rs:31-78 | what the guard accepts, over the list of tags: every tag is finished, no leading part of the tags closes more than it opens, and all of them together come out even |
| XmlGuard.CutIsRefusedExactlyWhen | src/xml.rs:24-29 | a cut inside a tag, or where more was opened than closed, is refused, for any body; and a cut of an accepted body is refused only there |
| XmlGuard.CutIsRefusedOrWhole | src/xml.rs:24-29 | a body with one top-level element, cut anywhere: the part is refused, or holds all of that element, or none of it |
| XmlDocument.NodesScan | src/xml.rs:31-35 | the bytes of any sequence of well written nodes bring the scan back to the depth it started at, and the depth never falls below that on the way |
| XmlDocument.DeclarationScan | src/xml.rs:57-60 | a declaration or a doctype leaves the depth as it is |
| XmlDocument.CutDocumentIsRefused | src/xml.rs:24-29 | a well written document is balanced, so a valid one is accepted, and cut at any byte inside its root element it is not, so it is refused |
| XmlDocument.AcceptedCutHasTheSamePage | src/list_objects.rs:106-131 | a part of a listing that is accepted and reaches past the prolog is a document with the same root |
| XmlUnique.SiblingsAreUnique | src/xml.rs:31-35 | two readings of one text as siblings up to a closing tag are the same, tag by tag and text by text |
| XmlUnique.Utf8IsInjective | src/xml.rs:37-39 | texts with the same bytes are the same |
| XmlUnique.CutDocumentHasTheSamePage | src/xml.rs:24-29 | whatever document is written with all or any first part of the bytes of a document has the same root and gives the same page |
| XmlText.Unescape | src/xml.rs:115-151 | the loop computes the one-pass decoding |
| XmlText.UnescapeUndoesEscape | src/xml.rs:111-151 | decoding inverts every writer's escaping of the five entities, for every string |
| XmlText.UnknownIsPassedThrough | src/xml.rs:111-115 | text in which no known entity starts is unchanged, every stray `&` included |
| XmlText.NothingIsDecodedTwice | src/xml.rs:236-240 | each decoding takes off exactly one layer of escaping, however many there are |
| XmlWalker.Walker.NextDirectChild | src/xml.rs:257-271 | the search by name with the level filter finds the next direct child |
| XmlWalker.Walker.ReadWholeNode | src/xml.rs:229-234 | reads what is written up to the closing tag of the node |
| XmlWalker.FindAnyThenFilter | src/xml.rs:248-271 | filtering hits at any depth is searching for direct children |
| XmlWalker.FindsTheNextChild | src/xml.rs:190-222 | on every document the cursor stops at the first sibling asked for, or after the parent's closing tag, whatever is buried in between |
| XmlWalker.ReadsTheWholeNode | src/xml.rs:224-234 | reading a node gives its content as written and leaves the cursor just after it |
| ListObjects.ReadText | src/xml.rs:229-245 | the decoded text of the node, empty for one that closed itself |
| ListObjects.ReadObject | src/list_objects.rs:185-229 | the object its direct children say, or the first missing field in the order checked, or the bad size |
| ListObjects.ReadCommonPrefixes | src/list_objects.rs:231-255 | every direct prefix in order, and an error when there is none |
| ListObjects.ParseListing | src/list_objects.rs:133-183 | for every document the cursor walk gives the page or error of structural recursion over the direct children |
| ListingContents.PageHoldsWhatIsSaid | src/list_objects.rs:133-167 | a page holds one object for each direct `Contents` child, what that child says, and all the prefix texts of the direct `CommonPrefixes` children, in document order |
| ListingContents.FirstErrorIsReported | src/list_objects.rs:138-141 | a listing with an unreadable entry is refused with the error of the first one |
| ListingContents.ObjectHoldsWhatIsSaid | src/list_objects.rs:185-229 | each field of an object is the text of the last direct child of its name; each error is given exactly when that field is the first one missing, or the size is not a number |
| ListingContents.PrefixesHoldWhatIsSaid | src/list_objects.rs:231-255 | a group of prefixes is all its direct `Prefix` texts in order, and an error exactly when it has none |
| ListingContents.ParseU64ExactlyWhen | src/list_objects.rs:215-222 | a text is read as a number if and only if it is an optional plus sign and digits whose value fits 64 bits |
| ListingContents.TrimmedIsExact | src/list_objects.rs:215-222 | trimming takes off white space on both sides, and all of it |
| ListingContents.WhiteSpaceIsUnicodes | src/list_objects.rs:215-222 | white space is what Unicode lists as such |
| ListingContents.SaysTrueExactlyWhen | src/list_objects.rs:143-147 | the flag is true exactly when the trimmed text is `true` in any case of its letters |
| ListingContents.LeafIsRead | src/xml.rs:236-245 | the text read from an element is the text that was escaped into it, for every text and every writer's choice of escapes |
| ListingContents.WrittenObjectIsRead | src/list_objects.rs:185-229 | a written object is read back, field by field |
| ListingContents.WrittenPageIsRead | src/list_objects.rs:133-183 | a written listing is read back: the same objects, prefixes and token, for every page with sizes of 64 bits and a token that is not empty |
| ListObjects.TokenIffTruncated | src/list_objects.rs:158-182 | a page is given if and only if every object and prefix group reads and a truncated listing has a nonempty token; it carries the last nonempty token exactly when the last `IsTruncated` says true; otherwise a truncated listing is refused as such |
| ListObjects.InterleavingDoesNotMatter | src/list_objects.rs:99-105 | root children of the four kinds may be interleaved in any way without changing the page |

## Left out

- HTTP, TLS, retries of the connection and tracing: an upload or a request is a nondeterministic answer.
- HMAC, SHA-256, the timestamp and the headers of `sign_request`: only the canonical query is modelled.
- The retry loops around `upload_streamed` and `upload_with_writer`: a counter around what is proved here.
- Bucket operations, `S3Region`, the error predicates and `Display`/`Debug`: flat case tables.
- Time: a timeout is one more way for the upload to fail.
- Fairness: `HeldBackTaskIsReleased` and `ParkedSendCanAlwaysFinish` say that the steps are there, not that a scheduler takes them.
- The upload handle as an object: `finish` and its drop are steps of the transition system, on values.
- UploadTheorems.BlameIsExact: speaks of `finish`; `ProducerBlameIsExact` is the rule of `upload_with_writer`.
- The check for a missing sender in `start_send` and in `poll_flush` past an empty buffer: no run reaches them, because a writer that was shut down has nothing buffered.
- The internals of the XML reader, attributes, and documents whose closing tags do not match in name: the walk is over the tags of a document, and its errors for malformed XML are not modelled.
- Finding the root element: the walker starts just inside it.
- The sort of `sort_unstable` is a function here; its in-place exchanges are not modelled, and `SortedIsUnique` makes them irrelevant.
