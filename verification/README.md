# MEFSC, modelled and proved in Dafny

MEFSC moves a file from a client to a server and back as a chunked, encrypted stream over TCP.
Both receiving ends overlap socket work with disk writes on a second thread. This project models
the transfer, the session around it and the server's connection pool, and proves what they keep.
`dafny verify dfyconfig.toml` checks everything.

## How it fits together

- **The two-slot pipeline.** `Pipeline.dfy` is the state machine of producer thread, writer thread
  and `TwoSlotBuffer`: every mutex-held body is one step, unlocked slot writes and reads are
  byte-sized steps of their own, and a condition-variable wait is split into falling asleep and being
  woken. Its reference is the loop without a second thread (`Serial`). `TwoSlotBuffer.dfy` has the
  buffer as a class and, in `Transfer`, a producer's view in which the writer takes arbitrarily many
  steps between any two of the producer's; methods built on it hold in every schedule.
- **Bytes on the wire.** `Framing.dfy` has session frames, raw blobs and what each reader makes of
  any byte stream; `Sockets.dfy` has the socket (any segmentation, finitely many interruptions, then
  end-of-file), `recv_fully` and the session wrapper as objects proved against those readers.
- **The transfer.** `Chunking.dfy` cuts, encrypts and re-cuts; `Upload.dfy` and `Download.dfy` have
  both ends of both directions on arbitrary streams; `Files.dfy` has `ifstream`'s end-of-file rule.
- **The session.** `Actions.dfy` has the server's notice/intent/handler loop, the client's action
  loop, and the simple store (two maps from names to bytes) that they implement together.
  `Server.dfy` and `Client.dfy` are the loops as imperative classes, proved against these functions.
- **The protocol in numbers.** `Protocol.dfy` states every byte that client and server, compiled apart,
  must agree on, with the values written out.
- **Interruptions.** `Recovery.dfy` says what each end is left with when a transfer or a session is cut
  at any byte.
- **Exact limits** of nonces, names, requests and return codes are in `Limits.dfy`; the connection pool
  is `Pool.dfy`.
- **Cryptography** is a record of functions with contracts (`Crypto.dfy`); every theorem names the
  contracts it needs, and small instances show that they can be met (`Crypto.ToyIsSound`,
  `Crypto.AuthenticitySatisfiable`).

Randomness, uninitialised variables, directory order and the clients' choices are parameters that
every theorem is quantified over (`Junk`, `Env`, `Chance`, the nonces in `Action` and `Sending`;
`Actions.EnvSatisfiable` shows that a valid environment always exists).

## Hypotheses

- Each `send` completes, `errno` belongs to the current `recv`, and interruptions are finite.
- In the session theorems names are plain: no NUL, no `/`, and none of "", "." and ".."
  (`Actions.Plain`). Every stored name is a plain one with `.enc`; `Actions.Represents` says so and every
  valid action keeps it, so a name that can be downloaded is longer than its extension.
- Both directories hold only files: a name without `/` leads to a directory only if it is one of those
  three. `Limits.DirectoryDownloadHangs` and `Limits.DirectoryDelete` say what they do; results on
  arbitrary streams include them.
- One session at a time uses a user's directory, which is a map.
- No text handed to a session wrapper is longer than 65553 bytes, and no stored name longer than 255.
- Session theorems use valid actions (`Actions.ValidAction`): the intent is one of the four, and a
  file that is downloaded exists. `Limits` says exactly what happens otherwise.
- The two ends of a session are composed as functions of the bytes they read. Reads block, so the
  scheduling of client against server cannot change what either end computes.

## What holds only up to a limit

- `constants.h` reserves five of 255 bytes for `.enc` and its terminator, but the read and delete
  handlers apply the same 250-byte limit to a name that already carries both, and the listing client
  has 254 bytes: of the stems of up to 250 bytes that an upload accepts, those up to 245 can be read
  and deleted and those up to 249 listed (`Limits.NameAddressability`). One longer stem makes every
  listing fail (`Limits.ListSucceedsIff`).
- A download of a missing file is not answered (`Limits.DownloadSucceedsIff`), and an invalid
  intention costs the next action and the session (`Limits.InvalidIntentionDesynchronises`). So does an
  upload whose name is over 250 bytes (`Limits.OverlongUploadEndsSession`).
- `std::ifstream` opens directories, whose reads fail without end-of-file, so a download named "", "."
  or ".." never ends; `std::filesystem::remove` throws on a directory it cannot remove. The session loop
  ends exactly when it reaches neither (`Actions.SessionTerminates`). In the model a call that does not
  return is an outcome (`Hangs`, `Crashes`, `Aborted`, `Endless`) with what was done until then.
- The client never looks at the tag of a decrypted chunk, so code 0 means the whole file if and only if
  the last tag was the final one (`Download.DownloadCompleteIff`); `Download.EarlyEndAccepted` has the
  streams on which it was not.
- A connection is queued before `live_connections` is incremented, so the counter can wrap below zero
  (`Pool.CounterCanWrap`); `Pool.CounterWrapsIff` says exactly when it has, and
  `Pool.LiveCountExactIff` when it is exact.

## Model

| member | source | states |
|---|---|---|
| Pipeline.SlotOwnership | include/common/TwoSlotBuffer.h:13-65 | in every reachable state each of the two slots is in exactly one of free queue, ready queue, producer, consumer, and no other number is anywhere |
| Pipeline.RaceFree | include/common/TwoSlotBuffer.h:26-59 | an unlocked slot write and an unlocked slot read that are both possible are on different slots |
| Pipeline.ReadySlotStable | include/common/TwoSlotBuffer.h:34-59 | a ready or taken slot keeps its bytes and length over every step of either thread |
| Pipeline.SlotsAlternate | include/common/TwoSlotBuffer.h:26-65 | in every interleaving both queues are first in, first out: the n-th slot of the producer and of the writer is slot 0 for odd n and slot 1 for even n |
| Pipeline.RefinesSerial | src/server/read_write_handlers.cpp:162-211 | in every interleaving, wherever the producer stops, the file is a prefix of what the serial loop writes, and equal to it once the writer has exited |
| Pipeline.NeverBothBlocked | include/common/TwoSlotBuffer.h:26-65 | no reachable state, wake-ups included, has producer and writer both waiting, and a finished producer always has someone who can move |
| Pipeline.DrainsAndJoins | include/common/TwoSlotBuffer.h:41-59 | after `finish` every continuation is bounded by a measure, and one that cannot go on has joined with the complete file |
| Pipeline.JoinReturns | src/client/authed_entry.cpp:284-333 | the same from every reachable state after `finish`, so `join` returns |
| TwoSlot.TwoSlotBuffer.constructor | include/common/TwoSlotBuffer.h:13-19 | both slots zeroed and free |
| TwoSlot.TwoSlotBuffer.NextWritable | include/common/TwoSlotBuffer.h:26-32 | the first free slot becomes the producer's |
| TwoSlot.TwoSlotBuffer.Publish | include/common/TwoSlotBuffer.h:34-39 | the producer's slot gets its length and joins the ready queue's end |
| TwoSlot.TwoSlotBuffer.Finish | include/common/TwoSlotBuffer.h:41-45 | only the done flag changes |
| TwoSlot.TwoSlotBuffer.WaitReady | include/common/TwoSlotBuffer.h:47-59 | the oldest ready slot with its length, or nothing when done and drained |
| TwoSlot.TwoSlotBuffer.DoneWith | include/common/TwoSlotBuffer.h:61-65 | the consumer's slot joins the free queue's end |
| TwoSlot.Transfer.WriterStep | src/server/read_write_handlers.cpp:163-170 | a step of the writer keeps the invariant, leaves the serial history alone and uses up work |
| TwoSlot.Transfer.Acquire | src/server/read_write_handlers.cpp:189 | returns with a slot held in every schedule |
| TwoSlot.Transfer.Deliver | src/client/authed_entry.cpp:314-328 | the published slice is appended to the serial history, whatever the writer did meanwhile |
| TwoSlot.Transfer.FinishAndJoin | src/client/authed_entry.cpp:332-333 | returns in every schedule with the file equal to the serial history, a slot held or not |
| Framing.UnwrapExactly | src/encryption_utils/SessionEnc.cpp:98-133 | with the subtraction wrapping at 2^64, code 0 exactly for an intact frame of at least 16 bytes whose plaintext fits the capacity and which opens |
| Framing.UnwrapCodes | src/encryption_utils/SessionEnc.cpp:94-133 | each nonzero code by its condition: 4 not arrived, 3 shorter than 16 bytes although the length wraps, 2 over the capacity, 1 does not open |
| Framing.ReadFrameOfSession | src/encryption_utils/SessionEnc.cpp:47-84 | the reader recovers nonce and ciphertext, the nonce being the one sealed under, and leaves the rest |
| Framing.ReceiveSession | src/encryption_utils/SessionEnc.cpp:23-193 | a wrapped text is unwrapped to itself, the rest of the stream untouched |
| Framing.ReceiveTooLarge | src/encryption_utils/SessionEnc.cpp:110-118 | a text over the capacity is code 2, the rest untouched |
| Framing.ReadBlobOfRaw | src/encryption_utils/encryption_utils.cpp:6-27 | a raw blob within capacity is read back, the rest untouched |
| Framing.TruncatedSession | src/encryption_utils/SessionEnc.cpp:50-81 | a frame cut anywhere is corrupt and nothing is left |
| Framing.TruncatedRaw | src/encryption_utils/encryption_utils.cpp:16-27 | a blob cut anywhere is an error and nothing is left |
| Framing.OversizeLength | src/encryption_utils/SessionEnc.cpp:58-66 | a length field over 65569, or over a blob's capacity, is refused with only its eight bytes consumed |
| Framing.FramingRoundTrip | src/encryption_utils/SessionEnc.cpp:47-193 | any interleaved sequence of frames and blobs within capacity is parsed back to itself |
| Sockets.Socket.RecvFully | src/encryption_utils/SessionEnc.cpp:8-21 | for every segmentation: all `len` bytes in order, or failure with the stream exhausted |
| Sockets.RecvRawBlob | src/encryption_utils/encryption_utils.cpp:16-27 | result and remaining stream are those of the blob reader, for every segmentation |
| Sockets.SendRawBlob | src/encryption_utils/encryption_utils.cpp:6-14 | appends the blob's encoding |
| Sockets.SessionEncWrapper.ForSender | src/encryption_utils/SessionEnc.cpp:23-45 | the incremented nonce is the one sealed under and the one kept; a text of at most 65553 bytes stays within the 65569-byte array |
| Sockets.SessionEncWrapper.FromSocket | src/encryption_utils/SessionEnc.cpp:47-84 | wrapper and remaining stream are those of the frame reader, for every segmentation |
| Sockets.SessionEncWrapper.Unwrap | src/encryption_utils/SessionEnc.cpp:86-134 | every return code, and that only codes 1 and 2 mark the wrapper corrupted |
| Sockets.SessionEncWrapper.SendAll | src/encryption_utils/SessionEnc.cpp:172-193 | length, nonce and ciphertext in one piece |
| Files.InFile.Read | src/client/authed_entry.cpp:138-147 | a loop of reads sees the cut of the file, with end-of-file noticed exactly at the first short piece |
| Chunking.CutShape | src/client/authed_entry.cpp:135-167 | all chunks but the last are full, the last never is, and they concatenate to the file |
| Chunking.CutOfFlatten | src/server/read_write_handlers.cpp:276-296 | cutting a concatenation gives back any pieces of which only the last is short, for every size |
| Chunking.RecutGrown | src/server/read_write_handlers.cpp:276-296 | chunks that each grew by an overhead are recovered by cutting at the grown size, both sizes symbolic |
| Chunking.EncryptAt | src/client/authed_entry.cpp:145-152 | each blob is its chunk pushed in the state its predecessors left, final exactly at the last |
| Chunking.RechunkingAgrees | src/server/read_write_handlers.cpp:254-296 | n/65536+1 blobs, and the server's reads of the stored body reproduce exactly them, the last neither empty nor full |
| Chunking.StoredSize | src/server/read_write_handlers.cpp:156-211 | the stored file has 40 + n + 17*(n/65536+1) bytes |
| Upload.ChunkItemsAt | src/client/authed_entry.cpp:154-165 | the i-th pair is a prefix under the i-th counter value, END exactly at the last, and the i-th blob |
| Upload.LoopSelectsPairs | src/server/read_write_handlers.cpp:172-213 | on any stream the published blobs are those of the whole (prefix, blob) pairs up to and including the first non-MEAT one |
| Upload.LoopEnds | src/server/read_write_handlers.cpp:172-213 | on any stream: code 0 and the rest behind a pair that is not MEAT or at an unreadable prefix, code 1 at an unreadable blob |
| Upload.LoopReadsChunks | src/server/read_write_handlers.cpp:173-208 | a complete chunk stream is published whole and nothing behind it is read |
| Upload.LoopOnCutStream | src/server/read_write_handlers.cpp:173-208 | a chunk stream cut anywhere publishes exactly the pairs before the cut, never all, with code 0 for a cut in a prefix and 1 for one in a blob |
| Upload.InitReadsInit | src/server/read_write_handlers.cpp:45-125 | `init_read` recovers name, header and salt from `init_send`'s four frames and reads no more |
| Upload.UploadStores | src/server/read_write_handlers.cpp:127-214 | an upload is stored under its name with `.enc` as header, salt and all blobs; bytes behind it are untouched (the bytes of `.enc` in `Protocol.StoredLayout`) |
| Upload.MissingUploadIgnored | src/client/authed_entry.cpp:67-77 | an upload of a missing local file changes nothing and consumes its one frame |
| Upload.UnconfirmedUpload | src/server/read_write_handlers.cpp:53-67 | a first frame with a zero byte, or with none, is error 5 |
| Upload.InitStops | src/server/read_write_handlers.cpp:56-122 | after j good frames a refused one gives that frame's error by its code, and leaves the stream behind it |
| Upload.RefusedInitKeepsStore | src/server/read_write_handlers.cpp:137-140 | every such error leaves the directory as it was |
| Upload.RefusedInitPasses | src/server/read_write_handlers.cpp:77-109 | the two refusals that pass: an unopened name goes on under the stale buffer, a header frame under 16 bytes with the stale header |
| Upload.CutInitKeepsStore | src/server/read_write_handlers.cpp:69-140 | a connection lost at any byte of the first four frames: the error is 6, 9, 4 or 2 by the byte, and the directory is as it was |
| Upload.UploadCutAnywhere | src/server/read_write_handlers.cpp:127-214 | an upload cut at any byte: directory unchanged inside the first four frames, afterwards exactly the whole blobs under its name |
| Upload.CutsArePrefixes | src/client/authed_entry.cpp:101-167 | the cut points considered are exactly the proper prefixes that contain `init_send`'s frames |
| Upload.InterruptedUploadStores | src/server/read_write_handlers.cpp:173-213 | an interrupted upload stores header, salt and the blobs that arrived whole, never all of them, with the code of the cut |
| Download.PublishedFits | src/client/authed_entry.cpp:303-328 | whatever arrives, every published chunk is at most the chunk size, hence within its slot |
| Download.LoopDecrypts | src/client/authed_entry.cpp:293-330 | a whole encrypted stream decrypts to its chunks with code 0 |
| Download.LoopRejectsEmptyEnd | src/client/authed_entry.cpp:303-322 | a stream that lost its end writes the chunks before the loss and returns 2 |
| Download.LoopPrefixSafe | src/client/authed_entry.cpp:293-330 | with an authentic stream, any bytes and any prefixes publish a prefix of the original chunks |
| Download.DownloadRestores | src/client/authed_entry.cpp:249-336 | what an upload stored is received as exactly the original file with code 0, reading only the reply |
| Download.InterruptedFetchFails | src/server/read_write_handlers.cpp:276-296 | j stored blobs download as the first j chunks and an error |
| Download.InterruptedUploadNeverSucceeds | src/server/read_write_handlers.cpp:173-296 | cut an upload anywhere after `init_send`: the later download writes exactly the chunks that arrived and returns nonzero |
| Download.DownloadPrefixSafe | src/client/authed_entry.cpp:249-336 | given the upload's header and salt and authenticity, every byte stream writes a chunk-wise prefix of the file |
| Download.LoopCompleteIff | src/client/authed_entry.cpp:293-330 | with an authentic stream and code 0, whatever bytes arrived, the published chunks are all of them if and only if the last pulled tag is the final one |
| Download.EarlyEndAccepted | src/client/authed_entry.cpp:297-330 | an authentic stream with END marked at its j-th pair is received with code 0 as the first j chunks |
| Download.UnreadPrefixEnds | src/client/authed_entry.cpp:297-330 | a first prefix frame of the wrong size leaves the variable at END: one chunk is taken for the file, with code 0 |
| Download.LoopOnCutDownload | src/client/authed_entry.cpp:303-310 | a chunk stream cut at any byte publishes exactly the chunks that arrived whole, never all, with code 1 |
| Download.InterruptedDownload | src/client/authed_entry.cpp:249-310 | a whole reply cut at any byte: exactly the whole chunks, code 1, nothing left |
| Download.DownloadCompleteIff | src/client/authed_entry.cpp:249-336 | the same for the whole receiver, given the upload's header and salt |
| Actions.TurnFlow | src/server/read_write_handlers.cpp:238-344 | a turn hangs exactly on a download that leads to a directory and throws exactly on a deletion of a directory that cannot be removed or a listing after the own one is gone |
| Actions.SessionTerminates | src/server/server.cpp:144-176 | on every finite stream: at most one turn per 32 bytes and one more; the loop hangs if and only if it reaches a download of a directory, dies if and only if it reaches a request on which the file system throws, and otherwise ends |
| Actions.PutTurn | src/server/server.cpp:164-166 | the server's turn on an upload stores it and consumes exactly its frames |
| Actions.GetTurn | src/server/read_write_handlers.cpp:216-299 | the server's turn on a download replies with the file and consumes exactly the request |
| Actions.ListReceived | src/client/client.cpp:147-172 | the client lists exactly the stored names and reads only the listing |
| Actions.DeleteTurn | src/server/read_write_handlers.cpp:326-353 | the server's turn on a deletion of a plain name removes that file only and says whether it was there |
| Actions.Exchange | src/client/client.cpp:219-271 | one valid action (plain names, `.enc` kept on stored ones) with any bytes behind it in both channels: both handlers return, exact consumption at both ends, files and result as in the simple store |
| Actions.SessionEnds | src/client/client.cpp:273 | the closing notice ends the server's loop |
| Actions.SessionRefines | src/server/server.cpp:144-176 | for every sequence of valid actions the two loops connected back to back end and implement the simple store, with both channels exactly consumed |
| Actions.UploadThenDownload | src/client/client.cpp:122 | across two sessions, download restores the uploaded bytes under the uploaded name and changes nothing else |
| Recovery.OnlyTargetChanges | src/client/client.cpp:122-126 | on every stream an action changes no local file but the one a download saves to |
| Recovery.UnsaveableName | src/client/client.cpp:122-124 | a name that is "", "." or ".." without its extension is saved nowhere |
| Recovery.SavedIsPrefix | src/client/client.cpp:122-126 | with an authentic stream, every byte stream leaves a prefix of the original under the stem, the original if code 0 came with the final tag |
| Recovery.UnansweredSavesEmpty | src/client/client.cpp:124-126 | an unanswered download leaves an empty file and code 1 |
| Recovery.InterruptedUploadSaved | src/client/authed_entry.cpp:284-333 | the download of an upload cut at any byte behind its first frames leaves exactly the chunks that had arrived, with code 2 |
| Recovery.InterruptedDownloadSaved | src/client/authed_entry.cpp:284-333 | a download cut at any byte leaves exactly the whole chunks, a prefix of the original, with code 1 |
| Recovery.SessionCutAnywhere | src/server/server.cpp:144-176 | a session of valid actions cut at any byte: the loop ends and the directory is the simple store's after exactly the actions that arrived whole, but for the whole blobs of an upload under way |
| Protocol.FrameLayout | src/encryption_utils/SessionEnc.cpp:172-193 | byte by byte: eight of length and eight of nonce, least significant first, then the sealed text, 16 longer than the text; a blob likewise |
| Protocol.NoticeWord | src/server/read_write_handlers.cpp:355-377 | only the notice 88,0,0,0 starts an action; every other word ends the loop |
| Protocol.IntentWord | src/server/server.cpp:155-175 | 1 reads, 2 writes, 3 lists, 4 deletes, any other word does nothing and the loop goes on |
| Protocol.UnreadIntent | src/server/server.cpp:157-159 | an intent that cannot be read costs only its turn |
| Protocol.AckWord | src/client/client.cpp:196-200 | acknowledgements are 0,0,0,0 and 255,255,255,255, and only the first means success |
| Protocol.PrefixWord | src/server/read_write_handlers.cpp:201-206 | the server goes on for 66 alone, the client stops for 77 alone |
| Protocol.UploadLayout | src/client/authed_entry.cpp:67-165 | an upload frame by frame: 1, name, 24 and 16 bytes, then each chunk pushed with tag 0, the last with 3, behind 66, the last behind 77 |
| Protocol.StoredLayout | src/server/read_write_handlers.cpp:142-160 | an upload changes exactly the key with `.enc` appended, whose file is 24 bytes of header, 16 of salt and the blobs |
| Protocol.DownloadLayout | src/server/read_write_handlers.cpp:254-296 | a download frame by frame |
| Protocol.ShortDownload | src/server/read_write_handlers.cpp:254-296 | a file under 40 bytes: what there is of header and salt over stale bytes, then one empty pair marked 77 |
| Protocol.SessionScript | src/client/client.cpp:219-273 | what a client sends over a whole session, on any replies: 88 and the intent before each body and 99 at the end, under successive values of one counter |
| Server.FsOperator.ReadInit | src/server/read_write_handlers.cpp:45-125 | all nine error returns and the success case on any stream, as the function whose behaviour at every cut and refusal `Upload` proves |
| Server.FsOperator.ReceiveChunks | src/server/read_write_handlers.cpp:172-208 | the chunk loop publishes what the parser selects, in every schedule of the writer |
| Server.FsOperator.WriteToFs | src/server/read_write_handlers.cpp:127-214 | return code, directory and remaining stream on any stream, in every schedule, also when the directory is gone; stored names stay within 255 bytes |
| Server.FsOperator.ReadFromFs | src/server/read_write_handlers.cpp:216-299 | return code, reply and remaining stream on any stream, or that it does not return because the name leads to a directory |
| Server.FsOperator.SendBody | src/server/read_write_handlers.cpp:276-296 | the read loop sends the re-cut body, END at the first short read |
| Server.FsOperator.ListFs | src/server/read_write_handlers.cpp:301-324 | count and names, each under a nonce of its own (`Limits.ListNonces`), or the exception when the directory is gone |
| Server.FsOperator.DeleteFromFs | src/server/read_write_handlers.cpp:326-353 | return code, directory, acknowledgement and remaining stream, or the exception of `remove` on a directory |
| Server.FsOperator.Turn | src/server/server.cpp:147-175 | notice, intent and dispatch on any stream, with how the turn ends; the values are in `Protocol.IntentWord` |
| Server.FsOperator.Serve | src/server/server.cpp:144-176 | the loop does what the session function says on any stream and ends, hangs or dies exactly as `Actions.SessionTerminates` says |
| Client.SenderAgent.EncryptAndSend | src/client/authed_entry.cpp:101-175 | sends exactly the upload's frames, the one frame of a missing file, or the four of a directory before its endless loop |
| Client.SenderAgent.SendInit | src/client/authed_entry.cpp:58-93 | the four frames of a file that opened, under successive nonces |
| Client.SenderAgent.EncryptChunks | src/client/authed_entry.cpp:133-167 | the read-push-send loop sends the encrypted cut of the file |
| Client.ReceiverAgent.DecryptChunks | src/client/authed_entry.cpp:293-330 | the receive loop publishes and returns what the loop function says, in every schedule, the 64-bit subtraction of 17 never wrapping |
| Client.ReceiverAgent.DecryptAndRead | src/client/authed_entry.cpp:249-336 | return code, written file and remaining stream on any stream, in every schedule |
| Client.Agent.ListNames | src/client/client.cpp:147-172 | the counted loop of names on any stream |
| Client.Agent.Perform | src/client/client.cpp:219-267 | one action: what is sent, what is received, local files (whatever became of a download, `Recovery` says which); a download name shorter than four bytes throws after the request |
| Client.Agent.AuthedComms | src/client/client.cpp:217-273 | at least one action, then the closing notice; an action that does not return is the last |
| Limits.UploadNonces | src/client/authed_entry.cpp:69-163 | an upload's frames carry successive nonces, pairwise distinct exactly up to 2^64 of them |
| Limits.DownloadNonces | src/server/read_write_handlers.cpp:218-296 | the same for a download |
| Limits.ListNonces | src/server/read_write_handlers.cpp:308-321 | a listing's count and names go out each under its own drawn nonce, distinct exactly when the drawn ones are |
| Limits.BodyNonces | src/client/client.cpp:116-184 | every action's body carries successive nonces after the seed drawn for it |
| Limits.ScriptNonces | src/client/client.cpp:219-273 | notices and intents of a whole session are one counter, distinct exactly up to 2^64 of them |
| Limits.UploadAcceptsIff | src/server/read_write_handlers.cpp:77-89 | an upload is accepted exactly for names of at most 250 bytes |
| Limits.OverlongUploadEndsSession | src/client/authed_entry.cpp:79-90 | an upload named over 250 bytes makes the server read the header as a notice and end the session, salt and chunks unread, directory unchanged |
| Limits.DownloadSucceedsIff | src/server/read_write_handlers.cpp:230-245 | a download of a plain name succeeds exactly when the file is there and its name fits; otherwise no reply, and the client returns 1, or throws below four bytes |
| Limits.DeleteAnsweredIff | src/server/read_write_handlers.cpp:337-350 | a deletion of a plain name is carried out and answered exactly when the name fits |
| Limits.DownloadCodes | src/server/read_write_handlers.cpp:225-298 | return codes of the read handler by condition: 3 not arrived, 2 unreadable or too long, 1 not there, 0 sent |
| Limits.DeleteCodes | src/server/read_write_handlers.cpp:330-352 | return codes of the delete handler by condition |
| Limits.UnterminatedName | src/server/read_write_handlers.cpp:219-334 | a name without NUL runs on into stale bytes in the read handler and is taken as sent in the delete handler |
| Limits.DirectoryUploadEndless | src/client/authed_entry.cpp:135-167 | an upload of "", "." or ".." never ends and the client gets to nothing after it |
| Limits.GoneDirectory | src/server/read_write_handlers.cpp:303-344 | after the user's directory is removed nothing is found, stored or deleted, uploads are still read, and a listing throws |
| Limits.DirectoryDownloadHangs | src/server/read_write_handlers.cpp:240-296 | a download of "", "." or ".." hangs the session in its first turn, whatever follows; this client throws |
| Limits.DirectoryDelete | src/server/read_write_handlers.cpp:343-344 | a deletion of "", "." or ".." kills the server, except that "" removes the user's own empty directory with success |
| Limits.ListSucceedsIff | src/client/client.cpp:159-169 | a listing returns 0 exactly when every stored name is shorter than 254 bytes, and 1 otherwise |
| Limits.ListCut | src/client/client.cpp:151-167 | a listing cut at any byte returns 1 with nothing left |
| Limits.NothingListed | src/client/client.cpp:158-171 | a count of zero or below lists nothing and succeeds |
| Limits.NameAddressability | src/client/client.cpp:116-118 | handler by handler: an accepted stem's file is downloaded and deleted exactly up to 245 bytes and listed exactly up to 249 |
| Limits.InvalidIntentionDesynchronises | src/client/client.cpp:265-267 | an invalid intention makes the server drop the next action, whatever it is, and end the session with its body unread |
| Pool.DescriptorOwnership | src/server/server.cpp:277-313 | in every run, with descriptor reuse, each open accepted descriptor is in exactly one of main, queue, handler, abandoned, and no other descriptor is anywhere |
| Pool.NeverStale | src/server/server.cpp:199-207 | a descriptor in hand or queued is always open, so neither thread is held up by it |
| Pool.ConnectionsDistinct | src/server/server.cpp:279-303 | no two open descriptors ever stand for the same connection |
| Pool.OldestFirst | src/server/server.cpp:204-205 | the queue is in the order of acceptance and a worker dequeues the oldest connection in it |
| Pool.FirstComeFirstServed | src/server/server.cpp:305-308 | in every run, with descriptor reuse, connections are numbered as they arrive and taken in increasing order: none is overtaken |
| Pool.ClientsExact | src/server/server.cpp:300-303 | the clients map has exactly the registered descriptors not yet erased, each for its current connection |
| Pool.EraseOwnEntry | src/server/server.cpp:178-182 | a handler erases its own connection's entry; every other entry stays and is another connection's |
| Pool.ConnectionConservation | src/server/server.cpp:305-312 | modulo 2^64 the counter plus the owed increment is queued plus handled plus failed key exchanges |
| Pool.LiveCountExactIff | src/server/server.cpp:120-135 | the counter is exact if and only if the owed increment balances the failed key exchanges |
| Pool.CounterWrapsIff | src/server/server.cpp:305-312 | below 2^64 - 1 connections, the counter stands at 2^64 - 1 if and only if nothing is connected and one increment is owed |
| Pool.CounterCanWrap | src/server/server.cpp:305-312 | with any number of workers, a rejected login before the increment takes the counter to 2^64 - 1 |

## Left out

- The internals of libsodium: contracts only; password hashing that runs out of memory.
- Login, credential prompts and the SQLite database: sessions start after authentication.
- Socket setup, time-outs, signals, `kill_server` and shutdown wake-ups: a `recv` that fails for another reason than end-of-file is not modelled apart from it.
- Partial sends: callers ignore the result of `send`, so a completed one is assumed.
- Two sessions that touch the same directory at once, file-system errors and full disks.
- Paths with separators: which of them lead to a directory is a parameter (`Env.directory`), but one that leads to a file, or to an empty directory elsewhere, is not followed.
- The endless empty pairs of a hanging upload or download, and what an uncaught exception does to the server's other sessions.
- The logger thread, which reads the clients map without its lock and only prints.
- Zeroing of keys and buffers, which no functional property depends on.
- Slots and wrapper buffers are sequences, not arrays: that writes stay within a fixed-size array is proved as a length bound instead (`Download.PublishedFits`, `Sockets.SessionEncWrapper.ForSender`, the slot capacity in `Pipeline.Shape`).
- `total_connections`, which is only incremented.
- The scheduling of client against server inside an action, which cannot matter because each end is a function of the bytes it reads.
- `prehistoric/`, `bench-1g/`, `tests/`, `cmake/`, `demo/` and `text/`.
