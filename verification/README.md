# Verified models of the camera firmware's concurrent and buffering code

Seven pieces of the firmware, each modelled in Dafny as a value, its steps, and an invariant over every run,
with a class beside it whose methods update the fields in place as the C code does and are proved to perform
exactly those steps.

| files | what is modelled |
|---|---|
| Netconn, NetconnProofs, NetconnAnswers, NetconnOutcomes, NetconnHandlers, NetconnDrain, NetconnDrainOrder | lwIP's sequential API for TCP: the requests run on the tcpip thread, the callbacks from the TCP core, the `op_completed` semaphore, draining a connection |
| WaveRing, WaveRuns, WaveDisk, WaveRecorder | the recorder's 64 KB ring, flushed by halves, and the WAV header patched at stop |
| AdcRotation, AdcStop, AdcRequests, AdcLoss, AdcTask | the three PCM buffers that rotate between the DMA and the encoder task, and the task's five-place queue |
| MsgQueue, MsgQueueProofs, MsgQueueObject | the message manager: a slot pool behind an OS queue of slot pointers |
| RtpWire, RtpJpeg, RtpSender | the RTP/JPEG packetiser, against a receiver that follows section 5.1 of RFC 3550 and section 3.1 of RFC 2435 |
| IcmpEcho | the echo reply and its incremental checksum, against section 2 of RFC 1071 |
| AvClock, AvHandshake, AudioClock, AvPlayer, AudioTask | playback: the clocks, the frame handshake between the timer interrupt and the tasks, the audio time |
| MemcpyAlign | the unrolled word copy |
| Basics | bytes, options, little-endian fields and sums that several of them use |

How to read it: the functions of a module are the specification, one per handler or loop. The classes
(`Connection`, `Socket`, `Recording`, `Recorder`, `MessageQueue`, `Sender`, `Player`, `Task`) hold the source's own
fields; each method's `ensures` equates the new state with such a function of the old one. The lemmas say what
these functions amount to. Nondeterminism - the order of callbacks, what `tcp_write` or `tcp_close` answers, how
much the disk or the socket takes, whether the encoder fails, where a task is interrupted - is a parameter or an
event, and the main lemmas hold for all of them.

## What was found

Properties one would expect of the code, and where exactly they hold:

- A write that ends with an error other than a retried `ERR_MEM` leaves `write_offset` as it was; "idle means
  offset 0" holds after a pass exactly if it did not end that way with bytes already accepted
  (`OffsetResetExactly`, and a run in `StaleOffsetReachable`). Nothing depends on it, because `do_write` sets the
  offset again. The assertions on `write_offset` are taken as compiled out.
- The error callback answers the pending request exactly if no non-blocking connect is unfinished
  (`ErrCallbackAnswersUnlessConnecting`). A delete during such a connect is therefore answered only because
  `tcp_close` cannot fail there, which the model assumes; a close is refused.
- A delete without a pcb is answered, but its error field is never assigned (`DeadRefuses`).
- One recorder call is equivalent to appending to the file exactly if the data fits: pending bytes plus new ones
  stay below the ring, or equal it in the first phase, and the disk takes the flush if one is due (`OnceExactly`,
  `LibOnceExactly`). The PCM path always fits, because its write position stays at 44 modulo half the ring.
  A recording is complete if and only if every flush that was due was taken in full (`FileExactly`).
  A pack-by-pack call in which the encoder fails leaves its earlier packs in the ring, but does not count them in
  the length that the header gets (`LibCountsExactly`).
- The encoder task's queue has five places, and nobody looks at the result of a post. When the message of a
  finished transfer finds no place, one buffer fewer will be encoded: a recorder that has stopped has encoded all
  that it filled if and only if that never happened (`AllEncodedExactlyIfRoomy`). With one stop request and three
  failing encodes it can happen (`LossIsReachable`). It cannot happen before somebody asks for a stop, however often
  the encoder fails (`NothingLostUnasked`), nor with up to three requests waiting as long as the encoder does not
  fail and the disk is not full (`NothingLostSmooth`).
- A recorder that is asked to stop does stop if and only if at most one such message was lost (`StopsExactly`). Two
  stop requests and three failing encodes lose two, and leave it hanging (`HangIsReachable`). Asked by one caller at
  a time it always stops, whatever fails (`OneCallerIsServed`), because a second message is lost only while two
  requests wait (`SecondLossNeedsTwoRequests`). A request that finds the queue full is dropped like any other message;
  the recorder then goes on recording, and can be asked again.
- `msgQSend` returns the OS error code, which is positive, when the post fails, where its header comment
  promises -1; the slot is then lost (`LossExactly`). With an OS queue smaller than the pool, sends alone bring
  this about (`SmallQueueLosesASlot`). A receive that asks for more than a slot holds loses its message and the slot.
- A message id of 0, and a flush while a receiver holds a slot, break the pool (`ZeroIdExactly`, `FlushExactly`).
- The RTP offset field has 24 bits: a frame is recoverable exactly if its last packet starts below 2^24
  (`RecoverableExactly`), as that of a frame of at most 2^24 bytes does (`UpTo24BitsRecovered`). A frame sent in
  parts whose END part is empty has no marked packet (`MarkedExactlyIfEndNotEmpty`). `rtp_send_whole_jpeg` makes up
  for a short send, at the price of a repeated marker (`MarkedOnceExactly`); `rtp_send_jpeg` ignores the count, so
  that a short send is a hole (`PartsAreTheWhole`). The debug flag stamps the sequence number into bytes 32 and 33
  of the caller's frame. The source identifier goes out in the host's byte order (`SessionFields`), which a receiver
  cannot tell, as it only compares it.
- The checksum patch yields a valid reply for every valid request but one kind: code 0 and every word after the
  checksum zero (`ReplyVerifiesExactly`, and such a request in `BlankIsReachable`).
- The flush that answers a playback stop wedges the frame handshake exactly if a frame is queued behind the request
  (`StopFlushExactly`), which a timer still running would cause (`TimerMustStopFirst`); the flush at the end of the
  video likewise needs the timer off (`TimerMustBeOffAtTheEnd`). The two places that start the timer without looking
  at the video flag can bring this about (`TimerNeedsVideo`). A stop requested while the video task is finding the
  end of the video is flushed unanswered (`StopDuringEndOfVideoIsLost`); no other step loses a request
  (`RequestLostExactly`).
- The bound on how far video leads audio needs a timer tick that is not zero: the video rate must not be, and there
  must be at least 100 samples a second (`FileBoundedExactly`).
- `gp_memcpy_align` copies exactly `len` bytes if and only if `len` is a non-negative multiple of 4; otherwise it
  copies 16 words too many, or, for a negative length, the head (`CopiesExactly`).

## Model

| member | source | states |
|---|---|---|
| NetconnProofs.StepKeeps | code/7801-v001 Project.si4project/Backup/api_msg(4105).c:277-405 | every request and callback, in any order, keeps the connection consistent: a message is pending exactly in WRITE, CLOSE and a blocking CONNECT, and every signal and every byte is accounted for |
| NetconnProofs.EveryRequestAnsweredOnce | code/7801-v001 Project.si4project/Backup/api_msg(4105).c:748-890 | over any run, signals equal requests received minus the pending one; no request is answered twice and none is dropped |
| NetconnProofs.StreamIsWhatWasWritten | code/7801-v001 Project.si4project/Backup/api_msg(4105).c:1231-1413 | the bytes handed to tcp_write are, in order, the accepted prefixes of the answered writes and of the one in progress; ERR_OK reports the bytes accepted, and for a write neither timed out nor non-blocking that is all |
| NetconnAnswers.OkMeansWritten | code/7801-v001 Project.si4project/Backup/api_msg(4105).c:1231-1413 | over any run, whatever else is going on: a write answered ERR_OK with length n has the first n bytes of the data it was made with in the stream handed to TCP, and is among the answered writes with n bytes accepted |
| NetconnAnswers.AskedIsBrought | code/7801-v001 Project.si4project/Backup/api_msg(4105).c:748-1413 | the requests that result speaks of are, with their data, those that the run brought in |
| NetconnAnswers.StepKnown | code/7801-v001 Project.si4project/Backup/api_msg(4105).c:277-405 | every request and callback keeps it so: each answer belongs to a request that was made, and an ERR_OK to a write has its record |
| NetconnProofs.WriteMoreIsExact | code/7801-v001 Project.si4project/Backup/api_msg(4105).c:1231-1357 | one pass hands over the next bytes and no others, within the send buffer and 64K - 1, and either leaves the request pending just past them or answers it |
| NetconnOutcomes.PassExactly | code/7801-v001 Project.si4project/Backup/api_msg(4105).c:1231-1357 | what one pass hands over, when the write stays pending - exactly if it may block, is not timed out, and memory is short or data left - and otherwise the one answer it gets |
| NetconnOutcomes.RecordedExactly | code/7801-v001 Project.si4project/Backup/api_msg(4105).c:1231-1357 | an answered write is recorded with its own data, what was accepted of it, and whether a timeout or non-blocking mode cut it short |
| NetconnOutcomes.WriteExactly | code/7801-v001 Project.si4project/Backup/api_msg(4105).c:1367-1413 | a write is taken up if and only if no fatal error is recorded, nothing else is running and there is a pcb; otherwise it gets the error of the first of these that fails and changes nothing else |
| NetconnOutcomes.BusyWriteFails | code/7801-v001 Project.si4project/Backup/api_msg(4105).c:1374-1376 | a write made while another request is unfinished is answered with an error and leaves the stream alone |
| NetconnProofs.BlockingWriteCompletes | code/7801-v001 Project.si4project/Backup/api_msg(4105).c:1231-1357 | a blocking write is answered ERR_OK with its full length after at most as many callbacks with room and memory as it has bytes left, however many ERR_MEM retries come between |
| NetconnProofs.DeadStaysDead | code/7801-v001 Project.si4project/Backup/api_msg(4105).c:347-405 | once the pcb is gone, through any run, nothing more is handed to TCP, nothing is left pending and the fatal error is not forgotten |
| NetconnProofs.DeadRefuses | code/7801-v001 Project.si4project/Backup/api_msg(4105).c:833-890 | without a pcb every write, close, connect and listen is answered with an error at once - a write with the fatal error the connection died of - and a delete is answered with its error field unassigned |
| NetconnOutcomes.CloseTakenExactly | code/7801-v001 Project.si4project/Backup/api_msg(4105).c:1479-1511 | which closes are taken up, and with what error the others are answered, changing nothing else |
| NetconnOutcomes.CloseExactly | code/7801-v001 Project.si4project/Backup/api_msg(4105).c:748-823 | a close under way stays pending until TCP accepts it, is then answered ERR_OK, and costs the pcb if and only if both directions were closed |
| NetconnOutcomes.CallbackCloses | code/7801-v001 Project.si4project/Backup/api_msg(4105).c:277-338 | a pending close is finished by the first callback at which TCP accepts it, and by no other |
| NetconnOutcomes.DeleteTakenExactly | code/7801-v001 Project.si4project/Backup/api_msg(4105).c:833-890 | a delete becomes a close of both directions unless a write or close is running or the pcb is gone |
| NetconnOutcomes.ConnectExactly | code/7801-v001 Project.si4project/Backup/api_msg(4105).c:986-1043 | an accepted connect stays pending if it may block, and is answered ERR_INPROGRESS if not; the others are refused and change nothing |
| NetconnOutcomes.ConnectedExactly | code/7801-v001 Project.si4project/Backup/api_msg(4105).c:939-976 | the end of a connect answers a blocking one only, with its result, and clears the last error of a non-blocking one unless it is fatal |
| NetconnOutcomes.ListenExactly | code/7801-v001 Project.si4project/Backup/api_msg(4105).c:1075-1133 | listening succeeds if and only if there is a listening pcb and an accept mailbox; without the mailbox the pcb is lost |
| NetconnProofs.OffsetResetExactly | code/7801-v001 Project.si4project/Backup/api_msg(4105).c:1311-1337 | which ways of ending a write leave write_offset at 0, in both directions |
| NetconnProofs.StaleOffsetReachable | code/7801-v001 Project.si4project/Backup/api_msg(4105).c:1332-1337 | a run that ends idle with write_offset 2 |
| NetconnProofs.ErrCallbackAnswersUnlessConnecting | code/7801-v001 Project.si4project/Backup/api_msg(4105).c:347-405 | the error callback wakes the caller if and only if no non-blocking connect is unfinished |
| NetconnOutcomes.ErrorExactly | code/7801-v001 Project.si4project/Backup/api_msg(4105).c:347-405 | the pcb is gone, the error remembered, and the pending request answered with that error; a write is recorded with what had been accepted |
| NetconnHandlers.Connection.DoWriteMore | code/7801-v001 Project.si4project/Backup/api_msg(4105).c:1231-1357 | the pass in place: chunking, non-blocking and timed-out branches, the shared tail that answers |
| NetconnHandlers.Connection.DoWrite | code/7801-v001 Project.si4project/Backup/api_msg(4105).c:1367-1413 | refused on a fatal earlier error, a running request or no pcb; otherwise started and given a first pass |
| NetconnHandlers.Connection.DoCloseInternal | code/7801-v001 Project.si4project/Backup/api_msg(4105).c:748-823 | a failed close stays pending, a successful one is answered and, for both directions, loses the pcb |
| NetconnHandlers.Connection.DoClose | code/7801-v001 Project.si4project/Backup/api_msg(4105).c:1479-1511 | which closes are refused, and with what error |
| NetconnHandlers.Connection.DoDelconn | code/7801-v001 Project.si4project/Backup/api_msg(4105).c:833-890 | a delete becomes a close of both directions, or is answered at once without a pcb |
| NetconnHandlers.Connection.DoConnect | code/7801-v001 Project.si4project/Backup/api_msg(4105).c:986-1043 | blocking connects stay pending, non-blocking ones are answered ERR_INPROGRESS and marked |
| NetconnHandlers.Connection.DoListen | code/7801-v001 Project.si4project/Backup/api_msg(4105).c:1075-1133 | the pcb is replaced by a listening one, and lost when the accept mailbox cannot be made |
| NetconnHandlers.Connection.ConnectedCallback | code/7801-v001 Project.si4project/Backup/api_msg(4105).c:939-976 | a blocking connect is answered, a non-blocking one only unmarked |
| NetconnHandlers.Connection.ErrCallback | code/7801-v001 Project.si4project/Backup/api_msg(4105).c:347-405 | the pcb is gone and the pending request, if any, gets the error |
| NetconnHandlers.Connection.ProgressCallback | code/7801-v001 Project.si4project/Backup/api_msg(4105).c:277-338 | sent and poll callbacks continue the pending write or close, and keep the invariant |
| NetconnDrain.DrainExact | code/7801-v001 Project.si4project/Backup/api_msg(4105).c:682-737 | draining frees each buffer as often as it was queued, credits each window by exactly its queued bytes, and tells TCP of, aborts and frees each un-accepted child as often as is due to it |
| NetconnDrain.DrainPerConnection | code/7801-v001 Project.si4project/Backup/api_msg(4105).c:682-737 | the same read per connection: its own bytes if it is TCP with a live pcb, and otherwise none; each child is freed once and aborted once exactly if its pcb is live; a live listener reports one accept for each child |
| NetconnDrainOrder.FreedInOrder | code/7801-v001 Project.si4project/Backup/api_msg(4105).c:682-737 | buffers are freed in the order in which they were queued, the connection's own before its children's, and those child by child |
| NetconnDrainOrder.DrainIsOrderly | code/7801-v001 Project.si4project/Backup/api_msg(4105).c:682-737 | window is credited before the buffer it was read from is freed, and nothing is done to a connection after it is freed |
| NetconnDrain.Socket.Drain | code/7801-v001 Project.si4project/Backup/api_msg(4105).c:682-737 | both mailbox loops in place; every child ends without pcb and mailboxes, as netconn_free demands |
| NetconnDrain.PiecesExact | code/7801-v001 Project.si4project/Backup/api_msg(4105).c:1196-1217 | the pieces credited sum to the length asked for, each at most 0xffff and none empty unless the length is 0, and how many there are |
| NetconnDrain.DoRecv | code/7801-v001 Project.si4project/Backup/api_msg(4105).c:1196-1217 | for a live TCP connection the loop terminates and credits exactly those pieces, and for any other none |
| WaveRing.OnceExactly | application/mini_dvr_api/src/audio_record.c:753-798 | one encode call is appending to the file if and only if its data fits in what is free of the ring and the disk has room for the flush, or none is due |
| WaveRing.LibOnceExactly | application/mini_dvr_api/src/audio_record.c:895-942 | the same for the pack-by-pack path, which flushes once per call |
| WaveRing.LibOnceIsOnce | application/mini_dvr_api/src/audio_record.c:895-942 | a pack-by-pack call leaves exactly the state that one PCM call with the packs joined would |
| WaveRing.LibOnceKeeps | application/mini_dvr_api/src/audio_record.c:895-942 | a fitting call appends its packs and is back in phase, or reports the encoder's failure with the earlier packs appended |
| WaveRing.FinalExactly | application/mini_dvr_api/src/audio_record.c:502-527 | the final flush completes the stream if and only if the write position lies in the half the phase flag names |
| WaveRing.PutHolds | application/mini_dvr_api/src/audio_record.c:759-778 | the copy with its split at the ring's end appends to the unflushed part and overwrites none of it |
| WaveRing.SaveInv | application/mini_dvr_api/src/audio_record.c:462-497 | a full flush keeps file plus unflushed part and brings position and phase together again |
| WaveRing.LessThanHalfFits | application/mini_dvr_api/src/audio_record.c:895-942 | a call that adds less than half the ring always fits |
| WaveRuns.FilePlusPending | application/mini_dvr_api/src/audio_record.c:688-798 | after any number of PCM calls, file plus unflushed part are header and PCM, and so is the file after the final flush |
| WaveRuns.RunOfHalfChunks | application/mini_dvr_api/src/audio_record.c:753-798 | chunks of exactly half the ring never reach the corner: the position stays at 44 modulo half, from any such state |
| WaveRuns.RunOfSmallChunks | application/mini_dvr_api/src/audio_record.c:753-798 | chunks of any sizes below half the ring are appended, from any state between calls |
| WaveRuns.RecordingIsWav | application/mini_dvr_api/src/audio_record.c:719-744 | after stop the file is a PCM WAV header of 16-bit mono samples at the given rate, consistent in its fields, and every PCM byte in order, its RIFF length and data length right if and only if they fit in 32 bits |
| WaveRuns.StopExactly | application/mini_dvr_api/src/audio_record.c:719-744 | stopping succeeds if and only if the disk takes all that is pending; then only the header is overwritten, and otherwise what fitted was appended and the header is left blank |
| WaveRuns.LibCountsExactly | application/mini_dvr_api/src/audio_record.c:895-942 | a pack-by-pack call counts its bytes in FileLenth if and only if the encoder does not fail in it, though earlier packs stay in the ring |
| WaveRuns.RunCountsBytes | application/mini_dvr_api/src/audio_record.c:780 | FileLenth is the number of bytes accepted, modulo 2^32 |
| WaveDisk.FileExactly | application/mini_dvr_api/src/audio_record.c:462-527 | over any run of calls that fit, on a disk that may fall short at any of them, the file becomes the stream if and only if every flush that was due was taken in full |
| WaveDisk.SmallFit | application/mini_dvr_api/src/audio_record.c:753-798 | calls that each add less than half the ring fit, whatever the disk does |
| WaveDisk.HalvesFit | application/mini_dvr_api/src/audio_record.c:753-798 | so do the half-ring chunks of the PCM path, each of which makes a flush due |
| WaveDisk.RecordingCompleteExactly | application/mini_dvr_api/src/audio_record.c:688-798 | a PCM recording is header and every sample in order if and only if the disk took half the ring at every call |
| WaveDisk.LibFileExactly | application/mini_dvr_api/src/audio_record.c:895-942 | the same over any run of pack-by-pack calls that each add less than half the ring |
| WaveRecorder.Recording.constructor | application/mini_dvr_api/src/audio_record.c:688-716 | recording starts with the blank header as the first thing in the ring |
| WaveRecorder.Recording.SaveBuffer | application/mini_dvr_api/src/audio_record.c:462-497 | which half is flushed, and the phase flag complemented even when the write fails |
| WaveRecorder.Recording.SaveFinalData | application/mini_dvr_api/src/audio_record.c:502-527 | what the final flush writes |
| WaveRecorder.Recording.EncodeOnce | application/mini_dvr_api/src/audio_record.c:753-798 | the PCM call in place, with the word pointer advanced by size / 2 for an even position, which it keeps even |
| WaveRecorder.Recording.EmitPacks | application/mini_dvr_api/src/audio_record.c:903-932 | the loop terminates with every pack copied in, or at the first failure |
| WaveRecorder.Recording.EncodeLibOnce | application/mini_dvr_api/src/audio_record.c:895-942 | the loop terminates, emits cwlen / OnePCMFrameSize packs if and only if the encoder never fails, and leaves the ring as the packs say |
| WaveRecorder.Recording.EncodeStop | application/mini_dvr_api/src/audio_record.c:719-744 | the final flush and the header patched over the file's first bytes |
| AdcRotation.EncodedOnceInOrder | application/mini_dvr_api/src/audio_record.c:135-182 | in every run, even one that loses messages, the buffer being encoded is neither being filled nor queued for it, and transfers are encoded at most once and in the order they were filled |
| AdcRotation.AllEncodedExactlyIfRoomy | application/mini_dvr_api/src/audio_record.c:135-182 | when the recorder has stopped, every requested transfer has been filled, and all have been encoded if and only if each found a place in the queue for its message |
| AdcRotation.FullExactly | application/mini_dvr_api/src/audio_record.c:16-16 | when a transfer ends at most one earlier message of its kind and three of the task's own wait, so that only stop requests of the user can fill the queue |
| AdcRotation.NothingLostUnasked | application/mini_dvr_api/src/audio_record.c:135-182 | no run loses a message before the user asks for a stop, whatever fails |
| AdcRotation.NothingLostSmooth | application/mini_dvr_api/src/audio_record.c:135-182 | nor does one in which no encode fails, the disk is not full and at most three stop requests wait |
| AdcLoss.LossIsReachable | application/mini_dvr_api/src/audio_record.c:135-182 | a run with one stop request that stops with five buffers filled and four encoded |
| AdcStop.TwoLossesHang | application/mini_dvr_api/src/audio_record.c:257-287 | after a second loss, of which there are no more, no transfer ends and the recorder never stops |
| AdcLoss.HangIsReachable | application/mini_dvr_api/src/audio_record.c:135-182 | a run with two stop requests and three failing encodes that loses two messages and ends with nothing left to happen, not stopped |
| AdcRotation.LostIsCounted | application/mini_dvr_api/src/audio_record.c:135-182 | what is counted as lost is the number of transfers that ended with five messages waiting |
| AdcRotation.SecondLossNeedsTwoRequests | application/mini_dvr_api/src/audio_record.c:16-16 | a second message is lost only while two stop requests of the user wait |
| AdcRotation.StepKeeps | application/mini_dvr_api/src/audio_record.c:135-182 | every interrupt, stop request and task step keeps the rotation: transfer k lives in buffer k modulo 3, and each that ended was taken, has its message waiting, or lost it to a full queue |
| AdcStop.StopsExactly | application/mini_dvr_api/src/audio_record.c:257-287 | a run of the recorder that cannot go on has stopped if and only if at most one message of a finished transfer was lost |
| AdcStop.StopIsReached | application/mini_dvr_api/src/audio_record.c:257-287 | once a stop request is taken every run is over within 17 steps, and one that cannot go on has stopped if and only if at most one message was lost in all |
| AdcStop.OneCallerIsServed | application/mini_dvr_api/src/audio_encoder.c:93-108 | as long as no stop is asked for while an earlier request waits, the recorder stops, whatever fails |
| AdcStop.StepDrains | application/mini_dvr_api/src/audio_record.c:135-182 | while stopping, the queue drains far enough for the last message to find a place unless two are lost |
| AdcRequests.EncodedExactly | application/mini_dvr_api/src/audio_record.c:168-181 | after an encode a failure posts the error message alone, a full disk a stop request, and success nothing; a full queue drops either |
| AdcRequests.AskedExactly | application/mini_dvr_api/src/audio_encoder.c:93-108 | the user's request is queued if there is a place for it, and nothing else changes |
| AdcRequests.RequestIsServed | application/mini_dvr_api/src/audio_record.c:257-287 | over any run, a stop request that found a place stays queued until the messages in front of it are taken, and with the next one taken the recorder stops recording for good |
| AdcRequests.FullDiskStops | application/mini_dvr_api/src/audio_record.c:176-181 | a full disk stops the recorder as a user does, whatever happens in between |
| AdcRequests.DmaKeepsRunning | application/mini_dvr_api/src/audio_record.c:135-151 | while recording the DMA is idle if and only if two finished transfers wait or had their message lost |
| AdcTask.Recorder.OnDmaDone | application/mini_dvr_api/src/audio_record.c:135-182 | the handler's rotation in place; what it is about to encode is out of the DMA's reach, and a stop message that is due finds a place |
| AdcTask.Recorder.OnStop | application/mini_dvr_api/src/audio_record.c:257-287 | at the stop message every requested transfer has been filled, and encoded unless its message was lost |
| MsgQueueProofs.ReceivesReturnWhatWasSent | application/msg_manager/src/msg_manager.c:133-316 | however sends interleave with the steps of any receivers, the k-th receive to finish returns the id and, if the pop that took the message passed a buffer, as many bytes as that pop asked for of the message it took from the head of a double-ended queue - the whole payload if it asked for enough |
| MsgQueueProofs.StepSim | application/msg_manager/src/msg_manager.c:133-316 | every step refines the double-ended queue: normal sends append, urgent ones prepend, a pop takes the head |
| MsgQueueProofs.SendLeavesOthersAlone | application/msg_manager/src/msg_manager.c:133-201 | no send overwrites a slot that is queued or that a receiver is still copying from |
| MsgQueue.StepKeeps | application/msg_manager/src/msg_manager.c:51-342 | every step keeps the pool sound: queued slots are distinct, a slot's id is 0 exactly if it is free, a held slot has its holder |
| MsgQueueProofs.PoolIsPartitioned | application/msg_manager/src/msg_manager.c:51-99 | at every moment the slots marked free, the pointers queued, the receivers holding one and the lost slots add up to the pool |
| MsgQueueProofs.PoolIsConserved | application/msg_manager/src/msg_manager.c:51-316 | in every run with an OS queue as large as the pool and receive sizes within a slot, free, queued and held slots add up to the slots created |
| MsgQueueProofs.SendFailsOnlyWhenItMust | application/msg_manager/src/msg_manager.c:133-201 | with an OS queue as large as the pool a send succeeds if and only if the payload fits and a slot is free |
| MsgQueueProofs.RejectedSendChangesNothing | application/msg_manager/src/msg_manager.c:133-201 | a payload that is too long, or one that finds no free slot, gets -1 and changes nothing |
| MsgQueueProofs.CreateMeans | application/msg_manager/src/msg_manager.c:51-99 | a new queue has the number of slots asked for, all free, each of the asked size rounded up to words and by no more |
| MsgQueueProofs.NoSlotIsLost | application/msg_manager/src/msg_manager.c:133-316 | with such a queue, and receive sizes within a slot, no run ever loses a slot |
| MsgQueueProofs.LossExactly | application/msg_manager/src/msg_manager.c:182-246 | a slot is lost by a send whose payload fits and finds a slot but no place in the OS queue, by an oversized receive, and by nothing else |
| MsgQueueProofs.SmallQueueLosesASlot | application/msg_manager/src/msg_manager.c:182-201 | with a smaller OS queue, from any idle state, sends alone lead to a lost slot |
| MsgQueueProofs.FlushExactly | application/msg_manager/src/msg_manager.c:326-342 | with the semaphore free, a flush is safe if and only if no receiver holds a slot |
| MsgQueueProofs.ZeroIdExactly | application/msg_manager/src/msg_manager.c:133-201 | a send with id 0 keeps the pool sound if and only if the payload is too long, no slot is free or the OS queue is full |
| MsgQueueObject.MessageQueue.constructor | application/msg_manager/src/msg_manager.c:51-99 | a new queue: the slot size rounded up to words and every slot free |
| MsgQueueObject.MessageQueue.Send | application/msg_manager/src/msg_manager.c:133-201 | the scan, the copy and the post in place, with the three results; the pool stays sound unless id 0 is posted |
| MsgQueueObject.MessageQueue.PopSlot | application/msg_manager/src/msg_manager.c:275-288 | the head of the OS queue goes to the receiver before the semaphore is taken; an empty queue gives nothing |
| MsgQueueObject.MessageQueue.TakeSem | application/msg_manager/src/msg_manager.c:229-246 | the size check comes after the pop, so a receive that fails it drops its slot |
| MsgQueueObject.MessageQueue.FreeSlot | application/msg_manager/src/msg_manager.c:247-261 | the slot is freed after the copy, and the message counts as received |
| MsgQueueObject.MessageQueue.FlushAll | application/msg_manager/src/msg_manager.c:326-342 | the OS queue is emptied and the pool zeroed, which is sound if and only if no receiver holds a slot |
| RtpWire.ParseSerialize | application/task_rtsp_rtp/inc/rtp.h:19-40 | the swapped fields in their little-endian structs are network order: a receiver reads back marker, sequence number, timestamp, offset and payload |
| RtpWire.SessionFields | application/task_rtsp_rtp/inc/rtp.h:19-40 | version 2, payload type 26, JPEG type 0 and Q 1; width and height in units of 8; the source identifier in the host's byte order |
| RtpJpeg.CompleteExactlyIfAllArrive | application/task_rtsp_rtp/src/rtp_server.c:225-308 | in any arrival order, with any repetition, the receiver has a byte for every place, and the frame, if and only if every packet arrived |
| RtpJpeg.WholeIsRecovered | application/task_rtsp_rtp/src/rtp_server.c:225-308 | so for every frame sent whole, whatever counts the socket returns |
| RtpJpeg.MissingLeavesGap | application/task_rtsp_rtp/src/rtp_server.c:225-308 | a missing packet leaves a hole at its own offset |
| RtpJpeg.RecoverableExactly | application/task_rtsp_rtp/src/rtp_server.c:263-305 | a frame is recoverable if and only if its last packet starts below 2^24 |
| RtpJpeg.FullyTakenRecoverableExactly | application/task_rtsp_rtp/src/rtp_server.c:263-305 | with a socket that takes whole packets, that is: if and only if the size rounded down to whole payloads is below 2^24 |
| RtpJpeg.UpTo24BitsRecovered | application/task_rtsp_rtp/src/rtp_server.c:263-305 | whatever the socket takes, a frame of at most 2^24 bytes is recovered |
| RtpJpeg.FragmentsTile | application/task_rtsp_rtp/src/rtp_server.c:263-305 | the packets tile the frame with no gap and no overlap |
| RtpJpeg.FragmentFields | application/task_rtsp_rtp/src/rtp_server.c:247-305 | consecutive sequence numbers modulo 2^16, one timestamp, payloads of 1 to 1430 bytes |
| RtpJpeg.MarkerIsLast | application/task_rtsp_rtp/src/rtp_server.c:268-280 | with full sends the marker is on the last packet of the frame and no other |
| RtpJpeg.MarkedOnceExactly | application/task_rtsp_rtp/src/rtp_server.c:268-305 | for any frame and socket the marker is on the last packet alone if and only if the first packet offered all there is left is taken in full |
| RtpJpeg.PartsAreTheWhole | application/task_rtsp_rtp/src/rtp_server.c:134-223 | START, DATA and END parts reassemble to the same frame as their concatenation sent whole, if and only if every packet of the parts was taken in full |
| RtpJpeg.PartsFields | application/task_rtsp_rtp/src/rtp_server.c:134-223 | over all parts one timestamp, consecutive sequence numbers, and the marker on the last packet only, given an END part that is not empty |
| RtpJpeg.MarkedExactlyIfEndNotEmpty | application/task_rtsp_rtp/src/rtp_server.c:176-190 | a frame in parts has a marked packet if and only if its END part is not empty |
| RtpJpeg.SeriesSequence | application/task_rtsp_rtp/src/rtp_server.c:134-308 | over any series of frames, whole or in parts, each with what the socket takes of it, sequence numbers are consecutive modulo 2^16 |
| RtpSender.Sender.SendPacket | application/task_rtsp_rtp/src/rtp_server.c:91-132 | what the socket took is on the wire, and its positive count is returned |
| RtpSender.Sender.SendWholeJpeg | application/task_rtsp_rtp/src/rtp_server.c:225-308 | exactly the datagrams of the specified packets leave, and the debug stamp, which reads back to the sequence number, is the only change to the caller's frame |
| RtpSender.Sender.SendJpeg | application/task_rtsp_rtp/src/rtp_server.c:134-223 | exactly the datagrams of one part leave, with offset and timestamp restarted by START and whole frames only |
| RtpSender.Sender.SendInParts | application/task_rtsp_rtp/src/rtp_server.c:134-223 | START, DATA and END calls one after the other send exactly the packets that the results on parts are about |
| IcmpEcho.ReplyVerifiesExactly | code/7801-v001 Project.si4project/Backup/icmp(4551).c:199-212 | for an echo request of any length the patched reply verifies if and only if the request did and is not blank |
| IcmpEcho.BlankIsReachable | code/7801-v001 Project.si4project/Backup/icmp(4551).c:199-212 | an eight-byte request that verifies in either byte order and whose reply does not |
| IcmpEcho.PatchIsRecomputation | code/7801-v001 Project.si4project/Backup/icmp(4551).c:205-212 | the two-branch increment equals computing the checksum from scratch, in just those cases |
| IcmpEcho.HostOrderDoesNotMatter | code/7801-v001 Project.si4project/Backup/icmp(4551).c:205-212 | little- and big-endian hosts send the same reply |
| IcmpEcho.OnlyTypeAndChecksumChange | code/7801-v001 Project.si4project/Backup/icmp(4551).c:199-212 | the reply has type 0 and the request's code, identifier, sequence number and data, byte for byte |
| IcmpEcho.OnesSumIsFoldedSum | code/7801-v001 Project.si4project/Backup/icmp(4551).c:148-156 | word-by-word end-around addition, the folded wide sum and the sum modulo 65535 agree |
| IcmpEcho.Checksum | code/7801-v001 Project.si4project/Backup/icmp(4551).c:148-156 | the loop that adds and folds computes the complement of the one's-complement sum |
| IcmpEcho.IcmpInput | code/7801-v001 Project.si4project/Backup/icmp(4551).c:104-215 | which packets are answered, dropped or ignored; an answer has type 0 and differs from the request in type and checksum only, anything else is left as it came, and what leaves is valid unless it answers the blank request |
| AvClock.VideoNeverLeadsByMore | application/task_video_decoder/src/video_decoder_app.c:35-54 | under any interleaving of ticks, audio time, resets and new files, video leads audio by less than the range and one tick |
| AvClock.FileBoundedExactly | application/task_video_decoder/src/video_decoder_state.c:720-733 | a file with audio keeps that bound through every run if and only if its video rate is not zero and it has at least 100 samples a second |
| AvClock.LagComesDown | application/task_video_decoder/src/video_decoder_app.c:35-54 | while audio stands still video catches up by exactly two steps a tick until it is within the range and one step |
| AvClock.TicksConverge | application/task_video_decoder/src/video_decoder_app.c:35-54 | after a number of ticks computed from the lag, and ever after, video is within the range of audio, but for less than the last step of a lead |
| AvClock.LeadIsHeld | application/task_video_decoder/src/video_decoder_app.c:35-54 | video that leads by the range or more stands still, for any number of ticks, until audio moves |
| AvClock.FreeRunning | application/task_video_decoder/src/video_decoder_app.c:35-54 | without audio n ticks move video by exactly n steps |
| AvClock.ClocksAreSums | application/task_video_decoder/src/video_decoder_app.c:35-54 | between resets audio time and frame time are the sums of what was played and shown, and video never goes back |
| AvClock.ResetsZeroAll | application/task_video_decoder/src/video_decoder_state.c:426-478 | a new file, a change of speed and a restart put all three clocks to zero, with audio as asked |
| AvClock.SpeedScales | application/task_video_decoder/src/video_decoder_state.c:426-478 | the step is the tick times the speed in units of 1/65536, rounded down, and the range does not change with the speed |
| AvHandshake.HandshakeHolds | application/task_video_decoder/src/video_decoder_app.c:56-63 | across stop, restart and end of video: at most one frame message queued or being handled, the counters differ exactly when there is one, and the queue never fills |
| AvHandshake.StepKeeps | application/task_video_decoder/src/video_decoder_task.c:135-313 | every step of the interrupt, the video task and the state task keeps that |
| AvHandshake.TickAsksExactly | application/task_video_decoder/src/video_decoder_app.c:56-63 | a tick queues one frame message, behind whatever waits, if and only if a frame is due and none outstanding |
| AvHandshake.OneFrameCycle | application/task_video_decoder/src/video_decoder_task.c:222-258 | a due tick, the taking of its message and the end of the frame leave everything as it was but for both counters, one up and equal |
| AvHandshake.CountersExactly | application/task_video_decoder/src/video_decoder_task.c:135-258 | one counter counts frames asked for and the other frames finished since the file was opened, settled at the end of the video |
| AvHandshake.TimerExactly | application/task_video_decoder/src/video_decoder_state.c:466-475 | the timer runs from its start to the next stop of timer or video or the end of the video |
| AvHandshake.RequestsExactly | application/task_video_decoder/src/video_decoder_task.c:259-314 | the state task waits from its request, which goes to the end of the queue, until the video task takes one |
| AvHandshake.StopFlushExactly | application/task_video_decoder/src/video_decoder_task.c:309-314 | the flush that answers a stop wedges the handshake if and only if a frame is queued behind the request |
| AvHandshake.TimerMustStopFirst | application/task_video_decoder/src/video_decoder_state.c:781-791 | with the timer stopped after the task instead, one tick would wedge it |
| AvHandshake.TimerMustBeOffAtTheEnd | application/task_video_decoder/src/video_decoder_task.c:135-149 | likewise a tick between settling the counters and the flush |
| AvHandshake.TimerNeedsVideo | application/task_video_decoder/src/video_decoder_state.c:466-475 | a timer started without looking at the video flag leads to that, if and only if there is no video |
| AvHandshake.EndFlushExactly | application/task_video_decoder/src/video_decoder_task.c:142-148 | the flush at the end of the video strands the state task if and only if its request is in the queue |
| AvHandshake.RequestLostExactly | application/task_video_decoder/src/video_decoder_task.c:135-313 | a step loses a request that the state task waits for if and only if it is the flush at the end of the video and the queue is not empty |
| AvHandshake.AnsweredExactly | application/task_video_decoder/src/video_decoder_task.c:135-313 | over any run no request is ever lost if and only if that flush never finds anything in the queue |
| AvHandshake.StopDuringEndOfVideoIsLost | application/task_video_decoder/src/video_decoder_task.c:135-149 | a stop requested while the video is ending is never answered |
| AudioClock.AudioTimeIsExact | application/task_video_decoder/src/audio_decoder_task.c:154-235 | after k DMA-done messages audio time is the sum of the durations of the first k sizes that the decoder returned, until all that was decoded has been played; while audio lasts the ring's indices agree |
| AudioClock.AudioTimeInWords | application/task_video_decoder/src/audio_decoder_task.c:154-235 | over any run audio time is the exact time of the words played, or with upsampling short of it by at most half a unit for each buffer |
| AudioClock.RunDecodes | application/task_video_decoder/src/audio_decoder_task.c:154-235 | each message adds the duration of what the decoder returned, in order, up to the first empty one, and nothing after it |
| AudioClock.DriftBounded | application/task_video_decoder/src/audio_decoder_task.c:221-231 | counted audio time equals the exact time of the words played, or with upsampling falls short by at most half a unit for each buffer |
| AudioClock.DmaDoneRing | application/task_video_decoder/src/audio_decoder_task.c:154-235 | no duration is overwritten before it has been added |
| AudioClock.DecodesOnlyFreeBuffers | application/task_video_decoder/src/video_decoder_app.c:154-164 | the next buffer decoded into is the one just played, never one the DMA has |
| AudioTask.Task.constructor | application/task_video_decoder/src/audio_decoder_task.c:237-304 | three buffers decoded, the first two handed to the DMA, in order |
| AudioTask.Task.OnDmaDone | application/task_video_decoder/src/audio_decoder_task.c:154-235 | the handler in place, with the ring's invariant kept |
| AvPlayer.Player.TimerIsr | application/task_video_decoder/src/video_decoder_app.c:35-64 | both halves of the interrupt; a frame is asked for if and only if its time has come and none is outstanding |
| AvPlayer.Player.FinishFrame | application/task_video_decoder/src/video_decoder_task.c:222-258 | frame time moves only for a frame that was decoded, and the next one is allowed either way |
| AvPlayer.Player.EndVideo | application/task_video_decoder/src/video_decoder_task.c:135-149 | counters settled, queue empty and timer off |
| AvPlayer.Player.TakeStopReq | application/task_video_decoder/src/video_decoder_task.c:309-314 | a stop leaves the counters equal and the queue empty |
| AvPlayer.Player.StopVideo | application/task_video_decoder/src/video_decoder_state.c:781-791 | timer first, then the request, which finds room |
| AvPlayer.Player.PlaySpeedSet | application/task_video_decoder/src/video_decoder_state.c:426-478 | the new step and the zeroed clocks keep the bound on the lead |
| AvPlayer.Player.constructor | application/task_video_decoder/src/video_decoder_state.c:610-734 | a new file starts with equal counters, zeroed clocks and the bound met |
| MemcpyAlign.CopiesExactly | gpstdlib/src/gp_stdlib.c:111-228 | head and loop copy exactly len bytes if and only if len is a non-negative multiple of 4, and what they copy otherwise |
| MemcpyAlign.MemcpyIsCopy | gpstdlib/src/gp_stdlib.c:111-228 | for every such length, without a forward overlap, the destination gets the source's words and nothing else changes |
| MemcpyAlign.BlocksAreOneCopy | gpstdlib/src/gp_stdlib.c:124-228 | any sequence of load/store-multiple blocks equals one simple copy |
| MemcpyAlign.Memcpy | gpstdlib/src/gp_stdlib.c:111-228 | switch and loop in place; the loop ends at the computed end |

## Left out

Members whose contracts say less than their source does:

- NetconnHandlers.Connection.DoWriteMore: does not model `tcp_output`, `API_EVENT` and the check-writespace flag, which do not touch the request.
- NetconnHandlers.Connection.DoCloseInternal: does not model the reset and restoring of the pcb's callbacks, nor `API_EVENT`.
- NetconnHandlers.Connection.DoClose: does not model the drain of the mailboxes on a read shutdown; what a drain does is `NetconnDrain`.
- NetconnHandlers.Connection.DoDelconn: does not model the drain before the close, for the same reason.
- NetconnHandlers.Connection.DoListen: does not model the deletion of the receive mailbox, nor an accept mailbox that exists already.
- NetconnHandlers.Connection.ErrCallback: does not model the wake-up messages posted to the two mailboxes.
- NetconnHandlers.Connection.ProgressCallback: does not model the write-space notification after it.
- NetconnDrain.Socket.Drain: empties the accept mailbox as a sequence held by the connection; buffers are numbers with a length, so sharing of pbufs is not captured.
- NetconnDrain.DoRecv: does not model the branch for a listening pcb, which is compiled only with a listen backlog.
- WaveRecorder.Recording.constructor: does not model a ring that cannot be allocated.
- WaveRecorder.Recording.EncodeOnce: does not model the switch-file message.
- WaveRecorder.Recording.EncodeLibOnce: does not model the sample count; what the encoder reads is a parameter, so its advancing source address is not there.
- WaveRecorder.Recording.EncodeStop: does not model a seek or write that fails while patching.
- AdcTask.Recorder.OnDmaDone: does not model the low-pass filter and the down-sampling in front of the encoder.
- MsgQueueObject.MessageQueue.constructor: does not model failing allocation or creation.
- MsgQueueObject.MessageQueue.PopSlot: does not model waiting in the OS for a message.
- RtpSender.Sender.SendPacket: does not model the address set-up; a send that is retried is modelled by its final, positive count.
- RtpSender.Sender.SendWholeJpeg: does not model a count at or below the header size, for which the source's unsigned subtraction would wrap.
- IcmpEcho.IcmpInput: does not model the IP header, the copy into a larger buffer, other ICMP types, and sending.
- AudioTask.Task.constructor: does not model a decoder that fails at the start.
- AudioTask.Task.OnDmaDone: does not model the decoder's retries and shutdown on failure, nor buffers handed to the DMA after the end of the audio.
- AvPlayer.Player.FinishFrame: does not model the frame-drop level and the choice of display.
- AvPlayer.Player.EndVideo: does not model the callback's wait for a forced stop when audio has ended too.
- AvPlayer.Player.StopVideo: does not model the status test before it and the audio half of the stop.
- AvPlayer.Player.PlaySpeedSet: takes the audio switch and the critical section after it as one step, and does not model starting and stopping the audio task.
- AvPlayer.Player.constructor: does not model the creation of the parser, the format checks and the play-speed fields.

What the repository does that the model does not:

- Core locking, `netconn_alloc`, and the `recvmbox` traffic of the connections.
- Send timeouts: one flag of the environment says at each pass whether the time is up.
- `tcp_close`, `tcp_connect`, `tcp_write`: their answers are parameters; that `tcp_close` succeeds on a listening pcb and on one still connecting, and that the caller does not delete during a blocking connect, are assumed, as the source's own assertions do.
- Listening sockets, UDP, RAW, DNS and IPv6 handlers of `api_msg`: no shared request state. Requests answered at once by them are the event `ReqOther`.
- `wave_encode_lib_start` and `wave_encode_lib_stop`, and the MP3 path, whose encoder is not in the repository.
- Failing starts of the recorder and the codec registers. The ten-second limit of `audio_encode_stop` is not modelled: a stop may be asked for whenever the recorder is recording.
- The message pool's byte layout, 32-bit sizes, and deleting a queue. A flush takes the semaphore and gives it back in one step.
- The n-th-frame message, which finishes frames that were not posted; the parser's error handler, which stops timer and task from another thread in the same order; a new file opened while a frame is outstanding. Checks of the video flag and the timer start that follows are one step.
- 32-bit wrap-around of addresses and lengths in `gp_memcpy_align`, and forward overlaps, for which only the block-by-block specification holds.
- Scaler, JPEG engine, display, storage service, USB, menus and the DHCP server: device flows and dispatch.
