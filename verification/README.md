# A model of rtltcp2026

rtltcp2026 serves an RTL-SDR radio over TCP. One master sends 5-byte commands and any number of
slaves listen; a proxy stands in for a remote server and may encrypt its link to it; a capture
tool records a stream to a file and a replay tool plays it back. This project models the parts of
it that carry state between bytes, and proves what they keep over whole runs.

| file | what it models |
|---|---|
| `bytes.dfy` | bytes, fixed-width integers, concatenation and subsequences |
| `control.dfy` | the rate limiter and the AGC flag (`src/control.rs`) |
| `encryption.dfy` | the cipher object and the encrypting reader and writer (`src/encryption.rs`) |
| `broadcast.dfy` | the bounded broadcast channel and `write_client_loop` (`src/stream.rs`) |
| `fanout.dfy` | a producer and any number of clients in any interleaving |
| `relay.dfy` | keyless proxies in series, each connecting before it relays |
| `answers.dfy` | a proxy behind a proxy: acknowledgements among the samples |
| `handshake.dfy` | the set-up of an encrypted link as the steps of four threads |
| `proxy.dfy` | `connect_upstream` as one thread runs it (`src/proxy.rs`) |
| `command_link.dfy` | the forwarding thread, and the command direction of an encrypted link |
| `commands.dfy` | frames, device calls and the dispatcher of the control loops |
| `control_threads.dfy` | the single-client and the multi-client control loop over a connection |
| `shutdown.dfy` | the shutdown token and the cancel thread |
| `capture_format.dfy` | the capture file format (`src/capture/mod.rs`) |
| `capture_tool.dfy` | the capture loop (`src/bin/capture.rs`) |
| `replay.dfy` | the replay loop (`src/bin/replay.rs`) |

Objects whose methods update them are classes with `modifies` clauses: the limiter, the AGC flag,
the cipher, the reader and writer around it, the channel ring and its receivers, client streams,
files, the device. Each method is proved against a function of the old state, and the properties
are proved about those functions. Threads that interleave are step systems: `Enabled` and `Next`
say what each thread may do, a run is a sequence of steps, and what is proved holds of every run.
That these systems can do all that the code does is proved too: what can be sent, read and relayed
is, in some run, and every run of a modelled loop is a run of its step system.
Sockets, clocks and random nonces are parameters, so every result holds for all of their values.

## What turned out to hold only sometimes

The code is modelled as it is. Where a property one would expect is false of it, the exact
condition is proved instead.

- An encrypting writer moves its cipher by the bytes offered, not by the bytes accepted, so what a
  client is sent survives the link under every keystream exactly when each write is taken whole
  (`Encryption.RecoveredIffWhole`, `Encryption.EachRecoveredIffWhole`,
  `Broadcast.SessionDecrypts`).
- The cipher positions at the two ends of a link agree, up to the bytes in flight, exactly when no
  upstream write broke off, no server read gave up part way through a frame, and no second nonce
  was read (`CommandLink.InSyncIffClean`). A local master can cause the last by sending a chain
  probe of its own, under any keystream and limiter, and the ends never agree again
  (`CommandLink.ProbeSlips`, `CommandLink.ProbeBreaksLink`).
- A new limiter passes its first command exactly when the clock can be wound back by one interval
  or an interval has gone by (`Control.FirstCommand`). Commands that passed the proxy's limiter
  are all acted on by the server if both see the same times; with other times they are exactly when
  these still keep to the interval, which unequal delays can undo
  (`ControlThreads.NothingDroppedTwice`, `ControlThreads.NothingDroppedIff`,
  `Control.JitterDropsCommands`).
- The set-up of an encrypted link can be completed exactly when the server's new limiter passes the
  probe; otherwise the probe is gone and no thread has a step left (`Handshake.NoDeadlock`). With
  a clock that does not run backwards it passes it exactly when that clock had run for 50 ms
  before the control thread started, or 50 ms have gone by since (`Handshake.ClockDecides`).
- Lag keeps I/Q alignment exactly when every chunk has even length: for every capacity, one odd
  chunk is enough for a run in which a client that misses it is given samples that were never
  sent (`FanOut.AlignedIffEven`; `FanOut.OddChunkBreaksSamples` is the smallest such run). A
  proxy's chunks are whatever its reads return.
- A plain upstream's first bytes are taken for the answer to the probe. What is relayed of it keeps
  its samples exactly when an even number of them came in time, and from one that is already
  streaming they never do (`Proxy.PlainRelayIff`, `Proxy.StreamingUpstreamLosesFive`). It is even
  taken for a chain exactly when the first of five such bytes is 0xF0 (`Proxy.ConnectUpstream`).
- The probe of a second proxy is a command to the first, and the server's acknowledgement comes
  back among the samples that the first broadcasts. Behind it they stay in place exactly when
  one of the two limiters drops the probe (`Answers.SecondProxyShiftsIff`), and over a whole
  session exactly when an even number of probes is acknowledged (`Answers.AnswersHarmlessIff`).
- A capture whose threshold flush fails writes the same buffer again at the end, so its file is
  what an unbuffered capture would have written exactly when the failed write had put nothing in
  the file (`CaptureTool.FinishedIffNothingSpilled`); `CaptureTool.SpoiltCapture` is a history
  after which nothing can be read back.
- At normal speed a replay sleeps for the recorded span exactly when the timestamps are in order;
  each one that goes back costs 2^64 ns (`Replay.NormalSpeedIff`, `Replay.NormalSpeed`).
- A looping replay never sends and never pauses, and never ends, exactly when all chunks are empty
  and each comes less than `speed` nanoseconds after the one before, or pauses are switched off
  (`Replay.LoopSpinsIff`, `Replay.SilentIff`).

Where the code and its documents differ, the model follows the code:

- `design.md` line 76 calls a partial read corruption; `read_chunk` takes one to seven bytes at
  the end of a file for a clean end (`CaptureFormat.TruncatedDecode`).
- `README.md` lines 14 and 454 say that chained proxies decrypt IQ data; the proxy broadcasts what
  it reads as it is, and only commands are decrypted, by the server.
- `requirements.md` line 63 says that looping restarts after the file is exhausted; a file that
  ends in a broken chunk ends the replay (`Replay.TruncatedReplay`).

## Model

| member | source | states |
|---|---|---|
| Control.FirstCommand | src/control.rs:182-189 | when a new limiter passes its first command, in both directions, including a clock younger than the interval |
| Control.RateLimiter.constructor | src/control.rs:182-189 | a new limiter looks back one interval, or falls back to a second clock reading |
| Control.RateLimiter.Check | src/control.rs:193-202 | the verdict for a clock reading, and that only an accepted command moves the limiter |
| Control.AcceptedFacts | src/control.rs:181-203 | over any nondecreasing readings the accepted commands are a subsequence and at least one interval apart |
| Control.WindowBound | src/control.rs:47-47 | any window of length w holds at most floor(w / interval) + 1 accepted commands |
| Control.GreedyOptimal | src/control.rs:193-202 | no other choice of arrivals that keeps to the interval is larger |
| Control.DropsNothingIff | src/control.rs:193-202 | a limiter drops nothing exactly when the arrivals already keep to its interval |
| Control.SecondLimiterDropsNothing | src/control.rs:181-203 | a second limiter of no slower pace drops none of the readings a first accepted |
| Control.PassedAreAccepted | src/control.rs:193-202 | the frames a limiter lets through are a subsequence of those that reach it, and the ones at the accepted readings |
| Control.PassedInWindow | src/control.rs:47-47 | any window of length w holds at most floor(w / interval) + 1 frames let through |
| Control.SecondPassesAll | src/control.rs:193-202 | a second limiter that sees these frames at the same times lets them all through |
| Control.JitterDropsCommands | src/main.rs:669-673 | two commands the first limiter passed, of which the second drops one because their delays differ |
| Control.AgcState.Enable | src/control.rs:158-160 | the flag is up and the result tells whether that is a change |
| Control.AgcState.Disable | src/control.rs:162-164 | the flag is down and the result tells whether that is a change |
| Encryption.Cipher.ApplyKeystream | src/encryption.rs:57-57 | the loop encrypts a prefix of the buffer in place under consecutive positions and leaves the rest |
| Encryption.MaskTwice | src/encryption.rs:37-60 | decrypting at the position of encryption gives the plaintext back |
| Encryption.SegmentsDoNotMatter | src/encryption.rs:54-60 | however the ciphertext is cut into reads, what is decrypted is the same |
| Encryption.ReadInPieces | src/encryption.rs:54-60 | any number of reads of any sizes take all that is offered to them and decrypt exactly that stretch of ciphertext |
| Encryption.EncryptedReader.Read | src/encryption.rs:54-60 | one read decrypts exactly the bytes it received and moves the cipher by as many |
| Encryption.EncryptedWriter.Write | src/encryption.rs:26-31 | one write passes on what the inner stream accepts and moves the cipher by all that was offered |
| Encryption.EncryptedWriter.PushAll | src/encryption.rs:26-31 | write_all over such a writer, with short, interrupted and failing writes, is the function WriteAll |
| Encryption.DoneIffAccepted | src/encryption.rs:26-31 | a write completes exactly when the inner stream takes as many bytes as there are, however they are cut and interrupted |
| Encryption.WholeWriteIsMask | src/encryption.rs:26-31 | a buffer taken in one go is sent under consecutive positions |
| Encryption.RecoveredIffWhole | src/encryption.rs:26-31 | a completed write decrypts correctly under every keystream exactly when the inner stream took the buffer whole |
| Encryption.ShortWriteCounterexample | src/encryption.rs:26-31 | for every short or interrupted write, a keystream under which it is garbled |
| Encryption.EachRecoveredIffWhole | src/encryption.rs:26-31 | a run of writes decrypts to all that was written, under every keystream, exactly when each was taken whole |
| Encryption.StatusIgnoresCipher | src/encryption.rs:26-31 | how a write ends does not depend on key, nonce or position |
| Broadcast.Channel.constructor | src/stream.rs:11-15 | a new channel is open, empty and has the capacity asked for |
| Broadcast.Channel.Send | src/stream.rs:9-15 | sending never waits, and overwriting the oldest slot keeps the ring equal to the end of the full log |
| Broadcast.SlotsDistinct | src/stream.rs:9-15 | positions less than one capacity apart never share a slot |
| Broadcast.Receiver.TryRecv | src/stream.rs:30-46 | the ring gives every receiver exactly what an unbounded log with a clamped cursor would |
| Broadcast.RecvAccounted | src/stream.rs:30-46 | one receive keeps a client's account: delivered plus lagged is the distance travelled, in order |
| Broadcast.SendAccounted | src/main.rs:519-527 | sending changes no client's account |
| Broadcast.ClientStream.WriteAll | src/stream.rs:32-35 | write_all to a client with short, interrupted and failing writes, in the clear or through the encrypting writer, is the function WriteAll |
| Broadcast.PassAccounted | src/stream.rs:24-48 | one pass keeps the client's account and writes exactly the chunk it delivers |
| Broadcast.SessionAccounted | src/stream.rs:19-49 | so does every run of the loop: what was delivered is what was written |
| Broadcast.WriteClientLoop | src/stream.rs:19-49 | the loop delivers, lags, writes and ends exactly as the session function says for every history, and the wire carries these writes |
| Broadcast.LoopEndsExactly | src/stream.rs:24-48 | the loop ends exactly at the first round with the exit flag, a drained closed channel or a write that is not taken; lag and an empty channel do not end it |
| Broadcast.CatchesUp | src/stream.rs:24-48 | left alone, a client reaches the end of the channel within capacity + 1 rounds of the last send |
| Broadcast.AllAccountedFor | src/stream.rs:30-46 | and delivered and lagged are then all that was sent since it subscribed |
| Broadcast.PlainSession | src/stream.rs:32-35 | a client in the clear is sent the chunks delivered, or a beginning of them after a write that failed |
| Broadcast.SessionDecrypts | src/main.rs:561-568 | an encrypted client's wire decrypts to its delivered chunks under every keystream exactly when each write was taken whole |
| FanOut.Conservation | src/stream.rs:24-48 | in every reachable state delivered + lagged + pending = sent since the client subscribed, and the bytes are whole chunks in order |
| FanOut.Independence | src/stream.rs:30-46 | what a client receives is the same with every other client's steps removed |
| FanOut.NeverLaggedAgree | src/stream.rs:30-46 | two clients that never lagged hold the same chunks from the later subscription on |
| FanOut.AlignedIffEven | src/main.rs:948-955 | for every capacity, histories that begin with given chunks and go on with even ones keep every client's samples exactly when those chunks are even |
| FanOut.SamplesKept | src/main.rs:519-527 | with chunks of even length lag drops whole I/Q samples and never splits or swaps one |
| FanOut.OddChunkBreaksSamples | src/main.rs:948-955 | the smallest run in which one odd chunk and one lag yield a sample that was never sent |
| FanOut.MissedRun | src/stream.rs:30-46 | a run in which a client is given the first chunks, misses all up to any point, and is given the rest |
| FanOut.EncryptedClient | src/main.rs:561-568 | client loop, encrypting writer and segmented encrypting reader composed: under any lag the plaintext is exactly the chunks delivered, as far as is read, if each write was taken whole |
| Relay.Next | src/main.rs:942-968 | every step of every stage keeps what it broadcast equal to the stretch of its upstream behind the bytes taken while connecting |
| Relay.RelaySubseq | src/main.rs:942-968 | through any number of stages, segmentations, lag and bytes lost while connecting, the last client's bytes are a subsequence of the first upstream's |
| Relay.RelayContiguous | src/main.rs:1013-1019 | when no hop lagged they are one unbroken stretch of them |
| Relay.ReadsInAnyCut | src/main.rs:942-955 | a stage can read what waits for it in any cut of up to a buffer, and broadcasts these reads |
| Relay.AdmittedFromHere | src/main.rs:1013-1019 | a client admitted now is given, if it never lags, what the stage logs from now on |
| Relay.Drains | src/main.rs:942-968 | from every chain of serving stages reading and serving alone bring every stage and client to the end of its upstream |
| Relay.WholeOutput | src/stream.rs:31-36 | a stage at the end, with a client from the start that never lagged, has handed on all of its upstream behind the bytes skipped |
| Relay.RelaysWhole | src/main.rs:942-968 | for every source, capacity and number of stages there is a run in which the last client is sent all of it behind the bytes skipped |
| Answers.HarmlessIffEven | src/main.rs:942-968 | bytes mixed into a stream in any way leave the samples behind them in place exactly when their number is even |
| Answers.AnswersHarmlessIff | src/main.rs:775-779 | over a whole session without a key that is so exactly when an even number of probes is acknowledged |
| Answers.SecondProxyShiftsIff | src/main.rs:1048-1059 | a second proxy's probe shifts the samples of all clients of the first exactly when both limiters pass it |
| Handshake.StepKeeps | src/main.rs:552-592 | every step of the acceptor, control, IQ and proxy threads keeps the invariant of the set-up |
| Handshake.Agreement | src/main.rs:775-797 | in every reachable state server-to-proxy bytes are a prefix of magic, ack, nonce, encrypted IQ, and the nonces of the two ends agree |
| Handshake.ReachableIff | src/main.rs:552-592 | conversely every prefix of magic, ack, nonce, encrypted IQ, for any IQ and cut anywhere, is what some run has sent |
| Handshake.StepDecreases | src/proxy.rs:31-76 | every step of the set-up lowers a measure and IQ traffic leaves it unchanged |
| Handshake.StartDecides | src/main.rs:669-673 | after any run the probe has been dropped exactly when the first check of the limiter failed |
| Handshake.Completes | src/proxy.rs:31-76 | from every state in which the probe was not dropped some run reaches the end of the set-up |
| Handshake.NoDeadlock | src/main.rs:775-797 | every run has at most 38 set-up steps; it can be completed, and until then has a step enabled, exactly when the limiter's first check passes |
| Handshake.ClockDecides | src/control.rs:182-189 | and the clock readings for which it does |
| Handshake.IqFlows | src/main.rs:561-573 | from every reachable state whose probe was not dropped some run completes the set-up and sends any chunk of IQ behind it |
| Handshake.ExchangeIff | src/encryption.rs:75-99 | two peers never get stuck exchanging nonces exactly when at least one sends first, and each gets the other's |
| Proxy.ConnectUpstream | src/proxy.rs:19-84 | when connecting fails, failed writes included; when the upstream is taken for a chain, rightly or not; what is read of it; and from which bytes and nonces the two ciphers are made |
| Proxy.MeetsHandshake | src/proxy.rs:60-76 | against a server that follows the set-up, the proxy is left at the first byte of encrypted IQ and under its nonce |
| Proxy.HarmlessIffEven | src/proxy.rs:41-53 | cutting bytes for an answer that was none keeps the samples of every stream exactly when their number is even |
| Proxy.PlainRelayIff | src/proxy.rs:41-53 | what is relayed of a plain upstream keeps its samples exactly when an even number of bytes came in time for an answer |
| Proxy.StreamingUpstreamLosesFive | src/proxy.rs:41-65 | of a plain upstream already streaming five bytes are lost, or 17 when it is taken for a chain, and its samples with them |
| CommandLink.ForwardFrame | src/main.rs:1048-1065 | a frame is limited first and encrypted after, so a dropped frame leaves the cipher where it was and a torn one does not |
| CommandLink.SessionIsPassed | src/main.rs:1048-1050 | what a master's thread forwards, whole or torn, is exactly what its limiter passes of the frames it read |
| CommandLink.SessionReads | src/main.rs:1029-1047 | the limiter is asked about every frame read before the exit flag, whatever the timeouts, or up to the one that is torn |
| CommandLink.ForwardMaster | src/main.rs:1025-1067 | a master's whole session, with timeouts, exit flag and failing writes, appends the frames of the session function, encrypted from the shared position on |
| CommandLink.MasterIsRun | src/main.rs:987-1071 | every such session, at any point of the link's life, is a run of the link's steps |
| CommandLink.GapStep | src/main.rs:639-673 | no step of the two ends lets the server's cipher catch up on bytes lost, and exactly the slips widen the gap |
| CommandLink.InSyncIffClean | src/main.rs:930-934 | after any run the proxy position is the server position plus the bytes in flight exactly when no step slipped |
| CommandLink.FramesInOrder | src/main.rs:1023-1065 | after every clean run the server has decrypted exactly the first of the frames forwarded and the bytes in flight are the rest |
| CommandLink.ReadableIff | src/main.rs:639-644 | in step, the server can read exactly when a forwarded frame is not yet read |
| CommandLink.OrderlyRunsDrain | src/main.rs:638-673 | every orderly run can be continued by reads alone until every frame forwarded is decrypted and nothing is in flight |
| CommandLink.ServerIsServe | src/main.rs:638-805 | in any run from any state, the frames decrypted and dispatched are those that the server's modelled loop reads and acts on |
| CommandLink.ServeIsRun | src/main.rs:638-805 | conversely whatever that loop does with the bytes on the link is a run of the link's steps |
| CommandLink.LoopActsInOrder | src/main.rs:638-805 | after every clean run that loop acts on a subsequence of what local masters sent and has read the first of what was forwarded |
| CommandLink.OrderlyRunsStayInSync | src/main.rs:639-673 | complete writes, timeouts between frames and no probe from a master keep the link in step over every interleaving |
| CommandLink.FrameRead | src/main.rs:639-673 | in step, the frame the server reads is the next one forwarded, whether its limiter drops it or not |
| CommandLink.ProbeSlips | src/main.rs:775-797 | from every state in step, for every keystream, a probe from a master with 12 bytes behind it leads to positions that never agree again |
| CommandLink.ProbeBreaksLink | src/main.rs:775-797 | for every cipher, key, nonce and limiter of the server there is such a run from the start, without a cut write or a timeout |
| CommandLink.BogusFrame | src/main.rs:641-673 | for every limiter a run in which the server then decrypts and acts on a frame nobody sent |
| Commands.SettingIff | src/control.rs:64-104 | a setting reaches the device exactly when the frame is the encoding of an in-range value |
| Commands.FrameSets | src/main.rs:284-394 | which setting each opcode changes, from the bytes of the frame and with the bounds as numbers, and which opcodes are unknown |
| Commands.AgcIff | src/main.rs:705-774 | which gain-mode and AGC frames turn AGC off and which on |
| Commands.AllInRange | src/main.rs:675-774 | every value in every history of device calls is in range |
| Commands.CallsAreBounded | src/control.rs:26-44 | the numbers in every history of device calls |
| Commands.LastFrameWins | src/main.rs:675-774 | a setting has a value after a history exactly when the last in-range frame for it asked for that value |
| Commands.ChangesAlternate | src/control.rs:148-173 | announced AGC changes are off, on, off, on, and their number gives the flag |
| Commands.Device.TurnAgc | src/main.rs:705-726 | the shared flag stays the last request sent to the device, and exactly the changes are announced |
| Commands.Device.Dispatch | src/main.rs:675-804 | the arms of the loop make the call that the frame stands for, or count it as unknown |
| Commands.Device.Handle | src/main.rs:675-804 | acting on one more frame from any master keeps device, flag and announcements equal to those of the whole history |
| ControlThreads.ReadFrame | src/main.rs:639-662 | a frame is read and decrypted in place, or bytes were lost to a timeout and the cipher stayed, or the stream ended |
| ControlThreads.AnswerProbe | src/main.rs:775-797 | acknowledgement, nonce, stored pair and new read cipher, and what is left of these when either write fails or the nonce does not come |
| ControlThreads.ProbeAnsweredIff | src/main.rs:775-797 | with a key, nonces are stored and a cipher is set exactly when the peer's nonce came whole and ours was sent, whatever became of the acknowledgement |
| ControlThreads.OnePass | src/main.rs:638-805 | one pass decrypts before it limits, so a dropped frame still moves the cipher |
| ControlThreads.ServeMulti | src/main.rs:638-808 | the multi-client loop acts on, sends and stores exactly what Serve says, for every stream, timeout, exit and failing write |
| ControlThreads.ClearReads | src/main.rs:245-273 | without a key the loop reads the frames of the stream one by one until the exit flag or the end: timeouts and the limiter do not stop it |
| ControlThreads.ClearActs | src/main.rs:244-396 | and acts on those of them that its limiter lets through |
| ControlThreads.DecryptingReads | src/main.rs:638-667 | the same under a cipher in step with the sender: it reads the frames sent |
| ControlThreads.LostBytesAreGone | src/main.rs:645-647 | a read that gives up part way through a frame is as if the bytes it took had never come |
| ControlThreads.ActedArePassed | src/main.rs:669-673 | the frames acted on are those of the frames read that the limiter lets through |
| ControlThreads.ActedInWindow | src/main.rs:669-673 | so in any window of length w the loop acts on at most floor(w / interval) + 1 of them |
| ControlThreads.NothingDroppedIff | src/main.rs:669-673 | the loop acts on all the frames it reads exactly when they keep to the interval |
| ControlThreads.NothingDroppedTwice | src/main.rs:669-673 | frames that a proxy's limiter passed, reaching the server at the same times, are all acted on |
| ControlThreads.ServeSingle | src/main.rs:244-398 | the single-client loop does what the multi-client one does without a key |
| ControlThreads.ClearSession | src/main.rs:244-398 | without a key each probe acted on is acknowledged once, or in part by a failed write; with timeouts between frames only, the frames are a subsequence of the stream's |
| ControlThreads.DecryptingSession | src/main.rs:639-673 | in step with the sender, with timeouts between frames only, the frames acted on are a subsequence of those sent, whatever the limiter drops |
| ControlThreads.EncryptedSession | src/main.rs:775-797 | a keyed session from the proxy's probe on: replies, stored nonces and frames acted on |
| Shutdown.JoinReturns | src/main.rs:401-445 | at main's join a token is queued or already received, so the join always can complete, with the read cancelled and the exit flag up |
| Shutdown.SignalStops | src/main.rs:214-225 | the cancel thread can by itself cancel the device read and raise the exit flag exactly when a signal, a failed callback or main has asked for it |
| Shutdown.SignalExitsIff | src/main.rs:484-492 | when a signal raises the exit flag at once, in each mode |
| Shutdown.RunKeeps | src/main.rs:869-882 | the token invariant holds after every interleaving of signals, callbacks, main and the cancel thread |
| CaptureFormat.ChunkRoundTripIff | src/capture/mod.rs:62-83 | a chunk reads back from any file exactly when its length is below 2^32 |
| CaptureFormat.DecodedIsEncoded | src/capture/mod.rs:69-83 | whatever is read as a chunk is the encoding of that chunk |
| CaptureFormat.HeaderRoundTripIff | src/capture/mod.rs:32-60 | a header reads back exactly when its payload is below 2^32 |
| CaptureFormat.WholeInIsMost | src/capture/mod.rs:62-67 | the number of chunks wholly inside a prefix is the greatest that fits |
| CaptureFormat.TruncatedDecode | src/capture/mod.rs:69-83 | every prefix of every encoding yields exactly the chunks whole in it, then a clean end below 8 bytes and an error otherwise |
| CaptureFormat.FileRoundTrip | src/capture/mod.rs:62-83 | the full encoding reads back as the chunks written and a clean end |
| CaptureFormat.EncodingInjective | src/capture/mod.rs:62-67 | different lists of chunks have different encodings |
| CaptureFormat.DecodeAccounts | src/capture/mod.rs:69-83 | for arbitrary bytes, what is read re-encodes to the beginning of them and what follows is no chunk |
| CaptureFormat.ReadChunk | src/capture/mod.rs:69-83 | the sequence of reads is the decoder, including its errors and the position after it |
| CaptureFormat.ReadHeader | src/capture/mod.rs:42-60 | the same for the header, whose version is read and not looked at |
| CaptureFormat.WriteChunk | src/capture/mod.rs:62-67 | three writes put the encoding at the position and move past it |
| CaptureFormat.WriteHeader | src/capture/mod.rs:15-30 | from any position the header is written there and at the start, and the position ends after the first copy |
| CaptureFormat.HeaderRewrite | src/capture/mod.rs:15-60 | after that, for any old contents and position, the header reads back from the start and later bytes are untouched |
| CaptureTool.TallyPrefix | src/bin/capture.rs:88-143 | over every history, what is captured is the beginning of what was read, and what is held or spilled is part of it |
| CaptureTool.TallyWhenFlushesWork | src/bin/capture.rs:130-141 | when flushes work all of it is captured, nothing is spilled, and less than a full buffer is left |
| CaptureTool.FinishedIffNothingSpilled | src/bin/capture.rs:130-149 | over every history and buffer size the finished file is the unbuffered one exactly when the flush that ended the loop left nothing in it |
| CaptureTool.SpoiltCapture | src/bin/capture.rs:130-149 | a failed flush of a one-byte capture, after which no chunk can be read back |
| CaptureTool.FlushBound | src/bin/capture.rs:130-141 | over every history the number of threshold flushes times the buffer size is at most the encoded bytes flushed |
| CaptureTool.Absorb | src/bin/capture.rs:125-142 | one chunk keeps file and buffer together equal to header and encodings, flushed and counted at the threshold; a failed flush keeps the buffer |
| CaptureTool.CaptureLoop | src/bin/capture.rs:88-143 | over every history the loop's file and buffer are those of the tally, with the byte count and the exact number of flushes |
| CaptureTool.RunCapture | src/bin/capture.rs:76-151 | the file and the number of flushes for every history, buffer size and final write, and that a complete file is the unbuffered one exactly when the tally spills nothing |
| Replay.PassDelayBound | src/bin/replay.rs:184-192 | for ordered timestamps and any speed a pass sleeps at most T/s and falls short by less than 1 ns a gap |
| Replay.NormalSpeed | src/bin/replay.rs:184-192 | at speed 1 a pass sleeps T plus 2^64 ns for every timestamp that goes back |
| Replay.NormalSpeedIff | src/bin/replay.rs:184-192 | it sleeps exactly T exactly when the timestamps are in order |
| Replay.OnceThrough | src/bin/replay.rs:157-202 | without looping n passes send the data of the first n chunks and sleep as one pass over them |
| Replay.RoundAndRound | src/bin/replay.rs:157-202 | with looping n passes are whole rounds and then a chunk-aligned prefix, and each round starts without a pause |
| Replay.NoDelayIff | src/bin/replay.rs:186-189 | two chunks are sent without a pause exactly when less than speed nanoseconds are between them |
| Replay.OnePass | src/bin/replay.rs:158-202 | one pass of the body sends, pauses, starts over, ends or loses the client as the chunk, the write and the file's end decide |
| Replay.StreamChunks | src/bin/replay.rs:157-202 | the loop over any file and any writes: what was sent and slept, and that without looping it ends after one pass a chunk and one more |
| Replay.Replay | src/bin/replay.rs:43-202 | for arbitrary file contents: nothing without a header, part of the payload if that write fails, else the payload and then what the loop sends |
| Replay.ReplayOfCapture | src/capture/mod.rs:42-83 | what is a replay of the unbuffered encoding of storable chunks is exactly the magic packet and a replay of these chunks |
| Replay.TruncatedReplay | src/bin/replay.rs:157-178 | a capture cut short anywhere replays as its whole chunks, again and again in loop mode below 8 bytes over, and once only when a chunk is broken off |
| Replay.CaptureAndReplay | src/bin/replay.rs:43-202 | the two tools run one after the other: a client served to the end has the magic packet and exactly the bytes read from the server, once or, looping, whole times and a chunk-aligned prefix |
| Replay.LoopSpinsIff | src/bin/replay.rs:161-169 | looping over any chunks sends nothing and never sleeps, in any number of passes, exactly when they hold no data and no delay |
| Replay.SilentIff | src/bin/replay.rs:184-192 | that is so exactly when each chunk is empty and less than speed nanoseconds after the one before |

## Left out

- Control.WindowBound: is stated for an interval above zero; the program's is 50 ms.
- Handshake.Agreement: covers the first keyed connection of a server with no timeouts. Stored nonces are not reset when a master reconnects, and a handshake that times out or meets the single-client server is not modelled.
- Handshake.NoDeadlock: has no timeouts; in the program the proxy whose probe was dropped gives up after 500 ms and goes on without a chain.
- CommandLink.InSyncIffClean: the server's acknowledgement and nonce after a second probe go to the other direction of the link, which this step system does not have.
- ControlThreads.DecryptingSession: is stated for reads that give up only between frames. `CommandLink.InSyncIffClean` shows that this is needed to stay in step.
- Answers.SecondProxyShiftsIff: is about links without a key; with one, `CommandLink.ProbeBreaksLink` is what becomes of the probe.
- FanOut.EncryptedClient: the plaintext is promised for connections that take each write whole; `Broadcast.SessionDecrypts` shows that this is needed.
- Replay.PassDelayBound: speeds are positive reals, so the rounding of f64 and the special values are not captured; the lower bound asks that T/s fit 64 bits, since the code caps each delay there.
- CaptureTool.CaptureLoop: the total is unbounded, where the program's wraps at 2^64.
- Replay.Replay: the thread that logs the client's commands is left out; it shares no state with the loop while that runs.
- Shutdown.JoinReturns: is about the cancel thread only. The control thread's join may wait as long as its read times out, since that branch does not look at the exit flag.
- Commands.LastFrameWins: device calls are taken to succeed; a failed one is only logged by the program.
- The ChaCha20 rounds of RFC 8439, and the end of its keystream after 2^38 bytes; the drawing of nonces.
- The inside of tokio's broadcast channel, including its rounding of capacities to powers of two; 64 is one.
- Decryption of IQ by a proxy: the code makes a read cipher and never uses it.
- The magic packet before IQ for a master without a key in serve mode: its writer starts first, so the order is not guaranteed.
- Whitelist and CIDR matching, the cap on slaves, key parsing, command line, sockets, systemd, USB, logging.
- Poisoned mutexes, and the panics that a debug build raises where a release build wraps.
