# Verified model of the transceiver software

This project models the parts of the transceiver software whose correctness is least
obvious, and proves what they are for:

- **Audio byte queues.** `RingBuffer` is the ring whose N bytes are mapped twice in a row,
  refined to a byte sequence; `AudioQueue` is the reader, the writer and the clearer over one
  mutex and one condition variable, every lock, test, byte copied, signal, sleep and wake-up
  a step of its own; `AudioProgress` says exactly when both threads can sleep for good, with
  the greatest common divisors of `Divisors`.
- **Command channel.** `CommandChannel` has any number of `radio_cmd` callers against the one
  `cat_tx` controller in shared memory. What a command does to the radio is a parameter.
  `CallAnswers` is about what makes a call return true or false, `SpuriousWakeups` about
  wake-ups nobody signalled.
- **Message queue.** `MessageQueue` is the memory layout, `QueueBuffer` the operations in
  place, `QueueThreads` one producer and one consumer with no lock at all, `QueueRace` a race
  between the two.
- **WebSocket.** `WsFrame` is the frame format of section 5.2 of RFC 6455, `WsReassembly` what
  a stream of frames means, `WsConnection` the code that unmasks, strips and joins fragments
  inside the receive buffer. `WsOverrun` is about the frames it gets wrong.
- **SHA-1, Base64, glob matching** of the web server: `Sha1`, `Base64`, `Glob`.
- **Settings.** `IniLines` says what a line does, `IniParser` is the parser writing NULs into
  its line buffer, `IniRoundTrip` shows what survives being printed and parsed, `Settings` is
  the printer and the band-stack handler of the user settings file. `Fields` is setting a
  field of the screen, with the commands by which one field changes others, `FieldSettings`
  what loading the file makes of all fields.
- **Transmitting.** `FilterPins` records every write to the filter and T/R pins;
  `TxProtection` puts PTT, keying, power readings, the protection latch and resets on top.
- **Knobs and clocks.** `RotaryEncoder`; `Si5351V1` (fraction reduced to twenty bits) and
  `Si5351V2` (even divider, fraction in the PLL) over `SynthRegisters` and `Fractions`.

`Bytes` holds words, bytes and bit operations over integers. `dafny verify dfyconfig.toml`
checks everything.

Threads are state machines whose step labels resolve all nondeterminism, so that a run is a
sequence of labels and a statement about every run is a statement about every interleaving.
Code that changes objects or buffers is a class or a method with loops, proved against
functions on values; the main results are lemmas about those functions and runs.

## What the proofs turned up

The model follows the code. Where the code does not do what its setting suggests, the exact
limit is stated and proved:

- `clear_buffer` does not signal: with clears, reader and writer can both end up asleep for
  good for every capacity and all nonempty blocks, by one clear
  (`AudioProgress.ClearCanStrandBothThreads`, `AudioProgress.StrandedExactly`). Without
  clears they can exactly if r + w exceeds the capacity by more than the greatest common
  divisor of the two block sizes (`AudioProgress.DeadlockExactly`).
- `cat_tx` waits without testing a predicate. A wake-up is harmless exactly if the newest
  command is whole and not yet executed when the mutex is retaken
  (`SpuriousWakeups.WakeIsHarmlessExactly`), and the results about the channel hold of all runs
  in which this is so, among them all without spurious wake-ups. Otherwise bytes nobody sent
  can be executed (`SpuriousWakeups.SpuriousWakeExecutesUnissued`), and a call can return true
  with a response no execution wrote (`SpuriousWakeups.SpuriousWakeTearsResponse`).
- An empty last fragment of nothing reports a message of `(size_t) -1` bytes. `WsOverrun` says
  for which bytes exactly; the two bytes 0x80 0x00 are enough, and no well-formed stream
  does it.
- `mg_queue_book` reads the tail twice. If the consumer resets it in between, and only then,
  the space comes out below zero, as 2^64 - 8 for instance (`QueueRace.BookingBelowZero`,
  `QueueRace.BooksTooMuchExactly`). The value is harmless as callers only compare it with the
  length: the room is there all the same (`QueueThreads.BookedSpaceIsFree`).
- `mg_match` compares characters before it looks for wildcards. Any string that contains `#`
  is answered wrongly for some pattern (`Glob.RightForEveryPattern`), and if a `#` stands
  behind another character some pattern makes the loop go on for ever, as `#x` does on `a#`
  (`Glob.EndsForEveryPattern`). What keeps `*` from running over a `/` is a test of the
  character that differs, not of the one run over: `*?` is said to match `/x`, and not to
  match `x/` (`Glob.StarMisjudged`). Any string with a `/` is answered wrongly for some
  pattern (`Glob.RightForAllPatterns`).
- The settings printer writes the section `12m`, the handler looks for `13m`: that band's
  stack is never restored (`Settings.SettingsSurvive`).
- Setting `#vfo` stores the dial in one VFO and takes the dial from the other. Loading sets
  `#vfo` before the VFO frequencies, so that with VFO A the dial ends on the frequency VFO A
  had before loading, whatever was saved: settings saved on 7.1 MHz and restored on 14 leave
  the dial on 14 (`FieldSettings.SavedDialIsLost`). All other fields show their saved values
  exactly if they accept them, or ignore them and show them already; static text and the
  console accept nothing (`FieldSettings.FieldsSurvive`). At its start the program puts VFO A
  on the dial after loading, which is right exactly if the dial had shown VFO A
  (`FieldSettings.StartShowsVfoA`). The restore command does not; restoring twice brings
  everything back exactly if VFO B was selected or the dial showed VFO A
  (`FieldSettings.RestoredTwice`).
- `tr_switch` selects the filter for `freq_hdr`, tuning the one for `freq_hdr` plus the
  calibration offset; they differ exactly if the offset crosses a band edge
  (`FilterPins.SwitchKeepsTunedFilter`). From 30 MHz on, pin 0, which is no filter, is driven.
- The standing-wave ratio is kept in sixteen bits, and loses bits exactly if 10 (f + r) is
  not under 65536 (f - r) (`TxProtection.RatioIsWhole`). The levels of the radio's own
  firmware have ten bits and never come there: for them every reading is judged rightly, and
  total reflection always counts at the threshold in use (`TxProtection.TenBitReadings`). A
  bridge with more bits could do it: 3277 forward and reflected is stored as a ratio of 1.4
  (`TxProtection.TotalReflectionCanBeMissed`).
- `enc_init` leaves a history of 5, out of bounds for the speed in use: the first accepted
  change is reported as clockwise. The interrupt routines drop the tick of their first call,
  which hides this exactly if that call was an accepted change
  (`RotaryEncoder.CleanAfterFirstCall`).
- After halving, the numerator of a first-radio clock equals its denominator exactly if the
  halving cuts off what was missing to a whole (`Si5351V1.EqualHalvesExactly`), as for
  87 500 001 Hz (`Si5351V1.EqualHalves`); the fields still mean the ratio of the two
  (`SynthRegisters.FieldsDecode`).
- The second radio's divider is always raised, since its product is compared with the
  frequency instead of the PLL's. Clocks 0 and 2 share a PLL: setting one leaves the other
  exactly if both want the same PLL multiplier in whole steps of 1/2^19
  (`Si5351V2.TwoClocksExactly`); 12.5 MHz on clock 2 moves 25 MHz on clock 0 to 24.1
  (`Si5351V2.SharedPllMovesClock`).

## Model

| member | source | states |
|---|---|---|
| RingBuffer.CellsApart | trx_v2-userland/ring_buffer.c:44-62 | two addresses of the doubled window less than N apart are different physical cells |
| RingBuffer.StoreKeepsContents | trx_v2-userland/ring_buffer.c:79-83 | a permitted store stays inside the 2N window and changes no unread byte |
| RingBuffer.WriteAppends | trx_v2-userland/ring_buffer.c:79-89 | copying data behind the write address and advancing appends exactly that data to the unread bytes |
| RingBuffer.ReadDrops | trx_v2-userland/ring_buffer.c:91-106 | advancing the reader, with its one conditional subtraction on both offsets, drops exactly that many bytes and keeps the others in order |
| RingBuffer.MirroredRing.constructor | trx_v2-userland/ring_buffer.c:36-38 | a new ring of 2^order bytes is valid and empty |
| RingBuffer.MirroredRing.CountBytes | trx_v2-userland/ring_buffer.c:108-111 | the number of unread bytes |
| RingBuffer.MirroredRing.CountFreeBytes | trx_v2-userland/ring_buffer.c:113-116 | free and unread bytes together are the capacity |
| RingBuffer.MirroredRing.WriteAdvance | trx_v2-userland/ring_buffer.c:85-89 | the write offset moves, nothing else |
| RingBuffer.MirroredRing.ReadAdvance | trx_v2-userland/ring_buffer.c:96-106 | both offsets after a read |
| RingBuffer.MirroredRing.Clear | trx_v2-userland/ring_buffer.c:118-122 | both offsets are 0 and nothing is unread |
| RingBuffer.MirroredRing.CopyOut | trx_v2-userland/sbitx_buffer.c:67-68 | one copy, across the wrap or not, yields the oldest bytes in order |
| RingBuffer.MirroredRing.CopyIn | trx_v2-userland/sbitx_buffer.c:90-91 | one copy places the data behind the unread bytes without touching them |
| RingBuffer.MirroredRing.TryRead | trx_v2-userland/sbitx_buffer.c:65-72 | succeeds exactly if enough is unread, and then takes the oldest bytes; else changes nothing |
| RingBuffer.MirroredRing.TryWrite | trx_v2-userland/sbitx_buffer.c:88-95 | succeeds exactly if enough is free, and then appends; else leaves the unread bytes |
| AudioQueue.EveryRunIsAnAtomicQueue | trx_v2-userland/sbitx_buffer.c:60-117 | under every interleaving of reader, writer and clears the completed calls are a history of an atomic byte queue that holds what the ring holds |
| AudioQueue.EveryCallTakesEffectOnce | trx_v2-userland/sbitx_buffer.c:60-102 | in every run, whatever it sleeps through, every call takes effect exactly once before it returns, in the order of the calls: a read of the size asked for, a write of its whole block |
| AudioQueue.EveryStepMoves | trx_v2-userland/sbitx_buffer.c:60-117 | in no reachable state a step that can be taken leaves everything as it was |
| AudioQueue.CopiesStayPermitted | trx_v2-userland/sbitx_buffer.c:64-95 | in every reachable state a copy in progress is inside the window and inside the part the count allowed |
| AudioQueue.TakenThenQueuedIsWritten | trx_v2-userland/sbitx_buffer.c:60-117 | bytes read, then bytes still queued, are the bytes written since the last clear |
| AudioQueue.ReadsFollowTheStream | trx_v2-userland/sbitx_buffer.c:60-117 | each read returns contiguous bytes of the stream directly behind the previous read, on a frame boundary if all blocks are whole frames |
| AudioQueue.NoLostWakeup | trx_v2-userland/sbitx_buffer.c:60-102 | without clears no reachable state has both threads asleep, and no thread sleeps unsignalled through its own condition |
| AudioProgress.ClearCanStrandBothThreads | trx_v2-userland/sbitx_buffer.c:60-117 | on a ring of any capacity, for any nonempty blocks, a run with exactly one clear leaves the writer asleep on an empty ring and the reader asleep waiting for it |
| AudioProgress.StrandedExactly | trx_v2-userland/sbitx_buffer.c:60-117 | with clears, both threads can end up asleep exactly if neither block is empty |
| AudioProgress.DeadlockExactly | trx_v2-userland/sbitx_buffer.c:60-102 | without clears, both threads can end up asleep exactly if the block sizes exceed the capacity by more than their greatest common divisor |
| CommandChannel.WithoutSpuriousWakesIsCalm | trx_v2-userland-old/sbitx_io.c:43 | without spurious wake-ups the controller only ever retakes the mutex for a whole command it has not executed |
| CommandChannel.ExecutionsAreSerial | trx_v2-userland-old/sbitx_controller.c:68-97 | in every run in which the mutex is only retaken for a whole new command, spurious wake-ups or not: every execution sees a whole issued command, each command runs at most once and in order of issue, and the radio is the result of running them one after another |
| CommandChannel.TrueMeansOwnResponse | trx_v2-userland-old/sbitx_io.c:32-73 | in every such run a call that returns true returns the five bytes computed for its own command, whatever callers timed out before, and shares its execution with no other call |
| CallAnswers.AnswersMean | trx_v2-userland-old/sbitx_io.c:43-71 | in every run, spurious wake-ups or not: a call for no reset returns false exactly if its caller slept thirty times over a flag that was down and then found it down twice more, and true exactly if it found the flag up, after at most thirty sleeps; a reset never looks |
| CommandChannel.BuffersAreExclusive | trx_v2-userland-old/sbitx_io.c:36-62 | command bytes are stored only while nothing executes, a response is copied only while the controller has nothing to do, one caller at a time; the flag is down when a command is signalled and when its response has been taken |
| SpuriousWakeups.WakeIsHarmlessExactly | trx_v2-userland-old/sbitx_controller.c:77-79 | when the mutex is free for a woken controller, what it does next executes issued commands at most once and in order exactly if the newest one is whole and not yet executed |
| SpuriousWakeups.SpuriousWakeExecutesUnissued | trx_v2-userland-old/sbitx_controller.c:77-79 | on any new channel one spurious wake-up executes a command nobody issued |
| SpuriousWakeups.SpuriousWakeTearsResponse | trx_v2-userland-old/sbitx_controller.c:77-88 | for any command and processor, a spurious wake-up while the response is copied makes the call return true with its last three bytes zeroed, which no execution wrote unless they were zero anyway |
| MessageQueue.WrittenLengthReadsBack | trx_v2-userland-old/mongoose.c:3898-3910 | a length word reads back as written |
| MessageQueue.AddAppends | trx_v2-userland-old/mongoose.c:3939-3944 | moving the head past a booked message appends it to the messages waiting |
| MessageQueue.WrapKeepsMessages | trx_v2-userland-old/mongoose.c:3916-3919 | the zero marker and the wrapped head leave all messages |
| MessageQueue.ResetKeepsMessages | trx_v2-userland-old/mongoose.c:3929-3930 | the reader's jump to the start at a marker leaves all messages |
| MessageQueue.DelDropsOldest | trx_v2-userland-old/mongoose.c:3946-3949 | moving the tail drops exactly the oldest message |
| QueueBuffer.SharedQueue.constructor | trx_v2-userland-old/mongoose.c:3892-3896 | a new queue on any memory is valid and empty |
| QueueBuffer.SharedQueue.Book | trx_v2-userland-old/mongoose.c:3912-3923 | reports the space at the head if the message fits there, else in front of the tail after a wrap, else nothing; exactly then the message fits; keeps all messages and reserves the room |
| QueueBuffer.SharedQueue.Next | trx_v2-userland-old/mongoose.c:3925-3937 | answers 0 exactly if no message waits, else the length and place of the oldest one |
| QueueBuffer.SharedQueue.Add | trx_v2-userland-old/mongoose.c:3939-3944 | appends the bytes stored in the booked place |
| QueueBuffer.SharedQueue.Del | trx_v2-userland-old/mongoose.c:3946-3949 | removes the oldest message |
| QueueThreads.EveryRunIsFifo | trx_v2-userland-old/mongoose.c:3892-3949 | under every interleaving, and whatever part of a booking is written and added, messages received and then messages in memory are the messages sent: none lost, repeated, reordered or overwritten |
| QueueThreads.AcceptedIsSent | trx_v2-userland-old/mongoose.c:3912-3944 | in every run each message whose booking was accepted is sent once, in this order, with the bytes and the length its caller gave |
| QueueThreads.EveryStepIsSafe | trx_v2-userland-old/mongoose.c:3898-3949 | no reachable step leaves the buffer or fails an assertion of the code |
| QueueThreads.ZeroMeansEmpty | trx_v2-userland-old/mongoose.c:3925-3932 | `tail == head`, or nothing behind a marker, means that nothing waits |
| QueueThreads.WaitingIsTaken | trx_v2-userland-old/mongoose.c:3925-3937 | in every run the consumer comes back empty-handed only if nothing waits at that moment, and takes a waiting message with its whole length |
| QueueThreads.BookedSpaceIsFree | trx_v2-userland-old/mongoose.c:3912-3923 | a successful booking owns the bytes of the length, of all that was booked and of the next marker, though the tail moves meanwhile |
| QueueRace.BooksTooMuchExactly | trx_v2-userland-old/mongoose.c:3920 | in every run a booking exceeds the buffer exactly if its second reading of the tail comes when the tail is no longer behind the marker |
| QueueRace.SpaceWrapsExactlyAfterReset | trx_v2-userland-old/mongoose.c:3920-3930 | between the two readings, whatever the consumer does, that is exactly if it resets the tail |
| QueueRace.BookingBelowZero | trx_v2-userland-old/mongoose.c:3912-3932 | on every buffer of at least 20 bytes a run books 2^64 - 8 bytes |
| WsFrame.FrameRoundTrip | trx_v2-userland-old/mongoose.c:6098-6172 | a built frame, masked or not and whatever follows, is found with its flags and original payload exactly if that is at most 1 GiB |
| WsFrame.StrictPrefixIsIncomplete | trx_v2-userland-old/mongoose.c:6098-6126 | in a strict prefix of a frame no frame is found |
| WsFrame.ParseIgnoresWhatFollows | trx_v2-userland-old/mongoose.c:6098-6126 | bytes behind a whole frame do not change what is found |
| WsFrame.HeaderReadsBack | trx_v2-userland-old/mongoose.c:6128-6154 | all three length forms and the mask bit read back, whatever follows |
| WsFrame.LengthFieldIs | trx_v2-userland-old/mongoose.c:6128-6146 | the length field is that of section 5.2 of RFC 6455, bit by bit and byte by byte: seven bits up to 125, else two or eight bytes with the most significant first, and never longer than needed |
| WsFrame.MaskTwice | trx_v2-userland-old/mongoose.c:6121-6124 | masking twice with one key is the identity |
| WsFrame.MaskTurns | trx_v2-userland-old/mongoose.c:6121-6124 | a bit of the payload is turned over exactly if it is set in its byte of the key, the four bytes used in turn |
| Bytes.XorBit | trx_v2-userland-old/mongoose.c:6123 | of any two bytes, a bit of the exclusive or is set exactly if it is set in one of them only |
| WsReassembly.CuttingDoesNotMatter | trx_v2-userland-old/mongoose.c:6204-6260 | for any byte stream and any way of cutting it into reads, events and remaining bytes are the same |
| WsReassembly.DrainInTwo | trx_v2-userland-old/mongoose.c:6204-6260 | reading what is there and then the rest is reading all at once |
| WsReassembly.WellFormedStreamIsDelivered | trx_v2-userland-old/mongoose.c:6195-6264 | every well-formed stream, cut anyhow, yields its events in order: each message once, with its payloads joined, and nothing left over |
| WsOverrun.OverrunExactly | trx_v2-userland-old/mongoose.c:6241-6258 | for all bytes and every cutting: the overrun is reported exactly if among the frames found, with lengths of any form, an empty last fragment comes when the frames since the last delivery left nothing |
| WsOverrun.FramesInWire | trx_v2-userland-old/mongoose.c:6098-6154 | the frames found in the bytes of built frames are those frames |
| WsOverrun.LongForms | trx_v2-userland-old/mongoose.c:6098-6126 | a frame of no bytes is found in the longer length forms too |
| WsOverrun.TwoBytesOverrun | trx_v2-userland-old/mongoose.c:6252-6259 | the bytes 0x80 0x00 do it |
| WsOverrun.WellFormedStreamsDoNotOverrun | trx_v2-userland-old/mongoose.c:6195-6264 | no well-formed stream does it, however it is cut |
| WsConnection.Connection.RecvAdd | trx_v2-userland-old/mongoose.c:2305-2315 | bytes are inserted at any place of the receive buffer or appended |
| WsConnection.Connection.RecvDel | trx_v2-userland-old/mongoose.c:2317-2324 | a range is cut out of the receive buffer, or as much of it as there is |
| WsConnection.Connection.ReadHeader | trx_v2-userland-old/mongoose.c:6101-6116 | header, payload and mask lengths |
| WsConnection.Connection.WsProcess | trx_v2-userland-old/mongoose.c:6098-6126 | finds the frame the format says, with every payload bit turned over exactly if its key byte has it, in place; changes nothing else, or finds none and changes nothing |
| WsConnection.Connection.Unmask | trx_v2-userland-old/mongoose.c:6121-6124 | each bit of the payload is turned over exactly if it is set in the key byte for its place, one of the four before the payload; all else stays |
| WsConnection.Connection.Dispatch | trx_v2-userland-old/mongoose.c:6211-6238 | the events of a frame by operation code; a close frame makes the connection drain and an unknown operation makes it close, nothing else does |
| WsConnection.Connection.KeepFragment | trx_v2-userland-old/mongoose.c:6241-6248 | the header is cut out, the payload kept behind earlier ones, the flags kept of a first frame |
| WsConnection.Connection.Deliver | trx_v2-userland-old/mongoose.c:6252-6259 | the joined message is reported and let go |
| WsConnection.Connection.HandleFrame | trx_v2-userland-old/mongoose.c:6205-6259 | one frame in place does what one frame means |
| WsConnection.Connection.OnRead | trx_v2-userland-old/mongoose.c:6195-6264 | a read event does in place exactly what draining the unread bytes means |
| WsConnection.Connection.ReceiveAll | trx_v2-userland-old/mongoose.c:6195-6264 | a stream in pieces, each followed by a read event, is fed to the end |
| WsConnection.Connection.ReceiveStream | trx_v2-userland-old/mongoose.c:6195-6264 | a new connection that gets a well-formed stream in any pieces reports exactly its events |
| WsConnection.Connection.MkHdr | trx_v2-userland-old/mongoose.c:6128-6154 | the header of a final frame, with a mask for a client |
| WsConnection.Connection.WsMask | trx_v2-userland-old/mongoose.c:6156-6162 | each bit of the bytes at the end of the send buffer is turned over exactly if it is set in the key byte for its place |
| WsConnection.Connection.WsSend | trx_v2-userland-old/mongoose.c:6164-6173 | exactly one frame in the format is appended to the send buffer: the header, and the data with the bits turned over that the key has |
| Sha1.CounterAdds | trx_v2-userland-old/mongoose.c:4228-4230 | the two-word counter adds the bits of a length modulo 2^64, carry and high part included |
| Sha1.PositionFromLowWord | trx_v2-userland-old/mongoose.c:4231 | the low word alone gives the place in the buffer |
| Sha1.Context.constructor | trx_v2-userland-old/mongoose.c:4215-4222 | nothing fed, the five words of section 6.1 of RFC 3174 |
| Sha1.Context.Update | trx_v2-userland-old/mongoose.c:4224-4242 | whole blocks are in the digest, the rest in the buffer, for any length of data |
| Sha1.Context.PadToLength | trx_v2-userland-old/mongoose.c:4253-4258 | the padding loop ends, and feeds a one bit and zeros up to 56 bytes modulo 64 |
| Sha1.PadIs | trx_v2-userland-old/mongoose.c:4244-4258 | the padded message byte by byte: the message, 0x80, zeros, and the number of bits modulo 2^64 in eight bytes, to the next multiple of 64 |
| Sha1.Context.Final | trx_v2-userland-old/mongoose.c:4244-4266 | the digest has twenty bytes: the words a to e of the folded state in this order, the most significant byte of each first; folded is the message padded as in section 4 of RFC 3174 |
| Sha1.Context.Zeroize | trx_v2-userland-old/mongoose.c:4264 | digest, counter and buffer are wiped |
| Sha1.HashPieces | trx_v2-userland-old/mongoose.c:4215-4266 | for every split of a message over updates the twenty bytes of the digest are those of the one-shot form, each given outright |
| Base64.Update | trx_v2-userland-old/mongoose.c:58-72 | one more byte, the pending bits kept in the output |
| Base64.Final | trx_v2-userland-old/mongoose.c:74-83 | the dummy update flushes the pending bits, and the tail is padded as in section 4 of RFC 4648 |
| Base64.IndexIs | trx_v2-userland-old/mongoose.c:28-38 | the alphabet of section 4 of RFC 4648, in order |
| Base64.EncodeInto | trx_v2-userland-old/mongoose.c:85-90 | the output is the encoding, of length 4 * ceil(n / 3), ending in as many = as bytes are missing to a group, and a NUL |
| Base64.DecodeInto | trx_v2-userland-old/mongoose.c:92-108 | the bytes of all whole quads, or 0 if one of them has a character out of place |
| Base64.DecodesExactly | trx_v2-userland-old/mongoose.c:92-104 | a text decodes exactly if every quad begins with two characters of the alphabet and goes on with two more or = in their place |
| Base64.ReverseIs | trx_v2-userland-old/mongoose.c:40-57 | decoding a character inverts the alphabet; only = stands for padding |
| Base64.DecodeOfEncode | trx_v2-userland-old/mongoose.c:58-108 | decoding an encoding is the identity on every byte string |
| Glob.Match | trx_v2-userland-old/mongoose.c:5214-5244 | on every input on which the loop ends: an answer of true is right up to separators, and without `*` in the pattern or `/` in the string, and no wildcard of the pattern in the string, the answer is the glob relation |
| Glob.AnswersMatch | trx_v2-userland-old/mongoose.c:5214-5244 | if no wildcard of the pattern occurs in the string the loop ends for every pattern, and without `*` in the pattern or `/` in the string its answer is the relation |
| Glob.TrueMeansMatch | trx_v2-userland-old/mongoose.c:5214-5244 | for every pattern and string an answer of true is right if `*` may stand for any run |
| Glob.TurnIsComplete | trx_v2-userland-old/mongoose.c:5228-5233 | without `*` in the pattern or `/` in the string, and no wildcard of the pattern in the string, forgetting all wildcards but the last loses no match |
| Glob.TurnGetsCloser | trx_v2-userland-old/mongoose.c:5217-5237 | if no wildcard of the pattern occurs in the string, every turn decreases wildcard position, retry position and pattern rest, in that order |
| Glob.RightForEveryPattern | trx_v2-userland-old/mongoose.c:5218-5227 | exactly the strings without `#` are answered rightly for every pattern without `*` |
| Glob.StarMisjudged | trx_v2-userland-old/mongoose.c:5232 | whatever byte is behind the string, `*?` is answered wrongly on `/x` and on `x/` |
| Glob.RightForAllPatterns | trx_v2-userland-old/mongoose.c:5214-5237 | with `*` as a run without `/`: exactly the strings without `#`, `*` and `/` are answered rightly for every pattern |
| Glob.EndsForEveryPattern | trx_v2-userland-old/mongoose.c:5217-5237 | the loop ends for every pattern without `*` exactly on the strings in which no `#` stands behind another character |
| IniParser.RStrip | trx_v2-userland-old/ini.c:48-54 | trailing blanks of the C string become NULs, nothing else changes |
| IniParser.LSkip | trx_v2-userland-old/ini.c:57-62 | the place of the first character that is no blank |
| IniParser.FindCharsOrComment | trx_v2-userland-old/ini.c:67-83 | the place of the first stop character or inline comment, or the end |
| IniParser.ReadSection | trx_v2-userland-old/ini.c:180-196 | a bracket line sets the section or is an error |
| IniParser.ReadPair | trx_v2-userland-old/ini.c:197-228 | name and value are cut apart in the line, stripped and reported |
| IniParser.ParseLine | trx_v2-userland-old/ini.c:157-228 | one line of the buffer does what the line means |
| IniParser.ReadLine | trx_v2-userland-old/ini.c:265-288 | one line, or as much as fits, into the buffer |
| IniParser.ParseString | trx_v2-userland-old/ini.c:97-241 | the calls and the error line of the whole text |
| IniLines.SpaceIs | trx_v2-userland-old/ini.c:48-62 | a blank is one of the six characters of isspace() |
| IniRoundTrip.ItemReadsBack | trx_v2-userland-old/ini.c:157-228 | behind any text, a printed pair or section is read back without error exactly if it keeps the lexical rules, with fewer than 200 characters in a pair and 50 in a section (and is not a pair at the very start with a byte-order mark) |
| IniRoundTrip.WrittenPairIsRead | trx_v2-userland-old/ini.c:197-216 | the whole parser state after a writable pair, also one of the longest length whose newline is read apart |
| IniRoundTrip.BomIsLost | trx_v2-userland-old/ini.c:159-168 | a name with a byte-order mark at the start of a text is never read back |
| IniRoundTrip.DocumentReadsBack | trx_v2-userland-old/ini.c:97-241 | parsing a printed document of writable items calls the handler with exactly its triples in order and returns 0 |
| Settings.AtoiOfDecimal | trx_v2-userland-old/sbitx_gtk.c:591 | atoi undoes %d |
| Settings.AtoiReads | trx_v2-userland-old/sbitx_gtk.c:621-655 | atoi skips blanks, reads one sign and stops at the first character that is no digit |
| Settings.NamesAre | trx_v2-userland-old/sbitx_gtk.c:621-655 | the names the printer writes and those the handler knows, which differ for the seventh band only |
| Settings.Store.Save | trx_v2-userland-old/sbitx_gtk.c:580-592 | the text written is the printed document of the fields and the band stack |
| Settings.Store.Handle | trx_v2-userland-old/sbitx_gtk.c:621-655 | one call puts one number in one place of one band and leaves all other bands, or does nothing |
| Settings.Store.Load | trx_v2-userland-old/sbitx_gtk.c:661-671 | the band stack after a whole file |
| Settings.SettingsSurvive | trx_v2-userland-old/sbitx_gtk.c:580-657 | after saving and loading the band stacks are as saved but for the seventh, which keeps what it had; the fields come first among the calls of the handler |
| Fields.ShowsExactly | trx_v2-userland-old/sbitx_gtk.c:471-520 | a field shows a value it is set to exactly if it accepts it as it is, or ignores it and showed it before |
| Fields.Controls.SetValue | trx_v2-userland-old/sbitx_gtk.c:471-521 | what each type of field shows: a number goes to the nearest end of its range, a choice not offered to the last one; no command follows a button, a choice not offered or a text of wrong length |
| Fields.Controls.SetField | trx_v2-userland-old/sbitx_gtk.c:462-532 | all fields after setting one, through the mutual recursion with the commands; the layout stays |
| Fields.Controls.DoCmd | trx_v2-userland-old/sbitx_gtk.c:1626-1660 | all fields after a command: `#vfo` exchanges the dial with the VFOs, `#split` puts `#vfo` back to A |
| FieldSettings.Handle | trx_v2-userland-old/sbitx_gtk.c:600-619 | one call of the handler sets one field, commands included |
| FieldSettings.Load | trx_v2-userland-old/sbitx_gtk.c:661-671 | the fields after a whole file |
| FieldSettings.FieldsSurvive | trx_v2-userland-old/sbitx_gtk.c:580-619 | on any screen laid out like that of the program: after saving and loading every field but the dial has been set to its saved value, the dial is given outright from what was shown before and what was saved, and all fields are as saved exactly if that is the saved frequency and every other field accepts its value, or ignores it and showed it before |
| FieldSettings.SavedDialIsLost | trx_v2-userland-old/sbitx_gtk.c:1419-1423 | for any two frequencies: settings saved on one and restored on the other, with VFO A, leave the dial on the other though every field accepts its value |
| FieldSettings.StartShowsVfoA | trx_v2-userland-old/sbitx_gtk.c:1900-1905 | after the start the dial shows VFO A, and all fields are as saved exactly if that was so when saving and the others take their values |
| FieldSettings.RestoredTwice | trx_v2-userland-old/sbitx_gtk.c:1419-1423 | if all values are taken, restoring twice brings everything back exactly if VFO B was selected or the dial showed VFO A |
| FilterPins.EveryWriteIsSafe | trx_v2-userland-old/sbitx.c:157-197 | over every run, at every single pin write, at most one filter is on and the T/R line changes only while all four are off |
| FilterPins.CachingIsInvisible | trx_v2-userland-old/sbitx.c:170-184 | every pin has the level it would have if the filter were driven again each time |
| FilterPins.SwitchKeepsTunedFilter | trx_v2-userland-old/sbitx.c:189-197 | T/R switching keeps the tuned filter exactly if the offset does not change the band |
| FilterPins.FiltersFollow | trx_v2-userland-old/sbitx.c:157-197 | from any reachable state: which of the four pins is high after tuning to a new frequency and after switching, by band, and what stays as it was |
| FilterPins.Radio.constructor | trx_v2-userland-old/sbitx.c:1091-1096 | the pin writes of the setup, which leave all pins low |
| FilterPins.Radio.SetLpf40MHz | trx_v2-userland-old/sbitx.c:157-185 | all off, then one on, or nothing if the filter is the last one; the pin on is that of the band: under 5.5, 10.5, 18.5 or 30 MHz |
| FilterPins.Radio.SetRx1 | trx_v2-userland-old/sbitx.c:189-197 | tuning drives exactly the filter of the band of the corrected frequency; nothing if the frequency is the last one |
| FilterPins.Radio.TrSwitch | trx_v2-userland-old/sbitx.c:970-1016 | all writes of a T/R switch, in order; the invariant is kept, the line follows, and exactly the filter of the band of the uncorrected frequency is on |
| TxProtection.InTxAgrees | trx_v2-userland-old/sbitx_gtk.c:805-867 | in every run the two variables in_tx agree with each other and with the T/R line |
| TxProtection.ProtectionHolds | trx_v2-userland-old/sbitx_gtk.c:1141-1174 | once protection is on, nothing but a reset ends it, and until then nothing transmits and the T/R line is low |
| TxProtection.LatchesExactly | trx_v2-userland-old/sbitx.c:569-585 | protection comes on exactly when the last eleven successful transmit readings since the previous trip are all above threshold with nonzero reflection |
| TxProtection.PeaksAreTrailing | trx_v2-userland-old/sbitx.c:569-583 | the counter is the number of high readings in a row since the previous trip |
| TxProtection.TickExactly | trx_v2-userland-old/sbitx_gtk.c:1445-1454 | from any reachable state a tick puts the radio on the air exactly if the line is watched and low and the radio unprotected and off the air, and takes it off exactly if the line is watched and high and had keyed it |
| TxProtection.KeyExactly | trx_v2-userland-old/sbitx_gtk.c:1620-1625 | the same of the soft keys |
| TxProtection.FilterOnAir | trx_v2-userland-old/sbitx_gtk.c:805-867 | whenever the radio goes on or off the air it ends on the frequency asked for, with exactly the filter of its band, corrected by the offset unless it was tuned already |
| TxProtection.SettersExactly | trx_v2-userland-old/sbitx_gtk.c:1251-1328 | threshold, offset and dial change by their own command only, and then as told |
| TxProtection.RatioIsWhole | trx_v2-userland-old/sbitx.c:544-550 | for all levels: the ratio is kept whole exactly if 10 (f + r) < 65536 (f - r), and is 100 if the forward level is not above |
| TxProtection.WholeRatioIsJudged | trx_v2-userland-old/sbitx.c:544-571 | whenever it is kept whole a reading counts exactly if the true ratio is above threshold and something is reflected |
| TxProtection.TenBitReadings | trx_v2-firmware/attiny85.ino:182-194 | levels of ten bits, which is what the firmware sends, are always judged by the true ratio; below a threshold of 30 total reflection always counts |
| TxProtection.TotalReflection | trx_v2-userland-old/sbitx.c:544-571 | which equal levels count as high, for all levels and thresholds |
| TxProtection.TotalReflectionCanBeMissed | trx_v2-userland-old/sbitx.c:544-571 | a level of more than ten bits that does not |
| TxProtection.Transmitter.TurnOn | trx_v2-userland-old/sbitx_gtk.c:805-850 | transmits unless protected or already transmitting |
| TxProtection.Transmitter.TurnOff | trx_v2-userland-old/sbitx_gtk.c:852-867 | stops transmitting |
| TxProtection.Transmitter.PttOnCommand | trx_v2-userland-old/sbitx_gtk.c:1141-1156 | acknowledged exactly if it put the radio on the air, an alert exactly under protection |
| TxProtection.Transmitter.PttOffCommand | trx_v2-userland-old/sbitx_gtk.c:1158-1174 | acknowledged exactly if it took the radio off the air, an alert exactly under protection |
| TxProtection.Transmitter.UiTick | trx_v2-userland-old/sbitx_gtk.c:1445-1454 | from the invariant, the radio goes on the air exactly if the line is watched and low and nothing forbids it, and off exactly if the line had keyed it and is high again |
| TxProtection.Transmitter.SoftKey | trx_v2-userland-old/sbitx_gtk.c:1620-1625 | the commands `#tx` and `#rx`: on exactly if unprotected and off the air, off exactly if on the air |
| TxProtection.Transmitter.ReadPower | trx_v2-userland-old/sbitx.c:530-585 | a reading counts, trips or does nothing |
| TxProtection.Transmitter.Reset | trx_v2-userland-old/sbitx_gtk.c:1232-1236 | protection off, nothing else |
| RotaryEncoder.ConservedExactlyIfBounded | trx_v2-userland-old/sbitx_gtk.c:904-941 | on all samples the net steps are (speed + 1) times the ticks plus the change in history, exactly if the history is within the speed to begin with |
| RotaryEncoder.StepsTurnThePins | trx_v2-userland-old/sbitx_gtk.c:904-941 | net steps, plus two for each two-bit jump, are the turn of the Gray code modulo 4 |
| RotaryEncoder.CleanAfterFirstCall | trx_v2-userland-old/sbitx_gtk.c:944-957 | dropping the first call's tick restores conservation exactly if that call was an accepted change |
| RotaryEncoder.FirstTickIsClockwise | trx_v2-userland-old/sbitx_gtk.c:893-898 | after enc_init the first accepted change is reported as clockwise |
| RotaryEncoder.Encoder.Read | trx_v2-userland-old/sbitx_gtk.c:904-941 | one reading of the pins; from a bounded history the step is accounted for and the bound kept |
| RotaryEncoder.Knob.Interrupt | trx_v2-userland-old/sbitx_gtk.c:944-957 | ticks are counted with their sign turned, from the second call on |
| SynthRegisters.FieldsDecode | trx_v2-userland-old/si5351v2.c:124-132 | P1, P2 and P3 mean exactly a + b/c, also for b = c |
| SynthRegisters.UnpackPack | trx_v2-userland-old/si5351v2.c:151-158 | eight register bytes give back all fields that fit, and the bits beside P1 |
| Si5351V1.ReduceIs | trx_v1-firmware/ubitx_si5351.cpp:93-98 | the loop divides both halves by one power of two and ends with a denominator of at most, and if it ran exactly, twenty bits |
| Si5351V1.EqualHalvesExactly | trx_v1-firmware/ubitx_si5351.cpp:93-98 | numerator and denominator come out equal exactly if what is missing to a whole is no more than what the halving cuts off |
| Si5351V1.EqualHalves | trx_v1-firmware/ubitx_si5351.cpp:93-98 | 87 500 001 Hz is such a clock |
| Si5351V1.ClockIsAccurate | trx_v1-firmware/ubitx_si5351.cpp:89-100 | for every clock in range and VCO from 436 to 1026 MHz all fields fit, the divider is less than 1/c off, and exact if nothing was halved |
| Si5351V1.FitsExactlyBelow | trx_v1-firmware/ubitx_si5351.cpp:99 | the upper end of that VCO range is exact |
| Si5351V1.RegistersAreAccurate | trx_v1-firmware/ubitx_si5351.cpp:99-104 | what the chip decodes from the eight bytes, output divider and ratio |
| Si5351V1.OtherClocksKeepRunning | trx_v1-firmware/ubitx_si5351.cpp:89-113 | the bit of a clock is cleared to enable it and set to shut it down, the other seven bits stay |
| Si5351V1.Chip.SetFreq | trx_v1-firmware/ubitx_si5351.cpp:87-114 | the clock's registers after a call, its enable bit, which is 0 exactly from 500 kHz to 109 MHz, and the other bits and registers as before |
| Si5351V2.EvenDividerIs | trx_v2-userland-old/si5351v2.c:201-208 | the divider is even and at least 6, and f * d is in (650 MHz, 650 MHz + 2 f] |
| Si5351V2.ProductFitsExactly | trx_v2-userland-old/si5351v2.c:178 | the PLL frequency fits a signed word exactly for frequencies under 2^30 Hz |
| Si5351V2.PllFieldsAre | trx_v2-userland-old/si5351v2.c:75-86 | the floating-point fields are the integer ones |
| Si5351V2.ClockIsClose | trx_v2-userland-old/si5351v2.c:176-212 | from 500 kHz to 125 MHz all fields fit and the frequency decoded from the registers is never above f and less than xtal / (2^19 d) below |
| Si5351V2.SetClockRuns | trx_v2-userland-old/si5351v2.c:193-214 | the same of the whole register file after a call |
| Si5351V2.OthersRunOnExactly | trx_v2-userland-old/si5351v2.c:193-214 | setting a clock leaves the frequency of another exactly if that one uses the other PLL, was never set up, or the new PLL registers mean the same multiplier |
| Si5351V2.TwoClocksExactly | trx_v2-userland-old/si5351v2.c:176-214 | of two clocks set one after the other the first is left alone exactly if they use different PLLs or the PLL frequencies over the crystal agree in whole steps of 1/2^19 |
| Si5351V2.SharedPllMovesClock | trx_v2-userland-old/si5351v2.c:193-214 | clock 0 at 25 MHz is moved to 675/28 MHz by setting clock 2 to 12.5 MHz |
| Si5351V2.SynthFieldsMean | trx_v2-userland-old/si5351v2.c:136-150 | the output divider with a fraction means what it says |
| Si5351V2.DividesByFour | trx_v2-userland-old/si5351v2.c:134-139 | an output divider of 4 is sent as bits of its own with the parameters of zero, no other is |
| Si5351V2.Chip.SetupPll | trx_v2-userland-old/si5351v2.c:69-94 | the eight PLL registers |
| Si5351V2.Chip.SetupMultisynth | trx_v2-userland-old/si5351v2.c:97-173 | the eight output registers and the control register, with any divider, fraction, R divider setting and drive strength |
| Si5351V2.Chip.SetFreq | trx_v2-userland-old/si5351v2.c:193-214 | all registers after a call, and the clock just below its frequency |

## Left out

- Sockets, TLS, HTTP, the WebSocket handshake, ALSA, I2C and GPIO drivers, mmap: only their effect is modelled ("bytes i and i + N are the same cell", a register file, a list of pin writes).
- FFT, AGC, filters and other floating-point signal processing, including the ALC level and the displayed forward power in `read_power`.
- Real-time durations: a poll of `radio_cmd` is a step, at most thirty of them; robust-mutex recovery; what happens after a reset command ends the process; MQTT; JSON status; the embedded TCP/IP stack; `trx_v2-userland-old/queue.c`, `vfo.c`, `interpolation.c`.
- The threads of `sbitx_buffer.c`, `sbitx_io.c` / `sbitx_controller.c` and of the queue's lock-free use are state machines on values; their mutable form is in `RingBuffer.MirroredRing` and `QueueBuffer.SharedQueue` only, one call at a time.
- The lock-free queue is modelled with sequentially consistent memory; a length word is read or written in one step.
- Replies that the WebSocket code sends while reading are recorded as events; `WsConnection.Connection.WsSend` says what a sent frame looks like. Allocation failure in the I/O buffers does not occur. The random mask is a parameter.
- The SHA-1 block transform is an uninterpreted function.
- Captures of `mg_match`. The byte behind the string that the code may read is arbitrary.
- When the loop of `mg_match` ends for patterns with `*` on strings that contain their wildcards, which depends on that byte.
- What the commands after setting a field do outside of the screen: the request to the radio, the tuning step, recording; the file itself; overflow of `atoi` does not occur in what is printed.
- Byte-order marks are looked for in whole C strings; the code compares the three buffer bytes, which is the same.
- Sums of frequency and calibration offset do not overflow an int; `long` has 64 bits in the second radio's divider.
- The transmit calibration thread, which calls `tr_switch` itself, is covered by the runs of `FilterPins` but not by those of `TxProtection`, where every call is atomic.
- Glob.Match: requires that the loop ends, as a method that need not end cannot be written; `Glob.EndsForEveryPattern` says when it does.
- AudioQueue.NoLostWakeup: runs with clears are excluded; `AudioProgress.StrandedExactly` says what they can do.
- CommandChannel.TrueMeansOwnResponse: holds of runs without harmful wake-ups; `SpuriousWakeups.SpuriousWakeTearsResponse` shows that it fails in others.
- CommandChannel.BuffersAreExclusive: the same.
- CommandChannel.ExecutionsAreSerial: the same, and `SpuriousWakeups.WakeIsHarmlessExactly` shows which wake-ups are harmful.
- Si5351V2.Chip.SetupPll: only the denominator 2^19, the one the source passes; with others its float quotient is rounded.
- Si5351V2.Chip.SetFreq: requires a frequency under 2^30 Hz; from there on, which the chip cannot make, the source turns the product into a negative number.
- TxProtection.Transmitter.TurnOn: the transmit mode and the start time that `tx_on` notes are not modelled; nothing of this model depends on them.
- TxProtection.Transmitter.ReadPower: the ALC level and the displayed forward power are not modelled; neither has a part in the protection.
