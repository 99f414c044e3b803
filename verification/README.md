# Verification of the event loop, its stream readers and its TCP slots

A Dafny 4.11 model of the parts of pypilot-event-loop whose correctness is not visible from one function
body, and proofs of what they promise. `dafny verify dfyconfig.toml` checks everything.

The source updates objects in place, and so does the model: the readers, the byte ring, the callback
storage, the scheduler, the event loop, the WiFi connection and the TCP slot handler are classes over arrays.
Each method is proved to take its object to the next state of a definition on values, and the properties are
then proved of that definition, against a second, independent description wherever there is one.

| files | what they model |
|---|---|
| `bytes`, `arithmetic`, `ring` | vocabulary, quotients, contents of a circular buffer |
| `memory_stream`, `chunked_feed`, `reader_feeding` | the byte ring that feeds the readers, and why chunking does not matter |
| `json_number`, `json_brackets`, `json_machine`, `json_framing`, `json_parse`, `json_roundtrip`, `json_reader` | JsonProtocolReader |
| `line_reader`, `header_reader` | the line, header-and-payload and fixed-size readers |
| `deadlines` | catch-up of periodic deadlines, PeriodicTimer, the libevent re-arm |
| `callback_task`, `scheduler` | CallbackTask with deferred destruction; the scheduler's table of entries |
| `loop_model`, `loop_runs`, `loop_moments`, `loop_pass`, `loop_completeness`, `loop_deadlines`, `loop_agreement`, `loop_disagreement`, `loop_lost_slot`, `event_loop` | EventLoop over the cooperative scheduler, as a state machine and as objects |
| `wifi_connection`, `backpressure`, `line_sessions`, `tcp_line_server` | transmit ring and read_line, the monitor, what a line-server slot delivers, the slots |

## The main results

**JSON framing.** The grammar of RFC 8259 is a datatype that also carries the whitespace of one way of printing a
value, so a value together with every legal printing of it is covered. `RoundTrip` says that any stream of printed
values comes out text by text. `Sound` says what can come out of arbitrary bytes, and `RunIsJsonParse` exactly what
does. Containers are described twice, by a grammar of matched brackets and by the scanner the reader runs, and
`ScansExactlyBracketed` proves the two equal; `AcceptsExactlyNumbers` does the same for numbers.

**Scheduler and event loop.** A callback is an arbitrary finite sequence of operations performed in the middle of
its poll, so the results hold for every callback behaviour except a nested pass. `PassOrder`, `NotDueNotPolled`,
`RunSlotsOk`, `CallablesLiveOnce` and `DestructionIsFinal` hold for every run. What handles promise holds at every
moment of every run, before and after every single operation of every callback: `LoopMoments` takes a run apart
into such moments, and `HandlesAreNew`, `RemovedStaysInvalid` and `CompletedStaysInvalid` are about all of them.
The others need a condition:

- Registration closes the gaps in the table even while a pass runs. `QuietRounds` is the condition that no callback
  registers while an entry at or before its own position is inactive. Under it `PolledExactlyWhenDue` and
  `KeptWithDeadline` hold for a pass, and the results of `LoopDeadlines` for whole runs. `BookkeepingExact` proves
  that the bookkeeping concerns the polled entry if and only if the condition holds for that poll, and
  `ShiftedRegistrationIsLost` is a run in which a new one-shot is dropped without running and a periodic deadline
  is not advanced.
- `RunAgrees` also needs that no one-shot is disabled when it falls due; `DisabledOneShotIsDropped` shows that
  every such round breaks the agreement, and `DisabledOneShotIsLostForGood` that the slot can never be had back.
  For the other rounds the quiet condition is sufficient but not necessary: `TurnAgreesExactly` gives the exact
  one, and `DelayCutShort` a run in which the disagreement makes a delayed callable run early.
- The state machine counts time without a limit. The objects, whose deadlines are 64-bit, follow it in every pass
  that sets no deadline beyond that (`TurnsIn64`); `CatchUpFits` says that any other deadline is not reached, and
  `QuietTurnIn64` when there is none.

**Line server.** `RunEvents` is about every sequence of events; its invariant keeps the history of bindings of
every slot, and `SessionIsItsOwn`, `SlotFramesAll` and `LeftoverIsPrepended` say what such a history means for the
lines.

**Where the code does less than one might expect**, each with the exact condition: `NothingSpurious` (the tail of a
number too long for the buffer can be emitted as a number), `LeftoverIsPrepended` (a slot's line buffer survives
its connection), `WrongByteIsSwallowed` (a byte that breaks a literal is lost), `TurnAgreesExactly` (a registration
across a gap), `DisabledOneShotIsLostForGood` (a one-shot disabled when due takes its slot with it),
`AllocatesExactly` (only the lowest free slot is tried), `CatchUpFits` and `CatchUpEndsExactly` (the 64-bit
catch-up loop) and `RearmExact` (an early libevent callback makes the next one early).

## Model

| member | source | states |
|---|---|---|
| `JsonNumber.AcceptsExactlyNumbers` | src/async_event_loop/protocol_reader.hpp:339-381 | The scan that `valid_number` makes accepts a byte string exactly when it is a number of RFC 8259, section 6, given as an existential decomposition into minus, int, frac and exp; both directions, all strings. |
| `JsonNumber.ValidNumber` | src/async_event_loop/protocol_reader.hpp:339-381 | The index loop itself returns true exactly on the numbers of that grammar. |
| `JsonNumber.NumberBytes` | src/async_event_loop/protocol_reader.hpp:335-337 | A number starts with a minus sign or a digit and consists of number bytes, so it is buffered whole. |
| `JsonBrackets.ScansExactlyBracketed` | src/async_event_loop/protocol_reader.hpp:486-513 | The byte-at-a-time bracket, string and escape tracking closes at the end of a text exactly when the text is derivable from a grammar of matched brackets with quoted strings. |
| `JsonBrackets.ShortestPrefix` | src/async_event_loop/protocol_reader.hpp:486-513 | No proper prefix of a bracketed text is bracketed: a container is emitted at the first point where its brackets match. |
| `JsonBrackets.QuotedScan` | src/async_event_loop/protocol_reader.hpp:515-530 | The escape flag recognises exactly the well-formed string contents. |
| `JsonMachine.ConsumeCoherent` | src/async_event_loop/protocol_reader.hpp:419-566 | Every byte, in every state, keeps the control fields equal to what scanning the buffered bytes yields, with depth <= size <= BufferSize and a non-empty stack inside a container. |
| `JsonMachine.RunCoherent` | src/async_event_loop/protocol_reader.hpp:302-312 | The same over every input. |
| `JsonMachine.BufferDetermines` | src/async_event_loop/protocol_reader.hpp:587-600 | In reachable states the state, the string and escape flags, the bracket stack and the literal position are functions of the buffered bytes. |
| `JsonMachine.RunIsFold` | src/async_event_loop/protocol_reader.hpp:302-312 | Running over an input is a left fold of the byte step, which is what the results on chunking need. |
| `JsonMachine.StackOfOpeners` | src/async_event_loop/protocol_reader.hpp:393-417 | The stack holds openers only, so the mismatch test of `pop_container` compares against the one fitting closer. |
| `JsonFraming.FrameSelfDelimiting` | src/async_event_loop/protocol_reader.hpp:439-575 | From Idle, a container, string or literal that fits is emitted the moment its last byte arrives, and nothing else happens. |
| `JsonFraming.FrameNumberRun` | src/async_event_loop/protocol_reader.hpp:532-544 | The byte after a maximal run of number bytes settles it: a message if the run is a number, one protocol error if not; the byte is then treated as from Idle. |
| `JsonFraming.FrameOne` | src/async_event_loop/protocol_reader.hpp:419-575 | One text followed by any bytes is emitted, and the reader goes on from Idle with those bytes. |
| `JsonFraming.OverlongNumberRun` | src/async_event_loop/protocol_reader.hpp:383-391 | A run longer than the buffer costs one overflow; the byte that overflows is lost and the rest of the run is read afresh from Idle. |
| `JsonFraming.NumberEmittedExactly` | src/async_event_loop/protocol_reader.hpp:532-544 | A maximal run of number bytes comes out as a message exactly when it fits the buffer and is a number. |
| `JsonFraming.RunYieldsLastPiece` | src/async_event_loop/protocol_reader.hpp:383-391 | Every maximal run of number bytes, of any length and with any first byte, yields at most one message: its last piece, what remains when bytes that start no number and overflowing pieces are dropped from the left, if that is a number. |
| `JsonFraming.NothingSpurious` | src/async_event_loop/protocol_reader.hpp:383-391 | So a run yields what it should, itself when it is a number that fits and otherwise nothing, exactly when its last piece is the run itself or no number. |
| `JsonFraming.OverlongNumberLeavesItsTail` | src/async_event_loop/protocol_reader.hpp:383-391 | At work: with three bytes of buffer `12345` and a space yield the message `5`. |
| `JsonFraming.ConsumeShape` | src/async_event_loop/protocol_reader.hpp:419-585 | One byte emits at most one message: the buffer with the byte, or the number that the byte ends. |
| `JsonFraming.Sound` | src/async_event_loop/protocol_reader.hpp:302-312 | On arbitrary bytes the messages are disjoint, in-order slices of the input; each is a complete container, string, literal, or a number ended by a non-number byte; each fits; the buffer is the end of the input behind them. |
| `JsonFraming.FramedExactly` | src/async_event_loop/protocol_reader.hpp:419-575 | Fed one text from Idle, the reader emits just that text exactly when it is a container, string or literal that fits. |
| `JsonFraming.MismatchIsOneError` | src/async_event_loop/protocol_reader.hpp:403-417 | The first closer that does not fit costs the container: one protocol error, no message, Idle again. |
| `JsonFraming.OverlongContainerIsOneOverflow` | src/async_event_loop/protocol_reader.hpp:383-391 | A container still open when the buffer is full costs one overflow, no message, Idle again. |
| `JsonFraming.BadStartIsOneError` | src/async_event_loop/protocol_reader.hpp:439-484 | From Idle exactly the bytes that start no text, and whitespace when it is not skipped, are protocol errors. |
| `JsonParse.RunIsJsonParse` | src/async_event_loop/protocol_reader.hpp:302-585 | On every input the messages, counts and buffered bytes are those of a whole-input definition that cuts pieces off the front: blanks, stray bytes, complete texts, runs of number bytes, texts at the byte that makes them hopeless, and what overflows the buffer. Hopeless and unfinished are defined by which further bytes could complete the text, not by the reader's state. |
| `JsonParse.OpenContainerAlive` | src/async_event_loop/protocol_reader.hpp:403-417 | A container with a bracket open and no closer misplaced can be completed by some further bytes, whatever strings and escapes are pending. |
| `JsonParse.WrongByteIsSwallowed` | src/async_event_loop/protocol_reader.hpp:553-558 | The byte that breaks a literal costs one error and is lost; the reader goes on as if it had been looked at again exactly when it is skipped whitespace. |
| `JsonParse.BracketIsSwallowed` | src/async_event_loop/protocol_reader.hpp:553-558 | At work: `t[1]` and a space yield the message `1`. |
| `JsonRoundTrip.PrintedIsMessage` | src/async_event_loop/protocol_reader.hpp:267-277 | Every printing of an RFC 8259 value, with any legal internal whitespace, is a text the reader frames. |
| `JsonRoundTrip.RoundTrip` | src/async_event_loop/protocol_reader.hpp:302-585 | Any sequence of printed values that fit, whitespace optional except between two numbers and after a final number, is emitted text by text, in order, with no error or overflow, and the reader goes on from Idle with whatever follows. |
| `JsonReader.JsonProtocolReader.constructor` | src/async_event_loop/protocol_reader.hpp:281-291 | A new reader represents the start state of the machine. |
| `JsonReader.JsonProtocolReader.Poll` | src/async_event_loop/protocol_reader.hpp:302-312 | Draining the ring takes the reader, arrays and counters included, to the machine run over exactly the waiting bytes, and leaves the ring empty. |
| `JsonReader.JsonProtocolReader.Consume` | src/async_event_loop/protocol_reader.hpp:419-437 | One byte takes the reader to the machine's next state; the overflow branch of the stack is dead. |
| `JsonReader.JsonProtocolReader.PopContainer` | src/async_event_loop/protocol_reader.hpp:403-417 | Pops exactly when the closer fits the innermost opener; otherwise one protocol error and a reset. |
| `LineReader.RunIsLines` | src/async_event_loop/protocol_reader.hpp:216-257 | The incremental reader computes the whole-input definition: cut at the delimiters, treat each piece alone; all inputs, both overflow policies. |
| `LineReader.LineClosedForm` | src/async_event_loop/protocol_reader.hpp:229-257 | A run of L bytes and a delimiter give, before CR stripping, the last L mod (B+1) bytes with L div (B+1) overflows under drop_overflow, otherwise the first min(L,B) bytes with the rest counted as overflows. |
| `LineReader.LineRoundTrip` | src/async_event_loop/protocol_reader.hpp:216-257 | Delimiter-free lines that fit, sent with their delimiters, come out as sent, without overflows. |
| `LineReader.LineProtocolReader.Poll` | src/async_event_loop/protocol_reader.hpp:216-226 | Draining the ring is the step function folded over the waiting bytes. |
| `LineReader.LineProtocolReader.Consume` | src/async_event_loop/protocol_reader.hpp:229-244 | One byte through buffer, overflow policy and delimiter is one step. |
| `LineReader.LineProtocolReader.EmitLine` | src/async_event_loop/protocol_reader.hpp:246-257 | The delivered view is the buffer without one trailing CR, when that is stripped; the buffer is empty afterwards. |
| `HeaderReader.RunIsParse` | src/async_event_loop/protocol_reader.hpp:697-776 | The incremental reader computes the whole-input definition, which cuts frames and rejected headers off the front; every input. |
| `HeaderReader.StepCollecting` | src/async_event_loop/protocol_reader.hpp:736-770 | Between bytes either the header or the accepted frame is incomplete and fits the buffer, so overflow cannot happen and nothing is left over after a frame. |
| `HeaderReader.Conservation` | src/async_event_loop/protocol_reader.hpp:697-776 | Input length = sizes of emitted frames + header size times protocol errors + bytes still buffered, for every input. |
| `HeaderReader.FramesRoundTrip` | src/async_event_loop/protocol_reader.hpp:697-776 | Any concatenation of frames with accepted headers is emitted frame by frame, leaving nothing behind. |
| `HeaderReader.EmitsOnlyFrames` | src/async_event_loop/protocol_reader.hpp:736-770 | Whatever the input, every emitted frame has an accepted header and exactly the length it announces. |
| `HeaderReader.FixedIsHeaderOnly` | src/async_event_loop/protocol_reader.hpp:632-655 | Fixed-size framing is header framing with a header of that size and no payload: same frames on every input. |
| `HeaderReader.HeaderPayloadProtocolReader.Poll` | src/async_event_loop/protocol_reader.hpp:697-715 | With usable options the ring is drained through the machine; with unusable ones there is one protocol error and the stream is left alone. |
| `HeaderReader.OptionsCheckExact` | src/async_event_loop/protocol_reader.hpp:718-724 | The option check lets through exactly those sizes with which every frame fits the buffer, whatever the user's payload function answers and whatever arrives. |
| `HeaderReader.HeaderPayloadProtocolReader.TryEmitBuffered` | src/async_event_loop/protocol_reader.hpp:736-770 | Rejects, waits or emits as the machine does; the shift of leftover bytes has nothing to shift. |
| `HeaderReader.FixedFrameProtocolReader.Poll` | src/async_event_loop/protocol_reader.hpp:632-655 | Cuts the waiting bytes into frames of the fixed size; an unusable size is one protocol error. |
| `ReaderFeeding.DriveJson` | src/async_event_loop/memory_stream.hpp:21-45 | A ring and a JSON reader, as objects: after any interleaving of writes and polls that ends with a poll, the reader is where one pass over the accepted bytes takes it, with the messages and counts of the whole-input definition, its byte count is theirs, and the ring is empty. |
| `ReaderFeeding.DriveLines` | src/async_event_loop/protocol_reader.hpp:216-226 | The same objects law for the line reader, against its whole-input definition. |
| `ReaderFeeding.DriveFrames` | src/async_event_loop/protocol_reader.hpp:697-715 | The same for the header reader with usable options, against its whole-input definition. |
| `ReaderFeeding.DriveFixed` | src/async_event_loop/protocol_reader.hpp:632-655 | The same for the fixed-size reader: frames of that size and a shorter rest, which put together are the accepted bytes. |
| `ReaderFeeding.JsonChunks` | src/async_event_loop/protocol_reader.hpp:302-312 | Chunk independence for the JSON reader. |
| `ReaderFeeding.LineChunks` | src/async_event_loop/protocol_reader.hpp:216-226 | Chunk independence for the line reader, against its whole-input definition. |
| `ReaderFeeding.FrameChunks` | src/async_event_loop/protocol_reader.hpp:697-715 | Chunk independence for the header reader, against its whole-input definition. |
| `ReaderFeeding.FixedChunks` | src/async_event_loop/protocol_reader.hpp:632-655 | Chunk independence for the fixed-size reader: the accepted bytes, cut. |
| `MemoryStream.MemoryByteStream.Read` | src/async_event_loop/memory_stream.hpp:21-32 | Takes the oldest bytes in order, as many as are wanted and present, and nothing else changes in the destination. |
| `MemoryStream.MemoryByteStream.Write` | src/async_event_loop/memory_stream.hpp:34-45 | Accepts as many bytes as fit, behind those already queued. |
| `Ring.AppendChunk` | src/async_event_loop_arduino/arduino_wifi_tcp.hpp:189-206 | A contiguous copy at the tail of a ring appends exactly the copied bytes to its contents, across the wrap. |
| `Ring.DropFront` | src/async_event_loop_arduino/arduino_wifi_tcp.hpp:208-217 | Moving the head drops exactly that many bytes from the front. |
| `Ring.ContiguousPrefix` | src/async_event_loop_arduino/arduino_wifi_tcp.hpp:181-187 | The contiguous run at the head is a prefix of the contents. |
| `WiFiConnection.ArduinoWiFiTcpConnection.Write` | src/async_event_loop_arduino/arduino_wifi_tcp.hpp:64-70 | Bytes accepted since attach are the bytes handed to the client followed by the ring's contents; the result is exactly the number enqueued, the room left after the flush permitting. |
| `WiFiConnection.ArduinoWiFiTcpConnection.FlushOutput` | src/async_event_loop_arduino/arduino_wifi_tcp.hpp:72-109 | Whatever prefixes the client takes, it gets the queue's bytes in order, and the rest stays queued. |
| `WiFiConnection.ArduinoWiFiTcpConnection.PushOutput` | src/async_event_loop_arduino/arduino_wifi_tcp.hpp:189-206 | Enqueues the longest prefix that fits, over any number of contiguous copies. |
| `WiFiConnection.ArduinoWiFiTcpConnection.PopOutput` | src/async_event_loop_arduino/arduino_wifi_tcp.hpp:208-217 | Drops that many bytes, at most all, from the front. |
| `WiFiConnection.ArduinoWiFiTcpConnection.Attach` | src/async_event_loop_arduino/arduino_wifi_tcp.hpp:19-27 | A new connection starts with an empty queue and an empty line. |
| `WiFiConnection.ArduinoWiFiTcpConnection.ReadLine` | src/async_event_loop_arduino/arduino_wifi_tcp.hpp:140-167 | Returns the first line of the drop-overflow framing (256 bytes) of the bytes it consumed, cut to max_len - 1; otherwise keeps what it consumed for the next call. |
| `WiFiConnection.ArduinoWiFiTcpConnection.ReadLines` | src/async_event_loop_arduino/arduino_wifi_tcp.hpp:140-167 | Over any sequence of calls, with anything arriving in between: the lines returned, in order, are the drop-overflow lines of all bytes consumed, each stripped and cut as its own caller asked. |
| `Scheduler.CompactKeeps` | src/async_event_loop_arduino/arduino_loop.hpp:115-124 | Compaction keeps exactly the live entries. |
| `Scheduler.CompactOrdered` | src/async_event_loop_arduino/arduino_loop.hpp:115-135 | Compaction keeps registration order. |
| `Scheduler.CompactShifts` | src/async_event_loop_arduino/arduino_loop.hpp:115-135 | Entries only move towards the front. |
| `Scheduler.ArduinoLoop.EraseTask` | src/async_event_loop_arduino/arduino_loop.hpp:126-135 | Removes one entry in place and closes the gap. |
| `Scheduler.ArduinoLoop.CompactInactive` | src/async_event_loop_arduino/arduino_loop.hpp:115-124 | In place, the entries become the live ones in order. |
| `Scheduler.ArduinoLoop.AddPeriodic` | src/async_event_loop_arduino/arduino_loop.hpp:22-35 | Compacts; appends an entry due at once unless the period is zero or the table is full. |
| `Scheduler.ArduinoLoop.AddOneShot` | src/async_event_loop_arduino/arduino_loop.hpp:37-50 | Compacts; appends an entry due at the given time unless the table is full. |
| `Scheduler.ArduinoLoop.Remove` | src/async_event_loop_arduino/arduino_loop.hpp:52-66 | Marks every entry of the given runtime object, compacting only outside a pass, and says whether there was one. |
| `Scheduler.ArduinoLoop.Settle` | src/async_event_loop_arduino/arduino_loop.hpp:78-88 | The bookkeeping after a poll, on whatever entry is at that index by then, in 64-bit arithmetic, whenever the deadline it sets is a 64-bit number. |
| `CallbackTasks.PollWellFormed` | src/async_event_loop/scheduler.hpp:85-95 | Whatever the callable does to its own storage, a poll keeps the life of its callables legal. |
| `CallbackTasks.NothingAfterDestruction` | src/async_event_loop/scheduler.hpp:110-143 | After a callable's destruction there is no invocation and no second destruction of it, and it was not executing when destroyed. |
| `CallbackTasks.OnceEach` | src/async_event_loop/scheduler.hpp:64-143 | Each callable is constructed once and destroyed once, except the one still stored. |
| `CallbackTasks.SetWellFormed` | src/async_event_loop/scheduler.hpp:64-82 | Storing a callable fails exactly while the old one executes. |
| `CallbackTasks.CallbackTask.SetCallable` | src/async_event_loop/scheduler.hpp:64-82 | The method's new state: the old callable cleared, the new one stored unless one executes. |
| `CallbackTasks.CallbackTask.ClearStored` | src/async_event_loop/scheduler.hpp:116-124 | Destroyed at once at rest, deferred while executing. |
| `CallbackTasks.CallbackTask.PollTask` | src/async_event_loop/scheduler.hpp:85-95 | Invokes only an active, enabled callable and destroys it afterwards if that was asked for. |
| `CallbackTasks.CallbackTask.Enable` | src/async_event_loop/scheduler.hpp:104-108 | Enabling touches active callables only. |
| `LoopRuns.RunSlotsOk` | src/async_event_loop/event_loop.hpp:121-178 | In every run, with any callback behaviour, every slot's storage lives legally, used slots are the active ones, and generations count releases modulo 65536. |
| `LoopRuns.CallablesLiveOnce` | src/async_event_loop/event_loop.hpp:264-306 | In every run each callable is constructed once, destroyed once unless still stored, and one made by on_delay is invoked at most once. |
| `LoopRuns.DestructionIsFinal` | src/async_event_loop/scheduler.hpp:110-143 | In every run a callable is at rest when destroyed, and nothing happens to it afterwards: no invocation, no second destruction. |
| `LoopRuns.InvalidHandleIsInert` | src/async_event_loop/event_loop.hpp:94-130 | Remove, enable and disable through an invalid handle change nothing and return false. |
| `LoopRuns.ValidExactly` | src/async_event_loop/event_loop.hpp:94-100 | At any moment, inside callbacks too, a handle is valid exactly while its slot is in use and a multiple of 65536 releases have happened since it was given out. |
| `LoopMoments.RunIsSteps` | src/async_event_loop_arduino/arduino_loop.hpp:68-92 | Every run is a sequence of small steps, single operations of callbacks included; the moments of the run are where its initial parts lead. |
| `LoopMoments.AtOk` | src/async_event_loop/event_loop.hpp:264-276 | At every moment, inside callbacks too, every slot's storage lives legally, at most the polled slot's callable is executing, and it is still in its slot. |
| `LoopMoments.HandlesAreNew` | src/async_event_loop/event_loop.hpp:144-178 | At every moment, whoever registers: the handle given out was not valid before and is now, differs from every valid one, which all stay valid, and carries the slot's release count modulo 65536. |
| `LoopMoments.RemovedStaysInvalid` | src/async_event_loop/event_loop.hpp:121-130 | Given out at any moment, used at any later moment to remove its registration, also by that registration's own callback: from then on a handle is invalid at every moment, until its slot has been released 65536 times since it was given out. |
| `LoopMoments.CompletedStaysInvalid` | src/async_event_loop/event_loop.hpp:264-276 | A one-shot's, given out at any moment: once its callable has been entered, and until the slot has been released 65536 times, the handle is valid at no moment but those of that very invocation before the slot is released; later callables of the same slot find it invalid too. |
| `LoopRuns.RemovalEndsHandle` | src/async_event_loop/event_loop.hpp:121-130 | Removal releases the slot, so the handle is stale. |
| `LoopRuns.CompletionEndsHandle` | src/async_event_loop/event_loop.hpp:264-276 | Invoking a one-shot releases its slot, whatever its callable did meanwhile. |
| `LoopPass.PassOrder` | src/async_event_loop_arduino/arduino_loop.hpp:68-92 | Every pass, whatever callbacks do: at most as many polls as places, no entry twice, in registration order, and order and bounds are kept. |
| `LoopPass.OpEntries` | src/async_event_loop_arduino/arduino_loop.hpp:22-66 | Classifies what any operation can do to the scheduler's entries. |
| `LoopCompleteness.PolledExactlyWhenDue` | src/async_event_loop_arduino/arduino_loop.hpp:68-92 | If no callback registers across a gap: an entry live at the start is polled exactly when it was due and not removed before its turn. |
| `LoopCompleteness.NotDueNotPolled` | src/async_event_loop_arduino/arduino_loop.hpp:74-76 | Whatever callbacks do, no pass polls an entry that is not due when the pass begins. |
| `LoopCompleteness.KeptWithDeadline` | src/async_event_loop_arduino/arduino_loop.hpp:81-92 | Under the same condition, every entry nobody removes is there afterwards, a periodic one with the deadline of one visit. |
| `LoopCompleteness.BookkeepingExact` | src/async_event_loop_arduino/arduino_loop.hpp:73-88 | After a poll the entry at the polled index is the polled one exactly when the callback registered across no gap; otherwise the bookkeeping hits a younger entry or none. |
| `LoopCompleteness.ShiftedRegistrationIsLost` | src/async_event_loop_arduino/arduino_loop.hpp:22-50 | The other case at work, in a run from the start: a one-shot registered from a callback, behind a one-shot completed in the same pass, is dropped without ever running. |
| `LoopAgreement.RunAgrees` | src/async_event_loop/event_loop.hpp:121-178 | Between passes of every orderly run each used slot has exactly one live scheduler entry of its kind and a free slot none. |
| `LoopAgreement.OpAgrees` | src/async_event_loop/event_loop.hpp:121-178 | Every operation keeps that, also from inside a callback. |
| `LoopAgreement.TurnAgrees` | src/async_event_loop_arduino/arduino_loop.hpp:72-89 | So does every round of a pass whose callback registers across no gap and whose one-shot is enabled. |
| `LoopAgreement.RunOnlySlots` | src/async_event_loop/event_loop.hpp:144-178 | In every run whose application and callbacks register through the facade only, every live entry is that of a callback slot. |
| `LoopAgreement.RegistrationSucceeds` | src/async_event_loop/event_loop.hpp:144-178 | After every orderly run of that kind a registration succeeds whenever a slot is free; its handle is valid and its entry is last, with the saturated deadline for a delay. |
| `LoopAgreement.RoomWhileFree` | src/async_event_loop/event_loop.hpp:279-290 | While a slot is free the scheduler has room, in the middle of a callback too. |
| `LoopAgreement.RegistersExactly` | src/async_event_loop/event_loop.hpp:144-178 | So wherever slots and entries agree, whoever registers, a registration succeeds exactly when a slot is allocated. |
| `LoopAgreement.AllocatesExactly` | src/async_event_loop/event_loop.hpp:279-290 | Allocation succeeds exactly when the lowest free slot is not executing; other free slots are not tried. |
| `LoopDisagreement.OwnSlotIsInTheWay` | src/async_event_loop/event_loop.hpp:279-290 | At work: a callback that removes its own registration gets no handle for another, although slot 1 is free. |
| `LoopAgreement.DisabledOneShotIsDropped` | src/async_event_loop_arduino/arduino_loop.hpp:78-88 | A one-shot disabled when due loses its scheduler entry but keeps its slot, which is why orderly runs exclude it. |
| `LoopLostSlot.AtClean` | src/async_event_loop_arduino/arduino_loop.hpp:22-50 | At every moment of every run no table entry names a task without being active. |
| `LoopLostSlot.DisabledOneShotIsLostForGood` | src/async_event_loop/event_loop.hpp:121-130 | From such a round on, at every moment there will ever be, the slot is taken and unreleased, its handle valid, its callable not invoked again, and removal through the handle fails: the slot is lost for good. |
| `LoopLostSlot.LastSlotIsLost` | src/async_event_loop/event_loop.hpp:121-178 | At work, from the start of a loop with one slot: on_delay, disable and one pass, after which nothing can ever be registered. |
| `LoopAgreement.FailedRegistrationUsesNothing` | src/async_event_loop/event_loop.hpp:144-178 | A registration that fails uses no slot. |
| `LoopDisagreement.TurnAgreesExactly` | src/async_event_loop_arduino/arduino_loop.hpp:72-89 | Exactly when a round keeps the agreement, its one-shot being enabled: no registration across a gap, or both no completed one-shot still scheduled after its callback and no one-shot of a slot at the polled index by then. |
| `LoopDisagreement.DelayCutShort` | src/async_event_loop/event_loop.hpp:158-178 | What can come of it, in a run from the start: a completed one-shot's entry stays scheduled on the freed slot, and a callable put there with a delay of 1000 us is invoked 1 us later. |
| `LoopDeadlines.EntryOverRun` | src/async_event_loop_arduino/arduino_loop.hpp:74-84 | Over every quiet run (no registration across a gap), with any operations between and in its passes, a periodic entry nobody removes stays scheduled, has been polled as often as bare visits at the pass times would fire it, and has the deadline they leave. |
| `LoopDeadlines.DeadlineOnGrid` | src/async_event_loop_arduino/arduino_loop.hpp:81-84 | After every quiet run its deadline is t0 + k * period, the least such value above the time of the pass that polled it last: no drift. |
| `LoopDeadlines.PollsBounded` | src/async_event_loop_arduino/arduino_loop.hpp:74-84 | In every quiet run, passes up to T poll it at most floor((T - t0) / period) + 1 times. |
| `LoopDeadlines.PolledLikeTimer` | src/async_event_loop/scheduler.hpp:183-194 | In every quiet run, so in every initial part of one, it is polled as often as a PeriodicTimer reset at t0 and asked at the pass times is ready, and the two have the same deadline. |
| `LoopDeadlines.QuietTurnIn64` | src/async_event_loop_arduino/arduino_loop.hpp:81-84 | The deadline such a round sets is a 64-bit number whenever the time plus the polled entry's period is one. |
| `EventLoops.EventLoop.constructor` | src/async_event_loop/event_loop.hpp:83-85 | A new loop represents the initial state. |
| `EventLoops.EventLoop.IsValid` | src/async_event_loop/event_loop.hpp:94-100 | The handle test, on the loop's own arrays. |
| `EventLoops.EventLoop.Remove` | src/async_event_loop/event_loop.hpp:121-130 | Unschedules and releases; nothing for an invalid handle. |
| `EventLoops.EventLoop.AllocateCallback` | src/async_event_loop/event_loop.hpp:279-290 | The scan finds the lowest free slot and tries only that one. |
| `EventLoops.EventLoop.OnRepeat` | src/async_event_loop/event_loop.hpp:144-154 | The objects in place follow the state machine. |
| `EventLoops.EventLoop.OnDelay` | src/async_event_loop/event_loop.hpp:158-178 | The objects in place follow the state machine, the saturated deadline included. |
| `EventLoops.EventLoop.ReleaseRegistered` | src/async_event_loop/event_loop.hpp:292-302 | Releases only a slot in use under the handle's generation. |
| `EventLoops.EventLoop.RunOnce` | src/async_event_loop_arduino/arduino_loop.hpp:68-92 | One pass over the real arrays, with callbacks re-entering them, is the state machine's pass, and it terminates, whenever every deadline it sets is a 64-bit number. |
| `Deadlines.CatchUpLeast` | src/async_event_loop_arduino/arduino_loop.hpp:81-84 | The catch-up loop's result is the least deadline on the grid above now. |
| `Deadlines.AdvanceDue` | src/async_event_loop/scheduler.hpp:190-192 | The 64-bit loop computes that whenever it is a 64-bit number. |
| `Deadlines.CatchUpFits` | src/async_event_loop/scheduler.hpp:190-192 | The loop, in 64-bit arithmetic, ends with that deadline if and only if the deadline is below 2^64. |
| `Deadlines.CatchUpEndsExactly` | src/async_event_loop/scheduler.hpp:190-192 | And it ends at all if and only if now is below the last 64-bit number congruent to the deadline modulo gcd(period, 2^64). |
| `Deadlines.PeriodicTimer.IsReady` | src/async_event_loop/scheduler.hpp:183-194 | On the timer's fields: the first call arms, a zero period never fires, and a ready timer's deadline moves past now, whenever that deadline is a 64-bit number. |
| `Deadlines.RearmExact` | src/async_event_loop_linux/libevent_loop.hpp:17-23 | The event is re-armed for the later of now and the next deadline exactly when the callback was not early. |
| `Deadlines.LibeventNoDrift` | src/async_event_loop_linux/libevent_loop.hpp:294-310 | If timers never fire early, after n callbacks the deadline is n periods on, no callback came before its own deadline, and the re-arm time is max(now, deadline): missed periods are replayed. |
| `Deadlines.TimerEvent.Rearm` | src/async_event_loop_linux/libevent_loop.hpp:303-310 | The end of the timer callback, on the event's own fields, with the deadline modulo 2^64. |
| `Backpressure.MonitorMeans` | src/async_event_loop/tcp.hpp:119-148 | The saturating counter and the flag are functions of the true number of over-high checks since the last low-water check. |
| `Backpressure.ReportsExactly` | src/async_event_loop/tcp.hpp:124-148 | A check reports exactly when it is over-high and brings that number to max(1, max_over_high_polls). |
| `Backpressure.ReportsAreSeparated` | src/async_event_loop/tcp.hpp:124-148 | Between two reports there is a low-water check. |
| `Backpressure.TcpBackpressureMonitor.CheckConnection` | src/async_event_loop/tcp.hpp:124-148 | The method follows that definition on valid connections with the monitor enabled and does nothing otherwise. |
| `LineSessions.SessionIsItsOwn` | src/async_event_loop/tcp_line_protocol.hpp:165-176 | A binding of a slot that starts with an empty buffer, as the first one does and every one behind a binding that left nothing, is given exactly the line framing of the bytes of its own connection. |
| `LineSessions.SlotFramesAll` | src/async_event_loop/tcp_line_protocol.hpp:165-176 | Over all its bindings a slot gives out the line framing of the concatenation of their bytes. |
| `LineSessions.FirstLine` | src/async_event_loop/tcp_line_protocol.hpp:202-208 | The first line of a binding is cut from what the one before left, followed by its own bytes, for any lengths: the reader is not emptied on release. |
| `LineSessions.LeftoverIsPrepended` | src/async_event_loop/tcp_line_protocol.hpp:202-208 | That line is right exactly when nothing was left, or when with and without the leftover one of the two kept tails is empty and the other a lone CR. |
| `TcpLineServer.LeftoverAtWork` | src/async_event_loop/tcp_line_protocol.hpp:113-143 | At work, on a handler with one slot: a connection is accepted, `ab` arrives and it is closed; another is accepted, `cd` and a newline arrive; unless a read is refused its first line is `abcd`, whatever the application does in its callbacks. |
| `TcpLineServer.TcpLineServerHandler.RunEvents` | src/async_event_loop/tcp_line_protocol.hpp:113-148 | Over any interleaving of accept, data, write-ready, close and error events, with anything happening to the connections in between: a connection is bound to one slot at most; every binding ever made took a contiguous run of its own connection's bytes and was given the lines of those; and a slot bound without a new binding has been bound all along to the same connection. |
| `TcpLineServer.TcpLineServerHandler.Acquire` | src/async_event_loop/tcp_line_protocol.hpp:187-200 | The slot already bound to the connection, or the lowest free one, newly bound with what its reader holds; other slots and sessions are untouched; a connection is never bound twice. |
| `TcpLineServer.TcpLineServerHandler.Release` | src/async_event_loop/tcp_line_protocol.hpp:202-208 | Unbinds and resets the monitor; the line buffer stays. |
| `TcpLineServer.TcpLineServerHandler.OnAccept` | src/async_event_loop/tcp_line_protocol.hpp:113-121 | The same, with the slot's monitor reset. |
| `TcpLineServer.TcpLineServerHandler.OnData` | src/async_event_loop/tcp_line_protocol.hpp:123-131 | The connection's slot, acquired if need be, reads until nothing is readable or a read is refused, and all of an input that ends no line before its last byte; other slots keep buffers and sessions and can only be unbound by their backpressure check. |
| `TcpLineServer.TcpLineServerHandler.PollSlot` | src/async_event_loop/tcp_line_protocol.hpp:165-176 | Only the slot's open session grows, and it does until the connection is not readable or refuses a read; input that ends no line before its last byte is read whole. |
| `TcpLineServer.TcpLineServerHandler.OnClose` | src/async_event_loop/tcp_line_protocol.hpp:140-143 | The connection's slot is free afterwards; other slots are untouched. |
| `TcpLineServer.TcpLineServerHandler.OnWriteReady` | src/async_event_loop/tcp_line_protocol.hpp:133-138 | Only the connection's own slot is checked. |
| `TcpLineServer.TcpLineServerHandler.CheckBackpressure` | src/async_event_loop/tcp_line_protocol.hpp:223-242 | The slot's whole new state: one monitor check of a valid connection, and unbound after a report exactly when the connection is no longer valid, as it always is with close_on_limit. |

## Left out

- JsonReader.JsonProtocolReader.Poll: message callbacks are recorded, not run, so a callback that writes to the stream or replaces itself while a message is delivered is not modelled; the same holds for the other readers.
- Scheduler.ArduinoLoop.Settle: excludes the bookkeeping whose new deadline would reach 2^64, and `EventLoops.EventLoop.RunOnce` the passes with such a round; by `Deadlines.CatchUpFits` and `Deadlines.CatchUpEndsExactly` those leave another deadline or never return.
- LoopDeadlines.EntryOverRun: counts time without a limit, as do the other results of that module; they concern the objects as long as `LoopModel.TurnsIn64` holds of every pass.
- EventLoops.EventLoop.RunOnce: a callback that starts a nested pass is excluded; it would clear the executing flag early (src/async_event_loop/scheduler.hpp:87-90). The clock reading of the pass, the clock readings inside callbacks and what callbacks do are parameters.
- EventLoops.EventLoop.OnRepeat: on_bytes_ready and on_pin_event register through the same path with a wrapping callable; the wrappers are not modelled.
- CallbackTasks.CallbackTask.SetCallable: placement new, alignment and the two function pointers are one stored callable with a serial number.
- TcpLineServer.TcpLineServerHandler.PollSlot: the reader and the monitor inside a slot are the values `LineReader` and `Backpressure` define, not objects; bytes the application reads from a connection by itself are not recorded.
- TcpLineServer.TcpLineServerHandler.OnAccept: a slot can stay bound to a connection the application has closed without a close event, so bound slots are not claimed to hold valid connections. Callbacks that call back into the handler, or make a closed connection valid again, are excluded.
- Deadlines.PeriodicTimer.IsReady: excludes the calls whose new deadline would reach 2^64; by `Deadlines.CatchUpFits` and `Deadlines.CatchUpEndsExactly` those leave another deadline or never return.
- WiFiConnection.ArduinoWiFiTcpConnection.Write: the network client is nondeterministic within its bounds (it takes some prefix; the number of bytes it reports as available never exceeds what it holds).
- Deadlines.LibeventNoDrift: libevent itself, its event lists and its clock are represented by the firing times and the assumption that timers never fire early.
- JsonRoundTrip.RoundTrip: a byte is a Dafny `char` and UTF-8 is not modelled; any byte from 0x20 on, except quote and backslash, may stand unescaped in a string, so well-formed UTF-8 is included.
- The figures TcpBackpressureInfo carries with a report are not modelled, only when a report is made.
- Statistics counters wrap at 2^32 in the classes; the definitions on values count without wrapping and the classes tie the two.
- TcpLineClientHandler, TcpConnectionRegistry, OneShotTimer, Micros32Extender, FixedVector: each would add only easy members.
- Servers, clients, serial ports, FIFOs, UDP, pins and the libevent file-descriptor events: foreign calls and plumbing.
