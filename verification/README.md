# PiDuino in Dafny

PiDuino is an Arduino-style C++ library for single-board computers. This project models the parts of it that are
algorithms and protocols rather than plumbing, and proves what they are meant to guarantee:

- `StreamFind.dfy`: the online multi-pattern matcher behind `find` and `findUntil`.
- `Numerals.dfy`, `Print.dfy`, `StreamParse.dfy`: the two integer printers, the decimal printer, the two number
  parsers, and the round trips between them.
- `TSQueue.dfy`, `ThreadSafeBuffer.dfy`, `Ranks.dfy`: the two concurrent queues, as step systems over all
  interleavings, and the sums that bound their schedules.
- `RingBuffer.dfy`: the circular buffer, refining a bounded sequence, and where its slots hold objects.
- `Max7311.dfy`, `Max7311Driver.dfy`: the I/O expander refining sixteen pins, with transfers that may fail, and its
  driver with the write-through shadow registers.
- `GpioLine.dfy`, `GpioIsr.dfy`: the line configurations handed to the kernel, and the life cycle of the interrupt
  thread and its promise.
- `Converter.dfy`, `StringReplace.dfy`, `IPAddress.dfy`: parameter strings, in-place replacement, dotted addresses.

`Bytes.dfy` holds bytes, C strings and the byte source behind a stream.

## How to read the model

Objects that C++ updates in place are classes or arrays here, and each method is proved equal to a function of the
old state; what the library promises is then proved about those functions, over every run. Threads are step systems:
a run is any sequence of steps, and the theorems hold after every run.

Choices that matter:

- The bytes of a stream end in the timeout: `read` and `peek` answer -1 from there on. A `char` is a byte 0 to
  255, as on the ARM targets: it is the type of the parsers' ignored character, and of the digit in the backwards
  printer, which a signed `char` would change from digit 128 on.
- `double` and `float` are exact reals. `long` has an arbitrary width `w`. Signed overflow and an out-of-range
  conversion to `unsigned long` give the outcome `Undefined`; exceptions and out-of-bounds reads are outcomes too.
- An I2C transfer may fail, and may then have moved some of its bytes. The bus's replies, the kernel's answers, the
  pin's own answers and the clock are arbitrary inputs; what went over the bus, with its reply, is logged.
- The MAX7311 driver computes on bytes with the C++ operators; the theorems speak of a register byte as the set of its
  one-bits, and `Bits.OrInserts` and its siblings connect the two.

Where the code and its own words differ, the model follows the code:

- `parseInt` says look-ahead ends at the first character that is no part of the number; the code then also discards
  everything else that is available, and so does `parseFloat`.
- `push_front` on a full buffer replaces the last item, as its comment says, but also counts one item more.
- `Max7311::open` stores the bus timeout setting in the shadow and never sends it, so the timeout register is not part
  of coherence.
- Channel numbers are narrowed to 8 bits after division by 8, so channel 2048 addresses pin 0.

## What is false, and exactly when

- `parseInt` does not read back every `long` it can print: it overflows its accumulator exactly when the magnitude is
  within 48 of the largest `long` (`StreamParse.ParseIntInvertsPrint`). The same limit holds for all the digits of a
  decimal (`StreamParse.ParseFloatInvertsPrint`).
- The two integer printers agree up to letter case exactly when all digits are below 36 (`Print.PrintersAgree`).
- `push_front` keeps the buffer valid exactly when it is not full, and writes outside the array exactly when the head
  is past it (`RingBuffers.RingBuffer.DoPushFront`), which never happens from capacity 2 on. In runs without
  `push_front`, `front()` is defined exactly from capacity 2 on (`RingBuffers.FrontAfter`).
- `pop_back` destroys the object before the last one: objects stay where the items are exactly when there was nothing
  to remove or the capacity is 1 (`RingBuffers.RingBuffer.DoPopBack`). Copying a buffer destroys objects that were
  never there exactly when it is not empty (`RingBuffers.RingBuffer.Copy`), and `reserve` reads and destroys objects
  that are gone exactly when some item has lost its own (`RingBuffers.RingBuffer.Reserve`).
- A MAX7311 channel write, or a `setMode` of all channels that names no direction, leaves another pin alone exactly
  when it does not send that pin's port or nothing else is owed to the pin from requests that failed
  (`Max7311Chip.OtherPinsUntouched`); what a failed request asked for is delivered late (`Max7311Chip.LateWrite`,
  `Max7311Chip.LateDirection`). What a caller can tell from the answers alone is exact too
  (`Max7311Chip.SafeExactly`): enough is that the last operation on the port returned true.
- The debounce period survives exactly when it fits 32 bits in microseconds (`GpioRuns.ArmSetsDebounce`), and
  `Line::setDebounce` by itself can silently do nothing (`GpioRuns.SetDebounceTrustsSlot`).
- `attachInterrupt` answers true without serving the handler it was given exactly when another one was attached since
  the last join, or the attached one was lost to an exception (`GpioIsr.AttachAnswer`).
- `replace` does not always end. For a replacement that is no longer than the text it replaces, or does not both begin
  with something that text ends with and end with something it begins with, it ends exactly when the text does not
  occur or does not occur in its replacement (`StringReplace.EndsExactly`).

## Model

| member | source | states |
|---|---|---|
| `ByteStreams.ByteStream.Read` | src/arduino/Stream.cpp:31-42 | the next byte is consumed and returned; at the end -1, and nothing changes |
| `StreamFind.BorderOfBorder` | src/arduino/Stream.cpp:325-332 | comparing a target with itself shifted decides whether a shorter prefix is also a suffix of the input |
| `StreamFind.MatchKeepsLongest` | src/arduino/Stream.cpp:293-301 | a matching byte extends the longest prefix that the input ends with, and nothing longer appears |
| `StreamFind.MismatchKeepsLongest` | src/arduino/Stream.cpp:303-343 | the longest self-agreeing position below a mismatch is the longest prefix the extended input ends with |
| `StreamFind.Agrees` | src/arduino/Stream.cpp:325-336 | true exactly when the two stretches of the target are equal |
| `StreamFind.WalkBack` | src/arduino/Stream.cpp:303-343 | stops at the longest candidate, missing none above it |
| `StreamFind.Advance` | src/arduino/Stream.cpp:292-343 | after a byte the position is the longest proper prefix of the target that the input ends with, or the target is complete exactly when it is a suffix |
| `StreamFind.Feed` | src/arduino/Stream.cpp:292-344 | of several targets completed by one byte the lowest-numbered is reported; the others' positions stay exact |
| `StreamFind.Search` | src/arduino/Stream.cpp:286-345 | for non-empty targets: the first target to be complete, the bytes consumed, and every position left behind |
| `StreamFind.FindMulti` | src/arduino/Stream.cpp:277-348 | returns k exactly when target k ends earliest (lowest k on a tie), having consumed exactly that prefix; -1 only at the timeout with no occurrence; an empty target wins at once |
| `StreamFind.FirstFoundUnique` | src/arduino/Stream.cpp:277-348 | that answer is the only one possible |
| `StreamFind.FindUntil` | src/arduino/Stream.cpp:118-127 | true exactly when the target is complete no later than the terminator, and nothing is consumed past that point |
| `Numerals.DigitsDenote` | src/arduino/Print.cpp:208-214 | the digits obtained by repeated division denote the number |
| `Numerals.DigitsUnique` | src/arduino/Print.cpp:208-214 | they are the only numeral of the number without a needless zero |
| `Numerals.DigitsFit` | src/arduino/Print.cpp:198-199 | a w-bit number has at most w digits in any base |
| `Numerals.RenderDenotes` | src/arduino/Print.cpp:212 | in bases 2 to 36 the characters, read back one by one, denote the number, without a leading zero unless it is zero |
| `Numerals.CastKeepsWord` | src/arduino/Print.cpp:85-95 | the word a `long` is printed as in other bases: the number itself from 0 on, and 2 to the power of the width more below 0 |
| `Strings.FromUnsigned` | src/string.cpp:46-68 | pushing digits and reversing gives the digits of the number in order, "0" for zero |
| `Strings.FromLong` | src/string.cpp:71-92 | a sign in base 10 only, the unsigned word otherwise, undefined for the smallest `long` in base 10 |
| `Print.FillBackwards` | src/arduino/Print.cpp:198-214 | the backwards loop leaves exactly the digits and a NUL at the end of the buffer and never leaves it |
| `Print.FromUnsigned` | src/arduino/Print.cpp:197-217 | the text is the digits of the number in the base (10 for bases 0 and 1), at most w of them |
| `Print.PrintedDenotes` | src/arduino/Print.cpp:197-217 | for bases up to 36 the printed text denotes the number and has no needless zero |
| `Print.PrintersAgree` | src/arduino/Print.cpp:197-217 | the two printers agree up to letter case exactly when every digit is below 36 |
| `Print.LetterCases` | src/arduino/Print.cpp:208-214 | `Print` writes digits and capital letters, `String` digits and small ones |
| `Print.PrintLong` | src/arduino/Print.cpp:85-95 | the decimal text in base 10, undefined there for the smallest `long`; the unsigned word in other bases |
| `Print.HalfUnit` | src/arduino/Print.cpp:239-245 | the rounding term is half a unit of the last digit |
| `Print.FractionDigits` | src/arduino/Print.cpp:259-266 | the digits cut off one by one are the first decimals of the fraction, exactly as many as asked for |
| `Print.SplitAtPoint` | src/arduino/Print.cpp:249-251 | integer part and decimals are those of the number rounded half up |
| `Print.HalfGoesUp` | src/arduino/Print.cpp:239-247 | a number half-way between two printed ones is rounded up, and a printed one is left alone |
| `Print.FromDouble` | src/arduino/Print.cpp:219-269 | sign, integer part and d digits of the rounded number; undefined exactly past the word size; the texts "nan" and "inf" otherwise |
| `Print.RoundingError` | src/arduino/Print.cpp:239-247 | the printed decimal is within half a unit of its last digit |
| `StreamParse.AtNumberSkips` | src/arduino/Stream.cpp:60-90 | what look-ahead discards, in each mode: exactly the skippable bytes before a number |
| `StreamParse.PeekNextDigit` | src/arduino/Stream.cpp:60-90 | leaves the stream there, and answers the byte that starts a number or -1 |
| `StreamParse.Accumulate` | src/arduino/Stream.cpp:146-153 | one character updates value and sign, or overflows, exactly as the digits so far say |
| `StreamParse.ReadInt` | src/arduino/Stream.cpp:145-157 | the loop reads the whole number, or overflows exactly when the number does not fit |
| `StreamParse.ParseInt` | src/arduino/Stream.cpp:134-167 | the value of the number ahead, 0 without one; the stream is drained after a number |
| `StreamParse.ReadFloat` | src/arduino/Stream.cpp:183-201 | the loop also counts the digits after the point, and only the first point belongs to the number |
| `StreamParse.ParseFloat` | src/arduino/Stream.cpp:170-216 | the digits over the power of ten that the point says |
| `StreamParse.IntegerParses` | src/arduino/Stream.cpp:134-167 | on any text: after what look-ahead passes over, an optional minus and the digits up to the first character that is none, the ignored one left out, are the number; undefined exactly when 48 more than its magnitude does not fit |
| `StreamParse.DecimalParses` | src/arduino/Stream.cpp:170-216 | `parseFloat` on any text with a point: the digits before and after it, either of which may be missing, over the power of ten; a leading point counts, a second one stops |
| `StreamParse.WholeFloatParses` | src/arduino/Stream.cpp:170-216 | on any text without a point it reads what `parseInt` reads |
| `StreamParse.NothingParses` | src/arduino/Stream.cpp:60-90 | where look-ahead has to stop before any start of a number, given by its characters for each mode, both answer 0 and leave the rest |
| `StreamParse.ParseIntInvertsPrint` | src/arduino/Stream.cpp:134-167 | after any text without digits or minus, the decimal text of n parses to n exactly when 48 more than its magnitude fits a `long` |
| `StreamParse.IgnoredVanishes` | src/arduino/Stream.cpp:129-134 | an ignored character inside a number is as if absent |
| `StreamParse.ParseFloatInvertsPrint` | src/arduino/Stream.cpp:170-216 | after any text without digits, minus or point, a printed decimal parses back to itself exactly when its digits fit the accumulator |
| `StreamParse.ReadBackIsClose` | src/arduino/Print.cpp:219-269 | so the text of a number printed with d digits parses to within half a unit of the last one |
| `StreamParse.ReadBackDecimal` | src/arduino/Stream.cpp:170-216 | printing and then parsing a number is defined exactly when its digits fit the accumulator, and then within half a unit |
| `StreamParse.ReadBackInteger` | src/arduino/Stream.cpp:134-167 | printing and then parsing a `long` gives it back, or overflows, exactly at that limit |
| `TSQueue.StepKeepsInv` | include/piduino/tsqueue.h:49-132 | every step of every thread keeps mutual exclusion, conservation and the wake-up bound |
| `TSQueue.NoLostWakeup` | include/piduino/tsqueue.h:49-86 | in every interleaving, while a consumer sleeps un-notified and no push is between queueing its item and notifying, the queue holds no more items than there are notified consumers yet to run |
| `TSQueue.FirstInFirstOut` | include/piduino/tsqueue.h:49-132 | items leave in push order, none lost or duplicated, and only a clear drops any |
| `TSQueue.ClearTakesAll` | include/piduino/tsqueue.h:125-131 | a clear takes out exactly the items that were queued, in order |
| `TSQueue.OnlyClearClears` | include/piduino/tsqueue.h:49-132 | no other step drops any: it removes nothing, or the oldest item for the thread that pops |
| `TSQueue.Linearizable` | include/piduino/tsqueue.h:49-132 | in every interleaving the calls that returned are calls one after the other on a sequential queue, which is the queue left while the mutex is free; a clear about to return sees it empty |
| `TSQueue.CallsReturn` | include/piduino/tsqueue.h:49-132 | the calls a thread made are those of its calls that returned, in order, and the one it is in |
| `TSQueue.AlwaysPossible` | include/piduino/tsqueue.h:49-132 | an idle thread may call, a free mutex may be locked, a sleeper may wake up |
| `TSQueue.PopNeverEmpty` | include/piduino/tsqueue.h:74-82 | a pop never reads the front of an empty queue, and does so inside the mutex |
| `TSQueue.CallsTakeEffect` | include/piduino/tsqueue.h:49-86 | a push or pop about to return has pushed or removed its own item last |
| `TSQueue.QuietStepLowers` | include/piduino/tsqueue.h:49-132 | every step of a call under way lowers the sum of what all calls have left to do |
| `TSQueue.NeverStranded` | include/piduino/tsqueue.h:49-86 | from every reachable state, without new calls and spurious wake-ups, every schedule is bounded and stops only when each call has returned, except pops asleep on an empty queue |
| `ThreadSafeBuffer.StepKeepsInv` | include/piduino/threadsafebuffer.h:45-88 | every step keeps the invariants below |
| `ThreadSafeBuffer.NothingLost` | include/piduino/threadsafebuffer.h:45-88 | everything read followed by the queue is everything written |
| `ThreadSafeBuffer.SizeIsCounted` | include/piduino/threadsafebuffer.h:137-139 | the unlocked counter is exact while the mutex is free, and never more than one off |
| `ThreadSafeBuffer.NoLostWakeup` | include/piduino/threadsafebuffer.h:165-184 | nobody sleeps on data, except until the writer that brought it notifies |
| `ThreadSafeBuffer.WriteLands` | include/piduino/threadsafebuffer.h:54-61 | a finished write has put in its whole buffer in one piece; a read that may not wait never sleeps |
| `ThreadSafeBuffer.ReadReturns` | include/piduino/threadsafebuffer.h:67-88 | a read without time limit never comes back empty; nothing, or a drain, means the queue is empty |
| `ThreadSafeBuffer.LimitsHold` | include/piduino/threadsafebuffer.h:165-184 | in every interleaving, once the limit of a read has run out it neither sleeps nor waits again before it returns, and a read with a limit returns empty only if the limit has run out |
| `ThreadSafeBuffer.LimitEndsRead` | include/piduino/threadsafebuffer.h:165-184 | a woken read whose limit has run out, on an empty buffer, returns empty as soon as it gets the mutex |
| `ThreadSafeBuffer.Linearizable` | include/piduino/threadsafebuffer.h:45-88 | in every interleaving the calls that returned are calls one after the other on a sequential buffer, which is the queue left while the mutex is free |
| `ThreadSafeBuffer.CallsReturn` | include/piduino/threadsafebuffer.h:45-88 | the calls a thread made are those of its calls that returned, in order, and the one it is in |
| `ThreadSafeBuffer.AlwaysPossible` | include/piduino/threadsafebuffer.h:45-88 | an idle thread may call, a free mutex may be locked with or without the limit having run out, a sleeper may wake up |
| `ThreadSafeBuffer.QuietStepLowers` | include/piduino/threadsafebuffer.h:165-220 | every step of a call under way, waking all sleepers included, lowers what all calls have left to do |
| `ThreadSafeBuffer.NeverStranded` | include/piduino/threadsafebuffer.h:45-88 | from every reachable state, without new calls and self-made wake-ups, every schedule is bounded and stops only when each call has returned, except reads asleep on an empty queue |
| `RingBuffers.PushesKeepLast` | include/piduino/ringbuffer.h:569-581 | however many items are pushed, the last `capacity` of everything stay, in order |
| `RingBuffers.PopsInvertPushes` | include/piduino/ringbuffer.h:555-624 | on the bounded sequence, what was pushed at an end of a buffer with room is what a pop at that end removes |
| `RingBuffers.SkipIsPops` | include/piduino/ringbuffer.h:630-658 | `skip(n)` is n times `pop_front` and `chop(n)` n times `pop_back`, even past the end |
| `RingBuffers.SlotIsRemainder` | include/piduino/ringbuffer.h:701-709 | the remainder computes the wrapped slot of the i-th item |
| `RingBuffers.RingBuffer.ItemInUse` | include/piduino/ringbuffer.h:701-709 | every item has its slot among those in use |
| `RingBuffers.RingBuffer.InUseIsItem` | include/piduino/ringbuffer.h:701-709 | and every slot in use is that of an item |
| `RingBuffers.RingBuffer.constructor` | include/piduino/ringbuffer.h:88-95 | an empty buffer of any capacity, with the head at 1 and no objects |
| `RingBuffers.RingBuffer.Copy` | include/piduino/ringbuffer.h:104-121 | the same contents and capacity; objects are handled rightly exactly when the other buffer is empty |
| `RingBuffers.RingBuffer.FromRange` | include/piduino/ringbuffer.h:128-140 | exactly the items of the range, and objects where they are |
| `RingBuffers.RingBuffer.Front` | include/piduino/ringbuffer.h:497-500 | the first item; undefined exactly when the head is outside the array, never from capacity 2 on |
| `RingBuffers.FrontAfter` | include/piduino/ringbuffer.h:497-500 | after every run on a new buffer, without `push_front` at capacity 1, `front()` is defined exactly from capacity 2 on, and is the first item |
| `RingBuffers.RingBuffer.Back` | include/piduino/ringbuffer.h:506-509 | the last item |
| `RingBuffers.RingBuffer.Index` | include/piduino/ringbuffer.h:690-709 | the n-th item |
| `RingBuffers.RingBuffer.At` | include/piduino/ringbuffer.h:694-699 | the n-th item, or the exception outside the contents |
| `RingBuffers.RingBuffer.DoClear` | include/piduino/ringbuffer.h:555-563 | empties the buffer and destroys the objects of its items |
| `RingBuffers.RingBuffer.IncrementHead` | include/piduino/ringbuffer.h:733-741 | drops exactly the oldest item |
| `RingBuffers.RingBuffer.IncrementTail` | include/piduino/ringbuffer.h:711-714 | the slot after the tail joins at the end |
| `RingBuffers.RingBuffer.DoPushBack` | include/piduino/ringbuffer.h:569-581 | appends, dropping exactly the oldest item when full; constructs or assigns as the slot demands; outside the array exactly at capacity 0 |
| `RingBuffers.RingBuffer.DoPushFront` | include/piduino/ringbuffer.h:586-597 | prepends when there is room; on a full buffer replaces the last item but the size passes the capacity; undefined exactly when the head is past the array |
| `RingBuffers.RingBuffer.DoPopFront` | include/piduino/ringbuffer.h:603-611 | removes the first item, nothing when empty; destroys its object, except with capacity 1 and the head outside the array |
| `RingBuffers.RingBuffer.DoPopBack` | include/piduino/ringbuffer.h:616-624 | removes the last item, nothing when empty; the object destroyed is the one before, so objects and items agree afterwards exactly when it was empty or has capacity 1, and otherwise an item is left without its object or nothing was there to destroy |
| `RingBuffers.RingBuffer.DoSkip` | include/piduino/ringbuffer.h:630-641 | drops that many from the front, at most all, with their objects |
| `RingBuffers.RingBuffer.DoChop` | include/piduino/ringbuffer.h:647-658 | drops that many from the back, at most all; objects and items agree afterwards exactly when it dropped none or all |
| `RingBuffers.RingBuffer.AssignInto` | include/piduino/ringbuffer.h:752-762 | leaves the last `capacity` of the given items, in order; outside the array exactly at capacity 0 with items to push |
| `RingBuffers.RingBuffer.Reserve` | include/piduino/ringbuffer.h:475-488 | the new capacity and the last items that fit it, whatever the wrap position, never written outside the new array; a change of capacity leaves objects where the items are exactly when every item had its object |
| `RingBuffers.RingBuffer.Replay` | include/piduino/ringbuffer.h:555-658 | every run of operations, `push_front` on a full buffer apart, refines the same run on a bounded sequence (with capacity 1, every run without `push_front`); from capacity 2 on, objects stay where the items are in every run without `pop_back` and `chop` |
| `Bits.OrInserts` | src/ext/max7311.cpp:286 | or-ing a mask inserts one bit |
| `Bits.AndNotRemoves` | src/ext/max7311.cpp:290 | and-ing the complement removes it |
| `Bits.XorFlips` | src/ext/max7311.cpp:235 | xor-ing flips it |
| `Bits.XorComplements` | src/ext/max7311.cpp:259-260 | xor-ing 0xFF flips all bits |
| `Bits.WordOnes` | src/ext/max7311.cpp:207-208 | the two bytes of a written value are its sixteen bits |
| `Bits.WeightsLow` | src/ext/max7311.cpp:207-208 | bits 0 to 7 of a word are those of its weights 1 to 128 |
| `Bits.WeightsHigh` | src/ext/max7311.cpp:207-208 | bits 8 to 15 are those of its weights 256 to 32768 |
| `Max7311Chip.StepRefinesPins` | src/ext/max7311.cpp:206-428 | an operation on the registers is one step of each pin alone, so a channel operation changes no other pin |
| `Max7311Chip.RunRefinesPins` | src/ext/max7311.cpp:206-428 | over every run the registers refine sixteen independent pins |
| `Max7311Chip.PinsDetermine` | src/ext/max7311_p.h:296-303 | the registers hold nothing but the pins |
| `Max7311Chip.BulkIsFold` | src/ext/max7311.cpp:206-304 | `write(v)`, `toggle(-1)` and `setMode(m, -1)` equal the single operations over channels 0 to 15 |
| `Max7311Chip.ModeRoundTrip` | src/ext/max7311.cpp:309-428 | the mode just set is reported, plus the pull-up for inputs |
| `Max7311Chip.SupportedModes` | src/ext/max7311.cpp:345-362 | the modes that can be set, by their numbers: input, output or neither, active low or not |
| `Max7311Chip.ModeTable` | src/ext/max7311.cpp:309-428 | what setting each of them does to a pin, and the number reported for each kind of pin |
| `Max7311Chip.ModeSticks` | src/ext/max7311.cpp:309-428 | over every run the reported mode of a channel is what was last set on it |
| `Max7311Chip.HistoryAgrees` | src/ext/max7311.cpp:206-428 | over every history of delivered and failed requests, the level or direction of a pin and the one the shadow holds for it follow from the requests and how far they got, pin by pin |
| `Max7311Chip.OtherPinsUntouched` | src/ext/max7311.cpp:206-428 | after any history, a delivered `write`, `writeChannel` or `setMode` of all channels gives the pins it asks for what it asks, and leaves another pin alone exactly when it does not send its port or nothing else is owed to it |
| `Max7311Chip.LateWrite` | src/ext/max7311.cpp:279-304 | a failed channel write is delivered by the next write to another channel of its port |
| `Max7311Chip.LateDirection` | src/ext/max7311.cpp:345-428 | the direction of a failed `setMode` is delivered by the next `setMode` of all channels that names none |
| `Max7311Chip.PossibleReached` | src/ext/max7311.cpp:206-428 | everything a caller holds possible of a pin from the answers it got comes about in some history that fits them |
| `Max7311Chip.SafeExactly` | src/ext/max7311.cpp:206-428 | what a caller works out from the answers is exact: sending a pin's port is safe for its level, or its direction, if and only if no history that fits the answers makes it change |
| `Max7311Chip.LastWentIsSafe` | src/ext/max7311.cpp:206-428 | it is safe for every pin of a port on which the last operation on that register returned true, whatever failed before |
| `Max7311Driver.Receive` | src/ext/max7311.cpp:433-452 | bytes read land in the shadow even when too few arrive |
| `Max7311Driver.Send` | src/ext/max7311.cpp:473-487 | all bytes, or an error after any part of them |
| `Max7311Driver.Driver.WriteSetup` | src/ext/max7311_p.h:261-264 | polarity, then configuration of the port as far as the transfer got; writing what the device holds changes nothing even on failure |
| `Max7311Driver.Driver.ReadSetup` | src/ext/max7311_p.h:268-271 | refreshes the shadow as far as bytes arrive and never breaks coherence |
| `Max7311Driver.Driver.DoOpen` | src/ext/max7311.cpp:110-165 | after a successful open the shadow equals the device, which is unchanged; on failure each register is refreshed as far as it got; it connects and reads inputs, outputs, setup and timeout up to the first failure, returns true exactly when all worked, and only then sends the setup back |
| `Max7311Driver.Driver.DoWrite` | src/ext/max7311.cpp:206-219 | all sixteen outputs, in the shadow always and in the device as far as the transfer got, which is all the way if it returns true; one send of both ports, true exactly when it worked |
| `Max7311Driver.Driver.ChannelsArePins` | src/ext/max7311.cpp:279-304 | channels 0 to 15 are the pins, 16 to 2047 are refused, and -7 to -1 reach a port with a negative shift |
| `Max7311Driver.Driver.DoWriteChannel` | src/ext/max7311.cpp:279-304 | one output bit, in the shadow even on failure and in the device as far as the transfer got; refused for a port that does not exist; undefined exactly for a negative channel that wraps to a port and is no multiple of 8; for any other channel one send of its port, true exactly when it worked |
| `Max7311Driver.Driver.DoToggle` | src/ext/max7311.cpp:224-274 | flips what the device holds, for one channel or all, whatever the shadow said; on failure, as far as it got; one read of the port or ports and, if that worked, one send, true exactly when both worked; nothing for a port that does not exist |
| `Max7311Driver.Driver.SetPinMode` | src/ext/max7311.cpp:363-394 | one channel's direction and polarity in the device, whatever the shadow said; on failure, as far as it got; polarity and configuration read, then both sent, up to the first failure, true exactly when all worked |
| `Max7311Driver.Driver.DoSetMode` | src/ext/max7311.cpp:345-428 | refuses unsupported modes without effect; otherwise one channel, whatever the shadow said, or all, which is right exactly when the mode names a direction or shadow and device agree on the directions; on failure, as far as it got; the bus sees exactly the transfers of its plan up to the first failure, and it returns true exactly when all worked |
| `Max7311Driver.Driver.DoMode` | src/ext/max7311.cpp:309-340 | once the setup was read, exactly what the device holds for that pin, or undefined for a negative channel that wraps to a port; 0 otherwise; polarity, then configuration are read, and the setup counts as read exactly when both worked |
| `Max7311Driver.Driver.Replay` | src/ext/max7311.cpp:110-428 | every run, reopening and asking for modes included, whose transfers succeed keeps shadow and device equal and does what the run says; it succeeds whenever the bus worked throughout |
| `Max7311Driver.Driver.ModeAfter` | src/ext/max7311.cpp:309-428 | after every such run the mode read of a channel is the one last set on it |
| `Max7311Driver.Driver.Endure` | src/ext/max7311.cpp:110-428 | every run, whatever fails on the way, moves outputs and directions by a history of requests that fits its answers; all answers are true whenever the bus worked throughout |
| `Max7311Driver.Driver.PerformAfter` | src/ext/max7311.cpp:206-428 | after any such run, a `write`, `writeChannel` or `setMode` of all channels that succeeds gives the pins it asks for what it asks; compared with what the device held before it, it changes no pin the answers show to be safe, none on a port whose last operation returned true, and over all exactly those sent to which something else is owed |
| `GpioConfig.PinConfig` | src/gpio/gpio_dev2.cpp:376-419 | exactly one direction and one bias flag, those of the device's own mode and pull where known, and the stored output level |
| `GpioConfig.ModeKeepsForm` | src/gpio/gpio_dev2.cpp:136-152 | changing the direction leaves exactly one direction flag and the bias alone |
| `GpioConfig.PullKeepsForm` | src/gpio/gpio_dev2.cpp:172-188 | changing the bias leaves exactly one bias flag and the direction alone |
| `GpioConfig.DebounceWraps` | include/piduino/gpio2.h:1174-1197 | a period survives the 32-bit microseconds exactly when it does not wrap |
| `GpioRuns.StepKeepsInv` | src/gpio/gpio_dev2.cpp:126-266 | every operation keeps an open line's configuration well formed |
| `GpioRuns.AlwaysWellFormed` | src/gpio/gpio_dev2.cpp:126-419 | in every run each configuration handed to the kernel has exactly one direction and exactly one bias flag |
| `GpioRuns.SettingSettles` | src/gpio/gpio_dev2.cpp:126-193 | setting mode and pull configures an open line for both |
| `GpioRuns.SetModeReaches` | src/gpio/gpio_dev2.cpp:126-158 | on an open device exactly one configuration is handed over, the old one with the direction asked for, and if accepted it is what the kernel has |
| `GpioRuns.SetPullReaches` | src/gpio/gpio_dev2.cpp:162-193 | likewise for the bias |
| `GpioRuns.SettingsRemembered` | src/gpio/gpio_dev2.cpp:126-193 | on a closed device both are only remembered; a mode or pull that cannot be set changes nothing |
| `GpioRuns.OpenReaches` | src/gpio/gpio_dev2.cpp:343-419 | opening hands over exactly one configuration: the mode, pull and stored level of the device, or the pin's own where it has none; anything but input and output becomes a pulled-down input |
| `GpioRuns.OpenAndClose` | src/gpio/gpio_dev2.cpp:343-373 | opening does nothing twice or without the chip; closing forgets the stored level and hands nothing over |
| `GpioRuns.WriteThenOpen` | src/gpio/gpio_dev2.cpp:197-216 | a level written while closed is the one an output opens with; one written while open is not stored |
| `GpioRuns.AnswersBelieved` | src/gpio/gpio_dev2.cpp:62-122 | the mode and pull a device believes in after asking, flag by flag of the kernel's answer |
| `GpioRuns.KernelFollows` | src/gpio/gpio_dev2.cpp:126-419 | in every run whose answers are all yes the kernel has the line's configuration as long as the device is open |
| `GpioRuns.SettingsStick` | src/gpio/gpio_dev2.cpp:343-419 | from then on every configuration handed over has that direction and bias, across closing, reopening and arming |
| `GpioRuns.ArmSetsDebounce` | src/gpio/gpio_dev2.cpp:241-266 | a successfully armed line has the requested debounce in the line and in the kernel, whatever slot 0 held, exactly for periods below 2^32 microseconds |
| `GpioRuns.ArmTouchesLine` | src/gpio/gpio_dev2.cpp:256-266 | arming changes nothing but the line, and nothing at all on a closed device or without an edge |
| `GpioRuns.ArmReaches` | src/gpio/gpio_dev2_p.h:59-90 | otherwise it first hands over the configuration the device would open with, and exactly the edges asked for |
| `GpioRuns.ArmDebounceReaches` | src/gpio/gpio_dev2.cpp:241-266 | then, if that was accepted and there is a period, one more with the period in slot 0, and nothing else |
| `GpioRuns.SetDebounceTrustsSlot` | include/piduino/gpio2.h:1165-1198 | `setDebounce` sets the period unless slot 0 happens to read as that period without being one |
| `GpioRuns.DebounceReaches` | include/piduino/gpio2.h:1165-1198 | otherwise one configuration is handed over, with the period in microseconds in slot 0 for this line, or without an attribute for period 0 |
| `GpioRuns.SetDebounceMissed` | include/piduino/gpio2.h:1165-1198 | a concrete line where it answers true and sets nothing |
| `GpioDev2.GpioLine.Open` | include/piduino/gpio2.h:961-978 | hands the configuration over once, when closed |
| `GpioDev2.GpioLine.SetConfig` | include/piduino/gpio2.h:985-1003 | remembers the configuration even when refused; hands it over only when open |
| `GpioDev2.GpioLine.SetDebounce` | include/piduino/gpio2.h:1165-1189 | as its specification function, with the result the source returns |
| `GpioDev2.Device.DoOpen` | src/gpio/gpio_dev2.cpp:343-357 | the open step of the runs |
| `GpioDev2.Device.DoClose` | src/gpio/gpio_dev2.cpp:360-373 | the close step: line closed, stored output forgotten |
| `GpioDev2.Device.DoSetMode` | src/gpio/gpio_dev2.cpp:126-158 | the set-mode step; throws without effect unless input or output |
| `GpioDev2.Device.DoSetPull` | src/gpio/gpio_dev2.cpp:162-193 | the set-pull step; throws without effect on an unknown pull |
| `GpioDev2.Device.DoWrite` | src/gpio/gpio_dev2.cpp:197-216 | a level written while closed is kept for the next open |
| `GpioDev2.Device.GetMode` | src/gpio/gpio_dev2.cpp:62-90 | the kernel's answer, if it gives one, replaces the remembered mode |
| `GpioDev2.Device.GetPull` | src/gpio/gpio_dev2.cpp:94-122 | the kernel's answer, if it gives one that names a pull, replaces the remembered one |
| `GpioDev2.Device.SetPinEdge` | src/gpio/gpio_dev2_p.h:59-84 | rebuilds the configuration and adds the edges; false without an edge or when refused |
| `GpioDev2.Device.DoArm` | src/gpio/gpio_dev2.cpp:256-266 | the arming step: edges, then debounce |
| `GpioDev2.Device.Replay` | src/gpio/gpio_dev2.cpp:50-266 | in every run on a device object each configuration its line handed over has one direction and one bias, and those it was settled on if nothing set them anew |
| `GpioIsr.StepKeepsInv` | src/gpio/gpio_dev2.cpp:422-479 | every step of caller and thread keeps the life-cycle invariant |
| `GpioIsr.PromisesUsedOnce` | src/gpio/gpio_dev2.cpp:422-442 | each promise yields its future at most once and is satisfied at most once, after that |
| `GpioIsr.LineOutlivesThread` | src/gpio/gpio_dev2.cpp:360-373 | the line is open as long as an interrupt thread is live, and no thread outlives the device |
| `GpioIsr.JoinCanMove` | src/gpio/gpio_dev2.cpp:433-442 | a caller in join never leaves the thread without a step that keeps the process alive |
| `GpioIsr.JoinProgresses` | src/gpio/gpio_dev2.cpp:446-463 | whichever step is taken then, it ends the join or brings the thread nearer to its end |
| `GpioIsr.JoinIsReached` | src/gpio/gpio_dev2.cpp:433-479 | on every schedule that goes on that long a caller in join is released within four steps, with the thread and promise replaced |
| `GpioIsr.HistoryKnows` | src/gpio/gpio_dev2.cpp:422-479 | in every run the thread behind the device is what the effective attaches, exceptions and joins say: the first handler attached since the last join, or none after an exception |
| `GpioIsr.CalledOncePerEvent` | src/gpio/gpio_dev2.cpp:446-463 | in every run the handlers entered are those attached when the events arrived, one for each event, in order |
| `GpioIsr.ThreadSteps` | src/gpio/gpio_dev2.cpp:446-479 | only an event enters a handler; a thread that is told nothing goes on waiting for events |
| `GpioIsr.CallsOnLine` | src/gpio/gpio_dev2.cpp:360-373 | detaching, closing and destroying join a thread first if there is one, and only the last two then close the line |
| `GpioIsr.AttachAnswer` | src/gpio/gpio_dev2.cpp:422-430 | attach answers true; this handler is served exactly when nobody was attached since the last join or it was itself, and some thread is live exactly unless the attached handler was lost to an exception |
| `GpioIsr.AttachAfterThrow` | src/gpio/gpio_dev2.cpp:446-479 | a handler that throws anything but a system error leads to a true answer with no thread |
| `GpioIsr.SecondHandlerIgnored` | src/gpio/gpio_dev2.cpp:422-430 | attaching a second handler is answered true and the first one goes on being served |
| `Tokens.Split` | src/converter.cpp:619-639 | the pieces between delimiters, without the empty ones on request |
| `Tokens.SplitKeepsAll` | src/converter.cpp:619-639 | by default nothing is dropped, the tokens join back to the text and none contains the delimiter |
| `Tokens.KeptNonEmpty` | src/converter.cpp:619-639 | on request the empty tokens are left out, and no others |
| `Tokens.KeptAppend` | src/converter.cpp:619-639 | and the order is kept |
| `Tokens.JoinInvertsSplit` | src/converter.cpp:619-639 | joining what was split gives back the text |
| `Tokens.SplitInvertsJoin` | src/converter.cpp:619-639 | splitting a join of delimiter-free tokens gives back the tokens |
| `ConverterParameters.Parameters.Parse` | src/converter.cpp:641-663 | the tokens without '=' stay, in order; the others become the map |
| `ConverterParameters.SettingIsLast` | src/converter.cpp:646-650 | a key holds the value of its last token, cut at the first '=' |
| `ConverterParameters.NoSetting` | src/converter.cpp:646-650 | no other key is in the map |
| `ConverterParameters.ParseInvertsRender` | src/converter.cpp:641-663 | a map rendered as key=value tokens, after any other tokens, parses back to the map and those tokens |
| `ConverterParameters.DeviceStringRoundTrip` | src/converter.cpp:36-60 | a device string gives back its name, plain parameters and settings |
| `StringReplace.RoundTrades` | src/string.cpp:118-121 | one replacement trades the characters of one string for those of the other |
| `StringReplace.MutableString.Replace` | src/string.cpp:114-122 | ends, with no occurrence left, when `str1` does not occur, some character occurs more often in it than in `str2`, the two differ at the same length, or `str2` does not contain `str1` and overlaps it on one side at most |
| `StringReplace.RoundMoves` | src/string.cpp:118-121 | a replacement of the same length moves the string one way in the dictionary |
| `StringReplace.RoundAdvances` | src/string.cpp:118-121 | a replacement that begins with nothing `str1` ends with, and does not contain it, leaves less of the string behind the next occurrence |
| `StringReplace.RoundSweeps` | src/string.cpp:118-121 | a replacement that ends with nothing `str1` begins with, and does not contain it, leaves less of the string to look at, or as much and a shorter part before it |
| `StringReplace.FindIsFirst` | src/string.cpp:118 | the search misses no earlier occurrence |
| `StringReplace.ShorterDwindles` | src/string.cpp:114-122 | in particular it ends for every shorter replacement |
| `StringReplace.NeverEnds` | src/string.cpp:114-122 | it never ends when `str1` occurs in the string and in `str2` |
| `StringReplace.EndsExactly` | src/string.cpp:114-122 | for `str2` no longer than `str1`, or overlapping it on one side at most: it ends exactly when `str1` does not occur in the string or not in `str2` |
| `IPAddresses.ValueOnlyGrows` | src/arduino/IPAddress.cpp:49-53 | rejecting on the running value agrees with the final value |
| `IPAddresses.AcceptedFields` | src/arduino/IPAddress.cpp:42-75 | what is accepted, character by character: four fields of at most 255, digits only, between three dots |
| `IPAddresses.IPAddress.FromString` | src/arduino/IPAddress.cpp:42-75 | true exactly for four dotted digit fields of value at most 255, whose values are then the bytes; accepted or refused, a byte that changed holds the value of its own field |
| `IPAddresses.IPAddress.PrintTo` | src/arduino/IPAddress.cpp:91-99 | the four bytes in decimal with dots, and the number of characters |
| `IPAddresses.ReadInvertsPrint` | src/arduino/IPAddress.cpp:42-99 | reading the printed text gives back the address |
| `IPAddresses.PrintedIsDecOctet` | src/arduino/IPAddress.cpp:91-99 | a printed byte is a dec-octet of section 3.2.2 of RFC 3986, without needless zeros |
| `IPAddresses.PrintedIsStandard` | src/arduino/IPAddress.cpp:91-99 | so a printed address is an IPv4address there |
| `IPAddresses.StandardIsAccepted` | src/arduino/IPAddress.cpp:42-75 | every IPv4address of section 3.2.2 of RFC 3986 is accepted |
| `IPAddresses.AcceptsMoreThanStandard` | src/arduino/IPAddress.cpp:42-75 | so are texts outside the standard, such as three dots |

## Left out

- StringReplace.MutableString.Replace: for a longer replacement that overlaps `str1` on both sides, termination is proved when some character occurs more often in `str1`, and non-termination when `str1` occurs in it; between the two it can depend on the whole string, and no condition on a single such rewriting rule that a caller could evaluate is known.
- Max7311Driver.Receive: I2C frames and device addresses are not modelled; one call is one transfer of one or two registers of a bank.
- GpioIsr.JoinIsReached: a handler counts as one step; one that never returns is not modelled, nor what a handler does to its own device. That a device error, or a handler's `std::system_error`, ends the process is modelled.
- Print.FromDouble: floating-point rounding is not modelled.
- The bounded read and the multi-element peeks of `ThreadSafeBuffer`, and its `iterate`.
- `TSQueue::empty` and `TSQueue::size`, which only read under the mutex.
- Opening a GPIO device with the mode `NotOpen`; error codes and messages of devices.
- `String` members other than the two printers and `replace`; the remaining `print` and `println` overloads, which only forward.
- `LinearBuffer`, `Fifo`, the mode-flag helpers of `Converter`, the option parser, and the MCP4725, MCP4728 and MAX1161x drivers.
- Terminal, file, scheduler, clock, log, database and board descriptor code: system calls and tables.
