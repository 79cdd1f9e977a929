# Hammer shared-memory clients: a verified model

This project models, in Dafny, the parts of the Hammer clients whose correctness is hard to see:
code that shares memory with another process. `dafny verify dfyconfig.toml` checks the whole project.

**The shared queue** (`Queue*.dfy`). `QueueProtocol` is a transition system: any number of threads
call `add`, `add2`, `sub` and `sub2` in any wait mode, interleaved at every shared access, with
spurious wake-ups, timeouts, failed notifications and owners that die anywhere. `QueueSafety`,
`QueueFifo`, `QueueWakeup` and `QueueRuns` prove what every step keeps and what every run therefore
shows. `QueueStorage` is the same queue as the code has it, three counters and one flat byte buffer
changed in place, tied to the transition system by the slot view. Two promises turn out to have
exact limits. The FIFO equations hold exactly as long as no owner has died between an index store and
the size update. And a sleeping `add2` is never left asleep beside room for its pair exactly when the
queue is full at the moment one looks, because `sub` signals only when it leaves the full state;
`QueueLostWakeup` holds the theorem and a run that loses the wake-up. `QueueVerdicts` says of every run
who may be refused, time out or wait, from the caller's mode and the occupancy alone, and
`QueueSleepers` shows that willing callers do fall asleep.

**The wire codec** (`Codec*.dfy`, `Messages.dfy`, `MessageTable.dfy`). Schemas and values are data
types; a pure recursive encoder and decoder are the specification; the serializer and deserializer,
with their offset, element count, field list and token flag saved and restored around nested calls,
are classes proved against it. The round trip holds for exactly the well-formed schemas, and the
proof constructs a value that fails for every other one. Every accepted input is an encoding exactly
when the schema has no boolean. `CodecWire` describes the bytes on the wire by position, without the
encoder, and proves that encoder and decoder implement exactly that description.

**Declaration identity** (`Crc.dfy`, `Declaration*.dfy`). The compile-time loops compute the CRC-32
of section 8 of RFC 1952 over one rendered text. The reference is the table-driven form of that
document, with its own constant, not the code's loop; `CrcCheck` adds the generator polynomial and the
published check value. `DeclarationReader` is a parser of the rendered text, written from its grammar,
that gets the declaration back.

**The stats reader** (`Stats*.dfy`, `NodeProjection.dfy`). Every read of a decode names its site, and
a view says which memory that site found, so a decode may see a different memory at each read. The
structure of a segment is everything the writer may change only inside a write section; counter
cells are not part of it. A read is put together byte by byte, each byte found at a moment of its own.
The writer sets in-progress, mutates, bumps the epoch and clears in-progress; a run gives the segment
at every moment. An accepted decode equals the decode of one
quiet moment, up to the contents of cells, as long as fewer than 2^64 bumps fall into one attempt,
and `StatsWrap` shows that this condition cannot be dropped. `StatsPublish` describes a published
segment without the reader and proves that the reader gets back what stands there.

**The API connection** (`Api*.dfy`, `Contexts.dfy`). A client's calls run against a scripted outside
world: what each poll of the response queue finds, and what each send meets. A ledger gives every
buffer its place, and each operation demands the place it needs, so a double free, a use after
hand-over or a read of a released queue would be a failed precondition. `ApiEvents` says what each poll
means from the popped bytes alone, and which poll decides each waiting loop; the calls are proved
against it. There is no claim that a call eventually succeeds, because after a timeout a stale reply
makes the next call fail.

Assumptions: memory accesses are sequentially consistent; the mutex, the condition variable and the
notification are primitives; each copy of the stats header is one indivisible step, and no other read
of the segment is; the byte order of the host is little endian and a machine word has 64 bits.
Deadlines and timeouts are nondeterministic outcomes.

## Model

| member | source | states |
|---|---|---|
| `QueueSafety.SafeStep` | rust/crates/hammer-shmem/src/queue.rs:281-361 | Every step of every thread keeps the ring in bounds, the lock exclusive, the lock holder's position consistent with the counters, and the committed part of every running and returned call exact |
| `QueueFifo.StepRefinesFifo` | rust/crates/hammer-shmem/src/queue.rs:504-549 | Each step appends one element to, removes the front element from, or leaves alone an abstract bounded queue; only a death between an index store and the size update is excluded |
| `QueueFifo.AroundIsMod` | rust/crates/hammer-shmem/src/queue.rs:624-662 | The wrap-around increment of the code is addition modulo the capacity |
| `QueueRuns.AlwaysGood` | rust/crates/hammer-shmem/src/queue.rs:281-361 | Every state of every run, with owners dying anywhere, satisfies the whole invariant |
| `QueueRuns.FifoAlways` | rust/crates/hammer-shmem/src/queue.rs:281-361 | In every run without a tearing death, whenever the mutex is not held, tail = (head + cursize) mod maxsize and the dequeued history followed by the live slots is the enqueued history |
| `QueueRuns.TearBreaksFifo` | rust/crates/hammer-shmem/src/queue.rs:624-662 | A death between the index store and the size update of a queue of two or more slots breaks the tail equation from any state that satisfied the invariant |
| `QueueRuns.FifoExactly` | rust/crates/hammer-shmem/src/queue.rs:624-662 | Over every run, the tail equation and the history equation hold at every unheld moment up to `i` if and only if no death has fallen between an index store and its size update before `i` |
| `QueueLostWakeup.TearIsReached` | rust/crates/hammer-shmem/src/queue.rs:624-638 | A run that ends with such a death, and with the tail equation broken |
| `QueueRuns.PairsAlways` | rust/crates/hammer-shmem/src/queue.rs:525-549 | The two elements of an `add2` are adjacent in the enqueued history of every run, unless the owner died between them |
| `QueueWakeup.PairsStep` | rust/crates/hammer-shmem/src/queue.rs:525-549 | Every step keeps adjacent pairs adjacent, or pending under the lock holder, or orphaned by a death |
| `QueueRuns.AttachNeverRejects` | rust/crates/hammer-shmem/src/queue.rs:201-235 | All checks of `attach`, on the counters each read at a different moment of any run with any deaths and on the allocation size, accept a live queue in an allocation of at least the computed size |
| `QueueLayout.NeverOverflows` | rust/crates/hammer-shmem/src/queue.rs:145-155 | The checked size computation refuses a 32-bit geometry only for a zero dimension: it never overflows a machine word, and is 120 bytes more than the elements |
| `QueueRuns.GeometryFixed` | rust/crates/hammer-shmem/src/queue.rs:201-235 | Capacity and element size never change during a run |
| `QueueRuns.CommitExact` | rust/crates/hammer-shmem/src/queue.rs:476-496 | From the moment a call returns, for ever, the two histories hold its elements exactly once if it returned success or an after-commit error, and none of them otherwise, in all wait modes |
| `QueueRuns.ResultsForever` | rust/crates/hammer-shmem/src/queue.rs:476-496 | What a returned call contributed, and what it returned, never changes afterwards |
| `QueueRuns.FreedExactlyWhenUnseen` | rust/crates/hammer-binary-api-client/src/client.rs:418-424 | After a failed `add`, the client's `committed` test is true exactly when some consumer can see the element |
| `QueueRuns.NoLostWakeup` | rust/crates/hammer-shmem/src/queue.rs:558-569 | In every run whose due notifications reach the condition variable, whenever the mutex is free an unnotified `sub` sleeper implies an empty queue and an unnotified `add` sleeper a full one |
| `QueueWakeup.AlertStep` | rust/crates/hammer-shmem/src/queue.rs:504-523 | Every step keeps the wake-up invariant, although signals are sent only on the empty and full edges |
| `QueueLostWakeup.PairWakeupExactly` | rust/crates/hammer-shmem/src/queue.rs:525-549 | In every run, whenever the mutex is free and another thread is idle: an unnotified `add2` sleeper is never left with room for its pair, in any continuation that loses no due notification and in which it sleeps on, if and only if the queue is full at that moment |
| `QueueWakeup.BrimmingStep` | rust/crates/hammer-shmem/src/queue.rs:640-662 | Every step keeps the queue full, or about to be announced as no longer full, for as long as some sleeper goes unnotified |
| `QueueRuns.MissedOnlyBy` | rust/crates/hammer-shmem/src/queue.rs:476-496 | The only steps that lose a due notification are a death that owes one, a failed one, and one sent to an event descriptor |
| `QueueLostWakeup.PairSleeperMissed` | rust/crates/hammer-shmem/src/queue.rs:525-549 | An `add2` that slept one short of full is not woken by any other thread's complete `sub`, though two slots are then free |
| `QueueLostWakeup.PairWakeupIsLost` | rust/crates/hammer-shmem/src/queue.rs:651-660 | A complete run without deaths or failed notifications that ends with an empty queue, a free mutex and an `add2` still asleep |
| `QueueVerdicts.RefusedOnlyIfUnwilling` | rust/crates/hammer-shmem/src/queue.rs:504-549 | Over every run, `QueueFull` and `Empty` are returned only to a no-wait call, to `sub2`, and to an `add2` on a queue of fewer than two slots; `Timeout` only to a timed one, `LockBusy` only to a no-wait call other than `sub2`, a wait failure only to a call that may wait, and a length error only for a wrong length |
| `QueueVerdicts.SleepsOnlyIfWilling` | rust/crates/hammer-shmem/src/queue.rs:321-361 | Over every run, whoever sleeps or spins asked to wait, is not a `sub2`, and found too little room when it looked |
| `QueueVerdicts.VerdictsStep` | rust/crates/hammer-shmem/src/queue.rs:281-361 | Every step of every thread keeps all running calls and all recorded results justified by their mode, their operation and the occupancy |
| `QueueVerdicts.InvokeDecides` | rust/crates/hammer-shmem/src/queue.rs:281-314 | A call whose elements or buffer are not exactly as long as the queue's elements is refused at once and touches nothing; any other goes for the lock |
| `QueueVerdicts.SignalDecides` | rust/crates/hammer-shmem/src/queue.rs:476-496 | Only on an edge, the notification goes to that side's descriptor if there is one and otherwise to every sleeper; a failed one makes the call report its commit |
| `QueueVerdicts.TestDecides` | rust/crates/hammer-shmem/src/queue.rs:504-549 | With room a call goes ahead; without, it gives the mutex up and waits if it may, and leaves with its refusal if it may not |
| `QueueVerdicts.LockDecides` | rust/crates/hammer-shmem/src/queue.rs:450-474 | A held mutex answers `LockBusy` to no-wait calls other than `sub2` and keeps all others waiting; a free one is taken; a dead owner's is handed back with an error and no effect |
| `QueueVerdicts.RelockDecides` | rust/crates/hammer-shmem/src/queue.rs:558-611 | After a wait a late caller is told so, any other looks again, and a dead owner's mutex ends the call with an error and no effect |
| `QueueSleepers.WillingCallSleeps` | rust/crates/hammer-shmem/src/queue.rs:558-569 | From every state with the mutex free, a call that may wait and finds too little room is asleep and unnotified three steps later, with the ring untouched |
| `QueueSleepers.SubSleeperReached` | rust/crates/hammer-shmem/src/queue.rs:321-345 | In both waiting modes, a run that ends with an unnotified `sub` asleep on an empty queue |
| `QueueSleepers.AddSleeperReached` | rust/crates/hammer-shmem/src/queue.rs:504-523 | In both waiting modes, a run of two complete `add`s that ends with a third asleep and unnotified on the full queue |
| `QueueStorage.MicroStepsCompose` | rust/crates/hammer-shmem/src/queue.rs:624-638 | The transition system's three write steps compose to the one effect the storage method is proved against |
| `QueueStorage.ReadStepsCompose` | rust/crates/hammer-shmem/src/queue.rs:640-662 | The same for the two steps of a read |
| `QueueStorage.SlotsUpdate` | rust/crates/hammer-shmem/src/queue.rs:624-638 | Writing the bytes of one slot of the flat buffer replaces that slot of the slot view and no other |
| `QueueStorage.SvmQueue.constructor` | rust/crates/hammer-shmem/src/queue.rs:158-199 | A new queue of a valid geometry is empty, in bounds and owns its buffer |
| `QueueStorage.Init` | rust/crates/hammer-shmem/src/queue.rs:158-199 | Initialization refuses exactly a zero capacity or a zero element size, each with its own error, and otherwise yields an empty queue of that geometry |
| `QueueStorage.SvmQueue.StoreSlot` | rust/crates/hammer-shmem/src/queue.rs:628-631 | Copying an element into the flat buffer changes exactly one slot |
| `QueueStorage.SvmQueue.WriteOne` | rust/crates/hammer-shmem/src/queue.rs:624-638 | The in-place write has the effect of the abstract write on the slot view |
| `QueueStorage.SvmQueue.SubNolock` | rust/crates/hammer-shmem/src/queue.rs:640-662 | An empty queue is left alone; otherwise the head element is returned, head and size move, and the full edge decides the notification |
| `QueueStorage.SvmQueue.AwaitRoom` | rust/crates/hammer-shmem/src/queue.rs:506-516 | The wait loop ends with the room asked for, or fails without touching the queue; it never waits when there is room, and refuses at once without waiting in no-wait mode |
| `QueueStorage.SvmQueue.AddNolock` | rust/crates/hammer-shmem/src/queue.rs:504-523 | Commits once on success or an after-commit error, to the queue the last wait left; otherwise leaves it untouched; a queue with room is never refused |
| `QueueStorage.SvmQueue.Add2Nolock` | rust/crates/hammer-shmem/src/queue.rs:525-549 | Both elements in order or neither, under one notification on the empty edge; a one-slot queue is refused |
| `QueueStorage.SvmQueue.SubInto` | rust/crates/hammer-shmem/src/queue.rs:321-345 | The head element of the queue the last wait left, with the notification on the full edge; otherwise nothing is touched; a non-empty queue is never refused |
| `CodecLaws.EncodeSize` | rust/crates/hammer-binary-api-protocol/src/codec.rs:52-62 | Encoding fails exactly when a blob or string is 2^32 bytes or longer, and its length is the measured size in either byte order |
| `CodecLaws.RoundTrip` | rust/crates/hammer-binary-api-protocol/src/codec.rs:148-172 | The encoding of any value of an agreeing schema, wherever it stands and whatever follows, decodes to that value and to the first byte after it |
| `CodecLaws.DecodeLocal` | rust/crates/hammer-binary-api-protocol/src/codec.rs:131-172 | Decoding depends on nothing past the bytes it consumes |
| `CodecLaws.DecodeMeasured` | rust/crates/hammer-binary-api-protocol/src/codec.rs:389-436 | Every accepted input yields a value of the schema and consumes exactly that value's measured size |
| `CodecLaws.PrefixRejected` | rust/crates/hammer-binary-api-protocol/src/codec.rs:131-172 | Every strict prefix of an encoding is rejected |
| `CodecWire.EncodeExactly` | rust/crates/hammer-binary-api-protocol/src/codec.rs:175-245 | The encoder has a result exactly for the values that have a wire form, and its bytes are that form, described by position: an integer's two's complement most significant byte first, least first in the field named "client_index", a boolean 0 or 1, a float its eight bytes, a blob or string four length bytes and its bytes, fields one after the other |
| `CodecWire.DecodeExactly` | rust/crates/hammer-binary-api-protocol/src/codec.rs:346-436 | The decoder accepts exactly the bytes that are a wire form, and returns the value they are the form of; array elements are read without the token flag, occupy bytes, and any nonzero byte is true |
| `CodecWire.WrittenOnce` | rust/crates/hammer-binary-api-protocol/src/codec.rs:175-245 | A value has no two written forms |
| `CodecExact.RoundTripExactly` | rust/crates/hammer-binary-api-protocol/src/codec.rs:316-322 | Every value of a schema survives the round trip if and only if the schema is well formed: array elements occupy bytes, and the byte order chosen by the writer agrees with the one the reader chooses |
| `CodecExact.TokenArrayFails` | rust/crates/hammer-binary-api-protocol/src/codec.rs:488-492 | A multi-byte array in the token field is encoded in one byte order and decoded in the other: a concrete schema and value |
| `CodecExact.Spoils` | rust/crates/hammer-binary-api-protocol/src/codec.rs:479-503 | For every schema outside the boundary the constructed value does not come back |
| `CodecCanonical.DecodeCanonical` | rust/crates/hammer-binary-api-protocol/src/codec.rs:389-436 | For schemas without booleans, every accepted input is the encoding of the value it decodes to |
| `CodecCanonical.CanonicalExactly` | rust/crates/hammer-binary-api-protocol/src/codec.rs:389-391 | A well-formed schema accepts nothing but encodings if and only if it holds no boolean at any depth |
| `CodecCanonical.HasTwins` | rust/crates/hammer-binary-api-protocol/src/codec.rs:389-391 | Every well-formed schema with a boolean has a value with a second accepted form of the same length, which decodes to that value wherever it stands |
| `CodecMachines.Deserializer.Read` | rust/crates/hammer-binary-api-protocol/src/codec.rs:131-141 | Takes exactly the bytes asked for or fails without moving |
| `CodecMachines.Deserializer.DeserializeLegacy` | rust/crates/hammer-binary-api-protocol/src/codec.rs:121-130 | The legacy form restores the cursor's element count whatever happens |
| `CodecMachines.Deserializer.Deserialize` | rust/crates/hammer-binary-api-protocol/src/codec.rs:389-460 | The stateful deserializer returns what the pure decoder returns and ends where it ends, leaving count, names and token flag as they were, on success and on failure |
| `CodecMachines.Deserializer.Sequence` | rust/crates/hammer-binary-api-protocol/src/codec.rs:148-172 | A nested sequence refines the pure sequence decoder and restores `remaining`, `fields` and `opaque` on success and on failure |
| `CodecMachines.Deserializer.VisitSeq` | rust/crates/hammer-binary-api-protocol/src/codec.rs:533-580 | The element loop refines the pure element decoder |
| `CodecMachines.Deserializer.NextElement` | rust/crates/hammer-binary-api-protocol/src/codec.rs:479-503 | One element, under the token flag its position gives it; an unnamed element that consumes nothing is an error |
| `CodecMachines.Serializer.Write` | rust/crates/hammer-binary-api-protocol/src/codec.rs:77-97 | Writes inside the buffer or fails leaving it alone; without a buffer it only counts |
| `CodecMachines.Serializer.Serialize` | rust/crates/hammer-binary-api-protocol/src/codec.rs:175-245 | The stateful serializer succeeds exactly when the pure encoding exists and fits, puts exactly those bytes at its offset, and touches nothing before it |
| `CodecMachines.Serializer.SerializeField` | rust/crates/hammer-binary-api-protocol/src/codec.rs:309-327 | The field's name sets the token flag for that field only |
| `CodecMachines.Serializer.SerializeElements` | rust/crates/hammer-binary-api-protocol/src/codec.rs:329-345 | The fields of a struct or elements of a tuple, in order, as the pure encoder has them |
| `Messages.AddressRoundTrip` | rust/crates/hammer-binary-api-protocol/src/memory.rs:106-165 | The address of an allocated message reads back as that message, with its length modulo 2^32: exactly itself if and only if it is shorter than 2^32 bytes |
| `Messages.FromAddress` | rust/crates/hammer-binary-api-protocol/src/memory.rs:137-165 | An accepted address lies in the region with its whole prefix and payload, aligned |
| `Messages.AddressExactly` | rust/crates/hammer-binary-api-protocol/src/memory.rs:137-165 | An address is accepted with length `n` exactly when its sixteen-byte prefix is aligned and mapped, bytes 8 to 11 of the prefix hold `n` most significant first, and `n` bytes fit behind it |
| `Messages.MessageRoundTrip` | rust/crates/hammer-binary-api-protocol/src/memory.rs:176-194 | A message encoded and decoded is the same message with nothing left over |
| `Messages.DecodeMessage` | rust/crates/hammer-binary-api-protocol/src/memory.rs:184-194 | A decoded message accounts for every payload byte |
| `Messages.MessageIdIsFirstField` | rust/crates/hammer-binary-api-client/src/client.rs:413-416 | The id read from any encoded message is its first field |
| `Messages.MessageIdBytes` | rust/crates/hammer-binary-api-client/src/client.rs:413-416 | The id is the first two bytes, most significant first |
| `Messages.MessageExactly` | rust/crates/hammer-binary-api-protocol/src/memory.rs:184-194 | A message decodes to a value exactly when its whole payload is a wire form of that value |
| `Messages.MsgBuf.Encode` | rust/crates/hammer-binary-api-protocol/src/memory.rs:176-182 | Encoding into the buffer puts down the pure encoding and nothing else, and raises the initialized length to cover it |
| `Messages.MsgBuf.Decode` | rust/crates/hammer-binary-api-protocol/src/memory.rs:184-194 | Only an initialized payload is decoded, and as the pure decoder decodes it |
| `Messages.Measure` | rust/crates/hammer-binary-api-protocol/src/codec.rs:52-62 | The measured length is the size of the encoding, for every encodable value |
| `Messages.Prepare` | rust/crates/hammer-binary-api-client/src/client.rs:297-302 | Once measuring succeeds the encode step cannot fail: the buffer is filled to its last byte with exactly the encoding, so no allocation is lost there |
| `MessageTable.IntRoundTrip` | rust/crates/hammer-binary-api-protocol/src/table.rs:31-49 | Every 64-bit value written in its form reads back, whatever follows |
| `MessageTable.ShortFormsPartition` | rust/crates/hammer-binary-api-protocol/src/table.rs:31-49 | The one-, two- and four-byte forms cover [0, 2^29 + 16512) with exactly one form per value, and reach no further |
| `MessageTable.TwoByPosition` | rust/crates/hammer-binary-api-protocol/src/table.rs:36-38 | The two-byte form: six low bits in the first byte, eight more in the second, 128 added |
| `MessageTable.FourByPosition` | rust/crates/hammer-binary-api-protocol/src/table.rs:39-44 | The four-byte form: five low bits in the first byte, then three bytes least significant first, 16512 added |
| `MessageTable.LongByPosition` | rust/crates/hammer-binary-api-protocol/src/table.rs:45-48 | The nine-byte form: the value's eight bytes behind the first, least significant first |
| `MessageTable.TableCount` | rust/crates/hammer-binary-api-protocol/src/table.rs:6-21 | The table has as many entries as its first four bytes say, most significant first |
| `MessageTable.EntryByPosition` | rust/crates/hammer-binary-api-protocol/src/table.rs:12-19 | An entry is its id, the length of its name, and the name |
| `MessageTable.TableRoundTrip` | rust/crates/hammer-binary-api-protocol/src/table.rs:6-21 | A written table of any length reads back whole and in order, whatever follows it |
| `MessageTable.DeserializeMessageTable` | rust/crates/hammer-binary-api-protocol/src/table.rs:6-21 | The loop over the advancing slice reads what the pure reader reads |
| `MessageTable.Slice.ReadInteger` | rust/crates/hammer-binary-api-protocol/src/table.rs:31-49 | The in-place integer reader follows the pure one and leaves what it leaves |
| `Crc.BitwiseIsCrc32` | rust/crates/hammer-binary-api-protocol/src/api.rs:112-130 | The bit-by-bit loop computes the table-driven CRC-32 of section 8 of RFC 1952 |
| `CrcCheck.PolynomialIsGenerator` | rust/crates/hammer-binary-api-protocol/src/api.rs:112-120 | The constant of the loop has exactly the coefficients of x^32 + x^26 + x^23 + x^22 + x^16 + x^12 + x^11 + x^10 + x^8 + x^7 + x^5 + x^4 + x^2 + x + 1, reflected |
| `CrcCheck.TurnMultiplies` | rust/crates/hammer-binary-api-protocol/src/api.rs:112-120 | One turn of the loop multiplies the register, read as a polynomial, by x modulo that generator, coefficient by coefficient |
| `CrcCheck.CheckValue` | rust/crates/hammer-binary-api-protocol/src/api.rs:112-130 | The CRC of "123456789" is the published check value 0xcbf43926 |
| `Crc.ByteCrc` | rust/crates/hammer-binary-api-protocol/src/api.rs:112-120 | The eight-round loop is the byte step |
| `Crc.TextCrc` | rust/crates/hammer-binary-api-protocol/src/api.rs:122-130 | The text loop folds the byte step |
| `Crc.ByteStepBijective` | rust/crates/hammer-binary-api-protocol/src/api.rs:112-120 | For each byte, every register value is reached from exactly one register value |
| `Crc.ByteInjective` | rust/crates/hammer-binary-api-protocol/src/api.rs:112-120 | For each register, different bytes give different registers |
| `Crc.BurstDetected` | rust/crates/hammer-binary-api-protocol/src/api.rs:122-130 | Two equal-length texts that differ only within four consecutive bytes, in particular in one byte, always have different CRCs |
| `Declaration.DigitsAreDecimal` | rust/crates/hammer-binary-api-protocol/src/api.rs:137-149 | The digits taken from the top divisor down are the decimal form |
| `Declaration.DecimalReads` | rust/crates/hammer-binary-api-protocol/src/api.rs:137-149 | The decimal form reads back as the number it was made from |
| `Declaration.IntegerCrc` | rust/crates/hammer-binary-api-protocol/src/api.rs:137-149 | The digit loop feeds exactly the decimal form of every 64-bit value, and its divisor never overflows |
| `DeclarationCrc.ComputeIsVla` | rust/crates/hammer-binary-api-protocol/src/api.rs:64-83 | The loop decides whether some field makes the declaration variable-length |
| `DeclarationCrc.Validate` | rust/crates/hammer-binary-api-protocol/src/api.rs:85-102 | The nested loops accept exactly the declarations in which only the last field is variable-length |
| `DeclarationCrc.BlockCrc` | rust/crates/hammer-binary-api-protocol/src/api.rs:151-203 | The loops over fields and enumerators feed the rendered block |
| `DeclarationCrc.Fold` | rust/crates/hammer-binary-api-protocol/src/api.rs:205-217 | The recursive fold feeds the dependencies depth first in field order |
| `DeclarationCrc.DeclarationCrc` | rust/crates/hammer-binary-api-protocol/src/api.rs:104-110 | A valid declaration's identity is the CRC-32 of one text, the block followed by its dependencies; an invalid one has none |
| `DeclarationReader.TreeReads` | rust/crates/hammer-binary-api-protocol/src/api.rs:151-217 | A reader written from the text's grammar, with its own quotes, brackets, separators, "vl_api_", "_t" and "None", gets back from the rendered text of any declaration without quotes in its names, whatever follows, every field with type, reference, name, length and counting field, every enumerator with its value, and the trees of all referenced types in order |
| `DeclarationReader.FieldReads` | rust/crates/hammer-binary-api-protocol/src/api.rs:160-183 | The same for one field |
| `DeclarationReader.ValueReads` | rust/crates/hammer-binary-api-protocol/src/api.rs:187-200 | The same for one enumerator, negative values included |
| `DeclarationReader.TextDetermines` | rust/crates/hammer-binary-api-protocol/src/api.rs:205-217 | So declarations with one text have the same fields, enumerators and dependencies; an alias and an empty block look alike |
| `DeclarationReader.AsciiReads` | rust/crates/hammer-binary-api-protocol/src/api.rs:122-130 | The bytes hashed are the codes of the text's characters |
| `StatsSegment.CropRows` | rust/crates/hammer-stats-protocol/src/protocol.rs:331-343 | The crop loop keeps one column of every row, and fails exactly when some row is too short |
| `StatsSegment.PushAll` | rust/crates/hammer-stats-client/src/client.rs:159-166 | The loop by which names, rows and cells are pushed gathers one reading per index and stops at the first failure |
| `StatsPublish.VectorResolves` | rust/crates/hammer-stats-protocol/src/protocol.rs:364-398 | A vector whose length stands in front of its data resolves to that data and length |
| `StatsPublish.CounterReads` | rust/crates/hammer-stats-client/src/client.rs:167-188 | A combined cell reads as the packets in its first word and the bytes in its second |
| `StatsPublish.TextReads` | rust/crates/hammer-stats-client/src/client.rs:254-288 | A terminated UTF-8 string behind a pointer reads as that string |
| `StatsPublish.PaddedName` | rust/crates/hammer-stats-protocol/src/protocol.rs:224-235 | A name of at most 126 bytes, zero-terminated and zero-padded, is the name the entry validates to |
| `StatsPublish.NameExactly` | rust/crates/hammer-stats-protocol/src/protocol.rs:224-235 | An entry's 128-byte name field validates to a name exactly when it is that name, valid UTF-8 of at most 126 nonzero bytes, followed by zeros only |
| `StatsPublish.ListingReads` | rust/crates/hammer-stats-client/src/client.rs:56-64 | The names standing in a directory are listed exactly, in order |
| `StatsPublish.PublishedIsRead` | rust/crates/hammer-stats-client/src/client.rs:70-80 | A scalar, gauge, simple, combined or name metric laid out in memory under a name is read back exactly, by the first entry of that name |
| `StatsPublish.UnpublishedIsMissing` | rust/crates/hammer-stats-client/src/client.rs:305-316 | A name no entry carries is reported as not found |
| `StatsPublish.LinkIsRead` | rust/crates/hammer-stats-protocol/src/protocol.rs:265-274 | A link's data word splits into target and column, and the link reads as that column of the metric laid out for the target |
| `StatsStructure.ReadAlike` | rust/crates/hammer-stats-client/src/client.rs:70-80 | A read whose every access finds a different memory of one structure has the same error, or the same kind, rows, row lengths and names, as on any single memory of that structure; the scan, the validation and the copy of a string are separate accesses |
| `StatsStructure.NamesSame` | rust/crates/hammer-stats-client/src/client.rs:56-64 | Under the same conditions the listing is exactly the same |
| `StatsStructure.DecodeAlike` | rust/crates/hammer-stats-client/src/client.rs:128-203 | The same for one entry followed through its links |
| `StatsBytes.LayoutComposes` | rust/crates/hammer-stats-client/src/client.rs:291-302 | Bytes found one by one in different memories of one structure make up a memory of that structure |
| `StatsCells.ReadSourced` | rust/crates/hammer-stats-client/src/client.rs:159-188 | Every cell of a value that was read is one reading of that cell of one entry's vector, or of the column the link next to it picked |
| `StatsReader.QuietExactly` | rust/crates/hammer-stats-client/src/client.rs:83-114 | Between idle moments, the epoch is unmoved if and only if no write section intervened and the structure is one |
| `StatsReader.AdmittedExactly` | rust/crates/hammer-stats-client/src/client.rs:90-107 | An attempt the two header copies let through was quiet if and only if the epoch advanced by less than 2^64 during it |
| `StatsReader.RefusedOverlaps` | rust/crates/hammer-stats-client/src/client.rs:90-107 | The header check refuses only attempts that overlap a write section |
| `StatsReader.HeaderWords` | rust/crates/hammer-stats-protocol/src/protocol.rs:136-175 | Version, base, epoch, write-in-progress and directory pointer are the header's five words in that order, least significant byte first |
| `StatsReader.OneVerdict` | rust/crates/hammer-stats-client/src/client.rs:90-109 | From the header bytes, an attempt is exactly one of: repeated, accepted with one value, ended with one error |
| `StatsReader.Attempt` | rust/crates/hammer-stats-client/src/client.rs:90-109 | An attempt is repeated exactly when its opening header, long enough and of version 2, shows a write in progress, or the decode succeeds and the closing header, likewise usable, shows a write in progress or another epoch; it ends with an error exactly for a short mapping, another version, an unresolvable directory or a refused decode |
| `StatsReader.QuietNames` | rust/crates/hammer-stats-client/src/client.rs:83-114 | An attempt no write section touches is accepted, with the listing of its first moment |
| `StatsReader.QuietRead` | rust/crates/hammer-stats-client/src/client.rs:83-114 | The same for `read`, up to the contents of cells |
| `StatsReader.WithPublishedDirectory` | rust/crates/hammer-stats-client/src/client.rs:83-114 | A value is found exactly when some attempt among the first 16 is accepted with it and every earlier one was repeated; it fails exactly when such an attempt ends with an error; it is exhausted exactly when all 16 were repeated |
| `StatsReader.Names` | rust/crates/hammer-stats-client/src/client.rs:56-64 | The outcome is decided by the attempts' headers and decodes as above; accepted names are exactly the names at one idle moment, although every byte was read at a moment of its own; exhaustion means every attempt overlapped a write section |
| `StatsReader.Read` | rust/crates/hammer-stats-client/src/client.rs:70-80 | The outcome is decided as above; an accepted value agrees, up to the contents of its cells, with what every moment of its attempt gives, every byte having been read at a moment of its own, and each of its cells is a reading of that cell; exhaustion means every attempt overlapped a write section |
| `StatsReader.CellsAreLive` | rust/crates/hammer-stats-client/src/node_error.rs:14-16 | When the bytes of a cell are read together, each cell of an accepted value is what that same cell held at one moment of the attempt |
| `StatsWrap.WrappedEpochTears` | rust/crates/hammer-stats-client/src/client.rs:103-107 | A writer that follows the protocol through exactly 2^64 bumps during one call of `names`: the empty listing is accepted, though at every moment of the run the directory lists one name |
| `StatsSymlinks.CycleExactly` | rust/crates/hammer-stats-client/src/client.rs:128-156 | A cycle is reported if and only if the first 16 entries on the path are all links |
| `StatsSymlinks.ResolvedValue` | rust/crates/hammer-stats-client/src/client.rs:128-156 | Otherwise the value is the one at the end of the path, cropped by each link's column from the target outward |
| `StatsSymlinks.RealCycle` | rust/crates/hammer-stats-client/src/client.rs:128-156 | A path that returns to an entry is always reported |
| `StatsSymlinks.ChainCrops` | rust/crates/hammer-stats-protocol/src/protocol.rs:314-343 | Along a chain the link next to the target decides the column; all others must say 0 unless there are no rows |
| `StatsSymlinks.CropAgain` | rust/crates/hammer-stats-protocol/src/protocol.rs:314-343 | A cropped value is unchanged by cropping at 0 and refused at any other column, unless it has no rows |
| `NodeProjection.Report` | rust/crates/hammer-stats-client/src/node.rs:134-193 | Absent exactly without the name vector; accepted exactly when the five entries have their types, all counters have one row per thread and one column per node, and the worker count is one less than the rows; panics exactly when everything is rectangular and the thread count does not fit a machine word |
| `NodeProjection.CallsName` | rust/crates/hammer-stats-client/src/node.rs:19-24 | The entry of the calls counter, byte by byte; the other five names likewise |
| `NodeProjection.CheckShape` | rust/crates/hammer-stats-client/src/node.rs:146-174 | The nested shape loops accept exactly the rectangular families |
| `NodeProjection.ColumnsInRange` | rust/crates/hammer-stats-client/src/node.rs:197-199 | After the shape checks every column access is in range |
| `NodeProjection.NodeExactly` | rust/crates/hammer-stats-client/src/node.rs:107-124 | A node is found if and only if its name occupies exactly one slot |
| `NodeProjection.NodeUsed` | rust/crates/hammer-stats-client/src/node.rs:107-124 | Its four counters are that slot's column, one value per thread |
| `NodeProjection.LinkReads` | rust/crates/hammer-stats-client/src/client.rs:145-156 | Reading through a link crops what the target reads as, unless the target is already 15 links deep |
| `NodeProjection.AliasAgrees` | rust/crates/hammer-stats-client/src/client.rs:145-166 | For an accepted report and a uniquely named node, each counter equals the flattened value read through an alias of that counter and slot |
| `Contexts.NextCounter` | rust/crates/hammer-binary-api-client/src/client.rs:288-295 | The increment-and-mask loop, which skips zero, steps to the next counter of the closed form |
| `Contexts.ContextsCoincide` | rust/crates/hammer-binary-api-client/src/client.rs:288-295 | Two contexts are equal if and only if a multiple of 2^31 - 1 requests lies between them |
| `Contexts.ContextAt` | rust/crates/hammer-binary-api-client/src/client.rs:288-295 | Every context has the high bit set and a nonzero low part |
| `ApiMemory.Shared.Free` | rust/crates/hammer-binary-api-protocol/src/memory.rs:201-215 | A held buffer is deallocated, or handed back to its ring if it has one, and is in nobody's hands afterwards |
| `ApiEvents.KeepaliveReads` | rust/crates/hammer-binary-api-protocol/src/memclnt.rs:194-198 | A keepalive is accepted exactly when it is ten bytes long, and its token is the third to sixth, least significant first |
| `ApiEvents.AnswerEncodes` | rust/crates/hammer-binary-api-client/src/client.rs:338-344 | The answer's bytes: its id most significant first, the token with its four bytes turned round, and four zeros |
| `ApiEvents.AwaitedThere` | rust/crates/hammer-binary-api-client/src/client.rs:143-157 | The first message with the awaited id decides, wherever in the script it stands behind empty polls, answered keepalives and messages of other ids: its decoded value, or its decode error |
| `ApiEvents.RepliedThere` | rust/crates/hammer-binary-api-client/src/client.rs:216-236 | The first message that is not an answered keepalive decides `invoke`: a foreign id, an undecodable reply and a foreign context are errors, a matching or missing context is success |
| `ApiEvents.JudgedExactly` | rust/crates/hammer-binary-api-client/src/client.rs:221-236 | A reply is accepted exactly when it has the expected id, decodes, and has this request's context or none |
| `ApiClient.LeftExactly` | rust/crates/hammer-binary-api-client/src/client.rs:267-276 | A departure is accepted exactly when a reply came whose response is not negative |
| `ApiWire.CreateReplyReads` | rust/crates/hammer-binary-api-protocol/src/memclnt.rs:102-109 | The create reply is thirty bytes, with the response at 6, the client index at 18 and the table's address at 22 |
| `ApiWire.DeleteReplyReads` | rust/crates/hammer-binary-api-protocol/src/memclnt.rs:171-175 | The delete reply is fourteen bytes, with the response at 2 |
| `ApiClient.Client.NextContext` | rust/crates/hammer-binary-api-client/src/client.rs:288-295 | Returns the next context of the closed form |
| `ApiClient.Client.SendMessage` | rust/crates/hammer-binary-api-client/src/client.rs:297-313 | The server sees exactly the encoding exactly when the call succeeds; otherwise the error is that of the failing step; a buffer that is not handed over is freed; nothing is lost |
| `ApiClient.Client.AnswerKeepalive` | rust/crates/hammer-binary-api-client/src/client.rs:328-346 | A keepalive is freed whether or not it decodes; one of ten bytes is answered byte for byte with its own token unless the answer cannot be sent, and any other is an error |
| `ApiClient.Client.Poll` | rust/crates/hammer-binary-api-client/src/client.rs:316-357 | One round: what the poll means, said of the popped bytes, decides whether it is passed over, answered, handed to the caller or ends the call with its own error; a buffer is lost exactly when the popped address is invalid, the payload has under two bytes, or `sub` failed after its commit |
| `ApiClient.Client.Receive` | rust/crates/hammer-binary-api-client/src/client.rs:315-358 | The first poll that is neither empty nor an answered keepalive decides the result; every keepalive before it was answered, in order and with nothing else sent; the message returned is the only buffer in hand; a buffer is lost exactly when a bad poll was consumed |
| `ApiClient.Client.Await` | rust/crates/hammer-binary-api-client/src/client.rs:143-157 | The first poll that is not empty, an answered keepalive or a message of another id decides: the awaited message's decoded value, its decode error, the deadline or the failure; all of them are freed, and a buffer is lost exactly when a bad poll was consumed |
| `ApiClient.Client.Invoke` | rust/crates/hammer-binary-api-client/src/client.rs:182-237 | Without agreement on types and ids nothing is sent; otherwise the request sent carries the client's index, its type's id and the next context, and the first message decides the result as `RepliedThere` says; a reply returned arrived during the call with the expected id and this context; every exit leaves no buffer in hand, and one is lost exactly when a bad poll was consumed |
| `ApiClient.Client.Refuse` | rust/crates/hammer-binary-api-client/src/client.rs:187-205 | The checks before anything is sent, each with its own error, pass exactly when both sides agree |
| `ApiClient.Client.TakeReply` | rust/crates/hammer-binary-api-client/src/client.rs:216-236 | The next message that is not a keepalive decides, with the error of each mismatch, and is freed on every branch; a buffer is lost exactly when a bad poll was consumed |
| `ApiClient.Client.Disconnect` | rust/crates/hammer-binary-api-client/src/client.rs:239-282 | With the ids known and the request seen, the first delete reply decides, whatever else arrives before it, and the call succeeds if its response is not negative; on success the session ends and the queue is released once, on failure nothing of it changes; a buffer is lost exactly when a bad poll was consumed |
| `ApiClient.Client.ReleaseQueue` | rust/crates/hammer-binary-api-client/src/client.rs:360-374 | The response queue is released only while it is held, with the layout it was allocated with |
| `ApiClient.ConservedOn` | rust/crates/hammer-binary-api-client/src/client.rs:297-358 | Conservation composes: what is lost over two stretches of a script is lost exactly when either consumed a bad poll |
| `ApiClient.GoodScriptLosesNothing` | rust/crates/hammer-binary-api-client/src/client.rs:297-358 | With valid addresses, payloads of at least two bytes and successful notifications nothing is ever lost |
| `ApiSession.Connect` | rust/crates/hammer-binary-api-client/src/client.rs:118-176 | With memory for the queue and the request seen, the first create reply decides, whatever else arrives before it, and the call succeeds if its response is not negative and its table reads; the client then has that reply's index and ids; a rejected one releases its queue once; the request sent carries the queue's address and the name cut to 63 bytes; no buffer stays in hand, and one is lost exactly when a bad poll was consumed |
| `ApiSession.CollectIndexes` | rust/crates/hammer-binary-api-client/src/client.rs:170-173 | For every table, a name has an id exactly when some entry carries it, and the id is that of the last such entry |
| `ApiSession.OwnReply` | rust/crates/hammer-binary-api-client/src/client.rs:206-236 | With a server that echoes contexts in replies of this id, an accepted reply answers the request it was accepted for, however many stale replies were queued within a window of 2^31 - 1 |
| `ApiSession.InvokeEchoed` | rust/crates/hammer-binary-api-client/src/client.rs:182-237 | The same, stated of the call itself |
| `ApiSession.WindowIsTight` | rust/crates/hammer-binary-api-client/src/client.rs:288-295 | One request further the contexts coincide, so the window cannot be widened |
| `ApiSession.Session` | rust/crates/hammer-binary-api-client/src/client.rs:83-283 | Over any sequence of calls a buffer is lost exactly when a bad poll is consumed, the response queue is released at most once, and after the call that disconnects every later call is refused and leaves the shared memory as it was |
| `ApiSession.WholeRun` | rust/crates/hammer-binary-api-client/src/client.rs:83-283 | The same over connect followed by any calls; with a script of good polls nothing is lost |
| `ApiSession.ShortMessageLeaks` | rust/crates/hammer-binary-api-client/src/client.rs:322-326 | A one-byte message is popped, cannot be identified, and is lost |

## Left out

- Weak memory ordering: steps are sequentially consistent, so the release and acquire annotations carry no meaning here.
- Socket connection, descriptor hand-over, mapping, region probing and `fstat`: operating-system calls without logic of their own.
- The heap: allocation is an outcome, and memory is a set of live buffers.
- Raw mutex and condition-variable internals, `cleanup` and `reset_mutex_for_restart`.
- `advance_ring_head` and its unlocked twin: they move `head` without the size and belong to the server's rings, not to the queue.
- `len`, `is_empty`, `is_full`, `can_send` and the descriptor setters' blocking behaviour: easy observers.
- Event-descriptor waiting is a spinning state that any change of size may end; the wake-up theorem covers condition-variable sleepers only.
- QueueRuns.NoLostWakeup: an `add2` sleeper has its own, exact condition, because the code does lose its wake-up unless the queue is full.
- QueueStorage.SvmQueue.SubInto: starts with the lock held; taking it is part of the transition system. `sub2_into`, which is its no-wait case with a blocking lock, appears only in the transition system.
- Enum variants, options, maps and 128-bit integers of the codec: the serializer refuses them all alike.
- The contents of floating-point values: eight bytes are carried unchanged.
- Messages.AddressRoundTrip: the length field has 32 bits, so longer payloads come back shortened, as the code has it.
- `name_crc`, `file_crc`, `same_name` and `validate_services`: formatting and lookups on top of the CRC.
- DeclarationCrc.DeclarationCrc: a failed compile-time assertion is the outcome `None`.
- The up-front capacity reservation of the message table, which can exhaust memory on a very large count.
- The declared-alignment shift of a stats vector: its result is never used by a read.
- StatsSegment.NameAt: a name pointer past the mapping, on which the code panics, is an error here.
- StatsSegment.DecodeEntry: unsupported and unknown directory types are one error; histograms and rings are refused by the code.
- StatsReader.WithPublishedDirectory: an error is passed on as it is; no claim is made that an error reflects one consistent moment, since the code returns decode errors without rereading the header.
- StatsReader.Read: different cells may be read at different moments of the attempt, so they are not claimed to belong to one moment.
- NodeProjection.Report: the error of a misshapen family does not name the counter and row; the five reads see one unchanging segment in `AliasAgrees` only.
- The memory, buffer-pool, node-error and system projections, including floating-point rates: shape checks and lookups of the same kind.
- ApiSession.Connect: starts after the region is mapped and its header validated; the address of the response queue is a parameter. On failures other than a rejection the response queue is neither released nor read again, as in the code.
- ApiClient.Client.Invoke: what the request type puts into its own fields is a parameter; only the header is filled in here.
- DeclarationReader.TreeReads: for names, types and counting fields without quotes, which the repository's macro guarantees, and for primitive type names that do not themselves look like `vl_api_<name>_t`.
- ApiClient.Client.SendMessage: a header field that keeps a message's length modulo 2^32 is modelled with the buffers, not here.
- Individual message structs, return-value enumerations, RPC services, `hammerctl` and error texts.
