# Hollywood, verified

A Dafny model of the hard parts of Hollywood, an actor runtime for Go, with proofs about every
input, every run or every reachable state of the model. `dafny verify dfyconfig.toml` checks the
whole project.

The model follows the code. Go's integer widths are written out (`int32` wraps, `uint64` is taken
modulo 2^64, an `int` index is 64 bits), a Go panic is a value that a call may end with, and where
Go ranges over a map the model picks the next key arbitrarily, so that a contract holds for every
order. Code that updates state is a class whose methods are proved against functions on values;
the lemmas are about those functions.

Every lemma carries `{:induction false}`, also where no induction is meant. The induction hypothesis that
Dafny 4.11 adds to a lemma by itself can contradict the other assumptions, when a lemma over a sequence with a
recursive predicate also mentions a sequence of another datatype; with it off no proof can rest on that.

| file | what it models |
|---|---|
| `Machine.dfy` | integer widths, results, options |
| `Varint.dfy`, `Wire.dfy`, `Codec.dfy` | the wire format of PID, Message and Envelope as a printer and a parser on byte sequences |
| `Grammar.dfy`, `Truncation.dfy` | the grammar of fields, nested groups included, that skip and the decoders accept, and what they report for input that was cut short or is malformed |
| `Layout.dfy`, `Merging.dfy` | the bytes of each message, tag by tag, and decoding into a value that holds something already |
| `Stability.dfy` | how long a decoded value is when it is encoded again |
| `Marshal.dfy`, `Unmarshal.dfy` | the same as the generated code does it: filling a buffer backwards, moving an index forwards |
| `Dictionary.dfy`, `Stream.dfy` | a batch of deliveries compressed into an Envelope by the stream writer and expanded by the stream reader |
| `Mailbox.dfy`, `RingBuffer.dfy` | the inbox as a protocol of atomic steps, and the circular buffer under it |
| `Delivery.dfy` | in which order the inbox hands out messages, and what a stopped one still does |
| `Supervision.dfy`, `ActorProcess.dfy` | Invoke, tryRestart and Start of one process, mutually recursive through panic recovery; as functions and in place |
| `Replay.dfy` | a flat loop, without nesting or replay buffer, that the recursion refines, and what follows for batches |
| `History.dfy` | what the history of a process looks like, and how it ends when the restarts are used up |
| `Lifecycle.dfy` | the life of receivers over whole runs |
| `Revival.dfy` | what the calls of a process on its own inbox do in the mailbox protocol |
| `Shutdown.dfy` | cleanup of a tree of actors |
| `PidSet.dfy` | the indexed set of PIDs |
| `FirstWins.dfy`, `Membership.dfy`, `Provider.dfy`, `Agent.dfy`, `ClusterRun.dfy` | cluster members, provider, agent, and the two running together |

## Main results

- **Remote round trip.** Compress a batch, marshal, unmarshal, expand: the deliveries come out exactly
  as they went in, in order, if and only if the batch is *faithful* (`Stream.RemoteRoundTrip`). A batch
  is faithful when PIDs with the same hash are equal, the senders are all present or all absent, and
  every payload serializes. `Stream.PhantomDelivery` and `Stream.UnfaithfulBatches` show what happens otherwise.
- **Wire format.** A decoder accepts exactly the printed sequences of fields of a grammar, nested groups
  included, and takes them for what they mean (`Grammar.ScanExact`); `skip` accepts exactly one printed
  field and takes exactly its bytes (`Grammar.SkipExact`). Input cut anywhere gives the whole fields before
  the cut and at most an unexpected end of input (`Truncation.CutShort`). The bytes of each message are
  given tag by tag, sizes are exact, every well-formed value parses back, two encodings in a row decode to
  the two values merged, and re-encoding what was parsed is stable, unknown fields included, with a bound
  on how much it can grow.
- **Mailbox.** In every run no wakeup is lost, every message is accounted for, and an inbox that has come
  to rest unstopped is empty. In every run in which no Start wins its swap while a consumer is still
  there, there is one consumer and delivery is in order; that condition is exact, and a run from the
  initial state that breaks it reaches two consumers. A message sent with priority is delivered before
  everything that was waiting, and what Clear finds is never delivered (`Delivery.PriorityDelivery`,
  `Delivery.ClearForgets`). After a Stop, and until a Start is won, more is taken in some run if and only if
  a thread was about to pop, or about to store idle, at the stop (`Delivery.StopExact`).
- **Supervision.** The nested recursion through panic recovery, with its replay buffer, does what a flat
  loop does that handles one message at a time and reboots after a panic (`Replay.InvokeRefines`). It
  terminates for every value of MaxRestarts, and each counted restart is announced and paid for. From the
  flat loop follow, for every batch and every panic pattern, which messages are attempted, which pill is
  answered, and what a panic inside a graceful drain does: the pill is lost and messages repeat. A panic
  leaves a call only when the limit was announced and the process closed down, right before; restarts are
  announced in turn, and a pill is answered only right after a shutdown (`Lifecycle.WholeLifeIsTidy`).
- **Lifecycle.** Every receiver sees Initialized, Started, messages and then only Stopped, over the whole
  life of a process, if and only if the batches handed to it do not *relapse* (`Lifecycle.LifecycleExact`):
  a batch answers a pill although a handler panicked in it, and one handed over after it asks for a
  message. Such a batch revives the process: it starts the inbox of a process that was shut down. Played in
  the mailbox, the calls of Invoke are a tame run exactly when there is no revival, and a revival leaves two
  consumers (`Revival.RevivalIsUntame`), so that a batch can be handed over after the inbox is off again.
  Without one, an inbox that is off is the end: nothing more is taken from it (`Revival.OffIsTheEnd`).
  `Lifecycle.LifeAfterDeath` gives lives that go wrong.
- **Shutdown** takes down exactly the live subtree, each process once, children first, cancel last. Every
  pill is cancelled exactly once, also that of a child that is gone, and is waited for (`Shutdown.PillsAnswered`,
  `Shutdown.PillsAwaited`).
- **Cluster.** The agent's members are the last snapshot delivered, although it compares IDs only, and
  its tables stay consistent over every run. In every run, what is known of each member and of each activated
  actor is what its own history says (`ClusterRun.MembersExactly`, `ClusterRun.ActivatedExactly`).

Where the documentation and the code differ, the code is modelled. The comment of `SpawnChild` says that
all children are shut down gracefully with their parent (actor/context.go:63-65); a child that is
recorded but no longer registered gets a dead letter instead (actor/engine.go:278-286).

## Model

| member | source | states |
|---|---|---|
| Machine.Int32ThroughUint64 | remote/remote_vtproto.pb.go:502-547 | a negative int32 index survives sign extension to uint64 and truncation back |
| Varint.SovIsLength | actor/actor_vtproto.pb.go:460-462 | the bit-length formula is the number of base-128 digits, for every uint64 |
| Varint.ReadEncode | actor/actor_vtproto.pb.go:270-280 | what encodeVarint writes is read back, whatever bytes follow |
| Varint.ReadLocal | actor/actor_vtproto.pb.go:466-580 | reading a varint depends only on its own bytes |
| Varint.EncodeIsShortest | actor/actor_vtproto.pb.go:270-280 | no accepted varint of a value is shorter than the one encodeVarint writes |
| Wire.SkipFrom | actor/actor_vtproto.pb.go:756-833 | skipping a field or a nest of groups is total, consumes at least one byte when it succeeds and never overflows a 64-bit index |
| Wire.SkipLocal | actor/actor_vtproto.pb.go:756-833 | prefix locality: what is skipped, nested groups included, is skipped again in front of any other bytes and at any other offset |
| Wire.Step | actor/actor_vtproto.pb.go:466-580 | one round of the field loop accepts only within the input, consumes at least one byte, and keeps the exact bytes of an unknown field |
| Wire.StepLocal | actor/actor_vtproto.pb.go:466-580 | one field is parsed the same in front of any other bytes and at any other offset |
| Wire.ScanAppend | actor/actor_vtproto.pb.go:466-580 | two accepted inputs, one after the other, are accepted with the fields of both |
| Wire.ScanEncodeFields | remote/remote_vtproto.pb.go:899-1099 | printed fields parse back to themselves, in order |
| Wire.UnknownIsBlock | actor/actor_vtproto.pb.go:466-580 | the unknown bytes kept by a parse parse again as unknown bytes only |
| Wire.UnknownOfBlock | actor/actor_vtproto.pb.go:466-580 | a block of unknown fields is kept byte for byte |
| Wire.ScanShrinks | actor/actor_vtproto.pb.go:466-580 | printing the fields of an accepted input never takes more bytes than the input |
| Grammar.SkipInvertsPrint | actor/actor_vtproto.pb.go:756-833 | a printed field of any wire type, groups nested to any depth, is skipped with exactly its bytes, whatever follows: 8 for fixed64, 4 for fixed32, the stated length, the digits of a varint |
| Grammar.SkippedIsPrinted | actor/actor_vtproto.pb.go:756-833 | whatever skip takes is such a field |
| Grammar.SkipExact | actor/actor_vtproto.pb.go:756-833 | bytes are skipped whole if and only if they are one printed field |
| Grammar.StepAccepts | actor/actor_vtproto.pb.go:466-580 | one round of a decoder takes a printed field that fits its schema for what it means; a field of a newer version is kept as its bytes |
| Grammar.StepParses | actor/actor_vtproto.pb.go:466-580 | every round that succeeds has taken such a field |
| Grammar.FieldNumbers | remote/remote_vtproto.pb.go:899-1261 | which numbers are fields of PID, Message and Envelope and of which wire type; from 3, 6 and 5 on a field is of a newer version, accepted with any wire type and kept as its bytes |
| Grammar.ScanExact | remote/remote_vtproto.pb.go:899-1099 | a decoder accepts exactly the printed sequences of such fields and meets what they mean, in order |
| Grammar.BlockExact | actor/actor_vtproto.pb.go:466-580 | the bytes kept aside are exactly the printed fields of newer versions |
| Truncation.FieldCut | actor/actor_vtproto.pb.go:756-833 | a field that is cut short, wherever and at whatever depth, is reported as an unexpected end of input |
| Truncation.ItemsTruncated | actor/actor_vtproto.pb.go:466-580 | an accepted input cut anywhere gives the whole fields before the cut, with an error exactly when the cut is not between two fields |
| Truncation.CutShort | actor/actor_vtproto.pb.go:466-580 | so nothing is misread and no other error is reported |
| Truncation.TagTooLong | actor/actor_vtproto.pb.go:466-580 | ten digits that all announce another one overflow, in a decoder and in skip |
| Truncation.TagIsWrong | actor/actor_vtproto.pb.go:466-580 | the end of a group, a number that is not positive, a wire type other than the one in the schema or above 5: each is reported as what it is, whatever digits it has and whatever follows |
| Truncation.LengthIsNegative | actor/actor_vtproto.pb.go:466-580 | a length of 2^63 or more is an invalid length, for a known field as for one of a newer version |
| Codec.PidRoundTrip | actor/actor_vtproto.pb.go:155-182 | a PID marshals and unmarshals to itself if and only if its unknown bytes are unknown fields |
| Codec.DecodedPidWellFormed | actor/actor_vtproto.pb.go:466-580 | every PID that was parsed is such a PID |
| Codec.PidStable | actor/actor_vtproto.pb.go:466-580 | re-encoding an accepted PID does not grow it and parses to the same PID |
| Layout.PidLayout | actor/actor_vtproto.pb.go:155-182 | address behind 0x0a and its length, ID behind 0x12 and its length, each left out when empty, then the unknown bytes |
| Layout.ShortPid | actor/actor_vtproto.pb.go:155-182 | the bytes of a PID with two strings of up to 127 bytes |
| Layout.MessageLayout | remote/remote_vtproto.pb.go:502-547 | data behind 0x0a, the indices behind 0x10, 0x18 and 0x20 unless zero, 0x28 0x01 for priority, then the unknown bytes |
| Layout.EnvelopeLayout | remote/remote_vtproto.pb.go:400-482 | type names behind 0x0a, targets behind 0x12, senders behind 0x1a, messages behind 0x22, in order, then the unknown bytes |
| Merging.PidMerges | actor/actor_vtproto.pb.go:466-580 | decoding into a PID that is not empty: what was sent replaces what was there, the rest stays |
| Merging.PidConcat | actor/actor_vtproto.pb.go:466-580 | two accepted inputs in a row decode like the second into the result of the first |
| Merging.MessageMerges | remote/remote_vtproto.pb.go:1100-1261 | the same for Message |
| Merging.MessageConcat | remote/remote_vtproto.pb.go:1100-1261 | the same for Message |
| Merging.EnvelopeMerges | remote/remote_vtproto.pb.go:899-1099 | the same for Envelope, whose repeated fields grow |
| Merging.EnvelopeConcat | remote/remote_vtproto.pb.go:899-1099 | the same for Envelope |
| Codec.MessageRoundTrip | remote/remote_vtproto.pb.go:502-547 | the same equivalence for Message, negative indices included |
| Stability.MessageGrowth | remote/remote_vtproto.pb.go:1100-1261 | a decoded Message prints to at most five bytes more than its input for each negative index, so to no more when there is none and at most fifteen more |
| Stability.MessageGrows | remote/remote_vtproto.pb.go:502-547 | six bytes that decode to a Message which prints to eleven: the bound is met |
| Stability.MessageStable | remote/remote_vtproto.pb.go:1100-1261 | re-encoding an accepted Message parses to the same Message |
| Codec.EnvelopeRoundTrip | remote/remote_vtproto.pb.go:400-482 | an Envelope parses back, with nil message slots as empty messages, if and only if it is well formed throughout |
| Codec.DecodedEnvelopeWellFormed | remote/remote_vtproto.pb.go:899-1099 | every Envelope that was parsed is well formed throughout |
| Stability.EnvelopeGrowth | remote/remote_vtproto.pb.go:899-1099 | a decoded Envelope prints to at most sixteen bytes more than its input for each message, of which there is at most one for two bytes |
| Stability.EnvelopeStable | remote/remote_vtproto.pb.go:899-1099 | re-encoding an accepted Envelope parses to the same Envelope |
| Marshal.EncodeVarint | remote/remote_vtproto.pb.go:589-599 | the loop that fills the buffer from a precomputed offset writes exactly the digits, ending where it was told, and touches nothing else |
| Marshal.PidSizeExact | actor/actor_vtproto.pb.go:414-430 | SizeVT of a PID is the number of bytes it marshals to |
| Marshal.MarshalPid | actor/actor_vtproto.pb.go:155-182 | filling backwards writes the encoding of the PID into the last bytes before the end and touches nothing else |
| Marshal.SlotSizeExact | remote/remote_vtproto.pb.go:853-877 | SizeVT of a message slot, nil included, is the number of bytes it marshals to |
| Marshal.MarshalMessage | remote/remote_vtproto.pb.go:502-547 | the same for a Message |
| Marshal.MarshalSlot | remote/remote_vtproto.pb.go:502-547 | a nil message marshals to nothing |
| Marshal.PutPids | remote/remote_vtproto.pb.go:400-482 | the loop that runs backwards over a repeated field leaves its elements in forward order |
| Marshal.MarshalEnvelope | remote/remote_vtproto.pb.go:400-482 | the same for a whole Envelope: all four repeated fields and the unknown bytes |
| Marshal.EnvelopeSize | remote/remote_vtproto.pb.go:807-851 | the accumulating loops of SizeVT arrive at the exact length |
| Marshal.MarshalVT | remote/remote_vtproto.pb.go:382-393 | a buffer of SizeVT bytes is filled exactly with the encoding |
| Unmarshal.OrIsPlus | actor/actor_vtproto.pb.go:466-580 | or-ing a number whose bits lie above those of another is adding it |
| Unmarshal.JoinDigit | actor/actor_vtproto.pb.go:466-580 | in every round of the varint loop the word, of any number of bits, holds the sum of the digits read modulo its size |
| Unmarshal.ReadWord | actor/actor_vtproto.pb.go:466-580 | the shift loop computes the value modulo the size of its accumulator, with overflow and end of input where the source reports them |
| Unmarshal.ReadVarint | actor/actor_vtproto.pb.go:466-580 | with a uint64 it reads a varint modulo 2^64 |
| Unmarshal.ReadIndex | remote/remote_vtproto.pb.go:1165-1220 | with an int32, as an index of a Message is accumulated, it reads the truncated varint |
| Unmarshal.SkipField | remote/remote_vtproto.pb.go:1348-1425 | the skip loop with its depth counter is the recursive skip, errors included, and takes bytes whole if and only if they are one printed field |
| Unmarshal.ReadContent | remote/remote_vtproto.pb.go:899-1099 | a length prefix is checked as a signed 64-bit number before anything is accessed |
| Unmarshal.UnmarshalPid | actor/actor_vtproto.pb.go:466-580 | the index-driven loop computes the PID decoder on every byte string, errors included |
| Unmarshal.UnmarshalMessage | remote/remote_vtproto.pb.go:1100-1261 | the same for Message |
| Unmarshal.UnmarshalEnvelope | remote/remote_vtproto.pb.go:899-1099 | the same for Envelope, with the first nested error reported in place |
| Dictionary.TableLookup | remote/stream_writer.go:216-230 | the position a key gets in the table is that of the first entry with that key in the batch |
| Dictionary.TableDistinct | remote/stream_writer.go:216-230 | no key is in a table twice |
| Dictionary.TableIndexStable | remote/stream_writer.go:216-241 | a position handed out while the table grows stays right |
| Stream.Compress | remote/stream_writer.go:58-100 | one pass with three growing tables and maps builds the Envelope whose indices are those of the finished tables |
| Stream.Receive | remote/stream_reader.go:38-56 | the reader's loop is the expansion of the Envelope, up to its first bad message |
| Stream.ReaderExact | remote/stream_reader.go:38-56 | for any Envelope at all: each message is sent, in order, up to the first that is refused, an error, or whose indices are out of range, a panic |
| Stream.ResolveExact | remote/stream_writer.go:216-230 | PIDs come back from their table unchanged if and only if equal keys mean equal PIDs and they are all present or all absent |
| Stream.RemoteRoundTrip | remote/stream_writer.go:58-100 | compress, marshal, unmarshal, expand is the identity on deliveries if and only if the batch is faithful |
| Stream.PhantomDelivery | remote/stream_writer.go:81-84 | a payload that does not serialize is still delivered, as an empty one to the first target, if nothing up to it is refused |
| Stream.PhantomBatch | remote/stream_writer.go:81-84 | such a batch and what arrives for it, whatever the hash |
| Stream.ArrivesExactly | remote/stream_reader.go:38-56 | what arrives for any batch and any receiver: each PID as the first in the batch with its key, an absent sender as the first sender, up to the first payload the receiver cannot deserialize, which ends the stream |
| Stream.UnfaithfulBatches | remote/stream_writer.go:216-218 | two batches and what they turn into, whatever the hash: a message for one PID goes to another, and one without a sender gets one |
| Mailbox.NoLostWakeup | actor/inbox.go:64-118 | in every run, an idle inbox with messages has a thread that still owes a schedule attempt |
| Mailbox.SingleConsumer | actor/inbox.go:74-118 | in every tame run there is at most one consumer: running means one, idle means none |
| Mailbox.UntameStartBreaks | actor/inbox.go:106-118 | from any state where a Start can win while a consumer remains, two consumers are reachable |
| Mailbox.TwoConsumersReachable | actor/inbox.go:106-118 | a run from the initial inbox, started, stopped and started again, that ends with two consumers |
| Mailbox.OneStartIsTame | actor/inbox.go:106-113 | a run with one effective Start is tame, whatever senders and Stops do |
| Mailbox.Conservation | actor/inbox.go:64-123 | in every run, messages pushed are those popped, queued or cleared |
| Mailbox.MailboxAccount | actor/inbox.go:64-123 | in every run, pushed is delivered plus what all threads have in hand plus queued plus cleared |
| Mailbox.FifoDelivery | actor/inbox.go:64-104 | without clears, ordinary messages are delivered in push order; without priority sends delivery is a prefix of it |
| Mailbox.QuiescentIsDrained | actor/inbox.go:80-118 | in every run, a quiescent inbox that is not stopped is idle and empty, and everything was delivered or cleared |
| Mailbox.StepWorks | actor/inbox.go:80-104 | every step of a thread uses up work |
| Mailbox.NoInfiniteRun | actor/inbox.go:80-104 | so without new callers the protocol comes to rest |
| Delivery.PriorityOvertakes | actor/inbox.go:69-72 | a message sent with priority stands before everything that was waiting and behind what was taken, in every run until the next Clear or priority send; later sends come last, in order |
| Delivery.SendQueuesUp | actor/inbox.go:64-67 | an ordinary message stands behind everything that was waiting, in every such run |
| Delivery.PriorityDelivery | actor/inbox.go:69-104 | in tame runs it is the first given to Invoke after what was taken, and what it overtook follows in order |
| Delivery.ClearForgets | actor/inbox.go:121-123 | what Clear finds is never taken: in every run after it, only what is sent afterwards is |
| Delivery.BatchIsFull | actor/inbox.go:98-103 | a batch leaves messages behind only if it holds 4096 |
| Delivery.ConsumerStays | actor/inbox.go:89-104 | a consumer does not leave while there are messages and nobody stops the inbox |
| Delivery.StoppedStays | actor/inbox.go:89-118 | a stopped inbox stays so and takes nothing more while no Start is won, except one batch for each thread that was about to pop |
| Delivery.StopExact | actor/inbox.go:89-118 | after a stop, more is taken in some run without a won Start if and only if a thread was about to pop or about to store idle |
| RingBuffer.WrapAround | ringbuffer/ringbuffer.go:31-52 | slot arithmetic is arithmetic modulo the capacity |
| RingBuffer.RingBuffer.constructor | ringbuffer/ringbuffer.go:19-29 | a new buffer is empty and blank |
| RingBuffer.RingBuffer.Push | ringbuffer/ringbuffer.go:31-52 | appends to the abstract sequence, through wraparound and growth, and accounts for every slot copied |
| RingBuffer.RingBuffer.PushFront | ringbuffer/ringbuffer.go:76-103 | prepends to the abstract sequence, through wraparound and growth, and accounts for every slot copied |
| RingBuffer.RingBuffer.Len | ringbuffer/ringbuffer.go:54-56 | the length of the abstract sequence |
| RingBuffer.RingBuffer.Pop | ringbuffer/ringbuffer.go:58-72 | takes the first element, or reports that there is none |
| RingBuffer.RingBuffer.PopN | ringbuffer/ringbuffer.go:105-129 | what was there is what is taken and what is left, with min(n, length) taken; a negative n panics when there is something, with the length already raised |
| RingBuffer.RingBuffer.Clear | ringbuffer/ringbuffer.go:132-138 | empties the abstract sequence; slots stay blank exactly when what was dropped was blank |
| RingBuffer.GrowthBounds | ringbuffer/ringbuffer.go:31-103 | after every sequence of operations capacity is the size times a power of two and at most the size or twice the longest length reached, and growing has copied what it added, up to one slot each time, which is fewer than two slots per push |
| Supervision.Invoke | actor/process.go:60-104 | terminates for every batch and panic pattern; only an exhausted budget lets a panic out |
| Supervision.InvokeSpends | actor/process.go:147-182 | restarts announced plus restarts left stays the same across a call, int32 wraparound included |
| Supervision.RestartsWithinLimit | actor/process.go:147-182 | restarts never exceeds MaxRestarts and equals the restarts announced |
| History.TryRestartCloses | actor/process.go:159-168 | with the budget spent: the limit is announced, the inbox stopped, the process deregistered and given Stopped, in this order and last |
| History.TryRestartEndsWell | actor/process.go:147-182 | a panic leaves tryRestart only right after that; without one the limit is not announced and the replay buffer is empty |
| History.StartEndsWell | actor/process.go:121-145 | the same for Start, nested calls included |
| History.InvokeEndsWell | actor/process.go:60-104 | the same for Invoke; restarts are announced with their number and pills answered right after a shutdown |
| Replay.InvokeRefines | actor/process.go:60-104 | counters, messages attempted, pills answered and the final panic of Invoke are those of the flat loop |
| Replay.StartRefines | actor/process.go:121-145 | Start boots a receiver and then does with what is buffered what the flat loop does, even when Initialized or Started panics in between |
| Replay.TryRestartRefines | actor/process.go:147-182 | tryRestart pays for a panic and then does the same |
| Replay.WorkPanicsExactly | actor/process.go:86-103 | the loop of Invoke panics exactly when a handler call does that the batch asks for, by call number: ahead of the first pill, or under a graceful one |
| Replay.DrainBreaksExactly | actor/process.go:92-97 | it panics inside a drain exactly when the first pill is graceful, the calls ahead of it go through and one under it does not |
| Replay.InvokeServes | actor/process.go:60-182 | if the drain of a first graceful pill that is reached holds, the messages a batch asks for are attempted in order, each once across all nested restarts; all of them unless the budget runs out |
| Replay.WithoutDrain | actor/process.go:60-182 | the same without condition when the first pill is hard or there is none; an incomplete batch means an exhausted budget |
| Replay.CrashReplay | actor/process.go:60-182 | the same for batches without pills |
| Replay.FirstPillAnswered | actor/process.go:89-99 | the first pill is answered if and only if the messages ahead of it leave budget and it is hard or its drain holds |
| Replay.PillsAnswered | actor/process.go:98-99 | at most one pill of a batch is answered, the one the flat loop ends at |
| Replay.OnlyFirstPillAnswered | actor/process.go:98-99 | a batch that goes through clean answers its first pill and no other |
| Replay.DrainPanicRepeats | actor/process.go:78-97 | a drain that breaks, on any batch: messages up to the one that panics were attempted, the pill is never answered, and what came after the pill is handled again from the start |
| Replay.InvokeAttempts | actor/process.go:60-182 | for every batch and every panic pattern: attempted, in order, is what the batch asks for, with the messages after a broken drain's pill asked for again; all of it unless the budget runs out |
| Lifecycle.InvokeLife | actor/process.go:60-104 | a receiver that was up is up and no pill was answered, or it was stopped once and one was; then the inbox is on again exactly when there was a restart; a panic means closed down for good, inbox off and deregistered |
| Lifecycle.StartLife | actor/process.go:121-145 | a start leaves a receiver that is up, or one stopped by a replayed pill with its inbox started again |
| Lifecycle.RevivedExactly | actor/process.go:60-145 | a shut-down process is started again if and only if a pill of the batch is answered although the batch did not go through clean |
| Lifecycle.RevivedByPanicAhead | actor/process.go:60-145 | when the drain holds: if and only if the first pill is reached and a handler panics on a message ahead of it |
| Lifecycle.ReplayedPillRevives | actor/process.go:139-144 | a replayed pill shuts the process down, is answered, and the inbox is started again |
| Lifecycle.DeadInvoke | actor/process.go:86-103 | for a stopped receiver, a batch that asks for a message makes one reach it; any other stops it once more and turns the inbox off |
| Lifecycle.LifeIsTidy | actor/process.go:60-204 | over any batches: restarts are announced as 1, 2, 3 and so on, every cancel comes right after inbox stop, deregistration and Stopped, and a panic leaves only a process that was closed down |
| Lifecycle.WholeLifeIsTidy | actor/process.go:121-204 | the same from the first Start on |
| Lifecycle.DeadLife | actor/inbox.go:89-104 | after a revival, whatever the inbox does, a message reaches a stopped receiver if and only if a batch handed over asks for one |
| Lifecycle.LifeExact | actor/process.go:60-204 | from any state that is up: the batches handed over make a message reach a stopped receiver if and only if they relapse |
| Lifecycle.LifecycleExact | actor/process.go:106-204 | from the first Start through any batches with any panics: every receiver sees Initialized, Started, messages, then only Stopped, if and only if the batches handed over do not relapse |
| Lifecycle.Lifecycle | actor/process.go:106-204 | so whenever every batch has no pill, whatever panics, or goes through clean |
| Lifecycle.LifeAfterDeath | actor/process.go:139-144 | lives that go wrong: a message that panics ahead of a pill, then any batches of which one asks for a message |
| Revival.WonExactly | actor/inbox.go:106-113 | in the trace of a process, a Start wins its swap again exactly when the process is revived |
| Revival.PlaysTrace | actor/inbox.go:106-118 | the Stop and Start calls of a trace, made while the consumer is inside Invoke, are a run of the mailbox whose status follows the trace, tame exactly when no swap is won |
| Revival.RevivalIsUntame | actor/process.go:139-144 | so the calls of one Invoke are a tame run if and only if it does not revive the process, and a revival leaves two consumers |
| Revival.OffIsTheEnd | actor/inbox.go:89-118 | when a batch leaves the inbox off without a revival, nothing more is taken from it in any run in which no Start is won |
| ActorProcess.Process.constructor | actor/process.go:40-51 | a new process has no restarts and nothing buffered |
| ActorProcess.Process.InvokeMsg | actor/process.go:106-119 | pills never reach a receiver |
| ActorProcess.Process.Work | actor/process.go:86-103 | the loop with its two counters is the main loop of the functional model |
| ActorProcess.Process.Drain | actor/process.go:92-97 | the drain loop is that of the functional model |
| ActorProcess.Process.Invoke | actor/process.go:60-104 | new state and panic are those of the functional model, with the rest of the batch copied into the replay buffer |
| ActorProcess.Process.Start | actor/process.go:121-145 | new state and panic are those of the functional model; after a panic the process is closed down |
| ActorProcess.Process.TryRestart | actor/process.go:147-182 | new state and panic are those of the functional model; after a panic the process is closed down |
| ActorProcess.Process.Cleanup | actor/process.go:184-204 | new state and panic are those of the functional model, a nil cancel included |
| Shutdown.ShutdownExact | actor/process.go:184-204 | exactly the live nodes of the tree are stopped, deregistered and given Stopped, each once |
| Shutdown.ShutdownDeregisters | actor/registry.go:33-37 | the registry loses exactly the live subtree |
| Shutdown.ChildrenFirst | actor/process.go:191-198 | a process stops its inbox only after every live one below it got Stopped and had its pill cancelled |
| Shutdown.CancelLast | actor/process.go:184-204 | for every process of the tree: inbox stopped, then deregistered, then Stopped, and the cancel of its pill only after all of that |
| Shutdown.PillsAnswered | actor/engine.go:270-306 | the pill of each process that is sent one is cancelled exactly once, and is a dead letter exactly when the process is gone |
| Shutdown.PillsAwaited | actor/process.go:191-198 | a process stops its inbox only after the pill of every child it lists was cancelled, also of one that is gone |
| Shutdown.Engine.CleanupProcess | actor/process.go:184-204 | on the contexts of a tree, cleanup produces those events and that registry, leaves other contexts alone and unlinks the root from its parent |
| Shutdown.Engine.PoisonChildren | actor/process.go:191-196 | the loop over the children as they were listed poisons each and waits for it |
| Shutdown.Engine.PoisonAndWait | actor/engine.go:270-306 | a registered child is cleaned up; an unregistered one gives a dead letter and an immediate cancel |
| Shutdown.WithoutExact | actor/process.go:187-189 | unlinking removes the child and no other |
| PidSet.RemoveStaysGood | actor/pid_map.go:55-73 | moving the last PID into the hole keeps every position exact and every key unique |
| PidSet.RemoveRefines | actor/pid_map.go:55-73 | swap-remove takes one key out of the set and keeps the PIDs of the others |
| PidSet.AddRefines | actor/pid_map.go:44-52 | adding keeps a PID that has the key already |
| PidSet.RunRefines | actor/pid_map.go:44-82 | after every sequence of operations the index is exact and holds the set they describe |
| PidSet.CloneRoundTrip | actor/pid_map.go:102-104 | adding the PIDs of a set one by one gives the same set in the same order |
| PidSet.PIDSet.constructor | actor/pid_map.go:17-23 | the PIDs are added in order, repeated keys once |
| PidSet.PIDSet.AddPid | actor/pid_map.go:44-52 | the in-place operation keeps the index exact and adds to the set |
| PidSet.PIDSet.RemovePid | actor/pid_map.go:55-73 | the in-place operation keeps the index exact, removes from the set and says whether the key was there |
| PidSet.PIDSet.ClearAll | actor/pid_map.go:79-82 | the set is empty afterwards |
| PidSet.PIDSet.Clone | actor/pid_map.go:102-104 | the copy is a new object with the same index |
| FirstWins.AddAllFirst | cluster/agent.go:274-279 | a key keeps its entry, or gets the first that is listed with it |
| Membership.ListingRoundTrip | cluster/member_set.go:7-59 | the slice of a member set, in whatever order, makes the same set again |
| Membership.ByIDLast | cluster/member_set.go:7-15 | an ID stands for the record listed last with it |
| Membership.MemberSet.constructor | cluster/member_set.go:7-15 | of several records with one ID the last is kept |
| Membership.MemberSet.GetByHost | cluster/member_set.go:21-29 | finds a member with that host, nil exactly when there is none |
| Membership.MemberSet.Slice | cluster/member_set.go:51-59 | every member once, in some order |
| Membership.MemberSet.Except | cluster/member_set.go:69-83 | exactly the members whose ID is not listed, once each |
| Provider.AddMembersKeeps | cluster/selfmanaged.go:131-138 | adding members never changes a record that is there |
| Provider.AddMembersFirst | cluster/selfmanaged.go:131-138 | of a new member the first record named is taken |
| Provider.SelfManaged.Started | cluster/selfmanaged.go:84-89 | the provider adds itself and publishes a snapshot of the result |
| Provider.SelfManaged.HandleMembers | cluster/selfmanaged.go:131-138 | the new members are added and the result is published once |
| Provider.SelfManaged.HandleHandshake | cluster/selfmanaged.go:98-103 | the same for one member, which is answered with everyone known |
| Provider.SelfManaged.RemoveMember | cluster/selfmanaged.go:140-145 | the member is gone and the result is published, also when it was not there |
| Provider.SelfManaged.HandleMemberLeave | cluster/selfmanaged.go:108-110 | panics exactly for a host nobody has; otherwise one member of that host is removed and the result published |
| Agent.MergeExact | cluster/agent.go:203-213 | comparing IDs only gives the snapshot itself if and only if no shared ID changed its record |
| Agent.ConsistentAfterSnapshot | cluster/agent.go:203-301 | a snapshot keeps the tables consistent; a departure makes the known kinds exactly the members' kinds |
| Agent.SnapshotForgets | cluster/agent.go:251-265 | of the activated actors, a snapshot forgets exactly those on the host of a member that it lacks, and keeps the PIDs of the others |
| Agent.ActivateFirst | cluster/agent.go:274-279 | an activation never replaces a PID; the first one announced for an ID stays |
| Agent.ClusterAgent.constructor | cluster/agent.go:37-53 | a new agent knows its local kinds, no member and no activated actor |
| Agent.ClusterAgent.HandleMembers | cluster/agent.go:203-213 | joins then leaves, in any map order, give the merged members, the right kinds, drop exactly the activated actors on departed hosts, and send the table as it was before to each member that joined |
| Agent.ClusterAgent.MemberJoin | cluster/agent.go:215-249 | the member is recorded, its kinds become known, and it is sent the whole table of activated actors unless that is empty |
| Agent.ClusterAgent.MemberLeave | cluster/agent.go:251-265 | the member is gone, kinds are those of the rest, and exactly the actors on its host are forgotten |
| Agent.ClusterAgent.RemoveActivatedOn | cluster/agent.go:256-260 | deleting from the map that is being ranged over forgets exactly the actors on the host |
| Agent.ClusterAgent.RebuildKinds | cluster/agent.go:291-301 | the known kinds become exactly those of the members |
| Agent.ClusterAgent.HandleActorTopology | cluster/agent.go:111-115 | the actors listed are activated in order, first one wins |
| Agent.ClusterAgent.HandleActivation | cluster/agent.go:124-127 | one actor is activated, unless its ID is taken |
| Agent.ClusterAgent.HandleDeactivation | cluster/agent.go:117-121 | the entry with that ID is forgotten and the actor is sent a pill |
| ClusterRun.StepKeeps | cluster/selfmanaged.go:82-153 | every step of provider or agent keeps the chain of snapshots in agreement and the tables consistent |
| ClusterRun.AgentAgrees | cluster/agent.go:203-213 | in every run the agent's members are the last snapshot delivered, record for record, and the provider's own when all has arrived |
| ClusterRun.Converges | cluster/selfmanaged.go:147-153 | every run can go on by delivering the snapshots under way, and then the agent knows exactly the members the provider knew |
| ClusterRun.KindKnown | cluster/agent.go:215-301 | in every run a kind is known if and only if a member of the last snapshot offers it, or it is local and nobody has departed |
| ClusterRun.ActivatedExactly | cluster/agent.go:111-127 | in every run the actor known under an ID is the first learned since it was last deactivated or a snapshot lacked a member, of the one before, on its host |
| ClusterRun.MembersExactly | cluster/selfmanaged.go:82-153 | in every run a member is known by the first record heard since it was last lost, at the provider, and at the agent when everything has arrived |
| ClusterRun.TablesConsistent | cluster/agent.go:203-301 | in every run activated keys are PID.IDs and the known kinds are exactly those of the members, and up to the first departure the local ones |

## Left out

- Dialing, TLS, drpc, connection deadlines and stream routing: network I/O over libraries that are not part of this model.
- The codecs of cluster messages, Ping, Pong and TestMessage, the strict variants, CloneVT and EqualVT: the same patterns as PID, Message and Envelope.
- Discovery by mDNS or Consul, cluster configuration, and request and response timeouts: wrappers, I/O and clocks.
- Payload serialization and the xxh3 hash: a payload either serializes to given bytes or does not, and the hash is any function.
- Middleware, event stream contents, logging, stack traces and restart delays: no hard property.
- Cluster-wide uniqueness of an actor ID: the source checks it only locally, so it does not hold.
- Activation requests between nodes: their effect depends on remote nodes.
- Restarts of the agent or the provider, and a memberLeave for an unknown host, which panics: not part of the runs of `ClusterRun`.
- Unmarshal.UnmarshalPid: what the PID holds when an error is returned is not modelled; the caller drops it.
- Unmarshal.UnmarshalMessage: what the Message holds when an error is returned is not modelled; the caller drops it.
- Unmarshal.UnmarshalEnvelope: what the Envelope holds when an error is returned is not modelled; the caller drops it.
- Stability.MessageStable: inputs within fifteen bytes of 2^63, longer than any Go slice can be re-encoded into, are not covered.
- Stability.EnvelopeStable: inputs whose length and sixteen bytes a message reach 2^63 are not covered, for the same reason.
- Stream.RemoteRoundTrip: supposes batches of at most 2^31 messages, so that an index fits an int32, and payloads the receiver can deserialize.
- Supervision.Invoke: Initialized and Started raise InternalError only up to some call; with a remote that never comes back the source restarts forever.
- Replay.InvokeServes: after a drain that breaks what is attempted is what `Replay.InvokeAttempts` gives; equal contents can hide the repetition, so there is no converse about contents, only the one about the pill.
- Lifecycle.LifecycleExact: the Stopped message is handled without panic; children are the subject of `Shutdown`; and batches are handed over one at a time, although after a revival two consumers can be inside Invoke at once.
- ActorProcess.Process.Cleanup: the children and the unlinking from the parent are the subject of `Shutdown`.
- Shutdown.ChildrenFirst: pills are served and nothing is spawned meanwhile; a shutdown with a nil cancel is in `Supervision`.
- PidSet.PIDSet.ClearAll: the slice is a value, so that Values shares its storage with the set is not captured.
- RingBuffer.RingBuffer.PopN: that a panic leaves the mutex locked is not captured.
