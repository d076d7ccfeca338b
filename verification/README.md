# Event relay — Dafny model

This project models the core of a small Go event relay (package `relay`).
The relay reads messages from a network socket and stores them in a
class-aware queue, which keeps only the newest answer and the two newest
rounds and ignores messages of any other type. It then takes one message from
the queue per wake-up and offers it to the subscriptions that want its type,
using a non-blocking send.

- `messages.dfy` (module `Messages`, from `relay.go`): the `MessageType`
  flag constants `StartNewRound = 1 << 0` and `ReceivedAnswer = 1 << 1`, the
  `Message` record, `NewMessage`, and the result of a socket read.
- `queue.dfy` (module `MessageQueue`, from `queue.go`): the queue as an
  immutable sequence. `NewQueue`, `Enqueue`, `Dequeue` and `GetMessages` are
  pure functions. `Valid` is the layout that `Enqueue` maintains: an optional
  `ReceivedAnswer` at index 0, then at most two `StartNewRound` messages.
  Lemmas show that the rounds are stored oldest first, in arrival order
  (`EnqueueAllShape`). The source never codes "StartNewRound first, most
  recent first" directly; lemmas derive it from the layout, the arrival
  order and the pop-last `Dequeue`.
- `message_relay.dfy` (module `MessageRelay`, from `message_relay.go`):
  - the relay state (subscriptions in registration order, plus the queue);
  - `NewMessageRelayer` and `SubscribeToMessages`;
  - the match rule (filter 0, or the message's own type);
  - one iteration of each loop as a pure step: `ReadStep` for the reader
    loop and `BroadcastStep` for the broadcast loop.

  A subscriber channel is identified by a number. Whether the non-blocking
  send succeeds is an oracle: `BroadcastStep` receives the set of indices of
  the subscriptions whose channels are ready. `Run` applies any sequence of
  the two step kinds. Lemmas over runs show three things: the queue layout
  is kept, every send matches its subscription, and no message is invented.
- `queue_test.dfy` and `message_relay_test.dfy`: the scenarios of the
  repository's Go tests, stated as lemmas about the model.
- `wrappers.dfy`: `Option`, which stands for Go's nil-or-pointer result of
  `Dequeue`.

Behaviour of the code worth noting:

- The capacities (two `StartNewRound`, one `ReceivedAnswer`) are hard-wired,
  not configurable.
- A message of any other type is silently ignored by `Enqueue`. The switch
  has no default case.
- The reader retries after an error without backoff.
- The wake-up channel is an unbuffered, blocking channel, not a best-effort
  signal.

## Model

| member | source | states |
|---|---|---|
| Messages.Flag | relay.go:8 | `1 << n` is positive and grows with n (at least n + 1) |
| Messages.FlagStrictlyIncreasing | relay.go:6-11 | a later flag of the `iota` block is strictly larger than an earlier one |
| Messages.FlagsDistinctAndNonZero | relay.go:6-11 | no flag is 0, and two different flag positions give different types, so the 0 filter never names a real type |
| Messages.MessageTypeValues | relay.go:6-11 | StartNewRound is 1 and ReceivedAnswer is 2; they differ and neither is 0 |
| Messages.NewMessage | relay.go:24-30 | the constructed message has the given type and exactly the bytes of the given data |
| Messages.NewMessageInjective | relay.go:18-30 | two constructed messages are equal iff their types and their bytes are equal (structural equality) |
| MessageQueue.GetMessages | queue.go:80-82 | the observed sequence is the pending answer, if any, followed by the rounds |
| MessageQueue.Valid | queue.go:38-59 | the layout: behind an optional front ReceivedAnswer only StartNewRound messages, at most two; a queue in this layout holds at most three messages |
| MessageQueue.NewQueue | queue.go:17-22 | a new queue holds no messages and already satisfies the layout |
| MessageQueue.AnswerThenRounds | queue.go:51-54 | the stored sequence is the optional front answer followed by the rest, and the answer is of type ReceivedAnswer |
| MessageQueue.ValidLayout | queue.go:51-54 | under the layout every element is a StartNewRound, except possibly a ReceivedAnswer at index 0; at most three are stored |
| MessageQueue.CountOfType | queue.go:31-36 | the count of a type is at most the length of the sequence |
| MessageQueue.CountOfTypeAll | queue.go:31-36 | when every element has the type, the count is the whole length |
| MessageQueue.RemoveAt | queue.go:45 | removing index i shortens the sequence by one; elements before i stay, those after shift down by one |
| MessageQueue.Enqueue | queue.go:24-61 | other types leave the queue unchanged; a ReceivedAnswer becomes the answer with the rounds untouched; a StartNewRound ends up last and at most one element is dropped |
| MessageQueue.CountRoundsUnderLayout | queue.go:31-39 | under the layout the counted StartNewRound messages are exactly the rounds behind the front answer |
| MessageQueue.SplitAnswerAndRounds | queue.go:51-54 | a sequence built as an optional answer followed by rounds splits back into exactly that answer and those rounds |
| MessageQueue.EnqueueRoundFull | queue.go:38-49 | under the layout with two rounds stored, a StartNewRound drops the oldest round (index 1 behind an answer, else index 0) and is appended; the answer stays |
| MessageQueue.EnqueueRoundRoom | queue.go:30-49 | under the layout with fewer than two rounds stored, a StartNewRound is appended and nothing is dropped |
| MessageQueue.EnqueueRoundStart | queue.go:30-49 | under the layout a StartNewRound is appended; with two rounds present exactly the oldest round is dropped; the front answer stays |
| MessageQueue.EnqueueAnswer | queue.go:50-59 | a ReceivedAnswer overwrites a front answer in place, otherwise it is prepended; the rounds are unchanged |
| MessageQueue.EnqueueRoundKeepsValid | queue.go:30-49 | under the layout a StartNewRound leaves at most two rounds, all of type StartNewRound, behind the answer |
| MessageQueue.EnqueuePreservesValid | queue.go:29-60 | Enqueue keeps the layout for every message |
| MessageQueue.EnqueueOnlyAddsTheMessage | queue.go:29-60 | every message stored after Enqueue was stored before or is the enqueued message |
| MessageQueue.Dequeue | queue.go:63-77 | on an empty queue it returns nothing and keeps the queue; otherwise the rest followed by the returned message is the original sequence |
| MessageQueue.DequeueEmpty | queue.go:69-76 | dequeueing a new queue returns nil and leaves it empty |
| MessageQueue.DequeuePopsLast | queue.go:69-73 | without any layout assumption Dequeue returns the last element and the rest keep their order |
| MessageQueue.DequeuePriority | queue.go:63-73 | under the layout Dequeue returns the newest StartNewRound while there is one and the answer only after that; the layout is kept |
| MessageQueue.DrainIsReverse | queue.go:69-76 | dequeueing until nil yields the stored messages in reverse order |
| MessageQueue.DrainOrder | queue.go:63-64 | under the layout draining yields all rounds newest first and then the answer |
| MessageQueue.DrainRoundsBeforeAnswer | queue.go:63-64 | in a drain under the layout no StartNewRound comes after a ReceivedAnswer |
| MessageQueue.EnqueueStepShapeRound | queue.go:30-49 | after a StartNewRound step the rounds are the last two StartNewRound messages of the extended history, and the answer is unchanged |
| MessageQueue.EnqueueStepShapeAnswer | queue.go:50-59 | after a ReceivedAnswer step the rounds are unchanged and the answer is the message just enqueued, the latest of the extended history |
| MessageQueue.EnqueueStepShapeOther | queue.go:29-60 | a message of any other type changes neither the rounds nor the answer summary |
| MessageQueue.EnqueueStepShape | queue.go:24-61 | one more Enqueue keeps the summary of a prefix: the rounds stay the last two StartNewRound messages and the answer the latest ReceivedAnswer |
| MessageQueue.EnqueueAllShape | queue.go:24-61 | enqueueing any sequence keeps the layout; the rounds are the two most recent StartNewRound messages in arrival order; the answer is the most recent ReceivedAnswer |
| MessageQueue.EnqueueAllFromEmpty | queue.go:24-61 | after enqueueing any sequence into an empty queue the stored sequence is the most recent ReceivedAnswer, if any, then the two most recent StartNewRound messages, oldest first |
| MessageQueue.RoundsOnlyKeepsLastTwo | queue.go:38-49 | enqueueing only StartNewRound messages into a new queue keeps the last two of them (all, if fewer) |
| QueueTests.OnlyAnswersScenario | queue_test.go:14-21 | three answers in a row leave only the third |
| QueueTests.OnlyRoundsScenario | queue_test.go:22-31 | four rounds in a row leave rounds 3 and 4 |
| QueueTests.MixedScenarioRounds | queue_test.go:32-44 | in the mixed input the two newest StartNewRound messages are the fourth and the fifth |
| QueueTests.MixedScenarioQueue | queue_test.go:32-44 | for any rounds s1, s2, s4, s5 and answers a1, a2, the mixed input leaves [a2, s4, s5] |
| QueueTests.MixedScenarioDrain | queue_test.go:32-44 | draining the queue the mixed input leaves gives s5, s4, a2 |
| QueueTests.MixedScenario | queue_test.go:32-44 | S1, S2, A1, S4, S5, A2 leave [A2, S4, S5], and draining that gives S5, S4, A2 |
| QueueTests.DequeueScenario | queue_test.go:58-71 | a queue built with three rounds pops 3, 2, 1 and then nil |
| MessageRelay.NewMessageRelayer | message_relay.go:16-26 | a new relay has no subscriptions, an empty queue and the layout invariant |
| MessageRelay.SubscribeToMessages | message_relay.go:47-55 | exactly one subscription is appended at the end; earlier ones and the queue are unchanged |
| MessageRelay.Matches | message_relay.go:118 | a subscription wants a message iff its filter is 0 or equals the message's type |
| MessageRelay.MatchesFilter | message_relay.go:116-118 | a filter-0 subscription matches every message; otherwise it matches iff the types are equal |
| MessageRelay.TypedSubscriptionsAreDisjoint | message_relay.go:118 | a StartNewRound subscription never matches a ReceivedAnswer message, and vice versa |
| MessageRelay.Fanout | message_relay.go:116-129 | every send of the inner loop goes to an existing, ready subscription at or after the start index that wants the message, over that subscription's own channel, carrying the message |
| MessageRelay.FanoutServesExactlyReady | message_relay.go:116-129 | a subscription receives a send iff it is at or after the start index, wants the message and is ready: no one is skipped and no one else is served |
| MessageRelay.FanoutInRegistrationOrder | message_relay.go:116 | sends are made by strictly increasing subscription index, so in registration order and at most once per subscription |
| MessageRelay.BroadcastStep | message_relay.go:108-130 | empty queue: nothing changes and nothing is sent; otherwise exactly the last message is removed and sent to exactly the matching, ready subscriptions, in order |
| MessageRelay.ReadStep | message_relay.go:83-92 | a read error leaves the relay unchanged; a successful read enqueues exactly the message read; subscriptions are untouched |
| MessageRelay.BackpressureIsolation | message_relay.go:119-127 | whether subscription j is served does not depend on whether another subscription is ready, and the queue after the step does not depend on readiness (no re-enqueue) |
| MessageRelay.BroadcastFiltering | message_relay.go:116-118 | a ready filter-0 subscription receives the dequeued message; typed subscriptions never receive the other protocol type |
| MessageRelay.BroadcastPriority | message_relay.go:108-111 | under the layout the message sent is the newest pending StartNewRound, or the answer when no round is pending; the layout is kept |
| MessageRelay.ReadThenBroadcast | message_relay.go:83-122 | a protocol message read into an empty queue is offered to the subscriptions at the next wake-up, and the queue is empty again |
| MessageRelay.ReadStepPreservesInvariant | message_relay.go:83-92 | the read step keeps the queue layout |
| MessageRelay.SubscribePreservesInvariant | message_relay.go:47-55 | subscribing keeps the queue layout |
| MessageRelay.Apply | message_relay.go:75-133 | a step keeps the subscriptions and only adds sends; a read step adds none |
| MessageRelay.RunPreservesInvariant | message_relay.go:75-133 | over any sequence of read and broadcast steps the subscriptions stay fixed and the queue layout is kept |
| MessageRelay.ApplyDeliversToMatching | message_relay.go:116-128 | if every earlier send matched its subscription and channel, so does every send after one more step |
| MessageRelay.RunDeliversToMatching | message_relay.go:116-128 | over any run every send went, over its registered channel, to a subscription whose filter matches the message |
| MessageRelay.BroadcastSendsOnlyQueued | message_relay.go:108-128 | a broadcast step leaves only messages that were queued, and sends only a message that was queued |
| MessageRelay.ApplyOnlyFrom | message_relay.go:83-128 | if everything stored and sent came from a source list, after one step it came from that list plus the message read |
| MessageRelay.RunOnlyRelaysReadMessages | message_relay.go:83-122 | over any run every queued or sent message was queued at the start or read from the socket |
| MessageRelayTests.RunReadThenWake | message_relay.go:83-122 | a run that left the queue empty, followed by a read of a protocol message and a wake-up, adds exactly that message's fan-out to the sends and leaves the relay as it was |
| MessageRelayTests.AlternatingFanout | message_relay_test.go:185-190 | with subscriptions for all, StartNewRound and ReceivedAnswer, a round goes to the first two and an answer to the first and third |
| MessageRelayTests.AlternatingScenario | message_relay_test.go:132-201 | alternating S, A, S, A, each broadcast after its read: the all-types subscriber gets four messages, the typed subscribers two each |
| MessageRelayTests.BusyFanout | message_relay.go:119-127 | a lone every-type subscriber gets the message when ready and nothing when busy |
| MessageRelayTests.BusySubscriberFirstTwo | message_relay_test.go:203-209 | the subscriber gets message 1, then misses message 2 while busy |
| MessageRelayTests.BusySubscriberRun | message_relay_test.go:203-242 | for any three protocol messages, a lone every-type subscriber busy during the second broadcast gets messages 1 and 3; message 2 is dropped, not delivered later, and the queue ends empty |

## Left out

- Goroutines and lifecycle: `Start`, `Stop`, the `chStop` channel, the `sync.WaitGroup` and the `select` loops are concurrency and are not modelled. Only single loop bodies are modelled, as `ReadStep` and `BroadcastStep`. A second `Stop` panics in Go; that is not modelled either.
- The wake channel `chMsgReceived` is an unbuffered, blocking send in the reader loop. It also holds the reader back: after each successful read the reader waits until the broadcast loop takes the wake-up, so the program runs exactly one broadcast step per successful read. `Run` admits any sequence of steps, a superset of the program's schedules, so the lemmas over runs cover them.
- Mutexes in `Queue` and in `SubscribeToMessages`: the model is sequential.
- `GetMessages` returns the live slice without locking. The model only reads the sequence.
- `NetworkSocket.Read` is external I/O. It becomes an input: a message, or an error whose value is never inspected.
- Verbose logging (`fmt.Printf`) and `SetVerbose` only control printing and affect no modelled state.
- Closed subscriber channels are not modelled. In Go a send on a closed channel panics even inside the non-blocking `select` (message_relay.go:121-122), which would end the broadcast goroutine; the model treats every channel as either ready or busy.
- Channel values: a subscriber's channel is a number naming it. The non-blocking send is decided by the readiness set passed to `BroadcastStep`, so the timing in the Go tests (mock delays, `time.Sleep`) appears only as which subscriptions are ready.
- `NewMessage` takes a Go string. A Go string is a byte sequence, so the data is modelled as `seq<bv8>` directly.
- `MessageType` is Go's `int`. The relay only compares message types, so the model uses an unbounded `int`. `Flag` models `1 << iota` only for the small shifts used.
