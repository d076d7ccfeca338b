/**
 The relay itself: an ordered list of subscriptions and the message queue,
 with the bodies of the reader loop and the broadcast loop as pure steps.
 A subscriber channel is identified by a number; whether a non-blocking send
 to it would succeed is given to the broadcast step as the set of indices of
 subscriptions whose channels are ready.
 */
module MessageRelay {
  import opened Wrappers
  import opened Messages
  import opened MessageQueue

  /** Identity of a subscriber's send-only channel. */
  type Channel = nat

  /** The type a subscriber wants (0 for every type) and where to send it. */
  datatype Subscription = Subscription(msgType: MessageType, channel: Channel)

  /** The relay state the loops work on: subscriptions in registration order
      and the queue. */
  datatype Relayer = Relayer(subscriptions: seq<Subscription>, queue: Queue)

  /** One successful send: the subscription's index, its channel and the message. */
  datatype Delivery = Delivery(subscriber: nat, channel: Channel, msg: Message)

  /** The relay after one broadcast step, and the sends it made. */
  datatype Broadcast = Broadcast(relayer: Relayer, deliveries: seq<Delivery>)

  /** The state every step keeps: the queue has its layout. */
  predicate Invariant(r: Relayer)
  {
    Valid(r.queue)
  }

  /** A new relay: no subscriptions and an empty queue. */
  function NewMessageRelayer(): (r: Relayer)
    ensures |r.subscriptions| == 0
    ensures |r.queue.messages| == 0
    ensures Invariant(r)
  {
    Relayer([], NewQueue())
  }

  /** Registers a subscription at the end of the list. */
  function SubscribeToMessages(r: Relayer, t: MessageType, ch: Channel): (r': Relayer)
    ensures |r'.subscriptions| == |r.subscriptions| + 1
    ensures r'.subscriptions[..|r.subscriptions|] == r.subscriptions
    ensures r'.subscriptions[|r.subscriptions|] == Subscription(t, ch)
    ensures r'.queue == r.queue
  {
    r.(subscriptions := r.subscriptions + [Subscription(t, ch)])
  }

  /** Whether a subscription wants a message: its type is 0 or the message's type. */
  predicate Matches(s: Subscription, m: Message)
  {
    s.msgType == 0 || s.msgType == m.msgType
  }

  /** A subscription with type 0 wants every message; one with a real type
      wants exactly the messages of that type. */
  lemma MatchesFilter(s: Subscription, m: Message)
    ensures s.msgType == 0 ==> Matches(s, m)
    ensures s.msgType != 0 ==> (Matches(s, m) <==> m.msgType == s.msgType)
  {
  }

  /** Since neither protocol type is 0, a StartNewRound subscription never
      wants a ReceivedAnswer message and vice versa. */
  lemma TypedSubscriptionsAreDisjoint(s: Subscription, m: Message)
    ensures s.msgType == StartNewRound && m.msgType == ReceivedAnswer ==> !Matches(s, m)
    ensures s.msgType == ReceivedAnswer && m.msgType == StartNewRound ==> !Matches(s, m)
  {
    MessageTypeValues();
  }

  /** Whether the subscription at index i received a send. */
  predicate Delivered(ds: seq<Delivery>, i: nat)
  {
    exists k | 0 <= k < |ds| :: ds[k].subscriber == i
  }

  lemma DeliveredCons(d: Delivery, ds: seq<Delivery>)
    ensures forall i: nat :: Delivered([d] + ds, i) <==> d.subscriber == i || Delivered(ds, i)
  {
    forall i: nat | Delivered(ds, i) ensures Delivered([d] + ds, i) {
      var k :| 0 <= k < |ds| && ds[k].subscriber == i;
      assert ([d] + ds)[k + 1] == ds[k];
    }
    forall i: nat | Delivered([d] + ds, i) && d.subscriber != i ensures Delivered(ds, i) {
      var k :| 0 <= k < |[d] + ds| && ([d] + ds)[k].subscriber == i;
      assert ds[k - 1] == ([d] + ds)[k];
    }
    assert ([d] + ds)[0] == d;
  }

  /** A send that the broadcast of m may make: to a subscription that exists,
      is ready and wants m, over that subscription's channel. */
  predicate Sends(subs: seq<Subscription>, m: Message, ready: set<nat>, d: Delivery)
  {
    && d.subscriber < |subs|
    && d.subscriber in ready
    && Matches(subs[d.subscriber], m)
    && d == Delivery(d.subscriber, subs[d.subscriber].channel, m)
  }

  /** The inner loop of a broadcast from index `from` on: every subscription
      that wants m and whose channel is ready gets m, in registration order,
      once; the others are skipped. */
  function Fanout(subs: seq<Subscription>, m: Message, ready: set<nat>, from: nat): (ds: seq<Delivery>)
    requires from <= |subs|
    ensures forall k | 0 <= k < |ds| :: from <= ds[k].subscriber && Sends(subs, m, ready, ds[k])
    decreases |subs| - from
  {
    if from == |subs| then []
    else
      var rest := Fanout(subs, m, ready, from + 1);
      if Matches(subs[from], m) && from in ready then
        [Delivery(from, subs[from].channel, m)] + rest
      else
        rest
  }

  /** Sends are listed by strictly increasing subscription index. */
  predicate InRegistrationOrder(ds: seq<Delivery>)
  {
    forall k, l | 0 <= k < l < |ds| :: ds[k].subscriber < ds[l].subscriber
  }

  /** The inner loop skips no one it should serve: a subscription receives a
      send iff it wants the message and its channel is ready. */
  lemma {:induction false} FanoutServesExactlyReady(subs: seq<Subscription>, m: Message, ready: set<nat>, from: nat)
    requires from <= |subs|
    ensures forall i: nat :: Delivered(Fanout(subs, m, ready, from), i) <==>
      from <= i < |subs| && Matches(subs[i], m) && i in ready
    decreases |subs| - from
  {
    if from < |subs| {
      FanoutServesExactlyReady(subs, m, ready, from + 1);
      var rest := Fanout(subs, m, ready, from + 1);
      if Matches(subs[from], m) && from in ready {
        var d := Delivery(from, subs[from].channel, m);
        assert Fanout(subs, m, ready, from) == [d] + rest;
        DeliveredCons(d, rest);
      } else {
        assert Fanout(subs, m, ready, from) == rest;
      }
    }
  }

  /** The sends of the inner loop follow registration order, so no
      subscription gets the message twice. */
  lemma {:induction false} FanoutInRegistrationOrder(subs: seq<Subscription>, m: Message, ready: set<nat>, from: nat)
    requires from <= |subs|
    ensures InRegistrationOrder(Fanout(subs, m, ready, from))
    decreases |subs| - from
  {
    if from < |subs| {
      FanoutInRegistrationOrder(subs, m, ready, from + 1);
      var rest := Fanout(subs, m, ready, from + 1);
      if Matches(subs[from], m) && from in ready {
        var d := Delivery(from, subs[from].channel, m);
        var ds := [d] + rest;
        assert Fanout(subs, m, ready, from) == ds;
        forall k, l | 0 <= k < l < |ds| ensures ds[k].subscriber < ds[l].subscriber {
          assert ds[l] == rest[l - 1];
          assert from < rest[l - 1].subscriber;
          if k > 0 {
            assert ds[k] == rest[k - 1];
          } else {
            assert ds[k].subscriber == from;
          }
        }
      } else {
        assert Fanout(subs, m, ready, from) == rest;
      }
    }
  }

  /** One iteration of the broadcast loop after a wake-up: dequeue at most one
      message and offer it to the subscriptions. Skipped sends are not retried
      and the message is not put back. */
  function BroadcastStep(r: Relayer, ready: set<nat>): (o: Broadcast)
    ensures o.relayer.subscriptions == r.subscriptions
    ensures |r.queue.messages| == 0 ==> o.relayer == r && o.deliveries == []
    ensures |r.queue.messages| > 0 ==>
      var m := r.queue.messages[|r.queue.messages| - 1];
      && o.relayer.queue.messages + [m] == r.queue.messages
      && (forall k | 0 <= k < |o.deliveries| :: o.deliveries[k].msg == m)
      && (forall i: nat :: Delivered(o.deliveries, i) <==>
            i < |r.subscriptions| && Matches(r.subscriptions[i], m) && i in ready)
    ensures forall k | 0 <= k < |o.deliveries| ::
      && o.deliveries[k].subscriber < |r.subscriptions|
      && o.deliveries[k].channel == r.subscriptions[o.deliveries[k].subscriber].channel
      && Matches(r.subscriptions[o.deliveries[k].subscriber], o.deliveries[k].msg)
    ensures InRegistrationOrder(o.deliveries)
  {
    var d := Dequeue(r.queue);
    match d.msg
    case None => Broadcast(r, [])
    case Some(m) =>
      DequeuePopsLast(r.queue);
      FanoutInRegistrationOrder(r.subscriptions, m, ready, 0);
      FanoutServesExactlyReady(r.subscriptions, m, ready, 0);
      Broadcast(r.(queue := d.rest), Fanout(r.subscriptions, m, ready, 0))
  }

  /** One iteration of the reader loop, given what the socket read returned:
      an error changes nothing, a message is enqueued. */
  function ReadStep(r: Relayer, res: ReadResult): (r': Relayer)
    ensures r'.subscriptions == r.subscriptions
    ensures res.ReadFailed? ==> r' == r
    ensures res.Received? ==> r'.queue == Enqueue(r.queue, res.msg)
  {
    match res
    case ReadFailed => r
    case Received(m) => r.(queue := Enqueue(r.queue, m))
  }

  // ---------------------------------------------------------------------
  // Properties of single steps

  /** A busy subscriber only loses its own send: whether subscription j is
      served does not depend on whether another subscription i is ready, and
      the queue after the step does not depend on readiness at all. */
  lemma BackpressureIsolation(r: Relayer, ready: set<nat>, i: nat, j: nat)
    requires i != j
    ensures Delivered(BroadcastStep(r, ready).deliveries, j) <==>
            Delivered(BroadcastStep(r, ready - {i}).deliveries, j)
    ensures BroadcastStep(r, ready).relayer == BroadcastStep(r, ready - {i}).relayer
  {
  }

  /** A subscription of type 0 that is ready receives whatever the step
      dequeues; a StartNewRound subscription never receives a ReceivedAnswer
      message, nor the reverse. */
  lemma BroadcastFiltering(r: Relayer, ready: set<nat>, i: nat)
    requires i < |r.subscriptions| && |r.queue.messages| > 0
    ensures var m := r.queue.messages[|r.queue.messages| - 1];
      && (r.subscriptions[i].msgType == 0 && i in ready ==> Delivered(BroadcastStep(r, ready).deliveries, i))
      && (r.subscriptions[i].msgType == StartNewRound && m.msgType == ReceivedAnswer ==>
            !Delivered(BroadcastStep(r, ready).deliveries, i))
      && (r.subscriptions[i].msgType == ReceivedAnswer && m.msgType == StartNewRound ==>
            !Delivered(BroadcastStep(r, ready).deliveries, i))
  {
    MessageTypeValues();
  }

  /** Under the queue layout the broadcast step sends the newest pending
      StartNewRound message if there is one, and the answer otherwise. */
  lemma BroadcastPriority(r: Relayer, ready: set<nat>)
    requires Invariant(r)
    ensures Invariant(BroadcastStep(r, ready).relayer)
    ensures forall k | 0 <= k < |BroadcastStep(r, ready).deliveries| ::
      var m := BroadcastStep(r, ready).deliveries[k].msg;
      if |Rounds(r.queue)| > 0 then m == Rounds(r.queue)[|Rounds(r.queue)| - 1]
      else Answer(r.queue) == Some(m)
  {
    DequeuePriority(r.queue);
    if |r.queue.messages| > 0 {
      DequeuePopsLast(r.queue);
    }
  }

  /** A message of a protocol type read into a relay with an empty queue is
      offered to the subscriptions at the next wake-up, after which the queue
      is empty again. */
  lemma ReadThenBroadcast(r: Relayer, m: Message, ready: set<nat>)
    requires |r.queue.messages| == 0
    requires m.msgType == StartNewRound || m.msgType == ReceivedAnswer
    ensures BroadcastStep(ReadStep(r, Received(m)), ready) == Broadcast(r, Fanout(r.subscriptions, m, ready, 0))
  {
    MessageTypeValues();
    assert ReadStep(r, Received(m)).queue == Queue([m]);
  }

  /** The read step keeps the invariant. */
  lemma ReadStepPreservesInvariant(r: Relayer, res: ReadResult)
    requires Invariant(r)
    ensures Invariant(ReadStep(r, res))
  {
    if res.Received? {
      EnqueuePreservesValid(r.queue, res.msg);
    }
  }

  /** Subscribing keeps the invariant. */
  lemma SubscribePreservesInvariant(r: Relayer, t: MessageType, ch: Channel)
    requires Invariant(r)
    ensures Invariant(SubscribeToMessages(r, t, ch))
  {
  }

  // ---------------------------------------------------------------------
  // Runs of the two loop bodies

  /** One loop iteration: the reader's, with the socket's answer, or the
      broadcaster's, with the set of ready subscriptions. */
  datatype Step = Read(result: ReadResult) | Wake(ready: set<nat>)

  /** One step applied to the relay and the sends made so far. */
  function Apply(b: Broadcast, st: Step): (b': Broadcast)
    ensures b'.relayer.subscriptions == b.relayer.subscriptions
    ensures b.deliveries <= b'.deliveries
    ensures st.Read? ==> b'.deliveries == b.deliveries
  {
    match st
    case Read(res) => Broadcast(ReadStep(b.relayer, res), b.deliveries)
    case Wake(ready) =>
      var o := BroadcastStep(b.relayer, ready);
      Broadcast(o.relayer, b.deliveries + o.deliveries)
  }

  /** The relay after a run of steps, and every send made along the way. */
  function Run(r: Relayer, steps: seq<Step>): Broadcast
  {
    if |steps| == 0 then Broadcast(r, [])
    else Apply(Run(r, steps[..|steps| - 1]), steps[|steps| - 1])
  }

  lemma RunSnoc(r: Relayer, init: seq<Step>, st: Step)
    ensures Run(r, init + [st]) == Apply(Run(r, init), st)
  {
    assert (init + [st])[..|init|] == init;
  }

  /** The message a step read from the socket, if any. */
  function ReadBy(st: Step): seq<Message>
  {
    match st
    case Read(Received(m)) => [m]
    case _ => []
  }

  /** The messages the socket delivered during a run. */
  function ReadMessages(steps: seq<Step>): seq<Message>
  {
    if |steps| == 0 then []
    else ReadMessages(steps[..|steps| - 1]) + ReadBy(steps[|steps| - 1])
  }

  /** Everything queued and everything sent is one of the messages in src. */
  predicate OnlyFrom(b: Broadcast, src: seq<Message>)
  {
    && (forall x | x in b.relayer.queue.messages :: x in src)
    && (forall k | 0 <= k < |b.deliveries| :: b.deliveries[k].msg in src)
  }

  /** Over any run the subscriptions stay as they were and the queue keeps its layout. */
  lemma {:induction false} RunPreservesInvariant(r: Relayer, steps: seq<Step>)
    requires Invariant(r)
    ensures Run(r, steps).relayer.subscriptions == r.subscriptions
    ensures Invariant(Run(r, steps).relayer)
  {
    if |steps| > 0 {
      var init := steps[..|steps| - 1];
      var prev := Run(r, init);
      RunPreservesInvariant(r, init);
      match steps[|steps| - 1]
      case Read(res) =>
        ReadStepPreservesInvariant(prev.relayer, res);
      case Wake(ready) =>
        BroadcastPriority(prev.relayer, ready);
    }
  }

  /** One step sends only to subscriptions that want the message, over their channels. */
  lemma ApplyDeliversToMatching(b: Broadcast, st: Step)
    requires forall k | 0 <= k < |b.deliveries| ::
      var d := b.deliveries[k];
      d.subscriber < |b.relayer.subscriptions|
      && d.channel == b.relayer.subscriptions[d.subscriber].channel
      && Matches(b.relayer.subscriptions[d.subscriber], d.msg)
    ensures forall k | 0 <= k < |Apply(b, st).deliveries| ::
      var d := Apply(b, st).deliveries[k];
      d.subscriber < |b.relayer.subscriptions|
      && d.channel == b.relayer.subscriptions[d.subscriber].channel
      && Matches(b.relayer.subscriptions[d.subscriber], d.msg)
  {
    if st.Wake? {
      var o := BroadcastStep(b.relayer, st.ready);
      var all := b.deliveries + o.deliveries;
      forall k | |b.deliveries| <= k < |all|
        ensures all[k] == o.deliveries[k - |b.deliveries|]
      {
      }
    }
  }

  /** Over any run every send went to a subscription that wants the message,
      over the channel it registered. */
  lemma {:induction false} RunDeliversToMatching(r: Relayer, steps: seq<Step>)
    ensures Run(r, steps).relayer.subscriptions == r.subscriptions
    ensures forall k | 0 <= k < |Run(r, steps).deliveries| ::
      var d := Run(r, steps).deliveries[k];
      && d.subscriber < |r.subscriptions|
      && d.channel == r.subscriptions[d.subscriber].channel
      && Matches(r.subscriptions[d.subscriber], d.msg)
  {
    if |steps| > 0 {
      RunDeliversToMatching(r, steps[..|steps| - 1]);
      ApplyDeliversToMatching(Run(r, steps[..|steps| - 1]), steps[|steps| - 1]);
    }
  }

  /** A broadcast step only removes from the queue, and what it sends was queued. */
  lemma BroadcastSendsOnlyQueued(r: Relayer, ready: set<nat>)
    ensures forall x | x in BroadcastStep(r, ready).relayer.queue.messages :: x in r.queue.messages
    ensures forall k | 0 <= k < |BroadcastStep(r, ready).deliveries| ::
      BroadcastStep(r, ready).deliveries[k].msg in r.queue.messages
  {
    var o := BroadcastStep(r, ready);
    var q := r.queue.messages;
    if |q| > 0 {
      assert o.relayer.queue.messages + [q[|q| - 1]] == q;
      forall x | x in o.relayer.queue.messages ensures x in q {
        var i :| 0 <= i < |o.relayer.queue.messages| && o.relayer.queue.messages[i] == x;
        assert q[i] == x;
      }
    }
  }

  /** One step stores and sends only what was already there or what it read. */
  lemma ApplyOnlyFrom(b: Broadcast, st: Step, src: seq<Message>)
    requires OnlyFrom(b, src)
    ensures OnlyFrom(Apply(b, st), src + ReadBy(st))
  {
    var src' := src + ReadBy(st);
    match st
    case Read(res) =>
      if res.Received? {
        EnqueueOnlyAddsTheMessage(b.relayer.queue, res.msg);
        assert res.msg in src';
      }
    case Wake(ready) =>
      var o := BroadcastStep(b.relayer, ready);
      BroadcastSendsOnlyQueued(b.relayer, ready);
      var all := b.deliveries + o.deliveries;
      forall k | 0 <= k < |all| ensures all[k].msg in src {
        if k >= |b.deliveries| {
          assert all[k] == o.deliveries[k - |b.deliveries|];
        }
      }
  }

  /** The relay never invents a message: over any run, everything still
      queued and everything sent was queued at the start or was read from
      the socket during the run. */
  lemma {:induction false} RunOnlyRelaysReadMessages(r: Relayer, steps: seq<Step>)
    ensures OnlyFrom(Run(r, steps), r.queue.messages + ReadMessages(steps))
  {
    if |steps| == 0 {
      assert r.queue.messages + ReadMessages(steps) == r.queue.messages;
    } else {
      var init := steps[..|steps| - 1];
      RunOnlyRelaysReadMessages(r, init);
      ApplyOnlyFrom(Run(r, init), steps[|steps| - 1], r.queue.messages + ReadMessages(init));
      assert r.queue.messages + ReadMessages(init) + ReadBy(steps[|steps| - 1])
          == r.queue.messages + ReadMessages(steps);
    }
  }
}
