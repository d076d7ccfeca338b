/** The relay scenarios of the repository's relay tests, as runs of the two
    loop bodies. Every send to a subscriber that is waiting on its channel
    succeeds; a subscriber still processing the previous message is not ready. */
module MessageRelayTests {
  import opened Messages
  import opened MessageQueue
  import opened MessageRelay

  const Data: seq<Byte> := [0x64, 0x61, 0x74, 0x61]

  /** Three subscribers: every type on channel 1, StartNewRound on channel 2,
      ReceivedAnswer on channel 3. */
  function ThreeSubscribers(): (r: Relayer)
    ensures |r.subscriptions| == 3 && |r.queue.messages| == 0
  {
    var r0 := NewMessageRelayer();
    var r1 := SubscribeToMessages(r0, 0, 1);
    var r2 := SubscribeToMessages(r1, StartNewRound, 2);
    SubscribeToMessages(r2, ReceivedAnswer, 3)
  }

  lemma Twice<T>(a: T, b: T, c: T, d: T)
    ensures [a, b] + [c, d] + [a, b] + [c, d] == [a, b, c, d, a, b, c, d]
  {
  }

  /** A read followed by a wake-up, appended to a run that left the queue empty. */
  lemma RunReadThenWake(r: Relayer, init: seq<Step>, m: Message, ready: set<nat>)
    requires |Run(r, init).relayer.queue.messages| == 0
    requires m.msgType == StartNewRound || m.msgType == ReceivedAnswer
    ensures Run(r, init + [Read(Received(m)), Wake(ready)]) ==
      Broadcast(Run(r, init).relayer,
                Run(r, init).deliveries + Fanout(Run(r, init).relayer.subscriptions, m, ready, 0))
  {
    RunSnoc(r, init, Read(Received(m)));
    RunSnoc(r, init + [Read(Received(m))], Wake(ready));
    var prev := Run(r, init);
    assert Apply(prev, Read(Received(m))) == Broadcast(ReadStep(prev.relayer, Received(m)), prev.deliveries);
    assert init + [Read(Received(m))] + [Wake(ready)] == init + [Read(Received(m)), Wake(ready)];
    ReadThenBroadcast(Run(r, init).relayer, m, ready);
  }

  /** Who of the three subscribers gets a StartNewRound and a ReceivedAnswer message. */
  lemma AlternatingFanout(s: Message, a: Message)
    requires s.msgType == StartNewRound && a.msgType == ReceivedAnswer
    ensures Fanout(ThreeSubscribers().subscriptions, s, {0, 1, 2}, 0) == [Delivery(0, 1, s), Delivery(1, 2, s)]
    ensures Fanout(ThreeSubscribers().subscriptions, a, {0, 1, 2}, 0) == [Delivery(0, 1, a), Delivery(2, 3, a)]
  {
    MessageTypeValues();
    var subs := [Subscription(0, 1), Subscription(StartNewRound, 2), Subscription(ReceivedAnswer, 3)];
    assert ThreeSubscribers().subscriptions == subs;
    assert Fanout(subs, s, {0, 1, 2}, 2) == [];
    assert Fanout(subs, a, {0, 1, 2}, 2) == [Delivery(2, 3, a)];
  }

  /** Alternating StartNewRound and ReceivedAnswer messages, each broadcast
      as soon as it is read to three ready subscribers: the every-type
      subscriber gets all four, each typed subscriber gets its two. */
  lemma AlternatingScenario()
    ensures
      var s := NewMessage(StartNewRound, Data);
      var a := NewMessage(ReceivedAnswer, Data);
      var all := {0, 1, 2};
      var steps := [Read(Received(s)), Wake(all), Read(Received(a)), Wake(all),
                    Read(Received(s)), Wake(all), Read(Received(a)), Wake(all)];
      Run(ThreeSubscribers(), steps).deliveries ==
        [Delivery(0, 1, s), Delivery(1, 2, s), Delivery(0, 1, a), Delivery(2, 3, a),
         Delivery(0, 1, s), Delivery(1, 2, s), Delivery(0, 1, a), Delivery(2, 3, a)]
  {
    MessageTypeValues();
    var s := NewMessage(StartNewRound, Data);
    var a := NewMessage(ReceivedAnswer, Data);
    var all := {0, 1, 2};
    var r := ThreeSubscribers();
    var subs := [Subscription(0, 1), Subscription(StartNewRound, 2), Subscription(ReceivedAnswer, 3)];
    assert r == Relayer(subs, Queue([]));
    var toS := [Delivery(0, 1, s), Delivery(1, 2, s)];
    var toA := [Delivery(0, 1, a), Delivery(2, 3, a)];
    AlternatingFanout(s, a);
    var pS := [Read(Received(s)), Wake(all)];
    var pA := [Read(Received(a)), Wake(all)];
    assert Run(r, []) == Broadcast(r, []);
    RunReadThenWake(r, [], s, all);
    assert [] + pS == pS;
    assert Run(r, pS) == Broadcast(r, toS);
    RunReadThenWake(r, pS, a, all);
    assert Run(r, pS + pA) == Broadcast(r, toS + toA);
    RunReadThenWake(r, pS + pA, s, all);
    assert Run(r, pS + pA + pS) == Broadcast(r, toS + toA + toS);
    RunReadThenWake(r, pS + pA + pS, a, all);
    assert Run(r, pS + pA + pS + pA) == Broadcast(r, toS + toA + toS + toA);
    Twice(Read(Received(s)), Wake(all), Read(Received(a)), Wake(all));
    Twice(Delivery(0, 1, s), Delivery(1, 2, s), Delivery(0, 1, a), Delivery(2, 3, a));
  }

  /** A relayer with one every-type subscriber on channel ch and nothing queued. */
  predicate LoneSubscriber(r: Relayer, ch: Channel)
  {
    r.subscriptions == [Subscription(0, ch)] && r.queue.messages == []
  }

  /** A ready every-type subscriber gets the message; a busy one does not. */
  lemma BusyFanout(r: Relayer, ch: Channel, m: Message)
    requires LoneSubscriber(r, ch)
    ensures Fanout(r.subscriptions, m, {0}, 0) == [Delivery(0, ch, m)]
    ensures Fanout(r.subscriptions, m, {}, 0) == []
  {
  }

  /** The first two rounds of the busy-subscriber run: the ready subscriber
      gets the first message, the busy one misses the second. */
  lemma BusySubscriberFirstTwo(r: Relayer, ch: Channel, m1: Message, m2: Message)
    requires LoneSubscriber(r, ch)
    requires m1.msgType == StartNewRound || m1.msgType == ReceivedAnswer
    requires m2.msgType == StartNewRound || m2.msgType == ReceivedAnswer
    ensures Run(r, [Read(Received(m1)), Wake({0})] + [Read(Received(m2)), Wake({})])
            == Broadcast(r, [Delivery(0, ch, m1)])
  {
    BusyFanout(r, ch, m1);
    BusyFanout(r, ch, m2);
    var p1 := [Read(Received(m1)), Wake({0})];
    assert Run(r, []) == Broadcast(r, []);
    RunReadThenWake(r, [], m1, {0});
    assert [] + p1 == p1;
    assert Run(r, p1) == Broadcast(r, [Delivery(0, ch, m1)]);
    RunReadThenWake(r, p1, m2, {});
  }

  /** One every-type subscriber that is still busy with the first message
      when the second is broadcast: it receives the first and the third, and
      the second is dropped, not delivered later. */
  lemma BusySubscriberRun(r: Relayer, ch: Channel, m1: Message, m2: Message, m3: Message)
    requires LoneSubscriber(r, ch)
    requires m1.msgType == StartNewRound || m1.msgType == ReceivedAnswer
    requires m2.msgType == StartNewRound || m2.msgType == ReceivedAnswer
    requires m3.msgType == StartNewRound || m3.msgType == ReceivedAnswer
    ensures Run(r, [Read(Received(m1)), Wake({0})] + [Read(Received(m2)), Wake({})]
                   + [Read(Received(m3)), Wake({0})])
            == Broadcast(r, [Delivery(0, ch, m1), Delivery(0, ch, m3)])
  {
    var p12 := [Read(Received(m1)), Wake({0})] + [Read(Received(m2)), Wake({})];
    BusySubscriberFirstTwo(r, ch, m1, m2);
    BusyFanout(r, ch, m3);
    RunReadThenWake(r, p12, m3, {0});
    assert [Delivery(0, ch, m1)] + [Delivery(0, ch, m3)] == [Delivery(0, ch, m1), Delivery(0, ch, m3)];
  }
}
