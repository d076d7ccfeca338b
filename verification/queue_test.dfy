/** The queue scenarios of the repository's queue tests, as lemmas. */
module QueueTests {
  import opened Wrappers
  import opened Messages
  import opened MessageQueue

  /** A one-byte ASCII payload ("1" is 0x31, and so on). */
  function Digit(d: nat): (b: seq<Byte>)
    requires d < 10
    ensures |b| == 1
  {
    [(0x30 + d) as Byte]
  }

  function S(d: nat): Message requires d < 10 { NewMessage(StartNewRound, Digit(d)) }
  function A(d: nat): Message requires d < 10 { NewMessage(ReceivedAnswer, Digit(d)) }

  /** Three answers in a row leave only the last one. */
  lemma OnlyAnswersScenario()
    ensures GetMessages(EnqueueAll(NewQueue(), [A(1), A(2), A(3)])) == [A(3)]
  {
    MessageTypeValues();
    var q1 := Enqueue(NewQueue(), A(1));
    assert q1.messages == [A(1)];
    var q2 := Enqueue(q1, A(2));
    assert q2.messages == [A(2)];
    var q3 := Enqueue(q2, A(3));
    assert q3.messages == [A(3)];
    var ms := [A(1), A(2), A(3)];
    assert ms[..2][..1] == [A(1)];
    assert ms[..2] == [A(1), A(2)];
  }

  /** Four rounds in a row leave the last two, oldest first. */
  lemma OnlyRoundsScenario()
    ensures GetMessages(EnqueueAll(NewQueue(), [S(1), S(2), S(3), S(4)])) == [S(3), S(4)]
  {
    MessageTypeValues();
    var ms := [S(1), S(2), S(3), S(4)];
    RoundsOnlyKeepsLastTwo(ms);
    assert LastN(ms, 2) == [S(3), S(4)];
  }

  /** The newest two rounds of the mixed scenario are s4 and s5. */
  lemma MixedScenarioRounds(s1: Message, s2: Message, a1: Message, s4: Message, s5: Message, a2: Message)
    requires s4.msgType == s5.msgType == StartNewRound
    requires a2.msgType == ReceivedAnswer
    ensures LastN(OfType([s1, s2, a1, s4, s5, a2], StartNewRound), 2) == [s4, s5]
  {
    MessageTypeValues();
    var ms := [s1, s2, a1, s4, s5, a2];
    var m5, m4, m3 := ms[..5], ms[..4], ms[..3];
    assert m5[..4] == m4 && m4[..3] == m3;
    assert OfType(ms, StartNewRound) == OfType(m5, StartNewRound);
    assert OfType(m5, StartNewRound) == OfType(m4, StartNewRound) + [s5];
    assert OfType(m4, StartNewRound) == OfType(m3, StartNewRound) + [s4];
    var early := OfType(m3, StartNewRound);
    assert OfType(ms, StartNewRound) == early + [s4, s5];
  }

  /** Rounds s1, s2, an answer a1, rounds s4, s5 and an answer a2, enqueued
      into a new queue in that order, leave [a2, s4, s5]: the later answer
      replaced the earlier one and only the two newest rounds are kept. */
  lemma MixedScenarioQueue(s1: Message, s2: Message, a1: Message, s4: Message, s5: Message, a2: Message)
    requires s1.msgType == s2.msgType == s4.msgType == s5.msgType == StartNewRound
    requires a1.msgType == a2.msgType == ReceivedAnswer
    ensures EnqueueAll(NewQueue(), [s1, s2, a1, s4, s5, a2]) == Queue([a2, s4, s5])
  {
    var ms := [s1, s2, a1, s4, s5, a2];
    EnqueueAllFromEmpty(NewQueue(), ms);
    MixedScenarioRounds(s1, s2, a1, s4, s5, a2);
    assert LatestOfType(ms, ReceivedAnswer, None) == Some(a2);
    assert Some(a2).ToSeq() == [a2];
  }

  /** Draining that queue gives s5, s4, a2: the rounds newest first, then the
      answer. */
  lemma MixedScenarioDrain(s1: Message, s2: Message, a1: Message, s4: Message, s5: Message, a2: Message)
    requires s1.msgType == s2.msgType == s4.msgType == s5.msgType == StartNewRound
    requires a1.msgType == a2.msgType == ReceivedAnswer
    ensures Drain(EnqueueAll(NewQueue(), [s1, s2, a1, s4, s5, a2])) == [s5, s4, a2]
  {
    MixedScenarioQueue(s1, s2, a1, s4, s5, a2);
    var q := Queue([a2, s4, s5]);
    DrainIsReverse(q);
    var r2, r1 := [a2, s4], [a2];
    assert q.messages[..2] == r2 && r2[..1] == r1 && r1[..0] == [];
    assert Reverse(q.messages) == [s5] + Reverse(r2);
    assert Reverse(r2) == [s4] + Reverse(r1);
    assert Reverse(r1) == [a2];
  }

  /** S1, S2, A1, S4, S5, A2 leave [A2, S4, S5]; draining gives S5, S4, A2,
      after which Dequeue returns nothing. */
  lemma MixedScenario()
    ensures GetMessages(EnqueueAll(NewQueue(), [S(1), S(2), A(1), S(4), S(5), A(2)])) == [A(2), S(4), S(5)]
    ensures Drain(EnqueueAll(NewQueue(), [S(1), S(2), A(1), S(4), S(5), A(2)])) == [S(5), S(4), A(2)]
  {
    MessageTypeValues();
    MixedScenarioQueue(S(1), S(2), A(1), S(4), S(5), A(2));
    MixedScenarioDrain(S(1), S(2), A(1), S(4), S(5), A(2));
  }

  /** Dequeue pops from the back even when the queue was built directly with
      three rounds (no layout assumed), and then reports empty. */
  lemma DequeueScenario()
    ensures var q := Queue([S(1), S(2), S(3)]);
      && Dequeue(q).msg == Some(S(3))
      && Dequeue(Dequeue(q).rest).msg == Some(S(2))
      && Dequeue(Dequeue(Dequeue(q).rest).rest).msg == Some(S(1))
      && Dequeue(Dequeue(Dequeue(Dequeue(q).rest).rest).rest).msg == None
  {
  }
}
