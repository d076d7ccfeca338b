/**
 The relay's class-aware message queue. All messages live in one sequence
 whose shape is kept by Enqueue: a ReceivedAnswer message, if any, sits at
 the front (at most one, a new one replaces it), and at most two
 StartNewRound messages follow in arrival order. Dequeue pops the last
 element, which under that layout yields StartNewRound messages first, most
 recent first, and the answer last.
 */
module MessageQueue {
  import opened Wrappers
  import opened Messages

  datatype Queue = Queue(messages: seq<Message>)

  /** The result of Dequeue: the popped message (None for Go's nil) and the
      queue that remains. */
  datatype Dequeued = Dequeued(msg: Option<Message>, rest: Queue)

  /** Reading the stored sequence: the pending answer, if any, then the rounds. */
  function GetMessages(q: Queue): (r: seq<Message>)
    ensures r == Answer(q).ToSeq() + Rounds(q)
  {
    q.messages
  }

  // ---------------------------------------------------------------------
  // Layout of the sequence

  /** Whether the front of the sequence holds a ReceivedAnswer message. */
  predicate AnswerAtFront(s: seq<Message>)
  {
    |s| > 0 && s[0].msgType == ReceivedAnswer
  }

  /** The pending answer: the front message when it is a ReceivedAnswer. */
  function Answer(q: Queue): Option<Message>
  {
    if AnswerAtFront(q.messages) then Some(q.messages[0]) else None
  }

  /** Everything behind the front answer (the whole sequence when there is none). */
  function Rounds(q: Queue): seq<Message>
  {
    if AnswerAtFront(q.messages) then q.messages[1..] else q.messages
  }

  /** The layout Enqueue keeps: behind an optional front ReceivedAnswer there
      are only StartNewRound messages, at most two of them. Hence there is at
      most one ReceivedAnswer, it is at index 0, and no other type occurs. */
  predicate Valid(q: Queue): (b: bool)
    ensures b ==> |q.messages| <= 3
  {
    var rounds := Rounds(q);
    && |rounds| <= 2
    && forall i | 0 <= i < |rounds| :: rounds[i].msgType == StartNewRound
  }

  /** The sequence is the optional answer followed by the rounds. */
  lemma AnswerThenRounds(q: Queue)
    ensures q.messages == Answer(q).ToSeq() + Rounds(q)
    ensures Answer(q).Some? ==> Answer(q).value.msgType == ReceivedAnswer
  {
  }

  /** Under the layout, the message types at every index are as described. */
  lemma ValidLayout(q: Queue)
    requires Valid(q)
    ensures forall i | 0 <= i < |q.messages| ::
      q.messages[i].msgType == StartNewRound || (i == 0 && q.messages[i].msgType == ReceivedAnswer)
    ensures |q.messages| <= 3
  {
    var rounds := Rounds(q);
    forall i | 0 <= i < |q.messages|
      ensures q.messages[i].msgType == StartNewRound || (i == 0 && q.messages[i].msgType == ReceivedAnswer)
    {
      if AnswerAtFront(q.messages) && i > 0 {
        assert q.messages[i] == rounds[i - 1];
      } else if !AnswerAtFront(q.messages) {
        assert q.messages[i] == rounds[i];
      }
    }
  }

  // ---------------------------------------------------------------------
  // Operations

  /** A new, empty queue. */
  function NewQueue(): (q: Queue)
    ensures |q.messages| == 0
    ensures Valid(q)
  {
    Queue([])
  }

  /** The number of messages of type t (the counting loop of Enqueue). */
  function CountOfType(s: seq<Message>, t: MessageType): (n: nat)
    ensures n <= |s|
  {
    if |s| == 0 then 0
    else (if s[0].msgType == t then 1 else 0) + CountOfType(s[1..], t)
  }

  /** The sequence without its element at index i; the others keep their order. */
  function RemoveAt(s: seq<Message>, i: nat): (r: seq<Message>)
    requires i < |s|
    ensures |r| == |s| - 1
    ensures s[..i] == r[..i] && s[i + 1..] == r[i..]
  {
    s[..i] + s[i + 1..]
  }

  /** Pushes a message. A StartNewRound message is appended; when two or more
      StartNewRound messages are already stored, the element at index 0 is
      first removed, or the one at index 1 when a ReceivedAnswer is at the
      front. A ReceivedAnswer message overwrites a front ReceivedAnswer and is
      otherwise put in front. A message of any other type is ignored. */
  function Enqueue(q: Queue, m: Message): (r: Queue)
    ensures m.msgType != StartNewRound && m.msgType != ReceivedAnswer ==> r == q
    ensures m.msgType == ReceivedAnswer ==> Answer(r) == Some(m) && Rounds(r) == Rounds(q)
    ensures m.msgType == StartNewRound ==>
      |r.messages| > 0 && r.messages[|r.messages| - 1] == m && |q.messages| <= |r.messages| + 1
  {
    var s := q.messages;
    if m.msgType == StartNewRound then
      var kept :=
        if |s| > 0 && CountOfType(s, StartNewRound) >= 2 then
          RemoveAt(s, if s[0].msgType == ReceivedAnswer then 1 else 0)
        else s;
      Queue(kept + [m])
    else if m.msgType == ReceivedAnswer then
      if AnswerAtFront(s) then Queue(s[0 := m]) else Queue([m] + s)
    else
      q
  }

  /** Pops the last message; on an empty queue returns None and keeps the queue. */
  function Dequeue(q: Queue): (d: Dequeued)
    ensures d.msg.None? <==> |q.messages| == 0
    ensures d.msg.None? ==> d.rest == q
    ensures d.msg.Some? ==> d.rest.messages + [d.msg.value] == q.messages
  {
    var s := q.messages;
    if |s| > 0 then Dequeued(Some(s[|s| - 1]), Queue(s[..|s| - 1]))
    else Dequeued(None, q)
  }

  // ---------------------------------------------------------------------
  // Sequence helpers for the properties

  /** The last n elements of s (all of s when it is shorter). */
  function LastN(s: seq<Message>, n: nat): (r: seq<Message>)
    ensures |r| == if |s| <= n then |s| else n
    ensures s == s[..|s| - |r|] + r
  {
    if |s| <= n then s else s[|s| - n..]
  }

  /** The messages of type t, in their order. */
  function OfType(ms: seq<Message>, t: MessageType): seq<Message>
  {
    if |ms| == 0 then []
    else OfType(ms[..|ms| - 1], t) + (if ms[|ms| - 1].msgType == t then [ms[|ms| - 1]] else [])
  }

  /** The last message of type t in ms, or dflt when there is none. */
  function LatestOfType(ms: seq<Message>, t: MessageType, dflt: Option<Message>): Option<Message>
  {
    if |ms| == 0 then dflt
    else if ms[|ms| - 1].msgType == t then Some(ms[|ms| - 1])
    else LatestOfType(ms[..|ms| - 1], t, dflt)
  }

  function Reverse(s: seq<Message>): (r: seq<Message>)
    ensures |r| == |s|
  {
    if |s| == 0 then [] else [s[|s| - 1]] + Reverse(s[..|s| - 1])
  }

  /** Enqueues ms one after the other, first element first. */
  function EnqueueAll(q: Queue, ms: seq<Message>): Queue
  {
    if |ms| == 0 then q else Enqueue(EnqueueAll(q, ms[..|ms| - 1]), ms[|ms| - 1])
  }

  /** Dequeues until the queue is empty and lists the messages in the order returned. */
  function Drain(q: Queue): seq<Message>
    decreases |q.messages|
  {
    var d := Dequeue(q);
    if d.msg.None? then [] else [d.msg.value] + Drain(d.rest)
  }

  // ---------------------------------------------------------------------
  // Properties

  /** Dequeue on an empty queue returns nil and leaves the queue empty. */
  lemma DequeueEmpty()
    ensures Dequeue(NewQueue()) == Dequeued(None, NewQueue())
  {
  }

  /** A sequence made only of messages of type t counts all of them. */
  lemma {:induction false} CountOfTypeAll(s: seq<Message>, t: MessageType)
    requires forall i | 0 <= i < |s| :: s[i].msgType == t
    ensures CountOfType(s, t) == |s|
  {
    if |s| > 0 {
      CountOfTypeAll(s[1..], t);
    }
  }

  /** Under the layout the StartNewRound count is the number of rounds. */
  lemma CountRoundsUnderLayout(q: Queue)
    requires Valid(q)
    ensures CountOfType(q.messages, StartNewRound) == |Rounds(q)|
  {
    MessageTypeValues();
    CountOfTypeAll(Rounds(q), StartNewRound);
  }

  /** A sequence built from an optional answer and a tail that does not start
      with an answer of its own splits back into that answer and that tail. */
  lemma SplitAnswerAndRounds(a: Option<Message>, rest: seq<Message>)
    requires a.Some? ==> a.value.msgType == ReceivedAnswer
    requires a.None? && |rest| > 0 ==> rest[0].msgType != ReceivedAnswer
    ensures Answer(Queue(a.ToSeq() + rest)) == a
    ensures Rounds(Queue(a.ToSeq() + rest)) == rest
  {
    if a.Some? {
      assert (a.ToSeq() + rest)[1..] == rest;
    }
  }

  /** With two rounds stored, a StartNewRound removes the older round. */
  lemma EnqueueRoundFull(q: Queue, m: Message)
    requires Valid(q) && m.msgType == StartNewRound && |Rounds(q)| == 2
    ensures Enqueue(q, m).messages == Answer(q).ToSeq() + (Rounds(q)[1..] + [m])
  {
    MessageTypeValues();
    CountRoundsUnderLayout(q);
    var s := q.messages;
    if AnswerAtFront(s) {
      assert s == [s[0], s[1], s[2]];
      assert RemoveAt(s, 1) == [s[0], s[2]];
    } else {
      assert s == [s[0], s[1]];
      assert s[0].msgType == StartNewRound;
      assert RemoveAt(s, 0) == [s[1]];
    }
  }

  /** With fewer than two rounds stored, a StartNewRound is simply appended. */
  lemma EnqueueRoundRoom(q: Queue, m: Message)
    requires Valid(q) && m.msgType == StartNewRound && |Rounds(q)| < 2
    ensures Enqueue(q, m).messages == q.messages + [m]
  {
    MessageTypeValues();
    CountRoundsUnderLayout(q);
  }

  /** The last two of a sequence extended by one element. */
  lemma LastTwoOfSnoc(s: seq<Message>, m: Message)
    ensures |s| == 2 ==> LastN(s + [m], 2) == s[1..] + [m]
    ensures |s| < 2 ==> LastN(s + [m], 2) == s + [m]
  {
    if |s| == 2 {
      assert (s + [m])[1..] == s[1..] + [m];
    }
  }

  /** Under the layout, a StartNewRound leaves the answer followed by the last
      two of the old rounds and the message. */
  lemma EnqueueRoundMessages(q: Queue, m: Message)
    requires Valid(q) && m.msgType == StartNewRound
    ensures Enqueue(q, m).messages == Answer(q).ToSeq() + LastN(Rounds(q) + [m], 2)
  {
    LastTwoOfSnoc(Rounds(q), m);
    if |Rounds(q)| == 2 {
      EnqueueRoundFull(q, m);
    } else {
      EnqueueRoundRoom(q, m);
      AnswerThenRounds(q);
    }
  }

  /** The last two of some rounds and one more round start with a round. */
  lemma LastTwoStartsWithRound(rounds: seq<Message>, m: Message)
    requires |rounds| <= 2 && m.msgType == StartNewRound
    requires forall i | 0 <= i < |rounds| :: rounds[i].msgType == StartNewRound
    ensures LastN(rounds + [m], 2)[0].msgType == StartNewRound
  {
    LastTwoOfSnoc(rounds, m);
    if |rounds| == 2 {
      assert LastN(rounds + [m], 2)[0] == rounds[1];
    } else if |rounds| == 1 {
      assert LastN(rounds + [m], 2)[0] == rounds[0];
    }
  }

  /** Enqueueing a StartNewRound message appends it; with two rounds already
      stored exactly the oldest round is dropped, and the front answer stays. */
  lemma EnqueueRoundStart(q: Queue, m: Message)
    requires Valid(q) && m.msgType == StartNewRound
    ensures Answer(Enqueue(q, m)) == Answer(q)
    ensures Rounds(Enqueue(q, m)) == LastN(Rounds(q) + [m], 2)
    ensures |Rounds(q)| == 2 ==> Rounds(Enqueue(q, m)) == Rounds(q)[1..] + [m]
    ensures |Rounds(q)| < 2 ==> Rounds(Enqueue(q, m)) == Rounds(q) + [m]
  {
    MessageTypeValues();
    var tail := LastN(Rounds(q) + [m], 2);
    EnqueueRoundMessages(q, m);
    LastTwoStartsWithRound(Rounds(q), m);
    AnswerThenRounds(q);
    SplitAnswerAndRounds(Answer(q), tail);
    LastTwoOfSnoc(Rounds(q), m);
  }

  /** Enqueueing a ReceivedAnswer message replaces a front answer in place and
      otherwise prepends it; the rounds are untouched in both cases. */
  lemma EnqueueAnswer(q: Queue, m: Message)
    requires m.msgType == ReceivedAnswer
    ensures AnswerAtFront(q.messages) ==> Enqueue(q, m).messages == [m] + q.messages[1..]
    ensures !AnswerAtFront(q.messages) ==> Enqueue(q, m).messages == [m] + q.messages
    ensures Rounds(Enqueue(q, m)) == Rounds(q)
  {
    MessageTypeValues();
  }

  /** The last two of some rounds and one more round are all rounds. */
  lemma LastTwoAllRounds(rounds: seq<Message>, m: Message)
    requires |rounds| <= 2 && m.msgType == StartNewRound
    requires forall i | 0 <= i < |rounds| :: rounds[i].msgType == StartNewRound
    ensures forall i | 0 <= i < |LastN(rounds + [m], 2)| :: LastN(rounds + [m], 2)[i].msgType == StartNewRound
  {
    LastTwoOfSnoc(rounds, m);
    var tail := LastN(rounds + [m], 2);
    forall i | 0 <= i < |tail|
      ensures tail[i].msgType == StartNewRound
    {
      if i == |tail| - 1 {
        assert tail[i] == m;
      } else if |rounds| == 2 {
        assert tail[i] == rounds[i + 1];
      } else {
        assert tail[i] == rounds[i];
      }
    }
  }

  /** A StartNewRound message keeps the layout: the new rounds are the last
      two of the old rounds followed by the message. */
  lemma EnqueueRoundKeepsValid(q: Queue, m: Message)
    requires Valid(q) && m.msgType == StartNewRound
    ensures Valid(Enqueue(q, m))
  {
    EnqueueRoundStart(q, m);
    LastTwoAllRounds(Rounds(q), m);
  }

  /** Enqueue keeps the layout. */
  lemma EnqueuePreservesValid(q: Queue, m: Message)
    requires Valid(q)
    ensures Valid(Enqueue(q, m))
  {
    if m.msgType == StartNewRound {
      EnqueueRoundKeepsValid(q, m);
    } else if m.msgType == ReceivedAnswer {
      assert Rounds(Enqueue(q, m)) == Rounds(q);
    }
  }

  /** Enqueue never invents a message: everything stored afterwards was stored
      before or is the message just enqueued; no layout is needed. */
  lemma EnqueueOnlyAddsTheMessage(q: Queue, m: Message)
    ensures forall x | x in Enqueue(q, m).messages :: x in q.messages || x == m
  {
    var s := q.messages;
    if m.msgType == StartNewRound && |s| > 0 && CountOfType(s, StartNewRound) >= 2 {
      RemoveAtKeepsOthers(s, if s[0].msgType == ReceivedAnswer then 1 else 0);
    } else if m.msgType == ReceivedAnswer && AnswerAtFront(s) {
      ReplaceFrontKeepsOthers(s, m);
    }
  }

  /** Removing an element keeps only elements that were there. */
  lemma RemoveAtKeepsOthers(s: seq<Message>, i: nat)
    requires i < |s|
    ensures forall x | x in RemoveAt(s, i) :: x in s
  {
    forall x | x in RemoveAt(s, i) ensures x in s {
      var k :| 0 <= k < |RemoveAt(s, i)| && RemoveAt(s, i)[k] == x;
      if k >= i {
        assert x == s[k + 1];
      }
    }
  }

  /** Overwriting the front keeps only the old elements and the new one. */
  lemma ReplaceFrontKeepsOthers(s: seq<Message>, m: Message)
    requires |s| > 0
    ensures forall x | x in s[0 := m] :: x in s || x == m
  {
    forall x | x in s[0 := m] ensures x in s || x == m {
      var k :| 0 <= k < |s| && s[0 := m][k] == x;
      if k > 0 {
        assert x == s[k];
      }
    }
  }

  /** Dequeue pops the last message and keeps the order of the rest; no layout is needed. */
  lemma DequeuePopsLast(q: Queue)
    requires |q.messages| > 0
    ensures Dequeue(q).msg == Some(q.messages[|q.messages| - 1])
    ensures Dequeue(q).rest.messages == q.messages[..|q.messages| - 1]
  {
    var d := Dequeue(q);
    assert d.rest.messages == (d.rest.messages + [d.msg.value])[..|q.messages| - 1];
  }

  /** Under the layout Dequeue gives StartNewRound priority: it returns the
      most recent round while there is one, and the answer only after that. */
  lemma DequeuePriority(q: Queue)
    requires Valid(q)
    ensures Valid(Dequeue(q).rest)
    ensures |Rounds(q)| > 0 ==>
      && Dequeue(q).msg == Some(Rounds(q)[|Rounds(q)| - 1])
      && Rounds(Dequeue(q).rest) == Rounds(q)[..|Rounds(q)| - 1]
      && Answer(Dequeue(q).rest) == Answer(q)
    ensures |Rounds(q)| == 0 ==> Dequeue(q).msg == Answer(q) && |Dequeue(q).rest.messages| == 0
  {
    MessageTypeValues();
    var s := q.messages;
    var rounds := Rounds(q);
    var d := Dequeue(q);
    if |s| > 0 {
      DequeuePopsLast(q);
      if AnswerAtFront(s) && |rounds| > 0 {
        assert d.rest.messages == [s[0]] + rounds[..|rounds| - 1];
      }
      var restRounds := Rounds(d.rest);
      forall i | 0 <= i < |restRounds|
        ensures restRounds[i].msgType == StartNewRound
      {
        if AnswerAtFront(s) {
          assert restRounds[i] == rounds[i];
        } else {
          assert restRounds[i] == s[i] == rounds[i];
        }
      }
    }
  }

  /** Draining pops the messages in reverse order of storage; no layout is needed. */
  lemma {:induction false} DrainIsReverse(q: Queue)
    ensures Drain(q) == Reverse(q.messages)
    decreases |q.messages|
  {
    var d := Dequeue(q);
    if d.msg.Some? {
      DequeuePopsLast(q);
      DrainIsReverse(d.rest);
    }
  }

  /** Reversing a concatenation reverses the order of the parts. */
  lemma {:induction false} ReverseAppend(a: seq<Message>, b: seq<Message>)
    ensures Reverse(a + b) == Reverse(b) + Reverse(a)
    decreases |b|
  {
    if |b| == 0 {
      assert a + b == a;
    } else {
      var init := b[..|b| - 1];
      var last := b[|b| - 1];
      assert (a + b)[..|a + b| - 1] == a + init;
      assert (a + b)[|a + b| - 1] == last;
      ReverseAppend(a, init);
      assert Reverse(a + b) == [last] + (Reverse(init) + Reverse(a));
      assert Reverse(b) == [last] + Reverse(init);
    }
  }

  /** Under the layout, draining yields every StartNewRound message, newest
      first, and then the answer. */
  lemma DrainOrder(q: Queue)
    requires Valid(q)
    ensures Drain(q) == Reverse(Rounds(q)) + Answer(q).ToSeq()
  {
    var a := Answer(q).ToSeq();
    DrainIsReverse(q);
    AnswerThenRounds(q);
    ReverseAppend(a, Rounds(q));
    if |a| == 1 {
      assert a[..0] == [];
      assert Reverse(a) == [a[0]] + Reverse([]);
    }
    assert Reverse(a) == a;
  }

  /** In a drain of a well-laid-out queue no StartNewRound message comes after
      a ReceivedAnswer message. */
  lemma DrainRoundsBeforeAnswer(q: Queue)
    requires Valid(q)
    ensures forall i, j | 0 <= i < j < |Drain(q)| ::
      Drain(q)[j].msgType == StartNewRound ==> Drain(q)[i].msgType == StartNewRound
  {
    DrainOrder(q);
    MessageTypeValues();
    ReverseElements(Rounds(q));
    var a := Answer(q).ToSeq();
    assert |a| > 0 ==> a[0].msgType == ReceivedAnswer;
  }

  lemma {:induction false} ReverseElements(s: seq<Message>)
    ensures forall k | 0 <= k < |s| :: Reverse(s)[k] == s[|s| - 1 - k]
    decreases |s|
  {
    if |s| > 0 {
      ReverseElements(s[..|s| - 1]);
    }
  }

  lemma LastNSnoc(s: seq<Message>, m: Message)
    ensures LastN(LastN(s, 2) + [m], 2) == LastN(s + [m], 2)
  {
  }

  lemma OfTypeSnoc(prefix: seq<Message>, init: seq<Message>, m: Message, t: MessageType)
    ensures prefix + OfType(init + [m], t) == prefix + OfType(init, t) + (if m.msgType == t then [m] else [])
  {
    assert (init + [m])[..|init|] == init;
  }

  /** The arrival-history summary after a StartNewRound step: the rounds
      take in the message, the answer is unchanged. */
  lemma EnqueueStepShapeRound(q: Queue, p: Queue, init: seq<Message>, m: Message)
    requires Valid(p) && m.msgType == StartNewRound
    requires Rounds(p) == LastN(Rounds(q) + OfType(init, StartNewRound), 2)
    requires Answer(p) == LatestOfType(init, ReceivedAnswer, Answer(q))
    ensures Rounds(Enqueue(p, m)) == LastN(Rounds(q) + OfType(init + [m], StartNewRound), 2)
    ensures Answer(Enqueue(p, m)) == LatestOfType(init + [m], ReceivedAnswer, Answer(q))
  {
    var hist := Rounds(q) + OfType(init, StartNewRound);
    OfTypeSnoc(Rounds(q), init, m, StartNewRound);
    assert Rounds(q) + OfType(init + [m], StartNewRound) == hist + [m];
    EnqueueRoundStart(p, m);
    LastNSnoc(hist, m);
    MessageTypeValues();
    assert (init + [m])[..|init|] == init;
    assert LatestOfType(init + [m], ReceivedAnswer, Answer(q)) == LatestOfType(init, ReceivedAnswer, Answer(q));
  }

  /** The summary after a ReceivedAnswer step: the rounds are unchanged, the
      message becomes the answer. */
  lemma EnqueueStepShapeAnswer(q: Queue, p: Queue, init: seq<Message>, m: Message)
    requires m.msgType == ReceivedAnswer
    requires Rounds(p) == LastN(Rounds(q) + OfType(init, StartNewRound), 2)
    ensures Rounds(Enqueue(p, m)) == LastN(Rounds(q) + OfType(init + [m], StartNewRound), 2)
    ensures Answer(Enqueue(p, m)) == LatestOfType(init + [m], ReceivedAnswer, Answer(q))
  {
    MessageTypeValues();
    OfTypeSnoc(Rounds(q), init, m, StartNewRound);
    assert Rounds(q) + OfType(init + [m], StartNewRound) == Rounds(q) + OfType(init, StartNewRound);
    assert (init + [m])[|init + [m]| - 1] == m;
  }

  /** The summary after a message of any other type: nothing changes. */
  lemma EnqueueStepShapeOther(q: Queue, p: Queue, init: seq<Message>, m: Message)
    requires m.msgType != StartNewRound && m.msgType != ReceivedAnswer
    requires Rounds(p) == LastN(Rounds(q) + OfType(init, StartNewRound), 2)
    requires Answer(p) == LatestOfType(init, ReceivedAnswer, Answer(q))
    ensures Rounds(Enqueue(p, m)) == LastN(Rounds(q) + OfType(init + [m], StartNewRound), 2)
    ensures Answer(Enqueue(p, m)) == LatestOfType(init + [m], ReceivedAnswer, Answer(q))
  {
    OfTypeSnoc(Rounds(q), init, m, StartNewRound);
    assert Rounds(q) + OfType(init + [m], StartNewRound) == Rounds(q) + OfType(init, StartNewRound);
    assert (init + [m])[..|init|] == init;
    assert LatestOfType(init + [m], ReceivedAnswer, Answer(q)) == LatestOfType(init, ReceivedAnswer, Answer(q));
  }

  /** One Enqueue step, stated in terms of the arrival history. */
  lemma EnqueueStepShape(q: Queue, p: Queue, init: seq<Message>, m: Message)
    requires Valid(p)
    requires Rounds(p) == LastN(Rounds(q) + OfType(init, StartNewRound), 2)
    requires Answer(p) == LatestOfType(init, ReceivedAnswer, Answer(q))
    ensures Rounds(Enqueue(p, m)) == LastN(Rounds(q) + OfType(init + [m], StartNewRound), 2)
    ensures Answer(Enqueue(p, m)) == LatestOfType(init + [m], ReceivedAnswer, Answer(q))
  {
    if m.msgType == StartNewRound {
      EnqueueStepShapeRound(q, p, init, m);
    } else if m.msgType == ReceivedAnswer {
      EnqueueStepShapeAnswer(q, p, init, m);
    } else {
      EnqueueStepShapeOther(q, p, init, m);
    }
  }

  /** Enqueueing a sequence of messages into a well-laid-out queue keeps the
      layout; the rounds are the two most recent StartNewRound messages seen
      (stored oldest first), and the answer is the most recent ReceivedAnswer. */
  lemma {:induction false} EnqueueAllShape(q: Queue, ms: seq<Message>)
    requires Valid(q)
    ensures Valid(EnqueueAll(q, ms))
    ensures Rounds(EnqueueAll(q, ms)) == LastN(Rounds(q) + OfType(ms, StartNewRound), 2)
    ensures Answer(EnqueueAll(q, ms)) == LatestOfType(ms, ReceivedAnswer, Answer(q))
  {
    if |ms| == 0 {
      assert Rounds(q) + OfType(ms, StartNewRound) == Rounds(q);
    } else {
      var init := ms[..|ms| - 1];
      var m := ms[|ms| - 1];
      assert ms == init + [m];
      var p := EnqueueAll(q, init);
      EnqueueAllShape(q, init);
      EnqueuePreservesValid(p, m);
      EnqueueStepShape(q, p, init, m);
    }
  }

  /** Enqueueing any sequence into an empty queue stores the most recent
      ReceivedAnswer (if any) followed by the two most recent StartNewRound
      messages, oldest first. */
  lemma EnqueueAllFromEmpty(e: Queue, ms: seq<Message>)
    requires e.messages == []
    ensures EnqueueAll(e, ms).messages ==
      LatestOfType(ms, ReceivedAnswer, None).ToSeq() + LastN(OfType(ms, StartNewRound), 2)
  {
    var r := EnqueueAll(e, ms);
    EnqueueAllShape(e, ms);
    assert Rounds(e) == [] && Answer(e) == None;
    assert Rounds(e) + OfType(ms, StartNewRound) == OfType(ms, StartNewRound);
    AnswerThenRounds(r);
  }

  /** Only StartNewRound messages, enqueued into an empty queue: the queue holds
      the last two of them (all of them if fewer), in arrival order. */
  lemma RoundsOnlyKeepsLastTwo(ms: seq<Message>)
    requires forall i | 0 <= i < |ms| :: ms[i].msgType == StartNewRound
    ensures GetMessages(EnqueueAll(NewQueue(), ms)) == LastN(ms, 2)
  {
    var r := EnqueueAll(NewQueue(), ms);
    RoundsOnlyRounds(ms);
    RoundsOnlyNoAnswer(ms);
    assert GetMessages(r) == Answer(r).ToSeq() + Rounds(r);
  }

  /** With rounds only, the rounds behind the (absent) answer are the last two. */
  lemma RoundsOnlyRounds(ms: seq<Message>)
    requires forall i | 0 <= i < |ms| :: ms[i].msgType == StartNewRound
    ensures Rounds(EnqueueAll(NewQueue(), ms)) == LastN(ms, 2)
  {
    RoundsOnlyFrom(NewQueue(), ms);
  }

  /** The same for any well-laid-out queue that holds no rounds. */
  lemma RoundsOnlyFrom(e: Queue, ms: seq<Message>)
    requires Valid(e) && Rounds(e) == []
    requires forall i | 0 <= i < |ms| :: ms[i].msgType == StartNewRound
    ensures Rounds(EnqueueAll(e, ms)) == LastN(ms, 2)
  {
    EnqueueAllShape(e, ms);
    var h := Rounds(e) + OfType(ms, StartNewRound);
    assert Rounds(EnqueueAll(e, ms)) == LastN(h, 2);
    OfTypeAll(ms, StartNewRound);
    assert h == ms;
  }

  /** With rounds only, no answer is ever stored. */
  lemma RoundsOnlyNoAnswer(ms: seq<Message>)
    requires forall i | 0 <= i < |ms| :: ms[i].msgType == StartNewRound
    ensures Answer(EnqueueAll(NewQueue(), ms)) == None
  {
    EnqueueAllShape(NewQueue(), ms);
    MessageTypeValues();
    LatestOfTypeAbsent(ms, ReceivedAnswer);
    assert Answer(NewQueue()) == None;
  }

  lemma {:induction false} OfTypeAll(ms: seq<Message>, t: MessageType)
    requires forall i | 0 <= i < |ms| :: ms[i].msgType == t
    ensures OfType(ms, t) == ms
  {
    if |ms| > 0 {
      OfTypeAll(ms[..|ms| - 1], t);
    }
  }

  lemma {:induction false} LatestOfTypeAbsent(ms: seq<Message>, t: MessageType)
    requires forall i | 0 <= i < |ms| :: ms[i].msgType != t
    ensures LatestOfType(ms, t, None) == None
  {
    if |ms| > 0 {
      LatestOfTypeAbsent(ms[..|ms| - 1], t);
    }
  }
}
