/**
 The message data model of the relay: message types are bit flags, a message
 is an immutable record of a type and a byte payload, and the network socket
 yields either a message or an error.
 */
module Messages {

  /** A message type. It is a plain integer that is only ever compared, so its
      machine width does not matter; the value 0 is reserved by subscriptions
      as "every type". */
  type MessageType = int

  /** One byte of a payload. */
  type Byte = bv8

  /** `1 << n`, the value the n-th constant of an `iota` flag block receives. */
  function Flag(n: nat): (r: MessageType)
    ensures r >= n + 1
  {
    if n == 0 then 1 else 2 * Flag(n - 1)
  }

  /** The first flag of the block (iota = 0). */
  const StartNewRound: MessageType := Flag(0)

  /** The second flag of the block (iota = 1). */
  const ReceivedAnswer: MessageType := Flag(1)

  /** Later flags are strictly larger, so flags never collide. */
  lemma {:induction false} FlagStrictlyIncreasing(i: nat, j: nat)
    requires i < j
    ensures Flag(i) < Flag(j)
    decreases j
  {
    if i < j - 1 {
      FlagStrictlyIncreasing(i, j - 1);
    }
  }

  /** Distinct flags are distinct types, and no flag is the "every type" filter 0. */
  lemma FlagsDistinctAndNonZero(i: nat, j: nat)
    ensures Flag(i) != 0
    ensures i != j ==> Flag(i) != Flag(j)
  {
    if i < j {
      FlagStrictlyIncreasing(i, j);
    } else if j < i {
      FlagStrictlyIncreasing(j, i);
    }
  }

  /** The two protocol types have the wire values 1 and 2, differ from each
      other, and differ from the "every type" filter 0. */
  lemma MessageTypeValues()
    ensures StartNewRound == 1 && ReceivedAnswer == 2
    ensures StartNewRound != ReceivedAnswer
    ensures StartNewRound != 0 && ReceivedAnswer != 0
  {
  }

  /** A message as read from the network socket. Equality is structural. */
  datatype Message = Message(msgType: MessageType, data: seq<Byte>)

  /** Builds a message from a type and the bytes of a string (a Go string is
      a byte sequence, so the conversion keeps every byte). */
  function NewMessage(t: MessageType, data: seq<Byte>): (m: Message)
    ensures m.msgType == t
    ensures m.data == data
  {
    Message(t, data)
  }

  /** Two constructed messages are equal exactly when type and bytes agree. */
  lemma NewMessageInjective(t1: MessageType, d1: seq<Byte>, t2: MessageType, d2: seq<Byte>)
    ensures NewMessage(t1, d1) == NewMessage(t2, d2) <==> t1 == t2 && d1 == d2
  {
  }

  /** The outcome of one blocking read of the network socket. The error value
      is opaque: the relay never inspects it. */
  datatype ReadResult = Received(msg: Message) | ReadFailed
}
