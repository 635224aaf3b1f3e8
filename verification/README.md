# Stop-and-wait reliable data transfer, rdt2.0 to rdt3.0

This project models the protocol engine of a simulator for the textbook
reliable-data-transfer protocols (Kurose and Ross, section 3.4): the packet codec
and the sender and receiver automata of four generations.

- **rdt2.0**: checksum plus ACK/NAK.
- **rdt2.1**: adds an alternating-bit sequence tag.
- **rdt2.2**: drops the NAK. Every reply is an ACK keyed to a tag.
- **rdt3.0**: adds a retransmission timer on the sender.

Each Java `loop(int state)` does one transition and returns the next state. Here
each one is a pure function. A sender step takes the sender (its integer state and
the buffered packet) and the value returned by the blocking call that state makes:

- `FromApp(data)` from the application feed;
- `Arrived(raw)`, a string from the backward channel;
- `TimedOut`, rdt3.0 only.

A receiver step takes its state and a string from the forward channel. Each step
returns either the next state with an ordered list of actions, or `Threw`:

- the actions are `Send(packet)`, `Deliver(payload)`, `StartTimer` and `StopTimer`;
- `Threw` is what `substring` does on a string shorter than the packet header.

The channel is not modelled. What it does to a packet shows up only as the
string that arrives, and that string is an arbitrary input. The checksum algorithm
(`CkSum`) is not part of this model. Every operation takes it as a parameter
`ck: Checker`: any function from strings to 4-character strings. So every result
holds for whatever algorithm is plugged in.

Modules:

- `Packets` holds the codec. There is one `Packet(data, seqnum, checksum)` type.
  The rdt2.0 packet (the `RDT10` parent class is not part of this model) is the
  same type with an empty `seqnum`. Its checksum then covers the payload alone and
  its wire form is checksum followed by payload, as its `deserialize` implies.
  `Layout` picks the slicing: 4/rest for rdt2.0, 4/1/rest for the later
  generations. The three-argument Java constructor, which stores its fields
  verbatim, is the datatype constructor `Packet`.
- `Machines` holds the shared vocabulary: actions, outcomes, the sender and
  receiver records, and the state layout the alternating-bit generations share.
- `Rdt20`, `Rdt21`, `Rdt22`, `Rdt30` hold one generation each, following the
  four source files.
- `Session` dispatches on the generation. It composes sender and receiver over a
  channel that neither loses nor alters anything, and proves that the payloads
  are then delivered exactly once, in order.

Where the code and the textbook design disagree, the model follows the code.
One point that looks like a difference is not one:

- The rdt2.1 ACK and NAK carry only the placeholder tag " ", and the sender
  does not read it. It accepts any clean "ACK" (`Rdt21.AnyCleanAckAdvances`),
  which is the textbook's rdt2.1, whose ACK and NAK carry no sequence number.

The differences:

- The rdt2.2 sender recognises its ACK by comparing the reply's checksum with
  the checksum of an ACK tagged like its buffered packet. It never reads the
  reply's own sequence field (`Rdt22.ReplySeqnumIgnored`), and it never runs
  the corruption test either. The textbook (Kurose and Ross) tests that the
  reply is not corrupt and carries the expected sequence value. For a clean
  reply tagged t, with b the buffered tag, the two disagree exactly when t is
  not b and yet ck(t + "ACK") == ck(b + "ACK") (`Rdt22.CleanAckAdvancesIff`).
  A reply whose sequence character alone was damaged is still accepted here,
  while the textbook test rejects it as corrupt (`Rdt22.DamagedTagAccepted`).
- The rdt2.2 receiver overwrites `seqNum` with the packet's tag just before
  comparing the two. So it delivers every clean packet and toggles its state
  (see Findings).
- Unlike the code's own rdt2.2 receiver, the rdt3.0 receiver follows the
  textbook's. A corrupt or duplicate packet gets the ACK for the previous tag,
  and the expected packet is delivered and gets the ACK for its own tag. The
  only difference is that a clean packet whose tag is neither "0" nor "1" is
  delivered.

## Model

| member | source | states |
|---|---|---|
| `Packets.Make` | src/TCP/RDT21.java:58-60 | The computing constructor keeps payload and tag and never builds a corrupt packet. It is framed for the 4/1/rest layout exactly when the tag is one character. |
| `Packets.MakeBlank` | src/TCP/RDT21.java:50-52 | The one-argument constructor uses the blank tag " ". Its packet is clean and framed for the sequenced layout. |
| `Packets.MakePlain` | src/TCP/RDT20.java:39-41 | The rdt2.0 constructor takes the checksum over the payload alone. Its packet is clean and framed for the 4/rest layout. |
| `Packets.SerializeLayout` | src/TCP/RDT21.java:84-86 | `serialize` writes the checksum, then the sequence field, then the payload, each at a fixed offset and with no delimiters. `SerializeRoundTrip` shows that `Deserialize` inverts it. |
| `Packets.IsCorrupt` | src/TCP/RDT21.java:88-90 | A packet is corrupt exactly when its checksum field differs from ck(seqnum + data), so a clean packet's checksum has the digest width. `CleanIffFresh` states both directions in terms of the constructor. |
| `Packets.Deserialize` | src/TCP/RDT21.java:77-82 | Parsing succeeds exactly when the string is at least as long as the header. The parsed packet has fields of the header widths and serialises back to the very input string. |
| `Packets.SerializeRoundTrip` | src/TCP/RDT21.java:77-86 | deserialize(serialize(p)) == p for every packet whose checksum is 4 characters and whose tag has the layout's width. |
| `Packets.FreshPacketArrivesClean` | src/TCP/RDT21.java:84-90 | A freshly built packet sent over an unaltering channel parses back to itself and passes isCorrupt. |
| `Packets.CleanIffFresh` | src/TCP/RDT21.java:88-90 | A packet passes the corruption test exactly when it equals the packet the computing constructor builds from its own payload and tag. |
| `Rdt20.DeserializeSlices` | src/TCP/RDT20.java:45-49 | A string of 4 or more characters parses to checksum = first 4 characters and payload = the rest, and re-serialising gives the input back. |
| `Rdt20.SenderStep` | src/TCP/RDT20.java:60-87 | State 0 buffers and sends one fresh clean packet over the app payload and moves to 1. In state 1 a clean "ACK" returns to 0 sending nothing, and any other reply resends the identical buffered packet and stays in 1. A reply too short to parse throws. Other states are returned unchanged with no effects. No step delivers or touches a timer. |
| `Rdt20.ReceiverStep` | src/TCP/RDT20.java:98-118 | State 0 always returns 0. It delivers the payload and replies "ACK" exactly when the packet is clean, and otherwise replies "NAK" and delivers nothing. Other states are returned unchanged with no effects. |
| `Rdt20.CorruptReplyTriggersResend` | src/TCP/RDT20.java:71-82 | After sending a payload, a NAK or damaged ACK makes the sender put the same string on the wire again and keep its state. |
| `Rdt20.RetransmissionDeliveredTwice` | src/TCP/RDT20.java:100-115 | Without sequence numbers, the same clean packet received twice is delivered twice. This is the defect rdt2.0 is meant to expose. |
| `Rdt21.SenderStep` | src/TCP/RDT21.java:107-147 | States 0 and 2 send fresh clean packets tagged "0" and "1" and move to 1 and 3. In states 1 and 3 any clean "ACK" advances (1 to 2, 3 to 0) with no send. Anything else resends the buffered packet and keeps the state. A too-short reply throws. Unknown states are unchanged. The buffered packet is present in every waiting state reached. |
| `Rdt21.ReceiverStep` | src/TCP/RDT21.java:157-206 | In state 0 or 1, a corrupt packet gets "NAK" and the state is kept. A clean packet with the duplicate tag ("1" in state 0, "0" in state 1) is re-ACKed, not delivered, and the state is kept. A clean packet with any other tag is delivered and ACKed, and the receiver moves to the other state. Unknown states are unchanged. |
| `Rdt21.RedeliveryIsSuppressed` | src/TCP/RDT21.java:166-198 | At most once: after a state delivers a packet tagged "0" or "1", the next state re-ACKs that same packet and does not deliver it. |
| `Rdt21.AnyCleanAckAdvances` | src/TCP/RDT21.java:118-128 | The sender ignores the ACK's tag: in a waiting state a clean "ACK" with any one-character tag advances it. |
| `Rdt22.SenderStep` | src/TCP/RDT22.java:68-104 | States 0 and 2 send and buffer fresh packets tagged "0" and "1". States 1 and 3 advance with no send exactly when the reply's payload is "ACK" and its checksum equals ck(buffered tag + "ACK"). Otherwise they resend the identical buffered packet and keep the state. |
| `Rdt22.ReplySeqnumIgnored` | src/TCP/RDT22.java:79-83 | Two replies that differ only in the sequence character have the same effect on the sender. |
| `Rdt22.DamagedTagAccepted` | src/TCP/RDT22.java:79-83 | A waiting sender advances on an "ACK" whose checksum is the one for the buffered tag, whatever its sequence character. That reply is corrupt exactly when the checksums of the two tagged ACKs differ, so whenever they differ the sender advances on a corrupt reply. |
| `Rdt22.CleanAckAdvancesIff` | src/TCP/RDT22.java:79-83 | A clean ACK tagged t advances a waiting sender exactly when ck(t + "ACK") equals ck(b + "ACK") for the buffered tag b, so any tag whose ACK checksum collides with b's is accepted. |
| `Rdt22.ReceiverStep` | src/TCP/RDT22.java:116-160 | A clean packet is delivered and answered with ACK carrying the packet's own tag. The state flips whatever that tag is, and both string fields are reset to the new state's values. A corrupt packet is answered with ACK carrying `badSeqNum` and delivers nothing. It keeps the state, but `seqNum` is overwritten with the packet's tag. The invariant `badSeqNum` = "1" in state 0 and "0" in state 1 is preserved. |
| `Rdt22.SeqNumFieldUnread` | src/TCP/RDT22.java:120-126 | The `seqNum` field carried between calls never influences a recognised state's transition. |
| `Rdt22.RetransmissionDeliveredTwice` | src/TCP/RDT22.java:120-151 | As written, a packet tagged "0" is delivered in state 0 and its identical retransmission is delivered again in state 1. |
| `Rdt22.ReceiverStepIntended` | src/TCP/RDT22.java:113-160 | Corrected receiver: it delivers exactly when the packet is clean and carries the expected tag `seqNum`. Anything else gets ACK with `badSeqNum` and changes nothing. The invariant "seqNum/badSeqNum are 0/1 in state 0 and 1/0 in state 1" is preserved. |
| `Rdt22.IntendedSuppressesRedelivery` | src/TCP/RDT22.java:120-157 | At most once, for the corrected receiver: a retransmission of a just-delivered packet is not delivered again. It is answered with the same ACK as the first copy. |
| `Rdt22.RepliesRoundTrip` | src/TCP/RDT22.java:52-57 | Every ACK the receiver sends from a consistent state is parsed back by the 4/1/rest slicing to the same packet, which is clean. |
| `Rdt30.SenderStep` | src/TCP/RDT30.java:64-137 | States 0 and 2 send and buffer fresh packets tagged "0" and "1". In states 1 and 3 the step always starts by arming the timer. It advances and stops the timer exactly when a reply arrives that is "ACK", clean and tagged "0" in state 1 or "1" in state 3. A timeout, or any other reply, resends the buffered packet and keeps the state without stopping the timer. Every step keeps the buffered packet's tag equal to the tag of the state waiting on it (`Tagged`). |
| `Rdt30.AckForBufferedAdvances` | src/TCP/RDT30.java:90-96 | In a sender whose buffered packet carries its state's tag, which every sender reachable from the start is, a clean ACK advances exactly when its tag is the buffered packet's tag. |
| `Rdt30.TimerDiscipline` | src/TCP/RDT30.java:78-134 | Every waiting-state transition arms the timer first. StopTimer happens exactly on the advancing transition. Collecting states never touch the timer. |
| `Rdt30.TimeoutResendsIdentical` | src/TCP/RDT30.java:84-88 | After a timeout the sender keeps its state and puts on the wire exactly what it sent the first time. |
| `Rdt30.ReceiverStep` | src/TCP/RDT30.java:147-196 | A corrupt packet, or a clean packet with the duplicate tag, gets ACK with the duplicate tag and changes nothing. Any other clean packet is delivered, answered with ACK carrying the state's own tag, and flips the state. The receiver never touches a timer. |
| `Rdt30.RedeliveryIsSuppressed` | src/TCP/RDT30.java:151-193 | At most once: after delivering a packet tagged "0" or "1", the next state answers the same packet with the same ACK and does not deliver it. |
| `Rdt30.RepliesRoundTrip` | src/TCP/RDT30.java:47-52 | Every ACK the receiver sends is parsed back by the 4/1/rest slicing to the same packet, which is clean. |
| `Session.ExchangeDelivers20` | src/TCP/RDT20.java:57-118 | rdt2.0 over a perfect channel: one payload's round trip delivers exactly that payload, the sender's only action is the one send of the fresh packet, and both ends return to state 0. |
| `Session.ExchangeDelivers21` | src/TCP/RDT21.java:104-207 | rdt2.1 over a perfect channel: one round trip delivers exactly the payload, the sender's only action is one send of the fresh packet with its state's tag, and the sender moves on two states while the receiver moves to the other state, so both ends expect the other tag. |
| `Session.ExchangeDelivers22` | src/TCP/RDT22.java:65-161 | The same for rdt2.2 as written: exact delivery, one send, and both ends move to the other tag. |
| `Session.ExchangeDelivers22Intended` | src/TCP/RDT22.java:112-161 | The same for rdt2.2 with the corrected receiver: exact delivery, one send, both ends move to the other tag, and the receiver's field invariant holds. |
| `Session.ExchangeDelivers30` | src/TCP/RDT30.java:60-197 | The same for rdt3.0: exact delivery and both ends move to the other tag. The sender's actions are exactly the send of the fresh packet, then arming and stopping the timer, so nothing is resent. |
| `Session.ExchangeDelivers` | src/TCP/RDT30.java:60-197 | For every generation, one exchange over a perfect channel delivers exactly the one payload taken from the application. From rdt2.1 on both ends move to the other tag, and only rdt3.0's sender touches the timer. The rdt2.0 to 2.2 lines are cited by the per-generation rows. |
| `Session.PerfectChannelDelivers` | src/TCP/RDT30.java:60-197 | By induction over the payload list: from any aligned configuration, a lossless, uncorrupting channel delivers the application's payloads exactly once each, in order, and leaves both ends aligned. The rdt2.0 to 2.2 lines are cited by the per-generation rows. |
| `Session.SessionDeliversInOrder` | src/TCP/RDT22.java:113-114 | A fresh session, with sender in state 0 and receiver in state 0 with fields "0"/"1", delivers any list of payloads exactly once, in order, over a perfect channel. |

## Left out

- The channels (`UChannel`, `TUChannel`) are not part of this model. Loss and
  character munging are random and use floating-point probabilities, and
  `receive` blocks a thread. A damaged or foreign string is simply an arbitrary
  `Arrived` or receiver input, and loss is the absence of an input.
- The timer race between `receive` and expiry is concurrency. The timer is the
  `StartTimer`/`StopTimer` actions plus the `TimedOut` input.
- The checksum algorithm (`CkSum`) is not part of this model. It is the
  `Checker` parameter, constrained only to 4-character results.
- `RDT10` and `RTDBase` are not part of this model. The rdt2.0 packet layout is
  taken from `RDT20.Packet.deserialize`. The orchestration loop that alternates
  the two automata is represented only by `Session.Exchange` over a perfect
  channel.
- Session: lossy or corrupting channels are not composed at system level. Those
  would need an interleaving model of the two threads. Duplicate suppression and
  retransmission are stated per automaton instead.
- `main`, `argParser`, the constructors' channel wiring, `toString`,
  `printSender`, `printRec` and every `printf` are left out. They are CLI plumbing
  and logging.
- `getFromApp` and `deliverToApp` are the `FromApp` input and the `Deliver`
  action. File feeds are left out.
- A null buffered packet in a waiting state is excluded by each `Enabled`
  predicate. The initial sender is in state 0, and every sender step keeps the
  buffered packet present in waiting states.
- `Threw` ends a transition. What the caller of `loop` does with the exception
  is not modelled.
- Rdt30.SenderStep: when a reply is too short to parse, the outcome is `Threw`.
  It does not record that the timer was armed before the receive.
- Integer states are unbounded `int`s. The code returns either a literal
  between 0 and 3 or the state it was given, so Java's 32-bit wrap-around never
  matters.
- Strings are sequences of Unicode characters. Java's `length` and `substring`
  count UTF-16 code units. The two differ only when a supplementary character
  (outside the Basic Multilingual Plane) falls in the first 4 or 5 code units
  of a received string. Every header the code builds is ASCII, but the
  channel's character munging is arbitrary, so such a string is sliced
  differently here. For example "😀😀X" is 5 code units in Java and parses,
  while here it is 3 characters and the step throws.

## Findings

| source | as written | input that shows it | evidently intended | confidence | as-written member | corrected member |
|---|---|---|---|---|---|---|
| src/TCP/RDT22.java:123-126 | `seqNum = packet.seqnum` runs just before `seqNum.equals(packet.seqnum)`, so the duplicate test always passes. Every clean packet is delivered and flips the state (lines 142-145 do the same in state 1). | A packet tagged "0" is delivered in state 0 and its ACK is damaged. The sender resends the same packet, and the receiver, now in state 1, delivers it a second time. | Compare the packet's tag with the expected `seqNum` without overwriting it. Deliver only on a match, and otherwise reply ACK with `badSeqNum`. | high; not executed | `Rdt22.ReceiverStep`, `Rdt22.RetransmissionDeliveredTwice` | `Rdt22.ReceiverStepIntended`, `Rdt22.IntendedSuppressesRedelivery` |

`Session` runs both receivers: `Gen22` uses the receiver as written and
`Gen22Intended` uses the corrected one.
