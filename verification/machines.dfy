/** Vocabulary shared by every sender and receiver automaton: what a transition
    consumes, what it emits, and the state carried between transitions. */
module Machines {
  import opened Wrappers
  import opened Packets

  /** The side effects of one transition, in the order the code performs them:
      handing a packet to the channel, handing a payload to the application, and
      arming or cancelling the retransmission timer. */
  datatype Action = Send(packet: Packet) | Deliver(data: string) | StartTimer | StopTimer

  /** The result of one transition: the next automaton state with the actions
      performed, or the exception deserialisation throws on a string shorter than
      the header. */
  datatype Outcome<S> = Moved(next: S, actions: seq<Action>) | Threw(raw: string)

  /** A sender: its integer state and the last packet it built, kept for
      retransmission (`None` before the first one is built). */
  datatype Sender = Sender(state: int, buffered: Option<Packet>)

  const InitialSender := Sender(0, None)

  /** What the blocking call a sender state makes can return: a payload from the
      application feed, a string from the backward channel, or (timed channel
      only) the timeout signal. */
  datatype SenderInput = FromApp(data: string) | Arrived(raw: string) | TimedOut

  /** A receiver: its integer state and, for rdt2.2, the two string fields that
      receiver keeps between transitions. The other generations never read or
      write the string fields. */
  datatype Receiver = Receiver(state: int, seqNum: string, badSeqNum: string)

  const InitialReceiver := Receiver(0, "0", "1")

  /** The one-character alternating-bit tag for 0 and 1. */
  function Bit(b: int): string {
    if b == 0 then "0" else "1"
  }

  /* The alternating-bit senders (rdt2.1 onward) share one state layout:
     states 0 and 2 wait for application data, states 1 and 3 for the reply to
     the packet tagged "0" and "1" respectively. */

  predicate Collecting(state: int) {
    state == 0 || state == 2
  }

  predicate Awaiting(state: int) {
    state == 1 || state == 3
  }

  /** The sequence tag of the packet a sender state builds or waits on. */
  function Tag(state: int): string {
    if state == 0 || state == 1 then "0" else "1"
  }

  /** The buffered packet exists whenever the sender waits for a reply. */
  predicate Ready(s: Sender) {
    Awaiting(s.state) ==> s.buffered.Some?
  }

  /** Ready, and the buffered packet carries the tag of the state waiting on
      it. */
  predicate Tagged(s: Sender) {
    Awaiting(s.state) ==> s.buffered.Some? && s.buffered.value.seqnum == Tag(s.state)
  }

  /** The tag an alternating-bit receiver state treats as a duplicate of what it
      last delivered. */
  function DuplicateTag(state: int): string {
    if state == 0 then "1" else "0"
  }

  /** The packets handed to the channel, in order. */
  function Sent(acts: seq<Action>): seq<Packet> {
    if acts == [] then []
    else (if acts[0].Send? then [acts[0].packet] else []) + Sent(acts[1..])
  }

  /** The payloads handed to the application, in order. */
  function Delivered(acts: seq<Action>): seq<string> {
    if acts == [] then []
    else (if acts[0].Deliver? then [acts[0].data] else []) + Delivered(acts[1..])
  }

  /** Sent and Delivered of a one- or two-action list, spelled out. */
  lemma EffectsOfPair(a: Action, b: Action)
    ensures Sent([a]) == (if a.Send? then [a.packet] else [])
    ensures Delivered([a]) == (if a.Deliver? then [a.data] else [])
    ensures Sent([a, b]) == Sent([a]) + Sent([b])
    ensures Delivered([a, b]) == Delivered([a]) + Delivered([b])
  {
    assert [a][1..] == [];
    assert [a, b][1..] == [b];
    assert [b][1..] == [];
  }

  /** No action touches the timer. */
  predicate Untimed(acts: seq<Action>) {
    forall i :: 0 <= i < |acts| ==> !acts[i].StartTimer? && !acts[i].StopTimer?
  }
}
