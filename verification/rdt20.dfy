/** rdt2.0: checksum plus ACK/NAK, no sequence numbers. The sender has states
    0 (wait for application data) and 1 (wait for ACK or NAK); the receiver has
    the single state 0. */
module Rdt20 {
  import opened Wrappers
  import opened Packets
  import opened Machines

  const Format: Layout := Unsequenced

  /** The input is what the blocking call of the sender's state returns, and the
      buffered packet exists whenever the sender waits for a reply. */
  predicate Enabled(s: Sender, input: SenderInput) {
    && (s.state == 0 ==> input.FromApp?)
    && (s.state == 1 ==> input.Arrived? && s.buffered.Some?)
  }

  /** The buffered packet exists whenever the sender waits for a reply. */
  predicate HoldsPacket(s: Sender) {
    s.state == 1 ==> s.buffered.Some?
  }

  /** A reply the sender takes as a positive acknowledgement. */
  predicate Acknowledges(ck: Checker, reply: Packet) {
    reply.data == "ACK" && !IsCorrupt(ck, reply)
  }

  /** One call of the sender's `loop`. */
  function SenderStep(ck: Checker, s: Sender, input: SenderInput): (r: Outcome<Sender>)
    requires Enabled(s, input)
    ensures r.Threw? <==> s.state == 1 && |input.raw| < Format.HeaderWidth()
    ensures r.Moved? ==> HoldsPacket(r.next) && Untimed(r.actions) && Delivered(r.actions) == []
    // state 0: a fresh, clean packet over the application payload is buffered and sent
    ensures s.state == 0 ==>
              && r.Moved? && r.next.state == 1 && r.next.buffered.Some?
              && r.actions == [Send(r.next.buffered.value)]
              && r.next.buffered.value.data == input.data
              && !IsCorrupt(ck, r.next.buffered.value)
              && Framed(Format, r.next.buffered.value)
    // state 1: a clean ACK returns to 0 silently; anything else resends the buffered packet
    ensures s.state == 1 && r.Moved? ==>
              && r.next.buffered == s.buffered
              && if Acknowledges(ck, Deserialize(Format, input.raw).value)
                 then r.next.state == 0 && r.actions == []
                 else r.next.state == 1 && r.actions == [Send(s.buffered.value)]
    // any other state: returned unchanged, nothing done
    ensures s.state != 0 && s.state != 1 ==> r == Moved(s, [])
  {
    if s.state == 0 then
      var p := MakePlain(ck, input.data);
      Moved(Sender(1, Some(p)), [Send(p)])
    else if s.state == 1 then
      match Deserialize(Format, input.raw)
      case None => Threw(input.raw)
      case Some(reply) =>
        if reply.data == "ACK" && !IsCorrupt(ck, reply) then Moved(Sender(0, s.buffered), [])
        else Moved(s, [Send(s.buffered.value)])
    else Moved(s, [])
  }

  /** One call of the receiver's `loop`. */
  function ReceiverStep(ck: Checker, state: int, raw: string): (r: Outcome<int>)
    ensures r.Threw? <==> state == 0 && |raw| < Format.HeaderWidth()
    ensures r.Moved? ==> r.next == state && Untimed(r.actions)
    // state 0: a clean packet is delivered and ACKed; a corrupt one is NAKed, not delivered
    ensures state == 0 && r.Moved? ==>
              var p := Deserialize(Format, raw).value;
              if !IsCorrupt(ck, p)
              then r.actions == [Deliver(p.data), Send(MakePlain(ck, "ACK"))]
              else r.actions == [Send(MakePlain(ck, "NAK"))]
    ensures state != 0 ==> r == Moved(state, [])
  {
    if state == 0 then
      match Deserialize(Format, raw)
      case None => Threw(raw)
      case Some(p) =>
        if !IsCorrupt(ck, p) then Moved(0, [Deliver(p.data), Send(MakePlain(ck, "ACK"))])
        else Moved(0, [Send(MakePlain(ck, "NAK"))])
    else Moved(state, [])
  }

  /** A NAK, or an ACK damaged in transit, makes the sender put the very same
      string on the wire again. */
  lemma CorruptReplyTriggersResend(ck: Checker, data: string, reply: string)
    requires |reply| >= Format.HeaderWidth()
    requires !Acknowledges(ck, Deserialize(Format, reply).value)
    ensures var first := SenderStep(ck, InitialSender, FromApp(data));
            && first.Moved?
            && var again := SenderStep(ck, first.next, Arrived(reply));
            && again == Moved(first.next, first.actions)
            && Serialize(Sent(again.actions)[0]) == Serialize(Sent(first.actions)[0])
  {
    var first := SenderStep(ck, InitialSender, FromApp(data));
    EffectsOfPair(first.actions[0], first.actions[0]);
  }

  /** The defect rdt2.0 exists to expose: without sequence numbers, a packet
      retransmitted because its ACK was damaged is delivered a second time. */
  lemma RetransmissionDeliveredTwice(ck: Checker, data: string)
    ensures var raw := Serialize(MakePlain(ck, data));
            && var first := ReceiverStep(ck, 0, raw);
            && first.Moved? && Delivered(first.actions) == [data]
            && var second := ReceiverStep(ck, first.next, raw);
            && second.Moved? && Delivered(second.actions) == [data]
  {
    SerializeRoundTrip(Format, MakePlain(ck, data));
    EffectsOfPair(Deliver(data), Send(MakePlain(ck, "ACK")));
  }

  /** rdt2.0's slicing: a string of at least 4 characters parses to the packet
      whose checksum is its first 4 characters and whose payload is the rest,
      and that packet serialises back to the same string. */
  lemma DeserializeSlices(raw: string)
    requires |raw| >= ChecksumWidth
    ensures Deserialize(Format, raw) == Some(Packet(raw[4..], "", raw[..4]))
    ensures Serialize(Deserialize(Format, raw).value) == raw
  {
  }
}
