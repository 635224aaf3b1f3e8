/** rdt2.2: the NAK-free alternating-bit protocol. Every reply is an ACK whose
    checksum covers a sequence tag; the sender recognises the ACK for its
    buffered packet by that checksum alone. */
module Rdt22 {
  import opened Wrappers
  import opened Packets
  import opened Machines

  const Format: Layout := Sequenced

  /** The input is what the blocking call of the sender's state returns, and the
      buffered packet exists whenever the sender waits for a reply. */
  predicate Enabled(s: Sender, input: SenderInput) {
    && (Collecting(s.state) ==> input.FromApp?)
    && (Awaiting(s.state) ==> input.Arrived? && s.buffered.Some?)
  }

  /** The reply's payload is "ACK" and its checksum is the one an ACK tagged like
      the buffered packet would carry. The reply's own sequence field is not read. */
  predicate Acknowledges(ck: Checker, buffered: Packet, reply: Packet) {
    reply.data == "ACK" && reply.checksum == ck(buffered.seqnum + "ACK")
  }

  /** One call of the sender's `loop`. */
  function SenderStep(ck: Checker, s: Sender, input: SenderInput): (r: Outcome<Sender>)
    requires Enabled(s, input)
    ensures r.Threw? <==> Awaiting(s.state) && |input.raw| < Format.HeaderWidth()
    ensures r.Moved? ==> Ready(r.next) && Untimed(r.actions)
    ensures r.Moved? && Tagged(s) ==> Tagged(r.next)
    // states 0 and 2: a fresh, clean packet tagged "0" or "1" is buffered and sent
    ensures Collecting(s.state) ==>
              && r.Moved? && r.next.state == s.state + 1 && r.next.buffered.Some?
              && r.actions == [Send(r.next.buffered.value)]
              && r.next.buffered.value.data == input.data
              && r.next.buffered.value.seqnum == Tag(s.state)
              && !IsCorrupt(ck, r.next.buffered.value)
              && Framed(Format, r.next.buffered.value)
    // states 1 and 3: the ACK for the buffered packet advances silently; anything
    // else resends the buffered packet
    ensures Awaiting(s.state) && r.Moved? ==>
              && r.next.buffered == s.buffered
              && if Acknowledges(ck, s.buffered.value, Deserialize(Format, input.raw).value)
                 then r.next.state == (s.state + 1) % 4 && r.actions == []
                 else r.next.state == s.state && r.actions == [Send(s.buffered.value)]
    ensures !Collecting(s.state) && !Awaiting(s.state) ==> r == Moved(s, [])
  {
    if Collecting(s.state) then
      var p := Make(ck, input.data, Tag(s.state));
      Moved(Sender(s.state + 1, Some(p)), [Send(p)])
    else if Awaiting(s.state) then
      match Deserialize(Format, input.raw)
      case None => Threw(input.raw)
      case Some(reply) =>
        if reply.data == "ACK" && reply.checksum == ck(s.buffered.value.seqnum + "ACK") then
          Moved(Sender(if s.state == 1 then 2 else 0, s.buffered), [])
        else Moved(s, [Send(s.buffered.value)])
    else Moved(s, [])
  }

  /** Two replies that differ only in their sequence field have the same effect
      on the sender. */
  lemma ReplySeqnumIgnored(ck: Checker, s: Sender, raw1: string, raw2: string)
    requires Awaiting(s.state) && s.buffered.Some?
    requires |raw1| == |raw2| >= Format.HeaderWidth()
    requires raw1[..4] == raw2[..4] && raw1[5..] == raw2[5..]
    ensures SenderStep(ck, s, Arrived(raw1)) == SenderStep(ck, s, Arrived(raw2))
  {
  }

  /** The sender never runs the corruption test on a reply: an "ACK" carrying
      the checksum for the buffered tag advances it whatever its own sequence
      character, and such a reply is corrupt exactly when the two tagged ACKs'
      checksums differ. */
  lemma DamagedTagAccepted(ck: Checker, s: Sender, tag: string)
    requires Awaiting(s.state) && s.buffered.Some? && |tag| == 1
    ensures var reply := Packet("ACK", tag, ck(s.buffered.value.seqnum + "ACK"));
            && SenderStep(ck, s, Arrived(Serialize(reply))) == Moved(Sender((s.state + 1) % 4, s.buffered), [])
            && (IsCorrupt(ck, reply) <==> ck(tag + "ACK") != ck(s.buffered.value.seqnum + "ACK"))
  {
    SerializeRoundTrip(Format, Packet("ACK", tag, ck(s.buffered.value.seqnum + "ACK")));
  }

  /** For a clean reply tagged `tag`, the sender advances exactly when the ACK
      checksums for `tag` and for the buffered tag coincide, so a clean ACK with
      another tag is accepted whenever the digest does not tell the two apart. */
  lemma CleanAckAdvancesIff(ck: Checker, s: Sender, tag: string)
    requires Awaiting(s.state) && s.buffered.Some? && |tag| == 1
    ensures SenderStep(ck, s, Arrived(Serialize(Make(ck, "ACK", tag)))).next.state == (s.state + 1) % 4
            <==> ck(tag + "ACK") == ck(s.buffered.value.seqnum + "ACK")
  {
    SerializeRoundTrip(Format, Make(ck, "ACK", tag));
  }

  /** The invariant the receiver's initial field values establish: `badSeqNum`
      is "1" in state 0 and "0" in state 1. */
  predicate Consistent(r: Receiver) {
    && (r.state == 0 ==> r.badSeqNum == "1")
    && (r.state == 1 ==> r.badSeqNum == "0")
  }

  /** One call of the receiver's `loop`, as written: `seqNum` is overwritten with
      the packet's own tag before it is compared with that tag, so every clean
      packet is delivered and ACKed with its own tag, and the state flips. */
  function ReceiverStep(ck: Checker, r: Receiver, raw: string): (o: Outcome<Receiver>)
    ensures o.Threw? <==> (r.state == 0 || r.state == 1) && |raw| < Format.HeaderWidth()
    ensures o.Moved? ==> Untimed(o.actions)
    ensures Consistent(r) && o.Moved? ==> Consistent(o.next)
    ensures (r.state == 0 || r.state == 1) && o.Moved? ==>
              var p := Deserialize(Format, raw).value;
              if IsCorrupt(ck, p)
              then && o.next == Receiver(r.state, p.seqnum, r.badSeqNum)
                   && o.actions == [Send(Make(ck, "ACK", r.badSeqNum))]
              else && o.next == Receiver(1 - r.state, Bit(1 - r.state), Bit(r.state))
                   && o.actions == [Deliver(p.data), Send(Make(ck, "ACK", p.seqnum))]
    ensures r.state != 0 && r.state != 1 ==> o == Moved(r, [])
  {
    if r.state == 0 || r.state == 1 then
      match Deserialize(Format, raw)
      case None => Threw(raw)
      case Some(p) =>
        var seqNum := p.seqnum;
        if CheckString(ck, p.seqnum + p.data, p.checksum) then
          Moved(Receiver(1 - r.state, Bit(1 - r.state), Bit(r.state)),
                [Deliver(p.data), Send(Make(ck, "ACK", seqNum))])
        else Moved(Receiver(r.state, seqNum, r.badSeqNum), [Send(Make(ck, "ACK", r.badSeqNum))])
    else Moved(r, [])
  }

  /** The `seqNum` field carried between calls is never read: a recognised state
      behaves the same whatever value it holds. */
  lemma SeqNumFieldUnread(ck: Checker, r: Receiver, raw: string, other: string)
    requires r.state == 0 || r.state == 1
    ensures ReceiverStep(ck, r, raw) == ReceiverStep(ck, r.(seqNum := other), raw)
  {
  }

  /** The receiver as written delivers a retransmitted packet a second time: the
      first copy of a packet tagged "0" is delivered and moves the receiver to
      state 1, and the identical retransmission is delivered again there. */
  lemma RetransmissionDeliveredTwice(ck: Checker, data: string)
    ensures var raw := Serialize(Make(ck, data, "0"));
            && var first := ReceiverStep(ck, InitialReceiver, raw);
            && first.Moved? && first.next.state == 1 && Delivered(first.actions) == [data]
            && var second := ReceiverStep(ck, first.next, raw);
            && second.Moved? && Delivered(second.actions) == [data]
  {
    SerializeRoundTrip(Format, Make(ck, data, "0"));
    EffectsOfPair(Deliver(data), Send(Make(ck, "ACK", "0")));
  }

  /** The invariant of the corrected receiver: `seqNum` holds the tag the state
      expects and `badSeqNum` the other one. */
  predicate IntendedConsistent(r: Receiver) {
    && (r.state == 0 ==> r.seqNum == "0" && r.badSeqNum == "1")
    && (r.state == 1 ==> r.seqNum == "1" && r.badSeqNum == "0")
  }

  /** The receiver with the overwrite of `seqNum` removed: a packet is delivered
      only when it is clean and carries the expected tag; anything else is
      answered with an ACK for the previous tag and changes nothing. */
  function ReceiverStepIntended(ck: Checker, r: Receiver, raw: string): (o: Outcome<Receiver>)
    ensures o.Threw? <==> (r.state == 0 || r.state == 1) && |raw| < Format.HeaderWidth()
    ensures o.Moved? ==> Untimed(o.actions)
    ensures IntendedConsistent(r) && o.Moved? ==> IntendedConsistent(o.next)
    ensures (r.state == 0 || r.state == 1) && o.Moved? ==>
              var p := Deserialize(Format, raw).value;
              if !IsCorrupt(ck, p) && p.seqnum == r.seqNum
              then && o.next.state == 1 - r.state
                   && o.actions == [Deliver(p.data), Send(Make(ck, "ACK", p.seqnum))]
              else o == Moved(r, [Send(Make(ck, "ACK", r.badSeqNum))])
    ensures r.state != 0 && r.state != 1 ==> o == Moved(r, [])
  {
    if r.state == 0 || r.state == 1 then
      match Deserialize(Format, raw)
      case None => Threw(raw)
      case Some(p) =>
        if CheckString(ck, p.seqnum + p.data, p.checksum) && r.seqNum == p.seqnum then
          Moved(Receiver(1 - r.state, Bit(1 - r.state), Bit(r.state)),
                [Deliver(p.data), Send(Make(ck, "ACK", r.seqNum))])
        else Moved(r, [Send(Make(ck, "ACK", r.badSeqNum))])
    else Moved(r, [])
  }

  /** At most once, for the corrected receiver: after it delivers a packet, the
      identical retransmission is not delivered again and is answered with the
      same ACK as the first copy, which is the one the sender waits for. */
  lemma IntendedSuppressesRedelivery(ck: Checker, r: Receiver, raw: string)
    requires IntendedConsistent(r) && (r.state == 0 || r.state == 1)
    requires ReceiverStepIntended(ck, r, raw).Moved?
    requires Delivered(ReceiverStepIntended(ck, r, raw).actions) != []
    ensures var first := ReceiverStepIntended(ck, r, raw);
            var ack := Send(Make(ck, "ACK", r.seqNum));
            && |first.actions| == 2 && first.actions[1] == ack
            && ReceiverStepIntended(ck, first.next, raw) == Moved(first.next, [ack])
  {
    EffectsOfPair(Send(Make(ck, "ACK", r.badSeqNum)), Deliver(""));
  }

  /** Every reply the receiver sends is an ACK that this generation's 4/1/rest
      slicing parses back to the same packet, which then passes the corruption
      test. */
  lemma RepliesRoundTrip(ck: Checker, r: Receiver, raw: string)
    requires Consistent(r) && (r.state == 0 || r.state == 1)
    requires ReceiverStep(ck, r, raw).Moved?
    ensures var acts := ReceiverStep(ck, r, raw).actions;
            && |Sent(acts)| == 1 && Sent(acts)[0].data == "ACK"
            && Deserialize(Format, Serialize(Sent(acts)[0])) == Some(Sent(acts)[0])
            && !IsCorrupt(ck, Sent(acts)[0])
  {
    var p := Deserialize(Format, raw).value;
    var acts := ReceiverStep(ck, r, raw).actions;
    EffectsOfPair(acts[0], acts[|acts| - 1]);
    SerializeRoundTrip(Format, Sent(acts)[0]);
  }
}
