/** rdt2.1: the alternating-bit protocol with ACK/NAK. Sender states 0 and 2 wait
    for application data (tagging it "0" and "1"), states 1 and 3 wait for the
    reply; receiver state 0 expects tag "0" and state 1 expects tag "1". */
module Rdt21 {
  import opened Wrappers
  import opened Packets
  import opened Machines

  const Format: Layout := Sequenced

  /** The input is what the blocking call of the sender's state returns, and the
      buffered packet exists whenever the sender waits for a reply. */
  predicate Enabled(s: Sender, input: SenderInput) {
    && (Collecting(s.state) ==> input.FromApp?)
    && (Awaiting(s.state) ==> input.Arrived? && s.buffered.Some?)
  }

  /** A reply the sender takes as a positive acknowledgement. Its sequence field
      is not consulted. */
  predicate Acknowledges(ck: Checker, reply: Packet) {
    reply.data == "ACK" && !IsCorrupt(ck, reply)
  }

  /** One call of the sender's `loop`. */
  function SenderStep(ck: Checker, s: Sender, input: SenderInput): (r: Outcome<Sender>)
    requires Enabled(s, input)
    ensures r.Threw? <==> Awaiting(s.state) && |input.raw| < Format.HeaderWidth()
    ensures r.Moved? ==> Ready(r.next) && Untimed(r.actions)
    ensures r.Moved? && Tagged(s) ==> Tagged(r.next)
    // states 0 and 2: a fresh, clean packet tagged "0" or "1" is buffered and sent
    ensures Collecting(s.state) ==>
              && r.Moved? && r.next.state == s.state + 1 && r.next.buffered.Some?
              && r.actions == [Send(r.next.buffered.value)]
              && r.next.buffered.value.data == input.data
              && r.next.buffered.value.seqnum == Tag(s.state)
              && !IsCorrupt(ck, r.next.buffered.value)
              && Framed(Format, r.next.buffered.value)
    // states 1 and 3: a clean ACK advances silently; anything else resends the buffered packet
    ensures Awaiting(s.state) && r.Moved? ==>
              && r.next.buffered == s.buffered
              && if Acknowledges(ck, Deserialize(Format, input.raw).value)
                 then r.next.state == (s.state + 1) % 4 && r.actions == []
                 else r.next.state == s.state && r.actions == [Send(s.buffered.value)]
    ensures !Collecting(s.state) && !Awaiting(s.state) ==> r == Moved(s, [])
  {
    if Collecting(s.state) then
      var p := Make(ck, input.data, Tag(s.state));
      Moved(Sender(s.state + 1, Some(p)), [Send(p)])
    else if Awaiting(s.state) then
      match Deserialize(Format, input.raw)
      case None => Threw(input.raw)
      case Some(reply) =>
        if reply.data == "ACK" && !IsCorrupt(ck, reply) then
          Moved(Sender(if s.state == 1 then 2 else 0, s.buffered), [])
        else Moved(s, [Send(s.buffered.value)])
    else Moved(s, [])
  }

  /** One call of the receiver's `loop`. */
  function ReceiverStep(ck: Checker, state: int, raw: string): (r: Outcome<int>)
    ensures r.Threw? <==> (state == 0 || state == 1) && |raw| < Format.HeaderWidth()
    ensures r.Moved? ==> Untimed(r.actions)
    // states 0 and 1: corrupt => NAK and stay; clean duplicate => ACK and stay;
    // clean with any other tag => deliver, ACK and flip to the other state
    ensures (state == 0 || state == 1) && r.Moved? ==>
              var p := Deserialize(Format, raw).value;
              if IsCorrupt(ck, p) then r == Moved(state, [Send(MakeBlank(ck, "NAK"))])
              else if p.seqnum == DuplicateTag(state) then r == Moved(state, [Send(MakeBlank(ck, "ACK"))])
              else r == Moved(1 - state, [Deliver(p.data), Send(MakeBlank(ck, "ACK"))])
    ensures state != 0 && state != 1 ==> r == Moved(state, [])
  {
    if state == 0 || state == 1 then
      match Deserialize(Format, raw)
      case None => Threw(raw)
      case Some(p) =>
        if !IsCorrupt(ck, p) then
          if p.seqnum == DuplicateTag(state) then Moved(state, [Send(MakeBlank(ck, "ACK"))])
          else Moved(1 - state, [Deliver(p.data), Send(MakeBlank(ck, "ACK"))])
        else Moved(state, [Send(MakeBlank(ck, "NAK"))])
    else Moved(state, [])
  }

  /** At most once: once a receiver state has delivered a packet tagged "0" or
      "1", the state it moves to re-ACKs the same packet without delivering it. */
  lemma RedeliveryIsSuppressed(ck: Checker, state: int, raw: string)
    requires state == 0 || state == 1
    requires |raw| >= Format.HeaderWidth() && (raw[4] == '0' || raw[4] == '1')
    requires ReceiverStep(ck, state, raw).Moved?
    requires Delivered(ReceiverStep(ck, state, raw).actions) != []
    ensures var next := ReceiverStep(ck, state, raw).next;
            ReceiverStep(ck, next, raw) == Moved(next, [Send(MakeBlank(ck, "ACK"))])
  {
    var p := Deserialize(Format, raw).value;
    assert p.seqnum == [raw[4]];
    EffectsOfPair(Send(MakeBlank(ck, "NAK")), Deliver(""));
    EffectsOfPair(Send(MakeBlank(ck, "ACK")), Deliver(""));
    assert !IsCorrupt(ck, p) && p.seqnum != DuplicateTag(state);
    assert p.seqnum == DuplicateTag(1 - state);
  }

  /** The sender does not read the ACK's sequence field: in either waiting state
      a clean ACK carrying any tag, even the one of the other packet, advances it. */
  lemma AnyCleanAckAdvances(ck: Checker, s: Sender, tag: string)
    requires Awaiting(s.state) && s.buffered.Some? && |tag| == 1
    ensures SenderStep(ck, s, Arrived(Serialize(Make(ck, "ACK", tag))))
            == Moved(Sender((s.state + 1) % 4, s.buffered), [])
  {
    SerializeRoundTrip(Format, Make(ck, "ACK", tag));
  }
}
