/** rdt3.0: rdt2.2's alternating bit with an explicit tag on every ACK, plus a
    retransmission timer on the backward channel. In states 1 and 3 the sender
    arms the timer before it waits; a timeout or a wrong reply resends the
    buffered packet, and the right ACK cancels the timer and advances. */
module Rdt30 {
  import opened Wrappers
  import opened Packets
  import opened Machines

  const Format: Layout := Sequenced

  /** The input is what the blocking call of the sender's state returns (in a
      waiting state, a reply or the timeout), and the buffered packet exists
      whenever the sender waits for a reply. */
  predicate Enabled(s: Sender, input: SenderInput) {
    && (Collecting(s.state) ==> input.FromApp?)
    && (Awaiting(s.state) ==> !input.FromApp? && s.buffered.Some?)
  }

  /** A reply the sender in `state` takes as the acknowledgement it waits for. */
  predicate Acknowledges(ck: Checker, state: int, reply: Packet) {
    reply.data == "ACK" && !IsCorrupt(ck, reply) && reply.seqnum == Tag(state)
  }

  /** One call of the sender's `loop`. */
  function SenderStep(ck: Checker, s: Sender, input: SenderInput): (r: Outcome<Sender>)
    requires Enabled(s, input)
    ensures r.Threw? <==> Awaiting(s.state) && input.Arrived? && |input.raw| < Format.HeaderWidth()
    ensures r.Moved? ==> Ready(r.next) && Delivered(r.actions) == []
    ensures r.Moved? && Tagged(s) ==> Tagged(r.next)
    // states 0 and 2: a fresh, clean packet tagged "0" or "1" is buffered and sent
    ensures Collecting(s.state) ==>
              && r.Moved? && r.next.state == s.state + 1 && r.next.buffered.Some?
              && r.actions == [Send(r.next.buffered.value)]
              && r.next.buffered.value.data == input.data
              && r.next.buffered.value.seqnum == Tag(s.state)
              && !IsCorrupt(ck, r.next.buffered.value)
              && Framed(Format, r.next.buffered.value)
    // states 1 and 3: the timer is armed first; the awaited ACK stops it and
    // advances; a timeout or any other reply resends the buffered packet
    ensures Awaiting(s.state) && r.Moved? ==>
              && r.next.buffered == s.buffered
              && if input.Arrived? && Acknowledges(ck, s.state, Deserialize(Format, input.raw).value)
                 then r.next.state == (s.state + 1) % 4 && r.actions == [StartTimer, StopTimer]
                 else r.next.state == s.state && r.actions == [StartTimer, Send(s.buffered.value)]
    ensures !Collecting(s.state) && !Awaiting(s.state) ==> r == Moved(s, [])
  {
    if Collecting(s.state) then
      var p := Make(ck, input.data, Tag(s.state));
      Moved(Sender(s.state + 1, Some(p)), [Send(p)])
    else if Awaiting(s.state) then
      if input.TimedOut? then Moved(s, [StartTimer, Send(s.buffered.value)])
      else
        match Deserialize(Format, input.raw)
        case None => Threw(input.raw)
        case Some(reply) =>
          if reply.data == "ACK" && !IsCorrupt(ck, reply) && reply.seqnum == Tag(s.state) then
            Moved(Sender(if s.state == 1 then 2 else 0, s.buffered), [StartTimer, StopTimer])
          else Moved(s, [StartTimer, Send(s.buffered.value)])
    else Moved(s, [])
  }

  /** Timer discipline: every waiting-state transition arms the timer before
      anything else, and cancels it exactly when the state advances. Collecting
      states never touch the timer. */
  lemma TimerDiscipline(ck: Checker, s: Sender, input: SenderInput)
    requires Enabled(s, input) && SenderStep(ck, s, input).Moved?
    ensures var r := SenderStep(ck, s, input);
            && (Awaiting(s.state) ==> |r.actions| == 2 && r.actions[0] == StartTimer)
            && (StopTimer in r.actions <==> r.next.state != s.state && Awaiting(s.state))
            && (!Awaiting(s.state) ==> Untimed(r.actions))
  {
  }

  /** The code compares the reply's tag with the literal "0" (state 1) or "1"
      (state 3), not with the buffered packet. In every sender reachable from the
      start (`Tagged`, which `SenderStep` preserves) the two agree: the clean ACK
      tagged like the buffered packet is exactly the one that advances. */
  lemma AckForBufferedAdvances(ck: Checker, s: Sender, tag: string)
    requires Tagged(s) && Awaiting(s.state) && |tag| == 1
    ensures SenderStep(ck, s, Arrived(Serialize(Make(ck, "ACK", tag)))).next.state == (s.state + 1) % 4
            <==> tag == s.buffered.value.seqnum
  {
    SerializeRoundTrip(Format, Make(ck, "ACK", tag));
  }

  /** After a timeout the same string goes on the wire as on the first
      transmission of the buffered packet. */
  lemma TimeoutResendsIdentical(ck: Checker, s: Sender, data: string)
    requires Collecting(s.state)
    ensures var first := SenderStep(ck, s, FromApp(data));
            && first.Moved?
            && var again := SenderStep(ck, first.next, TimedOut);
            && again.Moved? && again.next == first.next
            && Sent(again.actions) == Sent(first.actions)
  {
    var first := SenderStep(ck, s, FromApp(data));
    EffectsOfPair(first.actions[0], first.actions[0]);
    EffectsOfPair(StartTimer, first.actions[0]);
  }

  /** One call of the receiver's `loop`. Every reply is an ACK; it carries the
      state's own tag when a packet is delivered, and the previous tag otherwise. */
  function ReceiverStep(ck: Checker, state: int, raw: string): (r: Outcome<int>)
    ensures r.Threw? <==> (state == 0 || state == 1) && |raw| < Format.HeaderWidth()
    ensures r.Moved? ==> Untimed(r.actions)
    ensures (state == 0 || state == 1) && r.Moved? ==>
              var p := Deserialize(Format, raw).value;
              if IsCorrupt(ck, p) || p.seqnum == DuplicateTag(state)
              then r == Moved(state, [Send(Make(ck, "ACK", DuplicateTag(state)))])
              else r == Moved(1 - state, [Deliver(p.data), Send(Make(ck, "ACK", Bit(state)))])
    ensures state != 0 && state != 1 ==> r == Moved(state, [])
  {
    if state == 0 || state == 1 then
      match Deserialize(Format, raw)
      case None => Threw(raw)
      case Some(p) =>
        if !IsCorrupt(ck, p) then
          if p.seqnum == DuplicateTag(state) then Moved(state, [Send(Make(ck, "ACK", DuplicateTag(state)))])
          else Moved(1 - state, [Deliver(p.data), Send(Make(ck, "ACK", Bit(state)))])
        else Moved(state, [Send(Make(ck, "ACK", DuplicateTag(state)))])
    else Moved(state, [])
  }

  /** At most once: once a receiver state has delivered a packet tagged "0" or
      "1", the state it moves to answers the same packet with the same ACK and
      does not deliver it. */
  lemma RedeliveryIsSuppressed(ck: Checker, state: int, raw: string)
    requires state == 0 || state == 1
    requires |raw| >= Format.HeaderWidth() && (raw[4] == '0' || raw[4] == '1')
    requires ReceiverStep(ck, state, raw).Moved?
    requires Delivered(ReceiverStep(ck, state, raw).actions) != []
    ensures var first := ReceiverStep(ck, state, raw);
            && |first.actions| == 2
            && ReceiverStep(ck, first.next, raw) == Moved(first.next, first.actions[1..])
  {
    var p := Deserialize(Format, raw).value;
    assert p.seqnum == [raw[4]];
    EffectsOfPair(Send(Make(ck, "ACK", DuplicateTag(state))), Deliver(""));
  }

  /** Every reply the receiver sends is an ACK that this generation's 4/1/rest
      slicing parses back to the same packet, which then passes the corruption
      test. */
  lemma RepliesRoundTrip(ck: Checker, state: int, raw: string)
    requires state == 0 || state == 1
    requires ReceiverStep(ck, state, raw).Moved?
    ensures var acts := ReceiverStep(ck, state, raw).actions;
            && |Sent(acts)| == 1 && Sent(acts)[0].data == "ACK"
            && Deserialize(Format, Serialize(Sent(acts)[0])) == Some(Sent(acts)[0])
            && !IsCorrupt(ck, Sent(acts)[0])
  {
    var p := Deserialize(Format, raw).value;
    var acts := ReceiverStep(ck, state, raw).actions;
    EffectsOfPair(acts[0], acts[|acts| - 1]);
    SerializeRoundTrip(Format, Sent(acts)[0]);
  }
}
