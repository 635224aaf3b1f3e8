/** A session: one sender and one receiver of the same generation, joined by a
    forward and a backward channel. This module composes the per-generation
    transitions over a channel that neither loses nor alters anything, and shows
    that each application payload is then delivered exactly once, in order. */
module Session {
  import opened Wrappers
  import opened Packets
  import opened Machines
  import Rdt20
  import Rdt21
  import Rdt22
  import Rdt30

  /** The protocol generations. `Gen22Intended` is rdt2.2 with the corrected
      receiver (`Rdt22.ReceiverStepIntended`). */
  datatype Generation = Gen20 | Gen21 | Gen22 | Gen22Intended | Gen30

  predicate Enabled(g: Generation, s: Sender, input: SenderInput) {
    match g
    case Gen20 => Rdt20.Enabled(s, input)
    case Gen21 => Rdt21.Enabled(s, input)
    case Gen22 => Rdt22.Enabled(s, input)
    case Gen22Intended => Rdt22.Enabled(s, input)
    case Gen30 => Rdt30.Enabled(s, input)
  }

  function SenderStep(g: Generation, ck: Checker, s: Sender, input: SenderInput): Outcome<Sender>
    requires Enabled(g, s, input)
  {
    match g
    case Gen20 => Rdt20.SenderStep(ck, s, input)
    case Gen21 => Rdt21.SenderStep(ck, s, input)
    case Gen22 => Rdt22.SenderStep(ck, s, input)
    case Gen22Intended => Rdt22.SenderStep(ck, s, input)
    case Gen30 => Rdt30.SenderStep(ck, s, input)
  }

  /** Carries an integer-state receiver outcome over to the receiver record. */
  function Lift(o: Outcome<int>, r: Receiver): Outcome<Receiver> {
    match o
    case Moved(state, acts) => Moved(r.(state := state), acts)
    case Threw(raw) => Threw(raw)
  }

  function ReceiverStep(g: Generation, ck: Checker, r: Receiver, raw: string): Outcome<Receiver> {
    match g
    case Gen20 => Lift(Rdt20.ReceiverStep(ck, r.state, raw), r)
    case Gen21 => Lift(Rdt21.ReceiverStep(ck, r.state, raw), r)
    case Gen22 => Rdt22.ReceiverStep(ck, r, raw)
    case Gen22Intended => Rdt22.ReceiverStepIntended(ck, r, raw)
    case Gen30 => Lift(Rdt30.ReceiverStep(ck, r.state, raw), r)
  }

  datatype Config = Config(sender: Sender, receiver: Receiver)

  const Initial := Config(InitialSender, InitialReceiver)

  /** Where a run over a perfect channel has got to, what the application has
      been handed so far, and every action the sender performed, in order. */
  datatype Trace = Trace(last: Config, delivered: seq<string>, senderLog: seq<Action>)

  /** One payload's trip over a perfect channel: the sender takes it from the
      application, the receiver gets the sent string unaltered, and the sender
      gets the receiver's reply unaltered. `None` when a transition throws, or
      when a step does not send exactly the one packet this schedule forwards, or
      the sender would have to resend. */
  function Exchange(g: Generation, ck: Checker, c: Config, data: string): Option<Trace> {
    if !Enabled(g, c.sender, FromApp(data)) then None
    else
      match SenderStep(g, ck, c.sender, FromApp(data))
      case Threw(_) => None
      case Moved(s1, a1) =>
        if |Sent(a1)| != 1 then None
        else
          match ReceiverStep(g, ck, c.receiver, Serialize(Sent(a1)[0]))
          case Threw(_) => None
          case Moved(r1, a2) =>
            if |Sent(a2)| != 1 || !Enabled(g, s1, Arrived(Serialize(Sent(a2)[0]))) then None
            else
              match SenderStep(g, ck, s1, Arrived(Serialize(Sent(a2)[0])))
              case Threw(_) => None
              case Moved(s2, a3) =>
                if Sent(a3) != [] then None
                else Some(Trace(Config(s2, r1), Delivered(a1) + Delivered(a2) + Delivered(a3), a1 + a3))
  }

  /** Feeds the payloads one after another through `Exchange`. */
  function Run(g: Generation, ck: Checker, c: Config, inputs: seq<string>): Option<Trace>
    decreases |inputs|
  {
    if inputs == [] then Some(Trace(c, [], []))
    else
      match Exchange(g, ck, c, inputs[0])
      case None => None
      case Some(t) =>
        match Run(g, ck, t.last, inputs[1..])
        case None => None
        case Some(rest) => Some(Trace(rest.last, t.delivered + rest.delivered, t.senderLog + rest.senderLog))
  }

  /** Sender and receiver agree on the next tag: both at the start of the "0"
      half, or both at the start of the "1" half. */
  predicate Aligned(g: Generation, c: Config) {
    match g
    case Gen20 => c.sender.state == 0 && c.receiver.state == 0
    case Gen22Intended =>
      && ((c.sender.state == 0 && c.receiver.state == 0) || (c.sender.state == 2 && c.receiver.state == 1))
      && Rdt22.IntendedConsistent(c.receiver)
    case _ => (c.sender.state == 0 && c.receiver.state == 0) || (c.sender.state == 2 && c.receiver.state == 1)
  }

  lemma ExchangeDelivers20(ck: Checker, c: Config, data: string)
    requires Aligned(Gen20, c)
    ensures var t := Exchange(Gen20, ck, c, data);
            && t.Some? && t.value.delivered == [data] && Aligned(Gen20, t.value.last)
            && t.value.senderLog == [Send(MakePlain(ck, data))]
  {
    var p := MakePlain(ck, data);
    var ack := MakePlain(ck, "ACK");
    SerializeRoundTrip(Rdt20.Format, p);
    SerializeRoundTrip(Rdt20.Format, ack);
    EffectsOfPair(Send(p), Send(p));
    EffectsOfPair(Deliver(data), Send(ack));
    assert Sent([]) == [] && Delivered([]) == [];
  }

  /** `Exchange` from the three transitions of its schedule: the sender sends
      `p`, the receiver delivers the payload and replies `ack`, and the sender's
      answer to `ack` sends nothing. */
  lemma ExchangeOfSteps(g: Generation, ck: Checker, c: Config, data: string, p: Packet, ack: Packet,
                        s1: Sender, r1: Receiver, s2: Sender, a3: seq<Action>)
    requires Enabled(g, c.sender, FromApp(data)) && Enabled(g, s1, Arrived(Serialize(ack)))
    requires SenderStep(g, ck, c.sender, FromApp(data)) == Moved(s1, [Send(p)])
    requires ReceiverStep(g, ck, c.receiver, Serialize(p)) == Moved(r1, [Deliver(data), Send(ack)])
    requires SenderStep(g, ck, s1, Arrived(Serialize(ack))) == Moved(s2, a3)
    requires a3 == [] || a3 == [StartTimer, StopTimer]
    ensures Exchange(g, ck, c, data) == Some(Trace(Config(s2, r1), [data], [Send(p)] + a3))
  {
    EffectsOfPair(Send(p), Send(p));
    EffectsOfPair(Deliver(data), Send(ack));
    EffectsOfPair(StartTimer, StopTimer);
    assert Sent([]) == [] && Delivered([]) == [];
    assert Sent(a3) == [] && Delivered(a3) == [];
    assert Sent([Send(p)]) == [p] && Delivered([Send(p)]) == [];
    assert Sent([Deliver(data), Send(ack)]) == [ack];
    assert Delivered([Deliver(data), Send(ack)]) == [data];
    assert [] + [data] + [] == [data];
    ExchangeFromSteps(g, ck, c, data, s1, [Send(p)], r1, [Deliver(data), Send(ack)], s2, a3);
  }

  /** `Exchange` from the three transitions of its schedule, in general. */
  lemma ExchangeFromSteps(g: Generation, ck: Checker, c: Config, data: string,
                          s1: Sender, a1: seq<Action>, r1: Receiver, a2: seq<Action>, s2: Sender, a3: seq<Action>)
    requires Enabled(g, c.sender, FromApp(data))
    requires SenderStep(g, ck, c.sender, FromApp(data)) == Moved(s1, a1) && |Sent(a1)| == 1
    requires ReceiverStep(g, ck, c.receiver, Serialize(Sent(a1)[0])) == Moved(r1, a2) && |Sent(a2)| == 1
    requires Enabled(g, s1, Arrived(Serialize(Sent(a2)[0])))
    requires SenderStep(g, ck, s1, Arrived(Serialize(Sent(a2)[0]))) == Moved(s2, a3) && Sent(a3) == []
    ensures Exchange(g, ck, c, data)
            == Some(Trace(Config(s2, r1), Delivered(a1) + Delivered(a2) + Delivered(a3), a1 + a3))
  {
  }

  lemma ExchangeDelivers21(ck: Checker, c: Config, data: string)
    requires Aligned(Gen21, c)
    ensures var t := Exchange(Gen21, ck, c, data);
            && t.Some? && t.value.delivered == [data] && Aligned(Gen21, t.value.last)
            && t.value.last.sender.state == (c.sender.state + 2) % 4
            && t.value.last.receiver.state == 1 - c.receiver.state
            && t.value.senderLog == [Send(Make(ck, data, Tag(c.sender.state)))]
  {
    var p := Make(ck, data, Tag(c.sender.state));
    var ack := MakeBlank(ck, "ACK");
    var s1 := Sender(c.sender.state + 1, Some(p));
    var r1 := c.receiver.(state := 1 - c.receiver.state);
    var s2 := Sender((c.sender.state + 2) % 4, Some(p));
    assert SenderStep(Gen21, ck, c.sender, FromApp(data)) == Moved(s1, [Send(p)]);
    assert ReceiverStep(Gen21, ck, c.receiver, Serialize(p)) == Moved(r1, [Deliver(data), Send(ack)]) by {
      SerializeRoundTrip(Rdt21.Format, p);
    }
    assert SenderStep(Gen21, ck, s1, Arrived(Serialize(ack))) == Moved(s2, []) by {
      SerializeRoundTrip(Rdt21.Format, ack);
    }
    ExchangeOfSteps(Gen21, ck, c, data, p, ack, s1, r1, s2, []);
    assert [Send(p)] + [] == [Send(p)];
  }

  lemma ExchangeDelivers22(ck: Checker, c: Config, data: string)
    requires Aligned(Gen22, c)
    ensures var t := Exchange(Gen22, ck, c, data);
            && t.Some? && t.value.delivered == [data] && Aligned(Gen22, t.value.last)
            && t.value.last.sender.state == (c.sender.state + 2) % 4
            && t.value.last.receiver.state == 1 - c.receiver.state
            && t.value.senderLog == [Send(Make(ck, data, Tag(c.sender.state)))]
  {
    var p := Make(ck, data, Tag(c.sender.state));
    var ack := Make(ck, "ACK", Tag(c.sender.state));
    var s1 := Sender(c.sender.state + 1, Some(p));
    var r1 := Receiver(1 - c.receiver.state, Bit(1 - c.receiver.state), Bit(c.receiver.state));
    var s2 := Sender((c.sender.state + 2) % 4, Some(p));
    assert SenderStep(Gen22, ck, c.sender, FromApp(data)) == Moved(s1, [Send(p)]);
    assert ReceiverStep(Gen22, ck, c.receiver, Serialize(p)) == Moved(r1, [Deliver(data), Send(ack)]) by {
      SerializeRoundTrip(Rdt22.Format, p);
    }
    assert SenderStep(Gen22, ck, s1, Arrived(Serialize(ack))) == Moved(s2, []) by {
      SerializeRoundTrip(Rdt22.Format, ack);
    }
    ExchangeOfSteps(Gen22, ck, c, data, p, ack, s1, r1, s2, []);
    assert [Send(p)] + [] == [Send(p)];
  }

  lemma ExchangeDelivers22Intended(ck: Checker, c: Config, data: string)
    requires Aligned(Gen22Intended, c)
    ensures var t := Exchange(Gen22Intended, ck, c, data);
            && t.Some? && t.value.delivered == [data] && Aligned(Gen22Intended, t.value.last)
            && t.value.last.sender.state == (c.sender.state + 2) % 4
            && t.value.last.receiver.state == 1 - c.receiver.state
            && t.value.senderLog == [Send(Make(ck, data, Tag(c.sender.state)))]
  {
    var p := Make(ck, data, Tag(c.sender.state));
    var ack := Make(ck, "ACK", Tag(c.sender.state));
    var s1 := Sender(c.sender.state + 1, Some(p));
    var r1 := Receiver(1 - c.receiver.state, Bit(1 - c.receiver.state), Bit(c.receiver.state));
    var s2 := Sender((c.sender.state + 2) % 4, Some(p));
    assert SenderStep(Gen22Intended, ck, c.sender, FromApp(data)) == Moved(s1, [Send(p)]);
    assert ReceiverStep(Gen22Intended, ck, c.receiver, Serialize(p)) == Moved(r1, [Deliver(data), Send(ack)]) by {
      SerializeRoundTrip(Rdt22.Format, p);
    }
    assert SenderStep(Gen22Intended, ck, s1, Arrived(Serialize(ack))) == Moved(s2, []) by {
      SerializeRoundTrip(Rdt22.Format, ack);
    }
    ExchangeOfSteps(Gen22Intended, ck, c, data, p, ack, s1, r1, s2, []);
    assert [Send(p)] + [] == [Send(p)];
  }

  lemma ExchangeDelivers30(ck: Checker, c: Config, data: string)
    requires Aligned(Gen30, c)
    ensures var t := Exchange(Gen30, ck, c, data);
            && t.Some? && t.value.delivered == [data] && Aligned(Gen30, t.value.last)
            && t.value.last.sender.state == (c.sender.state + 2) % 4
            && t.value.last.receiver.state == 1 - c.receiver.state
            && t.value.senderLog == [Send(Make(ck, data, Tag(c.sender.state))), StartTimer, StopTimer]
  {
    var p := Make(ck, data, Tag(c.sender.state));
    var ack := Make(ck, "ACK", Tag(c.sender.state));
    var s1 := Sender(c.sender.state + 1, Some(p));
    var r1 := c.receiver.(state := 1 - c.receiver.state);
    var s2 := Sender((c.sender.state + 2) % 4, Some(p));
    assert SenderStep(Gen30, ck, c.sender, FromApp(data)) == Moved(s1, [Send(p)]);
    assert ReceiverStep(Gen30, ck, c.receiver, Serialize(p)) == Moved(r1, [Deliver(data), Send(ack)]) by {
      SerializeRoundTrip(Rdt30.Format, p);
    }
    assert SenderStep(Gen30, ck, s1, Arrived(Serialize(ack))) == Moved(s2, [StartTimer, StopTimer]) by {
      SerializeRoundTrip(Rdt30.Format, ack);
    }
    ExchangeOfSteps(Gen30, ck, c, data, p, ack, s1, r1, s2, [StartTimer, StopTimer]);
    assert [Send(p)] + [StartTimer, StopTimer] == [Send(p), StartTimer, StopTimer];
  }

  /** Over a perfect channel, one exchange hands the application exactly the one
      payload taken from it, with no retransmission, and leaves the two ends
      aligned on the next tag. */
  lemma ExchangeDelivers(g: Generation, ck: Checker, c: Config, data: string)
    requires Aligned(g, c)
    ensures var t := Exchange(g, ck, c, data);
            && t.Some? && t.value.delivered == [data] && Aligned(g, t.value.last)
            && (g != Gen20 ==> t.value.last.sender.state == (c.sender.state + 2) % 4
                               && t.value.last.receiver.state == 1 - c.receiver.state)
            && (Untimed(t.value.senderLog) <==> g != Gen30)
  {
    match g
    case Gen20 => ExchangeDelivers20(ck, c, data);
    case Gen21 => ExchangeDelivers21(ck, c, data);
    case Gen22 => ExchangeDelivers22(ck, c, data);
    case Gen22Intended => ExchangeDelivers22Intended(ck, c, data);
    case Gen30 =>
      ExchangeDelivers30(ck, c, data);
      assert Exchange(g, ck, c, data).value.senderLog[1] == StartTimer;
  }

  /** One unfolding of `Run`: the first exchange, then the rest of the run. */
  lemma RunUnfold(g: Generation, ck: Checker, c: Config, inputs: seq<string>, t: Trace, rest: Trace)
    requires inputs != [] && Exchange(g, ck, c, inputs[0]) == Some(t)
    requires Run(g, ck, t.last, inputs[1..]) == Some(rest)
    ensures Run(g, ck, c, inputs) == Some(Trace(rest.last, t.delivered + rest.delivered, t.senderLog + rest.senderLog))
  {
  }

  /** A first exchange that delivers its payload, followed by a run that
      delivers the rest, delivers the whole list. */
  lemma RunCons(g: Generation, ck: Checker, c: Config, inputs: seq<string>, t: Trace, rest: Trace)
    requires inputs != [] && Exchange(g, ck, c, inputs[0]) == Some(t) && t.delivered == [inputs[0]]
    requires Run(g, ck, t.last, inputs[1..]) == Some(rest)
    requires rest.delivered == inputs[1..] && Aligned(g, rest.last)
    ensures var r := Run(g, ck, c, inputs);
            r.Some? && r.value.delivered == inputs && Aligned(g, r.value.last)
  {
    RunUnfold(g, ck, c, inputs, t, rest);
    HeadThenTail(inputs, t.delivered, rest.delivered);
  }

  lemma HeadThenTail(s: seq<string>, head: seq<string>, tail: seq<string>)
    requires s != [] && head == [s[0]] && tail == s[1..]
    ensures head + tail == s
  {
    assert s == [s[0]] + s[1..];
  }

  /** Over a perfect channel, every generation delivers the application's
      payloads exactly once each and in the order they were supplied. */
  lemma {:induction false} PerfectChannelDelivers(inputs: seq<string>, g: Generation, ck: Checker, c: Config)
    requires Aligned(g, c)
    ensures var t := Run(g, ck, c, inputs);
            t.Some? && t.value.delivered == inputs && Aligned(g, t.value.last)
  {
    if inputs != [] {
      var e := Exchange(g, ck, c, inputs[0]);
      assert e.Some? && e.value.delivered == [inputs[0]] && Aligned(g, e.value.last) by {
        ExchangeDelivers(g, ck, c, inputs[0]);
      }
      var t := e.value;
      PerfectChannelDelivers(inputs[1..], g, ck, t.last);
      RunCons(g, ck, c, inputs, t, Run(g, ck, t.last, inputs[1..]).value);
    }
  }

  /** A fresh session starts aligned, so the above holds from the start. */
  lemma SessionDeliversInOrder(g: Generation, ck: Checker, inputs: seq<string>)
    ensures var t := Run(g, ck, Initial, inputs);
            t.Some? && t.value.delivered == inputs
  {
    PerfectChannelDelivers(inputs, g, ck, Initial);
  }
}
