/** The packet codec shared by the four protocol generations: construction with a
    computed checksum, fixed-width positional serialisation, slicing deserialisation
    and the corruption test. */
module Packets {
  import opened Wrappers

  /** Width of the checksum field at the head of every serialised packet. */
  const ChecksumWidth: nat := 4

  /** A checksum: a string of exactly `ChecksumWidth` characters. */
  type Digest = s: string | |s| == ChecksumWidth witness "0000"

  /** The checksum algorithm itself is not part of this model. It is any function
      from strings to digests; every operation below takes it as a parameter, so
      every property holds for whatever algorithm is plugged in. */
  type Checker = string -> Digest

  /** Recomputes the digest of `s` and compares it with `digest`. */
  predicate CheckString(ck: Checker, s: string, digest: string) {
    ck(s) == digest
  }

  /** A packet as it exists on either end of a channel. rdt2.0 packets have no
      sequence field; they are represented with an empty `seqnum`, so the checksum
      over `seqnum + data` is the checksum over the payload alone. */
  datatype Packet = Packet(data: string, seqnum: string, checksum: string)

  /** The two wire layouts: checksum then payload (rdt2.0), or checksum, a
      one-character sequence field, then payload (rdt2.1 and later). */
  datatype Layout = Unsequenced | Sequenced {
    function SeqWidth(): nat {
      if Sequenced? then 1 else 0
    }
    function HeaderWidth(): nat {
      ChecksumWidth + SeqWidth()
    }
  }

  /** The fields have the widths the layout gives them, so that slicing by
      position recovers them. */
  predicate Framed(layout: Layout, p: Packet) {
    |p.checksum| == ChecksumWidth && |p.seqnum| == layout.SeqWidth()
  }

  /** True iff the stored checksum does not match the one recomputed over the
      sequence field followed by the payload. Only a packet whose checksum field
      has the digest width can pass. */
  predicate IsCorrupt(ck: Checker, p: Packet)
    ensures IsCorrupt(ck, p) <==> p.checksum != ck(p.seqnum + p.data)
    ensures !IsCorrupt(ck, p) ==> |p.checksum| == ChecksumWidth
  {
    !CheckString(ck, p.seqnum + p.data, p.checksum)
  }

  /** The constructor that computes the checksum over `seqnum + data`. */
  function Make(ck: Checker, data: string, seqnum: string): (p: Packet)
    ensures p.data == data && p.seqnum == seqnum
    ensures !IsCorrupt(ck, p)
    ensures Framed(Sequenced, p) <==> |seqnum| == 1
    ensures Framed(Unsequenced, p) <==> seqnum == ""
  {
    Packet(data, seqnum, ck(seqnum + data))
  }

  /** The one-argument constructor of rdt2.1 and later: a control reply such as
      "ACK" or "NAK" carries the placeholder sequence " ". */
  function MakeBlank(ck: Checker, data: string): (p: Packet)
    ensures p.data == data && p.seqnum == " "
    ensures !IsCorrupt(ck, p) && Framed(Sequenced, p)
  {
    Make(ck, data, " ")
  }

  /** The rdt2.0 constructor: checksum over the payload alone, no sequence field. */
  function MakePlain(ck: Checker, data: string): (p: Packet)
    ensures p.data == data
    ensures !IsCorrupt(ck, p) && Framed(Unsequenced, p)
    ensures p.checksum == ck(data)
  {
    assert "" + data == data;
    Make(ck, data, "")
  }

  /** The wire form: checksum, sequence field, payload, with no delimiters. */
  function Serialize(p: Packet): string {
    p.checksum + p.seqnum + p.data
  }

  /** The wire form puts the checksum first, the sequence field next and the
      payload last, each at a fixed offset and with no delimiters. */
  lemma SerializeLayout(p: Packet)
    ensures var s := Serialize(p);
            && |s| == |p.checksum| + |p.seqnum| + |p.data|
            && s[..|p.checksum|] == p.checksum
            && s[|p.checksum|..|p.checksum| + |p.seqnum|] == p.seqnum
            && s[|p.checksum| + |p.seqnum|..] == p.data
  {
  }

  /** Slices a received string by position. The source does no validation here;
      its substring calls throw when the string is shorter than the header, which
      is the `None` case. */
  function Deserialize(layout: Layout, raw: string): (r: Option<Packet>)
    ensures r.Some? <==> |raw| >= layout.HeaderWidth()
    ensures r.Some? ==> Framed(layout, r.value) && Serialize(r.value) == raw
  {
    var h := layout.HeaderWidth();
    if |raw| < h then None
    else
      assert raw == raw[..ChecksumWidth] + raw[ChecksumWidth..h] + raw[h..];
      Some(Packet(raw[h..], raw[ChecksumWidth..h], raw[..ChecksumWidth]))
  }

  /** Deserialising the wire form of a well-framed packet gives the packet back. */
  lemma SerializeRoundTrip(layout: Layout, p: Packet)
    requires Framed(layout, p)
    ensures Deserialize(layout, Serialize(p)) == Some(p)
  {
    var raw := Serialize(p);
    var h := layout.HeaderWidth();
    assert raw[..ChecksumWidth] == p.checksum;
    assert raw[ChecksumWidth..h] == p.seqnum;
    assert raw[h..] == p.data;
  }

  /** A freshly constructed packet that crosses an unaltering channel arrives
      intact and passes the corruption test. */
  lemma FreshPacketArrivesClean(ck: Checker, layout: Layout, data: string, seqnum: string)
    requires |seqnum| == layout.SeqWidth()
    ensures Deserialize(layout, Serialize(Make(ck, data, seqnum))) == Some(Make(ck, data, seqnum))
    ensures !IsCorrupt(ck, Deserialize(layout, Serialize(Make(ck, data, seqnum))).value)
  {
    SerializeRoundTrip(layout, Make(ck, data, seqnum));
  }

  /** A packet passes the corruption test exactly when it is the packet the
      computing constructor would build from its own payload and sequence field. */
  lemma CleanIffFresh(ck: Checker, p: Packet)
    ensures !IsCorrupt(ck, p) <==> p == Make(ck, p.data, p.seqnum)
  {
  }
}
