/**
 One caller's view of the vocoder client: what each call sends, what it makes of
 the answer, and what it leaves in the client's fields. How calls of several
 goroutines interleave on the wire is VocoderChannel's subject.
 */
module AmbeClient {
  import opened Wrappers
  import opened Bytes
  import opened AudioTypes
  import opened AmbePacket
  import opened AmbeReply

  datatype Holder = Holder(talkgroup: Word, source: Word, since: int, reason: string)

  /** What the socket does with one exchange. */
  datatype Outcome = Answered(reply: Octets) | NotSent | NoAnswer

  datatype Refusal = Busy(held: Holder) | RateRefused | NotAnswered | NotHeld | Malformed(e: BuildError) | WrongReply(reply: Octets)
  datatype Reply<T> = Done(value: T) | Refused(why: Refusal)

  const RATET: Byte := 0x09
  const INIT: Byte := 0x0B

  function RatePacket(rate: Byte): Packet {
    Packet(CONTROL, [FieldValue(RATET, [rate])])
  }

  const INIT_PACKET := Packet(CONTROL, [FieldValue(INIT, [0x07])])

  function SpeechPacket(samples: seq<Int16>): Packet
    requires |samples| < 256
  {
    Packet(SPEECH, [FieldValue(CHANNEL0, []), SpeechField(samples)])
  }

  function ChannelPacket(fv: FieldValue): Packet {
    Packet(CHANNEL, [FieldValue(CHANNEL0, []), fv])
  }

  function Wire(p: Packet): Octets {
    Framed(p.kind, Body(p.fields))
  }

  /** What the chip answers when it takes the rate. */
  const ACCEPTANCE: Octets := [0x61, 0x00, 0x02, 0x00, 0x09, 0x00]

  predicate RateAccepted(reply: Octets) {
    AckedField(reply) == Some((RATET, 0x00))
  }

  class Client {
    const rate: Byte
    var holder: Option<Holder>
    var broken: bool
    var closed: bool // the socket
    var encoded: nat
    var decoded: nat
    var refused: nat
    var failed: nat
    ghost var sent: seq<Packet> // everything put on the wire

    /** All that has been sent is what Build makes of fields it can tell the length of. */
    ghost predicate Valid()
      reads this
    {
      forall i :: 0 <= i < |sent| ==> Built(sent[i])
    }

    constructor (rate: Byte)
      ensures Valid() && holder == None && !broken && !closed && sent == [] && this.rate == rate
    {
      this.rate := rate;
      holder, broken, closed, encoded, decoded, refused, failed, sent := None, false, false, 0, 0, 0, 0, [];
    }

    /** Nothing goes out through a closed socket. */
    function On(outcome: Outcome): Outcome
      reads this`closed
    {
      if closed then NotSent else outcome
    }

    /** Any failure leaves its mark on the client. */
    method Exchange(pkt: Octets, ghost p: Packet, outcome: Outcome) returns (r: Option<Octets>)
      requires Valid() && Built(p) && pkt == Wire(p)
      modifies this`broken, this`sent
      ensures Valid()
      ensures r == if On(outcome).Answered? then Some(On(outcome).reply) else None
      ensures broken == (old(broken) || r == None)
      ensures sent == old(sent) + if On(outcome).NotSent? then [] else [p]
    {
      match On(outcome)
      case NotSent =>
        broken := true;
        r := None;
      case NoAnswer =>
        sent := sent + [p];
        broken := true;
        r := None;
      case Answered(reply) =>
        sent := sent + [p];
        r := Some(reply);
    }

    /** A packet is built and exchanged; what is asked is always something Build accepts. */
    method Ask(p: Packet, outcome: Outcome) returns (r: Option<Octets>)
      requires Valid() && Built(p)
      modifies this`broken, this`sent
      ensures Valid()
      ensures r == if On(outcome).Answered? then Some(On(outcome).reply) else None
      ensures broken == (old(broken) || r == None)
      ensures sent == old(sent) + if On(outcome).NotSent? then [] else [p]
    {
      var pkt := Build(p.kind, p.fields);
      r := Exchange(pkt.value, p, outcome);
    }

    /** An answer that does not accept the rate marks the client too. */
    method SetRate(outcome: Outcome) returns (ok: bool)
      requires Valid()
      modifies this`broken, this`sent
      ensures Valid()
      ensures ok <==> On(outcome).Answered? && On(outcome).reply == ACCEPTANCE
      ensures broken == (old(broken) || !ok)
      ensures sent == old(sent) + if On(outcome).NotSent? then [] else [RatePacket(rate)]
    {
      ControlPacketsAreBuilt(rate);
      var reply := Ask(RatePacket(rate), outcome);
      if reply.Some? {
        AckedFieldExactly(reply.value, RATET, 0x00);
      }
      ok := reply.Some? && RateAccepted(reply.value);
      if !ok {
        broken := true;
      }
    }

    /** The rate and then the init, on every call; a holder is kept only if both went well. */
    method Acquire(h: Holder, first: Outcome, second: Outcome) returns (r: Reply<()>)
      requires Valid()
      modifies this
      ensures Valid() && encoded == old(encoded) && decoded == old(decoded) && closed == old(closed)
      ensures old(holder).Some? ==>
                && r == Refused(Busy(old(holder).value)) && holder == old(holder) && sent == old(sent)
                && refused == old(refused) + 1 && failed == old(failed) && broken == old(broken)
      ensures old(holder) == None ==>
                && (r == Done(()) <==> On(first).Answered? && On(first).reply == ACCEPTANCE && On(second).Answered?)
                && holder == (if r.Done? then Some(h) else None)
                && refused == old(refused) && failed == old(failed) + (if r.Done? then 0 else 1)
                && broken == (old(broken) || !r.Done?)
                && (r.Done? ==> sent == old(sent) + [RatePacket(rate), INIT_PACKET])
                && (!r.Done? ==> old(sent) <= sent && |sent| <= |old(sent)| + 2)
    {
      if holder.Some? {
        refused := refused + 1;
        return Refused(Busy(holder.value));
      }
      holder := Some(h);
      var rateSet := SetRate(first);
      if !rateSet {
        holder := None;
        failed := failed + 1;
        return Refused(RateRefused);
      }
      ControlPacketsAreBuilt(rate);
      var reply := Ask(INIT_PACKET, second);
      if reply.None? {
        holder := None;
        failed := failed + 1;
        return Refused(NotAnswered);
      }
      r := Done(());
    }

    method Release()
      requires Valid()
      modifies this`holder
      ensures Valid() && holder == None
    {
      holder := None;
    }

    /** Released, as if it were held, and the socket closed: no call sends anything after it. */
    method Close()
      requires Valid()
      modifies this`holder, this`closed
      ensures Valid() && holder == None && closed
    {
      Release();
      closed := true;
    }

    /** PCM to a channel frame, only while the channel is held and the samples fit. */
    method Encode(samples: seq<Int16>, outcome: Outcome) returns (r: Reply<ChannelFrame>)
      requires Valid()
      modifies this`broken, this`sent, this`encoded, this`failed
      ensures Valid()
      ensures holder == None ==> r == Refused(NotHeld) && sent == old(sent) && broken == old(broken)
      ensures holder.Some? && !(156 <= |samples| <= 164) ==> r.Refused? && sent == old(sent) && broken == old(broken)
      ensures holder.Some? && 156 <= |samples| <= 164 ==>
                && sent == old(sent) + (if On(outcome).NotSent? then [] else [SpeechPacket(samples)])
                && broken == (old(broken) || !On(outcome).Answered?)
                && (r.Done? <==> On(outcome).Answered? && ChannelFrameFromResponse(On(outcome).reply).Some?)
                && (r.Done? ==> ChannelFrameFromResponse(On(outcome).reply) == Some(r.value))
                && encoded == old(encoded) + (if r.Done? then 1 else 0)
                && failed == old(failed) + (if r.Done? then 0 else 1)
    {
      if holder.None? {
        return Refused(NotHeld);
      }
      var speech := SpeechD(samples);
      if speech.Err? {
        return Refused(Malformed(speech.error));
      }
      SpeechPacketIsBuilt(samples);
      var reply := Ask(SpeechPacket(samples), outcome);
      if reply.None? {
        failed := failed + 1;
        return Refused(NotAnswered);
      }
      var frame := ChannelFrameFromResponse(reply.value);
      if frame.None? {
        failed := failed + 1;
        return Refused(WrongReply(reply.value));
      }
      encoded := encoded + 1;
      r := Done(frame.value);
    }

    /** A channel frame to PCM, only while the channel is held and the bits fit. */
    method Decode(frame: ChannelFrame, outcome: Outcome) returns (r: Reply<SpeechReply>)
      requires Valid()
      modifies this`broken, this`sent, this`decoded, this`failed
      ensures Valid()
      ensures holder == None ==> r == Refused(NotHeld) && sent == old(sent) && broken == old(broken)
      ensures holder.Some? && ChannelField(frame.bits, frame.data).Err? ==> r.Refused? && sent == old(sent) && broken == old(broken)
      ensures holder.Some? && ChannelField(frame.bits, frame.data).Ok? ==>
                && sent == old(sent) + (if On(outcome).NotSent? then [] else [ChannelPacket(ChannelField(frame.bits, frame.data).value)])
                && broken == (old(broken) || !On(outcome).Answered?)
                && (r.Done? <==> On(outcome).Answered? && SpeechReplyOf(On(outcome).reply).Some?)
                && (r.Done? ==> SpeechReplyOf(On(outcome).reply) == Some(r.value))
                && decoded == old(decoded) + (if r.Done? then 1 else 0)
                && failed == old(failed) + (if r.Done? then 0 else 1)
    {
      if holder.None? {
        return Refused(NotHeld);
      }
      var chand := ChannelField(frame.bits, frame.data);
      if chand.Err? {
        return Refused(Malformed(chand.error));
      }
      ChannelPacketIsBuilt(frame.bits, frame.data);
      var reply := Ask(ChannelPacket(chand.value), outcome);
      if reply.None? {
        failed := failed + 1;
        return Refused(NotAnswered);
      }
      var speech := SpeechReplyFromResponse(reply.value);
      if speech.None? {
        failed := failed + 1;
        return Refused(WrongReply(reply.value));
      }
      decoded := decoded + 1;
      r := Done(speech.value);
    }
  }

  // ---- everything sent is well formed

  lemma BodyOfTwo(a: FieldValue, b: FieldValue)
    ensures Body([a, b]) == [a.id] + a.data + [b.id] + b.data
    ensures Body([a]) == [a.id] + a.data
  {
    assert [a, b][1..] == [b] && [b][1..] == [] && [a][1..] == [];
    assert Body([b]) == [b.id] + b.data + Body([]);
  }

  lemma ControlPacketsAreBuilt(rate: Byte)
    ensures Built(RatePacket(rate)) && Built(INIT_PACKET)
  {
    var r, i := FieldValue(RATET, [rate]), FieldValue(INIT, [0x07]);
    BodyOfTwo(r, r);
    BodyOfTwo(i, i);
    RateLookup();
    InitLookup();
  }

  lemma RateLookup()
    ensures Lookup(CONTROL, RATET) == Some(Field(RATET, 1))
  {
    var t := CONTROL_FIELDS;
    assert t[0].id == 0x40 && t[1].id == 0x05 && t[2].id == 0x06 && t[3] == Field(RATET, 1);
    FindAt(t, RATET, 3);
  }

  lemma InitLookup()
    ensures Lookup(CONTROL, INIT) == Some(Field(INIT, 1))
  {
    var t := CONTROL_FIELDS;
    assert t[0].id == 0x40 && t[1].id == 0x05 && t[2].id == 0x06 && t[3].id == 0x09 && t[4].id == 0x0A && t[5] == Field(INIT, 1);
    FindAt(t, INIT, 5);
  }

  lemma {:induction false} FindAt(table: seq<Field>, id: Byte, i: nat)
    requires i < |table| && table[i].id == id && forall k :: 0 <= k < i ==> table[k].id != id
    ensures Find(table, id) == Some(table[i])
  {
    if i > 0 {
      FindAt(table[1..], id, i - 1);
    }
  }

  lemma SpeechPacketIsBuilt(samples: seq<Int16>)
    requires 156 <= |samples| <= 164
    ensures Built(SpeechPacket(samples))
  {
    var c0, fv := FieldValue(CHANNEL0, []), SpeechField(samples);
    BodyOfTwo(c0, fv);
    SamplesBigConcat(samples, []);
    assert FromTheBuilders(SPEECH, c0) && FromTheBuilders(SPEECH, fv);
  }

  lemma ChannelPacketIsBuilt(bits: int, data: Octets)
    requires ChannelField(bits, data).Ok?
    ensures Built(ChannelPacket(ChannelField(bits, data).value))
  {
    var c0, fv := FieldValue(CHANNEL0, []), ChannelField(bits, data).value;
    BodyOfTwo(c0, fv);
    assert FromTheBuilders(CHANNEL, c0) && FromTheBuilders(CHANNEL, fv);
  }

  /** Every method keeps Valid, so a chip fed by any sequence of calls reads whole packets to the last byte. */
  lemma ClientNeverWedgesTheChip(c: Client)
    requires c.Valid()
    ensures ReadPackets(Stream(c.sent)) == Some(c.sent)
  {
    NeverMidField(c.sent);
  }

  // ---- what the packets are, octet by octet

  /** The rate and init packets as they go over the wire. */
  lemma ControlBytes(rate: Byte)
    ensures Wire(RatePacket(rate)) == [0x61, 0x00, 0x02, 0x00, 0x09, rate]
    ensures Wire(INIT_PACKET) == [0x61, 0x00, 0x02, 0x00, 0x0B, 0x07]
  {
    var r, i := FieldValue(RATET, [rate]), FieldValue(INIT, [0x07]);
    BodyOfOne(r);
    BodyOfOne(i);
    assert Big16(2) == [0, 2];
  }

  /** A speech packet carries exactly the samples given. */
  lemma SpeechPacketCarries(samples: seq<Int16>)
    requires 156 <= |samples| <= 164
    ensures Wire(SpeechPacket(samples)) == Framed(SPEECH, [CHANNEL0] + Body([SpeechField(samples)]))
    ensures SpeechReplyOf(Wire(SpeechPacket(samples))) == Some(SpeechReply(samples, 0, false))
  {
    BodyWithLeading(true, [SpeechField(samples)]);
    assert SpeechPacket(samples).fields == Leading(true) + [SpeechField(samples)];
    BuiltIsNarrowlyRead(true, samples);
    SpeechReadersAgree(Wire(SpeechPacket(samples)));
  }

  /** A channel packet carries exactly the bits given. */
  lemma ChannelPacketCarries(bits: int, data: Octets)
    requires ChannelField(bits, data).Ok?
    ensures var fv := ChannelField(bits, data).value;
            && Wire(ChannelPacket(fv)) == Framed(CHANNEL, [CHANNEL0] + Body([fv]))
            && ChannelFrameFromResponse(Wire(ChannelPacket(fv))) == Some(ChannelFrame(bits, data))
  {
    var fv := ChannelField(bits, data).value;
    BodyWithLeading(true, [fv]);
    assert ChannelPacket(fv).fields == Leading(true) + [fv];
    ChannelFrameRoundTrip(true, bits, data);
  }
}
