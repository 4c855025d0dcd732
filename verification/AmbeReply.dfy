/** The replies the chip gives, and that they read back exactly what was put into a packet. */
module AmbeReply {
  import opened Wrappers
  import opened Bytes
  import opened AudioTypes
  import opened AmbePacket

  datatype ChannelFrame = ChannelFrame(bits: int, data: Octets)

  /** Samples, and the decoder's flags when they were reported. */
  datatype SpeechReply = SpeechReply(samples: seq<Int16>, flags: nat, reported: bool)

  function Header(pkt: Octets, kind: Byte): Option<Octets> {
    if |pkt| < 5 || pkt[0] != START_BYTE || pkt[3] != kind then None
    else if Word16(pkt[1..]) != |pkt| - 4 then None
    else Some(pkt[4..])
  }

  /** A PKT_CHANNEL0 identifier may come first. */
  function AfterChannel0(body: Octets): Octets {
    if body != [] && body[0] == CHANNEL0 then body[1..] else body
  }

  /** An acknowledgement: a field and a status. */
  function AckedField(pkt: Octets): Option<(Byte, Byte)> {
    match Header(pkt, CONTROL)
    case None => None
    case Some(body) => if |body| != 2 then None else Some((body[0], body[1]))
  }

  function ChannelFrameFromResponse(pkt: Octets): Option<ChannelFrame> {
    match Header(pkt, CHANNEL)
    case None => None
    case Some(whole) =>
      var body := AfterChannel0(whole);
      if |body| < 2 || body[0] != CHAND then None
      else
        var bits := body[1] as int;
        var data := body[2..];
        if bits < 40 || bits > 192 || |data| != (bits + 7) / 8 then None else Some(ChannelFrame(bits, data))
  }

  /** Sample i of big-endian data. */
  function SampleAt(data: Octets, i: nat): Int16
    requires 2 * i + 1 < |data|
  {
    Signed16(Word16(data[2 * i..]))
  }

  function ReadSamples(data: Octets, count: nat): (r: seq<Int16>)
    requires |data| >= 2 * count
    ensures |r| == count
  {
    seq(count, i requires 0 <= i < count => SampleAt(data, i))
  }

  function SpeechFromResponse(pkt: Octets): Option<seq<Int16>> {
    match Header(pkt, SPEECH)
    case None => None
    case Some(whole) =>
      var body := AfterChannel0(whole);
      if |body| < 2 || body[0] != SPEECHD then None
      else
        var count := body[1] as int;
        if count < 156 || count > 164 || |body[2..]| != count * 2 then None else Some(ReadSamples(body[2..], count))
  }

  /** Takes one field off the body and records what it says; None is a field with no reading here. */
  function TakeField(body: Octets, reply: SpeechReply): Option<(SpeechReply, Octets)>
    requires body != []
  {
    if body[0] == SPEECHD then
      if |body| < 2 then None
      else
        var count := body[1] as int;
        if count < 156 || count > 164 || |body| < 2 + count * 2 then None
        else Some((reply.(samples := ReadSamples(body[2..2 + count * 2], count)), body[2 + count * 2..]))
    else if body[0] == CMODE then
      if |body| < 3 then None
      else Some((reply.(flags := Word16(body[1..]), reported := true), body[3..]))
    else None
  }

  function TakeFields(body: Octets, reply: SpeechReply): Option<SpeechReply>
    decreases |body|
  {
    if body == [] then Some(reply)
    else
      match TakeField(body, reply)
      case None => None
      case Some((next, rest)) => TakeFields(rest, next)
  }

  const NOTHING := SpeechReply([], 0, false)

  ghost function SpeechReplyOf(pkt: Octets): Option<SpeechReply> {
    match Header(pkt, SPEECH)
    case None => None
    case Some(whole) =>
      var reply := TakeFields(AfterChannel0(whole), NOTHING);
      if reply.Some? && reply.value.samples == [] then None else reply
  }

  /** The loop over the fields of a reply. */
  method SpeechReplyFromResponse(pkt: Octets) returns (r: Option<SpeechReply>)
    ensures r == SpeechReplyOf(pkt)
  {
    var whole := Header(pkt, SPEECH);
    if whole.None? {
      return None;
    }
    var body := AfterChannel0(whole.value);
    var reply := NOTHING;
    while |body| > 0
      invariant TakeFields(body, reply) == TakeFields(AfterChannel0(whole.value), NOTHING)
      decreases |body|
    {
      var taken := TakeField(body, reply);
      if taken.None? {
        return None;
      }
      reply, body := taken.value.0, taken.value.1;
    }
    if reply.samples == [] {
      return None;
    }
    r := Some(reply);
  }

  // ---- what was put in comes out

  lemma FrameHasHeader(kind: Byte, body: Octets)
    requires 1 <= |body| < 0x1_0000
    ensures Header(Framed(kind, body), kind) == Some(body)
  {
    HeaderTellsLength(kind, body);
    assert Framed(kind, body)[4..] == body;
  }

  function Leading(channel0: bool): seq<FieldValue> {
    if channel0 then [FieldValue(CHANNEL0, [])] else []
  }

  lemma LeadingIsSkipped(channel0: bool, fields: seq<FieldValue>)
    requires fields != [] && fields[0].id != CHANNEL0
    ensures AfterChannel0(Body(Leading(channel0) + fields)) == Body(fields)
    ensures |Body(Leading(channel0) + fields)| == |Body(fields)| + if channel0 then 1 else 0
  {
    BodyConcat(Leading(channel0), fields);
    assert Leading(true)[1..] == [];
    assert Body(Leading(channel0)) == if channel0 then [CHANNEL0] else [];
    assert Body(fields)[0] == fields[0].id;
  }

  /** A channel frame survives Build and the reply reader, bit count and bytes. */
  lemma ChannelFrameRoundTrip(channel0: bool, bits: int, data: Octets)
    requires ChannelField(bits, data).Ok?
    ensures var fields := Leading(channel0) + [ChannelField(bits, data).value];
            AllBuildable(CHANNEL, fields) && ChannelFrameFromResponse(Framed(CHANNEL, Body(fields))) == Some(ChannelFrame(bits, data))
  {
    var fv := ChannelField(bits, data).value;
    var fields := Leading(channel0) + [fv];
    LeadingIsSkipped(channel0, [fv]);
    assert [fv][1..] == [];
    var body := Body([fv]);
    assert body == [CHAND, bits] + data;
    FrameHasHeader(CHANNEL, Body(fields));
    assert body[2..] == data;
  }

  lemma {:induction false} SamplesReadBack(samples: seq<Int16>, i: nat)
    requires i < |samples|
    ensures |SamplesBig(samples)| == 2 * |samples| && SampleAt(SamplesBig(samples), i) == samples[i]
  {
    SamplesBigConcat(samples, []);
    SamplesBigConcat(samples[1..], []);
    if i == 0 {
      SampleReadsBack(samples[0]);
    } else {
      SamplesReadBack(samples[1..], i - 1);
      assert SamplesBig(samples)[2 * i] == SamplesBig(samples[1..])[2 * (i - 1)];
      assert SamplesBig(samples)[2 * i + 1] == SamplesBig(samples[1..])[2 * (i - 1) + 1];
    }
  }

  lemma AllSamplesReadBack(samples: seq<Int16>)
    ensures |SamplesBig(samples)| == 2 * |samples| && ReadSamples(SamplesBig(samples), |samples|) == samples
  {
    SamplesBigConcat(samples, []);
    forall i | 0 <= i < |samples|
      ensures SampleAt(SamplesBig(samples), i) == samples[i]
    {
      SamplesReadBack(samples, i);
    }
  }

  /** What a speech packet can be made to carry. */
  datatype AnyPart = Speech(samples: seq<Int16>) | Flags(word: nat)

  type Part = p: AnyPart | Carried(p) witness Flags(0)

  predicate Carried(p: AnyPart) {
    if p.Speech? then 156 <= |p.samples| <= 164 else p.word < 0x1_0000
  }

  function PartField(p: Part): FieldValue
  {
    match p
    case Speech(samples) => SpeechField(samples)
    case Flags(word) => FieldValue(CMODE, Big16(word))
  }

  function PartFields(parts: seq<Part>): (r: seq<FieldValue>)
    ensures |r| == |parts|
  {
    seq(|parts|, i requires 0 <= i < |parts| => PartField(parts[i]))
  }

  /** Flags are two octets, most significant first, and samples are as SpeechD lays them out. */
  lemma PartOctets(p: Part)
    ensures p.Flags? ==> PartField(p) == FieldValue(0x02, [p.word / 256, p.word % 256])
    ensures p.Speech? ==> PartField(p) == SpeechField(p.samples)
  {
  }

  function RecordPart(p: Part, reply: SpeechReply): SpeechReply {
    match p
    case Speech(samples) => reply.(samples := samples)
    case Flags(word) => reply.(flags := word, reported := true)
  }

  /** The last samples and the last flags win. */
  function Record(parts: seq<Part>, reply: SpeechReply): SpeechReply {
    if parts == [] then reply else Record(parts[1..], RecordPart(parts[0], reply))
  }

  lemma TakePart(p: Part, after: Octets, reply: SpeechReply)
    ensures TakeField([PartField(p).id] + PartField(p).data + after, reply) == Some((RecordPart(p, reply), after))
  {
    var fv := PartField(p);
    var body := [fv.id] + fv.data + after;
    match p
    case Speech(samples) =>
      AllSamplesReadBack(samples);
      var n := 2 * |samples|;
      assert body[2..2 + n] == SamplesBig(samples) && body[2 + n..] == after;
    case Flags(word) =>
      assert body[3..] == after;
      Word16ReadsBack(word);
      assert body[1..][0] == Big16(word)[0] && body[1..][1] == Big16(word)[1];
  }

  lemma {:induction false} TakeParts(parts: seq<Part>, reply: SpeechReply)
    ensures TakeFields(Body(PartFields(parts)), reply) == Some(Record(parts, reply))
  {
    if parts != [] {
      var fields := PartFields(parts);
      assert fields[1..] == PartFields(parts[1..]);
      TakePart(parts[0], Body(fields[1..]), reply);
      TakeParts(parts[1..], RecordPart(parts[0], reply));
    }
  }

  /** Samples and flags survive Build and the reply reader, in any order of fields. */
  lemma SpeechReplyRoundTrip(channel0: bool, parts: seq<Part>)
    requires parts != []
    requires |Body(Leading(channel0) + PartFields(parts))| < 0x1_0000
    ensures var fields := Leading(channel0) + PartFields(parts);
            && AllBuildable(SPEECH, fields)
            && SpeechReplyOf(Framed(SPEECH, Body(fields)))
               == if Record(parts, NOTHING).samples == [] then None else Some(Record(parts, NOTHING))
  {
    var fields := PartFields(parts);
    LeadingIsSkipped(channel0, fields);
    FrameHasHeader(SPEECH, Body(Leading(channel0) + fields));
    TakeParts(parts, NOTHING);
    forall i | 0 <= i < |fields|
      ensures Buildable(SPEECH, fields[i])
    {
      assert fields[i] == PartField(parts[i]);
    }
    assert Buildable(SPEECH, FieldValue(CHANNEL0, []));
  }

  /** The narrow reader and the full one agree wherever the narrow one answers. */
  lemma SpeechReadersAgree(pkt: Octets)
    requires SpeechFromResponse(pkt).Some?
    ensures SpeechReplyOf(pkt) == Some(SpeechReply(SpeechFromResponse(pkt).value, 0, false))
  {
    var body := AfterChannel0(Header(pkt, SPEECH).value);
    var count := body[1] as int;
    assert body[2..2 + count * 2] == body[2..];
    var taken := TakeField(body, NOTHING).value;
    assert taken.1 == [];
    assert TakeFields(taken.1, taken.0) == Some(taken.0);
  }

  // ---- exactly which packets are taken for replies

  /** The header reader accepts exactly what Framed makes of a body that is not empty and fits. */
  lemma HeaderExactly(pkt: Octets, kind: Byte, body: Octets)
    ensures Header(pkt, kind) == Some(body) <==> 1 <= |body| < 0x1_0000 && pkt == Framed(kind, body)
  {
    if 1 <= |body| < 0x1_0000 && pkt == Framed(kind, body) {
      FrameHasHeader(kind, body);
    }
    if Header(pkt, kind) == Some(body) {
      var w := pkt[1..];
      assert w[0] == pkt[1] && w[1] == pkt[2];
      assert pkt == [pkt[0]] + [pkt[1], pkt[2]] + [pkt[3]] + pkt[4..];
    }
  }

  /** An acknowledgement is one field's identifier and one status octet, and nothing more. */
  lemma AckedFieldExactly(pkt: Octets, field: Byte, status: Byte)
    ensures AckedField(pkt) == Some((field, status)) <==> pkt == [0x61, 0x00, 0x02, CONTROL, field, status]
  {
    var body: Octets := [field, status];
    HeaderExactly(pkt, CONTROL, body);
    FramedLayout(CONTROL, body);
    assert Big16(2) == [0, 2];
    assert Framed(CONTROL, body) == [0x61, 0x00, 0x02, CONTROL, field, status];
    if AckedField(pkt) == Some((field, status)) {
      var whole := Header(pkt, CONTROL).value;
      assert whole == body;
    }
  }

  lemma BodyWithLeading(channel0: bool, fields: seq<FieldValue>)
    ensures Body(Leading(channel0) + fields) == (if channel0 then [CHANNEL0] else []) + Body(fields)
  {
    BodyConcat(Leading(channel0), fields);
    assert Leading(true)[1..] == [];
  }

  /** A body whose rest is these fields is they, with or without the leading identifier. */
  lemma LeadingOf(whole: Octets, fields: seq<FieldValue>) returns (channel0: bool)
    requires AfterChannel0(whole) == Body(fields)
    ensures whole == Body(Leading(channel0) + fields)
  {
    channel0 := whole != [] && whole[0] == CHANNEL0;
    BodyWithLeading(channel0, fields);
    if channel0 {
      assert whole == [CHANNEL0] + whole[1..];
    } else {
      assert whole == [] + whole;
    }
  }

  lemma ReadChannelFrameWasBuilt(pkt: Octets, cf: ChannelFrame) returns (channel0: bool)
    requires ChannelFrameFromResponse(pkt) == Some(cf)
    ensures ChannelField(cf.bits, cf.data).Ok?
    ensures pkt == Framed(CHANNEL, Body(Leading(channel0) + [ChannelField(cf.bits, cf.data).value]))
  {
    var whole := Header(pkt, CHANNEL).value;
    HeaderExactly(pkt, CHANNEL, whole);
    var fv := ChannelField(cf.bits, cf.data).value;
    BodyOfOne(fv);
    channel0 := LeadingOf(whole, [fv]);
  }

  /** A reply read as a channel frame is one that was built from that frame: nothing else is taken for one. */
  lemma ChannelFrameExactly(pkt: Octets, cf: ChannelFrame)
    ensures ChannelFrameFromResponse(pkt) == Some(cf) <==>
              && ChannelField(cf.bits, cf.data).Ok?
              && exists channel0 :: pkt == Framed(CHANNEL, Body(Leading(channel0) + [ChannelField(cf.bits, cf.data).value]))
  {
    if ChannelFrameFromResponse(pkt) == Some(cf) {
      var channel0 := ReadChannelFrameWasBuilt(pkt, cf);
    } else if ChannelField(cf.bits, cf.data).Ok? {
      ChannelFrameRoundTrip(true, cf.bits, cf.data);
      ChannelFrameRoundTrip(false, cf.bits, cf.data);
    }
  }

  /** The field at the front of a body that could be read, and what it left. */
  lemma TakenFieldIsPart(body: Octets, reply: SpeechReply) returns (p: Part)
    requires body != [] && TakeField(body, reply).Some?
    ensures TakeField(body, reply).value.0 == RecordPart(p, reply)
    ensures body == [PartField(p).id] + PartField(p).data + TakeField(body, reply).value.1
  {
    if body[0] == SPEECHD {
      var n := 2 * body[1] as int;
      p := Speech(ReadSamples(body[2..2 + n], body[1]));
      SamplesBigOfRead(body[2..2 + n], body[1]);
      assert body == [body[0]] + [body[1]] + body[2..2 + n] + body[2 + n..];
    } else {
      p := Flags(Word16(body[1..]));
      assert body == [body[0]] + [body[1], body[2]] + body[3..];
    }
  }

  lemma {:induction false} SamplesBigOfRead(data: Octets, count: nat)
    requires |data| == 2 * count
    ensures SamplesBig(ReadSamples(data, count)) == data
  {
    var samples := ReadSamples(data, count);
    SamplesBigConcat(samples, []);
    forall i | 0 <= i < count
      ensures SamplesBig(samples)[2 * i] == data[2 * i] && SamplesBig(samples)[2 * i + 1] == data[2 * i + 1]
    {
      SamplesBigLayout(samples, i);
      TwosComplement(samples[i]);
      assert samples[i] == Signed16(Word16(data[2 * i..]));
    }
    forall k | 0 <= k < |data| ensures SamplesBig(samples)[k] == data[k] {
      assert k == 2 * (k / 2) || k == 2 * (k / 2) + 1;
    }
  }

  lemma {:induction false} TakenFieldsAreParts(body: Octets, reply: SpeechReply) returns (parts: seq<Part>)
    requires TakeFields(body, reply).Some?
    ensures body == Body(PartFields(parts)) && TakeFields(body, reply) == Some(Record(parts, reply))
    decreases |body|
  {
    if body == [] {
      parts := [];
    } else {
      var taken := TakeField(body, reply).value;
      var p := TakenFieldIsPart(body, reply);
      var rest := TakenFieldsAreParts(taken.1, taken.0);
      parts := [p] + rest;
      assert parts[1..] == rest && PartFields(parts)[1..] == PartFields(rest);
    }
  }

  lemma ReadSpeechWasMade(pkt: Octets, r: SpeechReply) returns (channel0: bool, parts: seq<Part>)
    requires SpeechReplyOf(pkt) == Some(r)
    ensures MadeOf(pkt, channel0, parts) && r == Record(parts, NOTHING) && r.samples != []
  {
    var whole := Header(pkt, SPEECH).value;
    HeaderExactly(pkt, SPEECH, whole);
    parts := TakenFieldsAreParts(AfterChannel0(whole), NOTHING);
    channel0 := LeadingOf(whole, PartFields(parts));
  }

  /** A reply that is read was made of SPEECHD and CMODE fields with samples among them, and says what the last of each says. */
  lemma SpeechReplyExactly(pkt: Octets, r: SpeechReply)
    ensures SpeechReplyOf(pkt) == Some(r) <==>
              exists channel0, parts :: MadeOf(pkt, channel0, parts) && r == Record(parts, NOTHING) && r.samples != []
  {
    if SpeechReplyOf(pkt) == Some(r) {
      var channel0, parts := ReadSpeechWasMade(pkt, r);
    }
    forall channel0, parts | MadeOf(pkt, channel0, parts) && r == Record(parts, NOTHING) && r.samples != []
      ensures SpeechReplyOf(pkt) == Some(r)
    {
      assert parts != [];
      SpeechReplyRoundTrip(channel0, parts);
    }
  }

  ghost predicate MadeOf(pkt: Octets, channel0: bool, parts: seq<Part>) {
    && |Body(Leading(channel0) + PartFields(parts))| < 0x1_0000
    && pkt == Framed(SPEECH, Body(Leading(channel0) + PartFields(parts)))
  }

  /** The last samples and the last flags are the ones that count. */
  lemma {:induction false} LastPartCounts(parts: seq<Part>, p: Part, reply: SpeechReply)
    ensures var r, t := Record(parts + [p], reply), Record(parts, reply);
            match p
            case Speech(samples) => r == SpeechReply(samples, t.flags, t.reported)
            case Flags(word) => r == SpeechReply(t.samples, word, true)
  {
    if parts == [] {
      assert parts + [p] == [p] && [p][1..] == [];
      assert Record([], RecordPart(p, reply)) == RecordPart(p, reply);
    } else {
      assert (parts + [p])[0] == parts[0] && (parts + [p])[1..] == parts[1..] + [p];
      LastPartCounts(parts[1..], p, RecordPart(parts[0], reply));
    }
  }

  lemma OneSpeechField(samples: seq<Int16>)
    requires |samples| < 256
    ensures Body([SpeechField(samples)]) == [SPEECHD, |samples|] + SamplesBig(samples)
  {
    BodyOfOne(SpeechField(samples));
    CountThenData(|samples|, SamplesBig(samples));
  }

  lemma CountThenData(count: Byte, data: Octets)
    ensures [SPEECHD] + ([count] + data) == [SPEECHD, count] + data
    ensures ([SPEECHD, count] + data)[2..] == data
  {
  }

  lemma NarrowlyReadWasBuilt(pkt: Octets, samples: seq<Int16>) returns (channel0: bool)
    requires SpeechFromResponse(pkt) == Some(samples)
    ensures 156 <= |samples| <= 164 && pkt == Framed(SPEECH, Body(Leading(channel0) + [SpeechField(samples)]))
  {
    var whole := Header(pkt, SPEECH).value;
    HeaderExactly(pkt, SPEECH, whole);
    var body := AfterChannel0(whole);
    SamplesBigOfRead(body[2..], |samples|);
    BodyOfOne(SpeechField(samples));
    channel0 := LeadingOf(whole, [SpeechField(samples)]);
  }

  lemma BuiltIsNarrowlyRead(channel0: bool, samples: seq<Int16>)
    requires 156 <= |samples| <= 164
    ensures SpeechFromResponse(Framed(SPEECH, Body(Leading(channel0) + [SpeechField(samples)]))) == Some(samples)
  {
    OneSpeechField(samples);
    AllSamplesReadBack(samples);
    LeadingIsSkipped(channel0, [SpeechField(samples)]);
    FrameHasHeader(SPEECH, Body(Leading(channel0) + [SpeechField(samples)]));
    CountThenData(|samples|, SamplesBig(samples));
  }

  /** The narrow reader takes one SPEECHD field and nothing else. */
  lemma NarrowReaderExactly(pkt: Octets, samples: seq<Int16>)
    ensures SpeechFromResponse(pkt) == Some(samples) <==>
              && 156 <= |samples| <= 164
              && exists channel0 :: pkt == Framed(SPEECH, Body(Leading(channel0) + [SpeechField(samples)]))
  {
    if SpeechFromResponse(pkt) == Some(samples) {
      var channel0 := NarrowlyReadWasBuilt(pkt, samples);
    } else if 156 <= |samples| <= 164 {
      BuiltIsNarrowlyRead(true, samples);
      BuiltIsNarrowlyRead(false, samples);
    }
  }
}
