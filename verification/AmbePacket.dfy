/**
 AMBE-3000F packets: the field tables, the builder that refuses a malformed
 packet, and a reader that knows nothing but the header length and the tables.
 */
module AmbePacket {
  import opened Wrappers
  import opened Bytes
  import opened AudioTypes
  import opened Gf2

  const START_BYTE: Byte := 0x61
  const CONTROL: Byte := 0x00
  const CHANNEL: Byte := 0x01
  const SPEECH: Byte := 0x02
  const CHANNEL0: Byte := 0x40
  const SPEECHD: Byte := 0x00
  const CHAND: Byte := 0x01
  const CMODE: Byte := 0x02
  const PARITY_FIELD: Byte := 0x2F

  const VARIABLE := -1

  type DataBytes = x: int | x >= -1

  /** An identifier and how many data bytes follow it. */
  datatype Field = Field(id: Byte, data: DataBytes)

  datatype FieldValue = FieldValue(id: Byte, data: Octets)

  datatype BuildError = UnknownType | UnknownField(id: Byte) | WrongLength(id: Byte, given: nat)
  /** Table 32 of the manual. */
  const CONTROL_FIELDS: seq<Field> := [
    Field(0x40, 0),         // PKT_CHANNEL0
    Field(0x05, 2),         // PKT_ECMODE
    Field(0x06, 2),         // PKT_DCMODE
    Field(0x09, 1),         // PKT_RATET
    Field(0x0A, 12),        // PKT_RATEP
    Field(0x0B, 1),         // PKT_INIT
    Field(0x10, 1),         // PKT_LOWPOWER
    Field(0x15, 2),         // PKT_CHANFMT
    Field(0x16, 2),         // PKT_SPCHFMT
    Field(0x2A, 1),         // PKT_CODECSTART
    Field(0x2B, 0),         // PKT_CODECSTOP
    Field(0x30, 0),         // PKT_PRODID
    Field(0x31, 0),         // PKT_VERSTRING
    Field(0x32, 1),         // PKT_COMPAND
    Field(0x33, 0),         // PKT_RESET
    Field(0x34, 6),         // PKT_RESETSOFTCFG
    Field(0x35, 0),         // PKT_HALT
    Field(0x36, 0),         // PKT_GETCFG
    Field(0x37, 0),         // PKT_READCFG
    Field(0x38, VARIABLE),  // PKT_CODECCFG
    Field(0x39, 0),         // PKT_READY
    Field(0x3F, 1),         // PKT_PARITYMODE
    Field(0x44, VARIABLE),  // PKT_WRITEI2C
    Field(0x4B, 2),         // PKT_GAIN
    Field(0x46, 0),         // PKT_CLRCODECRESET
    Field(0x47, 0),         // PKT_SETCODECRESET
    Field(0x48, 2),         // PKT_DISCARDCODEC
    Field(0x49, 2),         // PKT_DELAYNUS
    Field(0x4A, 2),         // PKT_DELAYNNS
    Field(0x4E, 4)          // PKT_RTSTHRESH
  ]

  /** Table 98. */
  const SPEECH_FIELDS: seq<Field> := [
    Field(0x40, 0),         // PKT_CHANNEL0
    Field(0x00, VARIABLE),  // SPEECHD
    Field(0x02, 2),         // CMODE
    Field(0x08, 2)          // TONE
  ]

  /** Table 106. */
  const CHANNEL_FIELDS: seq<Field> := [
    Field(0x40, 0),         // PKT_CHANNEL0
    Field(0x01, VARIABLE),  // CHAND
    Field(0x17, VARIABLE),  // CHAND4
    Field(0x03, 1),         // SAMPLES
    Field(0x02, 2),         // CMODE
    Field(0x08, 2)          // TONE
  ]

  function FieldsFor(kind: Byte): Option<seq<Field>> {
    if kind == CONTROL then Some(CONTROL_FIELDS)
    else if kind == SPEECH then Some(SPEECH_FIELDS)
    else if kind == CHANNEL then Some(CHANNEL_FIELDS)
    else None
  }

  function Find(table: seq<Field>, id: Byte): Option<Field> {
    if table == [] then None else if table[0].id == id then Some(table[0]) else Find(table[1..], id)
  }

  function Lookup(kind: Byte, id: Byte): Option<Field> {
    match FieldsFor(kind)
    case None => None
    case Some(table) => Find(table, id)
  }

  // ---- building

  predicate Buildable(kind: Byte, fv: FieldValue) {
    var spec := Lookup(kind, fv.id);
    spec.Some? && (spec.value.data == VARIABLE || |fv.data| == spec.value.data)
  }

  predicate AllBuildable(kind: Byte, fields: seq<FieldValue>) {
    FieldsFor(kind).Some? && forall i :: 0 <= i < |fields| ==> Buildable(kind, fields[i])
  }

  function Body(fields: seq<FieldValue>): Octets {
    if fields == [] then [] else [fields[0].id] + fields[0].data + Body(fields[1..])
  }

  function Framed(kind: Byte, body: Octets): Octets {
    [START_BYTE] + Big16(|body|) + [kind] + body
  }

  lemma {:induction false} BodyConcat(a: seq<FieldValue>, b: seq<FieldValue>)
    ensures Body(a + b) == Body(a) + Body(b)
  {
    if a == [] {
      assert a + b == b;
    } else {
      assert (a + b)[1..] == a[1..] + b;
      BodyConcat(a[1..], b);
    }
  }

  lemma BodyOfOne(fv: FieldValue)
    ensures Body([fv]) == [fv.id] + fv.data
  {
    assert [fv][1..] == [] && Body([fv]) == [fv.id] + fv.data + Body([]);
  }

  /** A packet is made only of fields the table knows, at the lengths it gives. */
  method Build(kind: Byte, fields: seq<FieldValue>) returns (r: Result<Octets, BuildError>)
    ensures r.Ok? <==> AllBuildable(kind, fields)
    ensures r.Ok? ==> r.value == Framed(kind, Body(fields))
    ensures r == Err(UnknownType) <==> FieldsFor(kind) == None
    ensures r.Err? && r.error != UnknownType ==>
              exists i :: 0 <= i < |fields| && AllBuildable(kind, fields[..i]) && !Buildable(kind, fields[i])
                && r.error == if Lookup(kind, fields[i].id) == None then UnknownField(fields[i].id)
                              else WrongLength(fields[i].id, |fields[i].data|)
  {
    if FieldsFor(kind).None? {
      return Err(UnknownType);
    }
    var body: Octets := [];
    for i := 0 to |fields|
      invariant body == Body(fields[..i])
      invariant AllBuildable(kind, fields[..i])
    {
      var fv := fields[i];
      var spec := Lookup(kind, fv.id);
      if spec.None? {
        assert !Buildable(kind, fields[i]);
        return Err(UnknownField(fv.id));
      }
      if spec.value.data != VARIABLE && |fv.data| != spec.value.data {
        assert !Buildable(kind, fields[i]);
        return Err(WrongLength(fv.id, |fv.data|));
      }
      body := body + [fv.id];
      body := body + fv.data;
      assert fields[..i + 1] == fields[..i] + [fv] && [fv][1..] == [];
      BodyConcat(fields[..i], [fv]);
    }
    assert fields[..|fields|] == fields;
    r := Ok([START_BYTE] + Big16(|body|) + [kind] + body);
  }

  // ---- the two fields that carry their own length

  function SamplesBig(samples: seq<Int16>): Octets {
    if samples == [] then [] else Big16(Unsigned16(samples[0])) + SamplesBig(samples[1..])
  }

  lemma {:induction false} SamplesBigConcat(a: seq<Int16>, b: seq<Int16>)
    ensures SamplesBig(a + b) == SamplesBig(a) + SamplesBig(b)
    ensures |SamplesBig(a)| == 2 * |a|
  {
    if a == [] {
      assert a + b == b;
    } else {
      assert (a + b)[1..] == a[1..] + b;
      SamplesBigConcat(a[1..], b);
    }
  }

  /** SPEECHD: a count, then two bytes a sample. */
  method SpeechD(samples: seq<Int16>) returns (r: Result<FieldValue, BuildError>)
    ensures r == if 156 <= |samples| <= 164 then Ok(SpeechField(samples)) else Err(WrongLength(SPEECHD, |samples|))
  {
    if |samples| < 156 || |samples| > 164 {
      return Err(WrongLength(SPEECHD, |samples|));
    }
    var data: Octets := [|samples|];
    for i := 0 to |samples|
      invariant data == [|samples|] + SamplesBig(samples[..i])
    {
      data := data + Big16(Unsigned16(samples[i]));
      SamplesBigConcat(samples[..i], [samples[i]]);
      assert samples[..i + 1] == samples[..i] + [samples[i]] && [samples[i]][1..] == [];
    }
    assert samples[..|samples|] == samples;
    r := Ok(FieldValue(SPEECHD, data));
  }

  function SpeechField(samples: seq<Int16>): FieldValue
    requires |samples| < 256
  {
    FieldValue(SPEECHD, [|samples|] + SamplesBig(samples))
  }

  /** CHAND: how many bits there are, and then the octets that hold them. */
  function ChannelField(bits: int, data: Octets): Result<FieldValue, BuildError> {
    if bits < 40 || bits > 192 then Err(WrongLength(CHAND, |data|))
    else if |data| != (bits + 7) / 8 then Err(WrongLength(CHAND, |data|))
    else Ok(FieldValue(CHAND, [bits] + data))
  }

  // ---- the reader

  /** How many data bytes follow an identifier, told by the table or by the first of those bytes. */
  function DataLength(kind: Byte, body: Octets): Option<nat>
    requires body != []
  {
    match Lookup(kind, body[0])
    case None => None
    case Some(spec) =>
      if spec.data >= 0 then Some(spec.data)
      else if |body| < 2 then None
      else if kind == SPEECH && body[0] == SPEECHD then Some(1 + 2 * (body[1] as int))
      else if kind == CHANNEL && body[0] == CHAND then Some(1 + (body[1] as int + 7) / 8)
      else None
  }

  type Lengths = Octets -> Option<nat>

  function LengthsOf(kind: Byte): Lengths {
    (body: Octets) => if body == [] then None else DataLength(kind, body)
  }

  /** Fields one after another, each as long as its front says; None when the last one is cut short. */
  function ReadWith(lengths: Lengths, body: Octets): Option<seq<FieldValue>>
    decreases |body|
  {
    if body == [] then Some([])
    else
      var n := lengths(body);
      if n.None? || 1 + n.value > |body| then None
      else
        match ReadWith(lengths, body[1 + n.value..])
        case None => None
        case Some(rest) => Some([FieldValue(body[0], body[1..1 + n.value])] + rest)
  }

  function ReadFields(kind: Byte, body: Octets): Option<seq<FieldValue>> {
    ReadWith(LengthsOf(kind), body)
  }

  datatype Packet = Packet(kind: Byte, fields: seq<FieldValue>)

  /** A byte stream, packet after packet; None when the reader is left inside one. */
  function ReadPackets(stream: Octets): Option<seq<Packet>>
    decreases |stream|
  {
    if stream == [] then Some([])
    else if |stream| < 4 || stream[0] != START_BYTE then None
    else
      var n := Word16(stream[1..]);
      if 4 + n > |stream| then None
      else
        var fields := ReadFields(stream[3], stream[4..4 + n]);
        var rest := ReadPackets(stream[4 + n..]);
        if fields.None? || rest.None? then None else Some([Packet(stream[3], fields.value)] + rest.value)
  }

  function FieldBytes(fv: FieldValue): Octets {
    [fv.id] + fv.data
  }

  /** The bytes of the field say how long the field is. */
  predicate SelfDelimiting(kind: Byte, fv: FieldValue) {
    Delimited(LengthsOf(kind), fv)
  }

  predicate Delimited(lengths: Lengths, fv: FieldValue) {
    lengths(FieldBytes(fv)) == Some(|fv.data|)
  }

  predicate AllDelimited(lengths: Lengths, fields: seq<FieldValue>) {
    forall i :: 0 <= i < |fields| ==> Delimited(lengths, fields[i])
  }

  predicate AllSelfDelimiting(kind: Byte, fields: seq<FieldValue>) {
    AllDelimited(LengthsOf(kind), fields)
  }

  /** A field's length is told by its own bytes, whatever comes after them. */
  ghost predicate ToldByTheFront(lengths: Lengths) {
    forall fv, after {:trigger lengths(FieldBytes(fv) + after)} ::
      lengths(FieldBytes(fv)) == Some(|fv.data|) <==> lengths(FieldBytes(fv) + after) == Some(|fv.data|)
  }

  lemma LengthsAreToldByTheFront(kind: Byte)
    ensures ToldByTheFront(LengthsOf(kind))
  {
    forall fv, after
      ensures LengthsOf(kind)(FieldBytes(fv)) == Some(|fv.data|) <==> LengthsOf(kind)(FieldBytes(fv) + after) == Some(|fv.data|)
    {
      SameLengthInFront(kind, fv, after);
    }
  }

  lemma SameLengthInFront(kind: Byte, fv: FieldValue, after: Octets)
    ensures DataLength(kind, FieldBytes(fv)) == Some(|fv.data|) <==> DataLength(kind, FieldBytes(fv) + after) == Some(|fv.data|)
  {
    var alone, among := FieldBytes(fv), FieldBytes(fv) + after;
    assert among[0] == alone[0] && (|alone| >= 2 ==> among[1] == alone[1]);
  }

  lemma {:induction false} DelimitedFieldsReadBack(lengths: Lengths, fields: seq<FieldValue>)
    requires ToldByTheFront(lengths) && AllDelimited(lengths, fields)
    ensures ReadWith(lengths, Body(fields)) == Some(fields)
  {
    if fields != [] {
      var fv, rest := fields[0], Body(fields[1..]);
      DelimitedFieldsReadBack(lengths, fields[1..]);
      var body := FieldBytes(fv) + rest;
      assert lengths(body) == Some(|fv.data|);
      assert body[1..1 + |fv.data|] == fv.data && body[1 + |fv.data|..] == rest;
      assert fields == [fv] + fields[1..];
    }
  }

  lemma FirstIsDelimited(lengths: Lengths, body: Octets, n: nat)
    requires ToldByTheFront(lengths) && body != [] && lengths(body) == Some(n) && 1 + n <= |body|
    ensures Delimited(lengths, FieldValue(body[0], body[1..1 + n]))
    ensures body == FieldBytes(FieldValue(body[0], body[1..1 + n])) + body[1 + n..]
  {
    var fv, after := FieldValue(body[0], body[1..1 + n]), body[1 + n..];
    assert body == FieldBytes(fv) + after;
    assert lengths(FieldBytes(fv) + after) == Some(|fv.data|);
  }

  lemma OneMoreField(lengths: Lengths, fv: FieldValue, rest: seq<FieldValue>)
    requires Delimited(lengths, fv) && AllDelimited(lengths, rest)
    ensures AllDelimited(lengths, [fv] + rest)
    ensures Body([fv] + rest) == FieldBytes(fv) + Body(rest)
  {
    assert ([fv] + rest)[1..] == rest;
  }

  lemma {:induction false} WhatIsReadIsDelimited(lengths: Lengths, body: Octets)
    requires ToldByTheFront(lengths) && ReadWith(lengths, body).Some?
    ensures Body(ReadWith(lengths, body).value) == body
    ensures AllDelimited(lengths, ReadWith(lengths, body).value)
    decreases |body|
  {
    if body != [] {
      var n := lengths(body).value;
      WhatIsReadIsDelimited(lengths, body[1 + n..]);
      FirstIsDelimited(lengths, body, n);
      OneMoreField(lengths, FieldValue(body[0], body[1..1 + n]), ReadWith(lengths, body[1 + n..]).value);
    }
  }

  lemma FieldsReadBack(kind: Byte, fields: seq<FieldValue>)
    requires AllSelfDelimiting(kind, fields)
    ensures ReadFields(kind, Body(fields)) == Some(fields)
  {
    LengthsAreToldByTheFront(kind);
    DelimitedFieldsReadBack(LengthsOf(kind), fields);
  }

  /** The reader recovers the fields of a packet exactly when each says its own length. */
  lemma FieldsReadBackExactlyWhen(kind: Byte, fields: seq<FieldValue>)
    ensures ReadFields(kind, Body(fields)) == Some(fields) <==> AllSelfDelimiting(kind, fields)
  {
    LengthsAreToldByTheFront(kind);
    if AllSelfDelimiting(kind, fields) {
      DelimitedFieldsReadBack(LengthsOf(kind), fields);
    }
    if ReadFields(kind, Body(fields)) == Some(fields) {
      WhatIsReadIsDelimited(LengthsOf(kind), Body(fields));
    }
  }

  lemma SpeechFieldIsDelimited(samples: seq<Int16>)
    requires 156 <= |samples| <= 164
    ensures SelfDelimiting(SPEECH, SpeechField(samples))
  {
    SamplesBigConcat(samples, []);
  }

  lemma ChannelFieldIsDelimited(bits: int, data: Octets)
    requires ChannelField(bits, data).Ok?
    ensures SelfDelimiting(CHANNEL, ChannelField(bits, data).value)
  {
  }

  /** What Build accepts is delimited, but for a variable field given the wrong bytes. */
  lemma FixedFieldsAreDelimited(kind: Byte, fv: FieldValue)
    requires Buildable(kind, fv) && Lookup(kind, fv.id).value.data != VARIABLE
    ensures SelfDelimiting(kind, fv)
  {
  }

  /** Build lets a SPEECHD through whose count disagrees with its bytes; only SpeechD prevents it. */
  lemma BuildDoesNotCheckVariableFields()
    ensures var fv := FieldValue(SPEECHD, [5]);
            Buildable(SPEECH, fv) && !SelfDelimiting(SPEECH, fv) && ReadFields(SPEECH, Body([fv])) == None
  {
  }

  // ---- the header length

  /** The header tells the length of the body exactly when it fits in sixteen bits. */
  lemma HeaderTellsLength(kind: Byte, body: Octets)
    ensures Word16(Framed(kind, body)[1..]) == |body| % 0x1_0000
    ensures Word16(Framed(kind, body)[1..]) == |body| <==> |body| < 0x1_0000
  {
    var pkt, n := Framed(kind, body), |body|;
    Word16ReadsBack(n);
    assert pkt[1..][0] == Big16(n)[0] && pkt[1..][1] == Big16(n)[1];
  }

  ghost predicate Sound(p: Packet) {
    AllSelfDelimiting(p.kind, p.fields) && |Body(p.fields)| < 0x1_0000
  }

  function Stream(packets: seq<Packet>): Octets {
    if packets == [] then [] else Framed(packets[0].kind, Body(packets[0].fields)) + Stream(packets[1..])
  }

  lemma FirstPacketReadsBack(p: Packet, rest: Octets)
    requires Sound(p) && ReadPackets(rest).Some?
    ensures ReadPackets(Framed(p.kind, Body(p.fields)) + rest) == Some([p] + ReadPackets(rest).value)
  {
    var body := Body(p.fields);
    var pkt := Framed(p.kind, body);
    var stream := pkt + rest;
    HeaderTellsLength(p.kind, body);
    FieldsReadBack(p.kind, p.fields);
    assert stream[1..][0] == pkt[1..][0] && stream[1..][1] == pkt[1..][1];
    assert stream[4..4 + |body|] == body && stream[4 + |body|..] == rest;
  }

  lemma {:induction false} SoundPacketsReadBack(packets: seq<Packet>)
    requires forall i :: 0 <= i < |packets| ==> Sound(packets[i])
    ensures ReadPackets(Stream(packets)) == Some(packets)
  {
    if packets != [] {
      SoundPacketsReadBack(packets[1..]);
      FirstPacketReadsBack(packets[0], Stream(packets[1..]));
      assert packets == [packets[0]] + packets[1..];
    }
  }

  /** A field of fixed length, or one that SpeechD or Chand made. */
  ghost predicate FromTheBuilders(kind: Byte, fv: FieldValue) {
    || (Lookup(kind, fv.id).Some? && Lookup(kind, fv.id).value.data != VARIABLE)
    || (exists samples: seq<Int16> :: 156 <= |samples| <= 164 && fv == SpeechField(samples))
    || (exists bits, data :: ChannelField(bits, data) == Ok(fv))
  }

  /** The two self-describing identifiers are each in one table only, so Build settles what kind of packet they are in. */
  lemma SpeechOnlyInSpeech(kind: Byte)
    ensures Lookup(kind, SPEECHD).Some? <==> kind == SPEECH
    ensures Lookup(kind, CHAND).Some? <==> kind == CHANNEL
  {
    ControlIds();
    Absent(CONTROL_FIELDS, SPEECHD);
    Absent(CONTROL_FIELDS, CHAND);
    ShortTables();
  }

  lemma ControlIds()
    ensures forall i :: 0 <= i < |CONTROL_FIELDS| ==> CONTROL_FIELDS[i].id > CHAND
  {
  }

  lemma ShortTables()
    ensures Find(SPEECH_FIELDS, SPEECHD).Some? && Find(SPEECH_FIELDS, CHAND).None?
    ensures Find(CHANNEL_FIELDS, SPEECHD).None? && Find(CHANNEL_FIELDS, CHAND).Some?
  {
    Absent(SPEECH_FIELDS, CHAND);
    Absent(CHANNEL_FIELDS, SPEECHD);
    assert Find(SPEECH_FIELDS, SPEECHD) == Some(SPEECH_FIELDS[1]);
    assert Find(CHANNEL_FIELDS, CHAND) == Some(CHANNEL_FIELDS[1]);
  }

  lemma {:induction false} Absent(table: seq<Field>, id: Byte)
    requires forall i :: 0 <= i < |table| ==> table[i].id != id
    ensures Find(table, id) == None
  {
    if table != [] {
      Absent(table[1..], id);
    }
  }

  lemma BuiltFieldIsDelimited(kind: Byte, fv: FieldValue)
    requires Buildable(kind, fv) && FromTheBuilders(kind, fv)
    ensures SelfDelimiting(kind, fv)
  {
    SpeechOnlyInSpeech(kind);
    if Lookup(kind, fv.id).value.data != VARIABLE {
      FixedFieldsAreDelimited(kind, fv);
    } else if samples: seq<Int16> :| 156 <= |samples| <= 164 && fv == SpeechField(samples) {
      SpeechFieldIsDelimited(samples);
    } else {
      var bits, data :| ChannelField(bits, data) == Ok(fv);
      ChannelFieldIsDelimited(bits, data);
    }
  }

  /** What Build accepts, of such fields and with a body that fits the header. */
  ghost predicate Built(p: Packet) {
    && AllBuildable(p.kind, p.fields) && |Body(p.fields)| < 0x1_0000
    && forall i :: 0 <= i < |p.fields| ==> FromTheBuilders(p.kind, p.fields[i])
  }

  lemma BuiltIsSound(p: Packet)
    requires Built(p)
    ensures Sound(p)
  {
    forall i | 0 <= i < |p.fields|
      ensures Delimited(LengthsOf(p.kind), p.fields[i])
    {
      BuiltFieldIsDelimited(p.kind, p.fields[i]);
    }
  }

  /** The chip is never left inside a field: every packet and every field comes back, and nothing is over. */
  lemma NeverMidField(packets: seq<Packet>)
    requires forall i :: 0 <= i < |packets| ==> Built(packets[i])
    ensures ReadPackets(Stream(packets)) == Some(packets)
  {
    forall i | 0 <= i < |packets| ensures Sound(packets[i]) {
      BuiltIsSound(packets[i]);
    }
    SoundPacketsReadBack(packets);
  }

  lemma WholePacketIsDelimited(p: Packet)
    requires ReadPackets(Framed(p.kind, Body(p.fields))) == Some([p])
    ensures AllSelfDelimiting(p.kind, p.fields) && |Body(p.fields)| < 0x1_0000
  {
    var pkt := Framed(p.kind, Body(p.fields));
    var n := Word16(pkt[1..]);
    assert [p][..1][0] == p;
    LengthsAreToldByTheFront(p.kind);
    WhatIsReadIsDelimited(LengthsOf(p.kind), pkt[4..4 + n]);
    HeaderTellsLength(p.kind, Body(p.fields));
  }

  lemma SoundPacketReadsBack(p: Packet)
    requires Sound(p)
    ensures ReadPackets(Framed(p.kind, Body(p.fields))) == Some([p])
  {
    var pkt: Octets := Framed(p.kind, Body(p.fields));
    var none: Octets := [];
    assert ReadPackets(none) == Some([]);
    FirstPacketReadsBack(p, none);
    assert pkt + none == pkt;
    assert [p] + [] == [p];
  }

  /** A packet comes back alone and whole exactly when its fields tell their lengths and its body fits the header. */
  lemma PacketReadsBackExactlyWhen(p: Packet)
    ensures ReadPackets(Framed(p.kind, Body(p.fields))) == Some([p]) <==> Sound(p)
  {
    if Sound(p) {
      SoundPacketReadsBack(p);
    } else if ReadPackets(Framed(p.kind, Body(p.fields))) == Some([p]) {
      WholePacketIsDelimited(p);
    }
  }

  /** A body that does not fit its header leaves the reader short of the packet's end. */
  lemma LongBodyLosesTheBoundary(kind: Byte, body: Octets)
    ensures 4 + Word16(Framed(kind, body)[1..]) == |Framed(kind, body)| <==> |body| < 0x1_0000
  {
    HeaderTellsLength(kind, body);
  }

  // ---- parity

  function XorAll(b: Octets): nat {
    if b == [] then 0 else Xor(XorAll(b[..|b| - 1]), b[|b| - 1])
  }

  lemma {:induction false} XorAllIsOctet(b: Octets)
    ensures XorAll(b) < 256
  {
    if b != [] {
      XorAllIsOctet(b[..|b| - 1]);
      XorOctets(XorAll(b[..|b| - 1]), b[|b| - 1]);
    }
  }

  /** Taken over all that follows the first octet. */
  method ParityByte(pkt: Octets) returns (p: Byte)
    requires pkt != []
    ensures p == XorAll(pkt[1..])
  {
    p := 0;
    var rest := pkt[1..];
    for i := 0 to |rest|
      invariant p == XorAll(rest[..i])
    {
      XorOctets(p, rest[i]);
      p := Xor(p, rest[i]);
      assert rest[..i + 1][..i] == rest[..i];
    }
    assert rest[..|rest|] == rest;
  }

  function Lengthened(pkt: Octets): Octets
    requires |pkt| >= 3
  {
    [pkt[0]] + Big16((Word16(pkt[1..]) + 2) % 0x1_0000) + pkt[3..] + [PARITY_FIELD]
  }

  method WithParity(pkt: Octets) returns (r: Octets)
    requires |pkt| >= 3
    ensures |r| == |pkt| + 2 && r[0] == pkt[0] && r[3..|pkt|] == pkt[3..] && r[|pkt|] == 0x2F
    ensures Word16(r[1..]) == (Word16(pkt[1..]) + 2) % 0x1_0000
    ensures Word16(pkt[1..]) == |pkt| - 4 && |r| - 4 < 0x1_0000 ==> Word16(r[1..]) == |r| - 4
    ensures XorAll(r[1..]) == 0
  {
    var out := Lengthened(pkt);
    var p := ParityByte(out);
    r := out + [p];
    Word16ReadsBack((Word16(pkt[1..]) + 2) % 0x1_0000);
    assert r[1..][0] == Big16((Word16(pkt[1..]) + 2) % 0x1_0000)[0] && r[1..][1] == Big16((Word16(pkt[1..]) + 2) % 0x1_0000)[1];
    assert r[1..][..|r| - 2] == out[1..];
    XorSelf(p);
  }

  lemma {:induction false} XorAllChange(b: Octets, i: nat, x: Byte)
    requires i < |b| && x != b[i]
    ensures XorAll(b[i := x]) != XorAll(b)
  {
    var c := b[i := x];
    var front, last := b[..|b| - 1], b[|b| - 1];
    if i == |b| - 1 {
      assert c[..|b| - 1] == front;
      XorCancel(XorAll(front), last);
      XorCancel(XorAll(front), x);
    } else {
      assert c[..|b| - 1] == front[i := x];
      XorAllChange(front, i, x);
      XorComm(XorAll(front), last);
      XorComm(XorAll(front[i := x]), last);
      XorCancel(last, XorAll(front));
      XorCancel(last, XorAll(front[i := x]));
    }
  }

  /** Parity holds of what was sent, and of no packet that differs from it in one byte after the start. */
  lemma ParityCatchesOneByte(pkt: Octets, i: nat, x: Byte)
    requires 0 < i < |pkt| && XorAll(pkt[1..]) == 0 && x != pkt[i]
    ensures XorAll(pkt[i := x][1..]) != 0
  {
    assert pkt[i := x][1..] == pkt[1..][i - 1 := x];
    XorAllChange(pkt[1..], i - 1, x);
  }

  // ---- the layout, octet by octet

  /** What Build puts in front of a body. */
  lemma FramedLayout(kind: Byte, body: Octets)
    ensures var pkt := Framed(kind, body);
            && |pkt| == 4 + |body| && pkt[4..] == body
            && pkt[0] == 0x61 && pkt[1] == |body| / 256 % 256 && pkt[2] == |body| % 256 && pkt[3] == kind
  {
  }

  /** The first entry with an identifier is the one that counts, and Build asks for exactly its length. */
  lemma BuildableExactly(kind: Byte, fv: FieldValue)
    requires kind == CONTROL || kind == SPEECH || kind == CHANNEL
    ensures var table := if kind == CONTROL then CONTROL_FIELDS else if kind == SPEECH then SPEECH_FIELDS else CHANNEL_FIELDS;
            Buildable(kind, fv) <==>
              exists i :: FirstWith(table, fv.id, i) && (table[i].data == -1 || table[i].data == |fv.data|)
  {
    var table := if kind == CONTROL then CONTROL_FIELDS else if kind == SPEECH then SPEECH_FIELDS else CHANNEL_FIELDS;
    FindIsFirst(table, fv.id);
  }

  ghost predicate FirstWith(table: seq<Field>, id: Byte, i: int) {
    0 <= i < |table| && table[i].id == id && forall k :: 0 <= k < i ==> table[k].id != id
  }

  lemma {:induction false} FindIsFirst(table: seq<Field>, id: Byte)
    ensures forall i :: FirstWith(table, id, i) ==> Find(table, id) == Some(table[i])
    ensures Find(table, id).Some? ==> exists i :: FirstWith(table, id, i)
  {
    if table != [] {
      FindIsFirst(table[1..], id);
      if table[0].id == id {
        assert FirstWith(table, id, 0);
      } else {
        forall i | FirstWith(table, id, i) ensures Find(table, id) == Some(table[i]) {
          assert FirstWith(table[1..], id, i - 1);
        }
        if i :| FirstWith(table[1..], id, i) {
          assert FirstWith(table, id, i + 1);
        }
      }
    }
  }

  /** No kind but the three has a table. */
  lemma OtherKindsAreUnknown(kind: Byte)
    ensures FieldsFor(kind).Some? <==> kind == 0x00 || kind == 0x01 || kind == 0x02
  {
  }

  /** SPEECHD is a count and big-endian samples in two's complement. */
  lemma SpeechLayout(samples: seq<Int16>, i: nat)
    requires i < |samples| < 256
    ensures var data := SpeechField(samples).data;
            && SpeechField(samples).id == 0x00 && |data| == 1 + 2 * |samples| && data[0] == |samples|
            && data[1 + 2 * i] == samples[i] as int % 0x1_0000 / 256 && data[2 + 2 * i] == samples[i] as int % 0x1_0000 % 256
  {
    SamplesBigLayout(samples, i);
  }

  lemma {:induction false} SamplesBigLayout(samples: seq<Int16>, i: nat)
    requires i < |samples|
    ensures |SamplesBig(samples)| == 2 * |samples|
    ensures SamplesBig(samples)[2 * i] == samples[i] as int % 0x1_0000 / 256
    ensures SamplesBig(samples)[2 * i + 1] == samples[i] as int % 0x1_0000 % 256
  {
    SamplesBigConcat(samples, []);
    SamplesBigConcat(samples[1..], []);
    if i == 0 {
      TwosComplement(samples[0]);
    } else {
      SamplesBigLayout(samples[1..], i - 1);
    }
  }

  /** CHAND is a bit count from 40 to 192 and the fewest octets that hold so many bits. */
  lemma ChannelFieldExactly(bits: int, data: Octets)
    ensures ChannelField(bits, data).Ok? <==> 40 <= bits <= 192 && bits <= 8 * |data| < bits + 8
    ensures ChannelField(bits, data).Ok? ==> ChannelField(bits, data).value == FieldValue(0x01, [bits] + data)
    ensures ChannelField(bits, data).Err? ==> ChannelField(bits, data).error == WrongLength(0x01, |data|)
  {
  }
}
