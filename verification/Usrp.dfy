/** USRP datagrams: a header of big-endian words and, for voice, little-endian samples. */
module Usrp {
  import opened Bytes
  import opened AudioTypes

  const HEADER_BYTES := 32
  const MAGIC: Octets := [0x55, 0x53, 0x52, 0x50]
  const TYPE_VOICE: Word := 0

  datatype Encoded = Datagram(b: Octets) | WrongLength(samples: nat)
  datatype Decoded = NotVoice | Voice(f: Frame)

  function Sample(lo: Byte, hi: Byte): Int16 {
    Signed16(Word16([hi, lo]))
  }

  function Audio(samples: seq<Int16>): Octets {
    if samples == [] then [] else Audio(samples[..|samples| - 1]) + Little16(Unsigned16(samples[|samples| - 1]))
  }

  /** The seven words after the magic: sequence, memory, keyup, talkgroup, type, mpxid, reserved. */
  function Header(f: Frame): (h: Octets)
    ensures |h| == HEADER_BYTES
  {
    MAGIC + Big32(f.sequence) + Big32(0) + Big32(if f.ptt then 1 else 0) + Big32(f.talkgroup)
    + Big32(TYPE_VOICE) + Big32(0) + Big32(0)
  }

  predicate Encodable(f: Frame) {
    |f.samples| == 0 || |f.samples| == SAMPLES_PER_FRAME
  }

  method Encode(f: Frame) returns (r: Encoded)
    ensures r == if Encodable(f) then Datagram(Header(f) + Audio(f.samples)) else WrongLength(|f.samples|)
  {
    if |f.samples| != 0 && |f.samples| != SAMPLES_PER_FRAME {
      return WrongLength(|f.samples|);
    }
    var b := WriteHeader(f);
    for i := 0 to |f.samples|
      invariant b == Header(f) + Audio(f.samples[..i])
    {
      b := b + Little16(Unsigned16(f.samples[i]));
      assert f.samples[..i + 1][..i] == f.samples[..i];
    }
    assert f.samples[..|f.samples|] == f.samples;
    r := Datagram(b);
  }

  /** The i-th four octets. */
  function WordOf(h: Octets, i: nat): Octets
    requires 4 * i + 4 <= |h|
  {
    h[4 * i..4 * i + 4]
  }

  /** Words that are not written stay zero. */
  method WriteHeader(f: Frame) returns (h: Octets)
    ensures h == Header(f)
  {
    var out := new Byte[HEADER_BYTES](i => 0);
    assert Big32(0) == [0, 0, 0, 0];
    assert forall j :: 0 <= j < 8 ==> WordOf(out[..], j) == Big32(0);
    Put(out, 0, MAGIC);
    Put(out, 1, Big32(f.sequence));
    Put(out, 3, Big32(if f.ptt then 1 else 0));
    Put(out, 4, Big32(f.talkgroup));
    Put(out, 5, Big32(TYPE_VOICE));
    h := out[..];
    HeaderFromWords(h, f);
  }

  predicate HasWords(h: Octets, f: Frame)
    requires |h| >= HEADER_BYTES
  {
    && WordOf(h, 0) == MAGIC && WordOf(h, 1) == Big32(f.sequence) && WordOf(h, 2) == Big32(0)
    && WordOf(h, 3) == Big32(if f.ptt then 1 else 0) && WordOf(h, 4) == Big32(f.talkgroup)
    && WordOf(h, 5) == Big32(TYPE_VOICE) && WordOf(h, 6) == Big32(0) && WordOf(h, 7) == Big32(0)
  }

  lemma HeaderFromWords(h: Octets, f: Frame)
    requires |h| == HEADER_BYTES && HasWords(h, f)
    ensures h == Header(f)
  {
    assert h == WordOf(h, 0) + WordOf(h, 1) + WordOf(h, 2) + WordOf(h, 3)
                + WordOf(h, 4) + WordOf(h, 5) + WordOf(h, 6) + WordOf(h, 7);
  }

  /** One word of the header, and no other. */
  method Put(out: array<Byte>, i: nat, word: Octets)
    requires |word| == 4 && i < 8 && out.Length == HEADER_BYTES
    modifies out
    ensures forall j :: 0 <= j < 8 ==> WordOf(out[..], j) == if j == i then word else WordOf(old(out[..]), j)
  {
    out[4 * i] := word[0];
    out[4 * i + 1] := word[1];
    out[4 * i + 2] := word[2];
    out[4 * i + 3] := word[3];
    forall j | 0 <= j < 8 && j != i ensures WordOf(out[..], j) == WordOf(old(out[..]), j) {
      assert forall k :: 4 * j <= k < 4 * j + 4 ==> out[..][k] == old(out[..])[k];
    }
  }

  lemma HeaderWords(f: Frame)
    ensures HasWords(Header(f), f)
  {
  }

  ghost function Samples(audio: Octets): (r: seq<Int16>)
    requires |audio| == 2 * SAMPLES_PER_FRAME
    ensures |r| == SAMPLES_PER_FRAME
  {
    seq(SAMPLES_PER_FRAME, i requires 0 <= i < SAMPLES_PER_FRAME => Sample(audio[2 * i], audio[2 * i + 1]))
  }

  /** Any keyup word but zero is a keyup; the other unused words are not looked at. */
  ghost function DecodedFrom(b: Octets): Decoded {
    if |b| < HEADER_BYTES || WordOf(b, 0) != MAGIC || Word32(WordOf(b, 5)) != TYPE_VOICE then NotVoice
    else
      var audio := b[HEADER_BYTES..];
      if |audio| != 0 && |audio| != 2 * SAMPLES_PER_FRAME then NotVoice
      else
        Voice(Frame(Word32(WordOf(b, 1)), Word32(WordOf(b, 3)) != 0, Word32(WordOf(b, 4)), if |audio| == 0 then [] else Samples(audio)))
  }

  method Decode(b: Octets) returns (r: Decoded)
    ensures r == DecodedFrom(b)
  {
    if |b| < HEADER_BYTES || WordOf(b, 0) != MAGIC || Word32(WordOf(b, 5)) != TYPE_VOICE {
      return NotVoice;
    }
    var audio := b[HEADER_BYTES..];
    if |audio| == 0 {
      return Voice(Frame(Word32(WordOf(b, 1)), Word32(WordOf(b, 3)) != 0, Word32(WordOf(b, 4)), []));
    }
    if |audio| == 2 * SAMPLES_PER_FRAME {
      var samples := ReadAudio(audio);
      return Voice(Frame(Word32(WordOf(b, 1)), Word32(WordOf(b, 3)) != 0, Word32(WordOf(b, 4)), samples));
    }
    return NotVoice;
  }

  method ReadAudio(audio: Octets) returns (samples: seq<Int16>)
    requires |audio| == 2 * SAMPLES_PER_FRAME
    ensures samples == Samples(audio)
  {
    samples := [];
    for i := 0 to SAMPLES_PER_FRAME
      invariant |samples| == i
      invariant forall k :: 0 <= k < i ==> samples[k] == Sample(audio[2 * k], audio[2 * k + 1])
    {
      samples := samples + [Sample(audio[2 * i], audio[2 * i + 1])];
    }
  }

  // ---- the two undo each other

  lemma {:induction false} AudioReadsBack(samples: seq<Int16>, i: nat)
    requires i < |samples|
    ensures |Audio(samples)| == 2 * |samples|
    ensures Sample(Audio(samples)[2 * i], Audio(samples)[2 * i + 1]) == samples[i]
  {
    var n := |samples| - 1;
    AudioLength(samples);
    AudioLength(samples[..n]);
    if i == n {
      SampleReadsBack(samples[i]);
      var u := Unsigned16(samples[i]);
      assert [Little16(u)[1], Little16(u)[0]] == Big16(u);
    } else {
      AudioReadsBack(samples[..n], i);
    }
  }

  lemma {:induction false} AudioLength(samples: seq<Int16>)
    ensures |Audio(samples)| == 2 * |samples|
  {
    if samples != [] {
      AudioLength(samples[..|samples| - 1]);
    }
  }

  lemma AudioIsSamples(samples: seq<Int16>)
    requires |samples| == SAMPLES_PER_FRAME
    ensures |Audio(samples)| == 2 * SAMPLES_PER_FRAME && Samples(Audio(samples)) == samples
  {
    AudioLength(samples);
    forall i | 0 <= i < |samples|
      ensures Samples(Audio(samples))[i] == samples[i]
    {
      AudioReadsBack(samples, i);
    }
  }

  /** What a reader of words finds in front of any audio. */
  lemma HeaderReadsBack(f: Frame, b: Octets)
    requires |b| >= HEADER_BYTES && forall i :: 0 <= i < 8 ==> WordOf(b, i) == WordOf(Header(f), i)
    ensures WordOf(b, 0) == MAGIC && Word32(WordOf(b, 5)) == TYPE_VOICE
    ensures Word32(WordOf(b, 1)) == f.sequence && Word32(WordOf(b, 4)) == f.talkgroup
    ensures Word32(WordOf(b, 3)) != 0 <==> f.ptt
  {
    HeaderWords(f);
    WordReadsBack(f.sequence);
    WordReadsBack(f.talkgroup);
    WordReadsBack(if f.ptt then 1 else 0);
    WordReadsBack(TYPE_VOICE);
  }

  lemma WordReadsBack(w: Word)
    ensures Word32(Big32(w)) == w
  {
    Word32ReadsBack(w);
  }

  /** Every frame that can be sent is received as it was. */
  lemma DecodeUndoesEncode(f: Frame)
    requires Encodable(f)
    ensures DecodedFrom(Header(f) + Audio(f.samples)) == Voice(f)
  {
    HeaderReadsBack(f, Header(f) + Audio(f.samples));
    if f.samples != [] {
      AudioIsSamples(f.samples);
    }
  }

  /** Whatever datagram is accepted, its frame can be sent again and is received the same. */
  lemma ReencodingKeepsTheFrame(b: Octets)
    requires DecodedFrom(b).Voice?
    ensures var f := DecodedFrom(b).f; Encodable(f) && DecodedFrom(Header(f) + Audio(f.samples)) == DecodedFrom(b)
  {
    DecodeUndoesEncode(DecodedFrom(b).f);
  }

  /** A keyup is a header alone, with the keyup word set. */
  method Keyup(sequence: Word, talkgroup: Word) returns (r: Encoded)
    ensures r.Datagram? && |r.b| == 32 && DecodedFrom(r.b) == Voice(Frame(sequence, true, talkgroup, []))
  {
    DecodeUndoesEncode(Frame(sequence, true, talkgroup, []));
    r := Encode(Frame(sequence, true, talkgroup, []));
  }

  /** A release is a header alone, with the keyup word clear. */
  method Release(sequence: Word, talkgroup: Word) returns (r: Encoded)
    ensures r.Datagram? && |r.b| == 32 && DecodedFrom(r.b) == Voice(Frame(sequence, false, talkgroup, []))
  {
    DecodeUndoesEncode(Frame(sequence, false, talkgroup, []));
    r := Encode(Frame(sequence, false, talkgroup, []));
  }

  // ---- the layout, octet by octet

  /** What a reader knowing only the protocol finds in a datagram. */
  lemma DatagramLayout(f: Frame)
    requires Encodable(f)
    ensures var b := Header(f) + Audio(f.samples);
            && |b| == 32 + 2 * |f.samples|
            && b[..4] == [0x55, 0x53, 0x52, 0x50]
            && BigEndian(b[4..8]) == f.sequence && BigEndian(b[8..12]) == 0
            && BigEndian(b[12..16]) == (if f.ptt then 1 else 0) && BigEndian(b[16..20]) == f.talkgroup
            && BigEndian(b[20..24]) == 0 && BigEndian(b[24..28]) == 0 && BigEndian(b[28..32]) == 0
            && forall i :: 0 <= i < |f.samples| ==>
                 b[32 + 2 * i] == f.samples[i] as int % 0x1_0000 % 256 && b[33 + 2 * i] == f.samples[i] as int % 0x1_0000 / 256
  {
    var h, b := Header(f), Header(f) + Audio(f.samples);
    HeaderWords(f);
    AudioLength(f.samples);
    assert WordOf(b, 0) == b[..4];
    WordLayout(b, 1, f.sequence);
    WordLayout(b, 2, 0);
    WordLayout(b, 3, if f.ptt then 1 else 0);
    WordLayout(b, 4, f.talkgroup);
    WordLayout(b, 5, 0);
    WordLayout(b, 6, 0);
    WordLayout(b, 7, 0);
    forall i | 0 <= i < |f.samples|
      ensures b[32 + 2 * i] == f.samples[i] as int % 0x1_0000 % 256 && b[33 + 2 * i] == f.samples[i] as int % 0x1_0000 / 256
    {
      AudioLayout(f.samples, i);
      assert b[32 + 2 * i] == Audio(f.samples)[2 * i] && b[33 + 2 * i] == Audio(f.samples)[2 * i + 1];
    }
  }

  lemma WordLayout(b: Octets, i: nat, w: Word)
    requires 4 * i + 4 <= |b| && WordOf(b, i) == Big32(w)
    ensures BigEndian(b[4 * i..4 * i + 4]) == w
  {
    Word32IsBigEndian(WordOf(b, i));
    WordReadsBack(w);
  }

  lemma {:induction false} AudioLayout(samples: seq<Int16>, i: nat)
    requires i < |samples|
    ensures |Audio(samples)| == 2 * |samples|
    ensures Audio(samples)[2 * i] == samples[i] as int % 0x1_0000 % 256 && Audio(samples)[2 * i + 1] == samples[i] as int % 0x1_0000 / 256
  {
    var n := |samples| - 1;
    AudioLength(samples);
    AudioLength(samples[..n]);
    if i == n {
      TwosComplement(samples[i]);
    } else {
      AudioLayout(samples[..n], i);
    }
  }

  /** Accepted are voice datagrams with no audio or one whole frame of it, and nothing else is looked at. */
  lemma DecodeAcceptsExactly(b: Octets)
    ensures DecodedFrom(b).Voice? <==>
              (|b| == 32 || |b| == 352) && b[..4] == [0x55, 0x53, 0x52, 0x50] && BigEndian(b[20..24]) == 0
  {
    if |b| >= 32 {
      assert WordOf(b, 0) == b[..4];
      Word32IsBigEndian(WordOf(b, 5));
    }
  }

  lemma DecodedFields(b: Octets)
    requires DecodedFrom(b).Voice?
    ensures var f := DecodedFrom(b).f;
            && f.sequence == BigEndian(b[4..8]) && f.talkgroup == BigEndian(b[16..20])
            && (f.ptt <==> BigEndian(b[12..16]) != 0)
            && f.samples == if |b| == 32 then [] else Samples(b[32..])
  {
    Word32IsBigEndian(WordOf(b, 1));
    Word32IsBigEndian(WordOf(b, 3));
    Word32IsBigEndian(WordOf(b, 4));
  }

  /** Samples are little-endian, in two's complement. */
  lemma SamplesLayout(audio: Octets, i: nat)
    requires |audio| == 320 && i < 160
    ensures Samples(audio)[i] as int % 0x1_0000 == audio[2 * i] as int + 256 * audio[2 * i + 1] as int
  {
    TwosComplement(0);
    assert Samples(audio)[i] == Signed16(Word16([audio[2 * i + 1], audio[2 * i]]));
  }
}
