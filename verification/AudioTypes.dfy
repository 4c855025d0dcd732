/** Samples and frames, as the queue, the codecs and the pump share them. */
module AudioTypes {
  import opened Bytes

  type Int16 = x: int | -0x8000 <= x < 0x8000

  const SAMPLES_PER_FRAME := 160

  datatype Frame = Frame(sequence: Word, ptt: bool, talkgroup: Word, samples: seq<Int16>)

  const NO_FRAME := Frame(0, false, 0, [])

  /** A frame that marks a beginning or an end and has no sound in it. */
  predicate Signal(f: Frame) {
    !f.ptt || f.samples == []
  }

  // ---- two's complement

  function Unsigned16(s: Int16): (u: nat)
    ensures u < 0x1_0000
  {
    if s < 0 then s + 0x1_0000 else s
  }

  function Signed16(u: nat): Int16
    requires u < 0x1_0000
  {
    if u >= 0x8000 then u - 0x1_0000 else u
  }

  lemma SampleReadsBack(s: Int16)
    ensures Signed16(Word16(Big16(Unsigned16(s)))) == s
  {
    Word16ReadsBack(Unsigned16(s));
  }

  /** The same remainder modulo 65536, either way. */
  lemma TwosComplement(s: Int16)
    ensures Unsigned16(s) == s as int % 0x1_0000
    ensures forall u: nat :: u < 0x1_0000 ==> Signed16(u) as int % 0x1_0000 == u
  {
  }
}
