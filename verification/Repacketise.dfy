/**
 Blocks of 60 ms from frames of 20 ms and the other way about. Either direction
 may have something left over between calls.
 */
module Repacketise {
  import opened Sequences
  import opened AudioTypes
  import opened Resample

  const FRAMES_PER_PACKET := 3
  const ZELLO_SAMPLES_PER_PACKET := 960

  datatype AddResult = WrongLength(got: nat) | Waiting | Block(samples: seq<Int16>)

  /** The samples a call hands over, if it hands over any. */
  function Given(r: AddResult): seq<Int16> {
    if r.Block? then r.samples else []
  }

  /** The whole, followed by only the silence that reaches a boundary. */
  ghost predicate PaddedTo(out: seq<Int16>, whole: seq<Int16>, block: int)
    requires block > 0
  {
    && |whole| <= |out| < |whole| + block && |out| % block == 0
    && out == whole + Silence(|out| - |whole|)
  }

  /** A remainder filled to a boundary with silence; nothing held is nothing to send. */
  ghost function Filled(held: seq<Int16>, n: nat): seq<Int16>
    requires |held| <= n
  {
    if held == [] then [] else held + Silence(n - |held|)
  }

  /**
   given is everything handed over and line everything that has to be, in
   order: what the upsampler made, and the silence of each flush.
   */
  class Packer {
    const up: Upsampler
    var pending: seq<Int16>
    var frames: nat
    ghost var given: seq<Int16>
    ghost var line: seq<Int16>

    ghost predicate Valid()
      reads this, up, up.history
    {
      && up.Valid()
      && frames < FRAMES_PER_PACKET && |pending| == 2 * SAMPLES_PER_FRAME * frames
      && given + pending == line
    }

    constructor (taps: Taps)
      ensures Valid() && fresh(up) && fresh(up.history) && up.taps == taps
      ensures given == [] && line == UpWhole(taps, up.fed) && up.fed == []
    {
      up := new Upsampler(taps);
      pending, frames, given, line := [], 0, [], [];
    }

    /** What an earlier call left behind is forgotten. */
    method Reset()
      requires Valid()
      modifies this, up, up.history
      ensures Valid() && given == [] && pending == []
      ensures up.fed == [] && line == UpWhole(up.taps, up.fed)
    {
      up.Reset();
      pending, frames, given, line := [], 0, [], [];
    }

    method Add(frame: seq<Int16>) returns (r: AddResult)
      requires Valid()
      modifies this, up, up.history
      ensures Valid()
      ensures r.WrongLength? <==> |frame| != SAMPLES_PER_FRAME
      ensures r.WrongLength? ==> up.fed == old(up.fed) && line == old(line) && given == old(given) && pending == old(pending)
      ensures !r.WrongLength? ==> up.fed == old(up.fed) + frame
      ensures !r.WrongLength? ==>
                exists more :: UpWhole(up.taps, up.fed) == UpWhole(up.taps, old(up.fed)) + more && line == old(line) + more
      ensures given == old(given) + Given(r)
      ensures r.Block? ==> |r.samples| == ZELLO_SAMPLES_PER_PACKET && pending == []
      ensures r.Block? <==> |frame| == SAMPLES_PER_FRAME && old(frames) == FRAMES_PER_PACKET - 1
    {
      if |frame| != SAMPLES_PER_FRAME {
        return WrongLength(|frame|);
      }
      var converted := up.Up(frame);
      pending := pending + converted;
      line := line + converted;
      frames := frames + 1;
      if frames < FRAMES_PER_PACKET {
        return Waiting;
      }
      r := Block(pending);
      given := given + pending;
      pending, frames := [], 0;
    }

    /** What is held is filled up and handed over. */
    method Flush() returns (block: seq<Int16>)
      requires Valid()
      modifies this
      ensures Valid() && pending == []
      ensures given == old(given) + block
      ensures block == Filled(old(pending), ZELLO_SAMPLES_PER_PACKET) && (block == [] || |block| == ZELLO_SAMPLES_PER_PACKET)
    {
      if frames == 0 {
        return [];
      }
      var silence := Silence(ZELLO_SAMPLES_PER_PACKET - |pending|);
      block := pending + silence;
      given := given + block;
      line := line + silence;
      pending, frames := [], 0;
    }
  }

  /** The frames that are not refused. */
  function Accepted(frames: seq<seq<Int16>>): seq<seq<Int16>> {
    if frames == [] then []
    else
      var last := frames[|frames| - 1];
      Accepted(frames[..|frames| - 1]) + if |last| == SAMPLES_PER_FRAME then [last] else []
  }

  lemma AcceptedNext(frames: seq<seq<Int16>>, i: nat)
    requires i < |frames|
    ensures Concat(Accepted(frames[..i + 1]))
         == Concat(Accepted(frames[..i])) + if |frames[i]| == SAMPLES_PER_FRAME then frames[i] else []
  {
    var upto := frames[..i + 1];
    assert upto[..|upto| - 1] == frames[..i] && upto[|upto| - 1] == frames[i];
    assert Accepted(frames[..i]) + [] == Accepted(frames[..i]);
    ConcatSnoc(Accepted(frames[..i]), frames[i]);
  }

  lemma BlockSnoc(blocks: seq<seq<Int16>>, last: seq<Int16>)
    requires WholeBlocks(blocks) && |last| == ZELLO_SAMPLES_PER_PACKET
    ensures WholeBlocks(blocks + [last]) && Concat(blocks + [last]) == Concat(blocks) + last
  {
    ConcatSnoc(blocks, last);
  }

  ghost predicate WholeBlocks(blocks: seq<seq<Int16>>) {
    forall i :: 0 <= i < |blocks| ==> |blocks[i]| == ZELLO_SAMPLES_PER_PACKET
  }

  /** One transmission as the bridge drives it: a reset, frames good and bad, and a flush at the release. */
  method PackTransmission(p: Packer, frames: seq<seq<Int16>>) returns (blocks: seq<seq<Int16>>)
    requires p.Valid()
    modifies p, p.up, p.up.history
    ensures p.Valid() && WholeBlocks(blocks)
    ensures PaddedTo(Concat(blocks), UpWhole(p.up.taps, Concat(Accepted(frames))), ZELLO_SAMPLES_PER_PACKET)
  {
    p.Reset();
    blocks := [];
    ghost var taps := p.up.taps;
    for i := 0 to |frames|
      invariant p.Valid() && p.up.fed == Concat(Accepted(frames[..i]))
      invariant p.line == UpWhole(taps, p.up.fed)
      invariant Concat(blocks) == p.given && WholeBlocks(blocks)
    {
      AcceptedNext(frames, i);
      var r := p.Add(frames[i]);
      if r.Block? {
        BlockSnoc(blocks, r.samples);
        blocks := blocks + [r.samples];
      }
    }
    assert frames[..|frames|] == frames;
    ConcatLength(blocks, ZELLO_SAMPLES_PER_PACKET);
    ghost var given, held := p.given, p.pending;
    var tail := p.Flush();
    if tail != [] {
      BlockSnoc(blocks, tail);
      blocks := blocks + [tail];
    }
  }

  lemma {:induction false} ConcatLength<T>(parts: seq<seq<T>>, n: nat)
    requires forall i :: 0 <= i < |parts| ==> |parts[i]| == n
    ensures |Concat(parts)| == n * |parts|
  {
    if parts != [] {
      ConcatLength(parts[1..], n);
    }
  }

  class Unpacker {
    const down: Downsampler
    var pending: seq<Int16>
    ghost var given: seq<Int16>
    ghost var line: seq<Int16>

    ghost predicate Valid()
      reads this, down, down.history
    {
      down.Valid() && |pending| < SAMPLES_PER_FRAME && given + pending == line
    }

    constructor (taps: Taps)
      ensures Valid() && fresh(down) && fresh(down.history) && down.taps == taps
      ensures given == [] && line == DownWhole(taps, down.fed) && down.fed == []
    {
      down := new Downsampler(taps);
      pending, given, line := [], [], [];
    }

    method Reset()
      requires Valid()
      modifies this, down, down.history
      ensures Valid() && given == [] && pending == []
      ensures down.fed == [] && line == DownWhole(down.taps, down.fed)
    {
      down.Reset();
      pending, given, line := [], [], [];
    }

    /** Whole frames out; the remainder is carried, never padded. */
    method Add(block: seq<Int16>) returns (out: seq<Int16>)
      requires Valid()
      modifies this, down, down.history
      ensures Valid()
      ensures down.fed == old(down.fed) + block
      ensures exists more :: DownWhole(down.taps, down.fed) == DownWhole(down.taps, old(down.fed)) + more && line == old(line) + more
      ensures given == old(given) + out && |out| % SAMPLES_PER_FRAME == 0 && |pending| < SAMPLES_PER_FRAME
    {
      var converted := down.Down(block);
      pending := pending + converted;
      line := line + converted;
      var whole := |pending| / SAMPLES_PER_FRAME;
      if whole == 0 {
        return [];
      }
      out := pending[..whole * SAMPLES_PER_FRAME];
      given := given + out;
      pending := pending[whole * SAMPLES_PER_FRAME..];
    }

    method Flush() returns (frame: seq<Int16>)
      requires Valid()
      modifies this
      ensures Valid() && pending == []
      ensures given == old(given) + frame
      ensures frame == Filled(old(pending), SAMPLES_PER_FRAME) && (frame == [] || |frame| == SAMPLES_PER_FRAME)
    {
      if |pending| == 0 {
        return [];
      }
      var silence := Silence(SAMPLES_PER_FRAME - |pending|);
      frame := pending + silence;
      given := given + frame;
      line := line + silence;
      pending := [];
    }
  }

  /** Every piece is some number of whole frames. */
  ghost predicate WholeFrames(pieces: seq<seq<Int16>>) {
    forall i :: 0 <= i < |pieces| ==> |pieces[i]| % SAMPLES_PER_FRAME == 0
  }

  /** One transmission: a reset, decoded blocks of any length, and a flush. */
  method UnpackTransmission(u: Unpacker, blocks: seq<seq<Int16>>) returns (pieces: seq<seq<Int16>>)
    requires u.Valid()
    modifies u, u.down, u.down.history
    ensures u.Valid()
    ensures WholeFrames(pieces)
    ensures PaddedTo(Concat(pieces), DownWhole(u.down.taps, Concat(blocks)), SAMPLES_PER_FRAME)
  {
    u.Reset();
    pieces := [];
    ghost var taps := u.down.taps;
    for i := 0 to |blocks|
      invariant u.Valid() && u.down.fed == Before(blocks, i)
      invariant u.line == DownWhole(taps, u.down.fed)
      invariant Concat(pieces) == u.given
      invariant WholeFrames(pieces)
    {
      BeforeNext(blocks, i);
      var out := u.Add(blocks[i]);
      ConcatSnoc(pieces, out);
      pieces := pieces + [out];
    }
    assert blocks[..|blocks|] == blocks;
    ConcatWhole(pieces);
    ghost var given, held := u.given, u.pending;
    var tail := u.Flush();
    Closing(given, held);
    ConcatSnoc(pieces, tail);
    pieces := pieces + [tail];
  }

  lemma {:induction false} ConcatWhole(parts: seq<seq<Int16>>)
    requires WholeFrames(parts)
    ensures |Concat(parts)| % SAMPLES_PER_FRAME == 0
  {
    if parts != [] {
      ConcatWhole(parts[1..]);
    }
  }

  /** Whole frames, then the remainder filled to one more, are the padded whole. */
  lemma Closing(given: seq<Int16>, held: seq<Int16>)
    requires |held| < SAMPLES_PER_FRAME && |given| % SAMPLES_PER_FRAME == 0
    ensures PaddedTo(given + Filled(held, SAMPLES_PER_FRAME), given + held, SAMPLES_PER_FRAME)
  {
  }
}
