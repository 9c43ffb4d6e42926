/** A reader that gives a decoder one Zstandard frame and keeps aside whatever the object holds behind it. */
module FrameReader {
  import opened Options
  import opened FrameLayout
  import opened FrameWalk
  import opened ByteStreams

  const DECODE_INPUT_BYTES := 131072

  class FrameBoundedReader {
    const source: Reader
    var queue: seq<byte>
    var trailing: seq<byte>
    var digested: seq<byte>
    var field: seq<byte>
    var phase: Phase
    var need: int
    var hasChecksum: bool
    var blockRemaining: int
    var lastBlock: bool
    var frameComplete: bool
    var frameLength: nat
    /** Everything fed in so far, and everything handed out so far. */
    ghost var fed: seq<byte>
    ghost var handed: seq<byte>

    ghost function Walked(): Walk
      reads this
    {
      Walk(phase, need, field, hasChecksum, blockRemaining, lastBlock)
    }

    /** The reader is exactly where the walk over all bytes fed is; the decoder gets frame bytes only. */
    ghost predicate Valid()
      reads this, source, source.handle
    {
      && source.Valid()
      && Walked() == Run(START, fed) && phase != Bad
      && (frameComplete <==> phase == Done)
      && Split(fed, frameLength, digested, handed, queue, trailing)
    }

    /** Everything the source has given so far was fed to the walk. */
    ghost predicate Abreast()
      reads this, source, source.handle
    {
      source.handle.Valid() && source.InStep() && fed == source.handle.data[..source.handle.position]
    }

    /** Neither the source's reader nor the walk over the source's bytes will object. */
    ghost predicate Sound()
      reads this, source
    {
      source.Readable() && Run(START, source.handle.data).phase != Bad
    }

    constructor (source: Reader)
      requires source.Valid()
      ensures Valid() && this.source == source && fed == [] && handed == []
    {
      this.source := source;
      queue, trailing, digested, field := [], [], [], [];
      phase, need, hasChecksum, blockRemaining, lastBlock := Magic, 4, false, 0, false;
      frameComplete, frameLength := false, 0;
      fed, handed := [], [];
    }

    /** Walks over `chunk`. When the walk raises, the chunk's bytes reach neither queue nor digest. */
    method Feed(chunk: seq<byte>) returns (ok: bool)
      requires Valid()
      modifies this
      ensures ok <==> Run(START, old(fed) + chunk).phase != Bad
      ensures ok ==> Valid() && fed == old(fed) + chunk && handed == old(handed)
      ensures ok ==> var n := Consumed(Run(START, old(fed)), chunk);
                     queue == old(queue) + chunk[..n] && trailing == old(trailing) + chunk[n..]
      ensures !ok ==> queue == old(queue) && trailing == old(trailing) && handed == old(handed)
    {
      RunConcat(START, fed, chunk);
      hide Run, Consumed, Split;
      var offset;
      ok, offset := WalkOver(chunk);
      if ok {
        Take(chunk, offset);
      }
    }

    /** The first `offset` bytes of `chunk` belong to the frame. */
    method Take(chunk: seq<byte>, offset: nat)
      requires Split(fed, frameLength, digested, handed, queue, trailing)
      requires offset == Consumed(Run(START, fed), chunk)
      modifies this`digested, this`frameLength, this`queue, this`trailing, this`fed
      ensures fed == old(fed) + chunk
      ensures queue == old(queue) + chunk[..offset] && trailing == old(trailing) + chunk[offset..]
      ensures Split(fed, frameLength, digested, handed, queue, trailing)
    {
      hide Run, Consumed, Split;
      SplitGrows(fed, frameLength, digested, handed, queue, trailing, chunk, offset);
      digested := digested + chunk[..offset];
      frameLength := frameLength + offset;
      queue := queue + chunk[..offset];
      trailing := trailing + chunk[offset..];
      fed := fed + chunk;
    }

    /** Walks as far into `chunk` as the frame goes. */
    method WalkOver(chunk: seq<byte>) returns (ok: bool, offset: nat)
      requires WalkOk(Walked()) && phase != Bad && (frameComplete <==> phase == Done)
      modifies this`field, this`phase, this`need, this`hasChecksum, this`blockRemaining, this`lastBlock,
               this`frameComplete
      ensures ok <==> Run(old(Walked()), chunk).phase != Bad
      ensures ok ==> Walked() == Run(old(Walked()), chunk) && (frameComplete <==> phase == Done)
      ensures ok ==> offset == Consumed(old(Walked()), chunk)
    {
      ghost var start := Walked();
      EmptyRun(start, chunk);
      hide Run, Consumed, Step;
      offset := 0;
      while offset < |chunk| && !frameComplete
        invariant 0 <= offset <= |chunk|
        invariant Walked() == Run(start, chunk[..offset]) && phase != Bad
        invariant Consumed(start, chunk[..offset]) == offset
        invariant frameComplete <==> phase == Done
      {
        ok, offset := Advance(chunk, offset, start);
        if !ok {
          return;
        }
      }
      ok := true;
      FeedEnds(start, chunk, offset);
    }

    /** One turn of the loop: part of a block body, or a header field as far as the chunk reaches. */
    method Advance(chunk: seq<byte>, offset: nat, ghost start: Walk) returns (ok: bool, next: nat)
      requires offset < |chunk| && WalkOk(start)
      requires Walked() == Run(start, chunk[..offset]) && phase != Bad && phase != Done && !frameComplete
      requires Consumed(start, chunk[..offset]) == offset
      modifies this`field, this`phase, this`need, this`hasChecksum, this`blockRemaining, this`lastBlock,
               this`frameComplete
      ensures ok ==>
                && offset < next <= |chunk|
                && Walked() == Run(start, chunk[..next]) && phase != Bad
                && Consumed(start, chunk[..next]) == next
                && (frameComplete <==> phase == Done)
      ensures !ok ==> Run(start, chunk).phase == Bad
    {
      ghost var w := Walked();
      hide Run, Consumed, Step;
      if phase == BlockBody {
        var step := Min(blockRemaining, |chunk| - offset);
        next := offset + step;
        Extends(start, chunk, offset, next);
        BodyRun(w, chunk[offset..next]);
        blockRemaining := blockRemaining - step;
        if blockRemaining == 0 {
          FinishBlock();
        }
        return true, next;
      }
      var step := Min(need - |field|, |chunk| - offset);
      next := offset + step;
      Extends(start, chunk, offset, next);
      FieldRun(w, chunk[offset..next]);
      field := field + chunk[offset..next];
      if |field| < need {
        return true, next;
      }
      var encoded := field;
      field := [];
      RejectionSticks(start, chunk, next);
      ok := FieldRead(encoded);
    }

    method FieldRead(encoded: seq<byte>) returns (ok: bool)
      requires WalkOk(Walked().(field := encoded[..0])) && phase !in {BlockBody, Done, Bad} && !frameComplete
      requires field == [] && |encoded| == need
      modifies this`phase, this`need, this`hasChecksum, this`blockRemaining, this`lastBlock, this`frameComplete
      ensures ok <==> Field(old(Walked()), encoded).phase != Bad
      ensures ok ==> Walked() == Field(old(Walked()), encoded) && (frameComplete <==> phase == Done)
    {
      ok := true;
      match phase {
        case Magic =>
          if encoded != MAGIC {
            return false;
          }
          phase, need := Descriptor, 1;
        case Descriptor =>
          ok := ReadDescriptor(encoded[0]);
          assert encoded == [encoded[0]];
        case HeaderRest =>
          phase, need := BlockHeader, 3;
        case BlockHeader =>
          ok := ReadBlockHeader(encoded);
        case Checksum =>
          phase, frameComplete := Done, true;
      }
    }

    method ReadDescriptor(descriptor: byte) returns (ok: bool)
      requires phase == Descriptor
      modifies this`phase, this`need, this`hasChecksum
      ensures ok <==> !ReservedBit(descriptor)
      ensures ok ==> Walked() == Field(old(Walked()), [descriptor]) && phase != Bad && phase != Done
    {
      if ReservedBit(descriptor) {
        return false;
      }
      hasChecksum := ChecksumFlag(descriptor);
      var remaining := FieldBytes(descriptor);
      if remaining > 0 {
        phase, need := HeaderRest, remaining;
      } else {
        phase, need := BlockHeader, 3;
      }
      ok := true;
    }

    method ReadBlockHeader(encoded: seq<byte>) returns (ok: bool)
      requires phase == BlockHeader && |encoded| == 3 && !frameComplete
      modifies this`phase, this`need, this`blockRemaining, this`lastBlock, this`frameComplete
      ensures ok <==> Field(old(Walked()), encoded).phase != Bad
      ensures ok ==> Walked() == Field(old(Walked()), encoded) && (frameComplete <==> phase == Done)
    {
      var header := Number(encoded);
      lastBlock := header % 2 == 1;
      var kind := header / 2 % 4;
      if kind == 3 {
        return false;
      }
      blockRemaining := if kind == 1 then 1 else header / 8;
      if blockRemaining == 0 {
        FinishBlock();
      } else {
        phase := BlockBody;
      }
      ok := true;
    }

    method FinishBlock()
      requires !frameComplete
      modifies this`phase, this`need, this`frameComplete
      ensures Walked() == EndOfBlock(old(Walked()))
      ensures frameComplete <==> phase == Done
    {
      if !lastBlock {
        phase, need := BlockHeader, 3;
      } else if hasChecksum {
        phase, need := Checksum, 4;
      } else {
        phase, frameComplete := Done, true;
      }
    }

    /** What the decoder is given: bytes of the frame and none behind it. Asked for nothing it still fills
        the queue, and gives nothing. */
    method Read(size: Option<int>) returns (r: ReadResult)
      requires Valid() && Abreast()
      modifies this, source, source.handle
      ensures r.Chunk? ==>
                && Valid() && Abreast()
                && handed == old(handed) + r.bytes && |r.bytes| <= Wanted(size, DECODE_INPUT_BYTES)
                && old(source.handle.position) <= source.handle.position
                && (r.bytes == [] ==> frameComplete || source.Finished() || (size == Some(0) && queue != []))
                && (r.bytes == [] && size != Some(0) ==> queue == [])
      ensures source.Valid() && source.closed == old(source.closed)
      ensures source.handle.broke == (old(source.handle.broke) || r == Broken)
      ensures Sound() ==> r != Raised
    {
      hide Run, Consumed, Split;
      var want := Wanted(size, DECODE_INPUT_BYTES);
      while queue == [] && !frameComplete
        invariant Valid() && Abreast()
        invariant handed == old(handed) && source.closed == old(source.closed)
        invariant old(source.handle.position) <= source.handle.position
        invariant source.handle.broke == old(source.handle.broke)
        decreases |source.handle.data| - source.handle.position
      {
        r := Fetch(want);
        if !r.Chunk? || r.bytes == [] {
          return;
        }
      }
      var n := Min(want, |queue|);
      var taken := queue[..n];
      SplitHandsOut(fed, frameLength, digested, handed, queue, trailing, n);
      queue := queue[n..];
      handed := handed + taken;
      r := Chunk(taken);
    }

    /** One turn of the loop: what the source gives is fed to the walk. */
    method Fetch(want: nat) returns (r: ReadResult)
      requires Valid() && Abreast()
      modifies this, source, source.handle
      ensures source.Valid() && source.closed == old(source.closed)
      ensures r.Chunk? ==>
                && Valid() && Abreast() && handed == old(handed)
                && source.handle.position == old(source.handle.position) + |r.bytes|
                && (r.bytes == [] ==> source.Finished() && queue == old(queue))
      ensures source.handle.broke == (old(source.handle.broke) || r == Broken)
      ensures Sound() ==> r != Raised
    {
      hide Run, Consumed, Split;
      r := source.Read(Some(Max(want, DECODE_INPUT_BYTES)));
      if r.Chunk? && r.bytes != [] {
        PrefixIsSound(fed + r.bytes, source.handle.data);
        var ok := Feed(r.bytes);
        if !ok {
          r := Raised;
        }
      }
    }

    /** Looks behind the frame: an empty answer means that the frame is the whole object, and any other
        that it is not. */
    method HasTrailingBytes() returns (r: ReadResult)
      requires Valid() && Abreast()
      modifies source, source.handle
      ensures source.Valid() && source.closed == old(source.closed)
      ensures r.Chunk? ==> (r.bytes == [] <==> frameLength == |source.handle.data|)
      ensures source.handle.broke == (old(source.handle.broke) || r == Broken)
      ensures source.Readable() ==> r != Raised
      ensures r == Chunk([]) ==>
                source.Finished() && source.InStep() && trailing == [] && fed == source.handle.data
    {
      FedIsSplit(fed, frameLength, digested, handed, queue, trailing);
      if trailing != [] {
        return Chunk(trailing[..1]);
      }
      r := source.Read(Some(1));
    }
  }

  // ---- the walk under the loop --------------------------------------------------------------

  lemma Extends(start: Walk, chunk: seq<byte>, offset: nat, next: nat)
    requires WalkOk(start) && offset <= next <= |chunk|
    ensures Run(start, chunk[..next]) == Run(Run(start, chunk[..offset]), chunk[offset..next])
    ensures Consumed(start, chunk[..next]) ==
            Consumed(start, chunk[..offset]) + Consumed(Run(start, chunk[..offset]), chunk[offset..next])
  {
    assert chunk[..next] == chunk[..offset] + chunk[offset..next];
    RunConcat(start, chunk[..offset], chunk[offset..next]);
  }

  lemma RejectionSticks(start: Walk, chunk: seq<byte>, next: nat)
    requires WalkOk(start) && next <= |chunk|
    ensures Run(start, chunk[..next]).phase == Bad ==> Run(start, chunk).phase == Bad
  {
    assert chunk == chunk[..next] + chunk[next..];
    RunConcat(start, chunk[..next], chunk[next..]);
  }

  lemma PrefixIsSound(fed: seq<byte>, data: seq<byte>)
    requires fed <= data
    ensures Run(START, data).phase != Bad ==> Run(START, fed).phase != Bad
  {
    assert data[..|fed|] == fed;
    RejectionSticks(START, data, |fed|);
  }

  lemma FeedEnds(start: Walk, chunk: seq<byte>, offset: nat)
    requires WalkOk(start) && offset <= |chunk|
    requires Consumed(start, chunk[..offset]) == offset
    requires offset == |chunk| || Over(Run(start, chunk[..offset]))
    ensures Run(start, chunk) == Run(start, chunk[..offset]) && Consumed(start, chunk) == offset
  {
    hide Run, Consumed, Step, Over;
    assert chunk == chunk[..offset] + chunk[offset..];
    RunConcat(start, chunk[..offset], chunk[offset..]);
    EndedRun(Run(start, chunk[..offset]), chunk[offset..]);
  }

  lemma EndedRun(w: Walk, rest: seq<byte>)
    requires WalkOk(w) && (rest == [] || Over(w))
    ensures Run(w, rest) == w && Consumed(w, rest) == 0
  {
  }

  lemma WalkKeepsUp(fed: seq<byte>, chunk: seq<byte>)
    ensures Consumed(Run(START, fed), chunk) > 0 ==> Consumed(START, fed) == |fed|
  {
    NotOverTakesAll(START, fed);
  }

  /** The bytes fed, split at the end of the frame; the front has been handed out or is queued. */
  ghost predicate Split(
      fed: seq<byte>, frameLength: nat, digested: seq<byte>, handed: seq<byte>, queue: seq<byte>,
      trailing: seq<byte>)
  {
    && frameLength == Consumed(START, fed)
    && digested == fed[..frameLength]
    && handed + queue == digested
    && trailing == fed[frameLength..]
  }

  lemma FedIsSplit(
      fed: seq<byte>, frameLength: nat, digested: seq<byte>, handed: seq<byte>, queue: seq<byte>,
      trailing: seq<byte>)
    requires Split(fed, frameLength, digested, handed, queue, trailing)
    ensures frameLength + |trailing| == |fed| && |handed| + |queue| == frameLength
    ensures queue == [] ==> handed == digested
  {
  }

  lemma SplitGrows(
      fed: seq<byte>, frameLength: nat, digested: seq<byte>, handed: seq<byte>, queue: seq<byte>,
      trailing: seq<byte>, chunk: seq<byte>, n: nat)
    requires Split(fed, frameLength, digested, handed, queue, trailing)
    requires n == Consumed(Run(START, fed), chunk)
    ensures Split(fed + chunk, frameLength + n, digested + chunk[..n], handed, queue + chunk[..n],
                  trailing + chunk[n..])
  {
    hide Run, Consumed, Step;
    RunConcat(START, fed, chunk);
    WalkKeepsUp(fed, chunk);
    FedSlices(fed, chunk, frameLength, n);
    assert handed + (queue + chunk[..n]) == (handed + queue) + chunk[..n];
  }

  lemma SplitHandsOut(
      fed: seq<byte>, frameLength: nat, digested: seq<byte>, handed: seq<byte>, queue: seq<byte>,
      trailing: seq<byte>, n: nat)
    requires Split(fed, frameLength, digested, handed, queue, trailing) && n <= |queue|
    ensures Split(fed, frameLength, digested, handed + queue[..n], queue[n..], trailing)
  {
    assert queue == queue[..n] + queue[n..];
    assert (handed + queue[..n]) + queue[n..] == handed + queue;
  }

  lemma EmptyRun(start: Walk, chunk: seq<byte>)
    requires WalkOk(start)
    ensures Run(start, chunk[..0]) == start && Consumed(start, chunk[..0]) == 0
  {
  }

  lemma FedSlices(before: seq<byte>, chunk: seq<byte>, n: nat, m: nat)
    requires n <= |before| && m <= |chunk| && (m > 0 ==> n == |before|)
    ensures (before + chunk)[..n + m] == before[..n] + chunk[..m]
    ensures (before + chunk)[n + m..] == before[n..] + chunk[m..]
  {
  }
}
