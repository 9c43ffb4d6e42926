/** Decoding one frame from any readable source into a sink, within a limit. */
module Decoding {
  import opened Options
  import opened FrameLayout
  import opened FrameWalk
  import opened ByteStreams
  import opened FrameReader

  const MAX_FRAME_HEADER_BYTES := 18

  /** The frame decoder as a function of the whole frame; `None` when it cannot be decoded. */
  type Codec = seq<byte> -> Option<seq<byte>>

  // ---- the header check ---------------------------------------------------------------------

  /** Enough of a header to trust: magic, no reserved bit, a checksum, and no dictionary. */
  predicate HeaderAccepted(header: seq<byte>) {
    && 5 <= |header| && header[..4] == MAGIC
    && !ReservedBit(header[4]) && ChecksumFlag(header[4])
    && (DictionaryBytes(header[4]) > 0 ==>
          var start := DictionaryStart(header[4]);
          && start + DictionaryBytes(header[4]) <= |header|
          && forall i :: start <= i < start + DictionaryBytes(header[4]) ==> header[i] == 0)
  }

  function DictionaryStart(descriptor: byte): nat {
    if SingleSegment(descriptor) then 5 else 6
  }

  /** The first bytes of any frame hold all of its header, and for some frame it takes all of them. */
  lemma HeadersFit(d: byte)
    ensures |MAGIC| + 1 + FieldBytes(d) <= MAX_FRAME_HEADER_BYTES
    ensures |MAGIC| + 1 + FieldBytes(0xC3) == MAX_FRAME_HEADER_BYTES
  {
  }

  /** Of the frames, the check passes exactly those that carry a checksum and name no dictionary. */
  lemma AcceptedFramesAreSelfContained(f: Frame)
    requires FrameOk(f)
    ensures HeaderAccepted(Written(f)[..Min(|Written(f)|, MAX_FRAME_HEADER_BYTES)]) <==>
            && |f.checksum| == 4
            && var at := if SingleSegment(f.descriptor) then 0 else 1;
               forall i :: at <= i < at + DictionaryBytes(f.descriptor) ==> f.fields[i] == 0
  {
    FrameParts(f);
    HeadersFit(f.descriptor);
    var w, k := Written(f), FieldBytes(f.descriptor);
    var header := w[..Min(|w|, MAX_FRAME_HEADER_BYTES)];
    assert |w| >= 5 + k && header[4] == f.descriptor && header[..4] == MAGIC;
    forall i | 0 <= i < k ensures header[5 + i] == f.fields[i] {
      assert f.fields[i] == w[5..5 + k][i];
    }
  }

  /** Collects short reads until `count` bytes are there or the stream ends. */
  method ReadAtMost(source: Reader, count: nat) returns (r: ReadResult)
    requires source.Valid() && source.InStep()
    modifies source, source.handle
    ensures source.Valid() && source.closed == old(source.closed)
    ensures r.Chunk? ==>
              && source.InStep() && |r.bytes| <= count
              && source.handle.position == old(source.handle.position) + |r.bytes|
              && r.bytes == source.handle.data[old(source.handle.position)..source.handle.position]
              && (|r.bytes| < count ==> source.Finished())
    ensures source.handle.broke == (old(source.handle.broke) || r == Broken)
    ensures source.Readable() ==> r != Raised
  {
    var collected: seq<byte> := [];
    while |collected| < count
      invariant source.Valid() && source.InStep() && source.closed == old(source.closed) && |collected| <= count
      invariant source.handle.position == old(source.handle.position) + |collected|
      invariant collected == source.handle.data[old(source.handle.position)..source.handle.position]
      invariant source.handle.broke == old(source.handle.broke)
      decreases |source.handle.data| - source.handle.position
    {
      var got := source.Read(Some(count - |collected|));
      if !got.Chunk? {
        return got;
      }
      if got.bytes == [] {
        break;
      }
      collected := collected + got.bytes;
    }
    r := Chunk(collected);
  }

  // ---- the decoder --------------------------------------------------------------------------

  /** The library that decodes frames. `failed` records whether a decoder of its failed: raised on its own
      account, or was not going to put out what the whole object decodes to. */
  class Library {
    const decode: Codec
    ghost var failed: bool

    constructor (decode: Codec)
      ensures this.decode == decode && !failed
    {
      this.decode, failed := decode, false;
    }
  }

  /** A streaming decoder over a bounded reader. It pulls compressed bytes as it likes, may fail at any
      time, and fills at most the buffer it is given. `emission` is everything it will ever put out. An
      empty answer comes once the reader had no more to give; if the frame was whole by then, the decoder
      has put out what the bytes it was handed decode to. */
  class Decoder {
    const bounded: FrameBoundedReader
    const library: Library
    const emission: seq<byte>
    var emitted: nat
    var taken: seq<byte>

    ghost predicate Valid()
      reads this, bounded, bounded.source, bounded.source.handle
    {
      bounded.Valid() && bounded.Abreast() && emitted <= |emission| && taken == bounded.handed
    }

    constructor (bounded: FrameBoundedReader, library: Library)
      requires bounded.Valid() && bounded.Abreast() && bounded.handed == []
      modifies library
      ensures Valid() && this.bounded == bounded && this.library == library && emitted == 0
      ensures old(library.failed) ==> library.failed
      ensures !library.failed ==> library.decode(bounded.source.handle.data) == Some(emission)
    {
      this.bounded, this.library := bounded, library;
      var any: seq<byte> := *;
      emission := any;
      emitted, taken := 0, [];
      new;
      library.failed := library.failed || library.decode(bounded.source.handle.data) != Some(emission);
    }

    method Read(size: nat) returns (r: ReadResult)
      requires Valid() && 0 < size
      modifies this, bounded, bounded.source, bounded.source.handle, library
      ensures bounded.source.Valid() && bounded.source.closed == old(bounded.source.closed)
      ensures old(emitted) <= emitted
      ensures bounded.source.handle.broke == (old(bounded.source.handle.broke) || r == Broken)
      ensures old(library.failed) ==> library.failed
      ensures r == Raised && bounded.Sound() ==> library.failed
      ensures r.Chunk? ==>
                && Valid() && |r.bytes| <= size
                && emitted == old(emitted) + |r.bytes| && r.bytes == emission[old(emitted)..emitted]
                && (r.bytes == [] ==> bounded.queue == [] && (bounded.frameComplete || bounded.source.Finished()))
                && (r.bytes == [] && bounded.frameComplete ==> library.decode(taken) == Some(emission[..emitted]))
    {
      hide Run, Consumed, Split;
      var pulls: nat := *;
      r := Pull(pulls);
      if !r.Chunk? {
        return;
      }
      var fails: bool := *;
      if fails {
        library.failed := true;
        return Raised;
      }
      var n: nat :| n <= size && emitted + n <= |emission|;
      if n == 0 {
        r := End();
      } else {
        r := Chunk(emission[emitted..emitted + n]);
        emitted := emitted + n;
      }
    }

    /** An empty answer, once there is nothing more to pull: to the whole frame it means that the frame
        decodes to what was put out, and otherwise the decoder raises. */
    method End() returns (r: ReadResult)
      requires Valid()
      modifies this`taken, bounded, bounded.source, bounded.source.handle, library
      ensures bounded.source.Valid() && bounded.source.closed == old(bounded.source.closed)
      ensures bounded.source.handle.broke == (old(bounded.source.handle.broke) || r == Broken)
      ensures old(library.failed) ==> library.failed
      ensures r == Raised && bounded.Sound() ==> library.failed
      ensures r.Chunk? ==>
                && Valid() && r.bytes == []
                && bounded.queue == [] && (bounded.frameComplete || bounded.source.Finished())
                && (bounded.frameComplete ==> library.decode(taken) == Some(emission[..emitted]))
    {
      hide Run, Consumed, Split;
      r := Drain();
      if r.Chunk? {
        if bounded.frameComplete && library.decode(taken) != Some(emission[..emitted]) {
          library.failed := true;
          return Raised;
        }
        r := Chunk([]);
      }
    }

    /** Compressed bytes from the reader. */
    method Take(size: Option<int>) returns (r: ReadResult)
      requires Valid()
      modifies this`taken, bounded, bounded.source, bounded.source.handle
      ensures bounded.source.Valid() && bounded.source.closed == old(bounded.source.closed)
      ensures r.Chunk? ==>
                && Valid() && |taken| == |old(taken)| + |r.bytes|
                && (r.bytes == [] && size != Some(0) ==>
                      bounded.queue == [] && (bounded.frameComplete || bounded.source.Finished()))
      ensures bounded.source.handle.broke == (old(bounded.source.handle.broke) || r == Broken)
      ensures bounded.Sound() ==> r != Raised
    {
      hide Run, Consumed, Split;
      r := bounded.Read(size);
      if r.Chunk? {
        taken := taken + r.bytes;
      }
    }

    /** Any number of reads of any size. */
    method Pull(pulls: nat) returns (r: ReadResult)
      requires Valid()
      modifies this`taken, bounded, bounded.source, bounded.source.handle
      ensures bounded.source.Valid() && bounded.source.closed == old(bounded.source.closed)
      ensures r.Chunk? ==> Valid()
      ensures bounded.source.handle.broke == (old(bounded.source.handle.broke) || r == Broken)
      ensures bounded.Sound() ==> r != Raised
    {
      r := Chunk([]);
      for k := 0 to pulls
        invariant Valid() && r.Chunk? && bounded.source.closed == old(bounded.source.closed)
        invariant bounded.source.handle.broke == old(bounded.source.handle.broke)
      {
        var some: Option<int> := *;
        r := Take(some);
        if !r.Chunk? {
          return;
        }
      }
    }

    /** Reads on until the reader has no more to give. */
    method Drain() returns (r: ReadResult)
      requires Valid()
      modifies this`taken, bounded, bounded.source, bounded.source.handle
      ensures bounded.source.Valid() && bounded.source.closed == old(bounded.source.closed)
      ensures r.Chunk? ==> Valid() && bounded.queue == [] && (bounded.frameComplete || bounded.source.Finished())
      ensures bounded.source.handle.broke == (old(bounded.source.handle.broke) || r == Broken)
      ensures bounded.Sound() ==> r != Raised
    {
      while true
        invariant Valid() && bounded.source.closed == old(bounded.source.closed)
        invariant bounded.source.handle.broke == old(bounded.source.handle.broke)
        decreases |bounded.source.handle.data| - |taken|
      {
        HandedIsRead(bounded);
        r := Take(Some(DECODE_INPUT_BYTES));
        if !r.Chunk? || r.bytes == [] {
          return;
        }
        HandedIsRead(bounded);
      }
    }
  }

  lemma HandedIsRead(bounded: FrameBoundedReader)
    requires bounded.Valid() && bounded.Abreast()
    ensures |bounded.handed| <= |bounded.source.handle.data|
    ensures bounded.queue == [] ==> bounded.handed == bounded.digested
  {
    FedIsSplit(bounded.fed, bounded.frameLength, bounded.digested, bounded.handed, bounded.queue, bounded.trailing);
  }

  // ---- decode_stream ------------------------------------------------------------------------

  datatype Outcome = Decoded(logical: LogicalIdentity, stored: StoredIdentity) | Failed

  ghost predicate IsFrame(data: seq<byte>) {
    exists f :: FrameOk(f) && Written(f) == data
  }

  /** What a successful decode has established. */
  ghost predicate Established(
      data: seq<byte>, output: seq<byte>, decode: Codec, logical: LogicalIdentity, stored: StoredIdentity)
  {
    && IsFrame(data)
    && HeaderAccepted(data[..Min(|data|, MAX_FRAME_HEADER_BYTES)])
    && decode(data) == Some(output)
    && stored == StoredOf(data) && logical == LogicalOf(output)
    && (output == [] || output[|output| - 1] == 0x0A)
  }

  /** What a decode can ask of an object: a frame with a trustworthy header that decodes, within the limit,
      to the expected bytes, and that is the stored object it should be. */
  ghost predicate Decodable(
      data: seq<byte>, decode: Codec, expected: LogicalIdentity, stored: Option<StoredIdentity>, limit: int)
  {
    && (stored.None? || stored.value == StoredOf(data))
    && exists output: seq<byte> :: |output| <= limit && Established(data, output, decode, expected, StoredOf(data))
  }

  /** The walk over a frame is done exactly where the frame ends. */
  lemma FramesEndTheWalk(data: seq<byte>, fed: seq<byte>)
    requires IsFrame(data) && fed <= data
    ensures Run(START, data).phase == Done && Run(START, fed).phase != Bad
    ensures Run(START, fed).phase == Done <==> fed == data
    ensures Consumed(START, data) == |data|
  {
    hide Run, Consumed, Written, FrameOk;
    var f :| FrameOk(f) && Written(f) == data;
    CompletesExactlyOnFrames(data);
    assert Written(f) <= data;
    PrefixIsSound(fed, data);
    if Run(START, fed).phase == Done {
      var g := DoneIsAFrame(fed);
      assert Written(g) <= fed <= data;
    }
  }

  /** Over an object that is one frame, a reader that has seen it all stands at the end of the frame, and has
      nothing left over. */
  lemma OneFrameOnly(bounded: FrameBoundedReader)
    requires bounded.Valid() && bounded.Abreast() && (bounded.frameComplete || bounded.source.Finished())
    requires IsFrame(bounded.source.handle.data)
    ensures bounded.frameComplete && bounded.trailing == [] && bounded.frameLength == |bounded.source.handle.data|
    ensures bounded.fed == bounded.source.handle.data
    ensures bounded.queue == [] ==> bounded.handed == bounded.source.handle.data
  {
    FramesEndTheWalk(bounded.source.handle.data, bounded.fed);
  }

  /** Both identities are right, and the output ends in a newline. */
  predicate Matches(data: seq<byte>, decode: Codec, expected: LogicalIdentity, stored: Option<StoredIdentity>) {
    && (stored.None? || stored.value == StoredOf(data))
    && decode(data).Some? && expected == LogicalOf(decode(data).value) && EndsInNewline(decode(data).value)
  }

  lemma DecodableMeans(
      data: seq<byte>, decode: Codec, expected: LogicalIdentity, stored: Option<StoredIdentity>, limit: int)
    requires Decodable(data, decode, expected, stored, limit)
    ensures Matches(data, decode, expected, stored) && 0 <= |decode(data).value| <= limit
    ensures IsFrame(data) && Run(START, data).phase != Bad
    ensures HeaderAccepted(data[..Min(|data|, MAX_FRAME_HEADER_BYTES)])
  {
    FramesEndTheWalk(data, data);
  }

  /** Whatever kind of source and however its reads come out: the sink never takes a byte more than the
      limit, and success means that the source is exactly one frame, decoded whole and as expected. */
  method DecodeStream(
      source: Reader, sink: Sink, expected: LogicalIdentity, stored: Option<StoredIdentity>,
      most: Option<int>, bufferBytes: int, library: Library)
    returns (r: Outcome)
    requires source.Valid() && source.InStep() && source.handle.position == 0
    modifies source, source.handle, sink, library
    ensures source.Valid() && source.closed == old(source.closed)
    ensures old(sink.held) <= sink.held
    ensures |sink.held| - |old(sink.held)| <=
              Max(0, if most.Some? then most.value else expected.byteLength)
    ensures r.Decoded? ==>
              && source.Finished() && source.InStep()
              && r.logical == expected && (stored.Some? ==> r.stored == stored.value)
              && sink.held == old(sink.held) + sink.held[|old(sink.held)|..]
              && Established(source.handle.data, sink.held[|old(sink.held)|..], library.decode, expected,
                             r.stored)
    ensures r.Decoded? && source.kind.Verifying? ==> source.verified && source.Genuine()
    ensures r.Decoded? && source.kind.Bounded? && source.kind.most.Some? ==>
              |source.handle.data| <= Max(0, source.kind.most.value)
    ensures !source.handle.broke && !sink.refused && !library.failed && source.Readable() && 0 < bufferBytes
            && Decodable(source.handle.data, library.decode, expected, stored,
                         if most.Some? then most.value else expected.byteLength) ==>
              r.Decoded?
  {
    hide Run, Consumed, HeaderAccepted, LineCount, Split, Established, IsFrame, Matches, Decodable;
    var limit := if most.Some? then most.value else expected.byteLength;
    if Decodable(source.handle.data, library.decode, expected, stored, limit) {
      DecodableMeans(source.handle.data, library.decode, expected, stored, limit);
    }
    if bufferBytes <= 0 || limit < 0 {
      return Failed;
    }
    var ok, bounded := OpenFrame(source);
    if !ok {
      return Failed;
    }
    var decoder := new Decoder(bounded, library);
    var count: Counter;
    ok, count := Pump(decoder, sink, limit, bufferBytes);
    if !ok {
      return Failed;
    }
    assert count.hashed == sink.held[|old(sink.held)|..];
    r := Finish(bounded, count, expected, stored, library.decode);
  }

  /** The decoder has ended: the frame must be complete, with nothing behind it, and both identities right. */
  method Finish(
      bounded: FrameBoundedReader, count: Counter, expected: LogicalIdentity, stored: Option<StoredIdentity>,
      ghost decode: Codec)
    returns (r: Outcome)
    requires bounded.Valid() && bounded.Abreast() && bounded.queue == [] && Counted(count)
    requires bounded.frameComplete || bounded.source.Finished()
    requires bounded.frameComplete ==> decode(bounded.handed) == Some(count.hashed)
    requires HeaderAccepted(
               bounded.source.handle.data[..Min(|bounded.source.handle.data|, MAX_FRAME_HEADER_BYTES)])
    modifies bounded.source, bounded.source.handle
    ensures bounded.source.Valid() && bounded.source.closed == old(bounded.source.closed)
    ensures r.Decoded? ==>
              && bounded.source.Finished() && bounded.source.InStep()
              && r.logical == expected && (stored.Some? ==> r.stored == stored.value)
              && Established(bounded.source.handle.data, count.hashed, decode, expected, r.stored)
    ensures !bounded.source.handle.broke && bounded.source.Readable() && IsFrame(bounded.source.handle.data)
            && Matches(bounded.source.handle.data, decode, expected, stored) ==>
              r.Decoded?
    ensures old(bounded.source.handle.broke) ==> bounded.source.handle.broke
  {
    hide Run, Consumed, HeaderAccepted, LineCount, Split, Established, Counted, EndsInNewline, Written, FrameOk,
         IsFrame;
    if IsFrame(bounded.source.handle.data) {
      OneFrameOnly(bounded);
    }
    if !bounded.frameComplete {
      return Failed;
    }
    HandedIsRead(bounded);
    var trailing := bounded.HasTrailingBytes();
    if trailing != Chunk([]) {
      return Failed;
    }
    r := Conclude(bounded, count, expected, stored, decode);
  }

  /** Compares both identities once everything has been decoded. */
  method Conclude(
      bounded: FrameBoundedReader, count: Counter, expected: LogicalIdentity, stored: Option<StoredIdentity>,
      ghost decode: Codec)
    returns (r: Outcome)
    requires bounded.Valid() && bounded.frameComplete && bounded.trailing == [] && Counted(count)
    requires decode(bounded.digested) == Some(count.hashed)
    requires HeaderAccepted(bounded.fed[..Min(|bounded.fed|, MAX_FRAME_HEADER_BYTES)])
    ensures r.Decoded? ==>
              && r.logical == expected && (stored.Some? ==> r.stored == stored.value)
              && Established(bounded.fed, count.hashed, decode, expected, r.stored)
    ensures r.Decoded? <==>
              && (stored.None? || stored.value == StoredOf(bounded.fed))
              && expected == LogicalOf(count.hashed) && EndsInNewline(count.hashed)
  {
    WholeFrame(bounded);
    hide Run, Consumed, HeaderAccepted, LineCount, Split;
    var frame := StoredIdentity(Sha256(bounded.digested), bounded.frameLength);
    if stored.Some? && frame != stored.value {
      return Failed;
    }
    var decoded := LogicalIdentity(Sha256(count.hashed), count.byteLength, count.lineCount);
    if decoded != expected || !EndsInNewline(count.hashed) {
      return Failed;
    }
    r := Decoded(decoded, frame);
  }

  /** What has been written so far, measured. */
  datatype Counter = Counter(hashed: seq<byte>, byteLength: int, lineCount: int)

  /** Judges the header and starts the walk over the frame with it. */
  method OpenFrame(source: Reader) returns (ok: bool, bounded: FrameBoundedReader)
    requires source.Valid() && source.InStep() && source.handle.position == 0
    modifies source, source.handle
    ensures source.Valid() && source.closed == old(source.closed)
    ensures fresh(bounded) && bounded.source == source
    ensures ok ==>
              && bounded.Valid() && bounded.Abreast() && bounded.handed == []
              && HeaderAccepted(source.handle.data[..Min(|source.handle.data|, MAX_FRAME_HEADER_BYTES)])
    ensures old(source.handle.broke) ==> source.handle.broke
    ensures !ok ==>
              || source.handle.broke || !bounded.Sound()
              || !HeaderAccepted(source.handle.data[..Min(|source.handle.data|, MAX_FRAME_HEADER_BYTES)])
  {
    bounded := new FrameBoundedReader(source);
    var header := ReadAtMost(source, MAX_FRAME_HEADER_BYTES);
    if !header.Chunk? || !HeaderAccepted(header.bytes) {
      return false, bounded;
    }
    assert header.bytes == source.handle.data[..Min(|source.handle.data|, MAX_FRAME_HEADER_BYTES)];
    assert [] + header.bytes == header.bytes;
    PrefixIsSound(header.bytes, source.handle.data);
    ok := bounded.Feed(header.bytes);
  }

  /** Moves decoded bytes to the sink, in full, until the decoder ends or the limit would be passed. */
  method Pump(decoder: Decoder, sink: Sink, limit: nat, bufferBytes: nat) returns (ok: bool, count: Counter)
    requires decoder.Valid() && decoder.emitted == 0 && 0 < bufferBytes
    modifies decoder, decoder.bounded, decoder.bounded.source, decoder.bounded.source.handle, decoder.library, sink
    ensures decoder.bounded.source.Valid() && decoder.bounded.source.closed == old(decoder.bounded.source.closed)
    ensures old(sink.held) <= sink.held && |sink.held| <= |old(sink.held)| + limit
    ensures old(decoder.bounded.source.handle.broke) ==> decoder.bounded.source.handle.broke
    ensures old(sink.refused) ==> sink.refused
    ensures old(decoder.library.failed) ==> decoder.library.failed
    ensures !ok ==>
              || decoder.bounded.source.handle.broke || sink.refused || decoder.library.failed
              || !decoder.bounded.Sound() || |decoder.emission| > limit
    ensures ok ==>
              && decoder.Valid() && sink.held == old(sink.held) + count.hashed
              && count.byteLength == |count.hashed| && count.lineCount == LineCount(count.hashed)
              && decoder.bounded.queue == []
              && (decoder.bounded.frameComplete || decoder.bounded.source.Finished())
              && (decoder.bounded.frameComplete ==> decoder.library.decode(decoder.taken) == Some(count.hashed))
  {
    count := Counter([], 0, 0);
    assert Counted(count) by { assert LineCount([]) == 0; }
    var more := true;
    hide Counted;
    while more
      invariant decoder.bounded.source.Valid()
      invariant decoder.bounded.source.closed == old(decoder.bounded.source.closed)
      invariant decoder.Valid() && count.hashed == decoder.emission[..decoder.emitted]
      invariant sink.held == old(sink.held) + count.hashed && Counted(count) && |count.hashed| <= limit
      invariant old(decoder.bounded.source.handle.broke) ==> decoder.bounded.source.handle.broke
      invariant old(sink.refused) ==> sink.refused
      invariant old(decoder.library.failed) ==> decoder.library.failed
      invariant !more ==>
                  && decoder.bounded.queue == []
                  && (decoder.bounded.frameComplete || decoder.bounded.source.Finished())
                  && (decoder.bounded.frameComplete ==>
                        decoder.library.decode(decoder.taken) == Some(count.hashed))
      decreases more, |decoder.emission| - decoder.emitted
    {
      ok, more, count := PumpOne(decoder, sink, count, limit, bufferBytes);
      if !ok {
        return;
      }
    }
    ok := true;
    CountedMeans(count);
  }

  /** The counts agree with the bytes. */
  predicate Counted(count: Counter) {
    count.byteLength == |count.hashed| && count.lineCount == LineCount(count.hashed)
  }

  lemma CountedMeans(count: Counter)
    requires Counted(count)
    ensures count.byteLength == |count.hashed| && count.lineCount == LineCount(count.hashed)
  {
  }

  /** One turn of the loop: a buffer of output, passed on. */
  method PumpOne(decoder: Decoder, sink: Sink, before: Counter, limit: nat, bufferBytes: nat)
    returns (ok: bool, more: bool, count: Counter)
    requires decoder.Valid() && before.hashed == decoder.emission[..decoder.emitted] && 0 < bufferBytes
    requires Counted(before) && |before.hashed| <= limit
    modifies decoder, decoder.bounded, decoder.bounded.source, decoder.bounded.source.handle, decoder.library, sink
    ensures decoder.bounded.source.Valid() && decoder.bounded.source.closed == old(decoder.bounded.source.closed)
    ensures old(sink.held) <= sink.held && |sink.held| <= |old(sink.held)| + limit - |before.hashed|
    ensures old(decoder.bounded.source.handle.broke) ==> decoder.bounded.source.handle.broke
    ensures old(sink.refused) ==> sink.refused
    ensures old(decoder.library.failed) ==> decoder.library.failed
    ensures !ok ==>
              || decoder.bounded.source.handle.broke || sink.refused || decoder.library.failed
              || !decoder.bounded.Sound() || |decoder.emission| > limit
    ensures ok ==>
              && decoder.Valid() && count.hashed == decoder.emission[..decoder.emitted]
              && before.hashed <= count.hashed && sink.held == old(sink.held) + count.hashed[|before.hashed|..]
              && Counted(count) && |count.hashed| <= limit
              && (more ==> old(decoder.emitted) < decoder.emitted)
    ensures ok && !more ==>
              && count == before && decoder.bounded.queue == []
              && (decoder.bounded.frameComplete || decoder.bounded.source.Finished())
              && (decoder.bounded.frameComplete ==> decoder.library.decode(decoder.taken) == Some(count.hashed))
  {
    count, more := before, false;
    hide Counted;
    var produced := decoder.Read(bufferBytes);
    if !produced.Chunk? {
      return false, more, count;
    }
    if produced.bytes == [] {
      return true, more, count;
    }
    more := true;
    ok, count := PassOn(sink, before, produced.bytes, limit);
    if ok {
      assert decoder.emission[..decoder.emitted] == count.hashed;
      assert count.hashed[|before.hashed|..] == produced.bytes;
    }
  }

  /** One decoded chunk: refused if it passes the limit, otherwise written in full and counted. */
  method PassOn(sink: Sink, before: Counter, bytes: seq<byte>, limit: nat) returns (ok: bool, count: Counter)
    requires Counted(before) && |before.hashed| <= limit
    modifies sink
    ensures old(sink.held) <= sink.held && |sink.held| <= |old(sink.held)| + limit - |before.hashed|
    ensures ok ==>
              && sink.held == old(sink.held) + bytes && count.hashed == before.hashed + bytes
              && Counted(count) && |count.hashed| <= limit
    ensures old(sink.refused) ==> sink.refused
    ensures !ok ==> |before.hashed| + |bytes| > limit || sink.refused
  {
    count := before;
    if before.byteLength + |bytes| > limit {
      return false, count;
    }
    ok := WriteAll(sink, bytes);
    LineCountConcat(before.hashed, bytes);
    count := Counter(before.hashed + bytes, before.byteLength + |bytes|, before.lineCount + LineCount(bytes));
  }

  /** A complete frame with nothing behind it is everything the source held. */
  lemma WholeFrame(bounded: FrameBoundedReader)
    requires bounded.Valid() && bounded.frameComplete && bounded.trailing == []
    ensures bounded.digested == bounded.fed && bounded.frameLength == |bounded.fed|
    ensures IsFrame(bounded.fed)
  {
    var f := DoneIsAFrame(bounded.fed);
    assert bounded.fed == bounded.fed[..bounded.frameLength] + bounded.fed[bounded.frameLength..];
    assert Written(f) == bounded.fed;
  }
}
