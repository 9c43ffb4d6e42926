/** Staging and verifying an archived object before any of its logical bytes is handed on. */
module Retrieval {
  import opened Options
  import opened FrameLayout
  import opened ByteStreams
  import opened Decoding
  import opened FrameReader
  import opened SplitFeeding

  /** Whether `output` is what the object's receipt promises, given the object's stored bytes. */
  ghost predicate Promised(
      data: seq<byte>, output: seq<byte>, encoding: Option<string>, logical: Option<LogicalIdentity>, decode: Codec)
  {
    && encoding in {None, Some("zstd")}
    && (encoding == None ==> output == data)
    && (encoding == Some("zstd") ==>
          && logical.Some? && IsFrame(data) && decode(data) == Some(output))
    && (logical.Some? ==> logical.value == LogicalOf(output))
  }

  /** Objects that can be handed on: of the promised lines, and compressed ones in a frame that is all of the
      object and decodes to what is promised. */
  ghost predicate Deliverable(
      data: seq<byte>, encoding: Option<string>, logical: Option<LogicalIdentity>, decode: Codec)
  {
    || (encoding == None && (logical.Some? ==> logical.value == LogicalOf(data)))
    || (encoding == Some("zstd") && logical.Some?
        && exists output :: Established(data, output, decode, logical.value, StoredOf(data)))
  }

  /** The chunks a caller sees. A failure at any point, even in the last read, yields none at all; and a
      genuine object that can be handed on is, unless a read, a write to the staging file or the decoder
      fails. */
  method IterBytes(
      source: Reader, staged: Sink, encoding: Option<string>, logical: Option<LogicalIdentity>, chunkSize: nat,
      library: Library)
    returns (ok: bool, chunks: seq<seq<byte>>)
    requires source.Valid() && source.kind.Verifying? && source.handle.position == 0 && !source.closed
    requires 0 < chunkSize && staged.held == []
    modifies source, source.handle, staged, library
    ensures !ok ==> chunks == []
    ensures ok ==>
              && source.closed && source.verified && source.kind.expected == StoredOf(source.handle.data)
              && Promised(source.handle.data, Joined(chunks), encoding, logical, library.decode)
              && forall i :: 0 <= i < |chunks| ==> 0 < |chunks[i]| <= chunkSize
    ensures !source.handle.broke && !staged.refused && !library.failed && source.Genuine()
            && Deliverable(source.handle.data, encoding, logical, library.decode) ==>
              ok
  {
    chunks := [];
    if encoding == Some("zstd") {
      if logical.None? {
        return false, [];
      }
      var outcome := DecodeStream(
        source, staged, logical.value, Some(source.kind.expected), Some(logical.value.byteLength), DECODE_INPUT_BYTES,
        library);
      ok := outcome.Decoded?;
      assert ok ==> staged.held[0..] == staged.held;
    } else if encoding == None {
      ok := CopyPlain(source, staged, logical, chunkSize);
    } else {
      return false, [];
    }
    if !ok {
      return false, [];
    }
    ok := source.Close();
    if !ok {
      return false, [];
    }
    chunks := ReadStaged(staged.held, chunkSize);
  }

  method CopyPlain(source: Reader, sink: Sink, logical: Option<LogicalIdentity>, chunkSize: nat)
    returns (ok: bool)
    requires source.Valid() && source.kind.Verifying? && source.handle.position == 0
    requires 0 < chunkSize && sink.held == []
    modifies source, source.handle, sink
    ensures source.Valid() && source.closed == old(source.closed)
    ensures ok ==>
              && source.verified && sink.held == source.handle.data
              && (logical.Some? ==> logical.value == LogicalOf(source.handle.data))
    ensures !source.handle.broke && !sink.refused && source.Readable()
            && (logical.Some? ==> logical.value == LogicalOf(source.handle.data)) ==>
              ok
  {
    var lineCount := 0;
    while true
      invariant source.Valid() && source.closed == old(source.closed)
      invariant sink.held == source.handle.data[..source.handle.position]
      invariant lineCount == LineCount(sink.held)
      decreases |source.handle.data| - source.handle.position
    {
      var got := source.Read(Some(chunkSize));
      if !got.Chunk? {
        return false;
      }
      if got.bytes == [] {
        break;
      }
      LineCountConcat(sink.held, got.bytes);
      ok := WriteAll(sink, got.bytes);
      if !ok {
        return false;
      }
      lineCount := lineCount + LineCount(got.bytes);
    }
    assert sink.held == source.handle.data;
    if logical.Some? {
      var expected := source.kind.expected;
      if logical.value.sha256 != expected.sha256 || logical.value.byteLength != expected.byteLength
         || logical.value.lineCount != lineCount {
        return false;
      }
    }
    ok := true;
  }

  method ReadStaged(held: seq<byte>, chunkSize: nat) returns (chunks: seq<seq<byte>>)
    requires 0 < chunkSize
    ensures Joined(chunks) == held
    ensures forall i :: 0 <= i < |chunks| ==> 0 < |chunks[i]| <= chunkSize
  {
    chunks := [];
    var position := 0;
    while position < |held|
      invariant 0 <= position <= |held|
      invariant Joined(chunks) == held[..position]
      invariant forall i :: 0 <= i < |chunks| ==> 0 < |chunks[i]| <= chunkSize
    {
      var next := Min(position + chunkSize, |held|);
      JoinedAppend(chunks, held[position..next]);
      assert held[..next] == held[..position] + held[position..next];
      chunks := chunks + [held[position..next]];
      position := next;
    }
    assert held[..|held|] == held;
  }

  lemma {:induction false} JoinedAppend(chunks: seq<seq<byte>>, c: seq<byte>)
    ensures Joined(chunks + [c]) == Joined(chunks) + c
  {
    if chunks == [] {
      assert [c][1..] == [];
    } else {
      assert (chunks + [c])[1..] == chunks[1..] + [c];
      JoinedAppend(chunks[1..], c);
    }
  }
}
