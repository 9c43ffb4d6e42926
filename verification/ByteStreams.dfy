/** Byte sources and sinks as their callers see them: reads and writes may be short. */
module ByteStreams {
  import opened Options
  import opened FrameLayout

  /** SHA-256 as an injective function: the digest of different bytes is different. */
  datatype Digest = Sha256(of: seq<byte>)

  datatype StoredIdentity = StoredIdentity(sha256: Digest, byteLength: int)

  datatype LogicalIdentity = LogicalIdentity(sha256: Digest, byteLength: int, lineCount: int)

  const LF: byte := 0x0A

  function LineCount(s: seq<byte>): nat {
    if s == [] then 0 else (if s[0] == LF then 1 else 0) + LineCount(s[1..])
  }

  lemma {:induction false} LineCountConcat(s: seq<byte>, t: seq<byte>)
    ensures LineCount(s + t) == LineCount(s) + LineCount(t)
  {
    if s == [] {
      assert s + t == t;
    } else {
      assert (s + t)[1..] == s[1..] + t;
      LineCountConcat(s[1..], t);
    }
  }

  lemma {:induction false} LinesAreNewlines(s: seq<byte>)
    ensures LineCount(s) == multiset(s)[0x0A]
  {
    if s != [] {
      LinesAreNewlines(s[1..]);
      assert s == [s[0]] + s[1..];
    }
  }

  function StoredOf(s: seq<byte>): StoredIdentity {
    StoredIdentity(Sha256(s), |s|)
  }

  function LogicalOf(s: seq<byte>): LogicalIdentity {
    LogicalIdentity(Sha256(s), |s|, LineCount(s))
  }

  predicate EndsInNewline(s: seq<byte>) {
    s == [] || s[|s| - 1] == LF
  }

  /** `Raised` stands for the exceptions of verification, `Broken` for a failure below: a disk, a network. */
  datatype ReadResult = Chunk(bytes: seq<byte>) | Raised | Broken

  const DEFAULT_BUFFER_BYTES := 1_048_576

  /** The bytes a read may return: no size, or a negative one, stands for the usual amount. */
  function Wanted(size: Option<int>, usual: nat): nat {
    if size.None? || size.value < 0 then usual else size.value
  }

  /** A file or a provider stream. Any read of something can break. One that does not returns at least one
      byte until the end is reached, and all that is left if no size is given. */
  class Source {
    const data: seq<byte>
    var position: nat
    /** Whether a read has failed so far. */
    ghost var broke: bool

    ghost predicate Valid()
      reads this
    {
      position <= |data|
    }

    constructor (data: seq<byte>)
      ensures Valid() && this.data == data && position == 0 && !broke
    {
      this.data := data;
      position, broke := 0, false;
    }

    method Read(size: Option<int>) returns (r: ReadResult)
      requires Valid()
      modifies this
      ensures Valid() && !r.Raised? && (r.Broken? ==> size != Some(0) && position == old(position))
      ensures broke == (old(broke) || r.Broken?)
      ensures r.Chunk? ==>
                && position == old(position) + |r.bytes| && r.bytes == data[old(position)..position]
                && |r.bytes| <= Wanted(size, |data|)
                && (r.bytes == [] <==> size == Some(0) || old(position) == |data|)
                && (size.None? || size.value < 0 ==> position == |data|)
    {
      if size == Some(0) {
        return Chunk([]);
      }
      var breaks: bool := *;
      if breaks {
        broke := true;
        return Broken;
      }
      var n := |data| - position;
      if n > 0 && size.Some? && size.value > 0 {
        n :| 0 < n <= size.value && position + n <= |data|;
      }
      r := Chunk(data[position..position + n]);
      position := position + n;
    }
  }

  /** What a sink reports: a number of bytes, or nothing, the older convention. */
  datatype WriteReport = Wrote(count: int) | Nothing

  class Sink {
    var held: seq<byte>
    /** Whether a write has failed so far: its report counts no byte, or more bytes than there were. */
    ghost var refused: bool

    constructor ()
      ensures held == [] && !refused
    {
      held, refused := [], false;
    }

    /** An honest report counts the bytes the sink took, from the front; reporting nothing means it took
        them all. A report that is out of range says nothing about what was taken. */
    method Write(view: seq<byte>) returns (report: WriteReport)
      modifies this
      ensures old(held) <= held <= old(held) + view
      ensures report.Nothing? ==> held == old(held) + view
      ensures report.Wrote? && 0 <= report.count <= |view| ==> held == old(held) + view[..report.count]
      ensures refused == (old(refused) || (report.Wrote? && !(0 < report.count <= |view|)))
    {
      var taken: nat :| taken <= |view|;
      held := held + view[..taken];
      var honest: bool := *;
      if honest {
        report := Wrote(taken);
      } else if taken == |view| {
        report := Nothing;
      } else {
        report := Wrote(-1);
      }
      refused := refused || (report.Wrote? && !(0 < report.count <= |view|));
    }
  }

  /** Writes every byte, or fails because a write did; a failure leaves a prefix behind. */
  method WriteAll(sink: Sink, data: seq<byte>) returns (ok: bool)
    modifies sink
    ensures old(sink.held) <= sink.held <= old(sink.held) + data
    ensures ok ==> sink.held == old(sink.held) + data
    ensures sink.refused == (old(sink.refused) || !ok)
  {
    var view := data;
    while view != []
      invariant |view| <= |data| && view == data[|data| - |view|..]
      invariant sink.held == old(sink.held) + data[..|data| - |view|]
      invariant sink.refused == old(sink.refused)
      decreases |view|
    {
      var report := sink.Write(view);
      if report.Nothing? {
        return true;
      }
      if report.count < 0 || report.count > |view| || report.count == 0 {
        return false;
      }
      view := view[report.count..];
    }
    ok := true;
  }

  /** How a stream is read: as it is, up to a maximum, or verified against a receipt. The receipt may record
      the provider's own checksum, which only a reader that hashes for it can compare; `undisturbed` is what
      the recheck of the stored file after the last byte finds. */
  datatype Kind =
    | Plain
    | Bounded(most: Option<int>)
    | Verifying(expected: StoredIdentity, providerChecksum: Option<Digest>, providerHasher: bool, undisturbed: bool)

  /** Anything bytes are decoded or copied from. */
  class Reader {
    const handle: Source
    const kind: Kind
    var hashed: seq<byte>
    var count: nat
    var verified: bool
    var closed: bool

    ghost predicate Valid()
      reads this, handle
    {
      && handle.Valid() && count <= handle.position
      && (kind.Bounded? && kind.most.Some? ==> count <= Max(0, kind.most.value))
      && (kind.Verifying? ==> hashed == handle.data[..handle.position] && InStep())
      && (verified ==> kind.Verifying? && handle.position == |handle.data| && Genuine())
    }

    /** Every byte taken from the handle was handed out. */
    ghost predicate InStep()
      reads this, handle
    {
      kind.Plain? || count == handle.position
    }

    ghost predicate Genuine() {
      kind.Verifying? && Fulfils(kind, handle.data)
    }

    /** The bytes read so far are what the receipt promises, whether or not more follow. */
    ghost predicate GenuineSoFar()
      reads this
    {
      kind.Verifying? && Fulfils(kind, hashed)
    }

    /** Nothing about the stream itself stops a reader that always asks for something: an object within the
        maximum, or the very bytes the receipt promises. */
    ghost predicate Readable()
      reads this
    {
      match kind
      case Plain => true
      case Bounded(most) => most.Some? ==> |handle.data| <= Max(0, most.value)
      case Verifying(_, _, _, _) => !closed && Genuine()
    }

    /** The end of the stream was reached, and a verifying reader verified it. */
    ghost predicate Finished()
      reads this, handle
    {
      handle.position == |handle.data| && (kind.Verifying? ==> verified)
    }

    constructor (handle: Source, kind: Kind)
      requires handle.Valid() && handle.position == 0
      ensures Valid() && InStep() && this.handle == handle && this.kind == kind && !verified && !closed
    {
      this.handle, this.kind := handle, kind;
      hashed, count, verified, closed := [], 0, false, false;
    }

    /** Whatever the kind: bytes in order, and an empty answer to a request for something only at the end,
        which for a verifying reader means that everything was read and verified. */
    method Read(size: Option<int>) returns (r: ReadResult)
      requires Valid() && InStep()
      modifies this, handle
      ensures handle.Valid() && closed == old(closed) && old(handle.position) <= handle.position
      ensures Valid() <==> !verified || handle.position == |handle.data|
      ensures size != Some(0) ==> Valid()
      ensures r.Chunk? ==>
                && InStep() && handle.position == old(handle.position) + |r.bytes|
                && r.bytes == handle.data[old(handle.position)..handle.position]
                && (size.Some? && 0 <= size.value ==> |r.bytes| <= size.value)
                && (r.bytes == [] && size != Some(0) ==> Finished())
      ensures old(verified) ==> verified
      ensures kind.Verifying? && size == Some(0) && !closed && !old(verified) ==>
                && handle.position == old(handle.position)
                && verified == GenuineSoFar() && r == if verified then Chunk([]) else Raised
      ensures kind.Verifying? && old(handle.position) == |handle.data| && Genuine() && !closed ==>
                r == Chunk([]) || r == Broken
      ensures kind.Bounded? && kind.most.Some? && r == Raised ==> |handle.data| > kind.most.value
      ensures kind.Plain? ==> r != Raised
      ensures handle.broke == (old(handle.broke) || r == Broken)
      ensures size != Some(0) && Readable() ==> r != Raised
    {
      match kind {
        case Plain =>
          r := handle.Read(size);
        case Bounded(most) =>
          r := ReadBounded(Wanted(size, DEFAULT_BUFFER_BYTES), most);
        case Verifying(_, _, _, _) =>
          r := ReadVerifying(Wanted(size, DEFAULT_BUFFER_BYTES));
      }
    }

    /** At most the maximum is handed out, and an object that holds more is refused once it is reached. */
    method ReadBounded(size: nat, most: Option<int>) returns (r: ReadResult)
      requires Valid() && InStep() && kind == Bounded(most)
      modifies this`count, handle
      ensures Valid() && old(handle.position) <= handle.position
      ensures r.Chunk? ==>
                && InStep() && |r.bytes| <= size && handle.position == old(handle.position) + |r.bytes|
                && r.bytes == handle.data[old(handle.position)..handle.position]
                && (r.bytes == [] && size > 0 ==> handle.position == |handle.data|)
      ensures r == Raised ==> most.Some? && |handle.data| > Max(0, most.value)
      ensures handle.broke == (old(handle.broke) || r == Broken)
    {
      var n := size;
      if most.Some? {
        var remaining := most.value - count;
        if remaining <= 0 {
          r := handle.Read(Some(1));
          return if r.Chunk? && r.bytes != [] then Raised else r;
        }
        n := Min(n, remaining);
      }
      r := handle.Read(Some(n));
      if r.Chunk? {
        count := count + |r.bytes|;
      }
    }

    /** A read of nothing takes its own empty answer for the end, and judges what was read so far. Then
        `verified` no longer says that the stream is at its end. */
    method ReadVerifying(size: nat) returns (r: ReadResult)
      requires Valid() && kind.Verifying?
      modifies this, handle
      ensures handle.Valid() && closed == old(closed) && old(handle.position) <= handle.position
      ensures Valid() <==> !verified || handle.position == |handle.data|
      ensures size > 0 ==> Valid()
      ensures r.Chunk? ==>
                && InStep() && |r.bytes| <= size && handle.position == old(handle.position) + |r.bytes|
                && r.bytes == handle.data[old(handle.position)..handle.position]
                && (r.bytes == [] ==> verified)
      ensures old(verified) ==> verified
      ensures size == 0 && !closed && !old(verified) ==>
                && handle.position == old(handle.position)
                && verified == GenuineSoFar() && r == if verified then Chunk([]) else Raised
      ensures old(handle.position) == |handle.data| && Genuine() && !closed ==> r == Chunk([]) || r == Broken
      ensures handle.broke == (old(handle.broke) || r == Broken)
      ensures size > 0 && Genuine() && !closed ==> r != Raised
    {
      if closed {
        return Raised;
      }
      if verified {
        return Chunk([]);
      }
      r := handle.Read(Some(size));
      if r.Broken? {
        return;
      }
      if r.bytes == [] {
        var ok := Verify();
        return if ok then Chunk([]) else Raised;
      }
      hashed := hashed + r.bytes;
      count := count + |r.bytes|;
      if count > kind.expected.byteLength {
        return Raised;
      }
    }

    method Verify() returns (ok: bool)
      requires kind.Verifying? && count == |hashed| && !verified
      modifies this`verified
      ensures ok == verified == GenuineSoFar()
      ensures ok <==>
                && count == kind.expected.byteLength && Sha256(hashed) == kind.expected.sha256 && kind.undisturbed
                && (kind.providerChecksum.Some? ==>
                      kind.providerHasher && Sha256(hashed) == kind.providerChecksum.value)
    {
      if count != kind.expected.byteLength || Sha256(hashed) != kind.expected.sha256 {
        return false;
      }
      if kind.providerChecksum.Some? {
        if !kind.providerHasher || Sha256(hashed) != kind.providerChecksum.value {
          return false;
        }
      }
      if !kind.undisturbed {
        return false;
      }
      verified := true;
      ok := true;
    }

    /** Leaving a verified stream early is a failure unless the rest verifies; other readers just close. */
    method Close() returns (ok: bool)
      requires verified || (Valid() && InStep())
      modifies this, handle
      ensures closed && (old(Valid()) ==> Valid())
      ensures kind.Verifying? && ok && !old(closed) ==> verified
      ensures old(verified) ==> ok && verified && handle.position == old(handle.position)
      ensures !kind.Verifying? ==> ok && handle.position == old(handle.position)
      ensures Genuine() && old(handle.position) == |handle.data| ==> ok || handle.broke || old(closed)
    {
      if closed {
        return true;
      }
      if !kind.Verifying? {
        closed := true;
        return true;
      }
      if !verified && count == kind.expected.byteLength {
        var r := Read(Some(1));
        if !r.Chunk? {
          closed := true;
          return false;
        }
      }
      closed := true;
      ok := verified;
    }
  }

  /** These bytes are what the receipt promises. */
  predicate Fulfils(kind: Kind, bytes: seq<byte>)
    requires kind.Verifying?
  {
    && StoredOf(bytes) == kind.expected
    && (kind.providerChecksum.Some? ==> kind.providerHasher && kind.providerChecksum.value == Sha256(bytes))
    && kind.undisturbed
  }

  /** A stream that starts with the promised bytes and holds more: asked for nothing at that point, the
      reader verifies, answers that this is the end, and closes in good order, with bytes left unread. */
  method VerifiedBeforeTheEnd(reader: Reader) returns (r: ReadResult, closedWell: bool)
    requires reader.Valid() && reader.GenuineSoFar() && !reader.verified && !reader.closed
    requires reader.handle.position < |reader.handle.data|
    modifies reader, reader.handle
    ensures r == Chunk([]) && reader.verified && reader.closed && closedWell
    ensures reader.handle.position == old(reader.handle.position) < |reader.handle.data|
  {
    r := reader.Read(Some(0));
    closedWell := reader.Close();
  }

  /** There is such a stream: bytes where the receipt promises none. */
  method NothingPromised(data: seq<byte>) returns (reader: Reader, r: ReadResult, closedWell: bool)
    requires data != []
    ensures fresh(reader) && fresh(reader.handle) && reader.handle.data == data && reader.kind.Verifying?
    ensures r == Chunk([]) && reader.verified && reader.closed && closedWell && reader.handle.position == 0
  {
    var handle := new Source(data);
    reader := new Reader(handle, Verifying(StoredOf([]), None, false, true));
    assert reader.hashed == [];
    r, closedWell := VerifiedBeforeTheEnd(reader);
  }
}
