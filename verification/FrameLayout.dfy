/** The outer layout of one Zstandard frame (RFC 8878, section 3.1.1): what a frame is made of and
    how it is written out. Block contents and size limits are opaque here. */
module FrameLayout {
  type byte = b: int | 0 <= b < 256

  const MAGIC: seq<byte> := [0x28, 0xb5, 0x2f, 0xfd]

  /** Block types: 0 raw, 1 run-length, 2 compressed; 3 is reserved. */
  datatype Block = Block(kind: int, size: int, body: seq<byte>)

  datatype Frame = Frame(descriptor: byte, fields: seq<byte>, blocks: seq<Block>, checksum: seq<byte>)

  // ---- the frame header descriptor, bit by bit ----------------------------------------------

  predicate ReservedBit(d: byte) {
    d / 8 % 2 == 1
  }

  predicate ChecksumFlag(d: byte) {
    d / 4 % 2 == 1
  }

  predicate SingleSegment(d: byte) {
    d / 32 % 2 == 1
  }

  function DictionaryBytes(d: byte): nat {
    [0, 1, 2, 4][d % 4]
  }

  function ContentSizeBytes(d: byte): nat {
    [if SingleSegment(d) then 1 else 0, 2, 4, 8][d / 64]
  }

  function Bit(b: bool): nat {
    if b then 1 else 0
  }

  /** The descriptor's fields from the lowest bits up, and the sizes they stand for; bit 4 means nothing. */
  lemma DescriptorFields(
      dictionary: nat, checksum: bool, reserved: bool, unused: bool, single: bool, contentSize: nat)
    requires dictionary < 4 && contentSize < 4
    ensures var d := dictionary + 0x04 * Bit(checksum) + 0x08 * Bit(reserved) + 0x10 * Bit(unused) +
                     0x20 * Bit(single) + 0x40 * contentSize;
            && d < 256
            && ReservedBit(d) == reserved && ChecksumFlag(d) == checksum && SingleSegment(d) == single
            && DictionaryBytes(d) == (if dictionary == 3 then 4 else dictionary)
            && ContentSizeBytes(d) == (if contentSize == 0 && !single then 0 else if contentSize == 0 then 1
                                       else if contentSize == 1 then 2 else if contentSize == 2 then 4 else 8)
  {
    var c, r, u, s := Bit(checksum), Bit(reserved), Bit(unused), Bit(single);
    var d := dictionary + 0x04 * c + 0x08 * r + 0x10 * u + 0x20 * s + 0x40 * contentSize;
    assert d % 4 == dictionary && d / 4 == c + 2 * r + 4 * u + 8 * s + 16 * contentSize;
    assert d / 8 == r + 2 * u + 4 * s + 8 * contentSize;
    assert d / 32 == s + 2 * contentSize;
    assert d / 64 == contentSize;
  }

  /** Window descriptor, dictionary identifier and content size together. */
  function FieldBytes(d: byte): nat {
    (if SingleSegment(d) then 0 else 1) + DictionaryBytes(d) + ContentSizeBytes(d)
  }

  function BodyBytes(kind: int, size: int): int {
    if kind == 1 then 1 else size
  }

  predicate BlockOk(b: Block) {
    0 <= b.kind < 3 && 0 <= b.size < 0x20_0000 && |b.body| == BodyBytes(b.kind, b.size)
  }

  predicate BlocksOk(blocks: seq<Block>) {
    forall i :: 0 <= i < |blocks| ==> BlockOk(blocks[i])
  }

  predicate FrameOk(f: Frame) {
    && !ReservedBit(f.descriptor)
    && |f.fields| == FieldBytes(f.descriptor)
    && f.blocks != [] && BlocksOk(f.blocks)
    && |f.checksum| == (if ChecksumFlag(f.descriptor) then 4 else 0)
  }

  // ---- writing a frame out ------------------------------------------------------------------

  function HeaderNumber(b: Block, last: bool): int {
    (if last then 1 else 0) + 2 * b.kind + 8 * b.size
  }

  function ThreeBytes(n: int): seq<byte> {
    [n % 256, n / 256 % 256, n / 65536 % 256]
  }

  function WrittenBlocks(blocks: seq<Block>): seq<byte> {
    if blocks == [] then []
    else ThreeBytes(HeaderNumber(blocks[0], |blocks| == 1)) + blocks[0].body + WrittenBlocks(blocks[1..])
  }

  function Written(f: Frame): seq<byte> {
    MAGIC + [f.descriptor] + f.fields + WrittenBlocks(f.blocks) + f.checksum
  }

  // ---- two frames never share their bytes ---------------------------------------------------

  lemma HeaderNumberSplits(b: Block, last: bool)
    requires BlockOk(b)
    ensures var n := HeaderNumber(b, last);
            && 0 <= n < 0x100_0000
            && n % 2 == (if last then 1 else 0) && n / 2 % 4 == b.kind && n / 8 == b.size
            && n == n % 256 + 256 * (n / 256 % 256) + 65536 * (n / 65536 % 256)
  {
  }

  lemma FirstBlock(blocks: seq<Block>, x: seq<byte>)
    requires blocks != [] && BlockOk(blocks[0])
    ensures var s, n := WrittenBlocks(blocks) + x, BodyBytes(blocks[0].kind, blocks[0].size);
            && 3 + n <= |s|
            && s[..3] == ThreeBytes(HeaderNumber(blocks[0], |blocks| == 1))
            && s[3..3 + n] == blocks[0].body
            && s[3 + n..] == WrittenBlocks(blocks[1..]) + x
  {
    var head := ThreeBytes(HeaderNumber(blocks[0], |blocks| == 1));
    var tail := WrittenBlocks(blocks[1..]);
    assert WrittenBlocks(blocks) + x == head + blocks[0].body + (tail + x);
    hide WrittenBlocks, ThreeBytes, HeaderNumber;
    ThreeParts(head, blocks[0].body, tail + x);
  }

  lemma ThreeParts(a: seq<byte>, b: seq<byte>, c: seq<byte>)
    ensures var s := a + b + c;
            && |s| == |a| + |b| + |c|
            && s[..|a|] == a && s[|a|..|a| + |b|] == b && s[|a| + |b|..] == c
  {
  }

  lemma {:induction false} BlocksInjective(a: seq<Block>, b: seq<Block>, x: seq<byte>, y: seq<byte>)
    requires a != [] && b != [] && BlocksOk(a) && BlocksOk(b)
    requires WrittenBlocks(a) + x == WrittenBlocks(b) + y
    ensures a == b && x == y
    decreases |a|
  {
    FirstBlock(a, x);
    FirstBlock(b, y);
    SameBlock(a[0], |a| == 1, b[0], |b| == 1);
    assert WrittenBlocks(a[1..]) + x == WrittenBlocks(b[1..]) + y;
    if |a| == 1 {
      assert WrittenBlocks(a[1..]) == [] && WrittenBlocks(b[1..]) == [];
      assert a == [a[0]] && b == [b[0]] && [] + x == x && [] + y == y;
    } else {
      BlocksInjective(a[1..], b[1..], x, y);
      assert a == [a[0]] + a[1..] && b == [b[0]] + b[1..];
    }
  }

  lemma SameBlock(a: Block, lastA: bool, b: Block, lastB: bool)
    requires BlockOk(a) && BlockOk(b)
    requires ThreeBytes(HeaderNumber(a, lastA)) == ThreeBytes(HeaderNumber(b, lastB))
    ensures lastA == lastB && a.kind == b.kind && a.size == b.size
  {
    HeaderNumberSplits(a, lastA);
    HeaderNumberSplits(b, lastB);
    var s, t := ThreeBytes(HeaderNumber(a, lastA)), ThreeBytes(HeaderNumber(b, lastB));
    assert s[0] == t[0] && s[1] == t[1] && s[2] == t[2];
  }

  /** A byte string is written by one frame at most. */
  lemma WrittenInjective(f: Frame, g: Frame)
    requires FrameOk(f) && FrameOk(g) && Written(f) == Written(g)
    ensures f == g
  {
    FrameParts(f);
    FrameParts(g);
    BlocksInjective(f.blocks, g.blocks, f.checksum, g.checksum);
  }

  lemma FrameParts(f: Frame)
    requires FrameOk(f)
    ensures var s, n := Written(f), FieldBytes(f.descriptor);
            && 5 + n <= |s| && s[4] == f.descriptor && s[5..5 + n] == f.fields
            && s[5 + n..] == WrittenBlocks(f.blocks) + f.checksum
  {
    assert Written(f) == (MAGIC + [f.descriptor]) + f.fields + (WrittenBlocks(f.blocks) + f.checksum);
    ThreeParts(MAGIC + [f.descriptor], f.fields, WrittenBlocks(f.blocks) + f.checksum);
  }
}
