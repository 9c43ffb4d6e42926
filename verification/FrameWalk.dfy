/** The walk over a frame's structure as a function of the bytes seen, one byte at a time, and what it
    has to do with the layout of a frame. */
module FrameWalk {
  import opened FrameLayout

  datatype Phase = Magic | Descriptor | HeaderRest | BlockHeader | BlockBody | Checksum | Done | Bad

  /** `field` collects the `need` bytes of a fixed-size field; `remaining` counts down a block. */
  datatype Walk = Walk(
    phase: Phase, need: int, field: seq<byte>, hasChecksum: bool, remaining: int, last: bool)

  const START := Walk(Magic, 4, [], false, 0, false)

  function Expect(w: Walk, phase: Phase, need: int): Walk {
    w.(phase := phase, need := need)
  }

  function EndOfBlock(w: Walk): Walk {
    if !w.last then Expect(w, BlockHeader, 3)
    else if w.hasChecksum then Expect(w, Checksum, 4)
    else w.(phase := Done)
  }

  function Number(s: seq<byte>): int
    requires |s| == 3
  {
    s[0] as int + 256 * (s[1] as int) + 65536 * (s[2] as int)
  }

  /** A block header is written lowest byte first: kind 2 and a size of 300, not the last block. */
  lemma HeaderExample(body: seq<byte>)
    ensures ThreeBytes(HeaderNumber(Block(2, 300, body), false)) == [0x64, 0x09, 0x00]
    ensures Number([0x64, 0x09, 0x00]) == 0x0964
  {
  }

  /** A field is complete. `Bad` stands for the exception. */
  function Field(w: Walk, s: seq<byte>): Walk
    requires w.phase in {Magic, Descriptor, HeaderRest, BlockHeader, Checksum}
    requires w.phase == Descriptor ==> |s| == 1
    requires w.phase == BlockHeader ==> |s| == 3
  {
    match w.phase
    case Magic => if s != MAGIC then w.(phase := Bad) else Expect(w, Descriptor, 1)
    case Descriptor =>
      if ReservedBit(s[0]) then w.(phase := Bad)
      else
        var v := w.(hasChecksum := ChecksumFlag(s[0]));
        if FieldBytes(s[0]) > 0 then Expect(v, HeaderRest, FieldBytes(s[0])) else Expect(v, BlockHeader, 3)
    case HeaderRest => Expect(w, BlockHeader, 3)
    case BlockHeader =>
      var n := Number(s);
      var kind := n / 2 % 4;
      if kind == 3 then w.(phase := Bad, last := n % 2 == 1)
      else
        var v := w.(last := n % 2 == 1, remaining := BodyBytes(kind, n / 8));
        if v.remaining == 0 then EndOfBlock(v) else v.(phase := BlockBody)
    case Checksum => w.(phase := Done)
  }

  predicate WalkOk(w: Walk) {
    && (w.phase in {Magic, Descriptor, HeaderRest, BlockHeader, Checksum} ==> |w.field| < w.need)
    && (w.phase == Descriptor ==> w.need == 1)
    && (w.phase == BlockHeader ==> w.need == 3)
    && (w.phase == Checksum ==> w.need == 4)
    && (w.phase == BlockBody ==> w.remaining > 0)
    && (w.phase in {BlockBody, Done} ==> w.field == [])
  }

  predicate Over(w: Walk) {
    w.phase == Done || w.phase == Bad
  }

  function Step(w: Walk, b: byte): (r: Walk)
    requires WalkOk(w) && !Over(w)
    ensures WalkOk(r)
  {
    if w.phase == BlockBody then
      var v := w.(remaining := w.remaining - 1);
      if v.remaining == 0 then EndOfBlock(v) else v
    else
      var s := w.field + [b];
      if |s| < w.need then w.(field := s) else Field(w.(field := []), s)
  }

  function Run(w: Walk, s: seq<byte>): (r: Walk)
    requires WalkOk(w)
    ensures WalkOk(r)
    decreases |s|
  {
    if s == [] || Over(w) then w else Run(Step(w, s[0]), s[1..])
  }

  /** How many bytes the walk consumes before it is over. */
  function Consumed(w: Walk, s: seq<byte>): (n: nat)
    requires WalkOk(w)
    ensures n <= |s|
    decreases |s|
  {
    if s == [] || Over(w) then 0 else 1 + Consumed(Step(w, s[0]), s[1..])
  }

  // ---- the walk does not care how the bytes arrive ------------------------------------------

  lemma {:induction false} RunConcat(w: Walk, s: seq<byte>, t: seq<byte>)
    requires WalkOk(w)
    ensures Run(w, s + t) == Run(Run(w, s), t)
    ensures Consumed(w, s + t) == Consumed(w, s) + Consumed(Run(w, s), t)
    decreases |s|
  {
    if s == [] {
      assert s + t == t;
    } else if !Over(w) {
      assert (s + t)[0] == s[0] && (s + t)[1..] == s[1..] + t;
      RunConcat(Step(w, s[0]), s[1..], t);
    }
  }

  /** A walk that is not over has consumed everything. */
  lemma {:induction false} NotOverTakesAll(w: Walk, s: seq<byte>)
    requires WalkOk(w)
    ensures !Over(Run(w, s)) ==> Consumed(w, s) == |s|
    ensures Run(w, s[..Consumed(w, s)]) == Run(w, s)
    ensures Consumed(w, s[..Consumed(w, s)]) == Consumed(w, s)
    decreases |s|
  {
    if s != [] && !Over(w) {
      NotOverTakesAll(Step(w, s[0]), s[1..]);
      var n := Consumed(w, s);
      assert s[..n][0] == s[0] && s[..n][1..] == s[1..][..n - 1];
    }
  }

  lemma {:induction false} FieldRun(w: Walk, s: seq<byte>)
    requires WalkOk(w) && !Over(w) && w.phase != BlockBody
    requires |w.field| + |s| <= w.need
    ensures |w.field| + |s| < w.need ==> Run(w, s) == w.(field := w.field + s)
    ensures |w.field| + |s| == w.need ==> Run(w, s) == Field(w.(field := []), w.field + s)
    ensures Consumed(w, s) == |s|
    decreases |s|
  {
    hide Field, EndOfBlock;
    if s == [] {
      assert w.field + s == w.field;
    } else {
      var v := Step(w, s[0]);
      assert w.field + s == w.field + [s[0]] + s[1..];
      if |w.field| + 1 < w.need {
        assert v == w.(field := w.field + [s[0]]) && v.(field := []) == w.(field := []);
        FieldRun(v, s[1..]);
      } else {
        assert s == [s[0]];
        assert v == Field(w.(field := []), w.field + s);
      }
    }
  }

  lemma {:induction false} BodyRun(w: Walk, s: seq<byte>)
    requires WalkOk(w) && w.phase == BlockBody && |s| <= w.remaining
    ensures |s| < w.remaining ==> Run(w, s) == w.(remaining := w.remaining - |s|)
    ensures |s| == w.remaining ==> Run(w, s) == EndOfBlock(w.(remaining := 0))
    ensures Consumed(w, s) == |s|
    decreases |s|
  {
    if s != [] && w.remaining > 1 {
      BodyRun(Step(w, s[0]), s[1..]);
    }
  }

  // ---- every frame is walked to its end -----------------------------------------------------

  lemma {:induction false} BlocksRun(w: Walk, blocks: seq<Block>)
    requires WalkOk(w) && w.phase == BlockHeader && w.field == []
    requires blocks != [] && BlocksOk(blocks)
    ensures var s, r := WrittenBlocks(blocks), Run(w, WrittenBlocks(blocks));
            && Consumed(w, s) == |s|
            && r.hasChecksum == w.hasChecksum && r.field == []
            && (w.hasChecksum ==> r.phase == Checksum)
            && (!w.hasChecksum ==> r.phase == Done)
    decreases |blocks|
  {
    var b, final, tail := blocks[0], |blocks| == 1, WrittenBlocks(blocks[1..]);
    var head := ThreeBytes(HeaderNumber(b, final));
    OneBlockRun(w, b, final);
    var v := Run(w, head + b.body);
    RunConcat(w, head + b.body, tail);
    assert WrittenBlocks(blocks) == head + b.body + tail;
    if !final {
      BlocksRun(v, blocks[1..]);
    } else {
      assert tail == [];
    }
  }

  lemma OneBlockRun(w: Walk, b: Block, final: bool)
    requires WalkOk(w) && w.phase == BlockHeader && w.field == [] && BlockOk(b)
    ensures var s := ThreeBytes(HeaderNumber(b, final)) + b.body;
            && Run(w, s) == EndOfBlock(w.(last := final, remaining := 0))
            && Consumed(w, s) == |s|
  {
    var head := ThreeBytes(HeaderNumber(b, final));
    HeaderNumberSplits(b, final);
    FieldRun(w, head);
    assert w.field + head == head;
    assert Number(head) == HeaderNumber(b, final);
    RunConcat(w, head, b.body);
    if b.body == [] {
      assert head + b.body == head;
    } else {
      BodyRun(Run(w, head), b.body);
    }
  }

  /** Whatever follows a frame, the walk ends exactly where the frame does. */
  lemma FrameRuns(f: Frame, rest: seq<byte>)
    requires FrameOk(f)
    ensures Run(START, Written(f) + rest).phase == Done
    ensures Consumed(START, Written(f) + rest) == |Written(f)|
  {
    var head, blocks := MAGIC + [f.descriptor] + f.fields, WrittenBlocks(f.blocks);
    HeaderRun(f.descriptor, f.fields);
    var w := Run(START, head);
    BlocksRun(w, f.blocks);
    RunConcat(START, head, blocks);
    var v := Run(w, blocks);
    RunConcat(START, head + blocks, f.checksum);
    if f.checksum != [] {
      FieldRun(v, f.checksum);
    }
    assert Written(f) == head + blocks + f.checksum;
    RunConcat(START, Written(f), rest);
  }

  lemma HeaderRun(d: byte, fields: seq<byte>)
    requires !ReservedBit(d) && |fields| == FieldBytes(d)
    ensures var s := MAGIC + [d] + fields;
            && Run(START, s) == START.(phase := BlockHeader, need := 3, hasChecksum := ChecksumFlag(d))
            && Consumed(START, s) == |s|
  {
    hide Run, Consumed, Step;
    FieldDone(START, MAGIC);
    var w := Run(START, MAGIC);
    RunConcat(START, MAGIC, [d]);
    FieldDone(w, [d]);
    var v := Run(w, [d]);
    RunConcat(START, MAGIC + [d], fields);
    FieldDone(v, fields);
  }

  // ---- and nothing else is ------------------------------------------------------------------

  /** Cuts the `n` bytes a field phase wants off the front of `s`. */
  lemma CutField(w: Walk, s: seq<byte>)
    requires WalkOk(w) && !Over(w) && w.phase != BlockBody && w.field == []
    requires Over(Run(w, s))
    ensures w.need <= |s| && WalkOk(Field(w, s[..w.need]))
    ensures Run(w, s) == Run(Field(w, s[..w.need]), s[w.need..])
    ensures Consumed(w, s) == w.need + Consumed(Field(w, s[..w.need]), s[w.need..])
  {
    hide Run, Consumed, Step, Field;
    if |s| < w.need {
      FieldRun(w, s);
    } else {
      var front, rest := s[..w.need], s[w.need..];
      assert s == front + rest;
      FieldDone(w, front);
      RunConcat(w, front, rest);
    }
  }

  lemma FieldDone(w: Walk, front: seq<byte>)
    requires WalkOk(w) && !Over(w) && w.phase != BlockBody && w.field == [] && |front| == w.need
    ensures WalkOk(Field(w, front)) && Run(w, front) == Field(w, front) && Consumed(w, front) == w.need
  {
    FieldRun(w, front);
    hide Run, Consumed, Step, Field;
    assert w.field + front == front && w.(field := []) == w;
  }

  /** A walk over blocks that completes has seen well-formed blocks and the checksum. */
  lemma {:induction false} BlocksSeen(w: Walk, s: seq<byte>) returns (blocks: seq<Block>, checksum: seq<byte>)
    requires WalkOk(w) && w.phase == BlockHeader && w.field == [] && Run(w, s).phase == Done
    ensures blocks != [] && BlocksOk(blocks)
    ensures |checksum| == (if w.hasChecksum then 4 else 0)
    ensures s[..Consumed(w, s)] == WrittenBlocks(blocks) + checksum
    decreases |s|
  {
    var b, final, v, t := BlockSeen(w, s);
    var head := ThreeBytes(HeaderNumber(b, final)) + b.body;
    if !final {
      var others;
      others, checksum := BlocksSeen(v, t);
      blocks := [b] + others;
      assert blocks[1..] == others;
      assert s[..Consumed(w, s)] == head + t[..Consumed(v, t)];
      assert head + (WrittenBlocks(others) + checksum) == (head + WrittenBlocks(others)) + checksum;
    } else {
      blocks := [b];
      assert WrittenBlocks(blocks[1..]) == [];
      assert WrittenBlocks(blocks) == head;
      if w.hasChecksum {
        CutField(v, t);
        checksum := t[..4];
        assert Consumed(v, t) == 4;
      } else {
        checksum := [];
      }
      assert s[..Consumed(w, s)] == head + t[..Consumed(v, t)];
    }
  }

  lemma HeaderBytes(head: seq<byte>)
    requires |head| == 3
    ensures var n := Number(head);
            && 0 <= n < 0x100_0000 && ThreeBytes(n) == head
            && 0 <= n / 8 < 0x20_0000
            && n == n % 2 + 2 * (n / 2 % 4) + 8 * (n / 8)
  {
    var a, b, c := head[0] as int, head[1] as int, head[2] as int;
    ThreeDigits(a, b, c);
  }

  lemma ThreeDigits(a: int, b: int, c: int)
    requires 0 <= a < 256 && 0 <= b < 256 && 0 <= c < 256
    ensures var n := a + 256 * b + 65536 * c;
            && n % 256 == a && n / 256 % 256 == b && n / 65536 % 256 == c
            && n / 8 < 0x20_0000 && n == n % 2 + 2 * (n / 2 % 4) + 8 * (n / 8)
  {
    var n := a + 256 * b + 65536 * c;
    assert n / 256 == b + 256 * c;
  }

  lemma BlockSeen(w: Walk, s: seq<byte>) returns (b: Block, final: bool, v: Walk, t: seq<byte>)
    requires WalkOk(w) && w.phase == BlockHeader && w.field == [] && Run(w, s).phase == Done
    ensures BlockOk(b) && WalkOk(v)
    ensures s == ThreeBytes(HeaderNumber(b, final)) + b.body + t
    ensures v == EndOfBlock(w.(last := final, remaining := 0))
    ensures Run(w, s) == Run(v, t)
    ensures Consumed(w, s) == 3 + |b.body| + Consumed(v, t)
  {
    hide Run, Consumed, Step, Number, ThreeBytes;
    CutField(w, s);
    var head, after := s[..3], s[3..];
    var n := Number(head);
    HeaderBytes(head);
    var kind, size := n / 2 % 4, n / 8;
    final := n % 2 == 1;
    var u := Field(w, head);
    if u.phase == Bad {
      BadStays(u, after);
    }
    assert kind != 3;
    var body;
    body, v, t := BodySeen(u, after, w.(last := final, remaining := 0), BodyBytes(kind, size));
    b := Block(kind, size, body);
    assert HeaderNumber(b, final) == n;
    assert s == head + after;
  }

  lemma BadStays(w: Walk, s: seq<byte>)
    requires WalkOk(w) && w.phase == Bad
    ensures Run(w, s).phase == Bad
  {
  }

  lemma BodySeen(u: Walk, s: seq<byte>, w: Walk, m: int)
    returns (body: seq<byte>, v: Walk, t: seq<byte>)
    requires WalkOk(u) && Run(u, s).phase == Done && 0 <= m
    requires w.field == [] && w.remaining == 0 && w.phase == BlockHeader && w.need == 3
    requires u == if m == 0 then EndOfBlock(w) else w.(phase := BlockBody, remaining := m)
    ensures |body| == m && s == body + t && v == EndOfBlock(w) && WalkOk(v)
    ensures Run(u, s) == Run(v, t) && Consumed(u, s) == m + Consumed(v, t)
  {
    if m == 0 {
      return [], u, s;
    }
    if |s| < m {
      BodyRun(u, s);
      assert false;
    } else {
      body, t := s[..m], s[m..];
      BodyRun(u, body);
      v := EndOfBlock(u.(remaining := 0));
      assert v == EndOfBlock(w);
      RunConcat(u, body, t);
      assert s == body + t;
    }
  }

  lemma DescriptorSeen(s: seq<byte>) returns (d: byte, u: seq<byte>)
    requires Run(START, s).phase == Done
    ensures !ReservedBit(d) && s == MAGIC + [d] + u
    ensures var v := Field(Expect(START, Descriptor, 1), [d]);
            && WalkOk(v) && Run(v, u) == Run(START, s)
            && Consumed(START, s) == 5 + Consumed(v, u)
  {
    CutField(START, s);
    assert s[..4] == MAGIC;
    var w, after := Field(START, MAGIC), s[4..];
    CutField(w, after);
    d, u := after[0], after[1..];
    assert after[..1] == [d];
  }

  lemma HeaderSeen(s: seq<byte>) returns (d: byte, fields: seq<byte>, t: seq<byte>)
    requires Run(START, s).phase == Done
    ensures !ReservedBit(d) && |fields| == FieldBytes(d)
    ensures s == MAGIC + [d] + fields + t
    ensures var x := START.(phase := BlockHeader, need := 3, hasChecksum := ChecksumFlag(d));
            && Run(x, t) == Run(START, s)
            && Consumed(START, s) == 5 + |fields| + Consumed(x, t)
  {
    var u;
    d, u := DescriptorSeen(s);
    var v, n := Field(Expect(START, Descriptor, 1), [d]), FieldBytes(d);
    if n > 0 {
      CutField(v, u);
    }
    fields, t := u[..n], u[n..];
    assert u == fields + t;
    assert (MAGIC + [d]) + (fields + t) == MAGIC + [d] + fields + t;
  }

  /** A completed walk has consumed exactly one well-formed frame. */
  lemma DoneIsAFrame(s: seq<byte>) returns (f: Frame)
    requires Run(START, s).phase == Done
    ensures FrameOk(f) && Written(f) == s[..Consumed(START, s)]
  {
    var d, fields, t := HeaderSeen(s);
    var x := START.(phase := BlockHeader, need := 3, hasChecksum := ChecksumFlag(d));
    var blocks, checksum := BlocksSeen(x, t);
    f := Frame(d, fields, blocks, checksum);
    var head := MAGIC + [d] + fields;
    assert s == head + t;
    assert s[..Consumed(START, s)] == head + t[..Consumed(x, t)];
  }

  // ---- the verdict against the layout -------------------------------------------------------

  /** The walk completes exactly when the bytes begin with a frame; that frame is the only one they
      begin with, and the walk ends at its last byte. */
  lemma CompletesExactlyOnFrames(s: seq<byte>)
    ensures Run(START, s).phase == Done <==> exists f :: FrameOk(f) && Written(f) <= s
    ensures forall f, g :: FrameOk(f) && FrameOk(g) && Written(f) <= s && Written(g) <= s ==> f == g
    ensures forall f :: FrameOk(f) && Written(f) <= s ==> |Written(f)| == Consumed(START, s)
  {
    hide Run, Consumed, FrameOk, Written;
    forall f | FrameOk(f) && Written(f) <= s
      ensures Run(START, s).phase == Done && |Written(f)| == Consumed(START, s)
    {
      FrameRuns(f, s[|Written(f)|..]);
      assert s == Written(f) + s[|Written(f)|..];
    }
    forall f, g | FrameOk(f) && FrameOk(g) && Written(f) <= s && Written(g) <= s ensures f == g {
      assert Written(f) == s[..|Written(f)|] && Written(g) == s[..|Written(g)|];
      WrittenInjective(f, g);
    }
    if Run(START, s).phase == Done {
      var f := DoneIsAFrame(s);
      assert Written(f) <= s;
    }
  }

  /** Bytes the walk rejects neither begin with a frame nor are the beginning of one. */
  lemma RejectsOnlyNonFrames(s: seq<byte>, f: Frame)
    requires Run(START, s).phase == Bad && FrameOk(f)
    ensures !(Written(f) <= s) && !(s <= Written(f))
  {
    if Written(f) <= s {
      CompletesExactlyOnFrames(s);
    } else if s <= Written(f) {
      hide Run, Consumed, Step, Written;
      var t := Written(f)[|s|..];
      assert Written(f) == s + t && Written(f) + [] == Written(f);
      FrameRuns(f, []);
      RunConcat(START, s, t);
      BadStays(Run(START, s), t);
    }
  }
}
