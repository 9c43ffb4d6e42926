/** Feeding a frame reader in chunks: what depends on where the chunks are cut, and what does not. */
module SplitFeeding {
  import opened FrameLayout
  import opened FrameWalk

  /** What feeding a list of chunks leaves behind. Bytes of the chunk that raises are not handed on. */
  datatype Fed = Fed(walk: Walk, handed: seq<byte>, trailing: seq<byte>)

  function FeedAll(w: Walk, chunks: seq<seq<byte>>): Fed
    requires WalkOk(w)
    decreases |chunks|
  {
    if chunks == [] then Fed(w, [], [])
    else
      var v, n := Run(w, chunks[0]), Consumed(w, chunks[0]);
      if v.phase == Bad then Fed(v, [], [])
      else
        var rest := FeedAll(v, chunks[1..]);
        Fed(rest.walk, chunks[0][..n] + rest.handed, chunks[0][n..] + rest.trailing)
  }

  function Joined(chunks: seq<seq<byte>>): seq<byte> {
    if chunks == [] then [] else chunks[0] + Joined(chunks[1..])
  }

  /** The chunks before the one that raises. */
  function BeforeFailure(w: Walk, chunks: seq<seq<byte>>): seq<seq<byte>>
    requires WalkOk(w)
    decreases |chunks|
  {
    if chunks == [] || Run(w, chunks[0]).phase == Bad then []
    else [chunks[0]] + BeforeFailure(Run(w, chunks[0]), chunks[1..])
  }

  /** The verdict is that of the whole byte string; and unless that is a rejection, so are the bytes
      handed on and the bytes that trail. */
  lemma {:induction false} CutsDoNotMatter(w: Walk, chunks: seq<seq<byte>>)
    requires WalkOk(w)
    ensures var f, s, n := FeedAll(w, chunks), Joined(chunks), Consumed(w, Joined(chunks));
            && f.walk == Run(w, s)
            && (f.walk.phase != Bad ==> f.handed == s[..n] && f.trailing == s[n..])
    decreases |chunks|
  {
    if chunks != [] {
      var c, t := chunks[0], Joined(chunks[1..]);
      var v := Run(w, c);
      RunConcat(w, c, t);
      if v.phase == Bad {
        assert Run(v, t) == v;
      } else {
        CutsDoNotMatter(v, chunks[1..]);
        OnlyDoneLeavesBytes(w, c, t);
        hide Run, Consumed, Step;
        SlicesJoin(c, t, Consumed(w, c), Consumed(v, t));
      }
    }
  }

  lemma OnlyDoneLeavesBytes(w: Walk, c: seq<byte>, t: seq<byte>)
    requires WalkOk(w) && Run(w, c).phase != Bad
    ensures Consumed(Run(w, c), t) > 0 ==> Consumed(w, c) == |c|
  {
    NotOverTakesAll(w, c);
  }

  lemma SlicesJoin(c: seq<byte>, t: seq<byte>, n: nat, m: nat)
    requires n <= |c| && m <= |t| && (m > 0 ==> n == |c|)
    ensures (c + t)[..n + m] == c[..n] + t[..m] && (c + t)[n + m..] == c[n..] + t[m..]
  {
  }

  /** When the bytes are rejected, the reader has handed on exactly the chunks before the rejection:
      cutting the same bytes differently hands on something else. */
  lemma {:induction false} RejectionHandsOnEarlierChunks(w: Walk, chunks: seq<seq<byte>>)
    requires WalkOk(w) && FeedAll(w, chunks).walk.phase == Bad && w.phase != Bad
    ensures FeedAll(w, chunks).handed == Joined(BeforeFailure(w, chunks))
    ensures FeedAll(w, chunks).trailing == []
    decreases |chunks|
  {
    hide Run, Consumed, Step, FeedAll, BeforeFailure;
    FirstChunk(w, chunks);
    if chunks != [] {
      var c := chunks[0];
      var v := Run(w, c);
      if v.phase != Bad {
        RejectionHandsOnEarlierChunks(v, chunks[1..]);
        if v.phase == Done {
          DoneStays(v, chunks[1..]);
        } else {
          NotOverTakesAll(w, c);
        }
        var before := BeforeFailure(v, chunks[1..]);
        assert ([c] + before)[1..] == before;
        assert c[..|c|] == c && c[|c|..] == [];
      }
    }
  }

  /** Feeding and what precedes a failure, one chunk at a time. */
  lemma FirstChunk(w: Walk, chunks: seq<seq<byte>>)
    requires WalkOk(w)
    ensures chunks == [] ==> FeedAll(w, chunks) == Fed(w, [], [])
    ensures chunks != [] ==>
              var c, v, n := chunks[0], Run(w, chunks[0]), Consumed(w, chunks[0]);
              && WalkOk(v) && 0 <= n <= |c|
              && FeedAll(w, chunks) ==
                 (if v.phase == Bad then Fed(v, [], [])
                  else var rest := FeedAll(v, chunks[1..]);
                       Fed(rest.walk, c[..n] + rest.handed, c[n..] + rest.trailing))
              && BeforeFailure(w, chunks) ==
                 (if v.phase == Bad then [] else [c] + BeforeFailure(v, chunks[1..]))
  {
  }

  lemma {:induction false} DoneStays(w: Walk, chunks: seq<seq<byte>>)
    requires WalkOk(w) && w.phase == Done
    ensures FeedAll(w, chunks).walk == w
    decreases |chunks|
  {
    if chunks != [] {
      DoneStays(w, chunks[1..]);
    }
  }

  /** The exact condition: a split hands on what the whole string fed at once hands on if and only if
      the bytes are not rejected, or nothing precedes the chunk that is rejected. */
  lemma SameAsWholeExactlyUnlessRejectedLate(chunks: seq<seq<byte>>)
    ensures var whole, split := FeedAll(START, [Joined(chunks)]), FeedAll(START, chunks);
            && split.walk == whole.walk
            && (split.handed == whole.handed <==>
                  split.walk.phase != Bad || Joined(BeforeFailure(START, chunks)) == [])
  {
    var s := Joined(chunks);
    assert Joined([s]) == s + [] == s;
    CutsDoNotMatter(START, chunks);
    CutsDoNotMatter(START, [s]);
    if FeedAll(START, chunks).walk.phase == Bad {
      RejectionHandsOnEarlierChunks(START, chunks);
      assert FeedAll(START, [s]).handed == [];
    }
  }

  /** The magic number followed by a descriptor with the reserved bit: fed apart, the magic number has
      been handed on before the rejection; fed together, nothing has. */
  lemma RejectedLateExample()
    ensures FeedAll(START, [MAGIC, [8]]).walk.phase == Bad
    ensures FeedAll(START, [MAGIC, [8]]).handed == MAGIC
    ensures FeedAll(START, [MAGIC + [8]]).handed == []
  {
    MagicThenReserved();
    var tail: seq<seq<byte>> := [[8]];
    assert [MAGIC, [8]][1..] == tail;
    hide Run, Consumed;
    assert FeedAll(Run(START, MAGIC), tail).handed == [];
  }

  lemma OneByte(w: Walk, b: byte)
    requires WalkOk(w) && !Over(w)
    ensures Run(w, [b]) == Step(w, b)
  {
    assert [b][1..] == [];
    assert Run(Step(w, b), []) == Step(w, b);
  }

  lemma MagicThenReserved()
    ensures Run(START, MAGIC).phase == Descriptor && Consumed(START, MAGIC) == 4
    ensures Run(Run(START, MAGIC), [8]).phase == Bad
    ensures Run(START, MAGIC + [8]).phase == Bad
  {
    hide Run, Consumed;
    FieldRun(START, MAGIC);
    assert START.field + MAGIC == MAGIC && START.(field := []) == START;
    var w, reject: seq<byte> := Run(START, MAGIC), [8];
    OneByte(w, 8);
    RunConcat(START, MAGIC, reject);
  }
}
