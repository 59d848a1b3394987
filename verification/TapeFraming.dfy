/** What the decoder makes of any framed tape: noise in preambles and damage inside the two
    copies of a block are allowed, only the framing has to hold. */
module TapeFraming {
  import opened Bytes
  import opened TapeDecoder

  function ByteBits(s: seq<byte>): (r: seq<bit>)
    ensures |r| == 8 * |s|
  {
    if s == [] then [] else ByteBits(s[..|s| - 1]) + BitsOf(s[|s| - 1], 8)
  }

  lemma {:induction false} ByteBitsConcat(a: seq<byte>, b: seq<byte>)
    ensures ByteBits(a + b) == ByteBits(a) + ByteBits(b)
  {
    if b == [] {
      assert a + b == a;
    } else {
      var c := b[..|b| - 1];
      assert (a + b)[..|a + b| - 1] == a + c;
      ByteBitsConcat(a, c);
    }
  }

  /** One copy of a block as it comes off the tape: its preamble, then 66 bytes. */
  datatype Copy = Copy(gap: seq<bit>, bytes: seq<byte>)
  datatype Block = Block(a: Copy, b: Copy)
  /** A recording: the long preamble, three header bytes, the blocks. */
  datatype Recording = Recording(lead: seq<bit>, header: seq<byte>, blocks: seq<Block>)

  /** Beyond the first n + 1 bits nothing but zeros. */
  ghost predicate Quiet(s: seq<bit>, n: nat) {
    forall i :: n < i < |s| ==> s[i] == 0
  }

  ghost predicate FramedCopy(c: Copy) {
    && BLOCK_PREAMBLE < |c.gap| <= LONG_PREAMBLE && Quiet(c.gap, BLOCK_PREAMBLE)
    && |c.bytes| == COPY_SIZE && c.bytes[0] >= 128
  }

  predicate Whole(bs: seq<Block>) {
    forall i :: 0 <= i < |bs| ==> |bs[i].a.bytes| == COPY_SIZE && |bs[i].b.bytes| == COPY_SIZE
  }

  ghost predicate FramedBlocks(bs: seq<Block>) {
    forall i :: 0 <= i < |bs| ==> FramedCopy(bs[i].a) && FramedCopy(bs[i].b)
  }

  ghost predicate Framed(r: Recording) {
    && LONG_PREAMBLE < |r.lead| && Quiet(r.lead, BLOCK_PREAMBLE)
    && |r.header| == 3 && r.header[0] >= 128
    && FramedBlocks(r.blocks)
  }

  function CopyBits(c: Copy): seq<bit> { c.gap + ByteBits(c.bytes) }

  function BlockBits(bs: seq<Block>): seq<bit> {
    if bs == [] then []
    else BlockBits(bs[..|bs| - 1]) + CopyBits(bs[|bs| - 1].a) + CopyBits(bs[|bs| - 1].b)
  }

  function RecordingBits(r: Recording): seq<bit> {
    r.lead + ByteBits(r.header) + BlockBits(r.blocks)
  }

  function TapeBits(rs: seq<Recording>): seq<bit> {
    if rs == [] then [] else TapeBits(rs[..|rs| - 1]) + RecordingBits(rs[|rs| - 1])
  }

  /** What the blocks say once the good copies are picked. */
  function Recovered(bs: seq<Block>): (d: seq<byte>)
    requires Whole(bs)
    ensures |d| == BLOCK_SIZE * |bs|
  {
    if bs == [] then []
    else
      var last := bs[|bs| - 1];
      Recovered(bs[..|bs| - 1]) + Chosen(last.a.bytes, last.b.bytes)
  }

  /** True when the decoder reports that something was wrong with a block. */
  predicate Damaged(bs: seq<Block>)
    requires Whole(bs)
  {
    exists i :: 0 <= i < |bs| && Noticed(bs[i].a.bytes, bs[i].b.bytes)
  }

  // ----- running over strings of bits

  lemma {:induction false} RunConcat(t: Tape, a: seq<bit>, b: seq<bit>)
    requires Wf(t)
    ensures Run(t, a + b) == Run(Run(t, a), b)
  {
    if b == [] {
      assert a + b == a;
    } else {
      var c := b[..|b| - 1];
      assert (a + b)[..|a + b| - 1] == a + c;
      RunConcat(t, a, c);
    }
  }

  /** A preamble only counts, whatever noise its first bits hold. */
  lemma {:induction false} RunGap(t: Tape, s: seq<bit>)
    requires Wf(t) && t.hunting && t.count == 0 && t.expected <= LONG_PREAMBLE
    requires Quiet(s, t.expected)
    ensures Run(t, s) == t.(count := |s|)
  {
    if s != [] {
      RunGap(t, s[..|s| - 1]);
    }
  }

  /** The reader is between bytes, off the preamble. */
  ghost predicate Reading(t: Tape) {
    Wf(t) && !t.hunting && t.bits == []
  }

  lemma {:induction false} RunPartial(t: Tape, s: seq<bit>)
    requires Reading(t) && |s| < 8
    ensures Run(t, s) == t.(bits := s)
  {
    if s != [] {
      RunPartial(t, s[..|s| - 1]);
      assert s[..|s| - 1] + [s[|s| - 1]] == s;
    }
  }

  lemma RunByte(t: Tape, b: byte)
    requires Reading(t)
    ensures Run(t, BitsOf(b, 8)) == EatByte(t, b)
  {
    var s := BitsOf(b, 8);
    RunPartial(t, s[..7]);
    assert Pow2(8) == 256;
    ValueOfBits(b, 8);
    assert s[..7] + [s[7]] == s;
    assert Run(t, s) == Step(Run(t, s[..7]), s[7]);
    assert t.(bits := s[..7]).(bits := []) == t;
  }

  lemma TopBit(b: byte)
    requires b >= 128
    ensures BitsOf(b, 8)[0] == 1
  {
    BitAt(b, 8, 0);
    assert TestBit(b, 7) == TestBit(b / 2, 6) == TestBit(b / 2 / 2, 5) == TestBit(b / 2 / 2 / 2, 4);
    assert b / 2 / 2 / 2 >= 16;
    var c := b / 2 / 2 / 2;
    assert TestBit(c, 4) == TestBit(c / 2, 3) == TestBit(c / 2 / 2, 2) == TestBit(c / 2 / 2 / 2, 1);
    assert c / 2 / 2 / 2 >= 2;
  }

  /** The first one after a long enough preamble is itself the top bit of the mark. */
  lemma RunMark(t: Tape, b: byte)
    requires Wf(t) && t.hunting && t.bits == [] && t.count > t.expected && b >= 128
    ensures Run(t, BitsOf(b, 8)) == EatByte(Sight(t), b)
    ensures Reading(Sight(t))
  {
    var s := BitsOf(b, 8);
    TopBit(b);
    var u := Sight(t);
    assert s[..1] == [1];
    assert Run(t, [1]) == Step(t, 1) by { assert [1][..0] == []; }
    assert Run(u, [1]) == Step(u, 1) by { assert [1][..0] == []; }
    assert Step(t, 1) == Shift(u, 1) == Step(u, 1);
    assert s == s[..1] + s[1..];
    RunConcat(t, s[..1], s[1..]);
    RunConcat(u, s[..1], s[1..]);
    RunByte(u, b);
  }

  /** Bytes inside a copy pile up. */
  lemma {:induction false} RunBlockBytes(t: Tape, s: seq<byte>)
    requires Reading(t) && |t.header| == 3 && |t.block| + |s| < COPY_SIZE
    ensures Run(t, ByteBits(s)) == t.(block := t.block + s)
  {
    hide Run, BitsOf, Chosen, Noticed;
    RunNone(t);
    if s == [] {
      assert t.block + s == t.block;
    } else {
      var c := s[..|s| - 1];
      RunBlockBytes(t, c);
      RunConcat(t, ByteBits(c), BitsOf(s[|s| - 1], 8));
      RunByte(t.(block := t.block + c), s[|s| - 1]);
      assert t.block + c + [s[|s| - 1]] == t.block + s;
    }
  }

  /** Hunting for the next block copy. */
  ghost predicate Ready(t: Tape) {
    && Wf(t) && t.hunting && t.count == 0 && t.bits == [] && |t.header| == 3 && t.block == []
    && t.expected == BLOCK_PREAMBLE
  }

  lemma RunThree(t: Tape, a: seq<bit>, b: seq<bit>, c: seq<bit>)
    requires Wf(t)
    ensures Run(t, a + (b + c)) == Run(Run(Run(t, a), b), c)
  {
    hide Run;
    RunConcat(t, a, b + c);
    RunConcat(Run(t, a), b, c);
  }

  lemma ThreeParts(a: seq<byte>, b: seq<byte>, c: seq<byte>)
    ensures ByteBits(a + (b + c)) == ByteBits(a) + (ByteBits(b) + ByteBits(c))
  {
    hide ByteBits;
    ByteBitsConcat(a, b + c);
    ByteBitsConcat(b, c);
  }

  /** From the end of the gap: the mark, 64 bytes and the checksum. */
  lemma RunCopyBytes(t: Tape, t1: Tape, s: seq<byte>)
    requires Wf(t) && t.hunting && t.bits == [] && |t.header| == 3 && t.block == []
    requires |s| == COPY_SIZE && s[0] >= 128
    requires t.expected < t.count <= LONG_PREAMBLE && t1 == t.(hunting := false, block := s[..65])
    ensures Run(t, ByteBits(s)) == EatByte(t1, s[65])
  {
    hide Run, ByteBits, BitsOf, Chosen, Noticed;
    var head, mid, last := [s[0]], s[1..65], [s[65]];
    assert s == head + (mid + last);
    ThreeParts(head, mid, last);
    RunThree(t, ByteBits(head), ByteBits(mid), ByteBits(last));
    OneByte(s[0]);
    OneByte(s[65]);
    RunMark(t, s[0]);
    var t2 := t.(hunting := false, block := head);
    assert EatByte(Sight(t), s[0]) == t2;
    RunBlockBytes(t2, mid);
    assert head + mid == s[..65];
    assert t2.(block := head + mid) == t1;
    RunByte(t1, s[65]);
  }

  lemma RunCopy(t: Tape, c: Copy)
    requires Ready(t) && FramedCopy(c)
    ensures Run(t, CopyBits(c))
         == EatByte(t.(hunting := false, count := |c.gap|, block := c.bytes[..65]), c.bytes[65])
  {
    hide Run, ByteBits, EatByte;
    var t1 := t.(count := |c.gap|);
    RunGap(t, c.gap);
    RunConcat(t, c.gap, ByteBits(c.bytes));
    RunCopyBytes(t1, t1.(hunting := false, block := c.bytes[..65]), c.bytes);
  }

  lemma OneByte(b: byte)
    ensures ByteBits([b]) == BitsOf(b, 8)
  {
    assert [b][..0] == [];
  }

  lemma RunBlock(t: Tape, b: Block)
    requires Ready(t) && t.first.None? && FramedCopy(b.a) && FramedCopy(b.b)
    ensures var t' := Run(t, CopyBits(b.a) + CopyBits(b.b));
            && Ready(t') && t'.first.None? && t'.records == t.records && t'.header == t.header
            && t'.out == t.out + Chosen(b.a.bytes, b.b.bytes)
            && t'.found == (t.found || Noticed(b.a.bytes, b.b.bytes))
  {
    hide Run, CopyBits;
    RunCopy(t, b.a);
    RunConcat(t, CopyBits(b.a), CopyBits(b.b));
    assert b.a.bytes[..65] + [b.a.bytes[65]] == b.a.bytes;
    assert b.b.bytes[..65] + [b.b.bytes[65]] == b.b.bytes;
    var t1 := Run(t, CopyBits(b.a));
    assert t1 == Hunt(t.(hunting := false, count := |b.a.gap|, block := [], first := Some(b.a.bytes)));
    RunCopy(t1, b.b);
  }

  lemma {:induction false} RunBlocks(t: Tape, bs: seq<Block>)
    requires Ready(t) && t.first.None? && FramedBlocks(bs)
    ensures var t' := Run(t, BlockBits(bs));
            && Ready(t') && t'.first.None? && t'.records == t.records
            && t'.out == t.out + Recovered(bs)
            && t'.found == (t.found || Damaged(bs))
  {
    hide Run, EatByte, CopyBits, Chosen, Noticed, Damaged;
    RunNone(t);
    NothingDamaged();
    if bs != [] {
      var cs, last := bs[..|bs| - 1], bs[|bs| - 1];
      RunBlocks(t, cs);
      var x, y := CopyBits(last.a), CopyBits(last.b);
      assert BlockBits(bs) == BlockBits(cs) + (x + y);
      RunConcat(t, BlockBits(cs), x + y);
      RunBlock(Run(t, BlockBits(cs)), last);
      DamagedSnoc(bs);
    }
  }

  lemma NothingDamaged()
    ensures !Damaged([])
  {
  }

  lemma DamagedSnoc(bs: seq<Block>)
    requires bs != [] && Whole(bs)
    ensures var last := bs[|bs| - 1];
            Damaged(bs) <==> Damaged(bs[..|bs| - 1]) || Noticed(last.a.bytes, last.b.bytes)
  {
    hide Noticed;
    var cs := bs[..|bs| - 1];
    if Damaged(cs) {
      var i :| 0 <= i < |cs| && Noticed(cs[i].a.bytes, cs[i].b.bytes);
      assert bs[i] == cs[i];
    }
  }

  /** Between recordings: hunting, and either nothing was read yet or whole blocks were. */
  ghost predicate Between(t: Tape) {
    && Wf(t) && t.hunting && t.count == 0 && t.bits == [] && t.block == [] && t.first.None?
    && BLOCK_PREAMBLE <= t.expected <= LONG_PREAMBLE && (t.header == [] || |t.header| == 3)
  }

  lemma RunHeaderBytes(t: Tape, u: Tape, h: seq<byte>)
    requires Wf(t) && t.hunting && t.bits == [] && t.count > t.expected && |h| == 3 && h[0] >= 128
    requires u == Sight(t) && u.header == []
    ensures Run(t, ByteBits(h)) == Hunt(u.(header := h))
  {
    hide Run, ByteBits, BitsOf, Chosen, Noticed, Sight, Hunt;
    assert h == [h[0]] + ([h[1]] + [h[2]]);
    ThreeParts([h[0]], [h[1]], [h[2]]);
    RunThree(t, ByteBits([h[0]]), ByteBits([h[1]]), ByteBits([h[2]]));
    OneByte(h[0]);
    OneByte(h[1]);
    OneByte(h[2]);
    RunMark(t, h[0]);
    assert EatByte(u, h[0]) == u.(header := [h[0]]);
    RunByte(u.(header := [h[0]]), h[1]);
    assert [h[0]] + [h[1]] == [h[0], h[1]];
    RunByte(u.(header := [h[0], h[1]]), h[2]);
    assert [h[0], h[1]] + [h[2]] == h;
  }

  lemma RunHeader(t: Tape, lead: seq<bit>, h: seq<byte>)
    requires Between(t) && LONG_PREAMBLE < |lead| && Quiet(lead, BLOCK_PREAMBLE)
    requires |h| == 3 && h[0] >= 128
    ensures Run(t, lead + ByteBits(h)) == Hunt(t.(records := t.records + 1, header := h))
  {
    hide Run, ByteBits;
    var t1 := t.(count := |lead|);
    RunGap(t, lead);
    RunConcat(t, lead, ByteBits(h));
    RunHeaderBytes(t1, Sight(t1), h);
  }

  lemma RunRecording(t: Tape, r: Recording)
    requires Between(t) && Framed(r)
    ensures var t' := Run(t, RecordingBits(r));
            && Between(t') && t'.records == t.records + 1
            && t'.out == t.out + Recovered(r.blocks)
            && t'.found == (t.found || Damaged(r.blocks))
  {
    hide Run, ByteBits, BlockBits;
    RunHeader(t, r.lead, r.header);
    RunConcat(t, r.lead + ByteBits(r.header), BlockBits(r.blocks));
    RunBlocks(Run(t, r.lead + ByteBits(r.header)), r.blocks);
  }

  function AllRecovered(rs: seq<Recording>): seq<byte>
    requires AllFramed(rs)
  {
    if rs == [] then []
    else
      assert Framed(rs[|rs| - 1]);
      AllRecovered(rs[..|rs| - 1]) + Recovered(rs[|rs| - 1].blocks)
  }

  predicate AnyDamaged(rs: seq<Recording>)
    requires AllFramed(rs)
  {
    if rs == [] then false
    else
      assert Framed(rs[|rs| - 1]);
      AnyDamaged(rs[..|rs| - 1]) || Damaged(rs[|rs| - 1].blocks)
  }

  ghost predicate AllFramed(rs: seq<Recording>) {
    forall i :: 0 <= i < |rs| ==> Framed(rs[i])
  }

  /** Any number of framed recordings, one after the other, decode to the concatenation of
      the chosen copies; errors are reported exactly when some block was damaged. */
  lemma {:induction false} DecodeTape(t: Tape, rs: seq<Recording>)
    requires Between(t) && AllFramed(rs)
    ensures var t' := Run(t, TapeBits(rs));
            && Between(t') && t'.records == t.records + |rs|
            && t'.out == t.out + AllRecovered(rs)
            && t'.found == (t.found || AnyDamaged(rs))
  {
    hide Run, RecordingBits, Recovered, Damaged;
    RunNone(t);
    if rs != [] {
      var qs, last := rs[..|rs| - 1], rs[|rs| - 1];
      DecodeTape(t, qs);
      RunConcat(t, TapeBits(qs), RecordingBits(last));
      assert Framed(last);
      RunRecording(Run(t, TapeBits(qs)), last);
    }
  }
}
