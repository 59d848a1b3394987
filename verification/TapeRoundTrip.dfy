/** From data to samples and back: clean tapes, damaged tapes, several recordings in a row. */
module TapeRoundTrip {
  import opened Bytes
  import opened Cassette
  import opened TapeDecoder
  import opened TapeFraming
  import opened TapeEncoder

  const Start: Tape := Tape(true, 0, 3000, [], [], [], None, [], 0, false, false)

  // ----- the data kept of one input

  /** A buffer and the size the encoder is told. */
  datatype Input = Input(buffer: seq<byte>, size: nat)

  ghost predicate Readable(i: Input) {
    i.size <= |i.buffer| && BLOCK_SIZE * BlockCount(i.size) <= |i.buffer|
  }

  function Kept(i: Input): (d: seq<byte>)
    requires Readable(i)
    ensures |d| % BLOCK_SIZE == 0 && |d| / BLOCK_SIZE == BlockCount(i.size)
  {
    i.buffer[..BLOCK_SIZE * BlockCount(i.size)]
  }

  /** Exactly the whole-block files survive; others lose their tail or gain one byte. */
  lemma KeptAll(i: Input)
    requires Readable(i)
    ensures Kept(i) == i.buffer[..i.size] <==> i.size % BLOCK_SIZE == 0
  {
    if i.size % BLOCK_SIZE == 0 {
      assert BLOCK_SIZE * BlockCount(i.size) == i.size;
    } else {
      assert |Kept(i)| != |i.buffer[..i.size]|;
    }
  }

  // ----- clean and damaged copies

  lemma CleanIsGood(d: seq<byte>)
    requires |d| == BLOCK_SIZE
    ensures Data(CleanBytes(d)) == d && GoodSum(CleanBytes(d))
    ensures !Noticed(CleanBytes(d), CleanBytes(d))
  {
    hide Sum;
  }

  lemma {:induction false} SumUpdate(s: seq<byte>, i: nat, x: byte)
    requires i < |s|
    ensures Sum(s[i := x]) == Sum(s) - s[i] + x
  {
    var n := |s| - 1;
    if i < n {
      SumUpdate(s[..n], i, x);
      assert s[i := x][..n] == s[..n][i := x];
    } else {
      assert s[i := x][..n] == s[..n];
    }
  }

  /** Changing any one data or checksum byte of a good copy always breaks its sum. */
  lemma SingleByteBreaksSum(c: seq<byte>, i: nat, x: byte)
    requires |c| == COPY_SIZE && GoodSum(c) && 1 <= i < COPY_SIZE && x != c[i]
    ensures !GoodSum(c[i := x])
  {
    var c' := c[i := x];
    if i < 65 {
      assert Data(c') == Data(c)[i - 1 := x];
      SumUpdate(Data(c), i - 1, x);
    } else {
      assert Data(c') == Data(c);
    }
  }

  /** With one clean copy the block comes out right exactly when the first copy still holds the
      data or can be told to be bad; damage to the second copy is always harmless. */
  lemma OneCleanCopy(d: seq<byte>, x: seq<byte>)
    requires |d| == BLOCK_SIZE && |x| == COPY_SIZE
    ensures Chosen(x, CleanBytes(d)) == d <==> Data(x) == d || !GoodSum(x)
    ensures Chosen(CleanBytes(d), x) == d
  {
    CleanIsGood(d);
  }

  /** A received block from which d can be recovered. */
  ghost predicate Survives(d: seq<byte>, b: Block)
    requires |d| == BLOCK_SIZE
  {
    || b.a.bytes == CleanBytes(d)
    || (b.b.bytes == CleanBytes(d) && |b.a.bytes| == COPY_SIZE && (Data(b.a.bytes) == d || !GoodSum(b.a.bytes)))
  }

  lemma SurvivesChosen(d: seq<byte>, b: Block)
    requires |d| == BLOCK_SIZE && Survives(d, b) && FramedCopy(b.a) && FramedCopy(b.b)
    ensures Chosen(b.a.bytes, b.b.bytes) == d
  {
    hide Sum, GoodSum, Chosen, Data;
    OneCleanCopy(d, b.b.bytes);
    OneCleanCopy(d, b.a.bytes);
  }

  ghost predicate Survivors(data: seq<byte>, bs: seq<Block>) {
    if data == [] then bs == []
    else
      && |data| >= BLOCK_SIZE && bs != []
      && Survives(data[|data| - BLOCK_SIZE..], bs[|bs| - 1])
      && Survivors(data[..|data| - BLOCK_SIZE], bs[..|bs| - 1])
  }

  lemma {:induction false} RecoveredData(data: seq<byte>, bs: seq<Block>)
    requires FramedBlocks(bs) && Survivors(data, bs)
    ensures Recovered(bs) == data
  {
    hide Chosen, Survives, FramedCopy, Recovered;
    if data == [] {
      RecoveredNone();
    } else {
      var n := |data| - BLOCK_SIZE;
      var cs, last := bs[..|bs| - 1], bs[|bs| - 1];
      RecoveredData(data[..n], cs);
      SurvivesChosen(data[n..], last);
      RecoveredNext(cs, last);
      assert bs == cs + [last];
    }
  }

  lemma RecoveredNone()
    ensures Recovered([]) == []
  {
  }

  lemma RecoveredNext(bs: seq<Block>, b: Block)
    requires FramedBlocks(bs) && FramedCopy(b.a) && FramedCopy(b.b)
    ensures Recovered(bs + [b]) == Recovered(bs) + Chosen(b.a.bytes, b.b.bytes)
  {
    hide Chosen;
    assert (bs + [b])[..|bs|] == bs;
  }

  function Concat(ds: seq<seq<byte>>): seq<byte> {
    if ds == [] then [] else Concat(ds[..|ds| - 1]) + ds[|ds| - 1]
  }

  ghost predicate TapeOf(rs: seq<Recording>, ds: seq<seq<byte>>) {
    && AllFramed(rs) && |rs| == |ds|
    && forall i :: 0 <= i < |rs| ==> Survivors(ds[i], rs[i].blocks)
  }

  lemma {:induction false} AllRecoveredData(rs: seq<Recording>, ds: seq<seq<byte>>)
    requires TapeOf(rs, ds)
    ensures AllRecovered(rs) == Concat(ds)
  {
    if rs != [] {
      hide Survivors, Recovered;
      AllRecoveredData(rs[..|rs| - 1], ds[..|ds| - 1]);
      assert Framed(rs[|rs| - 1]);
      RecoveredData(ds[|ds| - 1], rs[|rs| - 1].blocks);
    }
  }

  /** Repair: every recording comes back byte for byte, though each block may have had one copy
      damaged and every preamble may be noisy, as long as the framing holds. */
  lemma DamagedTape(rs: seq<Recording>, ds: seq<seq<byte>>, trail: nat)
    requires TapeOf(rs, ds) && trail <= LONG_PREAMBLE
    ensures Run(Start, TapeBits(rs) + Zeros(trail)).out == Concat(ds)
    ensures Run(Start, TapeBits(rs) + Zeros(trail)).records == |rs|
    ensures Run(Start, TapeBits(rs) + Zeros(trail)).found == AnyDamaged(rs)
  {
    hide Run, TapeBits, Survivors, Recovered, AllRecovered, AnyDamaged;
    DecodeTape(Start, rs);
    var t := Run(Start, TapeBits(rs));
    RunConcat(Start, TapeBits(rs), Zeros(trail));
    RunGap(t, Zeros(trail));
    AllRecoveredData(rs, ds);
    assert [] + Concat(ds) == Concat(ds);
  }

  // ----- what the encoder itself writes

  lemma {:induction false} CleanBlocks(data: seq<byte>)
    requires |data| % BLOCK_SIZE == 0
    ensures var bs := BlocksOf(data);
            FramedBlocks(bs) && Survivors(data, bs) && !Damaged(bs)
  {
    hide Noticed, Sum, GoodSum, CleanBytes;
    if data == [] {
      NothingDamaged();
    } else {
      var d := data[|data| - BLOCK_SIZE..];
      var front := data[..|data| - BLOCK_SIZE];
      var cs := BlocksOf(front);
      CleanBlocks(front);
      CleanIsGood(d);
      CleanFramed(d);
      var bs := BlocksOf(data);
      assert bs == cs + [CleanBlock(d)] && bs[..|bs| - 1] == cs;
      assert FramedBlocks(bs);
      DamagedSnoc(bs);
    }
  }

  lemma CleanFramed(d: seq<byte>)
    requires |d| == BLOCK_SIZE
    ensures FramedCopy(CleanCopy(d))
  {
    hide Sum;
  }

  function Session(inputs: seq<Input>): (rs: seq<Recording>)
    requires AllReadable(inputs)
    ensures |rs| == |inputs|
  {
    if inputs == [] then []
    else
      assert Readable(inputs[|inputs| - 1]);
      Session(inputs[..|inputs| - 1]) + [RecordingOf(Kept(inputs[|inputs| - 1]), if |inputs| == 1 then 0 else 8)]
  }

  ghost predicate AllReadable(inputs: seq<Input>) {
    forall i :: 0 <= i < |inputs| ==> Readable(inputs[i])
  }

  function AllKept(inputs: seq<Input>): (ds: seq<seq<byte>>)
    requires AllReadable(inputs)
    ensures |ds| == |inputs|
  {
    if inputs == [] then []
    else
      assert Readable(inputs[|inputs| - 1]);
      AllKept(inputs[..|inputs| - 1]) + [Kept(inputs[|inputs| - 1])]
  }

  lemma CleanRecording(data: seq<byte>, before: nat)
    requires |data| % BLOCK_SIZE == 0
    ensures var r := RecordingOf(data, before);
            Framed(r) && Survivors(data, r.blocks) && !Damaged(r.blocks)
  {
    hide BlocksOf, Survivors, Damaged;
    CleanBlocks(data);
  }

  lemma {:induction false} CleanSession(inputs: seq<Input>)
    requires AllReadable(inputs)
    ensures TapeOf(Session(inputs), AllKept(inputs)) && !AnyDamaged(Session(inputs))
  {
    hide Framed, RecordingOf, Survivors, Damaged, Readable;
    if inputs != [] {
      var last := inputs[|inputs| - 1];
      assert Readable(last);
      CleanSession(inputs[..|inputs| - 1]);
      CleanRecording(Kept(last), if |inputs| == 1 then 0 else 8);
      var rs, ds := Session(inputs), AllKept(inputs);
      assert rs[..|rs| - 1] == Session(inputs[..|inputs| - 1]);
      assert ds[..|ds| - 1] == AllKept(inputs[..|inputs| - 1]);
      assert AllFramed(rs);
    }
  }

  /** Everything written while recording the inputs one after the other. */
  function SessionBits(inputs: seq<Input>): seq<bit>
    requires AllReadable(inputs)
  {
    TapeBits(Session(inputs)) + if inputs == [] then [] else Zeros(8)
  }

  /** The end-to-end law: what is heard on the tape decodes to the inputs' whole blocks, in
      order, one record each, and no error is reported. */
  lemma SessionRoundTrip(played: seq<Segment>, inputs: seq<Input>)
    requires inputs != [] && AllReadable(inputs)
    requires Plays(played, Cells([], SessionBits(inputs)))
    ensures var t := Run(Start, Demodulate(played));
            && t.out == Concat(AllKept(inputs))
            && t.records == |inputs| && !t.found
  {
    hide Run, TapeBits, Cells, Plays, Demodulate, Session, AllKept, TapeOf, AnyDamaged;
    var rs := Session(inputs);
    var bits := SessionBits(inputs);
    DemodulateCells(played, bits);
    assert bits[..|bits| - 1] == TapeBits(rs) + Zeros(7);
    CleanSession(inputs);
    DamagedTape(rs, AllKept(inputs), 7);
  }

  // ----- the same, executed

  lemma NextRecording(inputs: seq<Input>, k: nat)
    requires AllReadable(inputs) && k < |inputs|
    ensures AllReadable(inputs[..k]) && AllReadable(inputs[..k + 1])
    ensures SessionBits(inputs[..k]) + RecordingBits(RecordingOf(Kept(inputs[k]), 0)) + Zeros(8)
         == SessionBits(inputs[..k + 1])
  {
    hide BlocksOf, BlockBits, ByteBits;
    var was, now := inputs[..k], inputs[..k + 1];
    assert now[..k] == was;
    assert Session(now)[..k] == Session(was);
    var before := if k == 0 then 0 else 8;
    var r0, r1 := RecordingOf(Kept(inputs[k]), 0), RecordingOf(Kept(inputs[k]), before);
    assert Zeros(before) + r0.lead == r1.lead;
    assert Zeros(before) + RecordingBits(r0) == RecordingBits(r1);
    if k > 0 {
      assert SessionBits(was) + RecordingBits(r0) == TapeBits(Session(was)) + (Zeros(8) + RecordingBits(r0));
    } else {
      assert SessionBits(was) == [] && TapeBits(Session(was)) == [];
    }
  }

  /** How long a session plays, each recording with its closing dribble. */
  function SessionTime(inputs: seq<Input>): nat {
    if inputs == [] then 0
    else SessionTime(inputs[..|inputs| - 1]) + RecordingTime(BlockCount(inputs[|inputs| - 1].size)) + 16 * DRIBBLE
  }

  method RecordAll(inputs: seq<Input>) returns (c: Cassette)
    requires AllReadable(inputs)
    ensures Idle(c) && fresh(c) && c.levels == Cells([], SessionBits(inputs))
    ensures Samples(c.played) == SAMPLE_RATE * SessionTime(inputs) / NANOSECONDS
  {
    hide Cells, Plays, Samples, Exact, Register, SessionBits, RecordingBits;
    c := new Cassette();
    assert inputs[..0] == [];
    NoSession();
    for k := 0 to |inputs|
      invariant Idle(c) && fresh(c) && AllReadable(inputs[..k])
      invariant c.levels == Cells([], SessionBits(inputs[..k])) && c.elapsed == SessionTime(inputs[..k])
    {
      ghost var s := SessionBits(inputs[..k]);
      ghost var r := RecordingBits(RecordingOf(Kept(inputs[k]), 0));
      OutputWav(c, inputs[k].buffer, inputs[k].size);
      FileCloseWrite(c);
      CellsConcat([], s, r);
      CellsConcat([], s + r, Zeros(8));
      NextRecording(inputs, k);
      assert inputs[..k + 1][..k] == inputs[..k];
    }
    SamplesKept(c);
    assert inputs[..|inputs|] == inputs;
  }

  lemma NoSession()
    ensures Cells([], SessionBits([])) == []
  {
  }

  method RecordAndExtract(inputs: seq<Input>) returns (t: TapeDecode)
    requires inputs != [] && AllReadable(inputs)
    requires |Concat(AllKept(inputs))| <= MAX_PROGRAM_SIZE
    ensures fresh(t) && t.Valid()
    ensures t.blockCount * BLOCK_SIZE <= t.file.Length
    ensures t.file[..t.blockCount * BLOCK_SIZE] == Concat(AllKept(inputs))
    ensures t.recordCount == |inputs| && !t.errorsFound
  {
    hide Cells, Plays, Samples, Exact, Register, SessionBits, Run, AllKept, Concat;
    var c := RecordAll(inputs);
    var bits := Demodulate(c.played);
    SessionRoundTrip(c.played, inputs);
    t := new TapeDecode(MAX_PROGRAM_SIZE);
    assert t.model == Start;
    t.Feed(bits);
    assert t.file[..t.blockCount * BLOCK_SIZE] == t.model.out;
  }
}
