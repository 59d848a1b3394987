/** The cassette encoder, and the round trip through modulator, ideal demodulator and decoder. */
module TapeEncoder {
  import opened Bytes
  import opened Cassette
  import opened TapeDecoder
  import opened TapeFraming

  const PREAMBLE_BYTES: nat := 768
  const MAX_PROGRAM_SIZE: nat := 0x4000

  /** Blocks announced for a file of some size. */
  function BlockCount(size: nat): nat {
    (size + 1) / BLOCK_SIZE
  }

  function CleanBytes(d: seq<byte>): (c: seq<byte>)
    requires |d| == BLOCK_SIZE
    ensures |c| == COPY_SIZE
  {
    [255] + d + [Sum(d) % 256]
  }

  function CleanCopy(d: seq<byte>): Copy
    requires |d| == BLOCK_SIZE
  {
    Copy(Zeros(64), CleanBytes(d))
  }

  function CleanBlock(d: seq<byte>): Block
    requires |d| == BLOCK_SIZE
  {
    Block(CleanCopy(d), CleanCopy(d))
  }

  function BlocksOf(data: seq<byte>): (bs: seq<Block>)
    requires |data| % BLOCK_SIZE == 0
    ensures |bs| == |data| / BLOCK_SIZE
  {
    if data == [] then []
    else BlocksOf(data[..|data| - BLOCK_SIZE]) + [CleanBlock(data[|data| - BLOCK_SIZE..])]
  }

  function HeaderOf(n: nat): seq<byte> {
    [255, n % 256, n % 256]
  }

  /** A recording of data, its long preamble lengthened by what was left on the tape before. */
  function RecordingOf(data: seq<byte>, before: nat): Recording
    requires |data| % BLOCK_SIZE == 0
  {
    Recording(Zeros(before + 8 * PREAMBLE_BYTES), HeaderOf(|data| / BLOCK_SIZE), BlocksOf(data))
  }

  // ----- the writer

  ghost predicate Idle(c: Cassette)
    reads c
  {
    c.Valid() && c.modulationNext == Last(c.levels)
  }

  lemma CellsOne(levels: seq<bit>, b: bit)
    ensures var h := 1 - Last(levels);
            Cells(levels, [b]) == levels + [h, if b == 1 then 1 - h else h]
  {
    assert [b][..0] == [];
    assert Cells(levels, []) == levels;
  }

  method OutputByte(c: Cassette, b: byte)
    requires Idle(c)
    modifies c
    ensures Idle(c) && c.levels == Cells(old(c.levels), BitsOf(b, 8))
    ensures c.elapsed == old(c.elapsed) + 16 * HALF_CELL
  {
    hide BitsOf, Register, Plays, Samples, Exact, Cells;
    ghost var was, bits := c.levels, BitsOf(b, 8);
    assert c.levels == Cells(was, bits[..0]) by { CellsNone(was); }
    var i := 8;
    while i > 0
      invariant 0 <= i <= 8 && Idle(c)
      invariant c.levels == Cells(was, bits[..8 - i]) && c.elapsed == old(c.elapsed) + 2 * (8 - i) * HALF_CELL
    {
      i := i - 1;
      ghost var before := c.levels;
      c.ModulationToggle();
      c.TimerExpired(HALF_CELL);
      if TestBit(b, i) == 1 {
        c.ModulationToggle();
      }
      c.TimerExpired(HALF_CELL);
      BitAt(b, 8, 7 - i);
      CellsOne(before, bits[7 - i]);
      assert bits[..8 - i] == bits[..7 - i] + [bits[7 - i]];
      CellsConcat(was, bits[..7 - i], [bits[7 - i]]);
      assert c.levels == before + [c.levels[|before|], c.levels[|before| + 1]];
    }
    assert bits[..8] == bits;
  }

  lemma CellsNone(levels: seq<bit>)
    ensures Cells(levels, []) == levels
  {
  }

  lemma ZeroByte()
    ensures BitsOf(0, 8) == Zeros(8)
  {
    assert BitsOf(0, 4) == Zeros(4);
    assert BitsOf(0, 8) == BitsOf(0, 4) + Zeros(4) by {
      assert BitsOf(0, 5) == BitsOf(0, 4) + [0];
      assert BitsOf(0, 6) == BitsOf(0, 5) + [0];
      assert BitsOf(0, 7) == BitsOf(0, 6) + [0];
      assert BitsOf(0, 8) == BitsOf(0, 7) + [0];
    }
  }

  method OutputZeros(c: Cassette, n: nat)
    requires Idle(c)
    modifies c
    ensures Idle(c) && c.levels == Cells(old(c.levels), Zeros(8 * n))
    ensures c.elapsed == old(c.elapsed) + 16 * n * HALF_CELL
  {
    hide BitsOf, Register, Plays, Samples, Exact, Cells;
    ghost var was := c.levels;
    CellsNone(was);
    assert Zeros(8 * 0) == [];
    for i := 0 to n
      invariant Idle(c) && c.levels == Cells(was, Zeros(8 * i)) && c.elapsed == old(c.elapsed) + 16 * i * HALF_CELL
    {
      OutputByte(c, 0);
      ZeroByte();
      CellsConcat(was, Zeros(8 * i), Zeros(8));
      assert Zeros(8 * i) + Zeros(8) == Zeros(8 * (i + 1));
    }
  }

  lemma CellsByte(levels: seq<bit>, s: seq<byte>, b: byte)
    ensures Cells(Cells(levels, ByteBits(s)), BitsOf(b, 8)) == Cells(levels, ByteBits(s + [b]))
  {
    hide Cells, BitsOf;
    CellsConcat(levels, ByteBits(s), BitsOf(b, 8));
    assert (s + [b])[..|s|] == s;
  }

  lemma SumNone()
    ensures Sum([]) == 0
  {
  }

  method OutputBlock(c: Cassette, data: seq<byte>)
    requires Idle(c) && |data| == BLOCK_SIZE
    modifies c
    ensures Idle(c) && c.levels == Cells(old(c.levels), CopyBits(CleanCopy(data)))
    ensures c.elapsed == old(c.elapsed) + 16 * (8 + COPY_SIZE) * HALF_CELL
  {
    hide BitsOf, Register, Plays, Samples, Exact, Cells, ByteBits, Sum;
    ghost var was := c.levels;
    OutputZeros(c, 8);
    ghost var lead := c.levels;
    assert ByteBits([]) == [] by { assert |ByteBits([])| == 0; }
    CellsNone(lead);
    OutputByte(c, 0xFF);
    CellsByte(lead, [], 0xFF);
    assert [] + [0xFF as byte] == [255] == [255] + data[..0];
    var sum: nat := 0;
    assert data[..0] == [];
    SumNone();
    for i := 0 to BLOCK_SIZE
      invariant Idle(c) && c.levels == Cells(lead, ByteBits([255] + data[..i]))
      invariant sum == Sum(data[..i]) % 256 && c.elapsed == old(c.elapsed) + 16 * (9 + i) * HALF_CELL
    {
      OutputByte(c, data[i]);
      CellsByte(lead, [255] + data[..i], data[i]);
      assert [255] + data[..i] + [data[i]] == [255] + data[..i + 1];
      SumSnoc(data, i);
      sum := (sum + data[i]) % 256;
    }
    assert data[..BLOCK_SIZE] == data;
    OutputByte(c, sum);
    CellsByte(lead, [255] + data, sum);
    CellsConcat(was, Zeros(64), ByteBits(CleanBytes(data)));
  }

  /** How long a recording of n blocks plays, at two half-cells a bit. */
  function RecordingTime(n: nat): nat {
    16 * (PREAMBLE_BYTES + 3 + 2 * (8 + COPY_SIZE) * n) * HALF_CELL
  }

  lemma SamplesKept(c: Cassette)
    requires c.Valid()
    ensures Samples(c.played) == SAMPLE_RATE * c.elapsed / NANOSECONDS
  {
    hide Exact, Plays, Samples, Register;
    DriftFree(Samples(c.played), c.sampleCount, c.elapsed);
  }

  /** The buffer must hold every announced block: with a size of 64k + 63 the source reads one
      byte beyond the file. */
  method OutputWav(c: Cassette, input: seq<byte>, inputSize: nat)
    requires Idle(c) && BLOCK_SIZE * BlockCount(inputSize) <= |input|
    modifies c
    ensures Idle(c)
    ensures c.levels == Cells(old(c.levels), RecordingBits(RecordingOf(input[..BLOCK_SIZE * BlockCount(inputSize)], 0)))
    ensures c.elapsed == old(c.elapsed) + RecordingTime(BlockCount(inputSize))
    ensures Samples(c.played) == SAMPLE_RATE * c.elapsed / NANOSECONDS
  {
    hide BitsOf, Register, Plays, Samples, Exact, Cells, ByteBits, Sum, BlocksOf, BlockBits, CopyBits, CleanCopy;
    ghost var was := c.levels;
    var n := BlockCount(inputSize);
    OutputZeros(c, PREAMBLE_BYTES);
    ghost var lead := Zeros(8 * PREAMBLE_BYTES);
    OutputHeader(c, n);
    CellsConcat(was, lead, ByteBits(HeaderOf(n)));
    ghost var start := lead + ByteBits(HeaderOf(n));
    CellsNone(c.levels);
    NoBlocks();
    for i := 0 to n
      invariant Idle(c) && BLOCK_SIZE * i <= |input|
      invariant c.levels == Cells(Cells(was, start), BlockBits(BlocksOf(input[..BLOCK_SIZE * i])))
      invariant c.elapsed == old(c.elapsed) + RecordingTime(i)
    {
      var data := input[BLOCK_SIZE * i..BLOCK_SIZE * i + BLOCK_SIZE];
      OutputBlock(c, data);
      OutputBlock(c, data);
      BlockWritten(Cells(was, start), input, i);
    }
    CellsConcat(was, start, BlockBits(BlocksOf(input[..BLOCK_SIZE * n])));
    SamplesKept(c);
  }

  lemma NoBlocks()
    ensures BlockBits(BlocksOf([])) == []
  {
  }

  lemma BlockWritten(levels: seq<bit>, input: seq<byte>, i: nat)
    requires BLOCK_SIZE * (i + 1) <= |input|
    ensures var x := CopyBits(CleanCopy(input[BLOCK_SIZE * i..BLOCK_SIZE * i + BLOCK_SIZE]));
            Cells(Cells(Cells(levels, BlockBits(BlocksOf(input[..BLOCK_SIZE * i]))), x), x)
            == Cells(levels, BlockBits(BlocksOf(input[..BLOCK_SIZE * (i + 1)])))
  {
    hide Cells, CopyBits, BlockBits, BlocksOf, CleanCopy;
    var x := CopyBits(CleanCopy(input[BLOCK_SIZE * i..BLOCK_SIZE * i + BLOCK_SIZE]));
    var bits := BlockBits(BlocksOf(input[..BLOCK_SIZE * i]));
    CellsConcat(Cells(levels, bits), x, x);
    NextBlock(input, i);
    CellsConcat(levels, bits, x + x);
  }

  lemma NextBlock(input: seq<byte>, i: nat)
    requires BLOCK_SIZE * (i + 1) <= |input|
    ensures var x := CopyBits(CleanCopy(input[BLOCK_SIZE * i..BLOCK_SIZE * i + BLOCK_SIZE]));
            BlockBits(BlocksOf(input[..BLOCK_SIZE * (i + 1)])) == BlockBits(BlocksOf(input[..BLOCK_SIZE * i])) + (x + x)
  {
    hide CopyBits, CleanBytes, BlockBits;
    var d := input[..BLOCK_SIZE * (i + 1)];
    var data := input[BLOCK_SIZE * i..BLOCK_SIZE * i + BLOCK_SIZE];
    assert d[..|d| - BLOCK_SIZE] == input[..BLOCK_SIZE * i];
    assert d[|d| - BLOCK_SIZE..] == data;
    BlockBitsNext(BlocksOf(input[..BLOCK_SIZE * i]), CleanBlock(data));
  }

  lemma BlockBitsNext(bs: seq<Block>, b: Block)
    ensures BlockBits(bs + [b]) == BlockBits(bs) + (CopyBits(b.a) + CopyBits(b.b))
  {
    hide CopyBits;
    assert (bs + [b])[..|bs|] == bs;
  }

  method OutputHeader(c: Cassette, n: nat)
    requires Idle(c)
    modifies c
    ensures Idle(c) && c.levels == Cells(old(c.levels), ByteBits(HeaderOf(n)))
    ensures c.elapsed == old(c.elapsed) + 48 * HALF_CELL
  {
    hide BitsOf, Register, Plays, Samples, Exact, Cells, ByteBits;
    ghost var was := c.levels;
    assert |ByteBits([])| == 0;
    CellsNone(was);
    OutputByte(c, 0xFF);
    CellsByte(was, [], 0xFF);
    assert [] + [0xFF as byte] == [255];
    OutputByte(c, n % 256);
    CellsByte(was, [255], n % 256);
    assert [255 as byte] + [n % 256] == [255, n % 256];
    OutputByte(c, n % 256);
    CellsByte(was, [255, n % 256], n % 256);
    assert [255 as byte, n % 256] + [n % 256] == HeaderOf(n);
  }

  /** Eight more zero cells push the pending half-cells out of the register. */
  method FileCloseWrite(c: Cassette)
    requires Idle(c)
    modifies c
    ensures Idle(c) && c.levels == Cells(old(c.levels), Zeros(8))
    ensures c.elapsed == old(c.elapsed) + 16 * DRIBBLE
    ensures Samples(c.played) == SAMPLE_RATE * c.elapsed / NANOSECONDS
  {
    hide BitsOf, Register, Plays, Samples, Exact, Cells;
    ghost var was := c.levels;
    CellsNone(was);
    assert Zeros(0) == [];
    for i := 0 to 8
      invariant Idle(c) && c.levels == Cells(was, Zeros(i)) && c.elapsed == old(c.elapsed) + 2 * i * DRIBBLE
    {
      ghost var before := c.levels;
      c.ModulationToggle();
      c.TimerExpired(DRIBBLE);
      c.TimerExpired(DRIBBLE);
      CellsOne(before, 0);
      CellsConcat(was, Zeros(i), [0]);
      assert Zeros(i) + [0] == Zeros(i + 1);
      assert c.levels == before + [c.levels[|before|], c.levels[|before| + 1]];
    }
    SamplesKept(c);
  }
}
