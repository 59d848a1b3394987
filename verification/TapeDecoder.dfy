/** The bit-serial cassette decoder: what one bit does, as an abstract machine and as the
    class whose fields it updates. */
module TapeDecoder {
  import opened Bytes

  const COPY_SIZE: nat := 66     // mark, 64 data bytes, checksum
  const BLOCK_SIZE: nat := 64
  const LONG_PREAMBLE: nat := 3072
  const BLOCK_PREAMBLE: nat := 40

  /** Abstract decoder state: whole strings in place of the counters that index buffers.
      A header of three bytes means that blocks are being read. */
  datatype Tape = Tape(
    hunting: bool, count: nat, expected: nat,
    bits: seq<bit>, header: seq<byte>, block: seq<byte>, first: Option<seq<byte>>,
    out: seq<byte>, records: nat, found: bool, unfixable: bool)

  ghost predicate Wf(t: Tape) {
    && |t.bits| < 8 && |t.header| <= 3 && |t.block| < COPY_SIZE
    && (t.first.Some? ==> |t.first.value| == COPY_SIZE)
    && |t.out| % BLOCK_SIZE == 0
  }

  function Data(copy: seq<byte>): (d: seq<byte>)
    requires |copy| == COPY_SIZE
    ensures |d| == BLOCK_SIZE
  {
    copy[1..65]
  }

  predicate GoodSum(copy: seq<byte>)
    requires |copy| == COPY_SIZE
  {
    Sum(Data(copy)) % 256 == copy[65]
  }

  /** The data kept of a block received twice. */
  function Chosen(a: seq<byte>, b: seq<byte>): (d: seq<byte>)
    requires |a| == COPY_SIZE && |b| == COPY_SIZE
    ensures |d| == BLOCK_SIZE
  {
    if !GoodSum(a) && GoodSum(b) then Data(b) else Data(a)
  }

  predicate Noticed(a: seq<byte>, b: seq<byte>)
    requires |a| == COPY_SIZE && |b| == COPY_SIZE
  {
    a[0] != 255 || a != b || !GoodSum(a) || !GoodSum(b)
  }

  function Hunt(t: Tape): Tape {
    t.(hunting := true, count := 0, expected := BLOCK_PREAMBLE)
  }

  function EatByte(t: Tape, b: byte): (t': Tape)
    requires Wf(t)
    ensures Wf(t')
  {
    if |t.header| < 3 then
      var t1 := t.(header := t.header + [b]);
      if |t1.header| == 3 then Hunt(t1) else t1
    else if |t.block| + 1 < COPY_SIZE then
      t.(block := t.block + [b])
    else if t.first.None? then
      Hunt(t.(block := [], first := Some(t.block + [b])))
    else
      var c0, c1 := t.first.value, t.block + [b];
      Hunt(t.(block := [], first := None, out := t.out + Chosen(c0, c1),
              found := t.found || Noticed(c0, c1),
              unfixable := (!GoodSum(c0) && !GoodSum(c1)) || (c0[0] == 255 && t.unfixable)))
  }

  /** A one while hunting ends the preamble when it was long enough; otherwise it counts. */
  function Sight(t: Tape): Tape {
    var t1 := if t.count > LONG_PREAMBLE
              then t.(records := t.records + 1, header := if |t.header| == 3 then [] else t.header)
              else t;
    if t.count > t.expected then t1.(hunting := false) else t1
  }

  /** Off the preamble, eight bits make a byte. */
  function Shift(t: Tape, b: bit): (t': Tape)
    requires Wf(t)
    ensures Wf(t')
  {
    if |t.bits| < 7 then t.(bits := t.bits + [b])
    else
      assert Value(t.bits + [b]) < Pow2(8) == 256;
      EatByte(t.(bits := []), Value(t.bits + [b]))
  }

  function Step(t: Tape, b: bit): (t': Tape)
    requires Wf(t)
    ensures Wf(t')
  {
    var t1 := if b == 1 && t.hunting then Sight(t) else t;
    if t1.hunting then t1.(count := t1.count + 1) else Shift(t1, b)
  }

  function Run(t: Tape, s: seq<bit>): (t': Tape)
    requires Wf(t)
    ensures Wf(t')
  {
    if s == [] then t else Step(Run(t, s[..|s| - 1]), s[|s| - 1])
  }

  /** The decoder object. The output buffer is the file's data, MAX_PROGRAM_SIZE long. */
  class TapeDecode {
    var preambleSync: bool
    var preambleCount: nat
    var preambleBitsExpected: nat
    var currentByte: nat
    var bitCount: nat
    var haveHeader: bool
    var headerBytes: nat
    var blockBytes: nat
    var blockIndex: nat
    var blockCount: nat
    var recordCount: nat
    var errorsFound: bool
    var errorsUnfixable: bool
    const header: array<byte>
    const block: array<byte>
    const file: array<byte>
    ghost var model: Tape

    ghost predicate Shape()
      reads this
    {
      && header.Length == 3 && block.Length == 2 * COPY_SIZE
      && header != block && block != file && header != file
      && blockCount * BLOCK_SIZE <= file.Length
    }

    /** The abstract state read off the fields, apart from the block being received. */
    ghost predicate Tied(t: Tape)
      reads this, header, file
    {
      && Shape() && Wf(t)
      && t.hunting == preambleSync && t.count == preambleCount && t.expected == preambleBitsExpected
      && bitCount == |t.bits| && currentByte == Value(t.bits)
      && headerBytes == |t.header| && (haveHeader <==> headerBytes == 3)
      && (forall i :: 0 <= i < headerBytes ==> header[i] == t.header[i])
      && t.records == recordCount && t.found == errorsFound && t.unfixable == errorsUnfixable
      && blockCount * BLOCK_SIZE == |t.out|
      && (forall i :: 0 <= i < |t.out| ==> file[i] == t.out[i])
    }

    ghost predicate Valid()
      reads this, header, block, file
    {
      && Tied(model)
      && blockBytes == |model.block| && blockIndex == (if model.first.Some? then 1 else 0)
      && (forall i :: 0 <= i < blockBytes ==> block[blockIndex * COPY_SIZE + i] == model.block[i])
      && (model.first.Some? ==> forall i :: 0 <= i < COPY_SIZE ==> block[i] == model.first.value[i])
    }

    /** Static storage is zero; main then calls setPreamble and setPreambleBits(3000). */
    constructor (capacity: nat)
      ensures Valid() && fresh(header) && fresh(block) && fresh(file)
      ensures file.Length == capacity
      ensures model == Tape(true, 0, 3000, [], [], [], None, [], 0, false, false)
    {
      preambleSync, preambleCount, preambleBitsExpected := true, 0, 3000;
      currentByte, bitCount, haveHeader, headerBytes := 0, 0, false, 0;
      blockBytes, blockIndex, blockCount, recordCount := 0, 0, 0, 0;
      errorsFound, errorsUnfixable := false, false;
      header := new byte[3];
      block := new byte[2 * COPY_SIZE];
      file := new byte[capacity];
      model := Tape(true, 0, 3000, [], [], [], None, [], 0, false, false);
    }

    /** The byte sum of one received copy, in eight rows of eight as the source adds it. */
    method CopySum(base: nat) returns (sum: nat)
      requires base + COPY_SIZE <= block.Length
      ensures sum == Sum(Data(block[base..base + COPY_SIZE]))
    {
      ghost var c := block[base..base + COPY_SIZE];
      ghost var d := Data(c);
      sum := 0;
      for i := 0 to 8
        invariant sum == Sum(d[..8 * i])
      {
        for j := 0 to 8
          invariant sum == Sum(d[..8 * i + j])
        {
          SumSnoc(d, 8 * i + j);
          assert d[8 * i + j] == c[1 + (8 * i + j)] == block[base + (1 + (8 * i + j))];
          sum := sum + block[base + 1 + 8 * i + j];
        }
      }
      assert d[..64] == d;
    }

    /** Both copies are in: report, repair the first from the second if only it is bad. */
    method CheckCopies(ghost a: seq<byte>, ghost b: seq<byte>)
      requires Shape() && a == block[..COPY_SIZE] && b == block[COPY_SIZE..]
      modifies this`errorsFound, this`errorsUnfixable, block
      ensures forall i :: 0 <= i < BLOCK_SIZE ==> block[1 + i] == Chosen(a, b)[i]
      ensures errorsFound == (old(errorsFound) || Noticed(a, b))
      ensures errorsUnfixable == ((!GoodSum(a) && !GoodSum(b)) || (a[0] == 255 && old(errorsUnfixable)))
    {
      hide Sum;
      assert block[0..COPY_SIZE] == a && block[COPY_SIZE..COPY_SIZE + COPY_SIZE] == b;
      var sum1 := CopySum(0);
      var sum2 := CopySum(COPY_SIZE);
      if block[0] != 0xFF {
        errorsFound := true;
        errorsUnfixable := false;
      }
      if block[..COPY_SIZE] != block[COPY_SIZE..] {
        errorsFound := true;
      }
      var bad1 := sum1 % 256 != block[65];
      var bad2 := sum2 % 256 != block[COPY_SIZE + 65];
      assert bad1 == !GoodSum(a) && bad2 == !GoodSum(b);
      assert forall i :: 0 <= i < BLOCK_SIZE ==> block[1 + i] == Data(a)[i];
      forall i | 0 <= i < BLOCK_SIZE ensures block[COPY_SIZE + 1 + i] == Data(b)[i] {
        assert Data(b)[i] == b[1 + i] == block[COPY_SIZE + (1 + i)];
      }
      if bad1 && bad2 {
        errorsFound, errorsUnfixable := true, true;
      } else if bad1 {
        forall i | 0 <= i < BLOCK_SIZE { block[1 + i] := block[COPY_SIZE + 1 + i]; }
        errorsFound := true;
      } else if bad2 {
        errorsFound := true;
      }
    }

    method FinishBlock(ghost a: seq<byte>, ghost b: seq<byte>)
      requires Tied(model) && a == block[..COPY_SIZE] && b == block[COPY_SIZE..]
      requires (blockCount + 1) * BLOCK_SIZE <= file.Length
      modifies this`blockIndex, this`blockCount, this`errorsFound, this`errorsUnfixable, this`model, block, file
      ensures blockIndex == 0
      ensures model == old(model).(out := old(model).out + Chosen(a, b),
              found := old(model).found || Noticed(a, b),
              unfixable := (!GoodSum(a) && !GoodSum(b)) || (a[0] == 255 && old(model).unfixable))
      ensures Tied(model)
    {
      hide Sum, Value, Chosen, Noticed, GoodSum;
      CheckCopies(a, b);
      ghost var kept := Chosen(a, b);
      CopyOut();
      ghost var was := model.out;
      ghost var put := file[old(blockCount) * BLOCK_SIZE..blockCount * BLOCK_SIZE];
      forall j | |was| <= j < |was| + BLOCK_SIZE ensures file[j] == (was + kept)[j] {
        var i := j - |was|;
        assert put[i] == block[1..65][i] == block[1 + i] == kept[i];
      }
      model := model.(out := was + kept, found := errorsFound, unfixable := errorsUnfixable);
      blockIndex := 0;
    }

    /** memcpy of the kept data to its place in the file. */
    method CopyOut()
      requires Shape() && (blockCount + 1) * BLOCK_SIZE <= file.Length
      modifies this`blockCount, file
      ensures Shape() && blockCount == old(blockCount) + 1
      ensures forall i :: 0 <= i < old(blockCount) * BLOCK_SIZE ==> file[i] == old(file[i])
      ensures file[old(blockCount) * BLOCK_SIZE..blockCount * BLOCK_SIZE] == block[1..65]
    {
      forall i | 0 <= i < BLOCK_SIZE { file[blockCount * BLOCK_SIZE + i] := block[1 + i]; }
      blockCount := blockCount + 1;
    }

    method TakeHeaderByte(b: byte)
      requires Valid() && model.bits == [] && !haveHeader
      modifies this, header
      ensures Valid() && model == EatByte(old(model), b)
    {
      hide Value, Chosen, Noticed, GoodSum;
      header[headerBytes] := b;
      headerBytes := headerBytes + 1;
      if headerBytes == 3 {
        haveHeader, preambleSync, preambleCount, preambleBitsExpected := true, true, 0, 40;
      }
      model := EatByte(model, b);
    }

    method TakeBlockByte(b: byte)
      requires Valid() && model.bits == [] && haveHeader
      requires |EatByte(model, b).out| <= file.Length
      modifies this, block, file
      ensures Valid() && model == EatByte(old(model), b)
    {
      hide Value, Chosen, Noticed, GoodSum;
      block[blockIndex * COPY_SIZE + blockBytes] := b;
      blockBytes := blockBytes + 1;
      if blockBytes == COPY_SIZE {
        EndCopy(b);
      } else {
        model := EatByte(model, b);
      }
    }

    method EndCopy(ghost b: byte)
      requires Tied(model) && blockBytes == COPY_SIZE == |model.block| + 1
      requires model.bits == [] && haveHeader
      requires blockIndex == (if model.first.Some? then 1 else 0)
      requires forall i :: 0 <= i < COPY_SIZE ==> block[blockIndex * COPY_SIZE + i] == (model.block + [b])[i]
      requires model.first.Some? ==> forall i :: 0 <= i < COPY_SIZE ==> block[i] == model.first.value[i]
      requires |EatByte(model, b).out| <= file.Length
      modifies this, block, file
      ensures Valid() && model == EatByte(old(model), b)
    {
      hide Value, Chosen, Noticed, GoodSum;
      ghost var copy := model.block + [b];
      blockIndex := blockIndex + 1;
      blockBytes := 0;
      preambleSync, preambleCount, preambleBitsExpected := true, 0, 40;
      if blockIndex == 2 {
        ghost var c0 := model.first.value;
        model := Hunt(model.(block := [], first := None));
        assert block[..COPY_SIZE] == c0 && block[COPY_SIZE..] == copy;
        FinishBlock(c0, copy);
      } else {
        model := Hunt(model.(block := [], first := Some(copy)));
      }
    }

    method DecodeBlock(b: byte)
      requires Valid() && model.bits == []
      requires |EatByte(model, b).out| <= file.Length
      modifies this, header, block, file
      ensures Valid() && model == EatByte(old(model), b)
    {
      if !haveHeader {
        TakeHeaderByte(b);
      } else {
        TakeBlockByte(b);
      }
    }

    /** A one bit seen while hunting for the end of a preamble. */
    method NoticeOne()
      requires Valid()
      modifies this`recordCount, this`haveHeader, this`headerBytes, this`preambleSync, this`model
      ensures Valid() && model == Sight(old(model))
    {
      hide Value, EatByte;
      if preambleCount > 3072 {
        recordCount := recordCount + 1;
        if haveHeader {
          haveHeader := false;
          headerBytes := 0;
        }
      }
      if preambleCount > preambleBitsExpected {
        preambleSync := false;
      }
      model := Sight(model);
    }

    method DecodeBit(b: bit)
      requires Valid()
      requires |Step(model, b).out| <= file.Length
      modifies this, header, block, file
      ensures Valid() && model == Step(old(model), b)
    {
      hide Value, EatByte;
      if b == 1 && preambleSync {
        NoticeOne();
      }
      if preambleSync {
        preambleCount := preambleCount + 1;
        model := model.(count := model.count + 1);
        return;
      }
      ShiftIn(b);
    }

    method ShiftIn(b: bit)
      requires Valid() && !preambleSync
      requires |Shift(model, b).out| <= file.Length
      modifies this, header, block, file
      ensures Valid() && model == Shift(old(model), b)
    {
      hide EatByte;
      ghost var bits := model.bits + [b];
      assert bits[..|bits| - 1] == model.bits;
      currentByte := 2 * currentByte + b;
      bitCount := bitCount + 1;
      if bitCount == 8 {
        var c := currentByte;
        assert c < Pow2(8) == 256;
        currentByte, bitCount := 0, 0;
        model := model.(bits := []);
        DecodeBlock(c);
      } else {
        model := model.(bits := bits);
      }
    }

    /** inputWav with the bits already carved out of the samples. The only demand is that the
        blocks found fit in the buffer, which the source does not check. */
    method Feed(bits: seq<bit>)
      requires Valid()
      requires |Run(model, bits).out| <= file.Length
      modifies this, header, block, file
      ensures Valid() && model == Run(old(model), bits)
    {
      hide Step, Run, Value;
      ghost var t := model;
      assert bits[..0] == [];
      RunNone(t);
      for i := 0 to |bits|
        invariant Valid() && model == Run(t, bits[..i])
      {
        RunNext(t, bits, i);
        OutGrows(t, bits, i + 1);
        DecodeBit(bits[i]);
      }
      assert bits[..|bits|] == bits;
    }
  }

  lemma RunNone(t: Tape)
    requires Wf(t)
    ensures Run(t, []) == t
  {
  }

  lemma RunNext(t: Tape, bits: seq<bit>, i: nat)
    requires Wf(t) && i < |bits|
    ensures Run(t, bits[..i + 1]) == Step(Run(t, bits[..i]), bits[i])
  {
    hide Step;
    assert bits[..i + 1][..i] == bits[..i];
  }

  lemma {:induction false} OutGrows(t: Tape, bits: seq<bit>, i: nat)
    requires Wf(t) && i <= |bits|
    ensures |Run(t, bits[..i]).out| <= |Run(t, bits).out|
    decreases |bits| - i
  {
    hide Step, Run;
    if i == |bits| {
      assert bits[..i] == bits;
    } else {
      OutGrows(t, bits, i + 1);
      RunNext(t, bits, i);
      StepGrows(Run(t, bits[..i]), bits[i]);
    }
  }

  lemma StepGrows(t: Tape, b: bit)
    requires Wf(t)
    ensures |t.out| <= |Step(t, b).out|
  {
    hide Value, Chosen, Noticed, GoodSum;
  }
}
