/** The bi-phase cassette writer: a three-level shift register chooses which piece of a sine
    wave to play, and a fractional accumulator decides how many samples it lasts. */
module Cassette {
  import opened Bytes

  const SAMPLE_RATE: int := 44100
  const NANOSECONDS: int := 1_000_000_000
  const HALF_CELL: nat := 365000        // BIT_DURATION / 2
  const DRIBBLE: nat := 360000

  /** One call of timerExpired as heard: quarter turns start..start+duration, so many samples. */
  datatype Segment = Segment(start: nat, duration: nat, samples: nat)

  function Start(reg: nat): nat
    requires reg < 8
  {
    [0, 3, 0, 0, 2, 2, 1, 0][reg]
  }

  function Duration(reg: nat): nat
    requires reg < 8
  {
    [0, 1, 2, 1, 1, 2, 1, 0][reg]
  }

  /** Level k of the output line, counting the three zero levels of the cleared register. */
  function Level(levels: seq<bit>, k: int): bit
    requires k < |levels|
  {
    if k < 0 then 0 else levels[k]
  }

  /** The shift register once all the levels have been shifted in. */
  function Register(levels: seq<bit>): (r: nat)
    ensures r < 8
  {
    var n := |levels|;
    4 * Level(levels, n - 3) + 2 * Level(levels, n - 2) + Level(levels, n - 1)
  }

  function Last(levels: seq<bit>): bit {
    Level(levels, |levels| - 1)
  }

  /** Each segment is what the register held before its own level was shifted in. */
  ghost predicate Plays(played: seq<Segment>, levels: seq<bit>) {
    && |played| == |levels|
    && forall k :: 0 <= k < |played| ==>
        played[k].start == Start(Register(levels[..k])) && played[k].duration == Duration(Register(levels[..k]))
  }

  function Samples(played: seq<Segment>): nat {
    if played == [] then 0 else Samples(played[..|played| - 1]) + played[|played| - 1].samples
  }

  /** Exact time to samples. */
  function Exact(ns: nat): real {
    SAMPLE_RATE as real * ns as real / NANOSECONDS as real
  }

  class Cassette {
    var modulationState: nat
    var modulationNext: bit
    var sampleCount: real
    var played: seq<Segment>      // stands for the samples written to the WAV file
    ghost var levels: seq<bit>
    ghost var elapsed: nat

    ghost predicate Valid()
      reads this
    {
      && modulationState == Register(levels)
      && Plays(played, levels)
      && 0.0 <= sampleCount < 1.0
      && Samples(played) as real + sampleCount == Exact(elapsed)
    }

    constructor ()
      ensures Valid() && levels == [] && played == [] && elapsed == 0 && modulationNext == 0
    {
      modulationState, modulationNext, sampleCount, played := 0, 0, 0.0, [];
      levels, elapsed := [], 0;
    }

    method ModulationToggle()
      modifies this`modulationNext
      ensures modulationNext == 1 - old(modulationNext)
    {
      modulationNext := 1 - modulationNext;
    }

    method TimerExpired(duration: nat)
      requires Valid()
      modifies this
      ensures Valid()
      ensures levels == old(levels) + [old(modulationNext)] && modulationNext == old(modulationNext)
      ensures elapsed == old(elapsed) + duration
      ensures Samples(played) == SAMPLE_RATE * elapsed / NANOSECONDS
    {
      hide Exact, Plays, Samples, Register, Start, Duration;
      ExactAdds(elapsed, duration);
      sampleCount := sampleCount + Exact(duration);
      var samples := sampleCount.Floor;
      sampleCount := sampleCount - samples as real;
      ghost var s := Segment(Start(modulationState), Duration(modulationState), samples);
      PlaysNext(played, levels, s, modulationNext);
      played := played + [Segment(Start(modulationState), Duration(modulationState), samples)];
      levels := levels + [modulationNext];
      elapsed := elapsed + duration;
      modulationState := (2 * modulationState + modulationNext) % 8;
      DriftFree(Samples(played), sampleCount, elapsed);
    }
  }

  lemma ExactAdds(a: nat, b: nat)
    ensures Exact(a + b) == Exact(a) + Exact(b) && Exact(b) >= 0.0
  {
  }

  lemma PlaysNext(played: seq<Segment>, levels: seq<bit>, s: Segment, b: bit)
    requires Plays(played, levels)
    requires s.start == Start(Register(levels)) && s.duration == Duration(Register(levels))
    ensures Plays(played + [s], levels + [b])
    ensures Register(levels + [b]) == (2 * Register(levels) + b) % 8
    ensures Samples(played + [s]) == Samples(played) + s.samples
  {
    hide Register, Start, Duration;
    ShiftedRegister(levels, b);
    var l := levels + [b];
    assert forall k :: 0 <= k <= |levels| ==> l[..k] == levels[..k];
    assert levels[..|levels|] == levels;
    assert (played + [s])[..|played|] == played;
  }

  lemma ShiftedRegister(levels: seq<bit>, b: bit)
    ensures Register(levels + [b]) == (2 * Register(levels) + b) % 8
  {
  }

  /** Drift-free timing: rounding never accumulates, whatever the durations were. */
  lemma DriftFree(total: nat, fraction: real, ns: nat)
    requires 0.0 <= fraction < 1.0 && total as real + fraction == Exact(ns)
    ensures total == SAMPLE_RATE * ns / NANOSECONDS
  {
    var x := SAMPLE_RATE * ns;
    assert Exact(ns) == x as real / NANOSECONDS as real;
    var q, r := x / NANOSECONDS, x % NANOSECONDS;
    assert x == NANOSECONDS * q + r;
    assert x as real == NANOSECONDS as real * q as real + r as real;
    assert Exact(ns) == q as real + r as real / NANOSECONDS as real;
    assert 0.0 <= r as real / NANOSECONDS as real < 1.0;
    assert Exact(ns).Floor == q;
    assert (total as real + fraction).Floor == total;
  }

  // ----- bits as cells

  /** Levels after some bits: every cell starts with a transition, a one has another half way. */
  function Cells(levels: seq<bit>, bits: seq<bit>): (r: seq<bit>)
    ensures |r| == |levels| + 2 * |bits|
  {
    if bits == [] then levels
    else
      var p := Cells(levels, bits[..|bits| - 1]);
      var h := 1 - Last(p);
      p + [h, if bits[|bits| - 1] == 1 then 1 - h else h]
  }

  lemma {:induction false} CellsConcat(levels: seq<bit>, a: seq<bit>, b: seq<bit>)
    ensures Cells(levels, a + b) == Cells(Cells(levels, a), b)
  {
    if b == [] {
      assert a + b == a;
    } else {
      assert (a + b)[..|a + b| - 1] == a + b[..|b| - 1];
      CellsConcat(levels, a, b[..|b| - 1]);
    }
  }

  lemma {:induction false} CellsAt(bits: seq<bit>, i: nat)
    requires i < |bits|
    ensures var r := Cells([], bits);
            && r[2 * i] == 1 - Level(r, 2 * i - 1)
            && (r[2 * i] == r[2 * i + 1] <==> bits[i] == 0)
  {
    var n := |bits|;
    if i < n - 1 {
      CellsAt(bits[..n - 1], i);
    }
  }

  /** Never three equal levels once the first half-cell is in: the register is never 000 or
      111, so both invalid table rows stay unused. */
  lemma RegisterValid(bits: seq<bit>, k: nat)
    requires 0 < k <= 2 * |bits|
    ensures Register(Cells([], bits)[..k]) != 0 && Register(Cells([], bits)[..k]) != 7
  {
    hide Cells, Register;
    var r := Cells([], bits);
    var j := (k - 1) / 2;
    CellsAt(bits, j);
    if k == 2 * j + 1 {
      TurnsAt(r, k, k - 1);
    } else {
      TurnsAt(r, k, k - 2);
    }
  }

  /** A transition at i, one of the last two levels before k, shows in the register. */
  lemma TurnsAt(r: seq<bit>, k: nat, i: nat)
    requires k <= |r| && k - 2 <= i < k && r[i] == 1 - Level(r, i - 1)
    ensures Register(r[..k]) != 0 && Register(r[..k]) != 7
  {
    var p := r[..k];
    assert Level(p, i) == r[i] && Level(p, i - 1) == Level(r, i - 1);
  }

  /** The top half of the wave is level one. */
  function Heard(s: Segment): bit {
    if s.start < 2 then 1 else 0
  }

  /** Reading a recording back: the writer lags two half-cells; a cell whose halves differ is
      a one. */
  function Demodulate(played: seq<Segment>): (bits: seq<bit>)
    ensures |played| < 2 ==> bits == []
    ensures |played| >= 2 ==> |bits| == (|played| - 2) / 2
    ensures forall i :: 0 <= i < |bits| ==> bits[i] == CellBit(played, i)
  {
    if |played| < 2 then []
    else seq((|played| - 2) / 2, i requires 0 <= i < (|played| - 2) / 2 => CellBit(played, i))
  }

  function CellBit(played: seq<Segment>, i: nat): bit
    requires 3 + 2 * i < |played|
  {
    if Heard(played[2 + 2 * i]) == Heard(played[3 + 2 * i]) then 0 else 1
  }

  lemma HeardLevel(played: seq<Segment>, bits: seq<bit>, k: nat)
    requires Plays(played, Cells([], bits)) && k + 2 < |played|
    ensures Heard(played[k + 2]) == Cells([], bits)[k]
  {
    var r := Cells([], bits);
    RegisterValid(bits, k + 2);
    assert r[..k + 2][k] == r[k];
  }

  /** The recording carries every bit but the last, whose second half is still in the register:
      this is why closing the file writes a few more cells. */
  lemma DemodulateCells(played: seq<Segment>, bits: seq<bit>)
    requires Plays(played, Cells([], bits)) && bits != []
    ensures Demodulate(played) == bits[..|bits| - 1]
  {
    hide Cells, Plays, CellBit, Demodulate;
    PlayedLength(played, bits);
    var d := Demodulate(played);
    forall i | 0 <= i < |bits| - 1
      ensures d[i] == bits[i]
    {
      CellHeard(played, bits, i);
    }
    assert d == bits[..|bits| - 1];
  }

  lemma CellHeard(played: seq<Segment>, bits: seq<bit>, i: nat)
    requires Plays(played, Cells([], bits)) && i + 1 < |bits| && |played| == 2 * |bits|
    ensures CellBit(played, i) == bits[i]
  {
    hide Cells, Plays, Heard;
    HeardLevel(played, bits, 2 * i);
    HeardLevel(played, bits, 2 * i + 1);
    CellsAt(bits, i);
    assert 2 * i + 1 + 2 == 3 + 2 * i && 2 * i + 2 == 2 + 2 * i;
  }

  lemma PlayedLength(played: seq<Segment>, bits: seq<bit>)
    requires Plays(played, Cells([], bits))
    ensures |played| == 2 * |bits|
  {
  }

  /** Every segment starts at the phase where the one before it ended. */
  lemma PhaseContinuous(played: seq<Segment>, bits: seq<bit>, k: nat)
    requires Plays(played, Cells([], bits)) && 0 < k && k + 1 < |played|
    ensures played[k].duration > 0
    ensures (played[k].start + played[k].duration) % 4 == played[k + 1].start
  {
    var r := Cells([], bits);
    RegisterValid(bits, k);
    RegisterValid(bits, k + 1);
    ShiftedRegister(r[..k], r[k]);
    assert r[..k] + [r[k]] == r[..k + 1];
  }
}
