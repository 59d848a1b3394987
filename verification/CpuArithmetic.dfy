/** What the flags, jumps, shifts, MPY and DIV mean as arithmetic. */
module CpuArithmetic {
  import opened Bytes
  import opened Cpu

  // ----- powers of two

  lemma {:induction false} Pow2Add(a: nat, b: nat)
    ensures Pow2(a + b) == Pow2(a) * Pow2(b)
  {
    if a > 0 {
      Pow2Add(a - 1, b);
      MulAssoc(2, Pow2(a - 1), Pow2(b));
    }
  }

  lemma MulAssoc(a: int, b: int, c: int)
    ensures (a * b) * c == a * (b * c)
  {
  }

  lemma Distribute(a: int, b: int, r: int, c: int)
    ensures (a * b + r) * c == a * (b * c) + r * c
  {
    MulAssoc(a, b, c);
  }

  lemma DivIs(x: int, d: nat, q: int, r: int)
    requires d > 0 && x == q * d + r && 0 <= r < d
    ensures x / d == q && x % d == r
  {
    var e := q - x / d;
    assert e * d == x % d - r;
    MulOrder(0, e, d);
    MulOrder(e, 0, d);
  }

  /** Dividing twice is dividing once, for negative numbers too. */
  lemma DivDiv(x: int, a: nat, b: nat)
    requires a > 0 && b > 0
    ensures a * b > 0 && x / a / b == x / (a * b)
  {
    MulMonotone(1, a, b);
    var q, r := x / a, x % a;
    var p, s := q / b, q % b;
    MulMonotone(s, b - 1, a);
    assert x == q * a + r && q == p * b + s;
    assert (p * b + s) * a == p * (a * b) + s * a by {
      assert (p * b + s) * a == p * b * a + s * a;
      MulAssoc(p, b, a);
      assert b * a == a * b;
    }
    assert (b - 1) * a == a * b - a;
    DivIs(x, a * b, p, s * a + r);
  }

  // ----- flags

  /** Each flag is an even multiple of every lower one. */
  lemma Ratio(f: word, g: word) returns (m: nat)
    requires IsFlag(f) && IsFlag(g) && f < g
    ensures g == 2 * f * m && m > 0
  {
    m := g / (2 * f);
  }

  lemma FlagHigh(f: word) returns (m: nat)
    requires IsFlag(f)
    ensures f == 16 * m && m > 0
  {
    m := f / 16;
  }

  /** A number from what is above bit f, the bit, and what is below it. */
  lemma AroundBit(q: int, h: int, f: nat, r: int)
    requires f > 0 && 0 <= h <= 1 && 0 <= r < f
    ensures var x := q * (2 * f) + h * f + r;
            x / (2 * f) == q && x / f % 2 == h && x % f == r
  {
    Distribute(q, 2, h, f);
    MulMonotone(h, 1, f);
    var x := q * (2 * f) + h * f + r;
    DivIs(x, 2 * f, q, h * f + r);
    DivIs(x, f, q * 2 + h, r);
    DivIs(q * 2 + h, 2, q, h);
  }

  lemma SplitBit(x: nat, f: nat)
    requires f > 0
    ensures x == x / (2 * f) * (2 * f) + x / f % 2 * f + x % f
  {
    DivDiv(x, f, 2);
    assert f * 2 == 2 * f;
    var q, h := x / f / 2, x / f % 2;
    Distribute(q, 2, h, f);
  }

  lemma SetSplits(st: word, f: word, c: bool)
    requires IsFlag(f)
    ensures Set(st, f, c) / (2 * f) == st / (2 * f) && Set(st, f, c) % f == st % f && Has(Set(st, f, c), f) == c
  {
    hide IsFlag;
    assert f > 0 by { FlagPositive(f); }
    SplitBit(st, f);
    AroundBit(st / (2 * f), if c then 1 else 0, f, st % f);
  }

  lemma FlagPositive(f: word)
    requires IsFlag(f)
    ensures f > 0
  {
  }

  lemma SetHas(st: word, f: word, c: bool)
    requires IsFlag(f)
    ensures Has(Set(st, f, c), f) == c && Set(st, f, c) % 16 == st % 16
  {
    SetSplits(st, f, c);
    var m := FlagHigh(f);
    var q, r := st / 16, st % 16;
    if Set(st, f, c) == st + f {
      DivIs(st + f, 16, q + m, r);
    } else if Set(st, f, c) == st - f {
      DivIs(st - f, 16, q - m, r);
    }
  }

  lemma SetLow(st: word, f: word, g: word, c: bool)
    requires IsFlag(f) && IsFlag(g) && g < f
    ensures Has(Set(st, f, c), g) == Has(st, g)
  {
    hide Set;
    SetSplits(st, f, c);
    var m := Ratio(g, f);
    BelowBit(st, f, g, m);
    BelowBit(Set(st, f, c), f, g, m);
  }

  lemma BelowBit(x: word, f: nat, g: nat, m: nat)
    requires f == 2 * g * m && m > 0 && g > 0
    ensures f > 0 && x / g % 2 == x % f / g % 2
  {
    assert f == 2 * (g * m) > 0;
    var y, r := x / f, x % f;
    assert y * f == y * (2 * m) * g by {
      assert f == 2 * m * g;
      MulAssoc(y, 2 * m, g);
    }
    assert (y * (2 * m) + r / g) * g == y * (2 * m) * g + r / g * g;
    DivIs(x, g, y * (2 * m) + r / g, r % g);
    assert y * (2 * m) == 2 * (y * m);
    DivIs(y * (2 * m) + r / g, 2, y * m + r / g / 2, r / g % 2);
  }

  lemma SetHigh(st: word, f: word, g: word, c: bool)
    requires IsFlag(f) && IsFlag(g) && g > f
    ensures Has(Set(st, f, c), g) == Has(st, g)
  {
    hide Set;
    SetSplits(st, f, c);
    var m := Ratio(f, g);
    DivDiv(st, 2 * f, m);
    DivDiv(Set(st, f, c), 2 * f, m);
  }

  lemma SetOther(st: word, f: word, g: word, c: bool)
    requires IsFlag(f) && IsFlag(g) && g != f
    ensures Has(Set(st, f, c), g) == Has(st, g)
  {
    hide Has, Set;
    if g < f {
      SetLow(st, f, g, c);
    } else {
      SetHigh(st, f, g, c);
    }
  }

  lemma CompareHas(st: word, s: word, d: word)
    ensures var r := CompareWord(st, s, d);
            && Has(r, EQ) == (s == d) && Has(r, LGT) == (s > d) && Has(r, AGT) == (Signed(s) > Signed(d))
            && Has(r, CY) == Has(st, CY) && Has(r, OV) == Has(st, OV) && Has(r, OP) == Has(st, OP) && r % 16 == st % 16
  {
    hide Has, Set, Signed;
    var a := Set(st, EQ, s == d);
    var b := Set(a, LGT, s > d);
    var r := CompareWord(st, s, d);
    SetHas(st, EQ, s == d);
    SetHas(a, LGT, s > d);
    SetHas(b, AGT, Signed(s) > Signed(d));
    SetOther(a, LGT, EQ, s > d);
    SetOther(b, AGT, EQ, Signed(s) > Signed(d));
    SetOther(b, AGT, LGT, Signed(s) > Signed(d));
    CompareOther(st, s, d, CY);
    CompareOther(st, s, d, OV);
    CompareOther(st, s, d, OP);
  }

  lemma CompareOther(st: word, s: word, d: word, g: word)
    requires g == CY || g == OV || g == OP
    ensures Has(CompareWord(st, s, d), g) == Has(st, g)
  {
    hide Has, Set, Signed;
    var a := Set(st, EQ, s == d);
    var b := Set(a, LGT, s > d);
    SetOther(st, EQ, g, s == d);
    SetOther(a, LGT, g, s > d);
    SetOther(b, AGT, g, Signed(s) > Signed(d));
  }

  /** A jump after a comparison is taken exactly when the relation it is named for holds. */
  lemma JumpAfterCompare(st: word, a: word, b: word)
    ensures var r := CompareWord(st, a, b);
            && (Taken(0x1300, r) <==> a == b) && (Taken(0x1600, r) <==> a != b)
            && (Taken(0x1500, r) <==> Signed(a) > Signed(b)) && (Taken(0x1100, r) <==> Signed(a) < Signed(b))
            && (Taken(0x1B00, r) <==> a > b) && (Taken(0x1A00, r) <==> a < b)
            && (Taken(0x1400, r) <==> a >= b) && (Taken(0x1200, r) <==> a <= b)
  {
    hide Has, CompareWord;
    CompareHas(st, a, b);
    var r := CompareWord(st, a, b);
    OneFlag(r);
    TwoFlags(r, AGT, EQ);
    TwoFlags(r, LGT, EQ);
  }

  lemma OneFlag(st: word)
    ensures forall f: word :: IsFlag(f) ==> (AllSet(st, [f]) <==> Has(st, f)) && (AllClear(st, [f]) <==> !Has(st, f))
  {
    hide Has;
    forall f: word | IsFlag(f)
      ensures (AllSet(st, [f]) <==> Has(st, f)) && (AllClear(st, [f]) <==> !Has(st, f))
    {
      assert [f][0] == f;
    }
  }

  lemma TwoFlags(st: word, f: word, g: word)
    requires IsFlag(f) && IsFlag(g)
    ensures AllClear(st, [f, g]) <==> !Has(st, f) && !Has(st, g)
  {
    hide Has;
    assert [f, g][0] == f && [f, g][1] == g;
  }

  /** A and S: the result modulo 2^16, carry as the unsigned carry (or no borrow), and overflow
      exactly when the signed result does not fit. */
  lemma AddSubtractMeaning(st: word, v: word, d: word)
    ensures var (r, t, _) := TwoOperandResult(st, 0xA000, v, d);
            && r == (d + v) % 0x10000 && (Has(t, CY) <==> d + v >= 0x10000)
            && (Has(t, OV) <==> !(-0x8000 <= Signed(d) + Signed(v) < 0x8000))
            && (!Has(t, OV) ==> Signed(r) == Signed(d) + Signed(v))
    ensures var (r, t, _) := TwoOperandResult(st, 0x6000, v, d);
            && r == (d - v) % 0x10000 && (Has(t, CY) <==> d >= v)
            && (Has(t, OV) <==> !(-0x8000 <= Signed(d) - Signed(v) < 0x8000))
            && (!Has(t, OV) ==> Signed(r) == Signed(d) - Signed(v))
  {
    hide Has, Set, CompareWord;
    var ovA := (v >= 0x8000) == (d >= 0x8000) && ((d + v) / 0x8000 % 2 == 1) != (d >= 0x8000);
    CarryAndOverflow(st, ovA, d + v >= 0x10000, Low(d + v));
    var r := Low(d - v);
    var ovS := (v >= 0x8000) != (d >= 0x8000) && (r >= 0x8000) != (d >= 0x8000);
    CarryAndOverflow(st, ovS, d >= v, r);
    hide CompareWord;
    var a, s := TwoOperandResult(st, 0xA000, v, d), TwoOperandResult(st, 0x6000, v, d);
    assert a.1 == CompareWord(Set(Set(st, OV, ovA), CY, d + v >= 0x10000), Low(d + v), 0);
    assert s.1 == CompareWord(Set(Set(st, OV, ovS), CY, d >= v), r, 0);
  }

  lemma CarryAndOverflow(st: word, ov: bool, cy: bool, r: word)
    ensures var t := CompareWord(Set(Set(st, OV, ov), CY, cy), r, 0);
            Has(t, OV) == ov && Has(t, CY) == cy
  {
    hide Has, Set, CompareWord;
    SetHas(st, OV, ov);
    SetHas(Set(st, OV, ov), CY, cy);
    SetOther(Set(st, OV, ov), CY, OV, cy);
    CompareHas(Set(Set(st, OV, ov), CY, cy), r, 0);
  }

  // ----- shifts

  lemma ShiftRightIs(v: int, c: nat)
    requires c <= 16
    ensures v * 0x10000 / Pow2(c) / 0x10000 == v / Pow2(c)
  {
    DivDiv(v * 0x10000, Pow2(c), 0x10000);
    assert Pow2(c) * 0x10000 == 0x10000 * Pow2(c);
    DivDiv(v * 0x10000, 0x10000, Pow2(c));
    DivIs(v * 0x10000, 0x10000, v, 0);
  }

  /** SRL: unsigned division. SRA: signed division, rounding down. SLA: multiplication. SRC:
      the low c bits change places with the rest. */
  lemma ShiftMeaning(v: word, c: nat)
    requires 1 <= c <= 16
    ensures ShiftResult(0x0900, v, c) == v / Pow2(c)
    ensures Signed(ShiftResult(0x0800, v, c)) == Signed(v) / Pow2(c)
    ensures ShiftResult(0x0A00, v, c) == v * Pow2(c) % 0x10000
    ensures ShiftResult(0x0B00, v, c) == v % Pow2(c) * Pow2(16 - c) + v / Pow2(c)
  {
    hide Pow2;
    ShiftRightIs(v, c);
    ShiftRightIs(Signed(v), c);
    DivSmall(v, Pow2(c));
    DivSmall(Signed(v), Pow2(c));
    RotateIs(v, c);
  }

  lemma DivSmall(x: int, d: nat)
    requires d > 0 && -0x8000 <= x < 0x10000
    ensures -0x8000 <= x / d < 0x10000 && (x < 0x8000 ==> x / d < 0x8000) && (x >= 0 ==> x / d >= 0)
  {
    var q := x / d;
    assert x == q * d + x % d;
    if q > 0 {
      MulMonotone(1, d, q);
      assert d * q == q * d;
    } else if q < 0 {
      MulMonotone(1, d, -q);
      assert d * (-q) == -(q * d);
    }
  }

  lemma RotateIs(v: word, c: nat)
    requires c <= 16
    ensures var d, k := Pow2(c), Pow2(16 - c);
            && Low((v * 0x10000 + v) / d) == v % d * k + v / d
            && (v * 0x10000 + v) / d == v / d * 0x10000 + (v % d * k + v / d)
            && 0 <= v % d * k + v / d < 0x10000
  {
    Pow2Of16();
    Pow2Add(c, 16 - c);
    RotateParts(v, Pow2(c), Pow2(16 - c));
    RotateLow(v / Pow2(c), v % Pow2(c) * Pow2(16 - c) + v / Pow2(c));
  }

  lemma RotateLow(q: int, x: int)
    requires 0 <= x < 0x10000
    ensures Low(q * 0x10000 + x) == x
  {
  }

  lemma RotateParts(v: word, d: nat, k: nat)
    requires d > 0 && d * k == 0x10000
    ensures (v * 0x10000 + v) / d == v / d * 0x10000 + (v % d * k + v / d)
    ensures 0 <= v % d * k + v / d < 0x10000
  {
    var q, r := v / d, v % d;
    QuotientSmall(v, d, k);
    TimesBack(v, d, k);
    Distribute(v, k, 0, d);
    Distribute(1, v * k, q, d);
    Distribute(q, d, r, k);
    DivIs(v * 0x10000 + v, d, v * k + q, r);
  }

  lemma TimesBack(v: int, d: int, k: int)
    requires d * k == 0x10000
    ensures v * k * d == v * 0x10000
  {
    MulAssoc(v, k, d);
  }

  lemma QuotientSmall(v: word, d: nat, k: nat)
    requires d > 0 && d * k == 0x10000
    ensures 0 <= v / d < k && 0 <= v % d * k && v % d * k + v / d < 0x10000
  {
    var q, r := v / d, v % d;
    assert v == q * d + r;
    MulOrder(k, q, d);
    assert k * d == d * k;
    MulMonotone(r, d - 1, k);
    assert (d - 1) * k == d * k - k;
    assert k > 0;
  }

  /** The carry is the last bit moved out. */
  lemma ShiftCarryMeaning(v: word, c: nat)
    requires 1 <= c <= 16
    ensures ShiftCarry(0x0900, v, c) <==> v / Pow2(c - 1) % 2 == 1
    ensures ShiftCarry(0x0800, v, c) <==> Signed(v) / Pow2(c - 1) % 2 == 1
    ensures ShiftCarry(0x0B00, v, c) <==> v / Pow2(c - 1) % 2 == 1
    ensures ShiftCarry(0x0A00, v, c) <==> v / Pow2(16 - c) % 2 == 1
  {
    CarryRight(v, c);
    CarryRight(Signed(v), c);
    CarryRotate(v, c);
    CarryLeft(v, c);
  }

  lemma CarryRight(v: int, c: nat)
    requires 1 <= c <= 16
    ensures v * 0x10000 / Pow2(c) / 0x8000 == v / Pow2(c - 1)
  {
    var d := Pow2(c - 1);
    assert Pow2(c) == 2 * d;
    hide Pow2;
    DivDiv(v * 0x10000, 2 * d, 0x8000);
    assert 2 * d * 0x8000 == 0x10000 * d;
    DivDiv(v * 0x10000, 0x10000, d);
    DivIs(v * 0x10000, 0x10000, v, 0);
  }

  lemma CarryRotate(v: word, c: nat)
    requires 1 <= c <= 16
    ensures (v * 0x10000 + v) / Pow2(c) / 0x8000 % 2 == v / Pow2(c - 1) % 2
  {
    var d := Pow2(c - 1);
    assert Pow2(c) == 2 * d;
    DivDiv(v * 0x10000 + v, d, 2);
    assert d * 2 == 2 * d;
    DivDiv((v * 0x10000 + v) / d, 2, 0x8000);
    RotateIs(v, c - 1);
    var rest := v % d * Pow2(16 - (c - 1)) + v / d;
    assert ((v * 0x10000 + v) / d) / 0x10000 == v / d;
  }

  lemma CarryLeft(v: word, c: nat)
    requires 1 <= c <= 16
    ensures v * Pow2(c) / 0x10000 == v / Pow2(16 - c)
  {
    Pow2Of16();
    Pow2Add(c, 16 - c);
    var d, k := Pow2(c), Pow2(16 - c);
    hide Pow2;
    DivDiv(v * d, d, k);
    DivIs(v * d, d, v, 0);
  }

  // ----- runs of shifts

  function Total(cs: seq<nat>): nat {
    if cs == [] then 0 else Total(cs[..|cs| - 1]) + cs[|cs| - 1]
  }

  ghost predicate Counts(cs: seq<nat>) {
    forall i :: 0 <= i < |cs| ==> 1 <= cs[i] <= 16
  }

  /** One shift instruction after another on the same register. */
  function ShiftRun(op: word, v: word, cs: seq<nat>): word
    requires Counts(cs)
  {
    if cs == [] then v else ShiftResult(op, ShiftRun(op, v, cs[..|cs| - 1]), cs[|cs| - 1])
  }

  lemma {:induction false} RunOfSrl(v: word, cs: seq<nat>)
    requires Counts(cs)
    ensures ShiftRun(0x0900, v, cs) == v / Pow2(Total(cs))
  {
    hide ShiftResult;
    if cs != [] {
      var front, c := cs[..|cs| - 1], cs[|cs| - 1];
      RunOfSrl(v, front);
      Pow2Add(Total(front), c);
      DivDiv(v, Pow2(Total(front)), Pow2(c));
      ShiftMeaning(ShiftRun(0x0900, v, front), c);
    }
  }

  lemma {:induction false} RunOfSra(v: word, cs: seq<nat>)
    requires Counts(cs)
    ensures Signed(ShiftRun(0x0800, v, cs)) == Signed(v) / Pow2(Total(cs))
  {
    hide ShiftResult, Signed;
    if cs != [] {
      var front, c := cs[..|cs| - 1], cs[|cs| - 1];
      RunOfSra(v, front);
      Pow2Add(Total(front), c);
      DivDiv(Signed(v), Pow2(Total(front)), Pow2(c));
      ShiftMeaning(ShiftRun(0x0800, v, front), c);
    }
  }

  lemma {:induction false} RunOfSla(v: word, cs: seq<nat>)
    requires Counts(cs)
    ensures ShiftRun(0x0A00, v, cs) == v * Pow2(Total(cs)) % 0x10000
  {
    hide ShiftResult;
    if cs != [] {
      var front, c := cs[..|cs| - 1], cs[|cs| - 1];
      RunOfSla(v, front);
      Pow2Add(Total(front), c);
      ShiftMeaning(ShiftRun(0x0A00, v, front), c);
      hide Pow2;
      MulMonotone(0, v, Pow2(Total(front)));
      ModMul(v * Pow2(Total(front)), Pow2(c));
      MulAssoc(v, Pow2(Total(front)), Pow2(c));
    }
  }

  /** Any run of SRL or SRA is one division, and any run of SLA one multiplication, by two to the
      sum of the counts. */
  lemma ShiftRunMeaning(v: word, cs: seq<nat>)
    requires Counts(cs)
    ensures ShiftRun(0x0900, v, cs) == v / Pow2(Total(cs))
    ensures Signed(ShiftRun(0x0800, v, cs)) == Signed(v) / Pow2(Total(cs))
    ensures ShiftRun(0x0A00, v, cs) == v * Pow2(Total(cs)) % 0x10000
  {
    RunOfSrl(v, cs);
    RunOfSra(v, cs);
    RunOfSla(v, cs);
  }

  lemma ModMul(x: nat, k: nat)
    ensures x % 0x10000 * k % 0x10000 == x * k % 0x10000
  {
    var q, r := x / 0x10000, x % 0x10000;
    assert x * k == q * k * 0x10000 + r * k by {
      assert (q * 0x10000 + r) * k == q * 0x10000 * k + r * k;
    }
    var y := r * k;
    DivIs(x * k, 0x10000, q * k + y / 0x10000, y % 0x10000);
  }

  /** The low n bits change places with the rest. */
  function Rotated(v: word, n: nat): word
    requires n <= 16
  {
    RotateIs(v, n);
    v % Pow2(n) * Pow2(16 - n) + v / Pow2(n)
  }

  function Rotate1(v: word): word { v / 2 + v % 2 * 0x8000 }

  function RotateBy(v: word, n: nat): word {
    if n == 0 then v else Rotate1(RotateBy(v, n - 1))
  }

  lemma HalfSplit(v: nat, d: nat)
    requires d > 0
    ensures v / (2 * d) == v / d / 2 && v % (2 * d) == v / d % 2 * d + v % d
  {
    var q, r := v / d, v % d;
    var b := q % 2;
    assert q == q / 2 * 2 + b;
    Distribute(q / 2, 2, b, d);
    MulMonotone(b, 1, d);
    DivIs(v, 2 * d, q / 2, b * d + r);
  }

  lemma HalfTurn(x: nat, q: nat)
    requires 2 * x + q < 0x10000
    ensures Rotate1(2 * x + q) == x + q / 2 + q % 2 * 0x8000
  {
  }

  lemma RotateOneMore(v: word, n: nat)
    requires n < 16
    ensures Rotated(v, n + 1) == Rotate1(Rotated(v, n))
  {
    var d, k := Pow2(n), Pow2(15 - n);
    Pow2Of16();
    Pow2Add(n, 16 - n);
    assert Pow2(n + 1) == 2 * d && Pow2(16 - n) == 2 * k && 16 - (n + 1) == 15 - n;
    RotateIs(v, n);
    HalfProduct(d, k);
    RotateTurn(v, d, k);
  }

  lemma HalfProduct(d: nat, k: nat)
    requires d * (2 * k) == 0x10000
    ensures d * k == 0x8000
  {
    Distribute(2, k, 0, d);
  }

  lemma RotateTurn(v: word, d: nat, k: nat)
    requires d > 0 && d * k == 0x8000 && 0 <= v % d * (2 * k) + v / d < 0x10000
    ensures v % (2 * d) * k + v / (2 * d) == Rotate1(v % d * (2 * k) + v / d)
  {
    hide Rotate1;
    var q, r := v / d, v % d;
    HalfSplit(v, d);
    Distribute(q % 2, d, r, k);
    Double(r, k);
    HalfTurn(r * k, q);
  }

  lemma Double(r: nat, k: nat)
    ensures r * (2 * k) == 2 * (r * k) && r * k >= 0
  {
    MulMonotone(0, r, k);
  }

  lemma {:induction false} RotatedIs(v: word, n: nat)
    requires n <= 16
    ensures Rotated(v, n) == RotateBy(v, n)
  {
    hide Rotated, Rotate1;
    if n == 0 {
      NotRotated(v);
    } else {
      RotatedIs(v, n - 1);
      RotateOneMore(v, n - 1);
    }
  }

  lemma NotRotated(v: word)
    ensures Rotated(v, 0) == v && Rotated(v, 16) == v
  {
    Pow2Of16();
    assert Pow2(0) == 1;
    hide Pow2;
    DivIs(v, 1, v, 0);
    DivIs(v, 0x10000, 0, v);
  }

  lemma {:induction false} RotateSum(v: word, a: nat, b: nat)
    ensures RotateBy(RotateBy(v, a), b) == RotateBy(v, a + b)
  {
    hide Rotate1;
    if b > 0 {
      RotateSum(v, a, b - 1);
    }
  }

  lemma {:induction false} RotatePeriod(v: word, n: nat)
    ensures RotateBy(v, n) == RotateBy(v, n % 16)
  {
    hide RotateBy, Rotated;
    if n >= 16 {
      RotatePeriod(v, n - 16);
      RotateSum(v, 16, n - 16);
      RotatedIs(v, 16);
      NotRotated(v);
    }
  }

  /** Any number of SRC instructions rotates the register by the sum of their counts, modulo 16. */
  lemma {:induction false} RotateRun(v: word, cs: seq<nat>)
    requires Counts(cs)
    ensures ShiftRun(0x0B00, v, cs) == RotateBy(v, Total(cs)) == Rotated(v, Total(cs) % 16)
  {
    hide ShiftResult, RotateBy, Rotated;
    RotatePeriod(v, Total(cs));
    RotatedIs(v, Total(cs) % 16);
    if cs == [] {
      NotRotated(v);
    } else {
      var front, c := cs[..|cs| - 1], cs[|cs| - 1];
      RotateRun(v, front);
      RotateSum(v, Total(front), c);
      RotatedIs(ShiftRun(0x0B00, v, front), c);
      OneRotate(ShiftRun(0x0B00, v, front), c);
    }
  }

  // ----- runs of shift instructions

  predicate IsShift(op: word) { op == 0x0800 || op == 0x0900 || op == 0x0A00 || op == 0x0B00 }

  ghost predicate Fields(cs: seq<nat>) {
    forall i :: 0 <= i < |cs| ==> cs[i] < 16
  }

  /** Shift instructions with these count fields, one after another on one register. */
  function ShiftRegs(s: State, op: word, reg: nat, cs: seq<nat>): State
    requires IsShift(op) && Fields(cs)
  {
    if cs == [] then s
    else ShiftReg(ShiftRegs(s, op, reg, cs[..|cs| - 1]), op, reg, cs[|cs| - 1]).s
  }

  /** The counts they use, each read off the state before it. */
  function CountsUsed(s: State, op: word, reg: nat, cs: seq<nat>): (us: seq<nat>)
    requires IsShift(op) && Fields(cs)
    ensures |us| == |cs|
  {
    if cs == [] then []
    else
      CountsUsed(s, op, reg, cs[..|cs| - 1]) + [ShiftCount(ShiftRegs(s, op, reg, cs[..|cs| - 1]), cs[|cs| - 1])]
  }

  /** One shift instruction: the register, the carry, and the other registers. */
  lemma OneShift(s: State, op: word, reg: nat, count: nat)
    requires IsShift(op) && reg < 16 && count < 16
    ensures ShiftReg(s, op, reg, count).Done?
    ensures var t, c := ShiftReg(s, op, reg, count).s, ShiftCount(s, count);
            && t.wp == s.wp && Reg(t, reg) == ShiftResult(op, Reg(s, reg), c)
            && (Has(t.st, CY) <==> ShiftCarry(op, Reg(s, reg), c))
            && forall r :: 0 <= r < 16 && r != reg ==> Reg(t, r) == Reg(s, r)
  {
    hide ShiftResult, ShiftCarry, Set, Has, CompareWord, ShiftCount;
    forall r | 0 <= r < 16 && r != reg ensures RegAt(s.wp, r) / 2 != RegAt(s.wp, reg) / 2 {
      RegsDiffer(s.wp, r, reg);
    }
    var c := ShiftCount(s, count);
    var v := Reg(s, reg);
    var r := ShiftResult(op, v, c);
    var st := Set(s.st, CY, ShiftCarry(op, v, c));
    SetHas(s.st, CY, ShiftCarry(op, v, c));
    SetOther(st, OV, CY, (r >= 0x8000) != (v >= 0x8000));
    CompareHas(st, r, 0);
    CompareHas(Set(st, OV, (r >= 0x8000) != (v >= 0x8000)), r, 0);
  }

  /** A run of shift instructions leaves in the register what the run of the counts it uses makes
      of it; unless it shifts R0 itself, those come from the R0 it started with. The carry is that
      of the last shift. */
  lemma {:induction false} RegisterRun(s: State, op: word, reg: nat, cs: seq<nat>)
    requires IsShift(op) && reg < 16 && Fields(cs)
    ensures var us, t := CountsUsed(s, op, reg, cs), ShiftRegs(s, op, reg, cs);
            && Counts(us) && t.wp == s.wp && Reg(t, reg) == ShiftRun(op, Reg(s, reg), us)
            && (reg != 0 ==> Reg(t, 0) == Reg(s, 0) && forall i :: 0 <= i < |cs| ==> us[i] == ShiftCount(s, cs[i]))
            && (cs != [] ==>
                  (Has(t.st, CY) <==> ShiftCarry(op, ShiftRun(op, Reg(s, reg), us[..|us| - 1]), us[|us| - 1])))
  {
    hide ShiftResult, ShiftCarry, ShiftReg, Reg, Has;
    if cs != [] {
      var front, count := cs[..|cs| - 1], cs[|cs| - 1];
      RegisterRun(s, op, reg, front);
      var u := ShiftRegs(s, op, reg, front);
      OneShift(u, op, reg, count);
      var us := CountsUsed(s, op, reg, cs);
      assert us[..|us| - 1] == CountsUsed(s, op, reg, front);
    }
  }

  /** What runs of SRL, SRA, SLA and SRC instructions do to the register, whatever their count
      fields: division, multiplication and rotation by the sum of the counts used. */
  lemma ShiftInstructionRuns(s: State, reg: nat, cs: seq<nat>)
    requires reg < 16 && Fields(cs)
    ensures Reg(ShiftRegs(s, 0x0900, reg, cs), reg) == Reg(s, reg) / Pow2(Total(CountsUsed(s, 0x0900, reg, cs)))
    ensures Signed(Reg(ShiftRegs(s, 0x0800, reg, cs), reg))
            == Signed(Reg(s, reg)) / Pow2(Total(CountsUsed(s, 0x0800, reg, cs)))
    ensures Reg(ShiftRegs(s, 0x0A00, reg, cs), reg)
            == Reg(s, reg) * Pow2(Total(CountsUsed(s, 0x0A00, reg, cs))) % 0x10000
    ensures Reg(ShiftRegs(s, 0x0B00, reg, cs), reg)
            == Rotated(Reg(s, reg), Total(CountsUsed(s, 0x0B00, reg, cs)) % 16)
  {
    hide ShiftRegs, CountsUsed, ShiftRun, Reg, Signed, Rotated, Pow2, Counts;
    RegisterRun(s, 0x0900, reg, cs);
    RegisterRun(s, 0x0800, reg, cs);
    RegisterRun(s, 0x0A00, reg, cs);
    RegisterRun(s, 0x0B00, reg, cs);
    ShiftRunMeaning(Reg(s, reg), CountsUsed(s, 0x0900, reg, cs));
    ShiftRunMeaning(Reg(s, reg), CountsUsed(s, 0x0800, reg, cs));
    ShiftRunMeaning(Reg(s, reg), CountsUsed(s, 0x0A00, reg, cs));
    RotateRun(Reg(s, reg), CountsUsed(s, 0x0B00, reg, cs));
  }

  lemma OneRotate(v: word, c: nat)
    requires 1 <= c <= 16
    ensures ShiftResult(0x0B00, v, c) == Rotated(v, c)
  {
    hide ShiftResult;
    ShiftMeaning(v, c);
  }

  // ----- MPY and DIV

  lemma RegsDiffer(wp: word, a: nat, b: nat)
    requires a <= 16 && b <= 16 && a != b
    ensures RegAt(wp, a) / 2 != RegAt(wp, b) / 2
  {
  }

  lemma HighWord(p: int)
    requires 0 <= p < 0x100000000
    ensures Low(p / 0x10000) * 0x10000 + Low(p) == p
  {
  }

  lemma TwoRegs(s: State, d: nat, x: word, y: word)
    requires d < 16
    ensures var t := PutReg(PutReg(s, d, x), d + 1, y);
            Reg(t, d) == x && Reg(t, d + 1) == y && t.wp == s.wp && t.st == s.st && t.pc == s.pc
  {
    RegsDiffer(s.wp, d, d + 1);
  }

  /** MPY leaves the whole product in two registers, high word first. */
  lemma MultiplyExact(s: State, d: nat, v: word)
    requires d < 16
    ensures var t := Multiply(s, d, v);
            Reg(t, d) * 0x10000 + Reg(t, d + 1) == Reg(s, d) * v && t.wp == s.wp
  {
    hide Reg, PutReg, Low;
    var p: int := Reg(s, d) * v;
    MulBound(Reg(s, d), v);
    HighWord(p);
    TwoRegs(s, d, Low(p / 0x10000), Low(p));
  }

  lemma QuotientFits(hi: word, lo: word, v: word)
    requires v != 0
    ensures v <= hi <==> (hi * 0x10000 + lo) / v >= 0x10000
    ensures 0 <= (hi * 0x10000 + lo) / v
  {
    var u := hi * 0x10000 + lo;
    var q := u / v;
    assert u == q * v + u % v;
    MulOrder(q, 0x10000, v);
    MulOrder(0x10000, q, v);
    MulOrder(q, 0, v);
  }

  lemma DivisionIdentity(hi: word, lo: word, v: word)
    requires v > hi
    ensures var u := hi * 0x10000 + lo;
            && Low(u / v) == u / v && Low(u % v) == u % v && Low(u / v) * v + Low(u % v) == u && Low(u % v) < v && u / v < 0x10000
  {
    QuotientFits(hi, lo, v);
  }

  lemma DivideCases(s: State, d: nat, v: word)
    requires d < 16
    ensures var t := Divide(s, d, v);
            var u := Reg(s, d) * 0x10000 + Reg(s, d + 1);
            && (v <= Reg(s, d) ==> t == s.(st := Set(s.st, OV, true)))
            && (v > Reg(s, d) ==> t.st == Set(s.st, OV, false) && Reg(t, d) == Low(u / v) && Reg(t, d + 1) == Low(u % v))
  {
    hide Has, Set, Reg, PutReg, Low;
    if v > Reg(s, d) {
      var u := Reg(s, d) * 0x10000 + Reg(s, d + 1);
      TwoRegs(s, d, Low(u / v), Low(u % v));
      StatusApart(PutReg(PutReg(s, d, Low(u / v)), d + 1, Low(u % v)), Set(s.st, OV, false));
    }
  }

  /** DIV overflows exactly when the quotient would not fit, and else the division identity holds
      for what it leaves. */
  lemma DivideExact(s: State, d: nat, v: word)
    requires d < 16
    ensures var t := Divide(s, d, v);
            var u := Reg(s, d) * 0x10000 + Reg(s, d + 1);
            && (Has(t.st, OV) <==> v == 0 || u / v >= 0x10000)
            && (Has(t.st, OV) ==> t.mem == s.mem)
            && (!Has(t.st, OV) ==> Reg(t, d) * v + Reg(t, d + 1) == u && Reg(t, d + 1) < v)
  {
    SetHas(s.st, OV, true);
    SetHas(s.st, OV, false);
    DivideCases(s, d, v);
    hide Has, Set, Reg, Divide, Low;
    if v > Reg(s, d) {
      DivisionIdentity(Reg(s, d), Reg(s, d + 1), v);
    } else if v != 0 {
      QuotientFits(Reg(s, d), Reg(s, d + 1), v);
    }
  }

  lemma StatusApart(s: State, st: word)
    ensures forall r: nat :: Reg(s.(st := st), r) == Reg(s, r)
  {
  }

  /** The register that the operand's decoding steps on is none of the two, nor the source. */
  ghost predicate Aside(s: State, d: nat, mode: int, reg: nat)
    requires 0 <= mode < 4
  {
    var a := Operand(s, mode, reg, false).1;
    && a / 2 != RegAt(s.wp, d) / 2 && a / 2 != RegAt(s.wp, d + 1) / 2
    && (mode == INDIRINC ==>
          var x := RegAt(s.wp, reg) / 2;
          x != a / 2 && x != RegAt(s.wp, d) / 2 && x != RegAt(s.wp, d + 1) / 2)
  }

  lemma OperandAside(s: State, d: nat, mode: int, reg: nat)
    requires 0 <= mode < 4 && d < 16 && Aside(s, d, mode, reg)
    ensures var (t, a) := Operand(s, mode, reg, false);
            && t.wp == s.wp && ReadW(t.mem, a) == ReadW(s.mem, a) && Reg(t, d) == Reg(s, d) && Reg(t, d + 1) == Reg(s, d + 1)
  {
  }

  lemma MultiplyKeeps(s: State, d: nat, v: word, a: word)
    requires d < 16 && a / 2 != RegAt(s.wp, d) / 2 && a / 2 != RegAt(s.wp, d + 1) / 2
    ensures ReadW(Multiply(s, d, v).mem, a) == ReadW(s.mem, a)
  {
  }

  /** DIV undoes MPY: for any operands that name the same nonzero word, however each is addressed,
      as long as that word and the registers stepped on are apart from the two, the register is
      back and the remainder is 0. p: where the second instruction's operand word would be fetched. */
  lemma MpyThenDiv(s: State, d: nat, mode: int, reg: nat, p: word, mode2: int, reg2: nat, cru: word)
    requires d < 16 && 0 <= mode < 4 && 0 <= mode2 < 4 && Aside(s, d, mode, reg)
    requires ReadW(s.mem, Operand(s, mode, reg, false).1) != 0
    requires var m := RegAndOperand(s, 0x3800, d, mode, reg, cru);
             && m.Done? && Aside(m.s.(pc := p), d, mode2, reg2)
             && Operand(m.s.(pc := p), mode2, reg2, false).1 / 2 == Operand(s, mode, reg, false).1 / 2
    ensures var m := RegAndOperand(s, 0x3800, d, mode, reg, cru).s;
            var t := RegAndOperand(m.(pc := p), 0x3C00, d, mode2, reg2, cru);
            t.Done? && Reg(t.s, d) == Reg(s, d) && Reg(t.s, d + 1) == 0 && !Has(t.s.st, OV)
  {
    hide Has, Divide, Multiply, Operand, Aside;
    var (s1, a1) := Operand(s, mode, reg, false);
    OperandAside(s, d, mode, reg);
    AsideApart(s, d, mode, reg);
    var v := ReadW(s1.mem, a1);
    MultiplyExact(s1, d, v);
    MultiplyKeeps(s1, d, v, a1);
    var n := Multiply(s1, d, v).(pc := p);
    OperandAside(n, d, mode2, reg2);
    var (s2, a2) := Operand(n, mode2, reg2, false);
    assert ReadW(s2.mem, a2) == v;
    var u, b := Reg(s2, d) * 0x10000 + Reg(s2, d + 1), Reg(s1, d);
    DivideExact(s2, d, v);
    DivIs(u, v, b, 0);
    var t := Divide(s2, d, v);
    DivIs(u, v, Reg(t, d), Reg(t, d + 1));
  }

  lemma AsideApart(s: State, d: nat, mode: int, reg: nat)
    requires 0 <= mode < 4 && Aside(s, d, mode, reg)
    ensures var a := Operand(s, mode, reg, false).1; a / 2 != RegAt(s.wp, d) / 2 && a / 2 != RegAt(s.wp, d + 1) / 2
  {
  }
}
