/** A tokenised BASIC program as a value: items, lines, and the relocated image with its reversed
    line table. */
module Basic {
  import opened Bytes

  const PROGRAM_TOP: nat := 0x37d7
  const QUOTED: byte := 0xc7
  const UNQUOTED: byte := 0xc8
  const LINE_NUMBER: byte := 0xc9
  const HEADER: nat := 8
  const ENTRY: nat := 4
  const WRAP: nat := 0x10000
  const MAX_LINE_NUMBER: nat := 32767   // entries of the encoder's line table

  /** What one emit leaves in the output: a plain byte, a string with its length, or a line
      number. */
  datatype Item = Plain(b: byte) | Quoted(s: seq<byte>) | Unquoted(s: seq<byte>) | LineNo(n: nat)

  datatype Line = Line(number: nat, items: seq<Item>)

  predicate ValidItem(it: Item) {
    match it
    case Plain(b) => b != QUOTED && b != UNQUOTED && b != LINE_NUMBER
    case Quoted(s) => |s| < 256
    case Unquoted(s) => |s| < 256
    case LineNo(n) => n < 0x10000
  }

  ghost predicate ValidItems(items: seq<Item>) {
    forall i :: 0 <= i < |items| ==> ValidItem(items[i])
  }

  function LowByte(x: int): byte { x % 256 }

  function Word(x: nat): (w: seq<byte>)
    ensures |w| == 2
  {
    [LowByte(x / 256), LowByte(x)]
  }

  function WordAt(d: seq<byte>, i: nat): nat
    requires i + 1 < |d|
  {
    d[i] as int * 256 + d[i + 1]
  }

  function ItemBytes(it: Item): (d: seq<byte>)
    ensures |d| > 0
  {
    match it
    case Plain(b) => [b]
    case Quoted(s) => [QUOTED, LowByte(|s|)] + s
    case Unquoted(s) => [UNQUOTED, LowByte(|s|)] + s
    case LineNo(n) => [LINE_NUMBER] + Word(n)
  }

  function ItemsBytes(items: seq<Item>): seq<byte> {
    if items == [] then [] else ItemBytes(items[0]) + ItemsBytes(items[1..])
  }

  lemma {:induction false} ItemsSnoc(items: seq<Item>, it: Item)
    ensures ItemsBytes(items + [it]) == ItemsBytes(items) + ItemBytes(it)
  {
    hide ItemBytes;
    if items == [] {
      assert items + [it] == [it];
      assert ItemsBytes([it][1..]) == [];
    } else {
      ItemsSnoc(items[1..], it);
      assert (items + [it])[1..] == items[1..] + [it];
    }
  }

  // ----- the steps of the decoder over a line's bytes

  /** How far decodeLine goes for the item that starts here. */
  function StepLength(d: seq<byte>): (n: nat)
    requires d != []
    ensures n > 0
  {
    if d[0] == QUOTED || d[0] == UNQUOTED then 2 + (if |d| > 1 then d[1] as int else 0)
    else if d[0] == LINE_NUMBER then 3 else 1
  }

  /** The steps end exactly at the end. */
  predicate Whole(d: seq<byte>)
    decreases |d|
  {
    d == [] || (StepLength(d) <= |d| && Whole(d[StepLength(d)..]))
  }

  function ItemOf(d: seq<byte>): (it: Item)
    requires d != [] && StepLength(d) <= |d|
  {
    var n := StepLength(d);
    if d[0] == QUOTED then Quoted(d[2..n])
    else if d[0] == UNQUOTED then Unquoted(d[2..n])
    else if d[0] == LINE_NUMBER then LineNo(WordAt(d, 1)) else Plain(d[0])
  }

  function DecodeItems(d: seq<byte>): seq<Item>
    requires Whole(d)
    decreases |d|
  {
    if d == [] then [] else [ItemOf(d)] + DecodeItems(d[StepLength(d)..])
  }

  lemma OneItem(it: Item, rest: seq<byte>)
    requires ValidItem(it)
    ensures var d := ItemBytes(it) + rest;
            && StepLength(d) == |ItemBytes(it)| && d[StepLength(d)..] == rest && ItemOf(d) == it
  {
    var d := ItemBytes(it) + rest;
    match it
    case Plain(b) =>
    case Quoted(s) => assert d[2..2 + |s|] == s;
    case Unquoted(s) => assert d[2..2 + |s|] == s;
    case LineNo(n) => assert d[1] == n / 256 && d[2] == n % 256;
  }

  /** The steps find exactly the items that were emitted. */
  lemma {:induction false} ItemsRoundTrip(items: seq<Item>)
    requires ValidItems(items)
    ensures Whole(ItemsBytes(items)) && DecodeItems(ItemsBytes(items)) == items
  {
    hide ItemBytes, StepLength, ItemOf;
    if items != [] {
      ItemsRoundTrip(items[1..]);
      OneItem(items[0], ItemsBytes(items[1..]));
    }
  }

  lemma BackToBytes(d: seq<byte>)
    requires d != [] && StepLength(d) <= |d|
    ensures ValidItem(ItemOf(d)) && ItemBytes(ItemOf(d)) == d[..StepLength(d)]
  {
    if d[0] == LINE_NUMBER {
      assert d[..3] == [d[0], d[1], d[2]];
      var w := WordAt(d, 1);
      assert w / 256 == d[1] && w % 256 == d[2];
    } else if d[0] == QUOTED || d[0] == UNQUOTED {
      assert d[..2 + d[1]] == [d[0], d[1]] + d[2..2 + d[1]];
    }
  }

  lemma NextStep(d: seq<byte>)
    requires Whole(d) && d != []
    ensures StepLength(d) <= |d| && Whole(d[StepLength(d)..])
    ensures DecodeItems(d) == [ItemOf(d)] + DecodeItems(d[StepLength(d)..])
  {
    hide StepLength, ItemOf;
  }

  lemma ItemsCons(it: Item, rest: seq<Item>)
    ensures ItemsBytes([it] + rest) == ItemBytes(it) + ItemsBytes(rest)
    ensures ValidItem(it) && ValidItems(rest) ==> ValidItems([it] + rest)
  {
    hide ItemBytes, ValidItem;
    assert ([it] + rest)[1..] == rest;
  }

  /** And every string the steps get through is what some items emit: no byte is lost. */
  lemma {:induction false} BytesRoundTrip(d: seq<byte>)
    requires Whole(d)
    ensures ValidItems(DecodeItems(d)) && ItemsBytes(DecodeItems(d)) == d
    decreases |d|
  {
    if d != [] {
      hide ItemBytes, StepLength, ItemOf, ValidItem, Whole, DecodeItems, ItemsBytes, ValidItems;
      NextStep(d);
      var rest := d[StepLength(d)..];
      BytesRoundTrip(rest);
      BackToBytes(d);
      ItemsCons(ItemOf(d), DecodeItems(rest));
      assert d == d[..StepLength(d)] + rest;
    }
  }

  // ----- lines and code

  ghost predicate ValidLine(l: Line) {
    0 < l.number < 0x10000 && ValidItems(l.items) && |ItemsBytes(l.items)| <= 254
  }

  ghost predicate ValidLines(ls: seq<Line>) {
    forall i :: 0 <= i < |ls| ==> ValidLine(ls[i])
  }

  /** Length byte, items, end of line. */
  function LineBytes(l: Line): (d: seq<byte>)
    ensures |d| == |ItemsBytes(l.items)| + 2
  {
    [LowByte(|ItemsBytes(l.items)| + 1)] + ItemsBytes(l.items) + [0]
  }

  function Code(ls: seq<Line>): seq<byte> {
    if ls == [] then [] else Code(ls[..|ls| - 1]) + LineBytes(ls[|ls| - 1])
  }

  /** Where line i's length byte is in the code. */
  function Start(ls: seq<Line>, i: nat): nat
    requires i <= |ls|
  {
    |Code(ls[..i])|
  }

  lemma SliceOfPrefix(a: seq<byte>, b: seq<byte>, at: nat, len: nat)
    requires at + len <= |a|
    ensures (a + b)[at..at + len] == a[at..at + len]
  {
  }

  lemma {:induction false} CodeAt(ls: seq<Line>, i: nat)
    requires i < |ls|
    ensures Start(ls, i) + |LineBytes(ls[i])| <= |Code(ls)|
    ensures Code(ls)[Start(ls, i)..Start(ls, i) + |LineBytes(ls[i])|] == LineBytes(ls[i])
  {
    hide LineBytes, Code;
    var n := |ls| - 1;
    CodeNext(ls);
    if i < n {
      CodeAt(ls[..n], i);
      assert ls[..n][..i] == ls[..i];
      SliceOfPrefix(Code(ls[..n]), LineBytes(ls[n]), Start(ls, i), |LineBytes(ls[i])|);
    } else {
      SliceOfSuffix(Code(ls[..n]), LineBytes(ls[n]));
    }
  }

  lemma CodeNext(ls: seq<Line>)
    requires ls != []
    ensures Code(ls) == Code(ls[..|ls| - 1]) + LineBytes(ls[|ls| - 1])
  {
  }

  lemma SliceOfSuffix(a: seq<byte>, b: seq<byte>)
    ensures (a + b)[|a|..|a| + |b|] == b
  {
  }

  /** What decodeLine reads from a line's first byte on. */
  ghost predicate LineHas(d: seq<byte>, at: nat, items: seq<Item>) {
    && at < |d| && 1 <= d[at] && at + d[at] <= |d|
    && Whole(d[at + 1..at + d[at]]) && DecodeItems(d[at + 1..at + d[at]]) == items
  }

  lemma MiddleOf(whole: seq<byte>, n: nat, t: seq<byte>)
    requires |t| == n && |whole| == n + 2 && whole == [LowByte(n + 1)] + t + [0]
    ensures whole[1..n + 1] == t
  {
  }

  lemma LineReadBack(d: seq<byte>, at: nat, l: Line)
    requires ValidLine(l) && at + |LineBytes(l)| <= |d| && d[at..at + |LineBytes(l)|] == LineBytes(l)
    ensures LineHas(d, at, l.items)
  {
    hide Whole, DecodeItems, ItemsBytes;
    ItemsRoundTrip(l.items);
    var t := ItemsBytes(l.items);
    var whole := d[at..at + |t| + 2];
    assert d[at] == whole[0] == |t| + 1;
    SubSlice(d, at, at + |t| + 2, 1, |t| + 1);
    MiddleOf(whole, |t|, t);
  }

  // ----- the image

  /** XOR of two words goes byte by byte, whichever the byte order. */
  function XorWord(a: nat, b: nat): (x: nat)
    ensures x < 0x10000
  {
    assert Pow2(8) == 256;
    Xor(a / 256, b / 256, 8) * 256 + Xor(a % 256, b % 256, 8)
  }

  lemma {:induction false} XorSmall(a: nat, b: nat, n: nat, k: nat)
    requires k <= n && a < Pow2(k) && b < Pow2(k)
    ensures Xor(a, b, n) < Pow2(k)
  {
    if k > 0 {
      XorSmall(a / 2, b / 2, n - 1, k - 1);
    } else if n > 0 {
      XorSmall(a / 2, b / 2, n - 1, 0);
    }
  }

  function Top(lenCode: nat): nat { (PROGRAM_TOP - lenCode) % 0x10000 }

  function Bottom(lenCode: nat, n: nat): nat { (PROGRAM_TOP - lenCode - ENTRY * n + 1) % 0x10000 }

  function ImageHeader(n: nat, lenCode: nat): (h: seq<byte>)
    ensures |h| == HEADER
  {
    Word(XorWord(Top(lenCode), Bottom(lenCode, n))) + Word(Top(lenCode)) + Word(Bottom(lenCode, n)) + Word(PROGRAM_TOP)
  }

  /** The address of a line: of the byte after its length. */
  function Address(lenCode: nat, start: nat): nat { (PROGRAM_TOP - lenCode + start + 2) % 0x10000 }

  function EntryOf(ls: seq<Line>, lenCode: nat, i: nat): (e: seq<byte>)
    requires i < |ls|
    ensures |e| == ENTRY
  {
    Word(ls[i].number) + Word(Address(lenCode, Start(ls, i)))
  }

  /** The first k entries of the table: the last lines, last first. */
  function Table(ls: seq<Line>, lenCode: nat, k: nat): (t: seq<byte>)
    requires k <= |ls|
    ensures |t| == ENTRY * k
  {
    if k == 0 then [] else Table(ls, lenCode, k - 1) + EntryOf(ls, lenCode, |ls| - k)
  }

  /** junk: the length byte reserved for a line that turned out to have no number, if any. */
  function Image(ls: seq<Line>, junk: seq<byte>): (d: seq<byte>)
    ensures |d| == HEADER + ENTRY * |ls| + |Code(ls)| + |junk|
  {
    var lenCode := |Code(ls)| + |junk|;
    ImageHeader(|ls|, lenCode) + Table(ls, lenCode, |ls|) + Code(ls) + junk
  }

  // ----- the decoder

  /** decodeBasicFileCheck, with the sign of a protected program's check word removed. */
  predicate FileCheck(d: seq<byte>)
    requires |d| >= HEADER
  {
    var check := WordAt(d, 0);
    var top, bottom, prog := WordAt(d, 2), WordAt(d, 4), WordAt(d, 6);
    var x := if check >= 0x8000 then 0x10000 - check else check;
    && (x - XorWord(top, bottom)) % 0x10000 == 0
    && top >= bottom && prog >= bottom && prog >= top && prog <= 0x3fff
  }

  function LineCount(d: seq<byte>): nat
    requires |d| >= HEADER && FileCheck(d)
  {
    (WordAt(d, 2) - WordAt(d, 4) + 1) / 4
  }

  /** Where table entry j says its line's length byte is. */
  function EntryStart(d: seq<byte>, j: nat): int
    requires HEADER + ENTRY * j + 3 < |d|
  {
    HEADER + WordAt(d, HEADER + ENTRY * j + 2) - WordAt(d, 4) - 1
  }

  /** A program the decoder gets through: these lines, last entry of the table first. */
  ghost predicate Decodes(d: seq<byte>, ls: seq<Line>) {
    && |d| >= HEADER && FileCheck(d) && LineCount(d) == |ls| && HEADER + ENTRY * |ls| <= |d|
    && forall i :: 0 <= i < |ls| ==> EntryHas(d, |ls| - 1 - i, ls[i])
  }

  ghost predicate EntryHas(d: seq<byte>, j: nat, l: Line)
    requires HEADER + ENTRY * j + 3 < |d|
  {
    && WordAt(d, HEADER + ENTRY * j) == l.number
    && 0 <= EntryStart(d, j) && LineHas(d, EntryStart(d, j), l.items)
  }

  // ----- the round trip

  lemma WordReadBack(x: nat, d: seq<byte>, i: nat)
    requires x < 0x10000 && i + 1 < |d| && d[i..i + 2] == Word(x)
    ensures WordAt(d, i) == x
  {
    assert d[i] == d[i..i + 2][0] && d[i + 1] == d[i..i + 2][1];
  }

  lemma HeaderReadBack(n: nat, lenCode: nat, d: seq<byte>)
    requires |d| >= HEADER && d[..HEADER] == ImageHeader(n, lenCode)
    ensures WordAt(d, 0) == XorWord(Top(lenCode), Bottom(lenCode, n))
    ensures WordAt(d, 2) == Top(lenCode) && WordAt(d, 4) == Bottom(lenCode, n) && WordAt(d, 6) == PROGRAM_TOP
  {
    hide XorWord, Top, Bottom, Word;
    var h := ImageHeader(n, lenCode);
    assert d[0..2] == d[..HEADER][0..2] == h[0..2] && d[2..4] == d[..HEADER][2..4] == h[2..4];
    assert d[4..6] == d[..HEADER][4..6] == h[4..6] && d[6..8] == d[..HEADER][6..8] == h[6..8];
    TopInRange(n, lenCode);
    WordReadBack(XorWord(Top(lenCode), Bottom(lenCode, n)), d, 0);
    WordReadBack(Top(lenCode), d, 2);
    WordReadBack(Bottom(lenCode, n), d, 4);
    WordReadBack(PROGRAM_TOP, d, 6);
  }

  lemma TopInRange(n: nat, lenCode: nat)
    ensures Top(lenCode) < 0x10000 && Bottom(lenCode, n) < 0x10000
  {
  }

  /** What is left of the table's size in 16 bits, less one. */
  function TableRest(n: nat): (r: nat)
    ensures r < WRAP
  {
    (ENTRY * n - 1) % WRAP
  }

  /** Code and table fit below the program top, and there is a line. */
  predicate Fits(n: nat, lenCode: nat) { n >= 1 && lenCode + ENTRY * n <= PROGRAM_TOP + 1 }

  /** The same of what is left of both sizes in 16 bits: all that the header words can tell. */
  predicate SeemsToFit(n: nat, lenCode: nat) { lenCode % WRAP + TableRest(n) <= PROGRAM_TOP }

  lemma TopIs(lenCode: nat)
    ensures Top(lenCode) <= PROGRAM_TOP <==> lenCode % WRAP <= PROGRAM_TOP
    ensures lenCode % WRAP <= PROGRAM_TOP ==> Top(lenCode) == PROGRAM_TOP - lenCode % WRAP
  {
  }

  lemma BottomIs(n: nat, lenCode: nat)
    ensures var top, rest := Top(lenCode), TableRest(n);
            Bottom(lenCode, n) == if rest <= top then top - rest else top - rest + WRAP
  {
    var x, y: int := PROGRAM_TOP - lenCode, ENTRY * n - 1;
    var q, p := x / WRAP, y / WRAP;
    assert x == q * WRAP + Top(lenCode) && y == p * WRAP + TableRest(n);
    assert x - y == (q - p) * WRAP + (Top(lenCode) - TableRest(n));
  }

  lemma RestIs(n: nat)
    ensures n >= 1 && ENTRY * n <= WRAP ==> TableRest(n) == ENTRY * n - 1
    ensures n == 0 ==> TableRest(n) == WRAP - 1
    ensures (TableRest(n) + 1) / ENTRY == (if n % 0x4000 == 0 then 0x4000 else n % 0x4000)
  {
  }

  lemma XorFits(top: nat, bottom: nat)
    requires top < 0x4000 && bottom < 0x4000
    ensures XorWord(top, bottom) < 0x4000
  {
    assert Pow2(6) == 64 && Pow2(8) == 256;
    XorSmall(top / 256, bottom / 256, 8, 6);
  }

  /** The header passes the check exactly when what is left of code and table in 16 bits fits
      below the program top; the count it gives then is that of the lines, in 14 bits. */
  lemma CheckLaw(n: nat, lenCode: nat, d: seq<byte>)
    requires |d| >= HEADER && d[..HEADER] == ImageHeader(n, lenCode)
    ensures FileCheck(d) <==> SeemsToFit(n, lenCode)
    ensures FileCheck(d) ==> LineCount(d) == n % 0x4000
  {
    hide XorWord, Top, Bottom, ImageHeader, TableRest;
    HeaderReadBack(n, lenCode, d);
    TopIs(lenCode);
    BottomIs(n, lenCode);
    RestIs(n);
    if SeemsToFit(n, lenCode) {
      XorFits(Top(lenCode), Bottom(lenCode, n));
    }
  }

  /** A program that fits is seen to fit; one that does not can seem to only from 65536 bytes of
      code or 16385 lines on. */
  lemma SeemsOrFits(n: nat, lenCode: nat)
    ensures Fits(n, lenCode) ==> SeemsToFit(n, lenCode)
    ensures SeemsToFit(n, lenCode) && !Fits(n, lenCode) ==> lenCode >= WRAP || n > 0x4000
  {
    RestIs(n);
  }

  lemma {:induction false} TableAt(ls: seq<Line>, lenCode: nat, k: nat, j: nat)
    requires j < k <= |ls|
    ensures Table(ls, lenCode, k)[ENTRY * j..ENTRY * j + ENTRY] == EntryOf(ls, lenCode, |ls| - 1 - j)
  {
    hide EntryOf;
    if j < k - 1 {
      TableAt(ls, lenCode, k - 1, j);
      assert Table(ls, lenCode, k)[ENTRY * j..ENTRY * j + ENTRY] == Table(ls, lenCode, k - 1)[ENTRY * j..ENTRY * j + ENTRY];
    }
  }

  /** Where line i's bytes are in the image. */
  lemma ImageAt(ls: seq<Line>, junk: seq<byte>, i: nat)
    requires i < |ls|
    ensures var d, at := Image(ls, junk), HEADER + ENTRY * |ls| + Start(ls, i);
            && at + |LineBytes(ls[i])| <= |d| && d[at..at + |LineBytes(ls[i])|] == LineBytes(ls[i])
  {
    hide Code, LineBytes, Table, ImageHeader;
    CodeAt(ls, i);
    var d, s, len := Image(ls, junk), Start(ls, i), |LineBytes(ls[i])|;
    var at := HEADER + ENTRY * |ls|;
    assert d[at + s..at + s + len] == Code(ls)[s..s + len];
  }

  lemma EntryAt(ls: seq<Line>, junk: seq<byte>, j: nat)
    requires j < |ls|
    ensures var d, at := Image(ls, junk), HEADER + ENTRY * j;
            && at + ENTRY <= |d| && d[at..at + ENTRY] == EntryOf(ls, |Code(ls)| + |junk|, |ls| - 1 - j)
  {
    hide Code, EntryOf, Table, ImageHeader;
    var lenCode := |Code(ls)| + |junk|;
    TableAt(ls, lenCode, |ls|, j);
    var d, t := Image(ls, junk), Table(ls, lenCode, |ls|);
    assert d[HEADER + ENTRY * j..HEADER + ENTRY * j + ENTRY] == t[ENTRY * j..ENTRY * j + ENTRY];
  }

  /** The relocated address leads back to the line. */
  lemma AddressLeadsBack(n: nat, lenCode: nat, start: nat)
    requires start < lenCode && lenCode + ENTRY * n <= PROGRAM_TOP + 1
    ensures HEADER + Address(lenCode, start) - Bottom(lenCode, n) - 1 == HEADER + ENTRY * n + start
  {
  }

  lemma EntryWords(ls: seq<Line>, junk: seq<byte>, i: nat)
    requires i < |ls| && ls[i].number < 0x10000
    ensures var d, at, lenCode := Image(ls, junk), HEADER + ENTRY * (|ls| - 1 - i), |Code(ls)| + |junk|;
            && at + 3 < |d|
            && WordAt(d, at) == ls[i].number && WordAt(d, at + 2) == Address(lenCode, Start(ls, i))
            && WordAt(d, 4) == Bottom(lenCode, |ls|)
  {
    hide Code, Table, ImageHeader, Image, Bottom, Address, Start, Word, Top;
    var d, j, lenCode := Image(ls, junk), |ls| - 1 - i, |Code(ls)| + |junk|;
    EntryAt(ls, junk, j);
    var at := HEADER + ENTRY * j;
    var e := EntryOf(ls, lenCode, i);
    SubSlice(d, at, at + ENTRY, 0, 2);
    SubSlice(d, at, at + ENTRY, 2, 4);
    assert e[0..2] == Word(ls[i].number) && e[2..4] == Word(Address(lenCode, Start(ls, i)));
    AddressInRange(lenCode, Start(ls, i));
    WordReadBack(ls[i].number, d, at);
    WordReadBack(Address(lenCode, Start(ls, i)), d, at + 2);
    ImagePrefix(ls, junk);
    HeaderReadBack(|ls|, lenCode, d);
  }

  lemma EntryReadBack(ls: seq<Line>, junk: seq<byte>, i: nat)
    requires ValidLines(ls) && i < |ls| && |Code(ls)| + |junk| + ENTRY * |ls| <= PROGRAM_TOP + 1
    ensures HEADER + ENTRY * (|ls| - 1 - i) + 3 < |Image(ls, junk)| && EntryHas(Image(ls, junk), |ls| - 1 - i, ls[i])
  {
    hide Code, LineBytes, Table, ImageHeader, Image, ItemsBytes, LineHas, Bottom, Address, ValidItems, WordAt, Start;
    EntryWords(ls, junk, i);
    ImageAt(ls, junk, i);
    CodeAt(ls, i);
    AddressLeadsBack(|ls|, |Code(ls)| + |junk|, Start(ls, i));
    LineReadBack(Image(ls, junk), HEADER + ENTRY * |ls| + Start(ls, i), ls[i]);
  }

  lemma AddressInRange(lenCode: nat, start: nat)
    ensures Address(lenCode, start) < 0x10000
  {
  }

  lemma ImagePrefix(ls: seq<Line>, junk: seq<byte>)
    ensures Image(ls, junk)[..HEADER] == ImageHeader(|ls|, |Code(ls)| + |junk|)
  {
    hide Code, Table, ImageHeader;
  }

  /** For every program of valid lines: the check accepts the image exactly when it seems to fit;
      a program that fits is decoded to exactly its lines, in source order; and unless one that
      does not fit seems to, no other is. */
  lemma ImageRoundTrip(ls: seq<Line>, junk: seq<byte>)
    requires ValidLines(ls)
    ensures var d, n, lenCode := Image(ls, junk), |ls|, |Code(ls)| + |junk|;
            && (FileCheck(d) <==> SeemsToFit(n, lenCode))
            && (Fits(n, lenCode) ==> Decodes(d, ls))
            && ((SeemsToFit(n, lenCode) ==> Fits(n, lenCode)) ==> (Decodes(d, ls) <==> Fits(n, lenCode)))
  {
    hide Code, Table, ImageHeader, EntryHas, FileCheck, LineCount, Image, ValidLines, TableRest;
    ImagePrefix(ls, junk);
    CheckLaw(|ls|, |Code(ls)| + |junk|, Image(ls, junk));
    SeemsOrFits(|ls|, |Code(ls)| + |junk|);
    if Fits(|ls|, |Code(ls)| + |junk|) {
      forall i | 0 <= i < |ls| ensures EntryHas(Image(ls, junk), |ls| - 1 - i, ls[i]) {
        EntryReadBack(ls, junk, i);
      }
    }
  }

  // ----- programs whose sizes wrap

  lemma {:induction false} LineStarts(ls: seq<Line>, i: nat)
    requires ValidLines(ls) && i < |ls|
    ensures Start(ls, i + 1) == Start(ls, i) + |LineBytes(ls[i])| && 2 <= |LineBytes(ls[i])| <= 256
  {
    hide LineBytes, ItemsBytes, ValidItems;
    assert ls[..i + 1][..i] == ls[..i];
    assert |LineBytes(ls[i])| == |ItemsBytes(ls[i].items)| + 2;
  }

  /** Lines are short, so one of them starts in any stretch of 256 bytes of the code. */
  lemma {:induction false} LineIn(ls: seq<Line>, from: nat, k: nat) returns (i: nat)
    requires ValidLines(ls) && k <= |ls| && 0 < from && from + 256 <= Start(ls, k)
    ensures i < k && from <= Start(ls, i) < from + 256
    decreases k
  {
    hide Start, Code, ValidLine;
    NoStart(ls);
    LineStarts(ls, k - 1);
    if Start(ls, k - 1) < from + 256 {
      i := k - 1;
    } else {
      i := LineIn(ls, from, k - 1);
    }
  }

  lemma NoStart(ls: seq<Line>)
    ensures Start(ls, 0) == 0
  {
  }

  /** 16385 lines or more: the decoder sees fewer. From 65536 bytes of code on, with 264 bytes
      below the table: the address of some line leads in front of the data. Neither is the
      program encoded. */
  lemma WrappedNeverDecodes(ls: seq<Line>, junk: seq<byte>)
    requires ValidLines(ls) && |junk| <= 1
    requires |ls| >= 0x4000 || (|Code(ls)| >= WRAP && Bottom(|Code(ls)| + |junk|, |ls|) >= 264)
    ensures !Decodes(Image(ls, junk), ls)
    ensures FileCheck(Image(ls, junk)) && |ls| < 0x4000 ==>
              exists j :: 0 <= j < |ls| && HEADER + ENTRY * j + 3 < |Image(ls, junk)| && EntryStart(Image(ls, junk), j) < 0
  {
    hide Code, Table, ImageHeader, FileCheck, LineCount, Image, Start, LineHas, TableRest, Top, Bottom, EntryStart;
    var d, n, lenCode := Image(ls, junk), |ls|, |Code(ls)| + |junk|;
    ImagePrefix(ls, junk);
    CheckLaw(n, lenCode, d);
    RestIs(n);
    if FileCheck(d) && n < 0x4000 {
      var i := LostLine(ls, lenCode);
      EntryWords(ls, junk, i);
      EscapedAddress(n, lenCode, Start(ls, i));
      var j := n - 1 - i;
      EntryStartIs(d, j);
      assert EntryStart(d, j) < 0;
      assert !EntryHas(d, n - 1 - i, ls[i]);
    }
  }

  lemma EntryStartIs(d: seq<byte>, j: nat)
    requires HEADER + ENTRY * j + 3 < |d|
    ensures EntryStart(d, j) == HEADER + WordAt(d, HEADER + ENTRY * j + 2) - WordAt(d, 4) - 1
  {
  }

  lemma LostLine(ls: seq<Line>, lenCode: nat) returns (i: nat)
    requires ValidLines(ls) && |ls| >= 1 && |Code(ls)| >= WRAP && |Code(ls)| <= lenCode <= |Code(ls)| + 1
    requires SeemsToFit(|ls|, lenCode) && Bottom(lenCode, |ls|) >= 264
    ensures i < |ls| && WRAP - Top(lenCode) - 2 <= Start(ls, i) < WRAP - Top(lenCode) - 2 + 256
  {
    hide Code, Start, TableRest, Top, Bottom;
    TopIs(lenCode);
    BottomIs(|ls|, lenCode);
    AllStarts(ls);
    i := LineIn(ls, WRAP - Top(lenCode) - 2, |ls|);
  }

  lemma AllStarts(ls: seq<Line>)
    ensures Start(ls, |ls|) == |Code(ls)|
  {
    assert ls[..|ls|] == ls;
  }

  lemma EscapedAddress(n: nat, lenCode: nat, start: nat)
    requires SeemsToFit(n, lenCode) && Bottom(lenCode, n) >= 264
    requires WRAP - Top(lenCode) - 2 <= start < WRAP - Top(lenCode) - 2 + 256
    ensures HEADER + Address(lenCode, start) - Bottom(lenCode, n) - 1 < 0
  {
    var x, t: int := PROGRAM_TOP - lenCode, Top(lenCode);
    assert x == x / WRAP * WRAP + t;
    assert x + start + 2 == (x / WRAP + 1) * WRAP + (t + start + 2 - WRAP);
  }

  /** 258 full lines: more code than the address space. */
  function LongProgram(n: nat): (ls: seq<Line>)
    ensures |ls| == n
  {
    seq(n, i requires 0 <= i < n => Line(i + 1, seq(254, _ => Plain(32))))
  }

  lemma {:induction false} PlainBytes(items: seq<Item>)
    requires forall i :: 0 <= i < |items| ==> items[i].Plain?
    ensures |ItemsBytes(items)| == |items|
  {
    if items != [] {
      PlainBytes(items[1..]);
    }
  }

  lemma {:induction false} LongCode(n: nat)
    requires n < WRAP
    ensures ValidLines(LongProgram(n)) && |Code(LongProgram(n))| == 256 * n
  {
    var ls := LongProgram(n);
    hide ItemsBytes;
    forall i | 0 <= i < n ensures ValidLine(ls[i]) && |LineBytes(ls[i])| == 256 {
      PlainBytes(ls[i].items);
    }
    if n > 0 {
      assert ls[..n - 1] == LongProgram(n - 1);
      LongCode(n - 1);
      hide LineBytes, ValidLine;
    }
  }

  /** A program that does not fit and passes the check all the same, with the right number of
      lines; the address of one of them leads in front of the data. */
  lemma AcceptedThoughTooLong()
    ensures var ls := LongProgram(258);
            var d := Image(ls, []);
            && ValidLines(ls) && |Code(ls)| == 66048 && !Fits(|ls|, |Code(ls)|)
            && FileCheck(d) && LineCount(d) == 258 && !Decodes(d, ls)
            && exists j :: 0 <= j < 258 && HEADER + ENTRY * j + 3 < |d| && EntryStart(d, j) < 0
  {
    hide LongProgram, Code, Image, FileCheck, LineCount, EntryStart, Decodes, ValidLines, Fits, SeemsToFit, Bottom, ImageHeader;
    LongCode(258);
    LongSizes();
    var ls := LongProgram(258);
    ImagePrefix(ls, []);
    CheckLaw(258, 66048, Image(ls, []));
    WrappedNeverDecodes(ls, []);
  }

  lemma LongSizes()
    ensures SeemsToFit(258, 66048) && !Fits(258, 66048) && Bottom(66048, 258) == 12752
  {
  }
}
