/** The encoder and decoder loops over their buffers. */
module BasicCodec {
  import opened Bytes
  import opened Basic

  class Encoder {
    const output: array<byte>
    var outp: nat
    var lineTable: seq<(nat, nat)>     // line number and offset of the byte after the length

    ghost predicate Valid()
      reads this, output
    {
      outp <= output.Length
    }

    constructor (output: array<byte>)
      ensures Valid() && this.output == output && outp == 0 && lineTable == []
    {
      this.output, outp, lineTable := output, 0, [];
    }

    method Emit(data: seq<byte>)
      requires Valid() && outp + |data| <= output.Length
      modifies this`outp, output
      ensures Valid() && outp == old(outp) + |data| && output[..outp] == old(output[..outp]) + data
      ensures output[outp..] == old(output[..])[outp..]
    {
      ghost var was := output[..];
      forall k | 0 <= k < |data| { output[outp + k] := data[k]; }
      outp := outp + |data|;
      assert output[..outp] == was[..outp - |data|] + data;
    }

    /** emitString, emitLineNumber and the default of emitToken. */
    method EmitItem(it: Item)
      requires Valid() && ValidItem(it) && outp + |ItemBytes(it)| <= output.Length
      modifies this`outp, output
      ensures Valid() && output[..outp] == old(output[..outp]) + ItemBytes(it)
      ensures outp == old(outp) + |ItemBytes(it)| && output[outp..] == old(output[..])[outp..]
    {
      ghost var was := output[..];
      match it
      case Plain(b) =>
        Emit([b]);
      case Quoted(s) =>
        Emit([QUOTED, LowByte(|s|)]);
        Emit(s);
        Twice(was[..old(outp)], [QUOTED, LowByte(|s|)], s);
      case Unquoted(s) =>
        Emit([UNQUOTED, LowByte(|s|)]);
        Emit(s);
        Twice(was[..old(outp)], [UNQUOTED, LowByte(|s|)], s);
      case LineNo(n) =>
        Emit([LINE_NUMBER]);
        Emit([LowByte(n / 256), LowByte(n)]);
        Twice(was[..old(outp)], [LINE_NUMBER], Word(n));
    }

    /** processLine between the reserved length byte and its filling in. */
    method ProcessLine(items: seq<Item>)
      requires Valid() && ValidItems(items) && outp + |ItemsBytes(items)| + 1 <= output.Length
      modifies this`outp, output
      ensures Valid() && output[..outp] == old(output[..outp]) + ItemsBytes(items) + [0]
      ensures outp == old(outp) + |ItemsBytes(items)| + 1 && output[outp..] == old(output[..])[outp..]
    {
      hide ItemsBytes, ItemBytes, ValidItem;
      ghost var was, start := output[..], outp;
      NoItems();
      for i := 0 to |items|
        invariant Valid() && outp == start + |ItemsBytes(items[..i])|
        invariant output[..outp] == was[..start] + ItemsBytes(items[..i]) && output[outp..] == was[outp..]
      {
        NextItem(items, i);
        ghost var now, at := output[..], outp;
        EmitItem(items[i]);
        Onwards(was, now, at, output[..], outp);
      }
      assert items[..|items|] == items;
      ghost var now, at := output[..], outp;
      Emit([0]);
      Onwards(was, now, at, output[..], outp);
    }

    /** One pass of the loop over the program's lines. */
    method EncodeLine(l: Line)
      requires Valid() && ValidLine(l) && outp + |LineBytes(l)| <= output.Length
      modifies this, output
      ensures Valid() && output[..outp] == old(output[..outp]) + LineBytes(l)
      ensures outp == old(outp) + |LineBytes(l)| && output[outp..] == old(output[..])[outp..]
      ensures lineTable == old(lineTable) + [(l.number, (old(outp) + 1) % WRAP)]
    {
      hide ItemsBytes, ValidItem;
      ghost var was := output[..];
      var lineStart := outp;
      outp := outp + 1;
      lineTable := lineTable + [(l.number, outp % WRAP)];
      ProcessLine(l.items);
      ghost var now := output[..];
      output[lineStart] := LowByte(outp - lineStart - 1);
      FillLength(was, now, output[..], lineStart, outp, l);
    }

    /** The tokens come from the parser, which is not part of this model: they are given as
        lines. stops tells whether something without a line number follows them. */
    method EncodeLines(lines: seq<Line>, stops: bool)
      requires Valid() && outp == 0 && lineTable == [] && ValidLines(lines) && |Code(lines)| + 1 <= output.Length
      modifies this, output
      ensures Valid() && outp == |Code(lines)| + (if stops then 1 else 0)
      ensures output[..outp] == Code(lines) + if stops then [old(output[..])[|Code(lines)|]] else []
      ensures lineTable == Offsets(lines)
    {
      hide LineBytes, Code, ValidLine, Offsets;
      ghost var was := output[..];
      NoLines(lines);
      for i := 0 to |lines|
        invariant Valid() && outp == |Code(lines[..i])| && output[..outp] == Code(lines[..i]) && output[outp..] == was[outp..]
        invariant lineTable == Offsets(lines[..i])
      {
        NextLine(lines, i);
        ghost var now, at := output[..], outp;
        EncodeLine(lines[i]);
        Onwards(was, now, at, output[..], outp);
      }
      assert lines[..|lines|] == lines;
      if stops {
        assert output[outp] == output[outp..][0] == was[outp];
        outp := outp + 1;
      }
    }

    /** memmove, then the table, then the header. */
    method Assemble(ghost lines: seq<Line>, ghost junk: seq<byte>) returns (size: nat)
      requires Valid() && lineTable == Offsets(lines) && output[..outp] == Code(lines) + junk
      requires HEADER + ENTRY * |lines| + outp <= output.Length
      modifies output
      ensures size <= output.Length && output[..size] == Image(lines, junk)
    {
      hide Code, Offsets, Table, EntryOf, ImageHeader, Image;
      OffsetsSize(lines);
      var lineCount := |lineTable|;
      var lenHeader := HEADER + ENTRY * lineCount;
      var lenCode := outp;
      Shift(lenHeader, lenCode);
      PutTable(lines, lenCode);
      ghost var now := output[..];
      PutHeader(lineCount, lenCode);
      size := lenHeader + lenCode;
      Assembled(now, ImageHeader(lineCount, lenCode), output[..], lenHeader, lenCode);
      ImageIs(lines, junk, lenCode, output[..size]);
    }

    method Shift(to: nat, count: nat)
      requires to + count <= output.Length
      modifies output
      ensures output[to..to + count] == old(output[..count])
    {
      forall k | 0 <= k < count { output[to + k] := output[k]; }
    }

    /** The table, from the last line to the first. */
    method PutTable(ghost lines: seq<Line>, lenCode: nat)
      requires lineTable == Offsets(lines) && HEADER + ENTRY * |lines| + lenCode <= output.Length
      modifies output
      ensures output[HEADER..HEADER + ENTRY * |lines|] == Table(lines, lenCode, |lines|)
      ensures output[HEADER + ENTRY * |lines|..HEADER + ENTRY * |lines| + lenCode]
              == old(output[HEADER + ENTRY * |lines|..HEADER + ENTRY * |lines| + lenCode])
    {
      hide Code, Offsets, Table, EntryOf;
      OffsetsSize(lines);
      NoTable(lines, lenCode);
      ghost var lenHeader := HEADER + ENTRY * |lines|;
      ghost var code := output[lenHeader..lenHeader + lenCode];
      var i, k := |lineTable|, 0;
      while i > 0
        invariant 0 <= i <= |lines| && k == |lines| - i && output[lenHeader..lenHeader + lenCode] == code
        invariant output[HEADER..HEADER + ENTRY * k] == Table(lines, lenCode, k)
      {
        i := i - 1;
        ghost var now := output[..];
        NextEntry(lines, lenCode, k);
        OffsetAt(lines, i);
        EntryIs(lines, lenCode, i);
        PutEntry(HEADER + ENTRY * k, lineTable[i].0, (PROGRAM_TOP - lenCode + lineTable[i].1 + 1) % WRAP);
        EntryPut(now, EntryOf(lines, lenCode, i), output[..], k, lenHeader, lenCode);
        k := k + 1;
      }
    }

    method PutEntry(at: nat, line: nat, address: nat)
      requires at + ENTRY <= output.Length
      modifies output
      ensures output[..] == old(output[..at]) + (Word(line) + Word(address)) + old(output[at + ENTRY..])
    {
      output[at], output[at + 1] := LowByte(line / 256), LowByte(line);
      output[at + 2], output[at + 3] := LowByte(address / 256), LowByte(address);
    }

    method PutHeader(lineCount: nat, lenCode: nat)
      requires HEADER <= output.Length
      modifies output
      ensures output[..] == ImageHeader(lineCount, lenCode) + old(output[HEADER..])
    {
      hide XorWord;
      var top, bottom := (PROGRAM_TOP - lenCode) % 0x10000, (PROGRAM_TOP - lenCode - lineCount * ENTRY + 1) % 0x10000;
      output[6], output[7] := LowByte(PROGRAM_TOP / 256), LowByte(PROGRAM_TOP);
      output[2], output[3] := LowByte(top / 256), LowByte(top);
      output[4], output[5] := LowByte(bottom / 256), LowByte(bottom);
      var xor := XorWord(top, bottom);
      output[0], output[1] := LowByte(xor / 256), LowByte(xor);
    }

    /** encodeBasicProgram. */
    method EncodeBasicProgram(lines: seq<Line>, stops: bool) returns (size: nat)
      requires Valid() && outp == 0 && lineTable == [] && ValidLines(lines) && |lines| <= MAX_LINE_NUMBER
      requires HEADER + ENTRY * |lines| + |Code(lines)| + 1 <= output.Length
      modifies this, output
      ensures size <= output.Length && output[..size] == Image(lines, if stops then [old(output[..])[|Code(lines)|]] else [])
    {
      hide Code, Image, ValidLines;
      EncodeLines(lines, stops);
      size := Assemble(lines, if stops then [old(output[..])[|Code(lines)|]] else []);
    }
  }

  /** The line table as the first pass leaves it. */
  function Offsets(ls: seq<Line>): seq<(nat, nat)> {
    if ls == [] then [] else Offsets(ls[..|ls| - 1]) + [(ls[|ls| - 1].number, (|Code(ls[..|ls| - 1])| + 1) % WRAP)]
  }

  lemma {:induction false} OffsetsSize(ls: seq<Line>)
    ensures |Offsets(ls)| == |ls|
  {
    if ls != [] {
      OffsetsSize(ls[..|ls| - 1]);
    }
  }

  lemma {:induction false} OffsetAt(ls: seq<Line>, i: nat)
    requires i < |ls|
    ensures |Offsets(ls)| == |ls| && Offsets(ls)[i] == (ls[i].number, (Start(ls, i) + 1) % WRAP)
  {
    hide Code;
    OffsetsSize(ls);
    var n := |ls| - 1;
    OffsetsSize(ls[..n]);
    if i < n {
      OffsetAt(ls[..n], i);
      assert ls[..n][..i] == ls[..i];
    }
  }

  lemma NextEntry(ls: seq<Line>, lenCode: nat, k: nat)
    requires k < |ls|
    ensures Table(ls, lenCode, k + 1) == Table(ls, lenCode, k) + EntryOf(ls, lenCode, |ls| - 1 - k)
  {
    hide EntryOf;
  }

  lemma NoTable(ls: seq<Line>, lenCode: nat)
    ensures Table(ls, lenCode, 0) == []
  {
  }

  lemma EntryIs(ls: seq<Line>, lenCode: nat, i: nat)
    requires i < |ls|
    ensures EntryOf(ls, lenCode, i) == Word(ls[i].number) + Word((PROGRAM_TOP - lenCode + (Start(ls, i) + 1) % WRAP + 1) % WRAP)
  {
    hide Word, Start;
  }

  lemma EntryPut(was: seq<byte>, e: seq<byte>, now: seq<byte>, k: nat, lenHeader: nat, lenCode: nat)
    requires HEADER + ENTRY * k + ENTRY <= lenHeader && lenHeader + lenCode <= |was| == |now| && |e| == ENTRY
    requires now == was[..HEADER + ENTRY * k] + e + was[HEADER + ENTRY * k + ENTRY..]
    ensures now[HEADER..HEADER + ENTRY * (k + 1)] == was[HEADER..HEADER + ENTRY * k] + e
    ensures now[lenHeader..lenHeader + lenCode] == was[lenHeader..lenHeader + lenCode]
  {
    forall i | lenHeader <= i < lenHeader + lenCode ensures now[i] == was[i] {
      assert was[HEADER + ENTRY * k + ENTRY..][i - (HEADER + ENTRY * k + ENTRY)] == was[i];
    }
  }

  lemma Assembled(was: seq<byte>, header: seq<byte>, now: seq<byte>, lenHeader: nat, lenCode: nat)
    requires HEADER <= lenHeader && lenHeader + lenCode <= |was| && |header| == HEADER && now == header + was[HEADER..]
    ensures now[..lenHeader + lenCode] == header + was[HEADER..lenHeader] + was[lenHeader..lenHeader + lenCode]
  {
  }

  lemma ImageIs(ls: seq<Line>, junk: seq<byte>, lenCode: nat, d: seq<byte>)
    requires lenCode == |Code(ls)| + |junk| && d == ImageHeader(|ls|, lenCode) + Table(ls, lenCode, |ls|) + (Code(ls) + junk)
    ensures d == Image(ls, junk)
  {
    hide Code, Table, ImageHeader;
  }

  lemma Twice(was: seq<byte>, a: seq<byte>, b: seq<byte>)
    ensures was + a + b == was + (a + b)
  {
  }

  lemma NoItems()
    ensures ItemsBytes([]) == []
  {
  }

  lemma NextItem(items: seq<Item>, i: nat)
    requires i < |items|
    ensures ItemsBytes(items[..i + 1]) == ItemsBytes(items[..i]) + ItemBytes(items[i])
    ensures |ItemsBytes(items[..i + 1])| <= |ItemsBytes(items)|
  {
    hide ItemBytes, ItemsBytes;
    assert items[..i + 1] == items[..i] + [items[i]];
    ItemsSnoc(items[..i], items[i]);
    ItemsPrefix(items, i + 1);
  }

  lemma {:induction false} ItemsPrefix(items: seq<Item>, i: nat)
    requires i <= |items|
    ensures |ItemsBytes(items[..i])| <= |ItemsBytes(items)|
    decreases |items| - i
  {
    hide ItemBytes, ItemsBytes;
    if i == |items| {
      assert items[..i] == items;
    } else {
      assert items[..i + 1] == items[..i] + [items[i]];
      ItemsSnoc(items[..i], items[i]);
      ItemsPrefix(items, i + 1);
    }
  }

  lemma NoLines(ls: seq<Line>)
    ensures ls[..0] == [] && Code([]) == [] && Offsets([]) == []
  {
  }

  lemma NextLine(ls: seq<Line>, i: nat)
    requires i < |ls| && ValidLines(ls)
    ensures Code(ls[..i + 1]) == Code(ls[..i]) + LineBytes(ls[i])
    ensures |Code(ls[..i + 1])| <= |Code(ls)| && ValidLine(ls[i])
    ensures Offsets(ls[..i + 1]) == Offsets(ls[..i]) + [(ls[i].number, (|Code(ls[..i])| + 1) % WRAP)]
  {
    LastLine(ls[..i + 1], ls[..i], ls[i]);
    CodePrefix(ls, i + 1);
  }

  lemma LastLine(all: seq<Line>, front: seq<Line>, l: Line)
    requires all == front + [l]
    ensures Code(all) == Code(front) + LineBytes(l)
    ensures Offsets(all) == Offsets(front) + [(l.number, (|Code(front)| + 1) % WRAP)]
  {
    hide LineBytes;
    assert all[..|all| - 1] == front;
  }

  lemma {:induction false} CodePrefix(ls: seq<Line>, i: nat)
    requires i <= |ls|
    ensures |Code(ls[..i])| <= |Code(ls)|
  {
    hide LineBytes;
    if i == |ls| {
      assert ls[..i] == ls;
    } else {
      CodePrefix(ls[..|ls| - 1], i);
      assert ls[..|ls| - 1][..i] == ls[..i];
    }
  }

  /** What an emit leaves alone beyond its end stays as it was at the start. */
  lemma Onwards(was: seq<byte>, mid: seq<byte>, at: nat, now: seq<byte>, end: nat)
    requires |was| == |mid| == |now| && at <= end <= |was|
    requires mid[at..] == was[at..] && now[end..] == mid[end..]
    ensures now[end..] == was[end..]
  {
    assert mid[end..] == mid[at..][end - at..] == was[at..][end - at..] == was[end..];
  }

  lemma FillLength(was: seq<byte>, mid: seq<byte>, now: seq<byte>, lineStart: nat, end: nat, l: Line)
    requires |was| == |mid| == |now| && lineStart < end <= |was| && ValidLine(l) && end == lineStart + |ItemsBytes(l.items)| + 2
    requires mid[..end] == was[..lineStart + 1] + ItemsBytes(l.items) + [0] && mid[end..] == was[end..]
    requires now == mid[lineStart := LowByte(end - lineStart - 1)]
    ensures now[..end] == was[..lineStart] + LineBytes(l) && now[end..] == was[end..]
  {
    hide ItemsBytes;
    forall k | end <= k < |now| ensures now[k] == was[k] {
      assert mid[end..][k - end] == was[end..][k - end];
    }
  }

  // ----- the decoder

  /** A program whose table and lines lie inside the data, as decodeBasicProgram takes for
      granted once the header has passed. */
  ghost predicate Readable(d: seq<byte>) {
    && |d| >= HEADER
    && (FileCheck(d) ==>
          && HEADER + ENTRY * LineCount(d) <= |d|
          && forall j :: 0 <= j < LineCount(d) ==> LineReadable(d, j))
  }

  ghost predicate LineReadable(d: seq<byte>, j: nat)
    requires HEADER + ENTRY * j + 3 < |d|
  {
    var at := EntryStart(d, j);
    0 <= at < |d| && 1 <= d[at] && at + d[at] <= |d| && Whole(d[at + 1..at + d[at]])
  }

  /** decodeBasicFileCheck on the header in host order. */
  method CheckHeader(input: array<byte>) returns (ok: bool, top: nat, bottom: nat)
    requires input.Length >= HEADER
    ensures ok == FileCheck(input[..]) && top == WordAt(input[..], 2) && bottom == WordAt(input[..], 4)
  {
    hide XorWord;
    var xorCheck := input[0] as int * 256 + input[1];
    top, bottom := input[2] as int * 256 + input[3], input[4] as int * 256 + input[5];
    var prog := input[6] as int * 256 + input[7];
    if xorCheck >= 0x8000 {
      xorCheck := 0x10000 - xorCheck;
    }
    xorCheck := xorCheck - XorWord(top, bottom);
    ok := xorCheck % 0x10000 == 0 && !(top < bottom || prog < bottom || prog < top || prog > 0x3fff);
  }

  /** decodeLine, with the items in place of the text it prints for them. */
  method DecodeLine(input: array<byte>, start: nat) returns (items: seq<Item>)
    requires start < input.Length && 1 <= input[start] && start + input[start] <= input.Length
    requires Whole(input[start + 1..start + input[start]])
    ensures LineHas(input[..], start, items)
  {
    hide StepLength, ItemOf, Whole, DecodeItems;
    ghost var content := input[start + 1..start + input[start]];
    var data, lineLen: int := start + 1, input[start] - 1;
    items := [];
    assert content[0..] == content;
    while lineLen > 0
      invariant 0 <= lineLen == |content| - (data - (start + 1)) && data >= start + 1
      invariant Whole(content[data - (start + 1)..])
      invariant DecodeItems(content) == items + DecodeItems(content[data - (start + 1)..])
    {
      ghost var rest := content[data - (start + 1)..];
      NextStep(rest);
      var it, stlen := DecodeItem(input[data..data + lineLen]);
      assert input[data..data + lineLen] == rest;
      assert rest[stlen..] == content[data + stlen - (start + 1)..];
      items := items + [it];
      data := data + stlen;
      lineLen := lineLen - stlen;
    }
    NoMore(content[data - (start + 1)..]);
    assert input[..][start + 1..start + input[start]] == content;
  }

  /** The branches of decodeLine on the byte at data. */
  method DecodeItem(data: seq<byte>) returns (it: Item, stlen: nat)
    requires data != [] && StepLength(data) <= |data|
    ensures it == ItemOf(data) && stlen == StepLength(data)
  {
    stlen := 1;
    if data[0] < 0x80 {
      it := Plain(data[0]);
    } else if data[0] == QUOTED {
      it := Quoted(data[2..2 + data[1]]);
      stlen := stlen + data[1] + 1;
    } else if data[0] == UNQUOTED {
      it := Unquoted(data[2..2 + data[1]]);
      stlen := stlen + data[1] + 1;
    } else if data[0] == LINE_NUMBER {
      it := LineNo(data[1] as int * 256 + data[2]);
      stlen := stlen + 2;
    } else {
      it := Plain(data[0]);
    }
  }

  lemma NoMore(d: seq<byte>)
    requires d == []
    ensures Whole(d) && DecodeItems(d) == []
  {
  }

  /** decodeBasicProgram: nothing when the header is refused, else the lines of the program. */
  method DecodeBasicProgram(input: array<byte>) returns (ok: bool, lines: seq<Line>)
    requires Readable(input[..])
    ensures ok == FileCheck(input[..])
    ensures ok ==> Decodes(input[..], lines)
    ensures !ok ==> lines == []
  {
    hide Whole, DecodeItems, FileCheck;
    ghost var d := input[..];
    lines := [];
    var top, bottom;
    ok, top, bottom := CheckHeader(input);
    if !ok {
      return;
    }
    CountIs(d);
    var lineCount := (top - bottom + 1) / 4;
    var i := lineCount;
    while i > 0
      invariant 0 <= i <= lineCount && |lines| == lineCount - i
      invariant forall k :: 0 <= k < |lines| ==> EntryHas(d, lineCount - 1 - k, lines[k])
    {
      i := i - 1;
      assert LineReadable(d, i);
      var at := HEADER + ENTRY * i;
      var line := input[at] as int * 256 + input[at + 1];
      var address := HEADER + (input[at + 2] as int * 256 + input[at + 3]) - bottom - 1;
      var items := DecodeLine(input, address);
      lines := lines + [Line(line, items)];
    }
  }

  lemma CountIs(d: seq<byte>)
    requires |d| >= HEADER && FileCheck(d)
    ensures WordAt(d, 2) >= WordAt(d, 4) && LineCount(d) == (WordAt(d, 2) - WordAt(d, 4) + 1) / 4
  {
  }

  /** Only one list of lines is a reading of the same data. */
  lemma DecodesOnce(d: seq<byte>, ls: seq<Line>, ls': seq<Line>)
    requires Decodes(d, ls) && Decodes(d, ls')
    ensures ls == ls'
  {
    hide FileCheck, LineHas;
    forall i | 0 <= i < |ls| ensures ls[i] == ls'[i] {
      assert EntryHas(d, |ls| - 1 - i, ls[i]) && EntryHas(d, |ls| - 1 - i, ls'[i]);
      SameItems(d, EntryStart(d, |ls| - 1 - i), ls[i].items, ls'[i].items);
    }
  }

  lemma SameItems(d: seq<byte>, at: nat, a: seq<Item>, b: seq<Item>)
    requires LineHas(d, at, a) && LineHas(d, at, b)
    ensures a == b
  {
  }

  lemma ImageReadable(ls: seq<Line>, junk: seq<byte>)
    requires ValidLines(ls)
    requires var n, lenCode := |ls|, |Code(ls)| + |junk|; SeemsToFit(n, lenCode) ==> Fits(n, lenCode)
    ensures Readable(Image(ls, junk))
  {
    hide FileCheck, Image, Whole, DecodeItems;
    ImageRoundTrip(ls, junk);
    var d := Image(ls, junk);
    if FileCheck(d) {
      forall j | 0 <= j < LineCount(d) ensures LineReadable(d, j) {
        assert EntryHas(d, |ls| - 1 - (|ls| - 1 - j), ls[|ls| - 1 - j]);
      }
    }
  }

  /** The two programs end to end: the decoder gives back the encoder's lines exactly when there
      is one and they fit below the program top, and refuses the image otherwise. Programs that
      do not fit and yet seem to are left out: for those it would look in front of the data. */
  method EncodeThenDecode(lines: seq<Line>, stops: bool, output: array<byte>) returns (ok: bool, back: seq<Line>)
    requires ValidLines(lines) && |lines| <= MAX_LINE_NUMBER
    requires HEADER + ENTRY * |lines| + |Code(lines)| + 1 <= output.Length
    requires var n, lenCode := |lines|, |Code(lines)| + if stops then 1 else 0; SeemsToFit(n, lenCode) ==> Fits(n, lenCode)
    modifies output
    ensures ok <==> Fits(|lines|, |Code(lines)| + if stops then 1 else 0)
    ensures ok ==> back == lines
  {
    hide Image, Readable, Decodes, FileCheck, Code, ValidLines;
    var e := new Encoder(output);
    ghost var junk := if stops then [output[..][|Code(lines)|]] else [];
    var size := e.EncodeBasicProgram(lines, stops);
    ImageSize(lines, junk);
    var input := new byte[size](i requires 0 <= i < size <= output.Length reads output => output[i]);
    assert input[..] == output[..size];
    ImageRoundTrip(lines, junk);
    ImageReadable(lines, junk);
    ok, back := DecodeBasicProgram(input);
    if ok {
      DecodesOnce(input[..], lines, back);
    }
  }

  lemma ImageSize(ls: seq<Line>, junk: seq<byte>)
    requires |junk| <= 1
    ensures HEADER <= |Image(ls, junk)| <= HEADER + ENTRY * |ls| + |Code(ls)| + 1
  {
    hide Code, Image;
  }
}
