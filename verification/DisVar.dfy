/** DIS/VAR 80 files: text lines packed as length-prefixed records that never straddle a
    256-byte sector. */
module DisVar {
  import opened Bytes

  const NEWLINE: byte := 10
  const MARKER: byte := 255
  const MAX_LINE: nat := 80

  // ----- text as lines

  /** The text up to and with its last newline. */
  function Complete(t: seq<byte>): (c: seq<byte>)
    ensures c <= t
  {
    if t == [] || t[|t| - 1] == NEWLINE then t else Complete(t[..|t| - 1])
  }

  /** What follows the last newline. */
  function Tail(t: seq<byte>): seq<byte> {
    t[|Complete(t)|..]
  }

  /** The complete lines, without their newlines. */
  function Lines(t: seq<byte>): seq<seq<byte>> {
    if t == [] then []
    else
      var front := t[..|t| - 1];
      if t[|t| - 1] == NEWLINE then Lines(front) + [Tail(front)] else Lines(front)
  }

  function Join(ls: seq<seq<byte>>): seq<byte> {
    if ls == [] then [] else Join(ls[..|ls| - 1]) + ls[|ls| - 1] + [NEWLINE]
  }

  lemma {:induction false} JoinLines(t: seq<byte>)
    ensures Join(Lines(t)) == Complete(t)
  {
    if t != [] {
      var front := t[..|t| - 1];
      JoinLines(front);
      if t[|t| - 1] == NEWLINE {
        var ls := Lines(t);
        assert ls[..|ls| - 1] == Lines(front);
        assert Complete(front) + Tail(front) == front;
        assert front + [NEWLINE] == t;
      }
    }
  }

  lemma CompleteAll(t: seq<byte>)
    ensures Complete(t) == t <==> t == [] || t[|t| - 1] == NEWLINE
  {
  }

  predicate Short(ls: seq<seq<byte>>) {
    forall i :: 0 <= i < |ls| ==> |ls[i]| <= MAX_LINE
  }

  // ----- records

  /** Bytes left in the sector being filled. */
  function Space(out: seq<byte>): (s: nat)
    ensures 1 <= s <= SECTOR
  {
    SECTOR - |out| % SECTOR
  }

  /** Room for the record and the byte after it, else close the sector. */
  function Pad(out: seq<byte>, n: nat): (p: seq<byte>)
    ensures out <= p
    ensures p == out || |p| % SECTOR == 0
  {
    if n + 2 > Space(out) then
      assert (|out| + Space(out)) % SECTOR == 0;
      out + [MARKER] + Zeros(Space(out) - 1)
    else out
  }

  function Pack(ls: seq<seq<byte>>): seq<byte>
    requires Short(ls)
  {
    if ls == [] then []
    else
      var line := ls[|ls| - 1];
      Pad(Pack(ls[..|ls| - 1]), |line|) + [|line|] + line
  }

  /** A record and the byte that follows it lie in one sector, and padding ends on a boundary. */
  lemma RecordFits(ls: seq<seq<byte>>, line: seq<byte>)
    requires Short(ls + [line])
    ensures Short(ls)
    ensures var start := |Pad(Pack(ls), |line|)|;
            && (start == |Pack(ls)| || (start % SECTOR == 0 && 0 < start - |Pack(ls)| <= MAX_LINE + 1))
            && start / SECTOR == (start + |line| + 1) / SECTOR
            && |Pack(ls + [line])| == start + |line| + 1
  {
    assert (ls + [line])[..|ls|] == ls;
    assert |(ls + [line])[|ls|]| <= MAX_LINE;
    assert forall i :: 0 <= i < |ls| ==> ls[i] == (ls + [line])[i];
  }

  function Carried(ls: seq<seq<byte>>): nat {
    if ls == [] then 0 else Carried(ls[..|ls| - 1]) + |ls[|ls| - 1]| + 1
  }

  /** Every closed sector carries at least 175 bytes of records. */
  lemma {:induction false} SectorsAreFull(ls: seq<seq<byte>>)
    requires Short(ls)
    ensures Carried(ls) >= 175 * (|Pack(ls)| / SECTOR) + |Pack(ls)| % SECTOR
  {
    hide Pack, Pad, Carried;
    if ls == [] {
      CarriedNone();
    } else {
      var front, line := ls[..|ls| - 1], ls[|ls| - 1];
      SectorsAreFull(front);
      assert front + [line] == ls;
      RecordFits(front, line);
      CarriedNext(front, line);
      FullStep(Carried(front), |Pack(front)|, |Pad(Pack(front), |line|)|, |line| + 1);
    }
  }

  lemma CarriedNone()
    ensures Carried([]) == 0 && Pack([]) == []
  {
  }

  lemma CarriedNext(ls: seq<seq<byte>>, line: seq<byte>)
    ensures Carried(ls + [line]) == Carried(ls) + |line| + 1
  {
    assert (ls + [line])[..|ls|] == ls;
  }

  lemma FullStep(carried: nat, n: nat, start: nat, len: nat)
    requires carried >= 175 * (n / SECTOR) + n % SECTOR && len <= MAX_LINE + 1
    requires start == n || (start % SECTOR == 0 && start - n <= MAX_LINE + 1 && n < start)
    requires start / SECTOR == (start + len) / SECTOR
    ensures carried + len >= 175 * ((start + len) / SECTOR) + (start + len) % SECTOR
  {
    var k := n / SECTOR;
    if start != n {
      assert start / SECTOR == k + 1;
    }
  }

  lemma {:induction false} CarriedJoin(ls: seq<seq<byte>>)
    ensures Carried(ls) == |Join(ls)|
  {
    if ls != [] {
      CarriedJoin(ls[..|ls| - 1]);
    }
  }

  /** The encoding is never longer than 256/175 of the text. */
  lemma SizeBound(t: seq<byte>)
    requires Short(Lines(t))
    ensures 175 * |Pack(Lines(t))| <= 256 * |t|
  {
    hide Lines, Pack, Carried;
    SectorsAreFull(Lines(t));
    CarriedJoin(Lines(t));
    JoinLines(t);
  }

  // ----- reading records

  /** Where the reader goes from pos. */
  function Next(d: seq<byte>, pos: nat): (p: nat)
    requires pos < |d|
    ensures p > pos
  {
    if d[pos] == MARKER then (pos / SECTOR + 1) * SECTOR else pos + d[pos] + 1
  }

  /** No record runs past the end of the data. */
  predicate Intact(d: seq<byte>, pos: nat)
    decreases |d| - pos
  {
    pos < |d| ==> (d[pos] == MARKER || Next(d, pos) <= |d|) && Intact(d, Next(d, pos))
  }

  function Unpack(d: seq<byte>, pos: nat): (t: seq<byte>)
    requires Intact(d, pos)
    ensures pos <= |d| ==> |t| <= |d| - pos
    ensures pos > |d| ==> t == []
    decreases |d| - pos
  {
    if pos >= |d| then []
    else if d[pos] == MARKER then Unpack(d, Next(d, pos))
    else d[pos + 1..pos + 1 + d[pos]] + [NEWLINE] + Unpack(d, Next(d, pos))
  }

  /** The reader's positions include the very end. */
  ghost predicate Lands(d: seq<byte>, pos: nat)
    decreases |d| - pos
  {
    pos == |d| || (pos < |d| && Lands(d, Next(d, pos)))
  }

  lemma {:induction false} LandsSplit(d: seq<byte>, more: seq<byte>, pos: nat)
    requires Lands(d, pos) && Intact(d + more, |d|)
    ensures Intact(d, pos) && Intact(d + more, pos)
    ensures Lands(d + more, |d|) ==> Lands(d + more, pos)
    decreases |d| - pos
  {
    if pos < |d| {
      assert (d + more)[pos] == d[pos];
      LandsSplit(d, more, Next(d, pos));
      assert Lands(d, Next(d, pos));
      LandsWithin(d, Next(d, pos));
    }
  }

  lemma LandsWithin(d: seq<byte>, pos: nat)
    requires Lands(d, pos)
    ensures pos <= |d|
  {
  }

  lemma {:induction false} UnpackSplit(d: seq<byte>, more: seq<byte>, pos: nat)
    requires Lands(d, pos) && Intact(d + more, |d|)
    requires Intact(d, pos) && Intact(d + more, pos)
    ensures Unpack(d + more, pos) == Unpack(d, pos) + Unpack(d + more, |d|)
    decreases |d| - pos
  {
    hide Unpack, Intact, Lands;
    LandsWithin(d, pos);
    if pos < |d| {
      assert (d + more)[pos] == d[pos];
      UnpackStep(d, pos);
      UnpackStep(d + more, pos);
      LandsNext(d, pos);
      UnpackSplit(d, more, Next(d, pos));
      if d[pos] != MARKER {
        assert (d + more)[pos + 1..pos + 1 + d[pos]] == d[pos + 1..pos + 1 + d[pos]];
      }
    } else {
      AtEnd(d);
    }
  }

  lemma LandsNext(d: seq<byte>, pos: nat)
    requires Lands(d, pos) && pos < |d|
    ensures Lands(d, Next(d, pos)) && Next(d, pos) <= |d|
  {
  }

  /** The text one step of the reader yields. */
  function Record(d: seq<byte>, pos: nat): seq<byte>
    requires pos < |d| && Intact(d, pos)
  {
    if d[pos] == MARKER then [] else d[pos + 1..pos + 1 + d[pos]] + [NEWLINE]
  }

  lemma UnpackStep(d: seq<byte>, pos: nat)
    requires pos < |d| && Intact(d, pos)
    ensures d[pos] != MARKER ==> Next(d, pos) <= |d|
    ensures Intact(d, Next(d, pos)) && Unpack(d, pos) == Record(d, pos) + Unpack(d, Next(d, pos))
  {
    hide Lands;
    var rest := Unpack(d, Next(d, pos));
    if d[pos] == MARKER {
      assert Unpack(d, pos) == rest == [] + rest;
    } else {
      assert Unpack(d, pos) == Record(d, pos) + rest;
    }
  }

  lemma AtEnd(d: seq<byte>)
    ensures Intact(d, |d|) && Lands(d, |d|) && Unpack(d, |d|) == []
  {
  }

  lemma StepTo(d: seq<byte>, pos: nat)
    requires pos < |d| && d[pos] != MARKER && Next(d, pos) <= |d|
    requires Intact(d, Next(d, pos)) && Lands(d, Next(d, pos))
    ensures Intact(d, pos) && Lands(d, pos)
  {
  }

  lemma OneRecord(p: seq<byte>, line: seq<byte>)
    requires |line| <= MAX_LINE
    ensures var d := p + [|line|] + line;
            && Intact(d, |p|) && Lands(d, |p|) && Unpack(d, |p|) == line + [NEWLINE]
  {
    hide Unpack, Intact, Lands, Next, Record;
    var d := p + [|line|] + line;
    RecordBytes(p, line);
    AtEnd(d);
    StepTo(d, |p|);
    UnpackStep(d, |p|);
    RecordIs(d, |p|, line);
  }

  lemma RecordBytes(p: seq<byte>, line: seq<byte>)
    requires |line| <= MAX_LINE
    ensures var d := p + [|line|] + line;
            && d[|p|] == |line| && d[|p|] != MARKER && d[|p| + 1..|p| + 1 + |line|] == line && Next(d, |p|) == |d|
  {
  }

  lemma RecordIs(d: seq<byte>, pos: nat, line: seq<byte>)
    requires pos < |d| && Intact(d, pos) && d[pos] != MARKER && d[pos] == |line|
    requires pos + 1 + |line| <= |d| && d[pos + 1..pos + 1 + |line|] == line
    ensures Record(d, pos) == line + [NEWLINE]
  {
    hide Intact;
  }

  lemma SkipPadding(d: seq<byte>, n: nat, p: nat)
    requires n < p <= |d| && d[n] == MARKER && p == n + (SECTOR - n % SECTOR)
    requires Intact(d, p) && Lands(d, p)
    ensures Intact(d, n) && Lands(d, n) && Unpack(d, n) == Unpack(d, p)
  {
    assert Next(d, n) == p;
  }

  /** What Pack adds for one line, read from where it was added. */
  lemma UnpackRecord(out: seq<byte>, line: seq<byte>)
    requires |line| <= MAX_LINE
    ensures var d := Pad(out, |line|) + [|line|] + line;
            && Intact(d, |out|) && Lands(d, |out|) && Unpack(d, |out|) == line + [NEWLINE]
  {
    hide Intact, Lands, Unpack;
    var p := Pad(out, |line|);
    OneRecord(p, line);
    if p != out {
      SkipPadding(p + [|line|] + line, |out|, |p|);
    }
  }

  lemma {:induction false} PackRoundTrip(ls: seq<seq<byte>>)
    requires Short(ls)
    ensures Intact(Pack(ls), 0) && Lands(Pack(ls), 0)
    ensures Unpack(Pack(ls), 0) == Join(ls)
  {
    if ls != [] {
      hide Unpack, Intact, Lands, Pad, Pack;
      var front, line := ls[..|ls| - 1], ls[|ls| - 1];
      PackRoundTrip(front);
      var out := Pack(front);
      UnpackRecord(out, line);
      PackGrows(ls);
      var more := Pack(ls)[|out|..];
      LandsSplit(out, more, 0);
      UnpackSplit(out, more, 0);
    }
  }

  lemma PackGrows(ls: seq<seq<byte>>)
    requires Short(ls) && ls != []
    ensures var front, line := ls[..|ls| - 1], ls[|ls| - 1];
            && |line| <= MAX_LINE && Short(front)
            && Pack(ls) == Pad(Pack(front), |line|) + [|line|] + line
            && |Pack(front)| <= |Pack(ls)| && Pack(ls) == Pack(front) + Pack(ls)[|Pack(front)|..]
  {
  }

  /** decodeDisVar after encodeDisVar gives the text up to its last newline; all of it exactly
      when nothing follows that newline. */
  lemma RoundTrip(t: seq<byte>)
    requires Short(Lines(t))
    ensures Intact(Pack(Lines(t)), 0)
    ensures Unpack(Pack(Lines(t)), 0) == Complete(t)
    ensures Unpack(Pack(Lines(t)), 0) == t <==> t == [] || t[|t| - 1] == NEWLINE
  {
    PackRoundTrip(Lines(t));
    JoinLines(t);
    CompleteAll(t);
  }

  // ----- the loops

  /** None is the source's exit when a line is longer than 80 characters. The output buffer the
      callers pass is ten times the input. */
  method EncodeDisVar(input: seq<byte>, output: array<byte>) returns (r: Option<nat>)
    requires 175 * output.Length >= 256 * |input|
    modifies output
    ensures r.Some? <==> Short(Lines(input))
    ensures r.Some? ==> r.value <= output.Length && output[..r.value] == Pack(Lines(input))
  {
    hide Lines, Complete, Pack, Pad, Space;
    var start, end, outp: nat := 0, 0, 0;
    var spaceInSector: nat := SECTOR;
    Nothing();
    assert input[..0] == [] && output[..0] == [];
    while end < |input|
      invariant 0 <= start <= end <= |input| && outp <= output.Length
      invariant start == |Complete(input[..end])|
      invariant Short(Lines(input[..end])) && output[..outp] == Pack(Lines(input[..end]))
      invariant spaceInSector == Space(output[..outp])
    {
      end := end + 1;
      OneMore(input, end);
      if input[end - 1] == NEWLINE {
        var reclen := end - start - 1;
        LinesNext(input, start, end);
        if reclen > MAX_LINE {
          return None;
        }
        outp, spaceInSector := PutRecord(input[start..start + reclen], output, outp, spaceInSector);
        start := end;
      }
    }
    assert input[..|input|] == input;
    return Some(outp);
  }

  lemma Nothing()
    ensures Complete([]) == [] && Lines([]) == [] && Pack([]) == [] && Space([]) == SECTOR
  {
  }

  lemma OneMore(input: seq<byte>, end: nat)
    requires 0 < end <= |input|
    ensures input[end - 1] == NEWLINE ==> Complete(input[..end]) == input[..end]
    ensures input[end - 1] != NEWLINE ==>
              Complete(input[..end]) == Complete(input[..end - 1]) && Lines(input[..end]) == Lines(input[..end - 1])
  {
    assert input[..end][..end - 1] == input[..end - 1];
  }

  /** The line just ended. Lines only get appended, so one that is too long decides the result;
      otherwise there is room for its record. */
  lemma LinesNext(input: seq<byte>, start: nat, end: nat)
    requires 0 < end <= |input| && input[end - 1] == NEWLINE
    requires Short(Lines(input[..end - 1])) && start == |Complete(input[..end - 1])|
    ensures start < end
    ensures var ls, line := Lines(input[..end - 1]), input[start..end - 1];
            && (|line| > MAX_LINE ==> !Short(Lines(input)))
            && (|line| <= MAX_LINE ==>
                  && Short(Lines(input[..end]))
                  && Pack(Lines(input[..end])) == Pad(Pack(ls), |line|) + [|line|] + line
                  && 175 * |Pack(Lines(input[..end]))| <= 256 * |input|)
  {
    hide Complete, Pack, Pad;
    var before, now := input[..end - 1], input[..end];
    assert now[..end - 1] == before;
    var ls, line := Lines(before), input[start..end - 1];
    assert Tail(before) == line;
    assert Lines(now) == ls + [line];
    if |line| > MAX_LINE {
      LinesGrow(input, end);
      assert Lines(input)[|ls|] == line;
    } else {
      PackNext(ls, line);
      SizeBound(now);
    }
  }

  lemma PackNext(ls: seq<seq<byte>>, line: seq<byte>)
    requires Short(ls) && |line| <= MAX_LINE
    ensures Short(ls + [line]) && Pack(ls + [line]) == Pad(Pack(ls), |line|) + [|line|] + line
  {
    assert (ls + [line])[..|ls|] == ls;
  }

  lemma {:induction false} LinesGrow(t: seq<byte>, k: nat)
    requires k <= |t|
    ensures Lines(t[..k]) <= Lines(t)
  {
    if k == |t| {
      assert t[..k] == t;
    } else {
      LinesGrow(t[..|t| - 1], k);
      assert t[..|t| - 1][..k] == t[..k];
    }
  }

  /** The marker, then zeros up to the sector boundary. */
  method PadSector(output: array<byte>, at: nat, space: nat) returns (outp: nat)
    requires 1 <= space && at + space <= output.Length
    modifies output
    ensures outp == at + space
    ensures output[..outp] == old(output[..at]) + [MARKER] + Zeros(space - 1)
  {
    ghost var padded := output[..at] + [MARKER] + Zeros(space - 1);
    outp := at;
    var spaceInSector := space;
    output[outp] := MARKER;
    outp := outp + 1;
    spaceInSector := spaceInSector - 1;
    while spaceInSector > 0
      invariant 0 <= spaceInSector && outp + spaceInSector == |padded|
      invariant at < outp && output[..outp] == padded[..outp]
    {
      output[outp] := 0;
      outp := outp + 1;
      spaceInSector := spaceInSector - 1;
    }
  }

  /** One record: pad the sector if it would not fit, then length and characters. */
  method PutRecord(line: seq<byte>, output: array<byte>, at: nat, space: nat) returns (outp: nat, spaceInSector: nat)
    requires at <= output.Length && |line| <= MAX_LINE && space == Space(output[..at])
    requires |Pad(output[..at], |line|)| + |line| + 1 <= output.Length
    modifies output
    ensures outp == |Pad(old(output[..at]), |line|)| + |line| + 1 <= output.Length
    ensures output[..outp] == Pad(old(output[..at]), |line|) + [|line|] + line
    ensures spaceInSector == Space(output[..outp])
  {
    ghost var padded := Pad(output[..at], |line|);
    outp, spaceInSector := at, space;
    if |line| + 2 > spaceInSector {
      outp := PadSector(output, at, spaceInSector);
      spaceInSector := SECTOR;
    }
    assert output[..outp] == padded;
    outp := CopyRecord(line, output, outp);
    spaceInSector := spaceInSector - (|line| + 1);
  }

  method CopyRecord(line: seq<byte>, output: array<byte>, at: nat) returns (outp: nat)
    requires |line| <= MAX_LINE && at + |line| + 1 <= output.Length
    modifies output
    ensures outp == at + |line| + 1
    ensures output[..outp] == old(output[..at]) + [|line|] + line
  {
    ghost var was := output[..at];
    output[at] := |line|;
    forall i | 0 <= i < |line| { output[at + 1 + i] := line[i]; }
    outp := at + 1 + |line|;
    assert output[..at] == was;
    assert output[at + 1..outp] == line;
    assert output[..outp] == output[..at] + [output[at]] + output[at + 1..outp];
  }

  method DecodeDisVar(input: seq<byte>, output: array<byte>) returns (n: nat)
    requires Intact(input, 0) && output.Length >= |input|
    modifies output
    ensures n <= output.Length && output[..n] == Unpack(input, 0)
  {
    hide Unpack, Intact;
    var pos := 0;
    n := 0;
    assert output[..0] + Unpack(input, 0) == Unpack(input, 0);
    while pos < |input|
      invariant Intact(input, pos) && n <= output.Length
      invariant pos <= |input| ==> n <= pos
      invariant output[..n] + Unpack(input, pos) == Unpack(input, 0)
      decreases |input| - pos
    {
      var reclen := input[pos];
      UnpackStep(input, pos);
      ghost var was, rest := output[..n], Unpack(input, Next(input, pos));
      assert was + (Record(input, pos) + rest) == (was + Record(input, pos)) + rest;
      if reclen == MARKER {
        pos := (pos / SECTOR + 1) * SECTOR;
      } else {
        n := CopyText(input[pos + 1..pos + 1 + reclen], output, n);
        pos := pos + reclen + 1;
      }
    }
    assert output[..n] + [] == output[..n];
  }

  method CopyText(line: seq<byte>, output: array<byte>, at: nat) returns (n: nat)
    requires at + |line| + 1 <= output.Length
    modifies output
    ensures n == at + |line| + 1
    ensures output[..n] == old(output[..at]) + (line + [NEWLINE])
  {
    ghost var was := output[..at];
    forall i | 0 <= i < |line| { output[at + i] := line[i]; }
    output[at + |line|] := NEWLINE;
    n := at + |line| + 1;
    assert output[..at] == was;
    assert output[at..at + |line|] == line;
    assert output[..n] == output[..at] + (output[at..at + |line|] + [output[at + |line|]]);
  }
}
