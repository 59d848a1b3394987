/** A file's sectors: runs of consecutive sectors, the order in which they are walked, their
    packed form in the directory entry, and the bytes they hold. */
module Chains {
  import opened Bytes
  import opened SectorMap

  const MAX_FILE_CHAINS: nat := 76
  const SAVED_CHAINS: nat := 23        // all that encodeChain and decodeChain look at
  const CHAIN_AT: nat := 28
  const SEC_COUNT_AT: nat := 14
  const EOF_AT: nat := 16
  const NAME_LEN: nat := 10

  datatype Chain = Chain(start: int, end: int)

  function Range(lo: int, hi: int): (r: seq<int>)
    ensures |r| == if lo <= hi then hi - lo + 1 else 0
    ensures forall i :: 0 <= i < |r| ==> r[i] == lo + i
  {
    seq(if lo <= hi then hi - lo + 1 else 0, i => lo + i)
  }

  /** All sectors in the order the loops visit them. */
  function Walk(cs: seq<Chain>): seq<int> {
    if cs == [] then [] else Walk(cs[..|cs| - 1]) + Range(cs[|cs| - 1].start, cs[|cs| - 1].end)
  }

  ghost predicate Proper(cs: seq<Chain>) {
    forall i :: 0 <= i < |cs| ==> cs[i].start <= cs[i].end
  }

  lemma {:induction false} WalkPrefix(cs: seq<Chain>, i: nat)
    requires i <= |cs|
    ensures Walk(cs[..i]) <= Walk(cs)
  {
    if i == |cs| {
      assert cs[..i] == cs;
    } else {
      WalkPrefix(cs[..|cs| - 1], i);
      assert cs[..|cs| - 1][..i] == cs[..i];
    }
  }

  lemma WalkNext(cs: seq<Chain>, i: nat)
    requires i < |cs|
    ensures Walk(cs[..i + 1]) == Walk(cs[..i]) + Range(cs[i].start, cs[i].end)
  {
    assert cs[..i + 1][..i] == cs[..i];
  }

  lemma WalkNewChain(cs: seq<Chain>, s: int)
    ensures Walk(cs + [Chain(s, s)]) == Walk(cs) + [s]
  {
    assert (cs + [Chain(s, s)])[..|cs|] == cs;
    assert Range(s, s) == [s];
  }

  lemma WalkLonger(cs: seq<Chain>)
    requires cs != [] && cs[|cs| - 1].start <= cs[|cs| - 1].end
    ensures var c := cs[|cs| - 1];
            Walk(cs[|cs| - 1 := Chain(c.start, c.end + 1)]) == Walk(cs) + [c.end + 1]
  {
    var n := |cs| - 1;
    var c := cs[n];
    var cs' := cs[n := Chain(c.start, c.end + 1)];
    assert cs'[..n] == cs[..n];
    assert Range(c.start, c.end + 1) == Range(c.start, c.end) + [c.end + 1];
  }

  /** Sector number q of the walk is this sector of this chain. */
  ghost predicate At(cs: seq<Chain>, chain: nat, sector: int, q: nat) {
    && chain < |cs| && cs[chain].start <= sector <= cs[chain].end
    && q == |Walk(cs[..chain])| + (sector - cs[chain].start)
  }

  lemma AtSector(cs: seq<Chain>, chain: nat, sector: int, q: nat)
    requires At(cs, chain, sector, q)
    ensures q < |Walk(cs)| && Walk(cs)[q] == sector
  {
    WalkNext(cs, chain);
    WalkPrefix(cs, chain + 1);
  }

  /** Stepping to the next sector, moving to the next chain when this one is used up. */
  lemma AtNext(cs: seq<Chain>, chain: nat, sector: int, q: nat)
    requires At(cs, chain, sector, q) && Proper(cs) && q + 1 < |Walk(cs)|
    ensures sector < cs[chain].end ==> At(cs, chain, sector + 1, q + 1)
    ensures sector == cs[chain].end ==> chain + 1 < |cs| && At(cs, chain + 1, cs[chain + 1].start, q + 1)
  {
    WalkNext(cs, chain);
    assert cs[..|cs|] == cs;
  }

  lemma AtLast(cs: seq<Chain>, chain: nat, sector: int, q: nat)
    requires At(cs, chain, sector, q) && Proper(cs) && q + 1 == |Walk(cs)|
    ensures chain + 1 == |cs| && sector == cs[chain].end
  {
    WalkNext(cs, chain);
    WalkPrefix(cs, chain + 1);
    if chain + 1 < |cs| {
      WalkNext(cs, chain + 1);
      WalkPrefix(cs, chain + 2);
    }
  }

  // ----- the directory entry's fields

  function Byte(x: int): byte { x % 256 }

  function SecCount(hdr: seq<byte>): nat
    requires |hdr| == SECTOR
  {
    hdr[SEC_COUNT_AT] as int * 256 + hdr[SEC_COUNT_AT + 1]
  }

  function PutSecCount(hdr: seq<byte>, n: nat): (r: seq<byte>)
    requires |hdr| == SECTOR
    ensures |r| == SECTOR
    ensures n < 0x10000 ==> SecCount(r) == n
  {
    hdr[SEC_COUNT_AT := Byte(n / 256)][SEC_COUNT_AT + 1 := Byte(n)]
  }

  /** encodeOneChain: two 12-bit numbers in three bytes. */
  function EncodeOne(p1: nat, p2: nat): seq<byte> {
    [Byte(p1), p1 / 256 % 16 + p2 % 16 * 16, Byte(p2 / 16)]
  }

  function DecodeOne(b: seq<byte>): (nat, nat)
    requires |b| == 3
  {
    (b[1] as int % 16 * 256 + b[0], b[1] as int / 16 + b[2] as int * 16)
  }

  lemma OneChainRoundTrip(p1: nat, p2: nat)
    requires p1 < 4096 && p2 < 4096
    ensures DecodeOne(EncodeOne(p1, p2)) == (p1, p2)
    ensures EncodeOne(p1, p2) == [0, 0, 0] <==> p1 == 0 && p2 == 0
  {
    assert p1 / 256 < 16 && p2 / 16 < 256;
  }

  /** And every three bytes are the packing of what they decode to. */
  lemma OneChainOnto(b: seq<byte>)
    requires |b| == 3
    ensures var (p1, p2) := DecodeOne(b); p1 < 4096 && p2 < 4096 && EncodeOne(p1, p2) == b
  {
    var (p1, p2) := DecodeOne(b);
    assert p1 / 256 == b[1] % 16 && p1 % 256 == b[0];
    assert p2 % 16 == b[1] / 16 && p2 / 16 == b[2];
  }

  /** The second field is end - start, one less than the length of the run. */
  function Saved(cs: seq<Chain>, i: nat): (s: seq<byte>)
    ensures |s| == 3
  {
    if i < |cs| then EncodeOne(cs[i].start % 0x10000, (cs[i].end - cs[i].start) % 0x10000) else [0, 0, 0]
  }

  function Slots(cs: seq<Chain>, n: nat): (s: seq<byte>)
    ensures |s| == 3 * n
  {
    if n == 0 then [] else Slots(cs, n - 1) + Saved(cs, n - 1)
  }

  /** encodeChain: the first 23 slots are rewritten, used or not. */
  function EncodeChains(hdr: seq<byte>, cs: seq<Chain>): (r: seq<byte>)
    requires |hdr| == SECTOR
    ensures |r| == SECTOR
  {
    hdr[..CHAIN_AT] + Slots(cs, SAVED_CHAINS) + hdr[CHAIN_AT + 3 * SAVED_CHAINS..]
  }

  function Slot(hdr: seq<byte>, i: nat): (s: seq<byte>)
    requires |hdr| == SECTOR && i < MAX_FILE_CHAINS
    ensures |s| == 3
  {
    hdr[CHAIN_AT + 3 * i..CHAIN_AT + 3 * i + 3]
  }

  /** decodeChain: empty slots are skipped. */
  function DecodeChains(hdr: seq<byte>, n: nat): seq<Chain>
    requires |hdr| == SECTOR && n <= SAVED_CHAINS
  {
    if n == 0 then []
    else
      var front := DecodeChains(hdr, n - 1);
      var b := Slot(hdr, n - 1);
      if b == [0, 0, 0] then front
      else front + [Chain(DecodeOne(b).0, DecodeOne(b).0 + DecodeOne(b).1)]
  }

  /** Each half of the packed pair has twelve bits, and an all-zero slot means no run. */
  ghost predicate Savable(cs: seq<Chain>) {
    forall i :: 0 <= i < |cs| ==> 0 < cs[i].start <= cs[i].end < 4096
  }

  lemma {:induction false} SlotsAt(cs: seq<Chain>, n: nat, i: nat)
    requires i < n
    ensures Slots(cs, n)[3 * i..3 * i + 3] == Saved(cs, i)
  {
    if i < n - 1 {
      SlotsAt(cs, n - 1, i);
      assert Slots(cs, n)[3 * i..3 * i + 3] == Slots(cs, n - 1)[3 * i..3 * i + 3];
    }
  }

  lemma SlotOfEncoded(hdr: seq<byte>, cs: seq<Chain>, i: nat)
    requires |hdr| == SECTOR && i < SAVED_CHAINS
    ensures Slot(EncodeChains(hdr, cs), i) == Saved(cs, i)
  {
    hide Slots, Saved;
    SlotsAt(cs, SAVED_CHAINS, i);
    var s := Slots(cs, SAVED_CHAINS);
    assert EncodeChains(hdr, cs)[CHAIN_AT + 3 * i..CHAIN_AT + 3 * i + 3] == s[3 * i..3 * i + 3];
  }

  lemma {:induction false} DecodeEncoded(hdr: seq<byte>, cs: seq<Chain>, n: nat)
    requires |hdr| == SECTOR && Savable(cs) && n <= SAVED_CHAINS
    ensures DecodeChains(EncodeChains(hdr, cs), n) == cs[..if n < |cs| then n else |cs|]
  {
    hide EncodeChains, Slot, EncodeOne, DecodeOne;
    if n > 0 {
      DecodeEncoded(hdr, cs, n - 1);
      SlotOfEncoded(hdr, cs, n - 1);
      if n <= |cs| {
        var c := cs[n - 1];
        OneChainRoundTrip(c.start, c.end - c.start);
        assert cs[..n - 1] + [c] == cs[..n];
      }
    }
  }

  /** The first 23 runs are read back; so all of them exactly when there are no more. */
  lemma ChainsRoundTrip(hdr: seq<byte>, cs: seq<Chain>)
    requires |hdr| == SECTOR && Savable(cs)
    ensures DecodeChains(EncodeChains(hdr, cs), SAVED_CHAINS) == cs[..if |cs| < SAVED_CHAINS then |cs| else SAVED_CHAINS]
    ensures DecodeChains(EncodeChains(hdr, cs), SAVED_CHAINS) == cs <==> |cs| <= SAVED_CHAINS
  {
    DecodeEncoded(hdr, cs, SAVED_CHAINS);
    assert cs[..|cs|] == cs;
  }

  lemma {:induction false} DecodedFew(hdr: seq<byte>, n: nat)
    requires |hdr| == SECTOR && n <= SAVED_CHAINS
    ensures |DecodeChains(hdr, n)| <= n
  {
    if n > 0 {
      DecodedFew(hdr, n - 1);
    }
  }

  lemma EncodeKeepsFields(hdr: seq<byte>, cs: seq<Chain>)
    requires |hdr| == SECTOR
    ensures EncodeChains(hdr, cs)[..CHAIN_AT] == hdr[..CHAIN_AT]
    ensures SecCount(EncodeChains(hdr, cs)) == SecCount(hdr) && EncodeChains(hdr, cs)[EOF_AT] == hdr[EOF_AT]
  {
    hide Slots;
  }

  // ----- the bytes in the sectors

  ghost predicate InRange(d: Disk, ss: seq<int>) {
    forall i :: 0 <= i < |ss| ==> 0 <= ss[i] < |d.dev|
  }

  ghost predicate Distinct(ss: seq<int>) {
    forall i, j :: 0 <= i < j < |ss| ==> ss[i] != ss[j]
  }

  function Content(d: Disk, ss: seq<int>): (c: seq<byte>)
    requires WfDisk(d) && InRange(d, ss)
    ensures |c| == SECTOR * |ss|
  {
    if ss == [] then [] else Content(d, ss[..|ss| - 1]) + d.dev[ss[|ss| - 1]]
  }

  /** Overwrite part of a byte string. */
  function Splice(c: seq<byte>, at: nat, x: seq<byte>): (r: seq<byte>)
    requires at + |x| <= |c|
    ensures |r| == |c|
  {
    c[..at] + x + c[at + |x|..]
  }

  lemma SpliceTwice(c: seq<byte>, at: nat, x: seq<byte>, y: seq<byte>)
    requires at + |x| + |y| <= |c|
    ensures Splice(Splice(c, at, x), at + |x|, y) == Splice(c, at, x + y)
  {
  }

  lemma SpliceLeft(a: seq<byte>, b: seq<byte>, at: nat, x: seq<byte>)
    requires at + |x| <= |a|
    ensures Splice(a + b, at, x) == Splice(a, at, x) + b
  {
  }

  lemma SpliceRight(a: seq<byte>, b: seq<byte>, at: nat, x: seq<byte>)
    requires at + |x| <= |b|
    ensures Splice(a + b, |a| + at, x) == a + Splice(b, at, x)
  {
  }

  lemma SpliceNothing(c: seq<byte>, at: nat)
    requires at <= |c|
    ensures Splice(c, at, []) == c
  {
  }

  lemma {:induction false} ContentConcat(d: Disk, a: seq<int>, b: seq<int>)
    requires WfDisk(d) && InRange(d, a) && InRange(d, b)
    ensures InRange(d, a + b) && Content(d, a + b) == Content(d, a) + Content(d, b)
  {
    if b == [] {
      assert a + b == a;
    } else {
      assert (a + b)[..|a + b| - 1] == a + b[..|b| - 1];
      ContentConcat(d, a, b[..|b| - 1]);
    }
  }

  /** Content depends only on the sectors walked. */
  lemma {:induction false} ContentSame(d: Disk, d': Disk, ss: seq<int>)
    requires WfDisk(d) && WfDisk(d') && InRange(d, ss) && InRange(d', ss)
    requires forall i :: 0 <= i < |ss| ==> d.dev[ss[i]] == d'.dev[ss[i]]
    ensures Content(d, ss) == Content(d', ss)
  {
    if ss != [] {
      ContentSame(d, d', ss[..|ss| - 1]);
    }
  }

  /** Patching one sector of a file overwrites that stretch of its bytes. */
  lemma {:induction false} PatchContent(d: Disk, ss: seq<int>, q: nat, offset: nat, x: seq<byte>)
    requires WfDisk(d) && InRange(d, ss) && Distinct(ss) && q < |ss| && offset + |x| <= SECTOR
    ensures InRange(Patch(d, ss[q], offset, x), ss)
    ensures Content(Patch(d, ss[q], offset, x), ss) == Splice(Content(d, ss), SECTOR * q + offset, x)
  {
    var d' := Patch(d, ss[q], offset, x);
    var n := |ss| - 1;
    var front, last := ss[..n], ss[n];
    if q == n {
      ContentSame(d, d', front);
      SpliceRight(Content(d, front), d.dev[last], offset, x);
    } else {
      PatchContent(d, front, q, offset, x);
      SpliceLeft(Content(d, front), d.dev[last], SECTOR * q + offset, x);
    }
  }
}
