/** The directory: files kept in TI name order, and the sector that lists them. */
module Directory {
  import opened Bytes
  import opened SectorMap
  import opened Chains
  import opened FileModel
  import opened FileLaws
  import opened Ownership

  const MAX_ENTRIES: nat := 128

  function Name(f: File): (n: seq<byte>)
    requires WfFile(f)
    ensures |n| == NAME_LEN
  {
    f.hdr[..NAME_LEN]
  }

  /** strcmp(a, b) < 0 on names of one length. */
  predicate Less(a: seq<byte>, b: seq<byte>)
    requires |a| == |b|
  {
    a != [] && (a[0] < b[0] || (a[0] == b[0] && Less(a[1..], b[1..])))
  }

  lemma {:induction false} LessTotal(a: seq<byte>, b: seq<byte>)
    requires |a| == |b|
    ensures !Less(a, a)
    ensures !(Less(a, b) && Less(b, a))
    ensures a == b || Less(a, b) || Less(b, a)
  {
    if a != [] {
      LessTotal(a[1..], b[1..]);
      if a[0] == b[0] && a[1..] == b[1..] {
        assert a == [a[0]] + a[1..] && b == [b[0]] + b[1..];
      }
    }
  }

  lemma {:induction false} LessTransitive(a: seq<byte>, b: seq<byte>, c: seq<byte>)
    requires |a| == |b| == |c| && Less(a, b) && Less(b, c)
    ensures Less(a, c)
  {
    if a[0] == b[0] == c[0] {
      LessTransitive(a[1..], b[1..], c[1..]);
    }
  }

  lemma LessOrder(a: seq<byte>, b: seq<byte>, c: seq<byte>)
    requires |a| == |b| == |c| && Less(a, b) && !Less(c, b)
    ensures !Less(c, a)
  {
    hide Less;
    LessTotal(b, c);
    if Less(c, a) {
      LessTransitive(c, a, b);
    }
  }

  /** The list is in order: no later file comes before an earlier one. */
  ghost predicate Sorted(fs: seq<File>)
    requires WfFiles(fs)
  {
    forall i, j :: 0 <= i < j < |fs| ==> !Less(Name(fs[j]), Name(fs[i]))
  }

  /** Where addFileToList puts a name: before the first greater one. */
  function Position(fs: seq<File>, name: seq<byte>): (k: nat)
    requires WfFiles(fs) && |name| == NAME_LEN
    ensures k <= |fs|
    ensures k < |fs| ==> Less(name, Name(fs[k]))
    ensures forall i :: 0 <= i < k ==> !Less(name, Name(fs[i]))
  {
    PositionFrom(fs, name, 0)
  }

  function PositionFrom(fs: seq<File>, name: seq<byte>, from: nat): (k: nat)
    requires WfFiles(fs) && |name| == NAME_LEN && from <= |fs|
    requires forall i :: 0 <= i < from ==> !Less(name, Name(fs[i]))
    ensures from <= k <= |fs|
    ensures k < |fs| ==> Less(name, Name(fs[k]))
    ensures forall i :: 0 <= i < k ==> !Less(name, Name(fs[i]))
    decreases |fs| - from
  {
    if from == |fs| || Less(name, Name(fs[from])) then from else PositionFrom(fs, name, from + 1)
  }

  function Added(fs: seq<File>, f: File): (gs: seq<File>)
    requires WfFiles(fs) && WfFile(f)
    ensures |gs| == |fs| + 1
  {
    InsertAt(fs, Position(fs, Name(f)), f)
  }

  lemma AddedSorted(fs: seq<File>, f: File)
    requires WfFiles(fs) && WfFile(f) && Sorted(fs)
    ensures WfFiles(Added(fs, f)) && Sorted(Added(fs, f))
  {
    hide Less, Name, PositionFrom;
    var k := Position(fs, Name(f));
    var gs := Added(fs, f);
    forall i, j | 0 <= i < j < |gs| ensures !Less(Name(gs[j]), Name(gs[i])) {
      if i == k {
        var b := fs[j - 1];
        if k < j - 1 {
          LessOrder(Name(f), Name(fs[k]), Name(b));
        } else {
          LessTotal(Name(f), Name(b));
        }
      } else if j == k {
      } else {
        assert gs[i] == fs[Before(k, i)] && gs[j] == fs[Before(k, j)];
      }
    }
  }

  lemma RemovedSorted(fs: seq<File>, k: nat)
    requires WfFiles(fs) && k < |fs| && Sorted(fs)
    ensures WfFiles(RemoveAt(fs, k)) && Sorted(RemoveAt(fs, k))
  {
    hide Less;
    var gs := RemoveAt(fs, k);
    forall i, j | 0 <= i < j < |gs| ensures !Less(Name(gs[j]), Name(gs[i])) {
      assert gs[i] == fs[After(k, i)] && gs[j] == fs[After(k, j)];
    }
  }

  lemma ReplacedSorted(fs: seq<File>, k: nat, f: File)
    requires WfFiles(fs) && k < |fs| && WfFile(f) && Sorted(fs) && Name(f) == Name(fs[k])
    ensures WfFiles(fs[k := f]) && Sorted(fs[k := f])
  {
    hide Less;
    var gs := fs[k := f];
    forall i, j | 0 <= i < j < |gs| ensures !Less(Name(gs[j]), Name(gs[i])) {
      assert Name(gs[i]) == Name(fs[i]) && Name(gs[j]) == Name(fs[j]);
    }
  }

  // ----- the directory sector

  function Linked(fs: seq<File>): (ls: seq<File>)
    ensures |ls| <= |fs|
  {
    if fs == [] then []
    else if fs[|fs| - 1].unlinked then Linked(fs[..|fs| - 1])
    else Linked(fs[..|fs| - 1]) + [fs[|fs| - 1]]
  }

  function Dirs(ls: seq<File>): (ds: seq<int>)
    ensures |ds| == |ls|
    ensures forall i :: 0 <= i < |ds| ==> ds[i] == ls[i].dir
  {
    seq(|ls|, i requires 0 <= i < |ls| => ls[i].dir)
  }

  function Entries(ds: seq<int>): (e: seq<byte>)
    ensures |e| == 2 * |ds|
  {
    if ds == [] then [] else Entries(ds[..|ds| - 1]) + [Byte(ds[|ds| - 1] / 256), Byte(ds[|ds| - 1])]
  }

  /** The 256 bytes that list the linked files' directory sectors. */
  function DirBytes(ds: seq<int>): (b: seq<byte>)
    requires |ds| <= MAX_ENTRIES
    ensures |b| == SECTOR
  {
    Entries(ds) + seq(SECTOR - 2 * |ds|, _ => 0)
  }

  function EntryAt(b: seq<byte>, i: nat): nat
    requires |b| == SECTOR && i < MAX_ENTRIES
  {
    b[2 * i] as int * 256 + b[2 * i + 1]
  }

  /** readDirectory's scan: entries up to the first zero, or all 128. */
  function ListedFrom(b: seq<byte>, i: nat): seq<int>
    requires |b| == SECTOR && i <= MAX_ENTRIES
    decreases MAX_ENTRIES - i
  {
    if i == MAX_ENTRIES || EntryAt(b, i) == 0 then [] else [EntryAt(b, i)] + ListedFrom(b, i + 1)
  }

  lemma {:induction false} EntriesAt(ds: seq<int>, i: nat)
    requires i < |ds|
    ensures Entries(ds)[2 * i] == Byte(ds[i] / 256) && Entries(ds)[2 * i + 1] == Byte(ds[i])
  {
    if i < |ds| - 1 {
      EntriesAt(ds[..|ds| - 1], i);
    }
  }

  lemma {:induction false} ListedDirs(ds: seq<int>, i: nat)
    requires |ds| <= MAX_ENTRIES && i <= |ds| && forall k :: 0 <= k < |ds| ==> 0 < ds[k] < 0x10000
    ensures ListedFrom(DirBytes(ds), i) == ds[i..]
    decreases |ds| - i
  {
    hide Entries;
    if i < |ds| {
      EntriesAt(ds, i);
      ListedDirs(ds, i + 1);
    }
  }

  /** The sector names exactly the linked files, in order, even when it is full. */
  lemma DirRoundTrip(ds: seq<int>)
    requires |ds| <= MAX_ENTRIES && forall k :: 0 <= k < |ds| ==> 0 < ds[k] < 0x10000
    ensures ListedFrom(DirBytes(ds), 0) == ds
  {
    ListedDirs(ds, 0);
  }

  /** Adding files one by one that are already in order keeps their order. */
  lemma AddedLast(fs: seq<File>, f: File)
    requires WfFiles(fs) && WfFile(f)
    requires forall i :: 0 <= i < |fs| ==> !Less(Name(f), Name(fs[i]))
    ensures Added(fs, f) == fs + [f]
  {
    hide Less;
  }

  lemma {:induction false} LinkedSorted(fs: seq<File>)
    requires WfFiles(fs) && Sorted(fs)
    ensures WfFiles(Linked(fs)) && Sorted(Linked(fs))
    ensures forall f :: f in Linked(fs) ==> f in fs && !f.unlinked
  {
    hide Less;
    if fs != [] {
      var front, last := fs[..|fs| - 1], fs[|fs| - 1];
      LinkedSorted(front);
      if !last.unlinked {
        var ls := Linked(front);
        forall i, j | 0 <= i < j < |ls + [last]|
          ensures !Less(Name((ls + [last])[j]), Name((ls + [last])[i]))
        {
          if j == |ls| {
            assert ls[i] in front;
            var a :| 0 <= a < |front| && front[a] == ls[i];
            assert fs[a] == front[a];
          }
        }
      }
    }
  }
}
