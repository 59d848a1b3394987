/** Who owns which sector: the allocation invariant and what keeps it. */
module Ownership {
  import opened Bytes
  import opened SectorMap
  import opened Chains
  import opened FileModel
  import opened FileLaws

  /** A file's directory sector and its data sectors. */
  function Owns(f: File): seq<int>
    requires f.count <= |f.table|
  {
    [f.dir] + Sectors(f)
  }

  ghost predicate WfFiles(fs: seq<File>) {
    forall i :: 0 <= i < |fs| ==> WfFile(fs[i])
  }

  ghost predicate Holds(fs: seq<File>, s: int)
    requires WfFiles(fs)
  {
    exists i :: 0 <= i < |fs| && s in Owns(fs[i])
  }

  /** No sector is owned twice. */
  ghost predicate Apart(fs: seq<File>)
    requires WfFiles(fs)
  {
    forall i, j, s :: 0 <= i < |fs| && 0 <= j < |fs| && i != j && s in Owns(fs[i]) ==> s !in Owns(fs[j])
  }

  /** A sector is marked used exactly when it is one of the two system sectors or owned. */
  ghost predicate Exact(d: Disk, fs: seq<File>)
    requires WfDisk(d) && WfFiles(fs)
  {
    forall s :: 0 <= s < |d.dev| ==> (Used(d.vol, s) <==> s < 2 || Holds(fs, s))
  }

  ghost predicate AllOwned(d: Disk, fs: seq<File>) {
    forall i :: 0 <= i < |fs| ==> Owned(d, fs[i])
  }

  /** The allocation invariant. */
  ghost predicate Allocated(d: Disk, fs: seq<File>) {
    WfDisk(d) && WfFiles(fs) && AllOwned(d, fs) && Apart(fs) && Exact(d, fs)
  }

  lemma OwnsInRange(d: Disk, f: File, s: int)
    requires Owned(d, f) && s in Owns(f)
    ensures 2 <= s < |d.dev| && Used(d.vol, s)
  {
    hide Walk, SecCount;
  }

  lemma HoldsBy(fs: seq<File>, i: nat, s: int)
    requires WfFiles(fs) && i < |fs| && s in Owns(fs[i])
    ensures Holds(fs, s)
  {
  }

  lemma NotHeldBy(fs: seq<File>, i: nat, s: int)
    requires WfFiles(fs) && i < |fs| && !Holds(fs, s)
    ensures s !in Owns(fs[i])
  {
  }

  // ----- a file grows

  lemma GrowOwns(f: File, f': File, news: seq<int>, s: int)
    requires WfFile(f) && WfFile(f') && f'.dir == f.dir && Sectors(f') == Sectors(f) + news
    ensures s in Owns(f') <==> s in Owns(f) || s in news
  {
    hide Walk;
  }

  lemma GrowApart(d: Disk, d': Disk, fs: seq<File>, i: nat, f': File, news: seq<int>)
    requires Allocated(d, fs) && i < |fs| && WfDisk(d') && WfFile(f') && Gained(d, d', news)
    requires f'.dir == fs[i].dir && Sectors(f') == Sectors(fs[i]) + news
    ensures WfFiles(fs[i := f']) && Apart(fs[i := f'])
  {
    hide Used, Owned, FreeCount, Exact, Owns;
    var gs := fs[i := f'];
    forall a, b, s | 0 <= a < |gs| && 0 <= b < |gs| && a != b && s in Owns(gs[a])
      ensures s !in Owns(gs[b])
    {
      if a == i {
        GrowOwns(fs[i], f', news, s);
        if s in news && s in Owns(fs[b]) {
          OwnsInRange(d, fs[b], s);
        }
      } else if b == i {
        GrowOwns(fs[i], f', news, s);
        if s in news {
          OwnsInRange(d, fs[a], s);
        }
      }
    }
  }

  lemma GrowExact(d: Disk, d': Disk, fs: seq<File>, i: nat, f': File, news: seq<int>)
    requires Allocated(d, fs) && i < |fs| && WfDisk(d') && WfFile(f') && Gained(d, d', news)
    requires f'.dir == fs[i].dir && Sectors(f') == Sectors(fs[i]) + news
    ensures WfFiles(fs[i := f']) && Exact(d', fs[i := f'])
  {
    hide Used, Owned, FreeCount, Owns, Apart;
    var gs := fs[i := f'];
    forall s | 0 <= s < |d'.dev|
      ensures Used(d'.vol, s) <==> s < 2 || Holds(gs, s)
    {
      assert Used(d'.vol, s) <==> Used(d.vol, s) || s in news;
      GrowOwns(fs[i], f', news, s);
      if s in news {
        HoldsBy(gs, i, s);
      }
      if Holds(fs, s) {
        var k :| 0 <= k < |fs| && s in Owns(fs[k]);
        HoldsBy(gs, k, s);
      }
      if Holds(gs, s) {
        var k :| 0 <= k < |gs| && s in Owns(gs[k]);
        if k != i {
          HoldsBy(fs, k, s);
        } else if s !in news {
          HoldsBy(fs, i, s);
        }
      }
    }
  }

  /** One file takes free sectors: the invariant carries over to the new disk. */
  lemma GrowKeeps(d: Disk, d': Disk, fs: seq<File>, i: nat, f': File, news: seq<int>)
    requires Allocated(d, fs) && i < |fs| && Owned(d', f') && Gained(d, d', news)
    requires f'.dir == fs[i].dir && Sectors(f') == Sectors(fs[i]) + news
    ensures Allocated(d', fs[i := f'])
  {
    hide Used, Sound, FreeCount, Owns, Apart, Exact, Gained;
    assert WfDisk(d') by { OwnedBasics(d', f'); }
    assert WfFile(f') by { OwnedBasics(d', f'); }
    GrowApart(d, d', fs, i, f', news);
    GrowExact(d, d', fs, i, f', news);
    var gs := fs[i := f'];
    forall k | 0 <= k < |gs| ensures Owned(d', gs[k]) {
      if k != i {
        NewsForeign(d, d', fs[k], news);
      }
    }
  }

  /** Nothing about ownership changed. */
  lemma SameKeeps(d: Disk, d': Disk, fs: seq<File>, i: nat, f': File)
    requires Allocated(d, fs) && i < |fs| && WfDisk(d') && WfFile(f') && d'.vol == d.vol && |d'.dev| == |d.dev|
    requires f'.dir == fs[i].dir && Runs(f') == Runs(fs[i]) && SecCount(f'.hdr) == SecCount(fs[i].hdr)
    ensures Allocated(d', fs[i := f'])
  {
    hide Used, FreeCount, Apart, Exact, Gained, Walk, SecCount;
    assert Sectors(f') + [] == Sectors(f');
    GainedNothing(d, d');
    assert Owned(d, fs[i]);
    GrowKeeps(d, d', fs, i, f', []);
  }

  lemma StillOwned(d: Disk, d': Disk, f: File)
    requires Owned(d, f) && WfDisk(d') && |d'.dev| == |d.dev|
    requires forall s :: 0 <= s < |d.dev| && Used(d.vol, s) ==> Used(d'.vol, s)
    ensures Owned(d', f)
  {
    hide Used, Walk, SecCount;
  }

  /** Only bytes changed on the device. */
  lemma DeviceKeeps(d: Disk, d': Disk, fs: seq<File>)
    requires Allocated(d, fs) && WfDisk(d') && d'.vol == d.vol && |d'.dev| == |d.dev|
    ensures Allocated(d', fs)
  {
    hide Used, Walk, SecCount, Owns, Apart, Owned, Holds;
    forall k | 0 <= k < |fs| ensures Owned(d', fs[k]) {
      StillOwned(d, d', fs[k]);
    }
  }

  // ----- a file comes

  function InsertAt(fs: seq<File>, k: nat, f: File): (gs: seq<File>)
    requires k <= |fs|
    ensures |gs| == |fs| + 1 && gs[k] == f
    ensures forall i :: 0 <= i < k ==> gs[i] == fs[i]
    ensures forall i :: k < i < |gs| ==> gs[i] == fs[i - 1]
  {
    fs[..k] + [f] + fs[k..]
  }

  lemma InsertHolds(fs: seq<File>, k: nat, f: File, s: int)
    requires WfFiles(fs) && k <= |fs| && WfFile(f)
    ensures WfFiles(InsertAt(fs, k, f))
    ensures Holds(InsertAt(fs, k, f), s) <==> Holds(fs, s) || s in Owns(f)
  {
    hide Owns;
    var gs := InsertAt(fs, k, f);
    if s in Owns(f) {
      HoldsBy(gs, k, s);
    }
    if Holds(fs, s) {
      var i :| 0 <= i < |fs| && s in Owns(fs[i]);
      HoldsBy(gs, if i < k then i else i + 1, s);
    }
    if Holds(gs, s) {
      var i :| 0 <= i < |gs| && s in Owns(gs[i]);
      if i < k {
        HoldsBy(fs, i, s);
      } else if i > k {
        HoldsBy(fs, i - 1, s);
      }
    }
  }

  /** Position of gs[i] in fs. */
  function Before(k: nat, i: nat): int { if i < k then i else i - 1 }

  lemma InsertApart(fs: seq<File>, k: nat, f: File)
    requires WfFiles(fs) && k <= |fs| && WfFile(f) && Apart(fs)
    requires forall s :: s in Owns(f) ==> !Holds(fs, s)
    ensures WfFiles(InsertAt(fs, k, f)) && Apart(InsertAt(fs, k, f))
  {
    hide Owns;
    var gs := InsertAt(fs, k, f);
    forall a, b, s | 0 <= a < |gs| && 0 <= b < |gs| && a != b && s in Owns(gs[a])
      ensures s !in Owns(gs[b])
    {
      if a == k {
        NotHeldBy(fs, Before(k, b), s);
      } else if b == k {
        HoldsBy(fs, Before(k, a), s);
      } else {
        assert gs[a] == fs[Before(k, a)] && gs[b] == fs[Before(k, b)];
      }
    }
  }

  /** A file that owns just taken sectors joins the list. */
  lemma InsertKeeps(d: Disk, d': Disk, fs: seq<File>, k: nat, f: File)
    requires Allocated(d, fs) && k <= |fs| && Owned(d', f) && |d'.dev| == |d.dev|
    requires forall s :: s in Owns(f) ==> !Holds(fs, s)
    requires forall s :: 0 <= s < MAX_SECTORS ==> (Used(d'.vol, s) <==> Used(d.vol, s) || s in Owns(f))
    ensures Allocated(d', InsertAt(fs, k, f))
  {
    hide Used, Walk, SecCount, Apart, Holds, Owns;
    var gs := InsertAt(fs, k, f);
    OwnedBasics(d', f);
    InsertApart(fs, k, f);
    forall s | 0 <= s < |d'.dev| ensures Used(d'.vol, s) <==> s < 2 || Holds(gs, s) {
      InsertHolds(fs, k, f, s);
    }
    forall i | 0 <= i < |gs| ensures Owned(d', gs[i]) {
      if i != k {
        assert gs[i] == fs[Before(k, i)];
        StillOwned(d, d', gs[i]);
      }
    }
  }

  // ----- a file goes

  function RemoveAt(fs: seq<File>, k: nat): (gs: seq<File>)
    requires k < |fs|
    ensures |gs| == |fs| - 1
    ensures forall i :: 0 <= i < k ==> gs[i] == fs[i]
    ensures forall i :: k <= i < |gs| ==> gs[i] == fs[i + 1]
  {
    fs[..k] + fs[k + 1..]
  }

  function After(k: nat, i: nat): nat { if i < k then i else i + 1 }

  lemma RemoveHolds(fs: seq<File>, k: nat, s: int)
    requires WfFiles(fs) && k < |fs| && Apart(fs)
    ensures WfFiles(RemoveAt(fs, k))
    ensures Holds(RemoveAt(fs, k), s) <==> Holds(fs, s) && s !in Owns(fs[k])
  {
    hide Owns;
    var gs := RemoveAt(fs, k);
    if Holds(fs, s) && s !in Owns(fs[k]) {
      var i :| 0 <= i < |fs| && s in Owns(fs[i]);
      HoldsBy(gs, Before(k, i), s);
    }
    if Holds(gs, s) {
      var i :| 0 <= i < |gs| && s in Owns(gs[i]);
      HoldsBy(fs, After(k, i), s);
    }
  }

  /** A file's sectors, and only they, become free when it leaves the list. */
  lemma RemoveKeeps(d: Disk, d': Disk, fs: seq<File>, k: nat)
    requires Allocated(d, fs) && k < |fs| && WfDisk(d') && |d'.dev| == |d.dev|
    requires forall s :: 0 <= s < MAX_SECTORS ==> (Used(d'.vol, s) <==> Used(d.vol, s) && s !in Owns(fs[k]))
    ensures Allocated(d', RemoveAt(fs, k))
  {
    hide Used, Walk, SecCount, Holds, Owns;
    var gs := RemoveAt(fs, k);
    forall s | 0 <= s < |d'.dev| ensures Used(d'.vol, s) <==> s < 2 || Holds(gs, s) {
      RemoveHolds(fs, k, s);
      if s in Owns(fs[k]) {
        OwnsInRange(d, fs[k], s);
      }
    }
    RemoveApart(fs, k);
    forall i | 0 <= i < |gs| ensures Owned(d', gs[i]) {
      assert gs[i] == fs[After(k, i)];
      StillOwnedWithout(d, d', fs, k, After(k, i));
    }
  }

  lemma RemoveApart(fs: seq<File>, k: nat)
    requires WfFiles(fs) && k < |fs| && Apart(fs)
    ensures WfFiles(RemoveAt(fs, k)) && Apart(RemoveAt(fs, k))
  {
    hide Owns;
    var gs := RemoveAt(fs, k);
    forall a, b, s | 0 <= a < |gs| && 0 <= b < |gs| && a != b && s in Owns(gs[a])
      ensures s !in Owns(gs[b])
    {
      assert gs[a] == fs[After(k, a)] && gs[b] == fs[After(k, b)];
    }
  }

  lemma StillOwnedWithout(d: Disk, d': Disk, fs: seq<File>, k: nat, i: nat)
    requires Allocated(d, fs) && k < |fs| && i < |fs| && i != k && WfDisk(d') && |d'.dev| == |d.dev|
    requires forall s :: 0 <= s < MAX_SECTORS ==> (Used(d'.vol, s) <==> Used(d.vol, s) && s !in Owns(fs[k]))
    ensures Owned(d', fs[i])
  {
    hide Used, Walk, SecCount, Holds, Exact;
    var f := fs[i];
    assert Owned(d, f);
    forall s | s in Owns(f) ensures s !in Owns(fs[k]) {
    }
    assert f.dir in Owns(f);
    forall q | 0 <= q < |Sectors(f)| ensures Used(d'.vol, Sectors(f)[q]) {
      assert Sectors(f)[q] in Owns(f);
    }
  }

  /** Freeing a file frees its sectors and nothing else. */
  lemma {:induction false} FreeRunsUsed(d: Disk, cs: seq<Chain>, s: nat)
    requires WfDisk(d) && RunsOnDisk(d, cs) && s < MAX_SECTORS
    ensures Used(FreeRuns(d, cs).vol, s) <==> Used(d.vol, s) && s !in Walk(cs)
  {
    hide Used, Mark;
    if cs != [] {
      var c := cs[|cs| - 1];
      FreeRunsUsed(d, cs[..|cs| - 1], s);
      MarkUsed(FreeRuns(d, cs[..|cs| - 1]).vol, c.start, c.end - c.start + 1, 0, s);
      InRangeOf(c.start, c.end, s);
    }
  }

  lemma InRangeOf(lo: int, hi: int, s: int)
    ensures s in Range(lo, hi) <==> lo <= s <= hi
  {
    if lo <= s <= hi {
      assert Range(lo, hi)[s - lo] == s;
    }
  }

  lemma RunsAllocated(d: Disk, f: File)
    requires Owned(d, f)
    ensures WfDisk(d) && WfFile(f) && RunsOnDisk(d, Runs(f)) && 0 <= f.dir < |d.dev|
  {
    hide Walk, Used, SecCount;
    forall i | 0 <= i < |Runs(f)| ensures 0 <= Runs(f)[i].start <= Runs(f)[i].end < |d.dev| {
      var c := Runs(f)[i];
      var n := |Walk(Runs(f)[..i])|;
      AtSector(Runs(f), i, c.start, n);
      AtSector(Runs(f), i, c.end, n + (c.end - c.start));
    }
  }

  lemma FreeFileUsed(d: Disk, f: File, s: nat)
    requires Owned(d, f) && s < MAX_SECTORS
    ensures RunsOnDisk(d, Runs(f))
    ensures Used(FreeFile(d, f).vol, s) <==> Used(d.vol, s) && s !in Owns(f)
  {
    hide Walk, Used, Mark, FreeRuns, Sound;
    RunsAllocated(d, f);
    FreeRunsUsed(d, Runs(f), s);
    MarkUsed(FreeRuns(d, Runs(f)).vol, f.dir, 1, 0, s);
  }

  lemma FreeKeeps(d: Disk, fs: seq<File>, k: nat)
    requires Allocated(d, fs) && k < |fs|
    ensures RunsOnDisk(d, Runs(fs[k]))
    ensures Allocated(FreeFile(d, fs[k]), RemoveAt(fs, k))
  {
    hide Used, FreeRuns, Walk, Apart, Exact, Owns;
    assert Owned(d, fs[k]);
    RunsAllocated(d, fs[k]);
    var d' := FreeFile(d, fs[k]);
    forall s | 0 <= s < MAX_SECTORS
      ensures Used(d'.vol, s) <==> Used(d.vol, s) && s !in Owns(fs[k])
    {
      FreeFileUsed(d, fs[k], s);
    }
    RemoveKeeps(d, d', fs, k);
  }

  /** The bitmap is a function of the live files: whatever a removed file had taken is back. */
  lemma BitmapDetermined(d: Disk, d': Disk, fs: seq<File>, s: nat)
    requires Allocated(d, fs) && Allocated(d', fs) && |d.dev| == |d'.dev| && s < |d.dev|
    ensures Used(d.vol, s) <==> Used(d'.vol, s)
  {
    hide Used;
  }
}
