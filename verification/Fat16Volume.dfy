/** A FAT16 volume as an array of sectors, and what its bytes mean (src/fs/fat16.c, src/fs/fat16.h). */
module Fat16Volume {
  import opened Bytes
  import opened Fat16Names
  import opened Fat16Chains

  type Sector = s: seq<byte> | |s| == 512 witness seq(512, _ => 0)
  type Entry = e: seq<byte> | |e| == 32 witness seq(32, _ => 0)
  type Disk = seq<Sector>

  function ZeroSector(): Sector {
    seq(512, _ => 0)
  }

  /** i * m as repeated addition, which keeps products of two unknowns out of the proofs; TimesIsProduct says it is i *
      m. */
  function Times(i: nat, m: nat): nat {
    if i == 0 then 0 else Times(i - 1, m) + m
  }

  lemma {:induction false} TimesIsProduct(i: nat, m: nat)
    ensures Times(i, m) == i * m
  {
    if i > 0 {
      TimesIsProduct(i - 1, m);
      assert (i - 1) * m + m == i * m;
    }
  }

  lemma TimesNext(i: nat, m: nat)
    ensures Times(i + 1, m) == Times(i, m) + m
  {
  }

  lemma {:induction false} TimesLess(i: nat, n: nat, m: nat)
    requires i < n
    ensures Times(i, m) + m <= Times(n, m)
  {
    if i + 1 < n {
      TimesLess(i, n - 1, m);
    }
  }

  lemma TimesInjective(i: nat, s: nat, j: nat, t: nat, m: nat)
    requires s < m && t < m && Times(i, m) + s == Times(j, m) + t
    ensures i == j && s == t
  {
    if i < j {
      TimesLess(i, j, m);
    } else if j < i {
      TimesLess(j, i, m);
    }
  }

  /** The fields of fat16_fs_t that fat16_mount fills in (src/fs/fat16.h:71-90). */
  datatype Geometry = Geometry(
    spc: nat, reserved: nat, numFats: nat, rootEntries: nat, fatSize: nat, totalSectors: nat,
    fatStart: nat, rootStart: nat, rootSectors: nat, dataStart: nat, clusters: nat)

  /** The regions follow one another, fit on n sectors, and the FAT has an entry for every cluster. */
  predicate LayoutOk(g: Geometry, n: nat) {
    && 1 <= g.spc <= 128 && 1 <= g.numFats && 1 <= g.fatSize && 1 <= g.fatStart && 1 <= g.rootSectors
    && g.rootStart == g.fatStart + Times(g.numFats, g.fatSize)
    && g.fatStart + g.fatSize <= g.rootStart
    && g.dataStart == g.rootStart + g.rootSectors
    && g.dataStart + Times(g.clusters, g.spc) <= n
    && g.clusters + 2 <= 256 * g.fatSize
    && 4085 <= g.clusters < 65525
  }

  // ---- The FAT region ----

  lemma CopyInside(g: Geometry, n: nat, i: nat, s: nat)
    requires LayoutOk(g, n) && i < g.numFats && s < g.fatSize
    ensures g.fatStart <= g.fatStart + Times(i, g.fatSize) + s < g.rootStart <= n
  {
    TimesLess(i, g.numFats, g.fatSize);
  }

  /** Entry c of FAT copy i. */
  function FatCell(d: Disk, g: Geometry, i: nat, c: nat): u16
    requires LayoutOk(g, |d|) && i < g.numFats && c < 256 * g.fatSize
  {
    CopyInside(g, |d|, i, c / 256);
    Le16(d[g.fatStart + Times(i, g.fatSize) + c / 256], 2 * (c % 256))
  }

  function FatEntry(d: Disk, g: Geometry, c: nat): u16
    requires LayoutOk(g, |d|) && c < 256 * g.fatSize
  {
    Le16(d[g.fatStart + c / 256], 2 * (c % 256))
  }

  function FatUpTo(d: Disk, g: Geometry, n: nat): (r: seq<u16>)
    requires LayoutOk(g, |d|) && n <= g.clusters + 2
    ensures |r| == n
  {
    if n == 0 then [] else FatUpTo(d, g, n - 1) + [FatEntry(d, g, n - 1)]
  }

  /** The FAT of the volume: the entries of the first copy. */
  function Fat(d: Disk, g: Geometry): (r: seq<u16>)
    requires LayoutOk(g, |d|)
    ensures |r| == g.clusters + 2
  {
    FatUpTo(d, g, g.clusters + 2)
  }

  lemma {:induction false} FatUpToAt(d: Disk, g: Geometry, n: nat, c: nat)
    requires LayoutOk(g, |d|) && c < n <= g.clusters + 2
    ensures FatUpTo(d, g, n)[c] == FatEntry(d, g, c)
  {
    if c < n - 1 {
      FatUpToAt(d, g, n - 1, c);
    }
  }

  lemma FatAt(d: Disk, g: Geometry, c: nat)
    requires LayoutOk(g, |d|) && c < g.clusters + 2
    ensures Fat(d, g)[c] == FatEntry(d, g, c)
  {
    FatUpToAt(d, g, g.clusters + 2, c);
  }

  /** Every FAT copy agrees with the first on every entry from 2 on. */
  ghost predicate Mirrored(d: Disk, g: Geometry)
    requires LayoutOk(g, |d|)
  {
    forall i, c :: 0 <= i < g.numFats && 2 <= c < 256 * g.fatSize ==> FatCell(d, g, i, c) == FatEntry(d, g, c)
  }

  /** The disk after the mirroring loop of fat_write_entry has written n copies of FAT sector s. */
  function PutCopies(d: Disk, g: Geometry, s: nat, sec: Sector, n: nat): (r: Disk)
    requires LayoutOk(g, |d|) && s < g.fatSize && n <= g.numFats
    ensures |r| == |d|
  {
    if n == 0 then d else
      CopyInside(g, |d|, n - 1, s);
      PutCopies(d, g, s, sec, n - 1)[g.fatStart + Times(n - 1, g.fatSize) + s := sec]
  }

  lemma {:induction false} PutCopiesOutside(d: Disk, g: Geometry, s: nat, sec: Sector, n: nat)
    requires LayoutOk(g, |d|) && s < g.fatSize && n <= g.numFats
    ensures forall l :: 0 <= l < |d| && !(g.fatStart <= l < g.rootStart) ==> PutCopies(d, g, s, sec, n)[l] == d[l]
  {
    if n > 0 {
      PutCopiesOutside(d, g, s, sec, n - 1);
      CopyInside(g, |d|, n - 1, s);
    }
  }

  lemma {:induction false} PutCopiesAt(d: Disk, g: Geometry, s: nat, sec: Sector, n: nat, i: nat, t: nat)
    requires LayoutOk(g, |d|) && s < g.fatSize && n <= g.numFats && i < g.numFats && t < g.fatSize
    ensures g.fatStart + Times(i, g.fatSize) + t < |d|
    ensures PutCopies(d, g, s, sec, n)[g.fatStart + Times(i, g.fatSize) + t] ==
            if i < n && t == s then sec else d[g.fatStart + Times(i, g.fatSize) + t]
  {
    CopyInside(g, |d|, i, t);
    if n > 0 {
      PutCopiesAt(d, g, s, sec, n - 1, i, t);
      CopyInside(g, |d|, n - 1, s);
      if g.fatStart + Times(i, g.fatSize) + t == g.fatStart + Times(n - 1, g.fatSize) + s {
        TimesInjective(i, t, n - 1, s, g.fatSize);
      }
    }
  }

  /** The disk after fat_write_entry: the sector of the first copy, with one word changed, in every copy. */
  function SetFat(d: Disk, g: Geometry, c: nat, v: u16): (r: Disk)
    requires LayoutOk(g, |d|) && c < 256 * g.fatSize
    ensures |r| == |d|
  {
    PutCopies(d, g, c / 256, PutLe16(d[g.fatStart + c / 256], 2 * (c % 256), v), g.numFats)
  }

  lemma SetFatCell(d: Disk, g: Geometry, c: nat, v: u16, i: nat, x: nat)
    requires LayoutOk(g, |d|) && c < 256 * g.fatSize && i < g.numFats && x < 256 * g.fatSize
    ensures FatCell(SetFat(d, g, c, v), g, i, x) ==
            if x == c then v else if x / 256 == c / 256 then FatEntry(d, g, x) else FatCell(d, g, i, x)
  {
    var was := d[g.fatStart + c / 256];
    PutCopiesAt(d, g, c / 256, PutLe16(was, 2 * (c % 256), v), g.numFats, i, x / 256);
    if x / 256 == c / 256 {
      PutLe16Others(was, c % 256, v, x % 256);
      assert x % 256 == c % 256 ==> x == c;
    }
  }

  /** d2 differs from d at most in the FAT region. */
  ghost predicate SameOutsideFat(d: Disk, d2: Disk, g: Geometry) {
    |d2| == |d| && forall l :: 0 <= l < |d| && !(g.fatStart <= l < g.rootStart) ==> d2[l] == d[l]
  }

  /** The effect of writing FAT entry c: exactly one logical entry changes, the copies go on agreeing, and nothing
      outside the FATs changes. */
  ghost predicate FatWritten(d: Disk, d2: Disk, g: Geometry, c: nat, v: u16)
    requires LayoutOk(g, |d|) && c < g.clusters + 2
  {
    && SameOutsideFat(d, d2, g)
    && Fat(d2, g) == Fat(d, g)[c := v]
    && (Mirrored(d, g) ==> Mirrored(d2, g))
  }

  lemma SetFatEffect(d: Disk, g: Geometry, c: nat, v: u16)
    requires LayoutOk(g, |d|) && c < g.clusters + 2
    ensures FatWritten(d, SetFat(d, g, c, v), g, c, v)
  {
    var d2 := SetFat(d, g, c, v);
    PutCopiesOutside(d, g, c / 256, PutLe16(d[g.fatStart + c / 256], 2 * (c % 256), v), g.numFats);
    forall x | 0 <= x < 256 * g.fatSize
      ensures FatEntry(d2, g, x) == if x == c then v else FatEntry(d, g, x)
    {
      SetFatCell(d, g, c, v, 0, x);
    }
    forall x | 0 <= x < g.clusters + 2
      ensures Fat(d2, g)[x] == Fat(d, g)[c := v][x]
    {
      FatAt(d, g, x);
      FatAt(d2, g, x);
    }
    if Mirrored(d, g) {
      forall i, x | 0 <= i < g.numFats && 2 <= x < 256 * g.fatSize
        ensures FatCell(d2, g, i, x) == FatEntry(d2, g, x)
      {
        SetFatCell(d, g, c, v, i, x);
      }
    }
  }

  /** Writes outside the FAT region leave the FAT and its copies as they were. */
  lemma SameFat(d: Disk, d2: Disk, g: Geometry)
    requires LayoutOk(g, |d|) && |d2| == |d|
    requires forall l :: g.fatStart <= l < g.rootStart ==> d2[l] == d[l]
    ensures Fat(d2, g) == Fat(d, g)
    ensures Mirrored(d, g) ==> Mirrored(d2, g)
  {
    forall i, c | 0 <= i < g.numFats && 0 <= c < 256 * g.fatSize
      ensures FatCell(d2, g, i, c) == FatCell(d, g, i, c)
    {
      CopyInside(g, |d|, i, c / 256);
    }
    assert forall c :: 0 <= c < 256 * g.fatSize ==> FatEntry(d2, g, c) == FatEntry(d, g, c);
    forall x | 0 <= x < g.clusters + 2
      ensures Fat(d2, g)[x] == Fat(d, g)[x]
    {
      FatAt(d, g, x);
      FatAt(d2, g, x);
    }
  }

  /** The disk d in the middle of freeing, on a disk that was d0, what a walk from first reaches; the walk is at c. */
  ghost predicate Freeing(d0: Disk, d: Disk, g: Geometry, first: int, visited: set<int>, c: int)
    requires LayoutOk(g, |d0|)
  {
    && SameOutsideFat(d0, d, g)
    && (Mirrored(d0, g) ==> Mirrored(d, g))
    && Walk(Fat(d0, g), first, Fat(d, g), visited, c)
  }

  /** What a freeing walk at c still has to do: it lessens with the entries in use and when the walk stops. */
  function ToFree(d: Disk, g: Geometry, c: int): int
    requires LayoutOk(g, |d|)
  {
    2 * (g.clusters - CountFree(Fat(d, g))) + if Follows(c) then 1 else 0
  }

  lemma ToFreeBound(d: Disk, g: Geometry, c: int)
    requires LayoutOk(g, |d|)
    ensures ToFree(d, g, c) >= 0
  {
    ZerosBound(Fat(d, g), g.clusters + 2);
  }

  lemma FreeingStep(d0: Disk, d: Disk, g: Geometry, first: int, visited: set<int>, c: int)
    requires LayoutOk(g, |d0|) && LinksInside(Fat(d0, g))
    requires Freeing(d0, d, g, first, visited, c) && Follows(c)
    ensures var d2 := SetFat(d, g, c, FREE);
            && Freeing(d0, d2, g, first, visited + {c}, Fat(d, g)[c])
            && 0 <= ToFree(d2, g, Fat(d, g)[c]) < ToFree(d, g, c)
  {
    SetFatEffect(d, g, c, FREE);
    WalkStep(Fat(d0, g), first, Fat(d, g), visited, c);
    ToFreeBound(SetFat(d, g, c, FREE), g, Fat(d, g)[c]);
  }

  /** d is d0 with exactly the clusters that a walk from first reaches freed. */
  ghost predicate WalkFreed(d0: Disk, d: Disk, g: Geometry, first: int)
    requires LayoutOk(g, |d0|)
  {
    && SameOutsideFat(d0, d, g)
    && (Mirrored(d0, g) ==> Mirrored(d, g))
    && (forall x :: 0 <= x < g.clusters + 2 ==>
          Fat(d, g)[x] == if Reached(Fat(d0, g), first, x) then FREE else Fat(d0, g)[x])
  }

  lemma FreeingDone(d0: Disk, d: Disk, g: Geometry, first: int, visited: set<int>, c: int)
    requires LayoutOk(g, |d0|) && LinksInside(Fat(d0, g)) && (Follows(first) ==> first < g.clusters + 2)
    requires Freeing(d0, d, g, first, visited, c) && !Follows(c)
    ensures WalkFreed(d0, d, g, first)
  {
    WalkDone(Fat(d0, g), first, Fat(d, g), visited, c);
  }

  // ---- The root directory ----

  function First(e: Entry): byte { e[0] }
  function Attr(e: Entry): byte { e[11] }
  function ClusterLo(e: Entry): u16 { Le16(e, 26) }
  function FileSize(e: Entry): u32 { Le32(e, 28) }

  /** The attribute tests of the C code, bit by bit. */
  predicate IsVolumeId(e: Entry) { Attr(e) / 8 % 2 == 1 }
  predicate IsDirectory(e: Entry) { Attr(e) / 16 % 2 == 1 }

  /** An entry the directory scans consider: not free, not deleted, no long-name part, no volume label. */
  predicate Live(e: Entry) {
    First(e) != 0 && First(e) != 0xE5 && Attr(e) != 0x0F && !IsVolumeId(e)
  }

  function Slot(d: Disk, g: Geometry, k: nat): Entry
    requires LayoutOk(g, |d|) && k < 16 * g.rootSectors
  {
    d[g.rootStart + k / 16][32 * (k % 16)..32 * (k % 16) + 32]
  }

  function DirUpTo(d: Disk, g: Geometry, n: nat): (r: seq<Entry>)
    requires LayoutOk(g, |d|) && n <= 16 * g.rootSectors
    ensures |r| == n
  {
    if n == 0 then [] else DirUpTo(d, g, n - 1) + [Slot(d, g, n - 1)]
  }

  /** The root directory: its slots in order. */
  function Dir(d: Disk, g: Geometry): (r: seq<Entry>)
    requires LayoutOk(g, |d|)
    ensures |r| == 16 * g.rootSectors
  {
    DirUpTo(d, g, 16 * g.rootSectors)
  }

  lemma {:induction false} DirUpToAt(d: Disk, g: Geometry, n: nat, k: nat)
    requires LayoutOk(g, |d|) && k < n <= 16 * g.rootSectors
    ensures DirUpTo(d, g, n)[k] == Slot(d, g, k)
  {
    if k < n - 1 {
      DirUpToAt(d, g, n - 1, k);
    }
  }

  lemma DirAt(d: Disk, g: Geometry, k: nat)
    requires LayoutOk(g, |d|) && k < 16 * g.rootSectors
    ensures Dir(d, g)[k] == Slot(d, g, k) == d[g.rootStart + k / 16][32 * (k % 16)..32 * (k % 16) + 32]
  {
    DirUpToAt(d, g, 16 * g.rootSectors, k);
  }

  /** All slots after the first never-used one are never-used. */
  ghost predicate Terminated(dir: seq<Entry>) {
    forall i, j :: 0 <= i < j < |dir| && First(dir[i]) == 0 ==> First(dir[j]) == 0
  }

  /** The scan of fat16_find_file and fat16_write_file from slot k on. */
  function FindFrom(dir: seq<Entry>, name: CString, k: nat): (r: Option<nat>)
    requires k <= |dir|
    ensures r.Some? ==> k <= r.value < |dir| && Live(dir[r.value]) && Matches(dir[r.value], name)
    decreases |dir| - k
  {
    if k == |dir| || First(dir[k]) == 0 then None
    else if Live(dir[k]) && Matches(dir[k], name) then Some(k)
    else FindFrom(dir, name, k + 1)
  }

  function Lookup(dir: seq<Entry>, name: CString): Option<nat> {
    FindFrom(dir, name, 0)
  }

  /** The scan finds slot k exactly when k is the first live slot carrying the name. */
  lemma {:induction false} FindFromExactly(dir: seq<Entry>, name: CString, from: nat, k: nat)
    requires Terminated(dir) && from <= |dir| && k < |dir|
    ensures FindFrom(dir, name, from) == Some(k) <==>
            && from <= k && Live(dir[k]) && Matches(dir[k], name)
            && forall j :: from <= j < k ==> !(Live(dir[j]) && Matches(dir[j], name))
    decreases |dir| - from
  {
    if from < |dir| {
      FindFromExactly(dir, name, from + 1, k);
      if First(dir[from]) == 0 && from < k {
        assert First(dir[k]) == 0;
      }
    }
  }

  /** No live slot carries the name exactly when the scan fails. */
  lemma {:induction false} FindFromNone(dir: seq<Entry>, name: CString, from: nat)
    requires Terminated(dir) && from <= |dir|
    ensures FindFrom(dir, name, from) == None <==>
            forall j :: from <= j < |dir| ==> !(Live(dir[j]) && Matches(dir[j], name))
    decreases |dir| - from
  {
    if from < |dir| {
      FindFromNone(dir, name, from + 1);
    }
  }

  /** Names that differ in the case of letters only find the same slot. */
  lemma {:induction false} CaseVariantsFound(dir: seq<Entry>, a: CString, b: CString, from: nat)
    requires from <= |dir| && SameLetters(a, b)
    ensures FindFrom(dir, a, from) == FindFrom(dir, b, from)
    decreases |dir| - from
  {
    UpperSame(a, b);
    if from < |dir| {
      CaseVariantsFound(dir, a, b, from + 1);
    }
  }

  /** Replacing a slot by one with the same name and status changes no lookup. */
  lemma {:induction false} FindFromSame(dir: seq<Entry>, dir2: seq<Entry>, name: CString, from: nat)
    requires |dir2| == |dir| && from <= |dir|
    requires forall j :: 0 <= j < |dir| ==> dir2[j][..12] == dir[j][..12]
    ensures FindFrom(dir2, name, from) == FindFrom(dir, name, from)
    decreases |dir| - from
  {
    if from < |dir| {
      FindFromSame(dir, dir2, name, from + 1);
      SameHead(dir[from], dir2[from]);
    }
  }

  lemma SameHead(e: Entry, f: Entry)
    requires f[..12] == e[..12]
    ensures First(f) == First(e) && Attr(f) == Attr(e) && EntryText(f) == EntryText(e)
  {
    assert f[..12][0] == e[..12][0] && f[..12][11] == e[..12][11] && f[..12][8] == e[..12][8];
    assert f[..8] == f[..12][..8] && e[..8] == e[..12][..8];
    assert f[8..11] == f[..12][8..11] && e[8..11] == e[..12][8..11];
  }

  /** A sector with the bytes of e in place of those at off. */
  function Splice(sec: Sector, off: nat, e: Entry): Sector
    requires off + 32 <= 512
  {
    sec[..off] + e + sec[off + 32..]
  }

  /** The disk after writing back the directory sector with slot k replaced. */
  function SetSlot(d: Disk, g: Geometry, k: nat, e: Entry): Disk
    requires LayoutOk(g, |d|) && k < 16 * g.rootSectors
  {
    d[g.rootStart + k / 16 := Splice(d[g.rootStart + k / 16], 32 * (k % 16), e)]
  }

  lemma SetSlotEffect(d: Disk, g: Geometry, k: nat, e: Entry)
    requires LayoutOk(g, |d|) && k < 16 * g.rootSectors
    ensures Dir(SetSlot(d, g, k, e), g) == Dir(d, g)[k := e]
    ensures Fat(SetSlot(d, g, k, e), g) == Fat(d, g)
    ensures Mirrored(d, g) ==> Mirrored(SetSlot(d, g, k, e), g)
    ensures |SetSlot(d, g, k, e)| == |d| && forall l :: g.dataStart <= l < |d| ==> SetSlot(d, g, k, e)[l] == d[l]
  {
    var d2 := SetSlot(d, g, k, e);
    SameFat(d, d2, g);
    forall j | 0 <= j < 16 * g.rootSectors
      ensures Dir(d2, g)[j] == Dir(d, g)[k := e][j]
    {
      DirAt(d, g, j);
      DirAt(d2, g, j);
      if j / 16 == k / 16 {
        SpliceSlots(d[g.rootStart + k / 16], k % 16, e, j % 16);
      }
    }
  }

  lemma SpliceSlots(sec: Sector, k: nat, e: Entry, j: nat)
    requires k < 16 && j < 16
    ensures Splice(sec, 32 * k, e)[32 * j..32 * j + 32] == if j == k then e else sec[32 * j..32 * j + 32]
  {
  }

  lemma SameDir(d: Disk, d2: Disk, g: Geometry)
    requires LayoutOk(g, |d|) && |d2| == |d|
    requires forall l :: g.rootStart <= l < g.dataStart ==> d2[l] == d[l]
    ensures Dir(d2, g) == Dir(d, g)
  {
    forall k | 0 <= k < 16 * g.rootSectors
      ensures Dir(d2, g)[k] == Dir(d, g)[k]
    {
      DirAt(d, g, k);
      DirAt(d2, g, k);
    }
  }

  // ---- The data region ----

  /** cluster_to_sector (src/fs/fat16.c:31). */
  function ClusterLba(g: Geometry, c: nat): nat
    requires c >= 2
  {
    g.dataStart + Times(c - 2, g.spc)
  }

  lemma ClusterInside(g: Geometry, n: nat, c: nat, j: nat)
    requires LayoutOk(g, n) && 2 <= c < g.clusters + 2 && j < g.spc
    ensures g.dataStart <= SectorLba(g, c, j) < n
  {
    TimesLess(c - 2, g.clusters, g.spc);
  }

  /** Distinct clusters occupy distinct sectors. */
  lemma ClusterInjective(g: Geometry, n: nat, c: nat, j: nat, x: nat, i: nat)
    requires LayoutOk(g, n) && 2 <= c && 2 <= x && j < g.spc && i < g.spc
    requires SectorLba(g, c, j) == SectorLba(g, x, i)
    ensures c == x && j == i
  {
    TimesInjective(c - 2, j, x - 2, i, g.spc);
  }

  function SectorLba(g: Geometry, c: nat, j: nat): nat
    requires c >= 2
  {
    ClusterLba(g, c) + j
  }

  /** Cluster 2 begins where the data region does. */
  lemma SectorAddress(g: Geometry, c: nat, j: nat)
    requires c >= 2
    ensures SectorLba(g, c, j) == g.dataStart + (c - 2) * g.spc + j
  {
    TimesIsProduct(c - 2, g.spc);
  }

  function ClusterLbas(g: Geometry, c: nat, n: nat): seq<nat>
    requires c >= 2
  {
    seq(n, j requires 0 <= j < n => SectorLba(g, c, j))
  }

  predicate InData(g: Geometry, chain: seq<nat>) {
    forall i :: 0 <= i < |chain| ==> 2 <= chain[i] < g.clusters + 2
  }

  /** The sectors of a chain in file order. */
  function Lbas(g: Geometry, chain: seq<nat>): (r: seq<nat>)
    requires InData(g, chain)
    ensures |r| == Times(|chain|, g.spc)
  {
    if chain == [] then [] else
      Lbas(g, chain[..|chain| - 1]) + ClusterLbas(g, chain[|chain| - 1], g.spc)
  }

  /** Sector l is sector j of cluster c of the chain. */
  predicate IsSector(g: Geometry, chain: seq<nat>, c: nat, j: nat, l: nat) {
    c in chain && 2 <= c < g.clusters + 2 && j < g.spc && l == SectorLba(g, c, j)
  }

  lemma {:induction false} LbasMembers(g: Geometry, chain: seq<nat>, l: nat)
    requires InData(g, chain) && l in Lbas(g, chain)
    ensures exists c, j :: IsSector(g, chain, c, j, l)
  {
    var n := |chain| - 1;
    if l in Lbas(g, chain[..n]) {
      LbasMembers(g, chain[..n], l);
      var c, j :| IsSector(g, chain[..n], c, j, l);
      assert IsSector(g, chain, c, j, l);
    } else {
      var j :| 0 <= j < g.spc && ClusterLbas(g, chain[n], g.spc)[j] == l;
      assert IsSector(g, chain, chain[n], j, l);
    }
  }

  function SectorAt(d: Disk, l: nat): Sector {
    if l < |d| then d[l] else ZeroSector()
  }

  /** Sector j of cluster c. */
  function SectorOf(d: Disk, g: Geometry, c: nat, j: nat): Sector {
    if c >= 2 then SectorAt(d, SectorLba(g, c, j)) else ZeroSector()
  }

  /** The bytes of the listed sectors, one after the other. */
  function Flatten(d: Disk, lbas: seq<nat>): (r: seq<byte>)
    ensures |r| == 512 * |lbas|
  {
    if lbas == [] then [] else Flatten(d, lbas[..|lbas| - 1]) + SectorAt(d, lbas[|lbas| - 1])
  }

  lemma {:induction false} FlattenSame(d: Disk, d2: Disk, lbas: seq<nat>)
    requires forall i :: 0 <= i < |lbas| ==> SectorAt(d2, lbas[i]) == SectorAt(d, lbas[i])
    ensures Flatten(d2, lbas) == Flatten(d, lbas)
  {
    if lbas != [] {
      FlattenSame(d, d2, lbas[..|lbas| - 1]);
    }
  }

  lemma {:induction false} FlattenPrefix(d: Disk, a: seq<nat>, b: seq<nat>)
    ensures Flatten(d, a + b)[..512 * |a|] == Flatten(d, a)
  {
    if b == [] {
      assert a + b == a;
    } else {
      var n := |b| - 1;
      assert (a + b)[..|a + b| - 1] == a + b[..n];
      FlattenPrefix(d, a, b[..n]);
    }
  }

  // ---- Files ----

  /** How many clusters hold size bytes: one for every full or begun cluster. */
  function ClustersFor(size: nat, spc: nat): nat
    requires spc >= 1
    decreases size
  {
    if size == 0 then 0 else if size <= 512 * spc then 1 else 1 + ClustersFor(size - 512 * spc, spc)
  }

  /** It is size over the bytes of a cluster, rounded up. */
  lemma {:induction false} ClustersForExactly(size: nat, spc: nat, n: nat)
    requires spc >= 1
    ensures n == ClustersFor(size, spc) <==>
            size <= 512 * Times(n, spc) && (n > 0 ==> 512 * Times(n - 1, spc) < size)
    decreases size
  {
    if size > 512 * spc {
      if n > 0 {
        ClustersForExactly(size - 512 * spc, spc, n - 1);
      }
    } else if n > 1 {
      TimesLess(0, n - 1, spc);
    }
  }

  /** A slot and its chain agree: only live slots own clusters, and a file's chain is exactly long enough. */
  ghost predicate SlotOk(fat: seq<u16>, e: Entry, chain: seq<nat>, spc: nat)
    requires spc >= 1
  {
    if !Live(e) then chain == []
    else IsChain(fat, ClusterLo(e), chain) && (!IsDirectory(e) ==> |chain| == ClustersFor(FileSize(e), spc))
  }

  ghost predicate Chained(fat: seq<u16>, dir: seq<Entry>, spc: nat, chains: seq<seq<nat>>, owner: Owners)
    requires spc >= 1
  {
    && |chains| == |dir|
    && (forall k :: 0 <= k < |dir| ==> SlotOk(fat, dir[k], chains[k], spc))
    && Partition(fat, chains, owner)
  }

  /** The volume invariant: chains are in range, acyclic, properly ended, pairwise disjoint, of exactly the right
      length, and own every cluster in use; the FAT copies agree; the directory is properly terminated. */
  ghost predicate WellFormed(d: Disk, g: Geometry, chains: seq<seq<nat>>, owner: Owners) {
    && LayoutOk(g, |d|)
    && Mirrored(d, g)
    && Terminated(Dir(d, g))
    && Chained(Fat(d, g), Dir(d, g), g.spc, chains, owner)
  }

  lemma ChainInData(d: Disk, g: Geometry, chains: seq<seq<nat>>, owner: Owners, k: nat)
    requires WellFormed(d, g, chains, owner) && k < |chains|
    ensures InData(g, chains[k])
  {
    assert SlotOk(Fat(d, g), Dir(d, g)[k], chains[k], g.spc);
  }

  /** Everything stored in a chain. */
  function ChainBytes(d: Disk, g: Geometry, chain: seq<nat>): (r: seq<byte>)
    requires InData(g, chain)
    ensures |r| == 512 * Times(|chain|, g.spc)
  {
    Flatten(d, Lbas(g, chain))
  }

  lemma SameChainBytes(d: Disk, d2: Disk, g: Geometry, chain: seq<nat>)
    requires InData(g, chain)
    requires forall c, j :: c in chain && 0 <= j < g.spc ==>
               SectorOf(d2, g, c, j) == SectorOf(d, g, c, j)
    ensures ChainBytes(d2, g, chain) == ChainBytes(d, g, chain)
  {
    forall i | 0 <= i < |Lbas(g, chain)|
      ensures SectorAt(d2, Lbas(g, chain)[i]) == SectorAt(d, Lbas(g, chain)[i])
    {
      LbasMembers(g, chain, Lbas(g, chain)[i]);
      var c, j :| IsSector(g, chain, c, j, Lbas(g, chain)[i]);
      assert SectorOf(d2, g, c, j) == SectorOf(d, g, c, j);
    }
    FlattenSame(d, d2, Lbas(g, chain));
  }

  // ---- Storing data ----

  /** The sector the write loop prepares for the data from offset n on: up to 512 bytes, padded with zeros. */
  function Chunk(data: seq<byte>, n: nat): Sector
    requires n < |data|
  {
    if n + 512 <= |data| then data[n..n + 512] else data[n..] + seq(n + 512 - |data|, _ => 0)
  }

  /** The listed sectors hold the first n bytes of data. */
  ghost predicate Holds(d: Disk, lbas: seq<nat>, data: seq<byte>, n: nat) {
    n <= |data| && n <= 512 * |lbas| && Flatten(d, lbas)[..n] == data[..n]
  }

  function Min(a: nat, b: nat): nat {
    if a <= b then a else b
  }

  /** Writing the next chunk to a sector not yet used extends what is held. */
  lemma HoldsNext(d: Disk, lbas: seq<nat>, l: nat, data: seq<byte>)
    requires l < |d| && l !in lbas && 512 * |lbas| < |data| && Holds(d, lbas, data, 512 * |lbas|)
    ensures Holds(d[l := Chunk(data, 512 * |lbas|)], lbas + [l], data, Min(|data|, 512 * |lbas| + 512))
  {
    var n := 512 * |lbas|;
    var d2 := d[l := Chunk(data, n)];
    forall i | 0 <= i < |lbas|
      ensures SectorAt(d2, lbas[i]) == SectorAt(d, lbas[i])
    {
      assert lbas[i] in lbas;
    }
    FlattenSame(d, d2, lbas);
    assert (lbas + [l])[..|lbas|] == lbas;
    assert Flatten(d, lbas)[..n] == Flatten(d, lbas);
    var m := Min(|data|, n + 512);
    assert data[..m] == data[..n] + data[n..m];
    assert Chunk(data, n)[..m - n] == data[n..m];
    assert (data[..n] + Chunk(data, n))[..m] == data[..n] + Chunk(data, n)[..m - n];
  }

  lemma HoldsLonger(d: Disk, a: seq<nat>, b: seq<nat>, data: seq<byte>, n: nat)
    requires Holds(d, a, data, n)
    ensures Holds(d, a + b, data, n)
  {
    FlattenPrefix(d, a, b);
    assert Flatten(d, a + b)[..n] == Flatten(d, a + b)[..512 * |a|][..n];
  }

  lemma HoldsSame(d: Disk, d2: Disk, lbas: seq<nat>, data: seq<byte>, n: nat)
    requires Holds(d, lbas, data, n)
    requires forall i :: 0 <= i < |lbas| ==> SectorAt(d2, lbas[i]) == SectorAt(d, lbas[i])
    ensures Holds(d2, lbas, data, n)
  {
    FlattenSame(d, d2, lbas);
  }

  /** d2 differs from d at most in the sectors of cluster c. */
  ghost predicate SameOutsideCluster(d: Disk, d2: Disk, g: Geometry, c: nat)
    requires c >= 2
  {
    && |d2| == |d|
    && forall l :: 0 <= l < |d| && !(ClusterLba(g, c) <= l < ClusterLba(g, c) + g.spc) ==> d2[l] == d[l]
  }

  /** The sectors of a chain lie in the data region and, for a cluster outside it, elsewhere. */
  lemma LbasRegion(g: Geometry, n: nat, chain: seq<nat>, l: nat)
    requires LayoutOk(g, n) && InData(g, chain) && l in Lbas(g, chain)
    ensures g.dataStart <= l < n
    ensures forall c, j :: 2 <= c < g.clusters + 2 && c !in chain && 0 <= j < g.spc ==> l != SectorLba(g, c, j)
  {
    LbasMembers(g, chain, l);
    var x, i :| IsSector(g, chain, x, i, l);
    ClusterInside(g, n, x, i);
    forall c, j | 2 <= c < g.clusters + 2 && c !in chain && 0 <= j < g.spc
      ensures l != SectorLba(g, c, j)
    {
      if l == SectorLba(g, c, j) {
        ClusterInjective(g, n, c, j, x, i);
      }
    }
  }

  lemma LbasAppend(g: Geometry, chain: seq<nat>, c: nat)
    requires InData(g, chain) && 2 <= c < g.clusters + 2
    ensures InData(g, chain + [c]) && Lbas(g, chain + [c]) == Lbas(g, chain) + ClusterLbas(g, c, g.spc)
  {
    assert (chain + [c])[..|chain|] == chain;
  }

  /** d is d0 after i sectors of cluster c have been offered the data that follows what chain holds; n bytes are
      stored, and only the sectors of c were touched. */
  ghost predicate Filled(d0: Disk, d: Disk, g: Geometry, chain: seq<nat>, c: nat, i: nat, data: seq<byte>, n: nat)
    requires InData(g, chain) && c >= 2
  {
    && SameOutsideCluster(d0, d, g, c)
    && n == Min(|data|, 512 * (|Lbas(g, chain)| + i))
    && Holds(d, Lbas(g, chain) + ClusterLbas(g, c, i), data, n)
  }

  /** The first n sectors of cluster c, as far as the data from off on reaches, have been replaced by it, the last one
      padded with zeros; the other sectors of the cluster are as they were. */
  ghost predicate ClusterStored(d0: Disk, d: Disk, g: Geometry, c: nat, data: seq<byte>, off: nat, n: nat) {
    forall j :: 0 <= j < g.spc ==>
      SectorOf(d, g, c, j) ==
      if j < n && off + 512 * j < |data| then Chunk(data, off + 512 * j) else SectorOf(d0, g, c, j)
  }

  /** Where the sector loop of a write stands after i sectors of cluster c, n bytes of the data having been written. */
  ghost predicate SectorsWritten(d0: Disk, d: Disk, g: Geometry, chain: seq<nat>, c: nat, i: nat, data: seq<byte>,
                                 off: nat, n: nat)
    requires InData(g, chain) && c >= 2
  {
    && i <= g.spc && n == Min(|data|, off + 512 * i)
    && Filled(d0, d, g, chain, c, i, data, n) && ClusterStored(d0, d, g, c, data, off, i)
  }

  lemma ClusterStoredNext(d0: Disk, d1: Disk, d2: Disk, g: Geometry, c: nat, data: seq<byte>, off: nat, i: nat)
    requires LayoutOk(g, |d1|) && 2 <= c < g.clusters + 2 && i < g.spc && off + 512 * i < |data|
    requires SectorLba(g, c, i) < |d1| && d2 == d1[SectorLba(g, c, i) := Chunk(data, off + 512 * i)]
    requires ClusterStored(d0, d1, g, c, data, off, i)
    ensures ClusterStored(d0, d2, g, c, data, off, i + 1)
  {
    forall j | 0 <= j < g.spc
      ensures SectorOf(d2, g, c, j) == if j == i then Chunk(data, off + 512 * i) else SectorOf(d1, g, c, j)
    {
      ClusterInside(g, |d1|, c, j);
    }
  }

  lemma ClusterStoredDone(d0: Disk, d: Disk, g: Geometry, c: nat, data: seq<byte>, off: nat, i: nat)
    requires ClusterStored(d0, d, g, c, data, off, i) && i <= g.spc && (i == g.spc || off + 512 * i >= |data|)
    ensures ClusterStored(d0, d, g, c, data, off, g.spc)
  {
  }

  lemma FilledStep(d0: Disk, d: Disk, g: Geometry, chain: seq<nat>, c: nat, i: nat, data: seq<byte>, n: nat)
    requires LayoutOk(g, |d|) && InData(g, chain) && 2 <= c < g.clusters + 2 && c !in chain
    requires i < g.spc && n < |data| && Filled(d0, d, g, chain, c, i, data, n)
    ensures SectorLba(g, c, i) < |d|
    ensures Filled(d0, d[SectorLba(g, c, i) := Chunk(data, n)], g, chain, c, i + 1, data, Min(|data|, n + 512))
  {
    var lbas, l := Lbas(g, chain) + ClusterLbas(g, c, i), SectorLba(g, c, i);
    ClusterInside(g, |d|, c, i);
    NotYetUsed(g, |d|, chain, c, i);
    assert |lbas| == |Lbas(g, chain)| + i && n == 512 * |lbas|;
    HoldsNext(d, lbas, l, data);
    ClusterLbasNext(Lbas(g, chain), g, c, i);
  }

  lemma ClusterLbasNext(before: seq<nat>, g: Geometry, c: nat, i: nat)
    requires c >= 2
    ensures before + ClusterLbas(g, c, i) + [SectorLba(g, c, i)] == before + ClusterLbas(g, c, i + 1)
  {
  }

  lemma NotYetUsed(g: Geometry, n: nat, chain: seq<nat>, c: nat, i: nat)
    requires LayoutOk(g, n) && InData(g, chain) && 2 <= c < g.clusters + 2 && c !in chain && i < g.spc
    ensures SectorLba(g, c, i) !in Lbas(g, chain) + ClusterLbas(g, c, i)
  {
    var l := SectorLba(g, c, i);
    if l in Lbas(g, chain) {
      LbasRegion(g, n, chain, l);
    }
  }

  /** After its last sector, or with all the data held, the cluster counts as a whole. */
  lemma WholeCluster(d: Disk, g: Geometry, a: seq<nat>, c: nat, i: nat, data: seq<byte>, n: nat)
    requires c >= 2 && i <= g.spc && Holds(d, a + ClusterLbas(g, c, i), data, n) && (i == g.spc || n == |data|)
    ensures Holds(d, a + ClusterLbas(g, c, g.spc), data, n)
  {
    var part, whole := ClusterLbas(g, c, i), ClusterLbas(g, c, g.spc);
    assert whole == part + whole[i..];
    HoldsLonger(d, a + part, whole[i..], data, n);
    assert a + whole == a + part + whole[i..];
  }

  lemma FilledDone(d0: Disk, d: Disk, g: Geometry, chain: seq<nat>, c: nat, i: nat, data: seq<byte>, n: nat)
    requires InData(g, chain) && 2 <= c < g.clusters + 2 && i <= g.spc && (i == g.spc || n == |data|)
    requires Filled(d0, d, g, chain, c, i, data, n)
    ensures Filled(d0, d, g, chain, c, g.spc, data, n)
  {
    WholeCluster(d, g, Lbas(g, chain), c, i, data, n);
  }

  /** Nothing outside the FATs and the clusters of chain has changed. */
  ghost predicate SameOutsideChain(d0: Disk, d: Disk, g: Geometry, chain: seq<nat>) {
    && |d| == |d0|
    && (forall l :: 0 <= l < |d| && l < g.dataStart && !(g.fatStart <= l < g.rootStart) ==> d[l] == d0[l])
    && (forall c, j :: 2 <= c < g.clusters + 2 && c !in chain && 0 <= j < g.spc ==>
        SectorOf(d, g, c, j) == SectorOf(d0, g, c, j))
  }

  /** n of size bytes are what fits into i clusters. */
  ghost predicate Stored(size: nat, g: Geometry, i: nat, n: nat) {
    n == Min(size, 512 * Times(i, g.spc))
  }

  /** d is d0 in the middle of storing data: n bytes are in the clusters of chain, newly allocated for them. */
  ghost predicate Storing(d0: Disk, d: Disk, g: Geometry, chain: seq<nat>, data: seq<byte>, n: nat)
    requires LayoutOk(g, |d0|)
  {
    && SameOutsideChain(d0, d, g, chain)
    && (Mirrored(d0, g) ==> Mirrored(d, g))
    && Allocated(Fat(d0, g), Fat(d, g), chain)
    && InData(g, chain)
    && Holds(d, Lbas(g, chain), data, n)
    && Stored(|data|, g, |chain|, n)
    && (chain != [] ==> 512 * Times(|chain| - 1, g.spc) < |data|)
  }

  /** The disk after linking free cluster c behind chain. */
  function LinkOnDisk(d: Disk, g: Geometry, chain: seq<nat>, c: nat): (r: Disk)
    requires LayoutOk(g, |d|) && InData(g, chain) && 2 <= c < g.clusters + 2
    ensures |r| == |d|
  {
    SetFat(if chain == [] then d else SetFat(d, g, chain[|chain| - 1], c), g, c, END_OF_CHAIN)
  }

  lemma LinkOnDiskEffect(d: Disk, g: Geometry, chain: seq<nat>, c: nat)
    requires LayoutOk(g, |d|) && InData(g, chain) && 2 <= c < g.clusters + 2
    ensures var d2 := LinkOnDisk(d, g, chain, c);
            && Fat(d2, g) == Linked(Fat(d, g), chain, c)
            && (Mirrored(d, g) ==> Mirrored(d2, g))
            && SameOutsideFat(d, d2, g)
  {
    if chain != [] {
      SetFatEffect(d, g, chain[|chain| - 1], c);
    }
    SetFatEffect(if chain == [] then d else SetFat(d, g, chain[|chain| - 1], c), g, c, END_OF_CHAIN);
  }

  lemma HoldsOutsideFat(d: Disk, d2: Disk, g: Geometry, chain: seq<nat>, data: seq<byte>, n: nat)
    requires LayoutOk(g, |d|) && InData(g, chain) && SameOutsideFat(d, d2, g) && Holds(d, Lbas(g, chain), data, n)
    ensures Holds(d2, Lbas(g, chain), data, n)
  {
    forall i | 0 <= i < |Lbas(g, chain)|
      ensures SectorAt(d2, Lbas(g, chain)[i]) == SectorAt(d, Lbas(g, chain)[i])
    {
      LbasRegion(g, |d|, chain, Lbas(g, chain)[i]);
    }
    HoldsSame(d, d2, Lbas(g, chain), data, n);
  }

  /** Linking a cluster and filling it leaves all other clusters and the regions below the data alone. */
  lemma SameOutsideNext(d0: Disk, d: Disk, d2: Disk, d3: Disk, g: Geometry, chain: seq<nat>, c: nat)
    requires LayoutOk(g, |d0|) && SameOutsideChain(d0, d, g, chain) && SameOutsideFat(d, d2, g)
    requires 2 <= c < g.clusters + 2 && SameOutsideCluster(d2, d3, g, c)
    ensures SameOutsideChain(d0, d3, g, chain + [c])
  {
    forall x, j | 2 <= x < g.clusters + 2 && x !in chain + [c] && 0 <= j < g.spc
      ensures SectorOf(d3, g, x, j) == SectorOf(d0, g, x, j)
    {
      assert x !in chain && x != c;
      ClusterInside(g, |d0|, x, j);
      if ClusterLba(g, c) <= SectorLba(g, x, j) < ClusterLba(g, c) + g.spc {
        ClusterInjective(g, |d0|, c, SectorLba(g, x, j) - ClusterLba(g, c), x, j);
      }
      assert SectorOf(d, g, x, j) == SectorOf(d0, g, x, j);
    }
  }

  /** Filling a cluster does not touch the FATs. */
  lemma FilledKeepsFat(d2: Disk, d3: Disk, g: Geometry, c: nat)
    requires LayoutOk(g, |d2|) && 2 <= c < g.clusters + 2 && SameOutsideCluster(d2, d3, g, c)
    ensures Fat(d3, g) == Fat(d2, g) && (Mirrored(d2, g) ==> Mirrored(d3, g))
  {
    ClusterInside(g, |d2|, c, 0);
    SameFat(d2, d3, g);
  }

  lemma StoringNextFat(d0: Disk, d: Disk, d3: Disk, g: Geometry, chain: seq<nat>, c: nat)
    requires LayoutOk(g, |d0|) && |d| == |d0| && InData(g, chain)
    requires Allocated(Fat(d0, g), Fat(d, g), chain) && IsFirstFree(Fat(d, g), c) && c != 0
    requires SameOutsideCluster(LinkOnDisk(d, g, chain, c), d3, g, c)
    ensures c !in chain && Allocated(Fat(d0, g), Fat(d3, g), chain + [c])
    ensures Mirrored(d, g) ==> Mirrored(d3, g)
  {
    LinkOnDiskEffect(d, g, chain, c);
    AllocateNext(Fat(d0, g), Fat(d, g), chain, c);
    FilledKeepsFat(LinkOnDisk(d, g, chain, c), d3, g, c);
  }

  /** With the next cluster linked in, everything is ready for filling it. */
  lemma StoringLinked(d0: Disk, d: Disk, g: Geometry, chain: seq<nat>, data: seq<byte>, n: nat, c: nat)
    requires LayoutOk(g, |d0|) && Storing(d0, d, g, chain, data, n) && n < |data|
    requires IsFirstFree(Fat(d, g), c) && c != 0
    ensures InData(g, chain) && c !in chain && 2 <= c < g.clusters + 2
    ensures n == 512 * |Lbas(g, chain)| && Holds(LinkOnDisk(d, g, chain, c), Lbas(g, chain), data, n)
  {
    AllocateNext(Fat(d0, g), Fat(d, g), chain, c);
    LinkOnDiskEffect(d, g, chain, c);
    HoldsOutsideFat(d, LinkOnDisk(d, g, chain, c), g, chain, data, n);
  }

  lemma StoringNext(d0: Disk, d: Disk, d3: Disk, g: Geometry, chain: seq<nat>, data: seq<byte>, n: nat, c: nat, n3: nat)
    requires LayoutOk(g, |d0|) && Storing(d0, d, g, chain, data, n) && n < |data|
    requires IsFirstFree(Fat(d, g), c) && c != 0
    requires Filled(LinkOnDisk(d, g, chain, c), d3, g, chain, c, g.spc, data, n3)
    ensures Storing(d0, d3, g, chain + [c], data, n3) && n3 > n
  {
    StoringNextOutside(d0, d, d3, g, chain, c);
    StoringNextFat(d0, d, d3, g, chain, c);
    StoringNextData(LinkOnDisk(d, g, chain, c), d3, g, chain, data, c, n3);
    assert |chain + [c]| - 1 == |chain|;
    StoringNextSize(LinkOnDisk(d, g, chain, c), d3, g, chain, data, c, n, n3);
  }

  lemma StoringNextOutside(d0: Disk, d: Disk, d3: Disk, g: Geometry, chain: seq<nat>, c: nat)
    requires LayoutOk(g, |d0|) && SameOutsideChain(d0, d, g, chain) && InData(g, chain) && 2 <= c < g.clusters + 2
    requires SameOutsideCluster(LinkOnDisk(d, g, chain, c), d3, g, c)
    ensures SameOutsideChain(d0, d3, g, chain + [c])
  {
    LinkOnDiskEffect(d, g, chain, c);
    SameOutsideNext(d0, d, LinkOnDisk(d, g, chain, c), d3, g, chain, c);
  }

  lemma StoringNextData(d2: Disk, d3: Disk, g: Geometry, chain: seq<nat>, data: seq<byte>, c: nat, n3: nat)
    requires InData(g, chain) && 2 <= c < g.clusters + 2 && Filled(d2, d3, g, chain, c, g.spc, data, n3)
    ensures InData(g, chain + [c]) && Holds(d3, Lbas(g, chain + [c]), data, n3)
  {
    LbasAppend(g, chain, c);
  }

  lemma StoringNextSize(d2: Disk, d3: Disk, g: Geometry, chain: seq<nat>, data: seq<byte>, c: nat, n: nat, n3: nat)
    requires InData(g, chain) && 2 <= c < g.clusters + 2 && Filled(d2, d3, g, chain, c, g.spc, data, n3)
    requires g.spc > 0 && n < |data| && Stored(|data|, g, |chain|, n)
    ensures n3 > n && Stored(|data|, g, |chain + [c]|, n3) && 512 * Times(|chain|, g.spc) < |data|
  {
    assert n3 == Min(|data|, 512 * (|Lbas(g, chain)| + g.spc));
    StoringNextCount(g, |data|, |chain|, n, n3);
  }

  lemma StoringNextCount(g: Geometry, size: nat, i: nat, n: nat, n3: nat)
    requires g.spc > 0 && n < size && Stored(size, g, i, n) && n3 == Min(size, 512 * (Times(i, g.spc) + g.spc))
    ensures n3 > n && Stored(size, g, i + 1, n3) && 512 * Times(i, g.spc) < size
  {
    TimesNext(i, g.spc);
  }

  lemma StoringStart(d: Disk, g: Geometry, data: seq<byte>)
    requires LayoutOk(g, |d|)
    ensures Storing(d, d, g, [], data, 0)
  {
  }

  /** Storing everything takes exactly as many clusters as the size asks for; running out of free clusters first
      means that there were too few. */
  lemma StoringExactly(d0: Disk, d: Disk, g: Geometry, chain: seq<nat>, data: seq<byte>, n: nat)
    requires LayoutOk(g, |d0|) && Storing(d0, d, g, chain, data, n)
    ensures n == |data| ==> |chain| == ClustersFor(|data|, g.spc) <= CountFree(Fat(d0, g))
    ensures n < |data| && IsFirstFree(Fat(d, g), 0) ==>
              |chain| == CountFree(Fat(d0, g)) < ClustersFor(|data|, g.spc) && CountFree(Fat(d, g)) == 0
  {
    StoredClusters(|data|, g, |chain|, n);
    if IsFirstFree(Fat(d, g), 0) {
      NoneLeft(Fat(d0, g), Fat(d, g), chain);
    }
  }

  /** All of the data takes exactly the clusters it needs, less takes fewer. */
  lemma StoredClusters(size: nat, g: Geometry, length: nat, n: nat)
    requires g.spc >= 1 && Stored(size, g, length, n) && (length > 0 ==> 512 * Times(length - 1, g.spc) < size)
    ensures if n == size then length == ClustersFor(size, g.spc) else length < ClustersFor(size, g.spc)
  {
    var q := ClustersFor(size, g.spc);
    ClustersForExactly(size, g.spc, length);
    ClustersForExactly(size, g.spc, q);
    if n != size && q < length {
      TimesLess(q, length, g.spc);
    }
  }
}
