/** What the file operations of src/fs/fat16.c do to a well-formed volume, stated on disk values. */
module Fat16Files {
  import opened Bytes
  import opened Fat16Names
  import opened Fat16Chains
  import opened Fat16Volume

  /** No volume holds a larger file: there are fewer than 65525 clusters of at most 128 sectors. */
  const MAX_FILE: nat := 0xFFF4_0000

  /** A directory entry with its start cluster and size replaced; the size field has 32 bits. */
  function WithFile(e: Entry, first: u16, size: nat): Entry {
    PutLe32(PutLe16(e, 26, first), 28, size % TWO_TO_THE_32)
  }

  lemma WithFileFields(e: Entry, first: u16, size: nat)
    ensures var f := WithFile(e, first, size);
            && f[..12] == e[..12] && ClusterLo(f) == first && (size < TWO_TO_THE_32 ==> FileSize(f) == size)
            && Live(f) == Live(e) && IsDirectory(f) == IsDirectory(e) && First(f) == First(e)
  {
    SameHead(e, WithFile(e, first, size));
  }

  /** The slot names a chain that is long enough for its size. */
  ghost predicate Readable(d: Disk, g: Geometry, k: nat, chain: seq<nat>) {
    && LayoutOk(g, |d|) && k < 16 * g.rootSectors
    && IsChain(Fat(d, g), ClusterLo(Dir(d, g)[k]), chain)
    && FileSize(Dir(d, g)[k]) <= 512 * Times(|chain|, g.spc)
  }

  /** The bytes of the file in slot k. */
  function SlotBytes(d: Disk, g: Geometry, k: nat, chain: seq<nat>): seq<byte>
    requires LayoutOk(g, |d|) && k < 16 * g.rootSectors && InData(g, chain)
  {
    Take(ChainBytes(d, g, chain), FileSize(Dir(d, g)[k]))
  }

  lemma ReadableInData(d: Disk, g: Geometry, k: nat, chain: seq<nat>)
    requires Readable(d, g, k, chain)
    ensures InData(g, chain) && |SlotBytes(d, g, k, chain)| == FileSize(Dir(d, g)[k])
  {
  }

  lemma WellFormedReadable(d: Disk, g: Geometry, chains: seq<seq<nat>>, owner: Owners, k: nat)
    requires WellFormed(d, g, chains, owner) && k < |chains|
    requires Live(Dir(d, g)[k]) && !IsDirectory(Dir(d, g)[k])
    ensures Readable(d, g, k, chains[k])
  {
    var size := FileSize(Dir(d, g)[k]);
    assert SlotOk(Fat(d, g), Dir(d, g)[k], chains[k], g.spc);
    ClustersForExactly(size, g.spc, |chains[k]|);
  }

  lemma WellFormedLinks(d: Disk, g: Geometry, chains: seq<seq<nat>>, owner: Owners)
    requires WellFormed(d, g, chains, owner)
    ensures LinksInside(Fat(d, g))
    ensures forall l, i :: 0 <= l < |chains| && 0 <= i < |chains[l]| ==> InTable(Fat(d, g), chains[l][i])
  {
    var fat := Fat(d, g);
    forall c | InTable(fat, c) && Follows(fat[c])
      ensures fat[c] < |fat|
    {
      var p := owner[c];
      assert SlotOk(fat, Dir(d, g)[p.slot], chains[p.slot], g.spc);
      if p.index < |chains[p.slot]| - 1 {
        assert fat[chains[p.slot][p.index]] == chains[p.slot][p.index + 1];
      }
    }
    forall l, i | 0 <= l < |chains| && 0 <= i < |chains[l]|
      ensures InTable(fat, chains[l][i])
    {
      assert SlotOk(fat, Dir(d, g)[l], chains[l], g.spc);
    }
  }

  // ---- Overwriting a file ----

  /** d1 is d0 with the chain of slot k freed, and d2 is d1 with n bytes of data stored in the new chain. */
  ghost predicate Rewriting(d0: Disk, d1: Disk, d2: Disk, g: Geometry, chains: seq<seq<nat>>, owner: Owners, k: nat,
                            given: seq<nat>, data: seq<byte>, n: nat)
  {
    && WellFormed(d0, g, chains, owner) && k < |chains| && Live(Dir(d0, g)[k])
    && WalkFreed(d0, d1, g, ClusterLo(Dir(d0, g)[k]))
    && Storing(d1, d2, g, given, data, n)
  }

  lemma FreedFat(d0: Disk, d1: Disk, g: Geometry, chains: seq<seq<nat>>, owner: Owners, k: nat)
    requires WellFormed(d0, g, chains, owner) && k < |chains| && Live(Dir(d0, g)[k])
    requires WalkFreed(d0, d1, g, ClusterLo(Dir(d0, g)[k]))
    ensures Fat(d1, g) == Freed(Fat(d0, g), chains[k])
    ensures CountFree(Fat(d1, g)) == CountFree(Fat(d0, g)) + |chains[k]|
  {
    var fat, first := Fat(d0, g), ClusterLo(Dir(d0, g)[k]);
    assert SlotOk(fat, Dir(d0, g)[k], chains[k], g.spc);
    WellFormedLinks(d0, g, chains, owner);
    forall x | 0 <= x < |fat|
      ensures Fat(d1, g)[x] == Freed(fat, chains[k])[x]
    {
      ReachedIsChain(fat, first, chains[k], x);
    }
    IndexedDistinct(chains, owner, k);
    CountFreed(fat, chains[k]);
  }

  lemma RewritingReplaces(d0: Disk, d1: Disk, d2: Disk, g: Geometry, chains: seq<seq<nat>>, owner: Owners, k: nat,
                          given: seq<nat>, data: seq<byte>, n: nat)
    requires Rewriting(d0, d1, d2, g, chains, owner, k, given, data, n)
    ensures Replaces(Fat(d0, g), chains[k], given, Fat(d2, g))
  {
    FreedFat(d0, d1, g, chains, owner, k);
  }

  /** Dir and everything outside the FATs and the new chain is as it was. */
  lemma RewritingOutside(d0: Disk, d1: Disk, d2: Disk, g: Geometry, chains: seq<seq<nat>>, owner: Owners, k: nat,
                         given: seq<nat>, data: seq<byte>, n: nat)
    requires Rewriting(d0, d1, d2, g, chains, owner, k, given, data, n)
    ensures |d2| == |d0| && Dir(d2, g) == Dir(d0, g) && Mirrored(d2, g)
    ensures SameOutsideChain(d0, d2, g, given)
  {
    SameDir(d0, d2, g);
    forall c, j | 2 <= c < g.clusters + 2 && c !in given && 0 <= j < g.spc
      ensures SectorOf(d2, g, c, j) == SectorOf(d0, g, c, j)
    {
      ClusterInside(g, |d0|, c, j);
      assert SectorOf(d2, g, c, j) == SectorOf(d1, g, c, j);
    }
  }

  /** The chain of every other slot, and everything stored in it, survives: also when the disk runs full. */
  lemma OthersSurvive(d0: Disk, d1: Disk, d2: Disk, g: Geometry, chains: seq<seq<nat>>, owner: Owners, k: nat,
                      given: seq<nat>, data: seq<byte>, n: nat, l: nat)
    requires Rewriting(d0, d1, d2, g, chains, owner, k, given, data, n) && l < |chains| && l != k
    ensures SlotOk(Fat(d2, g), Dir(d0, g)[l], chains[l], g.spc)
    ensures InData(g, chains[l]) && ChainBytes(d2, g, chains[l]) == ChainBytes(d0, g, chains[l])
  {
    var e := Dir(d0, g)[l];
    assert SlotOk(Fat(d0, g), e, chains[l], g.spc);
    RewritingReplaces(d0, d1, d2, g, chains, owner, k, given, data, n);
    RewritingOutside(d0, d1, d2, g, chains, owner, k, given, data, n);
    if Live(e) {
      OtherChainKept(Fat(d0, g), chains, owner, k, given, Fat(d2, g), l, ClusterLo(e));
    }
    ChainInData(d0, g, chains, owner, l);
    forall c, j | c in chains[l] && 0 <= j < g.spc
      ensures SectorOf(d2, g, c, j) == SectorOf(d0, g, c, j)
    {
      OtherLinksKept(Fat(d0, g), chains, owner, k, given, Fat(d2, g), l, c);
    }
    SameChainBytes(d0, d2, g, chains[l]);
  }

  lemma SetSlotKeepsData(d: Disk, g: Geometry, k: nat, e: Entry, chain: seq<nat>)
    requires LayoutOk(g, |d|) && k < 16 * g.rootSectors && InData(g, chain)
    ensures ChainBytes(SetSlot(d, g, k, e), g, chain) == ChainBytes(d, g, chain)
  {
    forall c, j | c in chain && 0 <= j < g.spc
      ensures SectorOf(SetSlot(d, g, k, e), g, c, j) == SectorOf(d, g, c, j)
    {
      ClusterInside(g, |d|, c, j);
    }
    SameChainBytes(d, SetSlot(d, g, k, e), g, chain);
  }

  lemma {:induction false} TimesBound(n: nat, m: nat)
    requires m <= 128
    ensures Times(n, m) <= 128 * n
  {
    if n > 0 {
      TimesBound(n - 1, m);
    }
  }

  /** Whatever fits on a volume has a size that the 32-bit size field can hold, and that an int does not turn into
      -1. */
  lemma StoredSizeFits(d1: Disk, d2: Disk, g: Geometry, given: seq<nat>, data: seq<byte>, n: nat)
    requires LayoutOk(g, |d1|) && Storing(d1, d2, g, given, data, n) && n == |data|
    ensures |data| <= MAX_FILE
  {
    ZerosBound(Fat(d1, g), g.clusters + 2);
    TimesBound(|given|, g.spc);
  }

  /** The disk after a successful overwrite, with the directory entry updated. */
  function Rewritten(d0: Disk, d2: Disk, g: Geometry, k: nat, given: seq<nat>, size: nat): Disk
    requires LayoutOk(g, |d2|) && LayoutOk(g, |d0|) && k < 16 * g.rootSectors
    requires given != [] ==> given[0] < 0x1_0000
  {
    SetSlot(d2, g, k, WithFile(Dir(d0, g)[k], if given == [] then 0 else given[0], size))
  }

  lemma RewrittenDir(d0: Disk, d1: Disk, d2: Disk, g: Geometry, chains: seq<seq<nat>>, owner: Owners, k: nat,
                     given: seq<nat>, data: seq<byte>)
    requires Rewriting(d0, d1, d2, g, chains, owner, k, given, data, |data|)
    ensures var d3 := Rewritten(d0, d2, g, k, given, |data|);
            && |d3| == |d0|
            && Dir(d3, g) == Dir(d0, g)[k := WithFile(Dir(d0, g)[k], if given == [] then 0 else given[0], |data|)]
            && Fat(d3, g) == Fat(d2, g) && Mirrored(d3, g)
            && (forall m: CString :: Lookup(Dir(d3, g), m) == Lookup(Dir(d0, g), m))
  {
    var e := WithFile(Dir(d0, g)[k], if given == [] then 0 else given[0], |data|);
    RewritingOutside(d0, d1, d2, g, chains, owner, k, given, data, |data|);
    SetSlotEffect(d2, g, k, e);
    WithFileFields(Dir(d0, g)[k], if given == [] then 0 else given[0], |data|);
    forall m: CString
      ensures Lookup(Dir(d0, g)[k := e], m) == Lookup(Dir(d0, g), m)
    {
      FindFromSame(Dir(d0, g), Dir(d0, g)[k := e], m, 0);
    }
  }

  lemma GivenSlotOk(fat: seq<u16>, e: Entry, given: seq<nat>, spc: nat)
    requires spc >= 1 && Live(e) && ClusterLo(e) == (if given == [] then 0 else given[0])
    requires given != [] ==> IsChain(fat, given[0], given)
    requires |given| == ClustersFor(FileSize(e), spc)
    ensures SlotOk(fat, e, given, spc)
  {
  }

  lemma RewrittenSlot(d0: Disk, d1: Disk, d2: Disk, g: Geometry, chains: seq<seq<nat>>, owner: Owners, k: nat,
                      given: seq<nat>, data: seq<byte>)
    requires Rewriting(d0, d1, d2, g, chains, owner, k, given, data, |data|)
    ensures SlotOk(Fat(d2, g), WithFile(Dir(d0, g)[k], if given == [] then 0 else given[0], |data|), given, g.spc)
    ensures |data| < TWO_TO_THE_32
  {
    var e, first := Dir(d0, g)[k], if given == [] then 0 else given[0];
    StoredSizeFits(d1, d2, g, given, data, |data|);
    StoringExactly(d1, d2, g, given, data, |data|);
    WithFileFields(e, first, |data|);
    GivenSlotOk(Fat(d2, g), WithFile(e, first, |data|), given, g.spc);
  }

  lemma RewrittenPartition(d0: Disk, d1: Disk, d2: Disk, g: Geometry, chains: seq<seq<nat>>, owner: Owners, k: nat,
                           given: seq<nat>, data: seq<byte>, n: nat)
    requires Rewriting(d0, d1, d2, g, chains, owner, k, given, data, n)
    ensures Partition(Fat(d2, g), chains[k := given], Reassign(owner, k, given))
  {
    RewritingReplaces(d0, d1, d2, g, chains, owner, k, given, data, n);
    WellFormedLinks(d0, g, chains, owner);
    Repartition(Fat(d0, g), chains, owner, k, given, Fat(d2, g));
  }

  /** A successful write keeps the volume well-formed. */
  lemma RewrittenWellFormed(d0: Disk, d1: Disk, d2: Disk, g: Geometry, chains: seq<seq<nat>>, owner: Owners, k: nat,
                            given: seq<nat>, data: seq<byte>)
    requires Rewriting(d0, d1, d2, g, chains, owner, k, given, data, |data|)
    ensures WellFormed(Rewritten(d0, d2, g, k, given, |data|), g, chains[k := given], Reassign(owner, k, given))
  {
    var d3 := Rewritten(d0, d2, g, k, given, |data|);
    RewrittenDir(d0, d1, d2, g, chains, owner, k, given, data);
    RewrittenPartition(d0, d1, d2, g, chains, owner, k, given, data, |data|);
    var fat, dir, chains2 := Fat(d3, g), Dir(d3, g), chains[k := given];
    assert Terminated(Dir(d3, g)) by {
      WithFileFields(Dir(d0, g)[k], if given == [] then 0 else given[0], |data|);
    }
    forall l | 0 <= l < |chains|
      ensures SlotOk(fat, dir[l], chains2[l], g.spc)
    {
      if l == k {
        RewrittenSlot(d0, d1, d2, g, chains, owner, k, given, data);
      } else {
        OthersSurvive(d0, d1, d2, g, chains, owner, k, given, data, |data|, l);
      }
    }
  }

  lemma StoringBytes(d1: Disk, d2: Disk, g: Geometry, given: seq<nat>, data: seq<byte>)
    requires LayoutOk(g, |d1|) && Storing(d1, d2, g, given, data, |data|)
    ensures Take(ChainBytes(d2, g, given), |data|) == data
  {
    assert data[..|data|] == data;
  }

  /** After a successful write the slot holds exactly the data. */
  lemma RewrittenContents(d0: Disk, d1: Disk, d2: Disk, g: Geometry, chains: seq<seq<nat>>, owner: Owners, k: nat,
                          given: seq<nat>, data: seq<byte>)
    requires Rewriting(d0, d1, d2, g, chains, owner, k, given, data, |data|)
    ensures SlotBytes(Rewritten(d0, d2, g, k, given, |data|), g, k, given) == data
  {
    var e, first := Dir(d0, g)[k], if given == [] then 0 else given[0];
    assert FileSize(WithFile(e, first, |data|)) == |data| by {
      RewrittenSlot(d0, d1, d2, g, chains, owner, k, given, data);
      WithFileFields(e, first, |data|);
    }
    StoringBytes(d1, d2, g, given, data);
    RewrittenDir(d0, d1, d2, g, chains, owner, k, given, data);
    SetSlotKeepsData(d2, g, k, WithFile(e, first, |data|), given);
  }

  /** Every other slot holds what it held. */
  lemma RewrittenOthers(d0: Disk, d1: Disk, d2: Disk, g: Geometry, chains: seq<seq<nat>>, owner: Owners, k: nat,
                        given: seq<nat>, data: seq<byte>, l: nat)
    requires Rewriting(d0, d1, d2, g, chains, owner, k, given, data, |data|) && l < |chains| && l != k
    ensures InData(g, chains[l])
    ensures SlotBytes(Rewritten(d0, d2, g, k, given, |data|), g, l, chains[l]) == SlotBytes(d0, g, l, chains[l])
  {
    var first := if given == [] then 0 else given[0];
    RewrittenDir(d0, d1, d2, g, chains, owner, k, given, data);
    OthersSurvive(d0, d1, d2, g, chains, owner, k, given, data, |data|, l);
    SetSlotKeepsData(d2, g, k, WithFile(Dir(d0, g)[k], first, |data|), chains[l]);
  }

  // ---- A write that runs out of space ----

  /** The first cluster given out was the lowest free one. */
  lemma FirstGiven(fat1: seq<u16>, fat2: seq<u16>, given: seq<nat>)
    requires Allocated(fat1, fat2, given) && given != []
    ensures IsFirstFree(fat1, given[0])
  {
    forall x | 2 <= x < given[0]
      ensures fat1[x] != FREE
    {
      assert x !in given;
      assert given[0] <= given[|given| - 1];
    }
  }

  /** Which volumes survive a write that fills the disk: the file was empty and nothing was free, or its chain started
      at the lowest of the clusters then free and (unless the slot is a directory) none was free before. */
  predicate SurvivesFullDisk(fat: seq<u16>, e: Entry, chain: seq<nat>) {
    if chain == [] then CountFree(fat) == 0
    else IsFirstFree(Freed(fat, chain), chain[0]) && (IsDirectory(e) || CountFree(fat) == 0)
  }

  lemma FullDiskSurvives(d0: Disk, d1: Disk, d2: Disk, g: Geometry, chains: seq<seq<nat>>, owner: Owners, k: nat,
                         given: seq<nat>, data: seq<byte>, n: nat)
    requires Rewriting(d0, d1, d2, g, chains, owner, k, given, data, n) && n < |data| && IsFirstFree(Fat(d2, g), 0)
    requires SurvivesFullDisk(Fat(d0, g), Dir(d0, g)[k], chains[k])
    ensures WellFormed(d2, g, chains[k := given], Reassign(owner, k, given))
  {
    var e := Dir(d0, g)[k];
    FreedFat(d0, d1, g, chains, owner, k);
    StoringExactly(d1, d2, g, given, data, n);
    RewritingOutside(d0, d1, d2, g, chains, owner, k, given, data, n);
    RewrittenPartition(d0, d1, d2, g, chains, owner, k, given, data, n);
    forall l | 0 <= l < |chains|
      ensures SlotOk(Fat(d2, g), Dir(d2, g)[l], chains[k := given][l], g.spc)
    {
      if l == k {
        assert SlotOk(Fat(d0, g), e, chains[k], g.spc);
        if given != [] {
          FirstGiven(Fat(d1, g), Fat(d2, g), given);
        }
      } else {
        OthersSurvive(d0, d1, d2, g, chains, owner, k, given, data, n, l);
      }
    }
  }

  /** Any chains that make the full volume well-formed give every cluster handed out to slot k. */
  lemma GivenGoesToSlot(d0: Disk, d1: Disk, d2: Disk, g: Geometry, chains: seq<seq<nat>>, owner: Owners, k: nat,
                        given: seq<nat>, data: seq<byte>, n: nat, chains2: seq<seq<nat>>, owner2: Owners, x: nat)
    requires Rewriting(d0, d1, d2, g, chains, owner, k, given, data, n)
    requires WellFormed(d2, g, chains2, owner2) && Dir(d2, g) == Dir(d0, g) && x in given
    ensures x in chains2[k]
  {
    assert InTable(Fat(d2, g), x) && x in owner2;
    var l := owner2[x].slot;
    if l != k {
      OthersSurvive(d0, d1, d2, g, chains, owner, k, given, data, n, l);
      assert SlotOk(Fat(d2, g), Dir(d0, g)[l], chains2[l], g.spc);
      if Live(Dir(d0, g)[l]) {
        ChainUnique(Fat(d2, g), ClusterLo(Dir(d0, g)[l]), chains[l], chains2[l]);
      }
      RewritingReplaces(d0, d1, d2, g, chains, owner, k, given, data, n);
      OtherLinksKept(Fat(d0, g), chains, owner, k, given, Fat(d2, g), l, x);
    }
  }

  lemma ChainSuffix(fat: seq<u16>, chain: seq<nat>, p: nat)
    requires p < |chain| && IsChain(fat, chain[0], chain)
    ensures IsChain(fat, chain[p], chain[p..])
  {
  }

  lemma FullDiskNeeds(d0: Disk, d1: Disk, d2: Disk, g: Geometry, chains: seq<seq<nat>>, owner: Owners, k: nat,
                      given: seq<nat>, data: seq<byte>, n: nat, chains2: seq<seq<nat>>, owner2: Owners)
    requires Rewriting(d0, d1, d2, g, chains, owner, k, given, data, n) && n < |data| && IsFirstFree(Fat(d2, g), 0)
    requires WellFormed(d2, g, chains2, owner2) && Dir(d2, g) == Dir(d0, g)
    ensures SurvivesFullDisk(Fat(d0, g), Dir(d0, g)[k], chains[k])
  {
    var e, c := Dir(d0, g)[k], chains2[k];
    assert SlotOk(Fat(d0, g), e, chains[k], g.spc) && SlotOk(Fat(d2, g), e, c, g.spc);
    FreedFat(d0, d1, g, chains, owner, k);
    StoringExactly(d1, d2, g, given, data, n);
    if given != [] {
      GivenGoesToSlot(d0, d1, d2, g, chains, owner, k, given, data, n, chains2, owner2, given[0]);
      FirstGiven(Fat(d1, g), Fat(d2, g), given);
    }
    if chains[k] != [] {
      var first := chains[k][0];
      assert Fat(d1, g)[first] == FREE;
      assert first in given;
      var p :| 0 <= p < |given| && given[p] == first;
      ChainSuffix(Fat(d2, g), given, p);
      ChainUnique(Fat(d2, g), first, c, given[p..]);
      var i :| 0 <= i < |c| && c[i] == given[0];
      assert given[p + i] == given[0];
      assert p == 0;
    }
  }

  /** A write that runs out of space leaves a well-formed volume exactly when SurvivesFullDisk says so; otherwise the
      directory still names a chain that has been freed and handed out again. */
  lemma FullDiskExactly(d0: Disk, d1: Disk, d2: Disk, g: Geometry, chains: seq<seq<nat>>, owner: Owners, k: nat,
                        given: seq<nat>, data: seq<byte>, n: nat)
    requires Rewriting(d0, d1, d2, g, chains, owner, k, given, data, n) && n < |data| && IsFirstFree(Fat(d2, g), 0)
    ensures (exists chains2, owner2 :: WellFormed(d2, g, chains2, owner2)) <==>
            SurvivesFullDisk(Fat(d0, g), Dir(d0, g)[k], chains[k])
  {
    if SurvivesFullDisk(Fat(d0, g), Dir(d0, g)[k], chains[k]) {
      FullDiskSurvives(d0, d1, d2, g, chains, owner, k, given, data, n);
    }
    if exists chains2, owner2 :: WellFormed(d2, g, chains2, owner2) {
      var chains2, owner2 :| WellFormed(d2, g, chains2, owner2);
      RewritingOutside(d0, d1, d2, g, chains, owner, k, given, data, n);
      FullDiskNeeds(d0, d1, d2, g, chains, owner, k, given, data, n, chains2, owner2);
    }
  }

  // ---- Creating a file ----

  /** The entry fat16_create_file writes. */
  function NewEntry(name: CString): Entry {
    To83(name) + [0x20] + seq(20, _ => 0)
  }

  /** The 32 bytes of a new entry: the name, the archive attribute, no cluster, no size. */
  lemma NewEntryBytes(name: CString, i: nat)
    requires i < 32
    ensures NewEntry(name)[i] == if i < 11 then To83(name)[i] else if i == 11 then 0x20 else 0
  {
  }

  /** The bytes of the two halves of a 32-bit number. */
  lemma FourBytes(n: u32)
    ensures var low, high := n % 0x1_0000, n / 0x1_0000;
            && low % 0x100 == n % 0x100 && low / 0x100 == n / 0x100 % 0x100
            && high % 0x100 == n / 0x1_0000 % 0x100 && high / 0x100 == n / 0x100_0000
  {
  }

  /** The bytes that an overwrite changes: the cluster at 26 and the size at 28, the least significant byte first. */
  lemma WithFileBytes(e: Entry, first: u16, size: u32, i: nat)
    requires i < 32
    ensures WithFile(e, first, size)[i] ==
            if i == 26 then first % 0x100 else if i == 27 then first / 0x100
            else if i == 28 then size % 0x100 else if i == 29 then size / 0x100 % 0x100
            else if i == 30 then size / 0x1_0000 % 0x100 else if i == 31 then size / 0x100_0000 else e[i]
  {
    FourBytes(size);
  }

  /** An entry that a scan takes: not the end mark, not deleted, no part of a long name, no volume label. */
  lemma LiveBytes(e: Entry)
    ensures Live(e) <==> e[0] != 0 && e[0] != 0xE5 && e[11] != 0x0F && e[11] / 8 % 2 == 0
    ensures IsDirectory(e) <==> e[11] / 16 % 2 == 1
    ensures IsUnused(e) <==> e[0] == 0 || e[0] == 0xE5
    ensures ClusterLo(e) == e[26] as int + 0x100 * e[27] as int
    ensures FileSize(e) == e[28] as int + 0x100 * e[29] as int + 0x1_0000 * e[30] as int + 0x100_0000 * e[31] as int
  {
  }

  predicate IsUnused(e: Entry) {
    First(e) == 0 || First(e) == 0xE5
  }

  /** None of the first n slots is unused. */
  ghost predicate NoneUnused(dir: seq<Entry>, n: nat) {
    n <= |dir| && forall j :: 0 <= j < n ==> !IsUnused(dir[j])
  }

  ghost predicate IsFirstUnused(dir: seq<Entry>, k: nat) {
    k < |dir| && IsUnused(dir[k]) && NoneUnused(dir, k)
  }

  /** Names that fat16_find_file will find again: within the 8.3 limits, and not starting with the deletion mark. */
  predicate Findable(name: CString) {
    Fits83(name) && (name != [] ==> name[0] != 0xE5)
  }

  lemma NewEntryFields(name: CString)
    ensures var e := NewEntry(name);
            && EntryText(e) == EntryText(To83(name))
            && ClusterLo(e) == 0 && FileSize(e) == 0 && First(e) != 0 && !IsDirectory(e)
            && (Live(e) <==> name == [] || name[0] != 0xE5)
  {
    var e := NewEntry(name);
    assert e[..8] == To83(name)[..8] && e[8..11] == To83(name)[8..11];
    assert Attr(e) == 0x20;
    var n := IndexOf(name, DOT, 0);
    assert First(e) == if n > 0 then Up(name[0]) else SPACE;
  }

  lemma {:induction false} FindBeyond(dir: seq<Entry>, k: nat, e: Entry, name: CString, from: nat)
    requires k < from <= |dir|
    ensures FindFrom(dir[k := e], name, from) == FindFrom(dir, name, from)
    decreases |dir| - from
  {
    if from < |dir| {
      FindBeyond(dir, k, e, name, from + 1);
    }
  }

  /** The new slot is found under exactly the names it matches, unless an earlier slot is; no other lookup changes. */
  lemma {:induction false} FindAfterCreate(dir: seq<Entry>, k: nat, e: Entry, name: CString, from: nat)
    requires Terminated(dir) && IsFirstUnused(dir, k) && First(e) != 0 && from <= k
    ensures var was := FindFrom(dir, name, from);
            FindFrom(dir[k := e], name, from) ==
            if Live(e) && Matches(e, name) && (was == None || k < was.value) then Some(k) else was
    decreases k - from
  {
    if from < k {
      FindAfterCreate(dir, k, e, name, from + 1);
    } else {
      FindBeyond(dir, k, e, name, k + 1);
      if First(dir[k]) == 0 {
        FindFromNone(dir, name, k + 1);
      }
    }
  }

  /** After a create, the name is found exactly if it is Findable, and a name within the 8.3 limits leaves every lookup
      of a different name unchanged. */
  lemma CreateLookups(dir: seq<Entry>, k: nat, name: CString, other: CString)
    requires Terminated(dir) && IsFirstUnused(dir, k) && Lookup(dir, name) == None
    ensures var dir2 := dir[k := NewEntry(name)];
            && Lookup(dir2, name) == (if Findable(name) then Some(k) else None)
            && (Fits83(name) && Upper(other) != Upper(name) ==> Lookup(dir2, other) == Lookup(dir, other))
  {
    NewEntryFields(name);
    FindAfterCreate(dir, k, NewEntry(name), name, 0);
    FindAfterCreate(dir, k, NewEntry(name), other, 0);
    ShortNamesExactly(name, name);
    ShortNamesExactly(name, other);
  }

  /** No two live slots carry the same name. */
  ghost predicate UniqueNames(dir: seq<Entry>) {
    forall i, j :: 0 <= i < j < |dir| && Live(dir[i]) && Live(dir[j]) ==>
      Upper(EntryText(dir[i])) != Upper(EntryText(dir[j]))
  }

  /** Names stay unique exactly when the text actually stored is not yet in the directory; a name within the 8.3
      limits that was looked up first always satisfies this. */
  lemma CreateUnique(dir: seq<Entry>, k: nat, name: CString)
    requires Terminated(dir) && IsFirstUnused(dir, k) && UniqueNames(dir)
    ensures UniqueNames(dir[k := NewEntry(name)]) <==>
            !Live(NewEntry(name)) || Lookup(dir, EntryText(To83(name))) == None
    ensures Fits83(name) && Lookup(dir, name) == None ==> UniqueNames(dir[k := NewEntry(name)])
  {
    var e, text := NewEntry(name), EntryText(To83(name));
    var dir2 := dir[k := e];
    NewEntryFields(name);
    FindFromNone(dir, text, 0);
    FindFromNone(dir, name, 0);
    if Fits83(name) {
      FittingNameIsKept(name);
      UpperFacts(name);
    }
    if Live(e) && Lookup(dir, text).Some? {
      var j := Lookup(dir, text).value;
      assert Live(dir2[j]) && Upper(EntryText(dir2[j])) == Upper(EntryText(dir2[k]));
    }
  }

  lemma CreateTerminated(dir: seq<Entry>, k: nat, e: Entry)
    requires Terminated(dir) && IsFirstUnused(dir, k) && First(e) != 0
    ensures Terminated(dir[k := e])
  {
  }

  /** Creating a file keeps the volume well-formed and every slot's contents. */
  lemma CreateWellFormed(d: Disk, g: Geometry, chains: seq<seq<nat>>, owner: Owners, k: nat, name: CString)
    requires WellFormed(d, g, chains, owner) && IsFirstUnused(Dir(d, g), k)
    ensures WellFormed(SetSlot(d, g, k, NewEntry(name)), g, chains, owner)
    ensures chains[k] == []
    ensures forall l :: 0 <= l < |chains| ==>
              (InData(g, chains[l]) &&
               ChainBytes(SetSlot(d, g, k, NewEntry(name)), g, chains[l]) == ChainBytes(d, g, chains[l]))
  {
    var e := NewEntry(name);
    NewEntryFields(name);
    SetSlotEffect(d, g, k, e);
    CreateTerminated(Dir(d, g), k, e);
    assert SlotOk(Fat(d, g), Dir(d, g)[k], chains[k], g.spc);
    ClustersForExactly(0, g.spc, 0);
    forall l | 0 <= l < |chains|
      ensures SlotOk(Fat(d, g), Dir(d, g)[k := e][l], chains[l], g.spc)
    {
      assert SlotOk(Fat(d, g), Dir(d, g)[l], chains[l], g.spc);
    }
    forall l | 0 <= l < |chains|
      ensures InData(g, chains[l])
      ensures ChainBytes(SetSlot(d, g, k, e), g, chains[l]) == ChainBytes(d, g, chains[l])
    {
      ChainInData(d, g, chains, owner, l);
      SetSlotKeepsData(d, g, k, e, chains[l]);
    }
  }

  // ---- The volume as a map from names to contents ----

  /** What fat16_read_file finds under a name: nothing if there is no such file or it is a directory. */
  function FileAt(d: Disk, g: Geometry, chains: seq<seq<nat>>, name: CString): Option<seq<byte>>
    requires LayoutOk(g, |d|) && |chains| == 16 * g.rootSectors
  {
    match Lookup(Dir(d, g), name)
    case None => None
    case Some(k) =>
      if IsDirectory(Dir(d, g)[k]) || !InData(g, chains[k]) then None
      else Some(SlotBytes(d, g, k, chains[k]))
  }

  /** A successful write replaces the contents found under the names of the slot written, and no other contents. */
  lemma RewrittenFiles(d0: Disk, d1: Disk, d2: Disk, g: Geometry, chains: seq<seq<nat>>, owner: Owners, k: nat,
                       given: seq<nat>, data: seq<byte>, name: CString)
    requires Rewriting(d0, d1, d2, g, chains, owner, k, given, data, |data|)
    ensures FileAt(Rewritten(d0, d2, g, k, given, |data|), g, chains[k := given], name) ==
            if Lookup(Dir(d0, g), name) == Some(k) && !IsDirectory(Dir(d0, g)[k]) then Some(data)
            else FileAt(d0, g, chains, name)
  {
    RewrittenDir(d0, d1, d2, g, chains, owner, k, given, data);
    var r := Lookup(Dir(d0, g), name);
    if r == Some(k) {
      WithFileFields(Dir(d0, g)[k], if given == [] then 0 else given[0], |data|);
      RewrittenContents(d0, d1, d2, g, chains, owner, k, given, data);
    } else if r.Some? {
      RewrittenOthers(d0, d1, d2, g, chains, owner, k, given, data, r.value);
    }
  }

  /** When the disk runs full, the contents found under the names of all other slots are still there. */
  lemma FullDiskFiles(d0: Disk, d1: Disk, d2: Disk, g: Geometry, chains: seq<seq<nat>>, owner: Owners, k: nat,
                      given: seq<nat>, data: seq<byte>, n: nat, name: CString)
    requires Rewriting(d0, d1, d2, g, chains, owner, k, given, data, n)
    requires Lookup(Dir(d0, g), name) != Some(k)
    ensures |d2| == |d0| && FileAt(d2, g, chains, name) == FileAt(d0, g, chains, name)
    ensures Dir(d2, g) == Dir(d0, g)
    ensures FileAt(d2, g, chains, name).Some? ==>
              Readable(d2, g, Lookup(Dir(d2, g), name).value, chains[Lookup(Dir(d2, g), name).value])
  {
    RewritingOutside(d0, d1, d2, g, chains, owner, k, given, data, n);
    var r := Lookup(Dir(d0, g), name);
    if r.Some? {
      OthersSurvive(d0, d1, d2, g, chains, owner, k, given, data, n, r.value);
      ClustersForExactly(FileSize(Dir(d0, g)[r.value]), g.spc, |chains[r.value]|);
    }
  }

  /** After a create, an empty file is found under exactly the names the new entry answers to. */
  lemma CreateFiles(d: Disk, g: Geometry, chains: seq<seq<nat>>, owner: Owners, k: nat, name: CString, other: CString)
    requires WellFormed(d, g, chains, owner) && IsFirstUnused(Dir(d, g), k)
    ensures var d2 := SetSlot(d, g, k, NewEntry(name));
            var was := Lookup(Dir(d, g), other);
            FileAt(d2, g, chains, other) ==
            if Live(NewEntry(name)) && Matches(NewEntry(name), other) && (was == None || k < was.value) then Some([])
            else FileAt(d, g, chains, other)
  {
    var dir, e := Dir(d, g), NewEntry(name);
    CreateWellFormed(d, g, chains, owner, k, name);
    NewEntryFields(name);
    assert Dir(SetSlot(d, g, k, e), g) == dir[k := e] by {
      SetSlotEffect(d, g, k, e);
    }
    FindAfterCreate(dir, k, e, other, 0);
  }

  // ---- Reading ----

  /** The first n bytes of buf are the first n bytes of the listed sectors; the next one read from sector l extends
      this. */
  lemma ReadNext(d: Disk, lbas: seq<nat>, l: nat, buf: seq<byte>, buf2: seq<byte>, m: nat)
    requires Holds(d, lbas, buf, 512 * |lbas|) && |buf2| == |buf| && m == Min(|buf|, 512 * |lbas| + 512)
    requires buf2[..512 * |lbas|] == buf[..512 * |lbas|]
    requires buf2[512 * |lbas|..m] == SectorAt(d, l)[..m - 512 * |lbas|]
    ensures Holds(d, lbas + [l], buf2, m)
  {
    var n := 512 * |lbas|;
    assert (lbas + [l])[..|lbas|] == lbas;
    assert Flatten(d, lbas)[..n] == Flatten(d, lbas);
    assert buf2[..m] == buf2[..n] + buf2[n..m];
    assert Flatten(d, lbas + [l])[..m] == Flatten(d, lbas) + SectorAt(d, l)[..m - n];
  }

  lemma {:induction false} LbasPrefix(g: Geometry, chain: seq<nat>, n: nat)
    requires InData(g, chain) && n <= |chain|
    ensures InData(g, chain[..n]) && |Lbas(g, chain[..n])| <= |Lbas(g, chain)|
    ensures Lbas(g, chain) == Lbas(g, chain[..n]) + Lbas(g, chain)[|Lbas(g, chain[..n])|..]
  {
    if n == |chain| {
      assert chain[..n] == chain;
    } else {
      var m := |chain| - 1;
      assert chain[..m][..n] == chain[..n];
      LbasPrefix(g, chain[..m], n);
    }
  }

  /** The state of the read loop: the clusters before ci have been copied, and the walk is at the ci-th. */
  ghost predicate Reading(d: Disk, g: Geometry, chain: seq<nat>, ci: nat, cluster: int, buf: seq<byte>, n: nat) {
    && InData(g, chain) && ci <= |chain|
    && (if ci < |chain| then cluster == chain[ci] else !Follows(cluster))
    && Holds(d, Lbas(g, chain[..ci]), buf, n)
    && n == Min(|buf|, 512 * Times(ci, g.spc))
  }

  /** The state of its inner loop, i sectors into cluster ci. */
  ghost predicate ReadingIn(d: Disk, g: Geometry, chain: seq<nat>, ci: nat, i: nat, buf: seq<byte>, n: nat) {
    && InData(g, chain) && ci < |chain| && i <= g.spc
    && Holds(d, Lbas(g, chain[..ci]) + ClusterLbas(g, chain[ci], i), buf, n)
    && n == Min(|buf|, 512 * (Times(ci, g.spc) + i))
  }

  lemma ReadingEnter(d: Disk, g: Geometry, chain: seq<nat>, ci: nat, cluster: int, buf: seq<byte>, n: nat)
    requires Reading(d, g, chain, ci, cluster, buf, n) && ci < |chain|
    ensures ReadingIn(d, g, chain, ci, 0, buf, n)
  {
    assert Lbas(g, chain[..ci]) + ClusterLbas(g, chain[ci], 0) == Lbas(g, chain[..ci]);
  }

  lemma ReadingStep(d: Disk, g: Geometry, chain: seq<nat>, ci: nat, i: nat, buf: seq<byte>, n: nat, buf2: seq<byte>,
                    m: nat)
    requires LayoutOk(g, |d|) && ReadingIn(d, g, chain, ci, i, buf, n) && n < |buf| && i < g.spc
    requires |buf2| == |buf| && m == Min(|buf|, n + 512) && buf2[..n] == buf[..n]
    requires buf2[n..m] == SectorAt(d, SectorLba(g, chain[ci], i))[..m - n]
    ensures ReadingIn(d, g, chain, ci, i + 1, buf2, m)
  {
    var lbas := Lbas(g, chain[..ci]) + ClusterLbas(g, chain[ci], i);
    assert n == 512 * |lbas|;
    ReadNext(d, lbas, SectorLba(g, chain[ci], i), buf, buf2, m);
    assert lbas + [SectorLba(g, chain[ci], i)] == Lbas(g, chain[..ci]) + ClusterLbas(g, chain[ci], i + 1);
  }

  lemma ReadingLeave(d: Disk, g: Geometry, chain: seq<nat>, ci: nat, i: nat, buf: seq<byte>, n: nat, first: int,
                     next: int)
    requires LayoutOk(g, |d|) && IsChain(Fat(d, g), first, chain)
    requires ReadingIn(d, g, chain, ci, i, buf, n) && (i == g.spc || n == |buf|)
    requires next == Fat(d, g)[chain[ci]]
    ensures Reading(d, g, chain, ci + 1, next, buf, n)
  {
    var done := chain[..ci];
    WholeCluster(d, g, Lbas(g, done), chain[ci], i, buf, n);
    LbasAppend(g, done, chain[ci]);
    assert chain[..ci + 1] == done + [chain[ci]];
    TimesNext(ci, g.spc);
  }

  /** When the loop stops, the whole of a readable file of size |buf| or more has been copied into buf. */
  lemma ReadingDone(d: Disk, g: Geometry, k: nat, chain: seq<nat>, ci: nat, cluster: int, buf: seq<byte>, n: nat)
    requires Readable(d, g, k, chain) && |buf| <= FileSize(Dir(d, g)[k])
    requires Reading(d, g, chain, ci, cluster, buf, n) && (n == |buf| || !Follows(cluster))
    ensures n == |buf| <= |SlotBytes(d, g, k, chain)| && buf == SlotBytes(d, g, k, chain)[..n]
  {
    assert ci < |chain| ==> Follows(chain[ci]);
    ReadableInData(d, g, k, chain);
    assert n == |buf|;
    LbasPrefix(g, chain, ci);
    var first, all := Lbas(g, chain[..ci]), Lbas(g, chain);
    HoldsLonger(d, first, all[|first|..], buf, n);
    assert buf[..n] == buf;
  }
}
