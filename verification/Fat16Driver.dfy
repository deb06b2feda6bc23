/** The FAT16 driver of src/fs/fat16.c: one scratch sector buffer, a one-sector FAT cache, and loops over the disk. */
module Fat16Driver {
  import opened Bytes
  import opened Fat16Names
  import opened Fat16Chains
  import opened Fat16Volume
  import opened Fat16Files
  import opened Fat16Format

  /** The initial value of fat_cache_sector: no sector is cached. */
  const NO_SECTOR: nat := 0xFFFF_FFFF

  /** What x86-64 C makes of a size_t returned as an int. */
  function ToInt32(n: nat): (r: int)
    ensures n < 0x8000_0000 ==> r == n
    ensures 0x8000_0000 <= n < TWO_TO_THE_32 ==> r == n - TWO_TO_THE_32
  {
    var w := n % 0x1_0000_0000;
    if w < 0x8000_0000 then w else w - 0x1_0000_0000
  }

  /** The FAT sector and word the C code computes from a byte offset. */
  lemma EntryAddress(c: nat)
    ensures c * 2 / 512 == c / 256 && c * 2 % 512 / 2 == c % 256
  {
  }

  /** The multiplications of the C code. */
  method Product(i: nat, m: nat) returns (r: nat)
    ensures r == Times(i, m)
  {
    TimesIsProduct(i, m);
    r := i * m;
  }

  datatype MountOutcome = Mounted | Rejected | DivideError

  class Fat16 {
    const present: bool
    var disk: Disk
    var mounted: bool
    var fs: Geometry
    const sectorBuffer: array<byte>
    const fatCache: array<byte>
    var cacheSector: nat

    /** The chain of every directory slot, and the place of every cluster in use. */
    ghost var chains: seq<seq<nat>>
    ghost var owner: Owners

    /** Sectors are numbered with 28 bits, and the number of reserved sectors has 16. */
    ghost predicate Buffers()
      reads this
    {
      && sectorBuffer.Length == 512 && fatCache.Length == 512 && sectorBuffer != fatCache
      && |disk| <= 0x1000_0000 && fs.fatStart < 0x1_0000
    }

    /** The cache, when it holds a sector, holds what is on the disk. */
    ghost predicate Valid()
      reads this, fatCache
    {
      && Buffers()
      && (cacheSector == NO_SECTOR || (cacheSector < |disk| && fatCache[..] == disk[cacheSector]))
    }

    /** A mounted volume whose regions lie where the geometry says; the cache can only hold a FAT sector. */
    ghost predicate Ready()
      reads this, fatCache
    {
      && Valid() && mounted && LayoutOk(fs, |disk|)
      && (cacheSector == NO_SECTOR || fs.fatStart <= cacheSector < fs.rootStart)
    }

    /** Unmounted, or mounted with a well-formed volume. */
    ghost predicate Sound()
      reads this, fatCache
    {
      Valid() && (mounted ==> Ready() && WellFormed(disk, fs, chains, owner))
    }

    /** What reading a file by this name must deliver. */
    ghost function FileOf(name: CString): Option<seq<byte>>
      requires LayoutOk(fs, |disk|) && |chains| == 16 * fs.rootSectors
      reads this
    {
      FileAt(disk, fs, chains, name)
    }

    // ---- Sector I/O: the drive accepts exactly the sectors it has ----

    method ReadSector(lba: nat, buffer: array<byte>) returns (ok: bool)
      requires buffer.Length == 512
      modifies buffer
      ensures ok == (lba < |disk|)
      ensures buffer[..] == if ok then disk[lba] else old(buffer[..])
    {
      ok := lba < |disk|;
      if ok {
        forall i | 0 <= i < 512 {
          buffer[i] := disk[lba][i];
        }
      }
    }

    method WriteSector(lba: nat, buffer: array<byte>) returns (ok: bool)
      requires buffer.Length == 512
      modifies this`disk
      ensures ok == (lba < |old(disk)|)
      ensures disk == if ok then old(disk)[lba := buffer[..]] else old(disk)
    {
      ok := lba < |disk|;
      if ok {
        disk := disk[lba := buffer[..]];
      }
    }

    // ---- FAT entries ----

    /** The sector cache of fat_read_entry (src/fs/fat16.c:41-47). */
    method Load(fatSector: nat) returns (ok: bool)
      requires Valid() && fatSector != NO_SECTOR
      modifies this`cacheSector, fatCache
      ensures Valid() && ok == (fatSector < |disk|)
      ensures ok ==> fatCache[..] == disk[fatSector]
      ensures old(Ready()) && fs.fatStart <= fatSector < fs.rootStart ==> Ready()
    {
      ok := true;
      if fatSector != cacheSector {
        ok := ReadSector(fatSector, fatCache);
        if ok {
          cacheSector := fatSector;
        }
      }
    }

    /** fat_read_entry (src/fs/fat16.c:36): whatever the cache holds, the result is the entry on the disk. */
    method FatReadEntry(cluster: u16) returns (r: u16)
      requires Valid()
      modifies this`cacheSector, fatCache
      ensures Valid()
      ensures r == if fs.fatStart + cluster / 256 < |disk|
                   then Le16(disk[fs.fatStart + cluster / 256], 2 * (cluster % 256)) else 0xFFF7
      ensures old(Ready()) && cluster < fs.clusters + 2 ==> Ready() && r == Fat(disk, fs)[cluster]
    {
      EntryAddress(cluster);
      var fatOffset := cluster as int * 2;
      var fatSector := fs.fatStart + fatOffset / 512;
      var entryOffset := fatOffset % 512 / 2;
      var ok := Load(fatSector);
      if !ok {
        return 0xFFF7;
      }
      if old(Ready()) && cluster < fs.clusters + 2 {
        FatAt(disk, fs, cluster);
      }
      r := Le16(fatCache[..], 2 * entryOffset);
    }

    /** The mirroring loop of fat_write_entry (src/fs/fat16.c:68-72). */
    method WriteCopies(fatSector: nat) returns (ok: bool)
      requires sectorBuffer.Length == 512 && LayoutOk(fs, |disk|)
      requires fs.fatStart <= fatSector < fs.fatStart + fs.fatSize
      modifies this`disk
      ensures ok
      ensures disk == PutCopies(old(disk), fs, fatSector - fs.fatStart, sectorBuffer[..], fs.numFats)
    {
      var i := 0;
      while i < fs.numFats
        invariant 0 <= i <= fs.numFats
        invariant disk == PutCopies(old(disk), fs, fatSector - fs.fatStart, sectorBuffer[..], i)
      {
        CopyInside(fs, |disk|, i, fatSector - fs.fatStart);
        var offset := Product(i, fs.fatSize);
        ok := WriteSector(fatSector + offset, sectorBuffer);
        if !ok {
          return;
        }
        i := i + 1;
      }
      ok := true;
    }

    /** fat_write_entry (src/fs/fat16.c:53). */
    method FatWriteEntry(cluster: nat, value: u16) returns (r: int)
      requires Ready() && cluster < fs.clusters + 2
      modifies this`disk, this`cacheSector, sectorBuffer
      ensures Ready() && r == 0 && cacheSector == NO_SECTOR
      ensures disk == SetFat(old(disk), fs, cluster, value)
    {
      EntryAddress(cluster);
      var fatOffset := cluster * 2;
      var fatSector := fs.fatStart + fatOffset / 512;
      var entryOffset := fatOffset % 512 / 2;
      var ok := ReadSector(fatSector, sectorBuffer);
      if !ok {
        return -1;
      }
      sectorBuffer[2 * entryOffset], sectorBuffer[2 * entryOffset + 1] := value % 0x100, value / 0x100;
      assert sectorBuffer[..] == PutLe16(disk[fatSector], 2 * entryOffset, value);
      ok := WriteCopies(fatSector);
      if !ok {
        return -1;
      }
      cacheSector := NO_SECTOR;
      r := 0;
    }

    /** fat_find_free_cluster (src/fs/fat16.c:81). */
    method FatFindFreeCluster() returns (r: nat)
      requires Ready()
      modifies this`cacheSector, fatCache
      ensures Ready()
      ensures IsFirstFree(Fat(disk, fs), r)
    {
      var cluster := 2;
      while cluster < fs.clusters + 2
        invariant Ready() && 2 <= cluster <= fs.clusters + 2
        invariant forall x :: 2 <= x < cluster ==> Fat(disk, fs)[x] != FREE
      {
        var link := FatReadEntry(cluster);
        if link == FREE {
          return cluster;
        }
        cluster := cluster + 1;
      }
      r := 0;
    }

    /** One turn of the chain-freeing loop: read the link, then free the cluster. */
    method FreeLink(cluster: nat, ghost start: Disk, ghost first: nat, ghost visited: set<int>) returns (next: u16)
      requires Ready() && |start| == |disk| && LinksInside(Fat(start, fs))
      requires Freeing(start, disk, fs, first, visited, cluster) && Follows(cluster)
      modifies this`disk, this`cacheSector, sectorBuffer, fatCache
      ensures Ready() && |start| == |disk|
      ensures Freeing(start, disk, fs, first, visited + {cluster}, next)
      ensures 0 <= ToFree(disk, fs, next) < old(ToFree(disk, fs, cluster))
    {
      next := FatReadEntry(cluster);
      FreeingStep(start, disk, fs, first, visited, cluster);
      var _ := FatWriteEntry(cluster, FREE);
    }

    /** The chain-freeing loop of fat16_write_file (src/fs/fat16.c:418-425): on any FAT whose links stay inside the
        table, cyclic or not, it stops and has freed exactly the clusters a walk from the first one reaches. */
    method FreeChain(first: nat)
      requires Ready()
      requires LinksInside(Fat(disk, fs)) && (Follows(first) ==> first < fs.clusters + 2)
      modifies this`disk, this`cacheSector, sectorBuffer, fatCache
      ensures Ready() && WalkFreed(old(disk), disk, fs, first)
    {
      ghost var visited: set<int> := {};
      var cluster := first;
      assert Hop(Fat(disk, fs), first, 0) == first;
      while Follows(cluster)
        invariant Ready() && |disk| == |old(disk)|
        invariant Freeing(old(disk), disk, fs, first, visited, cluster)
        decreases ToFree(disk, fs, cluster)
      {
        var next := FreeLink(cluster, old(disk), first, visited);
        visited := visited + {cluster};
        cluster := next;
      }
      FreeingDone(old(disk), disk, fs, first, visited, cluster);
    }

    /** cluster_to_sector (src/fs/fat16.c:31). */
    method ClusterToSector(cluster: nat) returns (sector: nat)
      requires cluster >= 2
      ensures sector == ClusterLba(fs, cluster) == fs.dataStart + (cluster - 2) * fs.spc
    {
      TimesIsProduct(cluster - 2, fs.spc);
      var offset := Product(cluster - 2, fs.spc);
      sector := fs.dataStart + offset;
    }

    /** The sector loop of fat16_write_file for one cluster (src/fs/fat16.c:449-461). */
    method StoreCluster(cluster: nat, data: seq<byte>, off: nat, ghost chain: seq<nat>) returns (n: nat)
      requires Ready() && 2 <= cluster < fs.clusters + 2
      requires InData(fs, chain) && cluster !in chain
      requires off == 512 * |Lbas(fs, chain)| < |data| && Holds(disk, Lbas(fs, chain), data, off)
      modifies this`disk, sectorBuffer
      ensures Ready()
      ensures Filled(old(disk), disk, fs, chain, cluster, fs.spc, data, n)
      ensures ClusterStored(old(disk), disk, fs, cluster, data, off, fs.spc)
    {
      var sector := ClusterToSector(cluster);
      assert Lbas(fs, chain) + ClusterLbas(fs, cluster, 0) == Lbas(fs, chain);
      ghost var i;
      n, i := StoreSectors(sector, data, off, chain, cluster);
      FilledDone(old(disk), disk, fs, chain, cluster, i, data, n);
      ClusterStoredDone(old(disk), disk, fs, cluster, data, off, i);
    }

    /** The loop itself; it ends with the cluster or with the data. */
    method StoreSectors(sector: nat, data: seq<byte>, off: nat, ghost chain: seq<nat>, ghost c: nat)
      returns (n: nat, ghost done: nat)
      requires Ready() && InData(fs, chain) && 2 <= c < fs.clusters + 2 && c !in chain && sector == ClusterLba(fs, c)
      requires off < |data| && Filled(disk, disk, fs, chain, c, 0, data, off)
      modifies this`disk, sectorBuffer
      ensures Ready() && SectorsWritten(old(disk), disk, fs, chain, c, done, data, off, n)
      ensures done == fs.spc || n == |data|
    {
      n := off;
      ghost var start := disk;
      var i := 0;
      while i < fs.spc && n < |data|
        invariant 0 <= i && Ready() && SectorsWritten(start, disk, fs, chain, c, i, data, off, n)
        decreases fs.spc - i
      {
        n := StoreNext(sector + i, data, n, start, chain, c, i, off);
        i := i + 1;
      }
      done := i;
    }

    /** One round of it. */
    method StoreNext(lba: nat, data: seq<byte>, n: nat, ghost start: Disk, ghost chain: seq<nat>, ghost c: nat,
                     ghost i: nat, ghost off: nat)
      returns (next: nat)
      requires Ready() && InData(fs, chain) && 2 <= c < fs.clusters + 2 && c !in chain && i < fs.spc
      requires n < |data| && lba == SectorLba(fs, c, i) && SectorsWritten(start, disk, fs, chain, c, i, data, off, n)
      modifies this`disk, sectorBuffer
      ensures Ready() && SectorsWritten(start, disk, fs, chain, c, i + 1, data, off, next)
    {
      ghost var before := disk;
      StoreSector(lba, data, n, start, chain, c, i);
      ClusterStoredNext(start, before, disk, fs, c, data, off, i);
      next := if |data| - n > 512 then n + 512 else |data|;
    }

    /** Filling and writing the next sector of a cluster: the cached FAT sector stays coherent. */
    method StoreSector(lba: nat, data: seq<byte>, n: nat, ghost start: Disk, ghost chain: seq<nat>, ghost c: nat,
                       ghost i: nat)
      requires Ready() && InData(fs, chain) && 2 <= c < fs.clusters + 2 && c !in chain && i < fs.spc
      requires n < |data| && lba == SectorLba(fs, c, i)
      requires Filled(start, disk, fs, chain, c, i, data, n)
      modifies this`disk, sectorBuffer
      ensures Ready() && lba < |old(disk)| && disk == old(disk)[lba := Chunk(data, n)]
      ensures forall i :: 0 <= i < 512 ==> disk[lba][i] == if n + i < |data| then data[n + i] else 0
      ensures Filled(start, disk, fs, chain, c, i + 1, data, Min(|data|, n + 512))
    {
      ClusterInside(fs, |disk|, c, i);
      FilledStep(start, disk, fs, chain, c, i, data, n);
      FillBuffer(data, n);
      var _ := WriteSector(lba, sectorBuffer);
    }

    /** memset and memcpy of the next chunk into the scratch sector (src/fs/fat16.c:451-453). */
    method FillBuffer(data: seq<byte>, n: nat)
      requires sectorBuffer.Length == 512 && n < |data|
      modifies sectorBuffer
      ensures sectorBuffer[..] == Chunk(data, n)
      ensures forall i :: 0 <= i < 512 ==> sectorBuffer[i] == if n + i < |data| then data[n + i] else 0
    {
      forall i | 0 <= i < 512 {
        sectorBuffer[i] := 0;
      }
      var copy := if |data| - n > 512 then 512 else |data| - n;
      forall i | 0 <= i < copy {
        sectorBuffer[i] := data[n + i];
      }
    }

    /** The allocation and copying loop of fat16_write_file (src/fs/fat16.c:427-464). */
    method StoreData(data: seq<byte>) returns (ok: bool, first: u16, ghost chain: seq<nat>, ghost n: nat)
      requires Ready()
      modifies this`disk, this`cacheSector, sectorBuffer, fatCache
      ensures Ready() && |disk| == |old(disk)|
      ensures Storing(old(disk), disk, fs, chain, data, n)
      ensures if ok then n == |data| else n < |data| && IsFirstFree(Fat(disk, fs), 0)
      ensures first == if chain == [] then 0 else chain[0]
    {
      var done, prev := 0, 0;
      first, chain := 0, [];
      ghost var start := disk;
      StoringStart(disk, fs, data);
      while done < |data|
        invariant Ready() && |disk| == |start|
        invariant Storing(start, disk, fs, chain, data, done)
        invariant first == if chain == [] then 0 else chain[0]
        invariant prev == if chain == [] then 0 else chain[|chain| - 1]
        decreases |data| - done
      {
        var cluster := FatFindFreeCluster();
        if cluster == 0 {
          return false, first, chain, done;
        }
        first := if first == 0 then cluster else first;
        done := PlaceCluster(prev, cluster, data, done, start, chain);
        chain := chain + [cluster];
        prev := cluster;
      }
      ok, n := true, done;
    }

    /** The two FAT writes that put a cluster behind the chain (src/fs/fat16.c:443-446). */
    method LinkCluster(prev: nat, cluster: nat, ghost chain: seq<nat>)
      requires Ready() && InData(fs, chain) && 2 <= cluster < fs.clusters + 2
      requires prev == if chain == [] then 0 else chain[|chain| - 1]
      modifies this`disk, this`cacheSector, sectorBuffer
      ensures Ready()
      ensures disk == LinkOnDisk(old(disk), fs, chain, cluster)
    {
      if prev != 0 {
        var _ := FatWriteEntry(prev, cluster);
      }
      var _ := FatWriteEntry(cluster, END_OF_CHAIN);
    }

    /** One turn of that loop once a free cluster is found: link it in, mark it the last, fill it. */
    method PlaceCluster(prev: nat, cluster: nat, data: seq<byte>, done: nat, ghost start: Disk, ghost chain: seq<nat>)
      returns (n: nat)
      requires Ready() && |disk| == |start| && done < |data|
      requires Storing(start, disk, fs, chain, data, done)
      requires IsFirstFree(Fat(disk, fs), cluster) && cluster != 0
      requires prev == if chain == [] then 0 else chain[|chain| - 1]
      modifies this`disk, this`cacheSector, sectorBuffer
      ensures Ready() && |disk| == |start|
      ensures Storing(start, disk, fs, chain + [cluster], data, n) && n > done
    {
      ghost var before := disk;
      StoringLinked(start, disk, fs, chain, data, done, cluster);
      LinkCluster(prev, cluster, chain);
      n := StoreCluster(cluster, data, done, chain);
      StoringNext(start, before, disk, fs, chain, data, done, cluster, n);
    }

    // ---- Directory scans ----

    /** The scan that fat16_find_file (src/fs/fat16.c:280-303) and fat16_write_file (src/fs/fat16.c:392-414) share. */
    method ScanRoot(name: CString) returns (found: Option<nat>, entry: Entry)
      requires Ready()
      modifies sectorBuffer
      ensures Ready()
      ensures found == Lookup(Dir(disk, fs), name)
      ensures found.Some? ==> entry == Dir(disk, fs)[found.value]
    {
      entry := ZeroSector()[..32];
      ghost var dir := Dir(disk, fs);
      var i := 0;
      while i < fs.rootSectors
        invariant 0 <= i <= fs.rootSectors && Ready()
        invariant Lookup(dir, name) == FindFrom(dir, name, 16 * i)
      {
        var ok := ReadSector(fs.rootStart + i, sectorBuffer);
        if !ok {
          return None, entry;
        }
        var stop;
        stop, found, entry := ScanSector(name, i);
        if stop {
          return;
        }
        i := i + 1;
      }
      found := None;
    }

    /** The scan of the sixteen entries of one buffered directory sector. */
    method ScanSector(name: CString, i: nat) returns (stop: bool, found: Option<nat>, entry: Entry)
      requires Ready() && i < fs.rootSectors && sectorBuffer[..] == disk[fs.rootStart + i]
      ensures FindFrom(Dir(disk, fs), name, 16 * i) ==
              if stop then found else FindFrom(Dir(disk, fs), name, 16 * i + 16)
      ensures found.Some? ==> stop && found.value < 16 * fs.rootSectors && entry == Dir(disk, fs)[found.value]
    {
      ghost var dir := Dir(disk, fs);
      entry := ZeroSector()[..32];
      var j := 0;
      while j < 16
        invariant 0 <= j <= 16
        invariant FindFrom(dir, name, 16 * i) == FindFrom(dir, name, 16 * i + j)
      {
        entry := sectorBuffer[32 * j..32 * j + 32];
        SlotHere(disk, fs, i, j, sectorBuffer[..]);
        assert entry == dir[16 * i + j];
        if First(entry) == 0 {
          return true, None, entry;
        }
        if Live(entry) {
          var same := NameMatches(entry, name);
          if same {
            return true, Some(16 * i + j), entry;
          }
        }
        j := j + 1;
      }
      return false, None, entry;
    }

    /** fat16_find_file (src/fs/fat16.c:277). */
    method FindFile(name: CString) returns (r: int, entry: Option<Entry>)
      requires Valid() && (mounted ==> Ready())
      modifies sectorBuffer
      ensures Valid() && (mounted ==> Ready())
      ensures r == 0 <==> mounted && Lookup(Dir(disk, fs), name).Some?
      ensures r != 0 ==> r == -1 && entry == None
      ensures r == 0 ==> entry == Some(Dir(disk, fs)[Lookup(Dir(disk, fs), name).value])
      ensures r == 0 ==> SameLetters(EntryText(entry.value), name)
    {
      if !mounted {
        return -1, None;
      }
      var k, e := ScanRoot(name);
      if k == None {
        return -1, None;
      }
      UpperSame(EntryText(e), name);
      return 0, Some(e);
    }

    // ---- Reading a file ----

    /** The slot found under this name, if it is a file, can be read to its end. */
    ghost predicate CanRead(name: CString)
      requires LayoutOk(fs, |disk|) && |chains| == 16 * fs.rootSectors
      reads this
    {
      var found := Lookup(Dir(disk, fs), name);
      found.Some? && !IsDirectory(Dir(disk, fs)[found.value]) ==> Readable(disk, fs, found.value, chains[found.value])
    }

    /** fat16_read_file (src/fs/fat16.c:306). */
    method ReadFile(name: CString, buffer: array<byte>, maxSize: nat) returns (r: int)
      requires Valid() && (mounted ==> Ready() && |chains| == 16 * fs.rootSectors && CanRead(name))
      requires maxSize <= buffer.Length && buffer != sectorBuffer && buffer != fatCache
      modifies this`cacheSector, sectorBuffer, fatCache, buffer
      ensures Valid() && (mounted ==> Ready())
      ensures !mounted || FileOf(name) == None ==> r == -1 && buffer[..] == old(buffer[..])
      ensures mounted && FileOf(name).Some? ==>
                var bytes := FileOf(name).value;
                var n := Min(|bytes|, maxSize);
                && r == (if n < 0x8000_0000 then n else n - 0x1_0000_0000)
                && buffer[..n] == bytes[..n] && buffer[n..] == old(buffer[n..])
    {
      if !mounted {
        return -1;
      }
      var status, entry := FindFile(name);
      if status < 0 {
        return -1;
      }
      if IsDirectory(entry.value) {
        return -1;
      }
      ghost var k := Lookup(Dir(disk, fs), name).value;
      r := ReadEntry(entry.value, buffer, maxSize, k, chains[k]);
    }

    /** The part of fat16_read_file after the entry has been found (src/fs/fat16.c:315-343). */
    method ReadEntry(entry: Entry, buffer: array<byte>, maxSize: nat, ghost k: nat, ghost chain: seq<nat>)
      returns (r: int)
      requires Ready() && Readable(disk, fs, k, chain) && entry == Dir(disk, fs)[k]
      requires maxSize <= buffer.Length && buffer != sectorBuffer && buffer != fatCache
      modifies this`cacheSector, sectorBuffer, fatCache, buffer
      ensures Ready() && InData(fs, chain)
      ensures var bytes := SlotBytes(disk, fs, k, chain);
              var n := Min(|bytes|, maxSize);
              && r == (if n < 0x8000_0000 then n else n - 0x1_0000_0000)
              && buffer[..n] == bytes[..n] && buffer[n..] == old(buffer[n..])
    {
      ReadableInData(disk, fs, k, chain);
      var size := FileSize(entry) as nat;
      if size > maxSize {
        size := maxSize;
      }
      CopyChain(ClusterLo(entry), buffer, size, k, chain);
      r := ToInt32(size);
    }

    /** The chain-walking loop of fat16_read_file (src/fs/fat16.c:321-341). */
    method CopyChain(first: nat, buffer: array<byte>, size: nat, ghost k: nat, ghost chain: seq<nat>)
      requires Ready() && Readable(disk, fs, k, chain)
      requires size <= FileSize(Dir(disk, fs)[k]) && first == ClusterLo(Dir(disk, fs)[k])
      requires size <= buffer.Length && buffer != sectorBuffer && buffer != fatCache
      modifies this`cacheSector, sectorBuffer, fatCache, buffer
      ensures Ready()
      ensures InData(fs, chain) && size <= |SlotBytes(disk, fs, k, chain)|
      ensures buffer[..size] == SlotBytes(disk, fs, k, chain)[..size] && buffer[size..] == old(buffer[size..])
    {
      var cluster, n := first, 0;
      ghost var ci := 0;
      while n < size && Follows(cluster)
        invariant Ready()
        invariant Reading(disk, fs, chain, ci, cluster, buffer[..size], n)
        invariant buffer[size..] == old(buffer[size..])
        decreases size - n
      {
        ghost var i;
        n, i := CopyCluster(cluster, buffer, size, n, chain, ci);
        var next := FatReadEntry(cluster);
        ReadingLeave(disk, fs, chain, ci, i, buffer[..size], n, first, next);
        cluster, ci := next, ci + 1;
      }
      ReadingDone(disk, fs, k, chain, ci, cluster, buffer[..size], n);
    }

    /** The sector loop of fat16_read_file for one cluster (src/fs/fat16.c:327-337). */
    method CopyCluster(cluster: nat, buffer: array<byte>, size: nat, off: nat, ghost chain: seq<nat>, ghost ci: nat)
      returns (n: nat, ghost i: nat)
      requires Ready() && off < size <= buffer.Length && buffer != sectorBuffer && buffer != fatCache
      requires Reading(disk, fs, chain, ci, cluster, buffer[..size], off) && ci < |chain|
      modifies sectorBuffer, buffer
      ensures Ready() && n > off && (i == fs.spc || n == size)
      ensures ReadingIn(disk, fs, chain, ci, i, buffer[..size], n)
      ensures buffer[size..] == old(buffer[size..])
    {
      var sector := ClusterToSector(cluster);
      n := off;
      var k := 0;
      ReadingEnter(disk, fs, chain, ci, cluster, buffer[..size], n);
      while k < fs.spc && n < size
        invariant Ready() && k <= fs.spc && off <= n <= size && (k > 0 ==> n > off)
        invariant ReadingIn(disk, fs, chain, ci, k, buffer[..size], n)
        invariant buffer[size..] == old(buffer[size..])
      {
        n := CopySector(sector + k, buffer, size, n, chain, ci, k);
        k := k + 1;
      }
      i := k;
    }

    /** The copy itself (src/fs/fat16.c:334). */
    method CopyBytes(buffer: array<byte>, size: nat, off: nat, copy: nat)
      requires off + copy <= size <= buffer.Length && copy <= 512 == sectorBuffer.Length && buffer != sectorBuffer
      modifies buffer
      ensures buffer[..size][..off] == old(buffer[..size])[..off]
      ensures buffer[..size][off..off + copy] == sectorBuffer[..copy]
      ensures buffer[size..] == old(buffer[size..])
    {
      forall j | 0 <= j < copy {
        buffer[off + j] := sectorBuffer[j];
      }
      assert buffer[..size][..off] == buffer[..off] && old(buffer[..size])[..off] == old(buffer[..off]);
      assert buffer[..size][off..off + copy] == buffer[off..off + copy];
    }

    /** Reading one sector and copying what is still wanted of it (src/fs/fat16.c:329-336). */
    method CopySector(lba: nat, buffer: array<byte>, size: nat, off: nat, ghost chain: seq<nat>, ghost ci: nat,
                      ghost i: nat)
      returns (n: nat)
      requires Ready() && off < size <= buffer.Length && buffer != sectorBuffer && buffer != fatCache
      requires ReadingIn(disk, fs, chain, ci, i, buffer[..size], off) && i < fs.spc
      requires lba == SectorLba(fs, chain[ci], i)
      modifies sectorBuffer, buffer
      ensures Ready() && off < n <= size
      ensures ReadingIn(disk, fs, chain, ci, i + 1, buffer[..size], n)
      ensures buffer[size..] == old(buffer[size..])
    {
      ClusterInside(fs, |disk|, chain[ci], i);
      var _ := ReadSector(lba, sectorBuffer);
      var copy := if size - off > 512 then 512 else size - off;
      CopyBytes(buffer, size, off, copy);
      n := off + copy;
      ReadingStep(disk, fs, chain, ci, i, old(buffer[..size]), off, buffer[..size], n);
    }

    // ---- Overwriting a file ----

    /** Updating the directory entry (src/fs/fat16.c:466-477): the sector is read again, as the buffer has been
        reused. */
    method UpdateEntry(k: nat, first: u16, size: nat)
      requires Ready() && k < 16 * fs.rootSectors
      modifies this`disk, sectorBuffer
      ensures Ready()
      ensures disk == SetSlot(old(disk), fs, k, WithFile(Dir(old(disk), fs)[k], first, size))
    {
      DirAt(disk, fs, k);
      var _ := ReadSector(fs.rootStart + k / 16, sectorBuffer);
      var off := 32 * (k % 16);
      PutSlot(k, WithFile(sectorBuffer[off..off + 32], first, size));
    }

    /** Changing one entry of the buffered directory sector and writing the sector back. */
    method PutSlot(k: nat, entry: Entry)
      requires Ready() && k < 16 * fs.rootSectors && sectorBuffer[..] == disk[fs.rootStart + k / 16]
      modifies this`disk, sectorBuffer
      ensures Ready()
      ensures disk == SetSlot(old(disk), fs, k, entry)
    {
      var off := 32 * (k % 16);
      forall i | 0 <= i < 32 {
        sectorBuffer[off + i] := entry[i];
      }
      assert sectorBuffer[..] == Splice(disk[fs.rootStart + k / 16], off, entry);
      var _ := WriteSector(fs.rootStart + k / 16, sectorBuffer);
    }

    /** fat16_write_file (src/fs/fat16.c:385): it succeeds exactly when the file's old clusters and the free ones
        suffice; then the file has the new contents and everything else is as before. When the disk runs full, all
        other files are still there, and SurvivesFullDisk says exactly when the volume is still well-formed. */
    method WriteFile(name: CString, data: seq<byte>) returns (r: int)
      requires Sound()
      modifies this`disk, this`cacheSector, this`chains, this`owner, sectorBuffer, fatCache
      ensures Valid() && (mounted ==> Ready())
      ensures !mounted || Lookup(Dir(old(disk), fs), name) == None ==>
                r == -1 && disk == old(disk) && chains == old(chains) && Sound()
      ensures mounted && Lookup(Dir(old(disk), fs), name).Some? ==>
                var k := Lookup(Dir(old(disk), fs), name).value;
                if ClustersFor(|data|, fs.spc) <= |old(chains)[k]| + CountFree(Fat(old(disk), fs))
                then r == ToInt32(|data|) && r != -1 &&
                    Replaced(old(disk), disk, fs, old(chains), chains, owner, k, data)
                else r == -1 && chains == old(chains) && RanFull(old(disk), disk, fs, chains, k)
      ensures r != -1 ==>
                |data| < 0x1_0000_0000 && r == if |data| < 0x8000_0000 then |data| else |data| - 0x1_0000_0000
    {
      if !mounted {
        return -1;
      }
      var found, entry := ScanRoot(name);
      if found == None {
        return -1;
      }
      r := Overwrite(found.value, entry, data);
    }

    /** The part of fat16_write_file after the entry has been found (src/fs/fat16.c:416-479). */
    method Overwrite(k: nat, entry: Entry, data: seq<byte>) returns (r: int)
      requires Ready() && WellFormed(disk, fs, chains, owner)
      requires k < 16 * fs.rootSectors && entry == Dir(disk, fs)[k] && Live(entry)
      modifies this`disk, this`cacheSector, this`chains, this`owner, sectorBuffer, fatCache
      ensures Ready()
      ensures if ClustersFor(|data|, fs.spc) <= |old(chains)[k]| + CountFree(Fat(old(disk), fs))
              then r == ToInt32(|data|) && r != -1 && Replaced(old(disk), disk, fs, old(chains), chains, owner, k, data)
              else r == -1 && chains == old(chains) && RanFull(old(disk), disk, fs, chains, k)
      ensures r != -1 ==> |data| < TWO_TO_THE_32
    {
      var ok, first;
      ghost var d3, chains3, owner3;
      ok, first, d3, chains3, owner3 := FreeAndStore(k, entry, data);
      if !ok {
        return -1;
      }
      Conclude(k, first, |data|, d3, chains3, owner3);
      r := ToInt32(|data|);
    }

    /** The update of the directory entry, with which the new chain becomes the chain of the slot. */
    method Conclude(k: nat, first: u16, size: nat, ghost d3: Disk, ghost chains3: seq<seq<nat>>, ghost owner3: Owners)
      requires Ready() && k < 16 * fs.rootSectors
      requires d3 == SetSlot(disk, fs, k, WithFile(Dir(disk, fs)[k], first, size))
      modifies this`disk, this`chains, this`owner, sectorBuffer
      ensures Ready() && disk == d3 && chains == chains3 && owner == owner3
    {
      UpdateEntry(k, first, size);
      chains, owner := chains3, owner3;
    }

    /** Freeing the old clusters and storing the data in new ones (src/fs/fat16.c:417-464); what is then left to do is
        to update the directory entry. */
    method FreeAndStore(k: nat, entry: Entry, data: seq<byte>)
      returns (ok: bool, first: u16, ghost d3: Disk, ghost chains3: seq<seq<nat>>, ghost owner3: Owners)
      requires Ready() && WellFormed(disk, fs, chains, owner)
      requires k < 16 * fs.rootSectors && entry == Dir(disk, fs)[k] && Live(entry)
      modifies this`disk, this`cacheSector, sectorBuffer, fatCache
      ensures Ready() && |disk| == |old(disk)|
      ensures d3 == SetSlot(disk, fs, k, WithFile(Dir(disk, fs)[k], first, |data|))
      ensures ok <==> ClustersFor(|data|, fs.spc) <= |chains[k]| + CountFree(Fat(old(disk), fs))
      ensures ok ==> |data| <= MAX_FILE && Replaced(old(disk), d3, fs, chains, chains3, owner3, k, data)
      ensures !ok ==> RanFull(old(disk), disk, fs, chains, k)
    {
      FreeOld(ClusterLo(entry), k);
      ghost var d1, given, n := disk, [], 0;
      ok, first, given, n := StoreData(data);
      d3, chains3, owner3 := StoredDone(ok, first, old(disk), d1, disk, fs, chains, owner, k, given, data, n);
    }

    /** The freeing step of fat16_write_file (src/fs/fat16.c:417-425). */
    method FreeOld(first: nat, ghost k: nat)
      requires Ready() && WellFormed(disk, fs, chains, owner)
      requires k < 16 * fs.rootSectors && Live(Dir(disk, fs)[k]) && first == ClusterLo(Dir(disk, fs)[k])
      modifies this`disk, this`cacheSector, sectorBuffer, fatCache
      ensures Ready() && WalkFreed(old(disk), disk, fs, first)
    {
      WellFormedLinks(disk, fs, chains, owner);
      FirstInside(disk, fs, chains, owner, k);
      if first >= 2 {
        FreeChain(first);
      } else {
        NothingFreed(disk, fs, first);
      }
    }

    // ---- Creating a file ----

    /** The first unused entry of one buffered directory sector; 16 if there is none. */
    method FindUnused(i: nat) returns (j: nat)
      requires Ready() && i < fs.rootSectors && sectorBuffer[..] == disk[fs.rootStart + i]
      requires NoneUnused(Dir(disk, fs), 16 * i)
      ensures j <= 16 && if j < 16 then IsFirstUnused(Dir(disk, fs), 16 * i + j)
              else NoneUnused(Dir(disk, fs), 16 * (i + 1))
    {
      j := 0;
      while j < 16
        invariant 0 <= j <= 16 && NoneUnused(Dir(disk, fs), 16 * i + j)
      {
        SlotHere(disk, fs, i, j, sectorBuffer[..]);
        assert sectorBuffer[32 * j] == First(Dir(disk, fs)[16 * i + j]);
        if sectorBuffer[32 * j] == 0x00 || sectorBuffer[32 * j] == 0xE5 {
          return;
        }
        j := j + 1;
      }
    }

    /** The search of fat16_create_file (src/fs/fat16.c:357-365): the first unused entry, whose sector is left in the
        buffer. */
    method FindFree() returns (k: nat)
      requires Ready()
      modifies sectorBuffer
      ensures if k < 16 * fs.rootSectors
              then IsFirstUnused(Dir(disk, fs), k) && sectorBuffer[..] == disk[fs.rootStart + k / 16]
              else k == 16 * fs.rootSectors && NoneUnused(Dir(disk, fs), k)
    {
      var i := 0;
      while i < fs.rootSectors
        invariant 0 <= i <= fs.rootSectors && NoneUnused(Dir(disk, fs), 16 * i)
      {
        var _ := ReadSector(fs.rootStart + i, sectorBuffer);
        var j := FindUnused(i);
        if j < 16 {
          return 16 * i + j;
        }
        i := i + 1;
      }
      k := 16 * fs.rootSectors;
    }

    /** fat16_create_file (src/fs/fat16.c:346). */
    method CreateFile(name: CString) returns (r: int, ghost slot: nat)
      requires Sound()
      modifies this`disk, sectorBuffer
      ensures Sound()
      ensures r != 0 ==> r == -1 && disk == old(disk)
      ensures mounted ==>
        (r == 0 <==> Lookup(Dir(old(disk), fs), name) == None && !NoneUnused(Dir(old(disk), fs), 16 * fs.rootSectors))
      ensures r == 0 ==> mounted && IsFirstUnused(Dir(old(disk), fs), slot)
      ensures r == 0 ==> Created(old(disk), disk, fs, chains, slot, name)
      ensures r == 0 && Findable(name) ==>
                forall m: CString :: SameLetters(m, name) ==> Lookup(Dir(disk, fs), m) == Some(slot)
    {
      slot := 0;
      if !mounted {
        return -1, slot;
      }
      var status, _ := FindFile(name);
      if status == 0 {
        return -1, slot;
      }
      var k := FindFree();
      slot := k;
      if k == 16 * fs.rootSectors {
        return -1, slot;
      }
      WriteNew(k, name);
      VariantsFound(Dir(disk, fs), name);
      r := 0;
    }

    /** Filling the unused entry and writing its sector back (src/fs/fat16.c:366-375). */
    method WriteNew(k: nat, name: CString)
      requires Ready() && WellFormed(disk, fs, chains, owner)
      requires IsFirstUnused(Dir(disk, fs), k) && sectorBuffer[..] == disk[fs.rootStart + k / 16]
      requires Lookup(Dir(disk, fs), name) == None
      modifies this`disk, sectorBuffer
      ensures Ready() && WellFormed(disk, fs, chains, owner)
      ensures Created(old(disk), disk, fs, chains, k, name)
    {
      var name83 := NameTo83(name);
      CreateWellFormed(disk, fs, chains, owner, k, name);
      CreateDone(disk, fs, chains, owner, k, name);
      PutSlot(k, name83[..] + [0x20] + seq(20, _ => 0));
    }

    // ---- Mounting and formatting ----

    constructor (drive: Disk, present: bool)
      requires |drive| <= 0x1000_0000
      ensures Sound() && !mounted && disk == drive && this.present == present
      ensures fresh(sectorBuffer) && fresh(fatCache)
    {
      this.present := present;
      disk, mounted, cacheSector := drive, false, NO_SECTOR;
      fs := Geometry(0, 0, 0, 0, 0, 0, 0, 0, 0, 0, 0);
      sectorBuffer := new byte[512](_ => 0);
      fatCache := new byte[512](_ => 0);
    }

    /** fat16_unmount (src/fs/fat16.c:217). */
    method Unmount()
      requires Buffers()
      modifies this`mounted, this`cacheSector
      ensures Sound() && !mounted && cacheSector == NO_SECTOR
    {
      mounted, cacheSector := false, NO_SECTOR;
    }

    /** The values fat16_mount derives from the boot sector (src/fs/fat16.c:185-199); none if it divides by zero. */
    method StoreBpb(sec: Sector) returns (g: Option<Geometry>)
      ensures g == if sec[13] == 0 then None else Some(ParseBpb(sec))
    {
      var numFats, fatSize := sec[16] as nat, Le16(sec, 22) as nat;
      var total: nat := if Le16(sec, 19) != 0 then Le16(sec, 19) else Le32(sec, 32);
      var fatStart := Le16(sec, 14) as nat;
      var fats := Product(numFats, fatSize);
      var rootStart := fatStart + fats;
      var rootSectors := (Le16(sec, 17) as nat * 32 + 511) / 512;
      var dataStart := rootStart + rootSectors;
      if sec[13] == 0 {
        return None;
      }
      var clusters := Sub32(total, dataStart) / sec[13] as int;
      return Some(Geometry(sec[13], Le16(sec, 14), numFats, Le16(sec, 17), fatSize, total,
                           fatStart, rootStart, rootSectors, dataStart, clusters));
    }

    /** fat16_mount (src/fs/fat16.c:150): it accepts exactly the boot sectors that pass its checks; a boot sector with
        zero sectors per cluster makes it divide by zero. A well-formed volume is then ready for use. */
    method Mount() returns (r: MountOutcome)
      requires Buffers()
      modifies this`mounted, this`fs, this`cacheSector, this`chains, this`owner, sectorBuffer
      ensures Buffers() && (mounted <==> r == Mounted)
      ensures r == Mounted <==> present && |disk| > 0 && Mountable(disk[0])
      ensures r == DivideError <==> present && |disk| > 0 && disk[0][510] == 0x55 && disk[0][511] == 0xAA &&
                                    Le16(disk[0], 11) == 512 && disk[0][13] == 0
      ensures r == Mounted ==> fs == ParseBpb(disk[0]) && cacheSector == NO_SECTOR
      ensures r == Mounted ==>
                var b := disk[0];
                && fs.spc == b[13] && fs.fatStart == b[14] as int + 0x100 * b[15] as int && fs.numFats == b[16]
                && fs.fatSize == b[22] as int + 0x100 * b[23] as int
                && fs.rootStart == fs.fatStart + fs.numFats * fs.fatSize
                && fs.dataStart == fs.rootStart + (b[17] as int + 0x100 * b[18] as int + 15) / 16
      ensures r == Mounted && (exists c, o :: WellFormed(disk, fs, c, o)) ==> Sound()
    {
      if mounted {
        Unmount();
      }
      if !present {
        return Rejected;
      }
      var ok := ReadSector(0, sectorBuffer);
      if !ok {
        return Rejected;
      }
      if sectorBuffer[510] != 0x55 || sectorBuffer[511] != 0xAA {
        return Rejected;
      }
      var sec := sectorBuffer[..];
      if Le16(sec, 11) != 512 {
        return Rejected;
      }
      var g := StoreBpb(sec);
      if g == None {
        return DivideError;
      }
      ParsedBytes(sec);
      fs := g.value;
      if fs.clusters < 4085 || fs.clusters >= 65525 {
        return Rejected;
      }
      Adopt();
      r := Mounted;
    }

    /** The last stores of a mount; the chains are those of a well-formed volume if it is one. */
    method Adopt()
      requires Buffers()
      modifies this`mounted, this`cacheSector, this`chains, this`owner
      ensures Buffers() && mounted && cacheSector == NO_SECTOR
      ensures (exists c, o :: WellFormed(disk, fs, c, o)) ==> Sound()
    {
      mounted, cacheSector := true, NO_SECTOR;
      if exists c, o :: WellFormed(disk, fs, c, o) {
        ghost var c, o :| WellFormed(disk, fs, c, o);
        chains, owner := c, o;
      }
    }

    method ClearBuffer()
      requires sectorBuffer.Length == 512
      modifies sectorBuffer
      ensures sectorBuffer[..] == ZeroSector()
    {
      forall i | 0 <= i < 512 {
        sectorBuffer[i] := 0;
      }
    }

    /** A field of n bytes at off, each taken from field. */
    method PutField(off: nat, field: seq<byte>)
      requires sectorBuffer.Length == 512 && off + |field| <= 512
      modifies sectorBuffer
      ensures sectorBuffer[off..off + |field|] == field
      ensures forall i :: 0 <= i < 512 && !(off <= i < off + |field|) ==> sectorBuffer[i] == old(sectorBuffer[i])
    {
      forall i | 0 <= i < |field| {
        sectorBuffer[off + i] := field[i];
      }
    }

    /** Writes the cleared buffer to the sectors lo .. hi-1. */
    method ZeroSectors(lo: nat, hi: nat)
      requires lo <= hi <= |disk| && sectorBuffer.Length == 512 && sectorBuffer[..] == ZeroSector()
      modifies this`disk
      ensures |disk| == |old(disk)|
      ensures forall l :: 0 <= l < |disk| ==> disk[l] == if lo <= l < hi then ZeroSector() else old(disk)[l]
    {
      var s := lo;
      while s < hi
        invariant lo <= s <= hi && |disk| == |old(disk)|
        invariant forall l :: 0 <= l < |disk| ==> disk[l] == if lo <= l < s then ZeroSector() else old(disk)[l]
      {
        var _ := WriteSector(s, sectorBuffer);
        s := s + 1;
      }
    }

    /** The boot sector of a new volume (src/fs/fat16.c:564-614). */
    method BuildBoot(total: u32, fatSize: u16, volume: Option<CString>)
      requires sectorBuffer.Length == 512 && fatSize == FormatFatSize(total)
      modifies sectorBuffer
      ensures IsBootSector(sectorBuffer[..], total, volume)
    {
      ClearBuffer();
      PutField(0, [0xEB, 0x3C, 0x90]);
      PutField(3, OEM_NAME);
      PutField(11, BpbFields(total, fatSize));
      PutField(43, LabelField(volume));
      PutField(54, FS_TYPE);
      PutField(510, [0x55, 0xAA]);
    }

    /** Both FATs (src/fs/fat16.c:622-643): the buffer is cleared after its first use, so only the first copy gets the
        reserved entries. */
    method WriteFats(fatSize: nat)
      requires sectorBuffer.Length == 512 && 1 <= fatSize && 1 + 2 * fatSize <= |disk|
      modifies this`disk, sectorBuffer
      ensures |disk| == |old(disk)| && sectorBuffer[..] == ZeroSector()
      ensures forall l :: 0 <= l < |disk| ==>
                disk[l] == if l == 1 then FatHead() else if 1 < l < 1 + 2 * fatSize then ZeroSector() else old(disk)[l]
    {
      ClearBuffer();
      PutField(0, [0xF8, 0xFF, 0xFF, 0xFF]);
      assert sectorBuffer[..] == FatHead();
      var f := 0;
      while f < 2
        invariant 0 <= f <= 2 && |disk| == |old(disk)|
        invariant sectorBuffer[..] == if f == 0 then FatHead() else ZeroSector()
        invariant forall l :: 0 <= l < |disk| ==>
                    disk[l] == if f > 0 && l == 1 then FatHead()
                               else if 1 < l < 1 + Times(f, fatSize) then ZeroSector() else old(disk)[l]
      {
        var offset := Product(f, fatSize);
        TimesLess(f, 2, fatSize);
        TimesTwo(fatSize);
        var _ := WriteSector(1 + offset, sectorBuffer);
        ClearBuffer();
        ZeroSectors(1 + offset + 1, 1 + offset + fatSize);
        f := f + 1;
      }
      TimesTwo(fatSize);
    }

    /** The root directory and its label entry (src/fs/fat16.c:645-674). */
    method WriteRoot(rootStart: nat, volume: Option<CString>)
      requires sectorBuffer.Length == 512 && rootStart + 32 <= |disk|
      modifies this`disk, sectorBuffer
      ensures |disk| == |old(disk)|
      ensures forall l :: 0 <= l < |disk| ==>
                disk[l] == if l == rootStart then RootHead(volume)
                           else if rootStart < l < rootStart + 32 then ZeroSector() else old(disk)[l]
    {
      ClearBuffer();
      ZeroSectors(rootStart, rootStart + 32);
      if volume.Some? {
        PutField(0, LabelEntry(volume.value));
        assert sectorBuffer[..] == RootHead(volume);
        var _ := WriteSector(rootStart, sectorBuffer);
      }
    }

    /** fat16_format (src/fs/fat16.c:519). */
    method Format(volume: Option<CString>) returns (r: int)
      requires Buffers()
      modifies this`disk, sectorBuffer
      ensures Buffers()
      ensures r == 0 <==> present && 16405 <= |old(disk)| <= 262646
      ensures r == 0 <==> present && Formattable(|old(disk)|)
      ensures r != 0 ==> r == -1 && disk == old(disk)
      ensures r == 0 ==> Formatted(old(disk), disk, volume)
    {
      if !present {
        return -1;
      }
      var total: u32 := |disk|;
      FormattableExactly(total);
      if total < 8192 {
        return -1;
      }
      var rootDirSectors := (512 * 32 + 511) / 512;
      var dataSectors := Sub32(total, 1 + rootDirSectors);
      var clusters := dataSectors / 4;
      var fatSize: u16 := (clusters * 2 + 511) / 512 % 0x1_0000;
      dataSectors := Sub32(total, 1 + 2 * fatSize as int + rootDirSectors);
      clusters := dataSectors / 4;
      if clusters < 4085 || clusters >= 65525 {
        return -1;
      }
      FatSizeFits(total);
      WriteVolume(total, fatSize, volume);
      r := 0;
    }

    /** The sectors that fat16_format writes. */
    method WriteVolume(total: u32, fatSize: u16, volume: Option<CString>)
      requires Buffers() && total == |disk| && fatSize == FormatFatSize(total) && Formattable(total)
      modifies this`disk, sectorBuffer
      ensures Buffers() && Formatted(old(disk), disk, volume)
    {
      FatSizeFits(total);
      BuildBoot(total, fatSize, volume);
      var _ := WriteSector(0, sectorBuffer);
      WriteFats(fatSize);
      WriteRoot(1 + 2 * fatSize as nat, volume);
    }
  }

  /** The bytes of slot 16 i + j in a buffered directory sector. */
  lemma SlotHere(d: Disk, g: Geometry, i: nat, j: nat, buf: seq<byte>)
    requires LayoutOk(g, |d|) && i < g.rootSectors && j < 16 && buf == d[g.rootStart + i]
    ensures buf[32 * j..32 * j + 32] == Dir(d, g)[16 * i + j]
  {
    DirAt(d, g, 16 * i + j);
    assert (16 * i + j) / 16 == i && (16 * i + j) % 16 == j;
  }

  /** The volume after slot k has been given the contents data: it is well-formed, only the entry's cluster and size
      fields change, no lookup does, the contents under the names of slot k are data and all others are as before, and
      the free clusters changed by the difference. */
  ghost predicate Replaced(d0: Disk, d: Disk, g: Geometry, chains: seq<seq<nat>>, chains2: seq<seq<nat>>,
                           owner2: Owners, k: nat, data: seq<byte>)
    requires LayoutOk(g, |d0|) && |chains| == 16 * g.rootSectors && k < |chains|
  {
    && WellFormed(d, g, chains2, owner2)
    && CountFree(Fat(d, g)) + ClustersFor(|data|, g.spc) == CountFree(Fat(d0, g)) + |chains[k]|
    && Dir(d, g) == Dir(d0, g)[k := WithFile(Dir(d0, g)[k], ClusterLo(Dir(d, g)[k]), |data|)]
    && (forall m: CString :: Lookup(Dir(d, g), m) == Lookup(Dir(d0, g), m))
    && (forall m: CString :: FileAt(d, g, chains2, m) ==
          if Lookup(Dir(d0, g), m) == Some(k) && !IsDirectory(Dir(d0, g)[k]) then Some(data)
          else FileAt(d0, g, chains, m))
  }

  /** The volume after a file called name was created in slot k. Its entry answers to the stored form of the name, which
      is the name itself exactly if the name is Findable; an empty file is found under it, and every other lookup,
      all contents and the FAT are as before. Names stay unique exactly if the stored form was not yet in use. */
  ghost predicate Created(d0: Disk, d: Disk, g: Geometry, chains: seq<seq<nat>>, k: nat, name: CString)
    requires LayoutOk(g, |d0|) && |chains| == 16 * g.rootSectors && k < |chains|
  {
    && |d| == |d0| && Fat(d, g) == Fat(d0, g)
    && Dir(d, g) == Dir(d0, g)[k := NewEntry(name)]
    && Lookup(Dir(d, g), name) == (if Findable(name) then Some(k) else None)
    && (forall m: CString :: Fits83(name) && Upper(m) != Upper(name) ==> Lookup(Dir(d, g), m) == Lookup(Dir(d0, g), m))
    && (forall m: CString :: FileAt(d, g, chains, m) ==
          if Lookup(Dir(d, g), m) == Some(k) then Some([]) else FileAt(d0, g, chains, m))
    && (UniqueNames(Dir(d0, g)) ==>
          (UniqueNames(Dir(d, g)) <==>
           !Live(NewEntry(name)) || Lookup(Dir(d0, g), EntryText(To83(name))) == None))
    && (UniqueNames(Dir(d0, g)) && Fits83(name) ==> UniqueNames(Dir(d, g)))
  }

  /** The volume after an overwrite of slot k ran out of space: nothing is free, all other files are still there and
      readable, and SurvivesFullDisk says exactly when the volume is well-formed. */
  ghost predicate RanFull(d0: Disk, d: Disk, g: Geometry, chains: seq<seq<nat>>, k: nat)
    requires LayoutOk(g, |d0|) && |chains| == 16 * g.rootSectors && k < |chains|
  {
    && |d| == |d0| && Dir(d, g) == Dir(d0, g) && CountFree(Fat(d, g)) == 0
    && (forall m: CString :: Lookup(Dir(d0, g), m) != Some(k) ==> FileAt(d, g, chains, m) == FileAt(d0, g, chains, m))
    && (forall l :: 0 <= l < |chains| && l != k && Live(Dir(d0, g)[l]) && !IsDirectory(Dir(d0, g)[l]) ==>
          Readable(d, g, l, chains[l]))
    && ((exists c, o :: WellFormed(d, g, c, o)) <==> SurvivesFullDisk(Fat(d0, g), Dir(d0, g)[k], chains[k]))
  }

  lemma FirstInside(d: Disk, g: Geometry, chains: seq<seq<nat>>, owner: Owners, k: nat)
    requires WellFormed(d, g, chains, owner) && k < |chains| && Live(Dir(d, g)[k])
    ensures Follows(ClusterLo(Dir(d, g)[k])) ==> ClusterLo(Dir(d, g)[k]) < g.clusters + 2
  {
    assert SlotOk(Fat(d, g), Dir(d, g)[k], chains[k], g.spc);
  }

  /** A start cluster below 2 means that there is nothing to free. */
  lemma NothingFreed(d: Disk, g: Geometry, first: nat)
    requires LayoutOk(g, |d|) && first < 2 && LinksInside(Fat(d, g))
    ensures WalkFreed(d, d, g, first)
  {
    forall x | Reached(Fat(d, g), first, x)
      ensures false
    {
      var n: nat :| Hop(Fat(d, g), first, n) == x;
      ClosedHoldsHops(Fat(d, g), first, {}, n);
    }
  }

  lemma VariantsFound(dir: seq<Entry>, name: CString)
    ensures forall m: CString :: SameLetters(m, name) ==> Lookup(dir, m) == Lookup(dir, name)
  {
    forall m: CString | SameLetters(m, name)
      ensures Lookup(dir, m) == Lookup(dir, name)
    {
      CaseVariantsFound(dir, m, name, 0);
    }
  }

  lemma StoredOutside(d0: Disk, d1: Disk, d2: Disk, g: Geometry, chains: seq<seq<nat>>, owner: Owners, k: nat,
                      given: seq<nat>, data: seq<byte>, n: nat)
    requires Rewriting(d0, d1, d2, g, chains, owner, k, given, data, n)
    ensures Dir(d2, g) == Dir(d0, g) && |d2| == |d0| && (given != [] ==> given[0] < 0x1_0000)
  {
    RewritingOutside(d0, d1, d2, g, chains, owner, k, given, data, n);
  }

  lemma OverwriteFits(d0: Disk, d1: Disk, d2: Disk, g: Geometry, chains: seq<seq<nat>>, owner: Owners, k: nat,
                      given: seq<nat>, data: seq<byte>)
    requires Rewriting(d0, d1, d2, g, chains, owner, k, given, data, |data|)
    ensures |data| <= MAX_FILE
    ensures ClustersFor(|data|, g.spc) <= |chains[k]| + CountFree(Fat(d0, g))
    ensures CountFree(Fat(Rewritten(d0, d2, g, k, given, |data|), g)) + ClustersFor(|data|, g.spc) ==
            CountFree(Fat(d0, g)) + |chains[k]|
  {
    assert |data| <= MAX_FILE by {
      StoredSizeFits(d1, d2, g, given, data, |data|);
    }
    assert Dir(d2, g) == Dir(d0, g) && |d2| == |d0| by {
      RewritingOutside(d0, d1, d2, g, chains, owner, k, given, data, |data|);
    }
    assert Fat(Rewritten(d0, d2, g, k, given, |data|), g) == Fat(d2, g) by {
      RewrittenDir(d0, d1, d2, g, chains, owner, k, given, data);
    }
    assert CountFree(Fat(d1, g)) == CountFree(Fat(d0, g)) + |chains[k]| by {
      FreedFat(d0, d1, g, chains, owner, k);
    }
    StoringExactly(d1, d2, g, given, data, |data|);
  }

  lemma OverwriteFiles(d0: Disk, d1: Disk, d2: Disk, g: Geometry, chains: seq<seq<nat>>, owner: Owners, k: nat,
                       given: seq<nat>, data: seq<byte>)
    requires Rewriting(d0, d1, d2, g, chains, owner, k, given, data, |data|)
    ensures forall m: CString :: FileAt(Rewritten(d0, d2, g, k, given, |data|), g, chains[k := given], m) ==
              if Lookup(Dir(d0, g), m) == Some(k) && !IsDirectory(Dir(d0, g)[k]) then Some(data)
              else FileAt(d0, g, chains, m)
  {
    forall m: CString
      ensures FileAt(Rewritten(d0, d2, g, k, given, |data|), g, chains[k := given], m) ==
              if Lookup(Dir(d0, g), m) == Some(k) && !IsDirectory(Dir(d0, g)[k]) then Some(data)
              else FileAt(d0, g, chains, m)
    {
      RewrittenFiles(d0, d1, d2, g, chains, owner, k, given, data, m);
    }
  }

  lemma OverwriteDir(d0: Disk, d1: Disk, d2: Disk, g: Geometry, chains: seq<seq<nat>>, owner: Owners, k: nat,
                     given: seq<nat>, data: seq<byte>)
    requires Rewriting(d0, d1, d2, g, chains, owner, k, given, data, |data|)
    ensures var d3 := Rewritten(d0, d2, g, k, given, |data|);
            && LayoutOk(g, |d3|)
            && Dir(d3, g) == Dir(d0, g)[k := WithFile(Dir(d0, g)[k], ClusterLo(Dir(d3, g)[k]), |data|)]
            && forall m: CString :: Lookup(Dir(d3, g), m) == Lookup(Dir(d0, g), m)
  {
    RewrittenDir(d0, d1, d2, g, chains, owner, k, given, data);
    WithFileFields(Dir(d0, g)[k], if given == [] then 0 else given[0], |data|);
  }

  lemma OverwriteDone(d0: Disk, d1: Disk, d2: Disk, g: Geometry, chains: seq<seq<nat>>, owner: Owners, k: nat,
                      given: seq<nat>, data: seq<byte>, d3: Disk, chains3: seq<seq<nat>>, owner3: Owners)
    requires Rewriting(d0, d1, d2, g, chains, owner, k, given, data, |data|)
    requires LayoutOk(g, |d2|) && (given != [] ==> given[0] < 0x1_0000)
    requires d3 == Rewritten(d0, d2, g, k, given, |data|)
    requires chains3 == chains[k := given] && owner3 == Reassign(owner, k, given)
    ensures Replaced(d0, d3, g, chains, chains3, owner3, k, data)
  {
    OverwriteFits(d0, d1, d2, g, chains, owner, k, given, data);
    OverwriteDir(d0, d1, d2, g, chains, owner, k, given, data);
    OverwriteFiles(d0, d1, d2, g, chains, owner, k, given, data);
    RewrittenWellFormed(d0, d1, d2, g, chains, owner, k, given, data);
  }

  lemma OverwriteFailed(d0: Disk, d1: Disk, d2: Disk, g: Geometry, chains: seq<seq<nat>>, owner: Owners, k: nat,
                        given: seq<nat>, data: seq<byte>, n: nat)
    requires Rewriting(d0, d1, d2, g, chains, owner, k, given, data, n) && n < |data| && IsFirstFree(Fat(d2, g), 0)
    ensures ClustersFor(|data|, g.spc) > |chains[k]| + CountFree(Fat(d0, g))
    ensures RanFull(d0, d2, g, chains, k)
  {
    assert ClustersFor(|data|, g.spc) > |chains[k]| + CountFree(Fat(d0, g)) && CountFree(Fat(d2, g)) == 0 by {
      FreedFat(d0, d1, g, chains, owner, k);
      StoringExactly(d1, d2, g, given, data, n);
    }
    assert |d2| == |d0| && Dir(d2, g) == Dir(d0, g) by {
      RewritingOutside(d0, d1, d2, g, chains, owner, k, given, data, n);
    }
    FullDiskExactly(d0, d1, d2, g, chains, owner, k, given, data, n);
    forall m: CString | Lookup(Dir(d0, g), m) != Some(k)
      ensures FileAt(d2, g, chains, m) == FileAt(d0, g, chains, m)
    {
      FullDiskFiles(d0, d1, d2, g, chains, owner, k, given, data, n, m);
    }
    forall l | 0 <= l < |chains| && l != k && Live(Dir(d0, g)[l]) && !IsDirectory(Dir(d0, g)[l])
      ensures Readable(d2, g, l, chains[l])
    {
      OthersReadable(d0, d1, d2, g, chains, owner, k, given, data, n, l);
    }
  }

  /** Both outcomes, with the disk and the ghost state that updating the entry leads to. */
  lemma StoredDone(ok: bool, first: u16, d0: Disk, d1: Disk, d2: Disk, g: Geometry, chains: seq<seq<nat>>,
                   owner: Owners, k: nat, given: seq<nat>, data: seq<byte>, n: nat)
    returns (d3: Disk, chains3: seq<seq<nat>>, owner3: Owners)
    requires Rewriting(d0, d1, d2, g, chains, owner, k, given, data, n)
    requires if ok then n == |data| else n < |data| && IsFirstFree(Fat(d2, g), 0)
    requires first == if given == [] then 0 else given[0]
    ensures |d2| == |d0| && d3 == SetSlot(d2, g, k, WithFile(Dir(d2, g)[k], first, |data|))
    ensures ok <==> ClustersFor(|data|, g.spc) <= |chains[k]| + CountFree(Fat(d0, g))
    ensures ok ==> |data| <= MAX_FILE && Replaced(d0, d3, g, chains, chains3, owner3, k, data)
    ensures !ok ==> RanFull(d0, d2, g, chains, k)
  {
    StoredOutside(d0, d1, d2, g, chains, owner, k, given, data, n);
    d3, chains3, owner3 := Rewritten(d0, d2, g, k, given, |data|), chains[k := given], Reassign(owner, k, given);
    if ok {
      OverwriteFits(d0, d1, d2, g, chains, owner, k, given, data);
      OverwriteDone(d0, d1, d2, g, chains, owner, k, given, data, d3, chains3, owner3);
    } else {
      OverwriteFailed(d0, d1, d2, g, chains, owner, k, given, data, n);
    }
  }

  lemma OthersReadable(d0: Disk, d1: Disk, d2: Disk, g: Geometry, chains: seq<seq<nat>>, owner: Owners, k: nat,
                       given: seq<nat>, data: seq<byte>, n: nat, l: nat)
    requires Rewriting(d0, d1, d2, g, chains, owner, k, given, data, n) && l < |chains| && l != k
    requires Live(Dir(d0, g)[l]) && !IsDirectory(Dir(d0, g)[l])
    ensures Readable(d2, g, l, chains[l])
  {
    RewritingOutside(d0, d1, d2, g, chains, owner, k, given, data, n);
    OthersSurvive(d0, d1, d2, g, chains, owner, k, given, data, n, l);
    ClustersForExactly(FileSize(Dir(d0, g)[l]), g.spc, |chains[l]|);
  }

  lemma CreateDone(d: Disk, g: Geometry, chains: seq<seq<nat>>, owner: Owners, k: nat, name: CString)
    requires WellFormed(d, g, chains, owner) && IsFirstUnused(Dir(d, g), k) && Lookup(Dir(d, g), name) == None
    ensures Created(d, SetSlot(d, g, k, NewEntry(name)), g, chains, k, name)
  {
    var d2 := SetSlot(d, g, k, NewEntry(name));
    SetSlotEffect(d, g, k, NewEntry(name));
    CreateLookups(Dir(d, g), k, name, name);
    forall m: CString
      ensures Fits83(name) && Upper(m) != Upper(name) ==> Lookup(Dir(d2, g), m) == Lookup(Dir(d, g), m)
    {
      CreateLookups(Dir(d, g), k, name, m);
    }
    forall m: CString
      ensures FileAt(d2, g, chains, m) ==
              if Lookup(Dir(d2, g), m) == Some(k) then Some([]) else FileAt(d, g, chains, m)
    {
      CreateFiles(d, g, chains, owner, k, name, m);
      NewEntryFields(name);
      FindAfterCreate(Dir(d, g), k, NewEntry(name), m, 0);
    }
    if UniqueNames(Dir(d, g)) {
      CreateUnique(Dir(d, g), k, name);
    }
  }

  lemma TimesTwo(m: nat)
    ensures Times(0, m) == 0 && Times(1, m) == m && Times(2, m) == 2 * m
  {
    assert Times(1, m) == Times(0, m) + m && Times(2, m) == Times(1, m) + m;
  }
}
