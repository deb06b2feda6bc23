/** Inputs on which src/fs/fat16.c breaks what it is meant to keep; the exact conditions stand beside the properties. */
module Fat16Failures {
  import opened Bytes
  import opened Fat16Names
  import opened Fat16Chains
  import opened Fat16Volume
  import opened Fat16Files
  import opened Fat16Format
  import opened Fat16Driver
  import opened Fat16Model
  import opened Fat16Runs

  /** A freshly formatted disk of an accepted size. */
  method FreshDisk(v: Fat16, volume: Option<CString>)
    requires v.Buffers() && v.present && Formattable(|v.disk|)
    modifies v, v.sectorBuffer
    ensures v.Sound() && v.mounted && v.fs == FormatGeometry(|old(v.disk)|)
    ensures Represents(v.disk, v.fs, v.chains, Empty(|old(v.disk)|, volume)) && InOrder(Dir(v.disk, v.fs))
  {
    FormattableExactly(|v.disk|);
    var ok := FormatAndMount(v, volume);
  }

  /** A freshly formatted disk with one new file. */
  method OneEmptyFile(v: Fat16, volume: Option<CString>, name: CString) returns (ghost k: nat)
    requires v.Buffers() && v.present && Formattable(|v.disk|) && Findable(name)
    modifies v, v.sectorBuffer
    ensures v.Sound() && v.mounted && v.fs == FormatGeometry(|old(v.disk)|)
    ensures k < |v.chains| && Lookup(Dir(v.disk, v.fs), name) == Some(k)
    ensures v.chains[k] == [] && CountFree(Fat(v.disk, v.fs)) == v.fs.clusters
  {
    FreshDisk(v, volume);
    ghost var empty := Empty(|old(v.disk)|, volume);
    var r := StepCreate(v, name, empty);
    FirstFile(empty, name, v.fs.spc);
    k := EmptyFile(v.disk, v.fs, v.chains, v.owner, Apply(empty, Create(name), v.fs.spc).volume, name);
  }

  /** The first file of a volume. */
  lemma FirstFile(empty: Volume, name: CString, spc: nat)
    requires empty.files == map[] && empty.slots > 0 && Findable(name) && spc >= 1
    ensures var one := Apply(empty, Create(name), spc).volume;
            Upper(name) in one.files && one.files[Upper(name)] == [] && one.clusters == empty.clusters
  {
    FittingKey(name);
  }

  /** An empty file has no clusters. */
  lemma EmptyFile(d: Disk, g: Geometry, chains: seq<seq<nat>>, owner: Owners, one: Volume, name: CString)
    returns (k: nat)
    requires WellFormed(d, g, chains, owner) && Represents(d, g, chains, one)
    requires Upper(name) in one.files && one.files[Upper(name)] == []
    ensures k < |chains| && Lookup(Dir(d, g), name) == Some(k)
    ensures chains[k] == [] && CountFree(Fat(d, g)) == one.clusters
  {
    FoundIsFile(d, g, chains, owner, one, name);
    k := Lookup(Dir(d, g), name).value;
    assert ClustersFor(0, g.spc) == 0;
  }

  /** Writing more than the volume holds to a file without clusters. */
  method Overfill(v: Fat16, name: CString, ghost k: nat) returns (r: int)
    requires v.Sound() && v.mounted && v.fs.spc == 4 && v.fs.clusters > 0
    requires k < |v.chains| && Lookup(Dir(v.disk, v.fs), name) == Some(k)
    requires v.chains[k] == [] && CountFree(Fat(v.disk, v.fs)) == v.fs.clusters
    modifies v`disk, v`cacheSector, v`chains, v`owner, v.sectorBuffer, v.fatCache
    ensures r == -1 && v.Ready() && !exists c, o :: WellFormed(v.disk, v.fs, c, o)
  {
    var data: seq<byte> := seq(2048 * (v.fs.clusters + 1), _ => 0);
    TooMuch(|data|, v.fs.clusters);
    r := v.WriteFile(name, data);
  }

  /** A freshly formatted disk, one new file, and a write of more than the volume holds: afterwards no assignment of
      chains to slots makes the volume well-formed. The new file had no cluster and there were free ones
      (src/fs/fat16.c:434-437). */
  method FullDiskBreaks(v: Fat16, volume: Option<CString>) returns (r: int)
    requires v.Buffers() && v.present && Formattable(|v.disk|)
    modifies v, v.sectorBuffer, v.fatCache
    ensures r == -1 && v.Ready() && !exists c, o :: WellFormed(v.disk, v.fs, c, o)
  {
    var name: CString := [0x41];
    ShortName(name);
    FormatLayout(|v.disk|);
    ghost var k := OneEmptyFile(v, volume, name);
    r := Overfill(v, name, k);
  }

  lemma ShortName(name: CString)
    requires name == [0x41]
    ensures Findable(name)
  {
  }

  lemma {:induction false} TooMuch(size: nat, clusters: nat)
    requires size == 2048 * (clusters + 1)
    ensures ClustersFor(size, 4) == clusters + 1
  {
    if clusters > 0 {
      TooMuch(size - 2048, clusters - 1);
    }
  }

  /** Nine letters and their first eight. */
  function NineLetters(): CString {
    seq(9, _ => 0x41)
  }

  /** If a name of eight letters is in the directory, the nine-letter name is not found and yet stored under the same
      text (src/fs/fat16.c:123-148, 346-383). */
  lemma LongNameDuplicates(dir: seq<Entry>, k: nat)
    requires Terminated(dir) && IsFirstUnused(dir, k) && UniqueNames(dir)
    requires Lookup(dir, NineLetters()) == None && Lookup(dir, NineLetters()[..8]).Some?
    ensures !UniqueNames(dir[k := NewEntry(NineLetters())])
  {
    LongNamesCollide();
    NewEntryFields(NineLetters());
    LookupCase(dir, EntryText(To83(NineLetters())), NineLetters()[..8], 0);
    UpperFacts(NineLetters()[..8]);
    CreateUnique(dir, k, NineLetters());
  }

  /** Such a directory on a volume: a formatted disk of any accepted size on which both names have been created. */
  method DuplicatePossible(v: Fat16, volume: Option<CString>) returns (r: int)
    requires v.Buffers() && v.present && Formattable(|v.disk|)
    modifies v, v.sectorBuffer
    ensures r == 0 && v.Sound() && v.mounted && !UniqueNames(Dir(v.disk, v.fs))
  {
    FreshDisk(v, volume);
    ghost var empty := Empty(|old(v.disk)|, volume);
    var nine := NineLetters();
    var eight: CString := nine[..8];
    ghost var one := BothStored(empty, nine, eight, v.fs.spc);
    var _ := StepCreate(v, eight, empty);
    r := StepCreate(v, nine, one);
  }

  lemma BothStored(v: Volume, nine: CString, eight: CString, spc: nat) returns (v2: Volume)
    requires nine == NineLetters() && eight == nine[..8]
    requires v.files == map[] && v.slots > 1 && v.unique && spc >= 1
    ensures Apply(v, Create(eight), spc) == Done(v2, 0)
    ensures var e := Apply(v2, Create(nine), spc); e.Done? && e.r == 0 && !e.volume.unique
  {
    SameKey(nine);
    v2 := Apply(v, Create(eight), spc).volume;
  }

  /** The two names are different, and both are stored as the first of them. */
  lemma SameKey(nine: CString)
    requires nine == NineLetters()
    ensures !LooksDeleted(nine) && !LooksDeleted(nine[..8])
    ensures Key(nine) == Key(nine[..8]) == Upper(nine[..8]) && Upper(nine) != Upper(nine[..8])
  {
    LongNamesCollide();
    FitsEight(nine[..8]);
    FittingKey(nine[..8]);
    UpperFacts(nine);
    UpperFacts(nine[..8]);
  }

  lemma FitsEight(eight: CString)
    requires eight == seq(8, _ => 0x41)
    ensures Fits83(eight)
  {
    BeforeIsAll(eight, DOT);
  }

  /** A signed boot sector of 512-byte sectors that claims zero sectors per cluster. */
  function ZeroClusterBoot(): Sector {
    seq(11, _ => 0) + [0x00, 0x02, 0x00] + seq(496, _ => 0) + [0x55, 0xAA]
  }

  /** It makes a mount divide by zero (src/fs/fat16.c:185-199). */
  method MountDivides(v: Fat16) returns (r: MountOutcome)
    requires v.Buffers() && v.present && |v.disk| > 0 && v.disk[0] == ZeroClusterBoot()
    modifies v`mounted, v`fs, v`cacheSector, v`chains, v`owner, v.sectorBuffer
    ensures r == DivideError
  {
    r := v.Mount();
  }
}
