/** What a FAT16 volume is to its user: a map from names to contents, with so much room left. */
module Fat16Model {
  import opened Bytes
  import opened Fat16Names
  import opened Fat16Chains
  import opened Fat16Volume
  import opened Fat16Files
  import opened Fat16Driver

  type Files = map<seq<byte>, seq<byte>>

  /** The files by upper-cased name, the free clusters and the unused directory slots; unique tells whether no two
      directory entries carry the same name. */
  datatype Volume = Volume(files: Files, clusters: nat, slots: nat, unique: bool)

  datatype Op = Create(name: CString) | Write(name: CString, data: seq<byte>)

  /** What an operation returns, and the volume after it; a write that finds no space is the end. */
  datatype Effect = Done(volume: Volume, r: int) | NoSpace

  function Find(files: Files, name: CString): Option<seq<byte>> {
    if Upper(name) in files then Some(files[Upper(name)]) else None
  }

  /** The name under which a new file is found: the stored text, which longer names share with their first letters. */
  function Key(name: CString): seq<byte> {
    Upper(EntryText(To83(name)))
  }

  /** The first character is the one that marks a deleted entry. */
  predicate LooksDeleted(name: CString) {
    name != [] && name[0] == 0xE5
  }

  /** Creating fails if the name exists or no slot is unused; an entry that looks deleted is no file, and one whose
      stored text is a name already there is never found. Writing fails if the name does not exist; it needs the
      clusters of the old contents and the free ones to suffice for the new ones. */
  function Apply(v: Volume, op: Op, spc: nat): Effect
    requires spc >= 1
  {
    match op
    case Create(name) =>
      if Upper(name) in v.files || v.slots == 0 then Done(v, -1)
      else if LooksDeleted(name) then Done(v, 0)
      else if Key(name) in v.files then Done(v.(slots := v.slots - 1, unique := false), 0)
      else Done(v.(files := v.files[Key(name) := []], slots := v.slots - 1), 0)
    case Write(name, data) =>
      if Upper(name) !in v.files then Done(v, -1)
      else
        var had, needs := ClustersFor(|v.files[Upper(name)]|, spc), ClustersFor(|data|, spc);
        if needs <= had + v.clusters
        then Done(v.(files := v.files[Upper(name) := data], clusters := v.clusters + had - needs), ToInt32(|data|))
        else NoSpace
  }

  /** What a run of operations returns and leaves behind, up to the first write that finds no space. */
  datatype Outcome = Outcome(volume: Volume, results: seq<int>, full: bool)

  function Replay(v: Volume, ops: seq<Op>, spc: nat): (o: Outcome)
    requires spc >= 1
    ensures |o.results| <= |ops| && (if o.full then |o.results| < |ops| else |o.results| == |ops|)
  {
    if ops == [] then Outcome(v, [], false) else
      var o := Replay(v, ops[..|ops| - 1], spc);
      if o.full then o else
        match Apply(o.volume, ops[|ops| - 1], spc)
        case Done(v2, r) => Outcome(v2, o.results + [r], false)
        case NoSpace => o.(full := true)
  }

  /** An operation returns -1, or 0 for a create and the number of bytes for a write, as a 32-bit int. */
  ghost predicate Returned(ops: seq<Op>, results: seq<int>) {
    && |results| <= |ops|
    && forall i :: 0 <= i < |results| && results[i] != -1 ==>
        match ops[i]
        case Create(_) => results[i] == 0
        case Write(_, data) =>
          && (|data| < 0x8000_0000 ==> results[i] == |data|)
          && (0x8000_0000 <= |data| < 0x1_0000_0000 ==> results[i] == |data| - 0x1_0000_0000)
  }

  /** A write returns the number of bytes as a signed 32-bit number. */
  lemma {:induction false} ReplayResults(v: Volume, ops: seq<Op>, spc: nat)
    requires spc >= 1
    ensures Returned(ops, Replay(v, ops, spc).results)
  {
    if ops != [] {
      ReplayResults(v, ops[..|ops| - 1], spc);
    }
  }

  /** Once a run has met a write that finds no space, what follows does not matter. */
  lemma {:induction false} ReplayFull(v: Volume, ops: seq<Op>, n: nat, spc: nat)
    requires spc >= 1 && n <= |ops| && Replay(v, ops[..n], spc).full
    ensures Replay(v, ops, spc) == Replay(v, ops[..n], spc)
    decreases |ops| - n
  {
    if n == |ops| {
      assert ops[..n] == ops;
    } else {
      assert ops[..n + 1][..n] == ops[..n];
      ReplayFull(v, ops, n + 1, spc);
    }
  }

  /** How many of the first n slots are unused. */
  function UnusedUpTo(dir: seq<Entry>, n: nat): nat
    requires n <= |dir|
  {
    if n == 0 then 0 else UnusedUpTo(dir, n - 1) + if IsUnused(dir[n - 1]) then 1 else 0
  }

  function CountUnused(dir: seq<Entry>): nat {
    UnusedUpTo(dir, |dir|)
  }

  lemma {:induction false} UnusedUpdate(dir: seq<Entry>, n: nat, k: nat, e: Entry)
    requires n <= |dir| && k < |dir|
    ensures UnusedUpTo(dir[k := e], n) + (if k < n && IsUnused(dir[k]) then 1 else 0) ==
            UnusedUpTo(dir, n) + (if k < n && IsUnused(e) then 1 else 0)
  {
    if n > 0 {
      UnusedUpdate(dir, n - 1, k, e);
    }
  }

  /** Some slot is unused exactly if they are counted. */
  lemma {:induction false} UnusedSome(dir: seq<Entry>, n: nat)
    requires n <= |dir|
    ensures UnusedUpTo(dir, n) > 0 <==> !NoneUnused(dir, n)
  {
    if n > 0 {
      UnusedSome(dir, n - 1);
    }
  }

  ghost predicate NoDirectories(dir: seq<Entry>) {
    forall k :: 0 <= k < |dir| && Live(dir[k]) ==> !IsDirectory(dir[k])
  }

  /** No file stands behind an unused slot, so a new one comes behind all others. */
  ghost predicate InOrder(dir: seq<Entry>) {
    forall i, j :: 0 <= i < j < |dir| && Live(dir[j]) ==> !IsUnused(dir[i])
  }

  /** The directory holds files only, and the room is what v says. */
  ghost predicate HasRoom(dir: seq<Entry>, free: nat, v: Volume) {
    NoDirectories(dir) && free == v.clusters && CountUnused(dir) == v.slots && (v.unique <==> UniqueNames(dir))
  }

  /** The disk holds the files and has the room that v says. */
  ghost predicate Represents(d: Disk, g: Geometry, chains: seq<seq<nat>>, v: Volume) {
    && LayoutOk(g, |d|) && |chains| == 16 * g.rootSectors
    && HasRoom(Dir(d, g), CountFree(Fat(d, g)), v)
    && forall m: CString :: FileAt(d, g, chains, m) == Find(v.files, m)
  }

  /** Lookups see names up to case, and two names found in the same slot are equal up to case. */
  lemma {:induction false} LookupCase(dir: seq<Entry>, a: CString, b: CString, from: nat)
    requires from <= |dir|
    ensures Upper(a) == Upper(b) ==> FindFrom(dir, a, from) == FindFrom(dir, b, from)
    ensures FindFrom(dir, a, from).Some? && FindFrom(dir, a, from) == FindFrom(dir, b, from) ==> Upper(a) == Upper(b)
    decreases |dir| - from
  {
    if from < |dir| {
      LookupCase(dir, a, b, from + 1);
    }
  }

  /** On a well-formed volume a name leads to a slot exactly if there is such a file, and the slot has as many clusters
      as the file needs. */
  lemma FoundIsFile(d: Disk, g: Geometry, chains: seq<seq<nat>>, owner: Owners, v: Volume, name: CString)
    requires WellFormed(d, g, chains, owner) && Represents(d, g, chains, v)
    ensures Lookup(Dir(d, g), name).Some? <==> Upper(name) in v.files
    ensures Upper(name) in v.files ==>
              |chains[Lookup(Dir(d, g), name).value]| == ClustersFor(|v.files[Upper(name)]|, g.spc)
  {
    var found := Lookup(Dir(d, g), name);
    assert FileAt(d, g, chains, name) == Find(v.files, name);
    if found.Some? {
      ChainInData(d, g, chains, owner, found.value);
      FoundLength(d, g, chains, owner, found.value, name);
    }
  }

  lemma FoundLength(d: Disk, g: Geometry, chains: seq<seq<nat>>, owner: Owners, k: nat, name: CString)
    requires WellFormed(d, g, chains, owner) && Lookup(Dir(d, g), name) == Some(k) && NoDirectories(Dir(d, g))
    ensures InData(g, chains[k]) && |chains[k]| == ClustersFor(|SlotBytes(d, g, k, chains[k])|, g.spc)
  {
    FindFromExactly(Dir(d, g), name, 0, k);
    ChainInData(d, g, chains, owner, k);
    WellFormedReadable(d, g, chains, owner, k);
    assert SlotOk(Fat(d, g), Dir(d, g)[k], chains[k], g.spc);
  }

  /** An entry with the same name and attributes changes nothing about the names and the room. */
  lemma SameNames(dir: seq<Entry>, k: nat, e: Entry)
    requires k < |dir| && e[..12] == dir[k][..12]
    ensures UniqueNames(dir) <==> UniqueNames(dir[k := e])
    ensures InOrder(dir) ==> InOrder(dir[k := e])
    ensures NoDirectories(dir) ==> NoDirectories(dir[k := e])
    ensures CountUnused(dir[k := e]) == CountUnused(dir)
  {
    SameHead(dir[k], e);
    var dir2 := dir[k := e];
    assert forall i :: 0 <= i < |dir| ==> Live(dir2[i]) == Live(dir[i]) && EntryText(dir2[i]) == EntryText(dir[i]);
    UnusedUpdate(dir, |dir|, k, e);
  }

  lemma SameRoom(dir: seq<Entry>, dir2: seq<Entry>, k: nat, first: u16, size: nat, v: Volume, v2: Volume)
    requires k < |dir| && dir2 == dir[k := WithFile(dir[k], first, size)] && HasRoom(dir, v.clusters, v)
    requires v2.slots == v.slots && v2.unique == v.unique
    ensures HasRoom(dir2, v2.clusters, v2) && (InOrder(dir) ==> InOrder(dir2))
  {
    WithFileFields(dir[k], first, size);
    SameNames(dir, k, WithFile(dir[k], first, size));
  }

  lemma WriteFound(d0: Disk, d: Disk, g: Geometry, chains: seq<seq<nat>>, chains2: seq<seq<nat>>, owner2: Owners,
                   k: nat, name: CString, data: seq<byte>, v: Volume, files: Files)
    requires Represents(d0, g, chains, v) && Lookup(Dir(d0, g), name) == Some(k)
    requires Replaced(d0, d, g, chains, chains2, owner2, k, data) && files == v.files[Upper(name) := data]
    ensures forall m: CString :: FileAt(d, g, chains2, m) == Find(files, m)
  {
    forall m: CString
      ensures FileAt(d, g, chains2, m) == Find(files, m)
    {
      LookupCase(Dir(d0, g), name, m, 0);
      assert FileAt(d0, g, chains, m) == Find(v.files, m);
    }
  }

  lemma WriteRoom(d0: Disk, d: Disk, g: Geometry, chains: seq<seq<nat>>, chains2: seq<seq<nat>>, owner2: Owners,
                  k: nat, data: seq<byte>, v: Volume, v2: Volume)
    requires Represents(d0, g, chains, v) && k < |chains|
    requires Replaced(d0, d, g, chains, chains2, owner2, k, data)
    requires v2.clusters + ClustersFor(|data|, g.spc) == v.clusters + |chains[k]|
    requires v2.slots == v.slots && v2.unique == v.unique
    ensures HasRoom(Dir(d, g), CountFree(Fat(d, g)), v2)
    ensures InOrder(Dir(d0, g)) ==> InOrder(Dir(d, g))
  {
    var dir0, dir := Dir(d0, g), Dir(d, g);
    assert CountFree(Fat(d, g)) == v2.clusters;
    SameRoom(dir0, dir, k, ClusterLo(dir[k]), |data|, v, v2);
  }

  lemma WrittenRepresents(d0: Disk, d: Disk, g: Geometry, chains: seq<seq<nat>>, chains2: seq<seq<nat>>,
                          owner2: Owners, k: nat, name: CString, data: seq<byte>, v: Volume, v2: Volume)
    requires Represents(d0, g, chains, v) && Lookup(Dir(d0, g), name) == Some(k)
    requires Replaced(d0, d, g, chains, chains2, owner2, k, data)
    requires v2.clusters + ClustersFor(|data|, g.spc) == v.clusters + |chains[k]|
    requires v2.files == v.files[Upper(name) := data] && v2.slots == v.slots && v2.unique == v.unique
    ensures Represents(d, g, chains2, v2)
    ensures InOrder(Dir(d0, g)) ==> InOrder(Dir(d, g))
  {
    WriteRoom(d0, d, g, chains, chains2, owner2, k, data, v, v2);
    WriteFound(d0, d, g, chains, chains2, owner2, k, name, data, v, v2.files);
  }

  lemma WriteRepresents(d0: Disk, d: Disk, g: Geometry, chains: seq<seq<nat>>, chains2: seq<seq<nat>>, owner2: Owners,
                        k: nat, name: CString, data: seq<byte>, v: Volume)
    requires Represents(d0, g, chains, v) && Lookup(Dir(d0, g), name) == Some(k)
    requires Upper(name) in v.files && |chains[k]| == ClustersFor(|v.files[Upper(name)]|, g.spc)
    requires Replaced(d0, d, g, chains, chains2, owner2, k, data)
    ensures var e := Apply(v, Write(name, data), g.spc);
            e.Done? && e.r == ToInt32(|data|) && Represents(d, g, chains2, e.volume)
    ensures InOrder(Dir(d0, g)) ==> InOrder(Dir(d, g))
  {
    var e := Apply(v, Write(name, data), g.spc);
    assert e.Done?;
    WrittenRepresents(d0, d, g, chains, chains2, owner2, k, name, data, v, e.volume);
  }

  /** A fitting name is stored as it is; so a name that was looked up in vain is not yet in use. */
  lemma FittingKey(name: CString)
    requires Fits83(name)
    ensures Key(name) == Upper(name)
  {
    FittingNameIsKept(name);
    UpperFacts(name);
  }

  /** Names are unique after a create exactly if they were before it and the stored text is new, or is no file's. */
  lemma CreateNames(dir: seq<Entry>, k: nat, name: CString)
    requires Terminated(dir) && IsFirstUnused(dir, k)
    ensures UniqueNames(dir[k := NewEntry(name)]) <==>
            UniqueNames(dir) && (LooksDeleted(name) || Lookup(dir, EntryText(To83(name))) == None)
    ensures InOrder(dir) ==> InOrder(dir[k := NewEntry(name)])
  {
    var dir2 := dir[k := NewEntry(name)];
    NewEntryFields(name);
    if UniqueNames(dir) {
      CreateUnique(dir, k, name);
    } else {
      var i, j :| 0 <= i < j < |dir| && Live(dir[i]) && Live(dir[j]) &&
                  Upper(EntryText(dir[i])) == Upper(EntryText(dir[j]));
      assert Live(dir2[i]) && Live(dir2[j]) && Upper(EntryText(dir2[i])) == Upper(EntryText(dir2[j]));
    }
  }

  /** Where a name is found after a create: in the new slot if it is the stored text and was not found before. */
  lemma CreatedLookup(dir: seq<Entry>, k: nat, name: CString, m: CString)
    requires Terminated(dir) && IsFirstUnused(dir, k)
    requires InOrder(dir) || (Findable(name) && Lookup(dir, name) == None)
    ensures Lookup(dir, m) != Some(k)
    ensures Lookup(dir[k := NewEntry(name)], m) ==
            if !LooksDeleted(name) && Key(name) == Upper(m) && Lookup(dir, m) == None then Some(k) else Lookup(dir, m)
  {
    NewEntryFields(name);
    FindAfterCreate(dir, k, NewEntry(name), m, 0);
    if InOrder(dir) {
      assert Lookup(dir, m).Some? ==> Lookup(dir, m).value < k;
    } else {
      FittingKey(name);
      LookupCase(dir, name, m, 0);
    }
  }

  /** What a name finds after a create. */
  lemma CreateFound(d0: Disk, d: Disk, g: Geometry, chains: seq<seq<nat>>, owner: Owners, k: nat, name: CString,
                    v: Volume, m: CString)
    requires WellFormed(d0, g, chains, owner) && Represents(d0, g, chains, v) && k < |chains|
    requires InOrder(Dir(d0, g)) || (Findable(name) && Lookup(Dir(d0, g), name) == None)
    requires IsFirstUnused(Dir(d0, g), k) && LayoutOk(g, |d|) && Created(d0, d, g, chains, k, name)
    ensures FileAt(d, g, chains, m) ==
            if !LooksDeleted(name) && Key(name) == Upper(m) && Key(name) !in v.files then Some([])
            else Find(v.files, m)
  {
    CreatedLookup(Dir(d0, g), k, name, m);
    FoundIsFile(d0, g, chains, owner, v, m);
    assert FileAt(d0, g, chains, m) == Find(v.files, m);
  }

  lemma CreateAllFound(d0: Disk, d: Disk, g: Geometry, chains: seq<seq<nat>>, owner: Owners, k: nat, name: CString,
                       v: Volume, files: Files)
    requires WellFormed(d0, g, chains, owner) && Represents(d0, g, chains, v) && k < |chains|
    requires InOrder(Dir(d0, g)) || (Findable(name) && Lookup(Dir(d0, g), name) == None)
    requires IsFirstUnused(Dir(d0, g), k) && LayoutOk(g, |d|) && Created(d0, d, g, chains, k, name)
    requires files == if LooksDeleted(name) || Key(name) in v.files then v.files else v.files[Key(name) := []]
    ensures forall m: CString :: FileAt(d, g, chains, m) == Find(files, m)
  {
    forall m: CString
      ensures FileAt(d, g, chains, m) == Find(files, m)
    {
      CreateFound(d0, d, g, chains, owner, k, name, v, m);
    }
  }

  /** The room left after a create. */
  lemma CreateRoom(dir: seq<Entry>, k: nat, name: CString, v: Volume, v2: Volume)
    requires Terminated(dir) && IsFirstUnused(dir, k) && HasRoom(dir, v.clusters, v) && v2.clusters == v.clusters
    requires v2.slots == v.slots - if LooksDeleted(name) then 0 else 1
    requires v2.unique == (v.unique && (LooksDeleted(name) || Lookup(dir, EntryText(To83(name))) == None))
    ensures HasRoom(dir[k := NewEntry(name)], v2.clusters, v2)
    ensures InOrder(dir) ==> InOrder(dir[k := NewEntry(name)])
  {
    NewEntryFields(name);
    UnusedUpdate(dir, |dir|, k, NewEntry(name));
    CreateNames(dir, k, name);
  }

  lemma CreateApplies(v: Volume, name: CString, spc: nat) returns (v2: Volume)
    requires spc >= 1 && Upper(name) !in v.files && v.slots > 0
    ensures Apply(v, Create(name), spc) == Done(v2, 0) && v2.clusters == v.clusters
    ensures v2.slots == v.slots - if LooksDeleted(name) then 0 else 1
    ensures v2.unique == (v.unique && (LooksDeleted(name) || Key(name) !in v.files))
    ensures v2.files == if LooksDeleted(name) || Key(name) in v.files then v.files else v.files[Key(name) := []]
  {
    v2 := Apply(v, Create(name), spc).volume;
  }

  lemma CreateRepresents(d0: Disk, d: Disk, g: Geometry, chains: seq<seq<nat>>, owner: Owners, k: nat, name: CString,
                         v: Volume)
    requires WellFormed(d0, g, chains, owner) && Represents(d0, g, chains, v) && k < |chains|
    requires Findable(name) || InOrder(Dir(d0, g))
    requires Upper(name) !in v.files && IsFirstUnused(Dir(d0, g), k)
    requires LayoutOk(g, |d|) && Created(d0, d, g, chains, k, name)
    ensures var e := Apply(v, Create(name), g.spc); e.Done? && e.r == 0 && Represents(d, g, chains, e.volume)
    ensures InOrder(Dir(d0, g)) ==> InOrder(Dir(d, g))
  {
    UnusedSome(Dir(d0, g), |Dir(d0, g)|);
    FoundIsFile(d0, g, chains, owner, v, name);
    FoundIsFile(d0, g, chains, owner, v, EntryText(To83(name)));
    var v2 := CreateApplies(v, name, g.spc);
    CreateRoom(Dir(d0, g), k, name, v, v2);
    CreateAllFound(d0, d, g, chains, owner, k, name, v, v2.files);
  }

  lemma FullRepresents(d0: Disk, d: Disk, g: Geometry, chains: seq<seq<nat>>, k: nat, name: CString, data: seq<byte>,
                       v: Volume)
    requires Represents(d0, g, chains, v) && Lookup(Dir(d0, g), name) == Some(k)
    requires Upper(name) in v.files && |chains[k]| == ClustersFor(|v.files[Upper(name)]|, g.spc)
    requires ClustersFor(|data|, g.spc) > |chains[k]| + CountFree(Fat(d0, g)) && RanFull(d0, d, g, chains, k)
    ensures Apply(v, Write(name, data), g.spc) == NoSpace
    ensures forall m: CString :: Upper(m) != Upper(name) ==> FileAt(d, g, chains, m) == Find(v.files, m)
  {
    forall m: CString | Upper(m) != Upper(name)
      ensures FileAt(d, g, chains, m) == Find(v.files, m)
    {
      LookupCase(Dir(d0, g), name, m, 0);
      assert FileAt(d0, g, chains, m) == Find(v.files, m);
    }
  }
}
