/** Whole runs of the FAT16 driver: the disk behaves like a map from names to contents, of exactly known size. */
module Fat16Runs {
  import opened Bytes
  import opened Fat16Names
  import opened Fat16Chains
  import opened Fat16Volume
  import opened Fat16Files
  import opened Fat16Format
  import opened Fat16Driver
  import opened Fat16Model

  /** The unused directory slots of a formatted volume: the label may take one. */
  function FormatSlots(volume: Option<CString>): nat {
    if volume == None || IsUnused(LabelEntry(volume.value)) then 512 else 511
  }

  /** A formatted volume: no file, every cluster free. */
  function Empty(total: u32, volume: Option<CString>): Volume
    requires Formattable(total)
  {
    Volume(map[], FormatGeometry(total).clusters, FormatSlots(volume), true)
  }

  lemma {:induction false} FormattedUnused(dir: seq<Entry>, n: nat)
    requires 0 < n <= |dir| && forall k :: 0 < k < |dir| ==> First(dir[k]) == 0
    ensures UnusedUpTo(dir, n) == n - 1 + if IsUnused(dir[0]) then 1 else 0
  {
    if n > 1 {
      FormattedUnused(dir, n - 1);
    }
  }

  lemma FormattedRepresents(d0: Disk, d: Disk, volume: Option<CString>)
    requires |d0| < TWO_TO_THE_32 && Formattable(|d0|) && Formatted(d0, d, volume)
    ensures Represents(d, FormatGeometry(|d0|), seq(512, _ => []), Empty(|d0|, volume))
    ensures InOrder(Dir(d, FormatGeometry(|d0|)))
  {
    var g := FormatGeometry(|d0|);
    FormattedMounts(d0, d, volume);
    FormattedWellFormed(d0, d, volume);
    forall k | 0 <= k < 512
      ensures !Live(Dir(d, g)[k]) && (k > 0 ==> First(Dir(d, g)[k]) == 0)
    {
      FormattedSlot(d0, d, volume, k);
    }
    FormattedSlot(d0, d, volume, 0);
    FormattedUnused(Dir(d, g), 512);
  }

  /** Formatting a disk and mounting it gives an empty, well-formed volume with every cluster free. */
  method FormatAndMount(v: Fat16, volume: Option<CString>) returns (ok: bool)
    requires v.Buffers()
    modifies v, v.sectorBuffer
    ensures ok <==> v.present && 16405 <= |old(v.disk)| <= 262646
    ensures ok ==> Formattable(|old(v.disk)|)
    ensures ok ==> v.Sound() && v.mounted && v.fs == FormatGeometry(|old(v.disk)|)
    ensures ok ==> Represents(v.disk, v.fs, v.chains, Empty(|old(v.disk)|, volume)) && InOrder(Dir(v.disk, v.fs))
    ensures ok ==> forall name: CString :: v.FileOf(name) == None
  {
    var r := v.Format(volume);
    if r != 0 {
      return false;
    }
    FormattedMounts(old(v.disk), v.disk, volume);
    FormattedWellFormed(old(v.disk), v.disk, volume);
    FormattedRepresents(old(v.disk), v.disk, volume);
    var m := v.Mount();
    ok := true;
  }

  /** What is written is what is read: every byte of it, and nothing behind the buffer's limit is touched. */
  method WriteThenRead(v: Fat16, name: CString, data: seq<byte>, buffer: array<byte>, maxSize: nat) returns (r: int)
    requires v.Sound() && v.mounted && v.FileOf(name).Some?
    requires maxSize <= buffer.Length && buffer != v.sectorBuffer && buffer != v.fatCache
    modifies v`disk, v`cacheSector, v`chains, v`owner, v.sectorBuffer, v.fatCache, buffer
    ensures var k := Lookup(Dir(old(v.disk), v.fs), name).value;
            if ClustersFor(|data|, v.fs.spc) <= |old(v.chains)[k]| + CountFree(Fat(old(v.disk), v.fs)) then
              var n := Min(|data|, maxSize);
              && r == (if n < 0x8000_0000 then n else n - 0x1_0000_0000)
              && buffer[..n] == data[..n] && buffer[n..] == old(buffer[n..])
            else r == -1
  {
    r := v.WriteFile(name, data);
    if r != -1 {
      ReadableNow(v, name);
      r := v.ReadFile(name, buffer, maxSize);
    }
  }

  /** On a well-formed volume every file can be read. */
  lemma ReadableNow(v: Fat16, name: CString)
    requires v.Sound() && v.mounted
    ensures v.CanRead(name)
  {
    var found := Lookup(Dir(v.disk, v.fs), name);
    if found.Some? && !IsDirectory(Dir(v.disk, v.fs)[found.value]) {
      WellFormedReadable(v.disk, v.fs, v.chains, v.owner, found.value);
    }
  }

  datatype State = State(disk: Disk, chains: seq<seq<nat>>, owner: Owners)

  ghost function StateOf(v: Fat16): State
    reads v
  {
    State(v.disk, v.chains, v.owner)
  }

  ghost predicate Proper(g: Geometry, s: State) {
    WellFormed(s.disk, g, s.chains, s.owner)
  }

  /** Free clusters and chains account for all clusters. */
  ghost predicate Conserved(g: Geometry, s: State)
    requires Proper(g, s)
  {
    CountFree(Fat(s.disk, g)) + TotalLength(s.chains, |s.chains|) == g.clusters
  }

  lemma StateConserves(g: Geometry, s: State)
    requires Proper(g, s)
    ensures Conserved(g, s)
  {
    WellFormedLinks(s.disk, g, s.chains, s.owner);
    Conservation(Fat(s.disk, g), s.chains, s.owner);
  }

  /** So it is after any run that kept the volume well-formed. */
  lemma SoundConserves(v: Fat16)
    requires v.Sound() && v.mounted
    ensures CountFree(Fat(v.disk, v.fs)) + TotalLength(v.chains, |v.chains|) == v.fs.clusters
  {
    StateConserves(v.fs, StateOf(v));
  }

  // ---- Runs ----

  /** After the first n operations the volume is where Replay is, and no write has run out of space. */
  ghost predicate OnTrack(v: Fat16, start: Volume, ops: seq<Op>, n: nat, o: Outcome)
    reads v, v.fatCache
  {
    && v.Sound() && v.mounted && n <= |ops|
    && o == Replay(start, ops[..n], v.fs.spc) && !o.full && Represents(v.disk, v.fs, v.chains, o.volume)
  }

  /** Creates are within the claim: their names will be found again, or they come behind all files. */
  ghost predicate Creatable(dir: seq<Entry>, op: Op) {
    op.Create? ==> Findable(op.name) || InOrder(dir)
  }

  /** A client that runs operations until a write finds no space, on a volume whose files stand in order, or with names
      within the 8.3 limits for its creates. What the operations return and what the volume holds is exactly what Replay
      says. */
  method Run(v: Fat16, ops: seq<Op>, ghost start: Volume) returns (full: bool, results: seq<int>)
    requires v.Sound() && v.mounted && Represents(v.disk, v.fs, v.chains, start)
    requires forall i :: 0 <= i < |ops| ==> Creatable(Dir(v.disk, v.fs), ops[i])
    modifies v`disk, v`cacheSector, v`chains, v`owner, v.sectorBuffer, v.fatCache
    ensures var o := Replay(start, ops, v.fs.spc);
            && full == o.full && results == o.results && v.Ready() && |v.chains| == 16 * v.fs.rootSectors
            && (UniqueNames(Dir(v.disk, v.fs)) <==> o.volume.unique)
            && (!full ==> v.Sound() && Represents(v.disk, v.fs, v.chains, o.volume))
            && (full ==> forall m: CString :: Upper(m) != Upper(ops[|results|].name) ==>
                v.FileOf(m) == Find(o.volume.files, m))
    ensures Returned(ops, results)
  {
    ReplayResults(start, ops, v.fs.spc);
    results, full := [], false;
    ghost var o, dir := Outcome(start, [], false), Dir(v.disk, v.fs);
    while |results| < |ops|
      invariant OnTrack(v, start, ops, |results|, o) && o.results == results
      invariant InOrder(dir) ==> InOrder(Dir(v.disk, v.fs))
    {
      assert Creatable(dir, ops[|results|]);
      var r;
      r, full, o := RunStep(v, ops, |results|, start, o);
      if full {
        return;
      }
      results := results + [r];
    }
    assert ops[..|ops|] == ops;
  }

  /** One more operation of a run, on the volume. */
  method RunStep(v: Fat16, ops: seq<Op>, n: nat, ghost start: Volume, ghost o: Outcome)
    returns (r: int, stop: bool, ghost o2: Outcome)
    requires OnTrack(v, start, ops, n, o) && n < |ops| && Creatable(Dir(v.disk, v.fs), ops[n])
    modifies v`disk, v`cacheSector, v`chains, v`owner, v.sectorBuffer, v.fatCache
    ensures stop ==>
              && o2 == Replay(start, ops, v.fs.spc) && o2.full && o2.results == o.results
              && v.Ready() && |v.chains| == 16 * v.fs.rootSectors
              && (UniqueNames(Dir(v.disk, v.fs)) <==> o2.volume.unique)
              && forall m: CString :: Upper(m) != Upper(ops[n].name) ==> v.FileOf(m) == Find(o2.volume.files, m)
    ensures !stop ==> OnTrack(v, start, ops, n + 1, o2) && o2.results == o.results + [r]
    ensures InOrder(Dir(old(v.disk), v.fs)) ==> InOrder(Dir(v.disk, v.fs))
  {
    ReplayNext(start, ops, n, v.fs.spc, o);
    r, stop := Step(v, ops[n], o.volume);
    o2 := if stop then o.(full := true) else Replay(start, ops[..n + 1], v.fs.spc);
  }

  /** One more operation of a run. */
  lemma ReplayNext(start: Volume, ops: seq<Op>, n: nat, spc: nat, o: Outcome)
    requires spc >= 1 && n < |ops| && o == Replay(start, ops[..n], spc) && !o.full
    ensures match Apply(o.volume, ops[n], spc)
            case Done(next, r) => Replay(start, ops[..n + 1], spc) == Outcome(next, o.results + [r], false)
            case NoSpace => Replay(start, ops, spc) == o.(full := true)
  {
    assert ops[..n + 1][..n] == ops[..n];
    if Apply(o.volume, ops[n], spc).NoSpace? {
      ReplayFull(start, ops, n + 1, spc);
    }
  }

  /** One operation of a run; stop reports a write to an existing file that found no space. */
  method Step(v: Fat16, op: Op, ghost model: Volume) returns (r: int, stop: bool)
    requires v.Sound() && v.mounted && Represents(v.disk, v.fs, v.chains, model)
    requires Creatable(Dir(v.disk, v.fs), op)
    modifies v`disk, v`cacheSector, v`chains, v`owner, v.sectorBuffer, v.fatCache
    ensures v.Ready() && |v.chains| == 16 * v.fs.rootSectors
    ensures match Apply(model, op, v.fs.spc)
            case Done(model2, result) =>
              !stop && r == result && v.Sound() && Represents(v.disk, v.fs, v.chains, model2)
            case NoSpace =>
              && stop && r == -1 && Dir(v.disk, v.fs) == Dir(old(v.disk), v.fs)
              && forall m: CString :: Upper(m) != Upper(op.name) ==> v.FileOf(m) == Find(model.files, m)
    ensures InOrder(Dir(old(v.disk), v.fs)) ==> InOrder(Dir(v.disk, v.fs))
  {
    match op
    case Create(name) =>
      r := StepCreate(v, name, model);
      stop := false;
    case Write(name, data) =>
      r, stop := StepWrite(v, name, data, model);
  }

  /** What a create means to the user. */
  lemma StepCreated(d0: Disk, d: Disk, g: Geometry, chains: seq<seq<nat>>, owner: Owners, slot: nat, name: CString,
                    model: Volume, r: int)
    requires WellFormed(d0, g, chains, owner) && Represents(d0, g, chains, model) && LayoutOk(g, |d|)
    requires Creatable(Dir(d0, g), Create(name))
    requires r == 0 <==> Lookup(Dir(d0, g), name) == None && !NoneUnused(Dir(d0, g), 16 * g.rootSectors)
    requires if r == 0 then IsFirstUnused(Dir(d0, g), slot) && Created(d0, d, g, chains, slot, name)
             else r == -1 && d == d0
    ensures var e := Apply(model, Create(name), g.spc);
            e.Done? && r == e.r && Represents(d, g, chains, e.volume)
    ensures InOrder(Dir(d0, g)) ==> InOrder(Dir(d, g))
  {
    FoundIsFile(d0, g, chains, owner, model, name);
    UnusedSome(Dir(d0, g), 16 * g.rootSectors);
    if r == 0 {
      CreateRepresents(d0, d, g, chains, owner, slot, name, model);
    }
  }

  method StepCreate(v: Fat16, name: CString, ghost model: Volume) returns (r: int)
    requires v.Sound() && v.mounted && Represents(v.disk, v.fs, v.chains, model)
    requires Creatable(Dir(v.disk, v.fs), Create(name))
    modifies v`disk, v.sectorBuffer
    ensures v.Sound()
    ensures var e := Apply(model, Create(name), v.fs.spc);
            e.Done? && r == e.r && Represents(v.disk, v.fs, v.chains, e.volume)
    ensures InOrder(Dir(old(v.disk), v.fs)) ==> InOrder(Dir(v.disk, v.fs))
  {
    ghost var d0, g, chains, owner := v.disk, v.fs, v.chains, v.owner;
    ghost var slot;
    r, slot := v.CreateFile(name);
    StepCreated(d0, v.disk, g, chains, owner, slot, name, model, r);
  }

  /** What a write to an existing file means to the user. */
  lemma StepWritten(d0: Disk, d: Disk, g: Geometry, chains: seq<seq<nat>>, chains2: seq<seq<nat>>, owner: Owners,
                    owner2: Owners, name: CString, data: seq<byte>, model: Volume, r: int)
    requires WellFormed(d0, g, chains, owner) && Represents(d0, g, chains, model)
    requires LayoutOk(g, |d|) && Lookup(Dir(d0, g), name).Some?
    requires var k := Lookup(Dir(d0, g), name).value;
             if ClustersFor(|data|, g.spc) <= |chains[k]| + CountFree(Fat(d0, g))
             then r == ToInt32(|data|) && r != -1 && Replaced(d0, d, g, chains, chains2, owner2, k, data)
             else r == -1 && chains2 == chains && RanFull(d0, d, g, chains, k)
    ensures |chains2| == |chains|
    ensures match Apply(model, Write(name, data), g.spc)
            case Done(model2, result) =>
              r != -1 && r == result && WellFormed(d, g, chains2, owner2) && Represents(d, g, chains2, model2)
            case NoSpace =>
              && r == -1 && Dir(d, g) == Dir(d0, g)
              && forall m: CString :: Upper(m) != Upper(name) ==> FileAt(d, g, chains2, m) == Find(model.files, m)
    ensures InOrder(Dir(d0, g)) ==> InOrder(Dir(d, g))
  {
    FoundIsFile(d0, g, chains, owner, model, name);
    var k := Lookup(Dir(d0, g), name).value;
    if r == -1 {
      FullRepresents(d0, d, g, chains, k, name, data, model);
    } else {
      WriteRepresents(d0, d, g, chains, chains2, owner2, k, name, data, model);
    }
  }

  method StepWrite(v: Fat16, name: CString, data: seq<byte>, ghost model: Volume) returns (r: int, stop: bool)
    requires v.Sound() && v.mounted && Represents(v.disk, v.fs, v.chains, model)
    modifies v`disk, v`cacheSector, v`chains, v`owner, v.sectorBuffer, v.fatCache
    ensures v.Ready() && |v.chains| == 16 * v.fs.rootSectors
    ensures match Apply(model, Write(name, data), v.fs.spc)
            case Done(model2, result) =>
              !stop && r == result && v.Sound() && Represents(v.disk, v.fs, v.chains, model2)
            case NoSpace =>
              && stop && r == -1 && Dir(v.disk, v.fs) == Dir(old(v.disk), v.fs)
              && forall m: CString :: Upper(m) != Upper(name) ==> v.FileOf(m) == Find(model.files, m)
    ensures InOrder(Dir(old(v.disk), v.fs)) ==> InOrder(Dir(v.disk, v.fs))
  {
    ghost var d0, g, chains, owner := v.disk, v.fs, v.chains, v.owner;
    FoundIsFile(d0, g, chains, owner, model, name);
    var status, _ := v.FindFile(name);
    r := v.WriteFile(name, data);
    stop := status == 0 && r == -1;
    if status == 0 {
      assert Lookup(Dir(d0, g), name).value < |chains|;
      StepWritten(d0, v.disk, g, chains, v.chains, owner, v.owner, name, data, model, r);
    }
  }

  // ---- Runs on any volume, with any names ----

  /** An operation that does not run out of space leads from s to t: it fails exactly without a name to write to, or
      without a new name and an unused slot, and then changes nothing. */
  ghost predicate Leads(g: Geometry, s: State, t: State, op: Op, r: int)
    requires Proper(g, s)
  {
    var dir, found := Dir(s.disk, g), Lookup(Dir(s.disk, g), op.name);
    match op
    case Create(name) =>
      if found == None && !NoneUnused(dir, 16 * g.rootSectors)
      then r == 0 && t.chains == s.chains && Makes(g, s, t, name)
      else r == -1 && t == s
    case Write(_, data) =>
      if found == None then r == -1 && t == s
      else
        && ClustersFor(|data|, g.spc) <= |s.chains[found.value]| + CountFree(Fat(s.disk, g))
        && |data| < 0x1_0000_0000 && r == (if |data| < 0x8000_0000 then |data| else |data| - 0x1_0000_0000)
        && Replaced(s.disk, t.disk, g, s.chains, t.chains, t.owner, found.value, data)
  }

  /** A file has been created in the first unused slot. */
  ghost predicate Makes(g: Geometry, s: State, t: State, name: CString)
    requires Proper(g, s)
  {
    exists k: nat :: IsFirstUnused(Dir(s.disk, g), k) && Created(s.disk, t.disk, g, s.chains, k, name)
  }

  /** A write to an existing file finds that its old clusters and the free ones do not suffice. */
  ghost predicate Fills(g: Geometry, s: State, d: Disk, op: Op)
    requires Proper(g, s)
  {
    var found := Lookup(Dir(s.disk, g), op.name);
    && op.Write? && found.Some?
    && ClustersFor(|op.data|, g.spc) > |s.chains[found.value]| + CountFree(Fat(s.disk, g))
    && RanFull(s.disk, d, g, s.chains, found.value)
  }

  ghost predicate Sane(g: Geometry, s: State) {
    Proper(g, s) && Conserved(g, s)
  }

  ghost predicate LeadsAt(g: Geometry, states: seq<State>, ops: seq<Op>, results: seq<int>, i: nat) {
    && i < |ops| && i < |results| && i + 1 < |states|
    && Sane(g, states[i]) && Leads(g, states[i], states[i + 1], ops[i], results[i])
  }

  /** Each operation leads from a well-formed state, with all clusters accounted for, to the next one. */
  ghost predicate History(g: Geometry, states: seq<State>, ops: seq<Op>, results: seq<int>) {
    && |results| <= |ops| && |states| == |results| + 1 && Sane(g, states[|results|])
    && forall i {:trigger LeadsAt(g, states, ops, results, i)} ::
         0 <= i < |results| ==> LeadsAt(g, states, ops, results, i)
  }

  lemma HistoryNext(g: Geometry, states: seq<State>, ops: seq<Op>, results: seq<int>, t: State, r: int)
    requires History(g, states, ops, results) && |results| < |ops| && Proper(g, t)
    requires Leads(g, states[|results|], t, ops[|results|], r)
    ensures History(g, states + [t], ops, results + [r])
  {
    StateConserves(g, t);
    forall i | 0 <= i < |results| + 1
      ensures LeadsAt(g, states + [t], ops, results + [r], i)
    {
      if i < |results| {
        assert LeadsAt(g, states, ops, results, i);
      }
    }
  }

  /** Any operations on any well-formed volume: up to the first write that finds no space each has done and returned
      what it should, and kept the volume well-formed. */
  method AnyRun(v: Fat16, ops: seq<Op>) returns (full: bool, results: seq<int>, ghost states: seq<State>)
    requires v.Sound() && v.mounted
    modifies v`disk, v`cacheSector, v`chains, v`owner, v.sectorBuffer, v.fatCache
    ensures History(v.fs, states, ops, results) && states[0] == old(StateOf(v))
    ensures if full then |results| < |ops| && v.Ready() && Fills(v.fs, states[|results|], v.disk, ops[|results|])
            else |results| == |ops| && v.Sound() && StateOf(v) == states[|results|]
  {
    results, full, states := [], false, [StateOf(v)];
    StateConserves(v.fs, states[0]);
    while |results| < |ops|
      invariant History(v.fs, states, ops, results) && states[0] == old(StateOf(v))
      invariant v.Sound() && v.mounted && StateOf(v) == states[|results|]
    {
      var r;
      r, full := AnyNext(v, ops, results, states);
      if full {
        return;
      }
      states, results := states + [StateOf(v)], results + [r];
    }
  }

  method AnyNext(v: Fat16, ops: seq<Op>, results: seq<int>, ghost states: seq<State>) returns (r: int, stop: bool)
    requires v.Sound() && v.mounted && |results| < |ops|
    requires History(v.fs, states, ops, results) && StateOf(v) == states[|results|]
    modifies v`disk, v`cacheSector, v`chains, v`owner, v.sectorBuffer, v.fatCache
    ensures if stop then v.Ready() && Fills(v.fs, states[|results|], v.disk, ops[|results|])
            else v.Sound() && History(v.fs, states + [StateOf(v)], ops, results + [r])
  {
    r, stop := AnyStep(v, ops[|results|]);
    if !stop {
      HistoryNext(v.fs, states, ops, results, StateOf(v), r);
    }
  }

  method AnyStep(v: Fat16, op: Op) returns (r: int, stop: bool)
    requires v.Sound() && v.mounted
    modifies v`disk, v`cacheSector, v`chains, v`owner, v.sectorBuffer, v.fatCache
    ensures if stop then v.Ready() && Fills(v.fs, old(StateOf(v)), v.disk, op)
            else v.Sound() && Leads(v.fs, old(StateOf(v)), StateOf(v), op, r)
  {
    match op
    case Create(name) =>
      r := AnyCreate(v, name);
      stop := false;
    case Write(name, data) =>
      r, stop := AnyWrite(v, name, data);
  }

  method AnyCreate(v: Fat16, name: CString) returns (r: int)
    requires v.Sound() && v.mounted
    modifies v`disk, v.sectorBuffer
    ensures v.Sound() && Leads(v.fs, old(StateOf(v)), StateOf(v), Create(name), r)
  {
    ghost var slot;
    r, slot := v.CreateFile(name);
  }

  method AnyWrite(v: Fat16, name: CString, data: seq<byte>) returns (r: int, stop: bool)
    requires v.Sound() && v.mounted
    modifies v`disk, v`cacheSector, v`chains, v`owner, v.sectorBuffer, v.fatCache
    ensures if stop then v.Ready() && Fills(v.fs, old(StateOf(v)), v.disk, Write(name, data))
            else v.Sound() && Leads(v.fs, old(StateOf(v)), StateOf(v), Write(name, data), r)
  {
    ghost var s, found := StateOf(v), Lookup(Dir(v.disk, v.fs), name);
    var status, _ := v.FindFile(name);
    assert StateOf(v) == s;
    assert status == 0 <==> found.Some?;
    r := v.WriteFile(name, data);
    stop := status == 0 && r == -1;
  }

  /** Names within the 8.3 limits never make a duplicate. */
  lemma {:induction false} FittingUnique(start: Volume, ops: seq<Op>, spc: nat)
    requires spc >= 1 && forall i :: 0 <= i < |ops| && ops[i].Create? ==> Findable(ops[i].name)
    ensures Replay(start, ops, spc).volume.unique == start.unique
  {
    if ops != [] {
      var op := ops[|ops| - 1];
      FittingUnique(start, ops[..|ops| - 1], spc);
      if op.Create? {
        FittingKey(op.name);
      }
    }
  }

  /** The life of a volume: it is formatted and mounted, and then operations run on it, with any names. They return
      exactly what Replay says of an empty volume of this size, which also says whether two entries carry the same name;
      until a write finds no space the volume stays well-formed and the clusters are all accounted for. */
  method Life(v: Fat16, volume: Option<CString>, ops: seq<Op>) returns (ok: bool, full: bool, results: seq<int>)
    requires v.Buffers()
    modifies v, v.sectorBuffer, v.fatCache
    ensures ok <==> v.present && 16405 <= |old(v.disk)| <= 262646
    ensures ok ==> Formattable(|old(v.disk)|)
    ensures Returned(ops, results)
    ensures ok ==>
      var o := Replay(Empty(|old(v.disk)|, volume), ops, 4);
      && full == o.full && results == o.results
      && v.Ready() && v.fs == FormatGeometry(|old(v.disk)|) && |v.chains| == 512
      && (UniqueNames(Dir(v.disk, v.fs)) <==> o.volume.unique)
      && (!full ==>
            && WellFormed(v.disk, v.fs, v.chains, v.owner)
            && CountFree(Fat(v.disk, v.fs)) + TotalLength(v.chains, |v.chains|) == v.fs.clusters
            && forall m: CString :: v.FileOf(m) == Find(o.volume.files, m))
      && (full ==> forall m: CString :: Upper(m) != Upper(ops[|results|].name) ==>
          v.FileOf(m) == Find(o.volume.files, m))
  {
    full, results := false, [];
    ok := FormatAndMount(v, volume);
    if ok {
      full, results := Run(v, ops, Empty(|old(v.disk)|, volume));
      if !full {
        SoundConserves(v);
      }
    }
  }
}
