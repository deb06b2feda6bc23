/** Whole runs of the virtual memory manager: the page tables behave like a flat map from pages to frames. */
module VmmRuns {
  import opened Bytes
  import opened Bitmap
  import opened Paging
  import opened TableNeeds
  import opened TableLedger
  import opened PageRanges
  import opened Vmm

  /** The leaf entries of the mapped pages, by page number. */
  type Pages = map<nat, u64>

  /** The flat view of an address space: its leaf entries, and the next device address. */
  datatype Flat = Flat(pages: Pages, next: u64)

  datatype Op =
    | Map(paddr: u64, v: u64, flags: u64)
    | Unmap(v: u64)
    | Mmio(paddr: u64, size: u64)

  function MapRange(pages: Pages, v: u64, p: u64, n: nat): Pages {
    if n == 0 then pages
    else MapRange(pages, v, p, n - 1)[PageNumber(PageAt(v, n - 1)) := PageEntry(PageAt(p, n - 1), 0x1B)]
  }

  /** What an operation that mapped n pages does to the flat view. */
  function Apply(flat: Flat, op: Op, n: nat): Flat {
    match op
    case Map(p, v, flags) =>
      if n == 0 then flat else flat.(pages := flat.pages[PageNumber(v) := PageEntry(p, PageFlags(flags))])
    case Unmap(v) => flat.(pages := flat.pages - {PageNumber(v)})
    case Mmio(p, size) =>
      Flat(MapRange(flat.pages, flat.next, p, n), PageAt(flat.next, PagesOf(size)))
  }

  function Replay(flat: Flat, ops: seq<Op>, counts: seq<nat>): Flat
    requires |counts| <= |ops|
  {
    if counts == [] then flat else
      Apply(Replay(flat, ops, counts[..|counts| - 1]), ops[|counts| - 1], counts[|counts| - 1])
  }

  /** The walk of every address, all 2^64 of them, agrees with the flat view. */
  ghost predicate Agrees(mem: Memory, root: nat, pages: Pages) {
    forall w: u64 :: Leaf(mem, root, w) == if PageNumber(w) in pages then Some(pages[PageNumber(w)]) else None
  }

  /** The flat view that page tables stand for. */
  ghost function FlatOf(mem: Memory, root: nat): Pages {
    map q | 0 <= q < PAGES && Leaf(mem, root, q * PAGE_SIZE).Some? :: Leaf(mem, root, q * PAGE_SIZE).value
  }

  /** Any memory and any root have a flat view: a translation depends on the page number alone. */
  lemma FlatAgrees(mem: Memory, root: nat)
    ensures Agrees(mem, root, FlatOf(mem, root))
  {
    forall w: u64
      ensures Leaf(mem, root, w) ==
              if PageNumber(w) in FlatOf(mem, root) then Some(FlatOf(mem, root)[PageNumber(w)]) else None
    {
      var v: u64 := PageNumber(w) * PAGE_SIZE;
      assert PageNumber(v) == PageNumber(w);
      WalkSamePage(mem, root, v, w, 0);
    }
  }

  lemma AgreesMapped(mem: Memory, mem2: Memory, root: nat, pages: Pages, v: u64, leaf: u64)
    requires Agrees(mem, root, pages) && Mapped(mem, mem2, root, v, Some(leaf))
    ensures Agrees(mem2, root, pages[PageNumber(v) := leaf])
  {
  }

  lemma AgreesUnmapped(mem: Memory, mem2: Memory, root: nat, pages: Pages, v: u64)
    requires Agrees(mem, root, pages) && Mapped(mem, mem2, root, v, None)
    ensures Agrees(mem2, root, pages - {PageNumber(v)})
  {
  }

  lemma {:induction false} AgreesRange(mem: Memory, root: nat, pages: Pages, v: u64, p: u64, n: nat, w: u64)
    requires Agrees(mem, root, pages)
    ensures var after := MapRange(pages, v, p, n);
            RangeLeaf(mem, root, v, p, n, w) == if PageNumber(w) in after then Some(after[PageNumber(w)]) else None
  {
    if n == 0 {
      assert Leaf(mem, root, w) == if PageNumber(w) in pages then Some(pages[PageNumber(w)]) else None;
    } else {
      AgreesRange(mem, root, pages, v, p, n - 1, w);
    }
  }

  lemma AgreesMmio(mem: Memory, mem2: Memory, root: nat, pages: Pages, v: u64, p: u64, n: nat)
    requires Agrees(mem, root, pages) && RangeMapped(mem, mem2, root, v, p, n)
    ensures Agrees(mem2, root, MapRange(pages, v, p, n))
  {
    forall w: u64
      ensures Leaf(mem2, root, w) ==
              if PageNumber(w) in MapRange(pages, v, p, n) then Some(MapRange(pages, v, p, n)[PageNumber(w)]) else None
    {
      AgreesRange(mem, root, pages, v, p, n, w);
    }
  }

  // ---- How far each operation gets ----

  /** The pages that one operation maps out of frames frames, of which the tables in made have taken some, and the
      tables there are then. */
  function OpMade(mem: Memory, root: nat, made: set<seq<nat>>, frames: nat, next: u64, op: Op): (nat, set<seq<nat>>) {
    match op
    case Map(_, v, _) =>
      var (ok, all) := Page(mem, root, made, frames, v);
      (if ok then 1 else 0, all)
    case Unmap(_) => (0, made)
    case Mmio(_, size) => Range(mem, root, made, frames, next, PagesOf(size))
  }

  /** The pages that each operation of a run maps, and the tables there are at its end. */
  function Counts(mem: Memory, root: nat, frames: nat, next: u64, ops: seq<Op>): (seq<nat>, set<seq<nat>>) {
    if ops == [] then ([], {}) else
      var front := ops[..|ops| - 1];
      var (counts, made) := Counts(mem, root, frames, next, front);
      var (n, all) := OpMade(mem, root, made, frames, NextAfter(next, front), ops[|ops| - 1]);
      (counts + [n], all)
  }

  lemma OpMadeAfter(mem0: Memory, mem: Memory, root: nat, made: set<seq<nat>>, frames: nat, next: u64, op: Op)
    requires Made(mem0, mem, root, made) && |made| <= frames
    ensures var (n, more) := OpMade(mem, root, {}, frames - |made|, next, op);
            OpMade(mem0, root, made, frames, next, op) == (n, made + more) && more !! made
  {
    assert made + {} == made;
    match op
    case Map(_, v, _) => PageAfter(mem0, mem, root, made, {}, frames, v);
    case Unmap(_) =>
    case Mmio(_, size) => RangeAfter(mem0, mem, root, made, frames, next, PagesOf(size));
  }

  /** The operations done have mapped exactly the pages, and created exactly the tables, that Counts says. */
  ghost predicate Recorded(mem0: Memory, free0: nat, mem: Memory, free: nat, root: nat, next: u64, done: seq<Op>,
                           counts: seq<nat>) {
    var (all, made) := Counts(mem0, root, free0, next, done);
    counts == all && Made(mem0, mem, root, made) && free == free0 - |made|
  }

  lemma RecordedStep(mem0: Memory, free0: nat, mem: Memory, free: nat, mem2: Memory, free2: nat, root: nat, next: u64,
                     ops: seq<Op>, counts: seq<nat>, n: nat)
    requires |counts| < |ops| && Recorded(mem0, free0, mem, free, root, next, ops[..|counts|], counts)
    requires var p := OpMade(mem, root, {}, free, NextAfter(next, ops[..|counts|]), ops[|counts|]);
             n == p.0 && Made(mem, mem2, root, p.1) && free2 == free - |p.1|
    ensures Recorded(mem0, free0, mem2, free2, root, next, ops[..|counts| + 1], counts + [n])
  {
    var i, op := |counts|, ops[|counts|];
    var at, made := NextAfter(next, ops[..i]), Counts(mem0, root, free0, next, ops[..i]).1;
    var more := OpMade(mem, root, {}, free, at, op).1;
    assert ops[..i + 1][..i] == ops[..i];
    OpMadeAfter(mem0, mem, root, made, free0, at, op);
    Apart(made, more, {});
    MadeBoth(mem0, mem, mem2, root, made, more);
  }

  // ---- What a run needs ----

  /** The tables that one operation lacks, with the next device address given. */
  function OpNeeds(mem: Memory, root: nat, next: u64, op: Op): set<seq<nat>> {
    match op
    case Map(_, v, _) => MissingPaths(mem, root, v)
    case Unmap(_) => {}
    case Mmio(_, size) => Needed(mem, root, next, PagesOf(size))
  }

  /** The next device address after some operations, which depends on their sizes alone. */
  function NextAfter(next: u64, ops: seq<Op>): u64 {
    if ops == [] then next else
      var before := NextAfter(next, ops[..|ops| - 1]);
      if ops[|ops| - 1].Mmio? then PageAt(before, PagesOf(ops[|ops| - 1].size)) else before
  }

  /** The tables that all the operations lack together. */
  function AllNeeds(mem: Memory, root: nat, next: u64, ops: seq<Op>): set<seq<nat>> {
    if ops == [] then {} else
      var front := ops[..|ops| - 1];
      AllNeeds(mem, root, next, front) + OpNeeds(mem, root, NextAfter(next, front), ops[|ops| - 1])
  }

  function PagesAsked(op: Op): nat {
    match op
    case Map(_, _, _) => 1
    case Unmap(_) => 0
    case Mmio(_, size) => PagesOf(size)
  }

  lemma OpNeedsAfter(mem: Memory, mem2: Memory, root: nat, made: set<seq<nat>>, next: u64, op: Op)
    requires Made(mem, mem2, root, made)
    ensures OpNeeds(mem2, root, next, op) == OpNeeds(mem, root, next, op) - made
  {
    match op
    case Map(_, v, _) => assert MissingPaths(mem2, root, v) == MissingPaths(mem, root, v) - made;
    case Unmap(_) =>
    case Mmio(_, size) => NeededAfter(mem, mem2, root, made, next, PagesOf(size));
  }

  /** Where a run stands whose operations so far had n tables to create among them: every page asked for has been mapped
      and exactly those tables have been created, or there were not frames enough for them and none is left. */
  ghost predicate Account(mem0: Memory, free0: nat, mem: Memory, free: nat, root: nat, needs: set<seq<nat>>,
                          complete: bool) {
    if complete then Made(mem0, mem, root, needs) && free == free0 - |needs|
    else free == 0 && |needs| > free0
  }

  lemma AccountStep(mem0: Memory, free0: nat, mem: Memory, free: nat, mem2: Memory, free2: nat, root: nat,
                    needs: set<seq<nat>>, complete: bool, next: u64, op: Op, done: bool)
    requires Account(mem0, free0, mem, free, root, needs, complete) && free2 <= free
    requires done <==> |OpNeeds(mem, root, next, op)| <= free
    requires done ==> Made(mem, mem2, root, OpNeeds(mem, root, next, op))
    requires done ==> free2 == free - |OpNeeds(mem, root, next, op)|
    requires !done ==> free2 == 0
    ensures Account(mem0, free0, mem2, free2, root, needs + OpNeeds(mem0, root, next, op), complete && done)
  {
    var more := OpNeeds(mem0, root, next, op);
    if complete {
      OpNeedsAfter(mem0, mem, root, needs, next, op);
      assert needs + more == needs + (more - needs);
      if done {
        MadeBoth(mem0, mem, mem2, root, needs, more - needs);
      }
    } else {
      Smaller(needs, needs + more);
    }
  }

  ghost predicate Complete(ops: seq<Op>, counts: seq<nat>)
    requires |counts| <= |ops|
  {
    forall i :: 0 <= i < |counts| ==> counts[i] == PagesAsked(ops[i])
  }

  /** Where a run stands after the operations that counts belong to. */
  ghost predicate Progress(start: Flat, mem0: Memory, free0: nat, mem: Memory, free: nat, next: u64, root: nat,
                           ops: seq<Op>, counts: seq<nat>)
    requires |counts| <= |ops|
  {
    var done, flat := ops[..|counts|], Replay(start, ops, counts);
    && Agrees(mem, root, flat.pages)
    && next == flat.next == NextAfter(start.next, done)
    && (forall i :: 0 <= i < |counts| ==> counts[i] <= PagesAsked(ops[i]))
    && Account(mem0, free0, mem, free, root, AllNeeds(mem0, root, start.next, done), Complete(ops, counts))
  }

  ghost predicate OpDone(mem: Memory, free: nat, mem2: Memory, free2: nat, root: nat, next: u64, op: Op, n: nat) {
    var p := OpMade(mem, root, {}, free, next, op);
    n == p.0 && Made(mem, mem2, root, p.1) && free2 == free - |p.1|
  }

  /** What one operation does that maps n pages. */
  ghost predicate Stepped(flat: Flat, mem: Memory, free: nat, mem2: Memory, free2: nat, next2: u64, root: nat, op: Op,
                          n: nat) {
    var needs := OpNeeds(mem, root, flat.next, op);
    && OpDone(mem, free, mem2, free2, root, flat.next, op, n)
    && n <= PagesAsked(op) && free2 <= free
    && Agrees(mem2, root, Apply(flat, op, n).pages) && next2 == Apply(flat, op, n).next
    && (n == PagesAsked(op) <==> |needs| <= free)
    && (n == PagesAsked(op) ==> Made(mem, mem2, root, needs) && free2 == free - |needs|)
    && (n < PagesAsked(op) ==> free2 == 0)
  }

  lemma ProgressStep(start: Flat, mem0: Memory, free0: nat, mem: Memory, free: nat, next: u64, root: nat, ops: seq<Op>,
                     counts: seq<nat>, mem2: Memory, free2: nat, next2: u64, n: nat)
    requires |counts| < |ops| && Progress(start, mem0, free0, mem, free, next, root, ops, counts)
    requires Stepped(Replay(start, ops, counts), mem, free, mem2, free2, next2, root, ops[|counts|], n)
    ensures Progress(start, mem0, free0, mem2, free2, next2, root, ops, counts + [n])
  {
    var i, all := |counts|, counts + [n];
    assert Account(mem0, free0, mem2, free2, root, AllNeeds(mem0, root, start.next, ops[..i + 1]),
                   Complete(ops, all)) by {
      AccountNext(start, mem0, free0, mem, free, next, root, ops, counts, mem2, free2, next2, n);
    }
    assert Agrees(mem2, root, Replay(start, ops, all).pages) && next2 == Replay(start, ops, all).next by {
      ReplayStep(start, ops, counts, n);
    }
    assert next2 == NextAfter(start.next, ops[..i + 1]) by {
      NextStep(start.next, ops, i, Replay(start, ops, counts), n);
    }
    assert forall k :: 0 <= k < |all| ==> all[k] <= PagesAsked(ops[k]) by {
      CompleteStep(ops, counts, n);
    }
  }

  lemma AccountNext(start: Flat, mem0: Memory, free0: nat, mem: Memory, free: nat, next: u64, root: nat, ops: seq<Op>,
                    counts: seq<nat>, mem2: Memory, free2: nat, next2: u64, n: nat)
    requires |counts| < |ops| && Progress(start, mem0, free0, mem, free, next, root, ops, counts)
    requires Stepped(Replay(start, ops, counts), mem, free, mem2, free2, next2, root, ops[|counts|], n)
    ensures Account(mem0, free0, mem2, free2, root, AllNeeds(mem0, root, start.next, ops[..|counts| + 1]),
                    Complete(ops, counts + [n]))
  {
    var i := |counts|;
    CompleteStep(ops, counts, n);
    NeedsStep(mem0, root, start.next, ops, i);
    AccountStep(mem0, free0, mem, free, mem2, free2, root, AllNeeds(mem0, root, start.next, ops[..i]),
                Complete(ops, counts), next, ops[i], n == PagesAsked(ops[i]));
  }

  lemma ReplayStep(start: Flat, ops: seq<Op>, counts: seq<nat>, n: nat)
    requires |counts| < |ops|
    ensures Replay(start, ops, counts + [n]) == Apply(Replay(start, ops, counts), ops[|counts|], n)
  {
    assert (counts + [n])[..|counts|] == counts;
  }

  lemma NextStep(next: u64, ops: seq<Op>, i: nat, flat: Flat, n: nat)
    requires i < |ops| && flat.next == NextAfter(next, ops[..i])
    ensures Apply(flat, ops[i], n).next == NextAfter(next, ops[..i + 1])
  {
    assert ops[..i + 1][..i] == ops[..i];
  }

  lemma NeedsStep(mem: Memory, root: nat, next: u64, ops: seq<Op>, i: nat)
    requires i < |ops|
    ensures AllNeeds(mem, root, next, ops[..i + 1]) ==
            AllNeeds(mem, root, next, ops[..i]) + OpNeeds(mem, root, NextAfter(next, ops[..i]), ops[i])
  {
    assert ops[..i + 1][..i] == ops[..i];
  }

  lemma CompleteStep(ops: seq<Op>, counts: seq<nat>, n: nat)
    requires |counts| < |ops| && forall i :: 0 <= i < |counts| ==> counts[i] <= PagesAsked(ops[i])
    requires n <= PagesAsked(ops[|counts|])
    ensures var all := counts + [n];
            && (Complete(ops, all) <==> Complete(ops, counts) && n == PagesAsked(ops[|counts|]))
            && forall i :: 0 <= i < |all| ==> all[i] <= PagesAsked(ops[i])
  {
    var all := counts + [n];
    assert all[|counts|] == n && forall k :: 0 <= k < |counts| ==> all[k] == counts[k];
  }

  /** Any run of maps, unmaps and device mappings leaves page tables that agree with the flat view, and keeps the table
      tree unshared and out of the allocator's hands. All pages asked for are mapped exactly if the free frames suffice
      for the tables that the operations lack together; otherwise no frame is left, and Counts says how far each
      operation gets and which tables are created. */
  method Run(m: VirtualMemory, ops: seq<Op>) returns (ghost counts: seq<nat>)
    requires m.Valid() && m.hhdmOffset != 0
    modifies m`mem, m`place, m`nextMmio, m.phys`used, m.phys`freeBlocks, m.phys.bitmap
    ensures m.Valid() && |counts| == |ops|
    ensures var start := Flat(FlatOf(old(m.mem), m.Root()), old(m.nextMmio));
            var end := Replay(start, ops, counts);
            Agrees(m.mem, m.Root(), end.pages) && m.nextMmio == end.next == NextAfter(start.next, ops)
    ensures forall i :: 0 <= i < |ops| ==> counts[i] <= PagesAsked(ops[i])
    ensures Complete(ops, counts) <==> |AllNeeds(old(m.mem), m.Root(), old(m.nextMmio), ops)| <= old(m.FreeFrames())
    ensures !Complete(ops, counts) ==> m.FreeFrames() == 0
    ensures Recorded(old(m.mem), old(m.FreeFrames()), m.mem, m.FreeFrames(), m.Root(), old(m.nextMmio), ops, counts)
  {
    ghost var start := Flat(FlatOf(m.mem, m.Root()), m.nextMmio);
    FlatAgrees(m.mem, m.Root());
    MadeNone(m.mem, m.Root());
    counts := [];
    var i := 0;
    while i < |ops|
      invariant |counts| == i <= |ops| && m.Valid()
      invariant Progress(start, old(m.mem), old(m.FreeFrames()), m.mem, m.FreeFrames(), m.nextMmio, m.Root(), ops,
                         counts)
      invariant Recorded(old(m.mem), old(m.FreeFrames()), m.mem, m.FreeFrames(), m.Root(), start.next, ops[..i], counts)
    {
      ghost var mem1, free1, next1 := m.mem, m.FreeFrames(), m.nextMmio;
      ghost var n := Step(m, ops[i], Replay(start, ops, counts));
      ProgressStep(start, old(m.mem), old(m.FreeFrames()), mem1, free1, next1, m.Root(), ops, counts, m.mem,
                   m.FreeFrames(), m.nextMmio, n);
      RecordedStep(old(m.mem), old(m.FreeFrames()), mem1, free1, m.mem, m.FreeFrames(), m.Root(), start.next, ops,
                   counts, n);
      counts := counts + [n];
      i := i + 1;
    }
    assert ops[..|ops|] == ops;
  }

  /** One operation: it maps all the pages asked for exactly if the free frames suffice for the tables it lacks. */
  method StepMap(m: VirtualMemory, p: u64, v: u64, flags: u64, ghost flat: Flat) returns (ghost n: nat)
    requires m.Valid() && m.hhdmOffset != 0
    requires Agrees(m.mem, m.Root(), flat.pages) && m.nextMmio == flat.next
    modifies m`mem, m`place, m.phys`used, m.phys`freeBlocks, m.phys.bitmap
    ensures m.Valid()
    ensures Stepped(flat, old(m.mem), old(m.FreeFrames()), m.mem, m.FreeFrames(), m.nextMmio, m.Root(),
                    Map(p, v, flags), n)
  {
    ghost var before := m.mem;
    LastPathsCount(v, MissingFrom(m.mem, m.Root(), v, 0));
    var r := m.MapPage(p, v, flags);
    n := if r.Some? then 1 else 0;
    if r.Some? {
      AgreesMapped(before, m.mem, m.Root(), flat.pages, v, PageEntry(p, PageFlags(flags)));
    }
  }

  method StepMmio(m: VirtualMemory, p: u64, size: u64, ghost flat: Flat) returns (ghost n: nat)
    requires m.Valid() && m.hhdmOffset != 0
    requires Agrees(m.mem, m.Root(), flat.pages) && m.nextMmio == flat.next
    modifies m`mem, m`place, m`nextMmio, m.phys`used, m.phys`freeBlocks, m.phys.bitmap
    ensures m.Valid()
    ensures Stepped(flat, old(m.mem), old(m.FreeFrames()), m.mem, m.FreeFrames(), m.nextMmio, m.Root(),
                    Mmio(p, size), n)
  {
    ghost var before, free, pages := m.mem, m.FreeFrames(), PagesOf(size);
    var r;
    r, n := m.MapMmio(p, size);
    MmioStepped(flat, before, free, m.mem, m.FreeFrames(), m.nextMmio, m.Root(), p, size, pages, n,
                Range(before, m.Root(), {}, free, flat.next, pages).1);
  }

  lemma MmioStepped(flat: Flat, mem: Memory, free: nat, mem2: Memory, free2: nat, next2: u64, root: nat, p: u64,
                    size: u64, pages: nat, n: nat, made: set<seq<nat>>)
    requires Agrees(mem, root, flat.pages) && pages == PagesOf(size)
    requires next2 == PageAt(flat.next, pages) && RangeMapped(mem, mem2, root, flat.next, p, n)
    requires FitsUpTo(mem, root, flat.next, pages, free, n) && (n < pages ==> free2 == 0)
    requires Range(mem, root, {}, free, flat.next, pages) == (n, made)
    requires Made(mem, mem2, root, made) && free2 == free - |made|
    ensures Stepped(flat, mem, free, mem2, free2, next2, root, Mmio(p, size), n)
  {
    AgreesMmio(mem, mem2, root, flat.pages, flat.next, p, n);
    assert n == pages <==> |Needed(mem, root, flat.next, pages)| <= free;
    if n == pages {
      RangeAll(mem, root, free, flat.next, pages);
    }
  }

  method Step(m: VirtualMemory, op: Op, ghost flat: Flat) returns (ghost n: nat)
    requires m.Valid() && m.hhdmOffset != 0
    requires Agrees(m.mem, m.Root(), flat.pages) && m.nextMmio == flat.next
    modifies m`mem, m`place, m`nextMmio, m.phys`used, m.phys`freeBlocks, m.phys.bitmap
    ensures m.Valid()
    ensures Stepped(flat, old(m.mem), old(m.FreeFrames()), m.mem, m.FreeFrames(), m.nextMmio, m.Root(), op, n)
  {
    ghost var before := m.mem;
    match op
    case Map(p, v, flags) =>
      n := StepMap(m, p, v, flags, flat);
    case Unmap(v) =>
      m.UnmapPage(v);
      n := 0;
      AgreesUnmapped(before, m.mem, m.Root(), flat.pages, v);
    case Mmio(p, size) =>
      n := StepMmio(m, p, size, flat);
  }
}
