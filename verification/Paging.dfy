/** Four-level page tables in physical memory, as src/memory/vmm.c walks and writes them
    (4-level paging, section 4.5 of the Intel SDM, volume 3A). */
module Paging {
  import opened Bytes

  const PAGE_SIZE := 4096
  const PAGES := 0x10_0000_0000

  type Frame = f: seq<u64> | |f| == 512 witness seq(512, _ => 0)
  type Memory = seq<Frame>

  function ZeroFrame(): Frame {
    seq(512, _ => 0)
  }

  // ---- Words ----

  /** Bitwise or. */
  function Or(a: nat, b: nat): nat
    decreases a + b
  {
    if a == 0 then b else if b == 0 then a else
      2 * Or(a / 2, b / 2) + if a % 2 == 1 || b % 2 == 1 then 1 else 0
  }

  lemma OrHalf(a: nat, b: nat)
    ensures Or(a, b) / 2 == Or(a / 2, b / 2)
    ensures Or(a, b) % 2 == if a % 2 == 1 || b % 2 == 1 then 1 else 0
  {
  }

  /** x after n shifts to the right. */
  function Shift(x: nat, n: nat): nat {
    if n == 0 then x else Shift(x / 2, n - 1)
  }

  lemma {:induction false} OrShift(a: nat, b: nat, n: nat)
    ensures Shift(Or(a, b), n) == Or(Shift(a, n), Shift(b, n))
  {
    if n > 0 {
      OrHalf(a, b);
      OrShift(a / 2, b / 2, n - 1);
    }
  }

  lemma ShiftThree(x: nat, n: nat)
    ensures Shift(x, n + 3) == Shift(x / 8, n)
  {
    assert x / 2 / 2 / 2 == x / 8;
    assert Shift(x, n + 3) == Shift(x / 2, n + 2) == Shift(x / 2 / 2, n + 1) == Shift(x / 2 / 2 / 2, n);
  }

  lemma ShiftTwelve(x: nat)
    ensures Shift(x, 12) == x / 4096
  {
    ShiftThree(x, 9);
    ShiftThree(x / 8, 6);
    ShiftThree(x / 8 / 8, 3);
    ShiftThree(x / 8 / 8 / 8, 0);
  }

  predicate Present(e: u64) {
    e % 2 == 1
  }

  /** The frame an entry points to: its bits 12 to 63. */
  function FrameOf(e: u64): nat {
    e / PAGE_SIZE
  }

  /** Flag bits or-ed into an address leave the frame alone, and set the present bit if they contain it. */
  lemma EntryFields(address: u64, flags: nat)
    requires flags < PAGE_SIZE && flags % 2 == 1
    ensures Or(address, flags) < TWO_TO_THE_64
    ensures Present(Or(address, flags)) && FrameOf(Or(address, flags)) == address / PAGE_SIZE
  {
    OrShift(address, flags, 12);
    ShiftTwelve(Or(address, flags));
    ShiftTwelve(address);
    ShiftTwelve(flags);
    OrHalf(address, flags);
  }

  /** x after n shifts to the left. */
  function Shifted(x: nat, n: nat): nat {
    if n == 0 then x else 2 * Shifted(x, n - 1)
  }

  lemma {:induction false} OrBelow(x: nat, flags: nat, n: nat)
    requires Shift(flags, n) == 0
    ensures Or(Shifted(x, n), flags) == Shifted(x, n) + flags
  {
    if n > 0 {
      OrBelow(x, flags / 2, n - 1);
      OrHalf(Shifted(x, n), flags);
    }
  }

  lemma ShiftedThree(x: nat, n: nat)
    ensures Shifted(x, n + 3) == 8 * Shifted(x, n)
  {
    assert Shifted(x, n + 3) == 2 * Shifted(x, n + 2) && Shifted(x, n + 2) == 2 * Shifted(x, n + 1);
  }

  lemma ShiftedTwelve(x: nat)
    ensures Shifted(x, 12) == 4096 * x
  {
    ShiftedThree(x, 9);
    ShiftedThree(x, 6);
    ShiftedThree(x, 3);
    ShiftedThree(x, 0);
  }

  /** The entry made of an address and flag bits: those of an aligned address do not overlap with the flags. */
  function PageEntry(address: u64, flags: nat): (e: u64)
    requires flags < PAGE_SIZE && flags % 2 == 1
    ensures Present(e) && FrameOf(e) == address / PAGE_SIZE
    ensures address % PAGE_SIZE == 0 ==> e == address + flags
  {
    EntryFields(address, flags);
    if address % PAGE_SIZE == 0 then EntrySum(address, flags); Or(address, flags) else Or(address, flags)
  }

  lemma EntrySum(address: u64, flags: nat)
    requires flags < PAGE_SIZE && address % PAGE_SIZE == 0
    ensures Or(address, flags) == address + flags
  {
    ShiftTwelve(flags);
    ShiftedTwelve(address / PAGE_SIZE);
    OrBelow(address / PAGE_SIZE, flags, 12);
  }

  // ---- Addresses ----

  /** The table index of level k, from the root down (src/memory/vmm.h:66-69). */
  function Index(v: u64, k: nat): (i: nat)
    requires k < 4
    ensures i < 512
  {
    if k == 0 then v / 0x80_0000_0000 % 512
    else if k == 1 then v / 0x4000_0000 % 512
    else if k == 2 then v / 0x20_0000 % 512
    else v / 0x1000 % 512
  }

  /** Bits 12 to 47. */
  function PageNumber(v: u64): nat {
    v / PAGE_SIZE % PAGES
  }

  lemma PageNumberDigits(v: u64)
    ensures PageNumber(v) == Index(v, 0) * 0x800_0000 + Index(v, 1) * 0x4_0000 + Index(v, 2) * 0x200 + Index(v, 3)
  {
    var q := v / PAGE_SIZE;
    var q1, q2, q3 := q / 512, q / 512 / 512, q / 512 / 512 / 512;
    assert v / 0x20_0000 == q1 && v / 0x4000_0000 == q2 && v / 0x80_0000_0000 == q3;
    Digits(q);
  }

  lemma Digits(q: nat)
    ensures q % PAGES == q / 512 / 512 / 512 % 512 * 0x800_0000 + q / 512 / 512 % 512 * 0x4_0000 +
            q / 512 % 512 * 0x200 + q % 512
  {
    var q1 := q / 512;
    var q2 := q1 / 512;
    var q3 := q2 / 512;
    var q4 := q3 / 512;
    var low := q3 % 512 * 0x800_0000 + q2 % 512 * 0x4_0000 + q1 % 512 * 0x200 + q % 512;
    assert q3 == 512 * q4 + q3 % 512;
    assert q2 == 512 * 512 * q4 + 512 * (q3 % 512) + q2 % 512;
    assert q1 == 512 * 512 * 512 * q4 + 512 * 512 * (q3 % 512) + 512 * (q2 % 512) + q1 % 512;
    assert q == q4 * PAGES + low && low < PAGES;
    ModOf(q, q4, low);
  }

  lemma ModOf(q: nat, k: nat, low: nat)
    requires q == k * PAGES + low && low < PAGES
    ensures q % PAGES == low
  {
  }

  lemma SameDigits(a0: nat, a1: nat, a2: nat, a3: nat, b0: nat, b1: nat, b2: nat, b3: nat)
    requires a0 < 512 && a1 < 512 && a2 < 512 && a3 < 512 && b0 < 512 && b1 < 512 && b2 < 512 && b3 < 512
    ensures a0 * 0x800_0000 + a1 * 0x4_0000 + a2 * 0x200 + a3 == b0 * 0x800_0000 + b1 * 0x4_0000 + b2 * 0x200 + b3 <==>
            a0 == b0 && a1 == b1 && a2 == b2 && a3 == b3
  {
  }

  /** Two addresses take the same way through the tables exactly if they agree on bits 12 to 47. */
  lemma SamePage(v: u64, w: u64)
    ensures PageNumber(v) == PageNumber(w) <==>
            Index(v, 0) == Index(w, 0) && Index(v, 1) == Index(w, 1) && Index(v, 2) == Index(w, 2) &&
                Index(v, 3) == Index(w, 3)
  {
    PageNumberDigits(v);
    PageNumberDigits(w);
    SameDigits(Index(v, 0), Index(v, 1), Index(v, 2), Index(v, 3), Index(w, 0), Index(w, 1), Index(w, 2), Index(w, 3));
  }

  /** The indices of levels 0 to k-1. */
  function Path(v: u64, k: nat): (p: seq<nat>)
    requires k <= 4
    ensures |p| == k
  {
    if k == 0 then [] else Path(v, k - 1) + [Index(v, k - 1)]
  }

  lemma PathOfThree(v: u64)
    ensures Path(v, 3) == [Index(v, 0), Index(v, 1), Index(v, 2)]
  {
    assert Path(v, 0) == [];
    assert Path(v, 1) == [Index(v, 0)];
    assert Path(v, 2) == [Index(v, 0), Index(v, 1)];
  }

  lemma FullPath(v: u64, w: u64)
    ensures Path(v, 3) == Path(w, 3) && Index(v, 3) == Index(w, 3) <==> PageNumber(v) == PageNumber(w)
  {
    SamePage(v, w);
    PathOfThree(v);
    PathOfThree(w);
  }

  // ---- The walk ----

  /** The leaf entry found from table f at level k, if every entry on the way is present. */
  function WalkFrom(mem: Memory, f: nat, v: u64, k: nat): (r: Option<u64>)
    requires k < 4
    ensures r.Some? ==> Present(r.value)
    decreases 4 - k
  {
    if f >= |mem| then None else
      var e := mem[f][Index(v, k)];
      if !Present(e) then None
      else if k == 3 then Some(e)
      else WalkFrom(mem, FrameOf(e), v, k + 1)
  }

  /** The leaf entry of a virtual address, flags and all, if it is mapped. */
  function Leaf(mem: Memory, root: nat, v: u64): Option<u64> {
    WalkFrom(mem, root, v, 0)
  }

  /** The frame a virtual address is mapped to, if any. */
  function MappedTo(mem: Memory, root: nat, v: u64): Option<nat> {
    match Leaf(mem, root, v)
    case None => None
    case Some(e) => Some(FrameOf(e))
  }

  /** The physical address of a virtual one. */
  function Translate(mem: Memory, root: nat, v: u64): Option<nat> {
    match MappedTo(mem, root, v)
    case None => None
    case Some(f) => Some(f * PAGE_SIZE + v % PAGE_SIZE)
  }

  /** The walk depends on the page number alone. */
  lemma {:induction false} WalkSamePage(mem: Memory, f: nat, v: u64, w: u64, k: nat)
    requires k < 4 && PageNumber(v) == PageNumber(w)
    ensures WalkFrom(mem, f, v, k) == WalkFrom(mem, f, w, k)
    decreases 4 - k
  {
    SamePage(v, w);
    if k < 3 && f < |mem| && Present(mem[f][Index(v, k)]) {
      WalkSamePage(mem, FrameOf(mem[f][Index(v, k)]), v, w, k + 1);
    }
  }

  /** Every address has the leaf entry it had, word for word, or none as before. */
  ghost predicate SameWalks(mem: Memory, mem2: Memory, root: nat) {
    forall w: u64 :: Leaf(mem2, root, w) == Leaf(mem, root, w)
  }

  /** Every address is mapped to the frame it was mapped to, or not at all as before. */
  ghost predicate SameFrames(mem: Memory, mem2: Memory, root: nat) {
    forall w: u64 :: MappedTo(mem2, root, w) == MappedTo(mem, root, w)
  }

  /** The addresses that agree with v on bits 12 to 47 have the given leaf entry, or none, and every other address has
      the one it had. */
  ghost predicate Mapped(mem: Memory, mem2: Memory, root: nat, v: u64, leaf: Option<u64>) {
    forall w: u64 :: Leaf(mem2, root, w) == if PageNumber(w) == PageNumber(v) then leaf else Leaf(mem, root, w)
  }

  /** The present entry at level n on the way of v from table f at level k. */
  function EntryAt(mem: Memory, f: nat, v: u64, k: nat, n: nat): Option<u64>
    requires k <= n < 4
    decreases n - k
  {
    if f >= |mem| || !Present(mem[f][Index(v, k)]) then None
    else if k == n then Some(mem[f][Index(v, k)])
    else EntryAt(mem, FrameOf(mem[f][Index(v, k)]), v, k + 1, n)
  }

  /** The leaf entry is the one at the bottom level. */
  lemma {:induction false} LeafIsEntry(mem: Memory, f: nat, v: u64, k: nat)
    requires k < 4
    ensures WalkFrom(mem, f, v, k) == EntryAt(mem, f, v, k, 3)
    decreases 4 - k
  {
    if k < 3 && f < |mem| && Present(mem[f][Index(v, k)]) {
      LeafIsEntry(mem, FrameOf(mem[f][Index(v, k)]), v, k + 1);
    }
  }

  /** What may become of an entry that points to a table: it stays, or it is made, with the low bits 3. */
  predicate EntryKept(e: Option<u64>, e2: Option<u64>) {
    if e.Some? then e2 == e else e2.Some? ==> e2.value % 4096 == 3
  }

  /** The entries that point to tables have been kept, and the new ones are writable and no more. */
  ghost predicate TablesKept(mem: Memory, mem2: Memory, root: nat) {
    forall w: u64, n {:trigger EntryAt(mem2, root, w, 0, n)} :: 0 <= n < 3 ==>
      EntryKept(EntryAt(mem, root, w, 0, n), EntryAt(mem2, root, w, 0, n))
  }

  lemma TablesKeptSame(mem: Memory, root: nat)
    ensures TablesKept(mem, mem, root)
  {
  }

  lemma TablesKeptBoth(mem: Memory, mem1: Memory, mem2: Memory, root: nat)
    requires TablesKept(mem, mem1, root) && TablesKept(mem1, mem2, root)
    ensures TablesKept(mem, mem2, root)
  {
    forall w: u64, n | 0 <= n < 3
      ensures EntryKept(EntryAt(mem, root, w, 0, n), EntryAt(mem2, root, w, 0, n))
    {
      assert EntryKept(EntryAt(mem, root, w, 0, n), EntryAt(mem1, root, w, 0, n));
    }
  }

  /** How many tables a mapping of v has to create. */
  function MissingFrom(mem: Memory, f: nat, v: u64, k: nat): (n: nat)
    requires k < 4
    ensures n <= 3 - k
    decreases 4 - k
  {
    if k == 3 || f >= |mem| then 0
    else if Present(mem[f][Index(v, k)]) then MissingFrom(mem, FrameOf(mem[f][Index(v, k)]), v, k + 1)
    else 3 - k
  }

  /** The tables form a tree: place records for every table frame the one path of indices that leads to it, so no
      table is shared; tables at depth 3 hold the mappings. */
  ghost predicate Tree(mem: Memory, root: nat, place: map<nat, seq<nat>>) {
    && root in place && place[root] == []
    && (forall f :: f in place ==> f < |mem| && |place[f]| <= 3)
    && (forall f, i :: f in place && |place[f]| < 3 && 0 <= i < 512 && Present(mem[f][i]) ==>
          FrameOf(mem[f][i]) in place && place[FrameOf(mem[f][i])] == place[f] + [i])
  }

  /** The word of table t at index i is not on the way of v. */
  predicate OffPath(place: map<nat, seq<nat>>, t: nat, i: nat, v: u64)
    requires t in place && |place[t]| <= 3
  {
    Path(v, |place[t]|) != place[t] || Index(v, |place[t]|) != i
  }

  function Write(mem: Memory, t: nat, i: nat, e: u64): Memory
    requires t < |mem| && i < 512
  {
    mem[t := mem[t][i := e]]
  }

  /** A write off the way of v does not change the walk of v. */
  lemma {:induction false} WalkOffPath(mem: Memory, root: nat, place: map<nat, seq<nat>>, t: nat, i: nat, e: u64,
                                       v: u64, f: nat, k: nat)
    requires Tree(mem, root, place) && t in place && i < 512 && k < 4
    requires f in place && place[f] == Path(v, k) && OffPath(place, t, i, v)
    ensures WalkFrom(Write(mem, t, i, e), f, v, k) == WalkFrom(mem, f, v, k)
    decreases 4 - k
  {
    assert Write(mem, t, i, e)[f][Index(v, k)] == mem[f][Index(v, k)];
    if k < 3 && Present(mem[f][Index(v, k)]) {
      WalkOffPath(mem, root, place, t, i, e, v, FrameOf(mem[f][Index(v, k)]), k + 1);
    }
  }

  /** The walk of v passes through the table placed on its way, if one is: it is what the walk from there is. */
  lemma {:induction false} WalkThrough(mem: Memory, root: nat, place: map<nat, seq<nat>>, v: u64, t: nat, f: nat,
                                       k: nat, n: nat)
    requires Tree(mem, root, place) && k <= n < 4
    requires f in place && place[f] == Path(v, k) && Reaches(mem, f, v, k, n, t)
    ensures t in place && place[t] == Path(v, n) && WalkFrom(mem, f, v, k) == WalkFrom(mem, t, v, n)
    decreases n - k
  {
    if k < n {
      WalkThrough(mem, root, place, v, t, FrameOf(mem[f][Index(v, k)]), k + 1, n);
    }
  }

  /** Following v from table f at level k leads to table t at level n. */
  ghost predicate Reaches(mem: Memory, f: nat, v: u64, k: nat, n: nat, t: nat)
    requires k <= n < 4
    decreases n - k
  {
    if k == n then f == t
    else f < |mem| && Present(mem[f][Index(v, k)]) && Reaches(mem, FrameOf(mem[f][Index(v, k)]), v, k + 1, n, t)
  }

  lemma {:induction false} ReachesNext(mem: Memory, f: nat, v: u64, k: nat, n: nat, t: nat)
    requires k <= n < 3 && Reaches(mem, f, v, k, n, t) && t < |mem| && Present(mem[t][Index(v, n)])
    ensures Reaches(mem, f, v, k, n + 1, FrameOf(mem[t][Index(v, n)]))
    decreases n - k
  {
    if k < n {
      ReachesNext(mem, FrameOf(mem[f][Index(v, k)]), v, k + 1, n, t);
    }
  }

  /** Addresses with the same first n indices reach the same table. */
  lemma {:induction false} ReachesSamePath(mem: Memory, f: nat, v: u64, w: u64, k: nat, n: nat, t: nat)
    requires k <= n < 4 && Path(v, n) == Path(w, n) && Reaches(mem, f, v, k, n, t)
    ensures Reaches(mem, f, w, k, n, t)
    decreases n - k
  {
    if k < n {
      PathIndex(v, w, k, n);
      ReachesSamePath(mem, FrameOf(mem[f][Index(v, k)]), v, w, k + 1, n, t);
    }
  }

  lemma {:induction false} PathIndex(v: u64, w: u64, k: nat, n: nat)
    requires k < n <= 4 && Path(v, n) == Path(w, n)
    ensures Index(v, k) == Index(w, k)
  {
    assert Path(v, n)[n - 1] == Index(v, n - 1) && Path(w, n)[n - 1] == Index(w, n - 1);
    if k < n - 1 {
      assert Path(v, n)[..n - 1] == Path(v, n - 1) && Path(w, n)[..n - 1] == Path(w, n - 1);
      PathIndex(v, w, k, n - 1);
    }
  }

  /** So addresses of one page do. */
  lemma ReachesSamePage(mem: Memory, f: nat, v: u64, w: u64, n: nat, t: nat)
    requires n < 4 && PageNumber(v) == PageNumber(w) && Reaches(mem, f, v, 0, n, t)
    ensures Reaches(mem, f, w, 0, n, t)
  {
    SamePage(v, w);
    assert Path(v, 0) == Path(w, 0) && Path(v, 1) == Path(w, 1) && Path(v, 2) == Path(w, 2) && Path(v, 3) == Path(w, 3);
    ReachesSamePath(mem, f, v, w, 0, n, t);
  }

  // ---- Writing a mapping ----

  /** A write to the bottom table of v changes no table pointer, so v still reaches it. */
  lemma {:induction false} ReachesAfterLeaf(mem: Memory, root: nat, place: map<nat, seq<nat>>, v: u64, i: nat, e: u64,
                                            t: nat, f: nat, k: nat)
    requires Tree(mem, root, place) && i < 512 && k <= 3 && t in place && |place[t]| == 3
    requires f in place && place[f] == Path(v, k) && Reaches(mem, f, v, k, 3, t)
    ensures Reaches(Write(mem, t, i, e), f, v, k, 3, t)
    decreases 3 - k
  {
    if k < 3 {
      assert f != t;
      ReachesAfterLeaf(mem, root, place, v, i, e, t, FrameOf(mem[f][Index(v, k)]), k + 1);
    }
  }

  lemma LeafTree(mem: Memory, root: nat, place: map<nat, seq<nat>>, t: nat, i: nat, e: u64)
    requires Tree(mem, root, place) && t in place && |place[t]| == 3 && i < 512
    ensures Tree(Write(mem, t, i, e), root, place)
  {
  }

  /** Writing the leaf entry of v changes the walks of the addresses on its page to that entry, and no other walk. */
  lemma LeafWrite(mem: Memory, root: nat, place: map<nat, seq<nat>>, v: u64, t: nat, e: u64, w: u64)
    requires Tree(mem, root, place) && Reaches(mem, root, v, 0, 3, t)
    ensures t in place && Tree(Write(mem, t, Index(v, 3), e), root, place)
    ensures WalkFrom(Write(mem, t, Index(v, 3), e), root, w, 0) ==
            if PageNumber(w) != PageNumber(v) then WalkFrom(mem, root, w, 0)
            else if Present(e) then Some(e) else None
  {
    var i := Index(v, 3);
    WalkThrough(mem, root, place, v, t, root, 0, 3);
    var mem2 := Write(mem, t, i, e);
    LeafTree(mem, root, place, t, i, e);
    FullPath(v, w);
    if PageNumber(w) != PageNumber(v) {
      WalkOffPath(mem, root, place, t, i, e, w, root, 0);
    } else {
      ReachesSamePage(mem, root, v, w, 3, t);
      ReachesAfterLeaf(mem, root, place, w, i, e, t, root, 0);
      WalkThrough(mem2, root, place, w, t, root, 0, 3);
    }
  }

  /** It changes no entry that points to a table. */
  lemma {:induction false} LeafEntries(mem: Memory, root: nat, place: map<nat, seq<nat>>, t: nat, i: nat, e: u64,
                                       w: u64, f: nat, k: nat, n: nat)
    requires Tree(mem, root, place) && t in place && |place[t]| == 3 && i < 512
    requires k <= n < 3 && f in place && place[f] == Path(w, k)
    ensures EntryAt(Write(mem, t, i, e), f, w, k, n) == EntryAt(mem, f, w, k, n)
    decreases n - k
  {
    assert f != t;
    if k < n && Present(mem[f][Index(w, k)]) {
      LeafEntries(mem, root, place, t, i, e, w, FrameOf(mem[f][Index(w, k)]), k + 1, n);
    }
  }

  lemma LeafKeepsTables(mem: Memory, root: nat, place: map<nat, seq<nat>>, t: nat, i: nat, e: u64)
    requires Tree(mem, root, place) && t in place && |place[t]| == 3 && i < 512
    ensures TablesKept(mem, Write(mem, t, i, e), root)
  {
    forall w: u64, n | 0 <= n < 3
      ensures EntryKept(EntryAt(mem, root, w, 0, n), EntryAt(Write(mem, t, i, e), root, w, 0, n))
    {
      LeafEntries(mem, root, place, t, i, e, w, root, 0, n);
    }
  }

  // ---- Adding a table ----

  /** Memory after frame c has been cleared and hung into entry i of table t. */
  function AddTable(mem: Memory, t: nat, i: nat, c: nat, e: u64): Memory
    requires t < |mem| && c < |mem| && i < 512
  {
    Write(mem[c := ZeroFrame()], t, i, e)
  }

  ghost predicate CanAdd(mem: Memory, root: nat, place: map<nat, seq<nat>>, t: nat, i: nat, c: nat, e: u64) {
    && Tree(mem, root, place) && t in place && |place[t]| < 3 && i < 512
    && c < |mem| && c !in place && FrameOf(e) == c && !Present(mem[t][i])
  }

  /** An empty table in a place that had none keeps the tree unshared. */
  lemma AddTableTree(mem: Memory, root: nat, place: map<nat, seq<nat>>, t: nat, i: nat, c: nat, e: u64)
    requires CanAdd(mem, root, place, t, i, c, e)
    ensures Tree(AddTable(mem, t, i, c, e), root, place[c := place[t] + [i]])
  {
  }

  /** No walk changes. */
  lemma {:induction false} AddTableWalk(mem: Memory, root: nat, place: map<nat, seq<nat>>, t: nat, i: nat, c: nat,
                                        e: u64, w: u64, f: nat, k: nat)
    requires CanAdd(mem, root, place, t, i, c, e) && k < 4 && f in place && place[f] == Path(w, k)
    ensures WalkFrom(AddTable(mem, t, i, c, e), f, w, k) == WalkFrom(mem, f, w, k)
    decreases 4 - k
  {
    var mem2 := AddTable(mem, t, i, c, e);
    if f == t && Index(w, k) == i {
      assert k < 3;
      assert mem2[c][Index(w, k + 1)] == 0;
      assert WalkFrom(mem2, c, w, k + 1) == None;
    } else {
      assert mem2[f][Index(w, k)] == mem[f][Index(w, k)];
      if k < 3 && Present(mem[f][Index(w, k)]) {
        AddTableWalk(mem, root, place, t, i, c, e, w, FrameOf(mem[f][Index(w, k)]), k + 1);
      }
    }
  }

  /** Only the entry that is filled changes among those that point to tables. */
  lemma {:induction false} AddTableEntries(mem: Memory, root: nat, place: map<nat, seq<nat>>, t: nat, i: nat, c: nat,
                                           e: u64, w: u64, f: nat, k: nat, n: nat)
    requires CanAdd(mem, root, place, t, i, c, e) && e % 4096 == 3
    requires k <= n < 3 && f in place && place[f] == Path(w, k)
    ensures EntryKept(EntryAt(mem, f, w, k, n), EntryAt(AddTable(mem, t, i, c, e), f, w, k, n))
    decreases n - k
  {
    var mem2 := AddTable(mem, t, i, c, e);
    if f == t && Index(w, k) == i {
      assert k < n ==> mem2[c][Index(w, k + 1)] == 0;
    } else {
      assert mem2[f][Index(w, k)] == mem[f][Index(w, k)];
      if k < n && Present(mem[f][Index(w, k)]) {
        AddTableEntries(mem, root, place, t, i, c, e, w, FrameOf(mem[f][Index(w, k)]), k + 1, n);
      }
    }
  }

  lemma AddTableKeeps(mem: Memory, root: nat, place: map<nat, seq<nat>>, t: nat, i: nat, c: nat, e: u64)
    requires CanAdd(mem, root, place, t, i, c, e) && e % 4096 == 3
    ensures TablesKept(mem, AddTable(mem, t, i, c, e), root)
  {
    forall w: u64, n | 0 <= n < 3
      ensures EntryKept(EntryAt(mem, root, w, 0, n), EntryAt(AddTable(mem, t, i, c, e), root, w, 0, n))
    {
      AddTableEntries(mem, root, place, t, i, c, e, w, root, 0, n);
    }
  }

  lemma {:induction false} AddTableReaches(mem: Memory, root: nat, place: map<nat, seq<nat>>, t: nat, c: nat, e: u64,
                                           v: u64, f: nat, k: nat, n: nat)
    requires k <= n < 3 && CanAdd(mem, root, place, t, Index(v, n), c, e) && Present(e)
    requires f in place && place[f] == Path(v, k) && place[t] == Path(v, n) && Reaches(mem, f, v, k, n, t)
    ensures Reaches(AddTable(mem, t, Index(v, n), c, e), f, v, k, n + 1, c)
    decreases n - k
  {
    var mem2 := AddTable(mem, t, Index(v, n), c, e);
    if k < n {
      assert f != t && f != c;
      assert mem2[f][Index(v, k)] == mem[f][Index(v, k)];
      AddTableReaches(mem, root, place, t, c, e, v, FrameOf(mem[f][Index(v, k)]), k + 1, n);
    }
  }

  /** What is missing for v is what is missing below the table reached. */
  lemma {:induction false} MissingThrough(mem: Memory, f: nat, v: u64, k: nat, n: nat, t: nat)
    requires k <= n < 4 && Reaches(mem, f, v, k, n, t)
    ensures MissingFrom(mem, f, v, k) == MissingFrom(mem, t, v, n)
    decreases n - k
  {
    if k < n {
      MissingThrough(mem, FrameOf(mem[f][Index(v, k)]), v, k + 1, n, t);
    }
  }

  /** Adding the table below t on the way of v: the tree stays unshared, no walk changes, v gets one level further and
      lacks one table less. */
  lemma AddTableEffect(mem: Memory, root: nat, place: map<nat, seq<nat>>, t: nat, c: nat, e: u64, v: u64, n: nat)
    requires n < 3 && Reaches(mem, root, v, 0, n, t) && t in place && CanAdd(mem, root, place, t, Index(v, n), c, e) &&
             Present(e)
    ensures var mem2 := AddTable(mem, t, Index(v, n), c, e);
            && Tree(mem2, root, place[c := place[t] + [Index(v, n)]])
            && SameWalks(mem, mem2, root)
            && Reaches(mem2, root, v, 0, n + 1, c)
            && MissingFrom(mem2, root, v, 0) == MissingFrom(mem, root, v, 0) - 1
  {
    var mem2 := AddTable(mem, t, Index(v, n), c, e);
    WalkThrough(mem, root, place, v, t, root, 0, n);
    AddTableTree(mem, root, place, t, Index(v, n), c, e);
    forall w: u64
      ensures Leaf(mem2, root, w) == Leaf(mem, root, w)
    {
      AddTableWalk(mem, root, place, t, Index(v, n), c, e, w, root, 0);
    }
    AddTableReaches(mem, root, place, t, c, e, v, root, 0, n);
    MissingThrough(mem, root, v, 0, n, t);
    MissingThrough(mem2, root, v, 0, n + 1, c);
    assert n + 1 < 3 ==> mem2[c][Index(v, n + 1)] == 0;
  }
}
