/** Which page tables a mapping lacks, as the set of their places in the tree (src/memory/vmm.c:81-110, 204-236). */
module TableNeeds {
  import opened Bytes
  import opened Paging

  /** The last m places on the way of v. */
  function LastPaths(v: u64, m: nat): set<seq<nat>>
    requires m <= 3
  {
    if m == 0 then {} else LastPaths(v, m - 1) + {Path(v, 4 - m)}
  }

  lemma {:induction false} LastPathsHave(v: u64, m: nat, p: seq<nat>)
    requires m <= 3
    ensures p in LastPaths(v, m) <==> 3 - m < |p| <= 3 && p == Path(v, |p|)
  {
    if m > 0 {
      LastPathsHave(v, m - 1, p);
    }
  }

  /** There are as many of them as tables have to be created. */
  lemma {:induction false} LastPathsCount(v: u64, m: nat)
    requires m <= 3
    ensures |LastPaths(v, m)| == m
  {
    if m > 0 {
      LastPathsCount(v, m - 1);
      LastPathsHave(v, m - 1, Path(v, 4 - m));
    }
  }

  /** The places on the way of v, below the root, that have no table. */
  function MissingPaths(mem: Memory, root: nat, v: u64): set<seq<nat>> {
    LastPaths(v, MissingFrom(mem, root, v, 0))
  }

  /** Exactly the tables in made have been created. */
  ghost predicate Made(mem: Memory, mem2: Memory, root: nat, made: set<seq<nat>>) {
    forall w: u64 {:trigger MissingPaths(mem2, root, w)} ::
        MissingPaths(mem2, root, w) == MissingPaths(mem, root, w) - made
  }

  lemma MadeNone(mem: Memory, root: nat)
    ensures Made(mem, mem, root, {})
  {
  }

  lemma MadeBoth(mem: Memory, mem1: Memory, mem2: Memory, root: nat, a: set<seq<nat>>, b: set<seq<nat>>)
    requires Made(mem, mem1, root, a) && Made(mem1, mem2, root, b)
    ensures Made(mem, mem2, root, a + b)
  {
    forall w: u64
      ensures MissingPaths(mem2, root, w) == MissingPaths(mem, root, w) - (a + b)
    {
      assert MissingPaths(mem1, root, w) == MissingPaths(mem, root, w) - a;
    }
  }

  /** The tables created are some of those that v lacks. */
  ghost predicate MadeFor(mem: Memory, mem2: Memory, root: nat, v: u64) {
    Made(mem, mem2, root, MissingPaths(mem, root, v) - MissingPaths(mem2, root, v))
  }

  lemma MadeForSame(mem: Memory, mem2: Memory, root: nat, v: u64)
    requires Made(mem, mem2, root, {})
    ensures MadeFor(mem, mem2, root, v) && MissingPaths(mem2, root, v) == MissingPaths(mem, root, v)
    ensures MissingFrom(mem2, root, v, 0) == MissingFrom(mem, root, v, 0)
  {
    assert MissingPaths(mem2, root, v) == MissingPaths(mem, root, v);
    LastPathsCount(v, MissingFrom(mem, root, v, 0));
    LastPathsCount(v, MissingFrom(mem2, root, v, 0));
    assert MissingPaths(mem, root, v) - MissingPaths(mem2, root, v) == {};
  }

  lemma MadeForBoth(mem: Memory, mem1: Memory, mem2: Memory, root: nat, v: u64)
    requires MadeFor(mem, mem1, root, v) && MadeFor(mem1, mem2, root, v)
    ensures MadeFor(mem, mem2, root, v)
  {
    var a, b, c := MissingPaths(mem, root, v), MissingPaths(mem1, root, v), MissingPaths(mem2, root, v);
    MadeBoth(mem, mem1, mem2, root, a - b, b - c);
    assert b == a - (a - b) && c == b - (b - c);
    assert (a - b) + (b - c) == a - c;
  }

  /** Once nothing is missing for v, exactly what v lacked has been created. */
  lemma MadeAll(mem: Memory, mem2: Memory, root: nat, v: u64)
    requires MadeFor(mem, mem2, root, v) && MissingFrom(mem2, root, v, 0) == 0
    ensures Made(mem, mem2, root, MissingPaths(mem, root, v))
  {
    assert MissingPaths(mem2, root, v) == {};
    assert MissingPaths(mem, root, v) - MissingPaths(mem2, root, v) == MissingPaths(mem, root, v);
  }

  // ---- A new table ----

  /** A table added elsewhere is no help. */
  lemma {:induction false} MissingElsewhere(mem: Memory, root: nat, place: map<nat, seq<nat>>, t: nat, i: nat, c: nat,
                                            e: u64, w: u64, f: nat, k: nat)
    requires CanAdd(mem, root, place, t, i, c, e) && k < 4 && f in place && place[f] == Path(w, k)
    requires |place[t]| < 3 && Path(w, |place[t]| + 1) != place[t] + [i]
    ensures MissingFrom(AddTable(mem, t, i, c, e), f, w, k) == MissingFrom(mem, f, w, k)
    decreases 4 - k
  {
    var mem2 := AddTable(mem, t, i, c, e);
    assert !(f == t && Index(w, k) == i);
    if k < 3 {
      assert mem2[f][Index(w, k)] == mem[f][Index(w, k)];
      if Present(mem[f][Index(w, k)]) {
        MissingElsewhere(mem, root, place, t, i, c, e, w, FrameOf(mem[f][Index(w, k)]), k + 1);
      }
    }
  }

  /** Adding the table below t on the way of v: exactly that place is missing no more, for any address. */
  lemma AddTableMade(mem: Memory, root: nat, place: map<nat, seq<nat>>, t: nat, c: nat, e: u64, v: u64, n: nat)
    requires n < 3 && Reaches(mem, root, v, 0, n, t) && t in place && CanAdd(mem, root, place, t, Index(v, n), c, e) &&
             Present(e)
    ensures Made(mem, AddTable(mem, t, Index(v, n), c, e), root, {Path(v, n + 1)})
    ensures MadeFor(mem, AddTable(mem, t, Index(v, n), c, e), root, v)
  {
    var mem2 := AddTable(mem, t, Index(v, n), c, e);
    WalkThrough(mem, root, place, v, t, root, 0, n);
    forall w: u64
      ensures MissingPaths(mem2, root, w) == MissingPaths(mem, root, w) - {Path(v, n + 1)}
      ensures w == v ==> Path(v, n + 1) in MissingPaths(mem, root, v)
    {
      if Path(w, n + 1) == Path(v, n + 1) {
        AddTableMadeAt(mem, root, place, t, c, e, v, w, n);
      } else {
        MissingElsewhere(mem, root, place, t, Index(v, n), c, e, w, root, 0);
        LastPathsHave(w, MissingFrom(mem, root, w, 0), Path(v, n + 1));
      }
    }
    assert MissingPaths(mem, root, v) - MissingPaths(mem2, root, v) == {Path(v, n + 1)};
  }

  lemma AddTableMadeAt(mem: Memory, root: nat, place: map<nat, seq<nat>>, t: nat, c: nat, e: u64, v: u64, w: u64,
                       n: nat)
    requires n < 3 && Reaches(mem, root, v, 0, n, t) && t in place && CanAdd(mem, root, place, t, Index(v, n), c, e) &&
             Present(e)
    requires Path(w, n + 1) == Path(v, n + 1)
    ensures var mem2 := AddTable(mem, t, Index(v, n), c, e);
            && MissingPaths(mem2, root, w) == MissingPaths(mem, root, w) - {Path(v, n + 1)}
            && Path(v, n + 1) in MissingPaths(mem, root, w)
  {
    assert Path(v, n + 1)[..n] == Path(v, n) && Path(w, n + 1)[..n] == Path(w, n);
    PathIndex(v, w, n, n + 1);
    ReachesSamePath(mem, root, v, w, 0, n, t);
    AddTableEffect(mem, root, place, t, c, e, w, n);
    MissingThrough(mem, root, w, 0, n, t);
    assert MissingFrom(mem, root, w, 0) == 3 - n;
    LastPathsHave(w, 2 - n, Path(w, n + 1));
  }

  // ---- Writing a leaf ----

  lemma {:induction false} LeafMissing(mem: Memory, root: nat, place: map<nat, seq<nat>>, t: nat, i: nat, e: u64,
                                       w: u64, f: nat, k: nat)
    requires Tree(mem, root, place) && t in place && |place[t]| == 3 && i < 512 && k < 4
    requires f in place && place[f] == Path(w, k)
    ensures MissingFrom(Write(mem, t, i, e), f, w, k) == MissingFrom(mem, f, w, k)
    decreases 4 - k
  {
    if k < 3 {
      assert f != t;
      if Present(mem[f][Index(w, k)]) {
        LeafMissing(mem, root, place, t, i, e, w, FrameOf(mem[f][Index(w, k)]), k + 1);
      }
    }
  }

  /** A leaf entry is no table. */
  lemma LeafMade(mem: Memory, root: nat, place: map<nat, seq<nat>>, t: nat, i: nat, e: u64)
    requires Tree(mem, root, place) && t in place && |place[t]| == 3 && i < 512
    ensures Made(mem, Write(mem, t, i, e), root, {})
  {
    forall w: u64
      ensures MissingPaths(Write(mem, t, i, e), root, w) == MissingPaths(mem, root, w)
    {
      LeafMissing(mem, root, place, t, i, e, w, root, 0);
    }
  }

  // ---- The tables that the first n pages from v on lack ----

  function Needed(mem: Memory, root: nat, v: u64, n: nat): set<seq<nat>> {
    if n == 0 then {} else Needed(mem, root, v, n - 1) + MissingPaths(mem, root, PageAt(v, n - 1))
  }

  /** The i-th page address from v on. */
  function PageAt(v: u64, i: nat): u64 {
    (v + i * PAGE_SIZE) % TWO_TO_THE_64
  }

  lemma {:induction false} NeededGrows(mem: Memory, root: nat, v: u64, i: nat, n: nat)
    requires i <= n
    ensures Needed(mem, root, v, i) <= Needed(mem, root, v, n) && |Needed(mem, root, v, i)| <= |Needed(mem, root, v, n)|
  {
    if i < n {
      NeededGrows(mem, root, v, i, n - 1);
      Smaller(Needed(mem, root, v, n - 1), Needed(mem, root, v, n));
    }
  }

  lemma Smaller<T>(a: set<T>, b: set<T>)
    requires a <= b
    ensures |a| <= |b|
  {
    assert b == a + (b - a);
  }

  /** After the tables in made have been created, a range lacks only the others. */
  lemma {:induction false} NeededAfter(mem: Memory, mem2: Memory, root: nat, made: set<seq<nat>>, v: u64, n: nat)
    requires Made(mem, mem2, root, made)
    ensures Needed(mem2, root, v, n) == Needed(mem, root, v, n) - made
  {
    if n > 0 {
      NeededAfter(mem, mem2, root, made, v, n - 1);
      assert MissingPaths(mem2, root, PageAt(v, n - 1)) == MissingPaths(mem, root, PageAt(v, n - 1)) - made;
    }
  }

  /** With mem1 in the state after i pages, what page i lacks is the growth of the need. */
  lemma NextNeed(mem: Memory, mem1: Memory, root: nat, v: u64, i: nat)
    requires Made(mem, mem1, root, Needed(mem, root, v, i))
    ensures |Needed(mem, root, v, i + 1)| == |Needed(mem, root, v, i)| + MissingFrom(mem1, root, PageAt(v, i), 0)
    ensures Needed(mem, root, v, i) + MissingPaths(mem1, root, PageAt(v, i)) == Needed(mem, root, v, i + 1)
  {
    var a, b := Needed(mem, root, v, i), MissingPaths(mem1, root, PageAt(v, i));
    assert b == MissingPaths(mem, root, PageAt(v, i)) - a;
    assert Needed(mem, root, v, i + 1) == a + b;
    LastPathsCount(PageAt(v, i), MissingFrom(mem1, root, PageAt(v, i), 0));
  }

  lemma PageAtSum(v: u64, a: nat, i: nat)
    ensures PageAt(PageAt(v, a), i) == PageAt(v, a + i)
  {
    var s := v + a * PAGE_SIZE;
    assert s == s / TWO_TO_THE_64 * TWO_TO_THE_64 + PageAt(v, a);
    AddMultiple(PageAt(v, a) + i * PAGE_SIZE, s / TWO_TO_THE_64);
  }

  lemma {:induction false} AddMultiple(x: nat, k: nat)
    ensures (x + k * TWO_TO_THE_64) % TWO_TO_THE_64 == x % TWO_TO_THE_64
  {
    if k > 0 {
      AddMultiple(x, k - 1);
      assert x + k * TWO_TO_THE_64 == (x + (k - 1) * TWO_TO_THE_64) + TWO_TO_THE_64;
    }
  }

  lemma {:induction false} NeededSplit(mem: Memory, root: nat, v: u64, n: nat, next: u64, more: nat, total: nat)
    requires next == PageAt(v, n) && total == n + more
    ensures Needed(mem, root, v, total) == Needed(mem, root, v, n) + Needed(mem, root, next, more)
  {
    if more > 0 {
      NeededSplit(mem, root, v, n, next, more - 1, total - 1);
      PageAtSum(v, n, more - 1);
    }
  }

  /** With mem1 in the state after n pages, what the next pages lack is the growth of the need. */
  lemma NextRangeNeed(mem: Memory, mem1: Memory, root: nat, v: u64, n: nat, next: u64, more: nat, total: nat)
    requires Made(mem, mem1, root, Needed(mem, root, v, n))
    requires Needed(mem, root, v, total) == Needed(mem, root, v, n) + Needed(mem, root, next, more)
    ensures Needed(mem, root, v, n) + Needed(mem1, root, next, more) == Needed(mem, root, v, total)
    ensures |Needed(mem, root, v, total)| == |Needed(mem, root, v, n)| + |Needed(mem1, root, next, more)|
  {
    NeededAfter(mem, mem1, root, Needed(mem, root, v, n), next, more);
    Grow(Needed(mem, root, v, n), Needed(mem, root, next, more), Needed(mem1, root, next, more),
         Needed(mem, root, v, total));
  }

  lemma Grow<T>(x: set<T>, more: set<T>, y: set<T>, all: set<T>)
    requires y == more - x && all == x + more
    ensures x + y == all && |all| == |x| + |y|
  {
    assert x + y == all;
  }
}
