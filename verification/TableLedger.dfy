/** Which page tables are created, and which pages mapped, when the free frames may not suffice
    (src/memory/vmm.c:81-110, 190-261). */
module TableLedger {
  import opened Bytes
  import opened Paging
  import opened TableNeeds

  /** The tables that a mapping of v creates with so many frames left, when those in made exist beside the ones in mem:
      all that v lacks, or as many as there are frames, those nearest to the root first. */
  function Creates(mem: Memory, root: nat, made: set<seq<nat>>, free: nat, v: u64): set<seq<nat>> {
    var lacks := MissingPaths(mem, root, v) - made;
    if |lacks| <= free || |lacks| - free > 3 then lacks else lacks - LastPaths(v, |lacks| - free)
  }

  /** Within the limits everything is created. */
  lemma CreatesAll(mem: Memory, root: nat, free: nat, v: u64)
    requires MissingFrom(mem, root, v, 0) <= free
    ensures Creates(mem, root, {}, free, v) == MissingPaths(mem, root, v)
  {
    LastPathsCount(v, MissingFrom(mem, root, v, 0));
    assert MissingPaths(mem, root, v) - {} == MissingPaths(mem, root, v);
  }

  /** Beyond them every frame has become a table. */
  lemma CreatesSome(mem: Memory, mem2: Memory, root: nat, free: nat, v: u64)
    requires MadeFor(mem, mem2, root, v) && MissingFrom(mem, root, v, 0) > free
    requires MissingFrom(mem2, root, v, 0) == MissingFrom(mem, root, v, 0) - free
    ensures Made(mem, mem2, root, Creates(mem, root, {}, free, v)) && |Creates(mem, root, {}, free, v)| == free
  {
    var m, left := MissingFrom(mem, root, v, 0), MissingFrom(mem2, root, v, 0);
    var lacks := MissingPaths(mem, root, v);
    LastPathsCount(v, m);
    LastPathsCount(v, left);
    assert lacks - {} == lacks && Creates(mem, root, {}, free, v) == lacks - LastPaths(v, left);
    forall p | p in LastPaths(v, left)
      ensures p in lacks
    {
      LastPathsHave(v, left, p);
      LastPathsHave(v, m, p);
    }
    assert lacks == (lacks - LastPaths(v, left)) + LastPaths(v, left);
  }

  /** What is created depends on the tables there are, whether they were there from the start or not. */
  lemma CreatesAfter(mem0: Memory, mem: Memory, root: nat, made: set<seq<nat>>, more: set<seq<nat>>, free: nat, v: u64)
    requires Made(mem0, mem, root, made)
    ensures Creates(mem, root, more, free, v) == Creates(mem0, root, made + more, free, v)
    ensures MissingPaths(mem, root, v) - more == MissingPaths(mem0, root, v) - (made + more)
    ensures Creates(mem, root, more, free, v) !! made && Creates(mem, root, more, free, v) !! more
  {
    assert MissingPaths(mem, root, v) == MissingPaths(mem0, root, v) - made;
    assert MissingPaths(mem, root, v) - more == MissingPaths(mem0, root, v) - (made + more);
  }

  /** Whether the page of v is mapped out of frames frames, of which the tables in made have taken some, and the tables
      there are then. */
  function Page(mem: Memory, root: nat, made: set<seq<nat>>, frames: nat, v: u64): (r: (bool, set<seq<nat>>)) {
    var free := if |made| <= frames then frames - |made| else 0;
    (|MissingPaths(mem, root, v) - made| <= free, made + Creates(mem, root, made, free, v))
  }

  /** What a mapping of v has created, by the tables it leaves missing. */
  lemma PageMade(mem: Memory, mem2: Memory, root: nat, free: nat, free2: nat, v: u64, ok: bool)
    requires MadeFor(mem, mem2, root, v) && (ok <==> MissingFrom(mem, root, v, 0) <= free)
    requires free - free2 == MissingFrom(mem, root, v, 0) - MissingFrom(mem2, root, v, 0)
    requires if ok then MissingFrom(mem2, root, v, 0) == 0 else free2 == 0
    ensures var p := Page(mem, root, {}, free, v);
            p.0 == ok && Made(mem, mem2, root, p.1) && free2 == free - |p.1|
  {
    var lacks, all := MissingPaths(mem, root, v), Creates(mem, root, {}, free, v);
    assert |lacks| == MissingFrom(mem, root, v, 0) by {
      LastPathsCount(v, MissingFrom(mem, root, v, 0));
    }
    assert lacks - {} == lacks && {} + all == all;
    if ok {
      CreatesAll(mem, root, free, v);
      MadeAll(mem, mem2, root, v);
    } else {
      CreatesSome(mem, mem2, root, free, v);
    }
  }

  /** The same for the first n pages from v on, with the number of those that are mapped. */
  function Range(mem: Memory, root: nat, made: set<seq<nat>>, frames: nat, v: u64, n: nat): (r: (nat, set<seq<nat>>))
    ensures r.0 <= n
  {
    if n == 0 then (0, made) else
      var (count, all) := Range(mem, root, made, frames, v, n - 1);
      if count < n - 1 then (count, all) else
        var (ok, more) := Page(mem, root, all, frames, PageAt(v, n - 1));
        (if ok then n else n - 1, more)
  }

  /** What the next page needs beyond the first n. */
  lemma NextPage(mem: Memory, root: nat, frames: nat, v: u64, n: nat)
    requires |Needed(mem, root, v, n)| <= frames
    ensures var (ok, more) := Page(mem, root, Needed(mem, root, v, n), frames, PageAt(v, n));
            && (ok <==> |Needed(mem, root, v, n + 1)| <= frames)
            && (ok ==> more == Needed(mem, root, v, n + 1))
  {
    var few := Needed(mem, root, v, n);
    var lacks := MissingPaths(mem, root, PageAt(v, n));
    Grow(few, lacks, lacks - few, Needed(mem, root, v, n + 1));
  }

  /** One more page. */
  lemma RangeOne(mem: Memory, root: nat, made: set<seq<nat>>, frames: nat, v: u64, n: nat, count: nat,
                 all: set<seq<nat>>)
    requires Range(mem, root, made, frames, v, n) == (count, all)
    ensures count < n ==> Range(mem, root, made, frames, v, n + 1) == (count, all)
    ensures count == n ==> var (ok, more) := Page(mem, root, all, frames, PageAt(v, n));
                           Range(mem, root, made, frames, v, n + 1) == (if ok then n + 1 else n, more)
  {
  }

  lemma RangeMore(mem: Memory, root: nat, frames: nat, v: u64, n: nat)
    requires |Needed(mem, root, v, n)| <= frames && |Needed(mem, root, v, n + 1)| <= frames
    requires Range(mem, root, {}, frames, v, n) == (n, Needed(mem, root, v, n))
    ensures Range(mem, root, {}, frames, v, n + 1) == (n + 1, Needed(mem, root, v, n + 1))
  {
    NextPage(mem, root, frames, v, n);
    RangeOne(mem, root, {}, frames, v, n, n, Needed(mem, root, v, n));
  }

  /** As long as everything fits the tables are those needed. */
  lemma {:induction false} RangeAll(mem: Memory, root: nat, frames: nat, v: u64, n: nat)
    requires |Needed(mem, root, v, n)| <= frames
    ensures Range(mem, root, {}, frames, v, n) == (n, Needed(mem, root, v, n))
  {
    if n > 0 {
      var m := n - 1;
      assert |Needed(mem, root, v, m)| <= frames by {
        NeededGrows(mem, root, v, m, n);
      }
      RangeAll(mem, root, frames, v, m);
      RangeMore(mem, root, frames, v, m);
    }
  }

  /** Nothing happens after the first page that does not fit. */
  lemma {:induction false} RangeStays(mem: Memory, root: nat, frames: nat, v: u64, count: nat, n: nat,
                                      all: set<seq<nat>>)
    requires count < n && Range(mem, root, {}, frames, v, count + 1) == (count, all)
    ensures Range(mem, root, {}, frames, v, n) == (count, all)
  {
    if n > count + 1 {
      var m := n - 1;
      RangeStays(mem, root, frames, v, count, m, all);
      RangeOne(mem, root, {}, frames, v, m, count, all);
    }
  }

  /** That page takes the last frames. */
  lemma RangeStop(mem: Memory, root: nat, frames: nat, v: u64, count: nat, n: nat)
    requires count < n && |Needed(mem, root, v, count)| <= frames < |Needed(mem, root, v, count + 1)|
    ensures Range(mem, root, {}, frames, v, n) ==
            (count, Page(mem, root, Needed(mem, root, v, count), frames, PageAt(v, count)).1)
  {
    var few := Needed(mem, root, v, count);
    var p := Page(mem, root, few, frames, PageAt(v, count));
    RangeAll(mem, root, frames, v, count);
    NextPage(mem, root, frames, v, count);
    RangeOne(mem, root, {}, frames, v, count, count, few);
    RangeStays(mem, root, frames, v, count, n, p.1);
  }

  lemma PageAfter(mem0: Memory, mem: Memory, root: nat, made: set<seq<nat>>, more: set<seq<nat>>, frames: nat, v: u64)
    requires Made(mem0, mem, root, made) && |made| <= frames && more !! made
    ensures var (ok, all) := Page(mem, root, more, frames - |made|, v);
            Page(mem0, root, made + more, frames, v) == (ok, made + all) && all !! made
  {
    var free := if |more| <= frames - |made| then frames - |made| - |more| else 0;
    CreatesAfter(mem0, mem, root, made, more, free, v);
    Apart(made, more, Creates(mem, root, more, free, v));
  }

  lemma Apart<T>(a: set<T>, b: set<T>, c: set<T>)
    requires b !! a && c !! a
    ensures (a + b) + c == a + (b + c) && (b + c) !! a && |a + b| == |a| + |b|
  {
  }

  /** A range is mapped as far whether tables have been there from the start or created since. */
  lemma {:induction false} RangeAfter(mem0: Memory, mem: Memory, root: nat, made: set<seq<nat>>, frames: nat, v: u64,
                                      n: nat)
    requires Made(mem0, mem, root, made) && |made| <= frames
    ensures var (count, more) := Range(mem, root, {}, frames - |made|, v, n);
            Range(mem0, root, made, frames, v, n) == (count, made + more) && more !! made
  {
    if n > 0 {
      var m, left := n - 1, frames - |made|;
      RangeAfter(mem0, mem, root, made, frames, v, m);
      var (count, more) := Range(mem, root, {}, left, v, m);
      RangeOne(mem, root, {}, left, v, m, count, more);
      RangeOne(mem0, root, made, frames, v, m, count, made + more);
      PageAfter(mem0, mem, root, made, more, frames, PageAt(v, m));
    } else {
      assert made + {} == made;
    }
  }

  /** The tables there are after one more page. */
  lemma PageMadeNext(mem0: Memory, mem: Memory, mem2: Memory, root: nat, made: set<seq<nat>>, frames: nat, free2: nat,
                     v: u64)
    requires Made(mem0, mem, root, made) && |made| <= frames
    requires var p := Page(mem, root, {}, frames - |made|, v);
             Made(mem, mem2, root, p.1) && free2 == frames - |made| - |p.1|
    ensures var p := Page(mem0, root, made, frames, v); Made(mem0, mem2, root, p.1) && free2 == frames - |p.1|
  {
    var more := Page(mem, root, {}, frames - |made|, v).1;
    PageAfter(mem0, mem, root, made, {}, frames, v);
    assert made + {} == made;
    Apart(made, more, {});
    MadeBoth(mem0, mem, mem2, root, made, more);
  }

  /** What a range has come to, whether all of it fitted or not. */
  lemma RangeMade(mem: Memory, root: nat, frames: nat, v: u64, count: nat, n: nat)
    requires count <= n && |Needed(mem, root, v, count)| <= frames
    requires count < n ==> |Needed(mem, root, v, count + 1)| > frames
    ensures var few := Needed(mem, root, v, count);
            Range(mem, root, {}, frames, v, n) ==
            (count, if count == n then few else Page(mem, root, few, frames, PageAt(v, count)).1)
  {
    if count == n {
      RangeAll(mem, root, frames, v, n);
    } else {
      RangeStop(mem, root, frames, v, count, n);
    }
  }
}
