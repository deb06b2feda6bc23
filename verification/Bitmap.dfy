/** The bitmap block allocator of src/memory/bitmap_mem.c. */
module Bitmap {
  import opened Bytes

  const BLOCK_SIZE := 4096
  const MAX_BLOCKS := 32768

  // ---- Bits of a byte (src/memory/bitmap_mem.c:5-7) ----

  function BitMask(i: nat): bv8
    requires i < 8
  {
    (1 as bv8) << i
  }

  predicate TestBit(b: bv8, i: nat)
    requires i < 8
  {
    b & BitMask(i) != 0
  }

  /** BITMAP_TEST_BIT (src/memory/bitmap_mem.c:7). */
  predicate BitAt(bitmap: array<bv8>, bit: nat)
    requires bit / 8 < bitmap.Length
    reads bitmap
  {
    TestBit(bitmap[bit / 8], bit % 8)
  }

  lemma SetOneBit(b: bv8, i: nat, j: nat)
    requires i < 8 && j < 8
    ensures TestBit(b | BitMask(i), j) <==> i == j || TestBit(b, j)
  {
    MaskValues();
  }

  lemma ClearOneBit(b: bv8, i: nat, j: nat)
    requires i < 8 && j < 8
    ensures TestBit(b & !BitMask(i), j) <==> i != j && TestBit(b, j)
  {
    MaskValues();
  }

  lemma MaskValues()
    ensures BitMask(0) == 1 && BitMask(1) == 2 && BitMask(2) == 4 && BitMask(3) == 8
    ensures BitMask(4) == 16 && BitMask(5) == 32 && BitMask(6) == 64 && BitMask(7) == 128
  {
  }

  lemma SamePlace(i: nat, j: nat)
    requires i / 8 == j / 8
    ensures i % 8 == j % 8 <==> i == j
  {
  }

  // ---- Blocks in use, as a sequence of flags ----

  /** How many of the first n blocks are free. */
  function FreeUpTo(used: seq<bool>, n: nat): nat
    requires n <= |used|
  {
    if n == 0 then 0 else FreeUpTo(used, n - 1) + if used[n - 1] then 0 else 1
  }

  function FreeCount(used: seq<bool>): nat {
    FreeUpTo(used, |used|)
  }

  lemma {:induction false} FreeUpdate(used: seq<bool>, n: nat, i: nat, v: bool)
    requires n <= |used| && i < |used|
    ensures FreeUpTo(used[i := v], n) ==
            FreeUpTo(used, n) + if i < n then (if used[i] then 1 else 0) - (if v then 1 else 0) else 0
  {
    if n > 0 {
      FreeUpdate(used, n - 1, i, v);
    }
  }

  lemma {:induction false} NoneFree(used: seq<bool>, n: nat)
    requires n <= |used|
    ensures FreeUpTo(used, n) <= n
    ensures FreeUpTo(used, n) == 0 <==> forall i :: 0 <= i < n ==> used[i]
    ensures FreeUpTo(used, n) == n <==> forall i :: 0 <= i < n ==> !used[i]
  {
    if n > 0 {
      NoneFree(used, n - 1);
    }
  }

  /** The n blocks from s on are free. */
  ghost predicate IsRun(used: seq<bool>, s: nat, n: nat) {
    s + n <= |used| && forall i :: s <= i < s + n ==> !used[i]
  }

  /** s is the lowest place where n free blocks lie in a row. */
  ghost predicate IsFirstRun(used: seq<bool>, s: nat, n: nat) {
    IsRun(used, s, n) && forall t :: 0 <= t < s ==> !IsRun(used, t, n)
  }

  /** used after setting the flags of the n blocks from s on. */
  function Mark(used: seq<bool>, s: nat, n: nat, v: bool): (r: seq<bool>)
    requires s + n <= |used|
    ensures |r| == |used|
    ensures forall i :: 0 <= i < |used| ==> r[i] == if s <= i < s + n then v else used[i]
  {
    if n == 0 then used else Mark(used, s, n - 1, v)[s + n - 1 := v]
  }

  /** Taking a run removes exactly its blocks from the free ones; so a run is never longer than the free count. */
  lemma {:induction false} FreeAfterTaking(used: seq<bool>, s: nat, n: nat)
    requires IsRun(used, s, n)
    ensures FreeCount(Mark(used, s, n, true)) == FreeCount(used) - n
  {
    if n > 0 {
      FreeAfterTaking(used, s, n - 1);
      FreeUpdate(Mark(used, s, n - 1, true), |used|, s + n - 1, true);
    }
  }

  /** The scan of bitmap_alloc_blocks before block i: c free blocks end there, start is the first of them, and no run
      of count blocks has been passed. */
  ghost predicate Scanned(used: seq<bool>, count: nat, i: nat, start: nat, c: nat) {
    && c <= i <= |used| && c < count
    && (c > 0 ==> start == i - c)
    && (forall j :: i - c <= j < i ==> !used[j])
    && (i - c > 0 ==> used[i - c - 1])
    && (forall t :: 0 <= t && t + count <= i ==> !IsRun(used, t, count))
  }

  lemma ScanFree(used: seq<bool>, count: nat, i: nat, start: nat, c: nat)
    requires Scanned(used, count, i, start, c) && i < |used| && !used[i]
    ensures var start2 := if c == 0 then i else start;
            if c + 1 == count then IsFirstRun(used, start2, count) else Scanned(used, count, i + 1, start2, c + 1)
  {
    if c + 1 < count {
      forall t | 0 <= t && t + count <= i + 1
        ensures !IsRun(used, t, count)
      {
        if t + count == i + 1 {
          assert t <= i - c - 1 < t + count && used[i - c - 1];
        }
      }
    }
  }

  lemma ScanUsed(used: seq<bool>, count: nat, i: nat, start: nat, c: nat)
    requires Scanned(used, count, i, start, c) && i < |used| && used[i]
    ensures Scanned(used, count, i + 1, start, 0)
  {
  }

  /** The first free block is the first run of length 1. */
  lemma FirstFree(used: seq<bool>, i: nat)
    requires i < |used| && !used[i] && forall t :: 0 <= t < i ==> used[t]
    ensures IsFirstRun(used, i, 1)
  {
    forall t | 0 <= t < i
      ensures !IsRun(used, t, 1)
    {
      assert used[t];
    }
  }

  class BitmapManager {
    var bitmap: array<bv8>
    var memoryBase: nat
    var totalBlocks: nat
    var freeBlocks: nat

    /** Which blocks are in use. */
    ghost var used: seq<bool>

    ghost predicate Valid()
      reads this, bitmap
    {
      && |used| == totalBlocks <= 8 * bitmap.Length
      && (forall i {:trigger BitAt(bitmap, i)} :: 0 <= i < totalBlocks ==> used[i] == BitAt(bitmap, i))
      && freeBlocks == FreeCount(used)
    }

    constructor (storage: array<bv8>)
      ensures Valid() && bitmap == storage && totalBlocks == 0
    {
      bitmap, memoryBase, totalBlocks, freeBlocks, used := storage, 0, 0, 0, [];
    }

    /** bitmap_init (src/memory/bitmap_mem.c:14). */
    method Init(storage: array<bv8>, base: nat, size: nat) returns (ok: bool)
      requires 8 * storage.Length >= MAX_BLOCKS
      modifies this, storage
      ensures ok <==> size > 0
      ensures ok ==> Valid() && bitmap == storage && memoryBase == base
      ensures ok ==> used == seq(totalBlocks, _ => false)
      ensures ok ==> totalBlocks == if size / 4096 <= 32768 then size / 4096 else 32768
      ensures ok ==> freeBlocks == totalBlocks
    {
      if size == 0 {
        return false;
      }
      totalBlocks := size / BLOCK_SIZE;
      if totalBlocks > MAX_BLOCKS {
        totalBlocks := MAX_BLOCKS;
      }
      var bitmapSize := (totalBlocks + 7) / 8;
      bitmap := storage;
      forall i | 0 <= i < bitmapSize {
        storage[i] := 0;
      }
      memoryBase := base;
      freeBlocks := totalBlocks;
      used := seq(totalBlocks, _ => false);
      NoneFree(used, totalBlocks);
      ok := true;
    }

    method SetBit(i: nat)
      requires Valid() && i < totalBlocks
      modifies bitmap
      ensures |used| == totalBlocks <= 8 * bitmap.Length
      ensures forall j {:trigger BitAt(bitmap, j)} :: 0 <= j < totalBlocks ==> BitAt(bitmap, j) == used[i := true][j]
    {
      forall j | 0 <= j < totalBlocks && j / 8 == i / 8
        ensures TestBit(bitmap[i / 8] | BitMask(i % 8), j % 8) == used[i := true][j]
      {
        assert BitAt(bitmap, j) == used[j];
        SetOneBit(bitmap[i / 8], i % 8, j % 8);
        SamePlace(i, j);
      }
      bitmap[i / 8] := bitmap[i / 8] | BitMask(i % 8);
      forall j | 0 <= j < totalBlocks
        ensures BitAt(bitmap, j) == used[i := true][j]
      {
        assert old(BitAt(bitmap, j)) == used[j];
      }
    }

    method ClearBit(i: nat)
      requires Valid() && i < totalBlocks
      modifies bitmap
      ensures |used| == totalBlocks <= 8 * bitmap.Length
      ensures forall j {:trigger BitAt(bitmap, j)} :: 0 <= j < totalBlocks ==> BitAt(bitmap, j) == used[i := false][j]
    {
      forall j | 0 <= j < totalBlocks && j / 8 == i / 8
        ensures TestBit(bitmap[i / 8] & !BitMask(i % 8), j % 8) == used[i := false][j]
      {
        assert BitAt(bitmap, j) == used[j];
        ClearOneBit(bitmap[i / 8], i % 8, j % 8);
        SamePlace(i, j);
      }
      bitmap[i / 8] := bitmap[i / 8] & !BitMask(i % 8);
      forall j | 0 <= j < totalBlocks
        ensures BitAt(bitmap, j) == used[i := false][j]
      {
        assert old(BitAt(bitmap, j)) == used[j];
      }
    }

    /** Marking a free block used (src/memory/bitmap_mem.c:48-49). */
    method Take(i: nat)
      requires Valid() && i < totalBlocks && !used[i]
      modifies this`used, this`freeBlocks, bitmap
      ensures Valid() && used == old(used)[i := true]
    {
      SetBit(i);
      FreeUpdate(used, |used|, i, true);
      used := used[i := true];
      freeBlocks := freeBlocks - 1;
    }

    /** Marking a used block free (src/memory/bitmap_mem.c:107-110 and 128-131). */
    method Release(i: nat)
      requires Valid() && i < totalBlocks
      modifies this`used, this`freeBlocks, bitmap
      ensures Valid() && used == old(used)[i := false]
    {
      if BitAt(bitmap, i) {
        ClearBit(i);
        FreeUpdate(used, |used|, i, false);
        used := used[i := false];
        freeBlocks := freeBlocks + 1;
      }
    }

    function Address(block: nat): nat
      reads this
    {
      memoryBase + block * BLOCK_SIZE
    }

    /** bitmap_alloc_block (src/memory/bitmap_mem.c:39): the lowest free block; none exactly if all are in use. */
    method AllocBlock() returns (r: Option<nat>)
      requires Valid()
      modifies this`used, this`freeBlocks, bitmap
      ensures Valid()
      ensures r == None <==> FreeCount(old(used)) == 0
      ensures r == None ==> used == old(used)
      ensures r.Some? ==> exists b: nat ::
              IsFirstRun(old(used), b, 1) && r == Some(Address(b)) && used == old(used)[b := true]
    {
      if freeBlocks == 0 {
        return None;
      }
      var i := 0;
      while i < totalBlocks
        invariant 0 <= i <= totalBlocks
        invariant forall j :: 0 <= j < i ==> used[j]
      {
        if !BitAt(bitmap, i) {
          FirstFree(used, i);
          Take(i);
          return Some(Address(i));
        }
        i := i + 1;
      }
      NoneFree(used, |used|);
      r := None;
    }

    /** bitmap_alloc_blocks (src/memory/bitmap_mem.c:59): first fit, and complete. */
    method AllocBlocks(count: nat) returns (r: Option<nat>)
      requires Valid()
      modifies this`used, this`freeBlocks, bitmap
      ensures Valid()
      ensures r == None <==> count == 0 || forall s :: 0 <= s ==> !IsRun(old(used), s, count)
      ensures r == None ==> used == old(used)
      ensures r.Some? ==> exists s: nat :: IsFirstRun(old(used), s, count) && r == Some(Address(s)) &&
                                      used == Mark(old(used), s, count, true)
    {
      if count == 0 || count > freeBlocks {
        if count > 0 {
          forall s | 0 <= s && IsRun(used, s, count)
            ensures false
          {
            FreeAfterTaking(used, s, count);
          }
        }
        return None;
      }
      if count == 1 {
        r := AllocBlock();
        if r.Some? {
          ghost var b: nat :| IsFirstRun(old(used), b, 1) && r == Some(Address(b)) && used == old(used)[b := true];
          assert used == Mark(old(used), b, 1, true);
        }
        return;
      }
      r := ScanForRun(count);
    }

    /** The scan of bitmap_alloc_blocks (src/memory/bitmap_mem.c:68-96). */
    method ScanForRun(count: nat) returns (r: Option<nat>)
      requires Valid() && count > 0
      modifies this`used, this`freeBlocks, bitmap
      ensures Valid()
      ensures r == None <==> forall s :: 0 <= s ==> !IsRun(old(used), s, count)
      ensures r == None ==> used == old(used)
      ensures r.Some? ==> exists s: nat :: IsFirstRun(old(used), s, count) && r == Some(Address(s)) &&
                                           used == Mark(old(used), s, count, true)
    {
      var start, contiguous, i := 0, 0, 0;
      while i < totalBlocks
        invariant Valid() && used == old(used)
        invariant Scanned(used, count, i, start, contiguous)
      {
        if !BitAt(bitmap, i) {
          ScanFree(used, count, i, start, contiguous);
          if contiguous == 0 {
            start := i;
          }
          contiguous := contiguous + 1;
          if contiguous == count {
            TakeRun(start, count);
            return Some(Address(start));
          }
        } else {
          ScanUsed(used, count, i, start, contiguous);
          contiguous := 0;
        }
        i := i + 1;
      }
      r := None;
    }

    /** The marking loop of bitmap_alloc_blocks (src/memory/bitmap_mem.c:84-88). */
    method TakeRun(start: nat, count: nat)
      requires Valid() && IsRun(used, start, count)
      modifies this`used, this`freeBlocks, bitmap
      ensures Valid() && used == Mark(old(used), start, count, true)
    {
      var j := 0;
      while j < count
        invariant 0 <= j <= count && Valid()
        invariant used == Mark(old(used), start, j, true)
      {
        Take(start + j);
        j := j + 1;
      }
    }

    /** bitmap_contains_address (src/memory/bitmap_mem.c:139). */
    predicate Contains(address: nat)
      reads this
    {
      memoryBase <= address < memoryBase + totalBlocks * BLOCK_SIZE
    }

    /** bitmap_free_block (src/memory/bitmap_mem.c:99): frees the block that holds the address, if there is one. */
    method FreeBlock(address: nat)
      requires Valid()
      modifies this`used, this`freeBlocks, bitmap
      ensures Valid()
      ensures used == if Contains(address) then old(used)[(address - memoryBase) / BLOCK_SIZE := false] else old(used)
    {
      if !Contains(address) {
        return;
      }
      Release((address - memoryBase) / BLOCK_SIZE);
    }

    /** bitmap_free_blocks (src/memory/bitmap_mem.c:113): the range is cut off at the end of the managed memory. */
    method FreeBlocks(address: nat, count: nat)
      requires Valid()
      modifies this`used, this`freeBlocks, bitmap
      ensures Valid()
      ensures Contains(address) ==>
                var b := (address - memoryBase) / BLOCK_SIZE;
                used == Mark(old(used), b, if b + count > totalBlocks then totalBlocks - b else count, false)
      ensures !Contains(address) ==> used == old(used)
    {
      if !Contains(address) || count == 0 {
        return;
      }
      var start := (address - memoryBase) / BLOCK_SIZE;
      var maxBlocks := count;
      if start + count > totalBlocks {
        maxBlocks := totalBlocks - start;
      }
      var i := 0;
      while i < maxBlocks
        invariant 0 <= i <= maxBlocks && Valid()
        invariant used == Mark(old(used), start, i, false)
      {
        Release(start + i);
        i := i + 1;
      }
    }
  }

  // ---- Runs of allocations and releases ----

  /** A range of blocks handed out. */
  datatype Grant = Grant(start: nat, count: nat)

  /** All ranges handed out are in use, and no two of them overlap. */
  ghost predicate Owned(used: seq<bool>, live: seq<Grant>) {
    && (forall i :: 0 <= i < |live| ==> live[i].count > 0 && live[i].start + live[i].count <= |used|)
    && (forall i, b :: 0 <= i < |live| && live[i].start <= b < live[i].start + live[i].count ==> used[b])
    && (forall i, j :: 0 <= i < j < |live| ==>
          live[i].start + live[i].count <= live[j].start || live[j].start + live[j].count <= live[i].start)
  }

  function Granted(live: seq<Grant>): nat {
    if live == [] then 0 else Granted(live[..|live| - 1]) + live[|live| - 1].count
  }

  lemma GrantKeepsOwned(used: seq<bool>, live: seq<Grant>, s: nat, n: nat)
    requires Owned(used, live) && IsRun(used, s, n) && n > 0
    ensures Owned(Mark(used, s, n, true), live + [Grant(s, n)])
  {
    forall i | 0 <= i < |live|
      ensures live[i].start + live[i].count <= s || s + n <= live[i].start
    {
      assert !used[s] && used[live[i].start];
    }
  }

  lemma ReleaseKeepsOwned(used: seq<bool>, live: seq<Grant>, i: nat)
    requires Owned(used, live) && i < |live|
    ensures Owned(Mark(used, live[i].start, live[i].count, false), live[..i] + live[i + 1..])
  {
    var rest := live[..i] + live[i + 1..];
    forall j | 0 <= j < |rest|
      ensures rest[j].start + rest[j].count <= live[i].start || live[i].start + live[i].count <= rest[j].start
    {
      assert rest[j] == if j < i then live[j] else live[j + 1];
    }
  }

  lemma {:induction false} FreeAfterReleasing(used: seq<bool>, s: nat, n: nat)
    requires s + n <= |used| && forall i :: s <= i < s + n ==> used[i]
    ensures FreeCount(Mark(used, s, n, false)) == FreeCount(used) + n
  {
    if n > 0 {
      FreeAfterReleasing(used, s, n - 1);
      FreeUpdate(Mark(used, s, n - 1, false), |used|, s + n - 1, false);
    }
  }

  lemma {:induction false} GrantedWithout(live: seq<Grant>, i: nat)
    requires i < |live|
    ensures Granted(live[..i] + live[i + 1..]) == Granted(live) - live[i].count
  {
    var n := |live| - 1;
    if i == n {
      assert live[..i] + live[i + 1..] == live[..n];
    } else {
      GrantedWithout(live[..n], i);
      var rest := live[..i] + live[i + 1..];
      assert rest[..n - 1] == live[..n][..i] + live[..n][i + 1..];
      assert rest[n - 1] == live[n];
    }
  }

  /** Block b lies in one of the ranges. */
  ghost predicate Held(live: seq<Grant>, b: nat) {
    exists i :: 0 <= i < |live| && live[i].start <= b < live[i].start + live[i].count
  }

  /** The ranges are disjoint, and the blocks in use are exactly theirs. */
  ghost predicate Accounted(used: seq<bool>, live: seq<Grant>) {
    && Owned(used, live) && FreeCount(used) + Granted(live) == |used|
    && forall b :: 0 <= b < |used| && used[b] ==> Held(live, b)
  }

  lemma GrantHeld(live: seq<Grant>, g: Grant, b: nat)
    requires Held(live, b) || g.start <= b < g.start + g.count
    ensures Held(live + [g], b)
  {
    var more := live + [g];
    if Held(live, b) {
      var i :| 0 <= i < |live| && live[i].start <= b < live[i].start + live[i].count;
      assert more[i] == live[i];
    } else {
      assert more[|live|] == g;
    }
  }

  /** Letting go of range i frees no block outside it. */
  lemma ReleaseHeld(live: seq<Grant>, i: nat, b: nat)
    requires Held(live, b) && i < |live| && !(live[i].start <= b < live[i].start + live[i].count)
    ensures Held(live[..i] + live[i + 1..], b)
  {
    var j :| 0 <= j < |live| && live[j].start <= b < live[j].start + live[j].count;
    var rest := live[..i] + live[i + 1..];
    assert rest[if j < i then j else j - 1] == live[j];
  }

  // ---- The allocator as a list of ranges ----

  /** The n blocks from s on are managed and in none of the ranges. */
  ghost predicate IsGap(total: nat, live: seq<Grant>, s: nat, n: nat) {
    && s + n <= total
    && forall i :: 0 <= i < |live| ==> live[i].start + live[i].count <= s || s + n <= live[i].start
  }

  /** The lowest such place from s on. */
  ghost function FirstGap(total: nat, live: seq<Grant>, s: nat, n: nat): (r: Option<nat>)
    ensures r.Some? ==> s <= r.value && IsGap(total, live, r.value, n)
    ensures forall t :: s <= t && (r.Some? ==> t < r.value) ==> !IsGap(total, live, t, n)
    decreases total - s
  {
    if s + n > total then None else if IsGap(total, live, s, n) then Some(s) else FirstGap(total, live, s + 1, n)
  }

  /** Free blocks in a row are a gap between the ranges. */
  lemma RunIsGap(used: seq<bool>, live: seq<Grant>, s: nat, n: nat)
    requires Accounted(used, live) && n > 0
    ensures IsRun(used, s, n) <==> IsGap(|used|, live, s, n)
  {
    if IsRun(used, s, n) {
      forall i | 0 <= i < |live|
        ensures live[i].start + live[i].count <= s || s + n <= live[i].start
      {
        var b := if live[i].start < s then s else live[i].start;
        assert live[i].start <= b < live[i].start + live[i].count ==> used[b];
      }
    }
    if IsGap(|used|, live, s, n) {
      forall b | s <= b < s + n
        ensures !used[b]
      {
        assert used[b] ==> Held(live, b);
      }
    }
  }

  lemma FirstRunIsGap(used: seq<bool>, live: seq<Grant>, s: nat, n: nat)
    requires Accounted(used, live) && n > 0 && IsFirstRun(used, s, n)
    ensures FirstGap(|used|, live, 0, n) == Some(s)
  {
    RunIsGap(used, live, s, n);
    var r := FirstGap(|used|, live, 0, n);
    if r.Some? {
      RunIsGap(used, live, r.value, n);
    }
  }

  datatype Request = Get(count: nat) | Put(index: nat)

  /** The ranges handed out after one more request: a range at the lowest gap that is wide enough, or one less. */
  ghost function Answer(total: nat, live: seq<Grant>, request: Request): seq<Grant> {
    match request
    case Get(count) =>
      var s := FirstGap(total, live, 0, count);
      if count > 0 && s.Some? then live + [Grant(s.value, count)] else live
    case Put(index) =>
      if index < |live| then live[..index] + live[index + 1..] else live
  }

  ghost function Answers(total: nat, requests: seq<Request>): seq<Grant> {
    if requests == [] then [] else
      Answer(total, Answers(total, requests[..|requests| - 1]), requests[|requests| - 1])
  }

  /** Serves requests on an initially empty manager: whatever the requests, the ranges handed out are those of first fit
      between ranges, they are disjoint, and the blocks in use are exactly theirs. */
  method Serve(m: BitmapManager, requests: seq<Request>) returns (live: seq<Grant>)
    requires m.Valid() && m.freeBlocks == m.totalBlocks
    modifies m`used, m`freeBlocks, m.bitmap
    ensures m.Valid() && Accounted(m.used, live) && live == Answers(m.totalBlocks, requests)
    ensures m.freeBlocks + Granted(live) == m.totalBlocks
  {
    live := [];
    NothingAccounted(m.used);
    var i := 0;
    while i < |requests|
      invariant 0 <= i <= |requests|
      invariant m.Valid() && Accounted(m.used, live) && live == Answers(m.totalBlocks, requests[..i])
    {
      assert requests[..i + 1][..i] == requests[..i];
      live := ServeOne(m, live, requests[i]);
      i := i + 1;
    }
    assert requests[..|requests|] == requests;
  }

  lemma NothingAccounted(used: seq<bool>)
    requires FreeCount(used) == |used|
    ensures Accounted(used, [])
  {
    NoneFree(used, |used|);
  }

  method ServeOne(m: BitmapManager, live: seq<Grant>, request: Request) returns (live2: seq<Grant>)
    requires m.Valid() && Accounted(m.used, live)
    modifies m`used, m`freeBlocks, m.bitmap
    ensures m.Valid() && Accounted(m.used, live2) && live2 == Answer(m.totalBlocks, live, request)
  {
    match request
    case Get(count) =>
      live2 := ServeGet(m, live, count);
    case Put(index) =>
      live2 := live;
      if index < |live| {
        live2 := ServePut(m, live, index);
      }
  }

  /** What a grant keeps. */
  lemma GrantAccounted(used: seq<bool>, live: seq<Grant>, s: nat, n: nat)
    requires Accounted(used, live) && IsRun(used, s, n) && n > 0
    ensures Accounted(Mark(used, s, n, true), live + [Grant(s, n)])
  {
    var used2, live2 := Mark(used, s, n, true), live + [Grant(s, n)];
    GrantKeepsOwned(used, live, s, n);
    FreeAfterTaking(used, s, n);
    assert live2[..|live|] == live;
    forall b | 0 <= b < |used2| && used2[b]
      ensures Held(live2, b)
    {
      GrantHeld(live, Grant(s, n), b);
    }
  }

  method ServeGet(m: BitmapManager, live: seq<Grant>, count: nat) returns (live2: seq<Grant>)
    requires m.Valid() && Accounted(m.used, live)
    modifies m`used, m`freeBlocks, m.bitmap
    ensures m.Valid() && Accounted(m.used, live2) && live2 == Answer(m.totalBlocks, live, Get(count))
  {
    ghost var was := m.used;
    var r := m.AllocBlocks(count);
    if r == None {
      NoAnswer(was, live, count);
      return live;
    }
    assert r.value >= m.memoryBase;
    var block := (r.value - m.memoryBase) / BLOCK_SIZE;
    live2 := live + [Grant(block, count)];
    GetAnswer(m.memoryBase, r.value, block, was, m.used, live, live2, count);
  }

  lemma GetAnswer(base: nat, address: nat, block: nat, used: seq<bool>, used2: seq<bool>, live: seq<Grant>,
                  live2: seq<Grant>, count: nat)
    requires Accounted(used, live) && count > 0 && block == (address - base) / BLOCK_SIZE
    requires live2 == live + [Grant(block, count)]
    requires exists s: nat ::
               IsFirstRun(used, s, count) && address == base + s * BLOCK_SIZE && used2 == Mark(used, s, count, true)
    ensures Accounted(used2, live2) && live2 == Answer(|used|, live, Get(count))
  {
    var s: nat :| IsFirstRun(used, s, count) && address == base + s * BLOCK_SIZE && used2 == Mark(used, s, count, true);
    BlockOfAddress(base, s);
    assert live2 == live + [Grant(s, count)];
    GrantAccounted(used, live, s, count);
    FirstRunAnswer(used, live, s, count);
  }

  lemma FirstRunAnswer(used: seq<bool>, live: seq<Grant>, s: nat, count: nat)
    requires Accounted(used, live) && count > 0 && IsFirstRun(used, s, count)
    ensures Answer(|used|, live, Get(count)) == live + [Grant(s, count)]
  {
    FirstRunIsGap(used, live, s, count);
  }

  lemma BlockOfAddress(base: nat, block: nat)
    ensures (base + block * BLOCK_SIZE - base) / BLOCK_SIZE == block
  {
  }

  lemma NoAnswer(used: seq<bool>, live: seq<Grant>, count: nat)
    requires Accounted(used, live) && (count == 0 || forall s :: 0 <= s ==> !IsRun(used, s, count))
    ensures Answer(|used|, live, Get(count)) == live
  {
    var gap := FirstGap(|used|, live, 0, count);
    if count > 0 && gap.Some? {
      RunIsGap(used, live, gap.value, count);
    }
  }

  /** What a release keeps. */
  lemma ReleaseAccounted(used: seq<bool>, live: seq<Grant>, i: nat)
    requires Accounted(used, live) && i < |live|
    ensures live[i].start + live[i].count <= |used|
    ensures Accounted(Mark(used, live[i].start, live[i].count, false), live[..i] + live[i + 1..])
  {
    var used2 := Mark(used, live[i].start, live[i].count, false);
    ReleaseKeepsOwned(used, live, i);
    FreeAfterReleasing(used, live[i].start, live[i].count);
    GrantedWithout(live, i);
    forall b | 0 <= b < |used2| && used2[b]
      ensures Held(live[..i] + live[i + 1..], b)
    {
      ReleaseHeld(live, i, b);
    }
  }

  method ServePut(m: BitmapManager, live: seq<Grant>, index: nat) returns (live2: seq<Grant>)
    requires m.Valid() && Accounted(m.used, live) && index < |live|
    modifies m`used, m`freeBlocks, m.bitmap
    ensures m.Valid() && Accounted(m.used, live2) && live2 == live[..index] + live[index + 1..]
  {
    var g := live[index];
    ReleaseAccounted(m.used, live, index);
    var address := m.Address(g.start);
    BlockOfAddress(m.memoryBase, g.start);
    assert m.Contains(address);
    ghost var used2 := Mark(m.used, g.start, g.count, false);
    m.FreeBlocks(address, g.count);
    assert m.used == used2;
    live2 := live[..index] + live[index + 1..];
  }
}
