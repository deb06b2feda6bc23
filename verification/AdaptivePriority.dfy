/** The moving-average priority controller of src/sched/scheduler.c:119-169. */
module AdaptivePriority {
  import opened Bytes

  const PRIORITY_REALTIME := 0
  const PRIORITY_LOW := 5
  const PRIORITY_LEVELS := 7
  const TIME_SLICE_BASE := 10
  const SAMPLES := 8
  const BOOST_THRESHOLD := 30
  const DEMOTE_THRESHOLD := 80

  type History = h: seq<byte> | |h| == 8 witness seq(8, _ => 0)

  /** The scheduling fields of a thread that the controller reads and writes (src/sched/thread.h:60-70). */
  datatype Control = Control(priority: nat, base: nat, sliceLength: int, history: History, index: nat, average: nat)

  /** calculate_time_slice (src/sched/thread.c:18). */
  function SliceLength(priority: nat): int {
    TIME_SLICE_BASE + (PRIORITY_LEVELS - priority) * 3
  }

  /** The sum of the first n samples. */
  function Sum(h: seq<byte>, n: nat): nat
    requires n <= |h|
  {
    if n == 0 then 0 else Sum(h, n - 1) + h[n - 1]
  }

  /** update_cpu_usage (src/sched/scheduler.c:122). */
  function Update(c: Control, usage: byte): Control
    requires c.index < SAMPLES
  {
    var h := c.history[c.index := usage];
    c.(history := h, index := (c.index + 1) % SAMPLES, average := Sum(h, SAMPLES) / SAMPLES)
  }

  /** adjust_priority (src/sched/scheduler.c:135) on a thread other than the idle thread. */
  function Adjust(c: Control): Control {
    if c.base == PRIORITY_REALTIME then c
    else if c.average > DEMOTE_THRESHOLD then
      if c.priority < PRIORITY_LOW then WithPriority(c, c.priority + 1) else c
    else if c.average < BOOST_THRESHOLD then
      if c.priority > c.base then WithPriority(c, c.priority - 1) else c
    else c
  }

  function WithPriority(c: Control, p: nat): Control {
    c.(priority := p, sliceLength := SliceLength(p))
  }

  /** Both calls, as the tick and the yield make them at the end of a slice. */
  function Sample(c: Control, usage: byte): Control
    requires c.index < SAMPLES
  {
    Adjust(Update(c, usage))
  }

  lemma EightSamples(h: History)
    ensures Sum(h, 8) == h[0] as int + h[1] + h[2] + h[3] + h[4] + h[5] + h[6] + h[7]
  {
    assert Sum(h, 1) == h[0] && Sum(h, 2) == Sum(h, 1) + h[1] && Sum(h, 3) == Sum(h, 2) + h[2];
    assert Sum(h, 4) == Sum(h, 3) + h[3] && Sum(h, 5) == Sum(h, 4) + h[4] && Sum(h, 6) == Sum(h, 5) + h[5];
    assert Sum(h, 7) == Sum(h, 6) + h[6];
  }

  /** In numbers: the average of eight samples, one step down above 80 per cent, one step up below 30,
      never beyond 5 nor above the base, and a slice of 10 ticks and 3 for every level from the priority to 7. */
  lemma SampleNumbers(c: Control, usage: byte)
    requires c.index < 8
    ensures var d := Sample(c, usage);
            var h := c.history[c.index := usage];
            && d.history == h && d.index == (if c.index == 7 then 0 else c.index + 1) && d.base == c.base
            && 8 * d.average <= h[0] as int + h[1] + h[2] + h[3] + h[4] + h[5] + h[6] + h[7] < 8 * d.average + 8
            && d.priority == (if c.base != 0 && d.average > 80 && c.priority < 5 then c.priority + 1
                              else if c.base != 0 && d.average < 30 && c.priority > c.base then c.priority - 1
                              else c.priority)
            && d.sliceLength == if d.priority == c.priority then c.sliceLength else 10 + (7 - d.priority) * 3
  {
    EightSamples(c.history[c.index := usage]);
  }

  function Feed(c: Control, usages: seq<byte>): (r: Control)
    requires c.index < SAMPLES
    ensures r.index < SAMPLES
  {
    if usages == [] then c else Sample(Feed(c, usages[..|usages| - 1]), usages[|usages| - 1])
  }

  /** The priority lies between the base priority and LOW, or at a base priority beyond LOW; the slice length is the
      one for the priority. */
  ghost predicate Confined(c: Control) {
    && c.index < SAMPLES && c.base < PRIORITY_LEVELS
    && c.base <= c.priority <= (if c.base > PRIORITY_LOW then c.base else PRIORITY_LOW)
    && (c.base == PRIORITY_REALTIME ==> c.priority == PRIORITY_REALTIME)
    && c.sliceLength == SliceLength(c.priority)
  }

  /** However the samples fall, the priority stays confined. */
  lemma {:induction false} FeedConfined(c: Control, usages: seq<byte>)
    requires Confined(c)
    ensures Confined(Feed(c, usages)) && Feed(c, usages).base == c.base
  {
    if usages != [] {
      FeedConfined(c, usages[..|usages| - 1]);
    }
  }

  /** The place in the ring of the sample taken k samples ago (0: the latest). */
  function Slot(index: nat, k: nat): nat
    requires index < SAMPLES && k < SAMPLES
  {
    (index + 7 - k) % SAMPLES
  }

  /** The latest n samples lie between lo and hi. */
  ghost predicate Recent(c: Control, n: nat, lo: int, hi: int)
    requires c.index < SAMPLES
  {
    forall k :: 0 <= k < n && k < SAMPLES ==> lo <= c.history[Slot(c.index, k)] <= hi
  }

  lemma RecentNext(c: Control, n: nat, lo: int, hi: int, usage: byte)
    requires c.index < SAMPLES && Recent(c, n, lo, hi) && lo <= usage <= hi
    ensures Recent(Update(c, usage), n + 1, lo, hi)
  {
    var d := Update(c, usage);
    forall k | 0 <= k < n + 1 && k < SAMPLES
      ensures lo <= d.history[Slot(d.index, k)] <= hi
    {
      if k == 0 {
        assert Slot(d.index, 0) == c.index;
      } else {
        assert Slot(d.index, k) == Slot(c.index, k - 1) != c.index;
      }
    }
  }

  lemma {:induction false} SumBounds(h: seq<byte>, n: nat, lo: int, hi: int)
    requires n <= |h| && forall i :: 0 <= i < n ==> lo <= h[i] <= hi
    ensures lo * n <= Sum(h, n) <= hi * n
  {
    if n > 0 {
      SumBounds(h, n - 1, lo, hi);
    }
  }

  /** Once all eight samples lie between lo and hi, so does the average. */
  lemma FullRing(c: Control, usage: byte, lo: int, hi: int)
    requires c.index < SAMPLES && Recent(c, 7, lo, hi) && lo <= usage <= hi
    ensures lo <= Update(c, usage).average <= hi
  {
    var d := Update(c, usage);
    RecentNext(c, 7, lo, hi, usage);
    forall i | 0 <= i < SAMPLES
      ensures lo <= d.history[i] <= hi
    {
      var k := (d.index + 7 - i) % SAMPLES;
      assert Slot(d.index, k) == i;
    }
    SumBounds(d.history, SAMPLES, lo, hi);
  }

  lemma {:induction false} BusyRun(c: Control, usages: seq<byte>)
    requires Confined(c) && PRIORITY_REALTIME < c.base <= PRIORITY_LOW
    requires forall i :: 0 <= i < |usages| ==> usages[i] > DEMOTE_THRESHOLD
    ensures var d := Feed(c, usages);
            && Recent(d, |usages|, DEMOTE_THRESHOLD + 1, 255)
            && (|usages| >= 7 ==> d.priority >= PRIORITY_LOW || d.priority >= c.base + |usages| - 7)
  {
    if usages != [] {
      var n := |usages| - 1;
      var e := Feed(c, usages[..n]);
      BusyRun(c, usages[..n]);
      FeedConfined(c, usages[..n]);
      FeedConfined(c, usages);
      RecentNext(e, n, DEMOTE_THRESHOLD + 1, 255, usages[n]);
      if n >= 7 {
        FullRing(e, usages[n], DEMOTE_THRESHOLD + 1, 255);
      }
    }
  }

  lemma {:induction false} LazyRun(c: Control, usages: seq<byte>)
    requires Confined(c) && PRIORITY_REALTIME < c.base <= PRIORITY_LOW
    requires forall i :: 0 <= i < |usages| ==> usages[i] < BOOST_THRESHOLD
    ensures var d := Feed(c, usages);
            && Recent(d, |usages|, 0, BOOST_THRESHOLD - 1)
            && (|usages| >= 7 ==> d.priority <= c.base || d.priority <= PRIORITY_LOW - (|usages| - 7))
  {
    if usages != [] {
      var n := |usages| - 1;
      var e := Feed(c, usages[..n]);
      LazyRun(c, usages[..n]);
      FeedConfined(c, usages[..n]);
      FeedConfined(c, usages);
      RecentNext(e, n, 0, BOOST_THRESHOLD - 1, usages[n]);
      if n >= 7 {
        FullRing(e, usages[n], 0, BOOST_THRESHOLD - 1);
      }
    }
  }

  /** 7 + (LOW - base) samples above 80 in a row bring any thread to LOW, and keep it there. */
  lemma BusyReachesLow(c: Control, usages: seq<byte>)
    requires Confined(c) && PRIORITY_REALTIME < c.base <= PRIORITY_LOW
    requires |usages| >= 7 + (PRIORITY_LOW - c.base)
    requires forall i :: 0 <= i < |usages| ==> usages[i] > DEMOTE_THRESHOLD
    ensures Feed(c, usages).priority == PRIORITY_LOW
  {
    BusyRun(c, usages);
    FeedConfined(c, usages);
  }

  /** As many samples below 30 in a row bring it back to its base priority. */
  lemma LazyReturnsToBase(c: Control, usages: seq<byte>)
    requires Confined(c) && PRIORITY_REALTIME < c.base <= PRIORITY_LOW
    requires |usages| >= 7 + (PRIORITY_LOW - c.base)
    requires forall i :: 0 <= i < |usages| ==> usages[i] < BOOST_THRESHOLD
    ensures Feed(c, usages).priority == c.base
  {
    LazyRun(c, usages);
    FeedConfined(c, usages);
  }
}
