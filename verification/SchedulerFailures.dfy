/** Runs in which src/sched/scheduler.c does what it is not meant to do; the exact conditions stand beside the
    properties. */
module SchedulerFailures {
  import opened Bytes
  import opened AdaptivePriority
  import opened ThreadLists
  import opened ThreadQueues
  import opened Scheduling
  import opened SchedulerModel
  import opened SchedulerRuns

  /** One thread of normal priority runs, and no other is ready or asleep. */
  ghost predicate Alone(m: Machine, c: Tid) {
    && m.current == Some(c) && c in m.threads && c != m.idle && m.idle in m.threads && m.sleepers == []
    && forall p :: 0 <= p < PRIORITY_LEVELS ==> m.ready[p] == []
  }

  lemma StartsAlone()
    ensures var m := Begun(Setup([PRIORITY_NORMAL]));
            Alone(m, 2) && m.threads[2] == NewTcb(PRIORITY_NORMAL).(state := RUNNING)
  {
    var m, none := Setup([PRIORITY_NORMAL]), Setup([]);
    assert [PRIORITY_NORMAL][..0] == [];
    assert m == Enqueued(Created(none, PRIORITY_NORMAL), 2);
    assert m.ready[3] == [2];
    LevelIs(m.ready, 0, 3);
  }

  // ---- A tick at the end of a slice ----

  function Ticks(n: nat): (r: seq<Op>)
    ensures |r| == n
  {
    seq(n, _ => TimerTick(0))
  }

  /** Ticks within the slice are only counted. */
  lemma {:induction false} TicksReplayed(m: Machine, c: Tid, n: nat)
    requires Alone(m, c) && n < m.threads[c].timeSlice
    ensures var (r, done) := Replay(m, Ticks(n));
            && done == n && Alone(r, c) && r.idle == m.idle
            && r.threads[c].timeSlice == m.threads[c].timeSlice - n
  {
    if n > 0 {
      assert Ticks(n)[..n - 1] == Ticks(n - 1);
      TicksReplayed(m, c, n - 1);
    }
  }

  /** A thread of normal priority has 22 ticks; the last of them breaks the invariant. */
  method TickBreaks() returns (s: Scheduler)
    ensures fresh(s) && !s.Inv()
  {
    var done;
    s, done := Run([PRIORITY_NORMAL], Ticks(21));
    StartsAlone();
    TicksReplayed(Begun(Setup([PRIORITY_NORMAL])), 2, 21);
    ExpiresShown(s.table, s.current, s.idle);
    ghost var woken, queues := s.Tick(0);
  }

  // ---- A yield that reselects ----

  /** One idle sample in a new history leaves the average between the thresholds. */
  lemma NormalStays(t: Tcb)
    requires t == NewTcb(PRIORITY_NORMAL).(state := RUNNING)
    ensures Confined(t.control) && Spent(t).control.priority == PRIORITY_NORMAL
  {
    var h := t.control.history[0 := 0];
    assert Sum(h, 1) == 0 && Sum(h, 2) == 50 && Sum(h, 3) == 100 && Sum(h, 4) == 150;
    assert Sum(h, 5) == 200 && Sum(h, 6) == 250 && Sum(h, 7) == 300 && Sum(h, 8) == 350;
    assert Update(t.control, 0).average == 43;
  }

  lemma ViewListed(s: Scheduler)
    requires s.Inv()
    ensures Listed(View(s))
  {
    forall q, t | 0 <= q < PRIORITY_LEVELS && t in s.ready[q]
      ensures t in s.table && s.current != Some(t)
    {
      assert QueueOk(s.table, q, s.ready[q], s.heads[..][q], s.tails[..][q]);
    }
  }

  /** In every state of the scheduler: exactly if no thread is ready up to its new priority, the thread that yields runs
      on, and exactly then the current thread is not in state RUNNING afterwards. */
  method YieldExactly(s: Scheduler)
    requires s.Inv() && s.running && Working(View(s)) && s.table[s.current.value].state != TERMINATED
    modifies s`table, s`current, s`totalSwitches, s`ready, s`threadsReady, s`needReschedule, s`priorityBoosts,
             s`priorityDemotions, s.heads, s.tails
    ensures s.Inv() && s.current.Some? && s.current.value in s.table
    ensures s.table[s.current.value].state != RUNNING <==> s.current == old(s.current)
    ensures var t := old(s.table[s.current.value]);
            && Confined(t.control) && Spent(t).control.priority < PRIORITY_LEVELS
            && (s.current == old(s.current) <==>
                forall q :: 0 <= q <= Spent(t).control.priority ==> old(s.ready)[q] == [])
  {
    ghost var m, c := View(s), s.current.value;
    ViewListed(s);
    assert ThreadOk(s.table, s.ready, s.sleepers, s.idle, s.current, c);
    SpentConfined(s.table[c]);
    PerformYield(s);
    YieldReselects(m, c, Spent(m.threads[c]).control.priority);
    assert Bare(s.table[s.current.value]).state == s.table[s.current.value].state;
  }

  lemma SampleConfined(c: Control, usage: byte)
    requires Confined(c)
    ensures Confined(Sample(c, usage))
  {
    assert [usage][..0] == [];
    FeedConfined(c, [usage]);
    assert Feed(c, [usage]) == Sample(c, usage);
  }

  lemma SpentConfined(t: Tcb)
    requires Confined(t.control)
    ensures Confined(Spent(t).control) && Spent(t).control.priority < PRIORITY_LEVELS
    ensures Spent(Bare(t)) == Bare(Spent(t))
  {
    SampleConfined(t.control, Usage(t.ticksUsed, t.control.sliceLength));
  }

  /** A thread that yields with nobody ready up to its priority goes on in state READY. */
  method YieldStaysReady() returns (s: Scheduler)
    ensures fresh(s) && s.Inv() && s.running
    ensures s.current.Some? && s.current.value in s.table && s.table[s.current.value].state == READY
  {
    var done;
    s, done := Run([PRIORITY_NORMAL], [YieldCpu]);
    StartsAlone();
    ghost var m := Begun(Setup([PRIORITY_NORMAL]));
    assert [YieldCpu][..0] == [];
    NormalStays(m.threads[2]);
    YieldReselects(m, 2, PRIORITY_NORMAL);
    assert Bare(s.table[2]).state == s.table[2].state;
  }

  // ---- A thread that is not switched out ----

  /** The control block after a tick without a switch, though the slice may be over. */
  function Overrun(t: Tcb): Tcb
    requires Confined(t.control)
  {
    if Ticked(t).timeSlice == 0 then Exhausted(Ticked(t)) else Ticked(t)
  }

  function Overruns(t: Tcb, n: nat): (r: Tcb)
    requires Confined(t.control)
    ensures Confined(r.control)
  {
    if n == 0 then t else
      var u := Overruns(t, n - 1);
      SampleConfined(u.control, if Usage(u.ticksUsed + 1, u.control.sliceLength) > 100 then 100
                                else Usage(u.ticksUsed + 1, u.control.sliceLength));
      Overrun(u)
  }

  function Full(n: nat): (r: seq<byte>)
    ensures |r| == n && forall i :: 0 <= i < n ==> r[i] == 100
  {
    seq(n, _ => 100)
  }

  /** After its 22 ticks the thread is sampled at every tick; up to the 40th the byte holds the share, and 100 is
      recorded. */
  lemma {:induction false} OverrunSamples(t: Tcb, n: nat)
    requires t == NewTcb(PRIORITY_NORMAL).(state := RUNNING) && n <= 40
    ensures var u := Overruns(t, n);
            && u.ticksUsed == n && u.timeSlice == (if n < 22 then 22 - n else 0)
            && u.control == Feed(t.control, Full(if n < 22 then 0 else n - 21))
  {
    if n > 0 {
      var u, k := Overruns(t, n - 1), if n < 22 then 0 else n - 21;
      OverrunSamples(t, n - 1);
      if n >= 22 {
        assert Full(k)[..k - 1] == Full(k - 1);
        FeedConfined(t.control, Full(k - 1));
        SharesFull(n, u.control.sliceLength);
      }
    }
  }

  lemma SharesFull(ticks: nat, slice: int)
    requires 22 <= ticks <= 40 && 16 <= slice <= 22
    ensures 100 <= Usage(ticks, slice) == ticks * 100 / slice
  {
    ShareBelow(ticks, slice, 256);
    assert slice * 100 <= ticks * 100;
    var share := ticks * 100 / slice;
    assert share < 100 ==> (share + 1) * slice <= 100 * slice;
  }

  lemma {:induction false} SumUpdate(h: seq<byte>, n: nat, i: nat, v: byte)
    requires n <= |h| && i < |h|
    ensures Sum(h[i := v], n) == Sum(h, n) + if i < n then v - h[i] else 0
  {
    if n > 0 {
      SumUpdate(h, n - 1, i, v);
    }
  }

  /** One idle sample among busy ones does not bring a boost. */
  lemma OneIdleSample(c: Control)
    requires Confined(c) && c.priority == PRIORITY_LOW && Recent(c, SAMPLES, DEMOTE_THRESHOLD + 1, 255)
    ensures var d := Sample(c, 0); d.priority == PRIORITY_LOW && d.sliceLength == 16 && d.history[Slot(d.index, 0)] == 0
  {
    forall i | 0 <= i < SAMPLES
      ensures DEMOTE_THRESHOLD + 1 <= c.history[i] <= 255
    {
      var k := (c.index + 7 - i) % SAMPLES;
      assert Slot(c.index, k) == i;
    }
    SumBounds(c.history, SAMPLES, DEMOTE_THRESHOLD + 1, 255);
    SumUpdate(c.history, SAMPLES, c.index, 0);
    assert Slot((c.index + 1) % SAMPLES, 0) == c.index;
  }

  /** By the 40th tick it has priority LOW and a slice of 16; the 41st makes the share 256 per cent, and records 0. */
  lemma WrapAtFortyOne(t: Tcb)
    requires t == NewTcb(PRIORITY_NORMAL).(state := RUNNING)
    ensures var u := Ticked(Overruns(t, 40)); Share(u) == 256 && Overruns(t, 41) == Sampled(u, 0)
    ensures var v := Overruns(t, 41);
            v.ticksUsed == 41 && v.control.sliceLength == 16 && v.control.history[Slot(v.control.index, 0)] == 0
  {
    OverrunSamples(t, 40);
    BusyReachesLow(t.control, Full(19));
    FeedConfined(t.control, Full(19));
    BusyRun(t.control, Full(19));
    OneIdleSample(Feed(t.control, Full(19)));
  }

  /** The stores of one tick (src/sched/scheduler.c:314-338) with nobody asleep, whatever the queues look like. */
  method TickStores(s: Scheduler, c: Tid)
    requires s.Shape() && c in s.table && c != s.idle && Confined(s.table[c].control)
    requires forall p :: 0 <= p < PRIORITY_LEVELS ==> s.tails[p] in {None, Some(c)}
    modifies s`table, s`threadsReady, s`priorityBoosts, s`priorityDemotions, s`needReschedule, s.heads, s.tails
    ensures c in s.table && Bare(s.table[c]) == Bare(Overrun(old(s.table)[c]).(state := s.table[c].state))
    ensures forall p :: 0 <= p < PRIORITY_LEVELS ==> s.tails[p] in {None, Some(c)}
  {
    s.Count(c);
    if s.table[c].timeSlice == 0 {
      var usage := Usage(s.table[c].ticksUsed, s.table[c].control.sliceLength);
      if usage > 100 {
        usage := 100;
      }
      SampleConfined(s.table[c].control, usage);
      s.Charge(c, usage);
      s.Hang(c, s.table[c].control.priority);
      s.threadsReady := s.threadsReady + 1;
      s.needReschedule := true;
    }
  }

  /** A running thread that 41 ticks do not switch out has used 256 per cent of its slice, and its last sample is 0. */
  method OverrunWraps() returns (s: Scheduler)
    ensures fresh(s) && s.current == Some(2) && 2 in s.table && s.table[2].control.index < SAMPLES
    ensures s.table[2].control.sliceLength == 16 && s.table[2].ticksUsed == 41 && Share(s.table[2]) == 256
    ensures s.table[2].control.history[Slot(s.table[2].control.index, 0)] == 0
  {
    var done;
    s, done := Run([PRIORITY_NORMAL], []);
    StartsAlone();
    forall p | 0 <= p < PRIORITY_LEVELS
      ensures s.tails[p] == None
    {
      assert QueueOk(s.table, p, s.ready[p], s.heads[..][p], s.tails[..][p]);
    }
    ghost var t := NewTcb(PRIORITY_NORMAL).(state := RUNNING);
    var n := 0;
    while n < 41
      invariant n <= 41 && s.Shape() && s.current == Some(2) && s.idle == 1 && 2 in s.table
      invariant fresh(s) && fresh(s.heads) && fresh(s.tails)
      invariant Bare(s.table[2]) == Bare(Overruns(t, n).(state := s.table[2].state))
      invariant forall p :: 0 <= p < PRIORITY_LEVELS ==> s.tails[p] in {None, Some(2)}
    {
      TickStores(s, 2);
      n := n + 1;
    }
    WrapAtFortyOne(t);
  }
}
