/** The scheduler as a machine on values: the threads without their links, the queues as sequences, and a function for
    each call of the API. */
module SchedulerModel {
  import opened Bytes
  import opened AdaptivePriority
  import opened ThreadLists
  import opened ThreadQueues
  import opened Scheduling

  datatype Machine = Machine(threads: Table, ready: Queues, sleepers: seq<Tid>, idle: Tid, current: Link, nextTid: Tid)

  /** One call of the API; yielding, sleeping, blocking and ending are done by the thread that runs. */
  datatype Op =
    | CreateThread(priority: nat)
    | AddThread(thread: Tid)
    | YieldCpu
    | SleepUntil(wake: nat)
    | BlockSelf
    | UnblockThread(thread: Tid)
    | Exit
    | TimerTick(now: nat)

  /** A thread other than the idle thread runs. */
  predicate Busy(tab: Table, idle: Tid, current: Link) {
    current.Some? && current.value in tab && current.value != idle
  }

  /** The calls the properties are claimed for: only new and ended threads are added, the idle thread only halts, and a
      tick does not exhaust a slice. */
  predicate Allowed(op: Op, tab: Table, idle: Tid, current: Link) {
    match op
    case CreateThread(_) => true
    case AddThread(t) => t in tab && tab[t].state in {CREATED, TERMINATED} && current != Some(t)
    case UnblockThread(t) => t in tab
    case TimerTick(_) => current.Some? && current.value in tab && !Expires(tab, current, idle)
    case _ => Busy(tab, idle, current)
  }

  predicate Working(m: Machine) {
    Busy(m.threads, m.idle, m.current)
  }

  predicate Possible(op: Op, m: Machine) {
    Allowed(op, m.threads, m.idle, m.current)
  }

  // ---- What each call does ----

  function Created(m: Machine, priority: nat): Machine {
    m.(threads := m.threads[m.nextTid := NewTcb(priority)], nextTid := m.nextTid + 1)
  }

  function WithState(m: Machine, t: Tid, state: State): Machine
    requires t in m.threads
  {
    m.(threads := m.threads[t := m.threads[t].(state := state)])
  }

  /** t becomes ready, at the tail of the queue of its priority. */
  function Enqueued(m: Machine, t: Tid): Machine
    requires t in m.threads
  {
    WithState(m, t, READY).(ready := WithTail(m.ready, m.threads[t].control.priority, t))
  }

  /** The most urgent ready thread runs. */
  function Dispatch(m: Machine): Machine {
    var n := Picked(m.ready, m.idle);
    m.(ready := Rest(m.ready), current := Some(n),
       threads := if m.current == Some(n) || n !in m.threads then m.threads else m.threads[n := Started(m.threads[n])])
  }

  /** The current thread is sampled. */
  ghost function Accounted(m: Machine, c: Tid): Machine
    requires c in m.threads
  {
    if Confined(m.threads[c].control) then m.(threads := m.threads[c := Spent(m.threads[c])]) else m
  }

  ghost function AfterYield(m: Machine): Machine
    requires Working(m)
  {
    var c := m.current.value;
    var spent := Accounted(m, c);
    Dispatch(if m.threads[c].state == TERMINATED then spent else Enqueued(spent, c))
  }

  ghost function AfterSleep(m: Machine, wake: nat): Machine
    requires Working(m)
  {
    var c := m.current.value;
    var k := Due(m.threads, m.sleepers, wake);
    Dispatch(m.(threads := m.threads[c := Dozing(m.threads[c], wake)], sleepers := Inserted(m.sleepers, k, c)))
  }

  function AllWoken(tab: Table, due: seq<Tid>): Table {
    map x | x in tab :: if x in due then tab[x].(state := READY) else tab[x]
  }

  function Counted(tab: Table, c: Tid): Table
    requires c in tab
  {
    tab[c := Ticked(tab[c])]
  }

  /** The due sleepers wake, and the current thread is charged for the tick. */
  function AfterTick(m: Machine, now: nat): Machine
    requires m.current.Some? && m.current.value in m.threads
  {
    var n := Due(m.threads, m.sleepers, now);
    var due := m.sleepers[..n];
    m.(threads := Counted(AllWoken(m.threads, due), m.current.value), sleepers := m.sleepers[n..],
       ready := seq(PRIORITY_LEVELS, p requires 0 <= p < PRIORITY_LEVELS => m.ready[p] + OfPriority(m.threads, due, p)))
  }

  ghost function Apply(m: Machine, op: Op): Machine
    requires Possible(op, m)
  {
    match op
    case CreateThread(p) => Created(m, p)
    case AddThread(t) => Enqueued(m, t)
    case UnblockThread(t) => if m.threads[t].state == BLOCKED then Enqueued(m, t) else m
    case YieldCpu => AfterYield(m)
    case SleepUntil(wake) => AfterSleep(m, wake)
    case BlockSelf => Dispatch(WithState(m, m.current.value, BLOCKED))
    case Exit => AfterYield(WithState(m, m.current.value, TERMINATED))
    case TimerTick(now) => AfterTick(m, now)
  }

  /** The machine after the calls up to the first that is not allowed, and their number. */
  ghost function Replay(m: Machine, ops: seq<Op>): (r: (Machine, nat))
    ensures r.1 <= |ops| && (r.1 < |ops| ==> !Possible(ops[r.1], r.0))
  {
    if ops == [] then (m, 0) else
      var (before, done) := Replay(m, ops[..|ops| - 1]);
      if done == |ops| - 1 && Possible(ops[done], before) then (Apply(before, ops[done]), |ops|) else (before, done)
  }

  /** After initialisation, with a thread created and added for each priority. */
  function Setup(priorities: seq<nat>): Machine {
    if priorities == [] then
      Machine(map[1 := NewTcb(PRIORITY_IDLE).(state := READY)], [[], [], [], [], [], [], []], [], 1, None, 2)
    else
      var m := Setup(priorities[..|priorities| - 1]);
      Enqueued(Created(m, priorities[|priorities| - 1]), m.nextTid)
  }

  /** The start of the scheduler: the picked thread runs, with the slice it was created with. */
  function Begun(m: Machine): Machine {
    var n := Picked(m.ready, m.idle);
    m.(ready := Rest(m.ready), current := Some(n),
       threads := if n in m.threads then m.threads[n := m.threads[n].(state := RUNNING)] else m.threads)
  }

  // ---- What the sampled usage is worth ----

  /** The share of its slice a thread has used, in per cent. */
  function Share(t: Tcb): nat
    requires t.control.sliceLength > 0
  {
    t.ticksUsed * 100 / t.control.sliceLength
  }

  /** The byte holds the share exactly if it is below 256. */
  lemma UsageExactly(ticks: nat, slice: int)
    requires slice > 0
    ensures Usage(ticks, slice) == ticks * 100 / slice <==> ticks * 100 / slice < 256
  {
    var share := ticks * 100 / slice;
    assert share < 256 ==> share % 0x100 == share;
  }

  /** What a tick records at the end of a slice. */
  function Recorded(ticks: nat, slice: int): nat
    requires slice > 0
  {
    if Usage(ticks, slice) > 100 then 100 else Usage(ticks, slice)
  }

  /** It is the share, at most 100, unless the byte has wrapped round to less than 100. */
  lemma RecordedExactly(ticks: nat, slice: int)
    requires slice > 0
    ensures var share := ticks * 100 / slice;
            Recorded(ticks, slice) == (if share > 100 then 100 else share) <==> share < 256 || share % 256 >= 100
  {
    var share := ticks * 100 / slice;
    assert share < 256 ==> share % 0x100 == share;
  }

  /** After 57 ticks in a slice of 22 the share is 259 per cent, and 3 is recorded. */
  lemma OverrunLooksIdle()
    ensures SliceLength(PRIORITY_NORMAL) == 22 && 57 * 100 / 22 == 259
    ensures Recorded(57, SliceLength(PRIORITY_NORMAL)) == 3 < BOOST_THRESHOLD
  {
    assert 57 * 100 / 22 == 259;
  }

  /** The ticks a thread has used and has left are at most a slice at its base priority, and one is left. */
  ghost predicate Budgeted(t: Tcb) {
    Confined(t.control) && t.timeSlice >= 1 && t.ticksUsed + t.timeSlice <= SliceLength(t.control.base)
  }

  ghost predicate Fair(m: Machine) {
    forall t :: t in m.threads ==> Confined(m.threads[t].control) && (t != m.idle ==> Budgeted(m.threads[t]))
  }

  lemma DispatchFair(m: Machine)
    requires Fair(m)
    ensures Fair(Dispatch(m))
  {
  }

  lemma EnqueuedFair(m: Machine, t: Tid)
    requires Fair(m) && t in m.threads
    ensures Fair(Enqueued(m, t))
  {
  }

  /** Sampling changes neither the ticks used nor the ticks left, and keeps the priority confined. */
  lemma AccountedFair(m: Machine, c: Tid)
    requires Fair(m) && c in m.threads
    ensures Fair(Accounted(m, c))
  {
    var t := m.threads[c];
    assert [Usage(t.ticksUsed, t.control.sliceLength)][..0] == [];
    FeedConfined(t.control, [Usage(t.ticksUsed, t.control.sliceLength)]);
  }

  lemma YieldFair(m: Machine)
    requires Fair(m) && Working(m)
    ensures Fair(AfterYield(m))
  {
    var c := m.current.value;
    var spent := Accounted(m, c);
    AccountedFair(m, c);
    EnqueuedFair(spent, c);
    DispatchFair(if m.threads[c].state == TERMINATED then spent else Enqueued(spent, c));
  }

  lemma SleepFair(m: Machine, wake: nat)
    requires Fair(m) && Working(m)
    ensures Fair(AfterSleep(m, wake))
  {
    var c := m.current.value;
    var k := Due(m.threads, m.sleepers, wake);
    DispatchFair(m.(threads := m.threads[c := Dozing(m.threads[c], wake)], sleepers := Inserted(m.sleepers, k, c)));
  }

  lemma TickFair(m: Machine, now: nat)
    requires Fair(m) && Possible(TimerTick(now), m)
    ensures Fair(AfterTick(m, now))
  {
    var woken := AllWoken(m.threads, m.sleepers[..Due(m.threads, m.sleepers, now)]);
    assert Fair(m.(threads := woken));
    assert Expires(woken, m.current, m.idle) <==> Expires(m.threads, m.current, m.idle);
  }

  /** No call lets a thread use more of its slice than it was given. */
  lemma FairKept(m: Machine, op: Op)
    requires Fair(m) && Possible(op, m)
    ensures Fair(Apply(m, op))
  {
    match op {
      case YieldCpu => YieldFair(m);
      case Exit => YieldFair(WithState(m, m.current.value, TERMINATED));
      case BlockSelf => DispatchFair(WithState(m, m.current.value, BLOCKED));
      case SleepUntil(wake) => SleepFair(m, wake);
      case TimerTick(now) => TickFair(m, now);
      case _ =>
    }
  }

  lemma {:induction false} FairSetup(priorities: seq<nat>)
    ensures Fair(Setup(priorities))
  {
    if priorities != [] {
      FairSetup(priorities[..|priorities| - 1]);
    }
  }

  lemma FairBegun(priorities: seq<nat>)
    ensures Fair(Begun(Setup(priorities)))
  {
    FairSetup(priorities);
  }

  lemma {:induction false} FairReplay(m: Machine, ops: seq<Op>)
    requires Fair(m)
    ensures Fair(Replay(m, ops).0)
  {
    if ops != [] {
      var (before, done) := Replay(m, ops[..|ops| - 1]);
      FairReplay(m, ops[..|ops| - 1]);
      if done == |ops| - 1 && Possible(ops[done], before) {
        FairKept(before, ops[done]);
      }
    }
  }

  lemma ShareBelow(ticks: nat, slice: int, bound: int)
    requires slice > 0 && ticks * 100 < bound * slice
    ensures ticks * 100 / slice < bound
  {
    var share := ticks * 100 / slice;
    assert share >= bound ==> share * slice >= bound * slice;
  }

  /** Within its budget a thread has a share of at most 168 per cent, so a yield records the share itself; at the end of
      its slice it has one of at most 175, and the tick records it cut to 100. */
  lemma BudgetNeverWraps(t: Tcb)
    requires Budgeted(t)
    ensures Share(t) <= 168 && Spent(t) == Sampled(t, Share(t))
    ensures var u := Ticked(t); Share(u) <= 175 && Exhausted(u) == Sampled(u, if Share(u) > 100 then 100 else Share(u))
  {
    var u, slice := Ticked(t), t.control.sliceLength;
    ShareBelow(t.ticksUsed, slice, 169);
    ShareBelow(u.ticksUsed, slice, 176);
    UsageExactly(t.ticksUsed, slice);
    RecordedExactly(u.ticksUsed, slice);
  }

  // ---- Taking turns ----

  /** The current thread is queued by a yield, with priority p. */
  ghost predicate KeepsTurn(m: Machine, p: nat) {
    && Working(m)
    && var t := m.threads[m.current.value];
       t.state != TERMINATED && Confined(t.control) && Spent(t).control.priority == p
  }

  /** Then the yield is one turn. */
  lemma TurnIsYield(m: Machine, p: nat)
    requires KeepsTurn(m, p)
    ensures var queues := WithTail(m.ready, p, m.current.value);
            AfterYield(m).ready == Rest(queues) && AfterYield(m).current == Some(Picked(queues, m.idle))
  {
  }

  /** The queues hold known threads, and not the current one. */
  ghost predicate Listed(m: Machine) {
    m.idle in m.threads && forall q, t :: 0 <= q < PRIORITY_LEVELS && t in m.ready[q] ==>
      t in m.threads && m.current != Some(t)
  }

  /** A thread that yields is reselected exactly if no thread is ready at a level up to its new priority; and exactly
      then the thread that runs afterwards is not in state RUNNING, and has what was left of its slice. */
  lemma YieldReselects(m: Machine, c: Tid, p: nat)
    requires KeepsTurn(m, p) && Listed(m) && m.current == Some(c) && p < PRIORITY_LEVELS
    ensures var r := AfterYield(m);
            && r.current.Some? && r.current.value in r.threads
            && (r.current == Some(c) <==> forall q :: 0 <= q <= p ==> m.ready[q] == [])
            && (r.threads[r.current.value].state != RUNNING <==> r.current == Some(c))
            && (r.current == Some(c) ==> r.threads[c] == Spent(m.threads[c]).(state := READY))
  {
    var queues := WithTail(m.ready, p, c);
    var l := Level(queues);
    assert queues[p] == m.ready[p] + [c];
    if forall q :: 0 <= q <= p ==> m.ready[q] == [] {
      LevelIs(queues, 0, p);
    } else {
      assert l <= p && m.ready[l] != [];
      assert queues[l][0] in m.ready[l];
    }
  }

  /** A dispatch that changes the current thread gives the new one its whole slice. */
  lemma DispatchFull(m: Machine)
    requires Fair(m) && Picked(m.ready, m.idle) in m.threads
    ensures var r := Dispatch(m);
            && r.current.Some? && r.current.value in r.threads
            && (r.current != m.current ==> FullSlice(r.threads[r.current.value]))
  {
    assert Confined(m.threads[Picked(m.ready, m.idle)].control);
  }

  /** A thread survives exactly the ticks that are left of its slice but the last, whoever wakes in the meantime. */
  lemma {:induction false} TicksSurvived(m: Machine, ops: seq<Op>)
    requires Working(m) && m.threads[m.current.value].timeSlice >= 1
    requires forall i :: 0 <= i < |ops| ==> ops[i].TimerTick?
    ensures var (r, done) := Replay(m, ops);
            var c, left := m.current.value, m.threads[m.current.value].timeSlice;
            && done == (if |ops| < left then |ops| else left - 1)
            && r.current == m.current && r.idle == m.idle && c in r.threads
            && r.threads[c].timeSlice == left - done && r.threads[c].ticksUsed == m.threads[c].ticksUsed + done
  {
    if ops != [] {
      TicksSurvived(m, ops[..|ops| - 1]);
    }
  }

  function Yields(n: nat): (r: seq<Op>)
    ensures |r| == n
  {
    seq(n, _ => YieldCpu)
  }

  lemma {:induction false} TurnsReplayed(m: Machine, p: nat, n: nat)
    requires m.current.Some? && forall i :: 0 <= i < n ==> KeepsTurn(Replay(m, Yields(i)).0, p)
    ensures var (r, done) := Replay(m, Yields(n));
            && done == n && r.idle == m.idle && r.current.Some?
            && (r.ready, r.current.value) == Turns(m.ready, m.current.value, p, m.idle, n)
  {
    if n > 0 {
      assert Yields(n)[..n - 1] == Yields(n - 1);
      TurnsReplayed(m, p, n - 1);
      TurnIsYield(Replay(m, Yields(n - 1)).0, p);
    }
  }

  ghost predicate Realtime(m: Machine, t: Tid) {
    && t in m.threads && t != m.idle && m.threads[t].state != TERMINATED
    && Confined(m.threads[t].control) && m.threads[t].control.base == PRIORITY_REALTIME
  }

  /** A real-time thread runs, and real-time threads wait for it. */
  ghost predicate RealtimeRound(m: Machine) {
    m.current.Some? && Realtime(m, m.current.value) && forall t :: t in m.ready[0] ==> Realtime(m, t)
  }

  lemma AccountedRealtime(m: Machine, c: Tid)
    requires Realtime(m, c)
    ensures Realtime(Accounted(m, c), c) && Spent(m.threads[c]).control.priority == 0
  {
    var t := m.threads[c];
    var usage := Usage(t.ticksUsed, t.control.sliceLength);
    assert [usage][..0] == [];
    FeedConfined(t.control, [usage]);
    assert Feed(t.control, [usage]) == Sample(t.control, usage);
  }

  lemma RealtimeYield(m: Machine)
    requires RealtimeRound(m)
    ensures KeepsTurn(m, 0) && RealtimeRound(AfterYield(m))
  {
    var c := m.current.value;
    var spent, queues := Accounted(m, c), WithTail(m.ready, 0, c);
    AccountedRealtime(m, c);
    assert queues[0] == m.ready[0] + [c] && LevelFrom(queues, 0) == 0;
    forall t | t in queues[0]
      ensures Realtime(AfterYield(m), t)
    {
      assert Realtime(spent, t);
      assert Realtime(Enqueued(spent, c), t);
    }
    assert forall t :: t in queues[0][1..] ==> t in queues[0];
  }

  lemma {:induction false} RealtimeYields(m: Machine, n: nat)
    requires RealtimeRound(m)
    ensures RealtimeRound(Replay(m, Yields(n)).0) && Replay(m, Yields(n)).1 == n
  {
    if n > 0 {
      assert Yields(n)[..n - 1] == Yields(n - 1);
      RealtimeYields(m, n - 1);
      RealtimeYield(Replay(m, Yields(n - 1)).0);
    }
  }

  /** Whatever they use of their slices, real-time threads that yield run in turn, each once in every round. */
  lemma RealtimeTurns(m: Machine, n: nat)
    requires RealtimeRound(m) && n <= |m.ready[0]| + 1
    ensures var r, round := Replay(m, Yields(n)).0, [m.current.value] + m.ready[0];
            r.ready == m.ready[0 := Rotated(round, n)] && r.current == Some(round[if n == |round| then 0 else n])
  {
    forall i | 0 <= i < n
      ensures KeepsTurn(Replay(m, Yields(i)).0, 0)
    {
      RealtimeYields(m, i);
      RealtimeYield(Replay(m, Yields(i)).0);
    }
    TurnsReplayed(m, 0, n);
    RoundRobin(m.ready, m.current.value, 0, m.idle, n);
  }
}
