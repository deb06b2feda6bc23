/** Runs of the scheduler: every sequence of API calls takes the queues and control blocks where the machine on values
    goes. */
module SchedulerRuns {
  import opened Bytes
  import opened AdaptivePriority
  import opened ThreadLists
  import opened ThreadQueues
  import opened Scheduling
  import opened SchedulerModel

  /** The control blocks without their links. */
  function Shown(tab: Table): Table {
    map x | x in tab :: Bare(tab[x])
  }

  /** What the scheduler holds, as a value. */
  ghost function View(s: Scheduler): Machine
    reads s
  {
    Machine(Shown(s.table), s.ready, s.sleepers, s.idle, s.current, s.nextTid)
  }

  // ---- One call, on values ----

  lemma MovedShown(tab: Table, tab2: Table, t: Tid, state: State)
    requires t in tab && Moved(tab, tab2, t, state)
    ensures Shown(tab2) == Shown(tab)[t := Shown(tab)[t].(state := state)]
  {
    assert forall x :: x in tab ==> Bare(tab2[x]) == if x == t then Bare(tab[x]).(state := state) else Bare(tab[x]);
  }

  lemma DueShown(tab: Table, q: seq<Tid>, now: nat)
    ensures Due(Shown(tab), q, now) == Due(tab, q, now)
  {
  }

  lemma OfPriorityShown(tab: Table, q: seq<Tid>, p: nat)
    ensures OfPriority(Shown(tab), q, p) == OfPriority(tab, q, p)
  {
  }

  lemma YieldShown(m: Machine, tab: Table, c: Tid, m2: Machine, tab2: Table)
    requires Working(m) && m.current == Some(c) && m.threads == Shown(tab) && m2.threads == Shown(tab2)
    requires Yielded(tab, m.ready, c, m.idle, tab2, m2.ready, m2.current)
    requires (m2.sleepers, m2.idle, m2.nextTid) == (m.sleepers, m.idle, m.nextTid)
    ensures m2 == AfterYield(m)
  {
    var spent, n := tab[c := Spent(tab[c])], m2.current.value;
    var threads := AfterYield(m).threads;
    assert threads.Keys == tab.Keys;
    forall x | x in tab
      ensures m2.threads[x] == threads[x]
    {
      var left := if x != c || spent[c].state == TERMINATED then spent[x] else spent[x].(state := READY);
      assert Bare(tab2[x]) == Bare(if x == n && n != c then Started(left) else left);
    }
    assert m2.threads == threads;
  }

  lemma LeaveShown(m: Machine, tab: Table, c: Tid, tcb: Tcb, left: Machine, m2: Machine, tab2: Table)
    requires m.current == Some(c) && c in tab && m.threads == Shown(tab) && m2.threads == Shown(tab2)
    requires left == m.(threads := m.threads[c := Bare(tcb)], sleepers := m2.sleepers)
    requires LeaveEffect(tab, tab2, c, tcb, m.current, m2.current)
    requires m2.current == Some(Picked(m.ready, m.idle)) && m2.ready == Rest(m.ready)
    requires (m2.idle, m2.nextTid) == (m.idle, m.nextTid)
    ensures m2 == Dispatch(left)
  {
    forall x | x in tab
      ensures m2.threads[x] == Dispatch(left).threads[x]
    {
      assert Bare(tab2[x]) == Bare(if x == c then tcb
                                   else if m.current == Some(c) && m2.current == Some(x)
                                   then Started(tab[x]) else tab[x]);
    }
    assert m2.threads == Dispatch(left).threads;
  }

  lemma ExpiresShown(tab: Table, current: Link, idle: Tid)
    ensures Expires(Shown(tab), current, idle) <==> Expires(tab, current, idle)
  {
    assert current.Some? && current.value in tab ==> Bare(tab[current.value]).timeSlice == tab[current.value].timeSlice;
  }

  /** Waking leaves the ticks of the current thread alone. */
  lemma WokenExpires(tab: Table, woken: Table, q: seq<Tid>, current: Link, idle: Tid)
    requires Woken(tab, woken, q)
    ensures Expires(woken, current, idle) <==> Expires(tab, current, idle)
  {
    if current.Some? && current.value in tab {
      assert Bare(woken[current.value]).timeSlice == Bare(tab[current.value]).timeSlice;
    }
  }

  lemma WokenShown(tab: Table, woken: Table, due: seq<Tid>)
    requires Woken(tab, woken, due)
    ensures Shown(woken) == AllWoken(Shown(tab), due)
  {
    forall x | x in tab
      ensures Shown(woken)[x] == AllWoken(Shown(tab), due)[x]
    {
      assert Bare(woken[x]) == if x in due then Bare(tab[x]).(state := READY) else Bare(tab[x]);
    }
  }

  lemma CountedShown(tab: Table, tab2: Table, c: Tid)
    requires c in tab && tab2.Keys == tab.Keys
    requires forall x {:trigger Bare(tab2[x])} :: x in tab ==>
             Bare(tab2[x]) == Bare(if x == c then Ticked(tab[c]) else tab[x])
    ensures Shown(tab2) == Counted(Shown(tab), c)
  {
    forall x | x in tab
      ensures Shown(tab2)[x] == Counted(Shown(tab), c)[x]
    {
      assert Bare(tab2[x]) == Bare(if x == c then Ticked(tab[c]) else tab[x]);
    }
  }

  lemma TickQueues(m: Machine, tab: Table, now: nat, due: seq<Tid>, queues: Queues)
    requires m.current.Some? && m.current.value in m.threads && m.threads == Shown(tab)
    requires due == m.sleepers[..Due(m.threads, m.sleepers, now)]
    requires forall p :: 0 <= p < PRIORITY_LEVELS ==> queues[p] == m.ready[p] + OfPriority(tab, due, p)
    ensures queues == AfterTick(m, now).ready
  {
    forall p | 0 <= p < PRIORITY_LEVELS
      ensures queues[p] == AfterTick(m, now).ready[p]
    {
      OfPriorityShown(tab, due, p);
    }
    assert queues == AfterTick(m, now).ready;
  }

  lemma TickShown(m: Machine, tab: Table, now: nat, woken: Table, queues: Queues, m2: Machine, tab2: Table)
    requires Possible(TimerTick(now), m) && m.threads == Shown(tab) && m2.threads == Shown(tab2)
    requires TickWakes(tab, m.ready, m.sleepers, now, woken, queues, m2.sleepers)
    requires TickCharges(woken, queues, m.current, m.idle, tab2, m2.ready)
    requires (m2.idle, m2.current, m2.nextTid) == (m.idle, m.current, m.nextTid)
    ensures m2 == AfterTick(m, now)
  {
    var due := m.sleepers[..Due(tab, m.sleepers, now)];
    DueShown(tab, m.sleepers, now);
    ExpiresShown(tab, m.current, m.idle);
    WokenExpires(tab, woken, due, m.current, m.idle);
    WokenShown(tab, woken, due);
    CountedShown(woken, tab2, m.current.value);
    TickQueues(m, tab, now, due, queues);
  }

  // ---- One call ----

  /** The calls that queue a thread. */
  method PerformAdd(s: Scheduler, t: Tid)
    requires s.Inv() && Possible(AddThread(t), View(s))
    modifies s`table, s`ready, s`threadsReady, s.heads, s.tails
    ensures s.Inv() && View(s) == Apply(old(View(s)), AddThread(t))
  {
    CreatedLoose(s.table, s.heads[..], s.tails[..], s.ready, s.sleepQueue, s.sleepers, s.idle, s.current, t);
    s.Add(t);
    MovedShown(old(s.table), s.table, t, READY);
  }

  method PerformUnblock(s: Scheduler, t: Tid)
    requires s.Inv() && Possible(UnblockThread(t), View(s))
    modifies s`table, s`ready, s`threadsReady, s`threadsBlocked, s`blocked, s.heads, s.tails
    ensures s.Inv() && View(s) == Apply(old(View(s)), UnblockThread(t))
  {
    s.Unblock(t);
    if t in old(s.blocked) {
      MovedShown(old(s.table), s.table, t, READY);
    }
  }

  method PerformCreate(s: Scheduler, priority: nat) returns (t: Tid)
    requires s.Inv()
    modifies s`table, s`nextTid
    ensures s.Inv() && View(s) == Created(old(View(s)), priority) && t == old(s.nextTid)
  {
    t := s.Create(priority);
    assert Shown(s.table) == Shown(old(s.table))[t := NewTcb(priority)];
  }

  /** The calls of the thread that runs. */
  method PerformYield(s: Scheduler)
    requires s.Inv() && s.running && Working(View(s))
    modifies s`table, s`current, s`totalSwitches, s`ready, s`threadsReady, s`needReschedule, s`priorityBoosts,
             s`priorityDemotions, s.heads, s.tails
    ensures s.Inv() && View(s) == AfterYield(old(View(s)))
  {
    s.Yield();
    YieldShown(old(View(s)), old(s.table), old(s.current).value, View(s), s.table);
  }

  lemma EndShown(tab: Table, c: Tid)
    requires c in tab
    ensures Shown(tab[c := tab[c].(state := TERMINATED)]) == Shown(tab)[c := Shown(tab)[c].(state := TERMINATED)]
  {
  }

  method PerformFinish(s: Scheduler)
    requires s.Inv() && Working(View(s))
    modifies s`table
    ensures s.Inv() && View(s) == WithState(old(View(s)), s.current.value, TERMINATED)
  {
    s.Finish();
    EndShown(old(s.table), s.current.value);
  }

  method PerformExit(s: Scheduler)
    requires s.Inv() && s.running && Working(View(s))
    modifies s`table, s`current, s`totalSwitches, s`ready, s`threadsReady, s`needReschedule, s`priorityBoosts,
             s`priorityDemotions, s.heads, s.tails
    ensures s.Inv() && View(s) == AfterYield(WithState(old(View(s)), old(s.current).value, TERMINATED))
  {
    PerformFinish(s);
    PerformYield(s);
  }

  method PerformSleep(s: Scheduler, wake: nat)
    requires s.Inv() && Working(View(s))
    modifies s`table, s`sleepQueue, s`sleepers, s`threadsSleeping, s`current, s`totalSwitches, s`ready, s`threadsReady,
             s.heads, s.tails
    ensures s.Inv() && View(s) == AfterSleep(old(View(s)), wake)
  {
    ghost var m, tab, c := View(s), s.table, s.current.value;
    CurrentLoose(s.table, s.ready, s.sleepQueue, s.sleepers, s.idle, s.current);
    ghost var k := s.Sleep(s.current.value, wake);
    DueIs(tab, m.sleepers, wake, k);
    DueShown(tab, m.sleepers, wake);
    LeaveShown(m, tab, c, Dozing(tab[c], wake),
               m.(threads := m.threads[c := Dozing(m.threads[c], wake)], sleepers := s.sleepers), View(s), s.table);
  }

  method PerformBlock(s: Scheduler)
    requires s.Inv() && Working(View(s))
    modifies s`table, s`threadsBlocked, s`blocked, s`current, s`totalSwitches, s`ready, s`threadsReady, s.heads, s.tails
    ensures s.Inv() && View(s) == Dispatch(WithState(old(View(s)), old(s.current).value, BLOCKED))
  {
    ghost var m, tab, c := View(s), s.table, s.current.value;
    CurrentLoose(s.table, s.ready, s.sleepQueue, s.sleepers, s.idle, s.current);
    s.Block(s.current.value);
    LeaveShown(m, tab, c, tab[c].(state := BLOCKED), WithState(m, c, BLOCKED), View(s), s.table);
  }

  method PerformTick(s: Scheduler, now: nat)
    requires s.Inv() && s.running && Possible(TimerTick(now), View(s))
    modifies s`table, s`sleepQueue, s`sleepers, s`threadsSleeping, s`ready, s`threadsReady, s`idleTicks,
             s`priorityBoosts, s`priorityDemotions, s`needReschedule, s.heads, s.tails
    ensures s.Inv() && View(s) == AfterTick(old(View(s)), now)
  {
    ghost var m, tab := View(s), s.table;
    ExpiresShown(tab, s.current, s.idle);
    assert !Expires(s.table, s.current, s.idle);
    ghost var woken, queues := s.Tick(now);
    TickShown(m, tab, now, woken, queues, View(s), s.table);
  }

  /** The calls by which the current thread gives up the processor. */
  method PerformOwn(s: Scheduler, op: Op)
    requires s.Inv() && s.running && Possible(op, View(s))
    requires op.YieldCpu? || op.SleepUntil? || op.BlockSelf? || op.Exit?
    modifies s`table, s`sleepQueue, s`sleepers, s`threadsSleeping, s`threadsBlocked, s`blocked, s`current,
             s`totalSwitches, s`ready, s`threadsReady, s`needReschedule, s`priorityBoosts, s`priorityDemotions, s.heads,
             s.tails
    ensures s.Inv() && View(s) == Apply(old(View(s)), op)
  {
    match op
    case YieldCpu => PerformYield(s);
    case SleepUntil(wake) => PerformSleep(s, wake);
    case BlockSelf => PerformBlock(s);
    case Exit => PerformExit(s);
  }

  /** The calls that make or queue threads. */
  method PerformQueue(s: Scheduler, op: Op)
    requires s.Inv() && Possible(op, View(s)) && (op.CreateThread? || op.AddThread? || op.UnblockThread?)
    modifies s`table, s`nextTid, s`ready, s`threadsReady, s`threadsBlocked, s`blocked, s.heads, s.tails
    ensures s.Inv() && View(s) == Apply(old(View(s)), op)
  {
    match op
    case CreateThread(p) => var t := PerformCreate(s, p);
    case AddThread(t) => PerformAdd(s, t);
    case UnblockThread(t) => PerformUnblock(s, t);
  }

  /** One allowed call takes the scheduler where it takes the machine. */
  method Perform(s: Scheduler, op: Op)
    requires s.Inv() && s.running && Possible(op, View(s))
    modifies s, s.heads, s.tails
    ensures s.Inv() && s.running && View(s) == Apply(old(View(s)), op)
  {
    if op.TimerTick? {
      PerformTick(s, op.now);
    } else if op.CreateThread? || op.AddThread? || op.UnblockThread? {
      PerformQueue(s, op);
    } else {
      PerformOwn(s, op);
    }
  }

  // ---- Whole runs ----

  lemma AllowedShown(op: Op, tab: Table, idle: Tid, current: Link)
    ensures Allowed(op, Shown(tab), idle, current) <==> Allowed(op, tab, idle, current)
  {
    ExpiresShown(tab, current, idle);
    match op {
      case AddThread(t) =>
        assert t in tab ==> Bare(tab[t]).state == tab[t].state;
      case _ =>
    }
  }

  /** Initialisation, and a thread created and added for each priority. */
  method PerformSetup(priorities: seq<nat>) returns (s: Scheduler)
    ensures fresh(s) && fresh(s.heads) && fresh(s.tails)
    ensures s.Inv() && !s.running && s.current == None && View(s) == Setup(priorities)
  {
    s := new Scheduler();
    assert Shown(s.table) == Setup([]).threads;
    for i := 0 to |priorities|
      invariant fresh(s) && fresh(s.heads) && fresh(s.tails)
      invariant s.Inv() && !s.running && View(s) == Setup(priorities[..i]) && s.current == None
    {
      assert priorities[..i + 1][..i] == priorities[..i];
      var t := PerformCreate(s, priorities[i]);
      PerformAdd(s, t);
    }
    assert priorities[..|priorities|] == priorities;
  }

  method PerformStart(s: Scheduler)
    requires s.Inv() && !s.running && s.current == None
    modifies s`table, s`running, s`current, s`ready, s`threadsReady, s.heads, s.tails
    ensures s.Inv() && s.running && View(s) == Begun(old(View(s)))
  {
    s.Start();
    MovedShown(old(s.table), s.table, s.current.value, RUNNING);
  }

  lemma {:induction false} ReplayStops(m: Machine, ops: seq<Op>, r: Machine, done: nat)
    requires done <= |ops| && Replay(m, ops[..done]) == (r, done)
    requires done < |ops| ==> !Possible(ops[done], r)
    ensures Replay(m, ops) == (r, done)
  {
    if done == |ops| {
      assert ops[..done] == ops;
    } else {
      assert ops[..|ops| - 1][..done] == ops[..done];
      ReplayStops(m, ops[..|ops| - 1], r, done);
    }
  }

  /** From initialisation on, whatever threads are created and added before the start and whatever calls are made after
      it, up to the first outside the claim: the scheduler is where the machine is, its invariant holds, and no thread
      has used more of its slice than it was given. */
  method Run(priorities: seq<nat>, ops: seq<Op>) returns (s: Scheduler, done: nat)
    ensures s.Inv() && s.running && fresh(s) && fresh(s.heads) && fresh(s.tails)
    ensures (View(s), done) == Replay(Begun(Setup(priorities)), ops)
    ensures Fair(View(s))
  {
    s := PerformSetup(priorities);
    PerformStart(s);
    ghost var m := View(s);
    done := 0;
    while done < |ops| && Allowed(ops[done], s.table, s.idle, s.current)
      invariant done <= |ops| && s.Inv() && s.running && fresh(s) && fresh(s.heads) && fresh(s.tails)
      invariant Replay(m, ops[..done]) == (View(s), done)
    {
      assert ops[..done + 1][..done] == ops[..done];
      AllowedShown(ops[done], s.table, s.idle, s.current);
      Perform(s, ops[done]);
      done := done + 1;
    }
    if done < |ops| {
      AllowedShown(ops[done], s.table, s.idle, s.current);
    }
    ReplayStops(m, ops, View(s), done);
    FairBegun(priorities);
    FairReplay(m, ops);
  }

  // ---- How long a slice lasts ----

  /** Ticks one after the other: the last tick of the slice breaks the invariant, and none before it does. */
  method SliceLasts(s: Scheduler, nows: seq<nat>)
    requires s.Inv() && s.running && Working(View(s)) && 1 <= s.table[s.current.value].timeSlice
    requires |nows| <= s.table[s.current.value].timeSlice
    modifies s`table, s`sleepQueue, s`sleepers, s`threadsSleeping, s`ready, s`threadsReady, s`idleTicks,
             s`priorityBoosts, s`priorityDemotions, s`needReschedule, s.heads, s.tails
    ensures s.Inv() <==> |nows| < old(s.table[s.current.value].timeSlice)
  {
    ghost var c, slice := s.current.value, s.table[s.current.value].timeSlice;
    var i := 0;
    while i < |nows|
      invariant i <= |nows| && s.current == Some(c) && s.running && c in s.table
      invariant s.Inv() <==> i < slice
      invariant i < slice ==> s.table[c].timeSlice == slice - i
    {
      ghost var woken, queues := s.Tick(nows[i]);
      i := i + 1;
    }
  }

  /** After a yield that changes the current thread, the new one has 10 + (7 - priority) * 3 ticks; the last of them
      breaks the invariant. */
  method YieldThenTicks(s: Scheduler, nows: seq<nat>)
    requires s.Inv() && s.running && Working(View(s))
    modifies s, s.heads, s.tails
    ensures s.current.Some? && s.current.value in old(s.table)
    ensures s.current != old(s.current) && s.current.value != s.idle ==>
              (s.Inv() <==> |nows| < 10 + (7 - old(s.table)[s.current.value].control.priority) * 3)
  {
    var c := s.current;
    s.Yield();
    var d := s.current.value;
    if s.current != c && d != s.idle {
      assert Bare(s.table[d]).control == s.table[d].control == Bare(old(s.table)[d]).control;
      assert ThreadOk(s.table, s.ready, s.sleepers, s.idle, s.current, d);
      var slice := s.table[d].timeSlice;
      SliceLasts(s, if |nows| <= slice then nows else nows[..slice]);
    }
  }
}
