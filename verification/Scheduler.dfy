/** The scheduler of src/sched/scheduler.c: a state machine with one method for each call of its API. */
module Scheduling {
  import opened Bytes
  import opened AdaptivePriority
  import opened ThreadLists
  import opened ThreadQueues

  /** A fresh control block (src/sched/thread.c:60-131). */
  function NewTcb(priority: nat): Tcb {
    var p := if priority >= PRIORITY_LEVELS then PRIORITY_NORMAL else priority;
    Tcb(CREATED, Control(p, p, SliceLength(p), seq(8, _ => 50), 0, 50), SliceLength(p), 0, 0, 0, None, None)
  }

  /** The share of the slice used, in per cent, as far as a byte holds it (src/sched/scheduler.c:327, 355). */
  function Usage(ticks: nat, slice: int): byte
    requires slice > 0
  {
    (ticks * 100 / slice) % 0x100
  }

  /** A thread after a slice of which it used the given share. */
  function Sampled(t: Tcb, usage: byte): (r: Tcb)
    requires t.control.index < SAMPLES
  {
    t.(control := Sample(t.control, usage))
  }

  /** The number of sleepers at the front whose time has come. */
  function Due(tab: Table, q: seq<Tid>, now: nat): (n: nat)
    ensures n <= |q| && (forall i :: 0 <= i < n ==> q[i] in tab && tab[q[i]].wakeTime <= now)
    ensures n < |q| && q[n] in tab ==> tab[q[n]].wakeTime > now
  {
    if q == [] || q[0] !in tab || tab[q[0]].wakeTime > now then 0 else Due(tab, q[1..], now) + 1
  }

  /** In a sorted queue those are all the sleepers whose time has come. */
  lemma {:induction false} DueExactly(tab: Table, q: seq<Tid>, now: nat, i: nat)
    requires Sorted(tab, q) && i < |q|
    ensures i < Due(tab, q, now) <==> tab[q[i]].wakeTime <= now
  {
    var n := Due(tab, q, now);
    assert i > n ==> tab[q[n]].wakeTime <= tab[q[i]].wakeTime;
  }

  /** The threads of q with priority p, in order. */
  function OfPriority(tab: Table, q: seq<Tid>, p: nat): seq<Tid> {
    if q == [] then [] else
      var rest, t := OfPriority(tab, q[..|q| - 1], p), q[|q| - 1];
      if t in tab && tab[t].control.priority == p then rest + [t] else rest
  }

  /** Exactly the threads of q are woken: the others keep their control blocks but for links. */
  ghost predicate Woken(tab: Table, tab2: Table, q: seq<Tid>) {
    && tab2.Keys == tab.Keys
    && forall x {:trigger Bare(tab2[x])} :: x in tab ==>
        Bare(tab2[x]) == (if x in q then Bare(tab[x]).(state := READY) else Bare(tab[x]))
  }

  lemma {:induction false} DueIs(tab: Table, q: seq<Tid>, now: nat, i: nat)
    requires (forall j :: 0 <= j < |q| ==> q[j] in tab) && i <= |q|
    requires forall j :: 0 <= j < i ==> tab[q[j]].wakeTime <= now
    requires i < |q| ==> tab[q[i]].wakeTime > now
    ensures Due(tab, q, now) == i
  {
    if i > 0 {
      DueIs(tab, q[1..], now, i - 1);
    }
  }

  lemma OfPriorityStep(tab: Table, q: seq<Tid>, i: nat, p: nat)
    requires i < |q| && forall j :: 0 <= j < |q| ==> q[j] in tab
    ensures OfPriority(tab, q[..i + 1], p) ==
            OfPriority(tab, q[..i], p) + if tab[q[i]].control.priority == p then [q[i]] else []
  {
    assert q[..i + 1][..i] == q[..i];
  }

  /** The first n sleepers of q have been woken, and moved in their order to the tails of the queues. */
  ghost predicate Awake(tab: Table, tab2: Table, ready: Queues, ready2: Queues, q: seq<Tid>, n: nat) {
    && n <= |q| && (forall i :: 0 <= i < |q| ==> q[i] in tab)
    && Woken(tab, tab2, q[..n])
    && forall p :: 0 <= p < PRIORITY_LEVELS ==> ready2[p] == ready[p] + OfPriority(tab, q[..n], p)
  }

  lemma AwakeNone(tab: Table, ready: Queues, q: seq<Tid>)
    requires forall i :: 0 <= i < |q| ==> q[i] in tab
    ensures Awake(tab, tab, ready, ready, q, 0)
  {
  }

  /** Being woken does not change the wake time of the next sleeper. */
  lemma AwakeTimes(tab: Table, tab2: Table, ready: Queues, ready2: Queues, q: seq<Tid>, i: nat)
    requires Awake(tab, tab2, ready, ready2, q, i)
    ensures i < |q| ==> q[i] in tab2 && tab2[q[i]].wakeTime == tab[q[i]].wakeTime
  {
    if i < |q| {
      assert Bare(tab2[q[i]]).wakeTime == Bare(tab[q[i]]).wakeTime;
    }
  }

  lemma WokenStep(tab: Table, tab1: Table, tab2: Table, q: seq<Tid>, i: nat)
    requires i < |q| && Woken(tab, tab1, q[..i]) && Moved(tab1, tab2, q[i], READY)
    ensures Woken(tab, tab2, q[..i + 1])
  {
    assert q[..i + 1] == q[..i] + [q[i]];
    forall x | x in tab
      ensures Bare(tab2[x]) == if x in q[..i + 1] then Bare(tab[x]).(state := READY) else Bare(tab[x])
    {
      assert Bare(tab1[x]) == if x in q[..i] then Bare(tab[x]).(state := READY) else Bare(tab[x]);
    }
  }

  lemma AwakeStep(tab: Table, tab1: Table, tab2: Table, ready: Queues, ready1: Queues, ready2: Queues, q: seq<Tid>,
                  i: nat)
    requires Awake(tab, tab1, ready, ready1, q, i) && i < |q| && Moved(tab1, tab2, q[i], READY)
    requires q[i] in tab1 && tab1[q[i]].control.priority < PRIORITY_LEVELS
    requires var p := tab1[q[i]].control.priority; ready2 == ready1[p := ready1[p] + [q[i]]]
    ensures Awake(tab, tab2, ready, ready2, q, i + 1)
  {
    WokenStep(tab, tab1, tab2, q, i);
    assert Bare(tab1[q[i]]).control == Bare(tab[q[i]]).control;
    forall p | 0 <= p < PRIORITY_LEVELS
      ensures ready2[p] == ready[p] + OfPriority(tab, q[..i + 1], p)
    {
      OfPriorityStep(tab, q, i, p);
    }
  }

  /** A sleeper that has been woken is in its place. */
  lemma PlacedWake(tab: Table, tab1: Table, tab2: Table, ready: Queues, sleepers: seq<Tid>, idle: Tid, current: Link,
                   t: Tid)
    requires Placed(tab, ready, sleepers, idle, current) && t in tab && tab[t].state == SLEEPING
    requires sleepers != [] && t == sleepers[0] && Relinked(tab, tab1) && Moved(tab1, tab2, t, READY)
    ensures Confined(tab[t].control)
    ensures Moved(tab, tab2, t, READY) && var p := tab[t].control.priority;
            Placed(tab2, ready[p := ready[p] + [t]], sleepers[1..], idle, current)
  {
    assert ThreadOk(tab, ready, sleepers, idle, current, t);
    forall x | x in tab
      ensures Bare(tab2[x]) == if x == t then Bare(tab[x]).(state := READY) else Bare(tab[x])
    {
      assert Bare(tab1[x]) == Bare(tab[x]);
    }
    PlacedAppend(tab, tab2, ready, sleepers, sleepers[1..], idle, current, t);
  }

  /** A thread after giving up the processor within its slice. */
  function Spent(t: Tcb): Tcb
    requires Confined(t.control)
  {
    Sampled(t, Usage(t.ticksUsed, t.control.sliceLength))
  }

  function Ticked(t: Tcb): Tcb {
    t.(totalTicks := t.totalTicks + 1, ticksUsed := t.ticksUsed + 1,
       timeSlice := if t.timeSlice > 0 then t.timeSlice - 1 else t.timeSlice)
  }

  /** A thread at the end of a full slice. */
  function Exhausted(t: Tcb): Tcb
    requires Confined(t.control)
  {
    var usage := Usage(t.ticksUsed, t.control.sliceLength);
    Sampled(t, if usage > 100 then 100 else usage)
  }

  /** The ready queues with c at the tail of the one for its priority, unless it has ended. */
  function Requeued(tab: Table, ready: Queues, c: Tid): Queues
    requires c in tab
  {
    var p := tab[c].control.priority;
    if tab[c].state == TERMINATED then ready else WithTail(ready, p, c)
  }

  /** What a yield by c does to the control blocks: c is ready or ended, n runs on or is started, no other thread has
      changed. */
  ghost predicate YieldEffect(tab: Table, tab2: Table, c: Tid, n: Tid) {
    && tab2.Keys == tab.Keys
    && forall x {:trigger Bare(tab2[x])} :: x in tab ==>
         var left := if x != c || tab[c].state == TERMINATED then tab[x] else tab[x].(state := READY);
         Bare(tab2[x]) == Bare(if x == n && n != c then Started(left) else left)
  }

  /** A yield by c: the queues and the current thread afterwards. */
  ghost predicate Yielded(tab: Table, ready: Queues, c: Tid, idle: Tid, tab2: Table, ready2: Queues, current2: Link) {
    && c in tab && Confined(tab[c].control)
    && var spent := tab[c := Spent(tab[c])];
       var queues := Requeued(spent, ready, c);
       && ready2 == Rest(queues) && current2 == Some(Picked(queues, idle))
       && YieldEffect(spent, tab2, c, current2.value)
  }

  lemma YieldDone(tab: Table, tab1: Table, tab2: Table, c: Tid, n: Tid)
    requires c in tab && Moved(tab, tab1, c, if tab[c].state == TERMINATED then TERMINATED else READY)
    requires Switched(tab1, tab2, n, n != c)
    ensures YieldEffect(tab, tab2, c, n)
  {
    forall x | x in tab
      ensures var left := if x != c || tab[c].state == TERMINATED then tab[x] else tab[x].(state := READY);
              Bare(tab2[x]) == Bare(if x == n && n != c then Started(left) else left)
    {
      var left := if x != c || tab[c].state == TERMINATED then tab[x] else tab[x].(state := READY);
      assert Bare(tab1[x]) == Bare(left);
      assert Bare(Started(tab1[x])) == Started(Bare(tab1[x])) && Bare(Started(left)) == Started(Bare(left));
    }
  }

  function Dozing(t: Tcb, wake: nat): Tcb {
    t.(wakeTime := wake, state := SLEEPING)
  }

  function Woke(t: Tcb): Tcb {
    t.(state := READY)
  }

  /** t has left with the control block tcb; if it was the current thread, another has been started. */
  ghost predicate LeaveEffect(tab: Table, tab2: Table, t: Tid, tcb: Tcb, current: Link, current2: Link) {
    && tab2.Keys == tab.Keys
    && forall x {:trigger Bare(tab2[x])} :: x in tab ==>
         Bare(tab2[x]) == Bare(if x == t then tcb
                               else if current == Some(t) && current2 == Some(x) then Started(tab[x]) else tab[x])
  }

  lemma BelongsSame(tab: Table, tab0: Table, q: seq<Tid>, wake: nat, k: nat, t: Tid)
    requires Belongs(tab0, q, wake, k) && t !in q && t in tab && tab0.Keys == tab.Keys
    requires forall x :: x in tab && x != t ==> tab0[x] == tab[x]
    ensures Belongs(tab, q, wake, k)
  {
    assert forall i :: 0 <= i < |q| ==> q[i] in q;
  }

  /** Only links have changed, and the control block of t. */
  ghost predicate Changed(tab: Table, tab2: Table, t: Tid, tcb: Tcb) {
    && tab2.Keys == tab.Keys
    && forall x {:trigger Bare(tab2[x])} :: x in tab ==> Bare(tab2[x]) == Bare(if x == t then tcb else tab[x])
  }

  lemma MovedChanged(tab: Table, tab0: Table, tab1: Table, t: Tid, state: State)
    requires t in tab && SameOutside(tab, tab0, {t}) && Moved(tab0, tab1, t, state)
    ensures Changed(tab, tab1, t, tab0[t].(state := state))
  {
    forall x | x in tab
      ensures Bare(tab1[x]) == Bare(if x == t then tab0[t].(state := state) else tab[x])
    {
      assert Bare(tab1[x]) == if x == t then Bare(tab0[t]).(state := state) else Bare(tab0[x]);
    }
  }

  lemma LeaveDone(tab: Table, tab1: Table, tab2: Table, t: Tid, tcb: Tcb, current: Link, current2: Link)
    requires t in tab && Changed(tab, tab1, t, tcb)
    requires if current == Some(t) then current2.Some? && current2 != Some(t) &&
             Switched(tab1, tab2, current2.value, true)
             else tab2 == tab1 && current2 == current
    ensures LeaveEffect(tab, tab2, t, tcb, current, current2)
  {
    forall x | x in tab
      ensures Bare(tab2[x]) == Bare(if x == t then tcb
                                    else if current == Some(t) && current2 == Some(x) then Started(tab[x]) else tab[x])
    {
      assert Bare(tab1[x]) == Bare(if x == t then tcb else tab[x]);
      assert Bare(Started(tab1[x])) == Started(Bare(tab1[x])) && Bare(Started(tab[x])) == Started(Bare(tab[x]));
    }
  }

  /** The next tick exhausts the slice of the current thread. */
  predicate Expires(tab: Table, current: Link, idle: Tid) {
    current.Some? && current.value in tab && current.value != idle && tab[current.value].timeSlice in {0, 1}
  }

  /** The first part of a tick: exactly the due sleepers have been woken. */
  ghost predicate TickWakes(tab: Table, ready: Queues, sleepers: seq<Tid>, now: nat, woken: Table, queues: Queues,
                            sleepers2: seq<Tid>) {
    && (forall i :: 0 <= i < |sleepers| ==> sleepers[i] in tab)
    && var n := Due(tab, sleepers, now);
       sleepers2 == sleepers[n..] && Awake(tab, woken, ready, queues, sleepers, n)
  }

  /** The current thread after a tick, which may be the last of its slice. */
  ghost function Charged(t: Tcb, last: bool): Tcb {
    var spent := Ticked(t);
    if last && Confined(spent.control) then Exhausted(spent).(state := READY) else spent
  }

  /** The second part: the current thread is charged, and if its slice is exhausted it is sampled and queued. */
  ghost predicate TickCharges(woken: Table, queues: Queues, current: Link, idle: Tid, tab2: Table, ready2: Queues) {
    && current.Some? && current.value in woken && tab2.Keys == woken.Keys
    && var c, last := current.value, Expires(woken, current, idle);
       var tcb := Charged(woken[c], last);
       && (forall x {:trigger Bare(tab2[x])} :: x in woken ==> Bare(tab2[x]) == Bare(if x == c then tcb else woken[x]))
       && ready2 == if last then WithTail(queues, tcb.control.priority, c) else queues
  }

  /** The ticks of the current thread, whether its slice ends or not. */
  lemma TickSpends(tab: Table, ready: Queues, sleepers: seq<Tid>, now: nat, woken: Table, queues: Queues,
                   sleepers2: seq<Tid>, c: Tid, idle: Tid, tab2: Table, ready2: Queues)
    requires TickWakes(tab, ready, sleepers, now, woken, queues, sleepers2)
    requires TickCharges(woken, queues, Some(c), idle, tab2, ready2)
    ensures c in tab && c in tab2 && tab2[c].totalTicks == tab[c].totalTicks + 1
    ensures tab2[c].ticksUsed == tab[c].ticksUsed + 1
    ensures tab2[c].timeSlice == if tab[c].timeSlice > 0 then tab[c].timeSlice - 1 else tab[c].timeSlice
  {
    assert Woken(tab, woken, sleepers[..Due(tab, sleepers, now)]);
    assert Bare(woken[c]).timeSlice == woken[c].timeSlice && Bare(woken[c]).ticksUsed == woken[c].ticksUsed;
    assert woken[c].timeSlice == Bare(tab[c]).timeSlice && woken[c].ticksUsed == Bare(tab[c]).ticksUsed;
    assert Bare(woken[c]).totalTicks == woken[c].totalTicks == Bare(tab[c]).totalTicks;
    assert Bare(tab2[c]).timeSlice == tab2[c].timeSlice && Bare(tab2[c]).ticksUsed == tab2[c].ticksUsed;
    assert Bare(tab2[c]).totalTicks == tab2[c].totalTicks;
  }

  lemma ExpiryDone(woken: Table, mid: Table, tab2: Table, c: Tid)
    requires c in woken && mid.Keys == woken.Keys && forall x :: x in woken && x != c ==> mid[x] == woken[x]
    requires Confined(Ticked(woken[c]).control) && mid[c] == Exhausted(Ticked(woken[c])) && Moved(mid, tab2, c, READY)
    ensures tab2.Keys == woken.Keys
    ensures forall x :: x in woken ==> Bare(tab2[x]) == Bare(if x == c then Charged(woken[c], true) else woken[x])
  {
    forall x | x in woken
      ensures Bare(tab2[x]) == Bare(if x == c then Charged(woken[c], true) else woken[x])
    {
      assert Bare(tab2[x]) == if x == c then Bare(mid[x]).(state := READY) else Bare(mid[x]);
    }
  }

  lemma WokenKeeps(tab: Table, tab2: Table, q: seq<Tid>, current: Link, idle: Tid, blocked: set<Tid>)
    requires Woken(tab, tab2, q) && BlockedOk(tab, blocked) && forall i :: 0 <= i < |q| ==>
             q[i] in tab && tab[q[i]].state == SLEEPING
    ensures BlockedOk(tab2, blocked) && (Expires(tab, current, idle) <==> Expires(tab2, current, idle))
  {
    forall x | x in tab
      ensures tab2[x].state == (if x in q then READY else tab[x].state) && tab2[x].timeSlice == tab[x].timeSlice
    {
      assert Bare(tab2[x]).state == tab2[x].state && Bare(tab2[x]).timeSlice == Bare(tab[x]).timeSlice;
    }
  }

  lemma RelinkedMoved(tab: Table, tab1: Table, t: Tid, state: State)
    requires Relinked(tab, tab1) && t in tab
    ensures Moved(tab, tab1[t := tab1[t].(state := state)], t, state)
  {
    forall x | x in tab
      ensures Bare(tab1[t := tab1[t].(state := state)][x])
           == if x == t then Bare(tab[x]).(state := state) else Bare(tab[x])
    {
      assert Bare(tab1[x]) == Bare(tab[x]);
    }
  }

  class Scheduler {
    var table: Table
    const heads: array<Link>
    const tails: array<Link>
    var sleepQueue: Link
    const idle: Tid
    var current: Link
    var running: bool
    var needReschedule: bool
    var nextTid: Tid
    var threadsReady: nat
    var threadsSleeping: nat
    var threadsBlocked: nat
    var totalSwitches: nat
    var priorityBoosts: nat
    var priorityDemotions: nat
    var idleTicks: nat

    /** The contents of the queues, and the blocked threads. */
    ghost var ready: Queues
    ghost var sleepers: seq<Tid>
    ghost var blocked: set<Tid>

    ghost predicate Shape()
      reads this
    {
      heads.Length == tails.Length == PRIORITY_LEVELS && heads != tails
    }

    /** The queues are lists of threads in the right states, and their counters are exact. */
    ghost predicate Lists()
      reads this, heads, tails
    {
      && Shape()
      && ReadyOk(table, heads[..], tails[..], ready) && threadsReady == Total(ready, PRIORITY_LEVELS)
      && SleepOk(table, sleepQueue, sleepers) && threadsSleeping == |sleepers|
    }

    ghost predicate Counted()
      reads this
    {
      BlockedOk(table, blocked) && threadsBlocked == |blocked|
    }

    ghost predicate Numbered()
      reads this
    {
      (running ==> current.Some?) && forall t :: t in table ==> t < nextTid
    }

    /** What every step of the API keeps. */
    ghost predicate Inv()
      reads this, heads, tails
    {
      Lists() && Counted() && Placed(table, ready, sleepers, idle, current) && Numbered()
    }

    // ---- Threads ----

    /** scheduler_init (src/sched/scheduler.c:246-275). */
    constructor ()
      ensures Inv() && !running && current == None && fresh(heads) && fresh(tails)
      ensures table == map[idle := NewTcb(PRIORITY_IDLE).(state := READY)] && idle == 1 && nextTid == 2
      ensures ready == [[], [], [], [], [], [], []] && sleepers == [] && blocked == {}
    {
      heads := new Link[PRIORITY_LEVELS](_ => None);
      tails := new Link[PRIORITY_LEVELS](_ => None);
      idle, nextTid := 1, 2;
      table := map[1 := NewTcb(PRIORITY_IDLE).(state := READY)];
      sleepQueue, current, running, needReschedule := None, None, false, false;
      threadsReady, threadsSleeping, threadsBlocked, totalSwitches := 0, 0, 0, 0;
      priorityBoosts, priorityDemotions, idleTicks := 0, 0, 0;
      ready, sleepers, blocked := [[], [], [], [], [], [], []], [], {};
      new;
      TotalEmpty(ready, PRIORITY_LEVELS);
      forall p | 0 <= p < PRIORITY_LEVELS
        ensures QueueOk(table, p, ready[p], heads[..][p], tails[..][p])
      {
      }
      assert ThreadOk(table, ready, sleepers, idle, current, 1);
    }

    /** thread_create_priority (src/sched/thread.c:60). */
    method Create(priority: nat) returns (t: Tid)
      requires Inv()
      modifies this`table, this`nextTid
      ensures Inv() && t !in old(table) && table == old(table)[t := NewTcb(priority)] && Loose(t)
      ensures t == old(nextTid) && nextTid == t + 1
      ensures var p, tcb := if priority < 7 then priority else 3, table[t];
              && tcb.state == CREATED && tcb.timeSlice == 10 + (7 - p) * 3 && tcb.ticksUsed == tcb.totalTicks == 0
              && tcb.control.base == tcb.control.priority == p && tcb.control.sliceLength == 10 + (7 - p) * 3
              && tcb.control.average == 50 && forall i :: 0 <= i < 8 ==> tcb.control.history[i] == 50
    {
      t := nextTid;
      CreateLists(table, table[t := NewTcb(priority)], heads[..], tails[..], ready, sleepQueue, sleepers, t);
      CreatePlaced(table, table[t := NewTcb(priority)], ready, sleepers, idle, current, t, blocked);
      table := table[t := NewTcb(priority)];
      nextTid := nextTid + 1;
    }

    // ---- Queue operations ----

    /** The stores of enqueue_ready (src/sched/scheduler.c:43-54). */
    method Hang(t: Tid, p: nat)
      requires Shape() && p < PRIORITY_LEVELS && t in table && (tails[p].Some? ==> tails[p].value in table)
      modifies this`table, heads, tails
      ensures table == Hung(old(table), old(tails[p]), t)
      ensures heads[..] == old(heads[..])[p := if old(tails[p]).Some? then old(heads[p]) else Some(t)]
      ensures tails[..] == old(tails[..])[p := Some(t)]
    {
      table := table[t := table[t].(next := None, prev := tails[p])];
      if tails[p].Some? {
        var last := tails[p].value;
        table := table[last := table[last].(next := Some(t))];
      } else {
        heads[p] := Some(t);
      }
      tails[p] := Some(t);
      table := table[t := table[t].(state := READY)];
    }

    /** enqueue_ready (src/sched/scheduler.c:42). */
    method EnqueueReady(t: Tid)
      requires Lists() && t in table && table[t].control.priority < PRIORITY_LEVELS
      requires !Queued(table, ready, t) && t !in sleepers
      modifies this`table, this`ready, this`threadsReady, heads, tails
      ensures Lists() && Moved(old(table), table, t, READY)
      ensures var p := old(table)[t].control.priority; ready == old(ready)[p := old(ready)[p] + [t]]
    {
      var p := table[t].control.priority;
      HungLists(table, heads[..], tails[..], ready, sleepQueue, sleepers, t, p);
      TotalUpdate(ready, PRIORITY_LEVELS, p, ready[p] + [t]);
      Hang(t, p);
      threadsReady := threadsReady + 1;
      ready := ready[p := ready[p] + [t]];
    }

    /** The stores of dequeue_ready (src/sched/scheduler.c:63-71). */
    method Pop(p: nat, t: Tid)
      requires Shape() && p < PRIORITY_LEVELS && t in table && heads[p] == Some(t) && table[t].prev == None
      requires table[t].next.Some? ==> table[t].next.value in table && table[t].next.value != t
      modifies this`table, heads, tails
      ensures table == Cut(old(table), t)
      ensures heads[..] == old(heads[..])[p := old(table)[t].next]
      ensures tails[..] == old(tails[..])[p := if old(table)[t].next.Some? then old(tails[p]) else None]
    {
      heads[p] := table[t].next;
      if heads[p].Some? {
        var first := heads[p].value;
        table := table[first := table[first].(prev := None)];
      } else {
        tails[p] := None;
      }
      table := table[t := table[t].(next := None, prev := None)];
    }

    /** dequeue_ready (src/sched/scheduler.c:59). */
    method DequeueReady(p: nat) returns (t: Link)
      requires Lists() && p < PRIORITY_LEVELS
      modifies this`table, this`ready, this`threadsReady, heads, tails
      ensures Lists() && Relinked(old(table), table) && t == FirstOf(old(ready)[p])
      ensures t == None ==> table == old(table) && ready == old(ready)
      ensures t.Some? ==>
        && t.value in table && table[t.value].state == READY && t.value !in sleepers
        && ready == old(ready)[p := old(ready)[p][1..]] && !Queued(table, ready, t.value)
    {
      assert QueueOk(table, p, ready[p], heads[..][p], tails[..][p]);
      t := heads[p];
      if t == None {
        return;
      }
      CutLists(table, heads[..], tails[..], ready, sleepQueue, sleepers, p, 0);
      TotalUpdate(ready, PRIORITY_LEVELS, p, ready[p][1..]);
      assert Without(ready[p], 0) == ready[p][1..];
      Pop(p, t.value);
      threadsReady := threadsReady - 1;
      ready := ready[p := ready[p][1..]];
    }

    /** The stores of remove_from_ready (src/sched/scheduler.c:79-94). */
    method Extract(p: nat, t: Tid)
      requires Shape() && p < PRIORITY_LEVELS && t in table
      requires table[t].prev.Some? ==> table[t].prev.value in table
      requires table[t].next.Some? ==> table[t].next.value in table && table[t].next.value != t
      modifies this`table, heads, tails
      ensures table == Cut(old(table), t)
      ensures heads[..] == old(heads[..])[p := if old(table)[t].prev.Some? then old(heads[p]) else old(table)[t].next]
      ensures tails[..] == old(tails[..])[p := if old(table)[t].next.Some? then old(tails[p]) else old(table)[t].prev]
    {
      var before, after := table[t].prev, table[t].next;
      if before.Some? {
        table := table[before.value := table[before.value].(next := after)];
      } else {
        heads[p] := after;
      }
      if after.Some? {
        table := table[after.value := table[after.value].(prev := before)];
      } else {
        tails[p] := before;
      }
      table := table[t := table[t].(next := None, prev := None)];
    }

    /** remove_from_ready (src/sched/scheduler.c:78). */
    method RemoveFromReady(t: Tid, ghost k: nat)
      requires Lists() && Queued(table, ready, t)
      requires var p := table[t].control.priority; k < |ready[p]| && ready[p][k] == t
      modifies this`table, this`ready, this`threadsReady, heads, tails
      ensures Lists() && Relinked(old(table), table) && !Queued(table, ready, t)
      ensures var p := old(table)[t].control.priority; ready == old(ready)[p := Without(old(ready)[p], k)]
    {
      var p := table[t].control.priority;
      CutLists(table, heads[..], tails[..], ready, sleepQueue, sleepers, p, k);
      TotalUpdate(ready, PRIORITY_LEVELS, p, Without(ready[p], k));
      Extract(p, t);
      threadsReady := threadsReady - 1;
      ready := ready[p := Without(ready[p], k)];
    }

    /** The search of enqueue_sleep for the last sleeper that wakes no later (src/sched/scheduler.c:109-111). */
    method LastNoLater(wake: nat) returns (prev: Tid, ghost k: nat)
      requires SleepOk(table, sleepQueue, sleepers) && sleepQueue.Some? && sleepQueue.value in table
      requires table[sleepQueue.value].wakeTime <= wake
      ensures 0 < k <= |sleepers| && prev == sleepers[k - 1] && Belongs(table, sleepers, wake, k)
    {
      prev, k := sleepQueue.value, 1;
      while table[prev].next.Some? && table[table[prev].next.value].wakeTime <= wake
        invariant 0 < k <= |sleepers| && prev == sleepers[k - 1]
        invariant table[prev].next.Some? ==> k < |sleepers| && table[prev].next.value == sleepers[k]
        invariant forall i :: 0 <= i < k ==> table[sleepers[i]].wakeTime <= wake
        decreases |sleepers| - k
      {
        prev, k := table[prev].next.value, k + 1;
      }
    }

    /** The stores of enqueue_sleep (src/sched/scheduler.c:100-114). */
    method Splice(t: Tid) returns (ghost k: nat)
      requires SleepOk(table, sleepQueue, sleepers) && t in table && t !in sleepers
      modifies this`table, this`sleepQueue
      ensures Belongs(old(table), sleepers, old(table)[t].wakeTime, k) && IsSpliced(old(table), table, sleepers, k, t)
      ensures sleepQueue == if k == 0 then Some(t) else old(sleepQueue)
    {
      var wake := table[t].wakeTime;
      SleepSame(table, table[t := table[t].(state := SLEEPING, next := None)], sleepQueue, sleepers, {t});
      table := table[t := table[t].(state := SLEEPING, next := None)];
      if sleepQueue == None || wake < table[sleepQueue.value].wakeTime {
        k := 0;
        table := table[t := table[t].(next := sleepQueue)];
        sleepQueue := Some(t);
      } else {
        var prev;
        prev, k := LastNoLater(wake);
        BehindIs(old(table), sleepers, sleepQueue, k, t);
        table := table[t := table[t].(next := table[prev].next)];
        table := table[prev := table[prev].(next := Some(t))];
      }
    }

    /** enqueue_sleep (src/sched/scheduler.c:99). */
    method EnqueueSleep(t: Tid) returns (ghost k: nat)
      requires Lists() && t in table && t !in sleepers && !Queued(table, ready, t)
      modifies this`table, this`sleepQueue, this`sleepers, this`threadsSleeping
      ensures Lists() && Moved(old(table), table, t, SLEEPING)
      ensures Belongs(old(table), old(sleepers), old(table)[t].wakeTime, k) && sleepers == Inserted(old(sleepers), k, t)
    {
      k := Splice(t);
      threadsSleeping := threadsSleeping + 1;
      assert Shape() && threadsReady == Total(ready, PRIORITY_LEVELS) && threadsSleeping == |sleepers| + 1;
      SpliceLists(old(table), table, heads[..], tails[..], ready, old(sleepQueue), sleepers, k, t);
      sleepers := Inserted(sleepers, k, t);
    }

    // ---- Adaptive priority ----

    /** update_cpu_usage (src/sched/scheduler.c:122). */
    method UpdateCpuUsage(t: Tid, usage: byte)
      requires t in table && table[t].control.index < SAMPLES
      modifies this`table
      ensures table == old(table)[t := old(table)[t].(control := Update(old(table)[t].control, usage))]
      ensures var c, h := table[t].control, table[t].control.history;
              && h == old(table)[t].control.history[old(table)[t].control.index := usage]
              && 8 * c.average <= h[0] as int + h[1] + h[2] + h[3] + h[4] + h[5] + h[6] + h[7] < 8 * c.average + 8
    {
      EightSamples(table[t].control.history[table[t].control.index := usage]);
      var c := table[t].control;
      var history := c.history[c.index := usage];
      var sum := 0;
      for i := 0 to SAMPLES
        invariant sum == Sum(history, i)
      {
        sum := sum + history[i];
      }
      table := table[t := table[t].(control :=
        c.(history := history, index := (c.index + 1) % SAMPLES, average := sum / SAMPLES))];
    }

    /** adjust_priority (src/sched/scheduler.c:135). */
    method AdjustPriority(t: Tid)
      requires t in table
      modifies this`table, this`priorityBoosts, this`priorityDemotions
      ensures var c := old(table)[t].control; var d := if t == idle then c else Adjust(c);
              && table == old(table)[t := old(table)[t].(control := d)]
              && priorityBoosts - old(priorityBoosts) == (if d.priority < c.priority then 1 else 0)
              && priorityDemotions - old(priorityDemotions) == (if d.priority > c.priority then 1 else 0)
      ensures var c, d := old(table)[t].control, table[t].control;
              && d.priority == (if t == idle || c.base == 0 then c.priority
                                else if c.average > 80 && c.priority < 5 then c.priority + 1
                                else if c.average < 30 && c.priority > c.base then c.priority - 1 else c.priority)
              && d.sliceLength == if d.priority == c.priority then c.sliceLength else 10 + (7 - d.priority) * 3
    {
      var c := table[t].control;
      var priority := c.priority;
      if t == idle || c.base == PRIORITY_REALTIME {
        assert table == table[t := table[t].(control := c)];
        return;
      }
      if c.average > DEMOTE_THRESHOLD {
        if priority < PRIORITY_LOW {
          priority := priority + 1;
          priorityDemotions := priorityDemotions + 1;
        }
      } else if c.average < BOOST_THRESHOLD {
        if priority > c.base {
          priority := priority - 1;
          priorityBoosts := priorityBoosts + 1;
        }
      }
      if priority != c.priority {
        table := table[t := table[t].(control :=
          c.(priority := priority, sliceLength := TIME_SLICE_BASE + (PRIORITY_LEVELS - priority) * 3))];
      } else {
        assert table == table[t := table[t].(control := c)];
      }
    }

    // ---- Dispatch ----

    /** pick_next_thread (src/sched/scheduler.c:174). */
    method PickNext() returns (t: Tid)
      requires Lists() && idle in table
      modifies this`table, this`ready, this`threadsReady, heads, tails
      ensures Lists() && Relinked(old(table), table)
      ensures t == Picked(old(ready), idle) && ready == Rest(old(ready))
      ensures t in table && (Level(old(ready)) < PRIORITY_LEVELS ==> table[t].state == READY && t !in sleepers)
      ensures Level(old(ready)) < PRIORITY_LEVELS ==> !Queued(table, ready, t)
    {
      var p := 0;
      while p < PRIORITY_LEVELS
        invariant p <= PRIORITY_LEVELS && Lists() && Level(ready) == LevelFrom(ready, p)
        invariant table == old(table) && ready == old(ready)
      {
        assert QueueOk(table, p, ready[p], heads[..][p], tails[..][p]);
        if heads[p].Some? {
          var first := DequeueReady(p);
          return first.value;
        }
        p := p + 1;
      }
      t := idle;
    }

    /** Taking the first sleeper off the sleep queue (src/sched/scheduler.c:191-194). */
    method PopSleep() returns (t: Tid)
      requires Lists() && sleepQueue.Some?
      modifies this`table, this`sleepQueue, this`sleepers, this`threadsSleeping
      ensures Lists() && Relinked(old(table), table)
      ensures old(sleepers) != [] && sleepers == old(sleepers)[1..] && t == old(sleepers)[0]
      ensures t in table && old(table)[t].state == SLEEPING && t !in sleepers && !Queued(table, ready, t)
    {
      PopSleeper(table, heads[..], tails[..], ready, sleepQueue, sleepers);
      t := sleepQueue.value;
      sleepQueue := table[t].next;
      table := table[t := table[t].(next := None)];
      threadsSleeping := threadsSleeping - 1;
      sleepers := sleepers[1..];
    }

    /** One round of wake_expired_sleepers (src/sched/scheduler.c:191-198). */
    method WakeFirst()
      requires Lists() && Placed(table, ready, sleepers, idle, current) && sleepQueue.Some?
      modifies this`table, this`sleepQueue, this`sleepers, this`threadsSleeping, this`ready, this`threadsReady, heads,
               tails
      ensures Lists() && Placed(table, ready, sleepers, idle, current)
      ensures old(sleepers) != [] && sleepers == old(sleepers)[1..]
      ensures var t := old(sleepers)[0];
              && t in old(table) && Moved(old(table), table, t, READY)
              && var p := old(table)[t].control.priority;
                 p < PRIORITY_LEVELS && ready == old(ready)[p := old(ready)[p] + [t]]
    {
      var t := PopSleep();
      ghost var tab1 := table;
      assert ThreadOk(old(table), ready, old(sleepers), idle, current, t);
      assert Bare(table[t]).control == Bare(old(table)[t]).control;
      EnqueueReady(t);
      PlacedWake(old(table), tab1, table, old(ready), old(sleepers), idle, current, t);
    }

    /** wake_expired_sleepers (src/sched/scheduler.c:187): the due sleepers, in the order of waking, go to the tails of
        the queues of their priorities. */
    method WakeExpired(now: nat)
      requires Lists() && Placed(table, ready, sleepers, idle, current)
      modifies this`table, this`sleepQueue, this`sleepers, this`threadsSleeping, this`ready, this`threadsReady, heads,
               tails
      ensures Lists() && Placed(table, ready, sleepers, idle, current)
      ensures forall i :: 0 <= i < |old(sleepers)| ==> old(sleepers)[i] in old(table)
      ensures var n := Due(old(table), old(sleepers), now);
              sleepers == old(sleepers)[n..] && Awake(old(table), table, old(ready), ready, old(sleepers), n)
    {
      ghost var i := 0;
      AwakeNone(table, ready, sleepers);
      while sleepQueue.Some? && table[sleepQueue.value].wakeTime <= now
        invariant i <= |old(sleepers)| && sleepers == old(sleepers)[i..]
        invariant Lists() && Placed(table, ready, sleepers, idle, current)
        invariant Awake(old(table), table, old(ready), ready, old(sleepers), i)
        invariant forall j :: 0 <= j < i ==> old(table)[old(sleepers)[j]].wakeTime <= now
        decreases |sleepers|
      {
        ghost var before, queues := table, ready;
        AwakeTimes(old(table), table, old(ready), ready, old(sleepers), i);
        WakeFirst();
        AwakeStep(old(table), before, table, old(ready), queues, ready, old(sleepers), i);
        i := i + 1;
      }
      AwakeTimes(old(table), table, old(ready), ready, old(sleepers), i);
      DueIs(old(table), old(sleepers), now, i);
    }

    /** The stores of switch_to (src/sched/scheduler.c:208-221). */
    method Begin(next: Tid)
      requires next in table
      modifies this`table, this`current, this`totalSwitches
      ensures table == old(table)[next := Started(old(table)[next])]
      ensures current == Some(next) && totalSwitches == old(totalSwitches) + 1
    {
      current := Some(next);
      table := table[next := table[next].(state := RUNNING)];
      table := table[next := table[next].(timeSlice := table[next].control.sliceLength, ticksUsed := 0)];
      totalSwitches := totalSwitches + 1;
    }

    /** switch_to (src/sched/scheduler.c:202). */
    method SwitchTo(next: Tid)
      requires Lists() && next in table && !Queued(table, ready, next) && next !in sleepers
      modifies this`table, this`current, this`totalSwitches
      ensures Lists() && current == Some(next)
      ensures Switched(old(table), table, next, old(current) != Some(next))
      ensures old(current) != Some(next) && Confined(old(table)[next].control) ==> FullSlice(table[next])
      ensures totalSwitches == old(totalSwitches) + if old(current) != Some(next) then 1 else 0
    {
      if current == Some(next) {
        return;
      }
      StartLists(table, heads[..], tails[..], ready, sleepQueue, sleepers, next);
      Begin(next);
    }

    /** schedule (src/sched/scheduler.c:227). */
    method Schedule()
      requires Lists() && idle in table && idle !in sleepers
      modifies this`table, this`current, this`totalSwitches, this`ready, this`threadsReady, heads, tails
      ensures Lists() && ready == Rest(old(ready)) && current == Some(Picked(old(ready), idle)) &&
              current.value in table
      ensures Switched(old(table), table, current.value, old(current) != current)
      ensures current != old(current) && Confined(old(table)[current.value].control) ==> FullSlice(table[current.value])
      ensures totalSwitches == old(totalSwitches) + if current != old(current) then 1 else 0
      ensures Level(old(ready)) < PRIORITY_LEVELS ==> old(table)[current.value].state == READY
    {
      var next := PickNext();
      ghost var tab1 := table;
      assert Bare(tab1[next]).state == Bare(old(table)[next]).state;
      assert Level(old(ready)) == PRIORITY_LEVELS ==> ready[table[idle].control.priority % 7] == [];
      if current != Some(next) {
        SwitchTo(next);
      }
    }

    /** The accounting at the end of a slice (src/sched/scheduler.c:330-331, 357-358). */
    method Charge(t: Tid, usage: byte)
      requires t in table && t != idle && table[t].control.index < SAMPLES
      modifies this`table, this`priorityBoosts, this`priorityDemotions
      ensures table == old(table)[t := Sampled(old(table)[t], usage)]
    {
      UpdateCpuUsage(t, usage);
      AdjustPriority(t);
    }

    /** What the accounting keeps. */
    method Settle(t: Tid, usage: byte)
      requires Inv() && t in table && t != idle && !Queued(table, ready, t) && t !in sleepers
      requires Confined(table[t].control)
      modifies this`table, this`priorityBoosts, this`priorityDemotions
      ensures Inv() && !Queued(table, ready, t)
      ensures table == old(table)[t := Sampled(old(table)[t], usage)]
    {
      assert ThreadOk(table, ready, sleepers, idle, current, t);
      ghost var tab2 := table[t := Sampled(table[t], usage)];
      assert SameOutside(table, tab2, {t});
      UpdateKeeps(table, tab2, heads[..], tails[..], ready, sleepQueue, sleepers, idle, current, t, blocked);
      Charge(t, usage);
    }

    /** What enqueue_ready keeps of the invariant when the thread comes from outside the lists. */
    method Enlist(t: Tid)
      requires Inv() && t in table && t != idle && !Queued(table, ready, t) && t !in sleepers
      requires table[t].control.priority < PRIORITY_LEVELS
      modifies this`table, this`ready, this`threadsReady, heads, tails
      ensures Lists() && Moved(old(table), table, t, READY) && BlockedOk(table, blocked - {t})
      ensures Placed(table, ready, sleepers, idle, if current == Some(t) then None else current)
      ensures var p := old(table)[t].control.priority; ready == old(ready)[p := old(ready)[p] + [t]]
    {
      EnqueueReady(t);
      AppendKeeps(old(table), table, old(ready), sleepers, idle, current, t, blocked);
    }

    /** What schedule keeps when the current thread has left or has been queued. */
    method Handover()
      requires Lists() && Placed(table, ready, sleepers, idle, None) && Counted()
      modifies this`table, this`current, this`totalSwitches, this`ready, this`threadsReady, heads, tails
      ensures Lists() && Placed(table, ready, sleepers, idle, current) && Counted()
      ensures ready == Rest(old(ready)) && current == Some(Picked(old(ready), idle))
      ensures Switched(old(table), table, current.value, old(current) != current)
      ensures current.value in old(table) && old(table)[current.value].state in {READY, RUNNING}
      ensures current != old(current) ==> current.value in table && FullSlice(table[current.value])
    {
      CurrentLoose(table, ready, sleepQueue, sleepers, idle, None);
      Schedule();
      assert ThreadOk(old(table), old(ready), sleepers, idle, None, current.value);
      DispatchKeeps(old(table), table, old(heads[..]), old(tails[..]), old(ready), sleepers, idle, current.value,
                    old(current) != current, blocked);
    }

    /** The current thread goes back to its ready queue unless it has ended (src/sched/scheduler.c:362-364). */
    method Requeue(c: Tid)
      requires Inv() && current == Some(c) && c != idle
      modifies this`table, this`ready, this`threadsReady, heads, tails
      ensures Lists() && Counted() && Placed(table, ready, sleepers, idle, None)
      ensures c in old(table) && ready == Requeued(old(table), old(ready), c)
      ensures Moved(old(table), table, c, if old(table)[c].state == TERMINATED then TERMINATED else READY)
    {
      CurrentLoose(table, ready, sleepQueue, sleepers, idle, current);
      assert ThreadOk(table, ready, sleepers, idle, current, c);
      if table[c].state != TERMINATED {
        assert blocked - {c} == blocked;
        Enlist(c);
      } else {
        PlacedLeave(table, table, ready, sleepers, sleepers, idle, current, c, TERMINATED);
      }
    }

    /** The sampling and requeueing of scheduler_yield (src/sched/scheduler.c:354-364). */
    method GiveUp(c: Tid)
      requires Inv() && current == Some(c) && c != idle
      modifies this`table, this`priorityBoosts, this`priorityDemotions, this`ready, this`threadsReady, heads, tails
      ensures Lists() && Counted() && Placed(table, ready, sleepers, idle, None)
      ensures c in old(table) && Confined(old(table)[c].control)
      ensures var tab := old(table)[c := Spent(old(table)[c])];
              && ready == Requeued(tab, old(ready), c)
              && Moved(tab, table, c, if tab[c].state == TERMINATED then TERMINATED else READY)
    {
      CurrentLoose(table, ready, sleepQueue, sleepers, idle, current);
      assert ThreadOk(table, ready, sleepers, idle, current, c);
      if table[c].control.sliceLength > 0 {
        Settle(c, Usage(table[c].ticksUsed, table[c].control.sliceLength));
      }
      Requeue(c);
    }

    /** The yield proper (src/sched/scheduler.c:354-367). */
    method YieldFrom(c: Tid)
      requires Inv() && current == Some(c) && c != idle
      modifies this`table, this`current, this`totalSwitches, this`ready, this`threadsReady, this`priorityBoosts,
               this`priorityDemotions, heads, tails
      ensures Inv() && Yielded(old(table), old(ready), c, idle, table, ready, current)
      ensures current != old(current) ==> current.value in table && FullSlice(table[current.value])
    {
      GiveUp(c);
      ghost var tab1 := table;
      Handover();
      YieldDone(old(table)[c := Spent(old(table)[c])], tab1, table, c, current.value);
    }

    /** scheduler_yield (src/sched/scheduler.c:342) by a thread other than the idle thread: its usage is sampled, it
        goes to the tail of the queue of its new priority, and the most urgent ready thread, maybe itself, runs. */
    method Yield()
      requires Inv() && current != Some(idle)
      modifies this`table, this`current, this`totalSwitches, this`ready, this`threadsReady, this`needReschedule,
               this`priorityBoosts, this`priorityDemotions, heads, tails
      ensures Inv()
      ensures !running ==> table == old(table) && ready == old(ready) && current == old(current)
      ensures running ==> !needReschedule && old(current).Some?
      ensures running ==> Yielded(old(table), old(ready), old(current).value, idle, table, ready, current)
      ensures current != old(current) ==> current.Some? && current.value in table && FullSlice(table[current.value])
    {
      if !running || current == None {
        return;
      }
      needReschedule := false;
      YieldFrom(current.value);
    }

    /** t is known, is not the idle thread, and is in no queue and not blocked. */
    ghost predicate Loose(t: Tid)
      reads this
    {
      t in table && t != idle && !Queued(table, ready, t) && t !in sleepers && t !in blocked
    }

    /** scheduler_add (src/sched/scheduler.c:277) of a thread outside the queues. */
    method Add(t: Tid)
      requires Inv() && Loose(t) && current != Some(t)
      modifies this`table, this`ready, this`threadsReady, heads, tails
      ensures Inv() && Moved(old(table), table, t, READY) &&
              ready == Requeued(old(table)[t := Woke(old(table)[t])], old(ready), t)
    {
      assert ThreadOk(table, ready, sleepers, idle, current, t);
      assert blocked - {t} == blocked;
      Enlist(t);
    }

    /** scheduler_unblock (src/sched/scheduler.c:387). */
    method Unblock(t: Tid)
      requires Inv() && t in table
      modifies this`table, this`ready, this`threadsReady, this`threadsBlocked, this`blocked, heads, tails
      ensures Inv() && blocked == old(blocked) - {t}
      ensures t !in old(blocked) ==> table == old(table) && ready == old(ready)
      ensures t in old(blocked) ==>
        && Moved(old(table), table, t, READY)
        && ready == Requeued(old(table)[t := Woke(old(table)[t])], old(ready), t)
    {
      if table[t].state == BLOCKED {
        assert ThreadOk(table, ready, sleepers, idle, current, t);
        BlockedLoose(table, heads[..], tails[..], ready, sleepQueue, sleepers, idle, current, t);
        Enlist(t);
        threadsBlocked := threadsBlocked - 1;
        blocked := blocked - {t};
      } else {
        assert blocked - {t} == blocked;
      }
    }

    /** The thread becomes blocked (src/sched/scheduler.c:376-377). */
    method Suspend(t: Tid)
      requires Inv() && Loose(t)
      modifies this`table, this`threadsBlocked, this`blocked
      ensures Numbered()
      ensures Lists() && Counted() && Placed(table, ready, sleepers, idle, if current == Some(t) then None else current)
      ensures Changed(old(table), table, t, old(table)[t].(state := BLOCKED)) && blocked == old(blocked) + {t}
    {
      StateLists(table, table[t := table[t].(state := BLOCKED)], heads[..], tails[..], ready, sleepQueue, sleepers, t,
                 BLOCKED);
      LeaveKeeps(table, table[t := table[t].(state := BLOCKED)], ready, sleepers, sleepers, idle, current, t, BLOCKED,
                 blocked);
      table := table[t := table[t].(state := BLOCKED)];
      threadsBlocked := threadsBlocked + 1;
      blocked := blocked + {t};
    }

    /** If the thread that has left was the current one, another runs (src/sched/scheduler.c:380-382, 405-407). */
    method LeaveTo(t: Tid, ghost tab: Table, ghost tcb: Tcb)
      requires Lists() && Counted() && Placed(table, ready, sleepers, idle,
                                              if current == Some(t) then None else current)
      requires t in tab && Changed(tab, table, t, tcb) && Numbered()
      requires tcb.state in {BLOCKED, SLEEPING}
      modifies this`table, this`current, this`totalSwitches, this`ready, this`threadsReady, heads, tails
      ensures Inv() && LeaveEffect(tab, table, t, tcb, old(current), current)
      ensures current == (if old(current) == Some(t) then Some(Picked(old(ready), idle)) else old(current))
      ensures ready == if old(current) == Some(t) then Rest(old(ready)) else old(ready)
      ensures current != old(current) ==> current.Some? && current.value in table && FullSlice(table[current.value])
    {
      ghost var tab1 := table;
      assert Bare(table[t]).state == tcb.state;
      if current == Some(t) {
        Handover();
      }
      LeaveDone(tab, tab1, table, t, tcb, old(current), current);
    }

    /** scheduler_block (src/sched/scheduler.c:373). */
    method Block(t: Tid)
      requires Inv() && Loose(t)
      modifies this`table, this`threadsBlocked, this`blocked, this`current, this`totalSwitches, this`ready,
               this`threadsReady, heads, tails
      ensures Inv() && blocked == old(blocked) + {t}
      ensures current == (if old(current) == Some(t) then Some(Picked(old(ready), idle)) else old(current))
      ensures ready == if old(current) == Some(t) then Rest(old(ready)) else old(ready)
      ensures LeaveEffect(old(table), table, t, old(table)[t].(state := BLOCKED), old(current), current)
      ensures t in table && table[t].state == BLOCKED
      ensures current != old(current) ==> current.Some? && current.value in table && FullSlice(table[current.value])
    {
      Suspend(t);
      LeaveTo(t, old(table), old(table)[t].(state := BLOCKED));
      assert Bare(table[t]).state == table[t].state;
    }

    /** The wake time is stored (src/sched/scheduler.c:401). */
    method SetWakeTime(t: Tid, wake: nat)
      requires Inv() && Loose(t)
      modifies this`table
      ensures Inv() && Loose(t) && table == old(table)[t := old(table)[t].(wakeTime := wake)]
    {
      ghost var tab2 := table[t := table[t].(wakeTime := wake)];
      assert ThreadOk(table, ready, sleepers, idle, current, t);
      UpdateKeeps(table, tab2, heads[..], tails[..], ready, sleepQueue, sleepers, idle, current, t, blocked);
      table := table[t := table[t].(wakeTime := wake)];
    }

    /** The thread goes to sleep (src/sched/scheduler.c:402). */
    method Lull(t: Tid) returns (ghost k: nat)
      requires Inv() && Loose(t)
      modifies this`table, this`sleepQueue, this`sleepers, this`threadsSleeping
      ensures Lists() && Counted() && Placed(table, ready, sleepers, idle, if current == Some(t) then None else current)
      ensures Moved(old(table), table, t, SLEEPING)
      ensures Belongs(old(table), old(sleepers), old(table)[t].wakeTime, k) && sleepers == Inserted(old(sleepers), k, t)
    {
      k := EnqueueSleep(t);
      InsertedMembers(old(sleepers), k, t);
      assert blocked - {t} == blocked;
      LeaveKeeps(old(table), table, ready, old(sleepers), sleepers, idle, current, t, SLEEPING, blocked);
    }

    /** Both (src/sched/scheduler.c:401-402). */
    method FallAsleep(t: Tid, wake: nat) returns (ghost k: nat)
      requires Inv() && Loose(t)
      modifies this`table, this`sleepQueue, this`sleepers, this`threadsSleeping
      ensures Numbered()
      ensures Lists() && Counted() && Placed(table, ready, sleepers, idle, if current == Some(t) then None else current)
      ensures Changed(old(table), table, t, Dozing(old(table)[t], wake))
      ensures Belongs(old(table), old(sleepers), wake, k) && sleepers == Inserted(old(sleepers), k, t)
    {
      SetWakeTime(t, wake);
      ghost var tab := table;
      k := Lull(t);
      BelongsSame(old(table), tab, old(sleepers), wake, k, t);
      MovedChanged(old(table), tab, table, t, SLEEPING);
    }

    /** scheduler_sleep (src/sched/scheduler.c:398): t goes behind all sleepers that wake no later. */
    method Sleep(t: Tid, wake: nat) returns (ghost k: nat)
      requires Inv() && Loose(t)
      modifies this`table, this`sleepQueue, this`sleepers, this`threadsSleeping, this`current, this`totalSwitches,
               this`ready, this`threadsReady, heads, tails
      ensures Inv()
      ensures Belongs(old(table), old(sleepers), wake, k) && sleepers == Inserted(old(sleepers), k, t)
      ensures current == (if old(current) == Some(t) then Some(Picked(old(ready), idle)) else old(current))
      ensures ready == if old(current) == Some(t) then Rest(old(ready)) else old(ready)
      ensures LeaveEffect(old(table), table, t, Dozing(old(table)[t], wake), old(current), current)
      ensures t in table && table[t].state == SLEEPING && table[t].wakeTime == wake
      ensures current != old(current) ==> current.Some? && current.value in table && FullSlice(table[current.value])
    {
      k := FallAsleep(t, wake);
      LeaveTo(t, old(table), Dozing(old(table)[t], wake));
      assert Bare(table[t]).state == table[t].state && Bare(table[t]).wakeTime == table[t].wakeTime;
    }

    // ---- The timer tick ----

    /** The stores that charge a tick to the current thread (src/sched/scheduler.c:314-320). */
    method Count(c: Tid)
      requires c in table
      modifies this`table
      ensures table == old(table)[c := Ticked(old(table)[c])]
    {
      table := table[c := table[c].(totalTicks := table[c].totalTicks + 1)];
      table := table[c := table[c].(ticksUsed := table[c].ticksUsed + 1)];
      if table[c].timeSlice > 0 {
        table := table[c := table[c].(timeSlice := table[c].timeSlice - 1)];
      }
    }

    /** What they keep. */
    method Consume(c: Tid)
      requires Inv() && current == Some(c)
      modifies this`table
      ensures Inv() && c in old(table) && table == old(table)[c := Ticked(old(table)[c])]
    {
      CurrentLoose(table, ready, sleepQueue, sleepers, idle, current);
      assert ThreadOk(table, ready, sleepers, idle, current, c);
      ghost var tab2 := table[c := Ticked(table[c])];
      UpdateKeeps(table, tab2, heads[..], tails[..], ready, sleepQueue, sleepers, idle, current, c, blocked);
      Count(c);
    }

    /** The sample at the end of a slice (src/sched/scheduler.c:325-331). */
    method SampleSlice(c: Tid)
      requires Inv() && current == Some(c) && c != idle && c in table && Confined(table[c].control)
      modifies this`table, this`priorityBoosts, this`priorityDemotions
      ensures Inv() && Loose(c) && table[c].control.priority < PRIORITY_LEVELS
      ensures table == old(table)[c := Exhausted(old(table)[c])]
    {
      CurrentLoose(table, ready, sleepQueue, sleepers, idle, current);
      var usage := Usage(table[c].ticksUsed, table[c].control.sliceLength);
      if usage > 100 {
        usage := 100;
      }
      Settle(c, usage);
    }

    /** The end of a slice (src/sched/scheduler.c:323-338): the thread that still runs is queued. */
    method Expire(c: Tid) returns (ghost mid: Table)
      requires Inv() && current == Some(c) && c != idle && c in table && Confined(table[c].control)
      modifies this`table, this`ready, this`threadsReady, this`priorityBoosts, this`priorityDemotions,
               this`needReschedule, heads, tails
      ensures Lists() && Counted() && Queued(table, ready, c) && needReschedule
      ensures SameOutside(old(table), mid, {c}) && mid[c] == Exhausted(old(table)[c]) && Moved(mid, table, c, READY)
      ensures ready == WithTail(old(ready), mid[c].control.priority, c)
    {
      SampleSlice(c);
      mid := table;
      ghost var ready1 := ready;
      assert blocked - {c} == blocked;
      Enlist(c);
      AppendQueued(mid, table, ready1, c, c);
      needReschedule := true;
    }

    /** The first part of scheduler_tick (src/sched/scheduler.c:305-311). */
    method WakeDue(now: nat)
      requires Inv()
      modifies this`table, this`sleepQueue, this`sleepers, this`threadsSleeping, this`ready, this`threadsReady,
               this`idleTicks, heads, tails
      ensures Inv() && TickWakes(old(table), old(ready), old(sleepers), now, table, ready, sleepers)
      ensures Expires(table, current, idle) <==> Expires(old(table), current, idle)
      ensures idleTicks == old(idleTicks) + if current == Some(idle) then 1 else 0
    {
      if current == Some(idle) {
        idleTicks := idleTicks + 1;
      }
      WakeExpired(now);
      WokenKeeps(old(table), table, old(sleepers)[..Due(old(table), old(sleepers), now)], current, idle, blocked);
    }

    /** The second part (src/sched/scheduler.c:314-339). */
    method ChargeTick(c: Tid)
      requires Inv() && current == Some(c)
      modifies this`table, this`ready, this`threadsReady, this`priorityBoosts, this`priorityDemotions,
               this`needReschedule, heads, tails
      ensures Lists() && Counted()
      ensures Inv() <==> !Expires(old(table), current, idle)
      ensures TickCharges(old(table), old(ready), current, idle, table, ready)
    {
      Consume(c);
      assert ThreadOk(table, ready, sleepers, idle, current, c);
      if table[c].timeSlice == 0 && c != idle {
        ghost var mid := Expire(c);
        ExpiryDone(old(table), mid, table, c);
      }
    }

    /** A tick while the scheduler runs. */
    method TickRunning(now: nat) returns (ghost woken: Table, ghost queues: Queues)
      requires Inv() && running
      modifies this`table, this`sleepQueue, this`sleepers, this`threadsSleeping, this`ready, this`threadsReady,
               this`idleTicks, this`priorityBoosts, this`priorityDemotions, this`needReschedule, heads, tails
      ensures Lists() && Counted()
      ensures Inv() <==> !Expires(old(table), current, idle)
      ensures TickWakes(old(table), old(ready), old(sleepers), now, woken, queues, sleepers)
      ensures TickCharges(woken, queues, current, idle, table, ready)
      ensures var c := current.value;
              && c in old(table) && c in table && table[c].totalTicks == old(table)[c].totalTicks + 1
              && table[c].ticksUsed == old(table)[c].ticksUsed + 1
              && table[c].timeSlice == old(table)[c].timeSlice - if old(table)[c].timeSlice > 0 then 1 else 0
    {
      WakeDue(now);
      woken, queues := table, ready;
      ChargeTick(current.value);
      TickSpends(old(table), old(ready), old(sleepers), now, woken, queues, sleepers, current.value, idle, table,
                 ready);
    }

    /** scheduler_tick (src/sched/scheduler.c:302); woken and queues are the threads and ready queues once the due
        sleepers have been woken. The invariant survives exactly the ticks that do not exhaust a slice: one that does
        queues the thread that still runs. */
    method Tick(now: nat) returns (ghost woken: Table, ghost queues: Queues)
      requires Inv()
      modifies this`table, this`sleepQueue, this`sleepers, this`threadsSleeping, this`ready, this`threadsReady,
               this`idleTicks, this`priorityBoosts, this`priorityDemotions, this`needReschedule, heads, tails
      ensures Lists() && Counted()
      ensures !running ==> table == old(table) && ready == old(ready) && sleepers == old(sleepers)
      ensures Inv() <==> !(running && Expires(old(table), current, idle))
      ensures running ==> TickWakes(old(table), old(ready), old(sleepers), now, woken, queues, sleepers)
      ensures running ==> TickCharges(woken, queues, current, idle, table, ready)
      ensures running ==>
                var c := current.value;
                && c in old(table) && c in table && table[c].totalTicks == old(table)[c].totalTicks + 1
                && table[c].ticksUsed == old(table)[c].ticksUsed + 1
                && table[c].timeSlice == old(table)[c].timeSlice - if old(table)[c].timeSlice > 0 then 1 else 0
    {
      woken, queues := table, ready;
      if !running || current == None {
        return;
      }
      woken, queues := TickRunning(now);
    }

    // ---- Runs ----

    /** The first thread is picked and marked as running (src/sched/scheduler.c:420-425). */
    method PickFirst() returns (first: Tid)
      requires Lists() && Counted() && Placed(table, ready, sleepers, idle, None)
      modifies this`table, this`ready, this`threadsReady, heads, tails
      ensures Lists() && Counted() && Placed(table, ready, sleepers, idle, Some(first))
      ensures first == Picked(old(ready), idle) && ready == Rest(old(ready))
      ensures Moved(old(table), table, first, RUNNING)
    {
      CurrentLoose(table, ready, sleepQueue, sleepers, idle, None);
      first := PickNext();
      StartKeeps(old(table), table, heads[..], tails[..], old(heads[..]), old(tails[..]), old(ready), sleepQueue,
                 sleepers, idle, first, blocked);
      RelinkedMoved(old(table), table, first, RUNNING);
      table := table[first := table[first].(state := RUNNING)];
    }

    /** scheduler_start (src/sched/scheduler.c:412). */
    method Start()
      requires Inv() && !running && current == None
      modifies this`table, this`running, this`current, this`ready, this`threadsReady, heads, tails
      ensures Inv() && running && current == Some(Picked(old(ready), idle)) && ready == Rest(old(ready))
      ensures Moved(old(table), table, current.value, RUNNING)
    {
      running := true;
      var first := PickFirst();
      current := Some(first);
      assert Lists();
      assert Numbered();
    }

    /** thread_exit (src/sched/thread.c:137) up to the yield. */
    method Finish()
      requires Inv() && current.Some? && current != Some(idle)
      modifies this`table
      ensures Inv() && current.value in old(table)
      ensures table == old(table)[current.value := old(table)[current.value].(state := TERMINATED)]
    {
      var c := current.value;
      ExitKeeps(table, table[c := table[c].(state := TERMINATED)], heads[..], tails[..], ready, sleepQueue, sleepers,
                idle, c, blocked);
      table := table[c := table[c].(state := TERMINATED)];
    }
  }
}
