/** What the ready queues and the sleep queue of src/sched/scheduler.c hold, and what a queue operation keeps. */
module ThreadQueues {
  import opened Bytes
  import opened AdaptivePriority
  import opened ThreadLists

  const PRIORITY_NORMAL := 3
  const PRIORITY_IDLE := 6

  /** The ready threads by priority. */
  type Queues = q: seq<seq<Tid>> | |q| == 7 witness seq(7, _ => [])

  /** Queue p is a doubly linked list of ready threads with priority p. */
  ghost predicate QueueOk(tab: Table, p: nat, q: seq<Tid>, head: Link, tail: Link) {
    && Linked(tab, q, head, tail)
    && forall t :: t in q ==> t in tab && tab[t].state == READY && tab[t].control.priority == p
  }

  ghost predicate ReadyOk(tab: Table, heads: seq<Link>, tails: seq<Link>, ready: Queues) {
    && |heads| == |tails| == PRIORITY_LEVELS
    && forall p {:trigger QueueOk(tab, p, ready[p], heads[p], tails[p])} ::
         0 <= p < PRIORITY_LEVELS ==> QueueOk(tab, p, ready[p], heads[p], tails[p])
  }

  /** The sleep queue is a list of sleeping threads in the order of their wake times. */
  ghost predicate SleepOk(tab: Table, head: Link, sleepers: seq<Tid>) {
    && Chain(tab, sleepers, head) && Sorted(tab, sleepers)
    && forall t :: t in sleepers ==> t in tab && tab[t].state == SLEEPING
  }

  ghost predicate BlockedOk(tab: Table, blocked: set<Tid>) {
    forall t :: t in blocked <==> t in tab && tab[t].state == BLOCKED
  }

  /** The number of threads in the first n queues. */
  function Total(ready: Queues, n: nat): nat
    requires n <= PRIORITY_LEVELS
  {
    if n == 0 then 0 else Total(ready, n - 1) + |ready[n - 1]|
  }

  lemma {:induction false} TotalUpdate(ready: Queues, n: nat, p: nat, q: seq<Tid>)
    requires n <= PRIORITY_LEVELS && p < PRIORITY_LEVELS
    ensures Total(ready[p := q], n) == Total(ready, n) + if p < n then |q| - |ready[p]| else 0
  {
    if n > 0 {
      TotalUpdate(ready, n - 1, p, q);
    }
  }

  lemma {:induction false} TotalEmpty(ready: Queues, n: nat)
    requires n <= PRIORITY_LEVELS && forall p :: 0 <= p < PRIORITY_LEVELS ==> ready[p] == []
    ensures Total(ready, n) == 0
  {
    if n > 0 {
      TotalEmpty(ready, n - 1);
    }
  }

  /** A control block without its links. */
  function Bare(t: Tcb): Tcb {
    t.(next := None, prev := None)
  }

  /** Only links have changed, and the state of t. */
  ghost predicate Moved(tab: Table, tab2: Table, t: Tid, state: State) {
    && tab2.Keys == tab.Keys
    && forall x {:trigger Bare(tab2[x])} :: x in tab ==>
        Bare(tab2[x]) == (if x == t then Bare(tab[x]).(state := state) else Bare(tab[x]))
  }

  ghost predicate Relinked(tab: Table, tab2: Table) {
    && tab2.Keys == tab.Keys
    && forall x {:trigger Bare(tab2[x])} :: x in tab ==> Bare(tab2[x]) == Bare(tab[x])
  }

  /** t waits in the ready queue of its priority. */
  ghost predicate Queued(tab: Table, ready: Queues, t: Tid) {
    t in tab && tab[t].control.priority < PRIORITY_LEVELS && t in ready[tab[t].control.priority]
  }

  /** A thread is in at most one place of at most one queue. */
  lemma OneQueue(tab: Table, heads: seq<Link>, tails: seq<Link>, ready: Queues, head: Link, sleepers: seq<Tid>, t: Tid,
                 p: nat)
    requires ReadyOk(tab, heads, tails, ready) && SleepOk(tab, head, sleepers) && p < PRIORITY_LEVELS && t in ready[p]
    ensures t !in sleepers && Queued(tab, ready, t)
    ensures forall r :: 0 <= r < PRIORITY_LEVELS && r != p ==> t !in ready[r]
    ensures exists i :: 0 <= i < |ready[p]| && ready[p][i] == t && forall j :: 0 <= j < |ready[p]| && j != i ==>
            ready[p][j] != t
  {
    assert QueueOk(tab, p, ready[p], heads[p], tails[p]);
    var i :| 0 <= i < |ready[p]| && ready[p][i] == t;
    assert forall j :: 0 <= j < |ready[p]| && j != i ==> ready[p][j] != ready[p][i];
    forall r | 0 <= r < PRIORITY_LEVELS && r != p
      ensures t !in ready[r]
    {
      assert QueueOk(tab, r, ready[r], heads[r], tails[r]);
    }
  }

  // ---- Queues that an operation does not touch ----

  lemma QueueSame(tab: Table, tab2: Table, p: nat, q: seq<Tid>, head: Link, tail: Link, changed: set<Tid>)
    requires QueueOk(tab, p, q, head, tail) && SameOutside(tab, tab2, changed) && forall t :: t in q ==> t !in changed
    ensures QueueOk(tab2, p, q, head, tail)
  {
    LinkedSame(tab, tab2, q, head, tail, changed);
  }

  lemma SleepSame(tab: Table, tab2: Table, head: Link, sleepers: seq<Tid>, changed: set<Tid>)
    requires SleepOk(tab, head, sleepers) && SameOutside(tab, tab2, changed) && forall t :: t in sleepers ==>
             t !in changed
    ensures SleepOk(tab2, head, sleepers)
  {
    ChainSame(tab, tab2, sleepers, head, changed);
    assert forall i :: 0 <= i < |sleepers| ==> sleepers[i] in sleepers;
  }

  /** Changing threads that are in no queue changes no queue. */
  lemma ReadySame(tab: Table, tab2: Table, heads: seq<Link>, tails: seq<Link>, ready: Queues, changed: set<Tid>)
    requires ReadyOk(tab, heads, tails, ready) && SameOutside(tab, tab2, changed)
    requires forall t :: t in changed ==> !Queued(tab, ready, t)
    ensures ReadyOk(tab2, heads, tails, ready)
  {
    forall p | 0 <= p < PRIORITY_LEVELS
      ensures QueueOk(tab2, p, ready[p], heads[p], tails[p])
    {
      assert QueueOk(tab, p, ready[p], heads[p], tails[p]);
      QueueSame(tab, tab2, p, ready[p], heads[p], tails[p], changed);
    }
  }

  /** Changing members of one queue changes no other queue. */
  lemma OthersSame(tab: Table, tab2: Table, heads: seq<Link>, tails: seq<Link>, ready: Queues, p: nat, r: nat, t: Tid)
    requires ReadyOk(tab, heads, tails, ready) && p < PRIORITY_LEVELS && r < PRIORITY_LEVELS && p != r
    requires SameOutside(tab, tab2, {t} + set x | x in ready[p]) && t !in ready[r]
    ensures QueueOk(tab2, r, ready[r], heads[r], tails[r])
  {
    assert QueueOk(tab, p, ready[p], heads[p], tails[p]);
    assert QueueOk(tab, r, ready[r], heads[r], tails[r]);
    QueueSame(tab, tab2, r, ready[r], heads[r], tails[r], {t} + set x | x in ready[p]);
  }

  // ---- enqueue_ready ----

  lemma AppendMembers(tab: Table, tab2: Table, p: nat, q: seq<Tid>, tail: Link, t: Tid)
    requires IsAppended(tab, tab2, tail, t)
    requires forall x :: x in q ==> x in tab && tab[x].state == READY && tab[x].control.priority == p
    ensures tab[t].control.priority == p ==>
              forall x :: x in q + [t] ==> x in tab2 && tab2[x].state == READY && tab2[x].control.priority == p
  {
  }

  lemma AppendChanges(tab: Table, tab2: Table, p: nat, q: seq<Tid>, head: Link, tail: Link, t: Tid)
    requires QueueOk(tab, p, q, head, tail) && t !in q && IsAppended(tab, tab2, tail, t)
    ensures SameOutside(tab, tab2, {t} + set x | x in q)
    ensures tab[t].control.priority == p ==> QueueOk(tab2, p, q + [t], if tail.Some? then head else Some(t), Some(t))
  {
    AppendLinked(tab, tab2, q, head, tail, t);
    AppendMembers(tab, tab2, p, q, tail, t);
    assert tail.Some? ==> q[|q| - 1] == tail.value;
  }

  lemma AppendReady(tab: Table, tab2: Table, heads: seq<Link>, tails: seq<Link>, ready: Queues, t: Tid, p: nat)
    requires ReadyOk(tab, heads, tails, ready) && t in tab && p == tab[t].control.priority < PRIORITY_LEVELS
    requires t !in ready[p] && IsAppended(tab, tab2, tails[p], t)
    ensures ReadyOk(tab2, heads[p := if tails[p].Some? then heads[p] else Some(t)], tails[p := Some(t)],
                    ready[p := ready[p] + [t]])
  {
    assert QueueOk(tab, p, ready[p], heads[p], tails[p]);
    AppendChanges(tab, tab2, p, ready[p], heads[p], tails[p], t);
    forall r | 0 <= r < PRIORITY_LEVELS && r != p
      ensures QueueOk(tab2, r, ready[r], heads[r], tails[r])
    {
      assert QueueOk(tab, r, ready[r], heads[r], tails[r]);
      OthersSame(tab, tab2, heads, tails, ready, p, r, t);
    }
  }

  lemma AppendSleep(tab: Table, tab2: Table, p: nat, q: seq<Tid>, head: Link, tail: Link, t: Tid, sleep: Link,
                    sleepers: seq<Tid>)
    requires QueueOk(tab, p, q, head, tail) && t !in q && IsAppended(tab, tab2, tail, t)
    requires SleepOk(tab, sleep, sleepers) && t !in sleepers
    ensures SleepOk(tab2, sleep, sleepers)
  {
    AppendChanges(tab, tab2, p, q, head, tail, t);
    SleepSame(tab, tab2, sleep, sleepers, {t} + set x | x in q);
  }

  /** What enqueue_ready does to the lists. */
  lemma HungLists(tab: Table, heads: seq<Link>, tails: seq<Link>, ready: Queues, head: Link, sleepers: seq<Tid>, t: Tid,
                  p: nat)
    requires ReadyOk(tab, heads, tails, ready) && SleepOk(tab, head, sleepers)
    requires t in tab && p == tab[t].control.priority < PRIORITY_LEVELS && !Queued(tab, ready, t) && t !in sleepers
    ensures tails[p].Some? ==> tails[p].value in tab && tails[p].value != t
    ensures var tab2 := Hung(tab, tails[p], t);
            && Moved(tab, tab2, t, READY)
            && ReadyOk(tab2, heads[p := if tails[p].Some? then heads[p] else Some(t)], tails[p := Some(t)],
                       ready[p := ready[p] + [t]])
            && SleepOk(tab2, head, sleepers)
  {
    assert QueueOk(tab, p, ready[p], heads[p], tails[p]);
    assert tails[p].Some? ==> tails[p].value in ready[p];
    var tab2 := Hung(tab, tails[p], t);
    HungIs(tab, tails[p], t);
    AppendReady(tab, tab2, heads, tails, ready, t, p);
    AppendSleep(tab, tab2, p, ready[p], heads[p], tails[p], t, head, sleepers);
  }

  // ---- dequeue_ready, remove_from_ready ----

  lemma UnlinkOutside(tab: Table, tab2: Table, q: seq<Tid>, head: Link, tail: Link, k: nat)
    requires Linked(tab, q, head, tail) && k < |q| && IsUnlinked(tab, tab2, q[k])
    ensures SameOutside(tab, tab2, {q[k]} + set x | x in q)
  {
    assert q[k] in q;
    assert k > 0 ==> q[k - 1] in q;
    assert k + 1 < |q| ==> q[k + 1] in q;
  }

  lemma UnlinkChanges(tab: Table, tab2: Table, p: nat, q: seq<Tid>, head: Link, tail: Link, k: nat)
    requires QueueOk(tab, p, q, head, tail) && k < |q| && IsUnlinked(tab, tab2, q[k])
    ensures SameOutside(tab, tab2, {q[k]} + set x | x in q)
    ensures QueueOk(tab2, p, Without(q, k), if tab[q[k]].prev.Some? then head else tab[q[k]].next,
                    if tab[q[k]].next.Some? then tail else tab[q[k]].prev)
  {
    UnlinkLinked(tab, tab2, q, head, tail, k);
    UnlinkOutside(tab, tab2, q, head, tail, k);
    forall x | x in Without(q, k)
      ensures x in tab2 && tab2[x].state == READY && tab2[x].control.priority == p
    {
      var i :| 0 <= i < |q| - 1 && Without(q, k)[i] == x;
      assert x in q;
    }
  }

  lemma UnlinkReady(tab: Table, tab2: Table, heads: seq<Link>, tails: seq<Link>, ready: Queues, p: nat, k: nat)
    requires ReadyOk(tab, heads, tails, ready) && p < PRIORITY_LEVELS && k < |ready[p]| &&
             IsUnlinked(tab, tab2, ready[p][k])
    ensures var t := ready[p][k];
            && t in tab
            && ReadyOk(tab2, heads[p := if tab[t].prev.Some? then heads[p] else tab[t].next],
                       tails[p := if tab[t].next.Some? then tails[p] else tab[t].prev],
                       ready[p := Without(ready[p], k)])
  {
    assert QueueOk(tab, p, ready[p], heads[p], tails[p]);
    UnlinkChanges(tab, tab2, p, ready[p], heads[p], tails[p], k);
    assert ready[p][k] in ready[p];
    forall r | 0 <= r < PRIORITY_LEVELS && r != p
      ensures QueueOk(tab2, r, ready[r], heads[r], tails[r])
    {
      assert QueueOk(tab, r, ready[r], heads[r], tails[r]);
      OthersSame(tab, tab2, heads, tails, ready, p, r, ready[p][k]);
    }
  }

  lemma UnlinkSleep(tab: Table, tab2: Table, p: nat, q: seq<Tid>, head: Link, tail: Link, k: nat, sleep: Link,
                    sleepers: seq<Tid>)
    requires QueueOk(tab, p, q, head, tail) && k < |q| && IsUnlinked(tab, tab2, q[k])
    requires SleepOk(tab, sleep, sleepers)
    ensures SleepOk(tab2, sleep, sleepers)
  {
    UnlinkChanges(tab, tab2, p, q, head, tail, k);
    assert q[k] in q;
    SleepSame(tab, tab2, sleep, sleepers, {q[k]} + set x | x in q);
  }

  /** Where the links of the k-th thread of a queue lead. */
  lemma Neighbours(tab: Table, p: nat, q: seq<Tid>, head: Link, tail: Link, k: nat)
    requires QueueOk(tab, p, q, head, tail) && k < |q|
    ensures q[k] in q && q[k] in tab && tab[q[k]].prev == Prev(q, k) && tab[q[k]].next == Next(q, k)
    ensures k > 0 ==> q[k - 1] in q && q[k - 1] in tab && q[k - 1] != q[k]
    ensures k + 1 < |q| ==> q[k + 1] in q && q[k + 1] in tab && q[k + 1] != q[k]
    ensures 0 < k && k + 1 < |q| ==> q[k - 1] != q[k + 1]
  {
  }

  /** What taking the k-th thread out of queue p does to the lists. */
  lemma CutLists(tab: Table, heads: seq<Link>, tails: seq<Link>, ready: Queues, head: Link, sleepers: seq<Tid>, p: nat,
                 k: nat)
    requires ReadyOk(tab, heads, tails, ready) && SleepOk(tab, head, sleepers)
    requires p < PRIORITY_LEVELS && k < |ready[p]|
    ensures var t := ready[p][k];
            && t in tab && tab[t].control.priority == p && tab[t].state == READY && t !in sleepers
            && (tab[t].prev.Some? ==> tab[t].prev.value in tab && tab[t].prev.value != t)
            && (tab[t].next.Some? ==> tab[t].next.value in tab && tab[t].next.value != t)
            && tab[t].prev == Prev(ready[p], k)
            && Relinked(tab, Cut(tab, t))
            && ReadyOk(Cut(tab, t), heads[p := if tab[t].prev.Some? then heads[p] else tab[t].next],
                       tails[p := if tab[t].next.Some? then tails[p] else tab[t].prev],
                       ready[p := Without(ready[p], k)])
            && SleepOk(Cut(tab, t), head, sleepers)
            && !Queued(Cut(tab, t), ready[p := Without(ready[p], k)], t)
  {
    var t := ready[p][k];
    assert QueueOk(tab, p, ready[p], heads[p], tails[p]);
    Neighbours(tab, p, ready[p], heads[p], tails[p], k);
    CutIs(tab, t);
    UnlinkReady(tab, Cut(tab, t), heads, tails, ready, p, k);
    UnlinkSleep(tab, Cut(tab, t), p, ready[p], heads[p], tails[p], k, head, sleepers);
    UnlinkLinked(tab, Cut(tab, t), ready[p], heads[p], tails[p], k);
  }

  // ---- enqueue_sleep ----

  lemma SpliceSleep(tab: Table, tab2: Table, head: Link, sleepers: seq<Tid>, k: nat, t: Tid)
    requires SleepOk(tab, head, sleepers) && t in tab && t !in sleepers
    requires Belongs(tab, sleepers, tab[t].wakeTime, k) && IsSpliced(tab, tab2, sleepers, k, t)
    ensures SleepOk(tab2, if k == 0 then Some(t) else head, Inserted(sleepers, k, t))
    ensures SameOutside(tab, tab2, {t} + set x | x in sleepers)
  {
    SpliceChain(tab, tab2, sleepers, head, k, t);
    InsertSorted(tab, tab2, sleepers, k, t);
    assert k > 0 ==> sleepers[k - 1] in sleepers;
    var all := Inserted(sleepers, k, t);
    forall x | x in all
      ensures x in tab2 && tab2[x].state == SLEEPING
    {
      var i :| 0 <= i < |all| && all[i] == x;
      assert i != k ==> x in sleepers;
    }
  }

  lemma SpliceReady(tab: Table, tab2: Table, heads: seq<Link>, tails: seq<Link>, ready: Queues, head: Link,
                    sleepers: seq<Tid>, k: nat, t: Tid)
    requires ReadyOk(tab, heads, tails, ready) && SleepOk(tab, head, sleepers) && t in tab && t !in sleepers
    requires Belongs(tab, sleepers, tab[t].wakeTime, k) && IsSpliced(tab, tab2, sleepers, k, t) &&
             !Queued(tab, ready, t)
    ensures ReadyOk(tab2, heads, tails, ready)
  {
    SpliceSleep(tab, tab2, head, sleepers, k, t);
    forall x | x in ({t} + set x | x in sleepers)
      ensures !Queued(tab, ready, x)
    {
      var p := tab[x].control.priority;
      assert p < PRIORITY_LEVELS ==> QueueOk(tab, p, ready[p], heads[p], tails[p]);
    }
    ReadySame(tab, tab2, heads, tails, ready, {t} + set x | x in sleepers);
  }

  /** What enqueue_sleep does to the lists. */
  lemma SpliceLists(tab: Table, tab2: Table, heads: seq<Link>, tails: seq<Link>, ready: Queues, head: Link,
                    sleepers: seq<Tid>, k: nat, t: Tid)
    requires ReadyOk(tab, heads, tails, ready) && SleepOk(tab, head, sleepers) && t in tab && t !in sleepers
    requires Belongs(tab, sleepers, tab[t].wakeTime, k) && IsSpliced(tab, tab2, sleepers, k, t) &&
             !Queued(tab, ready, t)
    ensures ReadyOk(tab2, heads, tails, ready) && Moved(tab, tab2, t, SLEEPING)
    ensures SleepOk(tab2, if k == 0 then Some(t) else head, Inserted(sleepers, k, t))
  {
    SpliceReady(tab, tab2, heads, tails, ready, head, sleepers, k, t);
    SpliceSleep(tab, tab2, head, sleepers, k, t);
  }

  // ---- wake_expired_sleepers ----

  /** Behind the first sleeper lies a sleep queue without it. */
  lemma SleepRest(tab: Table, head: Link, sleepers: seq<Tid>)
    requires SleepOk(tab, head, sleepers) && sleepers != [] && sleepers[0] in tab
    ensures SleepOk(tab, tab[sleepers[0]].next, sleepers[1..]) && sleepers[0] !in sleepers[1..]
  {
    var rest := sleepers[1..];
    forall i | 0 <= i < |rest|
      ensures rest[i] == sleepers[i + 1] && rest[i] != sleepers[0] && rest[i] in sleepers
      ensures Next(rest, i) == Next(sleepers, i + 1)
    {
    }
  }

  /** Taking the first sleeper off its queue. */
  lemma PopSleeper(tab: Table, heads: seq<Link>, tails: seq<Link>, ready: Queues, head: Link, sleepers: seq<Tid>)
    requires ReadyOk(tab, heads, tails, ready) && SleepOk(tab, head, sleepers) && sleepers != []
    ensures head.Some? && head.value in tab && head.value == sleepers[0] && tab[head.value].state == SLEEPING
    ensures var t := head.value; var tab2 := tab[t := tab[t].(next := None)];
            && ReadyOk(tab2, heads, tails, ready)
            && SleepOk(tab2, tab[t].next, sleepers[1..])
            && t !in sleepers[1..] && !Queued(tab2, ready, t)
  {
    var t, rest := sleepers[0], sleepers[1..];
    assert t in sleepers;
    var p := tab[t].control.priority;
    assert p < PRIORITY_LEVELS ==> QueueOk(tab, p, ready[p], heads[p], tails[p]);
    ReadySame(tab, tab[t := tab[t].(next := None)], heads, tails, ready, {t});
    SleepRest(tab, head, sleepers);
    SleepSame(tab, tab[t := tab[t].(next := None)], tab[t].next, rest, {t});
  }

  // ---- Dispatch ----

  /** The first non-empty level from p on, or PRIORITY_LEVELS. */
  function LevelFrom(ready: Queues, p: nat): (r: nat)
    requires p <= PRIORITY_LEVELS
    ensures p <= r <= PRIORITY_LEVELS
    ensures forall i :: p <= i < r ==> ready[i] == []
    ensures r < PRIORITY_LEVELS ==> ready[r] != []
    decreases PRIORITY_LEVELS - p
  {
    if p == PRIORITY_LEVELS || ready[p] != [] then p else LevelFrom(ready, p + 1)
  }

  function Level(ready: Queues): nat {
    LevelFrom(ready, 0)
  }

  /** The longest-waiting thread of the most urgent non-empty level, or else the idle thread. */
  function Picked(ready: Queues, idle: Tid): Tid {
    if Level(ready) < PRIORITY_LEVELS then ready[Level(ready)][0] else idle
  }

  /** What is left in the queues once it is picked. */
  function Rest(ready: Queues): Queues {
    if Level(ready) < PRIORITY_LEVELS then ready[Level(ready) := ready[Level(ready)][1..]] else ready
  }

  // ---- Where every thread is ----

  /** The thread is where its state says: ready threads other than the idle and the current thread are queued, sleeping
      threads are in the sleep queue, and only the current thread runs. */
  ghost predicate ThreadOk(tab: Table, ready: Queues, sleepers: seq<Tid>, idle: Tid, current: Link, t: Tid)
    requires t in tab
  {
    && Confined(tab[t].control)
    && (tab[t].state == READY && t != idle && current != Some(t) ==> Queued(tab, ready, t))
    && (tab[t].state == RUNNING ==> current == Some(t))
    && (tab[t].state == SLEEPING ==> t in sleepers)
  }

  ghost predicate CurrentOk(tab: Table, ready: Queues, current: Link) {
    current.Some? ==>
      var c := current.value;
      && c in tab && !Queued(tab, ready, c)
      && tab[c].state in {READY, RUNNING, TERMINATED}
  }

  ghost predicate IdleOk(tab: Table, ready: Queues, idle: Tid) {
    && idle in tab && !Queued(tab, ready, idle) && tab[idle].state in {READY, RUNNING}
    && tab[idle].control.base == PRIORITY_IDLE
  }

  /** No thread is lost: each is in the place that belongs to its state, and neither the current nor the idle thread is
      queued. */
  ghost predicate Placed(tab: Table, ready: Queues, sleepers: seq<Tid>, idle: Tid, current: Link) {
    && IdleOk(tab, ready, idle) && CurrentOk(tab, ready, current)
    && forall t {:trigger ThreadOk(tab, ready, sleepers, idle, current, t)} ::
         t in tab ==> ThreadOk(tab, ready, sleepers, idle, current, t)
  }

  // ---- How moving one thread keeps the others in place ----

  /** Appending t to its queue queues t and nothing else. */
  lemma AppendQueued(tab: Table, tab2: Table, ready: Queues, t: Tid, x: Tid)
    requires t in tab && tab[t].control.priority < PRIORITY_LEVELS && Moved(tab, tab2, t, READY) && x in tab
    ensures var p := tab[t].control.priority;
            Queued(tab2, ready[p := ready[p] + [t]], x) <==> x == t || Queued(tab, ready, x)
  {
    assert Bare(tab2[x]).control == Bare(tab[x]).control;
  }

  lemma PlacedAppend(tab: Table, tab2: Table, ready: Queues, sleepers: seq<Tid>, sleepers2: seq<Tid>, idle: Tid,
                     current: Link, t: Tid)
    requires Placed(tab, ready, sleepers, idle, current) && t in tab && t != idle && Moved(tab, tab2, t, READY)
    requires tab[t].control.priority < PRIORITY_LEVELS
    requires forall x :: x in sleepers && x != t ==> x in sleepers2
    ensures var p := tab[t].control.priority;
            Placed(tab2, ready[p := ready[p] + [t]], sleepers2, idle, if current == Some(t) then None else current)
  {
    forall x | x in tab
      ensures var p := tab[t].control.priority;
              Queued(tab2, ready[p := ready[p] + [t]], x) <==> x == t || Queued(tab, ready, x)
    {
      AppendQueued(tab, tab2, ready, t, x);
    }
    forall x | x in tab
      ensures tab2[x].control == tab[x].control && tab2[x].state == if x == t then READY else tab[x].state
    {
      assert Bare(tab2[x]).control == Bare(tab[x]).control;
      assert Bare(tab2[x]).state == tab2[x].state;
    }
    assert forall x :: x in tab ==> ThreadOk(tab, ready, sleepers, idle, current, x);
  }

  /** Changing an unqueued thread while it keeps its state keeps everything in place. */
  lemma PlacedUpdate(tab: Table, tab2: Table, heads: seq<Link>, tails: seq<Link>, ready: Queues, sleepers: seq<Tid>,
                     idle: Tid, current: Link, t: Tid)
    requires Placed(tab, ready, sleepers, idle, current) && ReadyOk(tab, heads, tails, ready)
    requires t in tab && !Queued(tab, ready, t) && SameOutside(tab, tab2, {t})
    requires tab2[t].state == tab[t].state && Confined(tab2[t].control) && tab2[t].control.base == tab[t].control.base
    ensures Placed(tab2, ready, sleepers, idle, current) && !Queued(tab2, ready, t)
  {
    var p := tab2[t].control.priority;
    assert !Queued(tab2, ready, t) by {
      assert p < PRIORITY_LEVELS ==> QueueOk(tab, p, ready[p], heads[p], tails[p]);
    }
    forall x | x in tab
      ensures ThreadOk(tab2, ready, sleepers, idle, current, x)
    {
      assert ThreadOk(tab, ready, sleepers, idle, current, x);
    }
  }

  /** An unqueued thread that starts to sleep, to block or that ends leaves everything in place. */
  lemma PlacedLeave(tab: Table, tab2: Table, ready: Queues, sleepers: seq<Tid>, sleepers2: seq<Tid>, idle: Tid,
                    current: Link, t: Tid, state: State)
    requires Placed(tab, ready, sleepers, idle, current) && t in tab && t != idle && !Queued(tab, ready, t)
    requires Moved(tab, tab2, t, state) && state in {SLEEPING, BLOCKED, TERMINATED}
    requires (forall x :: x in sleepers ==> x in sleepers2) && (state == SLEEPING ==> t in sleepers2)
    ensures Placed(tab2, ready, sleepers2, idle, if current == Some(t) then None else current)
  {
    forall x | x in tab
      ensures tab2[x].control == tab[x].control && tab2[x].state == if x == t then state else tab[x].state
    {
      assert Bare(tab2[x]).control == Bare(tab[x]).control;
      assert Bare(tab2[x]).state == tab2[x].state;
    }
    assert forall x :: x in tab ==> (Queued(tab2, ready, x) <==> Queued(tab, ready, x));
    assert forall x :: x in tab ==> ThreadOk(tab, ready, sleepers, idle, current, x);
  }

  /** The control block of a thread that gets the processor (src/sched/scheduler.c:209-219). */
  function Started(t: Tcb): Tcb {
    t.(state := RUNNING, timeSlice := t.control.sliceLength, ticksUsed := 0)
  }

  /** The thread has just got the processor: its whole slice, in ticks, is before it. */
  predicate FullSlice(t: Tcb) {
    t.state == RUNNING && t.ticksUsed == 0 && t.timeSlice == 10 + (7 - t.control.priority) * 3
  }

  /** Only links have changed, and n has been started if it was not running on. */
  ghost predicate Switched(tab: Table, tab2: Table, n: Tid, started: bool) {
    && tab2.Keys == tab.Keys
    && forall x {:trigger Bare(tab2[x])} :: x in tab ==>
        Bare(tab2[x]) == (if x == n && started then Bare(Started(tab[x])) else Bare(tab[x]))
  }

  lemma StartLists(tab: Table, heads: seq<Link>, tails: seq<Link>, ready: Queues, head: Link, sleepers: seq<Tid>,
                   n: Tid)
    requires ReadyOk(tab, heads, tails, ready) && SleepOk(tab, head, sleepers)
    requires n in tab && !Queued(tab, ready, n) && n !in sleepers
    ensures ReadyOk(tab[n := Started(tab[n])], heads, tails, ready) &&
            SleepOk(tab[n := Started(tab[n])], head, sleepers)
  {
    ReadySame(tab, tab[n := Started(tab[n])], heads, tails, ready, {n});
    SleepSame(tab, tab[n := Started(tab[n])], head, sleepers, {n});
  }

  lemma SwitchedDispatched(tab: Table, tab2: Table, n: Tid, started: bool)
    requires Switched(tab, tab2, n, started) && n in tab
    ensures Dispatched(tab, tab2, n, if started then RUNNING else tab[n].state)
  {
    forall x | x in tab
      ensures tab2[x].control == tab[x].control && tab2[x].state == if x == n && started then RUNNING else tab[x].state
    {
      assert Bare(tab2[x]).control == tab2[x].control && Bare(tab2[x]).state == tab2[x].state;
    }
  }

  lemma SwitchBlocked(tab: Table, tab2: Table, n: Tid, started: bool, blocked: set<Tid>)
    requires BlockedOk(tab, blocked) && Switched(tab, tab2, n, started) && n in tab && tab[n].state != BLOCKED
    ensures BlockedOk(tab2, blocked)
  {
    SwitchedDispatched(tab, tab2, n, started);
  }

  lemma MoveBlocked(tab: Table, tab2: Table, t: Tid, state: State, blocked: set<Tid>, blocked2: set<Tid>)
    requires BlockedOk(tab, blocked) && Moved(tab, tab2, t, state) && t in tab
    requires blocked2 == if state == BLOCKED then blocked + {t} else blocked - {t}
    ensures BlockedOk(tab2, blocked2)
  {
    forall x | x in tab
      ensures tab2[x].state == if x == t then state else tab[x].state
    {
      assert Bare(tab2[x]).state == tab2[x].state;
    }
  }

  /** Dispatching the picked thread, which is queued no more, fills the place of the current thread. */
  lemma PlacedDispatch(tab: Table, tab2: Table, heads: seq<Link>, tails: seq<Link>, ready: Queues, sleepers: seq<Tid>,
                       idle: Tid, n: Tid, state: State)
    requires Placed(tab, ready, sleepers, idle, None) && ReadyOk(tab, heads, tails, ready) && n == Picked(ready, idle)
    requires n in tab && Dispatched(tab, tab2, n, state) && state in {RUNNING, tab[n].state}
    ensures Placed(tab2, Rest(ready), sleepers, idle, Some(n))
  {
    forall x | x in tab
      ensures ThreadOk(tab2, Rest(ready), sleepers, idle, Some(n), x)
    {
      PickedQueued(tab, tab2, heads, tails, ready, idle, n, state, x);
      assert ThreadOk(tab, ready, sleepers, idle, None, x);
    }
    PickedQueued(tab, tab2, heads, tails, ready, idle, n, state, n);
    PickedQueued(tab, tab2, heads, tails, ready, idle, n, state, idle);
  }

  /** Nothing has changed in the other threads but links; t has the given state and its old scheduling fields. */
  ghost predicate Dispatched(tab: Table, tab2: Table, t: Tid, state: State) {
    && tab2.Keys == tab.Keys
    && (forall x :: x in tab && x != t ==> Bare(tab2[x]) == Bare(tab[x]))
    && (forall x :: x in tab ==> tab2[x].control == tab[x].control)
    && (forall x :: x in tab ==> tab2[x].state == if x == t then state else tab[x].state)
  }

  lemma PickedQueued(tab: Table, tab2: Table, heads: seq<Link>, tails: seq<Link>, ready: Queues, idle: Tid, n: Tid,
                     state: State, x: Tid)
    requires ReadyOk(tab, heads, tails, ready) && n == Picked(ready, idle) && !Queued(tab, ready, idle)
    requires n in tab && Dispatched(tab, tab2, n, state) && x in tab
    ensures Queued(tab2, Rest(ready), x) <==> x != n && Queued(tab, ready, x)
    ensures n != idle ==> tab[n].state == READY
  {
    var p := Level(ready);
    if p < PRIORITY_LEVELS {
      var q := ready[p];
      assert QueueOk(tab, p, q, heads[p], tails[p]);
      assert q[0] in q;
      RestOf(q, x);
    }
  }

  lemma RestOf(q: seq<Tid>, x: Tid)
    requires q != [] && NoRepeats(q)
    ensures x in q[1..] <==> x in q && x != q[0]
  {
    if x in q {
      var i :| 0 <= i < |q| && q[i] == x;
      if i > 0 {
        assert q[1..][i - 1] == x;
      }
    }
  }

  /** What a dispatch keeps. */
  lemma DispatchKeeps(tab: Table, tab2: Table, heads: seq<Link>, tails: seq<Link>, ready: Queues, sleepers: seq<Tid>,
                      idle: Tid, n: Tid, started: bool, blocked: set<Tid>)
    requires Placed(tab, ready, sleepers, idle, None) && ReadyOk(tab, heads, tails, ready) && n == Picked(ready, idle)
    requires n in tab && Switched(tab, tab2, n, started) && BlockedOk(tab, blocked)
    ensures Placed(tab2, Rest(ready), sleepers, idle, Some(n)) && BlockedOk(tab2, blocked)
  {
    var state := if started then RUNNING else tab[n].state;
    SwitchedDispatched(tab, tab2, n, started);
    PickedQueued(tab, tab2, heads, tails, ready, idle, n, state, n);
    PlacedDispatch(tab, tab2, heads, tails, ready, sleepers, idle, n, state);
    SwitchBlocked(tab, tab2, n, started, blocked);
  }

  /** The current thread is not in any list. */
  lemma CurrentLoose(tab: Table, ready: Queues, head: Link, sleepers: seq<Tid>, idle: Tid, current: Link)
    requires Placed(tab, ready, sleepers, idle, current) && SleepOk(tab, head, sleepers)
    ensures idle !in sleepers && (current.Some? ==> current.value in tab && current.value !in sleepers)
  {
  }

  /** Changing a thread outside the lists, but not its state, keeps the lists and everything in place. */
  lemma UpdateKeeps(tab: Table, tab2: Table, heads: seq<Link>, tails: seq<Link>, ready: Queues, head: Link,
                    sleepers: seq<Tid>, idle: Tid, current: Link, t: Tid, blocked: set<Tid>)
    requires Placed(tab, ready, sleepers, idle, current) && ReadyOk(tab, heads, tails, ready) &&
             SleepOk(tab, head, sleepers)
    requires t in tab && !Queued(tab, ready, t) && t !in sleepers && BlockedOk(tab, blocked) &&
             SameOutside(tab, tab2, {t})
    requires tab2[t].state == tab[t].state && Confined(tab2[t].control) && tab2[t].control.base == tab[t].control.base
    ensures Placed(tab2, ready, sleepers, idle, current) && !Queued(tab2, ready, t)
    ensures ReadyOk(tab2, heads, tails, ready) && SleepOk(tab2, head, sleepers)
    ensures BlockedOk(tab2, blocked)
  {
    PlacedUpdate(tab, tab2, heads, tails, ready, sleepers, idle, current, t);
    ReadySame(tab, tab2, heads, tails, ready, {t});
    SleepSame(tab, tab2, head, sleepers, {t});
    assert forall x :: x in tab ==> tab2[x].state == tab[x].state;
  }

  /** What enqueuing a thread keeps. */
  lemma AppendKeeps(tab: Table, tab2: Table, ready: Queues, sleepers: seq<Tid>, idle: Tid, current: Link, t: Tid,
                    blocked: set<Tid>)
    requires Placed(tab, ready, sleepers, idle, current) && t in tab && t != idle && Moved(tab, tab2, t, READY)
    requires tab[t].control.priority < PRIORITY_LEVELS && BlockedOk(tab, blocked)
    ensures var p := tab[t].control.priority;
            Placed(tab2, ready[p := ready[p] + [t]], sleepers, idle, if current == Some(t) then None else current)
    ensures BlockedOk(tab2, blocked - {t})
  {
    PlacedAppend(tab, tab2, ready, sleepers, sleepers, idle, current, t);
    MoveBlocked(tab, tab2, t, READY, blocked, blocked - {t});
  }

  /** What taking an unqueued thread out of service keeps. */
  lemma LeaveKeeps(tab: Table, tab2: Table, ready: Queues, sleepers: seq<Tid>, sleepers2: seq<Tid>, idle: Tid,
                   current: Link, t: Tid, state: State, blocked: set<Tid>)
    requires Placed(tab, ready, sleepers, idle, current) && t in tab && t != idle && !Queued(tab, ready, t)
    requires Moved(tab, tab2, t, state) && state in {SLEEPING, BLOCKED} && BlockedOk(tab, blocked)
    requires (forall x :: x in sleepers ==> x in sleepers2) && (state == SLEEPING ==> t in sleepers2)
    ensures Placed(tab2, ready, sleepers2, idle, if current == Some(t) then None else current)
    ensures BlockedOk(tab2, if state == BLOCKED then blocked + {t} else blocked - {t})
  {
    PlacedLeave(tab, tab2, ready, sleepers, sleepers2, idle, current, t, state);
    MoveBlocked(tab, tab2, t, state, blocked, if state == BLOCKED then blocked + {t} else blocked - {t});
  }

  /** Changing only the state of a thread outside the lists keeps the lists. */
  lemma StateLists(tab: Table, tab2: Table, heads: seq<Link>, tails: seq<Link>, ready: Queues, head: Link,
                   sleepers: seq<Tid>, t: Tid, state: State)
    requires ReadyOk(tab, heads, tails, ready) && SleepOk(tab, head, sleepers)
    requires t in tab && !Queued(tab, ready, t) && t !in sleepers && tab2 == tab[t := tab[t].(state := state)]
    ensures ReadyOk(tab2, heads, tails, ready) && SleepOk(tab2, head, sleepers) && Moved(tab, tab2, t, state)
    ensures !Queued(tab2, ready, t)
  {
    ReadySame(tab, tab2, heads, tails, ready, {t});
    SleepSame(tab, tab2, head, sleepers, {t});
  }

  /** A blocked thread is in no queue, and is neither the idle nor the current thread. */
  lemma BlockedLoose(tab: Table, heads: seq<Link>, tails: seq<Link>, ready: Queues, head: Link, sleepers: seq<Tid>,
                     idle: Tid, current: Link, t: Tid)
    requires Placed(tab, ready, sleepers, idle, current) && ReadyOk(tab, heads, tails, ready) &&
             SleepOk(tab, head, sleepers)
    requires t in tab && tab[t].state == BLOCKED
    ensures t != idle && current != Some(t) && t !in sleepers && !Queued(tab, ready, t)
  {
    var p := tab[t].control.priority;
    assert p < PRIORITY_LEVELS ==> QueueOk(tab, p, ready[p], heads[p], tails[p]);
  }

  lemma InsertedMembers(q: seq<Tid>, k: nat, t: Tid)
    requires k <= |q|
    ensures t in Inserted(q, k, t) && forall x :: x in q ==> x in Inserted(q, k, t)
  {
    assert Inserted(q, k, t)[k] == t;
    forall x | x in q
      ensures x in Inserted(q, k, t)
    {
      var i :| 0 <= i < |q| && q[i] == x;
      assert Inserted(q, k, t)[if i < k then i else i + 1] == x;
    }
  }

  /** A thread that ends while it runs keeps the lists and everything in place. */
  lemma ExitKeeps(tab: Table, tab2: Table, heads: seq<Link>, tails: seq<Link>, ready: Queues, head: Link,
                  sleepers: seq<Tid>, idle: Tid, c: Tid, blocked: set<Tid>)
    requires Placed(tab, ready, sleepers, idle, Some(c)) && ReadyOk(tab, heads, tails, ready) &&
             SleepOk(tab, head, sleepers)
    requires c in tab && c != idle && tab2 == tab[c := tab[c].(state := TERMINATED)] && BlockedOk(tab, blocked)
    ensures Placed(tab2, ready, sleepers, idle, Some(c)) && BlockedOk(tab2, blocked)
    ensures ReadyOk(tab2, heads, tails, ready) && SleepOk(tab2, head, sleepers)
  {
    StateLists(tab, tab2, heads, tails, ready, head, sleepers, c, TERMINATED);
    forall x | x in tab
      ensures ThreadOk(tab2, ready, sleepers, idle, Some(c), x)
    {
      assert ThreadOk(tab, ready, sleepers, idle, Some(c), x);
    }
  }

  /** A new thread joins the table outside the queues. */
  lemma CreateLists(tab: Table, tab2: Table, heads: seq<Link>, tails: seq<Link>, ready: Queues, head: Link,
                    sleepers: seq<Tid>, t: Tid)
    requires ReadyOk(tab, heads, tails, ready) && SleepOk(tab, head, sleepers)
    requires t !in tab && tab2.Keys == tab.Keys + {t} && forall x :: x in tab ==> tab2[x] == tab[x]
    ensures ReadyOk(tab2, heads, tails, ready) && SleepOk(tab2, head, sleepers)
    ensures forall p :: 0 <= p < PRIORITY_LEVELS ==> t !in ready[p]
  {
    forall p | 0 <= p < PRIORITY_LEVELS
      ensures QueueOk(tab2, p, ready[p], heads[p], tails[p]) && t !in ready[p]
    {
      assert QueueOk(tab, p, ready[p], heads[p], tails[p]);
      assert forall x :: x in ready[p] ==> tab2[x] == tab[x];
    }
    assert forall x :: x in sleepers ==> tab2[x] == tab[x];
  }

  lemma CreatePlaced(tab: Table, tab2: Table, ready: Queues, sleepers: seq<Tid>, idle: Tid, current: Link, t: Tid,
                     blocked: set<Tid>)
    requires Placed(tab, ready, sleepers, idle, current) && BlockedOk(tab, blocked)
    requires t !in tab && tab2.Keys == tab.Keys + {t} && forall x :: x in tab ==> tab2[x] == tab[x]
    requires tab2[t].state == CREATED && Confined(tab2[t].control) && forall p :: 0 <= p < PRIORITY_LEVELS ==>
             t !in ready[p]
    ensures Placed(tab2, ready, sleepers, idle, current) && BlockedOk(tab2, blocked)
  {
    forall x | x in tab2
      ensures ThreadOk(tab2, ready, sleepers, idle, current, x)
    {
      if x != t {
        assert ThreadOk(tab, ready, sleepers, idle, current, x);
      }
    }
  }

  /** A created thread that has not been added, or one that has ended, is in no queue and is not the idle thread. */
  lemma CreatedLoose(tab: Table, heads: seq<Link>, tails: seq<Link>, ready: Queues, head: Link, sleepers: seq<Tid>,
                     idle: Tid, current: Link, t: Tid)
    requires Placed(tab, ready, sleepers, idle, current) && ReadyOk(tab, heads, tails, ready) &&
             SleepOk(tab, head, sleepers)
    requires t in tab && tab[t].state in {CREATED, TERMINATED}
    ensures t != idle && (tab[t].state == CREATED ==> current != Some(t)) && t !in sleepers && !Queued(tab, ready, t)
  {
    var p := tab[t].control.priority;
    assert p < PRIORITY_LEVELS ==> QueueOk(tab, p, ready[p], heads[p], tails[p]);
  }

  /** Starting the scheduler with the thread it has picked. */
  lemma StartKeeps(tab: Table, tab1: Table, heads: seq<Link>, tails: seq<Link>, heads0: seq<Link>, tails0: seq<Link>,
                   ready: Queues, head: Link, sleepers: seq<Tid>, idle: Tid, n: Tid, blocked: set<Tid>)
    requires Placed(tab, ready, sleepers, idle, None) && ReadyOk(tab, heads0, tails0, ready) && BlockedOk(tab, blocked)
    requires Relinked(tab, tab1) && ReadyOk(tab1, heads, tails, Rest(ready)) && SleepOk(tab1, head, sleepers)
    requires n in tab && n == Picked(ready, idle) && n !in sleepers
    ensures var tab2 := tab1[n := tab1[n].(state := RUNNING)];
            && Placed(tab2, Rest(ready), sleepers, idle, Some(n)) && BlockedOk(tab2, blocked)
            && ReadyOk(tab2, heads, tails, Rest(ready)) && SleepOk(tab2, head, sleepers)
  {
    var tab2 := tab1[n := tab1[n].(state := RUNNING)];
    forall x | x in tab
      ensures tab1[x].state == tab[x].state && tab1[x].control == tab[x].control &&
              Bare(tab2[x]).control == Bare(tab[x]).control
    {
      assert Bare(tab1[x]).state == tab1[x].state && Bare(tab1[x]).control == tab1[x].control &&
          Bare(tab2[x]).control == tab2[x].control;
    }
    assert Dispatched(tab, tab1, n, tab[n].state) by {
      assert forall x :: x in tab ==> Bare(tab1[x]) == Bare(tab[x]);
    }
    assert Dispatched(tab, tab2, n, RUNNING) by {
      assert forall x :: x in tab && x != n ==> Bare(tab2[x]) == Bare(tab[x]);
    }
    PickedQueued(tab, tab1, heads0, tails0, ready, idle, n, tab[n].state, n);
    PlacedDispatch(tab, tab2, heads0, tails0, ready, sleepers, idle, n, RUNNING);
    StateLists(tab1, tab2, heads, tails, Rest(ready), head, sleepers, n, RUNNING);
    assert forall x :: x in tab ==> ((tab2[x].state == BLOCKED) <==> (tab[x].state == BLOCKED));
  }

  // ---- Taking turns ----

  /** The ready queues with c at the tail of queue p. */
  function WithTail(ready: Queues, p: nat, c: Tid): Queues {
    if p < PRIORITY_LEVELS then ready[p := ready[p] + [c]] else ready
  }

  /** The ready queues and the current thread after n yields in a row by threads of priority p. */
  function Turns(ready: Queues, c: Tid, p: nat, idle: Tid, n: nat): (Queues, Tid) {
    if n == 0 then (ready, c) else
      var (queues, d) := Turns(ready, c, p, idle, n - 1);
      (Rest(WithTail(queues, p, d)), Picked(WithTail(queues, p, d), idle))
  }

  lemma OneTurn(ready: Queues, d: Tid, p: nat, idle: Tid)
    requires p < PRIORITY_LEVELS && forall i :: 0 <= i < p ==> ready[i] == []
    ensures var q := ready[p] + [d];
            Rest(WithTail(ready, p, d)) == ready[p := q[1..]] && Picked(WithTail(ready, p, d), idle) == q[0]
  {
    LevelIs(WithTail(ready, p, d), 0, p);
  }

  /** The queue of a round after n turns: those that still wait, then those that have run. */
  function Rotated(round: seq<Tid>, n: nat): seq<Tid>
    requires round != [] && n <= |round|
  {
    if n == |round| then round[1..] else round[n + 1..] + round[..n]
  }

  lemma Rotate(round: seq<Tid>, n: nat)
    requires 0 < n <= |round|
    ensures var q := Rotated(round, n - 1) + [round[n - 1]];
            q[1..] == Rotated(round, n) && q[0] == round[if n == |round| then 0 else n]
  {
    assert Rotated(round, n - 1) + [round[n - 1]] == round[n..] + round[..n];
  }

  /** While no more urgent thread is ready and their priority stays p, the threads of queue p and the current thread run
      in turn, each once in every round of |queue| + 1 yields. */
  lemma {:induction false} RoundRobin(ready: Queues, c: Tid, p: nat, idle: Tid, n: nat)
    requires p < PRIORITY_LEVELS && (forall i :: 0 <= i < p ==> ready[i] == []) && n <= |ready[p]| + 1
    ensures var round := [c] + ready[p];
            Turns(ready, c, p, idle, n) == (ready[p := Rotated(round, n)], round[if n == |round| then 0 else n])
  {
    var round := [c] + ready[p];
    if n == 0 {
      assert Rotated(round, 0) == ready[p];
      assert ready == ready[p := ready[p]];
    } else {
      RoundRobin(ready, c, p, idle, n - 1);
      var queues := ready[p := Rotated(round, n - 1)];
      OneTurn(queues, round[n - 1], p, idle);
      Rotate(round, n);
      assert queues[p := Rotated(round, n)] == ready[p := Rotated(round, n)];
    }
  }

  lemma {:induction false} LevelIs(ready: Queues, i: nat, p: nat)
    requires i <= p < PRIORITY_LEVELS && ready[p] != [] && forall j :: i <= j < p ==> ready[j] == []
    ensures LevelFrom(ready, i) == p
    decreases p - i
  {
    if i < p {
      LevelIs(ready, i + 1, p);
    }
  }
}
