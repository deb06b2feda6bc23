/** The intrusive lists of src/sched/scheduler.c, as links in a table of thread control blocks. */
module ThreadLists {
  import opened Bytes
  import opened AdaptivePriority

  /** A thread is identified by its number, which stands for the pointer to its control block. */
  type Tid = nat
  type Link = Option<Tid>

  datatype State = CREATED | READY | RUNNING | BLOCKED | SLEEPING | TERMINATED

  /** The part of a thread control block that the scheduler uses (src/sched/thread.h:43-83). */
  datatype Tcb = Tcb(state: State, control: Control, timeSlice: int, ticksUsed: nat, totalTicks: nat, wakeTime: nat,
                     next: Link, prev: Link)

  type Table = map<Tid, Tcb>

  ghost predicate NoRepeats(q: seq<Tid>) {
    forall i, j :: 0 <= i < j < |q| ==> q[i] != q[j]
  }

  /** The last element of q, if there is one. */
  function LastOf(q: seq<Tid>): Link {
    if q == [] then None else Some(q[|q| - 1])
  }

  function FirstOf(q: seq<Tid>): Link {
    if q == [] then None else Some(q[0])
  }

  function Next(q: seq<Tid>, i: nat): Link {
    if i + 1 < |q| then Some(q[i + 1]) else None
  }

  function Prev(q: seq<Tid>, i: nat): Link
    requires i <= |q|
  {
    if i > 0 then Some(q[i - 1]) else None
  }

  /** q is a doubly linked list without repetitions. */
  ghost predicate Linked(tab: Table, q: seq<Tid>, head: Link, tail: Link) {
    && NoRepeats(q)
    && head == FirstOf(q) && tail == LastOf(q)
    && forall i :: 0 <= i < |q| ==> q[i] in tab && tab[q[i]].next == Next(q, i) && tab[q[i]].prev == Prev(q, i)
  }

  /** q is a singly linked list without repetitions. */
  ghost predicate Chain(tab: Table, q: seq<Tid>, head: Link) {
    && NoRepeats(q)
    && head == FirstOf(q)
    && forall i :: 0 <= i < |q| ==> q[i] in tab && tab[q[i]].next == Next(q, i)
  }

  lemma {:induction false} ChainAgrees(tab: Table, q: seq<Tid>, r: seq<Tid>, head: Link, i: nat)
    requires Chain(tab, q, head) && Chain(tab, r, head) && i < |q|
    ensures i < |r| && q[i] == r[i] && Next(q, i) == Next(r, i)
  {
    if i > 0 {
      ChainAgrees(tab, q, r, head, i - 1);
    }
  }

  /** A head and the links fix the list: there is only one way to read a queue off memory. */
  lemma ChainUnique(tab: Table, q: seq<Tid>, r: seq<Tid>, head: Link)
    requires Chain(tab, q, head) && Chain(tab, r, head)
    ensures q == r
  {
    forall i | 0 <= i < |q|
      ensures i < |r| && q[i] == r[i]
    {
      ChainAgrees(tab, q, r, head, i);
    }
    if |q| > 0 {
      ChainAgrees(tab, q, r, head, |q| - 1);
    }
  }

  /** Nothing has changed in the threads outside changed. */
  ghost predicate SameOutside(tab: Table, tab2: Table, changed: set<Tid>) {
    && tab2.Keys == tab.Keys
    && forall t :: t in tab && t !in changed ==> tab2[t] == tab[t]
  }

  lemma LinkedSame(tab: Table, tab2: Table, q: seq<Tid>, head: Link, tail: Link, changed: set<Tid>)
    requires Linked(tab, q, head, tail) && SameOutside(tab, tab2, changed) && forall t :: t in q ==> t !in changed
    ensures Linked(tab2, q, head, tail)
  {
    forall i | 0 <= i < |q|
      ensures q[i] in tab2 && tab2[q[i]].next == Next(q, i) && tab2[q[i]].prev == Prev(q, i)
    {
      assert q[i] in q;
    }
  }

  lemma ChainSame(tab: Table, tab2: Table, q: seq<Tid>, head: Link, changed: set<Tid>)
    requires Chain(tab, q, head) && SameOutside(tab, tab2, changed) && forall t :: t in q ==> t !in changed
    ensures Chain(tab2, q, head)
  {
    forall i | 0 <= i < |q|
      ensures q[i] in tab2 && tab2[q[i]].next == Next(q, i)
    {
      assert q[i] in q;
    }
  }

  // ---- Appending (src/sched/scheduler.c:44-54) ----

  /** The table after the stores of enqueue_ready (src/sched/scheduler.c:44-54). */
  function Hung(tab: Table, tail: Link, t: Tid): Table
    requires t in tab && (tail.Some? ==> tail.value in tab)
  {
    var tab1 := tab[t := tab[t].(next := None, prev := tail)];
    var tab2 := if tail.Some? then tab1[tail.value := tab1[tail.value].(next := Some(t))] else tab1;
    tab2[t := tab2[t].(state := READY)]
  }

  /** tab2 is tab with t made ready and hung behind the tail. */
  ghost predicate IsAppended(tab: Table, tab2: Table, tail: Link, t: Tid) {
    && t in tab && tab2.Keys == tab.Keys
    && forall x :: x in tab ==>
        tab2[x] == (if x == t then tab[x].(next := None, prev := tail, state := READY)
                    else if tail == Some(x) then tab[x].(next := Some(t))
                    else tab[x])
  }

  lemma HungIs(tab: Table, tail: Link, t: Tid)
    requires t in tab && (tail.Some? ==> tail.value in tab) && tail != Some(t)
    ensures IsAppended(tab, Hung(tab, tail, t), tail, t)
  {
  }

  lemma AppendLinked(tab: Table, tab2: Table, q: seq<Tid>, head: Link, tail: Link, t: Tid)
    requires Linked(tab, q, head, tail) && t !in q && IsAppended(tab, tab2, tail, t)
    ensures Linked(tab2, q + [t], if tail.Some? then head else Some(t), Some(t))
  {
    var all := q + [t];
    forall i | 0 <= i < |all|
      ensures all[i] in tab2 && tab2[all[i]].next == Next(all, i) && tab2[all[i]].prev == Prev(all, i)
    {
      if i < |q| {
        assert all[i] == q[i] && q[i] in q;
      }
    }
  }

  // ---- Removing (src/sched/scheduler.c:59-96) ----

  /** tab2 is tab with t taken out from between its neighbours. */
  ghost predicate IsUnlinked(tab: Table, tab2: Table, t: Tid) {
    && t in tab && tab2.Keys == tab.Keys
    && forall x :: x in tab ==>
        tab2[x] == (if x == t then tab[x].(next := None, prev := None)
                    else tab[x].(next := if tab[t].prev == Some(x) then tab[t].next else tab[x].next,
                                 prev := if tab[t].next == Some(x) then tab[t].prev else tab[x].prev))
  }

  function Without(q: seq<Tid>, k: nat): (r: seq<Tid>)
    requires k < |q|
    ensures |r| == |q| - 1
    ensures forall i :: 0 <= i < |r| ==> r[i] == q[if i < k then i else i + 1]
  {
    q[..k] + q[k + 1..]
  }

  /** The table after the stores of remove_from_ready to control blocks (src/sched/scheduler.c:81-94). */
  function Cut(tab: Table, t: Tid): Table
    requires t in tab && (tab[t].prev.Some? ==> tab[t].prev.value in tab) &&
             (tab[t].next.Some? ==> tab[t].next.value in tab)
  {
    var p, n := tab[t].prev, tab[t].next;
    var tab1 := if p.Some? then tab[p.value := tab[p.value].(next := n)] else tab;
    var tab2 := if n.Some? then tab1[n.value := tab1[n.value].(prev := p)] else tab1;
    tab2[t := tab2[t].(next := None, prev := None)]
  }

  lemma CutIs(tab: Table, t: Tid)
    requires t in tab && (tab[t].prev.Some? ==> tab[t].prev.value in tab) &&
             (tab[t].next.Some? ==> tab[t].next.value in tab)
    ensures IsUnlinked(tab, Cut(tab, t), t)
  {
  }

  lemma UnlinkLinked(tab: Table, tab2: Table, q: seq<Tid>, head: Link, tail: Link, k: nat)
    requires Linked(tab, q, head, tail) && k < |q| && IsUnlinked(tab, tab2, q[k])
    ensures Linked(tab2, Without(q, k), if tab[q[k]].prev.Some? then head else tab[q[k]].next,
                   if tab[q[k]].next.Some? then tail else tab[q[k]].prev)
    ensures q[k] !in Without(q, k)
  {
    var rest := Without(q, k);
    forall i | 0 <= i < |rest|
      ensures rest[i] in tab2 && rest[i] != q[k] && tab2[rest[i]].next == Next(rest, i) &&
              tab2[rest[i]].prev == Prev(rest, i)
    {
      UnlinkAt(tab, tab2, q, head, tail, k, i);
    }
  }

  lemma UnlinkAt(tab: Table, tab2: Table, q: seq<Tid>, head: Link, tail: Link, k: nat, i: nat)
    requires Linked(tab, q, head, tail) && k < |q| && IsUnlinked(tab, tab2, q[k]) && i < |q| - 1
    ensures var x, rest := Without(q, k)[i], Without(q, k);
            x in tab2 && x != q[k] && tab2[x].next == Next(rest, i) && tab2[x].prev == Prev(rest, i)
  {
    var j := if i < k then i else i + 1;
    assert Without(q, k)[i] == q[j];
    assert q[j] != q[k];
    assert k > 0 && j != k - 1 ==> q[j] != q[k - 1];
    assert k + 1 < |q| && j != k + 1 ==> q[j] != q[k + 1];
  }

  // ---- Sorted insertion (src/sched/scheduler.c:99-117) ----

  ghost predicate Sorted(tab: Table, q: seq<Tid>) {
    && (forall i :: 0 <= i < |q| ==> q[i] in tab)
    && forall i, j :: 0 <= i < j < |q| ==> tab[q[i]].wakeTime <= tab[q[j]].wakeTime
  }

  /** k is where a thread waking at the given time belongs: behind all that wake no later. */
  ghost predicate Belongs(tab: Table, q: seq<Tid>, wake: nat, k: nat) {
    && k <= |q| && (forall i :: 0 <= i < |q| ==> q[i] in tab)
    && (forall i :: 0 <= i < k ==> tab[q[i]].wakeTime <= wake)
    && (forall i :: k <= i < |q| ==> wake < tab[q[i]].wakeTime)
  }

  function Inserted(q: seq<Tid>, k: nat, t: Tid): (r: seq<Tid>)
    requires k <= |q|
    ensures |r| == |q| + 1
    ensures forall i :: 0 <= i < |r| ==> r[i] == if i < k then q[i] else if i == k then t else q[i - 1]
  {
    q[..k] + [t] + q[k..]
  }

  /** tab2 is tab with t put to sleep behind the k-th element of the chain q (in front of all for k = 0). */
  ghost predicate IsSpliced(tab: Table, tab2: Table, q: seq<Tid>, k: nat, t: Tid) {
    && t in tab && k <= |q| && tab2.Keys == tab.Keys
    && forall x :: x in tab ==>
        tab2[x] == (if x == t then tab[x].(next := if k < |q| then Some(q[k]) else None, state := SLEEPING)
                    else if k > 0 && x == q[k - 1] then tab[x].(next := Some(t))
                    else tab[x])
  }

  /** The stores of enqueue_sleep when t goes behind another sleeper (src/sched/scheduler.c:100-101, 112-113). */
  function Behind(tab: Table, prev: Tid, t: Tid): Table
    requires t in tab && prev in tab && prev != t
  {
    var tab1 := tab[t := tab[t].(state := SLEEPING, next := None)];
    var tab2 := tab1[t := tab1[t].(next := tab1[prev].next)];
    tab2[prev := tab2[prev].(next := Some(t))]
  }

  lemma BehindIs(tab: Table, q: seq<Tid>, head: Link, k: nat, t: Tid)
    requires Chain(tab, q, head) && t in tab && t !in q && 0 < k <= |q|
    ensures q[k - 1] in tab && q[k - 1] != t && IsSpliced(tab, Behind(tab, q[k - 1], t), q, k, t)
  {
    assert q[k - 1] in q;
  }

  lemma SpliceChain(tab: Table, tab2: Table, q: seq<Tid>, head: Link, k: nat, t: Tid)
    requires Chain(tab, q, head) && t !in q && IsSpliced(tab, tab2, q, k, t)
    ensures Chain(tab2, Inserted(q, k, t), if k == 0 then Some(t) else head)
  {
    var all := Inserted(q, k, t);
    forall i | 0 <= i < |all|
      ensures all[i] in tab2 && tab2[all[i]].next == Next(all, i)
    {
      SpliceAt(tab, tab2, q, head, k, t, i);
    }
    InsertedOnce(q, k, t);
  }

  lemma InsertedOnce(q: seq<Tid>, k: nat, t: Tid)
    requires NoRepeats(q) && t !in q && k <= |q|
    ensures NoRepeats(Inserted(q, k, t))
  {
    assert forall i :: 0 <= i < |q| ==> q[i] != t;
  }

  lemma SpliceAt(tab: Table, tab2: Table, q: seq<Tid>, head: Link, k: nat, t: Tid, i: nat)
    requires Chain(tab, q, head) && t !in q && IsSpliced(tab, tab2, q, k, t) && i <= |q|
    ensures var all := Inserted(q, k, t); all[i] in tab2 && tab2[all[i]].next == Next(all, i)
  {
    if i != k {
      var j := if i < k then i else i - 1;
      assert Inserted(q, k, t)[i] == q[j] != t;
      assert k > 0 && j != k - 1 ==> q[j] != q[k - 1];
    }
  }

  lemma InsertSorted(tab: Table, tab2: Table, q: seq<Tid>, k: nat, t: Tid)
    requires Sorted(tab, q) && t in tab && Belongs(tab, q, tab[t].wakeTime, k) && IsSpliced(tab, tab2, q, k, t)
    ensures Sorted(tab2, Inserted(q, k, t))
  {
    assert forall x :: x in tab ==> x in tab2 && tab2[x].wakeTime == tab[x].wakeTime;
  }

  /** There is only one place where a thread belongs in a sorted queue. */
  lemma BelongsOnce(tab: Table, q: seq<Tid>, wake: nat, j: nat, k: nat)
    requires Belongs(tab, q, wake, j) && j < k
    ensures !Belongs(tab, q, wake, k)
  {
    if j < |q| {
      assert wake < tab[q[j]].wakeTime;
    }
  }

  // ---- What a second enqueue does ----

  /** Enqueuing the thread that is already last in its queue makes it its own successor: whatever the queue was, its
      head no longer starts any list that ends. */
  lemma RequeueLoops(tab: Table, q: seq<Tid>, head: Link, tail: Link, t: Tid, r: seq<Tid>)
    requires Linked(tab, q, head, tail) && tail == Some(t) && t in tab
    ensures !Chain(Hung(tab, tail, t), r, head)
  {
    var tab2, n := Hung(tab, tail, t), |q| - 1;
    assert tab2[t].next == Some(t);
    if Chain(tab2, r, head) {
      FollowTo(tab, tab2, q, head, tail, r, n);
      assert false;
    }
  }

  lemma {:induction false} FollowTo(tab: Table, tab2: Table, q: seq<Tid>, head: Link, tail: Link, r: seq<Tid>, n: nat)
    requires Linked(tab, q, head, tail) && n < |q| && Chain(tab2, r, head)
    requires tab2.Keys == tab.Keys && forall i :: 0 <= i < |q| - 1 ==> tab2[q[i]].next == tab[q[i]].next
    ensures n < |r| && r[n] == q[n]
  {
    if n > 0 {
      FollowTo(tab, tab2, q, head, tail, r, n - 1);
      assert Next(r, n - 1) == Next(q, n - 1);
    }
  }
}
