/** Cluster chains over a FAT read as a sequence of 16-bit links (src/fs/fat16.c). */
module Fat16Chains {
  import opened Bytes

  const FREE: u16 := 0
  const END_OF_CHAIN: u16 := 0xFFF8

  /** The test of every chain-walking loop: the link names a cluster and is not an end mark. */
  predicate Follows(link: int) {
    2 <= link < END_OF_CHAIN
  }

  /** The values of the table: 0 is free, 0xFFF8 and above end a chain, and 1 is no link either. */
  lemma LinkValues(link: u16)
    ensures Follows(link) <==> 2 <= link < 0xFFF8
    ensures FREE == 0 && END_OF_CHAIN == 0xFFF8
  {
  }

  predicate InTable(fat: seq<u16>, c: int) {
    2 <= c < |fat|
  }

  /** Every link the walk would follow stays inside the table. */
  ghost predicate LinksInside(fat: seq<u16>) {
    forall c :: InTable(fat, c) && Follows(fat[c]) ==> fat[c] < |fat|
  }

  /** chain is the list of clusters found from first, and it is ended by an end mark. */
  ghost predicate IsChain(fat: seq<u16>, first: int, chain: seq<nat>) {
    if chain == [] then !Follows(first) else
      && chain[0] == first
      && (forall i :: 0 <= i < |chain| ==> InTable(fat, chain[i]))
      && (forall i :: 0 <= i < |chain| - 1 ==> fat[chain[i]] == chain[i + 1])
      && fat[chain[|chain| - 1]] >= END_OF_CHAIN
  }

  ghost predicate Distinct(chain: seq<nat>) {
    forall i, j :: 0 <= i < j < |chain| ==> chain[i] != chain[j]
  }

  /** The FAT determines the chain. */
  lemma {:induction false} ChainUnique(fat: seq<u16>, first: int, a: seq<nat>, b: seq<nat>)
    requires |fat| <= END_OF_CHAIN
    requires IsChain(fat, first, a) && IsChain(fat, first, b)
    ensures a == b
    decreases |a|
  {
    if a != [] && b != [] {
      var next := fat[a[0]];
      if |a| > 1 || |b| > 1 {
        assert |a| > 1 ==> next == a[1];
        assert |b| > 1 ==> next == b[1];
        ChainUnique(fat, next, a[1..], b[1..]);
        assert a == [a[0]] + a[1..] && b == [b[0]] + b[1..];
      }
    }
  }

  // ---- Counting and finding free entries ----

  /** How many of the clusters 2 .. n-1 are free. */
  function Zeros(fat: seq<u16>, n: nat): nat
    requires n <= |fat|
  {
    if n <= 2 then 0 else Zeros(fat, n - 1) + if fat[n - 1] == FREE then 1 else 0
  }

  function CountFree(fat: seq<u16>): nat {
    Zeros(fat, |fat|)
  }

  lemma {:induction false} ZerosUpdate(fat: seq<u16>, n: nat, c: nat, v: u16)
    requires n <= |fat| && InTable(fat, c)
    ensures Zeros(fat[c := v], n) ==
            Zeros(fat, n) + if c >= n then 0 else (if v == FREE then 1 else 0) - (if fat[c] == FREE then 1 else 0)
  {
    if n > 2 {
      ZerosUpdate(fat, n - 1, c, v);
    }
  }

  lemma {:induction false} ZerosBound(fat: seq<u16>, n: nat)
    requires n <= |fat|
    ensures n >= 2 ==> Zeros(fat, n) <= n - 2
  {
    if n > 2 {
      ZerosBound(fat, n - 1);
    }
  }

  lemma {:induction false} ZerosMeans(fat: seq<u16>, n: nat)
    requires n <= |fat|
    ensures Zeros(fat, n) == 0 <==> forall c :: 2 <= c < n ==> fat[c] != FREE
  {
    if n > 2 {
      ZerosMeans(fat, n - 1);
    }
  }

  /** c is the lowest-numbered free cluster; 0 stands for "none". */
  predicate IsFirstFree(fat: seq<u16>, c: nat) {
    if c == 0 then forall x :: 2 <= x < |fat| ==> fat[x] != FREE
    else InTable(fat, c) && fat[c] == FREE && forall x :: 2 <= x < c ==> fat[x] != FREE
  }

  /** fat with the clusters of chain freed. */
  function Freed(fat: seq<u16>, chain: seq<nat>): seq<u16> {
    seq(|fat|, c requires 0 <= c < |fat| => if c in chain then FREE else fat[c])
  }

  /** Freeing distinct used clusters adds exactly their number to the free count. */
  lemma {:induction false} CountFreed(fat: seq<u16>, chain: seq<nat>)
    requires Distinct(chain)
    requires forall i :: 0 <= i < |chain| ==> InTable(fat, chain[i]) && fat[chain[i]] != FREE
    ensures CountFree(Freed(fat, chain)) == CountFree(fat) + |chain|
  {
    if chain == [] {
      assert Freed(fat, chain) == fat;
    } else {
      var n := |chain| - 1;
      var rest := chain[..n];
      CountFreed(fat, rest);
      assert chain == rest + [chain[n]];
      assert chain[n] !in rest;
      assert Freed(fat, chain) == Freed(fat, rest)[chain[n] := FREE];
      ZerosUpdate(Freed(fat, rest), |fat|, chain[n], FREE);
    }
  }

  // ---- Following links in an arbitrary table ----

  /** The n-th link met from first; 0 once the walk has stopped. */
  function Hop(fat: seq<u16>, first: int, n: nat): int {
    if n == 0 then first else
      var c := Hop(fat, first, n - 1);
      if Follows(c) && c < |fat| then fat[c] else 0
  }

  /** x is one of the clusters a walk from first visits. */
  ghost predicate Reached(fat: seq<u16>, first: int, x: int) {
    Follows(x) && exists n: nat :: Hop(fat, first, n) == x
  }

  lemma ReachedNext(fat: seq<u16>, first: int, c: int)
    requires Reached(fat, first, c) && c < |fat|
    ensures Follows(fat[c]) ==> Reached(fat, first, fat[c])
  {
    var n: nat :| Hop(fat, first, n) == c;
    assert Hop(fat, first, n + 1) == fat[c];
  }

  lemma {:induction false} HopInside(fat: seq<u16>, first: int, n: nat)
    requires LinksInside(fat) && (Follows(first) ==> first < |fat|)
    ensures Follows(Hop(fat, first, n)) ==> Hop(fat, first, n) < |fat|
  {
    if n > 0 {
      HopInside(fat, first, n - 1);
    }
  }

  /** A set of clusters holding the start and closed under links holds everything reached. */
  lemma {:induction false} ClosedHoldsHops(fat: seq<u16>, first: int, s: set<int>, n: nat)
    requires LinksInside(fat) && (Follows(first) ==> first < |fat| && first in s)
    requires forall c :: c in s && InTable(fat, c) && Follows(fat[c]) ==> fat[c] as int in s
    ensures Follows(Hop(fat, first, n)) ==> Hop(fat, first, n) in s
  {
    if n > 0 {
      ClosedHoldsHops(fat, first, s, n - 1);
      HopInside(fat, first, n - 1);
    }
  }

  /** What a walk reaches from the head of a chain is the chain. */
  lemma ReachedIsChain(fat: seq<u16>, first: int, chain: seq<nat>, x: nat)
    requires |fat| <= END_OF_CHAIN && LinksInside(fat) && IsChain(fat, first, chain)
    ensures Reached(fat, first, x) <==> x in chain
  {
    var s := set i | 0 <= i < |chain| :: chain[i] as int;
    if x in chain {
      var i :| 0 <= i < |chain| && chain[i] == x;
      ChainHop(fat, first, chain, i);
    }
    if Reached(fat, first, x) {
      var n: nat :| Hop(fat, first, n) == x;
      forall c | c in s && InTable(fat, c) && Follows(fat[c])
        ensures fat[c] as int in s
      {
        var i :| 0 <= i < |chain| && chain[i] == c;
        assert i < |chain| - 1;
        assert chain[i + 1] as int in s;
      }
      assert Follows(first) ==> first in s;
      ClosedHoldsHops(fat, first, s, n);
    }
  }

  lemma {:induction false} ChainHop(fat: seq<u16>, first: int, chain: seq<nat>, i: nat)
    requires |fat| <= END_OF_CHAIN && IsChain(fat, first, chain) && i < |chain|
    ensures Hop(fat, first, i) == chain[i]
  {
    if i > 0 {
      ChainHop(fat, first, chain, i - 1);
      assert Follows(chain[i - 1]);
    }
  }

  /** The state of a freeing walk over fat that has freed visited and stands at c. */
  ghost predicate Walk(fat: seq<u16>, first: int, now: seq<u16>, visited: set<int>, c: int) {
    && |now| == |fat|
    && (forall x :: x in visited ==> InTable(fat, x) && Reached(fat, first, x))
    && (forall x :: 0 <= x < |fat| ==> now[x] == if x in visited then FREE else fat[x])
    && (forall x :: x in visited && Follows(fat[x]) ==> fat[x] as int in visited || fat[x] == c)
    && (Follows(c) ==> c < |fat| && Reached(fat, first, c))
    && (Follows(first) ==> first in visited || first == c)
  }

  lemma WalkStep(fat: seq<u16>, first: int, now: seq<u16>, visited: set<int>, c: int)
    requires LinksInside(fat) && Walk(fat, first, now, visited, c) && Follows(c)
    ensures Walk(fat, first, now[c := FREE], visited + {c}, now[c])
    ensures now[c] != FREE ==> CountFree(now[c := FREE]) == CountFree(now) + 1
    ensures CountFree(now[c := FREE]) >= CountFree(now)
  {
    ZerosUpdate(now, |now|, c, FREE);
    if c !in visited {
      ReachedNext(fat, first, c);
    }
  }

  /** When the walk stops it has freed exactly the clusters it can reach. */
  lemma WalkDone(fat: seq<u16>, first: int, now: seq<u16>, visited: set<int>, c: int)
    requires LinksInside(fat) && Walk(fat, first, now, visited, c) && !Follows(c)
    requires Follows(first) ==> first < |fat|
    ensures forall x :: 0 <= x < |fat| ==> now[x] == if Reached(fat, first, x) then FREE else fat[x]
  {
    forall x | 0 <= x < |fat| && Reached(fat, first, x)
      ensures x in visited
    {
      var n: nat :| Hop(fat, first, n) == x;
      ClosedHoldsHops(fat, first, visited, n);
    }
  }

  // ---- Which file owns which cluster ----

  /** Where a cluster sits: the directory slot that owns it and its place in that slot's chain. */
  datatype Place = Place(slot: nat, index: nat)

  type Owners = map<nat, Place>

  /** Every cluster in a chain is recorded under its one place, so chains are free of repetition and pairwise
      disjoint; and the recorded clusters are exactly those in use. */
  ghost predicate Partition(fat: seq<u16>, chains: seq<seq<nat>>, owner: Owners) {
    && Indexed(chains, owner)
    && (forall c :: InTable(fat, c) ==> (fat[c] != FREE <==> c in owner))
  }

  ghost predicate Indexed(chains: seq<seq<nat>>, owner: Owners) {
    && (forall k, i :: 0 <= k < |chains| && 0 <= i < |chains[k]| ==>
          chains[k][i] in owner && owner[chains[k][i]] == Place(k, i))
    && (forall c :: c in owner ==>
          var p := owner[c]; p.slot < |chains| && p.index < |chains[p.slot]| && chains[p.slot][p.index] == c)
  }

  lemma IndexedDistinct(chains: seq<seq<nat>>, owner: Owners, k: nat)
    requires Indexed(chains, owner) && k < |chains|
    ensures Distinct(chains[k])
  {
    forall i, j | 0 <= i < j < |chains[k]|
      ensures chains[k][i] != chains[k][j]
    {
      assert owner[chains[k][i]] == Place(k, i) && owner[chains[k][j]] == Place(k, j);
    }
  }

  /** No cluster belongs to two slots. */
  lemma PartitionDisjoint(fat: seq<u16>, chains: seq<seq<nat>>, owner: Owners, k: nat, l: nat, c: nat)
    requires Partition(fat, chains, owner) && k < |chains| && l < |chains| && c in chains[k] && c in chains[l]
    ensures k == l
  {
    var i :| 0 <= i < |chains[k]| && chains[k][i] == c;
    var j :| 0 <= j < |chains[l]| && chains[l][j] == c;
    assert owner[chains[k][i]] == Place(k, i) && owner[chains[l][j]] == Place(l, j);
  }

  /** The length of the first n chains together. */
  function TotalLength(chains: seq<seq<nat>>, n: nat): nat
    requires n <= |chains|
  {
    if n == 0 then 0 else TotalLength(chains, n - 1) + |chains[n - 1]|
  }

  /** Conservation: the free clusters and the chain lengths add up to all the clusters there are. */
  lemma Conservation(fat: seq<u16>, chains: seq<seq<nat>>, owner: Owners)
    requires |fat| >= 2 && Partition(fat, chains, owner)
    requires forall k, i :: 0 <= k < |chains| && 0 <= i < |chains[k]| ==> InTable(fat, chains[k][i])
    ensures CountFree(fat) + TotalLength(chains, |chains|) == |fat| - 2
  {
    UsedClusters(fat, |fat|);
    OwnedClusters(chains, owner, |chains|);
    var used := set c | 2 <= c < |fat| && fat[c] != FREE;
    var owned := OwnedBelow(owner, |chains|);
    forall c
      ensures c in used <==> c in owned
    {
      if c in owned {
        var p := owner[c];
        assert InTable(fat, chains[p.slot][p.index]);
      }
    }
    assert used == owned;
  }

  lemma {:induction false} UsedClusters(fat: seq<u16>, n: nat)
    requires 2 <= n <= |fat|
    ensures |set c | 2 <= c < n && fat[c] != FREE| == n - 2 - Zeros(fat, n)
  {
    var used := set c | 2 <= c < n && fat[c] != FREE;
    if n == 2 {
      assert used == {};
    } else {
      UsedClusters(fat, n - 1);
      var before := set c | 2 <= c < n - 1 && fat[c] != FREE;
      assert used == if fat[n - 1] != FREE then before + {n - 1} else before;
    }
  }

  function OwnedBelow(owner: Owners, n: nat): set<nat> {
    set c | c in owner && owner[c].slot < n
  }

  lemma {:induction false} OwnedClusters(chains: seq<seq<nat>>, owner: Owners, n: nat)
    requires n <= |chains| && Indexed(chains, owner)
    ensures |OwnedBelow(owner, n)| == TotalLength(chains, n)
  {
    if n == 0 {
      assert OwnedBelow(owner, n) == {};
    } else {
      OwnedClusters(chains, owner, n - 1);
      OwnedStep(chains, owner, n - 1);
    }
  }

  lemma OwnedStep(chains: seq<seq<nat>>, owner: Owners, k: nat)
    requires k < |chains| && Indexed(chains, owner)
    ensures |OwnedBelow(owner, k + 1)| == |OwnedBelow(owner, k)| + |chains[k]|
  {
    var added := Members(chains[k], |chains[k]|);
    forall c | c in OwnedBelow(owner, k + 1) && c !in OwnedBelow(owner, k)
      ensures c in added
    {
      assert chains[owner[c].slot][owner[c].index] == c;
    }
    assert OwnedBelow(owner, k + 1) == OwnedBelow(owner, k) + added;
    assert OwnedBelow(owner, k) !! added;
    IndexedDistinct(chains, owner, k);
    DistinctCardinality(chains[k], |chains[k]|);
  }

  function Members(chain: seq<nat>, n: nat): set<nat>
    requires n <= |chain|
  {
    set i | 0 <= i < n :: chain[i]
  }

  lemma {:induction false} DistinctCardinality(chain: seq<nat>, n: nat)
    requires n <= |chain| && Distinct(chain)
    ensures |Members(chain, n)| == n
  {
    if n > 0 {
      DistinctCardinality(chain, n - 1);
      assert Members(chain, n) == Members(chain, n - 1) + {chain[n - 1]};
      assert chain[n - 1] !in Members(chain, n - 1);
    }
  }

  // ---- Replacing one slot's chain ----

  /** The first index of c in chain. */
  function IndexIn(chain: seq<nat>, c: nat): (i: nat)
    requires c in chain
    ensures i < |chain| && chain[i] == c
  {
    if chain[0] == c then 0 else 1 + IndexIn(chain[1..], c)
  }

  function Reassign(owner: Owners, k: nat, given: seq<nat>): Owners {
    (map c | c in owner && owner[c].slot != k :: owner[c]) + (map c | c in given :: Place(k, IndexIn(given, c)))
  }

  /** fat2 is fat with the old chain of slot k freed and every cluster of given put to use. */
  ghost predicate Replaces(fat: seq<u16>, was: seq<nat>, given: seq<nat>, fat2: seq<u16>) {
    && |fat2| == |fat|
    && Distinct(given)
    && (forall i :: 0 <= i < |given| ==>
        InTable(fat, given[i]) && Freed(fat, was)[given[i]] == FREE && fat2[given[i]] != FREE)
    && (forall c :: InTable(fat, c) && c !in given ==> fat2[c] == Freed(fat, was)[c])
  }

  /** The links of every other slot survive the replacement. */
  lemma OtherLinksKept(fat: seq<u16>, chains: seq<seq<nat>>, owner: Owners, k: nat, given: seq<nat>, fat2: seq<u16>,
                       l: nat, c: nat)
    requires Partition(fat, chains, owner) && k < |chains| && Replaces(fat, chains[k], given, fat2)
    requires l < |chains| && l != k && c in chains[l] && InTable(fat, c)
    ensures c !in given && fat2[c] == fat[c]
  {
    if c in chains[k] {
      PartitionDisjoint(fat, chains, owner, k, l, c);
    }
    var i :| 0 <= i < |chains[l]| && chains[l][i] == c;
    assert c in owner;
    assert fat[c] != FREE;
    assert Freed(fat, chains[k])[c] == fat[c];
  }

  lemma OtherChainKept(fat: seq<u16>, chains: seq<seq<nat>>, owner: Owners, k: nat, given: seq<nat>, fat2: seq<u16>,
                       l: nat, first: int)
    requires Partition(fat, chains, owner) && k < |chains| && Replaces(fat, chains[k], given, fat2)
    requires l < |chains| && l != k && IsChain(fat, first, chains[l])
    ensures IsChain(fat2, first, chains[l])
  {
    forall i | 0 <= i < |chains[l]|
      ensures fat2[chains[l][i]] == fat[chains[l][i]]
    {
      OtherLinksKept(fat, chains, owner, k, given, fat2, l, chains[l][i]);
    }
  }

  lemma ReassignedPlace(fat: seq<u16>, chains: seq<seq<nat>>, owner: Owners, k: nat, given: seq<nat>, fat2: seq<u16>,
                        l: nat, i: nat)
    requires Partition(fat, chains, owner) && k < |chains| && Replaces(fat, chains[k], given, fat2)
    requires l < |chains| && i < |chains[k := given][l]|
    requires forall j :: 0 <= j < |chains[l]| ==> InTable(fat, chains[l][j])
    ensures var c := chains[k := given][l][i];
            c in Reassign(owner, k, given) && Reassign(owner, k, given)[c] == Place(l, i)
  {
    if l == k {
      assert IndexIn(given, given[i]) == i;
    } else {
      OtherLinksKept(fat, chains, owner, k, given, fat2, l, chains[l][i]);
    }
  }

  lemma ReassignedUse(fat: seq<u16>, chains: seq<seq<nat>>, owner: Owners, k: nat, given: seq<nat>, fat2: seq<u16>,
                      c: nat)
    requires Partition(fat, chains, owner) && k < |chains| && Replaces(fat, chains[k], given, fat2)
    requires InTable(fat2, c)
    ensures fat2[c] != FREE <==> c in Reassign(owner, k, given)
  {
    if c in given {
      assert given[IndexIn(given, c)] == c;
    } else {
      assert fat2[c] == Freed(fat, chains[k])[c];
      if c in chains[k] {
        var i :| 0 <= i < |chains[k]| && chains[k][i] == c;
      } else {
        assert c in owner ==> owner[c].slot != k;
      }
    }
  }

  /** Giving slot k a new chain keeps the clusters partitioned. */
  lemma Repartition(fat: seq<u16>, chains: seq<seq<nat>>, owner: Owners, k: nat, given: seq<nat>, fat2: seq<u16>)
    requires Partition(fat, chains, owner) && k < |chains| && Replaces(fat, chains[k], given, fat2)
    requires forall l, i :: 0 <= l < |chains| && 0 <= i < |chains[l]| ==> InTable(fat, chains[l][i])
    ensures Partition(fat2, chains[k := given], Reassign(owner, k, given))
  {
    var chains2, owner2 := chains[k := given], Reassign(owner, k, given);
    assert Indexed(chains2, owner2) by {
      forall l, i | 0 <= l < |chains2| && 0 <= i < |chains2[l]|
        ensures chains2[l][i] in owner2 && owner2[chains2[l][i]] == Place(l, i)
      {
        ReassignedPlace(fat, chains, owner, k, given, fat2, l, i);
      }
    }
    forall c | InTable(fat2, c)
      ensures fat2[c] != FREE <==> c in owner2
    {
      ReassignedUse(fat, chains, owner, k, given, fat2, c);
    }
  }

  // ---- First-fit allocation of a new chain ----

  ghost predicate Ascending(chain: seq<nat>) {
    forall i, j :: 0 <= i < j < |chain| ==> chain[i] < chain[j]
  }

  /** The FAT after linking the free cluster c behind the chain built so far (src/fs/fat16.c:443-446). */
  function Linked(fat: seq<u16>, chain: seq<nat>, c: nat): seq<u16>
    requires c < |fat| <= END_OF_CHAIN && forall i :: 0 <= i < |chain| ==> chain[i] < |fat|
  {
    (if chain == [] then fat else fat[chain[|chain| - 1] := c])[c := END_OF_CHAIN]
  }

  /** fat is fat0 after first-fit allocation has built chain: its clusters were free, are now linked in ascending
      order, nothing else changed, and no cluster up to the last one is still free. */
  ghost predicate Allocated(fat0: seq<u16>, fat: seq<u16>, chain: seq<nat>) {
    && |fat| == |fat0|
    && Ascending(chain)
    && (forall i :: 0 <= i < |chain| ==> InTable(fat0, chain[i]) && fat0[chain[i]] == FREE && fat[chain[i]] != FREE)
    && (forall x :: 0 <= x < |fat| && x !in chain ==> fat[x] == fat0[x])
    && (chain != [] ==> IsChain(fat, chain[0], chain))
    && (chain != [] ==> forall x :: 2 <= x <= chain[|chain| - 1] ==> fat[x] != FREE)
    && CountFree(fat) + |chain| == CountFree(fat0)
  }

  /** An allocation that leaves nothing has taken all that was free. */
  lemma NoneLeft(fat0: seq<u16>, fat: seq<u16>, chain: seq<nat>)
    requires Allocated(fat0, fat, chain) && IsFirstFree(fat, 0)
    ensures CountFree(fat) == 0 && |chain| == CountFree(fat0)
  {
    ZerosMeans(fat, |fat|);
  }

  lemma AllocateNext(fat0: seq<u16>, fat: seq<u16>, chain: seq<nat>, c: nat)
    requires |fat| <= END_OF_CHAIN && Allocated(fat0, fat, chain) && IsFirstFree(fat, c) && c != 0
    ensures c !in chain && Allocated(fat0, Linked(fat, chain, c), chain + [c])
    ensures Linked(fat, chain, c)[c] == 0xFFF8 && fat[c] == 0
  {
    var fat2 := Linked(fat, chain, c);
    var all := chain + [c];
    if chain != [] {
      var last := chain[|chain| - 1];
      assert last < c;
      ZerosUpdate(fat, |fat|, last, c);
      ZerosUpdate(fat[last := c], |fat|, c, END_OF_CHAIN);
      AllocateLink(fat, chain, c);
    } else {
      ZerosUpdate(fat, |fat|, c, END_OF_CHAIN);
      assert all == [c];
    }
  }

  lemma AllocateLink(fat: seq<u16>, chain: seq<nat>, c: nat)
    requires |fat| <= END_OF_CHAIN && chain != [] && Ascending(chain) && IsChain(fat, chain[0], chain)
    requires InTable(fat, c) && chain[|chain| - 1] < c
    ensures IsChain(Linked(fat, chain, c), chain[0], chain + [c])
  {
    var fat2 := Linked(fat, chain, c);
    var all := chain + [c];
    forall i | 0 <= i < |all| - 1
      ensures fat2[all[i]] == all[i + 1]
    {
      if i < |chain| - 1 {
        assert all[i] == chain[i] && chain[i] < chain[|chain| - 1];
        assert fat2[chain[i]] == fat[chain[i]];
      }
    }
  }
}
