/** The chained hash table behind maps: a bucket array of chain heads, one pool of nodes, and a free
    list threaded through the pool's unused nodes. */
module HashTable {
  const SENTINEL := 0xFFFF_FFFF

  datatype Node<K, V> = Node(key: K, value: V, hash: nat, next: int)

  // ---------------------------------------------------------------- chains

  predicate NoDup(c: seq<nat>) {
    forall i, j :: 0 <= i < j < |c| ==> c[i] != c[j]
  }

  function First(c: seq<nat>): int { if c == [] then -1 else c[0] }

  function Next(c: seq<nat>, j: nat): int { if j + 1 < |c| then c[j + 1] else -1 }

  /** Following next from head visits exactly the nodes of c, in order, and ends. */
  predicate Linked<K, V>(nodes: seq<Node<K, V>>, head: int, c: seq<nat>) {
    head == First(c) && (forall j :: 0 <= j < |c| ==> c[j] < |nodes|) &&
    forall j :: 0 <= j < |c| ==> nodes[c[j]].next == Next(c, j)
  }

  predicate Live<K, V>(n: Node<K, V>) { n.hash != SENTINEL }

  /** The nodes of a chain are live, and their hashes belong to bucket b of n. */
  predicate Bucketed<K, V>(nodes: seq<Node<K, V>>, c: seq<nat>, b: int, n: nat)
    requires n > 0
  {
    forall i :: i in c ==> i < |nodes| && Live(nodes[i]) && nodes[i].hash % n == b
  }

  /** The bucket array and the nodes it reaches. */
  predicate Chained<K, V>(nodes: seq<Node<K, V>>, buckets: seq<int>, chains: seq<seq<nat>>) {
    |chains| == |buckets| &&
    forall b :: 0 <= b < |chains| ==>
          Linked(nodes, buckets[b], chains[b]) && NoDup(chains[b]) && Bucketed(nodes, chains[b], b, |buckets|)
  }

  /** Every live node is in the chain of its hash's bucket. */
  predicate Covered<K, V>(nodes: seq<Node<K, V>>, chains: seq<seq<nat>>, upTo: nat) {
    forall i :: 0 <= i < |nodes| && i < upTo && Live(nodes[i]) ==> |chains| > 0 && i in chains[nodes[i].hash % |chains|]
  }

  /** The free list has exactly the unused nodes. */
  predicate Pooled<K, V>(nodes: seq<Node<K, V>>, head: int, free: seq<nat>) {
    Linked(nodes, head, free) && NoDup(free) && forall i :: 0 <= i < |nodes| ==> (i in free <==> !Live(nodes[i]))
  }

  /** Where each key is: one live node per key. */
  ghost predicate Placed<K(!new), V>(nodes: seq<Node<K, V>>, place: map<K, nat>, hash: K -> nat) {
    (forall k :: k in place ==> place[k] < |nodes| && Live(nodes[place[k]]) && nodes[place[k]].key == k) &&
    forall i :: 0 <= i < |nodes| && Live(nodes[i]) ==>
          nodes[i].key in place && place[nodes[i].key] == i && nodes[i].hash == hash(nodes[i].key)
  }

  predicate PowerOfTwo(n: nat) {
    n == 1 || (n > 1 && n % 2 == 0 && PowerOfTwo(n / 2))
  }

  /** 0, or 16 doubled some number of times, so that masking with n - 1 is the remainder by n. */
  predicate Doubled(n: nat) {
    n == 0 || (n % 16 == 0 && PowerOfTwo(n))
  }

  ghost predicate PlaceSafe<K(!new), V>(nodes: seq<Node<K, V>>, place: map<K, nat>) {
    forall k :: k in place ==> place[k] < |nodes|
  }

  ghost function Values<K(!new), V>(nodes: seq<Node<K, V>>, place: map<K, nat>): map<K, V>
    requires PlaceSafe(nodes, place)
  {
    map k | k in place :: nodes[place[k]].value
  }

  lemma ChainOf<K, V>(nodes: seq<Node<K, V>>, buckets: seq<int>, chains: seq<seq<nat>>, b: nat)
    requires Chained(nodes, buckets, chains) && b < |buckets|
    ensures b < |chains| && Linked(nodes, buckets[b], chains[b]) && NoDup(chains[b])
    ensures forall j :: 0 <= j < |chains[b]| ==> chains[b][j] < |nodes| && Live(nodes[chains[b][j]])
  {
    assert Bucketed(nodes, chains[b], b, |buckets|);
    forall j | 0 <= j < |chains[b]| ensures chains[b][j] < |nodes| && Live(nodes[chains[b][j]]) {
      assert chains[b][j] in chains[b];
    }
  }

  lemma BucketCount<K, V>(nodes: seq<Node<K, V>>, buckets: seq<int>, chains: seq<seq<nat>>)
    requires Chained(nodes, buckets, chains)
    ensures |chains| == |buckets|
  {
  }

  /** idx is the j-th of the chain, and prev the one before it. */
  predicate Stands(c: seq<nat>, j: int, idx: int, prev: int) {
    0 <= j < |c| && c[j] == idx && prev == if j == 0 then -1 else c[j - 1]
  }

  lemma LinkAt<K, V>(nodes: seq<Node<K, V>>, head: int, c: seq<nat>, j: nat)
    requires Linked(nodes, head, c)
    ensures j == 0 ==> head == if c == [] then -1 else c[0]
    ensures j < |c| ==> c[j] < |nodes| && nodes[c[j]].next == if j + 1 < |c| then c[j + 1] else -1
  {
  }

  /** A key is found in its bucket's chain or nowhere. */
  lemma KeyInChain<K(!new), V>(nodes: seq<Node<K, V>>, chains: seq<seq<nat>>, place: map<K, nat>, hash: K -> nat,
        key: K)
    requires Covered(nodes, chains, |nodes|) && Placed(nodes, place, hash) && |chains| > 0 && key in place
    ensures place[key] < |nodes| && nodes[place[key]].key == key && place[key] in chains[hash(key) % |chains|]
  {
  }

  lemma PlaceOf<K(!new), V>(nodes: seq<Node<K, V>>, place: map<K, nat>, hash: K -> nat, i: nat)
    requires Placed(nodes, place, hash) && i < |nodes| && Live(nodes[i])
    ensures nodes[i].key in place && place[nodes[i].key] == i && nodes[i].hash == hash(nodes[i].key)
  {
  }

  lemma PlaceIn<K(!new), V>(nodes: seq<Node<K, V>>, place: map<K, nat>, hash: K -> nat)
    requires Placed(nodes, place, hash)
    ensures PlaceSafe(nodes, place)
  {
  }

  lemma SomeBuckets<K, V>(nodes: seq<Node<K, V>>, head: int, free: seq<nat>, count: nat)
    requires count > 0 && count + |free| == |nodes|
    ensures |nodes| > 0
  {
  }

  /** An empty table. */
  lemma Nothing<K(!new), V>(hash: K -> nat)
    ensures Chained<K, V>([], [], []) && Covered<K, V>([], [], 0) && Pooled<K, V>([], -1, []) && Placed<K,
            V>([], map[], hash)
    ensures Values<K, V>([], map[]) == map[] && Doubled(0)
  {
  }

  // ---------------------------------------------------------------- what the operations keep

  lemma LinkedKept<K, V>(nodes: seq<Node<K, V>>, nodes': seq<Node<K, V>>, head: int, c: seq<nat>)
    requires Linked(nodes, head, c) && |nodes| <= |nodes'| && forall j :: 0 <= j < |c| ==>
               nodes'[c[j]].next == nodes[c[j]].next
    ensures Linked(nodes', head, c)
  {
  }

  lemma Elsewhere<K, V>(nodes: seq<Node<K, V>>, head: int, c: seq<nat>, i: nat, n: Node<K, V>)
    requires Linked(nodes, head, c) && i !in c && i < |nodes|
    ensures Linked(nodes[i := n], head, c)
  {
    assert forall j :: 0 <= j < |c| ==> c[j] in c;
    LinkedKept(nodes, nodes[i := n], head, c);
  }

  lemma PutFirst<K, V>(nodes: seq<Node<K, V>>, head: int, c: seq<nat>, i: nat)
    requires Linked(nodes, head, c) && NoDup(c) && i !in c && i < |nodes| && nodes[i].next == head
    ensures Linked(nodes, i, [i] + c) && NoDup([i] + c)
  {
    var c' := [i] + c;
    forall j | 0 <= j < |c'| ensures c'[j] < |nodes| && nodes[c'[j]].next == Next(c', j) {
      if j > 0 {
        LinkAt(nodes, head, c, j - 1);
        assert c'[j] == c[j - 1];
      }
    }
  }

  /** A live node that is in no chain is put at the head of its bucket's chain. */
  lemma LinkFront<K, V>(nodes: seq<Node<K, V>>, buckets: seq<int>, chains: seq<seq<nat>>, i: nat, n: Node<K, V>)
    requires Chained(nodes, buckets, chains) && i < |nodes| && Live(n) && |buckets| > 0
    requires (forall b :: 0 <= b < |chains| ==> i !in chains[b]) && n.next == buckets[n.hash % |buckets|]
    ensures var b := n.hash % |buckets|; Chained(nodes[i := n], buckets[b := i], chains[b := [i] + chains[b]])
  {
    hide Linked, NoDup, Bucketed;
    var b := n.hash % |buckets|;
    var nodes', buckets', chains' := nodes[i := n], buckets[b := i], chains[b := [i] + chains[b]];
    forall a | 0 <= a < |chains'| ensures Linked(nodes', buckets'[a], chains'[a]) && NoDup(chains'[a]) &&
        Bucketed(nodes', chains'[a], a, |buckets|) {
      Elsewhere(nodes, buckets[a], chains[a], i, n);
      BucketedElsewhere(nodes, chains[a], a, |buckets|, i, n);
      if a == b {
        PutFirst(nodes', buckets[a], chains[a], i);
        BucketedFirst(nodes', chains[a], a, |buckets|, i);
      }
    }
  }

  lemma BucketedElsewhere<K, V>(nodes: seq<Node<K, V>>, c: seq<nat>, b: int, n: nat, i: nat, node: Node<K, V>)
    requires n > 0 && Bucketed(nodes, c, b, n) && i !in c && i < |nodes|
    ensures Bucketed(nodes[i := node], c, b, n)
  {
  }

  lemma BucketedFirst<K, V>(nodes: seq<Node<K, V>>, c: seq<nat>, b: int, n: nat, i: nat)
    requires n > 0 && Bucketed(nodes, c, b, n) && i < |nodes| && Live(nodes[i]) && nodes[i].hash % n == b
    ensures Bucketed(nodes, [i] + c, b, n)
  {
    forall k | k in [i] + c && k != i ensures k in c {
      InCons(i, c, k);
    }
  }

  lemma Member<K, V>(nodes: seq<Node<K, V>>, buckets: seq<int>, chains: seq<seq<nat>>, b: nat, i: nat)
    requires Chained(nodes, buckets, chains) && b < |chains| && i in chains[b]
    ensures i < |nodes| && Live(nodes[i]) && nodes[i].hash % |buckets| == b
  {
    assert Bucketed(nodes, chains[b], b, |buckets|);
  }

  lemma FrontCovered<K, V>(nodes: seq<Node<K, V>>, chains: seq<seq<nat>>, upTo: nat, i: nat, n: Node<K, V>)
    requires Covered(nodes, chains, upTo) && i < |nodes| && |chains| > 0 && Live(n)
    ensures var b := n.hash % |chains|;
            Covered(nodes[i := n], chains[b := [i] + chains[b]], upTo) &&
            (upTo == i ==> Covered(nodes[i := n], chains[b := [i] + chains[b]], i + 1))
  {
    var b := n.hash % |chains|;
    var nodes', chains' := nodes[i := n], chains[b := [i] + chains[b]];
    forall k | 0 <= k < |nodes'| && (k < upTo || k == i) &&
        Live(nodes'[k]) ensures k in chains'[nodes'[k].hash % |chains'|] {
      if k == i {
        assert chains'[b][0] == i;
      } else {
        var a := nodes[k].hash % |chains|;
        assert k in chains[a];
        if a == b { InTail(i, chains[b], k); }
      }
    }
  }

  lemma InCons(i: nat, c: seq<nat>, k: nat)
    requires k in [i] + c && k != i
    ensures k in c
  {
  }

  lemma InTail(i: nat, c: seq<nat>, k: nat)
    requires k in c
    ensures k in [i] + c
  {
    var j :| 0 <= j < |c| && c[j] == k;
    assert ([i] + c)[j + 1] == k;
  }

  /** Changing only the link of a live node disturbs neither the free list nor the keys. */
  lemma RelinkKeeps<K(!new), V>(nodes: seq<Node<K, V>>, head: int, free: seq<nat>, place: map<K, nat>, hash: K -> nat,
        i: nat, next: int)
    requires Pooled(nodes, head, free) && Placed(nodes, place, hash) && i < |nodes| && Live(nodes[i])
    ensures var nodes' := nodes[i := nodes[i].(next := next)];
            Pooled(nodes', head, free) && Placed(nodes', place, hash) && Values(nodes', place) == Values(nodes, place)
  {
    var nodes' := nodes[i := nodes[i].(next := next)];
    Elsewhere(nodes, head, free, i, nodes[i].(next := next));
    RelinkPlaced(nodes, place, hash, i, next);
  }

  lemma RelinkPlaced<K(!new), V>(nodes: seq<Node<K, V>>, place: map<K, nat>, hash: K -> nat, i: nat, next: int)
    requires Placed(nodes, place, hash) && i < |nodes| && Live(nodes[i])
    ensures var nodes' := nodes[i := nodes[i].(next := next)];
            Placed(nodes', place, hash) && Values(nodes', place) == Values(nodes, place)
  {
  }

  lemma SkipCovered<K, V>(nodes: seq<Node<K, V>>, chains: seq<seq<nat>>, i: nat)
    requires Covered(nodes, chains, i) && i < |nodes| && !Live(nodes[i])
    ensures Covered(nodes, chains, i + 1)
  {
  }

  lemma FreshBuckets<K, V>(nodes: seq<Node<K, V>>, n: nat)
    ensures Chained(nodes, seq(n, _ => -1), seq(n, _ => [])) && Covered(nodes, seq(n, _ => []), 0)
  {
  }

  lemma {:induction false} DoubledGrows(n: nat)
    requires Doubled(n)
    ensures Doubled(if n == 0 then 16 else n * 2)
  {
    if n == 0 {
      assert PowerOfTwo(2) && PowerOfTwo(4) && PowerOfTwo(8) && PowerOfTwo(16);
    } else {
      assert (n * 2) / 2 == n;
    }
  }

  /** A run of slots from lo up to hi. */
  function Run(lo: nat, hi: nat): (r: seq<nat>)
    requires lo <= hi
    ensures |r| == hi - lo && forall j :: 0 <= j < |r| ==> r[j] == lo + j
  {
    seq(hi - lo, j requires 0 <= j < hi - lo => lo + j)
  }

  /** New slots are chained in order in front of the old free list. */
  ghost predicate Extended<K, V>(nodes: seq<Node<K, V>>, nodes': seq<Node<K, V>>, head: int, hi: nat) {
    |nodes| <= |nodes'| <= hi && nodes == nodes'[..|nodes|] &&
    forall i :: |nodes| <= i < |nodes'| ==> !Live(nodes'[i]) && nodes'[i].next == if i + 1 < hi then i + 1 else head
  }

  lemma GrowKeeps<K(!new), V>(nodes: seq<Node<K, V>>, nodes': seq<Node<K, V>>, buckets: seq<int>, chains: seq<seq<nat>>,
        head: int, free: seq<nat>,
                              place: map<K, nat>, hash: K -> nat)
    requires Extended(nodes, nodes', head, |nodes'|) && |nodes| < |nodes'|
    requires Chained(nodes, buckets, chains) && Covered(nodes, chains, |nodes|) && Pooled(nodes, head, free) &&
             Placed(nodes, place, hash)
    ensures Chained(nodes', buckets, chains) && Covered(nodes', chains, |nodes'|) && Placed(nodes', place, hash)
    ensures Pooled(nodes', |nodes|, Run(|nodes|, |nodes'|) + free) && PlaceSafe(nodes, place) &&
            Values(nodes', place) == Values(nodes, place)
  {
    hide Pooled, Chained;
    forall i | 0 <= i < |nodes| ensures nodes'[i] == nodes[i] {
      assert nodes'[..|nodes|][i] == nodes'[i];
    }
    GrowChained(nodes, nodes', buckets, chains);
    GrowPooled(nodes, nodes', head, free);
    GrowPlaced(nodes, nodes', place, hash);
  }

  lemma GrowPlaced<K(!new), V>(nodes: seq<Node<K, V>>, nodes': seq<Node<K, V>>, place: map<K, nat>, hash: K -> nat)
    requires |nodes| <= |nodes'| && (forall i :: 0 <= i < |nodes| ==> nodes'[i] == nodes[i]) &&
             (forall i :: |nodes| <= i < |nodes'| ==> !Live(nodes'[i]))
    requires Placed(nodes, place, hash)
    ensures Placed(nodes', place, hash) && Values(nodes', place) == Values(nodes, place)
  {
  }

  lemma GrowChained<K, V>(nodes: seq<Node<K, V>>, nodes': seq<Node<K, V>>, buckets: seq<int>, chains: seq<seq<nat>>)
    requires |nodes| <= |nodes'| && (forall i :: 0 <= i < |nodes| ==> nodes'[i] == nodes[i]) &&
             Chained(nodes, buckets, chains)
    ensures Chained(nodes', buckets, chains)
  {
    forall b | 0 <= b < |chains| ensures Linked(nodes', buckets[b], chains[b]) && NoDup(chains[b]) &&
        Bucketed(nodes', chains[b], b, |buckets|) {
      ChainOf(nodes, buckets, chains, b);
      LinkedKept(nodes, nodes', buckets[b], chains[b]);
    }
  }

  lemma GrowPooled<K, V>(nodes: seq<Node<K, V>>, nodes': seq<Node<K, V>>, head: int, free: seq<nat>)
    requires Extended(nodes, nodes', head, |nodes'|) && |nodes| < |nodes'| && Pooled(nodes, head, free)
    requires forall i :: 0 <= i < |nodes| ==> nodes'[i] == nodes[i]
    ensures Pooled(nodes', |nodes|, Run(|nodes|, |nodes'|) + free)
  {
    RunLinked(nodes, nodes', head, free);
    RunNoDup(|nodes|, |nodes'|, free);
    var free' := Run(|nodes|, |nodes'|) + free;
    forall i | 0 <= i < |nodes'| ensures i in free' <==> !Live(nodes'[i]) {
      InRun(|nodes|, |nodes'|, free, i);
    }
  }

  lemma RunLinked<K, V>(nodes: seq<Node<K, V>>, nodes': seq<Node<K, V>>, head: int, free: seq<nat>)
    requires Extended(nodes, nodes', head, |nodes'|) && |nodes| < |nodes'| && Linked(nodes, head, free)
    requires forall i :: 0 <= i < |nodes| ==> nodes'[i] == nodes[i]
    ensures Linked(nodes', |nodes|, Run(|nodes|, |nodes'|) + free)
  {
    var run := Run(|nodes|, |nodes'|);
    var free' := run + free;
    forall j | 0 <= j < |free'| ensures free'[j] < |nodes'| && nodes'[free'[j]].next == Next(free', j) {
      if j >= |run| {
        LinkAt(nodes, head, free, j - |run|);
        assert free'[j] == free[j - |run|];
        assert j + 1 < |free'| ==> free'[j + 1] == free[j + 1 - |run|];
      } else {
        assert free'[j] == run[j];
        assert j + 1 < |free'| ==> free'[j + 1] == if j + 1 < |run| then run[j + 1] else free[0];
      }
    }
  }

  lemma RunNoDup(lo: nat, hi: nat, free: seq<nat>)
    requires lo <= hi && NoDup(free) && forall j :: 0 <= j < |free| ==> free[j] < lo
    ensures NoDup(Run(lo, hi) + free)
  {
  }

  lemma InRun(lo: nat, hi: nat, free: seq<nat>, i: nat)
    requires lo <= hi
    ensures i in Run(lo, hi) + free <==> lo <= i < hi || i in free
  {
    if lo <= i < hi { assert (Run(lo, hi) + free)[i - lo] == i; }
  }

  /** Taking the first free slot and filling it with a new key, at the head of its chain. */
  lemma InsertKeeps<K(!new), V>(nodes: seq<Node<K, V>>, buckets: seq<int>, chains: seq<seq<nat>>, head: int,
        free: seq<nat>,
                                place: map<K, nat>, hash: K -> nat, n: Node<K, V>)
    requires Chained(nodes, buckets, chains) && Covered(nodes, chains, |nodes|) && Pooled(nodes, head, free) &&
             Placed(nodes, place, hash)
    requires free != [] && |buckets| > 0 && Live(n) && n.hash == hash(n.key) && n.next == buckets[n.hash % |buckets|] &&
             n.key !in place
    ensures var i, b := free[0], n.hash % |buckets|;
            i < |nodes| && |chains| == |buckets| && nodes[i].next == First(free[1..]) &&
            var nodes', chains' := nodes[i := n], chains[b := [i] + chains[b]];
            Chained(nodes', buckets[b := i], chains') && Covered(nodes', chains', |nodes|) &&
            Pooled(nodes', nodes[i].next, free[1..]) &&
            Placed(nodes', place[n.key := i], hash) &&
            Values(nodes', place[n.key := i]) == Values(nodes, place)[n.key := n.value]
  {
    var i, b := free[0], n.hash % |buckets|;
    assert i in free;
    forall a | 0 <= a < |chains| ensures i !in chains[a] {
      ChainOf(nodes, buckets, chains, a);
    }
    LinkFront(nodes, buckets, chains, i, n);
    FrontCovered(nodes, chains, |nodes|, i, n);
    InsertPooled(nodes, head, free, n);
    InsertPlaced(nodes, place, hash, i, n);
  }

  lemma InsertPooled<K, V>(nodes: seq<Node<K, V>>, head: int, free: seq<nat>, n: Node<K, V>)
    requires Pooled(nodes, head, free) && free != [] && Live(n)
    ensures free[0] < |nodes| && nodes[free[0]].next == First(free[1..]) &&
            Pooled(nodes[free[0] := n], nodes[free[0]].next, free[1..])
  {
    var i, rest := free[0], free[1..];
    var nodes' := nodes[i := n];
    TailLinked(nodes, head, free, n);
    assert forall j :: 0 <= j < |rest| ==> rest[j] == free[j + 1];
    forall k | 0 <= k < |nodes'| ensures k in rest <==> !Live(nodes'[k]) {
      InRest(free, k);
    }
  }

  lemma TailLinked<K, V>(nodes: seq<Node<K, V>>, head: int, free: seq<nat>, n: Node<K, V>)
    requires Linked(nodes, head, free) && NoDup(free) && free != []
    ensures nodes[free[0]].next == First(free[1..]) && Linked(nodes[free[0] := n], nodes[free[0]].next, free[1..])
  {
    var i, rest := free[0], free[1..];
    forall j | 0 <= j < |rest| ensures rest[j] < |nodes| && nodes[i := n][rest[j]].next == Next(rest, j) {
      LinkAt(nodes, head, free, j + 1);
      assert rest[j] == free[j + 1] != i;
      assert j + 1 < |rest| ==> rest[j + 1] == free[j + 2];
    }
  }

  lemma InRest(free: seq<nat>, k: nat)
    requires free != [] && NoDup(free)
    ensures k in free[1..] <==> k in free && k != free[0]
  {
    if k in free && k != free[0] {
      var j :| 0 <= j < |free| && free[j] == k;
      assert free[1..][j - 1] == k;
    }
  }

  lemma InsertPlaced<K(!new), V>(nodes: seq<Node<K, V>>, place: map<K, nat>, hash: K -> nat, i: nat, n: Node<K, V>)
    requires Placed(nodes, place, hash) && i < |nodes| && !Live(nodes[i]) && Live(n) && n.hash == hash(n.key) &&
             n.key !in place
    ensures Placed(nodes[i := n], place[n.key := i], hash)
    ensures Values(nodes[i := n], place[n.key := i]) == Values(nodes, place)[n.key := n.value]
  {
  }

  /** Storing another value under a key that is present. */
  lemma UpdateKeeps<K(!new), V>(nodes: seq<Node<K, V>>, buckets: seq<int>, chains: seq<seq<nat>>, head: int,
        free: seq<nat>,
                                place: map<K, nat>, hash: K -> nat, i: nat, value: V)
    requires Chained(nodes, buckets, chains) && Covered(nodes, chains, |nodes|) && Pooled(nodes, head, free) &&
             Placed(nodes, place, hash)
    requires i < |nodes| && Live(nodes[i])
    ensures var nodes' := nodes[i := nodes[i].(value := value)];
            Chained(nodes', buckets, chains) && Covered(nodes', chains, |nodes|) && Pooled(nodes', head, free) &&
            Placed(nodes', place, hash) &&
            Values(nodes', place) == Values(nodes, place)[nodes[i].key := value]
  {
    var nodes' := nodes[i := nodes[i].(value := value)];
    SameLinks(nodes, nodes', buckets, chains, head, free);
    UpdatePlaced(nodes, place, hash, i, value);
  }

  /** Nothing but values changed. */
  lemma SameLinks<K, V>(nodes: seq<Node<K, V>>, nodes': seq<Node<K, V>>, buckets: seq<int>, chains: seq<seq<nat>>,
        head: int, free: seq<nat>)
    requires Chained(nodes, buckets, chains) && Covered(nodes, chains, |nodes|) && Pooled(nodes, head, free) &&
             |nodes'| == |nodes|
    requires forall i :: 0 <= i < |nodes| ==> nodes'[i].next == nodes[i].next && nodes'[i].hash == nodes[i].hash
    ensures Chained(nodes', buckets, chains) && Covered(nodes', chains, |nodes|) && Pooled(nodes', head, free)
  {
    forall b | 0 <= b < |chains| ensures Linked(nodes', buckets[b], chains[b]) && NoDup(chains[b]) &&
        Bucketed(nodes', chains[b], b, |buckets|) {
      ChainOf(nodes, buckets, chains, b);
      LinkedKept(nodes, nodes', buckets[b], chains[b]);
    }
    LinkedKept(nodes, nodes', head, free);
  }

  lemma UpdatePlaced<K(!new), V>(nodes: seq<Node<K, V>>, place: map<K, nat>, hash: K -> nat, i: nat, value: V)
    requires Placed(nodes, place, hash) && i < |nodes| && Live(nodes[i])
    ensures var nodes' := nodes[i := nodes[i].(value := value)];
            Placed(nodes', place, hash) && Values(nodes', place) == Values(nodes, place)[nodes[i].key := value]
  {
    var nodes' := nodes[i := nodes[i].(value := value)];
    assert forall k :: k in place && place[k] == i ==> k == nodes[i].key;
    assert Placed(nodes', place, hash);
  }

  // ---------------------------------------------------------------- deletion

  function Cut(c: seq<nat>, j: nat): (r: seq<nat>)
    requires j < |c|
    ensures |r| == |c| - 1
    ensures forall t :: 0 <= t < |r| ==> r[t] == c[if t < j then t else t + 1]
  {
    c[..j] + c[j + 1..]
  }

  /** The links of a chain after its j-th node has been taken out. */
  function Bypassed<K, V>(nodes: seq<Node<K, V>>, idx: nat, prev: int): seq<Node<K, V>>
    requires idx < |nodes| && prev < |nodes|
  {
    if prev < 0 then nodes else nodes[prev := nodes[prev].(next := nodes[idx].next)]
  }

  lemma CutLinked<K, V>(nodes: seq<Node<K, V>>, head: int, c: seq<nat>, j: nat, prev: int)
    requires Linked(nodes, head, c) && NoDup(c) && j < |c| && prev == if j == 0 then -1 else c[j - 1]
    ensures prev < |nodes| && c[j] < |nodes| && NoDup(Cut(c, j))
    ensures Linked(Bypassed(nodes, c[j], prev), if prev < 0 then nodes[c[j]].next else head, Cut(c, j))
  {
    var c', idx := Cut(c, j), c[j];
    if j > 0 { LinkAt(nodes, head, c, j - 1); }
    LinkAt(nodes, head, c, j);
    var nodes' := Bypassed(nodes, idx, prev);
    forall t | 0 <= t < |c'| ensures c'[t] < |nodes'| && nodes'[c'[t]].next == Next(c', t) {
      LinkAt(nodes, head, c, if t < j then t else t + 1);
    }
  }

  lemma InCut(c: seq<nat>, j: nat, k: nat)
    requires j < |c| && NoDup(c)
    ensures k in Cut(c, j) <==> k in c && k != c[j]
  {
    var r := Cut(c, j);
    if k in c && k != c[j] {
      var t :| 0 <= t < |c| && c[t] == k;
      assert r[if t < j then t else t - 1] == k;
    }
    if k in r {
      var t :| 0 <= t < |r| && r[t] == k;
      assert c[if t < j then t else t + 1] == k;
    }
  }

  lemma CutBucketed<K, V>(nodes: seq<Node<K, V>>, nodes': seq<Node<K, V>>, c: seq<nat>, j: nat, b: int, n: nat)
    requires n > 0 && Bucketed(nodes, c, b, n) && NoDup(c) && j < |c| && |nodes'| == |nodes|
    requires forall i :: 0 <= i < |nodes| ==> nodes'[i].hash == nodes[i].hash
    ensures Bucketed(nodes', Cut(c, j), b, n)
  {
    forall k | k in Cut(c, j) ensures k in c {
      InCut(c, j, k);
    }
  }

  /** After the node has been bypassed in its chain, everything but its own slot is in order. */
  lemma CutChained<K, V>(nodes: seq<Node<K, V>>, buckets: seq<int>, chains: seq<seq<nat>>, b: nat, j: nat, prev: int)
    requires Chained(nodes, buckets, chains) && b < |chains| && j < |chains[b]| &&
             Stands(chains[b], j, chains[b][j], prev)
    ensures chains[b][j] < |nodes| && prev < |nodes| && Live(nodes[chains[b][j]])
    ensures Chained(Bypassed(nodes, chains[b][j], prev), if prev < 0 then buckets[b := nodes[chains[b][j]].next]
            else buckets, chains[b := Cut(chains[b], j)])
  {
    hide Linked, NoDup, Bucketed;
    var c := chains[b];
    ChainOf(nodes, buckets, chains, b);
    CutLinked(nodes, buckets[b], c, j, prev);
    var nodes', buckets', chains' := Bypassed(nodes, c[j], prev), if prev < 0 then buckets[b := nodes[c[j]].next]
        else buckets, chains[b := Cut(c, j)];
    forall a | 0 <= a < |chains'| ensures Linked(nodes', buckets'[a], chains'[a]) && NoDup(chains'[a]) &&
        Bucketed(nodes', chains'[a], a, |buckets'|) {
      if a == b {
        CutBucketed(nodes, nodes', c, j, a, |buckets|);
      } else if prev >= 0 {
        NotShared(nodes, buckets, chains, a, b, c[j - 1]);
        Elsewhere(nodes, buckets[a], chains[a], c[j - 1], nodes'[c[j - 1]]);
        BucketedElsewhere(nodes, chains[a], a, |buckets|, c[j - 1], nodes'[c[j - 1]]);
      }
    }
  }

  lemma NotShared<K, V>(nodes: seq<Node<K, V>>, buckets: seq<int>, chains: seq<seq<nat>>, a: nat, b: nat, i: nat)
    requires Chained(nodes, buckets, chains) && a < |chains| && b < |chains| && a != b && i in chains[b]
    ensures i !in chains[a] && i < |nodes|
  {
    Member(nodes, buckets, chains, b, i);
    if i in chains[a] { Member(nodes, buckets, chains, a, i); }
  }

  /** A slot outside every chain becomes free. */
  lemma FreeKeeps<K, V>(nodes: seq<Node<K, V>>, buckets: seq<int>, chains: seq<seq<nat>>, head: int, free: seq<nat>,
        i: nat, n: Node<K, V>)
    requires Chained(nodes, buckets, chains) && Pooled(nodes, head, free) && i < |nodes| && Live(nodes[i]) &&
             !Live(n) && n.next == head
    requires forall b :: 0 <= b < |chains| ==> i !in chains[b]
    ensures Chained(nodes[i := n], buckets, chains) && Pooled(nodes[i := n], i, [i] + free)
  {
    hide Linked, NoDup, Bucketed;
    var nodes' := nodes[i := n];
    forall a | 0 <= a < |chains| ensures Linked(nodes', buckets[a], chains[a]) && NoDup(chains[a]) &&
        Bucketed(nodes', chains[a], a, |buckets|) {
      Elsewhere(nodes, buckets[a], chains[a], i, n);
      BucketedElsewhere(nodes, chains[a], a, |buckets|, i, n);
    }
    assert i !in free;
    Elsewhere(nodes, head, free, i, n);
    PutFirst(nodes', head, free, i);
    forall k | 0 <= k < |nodes'| ensures k in [i] + free <==> !Live(nodes'[k]) {
      if k in free { InTail(i, free, k); }
      if k == i { assert ([i] + free)[0] == k; }
      if k in [i] + free && k != i { InCons(i, free, k); }
    }
  }

  lemma CutCovered<K, V>(nodes: seq<Node<K, V>>, chains: seq<seq<nat>>, b: nat, j: nat, nodes': seq<Node<K, V>>)
    requires Covered(nodes, chains, |nodes|) && b < |chains| && j < |chains[b]| && NoDup(chains[b]) &&
             |nodes'| == |nodes|
    requires forall i :: 0 <= i < |nodes| ==> nodes'[i].hash == if i == chains[b][j] then SENTINEL else nodes[i].hash
    ensures Covered(nodes', chains[b := Cut(chains[b], j)], |nodes|)
  {
    var chains' := chains[b := Cut(chains[b], j)];
    forall i | 0 <= i < |nodes'| && Live(nodes'[i]) ensures i in chains'[nodes'[i].hash % |chains'|] {
      var a := nodes[i].hash % |chains|;
      assert i in chains[a];
      if a == b { InCut(chains[b], j, i); }
    }
  }

  lemma CutPlaced<K(!new), V>(nodes: seq<Node<K, V>>, place: map<K, nat>, hash: K -> nat, key: K, nodes': seq<Node<K,
        V>>)
    requires Placed(nodes, place, hash) && key in place && |nodes'| == |nodes| && !Live(nodes'[place[key]])
    requires forall i :: 0 <= i < |nodes| && i != place[key] ==>
               nodes'[i].key == nodes[i].key && nodes'[i].value == nodes[i].value && nodes'[i].hash == nodes[i].hash
    ensures Placed(nodes', place - {key}, hash) && Values(nodes', place - {key}) == Values(nodes, place) - {key}
  {
  }

  /** The state after a node has been bypassed and freed. */
  function Deleted<K, V>(nodes: seq<Node<K, V>>, idx: nat, prev: int, nil: K, head: int): seq<Node<K, V>>
    requires idx < |nodes| && prev < |nodes|
  {
    Bypassed(nodes, idx, prev)[idx := Node(nil, nodes[idx].value, SENTINEL, head)]
  }

  lemma DeletedIs<K, V>(nodes: seq<Node<K, V>>, idx: nat, prev: int, nil: K, head: int)
    requires idx < |nodes| && prev < |nodes|
    ensures var d := Deleted(nodes, idx, prev, nil, head);
            |d| == |nodes| && d[idx].hash == SENTINEL &&
            forall i :: 0 <= i < |nodes| && i != idx ==>
                  d[i].key == nodes[i].key && d[i].value == nodes[i].value && d[i].hash == nodes[i].hash
  {
  }

  lemma DeleteKeeps<K(!new), V>(nodes: seq<Node<K, V>>, buckets: seq<int>, chains: seq<seq<nat>>, head: int,
        free: seq<nat>,
                                place: map<K, nat>, hash: K -> nat, key: K, b: nat, j: nat, prev: int, nil: K)
    requires Chained(nodes, buckets, chains) && Covered(nodes, chains, |nodes|) && Pooled(nodes, head, free) &&
             Placed(nodes, place, hash)
    requires |chains| == |buckets| && b < |chains| && key in place && Stands(chains[b], j, place[key], prev)
    ensures place[key] < |nodes| && prev < |nodes| && PlaceSafe(nodes, place)
    ensures var idx := place[key];
            var nodes', chains' := Deleted(nodes, idx, prev, nil, head), chains[b := Cut(chains[b], j)];
            Chained(nodes', if prev < 0 then buckets[b := nodes[idx].next] else buckets, chains') &&
            Covered(nodes', chains', |nodes|) &&
            Pooled(nodes', idx, [idx] + free) && Placed(nodes', place - {key}, hash) &&
            Values(nodes', place - {key}) == Values(nodes, place) - {key}
  {
    hide Chained, Linked, NoDup, Bucketed, Covered, Placed, Pooled, Values, Bypassed, Deleted;
    var idx := place[key];
    var c := chains[b];
    PlaceIn(nodes, place, hash);
    ChainOf(nodes, buckets, chains, b);
    CutChained(nodes, buckets, chains, b, j, prev);
    DeletedIs(nodes, idx, prev, nil, head);
    DeleteFrees(nodes, buckets, chains, head, free, b, j, prev, nil);
    CutCovered(nodes, chains, b, j, Deleted(nodes, idx, prev, nil, head));
    CutPlaced(nodes, place, hash, key, Deleted(nodes, idx, prev, nil, head));
  }

  lemma DeleteFrees<K, V>(nodes: seq<Node<K, V>>, buckets: seq<int>, chains: seq<seq<nat>>, head: int, free: seq<nat>,
        b: nat, j: nat, prev: int, nil: K)
    requires Chained(nodes, buckets, chains) && Pooled(nodes, head, free) && |chains| == |buckets| && b < |chains| &&
             j < |chains[b]|
    requires Stands(chains[b], j, chains[b][j], prev) && chains[b][j] < |nodes| && prev < |nodes| &&
             Live(nodes[chains[b][j]])
    ensures var idx := chains[b][j];
            var nodes' := Deleted(nodes, idx, prev, nil, head);
            Chained(nodes', if prev < 0 then buckets[b := nodes[idx].next]
                else buckets, chains[b := Cut(chains[b], j)]) && Pooled(nodes', idx, [idx] + free)
  {
    hide Chained, Linked, NoDup, Bucketed, Pooled;
    var c, idx := chains[b], chains[b][j];
    var mid, chains' := Bypassed(nodes, idx, prev), chains[b := Cut(c, j)];
    var buckets' := if prev < 0 then buckets[b := nodes[idx].next] else buckets;
    ChainOf(nodes, buckets, chains, b);
    CutChained(nodes, buckets, chains, b, j, prev);
    forall a | 0 <= a < |chains'| ensures idx !in chains'[a] {
      if a == b { InCut(c, j, idx); } else { NotShared(nodes, buckets, chains, a, b, idx); }
    }
    BypassPooled(nodes, head, free, idx, prev);
    FreeKeeps(mid, buckets', chains', head, free, idx, Node(nil, nodes[idx].value, SENTINEL, head));
  }

  lemma BypassPooled<K, V>(nodes: seq<Node<K, V>>, head: int, free: seq<nat>, idx: nat, prev: int)
    requires Pooled(nodes, head, free) && idx < |nodes| && prev < |nodes| && (prev >= 0 ==> Live(nodes[prev]))
    ensures Pooled(Bypassed(nodes, idx, prev), head, free)
  {
    if prev >= 0 {
      Elsewhere(nodes, head, free, prev, nodes[prev].(next := nodes[idx].next));
    }
  }

  lemma KeysOf<K(!new), V>(nodes: seq<Node<K, V>>, place: map<K, nat>)
    requires PlaceSafe(nodes, place)
    ensures Values(nodes, place).Keys == place.Keys
  {
  }

  lemma NotThere<K, V>(m: map<K, V>, key: K)
    requires key !in m
    ensures m - {key} == m
  {
  }

  /** Below the load limit there is room for one more, the bucket count being a multiple of 8. */
  lemma RoomForOne(count: nat, n: nat)
    requires Doubled(n) && count * 8 < n * 7
    ensures (count + 1) * 8 <= n * 7
  {
    assert n * 7 == (n / 8) * 7 * 8;
  }

  lemma KeyAt<K(!new), V>(nodes: seq<Node<K, V>>, place: map<K, nat>, hash: K -> nat, key: K)
    requires Placed(nodes, place, hash) && key in place
    ensures place[key] < |nodes| && Live(nodes[place[key]]) && nodes[place[key]].key == key
  {
  }

  lemma FreeFirst<K, V>(nodes: seq<Node<K, V>>, head: int, free: seq<nat>)
    requires Pooled(nodes, head, free)
    ensures head == First(free) && (free != [] ==> free[0] < |nodes|)
  {
    if free != [] { LinkAt(nodes, head, free, 0); }
  }

  class HashMap<K(==, !new), V> {
    const hash: K -> nat
    const nil: K
    const none: V
    var buckets: seq<int>
    var nodes: seq<Node<K, V>>
    var count: nat
    var freeHead: int
    ghost var chains: seq<seq<nat>>
    ghost var free: seq<nat>
    ghost var place: map<K, nat>

    ghost predicate Valid()
      reads this
    {
      (forall k :: hash(k) < SENTINEL) &&
      Chained(nodes, buckets, chains) && Covered(nodes, chains, |nodes|) && Pooled(nodes, freeHead, free) &&
      Placed(nodes, place, hash) &&
      count == |place| && count + |free| == |nodes| && Doubled(|buckets|) && Doubled(|nodes|) &&
      (|buckets| == 0 <==> |nodes| == 0) &&
      count * 8 <= |buckets| * 7
    }

    /** The mathematical map the table stands for. */
    ghost function Contents(): map<K, V>
      requires Valid()
      reads this
    {
      PlaceIn(nodes, place, hash);
      Values(nodes, place)
    }

    constructor (hash: K -> nat, nil: K, none: V)
      requires forall k :: hash(k) < SENTINEL
      ensures Valid() && Contents() == map[]
    {
      this.hash, this.nil, this.none := hash, nil, none;
      buckets, nodes, count, freeHead := [], [], 0, -1;
      chains, free, place := [], [], map[];
      hide Chained, Covered, Pooled, Placed, Doubled, Values;
      Nothing<K, V>(hash);
    }

    /** Walks the chain of the key's bucket. prev is the node before the one found. */
    method Walk(key: K) returns (idx: int, prev: int)
      requires Valid() && |buckets| > 0
      ensures idx == if key in place then place[key] else -1
      ensures idx != -1 ==> exists j :: Stands(chains[hash(key) % |buckets|], j, idx, prev)
    {
      hide Chained, Covered, Pooled, Placed, Linked, Doubled;
      var h := hash(key);
      var b := h % |buckets|;
      ChainOf(nodes, buckets, chains, b);
      ghost var c := chains[b];
      ghost var j := 0;
      LinkAt(nodes, buckets[b], c, 0);
      idx, prev := buckets[b], -1;
      while idx != -1
        invariant 0 <= j <= |c| && idx == (if j < |c| then c[j] else -1) && prev == if j == 0 then -1 else c[j - 1]
        invariant forall t :: 0 <= t < j ==> nodes[c[t]].key != key
        decreases |c| - j
      {
        PlaceOf(nodes, place, hash, c[j]);
        LinkAt(nodes, buckets[b], c, j);
        if nodes[idx].hash == h && nodes[idx].key == key {
          assert Stands(c, j, idx, prev);
          return;
        }
        prev := idx;
        idx := nodes[idx].next;
        j := j + 1;
      }
      if key in place {
        BucketCount(nodes, buckets, chains);
        KeyInChain(nodes, chains, place, hash, key);
      }
    }

    method Get(key: K) returns (value: V, found: bool)
      requires Valid()
      ensures found == (key in Contents()) && value == if found then Contents()[key] else none
    {
      hide Chained, Covered, Pooled, Placed, Doubled;
      PlaceIn(nodes, place, hash);
      if count == 0 {
        return none, false;
      }
      SomeBuckets(nodes, freeHead, free, count);
      var idx, _ := Walk(key);
      if idx != -1 {
        return nodes[idx].value, true;
      }
      return none, false;
    }

    method Contains(key: K) returns (found: bool)
      requires Valid()
      ensures found == (key in Contents())
    {
      hide Chained, Covered, Pooled, Placed, Doubled;
      PlaceIn(nodes, place, hash);
      if count == 0 {
        return false;
      }
      SomeBuckets(nodes, freeHead, free, count);
      var idx, _ := Walk(key);
      return idx != -1;
    }

    method Clear()
      requires Valid()
      modifies this
      ensures Valid() && Contents() == map[]
    {
      hide Chained, Covered, Pooled, Placed, Doubled, Values;
      buckets, nodes, count, freeHead := [], [], 0, -1;
      chains, free, place := [], [], map[];
      Nothing<K, V>(hash);
    }

    /** Empties the buckets and links every live node again, by its hash. */
    method RebuildBuckets()
      requires Pooled(nodes, freeHead, free) && Placed(nodes, place, hash) && |buckets| > 0
      modifies `buckets, `nodes, `chains
      ensures |buckets| == old(|buckets|) && |nodes| == old(|nodes|)
      ensures Chained(nodes, buckets, chains) && Covered(nodes, chains, |nodes|) && Pooled(nodes, freeHead, free) &&
              Placed(nodes, place, hash)
      ensures PlaceSafe(nodes, place) && Values(nodes, place) == Values(old(nodes), place)
    {
      hide Chained, Covered, Pooled, Placed;
      var n := |buckets|;
      buckets := seq(n, _ => -1);
      chains := seq(n, _ => []);
      FreshBuckets(nodes, n);
      PlaceIn(nodes, place, hash);
      var i := 0;
      while i < |nodes|
        invariant 0 <= i <= |nodes| == |old(nodes)| && |buckets| == n
        invariant Chained(nodes, buckets, chains) && Covered(nodes, chains, i) && Pooled(nodes, freeHead, free) &&
                  Placed(nodes, place, hash)
        invariant PlaceSafe(nodes, place) && Values(nodes, place) == Values(old(nodes), place)
        invariant forall b, k :: 0 <= b < |chains| && k in chains[b] ==> k < i
      {
        BucketCount(nodes, buckets, chains);
        if nodes[i].hash != SENTINEL {
          var b := nodes[i].hash % n;
          var node := nodes[i].(next := buckets[b]);
          LinkFront(nodes, buckets, chains, i, node);
          FrontCovered(nodes, chains, i, i, node);
          RelinkKeeps(nodes, freeHead, free, place, hash, i, buckets[b]);
          nodes := nodes[i := node];
          buckets := buckets[b := i];
          chains := chains[b := [i] + chains[b]];
        } else {
          SkipCovered(nodes, chains, i);
        }
        i := i + 1;
      }
    }

    method GrowBuckets()
      requires Pooled(nodes, freeHead, free) && Placed(nodes, place, hash) && Doubled(|buckets|)
      modifies `buckets, `nodes, `chains
      ensures |buckets| == (if old(|buckets|) == 0 then 16 else old(|buckets|) * 2) && |nodes| == old(|nodes|) &&
              Doubled(|buckets|)
      ensures Chained(nodes, buckets, chains) && Covered(nodes, chains, |nodes|) && Pooled(nodes, freeHead, free) &&
              Placed(nodes, place, hash)
      ensures PlaceSafe(nodes, place) && Values(nodes, place) == Values(old(nodes), place)
    {
      hide Chained, Covered, Pooled, Placed, Doubled;
      PlaceIn(nodes, place, hash);
      DoubledGrows(|buckets|);
      buckets := seq(if |buckets| == 0 then 16 else |buckets| * 2, _ => -1);
      RebuildBuckets();
    }

    method GrowNodes()
      requires Chained(nodes, buckets, chains) && Covered(nodes, chains, |nodes|) && Pooled(nodes, freeHead, free) &&
               Placed(nodes, place, hash)
      requires Doubled(|nodes|)
      modifies `nodes, `freeHead, `free
      ensures |nodes| == (if old(|nodes|) == 0 then 16 else old(|nodes|) * 2) && Doubled(|nodes|)
      ensures Chained(nodes, buckets, chains) && Covered(nodes, chains, |nodes|) && Pooled(nodes, freeHead, free) &&
              Placed(nodes, place, hash)
      ensures |free| == |old(free)| + |nodes| - |old(nodes)| && PlaceSafe(old(nodes), place) && PlaceSafe(nodes, place)
      ensures Values(nodes, place) == Values(old(nodes), place)
    {
      hide Chained, Covered, Pooled, Placed, Doubled;
      PlaceIn(nodes, place, hash);
      DoubledGrows(|nodes|);
      ghost var was := nodes;
      var oldCap := |nodes|;
      var newCap := if oldCap == 0 then 16 else oldCap * 2;
      var i := oldCap;
      assert was == nodes[..|was|];
      while i < newCap
        invariant oldCap <= i <= newCap && |nodes| == i && Extended(was, nodes, freeHead, newCap) &&
                  freeHead == old(freeHead) && free == old(free)
      {
        nodes := nodes + [Node(nil, none, SENTINEL, if i + 1 < newCap then i + 1 else freeHead)];
        assert was == nodes[..|was|];
        i := i + 1;
      }
      GrowKeeps(was, nodes, buckets, chains, freeHead, free, place, hash);
      PlaceIn(nodes, place, hash);
      freeHead := oldCap;
      free := Run(oldCap, newCap) + free;
    }

    /** The first free slot; the pool grows when there is none. */
    method AllocNode() returns (idx: nat)
      requires Chained(nodes, buckets, chains) && Covered(nodes, chains, |nodes|) && Pooled(nodes, freeHead, free) &&
               Placed(nodes, place, hash)
      requires Doubled(|nodes|) && count + |free| == |nodes|
      modifies `nodes, `freeHead, `free
      ensures Chained(nodes, buckets, chains) && Covered(nodes, chains, |nodes|) && Placed(nodes, place, hash) &&
              Doubled(|nodes|)
      ensures |free| > 0 && count + |free| == |nodes| && Pooled(nodes, idx, free) && idx == free[0] && idx < |nodes| &&
              freeHead == nodes[idx].next
      ensures PlaceSafe(old(nodes), place) && PlaceSafe(nodes, place) &&
              Values(nodes, place) == Values(old(nodes), place)
    {
      hide Chained, Covered, Placed, Doubled, Values;
      PlaceIn(nodes, place, hash);
      if freeHead == -1 {
        GrowNodes();
      }
      FreeFirst(nodes, freeHead, free);
      idx := freeHead;
      freeHead := nodes[idx].next;
    }

    /** Adds the key or replaces its value. */
    method Put(key: K, value: V) returns (isNew: bool)
      requires Valid()
      modifies this
      ensures Valid() && Contents() == old(Contents())[key := value] && isNew == (key !in old(Contents()))
    {
      hide Chained, Covered, Pooled, Placed, Doubled, Values;
      Provide();
      PlaceIn(nodes, place, hash);
      KeysOf(nodes, place);
      var h := hash(key);
      var b := h % |buckets|;
      var idx, _ := Walk(key);
      if idx != -1 {
        Replace(key, idx, value);
        return false;
      }
      InsertFirst(key, value, h, b);
      return true;
    }

    method Replace(key: K, idx: nat, value: V)
      requires Valid() && key in place && idx == place[key]
      modifies `nodes
      ensures Valid() && Contents() == old(Contents())[key := value]
    {
      hide Chained, Covered, Pooled, Placed, Doubled, Values;
      KeyAt(nodes, place, hash, key);
      UpdateKeeps(nodes, buckets, chains, freeHead, free, place, hash, idx, value);
      nodes := nodes[idx := nodes[idx].(value := value)];
      PlaceIn(nodes, place, hash);
    }

    /** A new node at the head of the bucket's chain. */
    method InsertFirst(key: K, value: V, h: nat, b: nat)
      requires Valid() && key !in place && h == hash(key) && |buckets| > 0 && b == h % |buckets| &&
               (count + 1) * 8 <= |buckets| * 7
      modifies this
      ensures Valid() && Contents() == old(Contents())[key := value]
    {
      hide Chained, Covered, Pooled, Placed, Doubled, Values;
      PlaceIn(nodes, place, hash);
      var ni := AllocNode();
      var node := Node(key, value, h, buckets[b]);
      InsertKeeps(nodes, buckets, chains, ni, free, place, hash, node);
      nodes := nodes[ni := node];
      buckets := buckets[b := ni];
      count := count + 1;
      chains := chains[b := [ni] + chains[b]];
      free := free[1..];
      place := place[key := ni];
      PlaceIn(nodes, place, hash);
    }

    /** Before an insertion there are buckets, and room for one more entry under the load limit. */
    method Provide()
      requires Valid()
      modifies `nodes, `buckets, `chains, `freeHead, `free
      ensures Valid() && |buckets| > 0 && (count + 1) * 8 <= |buckets| * 7
      ensures Contents() == old(Contents())
    {
      hide Chained, Covered, Pooled, Placed, Values, Doubled;
      PlaceIn(nodes, place, hash);
      if |buckets| == 0 {
        GrowNodes();
        GrowBuckets();
      }
      if count * 8 >= |buckets| * 7 {
        GrowBuckets();
      }
      RoomForOne(count, |buckets|);
    }

    /** Removes the key; its node goes back to the pool. */
    method Delete(key: K) returns (found: bool)
      requires Valid()
      modifies this
      ensures Valid() && Contents() == old(Contents()) - {key} && found == (key in old(Contents()))
    {
      hide Chained, Covered, Pooled, Placed, Doubled, Values;
      PlaceIn(nodes, place, hash);
      KeysOf(nodes, place);
      if key !in place { NotThere(Contents(), key); }
      if count == 0 {
        return false;
      }
      SomeBuckets(nodes, freeHead, free, count);
      BucketCount(nodes, buckets, chains);
      var b := hash(key) % |buckets|;
      var idx, prev := Walk(key);
      if idx == -1 {
        return false;
      }
      ghost var c := chains[b];
      ghost var j :| Stands(c, j, idx, prev);
      DeleteKeeps(nodes, buckets, chains, freeHead, free, place, hash, key, b, j, prev, nil);
      if prev == -1 {
        buckets := buckets[b := nodes[idx].next];
      } else {
        nodes := nodes[prev := nodes[prev].(next := nodes[idx].next)];
      }
      FreeNode(idx);
      count := count - 1;
      chains := chains[b := Cut(c, j)];
      free := [idx] + free;
      place := place - {key};
      PlaceIn(nodes, place, hash);
      return true;
    }

    method FreeNode(idx: nat)
      requires idx < |nodes|
      modifies `nodes, `freeHead
      ensures nodes == old(nodes)[idx := Node(nil, old(nodes)[idx].value, SENTINEL, old(freeHead))] && freeHead == idx
    {
      nodes := nodes[idx := Node(nil, nodes[idx].value, SENTINEL, freeHead)];
      freeHead := idx;
    }
  }
}
