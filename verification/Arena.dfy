/** The bucketed pool allocator: fixed-size blocks carved out of chunks, one intrusive free list per
    bucket, and an intrusive doubly-linked list of the allocations too large for any bucket.
    Addresses are integers with 0 for null; where the host allocator puts memory is a parameter. */
module ArenaAllocator {
  type byte = x: int | 0 <= x < 256

  /** What memory holds at an address: a byte, or a pointer that starts there. */
  datatype Cell = Byte(value: byte) | Link(to: int)

  const CHUNK_SIZE := 16384
  const MAX_BLOCK := 640
  const NUM_BUCKETS := 14
  const HEADER_SIZE := 16
  const BLOCK_SIZES: seq<nat> := [16, 32, 64, 96, 128, 160, 192, 224, 256, 320, 384, 448, 512, 640]

  function BlockSize(b: nat): (n: nat)
    requires b < NUM_BUCKETS
    ensures 16 <= n <= MAX_BLOCK
  {
    BLOCK_SIZES[b]
  }

  /** The smallest bucket from j on whose blocks hold the size. */
  function BucketFrom(size: nat, j: nat): (b: nat)
    requires 0 < size <= MAX_BLOCK && j < NUM_BUCKETS && (j > 0 ==> size > BlockSize(j - 1))
    ensures j <= b < NUM_BUCKETS && size <= BlockSize(b) && (b > 0 ==> size > BlockSize(b - 1))
    decreases NUM_BUCKETS - j
  {
    if size <= BlockSize(j) then j else BucketFrom(size, j + 1)
  }

  function Bucket(size: nat): (b: nat)
    requires 0 < size <= MAX_BLOCK
    ensures b < NUM_BUCKETS && size <= BlockSize(b) && (b > 0 ==> size > BlockSize(b - 1))
  {
    BucketFrom(size, 0)
  }

  lemma Ascending(i: nat, j: nat)
    requires i < j < NUM_BUCKETS
    ensures BlockSize(i) < BlockSize(j)
  {
  }

  lemma BucketUnique(size: nat, b: nat)
    requires 0 < size <= MAX_BLOCK && b < NUM_BUCKETS && size <= BlockSize(b) && (b > 0 ==> size > BlockSize(b - 1))
    ensures Bucket(size) == b
  {
    hide BlockSize;
    var c := Bucket(size);
    if c < b - 1 { Ascending(c, b - 1); }
    if b < c - 1 { Ascending(b, c - 1); }
  }

  /** Consecutive block sizes differ, so the table needs to move on at most once per size. */
  lemma OneStep(i: nat, j: nat)
    requires 0 < i <= MAX_BLOCK && j < NUM_BUCKETS && i > BlockSize(j)
    ensures j + 1 < NUM_BUCKETS && BlockSize(j) < BlockSize(j + 1)
  {
    if j + 1 < NUM_BUCKETS { Ascending(j, j + 1); }
  }

  lemma FirstSize()
    ensures BlockSize(0) == 16
  {
  }

  /** The table that maps a size to its bucket, filled by one pass over the sizes. */
  method BuildLookup() returns (lookup: seq<nat>)
    ensures |lookup| == MAX_BLOCK + 1
    ensures forall i :: 1 <= i <= MAX_BLOCK ==> lookup[i] == Bucket(i)
  {
    hide BlockSize, Bucket;
    lookup := [0];
    var j := 0;
    var i := 1;
    FirstSize();
    while i <= MAX_BLOCK
      invariant 1 <= i <= MAX_BLOCK + 1 && |lookup| == i && j < NUM_BUCKETS
      invariant forall k :: 1 <= k < i ==> lookup[k] == Bucket(k)
      invariant i <= BlockSize(j) + 1 && (j > 0 ==> i > BlockSize(j - 1))
    {
      if i > BlockSize(j) {
        OneStep(i, j);
        j := j + 1;
      }
      BucketUnique(i, j);
      lookup := lookup + [j];
      i := i + 1;
    }
  }

  // ---------------------------------------------------------------- where blocks are

  datatype Chunk = Chunk(base: int, bucket: nat)

  /** A block is the index-th one of a chunk. */
  datatype Slot = Slot(chunk: nat, index: nat)

  /** Everything the allocator's pointers stand for: the chunks, which blocks they were carved into,
      the free lists, the list of large headers, and the live allocations with their sizes. */
  datatype Shape = Shape(chunks: seq<Chunk>, blocks: map<int, Slot>, frees: seq<seq<int>>, order: seq<int>,
      live: map<int, nat>)

  function Count(b: nat): (n: nat)
    requires b < NUM_BUCKETS
    ensures n > 1
  {
    Roomy(b);
    CHUNK_SIZE / BlockSize(b)
  }

  lemma Roomy(b: nat)
    requires b < NUM_BUCKETS
    ensures CHUNK_SIZE / BlockSize(b) > 1
  {
    var n := BlockSize(b);
    assert CHUNK_SIZE == (CHUNK_SIZE / n) * n + CHUNK_SIZE % n;
  }

  function Addr(c: Chunk, i: int): int
    requires c.bucket < NUM_BUCKETS
  {
    c.base + i * BlockSize(c.bucket)
  }

  predicate Apart(a: int, n: int, b: int, m: int) {
    a + n <= b || b + m <= a
  }

  lemma AddrApart(c: Chunk, i: int, j: int)
    requires c.bucket < NUM_BUCKETS && i < j
    ensures Addr(c, i) + BlockSize(c.bucket) <= Addr(c, j)
  {
    var n := BlockSize(c.bucket);
    assert (j - i) * n >= n;
    assert j * n == (j - i) * n + i * n;
  }

  lemma AddrWithin(c: Chunk, i: nat)
    requires c.bucket < NUM_BUCKETS && i < Count(c.bucket)
    ensures c.base <= Addr(c, i) && Addr(c, i) + BlockSize(c.bucket) <= c.base + CHUNK_SIZE
  {
    var n := BlockSize(c.bucket);
    var k := CHUNK_SIZE / n;
    assert CHUNK_SIZE == k * n + CHUNK_SIZE % n;
    assert (k - 1 - i) * n >= 0;
    assert (i + 1) * n <= k * n;
  }

  ghost predicate Sits(chunks: seq<Chunk>, p: int, s: Slot) {
    s.chunk < |chunks| && chunks[s.chunk].bucket < NUM_BUCKETS && s.index < Count(chunks[s.chunk].bucket) &&
    p == Addr(chunks[s.chunk], s.index)
  }

  ghost predicate Carved(chunks: seq<Chunk>, blocks: map<int, Slot>) {
    (forall c :: c in chunks ==> c.bucket < NUM_BUCKETS && c.base > 0) &&
    forall p :: p in blocks ==> Sits(chunks, p, blocks[p])
  }

  function BucketOf(s: Shape, p: int): (b: nat)
    requires p in s.blocks && Carved(s.chunks, s.blocks)
    ensures b < NUM_BUCKETS
  {
    s.chunks[s.blocks[p].chunk].bucket
  }

  predicate NoDup(l: seq<int>) {
    forall i, j :: 0 <= i < j < |l| ==> l[i] != l[j]
  }

  predicate Big(live: map<int, nat>, p: int) {
    p in live && live[p] > MAX_BLOCK
  }

  /** A live allocation that a pool block holds. */
  ghost predicate Pooled(s: Shape, p: int)
    requires p in s.live && Carved(s.chunks, s.blocks)
  {
    0 < s.live[p] <= MAX_BLOCK && p in s.blocks && Bucket(s.live[p]) == BucketOf(s, p)
  }

  /** A block on the free list of bucket b: carved with that bucket's size, and not live. */
  ghost predicate Free(s: Shape, p: int, b: nat)
    requires Carved(s.chunks, s.blocks)
  {
    p in s.blocks && BucketOf(s, p) == b && p !in s.live
  }

  /** Every block is live or on its own bucket's free list, and not both. */
  ghost predicate Partitioned(s: Shape)
    requires Carved(s.chunks, s.blocks)
  {
    |s.frees| == NUM_BUCKETS &&
    (forall b, p :: 0 <= b < NUM_BUCKETS && p in s.frees[b] ==> Free(s, p, b)) &&
    (forall b :: 0 <= b < NUM_BUCKETS ==> NoDup(s.frees[b])) &&
    (forall p :: p in s.blocks && p !in s.live ==> p in s.frees[BucketOf(s, p)]) &&
    forall p :: p in s.live && s.live[p] <= MAX_BLOCK ==> Pooled(s, p)
  }

  /** The large list has exactly the headers of the live large allocations. */
  ghost predicate Listed(order: seq<int>, live: map<int, nat>) {
    NoDup(order) &&
    (forall h :: h in order ==> h > 0 && Big(live, h + HEADER_SIZE)) &&
    forall p :: Big(live, p) ==> p - HEADER_SIZE in order
  }

  /** No region the host gave out overlaps the n addresses at a. */
  ghost predicate Vacant(chunks: seq<Chunk>, live: map<int, nat>, a: int, n: int) {
    a > 0 && (forall c :: c in chunks ==> Apart(c.base, CHUNK_SIZE, a, n)) &&
    forall p :: Big(live, p) ==> Apart(p - HEADER_SIZE, live[p] + HEADER_SIZE, a, n)
  }

  /** The regions the host gave out do not overlap. */
  ghost predicate Spread(chunks: seq<Chunk>, live: map<int, nat>) {
    (forall i, j :: 0 <= i < j < |chunks| ==> Apart(chunks[i].base, CHUNK_SIZE, chunks[j].base, CHUNK_SIZE)) &&
    (forall c, p :: c in chunks && Big(live, p) ==>
          Apart(c.base, CHUNK_SIZE, p - HEADER_SIZE, live[p] + HEADER_SIZE)) &&
    forall p, q :: Big(live, p) && Big(live, q) && p != q ==>
          Apart(p - HEADER_SIZE, live[p] + HEADER_SIZE, q - HEADER_SIZE, live[q] + HEADER_SIZE)
  }

  ghost predicate Sound(s: Shape) {
    Carved(s.chunks, s.blocks) && Partitioned(s) && Listed(s.order, s.live) && Spread(s.chunks, s.live)
  }

  lemma BlocksApart(s: Shape, p: int, q: int)
    requires Sound(s) && p in s.blocks && q in s.blocks && p != q
    ensures Apart(p, BlockSize(BucketOf(s, p)), q, BlockSize(BucketOf(s, q)))
  {
    hide Partitioned, Listed, Count, Addr, Bucket, BlockSize;
    var x, y := s.blocks[p], s.blocks[q];
    if x.chunk == y.chunk {
      if x.index < y.index { AddrApart(s.chunks[x.chunk], x.index, y.index); }
      if y.index < x.index { AddrApart(s.chunks[x.chunk], y.index, x.index); }
    } else {
      AddrWithin(s.chunks[x.chunk], x.index);
      AddrWithin(s.chunks[y.chunk], y.index);
    }
  }

  lemma BlockBigApart(s: Shape, p: int, q: int)
    requires Sound(s) && p in s.blocks && Big(s.live, q)
    ensures Apart(p, BlockSize(BucketOf(s, p)), q - HEADER_SIZE, s.live[q] + HEADER_SIZE)
  {
    hide Partitioned, Listed, Count, Addr, Bucket, BlockSize;
    AddrWithin(s.chunks[s.blocks[p].chunk], s.blocks[p].index);
    assert s.chunks[s.blocks[p].chunk] in s.chunks;
  }

  /** Two live allocations never overlap. */
  lemma LiveApart(s: Shape, p: int, q: int)
    requires Sound(s) && p in s.live && q in s.live && p != q
    ensures Apart(p, s.live[p], q, s.live[q])
  {
    hide Listed, Count, Addr, Bucket, BlockSize, Carved;
    if Big(s.live, p) && Big(s.live, q) {
    } else if Big(s.live, q) {
      BlockBigApart(s, p, q);
    } else if Big(s.live, p) {
      BlockBigApart(s, q, p);
    } else {
      BlocksApart(s, p, q);
    }
  }

  /** No part of a free block is inside a live allocation. */
  lemma FreeApart(s: Shape, b: nat, f: int, q: int)
    requires Sound(s) && b < NUM_BUCKETS && f in s.frees[b] && q in s.live
    ensures Apart(f, BlockSize(b), q, s.live[q])
  {
    hide Listed, Count, Addr, Bucket, BlockSize, Carved;
    assert Free(s, f, b);
    if Big(s.live, q) { BlockBigApart(s, f, q); } else { BlocksApart(s, f, q); }
  }

  /** Large headers are outside every live allocation's bytes. */
  lemma HeaderApart(s: Shape, h: int, q: int)
    requires Sound(s) && h in s.order && q in s.live
    ensures Apart(h, HEADER_SIZE, q, s.live[q])
  {
    hide Count, Addr, Bucket, BlockSize, Carved;
    var p := h + HEADER_SIZE;
    assert Big(s.live, p);
    if Big(s.live, q) {
      if p != q { LiveApart(s, p, q);
      assert Apart(p - HEADER_SIZE, s.live[p] + HEADER_SIZE, q - HEADER_SIZE, s.live[q] + HEADER_SIZE); }
    } else {
      BlockBigApart(s, q, p);
    }
  }

  // ---------------------------------------------------------------- how the shape changes

  function Without(live: map<int, nat>, p: int): map<int, nat> {
    live - {p}
  }

  function Popped(s: Shape, b: nat, size: nat): Shape
    requires b < |s.frees| && s.frees[b] != []
  {
    s.(frees := s.frees[b := s.frees[b][1..]], live := s.live[s.frees[b][0] := size])
  }

  function Pushed(s: Shape, b: nat, p: int): Shape
    requires b < |s.frees|
  {
    s.(frees := s.frees[b := [p] + s.frees[b]], live := Without(s.live, p))
  }

  lemma HeadGone(l: seq<int>)
    requires l != [] && NoDup(l)
    ensures l[0] !in l[1..] && NoDup(l[1..])
  {
    forall k | 0 <= k < |l[1..]| ensures l[1..][k] != l[0] { assert l[1..][k] == l[k + 1]; }
  }

  lemma PopKeeps(s: Shape, size: nat)
    requires Sound(s) && 0 < size <= MAX_BLOCK && s.frees[Bucket(size)] != []
    ensures Sound(Popped(s, Bucket(size), size)) && s.frees[Bucket(size)][0] !in s.live && s.frees[Bucket(size)][0] > 0
  {
    hide Bucket, BlockSize, Count;
    var b := Bucket(size);
    var f := s.frees[b][0];
    var t := Popped(s, b, size);
    HeadGone(s.frees[b]);
    assert Free(s, f, b);
    AddrWithin(s.chunks[s.blocks[f].chunk], s.blocks[f].index);
    assert s.chunks[s.blocks[f].chunk] in s.chunks;
    forall p | Big(t.live, p) ensures Big(s.live, p) && t.live[p] == s.live[p] {}
    forall p | Big(s.live, p) ensures Big(t.live, p) && t.live[p] == s.live[p] {}
    forall c, p | 0 <= c < NUM_BUCKETS && p in t.frees[c] ensures Free(t, p, c) {
      assert p in s.frees[c];
      assert Free(s, p, c);
    }
    forall p | p in t.blocks && p !in t.live ensures p in t.frees[BucketOf(t, p)] {
      var c := BucketOf(s, p);
      assert p in s.frees[c];
      if c == b {
        assert s.frees[b] == [f] + s.frees[b][1..];
      }
    }
    forall p | p in t.live && t.live[p] <= MAX_BLOCK ensures Pooled(t, p) {
      if p != f { assert Pooled(s, p); }
    }
  }

  lemma PushKeeps(s: Shape, p: int)
    requires Sound(s) && p in s.live && s.live[p] <= MAX_BLOCK
    ensures Pooled(s, p) && Sound(Pushed(s, Bucket(s.live[p]), p))
  {
    hide Bucket, BlockSize, Count;
    assert Pooled(s, p);
    var b := Bucket(s.live[p]);
    var t := Pushed(s, b, p);
    forall q | Big(t.live, q) ensures Big(s.live, q) && t.live[q] == s.live[q] {}
    forall q | Big(s.live, q) ensures Big(t.live, q) && t.live[q] == s.live[q] {}
    forall c, q | 0 <= c < NUM_BUCKETS && q in t.frees[c] ensures Free(t, q, c) {
      if q != p || c != b {
        assert q in s.frees[c];
        assert Free(s, q, c);
      }
    }
    forall q | q in t.blocks && q !in t.live ensures q in t.frees[BucketOf(t, q)] {
      if q != p { assert q in s.frees[BucketOf(s, q)]; }
    }
    forall q | q in t.live && t.live[q] <= MAX_BLOCK ensures Pooled(t, q) {
      assert Pooled(s, q);
    }
    assert NoDup(t.frees[b]) by {
      assert p !in s.frees[b];
    }
  }

  /** The first k blocks of a chunk. */
  function Carving(c: Chunk, n: nat, k: nat): (m: map<int, Slot>)
    requires c.bucket < NUM_BUCKETS
  {
    if k == 0 then map[] else Carving(c, n, k - 1)[Addr(c, k - 1) := Slot(n, k - 1)]
  }

  lemma {:induction false} CarvingHas(c: Chunk, n: nat, k: nat)
    requires c.bucket < NUM_BUCKETS
    ensures forall p :: p in Carving(c, n, k) ==>
              Carving(c, n, k)[p].index < k && Carving(c, n, k)[p].chunk == n && p == Addr(c, Carving(c, n, k)[p].index)
    ensures forall i :: 0 <= i < k ==> Addr(c, i) in Carving(c, n, k) && Carving(c, n, k)[Addr(c, i)] == Slot(n, i)
  {
    hide Addr;
    if k > 0 {
      CarvingHas(c, n, k - 1);
      forall i | 0 <= i < k - 1 ensures Addr(c, i) != Addr(c, k - 1) {
        AddrApart(c, i, k - 1);
      }
    }
  }

  /** The blocks of a chunk from the i-th on. */
  function Rest(c: Chunk, i: nat): (l: seq<int>)
    requires c.bucket < NUM_BUCKETS && i <= Count(c.bucket)
    ensures |l| == Count(c.bucket) - i
  {
    seq(Count(c.bucket) - i, k requires 0 <= k < Count(c.bucket) - i => Addr(c, i + k))
  }

  /** A new chunk whose first block is handed out and whose others become the bucket's free list. */
  function Grown(s: Shape, base: int, size: nat): Shape
    requires 0 < size <= MAX_BLOCK && |s.frees| == NUM_BUCKETS
  {
    var c := Chunk(base, Bucket(size));
    Shape(s.chunks + [c], s.blocks + Carving(c, |s.chunks|, Count(c.bucket)), s.frees[c.bucket := Rest(c, 1)], s.order,
        s.live[Addr(c, 0) := size])
  }

  /** Old blocks are outside the new chunk. */
  lemma NewChunkApart(s: Shape, c: Chunk, p: int, i: nat)
    requires Sound(s) && Vacant(s.chunks, s.live, c.base, CHUNK_SIZE) && p in s.blocks
    requires c.bucket < NUM_BUCKETS && i < Count(c.bucket)
    ensures p != Addr(c, i)
  {
    hide Partitioned, Listed, Spread, Addr, Bucket, BlockSize, Count;
    AddrWithin(s.chunks[s.blocks[p].chunk], s.blocks[p].index);
    assert s.chunks[s.blocks[p].chunk] in s.chunks;
    AddrWithin(c, i);
  }

  lemma NewChunkNotLive(s: Shape, c: Chunk, p: int, i: nat)
    requires Sound(s) && Vacant(s.chunks, s.live, c.base, CHUNK_SIZE) && p in s.live
    requires c.bucket < NUM_BUCKETS && i < Count(c.bucket)
    ensures p != Addr(c, i)
  {
    hide Addr, Bucket, BlockSize, Count;
    if Big(s.live, p) { AddrWithin(c, i); } else { assert Pooled(s, p); NewChunkApart(s, c, p, i); }
  }

  /** What the block table says after carving. */
  predicate Extends(s: Shape, t: Shape, c: Chunk)
    requires c.bucket < NUM_BUCKETS
  {
    (forall p :: p in s.blocks ==> p in t.blocks && t.blocks[p] == s.blocks[p]) &&
    (forall i :: 0 <= i < Count(c.bucket) ==> Addr(c, i) in t.blocks && t.blocks[Addr(c, i)] == Slot(|s.chunks|, i)) &&
    forall p :: p in t.blocks && p !in s.blocks ==>
          t.blocks[p].chunk == |s.chunks| && t.blocks[p].index < Count(c.bucket) && p == Addr(c, t.blocks[p].index)
  }

  lemma GrowBuckets(s: Shape, t: Shape, c: Chunk)
    requires Carved(s.chunks, s.blocks) && c.bucket < NUM_BUCKETS && Carved(t.chunks, t.blocks) && Extends(s, t, c) &&
             t.chunks == s.chunks + [c]
    ensures forall p :: p in t.blocks ==> BucketOf(t, p) == if p in s.blocks then BucketOf(s, p) else c.bucket
    ensures forall i :: 0 <= i < Count(c.bucket) ==> BucketOf(t, Addr(c, i)) == c.bucket
  {
    hide Addr, Bucket, BlockSize, Count;
  }

  lemma FreeListPerBucket(s: Shape)
    requires Sound(s)
    ensures |s.frees| == NUM_BUCKETS
  {
  }

  lemma GrowCarves(s: Shape, base: int, size: nat)
    requires Sound(s) && 0 < size <= MAX_BLOCK && Vacant(s.chunks, s.live, base, CHUNK_SIZE)
    ensures Carved(Grown(s, base, size).chunks, Grown(s, base, size).blocks) &&
            Extends(s, Grown(s, base, size), Chunk(base, Bucket(size)))
  {
    hide Addr, Bucket, BlockSize, Count, Partitioned, Listed, Spread;
    var c := Chunk(base, Bucket(size));
    FreeListPerBucket(s);
    var t := Grown(s, base, size);
    CarvingHas(c, |s.chunks|, Count(c.bucket));
    forall p | p in s.blocks ensures p !in Carving(c, |s.chunks|, Count(c.bucket)) {
      if p in Carving(c, |s.chunks|,
          Count(c.bucket)) { NewChunkApart(s, c, p, Carving(c, |s.chunks|, Count(c.bucket))[p].index); }
    }
  }

  /** The parts of the partition that concern free blocks, after carving. */
  lemma GrowFree(s: Shape, t: Shape, c: Chunk)
    requires Sound(s) && c.bucket < NUM_BUCKETS && s.frees[c.bucket] == [] && Carved(t.chunks, t.blocks) &&
             Extends(s, t, c)
    requires t.chunks == s.chunks + [c] && t.frees == s.frees[c.bucket := Rest(c, 1)]
    requires t.live.Keys == s.live.Keys + {Addr(c, 0)}
    requires forall p, i :: (p in s.live || p in s.blocks) && 0 <= i < Count(c.bucket) ==> p != Addr(c, i)
    ensures forall b, p :: 0 <= b < NUM_BUCKETS && p in t.frees[b] ==> Free(t, p, b)
    ensures forall p :: p in t.blocks && p !in t.live ==> p in t.frees[BucketOf(t, p)]
    ensures NoDup(Rest(c, 1))
  {
    hide Addr, Bucket, BlockSize, Count, Carved, Listed, Spread;
    var first := Addr(c, 0);
    GrowBuckets(s, t, c);
    forall i | 0 < i < Count(c.bucket) ensures Addr(c, i) != first { AddrApart(c, 0, i); }
    forall b, p | 0 <= b < NUM_BUCKETS && p in t.frees[b] ensures Free(t, p, b) {
      if b != c.bucket {
        assert p in s.frees[b] && Free(s, p, b);
      } else {
        var k :| 0 <= k < |Rest(c, 1)| && Rest(c, 1)[k] == p;
        assert p == Addr(c, 1 + k);
      }
    }
    forall i, j | 0 <= i < j < |Rest(c, 1)| ensures Rest(c, 1)[i] != Rest(c, 1)[j] { AddrApart(c, 1 + i, 1 + j); }
    forall p | p in t.blocks && p !in t.live ensures p in t.frees[BucketOf(t, p)] {
      if p in s.blocks {
        assert p in s.frees[BucketOf(s, p)];
      } else {
        var k := t.blocks[p].index;
        assert Rest(c, 1)[k - 1] == p;
      }
    }
  }

  lemma GrowRegions(s: Shape, t: Shape, c: Chunk, first: int, size: nat)
    requires Spread(s.chunks, s.live) && Listed(s.order, s.live) && Vacant(s.chunks, s.live, c.base, CHUNK_SIZE)
    requires t.chunks == s.chunks + [c] && t.order == s.order && first !in s.live && size <= MAX_BLOCK &&
             t.live == s.live[first := size]
    ensures Spread(t.chunks, t.live) && Listed(t.order, t.live)
  {
    hide Big;
    SameBig(s.live, t.live);
  }

  lemma NewChunkFresh(s: Shape, c: Chunk)
    requires Sound(s) && Vacant(s.chunks, s.live, c.base, CHUNK_SIZE) && c.bucket < NUM_BUCKETS
    ensures forall p, i :: (p in s.live || p in s.blocks) && 0 <= i < Count(c.bucket) ==> p != Addr(c, i)
  {
    forall p, i | (p in s.live || p in s.blocks) && 0 <= i < Count(c.bucket) ensures p != Addr(c, i) {
      hide *;
      if p in s.live { NewChunkNotLive(s, c, p, i); } else { NewChunkApart(s, c, p, i); }
    }
  }

  lemma GrowKeeps(s: Shape, base: int, size: nat)
    requires Sound(s) && 0 < size <= MAX_BLOCK && Vacant(s.chunks, s.live, base, CHUNK_SIZE) &&
             s.frees[Bucket(size)] == []
    ensures Sound(Grown(s, base, size)) && Addr(Chunk(base, Bucket(size)), 0) !in s.live
  {
    hide Carved, Free, Pooled, Spread, Listed, Vacant, Extends, NoDup, Addr, Bucket, BucketOf, BlockSize, Count,
        Carving, Rest;
    GrowCarves(s, base, size);
    var c := Chunk(base, Bucket(size));
    var t := Grown(s, base, size);
    NewChunkFresh(s, c);
    assert Addr(c, 0) !in s.live;
    GrowRegions(s, t, c, Addr(c, 0), size);
    GrowFree(s, t, c);
    GrowPooled(s, t, c, size);
  }

  lemma GrowPooled(s: Shape, t: Shape, c: Chunk, size: nat)
    requires Sound(s) && 0 < size <= MAX_BLOCK && c.bucket == Bucket(size) && Carved(t.chunks, t.blocks) &&
             Extends(s, t, c)
    requires t.chunks == s.chunks + [c] && t.live == s.live[Addr(c, 0) := size]
    ensures forall p :: p in t.live && t.live[p] <= MAX_BLOCK ==> Pooled(t, p)
  {
    hide Addr, Bucket, BlockSize, Count, Carved, Listed, Spread;
    GrowBuckets(s, t, c);
    forall p | p in t.live && t.live[p] <= MAX_BLOCK ensures Pooled(t, p) {
      if p != Addr(c, 0) { assert Pooled(s, p); }
    }
  }

  lemma SameBig(live: map<int, nat>, now: map<int, nat>)
    requires forall p :: p in live && live[p] > MAX_BLOCK ==> p in now && now[p] == live[p]
    requires forall p :: p in now && now[p] > MAX_BLOCK ==> p in live && now[p] == live[p]
    ensures forall p :: Big(live, p) <==> Big(now, p)
    ensures forall p :: Big(now, p) ==> now[p] == live[p]
  {
  }

  /** Changing only large allocations leaves the pool as it was. */
  lemma PoolUntouched(s: Shape, t: Shape)
    requires Sound(s) && t.chunks == s.chunks && t.blocks == s.blocks && t.frees == s.frees
    requires forall p ::
             p in s.blocks || (p in t.live && t.live[p] <= MAX_BLOCK) || (p in s.live && s.live[p] <= MAX_BLOCK) ==>
               (p in s.live <==> p in t.live) && (p in s.live ==> s.live[p] == t.live[p])
    ensures Partitioned(t)
  {
    hide Addr, Bucket, BlockSize, Count, Carved, Listed, Spread;
    forall b, p | 0 <= b < NUM_BUCKETS && p in t.frees[b] ensures Free(t, p, b) { assert Free(s, p, b); }
    forall p | p in t.live && t.live[p] <= MAX_BLOCK ensures Pooled(t, p) { assert Pooled(s, p); }
  }

  function Registered(s: Shape, h: int, size: nat): Shape {
    s.(order := [h] + s.order, live := s.live[h + HEADER_SIZE := size])
  }

  lemma VacantNotLive(s: Shape, h: int, size: nat, p: int)
    requires Sound(s) && size > 0 && Vacant(s.chunks, s.live, h, HEADER_SIZE + size) && (p in s.live || p in s.blocks)
    ensures p != h + HEADER_SIZE
  {
    hide Addr, Bucket, BlockSize, Count;
    if !Big(s.live, p) {
      if p in s.live { assert Pooled(s, p); }
      AddrWithin(s.chunks[s.blocks[p].chunk], s.blocks[p].index);
      assert s.chunks[s.blocks[p].chunk] in s.chunks;
    }
  }

  lemma OneMoreBig(live: map<int, nat>, now: map<int, nat>, u: int)
    requires u !in live && u in now && now[u] > MAX_BLOCK && now == live[u := now[u]]
    ensures forall p :: Big(now, p) <==> Big(live, p) || p == u
    ensures forall p :: Big(live, p) ==> p in now && now[p] == live[p]
  {
  }

  lemma RegisterKeeps(s: Shape, h: int, size: nat)
    requires Sound(s) && size > MAX_BLOCK && Vacant(s.chunks, s.live, h, HEADER_SIZE + size)
    ensures Sound(Registered(s, h, size)) && h + HEADER_SIZE !in s.live && h !in s.order
  {
    hide Addr, Bucket, BlockSize, Count, Carved, Spread, Vacant, Listed, Partitioned, Pooled;
    var t := Registered(s, h, size);
    var u := h + HEADER_SIZE;
    forall p | p in s.live || p in s.blocks ensures p != u { VacantNotLive(s, h, size, p); }
    PoolUntouched(s, t);
    OneMoreBig(s.live, t.live, u);
    VacantPositive(s, h, HEADER_SIZE + size);
    RegisterLists(s, h, u, t.live);
    RegisterSpreads(s, h, size, t.live);
  }

  lemma VacantPositive(s: Shape, a: int, n: int)
    requires Vacant(s.chunks, s.live, a, n)
    ensures a > 0
  {
  }

  lemma RegisterLists(s: Shape, h: int, u: int, now: map<int, nat>)
    requires Listed(s.order, s.live) && u == h + HEADER_SIZE && u !in s.live && h > 0
    requires forall p :: Big(now, p) <==> Big(s.live, p) || p == u
    ensures h !in s.order && Listed([h] + s.order, now)
  {
    hide Big;
    assert h in s.order ==> Big(s.live, u);
    BigIsLive(s.live, u);
  }

  lemma BigIsLive(live: map<int, nat>, u: int)
    ensures Big(live, u) ==> u in live
  {
  }

  lemma RegisterSpreads(s: Shape, h: int, size: nat, now: map<int, nat>)
    requires Spread(s.chunks, s.live) && Vacant(s.chunks, s.live, h, HEADER_SIZE + size)
    requires forall p :: Big(now, p) <==> Big(s.live, p) || p == h + HEADER_SIZE
    requires h + HEADER_SIZE in now && now[h + HEADER_SIZE] == size && forall p :: Big(s.live, p) ==>
               p in now && now[p] == s.live[p]
    ensures Spread(s.chunks, now)
  {
    hide Big;
  }

  function Dropped(l: seq<int>, j: nat): seq<int>
    requires j < |l|
  {
    l[..j] + l[j + 1..]
  }

  lemma DroppedHas(l: seq<int>, j: nat)
    requires j < |l| && NoDup(l)
    ensures NoDup(Dropped(l, j)) && forall x :: x in Dropped(l, j) <==> x in l && x != l[j]
  {
    forall x | x in l && x != l[j] ensures x in Dropped(l, j) {
      var k :| 0 <= k < |l| && l[k] == x;
      assert Dropped(l, j)[if k < j then k else k - 1] == x;
    }
    forall x | x in Dropped(l, j) ensures x in l && x != l[j] {
      var k :| 0 <= k < |Dropped(l, j)| && Dropped(l, j)[k] == x;
      assert x == l[if k < j then k else k + 1];
    }
  }

  function Unregistered(s: Shape, j: nat): Shape
    requires j < |s.order|
  {
    s.(order := Dropped(s.order, j), live := Without(s.live, s.order[j] + HEADER_SIZE))
  }

  lemma UnregisterKeeps(s: Shape, j: nat)
    requires Sound(s) && j < |s.order|
    ensures Sound(Unregistered(s, j))
  {
    hide Addr, Bucket, BlockSize, Count, Carved, Dropped;
    var t := Unregistered(s, j);
    var u := s.order[j] + HEADER_SIZE;
    assert s.order[j] in s.order;
    assert Big(s.live, u);
    DroppedHas(s.order, j);
    forall p | Big(t.live, p) ensures Big(s.live, p) && t.live[p] == s.live[p] && p != u {}
    forall p | Big(s.live, p) && p != u ensures Big(t.live, p) && t.live[p] == s.live[p] {}
    assert u !in s.blocks by { if u in s.blocks { BlockBigApart(s, u, u); } }
    PoolUntouched(s, t);
    assert Listed(t.order, t.live) && Spread(t.chunks, t.live) by { hide Partitioned; }
  }

  /** A large allocation at index j of the list now starts at header h with a new size. */
  function Moved(s: Shape, j: nat, h: int, size: nat): Shape
    requires j < |s.order|
  {
    s.(order := s.order[j := h], live := Without(s.live, s.order[j] + HEADER_SIZE)[h + HEADER_SIZE := size])
  }

  lemma ReplacedHas(l: seq<int>, j: nat, h: int)
    requires j < |l| && NoDup(l) && (h in l ==> h == l[j])
    ensures NoDup(l[j := h]) && forall x :: x in l[j := h] <==> x == h || (x in l && x != l[j])
  {
    forall x | x in l && x != l[j] ensures x in l[j := h] {
      var k :| 0 <= k < |l| && l[k] == x;
      assert l[j := h][k] == x;
    }
    assert l[j := h][j] == h;
  }

  lemma OrderDistinct(s: Shape)
    requires Sound(s)
    ensures NoDup(s.order)
  {
  }

  /** The order of the large list is free. */
  lemma Reordered(s: Shape, order: seq<int>)
    requires Sound(s) && NoDup(order) && forall x :: x in order <==> x in s.order
    ensures Sound(s.(order := order))
  {
    hide Carved, Spread, NoDup, Bucket;
    var t := s.(order := order);
    assert Partitioned(t) by {
      forall b, p | 0 <= b < NUM_BUCKETS && p in t.frees[b] ensures Free(t, p, b) { assert Free(s, p, b); }
      forall p | p in t.live && t.live[p] <= MAX_BLOCK ensures Pooled(t, p) { assert Pooled(s, p); }
    }
  }

  lemma MoveKeeps(s: Shape, j: nat, h: int, size: nat)
    requires Sound(s) && j < |s.order| && size > MAX_BLOCK
    requires Vacant(s.chunks, Without(s.live, s.order[j] + HEADER_SIZE), h, HEADER_SIZE + size)
    ensures Sound(Moved(s, j, h, size)) && h + HEADER_SIZE !in Without(s.live, s.order[j] + HEADER_SIZE)
    ensures h in s.order ==> h == s.order[j]
  {
    hide Sound, Vacant, NoDup, Dropped, Without;
    var v := Unregistered(s, j);
    UnregisterKeeps(s, j);
    RegisterKeeps(v, h, size);
    var w := Registered(v, h, size);
    var t := Moved(s, j, h, size);
    OrderDistinct(s);
    DroppedHas(s.order, j);
    assert h !in v.order && v.order == Dropped(s.order, j);
    ReplacedHas(s.order, j, h);
    assert t.order == s.order[j := h];
    forall x ensures x in t.order <==> x in w.order {
      assert x in v.order <==> x in s.order && x != s.order[j];
      assert x in s.order[j := h] <==> x == h || (x in s.order && x != s.order[j]);
      assert x in [h] + v.order <==> x in [h] || x in v.order;
    }
    Reordered(w, t.order);
    assert t == w.(order := t.order);
  }

  // ---------------------------------------------------------------- what memory holds

  type Memory = map<int, Cell>

  function Read(mem: Memory, a: int): Cell {
    if a in mem then mem[a] else Byte(0)
  }

  function Bytes(mem: Memory, a: int, n: nat): (r: seq<Cell>)
    ensures |r| == n
  {
    seq(n, i requires 0 <= i < n => Read(mem, a + i))
  }

  function Source(mem: Memory, dst: int, src: int, a: int): Cell {
    Read(mem, src + (a - dst))
  }

  /** Copy n cells from src to dst, reading all before writing any. */
  function Copied(mem: Memory, dst: int, src: int, n: nat): Memory {
    mem + map a | dst <= a < dst + n :: Source(mem, dst, src, a)
  }

  function First(l: seq<int>): int { if l == [] then 0 else l[0] }

  function After(l: seq<int>, j: int): int { if -1 <= j < |l| - 1 then l[j + 1] else 0 }

  function Before(l: seq<int>, j: int): int { if 0 < j <= |l| then l[j - 1] else 0 }

  /** Following the pointers stored in the blocks from head visits exactly l. */
  predicate Threaded(mem: Memory, head: int, l: seq<int>) {
    head == First(l) && forall j :: 0 <= j < |l| ==> l[j] != 0 && Read(mem, l[j]) == Link(After(l, j))
  }

  predicate HeaderAt(mem: Memory, l: seq<int>, j: nat)
    requires j < |l|
  {
    l[j] != 0 && Read(mem, l[j]) == Link(Before(l, j)) && Read(mem, l[j] + 8) == Link(After(l, j))
  }

  /** The headers of l are linked both ways. */
  predicate Doubly(mem: Memory, head: int, l: seq<int>) {
    head == First(l) && forall j :: 0 <= j < |l| ==> HeaderAt(mem, l, j)
  }

  predicate Headers(l: seq<int>) {
    forall i, j :: 0 <= i < j < |l| ==> Apart(l[i], HEADER_SIZE, l[j], HEADER_SIZE)
  }

  predicate Heads(mem: Memory, heads: seq<int>, frees: seq<seq<int>>) {
    |heads| == NUM_BUCKETS == |frees| && forall b :: 0 <= b < NUM_BUCKETS ==> Threaded(mem, heads[b], frees[b])
  }

  ghost predicate Same(mem: Memory, now: Memory, a: int, n: int) {
    forall k :: a <= k < a + n ==> Read(mem, k) == Read(now, k)
  }

  ghost predicate SameFrees(mem: Memory, now: Memory, frees: seq<seq<int>>) {
    forall b, f :: 0 <= b < |frees| && f in frees[b] ==> Read(mem, f) == Read(now, f)
  }

  lemma BytesKept(mem: Memory, now: Memory, a: int, n: nat)
    requires Same(mem, now, a, n)
    ensures Bytes(mem, a, n) == Bytes(now, a, n)
  {
  }

  lemma CopiedRead(mem: Memory, dst: int, src: int, n: nat, a: int)
    ensures Read(Copied(mem, dst, src, n), a) == if dst <= a < dst + n then Read(mem, src + (a - dst)) else Read(mem, a)
  {
  }

  lemma CopiedBytes(mem: Memory, dst: int, src: int, n: nat, from: nat, k: nat)
    requires from + k <= n
    ensures Bytes(Copied(mem, dst, src, n), dst + from, k) == Bytes(mem, src + from, k)
  {
    hide Read, Copied;
    var now := Copied(mem, dst, src, n);
    var x, y := Bytes(now, dst + from, k), Bytes(mem, src + from, k);
    forall i | 0 <= i < k ensures x[i] == y[i] {
      CopiedRead(mem, dst, src, n, dst + from + i);
      assert src + (dst + from + i - dst) == src + from + i;
    }
    assert x == y;
  }

  lemma HeadsKept(mem: Memory, now: Memory, heads: seq<int>, frees: seq<seq<int>>)
    requires Heads(mem, heads, frees) && SameFrees(mem, now, frees)
    ensures Heads(now, heads, frees)
  {
    forall b | 0 <= b < NUM_BUCKETS ensures Threaded(now, heads[b], frees[b]) {
      assert Threaded(mem, heads[b], frees[b]);
      forall j | 0 <= j < |frees[b]| ensures Read(now, frees[b][j]) ==
          Read(mem, frees[b][j]) { assert frees[b][j] in frees[b]; }
    }
  }

  lemma HeadersApart(s: Shape)
    requires Sound(s)
    ensures Headers(s.order)
  {
    hide Carved, Partitioned;
    forall i, j | 0 <= i < j < |s.order| ensures Apart(s.order[i], HEADER_SIZE, s.order[j], HEADER_SIZE) {
      assert s.order[i] in s.order && s.order[j] in s.order;
      assert Big(s.live, s.order[i] + HEADER_SIZE) && Big(s.live, s.order[j] + HEADER_SIZE);
    }
  }

  /** Linking a new header in front. */
  lemma LinkFront(mem: Memory, head: int, l: seq<int>, h: int, now: Memory)
    requires Doubly(mem, head, l) && Headers([h] + l) && h != 0
    requires var m := mem[h := Link(0)][h + 8 := Link(head)]; now == if head != 0 then m[head := Link(h)] else m
    ensures Doubly(now, h, [h] + l)
  {
    var k := [h] + l;
    forall j | 0 <= j < |k| ensures HeaderAt(now, k, j) {
      if j > 0 {
        assert HeaderAt(mem, l, j - 1) && k[j] == l[j - 1];
        assert Apart(k[0], HEADER_SIZE, k[j], HEADER_SIZE);
        if j > 1 { assert Apart(k[1], HEADER_SIZE, k[j], HEADER_SIZE); }
      } else if l != [] {
        assert Apart(k[0], HEADER_SIZE, k[1], HEADER_SIZE);
        assert HeaderAt(mem, l, 0);
      }
    }
  }

  /** Making the neighbours of position j point past it, or at what replaces it. */
  function Rejoined(mem: Memory, prev: int, next: int, forward: int, back: int): Memory {
    var m := if prev != 0 then mem[prev + 8 := Link(forward)] else mem;
    if next != 0 then m[next := Link(back)] else m
  }

  lemma Unlink(mem: Memory, head: int, l: seq<int>, j: nat)
    requires Doubly(mem, head, l) && Headers(l) && j < |l|
    ensures Doubly(Rejoined(mem, Before(l, j), After(l, j), After(l, j), Before(l, j)), if Before(l, j) != 0 then head
            else After(l, j), Dropped(l, j))
  {
    var k := Dropped(l, j);
    var now := Rejoined(mem, Before(l, j), After(l, j), After(l, j), Before(l, j));
    assert HeaderAt(mem, l, j);
    if j > 0 { assert HeaderAt(mem, l, j - 1); }
    if j + 1 < |l| { assert HeaderAt(mem, l, j + 1); }
    forall i | 0 <= i < |l| ensures l[i] != 0 { assert HeaderAt(mem, l, i); }
    forall i | 0 <= i < |k| ensures HeaderAt(now, k, i) {
      var o := if i < j then i else i + 1;
      assert HeaderAt(mem, l, o);
      NeighbourReads(mem, l, j, o, After(l, j), Before(l, j));
    }
  }

  lemma NeighbourReads(mem: Memory, l: seq<int>, j: nat, o: nat, forward: int, back: int)
    requires Headers(l) && j < |l| && o < |l| && o != j && forall i :: 0 <= i < |l| ==> l[i] != 0
    ensures var now := Rejoined(mem, Before(l, j), After(l, j), forward, back);
            Read(now, l[o]) == (if o == j + 1 then Link(back) else Read(mem, l[o])) &&
            Read(now, l[o] + 8) == (if o + 1 == j then Link(forward) else Read(mem, l[o] + 8))
  {
    if j > 0 && o != j - 1 {
      if o < j - 1 { assert Apart(l[o], HEADER_SIZE, l[j - 1], HEADER_SIZE); }
          else { assert Apart(l[j - 1], HEADER_SIZE, l[o], HEADER_SIZE); }
    }
    if j + 1 < |l| && o != j + 1 {
      if o < j + 1 { assert Apart(l[o], HEADER_SIZE, l[j + 1], HEADER_SIZE); }
          else { assert Apart(l[j + 1], HEADER_SIZE, l[o], HEADER_SIZE); }
    }
  }

  /** The header at position j now sits at h, with the same two pointers in it. */
  lemma Relink(mem: Memory, moved: Memory, head: int, l: seq<int>, j: nat, h: int)
    requires Doubly(mem, head, l) && Headers(l) && j < |l| && h != 0 && Headers(l[j := h])
    requires Read(moved, h) == Read(mem, l[j]) && Read(moved, h + 8) == Read(mem, l[j] + 8)
    requires forall i :: 0 <= i < |l| && i != j ==>
               Read(moved, l[i]) == Read(mem, l[i]) && Read(moved, l[i] + 8) == Read(mem, l[i] + 8)
    ensures Doubly(Rejoined(moved, Before(l, j), After(l, j), h, h), if Before(l, j) != 0 then head else h, l[j := h])
  {
    var k := l[j := h];
    var now := Rejoined(moved, Before(l, j), After(l, j), h, h);
    assert Before(l, j) == Before(k, j) && After(l, j) == After(k, j);
    assert HeaderAt(mem, l, j);
    forall i | 0 <= i < |k| ensures k[i] != 0 { assert HeaderAt(mem, l, i); }
    forall i | 0 <= i < |k| ensures HeaderAt(now, k, i) {
      assert HeaderAt(mem, l, i);
      if i != j {
        NeighbourReads(moved, k, j, i, h, h);
      } else {
        if j > 0 { assert Apart(k[j - 1], HEADER_SIZE, k[j], HEADER_SIZE); }
        if j + 1 < |k| { assert Apart(k[j], HEADER_SIZE, k[j + 1], HEADER_SIZE); }
      }
    }
  }

  // ---------------------------------------------------------------- accounting

  /** What an allocation adds to bytes_allocated. */
  function Charge(size: nat): nat {
    if size > MAX_BLOCK then size else if size == 0 then 0 else BlockSize(Bucket(size))
  }

  lemma NonEmpty(live: map<int, nat>)
    requires live != map[]
    ensures exists p :: p in live.Keys
  {
    assert (forall p :: p !in live) ==> live == map[];
  }

  ghost function Pick(live: map<int, nat>): int
    requires live != map[]
    ensures Pick(live) in live
  {
    NonEmpty(live);
    var p :| p in live.Keys;
    p
  }

  ghost function Total(live: map<int, nat>): nat
    decreases |live|
  {
    if live == map[] then 0 else
      Smaller(live, Pick(live));
      Charge(live[Pick(live)]) + Total(Without(live, Pick(live)))
  }

  lemma Smaller(live: map<int, nat>, p: int)
    requires p in live
    ensures |Without(live, p)| < |live|
  {
    assert live.Keys == Without(live, p).Keys + {p};
  }

  lemma {:induction false} TotalWithout(live: map<int, nat>, p: int)
    requires p in live
    ensures Total(live) == Charge(live[p]) + Total(Without(live, p))
    decreases |live|
  {
    hide Charge;
    var q := Pick(live);
    if p != q {
      Smaller(live, p);
      Smaller(live, q);
      TotalWithout(Without(live, q), p);
      TotalWithout(Without(live, p), q);
      assert Without(Without(live, q), p) == Without(Without(live, p), q);
    }
  }

  lemma TotalWith(live: map<int, nat>, p: int, size: nat)
    requires p !in live
    ensures Total(live[p := size]) == Total(live) + Charge(size)
  {
    TotalWithout(live[p := size], p);
    assert Without(live[p := size], p) == live;
  }

  // ---------------------------------------------------------------- each operation's effect on memory

  /** The pointers in memory spell out the shape. */
  ghost predicate Held(s: Shape, mem: Memory, heads: seq<int>, largeHead: int) {
    Sound(s) && Heads(mem, heads, s.frees) && Doubly(mem, largeHead, s.order)
  }

  /** The contents of these allocations did not change. */
  ghost predicate Kept(live: map<int, nat>, mem: Memory, now: Memory) {
    forall q :: q in live ==> Bytes(mem, q, live[q]) == Bytes(now, q, live[q])
  }

  ghost predicate SameHeaders(mem: Memory, now: Memory, l: seq<int>) {
    forall h :: h in l ==> Read(mem, h) == Read(now, h) && Read(mem, h + 8) == Read(now, h + 8)
  }

  lemma DoublyKept(mem: Memory, now: Memory, head: int, l: seq<int>)
    requires Doubly(mem, head, l) && SameHeaders(mem, now, l)
    ensures Doubly(now, head, l)
  {
    forall j | 0 <= j < |l| ensures HeaderAt(now, l, j) {
      assert HeaderAt(mem, l, j) && l[j] in l;
    }
  }

  lemma BlockPositive(s: Shape, p: int)
    requires Carved(s.chunks, s.blocks) && p in s.blocks
    ensures p > 0
  {
    hide Addr, Count, BlockSize;
    AddrWithin(s.chunks[s.blocks[p].chunk], s.blocks[p].index);
    assert s.chunks[s.blocks[p].chunk] in s.chunks;
  }

  lemma FreesCount(mem: Memory, heads: seq<int>, frees: seq<seq<int>>)
    requires Heads(mem, heads, frees)
    ensures |heads| == |frees| == NUM_BUCKETS && forall b :: 0 <= b < NUM_BUCKETS ==> Threaded(mem, heads[b], frees[b])
  {
  }

  lemma HeadsSet(mem: Memory, heads: seq<int>, frees: seq<seq<int>>, b: nat, head: int, l: seq<int>)
    requires Heads(mem, heads, frees) && b < NUM_BUCKETS && Threaded(mem, head, l)
    ensures |heads| == |frees| == NUM_BUCKETS && Heads(mem, heads[b := head], frees[b := l])
  {
    hide Threaded;
  }

  lemma ReadPut(mem: Memory, p: int, c: Cell)
    ensures Read(mem[p := c], p) == c && forall a :: a != p ==> Read(mem[p := c], a) == Read(mem, a)
  {
  }

  lemma ListedBig(s: Shape, h: int)
    requires Sound(s) && h in s.order
    ensures h > 0 && Big(s.live, h + HEADER_SIZE)
  {
  }

  lemma FreeBlock(s: Shape, b: nat, f: int)
    requires Sound(s) && b < NUM_BUCKETS && f in s.frees[b]
    ensures Carved(s.chunks, s.blocks) && Free(s, f, b)
  {
  }

  lemma FreeNotHeader(s: Shape, b: nat, f: int, h: int)
    requires Sound(s) && b < NUM_BUCKETS && f in s.frees[b] && h in s.order
    ensures f < h || h + HEADER_SIZE <= f
  {
    hide Count, Addr, Bucket, BlockSize, Carved, Spread;
    assert Free(s, f, b) && Big(s.live, h + HEADER_SIZE);
    BlockBigApart(s, f, h + HEADER_SIZE);
  }

  /** Writes inside one allocation disturb no pointer and no other allocation. */
  lemma InsideHeld(s: Shape, mem: Memory, now: Memory, heads: seq<int>, largeHead: int, p: int)
    requires Held(s, mem, heads, largeHead) && p in s.live
    requires forall a :: a < p || p + s.live[p] <= a ==> Read(mem, a) == Read(now, a)
    ensures Held(s, now, heads, largeHead) && Kept(Without(s.live, p), mem, now)
  {
    hide Sound, Heads, Doubly, Kept, Without, Read, BlockSize;
    FreesCount(mem, heads, s.frees);
    forall b, f | 0 <= b < |s.frees| && f in s.frees[b] ensures Read(mem, f) == Read(now, f) {
      FreeApart(s, b, f, p);
    }
    HeadsKept(mem, now, heads, s.frees);
    forall h | h in s.order ensures Read(mem, h) == Read(now, h) && Read(mem, h + 8) == Read(now, h + 8) {
      HeaderApart(s, h, p);
    }
    DoublyKept(mem, now, largeHead, s.order);
    InsideKept(s, mem, now, p);
  }

  lemma InsideKept(s: Shape, mem: Memory, now: Memory, p: int)
    requires Sound(s) && p in s.live
    requires forall a :: a < p || p + s.live[p] <= a ==> Read(mem, a) == Read(now, a)
    ensures Kept(Without(s.live, p), mem, now)
  {
    hide Sound, Read, Bytes;
    forall q | q in Without(s.live, p) ensures Bytes(mem, q, s.live[q]) == Bytes(now, q, s.live[q]) {
      LiveApart(s, p, q);
      BytesKept(mem, now, q, s.live[q]);
    }
  }

  lemma SmallIsPooled(s: Shape, p: int)
    requires Sound(s) && p in s.live && s.live[p] <= MAX_BLOCK
    ensures s.live[p] > 0 && p in s.blocks && p > 0
  {
    hide Bucket;
    assert Pooled(s, p);
    BlockPositive(s, p);
  }

  lemma PushHeld(s: Shape, mem: Memory, heads: seq<int>, largeHead: int, p: int)
    requires Held(s, mem, heads, largeHead) && p in s.live && 0 < s.live[p] <= MAX_BLOCK &&
             |heads| == |s.frees| == NUM_BUCKETS
    ensures Held(Pushed(s, Bucket(s.live[p]), p), mem[p := Link(heads[Bucket(s.live[p])])],
            heads[Bucket(s.live[p]) := p], largeHead)
    ensures Kept(Without(s.live, p), mem, mem[p := Link(heads[Bucket(s.live[p])])])
  {
    hide Sound, Heads, Doubly, Kept, Without, Read, Bucket, Threaded;
    var b := Bucket(s.live[p]);
    var now := mem[p := Link(heads[b])];
    ReadPut(mem, p, Link(heads[b]));
    InsideHeld(s, mem, now, heads, largeHead, p);
    PushKeeps(s, p);
    SmallIsPooled(s, p);
    FreesCount(now, heads, s.frees);
    PushThreaded(now, heads[b], s.frees[b], p);
    HeadsSet(now, heads, s.frees, b, p, [p] + s.frees[b]);
  }

  lemma PushThreaded(mem: Memory, head: int, l: seq<int>, p: int)
    requires Threaded(mem, head, l) && p != 0 && Read(mem, p) == Link(head)
    ensures Threaded(mem, p, [p] + l)
  {
    var k := [p] + l;
    forall j | 0 <= j < |k| ensures k[j] != 0 && Read(mem, k[j]) == Link(After(k, j)) {
      if j > 0 { assert k[j] == l[j - 1]; }
    }
  }

  lemma PopThreaded(mem: Memory, head: int, l: seq<int>)
    requires Threaded(mem, head, l) && head != 0
    ensures l != [] && l[0] == head && Read(mem, head).Link? && Threaded(mem, Read(mem, head).to, l[1..])
  {
    var k := l[1..];
    forall j | 0 <= j < |k| ensures k[j] != 0 && Read(mem, k[j]) == Link(After(k, j)) {
      assert k[j] == l[j + 1];
    }
  }

  lemma PopHeld(s: Shape, mem: Memory, heads: seq<int>, largeHead: int, size: nat)
    requires Held(s, mem, heads, largeHead) && 0 < size <= MAX_BLOCK && |heads| == |s.frees| == NUM_BUCKETS &&
             heads[Bucket(size)] != 0
    ensures s.frees[Bucket(size)] != [] && s.frees[Bucket(size)][0] == heads[Bucket(size)] &&
            Read(mem, heads[Bucket(size)]).Link?
    ensures Held(Popped(s, Bucket(size), size), mem, heads[Bucket(size) := Read(mem, heads[Bucket(size)]).to],
            largeHead)
    ensures heads[Bucket(size)] !in s.live && heads[Bucket(size)] > 0
  {
    hide Sound, Heads, Doubly, Read, Bucket, Threaded;
    var b := Bucket(size);
    FreesCount(mem, heads, s.frees);
    PopThreaded(mem, heads[b], s.frees[b]);
    PopKeeps(s, size);
    HeadsSet(mem, heads, s.frees, b, Read(mem, heads[b]).to, s.frees[b][1..]);
  }

  /** Writes to memory the host has just given out disturb nothing. */
  lemma OutsideHeld(s: Shape, mem: Memory, now: Memory, heads: seq<int>, at: int, n: nat)
    requires Sound(s) && Heads(mem, heads, s.frees) && Vacant(s.chunks, s.live, at, n) && n > 0
    requires forall a :: a < at || at + n <= a ==> Read(mem, a) == Read(now, a)
    ensures Heads(now, heads, s.frees) && SameHeaders(mem, now, s.order) && Kept(s.live, mem, now)
  {
    hide Sound, Heads, Doubly, Read, Vacant, Bytes, BlockSize;
    FreesCount(mem, heads, s.frees);
    forall b, f | 0 <= b < |s.frees| && f in s.frees[b] ensures Read(mem, f) == Read(now, f) {
      FreeBlock(s, b, f);
      BlockOutside(s, f, at, n);
    }
    HeadsKept(mem, now, heads, s.frees);
    forall h | h in s.order ensures Read(mem, h) == Read(now, h) && Read(mem, h + 8) == Read(now, h + 8) {
      ListedBig(s, h);
      BigOutside(s, h + HEADER_SIZE, at, n);
    }
    forall q | q in s.live ensures Bytes(mem, q, s.live[q]) == Bytes(now, q, s.live[q]) {
      LiveOutside(s, q, at, n);
      BytesKept(mem, now, q, s.live[q]);
    }
  }

  lemma BigOutside(s: Shape, p: int, at: int, n: nat)
    requires Vacant(s.chunks, s.live, at, n) && Big(s.live, p)
    ensures Apart(p - HEADER_SIZE, s.live[p] + HEADER_SIZE, at, n)
  {
  }

  lemma BlockOutside(s: Shape, f: int, at: int, n: nat)
    requires Sound(s) && f in s.blocks && Vacant(s.chunks, s.live, at, n)
    ensures Apart(f, BlockSize(BucketOf(s, f)), at, n)
  {
    hide Partitioned, Listed, Spread, Count, Addr, Bucket, BlockSize;
    AddrWithin(s.chunks[s.blocks[f].chunk], s.blocks[f].index);
    assert s.chunks[s.blocks[f].chunk] in s.chunks;
  }

  lemma LiveOutside(s: Shape, q: int, at: int, n: nat)
    requires Sound(s) && q in s.live && Vacant(s.chunks, s.live, at, n)
    ensures Apart(q, s.live[q], at, n)
  {
    hide Listed, Spread, Count, Addr, Bucket, BlockSize, Carved;
    if !Big(s.live, q) {
      assert Pooled(s, q);
      BlockOutside(s, q, at, n);
    }
  }

  lemma EmptyThread(mem: Memory, l: seq<int>)
    requires Threaded(mem, 0, l)
    ensures l == []
  {
  }

  lemma FirstAddr(base: int, b: nat)
    requires b < NUM_BUCKETS
    ensures Addr(Chunk(base, b), 0) == base
  {
  }

  lemma GrowHeld(s: Shape, mem: Memory, now: Memory, heads: seq<int>, largeHead: int, base: int, size: nat)
    requires Held(s, mem, heads, largeHead) && 0 < size <= MAX_BLOCK && |heads| == |s.frees| == NUM_BUCKETS &&
             heads[Bucket(size)] == 0
    requires Vacant(s.chunks, s.live, base, CHUNK_SIZE)
    requires forall a :: a < base || base + CHUNK_SIZE <= a ==> Read(mem, a) == Read(now, a)
    requires Threaded(now, Addr(Chunk(base, Bucket(size)), 1), Rest(Chunk(base, Bucket(size)), 1))
    ensures Held(Grown(s, base, size), now, heads[Bucket(size) := Addr(Chunk(base, Bucket(size)), 1)], largeHead)
    ensures Kept(s.live, mem, now) && Addr(Chunk(base, Bucket(size)), 0) == base && base !in s.live
  {
    hide Sound, Heads, Doubly, SameHeaders, Read, Vacant, Kept, Addr, Bucket, Threaded, Rest, Count, Carving;
    OutsideHeld(s, mem, now, heads, base, CHUNK_SIZE);
    DoublyKept(mem, now, largeHead, s.order);
    FreesCount(mem, heads, s.frees);
    EmptyThread(mem, s.frees[Bucket(size)]);
    GrowKeeps(s, base, size);
    FirstAddr(base, Bucket(size));
    HeadsSet(now, heads, s.frees, Bucket(size), Addr(Chunk(base, Bucket(size)), 1), Rest(Chunk(base, Bucket(size)), 1));
  }

  lemma DoublyFirst(mem: Memory, head: int, l: seq<int>)
    requires Doubly(mem, head, l)
    ensures head != 0 ==> l != [] && head == l[0] && head in l
  {
  }

  function Linked(mem: Memory, h: int, largeHead: int): Memory {
    var m := mem[h := Link(0)][h + 8 := Link(largeHead)];
    if largeHead != 0 then m[largeHead := Link(h)] else m
  }

  lemma RegisterHeld(s: Shape, mem: Memory, heads: seq<int>, largeHead: int, h: int, size: nat)
    requires Held(s, mem, heads, largeHead) && size > MAX_BLOCK && Vacant(s.chunks, s.live, h, HEADER_SIZE + size)
    ensures Held(Registered(s, h, size), Linked(mem, h, largeHead), heads, h)
    ensures Kept(s.live, mem, Linked(mem, h, largeHead)) && h + HEADER_SIZE !in s.live && h > 0
  {
    hide Sound, Heads, Doubly, SameHeaders, Read, Kept, Headers;
    var m := mem[h := Link(0)][h + 8 := Link(largeHead)];
    var now := Linked(mem, h, largeHead);
    ReadPut(mem, h, Link(0));
    ReadPut(mem[h := Link(0)], h + 8, Link(largeHead));
    OutsideHeld(s, mem, m, heads, h, HEADER_SIZE + size);
    RegisterKeeps(s, h, size);
    HeadersApart(Registered(s, h, size));
    LinkFront(mem, largeHead, s.order, h, now);
    DoublyFirst(mem, largeHead, s.order);
    if largeHead != 0 {
      ReadPut(m, largeHead, Link(h));
      HeaderWrites(s, m, now, heads, {largeHead});
      KeptTwice(s.live, mem, m, now);
    }
  }

  lemma KeptTwice(live: map<int, nat>, mem: Memory, mid: Memory, now: Memory)
    requires Kept(live, mem, mid) && Kept(live, mid, now)
    ensures Kept(live, mem, now)
  {
    hide Bytes;
    forall q | q in live ensures Bytes(mem, q, live[q]) == Bytes(now, q, live[q]) {
      assert Bytes(mem, q, live[q]) == Bytes(mid, q, live[q]);
    }
  }

  /** Every address in w is one of a header's two pointers. */
  ghost predicate AllHeaders(order: seq<int>, w: set<int>) {
    forall a :: a in w ==> a in order || a - 8 in order
  }

  /** Writes to headers disturb neither free lists nor contents. */
  lemma HeaderWrites(s: Shape, mem: Memory, now: Memory, heads: seq<int>, w: set<int>)
    requires Sound(s) && Heads(mem, heads, s.frees) && AllHeaders(s.order, w)
    requires forall a :: a !in w ==> Read(mem, a) == Read(now, a)
    ensures Heads(now, heads, s.frees) && Kept(s.live, mem, now)
  {
    hide Sound, Heads, Read, Bytes;
    FreesCount(mem, heads, s.frees);
    forall b, f | 0 <= b < |s.frees| && f in s.frees[b] ensures Read(mem, f) == Read(now, f) {
      if f in w {
        if f in s.order { FreeNotHeader(s, b, f, f); } else { FreeNotHeader(s, b, f, f - 8); }
      }
    }
    HeadsKept(mem, now, heads, s.frees);
    forall q | q in s.live ensures Bytes(mem, q, s.live[q]) == Bytes(now, q, s.live[q]) {
      forall k: int | q <= k < q + s.live[q] ensures Read(mem, k) == Read(now, k) {
        if k in w {
          if k in s.order { HeaderApart(s, k, q); } else { HeaderApart(s, k - 8, q); }
        }
      }
      BytesKept(mem, now, q, s.live[q]);
    }
  }

  /** The pointer words of the neighbours of position j. */
  function Neighbours(l: seq<int>, j: nat): set<int>
    requires j < |l|
  {
    (if j > 0 then {l[j - 1] + 8} else {}) + (if j + 1 < |l| then {l[j + 1]} else {})
  }

  lemma RejoinedReads(mem: Memory, l: seq<int>, j: nat, forward: int, back: int)
    requires j < |l| && forall i :: 0 <= i < |l| ==> l[i] != 0
    ensures forall a :: a !in Neighbours(l, j) ==>
              Read(mem, a) == Read(Rejoined(mem, Before(l, j), After(l, j), forward, back), a)
  {
  }

  lemma NeighboursAreHeaders(l: seq<int>, j: nat)
    requires j < |l|
    ensures AllHeaders(l, Neighbours(l, j))
  {
    forall a | a in Neighbours(l, j) ensures a in l || a - 8 in l {
      if j > 0 && a == l[j - 1] + 8 { assert a - 8 == l[j - 1]; }
    }
  }

  lemma HeaderParts(mem: Memory, head: int, l: seq<int>, j: nat)
    requires Doubly(mem, head, l) && j < |l|
    ensures Read(mem, l[j]) == Link(Before(l, j)) && Read(mem, l[j] + 8) == Link(After(l, j)) && forall i ::
            0 <= i < |l| ==> l[i] != 0
  {
    forall i | 0 <= i < |l| ensures l[i] != 0 { assert HeaderAt(mem, l, i); }
    assert HeaderAt(mem, l, j);
  }

  lemma UnregisterHeld(s: Shape, mem: Memory, heads: seq<int>, largeHead: int, j: nat)
    requires Held(s, mem, heads, largeHead) && j < |s.order|
    ensures Held(Unregistered(s, j),
            Rejoined(mem, Before(s.order, j), After(s.order, j), After(s.order, j), Before(s.order, j)),
                 heads, if Before(s.order, j) != 0 then largeHead else After(s.order, j))
    ensures Kept(s.live, mem, Rejoined(mem, Before(s.order, j), After(s.order, j), After(s.order, j),
            Before(s.order, j)))
  {
    hide Sound, Heads, Doubly, Kept, Read, Headers, AllHeaders, Neighbours, Rejoined, Before, After;
    HeadersApart(s);
    Unlink(mem, largeHead, s.order, j);
    HeaderParts(mem, largeHead, s.order, j);
    RejoinedReads(mem, s.order, j, After(s.order, j), Before(s.order, j));
    NeighboursAreHeaders(s.order, j);
    HeaderWrites(s, mem, Rejoined(mem, Before(s.order, j), After(s.order, j), After(s.order, j), Before(s.order, j)),
        heads, Neighbours(s.order, j));
    UnregisterKeeps(s, j);
  }

  function Min(a: nat, b: nat): nat { if a < b then a else b }

  /** The host moved the j-th large block to h, copying what fits. */
  lemma CopyHeld(s: Shape, mem: Memory, heads: seq<int>, largeHead: int, j: nat, h: int, size: nat)
    requires Held(s, mem, heads, largeHead) && j < |s.order| && size > MAX_BLOCK && s.order[j] + HEADER_SIZE in s.live
    requires Vacant(s.chunks, Without(s.live, s.order[j] + HEADER_SIZE), h, HEADER_SIZE + size)
    ensures var now := Copied(mem, h, s.order[j], HEADER_SIZE + Min(s.live[s.order[j] + HEADER_SIZE], size));
            Heads(now, heads, s.frees) && SameHeaders(mem, now, Dropped(s.order, j)) &&
            Kept(Without(s.live, s.order[j] + HEADER_SIZE), mem, now) &&
            Read(now, h) == Read(mem, s.order[j]) && Read(now, h + 8) == Read(mem, s.order[j] + 8)
    ensures Bytes(Copied(mem, h, s.order[j], HEADER_SIZE + Min(s.live[s.order[j] + HEADER_SIZE], size)),
            h + HEADER_SIZE, Min(s.live[s.order[j] + HEADER_SIZE], size))
         == Bytes(mem, s.order[j] + HEADER_SIZE, Min(s.live[s.order[j] + HEADER_SIZE], size))
  {
    hide Sound, Heads, Doubly, SameHeaders, Kept, Read, Vacant, Dropped, Without, Copied, Bytes;
    var n := HEADER_SIZE + Min(s.live[s.order[j] + HEADER_SIZE], size);
    UnregisterKeeps(s, j);
    var now := Copied(mem, h, s.order[j], n);
    forall a | a < h || h + (HEADER_SIZE + size) <= a ensures Read(mem, a) == Read(now, a) {
      CopiedRead(mem, h, s.order[j], n, a);
    }
    CopiedRead(mem, h, s.order[j], n, h);
    CopiedRead(mem, h, s.order[j], n, h + 8);
    CopiedBytes(mem, h, s.order[j], n, HEADER_SIZE, n - HEADER_SIZE);
    OutsideHeld(Unregistered(s, j), mem, Copied(mem, h, s.order[j], n), heads, h, HEADER_SIZE + size);
  }

  /** Resizing the j-th large block, when the host moved it. */
  lemma MoveHeld(s: Shape, mem: Memory, heads: seq<int>, largeHead: int, j: nat, h: int, size: nat, moved: Memory)
    requires Held(s, mem, heads, largeHead) && j < |s.order| && size > MAX_BLOCK && s.order[j] + HEADER_SIZE in s.live
    requires Vacant(s.chunks, Without(s.live, s.order[j] + HEADER_SIZE), h, HEADER_SIZE + size)
    requires moved == Copied(mem, h, s.order[j], HEADER_SIZE + Min(s.live[s.order[j] + HEADER_SIZE], size))
    ensures Held(Moved(s, j, h, size), Rejoined(moved, Before(s.order, j), After(s.order, j), h,
            h), heads, if Before(s.order, j) != 0 then largeHead else h)
    ensures Kept(Moved(s, j, h, size).live, moved, Rejoined(moved, Before(s.order, j), After(s.order, j), h, h))
  {
    hide Sound, Heads, Doubly, Kept, Read, Headers, AllHeaders, Neighbours, Rejoined, Before, After, Vacant, Dropped,
        Without, Copied;
    var t := Moved(s, j, h, size);
    CopyHeld(s, mem, heads, largeHead, j, h, size);
    MoveKeeps(s, j, h, size);
    HeadersApart(s);
    HeadersApart(t);
    OrderDistinct(s);
    DroppedHas(s.order, j);
    OthersStay(s.order, j);
    HeaderParts(mem, largeHead, s.order, j);
    VacantPositiveIn(s.chunks, Without(s.live, s.order[j] + HEADER_SIZE), h, HEADER_SIZE + size);
    Relink(mem, moved, largeHead, s.order, j, h);
    SameNeighbours(s.order, j, h);
    RejoinedReads(moved, t.order, j, h, h);
    NeighboursAreHeaders(t.order, j);
    HeaderWrites(t, moved, Rejoined(moved, Before(s.order, j), After(s.order, j), h, h), heads, Neighbours(t.order, j));
  }

  lemma VacantPositiveIn(chunks: seq<Chunk>, live: map<int, nat>, a: int, n: int)
    requires Vacant(chunks, live, a, n)
    ensures a > 0
  {
  }

  lemma SameNeighbours(l: seq<int>, j: nat, h: int)
    requires j < |l|
    ensures Before(l[j := h], j) == Before(l, j) && After(l[j := h], j) == After(l, j)
  {
  }

  lemma OthersStay(l: seq<int>, j: nat)
    requires j < |l| && NoDup(l) && forall x :: x in Dropped(l, j) <==> x in l && x != l[j]
    ensures forall i :: 0 <= i < |l| && i != j ==> l[i] in Dropped(l, j)
  {
    hide Dropped;
    forall i | 0 <= i < |l| && i != j ensures l[i] in Dropped(l, j) {
      assert l[i] in l && l[i] != l[j];
    }
  }

  /** Resizing the j-th large block, when the host left it in place. */
  lemma StayHeld(s: Shape, mem: Memory, heads: seq<int>, largeHead: int, j: nat, size: nat, moved: Memory)
    requires Held(s, mem, heads, largeHead) && j < |s.order| && size > MAX_BLOCK && s.order[j] + HEADER_SIZE in s.live
    requires Vacant(s.chunks, Without(s.live, s.order[j] + HEADER_SIZE), s.order[j], HEADER_SIZE + size)
    requires moved == Copied(mem, s.order[j], s.order[j], HEADER_SIZE + Min(s.live[s.order[j] + HEADER_SIZE], size))
    ensures Held(Moved(s, j, s.order[j], size), moved, heads, largeHead)
  {
    hide Sound, Heads, Doubly, Kept, Read, Vacant, Without, Copied, Dropped;
    CopyHeld(s, mem, heads, largeHead, j, s.order[j], size);
    MoveKeeps(s, j, s.order[j], size);
    forall a ensures Read(moved, a) == Read(mem, a) {
      CopiedRead(mem, s.order[j], s.order[j], HEADER_SIZE + Min(s.live[s.order[j] + HEADER_SIZE], size), a);
    }
    DoublyKept(mem, moved, largeHead, s.order);
    assert s.order[j := s.order[j]] == s.order;
  }

  lemma IndexOf(l: seq<int>, x: int) returns (j: nat)
    requires x in l
    ensures j < |l| && l[j] == x
  {
    j :| j < |l| && l[j] == x;
  }

  lemma LargeIsListed(s: Shape, p: int)
    requires Sound(s) && p in s.live && s.live[p] > MAX_BLOCK
    ensures p - HEADER_SIZE in s.order
  {
    assert Big(s.live, p);
  }

  // ---------------------------------------------------------------- the allocator

  class Arena {
    var lookup: seq<nat>
    var chunks: seq<Chunk>
    var heads: seq<int>
    var largeHead: int
    var mem: Memory
    var bytesAllocated: int
    var bytesReserved: int
    ghost var shape: Shape

    /** The pointers are in order. */
    ghost predicate Structured()
      reads this
    {
      |lookup| == MAX_BLOCK + 1 && (forall i :: 1 <= i <= MAX_BLOCK ==> lookup[i] == Bucket(i)) &&
      shape.chunks == chunks && |heads| == |shape.frees| == NUM_BUCKETS && Held(shape, mem, heads, largeHead)
    }

    /** And the counters are exact. */
    ghost predicate Valid()
      reads this
    {
      Structured() && bytesAllocated == Total(shape.live) && bytesReserved == CHUNK_SIZE * |chunks|
    }

    /** What the host must have given out for an allocation that the free lists cannot serve. */
    ghost predicate Room(size: nat, place: int)
      reads this
      requires Valid()
    {
      (size > MAX_BLOCK ==> Vacant(chunks, shape.live, place, HEADER_SIZE + size)) &&
      (0 < size <= MAX_BLOCK && heads[Bucket(size)] == 0 ==> Vacant(chunks, shape.live, place, CHUNK_SIZE))
    }

    constructor ()
      ensures Valid() && shape.live == map[] && chunks == []
    {
      var table := BuildLookup();
      lookup := table;
      chunks := [];
      heads := seq(NUM_BUCKETS, _ => 0);
      largeHead := 0;
      mem := map[];
      bytesAllocated, bytesReserved := 0, 0;
      shape := Shape([], map[], seq(NUM_BUCKETS, _ => []), [], map[]);
    }

    /** Put a block of the host's behind a header at the front of the large list. */
    method LargeAlloc(size: nat, h: int) returns (p: int)
      requires Structured() && size > MAX_BLOCK && Vacant(chunks, shape.live, h, HEADER_SIZE + size)
      modifies `mem, `largeHead, `shape
      ensures Held(shape, mem, heads, largeHead) && shape == Registered(old(shape), h, size)
      ensures p == h + HEADER_SIZE && p > 0 && p !in old(shape.live) && Kept(old(shape.live), old(mem), mem)
    {
      hide Bucket, Vacant, Held, Total, Kept;
      RegisterHeld(shape, mem, heads, largeHead, h, size);
      shape := Registered(shape, h, size);
      mem := mem[h := Link(0)];
      mem := mem[h + 8 := Link(largeHead)];
      if largeHead != 0 {
        mem := mem[largeHead := Link(h)];
      }
      largeHead := h;
      p := h + HEADER_SIZE;
    }

    method LargeFree(p: int)
      requires Structured() && p in shape.live && shape.live[p] > MAX_BLOCK
      modifies `mem, `largeHead, `shape
      ensures Held(shape, mem, heads, largeHead) && Kept(old(shape.live), old(mem), mem)
      ensures p - HEADER_SIZE in old(shape.order) && shape.live == Without(old(shape.live), p)
      ensures shape.chunks == chunks && shape.frees == old(shape.frees)
    {
      hide Bucket, Vacant, Sound, Heads, Doubly, Total, Kept, Read, Before, After, Without, Dropped;
      LargeIsListed(shape, p);
      ghost var j := IndexOf(shape.order, p - HEADER_SIZE);
      HeaderParts(mem, largeHead, shape.order, j);
      UnregisterHeld(shape, mem, heads, largeHead, j);
      shape := Unregistered(shape, j);
      var h := p - HEADER_SIZE;
      var prev, next := Read(mem, h).to, Read(mem, h + 8).to;
      if prev != 0 {
        mem := mem[prev + 8 := Link(next)];
      } else {
        largeHead := next;
      }
      if next != 0 {
        mem := mem[next := Link(prev)];
      }
    }

    /** Resize a large block; the host knows its old size and says where it is afterwards. */
    method LargeRealloc(p: int, oldSize: nat, size: nat, place: int) returns (r: int)
      requires Structured() && p in shape.live && shape.live[p] == oldSize > MAX_BLOCK && size > MAX_BLOCK
      requires Vacant(chunks, Without(shape.live, p), place, HEADER_SIZE + size)
      modifies `mem, `largeHead, `shape
      ensures Held(shape, mem, heads, largeHead) && Kept(Without(old(shape.live), p), old(mem), mem)
      ensures r == place + HEADER_SIZE && r > 0 && r !in Without(old(shape.live), p) &&
              shape.live == Without(old(shape.live), p)[r := size]
      ensures Bytes(mem, r, Min(oldSize, size)) == Bytes(old(mem), p, Min(oldSize, size))
      ensures shape.chunks == chunks && shape.frees == old(shape.frees)
    {
      hide Bucket, Vacant, Sound, Heads, Doubly, SameHeaders, Total, Kept, Read, Before, After, Without, Dropped,
          Copied, Bytes;
      LargeIsListed(shape, p);
      ghost var j := IndexOf(shape.order, p - HEADER_SIZE);
      var was := p - HEADER_SIZE;
      CopyHeld(shape, mem, heads, largeHead, j, place, size);
      MoveKeeps(shape, j, place, size);
      VacantPositiveIn(chunks, Without(shape.live, p), place, HEADER_SIZE + size);
      HeaderParts(mem, largeHead, shape.order, j);
      ghost var before := mem;
      mem := Copied(mem, place, was, HEADER_SIZE + Min(oldSize, size));
      r := place + HEADER_SIZE;
      if place == was {
        StayHeld(shape, before, heads, largeHead, j, size, mem);
        shape := Moved(shape, j, place, size);
        return;
      }
      MoveHeld(shape, before, heads, largeHead, j, place, size, mem);
      ghost var copied := mem;
      ghost var wasLive := shape.live;
      shape := Moved(shape, j, place, size);
      var prev, next := Read(mem, place).to, Read(mem, place + 8).to;
      if prev != 0 {
        mem := mem[prev + 8 := Link(place)];
      } else {
        largeHead := place;
      }
      if next != 0 {
        mem := mem[next := Link(place)];
      }
      KeptMore(Without(wasLive, p), r, size, before, copied, mem, Min(oldSize, size));
    }

    /** Hand out size bytes: from the bucket's free list, from a new chunk, or from the host. */
    method Alloc(size: nat, place: int) returns (p: int)
      requires Valid() && Room(size, place)
      modifies this
      ensures Valid() && Kept(old(shape.live), old(mem), mem)
      ensures size == 0 ==> p == 0 && shape == old(shape) && mem == old(mem)
      ensures size > 0 ==> p > 0 && p !in old(shape.live) && shape.live == old(shape.live)[p := size]
      ensures chunks == if 0 < size <= MAX_BLOCK && old(heads[Bucket(size)]) == 0 then old(chunks) + [Chunk(place,
              Bucket(size))] else old(chunks)
    {
      hide Bucket, Vacant, Held, Total, Kept, Addr, Charge, BlockSize, Count, Threaded, Rest, Read, Popped, Grown;
      KeptSame(shape.live, mem);
      if size == 0 {
        return 0;
      }
      if size > MAX_BLOCK {
        TotalAdds(shape.live, size);
        bytesAllocated := bytesAllocated + size;
        p := LargeAlloc(size, place);
        return;
      }
      TotalAdds(shape.live, size);
      var index := lookup[size];
      var blockSize := BlockSize(index);
      if heads[index] != 0 {
        PopHeld(shape, mem, heads, largeHead, size);
        p := heads[index];
        PoppedIs(shape, index, size);
        heads := heads[index := Read(mem, heads[index]).to];
        bytesAllocated := bytesAllocated + blockSize;
        shape := Popped(shape, index, size);
        return;
      }
      ghost var before := mem;
      var chunk := Chunk(place, index);
      chunks := chunks + [chunk];
      bytesReserved := bytesReserved + CHUNK_SIZE;
      VacantPositiveIn(shape.chunks, shape.live, place, CHUNK_SIZE);
      Carve(chunk);
      GrowHeld(shape, before, mem, heads, largeHead, place, size);
      GrownIs(shape, place, size);
      heads := heads[index := Read(mem, place).to];
      bytesAllocated := bytesAllocated + blockSize;
      shape := Grown(shape, place, size);
      p := place;
    }

    /** Thread a new chunk's blocks together, the last one ending the list. */
    method Carve(c: Chunk)
      requires c.bucket < NUM_BUCKETS && c.base > 0
      modifies `mem
      ensures Read(mem, c.base) == Link(Addr(c, 1)) && Threaded(mem, Addr(c, 1), Rest(c, 1))
      ensures forall a :: a < c.base || c.base + CHUNK_SIZE <= a ==> Read(mem, a) == Read(old(mem), a)
    {
      hide Addr, BlockSize, Count, Read;
      var n := Count(c.bucket);
      var i := 0;
      while i < n - 1
        invariant 0 <= i <= n - 1
        invariant forall k :: 0 <= k < i ==> Read(mem, Addr(c, k)) == Link(Addr(c, k + 1))
        invariant forall a :: a < c.base || c.base + CHUNK_SIZE <= a ==> Read(mem, a) == Read(old(mem), a)
      {
        CarveStep(mem, c, i, Link(Addr(c, i + 1)));
        mem := mem[Addr(c, i) := Link(Addr(c, i + 1))];
        i := i + 1;
      }
      CarveStep(mem, c, n - 1, Link(0));
      mem := mem[Addr(c, n - 1) := Link(0)];
      RestThreaded(mem, c);
      FirstAddr(c.base, c.bucket);
    }

    /** Give a block back: to its bucket's free list, or to the host. */
    method Free(p: int, size: nat)
      requires Valid() && (p == 0 || size == 0 || (p in shape.live && shape.live[p] == size))
      modifies this
      ensures Valid() && chunks == old(chunks)
      ensures shape.live == if p == 0 || size == 0 then old(shape.live) else Without(old(shape.live), p)
      ensures Kept(shape.live, old(mem), mem)
      ensures p != 0 && 0 < size <= MAX_BLOCK ==> heads[Bucket(size)] == p
    {
      hide Bucket, Held, Total, Kept, BlockSize, Read, Without;
      KeptSame(shape.live, mem);
      if p == 0 || size == 0 {
        return;
      }
      TotalDrops(shape.live, p);
      KeptFewer(shape.live, p);
      if size > MAX_BLOCK {
        bytesAllocated := bytesAllocated - size;
        LargeFree(p);
        return;
      }
      var index := lookup[size];
      bytesAllocated := bytesAllocated - BlockSize(index);
      PushHeld(shape, mem, heads, largeHead, p);
      mem := mem[p := Link(heads[index])];
      heads := heads[index := p];
      shape := Pushed(shape, index, p);
    }

    /** Resize an allocation: its first bytes go along, and every other allocation stays as it is. */
    method Realloc(p: int, oldSize: nat, newSize: nat, place: int) returns (r: int)
      requires Valid() && (p == 0 || oldSize == 0 || (p in shape.live && shape.live[p] == oldSize))
      requires Refits(p, oldSize, newSize, place)
      modifies this
      ensures Valid()
      ensures newSize == 0 ==> r == 0 && shape.live == if p == 0 || oldSize == 0 then old(shape.live)
              else Without(old(shape.live), p)
      ensures newSize > 0 && (p == 0 || oldSize == 0) ==>
                r !in old(shape.live) && shape.live == old(shape.live)[r := newSize] &&
                Kept(old(shape.live), old(mem), mem)
      ensures newSize > 0 && p != 0 && oldSize > 0 ==>
        shape.live == Without(old(shape.live), p)[r := newSize] && r !in Without(old(shape.live), p) &&
        Bytes(mem, r, Min(oldSize, newSize)) == Bytes(old(mem), p, Min(oldSize, newSize))
      ensures p != 0 && oldSize > 0 ==> Kept(Without(old(shape.live), p), old(mem), mem)
    {
      hide Bucket, Held, Total, Kept, BlockSize, Read, Without, Bytes, Copied, Vacant;
      if newSize == 0 {
        Free(p, oldSize);
        return 0;
      }
      if p == 0 || oldSize == 0 {
        r := Alloc(newSize, place);
        return;
      }
      ghost var live := shape.live;
      WithoutHas(live, p, newSize);
      if oldSize <= MAX_BLOCK && newSize <= MAX_BLOCK {
        if lookup[oldSize] == lookup[newSize] {
          ResizeHeld(shape, mem, heads, largeHead, p, newSize);
          TotalMoves(live, p, p, newSize);
          KeptSame(Without(live, p), mem);
          shape := shape.(live := shape.live[p := newSize]);
          return p;
        }
      } else if oldSize > MAX_BLOCK && newSize > MAX_BLOCK {
        bytesAllocated := bytesAllocated + newSize - oldSize;
        r := LargeRealloc(p, oldSize, newSize, place);
        TotalMoves(live, p, r, newSize);
        return;
      }
      ghost var before := mem;
      r := Alloc(newSize, place);
      ghost var grown := mem;
      CopyInside(shape, mem, heads, largeHead, r, p, Min(oldSize, newSize), newSize);
      mem := Copied(mem, r, p, Min(oldSize, newSize));
      ghost var copied := mem;
      Free(p, oldSize);
      CopyOutcome(live, p, oldSize, r, newSize, before, grown, copied, mem);
    }

    /** The host memory a reallocation may need. */
    ghost predicate Refits(p: int, oldSize: nat, newSize: nat, place: int)
      reads this
      requires Valid()
    {
      if newSize == 0 then true
      else if p == 0 || oldSize == 0 then Room(newSize, place)
      else if oldSize <= MAX_BLOCK && newSize <= MAX_BLOCK && Bucket(oldSize) == Bucket(newSize) then true
      else if oldSize > MAX_BLOCK && newSize > MAX_BLOCK then Vacant(chunks, Without(shape.live, p), place,
          HEADER_SIZE + newSize)
      else Room(newSize, place)
    }

    /** The program stores into its own allocation. */
    method Store(p: int, i: nat, c: Cell)
      requires Valid() && p in shape.live && i < shape.live[p]
      modifies `mem
      ensures Valid() && Read(mem, p + i) == c && Kept(Without(shape.live, p), old(mem), mem)
    {
      hide Held, Total, Kept, Read, Without, Bucket;
      ReadPut(mem, p + i, c);
      InsideHeld(shape, mem, mem[p + i := c], heads, largeHead, p);
      mem := mem[p + i := c];
    }

    /** Tear everything down: each region the host gave out goes back exactly once. */
    method Destroy() returns (freed: seq<int>)
      requires Valid()
      modifies this
      ensures |freed| == old(|chunks|) + old(|shape.order|)
      ensures forall i :: 0 <= i < old(|chunks|) ==> freed[i] == old(chunks[i].base)
      ensures freed[old(|chunks|)..] == old(shape.order)
      ensures chunks == [] && largeHead == 0
    {
      hide Bucket, Sound, Heads, Total, Kept, Read, Without;
      freed := [];
      var i := 0;
      while i < |chunks|
        invariant 0 <= i <= |chunks| && |freed| == i && chunks == old(chunks)
        invariant forall k :: 0 <= k < i ==> freed[k] == chunks[k].base
        invariant largeHead == old(largeHead) && mem == old(mem)
      {
        freed := freed + [chunks[i].base];
        i := i + 1;
      }
      chunks := [];
      var h := largeHead;
      ghost var k := 0;
      ghost var order := old(shape.order);
      ghost var bases := freed;
      while h != 0
        invariant k <= |order| && h == After(order, k - 1)
        invariant freed == bases + order[..k]
        invariant mem == old(mem) && chunks == []
        decreases |order| - k
      {
        assert k < |order|;
        HeaderParts(old(mem), old(largeHead), order, k);
        var next := Read(mem, h + 8).to;
        freed := freed + [h];
        k := k + 1;
        h := next;
      }
      EndOfList(old(mem), old(largeHead), order, k);
      largeHead := 0;
    }
  }

  lemma KeptSame(live: map<int, nat>, mem: Memory)
    ensures Kept(live, mem, mem)
  {
  }

  lemma CarveStep(mem: Memory, c: Chunk, i: nat, to: Cell)
    requires c.bucket < NUM_BUCKETS && i < Count(c.bucket)
    ensures Read(mem[Addr(c, i) := to], Addr(c, i)) == to
    ensures forall k :: 0 <= k < i ==> Read(mem[Addr(c, i) := to], Addr(c, k)) == Read(mem, Addr(c, k))
    ensures forall a :: a < c.base || c.base + CHUNK_SIZE <= a ==> Read(mem[Addr(c, i) := to], a) == Read(mem, a)
  {
    hide Addr, BlockSize, Count, Read;
    ReadPut(mem, Addr(c, i), to);
    AddrWithin(c, i);
    forall k | 0 <= k < i ensures Addr(c, k) != Addr(c, i) { AddrApart(c, k, i); }
  }

  lemma RestThreaded(mem: Memory, c: Chunk)
    requires c.bucket < NUM_BUCKETS && c.base > 0
    requires forall k :: 0 <= k < Count(c.bucket) - 1 ==> Read(mem, Addr(c, k)) == Link(Addr(c, k + 1))
    requires Read(mem, Addr(c, Count(c.bucket) - 1)) == Link(0)
    ensures Threaded(mem, Addr(c, 1), Rest(c, 1))
  {
    hide Addr, BlockSize, Count, Read;
    var l := Rest(c, 1);
    forall j | 0 <= j < |l| ensures l[j] != 0 && Read(mem, l[j]) == Link(After(l, j)) {
      AddrWithin(c, 1 + j);
    }
  }

  lemma PoppedIs(s: Shape, b: nat, size: nat)
    requires b < |s.frees| && s.frees[b] != []
    ensures Popped(s, b, size).live == s.live[s.frees[b][0] := size] && Popped(s, b, size).chunks == s.chunks &&
            |Popped(s, b, size).frees| == |s.frees|
  {
  }

  lemma GrownIs(s: Shape, base: int, size: nat)
    requires 0 < size <= MAX_BLOCK && |s.frees| == NUM_BUCKETS
    ensures Grown(s, base, size).live == s.live[base := size] &&
            Grown(s, base, size).chunks == s.chunks + [Chunk(base, Bucket(size))] &&
            |Grown(s, base, size).frees| == NUM_BUCKETS
  {
    hide Bucket, BlockSize, Count, Carving, Rest;
  }

  lemma TotalAdds(live: map<int, nat>, size: nat)
    requires size > 0
    ensures forall p :: p !in live ==> Total(live[p := size]) == Total(live) + if size > MAX_BLOCK then size
            else BlockSize(Bucket(size))
  {
    forall p | p !in live ensures Total(live[p := size]) == Total(live) + Charge(size) { TotalWith(live, p, size); }
  }

  /** Contents kept by a copy and then by relinking. */
  lemma KeptMore(live: map<int, nat>, r: int, size: nat, mem: Memory, copied: Memory, now: Memory, n: nat)
    requires Kept(live, mem, copied) && Kept(live[r := size], copied, now) && n <= size && r !in live
    ensures Kept(live, mem, now) && Bytes(now, r, n) == Bytes(copied, r, n)
  {
    hide Bytes;
    forall q | q in live ensures Bytes(mem, q, live[q]) == Bytes(now, q, live[q]) {
      assert Bytes(copied, q, live[r := size][q]) == Bytes(now, q, live[r := size][q]);
    }
    assert Bytes(copied, r, live[r := size][r]) == Bytes(now, r, live[r := size][r]);
    BytesPrefix(copied, now, r, size, n);
  }

  lemma BytesPrefix(mem: Memory, now: Memory, a: int, size: nat, n: nat)
    requires n <= size && Bytes(mem, a, size) == Bytes(now, a, size)
    ensures Bytes(mem, a, n) == Bytes(now, a, n)
  {
    assert Bytes(mem, a, n) == Bytes(mem, a, size)[..n];
    assert Bytes(now, a, n) == Bytes(now, a, size)[..n];
  }

  lemma EndOfList(mem: Memory, head: int, l: seq<int>, k: nat)
    requires Doubly(mem, head, l) && k <= |l| && After(l, k - 1) == 0
    ensures k == |l|
  {
    assert k < |l| ==> HeaderAt(mem, l, k);
  }

  lemma TotalDrops(live: map<int, nat>, p: int)
    requires p in live && live[p] > 0
    ensures Total(Without(live, p)) == Total(live) - if live[p] > MAX_BLOCK then live[p] else BlockSize(Bucket(live[p]))
  {
    hide BlockSize, Bucket, Without;
    TotalWithout(live, p);
  }

  lemma TotalMoves(live: map<int, nat>, p: int, r: int, size: nat)
    requires p in live && r !in Without(live, p) && size > 0 && live[p] > 0
    ensures live[p] > MAX_BLOCK && size > MAX_BLOCK ==>
              Total(Without(live, p)[r := size]) == Total(live) - live[p] + size
    ensures live[p] <= MAX_BLOCK && size <= MAX_BLOCK && Bucket(live[p]) == Bucket(size) ==>
              Total(Without(live, p)[r := size]) == Total(live)
  {
    hide BlockSize, Bucket, Without;
    TotalWithout(live, p);
    TotalWith(Without(live, p), r, size);
  }

  lemma WithoutHas(live: map<int, nat>, p: int, n: nat)
    requires p in live
    ensures p !in Without(live, p) && Without(live, p)[p := n] == live[p := n]
  {
  }

  lemma KeptFewer(live: map<int, nat>, p: int)
    ensures forall mem, now :: Kept(live, mem, now) ==> Kept(Without(live, p), mem, now)
  {
  }

  /** A size that stays in its bucket can change in place. */
  lemma ResizeHeld(s: Shape, mem: Memory, heads: seq<int>, largeHead: int, p: int, size: nat)
    requires Held(s, mem, heads, largeHead) && p in s.live && 0 < s.live[p] <= MAX_BLOCK && 0 < size <= MAX_BLOCK &&
             Bucket(s.live[p]) == Bucket(size)
    ensures Held(s.(live := s.live[p := size]), mem, heads, largeHead)
  {
    hide Bucket, BlockSize, Carved, Heads, Doubly;
    var t := s.(live := s.live[p := size]);
    SameBig(s.live, t.live);
    assert Pooled(s, p);
    assert Partitioned(t) by {
      forall b, q | 0 <= b < NUM_BUCKETS && q in t.frees[b] ensures Free(t, q, b) { assert Free(s, q, b); }
      forall q | q in t.live && t.live[q] <= MAX_BLOCK ensures Pooled(t, q) { assert Pooled(s, q); }
    }
    ResizeRegions(s, t);
  }

  lemma ResizeRegions(s: Shape, t: Shape)
    requires Spread(s.chunks, s.live) && Listed(s.order, s.live) && t.chunks == s.chunks && t.order == s.order
    requires (forall p :: Big(s.live, p) <==> Big(t.live, p)) && forall p :: Big(t.live, p) ==>
               p in s.live && t.live[p] == s.live[p]
    ensures Spread(t.chunks, t.live) && Listed(t.order, t.live)
  {
    hide Big;
  }

  /** Copying into a fresh allocation. */
  lemma CopyInside(s: Shape, mem: Memory, heads: seq<int>, largeHead: int, r: int, p: int, n: nat, size: nat)
    requires Held(s, mem, heads, largeHead) && r in s.live && s.live[r] == size && n <= size
    ensures Held(s, Copied(mem, r, p, n), heads, largeHead) && Kept(Without(s.live, r), mem, Copied(mem, r, p, n))
    ensures Bytes(Copied(mem, r, p, n), r, n) == Bytes(mem, p, n)
  {
    hide Held, Read, Copied, Kept, Bytes;
    forall a | a < r || r + s.live[r] <= a ensures Read(mem, a) == Read(Copied(mem, r, p, n), a) {
      CopiedRead(mem, r, p, n, a);
    }
    InsideHeld(s, mem, Copied(mem, r, p, n), heads, largeHead, r);
    CopiedBytes(mem, r, p, n, 0, n);
  }

  lemma CopyOutcome(live: map<int, nat>, p: int, oldSize: nat, r: int, size: nat, before: Memory, grown: Memory,
        copied: Memory, now: Memory)
    requires p in live && live[p] == oldSize && r !in live
    requires Kept(live, before, grown) && Kept(Without(live[r := size], r), grown, copied) &&
             Kept(Without(live[r := size], p), copied, now)
    requires Bytes(copied, r, Min(oldSize, size)) == Bytes(grown, p, Min(oldSize, size))
    ensures Without(live[r := size], p) == Without(live, p)[r := size] && r !in Without(live, p)
    ensures Kept(Without(live, p), before, now) &&
            Bytes(now, r, Min(oldSize, size)) == Bytes(before, p, Min(oldSize, size))
  {
    hide Bytes;
    var a, b := Without(live[r := size], r), Without(live[r := size], p);
    forall q | q in Without(live, p) ensures Bytes(before, q, live[q]) == Bytes(now, q, live[q]) {
      assert q in a && q in b && Bytes(grown, q, a[q]) == Bytes(copied, q, a[q]) &&
          Bytes(copied, q, b[q]) == Bytes(now, q, b[q]);
    }
    assert Bytes(before, p, live[p]) == Bytes(grown, p, live[p]) && Bytes(copied, r, b[r]) == Bytes(now, r, b[r]);
    BytesPrefix(before, grown, p, oldSize, Min(oldSize, size));
    BytesPrefix(copied, now, r, size, Min(oldSize, size));
  }
}
