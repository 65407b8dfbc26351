/** The size-class allocator of `memory/memory.cpp` and `memory/memory_pool.cpp`: a table from block
    sizes to pools, and pools that keep released blocks for the next request of their class. */
module MemoryManagers {

  type Block = nat      // an address the operating system handed out

  const MAX_ALLOC_SIZE := 4096

  datatype Pool = Pool(allocSize: nat, free: seq<Block>, useCount: int, reserveCount: int)

  function NewPool(size: nat): Pool {
    Pool(size, [], 0, 0)
  }

  /** The class of a block of `size` bytes: the next multiple of 32, 128 or 256 by range. */
  function ClassOf(size: nat): nat
    requires size <= MAX_ALLOC_SIZE
  {
    if size <= 1024 then RoundUp(if size == 0 then 1 else size, 32)
    else if size <= 2048 then RoundUp(size, 128)
    else RoundUp(size, 256)
  }

  function RoundUp(size: nat, step: nat): (r: nat)
    requires step > 0
  {
    (size + step - 1) / step * step
  }

  /** Nothing is cut short, and little is wasted. */
  lemma ClassFits(size: nat)
    requires size <= MAX_ALLOC_SIZE
    ensures size <= ClassOf(size) <= MAX_ALLOC_SIZE
    ensures size >= 1 ==> ClassOf(size) - size < if size <= 1024 then 32 else if size <= 2048 then 128 else 256
  {}

  /** It is the next multiple of the step of its range, so the least class that is large enough. */
  lemma ClassIsNext(size: nat)
    requires size <= MAX_ALLOC_SIZE
    ensures ClassOf(size) % (if size <= 1024 then 32 else if size <= 2048 then 128 else 256) == 0
    ensures size == 0 ==> ClassOf(size) == 32
    ensures size > 0 ==> ClassOf(size) - (if size <= 1024 then 32 else if size <= 2048 then 128 else 256) < size <= ClassOf(size)
  {
    hide RoundUp;
    RoundUp32(if size == 0 then 1 else size, ((if size == 0 then 1 else size) + 31) / 32);
    RoundUp128(size, (size + 127) / 128);
    RoundUp256(size, (size + 255) / 256);
  }

  /** The sizes the three loops go through, and the indexes each of them fills. */
  predicate ClassRange(i: nat, size: nat) {
    || (32 <= size <= 1024 && size % 32 == 0 && i <= size && (size - 32 < i || size == 32))
    || (1024 < size <= 2048 && size % 128 == 0 && 1024 < i && size - 128 < i <= size)
    || (2048 < size <= MAX_ALLOC_SIZE && size % 256 == 0 && 2048 < i && size - 256 < i <= size)
  }

  lemma RoundUp32(i: nat, k: nat)
    requires 32 * k - 32 < i <= 32 * k
    ensures RoundUp(i, 32) == 32 * k
  {}

  lemma RoundUp128(i: nat, k: nat)
    requires 128 * k - 128 < i <= 128 * k
    ensures RoundUp(i, 128) == 128 * k
  {}

  lemma RoundUp256(i: nat, k: nat)
    requires 256 * k - 256 < i <= 256 * k
    ensures RoundUp(i, 256) == 256 * k
  {}

  lemma ClassIs(i: nat, size: nat)
    requires ClassRange(i, size)
    ensures i <= MAX_ALLOC_SIZE && ClassOf(i) == size
  {
    hide RoundUp;
    if size <= 1024 {
      RoundUp32(if i == 0 then 1 else i, size / 32);
    } else if size <= 2048 {
      RoundUp128(i, size / 128);
    } else {
      RoundUp256(i, size / 256);
    }
  }

  class MemoryManager {
    const headerSize: nat                 // sizeof(MemoryHeader)
    const table: array<nat>               // _pool_table, as indexes into `pools`
    var pools: seq<Pool>
    var blocks: map<Block, nat>           // the operating system's blocks and their sizes
    var headers: map<Block, nat>          // MemoryHeader::alloc_size of each block
    ghost var lent: map<Block, nat>       // live blocks and the bytes asked for
    ghost var origin: map<Block, nat>     // every block a pool has ever created, and that pool

    /** The first indexes of the table lead to pools of the right class. */
    ghost predicate Filled(index: nat)
      reads this`pools, table
    {
      index <= table.Length == MAX_ALLOC_SIZE + 1 &&
      forall i :: 0 <= i < index ==> table[i] < |pools| && pools[table[i]].allocSize == ClassOf(i)
    }

    ghost predicate AllNew()
      reads this`pools
    {
      forall p :: 0 <= p < |pools| ==> pools[p] == NewPool(pools[p].allocSize)
    }

    /** A new pool of the given size, entered for every index from the next free one up to that size. */
    method AddPool(index: nat, size: nat) returns (index': nat)
      requires Filled(index) && AllNew() && size <= MAX_ALLOC_SIZE
      requires forall i :: index <= i <= size ==> ClassRange(i, size)
      modifies this`pools, table
      ensures index' == (if index <= size then size + 1 else index) && Filled(index')
      ensures AllNew() && pools == old(pools) + [NewPool(size)]
    {
      hide ClassOf;
      pools := pools + [NewPool(size)];
      index' := index;
      while index' <= size
        invariant index <= index' <= (if index <= size then size + 1 else index) && Filled(index')
        invariant pools == old(pools) + [NewPool(size)]
      {
        ClassIs(index', size);
        table[index'] := |pools| - 1;
        index' := index' + 1;
      }
    }

    constructor (header: nat)
      requires header > 0
      ensures Valid() && headerSize == header && fresh(table) && Filled(MAX_ALLOC_SIZE + 1)
      ensures AllNew()
      ensures blocks == map[] && headers == map[] && lent == map[] && origin == map[]
    {
      headerSize, table := header, new nat[MAX_ALLOC_SIZE + 1];
      pools := [];
      new;
      BuildTable();
      blocks, headers, lent, origin := map[], map[], map[], map[];
      NewIsSound(pools, table[..], header) by { assert forall p :: 0 <= p < |pools| ==> pools[p] == NewPool(pools[p].allocSize); }
    }

    /** The three loops of the constructor; the second and the third start with a class that has
        its pool already, so that their first pool gets no index. */
    method BuildTable()
      requires table.Length == MAX_ALLOC_SIZE + 1 && pools == []
      modifies this`pools, table
      ensures Filled(MAX_ALLOC_SIZE + 1) && AllNew()
    {
      assert Filled(0) && AllNew();
      hide Filled, AllNew;
      var index, size := 0, 32;
      while size <= 1024
        invariant 32 <= size <= 1056 && size % 32 == 0 && Filled(index) && index == (if size == 32 then 0 else size - 31)
        invariant AllNew()
      {
        index := AddPool(index, size);
        size := size + 32;
      }
      size := 1024;
      while size <= 2048
        invariant 1024 <= size <= 2176 && size % 128 == 0 && Filled(index) && index == (if size == 1024 then 1025 else size - 127)
        invariant AllNew()
      {
        index := AddPool(index, size);
        size := size + 128;
      }
      size := 2048;
      while size <= 4096
        invariant 2048 <= size <= 4352 && size % 256 == 0 && Filled(index) && index == (if size == 2048 then 2049 else size - 255)
        invariant AllNew()
      {
        index := AddPool(index, size);
        size := size + 256;
      }
    }

    // -------------------------------------------------------------- requests and releases

    ghost predicate Valid()
      reads this, table
    {
      && headerSize > 0 && TableOk(table[..], pools)
      && Sound(Memory(pools, blocks, headers, lent, origin), table[..], headerSize)
    }

    /** `MemoryPool::Pop`: the block released last, or the operating system's `unused` one. */
    method Pop(p: nat, unused: Block) returns (memory: Block)
      requires p < |pools| && FreeOk(pools, blocks, headers, lent)
      modifies this`pools, this`blocks, this`headers, this`origin
      ensures memory == Top(old(pools)[p], unused) && pools == old(pools)[p := Popped(old(pools)[p])]
      ensures blocks == old(if pools[p].free == [] then blocks[unused := pools[p].allocSize] else blocks)
      ensures headers == old(if pools[p].free == [] then headers[unused := 0] else headers)
      ensures origin == old(if pools[p].free == [] then origin[unused := p] else origin)
    {
      var pool := pools[p];
      if pool.free == [] {
        memory := unused;
        blocks, headers, origin := blocks[memory := pool.allocSize], headers[memory := 0], origin[memory := p];
      } else {
        memory := pool.free[0];
        assert headers[memory] == 0;
        pool := pool.(free := pool.free[1..], reserveCount := pool.reserveCount - 1);
      }
      pools := pools[p := pool.(useCount := pool.useCount + 1)];
    }

    /** The block is not live yet and large enough.  Up to 4096 bytes with the header it comes from the
        pool of its class, which is asked for one block; beyond that from the operating system. */
    method Allocate(size: nat, unused: Block) returns (memory: Block)
      requires Valid() && unused !in blocks
      modifies this`pools, this`blocks, this`headers, this`lent, this`origin
      ensures Valid() && memory !in old(lent) && lent == old(lent)[memory := size]
      ensures memory in blocks && blocks[memory] >= size + headerSize
      ensures size + headerSize > MAX_ALLOC_SIZE ==> memory == unused && pools == old(pools) && origin == old(origin)
      ensures size + headerSize > MAX_ALLOC_SIZE ==> blocks == old(blocks)[unused := size + headerSize]
      ensures size + headerSize <= MAX_ALLOC_SIZE ==>
        Took(old(Memory(pools, blocks, headers, lent, origin)), Memory(pools, blocks, headers, lent, origin),
             table[size + headerSize], unused, memory)
    {
      ghost var was := Memory(pools, blocks, headers, lent, origin);
      hide FreeOk, LentOk, CountsOk, OriginOk, NoLeak, TableOk, ClassOf;
      TableLength(table[..], pools);
      var allocSize := size + headerSize;
      if allocSize > MAX_ALLOC_SIZE {
        LargeKeeps(was, table[..], headerSize, size, unused);
        memory := unused;
        blocks := blocks[memory := allocSize];
      } else {
        PoolOf(table[..], pools, allocSize);
        SizesStay(table[..], pools, table[allocSize], unused);
        PoppedKeeps(was, table[..], headerSize, table[allocSize], size, unused);
        ClassFits(allocSize);
        memory := Pop(table[allocSize], unused);
        assert headers[memory := allocSize] == was.headers[memory := allocSize];
      }
      headers := headers[memory := allocSize];
      lent := lent[memory := size];
    }

    /** `MemoryPool::Push`. */
    method Push(p: nat, memory: Block)
      requires p < |pools|
      modifies this`pools, this`headers
      ensures headers == old(headers)[memory := 0] && pools == old(pools)[p := Pushed(old(pools)[p], memory)]
    {
      var pool := pools[p];
      headers := headers[memory := 0];
      pools := pools[p := pool.(free := [memory] + pool.free, useCount := pool.useCount - 1, reserveCount := pool.reserveCount + 1)];
    }

    /** The block goes back to the pool it came from, or, when it is too large for any, to the operating
        system. */
    method Release(memory: Block)
      requires Valid() && memory in lent
      modifies this`pools, this`blocks, this`headers, this`lent
      ensures Valid() && lent == old(lent) - {memory} && origin == old(origin)
      ensures old(lent)[memory] + headerSize > MAX_ALLOC_SIZE ==> pools == old(pools) && blocks == old(blocks) - {memory}
      ensures old(lent)[memory] + headerSize <= MAX_ALLOC_SIZE ==>
        blocks == old(blocks) && GotBack(old(pools), pools, blocks, origin, table[old(lent)[memory] + headerSize], memory)
    {
      ghost var was := Memory(pools, blocks, headers, lent, origin);
      hide Sound, TableOk, ClassOf, Pushed;
      LiveHeader(was, table[..], headerSize, memory);
      TableLength(table[..], pools);
      var allocSize := headers[memory];
      assert allocSize > 0;
      if allocSize > MAX_ALLOC_SIZE {
        FreedKeeps(was, table[..], headerSize, memory);
        blocks, headers, lent := blocks - {memory}, headers - {memory}, lent - {memory};
      } else {
        ReleaseTo(table[allocSize], memory);
      }
    }

    /** The block of a pool, given that pool. */
    method ReleaseTo(p: nat, memory: Block)
      requires Valid() && memory in lent && memory in headers && headers[memory] <= MAX_ALLOC_SIZE
      requires table.Length == MAX_ALLOC_SIZE + 1 && p == table[headers[memory]]
      modifies this`pools, this`headers, this`lent
      ensures Valid() && lent == old(lent) - {memory} && GotBack(old(pools), pools, blocks, origin, p, memory)
    {
      ghost var was := Memory(pools, blocks, headers, lent, origin);
      hide Sound, TableOk, ClassOf, Pushed;
      PoolOf(table[..], pools, headers[memory]);
      SizesStay(table[..], pools, p, memory);
      PushedKeeps(was, table[..], headerSize, p, memory);
      Push(p, memory);
      lent := lent - {memory};
    }
  }

  /** Pool `p` has handed out `memory`: the block it got back last, or, when it keeps none, a new one of
      its own size. */
  predicate Took(was: Memory, m: Memory, p: nat, unused: Block, memory: Block) {
    && p < |was.pools| && memory == Top(was.pools[p], unused) && m.pools == was.pools[p := Popped(was.pools[p])]
    && m.blocks == WithBlock(was, p, unused) && m.origin == WithOrigin(was, p, unused)
  }

  /** Pool `p` has taken back a block that it had created itself, of its own size. */
  predicate GotBack(was: seq<Pool>, pools: seq<Pool>, blocks: map<Block, nat>, origin: map<Block, nat>, p: nat, memory: Block) {
    && p < |was| && memory in blocks && blocks[memory] == was[p].allocSize && memory in origin && origin[memory] == p
    && pools == was[p := Pushed(was[p], memory)]
  }

  lemma LiveHeader(m: Memory, table: seq<nat>, headerSize: nat, b: Block)
    requires Sound(m, table, headerSize) && b in m.lent
    ensures b in m.headers && m.headers[b] == m.lent[b] + headerSize
  {
    assert LiveOk(b, m.lent[b] + headerSize, m.blocks, m.headers);
  }

  // ---------------------------------------------------------------- one request, one release

  /** Every size leads to a pool of its class. */
  predicate TableOk(table: seq<nat>, pools: seq<Pool>) {
    |table| == MAX_ALLOC_SIZE + 1 &&
    forall i :: 0 <= i < |table| ==> table[i] < |pools| && pools[table[i]].allocSize == ClassOf(i)
  }

  lemma TableLength(table: seq<nat>, pools: seq<Pool>)
    requires TableOk(table, pools)
    ensures |table| == MAX_ALLOC_SIZE + 1
  {}

  lemma PoolOf(table: seq<nat>, pools: seq<Pool>, i: nat)
    requires TableOk(table, pools) && i <= MAX_ALLOC_SIZE
    ensures |table| == MAX_ALLOC_SIZE + 1 && table[i] < |pools| && pools[table[i]].allocSize == ClassOf(i)
  {}

  /** Requests and releases change no pool's size. */
  lemma SizesStay(table: seq<nat>, pools: seq<Pool>, p: nat, unused: Block)
    requires TableOk(table, pools) && p < |pools|
    ensures TableOk(table, pools[p := Popped(pools[p])]) && TableOk(table, pools[p := Pushed(pools[p], unused)])
  {
    hide ClassOf;
  }

  datatype Memory = Memory(pools: seq<Pool>, blocks: map<Block, nat>, headers: map<Block, nat>, lent: map<Block, nat>,
                             origin: map<Block, nat>)

  function Top(pool: Pool, unused: Block): Block {
    if pool.free == [] then unused else pool.free[0]
  }

  function Popped(pool: Pool): Pool {
    if pool.free == [] then pool.(useCount := pool.useCount + 1)
    else pool.(free := pool.free[1..], reserveCount := pool.reserveCount - 1, useCount := pool.useCount + 1)
  }

  function Pushed(pool: Pool, memory: Block): Pool {
    pool.(free := [memory] + pool.free, useCount := pool.useCount - 1, reserveCount := pool.reserveCount + 1)
  }

  /** The block given back last is the next one handed out, and then the pool is as it was; a pool that
      keeps none hands out a new one. */
  lemma LastBackFirstOut(pool: Pool, memory: Block, unused: Block)
    ensures Top(Pushed(pool, memory), unused) == memory && Popped(Pushed(pool, memory)) == pool
    ensures pool.free == [] ==> Top(pool, unused) == unused && Popped(pool).free == [] && Popped(pool).reserveCount == pool.reserveCount
    ensures pool.free != [] ==> [Top(pool, unused)] + Popped(pool).free == pool.free
  {
    assert ([memory] + pool.free)[1..] == pool.free;
  }

  /** A block kept by a pool is of the pool's size, marked free, and not lent. */
  predicate KeptOk(b: Block, size: nat, blocks: map<Block, nat>, headers: map<Block, nat>, lent: map<Block, nat>) {
    b in blocks && b in headers && b !in lent && blocks[b] == size && headers[b] == 0
  }

  /** No block is kept twice. */
  predicate FreeOk(pools: seq<Pool>, blocks: map<Block, nat>, headers: map<Block, nat>, lent: map<Block, nat>) {
    && (forall p, k :: 0 <= p < |pools| && 0 <= k < |pools[p].free| ==> KeptOk(pools[p].free[k], pools[p].allocSize, blocks, headers, lent))
    && (forall p, k, l :: 0 <= p < |pools| && 0 <= k < l < |pools[p].free| ==> pools[p].free[k] != pools[p].free[l])
    && (forall p, q, k, l :: 0 <= p < q < |pools| && 0 <= k < |pools[p].free| && 0 <= l < |pools[q].free| ==> pools[p].free[k] != pools[q].free[l])
  }

  /** A live block's header holds its full size, and the block is that long. */
  predicate LiveOk(b: Block, size: nat, blocks: map<Block, nat>, headers: map<Block, nat>) {
    && b in blocks && b in headers && headers[b] == size
    && blocks[b] == if size <= MAX_ALLOC_SIZE then ClassOf(size) else size
  }

  predicate LentOk(blocks: map<Block, nat>, headers: map<Block, nat>, lent: map<Block, nat>, headerSize: nat) {
    forall b :: b in lent ==> LiveOk(b, lent[b] + headerSize, blocks, headers)
  }

  /** The live blocks that came from pool `p`. */
  function LentFrom(table: seq<nat>, headers: map<Block, nat>, lent: map<Block, nat>, p: nat): set<Block> {
    set b | b in lent && b in headers && headers[b] < |table| && table[headers[b]] == p
  }

  /** The two counters of every pool. */
  predicate CountsOk(pools: seq<Pool>, table: seq<nat>, headers: map<Block, nat>, lent: map<Block, nat>) {
    forall p :: 0 <= p < |pools| ==>
      pools[p].reserveCount == |pools[p].free| && pools[p].useCount == |LentFrom(table, headers, lent, p)|
  }

  /** The block is live and small enough to have come from a pool. */
  predicate LentSmall(m: Memory, table: seq<nat>, b: Block) {
    b in m.lent && b in m.headers && m.headers[b] < |table|
  }

  /** No block changes pools. */
  ghost predicate OriginOk(m: Memory, table: seq<nat>) {
    && (forall b :: LentSmall(m, table, b) ==> b in m.origin && m.origin[b] == table[m.headers[b]])
    && (forall p, b :: 0 <= p < |m.pools| && b in m.pools[p].free ==> b in m.origin && m.origin[b] == p)
  }

  /** Nothing leaks: every block a pool has created is live or kept by that pool, and every other block
      is live. */
  ghost predicate NoLeak(m: Memory, table: seq<nat>) {
    && (forall b :: b in m.origin ==>
          b in m.blocks && m.origin[b] < |m.pools| && (LentSmall(m, table, b) || b in m.pools[m.origin[b]].free))
    && (forall b :: b in m.blocks ==> b in m.lent || b in m.origin)
  }

  ghost predicate Sound(m: Memory, table: seq<nat>, headerSize: nat) {
    && FreeOk(m.pools, m.blocks, m.headers, m.lent)
    && LentOk(m.blocks, m.headers, m.lent, headerSize)
    && CountsOk(m.pools, table, m.headers, m.lent)
    && OriginOk(m, table) && NoLeak(m, table)
  }

  /** The blocks pool `p` has ever created. */
  function CreatedBy(origin: map<Block, nat>, p: nat): set<Block> {
    set b | b in origin && origin[b] == p
  }

  function Kept(free: seq<Block>): set<Block> {
    set b | b in free
  }

  lemma {:induction false} DistinctCount(free: seq<Block>)
    requires forall i, j :: 0 <= i < j < |free| ==> free[i] != free[j]
    ensures |Kept(free)| == |free|
  {
    if free != [] {
      var init, last := free[..|free| - 1], free[|free| - 1];
      DistinctCount(init);
      assert free == init + [last];
      assert Kept(free) == Kept(init) + {last} && last !in Kept(init);
    }
  }

  lemma KeptIsNotLent(m: Memory, p: nat, b: Block)
    requires FreeOk(m.pools, m.blocks, m.headers, m.lent) && p < |m.pools| && b in m.pools[p].free
    ensures b in m.blocks && b !in m.lent
  {
    var k :| 0 <= k < |m.pools[p].free| && m.pools[p].free[k] == b;
    assert KeptOk(m.pools[p].free[k], m.pools[p].allocSize, m.blocks, m.headers, m.lent);
  }

  lemma LentIsNotKept(m: Memory, b: Block)
    requires FreeOk(m.pools, m.blocks, m.headers, m.lent) && b in m.lent
    ensures forall p :: 0 <= p < |m.pools| ==> b !in m.pools[p].free
  {
    forall p | 0 <= p < |m.pools| ensures b !in m.pools[p].free {
      if b in m.pools[p].free { KeptIsNotLent(m, p, b); }
    }
  }

  /** Use and reserve of a pool together are exactly the blocks it has ever created. */
  lemma CountersAreCreations(m: Memory, table: seq<nat>, headerSize: nat, p: nat)
    requires Sound(m, table, headerSize) && p < |m.pools|
    ensures m.pools[p].useCount + m.pools[p].reserveCount == |CreatedBy(m.origin, p)|
  {
    var live, kept := LentFrom(table, m.headers, m.lent, p), Kept(m.pools[p].free);
    DistinctCount(m.pools[p].free);
    CreatedAreLiveOrKept(m, table, p);
    forall b | b in kept ensures b !in live { KeptIsNotLent(m, p, b); }
    assert live !! kept;
    hide FreeOk, LentOk, OriginOk, NoLeak, LentFrom, Kept, CreatedBy;
  }

  lemma CreatedAreLiveOrKept(m: Memory, table: seq<nat>, p: nat)
    requires OriginOk(m, table) && NoLeak(m, table) && p < |m.pools|
    ensures CreatedBy(m.origin, p) == LentFrom(table, m.headers, m.lent, p) + Kept(m.pools[p].free)
  {
    forall b ensures b in LentFrom(table, m.headers, m.lent, p) <==> LentSmall(m, table, b) && table[m.headers[b]] == p {}
  }

  lemma NewIsSound(pools: seq<Pool>, table: seq<nat>, headerSize: nat)
    requires forall p :: 0 <= p < |pools| ==> pools[p] == NewPool(pools[p].allocSize)
    ensures Sound(Memory(pools, map[], map[], map[], map[]), table, headerSize)
  {}

  /** The memory after the operating system has been asked for a large block. */
  function WithLarge(m: Memory, unused: Block, header: nat, size: nat): Memory {
    Memory(m.pools, m.blocks[unused := header], m.headers[unused := header], m.lent[unused := size], m.origin)
  }

  lemma LargeOrigin(m: Memory, table: seq<nat>, unused: Block, header: nat, size: nat)
    requires OriginOk(m, table) && NoLeak(m, table) && unused !in m.lent && header >= |table|
    ensures OriginOk(WithLarge(m, unused, header, size), table) && NoLeak(WithLarge(m, unused, header, size), table)
  {
    forall b ensures LentSmall(WithLarge(m, unused, header, size), table, b) == LentSmall(m, table, b) {}
  }

  /** Lending one more block that is as long as its header says. */
  lemma LentMore(blocks: map<Block, nat>, headers: map<Block, nat>, lent: map<Block, nat>, headerSize: nat, blocks': map<Block, nat>,
                 b: Block, size: nat)
    requires LentOk(blocks, headers, lent, headerSize) && b !in lent
    requires forall d :: d in lent ==> d in blocks' && d in blocks && blocks'[d] == blocks[d]
    requires LiveOk(b, size + headerSize, blocks', headers[b := size + headerSize])
    ensures LentOk(blocks', headers[b := size + headerSize], lent[b := size], headerSize)
  {
    hide ClassOf;
    forall d | d in lent ensures LiveOk(d, lent[d] + headerSize, blocks', headers[b := size + headerSize]) {
      assert LiveOk(d, lent[d] + headerSize, blocks, headers);
    }
  }

  lemma LargeFree(m: Memory, table: seq<nat>, unused: Block, header: nat, size: nat)
    requires FreeOk(m.pools, m.blocks, m.headers, m.lent) && CountsOk(m.pools, table, m.headers, m.lent)
    requires unused !in m.blocks && unused !in m.lent && header >= |table|
    ensures var m' := WithLarge(m, unused, header, size);
      FreeOk(m'.pools, m'.blocks, m'.headers, m'.lent) && CountsOk(m'.pools, table, m'.headers, m'.lent)
  {
    var m' := WithLarge(m, unused, header, size);
    forall p, k | 0 <= p < |m.pools| && 0 <= k < |m.pools[p].free|
      ensures KeptOk(m.pools[p].free[k], m.pools[p].allocSize, m'.blocks, m'.headers, m'.lent)
    {
      assert KeptOk(m.pools[p].free[k], m.pools[p].allocSize, m.blocks, m.headers, m.lent);
    }
    forall p: nat ensures LentFrom(table, m'.headers, m'.lent, p) == LentFrom(table, m.headers, m.lent, p) {}
  }

  lemma LentAreBlocks(m: Memory, headerSize: nat)
    requires LentOk(m.blocks, m.headers, m.lent, headerSize)
    ensures forall d :: d in m.lent ==> d in m.blocks
  {
    forall d | d in m.lent ensures d in m.blocks { assert LiveOk(d, m.lent[d] + headerSize, m.blocks, m.headers); }
  }

  lemma LargeKeeps(m: Memory, table: seq<nat>, headerSize: nat, size: nat, unused: Block)
    requires Sound(m, table, headerSize) && unused !in m.blocks && |table| == MAX_ALLOC_SIZE + 1 && size + headerSize > MAX_ALLOC_SIZE
    ensures Sound(WithLarge(m, unused, size + headerSize, size), table, headerSize)
    ensures unused !in m.lent
  {
    hide FreeOk, CountsOk, OriginOk, NoLeak, LentOk;
    var m' := WithLarge(m, unused, size + headerSize, size);
    LentAreBlocks(m, headerSize);
    LargeOrigin(m, table, unused, size + headerSize, size);
    LargeFree(m, table, unused, size + headerSize, size);
    LentMore(m.blocks, m.headers, m.lent, headerSize, m'.blocks, unused, size);
  }

  lemma PoppedCounts(m: Memory, table: seq<nat>, headerSize: nat, p: nat, b: Block, size: nat)
    requires CountsOk(m.pools, table, m.headers, m.lent) && LentOk(m.blocks, m.headers, m.lent, headerSize)
    requires size + headerSize < |table| && p == table[size + headerSize] < |m.pools| && b !in m.lent
    ensures CountsOk(m.pools[p := Popped(m.pools[p])], table, m.headers[b := size + headerSize], m.lent[b := size])
  {
    var pools, headers, lent := m.pools[p := Popped(m.pools[p])], m.headers[b := size + headerSize], m.lent[b := size];
    forall q | 0 <= q < |pools|
      ensures pools[q].reserveCount == |pools[q].free| && pools[q].useCount == |LentFrom(table, headers, lent, q)|
    {
      LentAdded(table, m.headers, m.lent, b, size + headerSize, size, q);
    }
  }

  lemma LentAdded(table: seq<nat>, headers: map<Block, nat>, lent: map<Block, nat>, b: Block, header: nat, size: nat, q: nat)
    requires b !in lent && header < |table|
    ensures LentFrom(table, headers[b := header], lent[b := size], q) ==
      LentFrom(table, headers, lent, q) + (if q == table[header] then {b} else {})
    ensures b !in LentFrom(table, headers, lent, q)
  {}

  lemma PoppedFree(m: Memory, p: nat, unused: Block, header: nat, size: nat)
    requires FreeOk(m.pools, m.blocks, m.headers, m.lent) && p < |m.pools| && unused !in m.blocks && unused !in m.lent
    ensures var b := Top(m.pools[p], unused);
      && b !in m.lent
      && FreeOk(m.pools[p := Popped(m.pools[p])], WithBlock(m, p, unused), m.headers[b := header], m.lent[b := size])
      && b in WithBlock(m, p, unused) && WithBlock(m, p, unused)[b] == m.pools[p].allocSize
  {
    var pools, b := m.pools[p := Popped(m.pools[p])], Top(m.pools[p], unused);
    if m.pools[p].free != [] { assert KeptOk(m.pools[p].free[0], m.pools[p].allocSize, m.blocks, m.headers, m.lent); }
    forall q, k | 0 <= q < |pools| && 0 <= k < |pools[q].free|
      ensures KeptOk(pools[q].free[k], pools[q].allocSize, WithBlock(m, p, unused), m.headers[b := header], m.lent[b := size])
    {
      var k' := if q == p then k + 1 else k;
      assert pools[q].free[k] == m.pools[q].free[k'] && KeptOk(m.pools[q].free[k'], m.pools[q].allocSize, m.blocks, m.headers, m.lent);
    }
  }

  /** The operating system's blocks after pool `p` has been asked. */
  function WithBlock(m: Memory, p: nat, unused: Block): map<Block, nat>
    requires p < |m.pools|
  {
    if m.pools[p].free == [] then m.blocks[unused := m.pools[p].allocSize] else m.blocks
  }

  /** The creations after pool `p` has been asked. */
  function WithOrigin(m: Memory, p: nat, unused: Block): map<Block, nat>
    requires p < |m.pools|
  {
    if m.pools[p].free == [] then m.origin[unused := p] else m.origin
  }

  /** The memory after pool `p` has handed out a block for a request. */
  function AfterPop(m: Memory, p: nat, unused: Block, header: nat, size: nat): Memory
    requires p < |m.pools|
  {
    var b := Top(m.pools[p], unused);
    Memory(m.pools[p := Popped(m.pools[p])], WithBlock(m, p, unused), m.headers[b := header], m.lent[b := size], WithOrigin(m, p, unused))
  }

  lemma PoppedMembers(pool: Pool, unused: Block, d: Block)
    ensures d in Popped(pool).free ==> d in pool.free
    ensures d in pool.free && d != Top(pool, unused) ==> d in Popped(pool).free
  {}

  lemma PoppedLent(m: Memory, table: seq<nat>, p: nat, unused: Block, header: nat, size: nat, d: Block)
    requires p < |m.pools| && header < |table|
    ensures LentSmall(AfterPop(m, p, unused, header, size), table, d) <==> d == Top(m.pools[p], unused) || LentSmall(m, table, d)
  {}

  lemma PoppedOrigin(m: Memory, table: seq<nat>, p: nat, unused: Block, header: nat, size: nat)
    requires OriginOk(m, table) && FreeOk(m.pools, m.blocks, m.headers, m.lent) && unused !in m.blocks && unused !in m.lent
    requires header < |table| && p == table[header] < |m.pools|
    ensures OriginOk(AfterPop(m, p, unused, header, size), table)
  {
    var b, m' := Top(m.pools[p], unused), AfterPop(m, p, unused, header, size);
    hide FreeOk, LentSmall, Popped;
    if m.pools[p].free != [] { assert b in m.pools[p].free; KeptIsNotLent(m, p, b); }
    forall d | LentSmall(m', table, d) ensures d in m'.origin && m'.origin[d] == table[m'.headers[d]] {
      PoppedLent(m, table, p, unused, header, size, d);
      if d != b { assert LentSmall(m, table, d); LentIn(m, table, d); }
    }
    forall q, d | 0 <= q < |m'.pools| && d in m'.pools[q].free ensures d in m'.origin && m'.origin[d] == q {
      PoppedMembers(m.pools[p], unused, d);
      assert d in m.pools[q].free;
      KeptIsNotLent(m, q, d);
    }
  }

  lemma LentIn(m: Memory, table: seq<nat>, d: Block)
    requires LentSmall(m, table, d)
    ensures d in m.lent && d in m.headers && m.headers[d] < |table|
  {}

  lemma PoppedNoLeak(m: Memory, table: seq<nat>, p: nat, unused: Block, header: nat, size: nat)
    requires NoLeak(m, table) && OriginOk(m, table) && header < |table| && p < |m.pools|
    ensures NoLeak(AfterPop(m, p, unused, header, size), table)
  {
    var b, m' := Top(m.pools[p], unused), AfterPop(m, p, unused, header, size);
    hide LentSmall, Popped;
    if m.pools[p].free != [] { assert b in m.pools[p].free; }
    forall d | d in m'.origin
      ensures d in m'.blocks && m'.origin[d] < |m'.pools| && (LentSmall(m', table, d) || d in m'.pools[m'.origin[d]].free)
    {
      PoppedLent(m, table, p, unused, header, size, d);
      PoppedMembers(m.pools[p], unused, d);
    }
  }

  lemma PushedLent(m: Memory, table: seq<nat>, p: nat, b: Block, d: Block)
    requires p < |m.pools|
    ensures LentSmall(AfterPush(m, p, b), table, d) <==> d != b && LentSmall(m, table, d)
  {}

  /** The memory after pool `p` has got a block back. */
  function AfterPush(m: Memory, p: nat, b: Block): Memory
    requires p < |m.pools|
  {
    Memory(m.pools[p := Pushed(m.pools[p], b)], m.blocks, m.headers[b := 0], m.lent - {b}, m.origin)
  }

  lemma PushedOrigin(m: Memory, table: seq<nat>, p: nat, b: Block)
    requires OriginOk(m, table) && NoLeak(m, table) && LentSmall(m, table, b) && p == table[m.headers[b]] < |m.pools|
    ensures OriginOk(AfterPush(m, p, b), table) && NoLeak(AfterPush(m, p, b), table)
  {
    var m' := AfterPush(m, p, b);
    forall d ensures LentSmall(m', table, d) <==> d != b && LentSmall(m, table, d) { PushedLent(m, table, p, b, d); }
    forall q, d | 0 <= q < |m.pools| ensures d in m'.pools[q].free <==> d in m.pools[q].free || (q == p && d == b) {}
    hide LentSmall, Pushed;
  }

  lemma PoppedKeeps(m: Memory, table: seq<nat>, headerSize: nat, p: nat, size: nat, unused: Block)
    requires Sound(m, table, headerSize) && unused !in m.blocks && |table| == MAX_ALLOC_SIZE + 1 && size + headerSize <= MAX_ALLOC_SIZE
    requires p == table[size + headerSize] < |m.pools| && m.pools[p].allocSize == ClassOf(size + headerSize)
    ensures var b := Top(m.pools[p], unused); var blocks := WithBlock(m, p, unused);
      && b !in m.lent && b in blocks && blocks[b] == ClassOf(size + headerSize)
      && Sound(AfterPop(m, p, unused, size + headerSize, size), table, headerSize)
  {
    hide FreeOk, CountsOk, OriginOk, NoLeak, LentOk, ClassOf;
    var b, blocks := Top(m.pools[p], unused), WithBlock(m, p, unused);
    LentAreBlocks(m, headerSize);
    PoppedOrigin(m, table, p, unused, size + headerSize, size);
    PoppedNoLeak(m, table, p, unused, size + headerSize, size);
    PoppedFree(m, p, unused, size + headerSize, size);
    PoppedCounts(m, table, headerSize, p, b, size);
    LentMore(m.blocks, m.headers, m.lent, headerSize, blocks, b, size);
  }

  lemma PushedCounts(m: Memory, table: seq<nat>, headerSize: nat, p: nat, b: Block)
    requires CountsOk(m.pools, table, m.headers, m.lent) && LentOk(m.blocks, m.headers, m.lent, headerSize)
    requires b in m.lent && b in m.headers && m.headers[b] < |table| && p == table[m.headers[b]] < |m.pools|
    ensures CountsOk(m.pools[p := Pushed(m.pools[p], b)], table, m.headers[b := 0], m.lent - {b})
  {
    var headers, lent := m.headers[b := 0], m.lent - {b};
    assert b in LentFrom(table, m.headers, m.lent, p);
    forall q: nat ensures LentFrom(table, headers, lent, q) == LentFrom(table, m.headers, m.lent, q) - (if q == p then {b} else {}) {}
  }

  lemma PushedFree(m: Memory, p: nat, b: Block)
    requires FreeOk(m.pools, m.blocks, m.headers, m.lent) && p < |m.pools| && b in m.lent
    requires b in m.blocks && m.blocks[b] == m.pools[p].allocSize
    ensures FreeOk(m.pools[p := Pushed(m.pools[p], b)], m.blocks, m.headers[b := 0], m.lent - {b})
  {
    var pools := m.pools[p := Pushed(m.pools[p], b)];
    forall q, k | 0 <= q < |m.pools| && 0 <= k < |m.pools[q].free| ensures m.pools[q].free[k] != b {
      assert KeptOk(m.pools[q].free[k], m.pools[q].allocSize, m.blocks, m.headers, m.lent);
    }
    forall q, k | 0 <= q < |pools| && 0 <= k < |pools[q].free|
      ensures KeptOk(pools[q].free[k], pools[q].allocSize, m.blocks, m.headers[b := 0], m.lent - {b})
    {
      if q != p || k > 0 {
        var k' := if q == p then k - 1 else k;
        assert pools[q].free[k] == m.pools[q].free[k'] && KeptOk(m.pools[q].free[k'], m.pools[q].allocSize, m.blocks, m.headers, m.lent);
      }
    }
  }

  lemma PushedKeeps(m: Memory, table: seq<nat>, headerSize: nat, p: nat, b: Block)
    requires Sound(m, table, headerSize) && b in m.lent && |table| == MAX_ALLOC_SIZE + 1
    requires b in m.headers && m.headers[b] <= MAX_ALLOC_SIZE && p == table[m.headers[b]] < |m.pools|
    requires m.pools[p].allocSize == ClassOf(m.headers[b])
    ensures Sound(AfterPush(m, p, b), table, headerSize)
    ensures b in m.blocks && m.blocks[b] == m.pools[p].allocSize && b in m.origin && m.origin[b] == p
  {
    OriginOf(m, table, b);
    assert LiveOk(b, m.lent[b] + headerSize, m.blocks, m.headers);
    hide OriginOk, NoLeak, FreeOk, CountsOk, ClassOf;
    PushedFree(m, p, b);
    PushedCounts(m, table, headerSize, p, b);
    PushedOrigin(m, table, p, b);
    LentLess(m, headerSize, b);
  }

  lemma OriginOf(m: Memory, table: seq<nat>, b: Block)
    requires OriginOk(m, table) && b in m.lent && b in m.headers && m.headers[b] < |table|
    ensures LentSmall(m, table, b) && b in m.origin && m.origin[b] == table[m.headers[b]]
  {
    assert LentSmall(m, table, b);
  }

  lemma LentLess(m: Memory, headerSize: nat, b: Block)
    requires LentOk(m.blocks, m.headers, m.lent, headerSize)
    ensures LentOk(m.blocks, m.headers[b := 0], m.lent - {b}, headerSize)
  {
    hide ClassOf;
    forall d | d in m.lent && d != b ensures LiveOk(d, m.lent[d] + headerSize, m.blocks, m.headers[b := 0]) {
      assert LiveOk(d, m.lent[d] + headerSize, m.blocks, m.headers);
    }
  }

  /** The memory after a large block has gone back to the operating system. */
  function WithoutLarge(m: Memory, b: Block): Memory {
    Memory(m.pools, m.blocks - {b}, m.headers - {b}, m.lent - {b}, m.origin)
  }

  lemma FreedFree(m: Memory, table: seq<nat>, b: Block)
    requires FreeOk(m.pools, m.blocks, m.headers, m.lent) && CountsOk(m.pools, table, m.headers, m.lent)
    requires b in m.lent && b in m.headers && m.headers[b] >= |table|
    ensures var m' := WithoutLarge(m, b);
      FreeOk(m'.pools, m'.blocks, m'.headers, m'.lent) && CountsOk(m'.pools, table, m'.headers, m'.lent)
  {
    var m' := WithoutLarge(m, b);
    forall p, k | 0 <= p < |m.pools| && 0 <= k < |m.pools[p].free|
      ensures KeptOk(m.pools[p].free[k], m.pools[p].allocSize, m'.blocks, m'.headers, m'.lent)
    {
      assert KeptOk(m.pools[p].free[k], m.pools[p].allocSize, m.blocks, m.headers, m.lent);
    }
    forall p: nat ensures LentFrom(table, m'.headers, m'.lent, p) == LentFrom(table, m.headers, m.lent, p) {}
  }

  lemma FreedKeeps(m: Memory, table: seq<nat>, headerSize: nat, b: Block)
    requires Sound(m, table, headerSize) && b in m.lent && b in m.headers && m.headers[b] >= |table|
    ensures Sound(WithoutLarge(m, b), table, headerSize)
  {
    hide FreeOk, CountsOk, OriginOk, NoLeak, ClassOf;
    FreedFree(m, table, b);
    FreedOrigin(m, table, b);
    forall d | d in m.lent && d != b ensures LiveOk(d, m.lent[d] + headerSize, m.blocks - {b}, m.headers - {b}) {
      assert LiveOk(d, m.lent[d] + headerSize, m.blocks, m.headers);
    }
  }

  lemma FreedNoLeak(m: Memory, table: seq<nat>, b: Block)
    requires NoLeak(m, table) && b !in m.origin
    requires forall d :: LentSmall(WithoutLarge(m, b), table, d) == LentSmall(m, table, d)
    ensures NoLeak(WithoutLarge(m, b), table)
  {
    hide LentSmall;
  }

  lemma FreedOrigin(m: Memory, table: seq<nat>, b: Block)
    requires OriginOk(m, table) && NoLeak(m, table) && FreeOk(m.pools, m.blocks, m.headers, m.lent)
    requires b in m.lent && b in m.headers && m.headers[b] >= |table|
    ensures OriginOk(WithoutLarge(m, b), table) && NoLeak(WithoutLarge(m, b), table)
  {
    var m' := WithoutLarge(m, b);
    LentIsNotKept(m, b);
    hide FreeOk;
    forall d ensures LentSmall(m', table, d) == LentSmall(m, table, d) {}
    assert !LentSmall(m, table, b);
    hide LentSmall;
    assert b !in m.origin;
    hide NoLeak;
    FreedNoLeak(m, table, b);
  }
}
