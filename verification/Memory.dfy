// memory.c: a bump allocator. Each thread has a pool of blocks; memory is cut off
// the newest block and never given back one by one. Addresses are numbers; where
// malloc puts a new block is a parameter, apart from all other blocks.
module Memory {

  const DEFAULT_INIT_BLOCK_CAPACITY: int := 16
  const DEFAULT_BLOCK_GROWTH_FACTOR: int := 2

  // A stretch of addresses.
  datatype Region = Region(start: int, length: int)

  ghost predicate Apart(a: Region, b: Region) {
    a.start + a.length <= b.start || b.start + b.length <= a.start
  }

  ghost predicate Inside(a: Region, b: Region) {
    b.start <= a.start && a.start + a.length <= b.start + b.length
  }

  lemma InsideApart(a: Region, b: Region, a': Region, b': Region)
    requires Inside(a, a') && Inside(b, b') && Apart(a', b')
    ensures Apart(a, b)
  {
  }

  // size of the capacity bytes at address contents are in use.
  datatype Block = Block(contents: int, size: int, capacity: int)

  // The newest block is the last.
  datatype Pool = Pool(blocks: seq<Block>, nextCapacity: int, initBlockCapacity: int, blockGrowthFactor: int)

  ghost function Used(b: Block): Region {
    Region(b.contents, b.size)
  }

  // What allocBlock gets from malloc: one byte more than the capacity.
  ghost function Extent(b: Block): Region {
    Region(b.contents, b.capacity + 1)
  }

  ghost function Pow(g: int, k: nat): int {
    if k == 0 then 1 else g * Pow(g, k - 1)
  }

  // The k-th block of a pool is at least growth^k times as large as the first.
  ghost predicate Growing(p: Pool) {
    && p.initBlockCapacity > 0 && p.blockGrowthFactor > 0
    && (forall k :: 0 <= k < |p.blocks| ==> p.blocks[k].capacity >= p.initBlockCapacity * Pow(p.blockGrowthFactor, k))
    && p.nextCapacity >= p.initBlockCapacity * Pow(p.blockGrowthFactor, |p.blocks|)
  }

  ghost predicate ValidPool(p: Pool) {
    && |p.blocks| >= 1 && Growing(p)
    && forall k :: 0 <= k < |p.blocks| ==> 0 <= p.blocks[k].size <= p.blocks[k].capacity
  }

  // The capacity that addBlockToPool chooses.
  function NewCapacity(p: Pool, numByte: int): int {
    if numByte > p.nextCapacity then numByte * p.blockGrowthFactor else p.nextCapacity
  }

  function Newest(p: Pool): Block
    requires |p.blocks| >= 1
  {
    p.blocks[|p.blocks| - 1]
  }

  lemma NewCapacityEnough(p: Pool, numByte: int)
    requires Growing(p) && numByte >= 0
    ensures NewCapacity(p, numByte) >= numByte && NewCapacity(p, numByte) >= p.nextCapacity
    ensures NewCapacity(p, numByte) * p.blockGrowthFactor >=
            p.initBlockCapacity * Pow(p.blockGrowthFactor, |p.blocks| + 1)
  {
    var c, g, i, w := NewCapacity(p, numByte), p.blockGrowthFactor, p.initBlockCapacity,
        Pow(p.blockGrowthFactor, |p.blocks|);
    Multiply(numByte, 1, g);
    Multiply(g, i * w, c);
    assert i * Pow(g, |p.blocks| + 1) == g * (i * w);
  }

  lemma Multiply(a: int, b: int, c: int)
    requires a >= 0 && b <= c
    ensures a * b <= a * c
  {
  }

  // ---------------------------------------------------------------- all pools together

  ghost predicate ValidPools(ps: seq<Pool>) {
    forall i :: 0 <= i < |ps| ==> ValidPool(ps[i])
  }

  // Block k of pool i exists.
  ghost predicate Has(ps: seq<Pool>, i: int, k: int) {
    0 <= i < |ps| && 0 <= k < |ps[i].blocks|
  }

  ghost function BlockAt(ps: seq<Pool>, i: int, k: int): Block
    requires Has(ps, i, k)
  {
    ps[i].blocks[k]
  }

  ghost predicate BlocksApart(ps: seq<Pool>) {
    forall i, k, j, l :: Has(ps, i, k) && Has(ps, j, l) && (i != j || k != l) ==>
        Apart(Extent(BlockAt(ps, i, k)), Extent(BlockAt(ps, j, l)))
  }

  ghost predicate InBlock(ps: seq<Pool>, r: Region) {
    exists i, k :: Has(ps, i, k) && Inside(r, Used(BlockAt(ps, i, k)))
  }

  // Every stretch lies in the used part of a block.
  ghost predicate InBlocks(ps: seq<Pool>, reserved: seq<Region>) {
    forall r :: 0 <= r < |reserved| ==> InBlock(ps, reserved[r])
  }

  ghost predicate Disjoint(reserved: seq<Region>) {
    forall r, s :: 0 <= r < s < |reserved| ==> Apart(reserved[r], reserved[s])
  }

  // A place that malloc may choose for a block of this capacity.
  ghost predicate Free(ps: seq<Pool>, at: int, capacity: int) {
    forall i, k :: Has(ps, i, k) ==> Apart(Region(at, capacity + 1), Extent(BlockAt(ps, i, k)))
  }

  function WithBlock(p: Pool, at: int, capacity: int): Pool {
    Pool(p.blocks + [Block(at, 0, capacity)], capacity * p.blockGrowthFactor, p.initBlockCapacity, p.blockGrowthFactor)
  }

  function CutNewest(p: Pool, numByte: int): Pool
    requires |p.blocks| >= 1
  {
    var b := Newest(p);
    Pool(p.blocks[|p.blocks| - 1 := Block(b.contents, b.size + numByte, b.capacity)],
         p.nextCapacity, p.initBlockCapacity, p.blockGrowthFactor)
  }

  // ---------------------------------------------------------------- bytes and capacities

  ghost function BytesInUse(blocks: seq<Block>): int {
    if blocks == [] then 0 else BytesInUse(blocks[..|blocks| - 1]) + blocks[|blocks| - 1].size
  }

  ghost function BytesOfPools(ps: seq<Pool>): int {
    if ps == [] then 0 else BytesOfPools(ps[..|ps| - 1]) + BytesInUse(ps[|ps| - 1].blocks)
  }

  ghost function BytesOf(reserved: seq<Region>): int {
    if reserved == [] then 0 else BytesOf(reserved[..|reserved| - 1]) + reserved[|reserved| - 1].length
  }

  lemma BytesAdd(reserved: seq<Region>, r: Region)
    ensures BytesOf(reserved + [r]) == BytesOf(reserved) + r.length
  {
    assert (reserved + [r])[..|reserved|] == reserved;
  }

  lemma {:induction false} PoolsAdd(ps: seq<Pool>, ps': seq<Pool>, t: int, n: int)
    requires 0 <= t < |ps| && |ps'| == |ps| && ps' == ps[t := ps'[t]]
    requires BytesInUse(ps'[t].blocks) == BytesInUse(ps[t].blocks) + n
    ensures BytesOfPools(ps') == BytesOfPools(ps) + n
  {
    var m := |ps| - 1;
    if t < m {
      PoolsAdd(ps[..m], ps'[..m], t, n);
    } else {
      assert ps'[..m] == ps[..m];
    }
  }

  // The pool after a request for numByte bytes, of which a new block at address at is
  // made if the newest has no room for them. A new block has the next capacity, or if
  // the request is larger than that, the request times the growth factor.
  ghost predicate Granted(p: Pool, p': Pool, numByte: int, at: int)
    requires |p.blocks| >= 1
  {
    var n, g := |p.blocks| - 1, p.blockGrowthFactor;
    var b := p.blocks[n];
    var c := if numByte > p.nextCapacity then numByte * g else p.nextCapacity;
    && p'.initBlockCapacity == p.initBlockCapacity && p'.blockGrowthFactor == g
    && (b.size + numByte <= b.capacity ==>
          p'.blocks == p.blocks[n := Block(b.contents, b.size + numByte, b.capacity)] && p'.nextCapacity == p.nextCapacity)
    && (b.size + numByte > b.capacity ==>
          p'.blocks == p.blocks + [Block(at, numByte, c)] && p'.nextCapacity == c * g)
  }

  lemma GrantedBytes(p: Pool, p': Pool, numByte: int, at: int)
    requires |p.blocks| >= 1 && Granted(p, p', numByte, at)
    ensures BytesInUse(p'.blocks) == BytesInUse(p.blocks) + numByte
  {
    var n := |p.blocks| - 1;
    var b := p.blocks[n];
    if b.size + numByte <= b.capacity {
      assert p'.blocks[..n] == p.blocks[..n];
    } else {
      assert p'.blocks[..n + 1] == p.blocks;
    }
  }

  // A block follows one of capacity c: it is as much larger as the growth factor says,
  // or some request was larger still.
  ghost predicate Follows(capacity: int, c: int, g: int, reserved: seq<Region>) {
    || capacity == c * g
    || exists r :: 0 <= r < |reserved| && reserved[r].length > c * g && capacity == reserved[r].length * g
  }

  // All capacities of a pool told by its first and the requests.
  ghost predicate Sized(p: Pool, reserved: seq<Region>) {
    && |p.blocks| >= 1 && p.blocks[0].capacity == p.initBlockCapacity
    && p.nextCapacity == p.blocks[|p.blocks| - 1].capacity * p.blockGrowthFactor
    && forall k :: 0 <= k < |p.blocks| - 1 ==>
         Follows(p.blocks[k + 1].capacity, p.blocks[k].capacity, p.blockGrowthFactor, reserved)
  }

  ghost predicate AllSized(ps: seq<Pool>, reserved: seq<Region>) {
    forall i :: 0 <= i < |ps| ==> Sized(ps[i], reserved)
  }

  lemma FollowsMore(capacity: int, c: int, g: int, reserved: seq<Region>, r: Region)
    requires Follows(capacity, c, g, reserved)
    ensures Follows(capacity, c, g, reserved + [r])
  {
    if capacity != c * g {
      var k :| 0 <= k < |reserved| && reserved[k].length > c * g && capacity == reserved[k].length * g;
      assert (reserved + [r])[k] == reserved[k];
    }
  }

  lemma SizedMore(p: Pool, reserved: seq<Region>, r: Region)
    requires Sized(p, reserved)
    ensures Sized(p, reserved + [r])
  {
    forall k | 0 <= k < |p.blocks| - 1
      ensures Follows(p.blocks[k + 1].capacity, p.blocks[k].capacity, p.blockGrowthFactor, reserved + [r])
    {
      FollowsMore(p.blocks[k + 1].capacity, p.blocks[k].capacity, p.blockGrowthFactor, reserved, r);
    }
  }

  lemma GrantedSized(p: Pool, p': Pool, numByte: int, at: int, reserved: seq<Region>, r: Region)
    requires Sized(p, reserved) && Granted(p, p', numByte, at) && r.length == numByte
    ensures Sized(p', reserved + [r])
  {
    SizedMore(p, reserved, r);
    var n, g := |p.blocks| - 1, p.blockGrowthFactor;
    hide Follows;
    if p.blocks[n].size + numByte > p.blocks[n].capacity {
      assert (reserved + [r])[|reserved|] == r;
      LastFollows(p'.blocks[n + 1].capacity, p.blocks[n].capacity, g, reserved + [r], |reserved|);
    }
  }

  lemma LastFollows(capacity: int, c: int, g: int, reserved: seq<Region>, r: int)
    requires 0 <= r < |reserved|
    requires capacity == if reserved[r].length > c * g then reserved[r].length * g else c * g
    ensures Follows(capacity, c, g, reserved)
  {
  }

  lemma GrantedLaws(ps: seq<Pool>, ps': seq<Pool>, t: int, numByte: int, at: int, reserved: seq<Region>, r: Region)
    requires 0 <= t < |ps| && |ps'| == |ps| && ps' == ps[t := ps'[t]] && |ps[t].blocks| >= 1
    requires Granted(ps[t], ps'[t], numByte, at) && r.length == numByte && AllSized(ps, reserved)
    ensures AllSized(ps', reserved + [r])
    ensures BytesOfPools(ps') == BytesOfPools(ps) + numByte && BytesOf(reserved + [r]) == BytesOf(reserved) + numByte
  {
    GrantedBytes(ps[t], ps'[t], numByte, at);
    PoolsAdd(ps, ps', t, numByte);
    BytesAdd(reserved, r);
    hide Granted, Sized;
    forall i | 0 <= i < |ps'|
      ensures Sized(ps'[i], reserved + [r])
    {
      assert Sized(ps[i], reserved);
      if i == t {
        GrantedSized(ps[t], ps'[t], numByte, at, reserved, r);
      } else {
        SizedMore(ps[i], reserved, r);
      }
    }
  }

  // With no request above the second capacity, the k-th block is exactly growth^k times
  // as large as the first.
  lemma {:induction false} ExactGrowth(p: Pool, reserved: seq<Region>, k: nat)
    requires Sized(p, reserved) && Growing(p) && k < |p.blocks|
    requires forall r :: 0 <= r < |reserved| ==> reserved[r].length <= p.initBlockCapacity * p.blockGrowthFactor
    ensures p.blocks[k].capacity == p.initBlockCapacity * Pow(p.blockGrowthFactor, k)
  {
    var i, g := p.initBlockCapacity, p.blockGrowthFactor;
    if k > 0 {
      ExactGrowth(p, reserved, k - 1);
      var c, w := p.blocks[k - 1].capacity, Pow(g, k - 1);
      assert Follows(p.blocks[k].capacity, c, g, reserved);
      PowAtLeastOne(g, k - 1);
      Multiply(i, 1, w);
      Multiply(g, i, c);
      assert c * g == i * Pow(g, k);
    }
  }

  lemma {:induction false} PowAtLeastOne(g: int, k: nat)
    requires g > 0
    ensures Pow(g, k) >= 1
  {
    if k > 0 {
      PowAtLeastOne(g, k - 1);
      Multiply(g, 1, Pow(g, k - 1));
    }
  }

  // ---------------------------------------------------------------- the two steps

  lemma BlockAdded(ps: seq<Pool>, reserved: seq<Region>, t: int, at: int, numByte: int)
    requires 0 <= t < |ps| && numByte >= 0 && ValidPools(ps) && BlocksApart(ps) && InBlocks(ps, reserved)
    requires Free(ps, at, NewCapacity(ps[t], numByte))
    ensures var ps' := ps[t := WithBlock(ps[t], at, NewCapacity(ps[t], numByte))];
      ValidPools(ps') && BlocksApart(ps') && InBlocks(ps', reserved)
  {
    var c := NewCapacity(ps[t], numByte);
    var ps' := ps[t := WithBlock(ps[t], at, c)];
    NewCapacityEnough(ps[t], numByte);
    assert ValidPool(ps'[t]);
    forall i, k | Has(ps', i, k)
      ensures if i == t && k == |ps[t].blocks| then BlockAt(ps', i, k) == Block(at, 0, c)
              else Has(ps, i, k) && BlockAt(ps', i, k) == BlockAt(ps, i, k)
    {
    }
    assert BlocksApart(ps');
    forall r | 0 <= r < |reserved|
      ensures InBlock(ps', reserved[r])
    {
      assert InBlock(ps, reserved[r]);
      var i, k :| Has(ps, i, k) && Inside(reserved[r], Used(BlockAt(ps, i, k)));
      assert Has(ps', i, k) && BlockAt(ps', i, k) == BlockAt(ps, i, k);
    }
  }

  lemma StretchCut(ps: seq<Pool>, reserved: seq<Region>, t: int, numByte: int)
    requires 0 <= t < |ps| && numByte >= 0 && ValidPools(ps) && BlocksApart(ps) && InBlocks(ps, reserved) &&
             Disjoint(reserved)
    requires |ps[t].blocks| >= 1 && Newest(ps[t]).size + numByte <= Newest(ps[t]).capacity
    ensures var ps', b := ps[t := CutNewest(ps[t], numByte)], Newest(ps[t]);
      var cut := Region(b.contents + b.size, numByte);
      && ValidPools(ps') && BlocksApart(ps') && InBlocks(ps', reserved + [cut]) && Disjoint(reserved + [cut])
      && Inside(cut, Used(Newest(ps'[t])))
  {
    var ps', b, n := ps[t := CutNewest(ps[t], numByte)], Newest(ps[t]), |ps[t].blocks| - 1;
    var cut := Region(b.contents + b.size, numByte);
    assert Has(ps, t, n) && Has(ps', t, n) && BlockAt(ps, t, n) == b;
    forall i, k | Has(ps', i, k)
      ensures Has(ps, i, k) && Extent(BlockAt(ps', i, k)) == Extent(BlockAt(ps, i, k))
      ensures Used(BlockAt(ps', i, k)).start == Used(BlockAt(ps, i, k)).start &&
              Used(BlockAt(ps', i, k)).length >= Used(BlockAt(ps, i, k)).length
    {
    }
    assert ValidPool(ps'[t]);
    assert BlocksApart(ps');
    assert InBlock(ps', cut);
    forall r | 0 <= r < |reserved|
      ensures Apart(reserved[r], cut)
      ensures InBlock(ps', reserved[r])
    {
      assert InBlock(ps, reserved[r]);
      var i, k :| Has(ps, i, k) && Inside(reserved[r], Used(BlockAt(ps, i, k)));
      assert Has(ps', i, k);
      if i != t || k != n {
        assert Apart(Extent(BlockAt(ps, i, k)), Extent(b));
        assert ValidPool(ps[i]);
      }
    }
  }

  class Memory {
    var pools: seq<Pool>
    // The stretches cut off blocks so far, and the regions handed out inside them.
    ghost var reserved: seq<Region>
    ghost var given: seq<Region>

    ghost predicate Sound()
      reads `pools, `reserved
    {
      ValidPools(pools) && BlocksApart(pools) && InBlocks(pools, reserved) && Disjoint(reserved)
    }

    ghost predicate Valid()
      reads this
    {
      && Sound() && |given| == |reserved|
      && BytesOfPools(pools) == BytesOf(reserved) && AllSized(pools, reserved)
      && forall r :: 0 <= r < |given| ==> Inside(given[r], reserved[r]) && given[r].start % 8 == 0
    }

    // Only pool t may differ from ps, and not in its parameters.
    ghost predicate OnlyPool(ps: seq<Pool>, t: int)
      requires 0 <= t < |ps|
      reads `pools
    {
      && |pools| == |ps| && pools == ps[t := pools[t]]
      && pools[t].initBlockCapacity == ps[t].initBlockCapacity && pools[t].blockGrowthFactor == ps[t].blockGrowthFactor
    }

    // memory_init, allocPool: one block for each thread, at the places at.
    constructor (numThread: int, initBlockCapacity: int, blockGrowthFactor: int, at: seq<int>)
      requires numThread > 0 && initBlockCapacity >= 0 && |at| == numThread
      requires var c := if initBlockCapacity > 0 then initBlockCapacity else DEFAULT_INIT_BLOCK_CAPACITY;
        forall i, j :: 0 <= i < j < |at| ==> Apart(Region(at[i], c + 1), Region(at[j], c + 1))
      ensures Valid() && given == [] && |pools| == numThread
      ensures var c := if initBlockCapacity > 0 then initBlockCapacity else 16;
        var g := if blockGrowthFactor > 0 then blockGrowthFactor else 2;
        forall i :: 0 <= i < numThread ==> pools[i] == Pool([Block(at[i], 0, c)], c * g, c, g)
    {
      var c := if initBlockCapacity > 0 then initBlockCapacity else DEFAULT_INIT_BLOCK_CAPACITY;
      var g := if blockGrowthFactor > 0 then blockGrowthFactor else DEFAULT_BLOCK_GROWTH_FACTOR;
      hide ValidPools, BlocksApart, InBlocks, Disjoint, AllSized, BytesOfPools, BytesOf;
      var ps: seq<Pool> := [];
      var i := 0;
      while i < numThread
        invariant 0 <= i <= numThread && |ps| == i
        invariant forall k :: 0 <= k < i ==> ps[k] == Pool([Block(at[k], 0, c)], c * g, c, g)
      {
        ps := ps + [Pool([Block(at[i], 0, c)], c * g, c, g)];
        i := i + 1;
      }
      FirstPools(ps, at, c, g);
      NothingReserved();
      pools := ps;
      reserved := [];
      given := [];
    }

    // addBlockToPool
    method AddBlockToPool(t: int, numByte: int, at: int)
      requires Sound() && 0 <= t < |pools| && numByte >= 0 && Free(pools, at, NewCapacity(pools[t], numByte))
      modifies `pools
      ensures Sound() && OnlyPool(old(pools), t)
      ensures var p := old(pools)[t];
        var c := if numByte > p.nextCapacity then numByte * p.blockGrowthFactor else p.nextCapacity;
        && pools[t].blocks == p.blocks + [Block(at, 0, c)] && pools[t].nextCapacity == c * p.blockGrowthFactor
        && numByte <= c
    {
      BlockAdded(pools, reserved, t, at, numByte);
      NewCapacityEnough(pools[t], numByte);
      hide BlocksApart, InBlocks, ValidPools;
      var capacity := NewCapacity(pools[t], numByte);
      pools := pools[t := WithBlock(pools[t], at, capacity)];
    }

    // getMemoryFromBlock, on the newest block of pool t.
    method GetMemoryFromBlock(t: int, numByte: int) returns (addr: int)
      requires Sound() && 0 <= t < |pools| && numByte >= 0 && |pools[t].blocks| >= 1
      requires Newest(pools[t]).size + numByte <= Newest(pools[t]).capacity
      modifies `pools, `reserved
      ensures Sound() && OnlyPool(old(pools), t) && |old(pools)[t].blocks| >= 1
      ensures var p, n := old(pools)[t], |old(pools)[t].blocks| - 1;
        var b := p.blocks[n];
        && addr == b.contents + b.size && pools[t].nextCapacity == p.nextCapacity
        && pools[t].blocks == p.blocks[n := Block(b.contents, b.size + numByte, b.capacity)]
      ensures reserved == old(reserved) + [Region(addr, numByte)]
      ensures Inside(Region(addr, numByte), Used(Newest(pools[t])))
    {
      StretchCut(pools, reserved, t, numByte);
      hide BlocksApart, InBlocks, ValidPools;
      var block := Newest(pools[t]);
      assert block.size + numByte <= block.capacity;
      addr := block.contents + block.size;
      pools := pools[t := CutNewest(pools[t], numByte)];
      reserved := reserved + [Region(addr, numByte)];
    }

    // getMemoryFromPool: a new block only when the newest is too full.
    method GetMemoryFromPool(t: int, numByte: int, at: int) returns (addr: int)
      requires Sound() && 0 <= t < |pools| && numByte >= 0 && Free(pools, at, NewCapacity(pools[t], numByte))
      modifies `pools, `reserved
      ensures Sound() && OnlyPool(old(pools), t) && |pools[t].blocks| >= 1 && |old(pools)[t].blocks| >= 1
      ensures Granted(old(pools)[t], pools[t], numByte, at)
      ensures var b := pools[t].blocks[|pools[t].blocks| - 1]; addr == b.contents + b.size - numByte
      ensures reserved == old(reserved) + [Region(addr, numByte)]
      ensures Inside(Region(addr, numByte), Used(Newest(pools[t])))
    {
      assert ValidPool(pools[t]);
      hide Sound, ValidPool;
      var block := Newest(pools[t]);
      if block.size + numByte > block.capacity {
        AddBlockToPool(t, numByte, at);
      }
      addr := GetMemoryFromBlock(t, numByte);
    }

    // memory_get: aligned, inside its block, and apart from everything handed out before.
    method Get(t: int, numByte: int, at: int) returns (addr: int)
      requires Valid() && 0 <= t < |pools| && numByte >= 0 && Free(pools, at, NewCapacity(pools[t], numByte + 7))
      modifies this
      ensures Valid() && addr % 8 == 0 && given == old(given) + [Region(addr, numByte)]
      ensures OnlyPool(old(pools), t) && |pools[t].blocks| >= 1 && Inside(Region(addr, numByte), Used(Newest(pools[t])))
      ensures |old(pools)[t].blocks| >= 1 && Granted(old(pools)[t], pools[t], numByte + 7, at)
      ensures BytesOfPools(pools) == old(BytesOfPools(pools)) + numByte + 7
      ensures forall k :: 0 <= k < |pools[t].blocks| ==>
                pools[t].blocks[k].capacity >= pools[t].initBlockCapacity * Pow(pools[t].blockGrowthFactor, k)
      ensures forall r :: 0 <= r < |old(given)| ==> Apart(old(given)[r], Region(addr, numByte))
    {
      hide BlocksApart, InBlocks, AllSized, BytesOfPools, BytesOf, Granted;
      addr := GetMemoryFromPool(t, numByte + 7, at);
      ghost var cut := Region(addr, numByte + 7);
      GrantedLaws(old(pools), pools, t, numByte + 7, at, old(reserved), cut);
      var misalignment := addr % 8;
      if misalignment != 0 {
        addr := addr + (8 - misalignment);
      }
      given := given + [Region(addr, numByte)];
      forall r | 0 <= r < |old(given)|
        ensures Apart(old(given)[r], Region(addr, numByte))
      {
        assert reserved[|reserved| - 1] == cut && Apart(reserved[r], reserved[|reserved| - 1]);
        InsideApart(given[r], Region(addr, numByte), reserved[r], cut);
      }
    }
  }

  lemma FirstBlock(c: int, g: int)
    requires c > 0 && g > 0
    ensures Pow(g, 0) == 1 && Pow(g, 1) == g && c * Pow(g, 1) == c * g
  {
  }

  lemma FirstPool(at: int, c: int, g: int)
    requires c > 0 && g > 0
    ensures ValidPool(Pool([Block(at, 0, c)], c * g, c, g))
    ensures Sized(Pool([Block(at, 0, c)], c * g, c, g), []) && BytesInUse([Block(at, 0, c)]) == 0
  {
    FirstBlock(c, g);
  }

  // Pools of one empty block each.
  lemma FirstPools(ps: seq<Pool>, at: seq<int>, c: int, g: int)
    requires c > 0 && g > 0 && |ps| == |at|
    requires forall k :: 0 <= k < |ps| ==> ps[k] == Pool([Block(at[k], 0, c)], c * g, c, g)
    requires forall i, j :: 0 <= i < j < |at| ==> Apart(Region(at[i], c + 1), Region(at[j], c + 1))
    ensures ValidPools(ps) && BlocksApart(ps) && AllSized(ps, []) && BytesOfPools(ps) == 0
  {
    hide ValidPool, Sized, Growing;
    forall k | 0 <= k < |ps|
      ensures ValidPool(ps[k]) && Sized(ps[k], []) && BytesInUse(ps[k].blocks) == 0
    {
      FirstPool(at[k], c, g);
    }
    NoBytes(ps);
  }

  lemma {:induction false} NoBytes(ps: seq<Pool>)
    requires forall k :: 0 <= k < |ps| ==> BytesInUse(ps[k].blocks) == 0
    ensures BytesOfPools(ps) == 0
  {
    if ps != [] {
      NoBytes(ps[..|ps| - 1]);
    }
  }

  lemma NothingReserved()
    ensures Disjoint([]) && BytesOf([]) == 0
    ensures forall ps :: InBlocks(ps, [])
  {
  }
}
