/** Pools beside each other, and beside other users of the external allocator: what an operation
    on one pool leaves alone, and any number of pools on one heap. */
module Neighbours {
  import opened Memory
  import opened PoolModel
  import opened LibPool

  /** From the owner of `mine` to the owner of `mine'`: nobody else's block came, went, moved or
      changed a byte. */
  ghost predicate OthersKept(m: Bytes, blocks: Blocks, mine: set<nat>, m': Bytes, blocks': Blocks, mine': set<nat>) {
    && blocks'.Keys - mine' == blocks.Keys - mine
    && forall b | b in blocks && b !in mine :: SameBlock(m, blocks, m', blocks', b)
  }

  lemma OthersKeptTwice(m: Bytes, blocks: Blocks, mine: set<nat>, m1: Bytes, blocks1: Blocks, mine1: set<nat>,
                        m2: Bytes, blocks2: Blocks, mine2: set<nat>)
    requires OthersKept(m, blocks, mine, m1, blocks1, mine1)
    requires OthersKept(m1, blocks1, mine1, m2, blocks2, mine2)
    ensures OthersKept(m, blocks, mine, m2, blocks2, mine2)
  {
    forall b | b in blocks && b !in mine ensures SameBlock(m, blocks, m2, blocks2, b) {
      assert b in blocks.Keys - mine;
      assert SameBlock(m, blocks, m1, blocks1, b) && SameBlock(m1, blocks1, m2, blocks2, b);
    }
  }

  /** With nothing owned before and after, the heap is what it was. */
  lemma NothingLeft(m: Bytes, blocks: Blocks, m': Bytes, blocks': Blocks)
    requires OthersKept(m, blocks, {}, m', blocks', {})
    ensures blocks' == blocks && BlocksKept(m, m', blocks)
  {
    var none: set<nat> := {};
    assert blocks'.Keys - none == blocks'.Keys && blocks.Keys - none == blocks.Keys;
    forall b | b in blocks ensures blocks'[b] == blocks[b] {
      assert SameBlock(m, blocks, m', blocks', b);
    }
    forall b, x: nat | b in blocks && b <= x < b + blocks[b] ensures ByteAt(m', x) == ByteAt(m, x) {
      assert SameBlock(m, blocks, m', blocks', b);
    }
  }

  lemma OwnedAreLive(blocks: Blocks, p: nat, v: View)
    requires Owns(blocks, p, v)
    ensures OwnedBlocks(p, v) <= blocks.Keys
  {
    forall i | 0 <= i < |v.arrays| ensures v.arrays[i].node in blocks && v.arrays[i].base in blocks {
      assert ArrayOwned(blocks, p, v.arrays[i], v.chunk);
    }
  }

  /** A pool that shares no block with the one that was worked on is as valid as it was. */
  lemma NeighbourKept(m: Bytes, blocks: Blocks, mine: set<nat>, m': Bytes, blocks': Blocks, mine': set<nat>,
                      q: nat, w: View)
    requires OthersKept(m, blocks, mine, m', blocks', mine') && BlocksValid(blocks')
    requires PoolValid(m, blocks, q, w) && OwnedBlocks(q, w) !! mine
    ensures PoolValid(m', blocks', q, w) && OwnedBlocks(q, w) !! mine'
  {
    OwnedAreLive(blocks, q, w);
    forall b | b in OwnedBlocks(q, w) ensures b !in mine' && SameBlock(m, blocks, m', blocks', b) {
      assert b in blocks.Keys - mine;
    }
    PoolIndependent(m, blocks, m', blocks', q, w);
  }

  // ---------------------------------------------------------------------------------------
  // What each operation leaves alone

  lemma NewOthers(m: Bytes, blocks: Blocks, m': Bytes, blocks': Blocks, more: set<nat>)
    requires BlocksKept(m, m', blocks) && Added(blocks, blocks', more)
    ensures OthersKept(m, blocks, {}, m', blocks', more)
  {
    assert blocks'.Keys - more == blocks.Keys;
  }

  /** Writing inside one owned block. */
  lemma WriteOthers(m: Bytes, m': Bytes, blocks: Blocks, mine: set<nat>, a: nat, n: nat, home: nat)
    requires BlocksValid(blocks) && SameOutside(m, m', a, n)
    requires home in mine && home in blocks && home <= a && a + n <= home + blocks[home]
    ensures OthersKept(m, blocks, mine, m', blocks, mine)
  {
  }

  lemma AllocOthers(m: Bytes, m': Bytes, blocks: Blocks, p: nat, v: View)
    requires BlocksValid(blocks) && Owns(blocks, p, v) && SameOutside(m, m', p, POINTER_SIZE)
    ensures OthersKept(m, blocks, OwnedBlocks(p, v), m', blocks, OwnedBlocks(p, v))
  {
    WriteOthers(m, m', blocks, OwnedBlocks(p, v), p, POINTER_SIZE, p);
  }

  lemma ChunkHome(blocks: Blocks, p: nat, v: View, c: nat) returns (home: nat)
    requires BlocksValid(blocks) && Owns(blocks, p, v) && c in Chunks(v.arrays, v.chunk)
    ensures home in OwnedBlocks(p, v) && home in blocks && home != p
    ensures home <= c && c + v.chunk <= home + blocks[home]
  {
    var i := ChunkInBlock(blocks, p, v, c);
    home := v.arrays[i].base;
    assert ArrayOwned(blocks, p, v.arrays[i], v.chunk);
    assert home in Bases(v.arrays, |v.arrays|);
  }

  lemma ChunkWriteOthers(m: Bytes, m': Bytes, blocks: Blocks, p: nat, v: View, c: nat, a: nat, n: nat)
    requires BlocksValid(blocks) && Owns(blocks, p, v) && c in Chunks(v.arrays, v.chunk)
    requires c <= a && a + n <= c + v.chunk && SameOutside(m, m', a, n)
    ensures OthersKept(m, blocks, OwnedBlocks(p, v), m', blocks, OwnedBlocks(p, v))
  {
    var home := ChunkHome(blocks, p, v, c);
    WriteOthers(m, m', blocks, OwnedBlocks(p, v), a, n, home);
  }

  lemma FreeOthers(m: Bytes, m': Bytes, blocks: Blocks, p: nat, v: View, c: nat)
    requires BlocksValid(blocks) && Owns(blocks, p, v) && v.chunk >= POINTER_SIZE
    requires c in Chunks(v.arrays, v.chunk) && SameOutsideTwo(m, m', p, POINTER_SIZE, c, POINTER_SIZE)
    ensures OthersKept(m, blocks, OwnedBlocks(p, v), m', blocks, OwnedBlocks(p, v))
  {
    var home := ChunkHome(blocks, p, v, c);
    forall b | b in blocks && b !in OwnedBlocks(p, v) ensures SameBlock(m, blocks, m', blocks, b) {
      assert Apart(b, blocks[b], home, blocks[home]) && Apart(b, blocks[b], p, blocks[p]);
    }
  }

  lemma GrownOwnsMore(p: nat, v: View, a: Array)
    ensures OwnedBlocks(p, v) <= OwnedBlocks(p, Grown(v, a))
  {
    var g := Grown(v, a);
    forall i | 0 <= i < |v.arrays|
      ensures v.arrays[i].node in OwnedBlocks(p, g) && v.arrays[i].base in OwnedBlocks(p, g)
    {
      assert g.arrays[i + 1] == v.arrays[i];
    }
  }

  lemma ExpandOthers(m: Bytes, blocks: Blocks, m': Bytes, blocks': Blocks, p: nat, v: View, v': View, extra: nat)
    requires BlocksValid(blocks) && Owns(blocks, p, v) && Expanded(m, blocks, m', blocks', p, v, v', extra)
    ensures OthersKept(m, blocks, OwnedBlocks(p, v), m', blocks', OwnedBlocks(p, v'))
  {
    GrownOwnsMore(p, v, v'.arrays[0]);
    forall b | b in blocks && b !in OwnedBlocks(p, v) ensures SameBlock(m, blocks, m', blocks', b) {
      assert Apart(b, blocks[b], p, blocks[p]);
    }
  }

  lemma DestroyOthers(m: Bytes, blocks: Blocks, p: nat, v: View)
    requires BlocksValid(blocks)
    ensures OthersKept(m, blocks, OwnedBlocks(p, v), m, blocks - OwnedBlocks(p, v), {})
    ensures BlocksValid(blocks - OwnedBlocks(p, v))
  {
  }

  // ---------------------------------------------------------------------------------------
  // Any number of pools on one heap

  ghost predicate Separate(pools: seq<nat>, views: seq<View>)
    requires |pools| == |views|
  {
    forall i, j | 0 <= i < |pools| && 0 <= j < |pools| && i != j ::
      OwnedBlocks(pools[i], views[i]) !! OwnedBlocks(pools[j], views[j])
  }

  ghost predicate EachValid(m: Bytes, blocks: Blocks, pools: seq<nat>, views: seq<View>)
    requires |pools| == |views|
  {
    forall i | 0 <= i < |pools| :: Standing(m, blocks, pools[i], views[i])
  }

  ghost predicate Standing(m: Bytes, blocks: Blocks, p: nat, v: View) {
    p != 0 && PoolValid(m, blocks, p, v)
  }

  /** All of them valid, no block shared. */
  ghost predicate AllValid(m: Bytes, blocks: Blocks, pools: seq<nat>, views: seq<View>) {
    && BlocksValid(blocks)
    && |pools| == |views|
    && EachValid(m, blocks, pools, views)
    && Separate(pools, views)
  }

  /** The pools that share nothing with what was worked on. */
  lemma BystandersKept(m: Bytes, blocks: Blocks, mine: set<nat>, m': Bytes, blocks': Blocks, mine': set<nat>,
                       pools: seq<nat>, views: seq<View>)
    requires OthersKept(m, blocks, mine, m', blocks', mine') && BlocksValid(blocks')
    requires |pools| == |views| && EachValid(m, blocks, pools, views)
    ensures forall i | 0 <= i < |pools| && OwnedBlocks(pools[i], views[i]) !! mine ::
              Standing(m', blocks', pools[i], views[i]) && OwnedBlocks(pools[i], views[i]) !! mine'
  {
    forall i | 0 <= i < |pools| && OwnedBlocks(pools[i], views[i]) !! mine
      ensures Standing(m', blocks', pools[i], views[i]) && OwnedBlocks(pools[i], views[i]) !! mine'
    {
      assert Standing(m, blocks, pools[i], views[i]);
      NeighbourKept(m, blocks, mine, m', blocks', mine', pools[i], views[i]);
    }
  }

  lemma AllAfterWork(m: Bytes, blocks: Blocks, m': Bytes, blocks': Blocks, pools: seq<nat>, views: seq<View>,
                     k: nat, v': View)
    requires AllValid(m, blocks, pools, views) && k < |pools| && Standing(m', blocks', pools[k], v')
    requires OthersKept(m, blocks, OwnedBlocks(pools[k], views[k]), m', blocks', OwnedBlocks(pools[k], v'))
    ensures AllValid(m', blocks', pools, views[k := v'])
  {
    BystandersKept(m, blocks, OwnedBlocks(pools[k], views[k]), m', blocks', OwnedBlocks(pools[k], v'), pools, views);
    SeparateStill(pools, views, k, v');
  }

  lemma SeparateStill(pools: seq<nat>, views: seq<View>, k: nat, v': View)
    requires |pools| == |views| && Separate(pools, views) && k < |pools|
    requires forall i | 0 <= i < |pools| && i != k :: OwnedBlocks(pools[i], views[i]) !! OwnedBlocks(pools[k], v')
    ensures Separate(pools, views[k := v'])
  {
  }

  lemma AllAfterExpand(m: Bytes, blocks: Blocks, m': Bytes, blocks': Blocks, pools: seq<nat>, views: seq<View>,
                       k: nat, v': View, extra: nat)
    requires AllValid(m, blocks, pools, views) && k < |pools|
    requires Expanded(m, blocks, m', blocks', pools[k], views[k], v', extra)
    ensures OthersKept(m, blocks, OwnedBlocks(pools[k], views[k]), m', blocks', OwnedBlocks(pools[k], v'))
    ensures AllValid(m', blocks', pools, views[k := v'])
  {
    assert Standing(m, blocks, pools[k], views[k]);
    ExpandOthers(m, blocks, m', blocks', pools[k], views[k], v', extra);
    AllAfterWork(m, blocks, m', blocks', pools, views, k, v');
  }

  lemma AllAfterNew(m: Bytes, blocks: Blocks, m': Bytes, blocks': Blocks, pools: seq<nat>, views: seq<View>,
                    p: nat, v: View)
    requires AllValid(m, blocks, pools, views) && Standing(m', blocks', p, v)
    requires OthersKept(m, blocks, {}, m', blocks', OwnedBlocks(p, v))
    ensures AllValid(m', blocks', pools + [p], views + [v])
  {
    BystandersKept(m, blocks, {}, m', blocks', OwnedBlocks(p, v), pools, views);
    SeparateMore(pools, views, p, v);
  }

  lemma SeparateMore(pools: seq<nat>, views: seq<View>, p: nat, v: View)
    requires |pools| == |views| && Separate(pools, views)
    requires forall i | 0 <= i < |pools| :: OwnedBlocks(pools[i], views[i]) !! OwnedBlocks(p, v)
    ensures Separate(pools + [p], views + [v])
  {
  }

  lemma AllAfterDestroy(m: Bytes, blocks: Blocks, m': Bytes, blocks': Blocks, pools: seq<nat>, views: seq<View>, k: nat)
    requires AllValid(m, blocks, pools, views) && k < |pools| && BlocksValid(blocks')
    requires OthersKept(m, blocks, OwnedBlocks(pools[k], views[k]), m', blocks', {})
    ensures AllValid(m', blocks', Without(pools, k), Without(views, k))
  {
    BystandersKept(m, blocks, OwnedBlocks(pools[k], views[k]), m', blocks', {}, pools, views);
  }

  class SharedHeap {
    const heap: Allocator
    var pools: seq<nat>
    ghost var views: seq<View>

    ghost predicate Valid()
      reads this, heap
    {
      AllValid(heap.bytes, heap.blocks, pools, views)
    }

    ghost function Mine(i: nat): set<nat>
      requires i < |pools| == |views|
      reads this
    {
      OwnedBlocks(pools[i], views[i])
    }

    constructor (heap: Allocator)
      requires BlocksValid(heap.blocks)
      ensures Valid() && this.heap == heap && pools == [] && views == []
    {
      this.heap, pools, views := heap, [], [];
    }

    method New(poolSz: nat, chunkSz: nat, choices: (nat, nat, nat)) returns (ok: bool)
      requires Valid()
      requires 0 < chunkSz <= ADDRESS_SPACE - POINTER_SIZE && Span(poolSz, Align(chunkSz)) < ADDRESS_SPACE
      modifies this, heap
      ensures Valid()
      ensures ok <==> poolSz > 0 && GrantsNew(old(heap.blocks), choices, Span(poolSz, Align(chunkSz)))
      ensures if ok then |pools| == |old(pools)| + 1 && pools[..|old(pools)|] == old(pools)
                         && |views| == |pools| && views[..|old(pools)|] == old(views)
                         && IsNew(views[|old(pools)|], poolSz, Align(chunkSz))
              else pools == old(pools) && views == old(views)
      ensures heap.blocks == if ok then NewBlocks(old(heap.blocks), choices, Span(poolSz, Align(chunkSz)))
                             else old(heap.blocks)
      ensures ok && |views| == |pools| > 0 ==> Mine(|pools| - 1) == {choices.0, choices.1, choices.2}
      ensures OthersKept(old(heap.bytes), old(heap.blocks), {}, heap.bytes, heap.blocks,
                         if ok && |views| == |pools| > 0 then Mine(|pools| - 1) else {})
    {
      ghost var m, blocks := heap.bytes, heap.blocks;
      var pool;
      ghost var v;
      pool, v := heap.PoolNew(poolSz, chunkSz, choices);
      ok := pool != 0;
      if ok {
        NewOthers(m, blocks, heap.bytes, heap.blocks, OwnedBlocks(pool, v));
        AllAfterNew(m, blocks, heap.bytes, heap.blocks, pools, views, pool, v);
        pools, views := pools + [pool], views + [v];
      } else {
        NewOthers(m, blocks, heap.bytes, heap.blocks, {});
        AllAfterNothing(m, heap.bytes, blocks, pools, views);
      }
    }

    method Alloc(i: nat) returns (result: nat)
      requires Valid() && i < |pools|
      modifies this`views, heap`bytes
      ensures Valid() && |old(views)| == |views| == |pools|
      ensures result == 0 <==> old(views)[i].free == []
      ensures result != 0 ==> result == old(views)[i].free[0]
      ensures views == old(views)[i := if result == 0 then old(views)[i] else Popped(old(views)[i])]
      ensures OthersKept(old(heap.bytes), heap.blocks, old(Mine(i)), heap.bytes, heap.blocks, Mine(i))
    {
      ghost var m, v := heap.bytes, views[i];
      result := heap.PoolAlloc(pools[i], v);
      if result != 0 {
        AllocOthers(m, heap.bytes, heap.blocks, pools[i], v);
        AllAfterWork(m, heap.blocks, heap.bytes, heap.blocks, pools, views, i, Popped(v));
        views := views[i := Popped(v)];
      }
    }

    method Free(i: nat, ptr: nat)
      requires Valid() && i < |pools| && |views| == |pools| && ptr != 0 && ptr in Outstanding(views[i])
      modifies this`views, heap`bytes
      ensures Valid() && |old(views)| == |pools| && views == old(views)[i := Pushed(old(views)[i], ptr)]
      ensures OthersKept(old(heap.bytes), heap.blocks, old(Mine(i)), heap.bytes, heap.blocks, Mine(i))
    {
      ghost var m, v := heap.bytes, views[i];
      heap.PoolFree(pools[i], ptr, v);
      FreeOthers(m, heap.bytes, heap.blocks, pools[i], v, ptr);
      AllAfterWork(m, heap.blocks, heap.bytes, heap.blocks, pools, views, i, Pushed(v, ptr));
      views := views[i := Pushed(v, ptr)];
    }

    method Expand(i: nat, extraSz: nat, choices: (nat, nat)) returns (ok: bool)
      requires Valid() && i < |pools| && |views| == |pools| && Span(extraSz, views[i].chunk) < ADDRESS_SPACE
      modifies this`views, heap
      ensures Valid() && |old(views)| == |views| == |pools|
      ensures ok <==> extraSz > 0 && Grants(old(heap.blocks), choices, Span(extraSz, old(views)[i].chunk))
      ensures if ok then IsGrown(old(views)[i], views[i], extraSz) else views[i] == old(views)[i]
      ensures views == old(views)[i := views[i]]
      ensures if ok
              then heap.blocks == MoreBlocks(old(heap.blocks), choices, Span(extraSz, old(views)[i].chunk))
                   && Mine(i) == old(Mine(i)) + {choices.0, choices.1}
              else heap.blocks == old(heap.blocks)
      ensures OthersKept(old(heap.bytes), old(heap.blocks), old(Mine(i)), heap.bytes, heap.blocks, Mine(i))
    {
      ghost var before, v' := views, views[i];
      ok, v' := Grow(i, extraSz, choices, views[i]);
      views := before[i := v'];
      assert views[i] == v';
    }

    method Grow(i: nat, extraSz: nat, choices: (nat, nat), ghost v: View) returns (ok: bool, ghost v': View)
      requires Valid() && i < |pools| && v == views[i] && Span(extraSz, v.chunk) < ADDRESS_SPACE
      modifies heap
      ensures AllValid(heap.bytes, heap.blocks, pools, views[i := v'])
      ensures ok <==> extraSz > 0 && Grants(old(heap.blocks), choices, Span(extraSz, v.chunk))
      ensures if ok then IsGrown(v, v', extraSz) else v' == v
      ensures if ok
              then heap.blocks == MoreBlocks(old(heap.blocks), choices, Span(extraSz, v.chunk))
                   && OwnedBlocks(pools[i], v') == OwnedBlocks(pools[i], v) + {choices.0, choices.1}
              else heap.blocks == old(heap.blocks)
      ensures OthersKept(old(heap.bytes), old(heap.blocks), OwnedBlocks(pools[i], v),
                         heap.bytes, heap.blocks, OwnedBlocks(pools[i], v'))
    {
      ghost var m, blocks := heap.bytes, heap.blocks;
      assert Standing(m, blocks, pools[i], v);
      ok, v' := heap.PoolExpand(pools[i], extraSz, choices, v);
      if ok {
        AllAfterExpand(m, blocks, heap.bytes, heap.blocks, pools, views, i, v', extraSz);
      } else {
        assert views[i := v'] == views;
      }
    }

    method Destroy(i: nat)
      requires Valid() && i < |pools|
      modifies this, heap`blocks
      ensures Valid() && |old(views)| == |old(pools)|
      ensures pools == Without(old(pools), i) && views == Without(old(views), i)
      ensures heap.blocks == old(heap.blocks) - old(Mine(i))
      ensures OthersKept(heap.bytes, old(heap.blocks), old(Mine(i)), heap.bytes, heap.blocks, {})
    {
      ghost var blocks, v := heap.blocks, views[i];
      heap.PoolDestroy(pools[i], v);
      DestroyOthers(heap.bytes, blocks, pools[i], v);
      AllAfterDestroy(heap.bytes, blocks, heap.bytes, heap.blocks, pools, views, i);
      pools, views := Without(pools, i), Without(views, i);
    }
  }

  /** A refused `pool_new` may have touched memory nobody owns; the pools do not notice. */
  lemma AllAfterNothing(m: Bytes, m': Bytes, blocks: Blocks, pools: seq<nat>, views: seq<View>)
    requires AllValid(m, blocks, pools, views) && BlocksKept(m, m', blocks)
    ensures AllValid(m', blocks, pools, views)
  {
    BystandersKept(m, blocks, {}, m', blocks, {}, pools, views);
  }
}
