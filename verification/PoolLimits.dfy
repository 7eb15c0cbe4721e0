/** What the pool asks of its callers is no more than it needs: outside these conditions the code
    leaves no valid pool behind. */
module PoolLimits {
  import opened Memory
  import opened PoolModel
  import opened LibPool

  // ---------------------------------------------------------------------------------------
  // Releasing

  /** The two stores of `pool_free`, for whatever pointer it is given. */
  function Freed(m: Bytes, p: nat, v: View, c: nat): Bytes {
    Poke(Poke(m, c, FirstFree(v.free)), p, c)
  }

  lemma HeadFits(m: Bytes, blocks: Blocks, p: nat, v: View)
    requires PoolValid(m, blocks, p, v)
    ensures FirstFree(v.free) < ADDRESS_SPACE
  {
    if v.free != [] {
      var _ := ChunkInBlock(blocks, p, v, v.free[0]);
    }
  }

  lemma FreedWords(m: Bytes, p: nat, v: View, c: nat, a: nat)
    requires FirstFree(v.free) < ADDRESS_SPACE && c < ADDRESS_SPACE
    ensures Word(Freed(m, p, v, c), p) == c
    ensures Apart(p, POINTER_SIZE, c, POINTER_SIZE) ==> Word(Freed(m, p, v, c), c) == FirstFree(v.free)
    ensures Apart(p, POINTER_SIZE, a, POINTER_SIZE) && Apart(c, POINTER_SIZE, a, POINTER_SIZE) ==>
              Word(Freed(m, p, v, c), a) == Word(m, a)
  {
    PokeEffect(m, c, FirstFree(v.free));
    PokeEffect(Poke(m, c, FirstFree(v.free)), p, c);
  }

  /** Whatever pool is there afterwards has the pointer in front of its free list, so the pointer
      is one of its chunks and the stores missed its structure and its nodes. */
  lemma FreedHead(m: Bytes, blocks: Blocks, p: nat, v: View, c: nat, w: View)
    requires PoolValid(m, blocks, p, v) && 0 < c < ADDRESS_SPACE
    requires PoolValid(Freed(m, p, v, c), blocks, p, w)
    ensures w.free != [] && w.free[0] == c && c in Chunks(w.arrays, w.chunk)
    ensures w.chunk == v.chunk && FirstNode(w.arrays) == FirstNode(v.arrays)
  {
    HeadFits(m, blocks, p, v);
    FreedWords(m, p, v, c, p + 8);
    FreedWords(m, p, v, c, p + 16);
    assert w.free[0] == c;
    ChunkApartHeader(blocks, p, w, c);
  }

  function NodeAt(arrays: seq<Array>, i: nat): nat {
    if i < |arrays| then arrays[i].node else 0
  }

  lemma SpanInjective(a: nat, b: nat, chunk: nat)
    requires chunk > 0 && Span(a, chunk) == Span(b, chunk)
    ensures a == b
  {
    if a < b {
      AtStep(0, chunk, a, b);
    } else if b < a {
      AtStep(0, chunk, b, a);
    }
  }

  lemma FreedArray(m: Bytes, blocks: Blocks, p: nat, v: View, c: nat, w: View, i: nat)
    requires PoolValid(m, blocks, p, v) && 0 < c < ADDRESS_SPACE
    requires PoolValid(Freed(m, p, v, c), blocks, p, w)
    requires c in Chunks(w.arrays, w.chunk) && w.chunk == v.chunk
    requires i < |w.arrays| && i < |v.arrays| && w.arrays[i].node == v.arrays[i].node
    ensures w.arrays[i] == v.arrays[i] && NodeAt(w.arrays, i + 1) == NodeAt(v.arrays, i + 1)
  {
    var node := v.arrays[i].node;
    HeadFits(m, blocks, p, v);
    ChunkApartNode(blocks, p, w, c, i);
    NodeApartHeader(blocks, p, w, i);
    FreedWords(m, p, v, c, node);
    FreedWords(m, p, v, c, node + 8);
    assert ArrayOwned(blocks, p, w.arrays[i], w.chunk) && ArrayOwned(blocks, p, v.arrays[i], v.chunk);
    SpanInjective(w.arrays[i].count, v.arrays[i].count, v.chunk);
  }

  lemma {:induction false} FreedPrefix(m: Bytes, blocks: Blocks, p: nat, v: View, c: nat, w: View, i: nat)
    requires PoolValid(m, blocks, p, v) && 0 < c < ADDRESS_SPACE
    requires PoolValid(Freed(m, p, v, c), blocks, p, w)
    requires i <= |w.arrays| && i <= |v.arrays|
    ensures w.chunk == v.chunk && NodeAt(w.arrays, i) == NodeAt(v.arrays, i)
    ensures forall j | 0 <= j < i :: w.arrays[j] == v.arrays[j]
    decreases i
  {
    FreedHead(m, blocks, p, v, c, w);
    if i > 0 {
      FreedPrefix(m, blocks, p, v, c, w, i - 1);
      FreedArray(m, blocks, p, v, c, w, i - 1);
    }
  }

  lemma FreedArrays(m: Bytes, blocks: Blocks, p: nat, v: View, c: nat, w: View)
    requires PoolValid(m, blocks, p, v) && 0 < c < ADDRESS_SPACE
    requires PoolValid(Freed(m, p, v, c), blocks, p, w)
    ensures w.chunk == v.chunk && w.arrays == v.arrays
  {
    NodesPositive(blocks, p, v);
    NodesPositive(blocks, p, w);
    FreedPrefix(m, blocks, p, v, c, w, if |w.arrays| < |v.arrays| then |w.arrays| else |v.arrays|);
  }

  /** One link of the list after the stores, seen from the pool that was there before. */
  lemma FreedLink(m: Bytes, blocks: Blocks, p: nat, v: View, c: nat, j: nat)
    requires PoolValid(m, blocks, p, v) && 0 < c < ADDRESS_SPACE && c in Chunks(v.arrays, v.chunk)
    requires j < |v.free| && v.free[j] != c
    ensures Word(Freed(m, p, v, c), v.free[j]) == NextFree(v.free, j)
  {
    HeadFits(m, blocks, p, v);
    ChunkApartHeader(blocks, p, v, v.free[j]);
    ChunksApart(blocks, p, v, c, v.free[j]);
    FreedWords(m, p, v, c, v.free[j]);
  }

  /** The links after free chunk k is released: from it to the old head, and on as before. */
  ghost predicate LoopsBack(m: Bytes, free: seq<nat>, k: nat)
    requires k < |free|
  {
    && (forall i | 0 <= i <= k :: free[i] != 0)
    && Word(m, free[k]) == free[0]
    && (forall i | 0 <= i < k :: Word(m, free[i]) == free[i + 1])
  }

  lemma FreedLoopsBack(m: Bytes, blocks: Blocks, p: nat, v: View, k: nat)
    requires PoolValid(m, blocks, p, v) && k < |v.free|
    ensures 0 < v.free[k] < ADDRESS_SPACE
    ensures LoopsBack(Freed(m, p, v, v.free[k]), v.free, k)
  {
    var c := v.free[k];
    forall i | 0 <= i <= k ensures 0 < v.free[i] < ADDRESS_SPACE {
      var _ := ChunkInBlock(blocks, p, v, v.free[i]);
    }
    FreedFirstLink(m, blocks, p, v, c);
    forall i | 0 <= i < k ensures Word(Freed(m, p, v, c), v.free[i]) == v.free[i + 1] {
      FreedLink(m, blocks, p, v, c, i);
    }
  }

  /** A list that enters the loop goes round it. */
  lemma {:induction false} LoopFollowed(m: Bytes, free: seq<nat>, k: nat, list: seq<nat>, j: nat)
    requires j <= k < |free| && LoopsBack(m, free, k)
    requires FreeWired(m, list) && list != [] && list[0] == free[k]
    ensures j + 1 < |list| && list[j + 1] == free[j]
    decreases j
  {
    if j > 0 {
      LoopFollowed(m, free, k, list, j - 1);
      var i := j - 1;
      assert Word(m, free[i]) == free[i + 1];
    }
    FreeLinksTo(m, list, j);
  }

  /** Releasing a chunk that is on the free list closes the list to a cycle, so there is no pool
      any more. */
  lemma ReleasedTwice(m: Bytes, blocks: Blocks, p: nat, v: View, k: nat, w: View)
    requires PoolValid(m, blocks, p, v) && k < |v.free|
    ensures !PoolValid(Freed(m, p, v, v.free[k]), blocks, p, w)
  {
    if PoolValid(Freed(m, p, v, v.free[k]), blocks, p, w) {
      FreedLoopsBack(m, blocks, p, v, k);
      FreedHead(m, blocks, p, v, v.free[k], w);
      LoopFollowed(Freed(m, p, v, v.free[k]), v.free, k, w.free, k);
    }
  }

  lemma FreedFirstLink(m: Bytes, blocks: Blocks, p: nat, v: View, c: nat)
    requires PoolValid(m, blocks, p, v) && c < ADDRESS_SPACE && c in Chunks(v.arrays, v.chunk)
    ensures Word(Freed(m, p, v, c), c) == FirstFree(v.free)
  {
    HeadFits(m, blocks, p, v);
    ChunkApartHeader(blocks, p, v, c);
    FreedWords(m, p, v, c, c);
  }

  /** A link that is not null is the next free chunk. */
  lemma FreeLinksTo(m: Bytes, list: seq<nat>, i: nat)
    requires FreeWired(m, list) && i < |list| && Word(m, list[i]) != 0
    ensures i + 1 < |list| && list[i + 1] == Word(m, list[i])
  {
    assert Word(m, list[i]) == NextFree(list, i);
  }

  /** `pool_free` leaves a valid pool, whichever, if and only if the pointer is an outstanding
      chunk: not a free one, not the inside of one, nothing foreign. */
  lemma FreeExact(m: Bytes, blocks: Blocks, p: nat, v: View, c: nat)
    requires PoolValid(m, blocks, p, v) && 0 < c < ADDRESS_SPACE
    ensures (exists w :: PoolValid(Freed(m, p, v, c), blocks, p, w)) <==> c in Outstanding(v)
  {
    if c in Outstanding(v) {
      FreeKeeps(m, blocks, p, v, c);
      assert PoolValid(Freed(m, p, v, c), blocks, p, Pushed(v, c));
    } else {
      forall w ensures !PoolValid(Freed(m, p, v, c), blocks, p, w) {
        ReleaseRefuted(m, blocks, p, v, c, w);
      }
    }
  }

  lemma ReleaseRefuted(m: Bytes, blocks: Blocks, p: nat, v: View, c: nat, w: View)
    requires PoolValid(m, blocks, p, v) && 0 < c < ADDRESS_SPACE && c !in Outstanding(v)
    ensures !PoolValid(Freed(m, p, v, c), blocks, p, w)
  {
    if PoolValid(Freed(m, p, v, c), blocks, p, w) {
      FreedHead(m, blocks, p, v, c, w);
      FreedArrays(m, blocks, p, v, c, w);
      assert c in Chunks(v.arrays, v.chunk);
      assert c in Members(v.free);
      var k :| 0 <= k < |v.free| && v.free[k] == c;
      ReleasedTwice(m, blocks, p, v, k, w);
    }
  }

  // ---------------------------------------------------------------------------------------
  // Sizes

  /** Every array of a valid pool has a size the machine can count. */
  lemma ArrayCountable(m: Bytes, blocks: Blocks, p: nat, v: View, i: nat)
    requires PoolValid(m, blocks, p, v) && i < |v.arrays|
    ensures Span(v.arrays[i].count, v.chunk) < ADDRESS_SPACE
  {
    assert ArrayOwned(blocks, p, v.arrays[i], v.chunk);
  }

  /** A pool of that many chunks of that size, as `pool_new` aligns it, exists only within what
      `PoolNew` requires: a size that is not zero and does not wrap, and a countable total. */
  lemma NewNeeds(m: Bytes, blocks: Blocks, p: nat, v: View, poolSz: nat, chunkSz: nat)
    requires PoolValid(m, blocks, p, v) && IsNew(v, poolSz, Align(chunkSz)) && chunkSz < ADDRESS_SPACE
    ensures poolSz > 0 && 0 < chunkSz <= ADDRESS_SPACE - POINTER_SIZE
    ensures Span(poolSz, Align(chunkSz)) < ADDRESS_SPACE
  {
    AlignIsLeast(chunkSz);
    ArrayCountable(m, blocks, p, v, 0);
    assert ArrayOwned(blocks, p, v.arrays[0], v.chunk);
  }

  /** And one expanded by that many chunks only within what `PoolExpand` requires. */
  lemma ExpandNeeds(m: Bytes, blocks: Blocks, p: nat, v: View, v': View, extra: nat)
    requires PoolValid(m, blocks, p, v') && IsGrown(v, v', extra)
    ensures extra > 0 && Span(extra, v.chunk) < ADDRESS_SPACE
  {
    ArrayCountable(m, blocks, p, v', 0);
    assert ArrayOwned(blocks, p, v'.arrays[0], v'.chunk);
  }
}
