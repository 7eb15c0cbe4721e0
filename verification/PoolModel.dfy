/** What a pool is: the abstract view of a `Pool` structure, how the view is laid out in memory,
    and what every operation keeps. */
module PoolModel {
  import opened Memory

  /** sizeof(Pool): free_chunk, array_starts, chunk_sz. sizeof(ArrayStart): next, arr. */
  const POOL_SIZE: nat := 24
  const NODE_SIZE: nat := 16

  /** One chunk array and the list node that remembers it. */
  datatype Array = Array(node: nat, base: nat, count: nat)

  /** The free chunks in list order, the arrays in list order, and the aligned chunk size. */
  datatype View = View(free: seq<nat>, arrays: seq<Array>, chunk: nat)

  // ---------------------------------------------------------------------------------------
  // Chunks

  /** Bytes taken by that many chunks. */
  function Span(count: nat, chunk: nat): nat {
    count * chunk
  }

  /** Address of chunk i of an array. */
  function At(base: nat, chunk: nat, i: nat): nat {
    base + i * chunk
  }

  function ChunkList(base: nat, chunk: nat, count: nat): (s: seq<nat>)
    ensures |s| == count
    ensures forall i | 0 <= i < count :: s[i] == At(base, chunk, i)
  {
    seq(count, i requires 0 <= i < count => At(base, chunk, i))
  }

  ghost function ArrayChunks(a: Array, chunk: nat): set<nat> {
    set c | c in ChunkList(a.base, chunk, a.count)
  }

  ghost function Chunks(arrays: seq<Array>, chunk: nat): set<nat> {
    if arrays == [] then {} else ArrayChunks(arrays[0], chunk) + Chunks(arrays[1..], chunk)
  }

  function Total(arrays: seq<Array>): nat {
    if arrays == [] then 0 else arrays[0].count + Total(arrays[1..])
  }

  ghost function Members(s: seq<nat>): set<nat> {
    set c | c in s
  }

  /** A list with one element taken out. */
  function Without<T>(s: seq<T>, k: nat): (r: seq<T>)
    requires k < |s|
    ensures |r| == |s| - 1
    ensures forall i | 0 <= i < |r| :: r[i] == s[if i < k then i else i + 1]
  {
    s[..k] + s[k + 1..]
  }

  ghost predicate Distinct(held: seq<nat>) {
    forall i, j | 0 <= i < j < |held| :: held[i] != held[j]
  }

  lemma WithoutMembers(held: seq<nat>, k: nat)
    requires Distinct(held) && k < |held|
    ensures Distinct(Without(held, k)) && held[k] !in Without(held, k)
    ensures Members(Without(held, k)) == Members(held) - {held[k]}
  {
    var w := Without(held, k);
    forall x ensures x in w <==> x in held && x != held[k] {
      if x in held && x != held[k] {
        var j :| 0 <= j < |held| && held[j] == x;
        assert x == w[if j < k then j else j - 1];
      }
    }
  }

  /** The chunks the pool's users hold. */
  ghost function Outstanding(v: View): set<nat> {
    Chunks(v.arrays, v.chunk) - Members(v.free)
  }

  lemma AtStep(base: nat, chunk: nat, i: nat, j: nat)
    requires i < j
    ensures At(base, chunk, i) + chunk <= At(base, chunk, j)
  {
    assert j * chunk == i * chunk + chunk + (j - i - 1) * chunk;
    ProductNonNegative(j - i - 1, chunk);
  }

  lemma ProductNonNegative(a: nat, b: nat)
    ensures a * b >= 0
  {
  }

  lemma InArray(a: Array, chunk: nat, c: nat) returns (i: nat)
    requires c in ArrayChunks(a, chunk)
    ensures i < a.count && c == At(a.base, chunk, i)
    ensures a.base <= c && c + chunk <= a.base + Span(a.count, chunk)
  {
    i :| 0 <= i < a.count && ChunkList(a.base, chunk, a.count)[i] == c;
    AtStep(a.base, chunk, i, a.count);
  }

  lemma {:induction false} WhichArray(arrays: seq<Array>, chunk: nat, c: nat) returns (i: nat)
    requires c in Chunks(arrays, chunk)
    ensures i < |arrays| && c in ArrayChunks(arrays[i], chunk)
  {
    if c in ArrayChunks(arrays[0], chunk) {
      i := 0;
    } else {
      i := WhichArray(arrays[1..], chunk, c);
      i := i + 1;
    }
  }

  // ---------------------------------------------------------------------------------------
  // The layout

  /** An array's node and chunks are live blocks of their own. */
  ghost predicate ArrayOwned(blocks: Blocks, p: nat, a: Array, chunk: nat) {
    && a.node in blocks && blocks[a.node] == NODE_SIZE
    && a.base in blocks && blocks[a.base] == Span(a.count, chunk)
    && a.node != p && a.base != p && a.node != a.base
    && a.count > 0
  }

  ghost predicate ArraysDiffer(a: Array, b: Array) {
    a.node != b.node && a.base != b.base && a.node != b.base && a.base != b.node
  }

  ghost predicate Owns(blocks: Blocks, p: nat, v: View) {
    && p in blocks && blocks[p] == POOL_SIZE
    && (forall i | 0 <= i < |v.arrays| :: ArrayOwned(blocks, p, v.arrays[i], v.chunk))
    && (forall i, j | 0 <= i < j < |v.arrays| :: ArraysDiffer(v.arrays[i], v.arrays[j]))
  }

  function FirstFree(free: seq<nat>): nat {
    if free == [] then 0 else free[0]
  }

  function FirstNode(arrays: seq<Array>): nat {
    if arrays == [] then 0 else arrays[0].node
  }

  function NextFree(free: seq<nat>, i: nat): nat {
    if i + 1 < |free| then free[i + 1] else 0
  }

  function NextNode(arrays: seq<Array>, i: nat): nat {
    if i + 1 < |arrays| then arrays[i + 1].node else 0
  }

  /** The three fields of the pool structure. */
  ghost predicate HeaderWired(m: Bytes, p: nat, v: View) {
    && Word(m, p) == FirstFree(v.free)
    && Word(m, p + 8) == FirstNode(v.arrays)
    && Word(m, p + 16) == v.chunk
  }

  /** The list of array starts, NULL-terminated. */
  ghost predicate NodesWired(m: Bytes, arrays: seq<Array>) {
    forall i | 0 <= i < |arrays| ::
      Word(m, arrays[i].node) == NextNode(arrays, i) && Word(m, arrays[i].node + 8) == arrays[i].base
  }

  /** The free list threaded through the chunks themselves, NULL-terminated. */
  ghost predicate FreeWired(m: Bytes, free: seq<nat>) {
    forall i | 0 <= i < |free| :: Word(m, free[i]) == NextFree(free, i)
  }

  /** No chunk twice on the free list (so the list is not cyclic), and only the pool's chunks. */
  ghost predicate FreeSound(v: View) {
    && (forall i, j | 0 <= i < j < |v.free| :: v.free[i] != v.free[j])
    && (forall i | 0 <= i < |v.free| :: v.free[i] in Chunks(v.arrays, v.chunk))
  }

  ghost predicate PoolValid(m: Bytes, blocks: Blocks, p: nat, v: View) {
    && BlocksValid(blocks)
    && v.chunk >= POINTER_SIZE && v.chunk % POINTER_SIZE == 0 && v.chunk < ADDRESS_SPACE
    && Owns(blocks, p, v)
    && HeaderWired(m, p, v)
    && NodesWired(m, v.arrays)
    && FreeWired(m, v.free)
    && FreeSound(v)
  }

  // ---------------------------------------------------------------------------------------
  // Separation

  /** A chunk lies inside its array's block. */
  lemma ChunkInBlock(blocks: Blocks, p: nat, v: View, c: nat) returns (i: nat)
    requires BlocksValid(blocks) && Owns(blocks, p, v)
    requires c in Chunks(v.arrays, v.chunk)
    ensures i < |v.arrays| && c in ArrayChunks(v.arrays[i], v.chunk)
    ensures v.arrays[i].base <= c && c + v.chunk <= v.arrays[i].base + blocks[v.arrays[i].base]
    ensures 0 < c && c + v.chunk <= ADDRESS_SPACE
  {
    i := WhichArray(v.arrays, v.chunk, c);
    assert ArrayOwned(blocks, p, v.arrays[i], v.chunk);
    var _ := InArray(v.arrays[i], v.chunk, c);
  }

  /** Distinct chunks occupy disjoint byte ranges. */
  lemma ChunksApart(blocks: Blocks, p: nat, v: View, c: nat, d: nat)
    requires BlocksValid(blocks) && Owns(blocks, p, v)
    requires c in Chunks(v.arrays, v.chunk) && d in Chunks(v.arrays, v.chunk) && c != d
    ensures Apart(c, v.chunk, d, v.chunk)
  {
    var i := ChunkInBlock(blocks, p, v, c);
    var j := ChunkInBlock(blocks, p, v, d);
    if i == j {
      var x := InArray(v.arrays[i], v.chunk, c);
      var y := InArray(v.arrays[i], v.chunk, d);
      if x < y {
        AtStep(v.arrays[i].base, v.chunk, x, y);
      } else {
        AtStep(v.arrays[i].base, v.chunk, y, x);
      }
    } else if i < j {
      assert ArraysDiffer(v.arrays[i], v.arrays[j]);
    } else {
      assert ArraysDiffer(v.arrays[j], v.arrays[i]);
    }
  }

  lemma ChunkApartHeader(blocks: Blocks, p: nat, v: View, c: nat)
    requires BlocksValid(blocks) && Owns(blocks, p, v)
    requires c in Chunks(v.arrays, v.chunk)
    ensures Apart(p, POOL_SIZE, c, v.chunk)
  {
    var i := ChunkInBlock(blocks, p, v, c);
    assert ArrayOwned(blocks, p, v.arrays[i], v.chunk);
  }

  lemma ChunkApartNode(blocks: Blocks, p: nat, v: View, c: nat, k: nat)
    requires BlocksValid(blocks) && Owns(blocks, p, v)
    requires c in Chunks(v.arrays, v.chunk) && k < |v.arrays|
    ensures Apart(v.arrays[k].node, NODE_SIZE, c, v.chunk)
  {
    var i := ChunkInBlock(blocks, p, v, c);
    assert ArrayOwned(blocks, p, v.arrays[i], v.chunk);
    assert ArrayOwned(blocks, p, v.arrays[k], v.chunk);
    if i < k {
      assert ArraysDiffer(v.arrays[i], v.arrays[k]);
    } else if k < i {
      assert ArraysDiffer(v.arrays[k], v.arrays[i]);
    }
  }

  lemma NodeApartHeader(blocks: Blocks, p: nat, v: View, k: nat)
    requires BlocksValid(blocks) && Owns(blocks, p, v) && k < |v.arrays|
    ensures Apart(p, POOL_SIZE, v.arrays[k].node, NODE_SIZE)
  {
    assert ArrayOwned(blocks, p, v.arrays[k], v.chunk);
  }

  // ---------------------------------------------------------------------------------------
  // Framing

  /** The bytes of the two memories agree outside [a, a + n). */
  ghost predicate SameOutside(m: Bytes, m': Bytes, a: nat, n: nat) {
    forall x: nat :: x < a || a + n <= x ==> ByteAt(m', x) == ByteAt(m, x)
  }

  lemma WordOutside(m: Bytes, m': Bytes, a: nat, n: nat, b: nat)
    requires SameOutside(m, m', a, n) && Apart(a, n, b, POINTER_SIZE)
    ensures Word(m', b) == Word(m, b)
  {
    WordFrame(m, m', b);
  }

  lemma NodesFrame(m: Bytes, m': Bytes, a: nat, n: nat, arrays: seq<Array>)
    requires SameOutside(m, m', a, n) && NodesWired(m, arrays)
    requires forall i | 0 <= i < |arrays| :: Apart(a, n, arrays[i].node, NODE_SIZE)
    ensures NodesWired(m', arrays)
  {
    forall i | 0 <= i < |arrays|
      ensures Word(m', arrays[i].node) == Word(m, arrays[i].node)
      ensures Word(m', arrays[i].node + 8) == Word(m, arrays[i].node + 8)
    {
      WordOutside(m, m', a, n, arrays[i].node);
      WordOutside(m, m', a, n, arrays[i].node + 8);
    }
  }

  lemma FreeFrame(m: Bytes, m': Bytes, a: nat, n: nat, free: seq<nat>)
    requires SameOutside(m, m', a, n) && FreeWired(m, free)
    requires forall i | 0 <= i < |free| :: Apart(a, n, free[i], POINTER_SIZE)
    ensures FreeWired(m', free)
  {
    forall i | 0 <= i < |free| ensures Word(m', free[i]) == Word(m, free[i]) {
      WordOutside(m, m', a, n, free[i]);
    }
  }

  lemma HeaderFrame(m: Bytes, m': Bytes, a: nat, n: nat, p: nat, v: View)
    requires SameOutside(m, m', a, n) && HeaderWired(m, p, v) && Apart(a, n, p, POOL_SIZE)
    ensures HeaderWired(m', p, v)
  {
    WordOutside(m, m', a, n, p);
    WordOutside(m, m', a, n, p + 8);
    WordOutside(m, m', a, n, p + 16);
  }

  /** Writes that stay inside one outstanding chunk cannot disturb the pool. */
  lemma ChunkWriteKeepsPool(m: Bytes, m': Bytes, blocks: Blocks, p: nat, v: View, c: nat)
    requires PoolValid(m, blocks, p, v)
    requires c in Outstanding(v) && SameOutside(m, m', c, v.chunk)
    ensures PoolValid(m', blocks, p, v)
  {
    ChunkApartHeader(blocks, p, v, c);
    HeaderFrame(m, m', c, v.chunk, p, v);
    forall i | 0 <= i < |v.arrays| ensures Apart(c, v.chunk, v.arrays[i].node, NODE_SIZE) {
      ChunkApartNode(blocks, p, v, c, i);
    }
    NodesFrame(m, m', c, v.chunk, v.arrays);
    forall i | 0 <= i < |v.free| ensures Apart(c, v.chunk, v.free[i], POINTER_SIZE) {
      ChunksApart(blocks, p, v, c, v.free[i]);
    }
    FreeFrame(m, m', c, v.chunk, v.free);
  }

  // ---------------------------------------------------------------------------------------
  // What the operations keep

  /** A store to the first field of the structure leaves everything but the free list head. */
  lemma HeadStoreKeeps(m: Bytes, blocks: Blocks, p: nat, v: View, head: nat)
    requires PoolValid(m, blocks, p, v) && head < ADDRESS_SPACE
    ensures var m' := Poke(m, p, head);
            && Word(m', p) == head && Word(m', p + 8) == FirstNode(v.arrays) && Word(m', p + 16) == v.chunk
            && NodesWired(m', v.arrays)
            && FreeWired(m', v.free)
  {
    var m' := Poke(m, p, head);
    PokeEffect(m, p, head);
    assert SameOutside(m, m', p, POINTER_SIZE);
    forall i | 0 <= i < |v.arrays| ensures Apart(p, POINTER_SIZE, v.arrays[i].node, NODE_SIZE) {
      NodeApartHeader(blocks, p, v, i);
    }
    NodesFrame(m, m', p, POINTER_SIZE, v.arrays);
    forall i | 0 <= i < |v.free| ensures Apart(p, POINTER_SIZE, v.free[i], POINTER_SIZE) {
      ChunkApartHeader(blocks, p, v, v.free[i]);
    }
    FreeFrame(m, m', p, POINTER_SIZE, v.free);
  }

  function Popped(v: View): View
    requires v.free != []
  {
    v.(free := v.free[1..])
  }

  function Pushed(v: View, c: nat): View {
    v.(free := [c] + v.free)
  }

  /** Taking the head off the free list. */
  lemma AllocKeeps(m: Bytes, blocks: Blocks, p: nat, v: View)
    requires PoolValid(m, blocks, p, v) && v.free != []
    ensures Word(m, v.free[0]) < ADDRESS_SPACE
    ensures PoolValid(Poke(m, p, Word(m, v.free[0])), blocks, p, Popped(v))
  {
    if |v.free| > 1 {
      var _ := ChunkInBlock(blocks, p, v, v.free[1]);
    }
    HeadStoreKeeps(m, blocks, p, v, Word(m, v.free[0]));
    FreeWiredTail(Poke(m, p, Word(m, v.free[0])), v.free);
    PoppedSound(v);
  }

  lemma FreeWiredTail(m: Bytes, free: seq<nat>)
    requires FreeWired(m, free) && free != []
    ensures FreeWired(m, free[1..])
  {
    var f := free[1..];
    forall i | 0 <= i < |f| ensures Word(m, f[i]) == NextFree(f, i) {
      assert f[i] == free[i + 1];
    }
  }

  lemma PoppedSound(v: View)
    requires FreeSound(v) && v.free != []
    ensures FreeSound(Popped(v))
  {
  }

  lemma PushedSound(v: View, c: nat)
    requires FreeSound(v) && c in Outstanding(v)
    ensures FreeSound(Pushed(v, c))
  {
  }

  /** Putting a chunk a user held in front of the free list. */
  lemma FreeKeeps(m: Bytes, blocks: Blocks, p: nat, v: View, c: nat)
    requires PoolValid(m, blocks, p, v) && c in Outstanding(v)
    ensures FirstFree(v.free) < ADDRESS_SPACE && c < ADDRESS_SPACE
    ensures PoolValid(Poke(Poke(m, c, FirstFree(v.free)), p, c), blocks, p, Pushed(v, c))
  {
    var head := FirstFree(v.free);
    var _ := ChunkInBlock(blocks, p, v, c);
    if v.free != [] {
      var _ := ChunkInBlock(blocks, p, v, v.free[0]);
    }
    var m1 := Poke(m, c, head);
    ChunkStore(m, blocks, p, v, c, head);
    HeadStoreKeeps(m1, blocks, p, v, c);
    assert Word(Poke(m1, p, c), c) == head by {
      ChunkApartHeader(blocks, p, v, c);
      PokeEffect(m1, p, c);
    }
    FreeWiredCons(Poke(m1, p, c), c, v.free);
    PushedSound(v, c);
  }

  /** The pointer written into a chunk being freed. */
  lemma ChunkStore(m: Bytes, blocks: Blocks, p: nat, v: View, c: nat, head: nat)
    requires PoolValid(m, blocks, p, v) && c in Outstanding(v) && head < ADDRESS_SPACE
    ensures PoolValid(Poke(m, c, head), blocks, p, v) && Word(Poke(m, c, head), c) == head
  {
    PokeEffect(m, c, head);
    ChunkWriteKeepsPool(m, Poke(m, c, head), blocks, p, v, c);
  }

  lemma FreeWiredCons(m: Bytes, c: nat, free: seq<nat>)
    requires FreeWired(m, free) && Word(m, c) == FirstFree(free)
    ensures FreeWired(m, [c] + free)
  {
    var f := [c] + free;
    forall i | 0 <= i < |f| ensures Word(m, f[i]) == NextFree(f, i) {
      if i > 0 {
        assert f[i] == free[i - 1];
      }
    }
  }

  /** The free list through a freshly linked array: each chunk points to the next, the last one
      to `tail`. */
  ghost predicate Linked(m: Bytes, base: nat, chunk: nat, count: nat, tail: nat) {
    forall i: nat | i < count :: LinkedAt(m, base, chunk, count, tail, i)
  }

  ghost predicate LinkedAt(m: Bytes, base: nat, chunk: nat, count: nat, tail: nat, i: nat) {
    Word(m, At(base, chunk, i)) == if i + 1 < count then At(base, chunk, i + 1) else tail
  }

  lemma LinkedFrame(m: Bytes, m': Bytes, a: nat, n: nat, base: nat, chunk: nat, count: nat, tail: nat)
    requires chunk >= POINTER_SIZE
    requires SameOutside(m, m', a, n) && Linked(m, base, chunk, count, tail)
    requires Apart(a, n, base, Span(count, chunk))
    ensures Linked(m', base, chunk, count, tail)
  {
    forall i: nat | i < count ensures LinkedAt(m', base, chunk, count, tail, i) {
      assert LinkedAt(m, base, chunk, count, tail, i);
      AtStep(base, chunk, i, count);
      ProductNonNegative(i, chunk);
      WordOutside(m, m', a, n, At(base, chunk, i));
    }
  }

  lemma LinkedIsFree(m: Bytes, base: nat, chunk: nat, count: nat, free: seq<nat>)
    requires count > 0 && Linked(m, base, chunk, count, FirstFree(free)) && FreeWired(m, free)
    ensures FreeWired(m, ChunkList(base, chunk, count) + free)
  {
    var f := ChunkList(base, chunk, count) + free;
    forall i | 0 <= i < |f| ensures Word(m, f[i]) == NextFree(f, i) {
      if i < count {
        assert LinkedAt(m, base, chunk, count, FirstFree(free), i);
        assert f[i] == At(base, chunk, i);
        assert i + 1 < count ==> f[i + 1] == At(base, chunk, i + 1);
        assert i + 1 == count && free != [] ==> f[i + 1] == free[0];
      } else {
        assert f[i] == free[i - count];
        assert Word(m, free[i - count]) == NextFree(free, i - count);
        assert i + 1 < |f| ==> f[i + 1] == free[i + 1 - count];
      }
    }
  }

  function Grown(v: View, a: Array): View {
    View(ChunkList(a.base, v.chunk, a.count) + v.free, [a] + v.arrays, v.chunk)
  }

  lemma GrownSound(blocks: Blocks, p: nat, v: View, a: Array)
    requires FreeSound(v) && v.chunk > 0
    requires BlocksValid(blocks) && Owns(blocks, p, Grown(v, a))
    ensures FreeSound(Grown(v, a))
  {
    var g := Grown(v, a);
    var l := ChunkList(a.base, v.chunk, a.count);
    assert g.arrays[1..] == v.arrays;
    assert ArrayChunks(a, v.chunk) <= Chunks(g.arrays, v.chunk);
    forall i, j | 0 <= i < j < |g.free| ensures g.free[i] != g.free[j] {
      if j < a.count {
        AtStep(a.base, v.chunk, i, j);
      } else if i < a.count {
        assert g.free[i] in ArrayChunks(a, v.chunk);
        ArraysDisjoint(blocks, p, g, g.free[i]);
        assert g.free[j] == v.free[j - a.count];
      } else {
        assert g.free[i] == v.free[i - a.count] && g.free[j] == v.free[j - a.count];
      }
    }
    forall i | 0 <= i < |g.free| ensures g.free[i] in Chunks(g.arrays, v.chunk) {
      if i < a.count {
        assert l[i] in ArrayChunks(a, v.chunk);
      } else {
        assert g.free[i] == v.free[i - a.count];
      }
    }
  }

  /** The first array shares no chunk with the others. */
  lemma ArraysDisjoint(blocks: Blocks, p: nat, v: View, c: nat)
    requires BlocksValid(blocks) && Owns(blocks, p, v) && v.arrays != [] && v.chunk > 0
    requires c in ArrayChunks(v.arrays[0], v.chunk)
    ensures c !in Chunks(v.arrays[1..], v.chunk)
  {
    if c in Chunks(v.arrays[1..], v.chunk) {
      var i := WhichArray(v.arrays[1..], v.chunk, c);
      assert ArraysDiffer(v.arrays[0], v.arrays[i + 1]);
      assert ArrayOwned(blocks, p, v.arrays[0], v.chunk);
      assert ArrayOwned(blocks, p, v.arrays[i + 1], v.chunk);
      var _ := InArray(v.arrays[0], v.chunk, c);
      var _ := InArray(v.arrays[i + 1], v.chunk, c);
    }
  }

  /** The blocks of the pool after a node and an array were added. */
  lemma GrownOwns(blocks: Blocks, p: nat, v: View, a: Array)
    requires BlocksValid(blocks) && Owns(blocks, p, v) && a.count > 0
    requires Fits(blocks, a.node, NODE_SIZE)
    requires Fits(blocks[a.node := NODE_SIZE], a.base, Span(a.count, v.chunk))
    ensures var blocks' := blocks[a.node := NODE_SIZE][a.base := Span(a.count, v.chunk)];
            BlocksValid(blocks') && Owns(blocks', p, Grown(v, a))
  {
    var blocks' := blocks[a.node := NODE_SIZE][a.base := Span(a.count, v.chunk)];
    FitsKeepsValid(blocks, a.node, NODE_SIZE);
    FitsKeepsValid(blocks[a.node := NODE_SIZE], a.base, Span(a.count, v.chunk));
    GrownOwnsBlocks(blocks, blocks', p, v, a);
  }

  lemma GrownOwnsBlocks(blocks: Blocks, blocks': Blocks, p: nat, v: View, a: Array)
    requires Owns(blocks, p, v) && a.count > 0
    requires a.node !in blocks && a.base !in blocks && a.node != a.base
    requires blocks' == blocks[a.node := NODE_SIZE][a.base := Span(a.count, v.chunk)]
    ensures Owns(blocks', p, Grown(v, a))
  {
    var g := Grown(v, a);
    forall i | 0 <= i < |g.arrays| ensures ArrayOwned(blocks', p, g.arrays[i], v.chunk) {
      if i > 0 {
        assert ArrayOwned(blocks, p, v.arrays[i - 1], v.chunk);
      }
    }
    forall i, j | 0 <= i < j < |g.arrays| ensures ArraysDiffer(g.arrays[i], g.arrays[j]) {
      assert ArrayOwned(blocks, p, v.arrays[j - 1], v.chunk);
      if i > 0 {
        assert ArraysDiffer(v.arrays[i - 1], v.arrays[j - 1]);
      }
    }
  }

  /** A cell that no list of the pool, and no chunk of the array being added, runs through. */
  ghost predicate Clear(c: nat, v: View, a: Array) {
    && (forall i | 0 <= i < |v.arrays| :: Apart(c, POINTER_SIZE, v.arrays[i].node, NODE_SIZE))
    && (forall i | 0 <= i < |v.free| :: Apart(c, POINTER_SIZE, v.free[i], POINTER_SIZE))
    && Apart(c, POINTER_SIZE, a.base, Span(a.count, v.chunk))
  }

  /** The lists while an array is being added. */
  ghost predicate ListsWired(m: Bytes, v: View, a: Array) {
    && NodesWired(m, v.arrays)
    && FreeWired(m, v.free)
    && Linked(m, a.base, v.chunk, a.count, FirstFree(v.free))
  }

  lemma ClearStoreKeeps(m: Bytes, c: nat, w: nat, v: View, a: Array)
    requires ListsWired(m, v, a) && Clear(c, v, a) && v.chunk >= POINTER_SIZE
    ensures ListsWired(Poke(m, c, w), v, a)
  {
    var m' := Poke(m, c, w);
    assert SameOutside(m, m', c, POINTER_SIZE);
    NodesFrame(m, m', c, POINTER_SIZE, v.arrays);
    FreeFrame(m, m', c, POINTER_SIZE, v.free);
    LinkedFrame(m, m', c, POINTER_SIZE, a.base, v.chunk, a.count, FirstFree(v.free));
  }

  lemma FreeInGrown(v: View, a: Array, i: nat)
    requires FreeSound(v) && i < |v.free|
    ensures v.free[i] in Chunks(Grown(v, a).arrays, v.chunk)
  {
    assert Grown(v, a).arrays[1..] == v.arrays;
  }

  lemma HeaderClear(blocks: Blocks, p: nat, v: View, a: Array, c: nat)
    requires BlocksValid(blocks) && Owns(blocks, p, Grown(v, a)) && FreeSound(v)
    requires v.chunk >= POINTER_SIZE && p <= c && c + POINTER_SIZE <= p + POOL_SIZE
    ensures Clear(c, v, a)
  {
    var g := Grown(v, a);
    forall i | 0 <= i < |v.arrays| ensures Apart(c, POINTER_SIZE, v.arrays[i].node, NODE_SIZE) {
      NodeApartHeader(blocks, p, g, i + 1);
    }
    forall i | 0 <= i < |v.free| ensures Apart(c, POINTER_SIZE, v.free[i], POINTER_SIZE) {
      FreeInGrown(v, a, i);
      ChunkApartHeader(blocks, p, g, v.free[i]);
    }
    assert ArrayOwned(blocks, p, g.arrays[0], v.chunk);
  }

  lemma NodeClear(blocks: Blocks, p: nat, v: View, a: Array, c: nat)
    requires BlocksValid(blocks) && Owns(blocks, p, Grown(v, a)) && FreeSound(v)
    requires v.chunk >= POINTER_SIZE && a.node <= c && c + POINTER_SIZE <= a.node + NODE_SIZE
    ensures Clear(c, v, a) && Apart(c, POINTER_SIZE, p, POOL_SIZE)
  {
    var g := Grown(v, a);
    forall i | 0 <= i < |v.arrays| ensures Apart(c, POINTER_SIZE, v.arrays[i].node, NODE_SIZE) {
      assert ArraysDiffer(g.arrays[0], g.arrays[i + 1]);
      assert ArrayOwned(blocks, p, g.arrays[0], v.chunk);
      assert ArrayOwned(blocks, p, g.arrays[i + 1], v.chunk);
    }
    forall i | 0 <= i < |v.free| ensures Apart(c, POINTER_SIZE, v.free[i], POINTER_SIZE) {
      FreeInGrown(v, a, i);
      ChunkApartNode(blocks, p, g, v.free[i], 0);
    }
    assert ArrayOwned(blocks, p, g.arrays[0], v.chunk);
  }

  /** All the pieces of a pool with one more array in front. */
  lemma Assembled(m: Bytes, blocks: Blocks, p: nat, v: View, a: Array)
    requires BlocksValid(blocks) && Owns(blocks, p, Grown(v, a)) && FreeSound(v)
    requires v.chunk >= POINTER_SIZE && v.chunk % POINTER_SIZE == 0 && v.chunk < ADDRESS_SPACE
    requires ListsWired(m, v, a) && HeaderWired(m, p, Grown(v, a)) && a.count > 0
    requires Word(m, a.node) == FirstNode(v.arrays) && Word(m, a.node + 8) == a.base
    ensures PoolValid(m, blocks, p, Grown(v, a))
  {
    NodesWiredCons(m, a, v.arrays);
    LinkedIsFree(m, a.base, v.chunk, a.count, v.free);
    GrownSound(blocks, p, v, a);
  }

  lemma NodesWiredCons(m: Bytes, a: Array, arrays: seq<Array>)
    requires NodesWired(m, arrays)
    requires Word(m, a.node) == FirstNode(arrays) && Word(m, a.node + 8) == a.base
    ensures NodesWired(m, [a] + arrays)
  {
    var g := [a] + arrays;
    forall i | 0 <= i < |g|
      ensures Word(m, g[i].node) == NextNode(g, i) && Word(m, g[i].node + 8) == g[i].base
    {
      if i > 0 {
        assert g[i] == arrays[i - 1];
      }
    }
  }

  // ---------------------------------------------------------------------------------------
  // Conservation

  lemma {:induction false} MembersCount(s: seq<nat>)
    requires forall i, j | 0 <= i < j < |s| :: s[i] != s[j]
    ensures |Members(s)| == |s|
  {
    if s != [] {
      MembersCount(s[1..]);
      assert Members(s) == {s[0]} + Members(s[1..]);
    }
  }

  lemma ArrayCount(a: Array, chunk: nat)
    requires chunk > 0
    ensures |ArrayChunks(a, chunk)| == a.count
  {
    var l := ChunkList(a.base, chunk, a.count);
    forall i, j | 0 <= i < j < |l| ensures l[i] != l[j] {
      AtStep(a.base, chunk, i, j);
    }
    MembersCount(l);
    assert ArrayChunks(a, chunk) == Members(l);
  }

  lemma {:induction false} ChunkCount(blocks: Blocks, p: nat, v: View)
    requires BlocksValid(blocks) && Owns(blocks, p, v) && v.chunk > 0
    ensures |Chunks(v.arrays, v.chunk)| == Total(v.arrays)
    decreases |v.arrays|
  {
    if v.arrays != [] {
      var rest := v.(arrays := v.arrays[1..]);
      assert Owns(blocks, p, rest) by {
        forall i | 0 <= i < |rest.arrays| ensures ArrayOwned(blocks, p, rest.arrays[i], v.chunk) {
          assert ArrayOwned(blocks, p, v.arrays[i + 1], v.chunk);
        }
        forall i, j | 0 <= i < j < |rest.arrays| ensures ArraysDiffer(rest.arrays[i], rest.arrays[j]) {
          assert ArraysDiffer(v.arrays[i + 1], v.arrays[j + 1]);
        }
      }
      ChunkCount(blocks, p, rest);
      ArrayCount(v.arrays[0], v.chunk);
      var first := ArrayChunks(v.arrays[0], v.chunk);
      forall c | c in first ensures c !in Chunks(rest.arrays, v.chunk) {
        ArraysDisjoint(blocks, p, v, c);
      }
      assert first !! Chunks(rest.arrays, v.chunk);
    }
  }

  /** Free and outstanding chunks partition the chunks of all arrays. */
  lemma Conservation(m: Bytes, blocks: Blocks, p: nat, v: View)
    requires PoolValid(m, blocks, p, v)
    ensures Members(v.free) !! Outstanding(v)
    ensures Members(v.free) + Outstanding(v) == Chunks(v.arrays, v.chunk)
    ensures |v.free| + |Outstanding(v)| == Total(v.arrays)
  {
    assert Members(v.free) <= Chunks(v.arrays, v.chunk);
    assert Members(v.free) + Outstanding(v) == Chunks(v.arrays, v.chunk);
    MembersCount(v.free);
    ChunkCount(blocks, p, v);
  }

  lemma {:induction false} BelowCount(s: set<nat>, n: nat)
    requires forall x | x in s :: x < n
    ensures |s| <= n
    decreases n
  {
    if n > 0 {
      var t := s - {n - 1};
      BelowCount(t, n - 1);
      if n - 1 in s {
        assert s == t + {n - 1};
      } else {
        assert s == t;
      }
    } else {
      assert s == {};
    }
  }

  /** The chunk counters of the pool and its clients fit a machine word. */
  lemma TotalFits(m: Bytes, blocks: Blocks, p: nat, v: View)
    requires PoolValid(m, blocks, p, v)
    ensures Total(v.arrays) <= ADDRESS_SPACE - v.chunk
  {
    ChunkCount(blocks, p, v);
    var s := Chunks(v.arrays, v.chunk);
    forall c | c in s ensures c < ADDRESS_SPACE - v.chunk + 1 {
      var _ := ChunkInBlock(blocks, p, v, c);
    }
    forall c | c in s ensures c != 0 {
      var _ := ChunkInBlock(blocks, p, v, c);
    }
    BelowCount(s + {0}, ADDRESS_SPACE - v.chunk + 1);
    assert |s + {0}| == |s| + 1;
  }

  lemma PoppedOutstanding(v: View)
    requires FreeSound(v) && v.free != []
    ensures Outstanding(Popped(v)) == Outstanding(v) + {v.free[0]}
    ensures v.free[0] !in Outstanding(v)
  {
    var f := v.free;
    forall c ensures c in f[1..] <==> c in f && c != f[0] {
      if c in f && c != f[0] {
        var i :| 0 <= i < |f| && f[i] == c;
        assert f[1..][i - 1] == c;
      }
    }
  }

  /** Nothing is free exactly when everything is out; otherwise the head of the list goes out. */
  lemma AllocAccounting(m: Bytes, blocks: Blocks, p: nat, v: View)
    requires PoolValid(m, blocks, p, v)
    ensures v.free == [] <==> |Outstanding(v)| == Total(v.arrays)
    ensures v.free != [] ==>
              v.free[0] !in Outstanding(v) && Outstanding(Popped(v)) == Outstanding(v) + {v.free[0]}
  {
    Conservation(m, blocks, p, v);
    if v.free != [] {
      PoppedOutstanding(v);
    }
  }

  lemma PushedOutstanding(v: View, c: nat)
    requires c in Outstanding(v)
    ensures Outstanding(Pushed(v, c)) == Outstanding(v) - {c}
  {
  }

  lemma GrownOutstanding(blocks: Blocks, p: nat, v: View, a: Array)
    requires FreeSound(v) && v.chunk > 0
    requires BlocksValid(blocks) && Owns(blocks, p, Grown(v, a))
    ensures Outstanding(Grown(v, a)) == Outstanding(v)
    ensures Total(Grown(v, a).arrays) == Total(v.arrays) + a.count
  {
    var g := Grown(v, a);
    assert g.arrays[1..] == v.arrays;
    forall c | c in ArrayChunks(a, v.chunk) ensures c !in Chunks(v.arrays, v.chunk) {
      ArraysDisjoint(blocks, p, g, c);
    }
    assert Members(g.free) == ArrayChunks(a, v.chunk) + Members(v.free);
  }
}
