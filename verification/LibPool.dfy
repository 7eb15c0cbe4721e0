/** The operations of libpool on a byte-addressed memory. Every load and store names the live
    block it falls into, so no operation touches memory it does not own. A call of the external
    allocator takes the address it would like to return and fails unless a block fits there:
    quantifying over that choice covers every allocator and every pattern of failures. */
module LibPool {
  import opened Memory
  import opened PoolModel
  import RingIndex

  // ---------------------------------------------------------------------------------------
  // Alignment

  /** ALIGN2BOUNDARY(size, sizeof(void*)) in 64-bit arithmetic. */
  function Align(size: nat): nat {
    var x := (size + POINTER_SIZE - 1) % ADDRESS_SPACE;
    x - x % POINTER_SIZE
  }

  /** The aligned size is the least multiple of the pointer size that holds the request, exactly
      as long as the addition does not wrap. */
  lemma AlignIsLeast(size: nat)
    requires size < ADDRESS_SPACE
    ensures Align(size) >= size <==> size <= ADDRESS_SPACE - POINTER_SIZE
    ensures size <= ADDRESS_SPACE - POINTER_SIZE ==>
              && Align(size) % POINTER_SIZE == 0
              && Align(size) < size + POINTER_SIZE
              && (forall k: nat | k % POINTER_SIZE == 0 && k >= size :: Align(size) <= k)
    ensures Align(size) == 0 <==> size == 0 || size > ADDRESS_SPACE - POINTER_SIZE
  {
  }

  /** Bitwise and of the n low bits. */
  function BitAnd(x: nat, y: nat, n: nat): nat
    decreases n, x
  {
    if n == 0 then 0 else (x % 2) * (y % 2) + 2 * BitAnd(x / 2, y / 2, n - 1)
  }

  function PowerOfTwo(n: nat): nat
    decreases n, 0
  {
    if n == 0 then 1 else 2 * PowerOfTwo(n - 1)
  }

  lemma {:induction false} BitAndOnes(x: nat, n: nat)
    requires x < PowerOfTwo(n)
    ensures BitAnd(x, PowerOfTwo(n) - 1, n) == x
    decreases n
  {
    if n > 0 {
      BitAndOnes(x / 2, n - 1);
      assert (PowerOfTwo(n) - 1) % 2 == 1 && (PowerOfTwo(n) - 1) / 2 == PowerOfTwo(n - 1) - 1;
    }
  }

  /** A mask whose k low bits are clear and whose other bits are set rounds down. */
  lemma {:induction false} MaskRoundsDown(x: nat, k: nat, n: nat)
    requires k <= n && x < PowerOfTwo(n) && PowerOfTwo(k) <= PowerOfTwo(n)
    ensures PowerOfTwo(k) > 0
    ensures BitAnd(x, PowerOfTwo(n) - PowerOfTwo(k), n) == x - x % PowerOfTwo(k)
    decreases k
  {
    if k == 0 {
      BitAndOnes(x, n);
    } else {
      var p, q := PowerOfTwo(k - 1), PowerOfTwo(n - 1);
      MaskRoundsDown(x / 2, k - 1, n - 1);
      assert (2 * q - 2 * p) % 2 == 0 && (2 * q - 2 * p) / 2 == q - p;
      HalveRemainder(x, p);
    }
  }

  lemma HalveRemainder(x: nat, p: nat)
    requires p > 0
    ensures 2 * (x / 2 - (x / 2) % p) == x - x % (2 * p)
  {
    var h := x / 2;
    var r := 2 * (h % p) + x % 2;
    assert h == p * (h / p) + h % p;
    assert x == (h / p) * (2 * p) + r by {
      assert 2 * (p * (h / p)) == (h / p) * (2 * p);
    }
    RingIndex.DivModUnique(x, 2 * p, h / p, r);
  }

  /** The macro as written: add 7 in 64 bits, then clear the three low bits with the mask ~7. */
  lemma AlignIsMasking(size: nat)
    ensures Align(size) == BitAnd((size + POINTER_SIZE - 1) % ADDRESS_SPACE, ADDRESS_SPACE - POINTER_SIZE, 64)
  {
    PowersOfTwo();
    MaskRoundsDown((size + POINTER_SIZE - 1) % ADDRESS_SPACE, 3, 64);
  }

  lemma PowersOfTwo()
    ensures PowerOfTwo(3) == POINTER_SIZE && PowerOfTwo(64) == ADDRESS_SPACE
  {
    PowerSum(16, 16);
    PowerSum(32, 32);
    PowerSum(8, 8);
    PowerSum(4, 4);
    assert PowerOfTwo(3) == 8;
    assert PowerOfTwo(4) == 16;
  }

  lemma {:induction false} PowerSum(a: nat, b: nat)
    ensures PowerOfTwo(a + b) == PowerOfTwo(a) * PowerOfTwo(b)
    decreases a
  {
    if a > 0 {
      PowerSum(a - 1, b);
      assert PowerOfTwo(a + b) == 2 * (PowerOfTwo(a - 1) * PowerOfTwo(b));
    }
  }

  // ---------------------------------------------------------------------------------------
  // Cells

  /** The pointer-sized cell at a lies inside the live block b. */
  ghost predicate Cell(blocks: Blocks, b: nat, a: nat) {
    b in blocks && b <= a && a + POINTER_SIZE <= b + blocks[b]
  }

  /** The bytes of every block that was live before are what they were. */
  ghost predicate BlocksKept(m: Bytes, m': Bytes, blocks: Blocks) {
    forall b, x: nat | b in blocks && b <= x < b + blocks[b] :: ByteAt(m', x) == ByteAt(m, x)
  }

  /** Two addresses written, nothing else. */
  ghost predicate SameOutsideTwo(m: Bytes, m': Bytes, a: nat, n: nat, b: nat, k: nat) {
    forall x: nat :: (x < a || a + n <= x) && (x < b || b + k <= x) ==> ByteAt(m', x) == ByteAt(m, x)
  }

  ghost function Nodes(arrays: seq<Array>, k: nat): set<nat>
    requires k <= |arrays|
  {
    set i | 0 <= i < k :: arrays[i].node
  }

  ghost function Bases(arrays: seq<Array>, k: nat): set<nat>
    requires k <= |arrays|
  {
    set i | 0 <= i < k :: arrays[i].base
  }

  /** Every block a pool holds: its structure, its list nodes and its arrays. */
  ghost function OwnedBlocks(p: nat, v: View): set<nat> {
    {p} + Nodes(v.arrays, |v.arrays|) + Bases(v.arrays, |v.arrays|)
  }

  /** The links of the first i chunks are in place. */
  ghost predicate LinkedUpTo(m: Bytes, base: nat, chunk: nat, count: nat, tail: nat, i: nat) {
    forall j: nat | j < i :: LinkedAt(m, base, chunk, count, tail, j)
  }

  lemma LinkCell(base: nat, chunk: nat, i: nat, count: nat)
    requires chunk >= POINTER_SIZE && i < count
    ensures base <= At(base, chunk, i) && At(base, chunk, i) + POINTER_SIZE <= base + Span(count, chunk)
  {
    AtStep(base, chunk, i, count);
    ProductNonNegative(i, chunk);
  }

  lemma LinkStep(m: Bytes, base: nat, chunk: nat, count: nat, tail: nat, i: nat, w: nat)
    requires chunk >= POINTER_SIZE && i < count && w < ADDRESS_SPACE
    requires w == if i + 1 < count then At(base, chunk, i + 1) else tail
    requires LinkedUpTo(m, base, chunk, count, tail, i)
    ensures LinkedUpTo(Poke(m, At(base, chunk, i), w), base, chunk, count, tail, i + 1)
    ensures SameOutside(m, Poke(m, At(base, chunk, i), w), base, Span(count, chunk))
  {
    var m' := Poke(m, At(base, chunk, i), w);
    PokeEffect(m, At(base, chunk, i), w);
    forall j: nat | j < i + 1 ensures LinkedAt(m', base, chunk, count, tail, j) {
      if j < i {
        assert LinkedAt(m, base, chunk, count, tail, j);
        AtStep(base, chunk, j, i);
      }
    }
    LinkCell(base, chunk, i, count);
  }

  /** What the last four stores of `pool_new` make of the memory. */
  function NewHeader(m: Bytes, p: nat, node: nat, arr: nat, chunk: nat): Bytes {
    Poke(Poke(Poke(Poke(m, p, arr), node, 0), node + 8, arr), p + 16, chunk)
  }

  lemma NewHeaderWords(m: Bytes, p: nat, node: nat, arr: nat, chunk: nat)
    requires Apart(p, POOL_SIZE, node, NODE_SIZE) && arr < ADDRESS_SPACE && chunk < ADDRESS_SPACE
    ensures var m' := NewHeader(m, p, node, arr, chunk);
            && Word(m', p) == arr && Word(m', p + 8) == Word(m, p + 8) && Word(m', p + 16) == chunk
            && Word(m', node) == 0 && Word(m', node + 8) == arr
            && SameOutsideTwo(m, m', p, POOL_SIZE, node, NODE_SIZE)
  {
    var m1 := Poke(m, p, arr);
    var m2 := Poke(m1, node, 0);
    var m3 := Poke(m2, node + 8, arr);
    PokeEffect(m, p, arr);
    PokeEffect(m1, node, 0);
    PokeEffect(m2, node + 8, arr);
    PokeEffect(m3, p + 16, chunk);
  }

  /** A store into the structure or into the new node leaves the lists alone. */
  lemma OwnStoreLists(m: Bytes, blocks: Blocks, p: nat, v: View, a: Array, c: nat, w: nat)
    requires BlocksValid(blocks) && Owns(blocks, p, Grown(v, a)) && FreeSound(v)
    requires v.chunk >= POINTER_SIZE && ListsWired(m, v, a)
    requires (p <= c && c + POINTER_SIZE <= p + POOL_SIZE) || (a.node <= c && c + POINTER_SIZE <= a.node + NODE_SIZE)
    ensures ListsWired(Poke(m, c, w), v, a)
  {
    assert Clear(c, v, a) by {
      if p <= c && c + POINTER_SIZE <= p + POOL_SIZE {
        HeaderClear(blocks, p, v, a, c);
      } else {
        NodeClear(blocks, p, v, a, c);
      }
    }
    ClearStoreKeeps(m, c, w, v, a);
  }

  lemma NewHeaderLists(m: Bytes, blocks: Blocks, p: nat, v: View, a: Array)
    requires BlocksValid(blocks) && Owns(blocks, p, Grown(v, a)) && FreeSound(v)
    requires v.chunk >= POINTER_SIZE && ListsWired(m, v, a)
    ensures ListsWired(NewHeader(m, p, a.node, a.base, v.chunk), v, a)
  {
    var m1 := Poke(m, p, a.base);
    OwnStoreLists(m, blocks, p, v, a, p, a.base);
    var m2 := Poke(m1, a.node, 0);
    OwnStoreLists(m1, blocks, p, v, a, a.node, 0);
    var m3 := Poke(m2, a.node + 8, a.base);
    OwnStoreLists(m2, blocks, p, v, a, a.node + 8, a.base);
    OwnStoreLists(m3, blocks, p, v, a, p + 16, v.chunk);
  }

  lemma NewCells(blocks: Blocks, p: nat, node: nat, arr: nat, count: nat, chunk: nat)
    requires BlocksValid(blocks) && chunk > 0 && count > 0
    requires Owns(blocks, p, Grown(View([], [], chunk), Array(node, arr, count)))
    ensures Cell(blocks, p, p) && Cell(blocks, p, p + 16) && Cell(blocks, node, node) && Cell(blocks, node, node + 8)
    ensures Apart(p, POOL_SIZE, node, NODE_SIZE) && arr < ADDRESS_SPACE && node < ADDRESS_SPACE
  {
    var g := Grown(View([], [], chunk), Array(node, arr, count));
    assert ArrayOwned(blocks, p, g.arrays[0], chunk);
    AtStep(arr, chunk, 0, count);
  }

  lemma NewHeaderValid(m: Bytes, blocks: Blocks, p: nat, node: nat, arr: nat, count: nat, chunk: nat)
    requires var v, a := View([], [], chunk), Array(node, arr, count);
             BlocksValid(blocks) && Owns(blocks, p, Grown(v, a)) && ListsWired(m, v, a)
    requires chunk >= POINTER_SIZE && chunk % POINTER_SIZE == 0 && chunk < ADDRESS_SPACE && count > 0
    requires Word(m, p + 8) == node
    ensures var m' := NewHeader(m, p, node, arr, chunk);
            && PoolValid(m', blocks, p, Grown(View([], [], chunk), Array(node, arr, count)))
            && SameOutsideTwo(m, m', p, POOL_SIZE, node, NODE_SIZE)
  {
    var v, a := View([], [], chunk), Array(node, arr, count);
    NewCells(blocks, p, node, arr, count, chunk);
    NewHeaderWords(m, p, node, arr, chunk);
    NewHeaderLists(m, blocks, p, v, a);
    assert ChunkList(arr, chunk, count)[0] == arr;
    Assembled(NewHeader(m, p, node, arr, chunk), blocks, p, v, a);
  }

  /** The blocks behind a pool that was just acquired. */
  lemma NewOwns(blocks: Blocks, p: nat, node: nat, arr: nat, count: nat, chunk: nat)
    requires BlocksValid(blocks) && count > 0
    requires Fits(blocks, p, POOL_SIZE) && Fits(blocks[p := POOL_SIZE], node, NODE_SIZE)
    requires Fits(blocks[p := POOL_SIZE][node := NODE_SIZE], arr, Span(count, chunk))
    ensures var blocks' := blocks[p := POOL_SIZE][node := NODE_SIZE][arr := Span(count, chunk)];
            var g := Grown(View([], [], chunk), Array(node, arr, count));
            && BlocksValid(blocks') && Owns(blocks', p, g)
            && OwnedBlocks(p, g) == {p, node, arr}
  {
    var v, a := View([], [], chunk), Array(node, arr, count);
    GrownOwns(blocks[p := POOL_SIZE], p, v, a);
    var g := Grown(v, a);
    assert g.arrays == [a];
    assert Nodes(g.arrays, 1) == {node} && Bases(g.arrays, 1) == {arr} by {
      assert g.arrays[0] == a;
    }
  }

  lemma Restored(blocks: Blocks, b: nat, size: nat)
    requires b !in blocks
    ensures blocks[b := size] - {b} == blocks
  {
  }

  /** A store into a block that was not live before. */
  lemma FreshStoreKept(m: Bytes, blocks: Blocks, b: nat, size: nat, a: nat, w: nat)
    requires Fits(blocks, b, size) && b <= a && a + POINTER_SIZE <= b + size
    ensures BlocksKept(m, Poke(m, a, w), blocks)
  {
  }

  /** Memory that changed only in three blocks that were not live before. */
  lemma NewBlocksKept(blocks: Blocks, p: nat, node: nat, arr: nat, size: nat,
                      m0: Bytes, m1: Bytes, m2: Bytes, m3: Bytes)
    requires Fits(blocks, p, POOL_SIZE) && Fits(blocks[p := POOL_SIZE], node, NODE_SIZE)
    requires Fits(blocks[p := POOL_SIZE][node := NODE_SIZE], arr, size)
    requires BlocksKept(m0, m1, blocks) && SameOutside(m1, m2, arr, size)
    requires SameOutsideTwo(m2, m3, p, POOL_SIZE, node, NODE_SIZE)
    ensures BlocksKept(m0, m3, blocks)
  {
    var b1 := blocks[p := POOL_SIZE];
    var b2 := b1[node := NODE_SIZE];
    forall b, x: nat | b in blocks && b <= x < b + blocks[b] ensures ByteAt(m3, x) == ByteAt(m0, x) {
      assert b in b1 && b in b2 && b1[b] == blocks[b] && b2[b] == blocks[b];
    }
  }

  lemma NewApart(blocks: Blocks, p: nat, node: nat, arr: nat, size: nat)
    requires Fits(blocks[p := POOL_SIZE][node := NODE_SIZE], arr, size) && p != node
    ensures Apart(arr, size, p + 8, POINTER_SIZE)
  {
    var b := blocks[p := POOL_SIZE][node := NODE_SIZE];
    assert p in b && b[p] == POOL_SIZE;
  }

  /** The external allocator grants the two requests of `pool_expand`. */
  predicate Grants(blocks: Blocks, choices: (nat, nat), size: nat) {
    && Fits(blocks, choices.0, NODE_SIZE)
    && Fits(blocks[choices.0 := NODE_SIZE], choices.1, size)
  }

  /** The live blocks after it did. */
  function MoreBlocks(blocks: Blocks, choices: (nat, nat), size: nat): Blocks {
    blocks[choices.0 := NODE_SIZE][choices.1 := size]
  }

  function NewBlocks(blocks: Blocks, choices: (nat, nat, nat), size: nat): Blocks {
    MoreBlocks(blocks[choices.0 := POOL_SIZE], (choices.1, choices.2), size)
  }

  /** The external allocator grants the three requests of `pool_new`. */
  predicate GrantsNew(blocks: Blocks, choices: (nat, nat, nat), size: nat) {
    && Fits(blocks, choices.0, POOL_SIZE)
    && Grants(blocks[choices.0 := POOL_SIZE], (choices.1, choices.2), size)
  }

  /** `blocks'` is `blocks` and the new ones, nothing else. */
  ghost predicate Added(blocks: Blocks, blocks': Blocks, more: set<nat>) {
    && more !! blocks.Keys
    && blocks'.Keys == blocks.Keys + more
    && forall b | b in blocks :: blocks'[b] == blocks[b]
  }

  /** The bytes of every block that was live before are what they were, but for [a, a + n). */
  ghost predicate KeptBut(m: Bytes, m': Bytes, blocks: Blocks, a: nat, n: nat) {
    forall b, x: nat | b in blocks && b <= x < b + blocks[b] && (x < a || a + n <= x) ::
      ByteAt(m', x) == ByteAt(m, x)
  }

  lemma KeptTwice(m: Bytes, m1: Bytes, m2: Bytes, blocks: Blocks)
    requires BlocksKept(m, m1, blocks) && BlocksKept(m1, m2, blocks)
    ensures BlocksKept(m, m2, blocks)
  {
  }

  /** One array of that many chunks, all of them free and in address order. */
  ghost predicate IsNew(v: View, count: nat, chunk: nat) {
    && v.chunk == chunk
    && |v.arrays| == 1 && v.arrays[0].count == count
    && v.free == ChunkList(v.arrays[0].base, chunk, count)
    && Outstanding(v) == {} && Total(v.arrays) == count
  }

  lemma NewFacts(before: Blocks, blocks: Blocks, p: nat, node: nat, arr: nat, count: nat, chunk: nat)
    requires BlocksValid(before) && count > 0
    requires Fits(before, p, POOL_SIZE) && Fits(before[p := POOL_SIZE], node, NODE_SIZE)
    requires Fits(before[p := POOL_SIZE][node := NODE_SIZE], arr, Span(count, chunk))
    requires blocks == before[p := POOL_SIZE][node := NODE_SIZE][arr := Span(count, chunk)]
    ensures var g := Grown(View([], [], chunk), Array(node, arr, count));
            && IsNew(g, count, chunk) && Added(before, blocks, OwnedBlocks(p, g))
            && OwnedBlocks(p, g) == {p, node, arr}
  {
    var a := Array(node, arr, count);
    var g := Grown(View([], [], chunk), a);
    NewOwns(before, p, node, arr, count, chunk);
    assert g.arrays == [a] && g.free == ChunkList(arr, chunk, count);
    assert g.arrays[1..] == [];
    assert Chunks(g.arrays, chunk) == ArrayChunks(a, chunk);
  }

  // ---------------------------------------------------------------------------------------
  // Growing

  function MoreHeader(m: Bytes, p: nat, node: nat, arr: nat, first: nat): Bytes {
    Poke(Poke(Poke(Poke(m, p, arr), node + 8, arr), node, first), p + 8, node)
  }

  lemma MoreHeaderWords(m: Bytes, p: nat, node: nat, arr: nat, first: nat)
    requires Apart(p, POOL_SIZE, node, NODE_SIZE)
    requires arr < ADDRESS_SPACE && node < ADDRESS_SPACE && first < ADDRESS_SPACE
    ensures var m' := MoreHeader(m, p, node, arr, first);
            && Word(m', p) == arr && Word(m', p + 8) == node && Word(m', p + 16) == Word(m, p + 16)
            && Word(m', node) == first && Word(m', node + 8) == arr
            && SameOutsideTwo(m, m', p, 2 * POINTER_SIZE, node, NODE_SIZE)
    ensures Word(Poke(Poke(m, p, arr), node + 8, arr), p + 8) == Word(m, p + 8)
  {
    var m1 := Poke(m, p, arr);
    var m2 := Poke(m1, node + 8, arr);
    var m3 := Poke(m2, node, first);
    PokeEffect(m, p, arr);
    PokeEffect(m1, node + 8, arr);
    PokeEffect(m2, node, first);
    PokeEffect(m3, p + 8, node);
  }

  lemma MoreHeaderLists(m: Bytes, blocks: Blocks, p: nat, v: View, a: Array, first: nat)
    requires BlocksValid(blocks) && Owns(blocks, p, Grown(v, a)) && FreeSound(v)
    requires v.chunk >= POINTER_SIZE && ListsWired(m, v, a)
    ensures ListsWired(MoreHeader(m, p, a.node, a.base, first), v, a)
  {
    var m1 := Poke(m, p, a.base);
    OwnStoreLists(m, blocks, p, v, a, p, a.base);
    var m2 := Poke(m1, a.node + 8, a.base);
    OwnStoreLists(m1, blocks, p, v, a, a.node + 8, a.base);
    var m3 := Poke(m2, a.node, first);
    OwnStoreLists(m2, blocks, p, v, a, a.node, first);
    OwnStoreLists(m3, blocks, p, v, a, p + 8, a.node);
  }

  lemma MoreCells(blocks: Blocks, p: nat, v: View, a: Array)
    requires BlocksValid(blocks) && v.chunk > 0 && a.count > 0 && Owns(blocks, p, Grown(v, a))
    ensures Cell(blocks, p, p) && Cell(blocks, p, p + 8) && Cell(blocks, p, p + 16)
    ensures Cell(blocks, a.node, a.node) && Cell(blocks, a.node, a.node + 8)
    ensures Apart(p, POOL_SIZE, a.node, NODE_SIZE) && a.base < ADDRESS_SPACE && a.node < ADDRESS_SPACE
    ensures Apart(a.base, Span(a.count, v.chunk), p, POOL_SIZE)
    ensures a.base in blocks && blocks[a.base] == Span(a.count, v.chunk)
    ensures a.base + Span(a.count, v.chunk) <= ADDRESS_SPACE
  {
    assert ArrayOwned(blocks, p, Grown(v, a).arrays[0], v.chunk);
    AtStep(a.base, v.chunk, 0, a.count);
  }

  lemma HeadBound(m: Bytes, blocks: Blocks, p: nat, v: View)
    requires PoolValid(m, blocks, p, v)
    ensures FirstFree(v.free) < ADDRESS_SPACE && FirstNode(v.arrays) < ADDRESS_SPACE
  {
    if v.free != [] {
      var _ := ChunkInBlock(blocks, p, v, v.free[0]);
    }
    if v.arrays != [] {
      assert ArrayOwned(blocks, p, v.arrays[0], v.chunk);
    }
  }

  /** A block that fits beside the pool's blocks touches none of them. */
  lemma FitsBesideBlock(before: Blocks, node: nat, arr: nat, n: nat, b: nat)
    requires Fits(before[node := NODE_SIZE], arr, n) && b in before && b != node
    ensures Apart(arr, n, b, before[b])
  {
    var b1 := before[node := NODE_SIZE];
    assert b in b1 && b1[b] == before[b];
  }

  lemma FitsBesideNodes(before: Blocks, p: nat, v: View, node: nat, arr: nat, n: nat)
    requires Owns(before, p, v) && node !in before && Fits(before[node := NODE_SIZE], arr, n)
    ensures forall i | 0 <= i < |v.arrays| :: Apart(arr, n, v.arrays[i].node, NODE_SIZE)
  {
    forall i | 0 <= i < |v.arrays| ensures Apart(arr, n, v.arrays[i].node, NODE_SIZE) {
      assert ArrayOwned(before, p, v.arrays[i], v.chunk);
      FitsBesideBlock(before, node, arr, n, v.arrays[i].node);
    }
  }

  lemma FitsBesideChunk(before: Blocks, p: nat, v: View, node: nat, arr: nat, n: nat, c: nat)
    requires BlocksValid(before) && Owns(before, p, v) && c in Chunks(v.arrays, v.chunk)
    requires node !in before && Fits(before[node := NODE_SIZE], arr, n) && v.chunk >= POINTER_SIZE
    ensures Apart(arr, n, c, POINTER_SIZE)
  {
    var k := ChunkInBlock(before, p, v, c);
    assert ArrayOwned(before, p, v.arrays[k], v.chunk);
    FitsBesideBlock(before, node, arr, n, v.arrays[k].base);
  }

  /** Linking the new array leaves the structure and the lists of the pool alone. */
  lemma LinkKeepsLists(m: Bytes, m': Bytes, before: Blocks, p: nat, v: View, node: nat, arr: nat, n: nat)
    requires PoolValid(m, before, p, v) && node !in before && Fits(before[node := NODE_SIZE], arr, n)
    requires SameOutside(m, m', arr, n)
    ensures HeaderWired(m', p, v) && NodesWired(m', v.arrays) && FreeWired(m', v.free)
  {
    FitsBesideBlock(before, node, arr, n, p);
    HeaderFrame(m, m', arr, n, p, v);
    FitsBesideNodes(before, p, v, node, arr, n);
    NodesFrame(m, m', arr, n, v.arrays);
    forall i | 0 <= i < |v.free| ensures Apart(arr, n, v.free[i], POINTER_SIZE) {
      FitsBesideChunk(before, p, v, node, arr, n, v.free[i]);
    }
    FreeFrame(m, m', arr, n, v.free);
  }

  lemma GrownHeads(v: View, a: Array)
    requires a.count > 0
    ensures FirstFree(Grown(v, a).free) == a.base && FirstNode(Grown(v, a).arrays) == a.node
  {
    assert (ChunkList(a.base, v.chunk, a.count) + v.free)[0] == At(a.base, v.chunk, 0);
  }

  lemma MoreValid(m: Bytes, blocks: Blocks, p: nat, v: View, a: Array)
    requires BlocksValid(blocks) && Owns(blocks, p, Grown(v, a)) && FreeSound(v) && a.count > 0
    requires v.chunk >= POINTER_SIZE && v.chunk % POINTER_SIZE == 0 && v.chunk < ADDRESS_SPACE
    requires ListsWired(m, v, a) && HeaderWired(m, p, v) && FirstNode(v.arrays) < ADDRESS_SPACE
    ensures var m' := MoreHeader(m, p, a.node, a.base, FirstNode(v.arrays));
            && PoolValid(m', blocks, p, Grown(v, a))
            && SameOutsideTwo(m, m', p, 2 * POINTER_SIZE, a.node, NODE_SIZE)
    ensures Word(Poke(Poke(m, p, a.base), a.node + 8, a.base), p + 8) == FirstNode(v.arrays)
  {
    var first := FirstNode(v.arrays);
    MoreCells(blocks, p, v, a);
    MoreHeaderWords(m, p, a.node, a.base, first);
    MoreHeaderLists(m, blocks, p, v, a, first);
    GrownHeads(v, a);
    Assembled(MoreHeader(m, p, a.node, a.base, first), blocks, p, v, a);
  }

  lemma MoreKept(m: Bytes, m1: Bytes, m2: Bytes, blocks: Blocks, p: nat, node: nat, arr: nat, size: nat)
    requires Fits(blocks, node, NODE_SIZE) && Fits(blocks[node := NODE_SIZE], arr, size)
    requires SameOutside(m, m1, arr, size)
    requires SameOutsideTwo(m1, m2, p, 2 * POINTER_SIZE, node, NODE_SIZE)
    ensures KeptBut(m, m2, blocks, p, 2 * POINTER_SIZE)
  {
    var b1 := blocks[node := NODE_SIZE];
    forall b, x: nat | b in blocks && b <= x < b + blocks[b] && (x < p || p + 2 * POINTER_SIZE <= x)
      ensures ByteAt(m2, x) == ByteAt(m, x)
    {
      assert b in b1 && b1[b] == blocks[b];
    }
  }

  /** One more array of that many free chunks, in front; nothing that was outstanding changed. */
  ghost predicate IsGrown(v: View, v': View, extra: nat) {
    && |v'.arrays| > 0 && v' == Grown(v, v'.arrays[0]) && v'.arrays[0].count == extra
    && Outstanding(v') == Outstanding(v)
    && Total(v'.arrays) == Total(v.arrays) + extra
  }

  /** What a successful expansion does: the pool is valid with the extra array, the first two
      fields of its structure changed, and apart from the two new blocks nothing else did. */
  ghost predicate Expanded(m: Bytes, blocks: Blocks, m': Bytes, blocks': Blocks,
                           p: nat, v: View, v': View, extra: nat)
  {
    && PoolValid(m', blocks', p, v')
    && IsGrown(v, v', extra)
    && KeptBut(m, m', blocks, p, 2 * POINTER_SIZE)
    && Added(blocks, blocks', OwnedBlocks(p, v') - OwnedBlocks(p, v))
  }

  lemma GrownFacts(before: Blocks, blocks: Blocks, p: nat, v: View, a: Array)
    requires Owns(before, p, v) && FreeSound(v) && v.chunk > 0
    requires Fits(before, a.node, NODE_SIZE) && Fits(before[a.node := NODE_SIZE], a.base, Span(a.count, v.chunk))
    requires blocks == before[a.node := NODE_SIZE][a.base := Span(a.count, v.chunk)]
    requires BlocksValid(blocks) && Owns(blocks, p, Grown(v, a))
    ensures IsGrown(v, Grown(v, a), a.count)
    ensures Added(before, blocks, OwnedBlocks(p, Grown(v, a)) - OwnedBlocks(p, v))
  {
    GrownOutstanding(blocks, p, v, a);
    assert Added(before, blocks, OwnedBlocks(p, Grown(v, a)) - OwnedBlocks(p, v)) by {
      GrownOwned(before, p, v, a);
      assert OwnedBlocks(p, Grown(v, a)) - OwnedBlocks(p, v) == {a.node, a.base};
      AddedTwo(before, a.node, NODE_SIZE, a.base, Span(a.count, v.chunk));
    }
  }

  lemma AddedTwo(before: Blocks, x: nat, m: nat, y: nat, n: nat)
    requires x !in before && y !in before
    ensures Added(before, before[x := m][y := n], {x, y})
  {
  }

  lemma GrownOwned(blocks: Blocks, p: nat, v: View, a: Array)
    requires Owns(blocks, p, v)
    requires Fits(blocks, a.node, NODE_SIZE) && Fits(blocks[a.node := NODE_SIZE], a.base, Span(a.count, v.chunk))
    ensures OwnedBlocks(p, v) <= blocks.Keys
    ensures OwnedBlocks(p, Grown(v, a)) == OwnedBlocks(p, v) + {a.node, a.base}
  {
    var g := Grown(v, a);
    forall i | 0 <= i < |v.arrays| ensures v.arrays[i].node in blocks && v.arrays[i].base in blocks {
      assert ArrayOwned(blocks, p, v.arrays[i], v.chunk);
    }
    assert g.arrays[0] == a;
    forall x | x in Nodes(v.arrays, |v.arrays|) ensures x in Nodes(g.arrays, |g.arrays|) {
      var i :| 0 <= i < |v.arrays| && v.arrays[i].node == x;
      assert g.arrays[i + 1] == v.arrays[i];
    }
    forall x | x in Bases(v.arrays, |v.arrays|) ensures x in Bases(g.arrays, |g.arrays|) {
      var i :| 0 <= i < |v.arrays| && v.arrays[i].base == x;
      assert g.arrays[i + 1] == v.arrays[i];
    }
  }

  // ---------------------------------------------------------------------------------------
  // Destroying

  /** The blocks left after the first k arrays were released. */
  ghost function Left(all: Blocks, arrays: seq<Array>, k: nat): Blocks
    requires k <= |arrays|
  {
    all - (Nodes(arrays, k) + Bases(arrays, k))
  }

  lemma LeftHasPool(all: Blocks, p: nat, v: View, k: nat)
    requires Owns(all, p, v) && k <= |v.arrays|
    ensures p in Left(all, v.arrays, k)
  {
    forall i | 0 <= i < k ensures v.arrays[i].node != p && v.arrays[i].base != p {
      assert ArrayOwned(all, p, v.arrays[i], v.chunk);
    }
  }

  lemma LeftLive(all: Blocks, p: nat, v: View, k: nat)
    requires BlocksValid(all) && Owns(all, p, v) && k < |v.arrays|
    ensures var a, left := v.arrays[k], Left(all, v.arrays, k);
            && a.base in left && a.node in left - {a.base} && a.node > 0
            && Cell(left, a.node, a.node) && Cell(left, a.node, a.node + 8)
  {
    assert ArrayOwned(all, p, v.arrays[k], v.chunk);
    forall i | 0 <= i < k ensures ArraysDiffer(v.arrays[i], v.arrays[k]) {
    }
  }

  lemma LeftStep(all: Blocks, arrays: seq<Array>, k: nat)
    requires k < |arrays|
    ensures (Left(all, arrays, k) - {arrays[k].base}) - {arrays[k].node} == Left(all, arrays, k + 1)
  {
    assert Nodes(arrays, k + 1) == Nodes(arrays, k) + {arrays[k].node};
    assert Bases(arrays, k + 1) == Bases(arrays, k) + {arrays[k].base};
  }

  lemma NodesPositive(blocks: Blocks, p: nat, v: View)
    requires BlocksValid(blocks) && Owns(blocks, p, v)
    ensures forall i | 0 <= i < |v.arrays| :: v.arrays[i].node > 0
  {
    forall i | 0 <= i < |v.arrays| ensures v.arrays[i].node > 0 {
      assert ArrayOwned(blocks, p, v.arrays[i], v.chunk);
    }
  }

  lemma LeftEnds(all: Blocks, p: nat, v: View)
    ensures Left(all, v.arrays, 0) == all
    ensures Left(all, v.arrays, |v.arrays|) - {p} == all - OwnedBlocks(p, v)
  {
  }

  // ---------------------------------------------------------------------------------------
  // Independence

  lemma KeptWord(m: Bytes, m': Bytes, b: nat, size: nat, a: nat)
    requires forall x: nat | b <= x < b + size :: ByteAt(m', x) == ByteAt(m, x)
    requires b <= a && a + POINTER_SIZE <= b + size
    ensures Word(m', a) == Word(m, a)
  {
    WordFrame(m, m', a);
  }

  /** A block with its size and its bytes. */
  ghost predicate SameBlock(m: Bytes, blocks: Blocks, m': Bytes, blocks': Blocks, b: nat) {
    && b in blocks && b in blocks' && blocks'[b] == blocks[b]
    && forall x: nat | b <= x < b + blocks[b] :: ByteAt(m', x) == ByteAt(m, x)
  }

  /** The pool's blocks are where they were, as they were. */
  ghost predicate SameBlocks(m: Bytes, blocks: Blocks, m': Bytes, blocks': Blocks, p: nat, v: View) {
    forall b | b in OwnedBlocks(p, v) :: SameBlock(m, blocks, m', blocks', b)
  }

  lemma ArrayIndependent(m: Bytes, blocks: Blocks, m': Bytes, blocks': Blocks, p: nat, v: View, i: nat)
    requires Owns(blocks, p, v) && SameBlocks(m, blocks, m', blocks', p, v) && i < |v.arrays|
    ensures ArrayOwned(blocks', p, v.arrays[i], v.chunk)
    ensures Word(m', v.arrays[i].node) == Word(m, v.arrays[i].node)
    ensures Word(m', v.arrays[i].node + 8) == Word(m, v.arrays[i].node + 8)
  {
    var a := v.arrays[i];
    assert ArrayOwned(blocks, p, a, v.chunk);
    assert a.node in Nodes(v.arrays, |v.arrays|) && a.base in Bases(v.arrays, |v.arrays|);
    assert SameBlock(m, blocks, m', blocks', a.node) && SameBlock(m, blocks, m', blocks', a.base);
    KeptWord(m, m', a.node, NODE_SIZE, a.node);
    KeptWord(m, m', a.node, NODE_SIZE, a.node + 8);
  }

  lemma HeaderIndependent(m: Bytes, blocks: Blocks, m': Bytes, blocks': Blocks, p: nat, v: View)
    requires Owns(blocks, p, v) && HeaderWired(m, p, v) && SameBlocks(m, blocks, m', blocks', p, v)
    ensures HeaderWired(m', p, v) && p in blocks' && blocks'[p] == POOL_SIZE
  {
    assert SameBlock(m, blocks, m', blocks', p);
    KeptWord(m, m', p, POOL_SIZE, p);
    KeptWord(m, m', p, POOL_SIZE, p + 8);
    KeptWord(m, m', p, POOL_SIZE, p + 16);
  }

  lemma NodesIndependent(m: Bytes, blocks: Blocks, m': Bytes, blocks': Blocks, p: nat, v: View)
    requires Owns(blocks, p, v) && NodesWired(m, v.arrays) && SameBlocks(m, blocks, m', blocks', p, v)
    requires p in blocks' && blocks'[p] == POOL_SIZE
    ensures NodesWired(m', v.arrays) && Owns(blocks', p, v)
  {
    forall i | 0 <= i < |v.arrays|
      ensures ArrayOwned(blocks', p, v.arrays[i], v.chunk)
      ensures Word(m', v.arrays[i].node) == NextNode(v.arrays, i)
      ensures Word(m', v.arrays[i].node + 8) == v.arrays[i].base
    {
      ArrayIndependent(m, blocks, m', blocks', p, v, i);
    }
  }

  /** A pool depends on its own blocks only: whatever else happens in memory, other pools and
      other users of the allocator included, it stays the pool it was. */
  lemma PoolIndependent(m: Bytes, blocks: Blocks, m': Bytes, blocks': Blocks, p: nat, v: View)
    requires PoolValid(m, blocks, p, v) && BlocksValid(blocks')
    requires SameBlocks(m, blocks, m', blocks', p, v)
    ensures PoolValid(m', blocks', p, v)
  {
    HeaderIndependent(m, blocks, m', blocks', p, v);
    NodesIndependent(m, blocks, m', blocks', p, v);
    FreeIndependent(m, blocks, m', blocks', p, v);
  }

  lemma FreeIndependent(m: Bytes, blocks: Blocks, m': Bytes, blocks': Blocks, p: nat, v: View)
    requires PoolValid(m, blocks, p, v) && SameBlocks(m, blocks, m', blocks', p, v)
    ensures FreeWired(m', v.free)
  {
    forall i | 0 <= i < |v.free| ensures Word(m', v.free[i]) == Word(m, v.free[i]) {
      var k := ChunkInBlock(blocks, p, v, v.free[i]);
      var b := v.arrays[k].base;
      assert b in Bases(v.arrays, |v.arrays|);
      assert SameBlock(m, blocks, m', blocks', b);
      KeptWord(m, m', b, blocks[b], v.free[i]);
    }
  }

  class Allocator {
    var bytes: Bytes
    var blocks: Blocks

    constructor ()
      ensures bytes == map[] && blocks == map[]
    {
      bytes, blocks := map[], map[];
    }

    method ExtAlloc(size: nat, choice: nat) returns (a: nat)
      modifies this`blocks
      ensures a == 0 <==> !Fits(old(blocks), choice, size)
      ensures a == 0 ==> blocks == old(blocks)
      ensures a != 0 ==> a == choice && blocks == old(blocks)[a := size]
    {
      if Fits(blocks, choice, size) {
        blocks := blocks[choice := size];
        return choice;
      }
      return 0;
    }

    /** Releasing a block that is not live is an error, so nothing is released twice. */
    method ExtFree(a: nat)
      requires a in blocks
      modifies this`blocks
      ensures blocks == old(blocks) - {a}
    {
      blocks := blocks - {a};
    }

    method LoadWord(a: nat, ghost b: nat) returns (w: nat)
      requires Cell(blocks, b, a)
      ensures w == Word(bytes, a)
    {
      w := Word(bytes, a);
    }

    method StoreWord(a: nat, w: nat, ghost b: nat)
      requires Cell(blocks, b, a) && w < ADDRESS_SPACE
      modifies this`bytes
      ensures bytes == Poke(old(bytes), a, w)
    {
      bytes := Poke(bytes, a, w);
    }

    // -------------------------------------------------------------------------------------

    method PoolAlloc(pool: nat, ghost v: View) returns (result: nat)
      requires pool != 0 ==> PoolValid(bytes, blocks, pool, v)
      modifies this`bytes
      ensures pool == 0 || v.free == [] ==> result == 0 && bytes == old(bytes)
      ensures pool != 0 && v.free != [] ==>
                && result == v.free[0] && result != 0
                && PoolValid(bytes, blocks, pool, Popped(v))
                && SameOutside(old(bytes), bytes, pool, POINTER_SIZE)
    {
      if pool == 0 {
        return 0;
      }
      var head := LoadWord(pool, pool);
      if v.free != [] {
        var _ := HeadCell(pool, v);
      }
      if head == 0 {
        return 0;
      }
      ghost var b := HeadCell(pool, v);
      AllocKeeps(bytes, blocks, pool, v);
      var next := LoadWord(head, b);
      StoreWord(pool, next, pool);
      return head;
    }

    /** The first free chunk is a cell of one of the pool's arrays. */
    lemma HeadCell(pool: nat, v: View) returns (b: nat)
      requires PoolValid(bytes, blocks, pool, v) && v.free != []
      ensures v.free[0] != 0 && Cell(blocks, b, v.free[0])
    {
      b := ChunkCell(pool, v, v.free[0]);
    }

    lemma ChunkCell(pool: nat, v: View, c: nat) returns (b: nat)
      requires PoolValid(bytes, blocks, pool, v) && c in Chunks(v.arrays, v.chunk)
      ensures c != 0 && Cell(blocks, b, c)
    {
      var i := ChunkInBlock(blocks, pool, v, c);
      assert ArrayOwned(blocks, pool, v.arrays[i], v.chunk);
      b := v.arrays[i].base;
    }

    method PoolFree(pool: nat, ptr: nat, ghost v: View)
      requires pool != 0 && ptr != 0 ==> PoolValid(bytes, blocks, pool, v) && ptr in Outstanding(v)
      modifies this`bytes
      ensures pool == 0 || ptr == 0 ==> bytes == old(bytes)
      ensures pool != 0 && ptr != 0 ==>
                && PoolValid(bytes, blocks, pool, Pushed(v, ptr))
                && SameOutsideTwo(old(bytes), bytes, pool, POINTER_SIZE, ptr, POINTER_SIZE)
    {
      if pool == 0 || ptr == 0 {
        return;
      }
      ghost var b := ChunkCell(pool, v, ptr);
      FreeKeeps(bytes, blocks, pool, v, ptr);
      var head := LoadWord(pool, pool);
      StoreWord(ptr, head, b);
      StoreWord(pool, ptr, pool);
    }

    method PoolAvailable(pool: nat, ghost v: View) returns (available: nat)
      requires pool != 0 ==> PoolValid(bytes, blocks, pool, v)
      ensures available == if pool == 0 then 0 else |v.free|
      ensures available < ADDRESS_SPACE
    {
      if pool == 0 {
        return 0;
      }
      available := 0;
      var cur := LoadWord(pool, pool);
      while cur != 0
        invariant available <= |v.free|
        invariant cur == if available < |v.free| then v.free[available] else 0
        invariant available < |v.free| ==> v.free[available] in Chunks(v.arrays, v.chunk)
        decreases |v.free| - available
      {
        ghost var b := ChunkCell(pool, v, cur);
        assert Word(bytes, v.free[available]) == NextFree(v.free, available);
        available := available + 1;
        cur := LoadWord(cur, b);
      }
      if available < |v.free| {
        var _ := ChunkCell(pool, v, v.free[available]);
      }
      Conservation(bytes, blocks, pool, v);
      TotalFits(bytes, blocks, pool, v);
    }

    // -------------------------------------------------------------------------------------

    /** The linking loop of `pool_new` and `pool_expand`. */
    method LinkArray(base: nat, count: nat, chunk: nat, tail: nat)
      requires base in blocks && blocks[base] == Span(count, chunk) && base + Span(count, chunk) <= ADDRESS_SPACE
      requires chunk >= POINTER_SIZE && count > 0 && tail < ADDRESS_SPACE
      modifies this`bytes
      ensures Linked(bytes, base, chunk, count, tail)
      ensures SameOutside(old(bytes), bytes, base, Span(count, chunk))
    {
      for i := 0 to count - 1
        invariant LinkedUpTo(bytes, base, chunk, count, tail, i)
        invariant SameOutside(old(bytes), bytes, base, Span(count, chunk))
      {
        var next := At(base, chunk, i + 1);
        LinkCell(base, chunk, i, count);
        LinkCell(base, chunk, i + 1, count);
        LinkStep(bytes, base, chunk, count, tail, i, next);
        StoreWord(At(base, chunk, i), next, base);
      }
      LinkCell(base, chunk, count - 1, count);
      LinkStep(bytes, base, chunk, count, tail, count - 1, tail);
      StoreWord(At(base, chunk, count - 1), tail, base);
    }

    /** The three requests of `pool_new`, with everything given back when one fails. */
    method AcquireNew(size: nat, choices: (nat, nat, nat)) returns (pool: nat, node: nat, arr: nat)
      requires BlocksValid(blocks)
      modifies this
      ensures BlocksKept(old(bytes), bytes, old(blocks))
      ensures pool != 0 <==> GrantsNew(old(blocks), choices, size)
      ensures pool == 0 ==> blocks == old(blocks)
      ensures pool != 0 ==>
                && Fits(old(blocks), pool, POOL_SIZE)
                && Fits(old(blocks)[pool := POOL_SIZE], node, NODE_SIZE)
                && Fits(old(blocks)[pool := POOL_SIZE][node := NODE_SIZE], arr, size)
                && blocks == old(blocks)[pool := POOL_SIZE][node := NODE_SIZE][arr := size]
                && Word(bytes, pool + 8) == node
                && (pool, node, arr) == choices
    {
      node, arr := 0, 0;
      pool := ExtAlloc(POOL_SIZE, choices.0);
      if pool == 0 {
        return;
      }
      node, arr := AcquireRest(pool, size, (choices.1, choices.2), old(blocks));
      if node == 0 {
        return 0, 0, 0;
      }
    }

    /** The list node, stored in the structure before it is checked, and the data array; or
        everything back. */
    method AcquireRest(pool: nat, size: nat, choices: (nat, nat), ghost before: Blocks)
      returns (node: nat, arr: nat)
      requires Fits(before, pool, POOL_SIZE) && blocks == before[pool := POOL_SIZE]
      modifies this
      ensures BlocksKept(old(bytes), bytes, before)
      ensures node != 0 <==> Grants(old(blocks), choices, size)
      ensures node == 0 ==> blocks == before
      ensures node != 0 ==>
                && Fits(old(blocks), node, NODE_SIZE)
                && Fits(old(blocks)[node := NODE_SIZE], arr, size)
                && blocks == old(blocks)[node := NODE_SIZE][arr := size]
                && Word(bytes, pool + 8) == node
                && (node, arr) == choices
    {
      arr := 0;
      node := ExtAlloc(NODE_SIZE, choices.0);
      PokeEffect(bytes, pool + 8, node);
      FreshStoreKept(bytes, before, pool, POOL_SIZE, pool + 8, node);
      StoreWord(pool + 8, node, pool);
      if node == 0 {
        ExtFree(pool);
        Restored(before, pool, POOL_SIZE);
        return;
      }
      arr := AcquireArray(pool, node, size, choices.1, before);
      if arr == 0 {
        node := 0;
      }
    }

    /** The data array, or everything back. */
    method AcquireArray(pool: nat, node: nat, size: nat, choice: nat, ghost before: Blocks) returns (arr: nat)
      requires pool !in before && node !in before[pool := POOL_SIZE]
      requires blocks == before[pool := POOL_SIZE][node := NODE_SIZE]
      modifies this`blocks
      ensures arr != 0 <==> Fits(old(blocks), choice, size)
      ensures arr == 0 ==> blocks == before
      ensures arr != 0 ==> arr == choice && blocks == old(blocks)[arr := size]
    {
      arr := ExtAlloc(size, choice);
      if arr == 0 {
        ExtFree(node);
        Restored(before[pool := POOL_SIZE], node, NODE_SIZE);
        ExtFree(pool);
        Restored(before, pool, POOL_SIZE);
      }
    }

    /** The last stores of `pool_new`. */
    method FillNew(pool: nat, node: nat, arr: nat, chunk: nat)
      requires Cell(blocks, pool, pool) && Cell(blocks, pool, pool + 16)
      requires Cell(blocks, node, node) && Cell(blocks, node, node + 8)
      requires arr < ADDRESS_SPACE && chunk < ADDRESS_SPACE
      modifies this`bytes
      ensures bytes == NewHeader(old(bytes), pool, node, arr, chunk)
    {
      StoreWord(pool, arr, pool);
      StoreWord(node, 0, node);
      StoreWord(node + 8, arr, node);
      StoreWord(pool + 16, chunk, pool);
    }

    /** Everything `pool_new` does once its three blocks are there. */
    method LinkNew(pool: nat, node: nat, arr: nat, count: nat, chunk: nat, ghost before: Blocks)
      requires BlocksValid(before) && count > 0
      requires Fits(before, pool, POOL_SIZE) && Fits(before[pool := POOL_SIZE], node, NODE_SIZE)
      requires Fits(before[pool := POOL_SIZE][node := NODE_SIZE], arr, Span(count, chunk))
      requires blocks == before[pool := POOL_SIZE][node := NODE_SIZE][arr := Span(count, chunk)]
      requires chunk >= POINTER_SIZE && Word(bytes, pool + 8) == node
      modifies this`bytes
      ensures BlocksValid(blocks) && Owns(blocks, pool, Grown(View([], [], chunk), Array(node, arr, count)))
      ensures ListsWired(bytes, View([], [], chunk), Array(node, arr, count))
      ensures Word(bytes, pool + 8) == node && SameOutside(old(bytes), bytes, arr, Span(count, chunk))
    {
      NewOwns(before, pool, node, arr, count, chunk);
      LinkArray(arr, count, chunk, 0);
      NewApart(before, pool, node, arr, Span(count, chunk));
      WordOutside(old(bytes), bytes, arr, Span(count, chunk), pool + 8);
    }

    method BuildNew(pool: nat, node: nat, arr: nat, count: nat, chunk: nat, ghost before: Blocks)
      requires BlocksValid(before) && count > 0
      requires Fits(before, pool, POOL_SIZE) && Fits(before[pool := POOL_SIZE], node, NODE_SIZE)
      requires Fits(before[pool := POOL_SIZE][node := NODE_SIZE], arr, Span(count, chunk))
      requires blocks == before[pool := POOL_SIZE][node := NODE_SIZE][arr := Span(count, chunk)]
      requires chunk >= POINTER_SIZE && chunk % POINTER_SIZE == 0 && chunk < ADDRESS_SPACE
      requires Word(bytes, pool + 8) == node
      modifies this`bytes
      ensures PoolValid(bytes, blocks, pool, Grown(View([], [], chunk), Array(node, arr, count)))
      ensures BlocksKept(old(bytes), bytes, before)
    {
      LinkNew(pool, node, arr, count, chunk, before);
      ghost var linked := bytes;
      NewCells(blocks, pool, node, arr, count, chunk);
      NewHeaderValid(bytes, blocks, pool, node, arr, count, chunk);
      FillNew(pool, node, arr, chunk);
      NewBlocksKept(before, pool, node, arr, Span(count, chunk), old(bytes), old(bytes), linked, bytes);
    }

    /** `v` describes the pool that is returned. The choices are the answers of the external
        allocator to the three requests. */
    method PoolNew(poolSz: nat, chunkSz: nat, choices: (nat, nat, nat)) returns (pool: nat, ghost v: View)
      requires BlocksValid(blocks)
      requires 0 < chunkSz <= ADDRESS_SPACE - POINTER_SIZE && Span(poolSz, Align(chunkSz)) < ADDRESS_SPACE
      modifies this
      ensures BlocksValid(blocks)
      ensures BlocksKept(old(bytes), bytes, old(blocks))
      ensures pool != 0 <==> poolSz > 0 && GrantsNew(old(blocks), choices, Span(poolSz, Align(chunkSz)))
      ensures pool == 0 ==> blocks == old(blocks)
      ensures pool != 0 ==>
                && PoolValid(bytes, blocks, pool, v)
                && IsNew(v, poolSz, Align(chunkSz))
                && Added(old(blocks), blocks, OwnedBlocks(pool, v))
                && blocks == NewBlocks(old(blocks), choices, Span(poolSz, Align(chunkSz)))
                && OwnedBlocks(pool, v) == {choices.0, choices.1, choices.2}
    {
      v := View([], [], 0);
      if poolSz == 0 {
        return 0, v;
      }
      AlignIsLeast(chunkSz);
      var chunk := Align(chunkSz);
      var node, arr;
      pool, node, arr := AcquireNew(Span(poolSz, chunk), choices);
      if pool == 0 {
        return;
      }
      ghost var acquired := bytes;
      BuildNew(pool, node, arr, poolSz, chunk, old(blocks));
      v := Grown(View([], [], chunk), Array(node, arr, poolSz));
      KeptTwice(old(bytes), acquired, bytes, old(blocks));
      NewFacts(old(blocks), blocks, pool, node, arr, poolSz, chunk);
    }

    // -------------------------------------------------------------------------------------

    /** The two requests of `pool_expand`, with the first given back when the second fails. */
    method AcquireMore(size: nat, choices: (nat, nat)) returns (node: nat, arr: nat)
      requires BlocksValid(blocks)
      modifies this`blocks
      ensures node != 0 <==> Grants(old(blocks), choices, size)
      ensures node == 0 ==> blocks == old(blocks)
      ensures node != 0 ==>
                && Fits(old(blocks), node, NODE_SIZE)
                && Fits(old(blocks)[node := NODE_SIZE], arr, size)
                && blocks == old(blocks)[node := NODE_SIZE][arr := size]
                && blocks == MoreBlocks(old(blocks), choices, size)
                && (node, arr) == choices
    {
      arr := 0;
      node := ExtAlloc(NODE_SIZE, choices.0);
      if node == 0 {
        return;
      }
      arr := ExtAlloc(size, choices.1);
      if arr == 0 {
        ExtFree(node);
        Restored(old(blocks), node, NODE_SIZE);
        return 0, 0;
      }
    }

    /** Linking the array `pool_expand` got. */
    method LinkMore(pool: nat, node: nat, arr: nat, count: nat, ghost v: View, ghost before: Blocks)
      requires PoolValid(bytes, before, pool, v) && count > 0 && node !in before
      requires Fits(before[node := NODE_SIZE], arr, Span(count, v.chunk))
      requires BlocksValid(blocks) && Owns(blocks, pool, Grown(v, Array(node, arr, count)))
      modifies this`bytes
      ensures HeaderWired(bytes, pool, v) && ListsWired(bytes, v, Array(node, arr, count))
      ensures SameOutside(old(bytes), bytes, arr, Span(count, v.chunk))
    {
      MoreCells(blocks, pool, v, Array(node, arr, count));
      HeadBound(bytes, before, pool, v);
      var chunk := LoadWord(pool + 16, pool);
      var head := LoadWord(pool, pool);
      LinkArray(arr, count, chunk, head);
      LinkKeepsLists(old(bytes), bytes, before, pool, v, node, arr, Span(count, v.chunk));
    }

    /** The last stores of `pool_expand`. */
    method FillMore(pool: nat, node: nat, arr: nat)
      requires Cell(blocks, pool, pool) && Cell(blocks, pool, pool + 8)
      requires Cell(blocks, node, node) && Cell(blocks, node, node + 8)
      requires Apart(pool, POOL_SIZE, node, NODE_SIZE)
      requires arr < ADDRESS_SPACE && node < ADDRESS_SPACE && Word(bytes, pool + 8) < ADDRESS_SPACE
      modifies this`bytes
      ensures bytes == MoreHeader(old(bytes), pool, node, arr, Word(old(bytes), pool + 8))
    {
      MoreHeaderWords(bytes, pool, node, arr, Word(bytes, pool + 8));
      StoreWord(pool, arr, pool);
      StoreWord(node + 8, arr, node);
      var first := LoadWord(pool + 8, pool);
      StoreWord(node, first, node);
      StoreWord(pool + 8, node, pool);
    }

    /** Everything `pool_expand` does once its two blocks are there. */
    method BuildMore(pool: nat, node: nat, arr: nat, count: nat, ghost v: View, ghost before: Blocks)
      requires PoolValid(bytes, before, pool, v) && count > 0
      requires Fits(before, node, NODE_SIZE) && Fits(before[node := NODE_SIZE], arr, Span(count, v.chunk))
      requires BlocksValid(blocks) && Owns(blocks, pool, Grown(v, Array(node, arr, count)))
      modifies this`bytes
      ensures PoolValid(bytes, blocks, pool, Grown(v, Array(node, arr, count)))
      ensures KeptBut(old(bytes), bytes, before, pool, 2 * POINTER_SIZE)
    {
      HeadBound(bytes, before, pool, v);
      LinkMore(pool, node, arr, count, v, before);
      ghost var linked := bytes;
      MoreCells(blocks, pool, v, Array(node, arr, count));
      MoreValid(bytes, blocks, pool, v, Array(node, arr, count));
      FillMore(pool, node, arr);
      MoreKept(old(bytes), linked, bytes, before, pool, node, arr, Span(count, v.chunk));
    }

    method ExpandLive(pool: nat, extraSz: nat, choices: (nat, nat), ghost v: View)
      returns (ok: bool, ghost v': View)
      requires PoolValid(bytes, blocks, pool, v) && extraSz > 0
      modifies this
      ensures ok <==> Grants(old(blocks), choices, Span(extraSz, v.chunk))
      ensures !ok ==> bytes == old(bytes) && blocks == old(blocks) && v' == v
      ensures ok ==> Expanded(old(bytes), old(blocks), bytes, blocks, pool, v, v', extraSz)
      ensures ok ==> blocks == MoreBlocks(old(blocks), choices, Span(extraSz, v.chunk))
      ensures ok ==> OwnedBlocks(pool, v') == OwnedBlocks(pool, v) + {choices.0, choices.1}
    {
      var chunk := LoadWord(pool + 16, pool);
      var node, arr := AcquireMore(Span(extraSz, chunk), choices);
      if node == 0 {
        return false, v;
      }
      GrownOwned(old(blocks), pool, v, Array(node, arr, extraSz));
      ExpandWith(pool, node, arr, extraSz, v, old(blocks));
      return true, Grown(v, Array(node, arr, extraSz));
    }

    /** Either the pool has the extra chunks, or nothing at all changed. */
    method PoolExpand(pool: nat, extraSz: nat, choices: (nat, nat), ghost v: View)
      returns (ok: bool, ghost v': View)
      requires pool != 0 ==> PoolValid(bytes, blocks, pool, v) && Span(extraSz, v.chunk) < ADDRESS_SPACE
      modifies this
      ensures !ok ==> bytes == old(bytes) && blocks == old(blocks) && v' == v
      ensures ok <==> pool != 0 && extraSz > 0 && Grants(old(blocks), choices, Span(extraSz, v.chunk))
      ensures ok ==> Expanded(old(bytes), old(blocks), bytes, blocks, pool, v, v', extraSz)
      ensures ok ==> blocks == MoreBlocks(old(blocks), choices, Span(extraSz, v.chunk))
      ensures ok ==> OwnedBlocks(pool, v') == OwnedBlocks(pool, v) + {choices.0, choices.1}
    {
      if pool == 0 || extraSz == 0 {
        return false, v;
      }
      ok, v' := ExpandLive(pool, extraSz, choices, v);
    }

    /** The success path of `pool_expand`. */
    method ExpandWith(pool: nat, node: nat, arr: nat, count: nat, ghost v: View, ghost before: Blocks)
      requires PoolValid(bytes, before, pool, v) && count > 0
      requires Fits(before, node, NODE_SIZE) && Fits(before[node := NODE_SIZE], arr, Span(count, v.chunk))
      requires blocks == before[node := NODE_SIZE][arr := Span(count, v.chunk)]
      modifies this`bytes
      ensures Expanded(old(bytes), before, bytes, blocks, pool, v, Grown(v, Array(node, arr, count)), count)
    {
      ghost var a := Array(node, arr, count);
      GrownOwns(before, pool, v, a);
      GrownFacts(before, blocks, pool, v, a);
      BuildMore(pool, node, arr, count, v, before);
    }

    // -------------------------------------------------------------------------------------

    /** One turn of the releasing loop of `pool_destroy`: the k-th array and its node go. */
    method ReleaseArray(cur: nat, ghost all: Blocks, ghost pool: nat, ghost v: View, ghost k: nat)
      returns (next: nat)
      requires BlocksValid(all) && Owns(all, pool, v) && NodesWired(bytes, v.arrays)
      requires k < |v.arrays| && cur == v.arrays[k].node && blocks == Left(all, v.arrays, k)
      modifies this`blocks
      ensures next == NextNode(v.arrays, k) && blocks == Left(all, v.arrays, k + 1)
    {
      LeftLive(all, pool, v, k);
      LeftStep(all, v.arrays, k);
      next := LoadWord(cur, cur);
      var arr := LoadWord(cur + 8, cur);
      assert arr == v.arrays[k].base;
      ExtFree(arr);
      ExtFree(cur);
    }

    /** The releasing loop of `pool_destroy`. */
    method DestroyArrays(first: nat, ghost pool: nat, ghost v: View)
      requires BlocksValid(blocks) && Owns(blocks, pool, v) && NodesWired(bytes, v.arrays)
      requires first == FirstNode(v.arrays)
      modifies this`blocks
      ensures blocks == Left(old(blocks), v.arrays, |v.arrays|) && pool in blocks
    {
      ghost var all := blocks;
      var cur := first;
      ghost var k := 0;
      LeftEnds(all, pool, v);
      NodesPositive(all, pool, v);
      while cur != 0
        invariant 0 <= k <= |v.arrays|
        invariant cur == if k < |v.arrays| then v.arrays[k].node else 0
        invariant blocks == Left(all, v.arrays, k)
        decreases |v.arrays| - k
      {
        cur := ReleaseArray(cur, all, pool, v, k);
        k := k + 1;
      }
      LeftHasPool(all, pool, v, k);
    }

    method DestroyLive(pool: nat, ghost v: View)
      requires BlocksValid(blocks) && Owns(blocks, pool, v) && NodesWired(bytes, v.arrays)
      requires Word(bytes, pool + 8) == FirstNode(v.arrays)
      modifies this`blocks
      ensures blocks == old(blocks) - OwnedBlocks(pool, v)
    {
      var first := LoadWord(pool + 8, pool);
      LeftEnds(old(blocks), pool, v);
      DestroyArrays(first, pool, v);
      ExtFree(pool);
    }

    /** Every block of the pool is released, each exactly once, and no other block. */
    method PoolDestroy(pool: nat, ghost v: View)
      requires pool != 0 ==> PoolValid(bytes, blocks, pool, v)
      modifies this`blocks
      ensures pool == 0 ==> blocks == old(blocks)
      ensures pool != 0 ==> blocks == old(blocks) - OwnedBlocks(pool, v)
    {
      if pool != 0 {
        DestroyLive(pool, v);
      }
    }
  }
}
