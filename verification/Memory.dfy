/** A byte-addressed memory of a 64-bit little-endian machine, and the external allocator
    (`malloc` and `free`) the pool gets its arrays from. */
module Memory {

  type byte = x: int | 0 <= x < 256
  type Bytes = map<nat, byte>

  const POINTER_SIZE: nat := 8
  const ADDRESS_SPACE: nat := 0x1_0000_0000_0000_0000

  /** Memory that was never written holds some value; 0 stands for it. */
  function ByteAt(m: Bytes, a: nat): byte {
    if a in m then m[a] else 0
  }

  function Load(m: Bytes, a: nat, n: nat): (s: seq<byte>)
    ensures |s| == n
  {
    seq<byte>(n, i requires 0 <= i < n => ByteAt(m, a + i))
  }

  function Store(m: Bytes, a: nat, data: seq<byte>): (r: Bytes)
    ensures forall b: nat :: ByteAt(r, b) == if a <= b < a + |data| then data[b - a] else ByteAt(m, b)
    decreases |data|, m
  {
    if data == [] then m
    else
      var n := |data| - 1;
      var r := Store(m, a, data[..n]);
      StoreLast(m, r, a, data);
      r[a + n := data[n]]
  }

  lemma StoreLast(m: Bytes, r: Bytes, a: nat, data: seq<byte>)
    requires data != []
    requires forall b: nat ::
               ByteAt(r, b) == if a <= b < a + |data| - 1 then data[..|data| - 1][b - a] else ByteAt(m, b)
    ensures var r' := r[a + |data| - 1 := data[|data| - 1]];
            forall b: nat :: ByteAt(r', b) == if a <= b < a + |data| then data[b - a] else ByteAt(m, b)
  {
    var r' := r[a + |data| - 1 := data[|data| - 1]];
    forall b: nat ensures ByteAt(r', b) == if a <= b < a + |data| then data[b - a] else ByteAt(m, b) {
      if b != a + |data| - 1 {
        assert ByteAt(r', b) == ByteAt(r, b);
      }
    }
  }

  /** Little-endian encoding in n bytes. */
  function Encode(v: nat, n: nat): (s: seq<byte>)
    ensures |s| == n
    decreases n, v
  {
    if n == 0 then [] else [v % 256] + Encode(v / 256, n - 1)
  }

  function Decode(s: seq<byte>): nat {
    if s == [] then 0 else s[0] + 256 * Decode(s[1..])
  }

  function Limit(n: nat): nat {
    if n == 0 then 1 else 256 * Limit(n - 1)
  }

  lemma {:induction false} DecodeEncode(v: nat, n: nat)
    requires v < Limit(n)
    ensures Decode(Encode(v, n)) == v
    decreases n
  {
    if n > 0 {
      DecodeEncode(v / 256, n - 1);
      assert Encode(v, n)[1..] == Encode(v / 256, n - 1);
    }
  }

  /** The pointer-sized value stored at a. */
  function Word(m: Bytes, a: nat): nat {
    Decode(Load(m, a, POINTER_SIZE))
  }

  function Poke(m: Bytes, a: nat, v: nat): Bytes {
    Store(m, a, Encode(v, POINTER_SIZE))
  }

  /** Two byte ranges that do not overlap. */
  predicate Apart(a: nat, n: nat, b: nat, k: nat) {
    a + n <= b || b + k <= a
  }

  lemma WordFrame(m: Bytes, m': Bytes, b: nat)
    requires forall x | b <= x < b + POINTER_SIZE :: ByteAt(m', x) == ByteAt(m, x)
    ensures Word(m', b) == Word(m, b)
  {
    assert Load(m', b, POINTER_SIZE) == Load(m, b, POINTER_SIZE);
  }

  lemma StoreFrame(m: Bytes, a: nat, data: seq<byte>)
    ensures forall b: nat {:trigger Word(Store(m, a, data), b)} ::
              Apart(a, |data|, b, POINTER_SIZE) ==> Word(Store(m, a, data), b) == Word(m, b)
  {
    forall b: nat | Apart(a, |data|, b, POINTER_SIZE)
      ensures Word(Store(m, a, data), b) == Word(m, b)
    {
      WordFrame(m, Store(m, a, data), b);
    }
  }

  lemma WordPoked(m: Bytes, a: nat, v: nat)
    requires v < ADDRESS_SPACE
    ensures Word(Poke(m, a, v), a) == v
  {
    assert Load(Poke(m, a, v), a, POINTER_SIZE) == Encode(v, POINTER_SIZE);
    LimitOfPointer();
    DecodeEncode(v, POINTER_SIZE);
  }

  lemma LimitOfPointer()
    ensures Limit(POINTER_SIZE) == ADDRESS_SPACE
  {
    assert Limit(4) == 0x1_0000_0000;
  }

  /** What one pointer-sized store does to every pointer-sized cell that does not overlap it. */
  lemma PokeEffect(m: Bytes, a: nat, v: nat)
    requires v < ADDRESS_SPACE
    ensures Word(Poke(m, a, v), a) == v
    ensures forall b: nat {:trigger Word(Poke(m, a, v), b)} ::
              Apart(a, POINTER_SIZE, b, POINTER_SIZE) ==> Word(Poke(m, a, v), b) == Word(m, b)
  {
    WordPoked(m, a, v);
    StoreFrame(m, a, Encode(v, POINTER_SIZE));
  }

  // ---------------------------------------------------------------------------------------
  // The external allocator

  /** Live blocks: where they start and how many bytes they have. */
  type Blocks = map<nat, nat>

  ghost predicate BlocksValid(blocks: Blocks) {
    && (forall b | b in blocks :: b > 0 && b % POINTER_SIZE == 0 && b + blocks[b] <= ADDRESS_SPACE)
    && (forall b, c | b in blocks && c in blocks && b != c :: Apart(b, blocks[b], c, blocks[c]))
  }

  /** A place where a block of this size could go. */
  predicate Fits(blocks: Blocks, a: nat, size: nat) {
    && a > 0 && a % POINTER_SIZE == 0 && a + size <= ADDRESS_SPACE
    && a !in blocks
    && forall b | b in blocks :: Apart(a, size, b, blocks[b])
  }

  lemma FitsKeepsValid(blocks: Blocks, a: nat, size: nat)
    requires BlocksValid(blocks) && Fits(blocks, a, size)
    ensures BlocksValid(blocks[a := size])
  {
  }
}
