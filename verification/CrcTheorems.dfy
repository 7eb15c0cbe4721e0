/** What the checksum promises about whole messages. */
module CrcTheorems {
  import opened BitStrings
  import opened Crc32

  lemma DoubleComplement(w: Bits)
    requires |w| == 32
    ensures Xor(Xor(w, Ones(32)), Ones(32)) == w
  {
  }

  /** Continuing from the checksum of a gives the checksum of a followed by b. */
  lemma ChecksumConcat(a: seq<bv8>, b: seq<bv8>, initial: Bits)
    requires |initial| == 32
    ensures Checksum(b, Checksum(a, initial)) == Checksum(a + b, initial)
  {
    var start := Xor(initial, Ones(32));
    DoubleComplement(Feed(start, MessageBits(a)));
    MessageBitsConcat(a, b);
    FeedConcat(start, MessageBits(a), MessageBits(b));
  }

  /** The checksum is the complemented remainder of long division by the generator. */
  lemma ChecksumIsRemainder(data: seq<bv8>, initial: Bits)
    requires |initial| == 32
    ensures Checksum(data, initial)
         == Xor(Remainder(Dividend(Xor(initial, Ones(32)), MessageBits(data))), Ones(32))
  {
    FeedIsRemainder(Xor(initial, Ones(32)), MessageBits(data));
  }

  lemma ChecksumSame(a: seq<bv8>, b: seq<bv8>, initial: Bits)
    requires |initial| == 32
    ensures Checksum(a, initial) == Checksum(b, initial) <==>
              Feed(Xor(initial, Ones(32)), MessageBits(a)) == Feed(Xor(initial, Ones(32)), MessageBits(b))
  {
    var start := Xor(initial, Ones(32));
    DoubleComplement(Feed(start, MessageBits(a)));
    DoubleComplement(Feed(start, MessageBits(b)));
  }

  /** Two messages of one length collide exactly when the generator divides their difference
      times x^32; the initial value plays no part. */
  lemma CollisionIsDivisibility(a: seq<bv8>, b: seq<bv8>, initial: Bits)
    requires |initial| == 32 && |a| == |b|
    ensures Checksum(a, initial) == Checksum(b, initial) <==>
              Remainder(Xor(MessageBits(a), MessageBits(b)) + Zeros(32)) == Zeros(32)
  {
    var d := Xor(MessageBits(a), MessageBits(b));
    ChecksumSame(a, b, initial);
    CollisionExact(Xor(initial, Ones(32)), MessageBits(a), MessageBits(b));
    assert Dividend(Zeros(32), d) == d + Zeros(32);
  }

  lemma {:induction false} ByteBitsInjective(u: bv8, v: bv8)
    requires ByteBits(u) == ByteBits(v)
    ensures u == v
  {
    ToBitsByte(u);
    ToBitsByte(v);
    ToBitsInjective(u as bv32, v as bv32);
  }

  lemma {:induction false} MessageBitsInjective(a: seq<bv8>, b: seq<bv8>)
    requires |a| == |b| && MessageBits(a) == MessageBits(b)
    ensures a == b
    decreases |a|
  {
    if a != [] {
      var x, y := MessageBits(a), MessageBits(b);
      assert x[..8] == ByteBits(a[0]) && y[..8] == ByteBits(b[0]);
      assert x[8..] == MessageBits(a[1..]) && y[8..] == MessageBits(b[1..]);
      ByteBitsInjective(a[0], b[0]);
      MessageBitsInjective(a[1..], b[1..]);
    }
  }

  /** Any change confined to 32 consecutive bits, at any bit offset, changes the checksum. */
  lemma BitBurstDetected(a: seq<bv8>, b: seq<bv8>, initial: Bits, lo: nat, hi: nat)
    requires |initial| == 32 && |a| == |b| && a != b
    requires lo <= hi <= 8 * |a| && hi - lo <= 32
    requires MessageBits(a)[..lo] == MessageBits(b)[..lo]
    requires MessageBits(a)[hi..] == MessageBits(b)[hi..]
    ensures Checksum(a, initial) != Checksum(b, initial)
  {
    var x, y := MessageBits(a), MessageBits(b);
    var prefix, suffix := x[..lo], x[hi..];
    assert x == prefix + x[lo..hi] + suffix;
    assert y == prefix + y[lo..hi] + suffix;
    if x[lo..hi] == y[lo..hi] {
      MessageBitsInjective(a, b);
      assert false;
    }
    BurstDetected(Xor(initial, Ones(32)), prefix, x[lo..hi], y[lo..hi], suffix);
    ChecksumSame(a, b, initial);
  }

  /** In particular any change confined to four consecutive bytes. */
  lemma ByteBurstDetected(a: seq<bv8>, b: seq<bv8>, initial: Bits, k: nat, n: nat)
    requires |initial| == 32 && |a| == |b| && a != b
    requires n <= 4 && k + n <= |a|
    requires a[..k] == b[..k] && a[k + n..] == b[k + n..]
    ensures Checksum(a, initial) != Checksum(b, initial)
  {
    MessageBitsSplit(a, k);
    MessageBitsSplit(b, k);
    MessageBitsSplit(a, k + n);
    MessageBitsSplit(b, k + n);
    BitBurstDetected(a, b, initial, 8 * k, 8 * (k + n));
  }

  /** A message with the generator added to 33 of its bits is another message with the same
      checksum, at every bit offset: 32 is the exact bound. */
  lemma LongerBurstMissed(a: seq<bv8>, b: seq<bv8>, initial: Bits, lo: nat)
    requires |initial| == 32 && |a| == |b| && lo + 33 <= 8 * |a|
    requires MessageBits(b) == WithGenerator(MessageBits(a), lo)
    ensures a != b && Checksum(a, initial) == Checksum(b, initial)
  {
    var x := MessageBits(a);
    var prefix, u, suffix := x[..lo], x[lo..lo + 33], x[lo + 33..];
    assert x == prefix + u + suffix;
    GeneratorUnseen(Xor(initial, Ones(32)), prefix, u, suffix);
    ChecksumSame(a, b, initial);
    assert MessageBits(b)[lo] != x[lo];
  }

  function WithGenerator(x: Bits, lo: nat): (y: Bits)
    requires lo + 33 <= |x|
    ensures |y| == |x|
  {
    x[..lo] + Xor(x[lo..lo + 33], [true] + LowGenerator()) + x[lo + 33..]
  }

  /** Such a message exists next to every message of at least five bytes, at every offset. */
  lemma LongerBurstExists(a: seq<bv8>, initial: Bits, lo: nat) returns (b: seq<bv8>)
    requires |initial| == 32 && lo + 33 <= 8 * |a|
    ensures |b| == |a| && MessageBits(b) == WithGenerator(MessageBits(a), lo)
    ensures a != b && Checksum(a, initial) == Checksum(b, initial)
  {
    b := PackMessage(WithGenerator(MessageBits(a), lo), |a|);
    LongerBurstMissed(a, b, initial, lo);
  }

  function Double(x: bv32, b: bool): bv32 {
    (x << 1) | (if b then 1 else 0)
  }

  lemma DoubleBits(x: bv32, b: bool)
    requires x < 0x100
    ensures Double(x, b) & 1 == 1 <==> b
    ensures Double(x, b) >> 1 == x
  {
  }

  lemma DoubleBound(x: bv32, b: bool, t: bv32)
    requires x < t <= 0x80
    ensures Double(x, b) < t << 1
  {
  }

  function Two(n: nat): bv32 {
    if n == 0 then 1 else Two(n - 1) << 1
  }

  lemma TwoBound(n: nat)
    requires n <= 8
    ensures n < 8 ==> Two(n) <= 0x80
    ensures n == 8 ==> Two(n) == 0x100
  {
    assert Two(2) == 4;
    assert Two(4) == 0x10;
    assert Two(6) == 0x40;
    assert Two(8) == 0x100;
  }

  /** The number with the given bits, least significant first. */
  function Pack(bits: Bits): (x: bv32)
    requires |bits| <= 8
    ensures x < Two(|bits|)
  {
    if bits == [] then 0
    else
      var x := Pack(bits[1..]);
      TwoBound(|bits| - 1);
      DoubleBound(x, bits[0], Two(|bits| - 1));
      Double(x, bits[0])
  }

  lemma {:induction false} PackSpells(bits: Bits)
    requires |bits| <= 8
    ensures LowBits(Pack(bits), |bits|) == bits
  {
    if bits != [] {
      var x := Pack(bits[1..]);
      TwoBound(|bits| - 1);
      DoubleBits(x, bits[0]);
      PackSpells(bits[1..]);
    }
  }

  /** Every string of whole bytes is the bits of a message. */
  lemma {:induction false} PackMessage(bits: Bits, n: nat) returns (data: seq<bv8>)
    requires |bits| == 8 * n
    ensures |data| == n && MessageBits(data) == bits
    decreases n
  {
    data := [];
    if n > 0 {
      var first := bits[..8];
      TwoBound(8);
      PackSpells(first);
      var rest := PackMessage(bits[8..], n - 1);
      data := [Pack(first) as bv8] + rest;
      Narrowed(Pack(first));
      assert data[1..] == rest;
      assert bits == first + bits[8..];
    }
  }

  lemma Narrowed(x: bv32)
    requires x < 0x100
    ensures (x as bv8) as bv32 == x
  {
  }

  lemma MessageBitsSplit(data: seq<bv8>, k: nat)
    requires k <= |data|
    ensures MessageBits(data)[..8 * k] == MessageBits(data[..k])
    ensures MessageBits(data)[8 * k..] == MessageBits(data[k..])
  {
    assert data == data[..k] + data[k..];
    MessageBitsConcat(data[..k], data[k..]);
  }

  function XorBytes(a: seq<bv8>, b: seq<bv8>): (r: seq<bv8>)
    requires |a| == |b|
    ensures |r| == |a|
  {
    if a == [] then [] else [a[0] ^ b[0]] + XorBytes(a[1..], b[1..])
  }

  lemma XorWidens(u: bv8, v: bv8)
    ensures (u ^ v) as bv32 == (u as bv32) ^ (v as bv32)
  {
  }

  lemma ByteBitsXor(u: bv8, v: bv8)
    ensures ByteBits(u ^ v) == Xor(ByteBits(u), ByteBits(v))
  {
    ToBitsByte(u);
    ToBitsByte(v);
    ToBitsByte(u ^ v);
    XorWidens(u, v);
    ToBitsXor(u as bv32, v as bv32);
    PadXor(ByteBits(u), ByteBits(v), ByteBits(u ^ v));
  }

  lemma PadXor(u: Bits, v: Bits, r: Bits)
    requires |u| == |v| == |r| <= 32 && Pad(r) == Xor(Pad(u), Pad(v))
    ensures r == Xor(u, v)
  {
    forall i | 0 <= i < |r| ensures r[i] == Xor(u, v)[i] {
      assert Pad(r)[i] == r[i];
    }
  }

  lemma {:induction false} MessageBitsXor(a: seq<bv8>, b: seq<bv8>)
    requires |a| == |b|
    ensures MessageBits(XorBytes(a, b)) == Xor(MessageBits(a), MessageBits(b))
    decreases |a|
  {
    if a != [] {
      ByteBitsXor(a[0], b[0]);
      MessageBitsXor(a[1..], b[1..]);
      assert XorBytes(a, b)[1..] == XorBytes(a[1..], b[1..]);
      XorConcat(ByteBits(a[0]), MessageBits(a[1..]), ByteBits(b[0]), MessageBits(b[1..]));
    }
  }

  lemma {:induction false} ZeroMessage(data: seq<bv8>)
    requires forall k | 0 <= k < |data| :: data[k] == 0
    ensures MessageBits(data) == Zeros(8 * |data|)
    decreases |data|
  {
    if data != [] {
      ZeroMessage(data[1..]);
      ByteBitsXor(0, 0);
      assert (0 as bv8) ^ 0 == 0;
      assert ByteBits(data[0]) == Zeros(8);
    }
  }

  /** The checksum is affine: the three checksums of two messages and their exclusive or add up
      to the checksum of the all-zero message. */
  lemma ChecksumAffine(a: seq<bv8>, b: seq<bv8>, zero: seq<bv8>, initial: Bits)
    requires |initial| == 32 && |a| == |b| == |zero|
    requires forall k | 0 <= k < |zero| :: zero[k] == 0
    ensures Xor(Xor(Checksum(a, initial), Checksum(b, initial)), Checksum(XorBytes(a, b), initial))
         == Checksum(zero, initial)
  {
    var s := Xor(initial, Ones(32));
    var x, y, z := MessageBits(a), MessageBits(b), MessageBits(XorBytes(a, b));
    MessageBitsXor(a, b);
    ZeroMessage(zero);
    assert Xor(Xor(x, y), z) == MessageBits(zero);
    assert Xor(Xor(s, s), s) == s;
    FeedXor(s, s, x, y);
    FeedXor(Xor(s, s), s, Xor(x, y), z);
    ThreeComplements(Feed(s, x), Feed(s, y), Feed(s, z));
  }

  lemma ThreeComplements(p: Bits, q: Bits, r: Bits)
    requires |p| == |q| == |r| == 32
    ensures var o := Ones(32);
            Xor(Xor(Xor(p, o), Xor(q, o)), Xor(r, o)) == Xor(Xor(Xor(p, q), r), o)
  {
  }

  /** A receiver that checksums a message together with the four checksum bytes behind it sees
      one fixed value exactly when those bytes are the checksum. */
  lemma TrailerExact(data: seq<bv8>, trailer: seq<bv8>, initial: Bits)
    requires |initial| == 32 && |trailer| == 4
    ensures Checksum(data + trailer, initial) == Xor(StepN(Ones(32), 32), Ones(32)) <==>
              MessageBits(trailer) == Checksum(data, initial)
  {
    var crc, t := Checksum(data, initial), MessageBits(trailer);
    var reg := Feed(Xor(initial, Ones(32)), MessageBits(data));
    MessageBitsConcat(data, trailer);
    FeedConcat(Xor(initial, Ones(32)), MessageBits(data), t);
    FeedIsStepN(reg, t);
    assert Pad(t) == t;
    var after := StepN(Xor(reg, t), 32);
    DoubleComplement(after);
    DoubleComplement(StepN(Ones(32), 32));
    if after == StepN(Ones(32), 32) {
      StepNInjective(Xor(reg, t), Ones(32), 32);
    }
    ComplementExact(reg, t);
  }

  lemma ComplementExact(reg: Bits, t: Bits)
    requires |reg| == |t| == 32
    ensures Xor(reg, t) == Ones(32) <==> t == Xor(reg, Ones(32))
  {
    if Xor(reg, t) == Ones(32) {
      forall i | 0 <= i < 32 ensures t[i] == Xor(reg, Ones(32))[i] {
        assert Xor(reg, t)[i];
      }
    }
  }
}
