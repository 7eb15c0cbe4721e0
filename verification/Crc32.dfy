/** The table-driven CRC-32 of the source on 32-bit words, tied bit by bit to the division of
    module BitStrings, and the checksum's whole-message theorems. A bit string stands for a word
    least significant bit first, which is the order in which the bits are sent. */
module Crc32 {
  import opened BitStrings

  const POLYNOMIAL: bv32 := 0xEDB88320
  const ALL_ONES: bv32 := 0xFFFFFFFF

  /** The n low bits of c. */
  function LowBits(c: bv32, n: nat): (w: Bits)
    ensures |w| == n
    decreases n, c
  {
    if n == 0 then [] else [c & 1 == 1] + LowBits(c >> 1, n - 1)
  }

  function ToBits(c: bv32): (w: Bits)
    ensures |w| == 32
  {
    LowBits(c, 32)
  }

  function MessageBits(data: seq<bv8>): (bits: Bits)
    ensures |bits| == 8 * |data|
  {
    if data == [] then [] else ByteBits(data[0]) + MessageBits(data[1..])
  }

  /** The checksum of RFC 1952: the register starts from the complement of the initial value,
      takes the message, and is complemented again. */
  function Checksum(data: seq<bv8>, initial: Bits): (crc: Bits)
    requires |initial| == 32
    ensures |crc| == 32
  {
    Xor(Feed(Xor(initial, Ones(32)), MessageBits(data)), Ones(32))
  }

  // ---------------------------------------------------------------------------------------
  // Words and bit strings

  /** w spells out c completely: nothing of c is left beyond w. */
  ghost predicate Spells(c: bv32, w: Bits)
    decreases |w|
  {
    if w == [] then c == 0 else (c & 1 == 1) == w[0] && Spells(c >> 1, w[1..])
  }

  lemma {:induction false} SpellsUnique(c: bv32, w: Bits)
    requires Spells(c, w)
    ensures w == LowBits(c, |w|)
    decreases |w|
  {
    if w != [] {
      SpellsUnique(c >> 1, w[1..]);
    }
  }

  lemma SameHalves(a: bv32, b: bv32)
    requires Half(a) == Half(b) && (a & 1 == 1) == (b & 1 == 1)
    ensures a == b
  {
    assert a & 1 == 0 || a & 1 == 1;
    assert b & 1 == 0 || b & 1 == 1;
    assert a == ((a >> 1) << 1) | (a & 1);
    assert b == ((b >> 1) << 1) | (b & 1);
  }

  lemma SpellsTail(c: bv32, w: Bits)
    requires w != [] && Spells(c, w)
    ensures (c & 1 == 1) == w[0] && Spells(Half(c), w[1..])
  {
  }

  /** The bit string determines the word. */
  lemma {:induction false} SpellsInjective(a: bv32, b: bv32, w: Bits)
    requires Spells(a, w) && Spells(b, w)
    ensures a == b
    decreases |w|
  {
    if w != [] {
      SpellsTail(a, w);
      SpellsTail(b, w);
      SpellsInjective(Half(a), Half(b), w[1..]);
      SameHalves(a, b);
    }
  }

  lemma XorHalves(a: bv32, b: bv32)
    ensures (a ^ b) >> 1 == (a >> 1) ^ (b >> 1)
    ensures ((a ^ b) & 1 == 1) == ((a & 1 == 1) != (b & 1 == 1))
  {
    assert (a ^ b) & 1 == (a & 1) ^ (b & 1);
    assert a & 1 == 0 || a & 1 == 1;
    assert b & 1 == 0 || b & 1 == 1;
  }

  lemma {:induction false} SpellsXor(a: bv32, u: Bits, b: bv32, v: Bits)
    requires Spells(a, u) && Spells(b, v) && |u| == |v|
    ensures Spells(a ^ b, Xor(u, v))
    decreases |u|
  {
    if u == [] {
      assert a ^ b == 0;
    } else {
      XorHalves(a, b);
      SpellsXor(a >> 1, u[1..], b >> 1, v[1..]);
      assert Xor(u, v)[1..] == Xor(u[1..], v[1..]);
    }
  }

  lemma {:induction false} SpellsPad(c: bv32, w: Bits, n: nat)
    requires Spells(c, w)
    ensures Spells(c, w + Zeros(n))
    decreases |w| + n
  {
    if w == [] {
      if n > 0 {
        SpellsPad(0, [], n - 1);
        assert [] + Zeros(n) == Zeros(n);
        assert Zeros(n)[1..] == [] + Zeros(n - 1);
        assert (0 as bv32) >> 1 == 0;
        assert (0 as bv32) & 1 == 0;
      } else {
        assert [] + Zeros(n) == [];
      }
    } else {
      SpellsPad(c >> 1, w[1..], n);
      assert (w + Zeros(n))[1..] == w[1..] + Zeros(n);
    }
  }

  /** Shifting right drops the first bit and appends a zero. */
  lemma SpellsShift(c: bv32, w: Bits)
    requires Spells(c, w) && w != []
    ensures Spells(c >> 1, w[1..] + [false])
  {
    SpellsPad(c >> 1, w[1..], 1);
    assert Zeros(1) == [false];
  }

  lemma SpellsCons(c: bv32, w: Bits)
    requires Spells(c >> 1, w)
    ensures Spells(c, [c & 1 == 1] + w)
  {
    assert ([c & 1 == 1] + w)[1..] == w;
  }

  /** c has at most n bits. */
  ghost predicate Fits(c: bv32, n: nat)
    decreases n
  {
    if n == 0 then c == 0 else Fits(c >> 1, n - 1)
  }

  lemma {:induction false} LowBitsSpell(c: bv32, n: nat)
    requires Fits(c, n)
    ensures Spells(c, LowBits(c, n))
    decreases n
  {
    if n > 0 {
      LowBitsSpell(c >> 1, n - 1);
      SpellsCons(c, LowBits(c >> 1, n - 1));
    }
  }

  lemma FitsFour(c: bv32, n: nat)
    requires Fits(c >> 4, n)
    ensures Fits(c, n + 4)
  {
    assert (c >> 3) >> 1 == c >> 4;
    assert Fits(c >> 3, n + 1);
    assert (c >> 2) >> 1 == c >> 3;
    assert Fits(c >> 2, n + 2);
    assert (c >> 1) >> 1 == c >> 2;
    assert Fits(c >> 1, n + 3);
  }

  lemma HalfMono(c: bv32, g: bv32)
    requires c & !g == 0
    ensures (c >> 1) & !(g >> 1) == 0
  {
  }

  lemma NothingBelowZero(c: bv32, g: bv32)
    requires c & !g == 0 && g == 0
    ensures c == 0
  {
  }

  lemma {:induction false} FitsMono(c: bv32, g: bv32, n: nat)
    requires c & !g == 0 && Fits(g, n)
    ensures Fits(c, n)
    decreases n
  {
    if n == 0 {
      NothingBelowZero(c, g);
    } else {
      HalfMono(c, g);
      FitsMono(c >> 1, g >> 1, n - 1);
    }
  }

  lemma OnesFit()
    ensures Fits(0xFF, 8) && Fits(0xFFFFFFFF, 32)
  {
    FitsFour(0xF, 0);
    FitsFour(0xFF, 4);
    FitsFour(0xFFF, 8);
    FitsFour(0xFFFF, 12);
    FitsFour(0xFFFFF, 16);
    FitsFour(0xFFFFFF, 20);
    FitsFour(0xFFFFFFF, 24);
    FitsFour(0xFFFFFFFF, 28);
  }

  lemma ToBitsSpells(c: bv32)
    ensures Spells(c, ToBits(c))
  {
    OnesFit();
    FitsMono(c, 0xFFFFFFFF, 32);
    LowBitsSpell(c, 32);
  }

  lemma ToBitsInjective(a: bv32, b: bv32)
    requires ToBits(a) == ToBits(b)
    ensures a == b
  {
    ToBitsSpells(a);
    ToBitsSpells(b);
    SpellsInjective(a, b, ToBits(a));
  }

  lemma ByteSpells(u: bv8)
    ensures Spells(u as bv32, Pad(LowBits(u as bv32, 8)))
  {
    OnesFit();
    FitsMono(u as bv32, 0xFF, 8);
    LowBitsSpell(u as bv32, 8);
    SpellsPad(u as bv32, LowBits(u as bv32, 8), 24);
  }

  lemma SpellsFour(c: bv32, c1: bv32, c2: bv32, c3: bv32, c4: bv32, w: Bits)
    requires |w| >= 4 && Spells(c4, w[4..])
    requires c >> 1 == c1 && c1 >> 1 == c2 && c2 >> 1 == c3 && c3 >> 1 == c4
    requires w[0] == (c & 1 == 1) && w[1] == (c1 & 1 == 1)
    requires w[2] == (c2 & 1 == 1) && w[3] == (c3 & 1 == 1)
    ensures Spells(c, w)
  {
    assert w[3..][1..] == w[4..] && w[2..][1..] == w[3..] && w[1..][1..] == w[2..];
    assert Spells(c3, w[3..]);
    assert Spells(c2, w[2..]);
    assert Spells(c1, w[1..]);
  }

  /** Four of the generator's terms, from bit k on. */
  predicate Terms(k: nat, b0: bool, b1: bool, b2: bool, b3: bool) {
    && b0 == (31 - k in LOW_DEGREES) && b1 == (30 - k in LOW_DEGREES)
    && b2 == (29 - k in LOW_DEGREES) && b3 == (28 - k in LOW_DEGREES)
  }

  lemma TermsAre()
    ensures Terms(28, false, true, true, true)
    ensures Terms(24, true, false, true, true)
    ensures Terms(20, true, true, false, true)
    ensures Terms(16, false, false, false, true)
    ensures Terms(12, false, false, false, true)
    ensures Terms(8, true, true, false, false)
    ensures Terms(4, false, true, false, false)
    ensures Terms(0, false, false, false, false)
  {
  }

  /** Four bits of a constant and the four terms they stand for. */
  lemma TermsSpell(k: nat, c: bv32, c1: bv32, c2: bv32, c3: bv32, c4: bv32, b0: bool, b1: bool, b2: bool, b3: bool)
    requires k + 4 <= 32 && Spells(c4, LowGenerator()[k + 4..]) && Terms(k, b0, b1, b2, b3)
    requires c >> 1 == c1 && c1 >> 1 == c2 && c2 >> 1 == c3 && c3 >> 1 == c4
    requires b0 == (c & 1 == 1) && b1 == (c1 & 1 == 1) && b2 == (c2 & 1 == 1) && b3 == (c3 & 1 == 1)
    ensures Spells(c, LowGenerator()[k..])
  {
    var w := LowGenerator()[k..];
    assert w[4..] == LowGenerator()[k + 4..];
    SpellsFour(c, c1, c2, c3, c4, w);
  }

  /** The polynomial constant of the source spells the generator's terms. */
  lemma PolynomialSpells()
    ensures Spells(POLYNOMIAL, LowGenerator())
  {
    TermsAre();
    TermsSpell(28, 0xe, 0x7, 0x3, 0x1, 0x0, false, true, true, true);
    TermsSpell(24, 0xed, 0x76, 0x3b, 0x1d, 0xe, true, false, true, true);
    TermsSpell(20, 0xedb, 0x76d, 0x3b6, 0x1db, 0xed, true, true, false, true);
    TermsSpell(16, 0xedb8, 0x76dc, 0x3b6e, 0x1db7, 0xedb, false, false, false, true);
    TermsSpell(12, 0xedb88, 0x76dc4, 0x3b6e2, 0x1db71, 0xedb8, false, false, false, true);
    TermsSpell(8, 0xedb883, 0x76dc41, 0x3b6e20, 0x1db710, 0xedb88, true, true, false, false);
    TermsSpell(4, 0xedb8832, 0x76dc419, 0x3b6e20c, 0x1db7106, 0xedb883, false, true, false, false);
    TermsSpell(0, 0xedb88320, 0x76dc4190, 0x3b6e20c8, 0x1db71064, 0xedb8832, false, false, false, false);
    assert LowGenerator()[0..] == LowGenerator();
  }

  lemma OnesFour(c: bv32, c1: bv32, c2: bv32, c3: bv32, c4: bv32, n: nat)
    requires Spells(c4, Ones(n))
    requires c >> 1 == c1 && c1 >> 1 == c2 && c2 >> 1 == c3 && c3 >> 1 == c4
    requires c & 1 == 1 && c1 & 1 == 1 && c2 & 1 == 1 && c3 & 1 == 1
    ensures Spells(c, Ones(n + 4))
  {
    assert Ones(n + 4)[4..] == Ones(n);
    SpellsFour(c, c1, c2, c3, c4, Ones(n + 4));
  }

  lemma OnesSpell()
    ensures Spells(ALL_ONES, Ones(32)) && Spells(0xFF, Ones(8))
  {
    OnesFour(0xf, 0x7, 0x3, 0x1, 0x0, 0);
    OnesFour(0xff, 0x7f, 0x3f, 0x1f, 0xf, 4);
    OnesFour(0xfff, 0x7ff, 0x3ff, 0x1ff, 0xff, 8);
    OnesFour(0xffff, 0x7fff, 0x3fff, 0x1fff, 0xfff, 12);
    OnesFour(0xfffff, 0x7ffff, 0x3ffff, 0x1ffff, 0xffff, 16);
    OnesFour(0xffffff, 0x7fffff, 0x3fffff, 0x1fffff, 0xfffff, 20);
    OnesFour(0xfffffff, 0x7ffffff, 0x3ffffff, 0x1ffffff, 0xffffff, 24);
    OnesFour(0xffffffff, 0x7fffffff, 0x3fffffff, 0x1fffffff, 0xfffffff, 28);
  }

  // ---------------------------------------------------------------------------------------
  // One register step and one table step

  function Half(c: bv32): bv32 {
    c >> 1
  }

  /** One step of the table generator's inner loop. */
  function ShiftRegister(c: bv32): bv32 {
    if c & 1 != 0 then POLYNOMIAL ^ Half(c) else Half(c)
  }

  lemma ShiftRegisterByParity(c: bv32)
    ensures c & 1 == 1 ==> ShiftRegister(c) == POLYNOMIAL ^ (c >> 1)
    ensures !(c & 1 == 1) ==> ShiftRegister(c) == c >> 1
  {
    assert c & 1 == 0 || c & 1 == 1;
  }

  lemma {:induction false} SpellsAnd(a: bv32, u: Bits, m: bv32, k: nat)
    requires Spells(a, u) && Spells(m, Ones(k)) && k <= |u|
    ensures Spells(a & m, u[..k])
    decreases k
  {
    if k == 0 {
      assert a & m == 0;
    } else {
      AndStep(a, m);
      assert Ones(k)[1..] == Ones(k - 1);
      SpellsAnd(a >> 1, u[1..], m >> 1, k - 1);
      assert u[..k][1..] == u[1..][..k - 1];
    }
  }

  lemma AndStep(a: bv32, m: bv32)
    ensures (a & m) >> 1 == (a >> 1) & (m >> 1)
    ensures m & 1 == 1 ==> (a & m) & 1 == a & 1
  {
  }

  lemma SpellsShiftEight(c: bv32, w: Bits)
    requires Spells(c, w) && |w| == 32
    ensures Spells(c >> 8, w[8..] + Zeros(8))
  {
    SpellsDrop(c, w, 8);
    SpellsPad(ShiftBy(c, 8), w[8..], 8);
    ShiftByEight(c);
  }

  function ShiftBy(c: bv32, n: nat): bv32
    decreases n
  {
    if n == 0 then c else ShiftBy(c >> 1, n - 1)
  }

  lemma {:induction false} SpellsDrop(c: bv32, w: Bits, n: nat)
    requires Spells(c, w) && n <= |w|
    ensures Spells(ShiftBy(c, n), w[n..])
    decreases n
  {
    if n > 0 {
      SpellsDrop(c >> 1, w[1..], n - 1);
      assert w[n..] == w[1..][n - 1..];
    } else {
      assert w[0..] == w;
    }
  }

  lemma ShiftByTwo(c: bv32, n: nat)
    ensures ShiftBy(c, n + 2) == ShiftBy(c >> 2, n)
  {
    assert (c >> 1) >> 1 == c >> 2;
  }

  lemma ShiftByEight(c: bv32)
    ensures ShiftBy(c, 8) == c >> 8
  {
    ShiftByTwo(c, 6);
    ShiftByTwo(c >> 2, 4);
    ShiftByTwo((c >> 2) >> 2, 2);
    ShiftByTwo(((c >> 2) >> 2) >> 2, 0);
    assert (((c >> 2) >> 2) >> 2) >> 2 == c >> 8;
  }

  // ---------------------------------------------------------------------------------------
  // Word operations as operations on bit strings

  lemma ToBitsIs(c: bv32, w: Bits)
    requires Spells(c, w) && |w| == 32
    ensures ToBits(c) == w
  {
    SpellsUnique(c, w);
  }

  lemma ToBitsXor(a: bv32, b: bv32)
    ensures ToBits(a ^ b) == Xor(ToBits(a), ToBits(b))
  {
    ToBitsSpells(a);
    ToBitsSpells(b);
    SpellsXor(a, ToBits(a), b, ToBits(b));
    ToBitsIs(a ^ b, Xor(ToBits(a), ToBits(b)));
  }

  lemma ToBitsOnes()
    ensures ToBits(ALL_ONES) == Ones(32)
  {
    OnesSpell();
    ToBitsIs(ALL_ONES, Ones(32));
  }

  lemma ToBitsPolynomial()
    ensures ToBits(POLYNOMIAL) == LowGenerator()
  {
    PolynomialSpells();
    ToBitsIs(POLYNOMIAL, LowGenerator());
  }

  lemma ToBitsHalf(c: bv32)
    ensures ToBits(c >> 1) == ToBits(c)[1..] + [false]
  {
    ToBitsSpells(c);
    SpellsShift(c, ToBits(c));
    ToBitsIs(c >> 1, ToBits(c)[1..] + [false]);
  }

  lemma ToBitsShiftEight(c: bv32)
    ensures ToBits(c >> 8) == ToBits(c)[8..] + Zeros(8)
  {
    ToBitsSpells(c);
    SpellsShiftEight(c, ToBits(c));
    ToBitsIs(c >> 8, ToBits(c)[8..] + Zeros(8));
  }

  lemma ToBitsLowByte(c: bv32)
    ensures ToBits(c & 0xFF) == Pad(ToBits(c)[..8])
  {
    var w := ToBits(c);
    ToBitsSpells(c);
    OnesSpell();
    SpellsAnd(c, w, 0xFF, 8);
    SpellsPad(c & 0xFF, w[..8], 24);
    ToBitsIs(c & 0xFF, Pad(w[..8]));
  }

  function ByteBits(u: bv8): (w: Bits)
    ensures |w| == 8
  {
    LowBits(u as bv32, 8)
  }

  lemma ToBitsByte(u: bv8)
    ensures ToBits(u as bv32) == Pad(ByteBits(u))
  {
    ByteSpells(u);
    ToBitsIs(u as bv32, Pad(ByteBits(u)));
  }

  /** One step of the word register is one step of the bit register. */
  lemma ToBitsShiftRegister(c: bv32)
    ensures ToBits(ShiftRegister(c)) == Step(ToBits(c))
  {
    ToBitsHalf(c);
    StepByHead(ToBits(c));
    ShiftRegisterByParity(c);
    ToBitsPolynomial();
    ToBitsXor(POLYNOMIAL, c >> 1);
  }

  /** The two halves of one step of the checksum loop: `(crc ^ u[i]) & 0xFF` and `crc >> 8`. */
  function Index(crc: bv32, u: bv8): bv32 {
    (crc ^ (u as bv32)) & 0xFF
  }

  function High(crc: bv32): bv32 {
    crc >> 8
  }

  lemma MixedBits(crc: bv32, u: bv8)
    ensures ToBits(crc ^ (u as bv32)) == Xor(ToBits(crc), Pad(ByteBits(u)))
  {
    ToBitsXor(crc, u as bv32);
    ToBitsByte(u);
  }

  lemma IndexBits(crc: bv32, u: bv8)
    ensures ToBits(Index(crc, u)) == Pad(Xor(ToBits(crc), Pad(ByteBits(u)))[..8])
  {
    MixedBits(crc, u);
    ToBitsLowByte(crc ^ (u as bv32));
  }

  /** Looking up the low byte and shifting the rest takes eight message bits at once. */
  lemma TableStep(crc: bv32, u: bv8, entry: bv32, index: Bits)
    requires index == ToBits(Index(crc, u)) && ToBits(entry) == StepN(index, 8)
    ensures ToBits(entry ^ High(crc)) == Feed(ToBits(crc), ByteBits(u))
  {
    IndexBits(crc, u);
    ToBitsShiftEight(crc);
    ToBitsXor(entry, High(crc));
    LookupIsFeed(ToBits(crc), ByteBits(u), ToBits(entry), index, ToBits(High(crc)));
  }

  // ---------------------------------------------------------------------------------------
  // The source's functions

  /** The bits of an array index. */
  function NatBits(k: nat, n: nat): (w: Bits)
    ensures |w| == n
    decreases n, k
  {
    if n == 0 then [] else [k % 2 == 1] + NatBits(k / 2, n - 1)
  }

  lemma NatHalf(k: nat)
    requires k < 256
    ensures ((k as bv32) & 1 == 1) == (k % 2 == 1)
    ensures (k as bv32) >> 1 == (k / 2) as bv32
  {
  }

  lemma {:induction false} NatBitsAreLowBits(k: nat, n: nat)
    requires k < 256
    ensures LowBits(k as bv32, n) == NatBits(k, n)
    decreases n
  {
    if n > 0 {
      NatHalf(k);
      NatBitsAreLowBits(k / 2, n - 1);
    }
  }

  lemma ByteHalf(c: bv8)
    ensures (c & 1 == 1) == (c as int % 2 == 1)
    ensures (c >> 1) as int == (c as int) / 2
  {
  }

  lemma ByteWidens(c: bv8)
    ensures ((c as bv32) & 1 == 1) == (c & 1 == 1)
    ensures (c as bv32) >> 1 == (c >> 1) as bv32
  {
  }

  lemma {:induction false} ByteNatBits(c: bv8, n: nat)
    ensures NatBits(c as int, n) == LowBits(c as bv32, n)
    decreases n
  {
    if n > 0 {
      ByteHalf(c);
      ByteWidens(c);
      ByteNatBits(c >> 1, n - 1);
    }
  }

  function LowByte(x: bv32): bv8 {
    (x & 0xFF) as bv8
  }

  lemma LowByteWidens(x: bv32)
    ensures LowByte(x) as bv32 == x & 0xFF
  {
  }

  /** Where the loop looks. */
  method Slot(crc: bv32, u: bv8) returns (k: nat)
    ensures k < 256
    ensures NatBits(k, 32) == ToBits(Index(crc, u))
  {
    var b := LowByte(crc ^ (u as bv32));
    LowByteWidens(crc ^ (u as bv32));
    ByteNatBits(b, 32);
    k := b as int;
  }

  /** The first n entries of the table are their own index after eight steps of the register. */
  ghost predicate IsTable(table: seq<bv32>, n: nat) {
    && |table| == 256
    && forall i | 0 <= i < n && i < 256 :: ToBits(table[i]) == StepN(NatBits(i, 32), 8)
  }

  lemma TableGrows(table: seq<bv32>, n: nat, c: bv32)
    requires IsTable(table, n) && n < 256
    requires ToBits(c) == StepN(NatBits(n, 32), 8)
    ensures IsTable(table[n := c], n + 1)
  {
  }

  lemma TableAt(table: seq<bv32>, k: nat)
    requires IsTable(table, 256) && k < 256
    ensures ToBits(table[k]) == StepN(NatBits(k, 32), 8)
  {
  }

  lemma GeneratorStep(i: nat, c: bv32, j: nat)
    requires ToBits(c) == StepN(NatBits(i, 32), j)
    ensures ToBits(ShiftRegister(c)) == StepN(NatBits(i, 32), j + 1)
  {
    ToBitsShiftRegister(c);
    StepNLast(NatBits(i, 32), j);
  }

  method GenerateTable(table: array<bv32>)
    requires table.Length == 256
    modifies table
    ensures IsTable(table[..], 256)
  {
    for i := 0 to 256
      invariant IsTable(table[..], i)
    {
      ghost var before := table[..];
      var c := TableEntry(i);
      TableGrows(before, i, c);
      table[i] := c;
      assert table[..] == before[i := c];
    }
  }

  /** The inner loop of the generator. */
  method TableEntry(i: nat) returns (c: bv32)
    requires i < 256
    ensures ToBits(c) == StepN(NatBits(i, 32), 8)
  {
    c := i as bv32;
    NatBitsAreLowBits(i, 32);
    for j := 0 to 8
      invariant ToBits(c) == StepN(NatBits(i, 32), j)
    {
      GeneratorStep(i, c, j);
      if c & 1 != 0 {
        c := POLYNOMIAL ^ Half(c);
      } else {
        c := Half(c);
      }
    }
  }

  lemma {:induction false} MessageBitsConcat(a: seq<bv8>, b: seq<bv8>)
    ensures MessageBits(a + b) == MessageBits(a) + MessageBits(b)
    decreases |a|
  {
    if a == [] {
      assert a + b == b;
    } else {
      assert (a + b)[1..] == a[1..] + b;
      MessageBitsConcat(a[1..], b);
    }
  }

  lemma FeedByte(w: Bits, data: seq<bv8>, u: bv8)
    requires |w| == 32
    ensures Feed(w, MessageBits(data + [u])) == Feed(Feed(w, MessageBits(data)), ByteBits(u))
  {
    MessageBitsConcat(data, [u]);
    assert MessageBits([u]) == ByteBits(u);
    FeedConcat(w, MessageBits(data), ByteBits(u));
  }

  lemma Complement(c: bv32)
    ensures ToBits(c ^ ALL_ONES) == Xor(ToBits(c), Ones(32))
  {
    ToBitsOnes();
    ToBitsXor(c, ALL_ONES);
  }

  method Entry(table: array<bv32>, crc: bv32, u: bv8) returns (entry: bv32)
    requires IsTable(table[..], 256)
    ensures ToBits(entry) == StepN(ToBits(Index(crc, u)), 8)
  {
    var k := Slot(crc, u);
    TableAt(table[..], k);
    entry := table[k];
  }

  /** One round of the checksum loop. */
  method TakeByte(table: array<bv32>, crc: bv32, u: bv8) returns (next: bv32)
    requires IsTable(table[..], 256)
    ensures ToBits(next) == Feed(ToBits(crc), ByteBits(u))
  {
    var entry := Entry(table, crc, u);
    TableStep(crc, u, entry, ToBits(Index(crc, u)));
    next := entry ^ High(crc);
  }

  /** The function-local statics of `compute_crc32`. */
  class Engine {
    const table: array<bv32>
    var generated: bool

    ghost predicate Valid()
      reads this, table
    {
      table.Length == 256 && (generated ==> IsTable(table[..], 256))
    }

    constructor ()
      ensures Valid() && !generated && fresh(table)
    {
      table := new bv32[256](_ => 0);
      generated := false;
    }

    method Compute(buf: array<bv8>, len: nat, initial: bv32) returns (crc: bv32)
      requires Valid() && len <= buf.Length
      modifies this, table
      ensures Valid() && generated
      ensures ToBits(crc) == Checksum(buf[..len], ToBits(initial))
    {
      if !generated {
        GenerateTable(table);
        generated := true;
      }
      crc := Fold(buf, len, initial ^ ALL_ONES);
      Complement(initial);
      Complement(crc);
      crc := crc ^ ALL_ONES;
    }

    /** The checksum loop. */
    method Fold(buf: array<bv8>, len: nat, start: bv32) returns (crc: bv32)
      requires IsTable(table[..], 256) && len <= buf.Length
      ensures ToBits(crc) == Feed(ToBits(start), MessageBits(buf[..len]))
    {
      crc := start;
      for i := 0 to len
        invariant ToBits(crc) == Feed(ToBits(start), MessageBits(buf[..i]))
      {
        assert buf[..i + 1] == buf[..i] + [buf[i]];
        FeedByte(ToBits(start), buf[..i], buf[i]);
        crc := TakeByte(table, crc, buf[i]);
      }
    }
  }
}
