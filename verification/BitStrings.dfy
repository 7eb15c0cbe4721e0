/** Polynomials over two elements as bit strings, highest degree first: schoolbook long division
    by the CRC-32 generator, the register that performs it one bit at a time, and what the
    register promises about errors. No machine words here. */
module BitStrings {

  type Bits = seq<bool>

  function Xor(u: Bits, v: Bits): (r: Bits)
    requires |u| == |v|
    ensures |r| == |u|
    ensures forall i | 0 <= i < |u| :: r[i] == (u[i] != v[i])
  {
    seq(|u|, i requires 0 <= i < |u| => u[i] != v[i])
  }

  function Zeros(n: nat): (r: Bits)
    ensures |r| == n && forall i | 0 <= i < n :: !r[i]
  {
    seq(n, _ => false)
  }

  function Ones(n: nat): (r: Bits)
    ensures |r| == n && forall i | 0 <= i < n :: r[i]
  {
    seq(n, _ => true)
  }

  /** The terms of the generator below x^32. */
  const LOW_DEGREES: set<int> := {26, 23, 22, 16, 12, 11, 10, 8, 7, 5, 4, 2, 1, 0}

  /** The generator without its leading term x^32. */
  function LowGenerator(): (g: Bits)
    ensures |g| == 32
    ensures forall i | 0 <= i < 32 :: g[i] <==> 31 - i in LOW_DEGREES
  {
    seq(32, i => 31 - i in LOW_DEGREES)
  }

  /** One line of long division: cancel the leading term with a multiple of the generator. */
  function Reduce(m: Bits): (r: Bits)
    requires |m| > 32
    ensures |r| == |m| - 1
  {
    if m[0] then Xor(m[1..], LowGenerator() + Zeros(|m| - 33)) else m[1..]
  }

  /** The remainder of m by the generator. */
  function Remainder(m: Bits): (r: Bits)
    requires |m| >= 32
    ensures |r| == 32
    decreases |m|
  {
    if |m| == 32 then m else Remainder(Reduce(m))
  }

  // ---------------------------------------------------------------------------------------
  // The register

  /** Multiply by x: the leading term leaves and is replaced by the low generator. */
  function Step(w: Bits): (r: Bits)
    requires |w| == 32
    ensures |r| == 32
  {
    Xor(w[1..] + [false], if w[0] then LowGenerator() else Zeros(32))
  }

  lemma StepBits(w: Bits)
    requires |w| == 32
    ensures forall i | 0 <= i < 32 ::
              Step(w)[i] == ((i < 31 && w[i + 1]) != (w[0] && LowGenerator()[i]))
  {
  }

  function StepN(w: Bits, n: nat): (r: Bits)
    requires |w| == 32
    ensures |r| == 32
    decreases n, |w|
  {
    if n == 0 then w else StepN(Step(w), n - 1)
  }

  function FeedBit(w: Bits, b: bool): (r: Bits)
    requires |w| == 32
    ensures |r| == 32
  {
    Step(w[0 := w[0] != b])
  }

  /** The register w after it has taken the bits. */
  function Feed(w: Bits, bits: Bits): (r: Bits)
    requires |w| == 32
    ensures |r| == 32
    decreases |bits|
  {
    if bits == [] then w else Feed(FeedBit(w, bits[0]), bits[1..])
  }

  /** The dividend the register stands for: the message times x^32, with w added in front. */
  function Dividend(w: Bits, bits: Bits): (m: Bits)
    requires |w| == 32
    ensures |m| == |bits| + 32
  {
    Xor(w + Zeros(|bits|), bits + Zeros(32))
  }

  /** Taking a bit is one line of the division. */
  lemma FeedBitReduces(w: Bits, bits: Bits)
    requires |w| == 32 && bits != []
    ensures Dividend(FeedBit(w, bits[0]), bits[1..]) == Reduce(Dividend(w, bits))
  {
    var m := Dividend(w, bits);
    var l, r := Dividend(FeedBit(w, bits[0]), bits[1..]), Reduce(m);
    assert m[0] == (w[0] != bits[0]);
    StepBits(w[0 := w[0] != bits[0]]);
    forall i | 0 <= i < |l| ensures l[i] == r[i] {
      assert (bits[1..] + Zeros(32))[i] == (bits + Zeros(32))[i + 1];
      if i < 32 {
        assert (LowGenerator() + Zeros(|m| - 33))[i] == LowGenerator()[i];
      }
    }
  }

  /** The register computes the remainder of the message times x^32. */
  lemma {:induction false} FeedIsRemainder(w: Bits, bits: Bits)
    requires |w| == 32
    ensures Feed(w, bits) == Remainder(Dividend(w, bits))
    decreases |bits|
  {
    if bits == [] {
      assert Dividend(w, bits) == w;
    } else {
      FeedBitReduces(w, bits);
      FeedIsRemainder(FeedBit(w, bits[0]), bits[1..]);
    }
  }

  // ---------------------------------------------------------------------------------------
  // Composition and linearity

  lemma {:induction false} FeedConcat(w: Bits, a: Bits, b: Bits)
    requires |w| == 32
    ensures Feed(w, a + b) == Feed(Feed(w, a), b)
    decreases |a|
  {
    if a == [] {
      assert a + b == b;
    } else {
      assert (a + b)[1..] == a[1..] + b;
      FeedConcat(FeedBit(w, a[0]), a[1..], b);
    }
  }

  lemma StepXor(u: Bits, v: Bits)
    requires |u| == |v| == 32
    ensures Step(Xor(u, v)) == Xor(Step(u), Step(v))
  {
    StepBits(u);
    StepBits(v);
    StepBits(Xor(u, v));
  }

  lemma FeedBitXor(u: Bits, v: Bits, a: bool, b: bool)
    requires |u| == |v| == 32
    ensures FeedBit(Xor(u, v), a != b) == Xor(FeedBit(u, a), FeedBit(v, b))
  {
    var u', v' := u[0 := u[0] != a], v[0 := v[0] != b];
    assert Xor(u, v)[0 := Xor(u, v)[0] != (a != b)] == Xor(u', v');
    StepXor(u', v');
  }

  /** Registers and messages add up: feeding is linear over exclusive or. */
  lemma {:induction false} FeedXor(u: Bits, v: Bits, a: Bits, b: Bits)
    requires |u| == |v| == 32 && |a| == |b|
    ensures Feed(Xor(u, v), Xor(a, b)) == Xor(Feed(u, a), Feed(v, b))
    decreases |a|
  {
    if a != [] {
      FeedBitXor(u, v, a[0], b[0]);
      assert Xor(a, b)[1..] == Xor(a[1..], b[1..]);
      FeedXor(FeedBit(u, a[0]), FeedBit(v, b[0]), a[1..], b[1..]);
    }
  }

  // ---------------------------------------------------------------------------------------
  // Error detection

  /** The last term of the generator is 1, so a step loses nothing. */
  lemma StepInjective(u: Bits, v: Bits)
    requires |u| == |v| == 32 && Step(u) == Step(v)
    ensures u == v
  {
    StepBits(u);
    StepBits(v);
    assert LowGenerator()[31];
    assert Step(u)[31] == u[0] && Step(v)[31] == v[0];
    forall i | 1 <= i < 32 ensures u[i] == v[i] {
      assert Step(u)[i - 1] == Step(v)[i - 1];
    }
  }

  lemma {:induction false} StepNInjective(u: Bits, v: Bits, n: nat)
    requires |u| == |v| == 32 && StepN(u, n) == StepN(v, n)
    ensures u == v
    decreases n
  {
    if n > 0 {
      StepNInjective(Step(u), Step(v), n - 1);
      StepInjective(u, v);
    }
  }

  /** After a common suffix, different registers are still different. */
  lemma {:induction false} FeedInjective(u: Bits, v: Bits, bits: Bits)
    requires |u| == |v| == 32 && Feed(u, bits) == Feed(v, bits)
    ensures u == v
    decreases |bits|
  {
    if bits != [] {
      var b := bits[0];
      FeedInjective(FeedBit(u, b), FeedBit(v, b), bits[1..]);
      var u', v' := u[0 := u[0] != b], v[0 := v[0] != b];
      StepInjective(u', v');
      forall i | 0 <= i < 32 ensures u[i] == v[i] {
        assert u'[i] == v'[i];
      }
    }
  }

  function Pad(bits: Bits): (w: Bits)
    requires |bits| <= 32
    ensures |w| == 32
  {
    bits + Zeros(32 - |bits|)
  }

  /** Up to 32 bits can be taken at once: add them to the register, then step. */
  lemma {:induction false} FeedIsStepN(w: Bits, bits: Bits)
    requires |w| == 32 && |bits| <= 32
    ensures Feed(w, bits) == StepN(Xor(w, Pad(bits)), |bits|)
    decreases |bits|
  {
    if bits == [] {
      assert Xor(w, Pad(bits)) == w;
    } else {
      FeedIsStepN(FeedBit(w, bits[0]), bits[1..]);
      AbsorbBits(w, bits);
    }
  }

  lemma AbsorbBits(w: Bits, bits: Bits)
    requires |w| == 32 && 0 < |bits| <= 32
    ensures Xor(FeedBit(w, bits[0]), Pad(bits[1..])) == Step(Xor(w, Pad(bits)))
  {
    var l, r := Xor(FeedBit(w, bits[0]), Pad(bits[1..])), Step(Xor(w, Pad(bits)));
    forall i | 0 <= i < 32 ensures l[i] == r[i] {
      AbsorbBit(w, bits, i);
    }
  }

  lemma AbsorbBit(w: Bits, bits: Bits, i: nat)
    requires |w| == 32 && 0 < |bits| <= 32 && i < 32
    ensures Step(Xor(w, Pad(bits)))[i] == (FeedBit(w, bits[0])[i] != Pad(bits[1..])[i])
  {
    StepAt(w[0 := w[0] != bits[0]], i);
    StepAt(Xor(w, Pad(bits)), i);
    PadTail(bits, i);
  }

  lemma StepAt(w: Bits, i: nat)
    requires |w| == 32 && i < 32
    ensures Step(w)[i] == ((i < 31 && w[i + 1]) != (w[0] && LowGenerator()[i]))
  {
    StepBits(w);
  }

  lemma PadTail(bits: Bits, i: nat)
    requires 0 < |bits| <= 32 && i < 32
    ensures Pad(bits)[0] == bits[0]
    ensures Pad(bits[1..])[i] == (i < 31 && Pad(bits)[i + 1])
  {
  }

  lemma XorPadInjective(p: Bits, u: Bits, v: Bits)
    requires |p| == 32 && |u| == |v| <= 32 && Xor(p, Pad(u)) == Xor(p, Pad(v))
    ensures u == v
  {
    forall i | 0 <= i < |u| ensures u[i] == v[i] {
      assert Xor(p, Pad(u))[i] == Xor(p, Pad(v))[i];
    }
  }

  /** Every burst of at most 32 bits, wherever it starts, changes the register. */
  lemma BurstDetected(w: Bits, prefix: Bits, u: Bits, v: Bits, suffix: Bits)
    requires |w| == 32 && |u| == |v| <= 32 && u != v
    ensures Feed(w, prefix + u + suffix) != Feed(w, prefix + v + suffix)
  {
    FeedConcat(w, prefix + u, suffix);
    FeedConcat(w, prefix + v, suffix);
    FeedConcat(w, prefix, u);
    FeedConcat(w, prefix, v);
    var p := Feed(w, prefix);
    if Feed(w, prefix + u + suffix) == Feed(w, prefix + v + suffix) {
      FeedInjective(Feed(p, u), Feed(p, v), suffix);
      FeedIsStepN(p, u);
      FeedIsStepN(p, v);
      StepNInjective(Xor(p, Pad(u)), Xor(p, Pad(v)), |u|);
      XorPadInjective(p, u, v);
    }
  }

  lemma {:induction false} StepNOfZeros(n: nat)
    ensures StepN(Zeros(32), n) == Zeros(32)
  {
    if n > 0 {
      StepBits(Zeros(32));
      assert Step(Zeros(32)) == Zeros(32);
      StepNOfZeros(n - 1);
    }
  }

  lemma LeadingBit()
    ensures FeedBit(Zeros(32), true) == LowGenerator()
  {
    var z := Zeros(32)[0 := true];
    StepBits(z);
    assert Zeros(32)[0 := Zeros(32)[0] != true] == z;
  }

  /** Feeding a register its own contents empties it. */
  lemma FeedSelf(w: Bits)
    requires |w| == 32
    ensures Feed(w, w) == Zeros(32)
  {
    FeedIsStepN(w, w);
    XorSelf(w);
    StepNOfZeros(|w|);
  }

  lemma XorSelf(w: Bits)
    requires |w| == 32
    ensures Xor(w, Pad(w)) == Zeros(32)
  {
  }

  lemma GeneratorVanishes()
    ensures Feed(Zeros(32), [true] + LowGenerator()) == Zeros(32)
  {
    LeadingBit();
    FeedSelf(LowGenerator());
    assert ([true] + LowGenerator())[1..] == LowGenerator();
  }

  /** Adding the generator itself leaves the register where it was, wherever it is added. */
  lemma GeneratorUnseen(w: Bits, prefix: Bits, u: Bits, suffix: Bits)
    requires |w| == 32 && |u| == 33
    ensures Feed(w, prefix + Xor(u, [true] + LowGenerator()) + suffix) == Feed(w, prefix + u + suffix)
  {
    var e := [true] + LowGenerator();
    var p := Feed(w, prefix);
    GeneratorVanishes();
    FeedXor(p, Zeros(32), u, e);
    XorZeros(p);
    XorZeros(Feed(p, u));
    FeedConcat(w, prefix + u, suffix);
    FeedConcat(w, prefix + Xor(u, e), suffix);
    FeedConcat(w, prefix, u);
    FeedConcat(w, prefix, Xor(u, e));
  }

  lemma XorZeros(w: Bits)
    requires |w| == 32
    ensures Xor(w, Zeros(32)) == w
  {
  }

  lemma XorConcat(a: Bits, b: Bits, c: Bits, d: Bits)
    requires |a| == |c| && |b| == |d|
    ensures Xor(a + b, c + d) == Xor(a, c) + Xor(b, d)
  {
  }

  /** Two messages of one length leave the same register exactly when the register started from
      zero swallows their difference, whatever the register was. */
  lemma CollisionExact(w: Bits, a: Bits, b: Bits)
    requires |w| == 32 && |a| == |b|
    ensures Feed(w, a) == Feed(w, b) <==> Remainder(Dividend(Zeros(32), Xor(a, b))) == Zeros(32)
  {
    FeedXor(w, w, a, b);
    assert Xor(w, w) == Zeros(32);
    FeedIsRemainder(Zeros(32), Xor(a, b));
    XorZero(Feed(w, a), Feed(w, b));
  }

  lemma XorZero(x: Bits, y: Bits)
    requires |x| == |y| == 32
    ensures Xor(x, y) == Zeros(32) <==> x == y
  {
    if Xor(x, y) == Zeros(32) {
      forall i | 0 <= i < 32 ensures x[i] == y[i] {
        assert !Xor(x, y)[i];
      }
    }
  }

  // ---------------------------------------------------------------------------------------
  // Eight bits at a time

  lemma {:induction false} StepNXor(u: Bits, v: Bits, n: nat)
    requires |u| == |v| == 32
    ensures StepN(Xor(u, v), n) == Xor(StepN(u, n), StepN(v, n))
    decreases n
  {
    if n > 0 {
      StepXor(u, v);
      StepNXor(Step(u), Step(v), n - 1);
    }
  }

  lemma StepByHead(w: Bits)
    requires |w| == 32
    ensures !w[0] ==> Step(w) == w[1..] + [false]
    ensures w[0] ==> Step(w) == Xor(LowGenerator(), w[1..] + [false])
  {
  }

  /** Leading zeros only shift out. */
  lemma {:induction false} StepNZeros(y: Bits, n: nat, k: nat)
    requires |y| + n + k == 32
    ensures StepN(Zeros(n) + y + Zeros(k), n) == y + Zeros(n + k)
    decreases n
  {
    if n == 0 {
      assert Zeros(0) + y + Zeros(k) == y + Zeros(k);
    } else {
      ZerosShift(y, n, k);
      StepByHead(Zeros(n) + y + Zeros(k));
      StepNZeros(y, n - 1, k + 1);
    }
  }

  lemma ZerosShift(y: Bits, n: nat, k: nat)
    requires n > 0
    ensures var w := Zeros(n) + y + Zeros(k);
            !w[0] && w[1..] + [false] == Zeros(n - 1) + y + Zeros(k + 1)
  {
  }

  lemma HalvesAddUp(w: Bits, n: nat)
    requires |w| == 32 && n <= 32
    ensures Xor(Pad(w[..n]), Zeros(n) + w[n..] + Zeros(0)) == w
  {
  }

  /** Splitting a register into its first n bits and the rest. */
  lemma StepNSplits(w: Bits, n: nat)
    requires |w| == 32 && n <= 32
    ensures StepN(w, n) == Xor(StepN(Pad(w[..n]), n), w[n..] + Zeros(n))
  {
    var lo, hi := Pad(w[..n]), Zeros(n) + w[n..] + Zeros(0);
    HalvesAddUp(w, n);
    StepNXor(lo, hi, n);
    StepNZeros(w[n..], n, 0);
  }

  /** Taking n bits at once touches the first n bits of the register; the rest only moves up. */
  lemma FeedSplits(w: Bits, bits: Bits)
    requires |w| == 32 && |bits| <= 32
    ensures var n := |bits|;
            Feed(w, bits) == Xor(StepN(Pad(Xor(w, Pad(bits))[..n]), n), w[n..] + Zeros(n))
  {
    var x := Xor(w, Pad(bits));
    FeedIsStepN(w, bits);
    StepNSplits(x, |bits|);
    assert x[|bits|..] == w[|bits|..];
  }

  /** A lookup of eight steps for the first eight bits, added to the shifted rest, is the
      register after eight message bits. */
  lemma LookupIsFeed(w: Bits, bits: Bits, entry: Bits, index: Bits, high: Bits)
    requires |w| == 32 && |bits| == 8 && |index| == 32
    requires entry == StepN(index, 8)
    requires index == Pad(Xor(w, Pad(bits))[..8])
    requires high == w[8..] + Zeros(8)
    ensures Xor(entry, high) == Feed(w, bits)
  {
    FeedSplits(w, bits);
  }

  lemma {:induction false} StepNLast(w: Bits, n: nat)
    requires |w| == 32
    ensures StepN(w, n + 1) == Step(StepN(w, n))
    decreases n
  {
    if n > 0 {
      StepNLast(Step(w), n - 1);
    }
  }
}
