/** Index arithmetic shared by the queues that keep one slot empty: the items run from the
    read index up to, and not including, the write index, around the end of the buffer. */
module RingIndex {

  function Next(i: nat, cap: nat): nat {
    if i + 1 == cap then 0 else i + 1
  }

  lemma DivModUnique(k: nat, cap: nat, q: nat, r: nat)
    requires cap > 0 && k == q * cap + r && r < cap
    ensures k % cap == r
  {
    var q', r' := k / cap, k % cap;
    assert k == q' * cap + r';
    if q > q' {
      assert q * cap >= (q' + 1) * cap by { MulMono(q' + 1, q, cap); }
    } else if q < q' {
      assert q' * cap >= (q + 1) * cap by { MulMono(q + 1, q', cap); }
    }
  }

  lemma MulMono(a: nat, b: nat, c: nat)
    requires a <= b
    ensures a * c <= b * c
  {
    assert b * c == a * c + (b - a) * c;
  }

  /** Taking a remainder by the capacity wraps an index as the comparison does. */
  lemma RemainderWraps(i: nat, cap: nat)
    requires i < cap
    ensures (i + 1) % cap == Next(i, cap)
  {
    if i + 1 == cap {
      DivModUnique(cap, cap, 1, 0);
    } else {
      DivModUnique(i + 1, cap, 0, i + 1);
    }
  }

  /** Steps from r to w around a buffer of cap slots. */
  function Dist(r: nat, w: nat, cap: nat): nat
    requires r < cap && w < cap
  {
    if r <= w then w - r else w + cap - r
  }

  function Slice(d: seq<int>, r: nat, w: nat): (s: seq<int>)
    requires r < |d| && w < |d|
    ensures |s| == Dist(r, w, |d|)
  {
    if r <= w then d[r..w] else d[r..] + d[..w]
  }

  /** Writing the slot at w and advancing w appends, unless the buffer is full. */
  lemma SlicePush(d: seq<int>, r: nat, w: nat, v: int)
    requires r < |d| && w < |d|
    ensures Next(w, |d|) == r <==> |Slice(d, r, w)| == |d| - 1
    ensures Next(w, |d|) != r ==> Slice(d[w := v], r, Next(w, |d|)) == Slice(d, r, w) + [v]
  {
    var d', n := d[w := v], Next(w, |d|);
    if n != r {
      if n == 0 {
        assert d'[r..] + d'[..0] == d[r..w] + [v];
      } else if r <= w {
        assert d'[r..n] == d[r..w] + [v];
      } else {
        assert d'[r..] + d'[..n] == (d[r..] + d[..w]) + [v];
      }
    }
  }

  /** Advancing r drops the first item, unless the buffer is empty. */
  lemma SlicePop(d: seq<int>, r: nat, w: nat)
    requires r < |d| && w < |d|
    ensures r == w <==> Slice(d, r, w) == []
    ensures r != w ==>
              Slice(d, r, w)[0] == d[r] && Slice(d, Next(r, |d|), w) == Slice(d, r, w)[1..]
  {
    if r != w {
      var n := Next(r, |d|);
      if r < w {
        assert d[r..w][1..] == d[n..w];
      } else if n == 0 {
        assert (d[r..] + d[..w])[1..] == d[0..w];
      } else {
        assert (d[r..] + d[..w])[1..] == d[n..] + d[..w];
      }
    }
  }
}
