/** The `Unid_block` wire format: six fields, each byte-swapped on a little-endian host and copied
    into a 26-byte buffer. */
module UnidBlock {
  import opened Memory

  type u16 = x: int | 0 <= x < 0x1_0000
  type u32 = x: int | 0 <= x < 0x1_0000_0000
  type u64 = x: int | 0 <= x < 0x1_0000_0000_0000_0000

  const IP_OFFSET: nat := 0
  const PORT_OFFSET: nat := IP_OFFSET + 4
  const SEQ_OFFSET: nat := PORT_OFFSET + 2
  const NODE_OFFSET: nat := SEQ_OFFSET + 4
  const FIRST_UNID_OFFSET: nat := NODE_OFFSET + 4
  const BLOCK_SIZE_OFFSET: nat := FIRST_UNID_OFFSET + 8
  const BUF_SIZE: nat := BLOCK_SIZE_OFFSET + 4

  // ---------------------------------------------------------------------------------------
  // Byte order

  function Reverse(s: seq<byte>): (r: seq<byte>)
    ensures |r| == |s|
    ensures forall i | 0 <= i < |s| :: r[i] == s[|s| - 1 - i]
  {
    if s == [] then [] else Reverse(s[1..]) + [s[0]]
  }

  /** The value of n bytes, most significant first. */
  function Big(s: seq<byte>): nat {
    if s == [] then 0 else 256 * Big(s[..|s| - 1]) + s[|s| - 1]
  }

  /** `std::byteswap` on an n-byte integer of a little-endian host. */
  function ByteSwap(x: nat, n: nat): nat {
    Decode(Reverse(Encode(x, n)))
  }

  lemma {:induction false} EncodeDecode(s: seq<byte>)
    ensures Decode(s) < Limit(|s|) && Encode(Decode(s), |s|) == s
    decreases |s|
  {
    if s != [] {
      EncodeDecode(s[1..]);
    }
  }

  /** Reading the reversed bytes least significant first is reading them most significant first. */
  lemma {:induction false} DecodeReverse(s: seq<byte>)
    ensures Decode(Reverse(s)) == Big(s)
    decreases |s|
  {
    if s != [] {
      var n := |s| - 1;
      assert Reverse(s)[0] == s[n] && Reverse(s)[1..] == Reverse(s[..n]);
      DecodeReverse(s[..n]);
    }
  }

  /** The bytes of a swapped integer are the integer in network order. */
  lemma SwappedIsBig(x: nat, n: nat)
    requires x < Limit(n)
    ensures ByteSwap(x, n) < Limit(n)
    ensures Big(Encode(ByteSwap(x, n), n)) == x
  {
    var s := Encode(x, n);
    EncodeDecode(Reverse(s));
    DecodeReverse(Reverse(s));
    ReversedTwice(s);
    DecodeEncode(x, n);
  }

  /** Loading n bytes and swapping gives their value in network order; storing it swapped gives
      the bytes back. */
  lemma LoadedIsBig(s: seq<byte>)
    ensures ByteSwap(Decode(s), |s|) == Big(s) < Limit(|s|)
    ensures Encode(ByteSwap(Big(s), |s|), |s|) == s
  {
    EncodeDecode(s);
    DecodeReverse(s);
    EncodeDecode(Reverse(s));
    ReversedTwice(s);
  }

  lemma ReversedTwice(s: seq<byte>)
    ensures Reverse(Reverse(s)) == s
  {
  }

  lemma Limits()
    ensures Limit(2) == 0x1_0000 && Limit(4) == 0x1_0000_0000
    ensures Limit(8) == 0x1_0000_0000_0000_0000
  {
    assert Limit(4) == 256 * (256 * Limit(2));
    assert Limit(8) == 256 * (256 * (256 * (256 * Limit(4))));
  }

  // ---------------------------------------------------------------------------------------
  // The format

  datatype Fields = Fields(ip: u32, port: u16, sq: u32, node: u32, firstUnid: u64, blockSize: u32)

  /** A buffer holds the fields when each of them, in network order, fills its range. */
  predicate Holds(buf: seq<byte>, f: Fields) {
    && |buf| == BUF_SIZE
    && Big(buf[IP_OFFSET..PORT_OFFSET]) == f.ip
    && Big(buf[PORT_OFFSET..SEQ_OFFSET]) == f.port
    && Big(buf[SEQ_OFFSET..NODE_OFFSET]) == f.sq
    && Big(buf[NODE_OFFSET..FIRST_UNID_OFFSET]) == f.node
    && Big(buf[FIRST_UNID_OFFSET..BLOCK_SIZE_OFFSET]) == f.firstUnid
    && Big(buf[BLOCK_SIZE_OFFSET..BUF_SIZE]) == f.blockSize
  }

  lemma BigTwo(s: seq<byte>)
    requires |s| == 2
    ensures Big(s) == s[0] as int * 0x100 + s[1]
  {
    var head := s[..1];
    assert Big(head[..0]) == 0 && Big(head) == 256 * Big(head[..0]) + head[0];
    assert Big(s) == 256 * Big(head) + s[1];
  }

  lemma BigFour(s: seq<byte>)
    requires |s| == 4
    ensures Big(s) == s[0] as int * 0x100_0000 + s[1] as int * 0x1_0000 + s[2] as int * 0x100 + s[3]
  {
    assert s[..3][..2] == s[..2];
    BigTwo(s[..2]);
    assert Big(s[..3]) == 256 * Big(s[..2]) + s[2];
  }

  lemma BigEight(s: seq<byte>)
    requires |s| == 8
    ensures Big(s) == (s[0] as int * 0x100_0000 + s[1] as int * 0x1_0000 + s[2] as int * 0x100 + s[3]) * 0x1_0000_0000
                      + s[4] as int * 0x100_0000 + s[5] as int * 0x1_0000 + s[6] as int * 0x100 + s[7]
  {
    BigFour(s[..4]);
    assert s[..5][..4] == s[..4] && s[..6][..5] == s[..5] && s[..7][..6] == s[..6];
    assert Big(s[..5]) == 256 * Big(s[..4]) + s[4];
    assert Big(s[..6]) == 256 * Big(s[..5]) + s[5];
    assert Big(s[..7]) == 256 * Big(s[..6]) + s[6];
  }

  /** The format byte by byte. */
  lemma HoldsExact(buf: seq<byte>, f: Fields)
    requires |buf| == 26
    ensures Holds(buf, f) <==>
      && f.ip == buf[0] as int * 0x100_0000 + buf[1] as int * 0x1_0000 + buf[2] as int * 0x100 + buf[3]
      && f.port == buf[4] as int * 0x100 + buf[5]
      && f.sq == buf[6] as int * 0x100_0000 + buf[7] as int * 0x1_0000 + buf[8] as int * 0x100 + buf[9]
      && f.node == buf[10] as int * 0x100_0000 + buf[11] as int * 0x1_0000 + buf[12] as int * 0x100 + buf[13]
      && f.firstUnid == (buf[14] as int * 0x100_0000 + buf[15] as int * 0x1_0000
                         + buf[16] as int * 0x100 + buf[17]) * 0x1_0000_0000
                        + buf[18] as int * 0x100_0000 + buf[19] as int * 0x1_0000 + buf[20] as int * 0x100 + buf[21]
      && f.blockSize == buf[22] as int * 0x100_0000 + buf[23] as int * 0x1_0000 + buf[24] as int * 0x100 + buf[25]
  {
    BigFour(buf[0..4]);
    BigTwo(buf[4..6]);
    BigFour(buf[6..10]);
    BigFour(buf[10..14]);
    BigEight(buf[14..22]);
    BigFour(buf[22..26]);
  }

  lemma BigInjective(s: seq<byte>, t: seq<byte>)
    requires |s| == |t| && Big(s) == Big(t)
    ensures s == t
  {
    LoadedIsBig(s);
    LoadedIsBig(t);
  }

  /** The ranges tile the buffer: the fields determine every byte of it. */
  lemma HoldsDetermines(buf: seq<byte>, buf': seq<byte>, f: Fields)
    requires Holds(buf, f) && Holds(buf', f)
    ensures buf == buf'
  {
    BigInjective(buf[IP_OFFSET..PORT_OFFSET], buf'[IP_OFFSET..PORT_OFFSET]);
    BigInjective(buf[PORT_OFFSET..SEQ_OFFSET], buf'[PORT_OFFSET..SEQ_OFFSET]);
    BigInjective(buf[SEQ_OFFSET..NODE_OFFSET], buf'[SEQ_OFFSET..NODE_OFFSET]);
    BigInjective(buf[NODE_OFFSET..FIRST_UNID_OFFSET], buf'[NODE_OFFSET..FIRST_UNID_OFFSET]);
    BigInjective(buf[FIRST_UNID_OFFSET..BLOCK_SIZE_OFFSET], buf'[FIRST_UNID_OFFSET..BLOCK_SIZE_OFFSET]);
    BigInjective(buf[BLOCK_SIZE_OFFSET..BUF_SIZE], buf'[BLOCK_SIZE_OFFSET..BUF_SIZE]);
    Tiles(buf);
    Tiles(buf');
  }

  lemma Tiles(buf: seq<byte>)
    requires |buf| == BUF_SIZE
    ensures buf == buf[IP_OFFSET..PORT_OFFSET] + buf[PORT_OFFSET..SEQ_OFFSET] + buf[SEQ_OFFSET..NODE_OFFSET]
                 + buf[NODE_OFFSET..FIRST_UNID_OFFSET] + buf[FIRST_UNID_OFFSET..BLOCK_SIZE_OFFSET]
                 + buf[BLOCK_SIZE_OFFSET..BUF_SIZE]
  {
  }

  /** Six fields one after the other are each in their own range. */
  lemma Assembled(a: seq<byte>, b: seq<byte>, c: seq<byte>, d: seq<byte>, e: seq<byte>, f: seq<byte>)
    requires |a| == 4 && |b| == 2 && |c| == 4 && |d| == 4 && |e| == 8 && |f| == 4
    ensures var buf := a + b + c + d + e + f;
            && |buf| == BUF_SIZE
            && buf[IP_OFFSET..PORT_OFFSET] == a && buf[PORT_OFFSET..SEQ_OFFSET] == b
            && buf[SEQ_OFFSET..NODE_OFFSET] == c && buf[NODE_OFFSET..FIRST_UNID_OFFSET] == d
            && buf[FIRST_UNID_OFFSET..BLOCK_SIZE_OFFSET] == e && buf[BLOCK_SIZE_OFFSET..BUF_SIZE] == f
  {
  }

  // ---------------------------------------------------------------------------------------
  // The program

  /** One field as it is written: swapped, then taken apart by the little-endian host. */
  function Swapped(x: nat, n: nat): (s: seq<byte>)
    requires x < Limit(n)
    ensures |s| == n && Big(s) == x
  {
    SwappedIsBig(x, n);
    Encode(ByteSwap(x, n), n)
  }

  /** One field as it is read: copied into a little-endian integer, then swapped. */
  function Read(s: seq<byte>): (x: nat)
    ensures x == Big(s) < Limit(|s|)
  {
    LoadedIsBig(s);
    ByteSwap(Decode(s), |s|)
  }

  /** `std::copy` of a field into the buffer; returns where the next one goes. */
  method Copy(src: seq<byte>, dst: array<byte>, at: nat) returns (next: nat)
    requires at + |src| <= dst.Length
    modifies dst
    ensures next == at + |src|
    ensures dst[..next] == old(dst[..at]) + src
    ensures dst[next..] == old(dst[next..])
  {
    for i := 0 to |src|
      invariant dst[..at + i] == old(dst[..at]) + src[..i]
      invariant dst[at + |src|..] == old(dst[at + |src|..])
    {
      dst[at + i] := src[i];
    }
    next := at + |src|;
  }

  method Concatenate(a: seq<byte>, b: seq<byte>, c: seq<byte>, d: seq<byte>, e: seq<byte>, f: seq<byte>)
    returns (result: array<byte>)
    requires |a| + |b| + |c| + |d| + |e| + |f| == BUF_SIZE
    ensures fresh(result) && result[..] == a + b + c + d + e + f
  {
    result := new byte[BUF_SIZE];
    var it := Copy(a, result, 0);
    assert result[..it] == a;
    it := Copy(b, result, it);
    it := Copy(c, result, it);
    it := Copy(d, result, it);
    it := Copy(e, result, it);
    it := Copy(f, result, it);
    assert result[..it] == result[..];
  }

  class Block {
    var ip: u32
    var port: u16
    var sq: u32
    var node: u32
    var firstUnid: u64
    var blockSize: u32

    ghost function View(): Fields
      reads this
    {
      Fields(ip, port, sq, node, firstUnid, blockSize)
    }

    constructor (f: Fields)
      ensures View() == f
    {
      ip, port, sq, node, firstUnid, blockSize := f.ip, f.port, f.sq, f.node, f.firstUnid, f.blockSize;
    }

    method Serialize() returns (buf: array<byte>)
      ensures fresh(buf) && Holds(buf[..], View())
    {
      Limits();
      var ipArr, portArr, seqArr := Swapped(ip, 4), Swapped(port, 2), Swapped(sq, 4);
      var nodeArr, firstUnidArr, blockSizeArr := Swapped(node, 4), Swapped(firstUnid, 8), Swapped(blockSize, 4);
      buf := Concatenate(ipArr, portArr, seqArr, nodeArr, firstUnidArr, blockSizeArr);
      Assembled(ipArr, portArr, seqArr, nodeArr, firstUnidArr, blockSizeArr);
    }

    /** A buffer of the wrong size is refused, with the block unchanged. */
    method Deserialize(buf: array<byte>) returns (ok: bool)
      modifies this
      ensures ok <==> buf.Length == BUF_SIZE
      ensures if ok then Holds(buf[..], View()) else View() == old(View())
    {
      if buf.Length != BUF_SIZE {
        return false;
      }
      Limits();
      ip := Read(buf[IP_OFFSET..IP_OFFSET + 4]);
      port := Read(buf[PORT_OFFSET..PORT_OFFSET + 2]);
      sq := Read(buf[SEQ_OFFSET..SEQ_OFFSET + 4]);
      node := Read(buf[NODE_OFFSET..NODE_OFFSET + 4]);
      firstUnid := Read(buf[FIRST_UNID_OFFSET..FIRST_UNID_OFFSET + 8]);
      blockSize := Read(buf[BLOCK_SIZE_OFFSET..BLOCK_SIZE_OFFSET + 4]);
      ok := true;
    }
  }

  /** Reading back what was written restores the block. */
  method WriteThenRead(f: Fields) returns (g: Fields)
    ensures g == f
  {
    var b := new Block(f);
    var buf := b.Serialize();
    var c := new Block(Fields(0, 0, 0, 0, 0, 0));
    var ok := c.Deserialize(buf);
    g := Fields(c.ip, c.port, c.sq, c.node, c.firstUnid, c.blockSize);
  }

  /** Writing what was read restores the buffer, whatever it held. */
  method ReadThenWrite(buf: array<byte>) returns (out: array<byte>)
    requires buf.Length == BUF_SIZE
    ensures out[..] == buf[..]
  {
    var b := new Block(Fields(0, 0, 0, 0, 0, 0));
    var ok := b.Deserialize(buf);
    out := b.Serialize();
    HoldsDetermines(buf[..], out[..], b.View());
  }
}
