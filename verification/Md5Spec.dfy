/** MD5 as RFC 1321 describes it: padding, one compression per block, little-endian words. */
module Md5Spec {
  import opened Collections

  /** How far a word is rotated. */
  type Amount = n: nat | 0 < n < 32 witness 1

  const TWO_32 := 0x1_0000_0000

  /** A number that fits a word. */
  type Number = n: nat | n < TWO_32

  /** What the algorithm asks of its words: what is said of blocks and streams holds for any. */
  datatype Words<!W> = Words(
    f: (W, W, W) -> W,
    g: (W, W, W) -> W,
    h: (W, W, W) -> W,
    i: (W, W, W) -> W,
    plus: (W, W) -> W,
    rotate: (W, Amount) -> W,
    of: Number -> W,
    byte: (W, nat) -> Byte,                        // byte 0 to 3, the lowest first
    join: (Byte, Byte, Byte, Byte) -> W)

  // --------------------------------------------------------- words of 32 bits

  function F(x: bv32, y: bv32, z: bv32): bv32 { (x & y) | (!x & z) }

  function G(x: bv32, y: bv32, z: bv32): bv32 { (x & z) | (y & !z) }

  function H(x: bv32, y: bv32, z: bv32): bv32 { x ^ y ^ z }

  function I(x: bv32, y: bv32, z: bv32): bv32 { y ^ (x | !z) }

  function RotateLeft(x: bv32, n: Amount): bv32 {
    (x << n) | (x >> (32 - n))
  }

  function Plus(x: bv32, y: bv32): bv32 { x + y }

  function Of(n: Number): bv32 { n as bv32 }

  function ByteOf(w: bv32, k: nat): Byte {
    if k == 0 then (w & 0xff) as Byte
    else if k == 1 then ((w >> 8) & 0xff) as Byte
    else if k == 2 then ((w >> 16) & 0xff) as Byte
    else ((w >> 24) & 0xff) as Byte
  }

  function WordOf(b0: Byte, b1: Byte, b2: Byte, b3: Byte): bv32 {
    (b0 as bv32) | ((b1 as bv32) << 8) | ((b2 as bv32) << 16) | ((b3 as bv32) << 24)
  }

  /** The words of RFC 1321, where addition is modulo 2^32. */
  const UINT4 := Words(F, G, H, I, Plus, RotateLeft, Of, ByteOf, WordOf)

  // ----------------------------------------------- words and bytes (section 2)

  function Encoded<W>(w: Words<W>, ws: seq<W>): (r: seq<Byte>)
    ensures |r| == 4 * |ws|
  {
    seq(4 * |ws|, j requires 0 <= j < 4 * |ws| => w.byte(ws[j / 4], j % 4))
  }

  function Decoded<W>(w: Words<W>, bs: seq<Byte>): (r: seq<W>)
    requires |bs| % 4 == 0
    ensures |r| == |bs| / 4
  {
    seq(|bs| / 4, i requires 0 <= i < |bs| / 4 => w.join(bs[4 * i], bs[4 * i + 1], bs[4 * i + 2], bs[4 * i + 3]))
  }

  lemma {:induction false} EncodedAt<W>(w: Words<W>, ws: seq<W>, i: nat)
    requires i < |ws|
    ensures var r := Encoded(w, ws);
            && r[4 * i] == w.byte(ws[i], 0) && r[4 * i + 1] == w.byte(ws[i], 1)
            && r[4 * i + 2] == w.byte(ws[i], 2) && r[4 * i + 3] == w.byte(ws[i], 3)
  {
    assert (4 * i + 1) / 4 == i && (4 * i + 2) / 4 == i && (4 * i + 3) / 4 == i;
  }

  lemma {:induction false} WordOfBytes(x: bv32)
    ensures WordOf(ByteOf(x, 0), ByteOf(x, 1), ByteOf(x, 2), ByteOf(x, 3)) == x
  {
  }

  lemma {:induction false} BytesOfWord(b0: Byte, b1: Byte, b2: Byte, b3: Byte)
    ensures var x := WordOf(b0, b1, b2, b3);
            ByteOf(x, 0) == b0 && ByteOf(x, 1) == b1 && ByteOf(x, 2) == b2 && ByteOf(x, 3) == b3
  {
  }

  ghost predicate Splits<W>(w: Words<W>, x: W, b0: Byte, b1: Byte, b2: Byte, b3: Byte) {
    w.byte(x, 0) == b0 && w.byte(x, 1) == b1 && w.byte(x, 2) == b2 && w.byte(x, 3) == b3
  }

  /** Splitting a word into bytes and joining four bytes undo each other. */
  ghost predicate Joins<W(!new)>(w: Words<W>) {
    && (forall x: W :: w.join(w.byte(x, 0), w.byte(x, 1), w.byte(x, 2), w.byte(x, 3)) == x)
    && (forall b0, b1, b2, b3 {:trigger w.join(b0, b1, b2, b3)} :: Splits(w, w.join(b0, b1, b2, b3), b0, b1, b2, b3))
  }

  lemma {:induction false} Uint4Joins()
    ensures Joins(UINT4)
  {
    forall x: bv32
      ensures UINT4.join(UINT4.byte(x, 0), UINT4.byte(x, 1), UINT4.byte(x, 2), UINT4.byte(x, 3)) == x
    {
      WordOfBytes(x);
    }
    forall b0, b1, b2, b3
      ensures Splits(UINT4, UINT4.join(b0, b1, b2, b3), b0, b1, b2, b3)
    {
      BytesOfWord(b0, b1, b2, b3);
    }
  }

  /** Decode undoes Encode. */
  lemma {:induction false} DecodeEncoded<W(!new)>(w: Words<W>, ws: seq<W>)
    requires Joins(w)
    ensures Decoded(w, Encoded(w, ws)) == ws
  {
    forall i | 0 <= i < |ws|
      ensures Decoded(w, Encoded(w, ws))[i] == ws[i]
    {
      EncodedAt(w, ws, i);
    }
  }

  lemma {:induction false} EncodeDecodedAt<W(!new)>(w: Words<W>, bs: seq<Byte>, i: nat)
    requires Joins(w) && |bs| % 4 == 0 && 4 * i < |bs|
    ensures var r := Encoded(w, Decoded(w, bs));
            && r[4 * i] == bs[4 * i] && r[4 * i + 1] == bs[4 * i + 1]
            && r[4 * i + 2] == bs[4 * i + 2] && r[4 * i + 3] == bs[4 * i + 3]
  {
    EncodedAt(w, Decoded(w, bs), i);
    var b0, b1, b2, b3 := bs[4 * i], bs[4 * i + 1], bs[4 * i + 2], bs[4 * i + 3];
    assert Decoded(w, bs)[i] == w.join(b0, b1, b2, b3) && Splits(w, w.join(b0, b1, b2, b3), b0, b1, b2, b3);
  }

  /** Encode undoes Decode. */
  lemma {:induction false} EncodeDecoded<W(!new)>(w: Words<W>, bs: seq<Byte>)
    requires Joins(w) && |bs| % 4 == 0
    ensures Encoded(w, Decoded(w, bs)) == bs
  {
    forall j | 0 <= j < |bs|
      ensures Encoded(w, Decoded(w, bs))[j] == bs[j]
    {
      var i := j / 4;
      EncodeDecodedAt(w, bs, i);
      if j % 4 == 0 {
        assert j == 4 * i;
      } else if j % 4 == 1 {
        assert j == 4 * i + 1;
      } else if j % 4 == 2 {
        assert j == 4 * i + 2;
      } else {
        assert j == 4 * i + 3;
      }
    }
  }

  lemma {:induction false} CodecInverse(ws: seq<bv32>, bs: seq<Byte>)
    requires |bs| % 4 == 0
    ensures Decoded(UINT4, Encoded(UINT4, ws)) == ws && Encoded(UINT4, Decoded(UINT4, bs)) == bs
  {
    Uint4Joins();
    DecodeEncoded(UINT4, ws);
    EncodeDecoded(UINT4, bs);
  }

  // ------------------------------------------------- one block (section 3.4)

  /** The four registers. */
  datatype Regs<W> = Regs(a: W, b: W, c: W, d: W)

  /** What FF, GG, HH and II share, for the value `f` of their function. */
  function Mixed<W>(w: Words<W>, a: W, b: W, f: W, x: W, s: Amount, ac: Number): W {
    w.plus(w.rotate(w.plus(a, w.plus(w.plus(f, x), w.of(ac))), s), b)
  }

  /** Which word of the block turn `i` adds. */
  function Index(i: nat): (k: nat)
    requires i < 64
    ensures k < 16
  {
    if i < 16 then i else if i < 32 then (5 * i + 1) % 16 else if i < 48 then (3 * i + 5) % 16 else 7 * i % 16
  }

  function Pick(i: nat, s0: Amount, s1: Amount, s2: Amount, s3: Amount): Amount {
    if i % 4 == 0 then s0 else if i % 4 == 1 then s1 else if i % 4 == 2 then s2 else s3
  }

  function Shift(i: nat): Amount
    requires i < 64
  {
    if i < 16 then Pick(i, 7, 12, 17, 22)
    else if i < 32 then Pick(i, 5, 9, 14, 20)
    else if i < 48 then Pick(i, 4, 11, 16, 23)
    else Pick(i, 6, 10, 15, 21)
  }

  /** The integer part of 4294967296 times abs(sin(i + 1)), in radians. */
  function Sine(i: nat): Number
    requires i < 64
  {
    match i
    case 0 => 0xd76aa478 case 1 => 0xe8c7b756 case 2 => 0x242070db case 3 => 0xc1bdceee
    case 4 => 0xf57c0faf case 5 => 0x4787c62a case 6 => 0xa8304613 case 7 => 0xfd469501
    case 8 => 0x698098d8 case 9 => 0x8b44f7af case 10 => 0xffff5bb1 case 11 => 0x895cd7be
    case 12 => 0x6b901122 case 13 => 0xfd987193 case 14 => 0xa679438e case 15 => 0x49b40821
    case 16 => 0xf61e2562 case 17 => 0xc040b340 case 18 => 0x265e5a51 case 19 => 0xe9b6c7aa
    case 20 => 0xd62f105d case 21 => 0x2441453 case 22 => 0xd8a1e681 case 23 => 0xe7d3fbc8
    case 24 => 0x21e1cde6 case 25 => 0xc33707d6 case 26 => 0xf4d50d87 case 27 => 0x455a14ed
    case 28 => 0xa9e3e905 case 29 => 0xfcefa3f8 case 30 => 0x676f02d9 case 31 => 0x8d2a4c8a
    case 32 => 0xfffa3942 case 33 => 0x8771f681 case 34 => 0x6d9d6122 case 35 => 0xfde5380c
    case 36 => 0xa4beea44 case 37 => 0x4bdecfa9 case 38 => 0xf6bb4b60 case 39 => 0xbebfbc70
    case 40 => 0x289b7ec6 case 41 => 0xeaa127fa case 42 => 0xd4ef3085 case 43 => 0x4881d05
    case 44 => 0xd9d4d039 case 45 => 0xe6db99e5 case 46 => 0x1fa27cf8 case 47 => 0xc4ac5665
    case 48 => 0xf4292244 case 49 => 0x432aff97 case 50 => 0xab9423a7 case 51 => 0xfc93a039
    case 52 => 0x655b59c3 case 53 => 0x8f0ccc92 case 54 => 0xffeff47d case 55 => 0x85845dd1
    case 56 => 0x6fa87e4f case 57 => 0xfe2ce6e0 case 58 => 0xa3014314 case 59 => 0x4e0811a1
    case 60 => 0xf7537e82 case 61 => 0xbd3af235 case 62 => 0x2ad7d2bb case 63 => 0xeb86d391
  }

  function Chosen<W>(w: Words<W>, i: nat, x: W, y: W, z: W): W {
    if i < 16 then w.f(x, y, z) else if i < 32 then w.g(x, y, z) else if i < 48 then w.h(x, y, z) else w.i(x, y, z)
  }

  /** One of the 64 turns: the new value goes to register b and the others move up. */
  function Turn<W>(w: Words<W>, r: Regs<W>, x: seq<W>, i: nat): Regs<W>
    requires |x| == 16 && i < 64
  {
    Regs(r.d, Mixed(w, r.a, r.b, Chosen(w, i, r.b, r.c, r.d), x[Index(i)], Shift(i), Sine(i)), r.b, r.c)
  }

  /** Turns `lo` up to `hi`, one after the other. */
  function Turns<W>(w: Words<W>, r: Regs<W>, x: seq<W>, lo: nat, hi: nat): Regs<W>
    requires |x| == 16 && lo <= hi <= 64
    decreases hi - lo, |x|
  {
    if lo == hi then r else Turn(w, Turns(w, r, x, lo, hi - 1), x, hi - 1)
  }

  lemma {:induction false} TurnsJoin<W>(w: Words<W>, r: Regs<W>, x: seq<W>, lo: nat, mid: nat, hi: nat)
    requires |x| == 16 && lo <= mid <= hi <= 64
    ensures Turns(w, Turns(w, r, x, lo, mid), x, mid, hi) == Turns(w, r, x, lo, hi)
    decreases hi - mid
  {
    if mid < hi {
      TurnsJoin(w, r, x, lo, mid, hi - 1);
    }
  }

  function Added<W>(w: Words<W>, r: Regs<W>, t: Regs<W>): Regs<W> {
    Regs(w.plus(r.a, t.a), w.plus(r.b, t.b), w.plus(r.c, t.c), w.plus(r.d, t.d))
  }

  type Block = b: seq<Byte> | |b| == 64 witness seq(64, _ => 0)

  function Compress<W>(w: Words<W>, r: Regs<W>, block: Block): Regs<W> {
    Added(w, r, Turns(w, r, Decoded(w, block), 0, 64))
  }

  // ---------------------------------------------- the message (3.1 to 3.3, 3.5)

  function Initial<W>(w: Words<W>): Regs<W> {
    Regs(w.of(0x67452301), w.of(0xefcdab89), w.of(0x98badcfe), w.of(0x10325476))
  }

  /** What takes one block into the registers, as a value. */
  function Compressor<W>(w: Words<W>): (Regs<W>, Block) -> Regs<W> {
    (r: Regs<W>, block: Block) => Compress(w, r, block)
  }

  /** Every block of a message taken in in turn. */
  function Fold<R>(take: (R, Block) -> R, r: R, msg: seq<Byte>): R
    requires |msg| % 64 == 0
  {
    if msg == [] then r
    else
      var block: seq<Byte> := msg[..64];
      Fold(take, take(r, block), msg[64..])
  }

  /** How many bytes pad a message of `n` bytes out to 56 modulo 64: one at least. */
  function PadLength(n: nat): nat {
    if n % 64 < 56 then 56 - n % 64 else 120 - n % 64
  }

  function Padding(n: nat): (r: seq<Byte>)
    requires 0 < n
    ensures |r| == n
  {
    [0x80] + seq(n - 1, _ => 0)
  }

  /** The length in bits modulo 2^64, as two words, the lower first. */
  function BitCount(n: nat): (Number, Number) {
    (8 * n % TWO_32, 8 * n / TWO_32 % TWO_32)
  }

  function LengthBytes<W>(w: Words<W>, n: nat): (r: seq<Byte>)
    ensures |r| == 8
  {
    Encoded(w, [w.of(BitCount(n).0), w.of(BitCount(n).1)])
  }

  function Padded<W>(w: Words<W>, msg: seq<Byte>): (r: seq<Byte>)
    ensures |r| % 64 == 0
  {
    PaddingIsLeast(|msg|, 1);
    msg + (Padding(PadLength(|msg|)) + LengthBytes(w, |msg|))
  }

  function DigestOf<W>(w: Words<W>, r: Regs<W>): (d: seq<Byte>)
    ensures |d| == 16
  {
    Encoded(w, [r.a, r.b, r.c, r.d])
  }

  function Digest<W>(w: Words<W>, msg: seq<Byte>): (d: seq<Byte>)
    ensures |d| == 16
  {
    DigestOf(w, Fold(Compressor(w), Initial(w), Padded(w, msg)))
  }

  lemma {:induction false} FoldBlock<R>(take: (R, Block) -> R, r: R, msg: seq<Byte>, block: Block)
    requires |msg| % 64 == 0
    ensures Fold(take, r, msg + block) == take(Fold(take, r, msg), block)
  {
    if msg == [] {
      assert msg + block == block && block[..64] == block && block[64..] == [];
    } else {
      assert (msg + block)[..64] == msg[..64] && (msg + block)[64..] == msg[64..] + block;
      FoldBlock(take, take(r, msg[..64]), msg[64..], block);
    }
  }

  /** The padding is the shortest, of one byte at least, that ends at byte 56 of a block; the
      length then fills the block. */
  lemma {:induction false} PaddingIsLeast(n: nat, k: nat)
    ensures 0 < PadLength(n) <= 64 && (n + PadLength(n)) % 64 == 56 && (n + PadLength(n) + 8) % 64 == 0
    ensures 0 < k && (n + k) % 64 == 56 ==> PadLength(n) <= k
  {
  }

  lemma {:induction false} TwoWords(b: nat)
    ensures b % TWO_32 + TWO_32 * (b / TWO_32 % TWO_32) == b % (TWO_32 * TWO_32)
  {
    var q := b / TWO_32;
    assert b == TWO_32 * q + b % TWO_32;
    assert q == TWO_32 * (q / TWO_32) + q % TWO_32;
    assert b == TWO_32 * TWO_32 * (q / TWO_32) + (TWO_32 * (q % TWO_32) + b % TWO_32);
  }

  lemma {:induction false} LowerWord(n: nat)
    ensures 8 * n % TWO_32 == 8 * (n % 0x2000_0000)
  {
    assert n == 0x2000_0000 * (n / 0x2000_0000) + n % 0x2000_0000;
    assert 8 * n == TWO_32 * (n / 0x2000_0000) + 8 * (n % 0x2000_0000);
  }

  lemma {:induction false} BytesModulo(n: nat)
    ensures n % 0x2000_0000 % 64 == n % 64
  {
    var q, r := n / 0x2000_0000, n % 0x2000_0000;
    assert n == 0x2000_0000 * q + r && r == 64 * (r / 64) + r % 64;
    assert n == 64 * (0x80_0000 * q + r / 64) + r % 64;
  }

  /** The two words hold the length in bits modulo 2^64, and the lower word alone the number of
      bytes modulo 64. */
  lemma {:induction false} BitCountMeaning(n: nat)
    ensures BitCount(n).0 + TWO_32 * BitCount(n).1 == 8 * n % (TWO_32 * TWO_32)
    ensures BitCount(n).0 / 8 % 64 == n % 64
  {
    TwoWords(8 * n);
    LowerWord(n);
    BytesModulo(n);
  }

  /** Adding modulo 2^32: the carry shows in the sum being less than what was added. */
  lemma {:induction false} Carry(b: nat, l: nat)
    ensures var lo := (b % TWO_32 + l % TWO_32) % TWO_32;
            && lo == (b + l) % TWO_32
            && (b + l) / TWO_32 == b / TWO_32 + l / TWO_32 + (if lo < l % TWO_32 then 1 else 0)
  {
    var x, y := b % TWO_32, l % TWO_32;
    assert b == TWO_32 * (b / TWO_32) + x && l == TWO_32 * (l / TWO_32) + y;
    var c := if x + y >= TWO_32 then 1 else 0;
    assert (x + y) % TWO_32 == x + y - TWO_32 * c;
    assert b + l == TWO_32 * (b / TWO_32 + l / TWO_32 + c) + (x + y - TWO_32 * c);
  }

  lemma {:induction false} SumModulo(a: nat, b: nat)
    ensures (a % TWO_32 + b) % TWO_32 == (a + b) % TWO_32
  {
    assert a == TWO_32 * (a / TWO_32) + a % TWO_32;
    assert a + b == TWO_32 * (a / TWO_32) + (a % TWO_32 + b);
  }

  /** Adding a length to the two words as MD5Update does, with the carry found by comparison. */
  lemma {:induction false} CountAdd(n: nat, len: nat, lo: nat, hi: nat)
    requires len < TWO_32
    requires lo == (BitCount(n).0 + 8 * len % TWO_32) % TWO_32
    requires hi == (BitCount(n).1 + (if lo < 8 * len % TWO_32 then 1 else 0) + len / 0x2000_0000) % TWO_32
    ensures (lo, hi) == BitCount(n + len)
  {
    Carry(8 * n, 8 * len);
    assert 8 * len / TWO_32 == len / 0x2000_0000;
    SumModulo(8 * n / TWO_32, (if lo < 8 * len % TWO_32 then 1 else 0) + len / 0x2000_0000);
    assert 8 * (n + len) == 8 * n + 8 * len;
  }
}
