/** Values of the test suite in RFC 1321, appendix A.5: a message of one block and one of two. */
module Md5Suite {
  import opened Collections
  import opened Md5Spec

  // --------------------------------------------------------------- padded blocks

  /** Byte `j` of a padded message, before the length. */
  function ByteAt(msg: seq<Byte>, j: nat): Byte {
    if j < |msg| then msg[j] else if j == |msg| then 0x80 else 0
  }

  function PaddedLength(n: nat): nat {
    n + PadLength(n) + 8
  }

  lemma {:induction false} PaddedAt<W>(w: Words<W>, msg: seq<Byte>)
    ensures var p := Padded(w, msg);
            && |p| == PaddedLength(|msg|) && p[|p| - 8..] == LengthBytes(w, |msg|)
            && forall j :: 0 <= j < |p| - 8 ==> p[j] == ByteAt(msg, j)
  {
    var front := msg + Padding(PadLength(|msg|));
    assert Padded(w, msg) == front + LengthBytes(w, |msg|);
    assert forall j :: 0 <= j < |front| ==> front[j] == ByteAt(msg, j);
  }

  /** Block `n` of a padded message. */
  function BlockOf<W>(w: Words<W>, msg: seq<Byte>, n: nat): (b: seq<Byte>)
    requires 64 * n + 64 <= PaddedLength(|msg|)
    ensures |b| == 64
  {
    PaddedAt(w, msg);
    Padded(w, msg)[64 * n..64 * n + 64]
  }

  function WordsOf<W>(w: Words<W>, msg: seq<Byte>, n: nat): (x: seq<W>)
    requires 64 * n + 64 <= PaddedLength(|msg|)
    ensures |x| == 16
  {
    Decoded(w, BlockOf(w, msg, n))
  }

  lemma {:induction false} WordAt<W>(w: Words<W>, msg: seq<Byte>, n: nat, k: nat)
    requires 64 * n + 64 <= PaddedLength(|msg|) && k < 16 && 64 * n + 4 * k + 12 <= PaddedLength(|msg|)
    ensures var j := 64 * n + 4 * k;
            WordsOf(w, msg, n)[k] == w.join(ByteAt(msg, j), ByteAt(msg, j + 1), ByteAt(msg, j + 2), ByteAt(msg, j + 3))
  {
    PaddedAt(w, msg);
  }

  lemma {:induction false} DecodedTail<W>(w: Words<W>, bs: seq<Byte>)
    requires |bs| == 64
    ensures Decoded(w, bs)[14..] == Decoded(w, bs[56..])
  {
  }

  lemma {:induction false} SmallCount(len: nat, n: Number)
    requires n == 8 * len
    ensures BitCount(len) == (n, 0)
  {
  }

  lemma {:induction false} LastBytes<W>(w: Words<W>, msg: seq<Byte>, n: nat)
    requires 64 * n + 64 == PaddedLength(|msg|)
    ensures BlockOf(w, msg, n)[56..] == LengthBytes(w, |msg|)
  {
    PaddedAt(w, msg);
  }

  /** The last two words of the last block hold the length in bits. */
  lemma {:induction false} LengthWords<W>(w: Words<W>, msg: seq<Byte>, n: nat, bits: Number)
    requires 64 * n + 64 == PaddedLength(|msg|) && bits == 8 * |msg|
    requires Decoded(w, Encoded(w, [w.of(bits), w.of(0)])) == [w.of(bits), w.of(0)]
    ensures WordsOf(w, msg, n)[14] == w.of(bits) && WordsOf(w, msg, n)[15] == w.of(0)
  {
    LastBytes(w, msg, n);
    SmallCount(|msg|, bits);
    DecodedTail(w, BlockOf(w, msg, n));
    var x := WordsOf(w, msg, n);
    assert x[14] == x[14..][0] && x[15] == x[14..][1];
  }

  lemma {:induction false} OneBlock<W>(w: Words<W>, msg: seq<Byte>)
    requires PaddedLength(|msg|) == 64
    ensures Digest(w, msg) == DigestOf(w, Compress(w, Initial(w), BlockOf(w, msg, 0)))
  {
    PaddedAt(w, msg);
    var b := BlockOf(w, msg, 0);
    FoldBlock(Compressor(w), Initial(w), [], b);
    assert [] + b == b == Padded(w, msg);
  }

  lemma {:induction false} FoldTwo<R>(take: (R, Block) -> R, r: R, b: Block, c: Block)
    ensures Fold(take, r, b + c) == take(take(r, b), c)
  {
    FoldBlock(take, r, [], b);
    FoldBlock(take, r, b, c);
    assert [] + b == b;
  }

  lemma {:induction false} TwoBlocks<W>(w: Words<W>, msg: seq<Byte>)
    requires PaddedLength(|msg|) == 128
    ensures Digest(w, msg)
         == DigestOf(w, Compress(w, Compress(w, Initial(w), BlockOf(w, msg, 0)), BlockOf(w, msg, 1)))
  {
    PaddedAt(w, msg);
    var b, c := BlockOf(w, msg, 0), BlockOf(w, msg, 1);
    FoldTwo(Compressor(w), Initial(w), b, c);
    assert b + c == Padded(w, msg);
  }

  function Bytes<W>(w: Words<W>, x: W): seq<Byte> {
    [w.byte(x, 0), w.byte(x, 1), w.byte(x, 2), w.byte(x, 3)]
  }

  lemma {:induction false} OneWord<W>(w: Words<W>, ws: seq<W>, i: nat)
    requires i < |ws|
    ensures Encoded(w, ws)[4 * i..4 * i + 4] == Bytes(w, ws[i])
  {
    EncodedAt(w, ws, i);
  }

  lemma {:induction false} FourParts(d: seq<Byte>)
    requires |d| == 16
    ensures d == d[..4] + d[4..8] + d[8..12] + d[12..]
  {
  }

  lemma {:induction false} FourWords<W>(w: Words<W>, r: Regs<W>)
    ensures DigestOf(w, r) == Bytes(w, r.a) + Bytes(w, r.b) + Bytes(w, r.c) + Bytes(w, r.d)
  {
    var ws := [r.a, r.b, r.c, r.d];
    OneWord(w, ws, 0);
    OneWord(w, ws, 1);
    OneWord(w, ws, 2);
    OneWord(w, ws, 3);
    FourParts(Encoded(w, ws));
  }

  // --------------------------------------------------------------- turn by turn

  ghost predicate IsRun(once: Once, t: nat -> Regs<bv32>, x: seq<bv32>) {
    match once
    case Only => |x| == 16 && forall i: nat :: i <= 64 ==> t(i) == Turns(UINT4, t(0), x, 0, i)
  }

  /** What the registers hold before each turn of a block. Opened where that is used. */
  ghost predicate Run(t: nat -> Regs<bv32>, x: seq<bv32>) {
    forall once: Once :: IsRun(once, t, x)
  }

  ghost predicate At(t: nat -> Regs<bv32>, i: nat, a: bv32, b: bv32, c: bv32, d: bv32) {
    t(i) == Regs(a, b, c, d)
  }

  /** How far a word is rotated, as the shifts take it. */
  type Places = s: bv6 | 0 < s < 32 witness 1

  function Rotated(t: bv32, s: Places): bv32 { (t << s) | (t >> (32 - s)) }

  predicate IsOne(i: nat, s: Places, s0: Places, s1: Places, s2: Places, s3: Places) {
    if i % 4 == 0 then s == s0 else if i % 4 == 1 then s == s1 else if i % 4 == 2 then s == s2 else s == s3
  }

  predicate RotatesBy(i: nat, s: Places) {
    if i < 16 then IsOne(i, s, 7, 12, 17, 22)
    else if i < 32 then IsOne(i, s, 5, 9, 14, 20)
    else if i < 48 then IsOne(i, s, 4, 11, 16, 23)
    else IsOne(i, s, 6, 10, 15, 21)
  }

  lemma {:induction false} RotatedF(t: bv32)
    ensures RotateLeft(t, 7) == Rotated(t, 7) && RotateLeft(t, 12) == Rotated(t, 12)
    ensures RotateLeft(t, 17) == Rotated(t, 17) && RotateLeft(t, 22) == Rotated(t, 22)
  {
  }

  lemma {:induction false} RotatedG(t: bv32)
    ensures RotateLeft(t, 5) == Rotated(t, 5) && RotateLeft(t, 9) == Rotated(t, 9)
    ensures RotateLeft(t, 14) == Rotated(t, 14) && RotateLeft(t, 20) == Rotated(t, 20)
  {
  }

  lemma {:induction false} RotatedH(t: bv32)
    ensures RotateLeft(t, 4) == Rotated(t, 4) && RotateLeft(t, 11) == Rotated(t, 11)
    ensures RotateLeft(t, 16) == Rotated(t, 16) && RotateLeft(t, 23) == Rotated(t, 23)
  {
  }

  lemma {:induction false} RotatedI(t: bv32)
    ensures RotateLeft(t, 6) == Rotated(t, 6) && RotateLeft(t, 10) == Rotated(t, 10)
    ensures RotateLeft(t, 15) == Rotated(t, 15) && RotateLeft(t, 21) == Rotated(t, 21)
  {
  }

  lemma {:induction false} RotatedBy(t: bv32, i: nat, s: Places)
    requires i < 64 && RotatesBy(i, s)
    ensures RotateLeft(t, Shift(i)) == Rotated(t, s)
  {
    if i < 16 {
      RotatedF(t);
    } else if i < 32 {
      RotatedG(t);
    } else if i < 48 {
      RotatedH(t);
    } else {
      RotatedI(t);
    }
  }

  /** What a turn puts into register b, for the value `f` of its function. */
  function Next(f: bv32, a: bv32, b: bv32, x: bv32, s: Places, k: bv32): bv32 {
    Plus(Rotated(Plus(a, Plus(Plus(f, x), k)), s), b)
  }

  lemma {:induction false} MixedNext(f: bv32, a: bv32, b: bv32, x: bv32, i: nat, s: Places)
    requires i < 64 && RotatesBy(i, s)
    ensures Mixed(UINT4, a, b, f, x, Shift(i), Sine(i)) == Next(f, a, b, x, s, Of(Sine(i)))
  {
    RotatedBy(Plus(a, Plus(Plus(f, x), Of(Sine(i)))), i, s);
  }

  lemma {:induction false} OfNumber(k: bv32)
    ensures Of(k as nat) == k
  {
  }

  /** The constant of turn `i` is `k`. */
  predicate FConstant(i: nat, k: bv32) {
    match i
    case 0 => k == 0xd76aa478 case 1 => k == 0xe8c7b756 case 2 => k == 0x242070db case 3 => k == 0xc1bdceee
    case 4 => k == 0xf57c0faf case 5 => k == 0x4787c62a case 6 => k == 0xa8304613 case 7 => k == 0xfd469501
    case 8 => k == 0x698098d8 case 9 => k == 0x8b44f7af case 10 => k == 0xffff5bb1 case 11 => k == 0x895cd7be
    case 12 => k == 0x6b901122 case 13 => k == 0xfd987193 case 14 => k == 0xa679438e case _ => k == 0x49b40821
  }

  lemma {:induction false} FConstantIs(i: nat, k: bv32)
    requires 0 <= i < 16 && FConstant(i, k)
    ensures Sine(i) == k as nat
  {
  }

  predicate GConstant(i: nat, k: bv32) {
    match i
    case 16 => k == 0xf61e2562 case 17 => k == 0xc040b340 case 18 => k == 0x265e5a51 case 19 => k == 0xe9b6c7aa
    case 20 => k == 0xd62f105d case 21 => k == 0x2441453 case 22 => k == 0xd8a1e681 case 23 => k == 0xe7d3fbc8
    case 24 => k == 0x21e1cde6 case 25 => k == 0xc33707d6 case 26 => k == 0xf4d50d87 case 27 => k == 0x455a14ed
    case 28 => k == 0xa9e3e905 case 29 => k == 0xfcefa3f8 case 30 => k == 0x676f02d9 case _ => k == 0x8d2a4c8a
  }

  lemma {:induction false} GConstantIs(i: nat, k: bv32)
    requires 16 <= i < 32 && GConstant(i, k)
    ensures Sine(i) == k as nat
  {
  }

  predicate HConstant(i: nat, k: bv32) {
    match i
    case 32 => k == 0xfffa3942 case 33 => k == 0x8771f681 case 34 => k == 0x6d9d6122 case 35 => k == 0xfde5380c
    case 36 => k == 0xa4beea44 case 37 => k == 0x4bdecfa9 case 38 => k == 0xf6bb4b60 case 39 => k == 0xbebfbc70
    case 40 => k == 0x289b7ec6 case 41 => k == 0xeaa127fa case 42 => k == 0xd4ef3085 case 43 => k == 0x4881d05
    case 44 => k == 0xd9d4d039 case 45 => k == 0xe6db99e5 case 46 => k == 0x1fa27cf8 case _ => k == 0xc4ac5665
  }

  lemma {:induction false} HConstantIs(i: nat, k: bv32)
    requires 32 <= i < 48 && HConstant(i, k)
    ensures Sine(i) == k as nat
  {
  }

  predicate IConstant(i: nat, k: bv32) {
    match i
    case 48 => k == 0xf4292244 case 49 => k == 0x432aff97 case 50 => k == 0xab9423a7 case 51 => k == 0xfc93a039
    case 52 => k == 0x655b59c3 case 53 => k == 0x8f0ccc92 case 54 => k == 0xffeff47d case 55 => k == 0x85845dd1
    case 56 => k == 0x6fa87e4f case 57 => k == 0xfe2ce6e0 case 58 => k == 0xa3014314 case 59 => k == 0x4e0811a1
    case 60 => k == 0xf7537e82 case 61 => k == 0xbd3af235 case 62 => k == 0x2ad7d2bb case _ => k == 0xeb86d391
  }

  lemma {:induction false} IConstantIs(i: nat, k: bv32)
    requires 48 <= i < 64 && IConstant(i, k)
    ensures Sine(i) == k as nat
  {
  }

  lemma {:induction false} TurnOf<W>(w: Words<W>, r: Regs<W>, x: seq<W>, i: nat, f: W, v: W)
    requires |x| == 16 && i < 64 && f == Chosen(w, i, r.b, r.c, r.d)
    requires v == Mixed(w, r.a, r.b, f, x[Index(i)], Shift(i), Sine(i))
    ensures Turn(w, r, x, i) == Regs(r.d, v, r.b, r.c)
  {
  }

  lemma {:induction false} OneTurn(t: nat -> Regs<bv32>, x: seq<bv32>, i: nat, a: bv32, b: bv32, c: bv32, d: bv32,
                                   f: bv32, s: Places, v: bv32)
    requires Run(t, x) && At(t, i, a, b, c, d) && |x| == 16 && i < 64 && f == Chosen(UINT4, i, b, c, d)
    requires RotatesBy(i, s)
    requires v == Next(f, a, b, x[Index(i)], s, Of(Sine(i)))
    ensures At(t, i + 1, d, v, b, c)
  {
    assert IsRun(Only, t, x);
    MixedNext(f, a, b, x[Index(i)], i, s);
    TurnOf(UINT4, Regs(a, b, c, d), x, i, f, v);
  }

  lemma {:induction false} FTurn(t: nat -> Regs<bv32>, x: seq<bv32>, i: nat, a: bv32, b: bv32, c: bv32, d: bv32,
                                 xk: bv32, s: Places, k: bv32, v: bv32)
    requires Run(t, x) && At(t, i, a, b, c, d) && |x| == 16 && 0 <= i < 16
    requires x[Index(i)] == xk && RotatesBy(i, s) && FConstant(i, k)
    requires v == Next(F(b, c, d), a, b, xk, s, k)
    ensures At(t, i + 1, d, v, b, c)
  {
    FConstantIs(i, k);
    OfNumber(k);
    OneTurn(t, x, i, a, b, c, d, F(b, c, d), s, v);
  }

  lemma {:induction false} GTurn(t: nat -> Regs<bv32>, x: seq<bv32>, i: nat, a: bv32, b: bv32, c: bv32, d: bv32,
                                 xk: bv32, s: Places, k: bv32, v: bv32)
    requires Run(t, x) && At(t, i, a, b, c, d) && |x| == 16 && 16 <= i < 32
    requires x[Index(i)] == xk && RotatesBy(i, s) && GConstant(i, k)
    requires v == Next(G(b, c, d), a, b, xk, s, k)
    ensures At(t, i + 1, d, v, b, c)
  {
    GConstantIs(i, k);
    OfNumber(k);
    OneTurn(t, x, i, a, b, c, d, G(b, c, d), s, v);
  }

  lemma {:induction false} HTurn(t: nat -> Regs<bv32>, x: seq<bv32>, i: nat, a: bv32, b: bv32, c: bv32, d: bv32,
                                 xk: bv32, s: Places, k: bv32, v: bv32)
    requires Run(t, x) && At(t, i, a, b, c, d) && |x| == 16 && 32 <= i < 48
    requires x[Index(i)] == xk && RotatesBy(i, s) && HConstant(i, k)
    requires v == Next(H(b, c, d), a, b, xk, s, k)
    ensures At(t, i + 1, d, v, b, c)
  {
    HConstantIs(i, k);
    OfNumber(k);
    OneTurn(t, x, i, a, b, c, d, H(b, c, d), s, v);
  }

  lemma {:induction false} ITurn(t: nat -> Regs<bv32>, x: seq<bv32>, i: nat, a: bv32, b: bv32, c: bv32, d: bv32,
                                 xk: bv32, s: Places, k: bv32, v: bv32)
    requires Run(t, x) && At(t, i, a, b, c, d) && |x| == 16 && 48 <= i < 64
    requires x[Index(i)] == xk && RotatesBy(i, s) && IConstant(i, k)
    requires v == Next(I(b, c, d), a, b, xk, s, k)
    ensures At(t, i + 1, d, v, b, c)
  {
    IConstantIs(i, k);
    OfNumber(k);
    OneTurn(t, x, i, a, b, c, d, I(b, c, d), s, v);
  }

  lemma {:induction false} InitialIs()
    ensures Initial(UINT4) == Regs(0x67452301, 0xefcdab89, 0x98badcfe, 0x10325476)
  {
    OfNumber(0x67452301);
    OfNumber(0xefcdab89);
    OfNumber(0x98badcfe);
    OfNumber(0x10325476);
  }

  function RunFrom(r: Regs<bv32>, x: seq<bv32>): nat -> Regs<bv32>
    requires |x| == 16
  {
    (i: nat) => Turns(UINT4, r, x, 0, if i <= 64 then i else 64)
  }

  lemma {:induction false} RunBegins(r: Regs<bv32>, x: seq<bv32>)
    requires |x| == 16
    ensures RunFrom(r, x)(0) == r
  {
    assert Turns(UINT4, r, x, 0, 0) == r;
    var t := RunFrom(r, x);
    assert t(0) == Turns(UINT4, r, x, 0, 0);
  }

  lemma {:induction false} RunStarts(r: Regs<bv32>, x: seq<bv32>)
    requires |x| == 16
    ensures Run(RunFrom(r, x), x) && At(RunFrom(r, x), 0, r.a, r.b, r.c, r.d)
  {
    RunBegins(r, x);
  }

  /** What a block does to the registers, from what its turns lead to. */
  lemma {:induction false} Compressed(r: Regs<bv32>, block: Block, a: bv32, b: bv32, c: bv32, d: bv32)
    requires |Decoded(UINT4, block)| == 16 && At(RunFrom(r, Decoded(UINT4, block)), 64, a, b, c, d)
    ensures Compress(UINT4, r, block) == Regs(Plus(r.a, a), Plus(r.b, b), Plus(r.c, c), Plus(r.d, d))
  {
  }

  lemma {:induction false} LoadedWord(msg: seq<Byte>, n: nat, k: nat, b0: Byte, b1: Byte, b2: Byte, b3: Byte, v: bv32)
    requires 64 * n + 64 <= PaddedLength(|msg|) && k < 16 && 64 * n + 4 * k + 12 <= PaddedLength(|msg|)
    requires WordOf(b0, b1, b2, b3) == v
    requires var j := 64 * n + 4 * k;
             && ByteAt(msg, j) == b0 && ByteAt(msg, j + 1) == b1
             && ByteAt(msg, j + 2) == b2 && ByteAt(msg, j + 3) == b3
    ensures WordsOf(UINT4, msg, n)[k] == v
  {
    WordAt(UINT4, msg, n, k);
  }

  lemma {:induction false} OfBits(k: bv32)
    ensures UINT4.of(k as nat) == k
  {
    OfNumber(k);
  }

  lemma {:induction false} LoadedLength(msg: seq<Byte>, n: nat, bits: bv32)
    requires 64 * n + 64 == PaddedLength(|msg|) && bits as nat == 8 * |msg|
    ensures WordsOf(UINT4, msg, n)[14] == bits && WordsOf(UINT4, msg, n)[15] == 0
  {
    OfBits(bits);
    OfBits(0);
    CodecInverse([bits, 0], []);
    LengthWords(UINT4, msg, n, bits as nat);
  }

  lemma {:induction false} Spelled(v: bv32, b0: Byte, b1: Byte, b2: Byte, b3: Byte)
    requires ByteOf(v, 0) == b0 && ByteOf(v, 1) == b1 && ByteOf(v, 2) == b2 && ByteOf(v, 3) == b3
    ensures Bytes(UINT4, v) == [b0, b1, b2, b3]
  {
  }

  // ------------------------------------------------------------------------ abc

  ghost predicate AbcWords(x: seq<bv32>) {
    |x| == 16 && x[0] == 0x80636261 && x[14] == 24 && forall k :: 0 < k < 16 && k != 14 ==> x[k] == 0
  }

  lemma {:induction false} Abc1(t: nat -> Regs<bv32>, x: seq<bv32>)
    requires Run(t, x) && AbcWords(x) && At(t, 0, 0x67452301, 0xefcdab89, 0x98badcfe, 0x10325476)
    ensures At(t, 8, 0xc73741ef, 0x928d99f6, 0x207dc67b, 0x8bac3051)
  {
    FTurn(t, x, 0, 0x67452301, 0xefcdab89, 0x98badcfe, 0x10325476, 0x80636261, 7, 0xd76aa478, 0xd6d117b4);
    FTurn(t, x, 1, 0x10325476, 0xd6d117b4, 0xefcdab89, 0x98badcfe, 0x0, 12, 0xe8c7b756, 0x344a8432);
    FTurn(t, x, 2, 0x98badcfe, 0x344a8432, 0xd6d117b4, 0xefcdab89, 0x0, 17, 0x242070db, 0x2f6fbd72);
    FTurn(t, x, 3, 0xefcdab89, 0x2f6fbd72, 0x344a8432, 0xd6d117b4, 0x0, 22, 0xc1bdceee, 0x7ad956f2);
    FTurn(t, x, 4, 0xd6d117b4, 0x7ad956f2, 0x2f6fbd72, 0x344a8432, 0x0, 7, 0xf57c0faf, 0xc73741ef);
    FTurn(t, x, 5, 0x344a8432, 0xc73741ef, 0x7ad956f2, 0x2f6fbd72, 0x0, 12, 0x4787c62a, 0x8bac3051);
    FTurn(t, x, 6, 0x2f6fbd72, 0x8bac3051, 0xc73741ef, 0x7ad956f2, 0x0, 17, 0xa8304613, 0x207dc67b);
    FTurn(t, x, 7, 0x7ad956f2, 0x207dc67b, 0x8bac3051, 0xc73741ef, 0x0, 22, 0xfd469501, 0x928d99f6);
  }

  lemma {:induction false} Abc2(t: nat -> Regs<bv32>, x: seq<bv32>)
    requires Run(t, x) && AbcWords(x) && At(t, 8, 0xc73741ef, 0x928d99f6, 0x207dc67b, 0x8bac3051)
    ensures At(t, 16, 0xdda9b9a6, 0x72aff2e0, 0xe396856b, 0xa1051895)
  {
    FTurn(t, x, 8, 0xc73741ef, 0x928d99f6, 0x207dc67b, 0x8bac3051, 0x0, 7, 0x698098d8, 0x854b3712);
    FTurn(t, x, 9, 0x8bac3051, 0x854b3712, 0x928d99f6, 0x207dc67b, 0x0, 12, 0x8b44f7af, 0x74e2f284);
    FTurn(t, x, 10, 0x207dc67b, 0x74e2f284, 0x854b3712, 0x928d99f6, 0x0, 17, 0xffff5bb1, 0x3020401c);
    FTurn(t, x, 11, 0x928d99f6, 0x3020401c, 0x74e2f284, 0x854b3712, 0x0, 22, 0x895cd7be, 0x5ed49596);
    FTurn(t, x, 12, 0x854b3712, 0x5ed49596, 0x3020401c, 0x74e2f284, 0x0, 7, 0x6b901122, 0xdda9b9a6);
    FTurn(t, x, 13, 0x74e2f284, 0xdda9b9a6, 0x5ed49596, 0x3020401c, 0x0, 12, 0xfd987193, 0xa1051895);
    FTurn(t, x, 14, 0x3020401c, 0xa1051895, 0xdda9b9a6, 0x5ed49596, 0x18, 17, 0xa679438e, 0xe396856b);
    FTurn(t, x, 15, 0x5ed49596, 0xe396856b, 0xa1051895, 0xdda9b9a6, 0x0, 22, 0x49b40821, 0x72aff2e0);
  }

  lemma {:induction false} Abc3(t: nat -> Regs<bv32>, x: seq<bv32>)
    requires Run(t, x) && AbcWords(x) && At(t, 16, 0xdda9b9a6, 0x72aff2e0, 0xe396856b, 0xa1051895)
    ensures At(t, 24, 0x59a8ffda, 0x47092c07, 0xabfc7920, 0x6d002f1e)
  {
    GTurn(t, x, 16, 0xdda9b9a6, 0x72aff2e0, 0xe396856b, 0xa1051895, 0x0, 5, 0xf61e2562, 0x3e9e9126);
    GTurn(t, x, 17, 0xa1051895, 0x3e9e9126, 0x72aff2e0, 0xe396856b, 0x0, 9, 0xc040b340, 0x4a1d804e);
    GTurn(t, x, 18, 0xe396856b, 0x4a1d804e, 0x3e9e9126, 0x72aff2e0, 0x0, 14, 0x265e5a51, 0xe25e1652);
    GTurn(t, x, 19, 0x72aff2e0, 0xe25e1652, 0x4a1d804e, 0x3e9e9126, 0x80636261, 20, 0xe9b6c7aa, 0xb5b204e4);
    GTurn(t, x, 20, 0x3e9e9126, 0xb5b204e4, 0xe25e1652, 0x4a1d804e, 0x0, 5, 0xd62f105d, 0x59a8ffda);
    GTurn(t, x, 21, 0x4a1d804e, 0x59a8ffda, 0xb5b204e4, 0xe25e1652, 0x0, 9, 0x2441453, 0x6d002f1e);
    GTurn(t, x, 22, 0xe25e1652, 0x6d002f1e, 0x59a8ffda, 0xb5b204e4, 0x0, 14, 0xd8a1e681, 0xabfc7920);
    GTurn(t, x, 23, 0xb5b204e4, 0xabfc7920, 0x6d002f1e, 0x59a8ffda, 0x0, 20, 0xe7d3fbc8, 0x47092c07);
  }

  lemma {:induction false} Abc4(t: nat -> Regs<bv32>, x: seq<bv32>)
    requires Run(t, x) && AbcWords(x) && At(t, 24, 0x59a8ffda, 0x47092c07, 0xabfc7920, 0x6d002f1e)
    ensures At(t, 32, 0x790a77fb, 0x726342d3, 0xa62884aa, 0x9f47e4f8)
  {
    GTurn(t, x, 24, 0x59a8ffda, 0x47092c07, 0xabfc7920, 0x6d002f1e, 0x0, 5, 0x21e1cde6, 0xb7f268cf);
    GTurn(t, x, 25, 0x6d002f1e, 0xb7f268cf, 0x47092c07, 0xabfc7920, 0x18, 9, 0xc33707d6, 0x9388eff);
    GTurn(t, x, 26, 0xabfc7920, 0x9388eff, 0xb7f268cf, 0x47092c07, 0x0, 14, 0xf4d50d87, 0xfe1623b1);
    GTurn(t, x, 27, 0x47092c07, 0xfe1623b1, 0x9388eff, 0xb7f268cf, 0x0, 20, 0x455a14ed, 0x786acb8f);
    GTurn(t, x, 28, 0xb7f268cf, 0x786acb8f, 0xfe1623b1, 0x9388eff, 0x0, 5, 0xa9e3e905, 0x790a77fb);
    GTurn(t, x, 29, 0x9388eff, 0x790a77fb, 0x786acb8f, 0xfe1623b1, 0x0, 9, 0xfcefa3f8, 0x9f47e4f8);
    GTurn(t, x, 30, 0xfe1623b1, 0x9f47e4f8, 0x790a77fb, 0x786acb8f, 0x0, 14, 0x676f02d9, 0xa62884aa);
    GTurn(t, x, 31, 0x786acb8f, 0xa62884aa, 0x9f47e4f8, 0x790a77fb, 0x0, 20, 0x8d2a4c8a, 0x726342d3);
  }

  lemma {:induction false} Abc5(t: nat -> Regs<bv32>, x: seq<bv32>)
    requires Run(t, x) && AbcWords(x) && At(t, 32, 0x790a77fb, 0x726342d3, 0xa62884aa, 0x9f47e4f8)
    ensures At(t, 40, 0x21b117b9, 0x5a2f5ea5, 0x3575227e, 0x6e7429d5)
  {
    HTurn(t, x, 32, 0x790a77fb, 0x726342d3, 0xa62884aa, 0x9f47e4f8, 0x0, 4, 0xfffa3942, 0xb3707ebf);
    HTurn(t, x, 33, 0x9f47e4f8, 0xb3707ebf, 0x726342d3, 0xa62884aa, 0x0, 11, 0x8771f681, 0x60127b2e);
    HTurn(t, x, 34, 0xa62884aa, 0x60127b2e, 0xb3707ebf, 0x726342d3, 0x0, 16, 0x6d9d6122, 0x8d212ff5);
    HTurn(t, x, 35, 0x726342d3, 0x8d212ff5, 0x60127b2e, 0xb3707ebf, 0x18, 23, 0xfde5380c, 0x3b0875c7);
    HTurn(t, x, 36, 0xb3707ebf, 0x3b0875c7, 0x8d212ff5, 0x60127b2e, 0x0, 4, 0xa4beea44, 0x21b117b9);
    HTurn(t, x, 37, 0x60127b2e, 0x21b117b9, 0x3b0875c7, 0x8d212ff5, 0x0, 11, 0x4bdecfa9, 0x6e7429d5);
    HTurn(t, x, 38, 0x8d212ff5, 0x6e7429d5, 0x21b117b9, 0x3b0875c7, 0x0, 16, 0xf6bb4b60, 0x3575227e);
    HTurn(t, x, 39, 0x3b0875c7, 0x3575227e, 0x6e7429d5, 0x21b117b9, 0x0, 23, 0xbebfbc70, 0x5a2f5ea5);
  }

  lemma {:induction false} Abc6(t: nat -> Regs<bv32>, x: seq<bv32>)
    requires Run(t, x) && AbcWords(x) && At(t, 40, 0x21b117b9, 0x5a2f5ea5, 0x3575227e, 0x6e7429d5)
    ensures At(t, 48, 0x7f2e507b, 0x7beb9700, 0x8fae6399, 0x99d9679d)
  {
    HTurn(t, x, 40, 0x21b117b9, 0x5a2f5ea5, 0x3575227e, 0x6e7429d5, 0x0, 4, 0x289b7ec6, 0x11de1779);
    HTurn(t, x, 41, 0x6e7429d5, 0x11de1779, 0x5a2f5ea5, 0x3575227e, 0x80636261, 11, 0xeaa127fa, 0xfadcaa38);
    HTurn(t, x, 42, 0x3575227e, 0xfadcaa38, 0x11de1779, 0x5a2f5ea5, 0x0, 16, 0xd4ef3085, 0x31c465ca);
    HTurn(t, x, 43, 0x5a2f5ea5, 0x31c465ca, 0xfadcaa38, 0x11de1779, 0x0, 23, 0x4881d05, 0x4c6124f4);
    HTurn(t, x, 44, 0x11de1779, 0x4c6124f4, 0x31c465ca, 0xfadcaa38, 0x0, 4, 0xd9d4d039, 0x7f2e507b);
    HTurn(t, x, 45, 0xfadcaa38, 0x7f2e507b, 0x4c6124f4, 0x31c465ca, 0x0, 11, 0xe6db99e5, 0x99d9679d);
    HTurn(t, x, 46, 0x31c465ca, 0x99d9679d, 0x7f2e507b, 0x4c6124f4, 0x0, 16, 0x1fa27cf8, 0x8fae6399);
    HTurn(t, x, 47, 0x4c6124f4, 0x8fae6399, 0x99d9679d, 0x7f2e507b, 0x0, 23, 0xc4ac5665, 0x7beb9700);
  }

  lemma {:induction false} Abc7(t: nat -> Regs<bv32>, x: seq<bv32>)
    requires Run(t, x) && AbcWords(x) && At(t, 48, 0x7f2e507b, 0x7beb9700, 0x8fae6399, 0x99d9679d)
    ensures At(t, 56, 0x6cc5e8a, 0x3bfa2c27, 0x7d632dd0, 0x5b0d97aa)
  {
    ITurn(t, x, 48, 0x7f2e507b, 0x7beb9700, 0x8fae6399, 0x99d9679d, 0x80636261, 6, 0xf4292244, 0x7b201df8);
    ITurn(t, x, 49, 0x99d9679d, 0x7b201df8, 0x7beb9700, 0x8fae6399, 0x0, 10, 0x432aff97, 0xf4e8e96e);
    ITurn(t, x, 50, 0x8fae6399, 0xf4e8e96e, 0x7b201df8, 0x7beb9700, 0x18, 15, 0xab9423a7, 0xb298cefd);
    ITurn(t, x, 51, 0x7beb9700, 0xb298cefd, 0xf4e8e96e, 0x7b201df8, 0x0, 21, 0xfc93a039, 0x8bf025c4);
    ITurn(t, x, 52, 0x7b201df8, 0x8bf025c4, 0xb298cefd, 0xf4e8e96e, 0x0, 6, 0x655b59c3, 0x6cc5e8a);
    ITurn(t, x, 53, 0xf4e8e96e, 0x6cc5e8a, 0x8bf025c4, 0xb298cefd, 0x0, 10, 0x8f0ccc92, 0x5b0d97aa);
    ITurn(t, x, 54, 0xb298cefd, 0x5b0d97aa, 0x6cc5e8a, 0x8bf025c4, 0x0, 15, 0xffeff47d, 0x7d632dd0);
    ITurn(t, x, 55, 0x8bf025c4, 0x7d632dd0, 0x5b0d97aa, 0x6cc5e8a, 0x0, 21, 0x85845dd1, 0x3bfa2c27);
  }

  lemma {:induction false} Abc8(t: nat -> Regs<bv32>, x: seq<bv32>)
    requires Run(t, x) && AbcWords(x) && At(t, 56, 0x6cc5e8a, 0x3bfa2c27, 0x7d632dd0, 0x5b0d97aa)
    ensures At(t, 64, 0x310ade8f, 0xc08226b3, 0xe484b9d8, 0x624d8cb2)
  {
    ITurn(t, x, 56, 0x6cc5e8a, 0x3bfa2c27, 0x7d632dd0, 0x5b0d97aa, 0x0, 6, 0x6fa87e4f, 0x7f81cc35);
    ITurn(t, x, 57, 0x5b0d97aa, 0x7f81cc35, 0x3bfa2c27, 0x7d632dd0, 0x0, 10, 0xfe2ce6e0, 0x94454ab);
    ITurn(t, x, 58, 0x7d632dd0, 0x94454ab, 0x7f81cc35, 0x3bfa2c27, 0x0, 15, 0xa3014314, 0x4f9dbe3f);
    ITurn(t, x, 59, 0x3bfa2c27, 0x4f9dbe3f, 0x94454ab, 0x7f81cc35, 0x0, 21, 0x4e0811a1, 0x7327d604);
    ITurn(t, x, 60, 0x7f81cc35, 0x7327d604, 0x4f9dbe3f, 0x94454ab, 0x0, 6, 0xf7537e82, 0x310ade8f);
    ITurn(t, x, 61, 0x94454ab, 0x310ade8f, 0x7327d604, 0x4f9dbe3f, 0x0, 10, 0xbd3af235, 0x624d8cb2);
    ITurn(t, x, 62, 0x4f9dbe3f, 0x624d8cb2, 0x310ade8f, 0x7327d604, 0x0, 15, 0x2ad7d2bb, 0xe484b9d8);
    ITurn(t, x, 63, 0x7327d604, 0xe484b9d8, 0x624d8cb2, 0x310ade8f, 0x0, 21, 0xeb86d391, 0xc08226b3);
  }

  lemma {:induction false} AbcTurns(x: seq<bv32>)
    requires AbcWords(x)
    ensures At(RunFrom(Regs(0x67452301, 0xefcdab89, 0x98badcfe, 0x10325476), x), 64,
               0x310ade8f, 0xc08226b3, 0xe484b9d8, 0x624d8cb2)
  {
    RunStarts(Regs(0x67452301, 0xefcdab89, 0x98badcfe, 0x10325476), x);
    var t := RunFrom(Regs(0x67452301, 0xefcdab89, 0x98badcfe, 0x10325476), x);
    Abc1(t, x);
    Abc2(t, x);
    Abc3(t, x);
    Abc4(t, x);
    Abc5(t, x);
    Abc6(t, x);
    Abc7(t, x);
    Abc8(t, x);
  }

  lemma {:induction false} AbcSums()
    ensures Plus(0x67452301, 0x310ade8f) == 0x98500190 && Plus(0xefcdab89, 0xc08226b3) == 0xb04fd23c
    ensures Plus(0x98badcfe, 0xe484b9d8) == 0x7d3f96d6 && Plus(0x10325476, 0x624d8cb2) == 0x727fe128
  {
  }

  lemma {:induction false} AbcBlock(block: Block)
    requires AbcWords(Decoded(UINT4, block))
    ensures Compress(UINT4, Regs(0x67452301, 0xefcdab89, 0x98badcfe, 0x10325476), block)
         == Regs(0x98500190, 0xb04fd23c, 0x7d3f96d6, 0x727fe128)
  {
    AbcTurns(Decoded(UINT4, block));
    AbcSums();
    Compressed(Regs(0x67452301, 0xefcdab89, 0x98badcfe, 0x10325476), block,
               0x310ade8f, 0xc08226b3, 0xe484b9d8, 0x624d8cb2);
  }

  lemma {:induction false} AbcLoaded()
    ensures AbcWords(WordsOf(UINT4, [0x61, 0x62, 0x63], 0))
  {
    var msg: seq<Byte> := [0x61, 0x62, 0x63];
    LoadedLength(msg, 0, 24);
    LoadedWord(msg, 0, 0, 0x61, 0x62, 0x63, 0x80, 0x80636261);
    forall k | 0 < k < 14
      ensures WordsOf(UINT4, msg, 0)[k] == 0
    {
      LoadedWord(msg, 0, k, 0, 0, 0, 0, 0);
    }
  }

  lemma {:induction false} AbcBytes()
    ensures DigestOf(UINT4, Regs(0x98500190, 0xb04fd23c, 0x7d3f96d6, 0x727fe128))
         == [0x90, 0x01, 0x50, 0x98] + [0x3c, 0xd2, 0x4f, 0xb0]
          + [0xd6, 0x96, 0x3f, 0x7d] + [0x28, 0xe1, 0x7f, 0x72]
  {
    Spelled(0x98500190, 0x90, 0x01, 0x50, 0x98);
    Spelled(0xb04fd23c, 0x3c, 0xd2, 0x4f, 0xb0);
    Spelled(0x7d3f96d6, 0xd6, 0x96, 0x3f, 0x7d);
    Spelled(0x727fe128, 0x28, 0xe1, 0x7f, 0x72);
    FourWords(UINT4, Regs(0x98500190, 0xb04fd23c, 0x7d3f96d6, 0x727fe128));
  }

  /** The digest of "abc". */
  lemma {:induction false} AbcDigest()
    ensures Digest(UINT4, [0x61, 0x62, 0x63])
         == [0x90, 0x01, 0x50, 0x98] + [0x3c, 0xd2, 0x4f, 0xb0]
          + [0xd6, 0x96, 0x3f, 0x7d] + [0x28, 0xe1, 0x7f, 0x72]
  {
    AbcLoaded();
    OneBlock(UINT4, [0x61, 0x62, 0x63]);
    InitialIs();
    AbcBlock(BlockOf(UINT4, [0x61, 0x62, 0x63], 0));
    AbcBytes();
  }

  // -------------------------------------------------- eight times the ten digits

  ghost predicate FirstWords(x: seq<bv32>) {
    && |x| == 16
    && x[0] == 0x34333231 && x[1] == 0x38373635 && x[2] == 0x32313039 && x[3] == 0x36353433
    && x[4] == 0x30393837 && x[5] == 0x34333231 && x[6] == 0x38373635 && x[7] == 0x32313039
    && x[8] == 0x36353433 && x[9] == 0x30393837 && x[10] == 0x34333231 && x[11] == 0x38373635
    && x[12] == 0x32313039 && x[13] == 0x36353433 && x[14] == 0x30393837 && x[15] == 0x34333231
  }

  lemma {:induction false} First1(t: nat -> Regs<bv32>, x: seq<bv32>)
    requires Run(t, x) && FirstWords(x) && At(t, 0, 0x67452301, 0xefcdab89, 0x98badcfe, 0x10325476)
    ensures At(t, 8, 0x8c17de9f, 0xc57e78c1, 0xe99fec1b, 0xc0f32d81)
  {
    FTurn(t, x, 0, 0x67452301, 0xefcdab89, 0x98badcfe, 0x10325476, 0x34333231, 7, 0xd76aa478, 0xbeb8ff8e);
    FTurn(t, x, 1, 0x10325476, 0xbeb8ff8e, 0xefcdab89, 0x98badcfe, 0x38373635, 12, 0xe8c7b756, 0x7d989d89);
    FTurn(t, x, 2, 0x98badcfe, 0x7d989d89, 0xbeb8ff8e, 0xefcdab89, 0x32313039, 17, 0x242070db, 0xf8cdf95d);
    FTurn(t, x, 3, 0xefcdab89, 0xf8cdf95d, 0x7d989d89, 0xbeb8ff8e, 0x36353433, 22, 0xc1bdceee, 0x862797b0);
    FTurn(t, x, 4, 0xbeb8ff8e, 0x862797b0, 0xf8cdf95d, 0x7d989d89, 0x30393837, 7, 0xf57c0faf, 0x8c17de9f);
    FTurn(t, x, 5, 0x7d989d89, 0x8c17de9f, 0x862797b0, 0xf8cdf95d, 0x34333231, 12, 0x4787c62a, 0xc0f32d81);
    FTurn(t, x, 6, 0xf8cdf95d, 0xc0f32d81, 0x8c17de9f, 0x862797b0, 0x38373635, 17, 0xa8304613, 0xe99fec1b);
    FTurn(t, x, 7, 0x862797b0, 0xe99fec1b, 0xc0f32d81, 0x8c17de9f, 0x32313039, 22, 0xfd469501, 0xc57e78c1);
  }

  lemma {:induction false} First2(t: nat -> Regs<bv32>, x: seq<bv32>)
    requires Run(t, x) && FirstWords(x) && At(t, 8, 0x8c17de9f, 0xc57e78c1, 0xe99fec1b, 0xc0f32d81)
    ensures At(t, 16, 0x5157e49e, 0xaf506a03, 0x27e983a0, 0xffac907e)
  {
    FTurn(t, x, 8, 0x8c17de9f, 0xc57e78c1, 0xe99fec1b, 0xc0f32d81, 0x36353433, 7, 0x698098d8, 0x7c0aceb7);
    FTurn(t, x, 9, 0xc0f32d81, 0x7c0aceb7, 0xc57e78c1, 0xe99fec1b, 0x30393837, 12, 0x8b44f7af, 0x8869d2d8);
    FTurn(t, x, 10, 0xe99fec1b, 0x8869d2d8, 0x7c0aceb7, 0xc57e78c1, 0x34333231, 17, 0xffff5bb1, 0x5186a8ba);
    FTurn(t, x, 11, 0xc57e78c1, 0x5186a8ba, 0x8869d2d8, 0x7c0aceb7, 0x38373635, 22, 0x895cd7be, 0xa5f36f8d);
    FTurn(t, x, 12, 0x7c0aceb7, 0xa5f36f8d, 0x5186a8ba, 0x8869d2d8, 0x32313039, 7, 0x6b901122, 0x5157e49e);
    FTurn(t, x, 13, 0x8869d2d8, 0x5157e49e, 0xa5f36f8d, 0x5186a8ba, 0x36353433, 12, 0xfd987193, 0xffac907e);
    FTurn(t, x, 14, 0x5186a8ba, 0xffac907e, 0x5157e49e, 0xa5f36f8d, 0x30393837, 17, 0xa679438e, 0x27e983a0);
    FTurn(t, x, 15, 0xa5f36f8d, 0x27e983a0, 0xffac907e, 0x5157e49e, 0x34333231, 22, 0x49b40821, 0xaf506a03);
  }

  lemma {:induction false} First3(t: nat -> Regs<bv32>, x: seq<bv32>)
    requires Run(t, x) && FirstWords(x) && At(t, 16, 0x5157e49e, 0xaf506a03, 0x27e983a0, 0xffac907e)
    ensures At(t, 24, 0x78929ee0, 0xad400a91, 0xb18aca50, 0x375c6c2c)
  {
    GTurn(t, x, 16, 0x5157e49e, 0xaf506a03, 0x27e983a0, 0xffac907e, 0x38373635, 5, 0xf61e2562, 0x8d18e0e8);
    GTurn(t, x, 17, 0xffac907e, 0x8d18e0e8, 0xaf506a03, 0x27e983a0, 0x38373635, 9, 0xc040b340, 0x7de0df2);
    GTurn(t, x, 18, 0x27e983a0, 0x7de0df2, 0x8d18e0e8, 0xaf506a03, 0x38373635, 14, 0x265e5a51, 0xef223167);
    GTurn(t, x, 19, 0xaf506a03, 0xef223167, 0x7de0df2, 0x8d18e0e8, 0x34333231, 20, 0xe9b6c7aa, 0x4280170);
    GTurn(t, x, 20, 0x8d18e0e8, 0x4280170, 0xef223167, 0x7de0df2, 0x34333231, 5, 0xd62f105d, 0x78929ee0);
    GTurn(t, x, 21, 0x7de0df2, 0x78929ee0, 0x4280170, 0xef223167, 0x34333231, 9, 0x2441453, 0x375c6c2c);
    GTurn(t, x, 22, 0xef223167, 0x375c6c2c, 0x78929ee0, 0x4280170, 0x34333231, 14, 0xd8a1e681, 0xb18aca50);
    GTurn(t, x, 23, 0x4280170, 0xb18aca50, 0x375c6c2c, 0x78929ee0, 0x30393837, 20, 0xe7d3fbc8, 0xad400a91);
  }

  lemma {:induction false} First4(t: nat -> Regs<bv32>, x: seq<bv32>)
    requires Run(t, x) && FirstWords(x) && At(t, 24, 0x78929ee0, 0xad400a91, 0xb18aca50, 0x375c6c2c)
    ensures At(t, 32, 0xf8bcfbb0, 0x1bf25662, 0x99a0f1b8, 0xd760ed39)
  {
    GTurn(t, x, 24, 0x78929ee0, 0xad400a91, 0xb18aca50, 0x375c6c2c, 0x30393837, 5, 0x21e1cde6, 0xbb45f43f);
    GTurn(t, x, 25, 0x375c6c2c, 0xbb45f43f, 0xad400a91, 0xb18aca50, 0x30393837, 9, 0xc33707d6, 0xd61f8a0f);
    GTurn(t, x, 26, 0xb18aca50, 0xd61f8a0f, 0xbb45f43f, 0xad400a91, 0x36353433, 14, 0xf4d50d87, 0x98ade6b5);
    GTurn(t, x, 27, 0xad400a91, 0x98ade6b5, 0xd61f8a0f, 0xbb45f43f, 0x36353433, 20, 0x455a14ed, 0xb70e35a9);
    GTurn(t, x, 28, 0xbb45f43f, 0xb70e35a9, 0x98ade6b5, 0xd61f8a0f, 0x36353433, 5, 0xa9e3e905, 0xf8bcfbb0);
    GTurn(t, x, 29, 0xd61f8a0f, 0xf8bcfbb0, 0xb70e35a9, 0x98ade6b5, 0x32313039, 9, 0xfcefa3f8, 0xd760ed39);
    GTurn(t, x, 30, 0x98ade6b5, 0xd760ed39, 0xf8bcfbb0, 0xb70e35a9, 0x32313039, 14, 0x676f02d9, 0x99a0f1b8);
    GTurn(t, x, 31, 0xb70e35a9, 0x99a0f1b8, 0xd760ed39, 0xf8bcfbb0, 0x32313039, 20, 0x8d2a4c8a, 0x1bf25662);
  }

  lemma {:induction false} First5(t: nat -> Regs<bv32>, x: seq<bv32>)
    requires Run(t, x) && FirstWords(x) && At(t, 32, 0xf8bcfbb0, 0x1bf25662, 0x99a0f1b8, 0xd760ed39)
    ensures At(t, 40, 0x3b32c408, 0x1d4d6f72, 0x9ef871ad, 0x7338d8b7)
  {
    HTurn(t, x, 32, 0xf8bcfbb0, 0x1bf25662, 0x99a0f1b8, 0xd760ed39, 0x34333231, 4, 0xfffa3942, 0x3dbd76ca);
    HTurn(t, x, 33, 0xd760ed39, 0x3dbd76ca, 0x1bf25662, 0x99a0f1b8, 0x36353433, 11, 0x8771f681, 0xfd056171);
    HTurn(t, x, 34, 0x99a0f1b8, 0xfd056171, 0x3dbd76ca, 0x1bf25662, 0x38373635, 16, 0x6d9d6122, 0xc7ed7c30);
    HTurn(t, x, 35, 0x1bf25662, 0xc7ed7c30, 0xfd056171, 0x3dbd76ca, 0x30393837, 23, 0xfde5380c, 0xe0162f49);
    HTurn(t, x, 36, 0x3dbd76ca, 0xe0162f49, 0xc7ed7c30, 0xfd056171, 0x38373635, 4, 0xa4beea44, 0x3b32c408);
    HTurn(t, x, 37, 0xfd056171, 0x3b32c408, 0xe0162f49, 0xc7ed7c30, 0x30393837, 11, 0x4bdecfa9, 0x7338d8b7);
    HTurn(t, x, 38, 0xc7ed7c30, 0x7338d8b7, 0x3b32c408, 0xe0162f49, 0x32313039, 16, 0xf6bb4b60, 0x9ef871ad);
    HTurn(t, x, 39, 0xe0162f49, 0x9ef871ad, 0x7338d8b7, 0x3b32c408, 0x34333231, 23, 0xbebfbc70, 0x1d4d6f72);
  }

  lemma {:induction false} First6(t: nat -> Regs<bv32>, x: seq<bv32>)
    requires Run(t, x) && FirstWords(x) && At(t, 40, 0x3b32c408, 0x1d4d6f72, 0x9ef871ad, 0x7338d8b7)
    ensures At(t, 48, 0x697032ec, 0xdb4197da, 0xefc2c171, 0xfa597bfc)
  {
    HTurn(t, x, 40, 0x3b32c408, 0x1d4d6f72, 0x9ef871ad, 0x7338d8b7, 0x36353433, 4, 0x289b7ec6, 0xc661460a);
    HTurn(t, x, 41, 0x7338d8b7, 0xc661460a, 0x1d4d6f72, 0x9ef871ad, 0x34333231, 11, 0xeaa127fa, 0xd2bf04c9);
    HTurn(t, x, 42, 0x9ef871ad, 0xd2bf04c9, 0xc661460a, 0x1d4d6f72, 0x36353433, 16, 0xd4ef3085, 0xd6d5b879);
    HTurn(t, x, 43, 0x1d4d6f72, 0xd6d5b879, 0xd2bf04c9, 0xc661460a, 0x38373635, 23, 0x4881d05, 0x89e3c4d7);
    HTurn(t, x, 44, 0xc661460a, 0x89e3c4d7, 0xd6d5b879, 0xd2bf04c9, 0x30393837, 4, 0xd9d4d039, 0x697032ec);
    HTurn(t, x, 45, 0xd2bf04c9, 0x697032ec, 0x89e3c4d7, 0xd6d5b879, 0x32313039, 11, 0xe6db99e5, 0xfa597bfc);
    HTurn(t, x, 46, 0xd6d5b879, 0xfa597bfc, 0x697032ec, 0x89e3c4d7, 0x34333231, 16, 0x1fa27cf8, 0xefc2c171);
    HTurn(t, x, 47, 0x89e3c4d7, 0xefc2c171, 0xfa597bfc, 0x697032ec, 0x32313039, 23, 0xc4ac5665, 0xdb4197da);
  }

  lemma {:induction false} First7(t: nat -> Regs<bv32>, x: seq<bv32>)
    requires Run(t, x) && FirstWords(x) && At(t, 48, 0x697032ec, 0xdb4197da, 0xefc2c171, 0xfa597bfc)
    ensures At(t, 56, 0x633d3f7c, 0x7713f5df, 0xccaa1524, 0x1a4d3beb)
  {
    ITurn(t, x, 48, 0x697032ec, 0xdb4197da, 0xefc2c171, 0xfa597bfc, 0x34333231, 6, 0xf4292244, 0x57b91aca);
    ITurn(t, x, 49, 0xfa597bfc, 0x57b91aca, 0xdb4197da, 0xefc2c171, 0x32313039, 10, 0x432aff97, 0x210c9ebc);
    ITurn(t, x, 50, 0xefc2c171, 0x210c9ebc, 0x57b91aca, 0xdb4197da, 0x30393837, 15, 0xab9423a7, 0x21efbd88);
    ITurn(t, x, 51, 0xdb4197da, 0x21efbd88, 0x210c9ebc, 0x57b91aca, 0x34333231, 21, 0xfc93a039, 0xcaa25b01);
    ITurn(t, x, 52, 0x57b91aca, 0xcaa25b01, 0x21efbd88, 0x210c9ebc, 0x32313039, 6, 0x655b59c3, 0x633d3f7c);
    ITurn(t, x, 53, 0x210c9ebc, 0x633d3f7c, 0xcaa25b01, 0x21efbd88, 0x36353433, 10, 0x8f0ccc92, 0x1a4d3beb);
    ITurn(t, x, 54, 0x21efbd88, 0x1a4d3beb, 0x633d3f7c, 0xcaa25b01, 0x34333231, 15, 0xffeff47d, 0xccaa1524);
    ITurn(t, x, 55, 0xcaa25b01, 0xccaa1524, 0x1a4d3beb, 0x633d3f7c, 0x38373635, 21, 0x85845dd1, 0x7713f5df);
  }

  lemma {:induction false} First8(t: nat -> Regs<bv32>, x: seq<bv32>)
    requires Run(t, x) && FirstWords(x) && At(t, 56, 0x633d3f7c, 0x7713f5df, 0xccaa1524, 0x1a4d3beb)
    ensures At(t, 64, 0x614868eb, 0xb4d33102, 0x5133129b, 0xa09f38a7)
  {
    ITurn(t, x, 56, 0x633d3f7c, 0x7713f5df, 0xccaa1524, 0x1a4d3beb, 0x36353433, 6, 0x6fa87e4f, 0x8448b430);
    ITurn(t, x, 57, 0x1a4d3beb, 0x8448b430, 0x7713f5df, 0xccaa1524, 0x34333231, 10, 0xfe2ce6e0, 0x71c93463);
    ITurn(t, x, 58, 0xccaa1524, 0x71c93463, 0x8448b430, 0x7713f5df, 0x38373635, 15, 0xa3014314, 0x7e294727);
    ITurn(t, x, 59, 0x7713f5df, 0x7e294727, 0x71c93463, 0x8448b430, 0x36353433, 21, 0x4e0811a1, 0x660a801d);
    ITurn(t, x, 60, 0x8448b430, 0x660a801d, 0x7e294727, 0x71c93463, 0x30393837, 6, 0xf7537e82, 0x614868eb);
    ITurn(t, x, 61, 0x71c93463, 0x614868eb, 0x660a801d, 0x7e294727, 0x38373635, 10, 0xbd3af235, 0xa09f38a7);
    ITurn(t, x, 62, 0x7e294727, 0xa09f38a7, 0x614868eb, 0x660a801d, 0x32313039, 15, 0x2ad7d2bb, 0x5133129b);
    ITurn(t, x, 63, 0x660a801d, 0x5133129b, 0xa09f38a7, 0x614868eb, 0x30393837, 21, 0xeb86d391, 0xb4d33102);
  }

  lemma {:induction false} FirstTurns(x: seq<bv32>)
    requires FirstWords(x)
    ensures At(RunFrom(Regs(0x67452301, 0xefcdab89, 0x98badcfe, 0x10325476), x), 64,
               0x614868eb, 0xb4d33102, 0x5133129b, 0xa09f38a7)
  {
    RunStarts(Regs(0x67452301, 0xefcdab89, 0x98badcfe, 0x10325476), x);
    var t := RunFrom(Regs(0x67452301, 0xefcdab89, 0x98badcfe, 0x10325476), x);
    First1(t, x);
    First2(t, x);
    First3(t, x);
    First4(t, x);
    First5(t, x);
    First6(t, x);
    First7(t, x);
    First8(t, x);
  }

  lemma {:induction false} FirstSums()
    ensures Plus(0x67452301, 0x614868eb) == 0xc88d8bec && Plus(0xefcdab89, 0xb4d33102) == 0xa4a0dc8b
    ensures Plus(0x98badcfe, 0x5133129b) == 0xe9edef99 && Plus(0x10325476, 0xa09f38a7) == 0xb0d18d1d
  {
  }

  lemma {:induction false} FirstBlock(block: Block)
    requires FirstWords(Decoded(UINT4, block))
    ensures Compress(UINT4, Regs(0x67452301, 0xefcdab89, 0x98badcfe, 0x10325476), block)
         == Regs(0xc88d8bec, 0xa4a0dc8b, 0xe9edef99, 0xb0d18d1d)
  {
    FirstTurns(Decoded(UINT4, block));
    FirstSums();
    Compressed(Regs(0x67452301, 0xefcdab89, 0x98badcfe, 0x10325476), block,
               0x614868eb, 0xb4d33102, 0x5133129b, 0xa09f38a7);
  }

  ghost predicate LastWords(x: seq<bv32>) {
    && |x| == 16
    && x[0] == 0x38373635 && x[1] == 0x32313039 && x[2] == 0x36353433 && x[3] == 0x30393837
    && x[4] == 0x80 && x[5] == 0x0 && x[6] == 0x0 && x[7] == 0x0
    && x[8] == 0x0 && x[9] == 0x0 && x[10] == 0x0 && x[11] == 0x0
    && x[12] == 0x0 && x[13] == 0x0 && x[14] == 0x280 && x[15] == 0x0
  }

  lemma {:induction false} Last1(t: nat -> Regs<bv32>, x: seq<bv32>)
    requires Run(t, x) && LastWords(x) && At(t, 0, 0xc88d8bec, 0xa4a0dc8b, 0xe9edef99, 0xb0d18d1d)
    ensures At(t, 8, 0x3527497e, 0x377c7d0a, 0x948347ae, 0xab92660e)
  {
    FTurn(t, x, 0, 0xc88d8bec, 0xa4a0dc8b, 0xe9edef99, 0xb0d18d1d, 0x38373635, 7, 0xd76aa478, 0x353af7cf);
    FTurn(t, x, 1, 0xb0d18d1d, 0x353af7cf, 0xa4a0dc8b, 0xe9edef99, 0x32313039, 12, 0xe8c7b756, 0x3a4f735a);
    FTurn(t, x, 2, 0xe9edef99, 0x3a4f735a, 0x353af7cf, 0xa4a0dc8b, 0x36353433, 17, 0x242070db, 0x63356537);
    FTurn(t, x, 3, 0xa4a0dc8b, 0x63356537, 0x3a4f735a, 0x353af7cf, 0x30393837, 22, 0xc1bdceee, 0x45e88f2c);
    FTurn(t, x, 4, 0x353af7cf, 0x45e88f2c, 0x63356537, 0x3a4f735a, 0x80, 7, 0xf57c0faf, 0x3527497e);
    FTurn(t, x, 5, 0x3a4f735a, 0x3527497e, 0x45e88f2c, 0x63356537, 0x0, 12, 0x4787c62a, 0xab92660e);
    FTurn(t, x, 6, 0x63356537, 0xab92660e, 0x3527497e, 0x45e88f2c, 0x0, 17, 0xa8304613, 0x948347ae);
    FTurn(t, x, 7, 0x45e88f2c, 0x948347ae, 0xab92660e, 0x3527497e, 0x0, 22, 0xfd469501, 0x377c7d0a);
  }

  lemma {:induction false} Last2(t: nat -> Regs<bv32>, x: seq<bv32>)
    requires Run(t, x) && LastWords(x) && At(t, 8, 0x3527497e, 0x377c7d0a, 0x948347ae, 0xab92660e)
    ensures At(t, 16, 0xdb4ff71c, 0x58b12eab, 0x4396a39, 0x9b6b4960)
  {
    FTurn(t, x, 8, 0x3527497e, 0x377c7d0a, 0x948347ae, 0xab92660e, 0x0, 7, 0x698098d8, 0xcc912f27);
    FTurn(t, x, 9, 0xab92660e, 0xcc912f27, 0x377c7d0a, 0x948347ae, 0x0, 12, 0x8b44f7af, 0x6945a3d5);
    FTurn(t, x, 10, 0x948347ae, 0x6945a3d5, 0xcc912f27, 0x377c7d0a, 0x0, 17, 0xffff5bb1, 0xae23894d);
    FTurn(t, x, 11, 0x377c7d0a, 0xae23894d, 0x6945a3d5, 0xcc912f27, 0x0, 22, 0x895cd7be, 0xb9ede40c);
    FTurn(t, x, 12, 0xcc912f27, 0xb9ede40c, 0xae23894d, 0x6945a3d5, 0x0, 7, 0x6b901122, 0xdb4ff71c);
    FTurn(t, x, 13, 0x6945a3d5, 0xdb4ff71c, 0xb9ede40c, 0xae23894d, 0x0, 12, 0xfd987193, 0x9b6b4960);
    FTurn(t, x, 14, 0xae23894d, 0x9b6b4960, 0xdb4ff71c, 0xb9ede40c, 0x280, 17, 0xa679438e, 0x4396a39);
    FTurn(t, x, 15, 0xb9ede40c, 0x4396a39, 0x9b6b4960, 0xdb4ff71c, 0x0, 22, 0x49b40821, 0x58b12eab);
  }

  lemma {:induction false} Last3(t: nat -> Regs<bv32>, x: seq<bv32>)
    requires Run(t, x) && LastWords(x) && At(t, 16, 0xdb4ff71c, 0x58b12eab, 0x4396a39, 0x9b6b4960)
    ensures At(t, 24, 0xd6e6d91, 0x43cb080, 0xd5b7a850, 0x17d64195)
  {
    GTurn(t, x, 16, 0xdb4ff71c, 0x58b12eab, 0x4396a39, 0x9b6b4960, 0x32313039, 5, 0xf61e2562, 0x52c00cae);
    GTurn(t, x, 17, 0x9b6b4960, 0x52c00cae, 0x58b12eab, 0x4396a39, 0x0, 9, 0xc040b340, 0xaad2a216);
    GTurn(t, x, 18, 0x4396a39, 0xaad2a216, 0x52c00cae, 0x58b12eab, 0x0, 14, 0x265e5a51, 0xa476af6f);
    GTurn(t, x, 19, 0x58b12eab, 0xa476af6f, 0xaad2a216, 0x52c00cae, 0x38373635, 20, 0xe9b6c7aa, 0x50f8de8c);
    GTurn(t, x, 20, 0x52c00cae, 0x50f8de8c, 0xa476af6f, 0xaad2a216, 0x0, 5, 0xd62f105d, 0xd6e6d91);
    GTurn(t, x, 21, 0xaad2a216, 0xd6e6d91, 0x50f8de8c, 0xa476af6f, 0x0, 9, 0x2441453, 0x17d64195);
    GTurn(t, x, 22, 0xa476af6f, 0x17d64195, 0xd6e6d91, 0x50f8de8c, 0x0, 14, 0xd8a1e681, 0xd5b7a850);
    GTurn(t, x, 23, 0x50f8de8c, 0xd5b7a850, 0x17d64195, 0xd6e6d91, 0x80, 20, 0xe7d3fbc8, 0x43cb080);
  }

  lemma {:induction false} Last4(t: nat -> Regs<bv32>, x: seq<bv32>)
    requires Run(t, x) && LastWords(x) && At(t, 24, 0xd6e6d91, 0x43cb080, 0xd5b7a850, 0x17d64195)
    ensures At(t, 32, 0x8761f38e, 0x67092c33, 0x61bc867, 0x7a516116)
  {
    GTurn(t, x, 24, 0xd6e6d91, 0x43cb080, 0xd5b7a850, 0x17d64195, 0x0, 5, 0x21e1cde6, 0x74f9377e);
    GTurn(t, x, 25, 0x17d64195, 0x74f9377e, 0x43cb080, 0xd5b7a850, 0x280, 9, 0xc33707d6, 0x1f2addd);
    GTurn(t, x, 26, 0xd5b7a850, 0x1f2addd, 0x74f9377e, 0x43cb080, 0x30393837, 14, 0xf4d50d87, 0xe775c8ca);
    GTurn(t, x, 27, 0x43cb080, 0xe775c8ca, 0x1f2addd, 0x74f9377e, 0x0, 20, 0x455a14ed, 0xcb00b96e);
    GTurn(t, x, 28, 0x74f9377e, 0xcb00b96e, 0xe775c8ca, 0x1f2addd, 0x0, 5, 0xa9e3e905, 0x8761f38e);
    GTurn(t, x, 29, 0x1f2addd, 0x8761f38e, 0xcb00b96e, 0xe775c8ca, 0x36353433, 9, 0xfcefa3f8, 0x7a516116);
    GTurn(t, x, 30, 0xe775c8ca, 0x7a516116, 0x8761f38e, 0xcb00b96e, 0x0, 14, 0x676f02d9, 0x61bc867);
    GTurn(t, x, 31, 0xcb00b96e, 0x61bc867, 0x7a516116, 0x8761f38e, 0x0, 20, 0x8d2a4c8a, 0x67092c33);
  }

  lemma {:induction false} Last5(t: nat -> Regs<bv32>, x: seq<bv32>)
    requires Run(t, x) && LastWords(x) && At(t, 32, 0x8761f38e, 0x67092c33, 0x61bc867, 0x7a516116)
    ensures At(t, 40, 0xae26ed7d, 0xdbd1bff6, 0xff4a94dc, 0x71d8ecea)
  {
    HTurn(t, x, 32, 0x8761f38e, 0x67092c33, 0x61bc867, 0x7a516116, 0x0, 4, 0xfffa3942, 0x91044d5d);
    HTurn(t, x, 33, 0x7a516116, 0x91044d5d, 0x67092c33, 0x61bc867, 0x0, 11, 0x8771f681, 0x610954eb);
    HTurn(t, x, 34, 0x61bc867, 0x610954eb, 0x91044d5d, 0x67092c33, 0x0, 16, 0x6d9d6122, 0xc0175fa8);
    HTurn(t, x, 35, 0x67092c33, 0xc0175fa8, 0x610954eb, 0x91044d5d, 0x280, 23, 0xfde5380c, 0x2ee1e3fe);
    HTurn(t, x, 36, 0x91044d5d, 0x2ee1e3fe, 0xc0175fa8, 0x610954eb, 0x32313039, 4, 0xa4beea44, 0xae26ed7d);
    HTurn(t, x, 37, 0x610954eb, 0xae26ed7d, 0x2ee1e3fe, 0xc0175fa8, 0x80, 11, 0x4bdecfa9, 0x71d8ecea);
    HTurn(t, x, 38, 0xc0175fa8, 0x71d8ecea, 0xae26ed7d, 0x2ee1e3fe, 0x0, 16, 0xf6bb4b60, 0xff4a94dc);
    HTurn(t, x, 39, 0x2ee1e3fe, 0xff4a94dc, 0x71d8ecea, 0xae26ed7d, 0x0, 23, 0xbebfbc70, 0xdbd1bff6);
  }

  lemma {:induction false} Last6(t: nat -> Regs<bv32>, x: seq<bv32>)
    requires Run(t, x) && LastWords(x) && At(t, 40, 0xae26ed7d, 0xdbd1bff6, 0xff4a94dc, 0x71d8ecea)
    ensures At(t, 48, 0x71123afa, 0x1df7010a, 0xe6a8a386, 0xdc9c8ddb)
  {
    HTurn(t, x, 40, 0xae26ed7d, 0xdbd1bff6, 0xff4a94dc, 0x71d8ecea, 0x0, 4, 0x289b7ec6, 0x9c350028);
    HTurn(t, x, 41, 0x71d8ecea, 0x9c350028, 0xdbd1bff6, 0xff4a94dc, 0x38373635, 11, 0xeaa127fa, 0x97e5da92);
    HTurn(t, x, 42, 0xff4a94dc, 0x97e5da92, 0x9c350028, 0xdbd1bff6, 0x30393837, 16, 0xd4ef3085, 0xfacaaf06);
    HTurn(t, x, 43, 0xdbd1bff6, 0xfacaaf06, 0x97e5da92, 0x9c350028, 0x0, 23, 0x4881d05, 0x56b3692f);
    HTurn(t, x, 44, 0x9c350028, 0x56b3692f, 0xfacaaf06, 0x97e5da92, 0x0, 4, 0xd9d4d039, 0x71123afa);
    HTurn(t, x, 45, 0x97e5da92, 0x71123afa, 0x56b3692f, 0xfacaaf06, 0x0, 11, 0xe6db99e5, 0xdc9c8ddb);
    HTurn(t, x, 46, 0xfacaaf06, 0xdc9c8ddb, 0x71123afa, 0x56b3692f, 0x0, 16, 0x1fa27cf8, 0xe6a8a386);
    HTurn(t, x, 47, 0x56b3692f, 0xe6a8a386, 0xdc9c8ddb, 0x71123afa, 0x36353433, 23, 0xc4ac5665, 0x1df7010a);
  }

  lemma {:induction false} Last7(t: nat -> Regs<bv32>, x: seq<bv32>)
    requires Run(t, x) && LastWords(x) && At(t, 48, 0x71123afa, 0x1df7010a, 0xe6a8a386, 0xdc9c8ddb)
    ensures At(t, 56, 0x7a504abd, 0x9b31b114, 0xa290d6ce, 0x211cc65d)
  {
    ITurn(t, x, 48, 0x71123afa, 0x1df7010a, 0xe6a8a386, 0xdc9c8ddb, 0x38373635, 6, 0xf4292244, 0xd29007e7);
    ITurn(t, x, 49, 0xdc9c8ddb, 0xd29007e7, 0x1df7010a, 0xe6a8a386, 0x0, 10, 0x432aff97, 0x7241a77e);
    ITurn(t, x, 50, 0xe6a8a386, 0x7241a77e, 0xd29007e7, 0x1df7010a, 0x280, 15, 0xab9423a7, 0xd3248109);
    ITurn(t, x, 51, 0x1df7010a, 0xd3248109, 0x7241a77e, 0xd29007e7, 0x0, 21, 0xfc93a039, 0xc8797828);
    ITurn(t, x, 52, 0xd29007e7, 0xc8797828, 0xd3248109, 0x7241a77e, 0x0, 6, 0x655b59c3, 0x7a504abd);
    ITurn(t, x, 53, 0x7241a77e, 0x7a504abd, 0xc8797828, 0xd3248109, 0x30393837, 10, 0x8f0ccc92, 0x211cc65d);
    ITurn(t, x, 54, 0xd3248109, 0x211cc65d, 0x7a504abd, 0xc8797828, 0x0, 15, 0xffeff47d, 0xa290d6ce);
    ITurn(t, x, 55, 0xc8797828, 0xa290d6ce, 0x211cc65d, 0x7a504abd, 0x32313039, 21, 0x85845dd1, 0x9b31b114);
  }

  lemma {:induction false} Last8(t: nat -> Regs<bv32>, x: seq<bv32>)
    requires Run(t, x) && LastWords(x) && At(t, 56, 0x7a504abd, 0x9b31b114, 0xa290d6ce, 0x211cc65d)
    ensures At(t, 64, 0xda67616b, 0xb12906a0, 0x44ec5a13, 0xc9e47a04)
  {
    ITurn(t, x, 56, 0x7a504abd, 0x9b31b114, 0xa290d6ce, 0x211cc65d, 0x0, 6, 0x6fa87e4f, 0x723fd22d);
    ITurn(t, x, 57, 0x211cc65d, 0x723fd22d, 0x9b31b114, 0xa290d6ce, 0x0, 10, 0xfe2ce6e0, 0xd21d6a3b);
    ITurn(t, x, 58, 0xa290d6ce, 0xd21d6a3b, 0x723fd22d, 0x9b31b114, 0x0, 15, 0xa3014314, 0x3d79cf74);
    ITurn(t, x, 59, 0x9b31b114, 0x3d79cf74, 0xd21d6a3b, 0x723fd22d, 0x0, 21, 0x4e0811a1, 0x4dc4f33d);
    ITurn(t, x, 60, 0x723fd22d, 0x4dc4f33d, 0x3d79cf74, 0xd21d6a3b, 0x80, 6, 0xf7537e82, 0xda67616b);
    ITurn(t, x, 61, 0xd21d6a3b, 0xda67616b, 0x4dc4f33d, 0x3d79cf74, 0x0, 10, 0xbd3af235, 0xc9e47a04);
    ITurn(t, x, 62, 0x3d79cf74, 0xc9e47a04, 0xda67616b, 0x4dc4f33d, 0x36353433, 15, 0x2ad7d2bb, 0x44ec5a13);
    ITurn(t, x, 63, 0x4dc4f33d, 0x44ec5a13, 0xc9e47a04, 0xda67616b, 0x0, 21, 0xeb86d391, 0xb12906a0);
  }

  lemma {:induction false} LastTurns(x: seq<bv32>)
    requires LastWords(x)
    ensures At(RunFrom(Regs(0xc88d8bec, 0xa4a0dc8b, 0xe9edef99, 0xb0d18d1d), x), 64,
               0xda67616b, 0xb12906a0, 0x44ec5a13, 0xc9e47a04)
  {
    RunStarts(Regs(0xc88d8bec, 0xa4a0dc8b, 0xe9edef99, 0xb0d18d1d), x);
    var t := RunFrom(Regs(0xc88d8bec, 0xa4a0dc8b, 0xe9edef99, 0xb0d18d1d), x);
    Last1(t, x);
    Last2(t, x);
    Last3(t, x);
    Last4(t, x);
    Last5(t, x);
    Last6(t, x);
    Last7(t, x);
    Last8(t, x);
  }

  lemma {:induction false} LastSums()
    ensures Plus(0xc88d8bec, 0xda67616b) == 0xa2f4ed57 && Plus(0xa4a0dc8b, 0xb12906a0) == 0x55c9e32b
    ensures Plus(0xe9edef99, 0x44ec5a13) == 0x2eda49ac && Plus(0xb0d18d1d, 0xc9e47a04) == 0x7ab60721
  {
  }

  lemma {:induction false} LastBlock(block: Block)
    requires LastWords(Decoded(UINT4, block))
    ensures Compress(UINT4, Regs(0xc88d8bec, 0xa4a0dc8b, 0xe9edef99, 0xb0d18d1d), block)
         == Regs(0xa2f4ed57, 0x55c9e32b, 0x2eda49ac, 0x7ab60721)
  {
    LastTurns(Decoded(UINT4, block));
    LastSums();
    Compressed(Regs(0xc88d8bec, 0xa4a0dc8b, 0xe9edef99, 0xb0d18d1d), block,
               0xda67616b, 0xb12906a0, 0x44ec5a13, 0xc9e47a04);
  }

  ghost predicate EightyDigits(msg: seq<Byte>) {
    |msg| == 80
    && forall q :: 0 <= q < 8 ==>
         msg[10 * q..10 * q + 10] == [0x31, 0x32, 0x33, 0x34, 0x35, 0x36, 0x37, 0x38, 0x39, 0x30]
  }

  lemma {:induction false} TenDigits(msg: seq<Byte>, q: nat)
    requires EightyDigits(msg) && q < 8
    ensures msg[10 * q] == 0x31 && msg[10 * q + 1] == 0x32 && msg[10 * q + 2] == 0x33 && msg[10 * q + 3] == 0x34
    ensures msg[10 * q + 4] == 0x35 && msg[10 * q + 5] == 0x36 && msg[10 * q + 6] == 0x37
    ensures msg[10 * q + 7] == 0x38 && msg[10 * q + 8] == 0x39 && msg[10 * q + 9] == 0x30
  {
    var ten := msg[10 * q..10 * q + 10];
    assert ten[0] == 0x31 && ten[1] == 0x32 && ten[2] == 0x33 && ten[3] == 0x34 && ten[4] == 0x35;
    assert ten[5] == 0x36 && ten[6] == 0x37 && ten[7] == 0x38 && ten[8] == 0x39 && ten[9] == 0x30;
  }

  /** Word `k` of block `n` holds the digits from `4 * k` on: which four, five words decide. */
  lemma {:induction false} DigitWord(msg: seq<Byte>, n: nat, k: nat, p: nat)
    requires EightyDigits(msg) && n < 2 && k < 16 && p < 4 && 5 * p <= 16 * n + k < 5 * p + 5
    ensures match 16 * n + k - 5 * p
            case 0 => WordsOf(UINT4, msg, n)[k] == 0x34333231
            case 1 => WordsOf(UINT4, msg, n)[k] == 0x38373635
            case 2 => WordsOf(UINT4, msg, n)[k] == 0x32313039
            case 3 => WordsOf(UINT4, msg, n)[k] == 0x36353433
            case _ => WordsOf(UINT4, msg, n)[k] == 0x30393837
  {
    TenDigits(msg, 2 * p);
    TenDigits(msg, 2 * p + 1);
    match 16 * n + k - 5 * p
    case 0 => LoadedWord(msg, n, k, 0x31, 0x32, 0x33, 0x34, 0x34333231);
    case 1 => LoadedWord(msg, n, k, 0x35, 0x36, 0x37, 0x38, 0x38373635);
    case 2 => LoadedWord(msg, n, k, 0x39, 0x30, 0x31, 0x32, 0x32313039);
    case 3 => LoadedWord(msg, n, k, 0x33, 0x34, 0x35, 0x36, 0x36353433);
    case _ => LoadedWord(msg, n, k, 0x37, 0x38, 0x39, 0x30, 0x30393837);
  }

  lemma {:induction false} FirstLoaded(msg: seq<Byte>)
    requires EightyDigits(msg)
    ensures FirstWords(WordsOf(UINT4, msg, 0))
  {
    DigitWord(msg, 0, 0, 0);
    DigitWord(msg, 0, 1, 0);
    DigitWord(msg, 0, 2, 0);
    DigitWord(msg, 0, 3, 0);
    DigitWord(msg, 0, 4, 0);
    DigitWord(msg, 0, 5, 1);
    DigitWord(msg, 0, 6, 1);
    DigitWord(msg, 0, 7, 1);
    DigitWord(msg, 0, 8, 1);
    DigitWord(msg, 0, 9, 1);
    DigitWord(msg, 0, 10, 2);
    DigitWord(msg, 0, 11, 2);
    DigitWord(msg, 0, 12, 2);
    DigitWord(msg, 0, 13, 2);
    DigitWord(msg, 0, 14, 2);
    DigitWord(msg, 0, 15, 3);
  }

  lemma {:induction false} LastLoaded(msg: seq<Byte>)
    requires EightyDigits(msg)
    ensures LastWords(WordsOf(UINT4, msg, 1))
  {
    DigitWord(msg, 1, 0, 3);
    DigitWord(msg, 1, 1, 3);
    DigitWord(msg, 1, 2, 3);
    DigitWord(msg, 1, 3, 3);
    LoadedWord(msg, 1, 4, 0x80, 0, 0, 0, 0x80);
    forall k | 5 <= k < 14
      ensures WordsOf(UINT4, msg, 1)[k] == 0
    {
      LoadedWord(msg, 1, k, 0, 0, 0, 0, 0);
    }
    LoadedLength(msg, 1, 640);
  }

  lemma {:induction false} DigitBytes()
    ensures DigestOf(UINT4, Regs(0xa2f4ed57, 0x55c9e32b, 0x2eda49ac, 0x7ab60721))
         == [0x57, 0xed, 0xf4, 0xa2] + [0x2b, 0xe3, 0xc9, 0x55]
          + [0xac, 0x49, 0xda, 0x2e] + [0x21, 0x07, 0xb6, 0x7a]
  {
    Spelled(0xa2f4ed57, 0x57, 0xed, 0xf4, 0xa2);
    Spelled(0x55c9e32b, 0x2b, 0xe3, 0xc9, 0x55);
    Spelled(0x2eda49ac, 0xac, 0x49, 0xda, 0x2e);
    Spelled(0x7ab60721, 0x21, 0x07, 0xb6, 0x7a);
    FourWords(UINT4, Regs(0xa2f4ed57, 0x55c9e32b, 0x2eda49ac, 0x7ab60721));
  }

  /** The digest of "1234567890" eight times over, which takes two blocks. */
  lemma {:induction false} DigitsDigest(msg: seq<Byte>)
    requires EightyDigits(msg)
    ensures Digest(UINT4, msg)
         == [0x57, 0xed, 0xf4, 0xa2] + [0x2b, 0xe3, 0xc9, 0x55]
          + [0xac, 0x49, 0xda, 0x2e] + [0x21, 0x07, 0xb6, 0x7a]
  {
    TwoBlocks(UINT4, msg);
    InitialIs();
    FirstLoaded(msg);
    FirstBlock(BlockOf(UINT4, msg, 0));
    LastLoaded(msg);
    LastBlock(BlockOf(UINT4, msg, 1));
    DigitBytes();
  }
}
