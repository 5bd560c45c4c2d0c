/** The streaming MD5 context: buffers, two-word counter and registers updated in place. */
module Md5 {
  import opened Collections
  import opened Md5Spec

  function FF<W>(w: Words<W>, a: W, b: W, c: W, d: W, x: W, s: Amount, ac: Number): W {
    Mixed(w, a, b, w.f(b, c, d), x, s, ac)
  }

  function GG<W>(w: Words<W>, a: W, b: W, c: W, d: W, x: W, s: Amount, ac: Number): W {
    Mixed(w, a, b, w.g(b, c, d), x, s, ac)
  }

  function HH<W>(w: Words<W>, a: W, b: W, c: W, d: W, x: W, s: Amount, ac: Number): W {
    Mixed(w, a, b, w.h(b, c, d), x, s, ac)
  }

  function II<W>(w: Words<W>, a: W, b: W, c: W, d: W, x: W, s: Amount, ac: Number): W {
    Mixed(w, a, b, w.i(b, c, d), x, s, ac)
  }

  /** Turns 0 to 15. */
  method Round1<W>(w: Words<W>, x: array<W>, r: Regs<W>) returns (t: Regs<W>)
    requires x.Length == 16
    ensures t == Turns(w, r, x[..], 0, 16)
  {
    var a, b, c, d := r.a, r.b, r.c, r.d;
    a := FF(w, a, b, c, d, x[0], 7, 0xd76aa478);
    assert Regs(d, a, b, c) == Turns(w, r, x[..], 0, 1);
    d := FF(w, d, a, b, c, x[1], 12, 0xe8c7b756);
    assert Regs(c, d, a, b) == Turns(w, r, x[..], 0, 2);
    c := FF(w, c, d, a, b, x[2], 17, 0x242070db);
    assert Regs(b, c, d, a) == Turns(w, r, x[..], 0, 3);
    b := FF(w, b, c, d, a, x[3], 22, 0xc1bdceee);
    assert Regs(a, b, c, d) == Turns(w, r, x[..], 0, 4);
    a := FF(w, a, b, c, d, x[4], 7, 0xf57c0faf);
    assert Regs(d, a, b, c) == Turns(w, r, x[..], 0, 5);
    d := FF(w, d, a, b, c, x[5], 12, 0x4787c62a);
    assert Regs(c, d, a, b) == Turns(w, r, x[..], 0, 6);
    c := FF(w, c, d, a, b, x[6], 17, 0xa8304613);
    assert Regs(b, c, d, a) == Turns(w, r, x[..], 0, 7);
    b := FF(w, b, c, d, a, x[7], 22, 0xfd469501);
    assert Regs(a, b, c, d) == Turns(w, r, x[..], 0, 8);
    a := FF(w, a, b, c, d, x[8], 7, 0x698098d8);
    assert Regs(d, a, b, c) == Turns(w, r, x[..], 0, 9);
    d := FF(w, d, a, b, c, x[9], 12, 0x8b44f7af);
    assert Regs(c, d, a, b) == Turns(w, r, x[..], 0, 10);
    c := FF(w, c, d, a, b, x[10], 17, 0xffff5bb1);
    assert Regs(b, c, d, a) == Turns(w, r, x[..], 0, 11);
    b := FF(w, b, c, d, a, x[11], 22, 0x895cd7be);
    assert Regs(a, b, c, d) == Turns(w, r, x[..], 0, 12);
    a := FF(w, a, b, c, d, x[12], 7, 0x6b901122);
    assert Regs(d, a, b, c) == Turns(w, r, x[..], 0, 13);
    d := FF(w, d, a, b, c, x[13], 12, 0xfd987193);
    assert Regs(c, d, a, b) == Turns(w, r, x[..], 0, 14);
    c := FF(w, c, d, a, b, x[14], 17, 0xa679438e);
    assert Regs(b, c, d, a) == Turns(w, r, x[..], 0, 15);
    b := FF(w, b, c, d, a, x[15], 22, 0x49b40821);
    assert Regs(a, b, c, d) == Turns(w, r, x[..], 0, 16);
    t := Regs(a, b, c, d);
  }

  /** Turns 16 to 31. */
  method Round2<W>(w: Words<W>, x: array<W>, r: Regs<W>) returns (t: Regs<W>)
    requires x.Length == 16
    ensures t == Turns(w, r, x[..], 16, 32)
  {
    var a, b, c, d := r.a, r.b, r.c, r.d;
    a := GG(w, a, b, c, d, x[1], 5, 0xf61e2562);
    assert Regs(d, a, b, c) == Turns(w, r, x[..], 16, 17);
    d := GG(w, d, a, b, c, x[6], 9, 0xc040b340);
    assert Regs(c, d, a, b) == Turns(w, r, x[..], 16, 18);
    c := GG(w, c, d, a, b, x[11], 14, 0x265e5a51);
    assert Regs(b, c, d, a) == Turns(w, r, x[..], 16, 19);
    b := GG(w, b, c, d, a, x[0], 20, 0xe9b6c7aa);
    assert Regs(a, b, c, d) == Turns(w, r, x[..], 16, 20);
    a := GG(w, a, b, c, d, x[5], 5, 0xd62f105d);
    assert Regs(d, a, b, c) == Turns(w, r, x[..], 16, 21);
    d := GG(w, d, a, b, c, x[10], 9, 0x2441453);
    assert Regs(c, d, a, b) == Turns(w, r, x[..], 16, 22);
    c := GG(w, c, d, a, b, x[15], 14, 0xd8a1e681);
    assert Regs(b, c, d, a) == Turns(w, r, x[..], 16, 23);
    b := GG(w, b, c, d, a, x[4], 20, 0xe7d3fbc8);
    assert Regs(a, b, c, d) == Turns(w, r, x[..], 16, 24);
    a := GG(w, a, b, c, d, x[9], 5, 0x21e1cde6);
    assert Regs(d, a, b, c) == Turns(w, r, x[..], 16, 25);
    d := GG(w, d, a, b, c, x[14], 9, 0xc33707d6);
    assert Regs(c, d, a, b) == Turns(w, r, x[..], 16, 26);
    c := GG(w, c, d, a, b, x[3], 14, 0xf4d50d87);
    assert Regs(b, c, d, a) == Turns(w, r, x[..], 16, 27);
    b := GG(w, b, c, d, a, x[8], 20, 0x455a14ed);
    assert Regs(a, b, c, d) == Turns(w, r, x[..], 16, 28);
    a := GG(w, a, b, c, d, x[13], 5, 0xa9e3e905);
    assert Regs(d, a, b, c) == Turns(w, r, x[..], 16, 29);
    d := GG(w, d, a, b, c, x[2], 9, 0xfcefa3f8);
    assert Regs(c, d, a, b) == Turns(w, r, x[..], 16, 30);
    c := GG(w, c, d, a, b, x[7], 14, 0x676f02d9);
    assert Regs(b, c, d, a) == Turns(w, r, x[..], 16, 31);
    b := GG(w, b, c, d, a, x[12], 20, 0x8d2a4c8a);
    assert Regs(a, b, c, d) == Turns(w, r, x[..], 16, 32);
    t := Regs(a, b, c, d);
  }

  /** Turns 32 to 47. */
  method Round3<W>(w: Words<W>, x: array<W>, r: Regs<W>) returns (t: Regs<W>)
    requires x.Length == 16
    ensures t == Turns(w, r, x[..], 32, 48)
  {
    var a, b, c, d := r.a, r.b, r.c, r.d;
    a := HH(w, a, b, c, d, x[5], 4, 0xfffa3942);
    assert Regs(d, a, b, c) == Turns(w, r, x[..], 32, 33);
    d := HH(w, d, a, b, c, x[8], 11, 0x8771f681);
    assert Regs(c, d, a, b) == Turns(w, r, x[..], 32, 34);
    c := HH(w, c, d, a, b, x[11], 16, 0x6d9d6122);
    assert Regs(b, c, d, a) == Turns(w, r, x[..], 32, 35);
    b := HH(w, b, c, d, a, x[14], 23, 0xfde5380c);
    assert Regs(a, b, c, d) == Turns(w, r, x[..], 32, 36);
    a := HH(w, a, b, c, d, x[1], 4, 0xa4beea44);
    assert Regs(d, a, b, c) == Turns(w, r, x[..], 32, 37);
    d := HH(w, d, a, b, c, x[4], 11, 0x4bdecfa9);
    assert Regs(c, d, a, b) == Turns(w, r, x[..], 32, 38);
    c := HH(w, c, d, a, b, x[7], 16, 0xf6bb4b60);
    assert Regs(b, c, d, a) == Turns(w, r, x[..], 32, 39);
    b := HH(w, b, c, d, a, x[10], 23, 0xbebfbc70);
    assert Regs(a, b, c, d) == Turns(w, r, x[..], 32, 40);
    a := HH(w, a, b, c, d, x[13], 4, 0x289b7ec6);
    assert Regs(d, a, b, c) == Turns(w, r, x[..], 32, 41);
    d := HH(w, d, a, b, c, x[0], 11, 0xeaa127fa);
    assert Regs(c, d, a, b) == Turns(w, r, x[..], 32, 42);
    c := HH(w, c, d, a, b, x[3], 16, 0xd4ef3085);
    assert Regs(b, c, d, a) == Turns(w, r, x[..], 32, 43);
    b := HH(w, b, c, d, a, x[6], 23, 0x4881d05);
    assert Regs(a, b, c, d) == Turns(w, r, x[..], 32, 44);
    a := HH(w, a, b, c, d, x[9], 4, 0xd9d4d039);
    assert Regs(d, a, b, c) == Turns(w, r, x[..], 32, 45);
    d := HH(w, d, a, b, c, x[12], 11, 0xe6db99e5);
    assert Regs(c, d, a, b) == Turns(w, r, x[..], 32, 46);
    c := HH(w, c, d, a, b, x[15], 16, 0x1fa27cf8);
    assert Regs(b, c, d, a) == Turns(w, r, x[..], 32, 47);
    b := HH(w, b, c, d, a, x[2], 23, 0xc4ac5665);
    assert Regs(a, b, c, d) == Turns(w, r, x[..], 32, 48);
    t := Regs(a, b, c, d);
  }

  /** Turns 48 to 63. */
  method Round4<W>(w: Words<W>, x: array<W>, r: Regs<W>) returns (t: Regs<W>)
    requires x.Length == 16
    ensures t == Turns(w, r, x[..], 48, 64)
  {
    var a, b, c, d := r.a, r.b, r.c, r.d;
    a := II(w, a, b, c, d, x[0], 6, 0xf4292244);
    assert Regs(d, a, b, c) == Turns(w, r, x[..], 48, 49);
    d := II(w, d, a, b, c, x[7], 10, 0x432aff97);
    assert Regs(c, d, a, b) == Turns(w, r, x[..], 48, 50);
    c := II(w, c, d, a, b, x[14], 15, 0xab9423a7);
    assert Regs(b, c, d, a) == Turns(w, r, x[..], 48, 51);
    b := II(w, b, c, d, a, x[5], 21, 0xfc93a039);
    assert Regs(a, b, c, d) == Turns(w, r, x[..], 48, 52);
    a := II(w, a, b, c, d, x[12], 6, 0x655b59c3);
    assert Regs(d, a, b, c) == Turns(w, r, x[..], 48, 53);
    d := II(w, d, a, b, c, x[3], 10, 0x8f0ccc92);
    assert Regs(c, d, a, b) == Turns(w, r, x[..], 48, 54);
    c := II(w, c, d, a, b, x[10], 15, 0xffeff47d);
    assert Regs(b, c, d, a) == Turns(w, r, x[..], 48, 55);
    b := II(w, b, c, d, a, x[1], 21, 0x85845dd1);
    assert Regs(a, b, c, d) == Turns(w, r, x[..], 48, 56);
    a := II(w, a, b, c, d, x[8], 6, 0x6fa87e4f);
    assert Regs(d, a, b, c) == Turns(w, r, x[..], 48, 57);
    d := II(w, d, a, b, c, x[15], 10, 0xfe2ce6e0);
    assert Regs(c, d, a, b) == Turns(w, r, x[..], 48, 58);
    c := II(w, c, d, a, b, x[6], 15, 0xa3014314);
    assert Regs(b, c, d, a) == Turns(w, r, x[..], 48, 59);
    b := II(w, b, c, d, a, x[13], 21, 0x4e0811a1);
    assert Regs(a, b, c, d) == Turns(w, r, x[..], 48, 60);
    a := II(w, a, b, c, d, x[4], 6, 0xf7537e82);
    assert Regs(d, a, b, c) == Turns(w, r, x[..], 48, 61);
    d := II(w, d, a, b, c, x[11], 10, 0xbd3af235);
    assert Regs(c, d, a, b) == Turns(w, r, x[..], 48, 62);
    c := II(w, c, d, a, b, x[2], 15, 0x2ad7d2bb);
    assert Regs(b, c, d, a) == Turns(w, r, x[..], 48, 63);
    b := II(w, b, c, d, a, x[9], 21, 0xeb86d391);
    assert Regs(a, b, c, d) == Turns(w, r, x[..], 48, 64);
    t := Regs(a, b, c, d);
  }

  /** The four rounds in turn. */
  method Rounds<W>(w: Words<W>, x: array<W>, r: Regs<W>) returns (t: Regs<W>)
    requires x.Length == 16
    ensures t == Turns(w, r, x[..], 0, 64)
  {
    t := Round1(w, x, r);
    t := Round2(w, x, t);
    t := Round3(w, x, t);
    t := Round4(w, x, t);
    TurnsJoin(w, r, x[..], 0, 16, 32);
    TurnsJoin(w, r, x[..], 0, 32, 48);
    TurnsJoin(w, r, x[..], 0, 48, 64);
  }

  // ------------------------------------------------------------ words and bytes

  /** Encode, for the words of an array. */
  method Encode<W>(w: Words<W>, output: array<Byte>, input: array<W>, len: nat)
    requires (output as object) != input && len % 4 == 0 && len <= output.Length && len / 4 <= input.Length
    modifies output
    ensures output[..len] == Encoded(w, input[..len / 4]) && output[len..] == old(output[len..])
  {
    var i, j := 0, 0;
    while j < len
      invariant j == 4 * i && j <= len
      invariant forall k :: 0 <= k < j ==> output[k] == w.byte(input[k / 4], k % 4)
      invariant output[len..] == old(output[len..])
    {
      output[j], output[j + 1] := w.byte(input[i], 0), w.byte(input[i], 1);
      output[j + 2], output[j + 3] := w.byte(input[i], 2), w.byte(input[i], 3);
      assert forall k :: j <= k < j + 4 ==> k / 4 == i;
      i, j := i + 1, j + 4;
    }
  }

  /** Decode, for the bytes from `at` on. */
  method Decode<W>(w: Words<W>, output: array<W>, input: array<Byte>, at: nat, len: nat)
    requires (output as object) != input && len % 4 == 0 && at + len <= input.Length && len / 4 <= output.Length
    modifies output
    ensures output[..len / 4] == Decoded(w, input[at..at + len])
  {
    var i, j := 0, 0;
    while j < len
      invariant j == 4 * i && j <= len
      invariant forall k :: 0 <= k < i ==>
                  output[k] == w.join(input[at + 4 * k], input[at + 4 * k + 1],
                                      input[at + 4 * k + 2], input[at + 4 * k + 3])
    {
      output[i] := w.join(input[at + j], input[at + j + 1], input[at + j + 2], input[at + j + 3]);
      i, j := i + 1, j + 4;
    }
  }

  /** The sixteen words of the block at `at`. */
  method BlockWords<W>(w: Words<W>, block: array<Byte>, at: nat) returns (x: array<W>)
    requires at + 64 <= block.Length
    ensures fresh(x) && x.Length == 16 && x[..] == Decoded(w, block[at..at + 64])
  {
    x := new W[16](_ => w.of(0));
    Decode(w, x, block, at, 64);
    assert x[..16] == x[..];
  }

  /** MD5_memset of a whole array. */
  method Memset<T>(output: array<T>, value: T)
    modifies output
    ensures forall k :: 0 <= k < output.Length ==> output[k] == value
  {
    var i := 0;
    while i < output.Length
      invariant i <= output.Length
      invariant forall k :: 0 <= k < i ==> output[k] == value
    {
      output[i] := value;
      i := i + 1;
    }
  }

  // ------------------------------------------------------------------- context

  /** How many of `n` bytes lie in complete blocks. */
  function Whole(n: nat): (w: nat)
    ensures w % 64 == 0 && w + n % 64 == n
  {
    n / 64 * 64
  }

  /** The loop counter after the complete blocks of an update whose first `from` bytes filled the
      buffer. */
  function LastBlock(from: nat, len: nat): nat
    requires from <= len
  {
    from + (len - from) / 64 * 64
  }

  /** The 32-bit sum `i + 63` never wraps in the update loop. */
  predicate CounterFits(index: nat, len: nat)
    requires index < 64
  {
    len < 64 - index || LastBlock(64 - index, len) + 63 < TWO_32
  }

  /** The loop guard is false after the last complete block if and only if the counter fits;
      otherwise the loop would run past the input. */
  lemma {:induction false} StopsIffCounterFits(index: nat, len: nat)
    requires index < 64 && 64 - index <= len < TWO_32
    ensures var i := LastBlock(64 - index, len);
            i <= len < i + 64 && ((i + 63) % TWO_32 < len <==> !CounterFits(index, len))
  {
    var i := LastBlock(64 - index, len);
    assert i + 63 >= TWO_32 ==> (i + 63) % TWO_32 == i + 63 - TWO_32;
  }

  /** Up to 2^32 - 64 bytes it always fits. */
  lemma {:induction false} ShortUpdateFits(index: nat, len: nat)
    requires index < 64 && len <= TWO_32 - 64
    ensures CounterFits(index, len)
  {
  }

  /** After a message of one byte an update of the greatest length does not fit. */
  lemma {:induction false} CounterWraps()
    ensures !CounterFits(1, 0xffff_ffff)
  {
  }

  ghost predicate Took<R>(once: Once, take: (R, Block) -> R, init: R, r: R, m: seq<Byte>) {
    match once
    case Only => |m| % 64 == 0 && r == Fold(take, init, m)
  }

  /** `r` is what the blocks of `m` make of `init`. Opened where that is used. */
  ghost predicate Absorbs<R>(take: (R, Block) -> R, init: R, r: R, m: seq<Byte>) {
    forall once: Once :: Took(once, take, init, r, m)
  }

  lemma {:induction false} AbsorbsNone<R>(take: (R, Block) -> R, init: R)
    ensures Absorbs(take, init, init, [])
  {
  }

  lemma {:induction false} AbsorbsNext<R>(take: (R, Block) -> R, init: R, r: R, m: seq<Byte>, block: Block)
    requires Absorbs(take, init, r, m)
    ensures Absorbs(take, init, take(r, block), m + block)
  {
    assert Took(Only, take, init, r, m);
    FoldBlock(take, init, m, block);
  }

  lemma {:induction false} AbsorbsAll<R>(take: (R, Block) -> R, init: R, r: R, m: seq<Byte>)
    requires Absorbs(take, init, r, m)
    ensures |m| % 64 == 0 && r == Fold(take, init, m)
  {
    assert Took(Only, take, init, r, m);
  }

  lemma {:induction false} Small(x: nat, m: nat)
    ensures x < m ==> x % m == x
  {
  }

  /** The block at `i` of an input whose first bytes are `data`. */
  lemma {:induction false} BlockJoins(a: seq<Byte>, data: seq<Byte>, input: seq<Byte>, i: nat)
    requires i + 64 <= |data| <= |input| && data == input[..|data|]
    ensures a + data[..i] + input[i..i + 64] == a + data[..i + 64]
  {
  }

  /** An update that reaches the end of a block, with `i` bytes of it in complete blocks. */
  lemma {:induction false} RestAfterBlocks(a: seq<Byte>, b: seq<Byte>, i: nat)
    requires (|a| + i) % 64 == 0 && i <= |b| < i + 64
    ensures var n := Whole(|a + b|);
            n == |a| + i && (a + b)[..n] == a + b[..i] && (a + b)[n..] == [] + b[i..] && |a + b| % 64 == |b| - i
  {
  }

  /** An update within one block. */
  lemma {:induction false} RestWithoutBlock(a: seq<Byte>, b: seq<Byte>)
    requires |a| % 64 + |b| < 64
    ensures var n := Whole(|a + b|);
            && n == Whole(|a|) && (a + b)[..n] == a[..n] && (a + b)[n..] == a[n..] + b[0..]
            && |a + b| % 64 == |a| % 64 + |b|
  {
  }

  datatype StreamPart = StatePart | TailPart | CountPart

  /** MD5_CTX, with the message so far. */
  class Md5Context<W> {
    const w: Words<W>
    const state: array<W>
    const count: array<nat>
    const buffer: array<Byte>
    ghost var msg: seq<Byte>

    ghost predicate Shaped() {
      && state.Length == 4 && count.Length == 2 && buffer.Length == 64
      && (state as object) != buffer && (state as object) != count && (count as object) != buffer
    }

    ghost function Held(): Regs<W>
      requires Shaped()
      reads state
    {
      Regs(state[0], state[1], state[2], state[3])
    }

    /** The registers have taken in the blocks of `m`. */
    ghost predicate Absorbed(m: seq<Byte>)
      requires Shaped()
      reads state
    {
      Absorbs(Compressor(w), Initial(w), Held(), m)
    }

    ghost predicate Counts(once: Once, n: nat)
      requires Shaped()
      reads count
    {
      match once
      case Only => (count[0], count[1]) == BitCount(n)
    }

    /** The two words count the bits of `n` bytes. Opened where that is used. */
    ghost predicate Counted(n: nat)
      requires Shaped()
      reads count
    {
      forall once: Once :: Counts(once, n)
    }

    /** The registers have taken in every complete block, the buffer holds the rest, and the two
        words count the bits. */
    ghost predicate Holds(part: StreamPart)
      requires Shaped()
      reads this, state, count, buffer
    {
      match part
      case StatePart => Absorbed(msg[..Whole(|msg|)])
      case TailPart => buffer[..|msg| % 64] == msg[Whole(|msg|)..]
      case CountPart => Counted(|msg|)
    }

    ghost predicate Valid()
      reads this, state, count, buffer
    {
      Shaped() && forall part: StreamPart :: Holds(part)
    }

    /** MD5Init on a new context. */
    constructor (w: Words<W>)
      ensures Valid() && this.w == w && msg == [] && fresh(state) && fresh(count) && fresh(buffer)
    {
      this.w := w;
      AbsorbsNone(Compressor(w), Initial(w));
      state := new W[] [w.of(0x67452301), w.of(0xefcdab89), w.of(0x98badcfe), w.of(0x10325476)];
      count := new nat[] [0, 0];
      buffer := new Byte[64];
      msg := [];
    }

    method AddIn(t: Regs<W>)
      requires Shaped()
      modifies state
      ensures Held() == Added(w, old(Held()), t)
    {
      state[0] := w.plus(state[0], t.a);
      state[1] := w.plus(state[1], t.b);
      state[2] := w.plus(state[2], t.c);
      state[3] := w.plus(state[3], t.d);
    }

    /** MD5Transform of the block at `at`, after the blocks of `m`. */
    method Transform(block: array<Byte>, at: nat, ghost m: seq<Byte>)
      requires Shaped() && Absorbed(m) && at + 64 <= block.Length
      modifies state
      ensures Absorbed(m + old(block[at..at + 64]))
    {
      var x := BlockWords(w, block, at);
      var t := Rounds(w, x, Regs(state[0], state[1], state[2], state[3]));
      AbsorbsNext(Compressor(w), Initial(w), Held(), m, block[at..at + 64]);
      AddIn(t);
      Memset(x, w.of(0));
    }

    /** Bytes in the buffer, from the counter. */
    method BytesModulo64() returns (index: nat)
      requires Shaped() && Counted(|msg|)
      ensures index == |msg| % 64
    {
      assert Counts(Only, |msg|);
      BitCountMeaning(|msg|);
      index := count[0] / 8 % 64;
    }

    /** The two words take in the bits of another `len` bytes. */
    method CountUp(len: nat)
      requires Shaped() && len < TWO_32 && Counted(|msg|)
      modifies count
      ensures Counted(|msg| + len)
    {
      assert Counts(Only, |msg|);
      var added := 8 * len % TWO_32;
      count[0] := (count[0] + added) % TWO_32;
      if count[0] < added {
        count[1] := (count[1] + 1) % TWO_32;
      }
      count[1] := (count[1] + len / 0x2000_0000) % TWO_32;
      SumModulo(old(count[1]) + 1, len / 0x2000_0000);
      CountAdd(|msg|, len, count[0], count[1]);
      assert Counts(Only, |msg| + len);
    }

    /** The first block of an update: the buffer filled up and compressed. */
    method FillBlock(input: array<Byte>, index: nat, ghost data: seq<Byte>)
      requires Shaped() && input != buffer && (input as object) != state
      requires index == |msg| % 64 && 64 - index <= |data| <= input.Length && data == input[..|data|]
      requires Absorbed(msg[..Whole(|msg|)]) && buffer[..index] == msg[Whole(|msg|)..]
      modifies state, buffer
      ensures Absorbed(msg + data[..64 - index])
    {
      ghost var whole, block := msg[..Whole(|msg|)], msg[Whole(|msg|)..] + data[..64 - index];
      Copy(buffer, index, input, 0, 64 - index);
      assert buffer[0..64] == block;
      Transform(buffer, 0, whole);
      assert whole + block == msg + data[..64 - index];
    }

    /** A block of an update, compressed where it is. */
    method FullBlock(input: array<Byte>, i: nat, ghost data: seq<Byte>)
      requires Shaped() && (input as object) != state && i + 64 <= |data| <= input.Length && data == input[..|data|]
      requires |msg + data[..i]| % 64 == 0 && Absorbed(msg + data[..i])
      modifies state
      ensures Absorbed(msg + data[..i + 64])
    {
      BlockJoins(msg, data, input[..], i);
      Transform(input, i, msg + data[..i]);
    }

    /** The complete blocks of an update from `from` on. */
    method FullBlocks(input: array<Byte>, from: nat, inputLen: nat, ghost data: seq<Byte>) returns (i: nat)
      requires Shaped() && (input as object) != state
      requires from <= inputLen <= input.Length && data == input[..inputLen]
      requires LastBlock(from, inputLen) + 63 < TWO_32
      requires (|msg| + from) % 64 == 0 && Absorbed(msg + data[..from])
      modifies state
      ensures from <= i <= inputLen < i + 64 && (|msg| + i) % 64 == 0
      ensures Absorbed(msg + data[..i])
    {
      i := from;
      ghost var k, last := 0, (inputLen - from) / 64;
      ghost var n := (|msg| + from) / 64;
      while (i + 63) % TWO_32 < inputLen
        invariant i == from + 64 * k && k <= last && i + 63 < TWO_32 && |msg| + i == 64 * n
        invariant Absorbed(msg + data[..i])
        decreases last - k
      {
        Small(i + 63, TWO_32);
        FullBlock(input, i, data);
        i, k, n := i + 64, k + 1, n + 1;
      }
    }

    /** The rest of an update, copied behind what the buffer holds of its last block: `m` is the
        message with the whole of `data`. */
    method BufferRest(input: array<Byte>, index: nat, i: nat, inputLen: nat, ghost data: seq<Byte>, ghost m: seq<Byte>)
      requires Shaped() && input != buffer && (input as object) != state && (input as object) != count
      requires i <= inputLen <= input.Length && data == input[..inputLen] && index + (inputLen - i) == |m| % 64
      requires Absorbed(m[..Whole(|m|)]) && Counted(|m|)
      requires buffer[..index] + data[i..] == m[Whole(|m|)..]
      modifies this`msg, buffer
      ensures Valid() && msg == m
    {
      Copy(buffer, index, input, i, inputLen - i);
      msg := m;
      assert buffer[..|m| % 64] == old(buffer[..index]) + data[i..];
      assert Holds(StatePart) && Holds(TailPart) && Holds(CountPart);
    }

    /** The blocks that an update completes: `i` bytes of the input are used up, and `left` of the
        buffer's count towards the rest. */
    method CompleteBlocks(input: array<Byte>, index: nat, inputLen: nat, ghost data: seq<Byte>, ghost m: seq<Byte>)
      returns (i: nat, left: nat)
      requires Shaped() && input != buffer && (input as object) != state
      requires index == |msg| % 64 && CounterFits(index, inputLen) && inputLen < TWO_32
      requires inputLen <= input.Length && data == input[..inputLen] && m == msg + data
      requires Absorbed(msg[..Whole(|msg|)]) && buffer[..index] == msg[Whole(|msg|)..]
      modifies state, buffer
      ensures i <= inputLen && left + (inputLen - i) == |m| % 64
      ensures Absorbed(m[..Whole(|m|)]) && buffer[..left] + data[i..] == m[Whole(|m|)..]
    {
      var partLen := 64 - index;
      assert |msg| + partLen == 64 * (|msg| / 64 + 1);
      if inputLen >= partLen {
        FillBlock(input, index, data);
        i := FullBlocks(input, partLen, inputLen, data);
        left := 0;
        RestAfterBlocks(msg, data, i);
      } else {
        i, left := 0, index;
        RestWithoutBlock(msg, data);
      }
    }

    /** MD5Update */
    method Update(input: array<Byte>, inputLen: nat)
      requires Valid() && input != buffer && (input as object) != state && (input as object) != count
      requires inputLen <= input.Length && inputLen < TWO_32 && CounterFits(|msg| % 64, inputLen)
      modifies this`msg, state, count, buffer
      ensures Valid() && msg == old(msg) + input[..inputLen]
    {
      assert Holds(StatePart) && Holds(TailPart) && Holds(CountPart);
      ghost var data := input[..inputLen];
      var index := BytesModulo64();
      CountUp(inputLen);
      var i;
      i, index := CompleteBlocks(input, index, inputLen, data, msg + data);
      BufferRest(input, index, i, inputLen, data, msg + data);
    }

    /** The length in bits before the padding, encoded. */
    method EncodeCount() returns (bits: array<Byte>)
      requires Shaped() && Counted(|msg|)
      ensures fresh(bits) && bits.Length == 8 && bits[..] == LengthBytes(w, |msg|)
    {
      assert Counts(Only, |msg|);
      bits := new Byte[8];
      var words := new W[] [w.of(count[0]), w.of(count[1])];
      Encode(w, bits, words, 8);
      assert words[..2] == [w.of(BitCount(|msg|).0), w.of(BitCount(|msg|).1)] && bits[..8] == bits[..];
    }

    method EncodeState(digest: array<Byte>)
      requires Shaped() && digest.Length == 16 && (digest as object) != state
      modifies digest
      ensures digest[..] == DigestOf(w, Held())
    {
      Encode(w, digest, state, 16);
      assert state[..4] == [state[0], state[1], state[2], state[3]] && digest[..16] == digest[..];
    }

    method Zeroize()
      requires Shaped()
      modifies state, count, buffer
      ensures state[..] == [w.of(0), w.of(0), w.of(0), w.of(0)] && count[..] == [0, 0]
      ensures forall k :: 0 <= k < 64 ==> buffer[k] == 0
    {
      Memset(state, w.of(0));
      Memset(count, 0);
      Memset(buffer, 0);
    }

    /** MD5Final up to the digest: the padding, then the length before it. */
    method Pad()
      requires Valid()
      modifies this`msg, state, count, buffer
      ensures Valid() && msg == Padded(w, old(msg))
    {
      assert Holds(CountPart);
      var bits := EncodeCount();
      var index := BytesModulo64();
      var padLen := if index < 56 then 56 - index else 120 - index;
      var padding := new Byte[64](i => if i == 0 then 0x80 else 0);
      assert padding[..padLen] == Padding(padLen);
      ShortUpdateFits(index, padLen);
      Update(padding, padLen);
      assert bits[..8] == bits[..];
      ShortUpdateFits(|msg| % 64, 8);
      Update(bits, 8);
    }

    /** MD5Final */
    method Final(digest: array<Byte>)
      requires Valid() && digest.Length == 16
      requires digest != buffer && (digest as object) != state && (digest as object) != count
      modifies this`msg, state, count, buffer, digest
      ensures digest[..] == Digest(w, old(msg))
      ensures state[..] == [w.of(0), w.of(0), w.of(0), w.of(0)] && count[..] == [0, 0]
      ensures forall k :: 0 <= k < 64 ==> buffer[k] == 0
    {
      Pad();
      assert Holds(StatePart) && msg[..Whole(|msg|)] == msg;
      AbsorbsAll(Compressor(w), Initial(w), Held(), msg);
      EncodeState(digest);
      Zeroize();
    }
  }

  function Joined(chunks: seq<seq<Byte>>): seq<Byte> {
    if chunks == [] then [] else Joined(chunks[..|chunks| - 1]) + chunks[|chunks| - 1]
  }

  /** MD5Init, one MD5Update for each chunk, and MD5Final: however the message is cut into
      chunks, the digest is the one RFC 1321 gives for the whole. */
  method DigestChunks(chunks: seq<seq<Byte>>) returns (digest: array<Byte>)
    requires forall i :: 0 <= i < |chunks| ==> |chunks[i]| <= TWO_32 - 64
    ensures digest.Length == 16 && digest[..] == Digest(UINT4, Joined(chunks))
  {
    var context := new Md5Context(UINT4);
    var i := 0;
    while i < |chunks|
      invariant i <= |chunks| && context.Valid() && context.w == UINT4 && fresh(context)
      invariant fresh(context.state) && fresh(context.count) && fresh(context.buffer)
      invariant context.msg == Joined(chunks[..i])
    {
      var chunk := chunks[i];
      var data := new Byte[|chunk|](k requires 0 <= k < |chunk| => chunk[k]);
      ShortUpdateFits(|context.msg| % 64, |chunk|);
      context.Update(data, |chunk|);
      assert data[..|chunk|] == chunk;
      assert chunks[..i + 1][..i] == chunks[..i];
      i := i + 1;
    }
    assert chunks[..|chunks|] == chunks;
    digest := new Byte[16];
    context.Final(digest);
  }
}
