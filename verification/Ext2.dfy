/** Reading an ext2 file: sectors, blocks, the block tree, and the read loop. */
module Ext2 {
  import opened Arithmetic
  import opened Collections
  import opened Ext2Layout

  /** A partition as its block device reads it; a sector that is absent cannot be read. */
  datatype Volume = Volume(blockSize: nat, sectorSize: nat, sectors: map<nat, seq<Byte>>)

  datatype Inode = Inode(direct: seq<nat>, single: nat, double: nat, triple: nat, size: nat)

  ghost predicate VolumeOk(v: Volume) {
    && v.sectorSize > 0 && v.blockSize > 0 && v.blockSize % v.sectorSize == 0 && v.blockSize % 4 == 0
    && forall s :: s in v.sectors ==> |v.sectors[s]| == v.sectorSize
  }

  /** Block pointers in a block. */
  function Pointers(v: Volume): (n: nat)
    requires v.blockSize > 0 && v.blockSize % 4 == 0
    ensures n > 0 && 4 * n == v.blockSize
  {
    v.blockSize / 4
  }

  // -------------------------------------------------------------------- blocks

  /** The first `n` sectors from `first` on, all readable. */
  ghost predicate Readable(v: Volume, first: nat, n: nat) {
    forall s: nat :: first <= s < first + n ==> s in v.sectors
  }

  ghost function Sectors(v: Volume, first: nat, n: nat): (r: seq<Byte>)
    requires VolumeOk(v) && Readable(v, first, n)
    ensures |r| == n * v.sectorSize
  {
    if n == 0 then []
    else
      assert n * v.sectorSize == (n - 1) * v.sectorSize + v.sectorSize;
      Sectors(v, first, n - 1) + v.sectors[first + n - 1]
  }

  function SectorsPerBlock(v: Volume): (n: nat)
    requires v.sectorSize > 0
  {
    v.blockSize / v.sectorSize
  }

  ghost predicate BlockReadable(v: Volume, b: nat)
    requires v.sectorSize > 0
  {
    Readable(v, b * SectorsPerBlock(v), SectorsPerBlock(v))
  }

  /** The contents of a block of the volume. */
  ghost function BlockBytes(v: Volume, b: nat): (r: seq<Byte>)
    requires VolumeOk(v) && BlockReadable(v, b)
    ensures |r| == v.blockSize
  {
    assert v.blockSize == v.blockSize / v.sectorSize * v.sectorSize + v.blockSize % v.sectorSize;
    Sectors(v, b * SectorsPerBlock(v), SectorsPerBlock(v))
  }

  /** MBR_read_block: one sector, to the bytes from `at` on. */
  method ReadSector(v: Volume, s: nat, dst: array<Byte>, at: nat) returns (ok: bool)
    requires VolumeOk(v) && at + v.sectorSize <= dst.Length
    modifies dst
    ensures ok <==> s in v.sectors
    ensures !ok ==> dst[..] == old(dst[..])
    ensures ok ==> dst[..] == old(dst[..at]) + v.sectors[s] + old(dst[at + v.sectorSize..])
  {
    if s !in v.sectors {
      return false;
    }
    var data := v.sectors[s];
    var i := 0;
    while i < |data|
      invariant i <= |data|
      invariant forall k :: at <= k < at + i ==> dst[k] == data[k - at]
      invariant forall k :: 0 <= k < dst.Length && !(at <= k < at + i) ==> dst[k] == old(dst[k])
    {
      dst[at + i] := data[i];
      i := i + 1;
    }
    return true;
  }

  /** ext2_read_block */
  method ReadBlock(v: Volume, block: nat, dst: array<Byte>) returns (ok: bool)
    requires VolumeOk(v) && v.blockSize <= dst.Length
    modifies dst
    ensures ok <==> BlockReadable(v, block)
    ensures ok ==> dst[..v.blockSize] == BlockBytes(v, block)
    ensures dst[v.blockSize..] == old(dst[v.blockSize..])
  {
    var sector := block * (v.blockSize / v.sectorSize);
    var n := v.blockSize / v.sectorSize;
    assert v.blockSize == n * v.sectorSize;
    var i, at := 0, 0;
    while i < n
      invariant i <= n && at == i * v.sectorSize <= v.blockSize
      invariant Readable(v, sector, i) && dst[..at] == Sectors(v, sector, i)
      invariant dst[v.blockSize..] == old(dst[v.blockSize..])
    {
      NextSector(i, n, v.sectorSize);
      var read := ReadSector(v, sector + i, dst, at);
      if !read {
        assert sector + i !in v.sectors;
        return false;
      }
      i := i + 1;
      at := at + v.sectorSize;
    }
    return true;
  }

  lemma {:induction false} NextSector(i: nat, n: nat, size: nat)
    requires i < n
    ensures i * size + size == (i + 1) * size <= n * size
  {
    MulMono(i + 1, n, size);
  }

  /** Byte by byte: a run of sectors is the sectors in order. */
  lemma {:induction false} SectorsAt(v: Volume, first: nat, n: nat, j: nat)
    requires VolumeOk(v) && Readable(v, first, n) && j < n * v.sectorSize
    ensures j / v.sectorSize < n && first + j / v.sectorSize in v.sectors
    ensures Sectors(v, first, n)[j] == v.sectors[first + j / v.sectorSize][j % v.sectorSize]
  {
    assert n * v.sectorSize == (n - 1) * v.sectorSize + v.sectorSize;
    if j < (n - 1) * v.sectorSize {
      SectorsAt(v, first, n - 1, j);
    } else {
      DivModUnique(j, v.sectorSize, n - 1, j - (n - 1) * v.sectorSize);
    }
  }

  lemma {:induction false} SectorsFill(v: Volume)
    requires VolumeOk(v)
    ensures SectorsPerBlock(v) * v.sectorSize == v.blockSize
  {
  }

  /** Byte `j` of block `b` of the volume, which begins at sector `first`. */
  lemma {:induction false} BlockByte(v: Volume, b: nat, j: nat, first: nat)
    requires VolumeOk(v) && BlockReadable(v, b) && j < v.blockSize && first == b * SectorsPerBlock(v)
    ensures first + j / v.sectorSize in v.sectors
    ensures BlockBytes(v, b)[j] == v.sectors[first + j / v.sectorSize][j % v.sectorSize]
  {
    SectorsFill(v);
    SectorsAt(v, first, SectorsPerBlock(v), j);
  }

  // ---------------------------------------------------------------- block tree

  /** Four digits to the base 256, lowest first. */
  function Little<B>(digit: B -> nat, s: seq<B>, i: nat): nat
    requires 4 * i + 4 <= |s|
  {
    digit(s[4 * i]) + 0x100 * digit(s[4 * i + 1]) + 0x1_0000 * digit(s[4 * i + 2])
    + 0x100_0000 * digit(s[4 * i + 3])
  }

  function ByteValue(x: Byte): nat { x as nat }

  /** Entry `i` of a block of pointers: 32 bits, little-endian. */
  function WordAt(bytes: seq<Byte>, i: nat): nat
    requires 4 * i + 4 <= |bytes|
  {
    Little(ByteValue, bytes, i)
  }

  lemma {:induction false} NextDigit(a: nat, rest: nat)
    requires a < 0x100
    ensures (a + 0x100 * rest) % 0x100 == a && (a + 0x100 * rest) / 0x100 == rest
  {
  }

  lemma {:induction false} FourDigits(a: nat, b: nat, c: nat, d: nat)
    requires a < 0x100 && b < 0x100 && c < 0x100 && d < 0x100
    ensures var x := a + 0x100 * b + 0x1_0000 * c + 0x100_0000 * d;
            && x < 0x1_0000_0000 && x % 0x100 == a && x / 0x100 % 0x100 == b
            && x / 0x100 / 0x100 % 0x100 == c && x / 0x100 / 0x100 / 0x100 == d
  {
    NextDigit(a, b + 0x100 * (c + 0x100 * d));
    NextDigit(b, c + 0x100 * d);
    NextDigit(c, d);
  }

  lemma {:induction false} LittleDigits<B(!new)>(digit: B -> nat, s: seq<B>, i: nat)
    requires IsDigit(digit) && 4 * i + 4 <= |s|
    ensures var x := Little(digit, s, i);
            && x < 0x1_0000_0000 && x % 0x100 == digit(s[4 * i]) && x / 0x100 % 0x100 == digit(s[4 * i + 1])
            && x / 0x100 / 0x100 % 0x100 == digit(s[4 * i + 2]) && x / 0x100 / 0x100 / 0x100 == digit(s[4 * i + 3])
  {
    FourDigits(digit(s[4 * i]), digit(s[4 * i + 1]), digit(s[4 * i + 2]), digit(s[4 * i + 3]));
  }

  /** A pointer is the number below 2^32 whose digits to the base 256 are its four bytes, the lowest
      first. */
  lemma {:induction false} WordAtBytes(bytes: seq<Byte>, i: nat)
    requires 4 * i + 4 <= |bytes|
    ensures var x := WordAt(bytes, i);
            && x < 0x1_0000_0000 && x % 0x100 == bytes[4 * i] as nat
            && x / 0x100 % 0x100 == bytes[4 * i + 1] as nat
            && x / 0x100 / 0x100 % 0x100 == bytes[4 * i + 2] as nat
            && x / 0x100 / 0x100 / 0x100 == bytes[4 * i + 3] as nat
  {
    ByteIsDigit();
    LittleDigits(ByteValue, bytes, i);
  }

  ghost predicate InodeOk(ino: Inode) {
    |ino.direct| == NUM_DIRECT
  }

  /** The block of pointers that decides which block is read, if any. */
  function PointerBlock(ino: Inode, p: Place): nat {
    if p.Triple? then ino.double else ino.single
  }

  ghost predicate PointersReadable(v: Volume, ino: Inode, p: Place)
    requires VolumeOk(v)
  {
    p.Direct? || p.Beyond? || BlockReadable(v, PointerBlock(ino, p))
  }

  /** The number of the block that read_inode_block reads last, into its caller's buffer. */
  ghost function Target(v: Volume, ino: Inode, p: Place): nat
    requires VolumeOk(v) && InodeOk(ino) && InRange(p, Pointers(v)) && PointersReadable(v, ino, p)
  {
    match p
    case Direct(i) => ino.direct[i]
    case Single(i) => WordAt(BlockBytes(v, ino.single), i)
    case Double(_, d) => WordAt(BlockBytes(v, ino.single), d)
    case Triple(_, _, q) => WordAt(BlockBytes(v, ino.double), q)
  }

  /** The block at a place of the file can be read, with the pointers on the way. */
  ghost predicate PlaceReadable(v: Volume, ino: Inode, p: Place)
    requires VolumeOk(v) && InodeOk(ino)
  {
    InRange(p, Pointers(v)) && PointersReadable(v, ino, p) && BlockReadable(v, Target(v, ino, p))
  }

  /** The pointers that decide, by the number of the file's block: in the inode, in the singly indirect
      block, in the singly indirect block again, and in the doubly indirect block. */
  lemma {:induction false} TargetOf(v: Volume, ino: Inode, k: nat)
    requires VolumeOk(v) && InodeOk(ino) && BlockReadable(v, ino.single) && BlockReadable(v, ino.double)
    requires var n := Pointers(v); k < 12 + n + n * n + n * n * n
    ensures var n, p := Pointers(v), PlaceOf(k, Pointers(v));
            && InRange(p, n) && PointersReadable(v, ino, p)
            && Target(v, ino, p)
               == if k < 12 then ino.direct[k]
                  else if k < 12 + n then WordAt(BlockBytes(v, ino.single), k - 12)
                  else if k < 12 + n + n * n then WordAt(BlockBytes(v, ino.single), (k - 12 - n) % n)
                  else WordAt(BlockBytes(v, ino.double), (k - 12 - n - n * n) % n)
  {
    var n := Pointers(v);
    PlaceInRange(k, n);
    if k >= 12 + n + n * n {
      NonZero(n);
      ModTwice(k - 12 - n - n * n, n, n * n);
    }
  }

  lemma {:induction false} TwoFactors(q: nat, n: nat, d: nat, r: nat)
    ensures q * (n * n) + (d * n + r) == (q * n + d) * n + r
  {
    assert q * (n * n) == q * n * n;
    assert (q * n + d) * n == q * n * n + d * n;
  }

  lemma {:induction false} ModTwice(x: nat, n: nat, m: nat)
    requires n > 0 && m > 0 && m == n * n
    ensures x % m % n == x % n
  {
    var q, r := x / m, x % m;
    assert x == q * m + r && r == r / n * n + r % n;
    TwoFactors(q, n, r / n, r % n);
    DivModUnique(x, n, q * n + r / n, r % n);
  }

  // ------------------------------------- doubly and triply indirect blocks

  /** The block ext2 assigns to a doubly indirect place: through the doubly indirect block. */
  ghost function DoubleAssigned(v: Volume, ino: Inode, s: nat, d: nat): nat
    requires VolumeOk(v) && s < Pointers(v) && d < Pointers(v) && BlockReadable(v, ino.double)
    requires BlockReadable(v, WordAt(BlockBytes(v, ino.double), s))
  {
    WordAt(BlockBytes(v, WordAt(BlockBytes(v, ino.double), s)), d)
  }

  /** The block of pointers that decides a triply indirect place, through the two above it. */
  ghost function TripleTable(v: Volume, ino: Inode, s: nat, t: nat): nat
    requires VolumeOk(v) && s < Pointers(v) && t < Pointers(v) && BlockReadable(v, ino.triple)
    requires BlockReadable(v, WordAt(BlockBytes(v, ino.triple), s))
  {
    WordAt(BlockBytes(v, WordAt(BlockBytes(v, ino.triple), s)), t)
  }

  ghost function TripleAssigned(v: Volume, ino: Inode, s: nat, t: nat, q: nat): nat
    requires VolumeOk(v) && s < Pointers(v) && t < Pointers(v) && q < Pointers(v) && BlockReadable(v, ino.triple)
    requires BlockReadable(v, WordAt(BlockBytes(v, ino.triple), s)) && BlockReadable(v, TripleTable(v, ino, s, t))
  {
    WordAt(BlockBytes(v, TripleTable(v, ino, s, t)), q)
  }

  lemma {:induction false} ByteOfNat(x: Byte)
    ensures (x as nat) as Byte == x
  {
  }

  lemma {:induction false} SameByte(x: Byte, y: Byte)
    requires x as nat == y as nat
    ensures x == y
  {
    ByteOfNat(x);
    ByteOfNat(y);
  }

  lemma {:induction false} LowDigit(a: nat, x: nat, b: nat, y: nat)
    requires a < 0x100 && b < 0x100 && a + 0x100 * x == b + 0x100 * y
    ensures a == b && x == y
  {
  }

  ghost predicate IsDigit<B(!new)>(digit: B -> nat) {
    && (forall x :: digit(x) < 0x100)
    && (forall x, y :: digit(x) == digit(y) ==> x == y)
  }

  lemma {:induction false} SameFour<B(!new)>(digit: B -> nat, a: seq<B>, b: seq<B>, i: nat)
    requires IsDigit(digit) && 4 * i + 4 <= |a| && 4 * i + 4 <= |b| && Little(digit, a, i) == Little(digit, b, i)
    ensures a[4 * i] == b[4 * i] && a[4 * i + 1] == b[4 * i + 1]
    ensures a[4 * i + 2] == b[4 * i + 2] && a[4 * i + 3] == b[4 * i + 3]
  {
    var a0, a1, a2, a3 := digit(a[4 * i]), digit(a[4 * i + 1]), digit(a[4 * i + 2]), digit(a[4 * i + 3]);
    var b0, b1, b2, b3 := digit(b[4 * i]), digit(b[4 * i + 1]), digit(b[4 * i + 2]), digit(b[4 * i + 3]);
    LowDigit(a0, a1 + 0x100 * (a2 + 0x100 * a3), b0, b1 + 0x100 * (b2 + 0x100 * b3));
    LowDigit(a1, a2 + 0x100 * a3, b1, b2 + 0x100 * b3);
    LowDigit(a2, a3, b2, b3);
  }

  lemma {:induction false} ByteIsDigit()
    ensures IsDigit(ByteValue)
  {
    forall x: Byte, y: Byte | ByteValue(x) == ByteValue(y)
      ensures x == y
    {
      SameByte(x, y);
    }
  }

  lemma {:induction false} SameDigitsIff<B(!new)>(digit: B -> nat, a: seq<B>, b: seq<B>, n: nat)
    requires IsDigit(digit) && |a| == |b| == 4 * n
    ensures (forall i :: 0 <= i < n ==> Little(digit, a, i) == Little(digit, b, i)) <==> a == b
  {
    if forall i :: 0 <= i < n ==> Little(digit, a, i) == Little(digit, b, i) {
      forall j | 0 <= j < 4 * n
        ensures a[j] == b[j]
      {
        SameFour(digit, a, b, j / 4);
        assert j == 4 * (j / 4) + j % 4;
      }
    }
  }

  /** Blocks of pointers agree on every pointer exactly when they hold the same bytes. */
  lemma {:induction false} SamePointersIff(a: seq<Byte>, b: seq<Byte>, n: nat)
    requires |a| == |b| == 4 * n
    ensures (forall i :: 0 <= i < n ==> WordAt(a, i) == WordAt(b, i)) <==> a == b
  {
    ByteIsDigit();
    SameDigitsIff(ByteValue, a, b, n);
    assert forall i :: 0 <= i < n ==>
             WordAt(a, i) == Little(ByteValue, a, i) && WordAt(b, i) == Little(ByteValue, b, i);
  }

  /** The doubly indirect branch delivers the blocks ext2 assigns below entry `s` of the doubly
      indirect block if and only if the block that entry names and the singly indirect block hold
      the same bytes. */
  lemma {:induction false} DoubleFollowsIff(v: Volume, ino: Inode, s: nat)
    requires VolumeOk(v) && InodeOk(ino) && s < Pointers(v)
    requires BlockReadable(v, ino.single) && BlockReadable(v, ino.double)
    requires BlockReadable(v, WordAt(BlockBytes(v, ino.double), s))
    ensures (forall d: nat :: d < Pointers(v) ==> Target(v, ino, Double(s, d)) == DoubleAssigned(v, ino, s, d))
       <==> BlockBytes(v, ino.single) == BlockBytes(v, WordAt(BlockBytes(v, ino.double), s))
  {
    var a, b := BlockBytes(v, ino.single), BlockBytes(v, WordAt(BlockBytes(v, ino.double), s));
    SamePointersIff(a, b, Pointers(v));
    assert forall d: nat :: d < Pointers(v) ==>
             Target(v, ino, Double(s, d)) == WordAt(a, d) && DoubleAssigned(v, ino, s, d) == WordAt(b, d);
  }

  /** The triply indirect branch does so below entries `s` and `t` if and only if the block of
      pointers they lead to and the doubly indirect block hold the same bytes. */
  lemma {:induction false} TripleFollowsIff(v: Volume, ino: Inode, s: nat, t: nat)
    requires VolumeOk(v) && InodeOk(ino) && s < Pointers(v) && t < Pointers(v)
    requires BlockReadable(v, ino.double) && BlockReadable(v, ino.triple)
    requires BlockReadable(v, WordAt(BlockBytes(v, ino.triple), s)) && BlockReadable(v, TripleTable(v, ino, s, t))
    ensures (forall q: nat :: q < Pointers(v) ==> Target(v, ino, Triple(s, t, q)) == TripleAssigned(v, ino, s, t, q))
       <==> BlockBytes(v, ino.double) == BlockBytes(v, TripleTable(v, ino, s, t))
  {
    var a, b := BlockBytes(v, ino.double), BlockBytes(v, TripleTable(v, ino, s, t));
    SamePointersIff(a, b, Pointers(v));
    assert forall q: nat :: q < Pointers(v) ==>
             Target(v, ino, Triple(s, t, q)) == WordAt(a, q) && TripleAssigned(v, ino, s, t, q) == WordAt(b, q);
  }

  /** What every pointer in a block of the sample volume says: 1 is the singly indirect block,
      2 the doubly indirect one and 4 the triply indirect one. */
  function SampleByte(b: nat): Byte {
    if b == 1 then 5
    else if b == 2 then 3
    else if b == 3 then 6
    else if b == 4 then 2
    else if b == 5 then 7
    else 8
  }

  function SampleSector(w: Byte): (r: seq<Byte>)
    ensures |r| == 512
  {
    seq(512, j => if j % 4 == 0 then w else 0)
  }

  /** Blocks of 1024 bytes on sectors of 512. */
  function SampleVolume(): Volume {
    Volume(1024, 512, map s: nat | s < 14 :: SampleSector(SampleByte(s / 2)))
  }

  function SampleInode(): Inode {
    Inode(seq(NUM_DIRECT, _ => 0), 1, 2, 4, 0)
  }

  /** A run of sectors begins with the first of them. */
  lemma {:induction false} SectorsBegin(v: Volume, first: nat, n: nat, j: nat)
    requires VolumeOk(v) && Readable(v, first, n) && n > 0 && j < v.sectorSize
    ensures j < |Sectors(v, first, n)| && Sectors(v, first, n)[j] == v.sectors[first][j]
  {
    if n > 1 {
      SectorsBegin(v, first, n - 1, j);
    } else {
      assert Sectors(v, first, 0) == [];
    }
  }

  lemma {:induction false} SampleOk()
    ensures VolumeOk(SampleVolume())
  {
  }

  lemma {:induction false} LowWord(bytes: seq<Byte>, w: Byte)
    requires |bytes| >= 4 && bytes[0] == w && bytes[1] == bytes[2] == bytes[3] == 0
    ensures WordAt(bytes, 0) == ByteValue(w)
  {
  }

  lemma {:induction false} SamplePointer(v: Volume, b: nat)
    requires v == SampleVolume() && VolumeOk(v) && b < 7
    ensures BlockReadable(v, b) && WordAt(BlockBytes(v, b), 0) == ByteValue(SampleByte(b))
  {
    assert SectorsPerBlock(v) == 2;
    assert v.sectors[2 * b] == SampleSector(SampleByte(b));
    SectorsBegin(v, 2 * b, 2, 0);
    SectorsBegin(v, 2 * b, 2, 1);
    SectorsBegin(v, 2 * b, 2, 2);
    SectorsBegin(v, 2 * b, 2, 3);
    LowWord(BlockBytes(v, b), SampleByte(b));
  }

  ghost predicate SamplePointers(v: Volume) {
    && VolumeOk(v) && v.blockSize == 1024
    && forall b: nat :: b < 7 ==> BlockReadable(v, b) && WordAt(BlockBytes(v, b), 0) == ByteValue(SampleByte(b))
  }

  lemma {:induction false} SampleHolds()
    ensures SamplePointers(SampleVolume())
  {
    var v := SampleVolume();
    SampleOk();
    forall b: nat | b < 7
      ensures BlockReadable(v, b) && WordAt(BlockBytes(v, b), 0) == ByteValue(SampleByte(b))
    {
      SamplePointer(v, b);
    }
  }

  /** A volume on which both branches deliver a block other than the one assigned, with other
      contents. */
  lemma {:induction false} FarBlocksDiffer(v: Volume, ino: Inode)
    requires v == SampleVolume() && ino == SampleInode()
    ensures VolumeOk(v) && InodeOk(ino) && forall b: nat :: b < 7 ==> BlockReadable(v, b)
    ensures WordAt(BlockBytes(v, ino.double), 0) == 3 && WordAt(BlockBytes(v, ino.triple), 0) == 2
    ensures TripleTable(v, ino, 0, 0) == 3
    ensures Target(v, ino, Double(0, 0)) == 5 && DoubleAssigned(v, ino, 0, 0) == 6
    ensures Target(v, ino, Triple(0, 0, 0)) == 3 && TripleAssigned(v, ino, 0, 0, 0) == 6
    ensures BlockBytes(v, 5) != BlockBytes(v, 6) && BlockBytes(v, 3) != BlockBytes(v, 6)
  {
    SampleHolds();
    SampleDouble(v, ino);
    SampleTriple(v, ino);
  }

  /** What the first pointer of a block of the sample says. */
  lemma {:induction false} SampleSays(v: Volume, b: nat, w: nat)
    requires SamplePointers(v) && b < 7 && w == ByteValue(SampleByte(b))
    ensures BlockReadable(v, b) && WordAt(BlockBytes(v, b), 0) == w
  {
  }

  lemma {:induction false} SampleDouble(v: Volume, ino: Inode)
    requires SamplePointers(v) && InodeOk(ino) && ino.single == 1 && ino.double == 2
    ensures WordAt(BlockBytes(v, ino.double), 0) == 3
    ensures Target(v, ino, Double(0, 0)) == 5 && DoubleAssigned(v, ino, 0, 0) == 6
    ensures BlockBytes(v, 5) != BlockBytes(v, 6)
  {
    SampleSays(v, 1, 5);
    SampleSays(v, 2, 3);
    SampleSays(v, 3, 6);
    SampleSays(v, 5, 7);
    SampleSays(v, 6, 8);
  }

  lemma {:induction false} SampleTriple(v: Volume, ino: Inode)
    requires SamplePointers(v) && InodeOk(ino) && ino.double == 2 && ino.triple == 4
    ensures WordAt(BlockBytes(v, ino.triple), 0) == 2 && TripleTable(v, ino, 0, 0) == 3
    ensures Target(v, ino, Triple(0, 0, 0)) == 3 && TripleAssigned(v, ino, 0, 0, 0) == 6
    ensures BlockBytes(v, 3) != BlockBytes(v, 6)
  {
    SampleSays(v, 2, 3);
    SampleSays(v, 3, 6);
    SampleSays(v, 4, 2);
    SampleSays(v, 6, 8);
  }

  // ----------------------------------------------------- reading a file's block

  /** A pointer fetched from a block of pointers, as far as that could be read. */
  method Fetch(v: Volume, pointers: nat, buffer: array<Byte>, i: nat) returns (block: nat)
    requires VolumeOk(v) && buffer.Length == v.blockSize && i < Pointers(v)
    modifies buffer
    ensures BlockReadable(v, pointers) ==>
              buffer[..] == BlockBytes(v, pointers) && block == WordAt(BlockBytes(v, pointers), i)
  {
    var ok := ReadBlock(v, pointers, buffer);
    assert buffer[..v.blockSize] == buffer[..];
    block := WordAt(buffer[..], i);
  }

  /** What each branch of read_inode_block leaves in its caller's buffer. */
  twostate predicate Delivered(v: Volume, ino: Inode, p: Place, dst: array<Byte>)
    requires VolumeOk(v) && InodeOk(ino) && v.blockSize <= dst.Length
    reads dst
  {
    && (PlaceReadable(v, ino, p) ==> dst[..v.blockSize] == BlockBytes(v, Target(v, ino, p)))
    && dst[v.blockSize..] == old(dst[v.blockSize..])
  }

  method ReadSingle(v: Volume, ino: Inode, i: nat, dst: array<Byte>)
    requires VolumeOk(v) && InodeOk(ino) && v.blockSize <= dst.Length && i < Pointers(v)
    modifies dst
    ensures Delivered(v, ino, Single(i), dst)
  {
    var indirect := new Byte[v.blockSize];
    var block := Fetch(v, ino.single, indirect, i);
    var _ := ReadBlock(v, block, dst);
  }

  method ReadDouble(v: Volume, ino: Inode, singleOff: nat, doubleOff: nat, dst: array<Byte>)
    requires VolumeOk(v) && InodeOk(ino) && v.blockSize <= dst.Length
    requires singleOff < Pointers(v) && doubleOff < Pointers(v)
    modifies dst
    ensures Delivered(v, ino, Double(singleOff, doubleOff), dst)
  {
    var indirect := new Byte[v.blockSize];
    var next := Fetch(v, ino.single, indirect, singleOff);
    var indirecter := new Byte[v.blockSize];
    var _ := ReadBlock(v, next, indirecter);
    var block := WordAt(indirect[..], doubleOff);
    var _ := ReadBlock(v, block, dst);
  }

  method ReadTriple(v: Volume, ino: Inode, singleOff: nat, tripleOff: nat, quadOff: nat, dst: array<Byte>)
    requires VolumeOk(v) && InodeOk(ino) && v.blockSize <= dst.Length
    requires singleOff < Pointers(v) && tripleOff < Pointers(v) && quadOff < Pointers(v)
    modifies dst
    ensures Delivered(v, ino, Triple(singleOff, tripleOff, quadOff), dst)
  {
    var indirect := new Byte[v.blockSize];
    var next := Fetch(v, ino.double, indirect, singleOff);
    var indirecter := new Byte[v.blockSize];
    var _ := ReadBlock(v, next, indirecter);
    var further := WordAt(indirecter[..], tripleOff);
    var _ := ReadBlock(v, further, indirecter);
    var block := WordAt(indirect[..], quadOff);
    var _ := ReadBlock(v, block, dst);
  }

  /** The branches of read_inode_block for blocks beyond the singly indirect ones. */
  method ReadFar(v: Volume, ino: Inode, n: nat, k: nat, dst: array<Byte>)
    requires VolumeOk(v) && InodeOk(ino) && v.blockSize <= dst.Length
    requires n == Pointers(v) && NUM_DIRECT + n <= k
    modifies dst
    ensures Delivered(v, ino, PlaceOf(k, n), dst)
  {
    var m := n * n;
    NonZero(n);
    if k - NUM_DIRECT - n < m {
      var off := k - NUM_DIRECT - n;
      DoublePlace(k, n, off);
      ReadDouble(v, ino, off / n, off % n, dst);
    } else if k - NUM_DIRECT - n - m < n * m {
      var off := k - NUM_DIRECT - n - m;
      TriplePlace(k, n, m, off);
      ReadTriple(v, ino, off / m, off % m / n, off % m % n, dst);
    } else {
      CubeNonNegative(n);
    }
  }

  /** read_inode_block */
  method ReadInodeBlock(v: Volume, ino: Inode, k: nat, dst: array<Byte>)
    requires VolumeOk(v) && InodeOk(ino) && v.blockSize <= dst.Length
    modifies dst
    ensures Delivered(v, ino, PlaceOf(k, Pointers(v)), dst)
    ensures k < 12 && BlockReadable(v, ino.direct[k]) ==> dst[..v.blockSize] == BlockBytes(v, ino.direct[k])
    ensures 12 <= k < 12 + v.blockSize / 4 && BlockReadable(v, ino.single) ==>
              var block := WordAt(BlockBytes(v, ino.single), k - 12);
              BlockReadable(v, block) ==> dst[..v.blockSize] == BlockBytes(v, block)
  {
    var n := v.blockSize / 4;
    if k < NUM_DIRECT {
      var _ := ReadBlock(v, ino.direct[k], dst);
    } else if k - NUM_DIRECT < n {
      ReadSingle(v, ino, k - NUM_DIRECT, dst);
    } else {
      ReadFar(v, ino, n, k, dst);
    }
  }
}