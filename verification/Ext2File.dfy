/** Reading an open ext2 file through its cursor. */
module Ext2Files {
  import opened Arithmetic
  import opened Collections
  import opened Ext2Layout
  import opened Ext2Reads
  import opened Ext2

  // ------------------------------------------------------------ a file's bytes

  /** A file as its blocks and its size; the last block may hold more. */
  datatype Image = Image(block: nat, size: nat, blocks: seq<seq<Byte>>)

  ghost predicate ImageOk(im: Image) {
    && im.block > 0
    && forall k :: 0 <= k < |im.blocks| ==> |im.blocks[k]| == im.block
  }

  /** The blocks cover the file. */
  ghost predicate Covers(im: Image) {
    im.size <= |im.blocks| * im.block
  }

  /** The byte of the file's blocks at an offset, within the file or the rest of its last block. */
  ghost function ByteAt(im: Image, p: nat): Byte
    requires ImageOk(im)
  {
    if p / im.block < |im.blocks| then im.blocks[p / im.block][p % im.block] else 0
  }

  /** `n` bytes of the file's blocks from an offset. */
  ghost function Bytes(im: Image, from: nat, n: nat): (r: seq<Byte>)
    requires ImageOk(im)
    ensures |r| == n
  {
    seq(n, j requires 0 <= j < n => ByteAt(im, from + j))
  }

  ghost function Contents(im: Image): (r: seq<Byte>)
    requires ImageOk(im)
    ensures |r| == im.size
  {
    Bytes(im, 0, im.size)
  }

  lemma {:induction false} BytesJoin(im: Image, from: nat, a: nat, b: nat)
    requires ImageOk(im)
    ensures Bytes(im, from, a) + Bytes(im, from + a, b) == Bytes(im, from, a + b)
  {
  }

  lemma {:induction false} BytesOfContents(im: Image, from: nat, n: nat)
    requires ImageOk(im) && from + n <= im.size
    ensures Bytes(im, from, n) == Contents(im)[from..from + n]
  {
  }

  /** The blocks one after another. */
  ghost function Joined(blocks: seq<seq<Byte>>): seq<Byte> {
    if blocks == [] then [] else Joined(blocks[..|blocks| - 1]) + blocks[|blocks| - 1]
  }

  lemma {:induction false} JoinedAt(im: Image, n: nat)
    requires ImageOk(im) && n <= |im.blocks|
    ensures Joined(im.blocks[..n]) == Bytes(im, 0, n * im.block)
  {
    if n == 0 {
      assert Joined(im.blocks[..0]) == [];
    } else {
      var bs := im.blocks[..n];
      assert bs[..n - 1] == im.blocks[..n - 1];
      JoinedAt(im, n - 1);
      DivModUnique((n - 1) * im.block, im.block, n - 1, 0);
      BytesInBlock(im, (n - 1) * im.block, im.block, n - 1, 0);
      BytesJoin(im, 0, (n - 1) * im.block, im.block);
      assert im.blocks[n - 1][0..im.block] == im.blocks[n - 1];
      assert (n - 1) * im.block + im.block == n * im.block;
    }
  }

  /** The contents of a file are its blocks one after another, up to its size. */
  lemma {:induction false} ContentsAreBlocks(im: Image)
    requires ImageOk(im) && Covers(im)
    ensures im.size <= |Joined(im.blocks)| && Contents(im) == Joined(im.blocks)[..im.size]
  {
    assert im.blocks[..|im.blocks|] == im.blocks;
    JoinedAt(im, |im.blocks|);
  }

  /** The block an offset within the file lies in. */
  lemma {:induction false} InFile(im: Image, cursor: nat)
    requires ImageOk(im) && Covers(im) && cursor < im.size
    ensures cursor / im.block < |im.blocks|
  {
    MulMono(|im.blocks|, cursor / im.block, im.block);
  }

  lemma {:induction false} ByteInBlock(im: Image, cursor: nat, j: nat)
    requires ImageOk(im) && cursor / im.block < |im.blocks| && cursor % im.block + j < im.block
    ensures ByteAt(im, cursor + j) == im.blocks[cursor / im.block][cursor % im.block + j]
  {
    DivModUnique(cursor + j, im.block, cursor / im.block, cursor % im.block + j);
  }

  /** Bytes that stay within the block of an offset. */
  lemma {:induction false} BytesInBlock(im: Image, cursor: nat, n: nat, k: nat, start: nat)
    requires ImageOk(im) && k == cursor / im.block < |im.blocks| && start == cursor % im.block && start + n <= im.block
    ensures Bytes(im, cursor, n) == im.blocks[k][start..start + n]
  {
    forall j | 0 <= j < n
      ensures Bytes(im, cursor, n)[j] == im.blocks[k][start + j]
    {
      ByteInBlock(im, cursor, j);
    }
  }

  // ------------------------------------------------------- a file on a volume

  /** Block `k` of the file is mapped directly or singly indirectly, and holds these bytes. */
  ghost predicate Mapped(v: Volume, ino: Inode, k: nat, bytes: seq<Byte>)
    requires VolumeOk(v) && InodeOk(ino)
  {
    var p := PlaceOf(k, Pointers(v));
    (p.Direct? || p.Single?) && PlaceReadable(v, ino, p) && BlockBytes(v, Target(v, ino, p)) == bytes
  }

  datatype FilePart = ShapePart | BlocksPart

  ghost predicate Holds(part: FilePart, v: Volume, ino: Inode, im: Image) {
    match part
    case ShapePart => VolumeOk(v) && InodeOk(ino) && Covers(im) && im.block == v.blockSize && im.size == ino.size
    case BlocksPart =>
      VolumeOk(v) && InodeOk(ino) && forall k :: 0 <= k < |im.blocks| ==> Mapped(v, ino, k, im.blocks[k])
  }

  /** The volume holds the file. Opened part by part. */
  ghost predicate OnVolume(v: Volume, ino: Inode, im: Image) {
    ImageOk(im) && forall part: FilePart :: Holds(part, v, ino, im)
  }

  /** A file of at most `n` readable blocks, none beyond the singly indirect ones. */
  ghost predicate Reachable(v: Volume, ino: Inode, n: nat) {
    && VolumeOk(v) && InodeOk(ino) && ino.size <= n * v.blockSize && n <= NUM_DIRECT + Pointers(v)
    && forall k: nat :: k < n ==> PlaceReadable(v, ino, PlaceOf(k, Pointers(v)))
  }

  ghost function ImageOf(v: Volume, ino: Inode, n: nat): (im: Image)
    requires Reachable(v, ino, n)
  {
    Image(v.blockSize, ino.size,
          seq(n, k requires 0 <= k < n => BlockBytes(v, Target(v, ino, PlaceOf(k, Pointers(v))))))
  }

  /** Every such file has its image. */
  lemma {:induction false} ImageOnVolume(v: Volume, ino: Inode, n: nat)
    requires Reachable(v, ino, n)
    ensures OnVolume(v, ino, ImageOf(v, ino, n))
  {
    var im := ImageOf(v, ino, n);
    forall k | 0 <= k < n
      ensures Mapped(v, ino, k, im.blocks[k])
    {
      assert PlaceReadable(v, ino, PlaceOf(k, Pointers(v)));
    }
  }

  /** read_inode_block delivers the file's block. */
  method FileBlock(v: Volume, ino: Inode, k: nat, dst: array<Byte>, ghost im: Image)
    requires OnVolume(v, ino, im) && k < |im.blocks| && dst.Length == im.block
    modifies dst
    ensures dst[..] == im.blocks[k]
  {
    assert Holds(ShapePart, v, ino, im) && Holds(BlocksPart, v, ino, im);
    assert Mapped(v, ino, k, im.blocks[k]);
    ReadInodeBlock(v, ino, k, dst);
    assert dst[..v.blockSize] == dst[..];
  }

  // ------------------------------------------------------------------ the file

  /** Cursors are C ints. */
  const INT_MAX := 0x7fff_ffff

  class Ext2File {
    const vol: Volume
    const ino: Inode
    ghost const image: Image
    var cursor: nat

    ghost predicate Valid() {
      && OnVolume(vol, ino, image) && vol.blockSize == image.block && ino.size == image.size
      && ino.size + vol.blockSize <= INT_MAX
    }

    /** ext2_file_open */
    constructor (vol: Volume, ino: Inode, ghost image: Image)
      requires OnVolume(vol, ino, image) && ino.size + vol.blockSize <= INT_MAX
      ensures Valid() && this.image == image && cursor == 0
    {
      assert Holds(ShapePart, vol, ino, image);
      this.vol, this.ino, this.image := vol, ino, image;
      cursor := 0;
    }

    /** One round of the read loop: `n` bytes of block `k` go to `at`. */
    method Deliver(dst: array<Byte>, at: nat, content: array<Byte>, k: nat, n: nat) returns (ghost piece: seq<Byte>)
      requires Valid() && cursor < image.size && At(image.block, cursor, k, n)
      requires content.Length == image.block && dst != content && at + n <= dst.Length
      modifies dst, content
      ensures |piece| == n && FileBytes(image, cursor, piece)
      ensures dst[..at + n] == old(dst[..at]) + piece
      ensures forall j :: at + n <= j < dst.Length ==> dst[j] == old(dst[j])
    {
      assert Holds(ShapePart, vol, ino, image) && IsAt(Only, image.block, cursor, k, n);
      InFile(image, cursor);
      BytesInBlock(image, cursor, n, k, cursor % image.block);
      piece := Bytes(image, cursor, n);
      FileBlock(vol, ino, k, content, image);
      Copy(dst, at, content, cursor % vol.blockSize, n);
    }

    /** The block the cursor stands in. */
    method StartBlock() returns (k: nat)
      requires vol.blockSize > 0
      ensures At(vol.blockSize, cursor, k, 0)
    {
      k := cursor / vol.blockSize;
      assert IsAt(Only, vol.blockSize, cursor, k, 0);
    }

    /** How much the read loop copies in one round, from block `k`. */
    method Chunk(bytesRead: nat, len: int, ghost k: nat, ghost rest: nat) returns (copied: nat)
      requires vol.blockSize > 0 && bytesRead < len && cursor < ino.size && At(vol.blockSize, cursor, k, 0)
      requires Copies(ino.size, vol.blockSize, cursor, len - bytesRead, rest)
      ensures At(vol.blockSize, cursor, k, copied) && 0 < copied <= rest && copied <= vol.blockSize
      ensures Copies(ino.size, vol.blockSize, cursor + copied, len - bytesRead - copied, rest - copied)
      ensures copied < len - bytesRead && cursor + copied < ino.size ==> At(vol.blockSize, cursor + copied, k + 1, 0)
    {
      var bs := vol.blockSize;
      assert IsCopied(Only, ino.size, bs, cursor, len - bytesRead, rest) && IsAt(Only, bs, cursor, k, 0);
      NextBlock(cursor, bs);
      if cursor % bs != 0 {
        copied := bs - cursor % bs;
      } else if bytesRead + bs >= len {
        copied := len - bytesRead;
      } else if cursor + bs >= ino.size {
        copied := ino.size - cursor;
      } else {
        copied := bs;
      }
      assert IsCopied(Only, ino.size, bs, cursor + copied, len - bytesRead - copied, rest - copied);
      assert IsAt(Only, bs, cursor, k, copied);
    }

    /** One round of the read loop. */
    method Round(dst: array<Byte>, at: nat, len: int, content: array<Byte>, k: nat, ghost rest: nat)
      returns (copied: nat, ghost piece: seq<Byte>)
      requires Valid() && at < len && at + rest <= dst.Length && content.Length == image.block && dst != content
      requires cursor < image.size && At(image.block, cursor, k, 0)
      requires Copies(image.size, image.block, cursor, len - at, rest)
      modifies this`cursor, dst, content
      ensures cursor == old(cursor) + copied && |piece| == copied && 0 < copied <= rest && at + copied <= dst.Length
      ensures Copies(image.size, image.block, cursor, len - at - copied, rest - copied)
      ensures copied < len - at && cursor < image.size ==> At(image.block, cursor, k + 1, 0)
      ensures FileBytes(image, old(cursor), piece)
      ensures dst[..at + copied] == old(dst[..at]) + piece
      ensures forall j :: at + copied <= j < dst.Length ==> dst[j] == old(dst[j])
    {
      copied := Chunk(at, len, k, rest);
      piece := Deliver(dst, at, content, k, copied);
      cursor := cursor + copied;
    }

    /** The read loop. */
    method ReadLoop(dst: array<Byte>, len: int, ghost total: nat) returns (bytesRead: nat, ghost got: seq<Byte>)
      requires Valid() && total <= dst.Length
      requires Copies(image.size, image.block, cursor, len, total)
      modifies this`cursor, dst
      ensures bytesRead == total == |got| && cursor == old(cursor) + bytesRead && bytesRead <= dst.Length
      ensures FileBytes(image, old(cursor), got) && dst[..bytesRead] == got
      ensures forall j :: bytesRead <= j < dst.Length ==> dst[j] == old(dst[j])
    {
      bytesRead := 0;
      got := [];
      var block := StartBlock();
      var content := new Byte[vol.blockSize];
      while bytesRead < len && cursor < ino.size
        invariant cursor == old(cursor) + bytesRead && bytesRead == |got| <= total && bytesRead <= dst.Length
        invariant Copies(image.size, image.block, cursor, len - bytesRead, total - bytesRead)
        invariant bytesRead < len && cursor < ino.size ==> At(image.block, cursor, block, 0)
        invariant FileBytes(image, old(cursor), got) && dst[..bytesRead] == got
        invariant forall j :: bytesRead <= j < dst.Length ==> dst[j] == old(dst[j])
        decreases total - bytesRead
      {
        var copied;
        ghost var piece;
        copied, piece := Round(dst, bytesRead, len, content, block, total - bytesRead);
        FileBytesJoin(image, old(cursor), got, piece);
        got := got + piece;
        bytesRead := bytesRead + copied;
        block := block + 1;
      }
      CopiesDone(image.size, image.block, cursor, len - bytesRead, total - bytesRead);
    }

    /** ext2_file_read. What it copies is always the file's next bytes; how many is Copied, which
        is what is due exactly when the request fits. A buffer of `len` bytes is large enough unless
        more than that is left of the block the cursor stands in (OverrunIff). */
    method Read(dst: array<Byte>, len: int) returns (bytesRead: nat)
      requires Valid() && len <= INT_MAX && Room(image.size, image.block, cursor, len) <= dst.Length
      modifies this`cursor, dst
      ensures bytesRead == Copied(image.size, image.block, old(cursor), len)
      ensures cursor == old(cursor) + bytesRead && bytesRead <= dst.Length
      ensures dst[..bytesRead] == Bytes(image, old(cursor), bytesRead)
      ensures forall j :: bytesRead <= j < dst.Length ==> dst[j] == old(dst[j])
    {
      OverrunIff(image.size, image.block, cursor, len);
      ghost var from, got := cursor, [];
      bytesRead, got := ReadLoop(dst, len, Copied(image.size, image.block, cursor, len));
      assert IsFileBytes(Only, image, from, got);
    }
  }

  ghost predicate IsAt(part: Once, block: nat, cursor: nat, k: nat, n: nat)
    requires block > 0
  {
    match part
    case Only => k == cursor / block && cursor % block + n <= block
  }

  /** The cursor stands in block `k`, with `n` bytes of it still ahead. Opened where that is
      used. */
  ghost predicate At(block: nat, cursor: nat, k: nat, n: nat)
    requires block > 0
  {
    forall part: Once :: IsAt(part, block, cursor, k, n)
  }

  ghost predicate IsCopied(part: Once, size: nat, block: nat, cursor: nat, left: int, n: nat)
    requires block > 0
  {
    match part
    case Only => n == Copied(size, block, cursor, left)
  }

  /** The rounds from here on copy `n` bytes. Opened where that is used. */
  ghost predicate Copies(size: nat, block: nat, cursor: nat, left: int, n: nat)
    requires block > 0
  {
    forall part: Once :: IsCopied(part, size, block, cursor, left, n)
  }

  ghost predicate IsFileBytes(part: Once, im: Image, from: nat, bytes: seq<Byte>)
    requires ImageOk(im)
  {
    match part
    case Only => bytes == Bytes(im, from, |bytes|)
  }

  /** These are the file's bytes from an offset on. Opened where that is used. */
  ghost predicate FileBytes(im: Image, from: nat, bytes: seq<Byte>)
    requires ImageOk(im)
  {
    forall part: Once :: IsFileBytes(part, im, from, bytes)
  }

  lemma {:induction false} FileBytesJoin(im: Image, from: nat, a: seq<Byte>, b: seq<Byte>)
    requires ImageOk(im) && FileBytes(im, from, a) && FileBytes(im, from + |a|, b)
    ensures FileBytes(im, from, a + b)
  {
    assert IsFileBytes(Only, im, from, a) && IsFileBytes(Only, im, from + |a|, b);
    BytesJoin(im, from, |a|, |b|);
  }

  lemma {:induction false} CopiesDone(size: nat, block: nat, cursor: nat, left: int, n: nat)
    requires block > 0 && Copies(size, block, cursor, left, n) && (left <= 0 || cursor >= size)
    ensures n == 0
  {
    assert IsCopied(Only, size, block, cursor, left, n);
  }

  lemma {:induction false} NextBlock(cursor: nat, block: nat)
    requires block > 0
    ensures (cursor + (block - cursor % block)) / block == cursor / block + 1
  {
    DivModUnique(cursor + (block - cursor % block), block, cursor / block + 1, 0);
  }

  // ------------------------------------------------------------ what a read is

  /** A read that fits returns the next bytes of the file, as many as were asked for or are left,
      and any other read returns more than that. */
  lemma {:induction false} ReadIsContents(im: Image, cursor: nat, len: int)
    requires ImageOk(im) && cursor <= im.size
    ensures var n := Copied(im.size, im.block, cursor, len);
            var due := Due(im.size, cursor, len);
            && (Fits(im.size, im.block, cursor, len) ==>
                  n == due && Bytes(im, cursor, n) == Contents(im)[cursor..cursor + due])
            && (!Fits(im.size, im.block, cursor, len) ==> n > due)
  {
    CopiedIffFits(im.size, im.block, cursor, len);
    if Fits(im.size, im.block, cursor, len) {
      BytesOfContents(im, cursor, Due(im.size, cursor, len));
    }
  }

  /** How many bytes a list of reads asks for. */
  function Asked(lens: seq<int>): nat {
    if lens == [] then 0 else Max(lens[0], 0) + Asked(lens[1..])
  }

  /** Each read of the list fits where the ones before it leave the cursor. */
  ghost predicate AllFit(im: Image, cursor: nat, lens: seq<int>)
    requires ImageOk(im)
    decreases |lens|
  {
    lens == []
    || (Fits(im.size, im.block, cursor, lens[0])
        && AllFit(im, cursor + Copied(im.size, im.block, cursor, lens[0]), lens[1..]))
  }

  /** What the reads of the list return, one after another. */
  ghost function Successive(im: Image, cursor: nat, lens: seq<int>): seq<Byte>
    requires ImageOk(im)
    decreases |lens|
  {
    if lens == [] then []
    else
      var n := Copied(im.size, im.block, cursor, lens[0]);
      Bytes(im, cursor, n) + Successive(im, cursor + n, lens[1..])
  }

  lemma {:induction false} DueAdds(size: nat, cursor: nat, len: int, more: nat)
    requires cursor <= size
    ensures cursor + Due(size, cursor, len) <= size
    ensures Due(size, cursor, len) + Min(more, size - (cursor + Due(size, cursor, len)))
         == Min(Max(len, 0) + more, size - cursor)
  {
  }

  lemma {:induction false} SuccessiveBytes(im: Image, cursor: nat, lens: seq<int>)
    requires ImageOk(im) && cursor <= im.size && AllFit(im, cursor, lens)
    ensures Successive(im, cursor, lens) == Bytes(im, cursor, Min(Asked(lens), im.size - cursor))
    decreases |lens|
  {
    if lens == [] {
      assert Bytes(im, cursor, 0) == [];
    } else {
      var n := Copied(im.size, im.block, cursor, lens[0]);
      CopiedIffFits(im.size, im.block, cursor, lens[0]);
      DueAdds(im.size, cursor, lens[0], Asked(lens[1..]));
      SuccessiveBytes(im, cursor + n, lens[1..]);
      BytesJoin(im, cursor, n, Min(Asked(lens[1..]), im.size - (cursor + n)));
    }
  }

  /** Reads that fit return, together, the bytes of the file from the cursor on: as many as were
      asked for or are left. */
  lemma {:induction false} SuccessiveReads(im: Image, cursor: nat, lens: seq<int>)
    requires ImageOk(im) && cursor <= im.size && AllFit(im, cursor, lens)
    ensures Successive(im, cursor, lens)
         == Contents(im)[cursor..cursor + Min(Asked(lens), im.size - cursor)]
  {
    SuccessiveBytes(im, cursor, lens);
    BytesOfContents(im, cursor, Min(Asked(lens), im.size - cursor));
  }
}
