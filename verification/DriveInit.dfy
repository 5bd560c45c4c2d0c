/** The kernel's digest of a file: reads of 7000 bytes, each passed on to MD5. */
module DriveInit {
  import opened Collections
  import opened Ext2Reads
  import opened Ext2Files
  import Md5
  import Md5Spec

  const CHUNK := 7000

  /** Where the last read that is not whole starts. */
  function LastChunk(size: nat): nat {
    size - size % CHUNK
  }

  /** The loop hashes the file and nothing more: the last read fits. */
  predicate LastFits(size: nat, block: nat)
    requires block > 0
  {
    size % CHUNK == 0 || Fits(size, block, LastChunk(size), CHUNK)
  }

  /** How many bytes the loop passes to MD5Update. */
  function Hashed(size: nat, block: nat): nat
    requires block > 0
  {
    LastChunk(size) + Copied(size, block, LastChunk(size), CHUNK)
  }

  /** At least the file, and exactly the file if and only if the last read fits. */
  lemma {:induction false} HashedIffFits(size: nat, block: nat)
    requires block > 0
    ensures Hashed(size, block) >= size
    ensures Hashed(size, block) == size <==> LastFits(size, block)
  {
    CopiedIffFits(size, block, LastChunk(size), CHUNK);
  }

  /** With blocks of 4096, a file of 8000 bytes is hashed with 192 bytes too many. */
  lemma {:induction false} HashesTooMuch()
    ensures !LastFits(8000, 4096) && Hashed(8000, 4096) == 8192
  {
  }

  /** Every read with CHUNK bytes or more left in the file fits, for blocks up to that size. */
  lemma {:induction false} WholeChunk(size: nat, block: nat, cursor: nat)
    requires 0 < block <= CHUNK && cursor + CHUNK <= size
    ensures Copied(size, block, cursor, CHUNK) == CHUNK
  {
    CopiedIffFits(size, block, cursor, CHUNK);
  }

  ghost predicate IsOnTrack(part: Once, size: nat, block: nat, cursor: nat, hashed: nat)
    requires block > 0
  {
    match part
    case Only =>
      && hashed == Hashed(size, block)
      && (cursor == hashed || (cursor % CHUNK == 0 && cursor <= LastChunk(size)))
  }

  /** Where the cursor stands between reads. Opened where that is used. */
  ghost predicate OnTrack(size: nat, block: nat, cursor: nat, hashed: nat)
    requires block > 0
  {
    forall part: Once :: IsOnTrack(part, size, block, cursor, hashed)
  }

  lemma {:induction false} NextStart(size: nat, cursor: nat)
    requires cursor % CHUNK == 0 && cursor < LastChunk(size)
    ensures cursor + CHUNK <= LastChunk(size) && (cursor + CHUNK) % CHUNK == 0
  {
  }

  lemma {:induction false} NextRead(size: nat, block: nat, cursor: nat, hashed: nat)
    requires 0 < block <= CHUNK && OnTrack(size, block, cursor, hashed)
    ensures var n := Copied(size, block, cursor, CHUNK);
            OnTrack(size, block, cursor + n, hashed) && cursor + n <= hashed && (n == 0 ==> cursor == hashed)
  {
    assert IsOnTrack(Only, size, block, cursor, hashed);
    HashedIffFits(size, block);
    if cursor < LastChunk(size) {
      NextStart(size, cursor);
      WholeChunk(size, block, cursor);
    } else {
      assert cursor == hashed || cursor == LastChunk(size);
    }
    assert IsOnTrack(Only, size, block, cursor + Copied(size, block, cursor, CHUNK), hashed);
  }

  /** One read of the loop. */
  method NextChunk(file: Ext2File, data: array<Byte>, ghost hashed: nat) returns (len: nat)
    requires file.Valid() && file.image.block <= CHUNK && data.Length == CHUNK
    requires OnTrack(file.image.size, file.image.block, file.cursor, hashed)
    modifies file`cursor, data
    ensures len <= data.Length && file.cursor == old(file.cursor) + len <= hashed
    ensures OnTrack(file.image.size, file.image.block, file.cursor, hashed)
    ensures len == 0 ==> file.cursor == hashed
    ensures Bytes(file.image, 0, old(file.cursor)) + data[..len] == Bytes(file.image, 0, file.cursor)
  {
    NextRead(file.image.size, file.image.block, file.cursor, hashed);
    len := file.Read(data, CHUNK);
    BytesJoin(file.image, 0, old(file.cursor), len);
  }

  /** drive_init's loop. */
  method HashFile(file: Ext2File, ghost hashed: nat) returns (context: Md5.Md5Context<bv32>)
    requires file.Valid() && file.image.block <= CHUNK && file.cursor == 0
    requires OnTrack(file.image.size, file.image.block, 0, hashed)
    modifies file`cursor
    ensures fresh(context) && fresh(context.state) && fresh(context.count) && fresh(context.buffer)
    ensures context.Valid() && context.w == Md5Spec.UINT4 && context.msg == Bytes(file.image, 0, hashed)
  {
    context := new Md5.Md5Context(Md5Spec.UINT4);
    var more := true;
    while more
      invariant context.Valid() && context.w == Md5Spec.UINT4 && fresh(context)
      invariant fresh(context.state) && fresh(context.count) && fresh(context.buffer)
      invariant file.cursor <= hashed && context.msg == Bytes(file.image, 0, file.cursor)
      invariant OnTrack(file.image.size, file.image.block, file.cursor, hashed)
      invariant !more ==> file.cursor == hashed
      decreases more, hashed - file.cursor
    {
      var data := new Byte[CHUNK];
      var len := NextChunk(file, data, hashed);
      if len == 0 {
        more := false;
      } else {
        Md5.ShortUpdateFits(|context.msg| % 64, len);
        context.Update(data, len);
      }
    }
  }

  /** drive_init, from the open file on: the digest of what its reads return, which is the file
      if and only if the last read fits (HashedIffFits). */
  method DigestFile(file: Ext2File) returns (digest: array<Byte>)
    requires file.Valid() && file.cursor == 0 && file.image.block <= CHUNK
    modifies file`cursor
    ensures digest.Length == 16
    ensures var n := Hashed(file.image.size, file.image.block);
            digest[..] == Md5Spec.Digest(Md5Spec.UINT4, Bytes(file.image, 0, n))
    ensures LastFits(file.image.size, file.image.block) ==>
              digest[..] == Md5Spec.Digest(Md5Spec.UINT4, Contents(file.image))
  {
    ghost var hashed := Hashed(file.image.size, file.image.block);
    assert IsOnTrack(Only, file.image.size, file.image.block, 0, hashed);
    HashedIffFits(file.image.size, file.image.block);
    var context := HashFile(file, hashed);
    digest := new Byte[16];
    context.Final(digest);
  }
}
