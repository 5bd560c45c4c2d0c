/** What one call of ext2_file_read copies, and when that is what its caller asked for. */
module Ext2Reads {
  import opened Arithmetic

  /** How many bytes the loop of ext2_file_read copies from `cursor`, with `left` bytes asked for
      and not yet copied: the rest of a block begun, else what is left when a block covers it,
      else the rest of the file when a block covers that, else a block. */
  function Copied(size: nat, block: nat, cursor: nat, left: int): (r: nat)
    requires block > 0
    ensures left <= 0 || cursor >= size ==> r == 0
    ensures r <= if left <= 0 then 0 else left + block
    decreases if cursor < size then size - cursor else 0
  {
    if left <= 0 || cursor >= size then 0
    else if cursor % block != 0 then
      var rest := block - cursor % block;
      rest + Copied(size, block, cursor + rest, left - rest)
    else if block >= left then left
    else if cursor + block >= size then size - cursor
    else block + Copied(size, block, cursor + block, left - block)
  }

  /** How many bytes the caller should get. */
  function Due(size: nat, cursor: nat, len: int): nat {
    if len <= 0 || cursor >= size then 0 else Min(len, size - cursor)
  }

  /** The rest of the block the cursor stands in, none at its start. */
  function RestOfBlock(cursor: nat, block: nat): (r: nat)
    requires block > 0
    ensures r < block
  {
    if cursor % block == 0 then 0 else block - cursor % block
  }

  /** At the start of a block: what is asked for is there, or exceeds the rest of the file by so
      much that it does not fit the file's last block. */
  predicate AlignedFits(rest: int, left: int, block: nat)
    requires block > 0
  {
    left <= rest || rest <= 0 || (rest - 1) % block + 1 + (left - rest) > block
  }

  /** When ext2_file_read copies what is due. */
  predicate Fits(size: nat, block: nat, cursor: nat, len: int)
    requires block > 0
  {
    var h := RestOfBlock(cursor, block);
    len <= 0 || cursor >= size
    || (h <= len && h <= size - cursor && AlignedFits(size - cursor - h, len - h, block))
  }

  lemma {:induction false} AddBlock(x: nat, block: nat)
    requires block > 0
    ensures (x + block) % block == x % block
  {
    assert x == x / block * block + x % block;
    assert x + block == (x / block + 1) * block + x % block;
    DivModUnique(x + block, block, x / block + 1, x % block);
  }

  /** The condition carries over a whole block. */
  lemma {:induction false} FitsAfterBlock(rest: nat, left: nat, block: nat)
    requires 0 < block < rest && block < left
    ensures AlignedFits(rest, left, block) <==> AlignedFits(rest - block, left - block, block)
  {
    AddBlock(rest - block - 1, block);
  }

  lemma {:induction false} FitsLastBlock(rest: nat, left: nat, block: nat)
    requires 0 < rest < left && rest <= block
    ensures AlignedFits(rest, left, block) <==> left > block
  {
    DivModUnique(rest - 1, block, 0, rest - 1);
  }

  lemma {:induction false} AlignedCopied(size: nat, block: nat, cursor: nat, left: int)
    requires block > 0 && cursor % block == 0
    ensures Copied(size, block, cursor, left) >= Due(size, cursor, left)
    ensures Copied(size, block, cursor, left) == Due(size, cursor, left)
       <==> left <= 0 || cursor >= size || AlignedFits(size - cursor, left, block)
    decreases if cursor < size then size - cursor else 0
  {
    if left > 0 && cursor < size {
      var rest := size - cursor;
      if block >= left || rest <= block {
        if rest < left && rest <= block {
          FitsLastBlock(rest, left, block);
        }
      } else {
        AddBlock(cursor, block);
        AlignedCopied(size, block, cursor + block, left - block);
        FitsAfterBlock(rest, left, block);
      }
    }
  }

  lemma {:induction false} AfterRest(cursor: nat, block: nat)
    requires block > 0
    ensures (cursor + RestOfBlock(cursor, block)) % block == 0
  {
    var q := cursor / block;
    assert cursor == q * block + cursor % block;
    if cursor % block != 0 {
      assert cursor + RestOfBlock(cursor, block) == (q + 1) * block + 0;
      DivModUnique(cursor + RestOfBlock(cursor, block), block, q + 1, 0);
    }
  }

  /** ext2_file_read never returns fewer bytes than are due, and returns exactly those if and only
      if the request fits. */
  lemma {:induction false} CopiedIffFits(size: nat, block: nat, cursor: nat, len: int)
    requires block > 0
    ensures Copied(size, block, cursor, len) >= Due(size, cursor, len)
    ensures Copied(size, block, cursor, len) == Due(size, cursor, len) <==> Fits(size, block, cursor, len)
  {
    var h := RestOfBlock(cursor, block);
    AfterRest(cursor, block);
    AlignedCopied(size, block, cursor + h, len - h);
  }

  /** What a read at the start of a block returns: what is due when it fits, and else all that was
      asked for. */
  lemma {:induction false} AlignedExact(size: nat, block: nat, cursor: nat, left: int)
    requires block > 0 && cursor % block == 0 && 0 < left && cursor < size
    ensures Copied(size, block, cursor, left)
         == if AlignedFits(size - cursor, left, block) then Due(size, cursor, left) else left
    decreases size - cursor
  {
    AlignedCopied(size, block, cursor, left);
    var rest := size - cursor;
    if block < left && block < rest {
      AddBlock(cursor, block);
      AlignedExact(size, block, cursor + block, left - block);
      FitsAfterBlock(rest, left, block);
    } else if block < left {
      FitsLastBlock(rest, left, block);
    }
  }

  /** How many bytes any read returns. If the rest of the block begun exceeds the request or the file,
      that rest; otherwise what is due when the request fits, and all that was asked for when not. */
  lemma {:induction false} CopiedExact(size: nat, block: nat, cursor: nat, len: int)
    requires block > 0
    ensures var h := RestOfBlock(cursor, block);
            Copied(size, block, cursor, len)
            == if len <= 0 || cursor >= size then 0
               else if h >= len || h >= size - cursor then h
               else if Fits(size, block, cursor, len) then Due(size, cursor, len)
               else len
  {
    var h := RestOfBlock(cursor, block);
    if 0 < len && cursor < size {
      AfterRest(cursor, block);
      if h < len && h < size - cursor {
        AlignedExact(size, block, cursor + h, len - h);
      }
    }
  }

  /** A file of 1000 bytes, blocks of 1024, 1010 bytes asked for at its start: 1010 are returned. */
  lemma {:induction false} OverReadsShortFile()
    ensures !Fits(1000, 1024, 0, 1010) && Copied(1000, 1024, 0, 1010) == 1010 && Due(1000, 0, 1010) == 1000
  {
    CopiedIffFits(1000, 1024, 0, 1010);
    assert Copied(1000, 1024, 0, 1010) == 1010;
  }

  /** How much of its buffer a read may write. */
  function Room(size: nat, block: nat, cursor: nat, len: int): (r: nat)
    requires block > 0
  {
    if len <= 0 || cursor >= size then 0 else Max(len, RestOfBlock(cursor, block))
  }

  lemma {:induction false} AlignedWithin(size: nat, block: nat, cursor: nat, left: nat)
    requires block > 0 && cursor % block == 0
    ensures Copied(size, block, cursor, left) <= left
    decreases if cursor < size then size - cursor else 0
  {
    if 0 < left && cursor < size && block < left && cursor + block < size {
      AddBlock(cursor, block);
      AlignedWithin(size, block, cursor + block, left - block);
    }
  }

  /** A read copies more than its caller asked for, past the end of a buffer of that size, if and
      only if more than that is left of the block it begins in; and then it copies all of that. */
  lemma {:induction false} OverrunIff(size: nat, block: nat, cursor: nat, len: int)
    requires block > 0
    ensures Copied(size, block, cursor, len) <= Room(size, block, cursor, len)
    ensures 0 < len && cursor < size ==>
              (Copied(size, block, cursor, len) > len <==> RestOfBlock(cursor, block) > len)
    ensures 0 < len < RestOfBlock(cursor, block) && cursor < size ==>
              Copied(size, block, cursor, len) == RestOfBlock(cursor, block)
  {
    if 0 < len && cursor < size {
      var h := RestOfBlock(cursor, block);
      AfterRest(cursor, block);
      if h <= len {
        AlignedWithin(size, block, cursor + h, len - h);
      }
    }
  }

  /** The second byte of a file and nine more asked for, blocks of 1024: 1023 are written. */
  lemma {:induction false} OverrunsShortBuffer()
    ensures RestOfBlock(1, 1024) == 1023 && Copied(4096, 1024, 1, 10) == 1023
  {
    OverrunIff(4096, 1024, 1, 10);
  }
}
