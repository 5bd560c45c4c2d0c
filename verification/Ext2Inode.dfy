/** Finding an inode in the inode tables. */
module Ext2Inodes {
  import opened Arithmetic
  import opened Collections
  import opened Ext2
  import opened Options

  /** What read_inode takes from the superblock. */
  datatype Table = Table(numInodes: nat, groupInodes: nat, inodeSize: nat, numGroups: nat)

  const INODE_BYTES := 112                 // sizeof(struct Ext2Inode)
  const TWO_64 := 0x1_0000_0000_0000_0000

  /** Where an inode lies: its group, the block of that group's table, the offset in it. */
  datatype Slot = Slot(group: nat, block: nat, offset: nat)

  /** The inode's number counted from 0, as an unsigned long. */
  function IndexOf(num: nat): nat {
    if num == 0 then TWO_64 - 1 else num - 1
  }

  /** Where entry `i` of a table starts. */
  function Start(i: nat, size: nat): nat {
    i * size
  }

  /** read_inode's computation; None for its NULL results. */
  function Locate(t: Table, blockSize: nat, num: nat): Option<Slot>
    requires t.groupInodes > 0 && blockSize > 0
  {
    if num > t.numInodes then None
    else if IndexOf(num) / t.groupInodes >= t.numGroups then None
    else
      var at := Start(IndexOf(num) % t.groupInodes, t.inodeSize);
      Some(Slot(IndexOf(num) / t.groupInodes, at / blockSize, at % blockSize))
  }

  /** The first byte of a slot within its group's table. */
  function Position(s: Slot, blockSize: nat): nat {
    s.block * blockSize + s.offset
  }

  /** There is no inode 0, and every other up to the number of inodes has a slot when its group
      exists. */
  lemma {:induction false} LocatedIff(t: Table, blockSize: nat, num: nat)
    requires 0 < t.groupInodes < 0x1_0000_0000 && t.numGroups < 0x1_0000_0000 && blockSize > 0
    ensures Locate(t, blockSize, num).Some? <==> 1 <= num <= t.numInodes && (num - 1) / t.groupInodes < t.numGroups
  {
    var q := (TWO_64 - 1) / t.groupInodes;
    assert TWO_64 - 1 == q * t.groupInodes + (TWO_64 - 1) % t.groupInodes;
    MulMono(q, 0xffff_ffff, t.groupInodes);
    MulMono(t.groupInodes, 0xffff_ffff, 0xffff_ffff);
  }

  lemma {:induction false} PositionOf(t: Table, blockSize: nat, num: nat)
    requires t.groupInodes > 0 && blockSize > 0 && Locate(t, blockSize, num).Some?
    ensures Position(Locate(t, blockSize, num).value, blockSize) == IndexOf(num) % t.groupInodes * t.inodeSize
  {
  }

  /** Inodes are numbered from 1, group after group, and stand in their group's table in order. */
  lemma {:induction false} LocatePlace(t: Table, blockSize: nat, num: nat)
    requires t.groupInodes > 0 && blockSize > 0 && 1 <= num && Locate(t, blockSize, num).Some?
    ensures var s := Locate(t, blockSize, num).value;
            && s.group < t.numGroups && s.offset < blockSize
            && exists i: nat :: i < t.groupInodes && num == 1 + s.group * t.groupInodes + i
                                && Position(s, blockSize) == i * t.inodeSize
  {
    var i := (num - 1) % t.groupInodes;
    PositionOf(t, blockSize, num);
    assert num - 1 == (num - 1) / t.groupInodes * t.groupInodes + i;
  }

  /** Two inodes do not overlap: they lie in different groups, or at least an inode apart. */
  lemma {:induction false} SlotsApart(t: Table, blockSize: nat, m: nat, n: nat)
    requires t.groupInodes > 0 && blockSize > 0 && 1 <= m < n
    requires Locate(t, blockSize, m).Some? && Locate(t, blockSize, n).Some?
    ensures var a, b := Locate(t, blockSize, m).value, Locate(t, blockSize, n).value;
            a.group != b.group || Position(a, blockSize) + t.inodeSize <= Position(b, blockSize)
  {
    PositionOf(t, blockSize, m);
    PositionOf(t, blockSize, n);
    var i, j := IndexOf(m) % t.groupInodes, IndexOf(n) % t.groupInodes;
    MulMono(i + 1, j, t.inodeSize);
    assert (i + 1) * t.inodeSize == i * t.inodeSize + t.inodeSize;
  }

  lemma {:induction false} Distribute(q: nat, r: nat, per: nat, size: nat)
    ensures (q * per + r) * size == q * (per * size) + r * size
  {
  }

  lemma {:induction false} EntryInBlock(i: nat, per: nat, size: nat, block: nat)
    requires per > 0 && size > 0 && block == per * size
    ensures block > 0 && i * size % block + size <= block
  {
    var q, r := i / per, i % per;
    Distribute(q, r, per, size);
    MulMono(r + 1, per, size);
    DivModUnique(i * size, block, q, r * size);
  }

  /** When the inode size divides the block size no inode crosses a block. */
  lemma {:induction false} SlotInBlock(t: Table, blockSize: nat, num: nat, per: nat)
    requires t.groupInodes > 0 && t.inodeSize > 0 && per > 0 && 0 < blockSize == per * t.inodeSize
    requires Locate(t, blockSize, num).Some?
    ensures Locate(t, blockSize, num).value.offset + t.inodeSize <= blockSize
  {
    EntryInBlock(IndexOf(num) % t.groupInodes, per, t.inodeSize, blockSize);
  }

  /** read_inode: the inode's bytes, when its table block can be read. The block has to hold the
      whole of it, which SlotInBlock gives when the inode size divides the block size. */
  method ReadInode(v: Volume, t: Table, starts: seq<nat>, num: nat) returns (inode: Option<seq<Byte>>)
    requires VolumeOk(v) && t.groupInodes > 0 && |starts| == t.numGroups
    requires var slot := Locate(t, v.blockSize, num); slot.Some? ==> slot.value.offset + INODE_BYTES <= v.blockSize
    ensures inode.None? <==> Locate(t, v.blockSize, num).None?
    ensures inode.Some? ==>
              var s := Locate(t, v.blockSize, num).value;
              BlockReadable(v, starts[s.group] + s.block) ==>
                inode.value == BlockBytes(v, starts[s.group] + s.block)[s.offset..s.offset + INODE_BYTES]
  {
    if num > t.numInodes {
      return None;
    }
    var index := if num == 0 then TWO_64 - 1 else num - 1;
    var group := index / t.groupInodes;
    if group >= t.numGroups {
      return None;
    }
    var indexInGroup := index % t.groupInodes;
    var block := indexInGroup * t.inodeSize / v.blockSize;
    var offset := indexInGroup * t.inodeSize % v.blockSize;
    var buffer := new Byte[v.blockSize];
    var _ := ReadBlock(v, starts[group] + block, buffer);
    assert buffer[..v.blockSize] == buffer[..];
    return Some(buffer[offset..offset + INODE_BYTES]);
  }
}
