/** The block buffers of read_inode_block's triply indirect branch. */
module Ext2Buffers {
  import opened PageTree
  import opened KmallocModel
  import opened Kmalloc
  import opened HeapUse

  /** Pages that are not backed stay so. */
  ghost predicate NoneBacked(before: map<nat, Entry>, after: map<nat, Entry>) {
    forall w: nat :: !Present(before, w) ==> !Present(after, w)
  }

  /** kfree backs no page and ends no other allocation. */
  method FreeBuffer(a: Allocator, addr: nat) returns (halted: bool)
    requires a.Valid() && CanFree(a.h, addr)
    modifies a, a.mmu
    ensures !halted ==> a.Valid() && a.h.live == old(a.h).live - {addr - HEADER}
    ensures !halted ==> NoneBacked(old(a.mmu.s.flat), a.mmu.s.flat)
  {
    KfreeKeeps(a.h, addr);
    halted := a.Kfree(addr);
  }

  /** kmalloc of a buffer, and an access to its first `k` pages. */
  method Buffer(a: Allocator, size: nat, k: nat) returns (halted: bool, addr: nat)
    requires a.Valid() && PoolFrom(size, 0) == POOLS && a.mmu.s.brk + PagesFor(size + HEADER) <= NUM_PAGES
    requires k <= PagesFor(size + HEADER)
    modifies a, a.mmu
    ensures !halted ==>
              && a.Valid() && (a.h, addr) == KmallocModel.Kmalloc(old(a.h), size)
              && a.mmu.s.brk == old(a.mmu.s.brk) + PagesFor(size + HEADER)
    ensures !halted && k == 0 && PagesFor(size + HEADER) > 1 ==> !Present(a.mmu.s.flat, addr / PAGE_SIZE + 1)
  {
    RunComesAndGoes(a.h, size);
    ghost var v := a.mmu.s.brk;
    halted, addr := a.Kmalloc(size);
    if !halted {
      assert v + 1 < v + PagesFor(size + HEADER) ==> Untouched(a.mmu.s.flat, v + 1);
      if k > 0 {
        halted := AccessRange(a, addr, k, v);
      }
    }
  }

  /** The last of three buffers has a page that is not backed. */
  method FreeThree(a: Allocator, first: nat, second: nat, third: nat, ghost n: nat) returns (halted: bool)
    requires a.Valid() && CanFree(a.h, first) && CanFree(a.h, second) && CanFree(a.h, third)
    requires first != second && second != third && first != third && n > 1
    requires a.h.live[third - HEADER].use == Dedicated(n) && third / PAGE_SIZE == (third - HEADER) / PAGE_SIZE
    requires !Present(a.mmu.s.flat, third / PAGE_SIZE + 1)
    modifies a, a.mmu
    ensures halted
  {
    ghost var w := third / PAGE_SIZE + 1;
    halted := FreeBuffer(a, first);
    if halted {
      return;
    }
    assert !Present(a.mmu.s.flat, w);
    halted := FreeBuffer(a, second);
    if halted {
      return;
    }
    assert !Present(a.mmu.s.flat, w);
    halted := a.Kfree(third);
  }

  /** The branch takes three buffers, reads into `k1` pages of the first and `k2` of the second, never
      writes the third, and frees them in turn. With buffers of more than one page it always halts the
      machine. */
  method TripleBuffers(a: Allocator, size: nat, k1: nat, k2: nat) returns (halted: bool)
    requires a.Valid() && PoolFrom(size, 0) == POOLS && PagesFor(size + HEADER) > 1
    requires a.mmu.s.brk + 3 * PagesFor(size + HEADER) <= NUM_PAGES
    requires k1 <= PagesFor(size + HEADER) && k2 <= PagesFor(size + HEADER)
    modifies a, a.mmu
    ensures halted
  {
    var first, second, third;
    KmallocKeeps(a.h, size);
    halted, first := Buffer(a, size, k1);
    if halted {
      return;
    }
    KmallocKeeps(a.h, size);
    halted, second := Buffer(a, size, k2);
    if halted {
      return;
    }
    KmallocKeeps(a.h, size);
    halted, third := Buffer(a, size, 0);
    if !halted {
      halted := FreeThree(a, first, second, third, PagesFor(size + HEADER));
    }
  }

}
