/** The life of a large allocation: kmalloc, an access to every page of it, kfree. */
module HeapUse {
  import opened Collections
  import opened PageTree
  import opened HeapWords
  import opened KmallocModel
  import opened Kmalloc
  import KernelMemory
  import PageWalk
  import HeapPaging

  // --------------------------------------------------------- pages of a block

  /** How many of the `n` pages from `v` on are not backed. */
  ghost function Absent(flat: map<nat, Entry>, v: nat, n: nat): nat {
    if n == 0 then 0 else Absent(flat, v, n - 1) + if Present(flat, v + n - 1) then 0 else 1
  }

  lemma {:induction false} AbsentGrows(flat: map<nat, Entry>, v: nat, k: nat, n: nat)
    requires k <= n
    ensures Absent(flat, v, k) <= Absent(flat, v, n)
  {
    if k < n {
      AbsentGrows(flat, v, k, n - 1);
    }
  }

  lemma {:induction false} AllButFirst(flat: map<nat, Entry>, v: nat, n: nat)
    requires n > 0 && Present(flat, v) && forall w: nat :: v < w < v + n ==> !Present(flat, w)
    ensures Absent(flat, v, n) == n - 1
  {
    if n == 1 {
      assert Absent(flat, v, 0) == 0;
    } else {
      AllButFirst(flat, v, n - 1);
    }
  }

  /** The pages of the range are backed, and no other page changed. */
  ghost predicate Backed(before: map<nat, Entry>, after: map<nat, Entry>, v: nat, n: nat) {
    && after.Keys == before.Keys
    && (forall w: nat :: v <= w < v + n ==> Present(after, w))
    && (forall w :: w in before && !(v <= w < v + n) ==> after[w] == before[w])
  }

  lemma {:induction false} OneMoreBacked(before: map<nat, Entry>, mid: map<nat, Entry>, after: map<nat, Entry>, v: nat,
                                         n: nat)
    requires Backed(before, mid, v, n) && OnlyPage(mid, after, v + n) && Present(after, v + n)
    ensures Backed(before, after, v, n + 1)
    ensures Present(mid, v + n) <==> Present(before, v + n)
  {
    forall w: nat | v <= w < v + n + 1
      ensures Present(after, w)
    {
      assert w == v + n || Present(mid, w);
    }
  }

  /** An access to each of `n` pages: the machine halts exactly when more of them are unbacked than
      frames are left. */
  method AccessRange(a: Allocator, addr: nat, n: nat, ghost v: nat) returns (halted: bool)
    requires a.Valid() && v == addr / PAGE_SIZE && HEAP_BASE <= v && v + n <= a.mmu.s.brk
    modifies a.mmu
    ensures halted <==> KernelMemory.Available(old(a.mmu.s)) < Absent(old(a.mmu.s.flat), v, n)
    ensures !halted ==> a.Valid() && Backed(old(a.mmu.s.flat), a.mmu.s.flat, v, n)
    ensures !halted ==>
              KernelMemory.Available(a.mmu.s)
              == KernelMemory.Available(old(a.mmu.s)) - Absent(old(a.mmu.s.flat), v, n)
  {
    ghost var was := a.mmu.s;
    var k, page := 0, addr;
    while k < n
      invariant k <= n && page == addr + k * PAGE_SIZE && a.Valid() && a.mmu.s.brk == was.brk
      invariant Backed(was.flat, a.mmu.s.flat, v, k)
      invariant KernelMemory.Available(a.mmu.s) == KernelMemory.Available(was) - Absent(was.flat, v, k)
    {
      ghost var mid := a.mmu.s.flat;
      KernelMemory.PfAllocTakesOne(a.mmu.s);
      var oom := a.Access(page);
      if oom {
        AbsentGrows(was.flat, v, k + 1, n);
        return true;
      }
      OneMoreBacked(was.flat, mid, a.mmu.s.flat, v, k);
      k, page := k + 1, page + PAGE_SIZE;
    }
    KernelMemory.PfAllocTakesOne(a.mmu.s);
    return false;
  }

  /** Of the pages kmalloc takes, all but the first are not backed. */
  lemma {:induction false} RunBacked(s: KernelMemory.State, n: nat, t: KernelMemory.State)
    requires |s.next| == |s.regions| && n > 0 && TookPages(s, n, t)
    ensures Absent(t.flat, s.brk, n) == n - 1
  {
    forall w: nat | s.brk < w < s.brk + n
      ensures !Present(t.flat, w)
    {
      assert Untouched(t.flat, w);
    }
    AllButFirst(t.flat, s.brk, n);
  }

  lemma {:induction false} BackedPresent(before: map<nat, Entry>, after: map<nat, Entry>, v: nat, n: nat)
    requires Backed(before, after, v, n) && HEAP_BASE <= v && v + n <= NUM_PAGES
    ensures HeapPaging.AllPresent(after, v, n)
  {
    forall w: nat | v <= w < v + n
      ensures w in after && KernelMemory.IsHeap(w) && after[w].present
    {
      assert Present(after, w);
    }
  }

  lemma {:induction false} FreedCount(s: KernelMemory.State, v: nat, n: nat, t: KernelMemory.State)
    requires |s.next| == |s.regions| && HeapPaging.AllPresent(s.flat, v, n) && HeapPaging.FreedRange(s, v, n, t)
    ensures |t.next| == |t.regions| && KernelMemory.Available(t) == KernelMemory.Available(s) + n
  {
  }

  /** A large block is the model's next run of pages, and freeing it leaves only the break moved. */
  lemma {:induction false} RunComesAndGoes(h: Heap, size: nat)
    requires Inv(h) && PoolFrom(size, 0) == POOLS
    ensures var (t, addr) := KmallocModel.Kmalloc(h, size);
            var n := PagesFor(size + HEADER);
            && n > 0 && addr == h.brk * PAGE_SIZE + HEADER && addr / PAGE_SIZE == h.brk && HEAP_BASE <= h.brk
            && CanFree(t, addr) && t.live[addr - HEADER] == Live(Dedicated(n), size)
            && KmallocModel.Kfree(t, addr) == h.(brk := h.brk + n)
  {
    AboveBase(h);
    TakePagesKeeps(h, size);
    var b := h.brk * PAGE_SIZE;
    assert b !in h.live && h.live[b := Live(Dedicated(PagesFor(size + HEADER)), size)] - {b} == h.live;
  }

  /** kmalloc of a large block and an access to every page of it. */
  method TakeAndAccess(a: Allocator, size: nat) returns (halted: bool, addr: nat)
    requires a.Valid() && PoolFrom(size, 0) == POOLS && a.mmu.s.brk + PagesFor(size + HEADER) <= NUM_PAGES
    modifies a, a.mmu
    ensures var s, n := old(a.mmu.s), PagesFor(size + HEADER);
            var tables := PageWalk.Needed(s.tables.Keys, s.brk, s.brk + n);
            && (halted <==> KernelMemory.Available(s) < tables + n)
            && (!halted ==>
                  && a.Valid() && (a.h, addr) == KmallocModel.Kmalloc(old(a.h), size)
                  && HeapPaging.AllPresent(a.mmu.s.flat, s.brk, n)
                  && KernelMemory.Available(a.mmu.s) == KernelMemory.Available(s) - tables - n)
  {
    ghost var s, n := a.mmu.s, PagesFor(size + HEADER);
    RunComesAndGoes(a.h, size);
    halted, addr := a.Kmalloc(size);
    if halted {
      return;
    }
    RunBacked(s, n, a.mmu.s);
    ghost var flat := a.mmu.s.flat;
    halted := AccessRange(a, addr, PagesFor(size + HEADER), s.brk);
    if halted {
      return;
    }
    BrkInSpace(a.mmu.s);
    BackedPresent(flat, a.mmu.s.flat, s.brk, n);
  }

  /** kmalloc of a large block, an access to every page of it, kfree: the machine halts exactly when
      fewer frames are left than its tables and its pages need; otherwise every frame that backed it
      is returned, so that only the frames of new tables are gone, and only the break has moved. */
  method UseOnce(a: Allocator, size: nat) returns (halted: bool)
    requires a.Valid() && PoolFrom(size, 0) == POOLS && a.mmu.s.brk + PagesFor(size + HEADER) <= NUM_PAGES
    modifies a, a.mmu
    ensures var s, n := old(a.mmu.s), PagesFor(size + HEADER);
            var tables := PageWalk.Needed(s.tables.Keys, s.brk, s.brk + n);
            && (halted <==> KernelMemory.Available(s) < tables + n)
            && (!halted ==>
                  && a.Valid() && a.h == old(a.h).(brk := s.brk + n)
                  && KernelMemory.Available(a.mmu.s) == KernelMemory.Available(s) - tables)
  {
    RunComesAndGoes(a.h, size);
    ghost var v := a.mmu.s.brk;
    var addr;
    halted, addr := TakeAndAccess(a, size);
    if !halted {
      ghost var u := a.mmu.s;
      halted := a.Kfree(addr);
      FreedCount(u, v, PagesFor(size + HEADER), a.mmu.s);
    }
  }

  /** Of a run just taken every page is backed if and only if it is one page. */
  lemma {:induction false} AllBackedIffOne(s: KernelMemory.State, n: nat, t: KernelMemory.State)
    requires |s.next| == |s.regions| && n > 0 && TookPages(s, n, t) && HEAP_BASE <= s.brk && s.brk + n <= NUM_PAGES
    ensures HeapPaging.AllPresent(t.flat, s.brk, n) <==> n == 1
  {
    if n > 1 {
      assert Untouched(t.flat, s.brk + 1);
      assert s.brk <= s.brk + 1 < s.brk + n;
    }
  }

  /** kmalloc of a large block and kfree with no access in between: if the frames suffice it halts the
      machine exactly when the block has more than one page. */
  method FreeUnused(a: Allocator, size: nat) returns (halted: bool)
    requires a.Valid() && PoolFrom(size, 0) == POOLS && a.mmu.s.brk + PagesFor(size + HEADER) <= NUM_PAGES
    modifies a, a.mmu
    ensures var s, n := old(a.mmu.s), PagesFor(size + HEADER);
            && (halted <==>
                  n > 1 || KernelMemory.Available(s) < PageWalk.Needed(s.tables.Keys, s.brk, s.brk + n) + 1)
            && (!halted ==> a.Valid() && a.h == old(a.h).(brk := s.brk + n))
  {
    RunComesAndGoes(a.h, size);
    ghost var s, n := a.mmu.s, PagesFor(size + HEADER);
    var addr;
    halted, addr := a.Kmalloc(size);
    if !halted {
      BrkInSpace(a.mmu.s);
      AllBackedIffOne(s, n, a.mmu.s);
      halted := a.Kfree(addr);
    }
  }

  /** The third buffer of the triply indirect branch of read_inode_block, which nothing writes: with
      blocks of 4096 bytes it takes two pages, with smaller ones a block of a pool. */
  lemma {:induction false} UnwrittenBuffer()
    ensures PoolFrom(4096, 0) == POOLS && PagesFor(4096 + HEADER) == 2
    ensures PoolFrom(2048, 0) == POOLS && PagesFor(2048 + HEADER) == 1
    ensures PoolFrom(1024, 0) < POOLS
  {
    assert MaxSize(0) == 16 && MaxSize(1) == 48 && MaxSize(2) == 112;
    assert MaxSize(3) == 496 && MaxSize(4) == 1008 && MaxSize(5) == 2032;
  }

  // ------------------------------------------------------------ what is stored

  lemma {:induction false} OneKept(live: map<nat, Live>, words: WordStore, after: WordStore, b: nat, addr: nat)
    requires PayloadsKept(live, words, after) && InPayload(live, b, addr) && addr in words
    ensures addr in after && after[addr] == words[addr]
  {
    assert ArePayloads(Only, live, words, after);
  }

  /** A block that was not live is taken, written and freed again. */
  lemma {:induction false} OtherBlock(live: map<nat, Live>, h: Heap, c: nat, addr: nat, y: nat, w0: WordStore,
                                      w1: WordStore, w2: WordStore)
    requires Inv(h) && InPayload(h.live, c, addr) && live == h.live - {c}
    requires PayloadsKept(live, w0, w1) && PayloadsKept(live, w1[addr := y], w2)
    ensures PayloadsKept(live, w0, w2)
  {
    LiveHoldsSize(h, c);
    assert ArePayloads(Only, live, w0, w1) && ArePayloads(Only, live, w1[addr := y], w2);
    forall b: nat, a | a in w0 && InPayload(live, b, a)
      ensures a in w2 && w2[a] == w0[a]
    {
      LiveHoldsSize(h, b);
      PayloadClear(h, b, a, c, Extent(h.live[c]));
      assert a != addr;
    }
    assert ArePayloads(Only, live, w0, w2);
  }

  lemma {:induction false} PayloadAligned(addr: nat)
    requires addr >= HEADER && (addr - HEADER) % 32 == 0
    ensures addr % 8 == 0
  {
  }

  lemma {:induction false} FreshPayload(h: Heap, size: nat)
    requires Inv(h) && size >= 8
    ensures var (t, addr) := KmallocModel.Kmalloc(h, size);
            addr >= HEADER && addr % 8 == 0 && InPayload(t.live, addr - HEADER, addr)
  {
    KmallocKeeps(h, size);
    var (t, addr) := KmallocModel.Kmalloc(h, size);
    LiveAligned(t, addr - HEADER);
    PayloadAligned(addr);
  }

  /** kmalloc of any block, and a store to its first word. */
  method TakeAndStore(a: Allocator, size: nat, y: nat) returns (halted: bool, addr: nat, ghost words: WordStore)
    requires a.Valid() && size >= 8 && y < TWO_64 && a.mmu.s.brk + PagesTaken(a.h, size) <= NUM_PAGES
    modifies a, a.mmu
    ensures !halted ==>
              && a.Valid() && (a.h, addr) == KmallocModel.Kmalloc(old(a.h), size) && a.words == words[addr := y]
              && PayloadsKept(old(a.h).live, old(a.words), words)
  {
    FreshPayload(a.h, size);
    halted, addr := a.Kmalloc(size);
    words := a.words;
    if !halted {
      halted := a.StorePayload(addr - HEADER, addr, y);
    }
  }

  /** kmalloc of any block, a store to its payload, kfree: no word of any other payload changes. */
  method UseOther(a: Allocator, size: nat, y: nat) returns (halted: bool)
    requires a.Valid() && size >= 8 && y < TWO_64 && a.mmu.s.brk + PagesTaken(a.h, size) <= NUM_PAGES
    modifies a, a.mmu
    ensures !halted ==> a.Valid() && a.h.live == old(a.h).live && PayloadsKept(a.h.live, old(a.words), a.words)
  {
    ghost var h0, w0 := a.h, a.words;
    KmallocKeeps(h0, size);
    var addr;
    ghost var w1;
    halted, addr, w1 := TakeAndStore(a, size, y);
    if halted {
      return;
    }
    ghost var h1 := a.h;
    ghost var c: nat := addr - HEADER;
    KfreeKeeps(h1, addr);
    assert h1.live - {c} == h0.live;
    halted := a.Kfree(addr);
    if !halted {
      OtherBlock(h0.live, h1, c, addr, y, w0, w1, a.words);
    }
  }

  /** A word stored in a payload is loaded back after any other block has been used. */
  method StoredStays(a: Allocator, ghost b: nat, addr: nat, x: nat, size: nat, y: nat) returns (halted: bool, z: nat)
    requires a.Valid() && InPayload(a.h.live, b, addr) && addr % 8 == 0 && x < TWO_64 && y < TWO_64
    requires size >= 8 && a.mmu.s.brk + PagesTaken(a.h, size) <= NUM_PAGES
    modifies a, a.mmu
    ensures !halted ==> a.Valid() && z == x
  {
    z := 0;
    halted := a.StorePayload(b, addr, x);
    if halted {
      return;
    }
    ghost var words := a.words;
    halted := UseOther(a, size, y);
    if !halted {
      OneKept(a.h.live, words, a.words, b, addr);
      z := a.LoadPayload(b, addr);
    }
  }
}
