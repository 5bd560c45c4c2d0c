/** The memory manager as it runs: static variables and physical memory updated in place, each
    operation proved against its step on the abstract state. */
module MemoryManager {
  import opened Arithmetic
  import opened Options
  import opened PageTree
  import opened KernelMemory
  import opened PageWalk
  import opened HeapPaging
  import opened MemoryRuns
  import opened FrameStore
  import opened HeapWords
  import opened TableWords

  /** struct MemRegion, in frames. */
  datatype MemRegion = MemRegion(start: nat, end: nat, next: nat)

  ghost predicate RegionsStored(rs: seq<MemRegion>, bounds: seq<Bounds>, next: seq<nat>) {
    && |rs| == |bounds| == |next|
    && forall i :: 0 <= i < |rs| ==> rs[i] == MemRegion(bounds[i].start, bounds[i].end, next[i])
  }

  /** Where a page's leaf entry is: a frame and a word in it. */
  datatype Slot = Slot(frame: nat, idx: nat)

  function BoundsOf(rs: seq<MemRegion>): (b: seq<Bounds>)
    ensures |b| == |rs|
  {
    seq(|rs|, i requires 0 <= i < |rs| => Bounds(rs[i].start, rs[i].end))
  }

  function NextOf(rs: seq<MemRegion>): (n: seq<nat>)
    ensures |n| == |rs|
  {
    seq(|rs|, i requires 0 <= i < |rs| => rs[i].next)
  }

  /** The region a covered frame lies in. */
  function RegionOf(bs: seq<Bounds>, f: nat): (i: nat)
    requires Covered(bs, f)
    ensures i < |bs| && bs[i].start <= f < bs[i].end
  {
    var n := |bs| - 1;
    if bs[n].start <= f < bs[n].end then n
    else
      assert Covered(bs[..n], f) by {
        var i :| 0 <= i < |bs| && bs[i].start <= f < bs[i].end;
        assert bs[..n][i] == bs[i];
      }
      RegionOf(bs[..n], f)
  }

  predicate IsVirtualPage(v: nat) {
    v < NUM_PAGES
  }

  ghost function BootState(rs: seq<MemRegion>, words: Memory): State
    requires forall f :: f in words ==> Covered(BoundsOf(rs), f)
  {
    State(BoundsOf(rs), NextOf(rs), [], map f | f in words :: Tail(RegionOf(BoundsOf(rs), f)), map[],
          map v: nat | v < NUM_PAGES && IsVirtualPage(v) :: ZERO, HEAP_BASE)
  }

  lemma {:induction false} BootIsBoot(rs: seq<MemRegion>, words: Memory)
    requires RegionsOk(BoundsOf(rs)) && forall i :: 0 <= i < |rs| ==> rs[i].next == rs[i].start
    requires forall f: nat :: f in words <==> Covered(BoundsOf(rs), f)
    ensures IsBoot(BootState(rs, words)) && BootState(rs, words).owner.Keys == words.Keys
  {
    assert BootState(rs, words).owner.Keys == words.Keys;
  }

  lemma {:induction false} NothingStored(s: State, words: Memory)
    requires s.tables == map[] && s.free == [] && s.owner.Keys == words.Keys && Words64(words) && 0 !in words
    requires forall f :: f in words ==> |words[f]| == LEVEL_SIZE
    ensures Stores(words, s)
  {
    CloseStores(words, s);
  }

  lemma {:induction false} BootStored(rs: seq<MemRegion>, words: Memory)
    requires RegionsOk(BoundsOf(rs)) && forall i :: 0 <= i < |rs| ==> rs[i].next == rs[i].start
    requires forall f: nat :: f in words <==> Covered(BoundsOf(rs), f)
    requires forall f :: f in words ==>
               |words[f]| == LEVEL_SIZE && forall i :: 0 <= i < LEVEL_SIZE ==> words[f][i].Fits()
    ensures var s := BootState(rs, words);
            IsBoot(s) && Inv(s) && Stores(words, s) && RegionsStored(rs, s.regions, s.next)
  {
    var s := BootState(rs, words);
    EndWithinHeap(BoundsOf(rs));
    BootIsBoot(rs, words);
    BootInv(s);
    CloseWords64(words);
    NothingStored(s, words);
  }

  class Mmu {
    var regions: seq<MemRegion>
    var freeList: nat              // frame number of the head, 0 for NULL
    var mem: Memory
    var brk: nat                   // byte address
    var cr3: nat                   // frame of the loaded root table
    ghost var s: State

    ghost predicate Valid()
      reads this
    {
      && Inv(s) && Stores(mem, s)
      && RegionsStored(regions, s.regions, s.next)
      && freeList == Head(s.free)
      && brk == s.brk * PAGE_SIZE
    }

    /** The page table register holds the root of the tree. */
    ghost predicate Loaded()
      reads this
    {
      Root in s.tables && s.tables[Root] == cr3
    }

    /** What the processor finds through the page table register is the page map. */
    lemma {:induction false} ProcessorSees(v: nat, store: bool)
      requires Valid() && Loaded() && v < NUM_PAGES
      ensures v in s.flat && ProcessorWalk(Raw(mem), cr3, v, 3, store) == Mapped(s.flat[v], store)
    {
      ProcessorAgrees(s, mem, v, store);
    }

    /** The manager over freshly built regions and whatever the frames contain at boot. */
    constructor (rs: seq<MemRegion>, words: Memory)
      requires RegionsOk(BoundsOf(rs)) && forall i :: 0 <= i < |rs| ==> rs[i].next == rs[i].start
      requires forall f: nat :: f in words <==> Covered(BoundsOf(rs), f)
      requires forall f :: f in words ==>
                 |words[f]| == LEVEL_SIZE && forall i :: 0 <= i < LEVEL_SIZE ==> words[f][i].Fits()
      ensures Valid() && IsBoot(s) && s.regions == BoundsOf(rs) && mem == words
    {
      regions, freeList, mem, brk, cr3 := rs, 0, words, HEAP_BASE * PAGE_SIZE, 0;
      s := BootState(rs, words);
      new;
      BootStored(rs, words);
    }

    /** get_free_memory */
    method GetFreeMemory() returns (free: int)
      requires Valid()
      ensures free == FreeBytes(s)
    {
      free := 0;
      var i := 0;
      while i < |regions|
        invariant 0 <= i <= |regions|
        invariant free == PAGE_SIZE * TailFrames(s.regions[..i], s.next[..i])
      {
        assert s.regions[..i + 1][..i] == s.regions[..i] && s.next[..i + 1][..i] == s.next[..i];
        free := free + (regions[i].end * PAGE_SIZE - regions[i].next * PAGE_SIZE);
        i := i + 1;
      }
      assert s.regions[..i] == s.regions && s.next[..i] == s.next;
    }

    /** MMU_pf_alloc; None when out of memory. */
    method PfAlloc() returns (r: Option<nat>)
      requires Valid()
      modifies `regions, `freeList, `s
      ensures Valid()
      ensures r == None ==> KernelMemory.PfAlloc(old(s)) == None && s == old(s)
      ensures r.Some? ==> KernelMemory.PfAlloc(old(s)) == Some((r.value, s))
      ensures UsersKept(old(s.owner), mem, s.owner, mem, {})
    {
      PfAllocSound(s);
      NothingDone(s.owner, mem, {});
      if KernelMemory.PfAlloc(s).Some? {
        OtherFrame(s.owner, mem, KernelMemory.PfAlloc(s).value.0, Held, [], {});
      }
      NullWhenEmpty(s, mem);
      if freeList != 0 {
        HeadPopped(s, mem);
        var f := freeList;
        freeList := mem[f][0].addr;
        s := KernelMemory.PfAlloc(s).value.1;
        return Some(f);
      }
      TailTaken(s, mem);
      var i := 0;
      while i < |regions|
        invariant 0 <= i <= |regions|
        invariant s == old(s) && regions == old(regions) && freeList == old(freeList)
        invariant FirstTail(s.regions, s.next, 0) == FirstTail(s.regions, s.next, i)
      {
        if regions[i].next < regions[i].end {
          var f := regions[i].next;
          regions := regions[i := regions[i].(next := f + 1)];
          s := KernelMemory.PfAlloc(s).value.1;
          return Some(f);
        }
        i := i + 1;
      }
      return None;
    }

    /** MMU_pf_free: link the frame in at the head. */
    method PfFree(f: nat)
      requires f in mem && |mem[f]| == LEVEL_SIZE
      modifies `mem, `freeList
      ensures mem == WriteWord(old(mem), f, 0, Link(old(freeList))) && freeList == f
    {
      mem := WriteWord(mem, f, 0, Link(freeList));
      freeList := f;
    }

    /** MMU_pf_free as called by the holder of a frame. */
    method ReturnFrame(f: nat)
      requires Valid() && f in s.owner && s.owner[f] == Held
      modifies `mem, `freeList, `s
      ensures Valid() && s == KernelMemory.PfFree(old(s), f)
      ensures UsersKept(old(s.owner), old(mem), s.owner, mem, {f})
    {
      PfFreeSound(s, f);
      HolderFreed(s, mem, f);
      OtherFrame(s.owner, mem, f, Free(|s.free|), mem[f][0 := Link(freeList)], {f});
      PfFree(f);
      s := KernelMemory.PfFree(s, f);
    }

    /** A store by the owner of a frame, through its own address or through the heap page it
        backs. */
    method Store(f: nat, i: nat, e: Entry)
      requires Valid() && i < LEVEL_SIZE && e.Fits()
      requires f in s.owner && (s.owner[f].Held? || s.owner[f].Backing?)
      modifies `mem
      ensures f in old(mem) && |old(mem)[f]| == LEVEL_SIZE
      ensures Valid() && mem == WriteWord(old(mem), f, i, e)
    {
      OwnerMayWrite(s, mem, f, i, e);
      mem := WriteWord(mem, f, i, e);
    }

    /** One missing level of page_table_get_entry: a fresh frame is zeroed and linked into word
        `idx` of the table. */
    method NewTable(table: nat, idx: nat, ghost v: nat, ghost k: nat) returns (halted: bool)
      requires Valid() && v < NUM_PAGES && 1 <= k <= 3 && idx == Index(v, 4 - k)
      requires VPath(v, k - 1) in s.tables && table == s.tables[VPath(v, k - 1)] && VPath(v, k) !in s.tables
      modifies `regions, `freeList, `mem, `s
      ensures Valid()
      ensures halted <==> AllocTable(old(s), VPath(v, k)) == None
      ensures halted ==> s == old(s)
      ensures !halted ==> AllocTable(old(s), VPath(v, k)) == Some(s)
      ensures UsersKept(old(s.owner), old(mem), s.owner, mem, {})
    {
      var r := PfAlloc();
      if r == None {
        return true;
      }
      var f := r.value;
      PfAllocSound(old(s));
      SlotRead(s, mem, VPath(v, k - 1), idx);
      OwnedFits(s, mem, f);
      var e := mem[table][idx].(present := true, readWrite := true, addr := f);
      TableLinkStored(s, mem, VPath(v, k), f, e);
      LinkTableSound(s, VPath(v, k), f);
      NewTableKeeps(old(s), mem, s, f, VPath(v, k), table, idx, e);
      mem := mem[f := ZEROS];
      mem := WriteWord(mem, table, idx, e);
      s := LinkTable(s, VPath(v, k), f);
      return false;
    }

    /** page_table_get_entry on the root `table`. Halts when a table is needed and memory is out;
        without `allocate`, None when a table on the way is absent. */
    method GetEntry(table: nat, addr: nat, allocate: bool, ghost v: nat) returns (halted: bool, slot: Option<Slot>)
      requires Valid() && Root in s.tables && table == s.tables[Root]
      requires addr < NUM_PAGES * PAGE_SIZE && v == addr / PAGE_SIZE
      modifies `regions, `freeList, `mem, `s
      ensures Valid()
      ensures !allocate ==> !halted && s == old(s) && mem == old(mem) && (slot.Some? <==> VPath(v, 3) in s.tables)
      ensures allocate ==> (halted <==> Grow(old(s), v, 3) == None)
      ensures allocate && !halted ==> Grow(old(s), v, 3) == Some(s) && slot.Some?
      ensures slot.Some? ==> VPath(v, 3) in s.tables && slot.value == Slot(s.tables[VPath(v, 3)], Index(v, 0))
      ensures UsersKept(old(s.owner), old(mem), s.owner, mem, {})
    {
      NothingDone(s.owner, mem, {});
      var indices := new nat[4];
      var _ := SplitVirtAddr(addr, indices);
      var table, l := table, 3;
      while l > 0
        invariant 0 <= l <= 3
        invariant Valid() && VPath(v, 3 - l) in s.tables && table == s.tables[VPath(v, 3 - l)]
        invariant forall m :: 0 <= m < 4 ==> indices[m] == Index(v, m)
        invariant !allocate ==> s == old(s) && mem == old(mem)
        invariant allocate ==> Grow(old(s), v, 3 - l) == Some(s)
        invariant UsersKept(old(s.owner), old(mem), s.owner, mem, {})
      {
        SlotRead(s, mem, VPath(v, 3 - l), indices[l]);
        ghost var p := VPath(v, 4 - l);
        if !mem[table][indices[l]].present {
          if allocate {
            ghost var s1, mem1 := s, mem;
            var oom := NewTable(table, indices[l], v, 4 - l);
            KeptOn(old(s.owner), old(mem), s1.owner, mem1, s.owner, mem);
            if oom {
              GrowNone(old(s), v, 4 - l);
              return true, None;
            }
            SlotRead(s, mem, VPath(v, 3 - l), indices[l]);
          } else {
            AbsentBelow(s, v, 4 - l, 3);
            return false, None;
          }
        }
        table := mem[table][indices[l]].addr;
        l := l - 1;
      }
      return false, Some(Slot(table, indices[0]));
    }

    /** A store through the entry pointer page_table_get_entry returned. */
    method SetEntry(slot: Slot, e: Entry, ghost v: nat)
      requires Valid() && v in s.flat && VPath(v, 3) in s.tables
      requires slot == Slot(s.tables[VPath(v, 3)], Index(v, 0)) && SafeLeaf(v, s.flat[v], e, s.brk)
      requires e.Fits()
      modifies `mem, `s
      ensures Valid() && s == SetLeaf(old(s), v, e)
      ensures UsersKept(old(s.owner), old(mem), s.owner, mem, {})
    {
      TableOwned(s, VPath(v, 3));
      SetLeafSound(s, v, e);
      SetLeafStored(s, mem, v, e);
      OtherFrame(s.owner, mem, slot.frame, Held, mem[slot.frame][slot.idx := e], {});
      mem := WriteWord(mem, slot.frame, slot.idx, e);
      s := SetLeaf(s, v, e);
    }

    /** page_table_virt_to_phys_addr; None for the NULL result. */
    method VirtToPhys(addr: nat) returns (r: Option<nat>)
      requires Valid() && Loaded() && addr < NUM_PAGES * PAGE_SIZE
      modifies `regions, `freeList, `mem, `s
      ensures Valid() && s == old(s) && mem == old(mem)
      ensures r == Translate(s, addr)
    {
      var _, slot := GetEntry(cr3, addr, false, addr / PAGE_SIZE);
      if slot == None {
        return None;
      }
      LeafRead(s, mem, addr / PAGE_SIZE);
      return Some(mem[slot.value.frame][slot.value.idx].addr * PAGE_SIZE + addr % PAGE_SIZE);
    }

    /** The body of page_table_walk's loop: find or make the leaf slot, run the callback on it. */
    method Visit(table: nat, addr: nat, cb: Callback, ghost v: nat) returns (halted: bool)
      requires Valid() && Root in s.tables && table == s.tables[Root]
      requires addr < NUM_PAGES * PAGE_SIZE && v == addr / PAGE_SIZE
      requires v in s.flat && SafeLeaf(v, s.flat[v], Apply(cb, v, s.flat[v]), s.brk)
      modifies `regions, `freeList, `mem, `s
      ensures Valid()
      ensures halted <==> PageWalk.Visit(old(s), v, cb) == None
      ensures !halted ==> PageWalk.Visit(old(s), v, cb) == Some(s)
      ensures UsersKept(old(s.owner), old(mem), s.owner, mem, {})
    {
      var oom, slot := GetEntry(table, addr, true, v);
      if oom {
        return true;
      }
      GrowLeaves(old(s), v, 3);
      GrowSound(old(s), v, 3);
      LeafRead(s, mem, v);
      ghost var s1, mem1 := s, mem;
      SetEntry(slot.value, Apply(cb, addr / PAGE_SIZE, mem[slot.value.frame][slot.value.idx]), v);
      KeptOn(old(s.owner), old(mem), s1.owner, mem1, s.owner, mem);
      return false;
    }

    /** One iteration of page_table_walk, begun in `was`. */
    method VisitNext(table: nat, addr: nat, cb: Callback, ghost was: State, ghost lo: nat, ghost w: nat, ghost hi: nat)
      returns (halted: bool)
      requires Valid() && Inv(was) && Root in was.tables && table == was.tables[Root]
      requires addr == w * PAGE_SIZE && lo <= w < hi <= NUM_PAGES && SafeRange(cb, lo, hi, was.flat, was.brk)
      requires PageWalk.Walk(was, lo, w, cb) == Some(s)
      modifies `regions, `freeList, `mem, `s
      ensures Valid()
      ensures halted ==> PageWalk.Walk(was, lo, hi, cb) == None
      ensures !halted ==> PageWalk.Walk(was, lo, w + 1, cb) == Some(s)
      ensures UsersKept(old(s.owner), old(mem), s.owner, mem, {})
    {
      WalkMidway(was, lo, w, hi, cb, s);
      WalkOneMore(was, lo, w, hi, cb, s);
      halted := Visit(table, addr, cb, w);
    }

    /** page_table_walk over [start, end), the pages [lo, hi). */
    method Walk(table: nat, start: nat, end: nat, cb: Callback, ghost lo: nat, ghost hi: nat) returns (halted: bool)
      requires Valid() && Root in s.tables && table == s.tables[Root]
      requires start == lo * PAGE_SIZE && end == hi * PAGE_SIZE && lo <= hi <= NUM_PAGES
      requires SafeRange(cb, lo, hi, s.flat, s.brk)
      modifies `regions, `freeList, `mem, `s
      ensures Valid()
      ensures halted <==> PageWalk.Walk(old(s), lo, hi, cb) == None
      ensures !halted ==> PageWalk.Walk(old(s), lo, hi, cb) == Some(s)
      ensures UsersKept(old(s.owner), old(mem), s.owner, mem, {})
    {
      NothingDone(s.owner, mem, {});
      var addr := start;
      ghost var w := lo;
      while addr < end
        invariant addr == w * PAGE_SIZE && lo <= w <= hi
        invariant Valid()
        invariant PageWalk.Walk(old(s), lo, w, cb) == Some(s)
        invariant UsersKept(old(s.owner), old(mem), s.owner, mem, {})
        decreases end - addr
      {
        ghost var s1, mem1 := s, mem;
        var oom := VisitNext(table, addr, cb, old(s), lo, w, hi);
        KeptOn(old(s.owner), old(mem), s1.owner, mem1, s.owner, mem);
        if oom {
          return true;
        }
        addr := addr + PAGE_SIZE;
        w := w + 1;
      }
      return false;
    }

    /** The root table of init_page_table: a frame, zeroed. */
    method NewRoot() returns (r: Option<nat>)
      requires Valid() && IsBoot(s)
      modifies `regions, `freeList, `mem, `s
      ensures Valid()
      ensures r == None ==> KernelMemory.PfAlloc(old(s)) == None
      ensures r.Some? ==>
                && KernelMemory.PfAlloc(old(s)).Some?
                && s == LinkTable(KernelMemory.PfAlloc(old(s)).value.1, Root, KernelMemory.PfAlloc(old(s)).value.0)
                && Root in s.tables && s.tables[Root] == r.value && s.regions == old(s).regions
                && |regions| == |s.regions| && forall i :: 0 <= i < |regions| ==> regions[i].end == s.regions[i].end
    {
      BootInv(s);
      PfAllocSound(s);
      r := PfAlloc();
      if r.Some? {
        RootLinked(old(s));
        RootLinkStored(s, mem, r.value);
        mem := mem[r.value := ZEROS];
        s := LinkTable(s, Root, r.value);
      }
    }

    /** init_page_table: a zeroed root, the identity map up to the end of the last region, then
        the page table register. */
    method InitPageTable() returns (halted: bool)
      requires Valid() && IsBoot(s) && regions != []
      modifies this
      ensures Valid()
      ensures halted <==> HeapPaging.InitPageTable(old(s), End(old(s.regions))) == None
      ensures !halted ==> HeapPaging.InitPageTable(old(s), End(old(s.regions))) == Some(s)
      ensures !halted ==> Loaded()
    {
      ghost var end := End(s.regions);
      EndWithinHeap(s.regions);
      var r := NewRoot();
      if r == None {
        return true;
      }
      BootSafe(old(s), end);
      RootLinked(old(s));
      WalkSound(s, 1, end, DirectMap);
      halted := Walk(r.value, PAGE_SIZE, regions[|regions| - 1].end * PAGE_SIZE, DirectMap, 1, end);
      if !halted {
        cr3 := r.value;
      }
    }

    /** sbrk by whole pages: the old break is returned. */
    method Sbrk(increment: nat, ghost n: nat) returns (last: nat)
      requires Valid() && increment == n * PAGE_SIZE && s.brk + n <= NUM_PAGES
      modifies `brk, `s
      ensures Valid() && s == old(s).(brk := old(s).brk + n) && last == old(brk)
    {
      BrkUp(s, n);
      last := brk;
      brk := brk + increment;
      s := s.(brk := s.brk + n);
      OpenStores(mem, old(s));
      CloseStores(mem, s);
    }

    /** MMU_alloc_pages: addresses only; no page is backed yet. */
    method AllocPages(num: nat) returns (halted: bool, addr: nat)
      requires Valid() && Loaded() && s.brk + num <= NUM_PAGES
      modifies `regions, `freeList, `mem, `brk, `s
      ensures Valid()
      ensures halted <==> HeapPaging.AllocPages(old(s), num) == None
      ensures !halted ==> HeapPaging.AllocPages(old(s), num) == Some(s) && Loaded()
      ensures addr == old(brk) && UsersKept(old(s.owner), old(mem), s.owner, mem, {})
    {
      BrkUp(s, num);
      addr := Sbrk(PAGE_SIZE * num, num);
      WalkSound(s, old(s).brk, s.brk, MarkAvailable);
      halted := Walk(cr3, addr, addr + PAGE_SIZE * num, MarkAvailable, old(s).brk, s.brk);
    }

    /** MMU_alloc_page */
    method AllocPage() returns (halted: bool, addr: nat)
      requires Valid() && Loaded() && s.brk + 1 <= NUM_PAGES
      modifies `regions, `freeList, `mem, `brk, `s
      ensures Valid()
      ensures halted <==> HeapPaging.AllocPages(old(s), 1) == None
      ensures !halted ==> HeapPaging.AllocPages(old(s), 1) == Some(s) && Loaded()
      ensures addr == old(brk) && UsersKept(old(s.owner), old(mem), s.owner, mem, {})
    {
      BrkUp(s, 1);
      addr := Sbrk(PAGE_SIZE, 1);
      ghost var v := old(s).brk;
      WalkSound(s, v, v + 1, MarkAvailable);
      assert PageWalk.Walk(s, v, v, MarkAvailable) == Some(s);
      assert PageWalk.Walk(s, v, v + 1, MarkAvailable) == PageWalk.Visit(s, v, MarkAvailable);
      halted := Visit(cr3, addr, MarkAvailable, v);
    }

    /** Whether the processor finds the page of an address present. */
    method IsMapped(addr: nat, ghost v: nat) returns (mapped: bool)
      requires Valid() && Loaded() && addr < NUM_PAGES * PAGE_SIZE && v == addr / PAGE_SIZE
      modifies `regions, `freeList, `mem, `s
      ensures Valid() && Loaded() && s == old(s) && mem == old(mem)
      ensures v in s.flat && mapped == s.flat[v].present
    {
      var _, r := GetEntry(cr3, addr, false, v);
      if r == None {
        assert Holds(FlatPart, s);
        return false;
      }
      LeafRead(s, mem, v);
      return mem[r.value.frame][r.value.idx].present;
    }

    /** The physical address behind a page that is present. */
    method Behind(addr: nat, ghost v: nat) returns (frame: nat, offset: nat)
      requires Valid() && Loaded() && v == addr / PAGE_SIZE && v in s.flat && IsHeap(v) && s.flat[v].present
      modifies `regions, `freeList, `mem, `s
      ensures Valid() && Loaded() && s == old(s) && mem == old(mem)
      ensures frame == s.flat[v].addr && offset == addr % PAGE_SIZE
    {
      HeapPathKnown(s, v);
      var r := VirtToPhys(addr);
      DivModUnique(r.value, PAGE_SIZE, s.flat[v].addr, addr % PAGE_SIZE);
      return r.value / PAGE_SIZE, r.value % PAGE_SIZE;
    }

    /** A load of a 64-bit word from a heap page that is present. */
    method LoadWord(addr: nat, ghost x: nat) returns (w: nat)
      requires Valid() && Loaded() && HoldsWord(s.flat, mem, addr, x)
      modifies `regions, `freeList, `mem, `s
      ensures Valid() && Loaded() && s == old(s) && mem == old(mem) && w == x
    {
      BitsFromBits(x);
      SamePlace(addr, addr);
      var frame, offset := Behind(addr, addr / PAGE_SIZE);
      return mem[frame][offset / 8].Bits();
    }

    /** A store of a 64-bit word to a heap page that is present. */
    method StoreWord(addr: nat, x: nat)
      requires Valid() && Loaded() && x < TWO_64 && addr % 8 == 0
      requires var v := addr / PAGE_SIZE; v in s.flat && IsHeap(v) && s.flat[v].present
      modifies `regions, `freeList, `mem, `s
      ensures Valid() && Loaded() && s == old(s)
      ensures var f := s.flat[addr / PAGE_SIZE].addr; f in old(mem) && |old(mem)[f]| == LEVEL_SIZE
      ensures mem == Poked(s.flat, old(mem), addr, x)
    {
      UnbackOwner(s, addr / PAGE_SIZE);
      SamePlace(addr, addr);
      var frame, offset := Behind(addr, addr / PAGE_SIZE);
      Store(frame, offset / 8, FromBits(x));
    }

    /** page_fault_handler for the faulting address `addr`. */
    method PageFault(addr: nat, ghost v: nat) returns (halted: bool)
      requires Valid() && Loaded() && addr < NUM_PAGES * PAGE_SIZE && v == addr / PAGE_SIZE
      requires v in s.flat && !s.flat[v].present
      modifies `regions, `freeList, `mem, `s
      ensures Valid() && Loaded()
      ensures halted <==> HeapPaging.PageFault(old(s), v) == None
      ensures !halted ==> HeapPaging.PageFault(old(s), v) == Some(s)
      ensures UsersKept(old(s.owner), old(mem), s.owner, mem, {})
    {
      NothingDone(s.owner, mem, {});
      var _, r := GetEntry(cr3, addr, false, v);
      if r == None {
        return true;
      }
      var slot := r.value;
      LeafRead(s, mem, v);
      if mem[slot.frame][slot.idx].available == 0 {
        return true;
      }
      var q := PfAlloc();
      if q == None {
        return true;
      }
      var f := q.value;
      PfAllocSound(old(s));
      LeafRead(s, mem, v);
      FaultStored(s, mem, v, f);
      BackPageSound(s, v, f);
      FaultKeeps(old(s), mem, s, v, f, Backed(s.flat[v], f));
      mem := WriteWord(mem, slot.frame, slot.idx, Backed(mem[slot.frame][slot.idx], f));
      s := s.(owner := s.owner[f := Backing(v)], flat := s.flat[v := Backed(s.flat[v], f)]);
      return false;
    }

    /** The two writes of MMU_free_page on a page that is present. */
    method FreeBacked(slot: Slot, ghost v: nat)
      requires Valid() && Loaded() && v in s.flat && IsHeap(v) && s.flat[v].present && VPath(v, 3) in s.tables
      requires slot == Slot(s.tables[VPath(v, 3)], Index(v, 0))
      modifies `freeList, `mem, `s
      ensures Valid() && Loaded() && s == Freed(old(s), v)
      ensures UsersKept(old(s.owner), old(mem), s.owner, mem, {old(s.flat[v].addr)})
    {
      FreePageSound(s, v);
      LeafRead(s, mem, v);
      FreePageStored(s, mem, v);
      var e := mem[slot.frame][slot.idx];
      FreeKeeps(s, mem, v, mem[e.addr][0 := Link(freeList)], e.(present := false));
      PfFree(e.addr);
      mem := WriteWord(mem, slot.frame, slot.idx, e.(present := false));
      s := Freed(s, v);
    }

    /** MMU_free_page on a heap page, present or never touched. Frame 0 in the entry of the latter
        makes the link a store to address 0, so it halts the machine exactly when the page is not
        present. */
    method FreePage(addr: nat, ghost v: nat) returns (halted: bool)
      requires Valid() && Loaded() && addr < NUM_PAGES * PAGE_SIZE && v == addr / PAGE_SIZE
      requires Clean(s.flat, v, 1)
      modifies `regions, `freeList, `mem, `s
      ensures Valid() && (halted <==> !old(s.flat[v].present))
      ensures !halted ==> Loaded() && s == Freed(old(s), v)
      ensures !halted ==> UsersKept(old(s.owner), old(mem), s.owner, mem, {old(s.flat[v].addr)})
    {
      KnownIfPresent(s, mem, v);
      GrowLeaves(s, v, 3);
      GrowSound(s, v, 3);
      var r;
      halted, r := GetEntry(cr3, addr, true, v);
      if halted {
        return;
      }
      LeafRead(s, mem, v);
      if mem[r.value.frame][r.value.idx].addr == 0 {
        NullFaults(s);
        halted := PageFault(0, 0);
        return;
      }
      ghost var mem1 := mem;
      FreeBacked(r.value, v);
      KeptTwice(old(s.owner), old(mem), old(s.owner), mem1, s.owner, mem, {}, {old(s.flat[v].addr)});
      assert {} + {old(s.flat[v].addr)} == {old(s.flat[v].addr)};
    }

    /** One iteration of MMU_free_pages, begun in `was`. */
    method FreeNext(page: nat, ghost v: nat, ghost n: nat, ghost num: nat, ghost was: State) returns (halted: bool)
      requires Valid() && Loaded() && v + n == page / PAGE_SIZE && v + num <= NUM_PAGES && n < num
      requires Clean(was.flat, v, num) && AllPresent(was.flat, v, n) && FreedRange(was, v, n, s)
      modifies `regions, `freeList, `mem, `s
      ensures Valid() && (halted ==> !AllPresent(was.flat, v, num))
      ensures !halted ==> Loaded() && AllPresent(was.flat, v, n + 1) && FreedRange(was, v, n + 1, s)
      ensures !halted ==> UsersKept(old(s.owner), old(mem), s.owner, mem, {was.flat[v + n].addr})
    {
      NextClean(was, v, n, num, s);
      ghost var t := s;
      halted := FreePage(page, v + n);
      if !halted {
        FreedOneMore(was, v, n, t);
      }
    }

    /** MMU_free_pages: `addr` need not be page aligned. */
    method FreePages(addr: nat, num: nat, ghost v: nat) returns (halted: bool)
      requires Valid() && Loaded() && v == addr / PAGE_SIZE && v + num <= NUM_PAGES
      requires Clean(s.flat, v, num)
      modifies `regions, `freeList, `mem, `s
      ensures Valid() && (halted <==> !AllPresent(old(s.flat), v, num))
      ensures !halted ==> Loaded() && FreedRange(old(s), v, num, s)
      ensures !halted ==> UsersKept(old(s.owner), old(mem), s.owner, mem, FrameSet(old(s.flat), v, num))
    {
      FreedNone(s, v);
      NothingDone(s.owner, mem, FrameSet(s.flat, v, 0));
      var page := addr;
      ghost var n := 0;
      while page < addr + PAGE_SIZE * num
        invariant page == addr + n * PAGE_SIZE && n <= num
        invariant Valid() && Loaded()
        invariant AllPresent(old(s.flat), v, n) && FreedRange(old(s), v, n, s)
        invariant UsersKept(old(s.owner), old(mem), s.owner, mem, FrameSet(old(s.flat), v, n))
        decreases num - n
      {
        ghost var t, mem1 := s, mem;
        halted := FreeNext(page, v, n, num, old(s));
        if halted {
          return;
        }
        FrameSetGrows(old(s.flat), v, n);
        KeptTwice(old(s.owner), old(mem), t.owner, mem1, s.owner, mem, FrameSet(old(s.flat), v, n),
                  {old(s.flat)[v + n].addr});
        page := page + PAGE_SIZE;
        n := n + 1;
      }
      return false;
    }
  }
}
