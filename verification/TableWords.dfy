/** The 64-bit words in memory: what a free-list pointer reads as, and what the processor finds
    when it walks the tables. */
module TableWords {
  import opened Arithmetic
  import opened Options
  import opened PageTree
  import opened KernelMemory
  import opened FrameStore
  import HeapPaging
  import MemoryRuns

  /** The word that starts a free frame is the address of the next free frame, with every flag of
      an entry clear; and any word of memory with those bits reads as that pointer. */
  lemma {:induction false} FreeWordIsPointer(s: State, mem: Memory, k: nat, f: nat, i: nat)
    requires Stores(mem, s) && k < |s.free| && f in mem && i < LEVEL_SIZE
    ensures var g, pointer := s.free[k], PAGE_SIZE * Head(s.free[..k]);
            && g in mem && |mem[g]| == LEVEL_SIZE && |mem[f]| == LEVEL_SIZE
            && mem[g][0].Fits() && mem[g][0].Bits() == pointer && !mem[g][0].present
            && mem[f][i].Fits() && (mem[f][i].Bits() == pointer ==> mem[f][i] == mem[g][0])
  {
    OpenStores(mem, s);
    WordFits(mem, f, i);
    WordFits(mem, s.free[k], 0);
    LinkOverlaysEntry(Head(s.free[..k]), mem[f][i]);
  }

  /** Words of memory are told apart by their 64 bits. */
  lemma {:induction false} WordsByBits(s: State, mem: Memory, f: nat, i: nat, g: nat, j: nat)
    requires Stores(mem, s) && f in mem && g in mem && i < LEVEL_SIZE && j < LEVEL_SIZE
    ensures |mem[f]| == |mem[g]| == LEVEL_SIZE && mem[f][i].Fits() && mem[g][j].Fits()
    ensures mem[f][i].Bits() < 0x1_0000_0000_0000_0000
    ensures mem[f][i].Bits() == mem[g][j].Bits() <==> mem[f][i] == mem[g][j]
  {
    OpenStores(mem, s);
    WordFits(mem, f, i);
    WordFits(mem, g, j);
    EntryFromBits(mem[f][i]);
    EntryFromBits(mem[g][j]);
  }

  // ------------------------------------------------------- the processor's walk

  /** Memory as the processor sees it. */
  type RawMemory = map<nat, seq<nat>>

  ghost function Raw(mem: Memory): RawMemory {
    map f | f in mem :: seq(|mem[f]|, i requires 0 <= i < |mem[f]| => if mem[f][i].Fits() then mem[f][i].Bits() else 0)
  }

  /** The fields of an entry that decide an access: present, read/write, page size in the entries
      above the leaf level, and the frame number (section 4.5 of volume 3A of the Intel 64 and IA-32
      Architectures Software Developer's Manual). */
  function IsPresent(w: nat): bool { w % 2 == 1 }

  function IsWritable(w: nat): bool { w / 2 % 2 == 1 }

  function IsLarge(w: nat): bool { w / 0x80 % 2 == 1 }

  function FrameIn(w: nat): nat { w / 0x1000 % 0x100_0000_0000 }

  /** The frame the processor reaches for a load, or for a store that obeys the read/write bits, to
      page `v` from a table of level `l`; None is a page fault. */
  function ProcessorWalk(raw: RawMemory, table: nat, v: nat, l: nat, store: bool): Option<nat>
    requires l < 4
    decreases l
  {
    if table !in raw || |raw[table]| != LEVEL_SIZE then None
    else
      var w := raw[table][Index(v, l)];
      if !IsPresent(w) || (store && !IsWritable(w)) then None
      else if l == 0 then Some(FrameIn(w))
      else if !IsLarge(w) then ProcessorWalk(raw, FrameIn(w), v, l - 1, store)
      else if l == 3 then None
      else Some(FrameIn(w) / Span(l) * Span(l) + v % Span(l))
  }

  lemma {:induction false} RawWord(s: State, mem: Memory, f: nat, i: nat)
    requires Stores(mem, s) && f in mem && i < LEVEL_SIZE
    ensures |mem[f]| == LEVEL_SIZE && f in Raw(mem) && |Raw(mem)[f]| == LEVEL_SIZE
    ensures var w, e := Raw(mem)[f][i], mem[f][i];
            && IsPresent(w) == e.present && IsWritable(w) == e.readWrite && FrameIn(w) == e.addr
            && (e.low == 0 ==> !IsLarge(w))
  {
    OpenStores(mem, s);
    WordFits(mem, f, i);
    EntryFromBits(mem[f][i]);
    var w := mem[f][i].Bits();
    assert mem[f][i].low == w / 4 % 0x80;
    LargeBit(w);
  }

  lemma {:induction false} LargeBit(w: nat)
    ensures w / 4 % 0x80 == 0 ==> !IsLarge(w)
  {
    if w / 4 % 0x80 == 0 {
      var p := w / 4 / 0x80;
      assert w / 4 == p * 0x80;
      DivModUnique(w, 0x80, 4 * p, w % 4);
    }
  }

  /** What the page map allows: a load of a present page, a store to a present writable one. */
  function Mapped(e: Entry, store: bool): Option<nat> {
    if e.present && (store ==> e.readWrite) then Some(e.addr) else None
  }

  lemma {:induction false} WalkFrom(s: State, mem: Memory, v: nat, k: nat, store: bool)
    requires Inv(s) && Stores(mem, s) && v < NUM_PAGES && k <= 3 && VPath(v, k) in s.tables
    ensures v in s.flat
    ensures ProcessorWalk(Raw(mem), s.tables[VPath(v, k)], v, 3 - k, store) == Mapped(s.flat[v], store)
    decreases 3 - k
  {
    assert Holds(FlatPart, s);
    var f := s.tables[VPath(v, k)];
    if k == 3 {
      LeafRead(s, mem, v);
      RawWord(s, mem, f, Index(v, 0));
    } else {
      SlotRead(s, mem, VPath(v, k), Index(v, 3 - k));
      RawWord(s, mem, f, Index(v, 3 - k));
      if VPath(v, k + 1) in s.tables {
        WalkFrom(s, mem, v, k + 1, store);
      } else {
        AbsentBelow(s, v, k + 1, 3);
      }
    }
  }

  /** The processor, walking the words in memory from the root, finds exactly the pages the
      abstract map says are present, and for a store writable, at their frames, and faults on every
      other. */
  lemma {:induction false} ProcessorAgrees(s: State, mem: Memory, v: nat, store: bool)
    requires Inv(s) && Stores(mem, s) && Root in s.tables && v < NUM_PAGES
    ensures v in s.flat
    ensures ProcessorWalk(Raw(mem), s.tables[Root], v, 3, store) == Mapped(s.flat[v], store)
  {
    WalkFrom(s, mem, v, 0, store);
  }

  /** A store to a heap page that is present reaches its frame. */
  lemma {:induction false} HeapStores(s: State, mem: Memory, v: nat)
    requires Inv(s) && Stores(mem, s) && Root in s.tables && v in s.flat && IsHeap(v) && s.flat[v].present
    ensures ProcessorWalk(Raw(mem), s.tables[Root], v, 3, true) == Some(s.flat[v].addr)
  {
    ProcessorAgrees(s, mem, v, true);
    assert Holds(HeapPart, s);
  }

  /** After every run from boot, a store to a frame's own address reaches that frame, whatever it is
      used for by then. */
  lemma {:induction false} FramesWritable(s: State, ops: seq<MemoryRuns.Op>, t: State, mem: Memory, f: nat)
    requires MemoryRuns.Reached(s, ops, t) && Stores(mem, t) && Covered(s.regions, f)
    ensures Root in t.tables && ProcessorWalk(Raw(mem), t.tables[Root], f, 3, true) == Some(f)
  {
    MemoryRuns.ReachedGood(s, ops, t);
    FrameMapped(t, f);
    ProcessorAgrees(t, mem, f, true);
  }

  lemma {:induction false} FrameMapped(t: State, f: nat)
    requires MemoryRuns.Good(t) && Covered(t.regions, f)
    ensures f < NUM_PAGES && f in t.flat && t.flat[f] == Mapping(f)
  {
    MemoryRuns.EndWithinHeap(t.regions);
  }

  // ----------------------------------------------------- the words themselves

  /** An entry above the leaf level, as a word of memory. */
  lemma {:induction false} InnerWord(s: State, mem: Memory, p: Path, i: nat)
    requires Stores(mem, s) && p in s.tables && Depth(p) < 3 && i < LEVEL_SIZE
    ensures var f := s.tables[p];
            && f in mem && |mem[f]| == LEVEL_SIZE && mem[f][i].Fits()
            && mem[f][i].Bits() == if Sub(p, i) in s.tables then 0x1000 * s.tables[Sub(p, i)] + 3 else 0
  {
    SlotRead(s, mem, p, i);
    if Sub(p, i) in s.tables {
      MappingBits(s.tables[Sub(p, i)]);
    }
  }

  /** After every run from boot the leaf of a page is: for a page up to the end of the last region, its
      own address, present and writable; for any other page outside the heap, and beyond the break,
      zero; for a heap page below the break, the available flag, with the frame's address and the
      present and read/write bits while the page is backed, and the frame's address and the read/write
      bit once it was freed. */
  lemma {:induction false} LeafWord(s: State, ops: seq<MemoryRuns.Op>, t: State, mem: Memory, v: nat)
    requires MemoryRuns.Reached(s, ops, t) && Stores(mem, t) && v < NUM_PAGES
    ensures v in t.flat && (1 <= v < MemoryRuns.End(s.regions) ==> VPath(v, 3) in t.tables)
    ensures VPath(v, 3) in t.tables ==> t.flat[v].Fits()
    ensures VPath(v, 3) in t.tables ==>
              var f := t.tables[VPath(v, 3)];
              && f in mem && |mem[f]| == LEVEL_SIZE && mem[f][Index(v, 0)] == t.flat[v]
              && var w, frame := t.flat[v].Bits(), t.flat[v].addr;
                 if 1 <= v < MemoryRuns.End(s.regions) then w == 0x1000 * v + 3
                 else if v < HEAP_BASE || t.brk <= v then w == 0
                 else if t.flat[v].present then w == 0x1000 * frame + 0x203
                 else w == 0x200 || w == 0x1000 * frame + 0x202
  {
    MemoryRuns.ReachedGood(s, ops, t);
    MemoryRuns.EndWithinHeap(t.regions);
    LeafShape(t, v);
    if VPath(v, 3) in t.tables {
      LeafRead(t, mem, v);
    }
  }

  lemma {:induction false} LeafShape(t: State, v: nat)
    requires MemoryRuns.Good(t) && v < NUM_PAGES
    ensures v in t.flat
    ensures var e := t.flat[v];
            if 1 <= v < MemoryRuns.End(t.regions) then VPath(v, 3) in t.tables && e == Mapping(v)
            else if v < HEAP_BASE || t.brk <= v then e == ZERO
            else e.available == 1 && e.low == 0 && e.high == 0 && (e.present ==> e.readWrite)
                 && (!e.readWrite ==> e.addr == 0)
  {
    assert Holds(FlatPart, t) && Holds(HeapPart, t);
  }

  /** Pages just taken from the break: the available flag and nothing else. */
  lemma {:induction false} MarkedWords(s: State, n: nat, v: nat)
    requires Inv(s) && s.brk + n <= NUM_PAGES && HeapPaging.AllocPages(s, n).Some? && s.brk <= v < s.brk + n
    ensures var t := HeapPaging.AllocPages(s, n).value;
            v in t.flat && t.flat[v].Fits() && t.flat[v].Bits() == 0x200
  {
    HeapPaging.AllocPagesLeaves(s, n);
    assert Holds(FlatPart, s) && Holds(HeapPart, s);
  }

  /** A page that a fault has backed: its frame's address, present, writable and available. */
  lemma {:induction false} BackedWord(s: State, v: nat)
    requires Inv(s) && Static(s) && Root in s.tables && v in s.flat && !s.flat[v].present
    requires HeapPaging.PageFault(s, v).Some?
    ensures var t := HeapPaging.PageFault(s, v).value;
            && v in t.flat && t.flat[v].Fits() && t.flat[v].addr in s.owner && IsAvailable(s.owner[t.flat[v].addr])
            && t.flat[v].Bits() == 0x1000 * t.flat[v].addr + 0x203
  {
    HeapPaging.PageFaultSound(s, v);
    assert Holds(HeapPart, s);
    MemoryRuns.EndWithinHeap(s.regions);
    assert Covered(s.regions, HeapPaging.PageFault(s, v).value.flat[v].addr);
  }

  /** A page that was freed: the same without the present bit, and its frame heads the free list. */
  lemma {:induction false} FreedWord(s: State, v: nat)
    requires Inv(s) && Static(s) && v in s.flat && IsHeap(v) && s.flat[v].present
    ensures var f, t := s.flat[v].addr, HeapPaging.FreePage(s, v);
            && t.Some? && v in t.value.flat && t.value.flat[v].Fits()
            && t.value.flat[v].Bits() == 0x1000 * f + 0x202 && t.value.free == s.free + [f]
            && forall w :: w in s.flat && w != v ==> w in t.value.flat && t.value.flat[w] == s.flat[w]
  {
    HeapPaging.FreePageSound(s, v);
    assert Holds(HeapPart, s);
    MemoryRuns.EndWithinHeap(s.regions);
    assert Covered(s.regions, s.flat[v].addr);
  }
}
