/** Virtual page numbers, the path of a page through the four table levels, and the
    64-bit word stored in each slot of a physical frame. */
module PageTree {

  const PAGE_SIZE := 0x1000
  const LEVEL_SIZE := 512
  const NUM_PAGES := 0x10_0000_0000          // 2^36 pages: addresses below 2^48
  const HEAP_BASE := 0x800_0000              // page number of address 1 << 39

  /** Number of pages below one entry of a level-`l` table (level 0 holds the leaves). */
  function Span(l: nat): (r: nat)
    requires l <= 4
    ensures r > 0
  {
    if l == 0 then 1
    else if l == 1 then 0x200
    else if l == 2 then 0x4_0000
    else if l == 3 then 0x800_0000
    else 0x10_0000_0000
  }

  /** The nine address bits that select the slot in a level-`l` table. */
  function Index(v: nat, l: nat): (r: nat)
    requires l < 4
    ensures r < LEVEL_SIZE
  {
    v / Span(l) % LEVEL_SIZE
  }

  /** A table is named by the slots taken from the root to reach it. */
  datatype Path = Root | Sub(parent: Path, idx: nat)

  function Depth(p: Path): nat {
    match p
    case Root => 0
    case Sub(q, _) => 1 + Depth(q)
  }

  /** The table at depth `k` on the way to page `v`; at depth 4, the leaf slot itself. */
  function VPath(v: nat, k: nat): (p: Path)
    requires k <= 4
    ensures Depth(p) == k
  {
    if k == 0 then Root else Sub(VPath(v, k - 1), Index(v, 4 - k))
  }

  lemma {:induction false} SplitSpan(v: nat, k: nat)
    requires 1 <= k <= 4
    ensures v / Span(4 - k) == v / Span(5 - k) * LEVEL_SIZE + Index(v, 4 - k)
  {
    var q := v / Span(4 - k);
    assert Span(5 - k) == Span(4 - k) * LEVEL_SIZE;
    if k == 4 {
    } else if k == 3 {
      assert v / 0x4_0000 == v / 0x200 / 0x200;
    } else if k == 2 {
      assert v / 0x800_0000 == v / 0x4_0000 / 0x200;
    } else {
      assert v / 0x10_0000_0000 == v / 0x800_0000 / 0x200;
    }
  }

  /** Two pages go through the same depth-`k` table exactly when they lie in the same aligned
      span of that table. */
  lemma {:induction false} SamePathIffSameSpan(v: nat, w: nat, k: nat)
    requires v < NUM_PAGES && w < NUM_PAGES && k <= 4
    ensures VPath(v, k) == VPath(w, k) <==> v / Span(4 - k) == w / Span(4 - k)
  {
    if k > 0 {
      SamePathIffSameSpan(v, w, k - 1);
      SplitSpan(v, k);
      SplitSpan(w, k);
    }
  }

  /** Distinct pages below 2^48 have distinct leaf slots. */
  lemma {:induction false} DistinctPagesDistinctSlots(v: nat, w: nat)
    requires v < NUM_PAGES && w < NUM_PAGES
    requires VPath(v, 3) == VPath(w, 3) && Index(v, 0) == Index(w, 0)
    ensures v == w
  {
    SamePathIffSameSpan(v, w, 4);
  }

  /** The indices are the digits of the page number to base 512, level 0 the lowest. */
  lemma {:induction false} IndexDigits(v: nat)
    requires v < NUM_PAGES
    ensures v == Index(v, 0) + 0x200 * (Index(v, 1) + 0x200 * (Index(v, 2) + 0x200 * Index(v, 3)))
  {
    SplitSpan(v, 4);
    SplitSpan(v, 3);
    SplitSpan(v, 2);
    SplitSpan(v, 1);
  }

  /** split_virt_addr: the loop over the levels. */
  method SplitVirtAddr(addr: nat, indices: array<nat>) returns (offset: nat)
    requires addr < NUM_PAGES * PAGE_SIZE && indices.Length == 4
    modifies indices
    ensures offset == addr % PAGE_SIZE
    ensures forall l :: 0 <= l < 4 ==> indices[l] == Index(addr / PAGE_SIZE, l) < 0x200
    ensures addr == offset + 0x1000 * (indices[0] + 0x200 * (indices[1] + 0x200 * (indices[2] + 0x200 * indices[3])))
  {
    for l := 0 to 4
      invariant forall m :: 0 <= m < l ==> indices[m] == Index(addr / PAGE_SIZE, m)
    {
      ShiftIsSpan(addr, l);
      indices[l] := addr / Shift(9 * l + 12) % 0x200;
    }
    offset := addr % 0x1000;
    IndexDigits(addr / PAGE_SIZE);
  }

  /** `x >> n` on an unsigned value divides by 2^n. */
  function Shift(n: nat): (r: nat)
    ensures r > 0
  {
    if n == 0 then 1 else 2 * Shift(n - 1)
  }

  lemma {:induction false} ShiftIsSpan(addr: nat, l: nat)
    requires l < 4
    ensures addr / Shift(9 * l + 12) == addr / PAGE_SIZE / Span(l)
  {
    Shift9(0);
    Shift9(9);
    Shift9(12);
    Shift9(21);
    Shift9(30);
    assert Shift(9) == 0x200;
    assert Shift(12) == 0x1000;
    assert Shift(21) == 0x20_0000;
    assert Shift(30) == 0x4000_0000;
    assert Shift(39) == 0x80_0000_0000;
  }

  lemma {:induction false} Shift9(n: nat)
    ensures Shift(n + 3) == 8 * Shift(n)
    ensures Shift(n + 9) == 512 * Shift(n)
  {
    assert Shift(n + 3) == 2 * Shift(n + 2) == 4 * Shift(n + 1) == 8 * Shift(n);
    assert Shift(n + 6) == 2 * Shift(n + 5) == 4 * Shift(n + 4) == 8 * Shift(n + 3);
    assert Shift(n + 9) == 2 * Shift(n + 8) == 4 * Shift(n + 7) == 8 * Shift(n + 6);
  }

  /** One 64-bit word of a frame, by the bit fields of a page table entry. `low` and `high`
      are the bits no code here reads. */
  datatype Entry = Entry(present: bool, readWrite: bool, low: nat, available: nat, addr: nat, high: nat) {
    predicate Fits() {
      low < 0x80 && available < 8 && addr < 0x100_0000_0000 && high < 0x1000
    }

    /** The word as the processor sees it (little bits first). */
    function Bits(): (w: nat)
      requires Fits()
    {
      (if present then 1 else 0) + (if readWrite then 2 else 0) + 4 * low + 0x200 * available
      + 0x1000 * addr + 0x10_0000_0000_0000 * high
    }
  }

  const ZERO := Entry(false, false, 0, 0, 0, 0)

  /** The entry of a table above the leaf level, or of a page mapped to the frame of its number. */
  function Mapping(frame: nat): Entry {
    Entry(true, true, 0, 0, frame, 0)
  }

  /** Such a word is the frame's address with the present and read/write bits, and no other. */
  lemma {:induction false} MappingBits(frame: nat)
    requires frame < 0x100_0000_0000
    ensures Mapping(frame).Fits() && Mapping(frame).Bits() == 0x1000 * frame + 3
    ensures ZERO.Fits() && ZERO.Bits() == 0
  {
  }

  /** The word a free frame stores at offset 0 is a pointer to the next free frame; frames are
      page aligned, so its entry flags are all clear. Frame 0 stands for NULL. */
  function Link(frame: nat): Entry {
    Entry(false, false, 0, 0, frame, 0)
  }

  /** A stale free-list pointer read as an entry: its bits are the pointer `frame << 12`, and it
      is the only entry with those bits, so it is never mistaken for a present entry. */
  lemma {:induction false} LinkOverlaysEntry(frame: nat, e: Entry)
    requires frame < 0x100_0000_0000 && e.Fits()
    ensures Link(frame).Fits() && Link(frame).Bits() == 0x1000 * frame
    ensures e.Bits() == 0x1000 * frame ==> e == Link(frame)
  {
    EntryFromBits(e);
    EntryFromBits(Link(frame));
  }

  lemma {:induction false} EntryFromBits(e: Entry)
    requires e.Fits()
    ensures var w := e.Bits();
            && e.present == (w % 2 == 1)
            && e.readWrite == (w / 2 % 2 == 1)
            && e.low == w / 4 % 0x80
            && e.available == w / 0x200 % 8
            && e.addr == w / 0x1000 % 0x100_0000_0000
            && e.high == w / 0x10_0000_0000_0000
  {
    var p := if e.present then 1 else 0;
    var r := if e.readWrite then 1 else 0;
    var w4 := e.addr + 0x100_0000_0000 * e.high;
    var w3 := e.available + 8 * w4;
    var w2 := e.low + 0x80 * w3;
    var w1 := r + 2 * w2;
    var w := p + 2 * w1;
    assert e.Bits() == w;
    assert w / 2 == w1 && w1 / 2 == w2 && w2 / 0x80 == w3 && w3 / 8 == w4;
    assert w / 4 == w2 && w / 0x200 == w3 && w / 0x1000 == w4;
  }
}
