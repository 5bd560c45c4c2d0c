/** The kernel's segregated allocator over abstract blocks: six pools that cut pages into equal
    blocks, and dedicated runs of pages for everything larger. */
module KmallocModel {
  import opened Arithmetic
  import opened Collections
  import opened PageTree

  const HEADER := 16    // sizeof(struct KmallocHeader)
  const POOLS := 6

  function BlockSize(i: nat): (r: nat)
    requires i < POOLS
    ensures r >= 32 && r % 32 == 0 && PAGE_SIZE % r == 0
  {
    if i == 0 then 32 else if i == 1 then 64 else if i == 2 then 128
    else if i == 3 then 512 else if i == 4 then 1024 else 2048
  }

  /** How many blocks a page is cut into. */
  function PerPage(i: nat): nat
    requires i < POOLS
  {
    PAGE_SIZE / BlockSize(i)
  }

  function MaxSize(i: nat): nat
    requires i < POOLS
  {
    BlockSize(i) - HEADER
  }

  datatype Use = Pooled(pool: nat) | Dedicated(pages: nat)

  /** An allocation not yet freed, and the size asked for. */
  datatype Live = Live(use: Use, size: nat)

  /** The components, over their types F, L and P (fixed in Heap below). */
  datatype HeapOf<F, L, P> = Heap(
    free: F,     // the free blocks of each pool, head first
    live: L,     // by the address of the block
    pages: P,    // the pool each page was cut up for
    brk: nat)    // program break, in pages

  type Heap = HeapOf<seq<seq<nat>>, map<nat, Live>, map<nat, nat>>

  // --------------------------------------------------------------------- steps

  /** The first pool from `i` on whose blocks are large enough; POOLS when there is none. */
  function PoolFrom(size: nat, i: nat): (r: nat)
    requires i <= POOLS
    ensures i <= r <= POOLS
    ensures r < POOLS ==> size <= MaxSize(r)
    ensures forall j :: i <= j < r ==> size > MaxSize(j)
    decreases POOLS - i
  {
    if i == POOLS || size <= MaxSize(i) then i else PoolFrom(size, i + 1)
  }

  function PagesFor(bytes: nat): nat {
    bytes / PAGE_SIZE + if bytes % PAGE_SIZE != 0 then 1 else 0
  }

  /** The first `n` blocks of a page, last one first: each is pushed in front of the others. */
  function Cut(page: nat, size: nat, n: nat): (r: seq<nat>)
    ensures |r| == n
  {
    if n == 0 then [] else [page * PAGE_SIZE + (n - 1) * size] + Cut(page, size, n - 1)
  }

  /** pool_allocate_page */
  function AddPage(h: Heap, i: nat): Heap
    requires i < POOLS && |h.free| == POOLS
  {
    var cut := Cut(h.brk, BlockSize(i), PerPage(i));
    h.(free := h.free[i := cut + h.free[i]], pages := h.pages[h.brk := i], brk := h.brk + 1)
  }

  function TakeHead(h: Heap, i: nat, size: nat): Heap
    requires i < POOLS && |h.free| == POOLS && h.free[i] != []
  {
    h.(free := h.free[i := h.free[i][1..]], live := h.live[h.free[i][0] := Live(Pooled(i), size)])
  }

  function TakePages(h: Heap, size: nat): Heap {
    var n := PagesFor(size + HEADER);
    h.(live := h.live[h.brk * PAGE_SIZE := Live(Dedicated(n), size)], brk := h.brk + n)
  }

  /** The pool's list, after a page when it is empty. */
  function Stocked(h: Heap, i: nat): (g: Heap)
    requires i < POOLS && |h.free| == POOLS
    ensures |g.free| == POOLS && g.free[i] != []
  {
    if h.free[i] == [] then AddPage(h, i) else h
  }

  /** kmalloc: the new state and the address of the payload. */
  function Kmalloc(h: Heap, size: nat): (Heap, nat)
    requires |h.free| == POOLS
  {
    var i := PoolFrom(size, 0);
    if i < POOLS then (TakeHead(Stocked(h, i), i, size), Stocked(h, i).free[i][0] + HEADER)
    else (TakePages(h, size), h.brk * PAGE_SIZE + HEADER)
  }

  ghost predicate CanFree(h: Heap, addr: nat) {
    && |h.free| == POOLS && addr >= HEADER && addr - HEADER in h.live
    && (h.live[addr - HEADER].use.Pooled? ==> h.live[addr - HEADER].use.pool < POOLS)
  }

  /** kfree */
  function Kfree(h: Heap, addr: nat): Heap
    requires CanFree(h, addr)
  {
    var b := addr - HEADER;
    match h.live[b].use
    case Pooled(i) => h.(free := h.free[i := [b] + h.free[i]], live := h.live - {b})
    case Dedicated(_) => h.(live := h.live - {b})
  }

  // ----------------------------------------------------------------- invariant

  /** `b` is one of the blocks the pages of pool `i` were cut into. */
  predicate IsBlock(pages: map<nat, nat>, i: nat, b: nat)
    requires i < POOLS
  {
    b / PAGE_SIZE in pages && pages[b / PAGE_SIZE] == i && b % BlockSize(i) == 0
  }

  predicate IsLive(live: map<nat, Live>, i: nat, b: nat) {
    b in live && live[b].use == Pooled(i)
  }

  /** The free and the live blocks of a pool are the blocks of its pages, each once. */
  ghost predicate Tiled(free: seq<nat>, live: map<nat, Live>, pages: map<nat, nat>, i: nat)
    requires i < POOLS
  {
    && Distinct(free)
    && (forall b: nat :: b in free ==> IsBlock(pages, i, b) && b !in live)
    && (forall b: nat :: IsLive(live, i, b) ==> IsBlock(pages, i, b))
    && (forall b: nat :: IsBlock(pages, i, b) ==> b in free || IsLive(live, i, b))
  }

  ghost predicate PagesOk(pages: map<nat, nat>, brk: nat) {
    forall p :: p in pages ==> HEAP_BASE <= p < brk && pages[p] < POOLS
  }

  /** A dedicated allocation owns whole pages below the break. */
  ghost predicate RunOk(live: map<nat, Live>, pages: map<nat, nat>, brk: nat, b: nat)
    requires b in live && live[b].use.Dedicated?
  {
    var n := live[b].use.pages;
    && b % PAGE_SIZE == 0 && HEAP_BASE <= b / PAGE_SIZE && b / PAGE_SIZE + n <= brk
    && n == PagesFor(live[b].size + HEADER)
    && (forall p :: p in pages ==> !(b / PAGE_SIZE <= p < b / PAGE_SIZE + n))
  }

  ghost predicate LiveOk(live: map<nat, Live>, pages: map<nat, nat>, brk: nat) {
    && (forall b :: b in live && live[b].use.Pooled? ==>
          live[b].use.pool < POOLS && live[b].size <= MaxSize(live[b].use.pool))
    && (forall b :: b in live && live[b].use.Dedicated? ==> RunOk(live, pages, brk, b))
    && (forall b, c :: b in live && c in live && live[b].use.Dedicated? && live[c].use.Dedicated? && b < c ==>
          b / PAGE_SIZE + live[b].use.pages <= c / PAGE_SIZE)
  }

  datatype Part = PagesPart | LivePart | TilePart(pool: nat)

  ghost predicate Holds(part: Part, h: Heap)
    requires |h.free| == POOLS
  {
    match part
    case PagesPart => PagesOk(h.pages, h.brk) && HEAP_BASE <= h.brk
    case LivePart => LiveOk(h.live, h.pages, h.brk)
    case TilePart(i) => i < POOLS ==> Tiled(h.free[i], h.live, h.pages, i)
  }

  /** Opened part by part. */
  ghost predicate Inv(h: Heap) {
    |h.free| == POOLS && forall part: Part :: Holds(part, h)
  }

  lemma {:induction false} CloseInv(h: Heap)
    requires |h.free| == POOLS && PagesOk(h.pages, h.brk) && HEAP_BASE <= h.brk && LiveOk(h.live, h.pages, h.brk)
    requires forall i :: 0 <= i < POOLS ==> Tiled(h.free[i], h.live, h.pages, i)
    ensures Inv(h)
  {
  }

  lemma {:induction false} OpenInv(h: Heap)
    requires Inv(h)
    ensures PagesOk(h.pages, h.brk) && HEAP_BASE <= h.brk && LiveOk(h.live, h.pages, h.brk)
    ensures forall i :: 0 <= i < POOLS ==> Tiled(h.free[i], h.live, h.pages, i)
  {
    assert Holds(PagesPart, h) && Holds(LivePart, h);
    forall i | 0 <= i < POOLS
      ensures Tiled(h.free[i], h.live, h.pages, i)
    {
      assert Holds(TilePart(i), h);
    }
  }

  // ------------------------------------------------------- blocks within pages

  lemma {:induction false} Factor(i: nat)
    requires i < POOLS
    ensures PerPage(i) * BlockSize(i) == PAGE_SIZE
  {
  }

  lemma {:induction false} Regroup(q: nat, n: nat, r: nat, s: nat)
    ensures (q * n + r) * s == q * (n * s) + r * s
  {
    assert (q * n + r) * s == q * n * s + r * s;
  }

  lemma {:induction false} PlaceInPage(q: nat, n: nat, r: nat, s: nat)
    requires n * s == PAGE_SIZE && r < n && s > 0
    ensures ((q * n + r) * s) / PAGE_SIZE == q && ((q * n + r) * s) % PAGE_SIZE == r * s && r * s + s <= PAGE_SIZE
  {
    Regroup(q, n, r, s);
    MulMono(r + 1, n, s);
    assert (r + 1) * s == r * s + s;
    DivModUnique((q * n + r) * s, PAGE_SIZE, q, r * s);
  }

  lemma {:induction false} MultipleInPage(b: nat, s: nat, n: nat)
    requires s > 0 && n * s == PAGE_SIZE && b % s == 0
    ensures var m := b % PAGE_SIZE / s;
            m < n && b == b / PAGE_SIZE * PAGE_SIZE + m * s && b % PAGE_SIZE + s <= PAGE_SIZE
  {
    var q, r := b / s / n, b / s % n;
    assert b == b / s * s && b / s == q * n + r;
    PlaceInPage(q, n, r, s);
    DivModUnique(r * s, s, r, 0);
  }

  /** A block is so many blocks from the start of its page. */
  lemma {:induction false} BlockIndex(i: nat, b: nat)
    requires i < POOLS && b % BlockSize(i) == 0
    ensures var m := b % PAGE_SIZE / BlockSize(i);
            && m < PerPage(i) && b == b / PAGE_SIZE * PAGE_SIZE + m * BlockSize(i)
            && b % PAGE_SIZE + BlockSize(i) <= PAGE_SIZE
  {
    Factor(i);
    MultipleInPage(b, BlockSize(i), PerPage(i));
  }

  lemma {:induction false} BlocksApart(i: nat, b: nat, c: nat)
    requires i < POOLS && b % BlockSize(i) == 0 && c % BlockSize(i) == 0 && b < c
    ensures b + BlockSize(i) <= c
  {
    var s := BlockSize(i);
    MulMono(c / s, b / s, s);
    MulMono(b / s + 1, c / s, s);
  }

  lemma {:induction false} CutAt(page: nat, size: nat, n: nat, k: nat)
    requires k < n
    ensures Cut(page, size, n)[k] == page * PAGE_SIZE + (n - 1 - k) * size
  {
    if k > 0 {
      CutAt(page, size, n - 1, k - 1);
    }
  }

  lemma {:induction false} BlockAt(page: nat, i: nat, m: nat)
    requires i < POOLS && m < PerPage(i)
    ensures var b := page * PAGE_SIZE + m * BlockSize(i); b / PAGE_SIZE == page && b % BlockSize(i) == 0
  {
    var s, n := BlockSize(i), PerPage(i);
    Factor(i);
    MulMono(0, m, s);
    MulMono(m + 1, n, s);
    assert page * (n * s) + m * s == (page * n + m) * s;
    DivModUnique((page * n + m) * s, s, page * n + m, 0);
  }

  lemma {:induction false} CutSound(page: nat, i: nat, k: nat)
    requires i < POOLS && k < PerPage(i)
    ensures var n := PerPage(i);
            var b := Cut(page, BlockSize(i), n)[k];
            && b / PAGE_SIZE == page && b % BlockSize(i) == 0
            && b == page * PAGE_SIZE + (n - 1 - k) * BlockSize(i)
  {
    var n := PerPage(i);
    CutAt(page, BlockSize(i), n, k);
    BlockAt(page, i, n - 1 - k);
  }

  /** Cutting a page yields each multiple of the block size within it once. */
  lemma {:induction false} CutTiles(page: nat, i: nat)
    requires i < POOLS
    ensures var cut := Cut(page, BlockSize(i), PerPage(i));
            && Distinct(cut)
            && forall b: nat :: b in cut <==> b / PAGE_SIZE == page && b % BlockSize(i) == 0
  {
    var n := PerPage(i);
    var cut := Cut(page, BlockSize(i), n);
    forall k | 0 <= k < n
      ensures cut[k] / PAGE_SIZE == page && cut[k] % BlockSize(i) == 0
      ensures cut[k] == page * PAGE_SIZE + (n - 1 - k) * BlockSize(i)
    {
      CutSound(page, i, k);
    }
    forall b: nat | b / PAGE_SIZE == page && b % BlockSize(i) == 0
      ensures b in cut
    {
      BlockIndex(i, b);
      var m := b % PAGE_SIZE / BlockSize(i);
      var k := n - 1 - m;
      assert n - 1 - k == m && b == cut[k];
    }
  }

  // ------------------------------------------------------------ what steps keep

  /** Everything live lies in pages below the break. */
  lemma {:induction false} LiveBelow(h: Heap, b: nat)
    requires Inv(h) && b in h.live
    ensures b / PAGE_SIZE < h.brk
  {
    OpenInv(h);
    if h.live[b].use.Pooled? {
      var i := h.live[b].use.pool;
      assert IsLive(h.live, i, b) && Tiled(h.free[i], h.live, h.pages, i);
    }
  }

  lemma {:induction false} AddPageTiles(free: seq<nat>, live: map<nat, Live>, pages: map<nat, nat>, i: nat, page: nat)
    requires i < POOLS && Tiled(free, live, pages, i) && page !in pages
    requires forall b :: b in live ==> b / PAGE_SIZE < page
    ensures Tiled(Cut(page, BlockSize(i), PerPage(i)) + free, live, pages[page := i], i)
  {
    CutTiles(page, i);
    var cut := Cut(page, BlockSize(i), PerPage(i));
    var all := cut + free;
    forall j, k | 0 <= j < k < |all|
      ensures all[j] != all[k]
    {
      if j < |cut| <= k {
        assert all[j] in cut && all[k] in free;
      }
    }
    forall b | b in all
      ensures IsBlock(pages[page := i], i, b) && b !in live
    {
      assert b in cut || b in free;
    }
  }

  lemma {:induction false} AddPageElsewhere(free: seq<nat>, live: map<nat, Live>, pages: map<nat, nat>, i: nat,
                                            page: nat, j: nat)
    requires i < POOLS && Tiled(free, live, pages, i) && page !in pages && i != j
    ensures Tiled(free, live, pages[page := j], i)
  {
  }

  lemma {:induction false} AddPageKeeps(h: Heap, i: nat)
    requires Inv(h) && i < POOLS
    ensures Inv(AddPage(h, i))
  {
    OpenInv(h);
    forall b | b in h.live
      ensures b / PAGE_SIZE < h.brk
    {
      LiveBelow(h, b);
    }
    forall j | 0 <= j < POOLS
      ensures Tiled(AddPage(h, i).free[j], h.live, h.pages[h.brk := i], j)
    {
      if j == i {
        AddPageTiles(h.free[i], h.live, h.pages, i, h.brk);
      } else {
        AddPageElsewhere(h.free[j], h.live, h.pages, j, h.brk, i);
      }
    }
    CloseInv(AddPage(h, i));
  }

  lemma {:induction false} TakeTiles(free: seq<nat>, live: map<nat, Live>, pages: map<nat, nat>, i: nat, size: nat)
    requires i < POOLS && Tiled(free, live, pages, i) && free != []
    ensures Tiled(free[1..], live[free[0] := Live(Pooled(i), size)], pages, i)
  {
    assert free == [free[0]] + free[1..];
  }

  /** Pool `i` does not notice an allocation elsewhere. */
  lemma {:induction false} TakeElsewhere(free: seq<nat>, live: map<nat, Live>, pages: map<nat, nat>, i: nat, b: nat,
                                         l: Live)
    requires i < POOLS && Tiled(free, live, pages, i) && b !in free && b !in live && l.use != Pooled(i)
    ensures Tiled(free, live[b := l], pages, i)
  {
  }

  lemma {:induction false} PooledTaken(live: map<nat, Live>, pages: map<nat, nat>, brk: nat, b: nat, i: nat, size: nat)
    requires LiveOk(live, pages, brk) && b !in live && i < POOLS && size <= MaxSize(i)
    ensures LiveOk(live[b := Live(Pooled(i), size)], pages, brk)
  {
    var live' := live[b := Live(Pooled(i), size)];
    forall c | c in live' && live'[c].use.Dedicated?
      ensures RunOk(live', pages, brk, c)
    {
      assert RunOk(live, pages, brk, c);
    }
  }

  lemma {:induction false} TakeHeadKeeps(h: Heap, i: nat, size: nat)
    requires Inv(h) && i < POOLS && h.free[i] != [] && size <= MaxSize(i)
    ensures Inv(TakeHead(h, i, size)) && h.free[i][0] !in h.live
  {
    OpenInv(h);
    var b := h.free[i][0];
    assert IsBlock(h.pages, i, b);
    forall j | 0 <= j < POOLS
      ensures Tiled(TakeHead(h, i, size).free[j], h.live[b := Live(Pooled(i), size)], h.pages, j)
    {
      if j == i {
        TakeTiles(h.free[i], h.live, h.pages, i, size);
      } else {
        TakeElsewhere(h.free[j], h.live, h.pages, j, b, Live(Pooled(i), size));
      }
    }
    PooledTaken(h.live, h.pages, h.brk, b, i, size);
    CloseInv(TakeHead(h, i, size));
  }

  lemma {:induction false} RunTaken(live: map<nat, Live>, pages: map<nat, nat>, brk: nat, b: nat, n: nat, size: nat)
    requires LiveOk(live, pages, brk) && PagesOk(pages, brk) && HEAP_BASE <= brk
    requires forall c :: c in live ==> c / PAGE_SIZE < brk
    requires b / PAGE_SIZE == brk && b % PAGE_SIZE == 0 && n == PagesFor(size + HEADER)
    ensures LiveOk(live[b := Live(Dedicated(n), size)], pages, brk + n)
  {
    var live' := live[b := Live(Dedicated(n), size)];
    forall c | c in live' && live'[c].use.Dedicated?
      ensures RunOk(live', pages, brk + n, c)
    {
      assert c == b || RunOk(live, pages, brk, c);
    }
    forall c, d | c in live' && d in live' && live'[c].use.Dedicated? && live'[d].use.Dedicated? && c < d
      ensures c / PAGE_SIZE + live'[c].use.pages <= d / PAGE_SIZE
    {
      if d == b {
        assert RunOk(live, pages, brk, c);
      } else {
        assert c != b;
      }
    }
  }

  lemma {:induction false} RunGone(live: map<nat, Live>, pages: map<nat, nat>, brk: nat, b: nat)
    requires LiveOk(live, pages, brk)
    ensures LiveOk(live - {b}, pages, brk)
  {
    forall c | c in live - {b} && live[c].use.Dedicated?
      ensures RunOk(live - {b}, pages, brk, c)
    {
      assert RunOk(live, pages, brk, c);
    }
  }

  lemma {:induction false} TakePagesKeeps(h: Heap, size: nat)
    requires Inv(h)
    ensures Inv(TakePages(h, size)) && h.brk * PAGE_SIZE !in h.live
  {
    var b, l := h.brk * PAGE_SIZE, Live(Dedicated(PagesFor(size + HEADER)), size);
    OpenInv(h);
    assert b / PAGE_SIZE == h.brk;
    forall c | c in h.live
      ensures c / PAGE_SIZE < h.brk
    {
      LiveBelow(h, c);
    }
    forall j | 0 <= j < POOLS
      ensures Tiled(h.free[j], h.live[b := l], h.pages, j)
    {
      TakeElsewhere(h.free[j], h.live, h.pages, j, b, l);
    }
    RunTaken(h.live, h.pages, h.brk, b, PagesFor(size + HEADER), size);
    CloseInv(TakePages(h, size));
  }

  lemma {:induction false} GiveTiles(free: seq<nat>, live: map<nat, Live>, pages: map<nat, nat>, i: nat, b: nat)
    requires i < POOLS && Tiled(free, live, pages, i) && IsLive(live, i, b)
    ensures Tiled([b] + free, live - {b}, pages, i)
  {
  }

  lemma {:induction false} GiveElsewhere(free: seq<nat>, live: map<nat, Live>, pages: map<nat, nat>, i: nat, b: nat)
    requires i < POOLS && Tiled(free, live, pages, i) && b in live && live[b].use != Pooled(i)
    ensures Tiled(free, live - {b}, pages, i)
  {
  }

  /** Every step keeps the invariant. */
  lemma {:induction false} KmallocKeeps(h: Heap, size: nat)
    requires Inv(h)
    ensures var (t, addr) := Kmalloc(h, size);
            && Inv(t) && addr >= HEADER && addr - HEADER !in h.live && h.brk <= t.brk
            && addr - HEADER in t.live && t.live == h.live[addr - HEADER := t.live[addr - HEADER]]
            && t.live[addr - HEADER].size == size
  {
    var i := PoolFrom(size, 0);
    if i < POOLS {
      if h.free[i] == [] {
        AddPageKeeps(h, i);
      }
      TakeHeadKeeps(Stocked(h, i), i, size);
    } else {
      TakePagesKeeps(h, size);
    }
  }

  lemma {:induction false} KfreeTiles(h: Heap, addr: nat, j: nat)
    requires Inv(h) && CanFree(h, addr) && j < POOLS
    ensures Tiled(Kfree(h, addr).free[j], Kfree(h, addr).live, h.pages, j)
  {
    assert Holds(TilePart(j), h);
    var b := addr - HEADER;
    if h.live[b].use == Pooled(j) {
      GiveTiles(h.free[j], h.live, h.pages, j, b);
    } else {
      GiveElsewhere(h.free[j], h.live, h.pages, j, b);
    }
  }

  lemma {:induction false} KfreeLive(h: Heap, addr: nat)
    requires CanFree(h, addr)
    ensures Kfree(h, addr).live == h.live - {addr - HEADER}
    ensures Kfree(h, addr).pages == h.pages && Kfree(h, addr).brk == h.brk && |Kfree(h, addr).free| == POOLS
  {
  }

  lemma {:induction false} LiveGone(h: Heap, b: nat)
    requires Inv(h)
    ensures LiveOk(h.live - {b}, h.pages, h.brk)
  {
    assert Holds(LivePart, h);
    RunGone(h.live, h.pages, h.brk, b);
  }

  lemma {:induction false} KfreePages(h: Heap, addr: nat)
    requires Inv(h) && CanFree(h, addr)
    ensures PagesOk(h.pages, h.brk) && HEAP_BASE <= h.brk && LiveOk(Kfree(h, addr).live, h.pages, h.brk)
  {
    assert Holds(PagesPart, h);
    KfreeLive(h, addr);
    LiveGone(h, addr - HEADER);
  }

  lemma {:induction false} KfreeKeeps(h: Heap, addr: nat)
    requires Inv(h) && CanFree(h, addr)
    ensures Inv(Kfree(h, addr)) && Kfree(h, addr).live == h.live - {addr - HEADER} && Kfree(h, addr).brk == h.brk
  {
    forall j | 0 <= j < POOLS
      ensures Tiled(Kfree(h, addr).free[j], Kfree(h, addr).live, h.pages, j)
    {
      KfreeTiles(h, addr, j);
    }
    KfreePages(h, addr);
    CloseInv(Kfree(h, addr));
  }

  // ------------------------------------------------------- what kmalloc returns

  /** The pool a size belongs to; 6 when it gets pages of its own. */
  function Class(size: nat): nat {
    if size <= 16 then 0 else if size <= 48 then 1 else if size <= 112 then 2
    else if size <= 496 then 3 else if size <= 1008 then 4 else if size <= 2032 then 5 else 6
  }

  lemma {:induction false} ClassIsPool(size: nat)
    ensures PoolFrom(size, 0) == Class(size)
  {
    var i := PoolFrom(size, 0);
    assert MaxSize(0) == 16 && MaxSize(1) == 48 && MaxSize(2) == 112;
    assert MaxSize(3) == 496 && MaxSize(4) == 1008 && MaxSize(5) == 2032;
  }

  /** How many bytes each class of sizes is given, with the header. */
  lemma {:induction false} ExtentOfClass(h: Heap, size: nat)
    requires |h.free| == POOLS
    ensures var (t, addr) := Kmalloc(h, size);
            && addr >= 16 && addr - 16 in t.live && t.live[addr - 16].size == size
            && var n := Extent(t.live[addr - 16]);
               match Class(size)
               case 0 => n == 32
               case 1 => n == 64
               case 2 => n == 128
               case 3 => n == 512
               case 4 => n == 1024
               case 5 => n == 2048
               case _ => n % 0x1000 == 0 && size + 16 <= n < size + 16 + 0x1000
  {
    ClassIsPool(size);
    assert size > 2032 ==> PagesFor(size + 16) * 0x1000 % 0x1000 == 0;
  }

  /** The block that went on the list last comes off first, and the list loses that one. */
  lemma {:induction false} FromList(h: Heap, size: nat)
    requires |h.free| == POOLS && Class(size) < 6 && h.free[Class(size)] != []
    ensures var (t, addr) := Kmalloc(h, size);
            && addr == h.free[Class(size)][0] + 16
            && t.free == h.free[Class(size) := h.free[Class(size)][1..]]
            && t.pages == h.pages && t.brk == h.brk
  {
    ClassIsPool(size);
  }

  lemma {:induction false} FromEnd(page: nat, i: nat, k: nat)
    requires i < POOLS && k < PerPage(i)
    ensures Cut(page, BlockSize(i), PerPage(i))[k] == page * 0x1000 + 0x1000 - (k + 1) * BlockSize(i)
  {
    var n, s := PerPage(i), BlockSize(i);
    Factor(i);
    CutAt(page, s, n, k);
    assert (n - 1 - k) * s == n * s - (k + 1) * s;
  }

  /** An empty list takes the page at the break: the last block of it is handed out, and the list
      holds the others in descending order. */
  lemma {:induction false} FromNewPage(h: Heap, size: nat, k: nat)
    requires |h.free| == POOLS && Class(size) < 6 && h.free[Class(size)] == []
    ensures var (t, addr) := Kmalloc(h, size);
            && addr - 16 in t.live && t.brk == h.brk + 1 && t.pages == h.pages[h.brk := Class(size)]
            && var n := Extent(t.live[addr - 16]);
               && n > 0 && addr == h.brk * 0x1000 + 0x1000 - n + 16
               && |t.free[Class(size)]| == 0x1000 / n - 1
               && (k < |t.free[Class(size)]| ==>
                     t.free[Class(size)][k] == h.brk * 0x1000 + 0x1000 - (k + 2) * n)
  {
    ClassIsPool(size);
    var i := Class(size);
    FromEnd(h.brk, i, 0);
    if k + 1 < PerPage(i) {
      FromEnd(h.brk, i, k + 1);
    }
  }

  /** The first block of all ends the first page of the heap, at address 1 << 39. */
  lemma {:induction false} FirstBlock()
    ensures Kmalloc(InitAlloc(), 1).1 == 0x80_0000_0000 + 0x1000 - 32 + 16
  {
    FromNewPage(InitAlloc(), 1, 0);
    ExtentOfClass(InitAlloc(), 1);
  }

  /** Everything larger begins at the break, which moves past it. */
  lemma {:induction false} FromBreak(h: Heap, size: nat)
    requires |h.free| == POOLS && Class(size) == 6
    ensures var (t, addr) := Kmalloc(h, size);
            && addr == h.brk * 0x1000 + 16 && addr - 16 in t.live && t.free == h.free && t.pages == h.pages
            && t.brk * 0x1000 == h.brk * 0x1000 + Extent(t.live[addr - 16])
  {
    ClassIsPool(size);
    var n := PagesFor(size + 16);
    assert (h.brk + n) * 0x1000 == h.brk * 0x1000 + n * 0x1000;
  }

  /** kfree undoes kmalloc. */
  lemma {:induction false} KfreeUndoes(h: Heap, size: nat)
    requires Inv(h) && Class(size) < 6 && h.free[Class(size)] != []
    ensures var (t, addr) := Kmalloc(h, size); CanFree(t, addr) && Kfree(t, addr) == h
  {
    ClassIsPool(size);
    var i := Class(size);
    var b := h.free[i][0];
    assert Holds(TilePart(i), h);
    assert b in h.free[i] && b !in h.live;
    assert h.live[b := Live(Pooled(i), size)] - {b} == h.live;
    assert [b] + h.free[i][1..] == h.free[i];
    assert h.free[i := h.free[i][1..]][i := [b] + h.free[i][1..]] == h.free;
  }

  /** kmalloc of the same class undoes kfree: the block just freed is the next one handed out. */
  lemma {:induction false} KmallocUndoes(h: Heap, addr: nat, size: nat)
    requires CanFree(h, addr) && Class(size) < 6 && h.live[addr - 16].use == Pooled(Class(size))
    ensures var t := Kfree(h, addr);
            && |t.free| == POOLS
            && Kmalloc(t, size) == (h.(live := h.live[addr - 16 := Live(Pooled(Class(size)), size)]), addr)
  {
    ClassIsPool(size);
    var i, b := Class(size), addr - 16;
    var t := Kfree(h, addr);
    assert t.free[i] == [b] + h.free[i];
    assert t.free[i := t.free[i][1..]] == h.free;
    assert (h.live - {b})[b := Live(Pooled(i), size)] == h.live[b := Live(Pooled(i), size)];
  }

  // --------------------------------------------------------- nothing overlaps

  /** The bytes of an allocation, with its header. */
  function Extent(l: Live): nat {
    match l.use
    case Pooled(i) => if i < POOLS then BlockSize(i) else 0
    case Dedicated(n) => n * PAGE_SIZE
  }

  predicate IsFree(h: Heap, i: nat, b: nat) {
    i < POOLS && i < |h.free| && b in h.free[i]
  }

  /** `n` bytes from `b` are a free block, or a live allocation with its header. */
  predicate Piece(h: Heap, b: nat, n: nat) {
    || (exists i: nat :: i < POOLS && IsFree(h, i, b) && n == BlockSize(i))
    || (b in h.live && n == Extent(h.live[b]))
  }

  /** A block in a page cut for pool `i`, or a run of whole pages. */
  ghost predicate Within(h: Heap, b: nat, n: nat, i: nat) {
    if i < POOLS then IsBlock(h.pages, i, b) && n == BlockSize(i)
    else
      && b in h.live && h.live[b].use.Dedicated? && RunOk(h.live, h.pages, h.brk, b)
      && n == h.live[b].use.pages * PAGE_SIZE
  }

  /** Nothing is free and live. */
  lemma {:induction false} FreeNotLive(h: Heap, b: nat)
    requires Inv(h)
    ensures forall i: nat :: i < POOLS && IsFree(h, i, b) ==> b !in h.live && IsBlock(h.pages, i, b)
  {
    OpenInv(h);
    forall i: nat | i < POOLS && IsFree(h, i, b)
      ensures b !in h.live && IsBlock(h.pages, i, b)
    {
      assert Tiled(h.free[i], h.live, h.pages, i);
    }
  }

  lemma {:induction false} PooledIsBlock(h: Heap, b: nat)
    requires Inv(h) && b in h.live && h.live[b].use.Pooled?
    ensures var i := h.live[b].use.pool; i < POOLS && IsBlock(h.pages, i, b)
  {
    OpenInv(h);
    var i := h.live[b].use.pool;
    assert IsLive(h.live, i, b) && Tiled(h.free[i], h.live, h.pages, i);
  }

  lemma {:induction false} LiveRun(h: Heap, b: nat)
    requires Inv(h) && b in h.live && h.live[b].use.Dedicated?
    ensures RunOk(h.live, h.pages, h.brk, b)
  {
    OpenInv(h);
  }

  lemma {:induction false} PieceWithin(h: Heap, b: nat, n: nat) returns (i: nat)
    requires Inv(h) && Piece(h, b, n)
    ensures Within(h, b, n, i)
  {
    FreeNotLive(h, b);
    if b !in h.live {
      i :| i < POOLS && IsFree(h, i, b) && n == BlockSize(i);
    } else if h.live[b].use.Pooled? {
      i := h.live[b].use.pool;
      PooledIsBlock(h, b);
    } else {
      i := POOLS;
      LiveRun(h, b);
    }
  }

  /** A piece ends where its pages end, or before. */
  lemma {:induction false} EndsInPages(h: Heap, b: nat, n: nat, i: nat)
    requires Within(h, b, n, i)
    ensures i < POOLS ==> b + n <= (b / PAGE_SIZE + 1) * PAGE_SIZE
    ensures i >= POOLS ==> b + n == (b / PAGE_SIZE + h.live[b].use.pages) * PAGE_SIZE
  {
    if i < POOLS {
      BlockIndex(i, b);
    }
  }

  /** The payload's address lies in the first of the pages kmalloc marked, and the size in the
      header gives back how many they were: what kfree computes from both. */
  lemma {:induction false} KfreeFindsRun(h: Heap, size: nat)
    requires Inv(h) && PoolFrom(size, 0) == POOLS
    ensures var (t, addr) := Kmalloc(h, size);
            && addr / PAGE_SIZE == h.brk && CanFree(t, addr)
            && t.live[addr - HEADER].use == Dedicated(t.brk - h.brk)
            && PagesFor(t.live[addr - HEADER].size + HEADER) == t.brk - h.brk > 0
  {
  }

  /** No two pieces overlap, whatever they are: free blocks and allocations, with their headers,
      lie apart. */
  lemma {:induction false} PiecesApart(h: Heap, b: nat, m: nat, c: nat, n: nat)
    requires Inv(h) && Piece(h, b, m) && Piece(h, c, n) && b < c
    ensures b + m <= c
  {
    var i := PieceWithin(h, b, m);
    var j := PieceWithin(h, c, n);
    OpenInv(h);
    EndsInPages(h, b, m, i);
    if i < POOLS && j < POOLS && b / PAGE_SIZE == c / PAGE_SIZE {
      BlocksApart(i, b, c);
    }
  }

  /** A live allocation holds its header and at least the size asked for. */
  lemma {:induction false} LiveHoldsSize(h: Heap, b: nat)
    requires Inv(h) && b in h.live
    ensures Piece(h, b, Extent(h.live[b])) && HEADER + h.live[b].size <= Extent(h.live[b])
  {
    OpenInv(h);
    if h.live[b].use.Dedicated? {
      LiveRun(h, b);
    }
  }

  // ------------------------------------------------------------------ counting

  function LiveIn(live: map<nat, Live>, i: nat): set<nat> {
    set b | b in live && live[b].use == Pooled(i)
  }

  function PagesOf(pages: map<nat, nat>, i: nat): set<nat> {
    set p | p in pages && pages[p] == i
  }

  /** A pool has PerPage blocks for each of its pages, free or live. */
  ghost predicate Counted(h: Heap, i: nat)
    requires i < POOLS && |h.free| == POOLS
  {
    |h.free[i]| + |LiveIn(h.live, i)| == PerPage(i) * |PagesOf(h.pages, i)|
  }

  lemma {:induction false} LiveAdded(live: map<nat, Live>, b: nat, l: Live, i: nat)
    requires b !in live
    ensures |LiveIn(live[b := l], i)| == |LiveIn(live, i)| + if l.use == Pooled(i) then 1 else 0
  {
    if l.use == Pooled(i) {
      assert LiveIn(live[b := l], i) == LiveIn(live, i) + {b};
    } else {
      assert LiveIn(live[b := l], i) == LiveIn(live, i);
    }
  }

  lemma {:induction false} LiveRemoved(live: map<nat, Live>, b: nat, i: nat)
    requires b in live
    ensures |LiveIn(live - {b}, i)| == |LiveIn(live, i)| - if live[b].use == Pooled(i) then 1 else 0
  {
    if live[b].use == Pooled(i) {
      assert LiveIn(live, i) == LiveIn(live - {b}, i) + {b};
    } else {
      assert LiveIn(live - {b}, i) == LiveIn(live, i);
    }
  }

  lemma {:induction false} PageAdded(pages: map<nat, nat>, p: nat, j: nat, i: nat)
    requires p !in pages
    ensures |PagesOf(pages[p := j], i)| == |PagesOf(pages, i)| + if i == j then 1 else 0
  {
    if i == j {
      assert PagesOf(pages[p := j], i) == PagesOf(pages, i) + {p};
    } else {
      assert PagesOf(pages[p := j], i) == PagesOf(pages, i);
    }
  }

  lemma {:induction false} OneMore(k: nat, p: nat)
    ensures k * (p + 1) == k * p + k
  {
  }

  lemma {:induction false} StockedCounts(h: Heap, j: nat, i: nat)
    requires Inv(h) && j < POOLS && i < POOLS && Counted(h, i)
    ensures Counted(Stocked(h, j), i)
  {
    OpenInv(h);
    if h.free[j] == [] {
      PageAdded(h.pages, h.brk, j, i);
      OneMore(PerPage(i), |PagesOf(h.pages, i)|);
    }
  }

  lemma {:induction false} KmallocCounts(h: Heap, size: nat, i: nat)
    requires Inv(h) && i < POOLS && Counted(h, i)
    ensures Counted(Kmalloc(h, size).0, i)
  {
    var j := PoolFrom(size, 0);
    if j < POOLS {
      if h.free[j] == [] {
        AddPageKeeps(h, j);
      }
      StockedCounts(h, j, i);
      TakeHeadKeeps(Stocked(h, j), j, size);
      LiveAdded(Stocked(h, j).live, Stocked(h, j).free[j][0], Live(Pooled(j), size), i);
    } else {
      TakePagesKeeps(h, size);
      LiveAdded(h.live, h.brk * PAGE_SIZE, Live(Dedicated(PagesFor(size + HEADER)), size), i);
    }
  }

  lemma {:induction false} KfreeCounts(h: Heap, addr: nat, i: nat)
    requires CanFree(h, addr) && i < POOLS && Counted(h, i)
    ensures Counted(Kfree(h, addr), i)
  {
    LiveRemoved(h.live, addr - HEADER, i);
  }

  // ---------------------------------------------------------------------- runs

  datatype Call = Malloc(size: nat) | Free(addr: nat)

  /** init_alloc, with no page handed out yet. */
  function InitAlloc(): Heap {
    Heap(seq(POOLS, _ => []), map[], map[], HEAP_BASE)
  }

  ghost predicate Runs(h: Heap, calls: seq<Call>)
    decreases |calls|
  {
    calls == [] ||
    match calls[0]
    case Malloc(size) => |h.free| == POOLS && Runs(Kmalloc(h, size).0, calls[1..])
    case Free(addr) => CanFree(h, addr) && Runs(Kfree(h, addr), calls[1..])
  }

  ghost function After(h: Heap, calls: seq<Call>): Heap
    requires Runs(h, calls)
    decreases |calls|
  {
    if calls == [] then h
    else
      match calls[0]
      case Malloc(size) => After(Kmalloc(h, size).0, calls[1..])
      case Free(addr) => After(Kfree(h, addr), calls[1..])
  }

  ghost predicate Good(h: Heap) {
    Inv(h) && forall i :: 0 <= i < POOLS ==> Counted(h, i)
  }

  lemma {:induction false} InitGood()
    ensures Good(InitAlloc())
  {
    CloseInv(InitAlloc());
    forall i | 0 <= i < POOLS
      ensures Counted(InitAlloc(), i)
    {
      assert LiveIn(map[], i) == {} && PagesOf(map[], i) == {};
    }
  }

  lemma {:induction false} KmallocGood(h: Heap, size: nat)
    requires Good(h)
    ensures Good(Kmalloc(h, size).0)
  {
    KmallocKeeps(h, size);
    forall i | 0 <= i < POOLS
      ensures Counted(Kmalloc(h, size).0, i)
    {
      KmallocCounts(h, size, i);
    }
  }

  lemma {:induction false} KfreeGood(h: Heap, addr: nat)
    requires Good(h) && CanFree(h, addr)
    ensures Good(Kfree(h, addr))
  {
    KfreeKeeps(h, addr);
    forall i | 0 <= i < POOLS
      ensures Counted(Kfree(h, addr), i)
    {
      KfreeCounts(h, addr, i);
    }
  }

  /** After every sequence of kmalloc and kfree the pools are tiled and counted. */
  lemma {:induction false} RunGood(h: Heap, calls: seq<Call>)
    requires Good(h) && Runs(h, calls)
    ensures Good(After(h, calls))
    decreases |calls|
  {
    if calls != [] {
      match calls[0]
      case Malloc(size) =>
        KmallocGood(h, size);
        RunGood(Kmalloc(h, size).0, calls[1..]);
      case Free(addr) =>
        KfreeGood(h, addr);
        RunGood(Kfree(h, addr), calls[1..]);
    }
  }

  /** Over every run from init_alloc: two live allocations are at least their sizes and headers
      apart, and what is free overlaps neither. */
  lemma {:induction false} PayloadsApart(calls: seq<Call>, b: nat, c: nat, n: nat)
    requires Runs(InitAlloc(), calls)
    requires var h := After(InitAlloc(), calls); b in h.live && Piece(h, c, n) && b != c
    ensures var h := After(InitAlloc(), calls);
            b + HEADER + h.live[b].size <= c || c + n <= b
  {
    InitGood();
    RunGood(InitAlloc(), calls);
    var h := After(InitAlloc(), calls);
    LiveHoldsSize(h, b);
    if b < c {
      PiecesApart(h, b, Extent(h.live[b]), c, n);
    } else {
      PiecesApart(h, c, n, b, Extent(h.live[b]));
    }
  }
}
