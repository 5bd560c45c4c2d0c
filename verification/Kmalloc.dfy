/** kmalloc and kfree as they run: pool heads and block words updated in place, over the page
    allocator. */
module Kmalloc {
  import opened Arithmetic
  import opened Collections
  import opened PageTree
  import opened HeapWords
  import opened KmallocModel
  import KernelMemory
  import FrameStore
  import PageWalk
  import HeapPaging
  import MemoryManager

  /** struct KmallocPool; head 0 is NULL. */
  datatype KmallocPool = KmallocPool(maxSize: nat, head: nat)

  // ---------------------------------------------------------- lists and headers

  function HeadOf(list: seq<nat>): nat {
    if list == [] then 0 else list[0]
  }

  /** The first word of each block of a list is the address of the next one. */
  ghost predicate Linked(list: seq<nat>, words: WordStore) {
    list == [] || (list[0] in words && words[list[0]] == HeadOf(list[1..]) && Linked(list[1..], words))
  }

  lemma {:induction false} LinkedElsewhere(list: seq<nat>, words: WordStore, a: nat, x: nat)
    requires Linked(list, words) && a !in list
    ensures Linked(list, words[a := x])
  {
    if list != [] {
      LinkedElsewhere(list[1..], words, a, x);
    }
  }

  lemma {:induction false} LinkedPush(list: seq<nat>, words: WordStore, b: nat)
    requires Linked(list, words) && b !in list
    ensures Linked([b] + list, words[b := HeadOf(list)])
  {
    LinkedElsewhere(list, words, b, HeadOf(list));
    assert ([b] + list)[1..] == list;
  }

  /** The header word that tells the pool: its address, or NULL for a dedicated run of pages. */
  function PoolWord(u: Use): nat {
    match u
    case Pooled(i) => i + 1
    case Dedicated(_) => 0
  }

  function SizeWord(l: Live): nat {
    match l.use
    case Pooled(_) => 0
    case Dedicated(_) => l.size + HEADER
  }

  ghost predicate HeaderAt(words: WordStore, b: nat, l: Live) {
    b in words && b + 8 in words && words[b] == PoolWord(l.use) && words[b + 8] == SizeWord(l)
  }

  ghost predicate HeadersOk(live: map<nat, Live>, words: WordStore) {
    forall b :: b in live ==> HeaderAt(words, b, live[b])
  }

  ghost predicate PoolsOk(pools: seq<KmallocPool>, free: seq<seq<nat>>) {
    && |pools| == |free| == POOLS
    && forall i :: 0 <= i < POOLS ==> pools[i] == KmallocPool(MaxSize(i), HeadOf(free[i]))
  }

  ghost predicate ListsOk(free: seq<seq<nat>>, words: WordStore) {
    forall i :: 0 <= i < |free| ==> Linked(free[i], words)
  }

  /** Every page below the break was marked available. */
  ghost predicate Marked(flat: map<nat, Entry>, brk: nat) {
    forall v: nat :: HEAP_BASE <= v < brk ==> v in flat && flat[v].available != 0
  }

  ghost predicate Present(flat: map<nat, Entry>, v: nat) {
    v in flat && flat[v].present
  }

  /** The pages that hold headers or links are backed. */
  ghost predicate Backs(flat: map<nat, Entry>, live: map<nat, Live>, pages: map<nat, nat>) {
    && (forall p :: p in pages ==> Present(flat, p))
    && (forall b :: b in live ==> Present(flat, b / PAGE_SIZE))
  }

  /** Each page of a dedicated allocation is backed or was never touched. */
  ghost predicate RunsClean(live: map<nat, Live>, flat: map<nat, Entry>) {
    forall b :: b in live && live[b].use.Dedicated? ==> HeapPaging.Clean(flat, b / PAGE_SIZE, live[b].use.pages)
  }

  datatype StorePart = PoolsPart | ListsPart | HeadersPart | MarkedPart | BackedPart | CleanPart

  ghost predicate Stored(part: StorePart, h: Heap, pools: seq<KmallocPool>, words: WordStore, flat: map<nat, Entry>) {
    match part
    case PoolsPart => PoolsOk(pools, h.free)
    case ListsPart => ListsOk(h.free, words)
    case HeadersPart => HeadersOk(h.live, words)
    case MarkedPart => Marked(flat, h.brk)
    case BackedPart => Backs(flat, h.live, h.pages)
    case CleanPart => RunsClean(h.live, flat)
  }

  /** Opened part by part. */
  ghost predicate Stores(h: Heap, pools: seq<KmallocPool>, words: WordStore, flat: map<nat, Entry>) {
    forall part: StorePart :: Stored(part, h, pools, words, flat)
  }

  lemma {:induction false} OpenStores(h: Heap, pools: seq<KmallocPool>, words: WordStore, flat: map<nat, Entry>)
    requires Stores(h, pools, words, flat)
    ensures PoolsOk(pools, h.free) && ListsOk(h.free, words) && HeadersOk(h.live, words)
    ensures Marked(flat, h.brk) && Backs(flat, h.live, h.pages) && RunsClean(h.live, flat)
  {
    assert Stored(PoolsPart, h, pools, words, flat) && Stored(ListsPart, h, pools, words, flat);
    assert Stored(HeadersPart, h, pools, words, flat) && Stored(MarkedPart, h, pools, words, flat);
    assert Stored(BackedPart, h, pools, words, flat) && Stored(CleanPart, h, pools, words, flat);
  }

  lemma {:induction false} CloseStores(h: Heap, pools: seq<KmallocPool>, words: WordStore, flat: map<nat, Entry>)
    requires PoolsOk(pools, h.free) && ListsOk(h.free, words) && HeadersOk(h.live, words)
    requires Marked(flat, h.brk) && Backs(flat, h.live, h.pages) && RunsClean(h.live, flat)
    ensures Stores(h, pools, words, flat)
  {
  }

  // ---------------------------------------------------------- where blocks lie

  lemma {:induction false} BlockAligned(i: nat, b: nat)
    requires i < POOLS && b % BlockSize(i) == 0
    ensures b % 32 == 0
  {
  }

  /** Free and live blocks start at multiples of 32, so no header word is another block's start. */
  lemma {:induction false} FreeAligned(h: Heap, i: nat)
    requires Inv(h) && i < POOLS
    ensures forall b :: b in h.free[i] ==> b % 32 == 0
  {
    forall b | b in h.free[i]
      ensures b % 32 == 0
    {
      FreeNotLive(h, b);
      assert IsFree(h, i, b);
      BlockAligned(i, b);
    }
  }

  lemma {:induction false} PageAligned(b: nat)
    requires b % PAGE_SIZE == 0
    ensures b % 32 == 0
  {
  }

  lemma {:induction false} LiveAligned(h: Heap, b: nat)
    requires Inv(h) && b in h.live
    ensures b % 32 == 0
  {
    if h.live[b].use.Pooled? {
      PooledIsBlock(h, b);
      BlockAligned(h.live[b].use.pool, b);
    } else {
      LiveRun(h, b);
      PageAligned(b);
    }
  }

  // --------------------------------------------------------- pages from the MMU

  /** No entry below the break changed. */
  ghost predicate SameBelow(before: map<nat, Entry>, after: map<nat, Entry>, brk: nat) {
    forall v :: v in before && v < brk ==> v in after && after[v] == before[v]
  }

  /** The page was never touched. */
  ghost predicate Untouched(flat: map<nat, Entry>, v: nat) {
    v in flat && !flat[v].present && flat[v].addr == 0
  }

  /** `n` more pages from `s` to `t`: marked, none of them touched yet. */
  ghost predicate Extended(s: KernelMemory.State, n: nat, t: KernelMemory.State) {
    && Marked(t.flat, t.brk) && t.brk == s.brk + n && SameBelow(s.flat, t.flat, s.brk)
    && (forall v: nat :: s.brk <= v < t.brk ==> Untouched(t.flat, v))
  }

  /** `n` more pages from `s` to `t`: the first of them is backed, the others were never touched. */
  ghost predicate TookPages(s: KernelMemory.State, n: nat, t: KernelMemory.State)
    requires |s.next| == |s.regions|
  {
    && t.brk == s.brk + n && |t.next| == |t.regions|
    && KernelMemory.Available(t)
       == KernelMemory.Available(s) - PageWalk.Needed(s.tables.Keys, s.brk, s.brk + n) - 1
    && Present(t.flat, s.brk) && forall v: nat :: s.brk < v < t.brk ==> Untouched(t.flat, v)
  }

  /** No entry changed but that of one page. */
  ghost predicate OnlyPage(before: map<nat, Entry>, after: map<nat, Entry>, v: nat) {
    after.Keys == before.Keys && forall w :: w in before && w != v ==> after[w] == before[w]
  }

  lemma {:induction false} FlatFacts(s: KernelMemory.State)
    requires KernelMemory.Inv(s)
    ensures forall v: nat :: v in s.flat <==> v < NUM_PAGES
    ensures forall v: nat :: v in s.flat && s.brk <= v ==> s.flat[v] == ZERO
  {
    KernelMemory.OpenInv(s);
  }

  lemma {:induction false} WalkedExtends(s: KernelMemory.State, n: nat, t: KernelMemory.State)
    requires PageWalk.Walked(s.flat, t.flat, s.brk, s.brk + n, PageWalk.MarkAvailable) && Marked(s.flat, s.brk)
    requires t.brk == s.brk + n <= NUM_PAGES
    requires forall v: nat :: v in s.flat <==> v < NUM_PAGES
    requires forall v: nat :: v in s.flat && s.brk <= v ==> s.flat[v] == ZERO
    ensures Extended(s, n, t)
  {
  }

  lemma {:induction false} AllocCosts(s: KernelMemory.State, n: nat)
    requires KernelMemory.Inv(s) && Root in s.tables && s.brk + n <= NUM_PAGES
    ensures var r := HeapPaging.AllocPages(s, n);
            && (r.Some? <==> PageWalk.Needed(s.tables.Keys, s.brk, s.brk + n) <= KernelMemory.Available(s))
            && (r.Some? ==>
                  && KernelMemory.Inv(r.value) && r.value.brk == s.brk + n
                  && KernelMemory.Available(r.value)
                     == KernelMemory.Available(s) - PageWalk.Needed(s.tables.Keys, s.brk, s.brk + n))
  {
    HeapPaging.BrkUp(s, n);
    PageWalk.WalkSound(s.(brk := s.brk + n), s.brk, s.brk + n, PageWalk.MarkAvailable);
  }

  lemma {:induction false} AllocMarks(s: KernelMemory.State, n: nat)
    requires KernelMemory.Inv(s) && s.brk + n <= NUM_PAGES && Marked(s.flat, s.brk)
    ensures var r := HeapPaging.AllocPages(s, n); r.Some? && r.value.brk == s.brk + n ==> Extended(s, n, r.value)
  {
    HeapPaging.AllocPagesLeaves(s, n);
    FlatFacts(s);
    var r := HeapPaging.AllocPages(s, n);
    if r.Some? && r.value.brk == s.brk + n {
      WalkedExtends(s, n, r.value);
    }
  }

  lemma {:induction false} AllocExtends(s: KernelMemory.State, n: nat)
    requires KernelMemory.Inv(s) && Root in s.tables && s.brk + n <= NUM_PAGES && Marked(s.flat, s.brk)
    ensures var r := HeapPaging.AllocPages(s, n);
            && (r.Some? <==> PageWalk.Needed(s.tables.Keys, s.brk, s.brk + n) <= KernelMemory.Available(s))
            && (r.Some? ==>
                  && Extended(s, n, r.value) && KernelMemory.Inv(r.value)
                  && KernelMemory.Available(r.value)
                     == KernelMemory.Available(s) - PageWalk.Needed(s.tables.Keys, s.brk, s.brk + n))
  {
    AllocCosts(s, n);
    AllocMarks(s, n);
  }

  /** The pages of `m`, and then a fault on the first of them. */
  lemma {:induction false} FirstTouched(s: KernelMemory.State, n: nat, m: KernelMemory.State, t: KernelMemory.State)
    requires |s.next| == |s.regions| && |t.next| == |t.regions| && |m.next| == |m.regions|
    requires Extended(s, n, m) && OnlyPage(m.flat, t.flat, s.brk) && Present(t.flat, s.brk) && t.brk == m.brk
    requires KernelMemory.Available(t) == KernelMemory.Available(m) - 1
    requires KernelMemory.Available(m)
          == KernelMemory.Available(s) - PageWalk.Needed(s.tables.Keys, s.brk, s.brk + n)
    ensures TookPages(s, n, t) && SameBelow(s.flat, t.flat, s.brk)
  {
    forall v: nat | s.brk < v < t.brk
      ensures Untouched(t.flat, v)
    {
      assert Untouched(m.flat, v);
    }
  }

  lemma {:induction false} FaultBacks(s: KernelMemory.State, v: nat)
    requires KernelMemory.Inv(s) && Root in s.tables && Marked(s.flat, s.brk)
    requires HEAP_BASE <= v < s.brk && v in s.flat && !s.flat[v].present
    ensures var r := HeapPaging.PageFault(s, v);
            && (r.Some? <==> KernelMemory.Available(s) > 0)
            && (r.Some? ==>
                  && Marked(r.value.flat, r.value.brk) && r.value.brk == s.brk
                  && Present(r.value.flat, v) && OnlyPage(s.flat, r.value.flat, v)
                  && |r.value.next| == |r.value.regions|
                  && KernelMemory.Available(r.value) == KernelMemory.Available(s) - 1)
  {
    HeapPaging.PageFaultSound(s, v);
    if HeapPaging.PageFault(s, v).Some? {
      HeapPaging.FaultTakesOne(s, v);
    }
  }

  // ----------------------------------------------------- what a write disturbs

  lemma {:induction false} ListsElsewhere(free: seq<seq<nat>>, words: WordStore, a: nat, x: nat)
    requires ListsOk(free, words) && forall i :: 0 <= i < |free| ==> a !in free[i]
    ensures ListsOk(free, words[a := x])
  {
    forall i | 0 <= i < |free|
      ensures Linked(free[i], words[a := x])
    {
      LinkedElsewhere(free[i], words, a, x);
    }
  }

  lemma {:induction false} BelowBreak(b: nat, brk: nat)
    requires b / PAGE_SIZE < brk
    ensures b < brk * PAGE_SIZE
    ensures b % 32 == 0 ==> b + 8 < brk * PAGE_SIZE
  {
  }

  lemma {:induction false} FreeBelow(h: Heap, i: nat)
    requires Inv(h) && i < POOLS
    ensures forall b :: b in h.free[i] ==> b < h.brk * PAGE_SIZE
  {
    OpenInv(h);
    forall b | b in h.free[i]
      ensures b < h.brk * PAGE_SIZE
    {
      FreeNotLive(h, b);
      assert IsFree(h, i, b);
      BelowBreak(b, h.brk);
    }
  }

  lemma {:induction false} HeaderBelow(h: Heap, b: nat)
    requires Inv(h) && b in h.live
    ensures b + 8 < h.brk * PAGE_SIZE
  {
    LiveBelow(h, b);
    LiveAligned(h, b);
    BelowBreak(b, h.brk);
  }

  /** A block beyond the break joins the front of a list: nothing else is disturbed. */
  lemma {:induction false} PushFresh(h: Heap, list: seq<nat>, words: WordStore, a: nat)
    requires Inv(h) && a >= h.brk * PAGE_SIZE && a !in list
    requires Linked(list, words) && ListsOk(h.free, words) && HeadersOk(h.live, words)
    ensures var w := words[a := HeadOf(list)];
            Linked([a] + list, w) && ListsOk(h.free, w) && HeadersOk(h.live, w)
  {
    LinkedPush(list, words, a);
    forall i | 0 <= i < POOLS
      ensures a !in h.free[i]
    {
      FreeBelow(h, i);
    }
    ListsElsewhere(h.free, words, a, HeadOf(list));
    forall b | b in h.live
      ensures HeaderAt(words[a := HeadOf(list)], b, h.live[b])
    {
      HeaderBelow(h, b);
    }
  }

  /** The header words of a block are no other block's and no list's. */
  lemma {:induction false} HeaderApart(h: Heap, b: nat)
    requires Inv(h) && b % 32 == 0
    ensures forall i :: 0 <= i < POOLS ==> b + 8 !in h.free[i]
    ensures forall c :: c in h.live ==> b != c + 8 && b + 8 != c && (b + 8 == c + 8 ==> b == c)
  {
    forall i | 0 <= i < POOLS
      ensures b + 8 !in h.free[i]
    {
      FreeAligned(h, i);
    }
    forall c | c in h.live
      ensures b != c + 8 && b + 8 != c
    {
      LiveAligned(h, c);
    }
  }

  lemma {:induction false} BlockStep(m: nat, n: nat, size: nat, page: nat, block: nat)
    requires m <= n && n * size == PAGE_SIZE && block == page + m * size && size > 0
    ensures block < page + PAGE_SIZE <==> m < n
    ensures block + size == page + (m + 1) * size
  {
    MulMono(n, m, size);
    MulMono(m + 1, n, size);
  }

  /** What is below the break stays backed and clean. */
  lemma {:induction false} OldPages(h: Heap, was: map<nat, Entry>, flat: map<nat, Entry>)
    requires Inv(h) && Backs(was, h.live, h.pages) && RunsClean(h.live, was) && SameBelow(was, flat, h.brk)
    ensures Backs(flat, h.live, h.pages) && RunsClean(h.live, flat)
  {
    OpenInv(h);
    forall b | b in h.live
      ensures Present(flat, b / PAGE_SIZE)
      ensures h.live[b].use.Dedicated? ==> HeapPaging.Clean(flat, b / PAGE_SIZE, h.live[b].use.pages)
    {
      LiveBelow(h, b);
      if h.live[b].use.Dedicated? {
        LiveRun(h, b);
      }
    }
  }

  lemma {:induction false} BlockWord(m: nat, size: nat, p: nat)
    requires size % 8 == 0
    ensures (p * PAGE_SIZE + m * size) % 8 == 0
  {
    var k := size / 8;
    assert size == 8 * k && m * size == 8 * (m * k);
  }

  // ---------------------------------------------------------- steps in memory

  lemma {:induction false} AddPageStored(h: Heap, i: nat, pools: seq<KmallocPool>, words: WordStore,
                                         was: map<nat, Entry>, flat: map<nat, Entry>)
    requires Inv(h) && i < POOLS && h.free[i] == [] && |pools| == POOLS
    requires var cut := Cut(h.brk, BlockSize(i), PerPage(i));
             PoolsOk(pools, h.free[i := cut]) && Linked(cut, words)
    requires ListsOk(h.free, words) && HeadersOk(h.live, words)
    requires Backs(was, h.live, h.pages) && RunsClean(h.live, was) && SameBelow(was, flat, h.brk)
    requires Present(flat, h.brk) && Marked(flat, h.brk + 1)
    ensures Stores(AddPage(h, i), pools, words, flat)
  {
    var cut := Cut(h.brk, BlockSize(i), PerPage(i));
    assert cut + h.free[i] == cut;
    OldPages(h, was, flat);
    CloseStores(AddPage(h, i), pools, words, flat);
  }

  /** Two words written at a block that is in no list. */
  lemma {:induction false} HeaderWritten(free: seq<seq<nat>>, live: map<nat, Live>, words: WordStore, b: nat, l: Live)
    requires ListsOk(free, words) && HeadersOk(live, words)
    requires forall i :: 0 <= i < |free| ==> b !in free[i] && b + 8 !in free[i]
    requires forall c :: c in live ==> c != b && c + 8 != b && c != b + 8
    ensures var w := words[b := PoolWord(l.use)][b + 8 := SizeWord(l)];
            ListsOk(free, w) && HeadersOk(live[b := l], w)
  {
    var x := words[b := PoolWord(l.use)];
    var w := x[b + 8 := SizeWord(l)];
    ListsElsewhere(free, words, b, PoolWord(l.use));
    ListsElsewhere(free, x, b + 8, SizeWord(l));
    var live' := live[b := l];
    forall c | c in live'
      ensures HeaderAt(w, c, live'[c])
    {
      assert c == b || HeaderAt(words, c, live[c]);
    }
  }

  lemma {:induction false} NotInLists(h: Heap, b: nat)
    requires Inv(h) && b in h.live
    ensures forall i :: 0 <= i < POOLS ==> b !in h.free[i] && b + 8 !in h.free[i]
    ensures forall c :: c in h.live ==> b != c + 8 && b + 8 != c
  {
    FreeNotLive(h, b);
    LiveAligned(h, b);
    HeaderApart(h, b);
    assert forall i: nat :: i < POOLS && b in h.free[i] ==> IsFree(h, i, b);
  }

  lemma {:induction false} TailLinked(free: seq<seq<nat>>, words: WordStore, i: nat)
    requires ListsOk(free, words) && i < |free| && free[i] != []
    ensures ListsOk(free[i := free[i][1..]], words)
    ensures free[i][0] in words && words[free[i][0]] == HeadOf(free[i][1..])
  {
    assert Linked(free[i], words);
  }

  /** kmalloc from a pool: the head leaves its list and gets a header. */
  lemma {:induction false} TakeStored(h: Heap, i: nat, size: nat, pools: seq<KmallocPool>, words: WordStore,
                                      flat: map<nat, Entry>)
    requires Inv(h) && Stores(h, pools, words, flat) && i < POOLS && h.free[i] != [] && size <= MaxSize(i)
    ensures var b := h.free[i][0];
            && b in words && |pools| == POOLS && pools[i].head == b
            && Stores(TakeHead(h, i, size), pools[i := pools[i].(head := words[b])],
                      words[b := i + 1][b + 8 := 0], flat)
  {
    OpenStores(h, pools, words, flat);
    var b, t := h.free[i][0], TakeHead(h, i, size);
    TakeHeadKeeps(h, i, size);
    TailLinked(h.free, words, i);
    NotInLists(t, b);
    assert forall c :: c in h.live ==> c in t.live;
    HeaderWritten(t.free, h.live, words, b, Live(Pooled(i), size));
    FreeInPages(h, i, b);
    CloseStores(t, pools[i := pools[i].(head := words[b])], words[b := i + 1][b + 8 := 0], flat);
  }

  lemma {:induction false} FreeInPages(h: Heap, i: nat, b: nat)
    requires Inv(h) && i < POOLS && b in h.free[i]
    ensures b / PAGE_SIZE in h.pages
  {
    FreeNotLive(h, b);
    assert IsFree(h, i, b);
  }

  lemma {:induction false} RunWords(h: Heap, size: nat, words: WordStore)
    requires Inv(h) && ListsOk(h.free, words) && HeadersOk(h.live, words)
    ensures var b, t := h.brk * PAGE_SIZE, TakePages(h, size);
            var w := words[b := 0][b + 8 := size + HEADER];
            ListsOk(t.free, w) && HeadersOk(t.live, w)
  {
    var b, t := h.brk * PAGE_SIZE, TakePages(h, size);
    TakePagesKeeps(h, size);
    NotInLists(t, b);
    assert forall c :: c in h.live ==> c in t.live;
    HeaderWritten(h.free, h.live, words, b, t.live[b]);
  }

  lemma {:induction false} RunFlat(h: Heap, size: nat, was: map<nat, Entry>, flat: map<nat, Entry>)
    requires Inv(h) && Backs(was, h.live, h.pages) && RunsClean(h.live, was) && SameBelow(was, flat, h.brk)
    requires Present(flat, h.brk) && HeapPaging.Clean(flat, h.brk, PagesFor(size + HEADER))
    ensures var t := TakePages(h, size); Backs(flat, t.live, t.pages) && RunsClean(t.live, flat)
  {
    OldPages(h, was, flat);
    assert h.brk * PAGE_SIZE / PAGE_SIZE == h.brk;
  }

  /** kmalloc of a dedicated run: a header at its start. */
  lemma {:induction false} RunStored(h: Heap, size: nat, pools: seq<KmallocPool>, words: WordStore,
                                     was: map<nat, Entry>, flat: map<nat, Entry>)
    requires Inv(h) && Stores(h, pools, words, was)
    requires SameBelow(was, flat, h.brk) && Present(flat, h.brk) && Marked(flat, h.brk + PagesFor(size + HEADER))
    requires HeapPaging.Clean(flat, h.brk, PagesFor(size + HEADER))
    ensures var b := h.brk * PAGE_SIZE;
            Stores(TakePages(h, size), pools, words[b := 0][b + 8 := size + HEADER], flat)
  {
    OpenStores(h, pools, words, was);
    var b, t := h.brk * PAGE_SIZE, TakePages(h, size);
    RunWords(h, size, words);
    RunFlat(h, size, was, flat);
    CloseStores(t, pools, words[b := 0][b + 8 := size + HEADER], flat);
  }

  /** kfree to a pool: the block becomes the head of its list, its first word the link. */
  lemma {:induction false} GiveStored(h: Heap, b: nat, pools: seq<KmallocPool>, words: WordStore, flat: map<nat, Entry>)
    requires Inv(h) && Stores(h, pools, words, flat) && CanFree(h, b + HEADER) && h.live[b].use.Pooled?
    ensures var i := h.live[b].use.pool;
            && |pools| == POOLS && b in words && words[b] == i + 1
            && Stores(Kfree(h, b + HEADER), pools[i := pools[i].(head := b)], words[b := pools[i].head], flat)
  {
    OpenStores(h, pools, words, flat);
    var i := h.live[b].use.pool;
    assert HeaderAt(words, b, h.live[b]);
    NotInLists(h, b);
    var w := words[b := pools[i].head];
    ListsElsewhere(h.free, words, b, pools[i].head);
    LinkedPush(h.free[i], words, b);
    forall c | c in h.live - {b}
      ensures HeaderAt(w, c, h.live[c])
    {
      assert HeaderAt(words, c, h.live[c]);
    }
    CloseStores(Kfree(h, b + HEADER), pools[i := pools[i].(head := b)], w, flat);
  }

  // ------------------------------------------------------------- the allocator

  /** What kmalloc takes from the MMU. */
  function PagesTaken(h: Heap, size: nat): nat
    requires |h.free| == POOLS
  {
    var i := PoolFrom(size, 0);
    if i == POOLS then PagesFor(size + HEADER) else if h.free[i] == [] then 1 else 0
  }

  /** The word at an address lies in the payload of an allocation. */
  predicate InPayload(live: map<nat, Live>, b: nat, addr: nat) {
    b in live && b + HEADER <= addr && addr + 8 <= b + HEADER + live[b].size
  }

  ghost predicate ArePayloads(once: Once, live: map<nat, Live>, words: WordStore, after: WordStore) {
    match once
    case Only =>
      forall b: nat, a :: a in words && InPayload(live, b, a) ==> a in after && after[a] == words[a]
  }

  /** The words of these payloads are as before. Opened where that is used. */
  ghost predicate PayloadsKept(live: map<nat, Live>, words: WordStore, after: WordStore) {
    forall once: Once :: ArePayloads(once, live, words, after)
  }

  ghost predicate SameWordsBelow(words: WordStore, after: WordStore, bound: nat) {
    forall a :: a in words && a < bound ==> a in after && after[a] == words[a]
  }

  /** The words outside a range of pages. */
  ghost function Without(words: WordStore, v: nat, n: nat): WordStore {
    map a | a in words && !(v <= a / PAGE_SIZE < v + n) :: words[a]
  }

  lemma {:induction false} PayloadPlaced(h: Heap, b: nat, addr: nat)
    requires Inv(h) && InPayload(h.live, b, addr)
    ensures HEAP_BASE <= addr / PAGE_SIZE < h.brk && addr < h.brk * PAGE_SIZE
  {
    LiveHoldsSize(h, b);
    var i := PieceWithin(h, b, Extent(h.live[b]));
    EndsInPages(h, b, Extent(h.live[b]), i);
    OpenInv(h);
    PageBounds(b, addr, if i < POOLS then b / PAGE_SIZE + 1 else b / PAGE_SIZE + h.live[b].use.pages);
  }

  lemma {:induction false} PageBounds(b: nat, addr: nat, end: nat)
    requires b <= addr < end * PAGE_SIZE
    ensures b / PAGE_SIZE <= addr / PAGE_SIZE < end
  {
  }

  /** A payload is clear of the start and header of every other piece. */
  lemma {:induction false} PayloadClear(h: Heap, b: nat, addr: nat, c: nat, n: nat)
    requires Inv(h) && InPayload(h.live, b, addr) && Piece(h, c, n) && b != c && n >= HEADER
    ensures addr != c && addr != c + 8 && !(c <= addr < c + n)
  {
    LiveHoldsSize(h, b);
    if b < c {
      PiecesApart(h, b, Extent(h.live[b]), c, n);
    } else {
      PiecesApart(h, c, n, b, Extent(h.live[b]));
    }
  }

  class Allocator {
    const mmu: MemoryManager.Mmu
    var pools: seq<KmallocPool>
    ghost var words: WordStore      // what the heap is known to hold
    ghost var h: Heap

    ghost predicate Valid()
      reads this, mmu
    {
      && mmu.Valid() && mmu.Loaded() && Inv(h) && h.brk == mmu.s.brk
      && Stores(h, pools, words, mmu.s.flat) && InHeap(words, mmu.s.flat, mmu.mem)
    }

    /** init_alloc */
    constructor (mmu: MemoryManager.Mmu)
      requires mmu.Valid() && mmu.Loaded() && mmu.s.brk == HEAP_BASE
      ensures Valid() && this.mmu == mmu && h == InitAlloc()
    {
      this.mmu := mmu;
      words := map[];
      h := InitAlloc();
      var ps: seq<KmallocPool> := [];
      var i := 0;
      while i < POOLS
        invariant i <= POOLS && |ps| == i
        invariant forall j :: 0 <= j < i ==> ps[j] == KmallocPool(MaxSize(j), 0)
      {
        ps := ps + [KmallocPool(BlockSize(i) - HEADER, 0)];
        i := i + 1;
      }
      pools := ps;
      InitGood();
      CloseStores(InitAlloc(), ps, map[], mmu.s.flat);
      NoWords(mmu.s.flat, mmu.mem);
    }

    // ------------------------------------------------------ words of the heap

    /** A load through a pointer into the heap. */
    method Load(addr: nat) returns (x: nat)
      requires mmu.Valid() && mmu.Loaded() && InHeap(words, mmu.s.flat, mmu.mem) && addr in words
      modifies mmu
      ensures mmu.Valid() && mmu.Loaded() && mmu.s == old(mmu.s) && mmu.mem == old(mmu.mem) && x == words[addr]
    {
      OneWord(words, mmu.s.flat, mmu.mem, addr);
      x := mmu.LoadWord(addr, words[addr]);
    }

    /** A store through a pointer into the heap, to a page that is backed. */
    method Store(addr: nat, x: nat)
      requires mmu.Valid() && mmu.Loaded() && InHeap(words, mmu.s.flat, mmu.mem)
      requires addr % 8 == 0 && x < TWO_64 && HEAP_BASE <= addr / PAGE_SIZE && Present(mmu.s.flat, addr / PAGE_SIZE)
      modifies this`words, mmu
      ensures mmu.Valid() && mmu.Loaded() && mmu.s == old(mmu.s) && words == old(words)[addr := x]
      ensures InHeap(words, mmu.s.flat, mmu.mem)
    {
      FlatFacts(mmu.s);
      mmu.StoreWord(addr, x);
      WordWritten(words, mmu.s, old(mmu.mem), addr, x);
      words := words[addr := x];
    }

    /** The first access to a page faults. */
    method Touch(addr: nat, ghost v: nat) returns (halted: bool)
      requires mmu.Valid() && mmu.Loaded() && Marked(mmu.s.flat, mmu.s.brk)
      requires v == addr / PAGE_SIZE && HEAP_BASE <= v < mmu.s.brk && v in mmu.s.flat && !mmu.s.flat[v].present
      modifies mmu
      ensures mmu.Valid() && mmu.Loaded()
      ensures halted <==> KernelMemory.Available(old(mmu.s)) <= 0
      ensures FrameStore.UsersKept(old(mmu.s.owner), old(mmu.mem), mmu.s.owner, mmu.mem, {})
      ensures !halted ==>
                && Marked(mmu.s.flat, mmu.s.brk) && mmu.s.brk == old(mmu.s.brk)
                && Present(mmu.s.flat, v) && OnlyPage(old(mmu.s.flat), mmu.s.flat, v)
                && KernelMemory.Available(mmu.s) == KernelMemory.Available(old(mmu.s)) - 1
    {
      FlatFacts(mmu.s);
      FaultBacks(mmu.s, v);
      halted := mmu.PageFault(addr, v);
    }

    /** A load or store at an address below the break, and the fault it may cause. */
    method Access(addr: nat) returns (halted: bool)
      requires Valid() && HEAP_BASE <= addr / PAGE_SIZE < mmu.s.brk
      modifies mmu
      ensures var v := addr / PAGE_SIZE;
              && (halted <==> !Present(old(mmu.s.flat), v) && KernelMemory.Available(old(mmu.s)) <= 0)
              && (!halted ==>
                    && Valid() && Present(mmu.s.flat, v) && OnlyPage(old(mmu.s.flat), mmu.s.flat, v)
                    && KernelMemory.Available(mmu.s)
                       == KernelMemory.Available(old(mmu.s)) - if Present(old(mmu.s.flat), v) then 0 else 1)
    {
      OpenStores(h, pools, words, mmu.s.flat);
      BrkInSpace(mmu.s);
      FlatFacts(mmu.s);
      ghost var was, mem := mmu.s, mmu.mem;
      var mapped := mmu.IsMapped(addr, addr / PAGE_SIZE);
      halted := false;
      if !mapped {
        halted := Touch(addr, addr / PAGE_SIZE);
        if !halted {
          FlatChanged(h, pools, words, was.flat, mmu.s.flat, addr / PAGE_SIZE);
          WordsFaulted(words, was, mem, mmu.s, mmu.mem, addr / PAGE_SIZE);
        }
      }
    }

    ghost predicate Short(s: KernelMemory.State, n: nat)
      requires |s.next| == |s.regions|
    {
      KernelMemory.Available(s) < PageWalk.Needed(s.tables.Keys, s.brk, s.brk + n) + 1
    }

    // ---------------------------------------------------------------- kmalloc

    /** One iteration of pool_allocate_page: the block becomes the head of the list. */
    method PushBlock(i: nat, block: nat, page: nat, ghost cut: seq<nat>)
      requires mmu.Valid() && mmu.Loaded() && InHeap(words, mmu.s.flat, mmu.mem) && Present(mmu.s.flat, h.brk)
      requires i < |pools| && Inv(h) && page == h.brk * PAGE_SIZE && h.brk < NUM_PAGES
      requires page <= block < page + PAGE_SIZE && block % 8 == 0 && pools[i].head == HeadOf(cut)
      requires forall b :: b in cut ==> b < block
      requires Linked(cut, words) && ListsOk(h.free, words) && HeadersOk(h.live, words)
      modifies this`pools, this`words, mmu
      ensures mmu.Valid() && mmu.Loaded() && mmu.s == old(mmu.s) && InHeap(words, mmu.s.flat, mmu.mem)
      ensures pools == old(pools)[i := old(pools)[i].(head := block)] && words == old(words)[block := HeadOf(cut)]
      ensures Linked([block] + cut, words) && ListsOk(h.free, words) && HeadersOk(h.live, words)
    {
      AboveBase(h);
      PushFresh(h, cut, words, block);
      InPage(block, h.brk);
      assert cut != [] ==> HeadOf(cut) in cut;
      Store(block, pools[i].head);
      pools := pools[i := pools[i].(head := block)];
    }

    /** The loop of pool_allocate_page: each block of the page becomes the head of the list. */
    method CutPage(i: nat, page: nat, ghost n: nat)
      requires mmu.Valid() && mmu.Loaded() && InHeap(words, mmu.s.flat, mmu.mem) && Present(mmu.s.flat, h.brk)
      requires i < |pools| && Inv(h) && page == h.brk * PAGE_SIZE && h.brk < NUM_PAGES
      requires pools[i].head == 0 && n * (pools[i].maxSize + HEADER) == PAGE_SIZE && pools[i].maxSize % 8 == 0
      requires ListsOk(h.free, words) && HeadersOk(h.live, words)
      modifies this`pools, this`words, mmu
      ensures mmu.Valid() && mmu.Loaded() && mmu.s == old(mmu.s) && InHeap(words, mmu.s.flat, mmu.mem)
      ensures var cut := Cut(h.brk, old(pools)[i].maxSize + HEADER, n);
              && pools == old(pools)[i := old(pools)[i].(head := HeadOf(cut))]
              && Linked(cut, words) && ListsOk(h.free, words) && HeadersOk(h.live, words)
      ensures SameWordsBelow(old(words), words, page)
    {
      var size := pools[i].maxSize + HEADER;
      var block := page;
      ghost var m := 0;
      ghost var cut: seq<nat> := [];
      while block < page + PAGE_SIZE
        invariant mmu.Valid() && mmu.Loaded() && mmu.s == old(mmu.s) && InHeap(words, mmu.s.flat, mmu.mem)
        invariant m <= n && block == page + m * size && cut == Cut(h.brk, size, m)
        invariant pools == old(pools)[i := old(pools)[i].(head := HeadOf(cut))]
        invariant Linked(cut, words) && ListsOk(h.free, words) && HeadersOk(h.live, words)
        invariant (forall b :: b in cut ==> b < block) && SameWordsBelow(old(words), words, page)
        decreases n - m
      {
        BlockStep(m, n, size, page, block);
        BlockWord(m, size, h.brk);
        PushBlock(i, block, page, cut);
        cut := [block] + cut;
        block := block + size;
        m := m + 1;
      }
      BlockStep(m, n, size, page, block);
    }

    /** MMU_alloc_page, and the fault on the page. */
    method OnePage() returns (halted: bool, page: nat)
      requires mmu.Valid() && mmu.Loaded() && Marked(mmu.s.flat, mmu.s.brk)
      requires HEAP_BASE <= mmu.s.brk < NUM_PAGES
      modifies mmu
      ensures halted <==> Short(old(mmu.s), 1)
      ensures FrameStore.UsersKept(old(mmu.s.owner), old(mmu.mem), mmu.s.owner, mmu.mem, {})
      ensures !halted ==>
                && mmu.Valid() && mmu.Loaded() && page == old(mmu.s.brk) * PAGE_SIZE
                && mmu.s.brk == old(mmu.s.brk) + 1 && Marked(mmu.s.flat, mmu.s.brk)
                && SameBelow(old(mmu.s.flat), mmu.s.flat, old(mmu.s.brk)) && TookPages(old(mmu.s), 1, mmu.s)
    {
      AllocExtends(mmu.s, 1);
      ghost var v := mmu.s.brk;
      halted, page := mmu.AllocPage();
      if !halted {
        ghost var s1, mem1 := mmu.s, mmu.mem;
        assert Untouched(mmu.s.flat, v);
        halted := Touch(page, v);
        FrameStore.KeptOn(old(mmu.s.owner), old(mmu.mem), s1.owner, mem1, mmu.s.owner, mmu.mem);
        if !halted {
          FirstTouched(old(mmu.s), 1, s1, mmu.s);
        }
      }
    }

    /** pool_allocate_page */
    method PoolAllocatePage(i: nat) returns (halted: bool)
      requires Valid() && i < POOLS && h.free[i] == [] && mmu.s.brk < NUM_PAGES
      modifies this`pools, this`words, this`h, mmu
      ensures halted <==> Short(old(mmu.s), 1)
      ensures !halted ==> Valid() && h == AddPage(old(h), i) && TookPages(old(mmu.s), 1, mmu.s)
      ensures !halted ==> SameWordsBelow(old(words), words, old(h).brk * PAGE_SIZE)
    {
      OpenStores(h, pools, words, mmu.s.flat);
      AboveBase(h);
      ghost var was, mem := mmu.s, mmu.mem;
      var page;
      halted, page := OnePage();
      if halted {
        return;
      }
      WordsExtended(words, was, mem, mmu.s, mmu.mem);
      Factor(i);
      CutPage(i, page, PerPage(i));
      AddPageStored(h, i, pools, words, was.flat, mmu.s.flat);
      AddPageKeeps(h, i);
      h := AddPage(h, i);
    }

    /** The search of kmalloc for the first pool that is large enough. */
    method FindPool(size: nat) returns (i: nat)
      requires |pools| == POOLS && forall j :: 0 <= j < POOLS ==> pools[j].maxSize == MaxSize(j)
      ensures i == PoolFrom(size, 0)
    {
      i := 0;
      while i < |pools| && size > pools[i].maxSize
        invariant i <= POOLS && PoolFrom(size, i) == PoolFrom(size, 0)
      {
        i := i + 1;
      }
    }

    /** struct KmallocHeader, at the start of a block. */
    method WriteHeader(block: nat, pool: nat, size: nat)
      requires mmu.Valid() && mmu.Loaded() && InHeap(words, mmu.s.flat, mmu.mem) && block % 32 == 0
      requires pool < TWO_64 && size < TWO_64
      requires HEAP_BASE <= block / PAGE_SIZE && Present(mmu.s.flat, block / PAGE_SIZE)
      modifies this`words, mmu
      ensures mmu.Valid() && mmu.Loaded() && mmu.s == old(mmu.s) && InHeap(words, mmu.s.flat, mmu.mem)
      ensures words == old(words)[block := pool][block + 8 := size]
    {
      HeaderPage(block);
      Store(block, pool);
      Store(block + 8, size);
    }

    method TakeFromPool(i: nat, size: nat) returns (addr: nat)
      requires Valid() && i < POOLS && h.free[i] != [] && size <= MaxSize(i)
      modifies this`pools, this`words, this`h, mmu
      ensures Valid() && h == TakeHead(old(h), i, size) && addr == old(h).free[i][0] + HEADER
      ensures mmu.s == old(mmu.s) && words == old(words)[addr - HEADER := i + 1][addr - HEADER + 8 := 0]
    {
      TakeStored(h, i, size, pools, words, mmu.s.flat);
      TakeHeadKeeps(h, i, size);
      HeadPlaced(h, i, pools, words, mmu.s.flat);
      var block: nat := pools[i].head;
      var next := Load(block);
      pools := pools[i := pools[i].(head := next)];
      WriteHeader(block, i + 1, 0);
      h := TakeHead(h, i, size);
      return block + HEADER;
    }

    /** MMU_alloc_pages, and the fault on the first of the pages. */
    method RunOfPages(num: nat) returns (halted: bool, block: nat)
      requires mmu.Valid() && mmu.Loaded() && Marked(mmu.s.flat, mmu.s.brk)
      requires 0 < num && HEAP_BASE <= mmu.s.brk && mmu.s.brk + num <= NUM_PAGES
      modifies mmu
      ensures halted <==> Short(old(mmu.s), num)
      ensures FrameStore.UsersKept(old(mmu.s.owner), old(mmu.mem), mmu.s.owner, mmu.mem, {})
      ensures !halted ==>
                && mmu.Valid() && mmu.Loaded() && block == old(mmu.s.brk) * PAGE_SIZE
                && mmu.s.brk == old(mmu.s.brk) + num && Marked(mmu.s.flat, mmu.s.brk)
                && SameBelow(old(mmu.s.flat), mmu.s.flat, old(mmu.s.brk)) && TookPages(old(mmu.s), num, mmu.s)
    {
      AllocExtends(mmu.s, num);
      ghost var v := mmu.s.brk;
      halted, block := mmu.AllocPages(num);
      if !halted {
        ghost var s1, mem1 := mmu.s, mmu.mem;
        assert Untouched(mmu.s.flat, v);
        halted := Touch(block, v);
        FrameStore.KeptOn(old(mmu.s.owner), old(mmu.mem), s1.owner, mem1, mmu.s.owner, mmu.mem);
        if !halted {
          FirstTouched(old(mmu.s), num, s1, mmu.s);
        }
      }
    }

    method TakeRun(size: nat) returns (halted: bool, addr: nat)
      requires Valid() && mmu.s.brk + PagesFor(size + HEADER) <= NUM_PAGES
      modifies this`words, this`h, mmu
      ensures halted <==> Short(old(mmu.s), PagesFor(size + HEADER))
      ensures !halted ==> Valid() && h == TakePages(old(h), size) && addr == old(h).brk * PAGE_SIZE + HEADER
      ensures !halted ==> TookPages(old(mmu.s), PagesFor(size + HEADER), mmu.s)
      ensures !halted ==> SameWordsBelow(old(words), words, old(h).brk * PAGE_SIZE)
    {
      OpenStores(h, pools, words, mmu.s.flat);
      AboveBase(h);
      var bytes := size + HEADER;
      var num := bytes / PAGE_SIZE + if bytes % PAGE_SIZE != 0 then 1 else 0;
      ghost var was, mem := mmu.s, mmu.mem;
      var block;
      halted, block := RunOfPages(num);
      if halted {
        return halted, 0;
      }
      WordsExtended(words, was, mem, mmu.s, mmu.mem);
      RunClean(was, num, mmu.s);
      StartRun(block, size, was.flat);
      addr := block + HEADER;
    }

    /** The header of a dedicated run whose pages were just taken. */
    method StartRun(block: nat, size: nat, ghost was: map<nat, Entry>)
      requires mmu.Valid() && mmu.Loaded() && InHeap(words, mmu.s.flat, mmu.mem)
      requires Inv(h) && Stores(h, pools, words, was) && block == h.brk * PAGE_SIZE
      requires SameBelow(was, mmu.s.flat, h.brk) && Marked(mmu.s.flat, mmu.s.brk) && Present(mmu.s.flat, h.brk)
      requires HeapPaging.Clean(mmu.s.flat, h.brk, PagesFor(size + HEADER))
      requires mmu.s.brk == h.brk + PagesFor(size + HEADER) <= NUM_PAGES
      modifies this`words, this`h, mmu
      ensures Valid() && h == TakePages(old(h), size) && mmu.s == old(mmu.s)
      ensures SameWordsBelow(old(words), words, old(h).brk * PAGE_SIZE)
    {
      AboveBase(h);
      RunStored(h, size, pools, words, was, mmu.s.flat);
      TakePagesKeeps(h, size);
      InPage(block, h.brk);
      BytesOfRun(size + HEADER, h.brk);
      WriteHeader(block, 0, size + HEADER);
      h := TakePages(h, size);
    }

    /** A page for a pool whose list is empty. */
    method Stock(i: nat) returns (halted: bool)
      requires Valid() && i < POOLS && (h.free[i] == [] ==> mmu.s.brk < NUM_PAGES)
      modifies this`pools, this`words, this`h, mmu
      ensures halted <==> old(h).free[i] == [] && Short(old(mmu.s), 1)
      ensures !halted ==> Valid() && h == Stocked(old(h), i)
      ensures !halted ==> if old(h).free[i] == [] then TookPages(old(mmu.s), 1, mmu.s) else mmu.s == old(mmu.s)
      ensures !halted ==> SameWordsBelow(old(words), words, old(h).brk * PAGE_SIZE)
    {
      OpenStores(h, pools, words, mmu.s.flat);
      HeadNull(h, i);
      halted := false;
      if pools[i].head == 0 {
        halted := PoolAllocatePage(i);
      }
    }

    /** kmalloc from the pool its search found. */
    method TakePooled(i: nat, size: nat) returns (halted: bool, addr: nat)
      requires Valid() && i < POOLS && size <= MaxSize(i) && (h.free[i] == [] ==> mmu.s.brk < NUM_PAGES)
      modifies this`pools, this`words, this`h, mmu
      ensures halted <==> old(h).free[i] == [] && Short(old(mmu.s), 1)
      ensures !halted ==>
                && Valid() && h == TakeHead(Stocked(old(h), i), i, size)
                && addr == Stocked(old(h), i).free[i][0] + HEADER && PayloadsKept(old(h).live, old(words), words)
      ensures !halted ==> if old(h).free[i] == [] then TookPages(old(mmu.s), 1, mmu.s) else mmu.s == old(mmu.s)
    {
      halted := Stock(i);
      if halted {
        return halted, 0;
      }
      KeptBelow(old(h), old(words), words);
      ghost var w, g := words, h;
      addr := TakeFromPool(i, size);
      KeptByTake(old(h).live, old(words), g, i, w, words);
    }

    /** kmalloc: it halts the machine exactly when pages are needed and the frames left do not
        suffice for their tables and the first of them. No word of another payload changes. */
    method Kmalloc(size: nat) returns (halted: bool, addr: nat)
      requires Valid() && mmu.s.brk + PagesTaken(h, size) <= NUM_PAGES
      modifies this`pools, this`words, this`h, mmu
      ensures var n := PagesTaken(old(h), size); halted <==> n > 0 && Short(old(mmu.s), n)
      ensures !halted ==> Valid() && (h, addr) == KmallocModel.Kmalloc(old(h), size)
      ensures var n := PagesTaken(old(h), size);
              !halted ==> if n > 0 then TookPages(old(mmu.s), n, mmu.s) else mmu.s == old(mmu.s)
      ensures !halted ==> PayloadsKept(old(h).live, old(words), words)
    {
      OpenStores(h, pools, words, mmu.s.flat);
      var i := FindPool(size);
      if i < POOLS {
        halted, addr := TakePooled(i, size);
      } else {
        halted, addr := TakeRun(size);
        if !halted {
          KeptBelow(old(h), old(words), words);
        }
      }
    }

    // ------------------------------------------------------------------ kfree

    method GiveToPool(b: nat, pool: nat)
      requires Valid() && CanFree(h, b + HEADER) && h.live[b].use.Pooled? && b in words && pool == words[b]
      modifies this`pools, this`words, this`h, mmu
      ensures Valid() && h == KmallocModel.Kfree(old(h), b + HEADER) && mmu.s == old(mmu.s)
      ensures PayloadsKept(h.live, old(words), words)
    {
      GiveStored(h, b, pools, words, mmu.s.flat);
      KfreeKeeps(h, b + HEADER);
      BrkInSpace(mmu.s);
      BlockPlaced(h, b, pools, words, mmu.s.flat);
      HeadInSpace(h, h.live[b].use.pool, pools);
      var i := pool - 1;
      KeptByGive(h, b, words, pools[i].head);
      Store(b, pools[i].head);
      pools := pools[i := pools[i].(head := b)];
      h := KmallocModel.Kfree(h, b + HEADER);
    }

    /** The number of pages of a dedicated run, from the size in its header. */
    method CountPages(b: nat) returns (num: nat)
      requires Valid() && b in h.live && h.live[b].use.Dedicated?
      modifies mmu
      ensures Valid() && mmu.s == old(mmu.s) && mmu.mem == old(mmu.mem) && num == h.live[b].use.pages
      ensures (b + HEADER) / PAGE_SIZE == b / PAGE_SIZE && b / PAGE_SIZE + num <= NUM_PAGES
      ensures HeapPaging.Clean(mmu.s.flat, b / PAGE_SIZE, num)
    {
      OpenStores(h, pools, words, mmu.s.flat);
      LiveRun(h, b);
      BrkInSpace(mmu.s);
      assert HeaderAt(words, b, h.live[b]);
      var size := Load(b + 8);
      num := size / PAGE_SIZE + if size % PAGE_SIZE != 0 then 1 else 0;
    }

    /** kfree of a dedicated run: the pages released are those of the block, although the
        payload's address is what is passed on. */
    method ReleaseRun(addr: nat) returns (halted: bool)
      requires Valid() && CanFree(h, addr) && h.live[addr - HEADER].use.Dedicated?
      modifies this`words, this`h, mmu
      ensures var b := addr - HEADER;
              var v, n := b / PAGE_SIZE, old(h).live[b].use.pages;
              && (halted <==> !HeapPaging.AllPresent(old(mmu.s.flat), v, n))
              && (!halted ==>
                    && Valid() && h == KmallocModel.Kfree(old(h), addr)
                    && HeapPaging.FreedRange(old(mmu.s), v, n, mmu.s) && PayloadsKept(h.live, old(words), words))
    {
      var b: nat := addr - HEADER;
      var num := CountPages(b);
      ghost var v := b / PAGE_SIZE;
      ghost var was, mem := mmu.s, mmu.mem;
      halted := mmu.FreePages(addr, num, v);
      if halted {
        return;
      }
      RunGivenBack(h, b, pools, words, was, mem, mmu.s, mmu.mem);
      words := Without(words, v, num);
      h := KmallocModel.Kfree(h, addr);
    }

    /** kfree: it halts the machine exactly when a page of a dedicated run was never touched. No word
        of another payload changes. */
    method Kfree(addr: nat) returns (halted: bool)
      requires Valid() && CanFree(h, addr)
      modifies this`pools, this`words, this`h, mmu
      ensures var b := addr - HEADER;
              match old(h).live[b].use
              case Pooled(_) => !halted && mmu.s == old(mmu.s)
              case Dedicated(n) =>
                && (halted <==> !HeapPaging.AllPresent(old(mmu.s.flat), b / PAGE_SIZE, n))
                && (!halted ==> HeapPaging.FreedRange(old(mmu.s), b / PAGE_SIZE, n, mmu.s))
      ensures !halted ==>
                Valid() && h == KmallocModel.Kfree(old(h), addr) && PayloadsKept(h.live, old(words), words)
    {
      var b: nat := addr - HEADER;
      OpenStores(h, pools, words, mmu.s.flat);
      assert HeaderAt(words, b, h.live[b]);
      var pool := Load(b);
      halted := false;
      if pool != 0 {
        GiveToPool(b, pool);
      } else {
        halted := ReleaseRun(addr);
      }
    }

    // ---------------------------------------------------------------- payloads

    /** A client's store of a word of its own payload. */
    method StorePayload(ghost b: nat, addr: nat, x: nat) returns (halted: bool)
      requires Valid() && b in h.live && InPayload(h.live, b, addr) && addr % 8 == 0 && x < TWO_64
      modifies this`words, mmu
      ensures halted <==>
                !Present(old(mmu.s.flat), addr / PAGE_SIZE) && KernelMemory.Available(old(mmu.s)) <= 0
      ensures !halted ==> Valid() && words == old(words)[addr := x]
    {
      PayloadPlaced(h, b, addr);
      AboveBase(h);
      halted := Access(addr);
      if !halted {
        PayloadStored(h, b, addr, x, pools, words, mmu.s.flat);
        Store(addr, x);
      }
    }

    /** What was stored there is what is loaded, until the allocation is freed. */
    method LoadPayload(ghost b: nat, addr: nat) returns (x: nat)
      requires Valid() && b in h.live && InPayload(h.live, b, addr) && addr in words
      modifies mmu
      ensures Valid() && mmu.s == old(mmu.s) && x == words[addr]
    {
      x := Load(addr);
    }
  }

  lemma {:induction false} BrkInSpace(s: KernelMemory.State)
    requires KernelMemory.Inv(s)
    ensures s.brk <= NUM_PAGES
  {
    KernelMemory.OpenInv(s);
  }

  /** A fault changes nothing the allocator relies on. */
  lemma {:induction false} FlatChanged(h: Heap, pools: seq<KmallocPool>, words: WordStore, was: map<nat, Entry>,
                                       flat: map<nat, Entry>, v: nat)
    requires Stores(h, pools, words, was) && Marked(flat, h.brk) && OnlyPage(was, flat, v) && Present(flat, v)
    ensures Stores(h, pools, words, flat)
  {
    OpenStores(h, pools, words, was);
    forall b | b in h.live && h.live[b].use.Dedicated?
      ensures HeapPaging.Clean(flat, b / PAGE_SIZE, h.live[b].use.pages)
    {
      assert HeapPaging.Clean(was, b / PAGE_SIZE, h.live[b].use.pages);
    }
    CloseStores(h, pools, words, flat);
  }

  lemma {:induction false} LinkedWithout(list: seq<nat>, words: WordStore, v: nat, n: nat)
    requires Linked(list, words) && forall b :: b in list ==> !(v <= b / PAGE_SIZE < v + n)
    ensures Linked(list, Without(words, v, n))
  {
    if list != [] {
      assert list[0] in list && forall b :: b in list[1..] ==> b in list;
      LinkedWithout(list[1..], words, v, n);
    }
  }

  lemma {:induction false} ListsWithout(h: Heap, b: nat, words: WordStore)
    requires Inv(h) && b in h.live && h.live[b].use.Dedicated? && ListsOk(h.free, words)
    ensures ListsOk(h.free, Without(words, b / PAGE_SIZE, h.live[b].use.pages))
  {
    LiveRun(h, b);
    OpenInv(h);
    forall i | 0 <= i < POOLS
      ensures Linked(h.free[i], Without(words, b / PAGE_SIZE, h.live[b].use.pages))
    {
      forall c | c in h.free[i]
        ensures c / PAGE_SIZE in h.pages
      {
        FreeInPages(h, i, c);
      }
      LinkedWithout(h.free[i], words, b / PAGE_SIZE, h.live[b].use.pages);
    }
  }

  /** The pages of another allocation are not those of a dedicated run. */
  lemma {:induction false} PagesApart(h: Heap, b: nat, c: nat, w: nat)
    requires Inv(h) && b in h.live && h.live[b].use.Dedicated? && c in h.live && c != b
    requires w == c / PAGE_SIZE
          || (h.live[c].use.Dedicated? && c / PAGE_SIZE <= w < c / PAGE_SIZE + h.live[c].use.pages)
    ensures !(b / PAGE_SIZE <= w < b / PAGE_SIZE + h.live[b].use.pages)
  {
    OpenInv(h);
    LiveRun(h, b);
    if h.live[c].use.Pooled? {
      PooledIsBlock(h, c);
    } else {
      LiveRun(h, c);
    }
  }

  /** Unmapping the pages of one run leaves every other header and link where it is. */
  lemma {:induction false} RunReleased(h: Heap, b: nat, pools: seq<KmallocPool>, words: WordStore,
                                       was: map<nat, Entry>, flat: map<nat, Entry>)
    requires Inv(h) && Stores(h, pools, words, was) && CanFree(h, b + HEADER) && h.live[b].use.Dedicated?
    requires HeapPaging.Unmapped(was, flat, b / PAGE_SIZE, h.live[b].use.pages)
    ensures Stores(KmallocModel.Kfree(h, b + HEADER), pools, Without(words, b / PAGE_SIZE, h.live[b].use.pages), flat)
  {
    OpenStores(h, pools, words, was);
    var v, n := b / PAGE_SIZE, h.live[b].use.pages;
    LiveRun(h, b);
    forall c | c in h.live && c != b
      ensures Present(flat, c / PAGE_SIZE) && HeaderAt(Without(words, v, n), c, h.live[c])
    {
      PagesApart(h, b, c, c / PAGE_SIZE);
      LiveAligned(h, c);
      HeaderPage(c);
      assert Present(was, c / PAGE_SIZE) && HeaderAt(words, c, h.live[c]);
    }
    forall c | c in h.live && c != b && h.live[c].use.Dedicated?
      ensures HeapPaging.Clean(flat, c / PAGE_SIZE, h.live[c].use.pages)
    {
      assert HeapPaging.Clean(was, c / PAGE_SIZE, h.live[c].use.pages);
      forall w: nat | c / PAGE_SIZE <= w < c / PAGE_SIZE + h.live[c].use.pages
        ensures w in flat && KernelMemory.IsHeap(w) && (flat[w].present || flat[w].addr == 0)
      {
        PagesApart(h, b, c, w);
      }
    }
    ListsWithout(h, b, words);
    CloseStores(KmallocModel.Kfree(h, b + HEADER), pools, Without(words, v, n), flat);
  }

  // ------------------------------------------------------- words of the heap

  lemma {:induction false} BlockDigits(b: nat)
    requires b % 32 == 0
    ensures b == b / PAGE_SIZE * PAGE_SIZE + 32 * (b / 32 % 128)
  {
    var q, m := b / 32 / 128, b / 32 % 128;
    assert b / 32 == q * 128 + m && b == 32 * (b / 32);
    DivModUnique(b, PAGE_SIZE, q, 32 * m);
  }

  lemma {:induction false} WordAligned(b: nat)
    requires b % 32 == 0
    ensures b % 8 == 0 && (b + 8) % 8 == 0
  {
  }

  lemma {:induction false} HeaderPage(b: nat)
    requires b % 32 == 0
    ensures b % 8 == 0 && (b + 8) % 8 == 0 && (b + 8) / PAGE_SIZE == b / PAGE_SIZE
  {
    WordAligned(b);
    BlockDigits(b);
    DivModUnique(b + 8, PAGE_SIZE, b / PAGE_SIZE, 32 * (b / 32 % 128) + 8);
  }

  lemma {:induction false} InPage(a: nat, p: nat)
    requires p * PAGE_SIZE <= a < p * PAGE_SIZE + PAGE_SIZE
    ensures a / PAGE_SIZE == p && (a == p * PAGE_SIZE ==> a % 32 == 0)
  {
    DivModUnique(a, PAGE_SIZE, p, a - p * PAGE_SIZE);
  }

  lemma {:induction false} BytesOfRun(bytes: nat, brk: nat)
    requires brk + PagesFor(bytes) <= NUM_PAGES
    ensures bytes < TWO_64
  {
  }

  lemma {:induction false} BelowSpace(a: nat, brk: nat)
    requires a < brk * PAGE_SIZE && brk <= NUM_PAGES
    ensures a < TWO_64
  {
  }

  /** The head of a pool's list is where kmalloc can write a header. */
  lemma {:induction false} HeadPlaced(h: Heap, i: nat, pools: seq<KmallocPool>, words: WordStore, flat: map<nat, Entry>)
    requires Inv(h) && Stores(h, pools, words, flat) && i < POOLS && h.free[i] != []
    ensures |pools| == POOLS && pools[i].head == h.free[i][0] && h.free[i][0] in words
    ensures var b := h.free[i][0];
            && b % 32 == 0 && HEAP_BASE <= b / PAGE_SIZE && Present(flat, b / PAGE_SIZE)
            && (b + 8) / PAGE_SIZE == b / PAGE_SIZE
  {
    OpenStores(h, pools, words, flat);
    OpenInv(h);
    FreeAligned(h, i);
    FreeInPages(h, i, h.free[i][0]);
    HeaderPage(h.free[i][0]);
  }

  lemma {:induction false} HeadInSpace(h: Heap, i: nat, pools: seq<KmallocPool>)
    requires Inv(h) && PoolsOk(pools, h.free) && i < POOLS && h.brk <= NUM_PAGES
    ensures pools[i].head < TWO_64
  {
    FreeBelow(h, i);
    if h.free[i] != [] {
      assert h.free[i][0] in h.free[i];
      BelowSpace(h.free[i][0], h.brk);
    }
  }

  lemma {:induction false} BlockPlaced(h: Heap, b: nat, pools: seq<KmallocPool>, words: WordStore,
                                       flat: map<nat, Entry>)
    requires Inv(h) && Stores(h, pools, words, flat) && b in h.live && h.live[b].use.Pooled?
    ensures var i := h.live[b].use.pool; i < POOLS && PoolsOk(pools, h.free) && b in words && words[b] == i + 1
    ensures b % 8 == 0 && HEAP_BASE <= b / PAGE_SIZE && Present(flat, b / PAGE_SIZE)
  {
    OpenStores(h, pools, words, flat);
    PooledIsBlock(h, b);
    LiveAligned(h, b);
    HeaderPage(b);
    assert HeaderAt(words, b, h.live[b]);
    PoolPage(h, b);
  }

  lemma {:induction false} PoolPage(h: Heap, b: nat)
    requires Inv(h) && b / PAGE_SIZE in h.pages
    ensures HEAP_BASE <= b / PAGE_SIZE
  {
    OpenInv(h);
  }

  lemma {:induction false} WordsExtended(words: WordStore, s: KernelMemory.State, mem: FrameStore.Memory,
                                         t: KernelMemory.State, after: FrameStore.Memory)
    requires KernelMemory.Inv(s) && InHeap(words, s.flat, mem) && SameBelow(s.flat, t.flat, s.brk)
    requires FrameStore.UsersKept(s.owner, mem, t.owner, after, {})
    ensures InHeap(words, t.flat, after)
  {
    FlatFacts(s);
    forall a | a in words
      ensures var v := a / PAGE_SIZE; v in s.flat && v in t.flat && t.flat[v] == s.flat[v]
    {
      OneWord(words, s.flat, mem, a);
    }
    WordsStay(words, s, mem, t, after, {});
  }

  lemma {:induction false} WordsFaulted(words: WordStore, s: KernelMemory.State, mem: FrameStore.Memory,
                                        t: KernelMemory.State, after: FrameStore.Memory, v: nat)
    requires KernelMemory.Inv(s) && InHeap(words, s.flat, mem) && OnlyPage(s.flat, t.flat, v) && !Present(s.flat, v)
    requires FrameStore.UsersKept(s.owner, mem, t.owner, after, {})
    ensures InHeap(words, t.flat, after)
  {
    forall a | a in words
      ensures var w := a / PAGE_SIZE; w in s.flat && w in t.flat && t.flat[w] == s.flat[w]
    {
      OneWord(words, s.flat, mem, a);
    }
    WordsStay(words, s, mem, t, after, {});
  }

  /** A page outside a range of backed pages has another frame. */
  lemma {:induction false} OtherFrames(s: KernelMemory.State, v: nat, n: nat, w: nat)
    requires KernelMemory.Inv(s) && HeapPaging.AllPresent(s.flat, v, n)
    requires w in s.flat && KernelMemory.IsHeap(w) && s.flat[w].present && !(v <= w < v + n)
    ensures s.flat[w].addr !in HeapPaging.FrameSet(s.flat, v, n)
  {
    if s.flat[w].addr in HeapPaging.FrameSet(s.flat, v, n) {
      var u: nat :| v <= u < v + n && u in s.flat && s.flat[u].addr == s.flat[w].addr;
      FrameStore.UnbackOwner(s, u);
      FrameStore.UnbackOwner(s, w);
    }
  }

  lemma {:induction false} WordsReleased(words: WordStore, s: KernelMemory.State, mem: FrameStore.Memory, v: nat,
                                         n: nat, t: KernelMemory.State, after: FrameStore.Memory)
    requires KernelMemory.Inv(s) && InHeap(words, s.flat, mem) && HeapPaging.AllPresent(s.flat, v, n)
    requires HeapPaging.Unmapped(s.flat, t.flat, v, n)
    requires FrameStore.UsersKept(s.owner, mem, t.owner, after, HeapPaging.FrameSet(s.flat, v, n))
    ensures InHeap(Without(words, v, n), t.flat, after)
  {
    var rest := Without(words, v, n);
    FewerWords(words, rest, s.flat, mem);
    forall a | a in rest
      ensures var w := a / PAGE_SIZE;
              && w in s.flat && w in t.flat && t.flat[w] == s.flat[w]
              && s.flat[w].addr !in HeapPaging.FrameSet(s.flat, v, n)
    {
      OneWord(words, s.flat, mem, a);
      OtherFrames(s, v, n, a / PAGE_SIZE);
    }
    WordsStay(rest, s, mem, t, after, HeapPaging.FrameSet(s.flat, v, n));
  }

  lemma {:induction false} RunClean(s: KernelMemory.State, n: nat, t: KernelMemory.State)
    requires |s.next| == |s.regions| && TookPages(s, n, t) && HEAP_BASE <= s.brk && s.brk + n <= NUM_PAGES
    ensures HeapPaging.Clean(t.flat, s.brk, n)
  {
    forall w: nat | s.brk <= w < s.brk + n
      ensures w in t.flat && KernelMemory.IsHeap(w) && (t.flat[w].present || t.flat[w].addr == 0)
    {
      assert w == s.brk || Untouched(t.flat, w);
    }
  }

  /** The heap after the pages of run `b` were freed. */
  lemma {:induction false} RunGivenBack(h: Heap, b: nat, pools: seq<KmallocPool>, words: WordStore,
                                        s: KernelMemory.State, mem: FrameStore.Memory, t: KernelMemory.State,
                                        after: FrameStore.Memory)
    requires Inv(h) && Stores(h, pools, words, s.flat) && CanFree(h, b + HEADER) && h.live[b].use.Dedicated?
    requires var v, n := b / PAGE_SIZE, h.live[b].use.pages;
             && HeapPaging.AllPresent(s.flat, v, n) && HeapPaging.Unmapped(s.flat, t.flat, v, n)
             && FrameStore.UsersKept(s.owner, mem, t.owner, after, HeapPaging.FrameSet(s.flat, v, n))
    requires KernelMemory.Inv(s) && InHeap(words, s.flat, mem)
    ensures var g, w := KmallocModel.Kfree(h, b + HEADER), Without(words, b / PAGE_SIZE, h.live[b].use.pages);
            Inv(g) && Stores(g, pools, w, t.flat) && InHeap(w, t.flat, after) && PayloadsKept(g.live, words, w)
            && g.brk == h.brk
  {
    WordsReleased(words, s, mem, b / PAGE_SIZE, h.live[b].use.pages, t, after);
    RunReleased(h, b, pools, words, s.flat, t.flat);
    KeptByRelease(h, b, words);
    KfreeKeeps(h, b + HEADER);
  }

  // --------------------------------------------------- payloads stay as they are

  /** Writes beyond the break reach no payload. */
  lemma {:induction false} KeptBelow(h: Heap, words: WordStore, after: WordStore)
    requires Inv(h) && SameWordsBelow(words, after, h.brk * PAGE_SIZE)
    ensures PayloadsKept(h.live, words, after)
  {
    forall b: nat, a | a in words && InPayload(h.live, b, a)
      ensures a in after && after[a] == words[a]
    {
      PayloadPlaced(h, b, a);
    }
    assert ArePayloads(Only, h.live, words, after);
  }

  /** A header written over a free block. */
  lemma {:induction false} KeptByTake(live: map<nat, Live>, words: WordStore, g: Heap, i: nat, mid: WordStore,
                                      after: WordStore)
    requires Inv(g) && g.live == live && i < POOLS && g.free[i] != [] && PayloadsKept(live, words, mid)
    requires var b := g.free[i][0]; after == mid[b := i + 1][b + 8 := 0]
    ensures PayloadsKept(live, words, after)
  {
    var c := g.free[i][0];
    assert IsFree(g, i, c) && Piece(g, c, BlockSize(i));
    FreeNotLive(g, c);
    forall b: nat, a | a in words && InPayload(live, b, a)
      ensures a in after && after[a] == words[a]
    {
      assert ArePayloads(Only, live, words, mid);
      PayloadClear(g, b, a, c, BlockSize(i));
    }
    assert ArePayloads(Only, live, words, after);
  }

  /** A link written over a header. */
  lemma {:induction false} KeptByGive(h: Heap, c: nat, words: WordStore, x: nat)
    requires Inv(h) && c in h.live && h.live[c].use.Pooled?
    ensures PayloadsKept(h.live - {c}, words, words[c := x])
  {
    LiveHoldsSize(h, c);
    forall b: nat, a | a in words && InPayload(h.live - {c}, b, a)
      ensures a != c
    {
      PayloadClear(h, b, a, c, Extent(h.live[c]));
    }
    assert ArePayloads(Only, h.live - {c}, words, words[c := x]);
  }

  /** The pages of a run given back. */
  lemma {:induction false} KeptByRelease(h: Heap, c: nat, words: WordStore)
    requires Inv(h) && c in h.live && h.live[c].use.Dedicated?
    ensures PayloadsKept(h.live - {c}, words, Without(words, c / PAGE_SIZE, h.live[c].use.pages))
  {
    LiveHoldsSize(h, c);
    LiveRun(h, c);
    var v, n := c / PAGE_SIZE, h.live[c].use.pages;
    forall b: nat, a | a in words && InPayload(h.live - {c}, b, a)
      ensures !(v <= a / PAGE_SIZE < v + n)
    {
      PayloadClear(h, b, a, c, n * PAGE_SIZE);
      InRun(c, n, a);
    }
    assert ArePayloads(Only, h.live - {c}, words, Without(words, v, n));
  }

  lemma {:induction false} InRun(c: nat, n: nat, a: nat)
    requires c % PAGE_SIZE == 0
    ensures c / PAGE_SIZE <= a / PAGE_SIZE < c / PAGE_SIZE + n ==> c <= a < c + n * PAGE_SIZE
  {
  }

  /** A word of a payload is no link and no header. */
  lemma {:induction false} PayloadStored(h: Heap, b: nat, addr: nat, x: nat, pools: seq<KmallocPool>, words: WordStore,
                                         flat: map<nat, Entry>)
    requires Inv(h) && Stores(h, pools, words, flat) && InPayload(h.live, b, addr)
    ensures Stores(h, pools, words[addr := x], flat)
  {
    OpenStores(h, pools, words, flat);
    forall i | 0 <= i < POOLS
      ensures addr !in h.free[i]
    {
      if addr in h.free[i] {
        assert IsFree(h, i, addr) && Piece(h, addr, BlockSize(i));
        FreeNotLive(h, addr);
        PayloadClear(h, b, addr, addr, BlockSize(i));
      }
    }
    ListsElsewhere(h.free, words, addr, x);
    forall c | c in h.live
      ensures HeaderAt(words[addr := x], c, h.live[c])
    {
      assert HeaderAt(words, c, h.live[c]);
      if c != b {
        LiveHoldsSize(h, c);
        PayloadClear(h, b, addr, c, Extent(h.live[c]));
      }
    }
    CloseStores(h, pools, words[addr := x], flat);
  }

  lemma {:induction false} AboveBase(h: Heap)
    requires Inv(h)
    ensures HEAP_BASE <= h.brk
  {
    OpenInv(h);
  }

  /** The head of a list is NULL only when the list is empty. */
  lemma {:induction false} HeadNull(h: Heap, i: nat)
    requires Inv(h) && i < POOLS
    ensures HeadOf(h.free[i]) == 0 <==> h.free[i] == []
  {
    OpenInv(h);
    if h.free[i] != [] {
      FreeInPages(h, i, h.free[i][0]);
    }
  }
}
