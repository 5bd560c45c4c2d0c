/** Every run of the memory operations from boot: one owner per frame, the identity map, an
    injective heap. */
module MemoryRuns {
  import opened Options
  import opened PageTree
  import opened KernelMemory
  import opened PageWalk
  import opened HeapPaging

  function End(rs: seq<Bounds>): nat {
    if rs == [] then 1 else rs[|rs| - 1].end
  }

  /** Every page up to the end of the last region maps to the frame of the same number, for loads
      and stores. */
  ghost predicate Identity(s: State) {
    forall v: nat :: 1 <= v < End(s.regions) ==>
      v in s.flat && s.flat[v] == Mapping(v) && VPath(v, 3) in s.tables
  }

  /** No other page below the heap is mapped, and every heap page below the break is marked. */
  ghost predicate Elsewhere(s: State) {
    && (forall v: nat :: End(s.regions) <= v < HEAP_BASE ==> v in s.flat && s.flat[v] == ZERO)
    && (forall v: nat :: HEAP_BASE <= v < s.brk ==> v in s.flat && s.flat[v].available == 1)
  }

  ghost predicate Good(s: State) {
    Inv(s) && Root in s.tables && Static(s) && Identity(s) && Elsewhere(s)
  }

  // --------------------------------------------------------------------- boot

  /** The state build_mem_regions leaves: nothing handed out, no table, nothing mapped. */
  ghost predicate IsBoot(s: State) {
    && Static(s) && s.free == [] && s.tables == map[] && s.brk == HEAP_BASE
    && |s.next| == |s.regions|
    && (forall i :: 0 <= i < |s.regions| ==> s.next[i] == s.regions[i].start)
    && (forall f :: f in s.owner ==> s.owner[f].Tail? && InTail(s.regions, s.next, s.owner[f].region, f))
    && (forall v: nat :: v in s.flat <==> v < NUM_PAGES)
    && (forall v: nat :: v in s.flat ==> s.flat[v] == ZERO)
  }

  lemma {:induction false} TailUnique(rs: seq<Bounds>, next: seq<nat>, i: nat, j: nat, f: nat)
    requires RegionsOk(rs) && |next| == |rs| && InTail(rs, next, i, f) && InTail(rs, next, j, f)
    requires forall k :: 0 <= k < |rs| ==> rs[k].start <= next[k]
    ensures i == j
  {
  }

  lemma {:induction false} BootInv(s: State)
    requires IsBoot(s)
    ensures Inv(s)
  {
    forall i: nat, f: nat | InTail(s.regions, s.next, i, f)
      ensures f in s.owner && s.owner[f] == Tail(i)
    {
      assert Covered(s.regions, f);
      TailUnique(s.regions, s.next, i, s.owner[f].region, f);
    }
    CloseInv(s);
  }

  lemma {:induction false} EndWithinHeap(rs: seq<Bounds>)
    requires RegionsOk(rs)
    ensures 1 <= End(rs) <= HEAP_BASE
    ensures forall f: nat :: Covered(rs, f) ==> 1 <= f < End(rs)
  {
    forall f: nat | Covered(rs, f)
      ensures 1 <= f < End(rs)
    {
      var i :| 0 <= i < |rs| && rs[i].start <= f < rs[i].end;
      assert i == |rs| - 1 || rs[i].end <= rs[|rs| - 1].start;
    }
  }

  lemma {:induction false} TouchedContains(lo: nat, hi: nat, v: nat)
    requires lo <= v < hi
    ensures VPath(v, 3) in Touched(lo, hi)
    decreases hi
  {
    if v < hi - 1 {
      TouchedContains(lo, hi - 1, v);
    } else {
      assert VPath(v, 3) in PathsTo(v, 3);
    }
  }

  /** After a direct-map walk of [1, end), Identity holds up to `end`. */
  lemma {:induction false} DirectMapIdentity(before: map<nat, Entry>, t: State, end: nat)
    requires Walked(before, t.flat, 1, end, DirectMap) && end <= NUM_PAGES
    requires forall v: nat :: v in before <==> v < NUM_PAGES
    requires forall v: nat :: v in before ==> before[v] == ZERO
    requires Touched(1, end) <= t.tables.Keys
    ensures forall v: nat :: 1 <= v < end ==>
              v in t.flat && t.flat[v] == Mapping(v) && VPath(v, 3) in t.tables
    ensures forall v: nat :: end <= v < NUM_PAGES ==> v in t.flat && t.flat[v] == ZERO
  {
    forall v: nat | 1 <= v < end
      ensures v in t.flat && t.flat[v] == Mapping(v) && VPath(v, 3) in t.tables
    {
      TouchedContains(1, end, v);
    }
  }

  lemma {:induction false} BootSafe(s: State, end: nat)
    requires IsBoot(s) && end <= HEAP_BASE
    ensures SafeRange(DirectMap, 1, end, s.flat, s.brk)
  {
  }

  /** init_page_table maps all of [1, end of last region) to itself, and needs one frame for the
      root and one for each table touched. */
  lemma {:induction false} InitPageTableSound(s: State)
    requires IsBoot(s)
    ensures var r := InitPageTable(s, End(s.regions));
            && (r.Some? <==> 1 + Needed({Root}, 1, End(s.regions)) <= Available(s))
            && (r.Some? ==> Good(r.value) && r.value.regions == s.regions && r.value.brk == HEAP_BASE)
  {
    var end := End(s.regions);
    BootInv(s);
    EndWithinHeap(s.regions);
    PfAllocTakesOne(s);
    PfAllocSound(s);
    if PfAlloc(s).Some? {
      var u := LinkTable(PfAlloc(s).value.1, Root, PfAlloc(s).value.0);
      RootLinked(s);
      BootSafe(s, end);
      WalkSound(u, 1, end, DirectMap);
      if Walk(u, 1, end, DirectMap).Some? {
        WalkLeaves(u, 1, end, DirectMap);
        DirectMapIdentity(s.flat, Walk(u, 1, end, DirectMap).value, end);
      }
    }
  }

  lemma {:induction false} RootLinked(s: State)
    requires IsBoot(s) && PfAlloc(s).Some?
    ensures var u := LinkTable(PfAlloc(s).value.1, Root, PfAlloc(s).value.0);
            && Inv(u) && u.tables.Keys == {Root} && u.flat == s.flat && u.brk == s.brk
            && u.regions == s.regions && u.owner.Keys == s.owner.Keys
            && Available(u) == Available(s) - 1
  {
    BootInv(s);
    PfAllocTakesOne(s);
    PfAllocSound(s);
    LinkTableSound(PfAlloc(s).value.1, Root, PfAlloc(s).value.0);
  }

  // --------------------------------------------------------------------- runs

  datatype Op =
    | PfAllocOp
    | PfFreeOp(frame: nat)
    | AllocPagesOp(count: nat)
    | PageFaultOp(page: nat)
    | FreePageOp(page: nat)

  /** What each operation demands of its caller. */
  ghost predicate Allowed(s: State, op: Op) {
    match op
    case PfAllocOp => true
    case PfFreeOp(f) => f in s.owner && s.owner[f] == Held
    case AllocPagesOp(n) => s.brk + n <= NUM_PAGES
    case PageFaultOp(v) => v in s.flat && !s.flat[v].present
    case FreePageOp(v) => v in s.flat && IsHeap(v) && s.flat[v].present
  }

  /** None: the machine halts. */
  function Step(s: State, op: Op): Option<State>
    requires |s.next| == |s.regions|
  {
    match op
    case PfAllocOp => (match PfAlloc(s) case None => None case Some((_, t)) => Some(t))
    case PfFreeOp(f) => Some(PfFree(s, f))
    case AllocPagesOp(n) => AllocPages(s, n)
    case PageFaultOp(v) => PageFault(s, v)
    case FreePageOp(v) => FreePage(s, v)
  }

  /** The operations take `s` to `t` without halting. */
  ghost predicate Runs(s: State, ops: seq<Op>, t: State)
    decreases |ops|
  {
    if ops == [] then t == s
    else
      && |s.next| == |s.regions| && Allowed(s, ops[0])
      && Step(s, ops[0]).Some? && Runs(Step(s, ops[0]).value, ops[1..], t)
  }

  /** What every step and so every run keeps, besides Good. */
  ghost predicate Onward(s: State, t: State) {
    t.regions == s.regions && t.owner.Keys == s.owner.Keys && s.brk <= t.brk
  }

  lemma {:induction false} LeavesKept(s: State, t: State)
    requires Identity(s) && Elsewhere(s) && RegionsOk(s.regions)
    requires t.regions == s.regions && TablesKept(s.tables, t.tables)
    requires forall v: nat :: v < HEAP_BASE && v in s.flat ==> v in t.flat && t.flat[v] == s.flat[v]
    requires forall v: nat :: HEAP_BASE <= v < t.brk ==> v in t.flat && t.flat[v].available == 1
    ensures Identity(t) && Elsewhere(t)
  {
    EndWithinHeap(s.regions);
  }

  lemma {:induction false} MarkKeepsLeaves(s: State, t: State, n: nat)
    requires Identity(s) && Elsewhere(s) && RegionsOk(s.regions) && HEAP_BASE <= s.brk
    requires t.regions == s.regions && TablesKept(s.tables, t.tables) && t.brk == s.brk + n
    requires Walked(s.flat, t.flat, s.brk, s.brk + n, MarkAvailable)
    requires forall v: nat :: v < t.brk ==> v in s.flat
    ensures Identity(t) && Elsewhere(t)
  {
    LeavesKept(s, t);
  }

  lemma {:induction false} AllocPagesGrows(s: State, n: nat)
    requires Inv(s) && Root in s.tables && Static(s) && s.brk + n <= NUM_PAGES && AllocPages(s, n).Some?
    ensures var t := AllocPages(s, n).value;
            Inv(t) && Root in t.tables && Static(t) && Onward(s, t) && TablesKept(s.tables, t.tables)
            && t.brk == s.brk + n
  {
    BrkUp(s, n);
    WalkSound(s.(brk := s.brk + n), s.brk, s.brk + n, MarkAvailable);
  }

  lemma {:induction false} AllocPagesKeeps(s: State, n: nat)
    requires Good(s) && s.brk + n <= NUM_PAGES && AllocPages(s, n).Some?
    ensures Good(AllocPages(s, n).value) && Onward(s, AllocPages(s, n).value)
  {
    AllocPagesGrows(s, n);
    AllocPagesLeaves(s, n);
    FlatBelow(s, 0, s.brk + n);
    assert HEAP_BASE <= s.brk by { assert Holds(HeapPart, s); }
    MarkKeepsLeaves(s, AllocPages(s, n).value, n);
  }

  lemma {:induction false} PageFaultKeeps(s: State, v: nat)
    requires Good(s) && Allowed(s, PageFaultOp(v)) && PageFault(s, v).Some?
    ensures Good(PageFault(s, v).value) && Onward(s, PageFault(s, v).value)
  {
    PageFaultSound(s, v);
    LeavesKept(s, PageFault(s, v).value);
  }

  lemma {:induction false} FreePageKeeps(s: State, v: nat)
    requires Good(s) && Allowed(s, FreePageOp(v)) && FreePage(s, v).Some?
    ensures Good(FreePage(s, v).value) && Onward(s, FreePage(s, v).value)
  {
    FreePageSound(s, v);
    LeavesKept(s, FreePage(s, v).value);
  }

  lemma {:induction false} StepKeeps(s: State, op: Op)
    requires Good(s) && Allowed(s, op) && Step(s, op).Some?
    ensures Good(Step(s, op).value) && Onward(s, Step(s, op).value)
  {
    match op
    case PfAllocOp =>
      PfAllocSound(s);
      LeavesKept(s, Step(s, op).value);
    case PfFreeOp(f) =>
      PfFreeSound(s, f);
      LeavesKept(s, Step(s, op).value);
    case AllocPagesOp(n) => AllocPagesKeeps(s, n);
    case PageFaultOp(v) => PageFaultKeeps(s, v);
    case FreePageOp(v) => FreePageKeeps(s, v);
  }

  /** The invariant, the identity map and the frame inventory survive every run, and the break
      only moves up, so ranges handed out by sbrk never overlap. */
  lemma {:induction false} RunKeeps(s: State, ops: seq<Op>, t: State)
    requires Good(s) && Runs(s, ops, t)
    ensures Good(t) && Onward(s, t)
    decreases |ops|
  {
    if ops != [] {
      StepKeeps(s, ops[0]);
      RunKeeps(Step(s, ops[0]).value, ops[1..], t);
    }
  }

  // ------------------------------------------------------------- consequences

  /** Who has the frame, read off the lists and tables themselves. */
  ghost predicate Owns(s: State, o: Owner, f: nat) {
    match o
    case Free(k) => k < |s.free| && s.free[k] == f
    case Tail(i) => InTail(s.regions, s.next, i, f)
    case Table(p) => p in s.tables && s.tables[p] == f
    case Backing(v) => BackedBy(s.flat, v, f)
    case Held => f in s.owner && s.owner[f] == Held
  }

  lemma {:induction false} OwnerListed(s: State, f: nat)
    requires Inv(s) && f in s.owner
    ensures Owns(s, s.owner[f], f)
  {
    match s.owner[f]
    case Free(_) => assert Holds(FreePart, s);
    case Tail(_) => assert Holds(TailPart, s);
    case Table(_) => assert Holds(TablesPart, s);
    case Backing(_) => assert Holds(BackingPart, s);
    case Held =>
  }

  lemma {:induction false} ListedOwner(s: State, f: nat, o: Owner)
    requires Inv(s) && Owns(s, o, f)
    ensures f in s.owner && s.owner[f] == o
  {
    match o
    case Free(_) => assert Holds(FreePart, s);
    case Tail(_) => assert Holds(TailPart, s);
    case Table(_) => assert Holds(TablesPart, s);
    case Backing(_) => assert Holds(BackingPart, s);
    case Held =>
  }

  /** Every frame of every region has exactly one owner, and nothing else has any. */
  lemma {:induction false} ExactlyOneOwner(s: State, f: nat)
    requires Good(s)
    ensures Covered(s.regions, f) ==> exists o :: Owns(s, o, f) && forall q :: Owns(s, q, f) ==> q == o
    ensures !Covered(s.regions, f) ==> forall o :: !Owns(s, o, f)
  {
    forall q | Owns(s, q, f)
      ensures f in s.owner && s.owner[f] == q
    {
      ListedOwner(s, f, q);
    }
    if Covered(s.regions, f) {
      OwnerListed(s, f);
    }
  }

  /** Present heap pages never share a frame, nor use one that is a table or free. */
  lemma {:induction false} HeapInjective(s: State, v: nat, w: nat)
    requires Good(s) && v in s.flat && IsHeap(v) && s.flat[v].present
    ensures w in s.flat && IsHeap(w) && s.flat[w].present && s.flat[w].addr == s.flat[v].addr ==> v == w
    ensures s.flat[v].addr !in s.free && s.flat[v].addr !in s.tables.Values
    ensures v < s.brk
  {
    OpenInv(s);
    assert s.flat[v] != ZERO;
  }

  lemma {:induction false} GoodTranslates(s: State, addr: nat)
    requires Good(s) && PAGE_SIZE <= addr < End(s.regions) * PAGE_SIZE
    ensures Translate(s, addr) == Some(addr)
  {
    var v := addr / PAGE_SIZE;
    assert 1 <= v < End(s.regions);
  }

  lemma {:induction false} GoodFrame(s: State, f: nat, offset: nat)
    requires Good(s) && Covered(s.regions, f) && offset < PAGE_SIZE
    ensures Translate(s, f * PAGE_SIZE + offset) == Some(f * PAGE_SIZE + offset)
  {
    EndWithinHeap(s.regions);
    GoodTranslates(s, f * PAGE_SIZE + offset);
  }

  /** `t` is a state after boot: init_page_table did not halt on the boot state `s`, and the
      operations followed. */
  ghost predicate Reached(s: State, ops: seq<Op>, t: State) {
    && IsBoot(s) && |s.next| == |s.regions| && InitPageTable(s, End(s.regions)).Some?
    && Runs(InitPageTable(s, End(s.regions)).value, ops, t)
  }

  lemma {:induction false} ReachedGood(s: State, ops: seq<Op>, t: State)
    requires Reached(s, ops, t)
    ensures Good(t) && t.regions == s.regions
  {
    InitPageTableSound(s);
    RunKeeps(InitPageTable(s, End(s.regions)).value, ops, t);
  }

  /** After every run from boot, every address in [0x1000, end of the last region) translates to
      itself. */
  lemma {:induction false} TranslatesToItself(s: State, ops: seq<Op>, t: State, addr: nat)
    requires Reached(s, ops, t) && PAGE_SIZE <= addr < End(s.regions) * PAGE_SIZE
    ensures Translate(t, addr) == Some(addr)
  {
    ReachedGood(s, ops, t);
    GoodTranslates(t, addr);
  }

  /** So every frame, whatever it is used for by then, can be written through its own address. */
  lemma {:induction false} FramesReachable(s: State, ops: seq<Op>, t: State, f: nat, offset: nat)
    requires Reached(s, ops, t) && Covered(s.regions, f) && offset < PAGE_SIZE
    ensures Translate(t, f * PAGE_SIZE + offset) == Some(f * PAGE_SIZE + offset)
  {
    ReachedGood(s, ops, t);
    GoodFrame(t, f, offset);
  }

  // ------------------------------------------------------------ free memory

  /** get_free_memory. */
  function FreeBytes(s: State): int
    requires |s.next| == |s.regions|
  {
    PAGE_SIZE * TailFrames(s.regions, s.next)
  }

  ghost function Interval(lo: nat, hi: nat): (r: set<nat>)
    ensures forall x :: x in r <==> lo <= x < hi
    decreases hi
  {
    if hi <= lo then {} else Interval(lo, hi - 1) + {hi - 1}
  }

  lemma {:induction false} IntervalSize(lo: nat, hi: nat)
    requires lo <= hi
    ensures |Interval(lo, hi)| == hi - lo
    decreases hi
  {
    if lo < hi {
      IntervalSize(lo, hi - 1);
    }
  }

  /** The frames of the region tails. */
  ghost function TailSet(rs: seq<Bounds>, next: seq<nat>): set<nat>
    requires |next| == |rs|
  {
    if rs == [] then {}
    else
      var n := |rs| - 1;
      TailSet(rs[..n], next[..n]) + Interval(next[n], rs[n].end)
  }

  lemma {:induction false} TailSetMember(rs: seq<Bounds>, next: seq<nat>, f: nat)
    requires |next| == |rs|
    ensures f in TailSet(rs, next) <==> exists i: nat :: InTail(rs, next, i, f)
  {
    if rs != [] {
      var n := |rs| - 1;
      TailSetMember(rs[..n], next[..n], f);
      if i: nat :| InTail(rs[..n], next[..n], i, f) {
        assert InTail(rs, next, i, f);
      }
      if f in Interval(next[n], rs[n].end) {
        assert InTail(rs, next, n, f);
      }
      if i: nat :| InTail(rs, next, i, f) && i < n {
        assert InTail(rs[..n], next[..n], i, f);
      }
    }
  }

  lemma {:induction false} EarlierTail(rs: seq<Bounds>, next: seq<nat>, n: nat, f: nat)
    requires RegionsOk(rs) && |next| == |rs| && n < |rs| && rs[n].start <= next[n]
    requires f in TailSet(rs[..n], next[..n])
    ensures f < next[n]
  {
    TailSetMember(rs[..n], next[..n], f);
    var i: nat :| InTail(rs[..n], next[..n], i, f);
    assert rs[i].end <= rs[n].start;
  }

  lemma {:induction false} LastTailApart(rs: seq<Bounds>, next: seq<nat>, n: nat)
    requires RegionsOk(rs) && |next| == |rs| && n < |rs| && rs[n].start <= next[n]
    ensures TailSet(rs[..n], next[..n]) !! Interval(next[n], rs[n].end)
  {
    forall f | f in TailSet(rs[..n], next[..n])
      ensures f < next[n]
    {
      EarlierTail(rs, next, n, f);
    }
  }

  lemma {:induction false} TailSetSize(rs: seq<Bounds>, next: seq<nat>)
    requires RegionsOk(rs) && |next| == |rs|
    requires forall i :: 0 <= i < |rs| ==> rs[i].start <= next[i] <= rs[i].end
    ensures |TailSet(rs, next)| == TailFrames(rs, next)
  {
    if rs != [] {
      var n := |rs| - 1;
      TailSetSize(rs[..n], next[..n]);
      IntervalSize(next[n], rs[n].end);
      LastTailApart(rs, next, n);
      DisjointSize(TailSet(rs[..n], next[..n]), Interval(next[n], rs[n].end));
    }
  }

  lemma {:induction false} DisjointSize<T>(a: set<T>, b: set<T>)
    requires a !! b
    ensures |a + b| == |a| + |b|
  {
  }

  /** get_free_memory reports exactly the bytes of the frames never handed out. */
  lemma {:induction false} FreeBytesAreTails(s: State)
    requires Good(s)
    ensures FreeBytes(s) == PAGE_SIZE * |set f | f in s.owner && s.owner[f].Tail?|
  {
    assert Holds(TailPart, s);
    TailSetSize(s.regions, s.next);
    forall f: nat
      ensures f in TailSet(s.regions, s.next) <==> f in s.owner && s.owner[f].Tail?
    {
      TailSetMember(s.regions, s.next, f);
    }
    assert TailSet(s.regions, s.next) == set f | f in s.owner && s.owner[f].Tail?;
  }

  // ---------------------------------------------------- freeing a stray page

  /** Nothing that matters is disturbed: the accounts stay consistent, over the same frames, and
      no direct holder loses a frame. */
  ghost predicate Harmless(s: State, t: State) {
    && Inv(t) && t.owner.Keys == s.owner.Keys
    && forall f :: f in s.owner && s.owner[f] == Held ==> t.owner[f] == Held
  }

  lemma {:induction false} FreeStrayFrame(s: State, v: nat)
    requires Inv(s) && v in s.flat && IsHeap(v) && !s.flat[v].present
    ensures !Harmless(s, Freed(s, v))
  {
    var a := s.flat[v].addr;
    var t := Freed(s, v);
    if Harmless(s, t) {
      OwnerListed(s, a);
      ListedOwner(t, a, s.owner[a]);
    }
  }

  /** MMU_free_page frees whatever frame number the entry holds, so it does no harm exactly when
      the page is present: freeing a page never touched, or freeing it twice, does. */
  lemma {:induction false} FreePageHarmlessIffPresent(s: State, v: nat)
    requires Inv(s) && Static(s) && Root in s.tables && v in s.flat && IsHeap(v)
    requires Missing(s.tables.Keys, v, 3) <= Available(s)
    ensures FreePage(s, v).Some? && (Harmless(s, FreePage(s, v).value) <==> s.flat[v].present)
  {
    GrowNeeds(s, v, 3);
    if s.flat[v].present {
      FreePageSound(s, v);
    } else if VPath(v, 3) in s.tables {
      GrowKnown(s, v, 3);
      FreeStrayFrame(s, v);
    } else {
      FreeNull(s, v);
    }
  }

  /** Without a leaf table the entry reads as empty: the frame "freed" is NULL. */
  lemma {:induction false} FreeNull(s: State, v: nat)
    requires Inv(s) && Static(s) && v in s.flat && VPath(v, 3) !in s.tables
    requires FreePage(s, v).Some?
    ensures FreePage(s, v).value.owner.Keys != s.owner.Keys
  {
    GrowLeaves(s, v, 3);
    assert Holds(FlatPart, s);
    EndWithinHeap(s.regions);
    assert 0 in FreePage(s, v).value.owner;
  }
}
