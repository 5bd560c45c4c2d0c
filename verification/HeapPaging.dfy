/** The lazily backed heap, the identity map, and every run of the memory operations. */
module HeapPaging {
  import opened Options
  import opened PageTree
  import opened KernelMemory
  import opened PageWalk

  /** MMU_alloc_page(s): move the break, then mark the pages available. */
  function AllocPages(s: State, n: nat): Option<State>
    requires |s.next| == |s.regions|
  {
    Walk(s.(brk := s.brk + n), s.brk, s.brk + n, MarkAvailable)
  }

  /** The entry the fault handler leaves for a page it backs with frame `f`. */
  function Backed(e: Entry, f: nat): Entry {
    e.(addr := f, readWrite := true, present := true)
  }

  /** page_fault_handler on a page that is not present; None halts the machine. */
  function PageFault(s: State, v: nat): Option<State>
    requires |s.next| == |s.regions|
  {
    if VPath(v, 3) !in s.tables then None
    else if Leaf(s, v).available == 0 then None
    else
      match PfAlloc(s)
      case None => None
      case Some((f, t)) => Some(t.(owner := t.owner[f := Backing(v)], flat := t.flat[v := Backed(Leaf(t, v), f)]))
  }

  /** MMU_free_page: whatever frame number the entry holds goes on the free list. */
  function FreePage(s: State, v: nat): (r: Option<State>)
    requires |s.next| == |s.regions|
    ensures r.Some? ==> |r.value.next| == |r.value.regions|
  {
    match Grow(s, v, 3)
    case None => None
    case Some(t) => Some(Freed(t, v))
  }

  /** What MMU_free_page does to a page whose tables exist. */
  function Freed(s: State, v: nat): State {
    SetLeaf(PfFree(s, Leaf(s, v).addr), v, Leaf(s, v).(present := false))
  }

  /** init_page_table, with `end` the end of the last region. */
  function InitPageTable(s: State, end: nat): Option<State>
    requires |s.next| == |s.regions|
  {
    match PfAlloc(s)
    case None => None
    case Some((f, t)) => Walk(LinkTable(t, Root, f), 1, end, DirectMap)
  }

  /** page_table_virt_to_phys_addr; None when a table on the way is absent. */
  function Translate(s: State, addr: nat): Option<nat> {
    var v := addr / PAGE_SIZE;
    if VPath(v, 3) !in s.tables then None
    else Some(Leaf(s, v).addr * PAGE_SIZE + addr % PAGE_SIZE)
  }

  // --------------------------------------------------------- one step at a time

  lemma {:induction false} BrkUp(s: State, n: nat)
    requires Inv(s) && s.brk + n <= NUM_PAGES
    ensures Inv(s.(brk := s.brk + n)) && SafeRange(MarkAvailable, s.brk, s.brk + n, s.flat, s.brk + n)
  {
    OpenInv(s);
    CloseInv(s.(brk := s.brk + n));
  }

  /** Marking pages available keeps the invariant, and halts exactly when fewer frames are left
      than the tables it would add. */
  lemma {:induction false} AllocPagesSound(s: State, n: nat)
    requires Inv(s) && Root in s.tables && s.brk + n <= NUM_PAGES
    ensures var r := AllocPages(s, n);
            && (r.Some? <==> Needed(s.tables.Keys, s.brk, s.brk + n) <= Available(s))
            && (r.Some? ==> Inv(r.value))
  {
    var moved := s.(brk := s.brk + n);
    BrkUp(s, n);
    assert Available(moved) == Available(s) && AllocPages(s, n) == Walk(moved, s.brk, s.brk + n, MarkAvailable);
    WalkSound(moved, s.brk, s.brk + n, MarkAvailable);
  }

  lemma {:induction false} AllocPagesLeaves(s: State, n: nat)
    requires Inv(s) && s.brk + n <= NUM_PAGES
    ensures var r := AllocPages(s, n);
            r.Some? ==> Walked(s.flat, r.value.flat, s.brk, s.brk + n, MarkAvailable)
  {
    FlatBelow(s, s.brk, s.brk + n);
    WalkLeaves(s.(brk := s.brk + n), s.brk, s.brk + n, MarkAvailable);
  }

  lemma {:induction false} FlatBelow(s: State, lo: nat, hi: nat)
    requires Inv(s) && hi <= NUM_PAGES
    ensures forall v :: lo <= v < hi ==> v in s.flat
  {
    assert Holds(FlatPart, s);
  }

  lemma {:induction false} BackPage(flat: map<nat, Entry>, owner: Owners, v: nat, f: nat)
    requires BackingOk(flat, owner) && v in flat && IsHeap(v) && !flat[v].present
    requires f in owner && owner[f] == Held
    ensures BackingOk(flat[v := Backed(flat[v], f)], owner[f := Backing(v)])
  {
    var flat', owner' := flat[v := Backed(flat[v], f)], owner[f := Backing(v)];
    forall g | g in owner' && owner'[g].Backing?
      ensures BackedBy(flat', owner'[g].page, g)
    {
      if g != f {
        assert BackedBy(flat, owner[g].page, g);
      }
    }
  }

  lemma {:induction false} UnbackPage(flat: map<nat, Entry>, owner: Owners, v: nat, o: Owner)
    requires BackingOk(flat, owner) && v in flat && IsHeap(v) && flat[v].present && !o.Backing?
    ensures flat[v].addr in owner && owner[flat[v].addr] == Backing(v)
    ensures BackingOk(flat[v := flat[v].(present := false)], owner[flat[v].addr := o])
  {
    var flat', owner' := flat[v := flat[v].(present := false)], owner[flat[v].addr := o];
    forall g | g in owner' && owner'[g].Backing?
      ensures BackedBy(flat', owner'[g].page, g)
    {
      assert BackedBy(flat, owner[g].page, g);
    }
  }

  lemma {:induction false} BackPageSound(s: State, v: nat, f: nat)
    requires Inv(s) && v in s.flat && VPath(v, 3) in s.tables
    requires !s.flat[v].present && s.flat[v].available != 0
    requires f in s.owner && s.owner[f] == Held
    ensures Inv(s.(owner := s.owner[f := Backing(v)], flat := s.flat[v := Backed(s.flat[v], f)]))
    ensures IsHeap(v) && v < s.brk
  {
    OpenInv(s);
    assert v < s.brk by { assert s.flat[v] != ZERO; }
    BackPage(s.flat, s.owner, v, f);
    OtherOwnersKept(s, f, Backing(v));
    CloseInv(s.(owner := s.owner[f := Backing(v)], flat := s.flat[v := Backed(s.flat[v], f)]));
  }

  /** A fault backs the page with a frame that was nobody's, provided the page was marked
      available; it is the only case that does not halt, memory permitting. */
  lemma {:induction false} PageFaultSound(s: State, v: nat)
    requires Inv(s) && Root in s.tables && v in s.flat && !s.flat[v].present
    ensures var r := PageFault(s, v);
            && (r.Some? <==> s.flat[v].available != 0 && Available(s) > 0)
            && (r.Some? ==>
                  var t := r.value;
                  var f := t.flat[v].addr;
                  && Inv(t) && Root in t.tables && t.brk == s.brk && t.regions == s.regions
                  && IsHeap(v) && v < s.brk
                  && f in s.owner && IsAvailable(s.owner[f])
                  && t.flat == s.flat[v := Backed(s.flat[v], f)]
                  && t.owner == s.owner[f := Backing(v)])
  {
    PfAllocTakesOne(s);
    PfAllocSound(s);
    assert VPath(v, 3) !in s.tables ==> s.flat[v] == ZERO by { assert Holds(FlatPart, s); }
    var r := PfAlloc(s);
    if r.Some? && PageFault(s, v).Some? {
      BackPageSound(r.value.1, v, r.value.0);
    }
  }

  lemma {:induction false} FaultTakesOne(s: State, v: nat)
    requires Inv(s) && PageFault(s, v).Some?
    ensures var t := PageFault(s, v).value; |t.next| == |t.regions| && Available(t) == Available(s) - 1
  {
    PfAllocTakesOne(s);
    PfAllocSound(s);
  }

  lemma {:induction false} UnbackSound(s: State, v: nat)
    requires Inv(s) && v in s.flat && VPath(v, 3) in s.tables && IsHeap(v) && s.flat[v].present
    ensures s.flat[v].addr in s.owner && s.owner[s.flat[v].addr] == Backing(v)
    ensures Inv(Freed(s, v))
  {
    OpenInv(s);
    var f := s.flat[v].addr;
    UnbackPage(s.flat, s.owner, v, Free(|s.free|));
    PushKeepsFree(s.free, s.owner, f);
    OtherOwnersKept(s, f, Free(|s.free|));
    CloseInv(Freed(s, v));
  }

  lemma {:induction false} GrowKnown(s: State, v: nat, k: nat)
    requires Inv(s) && k <= 3 && VPath(v, k) in s.tables
    ensures Grow(s, v, k) == Some(s)
  {
    if k > 0 {
      assert VPath(v, k - 1) in s.tables by { assert Holds(TreePart, s); }
      GrowKnown(s, v, k - 1);
    }
  }

  lemma {:induction false} HeapPathKnown(s: State, v: nat)
    requires Inv(s) && v in s.flat && s.flat[v].present
    ensures VPath(v, 3) in s.tables
  {
    assert Holds(FlatPart, s);
  }

  /** Freeing a present heap page returns exactly its frame to the free list. */
  lemma {:induction false} FreePageSound(s: State, v: nat)
    requires Inv(s) && v in s.flat && IsHeap(v) && s.flat[v].present
    ensures FreePage(s, v) == Some(Freed(s, v)) && Inv(Freed(s, v))
    ensures var f := s.flat[v].addr; f in s.owner && s.owner[f] == Backing(v)
  {
    HeapPathKnown(s, v);
    GrowKnown(s, v, 3);
    UnbackSound(s, v);
  }

  ghost predicate AllPresent(flat: map<nat, Entry>, v: nat, n: nat) {
    forall w: nat :: v <= w < v + n ==> w in flat && IsHeap(w) && flat[w].present
  }

  /** Each page of the range is backed or was never touched. */
  ghost predicate Clean(flat: map<nat, Entry>, v: nat, n: nat) {
    forall w: nat :: v <= w < v + n ==> w in flat && IsHeap(w) && (flat[w].present || flat[w].addr == 0)
  }

  /** A store to address 0 halts the machine. */
  lemma {:induction false} NullFaults(s: State)
    requires Inv(s)
    ensures 0 in s.flat && !s.flat[0].present && PageFault(s, 0) == None
  {
    assert Holds(HeapPart, s) && Holds(FlatPart, s);
  }

  /** The frames behind a range of pages, in page order. */
  function FramesOf(flat: map<nat, Entry>, v: nat, n: nat): (r: seq<nat>)
    requires forall w: nat :: v <= w < v + n ==> w in flat
    ensures |r| == n && forall i :: 0 <= i < n ==> r[i] == flat[v + i].addr
  {
    if n == 0 then [] else FramesOf(flat, v, n - 1) + [flat[v + n - 1].addr]
  }

  /** The frames of a range of pages. */
  ghost function FrameSet(flat: map<nat, Entry>, v: nat, n: nat): (r: set<nat>)
    ensures forall w: nat :: v <= w < v + n && w in flat ==> flat[w].addr in r
    ensures forall f :: f in r ==> exists w: nat :: v <= w < v + n && w in flat && flat[w].addr == f
  {
    set w: nat | v <= w < v + n && w in flat :: flat[w].addr
  }

  lemma {:induction false} FrameSetGrows(flat: map<nat, Entry>, v: nat, n: nat)
    requires v + n in flat
    ensures FrameSet(flat, v, n) + {flat[v + n].addr} == FrameSet(flat, v, n + 1)
    ensures FrameSet(flat, v, 0) == {}
  {
  }

  ghost predicate Unmapped(before: map<nat, Entry>, after: map<nat, Entry>, v: nat, n: nat) {
    && after.Keys == before.Keys
    && forall w :: w in before ==>
         after[w] == if v <= w < v + n then before[w].(present := false) else before[w]
  }

  lemma {:induction false} UnmappedStep(before: map<nat, Entry>, mid: map<nat, Entry>, v: nat, n: nat)
    requires Unmapped(before, mid, v, n) && v + n in before
    ensures mid[v + n] == before[v + n]
    ensures Unmapped(before, mid[v + n := mid[v + n].(present := false)], v, n + 1)
  {
  }

  /** The shape of the state after freeing `n` pages from `v`. */
  ghost predicate FreedRange(s: State, v: nat, n: nat, t: State)
    requires AllPresent(s.flat, v, n)
  {
    && Unmapped(s.flat, t.flat, v, n)
    && t.free == s.free + FramesOf(s.flat, v, n)
    && t.tables == s.tables && t.brk == s.brk && t.next == s.next && t.regions == s.regions
  }

  lemma {:induction false} FreedNone(s: State, v: nat)
    ensures FreedRange(s, v, 0, s)
  {
  }

  /** MMU_free_pages page by page: it unmaps exactly the pages of the range and stacks exactly
      their frames on the free list, in order. */
  lemma {:induction false} FreedOneMore(s: State, v: nat, n: nat, t: State)
    requires AllPresent(s.flat, v, n + 1) && FreedRange(s, v, n, t) && v + n in t.flat
    ensures FreedRange(s, v, n + 1, Freed(t, v + n))
  {
    UnmappedStep(s.flat, t.flat, v, n);
  }

  lemma {:induction false} NextClean(s: State, v: nat, n: nat, num: nat, t: State)
    requires AllPresent(s.flat, v, n) && FreedRange(s, v, n, t) && Clean(s.flat, v, num) && n < num
    ensures Clean(t.flat, v + n, 1) && t.flat[v + n] == s.flat[v + n]
    ensures !s.flat[v + n].present ==> !AllPresent(s.flat, v, num)
  {
  }
}
