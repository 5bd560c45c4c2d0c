/** The abstract state of physical frames, page tables and the lazily backed heap, and the
    step each kernel operation takes on it. Every frame of every region has one owner. */
module KernelMemory {
  import opened Options
  import opened PageTree

  /** Region bounds counted in frames (all region pointers are page aligned). */
  datatype Bounds = Bounds(start: nat, end: nat)

  datatype Owner =
    | Free(pos: nat)       // on the free list, above `pos` older frames
    | Tail(region: nat)    // never handed out: at or beyond the region's bump pointer
    | Table(path: Path)    // a page table
    | Backing(page: nat)   // backs one heap page
    | Held                 // returned by MMU_pf_alloc to a direct caller

  type Owners = map<nat, Owner>

  /** The components, over their types R, L, O, T and F (fixed in State below). */
  datatype StateOf<R, L, O, T, F> = State(
    regions: R,
    next: L,     // bump pointer of each region
    free: L,     // free list, head last
    owner: O,
    tables: T,   // the frame of each table of the tree
    flat: F,     // the leaf entry of every page below 2^48
    brk: nat)    // program break, in pages

  type State = StateOf<seq<Bounds>, seq<nat>, Owners, map<Path, nat>, map<nat, Entry>>

  // ---------------------------------------------------------------- invariant

  ghost predicate RegionsOk(rs: seq<Bounds>) {
    && (forall i :: 0 <= i < |rs| ==> 1 <= rs[i].start <= rs[i].end <= HEAP_BASE)
    && (forall i, j :: 0 <= i < j < |rs| ==> rs[i].end <= rs[j].start)
  }

  predicate Covered(rs: seq<Bounds>, f: nat) {
    exists i :: 0 <= i < |rs| && rs[i].start <= f < rs[i].end
  }

  ghost predicate DomainOk(rs: seq<Bounds>, frames: set<nat>) {
    forall f: nat :: f in frames <==> Covered(rs, f)
  }

  ghost predicate FreeOk(free: seq<nat>, owner: Owners) {
    && (forall k :: 0 <= k < |free| ==> free[k] in owner && owner[free[k]] == Free(k))
    && (forall f :: f in owner && owner[f].Free? ==>
          owner[f].pos < |free| && free[owner[f].pos] == f)
  }

  predicate InTail(rs: seq<Bounds>, next: seq<nat>, i: nat, f: nat) {
    i < |next| && i < |rs| && next[i] <= f < rs[i].end
  }

  ghost predicate TailOk(rs: seq<Bounds>, next: seq<nat>, owner: Owners) {
    && |next| == |rs|
    && (forall i :: 0 <= i < |next| ==> rs[i].start <= next[i] <= rs[i].end)
    && (forall i: nat, f: nat :: InTail(rs, next, i, f) ==> f in owner && owner[f] == Tail(i))
    && (forall f :: f in owner && owner[f].Tail? ==> InTail(rs, next, owner[f].region, f))
  }

  ghost predicate TablesOk(tables: map<Path, nat>, owner: Owners) {
    && (forall p :: p in tables ==> tables[p] in owner && owner[tables[p]] == Table(p))
    && (forall f :: f in owner && owner[f].Table? ==>
          owner[f].path in tables && tables[owner[f].path] == f)
  }

  /** The tables form a tree under the root: closed under parents, three levels below it. */
  ghost predicate TreeOk(tables: map<Path, nat>) {
    forall p :: p in tables ==>
      && Depth(p) <= 3
      && (p.Sub? ==> p.parent in tables && p.idx < LEVEL_SIZE)
  }

  predicate IsHeap(v: nat) {
    HEAP_BASE <= v < NUM_PAGES
  }

  ghost predicate FlatOk(tables: map<Path, nat>, flat: map<nat, Entry>) {
    && (forall v: nat :: v in flat <==> v < NUM_PAGES)
    && (forall v: nat :: v in flat && VPath(v, 3) !in tables ==> flat[v] == ZERO)
  }

  predicate BackedBy(flat: map<nat, Entry>, v: nat, f: nat) {
    v in flat && IsHeap(v) && flat[v].present && flat[v].addr == f
  }

  ghost predicate BackingOk(flat: map<nat, Entry>, owner: Owners) {
    && (forall v: nat :: v in flat && IsHeap(v) && flat[v].present ==>
          flat[v].addr in owner && owner[flat[v].addr] == Backing(v))
    && (forall f :: f in owner && owner[f].Backing? ==> BackedBy(flat, owner[f].page, f))
  }

  /** What the entry of a heap page can be: empty; or marked available, never touched; or backed; or
      freed, with the frame it had. */
  predicate HeapEntry(e: Entry) {
    || e == ZERO
    || (e.low == 0 && e.high == 0 && e.available == 1 && (e.present ==> e.readWrite)
        && (!e.readWrite ==> e.addr == 0))
  }

  /** Only heap pages below the break were ever marked available; below the heap a page is empty or
      mapped to the frame of its number, and page 0 is empty. */
  ghost predicate HeapOk(flat: map<nat, Entry>, brk: nat) {
    && HEAP_BASE <= brk <= NUM_PAGES
    && (forall v: nat :: v in flat && brk <= v ==> flat[v] == ZERO)
    && (forall v: nat :: v in flat && v < HEAP_BASE ==> flat[v] == ZERO || (v > 0 && flat[v] == Mapping(v)))
    && (forall v: nat :: v in flat && IsHeap(v) ==> HeapEntry(flat[v]))
  }

  /** What no step changes: the owned frames are those of the regions. */
  ghost predicate Static(s: State) {
    RegionsOk(s.regions) && DomainOk(s.regions, s.owner.Keys)
  }

  datatype Part = FreePart | TailPart | TablesPart | TreePart | FlatPart | BackingPart | HeapPart

  ghost predicate Holds(part: Part, s: State) {
    match part
    case FreePart => FreeOk(s.free, s.owner)
    case TailPart => TailOk(s.regions, s.next, s.owner)
    case TablesPart => TablesOk(s.tables, s.owner)
    case TreePart => TreeOk(s.tables)
    case FlatPart => FlatOk(s.tables, s.flat)
    case BackingPart => BackingOk(s.flat, s.owner)
    case HeapPart => HeapOk(s.flat, s.brk)
  }

  /** The invariant of every run. Its parts are opened one at a time in the proofs. */
  ghost predicate Inv(s: State) {
    |s.next| == |s.regions| && forall part: Part :: Holds(part, s)
  }

  lemma {:induction false} CloseInv(s: State)
    requires FreeOk(s.free, s.owner) && TailOk(s.regions, s.next, s.owner) && TablesOk(s.tables, s.owner)
    requires TreeOk(s.tables) && FlatOk(s.tables, s.flat) && BackingOk(s.flat, s.owner) && HeapOk(s.flat, s.brk)
    ensures Inv(s)
  {
  }

  lemma {:induction false} OpenInv(s: State)
    requires Inv(s)
    ensures FreeOk(s.free, s.owner) && TailOk(s.regions, s.next, s.owner) && TablesOk(s.tables, s.owner)
    ensures TreeOk(s.tables) && FlatOk(s.tables, s.flat) && BackingOk(s.flat, s.owner) && HeapOk(s.flat, s.brk)
  {
    assert Holds(FreePart, s) && Holds(TailPart, s) && Holds(TablesPart, s) && Holds(TreePart, s)
        && Holds(FlatPart, s) && Holds(BackingPart, s) && Holds(HeapPart, s);
  }

  // ------------------------------------------------------------------- frames

  /** The first region, from index `i` on, whose bump pointer has not reached its end. */
  function FirstTail(rs: seq<Bounds>, next: seq<nat>, i: nat): (k: nat)
    requires |next| == |rs| && i <= |rs|
    ensures i <= k <= |rs|
    ensures forall m :: i <= m < k ==> next[m] >= rs[m].end
    ensures k < |rs| ==> next[k] < rs[k].end
    decreases |rs| - i
  {
    if i == |rs| || next[i] < rs[i].end then i else FirstTail(rs, next, i + 1)
  }

  /** MMU_pf_alloc; None when out of memory. The frame is held by the caller. */
  function PfAlloc(s: State): Option<(nat, State)>
    requires |s.next| == |s.regions|
  {
    if s.free != [] then
      var f := s.free[|s.free| - 1];
      Some((f, s.(free := s.free[..|s.free| - 1], owner := s.owner[f := Held])))
    else
      var i := FirstTail(s.regions, s.next, 0);
      if i < |s.next| then
        var f := s.next[i];
        Some((f, s.(next := s.next[i := f + 1], owner := s.owner[f := Held])))
      else None
  }

  /** MMU_pf_free. */
  function PfFree(s: State, f: nat): State {
    s.(free := s.free + [f], owner := s.owner[f := Free(|s.free|)])
  }

  /** A frame still to be handed out. */
  predicate IsAvailable(o: Owner) {
    o.Free? || o.Tail?
  }

  /** What an owner change at one frame must respect to leave each part of the invariant alone. */
  lemma {:induction false} OtherOwnersKept(s: State, f: nat, o: Owner)
    requires f in s.owner
    ensures FreeOk(s.free, s.owner) && !s.owner[f].Free? && !o.Free? ==> FreeOk(s.free, s.owner[f := o])
    ensures TailOk(s.regions, s.next, s.owner) && !s.owner[f].Tail? && !o.Tail? ==>
              TailOk(s.regions, s.next, s.owner[f := o])
    ensures TablesOk(s.tables, s.owner) && !s.owner[f].Table? && !o.Table? ==> TablesOk(s.tables, s.owner[f := o])
    ensures BackingOk(s.flat, s.owner) && !s.owner[f].Backing? && !o.Backing? ==> BackingOk(s.flat, s.owner[f := o])
    ensures s.owner[f := o].Keys == s.owner.Keys
  {
  }

  lemma {:induction false} PopKeepsFree(free: seq<nat>, owner: Owners)
    requires FreeOk(free, owner) && free != []
    ensures FreeOk(free[..|free| - 1], owner[free[|free| - 1] := Held])
  {
  }

  lemma {:induction false} PushKeepsFree(free: seq<nat>, owner: Owners, f: nat)
    requires FreeOk(free, owner) && f in owner && !owner[f].Free?
    ensures FreeOk(free + [f], owner[f := Free(|free|)])
  {
  }

  lemma {:induction false} BumpKeepsTails(rs: seq<Bounds>, next: seq<nat>, owner: Owners, i: nat)
    requires TailOk(rs, next, owner) && i < |next| && next[i] < rs[i].end
    ensures next[i] in owner && owner[next[i]] == Tail(i)
    ensures TailOk(rs, next[i := next[i] + 1], owner[next[i] := Held])
  {
    var f, next', owner' := next[i], next[i := next[i] + 1], owner[next[i] := Held];
    assert InTail(rs, next, i, f);
    forall j: nat, g: nat | InTail(rs, next', j, g)
      ensures g in owner' && owner'[g] == Tail(j)
    {
      assert InTail(rs, next, j, g);
    }
    forall g | g in owner' && owner'[g].Tail?
      ensures InTail(rs, next', owner'[g].region, g)
    {
      assert InTail(rs, next, owner[g].region, g);
    }
  }

  /** The frame `f` goes from nobody to the caller of MMU_pf_alloc. */
  ghost predicate Took(s: State, f: nat, t: State) {
    && f in s.owner && IsAvailable(s.owner[f])
    && t == s.(free := t.free, next := t.next, owner := s.owner[f := Held])
    && |t.next| == |t.regions| == |s.next|
  }

  lemma {:induction false} PfAllocTakes(s: State)
    requires FreeOk(s.free, s.owner) && TailOk(s.regions, s.next, s.owner)
    ensures var r := PfAlloc(s);
            r.Some? ==>
              var (f, t) := r.value;
              Took(s, f, t) && FreeOk(t.free, t.owner) && TailOk(t.regions, t.next, t.owner)
  {
    if s.free != [] {
      PopKeepsFree(s.free, s.owner);
      OtherOwnersKept(s, s.free[|s.free| - 1], Held);
    } else {
      var i := FirstTail(s.regions, s.next, 0);
      if i < |s.next| {
        BumpKeepsTails(s.regions, s.next, s.owner, i);
        OtherOwnersKept(s, s.next[i], Held);
      }
    }
  }

  /** The frame MMU_pf_alloc returns was nobody's, and afterwards it is the caller's alone. */
  lemma {:induction false} PfAllocSound(s: State)
    requires Inv(s)
    ensures var r := PfAlloc(s);
            r.Some? ==> Took(s, r.value.0, r.value.1) && Inv(r.value.1)
  {
    OpenInv(s);
    PfAllocTakes(s);
    var r := PfAlloc(s);
    if r.Some? {
      OtherOwnersKept(s, r.value.0, Held);
      CloseInv(r.value.1);
    }
  }

  lemma {:induction false} PfFreeSound(s: State, f: nat)
    requires Inv(s) && f in s.owner && s.owner[f] == Held
    ensures Inv(PfFree(s, f))
  {
    OpenInv(s);
    PushKeepsFree(s.free, s.owner, f);
    OtherOwnersKept(s, f, Free(|s.free|));
    CloseInv(PfFree(s, f));
  }

  /** The frame freed last is the first to be handed out again, and then everything is as before it
      was freed. */
  lemma {:induction false} FreedFirst(s: State, f: nat)
    requires |s.next| == |s.regions| && f in s.owner && s.owner[f] == Held
    ensures PfAlloc(PfFree(s, f)) == Some((f, s))
  {
    assert (s.free + [f])[..|s.free|] == s.free;
    assert s.owner[f := Free(|s.free|)][f := Held] == s.owner;
  }

  /** While a frame is free no region is touched; otherwise the frame handed out is the lowest one
      that never was, and every other one stays. */
  lemma {:induction false} PfAllocOrder(s: State)
    requires Inv(s) && RegionsOk(s.regions) && PfAlloc(s).Some?
    ensures var (f, t) := PfAlloc(s).value;
            if s.free != [] then f in s.free && t.next == s.next && s.free == t.free + [f]
            else
              && t.free == [] && (exists i: nat :: InTail(s.regions, s.next, i, f))
              && (forall j: nat, g: nat :: InTail(s.regions, s.next, j, g) ==> f <= g)
              && forall j: nat, g: nat :: InTail(t.regions, t.next, j, g) <==> InTail(s.regions, s.next, j, g) && g != f
  {
    assert Holds(TailPart, s);
    if s.free == [] {
      var i, f := FirstTail(s.regions, s.next, 0), PfAlloc(s).value.0;
      assert InTail(s.regions, s.next, i, f);
      forall j: nat, g: nat | InTail(s.regions, s.next, j, g)
        ensures f <= g && (j != i ==> g != f)
      {
        assert j >= i;
        if j > i {
          assert s.regions[i].end <= s.regions[j].start;
        }
      }
    }
  }

  // -------------------------------------------------------------- free frames

  function TailFrames(rs: seq<Bounds>, next: seq<nat>): (n: int)
    requires |next| == |rs|
  {
    if rs == [] then 0
    else TailFrames(rs[..|rs| - 1], next[..|rs| - 1]) + (rs[|rs| - 1].end - next[|rs| - 1])
  }

  /** Frames MMU_pf_alloc can still return. */
  function Available(s: State): int
    requires |s.next| == |s.regions|
  {
    |s.free| + TailFrames(s.regions, s.next)
  }

  lemma {:induction false} TailFramesBump(rs: seq<Bounds>, next: seq<nat>, i: nat)
    requires |next| == |rs| && i < |rs|
    ensures TailFrames(rs, next[i := next[i] + 1]) == TailFrames(rs, next) - 1
  {
    var n := |rs| - 1;
    var next' := next[i := next[i] + 1];
    if i == n {
      assert next'[..n] == next[..n];
    } else {
      assert next'[..n] == next[..n][i := next[i] + 1];
      TailFramesBump(rs[..n], next[..n], i);
    }
  }

  lemma {:induction false} NoTailFrames(rs: seq<Bounds>, next: seq<nat>)
    requires |next| == |rs| && forall i :: 0 <= i < |rs| ==> next[i] <= rs[i].end
    ensures TailFrames(rs, next) >= 0
    ensures TailFrames(rs, next) == 0 <==> forall i :: 0 <= i < |rs| ==> next[i] == rs[i].end
  {
    if rs != [] {
      var n := |rs| - 1;
      NoTailFrames(rs[..n], next[..n]);
      assert forall i :: 0 <= i < n ==> next[i] == next[..n][i] && rs[i] == rs[..n][i];
      if TailFrames(rs, next) == 0 {
        assert forall i :: 0 <= i < n ==> next[..n][i] == rs[..n][i].end;
      }
    }
  }

  /** Allocation fails exactly when no frame is left, and otherwise takes one. */
  lemma {:induction false} PfAllocTakesOne(s: State)
    requires Inv(s)
    ensures PfAlloc(s).Some? <==> Available(s) > 0
    ensures PfAlloc(s).Some? ==> Available(PfAlloc(s).value.1) == Available(s) - 1
    ensures Available(s) >= 0
  {
    assert Holds(TailPart, s);
    NoTailFrames(s.regions, s.next);
    if s.free == [] {
      var i := FirstTail(s.regions, s.next, 0);
      if i < |s.next| {
        TailFramesBump(s.regions, s.next, i);
      }
    }
  }
}
