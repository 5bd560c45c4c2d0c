/** Growing the table tree towards one page, and walking a range of pages. */
module PageWalk {
  import opened Options
  import opened PageTree
  import opened KernelMemory

  function LinkTable(s: State, p: Path, f: nat): State {
    s.(owner := s.owner[f := Table(p)], tables := s.tables[p := f])
  }

  /** A fresh zeroed table frame is linked in at `p`. */
  function AllocTable(s: State, p: Path): Option<State>
    requires |s.next| == |s.regions|
  {
    match PfAlloc(s)
    case None => None
    case Some((f, t)) => Some(LinkTable(t, p, f))
  }

  /** The loop of page_table_get_entry with allocation, down to depth `k`. */
  function Grow(s: State, v: nat, k: nat): (r: Option<State>)
    requires |s.next| == |s.regions| && k <= 3
    ensures r.Some? ==> |r.value.next| == |r.value.regions|
  {
    if k == 0 then Some(s)
    else
      match Grow(s, v, k - 1)
      case None => None
      case Some(t) => if VPath(v, k) in t.tables then Some(t) else AllocTable(t, VPath(v, k))
  }

  /** The two callbacks page_table_walk is called with. */
  datatype Callback = DirectMap | MarkAvailable

  function Apply(cb: Callback, v: nat, e: Entry): Entry {
    match cb
    case DirectMap => e.(present := true, readWrite := true, addr := v)
    case MarkAvailable => e.(available := 1)
  }

  function Leaf(s: State, v: nat): Entry {
    if v in s.flat then s.flat[v] else ZERO
  }

  function SetLeaf(s: State, v: nat, e: Entry): State {
    s.(flat := s.flat[v := e])
  }

  /** One iteration of page_table_walk. */
  function Visit(s: State, v: nat, cb: Callback): (r: Option<State>)
    requires |s.next| == |s.regions|
    ensures r.Some? ==> |r.value.next| == |r.value.regions|
  {
    match Grow(s, v, 3)
    case None => None
    case Some(t) => Some(SetLeaf(t, v, Apply(cb, v, Leaf(t, v))))
  }

  /** page_table_walk over the pages [lo, hi). */
  function Walk(s: State, lo: nat, hi: nat, cb: Callback): (r: Option<State>)
    requires |s.next| == |s.regions|
    ensures r.Some? ==> |r.value.next| == |r.value.regions|
    decreases hi
  {
    if hi <= lo then Some(s)
    else
      match Walk(s, lo, hi - 1, cb)
      case None => None
      case Some(t) => Visit(t, hi - 1, cb)
  }

  /** The tables on the way to page `v`, root excluded. */
  ghost function PathsTo(v: nat, k: nat): set<Path>
    requires k <= 3
  {
    if k == 0 then {} else PathsTo(v, k - 1) + {VPath(v, k)}
  }

  ghost function Touched(lo: nat, hi: nat): set<Path>
    decreases hi
  {
    if hi <= lo then {} else Touched(lo, hi - 1) + PathsTo(hi - 1, 3)
  }

  /** How many tables on the way to page `v` are not among `have`. */
  ghost function Missing(have: set<Path>, v: nat, k: nat): nat
    requires k <= 3
  {
    if k == 0 then 0 else Missing(have, v, k - 1) + (if VPath(v, k) in have then 0 else 1)
  }

  /** How many tables a walk of [lo, hi) adds to `have`. */
  ghost function Needed(have: set<Path>, lo: nat, hi: nat): nat
    decreases hi
  {
    if hi <= lo then 0
    else Needed(have, lo, hi - 1) + Missing(have + Touched(lo, hi - 1), hi - 1, 3)
  }

  // ------------------------------------------------------------------ growing

  /** Where a table may be linked. */
  predicate IsSlot(s: State, p: Path) {
    && p !in s.tables && Depth(p) <= 3
    && (p.Sub? ==> p.parent in s.tables && p.idx < LEVEL_SIZE)
  }

  lemma {:induction false} TableLinked(tables: map<Path, nat>, owner: Owners, p: Path, f: nat)
    requires TablesOk(tables, owner) && p !in tables && f in owner && owner[f] == Held
    ensures TablesOk(tables[p := f], owner[f := Table(p)])
  {
  }

  lemma {:induction false} LinkTableSound(s: State, p: Path, f: nat)
    requires Inv(s) && IsSlot(s, p) && f in s.owner && s.owner[f] == Held
    ensures Inv(LinkTable(s, p, f))
  {
    OpenInv(s);
    OtherOwnersKept(s, f, Table(p));
    TableLinked(s.tables, s.owner, p, f);
    CloseInv(LinkTable(s, p, f));
  }

  ghost predicate OwnersKept(before: Owners, after: Owners) {
    && after.Keys == before.Keys
    && forall f :: f in before && !IsAvailable(before[f]) ==> after[f] == before[f]
  }

  ghost predicate TablesKept(before: map<Path, nat>, after: map<Path, nat>) {
    forall p :: p in before ==> p in after && after[p] == before[p]
  }

  /** What growing the tree may change: tables are added, each on a frame that was nobody's;
      no other frame changes hands. */
  ghost predicate Grew(s: State, t: State) {
    && t.regions == s.regions && t.brk == s.brk && |t.next| == |s.next|
    && OwnersKept(s.owner, t.owner) && TablesKept(s.tables, t.tables)
  }

  /** A new table keeps the invariant: its frame was nobody's and now belongs to the tree. */
  lemma {:induction false} AllocTableSound(s: State, p: Path)
    requires Inv(s) && IsSlot(s, p)
    ensures var r := AllocTable(s, p);
            && (r.Some? <==> Available(s) > 0)
            && (r.Some? ==> Inv(r.value) && Grew(s, r.value) && Available(r.value) == Available(s) - 1
                            && r.value.tables.Keys == s.tables.Keys + {p})
  {
    PfAllocTakesOne(s);
    PfAllocSound(s);
    var r := PfAlloc(s);
    if r.Some? {
      var (f, t) := r.value;
      LinkTableSound(t, p, f);
    }
  }

  lemma {:induction false} GrewTwice(s: State, t: State, u: State)
    requires Grew(s, t) && Grew(t, u)
    ensures Grew(s, u)
  {
  }

  /** Growing leaves every leaf entry alone. */
  lemma {:induction false} GrowLeaves(s: State, v: nat, k: nat)
    requires |s.next| == |s.regions| && k <= 3
    ensures var r := Grow(s, v, k); r.Some? ==> r.value.flat == s.flat
  {
    if k > 0 {
      GrowLeaves(s, v, k - 1);
    }
  }

  /** Walking towards a page links exactly the tables missing on the way. */
  lemma {:induction false} GrowSound(s: State, v: nat, k: nat)
    requires Inv(s) && Root in s.tables && k <= 3
    ensures var r := Grow(s, v, k);
            r.Some? ==>
              && Inv(r.value) && Grew(s, r.value)
              && r.value.tables.Keys == s.tables.Keys + PathsTo(v, k)
              && VPath(v, k) in r.value.tables
  {
    if k > 0 {
      GrowSound(s, v, k - 1);
      var r := Grow(s, v, k - 1);
      if r.Some? && VPath(v, k) !in r.value.tables {
        AllocTableSound(r.value, VPath(v, k));
        if Grow(s, v, k).Some? {
          GrewTwice(s, r.value, Grow(s, v, k).value);
        }
      }
    }
  }

  /** It takes one frame for each missing table, and fails exactly when fewer are left. */
  lemma {:induction false} GrowNeeds(s: State, v: nat, k: nat)
    requires Inv(s) && Root in s.tables && k <= 3
    ensures var r := Grow(s, v, k);
            var m := Missing(s.tables.Keys, v, k);
            && (r.Some? <==> m <= Available(s))
            && (r.Some? ==> Available(r.value) == Available(s) - m)
  {
    if k == 0 {
      PfAllocTakesOne(s);
    } else {
      GrowNeeds(s, v, k - 1);
      var r := Grow(s, v, k - 1);
      if r.Some? {
        GrowSound(s, v, k - 1);
        DeeperPathIsNew(v, k, k - 1);
        if VPath(v, k) !in r.value.tables {
          AllocTableSound(r.value, VPath(v, k));
        } else {
          PfAllocTakesOne(r.value);
        }
      }
    }
  }

  lemma {:induction false} GrowNone(s: State, v: nat, k: nat)
    requires |s.next| == |s.regions| && k <= 3 && Grow(s, v, k) == None
    ensures Grow(s, v, 3) == None
    decreases 3 - k
  {
    if k < 3 {
      GrowNone(s, v, k + 1);
    }
  }

  lemma {:induction false} DeeperPathIsNew(v: nat, k: nat, j: nat)
    requires j < k <= 3
    ensures VPath(v, k) !in PathsTo(v, j)
  {
    if j > 0 {
      DeeperPathIsNew(v, k, j - 1);
    }
  }

  // ------------------------------------------------------------------ walking

  /** Which entry a page's leaf may be changed to without breaking the invariant: page 0 has none;
      other pages below the heap are mapped to the frame of their number; heap pages below the break
      are marked available. */
  predicate SafeLeaf(v: nat, old_: Entry, new_: Entry, brk: nat) {
    if v < HEAP_BASE then v > 0 && new_ == Mapping(v)
    else v < brk && new_ == old_.(available := 1)
  }

  lemma {:induction false} LeafBacking(flat: map<nat, Entry>, owner: Owners, brk: nat, v: nat, e: Entry)
    requires BackingOk(flat, owner) && v in flat && SafeLeaf(v, flat[v], e, brk)
    ensures BackingOk(flat[v := e], owner)
  {
    var flat' := flat[v := e];
    forall f | f in owner && owner[f].Backing?
      ensures BackedBy(flat', owner[f].page, f)
    {
      assert BackedBy(flat, owner[f].page, f);
    }
  }

  lemma {:induction false} LeafHeap(flat: map<nat, Entry>, brk: nat, v: nat, e: Entry)
    requires HeapOk(flat, brk) && v in flat && SafeLeaf(v, flat[v], e, brk)
    ensures HeapOk(flat[v := e], brk)
  {
  }

  /** A change of leaf entries alone. */
  lemma {:induction false} OtherLeaves(s: State, flat: map<nat, Entry>)
    requires Inv(s) && FlatOk(s.tables, flat) && BackingOk(flat, s.owner) && HeapOk(flat, s.brk)
    ensures Inv(s.(flat := flat))
  {
    assert Holds(FreePart, s) && Holds(TailPart, s) && Holds(TablesPart, s) && Holds(TreePart, s);
    CloseInv(s.(flat := flat));
  }

  lemma {:induction false} SetLeafSound(s: State, v: nat, e: Entry)
    requires Inv(s) && v in s.flat && VPath(v, 3) in s.tables && SafeLeaf(v, s.flat[v], e, s.brk)
    ensures Inv(SetLeaf(s, v, e))
  {
    assert Holds(FlatPart, s) && Holds(BackingPart, s) && Holds(HeapPart, s);
    LeafBacking(s.flat, s.owner, s.brk, v, e);
    LeafHeap(s.flat, s.brk, v, e);
    OtherLeaves(s, s.flat[v := e]);
  }

  ghost predicate SafeRange(cb: Callback, lo: nat, hi: nat, flat: map<nat, Entry>, brk: nat) {
    forall v: nat :: lo <= v < hi ==> v in flat && SafeLeaf(v, flat[v], Apply(cb, v, flat[v]), brk)
  }

  /** Every page of the range had the callback applied to it once, and no other page changed. */
  ghost predicate Walked(before: map<nat, Entry>, after: map<nat, Entry>, lo: nat, hi: nat, cb: Callback) {
    && after.Keys == before.Keys
    && forall v :: v in before ==> after[v] == if lo <= v < hi then Apply(cb, v, before[v]) else before[v]
  }

  lemma {:induction false} VisitLeaf(s: State, v: nat, cb: Callback)
    requires |s.next| == |s.regions|
    ensures var r := Visit(s, v, cb);
            r.Some? ==> r.value.flat == s.flat[v := Apply(cb, v, Leaf(s, v))]
  {
    GrowLeaves(s, v, 3);
  }

  lemma {:induction false} VisitSound(s: State, v: nat, cb: Callback)
    requires Inv(s) && Root in s.tables && v in s.flat && SafeLeaf(v, s.flat[v], Apply(cb, v, s.flat[v]), s.brk)
    ensures var r := Visit(s, v, cb);
            && (r.Some? <==> Missing(s.tables.Keys, v, 3) <= Available(s))
            && (r.Some? ==> Inv(r.value) && Grew(s, r.value)
                            && r.value.tables.Keys == s.tables.Keys + PathsTo(v, 3)
                            && Available(r.value) == Available(s) - Missing(s.tables.Keys, v, 3))
  {
    GrowLeaves(s, v, 3);
    GrowSound(s, v, 3);
    GrowNeeds(s, v, 3);
    var g := Grow(s, v, 3);
    if g.Some? {
      SetLeafSound(g.value, v, Apply(cb, v, s.flat[v]));
    }
  }

  /** The leaf entries after the callback ran over [lo, hi), page by page. */
  function LeavesAfter(flat: map<nat, Entry>, lo: nat, hi: nat, cb: Callback): map<nat, Entry>
    decreases hi
  {
    if hi <= lo then flat
    else
      var before := LeavesAfter(flat, lo, hi - 1, cb);
      before[hi - 1 := Apply(cb, hi - 1, if hi - 1 in before then before[hi - 1] else ZERO)]
  }

  lemma {:induction false} WalkFlat(s: State, lo: nat, hi: nat, cb: Callback)
    requires |s.next| == |s.regions|
    ensures var r := Walk(s, lo, hi, cb);
            r.Some? ==> r.value.flat == LeavesAfter(s.flat, lo, hi, cb)
    decreases hi
  {
    if hi > lo {
      WalkFlat(s, lo, hi - 1, cb);
      var r := Walk(s, lo, hi - 1, cb);
      if r.Some? {
        VisitLeaf(r.value, hi - 1, cb);
      }
    }
  }

  lemma {:induction false} LeavesWalked(flat: map<nat, Entry>, lo: nat, hi: nat, cb: Callback)
    requires forall v :: lo <= v < hi ==> v in flat
    ensures Walked(flat, LeavesAfter(flat, lo, hi, cb), lo, hi, cb)
    decreases hi
  {
    if hi > lo {
      LeavesWalked(flat, lo, hi - 1, cb);
    }
  }

  /** page_table_walk: the callback is applied exactly once per page of the range and mappings
      outside it are unchanged. */
  lemma {:induction false} WalkLeaves(s: State, lo: nat, hi: nat, cb: Callback)
    requires |s.next| == |s.regions| && forall v :: lo <= v < hi ==> v in s.flat
    ensures var r := Walk(s, lo, hi, cb);
            r.Some? ==> Walked(s.flat, r.value.flat, lo, hi, cb)
  {
    WalkFlat(s, lo, hi, cb);
    LeavesWalked(s.flat, lo, hi, cb);
  }

  /** A walk over [lo, w) leaves page `w` as it was. */
  lemma {:induction false} LeafAhead(s: State, lo: nat, w: nat, cb: Callback)
    requires |s.next| == |s.regions| && (forall v :: lo <= v < w ==> v in s.flat) && w in s.flat
    ensures var r := Walk(s, lo, w, cb); r.Some? ==> w in r.value.flat && r.value.flat[w] == s.flat[w]
  {
    WalkLeaves(s, lo, w, cb);
  }

  /** One more page after a walk over [lo, w). */
  lemma {:induction false} VisitAfter(s: State, lo: nat, w: nat, cb: Callback, t: State)
    requires lo <= w && Root in s.tables && Inv(t) && Grew(s, t) && |s.next| == |s.regions|
    requires t.tables.Keys == s.tables.Keys + Touched(lo, w)
    requires Available(t) == Available(s) - Needed(s.tables.Keys, lo, w)
    requires w in t.flat && SafeLeaf(w, t.flat[w], Apply(cb, w, t.flat[w]), t.brk)
    ensures var r := Visit(t, w, cb);
            && (r.Some? <==> Needed(s.tables.Keys, lo, w + 1) <= Available(s))
            && (r.Some? ==> Inv(r.value) && Grew(s, r.value)
                            && r.value.tables.Keys == s.tables.Keys + Touched(lo, w + 1)
                            && Available(r.value) == Available(s) - Needed(s.tables.Keys, lo, w + 1))
  {
    VisitSound(t, w, cb);
    UnionAssoc(s.tables.Keys, Touched(lo, w), PathsTo(w, 3));
    if Visit(t, w, cb).Some? {
      GrewTwice(s, t, Visit(t, w, cb).value);
    }
  }

  /** A walk keeps the invariant and adds exactly the touched tables. It halts for want of
      memory exactly when fewer frames are left than the tables it would add. */
  lemma {:induction false} WalkSound(s: State, lo: nat, hi: nat, cb: Callback)
    requires Inv(s) && Root in s.tables && SafeRange(cb, lo, hi, s.flat, s.brk)
    ensures var r := Walk(s, lo, hi, cb);
            && (r.Some? <==> Needed(s.tables.Keys, lo, hi) <= Available(s))
            && (r.Some? ==> Inv(r.value) && Grew(s, r.value)
                            && r.value.tables.Keys == s.tables.Keys + Touched(lo, hi)
                            && Available(r.value) == Available(s) - Needed(s.tables.Keys, lo, hi))
    decreases hi
  {
    if hi <= lo {
      PfAllocTakesOne(s);
      assert s.tables.Keys + Touched(lo, hi) == s.tables.Keys;
    } else {
      var w := hi - 1;
      WalkSound(s, lo, w, cb);
      var r := Walk(s, lo, w, cb);
      if r.Some? {
        var t := r.value;
        LeafAhead(s, lo, w, cb);
        VisitAfter(s, lo, w, cb, t);
      }
    }
  }

  lemma {:induction false} UnionAssoc<T>(a: set<T>, b: set<T>, c: set<T>)
    ensures a + b + c == a + (b + c)
  {
  }

  lemma {:induction false} WalkNone(s: State, lo: nat, mid: nat, hi: nat, cb: Callback)
    requires |s.next| == |s.regions| && lo <= mid <= hi && Walk(s, lo, mid, cb) == None
    ensures Walk(s, lo, hi, cb) == None
    decreases hi
  {
    if mid < hi {
      WalkNone(s, lo, mid, hi - 1, cb);
    }
  }

  lemma {:induction false} WalkOneMore(s: State, lo: nat, w: nat, hi: nat, cb: Callback, t: State)
    requires |s.next| == |s.regions| && lo <= w < hi && Walk(s, lo, w, cb) == Some(t)
    ensures Walk(s, lo, w + 1, cb) == Visit(t, w, cb)
    ensures Visit(t, w, cb) == None ==> Walk(s, lo, hi, cb) == None
  {
    if Visit(t, w, cb) == None {
      WalkNone(s, lo, w + 1, hi, cb);
    }
  }

  /** Midway through a walk, the next page is still as it was. */
  lemma {:induction false} WalkMidway(s: State, lo: nat, w: nat, hi: nat, cb: Callback, t: State)
    requires Inv(s) && Root in s.tables && SafeRange(cb, lo, hi, s.flat, s.brk) && lo <= w < hi
    requires Walk(s, lo, w, cb) == Some(t)
    ensures Root in t.tables && t.tables[Root] == s.tables[Root] && t.brk == s.brk
    ensures w in t.flat && SafeLeaf(w, t.flat[w], Apply(cb, w, t.flat[w]), t.brk)
  {
    WalkSound(s, lo, w, cb);
    WalkLeaves(s, lo, w, cb);
  }
}
