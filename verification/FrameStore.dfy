/** How the abstract state is stored in the frames themselves: free-list links in the first word
    of each free frame, page table entries in the 512 words of each table frame. */
module FrameStore {
  import opened Options
  import opened Collections
  import opened PageTree
  import opened KernelMemory
  import opened PageWalk
  import opened HeapPaging

  type Memory = map<nat, seq<Entry>>

  ghost predicate WordsOk(mem: Memory, owner: Owners) {
    && mem.Keys == owner.Keys && 0 !in mem
    && forall f :: f in mem ==> |mem[f]| == LEVEL_SIZE
  }

  /** The frame on top of the free list, or NULL. */
  function Head(free: seq<nat>): nat {
    if free == [] then 0 else free[|free| - 1]
  }

  /** The first word of every free frame points to the next one. */
  ghost predicate LinksOk(free: seq<nat>, mem: Memory) {
    forall k :: 0 <= k < |free| ==>
      free[k] in mem && |mem[free[k]]| > 0 && mem[free[k]][0] == Link(Head(free[..k]))
  }

  ghost predicate InMemory(tables: map<Path, nat>, mem: Memory) {
    forall p :: p in tables ==> tables[p] in mem && |mem[tables[p]]| == LEVEL_SIZE
  }

  /** Entry `e` is the slot of the table named `p`: nothing but its frame, present and writable. */
  predicate PointsTo(tables: map<Path, nat>, e: Entry, p: Path) {
    e == if p in tables then Mapping(tables[p]) else ZERO
  }

  /** An entry above the leaf level is present exactly when the table below it exists, and then
      holds that table's frame. */
  ghost predicate InnerOk(tables: map<Path, nat>, mem: Memory)
    requires InMemory(tables, mem)
  {
    forall p, i: nat :: p in tables && i < LEVEL_SIZE && Depth(p) < 3 ==>
      PointsTo(tables, mem[tables[p]][i], Sub(p, i))
  }

  ghost predicate LeavesOk(tables: map<Path, nat>, flat: map<nat, Entry>, mem: Memory)
    requires InMemory(tables, mem)
  {
    forall v: nat :: v in flat && VPath(v, 3) in tables ==>
      mem[tables[VPath(v, 3)]][Index(v, 0)] == flat[v]
  }

  ghost predicate AreWords(once: Once, mem: Memory) {
    match once
    case Only => forall f :: f in mem ==> f < HEAP_BASE && forall i :: 0 <= i < |mem[f]| ==> mem[f][i].Fits()
  }

  /** Every frame number is that of a region's frame, and every word fits 64 bits. Opened where
      that is used. */
  ghost predicate Words64(mem: Memory) {
    forall once: Once :: AreWords(once, mem)
  }

  lemma {:induction false} CloseWords64(mem: Memory)
    requires forall f :: f in mem ==> f < HEAP_BASE && forall i :: 0 <= i < |mem[f]| ==> mem[f][i].Fits()
    ensures Words64(mem)
  {
  }

  lemma {:induction false} WordFits(mem: Memory, f: nat, i: nat)
    requires Words64(mem) && f in mem && i < |mem[f]|
    ensures f < HEAP_BASE && mem[f][i].Fits()
  {
    assert AreWords(Only, mem);
  }

  lemma {:induction false} FrameFits(mem: Memory, f: nat)
    requires Words64(mem) && f in mem
    ensures f < HEAP_BASE && Link(f).Fits()
  {
    assert AreWords(Only, mem);
  }

  lemma {:induction false} WriteFits(mem: Memory, f: nat, i: nat, e: Entry)
    requires Words64(mem) && f in mem && i < |mem[f]| && e.Fits()
    ensures Words64(WriteWord(mem, f, i, e))
  {
    assert AreWords(Only, mem);
    CloseWords64(WriteWord(mem, f, i, e));
  }

  lemma {:induction false} ZerosFit(mem: Memory, f: nat)
    requires Words64(mem) && f in mem
    ensures Words64(mem[f := ZEROS])
  {
    assert AreWords(Only, mem);
    CloseWords64(mem[f := ZEROS]);
  }

  datatype StorePart = WordsPart | FitPart | LinksPart | InnerPart | LeavesPart

  ghost predicate Stored(part: StorePart, mem: Memory, free: seq<nat>, owner: Owners, tables: map<Path, nat>,
                         flat: map<nat, Entry>) {
    match part
    case WordsPart => WordsOk(mem, owner)
    case FitPart => Words64(mem)
    case LinksPart => LinksOk(free, mem)
    case InnerPart => InMemory(tables, mem) && InnerOk(tables, mem)
    case LeavesPart => InMemory(tables, mem) && LeavesOk(tables, flat, mem)
  }

  /** Memory holds the abstract state. Opened one part at a time in the proofs. */
  ghost predicate Stores(mem: Memory, s: State) {
    forall part: StorePart :: Stored(part, mem, s.free, s.owner, s.tables, s.flat)
  }

  lemma {:induction false} OpenStores(mem: Memory, s: State)
    requires Stores(mem, s)
    ensures WordsOk(mem, s.owner) && LinksOk(s.free, mem) && Words64(mem)
    ensures InMemory(s.tables, mem) && InnerOk(s.tables, mem) && LeavesOk(s.tables, s.flat, mem)
  {
    assert Stored(WordsPart, mem, s.free, s.owner, s.tables, s.flat);
    assert Stored(FitPart, mem, s.free, s.owner, s.tables, s.flat);
    assert Stored(LinksPart, mem, s.free, s.owner, s.tables, s.flat);
    assert Stored(InnerPart, mem, s.free, s.owner, s.tables, s.flat);
    assert Stored(LeavesPart, mem, s.free, s.owner, s.tables, s.flat);
  }

  lemma {:induction false} CloseStores(mem: Memory, s: State)
    requires WordsOk(mem, s.owner) && LinksOk(s.free, mem) && Words64(mem)
    requires InMemory(s.tables, mem) && InnerOk(s.tables, mem) && LeavesOk(s.tables, s.flat, mem)
    ensures Stores(mem, s)
  {
  }

  function WriteWord(mem: Memory, f: nat, i: nat, e: Entry): Memory
    requires f in mem && i < |mem[f]|
  {
    mem[f := mem[f][i := e]]
  }

  const ZEROS: seq<Entry> := seq(LEVEL_SIZE, _ => ZERO)

  lemma {:induction false} WordsWritten(mem: Memory, owner: Owners, f: nat, i: nat, e: Entry)
    requires WordsOk(mem, owner) && f in mem && i < LEVEL_SIZE
    ensures WordsOk(WriteWord(mem, f, i, e), owner)
  {
  }

  lemma {:induction false} LinksWritten(free: seq<nat>, mem: Memory, f: nat, words: seq<Entry>)
    requires LinksOk(free, mem) && f !in free
    ensures LinksOk(free, mem[f := words])
  {
  }

  lemma {:induction false} TablesWritten(tables: map<Path, nat>, flat: map<nat, Entry>, mem: Memory, f: nat,
                                         words: seq<Entry>)
    requires InMemory(tables, mem) && InnerOk(tables, mem) && LeavesOk(tables, flat, mem)
    requires f !in tables.Values
    ensures InMemory(tables, mem[f := words])
    ensures InnerOk(tables, mem[f := words]) && LeavesOk(tables, flat, mem[f := words])
  {
    var mem' := mem[f := words];
    forall p | p in tables
      ensures tables[p] in mem' && mem'[tables[p]] == mem[tables[p]]
    {
      assert tables[p] in tables.Values;
    }
  }

  // ------------------------------------------------------ frames of the users

  /** The frame is not the memory manager's: a caller holds it, or it is behind a heap page. */
  predicate IsUsed(o: Owner) {
    o.Held? || o.Backing?
  }

  ghost predicate AreKept(once: Once, owner: Owners, mem: Memory, newOwner: Owners, newMem: Memory, freed: set<nat>) {
    match once
    case Only =>
      forall f :: f in owner && f in mem && IsUsed(owner[f]) && f !in freed ==>
        f in newOwner && f in newMem && newOwner[f] == owner[f] && newMem[f] == mem[f]
  }

  /** Every frame in use, but for those freed, stays with its owner and keeps its words. Opened
      where that is used. */
  ghost predicate UsersKept(owner: Owners, mem: Memory, newOwner: Owners, newMem: Memory, freed: set<nat>) {
    forall once: Once :: AreKept(once, owner, mem, newOwner, newMem, freed)
  }

  lemma {:induction false} NothingDone(owner: Owners, mem: Memory, freed: set<nat>)
    ensures UsersKept(owner, mem, owner, mem, freed)
  {
  }

  lemma {:induction false} KeptTwice(o: Owners, m: Memory, o1: Owners, m1: Memory, o2: Owners, m2: Memory,
                                     freed: set<nat>, more: set<nat>)
    requires UsersKept(o, m, o1, m1, freed) && UsersKept(o1, m1, o2, m2, more)
    ensures UsersKept(o, m, o2, m2, freed + more)
  {
    assert AreKept(Only, o, m, o1, m1, freed) && AreKept(Only, o1, m1, o2, m2, more);
  }

  lemma {:induction false} KeptOn(o: Owners, m: Memory, o1: Owners, m1: Memory, o2: Owners, m2: Memory)
    requires UsersKept(o, m, o1, m1, {}) && UsersKept(o1, m1, o2, m2, {})
    ensures UsersKept(o, m, o2, m2, {})
  {
    assert AreKept(Only, o, m, o1, m1, {}) && AreKept(Only, o1, m1, o2, m2, {});
  }

  /** A frame no user has is written, or changes hands, or both. */
  lemma {:induction false} OtherFrame(owner: Owners, mem: Memory, f: nat, o: Owner, words: seq<Entry>, freed: set<nat>)
    requires f in owner && (IsUsed(owner[f]) ==> f in freed)
    ensures UsersKept(owner, mem, owner[f := o], mem, freed)
    ensures UsersKept(owner, mem, owner, mem[f := words], freed)
    ensures UsersKept(owner, mem, owner[f := o], mem[f := words], freed)
  {
  }

  lemma {:induction false} TableOwned(s: State, p: Path)
    requires Inv(s) && p in s.tables
    ensures s.tables[p] in s.owner && s.owner[s.tables[p]] == Table(p)
  {
    assert Holds(TablesPart, s);
  }

  /** A frame just taken becomes the table at `p`, and the entry for it is written. */
  lemma {:induction false} NewTableKeeps(s: State, mem: Memory, t: State, f: nat, p: Path, g: nat, i: nat, e: Entry)
    requires Inv(s) && Took(s, f, t) && p.Sub? && p.parent in t.tables && t.tables[p.parent] == g
    requires g != f && g in mem && i < |mem[g]| && f in mem
    ensures UsersKept(s.owner, mem, LinkTable(t, p, f).owner, WriteWord(mem[f := ZEROS], g, i, e), {})
  {
    TableOwned(s, p.parent);
    var linked := s.owner[f := Table(p)];
    assert LinkTable(t, p, f).owner == linked;
    OtherFrame(s.owner, mem, f, Table(p), ZEROS, {});
    OtherFrame(linked, mem[f := ZEROS], g, Held, mem[g][i := e], {});
    KeptOn(s.owner, mem, linked, mem[f := ZEROS], linked, WriteWord(mem[f := ZEROS], g, i, e));
  }

  /** A frame just taken is put behind page `v`. */
  lemma {:induction false} FaultKeeps(s: State, mem: Memory, t: State, v: nat, f: nat, e: Entry)
    requires Inv(s) && Took(s, f, t) && VPath(v, 3) in t.tables
    requires var g := t.tables[VPath(v, 3)]; g in mem && |mem[g]| == LEVEL_SIZE
    ensures UsersKept(s.owner, mem, t.owner[f := Backing(v)],
                      WriteWord(mem, t.tables[VPath(v, 3)], Index(v, 0), e), {})
  {
    var g := t.tables[VPath(v, 3)];
    TableOwned(s, VPath(v, 3));
    var backed := s.owner[f := Backing(v)];
    assert t.owner[f := Backing(v)] == backed;
    OtherFrame(s.owner, mem, f, Backing(v), [], {});
    OtherFrame(backed, mem, g, Held, mem[g][Index(v, 0) := e], {});
    KeptOn(s.owner, mem, backed, mem, backed, WriteWord(mem, g, Index(v, 0), e));
  }

  /** The frame behind page `v` goes to the free list. */
  lemma {:induction false} FreeKeeps(s: State, mem: Memory, v: nat, words: seq<Entry>, e: Entry)
    requires Inv(s) && v in s.flat && IsHeap(v) && s.flat[v].present && VPath(v, 3) in s.tables
    requires var g := s.tables[VPath(v, 3)]; g in mem && |mem[g]| == LEVEL_SIZE && g != s.flat[v].addr
    ensures var f, g := s.flat[v].addr, s.tables[VPath(v, 3)];
            UsersKept(s.owner, mem, Freed(s, v).owner, WriteWord(mem[f := words], g, Index(v, 0), e), {f})
  {
    var f, g := s.flat[v].addr, s.tables[VPath(v, 3)];
    UnbackOwner(s, v);
    TableOwned(s, VPath(v, 3));
    var freed := s.owner[f := Free(|s.free|)];
    assert Freed(s, v).owner == freed;
    OtherFrame(s.owner, mem, f, Free(|s.free|), words, {f});
    OtherFrame(freed, mem[f := words], g, Held, mem[g][Index(v, 0) := e], {});
    KeptTwice(s.owner, mem, freed, mem[f := words], freed, WriteWord(mem[f := words], g, Index(v, 0), e), {f}, {});
    assert {f} + {} == {f};
  }

  lemma {:induction false} UnbackOwner(s: State, v: nat)
    requires Inv(s) && v in s.flat && IsHeap(v) && s.flat[v].present
    ensures s.flat[v].addr in s.owner && s.owner[s.flat[v].addr] == Backing(v)
  {
    assert Holds(BackingPart, s);
  }

  /** No page is backed by frame 0, which is NULL. */
  lemma {:induction false} BackedNotNull(s: State, mem: Memory, v: nat)
    requires Inv(s) && Stores(mem, s) && v in s.flat && IsHeap(v) && s.flat[v].present
    ensures s.flat[v].addr != 0
  {
    UnbackOwner(s, v);
    OpenStores(mem, s);
  }

  /** The tables of a page that is present are there, and its frame is not NULL. */
  lemma {:induction false} KnownIfPresent(s: State, mem: Memory, v: nat)
    requires Inv(s) && Stores(mem, s) && v in s.flat && IsHeap(v)
    ensures s.flat[v].present ==> VPath(v, 3) in s.tables && Grow(s, v, 3) == Some(s) && s.flat[v].addr != 0
  {
    if s.flat[v].present {
      HeapPathKnown(s, v);
      GrowKnown(s, v, 3);
      BackedNotNull(s, mem, v);
    }
  }

  /** Whoever holds a frame, or has it behind a heap page, can write any word of it without
      disturbing the free list, the tables or any mapping. */
  lemma {:induction false} OwnerMayWrite(s: State, mem: Memory, f: nat, i: nat, e: Entry)
    requires Inv(s) && Stores(mem, s) && i < LEVEL_SIZE && e.Fits()
    requires f in s.owner && (s.owner[f].Held? || s.owner[f].Backing?)
    ensures f in mem && |mem[f]| == LEVEL_SIZE && Stores(WriteWord(mem, f, i, e), s)
  {
    OpenStores(mem, s);
    NotListed(s, f);
    WordsWritten(mem, s.owner, f, i, e);
    WriteFits(mem, f, i, e);
    LinksWritten(s.free, mem, f, mem[f][i := e]);
    TablesWritten(s.tables, s.flat, mem, f, mem[f][i := e]);
    CloseStores(WriteWord(mem, f, i, e), s);
  }

  lemma {:induction false} NotListed(s: State, f: nat)
    requires Inv(s) && f in s.owner && (s.owner[f].Held? || s.owner[f].Backing?)
    ensures f !in s.free && f !in s.tables.Values
  {
    assert Holds(FreePart, s) && Holds(TablesPart, s);
  }

  /** Pushing a frame on the free list: its first word becomes the link. */
  lemma {:induction false} LinkPushed(free: seq<nat>, mem: Memory, f: nat)
    requires LinksOk(free, mem) && f !in free && f in mem && |mem[f]| == LEVEL_SIZE
    ensures LinksOk(free + [f], WriteWord(mem, f, 0, Link(Head(free))))
  {
    var free', mem' := free + [f], WriteWord(mem, f, 0, Link(Head(free)));
    forall k | 0 <= k < |free'|
      ensures free'[k] in mem' && |mem'[free'[k]]| > 0 && mem'[free'[k]][0] == Link(Head(free'[..k]))
    {
      if k < |free| {
        assert free'[..k] == free[..k];
      } else {
        assert free'[..k] == free;
      }
    }
  }

  lemma {:induction false} LinkPopped(free: seq<nat>, mem: Memory)
    requires LinksOk(free, mem) && free != []
    ensures LinksOk(free[..|free| - 1], mem)
    ensures mem[Head(free)][0] == Link(Head(free[..|free| - 1]))
  {
    var free' := free[..|free| - 1];
    assert forall k :: 0 <= k < |free'| ==> free'[..k] == free[..k];
  }

  /** Writing a leaf entry changes the mapping of that page alone. */
  lemma {:induction false} LeafWritten(tables: map<Path, nat>, flat: map<nat, Entry>, mem: Memory, v: nat, e: Entry)
    requires InMemory(tables, mem) && InnerOk(tables, mem) && LeavesOk(tables, flat, mem)
    requires v in flat && VPath(v, 3) in tables
    requires forall p, q :: p in tables && q in tables && tables[p] == tables[q] ==> p == q
    requires forall w: nat :: w in flat ==> w < NUM_PAGES
    ensures var f := tables[VPath(v, 3)];
            var mem' := WriteWord(mem, f, Index(v, 0), e);
            InMemory(tables, mem') && InnerOk(tables, mem') && LeavesOk(tables, flat[v := e], mem')
  {
    var f := tables[VPath(v, 3)];
    var mem' := WriteWord(mem, f, Index(v, 0), e);
    var flat' := flat[v := e];
    forall w: nat | w in flat' && VPath(w, 3) in tables
      ensures mem'[tables[VPath(w, 3)]][Index(w, 0)] == flat'[w]
    {
      if w != v && VPath(w, 3) == VPath(v, 3) && Index(w, 0) == Index(v, 0) {
        DistinctPagesDistinctSlots(v, w);
      }
    }
  }

  lemma {:induction false} TablesInjective(s: State)
    requires Inv(s)
    ensures forall p, q :: p in s.tables && q in s.tables && s.tables[p] == s.tables[q] ==> p == q
    ensures forall w: nat :: w in s.flat ==> w < NUM_PAGES
  {
    assert Holds(TablesPart, s) && Holds(FlatPart, s);
  }

  lemma {:induction false} TablesNotFree(s: State, p: Path)
    requires Inv(s) && p in s.tables
    ensures s.tables[p] !in s.free
  {
    assert Holds(FreePart, s) && Holds(TablesPart, s);
  }

  lemma {:induction false} SetLeafStored(s: State, mem: Memory, v: nat, e: Entry)
    requires Inv(s) && Stores(mem, s) && v in s.flat && VPath(v, 3) in s.tables && e.Fits()
    ensures var f := s.tables[VPath(v, 3)];
            f in mem && |mem[f]| == LEVEL_SIZE && Stores(WriteWord(mem, f, Index(v, 0), e), SetLeaf(s, v, e))
  {
    var f := s.tables[VPath(v, 3)];
    OpenStores(mem, s);
    TablesInjective(s);
    TablesNotFree(s, VPath(v, 3));
    WordsWritten(mem, s.owner, f, Index(v, 0), e);
    WriteFits(mem, f, Index(v, 0), e);
    LinksWritten(s.free, mem, f, mem[f][Index(v, 0) := e]);
    LeafWritten(s.tables, s.flat, mem, v, e);
    CloseStores(WriteWord(mem, f, Index(v, 0), e), SetLeaf(s, v, e));
  }

  /** Zeroing a frame and linking it in as a table makes every page below it read as empty, even
      when the frame is recycled and still holds a stale free-list pointer. */
  lemma {:induction false} TableStored(tables: map<Path, nat>, flat: map<nat, Entry>, mem: Memory, p: Path, f: nat,
                                       e: Entry)
    requires InMemory(tables, mem) && InnerOk(tables, mem) && LeavesOk(tables, flat, mem)
    requires p.Sub? && p !in tables && p.parent in tables && p.idx < LEVEL_SIZE && Depth(p) <= 3
    requires f in mem && f !in tables.Values && e == Mapping(f)
    requires forall q, r :: q in tables && r in tables && tables[q] == tables[r] ==> q == r
    requires forall i :: Sub(p, i) !in tables
    requires forall v: nat :: v in flat && VPath(v, 3) !in tables ==> flat[v] == ZERO
    ensures var tables' := tables[p := f];
            var mem' := WriteWord(mem[f := ZEROS], tables[p.parent], p.idx, e);
            InMemory(tables', mem') && InnerOk(tables', mem') && LeavesOk(tables', flat, mem')
  {
    var tables' := tables[p := f];
    var g := tables[p.parent];
    assert g in tables.Values;
    var mem' := WriteWord(mem[f := ZEROS], g, p.idx, e);
    forall q | q in tables
      ensures tables[q] != f && tables[q] in mem' && |mem'[tables[q]]| == LEVEL_SIZE
    {
      assert tables[q] in tables.Values;
    }
    forall q, i: nat | q in tables' && i < LEVEL_SIZE && Depth(q) < 3
      ensures PointsTo(tables', mem'[tables'[q]][i], Sub(q, i))
    {
      if q != p {
        assert PointsTo(tables, mem[tables[q]][i], Sub(q, i));
      }
    }
    assert Depth(p.parent) < 3;
  }

  /** There is nothing yet below a new table. */
  lemma {:induction false} EmptyBelow(s: State, p: Path)
    requires Inv(s) && IsSlot(s, p)
    ensures forall i :: Sub(p, i) !in s.tables
    ensures forall v: nat :: v in s.flat && VPath(v, 3) !in s.tables ==> s.flat[v] == ZERO
  {
    assert Holds(TreePart, s) && Holds(FlatPart, s);
  }

  lemma {:induction false} TableLinkStored(s: State, mem: Memory, p: Path, f: nat, e: Entry)
    requires Inv(s) && Stores(mem, s) && e.Fits()
    requires p.Sub? && IsSlot(s, p) && f in s.owner && s.owner[f] == Held
    requires e == Mapping(f)
    ensures var g := s.tables[p.parent];
            && g != f && g in mem && |mem[g]| == LEVEL_SIZE
            && Stores(WriteWord(mem[f := ZEROS], g, p.idx, e), LinkTable(s, p, f))
  {
    var g := s.tables[p.parent];
    OpenStores(mem, s);
    NotListed(s, f);
    TablesNotFree(s, p.parent);
    TablesInjective(s);
    assert g in s.tables.Values;
    EmptyBelow(s, p);
    TableStored(s.tables, s.flat, mem, p, f, e);
    LinksWritten(s.free, mem, f, ZEROS);
    LinksWritten(s.free, mem[f := ZEROS], g, mem[g][p.idx := e]);
    ZerosFit(mem, f);
    WriteFits(mem[f := ZEROS], g, p.idx, e);
    CloseStores(WriteWord(mem[f := ZEROS], g, p.idx, e), LinkTable(s, p, f));
  }

  /** The root is zeroed but has no parent entry. */
  lemma {:induction false} RootLinkStored(s: State, mem: Memory, f: nat)
    requires Inv(s) && Stores(mem, s)
    requires s.tables == map[] && f in s.owner && s.owner[f] == Held
    ensures Stores(mem[f := ZEROS], LinkTable(s, Root, f))
  {
    OpenStores(mem, s);
    NotListed(s, f);
    LinksWritten(s.free, mem, f, ZEROS);
    ZerosFit(mem, f);
    assert Holds(FlatPart, s);
    CloseStores(mem[f := ZEROS], LinkTable(s, Root, f));
  }

  lemma {:induction false} NullWhenEmpty(s: State, mem: Memory)
    requires Stores(mem, s)
    ensures Head(s.free) == 0 <==> s.free == []
  {
    OpenStores(mem, s);
    if s.free != [] {
      assert s.free[|s.free| - 1] in mem;
    }
  }

  /** The link to the head of the free list, or NULL. */
  lemma {:induction false} LinkFits(s: State, mem: Memory)
    requires Stores(mem, s)
    ensures Link(Head(s.free)).Fits()
  {
    OpenStores(mem, s);
    if s.free != [] {
      FrameFits(mem, s.free[|s.free| - 1]);
    }
  }

  /** The link of the head frame, and the memory of the state PfAlloc leads to. */
  lemma {:induction false} HeadPopped(s: State, mem: Memory)
    requires Inv(s) && Stores(mem, s) && s.free != []
    ensures Head(s.free) in mem && |mem[Head(s.free)]| == LEVEL_SIZE
    ensures mem[Head(s.free)][0].addr == Head(s.free[..|s.free| - 1])
    ensures Stores(mem, PfAlloc(s).value.1)
  {
    OpenStores(mem, s);
    LinkPopped(s.free, mem);
    PfAllocSound(s);
    CloseStores(mem, PfAlloc(s).value.1);
  }

  lemma {:induction false} TailTaken(s: State, mem: Memory)
    requires Inv(s) && Stores(mem, s) && s.free == []
    ensures PfAlloc(s).Some? ==> Stores(mem, PfAlloc(s).value.1)
  {
    if PfAlloc(s).Some? {
      OpenStores(mem, s);
      PfAllocSound(s);
      CloseStores(mem, PfAlloc(s).value.1);
    }
  }

  lemma {:induction false} HolderFreed(s: State, mem: Memory, f: nat)
    requires Inv(s) && Stores(mem, s) && f in s.owner && s.owner[f] == Held
    ensures f in mem && |mem[f]| == LEVEL_SIZE
    ensures Stores(WriteWord(mem, f, 0, Link(Head(s.free))), PfFree(s, f))
  {
    NotListed(s, f);
    LinkFits(s, mem);
    OwnerMayWrite(s, mem, f, 0, Link(Head(s.free)));
    var mem' := WriteWord(mem, f, 0, Link(Head(s.free)));
    OpenStores(mem, s);
    OpenStores(mem', s);
    LinkPushed(s.free, mem, f);
    CloseStores(mem', PfFree(s, f));
  }

  /** The slot a level's index selects, read as an entry. */
  lemma {:induction false} SlotRead(s: State, mem: Memory, p: Path, i: nat)
    requires Stores(mem, s) && p in s.tables && Depth(p) < 3 && i < LEVEL_SIZE
    ensures var f := s.tables[p];
            && f in mem && |mem[f]| == LEVEL_SIZE
            && mem[f][i] == (if Sub(p, i) in s.tables then Mapping(s.tables[Sub(p, i)]) else ZERO)
            && mem[f][i].Fits()
  {
    OpenStores(mem, s);
    WordFits(mem, s.tables[p], i);
    assert PointsTo(s.tables, mem[s.tables[p]][i], Sub(p, i));
  }

  lemma {:induction false} AbsentBelow(s: State, v: nat, k: nat, d: nat)
    requires Inv(s) && k <= d <= 3 && VPath(v, k) !in s.tables
    ensures VPath(v, d) !in s.tables
  {
    if k < d {
      AbsentBelow(s, v, k, d - 1);
      assert Holds(TreePart, s);
    }
  }

  lemma {:induction false} LeafRead(s: State, mem: Memory, v: nat)
    requires Inv(s) && Stores(mem, s) && v < NUM_PAGES && VPath(v, 3) in s.tables
    ensures var f := s.tables[VPath(v, 3)];
            v in s.flat && f in mem && |mem[f]| == LEVEL_SIZE && mem[f][Index(v, 0)] == s.flat[v] && s.flat[v].Fits()
  {
    assert Holds(FlatPart, s);
    OpenStores(mem, s);
    WordFits(mem, s.tables[VPath(v, 3)], Index(v, 0));
  }

  lemma {:induction false} LeafFits(s: State, mem: Memory, v: nat)
    requires Inv(s) && Stores(mem, s) && v in s.flat && VPath(v, 3) in s.tables
    ensures s.flat[v].Fits()
  {
    TablesInjective(s);
    LeafRead(s, mem, v);
  }

  lemma {:induction false} OwnedFits(s: State, mem: Memory, f: nat)
    requires Stores(mem, s) && f in s.owner
    ensures f < HEAP_BASE && f in mem && |mem[f]| == LEVEL_SIZE
  {
    OpenStores(mem, s);
    FrameFits(mem, f);
  }

  /** MMU_free_page on memory: the link lands in the freed frame, the entry loses its present
      bit, and both the free list and the mapping follow. */
  lemma {:induction false} FreePageStored(s: State, mem: Memory, v: nat)
    requires Inv(s) && Stores(mem, s)
    requires v in s.flat && VPath(v, 3) in s.tables && IsHeap(v) && s.flat[v].present
    ensures var f, g, e := s.flat[v].addr, s.tables[VPath(v, 3)], s.flat[v].(present := false);
            && f != g && g in mem && |mem[g]| == LEVEL_SIZE && f in mem && |mem[f]| == LEVEL_SIZE
            && Stores(WriteWord(WriteWord(mem, f, 0, Link(Head(s.free))), g, Index(v, 0), e), Freed(s, v))
  {
    UnbackSound(s, v);
    var f, g, e := s.flat[v].addr, s.tables[VPath(v, 3)], s.flat[v].(present := false);
    NotListed(s, f);
    assert g in s.tables.Values;
    LinkFits(s, mem);
    OwnerMayWrite(s, mem, f, 0, Link(Head(s.free)));
    var mem' := WriteWord(mem, f, 0, Link(Head(s.free)));
    OpenStores(mem, s);
    LinkPushed(s.free, mem, f);
    LeafFits(s, mem, v);
    SetLeafStored(s, mem', v, e);
    OpenStores(WriteWord(mem', g, Index(v, 0), e), SetLeaf(s, v, e));
    TablesNotFree(s, VPath(v, 3));
    LinksWritten(s.free + [f], mem', g, mem'[g][Index(v, 0) := e]);
    CloseStores(WriteWord(mem', g, Index(v, 0), e), Freed(s, v));
  }

  /** page_fault_handler on memory: the frame it backs the page with keeps its contents. */
  lemma {:induction false} FaultStored(s: State, mem: Memory, v: nat, f: nat)
    requires Inv(s) && Stores(mem, s) && v in s.flat && VPath(v, 3) in s.tables
    requires f in s.owner && s.owner[f] == Held
    ensures var g, e := s.tables[VPath(v, 3)], Backed(s.flat[v], f);
            && g in mem && |mem[g]| == LEVEL_SIZE
            && Stores(WriteWord(mem, g, Index(v, 0), e), s.(owner := s.owner[f := Backing(v)], flat := s.flat[v := e]))
  {
    var g, e := s.tables[VPath(v, 3)], Backed(s.flat[v], f);
    LeafFits(s, mem, v);
    OwnedFits(s, mem, f);
    SetLeafStored(s, mem, v, e);
    OpenStores(WriteWord(mem, g, Index(v, 0), e), SetLeaf(s, v, e));
    CloseStores(WriteWord(mem, g, Index(v, 0), e), s.(owner := s.owner[f := Backing(v)], flat := s.flat[v := e]));
  }
}
