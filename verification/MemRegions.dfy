/** Available memory minus ELF sections: build_mem_regions over a decoded memory map. */
module MemRegions {
  import opened Arithmetic
  import opened Collections

  const PAGE := 0x1000
  const CAPACITY := 16
  const WRAP := 0x1_0000_0000_0000_0000

  /** An entry of the memory map (section 3.6.8 of the Multiboot2 Specification); kind 1 is
      available memory. */
  datatype MemEntry = MemEntry(start: nat, length: nat, kind: nat) {
    function End(): nat { start + length }

    /** The first address considered: address 0 is never available. */
    function First(): nat { if start == 0 then 1 else start }
  }

  /** An ELF section (section 3.6.7 of the Multiboot2 Specification); kind 0 is the null section. */
  datatype Section = Section(kind: nat, addr: nat, size: nat) {
    function End(): nat { addr + size }
  }

  datatype Region = Region(start: nat, end: nat, next: nat)

  /** align_pointer at the page boundary: the nearest multiple at or after, or at or before. */
  function Align(addr: nat, after: bool): (r: nat)
    ensures r % PAGE == 0
    ensures after ==> addr <= r < addr + PAGE
    ensures !after ==> r <= addr < r + PAGE
  {
    if addr % PAGE != 0 then
      if after then addr + (PAGE - addr % PAGE) else addr - addr % PAGE
    else addr
  }

  // -------------------------------------------------------- inputs and outcome

  /** The first section from `k` on that is not null and ends after `bound`. */
  function PastFrom(secs: seq<Section>, k: nat, bound: nat): (n: nat)
    requires k <= |secs|
    ensures k <= n <= |secs|
    ensures forall q :: k <= q < n ==> secs[q].kind == 0 || secs[q].End() <= bound
    ensures n < |secs| ==> secs[n].kind != 0 && secs[n].End() > bound
    decreases |secs| - k
  {
    if k == |secs| || (secs[k].kind != 0 && secs[k].End() > bound) then k else PastFrom(secs, k + 1, bound)
  }

  /** Where the skip loop of an entry beginning at `bound` stops. */
  function FirstPast(secs: seq<Section>, bound: nat): (n: nat)
    ensures n <= |secs|
    ensures forall q :: 0 <= q < n ==> secs[q].kind == 0 || secs[q].End() <= bound
    ensures n < |secs| ==> secs[n].kind != 0 && secs[n].End() > bound
  {
    PastFrom(secs, 0, bound)
  }

  /** Every section before this one is null or empty at address 0. */
  function Leading(secs: seq<Section>): nat {
    FirstPast(secs, 0)
  }

  /** An empty section at address 0, as null sections usually are. */
  predicate Blank(sec: Section) {
    sec.addr == 0 && sec.size == 0
  }

  /** From section `f` on, sections that are not blank ascend. */
  ghost predicate Ascending(secs: seq<Section>, f: nat) {
    forall a, b :: f <= a < b < |secs| && !Blank(secs[a]) && !Blank(secs[b]) ==> secs[a].addr <= secs[b].addr
  }

  /** Available entries disjoint and ascending, no 64-bit wrap, and sections ascending by address
      (they may overlap), save for null ones that come first and blank ones anywhere. */
  ghost predicate Ordered(entries: seq<MemEntry>, secs: seq<Section>) {
    && (forall i, k :: 0 <= i < k < |entries| && entries[i].kind == 1 && entries[k].kind == 1 ==>
          entries[i].End() <= entries[k].start)
    && (forall i :: 0 <= i < |entries| ==> entries[i].End() + PAGE <= WRAP)
    && Ascending(secs, Leading(secs))
    && (forall a :: 0 <= a < |secs| ==> secs[a].End() < WRAP)
  }

  /** The section and the address range have a byte in common, or the section is empty and lies
      strictly inside the range. */
  predicate Meets(sec: Section, lo: nat, hi: nat) {
    sec.addr < hi && lo < sec.End()
  }

  predicate Inside(e: MemEntry, lo: nat, hi: nat) {
    e.kind == 1 && e.start <= lo && hi <= e.End()
  }

  predicate IsPage(p: nat) {
    p % PAGE == 0 && p > 0
  }

  ghost predicate Listed(rs: seq<Region>, p: nat) {
    exists k :: 0 <= k < |rs| && rs[k].start <= p < rs[k].end
  }

  /** No section that counts for the entry meets the range. */
  ghost predicate Clear(e: MemEntry, secs: seq<Section>, lo: nat, hi: nat) {
    forall q :: FirstPast(secs, e.First()) <= q < |secs| ==> !Meets(secs[q], lo, hi)
  }

  /** A region is a non-empty run of whole pages, page 0 excluded, with nothing handed out yet,
      inside one available entry, clear of every section that is not null and of every other
      section that counts for the entry. */
  ghost predicate RegionSound(r: Region, entries: seq<MemEntry>, secs: seq<Section>) {
    && r.start < r.end && r.start % PAGE == 0 && r.end % PAGE == 0 && PAGE <= r.start && r.next == r.start
    && (exists i :: 0 <= i < |entries| && Inside(entries[i], r.start, r.end) && Clear(entries[i], secs, r.start, r.end))
    && (forall q :: 0 <= q < |secs| && secs[q].kind != 0 ==> !Meets(secs[q], r.start, r.end))
  }

  ghost predicate Sound(rs: seq<Region>, entries: seq<MemEntry>, secs: seq<Section>) {
    && (forall k :: 0 <= k < |rs| ==> RegionSound(rs[k], entries, secs))
    && (forall k, m :: 0 <= k < m < |rs| ==> rs[k].end <= rs[m].start)
  }

  /** A whole page of an available entry, other than page 0, that no section met by the section
      loop of that entry meets: null or not, from the first on that is not null and ends after the
      entry begins. */
  ghost predicate Usable(e: MemEntry, secs: seq<Section>, p: nat) {
    IsPage(p) && Inside(e, p, p + PAGE) && Clear(e, secs, p, p + PAGE)
  }

  /** Every usable page of the first `n` entries is listed. */
  ghost predicate CompleteTo(rs: seq<Region>, entries: seq<MemEntry>, secs: seq<Section>, n: nat) {
    forall i, p: nat :: 0 <= i < n && i < |entries| && Usable(entries[i], secs, p) ==> Listed(rs, p)
  }


  /** Midway through entry `i`: everything below `cur` is settled and those of the first `j`
      sections that count for the entry, or are not null, end there or before. */
  ghost predicate IsMidway(once: Once, rs: seq<Region>, entries: seq<MemEntry>, secs: seq<Section>, i: nat, j: nat,
                           cur: nat) {
    match once
    case Only =>
      && i < |entries| && FirstPast(secs, entries[i].First()) <= j <= |secs|
      && Sound(rs, entries, secs) && CompleteTo(rs, entries, secs, i)
      && (forall k :: 0 <= k < |rs| ==> rs[k].end <= cur && rs[k].end <= entries[i].End())
      && (forall q :: 0 <= q < j && (secs[q].kind != 0 || FirstPast(secs, entries[i].First()) <= q) ==>
            secs[q].End() <= cur)
      && (forall p: nat :: Usable(entries[i], secs, p) && p < cur ==> Listed(rs, p))
  }

  /** Opened where that is used. */
  ghost predicate Midway(rs: seq<Region>, entries: seq<MemEntry>, secs: seq<Section>, i: nat, j: nat, cur: nat) {
    forall once: Once :: IsMidway(once, rs, entries, secs, i, j, cur)
  }

  /** What add_region appends for the bytes [lo, hi). */
  function Added(rs: seq<Region>, lo: nat, hi: nat): seq<Region> {
    var s, e := Align(lo, true), Align(hi, false);
    if s < e then rs + [Region(s, e, s)] else rs
  }

  lemma {:induction false} AlignedWithin(lo: nat, hi: nat, p: nat)
    requires IsPage(p) && lo <= p && p + PAGE <= hi
    ensures Align(lo, true) <= p && p + PAGE <= Align(hi, false)
  {
    var s, e := Align(lo, true), Align(hi, false);
    assert p / PAGE * PAGE == p && s / PAGE * PAGE == s && e / PAGE * PAGE == e;
  }

  /** Appending the whole pages of [cur, hi) lists all of them. */
  lemma {:induction false} AddedListed(rs: seq<Region>, lo: nat, hi: nat)
    ensures forall p: nat :: Listed(rs, p) ==> Listed(Added(rs, lo, hi), p)
    ensures forall p: nat :: IsPage(p) && lo <= p && p + PAGE <= hi ==> Listed(Added(rs, lo, hi), p)
  {
    var rs' := Added(rs, lo, hi);
    forall p: nat | Listed(rs, p)
      ensures Listed(rs', p)
    {
      var k :| 0 <= k < |rs| && rs[k].start <= p < rs[k].end;
      assert rs'[k] == rs[k];
    }
    forall p: nat | IsPage(p) && lo <= p && p + PAGE <= hi
      ensures Listed(rs', p)
    {
      AlignedWithin(lo, hi, p);
      assert rs'[|rs|].start <= p < rs'[|rs|].end;
    }
  }

  lemma {:induction false} WithinSound(entries: seq<MemEntry>, secs: seq<Section>, i: nat, s: nat, e: nat)
    requires i < |entries| && Inside(entries[i], s, e) && s < e && s % PAGE == 0 && e % PAGE == 0 && s > 0
    requires forall q :: 0 <= q < |secs| && (secs[q].kind != 0 || FirstPast(secs, entries[i].First()) <= q) ==>
               secs[q].End() <= s || e <= secs[q].addr
    ensures RegionSound(Region(s, e, s), entries, secs)
  {
    assert Clear(entries[i], secs, s, e);
  }

  lemma {:induction false} SoundPush(rs: seq<Region>, r: Region, entries: seq<MemEntry>, secs: seq<Section>)
    requires Sound(rs, entries, secs) && RegionSound(r, entries, secs)
    requires forall k :: 0 <= k < |rs| ==> rs[k].end <= r.start
    ensures Sound(rs + [r], entries, secs)
  {
  }

  lemma {:induction false} AddedSound(rs: seq<Region>, entries: seq<MemEntry>, secs: seq<Section>, i: nat, lo: nat,
                                      hi: nat)
    requires Sound(rs, entries, secs) && i < |entries| && Inside(entries[i], lo, hi) && lo > 0
    requires forall k :: 0 <= k < |rs| ==> rs[k].end <= lo
    requires forall q :: 0 <= q < |secs| && (secs[q].kind != 0 || FirstPast(secs, entries[i].First()) <= q) ==>
               secs[q].End() <= lo || hi <= secs[q].addr
    ensures Sound(Added(rs, lo, hi), entries, secs)
    ensures forall k :: 0 <= k < |Added(rs, lo, hi)| ==> k < |rs| || Added(rs, lo, hi)[k].end <= hi
    ensures rs <= Added(rs, lo, hi)
  {
    var s, e := Align(lo, true), Align(hi, false);
    if s < e {
      WithinSound(entries, secs, i, s, e);
      SoundPush(rs, Region(s, e, s), entries, secs);
    }
  }

  // ------------------------------------------------------- steps of the two loops

  /** Before entry `i` is looked at: earlier entries are settled, and the sections passed over
      end before any entry still to come. */
  ghost predicate IsBefore(once: Once, rs: seq<Region>, entries: seq<MemEntry>, secs: seq<Section>, i: nat, j: nat) {
    match once
    case Only =>
      && i <= |entries| && j <= |secs|
      && Sound(rs, entries, secs) && CompleteTo(rs, entries, secs, i)
      && (forall k, m :: 0 <= k < |rs| && i <= m < |entries| && entries[m].kind == 1 ==> rs[k].end <= entries[m].start)
      && (forall q, m :: 0 <= q < j && secs[q].kind != 0 && i <= m < |entries| && entries[m].kind == 1 ==>
            secs[q].End() <= entries[m].First())
  }

  /** Opened where that is used. */
  ghost predicate BeforeEntry(rs: seq<Region>, entries: seq<MemEntry>, secs: seq<Section>, i: nat, j: nat) {
    forall once: Once :: IsBefore(once, rs, entries, secs, i, j)
  }

  lemma {:induction false} BeforeStart(entries: seq<MemEntry>, secs: seq<Section>)
    ensures BeforeEntry([], entries, secs, 0, 0)
  {
  }

  lemma {:induction false} BeforePassed(rs: seq<Region>, entries: seq<MemEntry>, secs: seq<Section>, i: nat, j: nat)
    requires BeforeEntry(rs, entries, secs, i, j) && i < |entries| && entries[i].kind == 1
    ensures PassedBy(secs, j, entries[i].First())
  {
    assert IsBefore(Only, rs, entries, secs, i, j);
  }

  lemma {:induction false} BeforeEnd(rs: seq<Region>, entries: seq<MemEntry>, secs: seq<Section>, i: nat, j: nat)
    requires BeforeEntry(rs, entries, secs, i, j)
    ensures Sound(rs, entries, secs) && CompleteTo(rs, entries, secs, i)
  {
    assert IsBefore(Only, rs, entries, secs, i, j);
  }

  ghost predicate PassedBy(secs: seq<Section>, j: nat, bound: nat) {
    j <= |secs| && forall q :: 0 <= q < j && secs[q].kind != 0 ==> secs[q].End() <= bound
  }

  lemma {:induction false} SkipEntry(rs: seq<Region>, entries: seq<MemEntry>, secs: seq<Section>, i: nat, j: nat)
    requires BeforeEntry(rs, entries, secs, i, j) && i < |entries| && entries[i].kind != 1
    ensures BeforeEntry(rs, entries, secs, i + 1, j)
  {
    assert IsBefore(Only, rs, entries, secs, i, j);
  }

  lemma {:induction false} BeginEntry(rs: seq<Region>, entries: seq<MemEntry>, secs: seq<Section>, i: nat, j: nat,
                                      cur: nat)
    requires BeforeEntry(rs, entries, secs, i, j) && i < |entries| && entries[i].kind == 1 && cur == entries[i].First()
    requires PassedBy(secs, j, cur)
    requires j < |secs| ==> secs[j].kind != 0 && secs[j].End() > cur
    ensures Midway(rs, entries, secs, i, j, cur)
  {
    assert IsBefore(Only, rs, entries, secs, i, j);
    assert FirstPast(secs, cur) == j;
  }

  /** The skip loop passes no section that a later entry needs. */
  lemma {:induction false} BeforeLater(rs: seq<Region>, entries: seq<MemEntry>, secs: seq<Section>, i: nat, first: nat,
                                       j: nat)
    requires BeforeEntry(rs, entries, secs, i, first) && Ordered(entries, secs)
    requires i < |entries| && entries[i].kind == 1 && PassedBy(secs, j, entries[i].First())
    ensures BeforeEntry(rs, entries, secs, i, j)
  {
    assert IsBefore(Only, rs, entries, secs, i, first);
  }

  /** The index the loops work from never lies among the leading sections. */
  lemma {:induction false} LeadingFirst(secs: seq<Section>, bound: nat)
    ensures Leading(secs) <= FirstPast(secs, bound)
  {
  }

  /** The usable pages between `cur` and the end of section `j` all lie before the section. */
  lemma {:induction false} SplitLists(rs: seq<Region>, e: MemEntry, secs: seq<Section>, j: nat, cur: nat)
    requires FirstPast(secs, e.First()) <= j < |secs|
    requires forall p: nat :: Usable(e, secs, p) && p < cur ==> Listed(rs, p)
    ensures var rs' := if secs[j].addr > cur then Added(rs, cur, secs[j].addr) else rs;
            forall p: nat :: Usable(e, secs, p) && p < Max(cur, secs[j].End()) ==> Listed(rs', p)
  {
    AddedListed(rs, cur, secs[j].addr);
    forall p: nat | Usable(e, secs, p) && p < Max(cur, secs[j].End())
      ensures Listed(if secs[j].addr > cur then Added(rs, cur, secs[j].addr) else rs, p)
    {
      assert !Meets(secs[j], p, p + PAGE);
    }
  }

  lemma {:induction false} AddedComplete(rs: seq<Region>, entries: seq<MemEntry>, secs: seq<Section>, n: nat,
                                         lo: nat, hi: nat)
    requires CompleteTo(rs, entries, secs, n)
    ensures CompleteTo(Added(rs, lo, hi), entries, secs, n)
  {
    AddedListed(rs, lo, hi);
  }

  /** With those before `j` ending at `cur` or before, and `j` beginning at `hi` or after, no
      section has a byte in between. */
  lemma {:induction false} Apart(secs: seq<Section>, f: nat, j: nat, cur: nat, hi: nat)
    requires Ascending(secs, f) && f <= j <= |secs| && 0 < cur < hi && (j < |secs| ==> hi <= secs[j].addr)
    requires forall q :: 0 <= q < j && (secs[q].kind != 0 || f <= q) ==> secs[q].End() <= cur
    ensures forall q :: 0 <= q < |secs| && (secs[q].kind != 0 || f <= q) ==> secs[q].End() <= cur || hi <= secs[q].addr
  {
    forall q | j < q < |secs|
      ensures secs[q].End() <= cur || hi <= secs[q].addr
    {
      assert Blank(secs[q]) || secs[j].addr <= secs[q].addr;
    }
  }

  lemma {:induction false} SplitSound(rs: seq<Region>, entries: seq<MemEntry>, secs: seq<Section>, i: nat, j: nat,
                                      cur: nat)
    requires i < |entries| && Ordered(entries, secs) && Midway(rs, entries, secs, i, j, cur) && j < |secs|
    requires entries[i].kind == 1 && 0 < cur && entries[i].start <= cur < secs[j].addr < entries[i].End()
    ensures var rs' := Added(rs, cur, secs[j].addr);
            Sound(rs', entries, secs) && forall k :: 0 <= k < |rs'| ==> rs'[k].end <= secs[j].addr
  {
    assert IsMidway(Only, rs, entries, secs, i, j, cur);
    LeadingFirst(secs, entries[i].First());
    Apart(secs, FirstPast(secs, entries[i].First()), j, cur, secs[j].addr);
    AddedSound(rs, entries, secs, i, cur, secs[j].addr);
  }

  /** One section more, once the regions are right. */
  lemma {:induction false} SectionSettled(rs: seq<Region>, done: seq<Region>, entries: seq<MemEntry>,
                                          secs: seq<Section>, i: nat, j: nat, cur: nat)
    requires i < |entries| && Midway(rs, entries, secs, i, j, cur) && j < |secs|
    requires Sound(done, entries, secs) && CompleteTo(done, entries, secs, i)
    requires forall k :: 0 <= k < |done| ==> done[k].end <= Max(cur, secs[j].addr) && done[k].end <= entries[i].End()
    requires forall p: nat :: Usable(entries[i], secs, p) && p < Max(cur, secs[j].End()) ==> Listed(done, p)
    ensures Midway(done, entries, secs, i, j + 1, Max(cur, secs[j].End()))
  {
    assert IsMidway(Only, rs, entries, secs, i, j, cur);
  }

  /** Section `j` splits entry `i` at its address. */
  lemma {:induction false} SplitAt(rs: seq<Region>, entries: seq<MemEntry>, secs: seq<Section>, i: nat, j: nat,
                                   cur: nat)
    requires i < |entries| && Ordered(entries, secs) && Midway(rs, entries, secs, i, j, cur) && j < |secs|
    requires entries[i].kind == 1 && 0 < cur && entries[i].start <= cur && secs[j].addr < entries[i].End()
    ensures var rs' := if secs[j].addr > cur then Added(rs, cur, secs[j].addr) else rs;
            Midway(rs', entries, secs, i, j + 1, Max(cur, secs[j].End()))
  {
    assert IsMidway(Only, rs, entries, secs, i, j, cur);
    SplitLists(rs, entries[i], secs, j, cur);
    AddedComplete(rs, entries, secs, i, cur, secs[j].addr);
    if secs[j].addr > cur {
      SplitSound(rs, entries, secs, i, j, cur);
      SectionSettled(rs, Added(rs, cur, secs[j].addr), entries, secs, i, j, cur);
    } else {
      SectionSettled(rs, rs, entries, secs, i, j, cur);
    }
  }

  /** What is left of entry `i` after the last section that begins inside it. */
  lemma {:induction false} FinishEntry(rs: seq<Region>, entries: seq<MemEntry>, secs: seq<Section>, i: nat, j: nat,
                                       cur: nat)
    requires i < |entries| && j <= |secs| && Ordered(entries, secs) && Midway(rs, entries, secs, i, j, cur)
    requires entries[i].kind == 1 && 0 < cur && entries[i].start <= cur
    requires j == |secs| || secs[j].addr >= entries[i].End()
    ensures var rs' := if cur < entries[i].End() then Added(rs, cur, entries[i].End()) else rs;
            && Sound(rs', entries, secs) && CompleteTo(rs', entries, secs, i + 1)
            && forall k :: 0 <= k < |rs'| ==> rs'[k].end <= entries[i].End()
  {
    assert IsMidway(Only, rs, entries, secs, i, j, cur);
    var hi := entries[i].End();
    if cur < hi {
      LeadingFirst(secs, entries[i].First());
      Apart(secs, FirstPast(secs, entries[i].First()), j, cur, hi);
      AddedSound(rs, entries, secs, i, cur, hi);
    }
    AddedListed(rs, cur, hi);
  }

  lemma {:induction false} EntryCovered(rs: seq<Region>, entries: seq<MemEntry>, secs: seq<Section>, i: nat, j: nat,
                                        cur: nat)
    requires i < |entries| && Midway(rs, entries, secs, i, j, cur) && cur >= entries[i].End()
    ensures Sound(rs, entries, secs) && CompleteTo(rs, entries, secs, i + 1)
    ensures forall k :: 0 <= k < |rs| ==> rs[k].end <= entries[i].End()
  {
    assert IsMidway(Only, rs, entries, secs, i, j, cur);
  }

  lemma {:induction false} EntryDone(rs: seq<Region>, entries: seq<MemEntry>, secs: seq<Section>, i: nat, j: nat)
    requires Ordered(entries, secs) && i < |entries| && entries[i].kind == 1
    requires Sound(rs, entries, secs) && CompleteTo(rs, entries, secs, i + 1)
    requires forall k :: 0 <= k < |rs| ==> rs[k].end <= entries[i].End()
    requires PassedBy(secs, j, Max(1, entries[i].End()))
    ensures BeforeEntry(rs, entries, secs, i + 1, j)
  {
  }

  lemma {:induction false} WholePage(p: nat, end: nat)
    requires p % PAGE == 0 && end % PAGE == 0 && p < end
    ensures p + PAGE <= end
  {
    assert p == p / PAGE * PAGE && end == end / PAGE * PAGE;
  }

  /** A listed page lies whole in its region, so no section that is not null meets it. */
  lemma {:induction false} ListedClear(rs: seq<Region>, entries: seq<MemEntry>, secs: seq<Section>, p: nat, q: nat)
    requires Sound(rs, entries, secs) && IsPage(p) && q < |secs| && secs[q].kind != 0
    ensures Listed(rs, p) ==> !Meets(secs[q], p, p + PAGE)
  {
    if Listed(rs, p) {
      var k :| 0 <= k < |rs| && rs[k].start <= p < rs[k].end;
      assert RegionSound(rs[k], entries, secs);
      WholePage(p, rs[k].end);
    }
  }

  lemma {:induction false} ClearWithin(e: MemEntry, secs: seq<Section>, lo: nat, hi: nat, p: nat)
    requires Clear(e, secs, lo, hi) && Inside(e, lo, hi) && IsPage(p) && lo <= p && p + PAGE <= hi
    ensures Usable(e, secs, p)
  {
  }

  /** The regions hold exactly the usable pages. */
  lemma {:induction false} ListedIffUsable(rs: seq<Region>, entries: seq<MemEntry>, secs: seq<Section>, p: nat)
    requires Sound(rs, entries, secs) && CompleteTo(rs, entries, secs, |entries|) && IsPage(p)
    ensures Listed(rs, p) <==> exists i :: 0 <= i < |entries| && Usable(entries[i], secs, p)
  {
    if Listed(rs, p) {
      var k :| 0 <= k < |rs| && rs[k].start <= p < rs[k].end;
      assert RegionSound(rs[k], entries, secs);
      WholePage(p, rs[k].end);
      var i :| 0 <= i < |entries| && Inside(entries[i], rs[k].start, rs[k].end)
               && Clear(entries[i], secs, rs[k].start, rs[k].end);
      ClearWithin(entries[i], secs, rs[k].start, rs[k].end, p);
    }
  }

  // ------------------------------------------------------ what null sections do

  /** A whole page of an available entry, other than page 0, that no section meets but null ones:
      what ignoring null sections would leave. */
  ghost predicate Vacant(e: MemEntry, secs: seq<Section>, p: nat) {
    IsPage(p) && Inside(e, p, p + PAGE)
    && forall q :: 0 <= q < |secs| && secs[q].kind != 0 ==> !Meets(secs[q], p, p + PAGE)
  }

  /** A section that is not null takes the page anyway. */
  ghost predicate Taken(secs: seq<Section>, p: nat) {
    exists r :: 0 <= r < |secs| && secs[r].kind != 0 && Meets(secs[r], p, p + PAGE)
  }

  /** Null section `q` does entry `e` no harm: the skip loop passes it, or what it meets of the
      entry is page 0, broken pages, and pages another section takes. */
  ghost predicate Harmless(e: MemEntry, secs: seq<Section>, q: nat)
    requires q < |secs|
  {
    q < FirstPast(secs, e.First())
    || forall p: nat :: IsPage(p) && Inside(e, p, p + PAGE) && Meets(secs[q], p, p + PAGE) ==> Taken(secs, p)
  }

  lemma {:induction false} UsableIsVacant(e: MemEntry, secs: seq<Section>, p: nat)
    requires Usable(e, secs, p)
    ensures Vacant(e, secs, p)
  {
  }

  /** A page inside two available entries is inside one. */
  lemma {:induction false} OneEntry(entries: seq<MemEntry>, secs: seq<Section>, i: nat, k: nat, p: nat)
    requires Ordered(entries, secs) && i < |entries| && k < |entries|
    requires Inside(entries[i], p, p + PAGE) && Inside(entries[k], p, p + PAGE)
    ensures i == k
  {
  }

  lemma {:induction false} VacantListed(rs: seq<Region>, entries: seq<MemEntry>, secs: seq<Section>, i: nat, p: nat)
    requires CompleteTo(rs, entries, secs, |entries|) && i < |entries| && Vacant(entries[i], secs, p)
    requires forall q :: 0 <= q < |secs| && secs[q].kind == 0 ==> Harmless(entries[i], secs, q)
    ensures Listed(rs, p)
  {
    assert !Taken(secs, p);
    assert Usable(entries[i], secs, p);
  }

  lemma {:induction false} HarmShows(rs: seq<Region>, entries: seq<MemEntry>, secs: seq<Section>, i: nat, q: nat)
    requires Ordered(entries, secs) && Sound(rs, entries, secs) && CompleteTo(rs, entries, secs, |entries|)
    requires i < |entries| && q < |secs| && !Harmless(entries[i], secs, q)
    ensures exists p :: Vacant(entries[i], secs, p) && !Listed(rs, p)
  {
    var p: nat :| IsPage(p) && Inside(entries[i], p, p + PAGE) && Meets(secs[q], p, p + PAGE) && !Taken(secs, p);
    assert Vacant(entries[i], secs, p);
    if Listed(rs, p) {
      ListedIffUsable(rs, entries, secs, p);
      var k :| 0 <= k < |entries| && Usable(entries[k], secs, p);
      OneEntry(entries, secs, i, k, p);
    }
  }

  /** The regions are what ignoring the null sections would leave if and only if every null
      section is harmless to every available entry. */
  lemma {:induction false} NullsIgnoredIff(rs: seq<Region>, entries: seq<MemEntry>, secs: seq<Section>)
    requires Ordered(entries, secs) && Sound(rs, entries, secs) && CompleteTo(rs, entries, secs, |entries|)
    ensures (forall p: nat :: IsPage(p) ==>
               (Listed(rs, p) <==> exists i :: 0 <= i < |entries| && Vacant(entries[i], secs, p)))
       <==> forall i, q :: 0 <= i < |entries| && entries[i].kind == 1 && 0 <= q < |secs| && secs[q].kind == 0 ==>
              Harmless(entries[i], secs, q)
  {
    if i, q :| 0 <= i < |entries| && 0 <= q < |secs| && secs[q].kind == 0 && !Harmless(entries[i], secs, q) {
      HarmShows(rs, entries, secs, i, q);
    } else {
      forall p: nat | IsPage(p)
        ensures Listed(rs, p) <==> exists i :: 0 <= i < |entries| && Vacant(entries[i], secs, p)
      {
        ListedIffUsable(rs, entries, secs, p);
        if i :| 0 <= i < |entries| && Vacant(entries[i], secs, p) {
          VacantListed(rs, entries, secs, i, p);
        }
        if k :| 0 <= k < |entries| && Usable(entries[k], secs, p) {
          UsableIsVacant(entries[k], secs, p);
        }
      }
    }
  }

  /** A null section after a real one is subtracted from the entry both lie in: page 0x3000 is
      lost. */
  lemma {:induction false} NullSubtracted()
    ensures var e := MemEntry(0x1000, 0x4000, 1);
            var secs := [Section(1, 0x1000, 0x1000), Section(0, 0x3000, 0x1000)];
            Ordered([e], secs) && !Harmless(e, secs, 1) && Vacant(e, secs, 0x3000) && !Usable(e, secs, 0x3000)
  {
    var e := MemEntry(0x1000, 0x4000, 1);
    var secs := [Section(1, 0x1000, 0x1000), Section(0, 0x3000, 0x1000)];
    assert FirstPast(secs, 0x1000) == 0;
    assert Meets(secs[1], 0x3000, 0x4000) && !Taken(secs, 0x3000);
  }

  lemma {:induction false} PastThird(secs: seq<Section>, bound: nat)
    requires |secs| == 3 && secs[0].End() <= bound && secs[1].kind == 0 && secs[2].kind != 0 && secs[2].End() > bound
    ensures FirstPast(secs, bound) == 2
  {
  }

  /** A null section the skip loop of the next entry passes is not: page 0x10000 stays. */
  lemma {:induction false} NullSkipped()
    ensures var es := [MemEntry(0x1000, 0x4000, 1), MemEntry(0x1_0000, 0x4_0000, 1)];
            var secs := [Section(1, 0x1000, 0x1000), Section(0, 0x1_0000, 0x2000), Section(1, 0x3_0000, 0x1000)];
            && Ordered(es, secs) && Harmless(es[0], secs, 1) && Harmless(es[1], secs, 1)
            && Usable(es[1], secs, 0x1_0000)
  {
    var es := [MemEntry(0x1000, 0x4000, 1), MemEntry(0x1_0000, 0x4_0000, 1)];
    var secs := [Section(1, 0x1000, 0x1000), Section(0, 0x1_0000, 0x2000), Section(1, 0x3_0000, 0x1000)];
    PastThird(secs, 0x1_0000);
    assert FirstPast(secs, 0x1000) == 0 && secs[0].kind == 1 && secs[2].kind == 1;
  }

  // ---------------------------------------------------------------------- gaps

  /** A range that is handed to add_region. */
  datatype Gap = Gap(lo: nat, hi: nat)

  function OneGap(lo: nat, hi: nat): seq<Gap> {
    if lo < hi then [Gap(lo, hi)] else []
  }

  /** What the section loop hands on from section `j` and address `cur`, with the rest up to `end`. */
  function GapsFrom(secs: seq<Section>, j: nat, cur: nat, end: nat): seq<Gap>
    requires j <= |secs|
    decreases |secs| - j
  {
    if j == |secs| || secs[j].addr >= end then OneGap(cur, end)
    else
      var next := Max(cur, secs[j].End());
      OneGap(cur, secs[j].addr) + if next >= end then [] else GapsFrom(secs, j + 1, next, end)
  }

  function Gaps(e: MemEntry, secs: seq<Section>): seq<Gap> {
    if e.kind == 1 then GapsFrom(secs, FirstPast(secs, e.First()), e.First(), e.End()) else []
  }

  /** Those of the first `n` entries. */
  function AllGaps(entries: seq<MemEntry>, secs: seq<Section>, n: nat): seq<Gap>
    requires n <= |entries|
  {
    if n == 0 then [] else AllGaps(entries, secs, n - 1) + Gaps(entries[n - 1], secs)
  }

  /** The regions of a list of gaps: the whole pages of each that has any. */
  function Regions(gaps: seq<Gap>): seq<Region> {
    if gaps == [] then []
    else var g := gaps[|gaps| - 1]; Added(Regions(gaps[..|gaps| - 1]), g.lo, g.hi)
  }

  /** The gaps before `k` fill the table. */
  ghost predicate FullBefore(gaps: seq<Gap>, k: nat)
    requires k <= |gaps|
  {
    |Regions(gaps[..k])| >= CAPACITY
  }

  ghost predicate IsOverflow(once: Once, gaps: seq<Gap>) {
    match once
    case Only => exists k: nat :: k < |gaps| && FullBefore(gaps, k)
  }

  /** Some gap comes when the table is full already. Opened where that is used. */
  ghost predicate Overflows(gaps: seq<Gap>) {
    forall once: Once :: IsOverflow(once, gaps)
  }

  /** A longest range of an available entry, from its first address other than 0 on, that meets no
      section that counts for the entry. */
  ghost predicate IsGap(e: MemEntry, secs: seq<Section>, g: Gap) {
    && e.kind == 1 && e.First() <= g.lo < g.hi <= e.End() && Clear(e, secs, g.lo, g.hi)
    && (g.lo == e.First() || exists q :: FirstPast(secs, e.First()) <= q < |secs| && secs[q].End() == g.lo)
    && (g.hi == e.End() || exists q :: FirstPast(secs, e.First()) <= q < |secs| && secs[q].addr == g.hi)
  }

  /** All sections from `f` up to `j` end at `cur` or before. */
  ghost predicate Settled(secs: seq<Section>, f: nat, j: nat, cur: nat) {
    f <= j <= |secs| && forall q :: f <= q < j ==> secs[q].End() <= cur
  }

  lemma {:induction false} LastGap(e: MemEntry, secs: seq<Section>, j: nat, cur: nat, g: Gap)
    requires var f := FirstPast(secs, e.First()); Ascending(secs, f) && Settled(secs, f, j, cur)
    requires e.kind == 1 && e.First() <= cur && (j < |secs| ==> secs[j].addr >= e.End() && !Blank(secs[j]))
    requires cur == e.First() || exists q :: FirstPast(secs, e.First()) <= q < j && secs[q].End() == cur
    ensures g in OneGap(cur, e.End()) <==> IsGap(e, secs, g) && cur <= g.lo
  {
    var f := FirstPast(secs, e.First());
    forall q | j <= q < |secs|
      ensures secs[q].addr >= e.End() || secs[q].End() == 0
    {
      assert q == j || Blank(secs[q]) || secs[j].addr <= secs[q].addr;
    }
    if cur < e.End() {
      assert Clear(e, secs, cur, e.End());
    }
  }

  lemma {:induction false} NextGap(e: MemEntry, secs: seq<Section>, j: nat, cur: nat, g: Gap)
    requires var f := FirstPast(secs, e.First()); Ascending(secs, f) && Settled(secs, f, j, cur)
    requires e.kind == 1 && 0 < e.First() <= cur && j < |secs| && secs[j].addr < e.End()
    requires cur == e.First() || exists q :: FirstPast(secs, e.First()) <= q < j && secs[q].End() == cur
    ensures g in OneGap(cur, secs[j].addr) <==> IsGap(e, secs, g) && cur <= g.lo < Max(cur, secs[j].End())
  {
    var f := FirstPast(secs, e.First());
    forall q | j < q < |secs|
      ensures !Blank(secs[j]) ==> secs[q].addr >= secs[j].addr || secs[q].End() == 0
    {
      assert Blank(secs[j]) || Blank(secs[q]) || secs[j].addr <= secs[q].addr;
    }
    if cur < secs[j].addr {
      assert Clear(e, secs, cur, secs[j].addr);
    }
  }

  ghost predicate IsAmong(once: Once, g: Gap, secs: seq<Section>, j: nat, cur: nat, end: nat) {
    match once
    case Only => j <= |secs| && g in GapsFrom(secs, j, cur, end)
  }

  /** The section loop hands `g` on. Opened where that is used. */
  ghost predicate Among(g: Gap, secs: seq<Section>, j: nat, cur: nat, end: nat) {
    forall once: Once :: IsAmong(once, g, secs, j, cur, end)
  }

  lemma {:induction false} AmongIff(g: Gap, secs: seq<Section>, j: nat, cur: nat, end: nat)
    requires j <= |secs|
    ensures Among(g, secs, j, cur, end) <==> g in GapsFrom(secs, j, cur, end)
  {
    if Among(g, secs, j, cur, end) {
      assert IsAmong(Only, g, secs, j, cur, end);
    }
  }

  lemma {:induction false} AmongLast(g: Gap, secs: seq<Section>, j: nat, cur: nat, end: nat)
    requires j <= |secs| && (j < |secs| ==> secs[j].addr >= end)
    ensures Among(g, secs, j, cur, end) <==> g in OneGap(cur, end)
  {
    AmongIff(g, secs, j, cur, end);
  }

  lemma {:induction false} AmongTurn(g: Gap, secs: seq<Section>, j: nat, cur: nat, end: nat)
    requires j < |secs| && secs[j].addr < end
    ensures var next := Max(cur, secs[j].End());
            Among(g, secs, j, cur, end)
            <==> g in OneGap(cur, secs[j].addr) || (next < end && Among(g, secs, j + 1, next, end))
  {
    AmongIff(g, secs, j, cur, end);
    AmongIff(g, secs, j + 1, Max(cur, secs[j].End()), end);
  }

  /** From section `j` on the loop hands on exactly the gaps from `cur` on. */
  lemma {:induction false} GapsFromAre(e: MemEntry, secs: seq<Section>, j: nat, cur: nat, g: Gap)
    requires var f := FirstPast(secs, e.First()); Ascending(secs, f) && Settled(secs, f, j, cur)
    requires e.kind == 1 && 0 < e.First() <= cur
    requires cur == e.First() || exists q :: FirstPast(secs, e.First()) <= q < j && secs[q].End() == cur
    ensures Among(g, secs, j, cur, e.End()) <==> IsGap(e, secs, g) && cur <= g.lo
    decreases |secs| - j
  {
    if j == |secs| || secs[j].addr >= e.End() {
      AmongLast(g, secs, j, cur, e.End());
      if j < |secs| && Blank(secs[j]) {
        BeyondEnd(e, secs, j, cur, g);
      } else {
        LastGap(e, secs, j, cur, g);
      }
    } else {
      var next := Max(cur, secs[j].End());
      AmongTurn(g, secs, j, cur, e.End());
      NextGap(e, secs, j, cur, g);
      if next < e.End() {
        GapsFromAre(e, secs, j + 1, next, g);
      }
    }
  }

  lemma {:induction false} BeyondEnd(e: MemEntry, secs: seq<Section>, j: nat, cur: nat, g: Gap)
    requires e.First() <= cur && e.End() == 0
    ensures g !in OneGap(cur, e.End()) && !IsGap(e, secs, g)
  {
  }

  /** build_mem_regions hands add_region the gaps of the available entries and nothing else. */
  lemma {:induction false} GapsAre(entries: seq<MemEntry>, secs: seq<Section>, i: nat, g: Gap)
    requires Ordered(entries, secs) && i < |entries|
    ensures g in Gaps(entries[i], secs) <==> IsGap(entries[i], secs, g)
  {
    var e := entries[i];
    if e.kind == 1 {
      LeadingFirst(secs, e.First());
      GapsFromAre(e, secs, FirstPast(secs, e.First()), e.First(), g);
      AmongIff(g, secs, FirstPast(secs, e.First()), e.First(), e.End());
    }
  }

  /** In ascending order, each once. */
  lemma {:induction false} GapsAscend(secs: seq<Section>, j: nat, cur: nat, end: nat)
    requires j <= |secs|
    ensures forall k :: 0 <= k < |GapsFrom(secs, j, cur, end)| ==>
              cur <= GapsFrom(secs, j, cur, end)[k].lo && GapsFrom(secs, j, cur, end)[k].hi <= end
    ensures forall k, m :: 0 <= k < m < |GapsFrom(secs, j, cur, end)| ==>
              GapsFrom(secs, j, cur, end)[k].hi <= GapsFrom(secs, j, cur, end)[m].lo
    decreases |secs| - j
  {
    if j < |secs| && secs[j].addr < end && Max(cur, secs[j].End()) < end {
      GapsAscend(secs, j + 1, Max(cur, secs[j].End()), end);
    }
  }

  /** The table is full when gap `g` comes. */
  lemma {:induction false} FullOverflows(gaps: seq<Gap>, g: Gap, more: seq<Gap>)
    requires |Regions(gaps)| >= CAPACITY
    ensures Overflows(gaps + ([g] + more))
  {
    assert (gaps + ([g] + more))[..|gaps|] == gaps;
    assert FullBefore(gaps + ([g] + more), |gaps|);
    assert IsOverflow(Only, gaps + ([g] + more));
  }

  lemma {:induction false} RegionsFew(gaps: seq<Gap>)
    ensures |Regions(gaps)| <= |gaps|
  {
    if gaps != [] {
      RegionsFew(gaps[..|gaps| - 1]);
    }
  }

  /** 16 gaps or fewer never halt the machine. */
  lemma {:induction false} SixteenFit(gaps: seq<Gap>)
    requires |gaps| <= 16
    ensures !Overflows(gaps)
  {
    forall k: nat | k < |gaps|
      ensures !FullBefore(gaps, k)
    {
      RegionsFew(gaps[..k]);
    }
    assert !IsOverflow(Only, gaps);
  }

  ghost predicate IsTrack(once: Once, list: seq<Region>, gaps: seq<Gap>) {
    match once
    case Only => list == Regions(gaps) && !Overflows(gaps)
  }

  /** The list is what the gaps lead to without overflow. Opened where that is used. */
  ghost predicate Tracks(list: seq<Region>, gaps: seq<Gap>) {
    forall once: Once :: IsTrack(once, list, gaps)
  }

  lemma {:induction false} TracksNone()
    ensures Tracks([], [])
  {
    assert !IsOverflow(Only, []);
  }

  lemma {:induction false} TracksMore(list: seq<Region>, gaps: seq<Gap>, lo: nat, hi: nat)
    requires Tracks(list, gaps) && |list| < CAPACITY
    ensures Tracks(Added(list, lo, hi), gaps + [Gap(lo, hi)])
  {
    assert IsTrack(Only, list, gaps);
    OneMoreRegion(gaps, Gap(lo, hi));
  }

  lemma {:induction false} TracksFull(list: seq<Region>, gaps: seq<Gap>, lo: nat, hi: nat, more: seq<Gap>)
    requires Tracks(list, gaps) && |list| >= CAPACITY
    ensures Overflows(gaps + ([Gap(lo, hi)] + more))
  {
    assert IsTrack(Only, list, gaps);
    FullOverflows(gaps, Gap(lo, hi), more);
  }

  lemma {:induction false} TracksEnd(list: seq<Region>, gaps: seq<Gap>)
    requires Tracks(list, gaps)
    ensures list == Regions(gaps) && !Overflows(gaps)
  {
    assert IsTrack(Only, list, gaps);
  }

  lemma {:induction false} NoOverflow(gaps: seq<Gap>)
    requires !Overflows(gaps)
    ensures forall k: nat :: k < |gaps| ==> !FullBefore(gaps, k)
  {
    var once: Once :| !IsOverflow(once, gaps);
  }

  lemma {:induction false} OneMoreRegion(gaps: seq<Gap>, g: Gap)
    requires !Overflows(gaps) && |Regions(gaps)| < CAPACITY
    ensures Regions(gaps + [g]) == Added(Regions(gaps), g.lo, g.hi) && !Overflows(gaps + [g])
  {
    var more := gaps + [g];
    NoOverflow(gaps);
    assert more[..|gaps|] == gaps == gaps[..|gaps|];
    forall k: nat | k < |more|
      ensures !FullBefore(more, k)
    {
      assert more[..k] == gaps[..k];
      assert k < |gaps| ==> !FullBefore(gaps, k);
    }
    assert !IsOverflow(Only, more);
  }

  lemma {:induction false} MoreOverflows(gaps: seq<Gap>, more: seq<Gap>)
    requires Overflows(gaps)
    ensures Overflows(gaps + more)
  {
    assert IsOverflow(Only, gaps);
    var k: nat :| k < |gaps| && FullBefore(gaps, k);
    assert (gaps + more)[..k] == gaps[..k];
    assert FullBefore(gaps + more, k);
  }

  ghost predicate IsHanded(once: Once, added: seq<Gap>, entries: seq<MemEntry>, secs: seq<Section>, n: nat) {
    match once
    case Only => n <= |entries| && added == AllGaps(entries, secs, n)
  }

  /** The gaps of the first `n` entries are what was handed on. Opened where that is used. */
  ghost predicate Handed(added: seq<Gap>, entries: seq<MemEntry>, secs: seq<Section>, n: nat) {
    forall once: Once :: IsHanded(once, added, entries, secs, n)
  }

  lemma {:induction false} HandedNone(entries: seq<MemEntry>, secs: seq<Section>)
    ensures Handed([], entries, secs, 0)
  {
  }

  lemma {:induction false} HandedNext(added: seq<Gap>, entries: seq<MemEntry>, secs: seq<Section>, i: nat)
    requires Handed(added, entries, secs, i) && i < |entries|
    ensures Handed(added + Gaps(entries[i], secs), entries, secs, i + 1)
  {
    assert IsHanded(Only, added, entries, secs, i);
  }

  lemma {:induction false} NoGaps(added: seq<Gap>, entries: seq<MemEntry>, secs: seq<Section>, i: nat)
    requires Handed(added, entries, secs, i) && i < |entries| && entries[i].kind != 1
    ensures Handed(added, entries, secs, i + 1)
  {
    HandedNext(added, entries, secs, i);
    assert added + Gaps(entries[i], secs) == added;
  }

  lemma {:induction false} HandedMore(added: seq<Gap>, entries: seq<MemEntry>, secs: seq<Section>, i: nat)
    returns (next: seq<Gap>)
    requires Handed(added, entries, secs, i) && i < |entries|
    ensures Handed(next, entries, secs, i + 1) && (Overflows(added) ==> Overflows(next))
  {
    next := added + Gaps(entries[i], secs);
    HandedNext(added, entries, secs, i);
    if Overflows(added) {
      MoreOverflows(added, Gaps(entries[i], secs));
    }
  }

  lemma {:induction false} HandedOnce(added: seq<Gap>, total: seq<Gap>, entries: seq<MemEntry>, secs: seq<Section>,
                                      n: nat)
    requires Handed(added, entries, secs, n) && Handed(total, entries, secs, n)
    ensures added == total
  {
    assert IsHanded(Only, added, entries, secs, n) && IsHanded(Only, total, entries, secs, n);
  }

  lemma {:induction false} StaysOverflown(added: seq<Gap>, entries: seq<MemEntry>, secs: seq<Section>, i: nat,
                                          total: seq<Gap>)
    requires i <= |entries| && Handed(added, entries, secs, i) && Handed(total, entries, secs, |entries|)
    requires Overflows(added)
    ensures Overflows(total)
    decreases |entries| - i
  {
    if i == |entries| {
      HandedOnce(added, total, entries, secs, i);
    } else {
      var next := HandedMore(added, entries, secs, i);
      StaysOverflown(next, entries, secs, i + 1, total);
    }
  }

  lemma {:induction false} HandedTotal(entries: seq<MemEntry>, secs: seq<Section>)
    ensures Handed(AllGaps(entries, secs, |entries|), entries, secs, |entries|)
  {
  }

  lemma {:induction false} HandedTooMany(added: seq<Gap>, entries: seq<MemEntry>, secs: seq<Section>, i: nat)
    requires Handed(added, entries, secs, i) && i < |entries| && Overflows(added + Gaps(entries[i], secs))
    ensures Overflows(AllGaps(entries, secs, |entries|))
  {
    HandedNext(added, entries, secs, i);
    HandedTotal(entries, secs);
    StaysOverflown(added + Gaps(entries[i], secs), entries, secs, i + 1, AllGaps(entries, secs, |entries|));
  }

  lemma {:induction false} HandedAll(added: seq<Gap>, entries: seq<MemEntry>, secs: seq<Section>)
    requires Handed(added, entries, secs, |entries|)
    ensures added == AllGaps(entries, secs, |entries|)
  {
    assert IsHanded(Only, added, entries, secs, |entries|);
  }

  ghost predicate IsAhead(once: Once, added: seq<Gap>, secs: seq<Section>, j: nat, cur: nat, end: nat,
                          whole: seq<Gap>) {
    match once
    case Only => j <= |secs| && added + GapsFrom(secs, j, cur, end) == whole
  }

  /** With what is ahead of the section loop, `whole` will have been handed on. Opened where that
      is used. */
  ghost predicate Ahead(added: seq<Gap>, secs: seq<Section>, j: nat, cur: nat, end: nat, whole: seq<Gap>) {
    forall once: Once :: IsAhead(once, added, secs, j, cur, end, whole)
  }

  lemma {:induction false} AheadStart(added: seq<Gap>, e: MemEntry, secs: seq<Section>)
    requires e.kind == 1
    ensures Ahead(added, secs, FirstPast(secs, e.First()), e.First(), e.End(), added + Gaps(e, secs))
  {
  }

  lemma {:induction false} AheadEnd(added: seq<Gap>, secs: seq<Section>, j: nat, cur: nat, end: nat, whole: seq<Gap>)
    requires Ahead(added, secs, j, cur, end, whole) && j <= |secs| && (j < |secs| ==> secs[j].addr >= end)
    ensures added + OneGap(cur, end) == whole
  {
    assert IsAhead(Only, added, secs, j, cur, end, whole);
  }

  /** One turn of the section loop that adds what lies before the section. */
  lemma {:induction false} AheadTurn(added: seq<Gap>, secs: seq<Section>, j: nat, cur: nat, end: nat, whole: seq<Gap>)
    requires Ahead(added, secs, j, cur, end, whole) && j < |secs| && secs[j].addr < end
    requires Max(cur, secs[j].End()) < end
    ensures Ahead(added + OneGap(cur, secs[j].addr), secs, j + 1, Max(cur, secs[j].End()), end, whole)
  {
    assert IsAhead(Only, added, secs, j, cur, end, whole);
    var rest := GapsFrom(secs, j + 1, Max(cur, secs[j].End()), end);
    assert added + (OneGap(cur, secs[j].addr) + rest) == added + OneGap(cur, secs[j].addr) + rest;
  }

  /** The turn whose section reaches the end. */
  lemma {:induction false} AheadStop(added: seq<Gap>, secs: seq<Section>, j: nat, cur: nat, end: nat, whole: seq<Gap>)
    requires Ahead(added, secs, j, cur, end, whole) && j < |secs| && secs[j].addr < end <= Max(cur, secs[j].End())
    ensures added + OneGap(cur, secs[j].addr) + OneGap(Max(cur, secs[j].End()), end) == whole
  {
    assert IsAhead(Only, added, secs, j, cur, end, whole);
  }

  /** One turn of it that meets a full table. */
  lemma {:induction false} AheadFull(added: seq<Gap>, secs: seq<Section>, j: nat, cur: nat, end: nat, whole: seq<Gap>,
                                     list: seq<Region>)
    requires Ahead(added, secs, j, cur, end, whole) && j < |secs| && cur < secs[j].addr < end
    requires Tracks(list, added) && |list| >= CAPACITY
    ensures Overflows(whole)
  {
    assert IsAhead(Only, added, secs, j, cur, end, whole);
    var next := Max(cur, secs[j].End());
    TracksFull(list, added, cur, secs[j].addr, if next >= end then [] else GapsFrom(secs, j + 1, next, end));
  }

  // ------------------------------------------------------------------ the table

  /** The static region table. */
  class RegionTable {
    const d: array<Region>
    var size: nat
    ghost var added: seq<Gap>   // what add_region was called with

    ghost predicate Valid()
      reads this, d
    {
      size <= d.Length == CAPACITY && Tracks(d[..size], added)
    }

    ghost function List(): (r: seq<Region>)
      requires Valid()
      reads this, d
    {
      d[..size]
    }

    constructor ()
      ensures Valid() && List() == [] && added == [] && fresh(d)
    {
      d := new Region[CAPACITY](_ => Region(0, 0, 0));
      size := 0;
      added := [];
      TracksNone();
    }

    /** add_region: halts when the table is full. */
    method AddRegion(start: nat, end: nat) returns (halted: bool)
      requires Valid()
      modifies this, d
      ensures Valid()
      ensures halted <==> old(size) == CAPACITY
      ensures List() == if halted then old(List()) else Added(old(List()), start, end)
      ensures added == if halted then old(added) else old(added) + [Gap(start, end)]
    {
      if size == CAPACITY {
        return true;
      }
      TracksMore(List(), added, start, end);
      var s := Align(start, true);
      var e := Align(end, false);
      if s < e {
        d[size] := Region(s, e, s);
        size := size + 1;
      }
      assert d[..size] == Added(old(d[..size]), start, end);
      added := added + [Gap(start, end)];
      return false;
    }

    /** One turn of the section loop: what lies between `cur` and section `j` is added. */
    method Subtract(entries: seq<MemEntry>, secs: seq<Section>, i: nat, j: nat, cur: nat, end: nat)
      returns (halted: bool, next: nat)
      requires Valid() && i < |entries| && j < |secs| && Ordered(entries, secs)
      requires Midway(List(), entries, secs, i, j, cur)
      requires entries[i].kind == 1 && 0 < cur && entries[i].start <= cur
      requires end == entries[i].End() && secs[j].addr < end
      modifies this, d
      ensures Valid() && next == Max(cur, secs[j].End())
      ensures !halted ==> Midway(List(), entries, secs, i, j + 1, next)
      ensures !halted ==> added == old(added) + OneGap(cur, secs[j].addr)
      ensures halted ==> old(size) == size == CAPACITY && added == old(added) && cur < secs[j].addr
    {
      SplitAt(List(), entries, secs, i, j, cur);
      next := Max(cur, secs[j].addr + secs[j].size);
      halted := false;
      if secs[j].addr > cur {
        halted := AddRegion(cur, Min(secs[j].addr, end));
      }
    }

    /** The skip loop of build_mem_regions. */
    method SkipSections(secs: seq<Section>, first: nat, start: nat) returns (j: nat)
      requires PassedBy(secs, first, start)
      ensures PassedBy(secs, j, start) && first <= j
      ensures j < |secs| ==> secs[j].kind != 0 && secs[j].End() > start
    {
      j := first;
      while j < |secs| && (secs[j].kind == 0 || secs[j].addr + secs[j].size <= start)
        invariant first <= j && PassedBy(secs, j, start)
      {
        j := j + 1;
      }
    }

    /** The section loop for entry `i`: `j` is the section it stops at, `k` how many are settled. */
    method SubtractAll(entries: seq<MemEntry>, secs: seq<Section>, i: nat, first: nat, start: nat, end: nat,
                       ghost whole: seq<Gap>)
      returns (halted: bool, j: nat, cur: nat, ghost k: nat)
      requires Valid() && i < |entries| && Ordered(entries, secs) && Midway(List(), entries, secs, i, first, start)
      requires entries[i].kind == 1 && 0 < start && entries[i].start <= start && end == entries[i].End()
      requires PassedBy(secs, first, Max(1, end)) && Ahead(added, secs, first, start, end, whole)
      modifies this, d
      ensures Valid()
      ensures !halted ==>
                && Midway(List(), entries, secs, i, k, cur) && 0 < cur && entries[i].start <= cur
                && k <= |secs| && (cur >= end || k == |secs| || secs[k].addr >= end)
                && PassedBy(secs, j, Max(1, end))
      ensures !halted ==> added + OneGap(cur, end) == whole
      ensures halted ==> size == CAPACITY && Overflows(whole)
    {
      j, cur, k, halted := first, start, first, false;
      while j < |secs| && secs[j].addr < end
        invariant Valid() && 0 < cur && entries[i].start <= cur && k == j && !halted
        invariant Midway(List(), entries, secs, i, k, cur)
        invariant PassedBy(secs, j, Max(1, end))
        invariant Ahead(added, secs, j, cur, end, whole)
        decreases |secs| - j
      {
        ghost var before, list, at := added, List(), cur;
        halted, cur := Subtract(entries, secs, i, j, cur, end);
        if halted {
          AheadFull(before, secs, j, at, end, whole, list);
          return;
        }
        k := k + 1;
        if cur >= end {
          AheadStop(before, secs, j, at, end, whole);
          return;
        }
        AheadTurn(before, secs, j, at, end, whole);
        j := j + 1;
      }
      AheadEnd(added, secs, j, cur, end, whole);
    }

    /** Where entry `i` begins: its first address other than 0, and the section the skip loop stops
        at. */
    method Begin(entries: seq<MemEntry>, secs: seq<Section>, i: nat, first: nat) returns (start: nat, j: nat)
      requires Valid() && Ordered(entries, secs) && i < |entries| && entries[i].kind == 1
      requires BeforeEntry(List(), entries, secs, i, first)
      ensures 0 < start == entries[i].First() && entries[i].start <= start && j == FirstPast(secs, start)
      ensures Midway(List(), entries, secs, i, j, start) && PassedBy(secs, j, Max(1, entries[i].End()))
    {
      start := entries[i].start;
      if start == 0 {
        start := start + 1;
      }
      BeforePassed(List(), entries, secs, i, first);
      j := SkipSections(secs, first, start);
      BeforeLater(List(), entries, secs, i, first, j);
      assert FirstPast(secs, start) == j;
      BeginEntry(List(), entries, secs, i, j, start);
    }

    /** The rest of the entry after the section loop. */
    method Finish(entries: seq<MemEntry>, secs: seq<Section>, i: nat, ghost k: nat, cur: nat, end: nat, ghost j: nat)
      returns (halted: bool)
      requires Valid() && i < |entries| && k <= |secs| && Ordered(entries, secs)
      requires Midway(List(), entries, secs, i, k, cur)
      requires entries[i].kind == 1 && 0 < cur && entries[i].start <= cur && end == entries[i].End()
      requires cur >= end || k == |secs| || secs[k].addr >= end
      requires PassedBy(secs, j, Max(1, end))
      modifies this, d
      ensures Valid()
      ensures !halted ==> BeforeEntry(List(), entries, secs, i + 1, j) && added == old(added) + OneGap(cur, end)
      ensures halted ==> size == CAPACITY && Overflows(old(added) + OneGap(cur, end))
    {
      halted := false;
      ghost var before, list := added, List();
      if cur < entries[i].start + entries[i].length {
        FinishEntry(List(), entries, secs, i, k, cur);
        halted := AddRegion(cur, end);
      } else {
        EntryCovered(List(), entries, secs, i, k, cur);
      }
      if !halted {
        EntryDone(List(), entries, secs, i, j);
      } else {
        TracksFull(list, before, cur, end, []);
        assert before + ([Gap(cur, end)] + []) == before + OneGap(cur, end);
      }
    }

    /** The part of build_mem_regions for one available entry `i`: returns the section index to
        go on from. */
    method AddEntry(entries: seq<MemEntry>, secs: seq<Section>, i: nat, first: nat) returns (halted: bool, j: nat)
      requires Valid() && Ordered(entries, secs) && i < |entries| && entries[i].kind == 1
      requires BeforeEntry(List(), entries, secs, i, first)
      modifies this, d
      ensures Valid()
      ensures !halted ==> BeforeEntry(List(), entries, secs, i + 1, j) && added == old(added) + Gaps(entries[i], secs)
      ensures halted ==> size == CAPACITY && Overflows(old(added) + Gaps(entries[i], secs))
    {
      var start;
      start, j := Begin(entries, secs, i, first);
      var end := entries[i].start + entries[i].length;
      var cur;
      ghost var k;
      AheadStart(added, entries[i], secs);
      halted, j, cur, k := SubtractAll(entries, secs, i, j, start, end, added + Gaps(entries[i], secs));
      if !halted {
        halted := Finish(entries, secs, i, k, cur, end, j);
      }
    }

    /** The loop over entries that are not available. */
    method SkipEntries(entries: seq<MemEntry>, secs: seq<Section>, first: nat, ghost j: nat) returns (i: nat)
      requires Valid() && first <= |entries| && BeforeEntry(List(), entries, secs, first, j)
      requires Handed(added, entries, secs, first)
      ensures first <= i <= |entries| && (i < |entries| ==> entries[i].kind == 1)
      ensures BeforeEntry(List(), entries, secs, i, j) && Handed(added, entries, secs, i)
    {
      i := first;
      while i < |entries| && entries[i].kind != 1
        invariant first <= i <= |entries| && BeforeEntry(List(), entries, secs, i, j)
        invariant Handed(added, entries, secs, i)
      {
        SkipEntry(List(), entries, secs, i, j);
        NoGaps(added, entries, secs, i);
        i := i + 1;
      }
    }

    /** build_mem_regions. The table holds the whole pages of the gaps of the available entries, in
        order; the machine halts if and only if a gap comes when 16 regions are there already. The
        regions are sound, and every usable page of an available entry lies in one of them. */
    method BuildMemRegions(entries: seq<MemEntry>, secs: seq<Section>) returns (halted: bool)
      requires Valid() && added == [] && Ordered(entries, secs)
      modifies this, d
      ensures Valid()
      ensures halted <==> Overflows(AllGaps(entries, secs, |entries|))
      ensures !halted ==> List() == Regions(AllGaps(entries, secs, |entries|))
      ensures !halted ==> Sound(List(), entries, secs) && CompleteTo(List(), entries, secs, |entries|)
      ensures halted ==> size == 16
    {
      TracksEnd(List(), added);
      BeforeStart(entries, secs);
      HandedNone(entries, secs);
      var i, j := 0, 0;
      while i < |entries|
        invariant i <= |entries| && Valid() && BeforeEntry(List(), entries, secs, i, j)
        invariant Handed(added, entries, secs, i)
        decreases |entries| - i
      {
        i := SkipEntries(entries, secs, i, j);
        if i == |entries| {
          break;
        }
        ghost var before := added;
        halted, j := AddEntry(entries, secs, i, j);
        if halted {
          HandedTooMany(before, entries, secs, i);
          return;
        }
        HandedNext(before, entries, secs, i);
        i := i + 1;
      }
      TracksEnd(List(), added);
      HandedAll(added, entries, secs);
      BeforeEnd(List(), entries, secs, i, j);
      return false;
    }
  }
}
