/** From the memory map to the running memory manager: the regions build_mem_regions leaves are
    the ones the frame allocator starts from. */
module Boot {
  import opened Options
  import PageTree
  import KernelMemory
  import HeapPaging
  import MemoryRuns
  import MemoryManager
  import M = MemRegions

  /** The same regions, counted in frames. */
  function InFrames(rs: seq<M.Region>): (fs: seq<MemoryManager.MemRegion>)
    ensures |fs| == |rs|
  {
    seq(|rs|, i requires 0 <= i < |rs| =>
      MemoryManager.MemRegion(rs[i].start / M.PAGE, rs[i].end / M.PAGE, rs[i].next / M.PAGE))
  }

  lemma {:induction false} BuiltRegionsFit(rs: seq<M.Region>, entries: seq<M.MemEntry>, secs: seq<M.Section>)
    requires M.Sound(rs, entries, secs)
    requires forall k :: 0 <= k < |rs| ==> rs[k].end <= PageTree.HEAP_BASE * M.PAGE
    ensures var fs := InFrames(rs);
            && KernelMemory.RegionsOk(MemoryManager.BoundsOf(fs))
            && forall k :: 0 <= k < |fs| ==> fs[k].next == fs[k].start
  {
    forall k | 0 <= k < |rs|
      ensures 1 <= rs[k].start / M.PAGE <= rs[k].end / M.PAGE <= PageTree.HEAP_BASE && rs[k].next == rs[k].start
    {
      assert M.RegionSound(rs[k], entries, secs);
    }
    forall k, m | 0 <= k < m < |rs|
      ensures rs[k].end / M.PAGE <= rs[m].start / M.PAGE
    {
    }
  }

  /** A frame can ever be handed out exactly when its page is listed. */
  lemma {:induction false} CoveredIffListed(rs: seq<M.Region>, entries: seq<M.MemEntry>, secs: seq<M.Section>, f: nat)
    requires M.Sound(rs, entries, secs)
    ensures KernelMemory.Covered(MemoryManager.BoundsOf(InFrames(rs)), f) <==> M.Listed(rs, f * M.PAGE)
  {
    var bs := MemoryManager.BoundsOf(InFrames(rs));
    forall k | 0 <= k < |rs|
      ensures bs[k].start <= f < bs[k].end <==> rs[k].start <= f * M.PAGE < rs[k].end
    {
      assert M.RegionSound(rs[k], entries, secs);
      assert rs[k].start / M.PAGE * M.PAGE == rs[k].start && rs[k].end / M.PAGE * M.PAGE == rs[k].end;
    }
    if M.Listed(rs, f * M.PAGE) {
      var k :| 0 <= k < |rs| && rs[k].start <= f * M.PAGE < rs[k].end;
      assert bs[k].start <= f < bs[k].end;
    }
    if KernelMemory.Covered(bs, f) {
      var k :| 0 <= k < |bs| && bs[k].start <= f < bs[k].end;
      assert rs[k].start <= f * M.PAGE < rs[k].end;
    }
  }

  /** `t` is the state after some run of memory operations from the boot state over `rs`. */
  ghost predicate Reached(rs: seq<M.Region>, s: KernelMemory.State, ops: seq<MemoryRuns.Op>, t: KernelMemory.State) {
    MemoryRuns.Reached(s, ops, t) && s.regions == MemoryManager.BoundsOf(InFrames(rs))
  }

  lemma {:induction false} FrameUsed(t: KernelMemory.State, f: nat)
    requires MemoryRuns.Good(t) && KernelMemory.Covered(t.regions, f)
    ensures exists o :: MemoryRuns.Owns(t, o, f) && forall q :: MemoryRuns.Owns(t, q, f) ==> q == o
    ensures HeapPaging.Translate(t, f * M.PAGE) == Some(f * M.PAGE)
  {
    MemoryRuns.ExactlyOneOwner(t, f);
    MemoryRuns.GoodFrame(t, f, 0);
  }

  /** Over every run after boot, each usable page of available memory has exactly one owner and
      can be written through its own address. */
  lemma {:induction false} UsablePageOwned(rs: seq<M.Region>, entries: seq<M.MemEntry>, secs: seq<M.Section>,
                                           s: KernelMemory.State, ops: seq<MemoryRuns.Op>, t: KernelMemory.State,
                                           i: nat, f: nat)
    requires M.Sound(rs, entries, secs) && M.CompleteTo(rs, entries, secs, |entries|)
    requires Reached(rs, s, ops, t)
    requires i < |entries| && M.Usable(entries[i], secs, f * M.PAGE)
    ensures exists o :: MemoryRuns.Owns(t, o, f) && forall q :: MemoryRuns.Owns(t, q, f) ==> q == o
    ensures HeapPaging.Translate(t, f * M.PAGE) == Some(f * M.PAGE)
  {
    UsableCovered(rs, entries, secs, i, f);
    MemoryRuns.ReachedGood(s, ops, t);
    FrameUsed(t, f);
  }

  lemma {:induction false} UsableCovered(rs: seq<M.Region>, entries: seq<M.MemEntry>, secs: seq<M.Section>, i: nat,
                                         f: nat)
    requires M.Sound(rs, entries, secs) && M.CompleteTo(rs, entries, secs, |entries|)
    requires i < |entries| && M.Usable(entries[i], secs, f * M.PAGE)
    ensures KernelMemory.Covered(MemoryManager.BoundsOf(InFrames(rs)), f)
  {
    CoveredIffListed(rs, entries, secs, f);
  }

  lemma {:induction false} FrameUnused(t: KernelMemory.State, f: nat, o: KernelMemory.Owner)
    requires MemoryRuns.Good(t) && !KernelMemory.Covered(t.regions, f)
    ensures !MemoryRuns.Owns(t, o, f)
  {
    MemoryRuns.ExactlyOneOwner(t, f);
  }

  lemma {:induction false} SectionUncovered(rs: seq<M.Region>, entries: seq<M.MemEntry>, secs: seq<M.Section>, q: nat,
                                            f: nat)
    requires M.Sound(rs, entries, secs)
    requires q < |secs| && secs[q].kind != 0 && f > 0 && M.Meets(secs[q], f * M.PAGE, f * M.PAGE + M.PAGE)
    ensures !KernelMemory.Covered(MemoryManager.BoundsOf(InFrames(rs)), f)
  {
    CoveredIffListed(rs, entries, secs, f);
    M.ListedClear(rs, entries, secs, f * M.PAGE, q);
  }

  /** And no frame that meets a section is ever owned by anyone. */
  lemma {:induction false} SectionNeverOwned(rs: seq<M.Region>, entries: seq<M.MemEntry>, secs: seq<M.Section>,
                                             s: KernelMemory.State, ops: seq<MemoryRuns.Op>, t: KernelMemory.State,
                                             q: nat, f: nat, o: KernelMemory.Owner)
    requires M.Sound(rs, entries, secs) && Reached(rs, s, ops, t)
    requires q < |secs| && secs[q].kind != 0 && f > 0 && M.Meets(secs[q], f * M.PAGE, f * M.PAGE + M.PAGE)
    ensures !MemoryRuns.Owns(t, o, f)
  {
    SectionUncovered(rs, entries, secs, q, f);
    MemoryRuns.ReachedGood(s, ops, t);
    FrameUnused(t, f, o);
  }
}
