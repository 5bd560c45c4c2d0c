/** How many page tables a walk needs, as a number. */
module PageCount {
  import opened PageTree
  import opened PageWalk

  lemma {:induction false} MissingIsCount(have: set<Path>, v: nat, k: nat)
    requires k <= 3
    ensures Missing(have, v, k) == |PathsTo(v, k) - have|
  {
    if k > 0 {
      MissingIsCount(have, v, k - 1);
      DeeperPathIsNew(v, k, k - 1);
      var p, before := VPath(v, k), PathsTo(v, k - 1) - have;
      assert PathsTo(v, k) - have == if p in have then before else before + {p};
    } else {
      assert PathsTo(v, 0) - have == {};
    }
  }

  /** The tables a walk adds are the touched ones that were absent. */
  lemma {:induction false} NeededIsCount(have: set<Path>, lo: nat, hi: nat)
    ensures Needed(have, lo, hi) == |Touched(lo, hi) - have|
    decreases hi
  {
    if hi <= lo {
      assert Touched(lo, hi) - have == {};
    } else {
      NeededIsCount(have, lo, hi - 1);
      MissingIsCount(have + Touched(lo, hi - 1), hi - 1, 3);
      AbsentSplit(Touched(lo, hi - 1), PathsTo(hi - 1, 3), have);
    }
  }

  lemma {:induction false} AbsentSplit<T>(a: set<T>, b: set<T>, have: set<T>)
    ensures |(a + b) - have| == |a - have| + |b - (have + a)|
  {
    assert (a + b) - have == (a - have) + (b - (have + a));
  }

  /** The depth-`k` tables on the way to the pages of a range. */
  ghost function TouchedAt(lo: nat, hi: nat, k: nat): set<Path>
    requires k <= 3
    decreases hi
  {
    if hi <= lo then {} else TouchedAt(lo, hi - 1, k) + {VPath(hi - 1, k)}
  }

  lemma {:induction false} SpanMonotone(v: nat, w: nat, k: nat)
    requires v <= w && 1 <= k <= 3
    ensures v / Span(4 - k) <= w / Span(4 - k)
  {
  }

  lemma {:induction false} SpanStep(w: nat, k: nat)
    requires w > 0 && 1 <= k <= 3
    ensures w / Span(4 - k) == (w - 1) / Span(4 - k) || w / Span(4 - k) == (w - 1) / Span(4 - k) + 1
  {
  }

  /** A page goes through a touched table exactly when its span is one the range meets. */
  lemma {:induction false} TouchedAtMember(lo: nat, hi: nat, v: nat, k: nat)
    requires hi <= NUM_PAGES && v < NUM_PAGES && 1 <= k <= 3
    ensures VPath(v, k) in TouchedAt(lo, hi, k) <==>
              lo < hi && lo / Span(4 - k) <= v / Span(4 - k) <= (hi - 1) / Span(4 - k)
    decreases hi
  {
    if lo < hi {
      TouchedAtMember(lo, hi - 1, v, k);
      SamePathIffSameSpan(v, hi - 1, k);
      if lo < hi - 1 {
        SpanStep(hi - 1, k);
        SpanMonotone(lo, hi - 2, k);
      }
    }
  }

  lemma {:induction false} TouchedAtDepth(lo: nat, hi: nat, k: nat)
    requires k <= 3
    ensures forall p :: p in TouchedAt(lo, hi, k) ==> Depth(p) == k
    decreases hi
  {
    if lo < hi {
      TouchedAtDepth(lo, hi - 1, k);
    }
  }

  /** One table for each aligned span of the level that the range meets. */
  lemma {:induction false} TouchedAtCount(lo: nat, hi: nat, k: nat)
    requires lo < hi <= NUM_PAGES && 1 <= k <= 3
    ensures |TouchedAt(lo, hi, k)| == (hi - 1) / Span(4 - k) - lo / Span(4 - k) + 1
    decreases hi
  {
    var w := hi - 1;
    var before := TouchedAt(lo, w, k);
    TouchedAtMember(lo, w, w, k);
    if w == lo {
      assert before == {};
    } else {
      TouchedAtCount(lo, w, k);
      SpanStep(w, k);
      SpanMonotone(lo, w, k);
      if VPath(w, k) in before {
        assert before + {VPath(w, k)} == before;
      }
    }
  }

  lemma {:induction false} TouchedByDepth(lo: nat, hi: nat)
    ensures Touched(lo, hi) == TouchedAt(lo, hi, 1) + TouchedAt(lo, hi, 2) + TouchedAt(lo, hi, 3)
    decreases hi
  {
    if hi > lo {
      TouchedByDepth(lo, hi - 1);
      assert PathsTo(hi - 1, 3) == {VPath(hi - 1, 1), VPath(hi - 1, 2), VPath(hi - 1, 3)} by {
        assert PathsTo(hi - 1, 2) == PathsTo(hi - 1, 1) + {VPath(hi - 1, 2)};
        assert PathsTo(hi - 1, 1) == PathsTo(hi - 1, 0) + {VPath(hi - 1, 1)};
      }
    }
  }

  /** The exact number of tables a range touches: one per 2 MiB, 1 GiB and 512 GiB span met. */
  lemma {:induction false} TouchedCount(lo: nat, hi: nat)
    requires lo < hi <= NUM_PAGES
    ensures |Touched(lo, hi)| ==
              (hi - 1) / 0x200 - lo / 0x200 + (hi - 1) / 0x4_0000 - lo / 0x4_0000
              + (hi - 1) / 0x800_0000 - lo / 0x800_0000 + 3
  {
    TouchedByDepth(lo, hi);
    TouchedAtCount(lo, hi, 1);
    TouchedAtCount(lo, hi, 2);
    TouchedAtCount(lo, hi, 3);
    TouchedAtDepth(lo, hi, 1);
    TouchedAtDepth(lo, hi, 2);
    TouchedAtDepth(lo, hi, 3);
    var a, b, c := TouchedAt(lo, hi, 1), TouchedAt(lo, hi, 2), TouchedAt(lo, hi, 3);
    assert a !! b && (a + b) !! c;
    assert |a + b + c| == |a| + |b| + |c|;
  }

  lemma {:induction false} TouchedBound(lo: nat, n: nat)
    requires 0 < n && lo + n <= NUM_PAGES
    ensures |Touched(lo, lo + n)| <= n / 0x200 + n / 0x4_0000 + n / 0x800_0000 + 6
  {
    TouchedCount(lo, lo + n);
    ThreeSpans(lo, n);
  }

  lemma {:induction false} ThreeSpans(lo: nat, n: nat)
    requires n > 0
    ensures (lo + n - 1) / 0x200 - lo / 0x200 <= n / 0x200 + 1
    ensures (lo + n - 1) / 0x4_0000 - lo / 0x4_0000 <= n / 0x4_0000 + 1
    ensures (lo + n - 1) / 0x800_0000 - lo / 0x800_0000 <= n / 0x800_0000 + 1
  {
    SpansMet(lo, n, 0x200);
    SpansMet(lo, n, 0x4_0000);
    SpansMet(lo, n, 0x800_0000);
  }

  lemma {:induction false} SpansMet(lo: nat, n: nat, span: nat)
    requires n > 0 && span > 0
    ensures (lo + n - 1) / span - lo / span <= n / span + 1
  {
    var q, r := lo / span, lo % span;
    var a, b := n / span, n % span;
    assert lo + n - 1 == (q + a) * span + (r + b - 1);
    assert lo + n - 1 < (q + a + 2) * span;
    DivBelow(lo + n - 1, q + a + 2, span);
  }

  lemma {:induction false} DivBelow(x: nat, q: nat, span: nat)
    requires span > 0 && x < q * span
    ensures x / span < q
  {
  }

  lemma {:induction false} NeededAtMost(have: set<Path>, lo: nat, hi: nat, bound: nat)
    requires |Touched(lo, hi)| <= bound
    ensures Needed(have, lo, hi) <= bound
  {
    NeededIsCount(have, lo, hi);
    SubsetSize(Touched(lo, hi) - have, Touched(lo, hi));
  }

  /** A walk of `n` pages never takes more frames than a number depending on `n` alone. */
  lemma {:induction false} NeededBound(have: set<Path>, lo: nat, n: nat)
    requires 0 < n && lo + n <= NUM_PAGES
    ensures Needed(have, lo, lo + n) <= n / 0x200 + n / 0x4_0000 + n / 0x800_0000 + 6
  {
    TouchedBound(lo, n);
    NeededAtMost(have, lo, lo + n, n / 0x200 + n / 0x4_0000 + n / 0x800_0000 + 6);
  }

  lemma {:induction false} SubsetSize<T>(a: set<T>, b: set<T>)
    requires a <= b
    ensures |a| <= |b|
  {
    assert b == a + (b - a);
  }
}
