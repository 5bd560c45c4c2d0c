/** How long a runnable process can wait. */
module SchedulerFairness {
  import opened Collections
  import opened SchedulerModel

  // ---------------------------------------------------------------------- runs

  /** The events happen one after the other from `s`. */
  ghost predicate Runs(s: Sched, es: seq<Event>)
    decreases |es|
  {
    es == [] || (Enabled(s, es[0]) && Runs(Step(s, es[0]), es[1..]))
  }

  ghost function After(s: Sched, es: seq<Event>): Sched
    requires Runs(s, es)
    decreases |es|
  {
    if es == [] then s else After(Step(s, es[0]), es[1..])
  }

  function Decisions(es: seq<Event>): nat {
    if es == [] then 0 else (if IsDecision(es[0]) then 1 else 0) + Decisions(es[1..])
  }

  /** Some decision of the run picks `p`. */
  ghost predicate Dispatched(s: Sched, es: seq<Event>, p: Pid)
    requires Runs(s, es)
    decreases |es|
  {
    && es != []
    && ((IsDecision(es[0]) && Step(s, es[0]).cur == Proc(p)) || Dispatched(Step(s, es[0]), es[1..], p))
  }

  /** In every reachable state each created, unexited process is in exactly one queue. */
  lemma {:induction false} RunKeepsInv(s: Sched, es: seq<Event>)
    requires Inv(s) && Runs(s, es)
    ensures Inv(After(s, es))
    decreases |es|
  {
    if es != [] {
      StepKeepsInv(s, es[0]);
      RunKeepsInv(Step(s, es[0]), es[1..]);
    }
  }

  // ------------------------------------------------------------------- distance

  /** Distance of `p` from the head of a queue it is in. */
  function Pos(s: seq<Pid>, p: Pid): (d: nat)
    requires p in s
    ensures d < |s| && s[d] == p && p !in s[..d]
  {
    if s[0] == p then 0
    else
      var d := 1 + Pos(s[1..], p);
      assert s[..d] == [s[0]] + s[1..][..d - 1];
      d
  }

  lemma {:induction false} TwiceCounted(a: seq<Pid>, i: nat, j: nat)
    requires i < j < |a|
    ensures a[i] == a[j] ==> multiset(a)[a[i]] >= 2
  {
    assert a == a[..j] + [a[j]] + a[j + 1..];
    assert a[i] in multiset(a[..j]) by { assert a[..j][i] == a[i]; }
  }

  lemma {:induction false} AvailDistinct(s: Sched)
    requires Inv(s)
    ensures Distinct(s.avail)
  {
    forall i, j | 0 <= i < j < |s.avail|
      ensures s.avail[i] != s.avail[j]
    {
      TwiceCounted(s.avail, i, j);
      assert Queued(s)[s.avail[i]] <= 1;
    }
  }

  lemma {:induction false} PosAppend(s: seq<Pid>, t: seq<Pid>, p: Pid)
    requires p in s
    ensures p in s + t && Pos(s + t, p) == Pos(s, p)
  {
    if s[0] != p {
      assert (s + t)[1..] == s[1..] + t;
      PosAppend(s[1..], t, p);
    }
  }

  /** Removing another process brings `p` forward when that one stood before it, and never moves
      it back. */
  lemma {:induction false} PosRemove(s: seq<Pid>, c: Pid, p: Pid)
    requires p in s && c in s && c != p
    ensures p in Remove(s, c)
    ensures Pos(Remove(s, c), p) == if Pos(s, c) < Pos(s, p) then Pos(s, p) - 1 else Pos(s, p)
    ensures s[0] != c ==> Remove(s, c)[0] == s[0]
  {
    if s[0] == c {
    } else {
      assert c in s[1..];
      if s[0] != p {
        assert p in s[1..];
        PosRemove(s[1..], c, p);
      }
    }
  }

  lemma {:induction false} PosRotate(s: seq<Pid>, p: Pid)
    requires Distinct(s) && p in s && s[0] != p
    ensures p in Rotate(s) && Pos(Rotate(s), p) == Pos(s, p) - 1 && Rotate(s)[0] != s[0]
  {
    PosAppend(s[1..], [s[0]], p);
    assert Rotate(s)[0] == s[1];
  }

  /** How many decisions `p` can still be made to wait: two for each process ahead of it, since
      kexit_handler picks the head without moving it to the tail, and one more when the running
      thread is not the head. */
  function Patience(s: Sched, p: Pid): nat
    requires p in s.avail
  {
    2 * Pos(s.avail, p) + (if s.cur == Proc(s.avail[0]) then 0 else 1)
  }

  /** What one step does for a waiting process. */
  ghost predicate Closer(s: Sched, e: Event, p: Pid)
    requires Enabled(s, e) && p in s.avail
  {
    var t := Step(s, e);
    if IsDecision(e) then
      t.cur == Proc(p) || (p in t.avail && t.cur != Proc(p) && Patience(t, p) < Patience(s, p))
    else p in t.avail && t.cur != Proc(p) && Patience(t, p) <= Patience(s, p)
  }

  lemma {:induction false} YieldCloser(s: Sched, p: Pid)
    requires Enabled(s, Yield) && Distinct(s.avail) && p in s.avail && s.cur != Proc(p)
    ensures Closer(s, Yield, p)
  {
    if s.avail[0] != p {
      PosRotate(s.avail, p);
    }
  }

  lemma {:induction false} ExitCloser(s: Sched, p: Pid)
    requires Enabled(s, Exit) && Distinct(s.avail) && p in s.avail && s.cur != Proc(p)
    ensures Closer(s, Exit, p)
  {
    PosRemove(s.avail, s.cur.pid, p);
  }

  lemma {:induction false} DetachCloser(s: Sched, q: nat, p: Pid)
    requires Enabled(s, Detach(q)) && Distinct(s.avail) && p in s.avail && s.cur != Proc(p)
    ensures Closer(s, Detach(q), p)
  {
    PosRemove(s.avail, s.cur.pid, p);
  }

  lemma {:induction false} StepCloser(s: Sched, e: Event, p: Pid)
    requires Inv(s) && Enabled(s, e) && p in s.avail && s.cur != Proc(p)
    ensures Closer(s, e, p)
  {
    AvailDistinct(s);
    match e
    case Yield => YieldCloser(s, p);
    case Exit => ExitCloser(s, p);
    case Detach(q) => DetachCloser(s, q, p);
    case Create => PosAppend(s.avail, [s.created], p);
    case UnblockHead(q) => PosAppend(s.avail, [s.waits[q][0]], p);
    case UnblockAll(q) =>
      DrainedAll(s.avail, s.waits[q]);
      PosAppend(s.avail, s.waits[q], p);
  }

  lemma {:induction false} WaitingIsPatient(s: Sched, p: Pid)
    requires p in s.avail && s.cur != Proc(p)
    ensures 1 <= Patience(s, p) <= 2 * Pos(s.avail, p) + 1
  {
  }

  /** Whatever mix of yields, blocks, exits, unblocks and creations occurs, a process waiting in
      avail_procs is picked within Patience decisions, so within 2d + 1 at distance d. */
  lemma {:induction false} DispatchedInTime(s: Sched, es: seq<Event>, p: Pid)
    requires Inv(s) && Runs(s, es) && p in s.avail && s.cur != Proc(p)
    requires Decisions(es) >= Patience(s, p)
    ensures Dispatched(s, es, p)
    decreases |es|
  {
    WaitingIsPatient(s, p);
    if es != [] {
      StepCloser(s, es[0], p);
      StepKeepsInv(s, es[0]);
      var t := Step(s, es[0]);
      if t.cur != Proc(p) {
        DispatchedInTime(t, es[1..], p);
      }
    }
  }

  lemma {:induction false} BoundFromDistance(s: Sched, es: seq<Event>, p: Pid)
    requires Inv(s) && Runs(s, es) && p in s.avail && s.cur != Proc(p)
    requires Decisions(es) >= 2 * Pos(s.avail, p) + 1
    ensures Dispatched(s, es, p)
  {
    DispatchedInTime(s, es, p);
  }

  // ------------------------------------------------------- the bound is reached

  function Range(lo: nat, hi: nat): (r: seq<Pid>)
    ensures lo <= hi ==> |r| == hi - lo && forall i :: 0 <= i < hi - lo ==> r[i] == lo + i
  {
    if lo >= hi then [] else seq(hi - lo, i requires 0 <= i < hi - lo => lo + i)
  }

  lemma {:induction false} RangeSplit(lo: nat, hi: nat)
    requires lo <= hi
    ensures Range(lo, hi + 1) == Range(lo, hi) + [hi]
  {
  }

  lemma {:induction false} RangeTail(lo: nat, hi: nat)
    requires lo < hi
    ensures Range(lo, hi) == [lo] + Range(lo + 1, hi) && Range(lo, hi)[1..] == Range(lo + 1, hi)
  {
  }

  lemma {:induction false} RangeCount(lo: nat, hi: nat, p: Pid)
    ensures multiset(Range(lo, hi))[p] == if lo <= p < hi then 1 else 0
    decreases hi - lo
  {
    if lo < hi {
      RangeTail(lo, hi);
      RangeCount(lo + 1, hi, p);
    }
  }

  lemma {:induction false} RangePos(lo: nat, hi: nat, p: Pid)
    requires lo <= p < hi
    ensures p in Range(lo, hi) && Pos(Range(lo, hi), p) == p - lo
    decreases hi - lo
  {
    RangeTail(lo, hi);
    if lo < p {
      RangePos(lo + 1, hi, p);
    }
  }

  lemma {:induction false} RemoveLast(s: seq<Pid>, p: Pid)
    requires p !in s
    ensures Remove(s + [p], p) == s
  {
    RemoveMiddle(s, p, []);
    assert [p] + [] == [p] && s + [] == s;
  }

  function Gone(k: nat, d: nat): set<Pid> {
    if k == 0 then {d + 1} else Gone(k - 1, d) + {k - 1}
  }

  /** Processes 0..d ready, d + 1 running from the tail. */
  function SlowStart(d: nat): Sched {
    Sched(Range(0, d + 2), [], Proc(d + 1), d + 2, {})
  }

  /** After `k` more exits: process k runs from the head. */
  function SlowState(k: nat, d: nat): Sched {
    Sched(Range(k, d + 1), [], Proc(k), d + 2, Gone(k, d))
  }

  function SlowTail(k: nat, d: nat): seq<Event>
    requires k < d
    decreases d - k
  {
    if k + 1 == d then [Yield] + [] else [Yield] + ([Exit] + SlowTail(k + 1, d))
  }

  /** An exit, then a yield and an exit for each process but the last, then a yield. */
  function SlowRun(d: nat): seq<Event> {
    if d == 0 then [] else [Exit] + SlowTail(0, d)
  }

  lemma {:induction false} SlowSteps(k: nat, d: nat)
    requires k < d
    ensures Enabled(SlowState(k, d), Yield)
    ensures var t := Step(SlowState(k, d), Yield);
            t.cur == Proc(k) && Enabled(t, Exit) && Step(t, Exit) == SlowState(k + 1, d)
  {
    var s := SlowState(k, d);
    var t := Step(s, Yield);
    assert t.avail == Range(k + 1, d + 1) + [k];
    RemoveLast(Range(k + 1, d + 1), k);
    assert t.avail[|t.avail| - 1] == k;
  }

  lemma {:induction false} RunPrepend(s: Sched, e: Event, es: seq<Event>, p: Pid)
    requires Enabled(s, e) && Runs(Step(s, e), es)
    ensures Runs(s, [e] + es)
    ensures Decisions([e] + es) == (if IsDecision(e) then 1 else 0) + Decisions(es)
    ensures Dispatched(s, [e] + es, p) <==>
              (IsDecision(e) && Step(s, e).cur == Proc(p)) || Dispatched(Step(s, e), es, p)
  {
    assert ([e] + es)[1..] == es;
  }

  lemma {:induction false} SlowTailRuns(k: nat, d: nat)
    requires k < d
    ensures Runs(SlowState(k, d), SlowTail(k, d)) && Decisions(SlowTail(k, d)) == 2 * (d - k) - 1
    ensures !Dispatched(SlowState(k, d), SlowTail(k, d), d)
    decreases d - k
  {
    SlowSteps(k, d);
    var s := SlowState(k, d);
    var t := Step(s, Yield);
    if k + 1 == d {
      RunPrepend(s, Yield, [], d);
    } else {
      SlowTailRuns(k + 1, d);
      RunPrepend(t, Exit, SlowTail(k + 1, d), d);
      RunPrepend(s, Yield, [Exit] + SlowTail(k + 1, d), d);
    }
  }

  lemma {:induction false} SlowStartInv(d: nat)
    ensures Inv(SlowStart(d))
  {
    var s := SlowStart(d);
    assert Queued(s) == multiset(s.avail);
    forall p: Pid
      ensures Queued(s)[p] == if p < d + 2 then 1 else 0
    {
      RangeCount(0, d + 2, p);
    }
  }

  lemma {:induction false} SlowFirstStep(d: nat)
    ensures Enabled(SlowStart(d), Exit) && Step(SlowStart(d), Exit) == SlowState(0, d)
  {
    RangeSplit(0, d + 1);
    RemoveLast(Range(0, d + 1), d + 1);
    assert d + 1 in Range(0, d + 1) + [d + 1];
  }

  /** Before the first process is created. */
  function Idle(): Sched {
    Sched([], [], Source, 0, {})
  }

  function Repeat(e: Event, n: nat): seq<Event> {
    if n == 0 then [] else [e] + Repeat(e, n - 1)
  }

  ghost predicate IsLead(once: Once, s: Sched, es: seq<Event>, t: Sched) {
    match once
    case Only => Runs(s, es) && After(s, es) == t
  }

  /** The run leads from `s` to `t`. Opened where that is used. */
  ghost predicate Leads(s: Sched, es: seq<Event>, t: Sched) {
    forall once: Once :: IsLead(once, s, es, t)
  }

  lemma {:induction false} LeadsNowhere(s: Sched)
    ensures Leads(s, [], s)
  {
  }

  lemma {:induction false} StepLeads(s: Sched, e: Event, t: Sched, es: seq<Event>, u: Sched)
    requires Enabled(s, e) && Step(s, e) == t && Leads(t, es, u)
    ensures Leads(s, [e] + es, u)
  {
    assert IsLead(Only, t, es, u);
    assert ([e] + es)[1..] == es;
  }

  lemma {:induction false} LeadsJoin(s: Sched, a: seq<Event>, t: Sched, b: seq<Event>, u: Sched)
    requires Leads(s, a, t) && Leads(t, b, u)
    ensures Leads(s, a + b, u)
    decreases |a|
  {
    assert IsLead(Only, s, a, t);
    if a == [] {
      assert a + b == b;
    } else {
      assert IsLead(Only, Step(s, a[0]), a[1..], t);
      LeadsJoin(Step(s, a[0]), a[1..], t, b, u);
      StepLeads(s, a[0], Step(s, a[0]), a[1..] + b, u);
      assert [a[0]] + (a[1..] + b) == a + b;
    }
  }

  /** After `k` creations. */
  function Filled(k: nat): Sched {
    Sched(Range(0, k), [], Source, k, {})
  }

  lemma {:induction false} CreationStep(k: nat)
    ensures Step(Filled(k), Create) == Filled(k + 1)
  {
    RangeSplit(0, k);
  }

  lemma {:induction false} CreationsLead(k: nat, n: nat)
    requires k <= n
    ensures Leads(Filled(k), Repeat(Create, n - k), Filled(n))
    decreases n - k
  {
    if k == n {
      LeadsNowhere(Filled(k));
    } else {
      CreationStep(k);
      CreationsLead(k + 1, n);
      StepLeads(Filled(k), Create, Filled(k + 1), Repeat(Create, n - k - 1), Filled(n));
    }
  }

  /** After `k` of the `n` processes have been picked. */
  function Turned(k: nat, n: nat): Sched {
    Sched(Range(k, n) + Range(0, k), [], if k == 0 then Source else Proc(k - 1), n, {})
  }

  lemma {:induction false} RangeTurns(k: nat, n: nat)
    requires k < n
    ensures var q := Range(k, n) + Range(0, k);
            q != [] && q[0] == k && q[1..] + [k] == Range(k + 1, n) + Range(0, k + 1)
  {
  }

  lemma {:induction false} TurnStep(k: nat, n: nat)
    requires k < n
    ensures Enabled(Turned(k, n), Yield) && Step(Turned(k, n), Yield) == Turned(k + 1, n)
  {
    RangeTurns(k, n);
  }

  lemma {:induction false} TurnsLead(k: nat, n: nat)
    requires k <= n
    ensures Leads(Turned(k, n), Repeat(Yield, n - k), Turned(n, n))
    decreases n - k
  {
    if k == n {
      LeadsNowhere(Turned(n, n));
    } else {
      TurnStep(k, n);
      TurnsLead(k + 1, n);
      StepLeads(Turned(k, n), Yield, Turned(k + 1, n), Repeat(Yield, n - k - 1), Turned(n, n));
    }
  }

  /** d + 2 processes are created and each is picked once. */
  function SlowBoot(d: nat): seq<Event> {
    Repeat(Create, d + 2) + Repeat(Yield, d + 2)
  }

  lemma {:induction false} SlowEnds(d: nat)
    ensures Filled(0) == Idle() && Filled(d + 2) == Turned(0, d + 2) && Turned(d + 2, d + 2) == SlowStart(d)
  {
    assert Range(0, d + 2) + [] == Range(0, d + 2) == [] + Range(0, d + 2);
  }

  lemma {:induction false} SlowStartReached(d: nat)
    ensures Runs(Idle(), SlowBoot(d)) && After(Idle(), SlowBoot(d)) == SlowStart(d)
  {
    CreationsLead(0, d + 2);
    TurnsLead(0, d + 2);
    SlowEnds(d);
    LeadsJoin(Idle(), Repeat(Create, d + 2), Filled(d + 2), Repeat(Yield, d + 2), SlowStart(d));
    assert IsLead(Only, Idle(), SlowBoot(d), SlowStart(d));
  }

  /** The bound 2d + 1 cannot be improved: for every distance d the kernel reaches a state from
      which a run with 2d decisions never picks the waiting process. */
  lemma {:induction false} BoundIsTight(d: nat)
    ensures Runs(Idle(), SlowBoot(d)) && After(Idle(), SlowBoot(d)) == SlowStart(d)
    ensures var s, es := SlowStart(d), SlowRun(d);
            && Inv(s) && s.cur != Proc(d) && d in s.avail && Pos(s.avail, d) == d
            && Runs(s, es) && Decisions(es) == 2 * d && !Dispatched(s, es, d)
  {
    SlowStartReached(d);
    SlowStartInv(d);
    SlowFirstStep(d);
    RangePos(0, d + 2, d);
    if d > 0 {
      SlowTailRuns(0, d);
      RunPrepend(SlowStart(d), Exit, SlowTail(0, d), d);
    }
  }
}
