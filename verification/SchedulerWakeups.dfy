/** In what order blocked processes wake. */
module SchedulerWakeups {
  import opened Collections
  import opened SchedulerModel
  import opened SchedulerFairness

  /** The process waits on queue `q`. */
  predicate Waits(s: Sched, q: nat, p: Pid) {
    q < |s.waits| && p in s.waits[q]
  }

  /** How many processes are ahead of it. */
  function Ahead(s: Sched, q: nat, p: Pid): nat
    requires Waits(s, q, p)
  {
    Pos(s.waits[q], p)
  }

  lemma {:induction false} PosTail(s: seq<Pid>, p: Pid)
    requires p in s && s[0] != p
    ensures p in s[1..] && Pos(s, p) == 1 + Pos(s[1..], p)
  {
  }

  /** A process that blocks goes behind all that wait already; UnblockHead wakes the first and moves
      the others up; UnblockAll wakes all of them, in order; no other event changes the queue. */
  lemma {:induction false} StepWaits(s: Sched, e: Event, q: nat, p: Pid)
    requires Enabled(s, e) && Waits(s, q, p)
    ensures var t := Step(s, e);
            if e == UnblockAll(q) then p in t.avail && t.avail == s.avail + s.waits[q]
            else if e == UnblockHead(q) && Ahead(s, q, p) == 0 then t.avail == s.avail + [p]
            else Waits(t, q, p) && Ahead(t, q, p) == Ahead(s, q, p) - if e == UnblockHead(q) then 1 else 0
  {
    match e
    case Create =>
    case Yield =>
    case Exit =>
    case Detach(r) =>
      if r == q {
        PosAppend(s.waits[q], [s.cur.pid], p);
      }
    case UnblockHead(r) =>
      if r == q && Ahead(s, q, p) != 0 {
        PosTail(s.waits[q], p);
      }
    case UnblockAll(r) => DrainedAll(s.avail, s.waits[r]);
  }

  /** A process that blocks is last. */
  lemma {:induction false} BlocksLast(s: Sched, q: nat)
    requires Inv(s) && Enabled(s, Detach(q))
    ensures var t := Step(s, Detach(q)); Waits(t, q, s.cur.pid) && Ahead(t, q, s.cur.pid) == |s.waits[q]|
  {
    ReadyNotWaiting(s, q, s.cur.pid);
    PosLast(s.waits[q], s.cur.pid);
  }

  lemma {:induction false} ReadyNotWaiting(s: Sched, q: nat, p: Pid)
    requires Inv(s) && q < |s.waits| && p in s.avail
    ensures !Waits(s, q, p)
  {
    WaitingUpdate(s.waits, q, []);
    assert p in multiset(s.avail) && Queued(s)[p] <= 1;
    assert p !in multiset(s.waits[q]);
  }

  lemma {:induction false} PosLast(w: seq<Pid>, p: Pid)
    requires p !in w
    ensures p in w + [p] && Pos(w + [p], p) == |w|
  {
    assert (w + [p])[|w|] == p;
    if w != [] {
      assert (w + [p])[1..] == w[1..] + [p];
      PosLast(w[1..], p);
    }
  }

  /** How often the run wakes the head of queue `q`. */
  function Wakes(es: seq<Event>, q: nat): nat {
    if es == [] then 0 else (if es[0] == UnblockHead(q) then 1 else 0) + Wakes(es[1..], q)
  }

  /** The event wakes `p`: it goes from queue `q` to avail_procs. */
  predicate WokenBy(s: Sched, e: Event, q: nat, p: Pid)
    requires Enabled(s, e)
  {
    Waits(s, q, p) && !Waits(Step(s, e), q, p) && p in Step(s, e).avail
  }

  /** Some event of the run does. */
  ghost predicate WokenIn(s: Sched, es: seq<Event>, q: nat, p: Pid)
    requires Runs(s, es)
    decreases |es|
  {
    es != [] && (WokenBy(s, es[0], q, p) || WokenIn(Step(s, es[0]), es[1..], q, p))
  }

  lemma {:induction false} WakesOrMovesUp(s: Sched, e: Event, q: nat, p: Pid)
    requires Inv(s) && Enabled(s, e) && Waits(s, q, p)
    ensures Inv(Step(s, e))
    ensures WokenBy(s, e, q, p) <==> e == UnblockAll(q) || (e == UnblockHead(q) && Ahead(s, q, p) == 0)
    ensures !WokenBy(s, e, q, p) ==>
              var t := Step(s, e);
              Waits(t, q, p) && Ahead(t, q, p) == Ahead(s, q, p) - if e == UnblockHead(q) then 1 else 0
  {
    StepKeepsInv(s, e);
    StepWaits(s, e, q, p);
    if e == UnblockAll(q) || (e == UnblockHead(q) && Ahead(s, q, p) == 0) {
      ReadyNotWaiting(Step(s, e), q, p);
    }
  }

  /** First come, first served: with d processes ahead of it on a queue a process is made ready within
      d + 1 wakings of the queue's head, whatever else happens and whoever else blocks there. */
  lemma {:induction false} WokenInTime(s: Sched, es: seq<Event>, q: nat, p: Pid)
    requires Inv(s) && Runs(s, es) && Waits(s, q, p) && Wakes(es, q) >= Ahead(s, q, p) + 1
    ensures WokenIn(s, es, q, p)
    decreases |es|
  {
    WakesOrMovesUp(s, es[0], q, p);
    if !WokenBy(s, es[0], q, p) {
      WokenInTime(Step(s, es[0]), es[1..], q, p);
    }
  }

  /** Of two processes on one queue the one ahead wakes first: as long as it waits, so does the
      other, behind it. */
  lemma {:induction false} WokenInOrder(s: Sched, es: seq<Event>, q: nat, p: Pid, r: Pid)
    requires Inv(s) && Runs(s, es) && Waits(s, q, p) && Waits(s, q, r) && Ahead(s, q, p) < Ahead(s, q, r)
    requires !WokenIn(s, es, q, p)
    ensures var t := After(s, es); Waits(t, q, p) && Waits(t, q, r) && Ahead(t, q, p) < Ahead(t, q, r)
    decreases |es|
  {
    if es != [] {
      WakesOrMovesUp(s, es[0], q, p);
      StepWaits(s, es[0], q, r);
      WokenInOrder(Step(s, es[0]), es[1..], q, p, r);
    }
  }
}
