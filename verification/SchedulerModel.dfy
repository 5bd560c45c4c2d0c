/** The cooperative scheduler as a state machine of atomic steps over queues of process ids. */
module SchedulerModel {

  type Pid = nat

  /** cur_proc: the thread that called PROC_run, or a process. */
  datatype Thread = Source | Proc(pid: Pid)

  datatype Sched = Sched(
    avail: seq<Pid>,        // avail_procs, head first
    waits: seq<seq<Pid>>,   // every other process queue
    cur: Thread,
    created: nat,           // pid_count
    exited: set<Pid>)

  datatype Event =
    | Create                // PROC_create_kthread
    | Yield                 // PROC_reschedule, then the dispatch of int 0x80
    | Detach(queue: nat)    // PROC_block_on up to its yield
    | Exit                  // kexit_handler, then the dispatch of int 0x81
    | UnblockHead(queue: nat)
    | UnblockAll(queue: nat)

  // --------------------------------------------------------------------- steps

  /** unlink_proc on a queue: the first occurrence goes. */
  function Remove(s: seq<Pid>, p: Pid): (r: seq<Pid>)
    ensures p !in s ==> r == s
    ensures p in s ==> |r| == |s| - 1 && multiset(r) == multiset(s) - multiset{p}
  {
    if s == [] then []
    else
      assert s == [s[0]] + s[1..];
      if s[0] == p then s[1..] else [s[0]] + Remove(s[1..], p)
  }

  lemma {:induction false} RemoveMiddle(a: seq<Pid>, p: Pid, b: seq<Pid>)
    requires p !in a
    ensures Remove(a + ([p] + b), p) == a + b
  {
    var s := a + ([p] + b);
    if a == [] {
      assert s[1..] == b && a + b == b;
    } else {
      assert s[1..] == a[1..] + ([p] + b);
      RemoveMiddle(a[1..], p, b);
      assert [a[0]] + (a[1..] + b) == a + b;
    }
  }

  /** cycle_next_proc: the head moves to the tail. */
  function Rotate(s: seq<Pid>): (r: seq<Pid>)
    ensures multiset(r) == multiset(s) && |r| == |s|
  {
    if s == [] then []
    else
      assert s == [s[0]] + s[1..];
      s[1..] + [s[0]]
  }

  /** PROC_unblock_all, head first. */
  function Drained(avail: seq<Pid>, queue: seq<Pid>): seq<Pid>
    decreases |queue|
  {
    if queue == [] then avail else Drained(avail + [queue[0]], queue[1..])
  }

  /** Which events can happen next. A process that detached itself does nothing but yield. */
  predicate Enabled(s: Sched, e: Event) {
    match e
    case Create => true
    case Yield => s.cur.Proc? || s.avail != []
    case Detach(q) => s.cur.Proc? && s.cur.pid in s.avail && q < |s.waits|
    case Exit => s.cur.Proc? && s.cur.pid in s.avail
    case UnblockHead(q) => q < |s.waits| && s.waits[q] != []
    case UnblockAll(q) => q < |s.waits|
  }

  function Step(s: Sched, e: Event): Sched
    requires Enabled(s, e)
  {
    match e
    case Create => s.(avail := s.avail + [s.created], created := s.created + 1)
    case Yield =>
      if s.avail == [] then s.(cur := Source)
      else s.(avail := Rotate(s.avail), cur := Proc(s.avail[0]))
    case Detach(q) =>
      s.(avail := Remove(s.avail, s.cur.pid), waits := s.waits[q := s.waits[q] + [s.cur.pid]])
    case Exit =>
      var rest := Remove(s.avail, s.cur.pid);
      s.(avail := rest, exited := s.exited + {s.cur.pid}, cur := if rest == [] then Source else Proc(rest[0]))
    case UnblockHead(q) =>
      s.(avail := s.avail + [s.waits[q][0]], waits := s.waits[q := s.waits[q][1..]])
    case UnblockAll(q) =>
      s.(avail := Drained(s.avail, s.waits[q]), waits := s.waits[q := []])
  }

  /** The events that pick a thread to run. */
  predicate IsDecision(e: Event) {
    e.Yield? || e.Exit?
  }

  // ----------------------------------------------------------------- invariant

  function Waiting(waits: seq<seq<Pid>>): multiset<Pid> {
    if waits == [] then multiset{} else multiset(waits[0]) + Waiting(waits[1..])
  }

  function Queued(s: Sched): multiset<Pid> {
    multiset(s.avail) + Waiting(s.waits)
  }

  ghost predicate Accounted(queued: multiset<Pid>, created: nat, exited: set<Pid>) {
    && (forall p: Pid :: queued[p] == if p < created && p !in exited then 1 else 0)
    && (forall p :: p in exited ==> p < created)
  }

  /** Every created process that has not exited is in exactly one queue, once, under its own
      pid; the running thread is the source or such a process. */
  ghost predicate Inv(s: Sched) {
    && Accounted(Queued(s), s.created, s.exited)
    && (s.cur.Proc? ==> s.cur.pid in Queued(s))
  }

  lemma {:induction false} WaitingUpdate(waits: seq<seq<Pid>>, q: nat, w: seq<Pid>)
    requires q < |waits|
    ensures multiset(waits[q]) <= Waiting(waits)
    ensures Waiting(waits[q := w]) == Waiting(waits) - multiset(waits[q]) + multiset(w)
  {
    if q > 0 {
      assert waits[q := w][1..] == waits[1..][q - 1 := w];
      WaitingUpdate(waits[1..], q - 1, w);
    } else {
      assert waits[q := w][1..] == waits[1..];
    }
  }

  lemma {:induction false} DrainedAll(avail: seq<Pid>, queue: seq<Pid>)
    ensures Drained(avail, queue) == avail + queue
    decreases |queue|
  {
    if queue == [] {
      assert avail + queue == avail;
    } else {
      DrainedAll(avail + [queue[0]], queue[1..]);
      assert avail + [queue[0]] + queue[1..] == avail + queue;
    }
  }

  /** Moving `x` out of `a` and a batch `m` within `w` into `a` or back keeps the sum. */
  lemma {:induction false} MoveOut(a: multiset<Pid>, w: multiset<Pid>, q: multiset<Pid>, x: Pid)
    requires x in a && q <= w
    ensures (a - multiset{x}) + (w - q + (q + multiset{x})) == a + w
  {
  }

  lemma {:induction false} MoveIn(a: multiset<Pid>, w: multiset<Pid>, q: multiset<Pid>, moved: multiset<Pid>,
                                  rest: multiset<Pid>)
    requires q <= w && q == moved + rest
    ensures (a + moved) + (w - q + rest) == a + w
  {
  }

  lemma {:induction false} DetachQueued(s: Sched, q: nat)
    requires Enabled(s, Detach(q))
    ensures Queued(Step(s, Detach(q))) == Queued(s)
  {
    var p, w := s.cur.pid, s.waits[q];
    WaitingUpdate(s.waits, q, w + [p]);
    assert multiset(w + [p]) == multiset(w) + multiset{p};
    MoveOut(multiset(s.avail), Waiting(s.waits), multiset(w), p);
  }

  lemma {:induction false} UnblockQueued(avail: seq<Pid>, waits: seq<seq<Pid>>, q: nat, n: nat)
    requires q < |waits| && n <= |waits[q]|
    ensures multiset(avail + waits[q][..n]) + Waiting(waits[q := waits[q][n..]]) == multiset(avail) + Waiting(waits)
  {
    var w := waits[q];
    WaitingUpdate(waits, q, w[n..]);
    assert w == w[..n] + w[n..];
    MoveIn(multiset(avail), Waiting(waits), multiset(w), multiset(w[..n]), multiset(w[n..]));
  }

  /** The processes in the queues after a step: one more after Create, one less after Exit, the
      same after every other event. */
  lemma {:induction false} StepQueued(s: Sched, e: Event)
    requires Enabled(s, e)
    ensures Queued(Step(s, e)) ==
              if e == Create then Queued(s) + multiset{s.created}
              else if e == Exit then Queued(s) - multiset{s.cur.pid}
              else Queued(s)
  {
    match e
    case Create => assert multiset(s.avail + [s.created]) == multiset(s.avail) + multiset{s.created};
    case Yield =>
    case Exit =>
    case Detach(q) => DetachQueued(s, q);
    case UnblockHead(q) =>
      assert s.waits[q][..1] == [s.waits[q][0]];
      UnblockQueued(s.avail, s.waits, q, 1);
    case UnblockAll(q) =>
      DrainedAll(s.avail, s.waits[q]);
      UnblockQueued(s.avail, s.waits, q, |s.waits[q]|);
      assert s.waits[q][..|s.waits[q]|] == s.waits[q] && s.waits[q][|s.waits[q]|..] == [];
  }

  /** What a step does to the running thread: a decision resumes the source only when no process
      is left to run, and otherwise picks a process in avail_procs. */
  lemma {:induction false} StepPicks(s: Sched, e: Event)
    requires Enabled(s, e)
    ensures IsDecision(e) ==>
              var t := Step(s, e);
              if t.cur == Source then t.avail == [] else t.cur.pid in t.avail
    ensures !IsDecision(e) ==> Step(s, e).cur == s.cur
  {
    if e.Yield? && s.avail != [] {
      var t := Step(s, e);
      assert t.avail[|t.avail| - 1] == s.avail[0];
    }
  }

  lemma {:induction false} CreateAccounted(queued: multiset<Pid>, created: nat, exited: set<Pid>)
    requires Accounted(queued, created, exited)
    ensures Accounted(queued + multiset{created}, created + 1, exited)
  {
    assert created !in exited;
  }

  lemma {:induction false} ExitAccounted(queued: multiset<Pid>, created: nat, exited: set<Pid>, p: Pid)
    requires Accounted(queued, created, exited) && p in queued
    ensures Accounted(queued - multiset{p}, created, exited + {p})
  {
    assert queued[p] == 1;
  }

  lemma {:induction false} AvailQueued(s: Sched)
    ensures forall p :: p in s.avail ==> p in Queued(s)
  {
    forall p | p in s.avail
      ensures p in Queued(s)
    {
      assert p in multiset(s.avail);
    }
  }

  /** Every step keeps the invariant. */
  lemma {:induction false} StepKeepsInv(s: Sched, e: Event)
    requires Inv(s) && Enabled(s, e)
    ensures Inv(Step(s, e))
  {
    StepQueued(s, e);
    StepPicks(s, e);
    AvailQueued(Step(s, e));
    if e == Create {
      CreateAccounted(Queued(s), s.created, s.exited);
    } else if e == Exit {
      ExitAccounted(Queued(s), s.created, s.exited, s.cur.pid);
    }
  }
}
