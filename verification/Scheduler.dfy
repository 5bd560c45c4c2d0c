/** The scheduler as it runs: linked queues, cur_proc and next_proc updated in place, each
    operation proved against its step of the state machine. */
module Scheduler {
  import opened SchedulerModel
  import opened SchedulerFairness
  import opened ProcessQueues

  function Pids(ns: seq<ProcNode>): (r: seq<Pid>)
    ensures |r| == |ns| && forall i :: 0 <= i < |ns| ==> r[i] == ns[i].pid
  {
    seq(|ns|, i requires 0 <= i < |ns| => ns[i].pid)
  }

  lemma {:induction false} PidsAppend(a: seq<ProcNode>, b: seq<ProcNode>)
    ensures Pids(a + b) == Pids(a) + Pids(b)
  {
  }

  lemma {:induction false} RemoveAt(s: seq<Pid>, k: nat)
    requires k < |s| && s[k] !in s[..k]
    ensures Remove(s, s[k]) == s[..k] + s[k + 1..]
  {
    RemoveMiddle(s[..k], s[k], s[k + 1..]);
    assert s[..k] + ([s[k]] + s[k + 1..]) == s;
  }

  lemma {:induction false} PidsRemoved(ns: seq<ProcNode>, k: nat)
    requires k < |ns| && ns[k].pid !in Pids(ns)[..k]
    ensures Pids(ns[..k] + ns[k + 1..]) == Remove(Pids(ns), ns[k].pid)
  {
    RemoveAt(Pids(ns), k);
    PidsAppend(ns[..k], ns[k + 1..]);
    assert Pids(ns[..k]) == Pids(ns)[..k] && Pids(ns[k + 1..]) == Pids(ns)[k + 1..];
  }

  lemma {:induction false} TwoUpdates<T>(s: seq<T>, a: T, i: nat, b: T)
    requires 0 < i < |s|
    ensures s[0 := a][i := b][0] == a && s[0 := a][i := b][1..] == s[1..][i - 1 := b]
  {
  }

  /** The first `n` processes of a queue are woken. */
  function Woken(s: Sched, q: nat, n: nat): Sched
    requires q < |s.waits| && n <= |s.waits[q]|
  {
    s.(avail := s.avail + s.waits[q][..n], waits := s.waits[q := s.waits[q][n..]])
  }

  lemma {:induction false} WokenNone(s: Sched, q: nat)
    requires q < |s.waits|
    ensures Woken(s, q, 0) == s
  {
    assert s.avail + [] == s.avail && s.waits[q][..0] == [] && s.waits[q][0..] == s.waits[q];
    assert s.waits[q := s.waits[q]] == s.waits;
  }

  lemma {:induction false} WokenOneMore(s: Sched, q: nat, n: nat)
    requires q < |s.waits| && n < |s.waits[q]|
    ensures var t := Woken(s, q, n);
            q < |t.waits| && t.waits[q] != [] && Step(t, SchedulerModel.UnblockHead(q)) == Woken(s, q, n + 1)
  {
    var w, t := s.waits[q], Woken(s, q, n);
    assert t.waits[q] == w[n..] && w[n..][0] == w[n] && w[n..][1..] == w[n + 1..];
    assert s.avail + w[..n] + [w[n]] == s.avail + w[..n + 1];
    assert t.waits[q := w[n + 1..]] == s.waits[q := w[n + 1..]];
  }

  lemma {:induction false} WokenAll(s: Sched, q: nat)
    requires q < |s.waits|
    ensures Woken(s, q, |s.waits[q]|) == Step(s, SchedulerModel.UnblockAll(q))
  {
    var w := s.waits[q];
    DrainedAll(s.avail, w);
    assert w[..|w|] == w && w[|w|..] == [];
  }

  datatype QueuePart = RingsPart | ApartPart

  /** A queue and its nodes. */
  ghost function Footprint(q: ProcessQueue?): (r: set<object>)
    reads q
    ensures q != null ==> q in r && forall n :: n in q.nodes ==> n in r
  {
    if q == null then {} else {q as object} + set n | n in q.nodes :: n as object
  }

  class Kernel {
    const avail: ProcessQueue                    // avail_procs
    const source: ProcNode                       // stands for the thread that called PROC_run
    ghost var queues: seq<ProcessQueue>          // avail_procs, then every other queue in use
    ghost var lists: seq<seq<Pid>>               // what each of them holds, from its head on
    ghost var home: map<ProcNode, ProcessQueue>  // the queue each process is linked in
    ghost var exited: set<Pid>
    var cur: ProcNode?                           // cur_proc
    var next: ProcNode?                          // next_proc
    var created: nat                             // pid_count

    /** A queue is a ring of processes at home in it, with these ids. */
    ghost predicate Holds(q: ProcessQueue, list: seq<Pid>)
      reads `home, q, home.Keys
    {
      && (forall n :: n in q.nodes ==> n in home && home[n] == q)
      && q.Valid()
      && Pids(q.nodes) == list
    }

    ghost predicate Kept(part: QueuePart)
      reads `queues, `lists, `home, queues, home.Keys
    {
      match part
      case RingsPart => |lists| == |queues| && forall i :: 0 <= i < |queues| ==> Holds(queues[i], lists[i])
      case ApartPart => forall i, j :: 0 <= i < j < |queues| ==> queues[i] != queues[j]
    }

    /** The queues are rings with no node in common. Opened part by part. */
    ghost predicate Rings()
      reads `queues, `lists, `home, queues, home.Keys
    {
      && queues != [] && |lists| == |queues| && queues[0] == avail && source !in home
      && forall part: QueuePart :: Kept(part)
    }

    lemma {:induction false} OpenRings()
      requires Rings()
      ensures forall i :: 0 <= i < |queues| ==> Holds(queues[i], lists[i])
      ensures forall i, j :: 0 <= i < j < |queues| ==> queues[i] != queues[j]
    {
      assert Kept(RingsPart) && Kept(ApartPart);
    }

    lemma {:induction false} OneQueue(i: nat)
      requires Rings() && i < |queues|
      ensures lists[i] == Pids(queues[i].nodes)
      ensures queues[i].head == if queues[i].nodes == [] then null else queues[i].nodes[0]
      ensures forall n :: n in queues[i].nodes ==> n in home && n != source
      ensures i > 0 ==> queues[i] != avail
    {
      OpenRings();
      assert Holds(queues[i], lists[i]);
      assert queues[i].Linked(HeadPart);
    }

    ghost predicate Valid()
      reads this, queues, home.Keys
    {
      Rings() && (cur == null || cur == source || cur in home)
    }

    ghost function Running(): Thread
      reads `cur
    {
      if cur == null || cur == source then Source else Proc(cur.pid)
    }

    ghost function Abs(): Sched
      requires lists != []
      reads this
    {
      Sched(lists[0], lists[1..], Running(), created, exited)
    }

    constructor ()
      ensures Valid() && fresh(avail) && home.Keys == {} && Abs() == Sched([], [], Source, 0, {})
    {
      avail := new ProcessQueue();
      source := new ProcNode(0);
      home, exited, lists := map[], {}, [[]];
      cur, next, created := null, null, 0;
      new;
      queues := [avail];
    }

    /** PROC_init_queue on a new queue. */
    method AddQueue() returns (q: ProcessQueue)
      requires Valid()
      modifies this`queues, this`lists
      ensures Valid() && fresh(q) && queues == old(queues) + [q]
      ensures Abs() == old(Abs()).(waits := old(Abs()).waits + [[]])
    {
      OpenRings();
      q := new ProcessQueue();
      queues, lists := queues + [q], lists + [[]];
    }

    /** append_proc of a node that is in no queue. */
    method Link(node: ProcNode, q: ProcessQueue, ghost i: nat)
      requires Rings() && i < |queues| && queues[i] == q && node !in home && node != source
      modifies this`home, this`lists, q, q.nodes, node
      ensures Rings() && home == old(home)[node := q] && q.nodes == old(q.nodes) + [node]
      ensures lists == old(lists)[i := old(lists)[i] + [node.pid]]
    {
      OpenRings();
      forall j | 0 <= j < |queues| && j != i
        ensures queues[j] != q && queues[j].Valid() && forall n :: n in queues[j].nodes ==> n !in q.nodes && n != node
      {
      }
      assert Holds(q, lists[i]);
      q.Append(node);
      forall j | 0 <= j < |queues| && j != i
        ensures queues[j].nodes == old(queues[j].nodes) && queues[j].Valid()
      {
        queues[j].Untouched();
      }
      home, lists := home[node := q], lists[i := lists[i] + [node.pid]];
      assert forall n :: n in q.nodes ==> n in old(q.nodes) || n == node;
      assert Pids(q.nodes) == Pids(old(q.nodes)) + [node.pid];
    }

    /** unlink_proc */
    method Unlink(node: ProcNode, q: ProcessQueue, ghost i: nat, ghost k: nat)
      requires Rings() && i < |queues| && queues[i] == q && k < |q.nodes| && q.nodes[k] == node
      requires k < |lists[i]| && node.pid !in lists[i][..k]
      modifies this`home, this`lists, q, q.nodes
      ensures Rings() && home == old(home) - {node} && q.nodes == old(q.nodes)[..k] + old(q.nodes)[k + 1..]
      ensures lists == old(lists)[i := Remove(old(lists)[i], node.pid)]
    {
      OpenRings();
      forall j | 0 <= j < |queues| && j != i
        ensures queues[j] != q && queues[j].Valid() && forall n :: n in queues[j].nodes ==> n !in q.nodes
      {
      }
      assert Holds(q, lists[i]);
      q.OthersWithout(k);
      q.Unlink(node, k);
      forall j | 0 <= j < |queues| && j != i
        ensures queues[j].nodes == old(queues[j].nodes) && queues[j].Valid()
      {
        queues[j].Untouched();
      }
      home, lists := home - {node}, lists[i := Remove(lists[i], node.pid)];
      PidsRemoved(old(q.nodes), k);
      assert Holds(q, lists[i]) by {
        forall n | n in q.nodes
          ensures n in home && home[n] == q
        {
          assert n in old(q.nodes) && n != node;
        }
        assert q.Valid() && Pids(q.nodes) == lists[i];
      }
      forall j | 0 <= j < |queues| && j != i
        ensures Holds(queues[j], lists[j])
      {
        assert old(Holds(queues[j], lists[j]));
      }
      assert Kept(RingsPart) && Kept(ApartPart);
    }

    /** A node changes queue: unlink_proc, then append_proc. */
    method Move(node: ProcNode, q: ProcessQueue, ghost i: nat, ghost k: nat, r: ProcessQueue, ghost j: nat)
      requires Rings() && i < |queues| && queues[i] == q && k < |q.nodes| && q.nodes[k] == node
      requires j < |queues| && queues[j] == r && q != r && k < |lists[i]| && node.pid !in lists[i][..k]
      modifies this`home, this`lists, q, r, q.nodes, r.nodes
      ensures Rings() && home == old(home)[node := r]
      ensures q.nodes == old(q.nodes)[..k] + old(q.nodes)[k + 1..] && r.nodes == old(r.nodes) + [node]
      ensures lists == old(lists)[i := Remove(old(lists)[i], node.pid)][j := old(lists)[j] + [node.pid]]
    {
      OneQueue(i);
      Unlink(node, q, i, k);
      Link(node, r, j);
    }

    /** PROC_create_kthread: the new process goes to the tail of avail_procs. */
    method CreateKthread() returns (pid: nat)
      requires Valid()
      modifies this`home, this`lists, this`created, avail, avail.nodes
      ensures Valid() && pid == old(created) && Abs() == Step(old(Abs()), Create)
      ensures forall n :: n in home.Keys ==> n in old(home.Keys) || fresh(n)
    {
      pid := created;
      created := created + 1;
      var node := new ProcNode(pid);
      Link(node, avail, 0);
    }

    /** PROC_reschedule */
    method Reschedule()
      requires Rings()
      modifies this`next, this`lists, avail
      ensures Rings() && lists == old(lists)[0 := Rotate(old(lists)[0])]
      ensures if old(lists)[0] == [] then next == null
              else next != null && next.pid == old(lists)[0][0] && next in avail.nodes && next in home
    {
      OpenRings();
      assert Holds(avail, lists[0]);
      next := avail.Cycle();
      lists := lists[0 := Rotate(lists[0])];
      forall j | 0 < j < |queues|
        ensures Holds(queues[j], lists[j])
      {
        assert old(Holds(queues[j], lists[j]));
        queues[j].Untouched();
      }
      PidsRotated(old(avail.nodes));
      if old(avail.nodes) != [] {
        assert avail.nodes[|avail.nodes| - 1] == next;
      }
      assert Holds(avail, lists[0]);
    }

    /** The dispatch at the end of an interrupt: nothing when next_proc is already running, and
        the source when there is no next_proc. */
    method Dispatch()
      modifies this`cur, this`next
      ensures next == if old(next) == null && old(cur) != null then source else old(next)
      ensures cur == next
    {
      if cur != next {
        if next == null {
          next := source;
        }
        cur := next;
      }
    }

    /** yield, and the yield of PROC_run by the source. */
    method Yield()
      requires Valid() && Enabled(Abs(), SchedulerModel.Yield)
      modifies this`cur, this`next, this`lists, avail
      ensures Valid() && Abs() == Step(old(Abs()), SchedulerModel.Yield)
      ensures cur == next && (cur == source || cur in avail.nodes)
    {
      Reschedule();
      Dispatch();
    }

    /** PROC_run: nothing when no process is ready, else the source yields. */
    method Run()
      requires Valid() && (cur == null || cur == source)
      modifies this`cur, this`next, this`lists, avail
      ensures Valid()
      ensures Abs() == if old(Abs()).avail == [] then old(Abs()) else Step(old(Abs()), SchedulerModel.Yield)
      ensures old(Abs()).avail != [] ==> cur == next && cur in avail.nodes
    {
      OneQueue(0);
      if avail.head != null {
        cur := source;
        Reschedule();
        Dispatch();
      }
    }

    /** The place of the running process in avail_procs. */
    lemma {:induction false} RunningAt() returns (k: nat)
      requires Rings() && lists != [] && Inv(Abs()) && cur in avail.nodes
      ensures k < |avail.nodes| && avail.nodes[k] == cur && cur != source && cur in home
      ensures k < |lists[0]| && cur.pid !in lists[0][..k] && cur.pid in lists[0]
    {
      OneQueue(0);
      k :| 0 <= k < |avail.nodes| && avail.nodes[k] == cur;
      assert lists[0][k] == cur.pid;
      AvailDistinct(Abs());
    }

    method DetachAt(q: ProcessQueue, ghost i: nat, ghost k: nat)
      requires Valid() && 0 < i < |queues| && queues[i] == q && cur != null && cur != source
      requires k < |avail.nodes| && avail.nodes[k] == cur
      requires k < |lists[0]| && cur.pid !in lists[0][..k] && cur.pid in lists[0]
      modifies this`home, this`lists, avail, q, avail.nodes, q.nodes
      ensures Valid() && Enabled(old(Abs()), SchedulerModel.Detach(i - 1)) && q.nodes == old(q.nodes) + [cur]
      ensures Abs() == Step(old(Abs()), SchedulerModel.Detach(i - 1)) && home.Keys == old(home.Keys)
    {
      OneQueue(0);
      OneQueue(i);
      TwoUpdates(lists, Remove(lists[0], cur.pid), i, lists[i] + [cur.pid]);
      Move(cur, avail, 0, k, q, i);
    }

    /** PROC_block_on up to its yield, on the queue at position `i`. */
    method Detach(q: ProcessQueue, ghost i: nat)
      requires Valid() && Inv(Abs()) && 0 < i < |queues| && queues[i] == q && cur in avail.nodes
      modifies this`home, this`lists, avail, q, avail.nodes, q.nodes
      ensures Valid() && cur != source && Enabled(old(Abs()), SchedulerModel.Detach(i - 1))
      ensures q.nodes == old(q.nodes) + [cur]
      ensures Abs() == Step(old(Abs()), SchedulerModel.Detach(i - 1)) && home.Keys == old(home.Keys)
    {
      ghost var k := RunningAt();
      DetachAt(q, i, k);
    }

    /** PROC_block_on; a NULL queue is ignored. */
    method BlockOn(q: ProcessQueue?, ghost i: nat)
      requires Valid() && Inv(Abs()) && cur in avail.nodes
      requires q != null ==> 0 < i < |queues| && queues[i] == q
      modifies this`home, this`lists, this`cur, this`next, avail, avail.nodes, Footprint(q)
      ensures Valid()
      ensures q == null ==> Abs() == old(Abs())
      ensures q != null ==>
                && Enabled(old(Abs()), SchedulerModel.Detach(i - 1))
                && Abs() == Step(Step(old(Abs()), SchedulerModel.Detach(i - 1)), SchedulerModel.Yield)
                && cur == next && (cur == source || cur in avail.nodes) && q.nodes == old(q.nodes + [cur])
    {
      if q == null {
        return;
      }
      Detach(q, i);
      OneQueue(i);
      Yield();
    }

    /** PROC_unblock_head on a queue that is not empty. */
    method UnblockHead(q: ProcessQueue, ghost i: nat)
      requires Valid() && 0 < i < |queues| && queues[i] == q && lists[i] != []
      modifies this`home, this`lists, avail, q, avail.nodes, q.nodes
      ensures Valid() && Enabled(old(Abs()), SchedulerModel.UnblockHead(i - 1))
      ensures Abs() == Step(old(Abs()), SchedulerModel.UnblockHead(i - 1))
      ensures old(q.nodes) != [] && q.nodes == old(q.nodes)[1..] && avail.nodes == old(avail.nodes) + [old(q.nodes)[0]]
      ensures home.Keys == old(home.Keys)
    {
      OneQueue(i);
      var node := q.head;
      Move(node, q, i, 0, avail, 0);
    }

    /** PROC_unblock_all */
    method UnblockAll(q: ProcessQueue, ghost i: nat)
      requires Valid() && 0 < i < |queues| && queues[i] == q
      modifies this`home, this`lists, avail, q, avail.nodes, q.nodes
      ensures Valid() && q.head == null && Abs() == Step(old(Abs()), SchedulerModel.UnblockAll(i - 1))
      ensures avail.nodes == old(avail.nodes) + old(q.nodes) && home.Keys == old(home.Keys)
    {
      OneQueue(i);
      ghost var n := 0;
      ghost var was := Abs();
      WokenNone(was, i - 1);
      while q.head != null
        invariant Valid() && n <= |old(q.nodes)| == |was.waits[i - 1]| && (q.head == null <==> q.nodes == [])
        invariant q.nodes == old(q.nodes)[n..] && avail.nodes == old(avail.nodes) + old(q.nodes)[..n]
        invariant Abs() == Woken(was, i - 1, n) && home.Keys == old(home.Keys)
        decreases |q.nodes|
      {
        WokenOneMore(was, i - 1, n);
        UnblockHead(q, i);
        n := n + 1;
        OneQueue(i);
      }
      WokenAll(was, i - 1);
    }

    method RetireAt(ghost k: nat)
      requires Valid() && cur != null && k < |avail.nodes| && avail.nodes[k] == cur
      requires lists != [] && k < |lists[0]| && cur.pid !in lists[0][..k]
      modifies this`home, this`lists, this`exited, this`cur, avail, avail.nodes
      ensures Valid() && cur == null
      ensures lists == old(lists)[0 := Remove(old(lists)[0], old(cur).pid)] && exited == old(exited) + {old(cur).pid}
    {
      exited := exited + {cur.pid};
      Unlink(cur, avail, 0, k);
      cur := null;
    }

    /** kexit_handler up to its choice of the next process: the running one is unlinked and
        released. */
    method Retire()
      requires Valid() && Inv(Abs()) && cur in avail.nodes
      modifies this`home, this`lists, this`exited, this`cur, avail, avail.nodes
      ensures Valid() && cur == null && Enabled(old(Abs()), SchedulerModel.Exit)
      ensures lists == old(lists)[0 := Remove(old(lists)[0], old(cur).pid)] && exited == old(exited) + {old(cur).pid}
    {
      ghost var k := RunningAt();
      RetireAt(k);
    }

    /** kexit_handler's choice of the next process, and the dispatch. */
    method PickHead()
      requires Valid() && cur == null
      modifies this`cur, this`next
      ensures Valid() && cur == next && (cur == source || cur in avail.nodes)
      ensures Running() == if lists[0] == [] then Source else Proc(lists[0][0])
    {
      OneQueue(0);
      if avail.head == null {
        next := source;
      } else {
        next := avail.head;
      }
      Dispatch();
    }

    /** kexit_handler and the dispatch after it: the head is picked without being moved to the
        tail. */
    method Exit()
      requires Valid() && Inv(Abs()) && cur in avail.nodes
      modifies this`home, this`lists, this`exited, this`cur, this`next, avail, avail.nodes
      ensures Valid() && Enabled(old(Abs()), SchedulerModel.Exit)
      ensures Abs() == Step(old(Abs()), SchedulerModel.Exit)
      ensures cur == next && (cur == source || cur in avail.nodes)
    {
      Retire();
      PickHead();
    }
  }

  lemma {:induction false} PidsRotated(ns: seq<ProcNode>)
    ensures ns != [] ==> Pids(ns[1..] + [ns[0]]) == Rotate(Pids(ns))
    ensures ns == [] ==> Pids(ns) == [] == Rotate([])
  {
  }
}
