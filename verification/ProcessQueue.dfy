/** Intrusive circular doubly linked process queues. */
module ProcessQueues {
  import opened Collections

  /** struct ProcNode, with the pid of its context. */
  class ProcNode {
    const pid: nat
    var next: ProcNode?
    var prev: ProcNode?

    constructor (pid: nat)
      ensures this.pid == pid
    {
      this.pid := pid;
      next, prev := null, null;
    }
  }

  /** Neighbouring positions on a ring of `n`. */
  function After(i: nat, n: nat): (r: nat)
    requires i < n
    ensures r < n
  {
    if i + 1 == n then 0 else i + 1
  }

  function Before(i: nat, n: nat): (r: nat)
    requires i < n
    ensures r < n
  {
    if i == 0 then n - 1 else i - 1
  }

  /** The links of the nodes form one ring in this order. */
  ghost predicate Ring(nodes: seq<ProcNode>)
    reads nodes
  {
    && Distinct(nodes)
    && (forall i {:trigger nodes[i].next} :: 0 <= i < |nodes| ==> nodes[i].next == nodes[After(i, |nodes|)])
    && (forall i {:trigger nodes[i].prev} :: 0 <= i < |nodes| ==> nodes[i].prev == nodes[Before(i, |nodes|)])
  }

  datatype RingPart = HeadPart | LinksPart

  /** A ring with the two neighbours of position `k` joined is a ring without it. */
  lemma {:induction false} Spliced(ns: seq<ProcNode>, rest: seq<ProcNode>, k: nat)
    requires |ns| > 1 && k < |ns| && rest == ns[..k] + ns[k + 1..]
    requires Distinct(ns)
    requires forall j {:trigger ns[j].next} :: 0 <= j < |ns| && j != Before(k, |ns|) ==>
               ns[j].next == ns[After(j, |ns|)]
    requires forall j {:trigger ns[j].prev} :: 0 <= j < |ns| && j != After(k, |ns|) ==>
               ns[j].prev == ns[Before(j, |ns|)]
    requires ns[Before(k, |ns|)].next == ns[After(k, |ns|)] && ns[After(k, |ns|)].prev == ns[Before(k, |ns|)]
    ensures Ring(rest)
  {
    forall i {:trigger rest[i].next} | 0 <= i < |rest|
      ensures rest[i].next == rest[After(i, |rest|)]
    {
      var j := if i < k then i else i + 1;
      assert rest[i] == ns[j] && ns[j].next == ns[if j == Before(k, |ns|) then After(k, |ns|) else After(j, |ns|)];
    }
    forall i {:trigger rest[i].prev} | 0 <= i < |rest|
      ensures rest[i].prev == rest[Before(i, |rest|)]
    {
      var j := if i < k then i else i + 1;
      assert rest[i] == ns[j] && ns[j].prev == ns[if j == After(k, |ns|) then Before(k, |ns|) else Before(j, |ns|)];
    }
  }

  /** struct ProcessQueue: `nodes` lists the ring from the head on. */
  class ProcessQueue {
    var head: ProcNode?
    ghost var nodes: seq<ProcNode>

    ghost predicate Linked(part: RingPart)
      reads this, nodes
    {
      match part
      case HeadPart => head == if nodes == [] then null else nodes[0]
      case LinksPart => Ring(nodes)
    }

    /** Opened part by part, so that clients reason about `nodes` alone. */
    ghost predicate Valid()
      reads this, nodes
    {
      forall part: RingPart :: Linked(part)
    }

    lemma {:induction false} OthersWithout(k: nat)
      requires Valid() && k < |nodes|
      ensures forall n :: n in nodes[..k] + nodes[k + 1..] ==> n in nodes && n != nodes[k]
    {
      assert Linked(LinksPart);
    }

    /** A queue stays valid while neither it nor any of its nodes is written. */
    twostate lemma {:induction false} Untouched()
      requires old(Valid()) && unchanged(this) && forall n :: n in old(nodes) ==> unchanged(n)
      ensures Valid()
    {
      assert old(Linked(HeadPart)) && old(Linked(LinksPart));
      forall i | 0 <= i < |nodes|
        ensures nodes[i].next == old(nodes[i].next) && nodes[i].prev == old(nodes[i].prev)
      {
        assert nodes[i] in old(nodes);
      }
      assert Linked(HeadPart) && Linked(LinksPart);
    }

    /** PROC_init_queue */
    constructor ()
      ensures Valid() && nodes == []
    {
      head := null;
      nodes := [];
    }

    /** append_proc */
    method Append(node: ProcNode)
      requires Valid() && node !in nodes
      modifies this, nodes, node
      ensures Valid() && nodes == old(nodes) + [node]
    {
      assert Linked(HeadPart) && Linked(LinksPart);
      if head != null {
        assert nodes[0].prev == nodes[|nodes| - 1];
        node.prev := head.prev;
        node.next := head;
        node.prev.next := node;
        node.next.prev := node;
      } else {
        node.next := node;
        node.prev := node;
        head := node;
      }
      nodes := nodes + [node];
    }

    /** unlink_proc on the node at position `k` */
    method Unlink(node: ProcNode, ghost k: nat)
      requires Valid() && k < |nodes| && nodes[k] == node
      modifies this, nodes
      ensures Valid() && nodes == old(nodes)[..k] + old(nodes)[k + 1..]
    {
      assert Linked(HeadPart) && Linked(LinksPart);
      ghost var ns, n, b, a := nodes, |nodes|, Before(k, |nodes|), After(k, |nodes|);
      assert node.prev == ns[b] && node.next == ns[a];
      if node != node.prev {
        node.prev.next := node.next;
        node.next.prev := node.prev;
        if node == head {
          head := node.next;
        }
        assert forall j {:trigger ns[j].next} :: 0 <= j < n && j != b ==> ns[j].next == ns[After(j, n)];
        assert forall j {:trigger ns[j].prev} :: 0 <= j < n && j != a ==> ns[j].prev == ns[Before(j, n)];
        nodes := ns[..k] + ns[k + 1..];
        Spliced(ns, nodes, k);
      } else {
        assert n == 1;
        head := null;
        nodes := [];
      }
    }

    /** cycle_next_proc */
    method Cycle() returns (r: ProcNode?)
      requires Valid()
      modifies this
      ensures Valid()
      ensures old(nodes) == [] ==> r == null && nodes == []
      ensures old(nodes) != [] ==> r == old(nodes)[0] && nodes == old(nodes)[1..] + [old(nodes)[0]]
    {
      assert Linked(HeadPart) && Linked(LinksPart);
      if head != null {
        r := head;
        head := head.next;
        nodes := nodes[1..] + [nodes[0]];
      } else {
        r := null;
      }
    }
  }
}
