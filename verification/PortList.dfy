/** The linked list `pq` of server/ports.h and server/port-queue.c. */
module PortList {
  import opened ServerModel

  /** `port_queue_t`. */
  class Node {
    var port: Port
    var next: Node?

    constructor (port: Port, next: Node?)
      ensures this.port == port && this.next == next
    {
      this.port, this.next := port, next;
    }
  }

  class PortQueue {
    var pq: Node?
    ghost var nodes: seq<Node>
    ghost var ports: seq<Port>
    ghost var repr: set<Node>

    /** `nodes` and `ports` list what is reachable from `pq`, in order; `repr` has every node ever listed. */
    ghost predicate Valid()
      reads this, repr
    {
      && (forall i :: 0 <= i < |nodes| ==> nodes[i] in repr)
      && pq == NodeAt(0)
      && (forall i {:trigger nodes[i].next} :: 0 <= i < |nodes| ==> nodes[i].next == NodeAt(i + 1))
      && (forall i, j :: 0 <= i < j < |nodes| ==> nodes[i] != nodes[j])
      && |nodes| == |ports|
      && (forall i :: 0 <= i < |nodes| ==> nodes[i].port == ports[i])
    }

    ghost function NodeAt(i: nat): Node?
      reads this
    {
      if i < |nodes| then nodes[i] else null
    }

    /** The node before position `i`: the `prev` of the loops. */
    ghost function NodeBefore(i: nat): Node?
      reads this
    {
      if 0 < i <= |nodes| then nodes[i - 1] else null
    }

    constructor ()
      ensures Valid() && ports == [] && repr == {}
    {
      pq, nodes, ports, repr := null, [], [], {};
    }

    method Push(p: Port)
      requires Valid()
      modifies this
      ensures Valid() && fresh(repr - old(repr))
      ensures ports == [p] + old(ports)
    {
      var np := new Node(p, pq);
      pq := np;
      nodes, ports, repr := [np] + nodes, [p] + ports, repr + {np};
    }

    /** The search of `close_port`: the first node that compares equal, and the node before it. */
    method Find(p: Port) returns (prev: Node?, curr: Node?)
      requires Valid()
      ensures curr == NodeAt(IndexOf(ports, p)) && prev == NodeBefore(IndexOf(ports, p))
    {
      ghost var i := 0;
      curr, prev := pq, null;
      while curr != null && curr.port != p
        invariant i <= IndexOf(ports, p) && curr == NodeAt(i) && prev == NodeBefore(i)
        decreases IndexOf(ports, p) - i
      {
        prev := curr;
        curr := curr.next;
        i := i + 1;
      }
    }

    /** Takes the node at position `k` out of the list. */
    method Unlink(prev: Node?, curr: Node, ghost k: nat)
      requires Valid() && k < |nodes| && nodes[k] == curr && prev == NodeBefore(k)
      modifies this, repr`next
      ensures Valid() && repr == old(repr)
      ensures nodes == old(nodes)[..k] + old(nodes)[k + 1..]
      ensures ports == Without(old(ports), k)
    {
      if prev == null {
        pq := curr.next;
      } else {
        prev.next := curr.next;
      }
      nodes, ports := nodes[..k] + nodes[k + 1..], Without(ports, k);
    }

    /** Rewrites the flags of the node at position `k`. */
    method SetFlags(curr: Node, ghost k: nat, flags: Flags)
      requires Valid() && k < |nodes| && nodes[k] == curr
      modifies curr`port, this`ports
      ensures Valid()
      ensures ports == old(ports)[k := old(ports)[k].(flags := flags)]
    {
      curr.port := curr.port.(flags := flags);
      ports := ports[k := curr.port];
    }
  }
}
