/**
 The packet queue between producers and the sender thread (packet_fifo.c): a linked list
 whose head pointer is set only when somebody needs it.
 */
module PacketFifo {
  import opened Wrappers

  /** A packet with the time at which it was queued, in milliseconds. */
  datatype Queued<T> = Queued(packet: T, t: real)

  class Node<T> {
    const packet: T
    const t: real
    var next: Node?<T>

    constructor (packet: T, t: real)
      ensures this.packet == packet && this.t == t && next == null
    {
      this.packet, this.t := packet, t;
      next := null;
    }
  }

  class FifoAgent<T> {
    var header: Node?<T>
    var tail: Node?<T>
    var size: nat
    // The nodes from oldest to newest.
    ghost var nodes: seq<Node<T>>

    /** Nothing queued; or one node that only `tail` knows; or a chain from `header` to `tail`. */
    ghost predicate Valid()
      reads this, nodes
    {
      && size == |nodes|
      && (forall i, j | 0 <= i < j < |nodes| :: nodes[i] != nodes[j])
      && (forall i | 0 <= i < |nodes| - 1 :: nodes[i].next == nodes[i + 1])
      && (nodes == [] ==> header == null && tail == null)
      && (nodes != [] ==>
            && tail == nodes[|nodes| - 1] && tail.next == null
            && (header == nodes[0] || (header == null && |nodes| == 1)))
    }

    ghost function Contents(): (s: seq<Queued<T>>)
      reads this
      ensures |s| == |nodes|
    {
      seq(|nodes|, i requires 0 <= i < |nodes| reads this => Queued(nodes[i].packet, nodes[i].t))
    }

    constructor ()
      ensures Valid() && Contents() == []
    {
      header, tail, size := null, null, 0;
      nodes := [];
    }

    method Push(packet: T, now: real)
      requires Valid()
      modifies this, nodes
      ensures Valid() && Contents() == old(Contents()) + [Queued(packet, now)]
      ensures fresh(nodes[|nodes| - 1]) && nodes == old(nodes) + [nodes[|nodes| - 1]]
    {
      var fifoObj := new Node(packet, now);
      if tail == null {
        tail := fifoObj;
      } else {
        tail.next := fifoObj;
        if header == null {
          header := tail;
        }
        tail := tail.next;
      }
      size := size + 1;
      nodes := nodes + [fifoObj];
    }

    /** The oldest packet, which stays queued. */
    method Front() returns (packet: Option<T>)
      requires Valid()
      modifies this`header
      ensures Valid() && nodes == old(nodes) && Contents() == old(Contents())
      ensures packet == if nodes == [] then None else Some(Contents()[0].packet)
    {
      if header == null {
        header := tail;
      }
      packet := None;
      if header != null {
        packet := Some(header.packet);
      }
    }

    /** Removes the oldest packet, if there is one, and returns when it was queued. */
    method Pop() returns (t: real)
      requires Valid()
      modifies this
      ensures Valid()
      ensures nodes == if old(nodes) == [] then [] else old(nodes)[1..]
      ensures Contents() == if old(nodes) == [] then [] else old(Contents())[1..]
      ensures t == if old(nodes) == [] then 0.0 else old(Contents())[0].t
    {
      t := 0.0;
      if header == null {
        header := tail;
      }
      if header != null {
        if header == tail {
          tail := null;
        }
        t := header.t;
        header := header.next;
        size := size - 1;
        nodes := nodes[1..];
      }
    }

    /**
     Empties the queue and frees the packets it finds from `header` on. In the state that only
     `tail` knows, that is none of them.
     */
    method Clear() returns (freed: seq<Queued<T>>)
      requires Valid()
      modifies this
      ensures Valid() && Contents() == []
      ensures freed == if old(header) == null then [] else old(Contents())
    {
      freed := [];
      var p := header;
      while p != null
        invariant |freed| <= |nodes| && nodes == old(nodes) && header == old(header) && Valid()
        invariant p == null || (|freed| < |nodes| && p == nodes[|freed|])
        invariant p == null && header != null ==> |freed| == |nodes|
        invariant header == null ==> p == null && freed == []
        invariant freed == Contents()[..|freed|]
        decreases |nodes| - |freed|
      {
        var next := p.next;
        freed := freed + [Queued(p.packet, p.t)];
        p := next;
      }
      header, tail, size := null, null, 0;
      nodes := [];
    }
  }
}
