/**
  The server's node records: a linked list of packets behind a head that also
  stores the most recent packet, and the counts read over all nodes.
 */
module NodeBuffer {
  import opened Common
  import opened Strtok
  import opened ServerReply

  /** A node's data as a value. */
  datatype View = View(packets: seq<string>, recent: string, hasRecent: bool, count: int)

  datatype Op = Put(data: string) | SetRecent(data: string) | Clear

  function Apply(v: View, op: Op): View {
    match op
    case Put(d) => v.(packets := v.packets + [d], count := v.count + 1)
    case SetRecent(d) => v.(recent := d, hasRecent := true)
    case Clear => v.(packets := [], hasRecent := false, count := 0)
  }

  function Run(v: View, ops: seq<Op>): View
    decreases |ops|
  {
    if ops == [] then v else Run(Apply(v, ops[0]), ops[1..])
  }

  // ----- what a history leaves

  /** The operations after the last Clear. */
  function SinceClear(ops: seq<Op>): seq<Op> {
    if Clear in ops then SinceClear(ops[1..]) else ops
  }

  function Puts(ops: seq<Op>): seq<string> {
    if ops == [] then []
    else (match ops[0] case Put(d) => [d] case _ => []) + Puts(ops[1..])
  }

  /** The packet of the last SetRecent, `before` if there is none. */
  function LastSet(ops: seq<Op>, before: string): string
    decreases |ops|
  {
    if ops == [] then before
    else LastSet(ops[1..], match ops[0] case SetRecent(d) => d case _ => before)
  }

  /**
    After any history: the packets put since the last Clear in arrival order,
    their number, and the last packet set as recent.
   */
  lemma {:induction false} History(v: View, ops: seq<Op>)
    requires v.count == |v.packets|
    ensures var e := Run(v, ops);
            && e.count == |e.packets|
            && e.packets == (if Clear in ops then [] else v.packets) + Puts(SinceClear(ops))
            && e.recent == LastSet(ops, v.recent)
            && (e.hasRecent <==>
                (exists op :: op in SinceClear(ops) && op.SetRecent?) || (v.hasRecent && Clear !in ops))
    decreases |ops|
  {
    if ops == [] {
    } else {
      var rest := ops[1..];
      assert ops == [ops[0]] + rest;
      History(Apply(v, ops[0]), rest);
      if Clear !in rest {
        assert SinceClear(rest) == rest;
        if ops[0] == Clear {
          assert SinceClear(ops) == SinceClear(rest);
        } else {
          assert SinceClear(ops) == ops;
        }
      } else {
        assert SinceClear(ops) == SinceClear(rest);
      }
    }
  }

  // ----- the linked list

  class Packet {
    var data: string
    var next: Packet?

    constructor (data: string)
      ensures this.data == data && next == null
    {
      this.data, next := data, null;
    }
  }

  class NodeData {
    const name: string
    var status: Status
    var dataCount: int
    var existRecent: bool
    const head: Packet               // node_data_head: its data is the recent packet
    ghost var nodes: seq<Packet>
    ghost var packets: seq<string>

    static ghost function At(nodes: seq<Packet>, i: nat): Packet? {
      if i < |nodes| then nodes[i] else null
    }

    ghost predicate Valid()
      reads this, head, nodes
    {
      && dataCount == |nodes| == |packets| && head !in nodes && Distinct(nodes)
      && head.next == At(nodes, 0)
      && (forall i {:trigger nodes[i].next} :: 0 <= i < |nodes| ==> nodes[i].next == At(nodes, i + 1))
      && (forall i :: 0 <= i < |nodes| ==> nodes[i].data == packets[i])
    }

    ghost function TheView(): View
      reads this, head
    {
      View(packets, head.data, existRecent, dataCount)
    }

    constructor (name: string)
      ensures Valid() && this.name == name && status == Down && fresh(head)
      ensures packets == [] && !existRecent && dataCount == 0
    {
      this.name, status, dataCount, existRecent := name, Down, 0, false;
      head := new Packet("");
      nodes, packets := [], [];
    }

    /** `put_data_in_buffer` */
    method PutData(data: string)
      requires Valid()
      modifies this, head, nodes
      ensures Valid() && TheView() == Apply(old(TheView()), Put(data)) && status == old(status)
      ensures |nodes| == |old(nodes)| + 1 && nodes[..|old(nodes)|] == old(nodes) && fresh(nodes[|old(nodes)|])
    {
      var p := Last();
      var added := new Packet(data);
      p.next := added;
      dataCount := dataCount + 1;
      nodes, packets := nodes + [added], packets + [data];
    }

    method Last() returns (p: Packet)
      requires Valid()
      ensures p == if nodes == [] then head else nodes[|nodes| - 1]
    {
      p := head;
      ghost var i: nat := 0;
      while p.next != null
        invariant i <= |nodes|
        invariant p == if i == 0 then head else nodes[i - 1]
        decreases |nodes| - i
      {
        assert i < |nodes| && p.next == nodes[i];
        p := p.next;
        i := i + 1;
      }
    }

    /** `set_node_recent_data` */
    method SetRecentData(data: string)
      requires Valid()
      modifies this, head
      ensures Valid() && TheView() == Apply(old(TheView()), SetRecent(data))
      ensures nodes == old(nodes) && status == old(status)
    {
      head.data := data;
      existRecent := true;
    }

    /** `clear_node`; the loop walks the list it frees. */
    method ClearNode()
      requires Valid()
      modifies this, head
      ensures Valid() && TheView() == Apply(old(TheView()), Clear) && nodes == [] && status == old(status)
    {
      dataCount := 0;
      existRecent := false;
      var p := head.next;
      ghost var i: nat := 0;
      while p != null
        invariant i <= |nodes| && p == At(nodes, i)
        invariant forall k {:trigger nodes[k].next} :: 0 <= k < |nodes| ==> nodes[k].next == At(nodes, k + 1)
        decreases |nodes| - i
      {
        p := p.next;
        i := i + 1;
      }
      head.next := null;
      nodes, packets := [], [];
    }

    /** Any sequence of these operations. */
    method Perform(ops: seq<Op>)
      requires Valid()
      modifies this, head, nodes
      ensures Valid() && status == old(status)
      ensures TheView() == Run(old(TheView()), ops)
    {
      ghost var start := TheView();
      for i := 0 to |ops|
        invariant Valid() && status == old(status)
        invariant forall k :: 0 <= k < |nodes| ==> nodes[k] in old(nodes) || fresh(nodes[k])
        invariant Run(TheView(), ops[i..]) == Run(start, ops)
      {
        assert ops[i..][0] == ops[i] && ops[i..][1..] == ops[i + 1..];
        match ops[i]
        case Put(data) => PutData(data);
        case SetRecent(data) => SetRecentData(data);
        case Clear => ClearNode();
      }
    }

    /** `get_all_index_data_by_node_ix` */
    method GetAll() returns (reply: string)
      ensures reply == AllReply(name, status, existRecent, head.data)
    {
      reply := name + [DELIM];
      reply := reply + StatusText(status) + [DELIM];
      if status == Active && existRecent {
        reply := reply + head.data;
      }
    }

    /** `get_part_index_data_by_node_ix` */
    method GetPart(positions: seq<nat>, max: nat) returns (reply: string)
      requires NUL !in head.data && |Tokens(head.data, [DELIM])| < max
      requires forall i :: 0 <= i < |positions| ==> positions[i] < max
      ensures reply == PartReply(name, status, existRecent, head.data, positions)
    {
      reply := name + [DELIM];
      reply := reply + StatusText(status) + [DELIM];
      if status == Active && existRecent {
        var part := PartOneNode(head.data, positions, max);
        reply := reply + part;
      }
    }
  }

  // ----- counts over all nodes

  /** Indices of the active nodes. */
  ghost predicate ActiveAt(nodes: seq<NodeData>, i: int)
    reads nodes
  {
    0 <= i < |nodes| && nodes[i].status == Active
  }

  /** m is the smallest count of an active node, 0 if there is none. */
  ghost predicate IsMinCount(nodes: seq<NodeData>, m: int)
    reads nodes
  {
    if exists i :: ActiveAt(nodes, i) then
      && (exists i :: ActiveAt(nodes, i) && nodes[i].dataCount == m)
      && (forall i :: ActiveAt(nodes, i) ==> m <= nodes[i].dataCount)
    else m == 0
  }

  /** `get_nodes_data_count` */
  method GetNodesDataCount(nodes: seq<NodeData>) returns (m: int)
    ensures IsMinCount(nodes, m)
  {
    var i := 0;
    m := 0;
    while i < |nodes|
      invariant 0 <= i <= |nodes| && forall k :: 0 <= k < i ==> nodes[k].status != Active
    {
      if nodes[i].status == Active {
        m := nodes[i].dataCount;
        break;
      }
      i := i + 1;
    }
    if i == |nodes| {
      return 0;
    }
    ghost var first := i;
    assert ActiveAt(nodes, first);
    while i < |nodes|
      invariant first <= i <= |nodes|
      invariant exists k :: ActiveAt(nodes, k) && nodes[k].dataCount == m
      invariant forall k :: ActiveAt(nodes, k) && k < i ==> m <= nodes[k].dataCount
    {
      if nodes[i].status == Active {
        assert ActiveAt(nodes, i);
        m := if m < nodes[i].dataCount then m else nodes[i].dataCount;
      }
      i := i + 1;
    }
  }

  /** `check_nodes_data_status` */
  method CheckNodesDataStatus(nodes: seq<NodeData>) returns (ok: int)
    ensures ok == 0 || ok == 1
    ensures ok == 1 <==> forall i :: ActiveAt(nodes, i) ==> nodes[i].dataCount > 0
  {
    for i := 0 to |nodes|
      invariant forall k :: ActiveAt(nodes, k) && k < i ==> nodes[k].dataCount > 0
    {
      if nodes[i].status == Active && nodes[i].dataCount <= 0 {
        assert ActiveAt(nodes, i);
        return 0;
      }
    }
    return 1;
  }

  /** The two agree: the status is 1 exactly when no node is active or the minimum is positive. */
  lemma {:induction false} StatusIffMinimum(nodes: seq<NodeData>, m: int)
    requires IsMinCount(nodes, m)
    ensures (forall i :: ActiveAt(nodes, i) ==> nodes[i].dataCount > 0) <==>
            (forall i :: !ActiveAt(nodes, i)) || m > 0
  {
    if exists i :: ActiveAt(nodes, i) {
      var k :| ActiveAt(nodes, k) && nodes[k].dataCount == m;
    }
  }
}
