/**
  The linked lists of the client configuration: the base list of modules, the
  list of configured monitor names, and `monitor_data`, which moves nodes from
  the first to the monitored list while it walks it.
 */
module MonitorList {
  import opened Common
  import opened ModList
  import opened MonitorWalk

  function NamesOf(nodes: seq<ModNode>): (names: seq<string>)
    ensures |names| == |nodes|
    ensures forall i :: 0 <= i < |nodes| ==> names[i] == nodes[i].info.name
  {
    Names(Infos(nodes))
  }

  /** What is left of the base list: its prefix through the first selected node, then the other selected ones. */
  function BaseAfter(nodes: seq<ModNode>, sel: seq<nat>): seq<ModNode>
    requires Increasing(sel, |nodes|)
  {
    if sel == [] then nodes else nodes[..sel[0]] + Pick(nodes, sel)
  }

  class MonitorNode {
    const name: string
    var next: MonitorNode?

    constructor (name: string)
      ensures this.name == name && next == null
    {
      this.name, next := name, null;
    }
  }

  /** The configured monitor names, in a list with a dummy head and a count. */
  class Monitors {
    var head: MonitorNode
    var count: nat
    ghost var nodes: seq<MonitorNode>
    ghost var names: seq<string>

    ghost predicate Valid()
      reads this, head, nodes
    {
      && count == |nodes| == |names| && head !in nodes && Distinct(nodes)
      && head.next == At(nodes, 0)
      && (forall i {:trigger nodes[i].next} :: 0 <= i < |nodes| ==> nodes[i].next == At(nodes, i + 1))
      && (forall i :: 0 <= i < |nodes| ==> nodes[i].name == names[i])
    }

    static ghost function At(nodes: seq<MonitorNode>, i: nat): MonitorNode? {
      if i < |nodes| then nodes[i] else null
    }

    constructor ()
      ensures Valid() && names == [] && fresh(head) && fresh(nodes)
    {
      head := new MonitorNode("");
      count, nodes, names := 0, [], [];
    }

    /** `config_add_monitor`: append a name. */
    method Add(name: string)
      requires Valid()
      modifies this, head, nodes
      ensures Valid() && names == old(names) + [name] && count == old(count) + 1
      ensures head == old(head) && |nodes| == |old(nodes)| + 1
      ensures nodes[..|old(nodes)|] == old(nodes) && fresh(nodes[|old(nodes)|])
    {
      var monitor := Last();
      var added := new MonitorNode(name);
      monitor.next := added;
      count := count + 1;
      nodes, names := nodes + [added], names + [name];
    }

    /** The walk to the end of the list. */
    method Last() returns (monitor: MonitorNode)
      requires Valid()
      ensures monitor == if nodes == [] then head else nodes[|nodes| - 1]
    {
      monitor := head;
      ghost var i: nat := 0;
      while monitor.next != null
        invariant i <= |nodes|
        invariant monitor == if i == 0 then head else nodes[i - 1]
        decreases |nodes| - i
      {
        assert i < |nodes| && monitor.next == nodes[i];
        monitor := monitor.next;
        i := i + 1;
      }
    }
  }

  /** The lists once `sel` is selected; `tail` is the last node of the monitor list. */
  ghost predicate Selected(base: ModNode, monitored: ModNode, nodes: seq<ModNode>, sel: seq<nat>, tail: ModNode)
    reads base, monitored, nodes
  {
    && Increasing(sel, |nodes|)
    && base.next == NodeAt(nodes, 0)
    && (forall i {:trigger nodes[i].next} :: 0 <= i < |nodes| ==> nodes[i].next == NodeAt(nodes, NextIndex(sel, i)))
    && tail == (if sel == [] then monitored else nodes[sel[|sel| - 1]])
    && (sel != [] ==> monitored.next == nodes[sel[0]])
  }

  /** The heads and the nodes are separate objects, and module names are distinct. */
  ghost predicate Separate(base: ModNode, monitored: ModNode, nodes: seq<ModNode>) {
    && Distinct(nodes) && Distinct(NamesOf(nodes))
    && base !in nodes && monitored !in nodes && monitored != base
  }

  /** A match is linked behind the last node of the monitor list. */
  method Append(base: ModNode, monitored: ModNode, ghost nodes: seq<ModNode>, ghost sel: seq<nat>,
                tail: ModNode, head: ModNode, ghost q: nat)
    requires Separate(base, monitored, nodes) && Selected(base, monitored, nodes, sel, tail)
    requires LastOf(sel) < q < |nodes| && head == nodes[q]
    modifies tail
    ensures Selected(base, monitored, nodes, sel + [q], head)
  {
    var s := sel + [q];
    assert Increasing(s, |nodes|);
    forall i: nat | i < |nodes|
      ensures NextIndex(s, i) == if i == LastOf(sel) then q else NextIndex(sel, i)
    {
      NextIndexExtended(sel, q, i, |nodes|);
    }
    tail.next := head;
  }

  /** The inner loop: one walk over the base list for one configured name. */
  method Pass(base: ModNode, monitored: ModNode, ghost nodes: seq<ModNode>, ghost sel0: seq<nat>,
              tail0: ModNode, name: string)
    returns (tail: ModNode, ghost sel: seq<nat>)
    requires Separate(base, monitored, nodes) && Selected(base, monitored, nodes, sel0, tail0)
    requires Extend(sel0, Position(NamesOf(nodes), name), |nodes|).Some?
    modifies monitored, nodes
    ensures Extend(sel0, Position(NamesOf(nodes), name), |nodes|) == Some(sel)
    ensures Selected(base, monitored, nodes, sel, tail)
  {
    tail, sel := tail0, sel0;
    ghost var q, h, n := Position(NamesOf(nodes), name), 0 as nat, |nodes|;
    var head := base.next;
    while head != null
      invariant h <= n && head == NodeAt(nodes, h) && OnChain(sel, h)
      invariant Selected(base, monitored, nodes, sel, tail)
      invariant if h <= q then sel == sel0 else Extend(sel0, q, n) == Some(sel)
      decreases n - h
    {
      assert NamesOf(nodes)[h] == head.info.name;
      if head.info.name == name {
        assert h == q;
        Append(base, monitored, nodes, sel, tail, head, q);
        sel := sel + [q];
        tail := head;
      }
      NextOnChain(sel, h, n);
      assert h < q < n && NextIndex(sel, h) > q ==> !OnChain(sel, q);
      h := NextIndex(sel, h);
      head := head.next;
    }
  }

  /** The links after the monitor list was terminated. */
  ghost predicate Terminated(nodes: seq<ModNode>, sel: seq<nat>)
    reads nodes
  {
    forall i {:trigger nodes[i].next} :: 0 <= i < |nodes| ==>
      nodes[i].next == if i == LastOf(sel) then null else NodeAt(nodes, NextIndex(sel, i))
  }

  method Terminate(base: ModNode, monitored: ModNode, ghost nodes: seq<ModNode>, ghost sel: seq<nat>, tail: ModNode)
    requires Separate(base, monitored, nodes) && Selected(base, monitored, nodes, sel, tail)
    modifies tail
    ensures Terminated(nodes, sel) && base.next == old(base.next)
    ensures monitored.next == NodeAt(Pick(nodes, sel), 0)
  {
    tail.next := null;
  }

  lemma {:induction false} MonitoredIsPicked(nodes: seq<ModNode>, sel: seq<nat>)
    requires Increasing(sel, |nodes|) && Terminated(nodes, sel)
    ensures Listed(NodeAt(Pick(nodes, sel), 0), Pick(nodes, sel))
  {
    var picked := Pick(nodes, sel);
    forall a | 0 <= a < |picked| ensures picked[a].next == NodeAt(picked, a + 1) {
      NextIndexAt(sel, sel[a], |nodes|);
      assert picked[a] == nodes[sel[a]];
    }
  }

  lemma {:induction false} UnselectedKeep(nodes: seq<ModNode>, sel: seq<nat>)
    requires Increasing(sel, |nodes|) && Terminated(nodes, sel)
    ensures forall i :: 0 <= i < |nodes| && i !in sel ==> nodes[i].next == NodeAt(nodes, i + 1)
  {
    forall i: nat | i < |nodes| && i !in sel ensures nodes[i].next == NodeAt(nodes, i + 1) {
      NextIndexAt(sel, i, |nodes|);
    }
  }

  lemma {:induction false} BaseIsCut(nodes: seq<ModNode>, sel: seq<nat>)
    requires Increasing(sel, |nodes|) && Terminated(nodes, sel)
    ensures Listed(NodeAt(nodes, 0), BaseAfter(nodes, sel))
  {
    PrefixKeeps(nodes, sel);
    if sel == [] {
      assert BaseAfter(nodes, sel) == nodes;
    } else {
      MonitoredIsPicked(nodes, sel);
      var picked := Pick(nodes, sel);
      assert picked[0] == nodes[sel[0]];
      ConcatListed(nodes, sel[0], picked);
    }
  }

  lemma {:induction false} PrefixKeeps(nodes: seq<ModNode>, sel: seq<nat>)
    requires Increasing(sel, |nodes|) && Terminated(nodes, sel)
    ensures forall i {:trigger nodes[i].next} :: 0 <= i < (if sel == [] then |nodes| else sel[0]) ==>
              nodes[i].next == NodeAt(nodes, i + 1)
  {
    forall i: nat | i < if sel == [] then |nodes| else sel[0]
      ensures nodes[i].next == NodeAt(nodes, i + 1)
    {
      NextIndexAt(sel, i, |nodes|);
    }
  }

  lemma {:induction false} ConcatListed(nodes: seq<ModNode>, cut: nat, picked: seq<ModNode>)
    requires cut < |nodes| && picked != [] && picked[0] == nodes[cut]
    requires Listed(picked[0], picked)
    requires forall i :: 0 <= i < cut ==> nodes[i].next == nodes[i + 1]
    ensures Listed(nodes[0], nodes[..cut] + picked)
  {
    var rest := nodes[..cut] + picked;
    forall i | 0 <= i < |rest| ensures rest[i].next == NodeAt(rest, i + 1) {
      if i < cut {
        assert rest[i] == nodes[i];
      } else {
        assert rest[i] == picked[i - cut];
        assert picked[i - cut].next == NodeAt(picked, i - cut + 1);
      }
    }
  }

  /** The two nested loops. */
  method SelectNodes(base: ModNode, monitors: Monitors, monitored: ModNode, ghost nodes: seq<ModNode>)
    returns (tail: ModNode, ghost sel: seq<nat>)
    requires Selected(base, monitored, nodes, [], monitored)
    requires Separate(base, monitored, nodes) && monitors.Valid()
    requires Plan(NamesOf(nodes), monitors.names, []).Some?
    modifies monitored, nodes
    ensures Plan(NamesOf(nodes), monitors.names, []) == Some(sel)
    ensures Selected(base, monitored, nodes, sel, tail)
  {
    ghost var wanted := monitors.names;
    tail, sel := monitored, [];
    var monitor := monitors.head.next;
    var j := 0;
    assert wanted[0..] == wanted;
    while j < monitors.count
      invariant j <= |wanted| && monitor == Monitors.At(monitors.nodes, j)
      invariant monitors.Valid()
      invariant Plan(NamesOf(nodes), wanted[j..], sel) == Plan(NamesOf(nodes), wanted, [])
      invariant Selected(base, monitored, nodes, sel, tail)
    {
      assert wanted[j..][0] == monitor.name && wanted[j..][1..] == wanted[j + 1..];
      tail, sel := Pass(base, monitored, nodes, sel, tail, monitor.name);
      monitor := monitor.next;
      j := j + 1;
    }
  }

  /**
    `nodes` is the base list. The method is called with a plan that exists, which
    is exactly when the loops end (MonitorWalk.MonitorDataReturnsIff).
   */
  method MonitorData(base: ModNode, monitors: Monitors, monitored: ModNode, ghost nodes: seq<ModNode>)
    requires Listed(base.next, nodes) && Separate(base, monitored, nodes) && monitors.Valid()
    requires Plan(NamesOf(nodes), monitors.names, []).Some?
    modifies monitored, nodes
    ensures var sel := Plan(NamesOf(nodes), monitors.names, []).value;
            && Increasing(sel, |nodes|)
            && Listed(monitored.next, Pick(nodes, sel))
            && Listed(base.next, BaseAfter(nodes, sel))
            && (forall i :: 0 <= i < |nodes| && i !in sel ==> nodes[i].next == NodeAt(nodes, i + 1))
  {
    var tail;
    ghost var sel;
    tail, sel := SelectNodes(base, monitors, monitored, nodes);
    Terminate(base, monitored, nodes, sel, tail);
    MonitoredIsPicked(nodes, sel);
    BaseIsCut(nodes, sel);
    UnselectedKeep(nodes, sel);
  }
}
