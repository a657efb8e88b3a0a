/**
  The modules of a configuration and the linked lists they stand in. A list has a
  head whose own module is not used.
 */
module ModList {
  import opened Common

  datatype IndexInfo = IndexInfo(name: string, unit: string, kind: string)
  datatype ModInfo = ModInfo(name: string, indexes: seq<IndexInfo>)

  const NO_MOD := ModInfo("", [])

  class ModNode {
    const info: ModInfo
    var next: ModNode?

    constructor (info: ModInfo)
      ensures this.info == info && next == null
    {
      this.info, next := info, null;
    }
  }

  function NodeAt(nodes: seq<ModNode>, i: nat): ModNode? {
    if i < |nodes| then nodes[i] else null
  }

  /** The null-terminated list that starts at `first` consists of exactly `nodes`. */
  ghost predicate Listed(first: ModNode?, nodes: seq<ModNode>)
    reads nodes
  {
    && first == NodeAt(nodes, 0)
    && forall i {:trigger nodes[i].next} :: 0 <= i < |nodes| ==> nodes[i].next == NodeAt(nodes, i + 1)
  }

  function Infos(nodes: seq<ModNode>): (mods: seq<ModInfo>)
    ensures |mods| == |nodes|
    ensures forall i :: 0 <= i < |nodes| ==> mods[i] == nodes[i].info
  {
    seq(|nodes|, i requires 0 <= i < |nodes| => nodes[i].info)
  }

  function Names(mods: seq<ModInfo>): (names: seq<string>)
    ensures |names| == |mods|
    ensures forall i :: 0 <= i < |mods| ==> names[i] == mods[i].name
  {
    seq(|mods|, i requires 0 <= i < |mods| => mods[i].name)
  }

  /** The elements at the given positions. */
  function Pick<T>(s: seq<T>, sel: seq<nat>): (picked: seq<T>)
    requires forall a :: 0 <= a < |sel| ==> sel[a] < |s|
    ensures |picked| == |sel|
    ensures forall a :: 0 <= a < |sel| ==> picked[a] == s[sel[a]]
  {
    seq(|sel|, a requires 0 <= a < |sel| => s[sel[a]])
  }

  /** A list of `mods` under construction: `last` is its last node, or the head while it is empty. */
  ghost predicate Open(head: ModNode, last: ModNode, nodes: seq<ModNode>, mods: seq<ModInfo>)
    reads head, nodes
  {
    && Listed(head.next, nodes) && Infos(nodes) == mods
    && last == if nodes == [] then head else nodes[|nodes| - 1]
  }

  /** No node stands in a null-terminated list twice. */
  lemma {:induction false} NoRepeat(first: ModNode?, nodes: seq<ModNode>, i: nat, j: nat)
    requires Listed(first, nodes) && i < j < |nodes|
    ensures nodes[i] != nodes[j]
    decreases |nodes| - j
  {
    assert nodes[i].next == NodeAt(nodes, i + 1) && nodes[j].next == NodeAt(nodes, j + 1);
    if j + 1 < |nodes| {
      NoRepeat(first, nodes, i + 1, j + 1);
    }
  }

  lemma {:induction false} ListedDistinct(first: ModNode?, nodes: seq<ModNode>)
    requires Listed(first, nodes)
    ensures Distinct(nodes)
  {
    forall i, j | 0 <= i < j < |nodes| ensures nodes[i] != nodes[j] {
      NoRepeat(first, nodes, i, j);
    }
  }

  /** A new node behind the last one. */
  method AppendMod(head: ModNode, last: ModNode, ghost nodes: seq<ModNode>, ghost mods: seq<ModInfo>, info: ModInfo)
    returns (added: ModNode, ghost more: seq<ModNode>)
    requires Open(head, last, nodes, mods)
    modifies last
    ensures fresh(added) && more == nodes + [added] && Open(head, added, more, mods + [info])
  {
    assert last.next == if nodes == [] then head.next else nodes[|nodes| - 1].next;
    added := new ModNode(info);
    last.next := added;
    more := nodes + [added];
  }
}
