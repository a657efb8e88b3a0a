/**
  What `monitor_data` computes, on values: base nodes are numbered 0 .. n-1 in
  list order and n is the null pointer. For each configured name the code walks
  the base list and appends every match to the monitor list by overwriting the
  `next` field of the last match: a link of the very list it is walking.
 */
module MonitorWalk {
  import opened Common

  /** The position of a name in the base list, |base| when it is absent. */
  function Position(base: seq<string>, name: string): (q: nat)
    ensures q <= |base|
    ensures q < |base| ==> base[q] == name
    ensures forall i: nat | i < q :: base[i] != name
  {
    if base == [] then 0 else if base[0] == name then 0 else 1 + Position(base[1..], name)
  }

  // ----- the plan: which nodes end up selected

  predicate Increasing(sel: seq<nat>, n: nat) {
    && (forall a, b :: 0 <= a < b < |sel| ==> sel[a] < sel[b])
    && (forall a :: 0 <= a < |sel| ==> sel[a] < n)
  }

  /**
    One configured name at position q, after the nodes `sel` were selected: it is
    appended when it lies behind them, and skipped when absent or when it lies
    between the first and the last of them, where the links no longer lead. A
    name that is selected already, or that lies before the first selected one,
    makes the walk endless.
   */
  function Extend(sel: seq<nat>, q: nat, n: nat): Option<seq<nat>> {
    if q >= n then Some(sel)
    else if sel == [] || sel[|sel| - 1] < q then Some(sel + [q])
    else if sel[0] < q && q !in sel then Some(sel)
    else None
  }

  /** The selection after all names; None if some name makes the walk endless. */
  function Plan(base: seq<string>, names: seq<string>, sel: seq<nat>): Option<seq<nat>> {
    if names == [] then Some(sel) else
    match Extend(sel, Position(base, names[0]), |base|)
    case None => None
    case Some(sel') => Plan(base, names[1..], sel')
  }

  lemma {:induction false} ExtendIncreasing(sel: seq<nat>, q: nat, n: nat)
    requires Increasing(sel, n)
    ensures Extend(sel, q, n).Some? ==> Increasing(Extend(sel, q, n).value, n)
  {
  }

  lemma {:induction false} PlanIncreasing(base: seq<string>, names: seq<string>, sel: seq<nat>)
    requires Increasing(sel, |base|)
    ensures Plan(base, names, sel).Some? ==> Increasing(Plan(base, names, sel).value, |base|)
  {
    if names == [] {
    } else {
      var q := Position(base, names[0]);
      ExtendIncreasing(sel, q, |base|);
      if Extend(sel, q, |base|).Some? {
        PlanIncreasing(base, names[1..], Extend(sel, q, |base|).value);
      }
    }
  }

  /** The positions of the configured names that occur in the base list, in configured order. */
  function Present(base: seq<string>, names: seq<string>): seq<nat> {
    if names == [] then [] else
    var q := Position(base, names[0]);
    (if q < |base| then [q] else []) + Present(base, names[1..])
  }

  /** Every configured name that occurs is selected, in configured order, exactly when that is base order. */
  lemma {:induction false} AllSelectedIff(base: seq<string>, names: seq<string>)
    ensures Plan(base, names, []) == Some(Present(base, names)) <==> Increasing(Present(base, names), |base|)
  {
    PlanIncreasing(base, names, []);
    if Increasing(Present(base, names), |base|) {
      assert [] + Present(base, names) == Present(base, names);
      InOrderPlan(base, names, []);
    }
  }

  lemma {:induction false} InOrderPlan(base: seq<string>, names: seq<string>, sel: seq<nat>)
    requires Increasing(sel + Present(base, names), |base|)
    ensures Plan(base, names, sel) == Some(sel + Present(base, names))
  {
    var all := sel + Present(base, names);
    if names != [] {
      var q := Position(base, names[0]);
      if q < |base| {
        assert all[|sel|] == q;
        assert sel != [] ==> all[|sel| - 1] == sel[|sel| - 1];
        assert all == sel + [q] + Present(base, names[1..]);
        InOrderPlan(base, names[1..], sel + [q]);
      } else {
        assert Present(base, names) == Present(base, names[1..]);
        InOrderPlan(base, names[1..], sel);
      }
    } else {
      assert all == sel;
    }
  }

  // ----- links

  /** Where node i points once `sel` is selected. */
  function NextIndex(sel: seq<nat>, i: nat): nat {
    if |sel| < 2 then i + 1
    else if sel[0] == i then sel[1]
    else NextIndex(sel[1..], i)
  }

  lemma {:induction false} NextIndexAt(sel: seq<nat>, i: nat, n: nat)
    requires Increasing(sel, n)
    ensures forall a :: 0 <= a < |sel| - 1 && sel[a] == i ==> NextIndex(sel, i) == sel[a + 1]
    ensures (forall a :: 0 <= a < |sel| - 1 ==> sel[a] != i) ==> NextIndex(sel, i) == i + 1
    ensures NextIndex(sel, i) > i
  {
    if |sel| >= 2 && sel[0] != i {
      NextIndexAt(sel[1..], i, n);
      forall a | 0 <= a < |sel| - 1 && sel[a] == i ensures NextIndex(sel, i) == sel[a + 1] {
        assert sel[1..][a - 1] == i;
      }
      assert (forall a :: 0 <= a < |sel| - 1 ==> sel[a] != i) ==>
             (forall a :: 0 <= a < |sel[1..]| - 1 ==> sel[1..][a] == sel[a + 1] != i);
    }
  }

  lemma {:induction false} NextIndexExtended(sel: seq<nat>, q: nat, i: nat, n: nat)
    requires Increasing(sel + [q], n)
    ensures sel != [] && i == sel[|sel| - 1] ==> NextIndex(sel + [q], i) == q
    ensures sel == [] || i != sel[|sel| - 1] ==> NextIndex(sel + [q], i) == NextIndex(sel, i)
  {
    var s := sel + [q];
    assert forall a :: 0 <= a < |sel| ==> s[a] == sel[a];
    NextIndexAt(s, i, n);
    NextIndexAt(sel, i, n);
    if sel != [] && i == sel[|sel| - 1] {
      assert s[|sel| - 1] == i && s[|sel|] == q;
    } else if a :| 0 <= a < |sel| - 1 && sel[a] == i {
      assert s[a] == i && s[a + 1] == sel[a + 1];
    }
  }

  /** The nodes (and null) a walk from node 0 still visits. */
  predicate OnChain(sel: seq<nat>, i: nat) {
    sel == [] || i <= sel[0] || i in sel || i > sel[|sel| - 1]
  }

  lemma {:induction false} NextOnChain(sel: seq<nat>, i: nat, n: nat)
    requires Increasing(sel, n) && OnChain(sel, i) && i < n
    ensures OnChain(sel, NextIndex(sel, i)) && i < NextIndex(sel, i) <= n
    ensures forall q: nat | OnChain(sel, q) && i < q :: NextIndex(sel, i) <= q
  {
    NextIndexAt(sel, i, n);
    if sel != [] && i in sel {
      var a :| 0 <= a < |sel| && sel[a] == i;
      if a < |sel| - 1 {
        var next := sel[a + 1];
        assert NextIndex(sel, i) == next && next in sel && sel[a] < next < n;
        forall q: nat | OnChain(sel, q) && i < q ensures next <= q {
          if q in sel {
            var b :| 0 <= b < |sel| && sel[b] == q;
            assert a + 1 <= b;
          }
        }
      } else {
        assert forall b :: 0 <= b < |sel| - 1 ==> sel[b] < i;
        assert NextIndex(sel, i) == i + 1;
      }
    } else {
      assert forall b :: 0 <= b < |sel| - 1 ==> sel[b] != i;
      assert NextIndex(sel, i) == i + 1;
      assert sel != [] && i < sel[0] ==> i + 1 <= sel[0];
    }
  }

  // ----- the two nested loops, one test of `head` at a time

  datatype State = State(
    next: seq<nat>,     // next[i]: where base node i points
    first: nat,         // what the monitor list head points to
    tail: int,          // head_monitor: a node, or -1 for the list head
    j: nat,             // configured names done
    head: nat)          // the node under test

  predicate Done(names: seq<string>, s: State) {
    s.j >= |names|
  }

  ghost predicate WellFormed(base: seq<string>, s: State) {
    && |s.next| == |base| && -1 <= s.tail < |base| && s.head <= |base|
    && forall i :: 0 <= i < |base| ==> s.next[i] <= |base|
  }

  function Step(base: seq<string>, names: seq<string>, s: State): State
    requires WellFormed(base, s) && !Done(names, s)
    ensures WellFormed(base, Step(base, names, s))
  {
    if s.head == |base| then
      s.(j := s.j + 1, head := 0)
    else if base[s.head] == names[s.j] then
      var linked := if s.tail < 0 then s.(first := s.head) else s.(next := s.next[s.tail := s.head]);
      linked.(tail := s.head, head := linked.next[s.head])
    else
      s.(head := s.next[s.head])
  }

  function Run(base: seq<string>, names: seq<string>, s: State, k: nat): State
    requires WellFormed(base, s)
    decreases k
  {
    if k == 0 || Done(names, s) then s else Run(base, names, Step(base, names, s), k - 1)
  }

  /** The run from s comes to an end, in state e. */
  ghost predicate EndsIn(base: seq<string>, names: seq<string>, s: State, e: State)
    requires WellFormed(base, s)
  {
    Done(names, e) && exists k: nat :: Run(base, names, s, k) == e
  }

  lemma {:induction false} StepEnds(base: seq<string>, names: seq<string>, s: State, e: State)
    requires WellFormed(base, s) && !Done(names, s)
    ensures EndsIn(base, names, s, e) <==> EndsIn(base, names, Step(base, names, s), e)
  {
    var t := Step(base, names, s);
    if EndsIn(base, names, s, e) {
      var k: nat :| Run(base, names, s, k) == e;
      assert Run(base, names, t, k - 1) == e;
    }
    if EndsIn(base, names, t, e) {
      var k: nat :| Run(base, names, t, k) == e;
      assert Run(base, names, s, k + 1) == e;
    }
  }

  lemma {:induction false} FixedPointRuns(base: seq<string>, names: seq<string>, s: State, k: nat)
    requires WellFormed(base, s) && !Done(names, s) && Step(base, names, s) == s
    ensures Run(base, names, s, k) == s
  {
    if k == 0 {
    } else {
      FixedPointRuns(base, names, s, k - 1);
    }
  }

  ghost predicate Endless(base: seq<string>, names: seq<string>, s: State)
    requires WellFormed(base, s)
  {
    forall e :: !EndsIn(base, names, s, e)
  }

  lemma {:induction false} StepEndless(base: seq<string>, names: seq<string>, s: State)
    requires WellFormed(base, s) && !Done(names, s)
    requires Endless(base, names, Step(base, names, s))
    ensures Endless(base, names, s)
  {
    forall e ensures !EndsIn(base, names, s, e) {
      StepEnds(base, names, s, e);
    }
  }

  // ----- the invariant

  function Links(sel: seq<nat>, n: nat): seq<nat> {
    seq(n, i => if i >= 0 then NextIndex(sel, i) else 0)
  }

  function LastOf(sel: seq<nat>): int {
    if sel == [] then -1 else sel[|sel| - 1]
  }

  /** Every state of a run that has selected `sel`, j names done and `head` under test. */
  function Reached(base: seq<string>, sel: seq<nat>, j: nat, head: nat): State {
    State(Links(sel, |base|), if sel == [] then |base| else sel[0], LastOf(sel), j, head)
  }

  lemma {:induction false} ReachedWellFormed(base: seq<string>, sel: seq<nat>, j: nat, head: nat)
    requires Increasing(sel, |base|) && head <= |base|
    ensures WellFormed(base, Reached(base, sel, j, head))
  {
    forall i: nat | i < |base| ensures NextIndex(sel, i) <= |base| {
      NextIndexAt(sel, i, |base|);
      if a :| 0 <= a < |sel| - 1 && sel[a] == i {
        assert NextIndex(sel, i) == sel[a + 1];
      }
    }
  }

  /** A test that fails moves along the chain. */
  lemma {:induction false} MissStep(base: seq<string>, names: seq<string>, sel: seq<nat>, j: nat, head: nat)
    requires Increasing(sel, |base|) && j < |names| && head < |base|
    requires base[head] != names[j]
    ensures WellFormed(base, Reached(base, sel, j, head))
    ensures Step(base, names, Reached(base, sel, j, head)) == Reached(base, sel, j, NextIndex(sel, head))
  {
    ReachedWellFormed(base, sel, j, head);
  }

  /** A match behind the selected nodes appends it. */
  lemma {:induction false} AppendStep(base: seq<string>, names: seq<string>, sel: seq<nat>, j: nat, q: nat)
    requires Increasing(sel, |base|) && j < |names| && q < |base| && base[q] == names[j]
    requires LastOf(sel) < q
    ensures WellFormed(base, Reached(base, sel, j, q)) && Increasing(sel + [q], |base|)
    ensures Step(base, names, Reached(base, sel, j, q)) == Reached(base, sel + [q], j, q + 1)
  {
    var n, s := |base|, sel + [q];
    ReachedWellFormed(base, sel, j, q);
    forall i: nat | i < n
      ensures NextIndex(s, i) == if i == LastOf(sel) then q else NextIndex(sel, i)
    {
      NextIndexExtended(sel, q, i, n);
    }
    NextIndexAt(s, q, n);
    var l := if sel == [] then Links(sel, n) else Links(sel, n)[LastOf(sel) := q];
    assert Links(s, n) == l;
  }

  // ----- the endless case

  /**
    The walk meets a node q it can still reach although q is selected, or lies
    before the first selected node: linking the last selected node to q closes a
    cycle, and the second visit to q makes it point to itself.
   */
  lemma {:induction false} Trapped(base: seq<string>, names: seq<string>, s: State)
    requires WellFormed(base, s) && !Done(names, s) && s.head < |base|
    requires s.tail == s.head && base[s.head] == names[s.j]
    ensures Endless(base, names, s)
  {
    var t := Step(base, names, s);
    assert t.next[s.head] == s.head && t.head == s.head == t.tail;
    assert Step(base, names, t) == t;
    forall e ensures !EndsIn(base, names, t, e) {
      forall k: nat ensures Run(base, names, t, k) == t {
        FixedPointRuns(base, names, t, k);
      }
    }
    StepEndless(base, names, s);
  }

  lemma {:induction false} Cycle(base: seq<string>, names: seq<string>, sel: seq<nat>, j: nat, q: nat, h: nat)
    requires Distinct(base) && Increasing(sel, |base|) && sel != []
    requires j < |names| && q < |base| && base[q] == names[j]
    requires OnChain(sel, q) && OnChain(sel, h) && q <= h <= LastOf(sel)
    ensures var s := Reached(base, sel, j, h).(next := Links(sel, |base|)[LastOf(sel) := q], tail := q);
            WellFormed(base, s) && Endless(base, names, s)
    decreases if h == q then 0 else |base| - h
  {
    var s := Reached(base, sel, j, h).(next := Links(sel, |base|)[LastOf(sel) := q], tail := q);
    ReachedWellFormed(base, sel, j, h);
    if h == q {
      Trapped(base, names, s);
    } else if h == LastOf(sel) {
      Cycle(base, names, sel, j, q, q);
      StepEndless(base, names, s);
    } else {
      assert OnChain(sel, LastOf(sel));
      NextOnChain(sel, h, |base|);
      Cycle(base, names, sel, j, q, NextIndex(sel, h));
      StepEndless(base, names, s);
    }
  }

  lemma {:induction false} Hangs(base: seq<string>, names: seq<string>, sel: seq<nat>, j: nat, h: nat)
    requires Distinct(base) && Increasing(sel, |base|) && j < |names|
    requires var q := Position(base, names[j]);
             Extend(sel, q, |base|).None? && OnChain(sel, h) && h <= q
    ensures WellFormed(base, Reached(base, sel, j, h))
    ensures Endless(base, names, Reached(base, sel, j, h))
    decreases |base| - h
  {
    var n, q := |base|, Position(base, names[j]);
    var s := Reached(base, sel, j, h);
    ReachedWellFormed(base, sel, j, h);
    assert OnChain(sel, q) && OnChain(sel, LastOf(sel));
    NextOnChain(sel, h, n);
    if h < q {
      MissStep(base, names, sel, j, h);
      Hangs(base, names, sel, j, NextIndex(sel, h));
    } else if q == LastOf(sel) {
      Cycle(base, names, sel, j, q, q);
    } else {
      Cycle(base, names, sel, j, q, NextIndex(sel, h));
    }
    StepEndless(base, names, s);
  }

  // ----- the decision

  /** The run from s selects the planned nodes, or never ends without a plan. */
  ghost predicate Decided(base: seq<string>, names: seq<string>, s: State, plan: Option<seq<nat>>)
    requires WellFormed(base, s)
  {
    if plan.None? then Endless(base, names, s)
    else EndsIn(base, names, s, Reached(base, plan.value, |names|, 0))
  }

  /** The rest of a pass that does not meet node q of the name any more. */
  lemma {:induction false} RestOfPass(base: seq<string>, names: seq<string>, sel: seq<nat>, j: nat, h: nat,
                                      plan: Option<seq<nat>>)
    requires Increasing(sel, |base|) && j < |names| && h <= |base| && OnChain(sel, h)
    requires var q := Position(base, names[j]); Distinct(base) && (q == |base| || q < h || !OnChain(sel, q))
    requires WellFormed(base, Reached(base, sel, j + 1, 0))
    requires Decided(base, names, Reached(base, sel, j + 1, 0), plan)
    ensures WellFormed(base, Reached(base, sel, j, h)) && Decided(base, names, Reached(base, sel, j, h), plan)
    decreases |base| - h
  {
    if h == |base| {
      ReachedWellFormed(base, sel, j, h);
      Transfer(base, names, Reached(base, sel, j, h), plan);
    } else {
      NextOnChain(sel, h, |base|);
      RestOfPass(base, names, sel, j, NextIndex(sel, h), plan);
      DecidedByMiss(base, names, sel, j, h, plan);
    }
  }

  /** The first part of a pass, up to node q of the name, which is then appended. */
  lemma {:induction false} PassUpTo(base: seq<string>, names: seq<string>, sel: seq<nat>, j: nat, h: nat, q: nat,
                                    plan: Option<seq<nat>>)
    requires Increasing(sel, |base|) && j < |names| && q == Position(base, names[j]) < |base| && LastOf(sel) < q
    requires h <= q && OnChain(sel, h)
    requires WellFormed(base, Reached(base, sel + [q], j, q + 1))
    requires Decided(base, names, Reached(base, sel + [q], j, q + 1), plan)
    ensures WellFormed(base, Reached(base, sel, j, h)) && Decided(base, names, Reached(base, sel, j, h), plan)
    decreases q - h
  {
    if h == q {
      DecidedByAppend(base, names, sel, j, q, plan);
    } else {
      assert OnChain(sel, q);
      NextOnChain(sel, h, |base|);
      PassUpTo(base, names, sel, j, NextIndex(sel, h), q, plan);
      DecidedByMiss(base, names, sel, j, h, plan);
    }
  }

  lemma {:induction false} AppendKeeps(sel: seq<nat>, q: nat, n: nat)
    requires Increasing(sel, n) && LastOf(sel) < q < n
    ensures Increasing(sel + [q], n) && OnChain(sel + [q], q + 1)
  {
  }

  /** From the beginning of the pass for name j. */
  lemma {:induction false} Decides(base: seq<string>, names: seq<string>, sel: seq<nat>, j: nat)
    requires Distinct(base) && Increasing(sel, |base|) && j <= |names|
    ensures WellFormed(base, Reached(base, sel, j, 0))
    ensures Decided(base, names, Reached(base, sel, j, 0), Plan(base, names[j..], sel))
    decreases |names| - j
  {
    ReachedWellFormed(base, sel, j, 0);
    if j == |names| {
      assert Run(base, names, Reached(base, sel, j, 0), 0) == Reached(base, sel, j, 0);
    } else {
      var n, q := |base|, Position(base, names[j]);
      var plan := Plan(base, names[j..], sel);
      PlanStep(base, names, j, sel);
      if Extend(sel, q, n).None? {
        Hangs(base, names, sel, j, 0);
      } else if q == n || LastOf(sel) >= q {
        Decides(base, names, sel, j + 1);
        RestOfPass(base, names, sel, j, 0, plan);
      } else {
        AppendKeeps(sel, q, n);
        Decides(base, names, sel + [q], j + 1);
        RestOfPass(base, names, sel + [q], j, q + 1, plan);
        PassUpTo(base, names, sel, j, 0, q, plan);
      }
    }
  }

  lemma {:induction false} PlanStep(base: seq<string>, names: seq<string>, j: nat, sel: seq<nat>)
    requires j < |names|
    ensures var next := Extend(sel, Position(base, names[j]), |base|);
            Plan(base, names[j..], sel) == if next.None? then None else Plan(base, names[j + 1..], next.value)
  {
    assert names[j..][1..] == names[j + 1..];
  }

  lemma {:induction false} Transfer(base: seq<string>, names: seq<string>, s: State, plan: Option<seq<nat>>)
    requires WellFormed(base, s) && !Done(names, s)
    requires Decided(base, names, Step(base, names, s), plan)
    ensures Decided(base, names, s, plan)
  {
    if plan.None? {
      StepEndless(base, names, s);
    } else {
      StepEnds(base, names, s, Reached(base, plan.value, |names|, 0));
    }
  }

  lemma {:induction false} DecidedByAppend(base: seq<string>, names: seq<string>, sel: seq<nat>, j: nat, q: nat,
                                           plan: Option<seq<nat>>)
    requires Increasing(sel, |base|) && j < |names| && q < |base| && base[q] == names[j] && LastOf(sel) < q
    requires WellFormed(base, Reached(base, sel + [q], j, q + 1))
    requires Decided(base, names, Reached(base, sel + [q], j, q + 1), plan)
    ensures WellFormed(base, Reached(base, sel, j, q)) && Decided(base, names, Reached(base, sel, j, q), plan)
  {
    AppendStep(base, names, sel, j, q);
    Transfer(base, names, Reached(base, sel, j, q), plan);
  }

  lemma {:induction false} DecidedByMiss(base: seq<string>, names: seq<string>, sel: seq<nat>, j: nat, h: nat,
                                         plan: Option<seq<nat>>)
    requires Increasing(sel, |base|) && j < |names| && h < |base| && base[h] != names[j]
    requires WellFormed(base, Reached(base, sel, j, NextIndex(sel, h)))
    requires Decided(base, names, Reached(base, sel, j, NextIndex(sel, h)), plan)
    ensures WellFormed(base, Reached(base, sel, j, h)) && Decided(base, names, Reached(base, sel, j, h), plan)
  {
    MissStep(base, names, sel, j, h);
    Transfer(base, names, Reached(base, sel, j, h), plan);
  }

  /** The state in which the loops start: original links, empty monitor list. */
  function Start(base: seq<string>): State {
    State(seq(|base|, i requires 0 <= i => i + 1), |base|, -1, 0, 0)
  }

  /**
    `monitor_data` returns if and only if the plan exists, and it then has
    selected exactly the planned nodes.
   */
  lemma {:induction false} MonitorDataReturnsIff(base: seq<string>, names: seq<string>)
    requires Distinct(base)
    ensures WellFormed(base, Start(base))
    ensures (exists e :: EndsIn(base, names, Start(base), e)) <==> Plan(base, names, []).Some?
    ensures Plan(base, names, []).Some? ==>
              EndsIn(base, names, Start(base), Reached(base, Plan(base, names, []).value, |names|, 0))
  {
    assert Links([], |base|) == Start(base).next;
    assert Reached(base, [], 0, 0) == Start(base);
    assert names[0..] == names;
    Decides(base, names, [], 0);
  }

  /** Two names in the wrong order: the loops never end. */
  lemma {:induction false} WrongOrderExample()
    ensures WellFormed(["a", "b"], Start(["a", "b"]))
    ensures !exists e :: EndsIn(["a", "b"], ["b", "a"], Start(["a", "b"]), e)
  {
    var base, names := ["a", "b"], ["b", "a"];
    MonitorDataReturnsIff(base, names);
    assert base[1..] == ["b"] && names[1..] == ["a"];
    assert Position(["b"], "b") == 0 && Position(base, "b") == 1 && Position(base, "a") == 0;
    var none: seq<nat>, one: seq<nat> := [], [1];
    assert none + [1] == one && Extend(one, 0, 2).None?;
    assert Plan(base, names, none) == Plan(base, ["a"], one);
  }
}
