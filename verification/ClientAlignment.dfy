/**
  The client over whole collection cycles. Script modules share numbered slots:
  load_modules numbers their paths, collect_data_from_modules their buffers, and
  complete_app_data counts through the buffers while it walks the configuration.
  Each record is nevertheless what every module said for itself.
 */
module ClientAlignment {
  import opened Common
  import opened Strtok
  import opened ModList
  import opened ClientRecord

  /** What the machine answers: libraries and scripts found, what scripts print, what libraries measure. */
  datatype World = World(probe: string -> Probe, run: string -> string, read: string -> seq<IndexCell>)

  /** The modules on which the asserts of the encoder hold and no null pointer is followed. */
  predicate Sane(w: World, item: Item) {
    match w.probe(item.name)
    case Registered(flag) => flag == MODULE_FLAG_NORMAL || (flag < 0 && item.indexes != [])
    case Script => ScriptDefined(Trimmed(w.run(item.name)))
    case _ => item.indexes != []
  }

  /** Every script prints a key and a value. */
  ghost predicate AllPlausible(w: World, items: seq<Item>) {
    forall i :: 0 <= i < |items| && w.probe(items[i].name) == Script ==> Plausible(w.run(items[i].name))
  }

  /** No library claims to be a script. */
  ghost predicate NoImpostor(items: seq<Item>, probe: string -> Probe) {
    forall i :: 0 <= i < |items| ==> probe(items[i].name) != Registered(SCRIPT_FLAG_NORMAL)
  }

  /** The empty path runs no script, and the exit status that is printed then has no key. */
  predicate NoScriptWithoutPath(w: World) {
    !Plausible(w.run(""))
  }

  /** What one module says for itself, no slots involved. */
  function OwnFields(w: World, item: Item): seq<string>
    requires Sane(w, item)
  {
    match w.probe(item.name)
    case Missing => Repeat(ErrorText(MODULE_FLAG_NOT_EXIST), |item.indexes|)
    case NoSymbol => Repeat(ErrorText(MODULE_FLAG_ILLEGAL), |item.indexes|)
    case Script => ScriptFields(Tokens(Trimmed(w.run(item.name)), [DELIM]), item.indexes, 0)
    case Registered(flag) =>
      if flag == MODULE_FLAG_NORMAL then NativeFields(w.read(item.name), item.indexes)
      else Repeat(ErrorText(flag), |item.indexes|)
  }

  /**
    What field i of a module is, by the answer to loading it: a code for a missing
    module, for a library without the entry point, for the flag of a library that
    registered with an error; the measurement of that name; or the value of the
    item that a script printed for index i.
   */
  lemma {:induction false} OwnFieldIs(w: World, item: Item, i: nat)
    requires Sane(w, item) && i < |OwnFields(w, item)|
    ensures var field, answer := OwnFields(w, item)[i], w.probe(item.name);
            && (answer == Missing ==> field == "-1")
            && (answer == NoSymbol ==> field == "-2")
            && (answer.Registered? && answer.flag < 0 ==> field != "" && field[0] == '-')
            && (answer.Registered? && -1000000 < answer.flag < 0 ==> answer.flag + Value(field[1..]) == 0)
            && (answer == Registered(0) ==> i < |item.indexes| && Measured(w.read(item.name), item.indexes[i], field))
            && (answer == Script ==> Said(Trimmed(w.run(item.name)), item.indexes, i, field))
  {
    match w.probe(item.name)
    case Missing => assert Decimal(1) == "1";
    case NoSymbol => assert Decimal(2) == "2";
    case Registered(flag) =>
      if flag < 0 {
        ErrorTextReadsIff(flag);
      } else {
        NativeCount(w.read(item.name), item.indexes, 0);
        NativeCount(w.read(item.name), item.indexes, i);
        NativeFieldIs(w.read(item.name), item.indexes[i]);
      }
    case Script =>
      ScriptFieldsAre(Tokens(Trimmed(w.run(item.name)), [DELIM]), item.indexes, i);
  }

  /** The data of the first column of that name, or the code for a missing index. */
  ghost predicate Measured(info: seq<IndexCell>, name: string, field: string) {
    || (exists j :: 0 <= j < |info| && info[j].hdr == name && field == info[j].data
                    && forall k :: 0 <= k < j ==> info[k].hdr != name)
    || (field == "-3" && forall k :: 0 <= k < |info| ==> info[k].hdr != name)
  }

  /** Item i of the output, as a key and perhaps a value, for index i. */
  predicate Said(output: string, indexes: seq<string>, i: nat, field: string) {
    var tokens := Tokens(output, ",");
    && i < |tokens| && Tokens(tokens[i], ":=") != []
    && var kv := Tokens(tokens[i], ":=");
    field == if i >= |indexes| || kv[0] != indexes[i] then "-3" else if |kv| > 1 then kv[1] else "-1"
  }

  ghost predicate AllSane(w: World, items: seq<Item>) {
    forall i :: 0 <= i < |items| ==> Sane(w, items[i])
  }

  /** What every module says for itself. */
  function Parts(w: World, items: seq<Item>): (parts: seq<seq<string>>)
    requires AllSane(w, items)
    ensures |parts| == |items|
  {
    FirstParts(w, items, |items|)
  }

  function FirstParts(w: World, items: seq<Item>, k: nat): (parts: seq<seq<string>>)
    requires AllSane(w, items) && k <= |items|
    ensures |parts| == k
  {
    if k == 0 then [] else FirstParts(w, items, k - 1) + [OwnFields(w, items[k - 1])]
  }

  lemma {:induction false} PartAt(w: World, items: seq<Item>, k: nat, i: nat)
    requires AllSane(w, items) && i < k <= |items|
    ensures FirstParts(w, items, k)[i] == OwnFields(w, items[i])
  {
    if i == k - 1 {
    } else {
      PartAt(w, items, k - 1, i);
    }
  }

  function AllOwnFields(w: World, items: seq<Item>): seq<string>
    requires AllSane(w, items)
  {
    Concat(Parts(w, items), |items|)
  }

  predicate DistinctNames(items: seq<Item>) {
    forall i, j :: 0 <= i < j < |items| ==> items[i].name != items[j].name
  }

  /** The module array after loading: one module per configured item, in order. */
  ghost predicate Matches(mods: seq<Module>, items: seq<Item>, probe: string -> Probe) {
    && |mods| == |items|
    && forall i :: 0 <= i < |items| ==>
         mods[i].name == items[i].name && mods[i].flag == FlagOf(probe(items[i].name))
  }

  /** The client between two cycles. */
  ghost predicate Ready(c: Client, items: seq<Item>, probe: string -> Probe)
    reads c
  {
    && Matches(c.mods, items, probe) && c.scriptJ == 0
    && c.scriptPath == ScriptPaths(c.mods, probe, |c.mods|) && |c.buffers| == |c.mods|
  }

  lemma {:induction false} FindItem(mods: seq<Module>, items: seq<Item>, probe: string -> Probe, m: nat)
    requires Matches(mods, items, probe) && DistinctNames(items) && m < |items|
    ensures Find(mods, items[m].name) == m
  {
  }

  // ----- slots

  lemma {:induction false} SamePaths(a: seq<Module>, b: seq<Module>, probe: string -> Probe, k: nat)
    requires k <= |a| == |b| && forall i :: 0 <= i < |a| ==> a[i].name == b[i].name
    ensures ScriptPaths(a, probe, k) == ScriptPaths(b, probe, k)
  {
    if k == 0 {
    } else {
      SamePaths(a, b, probe, k - 1);
    }
  }

  lemma {:induction false} SameSlots(a: seq<Module>, b: seq<Module>, k: nat)
    requires k <= |a| == |b| && forall i :: 0 <= i < |a| ==> a[i].flag == b[i].flag
    ensures SlotCount(a, k) == SlotCount(b, k)
  {
    if k == 0 {
    } else {
      SameSlots(a, b, k - 1);
    }
  }

  lemma {:induction false} PathsGrow(mods: seq<Module>, probe: string -> Probe, k: nat, n: nat)
    requires k <= n <= |mods|
    ensures ScriptPaths(mods, probe, k) <= ScriptPaths(mods, probe, n)
  {
    if k == n {
    } else {
      PathsGrow(mods, probe, k, n - 1);
    }
  }

  /** A slot for every path, and one more for every library that claims to be a script. */
  lemma {:induction false} SlotsAndPaths(mods: seq<Module>, items: seq<Item>, probe: string -> Probe, k: nat)
    requires Matches(mods, items, probe) && k <= |mods|
    ensures SlotCount(mods, k) >= |ScriptPaths(mods, probe, k)|
    ensures SlotCount(mods, k) == |ScriptPaths(mods, probe, k)| <==> NoImpostor(items[..k], probe)
  {
    if k == 0 {
    } else {
      SlotsAndPaths(mods, items, probe, k - 1);
      OneItemMore(items, probe, k);
    }
  }

  lemma {:induction false} OneItemMore(items: seq<Item>, probe: string -> Probe, k: nat)
    requires 0 < k <= |items|
    ensures NoImpostor(items[..k], probe) <==>
            NoImpostor(items[..k - 1], probe) && probe(items[k - 1].name) != Registered(SCRIPT_FLAG_NORMAL)
  {
    var more, fewer := items[..k], items[..k - 1];
    assert more[k - 1] == items[k - 1];
    assert forall i :: 0 <= i < k - 1 ==> more[i] == fewer[i];
  }

  /** The slot reached at a script module holds that module's own script. */
  lemma {:induction false} OwnSlot(mods: seq<Module>, items: seq<Item>, probe: string -> Probe, m: nat)
    requires Matches(mods, items, probe) && NoImpostor(items, probe)
    requires m < |mods| && mods[m].flag == SCRIPT_FLAG_NORMAL
    ensures SlotCount(mods, m) < SlotCount(mods, |mods|)
    ensures PathAt(ScriptPaths(mods, probe, |mods|), SlotCount(mods, m)) == mods[m].name
  {
    SlotCountGrows(mods, m + 1, |mods|);
    SlotsAndPaths(mods, items, probe, m);
    PathsGrow(mods, probe, m + 1, |mods|);
    var paths := ScriptPaths(mods, probe, m + 1);
    assert paths[|ScriptPaths(mods, probe, m)|] == mods[m].name;
  }

  ghost predicate NamesScript(items: seq<Item>, probe: string -> Probe, name: string) {
    exists i :: 0 <= i < |items| && items[i].name == name && probe(name) == Script
  }

  lemma {:induction false} PathsAre(mods: seq<Module>, items: seq<Item>, probe: string -> Probe, k: nat)
    requires Matches(mods, items, probe) && k <= |mods|
    ensures forall j :: 0 <= j < |ScriptPaths(mods, probe, k)| ==>
              NamesScript(items, probe, ScriptPaths(mods, probe, k)[j])
  {
    if k == 0 {
    } else {
      PathsAre(mods, items, probe, k - 1);
      assert items[k - 1].name == mods[k - 1].name;
    }
  }

  /** All slots print exactly when all scripts do and no library claims to be one. */
  lemma {:induction false} AllScripts(mods: seq<Module>, items: seq<Item>, w: World)
    requires Matches(mods, items, w.probe) && NoScriptWithoutPath(w)
    ensures AllPrint(ScriptPaths(mods, w.probe, |mods|), SlotCount(mods, |mods|), w.run) <==>
            AllPlausible(w, items) && NoImpostor(items, w.probe)
  {
    var n, paths, slots := |mods|, ScriptPaths(mods, w.probe, |mods|), SlotCount(mods, |mods|);
    SlotsAndPaths(mods, items, w.probe, n);
    PathsAre(mods, items, w.probe, n);
    assert items[..n] == items;
    if slots > |paths| {
      SlotWithoutPath(paths, slots, w.run);
    } else {
      if AllPrint(paths, slots, w.run) {
        forall i | 0 <= i < n && w.probe(items[i].name) == Script ensures Plausible(w.run(items[i].name)) {
          OwnSlot(mods, items, w.probe, i);
        }
      }
      if AllPlausible(w, items) {
        forall j: nat | j < slots ensures Plausible(w.run(PathAt(paths, j))) {
          assert NamesScript(items, w.probe, paths[j]);
        }
      }
    }
  }

  lemma {:induction false} SlotWithoutPath(paths: seq<string>, slots: nat, run: string -> string)
    requires slots > |paths| && !Plausible(run(""))
    ensures !AllPrint(paths, slots, run)
  {
    assert PathAt(paths, |paths|) == "";
  }

  // ----- alignment

  /** After loading and collecting: flags, measurements and script buffers are those of the world. */
  ghost predicate Collects(mods: seq<Module>, buffers: seq<string>, items: seq<Item>, w: World) {
    && Matches(mods, items, w.probe) && |buffers| == |mods|
    && (forall i :: 0 <= i < |mods| && mods[i].flag == MODULE_FLAG_NORMAL ==> mods[i].info == w.read(items[i].name))
    && (forall j: nat :: j < SlotCount(mods, |mods|) && j < |buffers| ==>
          buffers[j] == Trimmed(w.run(PathAt(ScriptPaths(mods, w.probe, |mods|), j))))
  }

  lemma {:induction false} OneDefined(mods: seq<Module>, buffers: seq<string>, items: seq<Item>, w: World, m: nat)
    requires Collects(mods, buffers, items, w) && DistinctNames(items) && NoImpostor(items, w.probe) && m < |items|
    ensures ItemDefined(mods, buffers, SlotCount(mods, m), items[m]) <==> Sane(w, items[m])
    ensures NextSlot(mods, SlotCount(mods, m), items[m]) == SlotCount(mods, m + 1)
  {
    FindItem(mods, items, w.probe, m);
    if mods[m].flag == SCRIPT_FLAG_NORMAL {
      OwnSlot(mods, items, w.probe, m);
    }
  }

  lemma {:induction false} OneAligned(mods: seq<Module>, buffers: seq<string>, items: seq<Item>, w: World, m: nat)
    requires Collects(mods, buffers, items, w) && DistinctNames(items) && NoImpostor(items, w.probe) && m < |items|
    ensures var j := SlotCount(mods, m);
            && (ItemDefined(mods, buffers, j, items[m]) <==> Sane(w, items[m]))
            && (Sane(w, items[m]) ==> ItemFields(mods, buffers, j, items[m]) == OwnFields(w, items[m]))
            && NextSlot(mods, j, items[m]) == SlotCount(mods, m + 1)
  {
    FindItem(mods, items, w.probe, m);
    if mods[m].flag == SCRIPT_FLAG_NORMAL {
      OwnSlot(mods, items, w.probe, m);
    }
  }

  ghost predicate SaneFrom(w: World, items: seq<Item>, m: nat) {
    forall i :: m <= i < |items| ==> Sane(w, items[i])
  }

  /**
    From item m on, with the slot counter where the first m items left it, the
    encoder stops exactly at an item that is not sane.
   */
  lemma {:induction false} AlignedDefined(mods: seq<Module>, buffers: seq<string>, items: seq<Item>, w: World, m: nat)
    requires Collects(mods, buffers, items, w) && DistinctNames(items) && NoImpostor(items, w.probe) && m <= |items|
    ensures RecordDefined(mods, buffers, SlotCount(mods, m), items[m..]) <==> SaneFrom(w, items, m)
    decreases |items| - m
  {
    if m == |items| {
    } else {
      AlignedStep(mods, buffers, items, w, m);
      AlignedDefined(mods, buffers, items, w, m + 1);
      SaneStep(w, items, m);
    }
  }

  lemma {:induction false} AlignedStep(mods: seq<Module>, buffers: seq<string>, items: seq<Item>, w: World, m: nat)
    requires Collects(mods, buffers, items, w) && DistinctNames(items) && NoImpostor(items, w.probe) && m < |items|
    ensures RecordDefined(mods, buffers, SlotCount(mods, m), items[m..]) <==>
            Sane(w, items[m]) && RecordDefined(mods, buffers, SlotCount(mods, m + 1), items[m + 1..])
  {
    OneDefined(mods, buffers, items, w, m);
    DefinedStep(mods, buffers, SlotCount(mods, m), items, m);
  }

  lemma {:induction false} DefinedStep(mods: seq<Module>, buffers: seq<string>, j: nat, items: seq<Item>, m: nat)
    requires m < |items|
    ensures RecordDefined(mods, buffers, j, items[m..]) <==>
            ItemDefined(mods, buffers, j, items[m])
            && RecordDefined(mods, buffers, NextSlot(mods, j, items[m]), items[m + 1..])
  {
    assert items[m..][0] == items[m] && items[m..][1..] == items[m + 1..];
  }

  lemma {:induction false} SaneStep(w: World, items: seq<Item>, m: nat)
    requires m < |items|
    ensures SaneFrom(w, items, m) <==> Sane(w, items[m]) && SaneFrom(w, items, m + 1)
  {
  }

  /** Every module is encoded from its own answers. */
  lemma {:induction false} Aligned(mods: seq<Module>, buffers: seq<string>, items: seq<Item>, w: World, m: nat)
    requires Collects(mods, buffers, items, w) && DistinctNames(items) && NoImpostor(items, w.probe) && m <= |items|
    requires AllSane(w, items)
    ensures RecordDefined(mods, buffers, SlotCount(mods, m), items[m..])
    ensures Concat(Parts(w, items), m) + RecordFields(mods, buffers, SlotCount(mods, m), items[m..]) ==
            AllOwnFields(w, items)
    decreases |items| - m
  {
    AlignedDefined(mods, buffers, items, w, m);
    if m == |items| {
    } else {
      OneAligned(mods, buffers, items, w, m);
      Aligned(mods, buffers, items, w, m + 1);
      PartAt(w, items, |items|, m);
      var rest := items[m..];
      assert rest[0] == items[m] && rest[1..] == items[m + 1..];
      UnfoldRecord(mods, buffers, SlotCount(mods, m), rest, Concat(Parts(w, items), m));
    }
  }

  // ----- cycles

  /** `main`, before its loop. */
  method Setup(head: ModNode, ghost nodes: seq<ModNode>, probe: string -> Probe) returns (c: Client)
    requires Listed(head.next, nodes) && forall i :: 0 <= i < |nodes| ==> |nodes[i].info.name| < NAME_WIDTH
    ensures fresh(c) && Ready(c, Items(Infos(nodes)), probe)
  {
    c := new Client();
    c.InitModuleArray(head, nodes);
    c.LoadModules(probe);
  }

  /** A cycle ends the client's loop, stops the program at an assert or a null pointer, or sends a record. */
  datatype Outcome = Failed | Stopped | Sent(record: string)

  function Record(w: World, items: seq<Item>): string
    requires AllSane(w, items)
  {
    Stripped(Printed(AllOwnFields(w, items), DELIM))
  }

  /** What a cycle comes to. */
  ghost function OutcomeOf(w: World, items: seq<Item>): Outcome {
    if !AllPlausible(w, items) || !NoImpostor(items, w.probe) then Failed
    else if !AllSane(w, items) then Stopped
    else Sent(Record(w, items))
  }

  /** A library that registers with 1 makes every cycle fail; one that registers with 2 stops the program. */
  lemma {:induction false} PositiveFlags(w: World, items: seq<Item>, i: nat)
    requires i < |items|
    ensures w.probe(items[i].name) == Registered(1) ==> OutcomeOf(w, items) == Failed
    ensures w.probe(items[i].name) == Registered(2) ==> !OutcomeOf(w, items).Sent?
  {
  }

  lemma {:induction false} WholeRecord(mods: seq<Module>, buffers: seq<string>, items: seq<Item>, w: World)
    requires Collects(mods, buffers, items, w) && DistinctNames(items) && NoImpostor(items, w.probe)
    ensures RecordDefined(mods, buffers, 0, items) <==> AllSane(w, items)
    ensures AllSane(w, items) ==> RecordFields(mods, buffers, 0, items) == AllOwnFields(w, items)
  {
    AlignedDefined(mods, buffers, items, w, 0);
    assert items[0..] == items && SlotCount(mods, 0) == 0;
    if AllSane(w, items) {
      Aligned(mods, buffers, items, w, 0);
      assert Concat(Parts(w, items), 0) == [];
    }
  }

  /**
    One turn of `main`'s loop: collect, print, reset the slot counter. Scripts and
    measurements may answer differently in every cycle.
   */
  method Cycle(c: Client, head: ModNode, ghost nodes: seq<ModNode>, ghost items: seq<Item>, w: World)
    returns (outcome: Outcome)
    requires Listed(head.next, nodes) && items == Items(Infos(nodes))
    requires Ready(c, items, w.probe) && DistinctNames(items) && NoScriptWithoutPath(w)
    modifies c
    ensures outcome == OutcomeOf(w, items)
    ensures outcome.Sent? ==> Ready(c, items, w.probe)
  {
    ghost var before := c.mods;
    AllScripts(before, items, w);
    var ret := c.CollectData(w.run, w.read);
    if ret != 0 {
      return Failed;
    }
    SamePaths(before, c.mods, w.probe, |c.mods|);
    SameSlots(before, c.mods, |c.mods|);
    WholeRecord(c.mods, c.buffers, items, w);
    var record := c.CompleteAppData(head, nodes);
    if record.None? {
      return Stopped;
    }
    c.scriptJ := 0;
    return Sent(record.value);
  }

  /** What the cycles come to, one by one. */
  ghost predicate Expects(worlds: seq<World>, items: seq<Item>, expected: seq<Outcome>) {
    && |expected| == |worlds|
    && forall k {:trigger OutcomeOf(worlds[k], items)} :: 0 <= k < |worlds| ==>
         expected[k] == OutcomeOf(worlds[k], items)
  }

  method ExpectedCycle(c: Client, head: ModNode, ghost nodes: seq<ModNode>, ghost items: seq<Item>,
                       worlds: seq<World>, k: nat, ghost expected: seq<Outcome>)
    returns (outcome: Outcome)
    requires Listed(head.next, nodes) && items == Items(Infos(nodes)) && DistinctNames(items)
    requires k < |worlds| && Ready(c, items, worlds[k].probe) && NoScriptWithoutPath(worlds[k])
    requires Expects(worlds, items, expected)
    modifies c
    ensures outcome == expected[k]
    ensures outcome.Sent? ==> Ready(c, items, worlds[k].probe)
  {
    outcome := Cycle(c, head, nodes, items, worlds[k]);
  }

  /** The loop of `main`: every cycle sends its own record until one fails or stops. */
  method Cycles(c: Client, head: ModNode, ghost nodes: seq<ModNode>, ghost items: seq<Item>,
                ghost probe: string -> Probe, worlds: seq<World>, ghost expected: seq<Outcome>)
    returns (sent: seq<string>)
    requires Listed(head.next, nodes) && items == Items(Infos(nodes)) && DistinctNames(items)
    requires Ready(c, items, probe) && Expects(worlds, items, expected)
    requires forall k :: 0 <= k < |worlds| ==> worlds[k].probe == probe && NoScriptWithoutPath(worlds[k])
    modifies c
    ensures |sent| <= |worlds| && forall k :: 0 <= k < |sent| ==> expected[k] == Sent(sent[k])
    ensures |sent| < |worlds| ==> !expected[|sent|].Sent?
  {
    sent := [];
    while |sent| < |worlds|
      invariant |sent| <= |worlds|
      invariant Ready(c, items, probe)
      invariant forall k :: 0 <= k < |sent| ==> expected[k] == Sent(sent[k])
    {
      var outcome := ExpectedCycle(c, head, nodes, items, worlds, |sent|, expected);
      if !outcome.Sent? {
        return;
      }
      sent := sent + [outcome.record];
    }
  }

  // ----- how many fields a module contributes

  lemma {:induction false} NativeCount(info: seq<IndexCell>, indexes: seq<string>, i: nat)
    ensures |NativeFields(info, indexes)| == |indexes|
    ensures i < |indexes| ==> NativeFields(info, indexes)[i] == NativeField(info, indexes[i])
  {
    if indexes == [] {
    } else {
      NativeCount(info, indexes[1..], if i == 0 then 0 else i - 1);
    }
  }

  /** What a script printed beyond its configuration. */
  function Excess(w: World, item: Item): int {
    if w.probe(item.name) == Script
    then TokenCount(Trimmed(w.run(item.name)), [DELIM]) - |item.indexes| else 0
  }

  lemma {:induction false} PartLength(w: World, items: seq<Item>, i: nat)
    requires AllSane(w, items) && i < |items|
    ensures |Parts(w, items)[i]| == |items[i].indexes| + Excess(w, items[i])
  {
    PartAt(w, items, |items|, i);
    FieldCount(w, items[i]);
  }

  /** Every branch but the script branch contributes one field per index. */
  lemma {:induction false} FieldCount(w: World, item: Item)
    requires Sane(w, item)
    ensures |OwnFields(w, item)| == |item.indexes| + Excess(w, item)
    ensures w.probe(item.name) != Script ==> Excess(w, item) == 0
  {
    if w.probe(item.name) == Registered(MODULE_FLAG_NORMAL) {
      NativeCount(w.read(item.name), item.indexes, 0);
    }
  }

  /** The position configured for the first index of item m. */
  function Offset(items: seq<Item>, m: nat): nat
    requires m <= |items|
  {
    if m == 0 then 0 else Offset(items, m - 1) + |items[m - 1].indexes|
  }

  /** Scripts among the first m items: fields printed minus fields configured. */
  function ScriptExcess(w: World, items: seq<Item>, m: nat): int
    requires m <= |items|
  {
    if m == 0 then 0
    else ScriptExcess(w, items, m - 1) + Excess(w, items[m - 1])
  }

  /** Item m starts where it is configured exactly when the scripts before it printed as much as configured. */
  lemma {:induction false} OffsetIff(w: World, items: seq<Item>, m: nat)
    requires AllSane(w, items) && m <= |items|
    ensures |Concat(Parts(w, items), m)| == Offset(items, m) + ScriptExcess(w, items, m)
    ensures |Concat(Parts(w, items), m)| == Offset(items, m) <==> ScriptExcess(w, items, m) == 0
  {
    forall i: nat | i < |items| ensures |Parts(w, items)[i]| == |items[i].indexes| + Excess(w, items[i]) {
      PartLength(w, items, i);
    }
    LengthOfParts(w, items, Parts(w, items), m);
  }

  lemma {:induction false} LengthOfParts(w: World, items: seq<Item>, parts: seq<seq<string>>, m: nat)
    requires |parts| == |items| && m <= |items|
    requires forall i :: 0 <= i < |items| ==> |parts[i]| == |items[i].indexes| + Excess(w, items[i])
    ensures |Concat(parts, m)| == Offset(items, m) + ScriptExcess(w, items, m)
  {
    if m == 0 {
    } else {
      LengthOfParts(w, items, parts, m - 1);
    }
  }

  /** The fields of module m stand behind those of the modules before it. */
  lemma {:induction false} FieldsAt(w: World, items: seq<Item>, m: nat)
    requires AllSane(w, items) && m < |items|
    ensures Concat(Parts(w, items), m) + OwnFields(w, items[m]) <= AllOwnFields(w, items)
  {
    PartAt(w, items, |items|, m);
    ConcatGrow(Parts(w, items), m + 1, |items|);
  }

  /** The record has one field per configured index exactly when the scripts printed that many items in total. */
  lemma {:induction false} RecordLengthIff(w: World, items: seq<Item>)
    requires AllSane(w, items)
    ensures |AllOwnFields(w, items)| == Offset(items, |items|) <==> ScriptExcess(w, items, |items|) == 0
  {
    OffsetIff(w, items, |items|);
  }
}
