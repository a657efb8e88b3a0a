/**
  The parts together: a configuration that was read without error, the modules
  selected from it, the record a client prints for them and the field a server
  cuts out of that record.
 */
module EndToEnd {
  import opened Common
  import opened Strtok
  import opened ModList
  import opened ClientRecord
  import opened ClientAlignment
  import C = IndexConfig
  import W = MonitorWalk
  import L = MonitorList
  import S = ServerReply
  import N = NodeBuffer

  // ----- from the configuration files to the client

  /** The selected modules, as monitor_data lists them. */
  function Chosen(mods: seq<ModInfo>, sel: seq<nat>): seq<Item>
    requires W.Increasing(sel, |mods|)
  {
    Items(Pick(mods, sel))
  }

  /** No index name occurs in two modules. */
  ghost predicate OneModuleEach(items: seq<Item>) {
    forall a, b, i, j :: 0 <= a < b < |items| && 0 <= i < |items[a].indexes| && 0 <= j < |items[b].indexes| ==>
      items[a].indexes[i] != items[b].indexes[j]
  }

  /**
    A file read without error meets the demands of the later steps: base names
    are distinct, the modules selected are distinct, and no index name occurs in
    two of them.
   */
  lemma {:induction false} ConfigurationIsUsable(mods: seq<ModInfo>, wanted: seq<string>)
    requires C.Consistent(mods)
    ensures Distinct(Names(mods))
    ensures var plan := W.Plan(Names(mods), wanted, []);
            plan.Some? ==>
              && W.Increasing(plan.value, |mods|) && DistinctNames(Chosen(mods, plan.value))
              && OneModuleEach(Chosen(mods, plan.value))
  {
    forall i, j | 0 <= i < j < |mods| ensures mods[i].name != mods[j].name {
      assert C.Compatible(mods[j], mods[i]);
    }
    W.PlanIncreasing(Names(mods), wanted, []);
    var plan := W.Plan(Names(mods), wanted, []);
    if plan.Some? {
      var sel := plan.value;
      forall a, b, i, j | 0 <= a < b < |sel| && 0 <= i < |mods[sel[a]].indexes| && 0 <= j < |mods[sel[b]].indexes|
        ensures mods[sel[a]].indexes[i].name != mods[sel[b]].indexes[j].name
      {
        assert C.Compatible(mods[sel[b]], mods[sel[a]]);
      }
    }
  }

  /** The modules of a configuration file. */
  function Configured(lines: seq<string>): seq<ModInfo>
    requires C.Readable(lines)
  {
    C.Mods(C.ClassifyAll(lines, C.BLANKS), |lines|)
  }

  ghost predicate AcceptedFile(lines: seq<string>)
    requires C.Readable(lines)
  {
    C.Acceptable(C.ClassifyAll(lines, C.BLANKS), |lines|)
  }

  /**
    `main` up to its loop: read the file, select the monitored modules, load them.
    Called where the selection ends, which MonitorWalk.MonitorDataReturnsIff
    characterises. There is no client when the file was rejected.
   */
  method Start(lines: seq<string>, monitors: L.Monitors, probe: string -> Probe)
    returns (c: Client?, monitored: ModNode, ghost nodes: seq<ModNode>)
    requires C.Readable(lines) && monitors.Valid()
    requires AcceptedFile(lines) ==> W.Plan(Names(Configured(lines)), monitors.names, []).Some?
    ensures c != null <==> AcceptedFile(lines)
    ensures c != null ==>
              var plan := W.Plan(Names(Configured(lines)), monitors.names, []);
              && fresh(c) && Listed(monitored.next, nodes)
              && W.Increasing(plan.value, |Configured(lines)|)
              && Items(Infos(nodes)) == Chosen(Configured(lines), plan.value)
              && DistinctNames(Items(Infos(nodes))) && OneModuleEach(Items(Infos(nodes)))
              && Ready(c, Items(Infos(nodes)), probe)
  {
    var base := new ModNode(NO_MOD);
    monitored := new ModNode(NO_MOD);
    var verdict;
    ghost var all;
    verdict, all := C.AnalyseIndexInfoConfig(lines, base);
    nodes := [];
    if verdict != C.Fine {
      return null, monitored, nodes;
    }
    ghost var mods := Infos(all);
    ConfigurationIsUsable(mods, monitors.names);
    assert L.NamesOf(all) == Names(mods);
    L.MonitorData(base, monitors, monitored, all);
    ghost var sel := W.Plan(Names(mods), monitors.names, []).value;
    nodes := Pick(all, sel);
    assert Infos(nodes) == Pick(mods, sel);
    C.AcceptedNamesFit(lines, C.BLANKS, |lines|);
    forall i | 0 <= i < |nodes| ensures |nodes[i].info.name| < NAME_WIDTH {
      assert nodes[i].info == mods[sel[i]] && mods[sel[i]] in mods;
    }
    c := Setup(monitored, nodes, probe);
  }

  // ----- positions

  lemma {:induction false} OffsetGrows(items: seq<Item>, m: nat, n: nat)
    requires m <= n <= |items|
    ensures Offset(items, m) <= Offset(items, n)
    ensures m < n ==> Offset(items, m) + |items[m].indexes| <= Offset(items, n)
  {
    if m == n {
    } else {
      OffsetGrows(items, m, n - 1);
    }
  }

  /** Different configured indexes have different positions. */
  lemma {:induction false} PositionsAreDistinct(items: seq<Item>, m: nat, n: nat, i: nat, j: nat)
    requires m < |items| && n < |items| && i < |items[m].indexes| && j < |items[n].indexes|
    requires Offset(items, m) + i == Offset(items, n) + j
    ensures m == n && i == j
  {
    if m < n {
      OffsetGrows(items, m, n);
    } else if n < m {
      OffsetGrows(items, n, m);
    }
  }

  /** Every position up to the total belongs to a configured index. */
  lemma {:induction false} PositionIsAnIndex(items: seq<Item>, n: nat, pos: nat) returns (m: nat, i: nat)
    requires n <= |items| && pos < Offset(items, n)
    ensures m < n && i < |items[m].indexes| && pos == Offset(items, m) + i
  {
    if pos < Offset(items, n - 1) {
      m, i := PositionIsAnIndex(items, n - 1, pos);
    } else {
      m, i := n - 1, pos - Offset(items, n - 1);
    }
  }

  // ----- which fields can be cut out again

  predicate AllClean(fields: seq<string>) {
    forall f :: f in fields ==> Clean(f, [DELIM])
  }

  lemma {:induction false} DecimalIsClean(n: nat)
    ensures Clean(Decimal(n), [DELIM])
  {
    if n >= 10 {
      DecimalIsClean(n / 10);
    }
  }

  lemma {:induction false} ErrorTextIsClean(error: int)
    requires error < 0
    ensures Clean(ErrorText(error), [DELIM]) && |ErrorText(error)| <= 7
  {
    DecimalIsClean(-error);
  }

  lemma {:induction false} ScriptFieldIsClean(token: string, indexes: seq<string>, j: nat)
    requires Clean(token, [DELIM]) && Tokens(token, ":=") != []
    ensures Clean(ScriptField(token, indexes, j), [DELIM])
  {
    var kv := Tokens(token, ":=");
    ErrorTextIsClean(MODULE_FLAG_INDEX_NOT_EXIST);
    if |kv| > 1 {
      assert kv[1] in kv;
      TokensAreClean(token, ":=");
      TokensKeepChars(token, ":=", DELIM);
    }
  }

  lemma {:induction false} ScriptFieldsAreClean(tokens: seq<string>, indexes: seq<string>, j: nat)
    requires forall t :: t in tokens ==> Clean(t, [DELIM]) && Tokens(t, ":=") != []
    ensures AllClean(ScriptFields(tokens, indexes, j))
  {
    var fields := ScriptFields(tokens, indexes, j);
    forall i | 0 <= i < |fields| ensures Clean(fields[i], [DELIM]) {
      assert tokens[i] in tokens;
      ScriptFieldIsClean(tokens[i], indexes, j + i);
    }
  }

  /** Measurements of a native module that are empty or contain a comma are the only fields that cannot be cut out. */
  lemma {:induction false} FieldsAreCleanIff(w: World, item: Item)
    requires Sane(w, item)
    ensures AllClean(OwnFields(w, item)) <==>
            (w.probe(item.name) == Registered(MODULE_FLAG_NORMAL) ==>
               forall i :: 0 <= i < |item.indexes| ==>
                 Clean(NativeField(w.read(item.name), item.indexes[i]), [DELIM]))
  {
    var own := OwnFields(w, item);
    match w.probe(item.name)
    case Missing => ErrorTextIsClean(MODULE_FLAG_NOT_EXIST);
    case NoSymbol => ErrorTextIsClean(MODULE_FLAG_ILLEGAL);
    case Script =>
      var output := Trimmed(w.run(item.name));
      TokensAreClean(output, [DELIM]);
      ScriptFieldsAreClean(Tokens(output, [DELIM]), item.indexes, 0);
    case Registered(flag) =>
      if flag < 0 {
        ErrorTextIsClean(flag);
      } else {
        forall i: nat | i < |item.indexes|
          ensures i < |own| && own[i] == NativeField(w.read(item.name), item.indexes[i])
        {
          NativeCount(w.read(item.name), item.indexes, i);
        }
        NativeCount(w.read(item.name), item.indexes, 0);
      }
  }

  // ----- the wire

  /** The server cuts every field of a record by itself, whatever the fields are. */
  lemma {:induction false} SplitRecord(w: World, items: seq<Item>)
    requires AllSane(w, items)
    ensures Tokens(Record(w, items), [DELIM]) == Concat(Pieces(AllOwnFields(w, items), DELIM), |AllOwnFields(w, items)|)
  {
    StrippedTokens(Printed(AllOwnFields(w, items), DELIM));
    SplitPrinted(AllOwnFields(w, items), DELIM);
  }

  /** It recovers the client's fields exactly when none is empty or contains a comma. */
  lemma {:induction false} SplitRecordIff(w: World, items: seq<Item>)
    requires AllSane(w, items)
    ensures Tokens(Record(w, items), [DELIM]) == AllOwnFields(w, items) <==> AllClean(AllOwnFields(w, items))
  {
    var fields := AllOwnFields(w, items);
    StrippedTokens(Printed(fields, DELIM));
    SplitRecoversIff(fields, DELIM);
    assert AllClean(fields) <==> forall i :: 0 <= i < |fields| ==> Clean(fields[i], [DELIM]);
  }

  lemma {:induction false} FieldAtPosition(w: World, items: seq<Item>, m: nat, i: nat, k: nat)
    requires AllSane(w, items) && m < |items| && i < |OwnFields(w, items[m])|
    requires k == Offset(items, m) + ScriptExcess(w, items, m) + i
    ensures k < |AllOwnFields(w, items)| && AllOwnFields(w, items)[k] == OwnFields(w, items[m])[i]
  {
    OffsetIff(w, items, m);
    FieldsAt(w, items, m);
    PrefixIndex(Concat(Parts(w, items), m), OwnFields(w, items[m]), AllOwnFields(w, items), i);
  }

  /** What stands in a record for index i of a module that is a script or a library in order. */
  lemma {:induction false} FieldInRecord(w: World, items: seq<Item>, m: nat, i: nat, k: nat)
    requires AllSane(w, items) && m < |items| && i < |OwnFields(w, items[m])|
    requires k == Offset(items, m) + ScriptExcess(w, items, m) + i
    ensures k < |AllOwnFields(w, items)|
    ensures w.probe(items[m].name) == Script ==>
              Said(Trimmed(w.run(items[m].name)), items[m].indexes, i, AllOwnFields(w, items)[k])
    ensures w.probe(items[m].name) == Registered(0) ==>
              && i < |items[m].indexes|
              && Measured(w.read(items[m].name), items[m].indexes[i], AllOwnFields(w, items)[k])
  {
    FieldAtPosition(w, items, m, i, k);
    OwnFieldIs(w, items[m], i);
  }

  /**
    Where the server finds field i of module m: the scripts before it shift it by
    what they printed beyond their configuration, and the fields before it by
    what the split makes of them. It is found there as the client had it.
   */
  lemma {:induction false} FieldOnWire(w: World, items: seq<Item>, m: nat, i: nat, k: nat, node: string)
    requires AllSane(w, items) && m < |items| && i < |OwnFields(w, items[m])|
    requires Clean(OwnFields(w, items[m])[i], [DELIM]) && |OwnFields(w, items[m])[i]| < S.LEN_32
    requires k == Offset(items, m) + ScriptExcess(w, items, m) + i
    ensures k < |AllOwnFields(w, items)|
    ensures S.PartReply(node, S.Active, true, Record(w, items), [TokenOffset(AllOwnFields(w, items), DELIM, k)]) ==
            node + ",active," + OwnFields(w, items[m])[i] + ","
  {
    var fields := AllOwnFields(w, items);
    FieldAtPosition(w, items, m, i, k);
    StrippedTokens(Printed(fields, DELIM));
    FieldFound(fields, DELIM, k);
    OneCell(Record(w, items), Tokens(Record(w, items), [DELIM]), TokenOffset(fields, DELIM, k), node);
  }

  /**
    A field stands at the position configured for it exactly when what the
    scripts before it printed beyond their configuration and what the values
    before it are cut into beyond one token each cancel out.
   */
  lemma {:induction false} ConfiguredPositionIff(w: World, items: seq<Item>, m: nat, i: nat, k: nat)
    requires AllSane(w, items) && m < |items| && i < |OwnFields(w, items[m])|
    requires k == Offset(items, m) + ScriptExcess(w, items, m) + i
    ensures k < |AllOwnFields(w, items)|
    ensures TokenOffset(AllOwnFields(w, items), DELIM, k) == Offset(items, m) + i <==>
            ScriptExcess(w, items, m) + Surplus(AllOwnFields(w, items), DELIM, k) == 0
  {
    FieldAtPosition(w, items, m, i, k);
    OffsetIsSurplus(AllOwnFields(w, items), DELIM, k);
  }

  /** When no value before the field has a comma, only the empty ones among them count. */
  lemma {:induction false} CommaFreePositionIff(w: World, items: seq<Item>, m: nat, i: nat, k: nat)
    requires AllSane(w, items) && m < |items| && i < |OwnFields(w, items[m])|
    requires k == Offset(items, m) + ScriptExcess(w, items, m) + i
    requires k <= |AllOwnFields(w, items)| && forall f :: f in AllOwnFields(w, items)[..k] ==> Free(f, [DELIM])
    ensures TokenOffset(AllOwnFields(w, items), DELIM, k) == Offset(items, m) + i <==>
            ScriptExcess(w, items, m) == k - NonEmptyCount(AllOwnFields(w, items), k)
  {
    var fields := AllOwnFields(w, items);
    forall j | 0 <= j < k ensures Free(fields[j], [DELIM]) {
      assert fields[j] == fields[..k][j];
    }
    TokenOffsetIff(fields, DELIM, k);
  }

  /**
    Asking for one position of a record without empty values and commas: field i
    of module m stands at the position configured for it, shifted by the scripts.
   */
  lemma {:induction false} WireRoundTrip(w: World, items: seq<Item>, m: nat, i: nat, pos: nat, node: string)
    requires AllSane(w, items) && AllClean(AllOwnFields(w, items))
    requires m < |items| && i < |OwnFields(w, items[m])|
    requires |OwnFields(w, items[m])[i]| < S.LEN_32
    requires pos == Offset(items, m) + ScriptExcess(w, items, m) + i
    ensures S.PartReply(node, S.Active, true, Record(w, items), [pos]) ==
            node + ",active," + OwnFields(w, items[m])[i] + ","
  {
    SplitRecordIff(w, items);
    FieldAtPosition(w, items, m, i, pos);
    OneCell(Record(w, items), AllOwnFields(w, items), pos, node);
  }

  lemma {:induction false} OneCell(record: string, tokens: seq<string>, pos: nat, node: string)
    requires Tokens(record, [DELIM]) == tokens && pos < |tokens| && |tokens[pos]| < S.LEN_32
    ensures S.PartReply(node, S.Active, true, record, [pos]) == node + ",active," + tokens[pos] + ","
  {
    OnePosition(tokens, pos);
    assert S.PartReply(node, S.Active, true, record, [pos]) ==
           node + [DELIM] + "active" + [DELIM] + (tokens[pos] + [DELIM]);
  }

  lemma {:induction false} OnePosition(tokens: seq<string>, pos: nat)
    ensures Printed(S.CellTexts(tokens, [pos]), DELIM) == S.CellText(tokens, pos) + [DELIM]
  {
    assert S.CellTexts(tokens, [pos]) == [] + [S.CellText(tokens, pos)];
    PrintedOne([], S.CellText(tokens, pos), DELIM);
  }

  /** Without scripts every module has its configured number of fields, behind those of the modules before it. */
  lemma {:induction false} NoScriptsNoShift(w: World, items: seq<Item>, m: nat)
    requires AllSane(w, items) && m < |items|
    requires forall k :: 0 <= k < |items| ==> w.probe(items[k].name) != Script
    ensures ScriptExcess(w, items, m) == 0 && |OwnFields(w, items[m])| == |items[m].indexes|
  {
    FieldCount(w, items[m]);
    if m == 0 {
    } else {
      NoScriptsNoShift(w, items, m - 1);
    }
  }

  /** The client's record is its fields joined by commas. */
  lemma {:induction false} RecordIsJoined(w: World, items: seq<Item>)
    requires AllSane(w, items)
    ensures Record(w, items) == S.Joined(AllOwnFields(w, items))
  {
    S.PrintedEnds(AllOwnFields(w, items));
  }

  /** Asking for all positions of a client's record gives the reply to the request for everything and one comma. */
  lemma {:induction false} PartOfRecordIsAll(w: World, items: seq<Item>, node: string)
    requires AllSane(w, items)
    requires forall f :: f in AllOwnFields(w, items) ==> Clean(f, [DELIM]) && |f| < S.LEN_32
    ensures var n := |AllOwnFields(w, items)|;
            S.PartReply(node, S.Active, true, Record(w, items), S.AllPositions(n)) ==
            S.AllReply(node, S.Active, true, Record(w, items)) + if n == 0 then "" else ","
  {
    RecordIsJoined(w, items);
    S.PartOfAllIsAll(node, AllOwnFields(w, items));
  }

  // ----- three records that are read at the wrong positions

  /** A library that measures a and b. */
  function TwoValues(a: string, b: string): World {
    World(_ => Registered(MODULE_FLAG_NORMAL), _ => "", _ => [IndexCell("a", a), IndexCell("b", b)])
  }

  const TWO_INDEXES: seq<Item> := [Item("m", ["a", "b"])]

  lemma {:induction false} TwoFields(a: string, b: string)
    ensures AllSane(TwoValues(a, b), TWO_INDEXES) && AllOwnFields(TwoValues(a, b), TWO_INDEXES) == [a, b]
  {
    var w, info := TwoValues(a, b), [IndexCell("a", a), IndexCell("b", b)];
    assert info[1..] == [IndexCell("b", b)] && ["a", "b"][1..] == ["b"];
    assert "a"[0] != "b"[0] && NativeField(info[1..], "b") == b;
    assert NativeField(info, "a") == a && NativeField(info, "b") == b;
    assert NativeFields(info, ["b"]) == [b] + NativeFields(info, []);
    assert OwnFields(w, TWO_INDEXES[0]) == [a, b];
    assert Parts(w, TWO_INDEXES) == [] + [[a, b]];
    assert AllOwnFields(w, TWO_INDEXES) == [] + [a, b];
  }

  /** An empty value: asked for the first of two indexes, the server gives the second. */
  lemma {:induction false} EmptyValueExample(node: string)
    ensures var w := TwoValues("", "7");
            && AllSane(w, TWO_INDEXES)
            && S.PartReply(node, S.Active, true, Record(w, TWO_INDEXES), [0]) == node + ",active,7,"
  {
    TwoFields("", "7");
    OneOfTwo(TwoValues("", "7"), TWO_INDEXES, "", "7", ["7"], 0, node);
  }

  /** A value with a comma: asked for the second of two indexes, the server gives the end of the first. */
  lemma {:induction false} CommaValueExample(node: string)
    ensures var w := TwoValues("1,2", "7");
            && AllSane(w, TWO_INDEXES)
            && S.PartReply(node, S.Active, true, Record(w, TWO_INDEXES), [1]) == node + ",active,2,"
  {
    TwoFields("1,2", "7");
    CommaTokens();
    OneOfTwo(TwoValues("1,2", "7"), TWO_INDEXES, "1,2", "7", ["1", "2", "7"], 1, node);
  }

  lemma {:induction false} CommaTokens()
    ensures Tokens("1,2", [DELIM]) + ["7"] == ["1", "2", "7"]
  {
    OneToken("1", [DELIM]);
    OneToken("2", [DELIM]);
    assert "1,2" == "1" + [DELIM] + "2";
    TokensAcross("1", DELIM, "2", [DELIM]);
  }

  /** The reply for one position of a record of two fields. */
  lemma {:induction false} OneOfTwo(w: World, items: seq<Item>, first: string, second: string, tokens: seq<string>,
                                    pos: nat, node: string)
    requires AllSane(w, items) && AllOwnFields(w, items) == [first, second]
    requires Clean(second, [DELIM]) && tokens == Tokens(first, [DELIM]) + [second]
    requires pos < |tokens| && |tokens[pos]| < S.LEN_32
    ensures S.PartReply(node, S.Active, true, Record(w, items), [pos]) == node + ",active," + tokens[pos] + ","
  {
    TwoTokens(first, second);
    OneCell(Record(w, items), tokens, pos, node);
  }

  lemma {:induction false} TwoTokens(first: string, second: string)
    requires Clean(second, [DELIM])
    ensures Tokens(Stripped(Printed([first, second], DELIM)), [DELIM]) == Tokens(first, [DELIM]) + [second]
  {
    StrippedTokens(Printed([first, second], DELIM));
    assert [first, second] == [first] + [second];
    PrintedOne([first], second, DELIM);
    PrintedOne([], first, DELIM);
    assert Printed([first] + [second], DELIM) == first + [DELIM] + (second + [DELIM]);
    TokensAcross(first, DELIM, second + [DELIM], [DELIM]);
    TrailingDelimiter(second, DELIM, [DELIM]);
    OneToken(second, [DELIM]);
  }

  /** A script that is configured for a and b but prints only a, and a library that measures c. */
  const SHORT_SCRIPT: World :=
    World(name => if name == "s" then Script else Registered(MODULE_FLAG_NORMAL), _ => "a:1\n",
          _ => [IndexCell("c", "7")])
  const SCRIPT_THEN_LIBRARY: seq<Item> := [Item("s", ["a", "b"]), Item("m", ["c"])]

  /**
    A script that prints one item where two are configured: asked for the index of
    the module behind it, at position 2, the server gives nothing, and asked for
    the missing item it gives that index.
   */
  lemma {:induction false} ShortScriptExample(w: World, items: seq<Item>, node: string)
    requires w == SHORT_SCRIPT && items == SCRIPT_THEN_LIBRARY
    ensures AllSane(w, items) && ScriptExcess(w, items, 1) == -1 && Offset(items, 1) == 2
    ensures S.PartReply(node, S.Active, true, Record(w, items), [2]) == node + ",active,,"
    ensures S.PartReply(node, S.Active, true, Record(w, items), [1]) == node + ",active,7,"
  {
    ShortScriptOffset();
    ShortScriptFields();
    BehindTwo(w, items, "1", "7", node);
  }

  lemma {:induction false} BehindTwo(w: World, items: seq<Item>, first: string, second: string, node: string)
    requires AllSane(w, items) && AllOwnFields(w, items) == [first, second]
    requires Clean(first, [DELIM]) && Clean(second, [DELIM]) && |second| < S.LEN_32
    ensures S.PartReply(node, S.Active, true, Record(w, items), [2]) == node + ",active,,"
    ensures S.PartReply(node, S.Active, true, Record(w, items), [1]) == node + ",active," + second + ","
  {
    SplitRecordIff(w, items);
    OneCell(Record(w, items), [first, second], 1, node);
    NoCell(Record(w, items), [first, second], 2, node);
  }

  lemma {:induction false} NoCell(record: string, tokens: seq<string>, pos: nat, node: string)
    requires Tokens(record, [DELIM]) == tokens && pos >= |tokens|
    ensures S.PartReply(node, S.Active, true, record, [pos]) == node + ",active,,"
  {
    OnePosition(tokens, pos);
    assert S.PartReply(node, S.Active, true, record, [pos]) ==
           node + [DELIM] + "active" + [DELIM] + ("" + [DELIM]);
  }

  lemma {:induction false} ShortScriptTokens()
    ensures Trimmed("a:1\n") == "a:1" && Tokens("a:1", [DELIM]) == ["a:1"] && Tokens("a:1", ":=") == ["a", "1"]
  {
    assert "a:1\n"[..3] == "a:1";
    OneToken("a:1", [DELIM]);
    assert "a:1" == "a" + [':'] + "1";
    TokensAcross("a", ':', "1", ":=");
    OneToken("a", ":=");
    OneToken("1", ":=");
  }

  lemma {:induction false} ShortScriptParts()
    ensures Sane(SHORT_SCRIPT, SCRIPT_THEN_LIBRARY[0]) && OwnFields(SHORT_SCRIPT, SCRIPT_THEN_LIBRARY[0]) == ["1"]
    ensures Sane(SHORT_SCRIPT, SCRIPT_THEN_LIBRARY[1]) && OwnFields(SHORT_SCRIPT, SCRIPT_THEN_LIBRARY[1]) == ["7"]
  {
    ShortScriptTokens();
    assert ScriptField("a:1", ["a", "b"], 0) == "1" && ScriptFields([], ["a", "b"], 1) == [];
  }

  lemma {:induction false} ShortScriptOffset()
    ensures ScriptExcess(SHORT_SCRIPT, SCRIPT_THEN_LIBRARY, 1) == -1 && Offset(SCRIPT_THEN_LIBRARY, 1) == 2
  {
    var w, items := SHORT_SCRIPT, SCRIPT_THEN_LIBRARY;
    ShortScriptTokens();
    assert TokenCount("a:1", [DELIM]) == 1 && Excess(w, items[0]) == -1;
    assert ScriptExcess(w, items, 1) == ScriptExcess(w, items, 0) + Excess(w, items[0]);
    assert Offset(items, 1) == Offset(items, 0) + 2;
  }

  lemma {:induction false} ShortScriptFields()
    ensures AllSane(SHORT_SCRIPT, SCRIPT_THEN_LIBRARY)
    ensures AllOwnFields(SHORT_SCRIPT, SCRIPT_THEN_LIBRARY) == ["1", "7"]
  {
    var w, items := SHORT_SCRIPT, SCRIPT_THEN_LIBRARY;
    ShortScriptParts();
    assert FirstParts(w, items, 1) == [] + [["1"]];
    assert Parts(w, items) == [["1"]] + [["7"]];
    assert Concat(Parts(w, items), 1) == [] + ["1"];
    assert AllOwnFields(w, items) == ["1"] + ["7"];
  }

  // ----- the whole way

  /**
    One cycle of the client, its record stored by the server as the node's recent
    data, and a request for one position: the reply holds the field that the
    module at this position had in this cycle.
   */
  method Exchange(c: Client, head: ModNode, ghost nodes: seq<ModNode>, ghost items: seq<Item>, w: World,
                  node: N.NodeData, max: nat, ghost m: nat, ghost i: nat, ghost k: nat, pos: nat)
    returns (outcome: Outcome, reply: string)
    requires Listed(head.next, nodes) && items == Items(Infos(nodes)) && DistinctNames(items)
    requires Ready(c, items, w.probe) && NoScriptWithoutPath(w) && AllSane(w, items)
    requires S.NUL !in Record(w, items) && |Tokens(Record(w, items), [DELIM])| < max
    requires m < |items| && i < |OwnFields(w, items[m])|
    requires Clean(OwnFields(w, items[m])[i], [DELIM]) && |OwnFields(w, items[m])[i]| < S.LEN_32
    requires k == Offset(items, m) + ScriptExcess(w, items, m) + i && k < |AllOwnFields(w, items)|
    requires pos == TokenOffset(AllOwnFields(w, items), DELIM, k) < max
    requires node.Valid() && node.status == S.Active
    modifies c, node, node.head
    ensures outcome == OutcomeOf(w, items)
    ensures outcome.Sent? ==> Ready(c, items, w.probe) && node.Valid()
                              && reply == node.name + ",active," + OwnFields(w, items[m])[i] + ","
  {
    reply := "";
    outcome := Cycle(c, head, nodes, items, w);
    if outcome.Sent? {
      node.SetRecentData(outcome.record);
      reply := node.GetPart([pos], max);
      FieldOnWire(w, items, m, i, k, node.name);
    }
  }

  /**
    The whole way: the two configurations, the modules they load, cycle after
    cycle of the client. What is sent is what `expected` says of the worlds, for
    the modules that the configurations select.
   */
  method FileToRecords(lines: seq<string>, monitors: L.Monitors, probe: string -> Probe, worlds: seq<World>,
                       ghost items: seq<Item>, ghost expected: seq<Outcome>)
    returns (ok: bool, sent: seq<string>)
    requires C.Readable(lines) && monitors.Valid()
    requires AcceptedFile(lines) ==>
               var plan := W.Plan(Names(Configured(lines)), monitors.names, []);
               && plan.Some? && W.Increasing(plan.value, |Configured(lines)|)
               && items == Chosen(Configured(lines), plan.value)
    requires forall k :: 0 <= k < |worlds| ==> worlds[k].probe == probe && NoScriptWithoutPath(worlds[k])
    requires Expects(worlds, items, expected)
    ensures ok <==> AcceptedFile(lines)
    ensures ok ==> |sent| <= |worlds| && forall k :: 0 <= k < |sent| ==> expected[k] == Sent(sent[k])
    ensures ok ==> |sent| < |worlds| ==> !expected[|sent|].Sent?
  {
    var c, monitored;
    ghost var nodes;
    c, monitored, nodes := Start(lines, monitors, probe);
    if c == null {
      return false, [];
    }
    ok := true;
    sent := Cycles(c, monitored, nodes, items, probe, worlds, expected);
  }
}
