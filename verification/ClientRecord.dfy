/**
  The client: loading the configured modules, collecting their data, and
  printing one comma-separated record that the server reads by position.
 */
module ClientRecord {
  import opened Common
  import opened Strtok
  import opened ModList

  const MODULE_FLAG_NORMAL: int := 0
  const MODULE_FLAG_NOT_EXIST: int := -1
  const MODULE_FLAG_ILLEGAL: int := -2
  const MODULE_FLAG_INDEX_NOT_EXIST: int := -3
  const SCRIPT_FLAG_NORMAL: int := 1
  const DELIM: char := ','
  const NUL: char := '\0'

  datatype IndexCell = IndexCell(hdr: string, data: string)
  datatype Module = Module(name: string, flag: int, info: seq<IndexCell>)

  /** A configured module: its name and the names of its indexes. */
  datatype Item = Item(name: string, indexes: seq<string>)

  function ItemOf(info: ModInfo): (item: Item)
    ensures item.name == info.name && |item.indexes| == |info.indexes|
    ensures forall i :: 0 <= i < |info.indexes| ==> item.indexes[i] == info.indexes[i].name
  {
    Item(info.name, seq(|info.indexes|, i requires 0 <= i < |info.indexes| => info.indexes[i].name))
  }

  function Items(mods: seq<ModInfo>): (items: seq<Item>)
    ensures |items| == |mods| && forall i :: 0 <= i < |mods| ==> items[i] == ItemOf(mods[i])
  {
    seq(|mods|, i requires 0 <= i < |mods| => ItemOf(mods[i]))
  }

  // ----- the text of one field

  function Decimal(n: nat): string {
    (if n < 10 then "" else Decimal(n / 10)) + ["0123456789"[n % 10]]
  }

  /** snprintf(temp, 8, "%d", error) for a negative error */
  function ErrorText(error: int): string
    requires error < 0
  {
    var s := "-" + Decimal(-error);
    if |s| > 7 then s[..7] else s
  }

  function Digit(c: char): (d: nat)
    ensures d <= 9
  {
    if '0' <= c <= '9' then c as int - '0' as int else 0
  }

  /** The number a decimal text denotes. */
  function Value(s: string): nat {
    if s == "" then 0 else 10 * Value(s[..|s| - 1]) + Digit(s[|s| - 1])
  }

  function Pow10(k: nat): (p: nat)
    ensures p > 0
  {
    if k == 0 then 1 else 10 * Pow10(k - 1)
  }

  lemma {:induction false} ValueOfDecimal(n: nat)
    ensures Value(Decimal(n)) == n
  {
    var s := Decimal(n);
    assert Digit(s[|s| - 1]) == n % 10;
    if n >= 10 {
      ValueOfDecimal(n / 10);
      assert s[..|s| - 1] == Decimal(n / 10);
    } else {
      assert s[..|s| - 1] == "";
    }
  }

  lemma {:induction false} DecimalLength(n: nat, k: nat)
    requires k > 0
    ensures |Decimal(n)| > 0
    ensures |Decimal(n)| <= k <==> n < Pow10(k)
  {
    if n >= 10 {
      DecimalLength(n / 10, if k > 1 then k - 1 else 1);
      assert Pow10(1) == 10 * Pow10(0) == 10;
    } else {
      assert Pow10(k) == 10 * Pow10(k - 1);
    }
  }

  lemma {:induction false} ValueBound(s: string)
    ensures Value(s) < Pow10(|s|)
  {
    if s == "" {
    } else {
      ValueBound(s[..|s| - 1]);
    }
  }

  /** The error code can be read from its text exactly when it has at most six digits. */
  lemma {:induction false} ErrorTextReadsIff(error: int)
    requires error < 0
    ensures ErrorText(error)[0] == '-'
    ensures error + Value(ErrorText(error)[1..]) == 0 <==> error > -1000000
  {
    DecimalLength(-error, 6);
    assert Pow10(6) == 1000000 by {
      assert Pow10(3) == 1000;
    }
    ValueOfDecimal(-error);
    ValueBound(ErrorText(error)[1..]);
    var s := "-" + Decimal(-error);
    assert s[1..] == Decimal(-error);
  }

  /** The data of the first column with that name. */
  function NativeField(info: seq<IndexCell>, name: string): string {
    if info == [] then ErrorText(MODULE_FLAG_INDEX_NOT_EXIST)
    else if info[0].hdr == name then info[0].data
    else NativeField(info[1..], name)
  }

  /** Either some column is the first of that name, or no column has the name. */
  lemma {:induction false} NativeFieldIs(info: seq<IndexCell>, name: string)
    ensures (exists j :: 0 <= j < |info| && info[j].hdr == name && NativeField(info, name) == info[j].data
                         && forall k :: 0 <= k < j ==> info[k].hdr != name)
            || (NativeField(info, name) == "-3" && forall k :: 0 <= k < |info| ==> info[k].hdr != name)
  {
    if info == [] {
      assert Decimal(3) == "3";
    } else if info[0].hdr != name {
      NativeFieldIs(info[1..], name);
      if j :| 0 <= j < |info[1..]| && info[1..][j].hdr == name && NativeField(info[1..], name) == info[1..][j].data
              && forall k :: 0 <= k < j ==> info[1..][k].hdr != name {
        assert info[j + 1] == info[1..][j];
        forall k | 0 <= k < j + 1 ensures info[k].hdr != name {
          assert k > 0 ==> info[k] == info[1..][k - 1];
        }
      } else {
        forall k | 0 <= k < |info| ensures info[k].hdr != name {
          assert k > 0 ==> info[k] == info[1..][k - 1];
        }
      }
    }
  }

  function NativeFields(info: seq<IndexCell>, indexes: seq<string>): seq<string> {
    if indexes == [] then [] else [NativeField(info, indexes[0])] + NativeFields(info, indexes[1..])
  }

  function IndexName(indexes: seq<string>, j: nat): string {
    if j < |indexes| then indexes[j] else ""
  }

  /** The j-th item a script printed, against the j-th configured index. */
  function ScriptField(token: string, indexes: seq<string>, j: nat): string
    requires Tokens(token, ":=") != []
  {
    var kv := Tokens(token, ":=");
    if kv[0] != IndexName(indexes, j) then ErrorText(MODULE_FLAG_INDEX_NOT_EXIST)
    else if |kv| > 1 then kv[1] else "-1"
  }

  /** The fields for the items from the j-th on. */
  function ScriptFields(tokens: seq<string>, indexes: seq<string>, j: nat): (fields: seq<string>)
    requires forall t :: t in tokens ==> Tokens(t, ":=") != []
    ensures |fields| == |tokens|
  {
    seq(|tokens|, i requires 0 <= i < |tokens| => assert tokens[i] in tokens; ScriptField(tokens[i], indexes, j + i))
  }

  /**
    Item j is compared with the name of index j, which is empty behind the
    configured ones: its value, -1 without one, or the code for a missing index.
   */
  lemma {:induction false} ScriptFieldsAre(tokens: seq<string>, indexes: seq<string>, j: nat)
    requires j < |tokens| && forall t :: t in tokens ==> Tokens(t, ":=") != []
    ensures var kv := Tokens(tokens[j], ":=");
            ScriptFields(tokens, indexes, 0)[j] ==
            if j >= |indexes| || kv[0] != indexes[j] then "-3" else if |kv| > 1 then kv[1] else "-1"
  {
    var kv := Tokens(tokens[j], ":=");
    assert tokens[j] in tokens;
    TokensAreClean(tokens[j], ":=");
    assert kv[0] in kv;
    assert Decimal(3) == "3";
  }

  /** The outputs on which deal_script_data does not follow a null pointer. */
  predicate ScriptDefined(output: string) {
    var tokens := Tokens(output, [DELIM]);
    tokens != [] && forall t :: t in tokens ==> Tokens(t, ":=") != []
  }

  function Repeat(s: string, n: nat): (r: seq<string>)
    ensures |r| == n && forall i :: 0 <= i < n ==> r[i] == s
  {
    if n == 0 then [] else Repeat(s, n - 1) + [s]
  }

  // ----- the fields of a record

  /** The position of the first loaded module with that name, |mods| if there is none. */
  function Find(mods: seq<Module>, name: string): (i: nat)
    ensures i <= |mods| && (i < |mods| ==> mods[i].name == name)
    ensures forall k :: 0 <= k < i ==> mods[k].name != name
  {
    if mods == [] || mods[0].name == name then 0 else 1 + Find(mods[1..], name)
  }

  predicate IsScript(mods: seq<Module>, item: Item) {
    var i := Find(mods, item.name);
    i < |mods| && mods[i].flag == SCRIPT_FLAG_NORMAL
  }

  /** A script buffer; one that was never filled is empty. */
  function BufferAt(buffers: seq<string>, j: nat): string {
    if j < |buffers| then buffers[j] else ""
  }

  /** The items on which the asserts of add_error_mask hold and deal_script_data follows no null pointer. */
  predicate ItemDefined(mods: seq<Module>, buffers: seq<string>, j: nat, item: Item) {
    var i := Find(mods, item.name);
    if i == |mods| then item.indexes != []
    else if mods[i].flag == SCRIPT_FLAG_NORMAL then ScriptDefined(BufferAt(buffers, j))
    else mods[i].flag != MODULE_FLAG_NORMAL ==> mods[i].flag < 0 && item.indexes != []
  }

  /** The fields one configured module contributes when the next script slot is j. */
  function ItemFields(mods: seq<Module>, buffers: seq<string>, j: nat, item: Item): seq<string>
    requires ItemDefined(mods, buffers, j, item)
  {
    var i := Find(mods, item.name);
    if i == |mods| then Repeat(ErrorText(MODULE_FLAG_NOT_EXIST), |item.indexes|)
    else if mods[i].flag == SCRIPT_FLAG_NORMAL then ScriptFields(Tokens(BufferAt(buffers, j), [DELIM]), item.indexes, 0)
    else if mods[i].flag == MODULE_FLAG_NORMAL then NativeFields(mods[i].info, item.indexes)
    else Repeat(ErrorText(mods[i].flag), |item.indexes|)
  }

  function NextSlot(mods: seq<Module>, j: nat, item: Item): nat {
    if IsScript(mods, item) then j + 1 else j
  }

  predicate RecordDefined(mods: seq<Module>, buffers: seq<string>, j: nat, items: seq<Item>)
    decreases |items|
  {
    items == [] ||
    (ItemDefined(mods, buffers, j, items[0]) && RecordDefined(mods, buffers, NextSlot(mods, j, items[0]), items[1..]))
  }

  function RecordFields(mods: seq<Module>, buffers: seq<string>, j: nat, items: seq<Item>): seq<string>
    requires RecordDefined(mods, buffers, j, items)
    decreases |items|
  {
    if items == [] then []
    else ItemFields(mods, buffers, j, items[0]) + RecordFields(mods, buffers, NextSlot(mods, j, items[0]), items[1..])
  }

  /** The final step of complete_app_data: drop one trailing delimiter. */
  function Stripped(s: string): string {
    if s != "" && s[|s| - 1] == DELIM then s[..|s| - 1] else s
  }

  lemma {:induction false} StrippedTokens(s: string)
    ensures Tokens(Stripped(s), [DELIM]) == Tokens(s, [DELIM])
  {
    if Stripped(s) != s {
      assert s == Stripped(s) + [DELIM];
      TrailingDelimiter(Stripped(s), DELIM, [DELIM]);
    }
  }

  // ----- the encoder; it yields nothing when the program would stop

  method AddErrorMask(buf: string, error: int, cnt: nat) returns (out: Option<string>)
    ensures out.Some? <==> error < 0 && cnt > 0
    ensures out.Some? ==> out.value == buf + Printed(Repeat(ErrorText(error), cnt), DELIM)
  {
    if !(error < 0 && cnt > 0) {
      return None;
    }
    var s := buf;
    var temp := ErrorText(error);
    for i := 0 to cnt
      invariant s == buf + Printed(Repeat(temp, i), DELIM)
    {
      PrintedAfter(buf, Repeat(temp, i), temp);
      s := s + temp + [DELIM];
    }
    return Some(s);
  }

  method MissingIndex() returns (text: string)
    ensures text == ErrorText(MODULE_FLAG_INDEX_NOT_EXIST) + [DELIM]
  {
    ghost var f := ErrorText(MODULE_FLAG_INDEX_NOT_EXIST);
    PrintedOne([], f, DELIM);
    assert Repeat(f, 0) == [] && Repeat(f, 1) == [] + [f];
    var temp := AddErrorMask("", MODULE_FLAG_INDEX_NOT_EXIST, 1);
    text := temp.value;
  }

  /** The inner loop of compare_index_data. */
  method AppendIndex(buf: string, info: seq<IndexCell>, name: string) returns (out: string)
    ensures out == buf + NativeField(info, name) + [DELIM]
  {
    var j := 0;
    while j < |info|
      invariant j <= |info| && NativeField(info, name) == NativeField(info[j..], name)
    {
      if info[j].hdr == name {
        return buf + info[j].data + [DELIM];
      }
      assert info[j..][1..] == info[j + 1..];
      j := j + 1;
    }
    var temp := MissingIndex();
    out := buf + temp;
  }

  method CompareIndexData(buf: string, info: seq<IndexCell>, indexes: seq<string>) returns (out: string)
    ensures out == buf + Printed(NativeFields(info, indexes), DELIM)
  {
    out := buf;
    for i := 0 to |indexes|
      invariant out + Printed(NativeFields(info, indexes[i..]), DELIM) ==
                buf + Printed(NativeFields(info, indexes), DELIM)
    {
      assert indexes[i..][1..] == indexes[i + 1..];
      out := AppendIndex(out, info, indexes[i]);
    }
  }

  /** One comma-separated item of a script's output; without a key the code compares with a null pointer. */
  method AppendScriptItem(buf: string, token: string, indexes: seq<string>, j: nat) returns (out: Option<string>)
    ensures out.Some? <==> Tokens(token, ":=") != []
    ensures out.Some? ==> out.value == buf + ScriptField(token, indexes, j) + [DELIM]
  {
    var kv := new Scanner(token);
    var k := kv.Next(":=");
    if k.None? {
      return None;
    }
    var v := kv.Next(":=");
    if k.value != IndexName(indexes, j) {
      var temp := MissingIndex();
      return Some(buf + temp);
    }
    return Some(buf + (if v.None? then "-1" else v.value) + [DELIM]);
  }

  ghost predicate AllKeyed(tokens: seq<string>) {
    forall t :: t in tokens ==> Tokens(t, ":=") != []
  }

  method DealScriptData(buf: string, output: string, indexes: seq<string>) returns (out: Option<string>)
    ensures out.Some? <==> ScriptDefined(output)
    ensures out.Some? ==> out.value == buf + Printed(ScriptFields(Tokens(output, [DELIM]), indexes, 0), DELIM)
  {
    var scan := new Scanner(output);
    var token := scan.Next([DELIM]);
    if token.None? {
      return None;
    }
    out := DealTokens(buf, scan, token, indexes, Tokens(output, [DELIM]));
  }

  /** The loop over the items that a script printed. */
  method DealTokens(buf: string, scan: Scanner, first: Option<string>, indexes: seq<string>, ghost all: seq<string>)
    returns (out: Option<string>)
    requires all == Upcoming(first, scan.rest, [DELIM])
    modifies scan
    ensures out.Some? <==> AllKeyed(all)
    ensures out.Some? ==> out.value == buf + Printed(ScriptFields(all, indexes, 0), DELIM)
  {
    var s, j, token := buf, 0, first;
    ghost var left, done: seq<string> := all, [];
    while token.Some?
      invariant left == Upcoming(token, scan.rest, [DELIM])
      invariant AllKeyed(left) <==> AllKeyed(all)
      invariant AllKeyed(all) ==> done + ScriptFields(left, indexes, j) == ScriptFields(all, indexes, 0)
      invariant s == buf + Printed(done, DELIM)
      decreases |left|
    {
      ghost var rest := Tokens(scan.rest, [DELIM]);
      KeyedHead(token.value, rest);
      out := AppendScriptItem(s, token.value, indexes, j);
      if out.None? {
        return;
      }
      ghost var f := ScriptField(token.value, indexes, j);
      if AllKeyed(all) {
        UnfoldScriptFields(token.value, rest, indexes, j, done);
      }
      PrintedAfter(buf, done, f);
      s, j, done, left := out.value, j + 1, done + [f], rest;
      token := scan.Next([DELIM]);
    }
    assert done + [] == done;
    return Some(s);
  }

  lemma {:induction false} KeyedHead(token: string, rest: seq<string>)
    ensures AllKeyed([token] + rest) <==> Tokens(token, ":=") != [] && AllKeyed(rest)
  {
    var all := [token] + rest;
    assert token == all[0] && forall t :: t in rest ==> t in all;
  }

  lemma {:induction false} UnfoldScriptFields(token: string, rest: seq<string>, indexes: seq<string>, j: nat,
                                              done: seq<string>)
    requires AllKeyed([token] + rest)
    ensures Tokens(token, ":=") != [] && AllKeyed(rest)
    ensures done + ScriptFields([token] + rest, indexes, j) ==
            done + [ScriptField(token, indexes, j)] + ScriptFields(rest, indexes, j + 1)
  {
    KeyedHead(token, rest);
    assert ([token] + rest)[1..] == rest;
  }

  lemma {:induction false} PrintedAfter(buf: string, done: seq<string>, f: string)
    ensures buf + Printed(done, DELIM) + f + [DELIM] == buf + Printed(done + [f], DELIM)
  {
    PrintedOne(done, f, DELIM);
  }

  // ----- loading and collecting

  /** What dlopen, access and mod_register answer for a module name. */
  datatype Probe = Missing | Script | NoSymbol | Registered(flag: int)

  function FlagOf(p: Probe): int {
    match p
    case Missing => MODULE_FLAG_NOT_EXIST
    case Script => SCRIPT_FLAG_NORMAL
    case NoSymbol => MODULE_FLAG_ILLEGAL
    case Registered(flag) => flag
  }

  /** The flags as numbers: those of a library are its own. */
  lemma {:induction false} FlagsAre(p: Probe)
    ensures FlagOf(p) == match p case Missing => -1 case Script => 1 case NoSymbol => -2 case Registered(flag) => flag
  {
  }

  /** The names of those modules among the first k that were found as scripts, in order: script_path. */
  function ScriptPaths(mods: seq<Module>, probe: string -> Probe, k: nat): seq<string>
    requires k <= |mods|
  {
    if k == 0 then []
    else ScriptPaths(mods, probe, k - 1) + if probe(mods[k - 1].name) == Script then [mods[k - 1].name] else []
  }

  /** How many of the first k modules are flagged as scripts. */
  function SlotCount(mods: seq<Module>, k: nat): (n: nat)
    requires k <= |mods|
    ensures n <= k
  {
    if k == 0 then 0 else SlotCount(mods, k - 1) + if mods[k - 1].flag == SCRIPT_FLAG_NORMAL then 1 else 0
  }

  /** A script path; one that was never set is empty. */
  function PathAt(paths: seq<string>, j: nat): string {
    if j < |paths| then paths[j] else ""
  }

  function Loaded(mods: seq<Module>, probe: string -> Probe): seq<Module> {
    seq(|mods|, i requires 0 <= i < |mods| => mods[i].(flag := FlagOf(probe(mods[i].name))))
  }

  function Collected(mods: seq<Module>, read: string -> seq<IndexCell>): seq<Module> {
    seq(|mods|, i requires 0 <= i < |mods| => CollectedOne(mods[i], read))
  }

  function CollectedOne(mod: Module, read: string -> seq<IndexCell>): Module {
    if mod.flag == MODULE_FLAG_NORMAL then mod.(info := read(mod.name)) else mod
  }

  predicate Plausible(output: string) {
    ':' in output || '=' in output
  }

  /** An output is refused exactly when no character of it separates a key from a value. */
  lemma {:induction false} PlausibleIff(output: string)
    ensures !Plausible(output) <==> forall i :: 0 <= i < |output| ==> output[i] !in ":="
  {
  }

  /** The first n slots print a key and a value. */
  ghost predicate AllPrint(paths: seq<string>, n: nat, run: string -> string) {
    forall j: nat :: j < n ==> Plausible(run(PathAt(paths, j)))
  }

  /** The line without its newline. */
  function Trimmed(output: string): string {
    if output != "" && output[|output| - 1] == '\n' then output[..|output| - 1] else output
  }

  /** One newline at the end is dropped, and nothing else. */
  lemma {:induction false} TrimmedIs(text: string)
    ensures Trimmed(text + "\n") == text
    ensures text == "" || text[|text| - 1] != '\n' ==> Trimmed(text) == text
  {
    assert (text + "\n")[..|text|] == text;
  }

  class Client {
    var mods: seq<Module>           // app_clr_module
    var scriptPath: seq<string>     // script_t.script_path, by module name
    var buffers: seq<string>        // script_t.buffer
    var scriptJ: nat                // script_t.script_j
    var headEnd: char               // the byte before the record: the last one of the package's head

    constructor ()
      ensures mods == [] && scriptPath == [] && buffers == [] && scriptJ == 0
    {
      mods, scriptPath, buffers, scriptJ, headEnd := [], [], [], 0, NUL;
    }

    /** `init_module_array`; a name is cut to the 31 characters its field holds. */
    method InitModuleArray(head: ModNode, ghost nodes: seq<ModNode>)
      requires Listed(head.next, nodes)
      modifies this`mods
      ensures mods == old(mods) + Unloaded(Infos(nodes))
    {
      ghost var added, k := Unloaded(Infos(nodes)), 0 as nat;
      var t := head.next;
      while t != null
        invariant k <= |nodes| && t == NodeAt(nodes, k) && mods == old(mods) + added[..k]
        decreases |nodes| - k
      {
        assert added[..k + 1] == added[..k] + [added[k]];
        mods := mods + [Module(Held(t.info.name), 0, [])];
        t, k := t.next, k + 1;
      }
      assert added[..|nodes|] == added;
    }

    method LoadModules(probe: string -> Probe)
      modifies this
      ensures mods == Loaded(old(mods), probe) && scriptJ == old(scriptJ)
      ensures scriptPath == ScriptPaths(mods, probe, |mods|) && |buffers| == |mods|
    {
      ghost var loaded := Loaded(mods, probe);
      var num := |mods|;
      scriptPath := [];
      for i := 0 to num
        invariant |mods| == num && scriptJ == old(scriptJ)
        invariant forall k :: 0 <= k < num ==> mods[k] == if k < i then loaded[k] else old(mods)[k]
        invariant scriptPath == ScriptPaths(loaded, probe, i)
      {
        var name := mods[i].name;
        mods := mods[i := mods[i].(flag := FlagOf(probe(name)))];
        if probe(name).Script? {
          scriptPath := scriptPath + [name];
        }
      }
      buffers := seq(num, _ => "");
    }

    /** `collect_data_from_modules`; -1 as soon as a script prints neither ':' nor '='. */
    method CollectData(run: string -> string, read: string -> seq<IndexCell>) returns (ret: int)
      requires |buffers| == |mods|
      modifies this`mods, this`buffers
      ensures ret == 0 || ret == -1
      ensures ret == 0 <==> AllPrint(scriptPath, SlotCount(old(mods), |old(mods)|), run)
      ensures |buffers| == |mods| == |old(mods)|
      ensures ret == 0 ==> mods == Collected(old(mods), read)
                           && SlotsFilled(SlotCount(old(mods), |old(mods)|), run)
    {
      ghost var before, after := mods, Collected(mods, read);
      var num, j := |mods|, 0;
      for i := 0 to num
        invariant |mods| == |buffers| == num && j == SlotCount(before, i)
        invariant forall k :: 0 <= k < num ==> mods[k] == if k < i then after[k] else before[k]
        invariant SlotsFilled(j, run)
      {
        SlotCountGrows(before, i + 1, num);
        var ok;
        ok, j := CollectModule(i, j, run, read);
        if !ok {
          return -1;
        }
      }
      ret := 0;
    }

    /** One round of the loop: module i, when the next script slot is j. */
    method CollectModule(i: nat, j: nat, run: string -> string, read: string -> seq<IndexCell>)
      returns (ok: bool, next: nat)
      requires i < |mods| && j < |buffers| && SlotsFilled(j, run)
      modifies this`mods, this`buffers
      ensures |buffers| == |old(buffers)| && mods == old(mods)[i := CollectedOne(old(mods[i]), read)]
      ensures next == if ok && old(mods[i]).flag == SCRIPT_FLAG_NORMAL then j + 1 else j
      ensures if ok then SlotsFilled(next, run)
              else old(mods[i]).flag == SCRIPT_FLAG_NORMAL && !Plausible(run(PathAt(scriptPath, j)))
    {
      ok, next := true, j;
      if mods[i].flag != MODULE_FLAG_NORMAL {
        if mods[i].flag == SCRIPT_FLAG_NORMAL {
          ok := RunScript(j, run);
          next := if ok then j + 1 else j;
        }
      } else {
        mods := mods[i := mods[i].(info := read(mods[i].name))];
      }
    }

    /** The first n scripts printed a key and a value, and their buffers hold what they printed. */
    ghost predicate SlotsFilled(n: nat, run: string -> string)
      reads this
    {
      && n <= |buffers| && AllPrint(scriptPath, n, run)
      && forall k: nat :: k < n ==> buffers[k] == Trimmed(run(PathAt(scriptPath, k)))
    }

    /** The script of slot j. */
    method RunScript(j: nat, run: string -> string) returns (ok: bool)
      requires j < |buffers| && SlotsFilled(j, run)
      modifies this`buffers
      ensures |buffers| == |old(buffers)|
      ensures ok <==> Plausible(run(PathAt(scriptPath, j)))
      ensures ok ==> SlotsFilled(j + 1, run)
    {
      buffers := buffers[j := run(PathAt(scriptPath, j))];
      ok := ':' in buffers[j] || '=' in buffers[j];
      if ok {
        buffers := buffers[j := Trimmed(buffers[j])];
      }
    }

    /** `complete_module_data` */
    method CompleteModuleData(buf: string, item: Item) returns (out: Option<string>)
      modifies this`scriptJ
      ensures out.Some? <==> ItemDefined(mods, buffers, old(scriptJ), item)
      ensures out.Some? ==> out.value == buf + Printed(ItemFields(mods, buffers, old(scriptJ), item), DELIM)
                            && scriptJ == NextSlot(mods, old(scriptJ), item)
    {
      out := ItemText(item);
      if out.Some? {
        out := Some(buf + out.value);
      }
    }

    /** The text of one module, before it is appended. */
    method ItemText(item: Item) returns (out: Option<string>)
      modifies this`scriptJ
      ensures out.Some? <==> ItemDefined(mods, buffers, old(scriptJ), item)
      ensures out.Some? ==> out.value == "" + Printed(ItemFields(mods, buffers, old(scriptJ), item), DELIM)
                            && scriptJ == NextSlot(mods, old(scriptJ), item)
    {
      var i := FindModule(item.name);
      if i == |mods| {
        out := AddErrorMask("", MODULE_FLAG_NOT_EXIST, |item.indexes|);
      } else if mods[i].flag == MODULE_FLAG_NORMAL {
        var temp := CompareIndexData("", mods[i].info, item.indexes);
        out := Some(temp);
      } else if mods[i].flag == SCRIPT_FLAG_NORMAL {
        out := DealScriptData("", BufferAt(buffers, scriptJ), item.indexes);
        scriptJ := scriptJ + 1;
      } else {
        out := AddErrorMask("", mods[i].flag, |item.indexes|);
      }
    }

    method FindModule(name: string) returns (i: nat)
      ensures i == Find(mods, name)
    {
      i := 0;
      while i < |mods| && mods[i].name != name
        invariant i <= |mods| && forall k :: 0 <= k < i ==> mods[k].name != name
      {
        i := i + 1;
      }
    }

    /** `complete_app_data`; for an empty record the byte looked at and cleared is the one before the buffer. */
    method CompleteAppData(head: ModNode, ghost nodes: seq<ModNode>) returns (record: Option<string>)
      requires Listed(head.next, nodes)
      modifies this`scriptJ, this`headEnd
      ensures record.Some? <==> RecordDefined(mods, buffers, old(scriptJ), Items(Infos(nodes)))
      ensures record.Some? ==>
                var fields := RecordFields(mods, buffers, old(scriptJ), Items(Infos(nodes)));
                && record.value == Stripped(Printed(fields, DELIM))
                && headEnd == if fields == [] && old(headEnd) == DELIM then NUL else old(headEnd)
      ensures record.None? ==> headEnd == old(headEnd)
    {
      record := AppendModules(head, nodes, Items(Infos(nodes)));
      if record == Some("") {
        if headEnd == DELIM {
          headEnd := NUL;
        }
      } else if record.Some? {
        record := Some(Stripped(record.value));
      }
    }

    /** The loop of complete_app_data. */
    method AppendModules(head: ModNode, ghost nodes: seq<ModNode>, ghost items: seq<Item>)
      returns (record: Option<string>)
      requires Listed(head.next, nodes) && items == Items(Infos(nodes))
      modifies this`scriptJ
      ensures record.Some? <==> RecordDefined(mods, buffers, old(scriptJ), items)
      ensures record.Some? ==> record.value == Printed(RecordFields(mods, buffers, old(scriptJ), items), DELIM)
    {
      ghost var left, done: seq<string>, k := items, [], 0 as nat;
      var t, s := head.next, "";
      while t != null
        invariant k <= |nodes| && t == NodeAt(nodes, k) && left == items[k..]
        invariant RecordDefined(mods, buffers, scriptJ, left) <==> RecordDefined(mods, buffers, old(scriptJ), items)
        invariant RecordDefined(mods, buffers, scriptJ, left) ==>
                    done + RecordFields(mods, buffers, scriptJ, left) ==
                    RecordFields(mods, buffers, old(scriptJ), items)
        invariant s == Printed(done, DELIM)
        decreases |nodes| - k
      {
        assert left[0] == ItemOf(t.info) && left[1..] == items[k + 1..];
        ghost var j := scriptJ;
        record := CompleteModuleData(s, ItemOf(t.info));
        if record.None? {
          return;
        }
        ghost var fields := ItemFields(mods, buffers, j, left[0]);
        UnfoldRecord(mods, buffers, j, left, done);
        PrintedAppend(done, fields, DELIM);
        s, done, left := record.value, done + fields, left[1..];
        t, k := t.next, k + 1;
      }
      assert done + [] == done;
      return Some(s);
    }
  }

  /** The module array before loading. */
  function Unloaded(infos: seq<ModInfo>): (mods: seq<Module>)
    ensures |mods| == |infos|
  {
    seq(|infos|, i requires 0 <= i < |infos| => Module(Held(infos[i].name), 0, []))
  }

  const NAME_WIDTH: nat := 32

  /** What the name field of a module holds of a name. */
  function Held(name: string): (held: string)
    ensures held <= name && |held| <= 31 && (held == name <==> |name| <= 31)
  {
    if |name| < NAME_WIDTH then name else name[..NAME_WIDTH - 1]
  }

  lemma {:induction false} UnfoldRecord(mods: seq<Module>, buffers: seq<string>, j: nat, items: seq<Item>,
                                        done: seq<string>)
    requires items != [] && ItemDefined(mods, buffers, j, items[0])
    ensures RecordDefined(mods, buffers, j, items) <==>
            RecordDefined(mods, buffers, NextSlot(mods, j, items[0]), items[1..])
    ensures RecordDefined(mods, buffers, j, items) ==>
              done + RecordFields(mods, buffers, j, items) ==
              done + ItemFields(mods, buffers, j, items[0])
              + RecordFields(mods, buffers, NextSlot(mods, j, items[0]), items[1..])
  {
  }

  lemma {:induction false} SlotCountGrows(mods: seq<Module>, k: nat, n: nat)
    requires k <= n <= |mods|
    ensures SlotCount(mods, k) <= SlotCount(mods, n)
  {
    if k == n {
    } else {
      SlotCountGrows(mods, k, n - 1);
    }
  }
}
