/**
  The server's replies: a stored record is split into fixed cells of 32 bytes,
  and the requested positions are printed from the cells.
 */
module ServerReply {
  import opened Strtok

  const LEN_32: nat := 32
  const DELIM: char := ','
  const NUL: char := '\0'

  datatype Status = Illegal | Down | Active

  function StatusText(s: Status): string {
    match s
    case Illegal => "illeagal"
    case Down => "down"
    case Active => "active"
  }

  /** The reply to a request for all data of a node. */
  function AllReply(name: string, status: Status, hasRecent: bool, recent: string): string {
    name + [DELIM] + StatusText(status) + [DELIM] + if status == Active && hasRecent then recent else ""
  }

  // ----- the cells

  /**
    What strcat copies from cell `pos`. A token of 32 or more characters leaves no
    room for its terminating NUL, and the copy runs on into the next cell.
   */
  function CellText(tokens: seq<string>, pos: nat): string
    decreases if pos < |tokens| then |tokens| - pos else 0
  {
    if pos >= |tokens| then ""
    else if |tokens[pos]| < LEN_32 then tokens[pos]
    else tokens[pos][..LEN_32] + CellText(tokens, pos + 1)
  }

  /** The character at column o of cell t after all tokens were copied to the zeroed array. */
  function CellChar(tokens: seq<string>, t: nat, o: nat): char {
    if t < |tokens| && o < |tokens[t]| then tokens[t][o] else NUL
  }

  ghost predicate Holds(cells: array2<char>, tokens: seq<string>)
    reads cells
  {
    && cells.Length1 == LEN_32
    && forall t: nat, o: nat :: t < cells.Length0 && o < LEN_32 ==> cells[t, o] == CellChar(tokens, t, o)
  }

  /** The C string at column o of cell t: the cells lie one behind the other, so it may run on. */
  function StringAt(cells: array2<char>, t: nat, o: nat): string
    requires cells.Length1 == LEN_32 && t <= cells.Length0 && o <= LEN_32
    reads cells
    decreases cells.Length0 - t, LEN_32 - o
  {
    if t == cells.Length0 then ""
    else if o == LEN_32 then StringAt(cells, t + 1, 0)
    else if cells[t, o] == NUL then ""
    else [cells[t, o]] + StringAt(cells, t, o + 1)
  }

  ghost predicate NoNul(tokens: seq<string>) {
    forall t :: t in tokens ==> NUL !in t
  }

  /** What is read from column o of a cell on. */
  function RunOn(tokens: seq<string>, t: nat, o: nat): string
    requires t < |tokens| && o <= |tokens[t]| && o <= LEN_32
  {
    tokens[t][o..CellEnd(tokens[t])] + if |tokens[t]| < LEN_32 then "" else CellText(tokens, t + 1)
  }

  function CellEnd(token: string): nat {
    if |token| < LEN_32 then |token| else LEN_32
  }

  lemma {:induction false} RunOnStep(tokens: seq<string>, t: nat, o: nat)
    requires t < |tokens| && o < |tokens[t]| && o < LEN_32
    ensures RunOn(tokens, t, o) == [tokens[t][o]] + RunOn(tokens, t, o + 1)
  {
    var tok, end := tokens[t], CellEnd(tokens[t]);
    assert tok[o..end] == [tok[o]] + tok[o + 1..end];
  }

  lemma {:induction false} StringInCell(cells: array2<char>, tokens: seq<string>, t: nat, o: nat)
    requires Holds(cells, tokens) && NoNul(tokens) && |tokens| < cells.Length0
    requires t < |tokens| && o <= |tokens[t]| && o <= LEN_32
    ensures StringAt(cells, t, o) == RunOn(tokens, t, o)
    decreases |tokens| - t, LEN_32 - o
  {
    var tok := tokens[t];
    assert tok in tokens;
    if o == LEN_32 {
      assert tok[o..CellEnd(tok)] == "";
      CellIsString(cells, tokens, t + 1);
    } else if o == |tok| {
      assert cells[t, o] == NUL && tok[o..CellEnd(tok)] == "";
    } else {
      assert cells[t, o] == tok[o] && tok[o] in tok;
      StringInCell(cells, tokens, t, o + 1);
      RunOnStep(tokens, t, o);
    }
  }

  lemma {:induction false} CellIsString(cells: array2<char>, tokens: seq<string>, pos: nat)
    requires Holds(cells, tokens) && NoNul(tokens) && |tokens| < cells.Length0 && pos < cells.Length0
    ensures StringAt(cells, pos, 0) == CellText(tokens, pos)
    decreases if pos < |tokens| then |tokens| - pos else 0, LEN_32 + 1
  {
    if pos < |tokens| {
      StringInCell(cells, tokens, pos, 0);
      assert RunOn(tokens, pos, 0) == CellText(tokens, pos);
    } else {
      assert cells[pos, 0] == CellChar(tokens, pos, 0);
    }
  }

  /** The reply to a request for the fields at the given positions. */
  function CellTexts(tokens: seq<string>, positions: seq<nat>): seq<string> {
    seq(|positions|, i requires 0 <= i < |positions| => CellText(tokens, positions[i]))
  }

  function PartReply(name: string, status: Status, hasRecent: bool, recent: string, positions: seq<nat>): string {
    name + [DELIM] + StatusText(status) + [DELIM] +
    if status == Active && hasRecent then Printed(CellTexts(Tokens(recent, [DELIM]), positions), DELIM) else ""
  }

  /** What a node that is down or unknown answers, and an active one without and with recent data. */
  lemma {:induction false} RepliesAre(name: string, hasRecent: bool, recent: string, positions: seq<nat>)
    ensures AllReply(name, Down, hasRecent, recent) == PartReply(name, Down, hasRecent, recent, positions)
            == name + ",down,"
    ensures AllReply(name, Illegal, hasRecent, recent) == PartReply(name, Illegal, hasRecent, recent, positions)
            == name + ",illeagal,"
    ensures AllReply(name, Active, false, recent) == PartReply(name, Active, false, recent, positions)
            == name + ",active,"
    ensures AllReply(name, Active, true, recent) == name + ",active," + recent
  {
    assert forall s: string :: name + [DELIM] + s + [DELIM] + "" == name + ("," + s + ",");
  }

  // ----- the code

  /** A token is copied to a cell, which is filled up with NULs. */
  method CopyToken(cells: array2<char>, cnt: nat, token: string, ghost before: seq<string>)
    requires Holds(cells, before) && cnt == |before| < cells.Length0
    modifies cells
    ensures Holds(cells, before + [token])
    ensures forall t: nat, o: nat :: t < cells.Length0 && o < LEN_32 ==>
              cells[t, o] == if t == cnt then (if o < |token| then token[o] else NUL) else old(cells[t, o])
  {
    for k := 0 to LEN_32
      invariant forall t: nat, o: nat :: t < cells.Length0 && o < LEN_32 ==>
                  cells[t, o] == if t == cnt && o < k then (if o < |token| then token[o] else NUL) else old(cells[t, o])
    {
      cells[cnt, k] := if k < |token| then token[k] else NUL;
    }
  }

  method SplitIndexData(text: string, cells: array2<char>)
    requires cells.Length1 == LEN_32 && |Tokens(text, [DELIM])| <= cells.Length0
    requires Holds(cells, [])
    modifies cells
    ensures Holds(cells, Tokens(text, [DELIM]))
  {
    ghost var tokens, done: seq<string> := Tokens(text, [DELIM]), [];
    var scan := new Scanner(text);
    var cnt := 0;
    var token := scan.Next([DELIM]);
    while token.Some?
      invariant done + Upcoming(token, scan.rest, [DELIM]) == tokens
      invariant Holds(cells, done) && cnt == |done|
      decreases |tokens| - cnt
    {
      CopyToken(cells, cnt, token.value, done);
      done := done + [token.value];
      cnt := cnt + 1;
      token := scan.Next([DELIM]);
    }
  }

  /** `get_part_index_data_one_node`: `max` cells (MAX_TOTAL_INDEX_NUM), more than the record has fields. */
  method PartOneNode(recent: string, positions: seq<nat>, max: nat) returns (reply: string)
    requires NUL !in recent && |Tokens(recent, [DELIM])| < max
    requires forall i :: 0 <= i < |positions| ==> positions[i] < max
    ensures reply == Printed(CellTexts(Tokens(recent, [DELIM]), positions), DELIM)
  {
    TokensKeepChars(recent, [DELIM], NUL);
    var cells := new char[max, LEN_32]((_, _) => NUL);
    SplitIndexData(recent, cells);
    reply := PrintCells(cells, Tokens(recent, [DELIM]), positions);
  }

  /** The loop over the requested positions. */
  method PrintCells(cells: array2<char>, ghost tokens: seq<string>, positions: seq<nat>) returns (reply: string)
    requires Holds(cells, tokens) && NoNul(tokens) && |tokens| < cells.Length0
    requires forall i :: 0 <= i < |positions| ==> positions[i] < cells.Length0
    ensures reply == Printed(CellTexts(tokens, positions), DELIM)
  {
    ghost var texts := CellTexts(tokens, positions);
    reply := "";
    for i := 0 to |positions|
      invariant reply == Printed(texts[..i], DELIM)
    {
      CellIsString(cells, tokens, positions[i]);
      reply := reply + StringAt(cells, positions[i], 0) + [DELIM];
      PrintedOne(texts[..i], texts[i], DELIM);
      assert texts[..i] + [texts[i]] == texts[..i + 1];
    }
    assert texts[..|positions|] == texts;
  }

  // ----- both requests give the same data

  /** 0, 1, .., n-1 */
  function AllPositions(n: nat): seq<nat> {
    seq(n, i requires 0 <= i < n => i)
  }

  lemma {:induction false} AllCells(tokens: seq<string>)
    requires forall t :: t in tokens ==> |t| < LEN_32
    ensures CellTexts(tokens, AllPositions(|tokens|)) == tokens
  {
    forall i | 0 <= i < |tokens| ensures CellText(tokens, i) == tokens[i] {
      assert tokens[i] in tokens;
    }
  }

  /** One delimiter dropped at the end, as the client does. */
  function Joined(fields: seq<string>): string {
    var s := Printed(fields, DELIM);
    if s == "" then s else s[..|s| - 1]
  }

  lemma {:induction false} PrintedEnds(fields: seq<string>)
    ensures fields != [] ==> Printed(fields, DELIM) == Joined(fields) + [DELIM]
    ensures Joined([]) == ""
  {
    if fields == [] {
    } else {
      var s := Printed(fields, DELIM);
      if fields[1..] == [] {
        assert Printed(fields[1..], DELIM) == "";
      } else {
        PrintedEnds(fields[1..]);
        assert s == fields[0] + [DELIM] + Joined(fields[1..]) + [DELIM];
      }
    }
  }

  /**
    For a record of n fields of 1 to 31 characters without delimiter, asking for
    the positions 0 .. n-1 gives the reply to the request for everything and one
    delimiter more, unless n is 0.
   */
  lemma {:induction false} PartOfAllIsAll(name: string, fields: seq<string>)
    requires forall f :: f in fields ==> Clean(f, [DELIM]) && |f| < LEN_32
    ensures PartReply(name, Active, true, Joined(fields), AllPositions(|fields|)) ==
            AllReply(name, Active, true, Joined(fields)) + if fields == [] then "" else [DELIM]
  {
    JoinedTokens(fields);
    AllCells(fields);
    PrintedEnds(fields);
    var head := name + [DELIM] + StatusText(Active) + [DELIM];
    assert head + (Joined(fields) + [DELIM]) == head + Joined(fields) + [DELIM];
  }

  lemma {:induction false} JoinedTokens(fields: seq<string>)
    requires forall f :: f in fields ==> Clean(f, [DELIM])
    ensures Tokens(Joined(fields), [DELIM]) == fields
  {
    PrintedEnds(fields);
    SplitRecoversIff(fields, DELIM);
    if fields != [] {
      TrailingDelimiter(Joined(fields), DELIM, [DELIM]);
    }
  }

  /**
    A field is read back whole exactly when it is shorter than a cell, or what
    runs on behind its 32 characters happens to be the rest of it.
   */
  lemma {:induction false} CellIsWholeIff(tokens: seq<string>, pos: nat)
    requires pos < |tokens|
    ensures CellText(tokens, pos) == tokens[pos] <==>
            |tokens[pos]| < LEN_32 || tokens[pos][LEN_32..] == CellText(tokens, pos + 1)
  {
    var tok := tokens[pos];
    if |tok| >= LEN_32 {
      var run := tok[..LEN_32] + CellText(tokens, pos + 1);
      assert tok == tok[..LEN_32] + tok[LEN_32..];
      assert run[LEN_32..] == CellText(tokens, pos + 1);
    }
  }

  /** A token of 32 characters runs together with the one behind it. */
  lemma {:induction false} LongTokenExample(token: string)
    requires |token| == 32
    ensures CellText([token, "7"], 0) == token + "7" && CellText([token[..31], "7"], 0) == token[..31]
  {
    assert CellText([token, "7"], 1) == "7";
  }
}
