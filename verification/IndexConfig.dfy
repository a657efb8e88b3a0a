/**
  The configuration of modules and their indexes: one module a line, its name
  and then three words (name, unit, type) an index.
 */
module IndexConfig {
  import opened Common
  import opened Strtok
  import opened ModList

  const BLANKS: string := [' ', '\t', '\r', '\n', '\U{0C}', '\U{0B}']
  const MAX_LINE: nat := 10240
  const NAME_WIDTH: nat := 32      // of a module name and of an index name
  const TEXT_WIDTH: nat := 16      // of a unit and of a type
  const MAX_INDEXES: nat := 64     // of one module

  // ----- one line

  /**
    The line without its last character, and without a letter r before it: the
    code tests for 'r' where its comment speaks of Windows text.
   */
  function Cut(line: string): string
    requires line != ""
  {
    var s := line[..|line| - 1];
    if s != "" && s[|s| - 1] == 'r' then s[..|s| - 1] else s
  }

  /**
    A line keeps its words exactly when its last character is a blank, such as the
    newline, and no letter r stands before it.
   */
  lemma {:induction false} CutKeepsWordsIff(line: string, blanks: string)
    requires line != "" && 'r' !in blanks
    ensures Tokens(Cut(line), blanks) == Tokens(line, blanks) <==>
            line[|line| - 1] in blanks && (|line| == 1 || line[|line| - 2] != 'r')
  {
    var text, c := line[..|line| - 1], line[|line| - 1];
    assert line == text + [c];
    SolidAppend(text, [c], blanks);
    OneSolid(c, blanks);
    if text != "" && text[|text| - 1] == 'r' {
      var cut := text[..|text| - 1];
      assert text == cut + ['r'] && Cut(line) == cut;
      SolidAppend(cut, ['r'], blanks);
      OneSolid('r', blanks);
    }
    TokensAreSolid(Cut(line), blanks);
    TokensAreSolid(line, blanks);
    if c in blanks {
      TrailingDelimiter(text, c, blanks);
    }
  }

  lemma {:induction false} OneSolid(c: char, blanks: string)
    ensures Solid([c], blanks) == if c in blanks then "" else [c]
  {
    assert [c][1..] == "";
  }

  /** A line that ends in r loses it ... */
  lemma {:induction false} LetterCutExample()
    ensures Tokens("ar\n", BLANKS) == ["ar"] && Tokens(Cut("ar\n"), BLANKS) == ["a"]
  {
    OneWord("ar");
    OneWord("a");
    assert Cut("ar\n") == "a" && "ar\n" == "ar" + ['\n'];
    TrailingDelimiter("ar", '\n', BLANKS);
  }

  /** ... and so does a last line without newline lose its last character. */
  lemma {:induction false} LastLineExample()
    ensures Tokens("ab", BLANKS) == ["ab"] && Tokens(Cut("ab"), BLANKS) == ["a"]
  {
    OneWord("ab");
    OneWord("a");
    assert Cut("ab") == "a";
  }

  lemma {:induction false} OneWord(s: string)
    requires s != "" && Free(s, BLANKS)
    ensures Tokens(s, BLANKS) == [s]
  {
    OneToken(s, BLANKS);
  }

  /** Comments and blank lines. */
  predicate Skipped(text: string, blanks: string) {
    var n := Span(text, blanks);
    n == |text| || text[n] == '#'
  }

  /** A line adds no module exactly when its first character that is no blank is '#', or there is none. */
  lemma {:induction false} SkippedIff(text: string, blanks: string)
    ensures Skipped(text, blanks) <==>
            (forall i :: 0 <= i < |text| ==> text[i] in blanks)
            || (exists n :: FirstSolid(text, n, blanks) && text[n] == '#')
  {
    var n := Span(text, blanks);
    if n < |text| {
      assert FirstSolid(text, n, blanks);
    }
  }

  ghost predicate FirstSolid(text: string, n: int, blanks: string) {
    0 <= n < |text| && text[n] !in blanks && forall i :: 0 <= i < n ==> text[i] in blanks
  }

  /** The blanks are space, tab, carriage return, newline, form feed and vertical tab. */
  lemma {:induction false} BlanksAre(c: char)
    ensures c in BLANKS <==>
            c == ' ' || c as int == 9 || c as int == 10 || c as int == 11 || c as int == 12 || c as int == 13
  {
  }

  function Triples(words: seq<string>): seq<IndexInfo>
    requires |words| % 3 == 0
  {
    if words == [] then []
    else [IndexInfo(words[0], words[1], words[2])] + Triples(words[3..])
  }

  predicate Formed(words: seq<string>) {
    |words| % 3 == 1
  }

  function Parsed(words: seq<string>): ModInfo
    requires Formed(words)
  {
    ModInfo(words[0], Triples(words[1..]))
  }

  /** The words of a module, as a line would list them. */
  function Words(indexes: seq<IndexInfo>): seq<string> {
    if indexes == [] then []
    else [indexes[0].name, indexes[0].unit, indexes[0].kind] + Words(indexes[1..])
  }

  lemma {:induction false} TriplesKeepWords(words: seq<string>)
    requires |words| % 3 == 0
    ensures Words(Triples(words)) == words && |words| == 3 * |Triples(words)|
  {
    if words == [] {
    } else {
      TriplesKeepWords(words[3..]);
      assert words == [words[0], words[1], words[2]] + words[3..];
    }
  }

  lemma {:induction false} OneTriple(words: seq<string>, index: IndexInfo, before: seq<IndexInfo>)
    requires |words| >= 3 && index == IndexInfo(words[0], words[1], words[2])
    ensures |words[3..]| % 3 == |words| % 3
    ensures |words| % 3 == 0 ==> before + Triples(words) == before + [index] + Triples(words[3..])
  {
  }

  /** Nothing on an accepted line is lost or reordered: it has one word and three more for each index. */
  lemma {:induction false} ParsedKeepsWords(words: seq<string>)
    requires Formed(words)
    ensures words == [Parsed(words).name] + Words(Parsed(words).indexes)
    ensures |words| == 1 + 3 * |Parsed(words).indexes|
  {
    TriplesKeepWords(words[1..]);
  }

  // ----- words and their fields

  /** An index and its words fit the fields they are copied to, with a NUL behind each. */
  predicate OneFits(name: string, more: seq<string>, cnt: nat) {
    && cnt < MAX_INDEXES && |name| < NAME_WIDTH
    && (more == [] || |more[0]| < TEXT_WIDTH) && (|more| < 2 || |more[1]| < TEXT_WIDTH)
  }

  /** The words of the indexes from number cnt on, complete or not. */
  predicate IndexesFit(words: seq<string>, cnt: nat) {
    words == [] ||
    (OneFits(words[0], words[1..], cnt) && (|words| < 3 || IndexesFit(words[3..], cnt + 1)))
  }

  predicate Fits(words: seq<string>) {
    words == [] || (|words[0]| < NAME_WIDTH && IndexesFit(words[1..], 0))
  }

  /** Words fit exactly when names have at most 31 characters, units and types 15, and there are at most 64 indexes. */
  lemma {:induction false} FitsIff(words: seq<string>)
    ensures Fits(words) <==>
            |words| <= 193 && forall i :: 0 <= i < |words| ==> |words[i]| < if i == 0 || i % 3 == 1 then 32 else 16
  {
    if words == [] {
    } else {
      var more := words[1..];
      IndexesFitIff(more, 0);
      assert forall i :: 0 <= i < |more| ==> more[i] == words[i + 1];
      if forall i :: 0 <= i < |words| ==> |words[i]| < if i == 0 || i % 3 == 1 then 32 else 16 {
        forall i | 0 <= i < |more| ensures |more[i]| < if i % 3 == 0 then 32 else 16 {
          assert |words[i + 1]| < if (i + 1) % 3 == 1 then 32 else 16;
        }
      }
      if forall i :: 0 <= i < |more| ==> |more[i]| < if i % 3 == 0 then 32 else 16 {
        forall i | 0 < i < |words| ensures |words[i]| < if i % 3 == 1 then 32 else 16 {
          assert |more[i - 1]| < if (i - 1) % 3 == 0 then 32 else 16;
        }
      }
    }
  }

  lemma {:induction false} IndexesFitIff(words: seq<string>, cnt: nat)
    requires cnt <= 64
    ensures IndexesFit(words, cnt) <==>
            |words| <= 3 * (64 - cnt) && forall i :: 0 <= i < |words| ==> |words[i]| < if i % 3 == 0 then 32 else 16
    decreases |words|
  {
    if |words| < 3 {
    } else if cnt < 64 {
      var rest := words[3..];
      IndexesFitIff(rest, cnt + 1);
      if forall i :: 0 <= i < |words| ==> |words[i]| < if i % 3 == 0 then 32 else 16 {
        forall i | 0 <= i < |rest| ensures |rest[i]| < if i % 3 == 0 then 32 else 16 {
          assert rest[i] == words[i + 3];
        }
      }
      if OneFits(words[0], words[1..], cnt) && forall i :: 0 <= i < |rest| ==> |rest[i]| < if i % 3 == 0 then 32 else 16
      {
        forall i | 0 <= i < |words| ensures |words[i]| < if i % 3 == 0 then 32 else 16 {
          assert i >= 3 ==> words[i] == rest[i - 3];
        }
      }
    }
  }

  /** The names of an accepted line are shorter than their fields. */
  lemma {:induction false} FittingNames(words: seq<string>, cnt: nat)
    requires |words| % 3 == 0 && IndexesFit(words, cnt)
    ensures forall index :: index in Triples(words) ==> |index.name| < NAME_WIDTH
    ensures cnt + |Triples(words)| <= MAX_INDEXES || words == []
  {
    if words == [] {
    } else {
      FittingNames(words[3..], cnt + 1);
    }
  }

  /** What one line amounts to; Wide where a word does not fit its field. */
  datatype Line = Skip | Bad | Wide | Good(mod: ModInfo)

  function LineOf(words: seq<string>): Line {
    if !Fits(words) then Wide else if Formed(words) then Good(Parsed(words)) else Bad
  }

  /** `analyse_line_index`; the model stops where the code would write behind a field. */
  method AnalyseLineIndex(text: string, blanks: string) returns (line: Line)
    ensures line == LineOf(Tokens(text, blanks))
  {
    ghost var words := Tokens(text, blanks);
    var scan := new Scanner(text);
    var name := scan.Next(blanks);
    if name.None? {
      return Bad;
    }
    assert words[1..] == Tokens(scan.rest, blanks);
    if |name.value| >= NAME_WIDTH {
      return Wide;
    }
    var wide, indexes := AnalyseIndexes(scan, blanks);
    line := if wide then Wide else if indexes.None? then Bad else Good(ModInfo(name.value, indexes.value));
  }

  /** The loop of analyse_line_index: three words an index. */
  method AnalyseIndexes(scan: Scanner, blanks: string) returns (wide: bool, result: Option<seq<IndexInfo>>)
    modifies scan
    ensures var words := old(Tokens(scan.rest, blanks));
            && (wide <==> !IndexesFit(words, 0))
            && (!wide ==> result == if |words| % 3 == 0 then Some(Triples(words)) else None)
  {
    ghost var words := Tokens(scan.rest, blanks);
    ghost var left := words;
    var indexes := [];
    PartlyBegun(words);
    var token := scan.Next(blanks);
    while token.Some?
      invariant left == Upcoming(token, scan.rest, blanks)
      invariant Partly(words, indexes, left)
      decreases |left|
    {
      ghost var behind := Tokens(scan.rest, blanks);
      assert left[1..] == behind;
      var index;
      wide, index, token := AnalyseIndex(scan, token.value, |indexes|, blanks);
      if wide || index.None? {
        PartlyFails(words, indexes, left, wide);
        return wide, None;
      }
      PartlyMore(words, indexes, left, index.value);
      indexes := indexes + [index.value];
      left := left[3..];
    }
    PartlyDone(words, indexes);
    return false, Some(indexes);
  }

  /** The words before `left` have become `indexes`. */
  predicate Partly(words: seq<string>, indexes: seq<IndexInfo>, left: seq<string>) {
    && |left| % 3 == |words| % 3
    && (|left| % 3 == 0 ==> indexes + Triples(left) == Triples(words))
    && (IndexesFit(left, |indexes|) <==> IndexesFit(words, 0))
  }

  lemma {:induction false} PartlyBegun(words: seq<string>)
    ensures Partly(words, [], words)
  {
    if |words| % 3 == 0 {
      assert [] + Triples(words) == Triples(words);
    }
  }

  lemma {:induction false} PartlyDone(words: seq<string>, indexes: seq<IndexInfo>)
    requires Partly(words, indexes, [])
    ensures IndexesFit(words, 0) && |words| % 3 == 0 && indexes == Triples(words)
  {
    assert Triples([]) == [] && indexes + [] == indexes;
  }

  lemma {:induction false} PartlyFails(words: seq<string>, indexes: seq<IndexInfo>, left: seq<string>, wide: bool)
    requires Partly(words, indexes, left) && left != [] && (wide <==> !OneFits(left[0], left[1..], |indexes|))
    requires wide || |left| < 3
    ensures wide <==> !IndexesFit(words, 0)
    ensures !wide ==> |words| % 3 != 0
  {
  }

  lemma {:induction false} PartlyMore(words: seq<string>, indexes: seq<IndexInfo>, left: seq<string>, index: IndexInfo)
    requires Partly(words, indexes, left) && |left| >= 3 && OneFits(left[0], left[1..], |indexes|)
    requires index == IndexInfo(left[0], left[1], left[2])
    ensures Partly(words, indexes + [index], left[3..])
  {
    OneTriple(left, index, indexes);
  }

  /** One round of the loop: index number cnt, named by the current token, and the token after it. */
  method AnalyseIndex(scan: Scanner, name: string, cnt: nat, blanks: string)
    returns (wide: bool, index: Option<IndexInfo>, token: Option<string>)
    modifies scan
    ensures var words := old(Tokens(scan.rest, blanks));
            && (wide <==> !OneFits(name, words, cnt))
            && (!wide ==>
                  if |words| < 2 then index == None
                  else index == Some(IndexInfo(name, words[0], words[1]))
                       && Upcoming(token, scan.rest, blanks) == words[2..])
  {
    ghost var words := Tokens(scan.rest, blanks);
    wide, index, token := true, None, None;
    if cnt >= MAX_INDEXES || |name| >= NAME_WIDTH {
      return;
    }
    var unit := scan.Next(blanks);
    ghost var behindUnit := Tokens(scan.rest, blanks);
    if unit.None? || |unit.value| >= TEXT_WIDTH {
      return unit.Some?, None, None;
    }
    assert words[1..] == behindUnit && words[0] == unit.value;
    var kind := scan.Next(blanks);
    ghost var behindKind := Tokens(scan.rest, blanks);
    if kind.None? || |kind.value| >= TEXT_WIDTH {
      return kind.Some?, None, None;
    }
    assert behindUnit[1..] == behindKind && words[1] == kind.value;
    wide, index := false, Some(IndexInfo(name, unit.value, kind.value));
    token := scan.Next(blanks);
    assert Upcoming(token, scan.rest, blanks) == behindKind;
  }

  // ----- modules against each other

  ghost predicate SharesIndex(p: ModInfo, q: ModInfo) {
    exists i, j :: 0 <= i < |p.indexes| && 0 <= j < |q.indexes| && p.indexes[i].name == q.indexes[j].name
  }

  ghost predicate Compatible(p: ModInfo, q: ModInfo) {
    p.name != q.name && !SharesIndex(p, q)
  }

  /** Module names are distinct and no index name occurs in two modules. */
  ghost predicate Consistent(mods: seq<ModInfo>) {
    forall i, j {:trigger Compatible(mods[j], mods[i])} :: 0 <= i < j < |mods| ==> Compatible(mods[j], mods[i])
  }

  /** The two inner loops of check_modinfo. */
  method SameIndex(p: ModInfo, q: ModInfo) returns (same: bool)
    ensures same <==> SharesIndex(p, q)
  {
    for i := 0 to |p.indexes|
      invariant forall a, b :: 0 <= a < i && 0 <= b < |q.indexes| ==> p.indexes[a].name != q.indexes[b].name
    {
      for j := 0 to |q.indexes|
        invariant forall b :: 0 <= b < j ==> p.indexes[i].name != q.indexes[b].name
      {
        if p.indexes[i].name == q.indexes[j].name {
          return true;
        }
      }
    }
    return false;
  }

  /** `check_modinfo`: walks the list behind its head. */
  method CheckModInfo(p: ModInfo, head: ModNode, ghost nodes: seq<ModNode>) returns (ok: bool)
    requires Listed(head.next, nodes)
    ensures ok <==> forall i :: 0 <= i < |nodes| ==> Compatible(p, nodes[i].info)
  {
    var q := head.next;
    ghost var k: nat := 0;
    while q != null
      invariant k <= |nodes| && q == NodeAt(nodes, k)
      invariant forall i :: 0 <= i < k ==> Compatible(p, nodes[i].info)
      decreases |nodes| - k
    {
      if p.name == q.info.name {
        assert !Compatible(p, nodes[k].info);
        return false;
      }
      var same := SameIndex(p, q.info);
      if same {
        assert !Compatible(p, nodes[k].info);
        return false;
      }
      q := q.next;
      k := k + 1;
    }
    return true;
  }

  // ----- the file

  /** What fgets delivers: non-empty pieces of less than MAX_LINE characters. */
  predicate Readable(lines: seq<string>) {
    forall i :: 0 <= i < |lines| ==> 0 < |lines[i]| < MAX_LINE
  }

  predicate TooLong(line: string)
    requires line != ""
  {
    |line| == MAX_LINE - 1 && line[|line| - 1] != '\n'
  }

  /** The buffer of 10240 characters is full without a newline. */
  lemma {:induction false} TooLongIff(line: string)
    requires line != ""
    ensures TooLong(line) <==> |line| == 10239 && line[|line| - 1] != '\n'
  {
  }

  function Classify(line: string, blanks: string): Line
    requires line != ""
  {
    if TooLong(line) then Bad
    else if Skipped(Cut(line), blanks) then Skip
    else LineOf(Tokens(Cut(line), blanks))
  }

  function ClassifyAll(lines: seq<string>, blanks: string): (all: seq<Line>)
    requires Readable(lines)
    ensures |all| == |lines|
  {
    seq(|lines|, i requires 0 <= i < |lines| => Classify(lines[i], blanks))
  }

  function ModOf(line: Line): seq<ModInfo> {
    if line.Good? then [line.mod] else []
  }

  /** The modules of the first k lines, in file order. */
  function Mods(all: seq<Line>, k: nat): seq<ModInfo>
    requires k <= |all|
  {
    if k == 0 then []
    else Mods(all, k - 1) + ModOf(all[k - 1])
  }

  predicate Faulty(line: Line) {
    line.Bad? || line.Wide?
  }

  ghost predicate NoFault(all: seq<Line>, k: nat)
    requires k <= |all|
  {
    k == 0 || (NoFault(all, k - 1) && !Faulty(all[k - 1]))
  }

  /** The first k lines are read without an error, and every word fits its field. */
  ghost predicate Acceptable(all: seq<Line>, k: nat)
    requires k <= |all|
  {
    NoFault(all, k) && Consistent(Mods(all, k))
  }

  lemma {:induction false} ModsGrow(all: seq<Line>, k: nat, n: nat)
    requires k <= n <= |all|
    ensures Mods(all, k) <= Mods(all, n)
  {
    if k == n {
    } else {
      ModsGrow(all, k, n - 1);
    }
  }

  /** A comment or blank line adds no module and is no fault. */
  lemma {:induction false} SkipAddsNothing(lines: seq<string>, k: nat)
    requires Readable(lines) && k < |lines| && !TooLong(lines[k]) && Skipped(Cut(lines[k]), BLANKS)
    ensures var all := ClassifyAll(lines, BLANKS);
            Mods(all, k + 1) == Mods(all, k) && (Acceptable(all, k + 1) <==> Acceptable(all, k))
  {
    var all := ClassifyAll(lines, BLANKS);
    assert all[k] == Skip;
    assert Mods(all, k) + [] == Mods(all, k);
  }

  lemma {:induction false} NoFaultBefore(all: seq<Line>, k: nat, n: nat)
    requires k <= n <= |all| && NoFault(all, n)
    ensures NoFault(all, k)
    ensures k < n ==> !Faulty(all[k])
  {
    if k == n {
    } else {
      NoFaultBefore(all, k, n - 1);
    }
  }

  lemma {:induction false} PrefixAcceptable(all: seq<Line>, k: nat, n: nat)
    requires k <= n <= |all| && Acceptable(all, n)
    ensures Acceptable(all, k)
  {
    NoFaultBefore(all, k, n);
    ModsGrow(all, k, n);
    var p, q := Mods(all, k), Mods(all, n);
    forall i, j | 0 <= i < j < |p| ensures Compatible(p[j], p[i]) {
      assert Compatible(q[j], q[i]);
    }
  }

  /** One module more keeps a list consistent exactly when it is compatible with those before it. */
  lemma {:induction false} OneMore(mods: seq<ModInfo>, mod: ModInfo)
    requires Consistent(mods)
    ensures Consistent(mods + [mod]) <==> forall i :: 0 <= i < |mods| ==> Compatible(mod, mods[i])
  {
    var all, n := mods + [mod], |mods|;
    if Consistent(all) {
      forall i | 0 <= i < n ensures Compatible(mod, mods[i]) {
        assert Compatible(all[n], all[i]);
      }
    }
    if forall i :: 0 <= i < n ==> Compatible(mod, mods[i]) {
      forall i, j | 0 <= i < j < n + 1 ensures Compatible(all[j], all[i]) {
        if j < n {
          assert Compatible(mods[j], mods[i]);
        }
      }
    }
  }

  method ReadLine(line: string, blanks: string) returns (result: Line)
    requires 0 < |line| < MAX_LINE
    ensures result == Classify(line, blanks)
  {
    if |line| == MAX_LINE - 1 && line[|line| - 1] != '\n' {
      return Bad;
    }
    var text := Cut(line);
    if Skipped(text, blanks) {
      return Skip;
    }
    result := AnalyseLineIndex(text, blanks);
  }

  /** One line more: its module, if it has one, is appended after check_modinfo. */
  method AddLine(line: Line, head: ModNode, last: ModNode, ghost nodes: seq<ModNode>, ghost mods: seq<ModInfo>)
    returns (verdict: Verdict, last': ModNode, ghost more: seq<ModNode>)
    requires Open(head, last, nodes, mods) && Consistent(mods)
    modifies last
    ensures Progress(verdict, if verdict.Fine? then mods + ModOf(line) else mods) ==
            AfterLine(Progress(Fine, mods), line)
    ensures Open(head, last', more, if verdict.Fine? then mods + ModOf(line) else mods)
    ensures Extends(last, nodes, last', more) && (last' == last || fresh(last'))
  {
    last', more := last, nodes;
    match line
    case Bad => return Rejected, last, nodes;
    case Wide => return Overrun, last, nodes;
    case Skip =>
      assert mods + [] == mods;
      return Fine, last, nodes;
    case Good(mod) =>
      OneMore(mods, mod);
      var ok := CheckModInfo(mod, head, nodes);
      if !ok {
        return Rejected, last, nodes;
      }
      verdict := Fine;
      last', more := AppendMod(head, last, nodes, mods, mod);
  }

  /** Either nothing or the one new node was added. */
  predicate Extends(last: ModNode, nodes: seq<ModNode>, last': ModNode, more: seq<ModNode>) {
    more == if last' == last then nodes else nodes + [last']
  }

  /** The lines up to k + 1 are acceptable when those up to k are and the next one is. */
  lemma {:induction false} OneLineMore(all: seq<Line>, k: nat)
    requires k < |all| && Acceptable(all, k)
    ensures Acceptable(all, k + 1) <==> !Faulty(all[k]) && Consistent(Mods(all, k) + ModOf(all[k]))
  {
    assert Mods(all, k + 1) == Mods(all, k) + ModOf(all[k]);
  }

  /** How the reading ends: without an error, with one, or where the code would write behind a field. */
  datatype Verdict = Fine | Rejected | Overrun

  /**
    `analyse_index_info_config`: succeeds exactly when every line is skipped or
    has one word and three for each index, all of them fit, module names are
    distinct and no two modules share an index name. The list keeps file order;
    after an error it holds a consistent prefix.
   */
  method AnalyseIndexInfoConfig(lines: seq<string>, head: ModNode) returns (verdict: Verdict, ghost nodes: seq<ModNode>)
    requires Readable(lines) && head.next == null
    modifies head
    ensures verdict == Fine <==> Acceptable(ClassifyAll(lines, BLANKS), |lines|)
    ensures verdict == Overrun <==> Overruns(ClassifyAll(lines, BLANKS), |lines|)
    ensures Listed(head.next, nodes) && Distinct(nodes) && fresh(nodes)
    ensures verdict == Fine ==> Infos(nodes) == Mods(ClassifyAll(lines, BLANKS), |lines|)
    ensures Consistent(Infos(nodes)) && Infos(nodes) <= Mods(ClassifyAll(lines, BLANKS), |lines|)
  {
    ghost var all := ClassifyAll(lines, BLANKS);
    ghost var steps := seq(|all| + 1, k requires 0 <= k <= |all| => After(all, k));
    StepsAre(lines, BLANKS, all, steps);
    var last;
    verdict, last, nodes := ReadLines(lines, BLANKS, steps, head);
    ListedDistinct(head.next, nodes);
    AfterIff(all, |all|);
    AfterPrefix(all, |all|);
    AfterConsistent(all, |all|);
    AfterOverrun(all, |all|);
  }

  /** The result of the loop after k lines, which an error no longer changes. */
  datatype Progress = Progress(verdict: Verdict, mods: seq<ModInfo>)

  ghost function After(all: seq<Line>, k: nat): Progress
    requires k <= |all|
  {
    if k == 0 then Progress(Fine, []) else AfterLine(After(all, k - 1), all[k - 1])
  }

  ghost function AfterLine(p: Progress, line: Line): Progress {
    if !p.verdict.Fine? then p
    else if line.Wide? then Progress(Overrun, p.mods)
    else if line.Bad? || !Consistent(p.mods + ModOf(line)) then Progress(Rejected, p.mods)
    else Progress(Fine, p.mods + ModOf(line))
  }

  lemma {:induction false} AfterIff(all: seq<Line>, k: nat)
    requires k <= |all|
    ensures After(all, k).verdict == Fine <==> Acceptable(all, k)
    ensures After(all, k).verdict == Fine ==> After(all, k).mods == Mods(all, k)
  {
    if k == 0 {
    } else {
      AfterIff(all, k - 1);
      AcceptableBefore(all, k);
      if After(all, k - 1).verdict.Fine? {
        OneLineMore(all, k - 1);
      }
    }
  }

  lemma {:induction false} AcceptableBefore(all: seq<Line>, k: nat)
    requires 0 < k <= |all|
    ensures Acceptable(all, k) ==> Acceptable(all, k - 1)
  {
    if Acceptable(all, k) {
      PrefixAcceptable(all, k - 1, k);
    }
  }

  lemma {:induction false} AfterConsistent(all: seq<Line>, k: nat)
    requires k <= |all|
    ensures Consistent(After(all, k).mods)
  {
    if k == 0 {
    } else {
      AfterConsistent(all, k - 1);
    }
  }

  lemma {:induction false} AfterPrefix(all: seq<Line>, k: nat)
    requires k <= |all|
    ensures After(all, k).mods <= Mods(all, k)
  {
    if k == 0 {
    } else {
      AfterPrefix(all, k - 1);
      AfterIff(all, k - 1);
      ModsGrow(all, k - 1, k);
    }
  }

  /** A word that does not fit comes before any other error. */
  ghost predicate Overruns(all: seq<Line>, k: nat)
    requires k <= |all|
  {
    exists j :: 0 <= j < k && all[j].Wide? && Acceptable(all, j)
  }

  lemma {:induction false} AfterOverrun(all: seq<Line>, k: nat)
    requires k <= |all|
    ensures After(all, k).verdict == Overrun <==> Overruns(all, k)
  {
    if k == 0 {
    } else {
      AfterOverrun(all, k - 1);
      AfterIff(all, k - 1);
      assert Overruns(all, k) <==> Overruns(all, k - 1) || (all[k - 1].Wide? && Acceptable(all, k - 1));
    }
  }

  /** The modules of a file have names that fit their fields. */
  lemma {:induction false} AcceptedNamesFit(lines: seq<string>, blanks: string, k: nat)
    requires Readable(lines) && k <= |lines|
    ensures forall mod :: mod in Mods(ClassifyAll(lines, blanks), k) ==> |mod.name| < NAME_WIDTH
  {
    var all := ClassifyAll(lines, blanks);
    forall i | 0 <= i < |all| ensures NameFits(all[i]) {
      LineNameFits(lines[i], blanks);
    }
    NamesFit(all, k);
  }

  predicate NameFits(line: Line) {
    line.Good? ==> |line.mod.name| < NAME_WIDTH
  }

  lemma {:induction false} LineNameFits(line: string, blanks: string)
    requires line != ""
    ensures NameFits(Classify(line, blanks))
  {
  }

  lemma {:induction false} NamesFit(all: seq<Line>, k: nat)
    requires k <= |all| && forall i :: 0 <= i < |all| ==> NameFits(all[i])
    ensures forall mod :: mod in Mods(all, k) ==> |mod.name| < NAME_WIDTH
  {
    if k == 0 {
    } else {
      NamesFit(all, k - 1);
    }
  }

  /** The results after 0, 1, .. lines. */
  ghost predicate Steps(lines: seq<string>, blanks: string, steps: seq<Progress>)
    requires Readable(lines)
  {
    && |steps| == |lines| + 1 && steps[0] == Progress(Fine, [])
    && forall k {:trigger AfterLine(steps[k], Classify(lines[k], blanks))} :: 0 <= k < |lines| ==>
         steps[k + 1] == AfterLine(steps[k], Classify(lines[k], blanks))
  }

  lemma {:induction false} StepsAre(lines: seq<string>, blanks: string, all: seq<Line>, steps: seq<Progress>)
    requires Readable(lines) && all == ClassifyAll(lines, blanks)
    requires |steps| == |all| + 1 && forall k :: 0 <= k <= |all| ==> steps[k] == After(all, k)
    ensures Steps(lines, blanks, steps)
  {
    forall k | 0 <= k < |lines| ensures steps[k + 1] == AfterLine(steps[k], Classify(lines[k], blanks)) {
      assert all[k] == Classify(lines[k], blanks);
      assert After(all, k + 1) == AfterLine(After(all, k), all[k]);
    }
  }

  lemma {:induction false} StepsAfterError(lines: seq<string>, blanks: string, steps: seq<Progress>, k: nat, n: nat)
    requires Readable(lines) && Steps(lines, blanks, steps) && k <= n <= |lines| && !steps[k].verdict.Fine?
    ensures steps[n] == steps[k]
  {
    if k == n {
    } else {
      StepsAfterError(lines, blanks, steps, k, n - 1);
      var p := AfterLine(steps[n - 1], Classify(lines[n - 1], blanks));
    }
  }

  lemma {:induction false} StepsConsistent(lines: seq<string>, blanks: string, steps: seq<Progress>, k: nat)
    requires Readable(lines) && Steps(lines, blanks, steps) && k <= |lines|
    ensures Consistent(steps[k].mods)
  {
    if k == 0 {
    } else {
      StepsConsistent(lines, blanks, steps, k - 1);
      var p := AfterLine(steps[k - 1], Classify(lines[k - 1], blanks));
    }
  }

  /** The loop of analyse_index_info_config. */
  method ReadLines(lines: seq<string>, blanks: string, ghost steps: seq<Progress>, head: ModNode)
    returns (verdict: Verdict, last: ModNode, ghost nodes: seq<ModNode>)
    requires Readable(lines) && Steps(lines, blanks, steps) && head.next == null
    modifies head
    ensures Open(head, last, nodes, steps[|lines|].mods) && fresh(nodes)
    ensures verdict == steps[|lines|].verdict
  {
    last, nodes := head, [];
    for k := 0 to |lines|
      invariant Open(head, last, nodes, steps[k].mods) && steps[k].verdict == Fine
      invariant fresh(nodes) && (last == head || fresh(last))
    {
      verdict, last, nodes := NextLine(lines, blanks, steps, k, head, last, nodes);
      if verdict != Fine {
        StepsAfterError(lines, blanks, steps, k + 1, |lines|);
        return;
      }
    }
    verdict := Fine;
  }

  method NextLine(lines: seq<string>, blanks: string, ghost steps: seq<Progress>, k: nat,
                  head: ModNode, last: ModNode, ghost nodes: seq<ModNode>)
    returns (verdict: Verdict, last': ModNode, ghost more: seq<ModNode>)
    requires Readable(lines) && Steps(lines, blanks, steps) && k < |lines|
    requires Open(head, last, nodes, steps[k].mods) && steps[k].verdict == Fine
    modifies last
    ensures Open(head, last', more, steps[k + 1].mods) && verdict == steps[k + 1].verdict
    ensures Extends(last, nodes, last', more) && (last' == last || fresh(last'))
  {
    StepsConsistent(lines, blanks, steps, k);
    var line := ReadLine(lines[k], blanks);
    ghost var next := AfterLine(steps[k], line);
    verdict, last', more := AddLine(line, head, last, nodes, steps[k].mods);
  }
}
