/**
  strtok_r of section 7.24.5.8 of ISO/IEC 9899:2011: tokens are the maximal runs
  of characters that are not delimiters, so runs of delimiters collapse. Strings
  are the characters before the terminating NUL; the scanner's saved pointer is
  the text that is left.
 */
module Strtok {
  import opened Common

  /** strspn: how many characters at the front are delimiters. */
  function Span(s: string, delims: string): (n: nat)
    ensures n <= |s| && (forall i :: 0 <= i < n ==> s[i] in delims) && (n < |s| ==> s[n] !in delims)
  {
    if s == "" || s[0] !in delims then 0 else 1 + Span(s[1..], delims)
  }

  /** strcspn: how many characters at the front are not delimiters. */
  function NonSpan(s: string, delims: string): (n: nat)
    ensures n <= |s| && (forall i :: 0 <= i < n ==> s[i] !in delims) && (n < |s| ==> s[n] in delims)
  {
    if s == "" || s[0] in delims then 0 else 1 + NonSpan(s[1..], delims)
  }

  /** All tokens of a text. */
  function Tokens(s: string, delims: string): seq<string>
    decreases |s|
  {
    if s == "" then []
    else if s[0] in delims then Tokens(s[1..], delims)
    else [s[..NonSpan(s, delims)]] + Tokens(s[NonSpan(s, delims)..], delims)
  }

  lemma {:induction false} SkipSpan(s: string, delims: string)
    ensures Tokens(s, delims) == Tokens(s[Span(s, delims)..], delims)
  {
    if s != "" && s[0] in delims {
      SkipSpan(s[1..], delims);
      assert s[1..][Span(s[1..], delims)..] == s[Span(s, delims)..];
    }
  }

  method Strspn(s: string, delims: string) returns (n: nat)
    ensures n == Span(s, delims)
  {
    n := 0;
    while n < |s| && s[n] in delims
      invariant n <= |s| && Span(s, delims) == n + Span(s[n..], delims)
    {
      assert s[n..][1..] == s[n + 1..];
      n := n + 1;
    }
  }

  method Strcspn(s: string, delims: string) returns (n: nat)
    ensures n == NonSpan(s, delims)
  {
    n := 0;
    while n < |s| && s[n] !in delims
      invariant n <= |s| && NonSpan(s, delims) == n + NonSpan(s[n..], delims)
    {
      assert s[n..][1..] == s[n + 1..];
      n := n + 1;
    }
  }

  /** The current token and those that are left. */
  function Upcoming(token: Option<string>, rest: string, delims: string): seq<string> {
    if token.Some? then [token.value] + Tokens(rest, delims) else []
  }

  class Scanner {
    var rest: string

    constructor (text: string)
      ensures rest == text
    {
      rest := text;
    }

    method Next(delims: string) returns (token: Option<string>)
      modifies this
      ensures Upcoming(token, rest, delims) == old(Tokens(rest, delims))
      ensures if token.Some? then |rest| < |old(rest)| else rest == ""
    {
      var start := Strspn(rest, delims);
      SkipSpan(rest, delims);
      if start == |rest| {
        rest := "";
        return None;
      }
      var t := rest[start..];
      var n := Strcspn(t, delims);
      assert n < |t| ==> t[n..][1..] == t[n + 1..];
      rest := if n < |t| then t[n + 1..] else "";
      return Some(t[..n]);
    }
  }

  // ----- tokens are clean

  predicate Free(s: string, delims: string) {
    forall i :: 0 <= i < |s| ==> s[i] !in delims
  }

  predicate Clean(token: string, delims: string) {
    token != "" && Free(token, delims)
  }

  lemma {:induction false} TokensAreClean(s: string, delims: string)
    ensures forall t :: t in Tokens(s, delims) ==> Clean(t, delims)
    decreases |s|
  {
    if s == "" {
    } else {
      TokensAreClean(if s[0] in delims then s[1..] else s[NonSpan(s, delims)..], delims);
    }
  }

  /** Tokens consist of characters of the text. */
  lemma {:induction false} TokensKeepChars(s: string, delims: string, c: char)
    requires c !in s
    ensures forall t :: t in Tokens(s, delims) ==> c !in t
    decreases |s|
  {
    if s == "" {
    } else {
      TokensKeepChars(if s[0] in delims then s[1..] else s[NonSpan(s, delims)..], delims, c);
    }
  }

  /** The text without its delimiters. */
  function Solid(s: string, delims: string): string {
    if s == "" then ""
    else if s[0] in delims then Solid(s[1..], delims)
    else [s[0]] + Solid(s[1..], delims)
  }

  function Flat(tokens: seq<string>): string {
    if tokens == [] then "" else tokens[0] + Flat(tokens[1..])
  }

  lemma {:induction false} SolidAppend(a: string, b: string, delims: string)
    ensures Solid(a + b, delims) == Solid(a, delims) + Solid(b, delims)
  {
    if a == "" {
      assert a + b == b;
    } else {
      assert (a + b)[1..] == a[1..] + b;
      SolidAppend(a[1..], b, delims);
    }
  }

  lemma {:induction false} SolidFree(s: string, delims: string)
    requires Free(s, delims)
    ensures Solid(s, delims) == s
  {
    if s == "" {
    } else {
      assert s[0] !in delims;
      SolidFree(s[1..], delims);
    }
  }

  /** Splitting loses and reorders nothing but delimiters. */
  lemma {:induction false} TokensAreSolid(s: string, delims: string)
    ensures Flat(Tokens(s, delims)) == Solid(s, delims)
    decreases |s|
  {
    if s == "" {
    } else {
      if s[0] in delims {
        TokensAreSolid(s[1..], delims);
      } else {
        var n := NonSpan(s, delims);
        assert s == s[..n] + s[n..];
        SolidAppend(s[..n], s[n..], delims);
        SolidFree(s[..n], delims);
        TokensAreSolid(s[n..], delims);
      }
    }
  }

  // ----- printing fields, each followed by a delimiter

  function Printed(fields: seq<string>, delim: char): string {
    if fields == [] then "" else fields[0] + [delim] + Printed(fields[1..], delim)
  }

  lemma {:induction false} PrintedAppend(a: seq<string>, b: seq<string>, delim: char)
    ensures Printed(a + b, delim) == Printed(a, delim) + Printed(b, delim)
  {
    if a == [] {
      assert a + b == b;
    } else {
      assert (a + b)[1..] == a[1..] + b;
      PrintedAppend(a[1..], b, delim);
    }
  }

  lemma {:induction false} PrintedOne(fields: seq<string>, f: string, delim: char)
    ensures Printed(fields + [f], delim) == Printed(fields, delim) + f + [delim]
  {
    PrintedAppend(fields, [f], delim);
    assert Printed([f], delim) == f + [delim] + "" == f + [delim];
  }

  /** No token reaches across a delimiter. */
  lemma {:induction false} TokensAcross(f: string, c: char, rest: string, delims: string)
    requires c in delims
    ensures Tokens(f + [c] + rest, delims) == Tokens(f, delims) + Tokens(rest, delims)
    decreases |f|
  {
    if f == "" {
      var s := f + [c] + rest;
      assert s[0] == c && s[1..] == rest;
    } else if f[0] in delims {
      var s := f + [c] + rest;
      assert s[1..] == f[1..] + [c] + rest;
      TokensAcross(f[1..], c, rest, delims);
    } else {
      var s, n := f + [c] + rest, NonSpan(f, delims);
      TokensAcross(f[n..], c, rest, delims);
      assert s[n..] == f[n..] + [c] + rest;
      AcrossFirst(f, s, n, Tokens(rest, delims), delims);
    }
  }

  /** The first word of a text is that of a longer one in which a delimiter follows. */
  lemma {:induction false} AcrossFirst(f: string, s: string, n: nat, more: seq<string>, delims: string)
    requires f <= s && |f| < |s| && s[|f|] in delims
    requires f != "" && f[0] !in delims && n == NonSpan(f, delims)
    requires Tokens(s[n..], delims) == Tokens(f[n..], delims) + more
    ensures Tokens(s, delims) == Tokens(f, delims) + more
  {
    SpanOfPrefix(f, s, delims);
    assert s[..n] == f[..n];
    FirstToken(f, n, delims);
    FirstToken(s, n, delims);
  }

  lemma {:induction false} FirstToken(s: string, n: nat, delims: string)
    requires s != "" && s[0] !in delims && n == NonSpan(s, delims)
    ensures n > 0 && Tokens(s, delims) == [s[..n]] + Tokens(s[n..], delims)
  {
  }

  lemma {:induction false} SpanOfPrefix(f: string, s: string, delims: string)
    requires f <= s && |f| < |s| && s[|f|] in delims
    ensures NonSpan(s, delims) == NonSpan(f, delims)
    decreases |f|
  {
    if f == "" {
    } else if f[0] !in delims {
      SpanOfPrefix(f[1..], s[1..], delims);
    }
  }

  /** A delimiter at the end of the text changes nothing. */
  lemma {:induction false} TrailingDelimiter(s: string, c: char, delims: string)
    requires c in delims
    ensures Tokens(s + [c], delims) == Tokens(s, delims)
  {
    assert s + [c] == s + [c] + "";
    TokensAcross(s, c, "", delims);
  }

  lemma {:induction false} OneToken(s: string, delims: string)
    requires Free(s, delims)
    ensures Tokens(s, delims) == if s == "" then [] else [s]
  {
    if s != "" {
      assert s[0] !in delims;
      assert NonSpan(s, delims) == |s| && s[..|s|] == s;
    }
  }

  /** What each field is cut into. */
  function Pieces(fields: seq<string>, delim: char): (parts: seq<seq<string>>)
    ensures |parts| == |fields|
  {
    seq(|fields|, i requires 0 <= i < |fields| => Tokens(fields[i], [delim]))
  }

  /** Splitting a printed list cuts every field by itself. */
  lemma {:induction false} SplitPrinted(fields: seq<string>, delim: char)
    ensures Tokens(Printed(fields, delim), [delim]) == Concat(Pieces(fields, delim), |fields|)
  {
    if fields == [] {
    } else {
      TokensAcross(fields[0], delim, Printed(fields[1..], delim), [delim]);
      SplitPrinted(fields[1..], delim);
      assert Pieces(fields, delim)[1..] == Pieces(fields[1..], delim);
      ConcatHead(Pieces(fields, delim), |fields|);
    }
  }

  /** Clean fields are cut into themselves. */
  lemma {:induction false} CleanPieces(fields: seq<string>, delim: char, k: nat)
    requires k <= |fields| && forall i :: 0 <= i < k ==> Clean(fields[i], [delim])
    ensures Concat(Pieces(fields, delim), k) == fields[..k]
  {
    if k == 0 {
    } else {
      CleanPieces(fields, delim, k - 1);
      OneToken(fields[k - 1], [delim]);
      assert fields[..k] == fields[..k - 1] + [fields[k - 1]];
    }
  }

  /** The list is recovered exactly when no field is empty or contains the delimiter. */
  lemma {:induction false} SplitRecoversIff(fields: seq<string>, delim: char)
    ensures Tokens(Printed(fields, delim), [delim]) == fields <==>
            forall i :: 0 <= i < |fields| ==> Clean(fields[i], [delim])
  {
    TokensAreClean(Printed(fields, delim), [delim]);
    if forall i :: 0 <= i < |fields| ==> Clean(fields[i], [delim]) {
      SplitPrinted(fields, delim);
      CleanPieces(fields, delim, |fields|);
    } else {
      var i :| 0 <= i < |fields| && !Clean(fields[i], [delim]);
      assert fields[i] in fields;
    }
  }

  // ----- where a field is found again

  /** The position at which field k begins after the split. */
  function TokenOffset(fields: seq<string>, delim: char, k: nat): nat
    requires k <= |fields|
  {
    |Concat(Pieces(fields, delim), k)|
  }

  /** A clean field is found at its offset, whatever the other fields are. */
  lemma {:induction false} FieldFound(fields: seq<string>, delim: char, k: nat)
    requires k < |fields| && Clean(fields[k], [delim])
    ensures var tokens, pos := Tokens(Printed(fields, delim), [delim]), TokenOffset(fields, delim, k);
            pos < |tokens| && tokens[pos] == fields[k]
  {
    SplitPrinted(fields, delim);
    OneToken(fields[k], [delim]);
    ConcatAt(Pieces(fields, delim), k, 0);
  }

  /** Tokens beyond one each that the first k fields are cut into: an empty field has one too few. */
  function Surplus(fields: seq<string>, delim: char, k: nat): int
    requires k <= |fields|
  {
    if k == 0 then 0 else Surplus(fields, delim, k - 1) + TokenCount(fields[k - 1], [delim]) - 1
  }

  lemma {:induction false} OffsetIsSurplus(fields: seq<string>, delim: char, k: nat)
    requires k <= |fields|
    ensures TokenOffset(fields, delim, k) == k + Surplus(fields, delim, k)
  {
    if k == 0 {
    } else {
      OffsetIsSurplus(fields, delim, k - 1);
      OffsetStep(fields, delim, k);
    }
  }

  function NonEmptyCount(fields: seq<string>, k: nat): nat
    requires k <= |fields|
  {
    if k == 0 then 0 else NonEmptyCount(fields, k - 1) + if fields[k - 1] == "" then 0 else 1
  }

  /** Among fields without delimiter an offset counts the non-empty ones, and is right exactly when all are. */
  lemma {:induction false} TokenOffsetIff(fields: seq<string>, delim: char, k: nat)
    requires k <= |fields| && forall i :: 0 <= i < k ==> Free(fields[i], [delim])
    ensures TokenOffset(fields, delim, k) == NonEmptyCount(fields, k) <= k
    ensures TokenOffset(fields, delim, k) == k <==> forall i :: 0 <= i < k ==> fields[i] != ""
  {
    if k == 0 {
    } else {
      TokenOffsetIff(fields, delim, k - 1);
      OffsetStep(fields, delim, k);
      OneOrNone(fields[k - 1], [delim]);
    }
  }

  lemma {:induction false} OffsetStep(fields: seq<string>, delim: char, k: nat)
    requires 0 < k <= |fields|
    ensures TokenOffset(fields, delim, k) == TokenOffset(fields, delim, k - 1) + TokenCount(fields[k - 1], [delim])
  {
  }

  function TokenCount(s: string, delims: string): nat {
    |Tokens(s, delims)|
  }

  lemma {:induction false} OneOrNone(s: string, delims: string)
    requires Free(s, delims)
    ensures TokenCount(s, delims) == if s == "" then 0 else 1
  {
    OneToken(s, delims);
  }
}
