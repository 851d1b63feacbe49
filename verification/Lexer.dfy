/**
 The lexers of the statement classifier. scanSQL and
 hasTrailingStatementTerminator skip literals and comments in their own loops;
 callEndAt uses helpers that know doubled quotes and run to the end of an
 unterminated comment.

 Statements are strings of Unicode code points. The lexers themselves look at
 bytes, but compare them with ASCII characters only, and no byte of another code
 point's encoding is one; strings.Fields decodes code points.
 */
module Lexer {
  import opened Decisions
  import opened Normalize

  /** Whose skipping rules apply: the loops inside the scanners, or the helpers. */
  datatype Skipping = Inline | Helpers

  /** The same characters that end "--". */
  predicate IsSpaceByte(c: char) {
    EndsDashDash(c)
  }

  /** A block comment other than the versioned kind, whose body is executed. */
  predicate IsOrdinaryBlock(t: string) {
    IsBlockOpen(t) && !(|t| > 2 && t[2] == '!')
  }

  predicate IsVersioned(t: string) {
    |t| > 2 && t[0] == '/' && t[1] == '*' && t[2] == '!'
  }

  // ----- how far each kind of piece reaches

  /** Characters up to and including the next backquote. */
  function IdentRest(t: string): (n: nat)
    ensures n <= |t|
  {
    if t == "" then 0 else if t[0] == '`' then 1 else 1 + IdentRest(t[1..])
  }

  function IdentBody(t: string): string {
    if t == "" || t[0] == '`' then "" else [t[0]] + IdentBody(t[1..])
  }

  /** As QuoteRest, but a doubled quote is part of the literal. */
  function DoubledQuoteRest(t: string, quote: char): (n: nat)
    ensures n <= |t|
  {
    if t == "" then 0
    else if t[0] == '\\' && |t| > 1 then 2 + DoubledQuoteRest(t[2..], quote)
    else if t[0] == quote then
      if |t| > 1 && t[1] == quote then 2 + DoubledQuoteRest(t[2..], quote) else 1
    else 1 + DoubledQuoteRest(t[1..], quote)
  }

  function DoubledIdentRest(t: string): (n: nat)
    ensures n <= |t|
  {
    if t == "" then 0
    else if t[0] == '`' then
      if |t| > 1 && t[1] == '`' then 2 + DoubledIdentRest(t[2..]) else 1
    else 1 + DoubledIdentRest(t[1..])
  }

  /** As BlockRest, but an unterminated comment takes everything. */
  function WholeBlockRest(t: string): (n: nat)
    ensures n <= |t|
  {
    if BlockCloses(t) then BlockRest(t) else |t|
  }

  /** The length of the first piece of t. */
  function Length(rules: Skipping, t: string): (n: nat)
    requires t != ""
    ensures 1 <= n <= |t|
  {
    if IsQuote(t[0]) then 1 + (if rules.Inline? then QuoteRest(t[1..], t[0]) else DoubledQuoteRest(t[1..], t[0]))
    else if t[0] == '`' then 1 + (if rules.Inline? then IdentRest(t[1..]) else DoubledIdentRest(t[1..]))
    else if IsDashDash(t) then 2 + LineRest(t[2..])
    else if t[0] == '#' then 1 + LineRest(t[1..])
    else if IsOrdinaryBlock(t) then 2 + (if rules.Inline? then BlockRest(t[2..]) else WholeBlockRest(t[2..]))
    else 1
  }

  /** The first piece is one character of code. */
  predicate IsCode(t: string) {
    t != "" && !IsQuote(t[0]) && t[0] != '`' && !IsDashDash(t) && t[0] != '#' && !IsOrdinaryBlock(t)
  }

  function Falses(n: nat): (m: seq<bool>)
    ensures |m| == n && forall i :: 0 <= i < n ==> !m[i]
  {
    if n == 0 then [] else [false] + Falses(n - 1)
  }

  function Head(rules: Skipping, t: string): (m: seq<bool>)
    requires t != ""
    ensures |m| == Length(rules, t)
  {
    if IsCode(t) then [true] else Falses(Length(rules, t))
  }

  /** For each character, whether the lexer looks at it as code. */
  function Mask(rules: Skipping, t: string): (m: seq<bool>)
    ensures |m| == |t|
  {
    if t == "" then [] else Head(rules, t) + Mask(rules, t[Length(rules, t)..])
  }

  // ----- scanSQL

  function PieceOutput(t: string): string
    requires t != ""
  {
    if IsQuote(t[0]) then "?"
    else if t[0] == '`' then IdentBody(t[1..])
    else if IsCode(t) then [t[0]]
    else " "
  }

  function Scanned(t: string): string {
    if t == "" then "" else PieceOutput(t) + Scanned(t[Length(Inline, t)..])
  }

  predicate IsOrdinaryBlockAt(s: string, i: nat)
    requires i < |s|
    ensures IsOrdinaryBlockAt(s, i) <==> IsOrdinaryBlock(s[i..])
  {
    s[i] == '/' && i + 1 < |s| && s[i + 1] == '*' && !(i + 2 < |s| && s[i + 2] == '!')
  }

  method SkipIdentifier(s: string, start: nat, out: string) returns (i: nat, outAfter: string)
    requires start <= |s|
    ensures i == start + IdentRest(s[start..])
    ensures outAfter == out + IdentBody(s[start..])
  {
    i, outAfter := start, out;
    while i < |s|
      invariant start <= i <= |s|
      invariant i + IdentRest(s[i..]) == start + IdentRest(s[start..])
      invariant outAfter + IdentBody(s[i..]) == out + IdentBody(s[start..])
    {
      if s[i] == '`' {
        assert IdentBody(s[i..]) == "";
        i := i + 1;
        return;
      }
      assert s[i..][1..] == s[i + 1..];
      outAfter := outAfter + [s[i]];
      i := i + 1;
    }
    assert IdentBody(s[i..]) == "";
  }

  method ScanPiece(statement: string, start: nat, out: string) returns (i: nat, outAfter: string)
    requires start < |statement|
    ensures i == start + Length(Inline, statement[start..])
    ensures outAfter == out + PieceOutput(statement[start..])
  {
    i, outAfter := start, out;
    assert statement[i..][1..] == statement[i + 1..];
    var c := statement[i];
    if c == '\'' || c == '"' {
      outAfter := outAfter + "?";
      i := SkipQuote(statement, i + 1, c);
    } else if c == '`' {
      i, outAfter := SkipIdentifier(statement, i + 1, outAfter);
    } else if IsDashDashAt(statement, i) {
      assert statement[i..][2..] == statement[i + 2..];
      outAfter := outAfter + " ";
      i := SkipLine(statement, i + 2);
    } else if c == '#' {
      outAfter := outAfter + " ";
      i := SkipLine(statement, i + 1);
    } else if IsOrdinaryBlockAt(statement, i) {
      assert statement[i..][2..] == statement[i + 2..];
      outAfter := outAfter + " ";
      i := SkipBlock(statement, i + 2);
    } else {
      outAfter := outAfter + [c];
      i := i + 1;
    }
  }

  method ScanSQL(statement: string) returns (out: string)
    ensures out == Scanned(statement)
  {
    out := "";
    var i := 0;
    assert statement[0..] == statement;
    while i < |statement|
      invariant ScannedTo(statement, i, out)
      decreases |statement| - i
    {
      ScanOnePiece(statement, i, out);
      i, out := ScanPiece(statement, i, out);
    }
  }

  /** The first i characters have been scanned into out. */
  predicate ScannedTo(statement: string, i: int, out: string) {
    0 <= i <= |statement| && out + Scanned(statement[i..]) == Scanned(statement)
  }

  lemma ScanOnePiece(s: string, i: nat, out: string)
    requires i < |s| && ScannedTo(s, i, out)
    ensures ScannedTo(s, i + Length(Inline, s[i..]), out + PieceOutput(s[i..]))
  {
    var t := s[i..];
    assert t[Length(Inline, t)..] == s[i + Length(Inline, t)..];
    Associate(out, PieceOutput(t), Scanned(t[Length(Inline, t)..]));
  }

  // ----- hasTrailingStatementTerminator

  /** What the first piece makes of the last code byte seen. */
  function LastAfter(t: string, last: char): char
    requires t != ""
  {
    if IsQuote(t[0]) then '?'
    else if t[0] == '`' then '`'
    else if IsCode(t) && !IsSpaceByte(t[0]) then t[0]
    else last
  }

  function Last(t: string, last: char): char
    decreases |t|
  {
    if t == "" then last else Last(t[Length(Inline, t)..], LastAfter(t, last))
  }

  method PassPiece(statement: string, start: nat, last: char) returns (i: nat, lastAfter: char)
    requires start < |statement|
    ensures i == start + Length(Inline, statement[start..])
    ensures lastAfter == LastAfter(statement[start..], last)
  {
    i, lastAfter := start, last;
    assert statement[i..][1..] == statement[i + 1..];
    var c := statement[i];
    if c == '\'' || c == '"' {
      lastAfter := '?';
      i := SkipQuote(statement, i + 1, c);
    } else if c == '`' {
      lastAfter := '`';
      var after, body := SkipIdentifier(statement, i + 1, "");
      i := after;
    } else if IsDashDashAt(statement, i) {
      assert statement[i..][2..] == statement[i + 2..];
      i := SkipLine(statement, i + 2);
    } else if c == '#' {
      i := SkipLine(statement, i + 1);
    } else if IsOrdinaryBlockAt(statement, i) {
      assert statement[i..][2..] == statement[i + 2..];
      i := SkipBlock(statement, i + 2);
    } else {
      if !IsSpaceByte(c) {
        lastAfter := c;
      }
      i := i + 1;
    }
  }

  method HasTrailingStatementTerminator(statement: string) returns (trailing: bool)
    ensures trailing <==> Last(statement, '\0') == ';'
  {
    var last := '\0';
    var i := 0;
    assert statement[0..] == statement;
    while i < |statement|
      invariant 0 <= i <= |statement|
      invariant Last(statement[i..], last) == Last(statement, '\0')
      decreases |statement| - i
    {
      ghost var t := statement[i..];
      assert t[Length(Inline, t)..] == statement[i + Length(Inline, t)..];
      i, last := PassPiece(statement, i, last);
    }
    return last == ';';
  }

  // ----- callEndAt

  function Shifted(end: int, n: nat): int {
    if end < 0 then -1 else end + n
  }

  /** Where the group that is `depth` deep at the start of t ends, or -1. */
  function CallEnd(t: string, depth: nat): int
    decreases |t|
  {
    if t == "" then -1
    else if IsCode(t) && t[0] == '(' then Shifted(CallEnd(t[1..], depth + 1), 1)
    else if IsCode(t) && t[0] == ')' then
      if depth == 0 then -1 else if depth == 1 then 1 else Shifted(CallEnd(t[1..], depth - 1), 1)
    else Shifted(CallEnd(t[Length(Helpers, t)..], depth), Length(Helpers, t))
  }

  method SkipQuotedString(source: string, start: nat) returns (i: nat)
    requires start < |source|
    ensures i == start + 1 + DoubledQuoteRest(source[start + 1..], source[start])
  {
    var quote := source[start];
    i := start + 1;
    while i < |source|
      invariant start < i <= |source|
      invariant i + DoubledQuoteRest(source[i..], quote) == start + 1 + DoubledQuoteRest(source[start + 1..], quote)
      decreases |source| - i
    {
      assert source[i..][1..] == source[i + 1..];
      assert |source[i..]| > 1 ==> source[i..][2..] == source[i + 2..];
      if source[i] == '\\' && i + 1 < |source| {
        i := i + 2;
        continue;
      }
      if source[i] == quote {
        i := i + 1;
        if i < |source| && source[i] == quote {
          i := i + 1;
          continue;
        }
        return;
      }
      i := i + 1;
    }
    return |source|;
  }

  method SkipQuotedIdentifier(source: string, start: nat) returns (i: nat)
    requires start < |source|
    ensures i == start + 1 + DoubledIdentRest(source[start + 1..])
  {
    i := start + 1;
    while i < |source|
      invariant start < i <= |source|
      invariant i + DoubledIdentRest(source[i..]) == start + 1 + DoubledIdentRest(source[start + 1..])
      decreases |source| - i
    {
      assert source[i..][1..] == source[i + 1..];
      assert |source[i..]| > 1 ==> source[i..][2..] == source[i + 2..];
      if source[i] == '`' {
        i := i + 1;
        if i < |source| && source[i] == '`' {
          i := i + 1;
          continue;
        }
        return;
      }
      i := i + 1;
    }
    return |source|;
  }

  method SkipBlockComment(source: string, start: nat) returns (i: nat)
    requires start <= |source|
    ensures i == start + WholeBlockRest(source[start..])
  {
    i := start;
    while i + 1 < |source| && !(source[i] == '*' && source[i + 1] == '/')
      invariant start <= i <= |source|
      invariant BlockCloses(source[i..]) <==> BlockCloses(source[start..])
      invariant i + BlockRest(source[i..]) == start + BlockRest(source[start..])
    {
      assert source[i..][1..] == source[i + 1..];
      i := i + 1;
    }
    if i + 1 < |source| {
      return i + 2;
    }
    return |source|;
  }

  /** One step over a piece that is not a parenthesis. */
  method SkipPiece(source: string, start: nat) returns (i: nat)
    requires start < |source|
    ensures i == start + Length(Helpers, source[start..])
  {
    i := start;
    assert source[i..][1..] == source[i + 1..];
    if source[i] == '\'' || source[i] == '"' {
      i := SkipQuotedString(source, i);
    } else if source[i] == '`' {
      i := SkipQuotedIdentifier(source, i);
    } else if IsDashDashAt(source, i) {
      assert source[i..][2..] == source[i + 2..];
      i := SkipLine(source, i + 2);
    } else if source[i] == '#' {
      i := SkipLine(source, i + 1);
    } else if IsOrdinaryBlockAt(source, i) {
      assert source[i..][2..] == source[i + 2..];
      i := SkipBlockComment(source, i + 2);
    } else {
      i := i + 1;
    }
  }

  /** Inside a literal or a comment, or at other code. */
  method CallEndAt(source: string, offset: nat) returns (end: int)
    ensures end == if offset <= |source| then Shifted(CallEnd(source[offset..], 0), offset) else -1
  {
    if offset > |source| {
      return -1;
    }
    var depth: nat := 0;
    var idx := offset;
    ghost var goal := Shifted(CallEnd(source[offset..], 0), offset);
    while idx < |source|
      invariant offset <= idx <= |source|
      invariant goal == Shifted(CallEnd(source[idx..], depth), idx)
      decreases |source| - idx
    {
      ghost var t := source[idx..];
      assert t[Length(Helpers, t)..] == source[idx + Length(Helpers, t)..];
      assert t[1..] == source[idx + 1..];
      if source[idx] == '(' {
        depth := depth + 1;
        idx := idx + 1;
      } else if source[idx] == ')' {
        if depth == 0 {
          return -1;
        }
        depth := depth - 1;
        idx := idx + 1;
        if depth == 0 {
          return idx;
        }
      } else {
        idx := SkipPiece(source, idx);
      }
    }
    return -1;
  }

  // ----- normalize and the lexical part of Classify

  /** unicode.IsSpace. */
  predicate IsFieldSpace(c: char) {
    || '\t' <= c <= '\r' || c == ' ' || c == '\U{85}' || c == '\U{A0}' || c == '\U{1680}'
    || '\U{2000}' <= c <= '\U{200A}' || c == '\U{2028}' || c == '\U{2029}' || c == '\U{202F}'
    || c == '\U{205F}' || c == '\U{3000}'
  }

  function WordLength(t: string): (n: nat)
    ensures n <= |t| && (n < |t| ==> IsFieldSpace(t[n]))
    ensures forall k :: 0 <= k < n ==> !IsFieldSpace(t[k])
  {
    if t == "" || IsFieldSpace(t[0]) then 0 else 1 + WordLength(t[1..])
  }

  /** strings.Fields. */
  function Fields(t: string): seq<string> {
    if t == "" then []
    else if IsFieldSpace(t[0]) then Fields(t[1..])
    else [t[..WordLength(t)]] + Fields(t[WordLength(t)..])
  }

  /** strings.Join with a space. */
  function Joined(words: seq<string>): string {
    if words == [] then ""
    else if |words| == 1 then words[0]
    else words[0] + " " + Joined(words[1..])
  }

  function Normalized(statement: string): string {
    Joined(Fields(Scanned(statement)))
  }

  /** strings.Contains(t, "/" + "*!"). */
  predicate HasVersioned(t: string) {
    exists i :: 0 <= i < |t| && IsVersioned(t[i..])
  }

  const REJECT := Decision(Reject, [])

  /** Classify, with the verdict of the parser and of the tree visitors as an
      argument. */
  method Classify(statement: string, parsed: Decision) returns (d: Decision)
    ensures d == if Normalized(statement) == "" || HasVersioned(Normalized(statement)) then REJECT else parsed
  {
    var scanned := ScanSQL(statement);
    var normalized := Joined(Fields(scanned));
    if normalized == "" {
      return REJECT;
    }
    if HasVersioned(normalized) {
      return REJECT;
    }
    return parsed;
  }
}
