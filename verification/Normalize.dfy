/**
 The statement normaliser of the audit log: comments are dropped, quoted and
 numeric literals become "?", and runs of blanks become one space.

 Statements, and the normalised texts, are strings of bytes: characters below
 U+0100. The scanner takes each byte for a code point of its own, so a byte from
 0x80 up is written as the two bytes of its UTF-8 encoding.
 */
module Normalize {
  // ----- characters

  predicate IsDigit(c: char) {
    '0' <= c <= '9'
  }

  predicate IsQuote(c: char) {
    c == '\'' || c == '"'
  }

  /** unicode.IsSpace on Latin-1. */
  predicate IsSpace(c: char) {
    c == ' ' || '\t' <= c <= '\r' || c == '\U{85}' || c == '\U{A0}'
  }

  predicate IsNumericByte(c: char) {
    IsDigit(c) || 'a' <= c <= 'z' || 'A' <= c <= 'Z' || c == '.' || c == '_'
  }

  /** The characters that make the "--" before them a comment. */
  predicate EndsDashDash(c: char) {
    c == ' ' || c == '\t' || c == '\n' || c == '\r' || c == '\U{0C}'
  }

  predicate IsDashDash(t: string) {
    |t| > 2 && t[0] == '-' && t[1] == '-' && EndsDashDash(t[2])
  }

  predicate IsBlockOpen(t: string) {
    |t| > 1 && t[0] == '/' && t[1] == '*'
  }

  /** A comment starts here. */
  predicate OpensComment(t: string) {
    t != "" && (IsDashDash(t) || t[0] == '#' || IsBlockOpen(t))
  }

  // ----- how far each kind of token reaches

  /** Characters up to the next line feed or the end. */
  function LineRest(t: string): (n: nat)
    ensures n <= |t| && (n < |t| ==> t[n] == '\n')
  {
    if t == "" || t[0] == '\n' then 0 else 1 + LineRest(t[1..])
  }

  /** Characters up to and including "*" "/". An unterminated comment leaves
      its last character unread. */
  function BlockRest(t: string): (n: nat)
    ensures n <= |t|
  {
    if |t| < 2 then 0
    else if t[0] == '*' && t[1] == '/' then 2
    else 1 + BlockRest(t[1..])
  }

  predicate BlockCloses(t: string) {
    |t| >= 2 && ((t[0] == '*' && t[1] == '/') || BlockCloses(t[1..]))
  }

  /** Characters up to and including the closing quote; a backslash hides the
      character after it. */
  function QuoteRest(t: string, quote: char): (n: nat)
    ensures n <= |t| && (t != "" ==> n > 0)
  {
    if t == "" then 0
    else if t[0] == '\\' && |t| > 1 then 2 + QuoteRest(t[2..], quote)
    else if t[0] == quote then 1
    else 1 + QuoteRest(t[1..], quote)
  }

  function NumberRest(t: string): (n: nat)
    ensures n <= |t| && (n < |t| ==> !IsNumericByte(t[n]))
    ensures forall k :: 0 <= k < n ==> IsNumericByte(t[k])
  {
    if t == "" || !IsNumericByte(t[0]) then 0 else 1 + NumberRest(t[1..])
  }

  // ----- tokens

  datatype Token =
    | Comment(closed: bool, text: string)
    | Quoted(text: string)
    | Number(text: string)
    | Blank(text: string)
    | Code(c: char)

  /** The length of the first token. */
  function TokenLength(t: string): (n: nat)
    requires t != ""
    ensures 1 <= n <= |t|
    ensures OpensComment(t) && t[0] != '#' ==> n >= 2
  {
    if IsDashDash(t) || t[0] == '#' then
      assert IsDashDash(t) ==> LineRest(t[1..]) == 1 + LineRest(t[1..][1..]);
      1 + LineRest(t[1..])
    else if IsBlockOpen(t) then 2 + BlockRest(t[2..])
    else if IsQuote(t[0]) then 1 + QuoteRest(t[1..], t[0])
    else if IsDigit(t[0]) then
      assert NumberRest(t) == 1 + NumberRest(t[1..]);
      NumberRest(t)
    else 1
  }

  function FirstToken(t: string): Token
    requires t != ""
  {
    var text := t[..TokenLength(t)];
    if IsDashDash(t) || t[0] == '#' then Comment(true, text)
    else if IsBlockOpen(t) then Comment(BlockCloses(t[2..]), text)
    else if IsQuote(t[0]) then Quoted(text)
    else if IsDigit(t[0]) then Number(text)
    else if IsSpace(t[0]) then Blank(text)
    else Code(t[0])
  }

  function Tokens(t: string): seq<Token> {
    if t == "" then [] else [FirstToken(t)] + Tokens(t[TokenLength(t)..])
  }

  // ----- writing tokens

  /** The output so far and the two flags of the writer. */
  datatype Pen = Pen(out: string, space: bool, placeholder: bool)

  const BLANK_PEN := Pen("", false, false)

  function Write(pen: Pen, token: Token): Pen {
    match token
    case Comment(_, _) => pen.(space := |pen.out| > 0)
    case Blank(_) => if |pen.out| > 0 then pen.(space := true) else pen
    case Quoted(_) => WritePlaceholder(pen)
    case Number(_) => WritePlaceholder(pen)
    case Code(c) =>
      var spaced := if pen.space && |pen.out| > 0 then pen.(out := pen.out + " ", space := false) else pen;
      spaced.(out := spaced.out + [c], placeholder := c == '?')
  }

  /** writeToken with "?". */
  function WritePlaceholder(pen: Pen): Pen {
    var spaced := if pen.space && |pen.out| > 0 then pen.(out := pen.out + " ", placeholder := false) else pen;
    if spaced.placeholder then spaced.(space := false)
    else Pen(spaced.out + "?", false, true)
  }

  function WriteAll(pen: Pen, tokens: seq<Token>): Pen
    decreases |tokens|
  {
    if tokens == [] then pen else WriteAll(Write(pen, tokens[0]), tokens[1..])
  }

  /** strings.TrimSpace, on code points. */
  function TrimSpace(t: string): string {
    if t == "" then ""
    else if IsSpace(t[0]) then TrimSpace(t[1..])
    else if IsSpace(t[|t| - 1]) then TrimSpace(t[..|t| - 1])
    else t
  }

  /** The normalised statement as code points. */
  function NormalForm(statement: string): string {
    TrimSpace(WriteAll(BLANK_PEN, Tokens(statement)).out)
  }

  // ----- the bytes of the output

  /** WriteRune on a code point below U+0100. */
  function Rune(c: char): (bytes: string)
    ensures bytes != ""
  {
    if c < '\U{80}' then [c]
    else if c < '\U{C0}' then ['\U{C2}', c]
    else ['\U{C3}', (0x80 + c as int % 0x40) as char]
  }

  function Utf8(t: string): (bytes: string)
    ensures bytes == "" <==> t == ""
  {
    if t == "" then "" else Utf8(t[..|t| - 1]) + Rune(t[|t| - 1])
  }

  lemma Utf8Snoc(t: string, c: char)
    ensures Utf8(t + [c]) == Utf8(t) + Rune(c)
  {
    assert (t + [c])[..|t|] == t;
  }

  /** The normalised statement as bytes. */
  function Logged(statement: string): string {
    Utf8(NormalForm(statement))
  }

  /** How many bytes the blank at the start or the end of the text has. */
  function LeadingBlank(t: string): (n: nat)
    ensures n <= |t|
  {
    if t != "" && t[0] < '\U{80}' && IsSpace(t[0]) then 1
    else if |t| > 1 && t[0] == '\U{C2}' && IsSpace(t[1]) && t[1] >= '\U{80}' then 2
    else 0
  }

  function TrailingBlank(t: string): (n: nat)
    ensures n <= |t|
  {
    if t != "" && t[|t| - 1] < '\U{80}' && IsSpace(t[|t| - 1]) then 1
    else if |t| > 1 && t[|t| - 2] == '\U{C2}' && IsSpace(t[|t| - 1]) && t[|t| - 1] >= '\U{80}' then 2
    else 0
  }

  /** strings.TrimSpace, on the UTF-8 encoding of code points below U+0100. */
  function TrimSpaceBytes(t: string): string {
    if LeadingBlank(t) > 0 then TrimSpaceBytes(t[LeadingBlank(t)..])
    else if TrailingBlank(t) > 0 then TrimSpaceBytes(t[..|t| - TrailingBlank(t)])
    else t
  }

  lemma Associate(a: string, b: string, c: string)
    ensures a + b + c == a + (b + c)
  {
  }

  lemma Utf8ConsSnoc(c: char, mid: string, last: char)
    requires Utf8([c] + mid) == Rune(c) + Utf8(mid)
    ensures Utf8([c] + (mid + [last])) == Rune(c) + Utf8(mid + [last])
  {
    Utf8Snoc([c] + mid, last);
    Utf8Snoc(mid, last);
    Associate([c], mid, [last]);
    Associate(Rune(c), Utf8(mid), Rune(last));
  }

  lemma {:induction false} Utf8Cons(c: char, rest: string)
    ensures Utf8([c] + rest) == Rune(c) + Utf8(rest)
    decreases |rest|
  {
    if rest == "" {
      Utf8OfOne(c);
      assert [c] + rest == [c] && Rune(c) + "" == Rune(c);
    } else {
      var n := |rest| - 1;
      assert rest == rest[..n] + [rest[n]];
      Utf8Cons(c, rest[..n]);
      Utf8ConsSnoc(c, rest[..n], rest[n]);
    }
  }

  lemma Utf8OfOne(c: char)
    ensures Utf8([c]) == Rune(c)
  {
    Utf8Snoc("", c);
    assert "" + [c] == [c] && "" + Rune(c) == Rune(c);
  }

  lemma {:induction false} TrimSpaceOfUtf8(t: string)
    ensures TrimSpaceBytes(Utf8(t)) == Utf8(TrimSpace(t))
  {
    if t != "" {
      TrimmedEnds(t);
      var bytes := Utf8(t);
      if IsSpace(t[0]) {
        assert TrimSpaceBytes(bytes) == TrimSpaceBytes(Utf8(t[1..]));
        TrimSpaceOfUtf8(t[1..]);
      } else if IsSpace(t[|t| - 1]) {
        assert TrimSpaceBytes(bytes) == TrimSpaceBytes(Utf8(t[..|t| - 1]));
        TrimSpaceOfUtf8(t[..|t| - 1]);
      }
    }
  }

  /** A blank at either end of the text is one at the same end of its bytes. */
  lemma TrimmedEnds(t: string)
    requires t != ""
    ensures var bytes, m, n := Utf8(t), LeadingBlank(Utf8(t)), TrailingBlank(Utf8(t));
            && (if IsSpace(t[0]) then m > 0 && bytes[m..] == Utf8(t[1..]) else m == 0)
            && (if IsSpace(t[|t| - 1]) then n > 0 && bytes[..|bytes| - n] == Utf8(t[..|t| - 1]) else n == 0)
  {
    Utf8Cons(t[0], t[1..]);
    assert t == [t[0]] + t[1..];
    LeadingRune(t[0], Utf8(t[1..]));
    TrailingRune(Utf8(t[..|t| - 1]), t[|t| - 1]);
  }

  lemma LeadingRune(c: char, rest: string)
    ensures LeadingBlank(Rune(c) + rest) == if IsSpace(c) then |Rune(c)| else 0
    ensures (Rune(c) + rest)[|Rune(c)|..] == rest
  {
  }

  lemma TrailingRune(front: string, c: char)
    ensures TrailingBlank(front + Rune(c)) == if IsSpace(c) then |Rune(c)| else 0
    ensures (front + Rune(c))[..|front|] == front
  {
  }

  // ----- the scanning loop

  method SkipLine(s: string, start: nat) returns (i: nat)
    requires start <= |s|
    ensures i == start + LineRest(s[start..])
  {
    i := start;
    while i < |s| && s[i] != '\n'
      invariant start <= i <= |s|
      invariant i + LineRest(s[i..]) == start + LineRest(s[start..])
    {
      assert s[i..][1..] == s[i + 1..];
      i := i + 1;
    }
  }

  method SkipBlock(s: string, start: nat) returns (i: nat)
    requires start <= |s|
    ensures i == start + BlockRest(s[start..])
  {
    i := start;
    while i + 1 < |s| && !(s[i] == '*' && s[i + 1] == '/')
      invariant start <= i <= |s|
      invariant i + BlockRest(s[i..]) == start + BlockRest(s[start..])
    {
      assert s[i..][1..] == s[i + 1..];
      i := i + 1;
    }
    if i + 1 < |s| {
      i := i + 2;
    }
  }

  method SkipQuote(s: string, start: nat, quote: char) returns (i: nat)
    requires start <= |s|
    ensures i == start + QuoteRest(s[start..], quote)
  {
    i := start;
    while i < |s|
      invariant start <= i <= |s|
      invariant i + QuoteRest(s[i..], quote) == start + QuoteRest(s[start..], quote)
      decreases |s| - i
    {
      if s[i] == '\\' && i + 1 < |s| {
        assert s[i..][2..] == s[i + 2..];
        i := i + 2;
        continue;
      }
      if s[i] == quote {
        i := i + 1;
        return;
      }
      assert s[i..][1..] == s[i + 1..];
      i := i + 1;
    }
  }

  method SkipNumber(s: string, start: nat) returns (i: nat)
    requires start <= |s|
    ensures i == start + NumberRest(s[start..])
  {
    i := start;
    while i < |s| && IsNumericByte(s[i])
      invariant start <= i <= |s|
      invariant i + NumberRest(s[i..]) == start + NumberRest(s[start..])
    {
      assert s[i..][1..] == s[i + 1..];
      i := i + 1;
    }
  }

  /** The builder and the two flags of the writer, as bytes, are those of the pen. */
  predicate Holds(out: string, lastWasSpace: bool, lastWasPlaceholder: bool, pen: Pen) {
    out == Utf8(pen.out) && lastWasSpace == pen.space && lastWasPlaceholder == pen.placeholder
  }

  /** One round of the scanning loop: reads the token at i and writes it. */
  method ScanToken(statement: string, start: nat, out: string, lastWasSpace: bool, lastWasPlaceholder: bool,
                   ghost pen: Pen)
    returns (i: nat, outAfter: string, spaceAfter: bool, placeholderAfter: bool)
    requires start < |statement| && Holds(out, lastWasSpace, lastWasPlaceholder, pen)
    ensures i == start + TokenLength(statement[start..])
    ensures Holds(outAfter, spaceAfter, placeholderAfter, Write(pen, FirstToken(statement[start..])))
  {
    i, outAfter, spaceAfter, placeholderAfter := start, out, lastWasSpace, lastWasPlaceholder;
    assert statement[i..][1..] == statement[i + 1..];
    var r := statement[i];
    if IsDashDashAt(statement, i) || r == '#' {
      i := SkipLine(statement, i + 1);
      spaceAfter := |out| > 0;
    } else if r == '/' && i + 1 < |statement| && statement[i + 1] == '*' {
      assert statement[i..][2..] == statement[i + 2..];
      i := SkipBlock(statement, i + 2);
      spaceAfter := |out| > 0;
    } else if r == '\'' || r == '"' {
      outAfter, spaceAfter, placeholderAfter := WriteToken(out, lastWasSpace, lastWasPlaceholder, pen);
      i := SkipQuote(statement, i + 1, r);
    } else if IsDigit(r) {
      outAfter, spaceAfter, placeholderAfter := WriteToken(out, lastWasSpace, lastWasPlaceholder, pen);
      i := SkipNumber(statement, i);
    } else if IsSpace(r) {
      if |out| > 0 {
        spaceAfter := true;
      }
      i := i + 1;
    } else {
      outAfter, spaceAfter, placeholderAfter := WriteCode(r, out, lastWasSpace, pen);
      i := i + 1;
    }
  }

  method WriteCode(r: char, out: string, lastWasSpace: bool, ghost pen: Pen)
    returns (outAfter: string, spaceAfter: bool, placeholderAfter: bool)
    requires out == Utf8(pen.out) && lastWasSpace == pen.space
    ensures Holds(outAfter, spaceAfter, placeholderAfter, Write(pen, Code(r)))
  {
    outAfter, spaceAfter := out, lastWasSpace;
    ghost var written := pen.out;
    if lastWasSpace && |out| > 0 {
      Utf8Snoc(written, ' ');
      outAfter := outAfter + " ";
      spaceAfter := false;
      written := written + " ";
    }
    Utf8Snoc(written, r);
    outAfter := outAfter + Rune(r);
    placeholderAfter := r == '?';
  }

  method NormalizeStatement(statement: string) returns (normalized: string)
    ensures normalized == Logged(statement)
  {
    var out, lastWasSpace, lastWasPlaceholder := "", false, false;
    ghost var pen := BLANK_PEN;
    var i := 0;
    assert statement[0..] == statement;
    while i < |statement|
      invariant 0 <= i <= |statement| && Holds(out, lastWasSpace, lastWasPlaceholder, pen)
      invariant WriteAll(pen, Tokens(statement[i..])) == WriteAll(BLANK_PEN, Tokens(statement))
      decreases |statement| - i
    {
      StepOneToken(statement, i, pen);
      ghost var token := FirstToken(statement[i..]);
      i, out, lastWasSpace, lastWasPlaceholder := ScanToken(statement, i, out, lastWasSpace, lastWasPlaceholder, pen);
      pen := Write(pen, token);
    }
    TrimSpaceOfUtf8(pen.out);
    normalized := TrimSpaceBytes(out);
  }

  predicate IsDashDashAt(s: string, i: nat)
    requires i < |s|
    ensures IsDashDashAt(s, i) <==> IsDashDash(s[i..])
  {
    if s[i] != '-' || i + 1 >= |s| || s[i + 1] != '-' then false
    else if i + 2 >= |s| then false
    else EndsDashDash(s[i + 2])
  }

  method WriteToken(out: string, lastWasSpace: bool, lastWasPlaceholder: bool, ghost pen: Pen)
    returns (outAfter: string, spaceAfter: bool, placeholderAfter: bool)
    requires Holds(out, lastWasSpace, lastWasPlaceholder, pen)
    ensures Holds(outAfter, spaceAfter, placeholderAfter, WritePlaceholder(pen))
  {
    outAfter, spaceAfter, placeholderAfter := out, lastWasSpace, lastWasPlaceholder;
    ghost var written := pen.out;
    if lastWasSpace && |out| > 0 {
      Utf8Snoc(written, ' ');
      outAfter := outAfter + " ";
      placeholderAfter := false;
      written := written + " ";
    }
    if placeholderAfter {
      spaceAfter := false;
      return;
    }
    Utf8Snoc(written, '?');
    outAfter := outAfter + "?";
    spaceAfter := false;
    placeholderAfter := true;
  }

  lemma StepOneToken(s: string, i: nat, pen: Pen)
    requires i < |s|
    ensures var t := s[i..];
            WriteAll(pen, Tokens(t)) == WriteAll(Write(pen, FirstToken(t)), Tokens(s[i + TokenLength(t)..]))
  {
    var t := s[i..];
    assert t[TokenLength(t)..] == s[i + TokenLength(t)..];
    assert Tokens(t)[0] == FirstToken(t) && Tokens(t)[1..] == Tokens(t[TokenLength(t)..]);
  }
}
