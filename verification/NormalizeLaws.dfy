/** What the audit log may rely on in a normalised statement. */
module NormalizeLaws {
  import opened Normalize

  // ----- the characters and spacing of the output

  predicate Plain(c: char) {
    !IsDigit(c) && !IsQuote(c) && c != '#'
  }

  /** Blanks are single spaces between other characters. */
  predicate WellSpaced(t: string) {
    forall i :: 0 <= i < |t| && IsSpace(t[i]) ==> t[i] == ' ' && 0 < i < |t| - 1 && t[i + 1] != ' '
  }

  predicate AllPlain(t: string) {
    forall i :: 0 <= i < |t| ==> Plain(t[i])
  }

  predicate CodeIsPlain(token: Token) {
    token.Code? ==> Plain(token.c) && !IsSpace(token.c)
  }

  lemma {:induction false} TokensArePlain(t: string, i: nat)
    requires i < |Tokens(t)|
    ensures CodeIsPlain(Tokens(t)[i])
    ensures Tokens(t)[i].Code? ==> Tokens(t)[i].c in t
    decreases i
  {
    if i > 0 {
      TokensArePlain(t[TokenLength(t)..], i - 1);
    }
  }

  lemma AppendKeepsSpacing(t: string, c: char)
    requires WellSpaced(t) && !IsSpace(c)
    ensures WellSpaced(t + [c])
    ensures t != "" ==> WellSpaced(t + " " + [c])
  {
    if t != "" {
      assert !IsSpace(t[|t| - 1]);
    }
  }

  lemma WriteKeepsForm(pen: Pen, token: Token)
    requires WellSpaced(pen.out) && AllPlain(pen.out) && CodeIsPlain(token)
    ensures WellSpaced(Write(pen, token).out) && AllPlain(Write(pen, token).out)
  {
    if token.Code? {
      AppendKeepsSpacing(pen.out, token.c);
    }
    AppendKeepsSpacing(pen.out, '?');
  }

  lemma {:induction false} WriteAllKeepsForm(pen: Pen, tokens: seq<Token>)
    requires WellSpaced(pen.out) && AllPlain(pen.out)
    requires forall i :: 0 <= i < |tokens| ==> CodeIsPlain(tokens[i])
    ensures WellSpaced(WriteAll(pen, tokens).out) && AllPlain(WriteAll(pen, tokens).out)
    decreases |tokens|
  {
    if tokens != [] {
      WriteKeepsForm(pen, tokens[0]);
      WriteAllKeepsForm(Write(pen, tokens[0]), tokens[1..]);
    }
  }

  /** Every normalised statement is free of digits, quotes and "#" and is spaced
      by single spaces; the final trim removes nothing. */
  lemma OutputForm(statement: string)
    ensures AllPlain(NormalForm(statement)) && WellSpaced(NormalForm(statement))
    ensures NormalForm(statement) == WriteAll(BLANK_PEN, Tokens(statement)).out
  {
    forall i | 0 <= i < |Tokens(statement)| ensures CodeIsPlain(Tokens(statement)[i]) {
      TokensArePlain(statement, i);
    }
    WriteAllKeepsForm(BLANK_PEN, Tokens(statement));
  }

  // ----- code is kept

  /** The text without spaces and question marks. */
  function Bare(t: string): string {
    if t == "" then ""
    else
      var c := t[|t| - 1];
      Bare(t[..|t| - 1]) + if c == ' ' || c == '?' then "" else [c]
  }

  /** The characters of code, without bare question marks. */
  function CodeOf(tokens: seq<Token>): string {
    if tokens == [] then "" else CodeIn(tokens[0]) + CodeOf(tokens[1..])
  }

  function CodeIn(token: Token): string {
    if token.Code? && token.c != '?' then [token.c] else ""
  }

  lemma BareSnoc(t: string, c: char)
    ensures Bare(t + [c]) == Bare(t) + if c == ' ' || c == '?' then "" else [c]
  {
    assert (t + [c])[..|t|] == t;
  }

  lemma WriteKeepsCode(pen: Pen, token: Token)
    requires token.Code? ==> !IsSpace(token.c)
    ensures Bare(Write(pen, token).out) == Bare(pen.out) + CodeIn(token)
  {
    BareSnoc(pen.out, ' ');
    BareSnoc(pen.out, '?');
    BareSnoc(pen.out + " ", '?');
    if token.Code? {
      BareSnoc(pen.out, token.c);
      BareSnoc(pen.out + " ", token.c);
    }
  }

  lemma {:induction false} WriteAllKeepsCode(pen: Pen, tokens: seq<Token>)
    requires forall i :: 0 <= i < |tokens| ==> CodeIsPlain(tokens[i])
    ensures Bare(WriteAll(pen, tokens).out) == Bare(pen.out) + CodeOf(tokens)
    decreases |tokens|
  {
    if tokens != [] {
      var next := Write(pen, tokens[0]);
      assert CodeIsPlain(tokens[0]);
      WriteKeepsCode(pen, tokens[0]);
      WriteAllKeepsCode(next, tokens[1..]);
      Associate(Bare(pen.out), CodeIn(tokens[0]), CodeOf(tokens[1..]));
    }
  }

  /** But for spaces and marks, what is written is the code of the statement,
      every character of it and nothing else, in order. */
  lemma OutputIsCode(statement: string)
    ensures Bare(NormalForm(statement)) == CodeOf(Tokens(statement))
  {
    OutputForm(statement);
    forall i | 0 <= i < |Tokens(statement)| ensures CodeIsPlain(Tokens(statement)[i]) {
      TokensArePlain(statement, i);
    }
    WriteAllKeepsCode(BLANK_PEN, Tokens(statement));
  }

  // ----- doubled placeholders

  predicate Doubled(t: string) {
    exists i :: 0 <= i < |t| - 1 && t[i] == '?' && t[i + 1] == '?'
  }

  predicate IsMark(token: Token) {
    token.Quoted? || token.Number? || token == Code('?')
  }

  predicate MarkThenQuestion(tokens: seq<Token>) {
    exists i :: 0 < i < |tokens| && tokens[i] == Code('?') && IsMark(tokens[i - 1])
  }

  /** The flags say what the output ends in. */
  predicate PenInStep(pen: Pen, afterMark: bool) {
    && (pen.placeholder <==> |pen.out| > 0 && pen.out[|pen.out| - 1] == '?')
    && (pen.space ==> |pen.out| > 0)
    && (afterMark <==> pen.placeholder && !pen.space)
  }

  lemma AppendDoubles(t: string, c: char)
    ensures Doubled(t + [c]) <==> Doubled(t) || (|t| > 0 && t[|t| - 1] == '?' && c == '?')
    ensures t != "" ==> (Doubled(t + " " + [c]) <==> Doubled(t))
  {
    var u := t + [c];
    if Doubled(t) {
      var i :| 0 <= i < |t| - 1 && t[i] == '?' && t[i + 1] == '?';
      assert u[i] == '?' && u[i + 1] == '?';
      var w := t + " " + [c];
      assert w[i] == '?' && w[i + 1] == '?';
    }
    if |t| > 0 && t[|t| - 1] == '?' && c == '?' {
      assert u[|t| - 1] == '?' && u[|t|] == '?';
    }
  }

  lemma WriteDoubles(pen: Pen, afterMark: bool, token: Token)
    requires PenInStep(pen, afterMark)
    ensures PenInStep(Write(pen, token), IsMark(token))
    ensures Doubled(Write(pen, token).out) <==> Doubled(pen.out) || (afterMark && token == Code('?'))
  {
    AppendDoubles(pen.out, '?');
    if token.Code? {
      AppendDoubles(pen.out, token.c);
    }
  }

  lemma {:induction false} WriteAllDoubles(pen: Pen, afterMark: bool, tokens: seq<Token>)
    requires PenInStep(pen, afterMark)
    ensures Doubled(WriteAll(pen, tokens).out) <==>
            Doubled(pen.out) || (afterMark && tokens != [] && tokens[0] == Code('?')) || MarkThenQuestion(tokens)
    decreases |tokens|
  {
    if tokens != [] {
      var rest := tokens[1..];
      WriteDoubles(pen, afterMark, tokens[0]);
      WriteAllDoubles(Write(pen, tokens[0]), IsMark(tokens[0]), rest);
      if MarkThenQuestion(rest) {
        var i :| 0 < i < |rest| && rest[i] == Code('?') && IsMark(rest[i - 1]);
        assert tokens[i + 1] == Code('?') && IsMark(tokens[i + 1 - 1]);
      }
      if MarkThenQuestion(tokens) {
        var i :| 0 < i < |tokens| && tokens[i] == Code('?') && IsMark(tokens[i - 1]);
        if i > 1 {
          assert rest[i - 1] == Code('?') && IsMark(rest[i - 1 - 1]);
        } else {
          assert rest[0] == Code('?');
        }
      }
      if rest != [] && rest[0] == Code('?') && IsMark(tokens[0]) {
        assert tokens[1] == Code('?') && IsMark(tokens[1 - 1]);
      }
    }
  }

  /** "??" is written exactly when a bare question mark directly follows a
      literal or another question mark; never when the statement has no "?". */
  lemma DoubledPlaceholderIff(statement: string)
    ensures Doubled(NormalForm(statement)) <==> MarkThenQuestion(Tokens(statement))
    ensures '?' !in statement ==> !Doubled(NormalForm(statement))
  {
    OutputForm(statement);
    WriteAllDoubles(BLANK_PEN, false, Tokens(statement));
    if i :| 0 < i < |Tokens(statement)| && Tokens(statement)[i] == Code('?') && IsMark(Tokens(statement)[i - 1]) {
      TokensArePlain(statement, i);
    }
  }

  // ----- the output depends on the tokens' kinds only

  function Skeleton(token: Token): Token {
    match token
    case Comment(_, _) => Comment(true, "")
    case Blank(_) => Blank("")
    case Quoted(_) => Quoted("")
    case Number(_) => Quoted("")
    case Code(c) => Code(c)
  }

  predicate SameSkeleton(a: seq<Token>, b: seq<Token>) {
    |a| == |b| && forall i :: 0 <= i < |a| ==> Skeleton(a[i]) == Skeleton(b[i])
  }

  lemma {:induction false} SkeletonDecides(pen: Pen, a: seq<Token>, b: seq<Token>)
    requires SameSkeleton(a, b)
    ensures WriteAll(pen, a) == WriteAll(pen, b)
    decreases |a|
  {
    if a != [] {
      assert Skeleton(a[0]) == Skeleton(b[0]);
      assert Write(pen, a[0]) == Write(pen, b[0]);
      SkeletonDecides(Write(pen, a[0]), a[1..], b[1..]);
    }
  }

  /** The first n characters of t are whole tokens, none an open comment. */
  predicate Boundary(t: string, n: nat)
    decreases n
  {
    n == 0 ||
    (t != "" && TokenLength(t) <= n && !(FirstToken(t).Comment? && !FirstToken(t).closed)
     && Boundary(t[TokenLength(t)..], n - TokenLength(t)))
  }

  /** The two texts begin with the same kind of literal or comment. */
  predicate SameOpening(u: string, v: string) {
    && u != "" && v != ""
    && (|| (IsQuote(u[0]) && IsQuote(v[0]))
        || (IsDigit(u[0]) && IsDigit(v[0]))
        || (u[0] == '#' && v[0] == '#')
        || (IsBlockOpen(u) && IsBlockOpen(v))
        || (IsDashDash(u) && IsDashDash(v)))
  }

  lemma {:induction false} LineRestLocal(x: string, u: string, v: string)
    requires LineRest(x + u) < |x|
    ensures LineRest(x + v) == LineRest(x + u)
    decreases |x|
  {
    if x[0] != '\n' {
      assert (x + u)[1..] == x[1..] + u && (x + v)[1..] == x[1..] + v;
      LineRestLocal(x[1..], u, v);
    }
  }

  lemma {:induction false} BlockRestLocal(x: string, u: string, v: string)
    requires BlockCloses(x + u) && BlockRest(x + u) <= |x|
    ensures BlockCloses(x + v) && BlockRest(x + v) == BlockRest(x + u)
    decreases |x|
  {
    BlockRestPositive(x + u);
    assert |x| >= 2;
    assert (x + u)[0] == x[0] == (x + v)[0] && (x + u)[1] == x[1] == (x + v)[1];
    if !(x[0] == '*' && x[1] == '/') {
      assert (x + u)[1..] == x[1..] + u && (x + v)[1..] == x[1..] + v;
      BlockRestLocal(x[1..], u, v);
    }
  }

  lemma {:induction false} BlockRestPositive(t: string)
    requires BlockCloses(t)
    ensures BlockRest(t) >= 2
    decreases |t|
  {
    if !(t[0] == '*' && t[1] == '/') {
      BlockRestPositive(t[1..]);
    }
  }

  lemma EmptyPrefix(u: string)
    ensures "" + u == u
  {
  }

  lemma {:induction false} QuoteRestLocal(x: string, u: string, v: string, quote: char)
    requires u != "" && v != "" && QuoteRest(x + u, quote) <= |x|
    ensures QuoteRest(x + v, quote) == QuoteRest(x + u, quote)
    decreases |x|
  {
    if x == "" {
      EmptyPrefix(u);
    } else if x[0] == '\\' {
      if |x| > 1 {
        assert (x + u)[2..] == x[2..] + u && (x + v)[2..] == x[2..] + v;
        QuoteRestLocal(x[2..], u, v, quote);
      }
    } else if x[0] != quote {
      assert (x + u)[1..] == x[1..] + u && (x + v)[1..] == x[1..] + v;
      QuoteRestLocal(x[1..], u, v, quote);
    }
  }

  lemma {:induction false} NumberRestLocal(x: string, u: string, v: string)
    requires u != "" && v != "" && NumberRest(x + u) <= |x|
    requires IsNumericByte(v[0]) ==> IsNumericByte(u[0])
    ensures NumberRest(x + v) == NumberRest(x + u)
    decreases |x|
  {
    if x == "" {
      assert x + u == u && x + v == v;
    } else if IsNumericByte(x[0]) {
      assert (x + u)[1..] == x[1..] + u && (x + v)[1..] == x[1..] + v;
      NumberRestLocal(x[1..], u, v);
    }
  }

  lemma SameFirstKind(x: string, u: string, v: string)
    requires x != "" && SameOpening(u, v)
    ensures IsDashDash(x + u) <==> IsDashDash(x + v)
    ensures IsBlockOpen(x + u) <==> IsBlockOpen(x + v)
    ensures IsBlockOpen(x + u) && |x| == 1 ==> false
    ensures IsDashDash(x + u) ==> |x| >= 3
  {
    var t, w := x + u, x + v;
    assert t[0] == w[0] == x[0];
    if |x| == 1 {
      assert t[1] == u[0] && w[1] == v[0];
      assert |u| > 1 ==> t[2] == u[1];
      assert |v| > 1 ==> w[2] == v[1];
    } else if |x| == 2 {
      assert t[1] == w[1] == x[1] && t[2] == u[0] && w[2] == v[0];
    } else {
      assert t[1] == w[1] == x[1] && t[2] == w[2] == x[2];
    }
  }

  lemma TokenLengthLocal(x: string, u: string, v: string)
    requires x != "" && SameOpening(u, v) && TokenLength(x + u) <= |x|
    requires IsBlockOpen(x + u) ==> BlockCloses((x + u)[2..])
    ensures TokenLength(x + v) == TokenLength(x + u)
    ensures IsBlockOpen(x + v) ==> BlockCloses((x + v)[2..])
  {
    var t, w := x + u, x + v;
    SameFirstKind(x, u, v);
    assert t[0] == w[0] == x[0];
    assert t[1..] == x[1..] + u && w[1..] == x[1..] + v;
    if IsDashDash(t) || t[0] == '#' {
      LineTokenLocal(x, u, v);
    } else if IsBlockOpen(t) {
      assert t[2..] == x[2..] + u && w[2..] == x[2..] + v;
      BlockRestLocal(x[2..], u, v);
    } else if IsQuote(t[0]) {
      QuoteRestLocal(x[1..], u, v, t[0]);
    } else if IsDigit(t[0]) {
      NumberTokenLocal(x, u, v);
    }
  }

  lemma NumberTokenLocal(x: string, u: string, v: string)
    requires SameOpening(u, v) && NumberRest(x + u) <= |x|
    ensures NumberRest(x + v) == NumberRest(x + u)
  {
    if NumberRest(x + u) == |x| {
      assert (x + u)[|x|] == u[0];
    }
    NumberRestLocal(x, u, v);
  }

  lemma LineTokenLocal(x: string, u: string, v: string)
    requires x != "" && SameOpening(u, v) && 1 + LineRest(x[1..] + u) <= |x|
    ensures LineRest(x[1..] + v) == LineRest(x[1..] + u)
  {
    var n := LineRest(x[1..] + u);
    assert (x[1..] + u)[n] == '\n';
    assert (x[1..] + u)[|x| - 1] == u[0];
    LineRestLocal(x[1..], u, v);
  }

  /** A token that ends before the replaced text is read the same. */
  lemma FirstTokenLocal(x: string, u: string, v: string)
    requires x != "" && SameOpening(u, v) && TokenLength(x + u) <= |x|
    requires !(FirstToken(x + u).Comment? && !FirstToken(x + u).closed)
    ensures TokenLength(x + v) == TokenLength(x + u)
    ensures FirstToken(x + v) == FirstToken(x + u)
  {
    var t, w := x + u, x + v;
    TokenLengthLocal(x, u, v);
    SameFirstKind(x, u, v);
    assert t[0] == w[0] == x[0];
    assert t[..TokenLength(t)] == x[..TokenLength(t)] == w[..TokenLength(t)];
  }

  lemma {:induction false} TokensBeforeLocal(x: string, u: string, v: string)
    requires SameOpening(u, v) && Boundary(x + u, |x|)
    ensures Boundary(x + v, |x|)
    ensures SameSkeleton(Tokens(u), Tokens(v)) ==> SameSkeleton(Tokens(x + u), Tokens(x + v))
    decreases |x|
  {
    if x == "" {
      assert x + u == u && x + v == v;
    } else {
      FirstTokenLocal(x, u, v);
      var n := TokenLength(x + u);
      assert (x + u)[n..] == x[n..] + u && (x + v)[n..] == x[n..] + v;
      TokensBeforeLocal(x[n..], u, v);
      SkeletonCons(x + u, x + v);
    }
  }

  lemma SkeletonCons(t: string, w: string)
    requires t != "" && w != "" && FirstToken(t) == FirstToken(w)
    ensures SameSkeleton(Tokens(t[TokenLength(t)..]), Tokens(w[TokenLength(w)..])) ==>
              SameSkeleton(Tokens(t), Tokens(w))
  {
    var a, b := Tokens(t), Tokens(w);
    assert a[1..] == Tokens(t[TokenLength(t)..]) && b[1..] == Tokens(w[TokenLength(w)..]);
    assert forall i :: 1 <= i < |a| ==> a[i] == a[1..][i - 1];
    assert forall i :: 1 <= i < |b| ==> b[i] == b[1..][i - 1];
  }

  /** Replacing one literal or comment by another of the same kind, wherever a
      token starts, does not change the normalised statement. */
  lemma ReplaceToken(before: string, a: string, b: string, rest: string)
    requires SameOpening(a + rest, b + rest)
    requires TokenLength(a + rest) == |a| && TokenLength(b + rest) == |b|
    requires Boundary(before + (a + rest), |before|)
    ensures NormalForm(before + (a + rest)) == NormalForm(before + (b + rest))
  {
    assert (a + rest)[|a|..] == rest && (b + rest)[|b|..] == rest;
    assert SameSkeleton(Tokens(a + rest), Tokens(b + rest));
    TokensBeforeLocal(before, a + rest, b + rest);
    SkeletonDecides(BLANK_PEN, Tokens(before + (a + rest)), Tokens(before + (b + rest)));
  }

  /** A text that stands between two quotes without closing them. */
  predicate ClosedBody(x: string, quote: char) {
    x == ""
    || (x[0] == '\\' && |x| >= 2 && ClosedBody(x[2..], quote))
    || (x[0] != '\\' && x[0] != quote && ClosedBody(x[1..], quote))
  }

  lemma {:induction false} ClosedBodyEnds(x: string, quote: char, rest: string)
    requires ClosedBody(x, quote) && IsQuote(quote)
    ensures QuoteRest(x + ([quote] + rest), quote) == |x| + 1
    decreases |x|
  {
    var t := x + ([quote] + rest);
    if x == "" {
      assert t == [quote] + rest;
    } else if x[0] == '\\' {
      assert t[2..] == x[2..] + ([quote] + rest);
      ClosedBodyEnds(x[2..], quote, rest);
    } else {
      assert t[1..] == x[1..] + ([quote] + rest);
      ClosedBodyEnds(x[1..], quote, rest);
    }
  }

  lemma QuotedTokenLength(x: string, quote: char, rest: string)
    requires ClosedBody(x, quote) && IsQuote(quote)
    ensures TokenLength([quote] + x + [quote] + rest) == |x| + 2
  {
    var t := [quote] + x + [quote] + rest;
    assert t[1..] == x + ([quote] + rest);
    ClosedBodyEnds(x, quote, rest);
  }

  /** What a quoted literal holds never reaches the audit log. */
  lemma LiteralBodyIsHidden(before: string, x: string, y: string, quote: char, rest: string)
    requires IsQuote(quote) && ClosedBody(x, quote) && ClosedBody(y, quote)
    requires Boundary(before + ([quote] + x + [quote] + rest), |before|)
    ensures NormalForm(before + ([quote] + x + [quote] + rest)) == NormalForm(before + ([quote] + y + [quote] + rest))
  {
    QuotedTokenLength(x, quote, rest);
    QuotedTokenLength(y, quote, rest);
    ReplaceToken(before, [quote] + x + [quote], [quote] + y + [quote], rest);
  }

  predicate IsNumber(n: string) {
    n != "" && IsDigit(n[0]) && forall i :: 0 <= i < |n| ==> IsNumericByte(n[i])
  }

  lemma {:induction false} NumberEnds(n: string, rest: string)
    requires forall i :: 0 <= i < |n| ==> IsNumericByte(n[i])
    requires rest == "" || !IsNumericByte(rest[0])
    ensures NumberRest(n + rest) == |n|
    decreases |n|
  {
    if n == "" {
      assert n + rest == rest;
    } else {
      assert (n + rest)[1..] == n[1..] + rest;
      NumberEnds(n[1..], rest);
    }
  }

  /** Which number is written never reaches the audit log. */
  lemma NumberIsHidden(before: string, m: string, n: string, rest: string)
    requires IsNumber(m) && IsNumber(n) && (rest == "" || !IsNumericByte(rest[0]))
    requires Boundary(before + (m + rest), |before|)
    ensures NormalForm(before + (m + rest)) == NormalForm(before + (n + rest))
  {
    NumberEnds(m, rest);
    NumberEnds(n, rest);
    ReplaceToken(before, m, n, rest);
  }
}
