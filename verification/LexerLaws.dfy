/** What the classifier's lexers agree on, and where they differ. */
module LexerLaws {
  import opened Normalize
  import opened Lexer

  // ----- both sets of skipping rules see the same code

  /** The lexer reaches an unterminated ordinary comment whose last character,
      taken by itself, would be code. */
  predicate LeaksLastByte(t: string)
    decreases |t|
  {
    if t == "" then false
    else if IsOrdinaryBlock(t) && !BlockCloses(t[2..]) then |t| > 2 && IsCode(t[|t| - 1..])
    else LeaksLastByte(t[Length(Inline, t)..])
  }

  lemma Cancel(p: seq<bool>, a: seq<bool>, b: seq<bool>)
    ensures p + a == p + b <==> a == b
  {
    if p + a == p + b {
      assert a == (p + a)[|p|..] && b == (p + b)[|p|..];
    }
  }

  lemma FalsesAdd(m: nat, n: nat, rest: seq<bool>)
    ensures Falses(m + n) + rest == Falses(m) + (Falses(n) + rest)
  {
  }

  lemma {:induction false} OpenBlockRest(t: string)
    requires !BlockCloses(t)
    ensures BlockRest(t) == if t == "" then 0 else |t| - 1
  {
    if |t| >= 2 {
      OpenBlockRest(t[1..]);
    }
  }

  lemma MaskOfSkipped(rules: Skipping, t: string, n: nat, u: string)
    requires t != "" && !IsCode(t) && n == Length(rules, t) && u == t[n..]
    ensures Mask(rules, t) == Falses(n) + Mask(rules, u)
  {
  }

  ghost predicate SameCode(t: string) {
    Mask(Inline, t) == Mask(Helpers, t) <==> !LeaksLastByte(t)
  }

  /** SameCode, from inside a literal or identifier that the two sets of rules
      leave after m and n more characters, with u and w to come. */
  ghost predicate SameCodeFrom(m: nat, u: string, n: nat, w: string) {
    Falses(m) + Mask(Inline, u) == Falses(n) + Mask(Helpers, w) <==> !LeaksLastByte(u)
  }

  /** The lexers agree on what is code exactly when no unterminated comment
      leaks its last character. */
  lemma {:induction false} SameCodeIff(t: string)
    ensures Mask(Inline, t) == Mask(Helpers, t) <==> !LeaksLastByte(t)
    decreases |t|, 2
  {
    if t != "" {
      if IsQuote(t[0]) {
        AtQuote(t);
      } else if t[0] == '`' {
        AtBackquote(t);
      } else if IsOrdinaryBlock(t) && !BlockCloses(t[2..]) {
        SameCodeInOpenBlock(t);
      } else {
        SameCodeIff(t[Length(Inline, t)..]);
        AtOtherPiece(t);
      }
    }
  }

  lemma {:induction false} AtQuote(t: string)
    requires t != "" && IsQuote(t[0])
    ensures SameCode(t)
    decreases |t|, 0
  {
    var m, n := QuoteRest(t[1..], t[0]), DoubledQuoteRest(t[1..], t[0]);
    var u, w := SameCodeAfterQuote(t[1..], t[0]);
    OpeningMasks(t, m, u, n, w);
    AtOpening(t, m, u, n, w);
  }

  lemma {:induction false} AtBackquote(t: string)
    requires t != "" && t[0] == '`'
    ensures SameCode(t)
    decreases |t|, 0
  {
    var m, n := IdentRest(t[1..]), DoubledIdentRest(t[1..]);
    var u, w := SameCodeAfterIdent(t[1..]);
    OpeningMasks(t, m, u, n, w);
    AtOpening(t, m, u, n, w);
  }

  /** The last character of this statement is code to the inline loops only. */
  lemma LeakedCharacter()
    ensures LeaksLastByte("/*x") && Mask(Inline, "/*x") != Mask(Helpers, "/*x")
  {
    var s := "/*x";
    assert s[2..] == "x" && !BlockCloses("x");
    SameCodeIff(s);
  }

  lemma AtOpening(t: string, m: nat, u: string, n: nat, w: string)
    requires Mask(Inline, t) == Falses(1 + m) + Mask(Inline, u)
    requires Mask(Helpers, t) == Falses(1 + n) + Mask(Helpers, w)
    requires (LeaksLastByte(t) <==> LeaksLastByte(u)) && SameCodeFrom(m, u, n, w)
    ensures SameCode(t)
  {
    SkipFrom(1, m, u, n, w);
  }

  lemma OpeningMasks(t: string, m: nat, u: string, n: nat, w: string)
    requires t != "" && (IsQuote(t[0]) || t[0] == '`')
    requires Length(Inline, t) == 1 + m && Length(Helpers, t) == 1 + n
    requires u == t[1..][m..] && w == t[1..][n..]
    ensures Mask(Inline, t) == Falses(1 + m) + Mask(Inline, u)
    ensures Mask(Helpers, t) == Falses(1 + n) + Mask(Helpers, w)
    ensures LeaksLastByte(t) <==> LeaksLastByte(u)
  {
    DropDrop(t, 1, m);
    DropDrop(t, 1, n);
    MaskOfSkipped(Inline, t, 1 + m, u);
    MaskOfSkipped(Helpers, t, 1 + n, w);
    LeakAfterOpening(t, u);
  }

  lemma LeakAfterOpening(t: string, u: string)
    requires t != "" && (IsQuote(t[0]) || t[0] == '`') && u == t[Length(Inline, t)..]
    ensures LeaksLastByte(t) <==> LeaksLastByte(u)
  {
  }

  lemma SkipFrom(k: nat, m: nat, u: string, n: nat, w: string)
    requires SameCodeFrom(m, u, n, w)
    ensures SameCodeFrom(k + m, u, k + n, w)
  {
    FalsesAdd(k, m, Mask(Inline, u));
    FalsesAdd(k, n, Mask(Helpers, w));
    Cancel(Falses(k), Falses(m) + Mask(Inline, u), Falses(n) + Mask(Helpers, w));
  }

  lemma AtOtherPiece(t: string)
    requires t != "" && !IsQuote(t[0]) && t[0] != '`' && !(IsOrdinaryBlock(t) && !BlockCloses(t[2..]))
    requires SameCode(t[Length(Inline, t)..])
    ensures SameCode(t)
  {
    SameHead(t);
    Cancel(Head(Inline, t), Mask(Inline, t[Length(Inline, t)..]), Mask(Helpers, t[Length(Inline, t)..]));
  }

  lemma SameHead(t: string)
    requires t != "" && !IsQuote(t[0]) && t[0] != '`' && !(IsOrdinaryBlock(t) && !BlockCloses(t[2..]))
    ensures Length(Inline, t) == Length(Helpers, t) && Head(Inline, t) == Head(Helpers, t)
  {
  }

  lemma SameCodeInOpenBlock(t: string)
    requires t != "" && IsOrdinaryBlock(t) && !BlockCloses(t[2..])
    ensures SameCode(t)
  {
    OpenBlockRest(t[2..]);
    var n := Length(Inline, t);
    assert Mask(Helpers, t) == Falses(|t|);
    assert Mask(Inline, t) == Falses(n) + Mask(Inline, t[n..]);
    if |t| > 2 {
      assert n == |t| - 1;
      LastCharacter(t[n..]);
      assert Mask(Inline, t)[n] == Mask(Inline, t[n..])[0];
    }
  }

  lemma LastCharacter(t: string)
    requires |t| == 1
    ensures Mask(Inline, t) == [IsCode(t)]
  {
    assert Mask(Inline, t[1..]) == [];
  }

  /** Inside a literal, a doubled quote ends one literal and opens the next for
      the one set of rules, and stands for a quote for the other. */
  lemma {:induction false} SameCodeAfterQuote(t: string, quote: char) returns (u: string, w: string)
    requires IsQuote(quote)
    ensures u == t[QuoteRest(t, quote)..] && w == t[DoubledQuoteRest(t, quote)..]
    ensures SameCodeFrom(QuoteRest(t, quote), u, DoubledQuoteRest(t, quote), w)
    decreases |t|, 1
  {
    if t == "" {
      u, w := "", "";
    } else if t[0] == quote && |t| > 1 && t[1] == quote {
      u, w := SameCodeAfterDoubled(t, quote);
    } else if t[0] == quote {
      u, w := t[1..], t[1..];
      SameCodeIff(u);
      Closed(u);
    } else {
      u, w := SameCodeInQuote(t, quote);
    }
  }

  lemma {:induction false} SameCodeInQuote(t: string, quote: char) returns (u: string, w: string)
    requires IsQuote(quote) && t != "" && t[0] != quote
    ensures u == t[QuoteRest(t, quote)..] && w == t[DoubledQuoteRest(t, quote)..]
    ensures SameCodeFrom(QuoteRest(t, quote), u, DoubledQuoteRest(t, quote), w)
    decreases |t|, 0
  {
    var rest, k, m, n := QuotedStep(t, quote);
    u, w := SameCodeAfterQuote(rest, quote);
    SkipFrom(k, m, u, n, w);
  }

  /** Inside a literal both sets of rules take the same steps. */
  lemma QuotedStep(t: string, quote: char) returns (rest: string, k: nat, m: nat, n: nat)
    requires t != "" && t[0] != quote
    ensures 0 < k <= |t| && rest == t[k..]
    ensures m == QuoteRest(rest, quote) && QuoteRest(t, quote) == k + m && rest[m..] == t[k + m..]
    ensures n == DoubledQuoteRest(rest, quote) && DoubledQuoteRest(t, quote) == k + n && rest[n..] == t[k + n..]
  {
    k := if t[0] == '\\' && |t| > 1 then 2 else 1;
    rest := t[k..];
    m, n := QuoteRest(rest, quote), DoubledQuoteRest(rest, quote);
    DropDrop(t, k, m);
    DropDrop(t, k, n);
  }

  lemma {:induction false} SameCodeAfterDoubled(t: string, quote: char) returns (u: string, w: string)
    requires IsQuote(quote) && |t| > 1 && t[0] == quote && t[1] == quote
    ensures u == t[QuoteRest(t, quote)..] && w == t[DoubledQuoteRest(t, quote)..]
    ensures SameCodeFrom(QuoteRest(t, quote), u, DoubledQuoteRest(t, quote), w)
    decreases |t|, 0
  {
    var rest, m, n;
    rest, u, m, n := DoubledQuoteStep(t, quote);
    var u2, w2 := SameCodeAfterQuote(rest, quote);
    w := w2;
    Reopened(u, m, u2, n, w);
  }

  lemma DoubledQuoteStep(t: string, quote: char) returns (rest: string, u: string, m: nat, n: nat)
    requires IsQuote(quote) && |t| > 1 && t[0] == quote && t[1] == quote
    ensures rest == t[2..] && |rest| < |t| && u == t[1..] && QuoteRest(t, quote) == 1
    ensures m == QuoteRest(rest, quote) && u[0] == quote && Length(Inline, u) == 1 + m && rest[m..] == u[1 + m..]
    ensures n == DoubledQuoteRest(rest, quote) && DoubledQuoteRest(t, quote) == 2 + n && rest[n..] == t[2 + n..]
  {
    rest, u := t[2..], t[1..];
    m, n := QuoteRest(rest, quote), DoubledQuoteRest(rest, quote);
    DropDrop(t, 1, 1);
    DropDrop(t, 2, n);
    DropDrop(u, 1, m);
  }

  lemma {:induction false} SameCodeAfterIdent(t: string) returns (u: string, w: string)
    ensures u == t[IdentRest(t)..] && w == t[DoubledIdentRest(t)..]
    ensures SameCodeFrom(IdentRest(t), u, DoubledIdentRest(t), w)
    decreases |t|, 1
  {
    if t == "" {
      u, w := "", "";
    } else if t[0] == '`' && |t| > 1 && t[1] == '`' {
      u, w := SameCodeAfterDoubledIdent(t);
    } else if t[0] == '`' {
      u, w := t[1..], t[1..];
      SameCodeIff(u);
      Closed(u);
    } else {
      u, w := SameCodeInIdent(t);
    }
  }

  lemma {:induction false} SameCodeInIdent(t: string) returns (u: string, w: string)
    requires t != "" && t[0] != '`'
    ensures u == t[IdentRest(t)..] && w == t[DoubledIdentRest(t)..]
    ensures SameCodeFrom(IdentRest(t), u, DoubledIdentRest(t), w)
    decreases |t|, 0
  {
    var rest, m, n := IdentStep(t);
    u, w := SameCodeAfterIdent(rest);
    SkipFrom(1, m, u, n, w);
  }

  lemma IdentStep(t: string) returns (rest: string, m: nat, n: nat)
    requires t != "" && t[0] != '`'
    ensures rest == t[1..]
    ensures m == IdentRest(rest) && IdentRest(t) == 1 + m && rest[m..] == t[1 + m..]
    ensures n == DoubledIdentRest(rest) && DoubledIdentRest(t) == 1 + n && rest[n..] == t[1 + n..]
  {
    rest := t[1..];
    m, n := IdentRest(rest), DoubledIdentRest(rest);
    DropDrop(t, 1, m);
    DropDrop(t, 1, n);
  }

  lemma {:induction false} SameCodeAfterDoubledIdent(t: string) returns (u: string, w: string)
    requires |t| > 1 && t[0] == '`' && t[1] == '`'
    ensures u == t[IdentRest(t)..] && w == t[DoubledIdentRest(t)..]
    ensures SameCodeFrom(IdentRest(t), u, DoubledIdentRest(t), w)
    decreases |t|, 0
  {
    var rest, m, n;
    rest, u, m, n := DoubledIdentStep(t);
    var u2, w2 := SameCodeAfterIdent(rest);
    w := w2;
    Reopened(u, m, u2, n, w);
  }

  lemma DoubledIdentStep(t: string) returns (rest: string, u: string, m: nat, n: nat)
    requires |t| > 1 && t[0] == '`' && t[1] == '`'
    ensures rest == t[2..] && |rest| < |t| && u == t[1..] && IdentRest(t) == 1
    ensures m == IdentRest(rest) && u[0] == '`' && Length(Inline, u) == 1 + m && rest[m..] == u[1 + m..]
    ensures n == DoubledIdentRest(rest) && DoubledIdentRest(t) == 2 + n && rest[n..] == t[2 + n..]
  {
    rest, u := t[2..], t[1..];
    m, n := IdentRest(rest), DoubledIdentRest(rest);
    DropDrop(t, 1, 1);
    DropDrop(t, 2, n);
    DropDrop(u, 1, m);
  }

  lemma Closed(u: string)
    requires SameCode(u)
    ensures SameCodeFrom(1, u, 1, u)
  {
    Cancel(Falses(1), Mask(Inline, u), Mask(Helpers, u));
  }

  /** t starts with a quote that the inline rules take for an opening one, and
      the others for the second half of a doubled one. */
  lemma Reopened(t: string, m: nat, u: string, n: nat, w: string)
    requires t != "" && (IsQuote(t[0]) || t[0] == '`') && Length(Inline, t) == 1 + m && u == t[1 + m..]
    requires SameCodeFrom(m, u, n, w)
    ensures SameCodeFrom(1, t, 2 + n, w)
  {
    SkipFrom(2, m, u, n, w);
    MaskOfSkipped(Inline, t, 1 + m, u);
    FalsesAdd(1, 1 + m, Mask(Inline, u));
    LeakAfterOpening(t, u);
  }

  /** Lexing may start over at any code position. */
  lemma {:induction false} ResumesAtCode(rules: Skipping, t: string, i: nat)
    requires i < |t| && Mask(rules, t)[i]
    ensures Mask(rules, t[i..]) == Mask(rules, t)[i..]
    decreases |t|
  {
    if i > 0 {
      var rest, k := CodeAfterHead(rules, t, i);
      ResumesAtCode(rules, rest, k);
    }
  }

  /** A code position beyond the first piece is one of the rest. */
  lemma CodeAfterHead(rules: Skipping, t: string, i: nat) returns (rest: string, k: nat)
    requires 0 < i < |t| && Mask(rules, t)[i]
    ensures rest == t[Length(rules, t)..] && |rest| < |t| && k < |rest| && rest[k..] == t[i..]
    ensures Mask(rules, rest)[k] && Mask(rules, t)[i..] == Mask(rules, rest)[k..]
  {
    rest := t[Length(rules, t)..];
    MaskIsHeadAndRest(rules, t, rest);
    k := SuffixIndex(Mask(rules, t), Head(rules, t), Mask(rules, rest), i);
    DropDrop(t, Length(rules, t), k);
  }

  lemma MaskIsHeadAndRest(rules: Skipping, t: string, rest: string)
    requires t != "" && rest == t[Length(rules, t)..]
    ensures Mask(rules, t) == Head(rules, t) + Mask(rules, rest)
    ensures |Head(rules, t)| == 1 || forall j :: 0 <= j < |Head(rules, t)| ==> !Head(rules, t)[j]
  {
  }

  lemma SuffixIndex(m: seq<bool>, head: seq<bool>, rest: seq<bool>, i: nat) returns (k: nat)
    requires m == head + rest && 0 < i < |m| && m[i]
    requires |head| == 1 || forall j :: 0 <= j < |head| ==> !head[j]
    ensures |head| + k == i && m[i..] == rest[k..] && k < |rest| && rest[k]
  {
    k := i - |head|;
  }

  lemma DropDrop(t: string, m: nat, n: nat)
    requires m + n <= |t|
    ensures t[m..][n..] == t[m + n..]
  {
  }

  // ----- callEndAt finds the first balanced group of code parentheses

  function Delta(t: string, m: seq<bool>, i: nat): int
    requires i < |t| == |m|
  {
    if !m[i] then 0 else if t[i] == '(' then 1 else if t[i] == ')' then -1 else 0
  }

  /** Code parentheses opened minus closed among the first n characters. */
  function Level(t: string, m: seq<bool>, n: nat): int
    requires |t| == |m| && n <= |t|
  {
    if n == 0 then 0 else Level(t, m, n - 1) + Delta(t, m, n - 1)
  }

  /** A code parenthesis closes just before n. */
  predicate ClosesAt(t: string, m: seq<bool>, n: nat)
    requires |t| == |m|
  {
    0 < n <= |t| && m[n - 1] && t[n - 1] == ')'
  }

  /** Starting `depth` deep, the closing parenthesis before n is the first that
      has no other left to close, and balances the group. */
  predicate EndsGroup(t: string, m: seq<bool>, depth: nat, n: nat)
    requires |t| == |m|
  {
    && ClosesAt(t, m, n) && depth + Level(t, m, n) == 0
    && forall k :: 0 < k < n && ClosesAt(t, m, k) ==> depth + Level(t, m, k) > 0
  }

  /** No code parenthesis closes within the first k characters of a piece, or
      one does without ending the group. */
  predicate PassesOver(t: string, m: seq<bool>, depth: nat, k: nat)
    requires |t| == |m| && k <= |t|
  {
    forall j :: 0 < j <= k && ClosesAt(t, m, j) ==> depth + Level(t, m, j) > 0
  }

  lemma {:induction false} LevelSplit(t: string, m: seq<bool>, k: nat, n: nat)
    requires |t| == |m| && k <= n <= |t|
    ensures Level(t, m, n) == Level(t, m, k) + Level(t[k..], m[k..], n - k)
  {
    if n > k {
      LevelSplit(t, m, k, n - 1);
    }
  }

  lemma GroupShift(t: string, m: seq<bool>, depth: nat, k: nat, n: nat)
    requires |t| == |m| && k < n && k <= |t| && PassesOver(t, m, depth, k) && depth + Level(t, m, k) >= 0
    ensures EndsGroup(t, m, depth, n) <==> EndsGroup(t[k..], m[k..], depth + Level(t, m, k), n - k)
  {
    if n <= |t| {
      LevelSplit(t, m, k, n);
      var base := depth + Level(t, m, k);
      if EndsGroup(t, m, depth, n) {
        forall j | 0 < j < n - k && ClosesAt(t[k..], m[k..], j) ensures base + Level(t[k..], m[k..], j) > 0 {
          assert ClosesAt(t, m, j + k);
          LevelSplit(t, m, k, j + k);
        }
      }
      if EndsGroup(t[k..], m[k..], base, n - k) {
        forall j | 0 < j < n && ClosesAt(t, m, j) ensures depth + Level(t, m, j) > 0 {
          if j > k {
            assert ClosesAt(t[k..], m[k..], j - k);
            LevelSplit(t, m, k, j);
          }
        }
      }
    }
  }

  /** What callEndAt says of the group it is `depth` deep in. */
  ghost predicate FindsGroup(t: string, m: seq<bool>, depth: nat, end: int)
    requires |t| == |m|
  {
    && end >= -1
    && (end >= 0 ==> EndsGroup(t, m, depth, end))
    && (end < 0 ==> forall n: nat :: !EndsGroup(t, m, depth, n))
  }

  lemma FindsGroupShifted(t: string, m: seq<bool>, depth: nat, k: nat, end: int)
    requires |t| == |m| && 0 < k <= |t| && PassesOver(t, m, depth, k) && depth + Level(t, m, k) >= 0
    requires FindsGroup(t[k..], m[k..], depth + Level(t, m, k), end)
    ensures FindsGroup(t, m, depth, Shifted(end, k))
  {
    if end >= 0 {
      GroupShift(t, m, depth, k, end + k);
    } else {
      forall n: nat ensures !EndsGroup(t, m, depth, n) {
        if n > k {
          GroupShift(t, m, depth, k, n);
        }
      }
    }
  }

  lemma FindsGroupSkipped(t: string, m: seq<bool>, depth: nat, k: nat, rest: string, mask: seq<bool>, end: int)
    requires |t| == |m| && 0 < k <= |t| && rest == t[k..] && mask == m[k..]
    requires PassesOver(t, m, depth, k) && Level(t, m, k) == 0 && FindsGroup(rest, mask, depth, end)
    ensures FindsGroup(t, m, depth, Shifted(end, k))
  {
    FindsGroupShifted(t, m, depth, k, end);
  }

  lemma {:induction false} LevelOfSkipped(t: string, m: seq<bool>, k: nat)
    requires |t| == |m| && k <= |t| && forall i :: 0 <= i < k ==> Delta(t, m, i) == 0
    ensures Level(t, m, k) == 0
  {
    if k > 0 {
      LevelOfSkipped(t, m, k - 1);
    }
  }

  /** A piece of another kind than a code parenthesis leaves the level alone. */
  lemma OtherPiece(t: string, depth: nat) returns (k: nat, rest: string, m: seq<bool>)
    requires t != "" && !(IsCode(t) && (t[0] == '(' || t[0] == ')'))
    ensures 0 < k <= |t| && rest == t[k..] && m == Mask(Helpers, t) && m[k..] == Mask(Helpers, rest)
    ensures Level(t, m, k) == 0 && PassesOver(t, m, depth, k)
    ensures CallEnd(t, depth) == Shifted(CallEnd(rest, depth), k)
  {
    k := Length(Helpers, t);
    rest, m := t[k..], Mask(Helpers, t);
    assert m == Head(Helpers, t) + Mask(Helpers, rest);
    SkippedHead(t, m, k);
    LevelOfSkipped(t, m, k);
  }

  lemma SkippedHead(t: string, m: seq<bool>, k: nat)
    requires t != "" && !(IsCode(t) && (t[0] == '(' || t[0] == ')'))
    requires |t| == |m| && k == Length(Helpers, t) && m[..k] == Head(Helpers, t)
    ensures forall i :: 0 <= i < k ==> Delta(t, m, i) == 0
    ensures forall j :: 0 < j <= k ==> !ClosesAt(t, m, j)
  {
    forall i | 0 <= i < k ensures Delta(t, m, i) == 0 {
      assert m[i] == m[..k][i];
    }
    forall j | 0 < j <= k ensures !ClosesAt(t, m, j) {
      assert m[j - 1] == m[..k][j - 1];
    }
  }

  lemma ParenPiece(t: string)
    requires IsCode(t)
    ensures var m := Mask(Helpers, t);
            m[0] && m[1..] == Mask(Helpers, t[1..]) && Level(t, m, 1) == Delta(t, m, 0)
  {
    assert Mask(Helpers, t) == [true] + Mask(Helpers, t[1..]);
    assert Level(t, Mask(Helpers, t), 0) == 0;
  }

  lemma AtOpenParen(t: string, depth: nat)
    requires IsCode(t) && t[0] == '('
    requires FindsGroup(t[1..], Mask(Helpers, t[1..]), depth + 1, CallEnd(t[1..], depth + 1))
    ensures FindsGroup(t, Mask(Helpers, t), depth, CallEnd(t, depth))
  {
    ParenPiece(t);
    FindsGroupShifted(t, Mask(Helpers, t), depth, 1, CallEnd(t[1..], depth + 1));
  }

  lemma AtCloseParen(t: string, depth: nat)
    requires IsCode(t) && t[0] == ')'
    requires depth >= 2 ==> FindsGroup(t[1..], Mask(Helpers, t[1..]), depth - 1, CallEnd(t[1..], depth - 1))
    ensures FindsGroup(t, Mask(Helpers, t), depth, CallEnd(t, depth))
  {
    ParenPiece(t);
    assert ClosesAt(t, Mask(Helpers, t), 1);
    if depth >= 2 {
      FindsGroupShifted(t, Mask(Helpers, t), depth, 1, CallEnd(t[1..], depth - 1));
    }
  }

  lemma {:induction false} FindsAfterOther(t: string, depth: nat)
    requires t != "" && !(IsCode(t) && (t[0] == '(' || t[0] == ')'))
    ensures FindsGroup(t, Mask(Helpers, t), depth, CallEnd(t, depth))
    decreases |t|, 0
  {
    var k, rest, m := OtherPiece(t, depth);
    CallEndFindsGroup(rest, depth);
    FindsGroupSkipped(t, m, depth, k, rest, Mask(Helpers, rest), CallEnd(rest, depth));
  }

  /** callEndAt returns the end of the first balanced group of code parentheses,
      and -1 exactly when there is none. */
  lemma {:induction false} CallEndFindsGroup(t: string, depth: nat)
    ensures FindsGroup(t, Mask(Helpers, t), depth, CallEnd(t, depth))
    decreases |t|, 1
  {
    if t == "" {
    } else if IsCode(t) && t[0] == '(' {
      CallEndFindsGroup(t[1..], depth + 1);
      AtOpenParen(t, depth);
    } else if IsCode(t) && t[0] == ')' {
      if depth >= 2 {
        CallEndFindsGroup(t[1..], depth - 1);
      }
      AtCloseParen(t, depth);
    } else {
      FindsAfterOther(t, depth);
    }
  }

  /** Asked at a code position of a statement whose comments are all closed,
      callEndAt finds the group that the scanners' own view of the statement
      gives. */
  lemma CallEndSeesScannedCode(source: string, offset: nat)
    requires offset < |source| && Mask(Inline, source)[offset] && !LeaksLastByte(source)
    ensures FindsGroup(source[offset..], Mask(Inline, source)[offset..], 0, CallEnd(source[offset..], 0))
  {
    SameCodeIff(source);
    ResumesAtCode(Helpers, source, offset);
    CallEndFindsGroup(source[offset..], 0);
  }
}
