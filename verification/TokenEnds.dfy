/**
 Where tokens begin and end, said of positions in the text: what the recursive
 measures of the normaliser and of the scanners find.
 */
module TokenEnds {
  import opened Normalize
  import opened Lexer

  // ----- characters

  const BLANKS := " \t\n\U{0B}\U{0C}\r\U{85}\U{A0}"

  /** The blanks of Latin-1. */
  lemma SpaceIff(c: char)
    ensures IsSpace(c) <==> c in BLANKS
  {
    if IsSpace(c) {
      var k := if c == ' ' then 0 else if c <= '\r' then c as int - '\t' as int + 1 else if c == '\U{85}' then 6 else 7;
      assert BLANKS[k] == c;
    }
  }

  const LETTERS := "abcdefghijklmnopqrstuvwxyz"

  predicate IsLetter(c: char) {
    c in LETTERS || (c < '\U{E0}' && (c as int + 32) as char in LETTERS)
  }

  lemma LetterIff(c: char)
    ensures c in LETTERS <==> 'a' <= c <= 'z'
  {
    if 'a' <= c <= 'z' {
      assert LETTERS[c as int - 'a' as int] == c;
    }
  }

  /** What a number goes on with, once a digit has started it: an identifier's
      characters and the point. */
  lemma NumericByteIff(c: char)
    ensures IsNumericByte(c) <==> IsDigit(c) || IsLetter(c) || c == '.' || c == '_'
  {
    LetterIff(c);
    if c < '\U{E0}' {
      LetterIff((c as int + 32) as char);
    }
  }

  // ----- beginnings

  const COMMENT_OPENERS := {"#", "/*", "-- ", "--\t", "--\n", "--\r", "--\U{0C}"}

  /** A comment starts with "#", with "/" "*", or with "--" and a blank that is
      not a vertical tab. */
  lemma OpensCommentIff(t: string)
    ensures OpensComment(t) <==> exists opener :: opener in COMMENT_OPENERS && opener <= t
  {
    if t != "" && t[0] == '#' {
      assert "#" in COMMENT_OPENERS && "#" <= t;
    } else if IsBlockOpen(t) {
      assert "/*" in COMMENT_OPENERS && "/*" <= t;
    } else if IsDashDash(t) {
      var opener := ['-', '-', t[2]];
      assert opener in COMMENT_OPENERS && opener <= t;
    }
  }

  // ----- line and block comments

  /** The first n characters are those before the next line feed. */
  lemma {:induction false} LineRestIff(t: string)
    ensures var n := LineRest(t); (n < |t| ==> t[n] == '\n') && forall k :: 0 <= k < n ==> t[k] != '\n'
  {
    if t != "" && t[0] != '\n' {
      LineRestIff(t[1..]);
      assert forall k :: 1 <= k < |t| ==> t[k] == t[1..][k - 1];
    }
  }

  predicate ClosesAt(t: string, k: int) {
    0 <= k < |t| - 1 && t[k] == '*' && t[k + 1] == '/'
  }

  /** A block comment ends after the first "*" "/"; without one, the last
      character is left over. */
  lemma {:induction false} BlockRestIff(t: string)
    ensures BlockCloses(t) <==> exists k :: ClosesAt(t, k)
    ensures var n := BlockRest(t);
            if BlockCloses(t) then ClosesAt(t, n - 2) && forall k :: k < n - 2 ==> !ClosesAt(t, k)
            else n == if t == "" then 0 else |t| - 1
  {
    if |t| >= 2 && !ClosesAt(t, 0) {
      BlockRestIff(t[1..]);
      assert forall k :: ClosesAt(t, k) <==> ClosesAt(t[1..], k - 1);
      if BlockCloses(t) {
        assert ClosesAt(t[1..], BlockRest(t[1..]) - 2);
        var k :| ClosesAt(t[1..], k);
        assert ClosesAt(t, k + 1);
      }
    }
  }

  // ----- literals

  /** How many backslashes stand right before position k. */
  function Backslashes(t: string, k: nat): nat
    requires k <= |t|
  {
    if k == 0 || t[k - 1] != '\\' then 0 else 1 + Backslashes(t, k - 1)
  }

  /** An even number of backslashes hides nothing. */
  predicate Unescaped(t: string, k: int, quote: char) {
    0 <= k < |t| && t[k] == quote && Backslashes(t, k) % 2 == 0
  }

  lemma {:induction false} BackslashesOfRest(t: string, d: nat, k: nat)
    requires d <= k <= |t|
    requires d == 1 ==> t[0] != '\\'
    requires d == 2 ==> t[0] == '\\'
    requires d == 1 || d == 2
    ensures Backslashes(t, k) % 2 == Backslashes(t[d..], k - d) % 2
    decreases k
  {
    if k == d {
      assert Backslashes(t, 1) == if t[0] == '\\' then 1 else 0;
    } else {
      BackslashesOfRest(t, d, k - 1);
      assert t[d..][k - 1 - d] == t[k - 1];
    }
  }

  /** A character is hidden alike in the text and in what follows an escape or an
      ordinary character at its start. */
  lemma UnescapedInRest(t: string, d: nat, quote: char)
    requires 1 <= d <= 2 && d <= |t| && quote != '\\' && (d == 2 <==> t[0] == '\\' && |t| > 1)
    ensures forall k :: d <= k < |t| ==> (Unescaped(t, k, quote) <==> Unescaped(t[d..], k - d, quote))
    ensures d == 2 ==> !Unescaped(t, 0, quote) && !Unescaped(t, 1, quote)
  {
    forall k | d <= k < |t| ensures Unescaped(t, k, quote) <==> Unescaped(t[d..], k - d, quote) {
      if t[0] != '\\' || d == 2 {
        BackslashesOfRest(t, d, k);
      }
      assert t[d..][k - d] == t[k];
    }
    assert d == 2 ==> Backslashes(t, 1) == 1;
  }

  /** A literal ends after the first quote that no backslash hides; without one
      it takes the rest. */
  lemma {:induction false} QuoteRestIff(t: string, quote: char)
    requires quote != '\\'
    ensures var n := QuoteRest(t, quote);
            && (forall k :: k < n - 1 ==> !Unescaped(t, k, quote))
            && (if n > 0 && Unescaped(t, n - 1, quote) then true else n == |t| && !Unescaped(t, n - 1, quote))
    decreases |t|
  {
    if t != "" && t[0] != quote {
      var d := if t[0] == '\\' && |t| > 1 then 2 else 1;
      QuoteRestIff(t[d..], quote);
      UnescapedInRest(t, d, quote);
      var n := QuoteRest(t, quote);
      assert n == d + QuoteRest(t[d..], quote);
      forall k | k < n - 1 ensures !Unescaped(t, k, quote) {
        assert k >= d ==> !Unescaped(t[d..], k - d, quote);
      }
    }
  }

  // ----- doubled quotes and backquotes

  /** For each character, whether it is a quote that no backslash hides. */
  function QuoteMarks(t: string, quote: char): (m: seq<bool>)
    ensures |m| == |t|
  {
    seq(|t|, k requires 0 <= k < |t| => Unescaped(t, k, quote))
  }

  /** For each character, whether it is a backquote. */
  function TickMarks(t: string): (m: seq<bool>)
    ensures |m| == |t|
  {
    seq(|t|, k requires 0 <= k < |t| => t[k] == '`')
  }

  /** How many marks stand right before position k. */
  function RunBefore(m: seq<bool>, k: nat): nat
    requires k <= |m|
  {
    if k == 0 || !m[k - 1] then 0 else 1 + RunBefore(m, k - 1)
  }

  /** The last of an odd number of marks in a row. */
  predicate OddEnd(m: seq<bool>, k: int) {
    0 <= k < |m| && m[k] && RunBefore(m, k) % 2 == 0 && !(k + 1 < |m| && m[k + 1])
  }

  /** The text up to n ends with the first odd run of marks, or is all there is. */
  predicate EndsAfterOddRun(m: seq<bool>, n: nat) {
    && n <= |m|
    && (forall k :: 0 <= k < n - 1 ==> !OddEnd(m, k))
    && (n == |m| || OddEnd(m, n - 1))
  }

  lemma {:induction false} RunBeforeRest(m: seq<bool>, d: nat, k: nat)
    requires d <= k <= |m| && RunBefore(m, d) % 2 == 0
    ensures RunBefore(m, k) % 2 == RunBefore(m[d..], k - d) % 2
    decreases k
  {
    if k > d {
      RunBeforeRest(m, d, k - 1);
      assert m[d..][k - 1 - d] == m[k - 1];
    }
  }

  lemma OddEndOfRest(m: seq<bool>, d: nat, n: nat)
    requires 0 < d <= |m| && RunBefore(m, d) % 2 == 0 && EndsAfterOddRun(m[d..], n)
    requires forall k :: 0 <= k < d ==> !OddEnd(m, k)
    ensures EndsAfterOddRun(m, d + n)
  {
    forall k | d <= k < |m| ensures OddEnd(m, k) <==> OddEnd(m[d..], k - d) {
      RunBeforeRest(m, d, k);
      assert m[d..][k - d] == m[k];
      assert k + 1 < |m| ==> m[d..][k + 1 - d] == m[k + 1];
    }
  }

  /** A literal with doubled quotes ends where a run of quotes that no backslash
      hides is odd: the pairs belong to the literal. */
  lemma {:induction false} DoubledQuoteRestIff(t: string, quote: char)
    requires quote != '\\'
    ensures EndsAfterOddRun(QuoteMarks(t, quote), DoubledQuoteRest(t, quote))
    decreases |t|
  {
    var m := QuoteMarks(t, quote);
    if t != "" {
      if t[0] == quote && !(|t| > 1 && t[1] == quote) {
        assert OddEnd(m, 0);
      } else {
        var d := if (t[0] == '\\' && |t| > 1) || t[0] == quote then 2 else 1;
        DoubledQuoteRestIff(t[d..], quote);
        MarksOfRest(t, d, quote);
        OddEndOfRest(m, d, DoubledQuoteRest(t[d..], quote));
      }
    }
  }

  lemma MarksOfRest(t: string, d: nat, quote: char)
    requires t != "" && quote != '\\' && d <= |t|
    requires d == if (t[0] == '\\' && |t| > 1) || t[0] == quote then 2 else 1
    requires t[0] == quote ==> |t| > 1 && t[1] == quote
    ensures var m := QuoteMarks(t, quote);
            && m[d..] == QuoteMarks(t[d..], quote)
            && RunBefore(m, d) % 2 == 0 && forall k :: 0 <= k < d ==> !OddEnd(m, k)
  {
    var m := QuoteMarks(t, quote);
    if t[0] == quote {
      UnescapedInRest(t, 1, quote);
      assert t[1..][1..] == t[2..];
      UnescapedInRest(t[1..], 1, quote);
      assert m[0] && m[1] && RunBefore(m, 1) == 1;
      assert m[2..] == QuoteMarks(t[2..], quote);
    } else {
      UnescapedInRest(t, d, quote);
      assert m[d..] == QuoteMarks(t[d..], quote);
    }
  }

  /** A quoted name ends after the next backquote, */
  lemma {:induction false} IdentRestIff(t: string)
    ensures var n := IdentRest(t);
            (forall k :: 0 <= k < n - 1 ==> t[k] != '`') && (n == |t| || (n > 0 && t[n - 1] == '`'))
  {
    if t != "" && t[0] != '`' {
      IdentRestIff(t[1..]);
      assert forall k :: 1 <= k < |t| ==> t[k] == t[1..][k - 1];
    }
  }

  /** or, with doubled ones, where a run of backquotes is odd. */
  lemma {:induction false} DoubledIdentRestIff(t: string)
    ensures EndsAfterOddRun(TickMarks(t), DoubledIdentRest(t))
    decreases |t|
  {
    var m := TickMarks(t);
    if t != "" {
      if t[0] == '`' && !(|t| > 1 && t[1] == '`') {
        assert OddEnd(m, 0);
      } else {
        var d := if t[0] == '`' then 2 else 1;
        DoubledIdentRestIff(t[d..]);
        assert m[d..] == TickMarks(t[d..]);
        assert RunBefore(m, 1) == if t[0] == '`' then 1 else 0;
        OddEndOfRest(m, d, DoubledIdentRest(t[d..]));
      }
    }
  }

  // ----- tokens cover the statement

  function TextOf(token: Token): string {
    if token.Code? then [token.c] else token.text
  }

  function Joined(tokens: seq<Token>): string {
    if tokens == [] then "" else TextOf(tokens[0]) + Joined(tokens[1..])
  }

  lemma FirstText(t: string)
    requires t != ""
    ensures TextOf(FirstToken(t)) == t[..TokenLength(t)]
  {
  }

  lemma JoinedCons(first: Token, rest: seq<Token>)
    ensures Joined([first] + rest) == TextOf(first) + Joined(rest)
  {
    assert ([first] + rest)[1..] == rest;
  }

  lemma CutAndJoin(t: string, n: nat)
    requires n <= |t|
    ensures t[..n] + t[n..] == t
  {
  }

  /** The tokens of a statement are its text, cut into pieces. */
  lemma {:induction false} TokensCover(t: string)
    ensures Joined(Tokens(t)) == t
    decreases |t|
  {
    if t != "" {
      var n := TokenLength(t);
      TokensCover(t[n..]);
      JoinedCons(FirstToken(t), Tokens(t[n..]));
      FirstText(t);
      CutAndJoin(t, n);
    }
  }
}
