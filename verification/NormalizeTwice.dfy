/** When a second pass of the normaliser changes the text again. */
module NormalizeTwice {
  import opened Normalize
  import opened NormalizeLaws

  // ----- normalising twice

  predicate HasCommentOpener(t: string) {
    exists i :: 0 <= i < |t| && OpensComment(t[i..])
  }

  function Weight(pen: Pen): nat {
    |pen.out| + if pen.space then 1 else 0
  }

  lemma {:induction false} OneCharacterAToken(pen: Pen, tokens: seq<Token>)
    ensures |WriteAll(pen, tokens).out| <= Weight(pen) + |tokens|
    decreases |tokens|
  {
    if tokens != [] {
      assert Weight(Write(pen, tokens[0])) <= Weight(pen) + 1;
      OneCharacterAToken(Write(pen, tokens[0]), tokens[1..]);
    }
  }

  lemma {:induction false} FewerTokensThanCharacters(t: string)
    ensures |Tokens(t)| <= |t|
    ensures |Tokens(t)| == |t| ==> forall i :: 0 <= i < |t| ==> TokenLength(t[i..]) == 1
    decreases |t|
  {
    if t != "" {
      var rest := t[TokenLength(t)..];
      FewerTokensThanCharacters(rest);
      if |Tokens(t)| == |t| {
        forall i | 0 <= i < |t| ensures TokenLength(t[i..]) == 1 {
          if i == 0 {
            assert t[0..] == t;
          } else {
            assert t[i..] == rest[i - 1..];
          }
        }
      }
    }
  }

  /** The pen after copying the first i characters of t. */
  predicate Copied(pen: Pen, t: string, i: nat)
    requires i <= |t|
  {
    if i > 0 && t[i - 1] == ' ' then pen.out == t[..i - 1] && pen.space else pen.out == t[..i] && !pen.space
  }

  lemma {:induction false} CopiesThrough(pen: Pen, t: string, i: nat)
    requires WellSpaced(t) && AllPlain(t) && !HasCommentOpener(t)
    requires i <= |t| && Copied(pen, t, i)
    ensures WriteAll(pen, Tokens(t[i..])).out == t
    decreases |t| - i
  {
    if i < |t| {
      var u := t[i..];
      assert !OpensComment(u) && Plain(t[i]) && TokenLength(u) == 1;
      assert u[1..] == t[i + 1..];
      assert t[..i + 1] == t[..i] + [t[i]];
      if t[i] == ' ' {
        assert IsSpace(t[i]) && 0 < i;
        assert !IsSpace(t[i - 1]);
      } else {
        assert !IsSpace(t[i]);
        if i > 0 && t[i - 1] == ' ' {
          assert IsSpace(t[i - 1]) && 0 < i - 1;
          assert t[..i] == t[..i - 1] + " ";
        }
      }
      CopiesThrough(Write(pen, FirstToken(u)), t, i + 1);
    } else {
      assert t[i..] == "";
      assert i > 0 ==> !IsSpace(t[i - 1]);
      assert t[..i] == t;
    }
  }

  /** The statements that normalisation leaves alone. */
  lemma FixedPointIff(t: string)
    ensures NormalForm(t) == t <==> WellSpaced(t) && AllPlain(t) && !HasCommentOpener(t)
  {
    OutputForm(t);
    if NormalForm(t) == t {
      OneCharacterAToken(BLANK_PEN, Tokens(t));
      FewerTokensThanCharacters(t);
      forall i | 0 <= i < |t| ensures !OpensComment(t[i..]) {
        assert TokenLength(t[i..]) == 1 && Plain(t[i..][0]);
      }
    }
    if WellSpaced(t) && AllPlain(t) && !HasCommentOpener(t) {
      assert t[0..] == t;
      CopiesThrough(BLANK_PEN, t, 0);
    }
  }

  /** A second pass changes the output exactly when the output opens a comment. */
  lemma SecondPass(statement: string)
    ensures NormalForm(NormalForm(statement)) == NormalForm(statement) <==> !HasCommentOpener(NormalForm(statement))
  {
    OutputForm(statement);
    FixedPointIff(NormalForm(statement));
  }

  // ----- what the output ends in and what the tokens end in

  predicate Ends(t: string, c: char) {
    t != "" && t[|t| - 1] == c
  }

  predicate EndsInDashes(t: string) {
    |t| > 1 && t[|t| - 1] == '-' && t[|t| - 2] == '-'
  }

  /** "--" and a space. */
  predicate HasDashes(t: string) {
    exists i :: 0 <= i < |t| - 2 && t[i] == '-' && t[i + 1] == '-' && t[i + 2] == ' '
  }

  predicate HasSlashStar(t: string) {
    exists i :: 0 <= i < |t| - 1 && t[i] == '/' && t[i + 1] == '*'
  }

  lemma AppendOpeners(t: string, c: char)
    requires c != ' '
    ensures HasDashes(t + [c]) <==> HasDashes(t)
    ensures HasSlashStar(t + [c]) <==> HasSlashStar(t) || (Ends(t, '/') && c == '*')
  {
    var u := t + [c];
    if i :| 0 <= i < |t| - 2 && t[i] == '-' && t[i + 1] == '-' && t[i + 2] == ' ' {
      assert u[i] == '-' && u[i + 1] == '-' && u[i + 2] == ' ';
    }
    if i :| 0 <= i < |t| - 1 && t[i] == '/' && t[i + 1] == '*' {
      assert u[i] == '/' && u[i + 1] == '*';
    }
    if Ends(t, '/') && c == '*' {
      assert u[|t| - 1] == '/' && u[|t| - 1 + 1] == '*';
    }
  }

  lemma AppendSpace(t: string)
    ensures HasDashes(t + " ") <==> HasDashes(t) || EndsInDashes(t)
    ensures HasSlashStar(t + " ") <==> HasSlashStar(t)
  {
    var u := t + " ";
    if i :| 0 <= i < |t| - 2 && t[i] == '-' && t[i + 1] == '-' && t[i + 2] == ' ' {
      assert u[i] == '-' && u[i + 1] == '-' && u[i + 2] == ' ';
    }
    if EndsInDashes(t) {
      assert u[|t| - 2] == '-' && u[|t| - 2 + 1] == '-' && u[|t| - 2 + 2] == ' ';
    }
    if i :| 0 <= i < |t| - 1 && t[i] == '/' && t[i + 1] == '*' {
      assert u[i] == '/' && u[i + 1] == '*';
    }
  }

  /** Writes, at most, a space before the next token. */
  predicate IsGap(token: Token) {
    token.Comment? || token.Blank?
  }

  predicate EndsInCode(tokens: seq<Token>, c: char) {
    tokens != [] && tokens[|tokens| - 1] == Code(c)
  }

  predicate TwoDashes(tokens: seq<Token>) {
    EndsInCode(tokens, '-') && EndsInCode(tokens[..|tokens| - 1], '-')
  }

  /** Two dashes, and after them one gap or more, and nothing else. */
  predicate Pending(tokens: seq<Token>) {
    tokens != [] && IsGap(tokens[|tokens| - 1]) &&
    (Pending(tokens[..|tokens| - 1]) || TwoDashes(tokens[..|tokens| - 1]))
  }

  /** A token that is not a gap has come after pending dashes. */
  predicate Completed(tokens: seq<Token>) {
    tokens != [] &&
    (Completed(tokens[..|tokens| - 1]) || (!IsGap(tokens[|tokens| - 1]) && Pending(tokens[..|tokens| - 1])))
  }

  predicate SlashThenStar(tokens: seq<Token>) {
    tokens != [] &&
    var front := tokens[..|tokens| - 1];
    SlashThenStar(front) || (tokens[|tokens| - 1] == Code('*') && EndsInCode(front, '/'))
  }

  /** The pen agrees with the tokens written so far. */
  predicate InStep(pen: Pen, seen: seq<Token>) {
    && (pen.space ==> pen.out != "")
    && (pen.placeholder ==> Ends(pen.out, '?'))
    && (!pen.space && Ends(pen.out, '-') <==> EndsInCode(seen, '-'))
    && (!pen.space && Ends(pen.out, '/') <==> EndsInCode(seen, '/'))
    && (!pen.space && EndsInDashes(pen.out) <==> TwoDashes(seen))
    && (pen.space && EndsInDashes(pen.out) <==> Pending(seen))
    && (HasDashes(pen.out) <==> Completed(seen))
    && (HasSlashStar(pen.out) <==> SlashThenStar(seen))
  }

  lemma StaysInStep(pen: Pen, seen: seq<Token>, token: Token)
    requires InStep(pen, seen) && CodeIsPlain(token)
    ensures InStep(Write(pen, token), seen + [token])
  {
    assert (seen + [token])[..|seen|] == seen;
    if !IsGap(token) {
      var c := if token.Code? then token.c else '?';
      AppendSpace(pen.out);
      AppendOpeners(pen.out, c);
      AppendOpeners(pen.out + " ", c);
    }
  }

  lemma {:induction false} WriteAllSnoc(pen: Pen, tokens: seq<Token>, token: Token)
    ensures WriteAll(pen, tokens + [token]) == Write(WriteAll(pen, tokens), token)
    decreases |tokens|
  {
    if tokens == [] {
      assert [token][1..] == [];
    } else {
      assert (tokens + [token])[1..] == tokens[1..] + [token];
      WriteAllSnoc(Write(pen, tokens[0]), tokens[1..], token);
    }
  }

  lemma {:induction false} AlwaysInStep(tokens: seq<Token>)
    requires forall i :: 0 <= i < |tokens| ==> CodeIsPlain(tokens[i])
    ensures InStep(WriteAll(BLANK_PEN, tokens), tokens)
  {
    if tokens != [] {
      var front, last := tokens[..|tokens| - 1], tokens[|tokens| - 1];
      AlwaysInStep(front);
      WriteAllSnoc(BLANK_PEN, front, last);
      StaysInStep(WriteAll(BLANK_PEN, front), front, last);
      assert front + [last] == tokens;
    }
  }

  // ----- openers in the output

  lemma {:induction false} SlashStarIsOneToken(t: string, i: nat)
    requires i + 1 < |Tokens(t)|
    ensures !(Tokens(t)[i] == Code('/') && Tokens(t)[i + 1] == Code('*'))
    decreases i
  {
    var rest := t[TokenLength(t)..];
    if i > 0 {
      SlashStarIsOneToken(rest, i - 1);
    } else if FirstToken(t) == Code('/') {
      assert Tokens(t)[1] == FirstToken(rest);
    }
  }

  lemma {:induction false} NoSlashThenStar(t: string, n: nat)
    requires n <= |Tokens(t)|
    ensures !SlashThenStar(Tokens(t)[..n])
  {
    if n > 0 {
      NoSlashThenStar(t, n - 1);
      assert Tokens(t)[..n][..n - 1] == Tokens(t)[..n - 1];
      if n > 1 {
        SlashStarIsOneToken(t, n - 2);
      }
    }
  }

  lemma OpenersOfPlainText(t: string)
    requires WellSpaced(t) && AllPlain(t)
    ensures HasCommentOpener(t) <==> HasDashes(t) || HasSlashStar(t)
  {
    if i :| 0 <= i < |t| && OpensComment(t[i..]) {
      assert Plain(t[i]);
      if IsDashDash(t[i..]) {
        assert t[i] == '-' && t[i + 1] == '-' && EndsDashDash(t[i + 2]) && IsSpace(t[i + 2]);
      } else {
        assert t[i] == '/' && t[i + 1] == '*';
      }
    }
    if i :| 0 <= i < |t| - 2 && t[i] == '-' && t[i + 1] == '-' && t[i + 2] == ' ' {
      assert IsDashDash(t[i..]);
    }
    if i :| 0 <= i < |t| - 1 && t[i] == '/' && t[i + 1] == '*' {
      assert IsBlockOpen(t[i..]);
    }
  }

  lemma OutputOpensIff(statement: string)
    ensures HasCommentOpener(NormalForm(statement)) <==> Completed(Tokens(statement))
  {
    var tokens := Tokens(statement);
    OutputForm(statement);
    forall i | 0 <= i < |tokens| ensures CodeIsPlain(tokens[i]) {
      TokensArePlain(statement, i);
    }
    AlwaysInStep(tokens);
    NoSlashThenStar(statement, |tokens|);
    assert tokens[..|tokens|] == tokens;
    OpenersOfPlainText(NormalForm(statement));
  }

  // ----- the condition on the tokens of the statement

  /** Two dashes that are code, a comment or blank after them, and some later
      token that is neither. */
  predicate ReopensAt(tokens: seq<Token>, i: int, j: int) {
    && 0 <= i && i + 2 < j < |tokens|
    && tokens[i] == Code('-') && tokens[i + 1] == Code('-') && IsGap(tokens[i + 2])
    && !IsGap(tokens[j])
  }

  predicate Reopens(tokens: seq<Token>) {
    exists i, j | 0 <= i < j < |tokens| :: ReopensAt(tokens, i, j)
  }

  lemma {:induction false} PendingFrom(tokens: seq<Token>, i: nat)
    requires i + 2 < |tokens| && tokens[i] == Code('-') && tokens[i + 1] == Code('-')
    requires forall k :: i + 2 <= k < |tokens| ==> IsGap(tokens[k])
    ensures Pending(tokens)
  {
    var front := tokens[..|tokens| - 1];
    if i + 3 == |tokens| {
      assert TwoDashes(front);
    } else {
      PendingFrom(front, i);
    }
  }

  lemma {:induction false} PendingComesFrom(tokens: seq<Token>) returns (i: nat)
    requires Pending(tokens)
    ensures i + 2 < |tokens| && tokens[i] == Code('-') && tokens[i + 1] == Code('-') && IsGap(tokens[i + 2])
  {
    var front := tokens[..|tokens| - 1];
    if TwoDashes(front) {
      i := |tokens| - 3;
    } else {
      i := PendingComesFrom(front);
    }
  }

  lemma {:induction false} CompletedIffReopens(tokens: seq<Token>)
    ensures Completed(tokens) <==> Reopens(tokens)
  {
    if tokens != [] {
      var n := |tokens| - 1;
      var front := tokens[..n];
      CompletedIffReopens(front);
      if Reopens(front) {
        var i, j :| 0 <= i < j < |front| && ReopensAt(front, i, j);
        assert ReopensAt(tokens, i, j);
      }
      if !IsGap(tokens[n]) && Pending(front) {
        var i := PendingComesFrom(front);
        assert ReopensAt(tokens, i, n);
      }
      if Reopens(tokens) && !Reopens(front) {
        ReopensLast(tokens);
      }
    }
  }

  lemma ReopensLast(tokens: seq<Token>)
    requires tokens != [] && Reopens(tokens) && !Reopens(tokens[..|tokens| - 1])
    ensures !IsGap(tokens[|tokens| - 1]) && Pending(tokens[..|tokens| - 1])
  {
    var n := |tokens| - 1;
    var front := tokens[..n];
    var i, j :| 0 <= i < j < |tokens| && ReopensAt(tokens, i, j);
    assert j < n ==> ReopensAt(front, i, j);
    forall k | i + 2 <= k < n ensures IsGap(front[k]) {
      assert k > i + 2 && !IsGap(front[k]) ==> ReopensAt(front, i, k);
    }
    PendingFrom(front, i);
  }

  /** Normalising a second time changes the text exactly when, in the statement,
      two dashes of code are followed by a comment or a blank, and later by
      something that is written. */
  lemma IdempotentIff(statement: string)
    ensures NormalForm(NormalForm(statement)) == NormalForm(statement) <==> !Reopens(Tokens(statement))
  {
    SecondPass(statement);
    OutputOpensIff(statement);
    CompletedIffReopens(Tokens(statement));
  }

  // ----- two statements that change again

  lemma BlockThenX()
    ensures Tokens("/**/x") == [FirstToken("/**/x"), Code('x')] && FirstToken("/**/x").Comment?
  {
    assert "/**/x"[2..] == "*/x" && "/**/x"[4..] == "x" && "x"[1..] == "";
    assert BlockRest("*/x") == 2 && TokenLength("/**/x") == 4;
    assert Tokens("x") == [Code('x')];
  }

  lemma CodeThen(c: char, rest: string)
    requires FirstToken([c] + rest) == Code(c)
    ensures Tokens([c] + rest) == [Code(c)] + Tokens(rest)
  {
    assert ([c] + rest)[1..] == rest;
  }

  lemma OpenedAgain()
    ensures Tokens("--/**/x") == [Code('-'), Code('-'), FirstToken("/**/x"), Code('x')]
    ensures FirstToken("/**/x").Comment?
  {
    BlockThenX();
    assert "-/**/x" == "-" + "/**/x" && "--/**/x" == "-" + "-/**/x";
    CodeThen('-', "/**/x");
    CodeThen('-', "-/**/x");
  }

  lemma DashComment()
    ensures Tokens("-- x") == [FirstToken("-- x")] && FirstToken("-- x").Comment?
  {
    var w := "-- x";
    assert w[1..] == "- x" && "- x"[1..] == " x" && " x"[1..] == "x";
    assert LineRest("x") == 1 && LineRest(" x") == 2 && LineRest("- x") == 3;
    assert TokenLength(w) == 4 && w[4..] == "";
  }

  lemma WriteFour(pen: Pen, a: Token, b: Token, c: Token, d: Token)
    ensures WriteAll(pen, [a, b, c, d]) == Write(Write(Write(Write(pen, a), b), c), d)
  {
    assert [a, b, c, d][1..] == [b, c, d] && [b, c, d][1..] == [c, d] && [c, d][1..] == [d] && [d][1..] == [];
    var p2 := Write(Write(pen, a), b);
    assert WriteAll(p2, [c, d]) == WriteAll(Write(p2, c), [d]);
    assert WriteAll(Write(p2, c), [d]) == WriteAll(Write(Write(p2, c), d), []);
  }

  lemma CommentDropsOut()
    ensures NormalForm("--/**/x") == "-- x"
  {
    OpenedAgain();
    WritesDashes(FirstToken("/**/x"));
    OutputForm("--/**/x");
  }

  lemma WritesDashes(gap: Token)
    requires IsGap(gap)
    ensures WriteAll(BLANK_PEN, [Code('-'), Code('-'), gap, Code('x')]).out == "-- x"
  {
    WriteFour(BLANK_PEN, Code('-'), Code('-'), gap, Code('x'));
  }

  lemma BlankThen(c: char, rest: string)
    requires IsSpace(c)
    ensures Tokens([c] + rest) == [Blank([c])] + Tokens(rest)
  {
    assert ([c] + rest)[1..] == rest && ([c] + rest)[..1] == [c];
  }

  lemma LoneToken(c: char)
    requires FirstToken([c]) == Code(c)
    ensures Tokens([c]) == [Code(c)]
  {
    assert [c][1..] == "";
  }

  lemma DashesThen(rest: string)
    requires !OpensComment("-" + rest) && !OpensComment("-" + ("-" + rest))
    ensures Tokens("-" + ("-" + rest)) == [Code('-'), Code('-')] + Tokens(rest)
  {
    CodeThen('-', rest);
    CodeThen('-', "-" + rest);
  }

  lemma TabTokens()
    ensures Tokens(['-', '-', '\U{0B}', 'x']) == [Code('-'), Code('-'), Blank(['\U{0B}']), Code('x')]
  {
    var tabbed := ['\U{0B}'] + ['x'];
    LoneToken('x');
    BlankThen('\U{0B}', ['x']);
    DashesThen(tabbed);
    assert "-" + ("-" + tabbed) == ['-', '-', '\U{0B}', 'x'];
  }

  /** A vertical tab is a blank that does not make a comment of "--", but the
      space written for it does. */
  lemma BlankBecomesSpace()
    ensures NormalForm(['-', '-', '\U{0B}', 'x']) == "-- x"
  {
    TabTokens();
    WritesDashes(Blank(['\U{0B}']));
    OutputForm(['-', '-', '\U{0B}', 'x']);
  }

  lemma CommentOpensAgain()
    ensures NormalForm("-- x") == ""
  {
    DashComment();
    assert WriteAll(BLANK_PEN, Tokens("-- x")).out == "";
    OutputForm("-- x");
  }

  lemma NotIdempotent()
    ensures NormalForm("--/**/x") == "-- x"
    ensures NormalForm(['-', '-', '\U{0B}', 'x']) == "-- x"
    ensures NormalForm("-- x") == ""
  {
    BlankBecomesSpace();
    CommentDropsOut();
    CommentOpensAgain();
  }
}
