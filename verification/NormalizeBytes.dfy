/**
 What normalising its own output does to a statement. The output is bytes, and
 the next pass takes each of them for a code point again.
 */
module NormalizeBytes {
  import opened Normalize
  import opened NormalizeLaws
  import opened NormalizeTwice

  predicate IsBytes(t: string) {
    forall i :: 0 <= i < |t| ==> t[i] < '\U{0100}'
  }

  predicate Ascii(t: string) {
    forall i :: 0 <= i < |t| ==> t[i] < '\U{80}'
  }

  // ----- the encoding

  lemma {:induction false} Utf8IsLonger(t: string)
    ensures |Utf8(t)| >= |t|
    ensures |Utf8(t)| == |t| <==> Ascii(t)
  {
    if t != "" {
      Utf8IsLonger(t[..|t| - 1]);
    }
  }

  lemma {:induction false} Utf8OfAscii(t: string)
    requires Ascii(t)
    ensures Utf8(t) == t
  {
    if t != "" {
      Utf8OfAscii(t[..|t| - 1]);
    }
  }

  /** The last byte tells how long the last rune is. */
  lemma LastRune(front: string, c: char)
    ensures var t := front + Rune(c);
            && |Rune(c)| == (if t[|t| - 1] < '\U{80}' then 1 else 2)
            && t[|t| - |Rune(c)|..] == Rune(c) && t[..|t| - |Rune(c)|] == front
  {
  }

  lemma SameLastRune(a: string, c: char, b: string, d: char)
    requires c < '\U{0100}' && d < '\U{0100}' && a + Rune(c) == b + Rune(d)
    ensures a == b && c == d
  {
    LastRune(a, c);
    LastRune(b, d);
  }

  lemma SplitUtf8(t: string) returns (front: string, c: char)
    requires t != ""
    ensures t == front + [c] && Utf8(t) == Utf8(front) + Rune(c)
  {
    front, c := t[..|t| - 1], t[|t| - 1];
  }

  lemma {:induction false} Utf8Injective(a: string, b: string)
    requires IsBytes(a) && IsBytes(b) && Utf8(a) == Utf8(b)
    ensures a == b
    decreases |a|
  {
    if a != "" && b != "" {
      var front, c := SplitUtf8(a);
      var front', d := SplitUtf8(b);
      assert a[|front|] == c && b[|front'|] == d;
      assert forall i :: 0 <= i < |front| ==> front[i] == a[i];
      assert forall i :: 0 <= i < |front'| ==> front'[i] == b[i];
      SameLastRune(Utf8(front), c, Utf8(front'), d);
      Utf8Injective(front, front');
    }
  }

  predicate Encodable(c: char) {
    c < '\U{C0}' || c == '\U{C2}' || c == '\U{C3}'
  }

  /** Every byte of an encoding is one that Rune can write. */
  lemma {:induction false} Utf8Bytes(t: string)
    ensures forall i :: 0 <= i < |Utf8(t)| ==> Encodable(Utf8(t)[i])
    ensures IsBytes(Utf8(t))
  {
    if t != "" {
      Utf8Bytes(t[..|t| - 1]);
    }
  }

  // ----- openers and blanks survive the encoding

  lemma AppendOne(t: string, c: char)
    ensures HasDashes(t + [c]) <==> HasDashes(t) || (EndsInDashes(t) && c == ' ')
    ensures HasSlashStar(t + [c]) <==> HasSlashStar(t) || (Ends(t, '/') && c == '*')
  {
    AppendSpace(t);
    if c != ' ' {
      AppendOpeners(t, c);
    }
  }

  /** What openers can be made of at the end of the text. */
  predicate SameEnd(t: string, u: string) {
    && (Ends(t, '-') <==> Ends(u, '-'))
    && (Ends(t, '/') <==> Ends(u, '/'))
    && (Ends(t, ' ') <==> Ends(u, ' '))
    && (EndsInDashes(t) <==> EndsInDashes(u))
    && (HasDashes(t) <==> HasDashes(u))
    && (HasSlashStar(t) <==> HasSlashStar(u))
  }

  lemma SameEndAfterRune(t: string, u: string, c: char)
    requires SameEnd(t, u)
    ensures SameEnd(t + [c], u + Rune(c))
  {
    var bytes := Rune(c);
    AppendOne(t, c);
    AppendOne(u, bytes[0]);
    if |bytes| == 2 {
      AppendOne(u + [bytes[0]], bytes[1]);
      assert u + bytes == u + [bytes[0]] + [bytes[1]];
    } else {
      assert bytes == [c];
    }
  }

  lemma {:induction false} Utf8KeepsOpeners(t: string)
    ensures SameEnd(t, Utf8(t))
  {
    if t != "" {
      var n := |t| - 1;
      Utf8KeepsOpeners(t[..n]);
      SameEndAfterRune(t[..n], Utf8(t[..n]), t[n]);
      assert t == t[..n] + [t[n]];
    }
  }

  /** Blanks are single spaces after other characters; one may be the last. */
  predicate SpacedSoFar(t: string) {
    forall i :: 0 <= i < |t| && IsSpace(t[i]) ==> t[i] == ' ' && 0 < i && t[i - 1] != ' '
  }

  lemma SpacedSnoc(t: string, c: char)
    requires SpacedSoFar(t)
    ensures SpacedSoFar(t + [c]) <==> (IsSpace(c) ==> c == ' ' && t != "" && !Ends(t, ' '))
  {
    var u := t + [c];
    assert u[|t|] == c;
    assert forall i :: 0 <= i < |t| ==> u[i] == t[i];
  }

  lemma WellSpacedIff(t: string)
    ensures WellSpaced(t) <==> SpacedSoFar(t) && !Ends(t, ' ')
  {
    if SpacedSoFar(t) && !Ends(t, ' ') {
      forall i | 0 <= i < |t| && IsSpace(t[i]) ensures t[i] == ' ' && 0 < i < |t| - 1 && t[i + 1] != ' ' {
        assert i + 1 < |t| ==> !IsSpace(t[i + 1]);
      }
    }
    if WellSpaced(t) {
      forall i | 0 <= i < |t| && IsSpace(t[i]) ensures t[i] == ' ' && 0 < i && t[i - 1] != ' ' {
        assert !IsSpace(t[i - 1]);
      }
    }
  }

  lemma SpacedRune(u: string, c: char)
    requires SpacedSoFar(u) && AllPlain(u) && Encodable(c) && Plain(c)
    requires IsSpace(c) ==> c == ' ' && u != "" && !Ends(u, ' ')
    ensures SpacedSoFar(u + Rune(c)) && AllPlain(u + Rune(c))
  {
    var bytes := Rune(c);
    SpacedSnoc(u, bytes[0]);
    if |bytes| == 2 {
      SpacedSnoc(u + [bytes[0]], bytes[1]);
      assert u + bytes == u + [bytes[0]] + [bytes[1]];
    } else {
      assert bytes == [c];
    }
  }

  /** Encoding a text of encodable characters makes no blank of its own. */
  lemma {:induction false} Utf8KeepsSpacing(t: string)
    requires SpacedSoFar(t) && AllPlain(t) && forall i :: 0 <= i < |t| ==> Encodable(t[i])
    ensures SpacedSoFar(Utf8(t)) && AllPlain(Utf8(t))
  {
    if t != "" {
      var front, c := SplitUtf8(t);
      assert c == t[|front|] && forall i :: 0 <= i < |front| ==> front[i] == t[i];
      Utf8KeepsSpacing(front);
      Utf8KeepsOpeners(front);
      SpacedSnoc(front, c);
      SpacedRune(Utf8(front), c);
    }
  }

  // ----- the characters of the output

  lemma {:induction false} WrittenCharacters(pen: Pen, tokens: seq<Token>, c: char)
    requires c != ' ' && c != '?'
    ensures c in WriteAll(pen, tokens).out ==> c in pen.out || Code(c) in tokens
    decreases |tokens|
  {
    if tokens != [] {
      WrittenCharacters(Write(pen, tokens[0]), tokens[1..], c);
    }
  }

  /** The output is made of spaces, placeholders and characters of the statement. */
  lemma OutputCharacters(t: string)
    ensures forall c :: c in NormalForm(t) ==> c == ' ' || c == '?' || c in t
  {
    OutputForm(t);
    forall c | c in NormalForm(t) ensures c == ' ' || c == '?' || c in t {
      if c != ' ' && c != '?' {
        WrittenCharacters(BLANK_PEN, Tokens(t), c);
        var i :| 0 <= i < |Tokens(t)| && Tokens(t)[i] == Code(c);
        TokensArePlain(t, i);
      }
    }
  }

  lemma OutputOfBytes(t: string)
    requires IsBytes(t)
    ensures IsBytes(NormalForm(t))
  {
    OutputCharacters(t);
    var y := NormalForm(t);
    forall i | 0 <= i < |y| ensures y[i] < '\U{0100}' {
      assert y[i] in y;
    }
  }

  /** No code token is a byte from 0x80 up. */
  predicate AsciiCode(tokens: seq<Token>) {
    forall i :: 0 <= i < |tokens| && tokens[i].Code? ==> tokens[i].c < '\U{80}'
  }

  lemma {:induction false} WriteAllAscii(pen: Pen, tokens: seq<Token>)
    ensures Ascii(WriteAll(pen, tokens).out) <==> Ascii(pen.out) && AsciiCode(tokens)
    decreases |tokens|
  {
    if tokens != [] {
      var first, rest := tokens[0], tokens[1..];
      WriteAscii(pen, first);
      WriteAllAscii(Write(pen, first), rest);
      assert AsciiCode(tokens) <==> (first.Code? ==> first.c < '\U{80}') && AsciiCode(rest) by {
        assert tokens == [first] + rest;
      }
    }
  }

  lemma WriteAscii(pen: Pen, token: Token)
    ensures Ascii(Write(pen, token).out) <==> Ascii(pen.out) && (token.Code? ==> token.c < '\U{80}')
  {
    AsciiSnoc(pen.out, ' ');
    AsciiSnoc(pen.out, '?');
    AsciiSnoc(pen.out + " ", '?');
    if token.Code? {
      AsciiSnoc(pen.out, token.c);
      AsciiSnoc(pen.out + " ", token.c);
    }
  }

  lemma AsciiSnoc(t: string, c: char)
    ensures Ascii(t + [c]) <==> Ascii(t) && c < '\U{80}'
  {
    assert forall i :: 0 <= i < |t| ==> (t + [c])[i] == t[i];
    assert (t + [c])[|t|] == c;
  }

  lemma OutputAsciiIff(t: string)
    ensures Ascii(NormalForm(t)) <==> AsciiCode(Tokens(t))
  {
    OutputForm(t);
    WriteAllAscii(BLANK_PEN, Tokens(t));
  }

  // ----- a line comment takes the rest of a normalised text

  /** Plain characters, no blank but the space, and no opening of a block. */
  predicate Flat(t: string) {
    && AllPlain(t)
    && (forall i :: 0 <= i < |t| && IsSpace(t[i]) ==> t[i] == ' ')
    && (forall i :: 0 <= i < |t| - 1 && t[i] == '/' ==> t[i + 1] != '*')
  }

  lemma FlatTokens(t: string)
    requires t != "" && Flat(t)
    ensures if IsDashDash(t) then Tokens(t) == [FirstToken(t)]
            else TokenLength(t) == 1 && Flat(t[1..]) && !FirstToken(t).Comment?
                 && Tokens(t) == [FirstToken(t)] + Tokens(t[1..])
  {
    assert Plain(t[0]);
    if IsDashDash(t) {
      NoLineFeed(t[1..]);
      assert Flat(t[1..]);
      assert TokenLength(t) == |t| && t[|t|..] == "";
    } else {
      assert Flat(t[1..]);
    }
  }

  lemma {:induction false} NoLineFeed(t: string)
    requires forall i :: 0 <= i < |t| ==> t[i] != '\n'
    ensures LineRest(t) == |t|
  {
    if t != "" {
      NoLineFeed(t[1..]);
    }
  }

  lemma {:induction false} FlatNeverReopens(t: string, i: nat, j: nat)
    requires Flat(t)
    ensures !ReopensAt(Tokens(t), i, j)
    decreases i
  {
    if ReopensAt(Tokens(t), i, j) {
      FlatTokens(t);
      if i > 0 {
        FlatNeverReopens(t[1..], i - 1, j - 1);
      } else {
        FlatTokens(t[1..]);
        FlatTokens(t[1..][1..]);
      }
    }
  }

  // ----- the second pass

  /** Normalising the encoding of a text that is not ASCII does not give the
      text back. */
  lemma EncodedIsNotFixed(y: string)
    requires WellSpaced(y) && AllPlain(y) && !HasSlashStar(y) && IsBytes(y) && !Ascii(y)
    ensures NormalForm(Utf8(y)) != y
  {
    var t := Utf8(y);
    if NormalForm(t) == y {
      CameThrough(y);
      EncodedForm(y);
      Utf8KeepsOpeners(y);
      if HasCommentOpener(t) {
        OpenersOfPlainText(t);
        OpenersOfPlainText(y);
        EncodedNeverReopens(y);
        OutputOpensIff(t);
        CompletedIffReopens(Tokens(t));
      } else {
        FixedPointIff(t);
        Utf8IsLonger(y);
      }
    }
  }

  lemma CameThrough(y: string)
    requires NormalForm(Utf8(y)) == y
    ensures forall i :: 0 <= i < |y| ==> Encodable(y[i])
  {
    OutputCharacters(Utf8(y));
    forall i | 0 <= i < |y| ensures Encodable(y[i]) {
      EncodedCharacter(y, y[i]);
    }
  }

  lemma EncodedCharacter(y: string, c: char)
    requires c in y && (c == ' ' || c == '?' || c in Utf8(y))
    ensures Encodable(c)
  {
    Utf8Bytes(y);
  }

  lemma EncodedForm(y: string)
    requires WellSpaced(y) && AllPlain(y) && forall i :: 0 <= i < |y| ==> Encodable(y[i])
    ensures WellSpaced(Utf8(y)) && AllPlain(Utf8(y))
  {
    WellSpacedIff(y);
    Utf8KeepsSpacing(y);
    Utf8KeepsOpeners(y);
    WellSpacedIff(Utf8(y));
  }

  lemma EncodedNeverReopens(y: string)
    requires WellSpaced(Utf8(y)) && AllPlain(Utf8(y)) && !HasSlashStar(Utf8(y))
    ensures !Reopens(Tokens(Utf8(y)))
  {
    var tokens := Tokens(Utf8(y));
    if Reopens(tokens) {
      var i, j :| 0 <= i < j < |tokens| && ReopensAt(tokens, i, j);
      FlatNeverReopens(Utf8(y), i, j);
    }
  }

  lemma OutputHasNoSlashStar(statement: string)
    ensures !HasSlashStar(NormalForm(statement))
  {
    OutputForm(statement);
    forall i | 0 <= i < |Tokens(statement)| ensures CodeIsPlain(Tokens(statement)[i]) {
      TokensArePlain(statement, i);
    }
    AlwaysInStep(Tokens(statement));
    NoSlashThenStar(statement, |Tokens(statement)|);
    assert Tokens(statement)[..|Tokens(statement)|] == Tokens(statement);
  }

  /** Normalising a second time leaves the logged text alone exactly when no byte
      of code in the statement is from 0x80 up, and no two dashes of code are
      followed by a comment or a blank and later by another token. */
  lemma LoggedTwiceIff(statement: string)
    requires IsBytes(statement)
    ensures Logged(Logged(statement)) == Logged(statement)
            <==> AsciiCode(Tokens(statement)) && !Reopens(Tokens(statement))
  {
    var y := NormalForm(statement);
    OutputAsciiIff(statement);
    OutputOfBytes(statement);
    OutputForm(statement);
    Utf8Bytes(y);
    OutputOfBytes(Utf8(y));
    if Logged(Utf8(y)) == Utf8(y) {
      Utf8Injective(NormalForm(Utf8(y)), y);
    }
    if Ascii(y) {
      Utf8OfAscii(y);
      IdempotentIff(statement);
    } else {
      OutputHasNoSlashStar(statement);
      EncodedIsNotFixed(y);
    }
  }

  /** The statements that are logged as they are. */
  lemma LoggedAsIsIff(t: string)
    requires IsBytes(t)
    ensures Logged(t) == t <==> WellSpaced(t) && AllPlain(t) && !HasCommentOpener(t) && Ascii(t)
  {
    FixedPointIff(t);
    if Logged(t) == t {
      LoggedTwiceIff(t);
      OutputAsciiIff(t);
      Utf8OfAscii(NormalForm(t));
    }
    if Ascii(t) {
      Utf8OfAscii(t);
    }
  }

  /** Two byte strings are logged alike exactly when they normalise alike. */
  lemma LoggedAlikeIff(a: string, b: string)
    requires IsBytes(a) && IsBytes(b)
    ensures Logged(a) == Logged(b) <==> NormalForm(a) == NormalForm(b)
  {
    OutputOfBytes(a);
    OutputOfBytes(b);
    if Logged(a) == Logged(b) {
      Utf8Injective(NormalForm(a), NormalForm(b));
    }
  }

  lemma Utf8OfTwo(c: char, d: char)
    ensures Utf8([c]) == Rune(c) && Utf8([c, d]) == Rune(c) + Rune(d)
  {
    Utf8Snoc("", c);
    Utf8Snoc([c], d);
    assert "" + [c] == [c] && [c] + [d] == [c, d] && "" + Rune(c) == Rune(c);
  }

  lemma Untouched(t: string)
    requires forall i :: 0 <= i < |t| ==> t[i] >= '\U{80}' && !IsSpace(t[i])
    ensures NormalForm(t) == t
  {
    FixedPointIff(t);
  }

  /** An accented letter in Latin-1 is encoded, */
  lemma AccentIsEncoded()
    ensures Logged(['\U{E9}']) == ['\U{C3}', '\U{A9}']
  {
    Untouched(['\U{E9}']);
    Utf8OfTwo('\U{E9}', 'x');
  }

  lemma AccentRunes()
    ensures Rune('\U{C3}') + Rune('\U{A9}') == ['\U{C3}', '\U{83}', '\U{C2}', '\U{A9}']
  {
  }

  /** and its encoding is encoded again. */
  lemma AccentGrows()
    ensures Logged(['\U{C3}', '\U{A9}']) == ['\U{C3}', '\U{83}', '\U{C2}', '\U{A9}']
  {
    Untouched(['\U{C3}', '\U{A9}']);
    Utf8OfTwo('\U{C3}', '\U{A9}');
    AccentRunes();
  }
}
