/** What the classifier may conclude from the scanned and normalised statement. */
module ScanLaws {
  import opened Common
  import opened Normalize
  import opened Lexer
  import opened LexerLaws

  // ----- the terminator test

  /** The last character that is not a blank. */
  function LastSolid(t: string): Option<char> {
    if t == "" then None
    else if !IsFieldSpace(t[|t| - 1]) then Some(t[|t| - 1])
    else LastSolid(t[..|t| - 1])
  }

  lemma {:induction false} LastSolidAppend(a: string, b: string)
    ensures LastSolid(a + b) == if LastSolid(b) == None then LastSolid(a) else LastSolid(b)
  {
    if b == "" {
      assert a + b == a;
    } else {
      assert (a + b)[..|a + b| - 1] == a + b[..|b| - 1];
      LastSolidAppend(a, b[..|b| - 1]);
    }
  }

  lemma LastSolidOfOne(c: char)
    ensures LastSolid([c]) == if IsFieldSpace(c) then None else Some(c)
  {
    assert [c][..0] == "";
  }

  lemma LastSolidOfPiece(t: string)
    requires t != ""
    ensures var rest := LastSolid(Scanned(t[Length(Inline, t)..]));
            LastSolid(Scanned(t)) == if rest == None then LastSolid(PieceOutput(t)) else rest
    ensures IsQuote(t[0]) ==> LastSolid(PieceOutput(t)) == Some('?')
    ensures IsCode(t) ==> LastSolid(PieceOutput(t)) == if IsFieldSpace(t[0]) then None else Some(t[0])
    ensures !IsQuote(t[0]) && t[0] != '`' && !IsCode(t) ==> LastSolid(PieceOutput(t)) == None
  {
    LastSolidAppend(PieceOutput(t), Scanned(t[Length(Inline, t)..]));
    LastSolidOfOne('?');
    LastSolidOfOne(' ');
    LastSolidOfOne(t[0]);
  }

  /** No piece writes a character that is not a blank. */
  predicate Silent(t: string)
    decreases |t|
  {
    t == "" || (LastSolid(PieceOutput(t)) == None && Silent(t[Length(Inline, t)..]))
  }

  /** A blank to strings.Fields that is not a blank to the terminator test. */
  predicate OddBlank(c: char) {
    IsFieldSpace(c) && !IsSpaceByte(c)
  }

  /** Some piece is a backquoted name or an odd blank of code. */
  predicate HasOdd(t: string)
    decreases |t|
  {
    t != "" && (t[0] == '`' || (IsCode(t) && OddBlank(t[0])) || HasOdd(t[Length(Inline, t)..]))
  }

  /** The last semicolon written by a piece with only silent ones after it comes
      from a backquoted name, or is followed by an odd piece. */
  predicate Differs(t: string)
    decreases |t|
  {
    t != "" &&
    var rest := t[Length(Inline, t)..];
    Differs(rest) || (LastSolid(PieceOutput(t)) == Some(';') && Silent(rest) && (t[0] == '`' || HasOdd(rest)))
  }

  lemma {:induction false} SilentIff(t: string)
    ensures Silent(t) <==> LastSolid(Scanned(t)) == None
    ensures Silent(t) ==> !Differs(t)
    decreases |t|
  {
    if t != "" {
      LastSolidOfPiece(t);
      SilentIff(t[Length(Inline, t)..]);
    }
  }

  /** Silent pieces leave the last code byte alone, unless one of them is odd;
      then it is no semicolon. */
  lemma {:induction false} LastThroughSilence(t: string, last: char)
    requires Silent(t)
    ensures if HasOdd(t) then Last(t, last) != ';' else Last(t, last) == last
    decreases |t|
  {
    if t != "" {
      LastSolidOfPiece(t);
      var rest := t[Length(Inline, t)..];
      LastThroughSilence(rest, LastAfter(t, last));
    }
  }

  /** The terminator test and the last character written disagree exactly when
      the statement differs. */
  lemma {:induction false} LastIffDiffers(t: string, last: char)
    requires !Silent(t)
    ensures (Last(t, last) == ';' <==> LastSolid(Scanned(t)) == Some(';')) <==> !Differs(t)
    decreases |t|
  {
    var rest := t[Length(Inline, t)..];
    LastSolidOfPiece(t);
    SilentIff(rest);
    if Silent(rest) {
      LastThroughSilence(rest, LastAfter(t, last));
    } else {
      LastIffDiffers(rest, LastAfter(t, last));
    }
  }

  lemma {:induction false} SeenIsWritten(t: string, last: char)
    ensures Last(t, last) == ';' ==> LastSolid(Scanned(t)) == Some(';') || (Silent(t) && last == ';')
    decreases |t|
  {
    if t != "" {
      LastSolidOfPiece(t);
      SeenIsWritten(t[Length(Inline, t)..], LastAfter(t, last));
      SilentIff(t);
      SilentIff(t[Length(Inline, t)..]);
    }
  }

  lemma {:induction false} JoinedKeepsLast(t: string)
    ensures Fields(t) == [] <==> LastSolid(t) == None
    ensures LastSolid(Joined(Fields(t))) == LastSolid(t)
    ensures var j := Joined(Fields(t)); j != "" ==> !IsFieldSpace(j[|j| - 1])
    decreases |t|
  {
    if t != "" {
      if IsFieldSpace(t[0]) {
        JoinedKeepsLast(t[1..]);
        LastSolidAppend([t[0]], t[1..]);
        LastSolidOfOne(t[0]);
        assert [t[0]] + t[1..] == t;
      } else {
        JoinedWord(t);
      }
    }
  }

  lemma {:induction false} JoinedWord(t: string)
    requires t != "" && !IsFieldSpace(t[0])
    ensures Fields(t) != [] && LastSolid(t) != None
    ensures LastSolid(Joined(Fields(t))) == LastSolid(t)
    ensures var j := Joined(Fields(t)); j != "" && !IsFieldSpace(j[|j| - 1])
    decreases |t|, 0
  {
    var n := WordLength(t);
    var word, rest := t[..n], t[n..];
    assert word[n - 1] == t[n - 1];
    JoinedKeepsLast(rest);
    LastSolidAppend(word, rest);
    assert word + rest == t;
    if Fields(rest) == [] {
      assert Fields(t) == [word];
    } else {
      LastSolidAppend(word + " ", Joined(Fields(rest)));
      assert Fields(t)[1..] == Fields(rest);
    }
  }

  predicate EndsIn(t: string, c: char) {
    t != "" && t[|t| - 1] == c
  }

  lemma EndsInIffLastSolid(t: string)
    ensures EndsIn(Joined(Fields(t)), ';') <==> LastSolid(t) == Some(';')
  {
    JoinedKeepsLast(t);
  }

  /** A trailing terminator is the last character of the normalised statement.
      The two tests agree exactly on the statements that do not differ. */
  lemma TerminatorEndsNormalizedIff(statement: string)
    ensures Last(statement, '\0') == ';' ==> EndsIn(Normalized(statement), ';')
    ensures (Last(statement, '\0') == ';' <==> EndsIn(Normalized(statement), ';')) <==> !Differs(statement)
  {
    EndsInIffLastSolid(Scanned(statement));
    SeenIsWritten(statement, '\0');
    SilentIff(statement);
    if Silent(statement) {
      LastThroughSilence(statement, '\0');
    } else {
      LastIffDiffers(statement, '\0');
    }
  }

  lemma {:induction false} OddCharacters(t: string)
    ensures HasOdd(t) ==> exists i :: 0 <= i < |t| && (t[i] == '`' || OddBlank(t[i]))
    ensures Differs(t) ==> HasOdd(t)
    decreases |t|
  {
    if t != "" {
      var n := Length(Inline, t);
      OddCharacters(t[n..]);
      if HasOdd(t[n..]) {
        var i :| 0 <= i < |t[n..]| && (t[n..][i] == '`' || OddBlank(t[n..][i]));
        assert t[n + i] == t[n..][i];
      }
    }
  }

  /** Without backquotes and odd blanks the two tests agree. */
  lemma TerminatorEndsNormalized(statement: string)
    requires forall i :: 0 <= i < |statement| ==> statement[i] != '`' && !OddBlank(statement[i])
    ensures Last(statement, '\0') == ';' <==> EndsIn(Normalized(statement), ';')
  {
    TerminatorEndsNormalizedIff(statement);
    OddCharacters(statement);
  }

  /** A semicolon inside a name, */
  lemma TerminatorInName()
    ensures Last("`;`", '\0') != ';' && EndsIn(Normalized("`;`"), ';')
  {
    var quoted := "`;`";
    assert quoted[1..] == ";`" && ";`"[1..] == "`" && quoted[3..] == "";
    assert IdentRest(";`") == 2 && IdentBody(";`") == ";";
    assert Last(quoted, '\0') == Last("", '`');
    LastSolidOfOne(';');
    TerminatorEndsNormalizedIff(quoted);
  }

  /** and one before any odd blank. */
  lemma TerminatorBeforeOddBlank(blank: char)
    requires OddBlank(blank)
    ensures Last([';', blank], '\0') != ';' && EndsIn(Normalized([';', blank]), ';')
  {
    var s := [';', blank];
    assert s[1..] == [blank] && [blank][1..] == "";
    assert Last(s, '\0') == Last([blank], ';') == Last("", blank);
    LastSolidOfPiece(s);
    LastSolidOfPiece([blank]);
    assert Silent([blank]);
    SilentIff([blank]);
    EndsInIffLastSolid(Scanned(s));
  }

  /** The terminator test can miss a semicolon that ends the normalised text. */
  lemma TerminatorCanBeMissed()
    ensures Last("`;`", '\0') != ';' && EndsIn(Normalized("`;`"), ';')
    ensures Last([';', '\U{0B}'], '\0') != ';' && EndsIn(Normalized([';', '\U{0B}']), ';')
    ensures Last([';', '\U{3000}'], '\0') != ';' && EndsIn(Normalized([';', '\U{3000}']), ';')
  {
    TerminatorInName();
    TerminatorBeforeOddBlank('\U{0B}');
    TerminatorBeforeOddBlank('\U{3000}');
  }

  // ----- versioned comments

  /** From a code position on, the output is what the rest alone would give. */
  lemma {:induction false} ScannedFromCode(t: string, i: nat) returns (k: nat)
    requires i < |t| && Mask(Inline, t)[i]
    ensures k <= |Scanned(t)| && Scanned(t)[k..] == Scanned(t[i..])
    decreases |t|
  {
    if i == 0 {
      k := 0;
    } else {
      var rest, j, d := CodeStep(t, i);
      k := ScannedFromCode(rest, j);
      k := d + k;
    }
  }

  lemma CodeStep(t: string, i: nat) returns (rest: string, j: nat, d: nat)
    requires 0 < i < |t| && Mask(Inline, t)[i]
    ensures |rest| < |t| && j < |rest| && rest[j..] == t[i..] && Mask(Inline, rest)[j]
    ensures d + |Scanned(rest)| == |Scanned(t)|
    ensures forall k :: 0 <= k <= |Scanned(rest)| ==> Scanned(t)[d + k..] == Scanned(rest)[k..]
  {
    rest, j := CodeAfterHead(Inline, t, i);
    d := ScannedSuffixes(t, rest);
  }

  lemma ScannedSuffixes(t: string, rest: string) returns (d: nat)
    requires t != "" && rest == t[Length(Inline, t)..]
    ensures d + |Scanned(rest)| == |Scanned(t)|
    ensures forall k :: 0 <= k <= |Scanned(rest)| ==> Scanned(t)[d + k..] == Scanned(rest)[k..]
  {
    d := |PieceOutput(t)|;
    Suffixes(PieceOutput(t), Scanned(rest));
  }

  lemma Suffixes(a: string, b: string)
    ensures forall k :: 0 <= k <= |b| ==> (a + b)[|a| + k..] == b[k..]
  {
  }

  lemma CodeIsCopied(t: string)
    requires IsCode(t)
    ensures Scanned(t) == [t[0]] + Scanned(t[1..])
  {
  }

  lemma VersionedIsCopied(t: string)
    requires IsVersioned(t)
    ensures Scanned(t) == OPENING + Scanned(t[3..])
  {
    var u, v := t[1..], t[2..];
    assert u[1..] == v && v[1..] == t[3..];
    CodeIsCopied(t);
    CodeIsCopied(u);
    CodeIsCopied(v);
    Spell('/', '*', '!', Scanned(t[3..]));
  }

  lemma Spell(a: char, b: char, c: char, rest: string)
    ensures [a] + ([b] + ([c] + rest)) == [a, b, c] + rest
  {
  }

  predicate OccursAt(t: string, p: string, i: int) {
    0 <= i <= |t| - |p| && t[i..i + |p|] == p
  }

  const OPENING := "/*!"

  lemma OccursIsVersioned(t: string, i: nat)
    ensures OccursAt(t, OPENING, i) <==> i < |t| && IsVersioned(t[i..])
  {
    if i + 3 <= |t| {
      var u := t[i..i + 3];
      assert u == [t[i], t[i + 1], t[i + 2]];
    }
  }

  lemma OccursInSuffix(t: string, k: nat, p: string, rest: string)
    requires k <= |t| && t[k..] == p + rest
    ensures OccursAt(t, p, k)
  {
    assert t[k..k + |p|] == t[k..][..|p|] == p;
  }

  predicate SpaceFree(p: string) {
    p != "" && forall i :: 0 <= i < |p| ==> !IsFieldSpace(p[i])
  }

  lemma OccursAfterFirst(c: char, t: string, p: string, i: nat)
    requires i > 0 && OccursAt([c] + t, p, i)
    ensures OccursAt(t, p, i - 1)
  {
    assert t[i - 1..i - 1 + |p|] == ([c] + t)[i..i + |p|];
  }

  lemma OccursBefore(a: string, b: string, p: string, i: nat)
    requires OccursAt(a, p, i)
    ensures OccursAt(a + b, p, i)
  {
    assert (a + b)[i..i + |p|] == a[i..i + |p|];
  }

  lemma OccursLater(a: string, b: string, p: string, i: nat)
    requires OccursAt(b, p, i)
    ensures OccursAt(a + b, p, |a| + i)
  {
    assert (a + b)[|a| + i..|a| + i + |p|] == b[i..i + |p|];
  }

  lemma OccursPoints(t: string, p: string, i: nat)
    requires OccursAt(t, p, i)
    ensures forall m :: i <= m < i + |p| ==> t[m] == p[m - i]
  {
    forall m | i <= m < i + |p| ensures t[m] == p[m - i] {
      assert t[i..i + |p|][m - i] == p[m - i];
    }
  }

  lemma OccursEarlier(a: string, b: string, p: string, i: nat)
    requires SpaceFree(p) && OccursAt(a + b, p, i)
    requires b == "" || IsFieldSpace(b[0])
    ensures i < |a| ==> OccursAt(a, p, i)
    ensures i >= |a| ==> OccursAt(b, p, i - |a|)
  {
    OccursPoints(a + b, p, i);
    if i < |a| {
      assert b != "" ==> (a + b)[|a|] == b[0];
      assert i + |p| <= |a|;
      assert a[i..i + |p|] == (a + b)[i..i + |p|];
    } else {
      assert b[i - |a|..i - |a| + |p|] == (a + b)[i..i + |p|];
    }
  }

  /** The first word of t and what follows it. */
  lemma OccursInWordOrRest(t: string, p: string, i: nat) returns (word: string, rest: string)
    requires SpaceFree(p) && OccursAt(t, p, i) && !IsFieldSpace(t[0])
    ensures t == word + rest && |rest| < |t| && Joined(Fields(t)) == word + Tail(rest)
    ensures if i < |word| then OccursAt(word, p, i) else OccursAt(rest, p, i - |word|)
  {
    var n := WordLength(t);
    word, rest := t[..n], t[n..];
    assert t == word + rest;
    OccursEarlier(word, rest, p, i);
    JoinedSplit(t);
  }

  lemma OccursAfterWord(word: string, rest: string, p: string, j: nat)
    requires p != "" && OccursAt(Joined(Fields(rest)), p, j)
    ensures OccursAt(word + Tail(rest), p, |word| + 1 + j)
  {
    OccursLater(" ", Joined(Fields(rest)), p, j);
    OccursLater(word, Tail(rest), p, 1 + j);
  }

  lemma OccursBehindBlank(t: string, p: string, i: nat)
    requires SpaceFree(p) && OccursAt(t, p, i) && IsFieldSpace(t[0])
    ensures i > 0 && OccursAt(t[1..], p, i - 1) && Fields(t) == Fields(t[1..])
  {
    OccursPoints(t, p, i);
    assert t[i] == p[0];
    assert t == [t[0]] + t[1..];
    OccursAfterFirst(t[0], t[1..], p, i);
  }

  /** Splitting at blanks and joining again keeps a text without blanks, */
  lemma {:induction false} FieldsKeep(t: string, p: string, i: nat) returns (j: nat)
    requires SpaceFree(p) && OccursAt(t, p, i)
    ensures OccursAt(Joined(Fields(t)), p, j)
    decreases |t|, 1
  {
    if IsFieldSpace(t[0]) {
      OccursBehindBlank(t, p, i);
      j := FieldsKeep(t[1..], p, i - 1);
    } else {
      j := FieldsKeepFromWord(t, p, i);
    }
  }

  lemma {:induction false} FieldsKeepFromWord(t: string, p: string, i: nat) returns (j: nat)
    requires SpaceFree(p) && OccursAt(t, p, i) && !IsFieldSpace(t[0])
    ensures OccursAt(Joined(Fields(t)), p, j)
    decreases |t|, 0
  {
    var word, rest := OccursInWordOrRest(t, p, i);
    if i < |word| {
      OccursBefore(word, Tail(rest), p, i);
      j := i;
    } else {
      j := FieldsKeep(rest, p, i - |word|);
      OccursAfterWord(word, rest, p, j);
      j := |word| + 1 + j;
    }
  }

  /** What follows the first word. */
  function Tail(rest: string): string {
    if Fields(rest) == [] then "" else " " + Joined(Fields(rest))
  }

  lemma JoinedSplit(t: string)
    requires t != "" && !IsFieldSpace(t[0])
    ensures var n := WordLength(t);
            Joined(Fields(t)) == t[..n] + Tail(t[n..])
  {
    var n := WordLength(t);
    assert Fields(t) == [t[..n]] + Fields(t[n..]);
    JoinedCons(t[..n], Fields(t[n..]));
  }

  lemma JoinedCons(word: string, words: seq<string>)
    ensures Joined([word] + words) == word + if words == [] then "" else " " + Joined(words)
  {
    assert ([word] + words)[1..] == words;
    assert word + (" " + Joined(words)) == word + " " + Joined(words);
  }

  lemma OccursInWordOrTail(t: string, p: string, j: nat) returns (word: string, rest: string)
    requires SpaceFree(p) && t != "" && !IsFieldSpace(t[0]) && OccursAt(Joined(Fields(t)), p, j)
    ensures t == word + rest && |rest| < |t|
    ensures j < |word| ==> OccursAt(word, p, j)
    ensures j >= |word| ==> j > |word| && OccursAt(Joined(Fields(rest)), p, j - |word| - 1)
  {
    var n := WordLength(t);
    word, rest := t[..n], t[n..];
    assert t == word + rest;
    JoinedSplit(t);
    OccursEarlier(word, Tail(rest), p, j);
    if j >= |word| {
      OccursInTail(rest, p, j - |word|);
    }
  }

  /** and adds none. */
  lemma {:induction false} FieldsAddNone(t: string, p: string, j: nat) returns (i: nat)
    requires SpaceFree(p) && OccursAt(Joined(Fields(t)), p, j)
    ensures OccursAt(t, p, i)
    decreases |t|
  {
    if IsFieldSpace(t[0]) {
      i := FieldsAddNone(t[1..], p, j);
      OccursLater([t[0]], t[1..], p, i);
      assert t == [t[0]] + t[1..];
      i := i + 1;
    } else {
      var word, rest := OccursInWordOrTail(t, p, j);
      if j < |word| {
        OccursBefore(word, rest, p, j);
        i := j;
      } else {
        i := FieldsAddNone(rest, p, j - |word| - 1);
        OccursLater(word, rest, p, i);
        i := |word| + i;
      }
    }
  }

  lemma OccursInTail(rest: string, p: string, j: nat)
    requires SpaceFree(p) && OccursAt(Tail(rest), p, j)
    ensures j > 0 && OccursAt(Joined(Fields(rest)), p, j - 1)
  {
    OccursPoints(Tail(rest), p, j);
    assert Tail(rest)[j] == p[0];
    OccursAfterFirst(' ', Joined(Fields(rest)), p, j);
  }

  lemma VersionedIsScanned(statement: string, i: nat) returns (k: nat)
    requires i < |statement| && Mask(Inline, statement)[i] && IsVersioned(statement[i..])
    ensures OccursAt(Scanned(statement), OPENING, k)
  {
    k := ScannedFromCode(statement, i);
    VersionedIsCopied(statement[i..]);
    OccursInSuffix(Scanned(statement), k, OPENING, Scanned(statement[i..][3..]));
  }

  /** A versioned comment that starts at a code position is still there in the
      normalised statement, so Classify rejects the statement. */
  lemma VersionedSurvives(statement: string, i: nat)
    requires i < |statement| && Mask(Inline, statement)[i] && IsVersioned(statement[i..])
    ensures HasVersioned(Normalized(statement))
  {
    var k := VersionedIsScanned(statement, i);
    SurvivesFields(Scanned(statement), k);
  }

  lemma SurvivesFields(t: string, k: nat)
    requires OccursAt(t, OPENING, k)
    ensures HasVersioned(Joined(Fields(t)))
  {
    var j := FieldsKeep(t, OPENING, k);
    OccursIsVersioned(Joined(Fields(t)), j);
  }

  predicate NoBackquote(t: string) {
    forall i :: 0 <= i < |t| ==> t[i] != '`'
  }

  /** Without backquotes every piece is written as one character. */
  lemma ScannedHead(t: string)
    requires t != "" && t[0] != '`'
    ensures var rest := Scanned(t[Length(Inline, t)..]);
            |PieceOutput(t)| == 1 && Scanned(t) == [PieceOutput(t)[0]] + rest
  {
  }

  lemma CopiedIsCode(t: string, c: char)
    requires Scanned(t) != "" && NoBackquote(t) && Scanned(t)[0] == c && c != '?' && c != ' '
    ensures IsCode(t) && t[0] == c && Scanned(t)[1..] == Scanned(t[1..])
  {
    ScannedHead(t);
  }

  lemma CopiedVersionAtStart(t: string)
    requires NoBackquote(t) && OccursAt(Scanned(t), OPENING, 0)
    ensures t != "" && Mask(Inline, t)[0] && IsVersioned(t[0..])
  {
    OccursPoints(Scanned(t), OPENING, 0);
    CopiedIsCode(t, '/');
    CopiedIsCode(t[1..], '*');
    CopiedIsCode(t[1..][1..], '!');
    assert t[0..] == t && Mask(Inline, t)[0] == Head(Inline, t)[0];
  }

  lemma {:induction false} CopiedVersionIsCode(t: string, k: nat) returns (i: nat)
    requires NoBackquote(t) && OccursAt(Scanned(t), OPENING, k)
    ensures i < |t| && Mask(Inline, t)[i] && IsVersioned(t[i..])
    decreases |t|
  {
    if k == 0 {
      CopiedVersionAtStart(t);
      i := 0;
    } else {
      var rest := CopiedInRest(t, k);
      i := CopiedVersionIsCode(rest, k - 1);
      i := CodeOfRest(t, rest, i);
    }
  }

  lemma CopiedInRest(t: string, k: nat) returns (rest: string)
    requires NoBackquote(t) && k > 0 && OccursAt(Scanned(t), OPENING, k)
    ensures t != "" && rest == t[Length(Inline, t)..] && |rest| < |t|
    ensures NoBackquote(rest) && OccursAt(Scanned(rest), OPENING, k - 1)
  {
    rest := t[Length(Inline, t)..];
    ScannedHead(t);
    OccursAfterFirst(PieceOutput(t)[0], Scanned(rest), OPENING, k);
  }

  lemma CodeOfRest(t: string, rest: string, i: nat) returns (j: nat)
    requires t != "" && rest == t[Length(Inline, t)..]
    requires i < |rest| && Mask(Inline, rest)[i] && IsVersioned(rest[i..])
    ensures j < |t| && Mask(Inline, t)[j] && IsVersioned(t[j..])
  {
    j := Length(Inline, t) + i;
    DropDrop(t, Length(Inline, t), i);
  }

  /** Without backquotes the test for executable comments is exact. */
  lemma ExecutableCommentIff(statement: string)
    requires NoBackquote(statement)
    ensures HasVersioned(Normalized(statement)) <==>
            exists i :: 0 <= i < |statement| && Mask(Inline, statement)[i] && IsVersioned(statement[i..])
  {
    if HasVersioned(Normalized(statement)) {
      var i := VersionComesFromCode(statement);
    }
    if i :| 0 <= i < |statement| && Mask(Inline, statement)[i] && IsVersioned(statement[i..]) {
      VersionedSurvives(statement, i);
    }
  }

  lemma VersionIsWritten(statement: string) returns (k: nat)
    requires HasVersioned(Normalized(statement))
    ensures OccursAt(Scanned(statement), OPENING, k)
  {
    var j :| 0 <= j < |Normalized(statement)| && IsVersioned(Normalized(statement)[j..]);
    OccursIsVersioned(Normalized(statement), j);
    k := FieldsAddNone(Scanned(statement), OPENING, j);
  }

  lemma VersionComesFromCode(statement: string) returns (i: nat)
    requires NoBackquote(statement) && HasVersioned(Normalized(statement))
    ensures i < |statement| && Mask(Inline, statement)[i] && IsVersioned(statement[i..])
  {
    var k := VersionIsWritten(statement);
    i := CopiedVersionIsCode(statement, k);
  }

  /** A written character: copied from code or from the inside of a backquoted
      name, or standing for a literal or a comment. */
  datatype Cell = Ink(c: char) | Stamp

  function Inked(s: string): (cells: seq<Cell>)
    ensures |cells| == |s|
  {
    seq(|s|, i requires 0 <= i < |s| => Ink(s[i]))
  }

  function PieceCells(t: string): seq<Cell>
    requires t != ""
  {
    if t[0] == '`' then Inked(IdentBody(t[1..]))
    else if IsCode(t) then [Ink(t[0])]
    else [Stamp]
  }

  function Cells(t: string): seq<Cell>
    decreases |t|
  {
    if t == "" then [] else PieceCells(t) + Cells(t[Length(Inline, t)..])
  }

  predicate CellShows(cell: Cell, c: char) {
    match cell
    case Ink(d) => c == d
    case Stamp => c == '?' || c == ' '
  }

  lemma {:induction false} CellsAreScanned(t: string)
    ensures |Cells(t)| == |Scanned(t)|
    ensures forall k :: 0 <= k < |Cells(t)| ==> CellShows(Cells(t)[k], Scanned(t)[k])
    decreases |t|
  {
    if t != "" {
      CellsAreScanned(t[Length(Inline, t)..]);
    }
  }

  predicate InkedAt(cells: seq<Cell>, k: nat) {
    k + 2 < |cells| && cells[k] == Ink('/') && cells[k + 1] == Ink('*') && cells[k + 2] == Ink('!')
  }

  lemma InkedIff(statement: string, k: nat)
    ensures OccursAt(Scanned(statement), OPENING, k) <==> InkedAt(Cells(statement), k)
  {
    CellsAreScanned(statement);
    OccursIsVersioned(Scanned(statement), k);
    var out, cells := Scanned(statement), Cells(statement);
    if k + 2 < |out| {
      assert out[k..][0] == out[k] && out[k..][1] == out[k + 1] && out[k..][2] == out[k + 2];
      assert CellShows(cells[k], out[k]) && CellShows(cells[k + 1], out[k + 1]) && CellShows(cells[k + 2], out[k + 2]);
    }
  }

  /** The test for executable comments finds the three characters exactly when
      code and names write them one after the other, with nothing in between. */
  lemma ExecutableIff(statement: string)
    ensures HasVersioned(Normalized(statement)) <==> exists k: nat :: InkedAt(Cells(statement), k)
  {
    if HasVersioned(Normalized(statement)) {
      var k := VersionIsWritten(statement);
      InkedIff(statement, k);
    }
    if k: nat :| InkedAt(Cells(statement), k) {
      InkedIff(statement, k);
      SurvivesFields(Scanned(statement), k);
    }
  }

  /** A backquoted name can look like an executable comment; it is rejected. */
  lemma NameLooksExecutable()
    ensures HasVersioned(Normalized("`/*!`"))
    ensures forall i :: 0 <= i < 5 ==> !Mask(Inline, "`/*!`")[i]
  {
    var s, body := "`/*!`", "/*!`";
    assert s[1..] == body && body[1..] == "*!`" && "*!`"[1..] == "!`" && "!`"[1..] == "`";
    assert IdentRest("`") == 1 && IdentRest("!`") == 2 && IdentRest("*!`") == 3 && IdentRest(body) == 4;
    assert IdentBody("!`") == "!" && IdentBody("*!`") == "*!" && IdentBody(body) == "/*!";
    assert s[5..] == "";
    assert Scanned(s) == "/*!" + Scanned("");
    assert Mask(Inline, s) == Falses(5) + [];
    assert Scanned(s) == OPENING + "";
    OccursInSuffix(Scanned(s), 0, OPENING, "");
    SurvivesFields(Scanned(s), 0);
  }
}
