/** Texts and the tokens the lexer finds in them. */
module SqlTokens {
  import opened SqlAst
  import opened SqlGrammar
  import opened SqlLexer
  import opened SqlParser
  import opened Wrappers

  // A text that spells a list of tokens, in any case and with any white space, is read as these tokens; and a text that
  // is read to its end spells the tokens that are read.

  // ---------- words ----------

  predicate Small(word: string) {
    forall i :: 0 <= i < |word| ==> 'a' <= word[i] <= 'z' || word[i] == '_'
  }

  lemma {:induction false} LowerIs(lex: string, word: string)
    requires Small(word)
    ensures Lower(lex) == word <==> SameLetters(lex, word)
    decreases |lex|
  {
    if lex == "" || word == "" {
      assert lex != "" ==> |Lower(lex)| > 0;
    } else {
      assert Small(word[1..]);
      LowerIs(lex[1..], word[1..]);
      LowerFirst(lex, word);
      SameFirst(lex, word);
    }
  }

  lemma LowerFirst(lex: string, word: string)
    requires lex != "" && word != ""
    ensures Lower(lex) == word <==> LowerChar(lex[0]) == word[0] && Lower(lex[1..]) == word[1..]
  {
    assert word == [word[0]] + word[1..];
    assert Lower(lex)[1..] == Lower(lex[1..]);
  }

  lemma SameFirst(lex: string, word: string)
    requires lex != "" && word != "" && Small(word)
    ensures SameLetters(lex, word) <==> LowerChar(lex[0]) == word[0] && SameLetters(lex[1..], word[1..])
  {
    var a, b := lex[1..], word[1..];
    if SameLetters(a, b) && LowerChar(lex[0]) == word[0] {
      forall i | 0 <= i < |word|
        ensures lex[i] == word[i] || ('a' <= word[i] <= 'z' && lex[i] as int + 32 == word[i] as int)
      {
        if i > 0 { assert a[i - 1] == lex[i] && b[i - 1] == word[i]; }
      }
    }
  }

  lemma ClauseSmall(kind: Kind)
    requires kind in {KwSelect, KwFrom, KwWhere, KwGroup, KwBy, KwHaving, KwOrder, KwAsc, KwDesc, KwLimit, KwOffset,
      KwAs}
    ensures Small(Spelling(kind)) && Spelling(kind) != ""
  {
  }

  lemma OtherSmall(kind: Kind)
    requires kind in {KwDistinct, KwAnd, KwNot, KwLike, KwIn, KwCount, KwSum, KwAvg, KwMin, KwMax}
    ensures Small(Spelling(kind)) && Spelling(kind) != ""
  {
  }

  lemma LongestSmall()
    ensures Small(Spelling(KwApproxCountDistinct))
  {
  }

  /** Words are spelled with small letters and underscores. */
  lemma WordSmall(kind: Kind)
    requires IsWord(kind)
    ensures Small(Spelling(kind)) && Spelling(kind) != ""
  {
    hide Small;
    if kind == KwApproxCountDistinct {
      LongestSmall();
    } else if kind in {KwDistinct, KwAnd, KwNot, KwLike, KwIn, KwCount, KwSum, KwAvg, KwMin, KwMax} {
      OtherSmall(kind);
    } else {
      ClauseSmall(kind);
    }
  }

  lemma KeywordSpelled(lex: string)
    requires KeywordKind(lex).Some?
    ensures IsWord(KeywordKind(lex).value) && EqKw(lex, Spelling(KeywordKind(lex).value))
  {
    hide EqKw;
  }

  lemma WordFound(lex: string, kind: Kind)
    requires IsWord(kind) && EqKw(lex, Spelling(kind))
    ensures KeywordKind(lex).Some?
  {
    hide EqKw;
  }

  /** Length and first two letters tell the words apart. */
  function Which(word: string): Kind
    requires |word| >= 2
  {
    match (|word|, word[0], word[1])
    case (6, 's', _) => KwSelect
    case (4, 'f', _) => KwFrom
    case (5, 'w', _) => KwWhere
    case (5, 'g', _) => KwGroup
    case (2, 'b', _) => KwBy
    case (6, 'h', _) => KwHaving
    case (5, 'o', _) => KwOrder
    case (3, 'a', 's') => KwAsc
    case (4, 'd', _) => KwDesc
    case (5, 'l', _) => KwLimit
    case (6, 'o', _) => KwOffset
    case (2, 'a', _) => KwAs
    case (8, _, _) => KwDistinct
    case (3, 'a', 'n') => KwAnd
    case (3, 'n', _) => KwNot
    case (4, 'l', _) => KwLike
    case (2, 'i', _) => KwIn
    case (5, 'c', _) => KwCount
    case (3, 's', _) => KwSum
    case (3, 'a', _) => KwAvg
    case (3, 'm', 'i') => KwMin
    case (3, 'm', _) => KwMax
    case _ => KwApproxCountDistinct
  }

  lemma WordsDiffer(kind: Kind)
    requires IsWord(kind)
    ensures |Spelling(kind)| >= 2 && Which(Spelling(kind)) == kind
  {
  }

  /** A text is a keyword exactly when it is the keyword's word in any case. */
  lemma KeywordExactly(lex: string, kind: Kind)
    ensures KeywordKind(lex) == Some(kind) <==> IsWord(kind) && SameLetters(lex, Spelling(kind))
  {
    hide Lower, KeywordKind, Spelling, SameLetters, Small, Which;
    if KeywordKind(lex).Some? {
      KeywordSpelled(lex);
      WordsDiffer(KeywordKind(lex).value);
    }
    if IsWord(kind) {
      WordSmall(kind);
      LowerIs(lex, Spelling(kind));
      WordsDiffer(kind);
      if EqKw(lex, Spelling(kind)) { WordFound(lex, kind); }
    }
  }

  lemma NameIsIdent(name: string)
    ensures IsName(name) <==> IsIdent(name)
  {
    hide KeywordKind, Spelling, SameLetters;
    forall kind ensures KeywordKind(name) == Some(kind) <==> IsWord(kind) && SameLetters(name, Spelling(kind)) {
      KeywordExactly(name, kind);
    }
    if KeywordKind(name).Some? { assert IsWord(KeywordKind(name).value); }
  }

  // ---------- one token ----------

  /** What stands behind a token does not run on. */
  predicate StopsAt(kind: Kind, s: string, end: nat) {
    end < |s| ==> !RunsOn(kind, s[end])
  }

  lemma {:induction false} ScanIdentTo(s: string, i: nat, end: nat)
    requires i <= end <= |s| && (forall k :: i <= k < end ==> IsIdentContinue(s[k]))
    requires end < |s| ==> !IsIdentContinue(s[end])
    ensures ScanIdent(s, i) == end
    decreases end - i
  {
    if i < end { ScanIdentTo(s, i + 1, end); }
  }

  lemma {:induction false} ScanDigitsTo(s: string, i: nat, end: nat)
    requires i <= end <= |s| && (forall k :: i <= k < end ==> IsDigit(s[k])) && (end < |s| ==> !IsDigit(s[end]))
    ensures ScanDigits(s, i) == end
    decreases end - i
  {
    if i < end { ScanDigitsTo(s, i + 1, end); }
  }

  lemma NextIs(s: string, i: nat, kind: Kind, end: nat)
    requires i < end <= |s| && !IsSpace(s[i]) && Scan(s, i) == Some((kind, end))
    ensures
      var lex := s[i..end];
      var word := if kind == IdentTok then KeywordKind(lex) else None;
      Next(s, i) == Ok(Lexed(Tok(if word.Some? then word.value else kind, i, lex), end))
  {
    hide Scan, KeywordKind;
    assert SkipWs(s, i) == i;
  }

  lemma LettersLex(s: string, i: nat, lex: string)
    requires i + |lex| <= |s| && s[i..i + |lex|] == lex && lex != "" && IsLetter(lex[0])
    requires forall k :: 0 <= k < |lex| ==> IsLetter(lex[k]) || IsFigure(lex[k])
    requires i + |lex| < |s| ==> !IsLetter(s[i + |lex|]) && !IsFigure(s[i + |lex|])
    ensures !IsSpace(s[i]) && Scan(s, i) == Some((IdentTok, i + |lex|))
  {
    assert s[i] == lex[0];
    forall k | i <= k < i + |lex| ensures IsIdentContinue(s[k]) { assert s[k] == lex[k - i]; }
    ScanIdentTo(s, i + 1, i + |lex|);
  }

  lemma SameLettersAreLetters(lex: string, word: string)
    requires Small(word) && SameLetters(lex, word)
    ensures forall k :: 0 <= k < |lex| ==> IsLetter(lex[k])
  {
  }

  lemma WordLexes(s: string, i: nat, lex: string, kind: Kind)
    requires i + |lex| <= |s| && s[i..i + |lex|] == lex && IsWord(kind) && SameLetters(lex, Spelling(kind))
    requires StopsAt(kind, s, i + |lex|)
    ensures Next(s, i) == Ok(Lexed(Tok(kind, i, lex), i + |lex|))
  {
    hide Scan, KeywordKind, Next, Spelling, Small;
    WordSmall(kind);
    SameLettersAreLetters(lex, Spelling(kind));
    LettersLex(s, i, lex);
    KeywordExactly(lex, kind);
    NextIs(s, i, IdentTok, i + |lex|);
  }

  lemma NameLexes(s: string, i: nat, lex: string)
    requires i + |lex| <= |s| && s[i..i + |lex|] == lex && IsName(lex) && StopsAt(IdentTok, s, i + |lex|)
    ensures Next(s, i) == Ok(Lexed(Tok(IdentTok, i, lex), i + |lex|))
  {
    hide Scan, KeywordKind, Next, SameLetters;
    LettersLex(s, i, lex);
    NameIsIdent(lex);
    NextIs(s, i, IdentTok, i + |lex|);
  }

  lemma NumberLexes(s: string, i: nat, lex: string)
    requires i + |lex| <= |s| && s[i..i + |lex|] == lex && Spells(lex, Piece(IntTok, lex))
    requires StopsAt(IntTok, s, i + |lex|)
    ensures Next(s, i) == Ok(Lexed(Tok(IntTok, i, lex), i + |lex|))
  {
    hide KeywordKind, Next;
    assert s[i] == lex[0];
    forall k | i <= k < i + |lex| ensures IsDigit(s[k]) { assert s[k] == lex[k - i]; }
    ScanDigitsTo(s, i + 1, i + |lex|);
    NextIs(s, i, IntTok, i + |lex|);
  }

  lemma SliceInside(s: string, i: nat, lex: string, a: nat, n: nat)
    requires i + |lex| <= |s| && s[i..i + |lex|] == lex && a + n <= |lex|
    ensures s[i + a..i + a + n] == lex[a..a + n]
  {
    var x, y := s[i + a..i + a + n], lex[a..a + n];
    forall k | 0 <= k < n ensures x[k] == y[k] { assert s[i..i + |lex|][a + k] == s[i + a + k]; }
  }

  lemma QuoteLexes(s: string, i: nat, lex: string)
    requires i + |lex| <= |s| && s[i..i + |lex|] == lex && (Closed(lex) || Open(lex))
    requires if Closed(lex) then StopsAt(StrTok, s, i + |lex|) else i + |lex| == |s|
    ensures Next(s, i) == Ok(Lexed(Tok(StrTok, i, lex), i + |lex|))
  {
    hide KeywordKind, Next, Paired, ScanString;
    assert s[i] == lex[0];
    var raw := if Closed(lex) then lex[1..|lex| - 1] else lex[1..];
    if Closed(lex) { assert s[i + |lex| - 1] == lex[|lex| - 1]; }
    SliceInside(s, i, lex, 1, |raw|);
    ScanPaired(s, i + 1, raw);
    NextIs(s, i, StrTok, i + |lex|);
  }

  predicate IsComparison(kind: Kind) {
    kind == NeTok || kind == LtTok || kind == LeTok || kind == GtTok || kind == GeTok
  }

  lemma OneCharacter(kind: Kind)
    requires IsMark(kind) && !IsComparison(kind)
    ensures |Spelling(kind)| == 1
    ensures forall s: string, i: nat :: i < |s| && s[i] == Spelling(kind)[0] ==>
      !IsSpace(s[i]) && Scan(s, i) == Some((kind, i + 1))
  {
  }

  lemma ComparisonScans(s: string, i: nat, kind: Kind)
    requires IsComparison(kind) && i + |Spelling(kind)| <= |s| && s[i] == Spelling(kind)[0]
    requires |Spelling(kind)| == 2 ==> s[i + 1] == Spelling(kind)[1]
    requires StopsAt(kind, s, i + |Spelling(kind)|)
    ensures !IsSpace(s[i]) && Scan(s, i) == Some((kind, i + |Spelling(kind)|))
  {
  }

  lemma MarkLength(kind: Kind)
    requires IsMark(kind)
    ensures 1 <= |Spelling(kind)| <= 2 && (forall k :: 0 <= k < |Spelling(kind)| ==> !IsLetter(Spelling(kind)[k]))
  {
  }

  lemma MarkLexes(s: string, i: nat, lex: string, kind: Kind)
    requires i + |lex| <= |s| && s[i..i + |lex|] == lex && IsMark(kind) && SameLetters(lex, Spelling(kind))
    requires StopsAt(kind, s, i + |lex|)
    ensures Next(s, i) == Ok(Lexed(Tok(kind, i, lex), i + |lex|))
  {
    hide KeywordKind, Next, Scan, Spelling, IsSpace;
    MarkLength(kind);
    assert lex == Spelling(kind);
    assert s[i] == lex[0];
    if IsComparison(kind) {
      if |lex| == 2 { assert s[i + 1] == lex[1]; }
      ComparisonScans(s, i, kind);
    } else {
      OneCharacter(kind);
    }
    NextIs(s, i, kind, i + |lex|);
  }

  /** Where a token's spelling stands and nothing runs on behind it, the lexer reads that token. */
  lemma TokenLexes(s: string, i: nat, lex: string, p: Piece)
    requires i + |lex| <= |s| && s[i..i + |lex|] == lex && Spells(lex, p) && StopsAt(p.kind, s, i + |lex|)
    requires p.kind == StrTok && !Closed(lex) ==> i + |lex| == |s|
    ensures Next(s, i) == Ok(Lexed(Tok(p.kind, i, lex), i + |lex|))
  {
    hide SameLetters, IsName, Closed, Open, Next, RunsOn, Spelling;
    if p.kind == IdentTok {
      NameLexes(s, i, lex);
    } else if p.kind == IntTok {
      NumberLexes(s, i, lex);
    } else if p.kind == StrTok {
      QuoteLexes(s, i, lex);
    } else if IsMark(p.kind) {
      MarkLexes(s, i, lex, p.kind);
    } else {
      WordLexes(s, i, lex, p.kind);
    }
  }

  lemma {:induction false} BlankSkipped(s: string, i: nat, j: nat)
    requires i <= j <= |s| && Blank(s[i..j])
    ensures Next(s, i) == Next(s, j)
    decreases j - i
  {
    hide Scan, KeywordKind;
    if i < j {
      assert s[i..j][0] == s[i];
      assert s[i..j][1..] == s[i + 1..j];
      BlankSkipped(s, i + 1, j);
    }
  }

  // ---------- what the lexer reads is spelled so ----------

  lemma {:induction false} SkippedIsBlank(s: string, i: nat)
    requires i <= |s|
    ensures Blank(s[i..SkipWs(s, i)])
    decreases |s| - i
  {
    if i < |s| && IsSpace(s[i]) {
      SkippedIsBlank(s, i + 1);
      var j := SkipWs(s, i);
      assert s[i..j] == [s[i]] + s[i + 1..j];
    }
  }

  lemma {:induction false} ScanIdentStops(s: string, i: nat)
    requires i <= |s|
    ensures ScanIdent(s, i) < |s| ==> !IsIdentContinue(s[ScanIdent(s, i)])
    decreases |s| - i
  {
    if i < |s| && IsIdentContinue(s[i]) { ScanIdentStops(s, i + 1); }
  }

  lemma {:induction false} ScanDigitsStops(s: string, i: nat)
    requires i <= |s|
    ensures ScanDigits(s, i) < |s| ==> !IsDigit(s[ScanDigits(s, i)])
    decreases |s| - i
  {
    if i < |s| && IsDigit(s[i]) { ScanDigitsStops(s, i + 1); }
  }

  /** A scanned literal is closed by a quote that no other follows, or open to the end of the input. */
  lemma {:induction false} ScannedString(s: string, i: nat)
    requires i <= |s|
    ensures
      var j := ScanString(s, i);
      || (i < j && s[j - 1] == '\'' && Paired(s[i..j - 1]) && (j < |s| ==> s[j] != '\''))
      || (j == |s| && Paired(s[i..]))
    decreases |s| - i
  {
    var j := ScanString(s, i);
    if i == |s| {
      assert s[i..] == "";
    } else if s[i] != '\'' {
      ScannedString(s, i + 1);
      PairedMore(s, i, j, 1);
    } else if i + 1 < |s| && s[i + 1] == '\'' {
      ScannedString(s, i + 2);
      PairedMore(s, i, j, 2);
    } else {
      assert s[i..i] == "";
    }
  }

  lemma PairedMore(s: string, i: nat, j: nat, n: nat)
    requires 1 <= n <= 2 && i + n <= |s| && j <= |s|
    requires if n == 1 then s[i] != '\'' else s[i] == '\'' && s[i + 1] == '\''
    ensures i + n < j && Paired(s[i + n..j - 1]) ==> Paired(s[i..j - 1])
    ensures Paired(s[i + n..]) ==> Paired(s[i..])
  {
    if i + n < j {
      assert s[i..j - 1][n..] == s[i + n..j - 1];
      assert s[i..j - 1][0] == s[i] && (n == 2 ==> s[i..j - 1][1] == s[i + 1]);
    }
    assert s[i..][n..] == s[i + n..];
  }

  lemma QuoteSpelled(s: string, i: nat)
    requires i < |s| && s[i] == '\''
    ensures
      var j := ScanString(s, i + 1);
      var lex := s[i..j];
      && (Closed(lex) || Open(lex)) && (!Closed(lex) ==> j == |s|) && StopsAt(StrTok, s, j)
  {
    hide ScanString, Paired, Closed, Open;
    var j := ScanString(s, i + 1);
    ScannedString(s, i + 1);
    if i + 1 < j && s[j - 1] == '\'' && Paired(s[i + 1..j - 1]) && (j < |s| ==> s[j] != '\'') {
      ClosedHere(s, i, j);
    } else {
      OpenHere(s, i);
      assert s[i..] == s[i..j];
    }
  }

  lemma ClosedHere(s: string, i: nat, j: nat)
    requires i + 1 < j <= |s| && s[i] == '\'' && s[j - 1] == '\'' && Paired(s[i + 1..j - 1])
    ensures Closed(s[i..j])
  {
    hide Paired;
    var lex := s[i..j];
    SliceInside(s, i, lex, 1, |lex| - 2);
    assert lex[0] == s[i] && lex[|lex| - 1] == s[j - 1];
  }

  lemma OpenHere(s: string, i: nat)
    requires i < |s| && s[i] == '\'' && Paired(s[i + 1..])
    ensures Open(s[i..])
  {
    hide Paired;
    assert s[i..][1..] == s[i + 1..];
  }

  lemma LettersSpelled(s: string, i: nat)
    requires i < |s| && IsIdentStart(s[i])
    ensures
      var j := ScanIdent(s, i + 1);
      var lex := s[i..j];
      var kind := if KeywordKind(lex).Some? then KeywordKind(lex).value else IdentTok;
      Spells(lex, Piece(kind, lex)) && StopsAt(kind, s, j)
  {
    hide KeywordKind, Spelling, ScanIdent, IsName, SameLetters;
    var j := ScanIdent(s, i + 1);
    var lex := s[i..j];
    ScanIdentStops(s, i + 1);
    NameIsIdent(lex);
    if KeywordKind(lex).Some? { KeywordExactly(lex, KeywordKind(lex).value); }
  }

  lemma FiguresSpelled(s: string, i: nat)
    requires i < |s| && IsDigit(s[i])
    ensures
      var j := ScanDigits(s, i + 1);
      Spells(s[i..j], Piece(IntTok, s[i..j])) && StopsAt(IntTok, s, j)
  {
    hide ScanDigits;
    ScanDigitsStops(s, i + 1);
  }

  lemma MarkScanned(s: string, i: nat)
    requires i < |s| && Scan(s, i).Some? && IsMark(Scan(s, i).value.0)
    ensures
      var (kind, j) := Scan(s, i).value;
      && |Spelling(kind)| == j - i && StopsAt(kind, s, j)
      && s[i] == Spelling(kind)[0] && (j == i + 2 ==> s[i + 1] == Spelling(kind)[1])
  {
  }

  lemma MarkSpelled(s: string, i: nat)
    requires i < |s| && Scan(s, i).Some? && IsMark(Scan(s, i).value.0)
    ensures
      var r := Scan(s, i).value;
      Spells(s[i..r.1], Piece(r.0, s[i..r.1])) && StopsAt(r.0, s, r.1)
  {
    hide Scan, Spelling, StopsAt;
    MarkScanned(s, i);
    MarkLength(Scan(s, i).value.0);
  }

  /** What the lexer reads: white space, a token's spelling, and nothing behind it that runs on. */
  lemma TokenSpelled(s: string, i: nat)
    requires i <= |s| && Next(s, i).Ok?
    ensures
      var l := Next(s, i).value;
      && i <= l.tok.start <= l.end <= |s| && Blank(s[i..l.tok.start]) && l.tok.lex == s[l.tok.start..l.end]
      && (l.tok.kind == Eof ==> l.tok == Tok(Eof, |s|, ""))
      && (l.tok.kind != Eof ==>
            && Spells(l.tok.lex, Piece(l.tok.kind, l.tok.lex)) && StopsAt(l.tok.kind, s, l.end)
            && (l.tok.kind == StrTok && !Closed(l.tok.lex) ==> l.end == |s|))
  {
    hide KeywordKind, ScanIdent, ScanDigits, ScanString, Spells, StopsAt, Closed, Open;
    SkippedIsBlank(s, i);
    var start := SkipWs(s, i);
    if start < |s| {
      if s[start] == '\'' { QuoteSpelled(s, start); IsQuote(s[start..ScanString(s, start + 1)]); }
      else if IsIdentStart(s[start]) { LettersSpelled(s, start); NotQuote(s[start..ScanIdent(s, start + 1)]); }
      else if IsDigit(s[start]) { FiguresSpelled(s, start); }
      else { MarkSpelled(s, start); }
    }
  }

  lemma IsQuote(lex: string)
    requires Closed(lex) || Open(lex)
    ensures Spells(lex, Piece(StrTok, lex))
  {
  }

  lemma NotQuote(lex: string)
    ensures KeywordKind(lex) != Some(StrTok) && KeywordKind(lex) != Some(Eof)
  {
  }

  // ---------- many tokens ----------

  /** The token is the piece; of words and marks only the kind counts. */
  predicate Stands(tok: Tok, p: Piece) {
    tok.kind == p.kind && p.kind != Eof && (IsPlain(p.kind) ==> tok.lex == p.lex)
  }

  /** From the one state of the parser to the other, the tokens are those pieces. */
  predicate Reads(s: string, st: State, ps: seq<Piece>, end: State)
    decreases |ps|
  {
    && Valid(s, st)
    && if ps == [] then st == end
       else Stands(st.cur, ps[0]) && Bump(s, st).Ok? && Reads(s, Bump(s, st).value, ps[1..], end)
  }

  lemma {:induction false} ReadsSplit(s: string, st: State, a: seq<Piece>, b: seq<Piece>, end: State)
    returns (mid: State)
    requires Reads(s, st, a + b, end)
    ensures Reads(s, st, a, mid) && Reads(s, mid, b, end)
    decreases |a|
  {
    hide Valid, Stands, Bump;
    if a == [] {
      assert a + b == b;
      mid := st;
    } else {
      assert (a + b)[1..] == a[1..] + b;
      mid := ReadsSplit(s, Bump(s, st).value, a[1..], b, end);
    }
  }

  lemma {:induction false} ReadsJoin(s: string, st: State, a: seq<Piece>, mid: State, b: seq<Piece>, end: State)
    requires Reads(s, st, a, mid) && Reads(s, mid, b, end)
    ensures Reads(s, st, a + b, end)
    decreases |a|
  {
    hide Valid, Stands, Bump;
    if a == [] {
      assert a + b == b;
    } else {
      assert (a + b)[0] == a[0] && (a + b)[1..] == a[1..] + b;
      ReadsJoin(s, Bump(s, st).value, a[1..], mid, b, end);
    }
  }

  lemma {:induction false} ReadsValid(s: string, st: State, ps: seq<Piece>, end: State)
    requires Reads(s, st, ps, end)
    ensures Valid(s, st) && Valid(s, end)
    decreases |ps|
  {
    hide Valid, Stands, Bump;
    if ps == [] {
    } else {
      ReadsValid(s, Bump(s, st).value, ps[1..], end);
    }
  }

  lemma ReadsOne(s: string, st: State, p: Piece, end: State)
    ensures Reads(s, st, [p], end) <==>
      Valid(s, st) && Stands(st.cur, p) && Bump(s, st) == Ok(end) && Valid(s, end)
  {
    hide Bump, Valid, Stands;
    assert [p][1..] == [];
    if Valid(s, st) && Bump(s, st).Ok? {
      assert Reads(s, Bump(s, st).value, [], end) <==> Valid(s, Bump(s, st).value) && Bump(s, st).value == end;
    }
  }

  /** The parser's state when it has read to a place. */
  function StateAt(s: string, i: nat): Result<State, Failure>
    requires i <= |s|
  {
    var next :- Next(s, i);
    Ok(State(next.tok, next.end))
  }

  function EndState(s: string): State {
    State(Tok(Eof, |s|, ""), |s|)
  }

  lemma CutFront(s: string, i: nat, front: string, rest: string)
    requires i <= |s| && s[i..] == front + rest
    ensures i + |front| <= |s| && s[i..i + |front|] == front && s[i + |front|..] == rest
  {
    assert s[i..][..|front|] == front && s[i..][|front|..] == rest;
  }

  lemma WordRead(s: string, i: nat, w: Written, rest: string, p: Piece)
    requires i <= |s| && s[i..] == w.lex + (w.gap + rest) && Spells(w.lex, p) && Blank(w.gap)
    requires w.gap == "" && rest != "" ==> !RunsOn(p.kind, rest[0])
    requires p.kind == StrTok && !Closed(w.lex) ==> w.gap + rest == ""
    ensures
      var j, k := i + |w.lex|, i + |w.lex| + |w.gap|;
      k <= |s| && Next(s, i) == Ok(Lexed(Tok(p.kind, i, w.lex), j)) && Next(s, j) == Next(s, k) && s[k..] == rest
  {
    hide *;
    var j := i + |w.lex|;
    CutFront(s, i, w.lex, w.gap + rest);
    CutFront(s, j, w.gap, rest);
    WordStops(s, j, w.gap, rest, p.kind);
    TokenLexes(s, i, w.lex, p);
    BlankSkipped(s, j, j + |w.gap|);
  }

  lemma WordStops(s: string, j: nat, gap: string, rest: string, kind: Kind)
    requires j <= |s| && s[j..] == gap + rest && Blank(gap)
    requires gap == "" && rest != "" ==> !RunsOn(kind, rest[0])
    ensures StopsAt(kind, s, j)
  {
    if gap != "" { assert s[j..][0] == gap[0]; }
    else if rest != "" { assert s[j..][0] == rest[0]; }
  }

  /** The text from some place on, when it spells out the pieces, is read as them. */
  lemma {:induction false} WordsRead(s: string, i: nat, words: seq<Written>, ps: seq<Piece>)
    requires i <= |s| && s[i..] == Text(words) && SpelledOut(words, ps)
    ensures StateAt(s, i).Ok? && Reads(s, StateAt(s, i).value, ps, EndState(s))
    decreases |words|
  {
    hide Next, Spells, Blank, RunsOn, Closed, Reads, Stands, SpelledOut, Text;
    if words == [] {
      NoWords(ps);
      AtEnd(s);
      NothingRead(s);
    } else {
      var w := words[0];
      var j, k := i + |w.lex|, i + |w.lex| + |w.gap|;
      FirstWord(words, ps);
      WordRead(s, i, w, Text(words[1..]), ps[0]);
      WordsRead(s, k, words[1..], ps[1..]);
      SpelledStands(w.lex, i, ps[0]);
      ReadsMore(s, i, j, k, ps);
    }
  }

  lemma NoWords(ps: seq<Piece>)
    ensures Text([]) == "" && (SpelledOut([], ps) <==> ps == [])
  {
  }

  lemma FirstWord(words: seq<Written>, ps: seq<Piece>)
    requires words != [] && SpelledOut(words, ps)
    ensures
      var w, rest := words[0], Text(words[1..]);
      && ps != [] && Text(words) == w.lex + (w.gap + rest) && Spells(w.lex, ps[0]) && Blank(w.gap)
      && (w.gap == "" && rest != "" ==> !RunsOn(ps[0].kind, rest[0]))
      && (ps[0].kind == StrTok && !Closed(w.lex) ==> w.gap + rest == "")
      && SpelledOut(words[1..], ps[1..])
  {
    hide Spells, Blank, RunsOn, Closed;
  }

  lemma NothingRead(s: string)
    ensures Reads(s, EndState(s), [], EndState(s))
  {
  }

  lemma AtEnd(s: string)
    ensures Next(s, |s|) == Ok(Lexed(Tok(Eof, |s|, ""), |s|))
  {
  }

  lemma SpelledStands(lex: string, i: nat, p: Piece)
    requires Spells(lex, p)
    ensures Stands(Tok(p.kind, i, lex), p)
  {
    hide SameLetters, IsName, Closed, Open;
  }

  lemma ReadsMore(s: string, i: nat, j: nat, k: nat, ps: seq<Piece>)
    requires ps != [] && i <= j <= k <= |s| && StateAt(s, i).Ok? && StateAt(s, i).value.i == j
    requires Stands(StateAt(s, i).value.cur, ps[0])
    requires Next(s, j) == Next(s, k) && StateAt(s, k).Ok? && Reads(s, StateAt(s, k).value, ps[1..], EndState(s))
    ensures Reads(s, StateAt(s, i).value, ps, EndState(s))
  {
    hide Next, IsIdent, IsNumber, Stands;
  }

  /** A text that spells out the pieces, with white space in front, is read as them. */
  lemma TextRead(s: string, lead: string, words: seq<Written>, ps: seq<Piece>)
    requires s == lead + Text(words) && Blank(lead) && SpelledOut(words, ps)
    ensures StateAt(s, 0).Ok? && Reads(s, StateAt(s, 0).value, ps, EndState(s))
  {
    hide Next, Blank, SpelledOut, Reads;
    assert s[0..] == s;
    CutFront(s, 0, lead, Text(words));
    WordsRead(s, |lead|, words, ps);
    BlankSkipped(s, 0, |lead|);
  }

  /** What is read to the end of the input as some pieces spells them out. */
  lemma {:induction false} ReadWords(s: string, i: nat, ps: seq<Piece>) returns (lead: string, words: seq<Written>)
    requires i <= |s| && StateAt(s, i).Ok? && Reads(s, StateAt(s, i).value, ps, EndState(s))
    ensures Blank(lead) && s[i..] == lead + Text(words) && SpelledOut(words, ps)
    decreases |ps|
  {
    hide Next, Spells, Blank, RunsOn, Closed, IsIdent, IsNumber;
    TokenSpelled(s, i);
    var l := Next(s, i).value;
    lead := s[i..l.tok.start];
    if ps == [] {
      words := [];
      assert s[i..] == lead + "";
    } else {
      var gap, rest := ReadWords(s, l.end, ps[1..]);
      words := [Written(l.tok.lex, gap)] + rest;
      assert words[1..] == rest && words[0] == Written(l.tok.lex, gap);
      assert s[i..] == lead + (l.tok.lex + s[l.end..]);
      assert s[i..] == lead + Text(words);
      PieceSpelled(l.tok.lex, l.tok.kind, ps[0]);
      RestStops(s, l.end, gap, Text(rest), ps[0].kind);
    }
  }

  lemma PieceSpelled(lex: string, kind: Kind, p: Piece)
    requires kind != Eof && Spells(lex, Piece(kind, lex)) && Stands(Tok(kind, 0, lex), p)
    ensures Spells(lex, p)
  {
    hide SameLetters, IsName, Closed, Open;
  }

  lemma RestStops(s: string, end: nat, gap: string, rest: string, kind: Kind)
    requires end <= |s| && s[end..] == gap + rest && StopsAt(kind, s, end)
    ensures gap == "" && rest != "" ==> !RunsOn(kind, rest[0])
    ensures end == |s| ==> gap + rest == ""
  {
    if gap == "" && rest != "" { assert s[end..][0] == rest[0]; }
  }
}
