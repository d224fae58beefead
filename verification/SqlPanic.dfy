/** Where parsing stops the program. */
module SqlPanic {
  import opened SqlAst
  import opened SqlGrammar
  import opened SqlLexer
  import opened SqlParser
  import opened SqlTokens
  import opened Wrappers

  // ---------- the literal that can do it ----------

  /** A string token that cannot be cut behind its last byte but one. */
  predicate IsBad(tok: Tok) {
    tok.kind == StrTok && Inner(tok.lex).Err?
  }

  /** The start of the first bad token from `i` on, or the length of the input when there is none. */
  function BadAt(s: string, i: nat): (k: nat)
    requires i <= |s|
    ensures i <= k <= |s|
    decreases |s| - i
  {
    var next := Next(s, i);
    if next.Err? || next.value.tok.kind == Eof then |s|
    else if IsBad(next.value.tok) then
      StartsWithin(s, i);
      next.value.tok.start
    else BadAt(s, next.value.end)
  }

  lemma StartsWithin(s: string, i: nat)
    requires i <= |s| && Next(s, i).Ok?
    ensures
      var l := Next(s, i).value;
      && l.tok.start == SkipWs(s, i) && (l.tok.kind != Eof ==> i <= l.tok.start < l.end <= |s|)
      && l.tok.lex == s[l.tok.start..l.end]
  {
    hide KeywordKind, ScanString, ScanIdent, ScanDigits;
  }

  /** A scanned string literal ends with its closing quote, or with the input. */
  lemma {:induction false} StringEnds(s: string, i: nat)
    requires i <= |s|
    ensures ScanString(s, i) < |s| ==> i < ScanString(s, i) && s[ScanString(s, i) - 1] == '\''
    decreases |s| - i
  {
    if i < |s| {
      if s[i] != '\'' {
        StringEnds(s, i + 1);
      } else if i + 1 < |s| && s[i + 1] == '\'' {
        StringEnds(s, i + 2);
      }
    }
  }

  lemma StringToken(s: string, i: nat)
    requires i <= |s| && Next(s, i).Ok? && Next(s, i).value.tok.kind == StrTok
    ensures
      var l := Next(s, i).value;
      l.tok.start < |s| && s[l.tok.start] == '\'' && l.end == ScanString(s, l.tok.start + 1)
  {
    hide KeywordKind, ScanString, ScanIdent, ScanDigits;
    KeywordsAreNotStrings(s[SkipWs(s, i)..Next(s, i).value.end]);
  }

  lemma KeywordsAreNotStrings(lex: string)
    ensures KeywordKind(lex) != Some(StrTok)
  {
  }

  /**
   A string token is bad exactly when it has two bytes or more and the last is inside a character of several bytes; then
   no quote closes it and it is the last token.
   */
  lemma BadToken(s: string, i: nat)
    requires i <= |s| && Next(s, i).Ok? && Next(s, i).value.tok.kind == StrTok
    ensures
      var l := Next(s, i).value;
      && (IsBad(l.tok) <==> |l.tok.lex| >= 2 && IsContinuation(l.tok.lex[|l.tok.lex| - 1]))
      && (IsBad(l.tok) ==> l.end == |s| && l.tok.lex == s[l.tok.start..] && IsContinuation(s[|s| - 1]))
  {
    hide Next, ScanString;
    StartsWithin(s, i);
    StringToken(s, i);
    var l := Next(s, i).value;
    StringEnds(s, l.tok.start + 1);
  }

  lemma InnerPanics(lex: string)
    ensures Inner(lex).Err? ==> Inner(lex) == Err(Panic) && |lex| >= 2
  {
  }

  /** What stands where the walk over the tokens stops. */
  lemma {:induction false} BadIsLast(s: string, i: nat)
    requires i <= |s| && BadAt(s, i) < |s|
    ensures
      var k := BadAt(s, i);
      && s[k] == '\'' && ScanString(s, k + 1) == |s| && |s| - k >= 2 && IsContinuation(s[|s| - 1])
      && Inner(s[k..]) == Err(Panic)
    decreases |s| - i
  {
    hide Next, ScanString, Inner;
    var next := Next(s, i);
    if IsBad(next.value.tok) {
      InnerPanics(next.value.tok.lex);
      StartsWithin(s, i);
      StringToken(s, i);
      BadToken(s, i);
    } else {
      BadIsLast(s, next.value.end);
    }
  }

  // ---------- the input in front of it ----------

  lemma {:induction false} SkipWsBefore(s: string, k: nat, i: nat)
    requires i <= k <= |s|
    ensures SkipWs(s[..k], i) == if SkipWs(s, i) <= k then SkipWs(s, i) else k
    decreases k - i
  {
    if i < k && IsSpace(s[i]) { SkipWsBefore(s, k, i + 1); }
  }

  lemma {:induction false} ScanIdentBefore(s: string, k: nat, i: nat)
    requires i <= k <= |s| && ScanIdent(s, i) <= k
    ensures ScanIdent(s[..k], i) == ScanIdent(s, i)
    decreases k - i
  {
    if i < k && IsIdentContinue(s[i]) { ScanIdentBefore(s, k, i + 1); }
  }

  lemma {:induction false} ScanDigitsBefore(s: string, k: nat, i: nat)
    requires i <= k <= |s| && ScanDigits(s, i) <= k
    ensures ScanDigits(s[..k], i) == ScanDigits(s, i)
    decreases k - i
  {
    if i < k && IsDigit(s[i]) { ScanDigitsBefore(s, k, i + 1); }
  }

  lemma {:induction false} ScanStringBefore(s: string, k: nat, i: nat)
    requires i <= k < |s| && ScanString(s, i) <= k
    ensures ScanString(s[..k], i) == ScanString(s, i)
    decreases k - i
  {
    if s[i] != '\'' {
      ScanStringBefore(s, k, i + 1);
    } else if i + 1 < |s| && s[i + 1] == '\'' {
      ScanStringBefore(s, k, i + 2);
    }
  }

  lemma ScanBefore(s: string, k: nat, i: nat)
    requires i < k < |s| && s[k] == '\'' && Scan(s, i).Some? && Scan(s, i).value.1 <= k
    ensures Scan(s[..k], i) == Scan(s, i)
  {
    hide ScanString, ScanIdent, ScanDigits;
    if s[i] == '\'' {
      ScanStringBefore(s, k, i + 1);
    } else if IsIdentStart(s[i]) {
      ScanIdentBefore(s, k, i + 1);
    } else if IsDigit(s[i]) {
      ScanDigitsBefore(s, k, i + 1);
    }
  }

  /** Tokens that end in front of a literal are the same without the literal. */
  lemma NextBefore(s: string, k: nat, i: nat)
    requires i <= k < |s| && s[k] == '\'' && Next(s, i).Ok? && Next(s, i).value.end <= k
    requires Next(s, i).value.tok.kind != Eof
    ensures Next(s[..k], i) == Next(s, i)
  {
    hide KeywordKind, Scan, SkipWs;
    SkipWsBefore(s, k, i);
    ScanBefore(s, k, SkipWs(s, i));
    var l := Next(s, i).value;
    assert s[..k][SkipWs(s, i)..l.end] == s[SkipWs(s, i)..l.end];
  }

  // ---------- the parser with and without the literal ----------

  /**
   A state in front of the literal at `k`: its token is good and ends there or before, or it is the end of input that
   replaces the literal. Without a bad literal `k` is the length of the input.
   */
  predicate InFront(s: string, k: nat, st: State)
    requires k <= |s|
  {
    && Valid(s[..k], st) && !IsBad(st.cur)
    && (st.cur.kind == Eof ==> st == State(Tok(Eof, k, ""), k))
    && (st.cur.kind != Eof ==> st.cur.start < k && BadAt(s, st.i) == k)
  }

  /** The same state of the parser that sees the whole input. */
  function Whole(s: string, k: nat, st: State): State
    requires k <= |s|
  {
    if k < |s| && st.cur.kind == Eof then State(Tok(StrTok, k, s[k..]), |s|) else st
  }

  /** The error of a parser that comes to the end of input where an expression should start. */
  function Missing(k: nat): Failure {
    ParseError(ExpectedExpression, k)
  }

  /** How an error without the literal and one with it belong together. */
  predicate SameStop(s: string, k: nat, e: Failure, whole: Failure) {
    e != Panic && (whole == Panic <==> k < |s| && e == Missing(k))
  }

  /**
   The whole parser does what the one in front of the literal does, and stops the program where that one misses an
   expression.
   */
  ghost predicate Follows<T(!new)>(s: string, k: nat, r: Parse<T>, whole: Parse<T>)
    requires k <= |s|
  {
    match r
    case Ok(v) => whole == Ok((v.0, Whole(s, k, v.1))) && InFront(s, k, v.1)
    case Err(e) => whole.Err? && SameStop(s, k, e, whole.error)
  }

  /** Moving on. */
  lemma NextFollows(s: string, k: nat, i: nat)
    requires i <= k <= |s| && BadAt(s, i) == k
    ensures
      var r, whole := Next(s[..k], i), Next(s, i);
      && (r.Ok? ==> whole.Ok?)
      && (r.Err? ==> whole.Err? && SameStop(s, k, r.error, whole.error))
      && (r.Ok? ==>
            && InFront(s, k, State(r.value.tok, r.value.end))
            && State(whole.value.tok, whole.value.end) == Whole(s, k, State(r.value.tok, r.value.end)))
  {
    hide Scan, KeywordKind, Inner, IsIdent, IsNumber;
    if k == |s| {
      assert s[..k] == s;
      if Next(s, i).Ok? { StartsWithin(s, i); }
    } else {
      BadIsLast(s, i);
      StartsWithin(s, i);
      var l := Next(s, i).value;
      if IsBad(l.tok) {
        BadToken(s, i);
        SkipWsBefore(s, k, i);
      } else {
        NextBefore(s, k, i);
      }
    }
  }

  lemma WholeValid(s: string, k: nat, st: State)
    requires k <= |s| && InFront(s, k, st)
    ensures Valid(s[..k], st) && Valid(s, Whole(s, k, st))
  {
  }

  ghost predicate Moves(s: string, k: nat, r: Result<State, Failure>, whole: Result<State, Failure>)
    requires k <= |s|
  {
    match r
    case Ok(st) => whole == Ok(Whole(s, k, st)) && InFront(s, k, st)
    case Err(e) => whole.Err? && SameStop(s, k, e, whole.error)
  }

  lemma BumpFollows(s: string, k: nat, st: State)
    requires k <= |s| && InFront(s, k, st) && st.cur.kind != Eof
    ensures Valid(s[..k], st) && Valid(s, st) && Moves(s, k, Bump(s[..k], st), Bump(s, st))
  {
    hide Next, BadAt, IsBad, Inner, IsIdent, IsNumber;
    NextFollows(s, k, st.i);
  }

  lemma ExpectFollows(s: string, k: nat, st: State, kind: Kind)
    requires k <= |s| && InFront(s, k, st) && kind != Eof && kind != StrTok
    ensures
      && Valid(s[..k], st) && Valid(s, Whole(s, k, st))
      && Moves(s, k, Expect(s[..k], st, kind), Expect(s, Whole(s, k, st), kind))
  {
    hide Bump, BadAt, IsBad, IsIdent, IsNumber;
    WholeValid(s, k, st);
    if st.cur.kind == kind { BumpFollows(s, k, st); }
  }

  lemma IdentFollows(s: string, k: nat, st: State)
    requires k <= |s| && InFront(s, k, st)
    ensures
      && Valid(s[..k], st) && Valid(s, Whole(s, k, st))
      && Follows(s, k, ParseIdent(s[..k], st), ParseIdent(s, Whole(s, k, st)))
  {
    hide Bump, BadAt, IsBad, IsIdent, IsNumber;
    WholeValid(s, k, st);
    if st.cur.kind == IdentTok { BumpFollows(s, k, st); }
  }

  lemma U64Follows(s: string, k: nat, st: State)
    requires k <= |s| && InFront(s, k, st)
    ensures
      && Valid(s[..k], st) && Valid(s, Whole(s, k, st))
      && Follows(s, k, ParseU64(s[..k], st), ParseU64(s, Whole(s, k, st)))
  {
    hide Bump, BadAt, IsBad, IsIdent;
    WholeValid(s, k, st);
    if st.cur.kind == IntTok { BumpFollows(s, k, st); }
  }

  // ---------- expressions ----------

  /** The one place where the program stops: the literal stands where the parser in front of it misses an expression. */
  lemma LeafFollows(s: string, k: nat, st: State)
    requires k <= |s| && InFront(s, k, st) && BadAt(s, 0) == k
    ensures
      && Valid(s[..k], st) && Valid(s, Whole(s, k, st))
      && Follows(s, k, ParseLeaf(s[..k], st), ParseLeaf(s, Whole(s, k, st)))
  {
    hide Bump, BadAt, Inner, IsIdent, IsNumber, DigitsValue;
    WholeValid(s, k, st);
    if st.cur.kind != Eof {
      BumpFollows(s, k, st);
    } else if k < |s| {
      BadIsLast(s, 0);
      EndFollows(s, k);
    }
  }

  /** Behind the last token there is the end of input. */
  lemma EndFollows(s: string, k: nat)
    requires k <= |s|
    ensures Bump(s, State(Tok(StrTok, k, s[k..]), |s|)) == Ok(State(Tok(Eof, |s|, ""), |s|))
  {
  }

  lemma {:induction false} ExprFollows(s: string, k: nat, st: State, minBp: nat)
    requires k <= |s| && InFront(s, k, st) && BadAt(s, 0) == k
    ensures
      && Valid(s[..k], st) && Valid(s, Whole(s, k, st))
      && Follows(s, k, ParseExprBp(s[..k], st, minBp), ParseExprBp(s, Whole(s, k, st), minBp))
    decreases k - st.i + if st.cur.kind == Eof then 0 else 1, 2
  {
    hide BadAt, InFront, Whole, SameStop, WfArith, ParsePrimary, ParseTail, GoodTok;
    PrimaryFollows(s, k, st);
    var lhs := ParsePrimary(s[..k], st);
    if lhs.Ok? { TailFollows(s, k, lhs.value.1, lhs.value.0, minBp); }
  }

  lemma {:induction false} TailFollows(s: string, k: nat, st: State, lhs: Expr, minBp: nat)
    requires k <= |s| && InFront(s, k, st) && BadAt(s, 0) == k && WfArith(lhs, false)
    ensures
      && Valid(s[..k], st) && Valid(s, Whole(s, k, st))
      && Follows(s, k, ParseTail(s[..k], st, lhs, minBp), ParseTail(s, Whole(s, k, st), lhs, minBp))
    decreases k - st.i + if st.cur.kind == Eof then 0 else 1, 0
  {
    hide BadAt, ParseExprBp, Bump, InFront, GoodTok;
    WholeValid(s, k, st);
    var op := BinOpOf(st.cur.kind);
    if op.Some? && 1 >= minBp {
      BumpFollows(s, k, st);
      var next := Bump(s[..k], st);
      if next.Ok? {
        ExprFollows(s, k, next.value, 2);
        var rhs := ParseExprBp(s[..k], next.value, 2);
        if rhs.Ok? { TailFollows(s, k, rhs.value.1, Binary(op.value, lhs, rhs.value.0), minBp); }
      }
    }
  }

  lemma {:induction false} PrimaryFollows(s: string, k: nat, st: State)
    requires k <= |s| && InFront(s, k, st) && BadAt(s, 0) == k
    ensures
      && Valid(s[..k], st) && Valid(s, Whole(s, k, st))
      && Follows(s, k, ParsePrimary(s[..k], st), ParsePrimary(s, Whole(s, k, st)))
    decreases k - st.i + if st.cur.kind == Eof then 0 else 1, 1
  {
    hide BadAt, Follows, ParseLeaf, ParseNegative, ParseIdentOrCall, ParseAggregate, ParseParen, IsBad, GoodTok;
    WholeValid(s, k, st);
    if st.cur.kind == Minus {
      NegativeFollows(s, k, st);
    } else if st.cur.kind == IdentTok {
      CallFollows(s, k, st);
    } else if AggOf(st.cur.kind).Some? {
      AggregateFollows(s, k, st);
    } else if st.cur.kind == LParen {
      ParenFollows(s, k, st);
    } else {
      LeafFollows(s, k, st);
    }
  }

  lemma {:induction false} NegativeFollows(s: string, k: nat, st: State)
    requires k <= |s| && InFront(s, k, st) && BadAt(s, 0) == k && st.cur.kind == Minus
    ensures
      && Valid(s[..k], st) && Valid(s, st)
      && Follows(s, k, ParseNegative(s[..k], st), ParseNegative(s, st))
    decreases k - st.i + if st.cur.kind == Eof then 0 else 1, 0
  {
    hide BadAt, ParseExprBp, Bump, IsBad, IsIdent, IsNumber;
    BumpFollows(s, k, st);
    var next := Bump(s[..k], st);
    if next.Ok? { ExprFollows(s, k, next.value, 2); }
  }

  /** A list and its closing parenthesis. */
  ghost function Closed(s: string, st: State): Parse<seq<Expr>>
    requires Valid(s, st)
  {
    var es :- ParseExprList(s, st);
    var end :- Expect(s, es.1, RParen);
    Ok((es.0, end))
  }

  lemma {:induction false} ClosedFollows(s: string, k: nat, st: State)
    requires k <= |s| && InFront(s, k, st) && BadAt(s, 0) == k
    ensures
      && Valid(s[..k], st) && Valid(s, Whole(s, k, st))
      && Follows(s, k, Closed(s[..k], st), Closed(s, Whole(s, k, st)))
    decreases k - st.i + if st.cur.kind == Eof then 0 else 1, 4
  {
    hide BadAt, ParseExprList, Expect, InFront, Whole, SameStop, GoodTok, WfList;
    ListFollows(s, k, st);
    var es := ParseExprList(s[..k], st);
    if es.Ok? { ExpectFollows(s, k, es.value.1, RParen); }
  }

  lemma CallSplits(s: string, st: State)
    requires Valid(s, st) && st.cur.kind == IdentTok
    ensures ParseIdentOrCall(s, st) ==
      var id := ParseIdent(s, st);
      if id.Err? then Err(id.error)
      else if id.value.1.cur.kind != LParen then Ok((Ident(id.value.0), id.value.1))
      else
        var next := Bump(s, id.value.1);
        if next.Err? then Err(next.error)
        else
          var args := Closed(s, next.value);
          if args.Err? then Err(args.error) else Ok((Call(id.value.0, args.value.0), args.value.1))
  {
    hide ParseIdent, Bump, ParseExprList, Expect, WfArith, WfList, GoodTok;
  }

  lemma {:induction false} CallFollows(s: string, k: nat, st: State)
    requires k <= |s| && InFront(s, k, st) && BadAt(s, 0) == k && st.cur.kind == IdentTok
    ensures
      && Valid(s[..k], st) && Valid(s, st)
      && Follows(s, k, ParseIdentOrCall(s[..k], st), ParseIdentOrCall(s, st))
    decreases k - st.i + if st.cur.kind == Eof then 0 else 1, 0
  {
    hide BadAt, ParseIdentOrCall, ParseIdent, Closed, Bump, InFront, SameStop, GoodTok;
    IdentFollows(s, k, st);
    CallSplits(s[..k], st);
    CallSplits(s, st);
    var id := ParseIdent(s[..k], st);
    if id.Ok? && id.value.1.cur.kind == LParen {
      BumpFollows(s, k, id.value.1);
      var next := Bump(s[..k], id.value.1);
      if next.Ok? { ClosedFollows(s, k, next.value); }
    }
  }

  lemma {:induction false} ParenFollows(s: string, k: nat, st: State)
    requires k <= |s| && InFront(s, k, st) && BadAt(s, 0) == k && st.cur.kind == LParen
    ensures
      && Valid(s[..k], st) && Valid(s, st)
      && Follows(s, k, ParseParen(s[..k], st), ParseParen(s, st))
    decreases k - st.i + if st.cur.kind == Eof then 0 else 1, 0
  {
    hide BadAt, ParseExprBp, Expect, Bump, InFront, GoodTok, WfArith;
    BumpFollows(s, k, st);
    var next := Bump(s[..k], st);
    if next.Ok? {
      ExprFollows(s, k, next.value, 0);
      var e := ParseExprBp(s[..k], next.value, 0);
      if e.Ok? { ExpectFollows(s, k, e.value.1, RParen); }
    }
  }

  /** An aggregate from its argument on. */
  ghost function AggRest(s: string, st: State, func: AggFn, distinct: bool): (r: Parse<Expr>)
    requires Valid(s, st)
  {
    var arg :- ParseAggArg(s, st);
    var end :- Expect(s, arg.1, RParen);
    if func != Count && distinct && func != ApproxDistinct then Unexpected(DistinctOnlyWithCount, end)
    else if func != Count && arg.0 == Star && func != ApproxDistinct then Unexpected(StarOnlyWithCount, end)
    else if func == ApproxDistinct && arg.0 == Star then Unexpected(NeedsColumn, end)
    else Ok((Agg(func, distinct, arg.0), end))
  }

  lemma AggSplits(s: string, st: State)
    requires Valid(s, st) && AggOf(st.cur.kind).Some?
    ensures ParseAggregate(s, st) ==
      var name := Bump(s, st);
      if name.Err? then Err(name.error)
      else
        var open := Expect(s, name.value, LParen);
        if open.Err? then Err(open.error)
        else
          var distinct := open.value.cur.kind == KwDistinct;
          var start := if distinct then Bump(s, open.value) else open;
          if start.Err? then Err(start.error) else AggRest(s, start.value, AggOf(st.cur.kind).value, distinct)
  {
    hide Bump, Expect, ParseAggArg, WfArith, GoodTok;
  }

  lemma {:induction false} AggRestFollows(s: string, k: nat, st: State, func: AggFn, distinct: bool)
    requires k <= |s| && InFront(s, k, st) && BadAt(s, 0) == k
    ensures
      && Valid(s[..k], st) && Valid(s, Whole(s, k, st))
      && Follows(s, k, AggRest(s[..k], st, func, distinct), AggRest(s, Whole(s, k, st), func, distinct))
    decreases k - st.i + if st.cur.kind == Eof then 0 else 1, 4
  {
    hide BadAt, ParseAggArg, Expect, Bump, WfArith, InFront, GoodTok;
    ArgFollows(s, k, st);
    var arg := ParseAggArg(s[..k], st);
    if arg.Ok? { ExpectFollows(s, k, arg.value.1, RParen); }
  }

  lemma {:induction false} AggregateFollows(s: string, k: nat, st: State)
    requires k <= |s| && InFront(s, k, st) && BadAt(s, 0) == k && AggOf(st.cur.kind).Some?
    ensures
      && Valid(s[..k], st) && Valid(s, st)
      && Follows(s, k, ParseAggregate(s[..k], st), ParseAggregate(s, st))
    decreases k - st.i + if st.cur.kind == Eof then 0 else 1, 0
  {
    hide BadAt, ParseAggregate, AggRest, Expect, Bump, InFront, SameStop, GoodTok;
    BumpFollows(s, k, st);
    AggSplits(s[..k], st);
    AggSplits(s, st);
    var name := Bump(s[..k], st);
    if name.Ok? {
      ExpectFollows(s, k, name.value, LParen);
      var open := Expect(s[..k], name.value, LParen);
      if open.Ok? {
        var distinct := open.value.cur.kind == KwDistinct;
        if distinct { BumpFollows(s, k, open.value); }
        var start := if distinct then Bump(s[..k], open.value) else open;
        if start.Ok? { AggRestFollows(s, k, start.value, AggOf(st.cur.kind).value, distinct); }
      }
    }
  }

  lemma {:induction false} ArgFollows(s: string, k: nat, st: State)
    requires k <= |s| && InFront(s, k, st) && BadAt(s, 0) == k
    ensures
      && Valid(s[..k], st) && Valid(s, Whole(s, k, st))
      && Follows(s, k, ParseAggArg(s[..k], st), ParseAggArg(s, Whole(s, k, st)))
    decreases k - st.i + if st.cur.kind == Eof then 0 else 1, 3
  {
    hide BadAt, ParseExprBp, Bump, IsBad, IsIdent, IsNumber;
    WholeValid(s, k, st);
    if st.cur.kind == StarTok { BumpFollows(s, k, st); } else { ExprFollows(s, k, st, 0); }
  }

  lemma {:induction false} ListFollows(s: string, k: nat, st: State)
    requires k <= |s| && InFront(s, k, st) && BadAt(s, 0) == k
    ensures
      && Valid(s[..k], st) && Valid(s, Whole(s, k, st))
      && Follows(s, k, ParseExprList(s[..k], st), ParseExprList(s, Whole(s, k, st)))
    decreases k - st.i + if st.cur.kind == Eof then 0 else 1, 3
  {
    hide BadAt, ParseExprBp, Bump, IsBad, IsIdent, IsNumber, WfArith, WfList;
    ExprFollows(s, k, st, 0);
    var first := ParseExprBp(s[..k], st, 0);
    if first.Ok? && first.value.1.cur.kind == Comma {
      BumpFollows(s, k, first.value.1);
      var next := Bump(s[..k], first.value.1);
      if next.Ok? { ListFollows(s, k, next.value); }
    }
  }

  // ---------- predicates ----------

  lemma PredicateFollows(s: string, k: nat, st: State)
    requires k <= |s| && InFront(s, k, st) && BadAt(s, 0) == k
    ensures
      && Valid(s[..k], st) && Valid(s, Whole(s, k, st))
      && Follows(s, k, ParsePredicate(s[..k], st), ParsePredicate(s, Whole(s, k, st)))
  {
    hide BadAt, ParseExprBp, ParseLike, ParseIn, ParseCompare, Bump, InFront, GoodTok, WfArith, WfPred;
    ExprFollows(s, k, st, 0);
    var left := ParseExprBp(s[..k], st, 0);
    if left.Ok? {
      var neg := left.value.1.cur.kind == KwNot;
      if neg { BumpFollows(s, k, left.value.1); }
      var at := if neg then Bump(s[..k], left.value.1) else Ok(left.value.1);
      if at.Ok? { TestFollows(s, k, at.value, left.value.0, neg); }
    }
  }

  /** What follows the left side of a predicate. */
  lemma TestFollows(s: string, k: nat, st: State, left: Expr, neg: bool)
    requires k <= |s| && InFront(s, k, st) && BadAt(s, 0) == k && WfArith(left, false)
    ensures Valid(s[..k], st) && Valid(s, Whole(s, k, st)) && (st.cur.kind == KwLike || st.cur.kind == KwIn
      ==> Whole(s, k, st) == st)
    ensures st.cur.kind == KwLike ==> Follows(s, k, ParseLike(s[..k], st, left, neg), ParseLike(s, st, left, neg))
    ensures st.cur.kind == KwIn ==> Follows(s, k, ParseIn(s[..k], st, left, neg), ParseIn(s, st, left, neg))
    ensures Follows(s, k, ParseCompare(s[..k], st, left), ParseCompare(s, Whole(s, k, st), left))
  {
    hide BadAt, ParseLike, ParseIn, ParseCompare, Bump, IsBad, IsIdent, IsNumber, WfArith, WfPred;
    WholeValid(s, k, st);
    if st.cur.kind == KwLike { LikeFollows(s, k, st, left, neg); }
    if st.cur.kind == KwIn { InFollows(s, k, st, left, neg); }
    CompareFollows(s, k, st, left);
  }

  lemma LikeFollows(s: string, k: nat, st: State, left: Expr, neg: bool)
    requires k <= |s| && InFront(s, k, st) && BadAt(s, 0) == k && WfArith(left, false) && st.cur.kind == KwLike
    ensures Valid(s[..k], st) && Valid(s, st) && Follows(s, k, ParseLike(s[..k], st, left, neg),
      ParseLike(s, st, left, neg))
  {
    hide BadAt, ParseExprBp, Bump, IsBad, IsIdent, IsNumber, WfArith, WfPred;
    BumpFollows(s, k, st);
    var next := Bump(s[..k], st);
    if next.Ok? { ExprFollows(s, k, next.value, 0); }
  }

  lemma InSplits(s: string, st: State, left: Expr, neg: bool)
    requires Valid(s, st) && st.cur.kind == KwIn && WfArith(left, false)
    ensures ParseIn(s, st, left, neg) ==
      var next := Bump(s, st);
      if next.Err? then Err(next.error)
      else
        var open := Expect(s, next.value, LParen);
        if open.Err? then Err(open.error)
        else
          var values := Closed(s, open.value);
          if values.Err? then Err(values.error) else Ok((In(left, values.value.0, neg), values.value.1))
  {
    hide Bump, ParseExprList, Expect, WfArith, WfList, GoodTok;
  }

  lemma InFollows(s: string, k: nat, st: State, left: Expr, neg: bool)
    requires k <= |s| && InFront(s, k, st) && BadAt(s, 0) == k && WfArith(left, false) && st.cur.kind == KwIn
    ensures
      && Valid(s[..k], st) && Valid(s, st)
      && Follows(s, k, ParseIn(s[..k], st, left, neg), ParseIn(s, st, left, neg))
  {
    hide BadAt, ParseIn, Closed, Expect, Bump, InFront, SameStop, GoodTok;
    BumpFollows(s, k, st);
    InSplits(s[..k], st, left, neg);
    InSplits(s, st, left, neg);
    var next := Bump(s[..k], st);
    if next.Ok? {
      ExpectFollows(s, k, next.value, LParen);
      var open := Expect(s[..k], next.value, LParen);
      if open.Ok? { ClosedFollows(s, k, open.value); }
    }
  }

  lemma CompareFollows(s: string, k: nat, st: State, left: Expr)
    requires k <= |s| && InFront(s, k, st) && BadAt(s, 0) == k && WfArith(left, false)
    ensures
      && Valid(s[..k], st) && Valid(s, Whole(s, k, st))
      && Follows(s, k, ParseCompare(s[..k], st, left), ParseCompare(s, Whole(s, k, st), left))
  {
    hide BadAt, ParseExprBp, Bump, IsBad, IsIdent, IsNumber, WfArith, WfPred;
    WholeValid(s, k, st);
    if CmpOf(st.cur.kind).Some? {
      BumpFollows(s, k, st);
      var next := Bump(s[..k], st);
      if next.Ok? { ExprFollows(s, k, next.value, 0); }
    }
  }

  lemma AndFollows(s: string, k: nat, st: State)
    requires k <= |s| && InFront(s, k, st) && BadAt(s, 0) == k
    ensures
      && Valid(s[..k], st) && Valid(s, Whole(s, k, st))
      && Follows(s, k, ParseAnd(s[..k], st), ParseAnd(s, Whole(s, k, st)))
  {
    hide BadAt, ParsePredicate, ParseAndTail, Bump, InFront, SameStop, GoodTok, WfArith, WfList;
    PredicateFollows(s, k, st);
    var first := ParsePredicate(s[..k], st);
    if first.Ok? { AndTailFollows(s, k, first.value.1, first.value.0); }
  }

  lemma {:induction false} AndTailFollows(s: string, k: nat, st: State, left: Expr)
    requires k <= |s| && InFront(s, k, st) && BadAt(s, 0) == k && WfWhere(left, false)
    ensures
      && Valid(s[..k], st) && Valid(s, Whole(s, k, st))
      && Follows(s, k, ParseAndTail(s[..k], st, left), ParseAndTail(s, Whole(s, k, st), left))
    decreases k - st.i + if st.cur.kind == Eof then 0 else 1
  {
    hide BadAt, ParsePredicate, Bump, IsBad, IsIdent, IsNumber, WfPred;
    WholeValid(s, k, st);
    if st.cur.kind == KwAnd {
      BumpFollows(s, k, st);
      var next := Bump(s[..k], st);
      if next.Ok? {
        PredicateFollows(s, k, next.value);
        var right := ParsePredicate(s[..k], next.value);
        if right.Ok? { AndTailFollows(s, k, right.value.1, And(left, right.value.0)); }
      }
    }
  }

  // ---------- clauses ----------

  lemma SelectItemFollows(s: string, k: nat, st: State)
    requires k <= |s| && InFront(s, k, st) && BadAt(s, 0) == k
    ensures
      && Valid(s[..k], st) && Valid(s, Whole(s, k, st))
      && Follows(s, k, ParseSelectItem(s[..k], st), ParseSelectItem(s, Whole(s, k, st)))
  {
    hide BadAt, ParseExprBp, ParseIdent, Bump, IsBad, IsIdent, IsNumber, WfArith;
    ExprFollows(s, k, st, 0);
    var expr := ParseExprBp(s[..k], st, 0);
    if expr.Ok? && expr.value.1.cur.kind == KwAs {
      BumpFollows(s, k, expr.value.1);
      var next := Bump(s[..k], expr.value.1);
      if next.Ok? { IdentFollows(s, k, next.value); }
    }
  }

  lemma {:induction false} SelectFollows(s: string, k: nat, st: State)
    requires k <= |s| && InFront(s, k, st) && BadAt(s, 0) == k
    ensures
      && Valid(s[..k], st) && Valid(s, Whole(s, k, st))
      && Follows(s, k, ParseSelectList(s[..k], st), ParseSelectList(s, Whole(s, k, st)))
    decreases k - st.i + if st.cur.kind == Eof then 0 else 1
  {
    hide BadAt, ParseSelectItem, Bump, IsBad, IsIdent, IsNumber, WfItem;
    SelectItemFollows(s, k, st);
    var first := ParseSelectItem(s[..k], st);
    if first.Ok? && first.value.1.cur.kind == Comma {
      BumpFollows(s, k, first.value.1);
      var next := Bump(s[..k], first.value.1);
      if next.Ok? { SelectFollows(s, k, next.value); }
    }
  }

  lemma OrderItemFollows(s: string, k: nat, st: State)
    requires k <= |s| && InFront(s, k, st) && BadAt(s, 0) == k
    ensures
      && Valid(s[..k], st) && Valid(s, Whole(s, k, st))
      && Follows(s, k, ParseOrderItem(s[..k], st), ParseOrderItem(s, Whole(s, k, st)))
  {
    hide BadAt, ParseExprBp, Bump, IsBad, IsIdent, IsNumber, WfArith;
    ExprFollows(s, k, st, 0);
    var expr := ParseExprBp(s[..k], st, 0);
    if expr.Ok? && (expr.value.1.cur.kind == KwDesc || expr.value.1.cur.kind
      == KwAsc) { BumpFollows(s, k, expr.value.1); }
  }

  lemma {:induction false} OrderFollows(s: string, k: nat, st: State)
    requires k <= |s| && InFront(s, k, st) && BadAt(s, 0) == k
    ensures
      && Valid(s[..k], st) && Valid(s, Whole(s, k, st))
      && Follows(s, k, ParseOrderList(s[..k], st), ParseOrderList(s, Whole(s, k, st)))
    decreases k - st.i + if st.cur.kind == Eof then 0 else 1
  {
    hide BadAt, ParseOrderItem, Bump, IsBad, IsIdent, IsNumber, WfArith;
    OrderItemFollows(s, k, st);
    var first := ParseOrderItem(s[..k], st);
    if first.Ok? && first.value.1.cur.kind == Comma {
      BumpFollows(s, k, first.value.1);
      var next := Bump(s[..k], first.value.1);
      if next.Ok? { OrderFollows(s, k, next.value); }
    }
  }

  lemma FilterFollows(s: string, k: nat, st: State, kind: Kind)
    requires k <= |s| && InFront(s, k, st) && BadAt(s, 0) == k && kind != Eof && kind != StrTok
    ensures
      && Valid(s[..k], st) && Valid(s, Whole(s, k, st))
      && Follows(s, k, ParseFilter(s[..k], st, kind), ParseFilter(s, Whole(s, k, st), kind))
  {
    hide BadAt, ParseAnd, Bump, IsBad, IsIdent, IsNumber, WfWhere;
    WholeValid(s, k, st);
    if st.cur.kind == kind {
      BumpFollows(s, k, st);
      var next := Bump(s[..k], st);
      if next.Ok? { AndFollows(s, k, next.value); }
    }
  }

  lemma GroupByFollows(s: string, k: nat, st: State)
    requires k <= |s| && InFront(s, k, st) && BadAt(s, 0) == k
    ensures
      && Valid(s[..k], st) && Valid(s, Whole(s, k, st))
      && Follows(s, k, ParseGroupBy(s[..k], st), ParseGroupBy(s, Whole(s, k, st)))
  {
    hide BadAt, ParseExprList, Expect, Bump, InFront, GoodTok, WfList;
    WholeValid(s, k, st);
    if st.cur.kind == KwGroup {
      BumpFollows(s, k, st);
      var next := Bump(s[..k], st);
      if next.Ok? {
        ExpectFollows(s, k, next.value, KwBy);
        var start := Expect(s[..k], next.value, KwBy);
        if start.Ok? { ListFollows(s, k, start.value); }
      }
    }
  }

  lemma OrderByFollows(s: string, k: nat, st: State)
    requires k <= |s| && InFront(s, k, st) && BadAt(s, 0) == k
    ensures
      && Valid(s[..k], st) && Valid(s, Whole(s, k, st))
      && Follows(s, k, ParseOrderBy(s[..k], st), ParseOrderBy(s, Whole(s, k, st)))
  {
    hide BadAt, ParseOrderList, Expect, Bump, InFront, GoodTok, WfArith;
    WholeValid(s, k, st);
    if st.cur.kind == KwOrder {
      BumpFollows(s, k, st);
      var next := Bump(s[..k], st);
      if next.Ok? {
        ExpectFollows(s, k, next.value, KwBy);
        var start := Expect(s[..k], next.value, KwBy);
        if start.Ok? { OrderFollows(s, k, start.value); }
      }
    }
  }

  lemma CountFollows(s: string, k: nat, st: State, kind: Kind)
    requires k <= |s| && InFront(s, k, st) && kind != Eof && kind != StrTok
    ensures
      && Valid(s[..k], st) && Valid(s, Whole(s, k, st))
      && Follows(s, k, ParseCount(s[..k], st, kind), ParseCount(s, Whole(s, k, st), kind))
  {
    hide BadAt, ParseU64, Bump, IsBad, IsIdent, IsNumber;
    WholeValid(s, k, st);
    if st.cur.kind == kind {
      BumpFollows(s, k, st);
      var next := Bump(s[..k], st);
      if next.Ok? { U64Follows(s, k, next.value); }
    }
  }

  // ---------- the whole input ----------

  /** How the results without and with the literal belong together. */
  ghost predicate SameEnd(s: string, k: nat, r: Result<Query, Failure>, whole: Result<Query, Failure>) {
    r != Err(Panic) && (whole == Err(Panic) <==> k < |s| && r == Err(Missing(k)))
  }

  /** A query from its ORDER BY on. */
  ghost function FromOrderBy(s: string, st: State, q: Query): Result<Query, Failure>
    requires Valid(s, st)
  {
    var orderBy :- ParseOrderBy(s, st);
    var offset :- ParseCount(s, orderBy.1, KwOffset);
    var limit :- ParseCount(s, offset.1, KwLimit);
    AtEnd(s, limit.1, q.(orderBy := orderBy.0, offset := offset.0, limit := limit.0))
  }

  ghost function AtEnd(s: string, st: State, q: Query): Result<Query, Failure>
    requires Valid(s, st)
  {
    var semi :- if st.cur.kind == Semi then Bump(s, st) else Ok(st);
    var end :- Expect(s, semi, Eof);
    Ok(q)
  }

  /** A query from its WHERE on. */
  ghost function FromWhere(s: string, st: State, q: Query): Result<Query, Failure>
    requires Valid(s, st)
  {
    var filter :- ParseFilter(s, st, KwWhere);
    var groupBy :- ParseGroupBy(s, filter.1);
    var having :- ParseFilter(s, groupBy.1, KwHaving);
    FromOrderBy(s, having.1, q.(where_ := filter.0, groupBy := groupBy.0, having := having.0))
  }

  lemma QuerySplits(s: string, st: State)
    requires Valid(s, st)
    ensures ParseQuery(s, st) ==
      var select_ := Expect(s, st, KwSelect);
      if select_.Err? then Err(select_.error)
      else
        var select := ParseSelectList(s, select_.value);
        if select.Err? then Err(select.error)
        else
          var from_ := Expect(s, select.value.1, KwFrom);
          if from_.Err? then Err(from_.error)
          else
            var from := ParseIdent(s, from_.value);
            if from.Err? then Err(from.error)
            else FromWhere(s, from.value.1, Query(select.value.0, from.value.0, None, [], None, [], None, None))
  {
    hide Expect, Bump, ParseSelectList, ParseIdent, ParseFilter, ParseGroupBy, ParseOrderBy, ParseCount, GoodTok;
    hide WfArith, WfWhere, WfItem, WfList, IsIdent;
  }

  lemma EndSame(s: string, k: nat, st: State, q: Query)
    requires k <= |s| && InFront(s, k, st)
    ensures
      && Valid(s[..k], st) && Valid(s, Whole(s, k, st))
      && SameEnd(s, k, AtEnd(s[..k], st, q), AtEnd(s, Whole(s, k, st), q))
  {
    hide BadAt, Bump, IsBad, IsIdent, IsNumber;
    WholeValid(s, k, st);
    if st.cur.kind == Semi { BumpFollows(s, k, st); }
    var semi := if st.cur.kind == Semi then Bump(s[..k], st) else Ok(st);
    if semi.Ok? { EofSame(s, k, semi.value); }
  }

  lemma EofSame(s: string, k: nat, st: State)
    requires k <= |s| && InFront(s, k, st)
    ensures Valid(s[..k], st) && Valid(s, Whole(s, k, st))
    ensures
      var r, whole := Expect(s[..k], st, Eof), Expect(s, Whole(s, k, st), Eof);
      && (r.Err? ==> r.error != Panic && r.error != Missing(k))
      && (whole.Err? ==> whole.error != Panic)
  {
    hide BadAt, IsBad, IsIdent, IsNumber;
    WholeValid(s, k, st);
  }

  lemma OrderBySame(s: string, k: nat, st: State, q: Query)
    requires k <= |s| && InFront(s, k, st) && BadAt(s, 0) == k
    ensures
      && Valid(s[..k], st) && Valid(s, Whole(s, k, st))
      && SameEnd(s, k, FromOrderBy(s[..k], st, q), FromOrderBy(s, Whole(s, k, st), q))
  {
    hide BadAt, ParseOrderBy, ParseCount, AtEnd, InFront, Whole, GoodTok, WfArith;
    OrderByFollows(s, k, st);
    var orderBy := ParseOrderBy(s[..k], st);
    if orderBy.Ok? {
      CountFollows(s, k, orderBy.value.1, KwOffset);
      var offset := ParseCount(s[..k], orderBy.value.1, KwOffset);
      if offset.Ok? {
        CountFollows(s, k, offset.value.1, KwLimit);
        var limit := ParseCount(s[..k], offset.value.1, KwLimit);
        if limit.Ok? {
          EndSame(s, k, limit.value.1, q.(orderBy := orderBy.value.0, offset := offset.value.0,
            limit := limit.value.0));
        }
      }
    }
  }

  lemma WhereSame(s: string, k: nat, st: State, q: Query)
    requires k <= |s| && InFront(s, k, st) && BadAt(s, 0) == k
    ensures
      && Valid(s[..k], st) && Valid(s, Whole(s, k, st))
      && SameEnd(s, k, FromWhere(s[..k], st, q), FromWhere(s, Whole(s, k, st), q))
  {
    hide BadAt, ParseFilter, ParseGroupBy, FromOrderBy, InFront, Whole, GoodTok, WfWhere, WfList;
    FilterFollows(s, k, st, KwWhere);
    var filter := ParseFilter(s[..k], st, KwWhere);
    if filter.Ok? {
      GroupByFollows(s, k, filter.value.1);
      var groupBy := ParseGroupBy(s[..k], filter.value.1);
      if groupBy.Ok? {
        FilterFollows(s, k, groupBy.value.1, KwHaving);
        var having := ParseFilter(s[..k], groupBy.value.1, KwHaving);
        if having.Ok? {
          OrderBySame(s, k, having.value.1,
            q.(where_ := filter.value.0, groupBy := groupBy.value.0, having := having.value.0));
        }
      }
    }
  }

  lemma QuerySame(s: string, k: nat, st: State)
    requires k <= |s| && InFront(s, k, st) && BadAt(s, 0) == k
    ensures
      && Valid(s[..k], st) && Valid(s, Whole(s, k, st))
      && SameEnd(s, k, ParseQuery(s[..k], st), ParseQuery(s, Whole(s, k, st)))
  {
    hide BadAt, ParseQuery, Expect, ParseSelectList, ParseIdent, FromWhere, InFront, Whole, GoodTok, WfItem, IsIdent;
    ExpectFollows(s, k, st, KwSelect);
    QuerySplits(s[..k], st);
    QuerySplits(s, Whole(s, k, st));
    var select_ := Expect(s[..k], st, KwSelect);
    if select_.Ok? {
      SelectFollows(s, k, select_.value);
      var select := ParseSelectList(s[..k], select_.value);
      if select.Ok? {
        ExpectFollows(s, k, select.value.1, KwFrom);
        var from_ := Expect(s[..k], select.value.1, KwFrom);
        if from_.Ok? {
          IdentFollows(s, k, from_.value);
          var from := ParseIdent(s[..k], from_.value);
          if from.Ok? {
            WhereSame(s, k, from.value.1, Query(select.value.0, from.value.0, None, [], None, [], None, None));
          }
        }
      }
    }
  }

  /**
   Parsing an input stops the program exactly when its first bad literal, which is its last token, stands where the
   input in front of it breaks off for want of an expression.
   */
  lemma PanicExactly(s: string)
    ensures
      var k := BadAt(s, 0);
      ParseSql(s) == Err(Panic) <==> k < |s| && ParseSql(s[..k]) == Err(ParseError(ExpectedExpression, k))
  {
    hide ParseQuery, BadAt, InFront, Whole, Next;
    var k := BadAt(s, 0);
    NextFollows(s, k, 0);
    var first := Next(s[..k], 0);
    if first.Ok? { QuerySame(s, k, State(first.value.tok, first.value.end)); }
  }

  /** No input panics whose last byte is not inside a character of several bytes. */
  lemma NoPanic(s: string)
    requires s == "" || !IsContinuation(s[|s| - 1])
    ensures ParseSql(s) != Err(Panic)
  {
    hide ParseSql;
    PanicExactly(s);
    if BadAt(s, 0) < |s| { BadIsLast(s, 0); }
  }

  // ---------- UTF-8 ----------

  /** The length of the UTF-8 sequence that a byte leads (section 3 of RFC 3629). */
  function SequenceLength(lead: char): nat {
    var b := lead as int;
    if b < 0x80 then 1
    else if 0xC2 <= b < 0xE0 then 2
    else if 0xE0 <= b < 0xF0 then 3
    else if 0xF0 <= b < 0xF5 then 4
    else 0
  }

  /** Bytes that fall into UTF-8 sequences: a lead byte and the continuation bytes it announces. */
  predicate Utf8(s: string) {
    s == "" ||
    var n := SequenceLength(s[0]);
    1 <= n <= |s| && (forall i :: 1 <= i < n ==> IsContinuation(s[i])) && Utf8(s[n..])
  }

  /** In UTF-8 the last byte is a continuation byte exactly when it is not ASCII. */
  lemma {:induction false} LastByte(s: string)
    requires Utf8(s) && s != ""
    ensures IsContinuation(s[|s| - 1]) <==> s[|s| - 1] as int >= 0x80
    decreases |s|
  {
    var n := SequenceLength(s[0]);
    if n < |s| {
      LastByte(s[n..]);
    } else if n > 1 {
      assert IsContinuation(s[n - 1]);
    }
  }

  // ---------- a query that does it ----------

  /** `select 'é`, as bytes. */
  const UNCLOSED: string := "select '\U{C3}\U{A9}"

  lemma FirstWord(s: string)
    requires |s| >= 7 && s[..7] == "select "
    ensures Next(s, 0) == Ok(Lexed(Tok(KwSelect, 0, "select"), 6))
  {
    hide KeywordKind;
    var word := "select";
    KeywordExactly(word, KwSelect);
    assert forall i :: 0 <= i < 7 ==> s[i] == "select "[i];
    ScanIdentTo(s, 1, 6);
    assert s[0..6] == word;
  }

  lemma LiteralNext()
    ensures BadAt(UNCLOSED, 0) == 7
  {
    hide KeywordKind, Scan;
    assert UNCLOSED[..7] == "select ";
    FirstWord(UNCLOSED);
    assert SkipWs(UNCLOSED, 6) == 7;
    assert Scan(UNCLOSED, 7) == Some((StrTok, 10)) by { LiteralScan(); }
    var lex := UNCLOSED[7..10];
    assert IsContinuation(lex[2]);
    assert BadAt(UNCLOSED, 6) == 7;
  }

  lemma LiteralScan()
    ensures Scan(UNCLOSED, 7) == Some((StrTok, 10))
  {
    assert ScanString(UNCLOSED, 10) == 10;
    assert ScanString(UNCLOSED, 9) == 10;
    assert ScanString(UNCLOSED, 8) == 10;
  }

  lemma FrontBreaksOff()
    ensures ParseSql("select ") == Err(ParseError(ExpectedExpression, 7))
  {
    hide KeywordKind, Scan;
    var front := "select ";
    FirstWord(front);
    var first, last := State(Tok(KwSelect, 0, "select"), 6), State(Tok(Eof, 7, ""), 7);
    assert SkipWs(front, 7) == 7;
    assert SkipWs(front, 6) == 7;
    assert Bump(front, first) == Ok(last);
    assert ParseLeaf(front, last) == Err(ParseError(ExpectedExpression, 7));
    assert ParseSelectList(front, last) == Err(ParseError(ExpectedExpression, 7));
  }

  lemma UnclosedPanics()
    ensures ParseSql(UNCLOSED) == Err(Panic)
  {
    hide ParseSql, BadAt;
    assert UNCLOSED[..7] == "select ";
    LiteralNext();
    FrontBreaksOff();
    PanicExactly(UNCLOSED);
  }
}
