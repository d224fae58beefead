/** What is written is parsed. */
module SqlRoundTrip {
  import opened SqlAst
  import opened SqlGrammar
  import opened SqlLexer
  import opened SqlParser
  import opened SqlTokens
  import opened Wrappers

  // Where the tokens of a grammatical expression stand, the parser returns its meaning and stops right behind them. The
  // induction follows the way of writing; what comes next must not go on with the expression.

  // ---------- small things ----------

  lemma TermWf(t: Term)
    requires Grammatical(t)
    ensures WfArith(Meaning(t), false)
    decreases t, 0
  {
    hide IsName, IsIdent;
    match t
    case Name(name) => NameIsIdent(name);
    case Aggregate(_, _, arg) => TermWf(arg);
    case Sum(_, l, r) => TermWf(l); TermWf(r);
    case Apply(name, args) =>
      NameIsIdent(name);
      TermsWf(args);
      WfListAll(Meanings(args), 0, false);
    case Parens(inner) => TermWf(inner);
    case Negative(operand) => TermWf(operand);
    case _ =>
  }

  lemma TermsWf(ts: seq<Term>)
    requires AllGrammatical(ts)
    ensures forall i :: 0 <= i < |ts| ==> WfArith(Meaning(ts[i]), false)
    decreases ts, 0
  {
    hide Grammatical, WfArith;
    if ts != [] {
      TermWf(ts[0]);
      TermsWf(ts[1..]);
    }
  }

  lemma {:induction false} DecimalIs(v: nat)
    ensures forall k :: 0 <= k < |Decimal(v)| ==> IsDigit(Decimal(v)[k])
    ensures DigitsValue(Decimal(v)) == v
  {
    var s := Decimal(v);
    if v < 10 {
      assert s[..0] == "";
    } else {
      DecimalIs(v / 10);
      assert s[..|s| - 1] == Decimal(v / 10);
    }
  }

  lemma {:induction false} ZerosIgnored(n: nat, lex: string)
    requires forall k :: 0 <= k < |lex| ==> IsDigit(lex[k])
    ensures forall k :: 0 <= k < |Zeros(n) + lex| ==> IsDigit((Zeros(n) + lex)[k])
    ensures DigitsValue(Zeros(n) + lex) == DigitsValue(lex)
    decreases n + |lex|
  {
    var s := Zeros(n) + lex;
    if lex != "" {
      assert s[..|s| - 1] == Zeros(n) + lex[..|lex| - 1];
      ZerosIgnored(n, lex[..|lex| - 1]);
    } else if n > 0 {
      assert s[..|s| - 1] == Zeros(n - 1) + "";
      ZerosIgnored(n - 1, "");
    }
  }

  /** A numeral's figures have its value. */
  lemma NumeralIs(zeros: nat, value: nat)
    ensures
      var lex := NumberPiece(zeros, value).lex;
      (forall k :: 0 <= k < |lex| ==> IsDigit(lex[k])) && DigitsValue(lex) == value
  {
    hide Decimal;
    DecimalIs(value);
    ZerosIgnored(zeros, Decimal(value));
  }

  /** One token further. */
  lemma Moved(s: string, st: State, p: Piece, rest: seq<Piece>, end: State) returns (next: State)
    requires Reads(s, st, [p] + rest, end)
    ensures Valid(s, st) && Valid(s, next) && Stands(st.cur, p) && Bump(s, st) == Ok(next)
    ensures Expect(s, st, p.kind) == Ok(next) && Reads(s, next, rest, end)
  {
    hide Bump, Valid, Stands, Reads;
    next := ReadsSplit(s, st, [p], rest, end);
    ReadsOne(s, st, p, next);
    KindIs(st.cur, p);
  }

  lemma KindIs(tok: Tok, p: Piece)
    requires Stands(tok, p)
    ensures tok.kind == p.kind
  {
  }

  /** The last token of some. */
  lemma Last(s: string, st: State, p: Piece, end: State)
    requires Reads(s, st, [p], end)
    ensures Valid(s, st) && Valid(s, end) && Stands(st.cur, p) && Bump(s, st) == Ok(end)
      && Expect(s, st, p.kind) == Ok(end)
  {
    hide Bump, Valid, Stands, Reads;
    ReadsOne(s, st, p, end);
    KindIs(st.cur, p);
  }

  /** A word that may be there: it is read, or the state is the same. */
  lemma Maybe(s: string, st: State, kind: Kind, there: bool, rest: seq<Piece>, end: State) returns (next: State)
    requires Reads(s, st, Optional(kind, there) + rest, end)
    ensures Valid(s, st) && Valid(s, next) && Reads(s, next, rest, end)
    ensures if there then st.cur.kind == kind && Bump(s, st) == Ok(next) else next == st
  {
    hide Bump, Valid, Stands, Reads, Spelling;
    if there {
      next := Moved(s, st, P(kind), rest, end);
      KindIs(st.cur, P(kind));
    } else {
      assert [] + rest == rest;
      next := st;
      ReadsValid(s, st, rest, end);
    }
  }

  lemma AggKindBack(f: AggFn)
    ensures AggOf(AggKind(f)) == Some(f) && AggKind(f) != Minus && AggKind(f) != IdentTok
  {
  }

  lemma BinKindBack(op: BinOp)
    ensures BinOpOf(BinKind(op)) == Some(op) && BinKind(op) != LParen
  {
  }

  /** The first token of an expression. */
  lemma FirstPiece(t: Term)
    ensures Pieces(t) != []
    ensures Pieces(t)[0].kind != KwDistinct && (Pieces(t)[0].kind == StarTok <==> StartsWithAll(t))
    decreases t
  {
    hide Spelling, Decimal, Zeros, ListPieces, AggKind;
    match t
    case Sum(_, l, _) => FirstPiece(l);
    case Aggregate(f, _, _) => AggKindBack(f);
    case _ =>
  }

  lemma FirstRead(s: string, st: State, t: Term, end: State)
    requires Reads(s, st, Pieces(t), end)
    ensures st.cur.kind == Pieces(t)[0].kind
  {
    hide Pieces, Valid, Bump;
    FirstPiece(t);
  }

  // ---------- expressions ----------

  /** What may follow a whole expression. */
  predicate Ends(kind: Kind) {
    kind != LParen && kind != Plus && kind != Minus
  }

  /** The parser takes the tokens for a primary. */
  ghost predicate PrimaryIs(s: string, st: State, e: Expr, end: State) {
    Valid(s, st) && ParsePrimary(s, st) == Ok((e, end))
  }

  /** The parser takes them for an expression, and goes on with the operators that follow. */
  ghost predicate ExprIs(s: string, st: State, e: Expr, end: State) {
    && Valid(s, st) && Valid(s, end) && WfArith(e, false)
    && ParseExprBp(s, st, 0) == ParseTail(s, end, e, 0)
  }

  /** It takes them for a whole expression. */
  ghost predicate WholeIs(s: string, st: State, e: Expr, end: State) {
    Valid(s, st) && Valid(s, end) && ParseExprBp(s, st, 0) == Ok((e, end))
  }

  ghost predicate ListIs(s: string, st: State, es: seq<Expr>, end: State) {
    Valid(s, st) && Valid(s, end) && ParseExprList(s, st) == Ok((es, end))
  }

  lemma ExprEnds(s: string, st: State, e: Expr, end: State)
    requires ExprIs(s, st, e, end) && Ends(end.cur.kind)
    ensures WholeIs(s, st, e, end)
  {
    hide Valid, ParseExprBp, WfArith;
  }

  /** A grammatical expression is parsed to its meaning, wherever it stands. */
  lemma {:induction false} TermParses(s: string, st: State, t: Term, end: State)
    requires Grammatical(t) && Reads(s, st, Pieces(t), end) && end.cur.kind != LParen
    ensures ExprIs(s, st, Meaning(t), end)
    decreases t, 1
  {
    hide *;
    if t.Sum? {
      SumParses(s, st, t, end);
    } else {
      PrimaryParses(s, st, t, end);
      TermWf(t);
      ReadsValid(s, st, Pieces(t), end);
      PrimaryIsExpr(s, st, Meaning(t), end);
    }
  }

  lemma PrimaryIsExpr(s: string, st: State, e: Expr, end: State)
    requires PrimaryIs(s, st, e, end) && Valid(s, end) && WfArith(e, false)
    ensures ExprIs(s, st, e, end)
  {
    hide Valid, ParsePrimary, ParseTail, WfArith;
  }

  lemma {:induction false} WholeParses(s: string, st: State, t: Term, end: State)
    requires Grammatical(t) && Reads(s, st, Pieces(t), end) && Ends(end.cur.kind)
    ensures WholeIs(s, st, Meaning(t), end)
    decreases t, 2
  {
    hide ExprIs, WholeIs, Reads, Pieces, Grammatical;
    TermParses(s, st, t, end);
    ExprEnds(s, st, Meaning(t), end);
  }

  lemma SumPieces(t: Term)
    requires t.Sum?
    ensures Pieces(t) == Pieces(t.lhs) + ([P(BinKind(t.op))] + Pieces(t.rhs))
    ensures Meaning(t) == Binary(t.op, Meaning(t.lhs), Meaning(t.rhs))
    ensures Grammatical(t) ==> Grammatical(t.lhs) && Grammatical(t.rhs) && !t.rhs.Sum?
  {
  }

  lemma {:induction false} SumParses(s: string, st: State, t: Term, end: State)
    requires t.Sum? && Grammatical(t) && Reads(s, st, Pieces(t), end) && end.cur.kind != LParen
    ensures ExprIs(s, st, Meaning(t), end)
    decreases t, 0
  {
    hide *;
    SumPieces(t);
    var sign := P(BinKind(t.op));
    var mid := ReadsSplit(s, st, Pieces(t.lhs), [sign] + Pieces(t.rhs), end);
    var next := Moved(s, mid, sign, Pieces(t.rhs), end);
    KindIs(mid.cur, sign);
    BinKindBack(t.op);
    PKind(BinKind(t.op));
    TermParses(s, st, t.lhs, mid);
    PrimaryParses(s, next, t.rhs, end);
    TermWf(t.rhs);
    ReadsValid(s, next, Pieces(t.rhs), end);
    SumIs(s, st, t.op, Meaning(t.lhs), mid, next, Meaning(t.rhs), end);
  }

  lemma PKind(kind: Kind)
    ensures P(kind).kind == kind
  {
    hide Spelling;
  }

  lemma SumIs(s: string, st: State, op: BinOp, l: Expr, mid: State, next: State, r: Expr, end: State)
    requires ExprIs(s, st, l, mid) && BinOpOf(mid.cur.kind) == Some(op) && Bump(s, mid) == Ok(next)
    requires PrimaryIs(s, next, r, end) && Valid(s, end) && WfArith(r, false)
    ensures ExprIs(s, st, Binary(op, l, r), end)
  {
    hide Valid, ParsePrimary, BinOpOf, Bump;
    assert ParseExprBp(s, next, 2) == Ok((r, end)) by { OperandIs(s, next, r, end); }
    hide ParseExprBp;
  }

  /** As a right operand, a primary is all there is. */
  lemma OperandIs(s: string, st: State, e: Expr, end: State)
    requires PrimaryIs(s, st, e, end) && Valid(s, end) && WfArith(e, false)
    ensures ParseExprBp(s, st, 2) == Ok((e, end))
  {
    hide Valid, ParsePrimary, WfArith;
  }

  lemma {:induction false} PrimaryParses(s: string, st: State, t: Term, end: State)
    requires !t.Sum? && Grammatical(t) && Reads(s, st, Pieces(t), end) && end.cur.kind != LParen
    ensures PrimaryIs(s, st, Meaning(t), end)
    decreases t, 0
  {
    hide Reads, PrimaryIs, ListPieces, IsName, WfArith, CanBeCut, AggKind, Spelling, NumberPiece;
    match t
    case All => AllIs(s, st, end);
    case Name(name) => NameIs(s, st, name, end);
    case Number(zeros, value) => NumberIs(s, st, zeros, value, end);
    case Quote(lex) => QuoteIs(s, st, lex, end);
    case Aggregate(f, distinct, arg) => AggregateParses(s, st, f, distinct, arg, end);
    case Apply(name, args) => ApplyParses(s, st, name, args, end);
    case Parens(inner) => ParensParse(s, st, inner, end);
    case Negative(operand) => NegativeParses(s, st, operand, end);
  }

  lemma AllIs(s: string, st: State, end: State)
    requires Reads(s, st, [P(StarTok)], end)
    ensures PrimaryIs(s, st, Star, end)
  {
    hide Reads, Valid, Bump;
    Last(s, st, P(StarTok), end);
  }

  lemma NameIs(s: string, st: State, name: string, end: State)
    requires Reads(s, st, [Piece(IdentTok, name)], end) && end.cur.kind != LParen
    ensures PrimaryIs(s, st, Ident(name), end)
  {
    hide Reads, Valid, Bump;
    Last(s, st, Piece(IdentTok, name), end);
    assert ParseIdentOrCall(s, st) == Ok((Ident(name), end));
  }

  lemma NumberIs(s: string, st: State, zeros: nat, value: nat, end: State)
    requires Reads(s, st, [NumberPiece(zeros, value)], end) && value <= MAX_SIGNED
    ensures PrimaryIs(s, st, Int(value), end)
  {
    hide Reads, Bump, Decimal, Zeros;
    Last(s, st, NumberPiece(zeros, value), end);
    NumeralIs(zeros, value);
    assert ParseLeaf(s, st) == Ok((Int(value), end));
  }

  lemma QuoteIs(s: string, st: State, lex: string, end: State)
    requires Reads(s, st, [Piece(StrTok, lex)], end) && CanBeCut(lex)
    ensures PrimaryIs(s, st, Str(Inside(lex)), end)
  {
    hide Reads, Valid, Bump;
    Last(s, st, Piece(StrTok, lex), end);
  }

  lemma {:induction false} NegativeParses(s: string, st: State, operand: Term, end: State)
    requires Grammatical(operand) && !operand.Sum? && Reads(s, st, [P(Minus)] + Pieces(operand), end)
    requires end.cur.kind != LParen
    ensures PrimaryIs(s, st, Binary(Sub, Int(0), Meaning(operand)), end)
    decreases operand, 1
  {
    hide *;
    var next := Moved(s, st, P(Minus), Pieces(operand), end);
    KindIs(st.cur, P(Minus));
    PKind(Minus);
    PrimaryParses(s, next, operand, end);
    TermWf(operand);
    ReadsValid(s, next, Pieces(operand), end);
    OperandIs(s, next, Meaning(operand), end);
    NegativeIs(s, st, next, Meaning(operand), end);
  }

  lemma NegativeIs(s: string, st: State, next: State, e: Expr, end: State)
    requires Valid(s, st) && st.cur.kind == Minus && Bump(s, st) == Ok(next)
    requires Valid(s, next) && ParseExprBp(s, next, 2) == Ok((e, end))
    ensures PrimaryIs(s, st, Binary(Sub, Int(0), e), end)
  {
    hide Valid, ParseExprBp, Bump, WfArith;
    assert ParseNegative(s, st) == Ok((Binary(Sub, Int(0), e), end));
  }

  lemma {:induction false} ParensParse(s: string, st: State, inner: Term, end: State)
    requires Grammatical(inner) && Reads(s, st, Enclosed(Pieces(inner)), end)
    ensures PrimaryIs(s, st, Meaning(inner), end)
    decreases inner, 3
  {
    hide *;
    var next, last := EnclosedRead(s, st, Pieces(inner), end);
    WholeParses(s, next, inner, last);
    ParensAre(s, st, next, Meaning(inner), last, end);
  }

  lemma EnclosedRead(s: string, st: State, pieces: seq<Piece>, end: State) returns (next: State, last: State)
    requires Reads(s, st, Enclosed(pieces), end)
    ensures Valid(s, st) && st.cur.kind == LParen && Bump(s, st) == Ok(next) && Expect(s, st, LParen) == Ok(next)
    ensures Valid(s, next) && Reads(s, next, pieces, last) && Ends(last.cur.kind) && last.cur.kind != Comma
    ensures Valid(s, last) && last.cur.kind == RParen && Expect(s, last, RParen) == Ok(end) && Valid(s, end)
  {
    hide Reads, Valid, Bump, Expect, Stands, Spelling;
    next := Moved(s, st, P(LParen), pieces + [P(RParen)], end);
    KindIs(st.cur, P(LParen));
    last := ReadsSplit(s, next, pieces, [P(RParen)], end);
    Last(s, last, P(RParen), end);
    KindIs(last.cur, P(RParen));
  }

  lemma ParensAre(s: string, st: State, next: State, e: Expr, last: State, end: State)
    requires Valid(s, st) && st.cur.kind == LParen && Bump(s, st) == Ok(next)
    requires WholeIs(s, next, e, last) && Expect(s, last, RParen) == Ok(end)
    ensures PrimaryIs(s, st, e, end)
  {
    hide Valid, ParseExprBp, Bump, Expect, WfArith;
    assert ParseParen(s, st) == Ok((e, end));
  }

  lemma {:induction false} ApplyParses(s: string, st: State, name: string, args: seq<Term>, end: State)
    requires args != [] && AllGrammatical(args)
    requires Reads(s, st, [Piece(IdentTok, name)] + Enclosed(ListPieces(args)), end)
    ensures PrimaryIs(s, st, Call(name, Meanings(args)), end)
    decreases args, 2
  {
    hide *;
    var id := Piece(IdentTok, name);
    var open := Moved(s, st, id, Enclosed(ListPieces(args)), end);
    NameStands(st.cur, name);
    var list, last := EnclosedRead(s, open, ListPieces(args), end);
    ListParses(s, list, args, last);
    CallIs(s, st, name, open, list, Meanings(args), last, end);
  }

  lemma NameStands(tok: Tok, name: string)
    requires Stands(tok, Piece(IdentTok, name))
    ensures tok.kind == IdentTok && tok.lex == name
  {
  }

  lemma CallIs(s: string, st: State, name: string, open: State, list: State, args: seq<Expr>, last: State, end: State)
    requires Valid(s, st) && st.cur.kind == IdentTok && st.cur.lex == name && Bump(s, st) == Ok(open)
    requires Valid(s, open) && open.cur.kind == LParen && Bump(s, open) == Ok(list)
    requires ListIs(s, list, args, last) && Expect(s, last, RParen) == Ok(end)
    ensures PrimaryIs(s, st, Call(name, args), end)
  {
    hide Bump, Expect, ParseExprList, WfArith, WfList, IsIdent, IsNumber;
    assert ParseIdentOrCall(s, st) == Ok((Call(name, args), end));
  }

  lemma {:induction false} AggregateParses(s: string, st: State, f: AggFn, distinct: bool, arg: Term, end: State)
    requires Grammatical(arg) && (StartsWithAll(arg) ==> arg == All)
    requires (distinct ==> f == Count || f == ApproxDistinct) && (Meaning(arg) == Star ==> f == Count)
    requires Reads(s, st, [P(AggKind(f)), P(LParen)] + (Optional(KwDistinct, distinct) + (Pieces(arg) + [P(RParen)])),
      end)
    ensures PrimaryIs(s, st, Agg(f, distinct, Meaning(arg)), end)
    decreases arg, 4
  {
    hide *;
    var name, open, more := P(AggKind(f)), P(LParen), Pieces(arg) + [P(RParen)];
    var tail := Optional(KwDistinct, distinct) + more;
    assert [name, open] + tail == [name] + ([open] + tail);
    var st1 := Moved(s, st, name, [open] + tail, end);
    KindIs(st.cur, name);
    PKind(AggKind(f));
    AggKindBack(f);
    var st2 := Moved(s, st1, open, tail, end);
    PKind(LParen);
    PKind(RParen);
    var st3 := Maybe(s, st2, KwDistinct, distinct, more, end);
    var last := ReadsSplit(s, st3, Pieces(arg), [P(RParen)], end);
    Last(s, last, P(RParen), end);
    KindIs(last.cur, P(RParen));
    FirstPiece(arg);
    FirstRead(s, st3, arg, last);
    ArgumentParses(s, st3, arg, last);
    AggregateIs(s, st, f, st1, st2, distinct, st3, Meaning(arg), last, end);
  }

  /** The parser takes a lone star, or any expression, for the argument of an aggregate. */
  ghost predicate ArgumentIs(s: string, st: State, e: Expr, end: State) {
    Valid(s, st) && Valid(s, end) && ParseAggArg(s, st) == Ok((e, end))
  }

  lemma {:induction false} ArgumentParses(s: string, st: State, arg: Term, end: State)
    requires Grammatical(arg) && (StartsWithAll(arg) ==> arg == All) && Reads(s, st, Pieces(arg), end)
    requires end.cur.kind == RParen
    ensures ArgumentIs(s, st, Meaning(arg), end)
    decreases arg, 3
  {
    hide ExprIs, WholeIs, Reads, Pieces, Grammatical, Valid, Bump, ParseExprBp, WfArith;
    FirstPiece(arg);
    FirstRead(s, st, arg, end);
    if arg == All {
      StarArgument(s, st, end);
    } else {
      WholeParses(s, st, arg, end);
      WholeIsArgument(s, st, Meaning(arg), end);
    }
  }

  lemma StarArgument(s: string, st: State, end: State)
    requires Reads(s, st, Pieces(All), end)
    ensures ArgumentIs(s, st, Star, end)
  {
    hide Reads, Valid, Bump;
    Last(s, st, P(StarTok), end);
  }

  lemma WholeIsArgument(s: string, st: State, e: Expr, end: State)
    requires WholeIs(s, st, e, end) && st.cur.kind != StarTok
    ensures ArgumentIs(s, st, e, end)
  {
    hide Valid, ParseExprBp, WfArith;
  }

  lemma AggregateIs(s: string, st: State, f: AggFn, name: State, open: State, distinct: bool, start: State, arg: Expr,
        last: State, end: State)
    requires Valid(s, st) && AggOf(st.cur.kind) == Some(f) && st.cur.kind != Minus && st.cur.kind != IdentTok
      && Bump(s, st) == Ok(name)
    requires Valid(s, name) && Expect(s, name, LParen) == Ok(open)
    requires Valid(s, open) && (distinct <==> open.cur.kind == KwDistinct)
    requires if distinct then Bump(s, open) == Ok(start) else start == open
    requires ArgumentIs(s, start, arg, last) && Expect(s, last, RParen) == Ok(end)
    requires (distinct ==> f == Count || f == ApproxDistinct) && (arg == Star ==> f == Count)
    ensures PrimaryIs(s, st, Agg(f, distinct, arg), end)
  {
    hide Bump, Expect, AggOf, ParseAggArg, WfArith, IsIdent, IsNumber, ParseIdentOrCall, ParseNegative, ParseParen;
    assert ParseAggregate(s, st) == Ok((Agg(f, distinct, arg), end));
  }

  // ---------- lists ----------

  lemma ListCases(ts: seq<Term>)
    requires ts != []
    ensures ListPieces(ts) == if |ts| == 1 then Pieces(ts[0]) else Pieces(ts[0]) + ([P(Comma)] + ListPieces(ts[1..]))
    ensures Meanings(ts) == [Meaning(ts[0])] + Meanings(ts[1..])
    ensures AllGrammatical(ts) ==> Grammatical(ts[0]) && AllGrammatical(ts[1..])
    ensures |ts| == 1 ==> Meanings(ts) == [Meaning(ts[0])]
  {
    hide Pieces, Meaning, Grammatical;
  }

  lemma {:induction false} ListParses(s: string, st: State, ts: seq<Term>, end: State)
    requires ts != [] && AllGrammatical(ts) && Reads(s, st, ListPieces(ts), end)
    requires Ends(end.cur.kind) && end.cur.kind != Comma
    ensures ListIs(s, st, Meanings(ts), end)
    decreases ts, 1
  {
    hide *;
    ListCases(ts);
    if |ts| == 1 {
      WholeParses(s, st, ts[0], end);
      ListOne(s, st, Meaning(ts[0]), end);
    } else {
      var mid := ReadsSplit(s, st, Pieces(ts[0]), [P(Comma)] + ListPieces(ts[1..]), end);
      var next := Moved(s, mid, P(Comma), ListPieces(ts[1..]), end);
      KindIs(mid.cur, P(Comma));
      PKind(Comma);
      CommaEnds();
      WholeParses(s, st, ts[0], mid);
      ListParses(s, next, ts[1..], end);
      ListMore(s, st, Meaning(ts[0]), mid, next, Meanings(ts[1..]), end);
    }
  }

  lemma CommaEnds()
    ensures Ends(Comma)
  {
  }

  lemma ListOne(s: string, st: State, e: Expr, end: State)
    requires WholeIs(s, st, e, end) && end.cur.kind != Comma
    ensures ListIs(s, st, [e], end)
  {
    hide Valid, ParseExprBp, WfArith, WfList;
  }

  lemma ListMore(s: string, st: State, e: Expr, mid: State, next: State, es: seq<Expr>, end: State)
    requires WholeIs(s, st, e, mid) && mid.cur.kind == Comma && Bump(s, mid) == Ok(next) && ListIs(s, next, es, end)
    ensures ListIs(s, st, [e] + es, end)
  {
    hide Valid, ParseExprBp, Bump, WfArith, WfList;
  }
}
