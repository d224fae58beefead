/** What is parsed was written. */
module SqlForms {
  import opened SqlAst
  import opened SqlGrammar
  import opened SqlLexer
  import opened SqlParser
  import opened SqlRoundTrip
  import opened SqlTokens
  import opened Wrappers

  // Whenever a parser function accepts, the tokens it read are a grammatical way of writing what it returns. Each lemma
  // follows its function and gives that way of writing.

  // ---------- tokens ----------

  lemma Bumped(s: string, st: State, p: Piece, next: State)
    requires Valid(s, st) && Stands(st.cur, p) && Bump(s, st) == Ok(next)
    ensures Reads(s, st, [p], next) && Valid(s, next)
  {
    hide Stands, Next, Valid;
    ReadsOne(s, st, p, next);
  }

  lemma WordBumped(s: string, st: State, kind: Kind, next: State)
    requires Valid(s, st) && st.cur.kind == kind && kind != Eof && !IsPlain(kind) && Bump(s, st) == Ok(next)
    ensures Reads(s, st, [P(kind)], next) && Valid(s, next)
  {
    hide Spelling, Bump, Valid, Reads;
    Bumped(s, st, P(kind), next);
  }

  lemma NoTokens(s: string, st: State)
    requires Valid(s, st)
    ensures Reads(s, st, [], st)
  {
  }

  lemma OptionalBumped(s: string, st: State, kind: Kind, there: bool, next: State)
    requires Valid(s, st) && kind != Eof && !IsPlain(kind)
    requires if there then st.cur.kind == kind && Bump(s, st) == Ok(next) else next == st
    ensures Reads(s, st, Optional(kind, there), next) && Valid(s, next)
  {
    hide Spelling, Bump, Valid, Reads;
    if there { WordBumped(s, st, kind, next); } else { NoTokens(s, st); }
  }

  lemma ThreeRead(s: string, st: State, a: seq<Piece>, st1: State, b: seq<Piece>, st2: State, c: seq<Piece>, end: State)
    requires Reads(s, st, a, st1) && Reads(s, st1, b, st2) && Reads(s, st2, c, end)
    ensures Reads(s, st, a + (b + c), end)
  {
    hide Reads;
    ReadsJoin(s, st1, b, st2, c, end);
    ReadsJoin(s, st, a, st1, b + c, end);
  }

  // ---------- numerals ----------

  /** Figures are a numeral's: leading zeros and the figures of the value. */
  lemma {:induction false} FiguresWritten(lex: string) returns (zeros: nat)
    requires lex != "" && forall k :: 0 <= k < |lex| ==> IsDigit(lex[k])
    ensures lex == NumberPiece(zeros, DigitsValue(lex)).lex
    decreases |lex|
  {
    var front, last := lex[..|lex| - 1], lex[|lex| - 1];
    var d := last as int - '0' as int;
    assert IsDigit(last);
    assert lex == front + [last];
    if front == "" {
      zeros := 0;
      assert DigitsValue(front) == 0;
      assert Zeros(0) == "";
      assert Decimal(d) == [last];
      assert "" + [last] == [last];
    } else {
      var v := DigitsValue(front);
      zeros := FiguresWritten(front);
      if v == 0 {
        zeros := zeros + 1;
        ZeroMore(zeros - 1, last);
      } else {
        DecimalMore(v, d);
        assert Zeros(zeros) + Decimal(v) + [last] == Zeros(zeros) + (Decimal(v) + [last]);
      }
    }
  }

  lemma ZeroMore(zeros: nat, last: char)
    requires IsDigit(last)
    ensures Zeros(zeros) + Decimal(0) + [last] == Zeros(zeros + 1) + Decimal(last as int - '0' as int)
  {
    assert Zeros(zeros) + ['0'] == Zeros(zeros + 1);
  }

  lemma DecimalMore(v: nat, d: nat)
    requires v > 0 && d < 10
    ensures Decimal(10 * v + d) == Decimal(v) + [Figure(d)]
  {
  }

  // ---------- expressions ----------

  lemma {:induction false} ExprWritten(s: string, st: State, minBp: nat) returns (t: Term)
    requires Valid(s, st) && ParseExprBp(s, st, minBp).Ok?
    ensures
      var (e, end) := ParseExprBp(s, st, minBp).value;
      Grammatical(t) && Meaning(t) == e && Reads(s, st, Pieces(t), end) && (minBp >= 2 ==> !t.Sum?)
    decreases Remaining(s, st), 2
  {
    hide Reads, Grammatical, Meaning, Pieces, WfArith, ParsePrimary, ParseTail, Valid, Remaining;
    t := PrimaryWritten(s, st);
    var (lhs, mid) := ParsePrimary(s, st).value;
    t := TailWritten(s, st, mid, t, minBp);
  }

  lemma {:induction false} TailWritten(s: string, start: State, st: State, lhs: Term, minBp: nat) returns (t: Term)
    requires Valid(s, st) && Grammatical(lhs) && Reads(s, start, Pieces(lhs), st) && WfArith(Meaning(lhs), false)
    requires ParseTail(s, st, Meaning(lhs), minBp).Ok? && (minBp >= 2 ==> !lhs.Sum?)
    ensures
      var (e, end) := ParseTail(s, st, Meaning(lhs), minBp).value;
      Grammatical(t) && Meaning(t) == e && Reads(s, start, Pieces(t), end) && (minBp >= 2 ==> !t.Sum?)
    decreases Remaining(s, st), 0
  {
    hide Reads, WfArith, Bump, ParseExprBp, Valid, IsName, CanBeCut, Spelling, BinOpOf, BinKind;
    var op := BinOpOf(st.cur.kind);
    if op.None? || 1 < minBp {
      t := lhs;
    } else {
      OperatorIs(st.cur.kind);
      var next := Bump(s, st).value;
      var rhs := ExprWritten(s, next, 2);
      var end := ParseExprBp(s, next, 2).value.1;
      WordBumped(s, st, BinKind(op.value), next);
      ThreeRead(s, start, Pieces(lhs), st, [P(BinKind(op.value))], next, Pieces(rhs), end);
      t := Term.Sum(op.value, lhs, rhs);
      TermWf(t);
      t := TailWritten(s, start, end, t, minBp);
    }
  }

  lemma OperatorIs(kind: Kind)
    requires BinOpOf(kind).Some?
    ensures BinKind(BinOpOf(kind).value) == kind && !IsPlain(kind)
  {
  }

  lemma {:induction false} PrimaryWritten(s: string, st: State) returns (t: Term)
    requires Valid(s, st) && ParsePrimary(s, st).Ok?
    ensures
      var (e, end) := ParsePrimary(s, st).value;
      Grammatical(t) && Meaning(t) == e && Reads(s, st, Pieces(t), end) && !t.Sum?
    decreases Remaining(s, st), 1
  {
    hide Reads, Grammatical, Meaning, Pieces, WfArith, Valid, ParseNegative, ParseIdentOrCall, ParseAggregate,
      ParseParen, ParseLeaf, AggOf;
    if st.cur.kind == Minus {
      t := NegativeWritten(s, st);
    } else if st.cur.kind == IdentTok {
      t := CallWritten(s, st);
    } else if AggOf(st.cur.kind).Some? {
      t := AggregateWritten(s, st);
    } else if st.cur.kind == LParen {
      t := ParensWritten(s, st);
    } else {
      t := LeafWritten(s, st);
    }
  }

  lemma LeafWritten(s: string, st: State) returns (t: Term)
    requires Valid(s, st) && ParseLeaf(s, st).Ok?
    ensures
      var (e, end) := ParseLeaf(s, st).value;
      Grammatical(t) && Meaning(t) == e && Reads(s, st, Pieces(t), end) && !t.Sum?
  {
    hide Reads, Bump, Decimal, Zeros, DigitsValue, NumberPiece, Spelling;
    var next := Bump(s, st).value;
    if st.cur.kind == StarTok {
      t := All;
      WordBumped(s, st, StarTok, next);
    } else if st.cur.kind == IntTok {
      var zeros := FiguresWritten(st.cur.lex);
      t := Number(zeros, DigitsValue(st.cur.lex));
      NumberPieceIs(zeros, DigitsValue(st.cur.lex));
      Bumped(s, st, NumberPiece(zeros, DigitsValue(st.cur.lex)), next);
    } else {
      t := Quote(st.cur.lex);
      Bumped(s, st, Piece(StrTok, st.cur.lex), next);
    }
  }

  lemma NumberPieceIs(zeros: nat, value: nat)
    ensures NumberPiece(zeros, value).kind == IntTok
  {
  }

  lemma {:induction false} NegativeWritten(s: string, st: State) returns (t: Term)
    requires Valid(s, st) && st.cur.kind == Minus && ParseNegative(s, st).Ok?
    ensures
      var (e, end) := ParseNegative(s, st).value;
      Grammatical(t) && Meaning(t) == e && Reads(s, st, Pieces(t), end) && !t.Sum?
    decreases Remaining(s, st), 0
  {
    hide Reads, WfArith, Bump, ParseExprBp, Valid, IsName, CanBeCut, Spelling;
    var next := Bump(s, st).value;
    var operand := ExprWritten(s, next, 2);
    t := Negative(operand);
    WordBumped(s, st, Minus, next);
    ReadsJoin(s, st, [P(Minus)], next, Pieces(operand), ParseExprBp(s, next, 2).value.1);
  }

  lemma EnclosedWritten(s: string, st: State, next: State, pieces: seq<Piece>, last: State, end: State)
    requires Valid(s, st) && st.cur.kind == LParen && Bump(s, st) == Ok(next) && Reads(s, next, pieces, last)
    requires Valid(s, last) && Expect(s, last, RParen) == Ok(end)
    ensures Reads(s, st, Enclosed(pieces), end)
  {
    hide Reads, Bump, Valid, Spelling;
    WordBumped(s, st, LParen, next);
    WordBumped(s, last, RParen, end);
    ThreeRead(s, st, [P(LParen)], next, pieces, last, [P(RParen)], end);
  }

  lemma {:induction false} ParensWritten(s: string, st: State) returns (t: Term)
    requires Valid(s, st) && st.cur.kind == LParen && ParseParen(s, st).Ok?
    ensures
      var (e, end) := ParseParen(s, st).value;
      Grammatical(t) && Meaning(t) == e && Reads(s, st, Pieces(t), end) && !t.Sum?
    decreases Remaining(s, st), 0
  {
    hide Reads, WfArith, Bump, Expect, ParseExprBp, Valid, IsName, CanBeCut, Enclosed;
    var next := Bump(s, st).value;
    var inner := ExprWritten(s, next, 0);
    t := Parens(inner);
    var (e, last) := ParseExprBp(s, next, 0).value;
    EnclosedWritten(s, st, next, Pieces(inner), last, Expect(s, last, RParen).value);
  }

  lemma NameWritten(s: string, st: State)
    requires Valid(s, st) && ParseIdent(s, st).Ok?
    ensures
      var (name, end) := ParseIdent(s, st).value;
      IsName(name) && Reads(s, st, [Piece(IdentTok, name)], end) && Valid(s, end)
  {
    hide Reads, Bump, IsIdent, IsName;
    NameIsIdent(st.cur.lex);
    Bumped(s, st, Piece(IdentTok, st.cur.lex), Bump(s, st).value);
  }

  lemma {:induction false} CallWritten(s: string, st: State) returns (t: Term)
    requires Valid(s, st) && st.cur.kind == IdentTok && ParseIdentOrCall(s, st).Ok?
    ensures
      var (e, end) := ParseIdentOrCall(s, st).value;
      Grammatical(t) && Meaning(t) == e && Reads(s, st, Pieces(t), end) && !t.Sum?
    decreases Remaining(s, st), 0
  {
    hide Reads, WfArith, WfList, Bump, Expect, ParseExprList, Valid, IsName, IsIdent, CanBeCut, Enclosed, ParseIdent,
      AllGrammatical, Meanings, ListPieces;
    NameWritten(s, st);
    var (name, open) := ParseIdent(s, st).value;
    if open.cur.kind != LParen {
      t := Name(name);
    } else {
      var next := Bump(s, open).value;
      var args := ListWritten(s, next);
      t := Apply(name, args);
      var (es, last) := ParseExprList(s, next).value;
      var end := Expect(s, last, RParen).value;
      EnclosedWritten(s, open, next, ListPieces(args), last, end);
      ReadsJoin(s, st, [Piece(IdentTok, name)], open, Enclosed(ListPieces(args)), end);
    }
  }

  lemma {:induction false} ListWritten(s: string, st: State) returns (ts: seq<Term>)
    requires Valid(s, st) && ParseExprList(s, st).Ok?
    ensures
      var (es, end) := ParseExprList(s, st).value;
      ts != [] && AllGrammatical(ts) && Meanings(ts) == es && Reads(s, st, ListPieces(ts), end)
    decreases Remaining(s, st), 3
  {
    hide Reads, WfArith, WfList, Bump, ParseExprBp, Valid, Grammatical, Meaning, Pieces, Spelling;
    var first := ExprWritten(s, st, 0);
    var (e, mid) := ParseExprBp(s, st, 0).value;
    if mid.cur.kind != Comma {
      ts := [first];
      ListCases(ts);
      assert AllGrammatical(ts[1..]);
    } else {
      var next := Bump(s, mid).value;
      var rest := ListWritten(s, next);
      ts := [first] + rest;
      assert ts[1..] == rest;
      ListCases(ts);
      WordBumped(s, mid, Comma, next);
      ThreeRead(s, st, Pieces(first), mid, [P(Comma)], next, ListPieces(rest), ParseExprList(s, next).value.1);
    }
  }

  lemma FunctionIs(kind: Kind)
    requires AggOf(kind).Some?
    ensures AggKind(AggOf(kind).value) == kind && !IsPlain(kind)
  {
  }

  /** The tokens of an aggregate up to its argument. */
  lemma HeadWritten(s: string, st: State, f: AggFn, name: State, open: State, distinct: bool, start: State)
    requires Valid(s, st) && AggOf(st.cur.kind) == Some(f) && Bump(s, st) == Ok(name)
    requires Valid(s, name) && Expect(s, name, LParen) == Ok(open)
    requires Valid(s, open) && if distinct then open.cur.kind == KwDistinct && Bump(s, open) == Ok(start)
                               else start == open
    ensures Reads(s, st, [P(AggKind(f)), P(LParen)] + Optional(KwDistinct, distinct), start) && Valid(s, start)
  {
    hide Reads, Valid, Bump, AggOf, AggKind, Spelling, Optional;
    FunctionIs(st.cur.kind);
    WordBumped(s, st, AggKind(f), name);
    WordBumped(s, name, LParen, open);
    OptionalBumped(s, open, KwDistinct, distinct, start);
    ThreeRead(s, st, [P(AggKind(f))], name, [P(LParen)], open, Optional(KwDistinct, distinct), start);
    assert [P(AggKind(f))] + ([P(LParen)] + Optional(KwDistinct, distinct))
        == [P(AggKind(f)), P(LParen)] + Optional(KwDistinct, distinct);
  }

  lemma {:induction false} AggregateWritten(s: string, st: State) returns (t: Term)
    requires Valid(s, st) && AggOf(st.cur.kind).Some? && ParseAggregate(s, st).Ok?
    ensures
      var (e, end) := ParseAggregate(s, st).value;
      Grammatical(t) && Meaning(t) == e && Reads(s, st, Pieces(t), end) && !t.Sum?
    decreases Remaining(s, st), 0
  {
    hide Reads, Valid, Bump, Expect, AggOf, AggKind, Spelling, Optional, ParseAggArg, WfArith, StartsWithAll, Pieces;
    FunctionIs(st.cur.kind);
    var f := AggOf(st.cur.kind).value;
    var name := Bump(s, st).value;
    var open := Expect(s, name, LParen).value;
    var distinct := open.cur.kind == KwDistinct;
    var start := if distinct then Bump(s, open).value else open;
    HeadWritten(s, st, f, name, open, distinct, start);
    var arg := ArgumentWritten(s, start);
    var (e, last) := ParseAggArg(s, start).value;
    var end := Expect(s, last, RParen).value;
    t := Aggregate(f, distinct, arg);
    CloseAggregate(s, st, f, distinct, start, arg, last, end);
  }

  lemma CloseAggregate(s: string, st: State, f: AggFn, distinct: bool, start: State, arg: Term, last: State,
        end: State)
    requires Reads(s, st, [P(AggKind(f)), P(LParen)] + Optional(KwDistinct, distinct), start)
    requires Reads(s, start, Pieces(arg), last) && Valid(s, last) && Expect(s, last, RParen) == Ok(end)
    ensures Reads(s, st, Pieces(Aggregate(f, distinct, arg)), end)
  {
    hide Reads, Valid, Bump, Spelling, Optional, AggKind;
    var head, mark := [P(AggKind(f)), P(LParen)], Optional(KwDistinct, distinct);
    WordBumped(s, last, RParen, end);
    ThreeRead(s, st, head + mark, start, Pieces(arg), last, [P(RParen)], end);
    assert head + mark + (Pieces(arg) + [P(RParen)]) == head + (mark + (Pieces(arg) + [P(RParen)]));
  }

  lemma {:induction false} ArgumentWritten(s: string, st: State) returns (t: Term)
    requires Valid(s, st) && ParseAggArg(s, st).Ok?
    ensures
      var (e, end) := ParseAggArg(s, st).value;
      Grammatical(t) && Meaning(t) == e && Reads(s, st, Pieces(t), end) && (StartsWithAll(t) ==> t == All)
    decreases Remaining(s, st), 3
  {
    hide Reads, Valid, Bump, Spelling, ParseExprBp, WfArith, IsName, CanBeCut;
    if st.cur.kind == StarTok {
      t := All;
      WordBumped(s, st, StarTok, Bump(s, st).value);
    } else {
      t := ExprWritten(s, st, 0);
      FirstPiece(t);
      FirstRead(s, st, t, ParseExprBp(s, st, 0).value.1);
    }
  }

  // ---------- tests ----------

  lemma ComparisonIs(kind: Kind)
    requires CmpOf(kind).Some?
    ensures CmpKind(CmpOf(kind).value) == kind && !IsPlain(kind) && kind != Eof
  {
  }

  lemma TestWritten(s: string, st: State) returns (t: Test)
    requires Valid(s, st) && ParsePredicate(s, st).Ok?
    ensures
      var (e, end) := ParsePredicate(s, st).value;
      GoodTest(t) && TestMeaning(t) == e && Reads(s, st, TestPieces(t), end)
  {
    hide Reads, Valid, Bump, ParseExprBp, WfArith, Grammatical, Meaning, Pieces, ParseLike, ParseIn, ParseCompare,
      WfPred, GoodTest, TestMeaning, TestPieces;
    var left := ExprWritten(s, st, 0);
    var (l, mid) := ParseExprBp(s, st, 0).value;
    var negated := mid.cur.kind == KwNot;
    var at := if negated then Bump(s, mid).value else mid;
    OptionalBumped(s, mid, KwNot, negated, at);
    if at.cur.kind == KwLike {
      t := LikeWritten(s, st, left, mid, negated, at);
    } else if at.cur.kind == KwIn {
      t := InWritten(s, st, left, mid, negated, at);
    } else {
      t := CompareWritten(s, st, left, mid);
    }
  }

  lemma LikeWritten(s: string, st: State, left: Term, mid: State, negated: bool, at: State) returns (t: Test)
    requires Grammatical(left) && WfArith(Meaning(left), false) && Reads(s, st, Pieces(left), mid)
    requires Reads(s, mid, Optional(KwNot, negated), at) && Valid(s, at) && at.cur.kind == KwLike
    requires ParseLike(s, at, Meaning(left), negated).Ok?
    ensures
      var (e, end) := ParseLike(s, at, Meaning(left), negated).value;
      GoodTest(t) && TestMeaning(t) == e && Reads(s, st, TestPieces(t), end)
  {
    hide Reads, Valid, Bump, ParseExprBp, WfArith, Grammatical, Meaning, Pieces, Optional, Spelling;
    var next := Bump(s, at).value;
    var pattern := ExprWritten(s, next, 0);
    t := IsLike(left, negated, pattern);
    var end := ParseExprBp(s, next, 0).value.1;
    WordBumped(s, at, KwLike, next);
    ThreeRead(s, mid, Optional(KwNot, negated), at, [P(KwLike)], next, Pieces(pattern), end);
    ReadsJoin(s, st, Pieces(left), mid, Optional(KwNot, negated) + ([P(KwLike)] + Pieces(pattern)), end);
  }

  lemma InWritten(s: string, st: State, left: Term, mid: State, negated: bool, at: State) returns (t: Test)
    requires Grammatical(left) && WfArith(Meaning(left), false) && Reads(s, st, Pieces(left), mid)
    requires Reads(s, mid, Optional(KwNot, negated), at) && Valid(s, at) && at.cur.kind == KwIn
    requires ParseIn(s, at, Meaning(left), negated).Ok?
    ensures
      var (e, end) := ParseIn(s, at, Meaning(left), negated).value;
      GoodTest(t) && TestMeaning(t) == e && Reads(s, st, TestPieces(t), end)
  {
    hide Reads, Valid, Bump, Expect, ParseExprList, WfArith, WfList, Grammatical, Meaning, Pieces, Optional, Spelling,
      AllGrammatical, Meanings, ListPieces, Enclosed;
    var open := Bump(s, at).value;
    OpenIs(s, open);
    var list := Expect(s, open, LParen).value;
    var vs := ListWritten(s, list);
    t := IsIn(left, negated, vs);
    var (es, last) := ParseExprList(s, list).value;
    var end := Expect(s, last, RParen).value;
    WordBumped(s, at, KwIn, open);
    EnclosedWritten(s, open, list, ListPieces(vs), last, end);
    ThreeRead(s, mid, Optional(KwNot, negated), at, [P(KwIn)], open, Enclosed(ListPieces(vs)), end);
    ReadsJoin(s, st, Pieces(left), mid, Optional(KwNot, negated) + ([P(KwIn)] + Enclosed(ListPieces(vs))), end);
  }

  lemma OpenIs(s: string, st: State)
    requires Valid(s, st) && Expect(s, st, LParen).Ok?
    ensures st.cur.kind == LParen && Bump(s, st) == Expect(s, st, LParen)
  {
    hide Bump, Valid;
  }

  lemma CompareWritten(s: string, st: State, left: Term, mid: State) returns (t: Test)
    requires Grammatical(left) && WfArith(Meaning(left), false) && Reads(s, st, Pieces(left), mid) && Valid(s, mid)
    requires ParseCompare(s, mid, Meaning(left)).Ok?
    ensures
      var (e, end) := ParseCompare(s, mid, Meaning(left)).value;
      GoodTest(t) && TestMeaning(t) == e && Reads(s, st, TestPieces(t), end)
  {
    hide Reads, Valid, Bump, ParseExprBp, WfArith, Grammatical, Meaning, Pieces, Spelling, CmpOf, CmpKind;
    ComparisonIs(mid.cur.kind);
    var cmp := CmpOf(mid.cur.kind).value;
    var next := Bump(s, mid).value;
    var right := ExprWritten(s, next, 0);
    t := Compares(cmp, left, right);
    WordBumped(s, mid, CmpKind(cmp), next);
    ThreeRead(s, st, Pieces(left), mid, [P(CmpKind(cmp))], next, Pieces(right), ParseExprBp(s, next, 0).value.1);
  }

  lemma {:induction false} MoreWritten(s: string, st: State, first: Expr) returns (tests: seq<Test>)
    requires Valid(s, st) && WfWhere(first, false) && ParseAndTail(s, st, first).Ok?
    ensures
      var (e, end) := ParseAndTail(s, st, first).value;
      GoodTests(tests) && Joined(first, tests) == e && Reads(s, st, MorePieces(tests), end)
    decreases Remaining(s, st)
  {
    hide Reads, Valid, Bump, ParsePredicate, WfPred, GoodTest, TestMeaning, TestPieces, Spelling;
    if st.cur.kind != KwAnd {
      tests := [];
      NoTokens(s, st);
    } else {
      var next := Bump(s, st).value;
      var t := TestWritten(s, next);
      var (e, mid) := ParsePredicate(s, next).value;
      var rest := MoreWritten(s, mid, And(first, e));
      tests := [t] + rest;
      assert tests[1..] == rest;
      WordBumped(s, st, KwAnd, next);
      ThreeRead(s, st, [P(KwAnd)], next, TestPieces(t), mid, MorePieces(rest),
        ParseAndTail(s, mid, And(first, e)).value.1);
    }
  }

  lemma FilterWritten(s: string, st: State, kind: Kind) returns (tests: seq<Test>)
    requires Valid(s, st) && (kind == KwWhere || kind == KwHaving) && ParseFilter(s, st, kind).Ok?
    ensures
      var (pred, end) := ParseFilter(s, st, kind).value;
      GoodTests(tests) && FilterMeaning(tests) == pred && Reads(s, st, FilterPieces(kind, tests), end)
  {
    hide Reads, Valid, Bump, ParsePredicate, ParseAndTail, WfWhere, GoodTest, TestMeaning, TestPieces, Spelling,
      MorePieces, Joined;
    if st.cur.kind != kind {
      tests := [];
      NoTokens(s, st);
    } else {
      var next := Bump(s, st).value;
      var t := TestWritten(s, next);
      var (e, mid) := ParsePredicate(s, next).value;
      FirstIsWhere(s, next);
      var rest := MoreWritten(s, mid, e);
      tests := [t] + rest;
      assert tests[1..] == rest;
      WordBumped(s, st, kind, next);
      ThreeRead(s, st, [P(kind)], next, TestPieces(t), mid, MorePieces(rest), ParseAndTail(s, mid, e).value.1);
    }
  }

  lemma FirstIsWhere(s: string, st: State)
    requires Valid(s, st) && ParsePredicate(s, st).Ok?
    ensures WfWhere(ParsePredicate(s, st).value.0, false) && Valid(s, ParsePredicate(s, st).value.1)
  {
    hide ParsePredicate, WfArith, WfList;
  }

  // ---------- lists of items ----------

  lemma ItemWritten(s: string, st: State) returns (i: Item)
    requires Valid(s, st) && ParseSelectItem(s, st).Ok?
    ensures
      var (item, end) := ParseSelectItem(s, st).value;
      && Grammatical(i.term) && (i.alias.Some? ==> IsName(i.alias.value)) && ItemMeaning(i) == item
      && Reads(s, st, ItemPieces(i), end)
  {
    hide Reads, Valid, Bump, ParseExprBp, WfArith, Grammatical, Meaning, Pieces, Spelling, ParseIdent, IsName, IsIdent;
    var t := ExprWritten(s, st, 0);
    var (e, mid) := ParseExprBp(s, st, 0).value;
    if mid.cur.kind != KwAs {
      i := Item(t, None);
      assert Pieces(t) + [] == Pieces(t);
    } else {
      var next := Bump(s, mid).value;
      NameWritten(s, next);
      var (name, end) := ParseIdent(s, next).value;
      i := Item(t, Some(name));
      WordBumped(s, mid, KwAs, next);
      ThreeRead(s, st, Pieces(t), mid, [P(KwAs)], next, [Piece(IdentTok, name)], end);
      assert [P(KwAs)] + [Piece(IdentTok, name)] == [P(KwAs), Piece(IdentTok, name)];
    }
  }

  lemma {:induction false} SelectWritten(s: string, st: State) returns (items: seq<Item>)
    requires Valid(s, st) && ParseSelectList(s, st).Ok?
    ensures
      var (es, end) := ParseSelectList(s, st).value;
      items != [] && GoodItems(items) && ItemMeanings(items) == es && Reads(s, st, SelectPieces(items), end)
    decreases Remaining(s, st)
  {
    hide Reads, Valid, Bump, ParseSelectItem, Grammatical, ItemMeaning, ItemPieces, Spelling, IsName, WfItem;
    var first := ItemWritten(s, st);
    var (e, mid) := ParseSelectItem(s, st).value;
    if mid.cur.kind != Comma {
      items := [first];
      assert ItemMeanings(items) == [ItemMeaning(first)];
    } else {
      var next := Bump(s, mid).value;
      var rest := SelectWritten(s, next);
      items := [first] + rest;
      assert items[1..] == rest;
      WordBumped(s, mid, Comma, next);
      ThreeRead(s, st, ItemPieces(first), mid, [P(Comma)], next, SelectPieces(rest),
        ParseSelectList(s, next).value.1);
    }
  }

  lemma KeyWritten(s: string, st: State) returns (k: Key)
    requires Valid(s, st) && ParseOrderItem(s, st).Ok?
    ensures
      var (item, end) := ParseOrderItem(s, st).value;
      Grammatical(k.term) && KeyMeaning(k) == item && Reads(s, st, KeyPieces(k), end)
  {
    hide Reads, Valid, Bump, ParseExprBp, WfArith, Grammatical, Meaning, Pieces, Spelling;
    var t := ExprWritten(s, st, 0);
    var (e, mid) := ParseExprBp(s, st, 0).value;
    var asc, desc := mid.cur.kind == KwAsc, mid.cur.kind == KwDesc;
    k := Key(t, if asc then Ascending else if desc then Descending else Unsaid);
    var end := ParseOrderItem(s, st).value.1;
    var next := if asc then end else mid;
    OptionalBumped(s, mid, KwAsc, asc, next);
    OptionalBumped(s, next, KwDesc, desc, end);
    ThreeRead(s, st, Pieces(t), mid, Optional(KwAsc, asc), next, Optional(KwDesc, desc), end);
  }

  lemma {:induction false} OrderWritten(s: string, st: State) returns (keys: seq<Key>)
    requires Valid(s, st) && ParseOrderList(s, st).Ok?
    ensures
      var (es, end) := ParseOrderList(s, st).value;
      keys != [] && GoodKeys(keys) && KeyMeanings(keys) == es && Reads(s, st, OrderPieces(keys), end)
    decreases Remaining(s, st)
  {
    hide Reads, Valid, Bump, ParseOrderItem, Grammatical, KeyMeaning, KeyPieces, Spelling, WfArith;
    var first := KeyWritten(s, st);
    var (e, mid) := ParseOrderItem(s, st).value;
    if mid.cur.kind != Comma {
      keys := [first];
      assert KeyMeanings(keys) == [KeyMeaning(first)];
    } else {
      var next := Bump(s, mid).value;
      var rest := OrderWritten(s, next);
      keys := [first] + rest;
      assert keys[1..] == rest;
      WordBumped(s, mid, Comma, next);
      ThreeRead(s, st, KeyPieces(first), mid, [P(Comma)], next, OrderPieces(rest), ParseOrderList(s, next).value.1);
    }
  }

  // ---------- the other clauses ----------

  lemma TwoWordsWritten(s: string, st: State, first: Kind, second: Kind, mid: State, next: State)
    requires !IsPlain(first) && !IsPlain(second)
    requires Valid(s, st) && st.cur.kind == first && Bump(s, st) == Ok(mid)
    requires Valid(s, mid) && Expect(s, mid, second) == Ok(next)
    ensures Reads(s, st, [P(first), P(second)], next)
  {
    hide Reads, Valid, Bump, Spelling;
    WordBumped(s, st, first, mid);
    WordBumped(s, mid, second, next);
    ReadsJoin(s, st, [P(first)], mid, [P(second)], next);
    assert [P(first)] + [P(second)] == [P(first), P(second)];
  }

  lemma GroupWritten(s: string, st: State) returns (ts: seq<Term>)
    requires Valid(s, st) && ParseGroupBy(s, st).Ok?
    ensures
      var (es, end) := ParseGroupBy(s, st).value;
      AllGrammatical(ts) && Meanings(ts) == es && Reads(s, st, GroupPieces(ts), end)
  {
    hide Reads, Valid, Bump, Expect, ParseExprList, WfList, ListPieces, Spelling, IsPlain, Grammatical, Meaning;
    if st.cur.kind != KwGroup {
      ts := [];
      NoTokens(s, st);
    } else {
      var mid := Bump(s, st).value;
      var next := Expect(s, mid, KwBy).value;
      ts := ListWritten(s, next);
      ByIsWord();
      TwoWordsWritten(s, st, KwGroup, KwBy, mid, next);
      ReadsJoin(s, st, [P(KwGroup), P(KwBy)], next, ListPieces(ts), ParseExprList(s, next).value.1);
    }
  }

  lemma ByIsWord()
    ensures !IsPlain(KwGroup) && !IsPlain(KwOrder) && !IsPlain(KwBy)
  {
  }

  lemma OrderByWritten(s: string, st: State) returns (keys: seq<Key>)
    requires Valid(s, st) && ParseOrderBy(s, st).Ok?
    ensures
      var (es, end) := ParseOrderBy(s, st).value;
      GoodKeys(keys) && KeyMeanings(keys) == es && Reads(s, st, OrderByPieces(keys), end)
  {
    hide Reads, Valid, Bump, Expect, ParseOrderList, OrderPieces, Spelling, IsPlain, Grammatical, KeyMeaning, WfArith;
    if st.cur.kind != KwOrder {
      keys := [];
      NoTokens(s, st);
    } else {
      var mid := Bump(s, st).value;
      var next := Expect(s, mid, KwBy).value;
      keys := OrderWritten(s, next);
      ByIsWord();
      TwoWordsWritten(s, st, KwOrder, KwBy, mid, next);
      ReadsJoin(s, st, [P(KwOrder), P(KwBy)], next, OrderPieces(keys), ParseOrderList(s, next).value.1);
    }
  }

  lemma CountWritten(s: string, st: State, kind: Kind) returns (n: Option<Numeral>)
    requires Valid(s, st) && (kind == KwOffset || kind == KwLimit) && ParseCount(s, st, kind).Ok?
    ensures
      var (v, end) := ParseCount(s, st, kind).value;
      GoodCount(n) && CountMeaning(n) == v && Reads(s, st, CountPieces(kind, n), end)
  {
    hide Reads, Bump, Spelling, Decimal, Zeros, NumberPiece, DigitsValue;
    if st.cur.kind != kind {
      n := None;
      NoTokens(s, st);
    } else {
      var next := Bump(s, st).value;
      var lex := next.cur.lex;
      var zeros := FiguresWritten(lex);
      n := Some(Numeral(zeros, DigitsValue(lex)));
      NumberPieceIs(zeros, DigitsValue(lex));
      var figures := NumberPiece(zeros, DigitsValue(lex));
      var end := Bump(s, next).value;
      WordBumped(s, st, kind, next);
      Bumped(s, next, figures, end);
      ReadsJoin(s, st, [P(kind)], next, [figures], end);
      assert [P(kind)] + [figures] == [P(kind), figures];
    }
  }
}
