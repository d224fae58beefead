/**
 The parser of the SQL dialect, as functions from the input and a parser state to a tree and the next
 state: binding powers decide how sums and products nest, and each clause has its function. Every
 function consumes input or leaves the state alone, so parsing ends on every input, and the trees
 returned are well formed.
 */
module SqlParser {
  import opened SqlAst
  import opened SqlLexer
  import opened Wrappers

  const MAX_I64: nat := 0x7FFF_FFFF_FFFF_FFFF
  const MAX_U64: nat := 0xFFFF_FFFF_FFFF_FFFF

  // ---------- well-formed trees ----------

  /** Trees the parser can build; when `paired`, the quotes in their strings stand in pairs as well. */
  predicate WfArith(e: Expr, paired: bool)
    decreases e, 0
  {
    match e
    case Star => true
    case Ident(name) => IsIdent(name)
    case Int(v) => 0 <= v <= MAX_I64
    case Str(raw) => paired ==> Paired(raw)
    case Agg(func, distinct, arg) =>
      && WfArith(arg, paired)
      && (distinct ==> func == Count || func == ApproxDistinct)
      && (arg == Star ==> func == Count)
    case Binary(_, l, r) => WfArith(l, paired) && WfArith(r, paired)
    case Call(name, args) => IsIdent(name) && args != [] && WfList(args, 0, paired)
    case _ => false
  }

  predicate WfList(es: seq<Expr>, k: nat, paired: bool)
    requires k <= |es|
    decreases es, |es| - k
  {
    k == |es| || (WfArith(es[k], paired) && WfList(es, k + 1, paired))
  }

  lemma {:induction false} WfListAll(es: seq<Expr>, k: nat, paired: bool)
    requires k <= |es|
    ensures WfList(es, k, paired) <==> forall i :: k <= i < |es| ==> WfArith(es[i], paired)
    decreases |es| - k
  {
    if k < |es| { WfListAll(es, k + 1, paired); }
  }

  predicate WfPred(e: Expr, paired: bool) {
    match e
    case Compare(_, l, r) => WfArith(l, paired) && WfArith(r, paired)
    case Like(l, p, _) => WfArith(l, paired) && WfArith(p, paired)
    case In(l, vs, _) => WfArith(l, paired) && vs != [] && WfList(vs, 0, paired)
    case _ => false
  }

  /** Predicates joined by AND, leaning to the left. */
  predicate WfWhere(e: Expr, paired: bool) {
    if e.And? then WfWhere(e.first, paired) && WfPred(e.second, paired) else WfPred(e, paired)
  }

  predicate WfName(name: Option<string>) {
    name.Some? ==> IsIdent(name.value)
  }

  predicate WfItem(item: SelectItem, paired: bool) {
    WfArith(item.expr, paired) && WfName(item.alias)
  }

  predicate WfQuery(q: Query, paired: bool) {
    && q.select != [] && (forall i :: 0 <= i < |q.select| ==> WfItem(q.select[i], paired))
    && IsIdent(q.from)
    && (q.where_.Some? ==> WfWhere(q.where_.value, paired))
    && (forall i :: 0 <= i < |q.groupBy| ==> WfArith(q.groupBy[i], paired))
    && (q.having.Some? ==> WfWhere(q.having.value, paired))
    && (forall i :: 0 <= i < |q.orderBy| ==> WfArith(q.orderBy[i].expr, paired))
    && (q.offset.Some? ==> q.offset.value <= MAX_U64) && (q.limit.Some? ==> q.limit.value <= MAX_U64)
  }

  // ---------- the state of a parser ----------

  /** The current token and the position after it. */
  datatype State = State(cur: Tok, i: nat)

  type Parse<+T> = Result<(T, State), Failure>

  predicate Valid(s: string, st: State) {
    st.i <= |s| && GoodTok(st.cur)
  }

  /** The input that remains, with the current token. */
  function Remaining(s: string, st: State): nat
    requires Valid(s, st)
  {
    |s| - st.i + if st.cur.kind == Eof then 0 else 1
  }

  /** Later in the input, and in a good state. */
  predicate After(s: string, st: State, later: State)
    requires Valid(s, st)
  {
    Valid(s, later) && Remaining(s, later) < Remaining(s, st)
  }

  function Bump(s: string, st: State): (r: Result<State, Failure>)
    requires Valid(s, st)
    ensures r.Ok? ==> Valid(s, r.value) && (st.cur.kind != Eof ==> After(s, st, r.value))
  {
    var next :- Next(s, st.i);
    Ok(State(next.tok, next.end))
  }

  function Unexpected<T>(msg: Msg, st: State): Result<T, Failure> {
    Err(ParseError(msg, st.cur.start))
  }

  function Expect(s: string, st: State, kind: Kind): (r: Result<State, Failure>)
    requires Valid(s, st)
    ensures r.Ok? ==> st.cur.kind == kind && Valid(s, r.value) && (kind != Eof ==> After(s, st, r.value))
  {
    if st.cur.kind == kind then Bump(s, st) else Unexpected(UnexpectedToken, st)
  }

  /** The value of decimal digits. */
  function DigitsValue(lex: string): nat
    requires forall k :: 0 <= k < |lex| ==> IsDigit(lex[k])
    decreases |lex|
  {
    if lex == "" then 0
    else
      var last := lex[|lex| - 1];
      assert IsDigit(last);
      10 * DigitsValue(lex[..|lex| - 1]) + (last as int - '0' as int)
  }

  function ParseIdent(s: string, st: State): (r: Parse<string>)
    requires Valid(s, st)
    ensures r.Ok? ==> IsIdent(r.value.0) && After(s, st, r.value.1)
  {
    if st.cur.kind != IdentTok then Unexpected(ExpectedIdentifier, st)
    else
      var next :- Bump(s, st);
      Ok((st.cur.lex, next))
  }

  function ParseU64(s: string, st: State): (r: Parse<nat>)
    requires Valid(s, st)
    ensures r.Ok? ==> r.value.0 <= MAX_U64 && After(s, st, r.value.1)
  {
    if st.cur.kind != IntTok then Unexpected(ExpectedInteger, st)
    else
      var next :- Bump(s, st);
      var v := DigitsValue(st.cur.lex);
      if v > MAX_U64 then Err(ParseError(BadU64, st.cur.start)) else Ok((v, next))
  }

  // ---------- expressions ----------

  function BinOpOf(kind: Kind): Option<BinOp> {
    match kind
    case Plus => Some(Add)
    case Minus => Some(Sub)
    case _ => None
  }

  function AggOf(kind: Kind): Option<AggFn> {
    match kind
    case KwCount => Some(Count)
    case KwSum => Some(Sum)
    case KwAvg => Some(Avg)
    case KwMin => Some(Min)
    case KwMax => Some(Max)
    case KwApproxCountDistinct => Some(ApproxDistinct)
    case _ => None
  }

  /** Both operators bind with power 1 to their left and 2 to their right. */
  function ParseExprBp(s: string, st: State, minBp: nat): (r: Parse<Expr>)
    requires Valid(s, st)
    ensures r.Ok? ==> WfArith(r.value.0, false) && After(s, st, r.value.1)
    decreases Remaining(s, st), 2
  {
    var lhs :- ParsePrimary(s, st);
    ParseTail(s, lhs.1, lhs.0, minBp)
  }

  /** The loop over the operators after a left operand. */
  function ParseTail(s: string, st: State, lhs: Expr, minBp: nat): (r: Parse<Expr>)
    requires Valid(s, st) && WfArith(lhs, false)
    ensures r.Ok? ==> WfArith(r.value.0, false) && Valid(s, r.value.1) && Remaining(s, r.value.1) <= Remaining(s, st)
    decreases Remaining(s, st), 0
  {
    var op := BinOpOf(st.cur.kind);
    if op.None? || 1 < minBp then Ok((lhs, st))
    else
      var next :- Bump(s, st);
      var rhs :- ParseExprBp(s, next, 2);
      ParseTail(s, rhs.1, Binary(op.value, lhs, rhs.0), minBp)
  }

  function ParsePrimary(s: string, st: State): (r: Parse<Expr>)
    requires Valid(s, st)
    ensures r.Ok? ==> WfArith(r.value.0, false) && After(s, st, r.value.1)
    decreases Remaining(s, st), 1
  {
    if st.cur.kind == Minus then ParseNegative(s, st)
    else if st.cur.kind == IdentTok then ParseIdentOrCall(s, st)
    else if AggOf(st.cur.kind).Some? then ParseAggregate(s, st)
    else if st.cur.kind == LParen then ParseParen(s, st)
    else ParseLeaf(s, st)
  }

  /** A star, an integer or a string. */
  function ParseLeaf(s: string, st: State): (r: Parse<Expr>)
    requires Valid(s, st)
    ensures r.Ok? ==> WfArith(r.value.0, false) && After(s, st, r.value.1)
  {
    if st.cur.kind == StarTok then
      var next :- Bump(s, st);
      Ok((Star, next))
    else if st.cur.kind == IntTok then
      var next :- Bump(s, st);
      var v := DigitsValue(st.cur.lex);
      if v > MAX_I64 then Err(ParseError(BadInt, st.cur.start)) else Ok((Int(v), next))
    else if st.cur.kind == StrTok then
      var next :- Bump(s, st);
      var raw :- Inner(st.cur.lex);
      Ok((Str(raw), next))
    else Unexpected(ExpectedExpression, st)
  }

  /** A minus sign in front: zero minus the operand. */
  function ParseNegative(s: string, st: State): (r: Parse<Expr>)
    requires Valid(s, st) && st.cur.kind == Minus
    ensures r.Ok? ==> WfArith(r.value.0, false) && After(s, st, r.value.1)
    decreases Remaining(s, st), 0
  {
    var next :- Bump(s, st);
    var e :- ParseExprBp(s, next, 2);
    Ok((Binary(Sub, Int(0), e.0), e.1))
  }

  function ParseIdentOrCall(s: string, st: State): (r: Parse<Expr>)
    requires Valid(s, st) && st.cur.kind == IdentTok
    ensures r.Ok? ==> WfArith(r.value.0, false) && After(s, st, r.value.1)
    decreases Remaining(s, st), 0
  {
    var id :- ParseIdent(s, st);
    if id.1.cur.kind != LParen then Ok((Ident(id.0), id.1))
    else
      var next :- Bump(s, id.1);
      var args :- ParseExprList(s, next);
      var end :- Expect(s, args.1, RParen);
      Ok((Call(id.0, args.0), end))
  }

  function ParseParen(s: string, st: State): (r: Parse<Expr>)
    requires Valid(s, st) && st.cur.kind == LParen
    ensures r.Ok? ==> WfArith(r.value.0, false) && After(s, st, r.value.1)
    decreases Remaining(s, st), 0
  {
    var next :- Bump(s, st);
    var e :- ParseExprBp(s, next, 0);
    var end :- Expect(s, e.1, RParen);
    Ok((e.0, end))
  }

  function ParseAggregate(s: string, st: State): (r: Parse<Expr>)
    requires Valid(s, st) && AggOf(st.cur.kind).Some?
    ensures r.Ok? ==> WfArith(r.value.0, false) && After(s, st, r.value.1)
    decreases Remaining(s, st), 0
  {
    var func := AggOf(st.cur.kind).value;
    var name :- Bump(s, st);
    var open :- Expect(s, name, LParen);
    var distinct := open.cur.kind == KwDistinct;
    var start :- if distinct then Bump(s, open) else Ok(open);
    var arg :- ParseAggArg(s, start);
    var end :- Expect(s, arg.1, RParen);
    if func != Count && distinct && func != ApproxDistinct then Unexpected(DistinctOnlyWithCount, end)
    else if func != Count && arg.0 == Star && func != ApproxDistinct then Unexpected(StarOnlyWithCount, end)
    else if func == ApproxDistinct && arg.0 == Star then Unexpected(NeedsColumn, end)
    else Ok((Agg(func, distinct, arg.0), end))
  }

  /** A lone star, or any expression. */
  function ParseAggArg(s: string, st: State): (r: Parse<Expr>)
    requires Valid(s, st)
    ensures r.Ok? ==> WfArith(r.value.0, false) && After(s, st, r.value.1)
    decreases Remaining(s, st), 3
  {
    if st.cur.kind == StarTok then
      var next :- Bump(s, st);
      Ok((Star, next))
    else ParseExprBp(s, st, 0)
  }

  function ParseExprList(s: string, st: State): (r: Parse<seq<Expr>>)
    requires Valid(s, st)
    ensures r.Ok? ==> r.value.0 != [] && WfList(r.value.0, 0, false) && After(s, st, r.value.1)
    decreases Remaining(s, st), 3
  {
    var first :- ParseExprBp(s, st, 0);
    if first.1.cur.kind != Comma then
      assert WfList([first.0], 1, false);
      Ok(([first.0], first.1))
    else
      var next :- Bump(s, first.1);
      var rest :- ParseExprList(s, next);
      ListCons(first.0, rest.0);
      Ok(([first.0] + rest.0, rest.1))
  }

  lemma ListCons(e: Expr, es: seq<Expr>)
    requires WfArith(e, false) && WfList(es, 0, false)
    ensures WfList([e] + es, 0, false)
  {
    WfListAll(es, 0, false);
    WfListAll([e] + es, 0, false);
  }

  // ---------- predicates ----------

  function CmpOf(kind: Kind): Option<CmpOp> {
    match kind
    case EqTok => Some(Eq)
    case NeTok => Some(Ne)
    case LtTok => Some(Lt)
    case LeTok => Some(Le)
    case GtTok => Some(Gt)
    case GeTok => Some(Ge)
    case _ => None
  }

  function ParsePredicate(s: string, st: State): (r: Parse<Expr>)
    requires Valid(s, st)
    ensures r.Ok? ==> WfPred(r.value.0, false) && After(s, st, r.value.1)
  {
    var left :- ParseExprBp(s, st, 0);
    var neg := left.1.cur.kind == KwNot;
    var at :- if neg then Bump(s, left.1) else Ok(left.1);
    if at.cur.kind == KwLike then ParseLike(s, at, left.0, neg)
    else if at.cur.kind == KwIn then ParseIn(s, at, left.0, neg)
    else if neg then Unexpected(ExpectedLikeOrIn, at)
    else ParseCompare(s, at, left.0)
  }

  function ParseLike(s: string, st: State, left: Expr, neg: bool): (r: Parse<Expr>)
    requires Valid(s, st) && st.cur.kind == KwLike && WfArith(left, false)
    ensures r.Ok? ==> WfPred(r.value.0, false) && After(s, st, r.value.1)
  {
    var next :- Bump(s, st);
    var pattern :- ParseExprBp(s, next, 0);
    Ok((Like(left, pattern.0, neg), pattern.1))
  }

  function ParseIn(s: string, st: State, left: Expr, neg: bool): (r: Parse<Expr>)
    requires Valid(s, st) && st.cur.kind == KwIn && WfArith(left, false)
    ensures r.Ok? ==> WfPred(r.value.0, false) && After(s, st, r.value.1)
  {
    var next :- Bump(s, st);
    var open :- Expect(s, next, LParen);
    var values :- ParseExprList(s, open);
    var end :- Expect(s, values.1, RParen);
    Ok((In(left, values.0, neg), end))
  }

  function ParseCompare(s: string, st: State, left: Expr): (r: Parse<Expr>)
    requires Valid(s, st) && WfArith(left, false)
    ensures r.Ok? ==> WfPred(r.value.0, false) && After(s, st, r.value.1)
  {
    var op := CmpOf(st.cur.kind);
    if op.None? then Unexpected(ExpectedComparison, st)
    else
      var next :- Bump(s, st);
      var right :- ParseExprBp(s, next, 0);
      Ok((Compare(op.value, left, right.0), right.1))
  }

  function ParseAnd(s: string, st: State): (r: Parse<Expr>)
    requires Valid(s, st)
    ensures r.Ok? ==> WfWhere(r.value.0, false) && After(s, st, r.value.1)
  {
    var first :- ParsePredicate(s, st);
    ParseAndTail(s, first.1, first.0)
  }

  function ParseAndTail(s: string, st: State, left: Expr): (r: Parse<Expr>)
    requires Valid(s, st) && WfWhere(left, false)
    ensures r.Ok? ==> WfWhere(r.value.0, false) && Valid(s, r.value.1) && Remaining(s, r.value.1) <= Remaining(s, st)
    decreases Remaining(s, st)
  {
    if st.cur.kind != KwAnd then Ok((left, st))
    else
      var next :- Bump(s, st);
      var right :- ParsePredicate(s, next);
      ParseAndTail(s, right.1, And(left, right.0))
  }

  // ---------- clauses ----------

  function ParseSelectItem(s: string, st: State): (r: Parse<SelectItem>)
    requires Valid(s, st)
    ensures r.Ok? ==> WfItem(r.value.0, false) && After(s, st, r.value.1)
  {
    var expr :- ParseExprBp(s, st, 0);
    if expr.1.cur.kind != KwAs then Ok((SelectItem(expr.0, None), expr.1))
    else
      var next :- Bump(s, expr.1);
      var alias :- ParseIdent(s, next);
      Ok((SelectItem(expr.0, Some(alias.0)), alias.1))
  }

  function ParseSelectList(s: string, st: State): (r: Parse<seq<SelectItem>>)
    requires Valid(s, st)
    ensures r.Ok? ==> r.value.0 != [] && After(s, st, r.value.1)
    ensures r.Ok? ==> forall i :: 0 <= i < |r.value.0| ==> WfItem(r.value.0[i], false)
    decreases Remaining(s, st)
  {
    var first :- ParseSelectItem(s, st);
    if first.1.cur.kind != Comma then Ok(([first.0], first.1))
    else
      var next :- Bump(s, first.1);
      var rest :- ParseSelectList(s, next);
      Ok(([first.0] + rest.0, rest.1))
  }

  function ParseOrderItem(s: string, st: State): (r: Parse<OrderItem>)
    requires Valid(s, st)
    ensures r.Ok? ==> WfArith(r.value.0.expr, false) && After(s, st, r.value.1)
  {
    var expr :- ParseExprBp(s, st, 0);
    if expr.1.cur.kind == KwDesc || expr.1.cur.kind == KwAsc then
      var next :- Bump(s, expr.1);
      Ok((OrderItem(expr.0, expr.1.cur.kind == KwDesc), next))
    else Ok((OrderItem(expr.0, false), expr.1))
  }

  function ParseOrderList(s: string, st: State): (r: Parse<seq<OrderItem>>)
    requires Valid(s, st)
    ensures r.Ok? ==> r.value.0 != [] && After(s, st, r.value.1)
    ensures r.Ok? ==> forall i :: 0 <= i < |r.value.0| ==> WfArith(r.value.0[i].expr, false)
    decreases Remaining(s, st)
  {
    var first :- ParseOrderItem(s, st);
    if first.1.cur.kind != Comma then Ok(([first.0], first.1))
    else
      var next :- Bump(s, first.1);
      var rest :- ParseOrderList(s, next);
      Ok(([first.0] + rest.0, rest.1))
  }

  /** WHERE or HAVING with its predicate, when it is there. */
  function ParseFilter(s: string, st: State, kind: Kind): (r: Parse<Option<Expr>>)
    requires Valid(s, st)
    ensures r.Ok? ==> (r.value.0.Some? ==> WfWhere(r.value.0.value, false)) && Valid(s, r.value.1)
  {
    if st.cur.kind != kind then Ok((None, st))
    else
      var next :- Bump(s, st);
      var pred :- ParseAnd(s, next);
      Ok((Some(pred.0), pred.1))
  }

  function ParseGroupBy(s: string, st: State): (r: Parse<seq<Expr>>)
    requires Valid(s, st)
    ensures r.Ok? ==> Valid(s, r.value.1) && WfList(r.value.0, 0, false)
  {
    if st.cur.kind != KwGroup then Ok(([], st))
    else
      var next :- Bump(s, st);
      var start :- Expect(s, next, KwBy);
      ParseExprList(s, start)
  }

  function ParseOrderBy(s: string, st: State): (r: Parse<seq<OrderItem>>)
    requires Valid(s, st)
    ensures r.Ok? ==> Valid(s, r.value.1) && forall i :: 0 <= i < |r.value.0| ==> WfArith(r.value.0[i].expr, false)
  {
    if st.cur.kind != KwOrder then Ok(([], st))
    else
      var next :- Bump(s, st);
      var start :- Expect(s, next, KwBy);
      ParseOrderList(s, start)
  }

  function ParseCount(s: string, st: State, kind: Kind): (r: Parse<Option<nat>>)
    requires Valid(s, st)
    ensures r.Ok? ==> (r.value.0.Some? ==> r.value.0.value <= MAX_U64) && Valid(s, r.value.1)
  {
    if st.cur.kind != kind then Ok((None, st))
    else
      var next :- Bump(s, st);
      var v :- ParseU64(s, next);
      Ok((Some(v.0), v.1))
  }

  /** Every query the parser accepts is well formed. */
  function ParseQuery(s: string, st: State): (r: Result<Query, Failure>)
    requires Valid(s, st)
    ensures r.Ok? ==> WfQuery(r.value, false)
  {
    var select_ :- Expect(s, st, KwSelect);
    var select :- ParseSelectList(s, select_);
    var from_ :- Expect(s, select.1, KwFrom);
    var from :- ParseIdent(s, from_);
    var filter :- ParseFilter(s, from.1, KwWhere);
    var groupBy :- ParseGroupBy(s, filter.1);
    var having :- ParseFilter(s, groupBy.1, KwHaving);
    var orderBy :- ParseOrderBy(s, having.1);
    var offset :- ParseCount(s, orderBy.1, KwOffset);
    var limit :- ParseCount(s, offset.1, KwLimit);
    var semi :- if limit.1.cur.kind == Semi then Bump(s, limit.1) else Ok(limit.1);
    var end :- Expect(s, semi, Eof);
    WfListAll(groupBy.0, 0, false);
    Ok(Query(select.0, from.0, filter.0, groupBy.0, having.0, orderBy.0, offset.0, limit.0))
  }

  /** A whole input. */
  function ParseSql(s: string): (r: Result<Query, Failure>)
    ensures r.Ok? ==> WfQuery(r.value, false)
  {
    var first :- Next(s, 0);
    ParseQuery(s, State(first.tok, first.end))
  }
}
