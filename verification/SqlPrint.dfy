/** A text for every query. */
module SqlPrint {
  import opened SqlAst
  import opened SqlGrammar
  import opened SqlLexer
  import opened SqlParser
  import opened SqlQueryRoundTrip
  import opened SqlTokens
  import opened Wrappers

  // The plainest way of writing a syntax tree: small letters, one space behind every token, parentheses only around
  // sums on the right of an operator and around the arguments of aggregates.

  function TermOf(e: Expr): Term
    decreases e, 0
  {
    match e
    case Ident(name) => Name(name)
    case Int(v) => Number(0, if v < 0 then 0 else v)
    case Str(raw) => Quote("'" + raw + "'")
    case Agg(f, distinct, arg) => Aggregate(f, distinct, if arg == Star then All else Parens(TermOf(arg)))
    case Binary(op, l, r) => Term.Sum(op, TermOf(l), OperandOf(r))
    case Call(name, args) => Apply(name, TermsOf(args))
    case _ => All
  }

  function OperandOf(e: Expr): Term
    decreases e, 1
  {
    if e.Binary? then Parens(TermOf(e)) else TermOf(e)
  }

  function TermsOf(es: seq<Expr>): (ts: seq<Term>)
    ensures |ts| == |es|
    decreases es, 1
  {
    if es == [] then [] else [TermOf(es[0])] + TermsOf(es[1..])
  }

  function TestOf(e: Expr): Test {
    match e
    case Like(l, p, negated) => IsLike(TermOf(l), negated, TermOf(p))
    case In(l, vs, negated) => IsIn(TermOf(l), negated, TermsOf(vs))
    case Compare(cmp, l, r) => Compares(cmp, TermOf(l), TermOf(r))
    case _ => Compares(Eq, All, All)
  }

  function TestsOf(e: Expr): (tests: seq<Test>)
    ensures tests != []
  {
    if e.And? then TestsOf(e.first) + [TestOf(e.second)] else [TestOf(e)]
  }

  function FilterOf(pred: Option<Expr>): seq<Test> {
    if pred.None? then [] else TestsOf(pred.value)
  }

  function ItemsOf(items: seq<SelectItem>): (forms: seq<Item>)
    ensures |forms| == |items|
  {
    if items == [] then [] else [Item(TermOf(items[0].expr), items[0].alias)] + ItemsOf(items[1..])
  }

  function KeysOf(items: seq<OrderItem>): (keys: seq<Key>)
    ensures |keys| == |items|
  {
    if items == [] then []
    else [Key(TermOf(items[0].expr), if items[0].desc then Descending else Unsaid)] + KeysOf(items[1..])
  }

  function CountOf(n: Option<nat>): Option<Numeral> {
    if n.None? then None else Some(Numeral(0, n.value))
  }

  function FormOf(q: Query): Form {
    Form(ItemsOf(q.select), q.from, FilterOf(q.where_), TermsOf(q.groupBy), FilterOf(q.having), KeysOf(q.orderBy),
      CountOf(q.offset), CountOf(q.limit), false)
  }

  function WordsOf(ps: seq<Piece>): (words: seq<Written>)
    ensures |words| == |ps|
  {
    if ps == [] then [] else [Written(ps[0].lex, " ")] + WordsOf(ps[1..])
  }

  function Print(q: Query): string {
    Text(WordsOf(QueryPieces(FormOf(q))))
  }

  // ---------- the tokens spell themselves ----------

  predicate SpellsItself(p: Piece) {
    Spells(p.lex, p) && (p.kind == StrTok ==> Closed(p.lex))
  }

  predicate AllSpelled(ps: seq<Piece>) {
    forall k :: 0 <= k < |ps| ==> SpellsItself(ps[k])
  }

  lemma SpelledTwo(a: seq<Piece>, b: seq<Piece>)
    requires AllSpelled(a) && AllSpelled(b)
    ensures AllSpelled(a + b)
  {
    hide SpellsItself;
  }

  lemma SpelledThree(a: seq<Piece>, b: seq<Piece>, c: seq<Piece>)
    requires AllSpelled(a) && AllSpelled(b) && AllSpelled(c)
    ensures AllSpelled(a + (b + c))
  {
    hide AllSpelled;
    SpelledTwo(b, c);
    SpelledTwo(a, b + c);
  }

  lemma OneSpelled(p: Piece)
    requires SpellsItself(p)
    ensures AllSpelled([p])
  {
    hide SpellsItself;
  }

  lemma SameAsItself(word: string)
    ensures SameLetters(word, word)
  {
  }

  lemma WordSpelled(kind: Kind)
    requires !IsPlain(kind)
    ensures AllSpelled([P(kind)])
  {
    hide SameLetters, Spelling, IsName;
    SameAsItself(Spelling(kind));
    OneSpelled(P(kind));
  }

  lemma KindsArePlain(f: AggFn, op: BinOp, cmp: CmpOp)
    ensures !IsPlain(AggKind(f)) && !IsPlain(BinKind(op)) && !IsPlain(CmpKind(cmp))
  {
  }

  lemma OptionalSpelled(kind: Kind, there: bool)
    requires !IsPlain(kind)
    ensures AllSpelled(Optional(kind, there))
  {
    hide SpellsItself, Spelling;
    if there { WordSpelled(kind); }
  }

  lemma EnclosedSpelled(ps: seq<Piece>)
    requires AllSpelled(ps)
    ensures AllSpelled(Enclosed(ps))
  {
    hide AllSpelled, Spelling;
    WordSpelled(LParen);
    WordSpelled(RParen);
    SpelledThree([P(LParen)], ps, [P(RParen)]);
  }

  lemma NameSpelled(name: string)
    requires IsName(name)
    ensures AllSpelled([Piece(IdentTok, name)])
  {
    hide IsName;
    OneSpelled(Piece(IdentTok, name));
  }

  lemma {:induction false} DecimalSpelled(v: nat)
    ensures Decimal(v) != "" && forall k :: 0 <= k < |Decimal(v)| ==> IsFigure(Decimal(v)[k])
  {
    if v >= 10 { DecimalSpelled(v / 10); }
  }

  lemma NumberSpelled(v: nat)
    ensures AllSpelled([NumberPiece(0, v)])
  {
    hide Decimal;
    DecimalSpelled(v);
    assert Zeros(0) + Decimal(v) == Decimal(v);
    OneSpelled(NumberPiece(0, v));
  }

  lemma QuoteSpelled(raw: string)
    requires Paired(raw)
    ensures CanBeCut("'" + raw + "'") && Inside("'" + raw + "'") == raw
    ensures AllSpelled([Piece(StrTok, "'" + raw + "'")])
  {
    hide Paired;
    var lex := "'" + raw + "'";
    assert lex[1..|lex| - 1] == raw;
    OneSpelled(Piece(StrTok, lex));
  }

  // ---------- terms ----------

  /** The term is grammatical, means the expression, and its tokens spell themselves. */
  predicate Fits(t: Term, e: Expr) {
    Grammatical(t) && Meaning(t) == e && AllSpelled(Pieces(t))
  }

  lemma {:induction false} TermFits(e: Expr)
    requires WfArith(e, true)
    ensures Fits(TermOf(e), e)
    decreases e, 0
  {
    hide Fits, AllSpelled, IsName, IsIdent, Paired;
    match e
    case Star => AllFits();
    case Ident(name) => NameFits(name);
    case Int(v) => NumberFits(v);
    case Str(raw) => QuoteFits(raw);
    case Agg(f, distinct, arg) =>
      if arg == Star { AllFits(); } else { TermFits(arg); ParensFit(TermOf(arg), arg); }
      AggregateFits(f, distinct, if arg == Star then All else Parens(TermOf(arg)), arg);
    case Binary(op, l, r) =>
      TermFits(l);
      TermFits(r);
      ParensFit(TermOf(r), r);
      SumFits(op, TermOf(l), l, OperandOf(r), r);
    case Call(name, args) =>
      TermsFit(args, 0);
      assert args[0..] == args;
      CallFits(name, args);
  }

  lemma AllFits()
    ensures Fits(All, Star)
  {
    hide AllSpelled, Spelling;
    WordSpelled(StarTok);
  }

  lemma NameFits(name: string)
    requires IsIdent(name)
    ensures Fits(Name(name), Ident(name))
  {
    hide AllSpelled, IsName, IsIdent;
    NameIsIdent(name);
    NameSpelled(name);
  }

  lemma NumberFits(v: nat)
    requires v <= MAX_I64
    ensures Fits(Number(0, v), Int(v))
  {
    hide AllSpelled, NumberPiece;
    NumberSpelled(v);
  }

  lemma QuoteFits(raw: string)
    requires Paired(raw)
    ensures Fits(Quote("'" + raw + "'"), Str(raw))
  {
    hide AllSpelled, Paired;
    QuoteSpelled(raw);
  }

  lemma ParensFit(t: Term, e: Expr)
    requires Fits(t, e)
    ensures Fits(Parens(t), e)
  {
    hide AllSpelled, Enclosed;
    EnclosedSpelled(Pieces(t));
  }

  lemma AggregateFits(f: AggFn, distinct: bool, t: Term, arg: Expr)
    requires Fits(t, arg) && (t == All || t.Parens?)
    requires (distinct ==> f == Count || f == ApproxDistinct) && (arg == Star ==> f == Count)
    ensures Fits(Aggregate(f, distinct, t), Agg(f, distinct, arg))
  {
    hide AllSpelled, AggKind, Spelling, Optional;
    KindsArePlain(f, Add, Eq);
    WordSpelled(AggKind(f));
    WordSpelled(LParen);
    WordSpelled(RParen);
    OptionalSpelled(KwDistinct, distinct);
    SpelledThree(Optional(KwDistinct, distinct), Pieces(t), [P(RParen)]);
    SpelledTwo([P(AggKind(f))], [P(LParen)]);
    assert [P(AggKind(f))] + [P(LParen)] == [P(AggKind(f)), P(LParen)];
    SpelledTwo([P(AggKind(f)), P(LParen)], Optional(KwDistinct, distinct) + (Pieces(t) + [P(RParen)]));
  }

  lemma SumFits(op: BinOp, t: Term, l: Expr, u: Term, r: Expr)
    requires Fits(t, l) && Fits(u, r) && !u.Sum?
    ensures Fits(Term.Sum(op, t, u), Binary(op, l, r))
  {
    hide AllSpelled, BinKind, Spelling;
    KindsArePlain(Count, op, Eq);
    WordSpelled(BinKind(op));
    SpelledThree(Pieces(t), [P(BinKind(op))], Pieces(u));
  }

  predicate AllFit(ts: seq<Term>, es: seq<Expr>) {
    AllGrammatical(ts) && Meanings(ts) == es && AllSpelled(ListPieces(ts))
  }

  lemma {:induction false} TermsFit(es: seq<Expr>, k: nat)
    requires k <= |es| && WfList(es, k, true)
    ensures AllFit(TermsOf(es[k..]), es[k..])
    decreases es, |es| - k
  {
    hide AllFit, Fits;
    if k == |es| {
      NoneFit();
    } else {
      TermFits(es[k]);
      TermsFit(es, k + 1);
      assert es[k..][1..] == es[k + 1..];
      OneMoreFits(es[k..]);
    }
  }

  lemma NoneFit()
    ensures AllFit([], [])
  {
  }

  lemma OneMoreFits(es: seq<Expr>)
    requires es != [] && Fits(TermOf(es[0]), es[0]) && AllFit(TermsOf(es[1..]), es[1..])
    ensures AllFit(TermsOf(es), es)
  {
    hide AllSpelled, Pieces, Meaning, Grammatical, TermOf, Spelling;
    var ts := TermsOf(es);
    assert ts[1..] == TermsOf(es[1..]);
    WordSpelled(Comma);
    SpelledThree(Pieces(ts[0]), [P(Comma)], ListPieces(ts[1..]));
  }

  lemma CallFits(name: string, args: seq<Expr>)
    requires IsIdent(name) && args != [] && AllFit(TermsOf(args), args)
    ensures Fits(Apply(name, TermsOf(args)), Call(name, args))
  {
    hide AllSpelled, IsName, IsIdent, Enclosed, AllGrammatical, Meanings, TermsOf, ListPieces;
    NameIsIdent(name);
    NameSpelled(name);
    EnclosedSpelled(ListPieces(TermsOf(args)));
    SpelledTwo([Piece(IdentTok, name)], Enclosed(ListPieces(TermsOf(args))));
  }

  // ---------- tests ----------

  predicate TestFits(t: Test, e: Expr) {
    GoodTest(t) && TestMeaning(t) == e && AllSpelled(TestPieces(t))
  }

  lemma PredicateFits(e: Expr)
    requires WfPred(e, true)
    ensures TestFits(TestOf(e), e)
  {
    hide AllSpelled, Grammatical, Meaning, Pieces, Spelling, WfArith, WfList, AllGrammatical, Meanings, ListPieces,
      Enclosed, Optional, CmpKind, TermOf, TermsOf;
    match e
    case Compare(cmp, l, r) =>
      TermFits(l);
      TermFits(r);
      KindsArePlain(Count, Add, cmp);
      WordSpelled(CmpKind(cmp));
      SpelledThree(Pieces(TermOf(l)), [P(CmpKind(cmp))], Pieces(TermOf(r)));
    case Like(l, p, negated) =>
      TermFits(l);
      TermFits(p);
      WordSpelled(KwLike);
      OptionalSpelled(KwNot, negated);
      SpelledThree(Optional(KwNot, negated), [P(KwLike)], Pieces(TermOf(p)));
      SpelledTwo(Pieces(TermOf(l)), Optional(KwNot, negated) + ([P(KwLike)] + Pieces(TermOf(p))));
    case In(l, vs, negated) =>
      TermFits(l);
      TermsFit(vs, 0);
      assert vs[0..] == vs;
      ManyTerms(vs);
      WordSpelled(KwIn);
      OptionalSpelled(KwNot, negated);
      var list := Enclosed(ListPieces(TermsOf(vs)));
      EnclosedSpelled(ListPieces(TermsOf(vs)));
      SpelledThree(Optional(KwNot, negated), [P(KwIn)], list);
      SpelledTwo(Pieces(TermOf(l)), Optional(KwNot, negated) + ([P(KwIn)] + list));
  }

  lemma ManyTerms(es: seq<Expr>)
    requires es != []
    ensures TermsOf(es) != []
  {
  }

  /** A condition: what its first test and the others mean together, and the tokens. */
  predicate TestsFit(tests: seq<Test>, e: Expr) {
    && tests != [] && GoodTests(tests) && Joined(TestMeaning(tests[0]), tests[1..]) == e
    && AllSpelled(TestPieces(tests[0]) + MorePieces(tests[1..]))
  }

  lemma {:induction false} JoinedMore(first: Expr, tests: seq<Test>, t: Test)
    ensures Joined(first, tests + [t]) == And(Joined(first, tests), TestMeaning(t))
    decreases |tests|
  {
    hide TestMeaning;
    if tests == [] {
      assert ([] + [t])[1..] == [];
    } else {
      assert (tests + [t])[1..] == tests[1..] + [t];
      JoinedMore(And(first, TestMeaning(tests[0])), tests[1..], t);
    }
  }

  lemma {:induction false} PiecesMore(tests: seq<Test>, t: Test)
    ensures MorePieces(tests + [t]) == MorePieces(tests) + ([P(KwAnd)] + TestPieces(t))
    decreases |tests|
  {
    hide TestPieces, Spelling;
    if tests == [] {
      assert ([] + [t])[1..] == [];
      assert TestPieces(t) + [] == TestPieces(t);
    } else {
      assert (tests + [t])[1..] == tests[1..] + [t];
      PiecesMore(tests[1..], t);
      var a, b, c := TestPieces(tests[0]), MorePieces(tests[1..]), [P(KwAnd)] + TestPieces(t);
      assert [P(KwAnd)] + (a + (b + c)) == [P(KwAnd)] + (a + b) + c;
    }
  }

  lemma {:induction false} WhereFits(e: Expr)
    requires WfWhere(e, true)
    ensures TestsFit(TestsOf(e), e)
  {
    hide TestsFit, TestFits, WfPred, TestOf;
    if e.And? {
      WhereFits(e.first);
      PredicateFits(e.second);
      AndFits(TestsOf(e.first), e.first, TestOf(e.second), e.second);
    } else {
      PredicateFits(e);
      OneTestFits(TestOf(e), e);
    }
  }

  lemma OneTestFits(t: Test, e: Expr)
    requires TestFits(t, e)
    ensures TestsFit([t], e)
  {
    hide AllSpelled, GoodTest, TestMeaning, TestPieces;
    assert [t][1..] == [];
    assert TestPieces(t) + [] == TestPieces(t);
  }

  lemma AndFits(tests: seq<Test>, l: Expr, t: Test, r: Expr)
    requires TestsFit(tests, l) && TestFits(t, r)
    ensures TestsFit(tests + [t], And(l, r))
  {
    hide AllSpelled, GoodTest, TestMeaning, TestPieces, MorePieces, Joined, Spelling;
    assert (tests + [t])[1..] == tests[1..] + [t];
    JoinedMore(TestMeaning(tests[0]), tests[1..], t);
    PiecesMore(tests[1..], t);
    WordSpelled(KwAnd);
    var a, b, c := TestPieces(tests[0]), MorePieces(tests[1..]), [P(KwAnd)] + TestPieces(t);
    SpelledTwo([P(KwAnd)], TestPieces(t));
    SpelledTwo(a + b, c);
    assert a + b + c == a + (b + c);
  }

  // ---------- clauses ----------

  lemma FilterFits(kind: Kind, pred: Option<Expr>)
    requires (kind == KwWhere || kind == KwHaving) && (pred.Some? ==> WfWhere(pred.value, true))
    ensures GoodTests(FilterOf(pred)) && FilterMeaning(FilterOf(pred)) == pred
    ensures AllSpelled(FilterPieces(kind, FilterOf(pred)))
  {
    hide AllSpelled, GoodTest, TestMeaning, TestPieces, MorePieces, Joined, Spelling, TestsOf, WfWhere;
    if pred.None? {
      NothingSpelled();
    } else {
      WhereFits(pred.value);
      var tests := TestsOf(pred.value);
      WordSpelled(kind);
      SpelledTwo([P(kind)], TestPieces(tests[0]) + MorePieces(tests[1..]));
    }
  }

  lemma NothingSpelled()
    ensures AllSpelled([])
  {
  }

  lemma {:induction false} ItemsFit(items: seq<SelectItem>)
    requires forall i :: 0 <= i < |items| ==> WfItem(items[i], true)
    ensures GoodItems(ItemsOf(items)) && ItemMeanings(ItemsOf(items)) == items
    ensures AllSpelled(SelectPieces(ItemsOf(items)))
  {
    hide AllSpelled, Grammatical, Meaning, ItemPieces, Spelling, TermOf, IsName, WfItem;
    if items == [] {
      NothingSpelled();
    } else {
      var forms := ItemsOf(items);
      assert forms[1..] == ItemsOf(items[1..]);
      ItemFits(items[0]);
      ItemsFit(items[1..]);
      WordSpelled(Comma);
      SpelledThree(ItemPieces(forms[0]), [P(Comma)], SelectPieces(forms[1..]));
    }
  }

  lemma ItemFits(item: SelectItem)
    requires WfItem(item, true)
    ensures
      var i := Item(TermOf(item.expr), item.alias);
      && Grammatical(i.term) && (i.alias.Some? ==> IsName(i.alias.value)) && ItemMeaning(i) == item
      && AllSpelled(ItemPieces(i))
  {
    hide AllSpelled, Grammatical, Meaning, Pieces, Spelling, TermOf, IsName, IsIdent, WfArith;
    TermFits(item.expr);
    if item.alias.Some? {
      NameIsIdent(item.alias.value);
      NameSpelled(item.alias.value);
      WordSpelled(KwAs);
      var name := Piece(IdentTok, item.alias.value);
      SpelledTwo([P(KwAs)], [name]);
      assert [P(KwAs)] + [name] == [P(KwAs), name];
      SpelledTwo(Pieces(TermOf(item.expr)), [P(KwAs), name]);
    } else {
      assert Pieces(TermOf(item.expr)) + [] == Pieces(TermOf(item.expr));
    }
  }

  lemma {:induction false} KeysFit(items: seq<OrderItem>)
    requires forall i :: 0 <= i < |items| ==> WfArith(items[i].expr, true)
    ensures GoodKeys(KeysOf(items)) && KeyMeanings(KeysOf(items)) == items
    ensures AllSpelled(OrderPieces(KeysOf(items)))
  {
    hide AllSpelled, Grammatical, Meaning, KeyPieces, Spelling, TermOf, WfArith;
    if items == [] {
      NothingSpelled();
    } else {
      var keys := KeysOf(items);
      assert keys[1..] == KeysOf(items[1..]);
      KeyFits(items[0]);
      KeysFit(items[1..]);
      WordSpelled(Comma);
      SpelledThree(KeyPieces(keys[0]), [P(Comma)], OrderPieces(keys[1..]));
    }
  }

  lemma KeyFits(item: OrderItem)
    requires WfArith(item.expr, true)
    ensures
      var k := Key(TermOf(item.expr), if item.desc then Descending else Unsaid);
      Grammatical(k.term) && KeyMeaning(k) == item && AllSpelled(KeyPieces(k))
  {
    hide AllSpelled, Grammatical, Meaning, Pieces, Spelling, TermOf, WfArith, Optional;
    TermFits(item.expr);
    OptionalSpelled(KwAsc, false);
    OptionalSpelled(KwDesc, item.desc);
    SpelledThree(Pieces(TermOf(item.expr)), Optional(KwAsc, false), Optional(KwDesc, item.desc));
  }

  lemma GroupFits(es: seq<Expr>)
    requires WfList(es, 0, true)
    ensures AllGrammatical(TermsOf(es)) && Meanings(TermsOf(es)) == es && AllSpelled(GroupPieces(TermsOf(es)))
  {
    hide AllSpelled, Grammatical, Meaning, ListPieces, Spelling, TermsOf, WfList, AllGrammatical, Meanings;
    TermsFit(es, 0);
    assert es[0..] == es;
    NothingSpelled();
    TwoWordsSpelled(KwGroup, KwBy, ListPieces(TermsOf(es)));
  }

  lemma TwoWordsSpelled(first: Kind, second: Kind, rest: seq<Piece>)
    requires !IsPlain(first) && !IsPlain(second) && AllSpelled(rest)
    ensures AllSpelled([P(first), P(second)] + rest)
  {
    hide AllSpelled, Spelling;
    WordSpelled(first);
    WordSpelled(second);
    SpelledTwo([P(first)], [P(second)]);
    assert [P(first)] + [P(second)] == [P(first), P(second)];
    SpelledTwo([P(first), P(second)], rest);
  }

  lemma OrderFits(items: seq<OrderItem>)
    requires forall i :: 0 <= i < |items| ==> WfArith(items[i].expr, true)
    ensures AllSpelled(OrderByPieces(KeysOf(items)))
  {
    hide AllSpelled, OrderPieces, Spelling, KeysOf, WfArith;
    KeysFit(items);
    NothingSpelled();
    TwoWordsSpelled(KwOrder, KwBy, OrderPieces(KeysOf(items)));
  }

  lemma CountFits(kind: Kind, n: Option<nat>)
    requires (kind == KwOffset || kind == KwLimit) && (n.Some? ==> n.value <= MAX_U64)
    ensures GoodCount(CountOf(n)) && CountMeaning(CountOf(n)) == n && AllSpelled(CountPieces(kind, CountOf(n)))
  {
    hide AllSpelled, Spelling, NumberPiece;
    if n.None? {
      NothingSpelled();
    } else {
      NumberSpelled(n.value);
      WordSpelled(kind);
      SpelledTwo([P(kind)], [NumberPiece(0, n.value)]);
      assert [P(kind)] + [NumberPiece(0, n.value)] == [P(kind), NumberPiece(0, n.value)];
    }
  }

  lemma FormFits(q: Query)
    requires WfQuery(q, true)
    ensures GoodForm(FormOf(q)) && QueryMeaning(FormOf(q)) == q
  {
    hide AllSpelled, ItemsOf, TermsOf, KeysOf, FilterOf, CountOf, WfItem, WfWhere, WfArith, GoodItems, GoodTests,
      AllGrammatical, GoodKeys, GoodCount, IsName, IsIdent, ItemMeanings, Meanings, KeyMeanings, FilterMeaning,
      CountMeaning;
    ItemsFit(q.select);
    NameIsIdent(q.from);
    FilterFits(KwWhere, q.where_);
    WfListAll(q.groupBy, 0, true);
    GroupFits(q.groupBy);
    FilterFits(KwHaving, q.having);
    KeysFit(q.orderBy);
    CountFits(KwOffset, q.offset);
    CountFits(KwLimit, q.limit);
  }

  lemma FormSpelled(q: Query)
    requires WfQuery(q, true)
    ensures AllSpelled(QueryPieces(FormOf(q)))
  {
    hide AllSpelled, ItemsOf, TermsOf, KeysOf, FilterOf, CountOf, WfItem, WfWhere, WfArith, IsIdent, IsName, Spelling;
    hide SelectPieces, FilterPieces, GroupPieces, OrderByPieces, CountPieces;
    var f := FormOf(q);
    NothingSpelled();
    CountFits(KwLimit, q.limit);
    SpelledTwo(CountPieces(KwLimit, f.limit), EndTail(f));
    CountFits(KwOffset, q.offset);
    SpelledTwo(CountPieces(KwOffset, f.offset), LimitTail(f));
    OrderFits(q.orderBy);
    SpelledTwo(OrderByPieces(f.orderBy), OffsetTail(f));
    FilterFits(KwHaving, q.having);
    SpelledTwo(FilterPieces(KwHaving, f.having), OrderTail(f));
    WfListAll(q.groupBy, 0, true);
    GroupFits(q.groupBy);
    SpelledTwo(GroupPieces(f.groupBy), HavingTail(f));
    FilterFits(KwWhere, q.where_);
    SpelledTwo(FilterPieces(KwWhere, f.where_), GroupTail(f));
    HeadSpelled(f, q);
  }

  lemma HeadSpelled(f: Form, q: Query)
    requires WfQuery(q, true) && f == FormOf(q) && AllSpelled(WhereTail(f))
    ensures AllSpelled(QueryPieces(f))
  {
    hide AllSpelled, ItemsOf, WfItem, WfWhere, WfArith, IsIdent, IsName, Spelling, SelectPieces, WhereTail, FormOf;
    assert f.select == ItemsOf(q.select) && f.from == q.from by { FormStarts(q); }
    NameIsIdent(q.from);
    NameSpelled(q.from);
    WordSpelled(KwFrom);
    WordSpelled(KwSelect);
    var table := Piece(IdentTok, f.from);
    SpelledTwo([P(KwFrom)], [table]);
    assert [P(KwFrom)] + [table] == [P(KwFrom), table];
    SpelledTwo([P(KwFrom), table], WhereTail(f));
    ItemsFit(q.select);
    SpelledThree([P(KwSelect)], SelectPieces(f.select), FromTail(f));
  }

  lemma FormStarts(q: Query)
    ensures FormOf(q).select == ItemsOf(q.select) && FormOf(q).from == q.from
  {
  }

  // ---------- texts ----------

  lemma {:induction false} WordsSpell(ps: seq<Piece>)
    requires AllSpelled(ps)
    ensures SpelledOut(WordsOf(ps), ps)
    decreases |ps|
  {
    hide Spells, Closed, RunsOn;
    if ps == [] {
    } else {
      WordsSpell(ps[1..]);
      assert WordsOf(ps)[1..] == WordsOf(ps[1..]);
      assert SpellsItself(ps[0]);
    }
  }

  /** Printing a well-formed query writes it, and so the text is parsed to that query. */
  lemma PrintThenParse(q: Query)
    requires WfQuery(q, true)
    ensures Writes(Print(q), FormOf(q), "", WordsOf(QueryPieces(FormOf(q))))
    ensures ParseSql(Print(q)) == Ok(q)
  {
    hide WfQuery, FormOf, QueryPieces, GoodForm, QueryMeaning, AllSpelled, SpelledOut, Text, ParseSql;
    FormFits(q);
    FormSpelled(q);
    WordsSpell(QueryPieces(FormOf(q)));
    WrittenIsParsed(Print(q), FormOf(q), "", WordsOf(QueryPieces(FormOf(q))));
  }

  /**
   What the parser accepts can be printed and parsed again: for every accepted text whose string literals keep their
   quotes in pairs, the printed text of the result is accepted with the same result.
   */
  lemma ParseThenPrint(s: string)
    requires ParseSql(s).Ok? && WfQuery(ParseSql(s).value, true)
    ensures ParseSql(Print(ParseSql(s).value)) == ParseSql(s)
  {
    hide ParseSql, Print, WfQuery;
    PrintThenParse(ParseSql(s).value);
  }
}
