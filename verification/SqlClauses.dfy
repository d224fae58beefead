/** Clauses that are written are parsed. */
module SqlClauses {
  import opened SqlAst
  import opened SqlGrammar
  import opened SqlLexer
  import opened SqlParser
  import opened SqlRoundTrip
  import opened SqlTokens
  import opened Wrappers

  // One parser function after the other: where the tokens of a test, a list of items or a clause stand, and what
  // follows cannot be taken for their continuation, it returns their meaning and stops behind them. A clause that is
  // not there is known by the rank of what comes instead.

  // ---------- tests ----------

  ghost predicate TestIs(s: string, st: State, e: Expr, end: State) {
    Valid(s, st) && Valid(s, end) && WfPred(e, false) && ParsePredicate(s, st) == Ok((e, end))
  }

  lemma CmpKindBack(cmp: CmpOp)
    ensures CmpOf(CmpKind(cmp)) == Some(cmp) && Ends(CmpKind(cmp))
    ensures CmpKind(cmp) != KwNot && CmpKind(cmp) != KwLike && CmpKind(cmp) != KwIn
  {
  }

  lemma WordsEnd()
    ensures Ends(KwNot) && Ends(KwLike) && Ends(KwIn) && Ends(KwAnd) && Ends(Comma) && Ends(KwAs) && Ends(KwFrom)
      && Ends(KwAsc) && Ends(KwDesc)
  {
  }

  lemma TermsList(ts: seq<Term>)
    requires AllGrammatical(ts)
    ensures WfList(Meanings(ts), 0, false)
  {
    hide WfArith, Grammatical, WfList;
    TermsWf(ts);
    WfListAll(Meanings(ts), 0, false);
  }

  lemma CompareParses(s: string, st: State, cmp: CmpOp, l: Term, r: Term, end: State)
    requires Grammatical(l) && Grammatical(r) && Ends(end.cur.kind)
    requires Reads(s, st, Pieces(l) + ([P(CmpKind(cmp))] + Pieces(r)), end)
    ensures TestIs(s, st, Compare(cmp, Meaning(l), Meaning(r)), end)
  {
    hide *;
    var mid := ReadsSplit(s, st, Pieces(l), [P(CmpKind(cmp))] + Pieces(r), end);
    var next := Moved(s, mid, P(CmpKind(cmp)), Pieces(r), end);
    KindIs(mid.cur, P(CmpKind(cmp)));
    PKind(CmpKind(cmp));
    CmpKindBack(cmp);
    WholeParses(s, st, l, mid);
    WholeParses(s, next, r, end);
    TermWf(l);
    TermWf(r);
    CompareIs(s, st, cmp, Meaning(l), mid, next, Meaning(r), end);
  }

  lemma CompareIs(s: string, st: State, cmp: CmpOp, l: Expr, mid: State, next: State, r: Expr, end: State)
    requires WholeIs(s, st, l, mid) && CmpOf(mid.cur.kind) == Some(cmp) && Bump(s, mid) == Ok(next)
    requires mid.cur.kind != KwNot && mid.cur.kind != KwLike && mid.cur.kind != KwIn
    requires WholeIs(s, next, r, end) && WfArith(l, false) && WfArith(r, false)
    ensures TestIs(s, st, Compare(cmp, l, r), end)
  {
    hide Valid, ParseExprBp, Bump, WfArith, CmpOf, ParseLike, ParseIn;
  }

  /** The left operand of LIKE or IN, NOT or not, and the word itself. */
  lemma OperandRead(s: string, st: State, l: Term, negated: bool, word: Kind, rest: seq<Piece>, end: State)
    returns (mid: State, at: State, next: State)
    requires Grammatical(l) && (word == KwLike || word == KwIn)
    requires Reads(s, st, Pieces(l) + (Optional(KwNot, negated) + ([P(word)] + rest)), end)
    ensures WholeIs(s, st, Meaning(l), mid) && (negated <==> mid.cur.kind == KwNot) && Valid(s, mid)
    ensures if negated then Bump(s, mid) == Ok(at) else at == mid
    ensures Valid(s, at) && at.cur.kind == word && Bump(s, at) == Ok(next)
    ensures Valid(s, next) && Reads(s, next, rest, end)
  {
    hide *;
    mid := ReadsSplit(s, st, Pieces(l), Optional(KwNot, negated) + ([P(word)] + rest), end);
    at := Maybe(s, mid, KwNot, negated, [P(word)] + rest, end);
    next := Moved(s, at, P(word), rest, end);
    KindIs(at.cur, P(word));
    PKind(word);
    WordsEnd();
    WholeParses(s, st, l, mid);
  }

  lemma LikeParses(s: string, st: State, l: Term, negated: bool, p: Term, end: State)
    requires Grammatical(l) && Grammatical(p) && Ends(end.cur.kind)
    requires Reads(s, st, Pieces(l) + (Optional(KwNot, negated) + ([P(KwLike)] + Pieces(p))), end)
    ensures TestIs(s, st, Like(Meaning(l), Meaning(p), negated), end)
  {
    hide *;
    var mid, at, next := OperandRead(s, st, l, negated, KwLike, Pieces(p), end);
    WholeParses(s, next, p, end);
    TermWf(l);
    TermWf(p);
    LikeIs(s, st, Meaning(l), mid, negated, at, next, Meaning(p), end);
  }

  lemma LikeIs(s: string, st: State, l: Expr, mid: State, negated: bool, at: State, next: State, p: Expr, end: State)
    requires WholeIs(s, st, l, mid) && (negated <==> mid.cur.kind == KwNot)
    requires if negated then Bump(s, mid) == Ok(at) else at == mid
    requires Valid(s, at) && at.cur.kind == KwLike && Bump(s, at) == Ok(next) && WholeIs(s, next, p, end)
    requires WfArith(l, false) && WfArith(p, false)
    ensures TestIs(s, st, Like(l, p, negated), end)
  {
    hide Valid, ParseExprBp, Bump, WfArith, ParseIn, ParseCompare;
  }

  lemma InParses(s: string, st: State, l: Term, negated: bool, vs: seq<Term>, end: State)
    requires Grammatical(l) && vs != [] && AllGrammatical(vs)
    requires Reads(s, st, Pieces(l) + (Optional(KwNot, negated) + ([P(KwIn)] + Enclosed(ListPieces(vs)))), end)
    ensures TestIs(s, st, In(Meaning(l), Meanings(vs), negated), end)
  {
    hide *;
    var mid, at, open := OperandRead(s, st, l, negated, KwIn, Enclosed(ListPieces(vs)), end);
    var list, last := EnclosedRead(s, open, ListPieces(vs), end);
    ListParses(s, list, vs, last);
    TermWf(l);
    TermsList(vs);
    ManyMeanings(vs);
    InIs(s, st, Meaning(l), mid, negated, at, open, list, Meanings(vs), last, end);
  }

  lemma ManyMeanings(ts: seq<Term>)
    requires ts != []
    ensures Meanings(ts) != []
  {
  }

  lemma InIs(s: string, st: State, l: Expr, mid: State, negated: bool, at: State, open: State, list: State,
        vs: seq<Expr>, last: State, end: State)
    requires WholeIs(s, st, l, mid) && (negated <==> mid.cur.kind == KwNot)
    requires if negated then Bump(s, mid) == Ok(at) else at == mid
    requires Valid(s, at) && at.cur.kind == KwIn && Bump(s, at) == Ok(open)
    requires Valid(s, open) && Expect(s, open, LParen) == Ok(list) && ListIs(s, list, vs, last)
    requires Expect(s, last, RParen) == Ok(end) && Valid(s, end)
    requires WfArith(l, false) && vs != [] && WfList(vs, 0, false)
    ensures TestIs(s, st, In(l, vs, negated), end)
  {
    hide Valid, ParseExprBp, ParseExprList, Bump, Expect, WfArith, WfList, ParseLike, ParseCompare;
    assert ParseIn(s, at, l, negated) == Ok((In(l, vs, negated), end));
  }

  lemma TestParses(s: string, st: State, t: Test, end: State)
    requires GoodTest(t) && Reads(s, st, TestPieces(t), end) && Ends(end.cur.kind)
    ensures TestIs(s, st, TestMeaning(t), end)
  {
    hide Reads, Pieces, Grammatical, ListPieces, TestIs, Ends, CmpKind, Spelling, Meaning, Meanings;
    match t
    case Compares(cmp, l, r) => CompareParses(s, st, cmp, l, r, end);
    case IsLike(l, negated, p) => LikeParses(s, st, l, negated, p, end);
    case IsIn(l, negated, vs) => InParses(s, st, l, negated, vs, end);
  }

  // ---------- tests joined by AND ----------

  /** After the first tests the parser goes through the others. */
  lemma {:induction false} MoreParses(s: string, st: State, first: Expr, tests: seq<Test>, end: State)
    requires GoodTests(tests) && WfWhere(first, false) && Reads(s, st, MorePieces(tests), end)
    requires Ends(end.cur.kind) && end.cur.kind != KwAnd
    ensures Valid(s, st) && ParseAndTail(s, st, first) == Ok((Joined(first, tests), end))
    decreases |tests|
  {
    hide Reads, TestPieces, GoodTest, TestIs, Ends, TestMeaning, Bump, ParsePredicate, Valid, WfPred, Stands, Spelling;
    ReadsValid(s, st, MorePieces(tests), end);
    if tests == [] {
      NoneRead(s, st, end);
    } else {
      var next := Moved(s, st, P(KwAnd), TestPieces(tests[0]) + MorePieces(tests[1..]), end);
      KindIs(st.cur, P(KwAnd));
      var mid := ReadsSplit(s, next, TestPieces(tests[0]), MorePieces(tests[1..]), end);
      MoreEnds(s, mid, tests[1..], end);
      TestParses(s, next, tests[0], mid);
      TestIsWf(s, next, TestMeaning(tests[0]), mid);
      MoreParses(s, mid, And(first, TestMeaning(tests[0])), tests[1..], end);
    }
  }

  lemma NoneRead(s: string, st: State, end: State)
    requires Reads(s, st, [], end)
    ensures st == end
  {
  }

  lemma TestIsWf(s: string, st: State, e: Expr, end: State)
    requires TestIs(s, st, e, end)
    ensures Valid(s, st) && Valid(s, end) && WfPred(e, false) && ParsePredicate(s, st) == Ok((e, end))
  {
  }

  /** What follows a test: another one or the end. */
  lemma MoreEnds(s: string, st: State, tests: seq<Test>, end: State)
    requires Reads(s, st, MorePieces(tests), end) && Ends(end.cur.kind)
    ensures Ends(st.cur.kind)
  {
    hide Reads, TestPieces, Valid, Bump;
    if tests == [] {
      NoneRead(s, st, end);
    } else {
      var next := Moved(s, st, P(KwAnd), TestPieces(tests[0]) + MorePieces(tests[1..]), end);
      KindIs(st.cur, P(KwAnd));
    }
  }

  // ---------- what comes after a clause ----------

  /** Clause keywords in the order the clauses come; zero for anything else. */
  function Rank(kind: Kind): nat {
    match kind
    case KwWhere => 1 case KwGroup => 2 case KwHaving => 3 case KwOrder => 4 case KwOffset => 5 case KwLimit => 6
    case Semi => 7 case Eof => 8
    case _ => 0
  }

  lemma RankEnds(kind: Kind)
    requires Rank(kind) >= 1
    ensures Ends(kind) && kind !in {Comma, KwAnd, KwAs, KwDesc, KwAsc}
  {
  }

  ghost predicate FilterIs(s: string, st: State, kind: Kind, pred: Option<Expr>, end: State) {
    Valid(s, st) && Valid(s, end) && ParseFilter(s, st, kind) == Ok((pred, end))
  }

  lemma FilterParses(s: string, st: State, kind: Kind, tests: seq<Test>, end: State)
    requires (kind == KwWhere || kind == KwHaving) && GoodTests(tests) && Reads(s, st, FilterPieces(kind, tests), end)
    requires Rank(end.cur.kind) > Rank(kind)
    ensures FilterIs(s, st, kind, FilterMeaning(tests), end)
  {
    hide Reads, TestPieces, MorePieces, GoodTest, TestIs, Ends, TestMeaning, Bump, ParseAnd, Valid, WfPred, Stands,
      Spelling, ParsePredicate, ParseAndTail, Joined;
    ReadsValid(s, st, FilterPieces(kind, tests), end);
    RankEnds(end.cur.kind);
    if tests == [] {
      NoneRead(s, st, end);
    } else {
      var next := Moved(s, st, P(kind), TestPieces(tests[0]) + MorePieces(tests[1..]), end);
      KindIs(st.cur, P(kind));
      var mid := ReadsSplit(s, next, TestPieces(tests[0]), MorePieces(tests[1..]), end);
      MoreEnds(s, mid, tests[1..], end);
      TestParses(s, next, tests[0], mid);
      TestIsWf(s, next, TestMeaning(tests[0]), mid);
      PredIsWhere(TestMeaning(tests[0]));
      MoreParses(s, mid, TestMeaning(tests[0]), tests[1..], end);
      AndIs(s, next, TestMeaning(tests[0]), mid, Joined(TestMeaning(tests[0]), tests[1..]), end);
    }
  }

  lemma PredIsWhere(e: Expr)
    requires WfPred(e, false)
    ensures WfWhere(e, false)
  {
    hide WfArith, WfList;
  }

  lemma AndIs(s: string, st: State, first: Expr, mid: State, e: Expr, end: State)
    requires Valid(s, st) && ParsePredicate(s, st) == Ok((first, mid)) && Valid(s, mid) && WfWhere(first, false)
    requires ParseAndTail(s, mid, first) == Ok((e, end))
    ensures ParseAnd(s, st) == Ok((e, end))
  {
    hide Valid, ParsePredicate, ParseAndTail, WfWhere;
  }

  // ---------- select lists ----------

  ghost predicate ItemIs(s: string, st: State, item: SelectItem, end: State) {
    Valid(s, st) && Valid(s, end) && ParseSelectItem(s, st) == Ok((item, end))
  }

  lemma ItemParses(s: string, st: State, i: Item, end: State)
    requires Grammatical(i.term) && Reads(s, st, ItemPieces(i), end) && Ends(end.cur.kind) && end.cur.kind != KwAs
    ensures ItemIs(s, st, ItemMeaning(i), end)
  {
    hide Reads, Pieces, Grammatical, Ends, Meaning, Bump, Valid, WfArith, Spelling, ParseExprBp;
    ReadsValid(s, st, ItemPieces(i), end);
    if i.alias.None? {
      assert Pieces(i.term) + [] == Pieces(i.term);
      WholeParses(s, st, i.term, end);
    } else {
      var name := Piece(IdentTok, i.alias.value);
      assert [P(KwAs), name] == [P(KwAs)] + [name];
      var mid := ReadsSplit(s, st, Pieces(i.term), [P(KwAs)] + [name], end);
      var next := Moved(s, mid, P(KwAs), [name], end);
      KindIs(mid.cur, P(KwAs));
      Last(s, next, name, end);
      WordsEnd();
      WholeParses(s, st, i.term, mid);
      assert ParseIdent(s, next) == Ok((i.alias.value, end));
    }
  }

  ghost predicate SelectIs(s: string, st: State, items: seq<SelectItem>, end: State) {
    Valid(s, st) && Valid(s, end) && ParseSelectList(s, st) == Ok((items, end))
  }

  lemma {:induction false} SelectParses(s: string, st: State, items: seq<Item>, end: State)
    requires items != [] && GoodItems(items) && Reads(s, st, SelectPieces(items), end) && end.cur.kind == KwFrom
    ensures SelectIs(s, st, ItemMeanings(items), end)
    decreases |items|
  {
    hide Reads, ItemPieces, Ends, ItemMeaning, ItemIs, SelectIs, Bump, Valid, Spelling, Grammatical, IsName, Stands;
    WordsEnd();
    if |items| == 1 {
      ItemParses(s, st, items[0], end);
      SelectOne(s, st, ItemMeaning(items[0]), end);
      assert ItemMeanings(items) == [ItemMeaning(items[0])];
    } else {
      var mid := ReadsSplit(s, st, ItemPieces(items[0]), [P(Comma)] + SelectPieces(items[1..]), end);
      var next := Moved(s, mid, P(Comma), SelectPieces(items[1..]), end);
      KindIs(mid.cur, P(Comma));
      ItemParses(s, st, items[0], mid);
      SelectParses(s, next, items[1..], end);
      SelectMore(s, st, ItemMeaning(items[0]), mid, next, ItemMeanings(items[1..]), end);
    }
  }

  lemma SelectOne(s: string, st: State, item: SelectItem, end: State)
    requires ItemIs(s, st, item, end) && end.cur.kind != Comma
    ensures SelectIs(s, st, [item], end)
  {
    hide Valid, ParseSelectItem;
  }

  lemma SelectMore(s: string, st: State, item: SelectItem, mid: State, next: State, items: seq<SelectItem>, end: State)
    requires ItemIs(s, st, item, mid) && mid.cur.kind == Comma && Bump(s, mid) == Ok(next)
    requires SelectIs(s, next, items, end)
    ensures SelectIs(s, st, [item] + items, end)
  {
    hide Valid, ParseSelectItem, Bump;
  }

  // ---------- ORDER BY ----------

  ghost predicate KeyIs(s: string, st: State, item: OrderItem, end: State) {
    Valid(s, st) && Valid(s, end) && ParseOrderItem(s, st) == Ok((item, end))
  }

  lemma KeyParses(s: string, st: State, k: Key, end: State)
    requires Grammatical(k.term) && Reads(s, st, KeyPieces(k), end)
    requires Ends(end.cur.kind) && end.cur.kind != KwAsc && end.cur.kind != KwDesc
    ensures KeyIs(s, st, KeyMeaning(k), end)
  {
    hide Reads, Pieces, Grammatical, Ends, Meaning, Bump, Valid, WfArith, Spelling, ParseExprBp;
    var asc, desc := k.direction == Ascending, k.direction == Descending;
    var mid := ReadsSplit(s, st, Pieces(k.term), Optional(KwAsc, asc) + Optional(KwDesc, desc), end);
    var next := Maybe(s, mid, KwAsc, asc, Optional(KwDesc, desc), end);
    assert Optional(KwDesc, desc) + [] == Optional(KwDesc, desc);
    var last := Maybe(s, next, KwDesc, desc, [], end);
    NoneRead(s, last, end);
    WordsEnd();
    WholeParses(s, st, k.term, mid);
  }

  ghost predicate OrderIs(s: string, st: State, items: seq<OrderItem>, end: State) {
    Valid(s, st) && Valid(s, end) && ParseOrderList(s, st) == Ok((items, end))
  }

  lemma {:induction false} OrderParses(s: string, st: State, keys: seq<Key>, end: State)
    requires keys != [] && GoodKeys(keys) && Reads(s, st, OrderPieces(keys), end) && Rank(end.cur.kind) >= 1
    ensures OrderIs(s, st, KeyMeanings(keys), end)
    decreases |keys|
  {
    hide Reads, KeyPieces, Ends, KeyMeaning, KeyIs, OrderIs, Bump, Valid, Spelling, Grammatical, Stands;
    RankEnds(end.cur.kind);
    if |keys| == 1 {
      KeyParses(s, st, keys[0], end);
      OrderOne(s, st, KeyMeaning(keys[0]), end);
      assert KeyMeanings(keys) == [KeyMeaning(keys[0])];
    } else {
      var mid := ReadsSplit(s, st, KeyPieces(keys[0]), [P(Comma)] + OrderPieces(keys[1..]), end);
      var next := Moved(s, mid, P(Comma), OrderPieces(keys[1..]), end);
      KindIs(mid.cur, P(Comma));
      WordsEnd();
      KeyParses(s, st, keys[0], mid);
      OrderParses(s, next, keys[1..], end);
      OrderMore(s, st, KeyMeaning(keys[0]), mid, next, KeyMeanings(keys[1..]), end);
    }
  }

  lemma OrderOne(s: string, st: State, item: OrderItem, end: State)
    requires KeyIs(s, st, item, end) && end.cur.kind != Comma
    ensures OrderIs(s, st, [item], end)
  {
    hide Valid, ParseOrderItem;
  }

  lemma OrderMore(s: string, st: State, item: OrderItem, mid: State, next: State, items: seq<OrderItem>, end: State)
    requires KeyIs(s, st, item, mid) && mid.cur.kind == Comma && Bump(s, mid) == Ok(next)
    requires OrderIs(s, next, items, end)
    ensures OrderIs(s, st, [item] + items, end)
  {
    hide Valid, ParseOrderItem, Bump;
  }

  // ---------- the other clauses ----------

  /** The two words of GROUP BY or ORDER BY. */
  lemma TwoWords(s: string, st: State, first: Kind, second: Kind, rest: seq<Piece>, end: State)
    returns (mid: State, next: State)
    requires Reads(s, st, [P(first), P(second)] + rest, end)
    ensures Valid(s, st) && st.cur.kind == first && Bump(s, st) == Ok(mid)
    ensures Valid(s, mid) && Expect(s, mid, second) == Ok(next) && Reads(s, next, rest, end)
  {
    hide *;
    assert [P(first), P(second)] + rest == [P(first)] + ([P(second)] + rest);
    mid := Moved(s, st, P(first), [P(second)] + rest, end);
    KindIs(st.cur, P(first));
    PKind(first);
    next := Moved(s, mid, P(second), rest, end);
    PKind(second);
  }

  ghost predicate GroupIs(s: string, st: State, es: seq<Expr>, end: State) {
    Valid(s, st) && Valid(s, end) && ParseGroupBy(s, st) == Ok((es, end))
  }

  lemma GroupParses(s: string, st: State, ts: seq<Term>, end: State)
    requires AllGrammatical(ts) && Reads(s, st, GroupPieces(ts), end) && Rank(end.cur.kind) > 2
    ensures GroupIs(s, st, Meanings(ts), end)
  {
    hide Reads, ListPieces, AllGrammatical, Ends, Bump, Expect, Valid, Spelling, ParseExprList;
    ReadsValid(s, st, GroupPieces(ts), end);
    if ts == [] {
      NoneRead(s, st, end);
    } else {
      var mid, next := TwoWords(s, st, KwGroup, KwBy, ListPieces(ts), end);
      RankEnds(end.cur.kind);
      ListParses(s, next, ts, end);
    }
  }

  ghost predicate OrderByIs(s: string, st: State, items: seq<OrderItem>, end: State) {
    Valid(s, st) && Valid(s, end) && ParseOrderBy(s, st) == Ok((items, end))
  }

  lemma OrderByParses(s: string, st: State, keys: seq<Key>, end: State)
    requires GoodKeys(keys) && Reads(s, st, OrderByPieces(keys), end) && Rank(end.cur.kind) > 4
    ensures OrderByIs(s, st, KeyMeanings(keys), end)
  {
    hide Reads, OrderPieces, GoodKeys, Ends, Bump, Expect, Valid, Spelling, ParseOrderList;
    ReadsValid(s, st, OrderByPieces(keys), end);
    if keys == [] {
      NoneRead(s, st, end);
    } else {
      var mid, next := TwoWords(s, st, KwOrder, KwBy, OrderPieces(keys), end);
      OrderParses(s, next, keys, end);
    }
  }

  ghost predicate CountIs(s: string, st: State, kind: Kind, n: Option<nat>, end: State) {
    Valid(s, st) && Valid(s, end) && ParseCount(s, st, kind) == Ok((n, end))
  }

  lemma CountParses(s: string, st: State, kind: Kind, n: Option<Numeral>, end: State)
    requires (kind == KwOffset || kind == KwLimit) && GoodCount(n) && Reads(s, st, CountPieces(kind, n), end)
    requires Rank(end.cur.kind) > Rank(kind)
    ensures CountIs(s, st, kind, CountMeaning(n), end)
  {
    hide Reads, Bump, Spelling, Decimal, Zeros, NumberPiece;
    ReadsValid(s, st, CountPieces(kind, n), end);
    if n.None? {
      NoneRead(s, st, end);
    } else {
      var figures := NumberPiece(n.value.zeros, n.value.value);
      assert [P(kind), figures] == [P(kind)] + [figures];
      var next := Moved(s, st, P(kind), [figures], end);
      Last(s, next, figures, end);
      NumeralIs(n.value.zeros, n.value.value);
      FiguresStand(next.cur, n.value.zeros, n.value.value);
      assert ParseU64(s, next) == Ok((n.value.value, end));
    }
  }

  lemma FiguresStand(tok: Tok, zeros: nat, value: nat)
    requires Stands(tok, NumberPiece(zeros, value))
    ensures tok.kind == IntTok && tok.lex == NumberPiece(zeros, value).lex
  {
    hide Decimal, Zeros;
  }
}
