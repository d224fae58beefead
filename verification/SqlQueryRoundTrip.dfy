/** The parser accepts what the grammar writes. */
module SqlQueryRoundTrip {
  import opened SqlAst
  import opened SqlClauses
  import opened SqlForms
  import opened SqlGrammar
  import opened SqlLexer
  import opened SqlParser
  import opened SqlRoundTrip
  import opened SqlTokens
  import opened Wrappers

  // Accepted texts are exactly those that write a query in some form, in any case and with any white space, and the
  // result is what the form means.

  // ---------- written queries are parsed ----------

  /** A clause that is there starts with its word; one that is not leaves the state alone. */
  lemma StartsWith(s: string, st: State, clause: seq<Piece>, kind: Kind, mid: State)
    requires Reads(s, st, clause, mid) && (clause != [] ==> clause[0].kind == kind)
    ensures st.cur.kind == kind || st == mid
  {
    hide Valid, Bump;
  }

  lemma FilterStarts(s: string, st: State, kind: Kind, tests: seq<Test>, mid: State)
    requires Reads(s, st, FilterPieces(kind, tests), mid)
    ensures st.cur.kind == kind || st == mid
  {
    hide Reads, TestPieces, MorePieces, Spelling;
    StartsWith(s, st, FilterPieces(kind, tests), kind, mid);
  }

  lemma GroupStarts(s: string, st: State, ts: seq<Term>, mid: State)
    requires Reads(s, st, GroupPieces(ts), mid)
    ensures st.cur.kind == KwGroup || st == mid
  {
    hide Reads, ListPieces;
    StartsWith(s, st, GroupPieces(ts), KwGroup, mid);
  }

  lemma OrderStarts(s: string, st: State, keys: seq<Key>, mid: State)
    requires Reads(s, st, OrderByPieces(keys), mid)
    ensures st.cur.kind == KwOrder || st == mid
  {
    hide Reads, OrderPieces;
    StartsWith(s, st, OrderByPieces(keys), KwOrder, mid);
  }

  lemma CountStarts(s: string, st: State, kind: Kind, n: Option<Numeral>, mid: State)
    requires Reads(s, st, CountPieces(kind, n), mid)
    ensures st.cur.kind == kind || st == mid
  {
    hide Reads, NumberPiece, Spelling;
    StartsWith(s, st, CountPieces(kind, n), kind, mid);
  }

  lemma SemicolonStarts(s: string, st: State, there: bool, mid: State)
    requires Reads(s, st, Optional(Semi, there), mid)
    ensures if there then st.cur.kind == Semi && Valid(s, st) && Bump(s, st) == Ok(mid) else st == mid
  {
    hide Reads, Valid, Bump;
    if there {
      Last(s, st, P(Semi), mid);
      KindIs(st.cur, P(Semi));
    } else {
      NoneRead(s, st, mid);
    }
  }

  /** The states of the parser between the clauses. */
  datatype Places = Places(
    where_: State, group: State, having: State, order: State, offset: State, limit: State, semicolon: State)

  /** The parser takes the clauses one after the other. */
  ghost predicate ClausesAre(s: string, q: Query, at: Places) {
    && FilterIs(s, at.where_, KwWhere, q.where_, at.group)
    && GroupIs(s, at.group, q.groupBy, at.having)
    && FilterIs(s, at.having, KwHaving, q.having, at.order)
    && OrderByIs(s, at.order, q.orderBy, at.offset)
    && CountIs(s, at.offset, KwOffset, q.offset, at.limit)
    && CountIs(s, at.limit, KwLimit, q.limit, at.semicolon)
    && at.semicolon.cur.kind in {Semi, Eof}
  }

  /** The tokens of the clauses stand one after the other. */
  ghost predicate ClausesRead(s: string, f: Form, at: Places, end: State) {
    && Reads(s, at.where_, FilterPieces(KwWhere, f.where_), at.group)
    && Reads(s, at.group, GroupPieces(f.groupBy), at.having)
    && Reads(s, at.having, FilterPieces(KwHaving, f.having), at.order)
    && Reads(s, at.order, OrderByPieces(f.orderBy), at.offset)
    && Reads(s, at.offset, CountPieces(KwOffset, f.offset), at.limit)
    && Reads(s, at.limit, CountPieces(KwLimit, f.limit), at.semicolon)
    && Reads(s, at.semicolon, Optional(Semi, f.semicolon), end)
  }

  lemma ClausesSplit(s: string, st: State, f: Form, end: State) returns (at: Places)
    requires Reads(s, st, WhereTail(f), end)
    ensures at.where_ == st && ClausesRead(s, f, at, end)
  {
    hide Reads, FilterPieces, GroupPieces, OrderByPieces, CountPieces, Optional;
    var group := ReadsSplit(s, st, FilterPieces(KwWhere, f.where_), GroupTail(f), end);
    var having := ReadsSplit(s, group, GroupPieces(f.groupBy), HavingTail(f), end);
    var order := ReadsSplit(s, having, FilterPieces(KwHaving, f.having), OrderTail(f), end);
    var offset := ReadsSplit(s, order, OrderByPieces(f.orderBy), OffsetTail(f), end);
    var limit := ReadsSplit(s, offset, CountPieces(KwOffset, f.offset), LimitTail(f), end);
    var semicolon := ReadsSplit(s, limit, CountPieces(KwLimit, f.limit), EndTail(f), end);
    at := Places(st, group, having, order, offset, limit, semicolon);
  }

  lemma ClausesJoin(s: string, f: Form, at: Places, end: State)
    requires ClausesRead(s, f, at, end)
    ensures Reads(s, at.where_, WhereTail(f), end)
  {
    hide Reads, FilterPieces, GroupPieces, OrderByPieces, CountPieces, Optional;
    ReadsJoin(s, at.limit, CountPieces(KwLimit, f.limit), at.semicolon, EndTail(f), end);
    ReadsJoin(s, at.offset, CountPieces(KwOffset, f.offset), at.limit, LimitTail(f), end);
    ReadsJoin(s, at.order, OrderByPieces(f.orderBy), at.offset, OffsetTail(f), end);
    ReadsJoin(s, at.having, FilterPieces(KwHaving, f.having), at.order, OrderTail(f), end);
    ReadsJoin(s, at.group, GroupPieces(f.groupBy), at.having, HavingTail(f), end);
    ReadsJoin(s, at.where_, FilterPieces(KwWhere, f.where_), at.group, GroupTail(f), end);
  }

  /** What comes after a clause is a later clause or the end. */
  lemma ClausesRank(s: string, f: Form, at: Places, end: State)
    requires ClausesRead(s, f, at, end) && end.cur.kind == Eof
    ensures Rank(at.group.cur.kind) > 1 && Rank(at.having.cur.kind) > 2 && Rank(at.order.cur.kind) > 3
    ensures Rank(at.offset.cur.kind) > 4 && Rank(at.limit.cur.kind) > 5 && at.semicolon.cur.kind in {Semi, Eof}
  {
    hide Reads, FilterPieces, GroupPieces, OrderByPieces, CountPieces, Optional, Valid, Bump, Rank;
    RankWords();
    SemicolonStarts(s, at.semicolon, f.semicolon, end);
    CountStarts(s, at.limit, KwLimit, f.limit, at.semicolon);
    CountStarts(s, at.offset, KwOffset, f.offset, at.limit);
    OrderStarts(s, at.order, f.orderBy, at.offset);
    FilterStarts(s, at.having, KwHaving, f.having, at.order);
    GroupStarts(s, at.group, f.groupBy, at.having);
  }

  lemma RankWords()
    ensures Rank(KwGroup) == 2 && Rank(KwHaving) == 3 && Rank(KwOrder) == 4 && Rank(KwOffset) == 5
    ensures Rank(KwLimit) == 6 && Rank(Semi) == 7 && Rank(Eof) == 8
  {
  }

  lemma ClausesParse(s: string, f: Form, at: Places, end: State)
    requires GoodForm(f) && ClausesRead(s, f, at, end) && end.cur.kind == Eof
    ensures ClausesAre(s, QueryMeaning(f), at)
  {
    hide Reads, FilterPieces, GroupPieces, OrderByPieces, CountPieces, Optional, FilterMeaning, Meanings, KeyMeanings,
      ItemMeanings, CountMeaning, FilterIs, GroupIs, OrderByIs, CountIs, GoodTests, GoodKeys, AllGrammatical, GoodItems,
      GoodCount, IsName;
    ClausesRank(s, f, at, end);
    FilterParses(s, at.where_, KwWhere, f.where_, at.group);
    GroupParses(s, at.group, f.groupBy, at.having);
    FilterParses(s, at.having, KwHaving, f.having, at.order);
    OrderByParses(s, at.order, f.orderBy, at.offset);
    CountParses(s, at.offset, KwOffset, f.offset, at.limit);
    CountParses(s, at.limit, KwLimit, f.limit, at.semicolon);
  }

  lemma EndExpected(s: string)
    ensures Valid(s, EndState(s)) && Bump(s, EndState(s)) == Ok(EndState(s))
  {
  }

  lemma QueryParses(s: string, st: State, f: Form)
    requires GoodForm(f) && Reads(s, st, QueryPieces(f), EndState(s))
    ensures Valid(s, st) && ParseQuery(s, st) == Ok(QueryMeaning(f))
  {
    hide Reads, SelectPieces, WhereTail, ClausesRead, ClausesAre, Spelling, SelectIs, Valid, Bump, Expect, GoodItems,
      GoodTests, GoodKeys, AllGrammatical, GoodCount, IsName, ParseQuery, QueryMeaning, ParseIdent;
    var end := EndState(s);
    var select_ := Moved(s, st, P(KwSelect), SelectPieces(f.select) + FromTail(f), end);
    var from_ := ReadsSplit(s, select_, SelectPieces(f.select), FromTail(f), end);
    var table := Piece(IdentTok, f.from);
    assert FromTail(f) == [P(KwFrom)] + ([table] + WhereTail(f));
    var name := Moved(s, from_, P(KwFrom), [table] + WhereTail(f), end);
    var clauses := Moved(s, name, table, WhereTail(f), end);
    NameStands(name.cur, f.from);
    KindIs(from_.cur, P(KwFrom));
    SelectParses(s, select_, f.select, from_);
    var at := ClausesSplit(s, clauses, f, end);
    ClausesParse(s, f, at, end);
    SemicolonRead(s, f, at);
    IdentIs(s, name, f.from, clauses);
    Together(s, st, QueryMeaning(f), select_, from_, name, at, f.semicolon) by { MeaningParts(f); }
  }

  lemma MeaningParts(f: Form)
    ensures QueryMeaning(f).select == ItemMeanings(f.select) && QueryMeaning(f).from == f.from
  {
  }

  lemma SemicolonRead(s: string, f: Form, at: Places)
    requires ClausesRead(s, f, at, EndState(s))
    ensures if f.semicolon then at.semicolon.cur.kind == Semi && Valid(s, at.semicolon)
                                && Bump(s, at.semicolon) == Ok(EndState(s))
            else at.semicolon == EndState(s)
  {
    hide Reads, FilterPieces, GroupPieces, OrderByPieces, CountPieces, Bump, Valid;
    SemicolonStarts(s, at.semicolon, f.semicolon, EndState(s));
  }

  lemma IdentIs(s: string, st: State, name: string, next: State)
    requires Valid(s, st) && st.cur.kind == IdentTok && st.cur.lex == name && Bump(s, st) == Ok(next)
    ensures ParseIdent(s, st) == Ok((name, next))
  {
    hide Bump, Valid;
  }

  /** The parser's steps, put together. */
  lemma Together(s: string, st: State, q: Query, select_: State, from_: State, name: State, at: Places,
        semicolon: bool)
    requires Valid(s, st) && Expect(s, st, KwSelect) == Ok(select_)
    requires SelectIs(s, select_, q.select, from_) && Expect(s, from_, KwFrom) == Ok(name)
    requires Valid(s, name) && ParseIdent(s, name) == Ok((q.from, at.where_)) && ClausesAre(s, q, at)
    requires if semicolon then at.semicolon.cur.kind == Semi && Bump(s, at.semicolon) == Ok(EndState(s))
             else at.semicolon == EndState(s)
    ensures ParseQuery(s, st) == Ok(q)
  {
    hide Bump, ParseSelectList, ParseFilter, ParseGroupBy, ParseOrderBy, ParseCount, ParseIdent;
    hide WfArith, WfWhere, IsIdent, WfItem, WfList, Valid;
    EndExpected(s);
  }

  // ---------- parsed queries were written ----------

  lemma {:induction false} EofIsEnd(s: string, st: State, ps: seq<Piece>, end: State)
    requires ps != [] && Reads(s, st, ps, end) && end.cur.kind == Eof
    ensures end == EndState(s)
    decreases |ps|
  {
    hide Stands, Next, IsIdent, IsNumber;
    if |ps| == 1 {
      assert ps[1..] == [];
      TokenSpelled(s, st.i);
      EofEnds(s, st.i);
    } else {
      EofIsEnd(s, Bump(s, st).value, ps[1..], end);
    }
  }

  lemma EofEnds(s: string, i: nat)
    requires i <= |s| && Next(s, i).Ok? && Next(s, i).value.tok.kind == Eof
    ensures Next(s, i).value.end == |s|
  {
  }

  /** The way of writing the clauses, and the states between them. */
  lemma ClausesWritten(s: string, st: State, select: seq<Item>, from: string) returns (f: Form, at: Places)
    requires Valid(s, st) && select != [] && GoodItems(select) && IsName(from) && RestOf(s, st).Ok?
    ensures
      var (q, end) := RestOf(s, st).value;
      && GoodForm(f) && f.select == select && f.from == from && at.where_ == st && ClausesRead(s, f, at, end)
      && QueryMeaning(f) == q.(select := ItemMeanings(select), from := from) && end.cur.kind == Eof
  {
    hide Reads, Valid, Bump, ParseFilter, ParseGroupBy, ParseOrderBy, ParseCount, WfWhere, WfList, WfArith;
    hide FilterPieces, GroupPieces, OrderByPieces, CountPieces, FilterMeaning, Meanings, KeyMeanings, ItemMeanings,
      CountMeaning, GoodTests, GoodKeys, AllGrammatical, GoodItems, GoodCount, IsName, Optional;
    var filter := FilterWritten(s, st, KwWhere);
    var group := ParseFilter(s, st, KwWhere).value.1;
    var groupBy := GroupWritten(s, group);
    var having := ParseGroupBy(s, group).value.1;
    var tests := FilterWritten(s, having, KwHaving);
    var order := ParseFilter(s, having, KwHaving).value.1;
    var keys := OrderByWritten(s, order);
    var offset := ParseOrderBy(s, order).value.1;
    var skip := CountWritten(s, offset, KwOffset);
    var limit := ParseCount(s, offset, KwOffset).value.1;
    var take := CountWritten(s, limit, KwLimit);
    var semicolon := ParseCount(s, limit, KwLimit).value.1;
    var there := semicolon.cur.kind == Semi;
    OptionalBumped(s, semicolon, Semi, there, RestOf(s, st).value.1);
    f := Form(select, from, filter, groupBy, tests, keys, skip, take, there);
    at := Places(st, group, having, order, offset, limit, semicolon);
  }

  /** The parser from the first clause on: the clauses of a query, and the state in front of the end. */
  function RestOf(s: string, st: State): Result<(Query, State), Failure>
    requires Valid(s, st)
  {
    var filter :- ParseFilter(s, st, KwWhere);
    var groupBy :- ParseGroupBy(s, filter.1);
    var having :- ParseFilter(s, groupBy.1, KwHaving);
    var orderBy :- ParseOrderBy(s, having.1);
    var offset :- ParseCount(s, orderBy.1, KwOffset);
    var limit :- ParseCount(s, offset.1, KwLimit);
    var semi :- if limit.1.cur.kind == Semi then Bump(s, limit.1) else Ok(limit.1);
    var end :- Expect(s, semi, Eof);
    Ok((Query([], "", filter.0, groupBy.0, having.0, orderBy.0, offset.0, limit.0), semi))
  }

  /** The parser, from its first token on, with the clauses taken together. */
  function ParseByParts(s: string, st: State): Result<Query, Failure>
    requires Valid(s, st)
  {
    var select_ :- Expect(s, st, KwSelect);
    var select :- ParseSelectList(s, select_);
    var from_ :- Expect(s, select.1, KwFrom);
    var from :- ParseIdent(s, from_);
    var rest :- RestOf(s, from.1);
    Ok(rest.0.(select := select.0, from := from.0))
  }

  lemma PartsAreAll(s: string, st: State)
    requires Valid(s, st) && ParseQuery(s, st).Ok?
    ensures ParseByParts(s, st) == ParseQuery(s, st)
  {
    hide Bump, ParseSelectList, ParseFilter, ParseGroupBy, ParseOrderBy, ParseCount, ParseIdent;
    hide WfArith, WfWhere, IsIdent, WfItem, WfList, Valid;
  }

  lemma ExpectedIs(s: string, st: State, kind: Kind)
    requires Valid(s, st) && !IsPlain(kind) && Expect(s, st, kind).Ok?
    ensures Reads(s, st, [P(kind)], Expect(s, st, kind).value) && Valid(s, Expect(s, st, kind).value)
  {
    hide Bump, Valid, Spelling, Reads;
    WordBumped(s, st, kind, Expect(s, st, kind).value);
  }

  lemma WordsArePlain()
    ensures !IsPlain(KwSelect) && !IsPlain(KwFrom)
  {
  }

  lemma QueryWritten(s: string, st: State) returns (f: Form)
    requires Valid(s, st) && ParseQuery(s, st).Ok?
    ensures GoodForm(f) && QueryMeaning(f) == ParseQuery(s, st).value
    ensures Reads(s, st, QueryPieces(f), EndState(s))
  {
    hide Reads, Valid, Bump, Expect, ParseSelectList, ParseIdent, ParseQuery, RestOf, ClausesRead, Spelling;
    hide SelectPieces, WhereTail, QueryMeaning, GoodForm, GoodItems, IsName, IsPlain;
    PartsAreAll(s, st);
    WordsArePlain();
    ExpectedIs(s, st, KwSelect);
    var select_ := Expect(s, st, KwSelect).value;
    var items := SelectWritten(s, select_);
    var from_ := ParseSelectList(s, select_).value.1;
    ExpectedIs(s, from_, KwFrom);
    var name := Expect(s, from_, KwFrom).value;
    NameWritten(s, name);
    var (from, clauses) := ParseIdent(s, name).value;
    var at;
    f, at := ClausesWritten(s, clauses, items, from);
    var end := RestOf(s, clauses).value.1;
    ClausesJoin(s, f, at, end);
    var table := Piece(IdentTok, from);
    ThreeRead(s, from_, [P(KwFrom)], name, [table], clauses, WhereTail(f), end);
    assert FromTail(f) == [P(KwFrom)] + ([table] + WhereTail(f));
    ThreeRead(s, st, [P(KwSelect)], select_, SelectPieces(items), from_, FromTail(f), end);
    EofIsEnd(s, st, QueryPieces(f), end);
  }

  // ---------- main results ----------

  /** A text that writes a query in some form, in whatever layout, is parsed to what the form means. */
  lemma WrittenIsParsed(s: string, f: Form, lead: string, words: seq<Written>)
    requires Writes(s, f, lead, words)
    ensures ParseSql(s) == Ok(QueryMeaning(f))
  {
    hide Next, Reads, SpelledOut, GoodForm, QueryPieces, QueryMeaning, ParseQuery, Text, Blank;
    TextRead(s, lead, words, QueryPieces(f));
    QueryParses(s, StateAt(s, 0).value, f);
  }

  /** An accepted text writes what it is parsed to in some form. */
  lemma ParsedIsWritten(s: string) returns (f: Form, lead: string, words: seq<Written>)
    requires ParseSql(s).Ok?
    ensures Writes(s, f, lead, words) && QueryMeaning(f) == ParseSql(s).value
  {
    hide Next, Reads, SpelledOut, GoodForm, QueryPieces, QueryMeaning, ParseQuery, Text, Blank;
    f := QueryWritten(s, StateAt(s, 0).value);
    lead, words := ReadWords(s, 0, QueryPieces(f));
    assert s[0..] == s;
  }

  /** The parser returns a query exactly for the texts that write it. */
  lemma ParsesExactly(s: string, q: Query)
    ensures ParseSql(s) == Ok(q) <==> exists f, lead, words :: Writes(s, f, lead, words) && QueryMeaning(f) == q
  {
    hide ParseSql, Writes, QueryMeaning;
    if ParseSql(s) == Ok(q) {
      var f, lead, words := ParsedIsWritten(s);
    }
    if f, lead, words :| Writes(s, f, lead, words) && QueryMeaning(f) == q {
      WrittenIsParsed(s, f, lead, words);
    }
  }
}
