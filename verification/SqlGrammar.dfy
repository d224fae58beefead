/** The grammar of the SQL dialect. */
module SqlGrammar {
  import opened SqlAst
  import opened SqlLexer
  import opened Wrappers

  // How queries are written, what each way of writing means, and which texts spell it. Nothing here looks at the
  // parser: of the lexer only the token kinds and the words they stand for are used.

  const MAX_SIGNED: nat := 0x7FFF_FFFF_FFFF_FFFF
  const MAX_UNSIGNED: nat := 0xFFFF_FFFF_FFFF_FFFF

  // ---------- ways of writing ----------

  /** An arithmetic expression as it is written: with its parentheses, signs and leading zeros. */
  datatype Term =
    | All
    | Name(name: string)
    | Number(zeros: nat, value: nat)
    | Quote(lex: string)
    | Aggregate(func: AggFn, distinct: bool, arg: Term)
    | Sum(op: BinOp, lhs: Term, rhs: Term)
    | Apply(name: string, args: seq<Term>)
    | Parens(inner: Term)
    | Negative(operand: Term)

  datatype Test =
    | Compares(cmp: CmpOp, left: Term, right: Term)
    | IsLike(subject: Term, negated: bool, pattern: Term)
    | IsIn(operand: Term, negated: bool, values: seq<Term>)

  datatype Item = Item(term: Term, alias: Option<string>)

  datatype Direction = Unsaid | Ascending | Descending

  datatype Key = Key(term: Term, direction: Direction)

  datatype Numeral = Numeral(zeros: nat, value: nat)

  /** A query; clauses that are not there are empty. */
  datatype Form = Form(
    select: seq<Item>, from: string, where_: seq<Test>, groupBy: seq<Term>, having: seq<Test>, orderBy: seq<Key>,
    offset: Option<Numeral>, limit: Option<Numeral>, semicolon: bool)

  // ---------- what they mean ----------

  /** The text of a literal between its first and its last byte. */
  function Inside(lex: string): string {
    if |lex| < 2 then "" else lex[1..|lex| - 1]
  }

  function Meaning(t: Term): Expr {
    match t
    case All => Star
    case Name(name) => Ident(name)
    case Number(_, value) => Int(value)
    case Quote(lex) => Str(Inside(lex))
    case Aggregate(f, distinct, arg) => Agg(f, distinct, Meaning(arg))
    case Sum(op, l, r) => Binary(op, Meaning(l), Meaning(r))
    case Apply(name, args) => Call(name, Meanings(args))
    case Parens(inner) => Meaning(inner)
    case Negative(operand) => Binary(Sub, Int(0), Meaning(operand))
  }

  function Meanings(ts: seq<Term>): (es: seq<Expr>)
    ensures |es| == |ts| && forall i :: 0 <= i < |ts| ==> es[i] == Meaning(ts[i])
    decreases ts
  {
    if ts == [] then [] else [Meaning(ts[0])] + Meanings(ts[1..])
  }

  function TestMeaning(t: Test): Expr {
    match t
    case Compares(cmp, l, r) => Compare(cmp, Meaning(l), Meaning(r))
    case IsLike(l, negated, p) => Like(Meaning(l), Meaning(p), negated)
    case IsIn(l, negated, vs) => In(Meaning(l), Meanings(vs), negated)
  }

  /** Tests joined by AND, from left to right. */
  function Joined(first: Expr, tests: seq<Test>): Expr
    decreases |tests|
  {
    if tests == [] then first else Joined(And(first, TestMeaning(tests[0])), tests[1..])
  }

  function FilterMeaning(tests: seq<Test>): Option<Expr> {
    if tests == [] then None else Some(Joined(TestMeaning(tests[0]), tests[1..]))
  }

  function ItemMeaning(i: Item): SelectItem {
    SelectItem(Meaning(i.term), i.alias)
  }

  function ItemMeanings(items: seq<Item>): seq<SelectItem> {
    if items == [] then [] else [ItemMeaning(items[0])] + ItemMeanings(items[1..])
  }

  function KeyMeaning(k: Key): OrderItem {
    OrderItem(Meaning(k.term), k.direction == Descending)
  }

  function KeyMeanings(keys: seq<Key>): seq<OrderItem> {
    if keys == [] then [] else [KeyMeaning(keys[0])] + KeyMeanings(keys[1..])
  }

  function CountMeaning(n: Option<Numeral>): Option<nat> {
    if n.Some? then Some(n.value.value) else None
  }

  function QueryMeaning(f: Form): Query {
    Query(ItemMeanings(f.select), f.from, FilterMeaning(f.where_), Meanings(f.groupBy), FilterMeaning(f.having),
      KeyMeanings(f.orderBy), CountMeaning(f.offset), CountMeaning(f.limit))
  }

  // ---------- what may be written ----------

  predicate IsLetter(c: char) {
    'a' <= c <= 'z' || 'A' <= c <= 'Z' || c == '_'
  }

  predicate IsFigure(c: char) {
    '0' <= c <= '9'
  }

  /** The same text but for the case of its letters. */
  predicate SameLetters(lex: string, word: string) {
    && |lex| == |word|
    && forall i :: 0 <= i < |word| ==>
         lex[i] == word[i] || ('a' <= word[i] <= 'z' && lex[i] as int + 32 == word[i] as int)
  }

  predicate IsMark(kind: Kind) {
    kind in {LParen, RParen, Comma, Semi, StarTok, Plus, Minus, EqTok, NeTok, LtTok, LeTok, GtTok, GeTok}
  }

  predicate IsWord(kind: Kind) {
    !IsMark(kind) && !IsPlain(kind)
  }

  predicate IsName(name: string) {
    && name != "" && IsLetter(name[0])
    && (forall i :: 0 <= i < |name| ==> IsLetter(name[i]) || IsFigure(name[i]))
    && (forall kind :: IsWord(kind) ==> !SameLetters(name, Spelling(kind)))
  }

  /** The first thing written is the star for everything. */
  predicate StartsWithAll(t: Term) {
    t == All || (t.Sum? && StartsWithAll(t.lhs))
  }

  /** A literal that a cut before its last byte leaves in one piece. */
  predicate CanBeCut(lex: string) {
    |lex| >= 2 ==> !(0x80 <= lex[|lex| - 1] as int <= 0xBF)
  }

  predicate Grammatical(t: Term) {
    match t
    case All => true
    case Name(name) => IsName(name)
    case Number(_, value) => value <= MAX_SIGNED
    case Quote(lex) => CanBeCut(lex)
    case Aggregate(f, distinct, arg) =>
      && Grammatical(arg) && (StartsWithAll(arg) ==> arg == All)
      && (distinct ==> f == Count || f == ApproxDistinct) && (Meaning(arg) == Star ==> f == Count)
    case Sum(_, l, r) => Grammatical(l) && Grammatical(r) && !r.Sum?
    case Apply(name, args) => IsName(name) && args != [] && AllGrammatical(args)
    case Parens(inner) => Grammatical(inner)
    case Negative(operand) => Grammatical(operand) && !operand.Sum?
  }

  predicate AllGrammatical(ts: seq<Term>) {
    ts == [] || (Grammatical(ts[0]) && AllGrammatical(ts[1..]))
  }

  predicate GoodTest(t: Test) {
    match t
    case Compares(_, l, r) => Grammatical(l) && Grammatical(r)
    case IsLike(l, _, p) => Grammatical(l) && Grammatical(p)
    case IsIn(l, _, vs) => Grammatical(l) && vs != [] && AllGrammatical(vs)
  }

  predicate GoodTests(tests: seq<Test>) {
    forall i :: 0 <= i < |tests| ==> GoodTest(tests[i])
  }

  predicate GoodItems(items: seq<Item>) {
    forall i :: 0 <= i < |items| ==>
      Grammatical(items[i].term) && (items[i].alias.Some? ==> IsName(items[i].alias.value))
  }

  predicate GoodKeys(keys: seq<Key>) {
    forall i :: 0 <= i < |keys| ==> Grammatical(keys[i].term)
  }

  predicate GoodCount(n: Option<Numeral>) {
    n.Some? ==> n.value.value <= MAX_UNSIGNED
  }

  predicate GoodForm(f: Form) {
    && f.select != [] && GoodItems(f.select) && IsName(f.from) && GoodTests(f.where_) && AllGrammatical(f.groupBy)
    && GoodTests(f.having) && GoodKeys(f.orderBy) && GoodCount(f.offset) && GoodCount(f.limit)
  }

  // ---------- the tokens that are written ----------

  /** A token before it has a place in a text: words and marks are their kind. */
  datatype Piece = Piece(kind: Kind, lex: string)

  function P(kind: Kind): Piece {
    Piece(kind, Spelling(kind))
  }

  function Figure(d: nat): char
    requires d < 10
  {
    ('0' as int + d) as char
  }

  /** Decimal figures, without leading zeros. */
  function Decimal(v: nat): string {
    if v < 10 then [Figure(v)] else Decimal(v / 10) + [Figure(v % 10)]
  }

  function Zeros(n: nat): string {
    seq(n, _ => '0')
  }

  function NumberPiece(zeros: nat, value: nat): Piece {
    Piece(IntTok, Zeros(zeros) + Decimal(value))
  }

  function AggKind(f: AggFn): Kind {
    match f
    case Count => KwCount case Sum => KwSum case Avg => KwAvg case Min => KwMin case Max => KwMax
    case ApproxDistinct => KwApproxCountDistinct
  }

  function BinKind(op: BinOp): Kind {
    match op case Add => Plus case Sub => Minus
  }

  function CmpKind(op: CmpOp): Kind {
    match op
    case Eq => EqTok case Ne => NeTok case Lt => LtTok case Le => LeTok case Gt => GtTok case Ge => GeTok
  }

  function Enclosed(pieces: seq<Piece>): seq<Piece> {
    [P(LParen)] + (pieces + [P(RParen)])
  }

  function Optional(kind: Kind, there: bool): seq<Piece> {
    if there then [P(kind)] else []
  }

  function Pieces(t: Term): seq<Piece> {
    match t
    case All => [P(StarTok)]
    case Name(name) => [Piece(IdentTok, name)]
    case Number(zeros, value) => [NumberPiece(zeros, value)]
    case Quote(lex) => [Piece(StrTok, lex)]
    case Aggregate(f, distinct, arg) =>
      [P(AggKind(f)), P(LParen)] + (Optional(KwDistinct, distinct) + (Pieces(arg) + [P(RParen)]))
    case Sum(op, l, r) => Pieces(l) + ([P(BinKind(op))] + Pieces(r))
    case Apply(name, args) => [Piece(IdentTok, name)] + Enclosed(ListPieces(args))
    case Parens(inner) => Enclosed(Pieces(inner))
    case Negative(operand) => [P(Minus)] + Pieces(operand)
  }

  function ListPieces(ts: seq<Term>): seq<Piece> {
    if ts == [] then []
    else if |ts| == 1 then Pieces(ts[0])
    else Pieces(ts[0]) + ([P(Comma)] + ListPieces(ts[1..]))
  }

  function TestPieces(t: Test): seq<Piece> {
    match t
    case Compares(cmp, l, r) => Pieces(l) + ([P(CmpKind(cmp))] + Pieces(r))
    case IsLike(l, negated, p) => Pieces(l) + (Optional(KwNot, negated) + ([P(KwLike)] + Pieces(p)))
    case IsIn(l, negated, vs) => Pieces(l) + (Optional(KwNot, negated) + ([P(KwIn)] + Enclosed(ListPieces(vs))))
  }

  /** Further tests, each behind an AND. */
  function MorePieces(tests: seq<Test>): seq<Piece> {
    if tests == [] then [] else [P(KwAnd)] + (TestPieces(tests[0]) + MorePieces(tests[1..]))
  }

  function FilterPieces(kind: Kind, tests: seq<Test>): seq<Piece> {
    if tests == [] then [] else [P(kind)] + (TestPieces(tests[0]) + MorePieces(tests[1..]))
  }

  function ItemPieces(i: Item): seq<Piece> {
    Pieces(i.term) + if i.alias.Some? then [P(KwAs), Piece(IdentTok, i.alias.value)] else []
  }

  function SelectPieces(items: seq<Item>): seq<Piece> {
    if items == [] then []
    else if |items| == 1 then ItemPieces(items[0])
    else ItemPieces(items[0]) + ([P(Comma)] + SelectPieces(items[1..]))
  }

  function KeyPieces(k: Key): seq<Piece> {
    Pieces(k.term) + (Optional(KwAsc, k.direction == Ascending) + Optional(KwDesc, k.direction == Descending))
  }

  function OrderPieces(keys: seq<Key>): seq<Piece> {
    if keys == [] then []
    else if |keys| == 1 then KeyPieces(keys[0])
    else KeyPieces(keys[0]) + ([P(Comma)] + OrderPieces(keys[1..]))
  }

  function GroupPieces(ts: seq<Term>): seq<Piece> {
    if ts == [] then [] else [P(KwGroup), P(KwBy)] + ListPieces(ts)
  }

  function OrderByPieces(keys: seq<Key>): seq<Piece> {
    if keys == [] then [] else [P(KwOrder), P(KwBy)] + OrderPieces(keys)
  }

  function CountPieces(kind: Kind, n: Option<Numeral>): seq<Piece> {
    if n.None? then [] else [P(kind), NumberPiece(n.value.zeros, n.value.value)]
  }

  /** The clauses, from the last one to all of them. */
  function EndTail(f: Form): seq<Piece> {
    Optional(Semi, f.semicolon)
  }

  function LimitTail(f: Form): seq<Piece> {
    CountPieces(KwLimit, f.limit) + EndTail(f)
  }

  function OffsetTail(f: Form): seq<Piece> {
    CountPieces(KwOffset, f.offset) + LimitTail(f)
  }

  function OrderTail(f: Form): seq<Piece> {
    OrderByPieces(f.orderBy) + OffsetTail(f)
  }

  function HavingTail(f: Form): seq<Piece> {
    FilterPieces(KwHaving, f.having) + OrderTail(f)
  }

  function GroupTail(f: Form): seq<Piece> {
    GroupPieces(f.groupBy) + HavingTail(f)
  }

  function WhereTail(f: Form): seq<Piece> {
    FilterPieces(KwWhere, f.where_) + GroupTail(f)
  }

  function FromTail(f: Form): seq<Piece> {
    [P(KwFrom), Piece(IdentTok, f.from)] + WhereTail(f)
  }

  function QueryPieces(f: Form): seq<Piece> {
    [P(KwSelect)] + (SelectPieces(f.select) + FromTail(f))
  }

  // ---------- the texts that spell them ----------

  predicate Blank(gap: string) {
    forall i :: 0 <= i < |gap| ==> gap[i] == ' ' || gap[i] == '\t' || gap[i] == '\n' || gap[i] == '\r'
  }

  predicate Closed(lex: string) {
    |lex| >= 2 && lex[0] == '\'' && lex[|lex| - 1] == '\'' && Paired(lex[1..|lex| - 1])
  }

  /** A literal that the input ends in. */
  predicate Open(lex: string) {
    lex != "" && lex[0] == '\'' && Paired(lex[1..])
  }

  predicate Spells(lex: string, p: Piece) {
    match p.kind
    case Eof => false
    case IdentTok => lex == p.lex && IsName(lex)
    case IntTok => lex == p.lex && lex != "" && forall i :: 0 <= i < |lex| ==> IsFigure(lex[i])
    case StrTok => lex == p.lex && (Closed(lex) || Open(lex))
    case kind => SameLetters(lex, Spelling(kind))
  }

  /** The character, put right behind a token of the kind, would be taken for a part of it. */
  predicate RunsOn(kind: Kind, c: char) {
    if kind == IdentTok || IsWord(kind) then IsLetter(c) || IsFigure(c)
    else if kind == IntTok then IsFigure(c)
    else if kind == StrTok then c == '\''
    else if kind == LtTok then c == '=' || c == '>'
    else kind == GtTok && c == '='
  }

  /** A token's text and the white space behind it. */
  datatype Written = Written(lex: string, gap: string)

  function Text(words: seq<Written>): string {
    if words == [] then "" else words[0].lex + (words[0].gap + Text(words[1..]))
  }

  /** Each word spells its piece, and where no white space stands behind it, the rest does not run on. */
  predicate SpelledOut(words: seq<Written>, ps: seq<Piece>) {
    |words| == |ps| && (words != [] ==>
      var w, rest := words[0], Text(words[1..]);
      && Spells(w.lex, ps[0]) && Blank(w.gap)
      && (w.gap == "" && rest != "" ==> !RunsOn(ps[0].kind, rest[0]))
      && (ps[0].kind == StrTok && !Closed(w.lex) ==> w.gap + rest == "")
      && SpelledOut(words[1..], ps[1..]))
  }

  /** The text writes the query in the given form, with white space in front and between. */
  predicate Writes(s: string, f: Form, lead: string, words: seq<Written>) {
    GoodForm(f) && Blank(lead) && s == lead + Text(words) && SpelledOut(words, QueryPieces(f))
  }
}
