/** Lowering a WHERE clause to filters and a mask program. */
module WhereLowering {
  import opened DictSection
  import opened LittleEndian
  import opened SqlAst
  import opened Wrappers
  import Calendar
  import LikePattern
  import Ordering

  // ---------- rows and values ----------

  /** A double: a number or not a number. */
  datatype Num = NaN | Num(r: real)

  predicate Ordered(op: CmpOp, a: real, b: real) {
    match op
    case Eq => a == b
    case Ne => a != b
    case Lt => a < b
    case Le => a <= b
    case Gt => a > b
    case Ge => a >= b
  }

  /** What a comparison means: none holds of what is no number. */
  predicate Holds(op: CmpOp, a: Num, b: Num) {
    a != NaN && b != NaN && Ordered(op, a.r, b.r)
  }

  /** The executor's comparison of a value with a filter's number, one value at a time. */
  predicate Compares(op: CmpOp, val: Num, rhs: Num) {
    if val == NaN then false else if rhs == NaN then op == Ne else Ordered(op, val.r, rhs.r)
  }

  predicate Less(a: Num, b: Num) {
    a != NaN && b != NaN && a.r < b.r
  }

  predicate Same(a: Num, b: Num) {
    a != NaN && b != NaN && a.r == b.r
  }

  /** The same for a block of values at once: two values differ when one is less than the other. */
  predicate BlockCompares(op: CmpOp, val: Num, rhs: Num) {
    match op
    case Eq => Same(val, rhs)
    case Ne => Less(val, rhs) || Less(rhs, val)
    case Lt => Less(val, rhs)
    case Le => Less(val, rhs) || Same(val, rhs)
    case Gt => Less(rhs, val)
    case Ge => Less(rhs, val) || Same(val, rhs)
  }

  /** Numbers compare as reals, each comparison denies its opposite, and nothing holds of what is no number. */
  lemma ComparisonLaws(a: Num, b: Num)
    ensures a != NaN && b != NaN ==>
      && (Holds(Lt, a, b) <==> a.r < b.r) && (Holds(Gt, a, b) <==> Holds(Lt, b, a))
      && (Holds(Eq, a, b) <==> !Holds(Lt, a, b) && !Holds(Gt, a, b)) && (Holds(Ne, a, b) <==> !Holds(Eq, a, b))
      && (Holds(Le, a, b) <==> !Holds(Gt, a, b)) && (Holds(Ge, a, b) <==> !Holds(Lt, a, b))
    ensures a == NaN || b == NaN ==> forall op :: !Holds(op, a, b)
  {
  }

  /**
   Blocks compare as comparisons mean. One value at a time does too, but that every number differs from a filter's value
   that is no number.
   */
  lemma ExecutorCompares(op: CmpOp, val: Num, rhs: Num)
    ensures BlockCompares(op, val, rhs) <==> Holds(op, val, rhs)
    ensures (Compares(op, val, rhs) <==> Holds(op, val, rhs)) <==> !(op == Ne && val != NaN && rhs == NaN)
  {
  }

  /**
   What a column holds in a row: a number, which is the id of a dictionary string, or text that is compared as text.
   */
  datatype Cell = Cell(num: Num, text: string)

  type Row = seq<Cell>

  datatype Column = Column(name: string, isString: bool, isDict: bool, dictId: nat)

  /** What a literal is compared as: a number, or text put off to execution. */
  datatype Value = Number(num: Num) | Text(text: string)

  datatype FilterOp = Cmp(cmp: CmpOp) | LikeOp | NotLikeOp

  /**
   The table's columns and dictionaries, the cast of integers to doubles, the doubles that texts spell, and the tests on
   text that is compared at execution.
   */
  datatype Env = Env(
    schema: seq<Column>, dicts: map<nat, Dictionary>, cast: int -> Num, parseNumber: string -> Option<Num>,
    textTest: (FilterOp, Cell, string) -> bool)

  function ColumnId(schema: seq<Column>, name: string, from: nat): (id: Option<nat>)
    requires from <= |schema|
    ensures id.Some? ==> from <= id.value < |schema| && schema[id.value].name == name
    decreases |schema| - from
  {
    if from == |schema| then None
    else if schema[from].name == name then Some(from)
    else ColumnId(schema, name, from + 1)
  }

  // ---------- literals and columns ----------

  datatype Literal = IntLit(i: int) | StrLit(s: string)

  function ColumnName(e: Expr): Option<string> {
    if e.Ident? then Some(e.name) else None
  }

  /** An integer, a string, or zero minus an integer. */
  function LiteralOf(e: Expr): Option<Literal> {
    match e
    case Int(i) => Some(IntLit(i))
    case Str(s) => Some(StrLit(s))
    case Binary(Sub, Int(z), Int(i)) => if z == 0 then Some(IntLit(-i)) else None
    case _ => None
  }

  function OrElse<T>(a: Option<T>, b: Option<T>): Option<T> {
    if a.Some? then a else b
  }

  /** The id of a string that the dictionary does not have: one that no row has. */
  const NO_ID: nat := 0xFFFF_FFFF

  /** The bytes of a text, each character being one. */
  function BytesOf(s: string): (b: seq<byte>)
    ensures |b| == |s|
  {
    seq(|s|, i requires 0 <= i < |s| => s[i] as int % 256)
  }

  /** A string literal: on a plain column a number or a date, else an id of the column's dictionary, else text. */
  function ResolvedText(env: Env, s: string, col: nat): Value
    requires col < |env.schema|
  {
    var c := env.schema[col];
    var number := if c.isString || c.isDict then None else env.parseNumber(s);
    var day := if c.isString || c.isDict then None else Calendar.ParseYmd(BytesOf(s));
    if number.Some? then Number(number.value)
    else if day.Some? then Number(env.cast(day.value))
    else if c.dictId in env.dicts then
      var id := FirstId(env.dicts[c.dictId], BytesOf(s));
      Number(Num((if id.Some? then id.value else NO_ID) as real))
    else Text(s)
  }

  function Resolved(env: Env, lit: Literal, col: nat): Value
    requires col < |env.schema|
  {
    match lit
    case IntLit(i) => Number(env.cast(i))
    case StrLit(s) => ResolvedText(env, s, col)
  }

  // ---------- collecting ----------

  datatype Collected =
    | Comparison(col: string, op: CmpOp, value: Literal)
    | Membership(col: string, values: seq<Literal>, negated: bool)
    | Pattern(col: string, pattern: string, negated: bool)

  function Literals(es: seq<Expr>): seq<Literal>
    decreases |es|
  {
    if es == [] then []
    else
      var last := LiteralOf(es[|es| - 1]);
      Literals(es[..|es| - 1]) + if last.Some? then [last.value] else []
  }

  /** What one conjunct is collected as: nothing when it has no column or no literal. */
  function CollectOne(e: Expr): Option<Collected> {
    match e
    case Compare(op, l, r) =>
      var col := OrElse(ColumnName(l), ColumnName(r));
      var value := OrElse(LiteralOf(r), LiteralOf(l));
      if col.Some? && value.Some? then Some(Comparison(col.value, op, value.value)) else None
    case In(l, values, negated) =>
      var lits := Literals(values);
      if ColumnName(l).Some? && lits != [] then Some(Membership(ColumnName(l).value, lits, negated)) else None
    case Like(l, p, negated) =>
      if ColumnName(l).Some? && p.Str? then Some(Pattern(ColumnName(l).value, p.raw, negated)) else None
    case _ => None
  }

  function Collect(e: Expr): seq<Collected> {
    if e.And? then Collect(e.first) + Collect(e.second)
    else
      var one := CollectOne(e);
      if one.Some? then [one.value] else []
  }

  /** The recursion that pushes onto one list. */
  method CollectInto(e: Expr, before: seq<Collected>) returns (after: seq<Collected>)
    ensures after == before + Collect(e)
  {
    if e.And? {
      var half := CollectInto(e.first, before);
      after := CollectInto(e.second, half);
    } else {
      var one := CollectOne(e);
      after := if one.Some? then before + [one.value] else before;
    }
  }

  // ---------- converting ----------

  /** A filter of the plan. */
  datatype Filter = Filter(
    col: nat, op: FilterOp, value: Num, inList: Option<seq<Num>>, valueStr: Option<string>,
      inListStr: Option<seq<string>>)

  const ERR_NO_COLUMN: int := -3
  const ERR_NOT_IN: int := -5

  function Numbers(env: Env, values: seq<Literal>, col: nat): seq<Num>
    requires col < |env.schema|
    decreases |values|
  {
    if values == [] then []
    else
      var v := Resolved(env, values[|values| - 1], col);
      Numbers(env, values[..|values| - 1], col) + if v.Number? then [v.num] else []
  }

  function Texts(env: Env, values: seq<Literal>, col: nat): seq<string>
    requires col < |env.schema|
    decreases |values|
  {
    if values == [] then []
    else
      var v := Resolved(env, values[|values| - 1], col);
      Texts(env, values[..|values| - 1], col) + if v.Text? then [v.text] else []
  }

  function TrimmedStart(p: string): string {
    if p != "" && p[0] == '%' then TrimmedStart(p[1..]) else p
  }

  function TrimmedEnd(p: string): string
    decreases |p|
  {
    if p != "" && p[|p| - 1] == '%' then TrimmedEnd(p[..|p| - 1]) else p
  }

  /** A LIKE pattern without the percent signs at its ends. */
  function Trimmed(p: string): string {
    TrimmedEnd(TrimmedStart(p))
  }

  function Convert(env: Env, c: Collected): Result<Filter, int> {
    if c.Membership? && c.negated then Err(ERR_NOT_IN)
    else
      var id := ColumnId(env.schema, c.col, 0);
      if id.None? then Err(ERR_NO_COLUMN)
      else
        match c
        case Comparison(_, op, value) =>
          var v := Resolved(env, value, id.value);
          Ok(Filter(id.value, Cmp(op), if v.Number? then v.num else Num(0.0), None,
            if v.Text? then Some(v.text) else None, None))
        case Membership(_, values, _) =>
          var texts := Texts(env, values, id.value);
          if texts == [] then Ok(Filter(id.value, Cmp(Eq), Num(0.0), Some(Numbers(env, values, id.value)), None, None))
          else Ok(Filter(id.value, Cmp(Eq), Num(0.0), None, None, Some(texts)))
        case Pattern(_, pattern, negated) =>
          Ok(Filter(id.value, if negated then NotLikeOp else LikeOp, Num(0.0), None, Some(Trimmed(pattern)), None))
  }

  /** Empty-string tests of string columns come first. */
  function SortKey(env: Env, f: Filter): (key: nat)
    ensures key <= 2
  {
    var isEmpty := f.valueStr == Some("") && (f.op == Cmp(Eq) || f.op == Cmp(Ne));
    var isString := f.col < |env.schema| && env.schema[f.col].isString;
    if isEmpty && isString && f.op == Cmp(Ne) then 0 else if isEmpty && isString then 1 else 2
  }

  function WithKey(env: Env, fs: seq<Filter>, key: nat): seq<Filter>
    decreases |fs|
  {
    if fs == [] then []
    else
      var last := fs[|fs| - 1];
      WithKey(env, fs[..|fs| - 1], key) + if SortKey(env, last) == key then [last] else []
  }

  /** The stable sort by key: each key's filters in their own order, lower keys first. */
  function Sorted(env: Env, fs: seq<Filter>): seq<Filter> {
    WithKey(env, fs, 0) + WithKey(env, fs, 1) + WithKey(env, fs, 2)
  }

  const COMB_AND: int := -1
  const COMB_OR: int := -2
  const COMB_NOT: int := -3

  /** The conjunction of `n` masks in reverse Polish notation. */
  function Conjunction(n: nat): seq<int>
    requires n >= 2
  {
    if n == 2 then [0, 1, COMB_AND] else Conjunction(n - 1) + [n - 1, COMB_AND]
  }

  method BuildConjunction(n: nat) returns (comb: seq<int>)
    requires n >= 2
    ensures comb == Conjunction(n)
  {
    comb := [0, 1, COMB_AND];
    for i := 2 to n
      invariant comb == Conjunction(i)
    {
      comb := comb + [i];
      comb := comb + [COMB_AND];
    }
  }

  datatype Plan = Plan(filters: seq<Filter>, combine: seq<int>)

  /** The id of each text in a dictionary. */
  function IdsOf(d: Dictionary, texts: seq<string>): seq<Num> {
    seq(|texts|, i requires 0 <= i < |texts| =>
      var id := FirstId(d, BytesOf(texts[i]));
      Num((if id.Some? then id.value else NO_ID) as real))
  }

  /** Text that was put off is looked up once more in the column's dictionary; patterns stay as they are. */
  function Finalized(env: Env, f: Filter): Filter {
    if f.col >= |env.schema| || !env.schema[f.col].isDict || !f.op.Cmp? || env.schema[f.col].dictId !in env.dicts then f
    else
      var d := env.dicts[env.schema[f.col].dictId];
      var g := if f.valueStr.Some? then f.(value := IdsOf(d, [f.valueStr.value])[0], valueStr := None) else f;
      if g.inListStr.Some? then g.(inList := Some(IdsOf(d, g.inListStr.value)), inListStr := None) else g
  }

  /** Filters made from a clause have nothing put off that a dictionary could answer. */
  lemma NothingPutOff(env: Env, c: Collected)
    requires Convert(env, c).Ok?
    ensures Finalized(env, Convert(env, c).value) == Convert(env, c).value
  {
    hide ResolvedText, IdsOf;
    var col := Convert(env, c).value.col;
    if env.schema[col].dictId in env.dicts {
      forall s: string ensures ResolvedText(env, s, col).Number? { TextsAreIds(env, s, col); }
      if c.Membership? { NoTexts(env, c.values, col); }
    }
  }

  lemma TextsAreIds(env: Env, s: string, col: nat)
    requires col < |env.schema| && env.schema[col].dictId in env.dicts
    ensures ResolvedText(env, s, col).Number?
  {
  }

  lemma {:induction false} NoTexts(env: Env, values: seq<Literal>, col: nat)
    requires col < |env.schema| && forall s :: ResolvedText(env, s, col).Number?
    ensures Texts(env, values, col) == []
    decreases |values|
  {
    if values == [] {
    } else {
      NoTexts(env, values[..|values| - 1], col);
    }
  }

  function ConvertAll(env: Env, cs: seq<Collected>): Result<seq<Filter>, int>
    decreases |cs|
  {
    if cs == [] then Ok([])
    else
      var front :- ConvertAll(env, cs[..|cs| - 1]);
      var last :- Convert(env, cs[|cs| - 1]);
      Ok(front + [last])
  }

  function Lower(env: Env, pred: Expr): Result<Plan, int> {
    var filters :- ConvertAll(env, Collect(pred));
    SortedCounts(env, filters);
    Ok(if |filters| > 1 then Plan(Sorted(env, filters), Conjunction(|filters|)) else Plan(filters, []))
  }

  lemma {:induction false} ConvertStops(env: Env, cs: seq<Collected>, i: nat)
    requires i <= |cs| && ConvertAll(env, cs[..i]).Err?
    ensures ConvertAll(env, cs) == ConvertAll(env, cs[..i])
    decreases |cs|
  {
    if i < |cs| {
      assert cs[..|cs| - 1][..i] == cs[..i];
      ConvertStops(env, cs[..|cs| - 1], i);
    } else {
      assert cs[..i] == cs;
    }
  }

  /** The WHERE part of applying a query to a fresh plan. */
  method ApplyWhere(env: Env, pred: Expr) returns (r: Result<Plan, int>)
    ensures r == Lower(env, pred)
  {
    hide ConvertAll, Collect, Sorted, Conjunction, Finalized;
    var collected := CollectInto(pred, []);
    assert collected == Collect(pred);
    var filters :- ConvertFilters(env, collected);
    var sorted, comb: seq<int> := filters, [];
    if |filters| > 1 {
      sorted := Sorted(env, filters);
      SortedCounts(env, filters);
      SameElements(env, sorted, filters);
      comb := BuildConjunction(|sorted|);
    }
    sorted := FinalizeFilters(env, sorted);
    return Ok(Plan(sorted, comb));
  }

  method ConvertFilters(env: Env, collected: seq<Collected>) returns (r: Result<seq<Filter>, int>)
    ensures r == ConvertAll(env, collected)
    ensures r.Ok? ==> forall f :: f in r.value ==> Finalized(env, f) == f
  {
    hide Convert, Finalized;
    var filters: seq<Filter> := [];
    for i := 0 to |collected|
      invariant ConvertAll(env, collected[..i]) == Ok(filters)
      invariant forall f :: f in filters ==> Finalized(env, f) == f
    {
      assert collected[..i + 1][..i] == collected[..i];
      var filter := Convert(env, collected[i]);
      if filter.Err? {
        ConvertStops(env, collected, i + 1);
        return Err(filter.error);
      }
      NothingPutOff(env, collected[i]);
      filters := filters + [filter.value];
    }
    assert collected[..|collected|] == collected;
    return Ok(filters);
  }

  method FinalizeFilters(env: Env, filters: seq<Filter>) returns (done: seq<Filter>)
    ensures |done| == |filters| && forall i :: 0 <= i < |filters| ==> done[i] == Finalized(env, filters[i])
    ensures (forall f :: f in filters ==> Finalized(env, f) == f) ==> done == filters
  {
    done := [];
    for i := 0 to |filters|
      invariant |done| == i && forall j :: 0 <= j < i ==> done[j] == Finalized(env, filters[j])
    {
      done := done + [Finalized(env, filters[i])];
    }
  }

  // ---------- the stable sort ----------

  lemma {:induction false} SortedCounts(env: Env, fs: seq<Filter>)
    ensures |Sorted(env, fs)| == |fs| && multiset(Sorted(env, fs)) == multiset(fs)
    decreases |fs|
  {
    hide SortKey;
    if fs == [] {
    } else {
      var front, last := fs[..|fs| - 1], fs[|fs| - 1];
      SortedCounts(env, front);
      assert fs == front + [last];
      assert SortKey(env, last) <= 2;
    }
  }

  lemma {:induction false} KeysOf(env: Env, fs: seq<Filter>, key: nat)
    ensures forall f :: f in WithKey(env, fs, key) <==> f in fs && SortKey(env, f) == key
    decreases |fs|
  {
    hide SortKey;
    if fs == [] {
    } else {
      KeysOf(env, fs[..|fs| - 1], key);
      assert fs == fs[..|fs| - 1] + [fs[|fs| - 1]];
    }
  }

  /** Sorting keeps the filters of each key in their order. */
  lemma SortIsStable(env: Env, fs: seq<Filter>, key: nat)
    requires key <= 2
    ensures WithKey(env, Sorted(env, fs), key) == WithKey(env, fs, key)
  {
    hide SortKey, WithKey;
    var a, b, c := WithKey(env, fs, 0), WithKey(env, fs, 1), WithKey(env, fs, 2);
    KeysOf(env, fs, 0);
    KeysOf(env, fs, 1);
    KeysOf(env, fs, 2);
    WithKeyConcat(env, a + b, c, key);
    WithKeyConcat(env, a, b, key);
    OnlyKey(env, a, 0, key);
    OnlyKey(env, b, 1, key);
    OnlyKey(env, c, 2, key);
  }

  /** Sorting puts lower keys first. */
  lemma SortAscends(env: Env, fs: seq<Filter>, i: nat, j: nat)
    requires i < j < |Sorted(env, fs)|
    ensures SortKey(env, Sorted(env, fs)[i]) <= SortKey(env, Sorted(env, fs)[j])
  {
    SortedKeyAt(env, fs, i);
    SortedKeyAt(env, fs, j);
  }

  /** The test of a string column for being empty, or for not being empty. */
  predicate TestsEmpty(env: Env, f: Filter, cmp: CmpOp) {
    f.op == Cmp(cmp) && f.valueStr == Some("") && f.col < |env.schema| && env.schema[f.col].isString
  }

  /** Tests for non-empty strings come first, then those for empty strings, then all others. */
  lemma EmptyTestsFirst(env: Env, fs: seq<Filter>, i: nat, j: nat)
    requires i < j < |Sorted(env, fs)|
    ensures
      var f, g := Sorted(env, fs)[i], Sorted(env, fs)[j];
      && (TestsEmpty(env, g, Ne) ==> TestsEmpty(env, f, Ne))
      && (TestsEmpty(env, g, Eq) ==> TestsEmpty(env, f, Ne) || TestsEmpty(env, f, Eq))
  {
    hide Sorted;
    SortAscends(env, fs, i, j);
  }

  lemma SortedKeyAt(env: Env, fs: seq<Filter>, i: nat)
    requires i < |Sorted(env, fs)|
    ensures
      var (a, b) := (|WithKey(env, fs, 0)|, |WithKey(env, fs, 1)|);
      SortKey(env, Sorted(env, fs)[i]) == if i < a then 0 else if i < a + b then 1 else 2
  {
    hide SortKey, WithKey;
    var a, b, c := WithKey(env, fs, 0), WithKey(env, fs, 1), WithKey(env, fs, 2);
    if i < |a| {
      KeysOf(env, fs, 0);
      assert (a + b + c)[i] == a[i];
    } else if i < |a| + |b| {
      KeysOf(env, fs, 1);
      assert (a + b + c)[i] == b[i - |a|];
    } else {
      KeysOf(env, fs, 2);
      assert (a + b + c)[i] == c[i - |a| - |b|];
    }
  }

  lemma {:induction false} WithKeyConcat(env: Env, a: seq<Filter>, b: seq<Filter>, key: nat)
    ensures WithKey(env, a + b, key) == WithKey(env, a, key) + WithKey(env, b, key)
    decreases |b|
  {
    hide SortKey;
    if b == [] {
      assert a + b == a;
    } else {
      assert (a + b)[..|a + b| - 1] == a + b[..|b| - 1];
      WithKeyConcat(env, a, b[..|b| - 1], key);
    }
  }

  lemma {:induction false} OnlyKey(env: Env, fs: seq<Filter>, has: nat, key: nat)
    requires forall f :: f in fs ==> SortKey(env, f) == has
    ensures WithKey(env, fs, key) == if has == key then fs else []
    decreases |fs|
  {
    hide SortKey;
    if fs == [] {
    } else {
      assert fs == fs[..|fs| - 1] + [fs[|fs| - 1]];
      OnlyKey(env, fs[..|fs| - 1], has, key);
    }
  }

  // ---------- the mask program ----------

  /** Runs a mask program for one row. `None`: a bad index, an empty stack, or not one mask left. */
  function Execute(comb: seq<int>, bits: seq<bool>, stack: seq<bool>): Option<seq<bool>>
    decreases |comb|
  {
    if comb == [] then Some(stack)
    else
      var c, n := comb[0], |stack|;
      if c == COMB_AND then
        if n < 2 then None else Execute(comb[1..], bits, stack[..n - 2] + [stack[n - 2] && stack[n - 1]])
      else if c == COMB_OR then
        if n < 2 then None else Execute(comb[1..], bits, stack[..n - 2] + [stack[n - 2] || stack[n - 1]])
      else if c == COMB_NOT then
        if n < 1 then None else Execute(comb[1..], bits, stack[..n - 1] + [!stack[n - 1]])
      else if 0 <= c < |bits| then Execute(comb[1..], bits, stack + [bits[c]])
      else None
  }

  function CombineMasks(comb: seq<int>, bits: seq<bool>): Option<bool> {
    var stack := Execute(comb, bits, []);
    if stack.Some? && |stack.value| == 1 then Some(stack.value[0]) else None
  }

  lemma {:induction false} ExecuteConcat(a: seq<int>, b: seq<int>, bits: seq<bool>, stack: seq<bool>)
    ensures Execute(a + b, bits, stack) ==
      var half := Execute(a, bits, stack);
      if half.None? then None else Execute(b, bits, half.value)
    decreases |a|
  {
    if a == [] {
      assert a + b == b;
    } else {
      assert (a + b)[1..] == a[1..] + b && (a + b)[0] == a[0];
      var c, n := a[0], |stack|;
      if c == COMB_AND {
        if n >= 2 { ExecuteConcat(a[1..], b, bits, stack[..n - 2] + [stack[n - 2] && stack[n - 1]]); }
      } else if c == COMB_OR {
        if n >= 2 { ExecuteConcat(a[1..], b, bits, stack[..n - 2] + [stack[n - 2] || stack[n - 1]]); }
      } else if c == COMB_NOT {
        if n >= 1 { ExecuteConcat(a[1..], b, bits, stack[..n - 1] + [!stack[n - 1]]); }
      } else if 0 <= c < |bits| {
        ExecuteConcat(a[1..], b, bits, stack + [bits[c]]);
      }
    }
  }

  /** A combination of filters. */
  datatype Combination = Leaf(i: nat) | Both(l: Combination, r: Combination) | Either(l: Combination, r: Combination)
    | Neither(c: Combination)

  predicate Known(c: Combination, n: nat) {
    match c
    case Leaf(i) => i < n
    case Both(l, r) => Known(l, n) && Known(r, n)
    case Either(l, r) => Known(l, n) && Known(r, n)
    case Neither(d) => Known(d, n)
  }

  function Evaluated(c: Combination, bits: seq<bool>): bool
    requires Known(c, |bits|)
  {
    match c
    case Leaf(i) => bits[i]
    case Both(l, r) => Evaluated(l, bits) && Evaluated(r, bits)
    case Either(l, r) => Evaluated(l, bits) || Evaluated(r, bits)
    case Neither(d) => !Evaluated(d, bits)
  }

  /** Operands first, then what to do with them: -1 for AND, -2 for OR, -3 for NOT. */
  function Polish(c: Combination): seq<int> {
    match c
    case Leaf(i) => [i]
    case Both(l, r) => Polish(l) + Polish(r) + [-1]
    case Either(l, r) => Polish(l) + Polish(r) + [-2]
    case Neither(d) => Polish(d) + [-3]
  }

  /** The program of any combination puts the combination's value on the stack. */
  lemma {:induction false} PolishExecutes(c: Combination, bits: seq<bool>, stack: seq<bool>)
    requires Known(c, |bits|)
    ensures Execute(Polish(c), bits, stack) == Some(stack + [Evaluated(c, bits)])
    decreases c
  {
    hide Execute;
    match c
    case Leaf(i) => OneToken(i, bits, stack);
    case Both(l, r) =>
      PolishExecutes(l, bits, stack);
      PolishExecutes(r, bits, stack + [Evaluated(l, bits)]);
      TwoOperands(l, r, -1, bits, stack);
    case Either(l, r) =>
      PolishExecutes(l, bits, stack);
      PolishExecutes(r, bits, stack + [Evaluated(l, bits)]);
      TwoOperands(l, r, -2, bits, stack);
    case Neither(d) =>
      PolishExecutes(d, bits, stack);
      ExecuteConcat(Polish(d), [-3], bits, stack);
      OneToken(-3, bits, stack + [Evaluated(d, bits)]);
      assert (stack + [Evaluated(d, bits)])[..|stack|] == stack;
  }

  lemma TwoOperands(l: Combination, r: Combination, op: int, bits: seq<bool>, stack: seq<bool>)
    requires Known(l, |bits|) && Known(r, |bits|) && (op == -1 || op == -2)
    requires Execute(Polish(l), bits, stack) == Some(stack + [Evaluated(l, bits)])
    requires Execute(Polish(r), bits, stack + [Evaluated(l, bits)])
      == Some(stack + [Evaluated(l, bits)] + [Evaluated(r, bits)])
    ensures
      var a, b := Evaluated(l, bits), Evaluated(r, bits);
      Execute(Polish(l) + Polish(r) + [op], bits, stack) == Some(stack + [if op == -1 then a && b else a || b])
  {
    hide Execute, Evaluated, Polish;
    var a, b := Evaluated(l, bits), Evaluated(r, bits);
    ExecuteConcat(Polish(l), Polish(r), bits, stack);
    ExecuteConcat(Polish(l) + Polish(r), [op], bits, stack);
    OneToken(op, bits, stack + [a] + [b]);
    assert (stack + [a] + [b])[..|stack|] == stack;
  }

  /** One token of a program. */
  lemma OneToken(c: int, bits: seq<bool>, stack: seq<bool>)
    ensures
      var n := |stack|;
      Execute([c], bits, stack) ==
        if c == -1 then (if n < 2 then None else Some(stack[..n - 2] + [stack[n - 2] && stack[n - 1]]))
        else if c == -2 then (if n < 2 then None else Some(stack[..n - 2] + [stack[n - 2] || stack[n - 1]]))
        else if c == -3 then (if n < 1 then None else Some(stack[..n - 1] + [!stack[n - 1]]))
        else if 0 <= c < |bits| then Some(stack + [bits[c]])
        else None
  {
    assert [c][1..] == [];
  }

  predicate AllSet(bits: seq<bool>, n: nat)
    requires n <= |bits|
  {
    forall i :: 0 <= i < n ==> bits[i]
  }

  lemma AndStep(bits: seq<bool>, c: nat, top: bool)
    requires c < |bits|
    ensures Execute([c as int, COMB_AND], bits, [top]) == Some([top && bits[c]])
  {
    var comb: seq<int> := [c, COMB_AND];
    assert comb[1..] == [COMB_AND] && comb[1..][1..] == [];
    assert [top] + [bits[c]] == [top, bits[c]];
    assert [top, bits[c]][..0] + [top && bits[c]] == [top && bits[c]];
    var rest: seq<int> := [COMB_AND];
    assert rest[1..] == [];
    assert Execute(rest, bits, [top, bits[c]]) == Some([top && bits[c]]);
  }

  /** The program never runs out of masks, leaves exactly one, and that one is the conjunction of them all. */
  lemma {:induction false} ConjunctionIsAnd(n: nat, bits: seq<bool>)
    requires 2 <= n <= |bits|
    ensures Execute(Conjunction(n), bits, []) == Some([AllSet(bits, n)])
    decreases n
  {
    if n == 2 {
      var comb: seq<int> := [0, 1, COMB_AND];
      assert comb[1..] == [1, COMB_AND];
      assert [] + [bits[0]] == [bits[0]];
      AndStep(bits, 1, bits[0]);
    } else {
      ConjunctionIsAnd(n - 1, bits);
      ExecuteConcat(Conjunction(n - 1), [n - 1, COMB_AND], bits, []);
      AndStep(bits, n - 1, AllSet(bits, n - 1));
    }
  }

  // ---------- what a plan accepts ----------

  /** The bytes a cell of a string column stands for: those under its id, or its own text. */
  ghost function CellText(env: Env, row: Row, col: nat): seq<byte>
    requires |row| == |env.schema| && col < |row|
  {
    if env.schema[col].isString && env.schema[col].dictId in env.dicts
      && exists id: nat :: HoldsId(env, row[col], col, id) then
      var id: nat :| HoldsId(env, row[col], col, id);
      ValueBytes(env.dicts[env.schema[col].dictId], id).value
    else BytesOf(row[col].text)
  }

  ghost predicate Accepts(env: Env, f: Filter, row: Row)
    requires |row| == |env.schema| && f.col < |row|
  {
    var cell := row[f.col];
    if !f.op.Cmp? then
      f.valueStr.Some? && (LikePattern.Contains(CellText(env, row, f.col), BytesOf(f.valueStr.value)) <==> f.op.LikeOp?)
    else if f.inList.Some? then exists v :: v in f.inList.value && Compares(Eq, cell.num, v)
    else if f.inListStr.Some? then exists t :: t in f.inListStr.value && env.textTest(Cmp(Eq), cell, t)
    else if f.valueStr.Some? then env.textTest(f.op, cell, f.valueStr.value)
    else Compares(f.op.cmp, cell.num, f.value)
  }

  ghost predicate ColumnsExist(env: Env, fs: seq<Filter>) {
    forall i :: 0 <= i < |fs| ==> fs[i].col < |env.schema|
  }

  ghost function Bits(env: Env, fs: seq<Filter>, row: Row): (bits: seq<bool>)
    requires |row| == |env.schema| && ColumnsExist(env, fs)
    ensures |bits| == |fs|
  {
    seq(|fs|, i requires 0 <= i < |fs| => Accepts(env, fs[i], row))
  }

  /** The program decides when there is one; a single filter stands alone, and no filter accepts everything. */
  ghost predicate PlanAccepts(env: Env, p: Plan, row: Row)
    requires |row| == |env.schema| && ColumnsExist(env, p.filters)
  {
    if p.combine != [] then CombineMasks(p.combine, Bits(env, p.filters, row)) == Some(true)
    else forall i :: 0 <= i < |p.filters| ==> Accepts(env, p.filters[i], row)
  }

  lemma ConvertExists(env: Env, c: Collected)
    requires Convert(env, c).Ok?
    ensures Convert(env, c).value.col < |env.schema|
  {
  }

  lemma {:induction false} ConvertAllExist(env: Env, cs: seq<Collected>)
    requires ConvertAll(env, cs).Ok?
    ensures |ConvertAll(env, cs).value| == |cs| && ColumnsExist(env, ConvertAll(env, cs).value)
    ensures forall i :: 0 <= i < |cs| ==> Convert(env, cs[i]) == Ok(ConvertAll(env, cs).value[i])
    decreases |cs|
  {
    hide Convert;
    if cs == [] {
    } else {
      ConvertAllExist(env, cs[..|cs| - 1]);
      ConvertExists(env, cs[|cs| - 1]);
    }
  }

  lemma SameElements(env: Env, a: seq<Filter>, b: seq<Filter>)
    requires multiset(a) == multiset(b)
    ensures forall f :: f in a <==> f in b
  {
    forall f ensures f in a <==> f in b { assert f in multiset(a) <==> f in multiset(b); }
  }

  /** A lowered plan accepts a row exactly when every filter does, in whatever order they are tested. */
  lemma PlanIsConjunction(env: Env, pred: Expr, row: Row)
    requires Lower(env, pred).Ok? && |row| == |env.schema|
    ensures ColumnsExist(env, Lower(env, pred).value.filters)
    ensures
      var filters := ConvertAll(env, Collect(pred)).value;
      && ColumnsExist(env, filters)
      && (PlanAccepts(env, Lower(env, pred).value, row) <==>
           forall i :: 0 <= i < |filters| ==> Accepts(env, filters[i], row))
  {
    hide Accepts, Collect, ConvertAll, Sorted, Execute, Conjunction;
    var filters, plan := ConvertAll(env, Collect(pred)).value, Lower(env, pred).value;
    ConvertAllExist(env, Collect(pred));
    if |filters| > 1 {
      var sorted := Sorted(env, filters);
      SortedCounts(env, filters);
      SameElements(env, sorted, filters);
      forall i | 0 <= i < |sorted| ensures sorted[i].col < |env.schema| {
        assert sorted[i] in sorted;
      }
      var bits := Bits(env, sorted, row);
      ConjunctionIsAnd(|sorted|, bits);
      ConjunctionNotEmpty(|sorted|);
      AllInEither(env, sorted, filters, row);
    }
  }

  lemma ConjunctionNotEmpty(n: nat)
    requires n >= 2
    ensures Conjunction(n) != []
  {
  }

  lemma AllInEither(env: Env, a: seq<Filter>, b: seq<Filter>, row: Row)
    requires |row| == |env.schema| && ColumnsExist(env, a) && ColumnsExist(env, b)
    requires forall f :: f in a <==> f in b
    ensures AllSet(Bits(env, a, row), |a|) <==> forall i :: 0 <= i < |b| ==> Accepts(env, b[i], row)
  {
    hide Accepts;
    if AllSet(Bits(env, a, row), |a|) {
      forall i | 0 <= i < |b| ensures Accepts(env, b[i], row) {
        assert b[i] in a;
        var j :| 0 <= j < |a| && a[j] == b[i];
        assert Bits(env, a, row)[j];
      }
    }
    if forall i :: 0 <= i < |b| ==> Accepts(env, b[i], row) {
      forall j | 0 <= j < |a| ensures Bits(env, a, row)[j] {
        assert a[j] in b;
        var i :| 0 <= i < |b| && b[i] == a[j];
      }
    }
  }

  // ---------- what the clause means ----------

  /** No value stands under two ids. */
  ghost predicate NoRepeats(d: Dictionary) {
    forall i: nat, j: nat :: ValueBytes(d, i).Some? && ValueBytes(d, i) == ValueBytes(d, j) ==> i == j
  }

  /** A string column with a dictionary of different values, whose ids are below the one that stands for no value. */
  ghost predicate Searchable(env: Env, col: nat)
    requires col < |env.schema|
  {
    var c := env.schema[col];
    c.isString && c.dictId in env.dicts && NoRepeats(env.dicts[c.dictId]) && |env.dicts[c.dictId].offsets| <= NO_ID + 1
  }

  /** The cell holds the id of a value of the column's dictionary. */
  ghost predicate HoldsId(env: Env, cell: Cell, col: nat, id: nat)
    requires col < |env.schema| && env.schema[col].dictId in env.dicts
  {
    cell.num == Num(id as real) && ValueBytes(env.dicts[env.schema[col].dictId], id).Some?
  }

  /** A row of the table: its string columns hold ids of their dictionaries. */
  ghost predicate IsRow(env: Env, row: Row) {
    && |row| == |env.schema|
    && forall c :: 0 <= c < |row| && env.schema[c].isString && env.schema[c].dictId in env.dicts ==>
         exists id: nat :: HoldsId(env, row[c], c, id)
  }

  /** The string a row has in a column: the bytes under its id. */
  ghost function StringAt(env: Env, row: Row, col: nat): seq<byte>
    requires col < |env.schema| && IsRow(env, row) && env.schema[col].isString && env.schema[col].dictId in env.dicts
  {
    var id: nat :| HoldsId(env, row[col], col, id);
    ValueBytes(env.dicts[env.schema[col].dictId], id).value
  }

  /** The text is the full-date of the day `n` days after 1970-01-01. */
  ghost predicate IsDay(s: string, n: int) {
    var d := Calendar.Counted(n);
    0 <= d.year < 10000 && BytesOf(s) == Calendar.FullDate(d.year, d.month, d.day)
  }

  /** What arithmetic on integers comes to; nothing for anything else. */
  function IntegerValue(e: Expr): Option<int> {
    match e
    case Int(i) => Some(i)
    case Binary(op, l, r) =>
      var a, b := IntegerValue(l), IntegerValue(r);
      if a.None? || b.None? then None else Some(match op case Add => a.value + b.value case Sub => a.value - b.value)
    case _ => None
  }

  /** A literal as it is written: an integer, one with a minus sign in front, or a string. */
  predicate IsLiteral(e: Expr) {
    e.Int? || e.Str? || (e.Binary? && e.bin == Sub && e.lhs == Int(0) && e.rhs.Int?)
  }

  /** The plan takes these and no others for literals, with the values they have. */
  lemma LiteralIs(e: Expr)
    ensures LiteralOf(e).Some? <==> IsLiteral(e)
    ensures IsLiteral(e) ==>
      if e.Str? then LiteralOf(e) == Some(StrLit(e.raw))
      else IntegerValue(e).Some? && LiteralOf(e) == Some(IntLit(IntegerValue(e).value))
  {
    if e.Binary? && LiteralOf(e).Some? {
      assert IntegerValue(e.lhs) == Some(0) && IntegerValue(e.rhs) == Some(e.rhs.value);
    }
  }

  /**
   The literals this is about: integers; on a string column with a dictionary, strings that are compared for
   equality; on a plain column, strings that spell a number or a day. What is no number is compared for anything but
   being different.
   */
  ghost predicate SupportedLiteral(env: Env, op: CmpOp, col: nat, e: Expr)
    requires col < |env.schema|
  {
    && IsLiteral(e) && (op == Ne ==> !Worth(env, col, e, NaN))
    && (e.Str? ==>
          if env.schema[col].isString then Searchable(env, col) && (op == Eq || op == Ne)
          else !env.schema[col].isDict && (env.parseNumber(e.raw).Some? || exists n :: IsDay(e.raw, n)))
  }

  /** What comparing a row's column with a literal means. */
  ghost predicate MeansLiteral(env: Env, op: CmpOp, row: Row, col: nat, e: Expr)
    requires col < |env.schema| && IsRow(env, row) && SupportedLiteral(env, op, col, e)
  {
    if !e.Str? then IntegerValue(e).Some? && Holds(op, row[col].num, env.cast(IntegerValue(e).value))
    else if env.schema[col].isString then (StringAt(env, row, col) == BytesOf(e.raw) <==> op == Eq)
    else if env.parseNumber(e.raw).Some? then Holds(op, row[col].num, env.parseNumber(e.raw).value)
    else exists n :: IsDay(e.raw, n) && Holds(op, row[col].num, env.cast(n))
  }

  /** Patterns of bytes that start and end with a percent sign and have no other sign. */
  predicate SupportedPattern(p: string) {
    (forall i :: 0 <= i < |p| ==> p[i] as int < 256) && LikePattern.Framed(BytesOf(p))
  }

  /** The conjuncts this is about: a column on the left of a literal, of a list of literals or of a pattern. */
  ghost predicate Supported(env: Env, e: Expr) {
    match e
    case And(l, r) => Supported(env, l) && Supported(env, r)
    case Compare(op, l, r) =>
      && l.Ident? && ColumnId(env.schema, l.name, 0).Some?
      && SupportedLiteral(env, op, ColumnId(env.schema, l.name, 0).value, r)
    case In(l, values, negated) =>
      && l.Ident? && !negated && values != [] && ColumnId(env.schema, l.name, 0).Some?
      && forall i :: 0 <= i < |values| ==>
           SupportedLiteral(env, Eq, ColumnId(env.schema, l.name, 0).value, values[i])
    case Like(l, p, _) =>
      && l.Ident? && p.Str? && ColumnId(env.schema, l.name, 0).Some?
      && env.schema[ColumnId(env.schema, l.name, 0).value].isString && SupportedPattern(p.raw)
    case _ => false
  }

  /** What a clause says of a row. */
  ghost predicate Means(env: Env, e: Expr, row: Row)
    requires Supported(env, e) && IsRow(env, row)
  {
    match e
    case And(l, r) => Means(env, l, row) && Means(env, r, row)
    case Compare(op, l, r) => MeansLiteral(env, op, row, ColumnId(env.schema, l.name, 0).value, r)
    case In(l, values, _) =>
      exists i :: 0 <= i < |values|
        && MeansLiteral(env, Eq, row, ColumnId(env.schema, l.name, 0).value, values[i])
    case Like(l, p, negated) =>
      LikePattern.Matches(CellText(env, row, ColumnId(env.schema, l.name, 0).value), BytesOf(p.raw)) <==> !negated
  }

  /** A supported literal becomes a number that compares with the column as the literal does. */
  lemma LiteralLowers(env: Env, op: CmpOp, row: Row, col: nat, e: Expr)
    requires col < |env.schema| && IsRow(env, row) && SupportedLiteral(env, op, col, e)
    ensures LiteralOf(e).Some? && Resolved(env, LiteralOf(e).value, col).Number?
    ensures Compares(op, row[col].num, Resolved(env, LiteralOf(e).value, col).num)
      <==> MeansLiteral(env, op, row, col, e)
  {
    hide LiteralOf, Holds, Compares, IntegerValue;
    LiteralIs(e);
    var v := Resolved(env, LiteralOf(e).value, col);
    if v.Number? { ExecutorCompares(op, row[col].num, v.num); }
    if e.Str? {
      if env.schema[col].isString {
        StringLowers(env, op, row, col, e.raw);
      } else if env.parseNumber(e.raw).None? {
        DayLowers(env, e.raw, col);
      }
    }
  }

  lemma StringLowers(env: Env, op: CmpOp, row: Row, col: nat, s: string)
    requires col < |env.schema| && IsRow(env, row) && Searchable(env, col) && (op == Eq || op == Ne)
    ensures ResolvedText(env, s, col).Number?
    ensures Compares(op, row[col].num, ResolvedText(env, s, col).num)
      <==> (StringAt(env, row, col) == BytesOf(s) <==> op == Eq)
  {
    hide BytesOf, ValueBytes;
    var d := env.dicts[env.schema[col].dictId];
    var id: nat :| HoldsId(env, row[col], col, id) && StringAt(env, row, col) == ValueBytes(d, id).value;
    var found := FirstId(d, BytesOf(s));
    assert id < NO_ID by { IdsBelow(d, id); }
    if found.Some? && ValueBytes(d, id).value == BytesOf(s) { assert found.value == id; }
  }

  lemma IdsBelow(d: Dictionary, id: nat)
    requires ValueBytes(d, id).Some?
    ensures id + 1 < |d.offsets|
  {
  }

  lemma DayLowers(env: Env, s: string, col: nat)
    requires col < |env.schema| && !env.schema[col].isString && !env.schema[col].isDict && env.parseNumber(s).None?
    requires exists n :: IsDay(s, n)
    ensures exists n :: IsDay(s, n) && ResolvedText(env, s, col) == Number(env.cast(n))
    ensures forall n, m :: IsDay(s, n) && IsDay(s, m) ==> n == m
  {
    forall n | IsDay(s, n) ensures Calendar.ParseYmd(BytesOf(s)) == Some(n) { DayParses(s, n); }
  }

  lemma DayParses(s: string, n: int)
    requires IsDay(s, n)
    ensures Calendar.ParseYmd(BytesOf(s)) == Some(n)
  {
    hide Calendar.ParseYmd, Calendar.FullDate, Calendar.Counted, Calendar.Number;
    var d := Calendar.Counted(n);
    Calendar.DateLiteral(d.year, d.month, d.day, d);
    Calendar.NumberCounts(n);
  }

  lemma {:induction false} LiteralsAll(es: seq<Expr>)
    requires forall i :: 0 <= i < |es| ==> LiteralOf(es[i]).Some?
    ensures |Literals(es)| == |es| && forall i :: 0 <= i < |es| ==> Literals(es)[i] == LiteralOf(es[i]).value
    decreases |es|
  {
    hide LiteralOf;
    if es == [] {
    } else {
      LiteralsAll(es[..|es| - 1]);
    }
  }

  lemma {:induction false} NumbersAll(env: Env, values: seq<Literal>, col: nat)
    requires col < |env.schema| && forall i :: 0 <= i < |values| ==> Resolved(env, values[i], col).Number?
    ensures |Numbers(env, values, col)| == |values| && Texts(env, values, col) == []
    ensures forall i :: 0 <= i < |values| ==> Numbers(env, values, col)[i] == Resolved(env, values[i], col).num
    decreases |values|
  {
    hide Resolved;
    if values == [] {
    } else {
      NumbersAll(env, values[..|values| - 1], col);
    }
  }

  lemma NumberList(env: Env, e: Expr, row: Row, id: nat)
    requires e.In? && Supported(env, e) && IsRow(env, row) && Some(id) == ColumnId(env.schema, e.operand.name, 0)
    ensures Texts(env, Literals(e.values), id) == []
    ensures (exists v :: v in Numbers(env, Literals(e.values), id) && Compares(Eq, row[id].num, v))
      <==> Means(env, e, row)
  {
    hide LiteralOf, Resolved, Compares, SupportedLiteral, MeansLiteral;
    forall i | 0 <= i < |e.values| ensures LiteralOf(e.values[i]).Some? {
      LiteralLowers(env, Eq, row, id, e.values[i]);
    }
    LiteralsAll(e.values);
    var lits := Literals(e.values);
    forall i | 0 <= i < |lits| ensures Resolved(env, lits[i], id).Number? {
      LiteralLowers(env, Eq, row, id, e.values[i]);
    }
    NumbersAll(env, lits, id);
    var list := Numbers(env, lits, id);
    if v :| v in list && Compares(Eq, row[id].num, v) {
      var i :| 0 <= i < |list| && list[i] == v;
      LiteralLowers(env, Eq, row, id, e.values[i]);
      assert MeansLiteral(env, Eq, row, id, e.values[i]);
    }
    if Means(env, e, row) {
      var i :| 0 <= i < |e.values| && MeansLiteral(env, Eq, row, id, e.values[i]);
      LiteralLowers(env, Eq, row, id, e.values[i]);
      assert list[i] in list;
    }
  }

  /** A supported IN list is one filter, which accepts the rows whose column is in the list. */
  lemma MembershipLowers(env: Env, e: Expr, row: Row)
    requires e.In? && Supported(env, e) && IsRow(env, row)
    ensures CollectOne(e).Some? && Convert(env, CollectOne(e).value).Ok?
    ensures Convert(env, CollectOne(e).value).value.col < |env.schema|
    ensures Accepts(env, Convert(env, CollectOne(e).value).value, row) <==> Means(env, e, row)
  {
    hide LiteralOf, Resolved, Compares, Means, MeansLiteral, Literals, Numbers, Texts, SupportedLiteral;
    forall i | 0 <= i < |e.values| ensures LiteralOf(e.values[i]).Some? {
      LiteralLowers(env, Eq, row, ColumnId(env.schema, e.operand.name, 0).value, e.values[i]);
    }
    LiteralsAll(e.values);
    NumberList(env, e, row, ColumnId(env.schema, e.operand.name, 0).value);
  }

  lemma {:induction false} StartTrims(p: string)
    requires forall i :: 0 <= i < |p| ==> p[i] as int < 256
    ensures BytesOf(TrimmedStart(p)) == LikePattern.TrimStart(BytesOf(p))
    ensures forall i :: 0 <= i < |TrimmedStart(p)| ==> TrimmedStart(p)[i] as int < 256
    decreases |p|
  {
    if p != "" && p[0] == '%' {
      assert BytesOf(p)[1..] == BytesOf(p[1..]);
      StartTrims(p[1..]);
    }
  }

  lemma {:induction false} EndTrims(p: string)
    requires forall i :: 0 <= i < |p| ==> p[i] as int < 256
    ensures BytesOf(TrimmedEnd(p)) == LikePattern.TrimEnd(BytesOf(p))
    decreases |p|
  {
    if p != "" && p[|p| - 1] == '%' {
      assert BytesOf(p)[..|p| - 1] == BytesOf(p[..|p| - 1]);
      EndTrims(p[..|p| - 1]);
    }
  }

  lemma PatternTrims(p: string)
    requires forall i :: 0 <= i < |p| ==> p[i] as int < 256
    ensures BytesOf(Trimmed(p)) == LikePattern.Trim(BytesOf(p))
  {
    hide TrimmedStart, TrimmedEnd, BytesOf;
    StartTrims(p);
    EndTrims(TrimmedStart(p));
  }

  lemma PatternLowers(env: Env, e: Expr, row: Row)
    requires e.Like? && Supported(env, e) && IsRow(env, row)
    ensures CollectOne(e).Some? && Convert(env, CollectOne(e).value).Ok?
    ensures Convert(env, CollectOne(e).value).value.col < |env.schema|
    ensures Accepts(env, Convert(env, CollectOne(e).value).value, row) <==> Means(env, e, row)
  {
    hide Trimmed, BytesOf, CellText, LikePattern.Matches, LikePattern.Contains, LikePattern.Framed;
    PatternTrims(e.pattern.raw);
    LikePattern.SearchRightExactly(BytesOf(e.pattern.raw));
  }

  /** A supported conjunct is one filter, which accepts the rows the conjunct accepts. */
  lemma ConjunctLowers(env: Env, e: Expr, row: Row)
    requires !e.And? && Supported(env, e) && IsRow(env, row)
    ensures CollectOne(e).Some? && Convert(env, CollectOne(e).value).Ok?
    ensures Convert(env, CollectOne(e).value).value.col < |env.schema|
    ensures Accepts(env, Convert(env, CollectOne(e).value).value, row) <==> Means(env, e, row)
  {
    hide Compares, Literals, SupportedLiteral, MeansLiteral, Resolved;
    if e.In? {
      MembershipLowers(env, e, row);
    } else if e.Like? {
      PatternLowers(env, e, row);
    } else {
      LiteralLowers(env, e.cmp, row, ColumnId(env.schema, e.left.name, 0).value, e.right);
    }
  }

  lemma {:induction false} ConvertAllConcat(env: Env, a: seq<Collected>, b: seq<Collected>)
    requires ConvertAll(env, a).Ok? && ConvertAll(env, b).Ok?
    ensures ConvertAll(env, a + b) == Ok(ConvertAll(env, a).value + ConvertAll(env, b).value)
    decreases |b|
  {
    hide Convert;
    if b == [] {
      assert a + b == a;
      assert ConvertAll(env, a).value + [] == ConvertAll(env, a).value;
    } else {
      assert (a + b)[..|a + b| - 1] == a + b[..|b| - 1];
      ConvertAllConcat(env, a, b[..|b| - 1]);
      assert (a + b)[|a + b| - 1] == b[|b| - 1];
      var x, y := ConvertAll(env, a).value, ConvertAll(env, b[..|b| - 1]).value;
      var last := Convert(env, b[|b| - 1]).value;
      assert x + y + [last] == x + (y + [last]);
    }
  }

  lemma ConvertOne(env: Env, c: Collected)
    ensures ConvertAll(env, [c]) ==
      if Convert(env, c).Ok? then Ok([Convert(env, c).value]) else Err(Convert(env, c).error)
  {
    hide Convert;
    assert [c][..0] == [];
    if Convert(env, c).Ok? { assert [] + [Convert(env, c).value] == [Convert(env, c).value]; }
  }

  ghost predicate AllAccept(env: Env, fs: seq<Filter>, row: Row)
    requires |row| == |env.schema|
  {
    ColumnsExist(env, fs) && forall i :: 0 <= i < |fs| ==> Accepts(env, fs[i], row)
  }

  lemma AcceptConcat(env: Env, a: seq<Filter>, b: seq<Filter>, row: Row)
    requires |row| == |env.schema| && ColumnsExist(env, a) && ColumnsExist(env, b)
    ensures AllAccept(env, a + b, row) <==> AllAccept(env, a, row) && AllAccept(env, b, row)
  {
    hide Accepts;
    if AllAccept(env, a + b, row) {
      forall i | 0 <= i < |a| ensures Accepts(env, a[i], row) { assert (a + b)[i] == a[i]; }
      forall i | 0 <= i < |b| ensures Accepts(env, b[i], row) { assert (a + b)[|a| + i] == b[i]; }
    }
  }

  lemma {:induction false} FiltersMean(env: Env, e: Expr, row: Row)
    requires Supported(env, e) && IsRow(env, row)
    ensures ConvertAll(env, Collect(e)).Ok?
    ensures AllAccept(env, ConvertAll(env, Collect(e)).value, row) <==> Means(env, e, row)
  {
    hide Convert, CollectOne, Accepts;
    if e.And? {
      FiltersMean(env, e.first, row);
      FiltersMean(env, e.second, row);
      ConvertAllConcat(env, Collect(e.first), Collect(e.second));
      ConvertAllExist(env, Collect(e.first));
      ConvertAllExist(env, Collect(e.second));
      AcceptConcat(env, ConvertAll(env, Collect(e.first)).value, ConvertAll(env, Collect(e.second)).value, row);
    } else {
      ConjunctLowers(env, e, row);
      ConvertOne(env, CollectOne(e).value);
      OneAccepts(env, Convert(env, CollectOne(e).value).value, row);
    }
  }

  lemma OneAccepts(env: Env, f: Filter, row: Row)
    requires |row| == |env.schema| && f.col < |row|
    ensures AllAccept(env, [f], row) <==> Accepts(env, f, row)
  {
    hide Accepts;
    assert [f][0] == f;
  }

  /**
   For every tree of ANDs over supported conjuncts, flattening, converting, sorting and the mask program together
   accept exactly the rows the clause accepts.
   */
  lemma LoweringIsFaithful(env: Env, e: Expr, row: Row)
    requires Supported(env, e) && IsRow(env, row)
    ensures Lower(env, e).Ok? && ColumnsExist(env, Lower(env, e).value.filters)
    ensures PlanAccepts(env, Lower(env, e).value, row) <==> Means(env, e, row)
  {
    hide PlanAccepts, Means, Collect, ConvertAll, Sorted, Conjunction, Accepts;
    FiltersMean(env, e, row);
    PlanIsConjunction(env, e, row);
  }

  /** `x > -5` accepts the row in which `x` is 0, and rejects the one in which it is -5. */
  lemma AboveMinusFive()
    ensures
      var e := Compare(Gt, Ident("x"), Binary(Sub, Int(0), Int(5)));
      var plan := Lower(TwoColumns(), e);
      && plan.Ok? && ColumnsExist(TwoColumns(), plan.value.filters)
      && PlanAccepts(TwoColumns(), plan.value, PlainRow(0.0, 0.0))
           && !PlanAccepts(TwoColumns(), plan.value, PlainRow(-5.0, 0.0))
  {
    hide PlanAccepts, Lower;
    var e := Compare(Gt, Ident("x"), Binary(Sub, Int(0), Int(5)));
    assert IntegerValue(e.right) == Some(-5);
    LoweringIsFaithful(TwoColumns(), e, PlainRow(0.0, 0.0));
    LoweringIsFaithful(TwoColumns(), e, PlainRow(-5.0, 0.0));
  }

  // ---------- a literal on the left ----------

  /** The side a literal stands on makes no difference to the plan. */
  lemma SidesAreOne(env: Env, op: CmpOp, lit: Expr, name: string)
    requires LiteralOf(lit).Some?
    ensures Lower(env, Compare(op, lit, Ident(name))) == Lower(env, Compare(op, Ident(name), lit))
  {
    hide ConvertAll;
    assert Collect(Compare(op, lit, Ident(name))) == Collect(Compare(op, Ident(name), lit));
  }

  /** What a literal is worth beside a column: an integer, or on a plain column the number or the day a text spells. */
  ghost predicate Worth(env: Env, col: nat, e: Expr, v: Num)
    requires col < |env.schema|
  {
    && IsLiteral(e)
    && if !e.Str? then IntegerValue(e).Some? && v == env.cast(IntegerValue(e).value)
       else
         && !env.schema[col].isString && !env.schema[col].isDict
         && if env.parseNumber(e.raw).Some? then v == env.parseNumber(e.raw).value
            else exists n :: IsDay(e.raw, n) && v == env.cast(n)
  }

  lemma WorthResolves(env: Env, col: nat, e: Expr, v: Num)
    requires col < |env.schema| && Worth(env, col, e, v)
    ensures LiteralOf(e).Some? && Resolved(env, LiteralOf(e).value, col) == Number(v)
  {
    hide LiteralOf, IntegerValue;
    LiteralIs(e);
    if e.Str? && env.parseNumber(e.raw).None? { DayLowers(env, e.raw, col); }
  }

  /** The plan accepts exactly the rows in which `v`, which the literal is worth, compares with the column. */
  ghost predicate LeftIsRight(env: Env, op: CmpOp, lit: Expr, name: string, v: Num)
    requires ColumnId(env.schema, name, 0).Some?
  {
    var id, plan := ColumnId(env.schema, name, 0).value, Lower(env, Compare(op, lit, Ident(name)));
    && plan.Ok? && ColumnsExist(env, plan.value.filters)
    && forall row: Row :: |row| == |env.schema| ==> (PlanAccepts(env, plan.value, row) <==> Holds(op, v, row[id].num))
  }

  /** A single conjunct's plan accepts what its filter accepts. */
  lemma OneFilter(env: Env, e: Expr, row: Row)
    requires !e.And? && CollectOne(e).Some? && Convert(env, CollectOne(e).value).Ok? && |row| == |env.schema|
    ensures
      var f, plan := Convert(env, CollectOne(e).value).value, Lower(env, e);
      && f.col < |row| && plan.Ok? && ColumnsExist(env, plan.value.filters)
      && (PlanAccepts(env, plan.value, row) <==> Accepts(env, f, row))
  {
    hide PlanAccepts, Accepts, CollectOne, Convert;
    var c := CollectOne(e).value;
    ConvertExists(env, c);
    ConvertOne(env, c);
    var filters := ConvertAll(env, Collect(e)).value;
    assert filters == [Convert(env, c).value];
    PlanIsConjunction(env, e, row);
    assert filters[0] == Convert(env, c).value;
  }

  /** What the plan of such a comparison accepts: the rows in which the column compares with the literal. */
  lemma LeftAccepts(env: Env, op: CmpOp, lit: Expr, name: string, v: Num, row: Row)
    requires ColumnId(env.schema, name, 0).Some? && |row| == |env.schema|
    requires Worth(env, ColumnId(env.schema, name, 0).value, lit, v)
    ensures
      var id, plan := ColumnId(env.schema, name, 0).value, Lower(env, Compare(op, lit, Ident(name)));
      && plan.Ok? && ColumnsExist(env, plan.value.filters)
      && (PlanAccepts(env, plan.value, row) <==> Compares(op, row[id].num, v))
  {
    hide Compares, PlanAccepts, Accepts, Lower, LiteralOf, Resolved, Worth;
    var e := Compare(op, Ident(name), lit);
    WorthResolves(env, ColumnId(env.schema, name, 0).value, lit, v);
    SidesAreOne(env, op, lit, name);
    OneFilter(env, e, row);
    PlainFilter(env, Convert(env, CollectOne(e).value).value, row);
  }

  lemma PlainFilter(env: Env, f: Filter, row: Row)
    requires |row| == |env.schema| && f.col < |row| && f.op.Cmp? && f.inList.None? && f.inListStr.None?
      && f.valueStr.None?
    ensures Accepts(env, f, row) <==> Compares(f.op.cmp, row[f.col].num, f.value)
  {
  }

  /** The number one above tells the two readings apart. */
  lemma OneAbove(op: CmpOp, n: Num)
    requires op != Eq && op != Ne && n != NaN
    ensures Holds(op, n, Num(n.r + 1.0)) != Holds(op, Num(n.r + 1.0), n)
  {
  }

  /**
   Lowering a comparison with a literal on the left is right exactly for the operators that do not care about sides,
   unless a number is to differ from what is none, and for the others when the literal is no number.
   */
  lemma LeftLiteralExactly(env: Env, op: CmpOp, lit: Expr, name: string, v: Num)
    requires ColumnId(env.schema, name, 0).Some?
    requires Worth(env, ColumnId(env.schema, name, 0).value, lit, v)
    ensures LeftIsRight(env, op, lit, name, v) <==> op == Eq || (op == Ne <==> v != NaN)
  {
    hide PlanAccepts, Lower, LiteralOf, Worth;
    var id := ColumnId(env.schema, name, 0).value;
    var some: Row := seq(|env.schema|, _ => Cell(NaN, ""));
    LeftAccepts(env, op, lit, name, v, some);
    forall row: Row | |row| == |env.schema|
      ensures PlanAccepts(env, Lower(env, Compare(op, lit, Ident(name))).value, row) <==> Compares(op, row[id].num, v)
    {
      LeftAccepts(env, op, lit, name, v, row);
    }
    if op == Ne && v == NaN {
      var row := some[id := Cell(Num(0.0), "")];
      assert row[id].num == Num(0.0);
    } else if op != Eq && op != Ne && v != NaN {
      OneAbove(op, v);
      var x := Num(v.r + 1.0);
      var row := some[id := Cell(x, "")];
      assert row[id].num == x;
    }
  }

  /** With the literal on the right it is right exactly unless a number is to differ from what is none. */
  lemma RightLiteralExactly(env: Env, op: CmpOp, lit: Expr, name: string, v: Num)
    requires ColumnId(env.schema, name, 0).Some? && Worth(env, ColumnId(env.schema, name, 0).value, lit, v)
    ensures
      var id, plan := ColumnId(env.schema, name, 0).value, Lower(env, Compare(op, Ident(name), lit));
      && plan.Ok? && ColumnsExist(env, plan.value.filters)
      && ((forall row: Row :: |row| == |env.schema| ==>
             (PlanAccepts(env, plan.value, row) <==> Holds(op, row[id].num, v)))
          <==> op != Ne || v != NaN)
  {
    hide PlanAccepts, Lower, LiteralOf, Worth, Holds, Compares;
    var id := ColumnId(env.schema, name, 0).value;
    var some: Row := seq(|env.schema|, _ => Cell(NaN, ""));
    WorthResolves(env, id, lit, v);
    SidesAreOne(env, op, lit, name);
    LeftAccepts(env, op, lit, name, v, some);
    var plan := Lower(env, Compare(op, Ident(name), lit)).value;
    forall row: Row | |row| == |env.schema|
      ensures (PlanAccepts(env, plan, row) <==> Holds(op, row[id].num, v))
        <==> !(op == Ne && row[id].num != NaN && v == NaN)
    {
      LeftAccepts(env, op, lit, name, v, row);
      ExecutorCompares(op, row[id].num, v);
    }
    var row := some[id := Cell(Num(0.0), "")];
    assert row[id].num == Num(0.0);
  }

  /** A table with the columns `x` and `y` of plain numbers. */
  function TwoColumns(): Env {
    Env([Column("x", false, false, 0), Column("y", false, false, 0)], map[], i => Num(i as real), s => None,
        (op: FilterOp, cell: Cell, t: string) => cell.text == t)
  }

  function PlainRow(x: real, y: real): Row {
    [Cell(Num(x), ""), Cell(Num(y), "")]
  }

  /** `5 < x` rejects the row in which `x` is 7, and accepts the one in which it is 3. */
  lemma FiveBelowX()
    ensures
      var plan := Lower(TwoColumns(), Compare(Lt, Int(5), Ident("x")));
      && plan.Ok? && ColumnsExist(TwoColumns(), plan.value.filters)
      && !PlanAccepts(TwoColumns(), plan.value, PlainRow(7.0, 0.0))
           && PlanAccepts(TwoColumns(), plan.value, PlainRow(3.0, 0.0))
  {
    hide PlanAccepts, Lower;
    LeftAccepts(TwoColumns(), Lt, Int(5), "x", Num(5.0), PlainRow(7.0, 0.0));
    LeftAccepts(TwoColumns(), Lt, Int(5), "x", Num(5.0), PlainRow(3.0, 0.0));
  }

  // ---------- conjuncts that are dropped ----------

  /** A conjunct that leaves nothing leaves the plan, and so the rows it accepts, as if it were not there. */
  lemma DroppedConjunct(env: Env, e: Expr, dropped: Expr)
    requires Collect(dropped) == []
    ensures Lower(env, And(e, dropped)) == Lower(env, e) && Lower(env, And(dropped, e)) == Lower(env, e)
  {
    hide ConvertAll, CollectOne, Sorted, Conjunction;
    assert Collect(And(e, dropped)) == Collect(e) + [] == Collect(e);
    assert Collect(And(dropped, e)) == [] + Collect(e) == Collect(e);
  }

  /** Which comparisons are dropped: those without a column, and those without a literal. */
  lemma DroppedShapes(e: Expr)
    requires e.Compare?
    ensures Collect(e) == [] <==>
      (!e.left.Ident? && !e.right.Ident?) || (LiteralOf(e.left).None? && LiteralOf(e.right).None?)
  {
  }

  /** Comparing two columns is always dropped, and the plan accepts a row that the comparison rejects. */
  lemma ColumnsCompared(env: Env, op: CmpOp, a: string, b: string)
    requires ColumnId(env.schema, a, 0).Some? && ColumnId(env.schema, b, 0).Some?
    ensures
      var i, j, plan := ColumnId(env.schema, a, 0).value, ColumnId(env.schema, b, 0).value,
        Lower(env, Compare(op, Ident(a), Ident(b)));
      && plan.Ok? && ColumnsExist(env, plan.value.filters)
      && exists row: Row :: |row| == |env.schema| && PlanAccepts(env, plan.value, row)
           && !Holds(op, row[i].num, row[j].num)
  {
    var i, j := ColumnId(env.schema, a, 0).value, ColumnId(env.schema, b, 0).value;
    var row: Row := seq(|env.schema|, k => Cell(NaN, ""));
    DroppedShapes(Compare(op, Ident(a), Ident(b)));
    assert PlanAccepts(env, Plan([], []), row) && !Holds(op, row[i].num, row[j].num);
  }

  /** `x = 1 and x = y` accepts the row in which `x` is 1 and `y` is 2. */
  lemma OneAndTwo()
    ensures
      var plan := Lower(TwoColumns(), And(Compare(Eq, Ident("x"), Int(1)), Compare(Eq, Ident("x"), Ident("y"))));
      && plan.Ok? && ColumnsExist(TwoColumns(), plan.value.filters)
           && PlanAccepts(TwoColumns(), plan.value, PlainRow(1.0, 2.0))
  {
    hide PlanAccepts, Lower;
    var env, e, row := TwoColumns(), Compare(Eq, Ident("x"), Int(1)), PlainRow(1.0, 2.0);
    DroppedConjunct(env, e, Compare(Eq, Ident("x"), Ident("y")));
    LoweringIsFaithful(env, e, row);
  }

  // ---------- members of a list that are dropped ----------

  lemma {:induction false} LiteralListed(es: seq<Expr>, i: nat)
    requires i < |es| && LiteralOf(es[i]).Some?
    ensures LiteralOf(es[i]).value in Literals(es)
    decreases |es|
  {
    hide LiteralOf;
    if i < |es| - 1 { LiteralListed(es[..|es| - 1], i); }
  }

  lemma {:induction false} ListedFrom(es: seq<Expr>, lit: Literal) returns (i: nat)
    requires lit in Literals(es)
    ensures i < |es| && LiteralOf(es[i]) == Some(lit)
    decreases |es|
  {
    hide LiteralOf;
    i := |es| - 1;
    if LiteralOf(es[i]) != Some(lit) { i := ListedFrom(es[..|es| - 1], lit); }
  }

  lemma LiteralsAre(es: seq<Expr>)
    ensures forall lit :: lit in Literals(es) <==> exists i :: 0 <= i < |es| && LiteralOf(es[i]) == Some(lit)
    ensures Literals(es) == [] <==> forall i :: 0 <= i < |es| ==> LiteralOf(es[i]).None?
  {
    hide LiteralOf, Literals;
    forall i | 0 <= i < |es| && LiteralOf(es[i]).Some? ensures LiteralOf(es[i]).value in Literals(es) {
      LiteralListed(es, i);
    }
    forall lit | lit in Literals(es) ensures exists i :: 0 <= i < |es| && LiteralOf(es[i]) == Some(lit) {
      var i := ListedFrom(es, lit);
    }
    if Literals(es) != [] { assert Literals(es)[0] in Literals(es); }
  }

  /** The strings among the members stand for numbers in the column. */
  ghost predicate NumberLiterals(env: Env, col: nat, members: seq<Expr>)
    requires col < |env.schema|
  {
    forall i :: 0 <= i < |members| && members[i].Str? ==> ResolvedText(env, members[i].raw, col).Number?
  }

  /** The number a literal stands for in the column. */
  ghost function LiteralNum(env: Env, col: nat, m: Expr): Num
    requires col < |env.schema| && IsLiteral(m) && (m.Str? ==> ResolvedText(env, m.raw, col).Number?)
  {
    if m.Str? then ResolvedText(env, m.raw, col).num
    else if IntegerValue(m).Some? then env.cast(IntegerValue(m).value)
    else NaN
  }

  /** What a member is worth in a row: a literal its number, anything else what it evaluates to. */
  ghost function MemberNum(env: Env, col: nat, m: Expr, eval: (Expr, Row) -> Num, row: Row): Num
    requires col < |env.schema| && (m.Str? ==> ResolvedText(env, m.raw, col).Number?)
  {
    if IsLiteral(m) then LiteralNum(env, col, m) else eval(m, row)
  }

  lemma LiteralsResolve(env: Env, col: nat, members: seq<Expr>)
    requires col < |env.schema| && NumberLiterals(env, col, members)
    ensures forall i :: 0 <= i < |members| ==> (LiteralOf(members[i]).Some? <==> IsLiteral(members[i]))
    ensures forall i :: 0 <= i < |members| && IsLiteral(members[i]) ==>
      Resolved(env, LiteralOf(members[i]).value, col) == Number(LiteralNum(env, col, members[i]))
  {
    hide LiteralOf, IntegerValue, ResolvedText, IsLiteral;
    forall i | 0 <= i < |members|
      ensures LiteralOf(members[i]).Some? <==> IsLiteral(members[i])
      ensures IsLiteral(members[i]) ==>
        Resolved(env, LiteralOf(members[i]).value, col) == Number(LiteralNum(env, col, members[i]))
    {
      LiteralIs(members[i]);
    }
  }

  /** The row's column equals one of the members, of the literals among them or of the others. */
  ghost predicate EqualsOne(
    env: Env, col: nat, members: seq<Expr>, literal: bool, eval: (Expr, Row) -> Num, row: Row)
    requires |row| == |env.schema| && col < |row| && NumberLiterals(env, col, members)
  {
    exists i :: 0 <= i < |members| && IsLiteral(members[i]) == literal
      && Holds(Eq, row[col].num, MemberNum(env, col, members[i], eval, row))
  }

  ghost predicate InIsRight(env: Env, name: string, members: seq<Expr>, eval: (Expr, Row) -> Num)
    requires ColumnId(env.schema, name, 0).Some?
    requires NumberLiterals(env, ColumnId(env.schema, name, 0).value, members)
  {
    var id, plan := ColumnId(env.schema, name, 0).value, Lower(env, In(Ident(name), members, false));
    && plan.Ok? && ColumnsExist(env, plan.value.filters)
    && forall row: Row :: |row| == |env.schema| ==>
         (PlanAccepts(env, plan.value, row)
          <==> EqualsOne(env, id, members, true, eval, row) || EqualsOne(env, id, members, false, eval, row))
  }

  /** The plan of a list accepts the rows whose column equals a literal of it, and every row if it has none. */
  lemma ListAccepts(env: Env, name: string, members: seq<Expr>, eval: (Expr, Row) -> Num, row: Row)
    requires ColumnId(env.schema, name, 0).Some? && |row| == |env.schema|
    requires NumberLiterals(env, ColumnId(env.schema, name, 0).value, members)
    ensures
      var id, plan := ColumnId(env.schema, name, 0).value, Lower(env, In(Ident(name), members, false));
      && plan.Ok? && ColumnsExist(env, plan.value.filters)
      && (PlanAccepts(env, plan.value, row)
          <==> EqualsOne(env, id, members, true, eval, row)
               || forall i :: 0 <= i < |members| ==> !IsLiteral(members[i]))
  {
    hide LiteralOf, Literals, Resolved, Holds, PlanAccepts, Lower, Numbers, Texts, IsLiteral, LiteralNum;
    var id, e, lits := ColumnId(env.schema, name, 0).value, In(Ident(name), members, false), Literals(members);
    LiteralsAre(members);
    LiteralsResolve(env, id, members);
    if lits == [] {
      NoFilter(env, e, row);
    } else {
      forall i | 0 <= i < |lits| ensures Resolved(env, lits[i], id).Number? { assert lits[i] in lits; }
      NumbersAll(env, lits, id);
      OneFilter(env, e, row);
      ListedNumbers(env, id, members, eval, row);
    }
  }

  lemma NoFilter(env: Env, e: Expr, row: Row)
    requires Collect(e) == [] && |row| == |env.schema|
    ensures Lower(env, e) == Ok(Plan([], [])) && PlanAccepts(env, Plan([], []), row)
  {
  }

  lemma ListedNumbers(env: Env, col: nat, members: seq<Expr>, eval: (Expr, Row) -> Num, row: Row)
    requires |row| == |env.schema| && col < |row| && NumberLiterals(env, col, members)
    ensures (exists v :: v in Numbers(env, Literals(members), col) && Compares(Eq, row[col].num, v))
      <==> EqualsOne(env, col, members, true, eval, row)
  {
    hide LiteralOf, Literals, Resolved, Holds, Compares, Numbers, Texts, IsLiteral, LiteralNum;
    forall v ensures Compares(Eq, row[col].num, v) <==> Holds(Eq, row[col].num, v) {
      ExecutorCompares(Eq, row[col].num, v);
    }
    var lits := Literals(members);
    var list := Numbers(env, lits, col);
    LiteralsAre(members);
    LiteralsResolve(env, col, members);
    forall i | 0 <= i < |lits| ensures Resolved(env, lits[i], col).Number? { assert lits[i] in lits; }
    NumbersAll(env, lits, col);
    if v :| v in list && Compares(Eq, row[col].num, v) {
      var k :| 0 <= k < |list| && list[k] == v;
      assert lits[k] in lits;
      var i :| 0 <= i < |members| && LiteralOf(members[i]) == Some(lits[k]);
      assert MemberNum(env, col, members[i], eval, row) == v;
    }
    if EqualsOne(env, col, members, true, eval, row) {
      var i :| 0 <= i < |members| && IsLiteral(members[i])
        && Holds(Eq, row[col].num, MemberNum(env, col, members[i], eval, row));
      assert LiteralOf(members[i]).value in lits;
      var k :| 0 <= k < |lits| && lits[k] == LiteralOf(members[i]).value;
      assert list[k] in list;
    }
  }

  /** A list is lowered rightly exactly when it has a literal and no dropped member adds a row to the literals' rows. */
  lemma InRightExactly(env: Env, name: string, members: seq<Expr>, eval: (Expr, Row) -> Num)
    requires ColumnId(env.schema, name, 0).Some?
    requires NumberLiterals(env, ColumnId(env.schema, name, 0).value, members)
    ensures
      var id := ColumnId(env.schema, name, 0).value;
      InIsRight(env, name, members, eval) <==>
        && (exists i :: 0 <= i < |members| && IsLiteral(members[i]))
        && forall row: Row :: |row| == |env.schema| && EqualsOne(env, id, members, false, eval, row) ==>
             EqualsOne(env, id, members, true, eval, row)
  {
    hide PlanAccepts, Lower, EqualsOne, IsLiteral;
    var id := ColumnId(env.schema, name, 0).value;
    var none: Row := seq(|env.schema|, _ => Cell(NaN, ""));
    ListAccepts(env, name, members, eval, none);
    var plan := Lower(env, In(Ident(name), members, false)).value;
    forall row: Row | |row| == |env.schema|
      ensures PlanAccepts(env, plan, row) <==>
        EqualsOne(env, id, members, true, eval, row) || forall i :: 0 <= i < |members| ==> !IsLiteral(members[i])
    {
      ListAccepts(env, name, members, eval, row);
    }
    NaNEqualsNone(env, id, members, eval, none);
  }

  lemma NaNEqualsNone(env: Env, col: nat, members: seq<Expr>, eval: (Expr, Row) -> Num, row: Row)
    requires |row| == |env.schema| && col < |row| && NumberLiterals(env, col, members) && row[col].num == NaN
    ensures forall literal :: !EqualsOne(env, col, members, literal, eval, row)
  {
  }

  /** The members are literals and columns of the table. */
  ghost predicate ColumnsOrLiterals(env: Env, members: seq<Expr>) {
    forall i :: 0 <= i < |members| ==>
      IsLiteral(members[i]) || (members[i].Ident? && ColumnId(env.schema, members[i].name, 0).Some?)
  }

  /** A column is worth what it holds in the row. */
  function ColumnNum(env: Env, m: Expr, row: Row): Num {
    if m.Ident? && ColumnId(env.schema, m.name, 0).Some? && |row| == |env.schema| then
      row[ColumnId(env.schema, m.name, 0).value].num
    else NaN
  }

  /** A list of literals and columns is lowered rightly exactly when it has no column. */
  lemma ColumnsInList(env: Env, name: string, members: seq<Expr>)
    requires ColumnId(env.schema, name, 0).Some? && members != []
    requires NumberLiterals(env, ColumnId(env.schema, name, 0).value, members) && ColumnsOrLiterals(env, members)
    ensures InIsRight(env, name, members, (m, row) => ColumnNum(env, m, row))
      <==> forall i :: 0 <= i < |members| ==> IsLiteral(members[i])
  {
    hide InIsRight, LiteralNum, IsLiteral;
    var id, eval := ColumnId(env.schema, name, 0).value, (m, row) => ColumnNum(env, m, row);
    InRightExactly(env, name, members, eval);
    if forall i :: 0 <= i < |members| ==> IsLiteral(members[i]) {
      assert IsLiteral(members[0]);
    } else {
      var i :| 0 <= i < |members| && !IsLiteral(members[i]);
      var x := FreshNumber(env, id, members);
      var row: Row := seq(|env.schema|, _ => Cell(Num(x), ""));
      assert MemberNum(env, id, members[i], eval, row) == Num(x);
      assert EqualsOne(env, id, members, false, eval, row);
      assert !EqualsOne(env, id, members, true, eval, row);
    }
  }

  /** A number that no literal of the list stands for. */
  lemma {:induction false} FreshNumber(env: Env, col: nat, members: seq<Expr>) returns (x: real)
    requires col < |env.schema| && NumberLiterals(env, col, members)
    ensures forall i :: 0 <= i < |members| && IsLiteral(members[i]) ==>
      var v := LiteralNum(env, col, members[i]);
      v.Num? ==> v.r < x
    decreases |members|
  {
    hide IsLiteral, LiteralNum;
    x := 0.0;
    if members != [] {
      x := FreshNumber(env, col, members[..|members| - 1]);
      var last := members[|members| - 1];
      if IsLiteral(last) {
        var v := LiteralNum(env, col, last);
        if v.Num? && v.r >= x { x := v.r + 1.0; }
      }
    }
  }

  /** `x in (1, y)` accepts the row in which `x` is 1, and rejects the one in which `x` and `y` are both 2. */
  lemma OneOrY()
    ensures
      var plan := Lower(TwoColumns(), In(Ident("x"), [Int(1), Ident("y")], false));
      && plan.Ok? && ColumnsExist(TwoColumns(), plan.value.filters)
      && PlanAccepts(TwoColumns(), plan.value, PlainRow(1.0, 2.0))
           && !PlanAccepts(TwoColumns(), plan.value, PlainRow(2.0, 2.0))
  {
    hide PlanAccepts, Lower;
    var env, members := TwoColumns(), [Int(1), Ident("y")];
    var eval := (m, row) => ColumnNum(env, m, row);
    LiteralsAre(members);
    assert LiteralOf(members[0]) == Some(IntLit(1));
    assert Literals(members) != [];
    ListAccepts(env, "x", members, eval, PlainRow(1.0, 2.0));
    ListAccepts(env, "x", members, eval, PlainRow(2.0, 2.0));
    assert MemberNum(env, 0, members[0], eval, PlainRow(1.0, 2.0)) == Num(1.0);
    assert EqualsOne(env, 0, members, true, eval, PlainRow(1.0, 2.0));
  }

  // ---------- strings ----------

  predicate TextHolds(op: CmpOp, a: seq<byte>, b: seq<byte>) {
    match op
    case Eq => a == b
    case Ne => a != b
    case Lt => a != b && Ordering.LexLe(a, b)
    case Le => Ordering.LexLe(a, b)
    case Gt => a != b && Ordering.LexLe(b, a)
    case Ge => Ordering.LexLe(b, a)
  }

  /**
   Comparing a searchable string column with a string by their bytes, with either of them on the left, is what the plan
   does.
   */
  ghost predicate StringIsRight(env: Env, op: CmpOp, name: string, s: string, left: bool, row: Row) {
    var col := ColumnId(env.schema, name, 0);
    col.Some? && Searchable(env, col.value) && IsRow(env, row) ==>
      var here, text := StringAt(env, row, col.value), BytesOf(s);
      var plan := Lower(env, if left then Compare(op, Ident(name), Str(s)) else Compare(op, Str(s), Ident(name)));
      && plan.Ok? && ColumnsExist(env, plan.value.filters)
      && (PlanAccepts(env, plan.value, row) <==> if left then TextHolds(op, here, text) else TextHolds(op, text, here))
  }

  /** It is, for all tables, strings and rows, exactly for the operators that only ask for equality. */
  lemma StringOperators(op: CmpOp, left: bool)
    ensures (forall env, name, s, row :: StringIsRight(env, op, name, s, left, row)) <==> op == Eq || op == Ne
  {
    hide PlanAccepts, Lower, StringAt;
    if op == Eq || op == Ne {
      forall env, name, s, row ensures StringIsRight(env, op, name, s, left, row) {
        if ColumnId(env.schema, name, 0).Some? && Searchable(env, ColumnId(env.schema, name, 0).value)
          && IsRow(env, row) {
          SidesAreOne(env, op, Str(s), name);
          LoweringIsFaithful(env, Compare(op, Ident(name), Str(s)), row);
        }
      }
    } else {
      OrderIsNotKept(op, left);
      assert !StringIsRight(OneString(), op, "x", if left then "a" else "c", left, [Cell(Num(0.0), "")]);
    }
  }

  /** A table with one string column, whose dictionary has the one value `b`. */
  function OneString(): Env {
    Env([Column("x", true, true, 0)], map[0 := Dictionary([0, 1], [98])], i => Num(i as real), s => None,
        (op: FilterOp, cell: Cell, t: string) => cell.text == t)
  }

  /** Neither `a` nor `c` is in the dictionary, so both are taken for something greater than every id. */
  lemma OrderIsNotKept(op: CmpOp, left: bool)
    requires op != Eq && op != Ne
    ensures !StringIsRight(OneString(), op, "x", if left then "a" else "c", left, [Cell(Num(0.0), "")])
  {
    hide Lower, PlanAccepts;
    var env: Env, row: Row, s := OneString(), [Cell(Num(0.0), "")], if left then "a" else "c";
    var d := env.dicts[0];
    assert ColumnId(env.schema, "x", 0) == Some(0);
    assert d.blob[0..1] == [98];
    assert ValueBytes(d, 0) == Some([98]);
    assert HoldsId(env, row[0], 0, 0);
    assert IsRow(env, row) && Searchable(env, 0);
    assert StringAt(env, row, 0) == [98];
    SidesAreOne(env, op, Str(s), "x");
    TextAccepts(env, op, "x", s, row);
    assert BytesOf(s) == [if left then 97 else 99];
    assert Ordering.LexLe([97], [98]) && !Ordering.LexLe([98], [97]);
    assert Ordering.LexLe([98], [99]) && !Ordering.LexLe([99], [98]);
    assert FirstId(d, BytesOf(s)).None?;
  }

  lemma TextAccepts(env: Env, op: CmpOp, name: string, s: string, row: Row)
    requires ColumnId(env.schema, name, 0).Some? && |row| == |env.schema|
    requires ResolvedText(env, s, ColumnId(env.schema, name, 0).value).Number?
    ensures
      var id, plan := ColumnId(env.schema, name, 0).value, Lower(env, Compare(op, Ident(name), Str(s)));
      && plan.Ok? && ColumnsExist(env, plan.value.filters)
      && (PlanAccepts(env, plan.value, row) <==> Compares(op, row[id].num, ResolvedText(env, s, id).num))
  {
    hide Compares, PlanAccepts, Accepts, ResolvedText, Lower;
    var e := Compare(op, Ident(name), Str(s));
    OneFilter(env, e, row);
    PlainFilter(env, Convert(env, CollectOne(e).value).value, row);
  }

  /** Looking strings up by their first id is right for every string and every id exactly when no value is repeated. */
  lemma EqualityNeedsDistinct(d: Dictionary)
    ensures
      (forall s: seq<byte>, id: nat ::
        ValueBytes(d, id).Some? ==> (FirstId(d, s) == Some(id) <==> ValueBytes(d, id) == Some(s)))
      <==> NoRepeats(d)
  {
    hide ValueBytes;
    if NoRepeats(d) {
      forall s: seq<byte>, id: nat | ValueBytes(d, id).Some?
        ensures FirstId(d, s) == Some(id) <==> ValueBytes(d, id) == Some(s)
      {
        var found := FirstId(d, s);
        if found.Some? && ValueBytes(d, id) == Some(s) { assert ValueBytes(d, found.value) == ValueBytes(d, id); }
      }
    } else {
      var i: nat, j: nat :| ValueBytes(d, i).Some? && ValueBytes(d, i) == ValueBytes(d, j) && i != j;
      var s := ValueBytes(d, i).value;
      assert FirstId(d, s) != Some(i) || FirstId(d, s) != Some(j);
    }
  }

  // ---------- patterns ----------

  /** What the plan of a LIKE accepts: the rows whose text contains, or does not contain, the trimmed pattern. */
  lemma PatternAccepts(env: Env, name: string, p: string, negated: bool, row: Row)
    requires ColumnId(env.schema, name, 0).Some? && |row| == |env.schema|
    ensures
      var id, plan := ColumnId(env.schema, name, 0).value, Lower(env, Like(Ident(name), Str(p), negated));
      && plan.Ok? && ColumnsExist(env, plan.value.filters)
      && (PlanAccepts(env, plan.value, row)
          <==> (LikePattern.Contains(CellText(env, row, id), BytesOf(Trimmed(p))) <==> !negated))
  {
    hide PlanAccepts, Lower, Trimmed, BytesOf, CellText, LikePattern.Contains;
    OneFilter(env, Like(Ident(name), Str(p), negated), row);
  }

  /** The plan accepts the rows of a string column whose text matches the pattern, or does not. */
  ghost predicate PatternIsRight(env: Env, name: string, p: string, negated: bool, row: Row) {
    var col := ColumnId(env.schema, name, 0);
    col.Some? && env.schema[col.value].isString && |row| == |env.schema| ==>
      var plan := Lower(env, Like(Ident(name), Str(p), negated));
      && plan.Ok? && ColumnsExist(env, plan.value.filters)
      && (PlanAccepts(env, plan.value, row)
          <==> (LikePattern.Matches(CellText(env, row, col.value), BytesOf(p)) <==> !negated))
  }

  /** A table with one string column that has no dictionary. */
  function OneText(): Env {
    Env([Column("x", true, false, 0)], map[], i => Num(i as real), s => None,
        (op: FilterOp, cell: Cell, t: string) => cell.text == t)
  }

  function TextOfBytes(b: seq<byte>): (s: string)
    ensures BytesOf(s) == b
  {
    var s := seq(|b|, i requires 0 <= i < |b| => b[i] as char);
    assert BytesOf(s) == b;
    s
  }

  /**
   It does, for all tables and rows, exactly for the patterns that start and end with a percent sign and have no other
   sign; `p%`, `%p` and `p` are taken for `%p%` as well.
   */
  lemma PatternsExactly(p: string, negated: bool)
    requires forall i :: 0 <= i < |p| ==> p[i] as int < 256
    ensures (forall env, name, row :: PatternIsRight(env, name, p, negated, row)) <==> SupportedPattern(p)
  {
    hide PlanAccepts, Lower, Trimmed, BytesOf, CellText, LikePattern.Matches, LikePattern.Contains, LikePattern.Framed;
    PatternTrims(p);
    LikePattern.SearchRightExactly(BytesOf(p));
    if SupportedPattern(p) {
      forall env, name, row ensures PatternIsRight(env, name, p, negated, row) {
        if ColumnId(env.schema, name, 0).Some? && |row| == |env.schema| {
          PatternAccepts(env, name, p, negated, row);
        }
      }
    } else {
      var s := LikePattern.WrongText(BytesOf(p));
      var row := [Cell(NaN, TextOfBytes(s))];
      OneTextIs(s);
      PatternAccepts(OneText(), "x", p, negated, row);
      assert !PatternIsRight(OneText(), "x", p, negated, row);
    }
  }

  lemma OneTextIs(s: seq<byte>)
    ensures ColumnId(OneText().schema, "x", 0) == Some(0) && OneText().schema[0].isString
    ensures CellText(OneText(), [Cell(NaN, TextOfBytes(s))], 0) == s
  {
  }

  // ---------- mixed lists ----------

  /** Some literal of a list is put off as text. */
  ghost predicate PutsOff(env: Env, values: seq<Literal>, col: nat)
    requires col < |env.schema|
  {
    exists i :: 0 <= i < |values| && Resolved(env, values[i], col).Text?
  }

  lemma {:induction false} ResolvedListed(env: Env, values: seq<Literal>, col: nat, i: nat)
    requires col < |env.schema| && i < |values|
    ensures
      match Resolved(env, values[i], col)
      case Number(v) => v in Numbers(env, values, col)
      case Text(t) => t in Texts(env, values, col)
    decreases |values|
  {
    hide Resolved;
    if i < |values| - 1 { ResolvedListed(env, values[..|values| - 1], col, i); }
  }

  lemma {:induction false} NumberFrom(env: Env, values: seq<Literal>, col: nat, v: Num) returns (i: nat)
    requires col < |env.schema| && v in Numbers(env, values, col)
    ensures i < |values| && Resolved(env, values[i], col) == Number(v)
    decreases |values|
  {
    hide Resolved;
    i := |values| - 1;
    if Resolved(env, values[i], col) != Number(v) { i := NumberFrom(env, values[..|values| - 1], col, v); }
  }

  lemma {:induction false} TextFrom(env: Env, values: seq<Literal>, col: nat, t: string) returns (i: nat)
    requires col < |env.schema| && t in Texts(env, values, col)
    ensures i < |values| && Resolved(env, values[i], col) == Text(t)
    decreases |values|
  {
    hide Resolved;
    i := |values| - 1;
    if Resolved(env, values[i], col) != Text(t) { i := TextFrom(env, values[..|values| - 1], col, t); }
  }

  lemma TextsWhenPutOff(env: Env, values: seq<Literal>, col: nat)
    requires col < |env.schema|
    ensures Texts(env, values, col) != [] <==> PutsOff(env, values, col)
    ensures forall v :: v in Numbers(env, values, col) <==>
      exists i :: 0 <= i < |values| && Resolved(env, values[i], col) == Number(v)
    ensures forall t :: t in Texts(env, values, col) <==>
      exists i :: 0 <= i < |values| && Resolved(env, values[i], col) == Text(t)
  {
    hide Resolved, Numbers, Texts;
    forall i | 0 <= i < |values|
      ensures Resolved(env, values[i], col).Number? ==> Resolved(env, values[i], col).num in Numbers(env, values, col)
      ensures Resolved(env, values[i], col).Text? ==> Resolved(env, values[i], col).text in Texts(env, values, col)
    {
      ResolvedListed(env, values, col, i);
    }
    forall v | v in Numbers(env, values, col)
      ensures exists i :: 0 <= i < |values| && Resolved(env, values[i], col) == Number(v)
    {
      var i := NumberFrom(env, values, col, v);
    }
    forall t | t in Texts(env, values, col)
      ensures exists i :: 0 <= i < |values| && Resolved(env, values[i], col) == Text(t)
    {
      var i := TextFrom(env, values, col, t);
    }
    if Texts(env, values, col) != [] { assert Texts(env, values, col)[0] in Texts(env, values, col); }
  }

  /**
   A list keeps its numbers exactly when none of its literals is put off as text: then the filter lists all of them. If
   one is, the filter lists the texts alone.
   */
  lemma MixedListLosesNumbers(env: Env, name: string, values: seq<Literal>)
    requires ColumnId(env.schema, name, 0).Some?
    ensures
      var col, f := ColumnId(env.schema, name, 0).value, Convert(env, Membership(name, values, false));
      && f.Ok? && (f.value.inList.Some? <==> !PutsOff(env, values, col))
      && (f.value.inList.Some? ==>
            forall v :: v in f.value.inList.value <==>
              exists i :: 0 <= i < |values| && Resolved(env, values[i], col) == Number(v))
      && (f.value.inList.None? ==>
            && f.value.inListStr.Some?
            && forall t :: t in f.value.inListStr.value <==>
                 exists i :: 0 <= i < |values| && Resolved(env, values[i], col) == Text(t))
  {
    hide Resolved, Numbers, Texts;
    TextsWhenPutOff(env, values, ColumnId(env.schema, name, 0).value);
  }

  /** `x in (1, 'a')` rejects the row in which `x` is 1. */
  lemma OneOrText()
    ensures
      var plan := Lower(TwoColumns(), In(Ident("x"), [Int(1), Str("a")], false));
      && plan.Ok? && ColumnsExist(TwoColumns(), plan.value.filters)
           && !PlanAccepts(TwoColumns(), plan.value, PlainRow(1.0, 0.0))
  {
    hide PlanAccepts, Lower, Texts, Numbers, Literals, LiteralOf, ResolvedText;
    var env, e, row := TwoColumns(), In(Ident("x"), [Int(1), Str("a")], false), PlainRow(1.0, 0.0);
    var lits := [IntLit(1), StrLit("a")];
    assert Literals(e.values) == lits by { OneOrTextLiterals(); }
    assert ResolvedText(env, "a", 0) == Text("a") by { NotADay(); }
    assert Resolved(env, lits[1], 0).Text?;
    MixedListLosesNumbers(env, "x", lits);
    OneFilter(env, e, row);
  }

  lemma OneOrTextLiterals()
    ensures Literals([Int(1), Str("a")]) == [IntLit(1), StrLit("a")]
  {
    var es := [Int(1), Str("a")];
    LiteralsAll(es);
    assert Literals(es)[0] == IntLit(1) && Literals(es)[1] == StrLit("a");
  }

  lemma NotADay()
    ensures ResolvedText(TwoColumns(), "a", 0) == Text("a")
  {
    hide Calendar.ParseSigned, Calendar.ParseUnsigned;
    assert |BytesOf("a")| == 1;
  }

  /** NOT IN is refused, and so is a column that does not exist. */
  lemma Refusals(env: Env, e: Expr)
    requires !e.And? && CollectOne(e).Some?
    ensures Lower(env, e).Err? <==>
      (e.In? && e.notIn) || ColumnId(env.schema, CollectOne(e).value.col, 0).None?
  {
    hide LiteralOf, Literals;
    ConvertOne(env, CollectOne(e).value);
  }
}
