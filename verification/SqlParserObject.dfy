/**
 The lexer and the parser as the program runs them: one object with a cursor and a token of
 lookahead, whose methods move it through the input. Each method is tied to the parser function of
 the same name: it returns what the function returns, and leaves the object where the function says.
 */
module SqlParserObject {
  import opened SqlAst
  import opened SqlLexer
  import opened SqlParser
  import opened Wrappers

  /** The outcome of a step and the state after it are what the specification says. */
  ghost predicate Agrees<T>(r: Result<T, Failure>, st: State, spec: Parse<T>) {
    if spec.Ok? then r == Ok(spec.value.0) && st == spec.value.1 else r == Err(spec.error)
  }

  /** A step that gives no value. */
  datatype Moved = Moved | Stopped(error: Failure)
  {
    predicate IsFailure() {
      Stopped?
    }

    function PropagateFailure<U>(): Result<U, Failure>
      requires Stopped?
    {
      Err(error)
    }
  }

  lemma ExprStarts(s: string, st: SqlParser.State, minBp: nat)
    requires Valid(s, st)
    ensures SqlParser.ParseExprBp(s, st, minBp) ==
      var lhs := SqlParser.ParsePrimary(s, st);
      if lhs.Err? then Err(lhs.error) else ParseTail(s, lhs.value.1, lhs.value.0, minBp)
  {
  }

  /** The loop over operators stops, or takes one operator and its operand. */
  lemma TailStarts(s: string, st: SqlParser.State, lhs: Expr, minBp: nat)
    requires Valid(s, st) && WfArith(lhs, false)
    ensures ParseTail(s, st, lhs, minBp) ==
      var op := BinOpOf(st.cur.kind);
      if op.None? || 1 < minBp then Ok((lhs, st))
      else
        var next := SqlParser.Bump(s, st);
        if next.Err? then Err(next.error)
        else
          var rhs := SqlParser.ParseExprBp(s, next.value, 2);
          if rhs.Err? then Err(rhs.error)
          else ParseTail(s, rhs.value.1, Binary(op.value, lhs, rhs.value.0), minBp)
  {
    hide SqlParser.ParseExprBp, SqlParser.Bump, GoodTok;
  }

  lemma SumWf(op: BinOp, l: Expr, r: Expr)
    requires WfArith(l, false) && WfArith(r, false)
    ensures WfArith(Binary(op, l, r), false)
  {
  }

  lemma ListStarts(s: string, st: SqlParser.State)
    requires Valid(s, st)
    ensures SqlParser.ParseExprList(s, st) ==
      var first := SqlParser.ParseExprBp(s, st, 0);
      if first.Err? then Err(first.error)
      else if first.value.1.cur.kind != Comma then Ok(([first.value.0], first.value.1))
      else
        var next := SqlParser.Bump(s, first.value.1);
        if next.Err? then Err(next.error)
        else
          var rest := SqlParser.ParseExprList(s, next.value);
          if rest.Err? then Err(rest.error) else Ok(([first.value.0] + rest.value.0, rest.value.1))
  {
    hide SqlParser.ParseExprBp, SqlParser.Bump, WfArith, GoodTok;
  }

  /** A list is its first item, and after a comma the rest. */
  lemma SelectStarts(s: string, st: SqlParser.State)
    requires Valid(s, st)
    ensures SqlParser.ParseSelectList(s, st) ==
      var first := SqlParser.ParseSelectItem(s, st);
      if first.Err? then Err(first.error)
      else if first.value.1.cur.kind != Comma then Ok(([first.value.0], first.value.1))
      else
        var next := SqlParser.Bump(s, first.value.1);
        if next.Err? then Err(next.error)
        else
          var rest := SqlParser.ParseSelectList(s, next.value);
          if rest.Err? then Err(rest.error) else Ok(([first.value.0] + rest.value.0, rest.value.1))
  {
    hide SqlParser.ParseSelectItem, SqlParser.Bump, WfItem, GoodTok;
  }

  lemma OrderStarts(s: string, st: SqlParser.State)
    requires Valid(s, st)
    ensures SqlParser.ParseOrderList(s, st) ==
      var first := SqlParser.ParseOrderItem(s, st);
      if first.Err? then Err(first.error)
      else if first.value.1.cur.kind != Comma then Ok(([first.value.0], first.value.1))
      else
        var next := SqlParser.Bump(s, first.value.1);
        if next.Err? then Err(next.error)
        else
          var rest := SqlParser.ParseOrderList(s, next.value);
          if rest.Err? then Err(rest.error) else Ok(([first.value.0] + rest.value.0, rest.value.1))
  {
    hide SqlParser.ParseOrderItem, SqlParser.Bump, WfArith, GoodTok;
  }

  class Parser {
    const s: string
    var i: nat
    var cur: Tok

    ghost function State(): SqlParser.State
      reads this
    {
      SqlParser.State(cur, i)
    }

    ghost predicate Good()
      reads this
    {
      Valid(s, State())
    }

    constructor (input: string)
      ensures s == input && i == 0
    {
      s, i, cur := input, 0, Tok(Eof, 0, "");
    }

    // ---------- lexer ----------

    method SkipWhite()
      requires i <= |s|
      modifies this`i
      ensures i == SkipWs(s, old(i))
    {
      while i < |s| && IsSpace(s[i])
        invariant i <= |s| && SkipWs(s, i) == SkipWs(s, old(i))
        decreases |s| - i
      {
        i := i + 1;
      }
    }

    /** Past the closing quote of a string literal, or to the end of input. */
    method SkipString()
      requires i <= |s|
      modifies this`i
      ensures i == ScanString(s, old(i))
    {
      while i < |s|
        invariant i <= |s| && ScanString(s, i) == ScanString(s, old(i))
        decreases |s| - i
      {
        var c := s[i];
        i := i + 1;
        if c == '\'' {
          if i < |s| && s[i] == '\'' {
            i := i + 1;
            continue;
          }
          return;
        }
      }
    }

    method SkipIdent()
      requires i <= |s|
      modifies this`i
      ensures i == ScanIdent(s, old(i))
    {
      while i < |s| && IsIdentContinue(s[i])
        invariant i <= |s| && ScanIdent(s, i) == ScanIdent(s, old(i))
        decreases |s| - i
      {
        i := i + 1;
      }
    }

    method SkipDigits()
      requires i <= |s|
      modifies this`i
      ensures i == ScanDigits(s, old(i))
    {
      while i < |s| && IsDigit(s[i])
        invariant i <= |s| && ScanDigits(s, i) == ScanDigits(s, old(i))
        decreases |s| - i
      {
        i := i + 1;
      }
    }

    /** The kind of the token that starts at `i`, which moves past it. */
    method ScanToken() returns (kind: Option<Kind>)
      requires i < |s|
      modifies this`i
      ensures kind.Some? <==> Scan(s, old(i)).Some?
      ensures kind.Some? ==> Scan(s, old(i)) == Some((kind.value, i))
    {
      var c := s[i];
      i := i + 1;
      if c == '(' { return Some(LParen); }
      if c == ')' { return Some(RParen); }
      if c == ',' { return Some(Comma); }
      if c == ';' { return Some(Semi); }
      if c == '*' { return Some(StarTok); }
      if c == '+' { return Some(Plus); }
      if c == '-' { return Some(Minus); }
      if c == '=' { return Some(EqTok); }
      if c == '<' {
        if i < |s| && s[i] == '=' { i := i + 1; return Some(LeTok); }
        if i < |s| && s[i] == '>' { i := i + 1; return Some(NeTok); }
        return Some(LtTok);
      }
      if c == '>' {
        if i < |s| && s[i] == '=' { i := i + 1; return Some(GeTok); }
        return Some(GtTok);
      }
      if c == '\'' { SkipString(); return Some(StrTok); }
      if IsIdentStart(c) { SkipIdent(); return Some(IdentTok); }
      if IsDigit(c) { SkipDigits(); return Some(IntTok); }
      return None;
    }

    method NextToken() returns (r: Result<Tok, Failure>)
      requires i <= |s|
      modifies this`i
      ensures r.Ok? <==> Next(s, old(i)).Ok?
      ensures r.Ok? ==> Next(s, old(i)) == Ok(Lexed(r.value, i))
      ensures r.Err? ==> Next(s, old(i)) == Err(r.error)
    {
      hide Scan, SkipWs, KeywordKind;
      SkipWhite();
      var start := i;
      if start == |s| { return Ok(Tok(Eof, start, "")); }
      var kind := ScanToken();
      if kind.None? { return Err(ParseError(UnexpectedCharacter, start)); }
      var lex := s[start..i];
      if kind.value == IdentTok {
        var keyword := KeywordKind(lex);
        if keyword.Some? { return Ok(Tok(keyword.value, start, lex)); }
      }
      return Ok(Tok(kind.value, start, lex));
    }

    // ---------- tokens ----------

    method Bump() returns (r: Moved)
      requires Good()
      modifies this
      ensures SqlParser.Bump(s, old(State())) == if r.Moved? then Ok(State()) else Err(r.error)
      ensures r.Moved? ==> Good() && (old(cur).kind != Eof ==> After(s, old(State()), State()))
    {
      hide Next;
      var tok := NextToken();
      if tok.Err? { return Stopped(tok.error); }
      cur := tok.value;
      return Moved;
    }

    method Expect(kind: Kind) returns (r: Moved)
      requires Good()
      modifies this
      ensures SqlParser.Expect(s, old(State()), kind) == if r.Moved? then Ok(State()) else Err(r.error)
      ensures r.Moved? ==> Good() && (kind != Eof ==> After(s, old(State()), State()))
    {
      hide SqlParser.Bump;
      if cur.kind != kind { return Stopped(ParseError(UnexpectedToken, cur.start)); }
      r := Bump();
    }

    method ParseIdent() returns (r: Result<string, Failure>)
      requires Good()
      modifies this
      ensures Agrees(r, State(), old(SqlParser.ParseIdent(s, State())))
    {
      hide SqlParser.Bump;
      if cur.kind != IdentTok { return Err(ParseError(ExpectedIdentifier, cur.start)); }
      var t := cur;
      :- Bump();
      return Ok(t.lex);
    }

    method ParseU64() returns (r: Result<nat, Failure>)
      requires Good()
      modifies this
      ensures Agrees(r, State(), old(SqlParser.ParseU64(s, State())))
    {
      hide SqlParser.Bump;
      if cur.kind != IntTok { return Err(ParseError(ExpectedInteger, cur.start)); }
      var t := cur;
      :- Bump();
      var v := DigitsValue(t.lex);
      if v > MAX_U64 { return Err(ParseError(BadU64, t.start)); }
      return Ok(v);
    }

    // ---------- expressions ----------

    method ParseExprBp(minBp: nat) returns (r: Result<Expr, Failure>)
      requires Good()
      modifies this
      ensures Agrees(r, State(), old(SqlParser.ParseExprBp(s, State(), minBp)))
      decreases Remaining(s, State()), 2
    {
      hide SqlParser.Bump, SqlParser.ParsePrimary, SqlParser.ParseExprBp, ParseTail;
      hide WfArith, IsIdent, IsNumber, GoodTok;
      ExprStarts(s, State(), minBp);
      ghost var spec := SqlParser.ParseExprBp(s, State(), minBp);
      ghost var start := Remaining(s, State());
      var lhs :- ParsePrimary();
      while true
        invariant Good() && WfArith(lhs, false) && Remaining(s, State()) < start
        invariant spec == ParseTail(s, State(), lhs, minBp)
        decreases Remaining(s, State())
      {
        TailStarts(s, State(), lhs, minBp);
        var op := BinOpOf(cur.kind);
        if op.None? || 1 < minBp { break; }
        :- Bump();
        var rhs :- ParseExprBp(2);
        SumWf(op.value, lhs, rhs);
        lhs := Binary(op.value, lhs, rhs);
      }
      return Ok(lhs);
    }

    method ParsePrimary() returns (r: Result<Expr, Failure>)
      requires Good()
      modifies this
      ensures Agrees(r, State(), old(SqlParser.ParsePrimary(s, State())))
      decreases Remaining(s, State()), 1
    {
      hide SqlParser.Bump, WfArith;
      if cur.kind == Minus {
        r := ParseNegative();
      } else if cur.kind == IdentTok {
        r := ParseIdentOrCall();
      } else if AggOf(cur.kind).Some? {
        r := ParseAggregate();
      } else if cur.kind == LParen {
        r := ParseParen();
      } else {
        r := ParseLeaf();
      }
    }

    method ParseLeaf() returns (r: Result<Expr, Failure>)
      requires Good()
      modifies this
      ensures Agrees(r, State(), old(SqlParser.ParseLeaf(s, State())))
    {
      hide SqlParser.Bump, WfArith;
      var t := cur;
      if t.kind == StarTok {
        :- Bump();
        return Ok(Star);
      }
      if t.kind == IntTok {
        :- Bump();
        var v := DigitsValue(t.lex);
        if v > MAX_I64 { return Err(ParseError(BadInt, t.start)); }
        return Ok(Int(v));
      }
      if t.kind == StrTok {
        :- Bump();
        var raw :- Inner(t.lex);
        return Ok(Str(raw));
      }
      return Err(ParseError(ExpectedExpression, t.start));
    }

    method ParseNegative() returns (r: Result<Expr, Failure>)
      requires Good() && cur.kind == Minus
      modifies this
      ensures Agrees(r, State(), old(SqlParser.ParseNegative(s, State())))
      decreases Remaining(s, State()), 0
    {
      hide SqlParser.Bump, SqlParser.ParseExprBp, WfArith;
      :- Bump();
      var e :- ParseExprBp(2);
      return Ok(Binary(Sub, Int(0), e));
    }

    method ParseIdentOrCall() returns (r: Result<Expr, Failure>)
      requires Good() && cur.kind == IdentTok
      modifies this
      ensures Agrees(r, State(), old(SqlParser.ParseIdentOrCall(s, State())))
      decreases Remaining(s, State()), 0
    {
      hide SqlParser.Bump, SqlParser.ParseIdent, SqlParser.ParseExprList, SqlParser.Expect, WfArith, WfList;
      var id :- ParseIdent();
      if cur.kind != LParen { return Ok(Ident(id)); }
      :- Bump();
      var args :- ParseExprList();
      :- Expect(RParen);
      return Ok(Call(id, args));
    }

    method ParseParen() returns (r: Result<Expr, Failure>)
      requires Good() && cur.kind == LParen
      modifies this
      ensures Agrees(r, State(), old(SqlParser.ParseParen(s, State())))
      decreases Remaining(s, State()), 0
    {
      hide SqlParser.Bump, SqlParser.ParseExprBp, SqlParser.Expect, WfArith;
      :- Bump();
      var e :- ParseExprBp(0);
      :- Expect(RParen);
      return Ok(e);
    }

    method ParseAggregate() returns (r: Result<Expr, Failure>)
      requires Good() && AggOf(cur.kind).Some?
      modifies this
      ensures Agrees(r, State(), old(SqlParser.ParseAggregate(s, State())))
      decreases Remaining(s, State()), 0
    {
      hide SqlParser.Bump, SqlParser.Expect, SqlParser.ParseAggArg, WfArith, GoodTok;
      var func := AggOf(cur.kind).value;
      :- Bump();
      :- Expect(LParen);
      var distinct := cur.kind == KwDistinct;
      if distinct { :- Bump(); }
      var arg :- ParseAggArg();
      :- Expect(RParen);
      if func != Count {
        if distinct && func != ApproxDistinct { return Err(ParseError(DistinctOnlyWithCount, cur.start)); }
        if arg == Star && func != ApproxDistinct { return Err(ParseError(StarOnlyWithCount, cur.start)); }
      }
      if func == ApproxDistinct && arg == Star { return Err(ParseError(NeedsColumn, cur.start)); }
      return Ok(Agg(func, distinct, arg));
    }

    method ParseAggArg() returns (r: Result<Expr, Failure>)
      requires Good()
      modifies this
      ensures Agrees(r, State(), old(SqlParser.ParseAggArg(s, State())))
      decreases Remaining(s, State()), 3
    {
      hide SqlParser.Bump, SqlParser.ParseExprBp, WfArith;
      if cur.kind == StarTok {
        :- Bump();
        return Ok(Star);
      }
      r := ParseExprBp(0);
    }

    method ParseExprList() returns (r: Result<seq<Expr>, Failure>)
      requires Good()
      modifies this
      ensures Agrees(r, State(), old(SqlParser.ParseExprList(s, State())))
      decreases Remaining(s, State()), 3
    {
      hide SqlParser.Bump, SqlParser.ParseExprBp, SqlParser.ParseExprList, WfArith, WfList, IsIdent, IsNumber, GoodTok;
      ghost var spec := SqlParser.ParseExprList(s, State());
      ghost var start := Remaining(s, State());
      var xs: seq<Expr> := [];
      assert spec.Ok? ==> [] + spec.value.0 == spec.value.0;
      while true
        invariant Good() && Remaining(s, State()) <= start
        invariant spec ==
          var rest := SqlParser.ParseExprList(s, State());
          if rest.Err? then Err(rest.error) else Ok((xs + rest.value.0, rest.value.1))
        decreases Remaining(s, State())
      {
        ListStarts(s, State());
        var x :- ParseExprBp(0);
        if cur.kind != Comma {
          xs := xs + [x];
          break;
        }
        :- Bump();
        ghost var more := SqlParser.ParseExprList(s, State());
        if more.Ok? { assert xs + ([x] + more.value.0) == (xs + [x]) + more.value.0; }
        xs := xs + [x];
      }
      return Ok(xs);
    }

    // ---------- predicates ----------

    method ParsePredicate() returns (r: Result<Expr, Failure>)
      requires Good()
      modifies this
      ensures Agrees(r, State(), old(SqlParser.ParsePredicate(s, State())))
    {
      hide SqlParser.Bump, SqlParser.ParseExprBp, SqlParser.ParseLike, SqlParser.ParseIn;
      hide SqlParser.ParseCompare, WfArith, WfList, GoodTok;
      var left :- ParseExprBp(0);
      var neg := false;
      if cur.kind == KwNot {
        :- Bump();
        neg := true;
      }
      if cur.kind == KwLike {
        r := ParseLike(left, neg);
      } else if cur.kind == KwIn {
        r := ParseIn(left, neg);
      } else if neg {
        return Err(ParseError(ExpectedLikeOrIn, cur.start));
      } else {
        r := ParseCompare(left);
      }
    }

    method ParseLike(left: Expr, neg: bool) returns (r: Result<Expr, Failure>)
      requires Good() && cur.kind == KwLike && WfArith(left, false)
      modifies this
      ensures Agrees(r, State(), old(SqlParser.ParseLike(s, State(), left, neg)))
    {
      hide SqlParser.Bump, SqlParser.ParseExprBp, WfArith, GoodTok;
      :- Bump();
      var pattern :- ParseExprBp(0);
      return Ok(Like(left, pattern, neg));
    }

    method ParseIn(left: Expr, neg: bool) returns (r: Result<Expr, Failure>)
      requires Good() && cur.kind == KwIn && WfArith(left, false)
      modifies this
      ensures Agrees(r, State(), old(SqlParser.ParseIn(s, State(), left, neg)))
    {
      hide SqlParser.Bump, SqlParser.Expect, SqlParser.ParseExprList, WfArith, WfList, GoodTok;
      :- Bump();
      :- Expect(LParen);
      var values :- ParseExprList();
      :- Expect(RParen);
      return Ok(In(left, values, neg));
    }

    method ParseCompare(left: Expr) returns (r: Result<Expr, Failure>)
      requires Good() && WfArith(left, false)
      modifies this
      ensures Agrees(r, State(), old(SqlParser.ParseCompare(s, State(), left)))
    {
      hide SqlParser.Bump, SqlParser.ParseExprBp, WfArith, GoodTok;
      var op := CmpOf(cur.kind);
      if op.None? { return Err(ParseError(ExpectedComparison, cur.start)); }
      :- Bump();
      var right :- ParseExprBp(0);
      return Ok(Compare(op.value, left, right));
    }

    method ParseAndPredicate() returns (r: Result<Expr, Failure>)
      requires Good()
      modifies this
      ensures Agrees(r, State(), old(SqlParser.ParseAnd(s, State())))
    {
      hide SqlParser.Bump, SqlParser.ParsePredicate, WfWhere, WfPred;
      ghost var spec := SqlParser.ParseAnd(s, State());
      var left :- ParsePredicate();
      WherePred(left);
      while cur.kind == KwAnd
        invariant Good() && WfWhere(left, false)
        invariant spec == ParseAndTail(s, State(), left)
        decreases Remaining(s, State())
      {
        :- Bump();
        var right :- ParsePredicate();
        WhereAnd(left, right);
        left := And(left, right);
      }
      return Ok(left);
    }

    // ---------- clauses ----------

    method ParseSelectList() returns (r: Result<seq<SelectItem>, Failure>)
      requires Good()
      modifies this
      ensures Agrees(r, State(), old(SqlParser.ParseSelectList(s, State())))
    {
      hide SqlParser.Bump, SqlParser.ParseSelectItem, SqlParser.ParseSelectList, WfItem, IsIdent, IsNumber, GoodTok;
      ghost var spec := SqlParser.ParseSelectList(s, State());
      var items: seq<SelectItem> := [];
      assert spec.Ok? ==> [] + spec.value.0 == spec.value.0;
      while true
        invariant Good()
        invariant spec ==
          var rest := SqlParser.ParseSelectList(s, State());
          if rest.Err? then Err(rest.error) else Ok((items + rest.value.0, rest.value.1))
        decreases Remaining(s, State())
      {
        SelectStarts(s, State());
        var item :- ParseSelectItem();
        if cur.kind != Comma {
          items := items + [item];
          break;
        }
        :- Bump();
        ghost var more := SqlParser.ParseSelectList(s, State());
        if more.Ok? { assert items + ([item] + more.value.0) == (items + [item]) + more.value.0; }
        items := items + [item];
      }
      return Ok(items);
    }

    method ParseSelectItem() returns (r: Result<SelectItem, Failure>)
      requires Good()
      modifies this
      ensures Agrees(r, State(), old(SqlParser.ParseSelectItem(s, State())))
    {
      hide SqlParser.Bump, SqlParser.ParseExprBp, SqlParser.ParseIdent, WfArith;
      var expr :- ParseExprBp(0);
      if cur.kind != KwAs { return Ok(SelectItem(expr, None)); }
      :- Bump();
      var alias :- ParseIdent();
      return Ok(SelectItem(expr, Some(alias)));
    }

    method ParseOrderList() returns (r: Result<seq<OrderItem>, Failure>)
      requires Good()
      modifies this
      ensures Agrees(r, State(), old(SqlParser.ParseOrderList(s, State())))
    {
      hide SqlParser.Bump, SqlParser.ParseOrderItem, SqlParser.ParseOrderList, WfArith, IsIdent, IsNumber, GoodTok;
      ghost var spec := SqlParser.ParseOrderList(s, State());
      var items: seq<OrderItem> := [];
      assert spec.Ok? ==> [] + spec.value.0 == spec.value.0;
      while true
        invariant Good()
        invariant spec ==
          var rest := SqlParser.ParseOrderList(s, State());
          if rest.Err? then Err(rest.error) else Ok((items + rest.value.0, rest.value.1))
        decreases Remaining(s, State())
      {
        OrderStarts(s, State());
        var item :- ParseOrderItem();
        if cur.kind != Comma {
          items := items + [item];
          break;
        }
        :- Bump();
        ghost var more := SqlParser.ParseOrderList(s, State());
        if more.Ok? { assert items + ([item] + more.value.0) == (items + [item]) + more.value.0; }
        items := items + [item];
      }
      return Ok(items);
    }

    method ParseOrderItem() returns (r: Result<OrderItem, Failure>)
      requires Good()
      modifies this
      ensures Agrees(r, State(), old(SqlParser.ParseOrderItem(s, State())))
    {
      hide SqlParser.Bump, SqlParser.ParseExprBp, WfArith;
      var expr :- ParseExprBp(0);
      if cur.kind == KwDesc {
        :- Bump();
        return Ok(OrderItem(expr, true));
      }
      if cur.kind == KwAsc { :- Bump(); }
      return Ok(OrderItem(expr, false));
    }

    method ParseFilter(kind: Kind) returns (r: Result<Option<Expr>, Failure>)
      requires Good() && kind != Eof
      modifies this
      ensures Agrees(r, State(), old(SqlParser.ParseFilter(s, State(), kind)))
    {
      hide SqlParser.Bump, SqlParser.ParseAnd, WfWhere;
      if cur.kind != kind { return Ok(None); }
      :- Bump();
      var pred :- ParseAndPredicate();
      return Ok(Some(pred));
    }

    method ParseGroupBy() returns (r: Result<seq<Expr>, Failure>)
      requires Good()
      modifies this
      ensures Agrees(r, State(), old(SqlParser.ParseGroupBy(s, State())))
    {
      hide SqlParser.Bump, SqlParser.Expect, SqlParser.ParseExprList, WfList;
      if cur.kind != KwGroup { return Ok([]); }
      :- Bump();
      :- Expect(KwBy);
      r := ParseExprList();
    }

    method ParseOrderBy() returns (r: Result<seq<OrderItem>, Failure>)
      requires Good()
      modifies this
      ensures Agrees(r, State(), old(SqlParser.ParseOrderBy(s, State())))
    {
      hide SqlParser.Bump, SqlParser.Expect, SqlParser.ParseOrderList, WfArith;
      if cur.kind != KwOrder { return Ok([]); }
      :- Bump();
      :- Expect(KwBy);
      r := ParseOrderList();
    }

    method ParseCount(kind: Kind) returns (r: Result<Option<nat>, Failure>)
      requires Good()
      modifies this
      ensures Agrees(r, State(), old(SqlParser.ParseCount(s, State(), kind)))
    {
      hide SqlParser.Bump, SqlParser.ParseU64;
      if cur.kind != kind { return Ok(None); }
      :- Bump();
      var v :- ParseU64();
      return Ok(Some(v));
    }

    method ParseQuery() returns (r: Result<Query, Failure>)
      requires Good()
      modifies this
      ensures r == old(SqlParser.ParseQuery(s, State()))
    {
      hide SqlParser.Bump, SqlParser.Expect, SqlParser.ParseSelectList, SqlParser.ParseIdent, SqlParser.ParseFilter;
      hide SqlParser.ParseGroupBy, SqlParser.ParseOrderBy, SqlParser.ParseCount, WfArith;
      hide WfWhere, WfItem, WfList, IsIdent;
      :- Expect(KwSelect);
      var select :- ParseSelectList();
      :- Expect(KwFrom);
      var from :- ParseIdent();
      var filter :- ParseFilter(KwWhere);
      var groupBy :- ParseGroupBy();
      var having :- ParseFilter(KwHaving);
      var orderBy :- ParseOrderBy();
      var offset :- ParseCount(KwOffset);
      var limit :- ParseCount(KwLimit);
      if cur.kind == Semi { :- Bump(); }
      :- Expect(Eof);
      return Ok(Query(select, from, filter, groupBy, having, orderBy, offset, limit));
    }
  }

  lemma WherePred(e: Expr)
    requires WfPred(e, false)
    ensures WfWhere(e, false)
  {
  }

  lemma WhereAnd(l: Expr, r: Expr)
    requires WfWhere(l, false) && WfPred(r, false)
    ensures WfWhere(And(l, r), false)
  {
  }

  /** Parses a whole input. */
  method ParseSqlV0(input: string) returns (r: Result<Query, Failure>)
    ensures r == ParseSql(input)
  {
    hide Next, SqlParser.ParseQuery;
    var parser := new Parser(input);
    var first :- parser.NextToken();
    parser.cur := first;
    r := parser.ParseQuery();
  }
}
