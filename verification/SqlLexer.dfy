/**
 The lexer of the SQL dialect, as functions from the input and a position to a token and the next
 position. A character is a byte of the input. White space is skipped, keywords are recognised
 whatever their case, and a string literal is cut at its last byte even when no quote closes it. The
 next position never lies before the current one.
 */
module SqlLexer {
  import opened Wrappers

  datatype Kind =
    | Eof
    | LParen | RParen | Comma | Semi | StarTok
    | Plus | Minus | EqTok | NeTok | LtTok | LeTok | GtTok | GeTok
    | IdentTok | IntTok | StrTok
    | KwSelect | KwFrom | KwWhere | KwGroup | KwBy | KwHaving | KwOrder | KwAsc | KwDesc | KwLimit | KwOffset | KwAs
    | KwDistinct | KwAnd | KwNot | KwLike | KwIn
    | KwCount | KwSum | KwAvg | KwMin | KwMax | KwApproxCountDistinct

  datatype Tok = Tok(kind: Kind, start: nat, lex: string)

  datatype Msg =
    | UnexpectedCharacter | UnexpectedToken | ExpectedLikeOrIn | ExpectedComparison | BadInt | ExpectedExpression
    | DistinctOnlyWithCount | StarOnlyWithCount | NeedsColumn | ExpectedIdentifier | BadU64 | ExpectedInteger

  /** What ends a parse early: an error for the caller, or a panic that stops the program. */
  datatype Failure = ParseError(msg: Msg, at: nat) | Panic

  predicate IsSpace(c: char) {
    c == ' ' || c == '\n' || c == '\r' || c == '\t'
  }

  predicate IsDigit(c: char) {
    '0' <= c <= '9'
  }

  predicate IsIdentStart(c: char) {
    'a' <= c <= 'z' || 'A' <= c <= 'Z' || c == '_'
  }

  predicate IsIdentContinue(c: char) {
    IsIdentStart(c) || IsDigit(c)
  }

  function LowerChar(c: char): char {
    if 'A' <= c <= 'Z' then c - 'A' + 'a' else c
  }

  function Lower(s: string): string {
    if s == [] then [] else [LowerChar(s[0])] + Lower(s[1..])
  }

  predicate EqKw(lex: string, kw: string) {
    Lower(lex) == kw
  }

  predicate IsPlain(kind: Kind) {
    kind == IdentTok || kind == IntTok || kind == StrTok || kind == Eof
  }

  function KeywordKind(lex: string): (r: Option<Kind>)
    ensures r.Some? ==> !IsPlain(r.value)
  {
    if EqKw(lex, "select") then Some(KwSelect)
    else if EqKw(lex, "from") then Some(KwFrom)
    else if EqKw(lex, "where") then Some(KwWhere)
    else if EqKw(lex, "group") then Some(KwGroup)
    else if EqKw(lex, "by") then Some(KwBy)
    else if EqKw(lex, "having") then Some(KwHaving)
    else if EqKw(lex, "order") then Some(KwOrder)
    else if EqKw(lex, "asc") then Some(KwAsc)
    else if EqKw(lex, "desc") then Some(KwDesc)
    else if EqKw(lex, "limit") then Some(KwLimit)
    else if EqKw(lex, "offset") then Some(KwOffset)
    else if EqKw(lex, "as") then Some(KwAs)
    else if EqKw(lex, "distinct") then Some(KwDistinct)
    else if EqKw(lex, "and") then Some(KwAnd)
    else if EqKw(lex, "not") then Some(KwNot)
    else if EqKw(lex, "like") then Some(KwLike)
    else if EqKw(lex, "in") then Some(KwIn)
    else if EqKw(lex, "count") then Some(KwCount)
    else if EqKw(lex, "sum") then Some(KwSum)
    else if EqKw(lex, "avg") then Some(KwAvg)
    else if EqKw(lex, "min") then Some(KwMin)
    else if EqKw(lex, "max") then Some(KwMax)
    else if EqKw(lex, "approx_count_distinct") then Some(KwApproxCountDistinct)
    else None
  }

  // ---------- scanning ----------

  /** The first position from `i` on that is not white space. */
  function SkipWs(s: string, i: nat): (j: nat)
    requires i <= |s|
    ensures i <= j <= |s| && (j < |s| ==> !IsSpace(s[j]))
    decreases |s| - i
  {
    if i < |s| && IsSpace(s[i]) then SkipWs(s, i + 1) else i
  }

  function ScanIdent(s: string, i: nat): (j: nat)
    requires i <= |s|
    ensures i <= j <= |s|
    ensures forall k :: i <= k < j ==> IsIdentContinue(s[k])
    decreases |s| - i
  {
    if i < |s| && IsIdentContinue(s[i]) then ScanIdent(s, i + 1) else i
  }

  function ScanDigits(s: string, i: nat): (j: nat)
    requires i <= |s|
    ensures i <= j <= |s|
    ensures forall k :: i <= k < j ==> IsDigit(s[k])
    decreases |s| - i
  {
    if i < |s| && IsDigit(s[i]) then ScanDigits(s, i + 1) else i
  }

  /**
   The end of a string literal whose opening quote is before `i`; a doubled quote goes on, and so does the end of
   input.
   */
  function ScanString(s: string, i: nat): (j: nat)
    requires i <= |s|
    ensures i <= j <= |s|
    decreases |s| - i
  {
    if i == |s| then i
    else if s[i] != '\'' then ScanString(s, i + 1)
    else if i + 1 < |s| && s[i + 1] == '\'' then ScanString(s, i + 2)
    else i + 1
  }

  /** Kind and end of the token that starts at `i`. `None`: no token starts with that character. */
  function Scan(s: string, i: nat): (r: Option<(Kind, nat)>)
    requires i < |s|
    ensures r.Some? ==> i < r.value.1 <= |s| && r.value.0 != Eof
    ensures r.Some? && r.value.0 == IntTok ==> forall k :: i <= k < r.value.1 ==> IsDigit(s[k])
    ensures r.Some? && r.value.0 == IdentTok ==>
      IsIdentStart(s[i]) && forall k :: i <= k < r.value.1 ==> IsIdentContinue(s[k])
  {
    var c := s[i];
    var next := if i + 1 < |s| then s[i + 1] else ' ';
    if c == '(' then Some((LParen, i + 1))
    else if c == ')' then Some((RParen, i + 1))
    else if c == ',' then Some((Comma, i + 1))
    else if c == ';' then Some((Semi, i + 1))
    else if c == '*' then Some((StarTok, i + 1))
    else if c == '+' then Some((Plus, i + 1))
    else if c == '-' then Some((Minus, i + 1))
    else if c == '=' then Some((EqTok, i + 1))
    else if c == '<' && next == '=' then Some((LeTok, i + 2))
    else if c == '<' && next == '>' then Some((NeTok, i + 2))
    else if c == '<' then Some((LtTok, i + 1))
    else if c == '>' && next == '=' then Some((GeTok, i + 2))
    else if c == '>' then Some((GtTok, i + 1))
    else if c == '\'' then Some((StrTok, ScanString(s, i + 1)))
    else if IsIdentStart(c) then Some((IdentTok, ScanIdent(s, i + 1)))
    else if IsDigit(c) then Some((IntTok, ScanDigits(s, i + 1)))
    else None
  }

  /** A token and the position after it. */
  datatype Lexed = Lexed(tok: Tok, end: nat)

  predicate IsIdent(name: string) {
    && name != "" && IsIdentStart(name[0]) && KeywordKind(name).None?
    && forall k :: 0 <= k < |name| ==> IsIdentContinue(name[k])
  }

  predicate IsNumber(lex: string) {
    lex != "" && forall k :: 0 <= k < |lex| ==> IsDigit(lex[k])
  }

  /** The text of a token belongs to its kind. */
  predicate GoodTok(tok: Tok) {
    && (tok.kind == IdentTok ==> IsIdent(tok.lex))
    && (tok.kind == IntTok ==> IsNumber(tok.lex))
  }

  /** The next token from `i` on. */
  function Next(s: string, i: nat): (r: Result<Lexed, Failure>)
    requires i <= |s|
    ensures r.Ok? ==>
      && i <= r.value.end <= |s| && GoodTok(r.value.tok)
      && (r.value.tok.kind == Eof ==> r.value.end == |s|)
      && (r.value.tok.kind != Eof ==> i < r.value.end)
  {
    var start := SkipWs(s, i);
    if start == |s| then Ok(Lexed(Tok(Eof, start, ""), start))
    else
      var scanned := Scan(s, start);
      if scanned.None? then Err(ParseError(UnexpectedCharacter, start))
      else
        var end := scanned.value.1;
        var lex := s[start..end];
        var keyword := if scanned.value.0 == IdentTok then KeywordKind(lex) else None;
        Ok(Lexed(Tok(if keyword.Some? then keyword.value else scanned.value.0, start, lex), end))
  }

  /** The text that stands for a punctuation mark or a keyword. */
  function Spelling(kind: Kind): string {
    match kind
    case LParen => "(" case RParen => ")" case Comma => "," case Semi => ";" case StarTok => "*"
    case Plus => "+" case Minus => "-" case EqTok => "=" case NeTok => "<>"
    case LtTok => "<" case LeTok => "<=" case GtTok => ">" case GeTok => ">="
    case KwSelect => "select" case KwFrom => "from" case KwWhere => "where" case KwGroup => "group" case KwBy => "by"
    case KwHaving => "having" case KwOrder => "order" case KwAsc => "asc" case KwDesc => "desc"
    case KwLimit => "limit" case KwOffset => "offset" case KwAs => "as" case KwDistinct => "distinct"
    case KwAnd => "and" case KwNot => "not" case KwLike => "like" case KwIn => "in"
    case KwCount => "count" case KwSum => "sum" case KwAvg => "avg" case KwMin => "min" case KwMax => "max"
    case KwApproxCountDistinct => "approx_count_distinct"
    case _ => ""
  }

  // ---------- string literals ----------

  /** Quotes stand in pairs. */
  predicate Paired(raw: string) {
    if raw == [] then true
    else if raw[0] != '\'' then Paired(raw[1..])
    else |raw| >= 2 && raw[1] == '\'' && Paired(raw[2..])
  }

  /** A byte inside a character of several bytes, in front of which a text cannot be cut. */
  predicate IsContinuation(c: char) {
    0x80 <= c as int < 0xC0
  }

  /** What the parser keeps of a string token: the text without its first and its last byte. */
  function Inner(lex: string): Result<string, Failure> {
    if |lex| < 2 then Ok("")
    else if IsContinuation(lex[|lex| - 1]) then Err(Panic)
    else Ok(lex[1..|lex| - 1])
  }

  lemma {:induction false} ScanPaired(s: string, i: nat, raw: string)
    requires Paired(raw) && i + |raw| <= |s| && s[i..i + |raw|] == raw
    requires i + |raw| < |s| ==> s[i + |raw|] == '\'' && (i + |raw| + 1 < |s| ==> s[i + |raw| + 1] != '\'')
    ensures ScanString(s, i) == if i + |raw| < |s| then i + |raw| + 1 else |s|
    decreases |raw|
  {
    if raw == [] {
    } else {
      assert raw[0] == s[i];
      if raw[0] != '\'' {
        assert s[i + 1..i + |raw|] == raw[1..];
        ScanPaired(s, i + 1, raw[1..]);
      } else {
        assert raw[1] == s[i + 1];
        assert s[i + 2..i + |raw|] == raw[2..];
        ScanPaired(s, i + 2, raw[2..]);
      }
    }
  }

  /**
   A closed literal keeps its text. One that the input ends in loses its last byte, and is accepted all the same unless
   that byte ends a character of several bytes: then the program stops.
   */
  lemma StringLiteral(raw: string, closed: bool)
    requires Paired(raw)
    ensures
      var r := Next("'" + raw + if closed then "'" else "", 0);
      && r.Ok? && r.value.tok.kind == StrTok
      && Inner(r.value.tok.lex) ==
         if closed || raw == "" then Ok(raw)
         else if IsContinuation(raw[|raw| - 1]) then Err(Panic)
         else Ok(raw[..|raw| - 1])
  {
    hide KeywordKind, ScanString, Paired, Inner;
    var s := "'" + raw + if closed then "'" else "";
    assert s[1..1 + |raw|] == raw;
    ScanPaired(s, 1, raw);
    QuoteStarts(s);
    assert s[0..|s|] == s;
    InnerOf(raw, closed);
  }

  lemma InnerOf(raw: string, closed: bool)
    ensures Inner("'" + raw + if closed then "'" else "") ==
      if closed || raw == "" then Ok(raw)
      else if IsContinuation(raw[|raw| - 1]) then Err(Panic)
      else Ok(raw[..|raw| - 1])
  {
    var lex := "'" + raw + if closed then "'" else "";
    if closed {
      assert lex[|lex| - 1] == '\'' && lex[1..|lex| - 1] == raw;
    } else if raw != "" {
      assert lex[|lex| - 1] == raw[|raw| - 1] && lex[1..|lex| - 1] == raw[..|raw| - 1];
    }
  }

  lemma QuoteStarts(s: string)
    requires s != [] && s[0] == '\''
    ensures Next(s, 0) == Ok(Lexed(Tok(StrTok, 0, s[0..ScanString(s, 1)]), ScanString(s, 1)))
  {
    hide KeywordKind, ScanString;
    assert SkipWs(s, 0) == 0;
  }
}
