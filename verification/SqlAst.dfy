/** The syntax trees of the small SQL dialect. */
module SqlAst {
  import opened Wrappers

  datatype AggFn = Count | Sum | Avg | Min | Max | ApproxDistinct

  datatype BinOp = Add | Sub

  datatype CmpOp = Eq | Ne | Lt | Le | Gt | Ge

  datatype Expr =
    | Star
    | Ident(name: string)
    | Int(value: int)
    | Str(raw: string)
    | Agg(func: AggFn, distinct: bool, arg: Expr)
    | Binary(bin: BinOp, lhs: Expr, rhs: Expr)
    | Compare(cmp: CmpOp, left: Expr, right: Expr)
    | Like(subject: Expr, pattern: Expr, notLike: bool)
    | And(first: Expr, second: Expr)
    | Call(callee: string, args: seq<Expr>)
    | In(operand: Expr, values: seq<Expr>, notIn: bool)

  datatype SelectItem = SelectItem(expr: Expr, alias: Option<string>)

  datatype OrderItem = OrderItem(expr: Expr, desc: bool)

  datatype Query = Query(
    select: seq<SelectItem>, from: string, where_: Option<Expr>, groupBy: seq<Expr>, having: Option<Expr>,
    orderBy: seq<OrderItem>, offset: Option<nat>, limit: Option<nat>)
}
