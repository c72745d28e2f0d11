/**
The abstract syntax tree of AX, restricted to the node kinds the code generator model covers.
*/
module Ast {
  import opened Types

  datatype Expr =
    | Literal(ty: Ty, bits: int)
    | Local(name: string)
    | Attribute(attrTy: Ty, attrName: string)
    | Component(index: Expr, vec: Expr)
    | MatrixEntry(row: Expr, column: Expr, matrix: Expr)
    | Unary(unOp: UnOp, operand: Expr)
    | Binary(binOp: BinOp, lhs: Expr, rhs: Expr)
    | Logical(isAnd: bool, first: Expr, second: Expr)
    | Ternary(cond: Expr, onTrue: Option<Expr>, onFalse: Expr)
    | Comma(exprs: Exprs)
    | Assign(target: Expr, compound: Option<BinOp>, source: Expr)
    | Crement(variable: Expr, increment: bool, post: bool)
    | Cast(castTy: Ty, inner: Expr)
    | Call(callee: string, args: Exprs)
    | ArrayPack(elements: Exprs)

  datatype Exprs = NoExprs | ConsExpr(head: Expr, tail: Exprs)

  datatype Keyword = Return | Break | Continue

  datatype LoopKind =
    | For(init: Stmts, iteration: Option<Expr>)
    | While
    | Do

  datatype Stmt =
    | ExprStmt(e: Expr)
    | Declare(ty: Ty, name: string, initial: Option<Expr>)
    | Block(body: Stmts)
    | StatementList(stmts: Stmts)
    | If(cond: Expr, onTrue: Stmts, onFalse: Option<Stmts>)
    | Loop(kind: LoopKind, cond: Expr, body: Stmts)
    | Jump(keyword: Keyword)

  /** The statements of a block. */
  datatype Stmts = NoStmts | ConsStmt(head: Stmt, tail: Stmts)
}
