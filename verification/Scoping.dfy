/**
How statements change the environment: only the innermost scope grows, and leaving a block or a
loop restores every enclosing scope.
*/
module Scoping {
  import opened Types
  import opened Ast
  import opened Semantics

  /** The environments differ in the innermost scope and in the slots used. */
  ghost predicate SameBelow(a: Env, b: Env) {
    |a.scopes| == |b.scopes| && (|a.scopes| > 0 ==> a.scopes[..|a.scopes| - 1] == b.scopes[..|b.scopes| - 1])
  }

  lemma {:induction false} AfterSameBelow(s: Stmt, env: Env)
    ensures SameBelow(env, After(s, env))
  {
    match s
    case StatementList(ss) => AfterListSameBelow(ss, env);
    case _ =>
  }

  lemma {:induction false} AfterListSameBelow(ss: Stmts, env: Env)
    ensures SameBelow(env, AfterList(ss, env))
  {
    match ss
    case NoStmts =>
    case ConsStmt(s, rest) =>
      AfterSameBelow(s, env);
      AfterListSameBelow(rest, After(s, env));
  }

  /** Whatever a block or a loop declares is gone once it has been left. */
  lemma BodyRestores(ss: Stmts, env: Env)
    ensures var e := AfterList(ss, Push(env));
            |e.scopes| == |env.scopes| + 1 && e.scopes[..|env.scopes|] == env.scopes
  {
    AfterListSameBelow(ss, Push(env));
  }
}
