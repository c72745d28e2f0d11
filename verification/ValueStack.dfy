/**
The discipline of the value stack: an expression that is generated leaves one value, except for a
cast to the type its operand already has, which takes the operand off and pushes nothing back.
*/
module ValueStack {
  import opened Types
  import opened Ast
  import opened Semantics
  import opened Cfg
  import opened Lowering
  import opened Frames

  /** Unary plus and a pack of one element generate nothing of their own. */
  function Stripped(e: Expr): Expr {
    match e
    case Unary(op, a) => if op == UnaryPlus then Stripped(a) else e
    case ArrayPack(es) => if es.ConsExpr? && es.tail.NoExprs? then Stripped(es.head) else e
    case _ => e
  }

  /** A cast of a scalar to the type it has. */
  predicate IsRedundantCast(fs: Functions, e: Expr, env: Env) {
    e.Cast? && e.castTy.IsScalar() && var s := Check(fs, e.inner, env); s.Typed? && s.ty == e.castTy
  }

  lemma {:induction false} MuteExactly(fs: Functions, e: Expr, env: Env)
    ensures Check(fs, e, env) == Mute <==> IsRedundantCast(fs, Stripped(e), env)
  {
    match e
    case Unary(op, a) =>
      if op == UnaryPlus { MuteExactly(fs, a, env); }
    case ArrayPack(es) =>
      if es.ConsExpr? && es.tail.NoExprs? { MuteExactly(fs, es.head, env); }
    case Comma(es) =>
      if es.ConsExpr? { CommaIsNotMute(fs, es, env); }
    case _ =>
  }

  lemma {:induction false} CommaIsNotMute(fs: Functions, es: Exprs, env: Env)
    requires es.ConsExpr?
    ensures CheckComma(fs, es, env) != Mute
  {
    if es.tail.ConsExpr? { CommaIsNotMute(fs, es.tail, env); }
  }

  /**
  A visit leaves exactly one value above the stack it found if and only if the expression is accepted
  and is not, up to unary plus and packs of one element, a redundant cast; then it leaves the stack as it was.
  */
  lemma OneValueExactly(fs: Functions, e: Expr, env: Env, g: Gen)
    ensures var m := Lower(fs, e, env, g);
            (m.Fail? <==> Check(fs, e, env) == Ill) &&
            (m.Quiet? <==> IsRedundantCast(fs, Stripped(e), env)) &&
            |Pushed(m)| == if m.Made? then 1 else 0
  {
    hide Lower, Check, IsRedundantCast, Stripped;
    LowerFrame(fs, e, env, g);
    MuteExactly(fs, e, env);
  }

  /** Such a cast is therefore of no use to anything around it: adding to it is rejected. */
  lemma RedundantCastIsUseless(fs: Functions, n: int, env: Env, g: Gen)
    ensures Lower(fs, Binary(Plus, Cast(Int32, Literal(Int32, n)), Literal(Int32, n)), env, g).Fail?
  {
    var cast := Cast(Int32, Literal(Int32, n));
    OneValueExactly(fs, cast, env, g);
    assert Lower(fs, cast, env, g).Quiet?;
  }
}
