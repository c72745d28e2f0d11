/**
The main theorem of control-flow compilation: the generated function reaches a return with a state
exactly when the structured program ends with that state, and it never gets stuck.
*/
module Preservation {
  import opened Types
  import opened Ast
  import opened Semantics
  import opened Cfg
  import opened Lowering
  import opened Frames
  import opened InstrSimulation
  import opened ExprSimulation
  import opened StmtSimulation

  /** The structured program ends, by running off its end or by returning, in state `final`. */
  ghost predicate Yields(cx: Context, root: Stmts, env: Env, st: State, final: State) {
    exists fuel: nat :: YieldsWithin(cx, root, env, st, final, fuel)
  }

  ghost predicate YieldsWithin(cx: Context, root: Stmts, env: Env, st: State, final: State, fuel: nat) {
    var o := Exec(cx, Block(root), env, st, fuel);
    (o.Normal? || o.Returned?) && o.st == final
  }

  /** A run from c comes to a return with this state. */
  ghost predicate Reaches(m: Machine, c: Config, final: State, io: Io) {
    exists n: nat :: Run(m, c, n) == Halted(final, io)
  }

  /** A finished program contains all the code generated for it. */
  lemma TreeShape(fs: Functions, root: Stmts, env: Env, g: Gen, t: Gen)
    requires LowerTree(fs, root, env, g) == Some(t)
    ensures var r := LowerStmt(fs, Block(root), env, None, g);
            r.Some? && t == Emit(r.value, Ret) && Within(g, r.value, t.blocks) && Embeds(t, t.blocks) && Frame(g, t)
  {
    hide Frame, Within, Embeds, LowerStmt, Emit;
    var r := LowerStmt(fs, Block(root), env, None, g).value;
    StmtFrame(fs, Block(root), env, None, g);
    FrameSelf(r);
    ThenEmit(g, r, Ret);
    ThenEmit(r, r, Ret);
    WithinAll(g, t);
    WithinDetour(g, r, r.ip, t, t.blocks);
    FrameAt(r, t);
    EmbedsAll(t);
  }

  lemma FrameAt(g: Gen, h: Gen)
    requires Frame(g, h)
    ensures Frame(At(g, g.ip), h)
  {
  }

  lemma WithinAll(g: Gen, h: Gen)
    ensures Within(g, h, h.blocks)
  {
  }

  lemma EmbedsAll(h: Gen)
    ensures Embeds(h, h.blocks)
  {
  }

  /** The code of a whole program against the reference semantics on a given amount of fuel. */
  lemma SimTree(m: Machine, root: Stmts, env: Env, g: Gen, t: Gen, c: Config, fuel: nat) returns (n: nat)
    requires LowerTree(m.cx.functions, root, env, g) == Some(t) && m.code == t.blocks && Stands(g, c)
    ensures var o := Exec(m.cx, Block(root), env, c.st, fuel);
            var p := Run(m, c, n);
            if o.Timeout? then p.Running? && n >= fuel
            else (o.Normal? || o.Returned?) && p == Halted(o.st, c.io)
  {
    hide Frame, Within, Embeds, Emit, LowerStmt, Exec, Stands;
    TreeShape(m.cx.functions, root, env, g, t);
    var r := LowerStmt(m.cx.functions, Block(root), env, None, g).value;
    n := SimStmt(m, Block(root), env, None, g, c, fuel);
    var o := Exec(m.cx, Block(root), env, c.st, fuel);
    if o.Normal? {
      var d := Run(m, c, n).c;
      StepEmitted(m, r, Ret, d);
      assert Run(m, d, 1) == Halted(o.st, c.io);
      RunThen(m, c, n, d, 1);
      n := n + 1;
    }
  }

  /** Two runs that are over ended the same way. */
  lemma RunsAgree(m: Machine, c: Config, n: nat, k: nat)
    requires !Run(m, c, n).Running? && !Run(m, c, k).Running?
    ensures Run(m, c, n) == Run(m, c, k)
  {
    if n <= k { RunOver(m, c, n, k); } else { RunOver(m, c, k, n); }
  }

  /** For every accepted program, wherever its code starts: the generated code reaches a return with
      a state exactly when the structured semantics ends with it. */
  lemma ControlFlowPreserved(m: Machine, root: Stmts, env: Env, g: Gen, t: Gen, c: Config, final: State, io: Io)
    requires LowerTree(m.cx.functions, root, env, g) == Some(t) && m.code == t.blocks && Stands(g, c)
    ensures Reaches(m, c, final, io) <==> io == c.io && Yields(m.cx, root, env, c.st, final)
  {
    hide Stands, Exec, LowerTree;
    if Yields(m.cx, root, env, c.st, final) {
      var fuel: nat :| YieldsWithin(m.cx, root, env, c.st, final, fuel);
      var n := SimTree(m, root, env, g, t, c, fuel);
    }
    if Reaches(m, c, final, io) {
      var k: nat :| Run(m, c, k) == Halted(final, io);
      var n := SimTree(m, root, env, g, t, c, k + 1);
      if Run(m, c, n).Running? {
        RunOver(m, c, k, n);
      } else {
        RunsAgree(m, c, n, k);
        assert YieldsWithin(m.cx, root, env, c.st, final, k + 1);
      }
    }
  }

  /** The generated code is never stuck: no register is read before it is defined, no block is left
      open, and every phi is entered over an edge it lists. */
  lemma NeverStuck(m: Machine, root: Stmts, env: Env, g: Gen, t: Gen, c: Config, n: nat)
    requires LowerTree(m.cx.functions, root, env, g) == Some(t) && m.code == t.blocks && Stands(g, c)
    ensures Run(m, c, n) != Stuck
  {
    hide Stands, Exec, LowerTree;
    var k := SimTree(m, root, env, g, t, c, n + 1);
    if Run(m, c, n) == Stuck {
      if n <= k { RunOver(m, c, n, k); } else { RunsAgree(m, c, n, k); }
    }
  }

  /** Generation accepts a program exactly when it is well typed and well scoped, and then compiles
      it to code that means the same, started in an empty function. */
  lemma CompilerCorrect(m: Machine, root: Stmts, env: Env, c: Config, final: State)
    requires var t := LowerTree(m.cx.functions, root, env, Start());
             t.Some? ==> m.code == t.value.blocks
    requires c.block == 0 && c.pc == 0
    ensures LowerTree(m.cx.functions, root, env, Start()).Some? <==> CheckStmt(m.cx.functions, Block(root), env, false)
    ensures CheckStmt(m.cx.functions, Block(root), env, false) ==>
              (Reaches(m, c, final, c.io) <==> Yields(m.cx, root, env, c.st, final))
  {
    hide LowerTree, Yields, Reaches;
    GenerationSucceeds(m.cx.functions, root, env, Start());
    var t := LowerTree(m.cx.functions, root, env, Start());
    if t.Some? {
      ControlFlowPreserved(m, root, env, Start(), t.value, c, final, c.io);
    }
  }

  function Start(): Gen {
    Builder([BasicBlock(Entry, [])], 0, 0)
  }
}
