/**
Statement compilation preserves meaning: blocks, conditionals, loops, break, continue and return.
The reference semantics runs on fuel; running out of it corresponds to at least as many steps of the
generated code, which is what makes the final theorem an equivalence.
*/
module StmtSimulation {
  import opened Types
  import opened Ast
  import opened Overloads
  import opened Semantics
  import opened Cfg
  import opened Lowering
  import opened Frames
  import opened InstrSimulation
  import opened ExprSimulation

  ghost predicate Starts(b: nat, c: Config) {
    c.block == b && c.pc == 0
  }

  /** What the first n steps from c have to do with the way the reference semantics ends. */
  ghost predicate Ends(m: Machine, c: Config, n: nat, h: Gen, x: Option<Exits>, o: Outcome, fuel: nat) {
    var p := Run(m, c, n);
    match o
    case Timeout => p.Running? && n >= fuel
    case Normal(st) => p.Running? && Stands(h, p.c) && p.c.st == st && p.c.io == c.io
    case Broke(st) => x.Some? && p.Running? && Starts(x.value.onBreak, p.c) && p.c.st == st && p.c.io == c.io
    case Continued(st) => x.Some? && p.Running? && Starts(x.value.onContinue, p.c) && p.c.st == st && p.c.io == c.io
    case Returned(st) => p == Halted(st, c.io)
  }

  /** Prefix a run to one that has been classified already. */
  lemma EndsAfter(m: Machine, c: Config, n1: nat, c1: Config, n: nat, h: Gen, x: Option<Exits>, o: Outcome, fuel: nat)
    requires Run(m, c, n1) == Running(c1) && c1.io == c.io && Ends(m, c1, n, h, x, o, fuel)
    ensures Ends(m, c, n1 + n, h, x, o, fuel)
  {
    RunThen(m, c, n1, c1, n);
  }

  /** Go on from where a piece of code ended normally. */
  lemma EndsOn(m: Machine, c: Config, n1: nat, h1: Gen, x1: Option<Exits>, st: State, fuel1: nat,
               n2: nat, h2: Gen, x2: Option<Exits>, o: Outcome, fuel2: nat)
    requires Ends(m, c, n1, h1, x1, Normal(st), fuel1)
    requires Ends(m, Run(m, c, n1).c, n2, h2, x2, o, fuel2)
    ensures Ends(m, c, n1 + n2, h2, x2, o, fuel2)
  {
    EndsAfter(m, c, n1, Run(m, c, n1).c, n2, h2, x2, o, fuel2);
  }

  lemma EndsRuns(m: Machine, c: Config, n: nat, h: Gen, x: Option<Exits>, st: State, fuel: nat)
    requires Ends(m, c, n, h, x, Normal(st), fuel)
    ensures var p := Run(m, c, n);
            p.Running? && Stands(h, p.c) && p.c.st == st && p.c.io == c.io
  {
  }

  lemma MovesEnds(m: Machine, c: Config, n: nat, d: Config, h: Gen, k: nat, x: Option<Exits>, fuel: nat)
    requires Moves(m, c, n, d, h, k)
    ensures Ends(m, c, n, h, x, Normal(d.st), fuel)
  {
  }

  /** Evaluate a condition and branch on it to a block that is empty in h. */
  lemma {:induction false} SimCondition(m: Machine, e: Expr, env: Env, t: nat, f: nat, g: Gen, c: Config)
    returns (n: nat, d: Config)
    requires Stands(g, c)
    requires var r := LowerCondition(m.cx.functions, e, env, t, f, g); r.Some? && Within(g, r.value, m.code)
    ensures var x := Eval(m.cx, e, env, c.st);
            && Run(m, c, n) == Running(d) && Starts(if IsTrue(m.cx, e, env, x) then t else f, d)
            && d.st == x.st && d.io == c.io && n > 0
  {
    hide Frame, Within, Embeds, Moves, Stands, Keep, Loaded, Tested, Emit, Eval, Lower, Check;
    var a := Lower(m.cx.functions, e, env, g);
    var l := Loaded(a.g, a.v);
    var y := Tested(l.g, l.o, a.v.ty);
    var br := CondBr(y.o, t, f);
    LowerFrame(m.cx.functions, e, env, g);
    FrameSelf(a.g);
    ThenTestBranch(a.g, a.g, a.v, t, f);
    Split(g, a.g, Emit(y.g, br), m.code);
    EmitEmbeds(y.g, br, m.code);
    var n1, c1 := SimExpr(m, e, env, g, c);
    MovesStands(m, c, n1, c1, a.g, g.regs);
    var x := Eval(m.cx, e, env, c.st);
    var n2, c2 := SimLoadTest(m, a.g, a.v, x.v, c1);
    MovesStands(m, c1, n2, c2, y.g, a.g.regs);
    StepEmitted(m, y.g, br, c2);
    d := Goto(c2, if IsTrue(m.cx, e, env, x) then t else f).c;
    RunOne(m, c2, d);
    MovesRun(m, c, n1, c1, a.g, g.regs);
    MovesRun(m, c1, n2, c2, y.g, a.g.regs);
    RunThen(m, c1, n2, c2, 1);
    RunThen(m, c, n1, c1, n2 + 1);
    n := n1 + (n2 + 1);
  }

  lemma MovesRun(m: Machine, c: Config, n: nat, d: Config, h: Gen, k: nat)
    requires Moves(m, c, n, d, h, k)
    ensures Run(m, c, n) == Running(d) && d.io == c.io
  {
  }

  /** For every statement, every fuel, and every function its code is part of. */
  lemma {:induction false} SimStmt(m: Machine, s: Stmt, env: Env, x: Option<Exits>, g: Gen, c: Config, fuel: nat)
    returns (n: nat)
    requires Stands(g, c)
    requires var r := LowerStmt(m.cx.functions, s, env, x, g); r.Some? && Within(g, r.value, m.code)
    ensures var r := LowerStmt(m.cx.functions, s, env, x, g);
            Ends(m, c, n, r.value, x, Exec(m.cx, s, env, c.st, fuel), fuel)
    decreases fuel, s, 5
  {
    hide Frame, Within, Moves, Loaded, EmitAssign, LowerIf, LowerLoop, Lower, Eval, Ends;
    match s
    case ExprStmt(e) =>
      var d;
      n, d := SimExpr(m, e, env, g, c);
      MovesEnds(m, c, n, d, Lower(m.cx.functions, e, env, g).g, g.regs, x, fuel);
    case Declare(_, _, _) => n := SimDeclare(m, s, env, x, g, c, fuel);
    case Block(body) => n := SimStmts(m, body, Push(env), x, g, c, fuel);
    case StatementList(ss) => n := SimStmts(m, ss, env, x, g, c, fuel);
    case If(_, _, _) => n := SimIf(m, s, env, x, g, c, fuel);
    case Loop(_, _, _) => n := SimLoop(m, s, env, x, g, c, fuel);
    case Jump(_) => n := SimJump(m, s, env, x, g, c, fuel);
  }

  lemma {:induction false} SimDeclare(m: Machine, s: Stmt, env: Env, x: Option<Exits>, g: Gen, c: Config, fuel: nat)
    returns (n: nat)
    requires s.Declare? && Stands(g, c)
    requires var r := LowerStmt(m.cx.functions, s, env, x, g); r.Some? && Within(g, r.value, m.code)
    ensures var r := LowerStmt(m.cx.functions, s, env, x, g);
            Ends(m, c, n, r.value, x, Exec(m.cx, s, env, c.st, fuel), fuel)
  {
    hide Frame, Within, Embeds, Moves, Stands, Keep, Taken, EmitAssign, Lower, Eval, Ends, Check, AssignTo, Rvalue;
    var fs := m.cx.functions;
    var r := LowerStmt(fs, s, env, x, g).value;
    if s.initial.None? {
      MovesNot(m, c, g, 0);
      MovesEnds(m, c, 0, c, g, 0, x, fuel);
      n := 0;
    } else {
      var env1 := Declared(env, s.ty, s.name);
      var a := Lower(fs, s.initial.value, env1, g);
      var l := Taken(a.g, a.v);
      var slot := Val(Slot(env.slots), s.ty, true);
      LowerFrame(fs, s.initial.value, env1, g);
      FrameSelf(a.g);
      ThenTaken(a.g, a.g, a.v);
      ThenAssign(a.g, l.g, slot, l.o, a.v.ty);
      Split(g, a.g, r, m.code);
      AssignEmbeds(l.g, slot, l.o, a.v.ty, m.code);
      var n1, c1 := SimExpr(m, s.initial.value, env1, g, c);
      MovesStands(m, c, n1, c1, a.g, g.regs);
      var v := Eval(m.cx, s.initial.value, env1, c.st);
      HeldIsRvalue(a.v, v.v, c1.regs, v.st);
      var n2, c2 := SimTaken(m, a.g, a.v, v.v, c1);
      MovesStands(m, c1, n2, c2, l.g, a.g.regs);
      MovesOn(m, c, n1, c1, a.g, g.regs, n2, c2, l.g, a.g.regs);
      var n3, d := SimAssign(m, l.g, slot, Ptr(Address(env.slots, 0)), l.o, a.v.ty, Rvalue(v.st, v.v, a.v.ty), c2);
      MovesOn(m, c, n1 + n2, c2, l.g, g.regs, n3, d, r, l.g.regs);
      n := n1 + n2 + n3;
      MovesEnds(m, c, n, d, r, g.regs, x, fuel);
    }
  }

  lemma SimJump(m: Machine, s: Stmt, env: Env, x: Option<Exits>, g: Gen, c: Config, fuel: nat) returns (n: nat)
    requires s.Jump? && Stands(g, c)
    requires var r := LowerStmt(m.cx.functions, s, env, x, g); r.Some? && Within(g, r.value, m.code)
    ensures var r := LowerStmt(m.cx.functions, s, env, x, g);
            Ends(m, c, n, r.value, x, Exec(m.cx, s, env, c.st, fuel), fuel)
  {
    hide Stands;
    var i := match s.keyword
      case Return => Ret
      case Break => Br(x.value.onBreak)
      case Continue => Br(x.value.onContinue);
    n := 1;
    assert Embeds(Emit(g, i), m.code) by {
      assert Code(LowerStmt(m.cx.functions, s, env, x, g).value, g.ip) == Code(Emit(g, i), g.ip);
    }
    StepEmitted(m, g, i, c);
    match s.keyword
    case Return =>
    case Break => RunOne(m, c, Goto(c, x.value.onBreak).c);
    case Continue => RunOne(m, c, Goto(c, x.value.onContinue).c);
  }

  lemma {:induction false} SimStmts(m: Machine, ss: Stmts, env: Env, x: Option<Exits>, g: Gen, c: Config, fuel: nat)
    returns (n: nat)
    requires Stands(g, c)
    requires var r := LowerStmts(m.cx.functions, ss, env, x, g); r.Some? && Within(g, r.value, m.code)
    ensures var r := LowerStmts(m.cx.functions, ss, env, x, g);
            Ends(m, c, n, r.value, x, ExecList(m.cx, ss, env, c.st, fuel), fuel)
    decreases fuel, ss, 5
  {
    hide Frame, Within, Stands, LowerStmt, Exec, Ends;
    match ss
    case NoStmts =>
      MovesNot(m, c, g, 0);
      MovesEnds(m, c, 0, c, g, 0, x, fuel);
      n := 0;
    case ConsStmt(s, rest) =>
      var fs := m.cx.functions;
      var r := LowerStmt(fs, s, env, x, g).value;
      var q := LowerStmts(fs, rest, After(s, env), x, r).value;
      StmtFrame(fs, s, env, x, g);
      StmtsFrame(fs, rest, After(s, env), x, r);
      Split(g, r, q, m.code);
      var n1 := SimStmt(m, s, env, x, g, c, fuel);
      var o := Exec(m.cx, s, env, c.st, fuel);
      if o.Normal? {
        EndsRuns(m, c, n1, r, x, o.st, fuel);
        var n2 := SimStmts(m, rest, After(s, env), x, r, Run(m, c, n1).c, fuel);
        EndsOn(m, c, n1, r, x, o.st, fuel, n2, q, x, ExecList(m.cx, rest, After(s, env), o.st, fuel), fuel);
        n := n1 + n2;
      } else {
        n := n1;
        EndsElsewhere(m, c, n, r, q, x, o, fuel);
      }
  }

  lemma EndsElsewhere(m: Machine, c: Config, n: nat, h1: Gen, h2: Gen, x: Option<Exits>, o: Outcome, fuel: nat)
    requires Ends(m, c, n, h1, x, o, fuel) && !o.Normal?
    ensures Ends(m, c, n, h2, x, o, fuel)
  {
  }

  /** Statements in a block of their own, followed by a branch to a block that is empty in h. */
  lemma {:induction false} SimArm(m: Machine, ss: Stmts, env: Env, x: Option<Exits>, g: Gen, to: nat, h: Gen,
      c: Config, fuel: nat)
    returns (n: nat)
    requires Stands(g, c) && h.ip == to && Code(h, to) == []
    requires var r := LowerStmts(m.cx.functions, ss, env, x, g);
             r.Some? && Within(g, r.value, m.code) && Embeds(Emit(r.value, Br(to)), m.code)
    ensures Ends(m, c, n, h, x, ExecList(m.cx, ss, env, c.st, fuel), fuel)
    decreases fuel, ss, 6
  {
    hide Frame, Within, Embeds, Moves, Stands, Emit, LowerStmts, ExecList, Ends;
    var r := LowerStmts(m.cx.functions, ss, env, x, g).value;
    var o := ExecList(m.cx, ss, env, c.st, fuel);
    n := SimStmts(m, ss, env, x, g, c, fuel);
    if o.Normal? {
      EndsRuns(m, c, n, r, x, o.st, fuel);
      var c1 := Run(m, c, n).c;
      var d := StepJump(m, r, Br(to), c1, to, h);
      MovesEnds(m, c1, 1, d, h, r.regs, x, fuel);
      EndsOn(m, c, n, r, x, o.st, fuel, 1, h, x, o, fuel);
      n := n + 1;
    } else {
      EndsElsewhere(m, c, n, r, h, x, o, fuel);
    }
  }

  lemma StandsAt(g: Gen, b: nat, c: Config)
    requires b < |g.blocks| && Code(g, b) == [] && Starts(b, c)
    ensures Stands(At(g, b), c)
  {
  }

  /** The builders of a conditional: before and after the condition, and at the ends of its blocks. */
  datatype IfParts = IfParts(g1: Gen, c: Gen, t: Gen, f: Gen)

  function FalseEnv(s: Stmt, env: Env): Env
    requires s.If?
  {
    env.(slots := AfterList(s.onTrue, Push(env)).slots)
  }

  ghost predicate IsIf(fs: Functions, s: Stmt, env: Env, x: Option<Exits>, g: Gen, p: IfParts) {
    var post, thn := |g.blocks|, |g.blocks| + 1;
    var els := if s.If? && s.onFalse.Some? then post + 2 else post;
    var g0 := NewBlock(NewBlock(g, PostIf), Then);
    && s.If? && p.g1 == (if s.onFalse.Some? then NewBlock(g0, Else) else g0)
    && LowerCondition(fs, s.cond, env, thn, els, p.g1) == Some(p.c) && els < |p.c.blocks|
    && thn < |p.c.blocks| && LowerStmts(fs, s.onTrue, Push(env), x, At(p.c, thn)) == Some(p.t)
    && |p.c.blocks| <= |p.t.blocks|
    && (s.onFalse.Some? ==>
          && LowerStmts(fs, s.onFalse.value, Push(FalseEnv(s, env)), x, At(Emit(p.t, Br(post)), els)) == Some(p.f)
          && |p.t.blocks| <= |p.f.blocks|)
  }

  function IfEnd(s: Stmt, post: nat, p: IfParts): Gen
    requires s.If? && post < |p.t.blocks| && (s.onFalse.Some? ==> post < |p.f.blocks|)
  {
    At(if s.onFalse.Some? then Emit(p.f, Br(post)) else Emit(p.t, Br(post)), post)
  }

  lemma {:induction false} IfShape(fs: Functions, s: Stmt, env: Env, x: Option<Exits>, g: Gen, p: IfParts,
      code: seq<BasicBlock>)
    requires IsIf(fs, s, env, x, g, p) && Within(g, IfEnd(s, |g.blocks|, p), code)
    ensures var post, thn := |g.blocks|, |g.blocks| + 1;
            var g2 := Emit(p.t, Br(post));
            && Within(p.g1, p.c, code) && Code(p.c, thn) == [] && Within(At(p.c, thn), p.t, code) && Embeds(g2, code)
            && Code(IfEnd(s, post, p), post) == []
            && (s.onFalse.Some? ==>
                  && Code(g2, post + 2) == [] && Within(At(g2, post + 2), p.f, code) &&
                    Embeds(Emit(p.f, Br(post)), code))
  {
    hide Frame, Within, Embeds, Emit, LowerCondition, LowerStmts, FalseEnv;
    var post, thn := |g.blocks|, |g.blocks| + 1;
    var els := if s.onFalse.Some? then post + 2 else post;
    var r := IfEnd(s, post, p);
    var g2 := Emit(p.t, Br(post));
    ConditionFrame(fs, s.cond, env, thn, els, p.g1);
    StmtsFrame(fs, s.onTrue, Push(env), x, At(p.c, thn));
    EndBlock(p.c, thn, p.t);
    ThenEmit(At(p.c, thn), p.t, Br(post));
    Untouched(p.g1, p.c, thn);
    Untouched(p.g1, p.c, post);
    Untouched(At(p.c, thn), g2, post);
    FrameSelf(p.t);
    ThenEmit(p.t, p.t, Br(post));
    if s.onFalse.Some? {
      var g3 := Emit(p.f, Br(post));
      Untouched(p.g1, p.c, els);
      Untouched(At(p.c, thn), g2, els);
      StmtsFrame(fs, s.onFalse.value, Push(FalseEnv(s, env)), x, At(g2, els));
      EndBlock(g2, els, p.f);
      ThenEmit(At(g2, els), p.f, Br(post));
      Untouched(At(g2, els), g3, post);
      FrameSelf(p.f);
      ThenEmit(p.f, p.f, Br(post));
      WithinSame(g, g3, r, code);
      WithinDetour(g, p.f, p.f.ip, g3, code);
      WithinDetour(g, g2, els, p.f, code);
      WithinLater(g, At(g2, els), p.f, code);
      RegionHere(g, g3, code);
    } else {
      WithinSame(g, g2, r, code);
    }
    WithinDetour(g, p.t, p.t.ip, g2, code);
    WithinDetour(g, p.c, thn, p.t, code);
    WithinLater(g, At(p.c, thn), p.t, code);
    WithinLater(g, p.g1, p.c, code);
    RegionHere(g, g2, code);
  }

  lemma WithinSame(g: Gen, a: Gen, h: Gen, code: seq<BasicBlock>)
    requires a.blocks == h.blocks && Within(g, h, code)
    ensures Within(g, a, code)
  {
  }

  lemma {:induction false} SimIf(m: Machine, s: Stmt, env: Env, x: Option<Exits>, g: Gen, c: Config, fuel: nat)
    returns (n: nat)
    requires s.If? && Stands(g, c)
    requires var r := LowerIf(m.cx.functions, s, env, x, g); r.Some? && Within(g, r.value, m.code)
    ensures var r := LowerIf(m.cx.functions, s, env, x, g);
            Ends(m, c, n, r.value, x, Exec(m.cx, s, env, c.st, fuel), fuel)
    decreases fuel, s, 4
  {
    hide Frame, Within, Embeds, Moves, Stands, Emit, LowerCondition, LowerStmts, AfterList, Eval, Ends, IsTrue,
      ExecList;
    var fs := m.cx.functions;
    var post, thn := |g.blocks|, |g.blocks| + 1;
    var els := if s.onFalse.Some? then post + 2 else post;
    var g0 := NewBlock(NewBlock(g, PostIf), Then);
    var g1 := if s.onFalse.Some? then NewBlock(g0, Else) else g0;
    var cond := LowerCondition(fs, s.cond, env, thn, els, g1).value;
    var t := LowerStmts(fs, s.onTrue, Push(env), x, At(cond, thn)).value;
    var g2 := Emit(t, Br(post));
    var f :=
      if s.onFalse.Some? then LowerStmts(fs, s.onFalse.value, Push(FalseEnv(s, env)), x, At(g2, els)).value
      else t;
    var p := IfParts(g1, cond, t, f);
    var r := IfEnd(s, post, p);
    IfShape(fs, s, env, x, g, p, m.code);
    NewStands(g, c, g1);
    var n1, c1 := SimCondition(m, s.cond, env, thn, els, g1, c);
    var o := Exec(m.cx, s, env, c.st, fuel);
    var n2 := 0;
    if IsTrue(m.cx, s.cond, env, Eval(m.cx, s.cond, env, c.st)) {
      StandsAt(cond, thn, c1);
      n2 := SimArm(m, s.onTrue, Push(env), x, At(cond, thn), post, r, c1, fuel);
    } else if s.onFalse.Some? {
      StandsAt(g2, els, c1);
      n2 := SimArm(m, s.onFalse.value, Push(FalseEnv(s, env)), x, At(g2, els), post, r, c1, fuel);
    } else {
      StandsAt(r, post, c1);
      MovesNot(m, c1, r, 0);
      MovesEnds(m, c1, 0, c1, r, 0, x, fuel);
    }
    EndsAfter(m, c, n1, c1, n2, r, x, o, fuel);
    n := n1 + n2;
  }

  // ---------------------------------------------------------------------------------------
  // Loops

  /** The builders of a loop: its head, the end of its body, and the end of its condition. */
  datatype LoopParts = LoopParts(head: LoopHead, body: Gen, cond: Gen)

  /** Everything the simulation of a loop needs to know about its blocks. */
  ghost predicate IsLoop(fs: Functions, s: Stmt, env: Env, post: nat, p: LoopParts, code: seq<BasicBlock>) {
    var cond, body := post + 1, post + 2;
    && s.Loop? && p.head.LoopHead? && body < |p.head.g.blocks| && p.head.next < |p.head.g.blocks|
    && var env1 := LoopEnv(s.kind, env);
       var next := p.head.next;
       && LowerStmts(fs, s.body, Push(env1), Some(Exits(post, next)), At(p.head.g, body)) == Some(p.body)
       && Code(p.head.g, body) == [] && Within(At(p.head.g, body), p.body, code)
       && |p.head.g.blocks| <= |p.body.blocks|
       && var g2 := Emit(p.body, Br(next));
          && Embeds(g2, code) && Code(g2, cond) == []
          && LowerCondition(fs, s.cond, env1, body, post, At(g2, cond)) == Some(p.cond)
          && Within(At(g2, cond), p.cond, code) && |g2.blocks| <= |p.cond.blocks| && Code(p.cond, post) == []
  }

  /** The iteration block of a `for` loop. */
  ghost predicate IsIteration(fs: Functions, s: Stmt, env: Env, post: nat, p: LoopParts, gi: Gen,
      code: seq<BasicBlock>) {
    s.Loop? && p.head.LoopHead? &&
    if s.kind.For? && s.kind.iteration.Some? then
      var m := Lower(fs, s.kind.iteration.value, LoopEnv(s.kind, env), gi);
      && gi.ip == p.head.next && Code(gi, gi.ip) == [] && !m.Fail? && Within(gi, m.g, code)
      && Embeds(Emit(m.g, Br(post + 1)), code)
    else p.head.next == post + 1
  }

  /** From the block that `continue` goes to, to the condition. */
  lemma {:induction false} SimIteration(m: Machine, s: Stmt, env: Env, post: nat, p: LoopParts, gi: Gen, c: Config)
    returns (n: nat, d: Config)
    requires IsIteration(m.cx.functions, s, env, post, p, gi, m.code) && Starts(p.head.next, c)
    ensures Run(m, c, n) == Running(d) && Starts(post + 1, d) && d.io == c.io
    ensures d.st == if s.kind.For? && s.kind.iteration.Some?
                    then Eval(m.cx, s.kind.iteration.value, LoopEnv(s.kind, env), c.st).st else c.st
  {
    hide Frame, Within, Embeds, Moves, Emit, Eval, Lower;
    if s.kind.For? && s.kind.iteration.Some? {
      var e := s.kind.iteration.value;
      var r := Lower(m.cx.functions, e, LoopEnv(s.kind, env), gi);
      var n1, c1 := SimExpr(m, e, LoopEnv(s.kind, env), gi, c);
      MovesRun(m, c, n1, c1, r.g, gi.regs);
      MovesStands(m, c, n1, c1, r.g, gi.regs);
      StepEmitted(m, r.g, Br(post + 1), c1);
      d := Goto(c1, post + 1).c;
      RunOne(m, c1, d);
      RunThen(m, c, n1, c1, 1);
      n := n1 + 1;
    } else {
      n, d := 0, c;
    }
  }

  /** A loop about to test its condition. */
  lemma {:induction false} SimTest(m: Machine, s: Stmt, env: Env, x: Option<Exits>, post: nat, p: LoopParts, gi: Gen,
                                   c: Config, fuel: nat)
    returns (n: nat)
    requires IsLoop(m.cx.functions, s, env, post, p, m.code) && IsIteration(m.cx.functions, s, env, post, p, gi, m.code)
    requires Starts(post + 1, c)
    ensures post < |p.cond.blocks|
    ensures Ends(m, c, n, At(p.cond, post), x, ExecTest(m.cx, s, env, c.st, fuel), fuel)
    decreases fuel, s, 1
  {
    hide Frame, Within, Embeds, Moves, Stands, Emit, LowerCondition, LowerStmts, Eval, IsTrue, IsIteration,
      ExecBody, LoopEnv;
    n := 0;
    if fuel > 0 {
      var env1 := LoopEnv(s.kind, env);
      var g2 := Emit(p.body, Br(p.head.next));
      StandsAt(g2, post + 1, c);
      var n1, c1 := SimCondition(m, s.cond, env1, post + 2, post, At(g2, post + 1), c);
      var o := ExecTest(m.cx, s, env, c.st, fuel);
      if IsTrue(m.cx, s.cond, env1, Eval(m.cx, s.cond, env1, c.st)) {
        var n2 := SimBody(m, s, env, x, post, p, gi, c1, fuel - 1);
        EndsAfter(m, c, n1, c1, n2, At(p.cond, post), x, o, fuel - 1);
        n := n1 + n2;
      } else {
        StandsAt(p.cond, post, c1);
        n := n1;
      }
    }
  }

  /** A loop about to run its body. */
  lemma {:induction false} SimBody(m: Machine, s: Stmt, env: Env, x: Option<Exits>, post: nat, p: LoopParts, gi: Gen,
                                   c: Config, fuel: nat)
    returns (n: nat)
    requires IsLoop(m.cx.functions, s, env, post, p, m.code) && IsIteration(m.cx.functions, s, env, post, p, gi, m.code)
    requires Starts(post + 2, c)
    ensures post < |p.cond.blocks|
    ensures Ends(m, c, n, At(p.cond, post), x, ExecBody(m.cx, s, env, c.st, fuel), fuel)
    decreases fuel, s, 2
  {
    hide Frame, Within, Embeds, Moves, Stands, Emit, LowerCondition, LowerStmts, Eval, IsTrue, IsIteration,
      ExecTest, LoopEnv, ExecList, Ends;
    var next := p.head.next;
    var env1 := LoopEnv(s.kind, env);
    var xs := Some(Exits(post, next));
    var o := ExecList(m.cx, s.body, Push(env1), c.st, fuel);
    var h := At(p.cond, post);
    StandsAt(p.head.g, post + 2, c);
    var n1 := SimBodyBlock(m, s, env, post, p, c, fuel);
    BodyEnds(m, c, n1, post, next, h, x, o, fuel);
    n := n1;
    if o.Normal? || o.Continued? {
      var c1 := Run(m, c, n1).c;
      var n2, c2 := SimIteration(m, s, env, post, p, gi, c1);
      var n3 := SimTest(m, s, env, x, post, p, gi, c2, fuel);
      var q := ExecTest(m.cx, s, env, c2.st, fuel);
      EndsAfter(m, c1, n2, c2, n3, h, x, q, fuel);
      EndsAfter(m, c, n1, c1, n2 + n3, h, x, q, fuel);
      n := n1 + (n2 + n3);
    }
  }

  /** The body and the branch behind it, seen from the loop: it times out, returns, leaves the loop,
      or arrives where the next iteration starts. */
  ghost predicate BodyDone(m: Machine, c: Config, n: nat, post: nat, next: nat, o: Outcome, fuel: nat) {
    var p := Run(m, c, n);
    match o
    case Timeout => p.Running? && n >= fuel
    case Returned(st) => p == Halted(st, c.io)
    case Broke(st) => p.Running? && Starts(post, p.c) && p.c.st == st && p.c.io == c.io
    case _ => p.Running? && Starts(next, p.c) && p.c.st == o.st && p.c.io == c.io
  }

  lemma BodyEnds(m: Machine, c: Config, n: nat, post: nat, next: nat, h: Gen, x: Option<Exits>, o: Outcome, fuel: nat)
    requires BodyDone(m, c, n, post, next, o, fuel) && h.ip == post && Code(h, post) == []
    ensures o.Timeout? || o.Returned? ==> Ends(m, c, n, h, x, o, fuel)
    ensures o.Broke? ==> Ends(m, c, n, h, x, Normal(o.st), fuel)
    ensures o.Normal? || o.Continued? ==>
              var p := Run(m, c, n);
              p.Running? && Starts(next, p.c) && p.c.st == o.st && p.c.io == c.io
  {
  }

  lemma {:induction false} SimBodyBlock(m: Machine, s: Stmt, env: Env, post: nat, p: LoopParts, c: Config, fuel: nat)
    returns (n: nat)
    requires IsLoop(m.cx.functions, s, env, post, p, m.code) && Stands(At(p.head.g, post + 2), c)
    ensures BodyDone(m, c, n, post, p.head.next, ExecList(m.cx, s.body, Push(LoopEnv(s.kind, env)), c.st, fuel), fuel)
    decreases fuel, s, 0
  {
    hide Frame, Within, Embeds, Moves, Emit, LowerCondition, LowerStmts, LoopEnv, ExecList;
    var next := p.head.next;
    var env1 := LoopEnv(s.kind, env);
    var o := ExecList(m.cx, s.body, Push(env1), c.st, fuel);
    n := SimStmts(m, s.body, Push(env1), Some(Exits(post, next)), At(p.head.g, post + 2), c, fuel);
    if o.Normal? {
      var c1 := Run(m, c, n).c;
      StepEmitted(m, p.body, Br(next), c1);
      RunOne(m, c1, Goto(c1, next).c);
      RunThen(m, c, n, c1, 1);
      n := n + 1;
    }
  }

  /** The head of a loop: a `for` initialiser, if any, and the branch into the loop. */
  lemma {:induction false} HeadShape(fs: Functions, s: Stmt, env: Env, x: Option<Exits>, g: Gen, post: nat, h: LoopHead,
                                     code: seq<BasicBlock>)
    returns (gi: Gen)
    requires s.Loop? && post + 2 < |g.blocks| && h == LowerHead(fs, s, env, x, post + 1, post + 2, g) && h.LoopHead?
    requires g.ip < post && Within(g, h.g, code)
    ensures s.kind.For? ==> var i := LowerStmts(fs, s.kind.init, Push(env), x, g);
                            i.Some? && Within(g, i.value, code) && Embeds(Emit(i.value, Br(post + 1)), code)
    ensures s.kind.While? ==> Embeds(Emit(g, Br(post + 1)), code)
    ensures s.kind.Do? ==> Embeds(Emit(g, Br(post + 2)), code)
    ensures Frame(g, h.g)
    ensures forall p: LoopParts | p.head == h :: IsIteration(fs, s, env, post, p, gi, code)
  {
    hide Frame, Within, Embeds, Emit, LowerStmts, LoopEnv, Lower;
    gi := g;
    HeadFrame(fs, s, env, x, post + 1, post + 2, g);
    if s.kind.For? {
      var i := LowerStmts(fs, s.kind.init, Push(env), x, g).value;
      var g1 := Emit(i, Br(post + 1));
      StmtsFrame(fs, s.kind.init, Push(env), x, g);
      FrameSelf(i);
      ThenEmit(i, i, Br(post + 1));
      ThenEmit(g, i, Br(post + 1));
      if s.kind.iteration.Some? {
        var iter := |g1.blocks|;
        var g2 := NewBlock(g1, LoopIteration);
        gi := At(g2, iter);
        var m := Lower(fs, s.kind.iteration.value, LoopEnv(s.kind, env), gi);
        LowerFrame(fs, s.kind.iteration.value, LoopEnv(s.kind, env), gi);
        EndBlock(g2, iter, m.g);
        FrameSelf(m.g);
        ThenEmit(m.g, m.g, Br(post + 1));
        NewBlockFrame(g1, LoopIteration);
        WithinDetour(g, m.g, m.g.ip, h.g, code);
        RegionHere(g, h.g, code);
        WithinDetour(g, g2, iter, m.g, code);
        WithinLater(g, gi, m.g, code);
        WithinDetour(g, g1, g1.ip, g2, code);
      }
      WithinDetour(g, i, i.ip, g1, code);
      EndBlock(g, g.ip, g1);
      RegionHere(g, g1, code);
    } else {
      RegionHere(g, h.g, code);
    }
  }

  /** Body and condition of a loop. */
  lemma {:induction false} LoopShape(fs: Functions, s: Stmt, env: Env, x: Option<Exits>, g: Gen, p: LoopParts,
      code: seq<BasicBlock>)
    requires s.Loop? && LowerLoop(fs, s, env, x, g).Some? && Within(g, LowerLoop(fs, s, env, x, g).value, code)
    requires p.head == LowerHead(fs, s, env, x, |g.blocks| + 1, |g.blocks| + 2, LoopBlocks(g)) && p.head.LoopHead?
    requires var env1 := LoopEnv(s.kind, env);
             var post := |g.blocks|;
             && LowerStmts(fs, s.body, Push(env1), Some(Exits(post, p.head.next)), At(p.head.g, post + 2)) ==
               Some(p.body)
             && |p.head.g.blocks| <= |p.body.blocks|
             && LowerCondition(fs, s.cond, env1, post + 2, post, At(Emit(p.body, Br(p.head.next)), post + 1)) ==
               Some(p.cond)
    ensures IsLoop(fs, s, env, |g.blocks|, p, code) && Within(LoopBlocks(g), p.head.g, code)
    ensures LowerLoop(fs, s, env, x, g) == Some(At(p.cond, |g.blocks|))
  {
    hide Frame, Within, Embeds, Emit, LowerStmts, LoopEnv, LowerCondition, LowerHead;
    var post, cond, body := |g.blocks|, |g.blocks| + 1, |g.blocks| + 2;
    var env1 := LoopEnv(s.kind, env);
    var g0 := LoopBlocks(g);
    var g2 := Emit(p.body, Br(p.head.next));
    HeadFrame(fs, s, env, x, cond, body, g0);
    Untouched(g0, p.head.g, post);
    Untouched(g0, p.head.g, cond);
    Untouched(g0, p.head.g, body);
    StmtsFrame(fs, s.body, Push(env1), Some(Exits(post, p.head.next)), At(p.head.g, body));
    EndBlock(p.head.g, body, p.body);
    ThenEmit(At(p.head.g, body), p.body, Br(p.head.next));
    Untouched(At(p.head.g, body), g2, post);
    Untouched(At(p.head.g, body), g2, cond);
    ConditionFrame(fs, s.cond, env1, body, post, At(g2, cond));
    Untouched(At(g2, cond), p.cond, post);
    WithinSame(g, p.cond, At(p.cond, post), code);
    WithinDetour(g, g2, cond, p.cond, code);
    WithinLater(g, At(g2, cond), p.cond, code);
    RegionHere(g, g2, code);
    FrameSelf(p.body);
    ThenEmit(p.body, p.body, Br(p.head.next));
    WithinDetour(g, p.body, p.body.ip, g2, code);
    WithinLater(g, At(p.head.g, body), p.body, code);
    WithinDetour(g, p.head.g, body, p.body, code);
    WithinLater(g, g0, p.head.g, code);
  }

  lemma {:induction false} SimLoop(m: Machine, s: Stmt, env: Env, x: Option<Exits>, g: Gen, c: Config, fuel: nat)
    returns (n: nat)
    requires s.Loop? && Stands(g, c)
    requires var r := LowerLoop(m.cx.functions, s, env, x, g); r.Some? && Within(g, r.value, m.code)
    ensures var r := LowerLoop(m.cx.functions, s, env, x, g);
            Ends(m, c, n, r.value, x, Exec(m.cx, s, env, c.st, fuel), fuel)
    decreases fuel, s, 4
  {
    hide Frame, Within, Embeds, Moves, Stands, Emit, LowerStmts, LoopEnv, LowerCondition, LowerHead, Ends,
      ExecBody, ExecTest, IsLoop, IsIteration, ExecList;
    var fs := m.cx.functions;
    var post, cond, body := |g.blocks|, |g.blocks| + 1, |g.blocks| + 2;
    var env1 := LoopEnv(s.kind, env);
    var g0 := LoopBlocks(g);
    var head := LowerHead(fs, s, env, x, cond, body, g0);
    var b := LowerStmts(fs, s.body, Push(env1), Some(Exits(post, head.next)), At(head.g, body)).value;
    var p := LoopParts(head, b, LowerCondition(fs, s.cond, env1, body, post, At(Emit(b, Br(head.next)), cond)).value);
    LoopShape(fs, s, env, x, g, p, m.code);
    var gi := HeadShape(fs, s, env, x, g0, post, head, m.code);
    NewStands(g, c, g0);
    var h := At(p.cond, post);
    var o := Exec(m.cx, s, env, c.st, fuel);
    match s.kind
    case While =>
      var c1 := SimEnter(m, g0, cond, c);
      var n1 := SimTest(m, s, env, x, post, p, gi, c1, fuel);
      EndsAfter(m, c, 1, c1, n1, h, x, o, fuel);
      n := 1 + n1;
    case Do =>
      var c1 := SimEnter(m, g0, body, c);
      var n1 := SimBody(m, s, env, x, post, p, gi, c1, fuel);
      EndsAfter(m, c, 1, c1, n1, h, x, o, fuel);
      n := 1 + n1;
    case For(init, _) =>
      var i := LowerStmts(fs, init, Push(env), x, g0).value;
      var q := ExecList(m.cx, init, Push(env), c.st, fuel);
      var n0 := SimStmts(m, init, Push(env), x, g0, c, fuel);
      if q.Normal? {
        EndsRuns(m, c, n0, i, x, q.st, fuel);
        var c0 := Run(m, c, n0).c;
        var c1 := SimEnter(m, i, cond, c0);
        var n1 := SimTest(m, s, env, x, post, p, gi, c1, fuel);
        EndsAfter(m, c0, 1, c1, n1, h, x, o, fuel);
        EndsAfter(m, c, n0, c0, 1 + n1, h, x, o, fuel);
        n := n0 + (1 + n1);
      } else {
        n := n0;
        EndsElsewhere(m, c, n, i, h, x, o, fuel);
      }
  }

  lemma SimEnter(m: Machine, g: Gen, b: nat, c: Config) returns (d: Config)
    requires Stands(g, c) && Embeds(Emit(g, Br(b)), m.code)
    ensures Run(m, c, 1) == Running(d) && Starts(b, d) && d.st == c.st && d.io == c.io
  {
    StepEmitted(m, g, Br(b), c);
    d := Goto(c, b).c;
    RunOne(m, c, d);
  }
}
