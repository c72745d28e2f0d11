/**
Which attributes a program can write to. An attribute is flagged as written when it stands under a
crement, on the left of an assignment or in the arguments of a call, as functions write behind their
pointers. Every attribute slot that any run of the structured program changes belongs to a flagged
attribute.
*/
module Writes {
  import opened Types
  import opened Ast
  import opened Overloads
  import opened Semantics

  /** The attribute tokens that occur in an expression. */
  function Tokens(e: Expr): set<Key> {
    match e
    case Literal(_, _) => {}
    case Local(_) => {}
    case Attribute(ty, name) => {Token(ty, name)}
    case Component(index, vec) => Tokens(index) + Tokens(vec)
    case MatrixEntry(row, column, m) => Tokens(row) + Tokens(column) + Tokens(m)
    case Unary(_, a) => Tokens(a)
    case Binary(_, l, r) => Tokens(l) + Tokens(r)
    case Logical(_, l, r) => Tokens(l) + Tokens(r)
    case Ternary(c, t, f) => Tokens(c) + (if t.Some? then Tokens(t.value) else {}) + Tokens(f)
    case Comma(es) => TokensOf(es)
    case Assign(l, _, r) => Tokens(l) + Tokens(r)
    case Crement(v, _, _) => Tokens(v)
    case Cast(_, a) => Tokens(a)
    case Call(_, args) => TokensOf(args)
    case ArrayPack(es) => TokensOf(es)
  }

  function TokensOf(es: Exprs): set<Key> {
    match es
    case NoExprs => {}
    case ConsExpr(e, rest) => Tokens(e) + TokensOf(rest)
  }

  /** The tokens flagged as written in an expression. */
  function Written(e: Expr): set<Key> {
    match e
    case Literal(_, _) => {}
    case Local(_) => {}
    case Attribute(_, _) => {}
    case Component(index, vec) => Written(index) + Written(vec)
    case MatrixEntry(row, column, m) => Written(row) + Written(column) + Written(m)
    case Unary(_, a) => Written(a)
    case Binary(_, l, r) => Written(l) + Written(r)
    case Logical(_, l, r) => Written(l) + Written(r)
    case Ternary(c, t, f) => Written(c) + (if t.Some? then Written(t.value) else {}) + Written(f)
    case Comma(es) => WrittenIn(es)
    case Assign(l, _, r) => Tokens(l) + Written(r)
    case Crement(v, _, _) => Tokens(v)
    case Cast(_, a) => Written(a)
    case Call(_, args) => TokensOf(args)
    case ArrayPack(es) => WrittenIn(es)
  }

  function WrittenIn(es: Exprs): set<Key> {
    match es
    case NoExprs => {}
    case ConsExpr(e, rest) => Written(e) + WrittenIn(rest)
  }

  function WrittenBy(s: Stmt): set<Key> {
    match s
    case ExprStmt(e) => Written(e)
    case Declare(_, _, initial) => if initial.Some? then Written(initial.value) else {}
    case Block(body) => WrittenByAll(body)
    case StatementList(ss) => WrittenByAll(ss)
    case If(c, onTrue, onFalse) =>
      Written(c) + WrittenByAll(onTrue) + (if onFalse.Some? then WrittenByAll(onFalse.value) else {})
    case Loop(kind, c, body) =>
      (match kind
       case For(init, iteration) =>
         WrittenByAll(init) + (if iteration.Some? then Written(iteration.value) else {})
       case While => {}
       case Do => {}) + Written(c) + WrittenByAll(body)
    case Jump(_) => {}
  }

  function WrittenByAll(ss: Stmts): set<Key> {
    match ss
    case NoStmts => {}
    case ConsStmt(s, rest) => WrittenBy(s) + WrittenByAll(rest)
  }

  lemma {:induction false} WrittenOccurs(e: Expr)
    ensures Written(e) <= Tokens(e)
  {
    match e
    case Literal(_, _) =>
    case Local(_) =>
    case Attribute(_, _) =>
    case Component(index, vec) => WrittenOccurs(index); WrittenOccurs(vec);
    case MatrixEntry(row, column, m) => WrittenOccurs(row); WrittenOccurs(column); WrittenOccurs(m);
    case Unary(_, a) => WrittenOccurs(a);
    case Binary(_, l, r) => WrittenOccurs(l); WrittenOccurs(r);
    case Logical(_, l, r) => WrittenOccurs(l); WrittenOccurs(r);
    case Ternary(c, t, f) =>
      WrittenOccurs(c);
      WrittenOccurs(f);
      if t.Some? { WrittenOccurs(t.value); }
    case Comma(es) => WrittenInOccurs(es);
    case Assign(l, _, r) => WrittenOccurs(r);
    case Crement(v, _, _) =>
    case Cast(_, a) => WrittenOccurs(a);
    case Call(_, args) =>
    case ArrayPack(es) => WrittenInOccurs(es);
  }

  lemma {:induction false} WrittenInOccurs(es: Exprs)
    ensures WrittenIn(es) <= TokensOf(es)
  {
    match es
    case NoExprs =>
    case ConsExpr(e, rest) =>
      WrittenOccurs(e);
      WrittenInOccurs(rest);
  }

  // ---------------------------------------------------------------------------------------
  // Environments that keep attribute slots apart

  /** The slots below n belong to the attributes, one each, and no local shares one of them. */
  ghost predicate Apart(env: Env, n: nat) {
    && |env.scopes| > 0 && n <= env.slots
    && (forall k | k in env.scopes[0] && k.Token? :: env.scopes[0][k].slot < n)
    && (forall j, k | j in env.scopes[0] && j.Token? && k in env.scopes[0] && k.Token? && j != k ::
          env.scopes[0][j].slot != env.scopes[0][k].slot)
    && (forall i, k | 0 <= i < |env.scopes| && k in env.scopes[i] && k.Name? :: n <= env.scopes[i][k].slot)
  }

  lemma {:induction false} LocalApart(scopes: seq<Scope>, name: string, n: nat)
    requires forall i, k | 0 <= i < |scopes| && k in scopes[i] && k.Name? :: n <= scopes[i][k].slot
    ensures var v := Lookup(scopes, Name(name)); v.Some? ==> n <= v.value.slot
  {
    if |scopes| > 0 {
      var top := |scopes| - 1;
      if Name(name) in scopes[top] {
        assert Name(name).Name? && n <= scopes[top][Name(name)].slot;
      } else {
        LocalApart(scopes[..top], name, n);
      }
    }
  }

  lemma DeclaredApart(env: Env, ty: Ty, name: string, n: nat)
    requires Apart(env, n)
    ensures Apart(Declared(env, ty, name), n)
    ensures SameTokens(env, Declared(env, ty, name))
  {
  }

  /** The attributes are declared as before. */
  ghost predicate SameTokens(a: Env, b: Env) {
    && |a.scopes| > 0 && |b.scopes| > 0
    && forall k: Key | k.Token? :: (k in a.scopes[0] <==> k in b.scopes[0]) &&
                                   (k in a.scopes[0] ==> a.scopes[0][k] == b.scopes[0][k])
  }

  lemma {:induction false} AfterApart(s: Stmt, env: Env, n: nat)
    requires Apart(env, n)
    ensures Apart(After(s, env), n) && SameTokens(env, After(s, env)) && env.slots <= After(s, env).slots
  {
    match s
    case ExprStmt(_) =>
    case Declare(ty, name, _) => DeclaredApart(env, ty, name, n);
    case Block(body) => AfterListApart(body, Push(env), n);
    case StatementList(ss) => AfterListApart(ss, env, n);
    case If(_, onTrue, onFalse) =>
      AfterListApart(onTrue, Push(env), n);
      var env1 := env.(slots := AfterList(onTrue, Push(env)).slots);
      if onFalse.Some? { AfterListApart(onFalse.value, Push(env1), n); }
    case Loop(kind, _, body) =>
      LoopEnvApart(kind, env, n);
      AfterListApart(body, Push(LoopEnv(kind, env)), n);
    case Jump(_) =>
  }

  lemma {:induction false} AfterListApart(ss: Stmts, env: Env, n: nat)
    requires Apart(env, n)
    ensures Apart(AfterList(ss, env), n) && SameTokens(env, AfterList(ss, env)) && env.slots <= AfterList(ss, env).slots
  {
    match ss
    case NoStmts =>
    case ConsStmt(s, rest) =>
      AfterApart(s, env, n);
      AfterListApart(rest, After(s, env), n);
  }

  lemma {:induction false} LoopEnvApart(kind: LoopKind, env: Env, n: nat)
    requires Apart(env, n)
    ensures Apart(LoopEnv(kind, env), n) && SameTokens(env, LoopEnv(kind, env)) && env.slots <= LoopEnv(kind, env).slots
  {
    match kind
    case For(init, _) => AfterListApart(init, Push(env), n);
    case While =>
    case Do =>
  }

  // ---------------------------------------------------------------------------------------
  // Soundness

  /** A slot has the same contents in two memories. */
  ghost predicate SameSlot(a: Memory, b: Memory, slot: nat) {
    forall cell :: Get(a, Address(slot, cell)) == Get(b, Address(slot, cell))
  }

  /** The slot of an attribute, in an environment that declares it. */
  ghost predicate Owns(env: Env, key: Key, slot: nat) {
    key.Token? && |env.scopes| > 0 && key in env.scopes[0] && env.scopes[0][key].slot == slot
  }

  /** What evaluation does to the slot of one attribute: it is unchanged unless the attribute is flagged,
      and a pointer to it comes only from an expression in which the attribute occurs. */
  ghost predicate Sound(env: Env, key: Key, slot: nat, written: set<Key>, tokens: set<Key>, st: State, r: Result) {
    && (key !in written ==> SameSlot(st.mem, r.st.mem, slot))
    && (key !in tokens && r.v.Ptr? ==> r.v.a.slot != slot)
  }

  lemma {:induction false} EvalSound(cx: Context, e: Expr, env: Env, st: State, n: nat, key: Key, slot: nat)
    requires Apart(env, n) && Owns(env, key, slot)
    ensures Sound(env, key, slot, Written(e), Tokens(e), st, Eval(cx, e, env, st))
    decreases e, 1
  {
    hide Apart, SameSlot, Check, BinaryResult, AssignTo, CastValue, UnaryEach, CallEffect, ConvertEach, CastCells,
      TypeOfTernary, TyOf, Truth;
    SameAlways(slot);
    WrittenOccurs(e);
    BinaryIsNew();
    match e
    case Literal(_, _) =>
    case Local(name) => LocalSound(cx, name, env, st, n, key, slot);
    case Attribute(ty, name) => AttributeSound(cx, ty, name, env, st, n, key, slot);
    case Component(index, vec) =>
      EvalSound(cx, index, env, st, n, key, slot);
      var i := Eval(cx, index, env, st);
      EvalSound(cx, vec, env, i.st, n, key, slot);
    case MatrixEntry(_, _, _) => EntrySound(cx, e, env, st, n, key, slot);
    case Unary(_, a) => EvalSound(cx, a, env, st, n, key, slot);
    case Binary(_, l, r) =>
      EvalSound(cx, l, env, st, n, key, slot);
      EvalSound(cx, r, env, Eval(cx, l, env, st).st, n, key, slot);
    case Logical(_, l, r) =>
      EvalSound(cx, l, env, st, n, key, slot);
      EvalSound(cx, r, env, Eval(cx, l, env, st).st, n, key, slot);
    case Ternary(c, t, f) =>
      EvalSound(cx, c, env, st, n, key, slot);
      EvalSound(cx, f, env, Eval(cx, c, env, st).st, n, key, slot);
      if t.Some? { EvalSound(cx, t.value, env, Eval(cx, c, env, st).st, n, key, slot); }
    case Comma(es) => CommaSound(cx, es, env, st, n, key, slot);
    case Assign(_, _, _) => AssignSound(cx, e, env, st, n, key, slot);
    case Crement(v, _, _) =>
      EvalSound(cx, v, env, st, n, key, slot);
      WrittenOccurs(v);
      WriteElsewhere(slot);
    case Cast(_, a) => EvalSound(cx, a, env, st, n, key, slot);
    case Call(_, _) => CallSound(cx, e, env, st, n, key, slot);
    case ArrayPack(es) =>
      ArgsSound(cx, es, env, st, n, key, slot);
      if es.ConsExpr? { EvalSound(cx, es.head, env, st, n, key, slot); }
  }

  lemma {:induction false} EntrySound(cx: Context, e: Expr, env: Env, st: State, n: nat, key: Key, slot: nat)
    requires e.MatrixEntry? && Apart(env, n) && Owns(env, key, slot)
    ensures Sound(env, key, slot, Written(e), Tokens(e), st, Eval(cx, e, env, st))
    decreases e, 0
  {
    hide Apart, SameSlot, Check;
    SameAlways(slot);
    EvalSound(cx, e.row, env, st, n, key, slot);
    var i := Eval(cx, e.row, env, st);
    EvalSound(cx, e.column, env, i.st, n, key, slot);
    EvalSound(cx, e.matrix, env, Eval(cx, e.column, env, i.st).st, n, key, slot);
  }

  lemma SameAlways(slot: nat)
    ensures forall a: Memory :: SameSlot(a, a, slot)
    ensures forall a: Memory, b: Memory, c: Memory :: SameSlot(a, b, slot) && SameSlot(b, c, slot) ==>
      SameSlot(a, c, slot)
  {
    forall a: Memory, b: Memory, c: Memory | SameSlot(a, b, slot) && SameSlot(b, c, slot) ensures SameSlot(a, c, slot) {
      forall cell ensures Get(a, Address(slot, cell)) == Get(c, Address(slot, cell)) {
        assert Get(b, Address(slot, cell)) == Get(c, Address(slot, cell));
      }
    }
  }

  lemma WriteElsewhere(slot: nat)
    ensures forall st: State, v: Value, k: int :: !(v.Ptr? && v.a.slot == slot) ==>
      SameSlot(st.mem, Write(st, v, k).mem, slot)
  {
  }

  /** The result of a binary operator is not the address of a variable. */
  lemma BinaryIsNew()
    ensures forall ops, op, lt, a, rt, b, st :: !BinaryResult(ops, op, lt, a, rt, b, st).Ptr?
  {
    hide Zip, Reduce, BinaryValue, CastArray, PromotedValue, Promotion;
  }

  lemma {:induction false} CellsElsewhere(ops: Ops, mem: Memory, target: nat, elem: Ty, source: Value, from: Ty,
      size: nat, slot: nat)
    requires target != slot
    ensures SameSlot(mem, AssignCells(ops, mem, target, elem, source, from, size), slot)
  {
    if size > 0 { CellsElsewhere(ops, mem, target, elem, source, from, size - 1, slot); }
  }

  lemma AssignElsewhere(ops: Ops, st: State, target: Value, ty: Ty, source: Value, from: Ty, slot: nat)
    requires !(target.Ptr? && target.a.slot == slot)
    ensures SameSlot(st.mem, AssignTo(ops, st, target, ty, source, from).mem, slot)
  {
    hide SameSlot, AssignCells, AssignedValue, PromotedValue;
    WriteElsewhere(slot);
    SameAlways(slot);
    if ty.IsArray() && target.Ptr? {
      var from1 := Promotion(from, ty);
      CellsElsewhere(ops, st.mem, target.a.slot, ty.elem, PromotedValue(ops, from, from1, source), ElementOf(from1),
                     ty.size, slot);
    }
  }

  predicate PointsTo(v: Value, slot: nat) {
    v.Ptr? && v.a.slot == slot
  }

  predicate NonePointsTo(vs: seq<Value>, slot: nat) {
    forall i | 0 <= i < |vs| :: !PointsTo(vs[i], slot)
  }

  /** A function writes to no slot that it is not given a pointer to. */
  lemma {:induction false} PutElsewhere(params: seq<Parameter>, vs: seq<Value>, cells: (nat, nat) -> int, mem: Memory,
      n: nat, slot: nat)
    requires n <= |vs| == |params|
    requires NonePointsTo(vs, slot)
    ensures SameSlot(mem, PutBehind(params, vs, cells, mem, n), slot)
  {
    if n > 0 { PutElsewhere(params, vs, cells, mem, n - 1, slot); }
  }

  lemma LocalSound(cx: Context, name: string, env: Env, st: State, n: nat, key: Key, slot: nat)
    requires Apart(env, n) && Owns(env, key, slot)
    ensures Sound(env, key, slot, {}, {}, st, Eval(cx, Local(name), env, st))
  {
    LocalApart(env.scopes, name, n);
  }

  lemma AttributeSound(cx: Context, ty: Ty, name: string, env: Env, st: State, n: nat, key: Key, slot: nat)
    requires Apart(env, n) && Owns(env, key, slot)
    ensures Sound(env, key, slot, {}, {Token(ty, name)}, st, Eval(cx, Attribute(ty, name), env, st))
  {
  }

  lemma {:induction false} AssignSound(cx: Context, e: Expr, env: Env, st: State, n: nat, key: Key, slot: nat)
    requires e.Assign? && Apart(env, n) && Owns(env, key, slot)
    ensures Sound(env, key, slot, Written(e), Tokens(e), st, Eval(cx, e, env, st))
    decreases e, 0
  {
    hide Apart, SameSlot, Check, BinaryResult, AssignTo, CompoundType, Rvalue;
    SameAlways(slot);
    EvalSound(cx, e.target, env, st, n, key, slot);
    var a := Eval(cx, e.target, env, st);
    EvalSound(cx, e.source, env, a.st, n, key, slot);
    WrittenOccurs(e.target);
    if !(a.v.Ptr? && a.v.a.slot == slot) {
      var b := Eval(cx, e.source, env, a.st);
      var lt, rt := TyOf(cx.functions, e.target, env), TyOf(cx.functions, e.source, env);
      var v := if e.compound.None? then Rvalue(b.st, b.v, rt)
               else BinaryResult(cx.ops, e.compound.value, lt, a.v, rt, b.v, b.st);
      AssignElsewhere(cx.ops, b.st, a.v, lt, v, if e.compound.None? then rt else CompoundType(e.compound.value, lt, rt),
                      slot);
    }
  }

  lemma {:induction false} CallSound(cx: Context, e: Expr, env: Env, st: State, n: nat, key: Key, slot: nat)
    requires e.Call? && Apart(env, n) && Owns(env, key, slot)
    ensures Sound(env, key, slot, Written(e), Tokens(e), st, Eval(cx, e, env, st))
    decreases e, 0
  {
    hide Apart, SameSlot, Check, CheckArgs, Resolve, CastArgs, Rvalues, PutBehind, Behind;
    SameAlways(slot);
    ArgsSound(cx, e.args, env, st, n, key, slot);
    WrittenInOccurs(e.args);
    if key !in TokensOf(e.args) && Check(cx.functions, e, env).Typed? {
      var a := EvalArgs(cx, e.args, env, st);
      var ts := CalledTypes(cx, e, env);
      var r := Resolve(cx.functions[e.callee], ts);
      var vs := CastArgs(cx.ops, r.kind == Implicit, r.target.value.params, ts, Rvalues(a.st, a.vs, ts), a.st.mem);
      PassedElsewhere(cx.ops, r.kind == Implicit, r.target.value.params, ts, a.st, a.vs, slot);
      var called := cx.ops.call(r.target.value, vs, Behind(r.target.value.params, vs, a.st.mem), a.st.ext);
      PutElsewhere(r.target.value.params, vs, called.cells, a.st.mem, |vs|, slot);
    }
  }

  /** The argument types of a call that is well typed. */
  function CalledTypes(cx: Context, e: Expr, env: Env): (ts: seq<ArgTy>)
    requires e.Call? && Check(cx.functions, e, env).Typed?
    ensures CheckArgs(cx.functions, e.args, env) == Some(ts) && e.callee in cx.functions
    ensures var r := Resolve(cx.functions[e.callee], ts);
            r.target.Some? && |r.target.value.params| == |ts| == Length(e.args)
  {
    CheckArgsShape(cx.functions, e.args, env);
    ResolveFits(cx.functions[e.callee], CheckArgs(cx.functions, e.args, env).value);
    CheckArgs(cx.functions, e.args, env).value
  }

  /** Loading and casting arguments makes no new pointers. */
  lemma {:induction false} PassedElsewhere(ops: Ops, implicit: bool, params: seq<Parameter>, ts: seq<ArgTy>, st: State,
      vs: seq<Value>, slot: nat)
    requires |params| == |ts| == |vs|
    requires NonePointsTo(vs, slot)
    ensures NonePointsTo(CastArgs(ops, implicit, params, ts, Rvalues(st, vs, ts), st.mem), slot)
  {
    var xs := Rvalues(st, vs, ts);
    CastPoints(ops, implicit, params, ts, xs, st.mem, slot);
  }

  lemma {:induction false} CastPoints(ops: Ops, implicit: bool, params: seq<Parameter>, ts: seq<ArgTy>, xs: seq<Value>,
      mem: Memory, slot: nat)
    requires |params| == |ts| == |xs|
    requires NonePointsTo(xs, slot)
    ensures NonePointsTo(CastArgs(ops, implicit, params, ts, xs, mem), slot)
    decreases |xs|
  {
    if |xs| > 0 {
      assert !PointsTo(xs[0], slot);
      assert forall i | 0 <= i < |xs[1..]| :: xs[1..][i] == xs[i + 1];
      CastPoints(ops, implicit, params[1..], ts[1..], xs[1..], mem, slot);
    }
  }

  lemma {:induction false} CommaSound(cx: Context, es: Exprs, env: Env, st: State, n: nat, key: Key, slot: nat)
    requires Apart(env, n) && Owns(env, key, slot)
    ensures Sound(env, key, slot, WrittenIn(es), TokensOf(es), st, EvalComma(cx, es, env, st))
    decreases es, 1
  {
    hide Apart, SameSlot, Eval;
    SameAlways(slot);
    match es
    case NoExprs =>
    case ConsExpr(e, rest) =>
      EvalSound(cx, e, env, st, n, key, slot);
      CommaSound(cx, rest, env, Eval(cx, e, env, st).st, n, key, slot);
  }

  lemma {:induction false} ArgsSound(cx: Context, es: Exprs, env: Env, st: State, n: nat, key: Key, slot: nat)
    requires Apart(env, n) && Owns(env, key, slot)
    ensures var r := EvalArgs(cx, es, env, st);
            && (key !in WrittenIn(es) ==> SameSlot(st.mem, r.st.mem, slot))
            && (key !in TokensOf(es) ==> NonePointsTo(r.vs, slot))
    decreases es, 1
  {
    hide Apart, SameSlot, Eval;
    SameAlways(slot);
    match es
    case NoExprs =>
    case ConsExpr(e, rest) =>
      EvalSound(cx, e, env, st, n, key, slot);
      ArgsSound(cx, rest, env, Eval(cx, e, env, st).st, n, key, slot);
  }

  ghost predicate OutcomeKeeps(st: State, o: Outcome, slot: nat) {
    !o.Timeout? ==> SameSlot(st.mem, o.st.mem, slot)
  }

  lemma {:induction false} ExecSound(cx: Context, s: Stmt, env: Env, st: State, fuel: nat, n: nat, key: Key, slot: nat)
    requires Apart(env, n) && Owns(env, key, slot) && key !in WrittenBy(s)
    ensures OutcomeKeeps(st, Exec(cx, s, env, st, fuel), slot)
    decreases fuel, s, 3
  {
    hide Apart, SameSlot, Eval, IsTrue, AfterList, LoopEnv;
    SameAlways(slot);
    PushApart(env, n, key, slot);
    match s
    case ExprStmt(e) => EvalSound(cx, e, env, st, n, key, slot);
    case Declare(_, _, _) => DeclareSound(cx, s, env, st, fuel, n, key, slot);
    case Block(body) => ListSound(cx, body, Push(env), st, fuel, n, key, slot);
    case StatementList(ss) => ListSound(cx, ss, env, st, fuel, n, key, slot);
    case If(c, onTrue, onFalse) =>
      EvalSound(cx, c, env, st, n, key, slot);
      var r := Eval(cx, c, env, st);
      ListSound(cx, onTrue, Push(env), r.st, fuel, n, key, slot);
      if onFalse.Some? {
        AfterListApart(onTrue, Push(env), n);
        var env1 := env.(slots := AfterList(onTrue, Push(env)).slots);
        MoreSlots(env, env1, n, key, slot);
        ListSound(cx, onFalse.value, Push(env1), r.st, fuel, n, key, slot);
      }
    case Loop(kind, _, _) =>
      match kind {
        case For(init, _) =>
          ListSound(cx, init, Push(env), st, fuel, n, key, slot);
          var o := ExecList(cx, init, Push(env), st, fuel);
          if o.Normal? { TestSound(cx, s, env, o.st, fuel, n, key, slot); }
        case While => TestSound(cx, s, env, st, fuel, n, key, slot);
        case Do => BodySound(cx, s, env, st, fuel, n, key, slot);
      }
    case Jump(_) =>
  }

  lemma PushApart(env: Env, n: nat, key: Key, slot: nat)
    requires Apart(env, n) && Owns(env, key, slot)
    ensures Apart(Push(env), n) && Owns(Push(env), key, slot)
  {
  }

  lemma MoreSlots(env: Env, env1: Env, n: nat, key: Key, slot: nat)
    requires Apart(env, n) && Owns(env, key, slot) && env1.scopes == env.scopes && env.slots <= env1.slots
    ensures Apart(Push(env1), n) && Owns(Push(env1), key, slot)
  {
  }

  lemma {:induction false} DeclareSound(cx: Context, s: Stmt, env: Env, st: State, fuel: nat, n: nat, key: Key,
      slot: nat)
    requires s.Declare? && Apart(env, n) && Owns(env, key, slot) && key !in WrittenBy(s)
    ensures OutcomeKeeps(st, Exec(cx, s, env, st, fuel), slot)
  {
    hide SameSlot, Eval, Check, AssignTo, Rvalue;
    SameAlways(slot);
    if s.initial.Some? {
      var env1 := Declared(env, s.ty, s.name);
      DeclaredApart(env, s.ty, s.name, n);
      EvalSound(cx, s.initial.value, env1, st, n, key, slot);
      var r := Eval(cx, s.initial.value, env1, st);
      var from := TyOf(cx.functions, s.initial.value, env1);
      AssignElsewhere(cx.ops, r.st, Ptr(Address(env.slots, 0)), s.ty, Rvalue(r.st, r.v, from), from, slot);
    }
  }

  lemma {:induction false} ListSound(cx: Context, ss: Stmts, env: Env, st: State, fuel: nat, n: nat, key: Key,
      slot: nat)
    requires Apart(env, n) && Owns(env, key, slot) && key !in WrittenByAll(ss)
    ensures OutcomeKeeps(st, ExecList(cx, ss, env, st, fuel), slot)
    decreases fuel, ss, 0
  {
    hide Apart, SameSlot, Exec, After;
    SameAlways(slot);
    match ss
    case NoStmts =>
    case ConsStmt(s, rest) =>
      ExecSound(cx, s, env, st, fuel, n, key, slot);
      AfterApart(s, env, n);
      var o := Exec(cx, s, env, st, fuel);
      if o.Normal? { ListSound(cx, rest, After(s, env), o.st, fuel, n, key, slot); }
  }

  lemma {:induction false} TestSound(cx: Context, l: Stmt, env: Env, st: State, fuel: nat, n: nat, key: Key, slot: nat)
    requires l.Loop? && Apart(env, n) && Owns(env, key, slot) && key !in WrittenBy(l)
    ensures OutcomeKeeps(st, ExecTest(cx, l, env, st, fuel), slot)
    decreases fuel, l, 1
  {
    hide Apart, SameSlot, Eval, IsTrue, LoopEnv, ExecBody;
    SameAlways(slot);
    if fuel > 0 {
      LoopEnvApart(l.kind, env, n);
      EvalSound(cx, l.cond, LoopEnv(l.kind, env), st, n, key, slot);
      BodySound(cx, l, env, Eval(cx, l.cond, LoopEnv(l.kind, env), st).st, fuel - 1, n, key, slot);
    }
  }

  lemma {:induction false} BodySound(cx: Context, l: Stmt, env: Env, st: State, fuel: nat, n: nat, key: Key, slot: nat)
    requires l.Loop? && Apart(env, n) && Owns(env, key, slot) && key !in WrittenBy(l)
    ensures OutcomeKeeps(st, ExecBody(cx, l, env, st, fuel), slot)
    decreases fuel, l, 2
  {
    hide Apart, SameSlot, Eval, LoopEnv, ExecList, ExecTest;
    SameAlways(slot);
    var env1 := LoopEnv(l.kind, env);
    LoopEnvApart(l.kind, env, n);
    PushApart(env1, n, key, slot);
    ListSound(cx, l.body, Push(env1), st, fuel, n, key, slot);
    var o := ExecList(cx, l.body, Push(env1), st, fuel);
    if o.Normal? || o.Continued? {
      var iterates := l.kind.For? && l.kind.iteration.Some?;
      if iterates { EvalSound(cx, l.kind.iteration.value, env1, o.st, n, key, slot); }
      var st1 := if iterates then Eval(cx, l.kind.iteration.value, env1, o.st).st else o.st;
      TestSound(cx, l, env, st1, fuel, n, key, slot);
    }
  }

  /** In every run that ends, a slot whose contents change belongs to an attribute flagged as written. */
  lemma WriteClassificationSound(cx: Context, root: Stmts, env: Env, st: State, fuel: nat, n: nat, key: Key, slot: nat)
    requires Apart(env, n) && Owns(env, key, slot)
    ensures var o := Exec(cx, Block(root), env, st, fuel);
            !o.Timeout? && !SameSlot(st.mem, o.st.mem, slot) ==> key in WrittenByAll(root)
  {
    hide Apart, SameSlot, Exec;
    if key !in WrittenByAll(root) {
      ExecSound(cx, Block(root), env, st, fuel, n, key, slot);
    }
  }
}
