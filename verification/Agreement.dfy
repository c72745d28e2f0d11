/**
Two runs of the same code: an expression whose variables agree does the same in both, and code leaves
alone the variables it does not assign to. This is for code without jumps, whose assignments go to plain
variables and whose loops test conditions without effects.
*/
module Agreement {
  import opened Types
  import opened Ast
  import opened Overloads
  import opened Semantics
  import opened Writes
  import opened Occurrences
  import opened Catalogue
  import opened TreeFlags
  import opened Dependencies
  import opened AttributeRegistries

  // ---------------------------------------------------------------------------------------
  // The programs the claim is about

  predicate EffectFree(e: Expr) {
    match e
    case Literal(_, _) => true
    case Local(_) => true
    case Attribute(_, _) => true
    case Component(index, vec) => EffectFree(index) && EffectFree(vec)
    case MatrixEntry(row, column, m) => EffectFree(row) && EffectFree(column) && EffectFree(m)
    case Unary(_, a) => EffectFree(a)
    case Binary(_, l, r) => EffectFree(l) && EffectFree(r)
    case Logical(_, l, r) => EffectFree(l) && EffectFree(r)
    case Ternary(c, t, f) => EffectFree(c) && (t.Some? ==> EffectFree(t.value)) && EffectFree(f)
    case Comma(es) => AllEffectFree(es)
    case Assign(_, _, _) => false
    case Crement(_, _, _) => false
    case Cast(_, a) => EffectFree(a)
    case Call(_, args) => AllEffectFree(args)
    case ArrayPack(es) => AllEffectFree(es)
  }

  predicate AllEffectFree(es: Exprs) {
    match es
    case NoExprs => true
    case ConsExpr(e, rest) => EffectFree(e) && AllEffectFree(rest)
  }

  predicate IsPlain(e: Expr) {
    e.Local? || e.Attribute?
  }

  /** Assignments and crements of plain variables only, and right operands of `&&` and `||` without effects. */
  predicate Simple(e: Expr) {
    match e
    case Literal(_, _) => true
    case Local(_) => true
    case Attribute(_, _) => true
    case Component(_, _) => false
    case MatrixEntry(_, _, _) => false
    case Unary(_, a) => Simple(a)
    case Binary(_, l, r) => Simple(l) && Simple(r)
    case Logical(_, l, r) => Simple(l) && Simple(r) && EffectFree(r)
    case Ternary(c, t, f) => Simple(c) && (t.Some? ==> Simple(t.value)) && Simple(f)
    case Comma(es) => AllSimple(es)
    case Assign(l, _, r) => IsPlain(l) && Simple(r)
    case Crement(v, _, _) => IsPlain(v)
    case Cast(_, a) => Simple(a)
    case Call(_, args) => AllSimple(args)
    case ArrayPack(es) => AllSimple(es)
  }

  predicate AllSimple(es: Exprs) {
    match es
    case NoExprs => true
    case ConsExpr(e, rest) => Simple(e) && AllSimple(rest)
  }

  /** No jumps, and loop conditions without effects. */
  predicate SimpleStmt(s: Stmt) {
    match s
    case ExprStmt(e) => Simple(e)
    case Declare(_, _, initial) => initial.Some? ==> Simple(initial.value)
    case Block(body) => SimpleStmts(body)
    case StatementList(ss) => SimpleStmts(ss)
    case If(c, onTrue, onFalse) => Simple(c) && SimpleStmts(onTrue) && (onFalse.Some? ==> SimpleStmts(onFalse.value))
    case Loop(kind, c, body) =>
      Simple(c) && EffectFree(c) && SimpleHead(kind) && SimpleStmts(body)
    case Jump(_) => false
  }

  predicate SimpleHead(kind: LoopKind) {
    match kind
    case For(init, iteration) => SimpleStmts(init) && (iteration.Some? ==> Simple(iteration.value))
    case While => true
    case Do => true
  }

  predicate SimpleStmts(ss: Stmts) {
    match ss
    case NoStmts => true
    case ConsStmt(s, rest) => SimpleStmt(s) && SimpleStmts(rest)
  }

  predicate LoopFree(s: Stmt) {
    match s
    case ExprStmt(_) => true
    case Declare(_, _, _) => true
    case Block(body) => AllLoopFree(body)
    case StatementList(ss) => AllLoopFree(ss)
    case If(_, onTrue, onFalse) => AllLoopFree(onTrue) && (onFalse.Some? ==> AllLoopFree(onFalse.value))
    case Loop(_, _, _) => false
    case Jump(_) => true
  }

  predicate AllLoopFree(ss: Stmts) {
    match ss
    case NoStmts => true
    case ConsStmt(s, rest) => LoopFree(s) && AllLoopFree(rest)
  }

  /** The result of a call depends on its arguments only, and it leaves what they point to as it is. */
  ghost predicate PureCalls(ops: Ops) {
    && (forall sig, vs, cs, a, b :: ops.call(sig, vs, cs, a).result == ops.call(sig, vs, cs, b).result)
    && (forall sig, vs, cs, a :: LeavesCells(ops.call(sig, vs, cs, a), cs))
  }

  ghost predicate LeavesCells(r: Called, cs: seq<seq<int>>) {
    forall i, cell | 0 <= i < |cs| && 0 <= cell < |cs[i]| :: r.cells(i, cell) == cs[i][cell]
  }

  // ---------------------------------------------------------------------------------------
  // Agreement of two runs

  /** The variable each slot was allocated for. */
  type SlotNames = seq<VarName>

  /** Two memories agree on the variables in a set, and on slots not allocated yet. */
  ghost predicate Agree(ns: SlotNames, s: set<VarName>, a: Memory, b: Memory) {
    forall slot: nat, cell: int | slot >= |ns| || ns[slot] in s ::
      Get(a, Address(slot, cell)) == Get(b, Address(slot, cell))
  }

  /** The symbol tables lead to slots of the right names. */
  ghost predicate Named(env: Env, ns: SlotNames) {
    forall i | 0 <= i < |env.scopes| :: ScopeNamed(env.scopes[i], ns)
  }

  ghost predicate ScopeNamed(scope: Scope, ns: SlotNames) {
    forall k | k in scope :: scope[k].slot < |ns| && ns[scope[k].slot] == NameOf(k)
  }

  function NameOf(k: Key): VarName {
    if k.Token? then Attr(k) else Loc(k.id)
  }

  lemma {:induction false} LookupNamed(scopes: seq<Scope>, k: Key, ns: SlotNames)
    requires forall i | 0 <= i < |scopes| :: ScopeNamed(scopes[i], ns)
    ensures var v := Lookup(scopes, k); v.Some? ==> v.value.slot < |ns| && ns[v.value.slot] == NameOf(k)
  {
    if |scopes| > 0 {
      var top := |scopes| - 1;
      if k in scopes[top] {
        assert ScopeNamed(scopes[top], ns);
      } else {
        LookupNamed(scopes[..top], k, ns);
      }
    }
  }

  /** The names of the variables of an expression. */
  function Names(e: Expr): set<VarName> {
    set v | v in Variables(NodeOf(e))
  }

  function NamesOfAll(es: Exprs): set<VarName> {
    set v | v in VariablesOf(NodesOf(es))
  }

  /** A value that can be read alike in both runs. */
  ghost predicate Readable(v: Value, ns: SlotNames, s: set<VarName>) {
    v.Ptr? ==> v.a.slot < |ns| && ns[v.a.slot] in s
  }

  lemma ReadAlike(ns: SlotNames, s: set<VarName>, a: State, b: State, v: Value)
    requires Agree(ns, s, a.mem, b.mem) && Readable(v, ns, s)
    ensures Read(a, v) == Read(b, v)
  {
  }

  lemma WriteAlike(ns: SlotNames, s: set<VarName>, a: State, b: State, v: Value, n: int)
    requires Agree(ns, s, a.mem, b.mem)
    ensures Agree(ns, s, Write(a, v, n).mem, Write(b, v, n).mem)
  {
  }

  lemma ElementAlike(ns: SlotNames, s: set<VarName>, a: Memory, b: Memory, v: Value, i: nat)
    requires Agree(ns, s, a, b) && Readable(v, ns, s)
    ensures ElementAt(a, v, i) == ElementAt(b, v, i)
  {
  }

  lemma RvalueAlike(ns: SlotNames, s: set<VarName>, a: State, b: State, v: Value, ty: Ty)
    requires Agree(ns, s, a.mem, b.mem) && Readable(v, ns, s)
    ensures Rvalue(a, v, ty) == Rvalue(b, v, ty) && Readable(Rvalue(a, v, ty), ns, s)
  {
  }

  lemma {:induction false} ZipAlike(ops: Ops, op: BinOp, t: Ty, lt: Ty, x: Value, rt: Ty, y: Value, ns: SlotNames,
      s: set<VarName>, a: Memory, b: Memory, size: nat)
    requires Agree(ns, s, a, b) && Readable(x, ns, s) && Readable(y, ns, s)
    ensures Zip(ops, op, t, lt, x, rt, y, a, size) == Zip(ops, op, t, lt, x, rt, y, b, size)
  {
    hide Agree, Readable, ElementAt;
    if size > 0 {
      ZipAlike(ops, op, t, lt, x, rt, y, ns, s, a, b, size - 1);
      ElementAlike(ns, s, a, b, x, size - 1);
      ElementAlike(ns, s, a, b, y, size - 1);
    }
  }

  lemma {:induction false} EachAlike(ops: Ops, op: UnOp, ty: Ty, x: Value, ns: SlotNames, s: set<VarName>, a: Memory,
      b: Memory, size: nat)
    requires Agree(ns, s, a, b) && Readable(x, ns, s)
    ensures UnaryEach(ops, op, ty, x, a, size) == UnaryEach(ops, op, ty, x, b, size)
  {
    hide Agree, Readable, ElementAt;
    if size > 0 {
      EachAlike(ops, op, ty, x, ns, s, a, b, size - 1);
      ElementAlike(ns, s, a, b, x, size - 1);
    }
  }

  lemma {:induction false} CastAlike(ops: Ops, from: Ty, to: Ty, x: Value, ns: SlotNames, s: set<VarName>, a: Memory,
      b: Memory, size: nat)
    requires Agree(ns, s, a, b) && Readable(x, ns, s)
    ensures CastCells(ops, from, to, a, x, size) == CastCells(ops, from, to, b, x, size)
  {
    hide Agree, Readable, ElementAt;
    if size > 0 {
      CastAlike(ops, from, to, x, ns, s, a, b, size - 1);
      ElementAlike(ns, s, a, b, x, size - 1);
    }
  }

  /** The value of a branch of a ternary, converted to the type of both. */
  lemma CoerceAlike(ops: Ops, x: Result, y: Result, from: Static, to: Static, ns: SlotNames, s: set<VarName>)
    requires Agree(ns, s, x.st.mem, y.st.mem) && Readable(x.v, ns, s) && x.v == y.v
    ensures Coerce(ops, x, from, to) == Coerce(ops, y, from, to) && Readable(Coerce(ops, x, from, to), ns, s)
  {
    hide Agree, CastCells;
    ReadAlike(ns, s, x.st, y.st, x.v);
    if from.Typed? && from.ty.IsArray() && to.Typed? {
      CastAlike(ops, from.ty.elem, ElementOf(to.ty), x.v, ns, s, x.st.mem, y.st.mem, from.ty.size);
    }
  }

  lemma BinaryAlike(ops: Ops, op: BinOp, lt: Ty, x: Value, rt: Ty, y: Value, ns: SlotNames, s: set<VarName>, a: State,
      b: State)
    requires Agree(ns, s, a.mem, b.mem) && Readable(x, ns, s) && Readable(y, ns, s)
    ensures BinaryResult(ops, op, lt, x, rt, y, a) == BinaryResult(ops, op, lt, x, rt, y, b)
    ensures !BinaryResult(ops, op, lt, x, rt, y, a).Ptr?
  {
    hide Agree, Readable, OperatorResult, PromotedValue, Promotion, Rvalue;
    var lt1, rt1 := Promotion(lt, rt), Promotion(rt, lt);
    RvalueAlike(ns, s, a, b, x, lt);
    RvalueAlike(ns, s, a, b, y, rt);
    PromotedReadable(ops, lt, lt1, Rvalue(a, x, lt), ns, s);
    PromotedReadable(ops, rt, rt1, Rvalue(a, y, rt), ns, s);
    OperatorAlike(ops, op, lt1, PromotedValue(ops, lt, lt1, Rvalue(a, x, lt)), rt1,
                  PromotedValue(ops, rt, rt1, Rvalue(a, y, rt)), ns, s, a.mem, b.mem);
  }

  lemma PromotedReadable(ops: Ops, from: Ty, to: Ty, v: Value, ns: SlotNames, s: set<VarName>)
    requires Readable(v, ns, s)
    ensures Readable(PromotedValue(ops, from, to, v), ns, s)
  {
  }

  lemma OperatorAlike(ops: Ops, op: BinOp, lt: Ty, x: Value, rt: Ty, y: Value, ns: SlotNames, s: set<VarName>,
                      a: Memory, b: Memory)
    requires Agree(ns, s, a, b) && Readable(x, ns, s) && Readable(y, ns, s)
    ensures OperatorResult(ops, op, lt, x, rt, y, a) == OperatorResult(ops, op, lt, x, rt, y, b)
    ensures !OperatorResult(ops, op, lt, x, rt, y, a).Ptr?
  {
    hide Agree, Readable, Zip, Reduce, BinaryValue, ProductResult, OperandType, IsElementwise, IsProduct, ZipSize,
      BinOp.IsRelational, ElementOf;
    OperatorKinds(op, lt, rt);
    if IsProduct(op, lt, rt) {
      ProductAlike(ops, lt, x, rt, y, ns, s, a, b);
    } else if IsElementwise(op, lt, rt) {
      ZipAlike(ops, op, OperandType(op, lt, rt).value, ElementOf(lt), x, ElementOf(rt), y, ns, s, a, b,
               ZipSize(lt, rt));
    }
  }

  lemma OperatorKinds(op: BinOp, lt: Ty, rt: Ty)
    ensures IsProduct(op, lt, rt) ==> lt.Vec? && rt.Vec?
    ensures IsElementwise(op, lt, rt) ==> OperandType(op, lt, rt).Some?
  {
    hide TypePrecedence, ZipSize, BinOp.IsArithmetic;
  }

  lemma ProductAlike(ops: Ops, lt: Ty, x: Value, rt: Ty, y: Value, ns: SlotNames, s: set<VarName>, a: Memory, b: Memory)
    requires lt.Vec? && rt.Vec? && Agree(ns, s, a, b) && Readable(x, ns, s) && Readable(y, ns, s)
    ensures ProductResult(ops, lt, x, rt, y, a) == ProductResult(ops, lt, x, rt, y, b)
    ensures !ProductResult(ops, lt, x, rt, y, a).Ptr?
  {
    hide Agree, Readable, CastArray, Contents, ProductElem, ProductSize;
    var t := ProductElem(lt, rt);
    CastArrayAlike(ops, lt.elem, t, x, ns, s, a, b, lt.size);
    CastArrayAlike(ops, rt.elem, t, y, ns, s, a, b, rt.size);
    ContentsAlike(CastArray(ops, lt.elem, t, x, a, lt.size), ns, s, a, b, lt.size);
    ContentsAlike(CastArray(ops, rt.elem, t, y, a, rt.size), ns, s, a, b, rt.size);
  }

  lemma CastArrayAlike(ops: Ops, from: Ty, to: Ty, v: Value, ns: SlotNames, s: set<VarName>, a: Memory, b: Memory,
                       size: nat)
    requires Agree(ns, s, a, b) && Readable(v, ns, s)
    ensures CastArray(ops, from, to, v, a, size) == CastArray(ops, from, to, v, b, size)
    ensures Readable(CastArray(ops, from, to, v, a, size), ns, s)
  {
    hide Agree, CastCells;
    CastAlike(ops, from, to, v, ns, s, a, b, size);
  }

  lemma ContentsAlike(v: Value, ns: SlotNames, s: set<VarName>, a: Memory, b: Memory, size: nat)
    requires Agree(ns, s, a, b) && Readable(v, ns, s)
    ensures Contents(a, v, size) == Contents(b, v, size)
  {
    hide Agree, Readable, ElementAt;
    forall i: nat | i < size ensures ElementAt(a, v, i) == ElementAt(b, v, i) {
      ElementAlike(ns, s, a, b, v, i);
    }
  }

  lemma {:induction false} CellsAlike(ops: Ops, ns: SlotNames, s: set<VarName>, a: Memory, b: Memory, slot: nat,
      elem: Ty, v: Value, from: Ty, size: nat)
    requires Agree(ns, s, a, b) && Readable(v, ns, s)
    ensures Agree(ns, s, AssignCells(ops, a, slot, elem, v, from, size), AssignCells(ops, b, slot, elem, v, from, size))
  {
    if size > 0 {
      CellsAlike(ops, ns, s, a, b, slot, elem, v, from, size - 1);
      ElementAlike(ns, s, AssignCells(ops, a, slot, elem, v, from, size - 1),
                   AssignCells(ops, b, slot, elem, v, from, size - 1), v, size - 1);
    }
  }

  /** The same assignment in both runs. */
  lemma AssignToAlike(ops: Ops, ns: SlotNames, s: set<VarName>, a: State, b: State, t: Value, ty: Ty, v: Value,
                      from: Ty)
    requires Agree(ns, s, a.mem, b.mem) && Readable(v, ns, s)
    ensures Agree(ns, s, AssignTo(ops, a, t, ty, v, from).mem, AssignTo(ops, b, t, ty, v, from).mem)
  {
    hide Agree, Readable, AssignCells, AssignedValue, PromotedValue;
    WriteAlike(ns, s, a, b, t, AssignedValue(ops, ty, from, Number(v)));
    if ty.IsArray() && t.Ptr? {
      var from1 := Promotion(from, ty);
      PromotedReadable(ops, from, from1, v, ns, s);
      CellsAlike(ops, ns, s, a.mem, b.mem, t.a.slot, ty.elem, PromotedValue(ops, from, from1, v), ElementOf(from1),
                 ty.size);
    }
  }

  /** Two memories have the same contents. */
  ghost predicate SameContents(a: Memory, b: Memory) {
    forall p :: Get(a, p) == Get(b, p)
  }

  lemma {:induction false} PutSame(params: seq<Parameter>, vs: seq<Value>, r: Called, mem: Memory, n: nat)
    requires n <= |vs| == |params| && LeavesCells(r, Behind(params, vs, mem))
    ensures SameContents(PutBehind(params, vs, r.cells, mem, n), mem)
  {
    if n > 0 {
      var i := n - 1;
      PutSame(params, vs, r, mem, i);
      var before := PutBehind(params, vs, r.cells, mem, i);
      if vs[i].Ptr? && !params[i].readOnly {
        var size := SizeBehind(params[i].ty);
        var cs := Behind(params, vs, mem);
        forall p ensures Get(PutBehind(params, vs, r.cells, mem, n), p) == Get(mem, p) {
          if p.slot == vs[i].a.slot && 0 <= p.cell < size {
            assert cs[i][p.cell] == Get(mem, Address(vs[i].a.slot, p.cell));
            assert p == Address(vs[i].a.slot, p.cell);
          } else {
            assert Get(before, p) == Get(mem, p);
          }
        }
      }
    }
  }

  lemma BehindAlike(ns: SlotNames, s: set<VarName>, a: Memory, b: Memory, params: seq<Parameter>, vs: seq<Value>)
    requires |params| == |vs| && Agree(ns, s, a, b) && forall v | v in vs :: Readable(v, ns, s)
    ensures Behind(params, vs, a) == Behind(params, vs, b)
  {
    forall i | 0 <= i < |vs| && vs[i].Ptr?
      ensures Cells(a, vs[i].a.slot, SizeBehind(params[i].ty)) == Cells(b, vs[i].a.slot, SizeBehind(params[i].ty))
    {
      assert Readable(vs[i], ns, s);
    }
  }

  /** A call in both runs. */
  lemma EffectAlike(ops: Ops, ns: SlotNames, s: set<VarName>, a: State, b: State, sig: Signature, vs: seq<Value>)
    requires |sig.params| == |vs| && PureCalls(ops) && Agree(ns, s, a.mem, b.mem)
    requires forall v | v in vs :: Readable(v, ns, s)
    ensures var x, y := CallEffect(ops, sig, vs, a), CallEffect(ops, sig, vs, b);
            && x.v == y.v && !x.v.Ptr? && Agree(ns, s, x.st.mem, y.st.mem)
            && SameContents(x.st.mem, a.mem) && SameContents(y.st.mem, b.mem)
  {
    hide Behind, PutBehind, LeavesCells, Readable;
    var cs := Behind(sig.params, vs, a.mem);
    BehindAlike(ns, s, a.mem, b.mem, sig.params, vs);
    EffectQuiet(ops, sig, vs, a);
    EffectQuiet(ops, sig, vs, b);
    assert ops.call(sig, vs, cs, a.ext).result == ops.call(sig, vs, cs, b.ext).result;
  }

  lemma EffectQuiet(ops: Ops, sig: Signature, vs: seq<Value>, st: State)
    requires |sig.params| == |vs| && PureCalls(ops)
    ensures SameContents(CallEffect(ops, sig, vs, st).st.mem, st.mem)
  {
    hide Behind, PutBehind, LeavesCells, SameContents;
    var r := ops.call(sig, vs, Behind(sig.params, vs, st.mem), st.ext);
    assert LeavesCells(r, Behind(sig.params, vs, st.mem));
    PutSame(sig.params, vs, r, st.mem, |vs|);
  }

  /** Writing to a variable outside the set does not matter. */
  lemma WriteOutside(ns: SlotNames, s: set<VarName>, a: State, b: State, v: Value, n: int, w: Value, k: int)
    requires Agree(ns, s, a.mem, b.mem)
    requires v.Ptr? ==> v.a.slot < |ns| && ns[v.a.slot] !in s
    requires w.Ptr? ==> w.a.slot < |ns| && ns[w.a.slot] !in s
    ensures Agree(ns, s, Write(a, v, n).mem, Write(b, w, k).mem)
  {
  }

  /** Assigning to a variable outside the set does not matter, whatever is assigned. */
  lemma AssignToOutside(ops: Ops, ns: SlotNames, s: set<VarName>, a: State, b: State, t: Value, ty: Ty, v: Value,
      w: Value, from: Ty)
    requires Agree(ns, s, a.mem, b.mem)
    requires t.Ptr? ==> t.a.slot < |ns| && ns[t.a.slot] !in s
    ensures Agree(ns, s, AssignTo(ops, a, t, ty, v, from).mem, AssignTo(ops, b, t, ty, w, from).mem)
  {
    hide AssignTo;
    var c, d := AssignTo(ops, a, t, ty, v, from).mem, AssignTo(ops, b, t, ty, w, from).mem;
    forall slot: nat, cell: int | slot >= |ns| || ns[slot] in s
      ensures Get(c, Address(slot, cell)) == Get(d, Address(slot, cell))
    {
      AssignElsewhere(ops, a, t, ty, v, from, slot);
      AssignElsewhere(ops, b, t, ty, w, from, slot);
      assert Get(c, Address(slot, cell)) == Get(a.mem, Address(slot, cell));
      assert Get(d, Address(slot, cell)) == Get(b.mem, Address(slot, cell));
    }
  }

  lemma AgreeLess(ns: SlotNames, s: set<VarName>, t: set<VarName>, a: Memory, b: Memory)
    requires Agree(ns, s, a, b) && t <= s
    ensures Agree(ns, t, a, b)
  {
  }

  // ---------------------------------------------------------------------------------------
  // An expression whose variables agree does the same in both runs

  /** Both results are the same value and leave states that agree. */
  ghost predicate Alike(ns: SlotNames, s: set<VarName>, a: Result, b: Result) {
    a.v == b.v && Readable(a.v, ns, s) && Agree(ns, s, a.st.mem, b.st.mem)
  }

  lemma PlainAlike(cx: Context, e: Expr, env: Env, ns: SlotNames, s: set<VarName>, a: State, b: State)
    requires IsPlain(e) && Named(env, ns) && Agree(ns, s, a.mem, b.mem)
    ensures var x, y := Eval(cx, e, env, a), Eval(cx, e, env, b);
            && x.v == y.v && x.st == a && y.st == b
            && (x.v.Ptr? ==> x.v.a.slot < |ns| && Names(e) == {ns[x.v.a.slot]})
            && (!x.v.Ptr? ==> x.v == Num(0))
  {
    hide Check, Agree;
    LookupNamed(env.scopes, if e.Local? then Name(e.name) else Token(e.attrTy, e.attrName), ns);
    assert Variables(NodeOf(e)) == [if e.Local? then Loc(e.name) else Attr(Token(e.attrTy, e.attrName))];
    if e.Attribute? && |env.scopes| > 0 {
      assert Token(e.attrTy, e.attrName) in env.scopes[0] ==>
        NameOf(Token(e.attrTy, e.attrName)) == Attr(Token(e.attrTy, e.attrName));
    }
  }

  lemma VariablesOfOne(a: Node)
    ensures VariablesOf(One(a)) == Variables(a)
  {
  }

  lemma VariablesOfTwo(a: Node, b: Node)
    ensures VariablesOf(Two(a, b)) == Variables(a) + Variables(b)
  {
    VariablesOfOne(b);
  }

  /** The variables of an expression are those of its parts, in order. */
  lemma Parts(e: Expr)
    ensures e.Unary? ==> Variables(NodeOf(e)) == Variables(NodeOf(e.operand))
    ensures e.Cast? ==> Variables(NodeOf(e)) == Variables(NodeOf(e.inner))
    ensures e.Binary? ==> Variables(NodeOf(e)) == Variables(NodeOf(e.lhs)) + Variables(NodeOf(e.rhs))
    ensures e.Logical? ==> Variables(NodeOf(e)) == Variables(NodeOf(e.first)) + Variables(NodeOf(e.second))
    ensures e.Assign? ==> Variables(NodeOf(e)) == Variables(NodeOf(e.target)) + Variables(NodeOf(e.source))
    ensures e.Crement? ==> Variables(NodeOf(e)) == Variables(NodeOf(e.variable))
    ensures e.Ternary? ==>
              Variables(NodeOf(e)) == Variables(NodeOf(e.cond)) +
                (if e.onTrue.Some? then Variables(NodeOf(e.onTrue.value)) else []) + Variables(NodeOf(e.onFalse))
    ensures e.Comma? ==> Variables(NodeOf(e)) == VariablesOf(NodesOf(e.exprs))
    ensures e.Call? ==> Variables(NodeOf(e)) == VariablesOf(NodesOf(e.args))
    ensures e.ArrayPack? ==> Variables(NodeOf(e)) == VariablesOf(NodesOf(e.elements))
    ensures e.Literal? ==> Variables(NodeOf(e)) == []
  {
    hide Variables;
    match e
    case Unary(_, a) => VariablesOfOne(NodeOf(a)); Inside(e);
    case Cast(_, a) => VariablesOfOne(NodeOf(a)); Inside(e);
    case Crement(v, _, _) => VariablesOfOne(NodeOf(v)); Inside(e);
    case Binary(_, l, r) => VariablesOfTwo(NodeOf(l), NodeOf(r)); Inside(e);
    case Logical(_, l, r) => VariablesOfTwo(NodeOf(l), NodeOf(r)); Inside(e);
    case Assign(l, _, r) => VariablesOfTwo(NodeOf(l), NodeOf(r)); Inside(e);
    case Ternary(c, t, f) =>
      VariablesOfOne(NodeOf(f));
      if t.Some? { VariablesOfTwo(NodeOf(t.value), NodeOf(f)); }
      Inside(e);
    case _ => Inside(e);
  }

  lemma Inside(e: Expr)
    ensures !e.Local? && !e.Attribute? ==> Variables(NodeOf(e)) == VariablesOf(NodeOf(e).children)
  {
  }

  lemma NamesParts(e: Expr)
    ensures e.Unary? ==> Names(e) == Names(e.operand)
    ensures e.Cast? ==> Names(e) == Names(e.inner)
    ensures e.Binary? ==> Names(e) == Names(e.lhs) + Names(e.rhs)
    ensures e.Logical? ==> Names(e) == Names(e.first) + Names(e.second)
    ensures e.Assign? ==> Names(e) == Names(e.target) + Names(e.source)
    ensures e.Crement? ==> Names(e) == Names(e.variable)
    ensures e.Ternary? ==>
      Names(e) == Names(e.cond) + (if e.onTrue.Some? then Names(e.onTrue.value) else {}) + Names(e.onFalse)
    ensures e.Comma? ==> Names(e) == NamesOfAll(e.exprs)
    ensures e.Call? ==> Names(e) == NamesOfAll(e.args)
    ensures e.ArrayPack? ==> Names(e) == NamesOfAll(e.elements)
  {
    hide NodeOf, NodesOf, Variables, VariablesOf;
    Parts(e);
  }

  lemma {:induction false} EvalAlike(cx: Context, e: Expr, env: Env, ns: SlotNames, s: set<VarName>, a: State, b: State)
    requires Simple(e) && Named(env, ns) && PureCalls(cx.ops) && Names(e) <= s && Agree(ns, s, a.mem, b.mem)
    ensures Alike(ns, s, Eval(cx, e, env, a), Eval(cx, e, env, b))
    decreases e, 1
  {
    hide Agree, Named, Names, Check, BinaryResult, UnaryEach, AssignTo, CastValue, PureCalls, Readable;
    NamesParts(e);
    NumReadable(ns, s);
    match e
    case Literal(_, _) =>
    case Local(_) => PlainReadable(cx, e, env, ns, s, a, b);
    case Attribute(_, _) => PlainReadable(cx, e, env, ns, s, a, b);
    case Component(_, _) =>
    case MatrixEntry(_, _, _) =>
    case Unary(_, x) =>
      EvalAlike(cx, x, env, ns, s, a, b);
      var x2, y2 := Eval(cx, x, env, a), Eval(cx, x, env, b);
      SameReads(ns, s, x2, y2);
      var ty := TyOf(cx.functions, x, env);
      if ty.IsArray() { EachAlike(cx.ops, e.unOp, ty.elem, x2.v, ns, s, x2.st.mem, y2.st.mem, ty.size); }
    case Binary(_, l, r) =>
      EvalAlike(cx, l, env, ns, s, a, b);
      var x, y := Eval(cx, l, env, a), Eval(cx, l, env, b);
      EvalAlike(cx, r, env, ns, s, x.st, y.st);
      var x2, y2 := Eval(cx, r, env, x.st), Eval(cx, r, env, y.st);
      BinaryAlike(cx.ops, e.binOp, TyOf(cx.functions, l, env), x.v, TyOf(cx.functions, r, env), x2.v, ns, s, x2.st,
                  y2.st);
    case Logical(_, _, _) => LogicalAlike(cx, e, env, ns, s, a, b);
    case Ternary(_, _, _) => TernaryAlike(cx, e, env, ns, s, a, b);
    case Comma(es) => CommaAlike(cx, es, env, ns, s, a, b);
    case Assign(_, _, _) => AssignAlike(cx, e, env, ns, s, a, b);
    case Crement(v, _, _) =>
      PlainReadable(cx, v, env, ns, s, a, b);
      var x, y := Eval(cx, v, env, a), Eval(cx, v, env, b);
      ReadAlike(ns, s, x.st, y.st, x.v);
      var ty := TyOf(cx.functions, v, env);
      var n := cx.ops.bin(Plus, ty, Read(x.st, x.v), Convert(cx.ops, Int32, ty, if e.increment then 1 else -1));
      WriteAlike(ns, s, x.st, y.st, x.v, n);
    case Cast(_, x) =>
      EvalAlike(cx, x, env, ns, s, a, b);
      SameReads(ns, s, Eval(cx, x, env, a), Eval(cx, x, env, b));
    case Call(_, _) => CallAlike(cx, e, env, ns, s, a, b);
    case ArrayPack(_) => PackAlike(cx, e, env, ns, s, a, b);
  }

  lemma NumReadable(ns: SlotNames, s: set<VarName>)
    ensures forall v: Value | !v.Ptr? :: Readable(v, ns, s)
  {
  }

  lemma SameReads(ns: SlotNames, s: set<VarName>, x: Result, y: Result)
    requires Alike(ns, s, x, y)
    ensures Read(x.st, x.v) == Read(y.st, y.v)
  {
    ReadAlike(ns, s, x.st, y.st, x.v);
  }

  lemma PlainReadable(cx: Context, e: Expr, env: Env, ns: SlotNames, s: set<VarName>, a: State, b: State)
    requires IsPlain(e) && Named(env, ns) && Names(e) <= s && Agree(ns, s, a.mem, b.mem)
    ensures Alike(ns, s, Eval(cx, e, env, a), Eval(cx, e, env, b))
    ensures Eval(cx, e, env, a).st == a && Eval(cx, e, env, b).st == b
  {
    PlainAlike(cx, e, env, ns, s, a, b);
  }

  lemma {:induction false} LogicalAlike(cx: Context, e: Expr, env: Env, ns: SlotNames, s: set<VarName>, a: State,
      b: State)
    requires e.Logical? && Simple(e) && Named(env, ns) && PureCalls(cx.ops) && Names(e) <= s &&
      Agree(ns, s, a.mem, b.mem)
    ensures Alike(ns, s, Eval(cx, e, env, a), Eval(cx, e, env, b))
    decreases e, 0
  {
    hide Agree, Named, Names, Check, PureCalls, Readable;
    NamesParts(e);
    NumReadable(ns, s);
    EvalAlike(cx, e.first, env, ns, s, a, b);
    var x, y := Eval(cx, e.first, env, a), Eval(cx, e.first, env, b);
    SameReads(ns, s, x, y);
    EvalAlike(cx, e.second, env, ns, s, x.st, y.st);
    SameReads(ns, s, Eval(cx, e.second, env, x.st), Eval(cx, e.second, env, y.st));
  }

  lemma {:induction false} TernaryAlike(cx: Context, e: Expr, env: Env, ns: SlotNames, s: set<VarName>, a: State,
      b: State)
    requires e.Ternary? && Simple(e) && Named(env, ns) && PureCalls(cx.ops) && Names(e) <= s &&
      Agree(ns, s, a.mem, b.mem)
    ensures Alike(ns, s, Eval(cx, e, env, a), Eval(cx, e, env, b))
    decreases e, 0
  {
    hide Agree, Named, Names, Check, PureCalls, Readable, TypeOfTernary, Coerce;
    NamesParts(e);
    EvalAlike(cx, e.cond, env, ns, s, a, b);
    var x, y := Eval(cx, e.cond, env, a), Eval(cx, e.cond, env, b);
    SameReads(ns, s, x, y);
    EvalAlike(cx, e.onFalse, env, ns, s, x.st, y.st);
    if e.onTrue.Some? { EvalAlike(cx, e.onTrue.value, env, ns, s, x.st, y.st); }
    var t := Check(cx.functions, if e.onTrue.Some? then e.onTrue.value else e.cond, env);
    var f := Check(cx.functions, e.onFalse, env);
    if t.Typed? && f.Typed? {
      var ty := TypeOfTernary(t, f);
      CoerceAlike(cx.ops, Eval(cx, e.onFalse, env, x.st), Eval(cx, e.onFalse, env, y.st), f, ty, ns, s);
      if e.onTrue.Some? {
        CoerceAlike(cx.ops, Eval(cx, e.onTrue.value, env, x.st), Eval(cx, e.onTrue.value, env, y.st), t, ty, ns, s);
      } else {
        CoerceAlike(cx.ops, x, y, t, ty, ns, s);
      }
    }
  }

  lemma {:induction false} AssignAlike(cx: Context, e: Expr, env: Env, ns: SlotNames, s: set<VarName>, a: State,
      b: State)
    requires e.Assign? && Simple(e) && Named(env, ns) && PureCalls(cx.ops) && Names(e) <= s &&
      Agree(ns, s, a.mem, b.mem)
    ensures Alike(ns, s, Eval(cx, e, env, a), Eval(cx, e, env, b))
    decreases e, 0
  {
    hide Agree, Named, Names, Check, PureCalls, Readable, BinaryResult, AssignTo, CompoundType, Rvalue;
    NamesParts(e);
    NumReadable(ns, s);
    PlainReadable(cx, e.target, env, ns, s, a, b);
    EvalAlike(cx, e.source, env, ns, s, a, b);
    var t := Eval(cx, e.target, env, a).v;
    var x, y := Eval(cx, e.source, env, a), Eval(cx, e.source, env, b);
    var lt, rt := TyOf(cx.functions, e.target, env), TyOf(cx.functions, e.source, env);
    RvalueAlike(ns, s, x.st, y.st, x.v, rt);
    if e.compound.Some? { BinaryAlike(cx.ops, e.compound.value, lt, t, rt, x.v, ns, s, x.st, y.st); }
    AssignToAlike(cx.ops, ns, s, x.st, y.st, t, lt, SourceValue(cx, e, env, x.st, t, x.v), SourceType(cx, e, env));
  }

  /** The value an assignment stores, once its source has been evaluated, and its type. */
  function SourceValue(cx: Context, e: Expr, env: Env, st: State, target: Value, source: Value): Value
    requires e.Assign?
  {
    var lt := TyOf(cx.functions, e.target, env);
    var rt := TyOf(cx.functions, e.source, env);
    if e.compound.None? then Rvalue(st, source, rt)
    else BinaryResult(cx.ops, e.compound.value, lt, target, rt, source, st)
  }

  function SourceType(cx: Context, e: Expr, env: Env): Ty
    requires e.Assign?
  {
    var lt := TyOf(cx.functions, e.target, env);
    var rt := TyOf(cx.functions, e.source, env);
    if e.compound.None? then rt else CompoundType(e.compound.value, lt, rt)
  }

  lemma {:induction false} CommaAlike(cx: Context, es: Exprs, env: Env, ns: SlotNames, s: set<VarName>, a: State,
      b: State)
    requires AllSimple(es) && Named(env, ns) && PureCalls(cx.ops) && NamesOfAll(es) <= s && Agree(ns, s, a.mem, b.mem)
    ensures Alike(ns, s, EvalComma(cx, es, env, a), EvalComma(cx, es, env, b))
    decreases es, 1
  {
    hide Agree, Named, Eval, PureCalls, Readable;
    NumReadable(ns, s);
    match es
    case NoExprs =>
    case ConsExpr(e, rest) =>
      assert Names(e) <= s && NamesOfAll(rest) <= s;
      EvalAlike(cx, e, env, ns, s, a, b);
      CommaAlike(cx, rest, env, ns, s, Eval(cx, e, env, a).st, Eval(cx, e, env, b).st);
  }

  lemma {:induction false} ArgsAlike(cx: Context, es: Exprs, env: Env, ns: SlotNames, s: set<VarName>, a: State,
      b: State)
    requires AllSimple(es) && Named(env, ns) && PureCalls(cx.ops) && NamesOfAll(es) <= s && Agree(ns, s, a.mem, b.mem)
    ensures var x, y := EvalArgs(cx, es, env, a), EvalArgs(cx, es, env, b);
            x.vs == y.vs && Agree(ns, s, x.st.mem, y.st.mem) && forall v | v in x.vs :: Readable(v, ns, s)
    decreases es, 1
  {
    hide Agree, Named, Eval, PureCalls, Readable;
    match es
    case NoExprs =>
    case ConsExpr(e, rest) =>
      assert Names(e) <= s && NamesOfAll(rest) <= s;
      EvalAlike(cx, e, env, ns, s, a, b);
      ArgsAlike(cx, rest, env, ns, s, Eval(cx, e, env, a).st, Eval(cx, e, env, b).st);
  }

  lemma RvaluesAlike(ns: SlotNames, s: set<VarName>, a: State, b: State, vs: seq<Value>, ts: seq<ArgTy>)
    requires |ts| == |vs| && Agree(ns, s, a.mem, b.mem) && forall v | v in vs :: Readable(v, ns, s)
    ensures Rvalues(a, vs, ts) == Rvalues(b, vs, ts) && forall v | v in Rvalues(a, vs, ts) :: Readable(v, ns, s)
  {
    forall i | 0 <= i < |vs|
      ensures Rvalues(a, vs, ts)[i] == Rvalues(b, vs, ts)[i] && Readable(Rvalues(a, vs, ts)[i], ns, s)
    {
      RvalueAlike(ns, s, a, b, vs[i], ElementType(ts[i]));
    }
  }

  lemma ArgAlike(ops: Ops, to: ArgTy, from: ArgTy, v: Value, ns: SlotNames, s: set<VarName>, a: Memory, b: Memory)
    requires Agree(ns, s, a, b) && Readable(v, ns, s)
    ensures CastArg(ops, to, from, v, a) == CastArg(ops, to, from, v, b)
    ensures Readable(CastArg(ops, to, from, v, a), ns, s)
  {
    hide Agree, CastArray, CastValue;
    CastArrayAlike(ops, ElementOf(ElementType(from)), ElementOf(ElementType(to)), v, ns, s, a, b, SizeBehind(from));
  }

  /** Casting arguments makes no new pointers. */
  lemma {:induction false} CastArgsAlike(ops: Ops, implicit: bool, params: seq<Parameter>, ts: seq<ArgTy>,
      vs: seq<Value>, ns: SlotNames, s: set<VarName>, a: Memory, b: Memory)
    requires |params| == |ts| == |vs| && Agree(ns, s, a, b) && forall v | v in vs :: Readable(v, ns, s)
    ensures CastArgs(ops, implicit, params, ts, vs, a) == CastArgs(ops, implicit, params, ts, vs, b)
    ensures forall v | v in CastArgs(ops, implicit, params, ts, vs, a) :: Readable(v, ns, s)
    decreases |vs|
  {
    hide Agree, Readable, CastArg;
    if |vs| > 0 {
      assert vs[0] in vs && forall v | v in vs[1..] :: v in vs;
      ArgAlike(ops, params[0].ty, ts[0], vs[0], ns, s, a, b);
      CastArgsAlike(ops, implicit, params[1..], ts[1..], vs[1..], ns, s, a, b);
    }
  }

  lemma {:induction false} CallAlike(cx: Context, e: Expr, env: Env, ns: SlotNames, s: set<VarName>, a: State, b: State)
    requires e.Call? && Simple(e) && Named(env, ns) && PureCalls(cx.ops) && Names(e) <= s && Agree(ns, s, a.mem, b.mem)
    ensures Alike(ns, s, Eval(cx, e, env, a), Eval(cx, e, env, b))
    decreases e, 0
  {
    hide Agree, Named, Names, Readable, CastArgs, Resolve, CallEffect, PureCalls, Rvalues, Check, CheckArgs;
    NamesParts(e);
    NumReadable(ns, s);
    ArgsAlike(cx, e.args, env, ns, s, a, b);
    var x, y := EvalArgs(cx, e.args, env, a), EvalArgs(cx, e.args, env, b);
    if Check(cx.functions, e, env).Typed? {
      var ts := CalledTypes(cx, e, env);
      RvaluesAlike(ns, s, x.st, y.st, x.vs, ts);
      var sig := Resolve(cx.functions[e.callee], ts).target.value;
      var implicit := Resolve(cx.functions[e.callee], ts).kind == Implicit;
      var vs := Rvalues(x.st, x.vs, ts);
      CastArgsAlike(cx.ops, implicit, sig.params, ts, vs, ns, s, x.st.mem, y.st.mem);
      EffectAlike(cx.ops, ns, s, x.st, y.st, sig, CastArgs(cx.ops, implicit, sig.params, ts, vs, x.st.mem));
    }
  }

  lemma {:induction false} PackAlike(cx: Context, e: Expr, env: Env, ns: SlotNames, s: set<VarName>, a: State, b: State)
    requires e.ArrayPack? && Simple(e) && Named(env, ns) && PureCalls(cx.ops) && Names(e) <= s
    requires Agree(ns, s, a.mem, b.mem)
    ensures Alike(ns, s, Eval(cx, e, env, a), Eval(cx, e, env, b))
    decreases e, 0
  {
    hide Agree, Named, Names, Readable, PureCalls, Check, CheckArgs, ConvertEach;
    NamesParts(e);
    NumReadable(ns, s);
    var es := e.elements;
    if es.ConsExpr? && es.tail.NoExprs? {
      HeadNames(es);
      EvalAlike(cx, es.head, env, ns, s, a, b);
    } else {
      ArgsAlike(cx, es, env, ns, s, a, b);
      var x, y := EvalArgs(cx, es, env, a), EvalArgs(cx, es, env, b);
      ReadEachAlike(ns, s, x.st, y.st, x.vs);
    }
  }

  lemma HeadNames(es: Exprs)
    requires es.ConsExpr?
    ensures Names(es.head) <= NamesOfAll(es)
  {
  }

  lemma ReadEachAlike(ns: SlotNames, s: set<VarName>, a: State, b: State, vs: seq<Value>)
    requires Agree(ns, s, a.mem, b.mem) && forall v | v in vs :: Readable(v, ns, s)
    ensures ReadEach(a, vs) == ReadEach(b, vs)
  {
    forall i | 0 <= i < |vs| ensures Read(a, vs[i]) == Read(b, vs[i]) {
      ReadAlike(ns, s, a, b, vs[i]);
    }
  }

  // ---------------------------------------------------------------------------------------
  // Code leaves alone what it does not assign to

  function PlainName(e: Expr): VarName
    requires IsPlain(e)
  {
    if e.Local? then Loc(e.name) else Attr(Token(e.attrTy, e.attrName))
  }

  /** The variables an expression assigns to. */
  function Assigned(e: Expr): set<VarName> {
    match e
    case Literal(_, _) => {}
    case Local(_) => {}
    case Attribute(_, _) => {}
    case Component(index, vec) => Assigned(index) + Assigned(vec)
    case MatrixEntry(row, column, m) => Assigned(row) + Assigned(column) + Assigned(m)
    case Unary(_, a) => Assigned(a)
    case Binary(_, l, r) => Assigned(l) + Assigned(r)
    case Logical(_, l, r) => Assigned(l) + Assigned(r)
    case Ternary(c, t, f) => Assigned(c) + (if t.Some? then Assigned(t.value) else {}) + Assigned(f)
    case Comma(es) => AssignedIn(es)
    case Assign(l, _, r) => (if IsPlain(l) then {PlainName(l)} else {}) + Assigned(r)
    case Crement(v, _, _) => if IsPlain(v) then {PlainName(v)} else {}
    case Cast(_, a) => Assigned(a)
    case Call(_, args) => AssignedIn(args)
    case ArrayPack(es) => AssignedIn(es)
  }

  function AssignedIn(es: Exprs): set<VarName> {
    match es
    case NoExprs => {}
    case ConsExpr(e, rest) => Assigned(e) + AssignedIn(rest)
  }

  function AssignedBy(s: Stmt): set<VarName> {
    match s
    case ExprStmt(e) => Assigned(e)
    case Declare(_, name, initial) => if initial.Some? then {Loc(name)} + Assigned(initial.value) else {}
    case Block(body) => AssignedByAll(body)
    case StatementList(ss) => AssignedByAll(ss)
    case If(c, onTrue, onFalse) =>
      Assigned(c) + AssignedByAll(onTrue) + (if onFalse.Some? then AssignedByAll(onFalse.value) else {})
    case Loop(kind, c, body) => Assigned(c) + AssignedByHead(kind) + AssignedByAll(body)
    case Jump(_) => {}
  }

  function AssignedByHead(kind: LoopKind): set<VarName> {
    match kind
    case For(init, iteration) => AssignedByAll(init) + if iteration.Some? then Assigned(iteration.value) else {}
    case While => {}
    case Do => {}
  }

  function AssignedByAll(ss: Stmts): set<VarName> {
    match ss
    case NoStmts => {}
    case ConsStmt(s, rest) => AssignedBy(s) + AssignedByAll(rest)
  }

  lemma {:induction false} EffectFreeAssigns(e: Expr)
    requires EffectFree(e)
    ensures Assigned(e) == {}
  {
    match e
    case Literal(_, _) =>
    case Local(_) =>
    case Attribute(_, _) =>
    case Component(index, vec) => EffectFreeAssigns(index); EffectFreeAssigns(vec);
    case MatrixEntry(row, column, m) => EffectFreeAssigns(row); EffectFreeAssigns(column); EffectFreeAssigns(m);
    case Unary(_, a) => EffectFreeAssigns(a);
    case Binary(_, l, r) => EffectFreeAssigns(l); EffectFreeAssigns(r);
    case Logical(_, l, r) => EffectFreeAssigns(l); EffectFreeAssigns(r);
    case Ternary(c, t, f) =>
      EffectFreeAssigns(c);
      EffectFreeAssigns(f);
      if t.Some? { EffectFreeAssigns(t.value); }
    case Comma(es) => AllEffectFreeAssign(es);
    case Cast(_, a) => EffectFreeAssigns(a);
    case Call(_, args) => AllEffectFreeAssign(args);
    case ArrayPack(es) => AllEffectFreeAssign(es);
  }

  lemma {:induction false} AllEffectFreeAssign(es: Exprs)
    requires AllEffectFree(es)
    ensures AssignedIn(es) == {}
  {
    match es
    case NoExprs =>
    case ConsExpr(e, rest) =>
      EffectFreeAssigns(e);
      AllEffectFreeAssign(rest);
  }

  /** This slot belongs to no variable of the set. */
  predicate Outside(ns: SlotNames, slot: nat, s: set<VarName>) {
    slot < |ns| ==> ns[slot] !in s
  }

  lemma {:induction false} EvalKeeps(cx: Context, e: Expr, env: Env, ns: SlotNames, st: State, slot: nat)
    requires Simple(e) && Named(env, ns) && PureCalls(cx.ops) && Outside(ns, slot, Assigned(e))
    ensures SameSlot(st.mem, Eval(cx, e, env, st).st.mem, slot)
    decreases e, 1
  {
    hide Named, SameSlot, Check, BinaryResult, UnaryEach, AssignTo, CastValue, TypeOfTernary, PureCalls;
    SameAlways(slot);
    match e
    case Literal(_, _) =>
    case Local(_) =>
    case Attribute(_, _) =>
    case Component(_, _) =>
    case MatrixEntry(_, _, _) =>
    case Unary(_, a) => EvalKeeps(cx, a, env, ns, st, slot);
    case Binary(_, l, r) =>
      EvalKeeps(cx, l, env, ns, st, slot);
      EvalKeeps(cx, r, env, ns, Eval(cx, l, env, st).st, slot);
    case Logical(_, l, r) =>
      EvalKeeps(cx, l, env, ns, st, slot);
      EvalKeeps(cx, r, env, ns, Eval(cx, l, env, st).st, slot);
    case Ternary(c, t, f) =>
      EvalKeeps(cx, c, env, ns, st, slot);
      EvalKeeps(cx, f, env, ns, Eval(cx, c, env, st).st, slot);
      if t.Some? { EvalKeeps(cx, t.value, env, ns, Eval(cx, c, env, st).st, slot); }
    case Comma(es) => CommaKeeps(cx, es, env, ns, st, slot);
    case Assign(l, _, r) =>
      EvalKeeps(cx, r, env, ns, st, slot);
      PlainElsewhere(cx, l, env, ns, st, slot);
      var t := Eval(cx, l, env, st).v;
      var x := Eval(cx, r, env, st);
      AssignElsewhere(cx.ops, x.st, t, TyOf(cx.functions, l, env), SourceValue(cx, e, env, x.st, t, x.v),
                      SourceType(cx, e, env), slot);
    case Crement(v, _, _) =>
      PlainElsewhere(cx, v, env, ns, st, slot);
      WriteElsewhere(slot);
    case Cast(_, a) => EvalKeeps(cx, a, env, ns, st, slot);
    case Call(_, args) =>
      ArgsKeep(cx, args, env, ns, st, slot);
      CallKeeps(cx, e, env, st, slot);
    case ArrayPack(es) =>
      ArgsKeep(cx, es, env, ns, st, slot);
      if es.ConsExpr? { EvalKeeps(cx, es.head, env, ns, st, slot); }
  }

  /** A pure call leaves memory as its arguments left it. */
  lemma CallKeeps(cx: Context, e: Expr, env: Env, st: State, slot: nat)
    requires e.Call? && PureCalls(cx.ops)
    ensures SameSlot(EvalArgs(cx, e.args, env, st).st.mem, Eval(cx, e, env, st).st.mem, slot)
  {
    hide PureCalls, CastArgs, Resolve, CallEffect, Check, CheckArgs, Rvalues;
    var x := EvalArgs(cx, e.args, env, st);
    if Check(cx.functions, e, env).Typed? {
      var ts := CalledTypes(cx, e, env);
      var r := Resolve(cx.functions[e.callee], ts);
      var sig := r.target.value;
      var vs := Rvalues(x.st, x.vs, ts);
      EffectQuiet(cx.ops, sig, CastArgs(cx.ops, r.kind == Implicit, sig.params, ts, vs, x.st.mem), x.st);
    }
  }

  lemma PlainElsewhere(cx: Context, e: Expr, env: Env, ns: SlotNames, st: State, slot: nat)
    requires IsPlain(e) && Named(env, ns) && Outside(ns, slot, {PlainName(e)})
    ensures var r := Eval(cx, e, env, st); r.st == st && !(r.v.Ptr? && r.v.a.slot == slot)
  {
    PlainSlot(cx, e, env, ns, st);
  }

  /** A plain variable is found in a slot of its name. */
  lemma PlainSlot(cx: Context, e: Expr, env: Env, ns: SlotNames, st: State)
    requires IsPlain(e) && Named(env, ns)
    ensures var r := Eval(cx, e, env, st);
            r.st == st && (r.v.Ptr? ==> r.v.a.slot < |ns| && ns[r.v.a.slot] == PlainName(e))
  {
    LookupNamed(env.scopes, if e.Local? then Name(e.name) else Token(e.attrTy, e.attrName), ns);
    if e.Attribute? && |env.scopes| > 0 { assert ScopeNamed(env.scopes[0], ns); }
  }

  lemma {:induction false} CommaKeeps(cx: Context, es: Exprs, env: Env, ns: SlotNames, st: State, slot: nat)
    requires AllSimple(es) && Named(env, ns) && PureCalls(cx.ops) && Outside(ns, slot, AssignedIn(es))
    ensures SameSlot(st.mem, EvalComma(cx, es, env, st).st.mem, slot)
    decreases es, 1
  {
    hide Named, SameSlot, Eval, PureCalls;
    SameAlways(slot);
    match es
    case NoExprs =>
    case ConsExpr(e, rest) =>
      EvalKeeps(cx, e, env, ns, st, slot);
      CommaKeeps(cx, rest, env, ns, Eval(cx, e, env, st).st, slot);
  }

  lemma {:induction false} ArgsKeep(cx: Context, es: Exprs, env: Env, ns: SlotNames, st: State, slot: nat)
    requires AllSimple(es) && Named(env, ns) && PureCalls(cx.ops) && Outside(ns, slot, AssignedIn(es))
    ensures SameSlot(st.mem, EvalArgs(cx, es, env, st).st.mem, slot)
    decreases es, 1
  {
    hide Named, SameSlot, Eval, PureCalls;
    SameAlways(slot);
    match es
    case NoExprs =>
    case ConsExpr(e, rest) =>
      EvalKeeps(cx, e, env, ns, st, slot);
      ArgsKeep(cx, rest, env, ns, Eval(cx, e, env, st).st, slot);
  }

  // ---------------------------------------------------------------------------------------
  // Statements

  /** The names of the slots a statement allocates, in order. */
  function Declares(s: Stmt): SlotNames {
    match s
    case Declare(_, name, _) => [Loc(name)]
    case Block(body) => DeclaresAll(body)
    case StatementList(ss) => DeclaresAll(ss)
    case If(_, onTrue, onFalse) => DeclaresAll(onTrue) + if onFalse.Some? then DeclaresAll(onFalse.value) else []
    case Loop(kind, _, body) => DeclaresHead(kind) + DeclaresAll(body)
    case _ => []
  }

  function DeclaresHead(kind: LoopKind): SlotNames {
    match kind
    case For(init, _) => DeclaresAll(init)
    case While => []
    case Do => []
  }

  function DeclaresAll(ss: Stmts): SlotNames {
    match ss
    case NoStmts => []
    case ConsStmt(s, rest) => Declares(s) + DeclaresAll(rest)
  }

  /** The slots from a given one on have these names. */
  predicate NamesAt(ns: SlotNames, from: nat, names: SlotNames) {
    from + |names| <= |ns| && ns[from..from + |names|] == names
  }

  lemma NamesSplit(ns: SlotNames, from: nat, a: SlotNames, b: SlotNames)
    requires NamesAt(ns, from, a + b)
    ensures NamesAt(ns, from, a) && NamesAt(ns, from + |a|, b)
  {
    var all := ns[from..from + |a + b|];
    assert ns[from..from + |a|] == all[..|a|];
    assert ns[from + |a|..from + |a| + |b|] == all[|a|..];
  }

  lemma DeclaredNamed(env: Env, ty: Ty, name: string, ns: SlotNames)
    requires Named(env, ns) && NamesAt(ns, env.slots, [Loc(name)])
    ensures Named(Declared(env, ty, name), ns)
  {
    var now := Declared(env, ty, name);
    assert ns[env.slots] == ns[env.slots..env.slots + 1][0];
    forall i | 0 <= i < |now.scopes| ensures ScopeNamed(now.scopes[i], ns) {
      assert ScopeNamed(env.scopes[i], ns);
    }
  }

  lemma PushNamed(env: Env, ns: SlotNames)
    requires Named(env, ns)
    ensures Named(Push(env), ns)
  {
    forall i | 0 <= i < |Push(env).scopes| ensures ScopeNamed(Push(env).scopes[i], ns) {
      assert i < |env.scopes| ==> ScopeNamed(env.scopes[i], ns);
    }
  }

  /** Statements allocate the slots they declare, and the tables keep leading to slots of the right names. */
  lemma {:induction false} AfterNamed(s: Stmt, env: Env, ns: SlotNames)
    requires SimpleStmt(s) && |env.scopes| > 0 && Named(env, ns) && NamesAt(ns, env.slots, Declares(s))
    ensures Named(After(s, env), ns) && After(s, env).slots == env.slots + |Declares(s)| &&
      |After(s, env).scopes| == |env.scopes|
    decreases s, 1
  {
    hide Named, NamesAt;
    match s
    case ExprStmt(_) =>
    case Declare(ty, name, _) => DeclaredNamed(env, ty, name, ns);
    case Block(body) =>
      PushNamed(env, ns);
      AfterListNamed(body, Push(env), ns);
      NamedScopes(env, After(s, env), ns);
    case StatementList(ss) => AfterListNamed(ss, env, ns);
    case If(_, onTrue, onFalse) =>
      var rest := if onFalse.Some? then DeclaresAll(onFalse.value) else [];
      NamesSplit(ns, env.slots, DeclaresAll(onTrue), rest);
      PushNamed(env, ns);
      AfterListNamed(onTrue, Push(env), ns);
      var env1 := env.(slots := AfterList(onTrue, Push(env)).slots);
      NamedScopes(env, env1, ns);
      if onFalse.Some? {
        PushNamed(env1, ns);
        AfterListNamed(onFalse.value, Push(env1), ns);
      }
      NamedScopes(env, After(s, env), ns);
    case Loop(kind, _, body) =>
      NamesSplit(ns, env.slots, DeclaresHead(kind), DeclaresAll(body));
      LoopEnvNamed(kind, env, ns);
      PushNamed(LoopEnv(kind, env), ns);
      AfterListNamed(body, Push(LoopEnv(kind, env)), ns);
      NamedScopes(env, After(s, env), ns);
    case Jump(_) =>
  }

  lemma {:induction false} LoopEnvNamed(kind: LoopKind, env: Env, ns: SlotNames)
    requires SimpleHead(kind) && |env.scopes| > 0 && Named(env, ns) && NamesAt(ns, env.slots, DeclaresHead(kind))
    ensures var env1 := LoopEnv(kind, env);
            Named(env1, ns) && env1.slots == env.slots + |DeclaresHead(kind)| && |env1.scopes| == |env.scopes| + 1
    decreases kind, 1
  {
    hide Named, NamesAt;
    PushNamed(env, ns);
    match kind
    case For(init, _) => AfterListNamed(init, Push(env), ns);
    case While =>
    case Do =>
  }

  lemma NamedScopes(a: Env, b: Env, ns: SlotNames)
    requires Named(a, ns) && a.scopes == b.scopes
    ensures Named(b, ns)
  {
  }

  lemma {:induction false} AfterListNamed(ss: Stmts, env: Env, ns: SlotNames)
    requires SimpleStmts(ss) && |env.scopes| > 0 && Named(env, ns) && NamesAt(ns, env.slots, DeclaresAll(ss))
    ensures Named(AfterList(ss, env), ns) && AfterList(ss, env).slots == env.slots + |DeclaresAll(ss)|
    ensures |AfterList(ss, env).scopes| == |env.scopes|
    decreases ss, 1
  {
    hide Named, NamesAt;
    match ss
    case NoStmts =>
    case ConsStmt(s, rest) =>
      NamesSplit(ns, env.slots, Declares(s), DeclaresAll(rest));
      AfterNamed(s, env, ns);
      AfterListNamed(rest, After(s, env), ns);
  }

  /** Such code ends normally or, if it has loops, runs out of fuel; what it does not assign to is as it was. */
  ghost predicate Keeps(o: Outcome, loopFree: bool, ns: SlotNames, slot: nat, changed: set<VarName>, mem: Memory) {
    (o.Normal? || (o.Timeout? && !loopFree)) &&
    (o.Normal? && Outside(ns, slot, changed) ==> SameSlot(mem, o.st.mem, slot))
  }

  lemma {:induction false} ExecKeeps(cx: Context, s: Stmt, env: Env, ns: SlotNames, st: State, fuel: nat, slot: nat)
    requires SimpleStmt(s) && |env.scopes| > 0 && Named(env, ns) && NamesAt(ns, env.slots, Declares(s))
    requires PureCalls(cx.ops)
    ensures Keeps(Exec(cx, s, env, st, fuel), LoopFree(s), ns, slot, AssignedBy(s), st.mem)
    decreases fuel, s, 3
  {
    hide Named, NamesAt, SameSlot, Eval, IsTrue, Check, AssignTo, Rvalue, AfterList, PureCalls;
    SameAlways(slot);
    match s
    case ExprStmt(e) => if Outside(ns, slot, Assigned(e)) { EvalKeeps(cx, e, env, ns, st, slot); }
    case Declare(ty, name, initial) =>
      if initial.Some? && Outside(ns, slot, AssignedBy(s)) {
        DeclaredNamed(env, ty, name, ns);
        NameAt(ns, env.slots, Loc(name));
        var env1 := Declared(env, ty, name);
        EvalKeeps(cx, initial.value, env1, ns, st, slot);
        var r := Eval(cx, initial.value, env1, st);
        var from := TyOf(cx.functions, initial.value, env1);
        AssignElsewhere(cx.ops, r.st, Ptr(Address(env.slots, 0)), ty, Rvalue(r.st, r.v, from), from, slot);
      }
    case Block(body) =>
      PushNamed(env, ns);
      ListKeeps(cx, body, Push(env), ns, st, fuel, slot);
    case StatementList(ss) => ListKeeps(cx, ss, env, ns, st, fuel, slot);
    case If(c, onTrue, onFalse) => IfKeeps(cx, s, env, ns, st, fuel, slot);
    case Loop(_, _, _) => LoopKeeps(cx, s, env, ns, st, fuel, slot);
    case Jump(_) =>
  }

  lemma {:induction false} IfKeeps(cx: Context, s: Stmt, env: Env, ns: SlotNames, st: State, fuel: nat, slot: nat)
    requires s.If?
    requires SimpleStmt(s) && |env.scopes| > 0 && Named(env, ns) && NamesAt(ns, env.slots, Declares(s))
    requires PureCalls(cx.ops)
    ensures Keeps(Exec(cx, s, env, st, fuel), LoopFree(s), ns, slot, AssignedBy(s), st.mem)
    decreases fuel, s, 2
  {
    hide Named, NamesAt, SameSlot, Eval, IsTrue, Check, AssignTo, Rvalue, AfterList, PureCalls;
    SameAlways(slot);
    if Outside(ns, slot, AssignedBy(s)) { EvalKeeps(cx, s.cond, env, ns, st, slot); }
    var r := Eval(cx, s.cond, env, st);
    var rest := if s.onFalse.Some? then DeclaresAll(s.onFalse.value) else [];
    NamesSplit(ns, env.slots, DeclaresAll(s.onTrue), rest);
    PushNamed(env, ns);
    ListKeeps(cx, s.onTrue, Push(env), ns, r.st, fuel, slot);
    AfterListNamed(s.onTrue, Push(env), ns);
    if s.onFalse.Some? {
      var env1 := env.(slots := AfterList(s.onTrue, Push(env)).slots);
      NamedScopes(env, env1, ns);
      PushNamed(env1, ns);
      ListKeeps(cx, s.onFalse.value, Push(env1), ns, r.st, fuel, slot);
    }
  }

  /** The environments of the parts of a loop. */
  lemma LoopNamed(s: Stmt, env: Env, ns: SlotNames)
    requires s.Loop? && SimpleStmt(s) && |env.scopes| > 0 && Named(env, ns) && NamesAt(ns, env.slots, Declares(s))
    ensures NamesAt(ns, env.slots, DeclaresHead(s.kind)) && |Push(env).scopes| > 0 && Named(Push(env), ns)
    ensures var env1 := LoopEnv(s.kind, env);
            && |env1.scopes| > 0 && Named(env1, ns) && Named(Push(env1), ns)
            && NamesAt(ns, Push(env1).slots, DeclaresAll(s.body))
  {
    hide Named, NamesAt;
    NamesSplit(ns, env.slots, DeclaresHead(s.kind), DeclaresAll(s.body));
    PushNamed(env, ns);
    LoopEnvNamed(s.kind, env, ns);
    PushNamed(LoopEnv(s.kind, env), ns);
  }

  lemma {:induction false} LoopKeeps(cx: Context, s: Stmt, env: Env, ns: SlotNames, st: State, fuel: nat, slot: nat)
    requires s.Loop? && SimpleStmt(s) && |env.scopes| > 0 && Named(env, ns) && NamesAt(ns, env.slots, Declares(s))
    requires PureCalls(cx.ops)
    ensures Keeps(Exec(cx, s, env, st, fuel), false, ns, slot, AssignedBy(s), st.mem)
    decreases fuel, s, 2
  {
    hide Named, NamesAt, SameSlot, ExecTest, ExecBody, ExecList, PureCalls, LoopEnv;
    LoopNamed(s, env, ns);
    match s.kind
    case For(init, _) =>
      ListKeeps(cx, init, Push(env), ns, st, fuel, slot);
      var o := ExecList(cx, init, Push(env), st, fuel);
      if o.Normal? {
        TestKeeps(cx, s, env, ns, o.st, fuel, slot);
        KeepsOn(ns, slot, st.mem, o.st.mem);
      }
    case While => TestKeeps(cx, s, env, ns, st, fuel, slot);
    case Do => BodyKeeps(cx, s, env, ns, st, fuel, slot);
  }

  lemma KeepsOn(ns: SlotNames, slot: nat, a: Memory, b: Memory)
    ensures forall c | SameSlot(a, b, slot) && SameSlot(b, c, slot) :: SameSlot(a, c, slot)
  {
    SameAlways(slot);
  }

  lemma {:induction false} TestKeeps(cx: Context, s: Stmt, env: Env, ns: SlotNames, st: State, fuel: nat, slot: nat)
    requires s.Loop? && SimpleStmt(s) && |env.scopes| > 0 && Named(env, ns) && NamesAt(ns, env.slots, Declares(s))
    requires PureCalls(cx.ops)
    ensures Keeps(ExecTest(cx, s, env, st, fuel), false, ns, slot, AssignedBy(s), st.mem)
    decreases fuel, s, 0
  {
    hide Named, NamesAt, SameSlot, ExecBody, PureCalls, LoopEnv, Eval, IsTrue;
    LoopNamed(s, env, ns);
    var env1 := LoopEnv(s.kind, env);
    EffectFreeAssigns(s.cond);
    EvalKeeps(cx, s.cond, env1, ns, st, slot);
    var r := Eval(cx, s.cond, env1, st);
    if fuel > 0 {
      BodyKeeps(cx, s, env, ns, r.st, fuel - 1, slot);
      KeepsOn(ns, slot, st.mem, r.st.mem);
    }
  }

  lemma {:induction false} BodyKeeps(cx: Context, s: Stmt, env: Env, ns: SlotNames, st: State, fuel: nat, slot: nat)
    requires s.Loop? && SimpleStmt(s) && |env.scopes| > 0 && Named(env, ns) && NamesAt(ns, env.slots, Declares(s))
    requires PureCalls(cx.ops)
    ensures Keeps(ExecBody(cx, s, env, st, fuel), false, ns, slot, AssignedBy(s), st.mem)
    decreases fuel, s, 1
  {
    hide Named, NamesAt, SameSlot, ExecTest, ExecList, PureCalls, LoopEnv, Eval;
    LoopNamed(s, env, ns);
    var env1 := LoopEnv(s.kind, env);
    ListKeeps(cx, s.body, Push(env1), ns, st, fuel, slot);
    var o := ExecList(cx, s.body, Push(env1), st, fuel);
    if o.Normal? {
      var st1 := IterationEnd(cx, s, env1, o.st);
      if Outside(ns, slot, AssignedBy(s)) { IterationKeeps(cx, s, env1, ns, o.st, slot); }
      TestKeeps(cx, s, env, ns, st1, fuel, slot);
      KeepsOn(ns, slot, st.mem, o.st.mem);
      KeepsOn(ns, slot, o.st.mem, st1.mem);
    }
  }

  /** The state after the iteration expression of a loop, if it has one. */
  function IterationEnd(cx: Context, s: Stmt, env1: Env, st: State): State
    requires s.Loop?
  {
    if s.kind.For? && s.kind.iteration.Some? then Eval(cx, s.kind.iteration.value, env1, st).st else st
  }

  lemma IterationKeeps(cx: Context, s: Stmt, env1: Env, ns: SlotNames, st: State, slot: nat)
    requires s.Loop? && SimpleStmt(s) && Named(env1, ns) && PureCalls(cx.ops) && Outside(ns, slot, AssignedBy(s))
    ensures SameSlot(st.mem, IterationEnd(cx, s, env1, st).mem, slot)
  {
    hide Named, SameSlot, Eval, PureCalls;
    SameAlways(slot);
    if s.kind.For? && s.kind.iteration.Some? { EvalKeeps(cx, s.kind.iteration.value, env1, ns, st, slot); }
  }

  lemma NameAt(ns: SlotNames, from: nat, name: VarName)
    requires NamesAt(ns, from, [name])
    ensures from < |ns| && ns[from] == name
  {
    assert ns[from] == ns[from..from + 1][0];
  }

  lemma {:induction false} ListKeeps(cx: Context, ss: Stmts, env: Env, ns: SlotNames, st: State, fuel: nat, slot: nat)
    requires SimpleStmts(ss) && |env.scopes| > 0 && Named(env, ns) && NamesAt(ns, env.slots, DeclaresAll(ss))
    requires PureCalls(cx.ops)
    ensures Keeps(ExecList(cx, ss, env, st, fuel), AllLoopFree(ss), ns, slot, AssignedByAll(ss), st.mem)
    decreases fuel, ss, 1
  {
    hide Named, NamesAt, SameSlot, Exec, PureCalls;
    SameAlways(slot);
    match ss
    case NoStmts =>
    case ConsStmt(s, rest) =>
      NamesSplit(ns, env.slots, Declares(s), DeclaresAll(rest));
      ExecKeeps(cx, s, env, ns, st, fuel, slot);
      AfterNamed(s, env, ns);
      var o := Exec(cx, s, env, st, fuel);
      if o.Normal? {
        ListKeeps(cx, rest, After(s, env), ns, o.st, fuel, slot);
        KeepsOn(ns, slot, st.mem, o.st.mem);
      }
  }
}
