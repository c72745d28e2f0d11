/**
The reference semantics of AX: nested scopes, lvalues and rvalues, structured control flow.
Nothing here mentions blocks, registers or branches.
*/
module Semantics {
  import opened Types
  import opened Ast
  import opened Overloads

  // ---------------------------------------------------------------------------------------
  // Environments

  /** What a name can stand for in a symbol table. */
  datatype Key = Name(id: string) | Token(attrTy: Ty, attrName: string)

  /** A variable: the static slot that stores it and its type. */
  datatype Var = Var(slot: nat, ty: Ty)

  type Scope = map<Key, Var>

  /** The scopes that are open, outermost first, and the number of slots allocated so far. */
  datatype Env = Env(scopes: seq<Scope>, slots: nat)

  /** The innermost declaration of a key. */
  function Lookup(scopes: seq<Scope>, key: Key): Option<Var> {
    if |scopes| == 0 then None
    else if key in scopes[|scopes| - 1] then Some(scopes[|scopes| - 1][key])
    else Lookup(scopes[..|scopes| - 1], key)
  }

  /** Attributes are registered in the outermost scope and are never looked up anywhere else. */
  function LookupAttribute(env: Env, key: Key): Option<Var> {
    if |env.scopes| == 0 || key !in env.scopes[0] then None else Some(env.scopes[0][key])
  }

  function Push(env: Env): Env {
    env.(scopes := env.scopes + [map[]])
  }

  predicate CanDeclare(env: Env, name: string) {
    |env.scopes| > 0 && Name(name) !in env.scopes[|env.scopes| - 1]
  }

  /** The environment once `name` owns the next slot; the name is in scope in its own initialiser. */
  function Declared(env: Env, ty: Ty, name: string): Env {
    if |env.scopes| == 0 then env
    else
      var top := |env.scopes| - 1;
      Env(env.scopes[top := env.scopes[top][Name(name) := Var(env.slots, ty)]], env.slots + 1)
  }

  /** The environment after a statement. Slots are static: every declaration in the text owns one. */
  function After(s: Stmt, env: Env): Env {
    match s
    case ExprStmt(_) => env
    case Declare(ty, name, _) => Declared(env, ty, name)
    case Block(body) => env.(slots := AfterList(body, Push(env)).slots)
    case StatementList(ss) => AfterList(ss, env)
    case If(_, onTrue, onFalse) =>
      var env1 := env.(slots := AfterList(onTrue, Push(env)).slots);
      if onFalse.Some? then env1.(slots := AfterList(onFalse.value, Push(env1)).slots) else env1
    case Loop(kind, _, body) =>
      env.(slots := AfterList(body, Push(LoopEnv(kind, env))).slots)
    case Jump(_) => env
  }

  function AfterList(ss: Stmts, env: Env): Env {
    match ss
    case NoStmts => env
    case ConsStmt(s, rest) => AfterList(rest, After(s, env))
  }

  /** The environment of a loop: a new scope holding whatever a `for` initialiser declares. */
  function LoopEnv(kind: LoopKind, env: Env): Env {
    match kind
    case For(init, _) => AfterList(init, Push(env))
    case While => Push(env)
    case Do => Push(env)
  }

  // ---------------------------------------------------------------------------------------
  // Static types

  /** What is known of an expression before running it. A cast to the type the operand already
      has is accepted but leaves no value behind, so it is only good as a whole statement. */
  datatype Static = Ill | Mute | Typed(ty: Ty, ptr: bool)

  type Functions = map<string, seq<Signature>>

  function TypeOfBinary(op: BinOp, lhs: Ty, rhs: Ty): Static {
    TypeOfOperator(op, Promotion(lhs, rhs), Promotion(rhs, lhs))
  }

  /** The type of a binary operator once scalars that go with matrices have become matrices. */
  function TypeOfOperator(op: BinOp, lhs: Ty, rhs: Ty): Static {
    if IsProduct(op, lhs, rhs) then Typed(Vec(ProductElem(lhs, rhs), ProductSize(lhs, rhs)), false)
    else
      match OperandType(op, lhs, rhs)
      case None => Ill
      case Some(t) => Typed(ResultType(op, t, ZipSize(lhs, rhs)), false)
  }

  /** What can stand on the right of an assignment or be passed to a function. */
  predicate IsOperand(ty: Ty) {
    ty.IsScalar() || ty.IsArray()
  }

  /** Scalars take scalars; arrays take arrays of their size and scalars. */
  predicate CanAssign(target: Static, rhs: Ty) {
    target.Typed? && target.ptr &&
    (if target.ty.IsScalar() then rhs.IsScalar()
     else
       target.ty.IsArray() && !target.ty.elem.Bool? &&
       if rhs.IsScalar() then target.ty.IsMatrix() ==> target.ty.elem.IsFloat()
       else rhs.IsArray() && rhs.size == target.ty.size)
  }

  /** The type a ternary has, given the types of its two values. There are no pointers to void. */
  function TypeOfTernary(t: Static, f: Static): Static
    requires t.Typed? && f.Typed?
  {
    if t == f then t
    else if t.ty == f.ty && t.ty != Void then Typed(t.ty, false)
    else if t.ty.IsScalar() && f.ty.IsScalar() then Typed(TypePrecedence(t.ty, f.ty), false)
    else if (t.ty.IsArray() || f.ty.IsArray()) && (t.ty.IsArray() || t.ty.IsScalar()) &&
            (f.ty.IsArray() || f.ty.IsScalar()) && (t.ty.IsArray() && f.ty.IsArray() ==> t.ty.size == f.ty.size) then
      var ty := Vec(TypePrecedence(ElementOf(t.ty), ElementOf(f.ty)), ZipSize(t.ty, f.ty));
      // a matrix made of a scalar needs a floating point zero
      if ty.IsMatrix() && !ty.elem.IsFloat() && (t.ty.IsScalar() || f.ty.IsScalar()) then Ill else Typed(ty, false)
    else Ill
  }

  function TypeOfVar(v: Option<Var>): Static {
    if v.Some? then Typed(v.value.ty, true) else Ill
  }

  function TypeOfUnary(op: UnOp, ty: Ty): Static {
    if ty.IsArray() then
      if op == UnaryMinus || ty.elem.IsInteger() then Typed(if op == LogicalNot then Vec(Bool, ty.size) else ty, false)
      else Ill
    else if !ty.IsScalar() || (op == BitNot && ty.IsFloat()) then Ill
    else if op == LogicalNot then Typed(Bool, false)
    else Typed(UnaryType(ty), false)
  }

  /** Booleans are widened before they are negated. */
  function UnaryType(ty: Ty): Ty {
    if ty == Bool then Int32 else ty
  }

  /** Rows and columns are combined with an int32 in one instruction, so they have to be of that type. */
  function TypeOfEntry(row: Ty, column: Ty, m: Static): Static {
    if m.Typed? && m.ptr && m.ty.IsMatrix() && row == Int32 && column == Int32 then Typed(m.ty.elem, true) else Ill
  }

  function Check(fs: Functions, e: Expr, env: Env): Static {
    match e
    case Literal(ty, _) => if ty.IsScalar() then Typed(ty, false) else Ill
    case Local(name) => TypeOfVar(Lookup(env.scopes, Name(name)))
    case Attribute(ty, name) => TypeOfVar(LookupAttribute(env, Token(ty, name)))
    case Component(index, vec) =>
      var i := Check(fs, index, env);
      var v := Check(fs, vec, env);
      if i.Typed? && i.ty.IsInteger() && v.Typed? && v.ptr && v.ty.Vec? then Typed(v.ty.elem, true)
      else Ill
    case MatrixEntry(row, column, m) =>
      var i := Check(fs, row, env);
      var j := Check(fs, column, env);
      var v := Check(fs, m, env);
      if i.Typed? && j.Typed? && v.Typed? then TypeOfEntry(i.ty, j.ty, v) else Ill
    case Unary(op, a) =>
      var t := Check(fs, a, env);
      if op == UnaryPlus then t
      else if t.Typed? then TypeOfUnary(op, t.ty)
      else Ill
    case Binary(op, l, r) =>
      var a := Check(fs, l, env);
      var b := Check(fs, r, env);
      if a.Typed? && b.Typed? then TypeOfBinary(op, a.ty, b.ty) else Ill
    case Logical(_, l, r) =>
      var a := Check(fs, l, env);
      var b := Check(fs, r, env);
      if a.Typed? && a.ty.IsScalar() && b.Typed? && b.ty.IsScalar() then Typed(Bool, false) else Ill
    case Ternary(c, t, f) =>
      var a := Check(fs, c, env);
      var x := if t.Some? then Check(fs, t.value, env) else a;
      var y := Check(fs, f, env);
      if a.Typed? && a.ty.IsScalar() && x.Typed? && y.Typed? then TypeOfTernary(x, y) else Ill
    case Comma(es) => if es.NoExprs? then Ill else CheckComma(fs, es, env)
    case Assign(l, op, r) =>
      var a := Check(fs, l, env);
      var b := Check(fs, r, env);
      if !a.Typed? || !b.Typed? then Ill
      else
        var x := if op.None? then b else TypeOfBinary(op.value, a.ty, b.ty);
        if x.Typed? && IsOperand(x.ty) && CanAssign(a, x.ty) then a else Ill
    case Crement(v, _, post) =>
      var a := Check(fs, v, env);
      if a.Typed? && a.ptr && a.ty.IsScalar() && a.ty != Bool then Typed(a.ty, !post) else Ill
    case Cast(ty, inner) =>
      var a := Check(fs, inner, env);
      if !a.Typed? || !a.ty.IsScalar() || !ty.IsScalar() then Ill
      else if a.ty == ty then Mute
      else Typed(ty, false)
    case Call(f, args) =>
      var ts := CheckArgs(fs, args, env);
      if f !in fs || ts.None? then Ill
      else
        var r := Resolve(fs[f], ts.value);
        if r.target.Some? then Typed(r.target.value.result, false) else Ill
    case ArrayPack(es) =>
      if es.NoExprs? then Ill
      else if es.tail.NoExprs? then Check(fs, es.head, env)
      else
        var ts := CheckArgs(fs, es, env);
        if ts.Some? && AllScalars(ts.value) then
          Typed(Vec(PackType(ElementTypes(ts.value)), |ts.value|), false)
        else Ill
  }

  predicate AllScalars(ts: seq<ArgTy>) {
    forall t | t in ts :: IsScalarValue(t)
  }

  function ElementTypes(ts: seq<ArgTy>): (rs: seq<Ty>)
    ensures AllScalars(ts) ==> forall r | r in rs :: r.IsScalar()
  {
    assert AllScalars(ts) ==> forall i | 0 <= i < |ts| :: IsScalarValue(ts[i]);
    seq(|ts|, i requires 0 <= i < |ts| => ElementType(ts[i]))
  }

  /** Scalars are passed by value, arrays by pointer. */
  function ArgType(ty: Ty): ArgTy {
    if ty.IsArray() then Pointer(ByValue(ty)) else ByValue(ty)
  }

  function CheckComma(fs: Functions, es: Exprs, env: Env): Static {
    match es
    case NoExprs => Mute
    case ConsExpr(e, rest) =>
      var t := Check(fs, e, env);
      if !t.Typed? then Ill else if rest.NoExprs? then t else CheckComma(fs, rest, env)
  }

  function CheckArgs(fs: Functions, es: Exprs, env: Env): Option<seq<ArgTy>> {
    match es
    case NoExprs => Some([])
    case ConsExpr(e, rest) =>
      var t := Check(fs, e, env);
      var ts := CheckArgs(fs, rest, env);
      if t.Typed? && IsOperand(t.ty) && ts.Some? then Some([ArgType(t.ty)] + ts.value) else None
  }

  predicate CheckCondition(fs: Functions, e: Expr, env: Env) {
    var t := Check(fs, e, env);
    t.Typed? && t.ty.IsScalar()
  }

  predicate CheckStmt(fs: Functions, s: Stmt, env: Env, inLoop: bool) {
    match s
    case ExprStmt(e) => !Check(fs, e, env).Ill?
    case Declare(ty, name, initial) =>
      CanDeclare(env, name) &&
      (initial.Some? ==>
         var t := Check(fs, initial.value, Declared(env, ty, name));
         t.Typed? && IsOperand(t.ty) && CanAssign(Typed(ty, true), t.ty))
    case Block(body) => CheckStmts(fs, body, Push(env), inLoop)
    case StatementList(ss) => CheckStmts(fs, ss, env, inLoop)
    case If(c, onTrue, onFalse) =>
      CheckCondition(fs, c, env) && CheckStmts(fs, onTrue, Push(env), inLoop) &&
      (onFalse.Some? ==>
         var env1 := env.(slots := AfterList(onTrue, Push(env)).slots);
         CheckStmts(fs, onFalse.value, Push(env1), inLoop))
    case Loop(kind, c, body) =>
      (match kind
       case For(init, iteration) =>
         CheckStmts(fs, init, Push(env), inLoop) &&
         (iteration.Some? ==> !Check(fs, iteration.value, LoopEnv(kind, env)).Ill?)
       case While => true
       case Do => true) &&
      CheckStmts(fs, body, Push(LoopEnv(kind, env)), true) &&
      CheckCondition(fs, c, LoopEnv(kind, env))
    case Jump(k) => k == Return || inLoop
  }

  predicate CheckStmts(fs: Functions, ss: Stmts, env: Env, inLoop: bool) {
    match ss
    case NoStmts => true
    case ConsStmt(s, rest) => CheckStmt(fs, s, env, inLoop) && CheckStmts(fs, rest, After(s, env), inLoop)
  }

  // ---------------------------------------------------------------------------------------
  // Values and state

  /** A cell of a slot: scalars live in cell 0, containers in cells 0 to size - 1. */
  datatype Address = Address(slot: nat, cell: int)

  /** The value of an expression: a number or an array that has been computed, or the address of an lvalue
      that is not loaded yet. */
  datatype Value = Num(n: int) | Ptr(a: Address) | Arr(ns: seq<int>)

  type Memory = map<Address, int>

  /** Memory, and the external state that called functions act on. */
  datatype State = State(mem: Memory, ext: int)

  /** The scalar operations, left open: every theorem holds for all of them. */
  datatype Ops = Ops(
    bin: (BinOp, Ty, int, int) -> int,
    un: (UnOp, Ty, int) -> int,
    conv: (Ty, Ty, int) -> int,
    truth: (Ty, int) -> bool,
    product: (Ty, seq<int>, seq<int>, nat) -> int,
    call: (Signature, seq<Value>, seq<seq<int>>, int) -> Called)

  /** What a called function does: the elements of its result, what it leaves behind its pointers, and the
      external state. It is given its arguments, the contents behind those that are pointers, and the
      external state. */
  datatype Called = Called(result: nat -> int, cells: (nat, nat) -> int, ext: int)

  /** What a program runs against: the scalar operations and the functions it may call. */
  datatype Context = Context(ops: Ops, functions: Functions)

  function Get(mem: Memory, a: Address): int {
    if a in mem then mem[a] else 0
  }

  function Read(st: State, v: Value): int {
    match v
    case Num(n) => n
    case Ptr(a) => Get(st.mem, a)
    case Arr(_) => 0
  }

  /** An element of an array; a number stands for an array of any size. */
  function ElementAt(mem: Memory, v: Value, i: nat): int {
    match v
    case Num(n) => n
    case Ptr(a) => Get(mem, Address(a.slot, i))
    case Arr(ns) => if i < |ns| then ns[i] else 0
  }

  /** Assigning to something that is not an lvalue never passes `Check`. */
  function Write(st: State, v: Value, n: int): State {
    if v.Ptr? then st.(mem := st.mem[v.a := n]) else st
  }

  /** The contents of the cells of a slot. */
  function Cells(mem: Memory, slot: nat, size: nat): seq<int> {
    seq(size, i => Get(mem, Address(slot, i)))
  }

  function SetCells(mem: Memory, slot: nat, ns: seq<int>): Memory {
    mem + map i | 0 <= i < |ns| :: Address(slot, i) := ns[i]
  }

  function Convert(ops: Ops, from: Ty, to: Ty, n: int): int {
    if from == to then n else ops.conv(from, to, n)
  }

  function Truth(ops: Ops, ty: Ty, n: int): int {
    if ops.truth(ty, n) then 1 else 0
  }

  /** A binary operator on two numbers of the given types. */
  function BinaryValue(ops: Ops, op: BinOp, lt: Ty, a: int, rt: Ty, b: int): int {
    match OperandType(op, lt, rt)
    case None => 0
    case Some(t) => ops.bin(op, t, Convert(ops, lt, t, a), Convert(ops, rt, t, b))
  }

  /** A binary operator on two values: scalars are loaded, and made matrices if they go with one. */
  function BinaryResult(ops: Ops, op: BinOp, lt: Ty, a: Value, rt: Ty, b: Value, st: State): Value {
    var lt1, rt1 := Promotion(lt, rt), Promotion(rt, lt);
    OperatorResult(ops, op, lt1, PromotedValue(ops, lt, lt1, Rvalue(st, a, lt)),
                   rt1, PromotedValue(ops, rt, rt1, Rvalue(st, b, rt)), st.mem)
  }

  function PromotedValue(ops: Ops, from: Ty, to: Ty, v: Value): Value {
    if from == to || !to.Vec? then v else Arr(Spread(Convert(ops, from, to.elem, Number(v)), 0, to.size))
  }

  function Number(v: Value): int {
    if v.Num? then v.n else 0
  }

  /** Arrays are computed element by element, and comparing them gives one boolean. */
  function OperatorResult(ops: Ops, op: BinOp, lt: Ty, a: Value, rt: Ty, b: Value, mem: Memory): Value {
    if IsProduct(op, lt, rt) then ProductResult(ops, lt, a, rt, b, mem)
    else if !IsElementwise(op, lt, rt) then Num(BinaryValue(ops, op, lt, Number(a), rt, Number(b)))
    else
      var t := OperandType(op, lt, rt).value;
      var ns := Zip(ops, op, t, ElementOf(lt), a, ElementOf(rt), b, mem, ZipSize(lt, rt));
      if op.IsRelational() then Num(Reduce(ops, op, ns)) else Arr(ns)
  }

  /** Products are computed by functions of the standard library. */
  function ProductResult(ops: Ops, lt: Ty, a: Value, rt: Ty, b: Value, mem: Memory): Value
    requires lt.Vec? && rt.Vec?
  {
    var t := ProductElem(lt, rt);
    ProductOf(ops, t, CastArray(ops, lt.elem, t, a, mem, lt.size), lt.size,
              CastArray(ops, rt.elem, t, b, mem, rt.size), rt.size, ProductSize(lt, rt), mem)
  }

  function ProductOf(ops: Ops, t: Ty, a: Value, m: nat, b: Value, n: nat, size: nat, mem: Memory): Value {
    var ms, ns := Contents(mem, a, m), Contents(mem, b, n);
    Arr(seq(size, i requires 0 <= i => ops.product(t, ms, ns, i)))
  }

  function Contents(mem: Memory, v: Value, size: nat): seq<int> {
    seq(size, i requires 0 <= i => ElementAt(mem, v, i))
  }

  function Zip(ops: Ops, op: BinOp, t: Ty, lt: Ty, a: Value, rt: Ty, b: Value, mem: Memory, size: nat): (ns: seq<int>)
    ensures |ns| == size
  {
    if size == 0 then []
    else
      var i := size - 1;
      Zip(ops, op, t, lt, a, rt, b, mem, i) +
      [ops.bin(op, t, Convert(ops, lt, t, ElementAt(mem, a, i)), Convert(ops, rt, t, ElementAt(mem, b, i)))]
  }

  /** Numbers of the given types, converted to one. */
  function ConvertEach(ops: Ops, ts: seq<Ty>, to: Ty, ns: seq<int>): (rs: seq<int>)
    requires |ts| == |ns|
    ensures |rs| == |ns|
  {
    if |ns| == 0 then []
    else ConvertEach(ops, ts[..|ns| - 1], to, ns[..|ns| - 1]) + [Convert(ops, ts[|ns| - 1], to, ns[|ns| - 1])]
  }

  function ReadEach(st: State, vs: seq<Value>): seq<int> {
    seq(|vs|, i requires 0 <= i < |vs| => Read(st, vs[i]))
  }

  /** The elements of an array, converted. */
  function CastCells(ops: Ops, from: Ty, to: Ty, mem: Memory, v: Value, size: nat): (ns: seq<int>)
    ensures |ns| == size
  {
    if size == 0 then []
    else CastCells(ops, from, to, mem, v, size - 1) + [Convert(ops, from, to, ElementAt(mem, v, size - 1))]
  }

  /** Arrays are equal if all elements are, and different if some are. */
  function Reduce(ops: Ops, op: BinOp, ns: seq<int>): int {
    if |ns| == 0 then 0
    else if |ns| == 1 then ns[0]
    else ops.bin(ReduceOp(op), Bool, Reduce(ops, op, ns[..|ns| - 1]), ns[|ns| - 1])
  }

  function ReduceOp(op: BinOp): BinOp {
    if op == Equals then BitAnd else BitOr
  }

  /** A sign or a complement of each element. */
  function UnaryEach(ops: Ops, op: UnOp, ty: Ty, v: Value, mem: Memory, size: nat): (ns: seq<int>)
    ensures |ns| == size
  {
    if size == 0 then []
    else
      UnaryEach(ops, op, ty, v, mem, size - 1) + [ops.un(op, ty, ElementAt(mem, v, size - 1))]
  }

  /** The value stored by an assignment. A boolean target tests its source against zero instead
      of truncating it. */
  function AssignedValue(ops: Ops, target: Ty, source: Ty, n: int): int {
    if target == Bool then BinaryValue(ops, NotEquals, Int32, 0, source, n)
    else Convert(ops, source, target, n)
  }

  /** What an operand of an assignment or a call is once scalars have been loaded. */
  function Rvalue(st: State, v: Value, ty: Ty): Value {
    if ty.IsArray() then v else Num(Read(st, v))
  }

  /** Store a value through an lvalue: a number to a scalar, and a number or an array to each element of an
      array, one after the other. */
  function AssignTo(ops: Ops, st: State, target: Value, ty: Ty, source: Value, from: Ty): State {
    if !ty.IsArray() then Write(st, target, AssignedValue(ops, ty, from, Number(source)))
    else if !target.Ptr? then st
    else
      // a scalar that is assigned to a matrix becomes a matrix first
      var from1 := Promotion(from, ty);
      st.(mem := AssignCells(ops, st.mem, target.a.slot, ty.elem, PromotedValue(ops, from, from1, source),
                             ElementOf(from1), ty.size))
  }

  function AssignCells(ops: Ops, mem: Memory, slot: nat, elem: Ty, source: Value, from: Ty, size: nat): Memory {
    if size == 0 then mem
    else
      var before := AssignCells(ops, mem, slot, elem, source, from, size - 1);
      before[Address(slot, size - 1) := Convert(ops, from, elem, ElementAt(before, source, size - 1))]
  }

  function CastValue(ops: Ops, to: Ty, from: Ty, n: int): int {
    if to == Bool then Truth(ops, from, n) else Convert(ops, from, to, n)
  }

  /** Arguments are only cast when the chosen overload matched implicitly. */
  function CastArgs(ops: Ops, implicit: bool, params: seq<Parameter>, ts: seq<ArgTy>, vs: seq<Value>, mem: Memory)
    : (rs: seq<Value>)
    requires |params| == |ts| == |vs|
    ensures |rs| == |vs|
  {
    if |vs| == 0 then []
    else
      [if implicit then CastArg(ops, params[0].ty, ts[0], vs[0], mem) else vs[0]] +
      CastArgs(ops, implicit, params[1..], ts[1..], vs[1..], mem)
  }

  /** A scalar is converted; an array with other elements is copied to a new array of converted elements. */
  function CastArg(ops: Ops, to: ArgTy, from: ArgTy, v: Value, mem: Memory): Value {
    if !from.Pointer? then Num(CastValue(ops, ElementType(to), ElementType(from), Number(v)))
    else
      CastArray(ops, ElementOf(ElementType(from)), ElementOf(ElementType(to)), v, mem, SizeBehind(from))
  }

  function CastArray(ops: Ops, from: Ty, to: Ty, v: Value, mem: Memory, size: nat): Value {
    if from == to then v else Arr(CastCells(ops, from, to, mem, v, size))
  }

  /** The number of cells behind a pointer. */
  function SizeBehind(t: ArgTy): nat {
    if ElementType(t).Vec? then ElementType(t).size else 1
  }

  /** What a call does to memory and the external state, and its result. */
  function CallEffect(ops: Ops, sig: Signature, vs: seq<Value>, st: State): Result
    requires |sig.params| == |vs|
  {
    var r := ops.call(sig, vs, Behind(sig.params, vs, st.mem), st.ext);
    Result(State(PutBehind(sig.params, vs, r.cells, st.mem, |vs|), r.ext),
           if sig.result.IsArray() then Arr(seq(sig.result.size, r.result)) else Num(r.result(0)))
  }

  /** The contents behind the arguments that are pointers. */
  function Behind(params: seq<Parameter>, vs: seq<Value>, mem: Memory): seq<seq<int>>
    requires |params| == |vs|
  {
    seq(|vs|, i requires 0 <= i < |vs| =>
      if vs[i].Ptr? then Cells(mem, vs[i].a.slot, SizeBehind(params[i].ty)) else [])
  }

  /** A function writes behind the pointers that its signature does not declare read-only. */
  function PutBehind(params: seq<Parameter>, vs: seq<Value>, cells: (nat, nat) -> int, mem: Memory, n: nat): Memory
    requires n <= |vs| == |params|
  {
    if n == 0 then mem
    else
      var i := n - 1;
      var before := PutBehind(params, vs, cells, mem, i);
      var size := SizeBehind(params[i].ty);
      if !vs[i].Ptr? || params[i].readOnly then before
      else SetCells(before, vs[i].a.slot, seq(size, cell requires 0 <= cell => cells(i, cell)))
  }

  // ---------------------------------------------------------------------------------------
  // Expressions

  datatype Result = Result(st: State, v: Value)

  function TyOf(fs: Functions, e: Expr, env: Env): Ty {
    var t := Check(fs, e, env);
    if t.Typed? then t.ty else Void
  }

  function Eval(cx: Context, e: Expr, env: Env, st: State): Result {
    match e
    case Literal(_, n) => Result(st, Num(n))
    case Local(name) => Result(st, AddressOf(Lookup(env.scopes, Name(name))))
    case Attribute(ty, name) => Result(st, AddressOf(LookupAttribute(env, Token(ty, name))))
    case Component(index, vec) =>
      var i := Eval(cx, index, env, st);
      var v := Eval(cx, vec, env, i.st);
      // the index is loaded once the container has been evaluated
      Result(v.st, if v.v.Ptr? then Ptr(Address(v.v.a.slot, Read(v.st, i.v))) else v.v)
    case MatrixEntry(row, column, m) =>
      var i := Eval(cx, row, env, st);
      var j := Eval(cx, column, env, i.st);
      var v := Eval(cx, m, env, j.st);
      Result(v.st, EntryOf(cx.ops, TyOf(cx.functions, m, env), v.v, Read(v.st, i.v), Read(v.st, j.v)))
    case Unary(op, a) =>
      var r := Eval(cx, a, env, st);
      var ty := TyOf(cx.functions, a, env);
      if op == UnaryPlus then r
      else if ty.IsArray() then Result(r.st, Arr(UnaryEach(cx.ops, op, ty.elem, r.v, r.st.mem, ty.size)))
      else if op == LogicalNot then Result(r.st, Num(cx.ops.un(op, ty, Read(r.st, r.v))))
      else
        var wide := UnaryType(ty);
        Result(r.st, Num(cx.ops.un(op, wide, Convert(cx.ops, ty, wide, Read(r.st, r.v)))))
    case Binary(op, l, r) =>
      var a := Eval(cx, l, env, st);
      var b := Eval(cx, r, env, a.st);
      // both operands are loaded after both have been evaluated
      Result(b.st, BinaryResult(cx.ops, op, TyOf(cx.functions, l, env), a.v, TyOf(cx.functions, r, env), b.v, b.st))
    case Logical(isAnd, l, r) =>
      var a := Eval(cx, l, env, st);
      var x := Truth(cx.ops, TyOf(cx.functions, l, env), Read(a.st, a.v));
      if (x == 1) != isAnd then Result(a.st, Num(x))
      else
        var b := Eval(cx, r, env, a.st);
        Result(b.st, Num(Truth(cx.ops, TyOf(cx.functions, r, env), Read(b.st, b.v))))
    case Ternary(c, t, f) =>
      var a := Eval(cx, c, env, st);
      var isTrue := cx.ops.truth(TyOf(cx.functions, c, env), Read(a.st, a.v));
      var x := Check(cx.functions, if t.Some? then t.value else c, env);
      var y := Check(cx.functions, f, env);
      if !x.Typed? || !y.Typed? then a
      else
        var r := if !isTrue then Eval(cx, f, env, a.st)
                 else if t.Some? then Eval(cx, t.value, env, a.st)
                 else a;
        Result(r.st, Coerce(cx.ops, r, if isTrue then x else y, TypeOfTernary(x, y)))
    case Comma(es) => EvalComma(cx, es, env, st)
    case Assign(l, op, r) =>
      var lt := TyOf(cx.functions, l, env);
      var rt := TyOf(cx.functions, r, env);
      var a := Eval(cx, l, env, st);
      var b := Eval(cx, r, env, a.st);
      var v := if op.None? then Rvalue(b.st, b.v, rt)
               else BinaryResult(cx.ops, op.value, lt, a.v, rt, b.v, b.st);
      var ty := if op.None? then rt else CompoundType(op.value, lt, rt);
      Result(AssignTo(cx.ops, b.st, a.v, lt, v, ty), a.v)
    case Crement(v, increment, post) =>
      var ty := TyOf(cx.functions, v, env);
      var a := Eval(cx, v, env, st);
      var n := Read(a.st, a.v);
      var step := Convert(cx.ops, Int32, ty, if increment then 1 else -1);
      Result(Write(a.st, a.v, cx.ops.bin(Plus, ty, n, step)), if post then Num(n) else a.v)
    case Cast(ty, inner) =>
      var a := Eval(cx, inner, env, st);
      var from := TyOf(cx.functions, inner, env);
      if from == ty then a else Result(a.st, Num(CastValue(cx.ops, ty, from, Read(a.st, a.v))))
    case Call(f, args) =>
      var a := EvalArgs(cx, args, env, st);
      var ts := CheckArgs(cx.functions, args, env);
      if Check(cx.functions, e, env).Typed? then
        var r := Resolve(cx.functions[f], ts.value);
        ResolveFits(cx.functions[f], ts.value);
        CheckArgsShape(cx.functions, args, env);
        var vs := CastArgs(cx.ops, r.kind == Implicit, r.target.value.params, ts.value,
                           Rvalues(a.st, a.vs, ts.value), a.st.mem);
        CallEffect(cx.ops, r.target.value, vs, a.st)
      else Result(a.st, Num(0))
    case ArrayPack(es) =>
      // a pack of one element is that element
      if es.ConsExpr? && es.tail.NoExprs? then Eval(cx, es.head, env, st)
      else
        var a := EvalArgs(cx, es, env, st);
        var ts := CheckArgs(cx.functions, es, env);
        CheckArgsShape(cx.functions, es, env);
        if ts.None? || !AllScalars(ts.value) then Result(a.st, Num(0))
        else
          var tys := ElementTypes(ts.value);
          Result(a.st, Arr(ConvertEach(cx.ops, tys, PackType(tys), ReadEach(a.st, a.vs))))
  }

  /** Matrices are stored row by row. */
  function EntryOf(ops: Ops, ty: Ty, v: Value, row: int, column: int): Value {
    if !v.Ptr? then v
    else
      Ptr(Address(v.a.slot, ops.bin(Plus, Int32, ops.bin(Multiply, Int32, row, Dimension(ty)), column)))
  }

  function AddressOf(v: Option<Var>): Value {
    if v.Some? then Ptr(Address(v.value.slot, 0)) else Num(0)
  }

  function CompoundType(op: BinOp, lt: Ty, rt: Ty): Ty {
    var t := TypeOfBinary(op, lt, rt);
    if t.Typed? then t.ty else Void
  }

  /** A value of static type `from` as a value of type `to`: kept as it is, or loaded and converted. */
  function Coerce(ops: Ops, r: Result, from: Static, to: Static): Value {
    if from == to || !from.Typed? || !to.Typed? || (from.ty == to.ty && from.ty.IsArray()) then r.v
    else if from.ty.IsArray() then
      Arr(CastCells(ops, from.ty.elem, ElementOf(to.ty), r.st.mem, r.v, from.ty.size))
    else
      var n := Convert(ops, from.ty, ElementOf(to.ty), Read(r.st, r.v));
      if to.ty.IsArray() then Arr(Spread(n, 0, to.ty.size)) else Num(n)
  }

  function EvalComma(cx: Context, es: Exprs, env: Env, st: State): Result {
    match es
    case NoExprs => Result(st, Num(0))
    case ConsExpr(e, rest) =>
      var r := Eval(cx, e, env, st);
      if rest.NoExprs? then r else EvalComma(cx, rest, env, r.st)
  }

  datatype Results = Results(st: State, vs: seq<Value>)

  function Length(es: Exprs): nat {
    match es
    case NoExprs => 0
    case ConsExpr(_, rest) => 1 + Length(rest)
  }

  function EvalArgs(cx: Context, es: Exprs, env: Env, st: State): (r: Results)
    ensures |r.vs| == Length(es)
  {
    match es
    case NoExprs => Results(st, [])
    case ConsExpr(e, rest) =>
      var a := Eval(cx, e, env, st);
      var b := EvalArgs(cx, rest, env, a.st);
      Results(b.st, [a.v] + b.vs)
  }

  /** All scalar arguments are loaded after the last one has been evaluated. */
  function Rvalues(st: State, vs: seq<Value>, ts: seq<ArgTy>): (rs: seq<Value>)
    requires |vs| == |ts|
    ensures |rs| == |vs|
  {
    seq(|vs|, i requires 0 <= i < |vs| => Rvalue(st, vs[i], ElementType(ts[i])))
  }

  lemma CheckArgsShape(fs: Functions, es: Exprs, env: Env)
    ensures var ts := CheckArgs(fs, es, env); ts.Some? ==> |ts.value| == Length(es)
  {
    match es
    case NoExprs =>
    case ConsExpr(e, rest) => CheckArgsShape(fs, rest, env);
  }

  /** A resolved overload takes as many arguments as it is given. */
  lemma ResolveFits(group: seq<Signature>, inputs: seq<ArgTy>)
    ensures var r := Resolve(group, inputs);
            r.target.Some? ==> |r.target.value.params| == |inputs|
  {
    ResolveFromFits(group, inputs, Resolution(None, NoMatch));
  }

  lemma ResolveFromFits(group: seq<Signature>, inputs: seq<ArgTy>, best: Resolution)
    requires best.target.Some? ==> |best.target.value.params| == |inputs|
    ensures var r := ResolveFrom(group, inputs, best);
            r.target.Some? ==> |r.target.value.params| == |inputs|
  {
  }

  // ---------------------------------------------------------------------------------------
  // Statements

  /** How a statement ends. Timeout means that `fuel` loop tests were not enough. */
  datatype Outcome =
    | Timeout
    | Normal(st: State)
    | Broke(st: State)
    | Continued(st: State)
    | Returned(st: State)

  predicate IsTrue(cx: Context, c: Expr, env: Env, r: Result) {
    cx.ops.truth(TyOf(cx.functions, c, env), Read(r.st, r.v))
  }

  function Exec(cx: Context, s: Stmt, env: Env, st: State, fuel: nat): Outcome
    decreases fuel, s, 3
  {
    match s
    case ExprStmt(e) => Normal(Eval(cx, e, env, st).st)
    case Declare(ty, name, initial) => Normal(ExecDeclare(cx, ty, name, initial, env, st))
    case Block(body) => ExecList(cx, body, Push(env), st, fuel)
    case StatementList(ss) => ExecList(cx, ss, env, st, fuel)
    case If(c, onTrue, onFalse) =>
      var r := Eval(cx, c, env, st);
      if IsTrue(cx, c, env, r) then ExecList(cx, onTrue, Push(env), r.st, fuel)
      else if onFalse.Some? then
        var env1 := env.(slots := AfterList(onTrue, Push(env)).slots);
        ExecList(cx, onFalse.value, Push(env1), r.st, fuel)
      else Normal(r.st)
    case Loop(kind, c, body) =>
      (match kind
       case For(init, _) =>
         var o := ExecList(cx, init, Push(env), st, fuel);
         if o.Normal? then ExecTest(cx, s, env, o.st, fuel) else o
       case While => ExecTest(cx, s, env, st, fuel)
       case Do => ExecBody(cx, s, env, st, fuel))
    case Jump(k) =>
      match k
      case Return => Returned(st)
      case Break => Broke(st)
      case Continue => Continued(st)
  }

  function ExecDeclare(cx: Context, ty: Ty, name: string, initial: Option<Expr>, env: Env, st: State): State {
    if initial.None? then st
    else
      var env1 := Declared(env, ty, name);
      var r := Eval(cx, initial.value, env1, st);
      var from := TyOf(cx.functions, initial.value, env1);
      AssignTo(cx.ops, r.st, Ptr(Address(env.slots, 0)), ty, Rvalue(r.st, r.v, from), from)
  }

  function ExecList(cx: Context, ss: Stmts, env: Env, st: State, fuel: nat): Outcome
    decreases fuel, ss, 0
  {
    match ss
    case NoStmts => Normal(st)
    case ConsStmt(s, rest) =>
      var o := Exec(cx, s, env, st, fuel);
      if o.Normal? then ExecList(cx, rest, After(s, env), o.st, fuel) else o
  }

  /** A loop about to test its condition; each test costs one unit of fuel. */
  function ExecTest(cx: Context, l: Stmt, env: Env, st: State, fuel: nat): Outcome
    requires l.Loop?
    decreases fuel, l, 1
  {
    if fuel == 0 then Timeout
    else
      var env1 := LoopEnv(l.kind, env);
      var r := Eval(cx, l.cond, env1, st);
      if IsTrue(cx, l.cond, env1, r) then ExecBody(cx, l, env, r.st, fuel - 1) else Normal(r.st)
  }

  /** A loop about to run its body; `continue` goes on to the iteration expression. */
  function ExecBody(cx: Context, l: Stmt, env: Env, st: State, fuel: nat): Outcome
    requires l.Loop?
    decreases fuel, l, 2
  {
    var env1 := LoopEnv(l.kind, env);
    var o := ExecList(cx, l.body, Push(env1), st, fuel);
    match o
    case Timeout => o
    case Returned(_) => o
    case Broke(st1) => Normal(st1)
    case _ =>
      var st1 := if l.kind.For? && l.kind.iteration.Some?
                 then Eval(cx, l.kind.iteration.value, env1, o.st).st else o.st;
      ExecTest(cx, l, env, st1, fuel)
  }
}
