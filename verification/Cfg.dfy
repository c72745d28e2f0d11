/**
The target of code generation: a function made of basic blocks, run one instruction at a time.
Loading an element of an array is one instruction here, and so are packing elements into a new array and
multiplying matrices: nothing but the register of the new array leads to it.
Reading an undefined register, falling off a block, or entering a phi from an edge it does not
list is a stuck state, so reaching a result also shows that none of these happened.
*/
module Cfg {
  import opened Types
  import opened Overloads
  import opened Semantics

  datatype Operand = Const(n: int) | Slot(s: nat) | Reg(r: nat)

  datatype Arm = Arm(pred: nat, val: Operand)

  datatype Instr =
    | Load(dst: nat, addr: Operand)
    | Store(addr: Operand, val: Operand)
    | Gep(dst: nat, base: Operand, index: Operand)
    | Element(dst: nat, base: Operand, cell: nat)
    | Pack(dst: nat, elements: seq<Operand>)
    | Product(dst: nat, ty: Ty, left: Operand, m: nat, right: Operand, n: nat, size: nat)
    | Arith(dst: nat, op: BinOp, ty: Ty, lhs: Operand, rhs: Operand)
    | Negate(dst: nat, unOp: UnOp, ty: Ty, arg: Operand)
    | Conv(dst: nat, from: Ty, to: Ty, arg: Operand)
    | Test(dst: nat, ty: Ty, arg: Operand)
    | Invoke(dst: nat, callee: Signature, args: seq<Operand>)
    | Phi(dst: nat, arms: seq<Arm>)
    | Br(dest: nat)
    | CondBr(cond: Operand, ifTrue: nat, ifFalse: nat)
    | Ret
    // emitted around the body by the point and volume generators
    | GetAttribute(key: Key, slot: nat, size: nat)
    | SetAttribute(key: Key, size: nat, val: Operand)
    | IsTarget(dst: nat, key: Key)
    | SetVoxel(size: nat, val: Operand)

  datatype Label =
    | Entry | Then | Else | PostIf
    | TernaryTrue | TernaryFalse | TernaryReturn
    | LogicalRhs | LogicalReturn
    | LoopCondition | LoopBody | LoopIteration | PostLoop
    | Null
    | PostAssign | PostContinue

  datatype BasicBlock = BasicBlock(tag: Label, code: seq<Instr>)

  predicate IsTerminator(i: Instr) {
    i.Br? || i.CondBr? || i.Ret?
  }

  function Targets(i: Instr): set<nat> {
    match i
    case Br(d) => {d}
    case CondBr(_, t, f) => {t, f}
    case _ => {}
  }

  /** The attribute values of the current point, and the voxel writes made so far. */
  datatype Io = Io(attributes: map<Key, seq<int>>, voxels: seq<seq<int>>)

  /** The index arguments of a volume kernel: which attribute to write, and each one's own index. */
  datatype Arguments = Arguments(writeIndex: int, indices: map<Key, int>)

  datatype Machine = Machine(cx: Context, code: seq<BasicBlock>, args: Arguments)

  type Registers = map<nat, Value>

  datatype Config = Config(block: nat, pc: nat, prev: nat, regs: Registers, st: State, io: Io)

  datatype Progress = Running(c: Config) | Halted(st: State, io: Io) | Stuck

  function Fetch(regs: Registers, o: Operand): Option<Value> {
    match o
    case Const(n) => Some(Num(n))
    case Slot(s) => Some(Ptr(Address(s, 0)))
    case Reg(r) => if r in regs then Some(regs[r]) else None
  }

  predicate IsNum(regs: Registers, o: Operand) {
    var v := Fetch(regs, o);
    v.Some? && v.value.Num?
  }

  predicate IsPtr(regs: Registers, o: Operand) {
    var v := Fetch(regs, o);
    v.Some? && v.value.Ptr?
  }

  function NumOf(regs: Registers, o: Operand): int
    requires IsNum(regs, o)
  {
    Fetch(regs, o).value.n
  }

  function PtrOf(regs: Registers, o: Operand): Address
    requires IsPtr(regs, o)
  {
    Fetch(regs, o).value.a
  }

  function NumsOf(regs: Registers, os: seq<Operand>): seq<int>
    requires forall o | o in os :: IsNum(regs, o)
  {
    seq(|os|, i requires 0 <= i < |os| => NumOf(regs, os[i]))
  }

  function ValuesOf(regs: Registers, os: seq<Operand>): seq<Value>
    requires forall o | o in os :: Fetch(regs, o).Some?
  {
    seq(|os|, i requires 0 <= i < |os| => Fetch(regs, os[i]).value)
  }

  /** What a set-attribute or set-voxel call receives: a loaded scalar, or the cells behind a pointer. */
  function Transfer(c: Config, val: Operand, size: nat): Option<seq<int>> {
    var v := Fetch(c.regs, val);
    if v.None? then None
    else match v.value
      case Num(n) => Some([n])
      case Ptr(a) => Some(Cells(c.st.mem, a.slot, size))
      case Arr(_) => None
  }

  function Next(c: Config): Progress {
    Running(c.(pc := c.pc + 1))
  }

  function Define(c: Config, dst: nat, v: Value): Progress {
    Running(c.(pc := c.pc + 1, regs := c.regs[dst := v]))
  }

  function Goto(c: Config, dest: nat): Progress {
    Running(c.(block := dest, pc := 0, prev := c.block))
  }

  function FindArm(arms: seq<Arm>, pred: nat): Option<Operand> {
    if |arms| == 0 then None
    else if arms[0].pred == pred then Some(arms[0].val)
    else FindArm(arms[1..], pred)
  }

  function Step(m: Machine, c: Config): Progress {
    if c.block < |m.code| && c.pc < |m.code[c.block].code| then Execute(m, c, m.code[c.block].code[c.pc])
    else Stuck
  }

  function Execute(m: Machine, c: Config, i: Instr): Progress {
    var ops := m.cx.ops;
    match i
    case Load(dst, a) =>
      if IsPtr(c.regs, a) then Define(c, dst, Num(Get(c.st.mem, PtrOf(c.regs, a)))) else Stuck
    case Store(a, v) =>
      if IsPtr(c.regs, a) && IsNum(c.regs, v) then
        Next(c.(st := c.st.(mem := c.st.mem[PtrOf(c.regs, a) := NumOf(c.regs, v)])))
      else Stuck
    case Gep(dst, b, n) =>
      if IsPtr(c.regs, b) && IsNum(c.regs, n) then
        Define(c, dst, Ptr(Address(PtrOf(c.regs, b).slot, NumOf(c.regs, n))))
      else Stuck
    case Element(dst, b, i) =>
      var v := Fetch(c.regs, b);
      if v.Some? && !v.value.Num? then Define(c, dst, Num(ElementAt(c.st.mem, v.value, i))) else Stuck
    case Pack(dst, es) =>
      if forall e | e in es :: IsNum(c.regs, e) then Define(c, dst, Arr(NumsOf(c.regs, es))) else Stuck
    case Product(dst, ty, a, p, b, q, size) =>
      var x, y := Fetch(c.regs, a), Fetch(c.regs, b);
      if x.Some? && y.Some? && !x.value.Num? && !y.value.Num? then
        Define(c, dst, ProductOf(ops, ty, x.value, p, y.value, q, size, c.st.mem))
      else Stuck
    case Arith(dst, op, ty, a, b) =>
      if IsNum(c.regs, a) && IsNum(c.regs, b) then
        Define(c, dst, Num(ops.bin(op, ty, NumOf(c.regs, a), NumOf(c.regs, b))))
      else Stuck
    case Negate(dst, op, ty, a) =>
      if IsNum(c.regs, a) then Define(c, dst, Num(ops.un(op, ty, NumOf(c.regs, a)))) else Stuck
    case Conv(dst, from, to, a) =>
      if IsNum(c.regs, a) then Define(c, dst, Num(ops.conv(from, to, NumOf(c.regs, a)))) else Stuck
    case Test(dst, ty, a) =>
      if IsNum(c.regs, a) then Define(c, dst, Num(Truth(ops, ty, NumOf(c.regs, a)))) else Stuck
    case Invoke(dst, sig, args) =>
      if |sig.params| == |args| && forall o | o in args :: Fetch(c.regs, o).Some? then
        var r := CallEffect(ops, sig, ValuesOf(c.regs, args), c.st);
        Define(c.(st := r.st), dst, r.v)
      else Stuck
    case Phi(dst, arms) =>
      var o := FindArm(arms, c.prev);
      if o.Some? && Fetch(c.regs, o.value).Some? then Define(c, dst, Fetch(c.regs, o.value).value) else Stuck
    case Br(d) => Goto(c, d)
    case CondBr(b, t, f) =>
      if IsNum(c.regs, b) then Goto(c, if NumOf(c.regs, b) != 0 then t else f) else Stuck
    case Ret => Halted(c.st, c.io)
    case GetAttribute(key, slot, size) =>
      if key in c.io.attributes && |c.io.attributes[key]| == size then
        Next(c.(st := c.st.(mem := SetCells(c.st.mem, slot, c.io.attributes[key]))))
      else Stuck
    case SetAttribute(key, size, v) =>
      var ns := Transfer(c, v, size);
      if ns.Some? then Next(c.(io := c.io.(attributes := c.io.attributes[key := ns.value]))) else Stuck
    case IsTarget(dst, key) =>
      if key in m.args.indices then
        Define(c, dst, Num(if m.args.writeIndex == m.args.indices[key] then 1 else 0))
      else Stuck
    case SetVoxel(size, v) =>
      var ns := Transfer(c, v, size);
      if ns.Some? then Next(c.(io := c.io.(voxels := c.io.voxels + [ns.value]))) else Stuck
  }

  /** At most n steps from c. */
  function Run(m: Machine, c: Config, n: nat): Progress
    decreases n
  {
    if n == 0 then Running(c)
    else
      var p := Step(m, c);
      if p.Running? then Run(m, p.c, n - 1) else p
  }

  /** Runs compose. */
  lemma {:induction false} RunThen(m: Machine, c: Config, n: nat, c1: Config, k: nat)
    requires Run(m, c, n) == Running(c1)
    ensures Run(m, c, n + k) == Run(m, c1, k)
    decreases n
  {
    if n > 0 {
      RunThen(m, Step(m, c).c, n - 1, c1, k);
    }
  }

  /** A run that is over stays over. */
  lemma {:induction false} RunOver(m: Machine, c: Config, n: nat, k: nat)
    requires n <= k && !Run(m, c, n).Running?
    ensures Run(m, c, k) == Run(m, c, n)
    decreases n
  {
    if Step(m, c).Running? {
      RunOver(m, Step(m, c).c, n - 1, k - 1);
    }
  }
}
