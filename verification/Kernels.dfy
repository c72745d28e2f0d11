/**
What point and volume kernels share: a slot for every attribute, loads in front of the body, and code
in place of the body's returns. Until the body returns, the kernel runs exactly as the body does.
*/
module Kernels {
  import opened Types
  import opened Ast
  import opened Overloads
  import opened Semantics
  import opened Cfg
  import opened Lowering
  import opened Frames
  import opened InstrSimulation
  import opened Preservation
  import opened CfgShape
  import opened WellFormed
  import opened Writes
  import Operators

  /** An entry of the attribute registry. */
  datatype Access = Access(key: Key, isRead: bool, isWritten: bool)

  type Registry = seq<Access>

  /** Keys are tokens, and no token is registered twice. */
  ghost predicate Distinct(reg: Registry) {
    && (forall i | 0 <= i < |reg| :: reg[i].key.Token?)
    && (forall i, j | 0 <= i < j < |reg| :: reg[i].key != reg[j].key)
  }

  /** The number of cells a value of this type takes. */
  function SizeOf(key: Key): nat {
    if key.Token? && key.attrTy.Vec? then key.attrTy.size else 1
  }

  function TypeOf(key: Key): Ty {
    if key.Token? then key.attrTy else Void
  }

  /** Attribute i lives in slot i. */
  function AttributeScope(reg: Registry): Scope {
    if |reg| == 0 then map[]
    else
      var n := |reg| - 1;
      AttributeScope(reg[..n])[reg[n].key := Var(n, TypeOf(reg[n].key))]
  }

  function AttributeEnv(reg: Registry): Env {
    Env([AttributeScope(reg)], |reg|)
  }

  /** The loads of the attributes that are read. */
  function GetterCode(reg: Registry): seq<Instr> {
    if |reg| == 0 then []
    else
      var n := |reg| - 1;
      GetterCode(reg[..n]) + if reg[n].isRead then [GetAttribute(reg[n].key, n, SizeOf(reg[n].key))] else []
  }

  /** The function when generation of the body begins. */
  function KernelStart(reg: Registry): Gen {
    Builder([BasicBlock(Entry, GetterCode(reg))], 0, 0)
  }

  function Body(fs: Functions, root: Stmts, reg: Registry): Option<Gen> {
    LowerTree(fs, root, AttributeEnv(reg), KernelStart(reg))
  }

  type Attributes = map<Key, seq<int>>

  /** Every registered attribute has a value with as many cells as its type has elements. */
  ghost predicate Provides(attrs: Attributes, reg: Registry) {
    forall i | 0 <= i < |reg| :: reg[i].key in attrs && HasLength(attrs[reg[i].key], reg[i].key)
  }

  predicate HasLength(ns: seq<int>, key: Key) {
    key.Token? && |ns| == Operators.Width(key.attrTy)
  }

  /** Memory once the attributes that are read have been loaded. */
  function LoadedMem(reg: Registry, attrs: Attributes, mem: Memory): Memory {
    if |reg| == 0 then mem
    else
      var n := |reg| - 1;
      var before := LoadedMem(reg[..n], attrs, mem);
      if reg[n].isRead && reg[n].key in attrs then SetCells(before, n, attrs[reg[n].key]) else before
  }

  /** The attribute values after a run of the program that ends with this memory. */
  function Stored(reg: Registry, mem: Memory, attrs: Attributes): Attributes {
    if |reg| == 0 then attrs
    else
      var n := |reg| - 1;
      Stored(reg[..n], mem, attrs)[reg[n].key := Cells(mem, n, SizeOf(reg[n].key))]
  }

  lemma {:induction false} AttributeScopeAt(reg: Registry)
    requires Distinct(reg)
    ensures forall i | 0 <= i < |reg| :: reg[i].key in AttributeScope(reg) &&
                                         AttributeScope(reg)[reg[i].key] == Var(i, TypeOf(reg[i].key))
    ensures forall k | k in AttributeScope(reg) ::
      AttributeScope(reg)[k].slot < |reg| && reg[AttributeScope(reg)[k].slot].key == k
  {
    if |reg| > 0 { AttributeScopeAt(reg[..|reg| - 1]); }
  }

  lemma AttributesApart(reg: Registry)
    requires Distinct(reg)
    ensures Apart(AttributeEnv(reg), |reg|)
    ensures forall i | 0 <= i < |reg| :: Owns(AttributeEnv(reg), reg[i].key, i)
  {
    AttributeScopeAt(reg);
  }

  /** Every attribute is loaded before the body begins. */
  lemma {:induction false} LoadedCells(reg: Registry, attrs: Attributes, mem: Memory, i: nat)
    requires i < |reg| && reg[i].isRead && Provides(attrs, reg)
    ensures Cells(LoadedMem(reg, attrs, mem), i, SizeOf(reg[i].key)) == attrs[reg[i].key]
  {
    var n := |reg| - 1;
    if i < n {
      LoadedCells(reg[..n], attrs, mem, i);
      assert Cells(LoadedMem(reg, attrs, mem), i, SizeOf(reg[i].key)) ==
             Cells(LoadedMem(reg[..n], attrs, mem), i, SizeOf(reg[i].key));
    }
  }

  lemma {:induction false} StoredAt(reg: Registry, mem: Memory, attrs: Attributes, i: nat)
    requires Distinct(reg) && i < |reg|
    ensures reg[i].key in Stored(reg, mem, attrs)
    ensures Stored(reg, mem, attrs)[reg[i].key] == Cells(mem, i, SizeOf(reg[i].key))
  {
    var n := |reg| - 1;
    if i < n { StoredAt(reg[..n], mem, attrs, i); }
  }

  lemma {:induction false} StoredElsewhere(reg: Registry, mem: Memory, attrs: Attributes, k: Key)
    requires forall i | 0 <= i < |reg| :: reg[i].key != k
    ensures k in Stored(reg, mem, attrs) <==> k in attrs
    ensures k in attrs ==> Stored(reg, mem, attrs)[k] == attrs[k]
  {
    if |reg| > 0 { StoredElsewhere(reg[..|reg| - 1], mem, attrs, k); }
  }

  /** The cells of slot i are those of an attribute: one for a scalar, one for each element of an array. */
  ghost predicate IsCells(ns: seq<int>, key: Key, mem: Memory, i: nat) {
    HasLength(ns, key) && forall j: nat | j < |ns| :: ns[j] == Get(mem, Address(i, j))
  }

  lemma CellsAre(ns: seq<int>, key: Key, mem: Memory, i: nat)
    requires key.Token?
    ensures ns == Cells(mem, i, SizeOf(key)) <==> IsCells(ns, key, mem, i)
  {
    if IsCells(ns, key, mem, i) { assert ns == Cells(mem, i, SizeOf(key)); }
  }

  /** The attribute of a token is a variable of the token's type, and its slot holds every cell of its value when
      the body begins. */
  lemma AttributeLoaded(reg: Registry, attrs: Attributes, mem: Memory, i: nat, ty: Ty, name: string)
    requires Distinct(reg) && Provides(attrs, reg) && i < |reg| && reg[i].key == Token(ty, name) && reg[i].isRead
    ensures LookupAttribute(AttributeEnv(reg), Token(ty, name)) == Some(Var(i, ty))
    ensures Token(ty, name) in attrs && IsCells(attrs[Token(ty, name)], Token(ty, name), LoadedMem(reg, attrs, mem), i)
  {
    AttributeScopeAt(reg);
    LoadedCells(reg, attrs, mem, i);
    CellsAre(attrs[reg[i].key], reg[i].key, LoadedMem(reg, attrs, mem), i);
  }

  /** Afterwards every attribute has the cells of its slot, and nothing else has changed. */
  lemma AttributesStored(reg: Registry, mem: Memory, attrs: Attributes)
    requires Distinct(reg)
    ensures AreStored(reg, mem, attrs, Stored(reg, mem, attrs))
  {
    hide IsCells, Stored;
    var now := Stored(reg, mem, attrs);
    forall i | 0 <= i < |reg| ensures reg[i].key in now && IsCells(now[reg[i].key], reg[i].key, mem, i) {
      StoredAt(reg, mem, attrs, i);
      CellsAre(now[reg[i].key], reg[i].key, mem, i);
    }
    forall k | forall i | 0 <= i < |reg| :: reg[i].key != k
      ensures (k in now <==> k in attrs) && (k in attrs ==> now[k] == attrs[k])
    {
      StoredElsewhere(reg, mem, attrs, k);
    }
  }

  /** These conditions determine the values. */
  lemma StoredOnly(reg: Registry, mem: Memory, before: Attributes, after: Attributes)
    requires Distinct(reg) && AreStored(reg, mem, before, after)
    ensures after == Stored(reg, mem, before)
  {
    hide Stored, IsCells;
    var now := Stored(reg, mem, before);
    AttributesStored(reg, mem, before);
    forall k ensures (k in after <==> k in now) && (k in after ==> after[k] == now[k]) {
      if i :| 0 <= i < |reg| && reg[i].key == k {
        CellsAre(after[k], k, mem, i);
        CellsAre(now[k], k, mem, i);
      }
    }
  }

  ghost predicate AreStored(reg: Registry, mem: Memory, before: Attributes, after: Attributes) {
    && (forall i | 0 <= i < |reg| :: reg[i].key in after && IsCells(after[reg[i].key], reg[i].key, mem, i))
    && forall k :: (forall i | 0 <= i < |reg| :: reg[i].key != k) ==>
         (k in after <==> k in before) && (k in before ==> after[k] == before[k])
  }

  // ---------------------------------------------------------------------------------------
  // The loads run first

  lemma GettersPlain(reg: Registry)
    ensures Plain(GetterCode(reg)) && NoPhi(GetterCode(reg))
  {
    if |reg| > 0 { GettersPlain(reg[..|reg| - 1]); }
  }

  lemma {:induction false} GetterPrefix(reg: Registry, n: nat)
    requires n <= |reg|
    ensures GetterCode(reg[..n]) <= GetterCode(reg)
    decreases |reg|
  {
    if n < |reg| {
      GetterPrefix(reg[..|reg| - 1], n);
      assert reg[..|reg| - 1][..n] == reg[..n];
    } else {
      assert reg[..n] == reg;
    }
  }

  lemma {:induction false} RunGetters(m: Machine, reg: Registry, n: nat, c: Config)
    requires n <= |reg| && |m.code| > 0 && GetterCode(reg) <= m.code[0].code
    requires c.block == 0 && c.pc == 0 && Provides(c.io.attributes, reg)
    ensures var k := |GetterCode(reg[..n])|;
            Run(m, c, k) == Running(c.(pc := k, st := c.st.(mem := LoadedMem(reg[..n], c.io.attributes, c.st.mem))))
    decreases n
  {
    hide Step;
    if n > 0 {
      var before := reg[..n - 1];
      var k := |GetterCode(before)|;
      assert reg[..n][..n - 1] == before;
      RunGetters(m, reg, n - 1, c);
      GetterPrefix(reg, n);
      if reg[n - 1].isRead {
        var d := Run(m, c, k).c;
        assert m.code[0].code[k] == GetterCode(reg[..n])[k];
        StepGetter(m, reg[n - 1].key, n - 1, d);
        RunOne(m, d, Step(m, d).c);
        RunThen(m, c, k, d, 1);
      }
    }
  }

  lemma StepGetter(m: Machine, key: Key, slot: nat, c: Config)
    requires c.block < |m.code| && c.pc < |m.code[c.block].code|
    requires m.code[c.block].code[c.pc] == GetAttribute(key, slot, SizeOf(key))
    requires key in c.io.attributes && |c.io.attributes[key]| == SizeOf(key)
    ensures Step(m, c) ==
              Running(c.(pc := c.pc + 1, st := c.st.(mem := SetCells(c.st.mem, slot, c.io.attributes[key]))))
  {
  }

  // ---------------------------------------------------------------------------------------
  // The kernel follows the body

  /** The blocks of the body, with other code in place of each return. */
  ghost predicate Rewritten(body: seq<BasicBlock>, kernel: seq<BasicBlock>) {
    && |body| <= |kernel|
    && forall b | 0 <= b < |body| :: Closed(body[b].code) && RetReplaced(body[b].code, kernel[b].code)
  }

  predicate RetReplaced(code: seq<Instr>, kernel: seq<Instr>)
    requires |code| > 0
  {
    if code[|code| - 1] == Ret then code[..|code| - 1] <= kernel else code == kernel
  }

  lemma StepAlike(m: Machine, k: Machine, c: Config)
    requires m.cx == k.cx && m.args == k.args && Rewritten(m.code, k.code) && Step(m, c).Running?
    ensures Step(k, c) == Step(m, c)
  {
    hide Execute;
    var code := m.code[c.block].code;
    assert Closed(code) && RetReplaced(code, k.code[c.block].code);
    ExecuteAlike(m, k, c, code[c.pc]);
    if c.pc < |code| - 1 {
      assert code[c.pc] == code[..|code| - 1][c.pc];
    } else {
      NotAReturn(m, c);
    }
  }

  lemma ExecuteAlike(m: Machine, k: Machine, c: Config, i: Instr)
    requires m.cx == k.cx && m.args == k.args
    ensures Execute(m, c, i) == Execute(k, c, i)
  {
  }

  lemma NotAReturn(m: Machine, c: Config)
    requires Step(m, c).Running?
    ensures c.block < |m.code| && c.pc < |m.code[c.block].code| && m.code[c.block].code[c.pc] != Ret
  {
  }

  lemma {:induction false} RunAlike(m: Machine, k: Machine, c: Config, n: nat)
    requires m.cx == k.cx && m.args == k.args && Rewritten(m.code, k.code) && Run(m, c, n).Running?
    ensures Run(k, c, n) == Run(m, c, n)
    decreases n
  {
    hide Rewritten, Step;
    if n > 0 {
      StepAlike(m, k, c);
      RunAlike(m, k, Step(m, c).c, n - 1);
    }
  }

  /** The body stands at one of its returns. */
  predicate AtReturn(m: Machine, d: Config) {
    d.block < |m.code| && d.pc < |m.code[d.block].code| && m.code[d.block].code[d.pc] == Ret
  }

  /** A run that comes to a return stood in front of it one step earlier. */
  lemma {:induction false} BeforeReturn(m: Machine, c: Config, n: nat) returns (k: nat, d: Config)
    requires Run(m, c, n).Halted?
    ensures k < n && Run(m, c, k) == Running(d) && AtReturn(m, d) && Run(m, c, n) == Halted(d.st, d.io)
    decreases n
  {
    if Step(m, c).Running? {
      k, d := BeforeReturn(m, Step(m, c).c, n - 1);
      k := k + 1;
    } else {
      OnlyRetHalts(m, c);
      k, d := 0, c;
    }
  }

  lemma OnlyRetHalts(m: Machine, c: Config)
    requires Step(m, c).Halted?
    ensures AtReturn(m, c) && Step(m, c) == Halted(c.st, c.io)
  {
  }

  /** The state in which the body starts. */
  function BodyState(reg: Registry, attrs: Attributes, st: State): State {
    st.(mem := LoadedMem(reg, attrs, st.mem))
  }

  /** The body of a kernel and where it is found. */
  ghost predicate IsKernel(m: Machine, k: Machine, root: Stmts, reg: Registry) {
    && Body(m.cx.functions, root, reg).Some? && m.code == Body(m.cx.functions, root, reg).value.blocks
    && m.cx == k.cx && m.args == k.args && Rewritten(m.code, k.code)
  }

  /** Body and kernel start with the loads. */
  lemma KernelHead(m: Machine, k: Machine, root: Stmts, reg: Registry)
    requires IsKernel(m, k, root, reg)
    ensures 0 < |m.code| <= |k.code|
    ensures GetterCode(reg) <= m.code[0].code && GetterCode(reg) <= k.code[0].code
  {
    hide LowerTree, Frame, Plain;
    var g := KernelStart(reg);
    TreeShape(m.cx.functions, root, AttributeEnv(reg), g, Body(m.cx.functions, root, reg).value);
    FrameCode(g, Body(m.cx.functions, root, reg).value);
    var code, kernel := m.code[0].code, k.code[0].code;
    GettersPlain(reg);
    assert Closed(code) && RetReplaced(code, kernel);
    GettersFit(GetterCode(reg), code);
  }

  lemma FrameCode(g: Gen, h: Gen)
    requires Frame(g, h)
    ensures Code(g, g.ip) <= Code(h, g.ip) && |g.blocks| <= |h.blocks|
  {
  }

  lemma GettersFit(getters: seq<Instr>, code: seq<Instr>)
    requires Plain(getters) && Closed(code) && getters <= code
    ensures getters <= code[..|code| - 1]
  {
    assert |getters| > 0 ==> !IsTerminator(code[|getters| - 1]);
  }

  /** The kernel runs its loads and then its body, up to the return the body comes to. */
  lemma KernelRuns(m: Machine, k: Machine, root: Stmts, reg: Registry, c: Config, fuel: nat)
    returns (n: nat, d: Config, c1: Config)
    requires IsKernel(m, k, root, reg) && c.block == 0 && c.pc == 0 && Provides(c.io.attributes, reg)
    ensures c1 == c.(pc := |GetterCode(reg)|, st := BodyState(reg, c.io.attributes, c.st))
    ensures var o := Exec(m.cx, Block(root), AttributeEnv(reg), BodyState(reg, c.io.attributes, c.st), fuel);
            && Run(k, c, n) == Running(d)
            && if o.Timeout? then n >= fuel
               else (o.Normal? || o.Returned?) && AtReturn(m, d) && d.st == o.st && d.io == c.io &&
                    exists j: nat :: Run(m, c1, j) == Running(d)
  {
    hide LowerTree, Exec, Rewritten, Step, AtReturn;
    KernelHead(m, k, root, reg);
    var p := |GetterCode(reg)|;
    assert reg[..|reg|] == reg;
    RunGetters(m, reg, |reg|, c);
    RunGetters(k, reg, |reg|, c);
    c1 := c.(pc := p, st := BodyState(reg, c.io.attributes, c.st));
    var g := KernelStart(reg);
    var n1 := SimTree(m, root, AttributeEnv(reg), g, Body(m.cx.functions, root, reg).value, c1, fuel);
    if Run(m, c1, n1).Running? {
      RunAlike(m, k, c1, n1);
      RunThen(k, c, p, c1, n1);
      n, d := p + n1, Run(m, c1, n1).c;
    } else {
      var n2, d2 := BeforeReturn(m, c1, n1);
      RunAlike(m, k, c1, n2);
      RunThen(k, c, p, c1, n2);
      n, d := p + n2, d2;
    }
  }
}
