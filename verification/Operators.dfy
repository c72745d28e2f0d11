/**
What the operators of AX mean, written out without the functions that generation and semantics share: the
order of the scalar types, which operands an operator accepts, the type they are converted to, and the
numbers of the result, one for a scalar and one for each element of an array.
*/
module Operators {
  import opened Types
  import opened Ast
  import opened Overloads
  import opened Semantics

  predicate IsNumber(t: Ty) {
    t == Bool || t == Int8 || t == Int16 || t == Int32 || t == Int64 || t == Float || t == Double
  }

  predicate IsList(t: Ty) {
    t.Vec? && t.size > 1 && IsNumber(t.elem)
  }

  predicate IsReal(t: Ty) {
    t == Float || t == Double
  }

  predicate OnBits(op: BinOp) {
    op == ShiftLeft || op == ShiftRight || op == BitAnd || op == BitOr || op == BitXor
  }

  predicate Orders(op: BinOp) {
    op == MoreThan || op == LessThan || op == MoreThanOrEqual || op == LessThanOrEqual
  }

  predicate Equates(op: BinOp) {
    op == Equals || op == NotEquals
  }

  predicate IsSquare(n: nat) {
    n == 9 || n == 16
  }

  /** The order of the scalar types: double, float, int64, int32, int16, int8, bool. */
  predicate NotAbove(a: Ty, b: Ty) {
    match b
    case Double => IsNumber(a)
    case Float => IsNumber(a) && a != Double
    case Int64 => a == Int64 || a == Int32 || a == Int16 || a == Int8 || a == Bool
    case Int32 => a == Int32 || a == Int16 || a == Int8 || a == Bool
    case Int16 => a == Int16 || a == Int8 || a == Bool
    case Int8 => a == Int8 || a == Bool
    case Bool => a == Bool
    case _ => false
  }

  /** One of these types, and none of them stands higher. */
  predicate IsHighest(t: Ty, ts: seq<Ty>) {
    t in ts && forall i | 0 <= i < |ts| :: NotAbove(ts[i], t)
  }

  /** The type both operands are converted to. Booleans are only compared for equality as booleans. */
  predicate IsOperandType(op: BinOp, a: Ty, b: Ty, t: Ty) {
    if a == Bool && b == Bool && !Equates(op) then t == Int32 else IsHighest(t, [a, b])
  }

  /** The type of a number or of the numbers of a list. */
  function Unit(t: Ty): Ty {
    match t
    case Vec(e, _) => e
    case _ => t
  }

  function Width(t: Ty): nat {
    match t
    case Vec(_, n) => n
    case _ => 1
  }

  /** The numbers a value of this type stands for in a state. */
  ghost predicate Amounts(st: State, v: Value, t: Ty, xs: seq<int>) {
    if IsNumber(t) then
      |xs| == 1 &&
      match v
      case Num(n) => xs[0] == n
      case Ptr(a) => xs[0] == Get(st.mem, a)
      case Arr(_) => false
    else if IsList(t) then
      |xs| == t.size &&
      match v
      case Num(_) => false
      case Ptr(a) => forall i | 0 <= i < |xs| :: xs[i] == Get(st.mem, Address(a.slot, i))
      case Arr(ns) => xs == ns
    else true
  }

  /** A single number goes with every element. */
  function Nth(xs: seq<int>, i: nat): int
    requires |xs| == 1 || i < |xs|
  {
    if |xs| == 1 then xs[0] else xs[i]
  }

  /** The matrix, row by row, that has x on its diagonal. */
  function Diagonal(size: nat, x: int): (xs: seq<int>)
    requires IsSquare(size)
    ensures |xs| == size
  {
    var d := if size == 9 then 3 else 4;
    seq(size, i requires 0 <= i => if i / d == i % d then x else 0)
  }

  /** The length of a product of arrays, or 0 if they cannot be multiplied this way. */
  function ProductLength(m: nat, n: nat): nat {
    match (m, n)
    case (3, 9) => 3
    case (4, 16) => 4
    case (9, 9) => 9
    case (9, 3) => 3
    case (16, 16) => 16
    case (16, 3) => 3
    case (16, 4) => 4
    case _ => 0
  }

  // ---------------------------------------------------------------------------------------
  // Binary operators

  predicate GoesByElement(op: BinOp, size: nat) {
    op == Plus || op == Minus || Equates(op) || (size < 9 && (op == Multiply || op == Divide || op == Modulo))
  }

  /** An operator on two scalars. */
  ghost predicate NumbersIs(ops: Ops, op: BinOp, a: Ty, x: int, b: Ty, y: int, s: Static, v: Value) {
    if OnBits(op) && (IsReal(a) || IsReal(b)) then s == Ill
    else
      exists t :: IsOperandType(op, a, b, t) &&
                  s == Typed(if Orders(op) || Equates(op) then Bool else t, false) &&
                  v == Num(ops.bin(op, t, Convert(ops, a, t, x), Convert(ops, b, t, y)))
  }

  function Converted(ops: Ops, from: Ty, to: Ty, xs: seq<int>): (ys: seq<int>)
    ensures |ys| == |xs|
  {
    seq(|xs|, i requires 0 <= i < |xs| => Convert(ops, from, to, xs[i]))
  }

  /** The operator on each pair of numbers, of which one side may be a single number. */
  function Pairwise(ops: Ops, op: BinOp, t: Ty, a: Ty, xs: seq<int>, b: Ty, ys: seq<int>, size: nat): (zs: seq<int>)
    requires (|xs| == 1 || |xs| == size) && (|ys| == 1 || |ys| == size)
    ensures |zs| == size
  {
    seq(size, i requires 0 <= i < size =>
      ops.bin(op, t, Convert(ops, a, t, Nth(xs, i)), Convert(ops, b, t, Nth(ys, i))))
  }

  predicate AllOne(zs: seq<int>) {
    forall i | 0 <= i < |zs| :: zs[i] == 1
  }

  predicate SomeOne(zs: seq<int>) {
    exists i | 0 <= i < |zs| :: zs[i] == 1
  }

  /** Arrays are equal if all their elements are and different if some are. */
  ghost predicate Compares(ops: Ops, op: BinOp, zs: seq<int>, v: Value) {
    ComparesBools(ops) ==>
      v == Num(if (if op == Equals then AllOne(zs) else SomeOne(zs)) then 1 else 0)
  }

  /** Comparisons give 0 or 1, and `&` and `|` work on these as on truth values. */
  ghost predicate ComparesBools(ops: Ops) {
    && (forall t, x, y :: ops.bin(Equals, t, x, y) in {0, 1} && ops.bin(NotEquals, t, x, y) in {0, 1})
    && (forall x, y | x in {0, 1} && y in {0, 1} ::
          ops.bin(BitAnd, Bool, x, y) == (if x == 1 && y == 1 then 1 else 0) &&
          ops.bin(BitOr, Bool, x, y) == if x == 1 || y == 1 then 1 else 0)
  }

  /** An operator applied to each pair of numbers of the given types. */
  ghost predicate ElementsIs(ops: Ops, op: BinOp, a: Ty, xs: seq<int>, b: Ty, ys: seq<int>, size: nat, s: Static,
                             v: Value) {
    exists t :: IsOperandType(op, a, b, t) && size > 1 && (|xs| == 1 || |xs| == size) && (|ys| == 1 || |ys| == size) &&
      var zs := Pairwise(ops, op, t, a, xs, b, ys, size);
      if Equates(op) then s == Typed(Bool, false) && Compares(ops, op, zs, v)
      else s == Typed(Vec(t, size), false) && v == Arr(zs)
  }

  /** An operator on lists of numbers, one of which may be a single number. */
  ghost predicate ListsIs(ops: Ops, op: BinOp, a: Ty, xs: seq<int>, b: Ty, ys: seq<int>, s: Static, v: Value)
    requires (|xs| == 1 || |xs| == Width(a)) && (|ys| == 1 || |ys| == Width(b))
  {
    var size := if IsList(a) then Width(a) else Width(b);
    if op == Multiply && IsList(a) && IsList(b) && ProductLength(a.size, b.size) != 0 then
      var t := if a.elem == Float && b.elem == Float then Float else Double;
      s == Typed(Vec(t, ProductLength(a.size, b.size)), false) && v.Arr? &&
      |v.ns| == ProductLength(a.size, b.size) &&
      forall i | 0 <= i < |v.ns| ::
        v.ns[i] == ops.product(t, Converted(ops, a.elem, t, xs), Converted(ops, b.elem, t, ys), i)
    else if GoesByElement(op, size) && (IsList(a) && IsList(b) ==> a.size == b.size) then
      ElementsIs(ops, op, Unit(a), xs, Unit(b), ys, size, s, v)
    else s == Ill
  }

  /** The static type and the value of a binary operator on two operands. */
  ghost predicate BinaryIs(ops: Ops, op: BinOp, a: Ty, xs: seq<int>, b: Ty, ys: seq<int>, s: Static, v: Value)
    requires (IsNumber(a) ==> |xs| == 1) && (IsList(a) ==> |xs| == Width(a))
    requires (IsNumber(b) ==> |ys| == 1) && (IsList(b) ==> |ys| == Width(b))
  {
    if IsNumber(a) && IsNumber(b) then NumbersIs(ops, op, a, xs[0], b, ys[0], s, v)
    else if !(IsNumber(a) || IsList(a)) || !(IsNumber(b) || IsList(b)) then s == Ill
    else if IsNumber(a) && IsSquare(b.size) then
      // a scalar that goes with a matrix becomes a matrix
      if IsReal(b.elem) then
        ListsIs(ops, op, b, Diagonal(b.size, Convert(ops, a, b.elem, xs[0])), b, ys, s, v)
      else s == Ill
    else if IsNumber(b) && IsSquare(a.size) then
      if IsReal(a.elem) then
        ListsIs(ops, op, a, xs, a, Diagonal(a.size, Convert(ops, b, a.elem, ys[0])), s, v)
      else s == Ill
    else ListsIs(ops, op, a, xs, b, ys, s, v)
  }

  lemma ScalarsAreNumbers()
    ensures forall t: Ty :: t.IsScalar() <==> IsNumber(t)
    ensures forall t: Ty :: t.IsArray() <==> IsList(t)
    ensures forall t: Ty :: t.IsFloat() <==> IsReal(t)
  {
  }

  lemma PrecedenceIsHighest(a: Ty, b: Ty)
    requires IsNumber(a) && IsNumber(b)
    ensures a.IsScalar() && b.IsScalar() && IsNumber(TypePrecedence(a, b)) && IsHighest(TypePrecedence(a, b), [a, b])
  {
  }

  lemma OperatorsAre(op: BinOp)
    ensures op.IsBitwise() == OnBits(op) && op.IsOrdering() == Orders(op)
    ensures op.IsRelational() == (Orders(op) || Equates(op))
    ensures op.IsArithmetic() || op.IsBitwise() || op.IsOrdering() <==> !Equates(op)
  {
  }

  lemma OperandTypeIs(op: BinOp, a: Ty, b: Ty)
    requires IsNumber(a) && IsNumber(b)
    ensures OperandType(op, a, b) == if OnBits(op) && (IsReal(a) || IsReal(b)) then None else
              Some(if a == Bool && b == Bool && !Equates(op) then Int32 else TypePrecedence(a, b))
  {
    hide TypePrecedence, IsHighest, NotAbove, BinOp.IsBitwise, BinOp.IsOrdering, BinOp.IsRelational,
      BinOp.IsArithmetic, OnBits, Orders, Equates;
    OnlyBools(a, b);
    OperatorsAre(op);
  }

  lemma OnlyBools(a: Ty, b: Ty)
    requires IsNumber(a) && IsNumber(b)
    ensures a.IsScalar() && b.IsScalar() && !a.IsArray() && !b.IsArray() && !a.Vec? && !b.Vec?
    ensures a.IsFloat() == IsReal(a) && b.IsFloat() == IsReal(b)
    ensures TypePrecedence(a, b) == Bool <==> a == Bool && b == Bool
  {
    PrecedenceIsHighest(a, b);
  }

  lemma OperandTypeLaw(op: BinOp, a: Ty, b: Ty)
    requires IsNumber(a) && IsNumber(b)
    ensures OperandType(op, a, b).None? <==> OnBits(op) && (IsReal(a) || IsReal(b))
    ensures OperandType(op, a, b).Some? ==> IsOperandType(op, a, b, OperandType(op, a, b).value)
  {
    hide OperandType, TypePrecedence, NotAbove, OnBits, IsReal, IsHighest;
    OperandTypeIs(op, a, b);
    PrecedenceIsHighest(a, b);
  }

  lemma NumbersLaw(ops: Ops, op: BinOp, a: Ty, x: int, b: Ty, y: int)
    requires IsNumber(a) && IsNumber(b)
    ensures NumbersIs(ops, op, a, x, b, y, TypeOfOperator(op, a, b), Num(BinaryValue(ops, op, a, x, b, y)))
  {
    hide OperandType, TypePrecedence, IsOperandType, BinOp.IsRelational, OnBits, Orders, Equates, IsReal, Ty.IsArray,
      IsNumber;
    OperandTypeLaw(op, a, b);
    OperatorsAre(op);
    OnlyBools(a, b);
  }

  /** The element of an operand that has been loaded. */
  lemma ElementIs(st: State, v: Value, t: Ty, xs: seq<int>, i: nat)
    requires Amounts(st, v, t, xs) && ((IsNumber(t) && v.Num?) || (IsList(t) && i < t.size))
    ensures (IsNumber(t) ==> |xs| == 1) && (IsList(t) ==> |xs| == t.size)
    ensures ElementAt(st.mem, v, i) == Nth(xs, i)
  {
  }

  lemma {:induction false} ZipIs(ops: Ops, op: BinOp, t: Ty, a: Ty, u: Value, xs: seq<int>, b: Ty, v: Value,
                                 ys: seq<int>, st: State, k: nat, size: nat)
    requires Loaded(st, u, a, xs) && Loaded(st, v, b, ys) && k <= size
    requires (IsList(a) ==> a.size == size) && (IsList(b) ==> b.size == size)
    ensures (|xs| == 1 || |xs| == size) && (|ys| == 1 || |ys| == size)
    ensures Zip(ops, op, t, Unit(a), u, Unit(b), v, st.mem, k) ==
            Pairwise(ops, op, t, Unit(a), xs, Unit(b), ys, size)[..k]
  {
    hide Convert, Amounts, IsNumber, IsList, Unit, Loaded, ElementAt, Zip;
    LoadedWidth(st, u, a, xs);
    LoadedWidth(st, v, b, ys);
    ZipStep(ops, op, t, Unit(a), u, Unit(b), v, st.mem, k);
    if k > 0 {
      ZipIs(ops, op, t, a, u, xs, b, v, ys, st, k - 1, size);
      LoadedElement(st, u, a, xs, k - 1);
      LoadedElement(st, v, b, ys, k - 1);
      var zs := Pairwise(ops, op, t, Unit(a), xs, Unit(b), ys, size);
      assert zs[..k] == zs[..k - 1] + [zs[k - 1]];
    }
  }

  lemma ZipStep(ops: Ops, op: BinOp, t: Ty, lt: Ty, a: Value, rt: Ty, b: Value, mem: Memory, k: nat)
    ensures Zip(ops, op, t, lt, a, rt, b, mem, k) ==
            if k == 0 then []
            else
              Zip(ops, op, t, lt, a, rt, b, mem, k - 1) +
              [ops.bin(op, t, Convert(ops, lt, t, ElementAt(mem, a, k - 1)),
                       Convert(ops, rt, t, ElementAt(mem, b, k - 1)))]
  {
  }

  lemma LoadedElement(st: State, v: Value, t: Ty, xs: seq<int>, i: nat)
    requires Loaded(st, v, t, xs) && (IsList(t) ==> i < t.size)
    ensures |xs| == 1 || i < |xs|
    ensures ElementAt(st.mem, v, i) == Nth(xs, i)
  {
    ElementIs(st, v, t, xs, i);
  }

  /** An operand once scalars have been loaded. */
  ghost predicate Loaded(st: State, v: Value, t: Ty, xs: seq<int>) {
    (IsNumber(t) || IsList(t)) && Amounts(st, v, t, xs) && (IsNumber(t) ==> v.Num?)
  }

  lemma LoadedWidth(st: State, v: Value, t: Ty, xs: seq<int>)
    requires Loaded(st, v, t, xs)
    ensures |xs| == Width(t) && (IsNumber(t) ==> |xs| == 1) && (IsList(t) ==> t.Vec? && |xs| == t.size > 1)
    ensures IsNumber(t) != IsList(t)
  {
  }

  lemma {:induction false} ReduceIs(ops: Ops, op: BinOp, zs: seq<int>)
    requires ComparesBools(ops) && |zs| > 0 && Equates(op) && forall i | 0 <= i < |zs| :: zs[i] in {0, 1}
    ensures Reduce(ops, op, zs) == if (if op == Equals then AllOne(zs) else SomeOne(zs)) then 1 else 0
  {
    var n := |zs| - 1;
    if n > 0 {
      ReduceIs(ops, op, zs[..n]);
      var x := Reduce(ops, op, zs[..n]);
      assert x in {0, 1} && zs[n] in {0, 1};
      assert AllOne(zs) <==> AllOne(zs[..n]) && zs[n] == 1;
      assert SomeOne(zs) <==> SomeOne(zs[..n]) || zs[n] == 1;
    }
  }

  predicate IsNumeric(t: Ty) {
    IsNumber(t) || IsList(t)
  }

  lemma ProductsAre(op: BinOp, a: Ty, b: Ty)
    requires IsNumeric(a) && IsNumeric(b)
    ensures IsProduct(op, a, b) <==> op == Multiply && IsList(a) && IsList(b) && ProductLength(a.size, b.size) != 0
    ensures IsProduct(op, a, b) ==> ProductSize(a, b) == ProductLength(a.size, b.size)
    ensures IsProduct(op, a, b) ==> ProductElem(a, b) == if a.elem == Float && b.elem == Float then Float else Double
  {
    hide BinOp.IsBitwise, BinOp.IsOrdering;
    ScalarsAreNumbers();
  }

  lemma ElementwiseIs(op: BinOp, a: Ty, b: Ty)
    requires IsNumeric(a) && IsNumeric(b) && (IsList(a) || IsList(b))
    requires (IsNumber(a) ==> !IsSquare(b.size)) && (IsNumber(b) ==> !IsSquare(a.size))
    ensures var size := if IsList(a) then Width(a) else Width(b);
            && size == ZipSize(a, b) > 1
            && (IsElementwise(op, a, b) <==>
                GoesByElement(op, size) && (IsList(a) && IsList(b) ==> a.size == b.size))
  {
    ScalarsAreNumbers();
    OperatorsAre(op);
  }

  lemma ElementTypeLaw(op: BinOp, a: Ty, b: Ty)
    requires IsNumeric(a) && IsNumeric(b) && (IsList(a) || IsList(b))
    ensures OperandType(op, a, b).Some? <==> IsElementwise(op, a, b)
    ensures OperandType(op, a, b).Some? ==>
              IsOperandType(op, Unit(a), Unit(b), OperandType(op, a, b).value)
    ensures ElementOf(a) == Unit(a) && ElementOf(b) == Unit(b)
  {
    hide TypePrecedence, IsHighest, NotAbove, IsNumber, BinOp.IsBitwise, BinOp.IsOrdering, BinOp.IsArithmetic,
      BinOp.IsRelational, OnBits, Orders, Equates;
    UnitsAre(a);
    UnitsAre(b);
    OnlyBools(Unit(a), Unit(b));
    PrecedenceIsHighest(Unit(a), Unit(b));
    OperatorsAre(op);
    assert IsElementwise(op, a, b) ==> !op.IsBitwise();
  }

  lemma UnitsAre(t: Ty)
    requires IsNumeric(t)
    ensures IsNumber(Unit(t)) && ElementOf(t) == Unit(t) && t.IsArray() == IsList(t) && t.IsScalar() == IsNumber(t)
    ensures IsNumber(t) != IsList(t)
  {
  }

  lemma {:induction false} CastCellsAre(ops: Ops, from: Ty, to: Ty, st: State, v: Value, t: Ty, xs: seq<int>, n: nat)
    requires Amounts(st, v, t, xs) && IsList(t) && n <= t.size
    ensures |xs| == t.size && CastCells(ops, from, to, st.mem, v, n) == Converted(ops, from, to, xs)[..n]
  {
    hide Convert, Amounts, IsNumber;
    ElementIs(st, v, t, xs, 0);
    if n > 0 {
      CastCellsAre(ops, from, to, st, v, t, xs, n - 1);
      ElementIs(st, v, t, xs, n - 1);
      var ys := Converted(ops, from, to, xs);
      assert ys[..n] == ys[..n - 1] + [ys[n - 1]];
    }
  }

  lemma CastArrayIs(ops: Ops, to: Ty, st: State, v: Value, t: Ty, xs: seq<int>)
    requires Amounts(st, v, t, xs) && IsList(t)
    ensures |xs| == t.size
    ensures Contents(st.mem, CastArray(ops, t.elem, to, v, st.mem, t.size), t.size) == Converted(ops, t.elem, to, xs)
  {
    hide Amounts, IsNumber;
    ElementIs(st, v, t, xs, 0);
    var ys := Converted(ops, t.elem, to, xs);
    if t.elem == to {
      forall i | 0 <= i < t.size ensures ElementAt(st.mem, v, i) == ys[i] { ElementIs(st, v, t, xs, i); }
    } else {
      CastCellsAre(ops, t.elem, to, st, v, t, xs, t.size);
      assert ys[..t.size] == ys;
    }
  }

  lemma ProductLaw(ops: Ops, a: Ty, u: Value, xs: seq<int>, b: Ty, v: Value, ys: seq<int>, st: State)
    requires Amounts(st, u, a, xs) && Amounts(st, v, b, ys) && IsList(a) && IsList(b) && IsProduct(Multiply, a, b)
    ensures |xs| == Width(a) && |ys| == Width(b)
    ensures ListsIs(ops, Multiply, a, xs, b, ys, TypeOfOperator(Multiply, a, b),
                    OperatorResult(ops, Multiply, a, u, b, v, st.mem))
  {
    hide Amounts, CastArray, Converted, ProductLength, IsElementwise, IsProduct, IsNumber, ProductElem, ProductSize;
    ProductsAre(Multiply, a, b);
    var t := ProductElem(a, b);
    CastArrayIs(ops, t, st, u, a, xs);
    CastArrayIs(ops, t, st, v, b, ys);
  }

  lemma ElementwiseLaw(ops: Ops, op: BinOp, a: Ty, u: Value, xs: seq<int>, b: Ty, v: Value, ys: seq<int>, st: State)
    requires Loaded(st, u, a, xs) && Loaded(st, v, b, ys) && !IsProduct(op, a, b)
    requires (IsList(a) || IsList(b)) && (IsNumber(a) ==> !IsSquare(b.size)) && (IsNumber(b) ==> !IsSquare(a.size))
    ensures |xs| == Width(a) && |ys| == Width(b)
    ensures ListsIs(ops, op, a, xs, b, ys, TypeOfOperator(op, a, b), OperatorResult(ops, op, a, u, b, v, st.mem))
  {
    hide Loaded, IsElementwise, OperandType, IsOperandType, IsProduct, ProductLength, IsNumber, IsList, GoesByElement,
      ElementsIs, OperatorResult;
    LoadedWidth(st, u, a, xs);
    LoadedWidth(st, v, b, ys);
    ProductsAre(op, a, b);
    ElementwiseIs(op, a, b);
    ElementTypeLaw(op, a, b);
    if IsElementwise(op, a, b) { ElementsLaw(ops, op, a, u, xs, b, v, ys, st); }
  }

  lemma ElementsLaw(ops: Ops, op: BinOp, a: Ty, u: Value, xs: seq<int>, b: Ty, v: Value, ys: seq<int>, st: State)
    requires Loaded(st, u, a, xs) && Loaded(st, v, b, ys) && !IsProduct(op, a, b) && IsElementwise(op, a, b)
    requires (IsList(a) || IsList(b)) && (IsNumber(a) ==> !IsSquare(b.size)) && (IsNumber(b) ==> !IsSquare(a.size))
    ensures ElementsIs(ops, op, Unit(a), xs, Unit(b), ys, ZipSize(a, b), TypeOfOperator(op, a, b),
                       OperatorResult(ops, op, a, u, b, v, st.mem))
  {
    hide Loaded, IsElementwise, OperandType, IsOperandType, IsProduct, Zip, Reduce, Pairwise, BinOp.IsRelational,
      Orders, Compares, IsNumber, IsList, GoesByElement;
    LoadedWidth(st, u, a, xs);
    LoadedWidth(st, v, b, ys);
    ElementwiseIs(op, a, b);
    ElementTypeLaw(op, a, b);
    OperatorsAre(op);
    var size := ZipSize(a, b);
    var t := OperandType(op, a, b).value;
    ZipIs(ops, op, t, a, u, xs, b, v, ys, st, size, size);
    var zs := Pairwise(ops, op, t, Unit(a), xs, Unit(b), ys, size);
    assert zs[..size] == zs;
    NotOrdering(op, a, b);
    if Equates(op) {
      CompareLaw(ops, op, zs, t, Unit(a), xs, Unit(b), ys);
    }
  }

  lemma NotOrdering(op: BinOp, a: Ty, b: Ty)
    requires IsElementwise(op, a, b)
    ensures !Orders(op)
  {
  }

  lemma CompareLaw(ops: Ops, op: BinOp, zs: seq<int>, t: Ty, a: Ty, xs: seq<int>, b: Ty, ys: seq<int>)
    requires Equates(op) && |zs| > 0 && (|xs| == 1 || |xs| == |zs|) && (|ys| == 1 || |ys| == |zs|)
    requires zs == Pairwise(ops, op, t, a, xs, b, ys, |zs|)
    ensures Compares(ops, op, zs, Num(Reduce(ops, op, zs)))
  {
    hide Reduce;
    if ComparesBools(ops) { ReduceIs(ops, op, zs); }
  }

  lemma SpreadIsDiagonal(x: int, size: nat)
    requires IsSquare(size)
    ensures Spread(x, 0, size) == Diagonal(size, x)
  {
    var d := if size == 9 then 3 else 4;
    forall i: nat | i < size ensures Spread(x, 0, size)[i] == Diagonal(size, x)[i] {
      OnDiagonal(i, d);
    }
  }

  /** The diagonal of a matrix of dimension d is every (d + 1)-th cell. */
  lemma OnDiagonal(i: nat, d: nat)
    requires (d == 3 || d == 4) && i < d * d
    ensures i / d == i % d <==> i % (d + 1) == 0
  {
    assert d == 3 ==> i == 0 || i == 1 || i == 2 || i == 3 || i == 4 || i == 5 || i == 6 || i == 7 || i == 8;
  }

  lemma PromotionIs(a: Ty, b: Ty)
    ensures Promotion(a, b) == if IsNumber(a) && IsList(b) && IsSquare(b.size) && IsReal(b.elem) then b else a
  {
    ScalarsAreNumbers();
  }

  /** Operands that are no scalars or arrays of scalars are rejected. */
  lemma NotNumeric(op: BinOp, a: Ty, b: Ty)
    requires !IsNumeric(a) || !IsNumeric(b)
    ensures TypeOfBinary(op, a, b) == Ill
  {
    hide TypePrecedence, BinOp.IsBitwise, BinOp.IsOrdering, BinOp.IsArithmetic, BinOp.IsRelational;
    ScalarsAreNumbers();
  }

  /** A scalar does not go with a matrix of integers. */
  lemma NotPromoted(op: BinOp, a: Ty, b: Ty)
    requires (IsNumber(a) && IsList(b) && IsSquare(b.size) && !IsReal(b.elem)) ||
             (IsNumber(b) && IsList(a) && IsSquare(a.size) && !IsReal(a.elem))
    ensures TypeOfBinary(op, a, b) == Ill
  {
    hide TypePrecedence, BinOp.IsBitwise, BinOp.IsOrdering, BinOp.IsArithmetic, BinOp.IsRelational;
    ScalarsAreNumbers();
  }

  lemma RvalueIs(st: State, v: Value, t: Ty, xs: seq<int>)
    requires Amounts(st, v, t, xs) && IsNumeric(t)
    ensures Loaded(st, Rvalue(st, v, t), t, xs) && (IsNumber(t) ==> Rvalue(st, v, t) == Num(xs[0]))
  {
    ScalarsAreNumbers();
  }

  /** Lists with lists, and lists with numbers that are not made matrices. */
  lemma ListsLaw(ops: Ops, op: BinOp, a: Ty, u: Value, xs: seq<int>, b: Ty, v: Value, ys: seq<int>, st: State)
    requires Loaded(st, u, a, xs) && Loaded(st, v, b, ys)
    requires (IsList(a) || IsList(b)) && (IsNumber(a) ==> !IsSquare(b.size)) && (IsNumber(b) ==> !IsSquare(a.size))
    ensures |xs| == Width(a) && |ys| == Width(b)
    ensures ListsIs(ops, op, a, xs, b, ys, TypeOfOperator(op, a, b), OperatorResult(ops, op, a, u, b, v, st.mem))
  {
    hide ListsIs, TypeOfOperator, OperatorResult, IsProduct, Amounts;
    if IsProduct(op, a, b) {
      ProductsAre(op, a, b);
      ProductLaw(ops, a, u, xs, b, v, ys, st);
    } else {
      ElementwiseLaw(ops, op, a, u, xs, b, v, ys, st);
    }
  }

  lemma PromotedIs(ops: Ops, from: Ty, to: Ty, st: State, v: Value, xs: seq<int>)
    requires Loaded(st, v, from, xs) && IsNumber(from) && IsList(to) && IsSquare(to.size)
    ensures |xs| == 1
    ensures Loaded(st, PromotedValue(ops, from, to, v), to, Diagonal(to.size, Convert(ops, from, to.elem, xs[0])))
  {
    hide Convert, Spread;
    SpreadIsDiagonal(Convert(ops, from, to.elem, xs[0]), to.size);
  }

  /** A scalar on the left of a matrix. */
  lemma PromotedLeft(ops: Ops, op: BinOp, a: Ty, u: Value, xs: seq<int>, b: Ty, v: Value, ys: seq<int>, st: State)
    requires Amounts(st, u, a, xs) && Amounts(st, v, b, ys) && IsNumber(a) && IsList(b) && IsSquare(b.size)
    ensures |xs| == 1 && |ys| == Width(b)
    ensures BinaryIs(ops, op, a, xs, b, ys, TypeOfBinary(op, a, b), BinaryResult(ops, op, a, u, b, v, st))
  {
    hide Amounts, NumbersIs, ListsIs, TypeOfOperator, OperatorResult, PromotedValue, Promotion, Rvalue, Loaded,
      Diagonal, IsNumber, IsReal;
    var u1, v1 := Rvalue(st, u, a), Rvalue(st, v, b);
    RvalueIs(st, u, a, xs);
    RvalueIs(st, v, b, ys);
    LoadedWidth(st, u1, a, xs);
    LoadedWidth(st, v1, b, ys);
    PromotionIs(a, b);
    PromotionIs(b, a);
    StaysAsItIs(ops, b, v1);
    if IsReal(b.elem) {
      PromotedIs(ops, a, b, st, u1, xs);
      var zs := Diagonal(b.size, Convert(ops, a, b.elem, xs[0]));
      ListsLaw(ops, op, b, PromotedValue(ops, a, b, u1), zs, b, v1, ys, st);
    } else {
      NotPromoted(op, a, b);
    }
  }

  lemma PromotedRight(ops: Ops, op: BinOp, a: Ty, u: Value, xs: seq<int>, b: Ty, v: Value, ys: seq<int>, st: State)
    requires Amounts(st, u, a, xs) && Amounts(st, v, b, ys) && IsNumber(b) && IsList(a) && IsSquare(a.size)
    ensures |xs| == Width(a) && |ys| == 1
    ensures BinaryIs(ops, op, a, xs, b, ys, TypeOfBinary(op, a, b), BinaryResult(ops, op, a, u, b, v, st))
  {
    hide Amounts, NumbersIs, ListsIs, TypeOfOperator, OperatorResult, PromotedValue, Promotion, Rvalue, Loaded,
      Diagonal, IsNumber, IsReal;
    var u1, v1 := Rvalue(st, u, a), Rvalue(st, v, b);
    RvalueIs(st, u, a, xs);
    RvalueIs(st, v, b, ys);
    LoadedWidth(st, u1, a, xs);
    LoadedWidth(st, v1, b, ys);
    PromotionIs(a, b);
    PromotionIs(b, a);
    StaysAsItIs(ops, a, u1);
    if IsReal(a.elem) {
      PromotedIs(ops, b, a, st, v1, ys);
      var zs := Diagonal(a.size, Convert(ops, b, a.elem, ys[0]));
      ListsLaw(ops, op, a, u1, xs, a, PromotedValue(ops, b, a, v1), zs, st);
    } else {
      NotPromoted(op, a, b);
    }
  }

  lemma BinaryLaw(ops: Ops, op: BinOp, a: Ty, u: Value, xs: seq<int>, b: Ty, v: Value, ys: seq<int>, st: State)
    requires Amounts(st, u, a, xs) && Amounts(st, v, b, ys)
    ensures (IsNumber(a) ==> |xs| == 1) && (IsList(a) ==> |xs| == Width(a))
    ensures (IsNumber(b) ==> |ys| == 1) && (IsList(b) ==> |ys| == Width(b))
    ensures BinaryIs(ops, op, a, xs, b, ys, TypeOfBinary(op, a, b), BinaryResult(ops, op, a, u, b, v, st))
  {
    hide Amounts, NumbersIs, ListsIs, TypeOfOperator, OperatorResult, PromotedValue, Promotion, Rvalue, Loaded,
      Diagonal, IsNumber, IsReal;
    if !IsNumeric(a) || !IsNumeric(b) {
      NotNumeric(op, a, b);
      AmountsWidth(st, u, a, xs);
      AmountsWidth(st, v, b, ys);
    } else {
      AreEither(a, b);
      if IsNumber(a) && IsList(b) && IsSquare(b.size) {
        PromotedLeft(ops, op, a, u, xs, b, v, ys, st);
      } else if IsNumber(b) && IsList(a) && IsSquare(a.size) {
        PromotedRight(ops, op, a, u, xs, b, v, ys, st);
      } else {
        Unpromoted(ops, op, a, u, xs, b, v, ys, st);
      }
    }
  }

  lemma AreEither(a: Ty, b: Ty)
    requires IsNumeric(a) && IsNumeric(b)
    ensures IsNumber(a) != IsList(a) && IsNumber(b) != IsList(b)
  {
  }

  lemma Unpromoted(ops: Ops, op: BinOp, a: Ty, u: Value, xs: seq<int>, b: Ty, v: Value, ys: seq<int>, st: State)
    requires Amounts(st, u, a, xs) && Amounts(st, v, b, ys) && IsNumeric(a) && IsNumeric(b)
    requires (IsNumber(a) && IsList(b) ==> !IsSquare(b.size)) && (IsNumber(b) && IsList(a) ==> !IsSquare(a.size))
    ensures (IsNumber(a) ==> |xs| == 1) && (IsList(a) ==> |xs| == Width(a))
    ensures (IsNumber(b) ==> |ys| == 1) && (IsList(b) ==> |ys| == Width(b))
    ensures BinaryIs(ops, op, a, xs, b, ys, TypeOfBinary(op, a, b), BinaryResult(ops, op, a, u, b, v, st))
  {
    hide Amounts, NumbersIs, ListsIs, TypeOfOperator, OperatorResult, PromotedValue, Promotion, Rvalue, Loaded,
      Diagonal, IsNumber, IsReal;
    var u1, v1 := Rvalue(st, u, a), Rvalue(st, v, b);
    RvalueIs(st, u, a, xs);
    RvalueIs(st, v, b, ys);
    LoadedWidth(st, u1, a, xs);
    LoadedWidth(st, v1, b, ys);
    PromotionIs(a, b);
    PromotionIs(b, a);
    StaysAsItIs(ops, a, u1);
    StaysAsItIs(ops, b, v1);
    if IsNumber(a) && IsNumber(b) {
      NumbersLaw(ops, op, a, xs[0], b, ys[0]);
      NumbersResult(ops, op, a, xs[0], b, ys[0], st.mem);
    } else {
      ListsLaw(ops, op, a, u1, xs, b, v1, ys, st);
    }
  }

  lemma StaysAsItIs(ops: Ops, t: Ty, v: Value)
    ensures PromotedValue(ops, t, t, v) == v
  {
  }

  lemma AmountsWidth(st: State, v: Value, t: Ty, xs: seq<int>)
    requires Amounts(st, v, t, xs)
    ensures (IsNumber(t) ==> |xs| == 1) && (IsList(t) ==> |xs| == Width(t))
  {
  }

  lemma NumbersResult(ops: Ops, op: BinOp, a: Ty, x: int, b: Ty, y: int, mem: Memory)
    requires IsNumber(a) && IsNumber(b)
    ensures OperatorResult(ops, op, a, Num(x), b, Num(y), mem) == Num(BinaryValue(ops, op, a, x, b, y))
  {
    OnlyBools(a, b);
  }
}
