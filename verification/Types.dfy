/**
Scalar and container types of AX, the operator tokens that work on them, and the conversion
rules the code generator applies before it emits an arithmetic instruction.
*/
module Types {

  datatype Option<+T> = None | Some(value: T)

  /** The element types a value can have once all pointers are stripped. */
  datatype Ty =
    | Void
    | Bool
    | Int8
    | Int16
    | Int32
    | Int64
    | Float
    | Double
    | Str
    | Vec(elem: Ty, size: nat)
  {
    predicate IsFloat() {
      Float? || Double?
    }

    predicate IsInteger() {
      Bool? || Int8? || Int16? || Int32? || Int64?
    }

    predicate IsScalar() {
      IsFloat() || IsInteger()
    }

    /** Vectors and matrices. Values of these types are always handled through a pointer. */
    predicate IsArray() {
      Vec? && size > 1 && elem.IsScalar()
    }

    predicate IsMatrix() {
      Vec? && (size == 9 || size == 16)
    }
  }

  function Dimension(t: Ty): nat {
    if t.Vec? && t.size == 9 then 3 else 4
  }

  function ElementOf(t: Ty): Ty {
    if t.Vec? then t.elem else t
  }

  /** The binary operators that reach `binaryExpression`; `&&` and `||` are compiled by branching. */
  datatype BinOp =
    | Plus | Minus | Multiply | Divide | Modulo
    | Equals | NotEquals | MoreThan | LessThan | MoreThanOrEqual | LessThanOrEqual
    | ShiftLeft | ShiftRight | BitAnd | BitOr | BitXor
  {
    predicate IsArithmetic() {
      Plus? || Minus? || Multiply? || Divide? || Modulo?
    }

    predicate IsRelational() {
      Equals? || NotEquals? || IsOrdering()
    }

    predicate IsOrdering() {
      MoreThan? || LessThan? || MoreThanOrEqual? || LessThanOrEqual?
    }

    predicate IsBitwise() {
      ShiftLeft? || ShiftRight? || BitAnd? || BitOr? || BitXor?
    }
  }

  datatype UnOp = UnaryPlus | UnaryMinus | BitNot | LogicalNot

  /** How far up the ladder of implicit arithmetic conversion a scalar type stands. */
  function Rank(t: Ty): nat {
    match t
    case Double => 7
    case Float => 6
    case Int64 => 5
    case Int32 => 4
    case Int16 => 3
    case Int8 => 2
    case Bool => 1
    case _ => 0
  }

  /** The higher order of two scalar types, tested from double downwards. */
  function TypePrecedence(a: Ty, b: Ty): (t: Ty)
    requires a.IsScalar() && b.IsScalar()
    ensures t == a || t == b
    ensures Rank(a) <= Rank(t) && Rank(b) <= Rank(t)
  {
    if a == Double then a else if b == Double then b
    else if a == Float then a else if b == Float then b
    else if a == Int64 then a else if b == Int64 then b
    else if a == Int32 then a else if b == Int32 then b
    else if a == Int16 then a else if b == Int16 then b
    else if a == Int8 then a else if b == Int8 then b
    else a
  }

  /** A scalar that goes with a matrix becomes a matrix of its kind. This needs a floating point zero. */
  function Promotion(t: Ty, other: Ty): Ty {
    if t.IsScalar() && other.IsArray() && other.IsMatrix() && other.elem.IsFloat() then other else t
  }

  /** The products that involve a matrix: with a matrix of its size, and with a vector on either side. A vector
      of three goes in front of a matrix of nine only. */
  predicate IsProduct(op: BinOp, lhs: Ty, rhs: Ty) {
    op.Multiply? && lhs.IsArray() && rhs.IsArray() &&
    match lhs.size
    case 3 => rhs.size == 9
    case 4 => rhs.size == 16
    case 9 => rhs.size == 9 || rhs.size == 3
    case 16 => rhs.size == 16 || rhs.size == 3 || rhs.size == 4
    case _ => false
  }

  /** Products are computed on floats if both sides are, and on doubles, the first overload, otherwise. */
  function ProductElem(lhs: Ty, rhs: Ty): Ty {
    if ElementOf(lhs) == Float && ElementOf(rhs) == Float then Float else Double
  }

  function ProductSize(lhs: Ty, rhs: Ty): nat {
    if !lhs.Vec? || !rhs.Vec? then 0 else if lhs.IsMatrix() then rhs.size else lhs.size
  }

  /** The operators that work on arrays element by element. An array goes with an array of its size or, if
      it is not a matrix, with a scalar. Arrays of nine and more elements are only added, subtracted and
      compared this way. */
  predicate IsElementwise(op: BinOp, lhs: Ty, rhs: Ty) {
    && (lhs.IsArray() || rhs.IsArray())
    && (lhs.IsArray() || (lhs.IsScalar() && !rhs.IsMatrix())) && (rhs.IsArray() || (rhs.IsScalar() && !lhs.IsMatrix()))
    && (lhs.IsArray() && rhs.IsArray() ==> lhs.size == rhs.size)
    && !op.IsOrdering() && !op.IsBitwise()
    && (ZipSize(lhs, rhs) >= 9 ==> op.Plus? || op.Minus? || op.Equals? || op.NotEquals?)
  }

  /** The number of elements of the result, before a comparison reduces them to one. */
  function ZipSize(lhs: Ty, rhs: Ty): nat {
    if lhs.Vec? then lhs.size else if rhs.Vec? then rhs.size else 1
  }

  /** The type both operands, or their elements, are converted to, or None when the operator rejects the
      operands. */
  function OperandType(op: BinOp, lhs: Ty, rhs: Ty): Option<Ty> {
    if !IsElementwise(op, lhs, rhs) && (!lhs.IsScalar() || !rhs.IsScalar()) then None
    else if op.IsBitwise() && (lhs.IsFloat() || rhs.IsFloat()) then None
    else
      var t := TypePrecedence(ElementOf(lhs), ElementOf(rhs));
      if t == Bool && (op.IsArithmetic() || op.IsBitwise() || op.IsOrdering()) then Some(Int32)
      else Some(t)
  }

  /** A scalar as an array: in every element of a vector, but only on the diagonal of a matrix. */
  function Spread<T>(x: T, zero: T, size: nat): (xs: seq<T>)
    ensures |xs| == size
  {
    seq(size, i requires 0 <= i => if (size == 9 && i % 4 != 0) || (size == 16 && i % 5 != 0) then zero else x)
  }

  /** The type of the elements of a pack: the highest among its values. */
  function PackType(ts: seq<Ty>): (t: Ty)
    requires forall t | t in ts :: t.IsScalar()
    ensures t.IsScalar()
  {
    if |ts| == 0 then Bool else TypePrecedence(PackType(ts[..|ts| - 1]), ts[|ts| - 1])
  }

  function ResultType(op: BinOp, operand: Ty, size: nat): Ty {
    if op.IsRelational() then Bool else if size > 1 then Vec(operand, size) else operand
  }
}
