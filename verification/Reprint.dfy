/**
The visitor that prints an expression back as source, and what the lexer makes of its text. Every binary
expression is put in parentheses, so that the text tells apart any two expressions without ternaries and
writes, except for literals that print alike. The text of some literals is not one literal to the lexer:
a wrapped integer has a sign in front, an infinite number is a name, a whole float has a name behind it.
*/
module Reprint {
  import opened Types

  datatype CoreType =
    | BOOL | CHAR | INT16 | INT32 | INT64 | FLOAT | DOUBLE
    | VEC2I | VEC2F | VEC2D | VEC3I | VEC3F | VEC3D | VEC4I | VEC4F | VEC4D
    | MAT3F | MAT3D | MAT4F | MAT4D | QUATF | QUATD | STRING

  /** Operators; plus and minus are binary and unary ones alike. */
  datatype OperatorToken =
    | PLUS | MINUS | MULTIPLY | DIVIDE | MODULO
    | AND | OR | NOT
    | EQUALSEQUALS | NOTEQUALS | MORETHAN | LESSTHAN | MORETHANOREQUAL | LESSTHANOREQUAL
    | SHIFTLEFT | SHIFTRIGHT | BITAND | BITOR | BITXOR | BITNOT

  datatype Token =
    | Identifier(name: string)
    | TypeName(ty: CoreType)
    | AtSign | DollarSign
    | LParens | RParens | LSquare | RSquare | LCurly | RCurly
    | CommaSign | QuestionMark | ColonSign
    | Operator(op: OperatorToken)
    | Assigns(compound: Option<OperatorToken>)
    | PlusPlus | MinusMinus
    | Space
    | BoolWord(b: bool)
    | StringText(text: string)
    | NumberText(text: string)

  const CONTAINER_LIMIT := 0x1_0000_0000_0000_0000

  /** Integer literals are kept as the 64-bit number that the lexer read, whatever their type. */
  type Container = n: nat | n < CONTAINER_LIMIT

  type Unsigned = x: real | 0.0 <= x

  /** A floating point literal that is too large for its type is infinite. */
  datatype Magnitude = Finite(x: Unsigned) | Infinite

  datatype Literal =
    | BoolValue(b: bool)
    | Int16Value(n: Container)
    | Int32Value(n: Container)
    | Int64Value(n: Container)
    | FloatValue(x: Magnitude)
    | DoubleValue(x: Magnitude)
    | StringValue(s: string)
  {
    predicate IsInt() {
      Int16Value? || Int32Value? || Int64Value?
    }

    /** The largest value of an integer literal's type. */
    function Max(): nat
      requires IsInt()
    {
      match this
      case Int16Value(_) => 0x7fff
      case Int32Value(_) => 0x7fff_ffff
      case Int64Value(_) => 0x7fff_ffff_ffff_ffff
    }

    /** The value of an integer literal: its container, cut down to its type in two's complement. */
    function Int(): (v: int)
      requires IsInt()
      ensures -1 - Max() <= v <= Max()
      ensures n <= Max() <==> v == n
    {
      var r := n % (2 * (Max() + 1));
      if r <= Max() then r else r - 2 * (Max() + 1)
    }

    /** The code generator warns of the others. */
    predicate InRange() {
      IsInt() ==> n <= Max()
    }
  }

  /** Expressions over a type of literals. */
  datatype Expr<L> =
    | Value(value: L)
    | Local(name: string)
    | Attribute(ty: CoreType, name: string, inferred: bool)
    | ExternalVariable(ty: CoreType, name: string)
    | ArrayUnpack(vec: Expr<L>, component0: Expr<L>, component1: Option<Expr<L>>)
    | ArrayPack(exprs: seq<Expr<L>>)
    | UnaryOperator(op: OperatorToken, expr: Expr<L>)
    | BinaryOperator(op: OperatorToken, lhs: Expr<L>, rhs: Expr<L>)
    | CommaOperator(exprs: seq<Expr<L>>)
    | FunctionCall(callee: string, exprs: seq<Expr<L>>)
    | Cast(ty: CoreType, expr: Expr<L>)
    | TernaryOperator(cond: Expr<L>, onTrue: Option<Expr<L>>, onFalse: Expr<L>)
    | AssignExpression(lhs: Expr<L>, compound: Option<OperatorToken>, rhs: Expr<L>)
    | Crement(expr: Expr<L>, increment: bool, post: bool)

  /** What a reader of the text sees: expressions whose literals are the tokens they are written as. */
  type Text = Expr<seq<Token>>

  /** How a stream formats a finite floating point number. */
  type FloatFormat = Unsigned -> string

  function Digits(n: nat): (s: string)
    ensures IsNumeral(s)
  {
    var digit := [(n % 10) as char + '0'];
    if n < 10 then digit else Digits(n / 10) + digit
  }

  predicate IsNumeral(s: string) {
    s != [] && forall c | c in s :: '0' <= c <= '9'
  }

  /** The suffix of a literal; it tells all number types apart but int32 and double. */
  function Suffix(l: Literal): string {
    match l
    case Int16Value(_) => "s"
    case Int64Value(_) => "l"
    case FloatValue(_) => "f"
    case _ => ""
  }

  /** The tokens the lexer finds in the text of a literal. A float needs a point or an exponent to be one
      token, and a sign is never part of a number. */
  function LiteralTokens(format: FloatFormat, l: Literal): (ts: seq<Token>)
    ensures |ts| > 0
  {
    match l
    case BoolValue(b) => [BoolWord(b)]
    case FloatValue(Finite(x)) =>
      if IsNumeral(format(x)) then [NumberText(format(x)), Identifier("f")] else [NumberText(format(x) + "f")]
    case FloatValue(Infinite) => [Identifier("inff")]
    case DoubleValue(Finite(x)) => [NumberText(format(x))]
    case DoubleValue(Infinite) => [Identifier("inf")]
    case StringValue(s) => [StringText(s)]
    case _ =>
      if l.Int() < 0 then [Operator(MINUS), NumberText(Digits(-l.Int()) + Suffix(l))]
      else [NumberText(Digits(l.Int()) + Suffix(l))]
  }

  /** What a literal is to a reader. */
  function LiteralText(format: FloatFormat, l: Literal): Text {
    var ts := LiteralTokens(format, l);
    match ts[0]
    case Operator(op) => UnaryOperator(op, Value(ts[1..]))
    case Identifier(name) => Local(name)
    case _ => Value(ts)
  }

  /** An expression as a reader sees it; the type of an attribute is printed even if it was inferred. */
  function Texts(format: FloatFormat, e: Expr<Literal>): Text {
    match e
    case Value(l) => LiteralText(format, l)
    case Local(name) => Local(name)
    case Attribute(ty, name, _) => Attribute(ty, name, false)
    case ExternalVariable(ty, name) => ExternalVariable(ty, name)
    case ArrayUnpack(vec, i, j) =>
      ArrayUnpack(Texts(format, vec), Texts(format, i), if j.Some? then Some(Texts(format, j.value)) else None)
    case ArrayPack(es) => ArrayPack(AllTexts(format, es))
    case UnaryOperator(op, a) => UnaryOperator(op, Texts(format, a))
    case BinaryOperator(op, l, r) => BinaryOperator(op, Texts(format, l), Texts(format, r))
    case CommaOperator(es) => CommaOperator(AllTexts(format, es))
    case FunctionCall(f, args) => FunctionCall(f, AllTexts(format, args))
    case Cast(ty, a) => Cast(ty, Texts(format, a))
    case TernaryOperator(c, t, f) =>
      TernaryOperator(Texts(format, c), if t.Some? then Some(Texts(format, t.value)) else None, Texts(format, f))
    case AssignExpression(l, op, r) => AssignExpression(Texts(format, l), op, Texts(format, r))
    case Crement(v, increment, post) => Crement(Texts(format, v), increment, post)
  }

  function AllTexts(format: FloatFormat, es: seq<Expr<Literal>>): (ts: seq<Text>)
    ensures |ts| == |es| && forall i | 0 <= i < |es| :: ts[i] == Texts(format, es[i])
  {
    if es == [] then [] else [Texts(format, es[0])] + AllTexts(format, es[1..])
  }

  /** What the visitor writes, with its blanks. */
  function Pieces(e: Text): seq<Token>
    decreases e, 1
  {
    match e
    case Value(ts) => ts
    case Local(name) => [Identifier(name)]
    case Attribute(ty, name, _) => [TypeName(ty), AtSign, Identifier(name)]
    case ExternalVariable(ty, name) => [TypeName(ty), DollarSign, Identifier(name)]
    case ArrayUnpack(vec, i, j) =>
      Pieces(vec) + [LSquare] + Pieces(i) + (if j.Some? then [CommaSign, Space] + Pieces(j.value) else []) + [RSquare]
    case ArrayPack(es) => [LCurly] + AllPieces(es) + [RCurly]
    case UnaryOperator(op, a) => [Operator(op)] + Pieces(a)
    case BinaryOperator(op, l, r) => [LParens] + Pieces(l) + [Space, Operator(op), Space] + Pieces(r) + [RParens]
    case CommaOperator(es) => [LParens] + AllPieces(es) + [RParens]
    case FunctionCall(f, args) => [Identifier(f), LParens] + AllPieces(args) + [RParens]
    case Cast(ty, a) => [TypeName(ty), LParens] + Pieces(a) + [RParens]
    case TernaryOperator(c, t, f) =>
      Pieces(c) + [Space, QuestionMark] + TruePieces(e) + [ColonSign, Space] + Pieces(f)
    case AssignExpression(l, op, r) => Pieces(l) + [Space, Assigns(op), Space] + Pieces(r)
    case Crement(v, increment, post) =>
      var sign := [if increment then PlusPlus else MinusMinus];
      if post then Pieces(v) + sign else sign + Pieces(v)
  }

  function TruePieces(e: Text): seq<Token>
    requires e.TernaryOperator?
    decreases e, 0
  {
    if e.onTrue.Some? then [Space] + Pieces(e.onTrue.value) + [Space] else []
  }

  /** Expressions separated by commas. */
  function AllPieces(es: seq<Text>): seq<Token> {
    if es == [] then []
    else if |es| == 1 then Pieces(es[0])
    else Pieces(es[0]) + [CommaSign, Space] + AllPieces(es[1..])
  }

  predicate IsSign(t: Token) {
    t == Operator(PLUS) || t == Operator(MINUS)
  }

  function Doubled(t: Token): Token {
    if t == Operator(PLUS) then PlusPlus else MinusMinus
  }

  /** The lexer takes the longest match, so that of a run of equal signs it joins the first two. */
  function Lexed(ps: seq<Token>): seq<Token>
    decreases |ps|
  {
    if ps == [] then []
    else if ps[0] == Space then Lexed(ps[1..])
    else if |ps| > 1 && IsSign(ps[0]) && ps[1] == ps[0] then [Doubled(ps[0])] + Lexed(ps[2..])
    else if |ps| > 1 && IsSign(ps[0]) && ps[1] == Doubled(ps[0]) then [ps[1]] + Lexed([ps[0]] + ps[2..])
    else [ps[0]] + Lexed(ps[1..])
  }

  /** The tokens that an expression is reprinted as. */
  function Reprinted(format: FloatFormat, e: Expr<Literal>): seq<Token> {
    Lexed(Pieces(Texts(format, e)))
  }

  lemma BinaryText(format: FloatFormat, e: Expr<Literal>)
    requires e.BinaryOperator?
    ensures Pieces(Texts(format, e)) ==
              [LParens] + Pieces(Texts(format, e.lhs)) + [Space, Operator(e.op), Space] + Pieces(Texts(format, e.rhs)) +
              [RParens]
  {}

  // ---------------------------------------------------------------------------------------
  // The visitor

  class ReprintVisitor {
    const format: FloatFormat
    var os: seq<Token>

    constructor (format: FloatFormat)
      ensures this.format == format && os == []
    {
      this.format := format;
      os := [];
    }

    method Write(ts: seq<Token>)
      modifies this
      ensures os == old(os) + ts
    {
      os := os + ts;
    }

    /** Writes an expression to the stream. */
    method Traverse(e: Expr<Literal>)
      modifies this
      ensures os == old(os) + Pieces(Texts(format, e))
      decreases e, 2
    {
      hide LiteralText, AllPieces, AllTexts;
      match e
      case Value(l) => VisitValue(l);
      case Local(name) => Write([Identifier(name)]);
      case Attribute(ty, name, _) =>
        Write([TypeName(ty), AtSign, Identifier(name)]);
      case ExternalVariable(ty, name) =>
        Write([TypeName(ty), DollarSign, Identifier(name)]);
      case ArrayUnpack(_, _, _) => TraverseUnpack(e);
      case ArrayPack(_) => TraversePack(e);
      case UnaryOperator(op, a) =>
        Write([Operator(op)]);
        Traverse(a);
      case BinaryOperator(_, _, _) => TraverseBinary(e);
      case CommaOperator(_) => TraverseComma(e);
      case FunctionCall(_, _) => TraverseCall(e);
      case Cast(_, _) => TraverseCast(e);
      case TernaryOperator(_, _, _) => TraverseTernary(e);
      case AssignExpression(l, op, r) =>
        Traverse(l);
        Write([Space, Assigns(op), Space]);
        Traverse(r);
      case Crement(_, _, _) => TraverseCrement(e);
    }

    /** Writes a literal: its value cut down to its type, and its suffix. */
    method VisitValue(l: Literal)
      modifies this
      ensures os == old(os) + Pieces(LiteralText(format, l))
    {
      match l
      case BoolValue(b) => Write([BoolWord(b)]);
      case StringValue(s) => Write([StringText(s)]);
      case FloatValue(Infinite) => Write([Identifier("inff")]);
      case DoubleValue(Infinite) => Write([Identifier("inf")]);
      case FloatValue(Finite(x)) =>
        if IsNumeral(format(x)) {
          Write([NumberText(format(x)), Identifier("f")]);
        } else {
          Write([NumberText(format(x) + "f")]);
        }
      case DoubleValue(Finite(x)) => Write([NumberText(format(x))]);
      case _ =>
        if l.Int() < 0 { Write([Operator(MINUS)]); }
        Write([NumberText(Digits(if l.Int() < 0 then -l.Int() else l.Int()) + Suffix(l))]);
    }

    method TraverseBinary(e: Expr<Literal>)
      requires e.BinaryOperator?
      modifies this
      ensures os == old(os) + Pieces(Texts(format, e))
      decreases e, 0
    {
      hide Pieces, Texts;
      BinaryText(format, e);
      Write([LParens]);
      Traverse(e.lhs);
      Write([Space, Operator(e.op), Space]);
      Traverse(e.rhs);
      Write([RParens]);
    }

    method TraversePack(e: Expr<Literal>)
      requires e.ArrayPack?
      modifies this
      ensures os == old(os) + Pieces(Texts(format, e))
      decreases e, 1
    {
      hide LiteralText, AllPieces, AllTexts;
      Write([LCurly]);
      TraverseAll(e);
      Write([RCurly]);
    }

    method TraverseComma(e: Expr<Literal>)
      requires e.CommaOperator?
      modifies this
      ensures os == old(os) + Pieces(Texts(format, e))
      decreases e, 1
    {
      hide LiteralText, AllPieces, AllTexts;
      Write([LParens]);
      TraverseAll(e);
      Write([RParens]);
    }

    method TraverseCall(e: Expr<Literal>)
      requires e.FunctionCall?
      modifies this
      ensures os == old(os) + Pieces(Texts(format, e))
      decreases e, 1
    {
      hide LiteralText, AllPieces, AllTexts;
      Write([Identifier(e.callee), LParens]);
      TraverseAll(e);
      Write([RParens]);
    }

    method TraverseCast(e: Expr<Literal>)
      requires e.Cast?
      modifies this
      ensures os == old(os) + Pieces(Texts(format, e))
      decreases e, 0
    {
      hide LiteralText, AllPieces, AllTexts;
      Write([TypeName(e.ty), LParens]);
      Traverse(e.expr);
      Write([RParens]);
    }

    method TraverseTernary(e: Expr<Literal>)
      requires e.TernaryOperator?
      modifies this
      ensures os == old(os) + Pieces(Texts(format, e))
      decreases e, 1
    {
      hide LiteralText, AllPieces, AllTexts;
      Traverse(e.cond);
      Write([Space, QuestionMark]);
      TraverseTrue(e);
      Write([ColonSign, Space]);
      Traverse(e.onFalse);
    }

    /** Writes the true branch of a ternary between blanks, if it has one. */
    method TraverseTrue(e: Expr<Literal>)
      requires e.TernaryOperator?
      modifies this
      ensures os == old(os) + TruePieces(Texts(format, e))
      decreases e, 0
    {
      hide LiteralText, AllPieces, AllTexts;
      if e.onTrue.Some? {
        Write([Space]);
        Traverse(e.onTrue.value);
        Write([Space]);
      }
    }

    method TraverseCrement(e: Expr<Literal>)
      requires e.Crement?
      modifies this
      ensures os == old(os) + Pieces(Texts(format, e))
      decreases e, 0
    {
      hide LiteralText, AllPieces, AllTexts;
      if !e.post { Write([if e.increment then PlusPlus else MinusMinus]); }
      Traverse(e.expr);
      if e.post { Write([if e.increment then PlusPlus else MinusMinus]); }
    }

    method TraverseUnpack(e: Expr<Literal>)
      requires e.ArrayUnpack?
      modifies this
      ensures os == old(os) + Pieces(Texts(format, e))
      decreases e, 0
    {
      hide LiteralText, AllPieces, AllTexts;
      Traverse(e.vec);
      Write([LSquare]);
      Traverse(e.component0);
      if e.component1.Some? {
        Write([CommaSign, Space]);
        Traverse(e.component1.value);
      }
      Write([RSquare]);
    }

    /** Writes the children of a list node, with a comma after each but the last. */
    method TraverseAll(e: Expr<Literal>)
      requires e.ArrayPack? || e.CommaOperator? || e.FunctionCall?
      modifies this
      ensures os == old(os) + AllPieces(AllTexts(format, e.exprs))
      decreases e, 0
    {
      hide Pieces, Texts;
      ghost var all := AllTexts(format, e.exprs);
      var i := 0;
      while i < |e.exprs|
        invariant i <= |e.exprs|
        invariant old(os) + AllPieces(all) == os + AllPieces(all[i..])
      {
        Traverse(e.exprs[i]);
        if i != |e.exprs| - 1 {
          Write([CommaSign, Space]);
        }
        assert all[i..][1..] == all[i + 1..];
        i := i + 1;
      }
      assert AllPieces(all[i..]) == [];
    }
  }

  // ---------------------------------------------------------------------------------------
  // Reading an expression back

  /** The tokens of an expression if no two signs were joined. */
  function Print(e: Text): (ts: seq<Token>)
    ensures IsText(e) ==> |ts| > 0
  {
    match e
    case Value(ts) => ts
    case Local(name) => [Identifier(name)]
    case Attribute(ty, name, _) => [TypeName(ty), AtSign, Identifier(name)]
    case ExternalVariable(ty, name) => [TypeName(ty), DollarSign, Identifier(name)]
    case ArrayUnpack(vec, i, j) =>
      Print(vec) + [LSquare] + Print(i) + (if j.Some? then [CommaSign] + Print(j.value) else []) + [RSquare]
    case ArrayPack(es) => [LCurly] + PrintAll(es) + [RCurly]
    case UnaryOperator(op, a) => [Operator(op)] + Print(a)
    case BinaryOperator(op, l, r) => [LParens] + Print(l) + [Operator(op)] + Print(r) + [RParens]
    case CommaOperator(es) => [LParens] + PrintAll(es) + [RParens]
    case FunctionCall(f, args) => [Identifier(f), LParens] + PrintAll(args) + [RParens]
    case Cast(ty, a) => [TypeName(ty), LParens] + Print(a) + [RParens]
    case _ => []
  }

  function PrintAll(es: seq<Text>): seq<Token> {
    if es == [] then []
    else if |es| == 1 then Print(es[0])
    else Print(es[0]) + [CommaSign] + PrintAll(es[1..])
  }

  datatype Parsed = Parsed(e: Text, rest: seq<Token>)
  datatype ParsedList = ParsedList(es: seq<Text>, rest: seq<Token>)

  predicate StartsWith(ts: seq<Token>, t: Token) {
    ts != [] && ts[0] == t
  }

  /** A recursive descent parser of what the visitor prints for expressions without ternaries and writes.
      A number with the name f behind it is taken as a float, although the grammar knows no such literal. */
  function Parse(ts: seq<Token>): (r: Option<Parsed>)
    ensures r.Some? ==> |r.value.rest| < |ts|
    decreases |ts|, 1
  {
    if ts == [] then None
    else
      match ts[0]
      case BoolWord(_) => Some(Parsed(Value(ts[..1]), ts[1..]))
      case StringText(_) => Some(Parsed(Value(ts[..1]), ts[1..]))
      case NumberText(_) =>
        var n := if StartsWith(ts[1..], Identifier("f")) then 2 else 1;
        Some(Parsed(Value(ts[..n]), ts[n..]))
      case Identifier(name) =>
        if StartsWith(ts[1..], LParens) then
          var args := ParseList(ts[2..], RParens);
          if args.None? then None else Some(Parsed(FunctionCall(name, args.value.es), args.value.rest))
        else ParseComponent(Local(name), ts[1..])
      case TypeName(ty) => ParseTyped(ty, ts[1..])
      case Operator(op) =>
        var a := Parse(ts[1..]);
        if a.None? then None else Some(Parsed(UnaryOperator(op, a.value.e), a.value.rest))
      case LCurly =>
        var es := ParseList(ts[1..], RCurly);
        if es.None? then None else Some(Parsed(ArrayPack(es.value.es), es.value.rest))
      case LParens => ParseParens(ts[1..])
      case _ => None
  }

  /** What follows a type: an attribute, an external variable or a cast. */
  function ParseTyped(ty: CoreType, ts: seq<Token>): (r: Option<Parsed>)
    ensures r.Some? ==> |r.value.rest| < |ts|
    decreases |ts|, 2
  {
    if |ts| < 2 then None
    else if ts[0] == AtSign && ts[1].Identifier? then ParseComponent(Attribute(ty, ts[1].name, false), ts[2..])
    else if ts[0] == DollarSign && ts[1].Identifier? then Some(Parsed(ExternalVariable(ty, ts[1].name), ts[2..]))
    else if ts[0] == LParens then
      var a := Parse(ts[1..]);
      if a.None? || !StartsWith(a.value.rest, RParens) then None
      else Some(Parsed(Cast(ty, a.value.e), a.value.rest[1..]))
    else None
  }

  /** A variable, perhaps followed by a component access. */
  function ParseComponent(v: Text, ts: seq<Token>): (r: Option<Parsed>)
    ensures r.Some? ==> |r.value.rest| <= |ts|
    decreases |ts|, 0
  {
    if !StartsWith(ts, LSquare) then Some(Parsed(v, ts))
    else
      var i := Parse(ts[1..]);
      if i.None? then None
      else if StartsWith(i.value.rest, RSquare) then Some(Parsed(ArrayUnpack(v, i.value.e, None), i.value.rest[1..]))
      else if StartsWith(i.value.rest, CommaSign) then
        var j := Parse(i.value.rest[1..]);
        if j.None? || !StartsWith(j.value.rest, RSquare) then None
        else Some(Parsed(ArrayUnpack(v, i.value.e, Some(j.value.e)), j.value.rest[1..]))
      else None
  }

  /** What follows an opening parenthesis: a binary expression or a list. */
  function ParseParens(ts: seq<Token>): (r: Option<Parsed>)
    ensures r.Some? ==> |r.value.rest| < |ts|
    decreases |ts|, 4
  {
    var l := Parse(ts);
    if l.Some? && l.value.rest != [] && l.value.rest[0].Operator? then
      var r := Parse(l.value.rest[1..]);
      if r.None? || !StartsWith(r.value.rest, RParens) then None
      else Some(Parsed(BinaryOperator(l.value.rest[0].op, l.value.e, r.value.e), r.value.rest[1..]))
    else
      var es := ParseList(ts, RParens);
      if es.None? then None else Some(Parsed(CommaOperator(es.value.es), es.value.rest))
  }

  function ParseList(ts: seq<Token>, close: Token): (r: Option<ParsedList>)
    ensures r.Some? ==> |r.value.rest| < |ts|
    decreases |ts|, 3
  {
    if StartsWith(ts, close) then Some(ParsedList([], ts[1..])) else ParseMore(ts, close)
  }

  function ParseMore(ts: seq<Token>, close: Token): (r: Option<ParsedList>)
    ensures r.Some? ==> |r.value.rest| < |ts|
    decreases |ts|, 2
  {
    var e := Parse(ts);
    if e.None? then None
    else if StartsWith(e.value.rest, close) then Some(ParsedList([e.value.e], e.value.rest[1..]))
    else if StartsWith(e.value.rest, CommaSign) then
      var more := ParseMore(e.value.rest[1..], close);
      if more.None? then None else Some(ParsedList([e.value.e] + more.value.es, more.value.rest))
    else None
  }

  /** What the lexer accepts between quotes. */
  predicate IsQuotable(s: string) {
    s == [] ||
    if s[0] == '\\' then |s| > 1 && s[1] != '\n' && IsQuotable(s[2..])
    else s[0] != '"' && s[0] != '\n' && IsQuotable(s[1..])
  }

  /**
  The expressions that can be read back: no ternaries, assignments or crements, components of variables
  only, and strings as they come from the lexer.
  */
  predicate IsPlain(e: Expr<Literal>) {
    match e
    case Value(l) => l.StringValue? ==> IsQuotable(l.s)
    case Local(_) => true
    case Attribute(_, _, _) => true
    case ExternalVariable(_, _) => true
    case ArrayUnpack(vec, i, j) =>
      (vec.Local? || vec.Attribute?) && IsPlain(i) && (j.Some? ==> IsPlain(j.value))
    case ArrayPack(es) => forall x | x in es :: IsPlain(x)
    case UnaryOperator(_, a) => IsPlain(a)
    case BinaryOperator(_, l, r) => IsPlain(l) && IsPlain(r)
    case CommaOperator(es) => forall x | x in es :: IsPlain(x)
    case FunctionCall(_, args) => forall x | x in args :: IsPlain(x)
    case Cast(_, a) => IsPlain(a)
    case TernaryOperator(_, _, _) => false
    case AssignExpression(_, _, _) => false
    case Crement(_, _, _) => false
  }

  predicate IsLiteral(ts: seq<Token>) {
    (|ts| == 1 && (ts[0].BoolWord? || ts[0].StringText? || ts[0].NumberText?)) ||
    (|ts| == 2 && ts[0].NumberText? && ts[1] == Identifier("f"))
  }

  /** A plain expression over tokens, whose literals are tokens of literals. */
  predicate IsText(e: Text) {
    match e
    case Value(ts) => IsLiteral(ts)
    case Local(_) => true
    case Attribute(_, _, inferred) => !inferred
    case ExternalVariable(_, _) => true
    case ArrayUnpack(vec, i, j) =>
      (vec.Local? || (vec.Attribute? && !vec.inferred)) && IsText(i) && (j.Some? ==> IsText(j.value))
    case ArrayPack(es) => forall x | x in es :: IsText(x)
    case UnaryOperator(_, a) => IsText(a)
    case BinaryOperator(_, l, r) => IsText(l) && IsText(r)
    case CommaOperator(es) => forall x | x in es :: IsText(x)
    case FunctionCall(_, args) => forall x | x in args :: IsText(x)
    case Cast(_, a) => IsText(a)
    case TernaryOperator(_, _, _) => false
    case AssignExpression(_, _, _) => false
    case Crement(_, _, _) => false
  }

  lemma {:induction false} TextsAreText(format: FloatFormat, e: Expr<Literal>)
    requires IsPlain(e)
    ensures IsText(Texts(format, e))
  {
    match e
    case Value(l) =>
    case ArrayUnpack(vec, i, j) =>
      TextsAreText(format, i);
      if j.Some? { TextsAreText(format, j.value); }
    case ArrayPack(es) => AllTextsAreText(format, e);
    case UnaryOperator(_, a) => TextsAreText(format, a);
    case BinaryOperator(_, l, r) =>
      TextsAreText(format, l);
      TextsAreText(format, r);
    case CommaOperator(es) => AllTextsAreText(format, e);
    case FunctionCall(_, args) => AllTextsAreText(format, e);
    case Cast(_, a) => TextsAreText(format, a);
    case _ =>
  }

  lemma {:induction false} AllTextsAreText(format: FloatFormat, e: Expr<Literal>)
    requires e.ArrayPack? || e.CommaOperator? || e.FunctionCall?
    requires IsPlain(e)
    ensures forall t | t in AllTexts(format, e.exprs) :: IsText(t)
    decreases e, 0
  {
    forall i | 0 <= i < |e.exprs| ensures IsText(AllTexts(format, e.exprs)[i]) {
      TextsAreText(format, e.exprs[i]);
    }
  }

  /** Tokens that cannot continue an expression that has just ended. */
  predicate Stops(ts: seq<Token>) {
    ts == [] || !(ts[0].LParens? || ts[0].LSquare? || ts[0].AtSign? || ts[0].DollarSign? || ts[0].Identifier?)
  }

  // Steps of the parser, given what it makes of the parts.

  lemma UnaryStep(op: OperatorToken, a: Text, inner: seq<Token>, s: seq<Token>)
    requires Parse(inner) == Some(Parsed(a, s))
    ensures Parse([Operator(op)] + inner) == Some(Parsed(UnaryOperator(op, a), s))
  {
    hide ParseTyped, ParseComponent, ParseParens, ParseList, ParseMore;
    assert ([Operator(op)] + inner)[1..] == inner;
  }

  lemma CastStep(ty: CoreType, a: Text, inner: seq<Token>, s: seq<Token>)
    requires Parse(inner) == Some(Parsed(a, [RParens] + s))
    ensures Parse([TypeName(ty), LParens] + inner) == Some(Parsed(Cast(ty, a), s))
  {
    hide ParseComponent, ParseParens, ParseList, ParseMore;
    var ts := [TypeName(ty), LParens] + inner;
    assert ts[1..] == [LParens] + inner && ts[1..][1..] == inner && ([RParens] + s)[1..] == s;
    assert ParseTyped(ty, ts[1..]) == Some(Parsed(Cast(ty, a), s));
  }

  lemma BinaryStep(
    op: OperatorToken, l: Text, r: Text, first: seq<Token>, second: seq<Token>, s: seq<Token>)
    requires Parse(first) == Some(Parsed(l, [Operator(op)] + second))
    requires Parse(second) == Some(Parsed(r, [RParens] + s))
    ensures Parse([LParens] + first) == Some(Parsed(BinaryOperator(op, l, r), s))
  {
    hide ParseTyped, ParseComponent, ParseList, ParseMore;
    assert ([LParens] + first)[1..] == first && ([Operator(op)] + second)[1..] == second && ([RParens] + s)[1..] == s;
    assert ParseParens(first) == Some(Parsed(BinaryOperator(op, l, r), s));
  }

  /** A list in parentheses whose first expression is not followed by an operator. */
  lemma CommaStep(es: seq<Text>, inner: seq<Token>, s: seq<Token>)
    requires ParseList(inner, RParens) == Some(ParsedList(es, s))
    requires Parse(inner).Some? ==> var rest := Parse(inner).value.rest; rest == [] || !rest[0].Operator?
    ensures Parse([LParens] + inner) == Some(Parsed(CommaOperator(es), s))
  {
    hide ParseTyped, ParseComponent, ParseList, ParseMore;
    assert ([LParens] + inner)[1..] == inner;
    assert ParseParens(inner) == Some(Parsed(CommaOperator(es), s));
  }

  lemma CallStep(name: string, es: seq<Text>, inner: seq<Token>, s: seq<Token>)
    requires ParseList(inner, RParens) == Some(ParsedList(es, s))
    ensures Parse([Identifier(name), LParens] + inner) == Some(Parsed(FunctionCall(name, es), s))
  {
    hide ParseTyped, ParseComponent, ParseParens, ParseList, ParseMore;
    var ts := [Identifier(name), LParens] + inner;
    assert ts[1..] == [LParens] + inner && ts[2..] == inner;
  }

  lemma PackStep(es: seq<Text>, inner: seq<Token>, s: seq<Token>)
    requires ParseList(inner, RCurly) == Some(ParsedList(es, s))
    ensures Parse([LCurly] + inner) == Some(Parsed(ArrayPack(es), s))
  {
    hide ParseTyped, ParseComponent, ParseParens, ParseList, ParseMore;
    assert ([LCurly] + inner)[1..] == inner;
  }

  lemma VariableStep(v: Text, after: seq<Token>)
    requires v.Local? || (v.Attribute? && !v.inferred)
    requires after == [] || !after[0].LParens?
    ensures Parse(Print(v) + after) == ParseComponent(v, after)
  {
    hide ParseComponent, ParseParens, ParseList, ParseMore;
    var ts := Print(v) + after;
    if v.Local? {
      assert ts[1..] == after;
    } else {
      assert ts[1..] == [AtSign, Identifier(v.name)] + after && ts[1..][2..] == after;
      assert ParseTyped(v.ty, ts[1..]) == ParseComponent(v, after);
    }
  }

  lemma ComponentStep(v: Text, i: Text, first: seq<Token>, s: seq<Token>)
    requires Parse(first) == Some(Parsed(i, [RSquare] + s))
    ensures ParseComponent(v, [LSquare] + first) == Some(Parsed(ArrayUnpack(v, i, None), s))
  {
    hide Parse, ParseTyped, ParseParens, ParseList, ParseMore;
    assert ([LSquare] + first)[1..] == first && ([RSquare] + s)[1..] == s;
  }

  lemma TwoComponentsStep(
    v: Text, i: Text, j: Text, first: seq<Token>, second: seq<Token>, s: seq<Token>)
    requires Parse(first) == Some(Parsed(i, [CommaSign] + second))
    requires Parse(second) == Some(Parsed(j, [RSquare] + s))
    ensures ParseComponent(v, [LSquare] + first) == Some(Parsed(ArrayUnpack(v, i, Some(j)), s))
  {
    hide Parse, ParseTyped, ParseParens, ParseList, ParseMore;
    assert ([LSquare] + first)[1..] == first && ([CommaSign] + second)[1..] == second && ([RSquare] + s)[1..] == s;
  }

  lemma LastStep(e: Text, inner: seq<Token>, close: Token, s: seq<Token>)
    requires Parse(inner) == Some(Parsed(e, [close] + s))
    ensures ParseMore(inner, close) == Some(ParsedList([e], s))
  {
    hide Parse, ParseTyped, ParseComponent, ParseParens, ParseList;
    assert ([close] + s)[1..] == s;
  }

  lemma MoreStep(
    e: Text, es: seq<Text>, inner: seq<Token>, more: seq<Token>, close: Token, s: seq<Token>)
    requires close != CommaSign && Parse(inner) == Some(Parsed(e, [CommaSign] + more))
    requires ParseMore(more, close) == Some(ParsedList(es, s))
    ensures ParseMore(inner, close) == Some(ParsedList([e] + es, s))
  {
    hide Parse, ParseTyped, ParseComponent, ParseParens, ParseList;
    assert ([CommaSign] + more)[1..] == more;
  }

  /** The tokens of an expression that are followed by others, regrouped part by part. */
  function PrintedOn(e: Text, s: seq<Token>): seq<Token>
    requires IsText(e)
  {
    match e
    case ArrayUnpack(vec, i, j) =>
      var tail := [RSquare] + s;
      Print(vec) + ([LSquare] + (Print(i) + if j.Some? then [CommaSign] + (Print(j.value) + tail) else tail))
    case ArrayPack(es) => [LCurly] + (PrintAll(es) + ([RCurly] + s))
    case UnaryOperator(op, a) => [Operator(op)] + (Print(a) + s)
    case BinaryOperator(op, l, r) => [LParens] + (Print(l) + ([Operator(op)] + (Print(r) + ([RParens] + s))))
    case CommaOperator(es) => [LParens] + (PrintAll(es) + ([RParens] + s))
    case FunctionCall(f, args) => [Identifier(f), LParens] + (PrintAll(args) + ([RParens] + s))
    case Cast(ty, a) => [TypeName(ty), LParens] + (Print(a) + ([RParens] + s))
    case _ => Print(e) + s
  }

  lemma Regrouped(e: Text, s: seq<Token>)
    requires IsText(e)
    ensures Print(e) + s == PrintedOn(e, s)
  {
    hide IsText;
    match e
    case ArrayUnpack(vec, i, j) =>
      var tail := [RSquare] + s;
      Assoc4(Print(vec), [LSquare], Print(i),
        if j.Some? then [CommaSign] + Print(j.value) else [], [RSquare], s);
      if j.Some? { Assoc([CommaSign], Print(j.value), tail); } else { assert [] + tail == tail; }
    case ArrayPack(es) => Assoc3([LCurly], PrintAll(es), [RCurly], s);
    case UnaryOperator(op, a) => Assoc([Operator(op)], Print(a), s);
    case BinaryOperator(op, l, r) => Assoc4([LParens], Print(l), [Operator(op)], Print(r), [RParens], s);
    case CommaOperator(es) => Assoc3([LParens], PrintAll(es), [RParens], s);
    case FunctionCall(f, args) => Assoc3([Identifier(f), LParens], PrintAll(args), [RParens], s);
    case Cast(ty, a) => Assoc3([TypeName(ty), LParens], Print(a), [RParens], s);
    case _ =>
  }

  lemma Assoc<T>(a: seq<T>, b: seq<T>, c: seq<T>)
    ensures a + b + c == a + (b + c)
  {}

  lemma Assoc3<T>(a: seq<T>, b: seq<T>, c: seq<T>, d: seq<T>)
    ensures a + b + c + d == a + (b + (c + d))
  {}

  lemma Assoc4<T>(a: seq<T>, b: seq<T>, c: seq<T>, d: seq<T>, e: seq<T>, f: seq<T>)
    ensures a + b + c + d + e + f == a + (b + (c + (d + (e + f))))
  {}

  /** Parsing gives back the expression that was printed, whatever else follows. */
  lemma {:induction false} ParsePrinted(e: Text, s: seq<Token>)
    requires IsText(e) && Stops(s)
    ensures Parse(Print(e) + s) == Some(Parsed(e, s))
    decreases e, 1
  {
    hide Parse, ParseTyped, ParseComponent, ParseParens, ParseList, ParseMore, Print, PrintAll;
    Regrouped(e, s);
    var tail := [RParens] + s;
    match e
    case Value(_) => LeafParsed(e, s);
    case Local(_) => LeafParsed(e, s);
    case Attribute(_, _, _) => LeafParsed(e, s);
    case ExternalVariable(_, _) => LeafParsed(e, s);
    case ArrayUnpack(_, _, _) => UnpackParsed(e, s);
    case ArrayPack(es) =>
      ListParsed(e, RCurly, s);
      PackStep(es, PrintAll(es) + ([RCurly] + s), s);
    case UnaryOperator(op, a) =>
      ParsePrinted(a, s);
      UnaryStep(op, a, Print(a) + s, s);
    case BinaryOperator(op, l, r) =>
      var second := Print(r) + tail;
      ParsePrinted(l, [Operator(op)] + second);
      ParsePrinted(r, tail);
      BinaryStep(op, l, r, Print(l) + ([Operator(op)] + second), second, s);
    case CommaOperator(es) =>
      ListParsed(e, RParens, s);
      NotBinary(e, tail);
      CommaStep(es, PrintAll(es) + tail, s);
    case FunctionCall(f, args) =>
      ListParsed(e, RParens, s);
      CallStep(f, args, PrintAll(args) + tail, s);
    case Cast(ty, a) =>
      ParsePrinted(a, tail);
      CastStep(ty, a, Print(a) + tail, s);
  }

  lemma LeafParsed(e: Text, s: seq<Token>)
    requires (e.Value? || e.Local? || e.Attribute? || e.ExternalVariable?) && IsText(e) && Stops(s)
    ensures Parse(Print(e) + s) == Some(Parsed(e, s))
  {
    hide Parse, ParseParens, ParseList, ParseMore;
    match e
    case Value(ls) => LiteralParsed(ls, s);
    case ExternalVariable(ty, name) => ExternalParsed(ty, name, s);
    case _ => VariableStep(e, s);
  }

  lemma ExternalParsed(ty: CoreType, name: string, s: seq<Token>)
    ensures Parse([TypeName(ty), DollarSign, Identifier(name)] + s) == Some(Parsed(ExternalVariable(ty, name), s))
  {
    hide ParseComponent, ParseParens, ParseList, ParseMore;
    var ts := [TypeName(ty), DollarSign, Identifier(name)] + s;
    assert ts[1..] == [DollarSign, Identifier(name)] + s && ts[1..][2..] == s;
    assert ParseTyped(ty, ts[1..]) == Some(Parsed(ExternalVariable(ty, name), s));
  }

  lemma LiteralParsed(ls: seq<Token>, s: seq<Token>)
    requires IsLiteral(ls) && Stops(s)
    ensures Parse(ls + s) == Some(Parsed(Value(ls), s))
  {
    hide ParseTyped, ParseComponent, ParseParens, ParseList, ParseMore;
    var ts := ls + s;
    assert ts[..|ls|] == ls && ts[|ls|..] == s && ts[1..] == ls[1..] + s;
  }

  lemma {:induction false} UnpackParsed(e: Text, s: seq<Token>)
    requires e.ArrayUnpack? && IsText(e)
    ensures Parse(PrintedOn(e, s)) == Some(Parsed(e, s))
    decreases e, 0
  {
    hide Parse, ParseTyped, ParseComponent, ParseParens, ParseList, ParseMore, Print, PrintAll;
    var v, i := e.vec, e.component0;
    var tail := [RSquare] + s;
    if e.component1.Some? {
      var j := e.component1.value;
      var second := Print(j) + tail;
      ParsePrinted(i, [CommaSign] + second);
      ParsePrinted(j, tail);
      VariableStep(v, [LSquare] + (Print(i) + ([CommaSign] + second)));
      TwoComponentsStep(v, i, j, Print(i) + ([CommaSign] + second), second, s);
    } else {
      ParsePrinted(i, tail);
      VariableStep(v, [LSquare] + (Print(i) + tail));
      ComponentStep(v, i, Print(i) + tail, s);
    }
  }

  lemma AllPrinted(es: seq<Text>)
    ensures PrintAll(es) ==
              if es == [] then [] else Print(es[0]) + if |es| == 1 then [] else [CommaSign] + PrintAll(es[1..])
  {}

  lemma AllPrintedOn(es: seq<Text>, tail: seq<Token>)
    requires es != []
    ensures PrintAll(es) + tail ==
              Print(es[0]) + if |es| == 1 then tail else [CommaSign] + (PrintAll(es[1..]) + tail)
  {
    hide Print;
    if |es| > 1 { Assoc3(Print(es[0]), [CommaSign], PrintAll(es[1..]), tail); }
  }

  lemma {:induction false} NotBinary(e: Text, tail: seq<Token>)
    requires e.CommaOperator? && IsText(e) && tail != [] && tail[0] == RParens
    ensures var r := Parse(PrintAll(e.exprs) + tail);
            r.Some? ==> r.value.rest == [] || !r.value.rest[0].Operator?
    decreases e, 0
  {
    hide ParseTyped, ParseComponent, ParseParens, ParseList, ParseMore, Print, PrintAll;
    var es := e.exprs;
    AllPrinted(es);
    if es == [] {
      assert [] + tail == tail;
    } else {
      hide Parse;
      var rest := (if |es| == 1 then [] else [CommaSign] + PrintAll(es[1..])) + tail;
      assert PrintAll(es) + tail == Print(es[0]) + rest;
      assert rest[0] == if |es| == 1 then RParens else CommaSign;
      ParsePrinted(es[0], rest);
    }
  }

  lemma {:induction false} ListParsed(e: Text, close: Token, s: seq<Token>)
    requires (e.ArrayPack? || e.CommaOperator? || e.FunctionCall?) && IsText(e)
    requires close == RParens || close == RCurly
    ensures ParseList(PrintAll(e.exprs) + ([close] + s), close) == Some(ParsedList(e.exprs, s))
    decreases e, 0
  {
    hide Parse, ParseTyped, ParseComponent, ParseParens, ParseMore, Print, PrintAll;
    var ts := PrintAll(e.exprs) + ([close] + s);
    AllPrinted(e.exprs);
    if e.exprs == [] {
      assert ts == [close] + s && ts[1..] == s;
    } else {
      MoreParsed(e, 0, close, s);
      assert e.exprs[0..] == e.exprs;
      NoExprStartsWith(e.exprs[0], close);
    }
  }

  lemma NoExprStartsWith(e: Text, close: Token)
    requires IsText(e) && (close == RParens || close == RCurly)
    ensures Print(e)[0] != close
  {
    if e.ArrayUnpack? {
      assert Print(e)[0] == Print(e.vec)[0];
    }
  }

  lemma ChildText(e: Text, i: nat)
    requires (e.ArrayPack? || e.CommaOperator? || e.FunctionCall?) && IsText(e) && i < |e.exprs|
    ensures IsText(e.exprs[i])
    ensures e.exprs[i..] == [e.exprs[i]] + e.exprs[i + 1..]
  {
    assert e.exprs[i] in e.exprs;
  }

  lemma {:induction false} MoreParsed(e: Text, i: nat, close: Token, s: seq<Token>)
    requires (e.ArrayPack? || e.CommaOperator? || e.FunctionCall?) && IsText(e) && i < |e.exprs|
    requires close == RParens || close == RCurly
    ensures ParseMore(PrintAll(e.exprs[i..]) + ([close] + s), close) == Some(ParsedList(e.exprs[i..], s))
    decreases e, 0, |e.exprs| - i
  {
    hide Parse, ParseTyped, ParseComponent, ParseParens, ParseList, ParseMore, Print, PrintAll, IsText;
    var es, tail, x := e.exprs[i..], [close] + s, e.exprs[i];
    AllPrintedOn(es, tail);
    ChildText(e, i);
    if |es| == 1 {
      assert es == [x];
      ParsePrinted(x, tail);
      LastStep(x, Print(x) + tail, close, s);
    } else {
      var rest := e.exprs[i + 1..];
      assert es[1..] == rest;
      var more := PrintAll(rest) + tail;
      ParsePrinted(x, [CommaSign] + more);
      MoreParsed(e, i + 1, close, s);
      MoreStep(x, rest, Print(x) + ([CommaSign] + more), more, close, s);
    }
  }

  // ---------------------------------------------------------------------------------------
  // From the text to its tokens

  /** Joined signs taken apart. */
  function Split(ts: seq<Token>): seq<Token> {
    if ts == [] then []
    else if ts[0] == PlusPlus then [Operator(PLUS), Operator(PLUS)] + Split(ts[1..])
    else if ts[0] == MinusMinus then [Operator(MINUS), Operator(MINUS)] + Split(ts[1..])
    else [ts[0]] + Split(ts[1..])
  }

  function Unspaced(ps: seq<Token>): seq<Token> {
    if ps == [] then []
    else (if ps[0] == Space then [] else [ps[0]]) + Unspaced(ps[1..])
  }

  predicate NoCrements(ps: seq<Token>) {
    PlusPlus !in ps && MinusMinus !in ps
  }

  lemma {:induction false} UnspacedConcat(a: seq<Token>, b: seq<Token>)
    ensures Unspaced(a + b) == Unspaced(a) + Unspaced(b)
  {
    if a == [] {
      assert a + b == b;
    } else {
      assert (a + b)[1..] == a[1..] + b;
      UnspacedConcat(a[1..], b);
    }
  }

  lemma {:induction false} UnspacedAll(ps: seq<Token>)
    requires Space !in ps
    ensures Unspaced(ps) == ps
  {
    if ps != [] { UnspacedAll(ps[1..]); }
  }

  lemma SplitHead(t: Token, ts: seq<Token>)
    ensures Split([t] + ts) ==
              (if t == PlusPlus then [Operator(PLUS), Operator(PLUS)]
               else if t == MinusMinus then [Operator(MINUS), Operator(MINUS)]
               else [t]) + Split(ts)
  {
    assert ([t] + ts)[1..] == ts;
  }

  /** The lexer either drops a blank, or joins two equal signs, or takes one token as it is. */
  lemma LexedHead(ps: seq<Token>)
    requires ps != [] && NoCrements(ps)
    ensures Lexed(ps) ==
              if ps[0] == Space then Lexed(ps[1..])
              else if |ps| > 1 && IsSign(ps[0]) && ps[1] == ps[0] then [Doubled(ps[0])] + Lexed(ps[2..])
              else [ps[0]] + Lexed(ps[1..])
  {
    if |ps| > 1 { assert ps[1] in ps; }
  }

  /** Without crements in the text, the lexer joins only signs of unary operators. */
  lemma {:induction false} SplitLexed(ps: seq<Token>)
    requires NoCrements(ps)
    ensures Split(Lexed(ps)) == Unspaced(ps)
    decreases |ps|
  {
    hide Split, Lexed, Unspaced;
    if ps == [] {
      NothingLexed();
    } else {
      LexedHead(ps);
      assert ps == [ps[0]] + ps[1..];
      UnspacedConcat([ps[0]], ps[1..]);
      UnspacedOne(ps[0]);
      if |ps| > 1 && IsSign(ps[0]) && ps[1] == ps[0] {
        SplitLexed(ps[2..]);
        SplitHead(Doubled(ps[0]), Lexed(ps[2..]));
        assert ps[1..] == [ps[1]] + ps[2..];
        UnspacedConcat([ps[1]], ps[2..]);
      } else {
        SplitLexed(ps[1..]);
        SplitHead(ps[0], Lexed(ps[1..]));
        assert [] + Unspaced(ps[1..]) == Unspaced(ps[1..]);
      }
    }
  }

  lemma NothingLexed()
    ensures Lexed([]) == [] && Split([]) == [] && Unspaced([]) == []
  {}

  lemma UnspacedOne(t: Token)
    ensures Unspaced([t]) == if t == Space then [] else [t]
  {}

  /** A sign that stands directly in front of the same sign. */
  predicate JoinsSigns(ps: seq<Token>) {
    exists k :: 0 <= k < |ps| - 1 && IsSign(ps[k]) && ps[k + 1] == ps[k]
  }

  /** The lexer keeps the signs of a text apart exactly if no sign stands in front of the same sign. */
  lemma {:induction false} LexedApart(ps: seq<Token>)
    requires NoCrements(ps)
    ensures |Lexed(ps)| <= |Unspaced(ps)|
    ensures Lexed(ps) == Unspaced(ps) <==> !JoinsSigns(ps)
    decreases |ps|
  {
    hide Split, Lexed, Unspaced;
    if ps == [] {
      NothingLexed();
    } else {
      LexedHead(ps);
      assert ps == [ps[0]] + ps[1..];
      UnspacedConcat([ps[0]], ps[1..]);
      UnspacedOne(ps[0]);
      if |ps| > 1 && IsSign(ps[0]) && ps[1] == ps[0] {
        LexedApart(ps[2..]);
        assert ps[1..] == [ps[1]] + ps[2..];
        UnspacedConcat([ps[1]], ps[2..]);
        assert ps[0 + 1] == ps[0];
      } else {
        LexedApart(ps[1..]);
        LexedTail(ps);
        assert [] + Unspaced(ps[1..]) == Unspaced(ps[1..]);
        assert ps[0] != Space ==> Lexed(ps)[1..] == Lexed(ps[1..]) && Unspaced(ps)[1..] == Unspaced(ps[1..]);
      }
    }
  }

  lemma LexedTail(ps: seq<Token>)
    requires ps != [] && !(|ps| > 1 && IsSign(ps[0]) && ps[1] == ps[0])
    ensures JoinsSigns(ps) <==> JoinsSigns(ps[1..])
  {
    if JoinsSigns(ps) {
      var k :| 0 <= k < |ps| - 1 && IsSign(ps[k]) && ps[k + 1] == ps[k];
      assert ps[1..][k - 1] == ps[k] && ps[1..][k - 1 + 1] == ps[k + 1];
    }
    if JoinsSigns(ps[1..]) {
      var k :| 0 <= k < |ps| - 2 && IsSign(ps[1..][k]) && ps[1..][k + 1] == ps[1..][k];
      assert ps[k + 1] == ps[1..][k] && ps[k + 1 + 1] == ps[1..][k + 1];
    }
  }

  lemma BinaryPieces(op: OperatorToken, l: seq<Token>, r: seq<Token>)
    ensures Unspaced([LParens] + l + [Space, Operator(op), Space] + r + [RParens]) ==
            [LParens] + Unspaced(l) + [Operator(op)] + Unspaced(r) + [RParens]
  {
    var mid := [Space, Operator(op), Space];
    Enclosed([LParens], l + mid + r, [RParens]);
    assert [LParens] + l + mid + r + [RParens] == [LParens] + (l + mid + r) + [RParens];
    UnspacedConcat(l + mid, r);
    UnspacedConcat(l, mid);
    UnspacedConcat([Space, Operator(op)], [Space]);
    UnspacedConcat([Space], [Operator(op)]);
    assert mid == [Space] + [Operator(op)] + [Space] && Unspaced([Space]) == [];
  }

  lemma UnpackPieces(v: seq<Token>, i: seq<Token>, j: Option<seq<Token>>)
    ensures Unspaced(v + [LSquare] + i + (if j.Some? then [CommaSign, Space] + j.value else []) + [RSquare]) ==
            Unspaced(v) + [LSquare] + Unspaced(i) +
            (if j.Some? then [CommaSign] + Unspaced(j.value) else []) + [RSquare]
  {
    hide Unspaced;
    var last := if j.Some? then [CommaSign, Space] + j.value else [];
    UnspacedConcat(v + [LSquare] + i + last, [RSquare]);
    UnspacedConcat(v + [LSquare] + i, last);
    UnspacedConcat(v + [LSquare], i);
    UnspacedConcat(v, [LSquare]);
    UnspacedAll([LSquare]);
    UnspacedAll([RSquare]);
    UnspacedAll([]);
    if j.Some? {
      UnspacedConcat([CommaSign, Space], j.value);
      CommaPieces();
    }
  }

  lemma CommaPieces()
    ensures Unspaced([CommaSign, Space]) == [CommaSign]
  {
    assert [CommaSign, Space][1..] == [Space];
  }

  lemma {:induction false} PiecesArePrint(e: Text)
    requires IsText(e)
    ensures Unspaced(Pieces(e)) == Print(e) && NoCrements(Pieces(e))
    decreases e, 1
  {
    hide Unspaced, AllPieces, PrintAll;
    match e
    case ArrayUnpack(_, _, _) => UnpackIsPrint(e);
    case ArrayPack(es) =>
      ListPieces(e);
      Enclosed([LCurly], AllPieces(es), [RCurly]);
    case UnaryOperator(op, a) =>
      PiecesArePrint(a);
      UnspacedConcat([Operator(op)], Pieces(a));
      UnspacedAll([Operator(op)]);
    case BinaryOperator(op, l, r) =>
      PiecesArePrint(l);
      PiecesArePrint(r);
      BinaryPieces(op, Pieces(l), Pieces(r));
    case CommaOperator(es) =>
      ListPieces(e);
      Enclosed([LParens], AllPieces(es), [RParens]);
    case FunctionCall(f, args) =>
      ListPieces(e);
      Enclosed([Identifier(f), LParens], AllPieces(args), [RParens]);
    case Cast(ty, a) =>
      PiecesArePrint(a);
      Enclosed([TypeName(ty), LParens], Pieces(a), [RParens]);
    case _ => UnspacedAll(Pieces(e));
  }

  lemma Enclosed(open: seq<Token>, inner: seq<Token>, close: seq<Token>)
    requires Space !in open && Space !in close
    ensures Unspaced(open + inner + close) == open + Unspaced(inner) + close
  {
    UnspacedConcat(open + inner, close);
    UnspacedConcat(open, inner);
    UnspacedAll(open);
    UnspacedAll(close);
  }

  lemma {:induction false} UnpackIsPrint(e: Text)
    requires e.ArrayUnpack? && IsText(e)
    ensures Unspaced(Pieces(e)) == Print(e) && NoCrements(Pieces(e))
    decreases e, 0
  {
    hide Unspaced, AllPieces, PrintAll;
    var j := e.component1;
    PiecesArePrint(e.vec);
    PiecesArePrint(e.component0);
    if j.Some? { PiecesArePrint(j.value); }
    UnpackPieces(Pieces(e.vec), Pieces(e.component0), if j.Some? then Some(Pieces(j.value)) else None);
  }

  lemma {:induction false} ListPieces(e: Text)
    requires (e.ArrayPack? || e.CommaOperator? || e.FunctionCall?) && IsText(e)
    ensures Unspaced(AllPieces(e.exprs)) == PrintAll(e.exprs) && NoCrements(AllPieces(e.exprs))
    decreases e, 0, |e.exprs| + 1
  {
    hide Unspaced, AllPieces, PrintAll, IsText, NoCrements;
    AllPiecesArePrint(e, 0);
    assert e.exprs[0..] == e.exprs;
  }

  lemma {:induction false} AllPiecesArePrint(e: Text, i: nat)
    requires (e.ArrayPack? || e.CommaOperator? || e.FunctionCall?) && IsText(e) && i <= |e.exprs|
    ensures Unspaced(AllPieces(e.exprs[i..])) == PrintAll(e.exprs[i..]) && NoCrements(AllPieces(e.exprs[i..]))
    decreases e, 0, |e.exprs| - i
  {
    hide IsText, Pieces, Print, Unspaced;
    UnspacedAll([]);
    if i < |e.exprs| {
      ChildText(e, i);
      PiecesArePrint(e.exprs[i]);
      AllPiecesArePrint(e, i + 1);
      var first, rest := Pieces(e.exprs[i]), e.exprs[i + 1..];
      assert e.exprs[i..][1..] == rest;
      if rest != [] {
        UnspacedConcat(first + [CommaSign, Space], AllPieces(rest));
        UnspacedConcat(first, [CommaSign, Space]);
        CommaPieces();
      }
    }
  }

  /**
  Unique readability: two plain expressions are reprinted alike exactly when a reader sees the same
  expression, so when they differ in nothing but literals that print alike and in whether an attribute's
  type was inferred.
  */
  lemma UniquelyReadable(format: FloatFormat, a: Expr<Literal>, b: Expr<Literal>)
    requires IsPlain(a) && IsPlain(b)
    ensures Reprinted(format, a) == Reprinted(format, b) <==> Texts(format, a) == Texts(format, b)
  {
    hide Pieces, Print, Lexed, Split, Unspaced, Parse, IsPlain, Texts;
    var x, y := Texts(format, a), Texts(format, b);
    TextsAreText(format, a);
    TextsAreText(format, b);
    ParsePrinted(x, []);
    ParsePrinted(y, []);
    PiecesArePrint(x);
    PiecesArePrint(y);
    SplitLexed(Pieces(x));
    SplitLexed(Pieces(y));
    assert Print(x) + [] == Print(x) && Print(y) + [] == Print(y);
  }

  /** Unless the lexer joins two signs, the parser gets back what a reader of the text should see. */
  lemma ParsesBack(format: FloatFormat, e: Expr<Literal>)
    requires IsPlain(e) && !JoinsSigns(Pieces(Texts(format, e)))
    ensures Parse(Reprinted(format, e)) == Some(Parsed(Texts(format, e), []))
  {
    hide Pieces, Print, Lexed, Split, Unspaced, Parse, IsPlain, Texts;
    var x := Texts(format, e);
    TextsAreText(format, e);
    PiecesArePrint(x);
    LexedApart(Pieces(x));
    ParsePrinted(x, []);
    assert Print(x) + [] == Print(x);
  }

  // ---------------------------------------------------------------------------------------
  // What is lost in print

  /** Floating point numbers are printed without a suffix of the other number types. */
  ghost predicate FormatsNumbers(format: FloatFormat) {
    forall x :: var s := format(x); s != [] && s[|s| - 1] != 's' && s[|s| - 1] != 'l' && s[|s| - 1] != 'f'
  }

  lemma {:induction false} DigitsDiffer(a: nat, b: nat)
    requires Digits(a) == Digits(b)
    ensures a == b
  {
    var s, t := Digits(a), Digits(b);
    assert s[|s| - 1] == (a % 10) as char + '0' && t[|t| - 1] == (b % 10) as char + '0';
    assert a % 10 == b % 10;
    if a >= 10 && b >= 10 {
      assert s[..|s| - 1] == Digits(a / 10) && t[..|t| - 1] == Digits(b / 10);
      DigitsDiffer(a / 10, b / 10);
    }
  }

  /** Two finite numbers of one floating point type. */
  predicate SameFloatType(a: Literal, b: Literal) {
    ((a.FloatValue? && b.FloatValue?) || (a.DoubleValue? && b.DoubleValue?)) && a.x.Finite? && b.x.Finite?
  }

  predicate SameIntType(a: Literal, b: Literal) {
    (a.Int16Value? && b.Int16Value?) || (a.Int32Value? && b.Int32Value?) || (a.Int64Value? && b.Int64Value?)
  }

  /** A double that is written like an int32. */
  predicate LooksLike(format: FloatFormat, a: Literal, b: Literal) {
    a.DoubleValue? && a.x.Finite? && b.Int32Value? && b.Int() >= 0 && format(a.x.x) == Digits(b.Int())
  }

  predicate IsNumber(l: Literal) {
    l.IsInt() || ((l.FloatValue? || l.DoubleValue?) && l.x.Finite?)
  }

  /** The text of a number that is not negative, suffix included. */
  function NumberOf(format: FloatFormat, l: Literal): string
    requires IsNumber(l)
  {
    (if l.IsInt() then Digits(if l.Int() < 0 then -l.Int() else l.Int()) else format(l.x.x)) + Suffix(l)
  }

  lemma Suffixed(format: FloatFormat, a: Literal, b: Literal)
    requires FormatsNumbers(format)
    requires IsNumber(a) && IsNumber(b)
    requires NumberOf(format, a) == NumberOf(format, b)
    ensures Suffix(a) == Suffix(b)
    ensures NumberOf(format, a)[..|NumberOf(format, a)| - |Suffix(a)|] ==
            NumberOf(format, b)[..|NumberOf(format, b)| - |Suffix(b)|]
  {
    LastOf(format, a);
    LastOf(format, b);
  }

  lemma LastOf(format: FloatFormat, l: Literal)
    requires FormatsNumbers(format) && IsNumber(l)
    ensures var s := NumberOf(format, l);
            s != [] && if Suffix(l) != "" then s[|s| - 1] == Suffix(l)[0]
                       else s[|s| - 1] != 's' && s[|s| - 1] != 'l' && s[|s| - 1] != 'f'
  {
    if l.IsInt() {
      var s := Digits(if l.Int() < 0 then -l.Int() else l.Int());
      assert s[|s| - 1] in s;
    } else {
      assert format(l.x.x) != [];
    }
  }

  lemma TextOf(format: FloatFormat, l: Literal)
    ensures LiteralText(format, l) ==
              if !IsNumber(l) then
                match l
                case BoolValue(b) => Value([BoolWord(b)])
                case StringValue(s) => Value([StringText(s)])
                case _ => Local(if l.FloatValue? then "inff" else "inf")
              else if l.IsInt() && l.Int() < 0 then UnaryOperator(MINUS, Value([NumberText(NumberOf(format, l))]))
              else if l.FloatValue? && IsNumeral(format(l.x.x)) then
                Value([NumberText(format(l.x.x)), Identifier("f")])
              else Value([NumberText(NumberOf(format, l))])
  {
    if l.DoubleValue? && l.x.Finite? { assert format(l.x.x) + "" == format(l.x.x); }
  }

  /**
  Two literals look alike to a reader exactly when they are the same, when they are integers of one type
  whose containers are cut down to one value, when they are finite floating point numbers of one type that
  are formatted alike, or when one is a double that is formatted like the other, an int32.
  */
  lemma LiteralsAlike(format: FloatFormat, a: Literal, b: Literal)
    requires FormatsNumbers(format)
    ensures LiteralText(format, a) == LiteralText(format, b) <==>
              (a == b ||
               (SameIntType(a, b) && a.Int() == b.Int()) ||
               (SameFloatType(a, b) && format(a.x.x) == format(b.x.x)) ||
               LooksLike(format, a, b) || LooksLike(format, b, a))
  {
    hide LiteralText, Digits, IsNumeral;
    TextOf(format, a);
    TextOf(format, b);
    if IsNumber(a) && IsNumber(b) {
      if NumberOf(format, a) == NumberOf(format, b) { Suffixed(format, a, b); }
      if a.IsInt() && b.IsInt() { IntsAlike(a.Int(), b.Int()); }
    }
  }

  lemma IntsAlike(a: int, b: int)
    ensures a >= 0 && b >= 0 && Digits(a) == Digits(b) ==> a == b
    ensures a < 0 && b < 0 && Digits(-a) == Digits(-b) ==> a == b
  {
    if a >= 0 && b >= 0 && Digits(a) == Digits(b) { DigitsDiffer(a, b); }
    if a < 0 && b < 0 && Digits(-a) == Digits(-b) { DigitsDiffer(-a, -b); }
  }

  /** No floating point literals, no integer literals that overflow their type, and no inferred types. */
  predicate IsExact(e: Expr<Literal>) {
    match e
    case Value(l) => !l.FloatValue? && !l.DoubleValue? && l.InRange()
    case Local(_) => true
    case Attribute(_, _, inferred) => !inferred
    case ExternalVariable(_, _) => true
    case ArrayUnpack(vec, i, j) => IsExact(vec) && IsExact(i) && (j.Some? ==> IsExact(j.value))
    case ArrayPack(es) => forall x | x in es :: IsExact(x)
    case UnaryOperator(_, a) => IsExact(a)
    case BinaryOperator(_, l, r) => IsExact(l) && IsExact(r)
    case CommaOperator(es) => forall x | x in es :: IsExact(x)
    case FunctionCall(_, args) => forall x | x in args :: IsExact(x)
    case Cast(_, a) => IsExact(a)
    case TernaryOperator(c, t, f) => IsExact(c) && (t.Some? ==> IsExact(t.value)) && IsExact(f)
    case AssignExpression(l, _, r) => IsExact(l) && IsExact(r)
    case Crement(v, _, _) => IsExact(v)
  }

  lemma {:induction false} TextsDiffer(format: FloatFormat, a: Expr<Literal>, b: Expr<Literal>)
    requires FormatsNumbers(format) && IsExact(a) && IsExact(b)
    requires Texts(format, a) == Texts(format, b)
    ensures a == b
    decreases a, 1
  {
    match a
    case Value(l) => LiteralsAlike(format, l, b.value);
    case ArrayUnpack(_, _, _) => UnpackTextsDiffer(format, a, b);
    case ArrayPack(_) => AllTextsDiffer(format, a, b);
    case UnaryOperator(_, x) => TextsDiffer(format, x, b.expr);
    case BinaryOperator(_, l, r) =>
      TextsDiffer(format, l, b.lhs);
      TextsDiffer(format, r, b.rhs);
    case CommaOperator(_) => AllTextsDiffer(format, a, b);
    case FunctionCall(_, _) => AllTextsDiffer(format, a, b);
    case Cast(_, x) => TextsDiffer(format, x, b.expr);
    case TernaryOperator(_, _, _) => TernaryTextsDiffer(format, a, b);
    case AssignExpression(l, _, r) =>
      TextsDiffer(format, l, b.lhs);
      TextsDiffer(format, r, b.rhs);
    case Crement(v, _, _) => TextsDiffer(format, v, b.expr);
    case _ =>
  }

  lemma {:induction false} UnpackTextsDiffer(format: FloatFormat, a: Expr<Literal>, b: Expr<Literal>)
    requires FormatsNumbers(format) && a.ArrayUnpack? && b.ArrayUnpack? && IsExact(a) && IsExact(b)
    requires Texts(format, a) == Texts(format, b)
    ensures a == b
    decreases a, 0
  {
    TextsDiffer(format, a.vec, b.vec);
    TextsDiffer(format, a.component0, b.component0);
    if a.component1.Some? { TextsDiffer(format, a.component1.value, b.component1.value); }
  }

  lemma {:induction false} TernaryTextsDiffer(format: FloatFormat, a: Expr<Literal>, b: Expr<Literal>)
    requires FormatsNumbers(format) && a.TernaryOperator? && b.TernaryOperator? && IsExact(a) && IsExact(b)
    requires Texts(format, a) == Texts(format, b)
    ensures a == b
    decreases a, 0
  {
    TextsDiffer(format, a.cond, b.cond);
    if a.onTrue.Some? { TextsDiffer(format, a.onTrue.value, b.onTrue.value); }
    TextsDiffer(format, a.onFalse, b.onFalse);
  }

  lemma {:induction false} AllTextsDiffer(format: FloatFormat, a: Expr<Literal>, b: Expr<Literal>)
    requires (a.ArrayPack? && b.ArrayPack?) || (a.CommaOperator? && b.CommaOperator?) ||
             (a.FunctionCall? && b.FunctionCall?)
    requires FormatsNumbers(format) && IsExact(a) && IsExact(b)
    requires AllTexts(format, a.exprs) == AllTexts(format, b.exprs)
    ensures a.exprs == b.exprs
    decreases a, 0
  {
    assert |a.exprs| == |AllTexts(format, b.exprs)|;
    forall i | 0 <= i < |a.exprs| ensures a.exprs[i] == b.exprs[i] {
      assert AllTexts(format, a.exprs)[i] == AllTexts(format, b.exprs)[i];
      TextsDiffer(format, a.exprs[i], b.exprs[i]);
    }
  }

  /** Without floating point literals, overflowing integers and inferred types, only equal expressions are
      reprinted alike. */
  lemma ExactlyReadable(format: FloatFormat, a: Expr<Literal>, b: Expr<Literal>)
    requires FormatsNumbers(format)
    requires IsPlain(a) && IsPlain(b) && IsExact(a) && IsExact(b)
    ensures Reprinted(format, a) == Reprinted(format, b) <==> a == b
  {
    UniquelyReadable(format, a, b);
    if Texts(format, a) == Texts(format, b) {
      TextsDiffer(format, a, b);
    }
  }

  // ---------------------------------------------------------------------------------------
  // What literals are read back as

  /** The number a string of digits stands for. */
  function ValueOf(s: string): nat
    requires s == [] || IsNumeral(s)
  {
    if s == [] then 0
    else
      var last := |s| - 1;
      assert s[last] in s && forall c | c in s[..last] :: c in s;
      10 * ValueOf(s[..last]) + (s[last] as int - '0' as int)
  }

  lemma {:induction false} ValueOfDigits(n: nat)
    ensures ValueOf(Digits(n)) == n
  {
    var s := Digits(n);
    if n < 10 {
      assert s[..0] == [];
    } else {
      assert s[..|s| - 1] == Digits(n / 10);
      ValueOfDigits(n / 10);
    }
  }

  /** The integer literal that the lexer makes of a number: the suffix of an int16 is ignored, and a number
      that does not fit its container is an error. */
  function ReadNumber(text: string): Option<Literal> {
    var last := |text| - 1;
    var suffixed := last > 0 && (text[last] == 's' || text[last] == 'l');
    var digits := if suffixed then text[..last] else text;
    if !IsNumeral(digits) || ValueOf(digits) >= CONTAINER_LIMIT then None
    else if suffixed && text[last] == 'l' then Some(Int64Value(ValueOf(digits)))
    else Some(Int32Value(ValueOf(digits)))
  }

  /** What the parser makes of an integer literal that the visitor wrote. */
  function ReadInteger(t: Text): Option<Expr<Literal>> {
    match t
    case Value(ts) =>
      if |ts| != 1 || !ts[0].NumberText? then None
      else
        var l := ReadNumber(ts[0].text);
        if l.None? then None else Some(Value(l.value))
    case UnaryOperator(op, a) =>
      var x := ReadInteger(a);
      if x.None? then None else Some(UnaryOperator(op, x.value))
    case _ => None
  }

  /** Written and read back, an integer literal has lost its overflow: it is the value of its container in
      its type, an int16 is an int32, and a negative value is a negated literal. */
  lemma IntegerReadBack(format: FloatFormat, l: Literal)
    requires l.IsInt()
    ensures var n := if l.Int() < 0 then -l.Int() else l.Int();
            var read: Expr<Literal> := Value(if l.Int64Value? then Int64Value(n) else Int32Value(n));
            ReadInteger(LiteralText(format, l)) == Some(if l.Int() < 0 then UnaryOperator(MINUS, read) else read)
  {
    hide Digits;
    TextOf(format, l);
    ReadDigits(if l.Int() < 0 then -l.Int() else l.Int(), Suffix(l));
  }

  lemma ReadDigits(n: Container, suffix: string)
    requires suffix in {"", "s", "l"}
    ensures ReadNumber(Digits(n) + suffix) == Some(if suffix == "l" then Int64Value(n) else Int32Value(n))
  {
    hide ValueOf;
    var digits, text := Digits(n), Digits(n) + suffix;
    ValueOfDigits(n);
    if suffix == "" {
      assert text == digits && text[|text| - 1] in digits;
    } else {
      assert text[..|text| - 1] == digits;
    }
  }

  /** An integer literal is read back as itself exactly if it is no int16 and does not overflow. */
  lemma ReadBackItself(format: FloatFormat, l: Literal)
    requires l.IsInt()
    ensures ReadInteger(LiteralText(format, l)) == Some(Value(l)) <==> !l.Int16Value? && l.InRange()
  {
    IntegerReadBack(format, l);
  }

  /** An int32 that overflows is written like a negated literal, and like a smaller one. */
  lemma OverflowsAreAmbiguous(format: FloatFormat)
    ensures Reprinted(format, Value(Int32Value(4294967295))) ==
            Reprinted(format, UnaryOperator(MINUS, Value(Int32Value(1))))
    ensures Reprinted(format, Value(Int32Value(4294967297))) == Reprinted(format, Value(Int32Value(1)))
  {
    assert Int32Value(4294967295).Int() == -1 && Int32Value(4294967297).Int() == 1;
  }

  /** An infinite number is written like a variable. */
  lemma InfinityIsAName(format: FloatFormat)
    ensures Reprinted(format, Value(DoubleValue(Infinite))) == Reprinted(format, Local("inf"))
    ensures Reprinted(format, Value(FloatValue(Infinite))) == Reprinted(format, Local("inff"))
  {
  }

  /** A float that is formatted without a point or exponent is a number and a name to the lexer. */
  lemma WholeFloatsAreTwoTokens(format: FloatFormat, x: Unsigned)
    requires IsNumeral(format(x))
    ensures Reprinted(format, Value(FloatValue(Finite(x)))) == [NumberText(format(x)), Identifier("f")]
  {
    var ts := [NumberText(format(x)), Identifier("f")];
    assert Lexed(ts[1..]) == [Identifier("f")] by { assert ts[1..][1..] == []; }
  }

  /** A stream prints the double one without a decimal point, so it reads back as an int32. */
  lemma DoubleReadsAsInt(format: FloatFormat)
    requires format(1.0) == "1"
    ensures Reprinted(format, Value(DoubleValue(Finite(1.0)))) == Reprinted(format, Value(Int32Value(1)))
  {
    assert Digits(1) == "1" && "1" + "" == "1" && Int32Value(1).Int() == 1;
  }

  /** Two minus signs are printed without a blank, so a variable negated twice reads as a decrement. */
  lemma SignsReadAsCrement(format: FloatFormat, name: string)
    ensures Reprinted(format, UnaryOperator(MINUS, UnaryOperator(MINUS, Local(name)))) ==
            Reprinted(format, Crement(Local(name), false, false))
  {
    hide Texts, Pieces;
    var v: Expr<Literal> := Local(name);
    NegatedText(format, v);
    NegatedText(format, UnaryOperator(MINUS, v));
    CrementText(format, v);
    var twice := [Operator(MINUS)] + ([Operator(MINUS)] + Pieces(Texts(format, v)));
    var once := [MinusMinus] + Pieces(Texts(format, v));
    assert twice[2..] == once[1..] == Pieces(Texts(format, v));
  }

  lemma NegatedText(format: FloatFormat, e: Expr<Literal>)
    ensures Pieces(Texts(format, UnaryOperator(MINUS, e))) == [Operator(MINUS)] + Pieces(Texts(format, e))
  {}

  lemma CrementText(format: FloatFormat, e: Expr<Literal>)
    ensures Pieces(Texts(format, Crement(e, true, false))) == [PlusPlus] + Pieces(Texts(format, e))
    ensures Pieces(Texts(format, Crement(e, false, false))) == [MinusMinus] + Pieces(Texts(format, e))
    ensures Pieces(Texts(format, Crement(e, true, true))) == Pieces(Texts(format, e)) + [PlusPlus]
    ensures Pieces(Texts(format, Crement(e, false, true))) == Pieces(Texts(format, e)) + [MinusMinus]
  {}

  lemma AssignText(format: FloatFormat, l: Expr<Literal>, op: Option<OperatorToken>, r: Expr<Literal>)
    ensures Pieces(Texts(format, AssignExpression(l, op, r))) ==
              Pieces(Texts(format, l)) + [Space, Assigns(op), Space] + Pieces(Texts(format, r))
  {}

  /** A ternary is printed without parentheses, so two nestings of ternaries are written alike. */
  lemma TernariesAreAmbiguous(format: FloatFormat, x: Expr<Literal>, y: Expr<Literal>, z: Expr<Literal>)
    ensures var left := TernaryOperator(TernaryOperator(x, Some(y), z), Some(y), z);
            var right := TernaryOperator(x, Some(y), TernaryOperator(z, Some(y), z));
            left != right && Pieces(Texts(format, left)) == Pieces(Texts(format, right))
  {
    hide Texts, Pieces;
    TernaryText(format, x, y, z);
    TernaryText(format, z, y, z);
    TernaryText(format, TernaryOperator(x, Some(y), z), y, z);
    TernaryText(format, x, y, TernaryOperator(z, Some(y), z));
    assert x < TernaryOperator(x, Some(y), z);
  }

  lemma TernaryText(format: FloatFormat, c: Expr<Literal>, t: Expr<Literal>, f: Expr<Literal>)
    ensures Pieces(Texts(format, TernaryOperator(c, Some(t), f))) ==
              Pieces(Texts(format, c)) +
              ([Space, QuestionMark, Space] + Pieces(Texts(format, t)) + [Space, ColonSign, Space] +
               Pieces(Texts(format, f)))
  {}

  lemma ShortTernaryText(format: FloatFormat, c: Expr<Literal>, f: Expr<Literal>)
    ensures Pieces(Texts(format, TernaryOperator(c, None, f))) ==
              Pieces(Texts(format, c)) + [Space, QuestionMark, ColonSign, Space] + Pieces(Texts(format, f))
  {
    var a, b := Pieces(Texts(format, c)), Pieces(Texts(format, f));
    assert a + [Space, QuestionMark] + [] + [ColonSign, Space] + b == a + [Space, QuestionMark, ColonSign, Space] + b;
  }
}
