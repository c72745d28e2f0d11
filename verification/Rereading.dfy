/**
Reading an expression back from its reprinted text: the parser's tree, read as an expression again, is the
expression that was printed.
*/
module Rereading {
  import opened Types
  import opened Reprint

  /** How the lexer reads numbers with a point or an exponent. */
  type FloatReader = string -> Option<Literal>

  /** The literal a token is read as. Integers are tried first. */
  function ReadLiteral(floats: FloatReader, ts: seq<Token>): Option<Literal> {
    if |ts| != 1 then None
    else
      match ts[0]
      case BoolWord(b) => Some(BoolValue(b))
      case StringText(s) => Some(StringValue(s))
      case NumberText(text) => if ReadNumber(text).Some? then ReadNumber(text) else floats(text)
      case _ => None
  }

  /** The expression a parsed text stands for, read from its structure alone. */
  function Read(floats: FloatReader, t: Text): Option<Expr<Literal>> {
    match t
    case Value(ts) =>
      var l := ReadLiteral(floats, ts);
      if l.None? then None else Some(Value(l.value))
    case Local(name) => Some(Local(name))
    case Attribute(ty, name, inferred) => Some(Attribute(ty, name, inferred))
    case ExternalVariable(ty, name) => Some(ExternalVariable(ty, name))
    case ArrayUnpack(vec, i, None) =>
      var v, x := Read(floats, vec), Read(floats, i);
      if v.None? || x.None? then None else Some(ArrayUnpack(v.value, x.value, None))
    case ArrayUnpack(vec, i, Some(j)) =>
      var v, x, y := Read(floats, vec), Read(floats, i), Read(floats, j);
      if v.None? || x.None? || y.None? then None else Some(ArrayUnpack(v.value, x.value, Some(y.value)))
    case ArrayPack(ts) =>
      var es := ReadAll(floats, ts);
      if es.None? then None else Some(ArrayPack(es.value))
    case UnaryOperator(op, a) =>
      var x := Read(floats, a);
      if x.None? then None else Some(UnaryOperator(op, x.value))
    case BinaryOperator(op, l, r) =>
      var x, y := Read(floats, l), Read(floats, r);
      if x.None? || y.None? then None else Some(BinaryOperator(op, x.value, y.value))
    case CommaOperator(ts) =>
      var es := ReadAll(floats, ts);
      if es.None? then None else Some(CommaOperator(es.value))
    case FunctionCall(f, ts) =>
      var es := ReadAll(floats, ts);
      if es.None? then None else Some(FunctionCall(f, es.value))
    case Cast(ty, a) =>
      var x := Read(floats, a);
      if x.None? then None else Some(Cast(ty, x.value))
    case _ => None
  }

  function ReadAll(floats: FloatReader, ts: seq<Text>): Option<seq<Expr<Literal>>> {
    if ts == [] then Some([])
    else
      var e, es := Read(floats, ts[0]), ReadAll(floats, ts[1..]);
      if e.None? || es.None? then None else Some([e.value] + es.value)
  }

  /** What a text of tokens is read back as. */
  function Reread(floats: FloatReader, ts: seq<Token>): Option<Expr<Literal>> {
    var p := Parse(ts);
    if p.None? || p.value.rest != [] then None else Read(floats, p.value.e)
  }

  /** A literal that the lexer takes for one token and reads back as itself. */
  predicate ReadsItself(floats: FloatReader, format: FloatFormat, l: Literal) {
    ReadLiteral(floats, LiteralTokens(format, l)) == Some(l)
  }

  /** All literals read back as themselves, and the types of all attributes were written out. */
  predicate IsFaithful(floats: FloatReader, format: FloatFormat, e: Expr<Literal>) {
    match e
    case Value(l) => ReadsItself(floats, format, l)
    case Local(_) => true
    case Attribute(_, _, inferred) => !inferred
    case ExternalVariable(_, _) => true
    case ArrayUnpack(vec, i, j) =>
      IsFaithful(floats, format, vec) && IsFaithful(floats, format, i) &&
      (j.Some? ==> IsFaithful(floats, format, j.value))
    case ArrayPack(es) => forall x | x in es :: IsFaithful(floats, format, x)
    case UnaryOperator(_, a) => IsFaithful(floats, format, a)
    case BinaryOperator(_, l, r) => IsFaithful(floats, format, l) && IsFaithful(floats, format, r)
    case CommaOperator(es) => forall x | x in es :: IsFaithful(floats, format, x)
    case FunctionCall(_, args) => forall x | x in args :: IsFaithful(floats, format, x)
    case Cast(_, a) => IsFaithful(floats, format, a)
    case _ => false
  }

  /** Nowhere is a plus or minus applied directly to the same sign. */
  predicate SignsApart(e: Expr<Literal>) {
    match e
    case Value(_) => true
    case Local(_) => true
    case Attribute(_, _, _) => true
    case ExternalVariable(_, _) => true
    case ArrayUnpack(vec, i, j) => SignsApart(vec) && SignsApart(i) && (j.Some? ==> SignsApart(j.value))
    case ArrayPack(es) => forall x | x in es :: SignsApart(x)
    case UnaryOperator(op, a) => SignsApart(a) && !(op in {PLUS, MINUS} && a.UnaryOperator? && a.op == op)
    case BinaryOperator(_, l, r) => SignsApart(l) && SignsApart(r)
    case CommaOperator(es) => forall x | x in es :: SignsApart(x)
    case FunctionCall(_, args) => forall x | x in args :: SignsApart(x)
    case Cast(_, a) => SignsApart(a)
    case _ => false
  }

  // ---------------------------------------------------------------------------------------
  // Reading the structure

  lemma LiteralRead(floats: FloatReader, format: FloatFormat, l: Literal)
    requires ReadsItself(floats, format, l)
    ensures LiteralText(format, l) == Value(LiteralTokens(format, l)) && |LiteralTokens(format, l)| == 1
    ensures !IsSign(LiteralTokens(format, l)[0])
  {
    hide LiteralTokens, ReadNumber;
  }

  lemma {:induction false} TextsRead(floats: FloatReader, format: FloatFormat, e: Expr<Literal>)
    requires IsFaithful(floats, format, e)
    ensures Read(floats, Texts(format, e)) == Some(e)
    decreases e, 1
  {
    hide ReadLiteral, LiteralText, ReadAll;
    match e
    case Value(l) => LiteralRead(floats, format, l);
    case ArrayUnpack(vec, i, j) =>
      TextsRead(floats, format, vec);
      TextsRead(floats, format, i);
      if j.Some? { TextsRead(floats, format, j.value); }
    case ArrayPack(es) => AllTextsRead(floats, format, e, 0);
    case UnaryOperator(_, a) => TextsRead(floats, format, a);
    case BinaryOperator(_, l, r) =>
      TextsRead(floats, format, l);
      TextsRead(floats, format, r);
    case CommaOperator(es) => AllTextsRead(floats, format, e, 0);
    case FunctionCall(_, args) => AllTextsRead(floats, format, e, 0);
    case Cast(_, a) => TextsRead(floats, format, a);
    case _ =>
  }

  lemma {:induction false} AllTextsRead(floats: FloatReader, format: FloatFormat, e: Expr<Literal>, i: nat)
    requires e.ArrayPack? || e.CommaOperator? || e.FunctionCall?
    requires IsFaithful(floats, format, e) && i <= |e.exprs|
    ensures ReadAll(floats, AllTexts(format, e.exprs)[i..]) == Some(e.exprs[i..])
    ensures i == 0 ==> ReadAll(floats, AllTexts(format, e.exprs)) == Some(e.exprs)
    decreases e, 0, |e.exprs| - i
  {
    hide Texts, Read, ReadAll, IsFaithful, AllTexts;
    var ts := AllTexts(format, e.exprs);
    assert ts[0..] == ts && e.exprs[0..] == e.exprs;
    if i < |e.exprs| {
      ElementIsFaithful(floats, format, e, i);
      TextsRead(floats, format, e.exprs[i]);
      AllTextsRead(floats, format, e, i + 1);
      assert ts[i] == Texts(format, e.exprs[i]);
      assert ts[i..] == [ts[i]] + ts[i + 1..];
      assert e.exprs[i..] == [e.exprs[i]] + e.exprs[i + 1..];
      OneMoreRead(floats, ts[i], ts[i + 1..]);
    } else {
      assert ts[i..] == [] && e.exprs[i..] == [];
      NothingRead(floats);
    }
  }

  lemma ElementIsFaithful(floats: FloatReader, format: FloatFormat, e: Expr<Literal>, i: nat)
    requires e.ArrayPack? || e.CommaOperator? || e.FunctionCall?
    requires IsFaithful(floats, format, e) && i < |e.exprs|
    ensures IsFaithful(floats, format, e.exprs[i])
  {
    assert e.exprs[i] in e.exprs;
  }

  lemma NothingRead(floats: FloatReader)
    ensures ReadAll(floats, []) == Some([])
  {
  }

  lemma OneMoreRead(floats: FloatReader, t: Text, ts: seq<Text>)
    ensures var e, es := Read(floats, t), ReadAll(floats, ts);
            ReadAll(floats, [t] + ts) == if e.None? || es.None? then None else Some([e.value] + es.value)
  {
    hide Read;
    assert ([t] + ts)[1..] == ts;
  }

  // ---------------------------------------------------------------------------------------
  // Signs

  /** The last token of one text and the first of the next. */
  predicate Meet(a: seq<Token>, b: seq<Token>) {
    a != [] && b != [] && IsSign(b[0]) && a[|a| - 1] == b[0]
  }

  lemma JoinsConcat(a: seq<Token>, b: seq<Token>)
    ensures JoinsSigns(a + b) <==> JoinsSigns(a) || JoinsSigns(b) || Meet(a, b)
  {
    var c := a + b;
    if JoinsSigns(a) {
      var k :| 0 <= k < |a| - 1 && IsSign(a[k]) && a[k + 1] == a[k];
      assert c[k] == a[k] && c[k + 1] == a[k + 1];
    }
    if JoinsSigns(b) {
      var k :| 0 <= k < |b| - 1 && IsSign(b[k]) && b[k + 1] == b[k];
      assert c[|a| + k] == b[k] && c[|a| + k + 1] == b[k + 1];
    }
    if Meet(a, b) { assert c[|a| - 1] == a[|a| - 1] && c[|a| - 1 + 1] == b[0]; }
    if JoinsSigns(c) {
      var k :| 0 <= k < |c| - 1 && IsSign(c[k]) && c[k + 1] == c[k];
      if k < |a| - 1 {
        assert a[k] == c[k] && a[k + 1] == c[k + 1];
      } else if k >= |a| {
        assert b[k - |a|] == c[k] && b[k - |a| + 1] == c[k + 1];
      }
    }
  }

  lemma OneJoinsNot(t: Token)
    ensures !JoinsSigns([t]) && !JoinsSigns([])
  {
  }

  /** A text that stands between tokens that are no signs. */
  lemma EnclosedApart(open: seq<Token>, inner: seq<Token>, close: seq<Token>)
    requires open != [] && !IsSign(open[|open| - 1]) && close != [] && !IsSign(close[0])
    ensures JoinsSigns(open + inner + close) <==> JoinsSigns(open) || JoinsSigns(inner) || JoinsSigns(close)
  {
    JoinsConcat(open, inner);
    JoinsConcat(open + inner, close);
  }

  /** A text joins no signs, and begins with a sign only if it is that of a unary operator. */
  predicate IsApart(e: Expr<Literal>, ps: seq<Token>) {
    ps != [] && !JoinsSigns(ps) && (IsSign(ps[0]) ==> e.UnaryOperator? && ps[0] == Operator(e.op))
  }

  lemma {:induction false} TextsApart(floats: FloatReader, format: FloatFormat, e: Expr<Literal>)
    requires IsPlain(e) && IsFaithful(floats, format, e) && SignsApart(e)
    ensures IsApart(e, Pieces(Texts(format, e)))
    decreases e, 1
  {
    hide LiteralText, LiteralTokens, AllPieces, ReadLiteral, JoinsSigns, AllTexts;
    OneJoinsNot(Space);
    match e
    case Value(l) =>
      LiteralRead(floats, format, l);
      OneJoinsNot(LiteralTokens(format, l)[0]);
      assert LiteralTokens(format, l) == [LiteralTokens(format, l)[0]];
    case Local(name) => OneJoinsNot(Identifier(name));
    case Attribute(ty, name, _) => VariableApart(TypeName(ty), AtSign, name);
    case ExternalVariable(ty, name) => VariableApart(TypeName(ty), DollarSign, name);
    case ArrayUnpack(_, _, _) => UnpackApart(floats, format, e);
    case ArrayPack(_) =>
      ListApart(floats, format, e, 0);
      OneJoinsNot(LCurly);
      WrappedApart([LCurly], AllPieces(AllTexts(format, e.exprs)), [RCurly]);
    case UnaryOperator(op, a) =>
      TextsApart(floats, format, a);
      OneJoinsNot(Operator(op));
      JoinsConcat([Operator(op)], Pieces(Texts(format, a)));
    case BinaryOperator(op, l, r) =>
      TextsApart(floats, format, l);
      TextsApart(floats, format, r);
      BinaryApart(op, Pieces(Texts(format, l)), Pieces(Texts(format, r)));
    case CommaOperator(_) =>
      ListApart(floats, format, e, 0);
      OneJoinsNot(LParens);
      WrappedApart([LParens], AllPieces(AllTexts(format, e.exprs)), [RParens]);
    case FunctionCall(f, _) =>
      ListApart(floats, format, e, 0);
      TwoApart(Identifier(f), LParens);
      WrappedApart([Identifier(f), LParens], AllPieces(AllTexts(format, e.exprs)), [RParens]);
    case Cast(ty, a) =>
      TextsApart(floats, format, a);
      TwoApart(TypeName(ty), LParens);
      WrappedApart([TypeName(ty), LParens], Pieces(Texts(format, a)), [RParens]);
  }

  lemma TwoApart(a: Token, b: Token)
    requires !IsSign(b)
    ensures !JoinsSigns([a, b])
  {
  }

  lemma VariableApart(a: Token, b: Token, name: string)
    requires !IsSign(a) && !IsSign(b)
    ensures !JoinsSigns([a, b, Identifier(name)])
  {
  }

  lemma WrappedApart(open: seq<Token>, inner: seq<Token>, close: seq<Token>)
    requires open != [] && !IsSign(open[|open| - 1]) && |close| == 1 && !IsSign(close[0])
    requires !JoinsSigns(open) && !JoinsSigns(inner)
    ensures !JoinsSigns(open + inner + close)
  {
    EnclosedApart(open, inner, close);
    OneJoinsNot(close[0]);
  }

  lemma BinaryApart(op: OperatorToken, l: seq<Token>, r: seq<Token>)
    requires !JoinsSigns(l) && !JoinsSigns(r)
    ensures !JoinsSigns([LParens] + l + [Space, Operator(op), Space] + r + [RParens])
  {
    hide JoinsSigns;
    var mid := [Space, Operator(op), Space];
    OneJoinsNot(LParens);
    OneJoinsNot(RParens);
    assert !JoinsSigns(mid) by { MiddleApart(op); }
    EnclosedApart([LParens], l, mid);
    EnclosedApart([LParens] + l + mid, r, [RParens]);
  }

  lemma MiddleApart(op: OperatorToken)
    ensures !JoinsSigns([Space, Operator(op), Space])
  {
  }

  lemma AccessApart(v: seq<Token>, i: seq<Token>, j: Option<seq<Token>>)
    requires v != [] && !JoinsSigns(v) && !IsSign(v[|v| - 1]) && !JoinsSigns(i) && (j.Some? ==> !JoinsSigns(j.value))
    ensures !JoinsSigns(v + [LSquare] + i + (if j.Some? then [CommaSign, Space] + j.value else []) + [RSquare])
  {
    hide JoinsSigns;
    OneJoinsNot(LSquare);
    OneJoinsNot(RSquare);
    JoinsConcat(v, [LSquare]);
    var open := v + [LSquare];
    if j.Some? {
      TwoApart(CommaSign, Space);
      EnclosedApart(open, i, [CommaSign, Space]);
      EnclosedApart(open + i + [CommaSign, Space], j.value, [RSquare]);
      assert open + i + ([CommaSign, Space] + j.value) + [RSquare] ==
             open + i + [CommaSign, Space] + j.value + [RSquare];
    } else {
      EnclosedApart(open, i, [RSquare]);
      assert open + i + [] + [RSquare] == open + i + [RSquare];
    }
  }

  lemma NameApart(format: FloatFormat, e: Expr<Literal>)
    requires e.Local? || e.Attribute?
    ensures var v := Pieces(Texts(format, e));
            v != [] && !JoinsSigns(v) && !IsSign(v[|v| - 1]) && !IsSign(v[0])
  {
    hide JoinsSigns;
    if e.Local? { OneJoinsNot(Identifier(e.name)); } else { VariableApart(TypeName(e.ty), AtSign, e.name); }
  }

  lemma {:induction false} UnpackApart(floats: FloatReader, format: FloatFormat, e: Expr<Literal>)
    requires e.ArrayUnpack? && IsPlain(e) && IsFaithful(floats, format, e) && SignsApart(e)
    ensures IsApart(e, Pieces(Texts(format, e)))
    decreases e, 0
  {
    var j := e.component1;
    assert IsPlain(e.component0) && IsFaithful(floats, format, e.component0) && SignsApart(e.component0);
    assert j.Some? ==> IsPlain(j.value) && IsFaithful(floats, format, j.value) && SignsApart(j.value);
    assert e.vec.Local? || e.vec.Attribute?;
    hide JoinsSigns, LiteralText, IsPlain, IsFaithful, SignsApart;
    TextsApart(floats, format, e.component0);
    NameApart(format, e.vec);
    if j.Some? { TextsApart(floats, format, j.value); }
    AccessApart(Pieces(Texts(format, e.vec)), Pieces(Texts(format, e.component0)),
                if j.Some? then Some(Pieces(Texts(format, j.value))) else None);
  }

  lemma ElementIsFit(floats: FloatReader, format: FloatFormat, e: Expr<Literal>, i: nat)
    requires e.ArrayPack? || e.CommaOperator? || e.FunctionCall?
    requires IsPlain(e) && IsFaithful(floats, format, e) && SignsApart(e) && i < |e.exprs|
    ensures IsPlain(e.exprs[i]) && IsFaithful(floats, format, e.exprs[i]) && SignsApart(e.exprs[i])
  {
    assert e.exprs[i] in e.exprs;
  }

  lemma {:induction false} ListApart(floats: FloatReader, format: FloatFormat, e: Expr<Literal>, i: nat)
    requires e.ArrayPack? || e.CommaOperator? || e.FunctionCall?
    requires IsPlain(e) && IsFaithful(floats, format, e) && SignsApart(e) && i <= |e.exprs|
    ensures !JoinsSigns(AllPieces(AllTexts(format, e.exprs)[i..]))
    ensures i == 0 ==> !JoinsSigns(AllPieces(AllTexts(format, e.exprs)))
    decreases e, 0, |e.exprs| - i
  {
    hide Texts, Pieces, JoinsSigns, IsPlain, IsFaithful, SignsApart, AllPieces, AllTexts;
    var ts := AllTexts(format, e.exprs);
    assert ts[0..] == ts;
    if i < |e.exprs| {
      ElementIsFit(floats, format, e, i);
      TextsApart(floats, format, e.exprs[i]);
      ListApart(floats, format, e, i + 1);
      assert ts[i..] == [ts[i]] + ts[i + 1..] && ts[i] == Texts(format, e.exprs[i]);
      OneMoreApart(ts[i], ts[i + 1..]);
    } else {
      assert ts[i..] == [];
      OneMoreApart(Local(""), []);
    }
  }

  lemma OneMoreApart(t: Text, ts: seq<Text>)
    ensures !JoinsSigns(AllPieces([]))
    ensures !JoinsSigns(Pieces(t)) && !JoinsSigns(AllPieces(ts)) ==> !JoinsSigns(AllPieces([t] + ts))
  {
    hide JoinsSigns, Pieces;
    OneJoinsNot(Space);
    assert ([t] + ts)[1..] == ts;
    if ts != [] {
      TwoApart(CommaSign, Space);
      JoinsConcat(Pieces(t), [CommaSign, Space]);
      JoinsConcat(Pieces(t) + [CommaSign, Space], AllPieces(ts));
    }
  }

  // ---------------------------------------------------------------------------------------
  // The round trip

  /** Reprinting loses nothing: a plain expression whose literals read back as themselves, and in which no sign is
      applied to the same sign, is read back from its tokens as it was. */
  lemma PrintedIsReread(floats: FloatReader, format: FloatFormat, e: Expr<Literal>)
    requires IsPlain(e) && IsFaithful(floats, format, e) && SignsApart(e)
    ensures Reread(floats, Reprinted(format, e)) == Some(e)
  {
    hide IsPlain, IsFaithful, SignsApart, Pieces, Texts, Parse, Reprinted, Read;
    TextsApart(floats, format, e);
    ParsesBack(format, e);
    TextsRead(floats, format, e);
  }

  /** Among the literals, booleans, strings and integers other than int16 that do not overflow read back as
      themselves; an int16 and an integer that overflows do not. */
  lemma WhichReadBack(floats: FloatReader, format: FloatFormat, l: Literal)
    ensures l.BoolValue? || l.StringValue? ==> ReadsItself(floats, format, l)
    ensures l.IsInt() && l.InRange() && !l.Int16Value? ==> ReadsItself(floats, format, l)
    ensures l.Int16Value? && l.InRange() ==> !ReadsItself(floats, format, l)
    ensures l.IsInt() && !l.InRange() ==> !ReadsItself(floats, format, l)
  {
    hide Digits, ReadNumber;
    if l.IsInt() && l.Int() >= 0 {
      ReadDigits(l.Int(), Suffix(l));
    }
  }
}
