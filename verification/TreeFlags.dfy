/**
The scanner's classification of a program: what climbing finds is what the structure of the program
says, so the attributes flagged as written are exactly those a run may write to.
*/
module TreeFlags {
  import opened Types
  import opened Ast
  import opened Semantics
  import opened Writes
  import opened Occurrences
  import opened Catalogue

  // ---------------------------------------------------------------------------------------
  // Trees of programs

  function NodeOf(e: Expr): Node {
    match e
    case Literal(_, _) => Node(OtherNode, NoNodes)
    case Local(name) => Node(Variable(Loc(name)), NoNodes)
    case Attribute(ty, name) => Node(Variable(Attr(Token(ty, name))), NoNodes)
    case Component(index, vec) => Node(OtherNode, Two(NodeOf(index), NodeOf(vec)))
    case MatrixEntry(row, column, m) => Node(OtherNode, MoreNodes(NodeOf(row), Two(NodeOf(column), NodeOf(m))))
    case Unary(_, a) => Node(OtherNode, One(NodeOf(a)))
    case Binary(_, l, r) => Node(OtherNode, Two(NodeOf(l), NodeOf(r)))
    case Logical(_, l, r) => Node(OtherNode, Two(NodeOf(l), NodeOf(r)))
    case Ternary(c, t, f) =>
      Node(TernaryNode, MoreNodes(NodeOf(c), if t.Some? then Two(NodeOf(t.value), NodeOf(f)) else One(NodeOf(f))))
    case Comma(es) => Node(CommaNode, NodesOf(es))
    case Assign(l, op, r) => Node(AssignNode(op.Some?), Two(NodeOf(l), NodeOf(r)))
    case Crement(v, _, _) => Node(CrementNode, One(NodeOf(v)))
    case Cast(_, a) => Node(OtherNode, One(NodeOf(a)))
    case Call(_, args) => Node(CallNode, NodesOf(args))
    case ArrayPack(es) => Node(OtherNode, NodesOf(es))
  }

  function One(a: Node): Nodes {
    MoreNodes(a, NoNodes)
  }

  function Two(a: Node, b: Node): Nodes {
    MoreNodes(a, One(b))
  }

  function NodesOf(es: Exprs): Nodes {
    match es
    case NoExprs => NoNodes
    case ConsExpr(e, rest) => MoreNodes(NodeOf(e), NodesOf(rest))
  }

  function StmtNode(s: Stmt): Node {
    match s
    case ExprStmt(e) => NodeOf(e)
    case Declare(_, name, initial) =>
      Node(DeclareNode, MoreNodes(Node(Variable(Loc(name)), NoNodes),
        if initial.Some? then One(NodeOf(initial.value)) else NoNodes))
    case Block(body) => Node(OtherNode, StmtNodes(body))
    case StatementList(ss) => Node(OtherNode, StmtNodes(ss))
    case If(c, onTrue, onFalse) =>
      Node(ConditionalNode, MoreNodes(NodeOf(c), MoreNodes(Node(OtherNode, StmtNodes(onTrue)),
        if onFalse.Some? then One(Node(OtherNode, StmtNodes(onFalse.value))) else NoNodes)))
    case Loop(kind, c, body) =>
      var rest := One(Node(OtherNode, StmtNodes(body)));
      match kind {
        case For(init, iteration) =>
          Node(LoopNode(1, false), MoreNodes(Node(OtherNode, StmtNodes(init)),
            MoreNodes(NodeOf(c), if iteration.Some? then MoreNodes(NodeOf(iteration.value), rest) else rest)))
        case While => Node(LoopNode(0, false), MoreNodes(NodeOf(c), rest))
        case Do => Node(LoopNode(0, true), MoreNodes(NodeOf(c), rest))
      }
    case Jump(_) => Node(OtherNode, NoNodes)
  }

  function StmtNodes(ss: Stmts): Nodes {
    match ss
    case NoStmts => NoNodes
    case ConsStmt(s, rest) => MoreNodes(StmtNode(s), StmtNodes(rest))
  }

  function TreeOf(root: Stmts): Node {
    StmtNode(Block(root))
  }

  // ---------------------------------------------------------------------------------------
  // Climbing finds what the structure says

  /** The tokens under a node that some step of their way up writes; `under` when a step above does. */
  function Flagged(n: Node, under: bool): set<Key>
    decreases n, 1
  {
    if n.kind.Variable? then (if under && n.kind.v.Attr? then {n.kind.v.token} else {})
    else FlaggedFrom(n, n.children, 0, under)
  }

  function FlaggedFrom(n: Node, ns: Nodes, child: nat, under: bool): set<Key>
    decreases ns, 0
  {
    match ns
    case NoNodes => {}
    case MoreNodes(a, rest) =>
      Flagged(a, under || WritesAt(Link(n, child, 0))) + FlaggedFrom(n, rest, child + 1, under)
  }

  /** Some step of a way up writes. */
  predicate Writing(up: seq<Link>) {
    exists l :: l in up && WritesAt(l)
  }

  lemma WritingOn(up: seq<Link>, l: Link)
    ensures Writing(up + [l]) <==> Writing(up) || WritesAt(l)
  {
    if Writing(up) { var k :| k in up && WritesAt(k); assert k in up + [l]; }
    if WritesAt(l) { assert l in up + [l]; }
  }

  lemma {:induction false} ClimbFlags(n: Node, i: nat, first: nat, under: bool)
    requires i < |Variables(n)| && Variables(n)[i].Attr? && (under || Writing(Climb(n, i, first)))
    ensures Variables(n)[i].token in Flagged(n, under)
    decreases n, 1
  {
    if !n.kind.Variable? { ClimbFromFlags(n, n.children, 0, i, first, first, under); }
  }

  lemma {:induction false} ClimbFromFlags(n: Node, ns: Nodes, child: nat, i: nat, first: nat, here: nat, under: bool)
    requires i < |VariablesOf(ns)| && VariablesOf(ns)[i].Attr?
    requires under || Writing(ClimbFrom(n, ns, child, i, first, here))
    ensures VariablesOf(ns)[i].token in FlaggedFrom(n, ns, child, under)
    decreases ns, 0
  {
    hide Writing, WritesAt;
    var k := |Variables(ns.head)|;
    SameStep(n, child, first);
    if i < k {
      WritingOn(Climb(ns.head, i, here), Link(n, child, first));
      ClimbFlags(ns.head, i, here, under || WritesAt(Link(n, child, 0)));
    } else {
      ClimbFromFlags(n, ns.tail, child + 1, i - k, first, here + k, under);
    }
  }

  lemma SameStep(n: Node, child: nat, first: nat)
    ensures WritesAt(Link(n, child, first)) == WritesAt(Link(n, child, 0))
  {
  }

  lemma {:induction false} FlagsClimb(n: Node, t: TokenKey, first: nat, under: bool) returns (i: nat)
    requires t in Flagged(n, under)
    ensures i < |Variables(n)| && Variables(n)[i] == Attr(t) && (under || Writing(Climb(n, i, first)))
    decreases n, 1
  {
    if n.kind.Variable? { i := 0; } else { i := FlagsClimbFrom(n, n.children, 0, t, first, first, under); }
  }

  lemma {:induction false} FlagsClimbFrom(n: Node, ns: Nodes, child: nat, t: TokenKey, first: nat, here: nat,
      under: bool)
    returns (i: nat)
    requires t in FlaggedFrom(n, ns, child, under)
    ensures i < |VariablesOf(ns)| && VariablesOf(ns)[i] == Attr(t)
    ensures under || Writing(ClimbFrom(n, ns, child, i, first, here))
    decreases ns, 0
  {
    hide Writing, WritesAt;
    SameStep(n, child, first);
    var k := |Variables(ns.head)|;
    if t in Flagged(ns.head, under || WritesAt(Link(n, child, 0))) {
      i := FlagsClimb(ns.head, t, here, under || WritesAt(Link(n, child, 0)));
      WritingOn(Climb(ns.head, i, here), Link(n, child, first));
    } else {
      i := FlagsClimbFrom(n, ns.tail, child + 1, t, first, here + k, under);
      i := i + k;
    }
  }

  /** The imperative classification of the occurrences of a token is the structural one. */
  lemma WrittenIsFlagged(root: Node, t: TokenKey)
    ensures TokenWritten(root, t) <==> t in Flagged(root, false)
  {
    hide Variables, Climb, Flagged, WritesAt;
    if TokenWritten(root, t) {
      var i: nat :| i < |Variables(root)| && Variables(root)[i] == Attr(t) && IsWritten(root, i);
      ClimbFlags(root, i, 0, false);
    }
    if t in Flagged(root, false) {
      var i := FlagsClimb(root, t, 0, false);
      assert IsWritten(root, i);
    }
  }

  // ---------------------------------------------------------------------------------------
  // The flags of a program

  lemma {:induction false} ExprFlags(e: Expr)
    ensures Flagged(NodeOf(e), false) == Written(e) && Flagged(NodeOf(e), true) == Tokens(e)
    decreases e, 1
  {
    match e
    case Literal(_, _) =>
    case Local(_) =>
    case Attribute(_, _) =>
    case Component(index, vec) => ExprFlags(index); ExprFlags(vec); TwoFlags(OtherNode, index, vec);
    case MatrixEntry(row, column, m) => ExprFlags(row); ExprFlags(column); ExprFlags(m); EntryFlags(e);
    case Unary(_, a) => ExprFlags(a); OneFlags(OtherNode, a);
    case Binary(_, l, r) => ExprFlags(l); ExprFlags(r); TwoFlags(OtherNode, l, r);
    case Logical(_, l, r) => ExprFlags(l); ExprFlags(r); TwoFlags(OtherNode, l, r);
    case Ternary(c, t, f) =>
      ExprFlags(c);
      ExprFlags(f);
      if t.Some? { ExprFlags(t.value); }
      TernaryFlags(e);
    case Comma(es) => ListFlags(NodeOf(e), es, 0);
    case Assign(l, op, r) => ExprFlags(l); ExprFlags(r); TwoFlags(AssignNode(op.Some?), l, r);
    case Crement(v, _, _) => ExprFlags(v); OneFlags(CrementNode, v);
    case Cast(_, a) => ExprFlags(a); OneFlags(OtherNode, a);
    case Call(_, args) => ListFlags(NodeOf(e), args, 0);
    case ArrayPack(es) => ListFlags(NodeOf(e), es, 0);
  }

  lemma OneFlags(k: Kind, a: Expr)
    requires !k.Variable?
    ensures var n := Node(k, One(NodeOf(a)));
            forall under :: Flagged(n, under) == Flagged(NodeOf(a), under || WritesAt(Link(n, 0, 0)))
  {
    var n := Node(k, One(NodeOf(a)));
    forall under ensures Flagged(n, under) == Flagged(NodeOf(a), under || WritesAt(Link(n, 0, 0))) {
      assert FlaggedFrom(n, NoNodes, 1, under) == {};
    }
  }

  lemma TwoFlags(k: Kind, a: Expr, b: Expr)
    requires !k.Variable?
    ensures var n := Node(k, Two(NodeOf(a), NodeOf(b)));
            forall under :: Flagged(n, under) == Flagged(NodeOf(a), under || WritesAt(Link(n, 0, 0))) +
                                                 Flagged(NodeOf(b), under || WritesAt(Link(n, 1, 0)))
  {
    var n := Node(k, Two(NodeOf(a), NodeOf(b)));
    forall under
      ensures Flagged(n, under) == Flagged(NodeOf(a), under || WritesAt(Link(n, 0, 0))) +
                                   Flagged(NodeOf(b), under || WritesAt(Link(n, 1, 0)))
    {
      assert FlaggedFrom(n, NoNodes, 2, under) == {};
      assert FlaggedFrom(n, One(NodeOf(b)), 1, under) == Flagged(NodeOf(b), under || WritesAt(Link(n, 1, 0))) + {};
    }
  }

  lemma EntryFlags(e: Expr)
    requires e.MatrixEntry?
    ensures forall under ::
              Flagged(NodeOf(e), under) ==
              Flagged(NodeOf(e.row), under) + Flagged(NodeOf(e.column), under) + Flagged(NodeOf(e.matrix), under)
  {
    var n := NodeOf(e);
    forall under
      ensures Flagged(n, under) ==
              Flagged(NodeOf(e.row), under) + Flagged(NodeOf(e.column), under) + Flagged(NodeOf(e.matrix), under)
    {
      assert FlaggedFrom(n, NoNodes, 3, under) == {};
      assert FlaggedFrom(n, One(NodeOf(e.matrix)), 2, under) == Flagged(NodeOf(e.matrix), under) + {};
      assert FlaggedFrom(n, n.children.tail, 1, under) ==
             Flagged(NodeOf(e.column), under) + FlaggedFrom(n, One(NodeOf(e.matrix)), 2, under);
    }
  }

  lemma TernaryFlags(e: Expr)
    requires e.Ternary?
    ensures forall under ::
              Flagged(NodeOf(e), under) ==
              Flagged(NodeOf(e.cond), under) + (if e.onTrue.Some? then Flagged(NodeOf(e.onTrue.value), under) else {}) +
              Flagged(NodeOf(e.onFalse), under)
  {
    var n := NodeOf(e);
    forall under
      ensures Flagged(n, under) ==
              Flagged(NodeOf(e.cond), under) + (if e.onTrue.Some? then Flagged(NodeOf(e.onTrue.value), under) else {}) +
              Flagged(NodeOf(e.onFalse), under)
    {
      var k := if e.onTrue.Some? then 2 else 1;
      assert FlaggedFrom(n, One(NodeOf(e.onFalse)), k, under) == Flagged(NodeOf(e.onFalse), under) +
        FlaggedFrom(n, NoNodes, k + 1, under);
      assert FlaggedFrom(n, n.children.tail, 1, under) ==
             (if e.onTrue.Some? then Flagged(NodeOf(e.onTrue.value), under) else {}) +
               Flagged(NodeOf(e.onFalse), under);
    }
  }

  lemma {:induction false} ListFlags(n: Node, es: Exprs, child: nat)
    requires n.kind.CommaNode? || n.kind.CallNode? || n.kind.OtherNode?
    ensures FlaggedFrom(n, NodesOf(es), child, true) == TokensOf(es)
    ensures FlaggedFrom(n, NodesOf(es), child, false) == if n.kind.CallNode? then TokensOf(es) else WrittenIn(es)
    decreases es, 1
  {
    match es
    case NoExprs =>
    case ConsExpr(e, rest) =>
      ExprFlags(e);
      ListFlags(n, rest, child + 1);
  }

  /** A node that does not write passes the flags of its children on. */
  predicate Passes(k: Kind) {
    k.ConditionalNode? || k.LoopNode? || k.OtherNode?
  }

  lemma PassOn(n: Node, a: Node, rest: Nodes, child: nat)
    requires Passes(n.kind)
    ensures FlaggedFrom(n, MoreNodes(a, rest), child, false) ==
              Flagged(a, false) + FlaggedFrom(n, rest, child + 1, false)
    ensures FlaggedFrom(n, NoNodes, child, false) == {}
  {
  }

  lemma {:induction false} StmtFlags(s: Stmt)
    ensures Flagged(StmtNode(s), false) == WrittenBy(s)
    decreases s, 1
  {
    hide Flagged, FlaggedFrom;
    FlaggedInside(StmtNode(s));
    match s
    case ExprStmt(e) => ExprFlags(e);
    case Declare(_, name, initial) => DeclareFlags(s);
    case Block(body) => StmtsFlags(body, StmtNode(s), 0);
    case StatementList(ss) => StmtsFlags(ss, StmtNode(s), 0);
    case If(_, _, _) => IfFlags(s);
    case Loop(_, _, _) => LoopFlags(s);
    case Jump(_) => PassOn(StmtNode(s), StmtNode(s), NoNodes, 0);
  }

  lemma FlaggedInside(n: Node)
    ensures !n.kind.Variable? ==> Flagged(n, false) == FlaggedFrom(n, n.children, 0, false)
  {
  }

  lemma {:induction false} DeclareFlags(s: Stmt)
    requires s.Declare?
    ensures Flagged(StmtNode(s), false) == WrittenBy(s)
  {
    var n := StmtNode(s);
    if s.initial.Some? {
      ExprFlags(s.initial.value);
      assert FlaggedFrom(n, NoNodes, 2, false) == {};
      assert FlaggedFrom(n, n.children.tail, 1, false) == Flagged(NodeOf(s.initial.value), false) +
        FlaggedFrom(n, NoNodes, 2, false);
      assert FlaggedFrom(n, n.children, 0, false) == Flagged(n.children.head, true) +
        FlaggedFrom(n, n.children.tail, 1, false);
      assert Flagged(n.children.head, true) == {};
    } else {
      assert FlaggedFrom(n, NoNodes, 1, false) == {};
      assert FlaggedFrom(n, n.children, 0, false) == Flagged(n.children.head, false) +
        FlaggedFrom(n, NoNodes, 1, false);
      assert Flagged(n.children.head, false) == {};
    }
  }

  lemma {:induction false} StmtsFlags(ss: Stmts, n: Node, child: nat)
    requires Passes(n.kind)
    ensures FlaggedFrom(n, StmtNodes(ss), child, false) == WrittenByAll(ss)
    decreases ss, 1
  {
    hide Flagged, FlaggedFrom;
    match ss
    case NoStmts => PassOn(n, n, NoNodes, child);
    case ConsStmt(s, rest) =>
      StmtFlags(s);
      StmtsFlags(rest, n, child + 1);
      PassOn(n, StmtNode(s), StmtNodes(rest), child);
  }

  /** A block inside a statement. */
  lemma {:induction false} BlockFlags(ss: Stmts)
    ensures Flagged(Node(OtherNode, StmtNodes(ss)), false) == WrittenByAll(ss)
    decreases ss, 2
  {
    hide Flagged, FlaggedFrom;
    StmtsFlags(ss, Node(OtherNode, StmtNodes(ss)), 0);
    FlaggedInside(Node(OtherNode, StmtNodes(ss)));
  }

  lemma {:induction false} IfFlags(s: Stmt)
    requires s.If?
    ensures Flagged(StmtNode(s), false) == WrittenBy(s)
    decreases s, 0
  {
    hide Flagged, FlaggedFrom, Written, WrittenByAll;
    var n := StmtNode(s);
    FlaggedInside(n);
    ExprFlags(s.cond);
    BlockFlags(s.onTrue);
    PassOn(n, NodeOf(s.cond), n.children.tail, 0);
    PassOn(n, Node(OtherNode, StmtNodes(s.onTrue)), n.children.tail.tail, 1);
    PassOn(n, n, NoNodes, 2);
    if s.onFalse.Some? {
      BlockFlags(s.onFalse.value);
      PassOn(n, Node(OtherNode, StmtNodes(s.onFalse.value)), NoNodes, 2);
      PassOn(n, n, NoNodes, 3);
    }
  }

  lemma {:induction false} LoopFlags(s: Stmt)
    requires s.Loop?
    ensures Flagged(StmtNode(s), false) == WrittenBy(s)
    decreases s, 0
  {
    hide Flagged, FlaggedFrom, Written, WrittenByAll;
    var n := StmtNode(s);
    var body := Node(OtherNode, StmtNodes(s.body));
    FlaggedInside(n);
    ExprFlags(s.cond);
    BlockFlags(s.body);
    var start := if s.kind.For? then 1 else 0;
    PassOn(n, body, NoNodes, start + 1);
    PassOn(n, body, NoNodes, start + 2);
    PassOn(n, n, NoNodes, start + 3);
    match s.kind
    case For(init, iteration) =>
      BlockFlags(init);
      PassOn(n, Node(OtherNode, StmtNodes(init)), n.children.tail, 0);
      PassOn(n, NodeOf(s.cond), n.children.tail.tail, 1);
      if iteration.Some? {
        ExprFlags(iteration.value);
        PassOn(n, NodeOf(iteration.value), One(body), 2);
      }
    case While => PassOn(n, NodeOf(s.cond), One(body), 0);
    case Do => PassOn(n, NodeOf(s.cond), One(body), 0);
  }

  /** What the scanner flags as written in a program is what the program may write to. */
  lemma ProgramFlags(root: Stmts, t: TokenKey)
    ensures TokenWritten(TreeOf(root), t) <==> t in WrittenByAll(root)
  {
    hide TokenWritten, Flagged;
    WrittenIsFlagged(TreeOf(root), t);
    StmtFlags(Block(root));
  }
}
