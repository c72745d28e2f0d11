/**
The one-step dependencies in terms of programs: what an assigned variable depends on, wherever the
expression or statement that assigns to it stands in the program.
*/
module ProgramDependencies {
  import opened Types
  import opened Ast
  import opened Semantics
  import opened Occurrences
  import Catalogue
  import opened TreeFlags
  import opened Dependencies
  import opened Agreement
  import opened Noninterference

  /** How many variables an expression has. */
  function Count(e: Expr): nat {
    |Variables(NodeOf(e))|
  }

  /** A step of the way up from a use, which is written at this step or below, counts. */
  lemma StepSays(root: Node, u: nat, up: seq<Link>, k: nat, d: nat)
    requires u < |Variables(root)| && !Variables(root)[u].Ext? && up == Climb(root, u, 0) && k < |up|
    requires Says(u, up[k], true, d) && exists j :: 0 <= j <= k && Catalogue.WritesAt(up[j])
    ensures d in Direct(root, u)
  {
    hide Says, Variables, Climb;
    assert Influences(u, up, k, d);
    assert Influenced(root, u, d);
    DirectExactly(root, u, d);
  }

  /** A written use under child k of a node depends on what the step to the node says. */
  lemma FromHere(root: Node, n: Node, s: nat, up: seq<Link>, k: nat, j: nat, d: nat)
    requires Placed(root, n, s, up) && !n.kind.Variable?
    requires k < Size(n.children) && j < |Variables(Child(n.children, k))|
    requires !Variables(Child(n.children, k))[j].Ext?
    requires var here := s + ChildStart(n.children, k);
             Writing(Climb(Child(n.children, k), j, here)) || Catalogue.WritesAt(Link(n, k, s))
    requires Says(s + ChildStart(n.children, k) + j, Link(n, k, s), true, d)
    ensures var u := s + ChildStart(n.children, k) + j;
            u < |Variables(root)| && Variables(root)[u] == Variables(Child(n.children, k))[j] && d in Direct(root, u)
  {
    hide Variables, Climb, Says, Direct, Catalogue.WritesAt;
    var c := Child(n.children, k);
    var here := s + ChildStart(n.children, k);
    ChildPlaced(root, n, s, up, k);
    var inner := Climb(c, j, here);
    var all := inner + ([Link(n, k, s)] + up);
    assert Climb(root, here + j, 0) == all && Variables(root)[here + j] == Variables(c)[j];
    assert all[|inner|] == Link(n, k, s);
    if Writing(inner) {
      var l :| l in inner && Catalogue.WritesAt(l);
      var i :| 0 <= i < |inner| && inner[i] == l;
      assert Catalogue.WritesAt(all[i]);
    }
    assert exists i :: 0 <= i <= |inner| && Catalogue.WritesAt(all[i]);
    StepSays(root, here + j, all, |inner|, d);
  }

  /** The target of an assignment depends on every variable of the source, and on itself if it is compound. */
  lemma TargetDepends(root: Node, e: Expr, s: nat, up: seq<Link>, d: nat)
    requires e.Assign? && IsPlain(e.target) && Placed(root, NodeOf(e), s, up)
    requires s < d <= s + Count(e.source) || (e.compound.Some? && d == s)
    ensures s < |Variables(root)| && Variables(root)[s] == PlainName(e.target) && d in Direct(root, s)
  {
    hide Variables, Placed, Direct;
    var n := NodeOf(e);
    PlainVariables(e.target);
    TwoNodes(NodeOf(e.target), NodeOf(e.source));
    DropNothing(n.children);
    DropChild(n.children, 0);
    FromHere(root, n, s, up, 0, 0, d);
  }

  /** A variable that is incremented or decremented depends on itself. */
  lemma CrementDepends(root: Node, e: Expr, s: nat, up: seq<Link>)
    requires e.Crement? && IsPlain(e.variable) && Placed(root, NodeOf(e), s, up)
    ensures s < |Variables(root)| && Variables(root)[s] == PlainName(e.variable) && s in Direct(root, s)
  {
    hide Variables, Placed, Direct;
    var n := NodeOf(e);
    PlainVariables(e.variable);
    DropNothing(n.children);
    assert Size(n.children) == 1;
    FromHere(root, n, s, up, 0, 0, s);
  }

  /** A local depends on every variable of its initialiser. */
  lemma InitialDepends(root: Node, st: Stmt, s: nat, up: seq<Link>, d: nat)
    requires st.Declare? && st.initial.Some? && Placed(root, StmtNode(st), s, up)
    requires s < d <= s + Count(st.initial.value)
    ensures s < |Variables(root)| && Variables(root)[s] == Loc(st.name) && d in Direct(root, s)
  {
    hide Variables, Placed, Direct;
    var n := StmtNode(st);
    LocalNode(st.name);
    TwoNodes(Node(Variable(Loc(st.name)), NoNodes), NodeOf(st.initial.value));
    assert n.children == Two(Node(Variable(Loc(st.name)), NoNodes), NodeOf(st.initial.value));
    DropNothing(n.children);
    DropChild(n.children, 0);
    FromHere(root, n, s, up, 0, 0, d);
  }

  /** A variable that a branch of a conditional assigns to has a use there that depends on the condition. */
  lemma BranchDepends(root: Node, st: Stmt, s: nat, up: seq<Link>, x: VarName) returns (u: nat)
    requires st.If? && SimpleStmt(st) && Placed(root, StmtNode(st), s, up)
    requires x in AssignedByAll(st.onTrue) || (st.onFalse.Some? && x in AssignedByAll(st.onFalse.value))
    ensures s + Count(st.cond) <= u < |Variables(root)| && Variables(root)[u] == x
    ensures forall d: nat | s <= d < s + Count(st.cond) :: d in Direct(root, u)
  {
    hide Variables, Placed, Direct, Climb, Writing;
    var n := StmtNode(st);
    IfChildren(st);
    var k := if x in AssignedByAll(st.onTrue) then 1 else 2;
    var part := if k == 1 then st.onTrue else st.onFalse.value;
    var here := s + ChildStart(n.children, k);
    var j := AssignedByAllOccurs(BranchNode(part), part, 0, x, here);
    u := here + j;
    ChildPlaced(root, n, s, up, k);
    PlacedAt(root, Child(n.children, k), here, [Link(n, k, s)] + up, j);
    forall d: nat | s <= d < s + Count(st.cond) ensures d in Direct(root, u) {
      FromHere(root, n, s, up, k, j, d);
    }
  }

  /** A variable that a branch of a ternary assigns to has a use there that depends on the condition. */
  lemma ChoiceDepends(root: Node, e: Expr, s: nat, up: seq<Link>, x: VarName) returns (u: nat)
    requires e.Ternary? && Simple(e) && Placed(root, NodeOf(e), s, up)
    requires x in Assigned(e.onFalse) || (e.onTrue.Some? && x in Assigned(e.onTrue.value))
    ensures s + Count(e.cond) <= u < |Variables(root)| && Variables(root)[u] == x
    ensures forall d: nat | s <= d < s + Count(e.cond) :: d in Direct(root, u)
  {
    hide Variables, Placed, Direct, Climb, Writing;
    var n := NodeOf(e);
    TernaryChildren(e);
    SimpleParts(e);
    var inFalse := x in Assigned(e.onFalse);
    var k := if inFalse then Size(n.children) - 1 else 1;
    var here := s + ChildStart(n.children, k);
    var j := AssignedOccurs(if inFalse then e.onFalse else e.onTrue.value, x, here);
    u := here + j;
    ChildPlaced(root, n, s, up, k);
    PlacedAt(root, Child(n.children, k), here, [Link(n, k, s)] + up, j);
    forall d: nat | s <= d < s + Count(e.cond) ensures d in Direct(root, u) {
      FromHere(root, n, s, up, k, j, d);
    }
  }

  /** A variable under an argument of a call depends on every variable of the call. */
  lemma ArgumentDepends(root: Node, e: Expr, s: nat, up: seq<Link>, u: nat, d: nat)
    requires e.Call? && Placed(root, NodeOf(e), s, up)
    requires s <= u < s + Count(e) && s <= d < s + Count(e) && !Variables(NodeOf(e))[u - s].Ext?
    ensures u < |Variables(root)| && d in Direct(root, u)
  {
    hide Variables, Placed, Direct, Climb;
    var n := NodeOf(e);
    InsideNode(n);
    var k, j := ChildOf(n.children, u - s);
    ChildPlaced(root, n, s, up, k);
    FromHere(root, n, s, up, k, j, d);
  }

  /** The child that a variable is under, and its position there. */
  lemma {:induction false} ChildOf(ns: Nodes, i: nat) returns (k: nat, j: nat)
    requires i < |VariablesOf(ns)|
    ensures k < Size(ns) && j < |Variables(Child(ns, k))| && ChildStart(ns, k) + j == i
    ensures Variables(Child(ns, k))[j] == VariablesOf(ns)[i]
    decreases ns
  {
    hide Variables;
    var first := |Variables(ns.head)|;
    if i < first {
      k, j := 0, i;
    } else {
      k, j := ChildOf(ns.tail, i - first);
      k := k + 1;
    }
  }

  lemma PlacedAt(root: Node, n: Node, s: nat, up: seq<Link>, j: nat)
    requires Placed(root, n, s, up) && j < |Variables(n)|
    ensures s + j < |Variables(root)| && Variables(root)[s + j] == Variables(n)[j]
  {
  }

  /** The positions of the variables that decide whether a loop goes on: those of the condition or, if that is a
      comma expression, of its last element. */
  predicate Decides(st: Stmt, s: nat, d: nat)
    requires st.Loop?
  {
    var start := s + if st.kind.For? then |Variables(BranchNode(st.kind.init))| else 0;
    if st.cond.Comma? then start + Count(st.cond) - LastCount(st.cond.exprs) <= d < start + Count(st.cond)
    else start <= d < start + Count(st.cond)
  }

  function LastCount(es: Exprs): nat {
    match es
    case NoExprs => 0
    case ConsExpr(e, rest) => if rest.NoExprs? then Count(e) else LastCount(rest)
  }

  lemma {:induction false} LastCountIs(es: Exprs)
    requires es.ConsExpr?
    ensures Size(NodesOf(es)) == Length(es) > 0
    ensures LastCount(es) == |Variables(Child(NodesOf(es), Length(es) - 1))|
    ensures ChildStart(NodesOf(es), Length(es) - 1) + LastCount(es) == |VariablesOf(NodesOf(es))|
  {
    hide Variables;
    if es.tail.ConsExpr? {
      LastCountIs(es.tail);
    } else {
      VariablesOfOne(NodeOf(es.head));
      assert NodesOf(es) == One(NodeOf(es.head));
    }
  }

  lemma DecidesIs(st: Stmt, s: nat, k: nat, d: nat)
    requires st.Loop? && Decides(st, s, d) && k != ConditionChild(st.kind)
    ensures IsTested(Link(StmtNode(st), k, s), ConditionChild(st.kind), d)
  {
    hide Variables;
    LoopChildren(st);
    var ns := StmtNode(st).children;
    DropNothing(ns);
    DropChild(ns, 0);
    CommaIsNode(st.cond);
    if st.cond.Comma? {
      LastCountIs(st.cond.exprs);
      InsideNode(NodeOf(st.cond));
    }
  }

  /** A variable that a loop assigns to, in its body, its iteration or its initial statements, has a use there that
      depends on every variable that decides whether the loop goes on. */
  lemma LoopDepends(root: Node, st: Stmt, s: nat, up: seq<Link>, x: VarName) returns (u: nat)
    requires st.Loop? && SimpleStmt(st) && Placed(root, StmtNode(st), s, up) && x in AssignedBy(st)
    ensures u < |Variables(root)| && Variables(root)[u] == x
    ensures forall d: nat | Decides(st, s, d) :: d in Direct(root, u)
  {
    hide Variables, Placed, Direct, Climb, Writing, IsTested, Decides;
    var n := StmtNode(st);
    LoopChildren(st);
    var k, j := LoopOccurs(st, x, s);
    var here := s + ChildStart(n.children, k);
    u := here + j;
    ChildPlaced(root, n, s, up, k);
    PlacedAt(root, Child(n.children, k), here, [Link(n, k, s)] + up, j);
    forall d: nat | Decides(st, s, d) ensures d in Direct(root, u) {
      DecidesIs(st, s, k, d);
      FromHere(root, n, s, up, k, j, d);
    }
  }
}
