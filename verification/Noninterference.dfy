/**
What the dependencies are good for: two runs that start with the same values of an attribute and of
everything the scanner says it depends on end with the same value of that attribute.
*/
module Noninterference {
  import opened Types
  import opened Ast
  import opened Semantics
  import opened Writes
  import opened Occurrences
  import opened Catalogue
  import opened TreeFlags
  import opened Dependencies
  import opened AttributeRegistries
  import opened Kernels
  import opened Agreement

  // ---------------------------------------------------------------------------------------
  // Nodes at their place in the tree

  /** Node n of the tree has its first variable at position s, and `up` leads from it to the root. */
  ghost predicate Placed(root: Node, n: Node, s: nat, up: seq<Link>) {
    && s + |Variables(n)| <= |Variables(root)|
    && forall i: nat | i < |Variables(n)| ::
         Variables(root)[s + i] == Variables(n)[i] && Climb(root, s + i, 0) == Climb(n, i, s) + up
  }

  lemma RootPlaced(root: Node)
    ensures Placed(root, root, 0, [])
  {
    forall i: nat | i < |Variables(root)| ensures Climb(root, 0 + i, 0) == Climb(root, i, 0) + [] {
    }
  }

  /** The variables of child k, and the way up from them. */
  lemma {:induction false} ClimbChild(n: Node, ns: Nodes, child: nat, k: nat, i: nat, first: nat, here: nat)
    requires k < Size(ns) && i < |Variables(Child(ns, k))|
    ensures var j := ChildStart(ns, k) + i;
            && j < |VariablesOf(ns)| && VariablesOf(ns)[j] == Variables(Child(ns, k))[i]
            && ClimbFrom(n, ns, child, j, first, here) ==
               Climb(Child(ns, k), i, here + ChildStart(ns, k)) + [Link(n, child + k, first)]
  {
    ChildFits(ns, k);
    if k > 0 {
      ClimbChild(n, ns.tail, child + 1, k - 1, i, first, here + |Variables(ns.head)|);
    }
  }

  lemma ChildPlaced(root: Node, n: Node, s: nat, up: seq<Link>, k: nat)
    requires Placed(root, n, s, up) && !n.kind.Variable? && k < Size(n.children)
    ensures Placed(root, Child(n.children, k), s + ChildStart(n.children, k), [Link(n, k, s)] + up)
  {
    hide Variables, Climb;
    var c := Child(n.children, k);
    var start := ChildStart(n.children, k);
    ChildFits(n.children, k);
    InsideNode(n);
    forall i: nat | i < |Variables(c)|
      ensures Variables(root)[s + start + i] == Variables(c)[i] &&
              Climb(root, s + start + i, 0) == Climb(c, i, s + start) + ([Link(n, k, s)] + up)
    {
      ClimbChild(n, n.children, 0, k, i, s, s);
      ClimbInside(n, start + i, s);
      assert Variables(root)[s + (start + i)] == Variables(n)[start + i];
      assert Climb(c, i, s + start) + [Link(n, k, s)] + up == Climb(c, i, s + start) + ([Link(n, k, s)] + up);
    }
  }

  lemma InsideNode(n: Node)
    ensures !n.kind.Variable? ==> Variables(n) == VariablesOf(n.children)
  {
  }

  lemma ClimbInside(n: Node, i: nat, first: nat)
    requires !n.kind.Variable? && i < |VariablesOf(n.children)|
    ensures i < |Variables(n)| && Climb(n, i, first) == ClimbFrom(n, n.children, 0, i, first, first)
  {
  }

  // ---------------------------------------------------------------------------------------
  // What matters

  /** The attribute whose value is asked for, its last position, and the dependencies found. The answer is steady
      when no use of a variable it names, wherever it is, depends on anything else. */
  datatype Question = Question(root: Node, a: VarName, last: nat, d: set<nat>, steady: bool)

  ghost predicate Answered(q: Question) {
    !q.a.Ext? &&
    if q.steady then IsSteady(q.root, q.a, q.d)
    else
      && q.last < |Variables(q.root)| && Variables(q.root)[q.last] == q.a
      && Direct(q.root, q.last) <= q.d && Closed(q.root, q.d)
      && forall j: nat | j < |Variables(q.root)| && Variables(q.root)[j] == q.a :: j <= q.last
  }

  /** The names of an attribute and of some variables of a tree. */
  function NamesOfThese(root: Node, a: VarName, d: set<nat>): set<VarName> {
    {a} + set i | i in d && i < |Variables(root)| :: Variables(root)[i]
  }

  /** No use of these variables, wherever it is, depends on anything but them. */
  ghost predicate IsSteady(root: Node, a: VarName, d: set<nat>) {
    forall w: nat | w < |Variables(root)| && !Variables(root)[w].Ext? &&
                    Variables(root)[w] in NamesOfThese(root, a, d) ::
      DirectOfUse(root, w) <= d
  }

  /** The variables that still matter from position p on; in a loop, what comes earlier matters again. */
  function Matters(q: Question, p: nat): set<VarName> {
    {q.a} + set i | i in q.d && (q.steady || p <= i) && i < |Variables(q.root)| :: Variables(q.root)[i]
  }

  lemma MattersLess(q: Question, p: nat, r: nat)
    requires p <= r
    ensures Matters(q, r) <= Matters(q, p)
  {
  }

  /** What an earlier use of a variable that matters contributes has been found. */
  lemma UseCounts(q: Question, w: nat, t: nat)
    requires Answered(q) && w < t && w < |Variables(q.root)| && Variables(q.root)[w] in Matters(q, t)
    requires !Variables(q.root)[w].Ext?
    ensures DirectOfUse(q.root, w) <= q.d
  {
    hide DirectOfUse;
    var x := Variables(q.root)[w];
    if q.steady {
      assert x in NamesOfThese(q.root, q.a, q.d);
    } else {
      var v :=
        if x == q.a then q.last
        else var i :| i in q.d && t <= i < |Variables(q.root)| && Variables(q.root)[i] == x; i;
      assert w in Usage(q.root, v);
      DirectOfAllAre(q.root, Usage(q.root, v));
      assert DirectOfUse(q.root, w) <= Direct(q.root, v);
    }
  }

  /** A step of a way up contributes once the use is known to be written. */
  lemma {:induction false} StepCounts(u: nat, up: seq<Link>, written: bool, k: nat)
    requires k < |up| && (written || exists j :: 0 <= j <= k && WritesAt(up[j]))
    ensures Elements(Contributes(up[k], true)) <= FromUse(u, up, written)
    decreases |up|
  {
    hide Contributes, WritesAt, OnItself, Elements;
    var now := written || WritesAt(up[0]);
    if k > 0 {
      if !now {
        var j :| 0 <= j <= k && WritesAt(up[j]);
        assert up[1..][j - 1] == up[j];
      }
      assert up[1..][k - 1] == up[k];
      StepCounts(u, up[1..], now, k - 1);
    }
  }

  /** All variables of a node at position s have been found: its names matter. */
  lemma FoundMatter(q: Question, n: Node, s: nat, up: seq<Link>)
    requires Placed(q.root, n, s, up) && forall i: nat | s <= i < s + |Variables(n)| :: i in q.d
    ensures (set v | v in Variables(n)) <= Matters(q, s)
  {
    forall v | v in Variables(n) ensures v in Matters(q, s) {
      var i :| 0 <= i < |Variables(n)| && Variables(n)[i] == v;
      assert s + i in q.d && Variables(q.root)[s + i] == v;
    }
  }

  // ---------------------------------------------------------------------------------------
  // Assignments are seen by the scanner

  /** Some variable under child k of a node, seen from the node. */
  lemma FromChild(n: Node, k: nat, j: nat, s: nat) returns (i: nat)
    requires !n.kind.Variable? && k < Size(n.children) && j < |Variables(Child(n.children, k))|
    ensures i < |Variables(n)| && Variables(n)[i] == Variables(Child(n.children, k))[j]
    ensures Writing(Climb(Child(n.children, k), j, s + ChildStart(n.children, k))) || WritesAt(Link(n, k, s)) ==>
              Writing(Climb(n, i, s))
  {
    hide Variables, Climb, Writing, WritesAt;
    i := ChildStart(n.children, k) + j;
    ClimbChild(n, n.children, 0, k, j, s, s);
    ClimbInside(n, i, s);
    InsideNode(n);
    WritingOn(Climb(Child(n.children, k), j, s + ChildStart(n.children, k)), Link(n, k, s));
  }

  lemma {:induction false} AssignedOccurs(e: Expr, x: VarName, s: nat) returns (i: nat)
    requires Simple(e) && x in Assigned(e)
    ensures var n := NodeOf(e);
            i < |Variables(n)| && Variables(n)[i] == x && !x.Ext? && Writing(Climb(n, i, s))
    decreases e, 1
  {
    hide Variables, Climb, Writing;
    var n := NodeOf(e);
    match e
    case Unary(_, a) =>
      var j := AssignedOccurs(a, x, s);
      i := FromChild(n, 0, j, s);
    case Cast(_, a) =>
      var j := AssignedOccurs(a, x, s);
      i := FromChild(n, 0, j, s);
    case Binary(_, l, r) =>
      var k := if x in Assigned(l) then 0 else 1;
      var j := AssignedOccurs(if k == 0 then l else r, x, s + ChildStart(n.children, k));
      i := FromChild(n, k, j, s);
    case Logical(_, l, r) =>
      var k := if x in Assigned(l) then 0 else 1;
      var j := AssignedOccurs(if k == 0 then l else r, x, s + ChildStart(n.children, k));
      i := FromChild(n, k, j, s);
    case Ternary(c, t, f) =>
      TernaryChildren(e);
      var k :=
        if x in Assigned(c) then 0
        else if t.Some? && x in Assigned(t.value) then 1
        else if t.Some? then 2 else 1;
      var part := if k == 0 then c else if t.Some? && k == 1 then t.value else f;
      var j := AssignedOccurs(part, x, s + ChildStart(n.children, k));
      i := FromChild(n, k, j, s);
    case Comma(es) => i := AssignedInOccurs(n, es, 0, x, s);
    case Call(_, args) => i := AssignedInOccurs(n, args, 0, x, s);
    case ArrayPack(es) => i := AssignedInOccurs(n, es, 0, x, s);
    case Assign(l, _, r) =>
      if x == PlainName(l) {
        PlainVariables(l);
        i := FromChild(n, 0, 0, s);
      } else {
        var j := AssignedOccurs(r, x, s + ChildStart(n.children, 1));
        i := FromChild(n, 1, j, s);
      }
    case Crement(v, _, _) =>
      PlainVariables(v);
      i := FromChild(n, 0, 0, s);
  }

  lemma SizeOfTwo(a: Node, b: Node)
    ensures Size(Two(a, b)) == 2 && Size(One(b)) == 1
  {
    assert Size(NoNodes) == 0;
    assert Size(One(b)) == 1;
  }

  lemma TernaryChildren(e: Expr)
    requires e.Ternary?
    ensures var ns := NodeOf(e).children;
            && Size(ns) == (if e.onTrue.Some? then 3 else 2) && Child(ns, 0) == NodeOf(e.cond)
            && (e.onTrue.Some? ==> Child(ns, 1) == NodeOf(e.onTrue.value))
            && Child(ns, Size(ns) - 1) == NodeOf(e.onFalse)
            && ChildStart(ns, 0) == 0 && ChildStart(ns, 1) == |Variables(NodeOf(e.cond))|
            && (e.onTrue.Some? ==> ChildStart(ns, 2) == ChildStart(ns, 1) + |Variables(NodeOf(e.onTrue.value))|)
  {
    hide Variables;
    var ns := NodeOf(e).children;
    DropChild(ns, 0);
    if e.onTrue.Some? {
      SizeOfTwo(NodeOf(e.onTrue.value), NodeOf(e.onFalse));
      assert Child(ns.tail, 1) == Child(ns.tail.tail, 0);
      DropChild(ns, 1);
    }
  }

  /** The body of a branch as a node. */
  function BranchNode(ss: Stmts): Node {
    Node(OtherNode, StmtNodes(ss))
  }

  lemma IfChildren(s: Stmt)
    requires s.If?
    ensures var ns := StmtNode(s).children;
            && Size(ns) == (if s.onFalse.Some? then 3 else 2) && Child(ns, 0) == NodeOf(s.cond)
            && Child(ns, 1) == BranchNode(s.onTrue)
            && (s.onFalse.Some? ==> Child(ns, 2) == BranchNode(s.onFalse.value))
            && ChildStart(ns, 0) == 0 && ChildStart(ns, 1) == |Variables(NodeOf(s.cond))|
            && (s.onFalse.Some? ==> ChildStart(ns, 2) == ChildStart(ns, 1) + |Variables(BranchNode(s.onTrue))|)
  {
    hide Variables;
    var ns := StmtNode(s).children;
    DropChild(ns, 0);
    if s.onFalse.Some? {
      TwoNodes(BranchNode(s.onTrue), BranchNode(s.onFalse.value));
      assert ns.tail == Two(BranchNode(s.onTrue), BranchNode(s.onFalse.value));
      DropChild(ns, 1);
    }
  }

  lemma TwoNodes(a: Node, b: Node)
    ensures Size(Two(a, b)) == 2 && Child(Two(a, b), 0) == a && Child(Two(a, b), 1) == b
  {
    assert Two(a, b).tail == One(b) && Size(One(b)) == 1;
  }

  lemma PlainVariables(e: Expr)
    requires IsPlain(e)
    ensures Variables(NodeOf(e)) == [PlainName(e)]
  {
  }

  /** The children of a node from number k on. */
  function Drop(ns: Nodes, k: nat): Nodes
    requires k <= Size(ns)
  {
    if k == 0 then ns else Drop(ns.tail, k - 1)
  }

  lemma DropNothing(ns: Nodes)
    ensures Drop(ns, 0) == ns && ChildStart(ns, 0) == 0
  {
  }

  lemma {:induction false} DropChild(ns: Nodes, k: nat)
    requires k < Size(ns)
    ensures Drop(ns, k).MoreNodes? && Drop(ns, k).head == Child(ns, k) && Drop(ns, k).tail == Drop(ns, k + 1)
    ensures ChildStart(ns, k + 1) == ChildStart(ns, k) + |Variables(Child(ns, k))|
  {
    if k > 0 { DropChild(ns.tail, k - 1); }
  }

  lemma {:induction false} DropSize(ns: Nodes, k: nat)
    requires k <= Size(ns)
    ensures Size(Drop(ns, k)) == Size(ns) - k
    ensures k == Size(ns) ==> ChildStart(ns, k) == |VariablesOf(ns)|
  {
    if k > 0 { DropSize(ns.tail, k - 1); }
  }

  lemma {:induction false} AssignedInOccurs(n: Node, es: Exprs, k: nat, x: VarName, s: nat) returns (i: nat)
    requires AllSimple(es) && x in AssignedIn(es)
    requires !n.kind.Variable? && k <= Size(n.children) && Drop(n.children, k) == NodesOf(es)
    ensures i < |Variables(n)| && Variables(n)[i] == x && !x.Ext? && Writing(Climb(n, i, s))
    decreases es, 1
  {
    hide Variables, Climb, Writing;
    match es
    case ConsExpr(e, rest) =>
      DropSize(n.children, k);
      DropChild(n.children, k);
      if x in Assigned(e) {
        var j := AssignedOccurs(e, x, s + ChildStart(n.children, k));
        i := FromChild(n, k, j, s);
      } else {
        i := AssignedInOccurs(n, rest, k + 1, x, s);
      }
  }

  lemma {:induction false} AssignedByOccurs(st: Stmt, x: VarName, s: nat) returns (i: nat)
    requires SimpleStmt(st) && x in AssignedBy(st)
    ensures var n := StmtNode(st);
            i < |Variables(n)| && Variables(n)[i] == x && !x.Ext? && Writing(Climb(n, i, s))
    decreases st, 1
  {
    hide Variables, Climb, Writing;
    var n := StmtNode(st);
    match st
    case ExprStmt(e) => i := AssignedOccurs(e, x, s);
    case Declare(_, _, _) => i := DeclaredOccurs(st, x, s);
    case Block(body) => i := AssignedByAllOccurs(n, body, 0, x, s);
    case StatementList(ss) => i := AssignedByAllOccurs(n, ss, 0, x, s);
    case If(c, onTrue, onFalse) =>
      if x in Assigned(c) {
        var j := AssignedOccurs(c, x, s + ChildStart(n.children, 0));
        i := FromChild(n, 0, j, s);
      } else {
        IfChildren(st);
        var k := if x in AssignedByAll(onTrue) then 1 else 2;
        var part := if k == 1 then onTrue else onFalse.value;
        var j := AssignedByAllOccurs(Node(OtherNode, StmtNodes(part)), part, 0, x, s + ChildStart(n.children, k));
        i := FromChild(n, k, j, s);
      }
    case Loop(_, _, _) =>
      var k, j := LoopOccurs(st, x, s);
      i := FromChild(n, k, j, s);
  }

  /** The children of a loop: initial statements, condition, iteration, body. */
  function ConditionChild(kind: LoopKind): nat {
    if kind.For? then 1 else 0
  }

  function BodyChild(kind: LoopKind): nat {
    if !kind.For? then 1 else if kind.iteration.Some? then 3 else 2
  }

  lemma LoopChildren(st: Stmt)
    requires st.Loop?
    ensures var n := StmtNode(st);
            && n.kind == LoopNode(ConditionChild(st.kind), st.kind.Do?) && Size(n.children) == BodyChild(st.kind) + 1
            && Child(n.children, ConditionChild(st.kind)) == NodeOf(st.cond)
            && Child(n.children, BodyChild(st.kind)) == BranchNode(st.body)
            && (st.kind.For? ==> Child(n.children, 0) == BranchNode(st.kind.init))
            && (st.kind.For? && st.kind.iteration.Some? ==> Child(n.children, 2) == NodeOf(st.kind.iteration.value))
  {
    var ns := StmtNode(st).children;
    var rest := One(BranchNode(st.body));
    assert Size(rest) == 1;
    if st.kind.For? {
      assert ns.tail.head == NodeOf(st.cond);
      if st.kind.iteration.Some? {
        assert ns.tail.tail == MoreNodes(NodeOf(st.kind.iteration.value), rest);
        assert Child(ns, 3) == Child(ns.tail, 2) == Child(ns.tail.tail, 1) == Child(rest, 0);
        assert Child(ns, 2) == Child(ns.tail, 1) == Child(ns.tail.tail, 0);
      } else {
        assert ns.tail.tail == rest;
        assert Child(ns, 2) == Child(ns.tail, 1) == Child(rest, 0);
      }
    } else {
      assert ns.tail == rest;
    }
  }

  /** A variable that a loop assigns to has a written use under a child that is not its condition. */
  lemma {:induction false} LoopOccurs(st: Stmt, x: VarName, s: nat) returns (k: nat, j: nat)
    requires st.Loop? && SimpleStmt(st) && x in AssignedBy(st)
    ensures var n := StmtNode(st);
            && !n.kind.Variable? && k < Size(n.children) && k != ConditionChild(st.kind)
            && j < |Variables(Child(n.children, k))| && Variables(Child(n.children, k))[j] == x && !x.Ext?
            && Writing(Climb(Child(n.children, k), j, s + ChildStart(n.children, k)))
    decreases st, 0
  {
    hide Variables, Climb, Writing;
    var n := StmtNode(st);
    LoopChildren(st);
    EffectFreeAssigns(st.cond);
    if x in AssignedByAll(st.body) {
      k := BodyChild(st.kind);
      j := AssignedByAllOccurs(BranchNode(st.body), st.body, 0, x, s + ChildStart(n.children, k));
    } else if st.kind.For? && x in AssignedByAll(st.kind.init) {
      k := 0;
      j := AssignedByAllOccurs(BranchNode(st.kind.init), st.kind.init, 0, x, s + ChildStart(n.children, k));
    } else {
      k := 2;
      j := AssignedOccurs(st.kind.iteration.value, x, s + ChildStart(n.children, k));
    }
  }

  lemma {:induction false} DeclaredOccurs(st: Stmt, x: VarName, s: nat) returns (i: nat)
    requires st.Declare? && SimpleStmt(st) && x in AssignedBy(st)
    ensures var n := StmtNode(st);
            i < |Variables(n)| && Variables(n)[i] == x && !x.Ext? && Writing(Climb(n, i, s))
    decreases st, 0
  {
    hide Variables, Climb, Writing;
    var n := StmtNode(st);
    TwoNodes(Node(Variable(Loc(st.name)), NoNodes), NodeOf(st.initial.value));
    assert n.children == Two(Node(Variable(Loc(st.name)), NoNodes), NodeOf(st.initial.value));
    if x == Loc(st.name) {
      LocalNode(st.name);
      i := FromChild(n, 0, 0, s);
    } else {
      var j := AssignedOccurs(st.initial.value, x, s + ChildStart(n.children, 1));
      i := FromChild(n, 1, j, s);
    }
  }

  lemma LocalNode(name: string)
    ensures Variables(Node(Variable(Loc(name)), NoNodes)) == [Loc(name)]
  {
  }

  lemma {:induction false} AssignedByAllOccurs(n: Node, ss: Stmts, k: nat, x: VarName, s: nat) returns (i: nat)
    requires SimpleStmts(ss) && x in AssignedByAll(ss)
    requires !n.kind.Variable? && k <= Size(n.children) && Drop(n.children, k) == StmtNodes(ss)
    ensures i < |Variables(n)| && Variables(n)[i] == x && !x.Ext? && Writing(Climb(n, i, s))
    decreases ss, 1
  {
    hide Variables, Climb, Writing;
    match ss
    case ConsStmt(st, rest) =>
      DropSize(n.children, k);
      DropChild(n.children, k);
      if x in AssignedBy(st) {
        var j := AssignedByOccurs(st, x, s + ChildStart(n.children, k));
        i := FromChild(n, k, j, s);
      } else {
        i := AssignedByAllOccurs(n, rest, k + 1, x, s);
      }
  }

  // ---------------------------------------------------------------------------------------
  // What a written variable that matters depends on has been found

  /** A written use under child k of a node: what the node contributes has been found. */
  lemma StepFound(q: Question, n: Node, s: nat, up: seq<Link>, k: nat, i: nat, t: nat)
    requires Answered(q) && Placed(q.root, n, s, up) && !n.kind.Variable? && k < Size(n.children)
    requires i < |Variables(Child(n.children, k))| && s + ChildStart(n.children, k) + i < t
    requires var x := Variables(Child(n.children, k))[i]; !x.Ext? && x in Matters(q, t)
    requires Writing(Climb(Child(n.children, k), i, s + ChildStart(n.children, k))) || WritesAt(Link(n, k, s))
    ensures Elements(Contributes(Link(n, k, s), true)) <= q.d
  {
    hide Variables, Climb, Contributes, WritesAt, Elements, Matters, Answered;
    var c := Child(n.children, k);
    var start := s + ChildStart(n.children, k);
    ChildPlaced(q.root, n, s, up, k);
    var inner := Climb(c, i, start);
    var all := inner + ([Link(n, k, s)] + up);
    var w := start + i;
    assert Climb(q.root, w, 0) == all && Variables(q.root)[w] == Variables(c)[i] && w < |Variables(q.root)|;
    UseCounts(q, w, t);
    assert all[|inner|] == Link(n, k, s);
    assert exists j :: 0 <= j <= |inner| && WritesAt(all[j]) by {
      if Writing(inner) {
        var l :| l in inner && WritesAt(l);
        var j :| 0 <= j < |inner| && inner[j] == l;
        assert WritesAt(all[j]);
      } else {
        assert WritesAt(all[|inner|]);
      }
    }
    StepCounts(w, all, false, |inner|);
  }

  /** So the names of the child the step collects matter. */
  lemma CollectedMatters(q: Question, n: Node, s: nat, up: seq<Link>, k: nat)
    requires Placed(q.root, n, s, up) && !n.kind.Variable? && k < Size(n.children)
    requires Elements(Collected(Child(n.children, k), s + ChildStart(n.children, k))) <= q.d
    ensures (set v | v in Variables(Child(n.children, k))) <= Matters(q, s + ChildStart(n.children, k))
  {
    hide Variables, Matters;
    var c := Child(n.children, k);
    var start := s + ChildStart(n.children, k);
    ChildPlaced(q.root, n, s, up, k);
    forall p: nat | start <= p < start + |Variables(c)| ensures p in q.d {
      assert p in Collected(c, start);
    }
    FoundMatter(q, c, start, [Link(n, k, s)] + up);
  }

  /** The condition of a ternary or conditional matters when one of its branches assigns to something that
      matters. */
  lemma ConditionMatters(q: Question, n: Node, s: nat, up: seq<Link>, k: nat, i: nat, t: nat)
    requires Answered(q) && Placed(q.root, n, s, up) && (n.kind.TernaryNode? || n.kind.ConditionalNode?)
    requires 0 < k < Size(n.children)
    requires i < |Variables(Child(n.children, k))| && s + |Variables(n)| <= t
    requires var x := Variables(Child(n.children, k))[i]; !x.Ext? && x in Matters(q, t)
    requires Writing(Climb(Child(n.children, k), i, s + ChildStart(n.children, k)))
    ensures (set v | v in Variables(Child(n.children, 0))) <= Matters(q, s)
  {
    hide Variables, Climb, Matters, Writing, Answered, Placed;
    ChildFits(n.children, k);
    InsideNode(n);
    StepFound(q, n, s, up, k, i, t);
    assert Contributes(Link(n, k, s), true) == Collected(Child(n.children, 0), s + ChildStart(n.children, 0));
    CollectedMatters(q, n, s, up, 0);
  }

  // ---------------------------------------------------------------------------------------
  // The flow of agreement

  function After(e: Expr, s: nat): nat {
    s + |Variables(NodeOf(e))|
  }

  ghost predicate Flows(ns: SlotNames, q: Question, p: nat, a: State, b: State) {
    Agree(ns, Matters(q, p), a.mem, b.mem)
  }

  lemma FlowsOn(ns: SlotNames, q: Question, p: nat, r: nat, a: State, b: State)
    requires Flows(ns, q, p, a, b) && p <= r
    ensures Flows(ns, q, r, a, b)
  {
    hide Agree, Matters;
    MattersLess(q, p, r);
    AgreeLess(ns, Matters(q, p), Matters(q, r), a.mem, b.mem);
  }

  /** Two runs that agree on what matters before an expression agree on what matters after it. */
  lemma {:induction false} ExprFlows(cx: Context, e: Expr, env: Env, ns: SlotNames, q: Question, s: nat, up: seq<Link>,
                                     a: State, b: State)
    requires Simple(e) && Named(env, ns) && PureCalls(cx.ops) && Answered(q)
    requires Placed(q.root, NodeOf(e), s, up) && Flows(ns, q, s, a, b)
    ensures Flows(ns, q, After(e, s), Eval(cx, e, env, a).st, Eval(cx, e, env, b).st)
    decreases e, 2
  {
    hide Named, PureCalls, Answered, Placed, Flows, Variables, Check, BinaryResult, UnaryEach, CastValue, AssignTo,
      Rvalue, CallEffect, Assigned, CastArgs, TypeOfTernary;
    var n := NodeOf(e);
    match e
    case Literal(_, _) => FlowsOn(ns, q, s, After(e, s), a, b);
    case Local(_) => FlowsOn(ns, q, s, After(e, s), a, b);
    case Attribute(_, _) => FlowsOn(ns, q, s, After(e, s), a, b);
    case Component(_, _) =>
    case MatrixEntry(_, _, _) =>
    case Unary(_, x) => OneFlows(cx, e, x, env, ns, q, s, up, a, b);
    case Cast(_, x) => OneFlows(cx, e, x, env, ns, q, s, up, a, b);
    case Binary(_, _, _) =>
      Parts(e);
      BothFlow(cx, e, e.lhs, e.rhs, env, ns, q, s, up, a, b);
    case Logical(_, l, r) =>
      BothFlow(cx, e, l, r, env, ns, q, s, up, a, b);
      LogicalFlows(cx, e, env, ns, q, s, up, a, b);
    case Ternary(_, _, _) => TernaryFlows(cx, e, env, ns, q, s, up, a, b);
    case Comma(es) =>
      CommaFlows(cx, es, env, ns, q, n, 0, s, up, a, b);
      DropSize(n.children, Size(n.children));
      InsideNode(n);
    case Assign(_, _, _) => AssignFlows(cx, e, env, ns, q, s, up, a, b);
    case Crement(_, _, _) => CrementFlows(cx, e, env, ns, q, s, up, a, b);
    case Call(_, _) => CallExprFlows(cx, e, env, ns, q, s, up, a, b);
    case ArrayPack(_) => PackFlows(cx, e, env, ns, q, s, up, a, b);
  }

  lemma {:induction false} PackFlows(cx: Context, e: Expr, env: Env, ns: SlotNames, q: Question, s: nat,
      up: seq<Link>, a: State, b: State)
    requires e.ArrayPack? && Simple(e) && Named(env, ns) && PureCalls(cx.ops) && Answered(q)
    requires Placed(q.root, NodeOf(e), s, up) && Flows(ns, q, s, a, b)
    ensures Flows(ns, q, After(e, s), Eval(cx, e, env, a).st, Eval(cx, e, env, b).st)
    decreases e, 1
  {
    hide Named, PureCalls, Answered, Placed, Flows, Variables, Check, CheckArgs, ConvertEach;
    var n := NodeOf(e);
    ArgsFlow(cx, e.elements, env, ns, q, n, 0, s, up, a, b);
    DropSize(n.children, Size(n.children));
    InsideNode(n);
  }

  lemma {:induction false} CallExprFlows(cx: Context, e: Expr, env: Env, ns: SlotNames, q: Question, s: nat,
      up: seq<Link>, a: State, b: State)
    requires e.Call? && Simple(e) && Named(env, ns) && PureCalls(cx.ops) && Answered(q)
    requires Placed(q.root, NodeOf(e), s, up) && Flows(ns, q, s, a, b)
    ensures Flows(ns, q, After(e, s), Eval(cx, e, env, a).st, Eval(cx, e, env, b).st)
    decreases e, 1
  {
    hide Named, PureCalls, Answered, Placed, Flows, Variables, Eval;
    var n := NodeOf(e);
    ArgsFlow(cx, e.args, env, ns, q, n, 0, s, up, a, b);
    DropSize(n.children, Size(n.children));
    InsideNode(n);
    CallFlows(cx, e, env, ns, q, After(e, s), a, b);
  }

  /** A pure call changes nothing that its arguments have not changed. */
  lemma CallFlows(cx: Context, e: Expr, env: Env, ns: SlotNames, q: Question, p: nat, a: State, b: State)
    requires e.Call? && PureCalls(cx.ops)
    requires Flows(ns, q, p, EvalArgs(cx, e.args, env, a).st, EvalArgs(cx, e.args, env, b).st)
    ensures Flows(ns, q, p, Eval(cx, e, env, a).st, Eval(cx, e, env, b).st)
  {
    hide PureCalls, Flows, Eval, SameSlot;
    forall slot: nat
      ensures SameSlot(EvalArgs(cx, e.args, env, a).st.mem, Eval(cx, e, env, a).st.mem, slot)
      ensures SameSlot(EvalArgs(cx, e.args, env, b).st.mem, Eval(cx, e, env, b).st.mem, slot)
    {
      CallKeeps(cx, e, env, a, slot);
      CallKeeps(cx, e, env, b, slot);
    }
    KeptFlows(ns, q, p, EvalArgs(cx, e.args, env, a).st, EvalArgs(cx, e.args, env, b).st, Eval(cx, e, env, a).st,
              Eval(cx, e, env, b).st);
  }

  /** One operand. */
  lemma {:induction false} OneFlows(cx: Context, e: Expr, x: Expr, env: Env, ns: SlotNames, q: Question, s: nat,
                                    up: seq<Link>, a: State, b: State)
    requires x < e && Simple(x) && Named(env, ns) && PureCalls(cx.ops) && Answered(q)
    requires var n := NodeOf(e); !n.kind.Variable? && n.children == One(NodeOf(x)) && Placed(q.root, n, s, up)
    requires Flows(ns, q, s, a, b)
    ensures Flows(ns, q, After(e, s), Eval(cx, x, env, a).st, Eval(cx, x, env, b).st)
    decreases e, 0
  {
    hide Named, PureCalls, Answered, Placed, Flows, Variables, Eval;
    InsideNode(NodeOf(e));
    VariablesOfOne(NodeOf(x));
    ChildPlaced(q.root, NodeOf(e), s, up, 0);
    ExprFlows(cx, x, env, ns, q, s, [Link(NodeOf(e), 0, s)] + up, a, b);
  }

  /** Two operands in a row. */
  lemma {:induction false} BothFlow(cx: Context, e: Expr, l: Expr, r: Expr, env: Env, ns: SlotNames, q: Question,
      s: nat, up: seq<Link>, a: State, b: State)
    requires l < e && r < e && Simple(l) && Simple(r) && Named(env, ns) && PureCalls(cx.ops) && Answered(q)
    requires var n := NodeOf(e);
             !n.kind.Variable? && n.children == Two(NodeOf(l), NodeOf(r)) && Placed(q.root, n, s, up)
    requires Flows(ns, q, s, a, b)
    ensures var x, y := Eval(cx, l, env, a).st, Eval(cx, l, env, b).st;
            && Flows(ns, q, After(l, s), x, y)
            && Flows(ns, q, After(r, After(l, s)), Eval(cx, r, env, x).st, Eval(cx, r, env, y).st)
    decreases e, 0
  {
    hide Named, PureCalls, Answered, Placed, Flows, Variables, Eval;
    var n := NodeOf(e);
    DropChild(n.children, 0);
    ChildPlaced(q.root, n, s, up, 0);
    ChildPlaced(q.root, n, s, up, 1);
    ExprFlows(cx, l, env, ns, q, s, [Link(n, 0, s)] + up, a, b);
    ExprFlows(cx, r, env, ns, q, After(l, s), [Link(n, 1, s)] + up, Eval(cx, l, env, a).st, Eval(cx, l, env, b).st);
  }

  /** Two memories that were the same on what matters still are when neither run has changed it. */
  lemma KeptFlows(ns: SlotNames, q: Question, p: nat, a: State, b: State, c: State, d: State)
    requires Flows(ns, q, p, a, b)
    requires forall slot: nat | slot >= |ns| || ns[slot] in Matters(q, p) ::
      SameSlot(a.mem, c.mem, slot) && SameSlot(b.mem, d.mem, slot)
    ensures Flows(ns, q, p, c, d)
  {
    hide Matters;
    forall slot: nat, cell: int | slot >= |ns| || ns[slot] in Matters(q, p)
      ensures Get(c.mem, Address(slot, cell)) == Get(d.mem, Address(slot, cell))
    {
      assert SameSlot(a.mem, c.mem, slot) && SameSlot(b.mem, d.mem, slot);
      assert Get(a.mem, Address(slot, cell)) == Get(b.mem, Address(slot, cell));
    }
  }

  /** Whether the right operand runs does not matter, for it has no effects. */
  lemma {:induction false} LogicalFlows(cx: Context, e: Expr, env: Env, ns: SlotNames, q: Question, s: nat,
      up: seq<Link>, a: State, b: State)
    requires e.Logical? && Simple(e) && Named(env, ns) && PureCalls(cx.ops)
    requires Flows(ns, q, After(e.first, s), Eval(cx, e.first, env, a).st, Eval(cx, e.first, env, b).st)
    ensures Flows(ns, q, After(e, s), Eval(cx, e, env, a).st, Eval(cx, e, env, b).st)
  {
    hide Named, Flows, Variables, SameSlot, Check, PureCalls;
    Parts(e);
    var x, y := Eval(cx, e.first, env, a).st, Eval(cx, e.first, env, b).st;
    var c, d := Eval(cx, e, env, a).st, Eval(cx, e, env, b).st;
    EffectFreeAssigns(e.second);
    FlowsOn(ns, q, After(e.first, s), After(e, s), x, y);
    forall slot: nat ensures SameSlot(x.mem, c.mem, slot) && SameSlot(y.mem, d.mem, slot) {
      SameAlways(slot);
      EvalKeeps(cx, e.second, env, ns, x, slot);
      EvalKeeps(cx, e.second, env, ns, y, slot);
    }
    KeptFlows(ns, q, After(e, s), x, y, c, d);
  }

  lemma {:induction false} CommaFlows(cx: Context, es: Exprs, env: Env, ns: SlotNames, q: Question, n: Node, k: nat,
      s: nat, up: seq<Link>, a: State, b: State)
    requires AllSimple(es) && Named(env, ns) && PureCalls(cx.ops) && Answered(q)
    requires !n.kind.Variable? && k <= Size(n.children) && Drop(n.children, k) == NodesOf(es) &&
      Placed(q.root, n, s, up)
    requires Flows(ns, q, s + ChildStart(n.children, k), a, b)
    ensures Flows(ns, q, s + ChildStart(n.children, Size(n.children)),
                  EvalComma(cx, es, env, a).st, EvalComma(cx, es, env, b).st)
    decreases es, 1
  {
    hide Named, PureCalls, Answered, Placed, Flows, Variables, Eval;
    DropSize(n.children, k);
    match es
    case NoExprs =>
    case ConsExpr(e, rest) =>
      DropChild(n.children, k);
      ChildPlaced(q.root, n, s, up, k);
      ExprFlows(cx, e, env, ns, q, s + ChildStart(n.children, k), [Link(n, k, s)] + up, a, b);
      var x, y := Eval(cx, e, env, a).st, Eval(cx, e, env, b).st;
      CommaFlows(cx, rest, env, ns, q, n, k + 1, s, up, x, y);
      DropSize(n.children, k + 1);
  }

  lemma {:induction false} ArgsFlow(cx: Context, es: Exprs, env: Env, ns: SlotNames, q: Question, n: Node, k: nat,
      s: nat, up: seq<Link>, a: State, b: State)
    requires AllSimple(es) && Named(env, ns) && PureCalls(cx.ops) && Answered(q)
    requires !n.kind.Variable? && k <= Size(n.children) && Drop(n.children, k) == NodesOf(es) &&
      Placed(q.root, n, s, up)
    requires Flows(ns, q, s + ChildStart(n.children, k), a, b)
    ensures Flows(ns, q, s + ChildStart(n.children, Size(n.children)),
                  EvalArgs(cx, es, env, a).st, EvalArgs(cx, es, env, b).st)
    decreases es, 1
  {
    hide Named, PureCalls, Answered, Placed, Variables, Eval, Matters, Agree;
    DropSize(n.children, k);
    match es
    case NoExprs =>
    case ConsExpr(e, rest) =>
      DropChild(n.children, k);
      ChildPlaced(q.root, n, s, up, k);
      ExprFlows(cx, e, env, ns, q, s + ChildStart(n.children, k), [Link(n, k, s)] + up, a, b);
      var x, y := Eval(cx, e, env, a).st, Eval(cx, e, env, b).st;
      ArgsFlow(cx, rest, env, ns, q, n, k + 1, s, up, x, y);
      DropSize(n.children, k + 1);
  }

  lemma {:induction false} CrementFlows(cx: Context, e: Expr, env: Env, ns: SlotNames, q: Question, s: nat,
      up: seq<Link>, a: State, b: State)
    requires e.Crement? && Simple(e) && Named(env, ns) && Flows(ns, q, s, a, b)
    ensures Flows(ns, q, After(e, s), Eval(cx, e, env, a).st, Eval(cx, e, env, b).st)
  {
    hide Named, Matters, Check, Agree;
    Parts(e);
    FlowsOn(ns, q, s, After(e, s), a, b);
    var m := Matters(q, After(e, s));
    PlainAlike(cx, e.variable, env, ns, m, a, b);
    PlainSlot(cx, e.variable, env, ns, a);
    var v := Eval(cx, e.variable, env, a).v;
    var ty := TyOf(cx.functions, e.variable, env);
    var step := Convert(cx.ops, Int32, ty, if e.increment then 1 else -1);
    if v.Ptr? && ns[v.a.slot] !in m {
      WriteOutside(ns, m, a, b, v, cx.ops.bin(Plus, ty, Read(a, v), step), v, cx.ops.bin(Plus, ty, Read(b, v), step));
    } else {
      ReadAlike(ns, m, a, b, v);
      WriteAlike(ns, m, a, b, v, cx.ops.bin(Plus, ty, Read(a, v), step));
    }
  }

  lemma {:induction false} AssignFlows(cx: Context, e: Expr, env: Env, ns: SlotNames, q: Question, s: nat,
      up: seq<Link>, a: State, b: State)
    requires e.Assign? && Simple(e) && Named(env, ns) && PureCalls(cx.ops) && Answered(q)
    requires Placed(q.root, NodeOf(e), s, up) && Flows(ns, q, s, a, b)
    ensures Flows(ns, q, After(e, s), Eval(cx, e, env, a).st, Eval(cx, e, env, b).st)
    decreases e, 1
  {
    hide Named, PureCalls, Answered, Placed, Matters, Variables, Check, Agree, BinaryResult, AssignTo, Rvalue,
      CompoundType, Readable;
    Parts(e);
    PlainVariables(e.target);
    var t := After(e, s);
    var m := Matters(q, t);
    PlainAlike(cx, e.target, env, ns, m, a, b) by { FlowsOn(ns, q, s, t, a, b); }
    PlainSlot(cx, e.target, env, ns, a);
    BothFlow(cx, e, e.target, e.source, env, ns, q, s, up, a, b);
    var v := Eval(cx, e.target, env, a).v;
    var x, y := Eval(cx, e.source, env, a), Eval(cx, e.source, env, b);
    var i, j := SourceValue(cx, e, env, x.st, v, x.v), SourceValue(cx, e, env, y.st, v, y.v);
    var lt, rt := TyOf(cx.functions, e.target, env), TyOf(cx.functions, e.source, env);
    var from := SourceType(cx, e, env);
    if v.Ptr? && PlainName(e.target) in m {
      var now := Matters(q, s + 1);
      SourceMatters(q, e, s, up);
      MattersLess(q, s + 1, t);
      FlowsOn(ns, q, s, s + 1, a, b);
      EvalAlike(cx, e.source, env, ns, now, a, b);
      RvalueAlike(ns, now, x.st, y.st, x.v, rt);
      assert Readable(v, ns, now) by { NamedReadable(v, ns, now); }
      NumReadable(ns, now);
      if e.compound.Some? { BinaryAlike(cx.ops, e.compound.value, lt, v, rt, x.v, ns, now, x.st, y.st); }
      AssignToAlike(cx.ops, ns, now, x.st, y.st, v, lt, i, from);
      AgreeLess(ns, now, m, AssignTo(cx.ops, x.st, v, lt, i, from).mem, AssignTo(cx.ops, y.st, v, lt, j, from).mem);
    } else {
      AssignToOutside(cx.ops, ns, m, x.st, y.st, v, lt, i, j, from);
    }
  }

  lemma NamedReadable(v: Value, ns: SlotNames, s: set<VarName>)
    requires v.Ptr? ==> v.a.slot < |ns| && ns[v.a.slot] in s
    ensures Readable(v, ns, s)
  {
  }

  /** The source of an assignment to something that matters later matters now. */
  lemma SourceMatters(q: Question, e: Expr, s: nat, up: seq<Link>)
    requires e.Assign? && IsPlain(e.target) && Answered(q) && Placed(q.root, NodeOf(e), s, up)
    requires PlainName(e.target) in Matters(q, After(e, s))
    ensures Names(e.source) <= Matters(q, s + 1)
  {
    hide Answered, Placed, Matters, Variables;
    var n := NodeOf(e);
    Parts(e);
    PlainVariables(e.target);
    DropChild(n.children, 0);
    StepFound(q, n, s, up, 0, 0, After(e, s));
    assert Contributes(Link(n, 0, s), true) == Collected(Child(n.children, 1), s + ChildStart(n.children, 1));
    CollectedMatters(q, n, s, up, 1);
  }

  /** The state after the branch of a ternary that is chosen. */
  function BranchState(cx: Context, e: Expr, env: Env, r: Result, isTrue: bool): State
    requires e.Ternary?
  {
    var x := Check(cx.functions, if e.onTrue.Some? then e.onTrue.value else e.cond, env);
    var y := Check(cx.functions, e.onFalse, env);
    if !x.Typed? || !y.Typed? then r.st
    else if !isTrue then Eval(cx, e.onFalse, env, r.st).st
    else if e.onTrue.Some? then Eval(cx, e.onTrue.value, env, r.st).st
    else r.st
  }

  predicate Chooses(cx: Context, e: Expr, env: Env, r: Result)
    requires e.Ternary?
  {
    cx.ops.truth(TyOf(cx.functions, e.cond, env), Read(r.st, r.v))
  }

  lemma TernaryState(cx: Context, e: Expr, env: Env, st: State)
    requires e.Ternary?
    ensures var r := Eval(cx, e.cond, env, st);
            Eval(cx, e, env, st).st == BranchState(cx, e, env, r, Chooses(cx, e, env, r))
  {
    hide Check, TypeOfTernary;
  }

  /** A ternary: when its two runs take different branches, neither branch assigns to anything that
      matters. */
  lemma {:induction false} TernaryFlows(cx: Context, e: Expr, env: Env, ns: SlotNames, q: Question, s: nat,
      up: seq<Link>, a: State, b: State)
    requires e.Ternary? && Simple(e) && Named(env, ns) && PureCalls(cx.ops) && Answered(q)
    requires Placed(q.root, NodeOf(e), s, up) && Flows(ns, q, s, a, b)
    ensures Flows(ns, q, After(e, s), Eval(cx, e, env, a).st, Eval(cx, e, env, b).st)
    decreases e, 1
  {
    hide Named, PureCalls, Answered, Placed, Flows, Variables, Eval, Check, Chooses;
    TernaryState(cx, e, env, a);
    TernaryState(cx, e, env, b);
    Parts(e);
    TernaryChildren(e);
    var n := NodeOf(e);
    var t := After(e, s);
    var last := Size(n.children) - 1;
    ChildPlaced(q.root, n, s, up, 0);
    ChildPlaced(q.root, n, s, up, 1);
    ChildPlaced(q.root, n, s, up, last);
    ExprFlows(cx, e.cond, env, ns, q, s, [Link(n, 0, s)] + up, a, b);
    var x, y := Eval(cx, e.cond, env, a), Eval(cx, e.cond, env, b);
    var s1 := After(e.cond, s);
    var s2 := s + ChildStart(n.children, last);
    FlowsOn(ns, q, s1, s2, x.st, y.st);
    FlowsOn(ns, q, s1, t, x.st, y.st);
    if Chooses(cx, e, env, x) != Chooses(cx, e, env, y) {
      BranchesKeep(cx, e, env, ns, q, s, up, a, b);
    } else if !Chooses(cx, e, env, x) {
      ExprFlows(cx, e.onFalse, env, ns, q, s2, [Link(n, last, s)] + up, x.st, y.st);
    } else if e.onTrue.Some? {
      ExprFlows(cx, e.onTrue.value, env, ns, q, s1, [Link(n, 1, s)] + up, x.st, y.st);
      FlowsOn(ns, q, s2, t, Eval(cx, e.onTrue.value, env, x.st).st, Eval(cx, e.onTrue.value, env, y.st).st);
    }
  }

  /** Runs that differ in the condition: it does not matter, so the branches do not either. */
  lemma BranchesKeep(cx: Context, e: Expr, env: Env, ns: SlotNames, q: Question, s: nat, up: seq<Link>, a: State,
      b: State)
    requires e.Ternary? && Simple(e) && Named(env, ns) && PureCalls(cx.ops) && Answered(q)
    requires Placed(q.root, NodeOf(e), s, up) && Flows(ns, q, s, a, b)
    requires var x, y := Eval(cx, e.cond, env, a), Eval(cx, e.cond, env, b);
             Flows(ns, q, After(e, s), x.st, y.st) && Chooses(cx, e, env, x) != Chooses(cx, e, env, y)
    ensures var x, y := Eval(cx, e.cond, env, a), Eval(cx, e.cond, env, b);
            forall i, j :: Flows(ns, q, After(e, s), BranchState(cx, e, env, x, i), BranchState(cx, e, env, y, j))
  {
    hide Named, PureCalls, Answered, Placed, Flows, Variables, Eval, Check, Matters, Assigned, SameSlot;
    var x, y := Eval(cx, e.cond, env, a), Eval(cx, e.cond, env, b);
    var t := After(e, s);
    forall slot: nat | slot >= |ns| || ns[slot] in Matters(q, t)
      ensures Outside(ns, slot, Assigned(e.onFalse)) && (e.onTrue.Some? ==> Outside(ns, slot, Assigned(e.onTrue.value)))
    {
      if slot < |ns| { NotAssigned(cx, e, env, ns, q, s, up, a, b, ns[slot]); }
    }
    forall i, j ensures Flows(ns, q, t, BranchState(cx, e, env, x, i), BranchState(cx, e, env, y, j)) {
      forall slot: nat | slot >= |ns| || ns[slot] in Matters(q, t)
        ensures SameSlot(x.st.mem, BranchState(cx, e, env, x, i).mem, slot)
        ensures SameSlot(y.st.mem, BranchState(cx, e, env, y, j).mem, slot)
      {
        SameAlways(slot);
        EvalKeeps(cx, e.onFalse, env, ns, x.st, slot);
        EvalKeeps(cx, e.onFalse, env, ns, y.st, slot);
        if e.onTrue.Some? {
          EvalKeeps(cx, e.onTrue.value, env, ns, x.st, slot);
          EvalKeeps(cx, e.onTrue.value, env, ns, y.st, slot);
        }
      }
      KeptFlows(ns, q, t, x.st, y.st, BranchState(cx, e, env, x, i), BranchState(cx, e, env, y, j));
    }
  }

  lemma NotAssigned(cx: Context, e: Expr, env: Env, ns: SlotNames, q: Question, s: nat, up: seq<Link>, a: State,
      b: State, v: VarName)
    requires e.Ternary? && Simple(e) && Named(env, ns) && PureCalls(cx.ops) && Answered(q)
    requires Placed(q.root, NodeOf(e), s, up) && Flows(ns, q, s, a, b) && v in Matters(q, After(e, s))
    requires Chooses(cx, e, env, Eval(cx, e.cond, env, a)) != Chooses(cx, e, env, Eval(cx, e.cond, env, b))
    ensures v !in Assigned(e.onFalse) && (e.onTrue.Some? ==> v !in Assigned(e.onTrue.value))
  {
    hide Named, PureCalls, Answered, Placed, Variables, Eval, Check, Matters, Assigned, Writing, Climb, Agree,
      NodeOf, Simple;
    SimpleParts(e);
    TernaryChildren(e);
    var n := NodeOf(e);
    KindIsTernary(e);
    var inFalse := v in Assigned(e.onFalse);
    if inFalse || (e.onTrue.Some? && v in Assigned(e.onTrue.value)) {
      var k := if inFalse then Size(n.children) - 1 else 1;
      var i := AssignedOccurs(if inFalse then e.onFalse else e.onTrue.value, v, s + ChildStart(n.children, k));
      ConditionMatters(q, n, s, up, k, i, After(e, s));
      EvalAlike(cx, e.cond, env, ns, Matters(q, s), a, b);
      SameReads(ns, Matters(q, s), Eval(cx, e.cond, env, a), Eval(cx, e.cond, env, b));
    }
  }

  lemma SimpleParts(e: Expr)
    requires e.Ternary? && Simple(e)
    ensures Simple(e.cond) && Simple(e.onFalse) && (e.onTrue.Some? ==> Simple(e.onTrue.value))
  {
  }

  lemma KindIsTernary(e: Expr)
    requires e.Ternary?
    ensures NodeOf(e).kind.TernaryNode?
  {
  }

  // ---------------------------------------------------------------------------------------
  // Statements

  function AfterStmt(st: Stmt, s: nat): nat {
    s + |Variables(StmtNode(st))|
  }

  ghost predicate Ready(cx: Context, env: Env, ns: SlotNames, names: SlotNames, q: Question) {
    && |env.scopes| > 0 && Named(env, ns) && NamesAt(ns, env.slots, names) && PureCalls(cx.ops) && Answered(q)
  }

  /** Agreement after two runs that both end normally. */
  ghost predicate FlowsOut(ns: SlotNames, q: Question, p: nat, x: Outcome, y: Outcome) {
    x.Normal? && y.Normal? ==> Flows(ns, q, p, x.st, y.st)
  }

  /** Loops need a steady answer. */
  lemma {:induction false} StmtFlows(cx: Context, st: Stmt, env: Env, ns: SlotNames, q: Question, s: nat, up: seq<Link>,
                                     a: State, b: State, fuel: nat)
    requires SimpleStmt(st) && Ready(cx, env, ns, Declares(st), q) && (q.steady || LoopFree(st))
    requires Placed(q.root, StmtNode(st), s, up) && Flows(ns, q, s, a, b)
    ensures FlowsOut(ns, q, AfterStmt(st, s), Exec(cx, st, env, a, fuel), Exec(cx, st, env, b, fuel))
    decreases fuel, st, 4
  {
    hide Named, NamesAt, PureCalls, Answered, Placed, Flows, Variables, Eval, Matters, ExecDeclare, AssignTo, IsTrue;
    match st
    case ExprStmt(e) => ExprFlows(cx, e, env, ns, q, s, up, a, b);
    case Declare(_, _, _) => DeclareFlows(cx, st, env, ns, q, s, up, a, b, fuel);
    case Block(_) => BodyFlows(cx, st, env, ns, q, s, up, a, b, fuel);
    case StatementList(_) => BodyFlows(cx, st, env, ns, q, s, up, a, b, fuel);
    case If(_, _, _) => IfFlows(cx, st, env, ns, q, s, up, a, b, fuel);
    case Loop(_, _, _) => LoopFlows(cx, st, env, ns, q, s, up, a, b, fuel);
  }

  lemma {:induction false} BodyFlows(cx: Context, st: Stmt, env: Env, ns: SlotNames, q: Question, s: nat, up: seq<Link>,
                                     a: State, b: State, fuel: nat)
    requires (st.Block? || st.StatementList?) && SimpleStmt(st) && Ready(cx, env, ns, Declares(st), q)
    requires Placed(q.root, StmtNode(st), s, up) && Flows(ns, q, s, a, b) && (q.steady || LoopFree(st))
    ensures FlowsOut(ns, q, AfterStmt(st, s), Exec(cx, st, env, a, fuel), Exec(cx, st, env, b, fuel))
    decreases fuel, st, 3
  {
    hide Named, NamesAt, PureCalls, Answered, Placed, Flows, Variables, Eval, Matters;
    var n := StmtNode(st);
    match st
    case Block(body) =>
      PushNamed(env, ns);
      ListFlows(cx, body, Push(env), ns, q, n, 0, s, up, a, b, fuel);
      DropSize(n.children, Size(n.children));
      InsideNode(n);
    case StatementList(ss) =>
      ListFlows(cx, ss, env, ns, q, n, 0, s, up, a, b, fuel);
      DropSize(n.children, Size(n.children));
      InsideNode(n);
  }

  lemma {:induction false} ListFlows(cx: Context, ss: Stmts, env: Env, ns: SlotNames, q: Question, n: Node, k: nat,
      s: nat, up: seq<Link>, a: State, b: State, fuel: nat)
    requires SimpleStmts(ss) && Ready(cx, env, ns, DeclaresAll(ss), q) && (q.steady || AllLoopFree(ss))
    requires !n.kind.Variable? && k <= Size(n.children) && Drop(n.children, k) == StmtNodes(ss) &&
      Placed(q.root, n, s, up)
    requires Flows(ns, q, s + ChildStart(n.children, k), a, b)
    ensures FlowsOut(ns, q, s + ChildStart(n.children, Size(n.children)), ExecList(cx, ss, env, a, fuel),
                     ExecList(cx, ss, env, b, fuel))
    decreases fuel, ss, 2
  {
    hide Named, NamesAt, PureCalls, Answered, Placed, Flows, Variables, Exec;
    DropSize(n.children, k);
    match ss
    case NoStmts =>
    case ConsStmt(st, rest) =>
      DropChild(n.children, k);
      ChildPlaced(q.root, n, s, up, k);
      NamesSplit(ns, env.slots, Declares(st), DeclaresAll(rest));
      AfterNamed(st, env, ns);
      StmtFlows(cx, st, env, ns, q, s + ChildStart(n.children, k), [Link(n, k, s)] + up, a, b, fuel);
      DropSize(n.children, k + 1);
      var x, y := Exec(cx, st, env, a, fuel), Exec(cx, st, env, b, fuel);
      if x.Normal? && y.Normal? {
        ListFlows(cx, rest, Semantics.After(st, env), ns, q, n, k + 1, s, up, x.st, y.st, fuel);
      }
  }

  /** The initialiser of a variable that matters later matters now. */
  lemma InitialMatters(q: Question, st: Stmt, s: nat, up: seq<Link>)
    requires st.Declare? && st.initial.Some? && Answered(q) && Placed(q.root, StmtNode(st), s, up)
    requires Loc(st.name) in Matters(q, AfterStmt(st, s))
    ensures Names(st.initial.value) <= Matters(q, s + 1)
  {
    hide Answered, Placed, Matters, Variables;
    var n := StmtNode(st);
    LocalNode(st.name);
    DropChild(n.children, 0);
    DropSize(n.children, 2);
    InsideNode(n);
    ChildFits(n.children, 0);
    assert n.children.tail == One(NodeOf(st.initial.value)) && Size(n.children.tail) == 1;
    assert WritesAt(Link(n, 0, s));
    StepFound(q, n, s, up, 0, 0, AfterStmt(st, s));
    assert Contributes(Link(n, 0, s), true) == Collected(Child(n.children, 1), s + ChildStart(n.children, 1));
    CollectedMatters(q, n, s, up, 1);
  }

  lemma {:induction false} DeclareFlows(cx: Context, st: Stmt, env: Env, ns: SlotNames, q: Question, s: nat,
      up: seq<Link>, a: State, b: State, fuel: nat)
    requires st.Declare? && SimpleStmt(st) && Ready(cx, env, ns, Declares(st), q)
    requires Placed(q.root, StmtNode(st), s, up) && Flows(ns, q, s, a, b)
    ensures FlowsOut(ns, q, AfterStmt(st, s), Exec(cx, st, env, a, fuel), Exec(cx, st, env, b, fuel))
    decreases fuel, st, 2
  {
    hide Named, NamesAt, PureCalls, Answered, Placed, Matters, Variables, Eval, Agree, AssignTo, Rvalue, Check,
      Readable;
    var t := AfterStmt(st, s);
    FlowsOn(ns, q, s, t, a, b);
    if st.initial.Some? {
      var n := StmtNode(st);
      var e := st.initial.value;
      var env1 := Declared(env, st.ty, st.name);
      DeclareVariables(st);
      DropChild(n.children, 0);
      LocalNode(st.name);
      ChildPlaced(q.root, n, s, up, 1);
      DeclaredNamed(env, st.ty, st.name, ns);
      NameAt(ns, env.slots, Loc(st.name));
      FlowsOn(ns, q, s, s + 1, a, b);
      ExprFlows(cx, e, env1, ns, q, s + 1, [Link(n, 1, s)] + up, a, b);
      var x, y := Eval(cx, e, env1, a), Eval(cx, e, env1, b);
      var v := Ptr(Address(env.slots, 0));
      var from := TyOf(cx.functions, e, env1);
      var i, j := Rvalue(x.st, x.v, from), Rvalue(y.st, y.v, from);
      if Loc(st.name) in Matters(q, t) {
        var now := Matters(q, s + 1);
        InitialMatters(q, st, s, up);
        MattersLess(q, s + 1, t);
        EvalAlike(cx, e, env1, ns, now, a, b);
        RvalueAlike(ns, now, x.st, y.st, x.v, from);
        AssignToAlike(cx.ops, ns, now, x.st, y.st, v, st.ty, i, from);
        AgreeLess(ns, now, Matters(q, t), AssignTo(cx.ops, x.st, v, st.ty, i, from).mem,
                  AssignTo(cx.ops, y.st, v, st.ty, j, from).mem);
      } else {
        AssignToOutside(cx.ops, ns, Matters(q, t), x.st, y.st, v, st.ty, i, j, from);
      }
    }
  }

  lemma DeclareVariables(st: Stmt)
    requires st.Declare? && st.initial.Some?
    ensures |Variables(StmtNode(st))| == 1 + |Variables(NodeOf(st.initial.value))|
  {
    var n := StmtNode(st);
    LocalNode(st.name);
    VariablesOfOne(NodeOf(st.initial.value));
    InsideNode(n);
    assert VariablesOf(n.children) == Variables(n.children.head) + VariablesOf(n.children.tail);
  }

  /** The state after the branch of a conditional that is chosen. */
  function BranchEnd(cx: Context, st: Stmt, env: Env, r: State, isTrue: bool, fuel: nat): Outcome
    requires st.If?
  {
    if isTrue then ExecList(cx, st.onTrue, Push(env), r, fuel)
    else if st.onFalse.Some? then
      ExecList(cx, st.onFalse.value, Push(env.(slots := AfterList(st.onTrue, Push(env)).slots)), r, fuel)
    else Normal(r)
  }

  lemma IfState(cx: Context, st: Stmt, env: Env, a: State, fuel: nat)
    requires st.If?
    ensures var r := Eval(cx, st.cond, env, a);
            Exec(cx, st, env, a, fuel) == BranchEnd(cx, st, env, r.st, IsTrue(cx, st.cond, env, r), fuel)
  {
  }

  /** The environments of the two branches. */
  lemma BranchesReady(cx: Context, st: Stmt, env: Env, ns: SlotNames, q: Question)
    requires st.If? && SimpleStmt(st) && Ready(cx, env, ns, Declares(st), q)
    ensures Ready(cx, Push(env), ns, DeclaresAll(st.onTrue), q)
    ensures st.onFalse.Some? ==>
              Ready(cx, Push(env.(slots := AfterList(st.onTrue, Push(env)).slots)), ns,
                  DeclaresAll(st.onFalse.value), q)
  {
    hide Named, NamesAt, PureCalls, Answered;
    var rest := if st.onFalse.Some? then DeclaresAll(st.onFalse.value) else [];
    NamesSplit(ns, env.slots, DeclaresAll(st.onTrue), rest);
    PushNamed(env, ns);
    AfterListNamed(st.onTrue, Push(env), ns);
    var env1 := env.(slots := AfterList(st.onTrue, Push(env)).slots);
    NamedScopes(env, env1, ns);
    PushNamed(env1, ns);
  }

  /** Statements in a branch. */
  lemma {:induction false} BranchFlows(cx: Context, ss: Stmts, env: Env, ns: SlotNames, q: Question, s: nat,
      up: seq<Link>, a: State, b: State, fuel: nat)
    requires SimpleStmts(ss) && Ready(cx, env, ns, DeclaresAll(ss), q) && (q.steady || AllLoopFree(ss))
    requires Placed(q.root, BranchNode(ss), s, up) && Flows(ns, q, s, a, b)
    ensures FlowsOut(ns, q, s + |Variables(BranchNode(ss))|, ExecList(cx, ss, env, a, fuel),
                     ExecList(cx, ss, env, b, fuel))
    decreases fuel, ss, 3
  {
    hide Named, NamesAt, PureCalls, Answered, Placed, Flows, Variables, ExecList, Exec, Eval, SimpleStmt,
      ChildStart, StmtNodes;
    var n := BranchNode(ss);
    DropNothing(n.children);
    DropSize(n.children, Size(n.children));
    InsideNode(n);
    ListFlows(cx, ss, env, ns, q, n, 0, s, up, a, b, fuel);
  }

  lemma {:induction false} IfFlows(cx: Context, st: Stmt, env: Env, ns: SlotNames, q: Question, s: nat, up: seq<Link>,
                                   a: State, b: State, fuel: nat)
    requires st.If? && SimpleStmt(st) && Ready(cx, env, ns, Declares(st), q) && (q.steady || LoopFree(st))
    requires Placed(q.root, StmtNode(st), s, up) && Flows(ns, q, s, a, b)
    ensures FlowsOut(ns, q, AfterStmt(st, s), Exec(cx, st, env, a, fuel), Exec(cx, st, env, b, fuel))
    decreases fuel, st, 3
  {
    hide Named, NamesAt, PureCalls, Answered, Placed, Flows, Variables, Eval, IsTrue, ExecList, AfterList;
    var n := StmtNode(st);
    var t := AfterStmt(st, s);
    IfState(cx, st, env, a, fuel);
    IfState(cx, st, env, b, fuel);
    IfChildren(st);
    DropSize(n.children, Size(n.children));
    InsideNode(n);
    BranchesReady(cx, st, env, ns, q);
    ChildPlaced(q.root, n, s, up, 0);
    ChildPlaced(q.root, n, s, up, 1);
    ExprFlows(cx, st.cond, env, ns, q, s, [Link(n, 0, s)] + up, a, b);
    var x, y := Eval(cx, st.cond, env, a), Eval(cx, st.cond, env, b);
    var s1, s2 := s + ChildStart(n.children, 1), s + ChildStart(n.children, Size(n.children) - 1);
    LastChild(n.children);
    var i, j := IsTrue(cx, st.cond, env, x), IsTrue(cx, st.cond, env, y);
    FlowsOn(ns, q, s1, s2, x.st, y.st);
    FlowsOn(ns, q, s1, t, x.st, y.st);
    if i != j {
      IfKeeps(cx, st, env, ns, q, s, up, a, b, i, j, fuel);
    } else if i {
      BranchFlows(cx, st.onTrue, Push(env), ns, q, s1, [Link(n, 1, s)] + up, x.st, y.st, fuel);
      var c, d := BranchEnd(cx, st, env, x.st, true, fuel), BranchEnd(cx, st, env, y.st, true, fuel);
      if c.Normal? && d.Normal? { FlowsOn(ns, q, s1 + |Variables(BranchNode(st.onTrue))|, t, c.st, d.st); }
    } else if st.onFalse.Some? {
      ChildPlaced(q.root, n, s, up, 2);
      BranchFlows(cx, st.onFalse.value, Push(env.(slots := AfterList(st.onTrue, Push(env)).slots)), ns, q, s2,
                  [Link(n, 2, s)] + up, x.st, y.st, fuel);
    }
  }

  /** The last child ends where its parent ends. */
  lemma {:induction false} LastChild(ns: Nodes)
    requires Size(ns) > 0
    ensures ChildStart(ns, Size(ns) - 1) + |Variables(Child(ns, Size(ns) - 1))| == |VariablesOf(ns)|
  {
    if Size(ns) > 1 { LastChild(ns.tail); }
  }

  lemma {:induction false} IfKeeps(cx: Context, st: Stmt, env: Env, ns: SlotNames, q: Question, s: nat, up: seq<Link>,
                                   a: State, b: State, i: bool, j: bool, fuel: nat)
    requires st.If? && SimpleStmt(st) && Ready(cx, env, ns, Declares(st), q)
    requires Placed(q.root, StmtNode(st), s, up) && Flows(ns, q, s, a, b)
    requires var x, y := Eval(cx, st.cond, env, a), Eval(cx, st.cond, env, b);
             Flows(ns, q, AfterStmt(st, s), x.st, y.st) && IsTrue(cx, st.cond, env, x) != IsTrue(cx, st.cond, env, y)
    ensures var x, y := Eval(cx, st.cond, env, a), Eval(cx, st.cond, env, b);
            FlowsOut(ns, q, AfterStmt(st, s), BranchEnd(cx, st, env, x.st, i, fuel),
                     BranchEnd(cx, st, env, y.st, j, fuel))
  {
    hide Named, NamesAt, PureCalls, Answered, Placed, Flows, Variables, Eval, IsTrue, Matters, AssignedByAll,
      SameSlot, AfterList, ExecList;
    var x, y := Eval(cx, st.cond, env, a), Eval(cx, st.cond, env, b);
    var t := AfterStmt(st, s);
    forall slot: nat | slot >= |ns| || ns[slot] in Matters(q, t)
      ensures Outside(ns, slot, AssignedByAll(st.onTrue))
      ensures st.onFalse.Some? ==> Outside(ns, slot, AssignedByAll(st.onFalse.value))
    {
      if slot < |ns| { NotAssignedBy(cx, st, env, ns, q, s, up, a, b, ns[slot]); }
    }
    BranchesReady(cx, st, env, ns, q);
    var c, d := BranchEnd(cx, st, env, x.st, i, fuel), BranchEnd(cx, st, env, y.st, j, fuel);
    if c.Normal? && d.Normal? {
      forall slot: nat | slot >= |ns| || ns[slot] in Matters(q, t)
        ensures SameSlot(x.st.mem, c.st.mem, slot) && SameSlot(y.st.mem, d.st.mem, slot)
      {
        BranchKeeps(cx, st, env, ns, q, x.st, i, fuel, slot);
        BranchKeeps(cx, st, env, ns, q, y.st, j, fuel, slot);
      }
      KeptFlows(ns, q, t, x.st, y.st, c.st, d.st);
    }
  }

  predicate OutsideBoth(ns: SlotNames, slot: nat, st: Stmt)
    requires st.If?
  {
    && Outside(ns, slot, AssignedByAll(st.onTrue))
    && (st.onFalse.Some? ==> Outside(ns, slot, AssignedByAll(st.onFalse.value)))
  }

  lemma BranchKeeps(cx: Context, st: Stmt, env: Env, ns: SlotNames, q: Question, r: State, isTrue: bool, fuel: nat,
      slot: nat)
    requires st.If? && SimpleStmt(st) && Ready(cx, env, ns, Declares(st), q)
    ensures var c := BranchEnd(cx, st, env, r, isTrue, fuel);
            c.Normal? && OutsideBoth(ns, slot, st) ==> SameSlot(r.mem, c.st.mem, slot)
  {
    hide Named, NamesAt, PureCalls, Answered, SameSlot, AssignedByAll, AfterList, ExecList;
    SameAlways(slot);
    BranchesReady(cx, st, env, ns, q);
    ListKeeps(cx, st.onTrue, Push(env), ns, r, fuel, slot);
    if st.onFalse.Some? {
      ListKeeps(cx, st.onFalse.value, Push(env.(slots := AfterList(st.onTrue, Push(env)).slots)), ns, r, fuel, slot);
    }
  }

  lemma NotAssignedBy(cx: Context, st: Stmt, env: Env, ns: SlotNames, q: Question, s: nat, up: seq<Link>, a: State,
      b: State, v: VarName)
    requires st.If? && SimpleStmt(st) && Ready(cx, env, ns, Declares(st), q)
    requires Placed(q.root, StmtNode(st), s, up) && Flows(ns, q, s, a, b) && v in Matters(q, AfterStmt(st, s))
    requires IsTrue(cx, st.cond, env, Eval(cx, st.cond, env, a)) != IsTrue(cx, st.cond, env, Eval(cx, st.cond, env, b))
    ensures v !in AssignedByAll(st.onTrue) && (st.onFalse.Some? ==> v !in AssignedByAll(st.onFalse.value))
  {
    hide Named, NamesAt, PureCalls, Answered, Placed, Variables, Eval, Check, Matters, AssignedByAll, Writing,
      Climb, Agree;
    IfChildren(st);
    var n := StmtNode(st);
    var inTrue := v in AssignedByAll(st.onTrue);
    if inTrue || (st.onFalse.Some? && v in AssignedByAll(st.onFalse.value)) {
      var k := if inTrue then 1 else 2;
      var part := if inTrue then st.onTrue else st.onFalse.value;
      var i := AssignedByAllOccurs(BranchNode(part), part, 0, v, s + ChildStart(n.children, k));
      ConditionMatters(q, n, s, up, k, i, AfterStmt(st, s));
      EvalAlike(cx, st.cond, env, ns, Matters(q, s), a, b);
      SameReads(ns, Matters(q, s), Eval(cx, st.cond, env, a), Eval(cx, st.cond, env, b));
    }
  }

  // ---------------------------------------------------------------------------------------
  // Loops

  /** With a steady answer the same variables matter everywhere. */
  lemma FlowsAnywhere(ns: SlotNames, q: Question, p: nat, r: nat, a: State, b: State)
    requires q.steady && Flows(ns, q, p, a, b)
    ensures Flows(ns, q, r, a, b)
  {
    assert Matters(q, p) == Matters(q, r);
  }

  /** The names that decide whether a loop goes on: of a comma expression, those of its last element. */
  function DecidingNames(c: Expr): set<VarName> {
    if c.Comma? then LastNames(c.exprs) else Names(c)
  }

  function LastNames(es: Exprs): set<VarName> {
    match es
    case NoExprs => {}
    case ConsExpr(e, rest) => if rest.NoExprs? then Names(e) else LastNames(rest)
  }

  lemma {:induction false} LastNamesAre(es: Exprs)
    ensures Size(NodesOf(es)) == Length(es)
    ensures es.ConsExpr? ==>
              forall v :: v in LastNames(es) <==> v in Variables(Child(NodesOf(es), Length(es) - 1))
  {
    if es.ConsExpr? { LastNamesAre(es.tail); }
  }

  lemma NoLastNames(es: Exprs)
    requires es.NoExprs?
    ensures LastNames(es) == {}
  {
  }

  lemma CommaIsNode(e: Expr)
    ensures NodeOf(e).kind.CommaNode? <==> e.Comma?
    ensures e.Comma? ==> NodeOf(e).children == NodesOf(e.exprs)
  {
  }

  /** What a loop contributes to a written use outside its condition. */
  lemma LoopContributes(st: Stmt, k: nat, s: nat)
    requires st.Loop? && k != ConditionChild(st.kind)
    ensures var n := StmtNode(st);
            var c := ConditionChild(st.kind);
            && c < Size(n.children)
            && (!st.cond.Comma? ==>
                  Contributes(Link(n, k, s), true) == Collected(NodeOf(st.cond), s + ChildStart(n.children, c)))
            && (st.cond.Comma? && Length(st.cond.exprs) > 0 ==>
                  var ms := NodesOf(st.cond.exprs);
                  var last := Length(st.cond.exprs) - 1;
                  && Size(ms) == last + 1
                  && Contributes(Link(n, k, s), true) ==
                     Collected(Child(ms, last), s + ChildStart(n.children, c) + ChildStart(ms, last)))
  {
    hide Collected, Variables, NodeOf;
    LoopChildren(st);
    CommaIsNode(st.cond);
    if st.cond.Comma? { LastNamesAre(st.cond.exprs); }
  }

  /** When a loop assigns to something that matters, the variables its condition is decided by matter. */
  lemma DecidingMatter(q: Question, st: Stmt, s: nat, up: seq<Link>, p: nat, v: VarName)
    requires q.steady && Answered(q) && Placed(q.root, StmtNode(st), s, up)
    requires st.Loop? && SimpleStmt(st) && v in AssignedBy(st) && v in Matters(q, p)
    ensures DecidingNames(st.cond) <= Matters(q, s)
  {
    hide Variables, Climb, Answered, Placed, Writing, Contributes, NodeOf, AssignedBy, SimpleStmt, LastNames;
    var n := StmtNode(st);
    var k, j := LoopOccurs(st, v, s);
    LoopChildren(st);
    var far := s + ChildStart(n.children, k) + j + 1;
    assert Matters(q, p) == Matters(q, far);
    StepFound(q, n, s, up, k, j, far);
    LoopContributes(st, k, s);
    var c := ConditionChild(st.kind);
    if st.cond.Comma? {
      CommaIsNode(st.cond);
      LastNamesAre(st.cond.exprs);
      if st.cond.exprs.ConsExpr? {
        ChildPlaced(q.root, n, s, up, c);
        var m := Child(n.children, c);
        var start := s + ChildStart(n.children, c);
        var last := Size(m.children) - 1;
        CollectedMatters(q, m, start, [Link(n, c, s)] + up, last);
        assert Matters(q, start + ChildStart(m.children, last)) == Matters(q, s);
      } else {
        NoLastNames(st.cond.exprs);
      }
    } else {
      CollectedMatters(q, n, s, up, c);
      assert Matters(q, s + ChildStart(n.children, c)) == Matters(q, s);
    }
  }

  /** An expression without effects changes no memory. */
  lemma EffectFreeKeeps(cx: Context, e: Expr, env: Env, ns: SlotNames, m: set<VarName>, a: State, b: State)
    requires Simple(e) && EffectFree(e) && Named(env, ns) && PureCalls(cx.ops) && Agree(ns, m, a.mem, b.mem)
    ensures Agree(ns, m, Eval(cx, e, env, a).st.mem, Eval(cx, e, env, b).st.mem)
  {
    hide Named, PureCalls, Eval;
    EffectFreeAssigns(e);
    forall slot: nat, cell: int | slot >= |ns| || ns[slot] in m
      ensures Get(Eval(cx, e, env, a).st.mem, Address(slot, cell)) ==
              Get(Eval(cx, e, env, b).st.mem, Address(slot, cell))
    {
      EvalKeeps(cx, e, env, ns, a, slot);
      EvalKeeps(cx, e, env, ns, b, slot);
      assert Get(a.mem, Address(slot, cell)) == Get(b.mem, Address(slot, cell));
    }
  }

  /** The value of a comma expression without effects is decided by its last element. */
  lemma {:induction false} LastAlike(cx: Context, es: Exprs, env: Env, ns: SlotNames, m: set<VarName>, a: State,
      b: State)
    requires AllSimple(es) && AllEffectFree(es) && Named(env, ns) && PureCalls(cx.ops)
    requires LastNames(es) <= m && Agree(ns, m, a.mem, b.mem)
    ensures Alike(ns, m, EvalComma(cx, es, env, a), EvalComma(cx, es, env, b))
    decreases es
  {
    hide Named, PureCalls, Eval, Agree, Names, Readable;
    match es
    case NoExprs => NumReadable(ns, m);
    case ConsExpr(e, rest) =>
      if rest.NoExprs? {
        EvalAlike(cx, e, env, ns, m, a, b);
      } else {
        EffectFreeKeeps(cx, e, env, ns, m, a, b);
        LastAlike(cx, rest, env, ns, m, Eval(cx, e, env, a).st, Eval(cx, e, env, b).st);
      }
  }

  lemma ConditionAlike(cx: Context, c: Expr, env: Env, ns: SlotNames, m: set<VarName>, a: State, b: State)
    requires Simple(c) && EffectFree(c) && Named(env, ns) && PureCalls(cx.ops)
    requires DecidingNames(c) <= m && Agree(ns, m, a.mem, b.mem)
    ensures IsTrue(cx, c, env, Eval(cx, c, env, a)) == IsTrue(cx, c, env, Eval(cx, c, env, b))
  {
    hide Named, PureCalls, Agree, Check, Names, Alike, LastNames;
    if c.Comma? {
      LastAlike(cx, c.exprs, env, ns, m, a, b);
    } else {
      EvalAlike(cx, c, env, ns, m, a, b);
    }
    SameReads(ns, m, Eval(cx, c, env, a), Eval(cx, c, env, b));
  }

  /** The parts of a loop can be run in both. */
  lemma LoopReady(cx: Context, st: Stmt, env: Env, ns: SlotNames, q: Question)
    requires st.Loop? && SimpleStmt(st) && Ready(cx, env, ns, Declares(st), q)
    ensures Ready(cx, Push(env), ns, DeclaresHead(st.kind), q)
    ensures Ready(cx, Push(LoopEnv(st.kind, env)), ns, DeclaresAll(st.body), q)
    ensures Named(LoopEnv(st.kind, env), ns)
  {
    hide Named, NamesAt, PureCalls, Answered;
    LoopNamed(st, env, ns);
  }

  lemma {:induction false} LoopFlows(cx: Context, st: Stmt, env: Env, ns: SlotNames, q: Question, s: nat, up: seq<Link>,
                                     a: State, b: State, fuel: nat)
    requires st.Loop? && SimpleStmt(st) && Ready(cx, env, ns, Declares(st), q) && q.steady
    requires Placed(q.root, StmtNode(st), s, up) && Flows(ns, q, s, a, b)
    ensures FlowsOut(ns, q, AfterStmt(st, s), Exec(cx, st, env, a, fuel), Exec(cx, st, env, b, fuel))
    decreases fuel, st, 3
  {
    hide Ready, Placed, Flows, Variables, ExecTest, ExecBody, ExecList, LoopEnv, StmtNode, Climb;
    var t := AfterStmt(st, s);
    var x, y := Exec(cx, st, env, a, fuel), Exec(cx, st, env, b, fuel);
    LoopReady(cx, st, env, ns, q);
    match st.kind {
      case For(init, _) =>
        LoopChildren(st);
        ChildPlaced(q.root, StmtNode(st), s, up, 0);
        BranchFlows(cx, init, Push(env), ns, q, s, [Link(StmtNode(st), 0, s)] + up, a, b, fuel);
        var c, d := ExecList(cx, init, Push(env), a, fuel), ExecList(cx, init, Push(env), b, fuel);
        if c.Normal? && d.Normal? {
          FlowsAnywhere(ns, q, s + |Variables(BranchNode(init))|, s, c.st, d.st);
          TestFlows(cx, st, env, ns, q, s, up, c.st, d.st, fuel);
        }
      case While => TestFlows(cx, st, env, ns, q, s, up, a, b, fuel);
      case Do => RoundFlows(cx, st, env, ns, q, s, up, a, b, fuel);
    }
    if x.Normal? && y.Normal? { FlowsAnywhere(ns, q, s, t, x.st, y.st); }
  }

  /** Two runs about to test a condition: if they differ, the loop assigns to nothing that matters. */
  lemma {:induction false} TestFlows(cx: Context, st: Stmt, env: Env, ns: SlotNames, q: Question, s: nat, up: seq<Link>,
                                     a: State, b: State, fuel: nat)
    requires st.Loop? && SimpleStmt(st) && Ready(cx, env, ns, Declares(st), q) && q.steady
    requires Placed(q.root, StmtNode(st), s, up) && Flows(ns, q, s, a, b)
    ensures FlowsOut(ns, q, s, ExecTest(cx, st, env, a, fuel), ExecTest(cx, st, env, b, fuel))
    decreases fuel, st, 0
  {
    hide Named, NamesAt, PureCalls, Answered, Placed, Matters, Variables, ExecBody, LoopEnv, StmtNode, Climb, Eval,
      IsTrue, Agree, AssignedBy, SimpleStmt;
    if fuel > 0 {
      LoopReady(cx, st, env, ns, q);
      CondIsSimple(st);
      var env1 := LoopEnv(st.kind, env);
      var x, y := Eval(cx, st.cond, env1, a), Eval(cx, st.cond, env1, b);
      EffectFreeKeeps(cx, st.cond, env1, ns, Matters(q, s), a, b);
      if IsTrue(cx, st.cond, env1, x) == IsTrue(cx, st.cond, env1, y) {
        if IsTrue(cx, st.cond, env1, x) { RoundFlows(cx, st, env, ns, q, s, up, x.st, y.st, fuel - 1); }
      } else {
        forall v | v in Matters(q, s) ensures v !in AssignedBy(st) {
          if v in AssignedBy(st) {
            DecidingMatter(q, st, s, up, s, v);
            ConditionAlike(cx, st.cond, env1, ns, Matters(q, s), a, b);
          }
        }
        TestsKeep(cx, st, env, ns, q, s, a, b, fuel);
      }
    }
  }

  lemma CondIsSimple(st: Stmt)
    requires st.Loop? && SimpleStmt(st)
    ensures Simple(st.cond) && EffectFree(st.cond)
  {
  }

  /** A loop that assigns to nothing that matters, however often it goes round. */
  lemma TestsKeep(cx: Context, st: Stmt, env: Env, ns: SlotNames, q: Question, s: nat, a: State, b: State, fuel: nat)
    requires st.Loop? && SimpleStmt(st) && Ready(cx, env, ns, Declares(st), q) && Flows(ns, q, s, a, b)
    requires forall v | v in Matters(q, s) :: v !in AssignedBy(st)
    ensures FlowsOut(ns, q, s, ExecTest(cx, st, env, a, fuel), ExecTest(cx, st, env, b, fuel))
  {
    hide Named, NamesAt, PureCalls, Answered, Flows, Matters, ExecTest, AssignedBy, SimpleStmt, SameSlot, Declares;
    var x, y := ExecTest(cx, st, env, a, fuel), ExecTest(cx, st, env, b, fuel);
    if x.Normal? && y.Normal? {
      forall slot: nat | slot >= |ns| || ns[slot] in Matters(q, s)
        ensures SameSlot(a.mem, x.st.mem, slot) && SameSlot(b.mem, y.st.mem, slot)
      {
        TestKeeps(cx, st, env, ns, a, fuel, slot);
        TestKeeps(cx, st, env, ns, b, fuel, slot);
      }
      KeptFlows(ns, q, s, a, b, x.st, y.st);
    }
  }

  /** Two runs about to go round: the body, the iteration expression, and the next test. */
  lemma {:induction false} RoundFlows(cx: Context, st: Stmt, env: Env, ns: SlotNames, q: Question, s: nat,
                                      up: seq<Link>, a: State, b: State, fuel: nat)
    requires st.Loop? && SimpleStmt(st) && Ready(cx, env, ns, Declares(st), q) && q.steady
    requires Placed(q.root, StmtNode(st), s, up) && Flows(ns, q, s, a, b)
    ensures FlowsOut(ns, q, s, ExecBody(cx, st, env, a, fuel), ExecBody(cx, st, env, b, fuel))
    decreases fuel, st, 1
  {
    hide Named, NamesAt, PureCalls, Answered, Placed, Flows, Matters, Variables, ExecTest, ExecList, LoopEnv, StmtNode,
      Climb, Eval, IsTrue;
    LoopReady(cx, st, env, ns, q);
    LoopChildren(st);
    var n := StmtNode(st);
    var k := BodyChild(st.kind);
    var env1 := LoopEnv(st.kind, env);
    var start := s + ChildStart(n.children, k);
    ChildPlaced(q.root, n, s, up, k);
    FlowsAnywhere(ns, q, s, start, a, b);
    BranchFlows(cx, st.body, Push(env1), ns, q, start, [Link(n, k, s)] + up, a, b, fuel);
    var x, y := ExecList(cx, st.body, Push(env1), a, fuel), ExecList(cx, st.body, Push(env1), b, fuel);
    BodyOutcome(cx, st, env, ns, a, fuel);
    BodyOutcome(cx, st, env, ns, b, fuel);
    if x.Normal? && y.Normal? {
      FlowsAnywhere(ns, q, start + |Variables(BranchNode(st.body))|, s, x.st, y.st);
      IterationFlows(cx, st, env1, ns, q, s, up, x.st, y.st);
      TestFlows(cx, st, env, ns, q, s, up, IterationEnd(cx, st, env1, x.st), IterationEnd(cx, st, env1, y.st), fuel);
    }
  }

  lemma BodyOutcome(cx: Context, st: Stmt, env: Env, ns: SlotNames, a: State, fuel: nat)
    requires st.Loop? && SimpleStmt(st) && |env.scopes| > 0 && Named(env, ns) && NamesAt(ns, env.slots, Declares(st))
    requires PureCalls(cx.ops)
    ensures var env1 := LoopEnv(st.kind, env);
            var o := ExecList(cx, st.body, Push(env1), a, fuel);
            if o.Normal? then
              ExecBody(cx, st, env, a, fuel) == ExecTest(cx, st, env, IterationEnd(cx, st, env1, o.st), fuel)
            else ExecBody(cx, st, env, a, fuel).Timeout?
  {
    hide Named, NamesAt, PureCalls, ExecTest, ExecList, LoopEnv, Eval, SameSlot;
    LoopNamed(st, env, ns);
    ListKeeps(cx, st.body, Push(LoopEnv(st.kind, env)), ns, a, fuel, 0);
  }

  lemma IterationFlows(cx: Context, st: Stmt, env1: Env, ns: SlotNames, q: Question, s: nat, up: seq<Link>, a: State,
                       b: State)
    requires st.Loop? && SimpleStmt(st) && Named(env1, ns) && PureCalls(cx.ops) && Answered(q) && q.steady
    requires Placed(q.root, StmtNode(st), s, up) && Flows(ns, q, s, a, b)
    ensures Flows(ns, q, s, IterationEnd(cx, st, env1, a), IterationEnd(cx, st, env1, b))
  {
    hide Named, PureCalls, Answered, Placed, Flows, Matters, Variables, StmtNode, Climb, Eval;
    if st.kind.For? && st.kind.iteration.Some? {
      var e := st.kind.iteration.value;
      var n := StmtNode(st);
      LoopChildren(st);
      ChildPlaced(q.root, n, s, up, 2);
      var start := s + ChildStart(n.children, 2);
      FlowsAnywhere(ns, q, s, start, a, b);
      ExprFlows(cx, e, env1, ns, q, start, [Link(n, 2, s)] + up, a, b);
      FlowsAnywhere(ns, q, After(e, start), s, Eval(cx, e, env1, a).st, Eval(cx, e, env1, b).st);
    }
  }

  // ---------------------------------------------------------------------------------------
  // Whole programs

  lemma {:induction false} NoLoopsInside(e: Expr)
    ensures NoDoWhile(NodeOf(e))
    decreases e, 1
  {
    match e
    case Literal(_, _) =>
    case Local(_) =>
    case Attribute(_, _) =>
    case Component(index, vec) =>
      NoLoopsInside(index);
      NoLoopsInside(vec);
      assert NoDoWhileIn(One(NodeOf(vec)));
    case MatrixEntry(row, column, m) =>
      NoLoopsInside(row);
      NoLoopsInside(column);
      NoLoopsInside(m);
      assert NoDoWhileIn(One(NodeOf(m)));
      assert NoDoWhileIn(Two(NodeOf(column), NodeOf(m)));
    case Unary(_, a) => NoLoopsInside(a);
    case Binary(_, l, r) =>
      NoLoopsInside(l);
      NoLoopsInside(r);
      assert NoDoWhileIn(One(NodeOf(r)));
    case Logical(_, l, r) =>
      NoLoopsInside(l);
      NoLoopsInside(r);
      assert NoDoWhileIn(One(NodeOf(r)));
    case Ternary(c, t, f) =>
      NoLoopsInside(c);
      NoLoopsInside(f);
      if t.Some? { NoLoopsInside(t.value); }
      assert NoDoWhileIn(One(NodeOf(f)));
    case Comma(es) => NoLoopsInAny(es);
    case Assign(l, _, r) =>
      NoLoopsInside(l);
      NoLoopsInside(r);
      assert NoDoWhileIn(One(NodeOf(r)));
    case Crement(v, _, _) => NoLoopsInside(v);
    case Cast(_, a) => NoLoopsInside(a);
    case Call(_, args) => NoLoopsInAny(args);
    case ArrayPack(es) => NoLoopsInAny(es);
  }

  lemma {:induction false} NoLoopsInAny(es: Exprs)
    ensures NoDoWhileIn(NodesOf(es))
    decreases es, 1
  {
    match es
    case NoExprs =>
    case ConsExpr(e, rest) =>
      NoLoopsInside(e);
      NoLoopsInAny(rest);
  }

  lemma {:induction false} NoLoops(st: Stmt)
    requires LoopFree(st)
    ensures NoDoWhile(StmtNode(st))
    decreases st, 1
  {
    match st
    case ExprStmt(e) => NoLoopsInside(e);
    case Declare(_, _, initial) =>
      if initial.Some? {
        NoLoopsInside(initial.value);
        assert NoDoWhileIn(One(NodeOf(initial.value)));
      }
    case Block(body) => NoLoopsIn(body);
    case StatementList(ss) => NoLoopsIn(ss);
    case If(c, onTrue, onFalse) =>
      NoLoopsInside(c);
      NoLoopsIn(onTrue);
      if onFalse.Some? {
        NoLoopsIn(onFalse.value);
        assert NoDoWhileIn(One(BranchNode(onFalse.value)));
      }
      assert NoDoWhileIn(StmtNode(st).children.tail);
    case Jump(_) =>
  }

  lemma {:induction false} NoLoopsIn(ss: Stmts)
    requires AllLoopFree(ss)
    ensures NoDoWhileIn(StmtNodes(ss))
    decreases ss, 1
  {
    match ss
    case NoStmts =>
    case ConsStmt(st, rest) =>
      NoLoops(st);
      NoLoopsIn(rest);
  }

  /** The dependencies of a variable, as a set. */
  ghost function FoundFor(root: Node, v: nat): set<nat> {
    set d | d in Initial(|Variables(root)|) && DependsOn(root, v, d)
  }

  lemma {:induction false} FromUseFits(u: nat, up: seq<Link>, written: bool, count: nat)
    requires u < count && forall l | l in up :: LinkFits(l, 0, count)
    ensures forall d | d in FromUse(u, up, written) :: d < count
    decreases |up|
  {
    hide Contributes, WritesAt, OnItself;
    if |up| > 0 {
      var now := written || WritesAt(up[0]);
      ContributesFits(up[0], now, count);
      FromUseFits(u, up[1..], now, count);
    }
  }

  lemma UseFits(root: Node, u: nat, d: nat)
    requires d in DirectOfUse(root, u)
    ensures d < |Variables(root)|
  {
    hide Climb, FromUse;
    ClimbFits(root, u, 0);
    FromUseFits(u, Climb(root, u, 0), false, |Variables(root)|);
  }

  lemma DirectFits(root: Node, v: nat, d: nat)
    requires d in Direct(root, v)
    ensures d < |Variables(root)|
  {
    hide DirectOfUse;
    DirectOfAllAre(root, Usage(root, v));
    var u :| u in Usage(root, v) && d in DirectOfUse(root, u);
    UseFits(root, u, d);
  }

  /** They are closed and hold what the variable directly depends on. */
  lemma FoundIsClosed(root: Node, v: nat)
    ensures Direct(root, v) <= FoundFor(root, v) && Closed(root, FoundFor(root, v))
  {
    hide Direct, Variables;
    forall d | d in Direct(root, v) ensures d in FoundFor(root, v) {
      DirectFits(root, v, d);
    }
    forall d, e | d in FoundFor(root, v) && e in Direct(root, d) ensures e in FoundFor(root, v) {
      DirectFits(root, d, e);
      forall c | Closed(root, c) && Direct(root, v) <= c ensures e in c {
        assert d in c && Direct(root, d) <= c;
      }
    }
  }

  // ---------------------------------------------------------------------------------------
  // The claim

  /** The names of the slots of the attributes. */
  function AttributeNames(reg: Registry): (ns: SlotNames)
    requires Distinct(reg)
    ensures |ns| == |reg| && forall i | 0 <= i < |reg| :: ns[i] == Attr(reg[i].key)
  {
    seq(|reg|, i requires 0 <= i < |reg| => Attr(reg[i].key))
  }

  lemma AttributesNamed(reg: Registry, ns: SlotNames)
    requires Distinct(reg) && AttributeNames(reg) <= ns
    ensures Named(AttributeEnv(reg), ns)
  {
    AttributeScopeAt(reg);
    var scope := AttributeScope(reg);
    forall k | k in scope ensures scope[k].slot < |ns| && ns[scope[k].slot] == NameOf(k) {
      assert ns[scope[k].slot] == AttributeNames(reg)[scope[k].slot];
    }
  }

  /** Two states give the same values to the slot of one attribute and to the slots of everything it
      depends on, and to all slots that are not attributes. */
  ghost predicate AgreeOnDependencies(root: Stmts, reg: Registry, i: nat, a: Memory, b: Memory)
    requires Distinct(reg) && i < |reg|
  {
    forall slot: nat | slot >= |reg| || slot == i || TokenDependsOn(TreeOf(root), reg[i].key, reg[slot].key) ::
      SameSlot(a, b, slot)
  }

  /** Two runs of a program without loops that agree on an attribute and on everything it depends on end, with the
      same value of that attribute. */
  lemma DependenciesSuffice(cx: Context, root: Stmts, reg: Registry, i: nat, a: State, b: State, fuel: nat)
    requires SimpleStmts(root) && AllLoopFree(root) && PureCalls(cx.ops) && Distinct(reg) && i < |reg|
    requires AgreeOnDependencies(root, reg, i, a.mem, b.mem)
    ensures var x := Exec(cx, Block(root), AttributeEnv(reg), a, fuel);
            var y := Exec(cx, Block(root), AttributeEnv(reg), b, fuel);
            x.Normal? && y.Normal? && SameSlot(x.st.mem, y.st.mem, i)
  {
    hide Exec, SameSlot, PureCalls, Named, NamesAt, AgreeOnDependencies, Variables, Flows, Answered, DependsOn;
    ProgramNamed(root, reg);
    var tree := TreeOf(root);
    var ns := AttributeNames(reg) + DeclaresAll(root);
    var env := AttributeEnv(reg);
    ExecKeeps(cx, Block(root), env, ns, a, fuel, i);
    ExecKeeps(cx, Block(root), env, ns, b, fuel, i);
    LoopFreeBlock(root);
    LastUseOccurs(tree, Attr(reg[i].key), 0);
    var last := LastUse(tree, Attr(reg[i].key), 0);
    if last.None? {
      if Attr(reg[i].key) in AssignedBy(Block(root)) {
        var j := AssignedByOccurs(Block(root), Attr(reg[i].key), 0);
      }
      var x, y := Exec(cx, Block(root), env, a, fuel), Exec(cx, Block(root), env, b, fuel);
      assert SameSlot(a.mem, b.mem, i) by { AgreesOnItself(root, reg, i, a.mem, b.mem); }
      SameStays(a.mem, b.mem, x.st.mem, y.st.mem, i);
    } else {
      var q := Question(tree, Attr(reg[i].key), last.value, FoundFor(tree, last.value), false);
      QuestionAnswered(root, reg[i].key, q);
      MattersAtStart(root, reg, i, ns, q, a.mem, b.mem);
      FlowsOfMemory(ns, q, a, b);
      QuestionSuffices(cx, root, reg, i, q, a, b, fuel);
    }
  }

  lemma AgreesOnItself(root: Stmts, reg: Registry, i: nat, a: Memory, b: Memory)
    requires Distinct(reg) && i < |reg| && AgreeOnDependencies(root, reg, i, a, b)
    ensures SameSlot(a, b, i)
  {
  }

  lemma FlowsOfMemory(ns: SlotNames, q: Question, a: State, b: State)
    requires Flows(ns, q, 0, State(a.mem, 0), State(b.mem, 0))
    ensures Flows(ns, q, 0, a, b)
  {
  }

  /** No use of the attribute, or of a variable that it depends on, depends on anything that the attribute does not
      depend on: asking the scanner from any of these uses lists nothing more. */
  ghost predicate SteadyAnswer(tree: Node, t: TokenKey) {
    var last := LastUse(tree, Attr(t), 0);
    last.Some? ==>
      forall w: nat, d: nat | w < |Variables(tree)| && IsListed(tree, t, last.value, w) && Influenced(tree, w, d) ::
        DependsOn(tree, last.value, d)
  }

  /** A use of the attribute or of a variable it depends on. */
  ghost predicate IsListed(tree: Node, t: TokenKey, last: nat, w: nat)
    requires w < |Variables(tree)|
  {
    var x := Variables(tree)[w];
    x == Attr(t) ||
    (!x.Ext? && exists d: nat :: d < |Variables(tree)| && Variables(tree)[d] == x && DependsOn(tree, last, d))
  }

  /** Loops of all kinds: two runs that agree on a steady set of variables and both end, however often each has gone
      round, end with the same value of the attribute. */
  lemma SteadySetSuffices(cx: Context, root: Stmts, reg: Registry, i: nat, d: set<nat>, a: State, b: State, fuel: nat)
    requires SimpleStmts(root) && PureCalls(cx.ops) && Distinct(reg) && i < |reg|
    requires IsSteady(TreeOf(root), Attr(reg[i].key), d)
    requires forall slot: nat | slot >= |reg| ||
                                Attr(reg[slot].key) in NamesOfThese(TreeOf(root), Attr(reg[i].key), d) ::
               SameSlot(a.mem, b.mem, slot)
    ensures var x := Exec(cx, Block(root), AttributeEnv(reg), a, fuel);
            var y := Exec(cx, Block(root), AttributeEnv(reg), b, fuel);
            x.Normal? && y.Normal? ==> SameSlot(x.st.mem, y.st.mem, i)
  {
    hide Exec, PureCalls, IsSteady, Variables;
    var q := Question(TreeOf(root), Attr(reg[i].key), 0, d, true);
    var ns := AttributeNames(reg) + DeclaresAll(root);
    forall slot: nat, cell: int | slot >= |ns| || ns[slot] in Matters(q, 0)
      ensures Get(a.mem, Address(slot, cell)) == Get(b.mem, Address(slot, cell))
    {
      assert Matters(q, 0) == NamesOfThese(q.root, q.a, d);
      assert slot < |reg| ==> ns[slot] == Attr(reg[slot].key);
      assert SameSlot(a.mem, b.mem, slot);
    }
    QuestionSuffices(cx, root, reg, i, q, a, b, fuel);
  }

  /** So the dependencies of an attribute suffice, with loops too, whenever the scanner's answer is steady. */
  lemma LoopDependenciesSuffice(cx: Context, root: Stmts, reg: Registry, i: nat, a: State, b: State, fuel: nat)
    requires SimpleStmts(root) && PureCalls(cx.ops) && Distinct(reg) && i < |reg|
    requires SteadyAnswer(TreeOf(root), reg[i].key) && AgreeOnDependencies(root, reg, i, a.mem, b.mem)
    ensures var x := Exec(cx, Block(root), AttributeEnv(reg), a, fuel);
            var y := Exec(cx, Block(root), AttributeEnv(reg), b, fuel);
            x.Normal? && y.Normal? ==> SameSlot(x.st.mem, y.st.mem, i)
  {
    hide Exec, SameSlot, PureCalls, SteadyAnswer, Variables, IsSteady, DependsOn;
    var tree := TreeOf(root);
    var last := LastUse(tree, Attr(reg[i].key), 0);
    LastUseOccurs(tree, Attr(reg[i].key), 0);
    var d := if last.Some? then FoundFor(tree, last.value) else {};
    SteadyIs(tree, reg[i].key);
    forall slot: nat | slot < |reg| && Attr(reg[slot].key) in NamesOfThese(tree, Attr(reg[i].key), d)
      ensures SameSlot(a.mem, b.mem, slot)
    {
      if slot != i { assert TokenDependsOn(tree, reg[i].key, reg[slot].key); }
    }
    SteadySetSuffices(cx, root, reg, i, d, a, b, fuel);
  }

  /** The answer is steady exactly when the set it gives is. */
  lemma SteadyIs(tree: Node, t: TokenKey)
    ensures var last := LastUse(tree, Attr(t), 0);
            SteadyAnswer(tree, t) <==> IsSteady(tree, Attr(t), if last.Some? then FoundFor(tree, last.value) else {})
  {
    hide Direct, Variables, Influenced, DirectOfUse, DependsOn;
    var last := LastUse(tree, Attr(t), 0);
    LastUseOccurs(tree, Attr(t), 0);
    if last.Some? {
      var found := FoundFor(tree, last.value);
      forall w: nat, d: nat | w < |Variables(tree)|
        ensures d in DirectOfUse(tree, w) <==> Influenced(tree, w, d)
        ensures d in DirectOfUse(tree, w) ==> d < |Variables(tree)|
      {
        UseExactly(tree, w, d);
        if d in DirectOfUse(tree, w) { UseFits(tree, w, d); }
      }
      forall w: nat | w < |Variables(tree)|
        ensures IsListed(tree, t, last.value, w) <==>
                  !Variables(tree)[w].Ext? && Variables(tree)[w] in NamesOfThese(tree, Attr(t), found)
      {
      }
      forall d: nat | d < |Variables(tree)| ensures d in found <==> DependsOn(tree, last.value, d) {}
    }
  }

  lemma ProgramNamed(root: Stmts, reg: Registry)
    requires SimpleStmts(root) && Distinct(reg)
    ensures var ns := AttributeNames(reg) + DeclaresAll(root);
            var env := AttributeEnv(reg);
            |env.scopes| > 0 && Named(env, ns) && NamesAt(ns, env.slots, Declares(Block(root)))
  {
    hide Named, NamesAt, Declares;
    AttributesNamed(reg, AttributeNames(reg) + DeclaresAll(root));
    NamesHere(AttributeNames(reg), DeclaresAll(root));
    DeclaresBlock(root);
  }

  lemma QuestionSuffices(cx: Context, root: Stmts, reg: Registry, i: nat, q: Question, a: State, b: State, fuel: nat)
    requires SimpleStmts(root) && PureCalls(cx.ops) && Distinct(reg) && i < |reg|
    requires q.root == TreeOf(root) && q.a == Attr(reg[i].key) && Answered(q) && (q.steady || AllLoopFree(root))
    requires Flows(AttributeNames(reg) + DeclaresAll(root), q, 0, a, b)
    ensures var x := Exec(cx, Block(root), AttributeEnv(reg), a, fuel);
            var y := Exec(cx, Block(root), AttributeEnv(reg), b, fuel);
            x.Normal? && y.Normal? ==> SameSlot(x.st.mem, y.st.mem, i)
  {
    hide Exec, Variables, PureCalls, Named, NamesAt, Declares, Climb, AllLoopFree, Answered;
    var ns := AttributeNames(reg) + DeclaresAll(root);
    var env := AttributeEnv(reg);
    ProgramNamed(root, reg);
    RootPlaced(q.root);
    LoopFreeBlock(root);
    StmtFlows(cx, Block(root), env, ns, q, 0, [], a, b, fuel);
    var x, y := Exec(cx, Block(root), env, a, fuel), Exec(cx, Block(root), env, b, fuel);
    if x.Normal? && y.Normal? {
      assert ns[i] == q.a;
      AgreeOne(ns, Matters(q, AfterStmt(Block(root), 0)), x.st.mem, y.st.mem, i);
    }
  }

  lemma LoopFreeBlock(root: Stmts)
    ensures LoopFree(Block(root)) == AllLoopFree(root)
  {
  }

  lemma SameStays(a: Memory, b: Memory, c: Memory, d: Memory, slot: nat)
    requires SameSlot(a, b, slot) && SameSlot(a, c, slot) && SameSlot(b, d, slot)
    ensures SameSlot(c, d, slot)
  {
    forall cell ensures Get(c, Address(slot, cell)) == Get(d, Address(slot, cell)) {
      assert Get(a, Address(slot, cell)) == Get(b, Address(slot, cell));
      assert Get(a, Address(slot, cell)) == Get(c, Address(slot, cell));
      assert Get(b, Address(slot, cell)) == Get(d, Address(slot, cell));
    }
  }

  lemma AgreeOne(ns: SlotNames, s: set<VarName>, a: Memory, b: Memory, slot: nat)
    requires Agree(ns, s, a, b) && slot < |ns| && ns[slot] in s
    ensures SameSlot(a, b, slot)
  {
  }

  lemma NamesHere(a: SlotNames, b: SlotNames)
    ensures NamesAt(a + b, |a|, b)
  {
    assert (a + b)[|a|..|a| + |b|] == b;
  }

  lemma DeclaresBlock(root: Stmts)
    ensures Declares(Block(root)) == DeclaresAll(root)
  {
  }

  lemma QuestionAnswered(root: Stmts, t: TokenKey, q: Question)
    requires AllLoopFree(root) && q.root == TreeOf(root) && q.a == Attr(t) && !q.steady
    requires LastUse(q.root, Attr(t), 0) == Some(q.last) && q.d == FoundFor(q.root, q.last)
    ensures Answered(q)
  {
    hide Direct, Variables;
    LastUseOccurs(q.root, q.a, 0);
    FoundIsClosed(q.root, q.last);
    NoLoops(Block(root));
    forall j: nat | j < |Variables(q.root)| && Variables(q.root)[j] == q.a ensures j <= q.last {
      LastUseIsLast(q.root, q.a, 0, j);
    }
  }

  lemma MattersAtStart(root: Stmts, reg: Registry, i: nat, ns: SlotNames, q: Question, a: Memory, b: Memory)
    requires Distinct(reg) && i < |reg| && AttributeNames(reg) <= ns && AgreeOnDependencies(root, reg, i, a, b)
    requires q.root == TreeOf(root) && q.a == Attr(reg[i].key)
    requires LastUse(q.root, Attr(reg[i].key), 0) == Some(q.last) && q.d == FoundFor(q.root, q.last)
    ensures Flows(ns, q, 0, State(a, 0), State(b, 0))
  {
    hide DependsOn, Variables;
    forall slot: nat, cell: int | slot >= |ns| || ns[slot] in Matters(q, 0)
      ensures Get(a, Address(slot, cell)) == Get(b, Address(slot, cell))
    {
      assert SameSlot(a, b, slot) by {
        if slot < |reg| {
          assert ns[slot] == AttributeNames(reg)[slot] == Attr(reg[slot].key);
          if ns[slot] == q.a {
            assert slot == i;
          } else {
            var d :| d in q.d && d < |Variables(q.root)| && Variables(q.root)[d] == ns[slot];
            assert TokenDependsOn(TreeOf(root), reg[i].key, reg[slot].key);
          }
        }
      }
    }
  }

  /** In terms of the registry: agreeing on an attribute and on the entries listed as its dependencies is
      enough. */
  lemma RegistryDependenciesSuffice(cx: Context, root: Stmts, accesses: seq<AccessData>, reg: Registry, i: nat,
                                    a: State, b: State, fuel: nat)
    requires SimpleStmts(root) && AllLoopFree(root) && PureCalls(cx.ops) && Distinct(reg) && i < |reg| == |accesses|
    requires forall j | 0 <= j < |reg| :: reg[j].key == accesses[j].key
    requires DepsAre(TreeOf(root), accesses, i)
    requires forall slot: nat | slot >= |reg| || slot == i || slot in accesses[i].deps :: SameSlot(a.mem, b.mem, slot)
    ensures var x := Exec(cx, Block(root), AttributeEnv(reg), a, fuel);
            var y := Exec(cx, Block(root), AttributeEnv(reg), b, fuel);
            x.Normal? && y.Normal? && SameSlot(x.st.mem, y.st.mem, i)
  {
    hide Exec, SameSlot, TokenDependsOn, PureCalls;
    DependenciesSuffice(cx, root, reg, i, a, b, fuel);
  }
}
