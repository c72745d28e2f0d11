/**
A loop whose attribute depends on more than the scanner lists: the scanner looks at the uses in front of a
position only, but in a loop what comes later in the body reaches the next round.
*/
module ShiftingLoop {
  import opened Types
  import opened Ast
  import opened Overloads
  import opened Semantics
  import opened Writes
  import opened Occurrences
  import Catalogue
  import opened TreeFlags
  import opened Dependencies
  import opened AttributeRegistries
  import opened Kernels
  import opened Agreement
  import opened Noninterference

  /** The attribute of a name. */
  function Of(name: string): Expr {
    Attribute(Int32, name)
  }

  function Copy(to: string, from: string): Expr {
    Assign(Of(to), None, Of(from))
  }

  /** `i@x = i@s; i@s = i@t; i@t = i@u;` */
  function Shift(): Stmts {
    ConsStmt(ExprStmt(Copy("x", "s")), ConsStmt(ExprStmt(Copy("s", "t")), ConsStmt(ExprStmt(Copy("t", "u")), NoStmts)))
  }

  /** `while (i@s) { ... }` */
  function Shifting(): Stmt {
    Loop(While, Of("s"), Shift())
  }

  function Program(): Stmts {
    ConsStmt(Shifting(), NoStmts)
  }

  function Entries(): Registry {
    [Kernels.Access(Token(Int32, "x"), true, true), Kernels.Access(Token(Int32, "s"), true, true),
     Kernels.Access(Token(Int32, "t"), true, true), Kernels.Access(Token(Int32, "u"), true, true)]
  }

  // ---------------------------------------------------------------------------------------
  // What the scanner lists

  lemma TreeIs()
    ensures var tree := TreeOf(Program());
            && tree.kind == OtherNode && tree.children == One(StmtNode(Shifting()))
            && Variables(tree) == Variables(StmtNode(Shifting()))
    ensures var loop := StmtNode(Shifting());
            && loop.kind == LoopNode(0, false) && loop.children == Two(NodeOf(Of("s")), BranchNode(Shift()))
            && Variables(loop) == [Attr(Token(Int32, "s"))] + Variables(BranchNode(Shift()))
    ensures var body := BranchNode(Shift());
            body.kind == OtherNode && Size(body.children) == 3 && Child(body.children, 0) == NodeOf(Copy("x", "s")) &&
            Variables(body) == Variables(NodeOf(Copy("x", "s"))) + Variables(NodeOf(Copy("s", "t"))) +
                               Variables(NodeOf(Copy("t", "u")))
  {
    var loop := StmtNode(Shifting());
    VariablesOfOne(loop);
    VariablesOfTwo(NodeOf(Of("s")), BranchNode(Shift()));
    var rest := MoreNodes(NodeOf(Copy("s", "t")), One(NodeOf(Copy("t", "u"))));
    assert StmtNodes(NoStmts) == NoNodes;
    assert StmtNodes(Shift().tail.tail) == One(NodeOf(Copy("t", "u")));
    assert StmtNodes(Shift().tail) == rest;
    assert BranchNode(Shift()).children == MoreNodes(NodeOf(Copy("x", "s")), rest);
    VariablesOfTwo(NodeOf(Copy("s", "t")), NodeOf(Copy("t", "u")));
    SizeOfTwo(NodeOf(Copy("s", "t")), NodeOf(Copy("t", "u")));
  }

  lemma CopyVariables(to: string, from: string)
    ensures var n := NodeOf(Copy(to, from));
            && n.kind == AssignNode(false) && n.children == Two(NodeOf(Of(to)), NodeOf(Of(from)))
            && Variables(n) == [Attr(Token(Int32, to)), Attr(Token(Int32, from))]
  {
    VariablesOfTwo(NodeOf(Of(to)), NodeOf(Of(from)));
    assert Variables(NodeOf(Of(to))) == [Attr(Token(Int32, to))];
  }

  /** The variables in order: the condition, then both sides of each assignment. */
  lemma VariablesAre()
    ensures Variables(TreeOf(Program())) ==
            [Attr(Token(Int32, "s")), Attr(Token(Int32, "x")), Attr(Token(Int32, "s")), Attr(Token(Int32, "s")),
             Attr(Token(Int32, "t")), Attr(Token(Int32, "t")), Attr(Token(Int32, "u"))]
  {
    hide Variables, TreeOf, StmtNode, NodeOf;
    TreeIs();
    CopyVariables("x", "s");
    CopyVariables("s", "t");
    CopyVariables("t", "u");
  }

  /** The ways up from the condition and from both sides of the first assignment. */
  lemma WaysUp()
    ensures var tree := TreeOf(Program());
            var loop, body, copy := StmtNode(Shifting()), BranchNode(Shift()), NodeOf(Copy("x", "s"));
            && |Variables(tree)| == 7
            && Climb(tree, 0, 0) == [Link(loop, 0, 0), Link(tree, 0, 0)]
            && Climb(tree, 1, 0) == [Link(copy, 0, 1), Link(body, 0, 1), Link(loop, 1, 0), Link(tree, 0, 0)]
            && Climb(tree, 2, 0) == [Link(copy, 1, 1), Link(body, 0, 1), Link(loop, 1, 0), Link(tree, 0, 0)]
  {
    hide Variables, TreeOf, StmtNode, NodeOf, Climb, Placed;
    var tree := TreeOf(Program());
    var loop, body, copy := StmtNode(Shifting()), BranchNode(Shift()), NodeOf(Copy("x", "s"));
    TreeIs();
    VariablesAre();
    CopyVariables("x", "s");
    SizeOfTwo(NodeOf(Of("s")), body);
    SizeOfTwo(NodeOf(Of("x")), NodeOf(Of("s")));
    RootPlaced(tree);
    ChildPlaced(tree, tree, 0, [], 0);
    var top := [Link(tree, 0, 0)] + [];
    DropNothing(tree.children);
    assert Placed(tree, loop, 0, top);
    ChildPlaced(tree, loop, 0, top, 0);
    ChildPlaced(tree, loop, 0, top, 1);
    DropNothing(loop.children);
    DropChild(loop.children, 0);
    LeafVariables("s");
    Leaf(tree, "s", 0, [Link(loop, 0, 0)] + top);
    var up := [Link(loop, 1, 0)] + top;
    assert Placed(tree, body, 1, up);
    ChildPlaced(tree, body, 1, up, 0);
    DropNothing(body.children);
    var inner := [Link(body, 0, 1)] + up;
    assert Placed(tree, copy, 1, inner);
    ChildPlaced(tree, copy, 1, inner, 0);
    ChildPlaced(tree, copy, 1, inner, 1);
    DropNothing(copy.children);
    DropChild(copy.children, 0);
    LeafVariables("x");
    Leaf(tree, "x", 1, [Link(copy, 0, 1)] + inner);
    Leaf(tree, "s", 2, [Link(copy, 1, 1)] + inner);
  }

  lemma LeafVariables(name: string)
    ensures Variables(NodeOf(Of(name))) == [Attr(Token(Int32, name))]
  {
  }

  lemma Leaf(tree: Node, name: string, s: nat, up: seq<Link>)
    requires Placed(tree, NodeOf(Of(name)), s, up)
    ensures s < |Variables(tree)| && Climb(tree, s, 0) == up
  {
    LeafVariables(name);
    assert Climb(tree, s + 0, 0) == Climb(NodeOf(Of(name)), 0, s) + up;
  }

  /** Use 1 is assigned to: it depends on its source and on the condition. Uses 0 and 2 depend on nothing. */
  lemma UsesSay(d: nat)
    ensures var tree := TreeOf(Program());
            && |Variables(tree)| == 7
            && (Influenced(tree, 1, d) ==> d == 0 || d == 2) && !Influenced(tree, 0, d) && !Influenced(tree, 2, d)
  {
    hide Variables, TreeOf, StmtNode, NodeOf, Climb, IsUnder, IsTested;
    WaysUp();
    TreeIs();
    CopyVariables("x", "s");
    var loop, copy := StmtNode(Shifting()), NodeOf(Copy("x", "s"));
    SourceUnder(copy, d);
    ConditionTested(loop, d);
  }

  lemma SourceUnder(copy: Node, d: nat)
    requires copy == NodeOf(Copy("x", "s"))
    ensures IsUnder(Link(copy, 0, 1), 1, d) ==> d == 2
  {
    CopyVariables("x", "s");
    DropChild(copy.children, 0);
    DropNothing(copy.children);
    LeafVariables("x");
    LeafVariables("s");
  }

  lemma ConditionTested(loop: Node, d: nat)
    requires loop == StmtNode(Shifting())
    ensures IsTested(Link(loop, 1, 0), 0, d) ==> d == 0
  {
    TreeIs();
    DropNothing(loop.children);
    LeafVariables("s");
  }

  /** So the scanner, asked for x, lists s and nothing else: not t. */
  lemma NotListed()
    ensures !TokenDependsOn(TreeOf(Program()), Token(Int32, "x"), Token(Int32, "t"))
  {
    hide Variables, TreeOf, Climb, Influenced, Direct, LastUse;
    var tree := TreeOf(Program());
    VariablesAre();
    LastUseOccurs(tree, Attr(Token(Int32, "x")), 0);
    var c: set<nat> := {0, 2};
    forall v: nat, d | v < 3 && d in Direct(tree, v) ensures d in c {
      DirectExactly(tree, v, d);
      var u: nat :| u <= v && Variables(tree)[u] == Variables(tree)[v] && Influenced(tree, u, d);
      UsesSay(d);
    }
    assert Closed(tree, c);
  }

  // ---------------------------------------------------------------------------------------
  // What the program does

  /** Integers that are true unless they are zero. */
  function Machine32(): Context {
    var called := Called(_ => 0, (_, _) => 0, 0);
    Context(Ops((_, _, _, _) => 0, (_, _, _) => 0, (_, _, n) => n, (_, n) => n != 0, (_, _, _, _) => 0,
                (_, _, cs: seq<seq<int>>, _) =>
                  Called(_ => 0, (i: nat, j: nat) => if i < |cs| && j < |cs[i]| then cs[i][j] else 0, 0)),
            map[])
  }

  function Cells4(x: int, s: int, t: int, u: int): State {
    State(map[Address(0, 0) := x, Address(1, 0) := s, Address(2, 0) := t, Address(3, 0) := u], 0)
  }

  /** Environments in which the attributes are those of the registry. */
  predicate Sees(env: Env) {
    |env.scopes| > 0 && env.scopes[0] == AttributeScope(Entries())
  }

  lemma EntriesDistinct()
    ensures Distinct(Entries()) && |Entries()| == 4
  {
  }

  lemma Reads(env: Env, st: State, name: string, i: nat)
    requires Sees(env) && i < 4 && Entries()[i].key == Token(Int32, name)
    ensures Eval(Machine32(), Of(name), env, st) == Result(st, Ptr(Address(i, 0)))
    ensures Check(map[], Of(name), env) == Typed(Int32, true)
  {
    EntriesDistinct();
    AttributeScopeAt(Entries());
  }

  lemma Copies(env: Env, st: State, to: string, i: nat, from: string, j: nat)
    requires Sees(env) && i < 4 && Entries()[i].key == Token(Int32, to)
    requires j < 4 && Entries()[j].key == Token(Int32, from)
    ensures Eval(Machine32(), Copy(to, from), env, st).st ==
            st.(mem := st.mem[Address(i, 0) := Get(st.mem, Address(j, 0))])
  {
    hide AttributeScope;
    Reads(env, st, to, i);
    Reads(env, st, from, j);
  }

  lemma CopyRuns(env: Env, st: State, to: string, i: nat, from: string, j: nat, rest: Stmts, fuel: nat)
    requires Sees(env) && i < 4 && Entries()[i].key == Token(Int32, to)
    requires j < 4 && Entries()[j].key == Token(Int32, from)
    ensures ExecList(Machine32(), ConsStmt(ExprStmt(Copy(to, from)), rest), env, st, fuel) ==
            ExecList(Machine32(), rest, env, st.(mem := st.mem[Address(i, 0) := Get(st.mem, Address(j, 0))]), fuel)
  {
    hide Eval;
    Copies(env, st, to, i, from, j);
  }

  lemma ShiftRuns(env: Env, x: int, s: int, t: int, u: int, fuel: nat)
    requires Sees(env)
    ensures ExecList(Machine32(), Shift(), env, Cells4(x, s, t, u), fuel) == Normal(Cells4(s, t, u, u))
  {
    hide ExecList;
    var st0, st1, st2 := Cells4(x, s, t, u), Cells4(s, s, t, u), Cells4(s, t, t, u);
    CopyRuns(env, st0, "x", 0, "s", 1, Shift().tail, fuel);
    assert st0.mem[Address(0, 0) := s] == st1.mem;
    CopyRuns(env, st1, "s", 1, "t", 2, Shift().tail.tail, fuel);
    assert st1.mem[Address(1, 0) := t] == st2.mem;
    CopyRuns(env, st2, "t", 2, "u", 3, NoStmts, fuel);
    assert st2.mem[Address(2, 0) := u] == Cells4(s, t, u, u).mem;
    NothingRuns(env, Cells4(s, t, u, u), fuel);
  }

  lemma NothingRuns(env: Env, st: State, fuel: nat)
    ensures ExecList(Machine32(), NoStmts, env, st, fuel) == Normal(st)
  {
  }

  /** One round. */
  lemma TestRuns(env: Env, x: int, s: int, t: int, u: int, fuel: nat)
    requires Sees(env)
    ensures var o := ExecTest(Machine32(), Shifting(), env, Cells4(x, s, t, u), fuel + 1);
            if s == 0 then o == Normal(Cells4(x, s, t, u))
            else o == ExecTest(Machine32(), Shifting(), env, Cells4(s, t, u, u), fuel)
  {
    hide Eval;
    Reads(Push(env), Cells4(x, s, t, u), "s", 1);
    ShiftRuns(Push(Push(env)), x, s, t, u, fuel);
  }

  lemma ProgramRuns(st: State, fuel: nat)
    ensures var env := AttributeEnv(Entries());
            var o := ExecTest(Machine32(), Shifting(), Push(env), st, fuel);
            o.Normal? ==> Exec(Machine32(), Block(Program()), env, st, fuel) == o
  {
    hide ExecTest, AttributeScope;
    var env1 := Push(AttributeEnv(Entries()));
    var o := ExecTest(Machine32(), Shifting(), env1, st, fuel);
    LoopIsTest(env1, st, fuel);
    if o.Normal? {
      assert ExecList(Machine32(), NoStmts, Semantics.After(Shifting(), env1), o.st, fuel) == Normal(o.st);
      assert ExecList(Machine32(), Program(), env1, st, fuel) == o;
    }
  }

  lemma LoopIsTest(env: Env, st: State, fuel: nat)
    ensures Shifting().Loop?
    ensures Exec(Machine32(), Shifting(), env, st, fuel) == ExecTest(Machine32(), Shifting(), env, st, fuel)
  {
    hide ExecTest;
  }

  /** The first run goes round once, the second one twice. */
  lemma Rounds()
    ensures var env := AttributeEnv(Entries());
            && Exec(Machine32(), Block(Program()), env, Cells4(0, 1, 0, 0), 3) == Normal(Cells4(1, 0, 0, 0))
            && Exec(Machine32(), Block(Program()), env, Cells4(0, 1, 2, 0), 3) == Normal(Cells4(2, 0, 0, 0))
  {
    hide Exec, ExecTest, AttributeScope, Cells4;
    var env := Push(AttributeEnv(Entries()));
    ProgramRuns(Cells4(0, 1, 0, 0), 3);
    ProgramRuns(Cells4(0, 1, 2, 0), 3);
    TestRuns(env, 0, 1, 0, 0, 2);
    TestRuns(env, 1, 0, 0, 0, 1);
    TestRuns(env, 0, 1, 2, 0, 2);
    TestRuns(env, 1, 2, 0, 0, 1);
    TestRuns(env, 2, 0, 0, 0, 0);
  }

  lemma ProgramIsSimple()
    ensures SimpleStmts(Program()) && PureCalls(Machine32().ops)
  {
  }

  /** Two runs that agree on the attribute and on all that is listed for it, and end with different values of it. */
  lemma ListedIsNotEnough()
    ensures var a, b := Cells4(0, 1, 0, 0), Cells4(0, 1, 2, 0);
            var x := Exec(Machine32(), Block(Program()), AttributeEnv(Entries()), a, 3);
            var y := Exec(Machine32(), Block(Program()), AttributeEnv(Entries()), b, 3);
            && SimpleStmts(Program()) && PureCalls(Machine32().ops) && Distinct(Entries()) && |Entries()| == 4
            && AgreeOnDependencies(Program(), Entries(), 0, a.mem, b.mem)
            && x == Normal(Cells4(1, 0, 0, 0)) && y == Normal(Cells4(2, 0, 0, 0))
            && !SameSlot(x.st.mem, y.st.mem, 0)
  {
    hide Exec, TokenDependsOn, TreeOf, AttributeScope, SimpleStmts, PureCalls, Distinct;
    EntriesDistinct();
    NotListed();
    ProgramIsSimple();
    Rounds();
    var x := Cells4(1, 0, 0, 0).mem;
    assert Get(x, Address(0, 0)) == 1 && Get(Cells4(2, 0, 0, 0).mem, Address(0, 0)) == 2;
  }
}
