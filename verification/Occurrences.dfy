/**
The syntax tree as the scanners see it: nodes with children and a parent relation derived from them.
A variable node is identified by its position among all variable nodes, in the order of the dependency
visitor (for loops: initial statement, condition, iteration, body).
*/
module Occurrences {
  import opened Types
  import opened Semantics

  /** The key of an attribute. */
  type TokenKey = k: Key | k.Token? witness Token(Void, "")

  /** What a variable node refers to. */
  datatype VarName = Attr(token: TokenKey) | Loc(name: string) | Ext(name: string)

  datatype Kind =
    | Variable(v: VarName)
    | CrementNode
    | AssignNode(compound: bool)
    | DeclareNode
    | CallNode
    | ConditionalNode
    | TernaryNode
    | LoopNode(condition: nat, testsLast: bool)
    | CommaNode
    | OtherNode

  /** A node and its children. An assignment has its target first, a declaration its variable first, a
      conditional and a ternary their condition first; a loop says which child its condition is,
      and whether it is a do-while loop. */
  datatype Node = Node(kind: Kind, children: Nodes)

  datatype Nodes = NoNodes | MoreNodes(head: Node, tail: Nodes)

  function Size(ns: Nodes): nat {
    match ns
    case NoNodes => 0
    case MoreNodes(_, rest) => 1 + Size(rest)
  }

  function Child(ns: Nodes, i: nat): Node
    requires i < Size(ns)
  {
    if i == 0 then ns.head else Child(ns.tail, i - 1)
  }

  /** The variable nodes of a tree, in order. */
  function Variables(n: Node): seq<VarName> {
    if n.kind.Variable? then [n.kind.v] else VariablesOf(n.children)
  }

  function VariablesOf(ns: Nodes): seq<VarName> {
    match ns
    case NoNodes => []
    case MoreNodes(n, rest) => Variables(n) + VariablesOf(rest)
  }

  /** One step of the way up from a variable: the parent, which of its children was left, and the
      position of the parent's first variable. */
  datatype Link = Link(parent: Node, child: nat, first: nat)

  /** The way up from variable i of a tree whose first variable has position `first`, innermost first. */
  function Climb(n: Node, i: nat, first: nat): (up: seq<Link>)
    requires i < |Variables(n)|
    decreases n, 1
  {
    if n.kind.Variable? then [] else ClimbFrom(n, n.children, 0, i, first, first)
  }

  /** The same, when variable i is looked for in the children from number `child` on, the first of whose
      variables has position `here`. */
  function ClimbFrom(n: Node, ns: Nodes, child: nat, i: nat, first: nat, here: nat): (up: seq<Link>)
    requires i < |VariablesOf(ns)|
    decreases ns, 0
  {
    var k := |Variables(ns.head)|;
    if i < k then Climb(ns.head, i, here) + [Link(n, child, first)]
    else ClimbFrom(n, ns.tail, child + 1, i - k, first, here + k)
  }

  /** The positions of the variables of one child. */
  function ChildStart(ns: Nodes, i: nat): nat
    requires i <= Size(ns)
  {
    if i == 0 then 0 else |Variables(ns.head)| + ChildStart(ns.tail, i - 1)
  }

  lemma {:induction false} ChildFits(ns: Nodes, i: nat)
    requires i < Size(ns)
    ensures ChildStart(ns, i) + |Variables(Child(ns, i))| <= |VariablesOf(ns)|
  {
    if i > 0 { ChildFits(ns.tail, i - 1); }
  }

  /** Every link of a way up points at variables of the tree. */
  ghost predicate LinkFits(l: Link, first: nat, count: nat) {
    && !l.parent.kind.Variable? && l.child < Size(l.parent.children)
    && first <= l.first && l.first + |Variables(l.parent)| <= first + count
  }

  lemma {:induction false} ClimbFits(n: Node, i: nat, first: nat)
    requires i < |Variables(n)|
    ensures forall l | l in Climb(n, i, first) :: LinkFits(l, first, |Variables(n)|)
    decreases n, 1
  {
    if !n.kind.Variable? { ClimbFromFits(n, n.children, 0, i, first, first); }
  }

  lemma {:induction false} ClimbFromFits(n: Node, ns: Nodes, child: nat, i: nat, first: nat, here: nat)
    requires i < |VariablesOf(ns)| && !n.kind.Variable? && first <= here
    requires child + Size(ns) == Size(n.children) && here + |VariablesOf(ns)| == first + |Variables(n)|
    ensures forall l | l in ClimbFrom(n, ns, child, i, first, here) :: LinkFits(l, first, |Variables(n)|)
    decreases ns, 0
  {
    var k := |Variables(ns.head)|;
    if i < k {
      ClimbFits(ns.head, i, here);
    } else {
      ClimbFromFits(n, ns.tail, child + 1, i - k, first, here + k);
    }
  }
}
