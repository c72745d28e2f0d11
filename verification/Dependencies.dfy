/**
The dependencies of a variable: every variable node that can influence its value at its position,
found by climbing from each earlier use of it and recursing with a list of what has been seen. The
recursion ends on every tree, lists nothing twice, and finds the least set that is closed under the
one-step relation.
*/
module Dependencies {
  import opened Types
  import opened Semantics
  import opened Occurrences
  import opened Catalogue

  // ---------------------------------------------------------------------------------------
  // The one-step relation

  predicate SameVariable(v: VarName, w: VarName) {
    !v.Ext? && v == w
  }

  /** The uses of the variable at position v, up to and including v. External variables have none. */
  function UsesUpTo(root: Node, v: nat, n: nat): (us: seq<nat>)
    requires v < |Variables(root)| && n <= v + 1
    ensures forall u: nat :: u in us <==> u < n && SameVariable(Variables(root)[v], Variables(root)[u])
  {
    if n == 0 then []
    else
      UsesUpTo(root, v, n - 1) +
      if SameVariable(Variables(root)[v], Variables(root)[n - 1]) then [n - 1] else []
  }

  function Usage(root: Node, v: nat): (us: seq<nat>)
    requires v < |Variables(root)|
  {
    UsesUpTo(root, v, v + 1)
  }

  /** The variables under a node: its attributes, then its locals, then its external variables. */
  function Collected(n: Node, first: nat): (ps: seq<nat>)
    ensures forall p: nat :: p in ps <==> first <= p < first + |Variables(n)|
  {
    var vs := Variables(n);
    KindPositions(vs, AttrKind, |vs|, first) + KindPositions(vs, LocKind, |vs|, first) +
      KindPositions(vs, ExtKind, |vs|, first)
  }

  datatype VarKind = AttrKind | LocKind | ExtKind

  function KindOf(v: VarName): VarKind {
    match v
    case Attr(_) => AttrKind
    case Loc(_) => LocKind
    case Ext(_) => ExtKind
  }

  function KindPositions(vs: seq<VarName>, k: VarKind, n: nat, first: nat): (ps: seq<nat>)
    requires n <= |vs|
    ensures forall p: nat :: p in ps <==> first <= p < first + n && KindOf(vs[p - first]) == k
  {
    if n == 0 then []
    else KindPositions(vs, k, n - 1, first) + if KindOf(vs[n - 1]) == k then [first + n - 1] else []
  }

  /** The variables under child i of the parent of a link. */
  function Under(l: Link, i: nat): seq<nat> {
    if i < Size(l.parent.children) then
      Collected(Child(l.parent.children, i), l.first + ChildStart(l.parent.children, i))
    else []
  }

  /** The variables that decide whether a loop goes on: of a comma expression, those of its last element. */
  function LoopVariables(l: Link, condition: nat): seq<nat> {
    if condition >= Size(l.parent.children) then []
    else
      var c := Child(l.parent.children, condition);
      var first := l.first + ChildStart(l.parent.children, condition);
      if !c.kind.CommaNode? then Collected(c, first)
      else if Size(c.children) == 0 then []
      else
        var last := Size(c.children) - 1;
        Collected(Child(c.children, last), first + ChildStart(c.children, last))
  }

  /** The variables one step of a way up contributes; `written` tells whether the use has been found to
      be written so far, this step included. Conditions count only for uses that are written. */
  function Contributes(l: Link, written: bool): seq<nat> {
    match l.parent.kind
    case ConditionalNode => if l.child != 0 && written then Under(l, 0) else []
    case TernaryNode => if l.child != 0 && written then Under(l, 0) else []
    case LoopNode(c, _) => if l.child != c && written then LoopVariables(l, c) else []
    case AssignNode(_) => if l.child == 0 then Under(l, 1) else []
    case DeclareNode => if l.child == 0 then Under(l, 1) else []
    case CallNode => Collected(l.parent, l.first)
    case _ => []
  }

  /** A use that is changed in place depends on itself. */
  predicate OnItself(l: Link) {
    match l.parent.kind
    case CrementNode => true
    case AssignNode(compound) => compound && l.child == 0
    case _ => false
  }

  function Elements(s: seq<nat>): set<nat> {
    set x | x in s
  }

  /** What one use contributes on the rest of its way up. */
  function FromUse(u: nat, up: seq<Link>, written: bool): set<nat> {
    if |up| == 0 then {}
    else
      var now := written || WritesAt(up[0]);
      (if OnItself(up[0]) then {u} else {}) + Elements(Contributes(up[0], now)) + FromUse(u, up[1..], now)
  }

  function DirectOfUse(root: Node, u: nat): set<nat> {
    if u < |Variables(root)| then FromUse(u, Climb(root, u, 0), false) else {}
  }

  /** The one-step relation: the contributions of all uses of a variable up to its position. */
  function Direct(root: Node, v: nat): set<nat> {
    if v < |Variables(root)| then DirectOfAll(root, Usage(root, v)) else {}
  }

  function DirectOfAll(root: Node, us: seq<nat>): set<nat> {
    if |us| == 0 then {}
    else DirectOfAll(root, us[..|us| - 1]) + DirectOfUse(root, us[|us| - 1])
  }

  lemma {:induction false} DirectOfAllAre(root: Node, us: seq<nat>)
    ensures forall d :: d in DirectOfAll(root, us) <==> exists u :: u in us && d in DirectOfUse(root, u)
  {
    if |us| > 0 {
      DirectOfAllAre(root, us[..|us| - 1]);
      assert us == us[..|us| - 1] + [us[|us| - 1]];
    }
  }

  /** An earlier use of the same variable depends on no more. */
  lemma EarlierUse(root: Node, v: nat, u: nat)
    requires v < |Variables(root)| && u in Usage(root, v)
    ensures Direct(root, u) <= Direct(root, v)
  {
    hide DirectOfUse;
    DirectOfAllAre(root, Usage(root, v));
    DirectOfAllAre(root, Usage(root, u));
    assert forall w | w in Usage(root, u) :: w in Usage(root, v);
  }

  // ---------------------------------------------------------------------------------------
  // The relation, written out

  /** Position d lies under child i of the parent of a link. */
  predicate IsUnder(l: Link, i: nat, d: nat) {
    i < Size(l.parent.children) &&
    var start := l.first + ChildStart(l.parent.children, i);
    start <= d < start + |Variables(Child(l.parent.children, i))|
  }

  /** Position d lies under child i, or under the last element of child i if that is a comma expression. */
  predicate IsTested(l: Link, i: nat, d: nat) {
    i < Size(l.parent.children) &&
    var c := Child(l.parent.children, i);
    var start := l.first + ChildStart(l.parent.children, i);
    if c.kind.CommaNode? then
      Size(c.children) > 0 &&
      var last := start + ChildStart(c.children, Size(c.children) - 1);
      last <= d < last + |Variables(Child(c.children, Size(c.children) - 1))|
    else start <= d < start + |Variables(c)|
  }

  /** What one step of the way up from a use says: a variable that is changed in place depends on itself, a target on
      its source, an argument on the whole call; and a use that is written depends on the condition of a conditional,
      a ternary or a loop of which it is not in the condition itself. */
  predicate Says(u: nat, l: Link, written: bool, d: nat) {
    match l.parent.kind
    case CrementNode => d == u
    case AssignNode(compound) => l.child == 0 && ((compound && d == u) || IsUnder(l, 1, d))
    case DeclareNode => l.child == 0 && IsUnder(l, 1, d)
    case CallNode => l.first <= d < l.first + |Variables(l.parent)|
    case ConditionalNode => l.child != 0 && written && IsUnder(l, 0, d)
    case TernaryNode => l.child != 0 && written && IsUnder(l, 0, d)
    case LoopNode(c, _) => l.child != c && written && IsTested(l, c, d)
    case _ => false
  }

  /** Step k says so, the use being written at this step or below. */
  ghost predicate Influences(u: nat, up: seq<Link>, k: nat, d: nat)
    requires k < |up|
  {
    Says(u, up[k], exists j :: 0 <= j <= k && WritesAt(up[j]), d)
  }

  lemma OneStep(u: nat, l: Link, written: bool, d: nat)
    ensures (OnItself(l) && d == u) || d in Contributes(l, written) <==> Says(u, l, written, d)
  {
  }

  lemma {:induction false} FromUseIs(u: nat, up: seq<Link>, k: nat, written: bool, d: nat)
    requires k <= |up| && (written <==> exists j :: 0 <= j < k && WritesAt(up[j]))
    ensures d in FromUse(u, up[k..], written) <==> exists i :: k <= i < |up| && Influences(u, up, i, d)
    decreases |up| - k
  {
    hide WritesAt, OnItself, Contributes, Says;
    if k < |up| {
      var now := written || WritesAt(up[k]);
      assert now <==> exists j :: 0 <= j < k + 1 && WritesAt(up[j]) by {
        if WritesAt(up[k]) {}
      }
      FromUseIs(u, up, k + 1, now, d);
      OneStep(u, up[k], now, d);
      assert up[k..][1..] == up[k + 1..];
      assert Influences(u, up, k, d) <==> (OnItself(up[k]) && d == u) || d in Contributes(up[k], now);
      assert d in Elements(Contributes(up[k], now)) <==> d in Contributes(up[k], now);
    }
  }

  /** Some step of the way up from use u says that it depends on d. */
  ghost predicate Influenced(root: Node, u: nat, d: nat)
    requires u < |Variables(root)|
  {
    var up := Climb(root, u, 0);
    exists k: nat :: k < |up| && Influences(u, up, k, d)
  }

  lemma UseExactly(root: Node, u: nat, d: nat)
    requires u < |Variables(root)|
    ensures d in DirectOfUse(root, u) <==> Influenced(root, u, d)
  {
    hide FromUse, Influences;
    var up := Climb(root, u, 0);
    assert up[0..] == up;
    FromUseIs(u, up, 0, false, d);
    if d in FromUse(u, up[0..], false) {
      var k :| 0 <= k < |up| && Influences(u, up, k, d);
      assert Influenced(root, u, d);
    }
  }

  /** A variable directly depends on exactly what the uses of it, up to its position, depend on. */
  lemma DirectExactly(root: Node, v: nat, d: nat)
    requires v < |Variables(root)|
    ensures d in Direct(root, v) <==>
              exists u: nat :: u <= v && !Variables(root)[v].Ext? && Variables(root)[u] == Variables(root)[v] &&
                               Influenced(root, u, d)
  {
    hide DirectOfUse, Influenced;
    DirectOfAllAre(root, Usage(root, v));
    forall u: nat | u < |Variables(root)| ensures d in DirectOfUse(root, u) <==> Influenced(root, u, d) {
      UseExactly(root, u, d);
    }
  }

  /** A use that is written in a loop, outside the condition, depends on the variables of the condition; and what a
      use in the condition, or one that is not written, depends on comes from another step. */
  lemma LoopDecides(root: Node, u: nat, k: nat, d: nat)
    requires u < |Variables(root)| && k < |Climb(root, u, 0)| && !Variables(root)[u].Ext?
    requires Climb(root, u, 0)[k].parent.kind.LoopNode?
    ensures var up := Climb(root, u, 0);
            var l := up[k];
            var c := l.parent.kind.condition;
            if l.child != c && (exists j :: 0 <= j <= k && WritesAt(up[j])) then
              IsTested(l, c, d) ==> d in Direct(root, u)
            else !Influences(u, up, k, d)
  {
    hide Direct, IsTested;
    if Influences(u, Climb(root, u, 0), k, d) {
      assert Influenced(root, u, d);
      DirectExactly(root, u, d);
    }
  }

  /** A set that contains what each of its members depends on. */
  ghost predicate Closed(root: Node, s: set<nat>) {
    forall d | d in s :: Direct(root, d) <= s
  }

  /** Contributions are variables of the tree. */
  lemma ContributesFits(l: Link, written: bool, count: nat)
    requires LinkFits(l, 0, count)
    ensures forall p | p in Contributes(l, written) :: p < count
  {
    hide Collected;
    forall i: nat | i < Size(l.parent.children)
      ensures ChildStart(l.parent.children, i) + |Variables(Child(l.parent.children, i))| <= |Variables(l.parent)|
    {
      ChildFits(l.parent.children, i);
    }
    forall n: Node, first: nat, p | p in Collected(n, first) ensures first <= p < first + |Variables(n)| {
    }
    if l.parent.kind.LoopNode? && l.parent.kind.condition < Size(l.parent.children) {
      var c := Child(l.parent.children, l.parent.kind.condition);
      if c.kind.CommaNode? && Size(c.children) > 0 { ChildFits(c.children, Size(c.children) - 1); }
    }
  }

  // ---------------------------------------------------------------------------------------
  // The scanner

  lemma {:induction false} AtMost(s: seq<nat>, n: nat)
    requires NoRepeats(s) && forall x | x in s :: x < n
    ensures |s| <= n
  {
    SubsetSize(Elements(s), Initial(n));
    ElementsSize(s);
  }

  ghost function Initial(n: nat): (s: set<nat>)
    ensures |s| == n && forall x: nat :: x in s <==> x < n
  {
    if n == 0 then {} else Initial(n - 1) + {n - 1}
  }

  lemma {:induction false} SubsetSize(a: set<nat>, b: set<nat>)
    requires a <= b
    ensures |a| <= |b|
  {
    if a != {} {
      var x :| x in a;
      SubsetSize(a - {x}, b - {x});
    }
  }

  lemma {:induction false} ElementsSize(s: seq<nat>)
    requires NoRepeats(s)
    ensures |Elements(s)| == |s|
  {
    if |s| > 0 {
      var n := |s| - 1;
      ElementsSize(s[..n]);
      assert Elements(s) == Elements(s[..n]) + {s[n]};
      assert s[n] !in s[..n];
    }
  }

  /** Everything listed since then has its own dependencies listed, except perhaps these uses. */
  ghost predicate ClosedSince(root: Node, was: set<nat>, now: set<nat>, but: set<nat>) {
    forall d | d in now && d !in was && d !in but :: Direct(root, d) <= now
  }

  /** Nothing has been listed that a closed set holding `was` and `direct` could do without. */
  ghost predicate Least(root: Node, was: set<nat>, now: set<nat>, direct: set<nat>) {
    forall c | Closed(root, c) && was <= c && direct <= c :: now <= c
  }

  lemma ClosedOn(root: Node, was: set<nat>, mid: set<nat>, now: set<nat>, but: set<nat>, also: set<nat>)
    requires ClosedSince(root, was, mid, but) && ClosedSince(root, mid, now, also) && was <= mid <= now
    ensures ClosedSince(root, was, now, but + also)
  {
    hide Direct;
  }

  lemma LeastOn(root: Node, was: set<nat>, mid: set<nat>, now: set<nat>, d1: set<nat>, d2: set<nat>, direct: set<nat>)
    requires Least(root, was, mid, d1) && Least(root, mid, now, d2) && d1 <= direct && d2 <= direct
    ensures Least(root, was, now, direct)
  {
    hide Closed;
  }

  /** Adding one variable that is asked for, whose own dependencies are listed next. */
  lemma LeastVia(root: Node, was: set<nat>, dep: nat, now: set<nat>, direct: set<nat>)
    requires Least(root, was + {dep}, now, Direct(root, dep)) && dep in direct
    ensures Least(root, was, now, direct)
  {
    hide Direct;
    forall c | Closed(root, c) && was <= c && direct <= c ensures now <= c {
      assert dep in c && Direct(root, dep) <= c;
    }
  }

  class DependencyScanner {
    const root: Node
    var dependencies: seq<nat>

    ghost predicate Valid()
      reads this
    {
      NoRepeats(dependencies) && forall d | d in dependencies :: d < |Variables(root)|
    }

    /** What has been listed so far. */
    ghost function Listed(): set<nat>
      reads this
    {
      Elements(dependencies)
    }

    /** How many variables have not been listed yet. */
    ghost function Left(): (n: nat)
      requires Valid()
      reads this
    {
      AtMost(dependencies, |Variables(root)|);
      |Variables(root)| - |dependencies|
    }

    constructor (root: Node)
      ensures this.root == root && dependencies == [] && Valid()
    {
      this.root := root;
      dependencies := [];
    }

    method Add(dep: nat)
      requires Valid() && dep < |Variables(root)| && dep !in dependencies
      modifies this
      ensures Valid() && dependencies == old(dependencies) + [dep]
      ensures Left() == old(Left()) - 1 && Listed() == old(Listed()) + {dep}
    {
      dependencies := dependencies + [dep];
    }

    /** List everything the variable at a position depends on. */
    method VariableDependencies(v: nat)
      requires Valid() && v < |Variables(root)|
      modifies this
      ensures Valid() && old(Listed()) <= Listed() && Left() <= old(Left())
      ensures Direct(root, v) <= Listed()
      ensures ClosedSince(root, old(Listed()), Listed(), {})
      ensures Least(root, old(Listed()), Listed(), Direct(root, v))
      decreases Left(), 3
    {
      hide Direct, DirectOfUse, DirectOfAll, Closed, ClosedSince, Least;
      var usage := Usage(root, v);
      ghost var was := Listed();
      DirectIs(root, v);
      NothingYet(root, was);
      var i := 0;
      while i < |usage|
        invariant i <= |usage| && Valid() && was <= Listed() && Left() <= old(Left())
        invariant DirectOfAll(root, usage[..i]) <= Listed() && DirectOfAll(root, usage[..i]) <= Direct(root, v)
        invariant ClosedSince(root, was, Listed(), Elements(usage))
        invariant Least(root, was, Listed(), Direct(root, v))
      {
        ghost var mid := Listed();
        DirectOn(root, v, i);
        ResolveUse(usage[i]);
        ClosedOn(root, was, mid, Listed(), Elements(usage), {usage[i]});
        assert usage[i] in usage;
        assert Elements(usage) + {usage[i]} == Elements(usage);
        LeastOn(root, was, mid, Listed(), Direct(root, v), DirectOfUse(root, usage[i]), Direct(root, v));
        i := i + 1;
      }
      assert usage[..|usage|] == usage;
      UsesClosed(root, v, was, Listed());
    }

    /** List what one use contributes, climbing from it to the root. */
    method ResolveUse(use: nat)
      requires Valid() && use < |Variables(root)|
      modifies this
      ensures Valid() && old(Listed()) <= Listed() && Left() <= old(Left())
      ensures DirectOfUse(root, use) <= Listed()
      ensures ClosedSince(root, old(Listed()), Listed(), {use})
      ensures Least(root, old(Listed()), Listed(), DirectOfUse(root, use))
      decreases Left(), 2
    {
      hide Direct, Contributes, WritesAt, OnItself, Closed, ClosedSince, Least;
      var up := Climb(root, use, 0);
      ClimbFits(root, use, 0);
      ghost var was := Listed();
      ghost var direct := DirectOfUse(root, use);
      NothingYet(root, was);
      var written := false;
      var k := 0;
      assert up[0..] == up;
      while k < |up|
        invariant k <= |up| && Valid() && was <= Listed() && Left() <= old(Left())
        invariant FromUse(use, up[k..], written) <= direct <= Listed() + FromUse(use, up[k..], written)
        invariant ClosedSince(root, was, Listed(), {use})
        invariant Least(root, was, Listed(), direct)
      {
        var l := up[k];
        assert l in up;
        assert up[k..][1..] == up[k + 1..];
        ghost var rest := FromUse(use, up[k..], written);
        written := written || WritesAt(l);
        ContributesFits(l, written, |Variables(root)|);
        ghost var start := Listed();
        if OnItself(l) && use !in dependencies {
          Add(use);
        }
        ghost var mid := Listed();
        UseListed(root, start, mid, use, direct);
        LeastOn(root, was, start, mid, direct, direct, direct);
        ClosedOn(root, was, start, mid, {use}, {use});
        AddAll(Contributes(l, written));
        LeastOn(root, was, mid, Listed(), direct, Elements(Contributes(l, written)), direct);
        ClosedOn(root, was, mid, Listed(), {use} + {use}, {});
        assert {use} + {use} + {} == {use};
        k := k + 1;
      }
      assert FromUse(use, up[|up|..], written) == {};
    }

    /** List these variables and everything they depend on, except those already listed. */
    method AddAll(vars: seq<nat>)
      requires Valid() && forall d | d in vars :: d < |Variables(root)|
      modifies this
      ensures Valid() && old(Listed()) <= Listed() && Left() <= old(Left())
      ensures Elements(vars) <= Listed()
      ensures ClosedSince(root, old(Listed()), Listed(), {})
      ensures Least(root, old(Listed()), Listed(), Elements(vars))
      decreases Left(), 1
    {
      hide Direct, Closed, ClosedSince, Least;
      ghost var was := Listed();
      NothingYet(root, was);
      var i := 0;
      while i < |vars|
        invariant i <= |vars| && Valid() && was <= Listed() && Left() <= old(Left())
        invariant Elements(vars[..i]) <= Listed()
        invariant ClosedSince(root, was, Listed(), {})
        invariant Least(root, was, Listed(), Elements(vars))
      {
        var dep := vars[i];
        ghost var mid := Listed();
        assert dep in vars;
        assert Elements(vars[..i + 1]) == Elements(vars[..i]) + {dep};
        if dep !in dependencies {
          Add(dep);
          VariableDependencies(dep);
          DepClosed(root, mid, dep, Listed());
          LeastVia(root, mid, dep, Listed(), Elements(vars));
          LeastOn(root, was, mid, Listed(), Elements(vars), Elements(vars), Elements(vars));
          ghost var none: set<nat> := {};
          ClosedOn(root, was, mid, Listed(), none, none);
          assert none + none == none;
        }
        i := i + 1;
      }
      assert vars[..|vars|] == vars;
    }
  }

  /** From an empty list, the scanner finds the least closed set that holds what the variable directly
      depends on, and lists nothing twice. */
  method FindDependencies(root: Node, v: nat) returns (dependencies: seq<nat>)
    requires v < |Variables(root)|
    ensures NoRepeats(dependencies)
    ensures Direct(root, v) <= Elements(dependencies) && Closed(root, Elements(dependencies))
    ensures forall c | Closed(root, c) && Direct(root, v) <= c :: Elements(dependencies) <= c
  {
    hide Direct;
    var scanner := new DependencyScanner(root);
    scanner.VariableDependencies(v);
    dependencies := scanner.dependencies;
  }

  lemma NothingYet(root: Node, was: set<nat>)
    ensures forall but :: ClosedSince(root, was, was, but)
    ensures forall direct :: Least(root, was, was, direct)
  {
  }

  lemma DirectIs(root: Node, v: nat)
    requires v < |Variables(root)|
    ensures Direct(root, v) == DirectOfAll(root, Usage(root, v)) && DirectOfAll(root, []) == {}
  {
  }

  lemma DirectOn(root: Node, v: nat, i: nat)
    requires v < |Variables(root)| && i < |Usage(root, v)|
    ensures var usage := Usage(root, v);
            && usage[i] < |Variables(root)|
            && DirectOfAll(root, usage[..i + 1]) == DirectOfAll(root, usage[..i]) + DirectOfUse(root, usage[i])
            && DirectOfUse(root, usage[i]) <= Direct(root, v)
  {
    hide DirectOfUse;
    var usage := Usage(root, v);
    assert usage[..i + 1][..i] == usage[..i];
    assert usage[i] in usage;
    DirectOfAllAre(root, usage);
  }

  /** A use listed without recursion has its dependencies listed with those of the variable. */
  lemma UsesClosed(root: Node, v: nat, was: set<nat>, now: set<nat>)
    requires v < |Variables(root)| && Direct(root, v) <= now && ClosedSince(root, was, now, Elements(Usage(root, v)))
    ensures ClosedSince(root, was, now, {})
  {
    hide Direct, Usage;
    forall d | d in now && d !in was ensures Direct(root, d) <= now {
      if d in Usage(root, v) { EarlierUse(root, v, d); }
    }
  }

  lemma UseListed(root: Node, start: set<nat>, mid: set<nat>, use: nat, direct: set<nat>)
    requires mid == start || (mid == start + {use} && use in direct)
    ensures ClosedSince(root, start, mid, {use}) && Least(root, start, mid, direct)
  {
    hide Direct, Closed;
  }

  lemma DepClosed(root: Node, mid: set<nat>, dep: nat, now: set<nat>)
    requires ClosedSince(root, mid + {dep}, now, {}) && Direct(root, dep) <= now
    ensures ClosedSince(root, mid, now, {})
  {
    hide Direct;
  }
}
