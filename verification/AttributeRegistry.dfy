/**
The attribute registry: how every attribute of a program is accessed, which attributes it depends on,
and which depend on it.
*/
module AttributeRegistries {
  import opened Types
  import opened Semantics
  import opened Occurrences
  import opened Catalogue
  import opened Dependencies

  // ---------------------------------------------------------------------------------------
  // The last use of an attribute

  /** The last use of a variable: children are searched backwards, except that the condition of a do-while
      loop comes after its body. */
  function LastUse(n: Node, v: VarName, first: nat): (u: Option<nat>)
    decreases n, 1
  {
    if n.kind.Variable? then (if n.kind.v == v then Some(first) else None)
    else LastUseIn(n.children, v, first, n.kind.LoopNode? && n.kind.testsLast)
  }

  function LastUseIn(ns: Nodes, v: VarName, first: nat, forwards: bool): (u: Option<nat>)
    decreases ns, 0
  {
    match ns
    case NoNodes => None
    case MoreNodes(n, rest) =>
      var here := LastUse(n, v, first);
      var there := LastUseIn(rest, v, first + |Variables(n)|, forwards);
      if forwards then (if here.Some? then here else there) else (if there.Some? then there else here)
  }

  /** It is a use, and there is none only when the variable does not occur. */
  lemma {:induction false} LastUseOccurs(n: Node, v: VarName, first: nat)
    ensures var u := LastUse(n, v, first);
            if u.Some? then first <= u.value < first + |Variables(n)| && Variables(n)[u.value - first] == v
            else v !in Variables(n)
    decreases n, 1
  {
    if !n.kind.Variable? { LastUseInOccurs(n.children, v, first, n.kind.LoopNode? && n.kind.testsLast); }
  }

  lemma {:induction false} LastUseInOccurs(ns: Nodes, v: VarName, first: nat, forwards: bool)
    ensures var u := LastUseIn(ns, v, first, forwards);
            if u.Some? then first <= u.value < first + |VariablesOf(ns)| && VariablesOf(ns)[u.value - first] == v
            else v !in VariablesOf(ns)
    decreases ns, 0
  {
    match ns
    case NoNodes =>
    case MoreNodes(n, rest) =>
      LastUseOccurs(n, v, first);
      LastUseInOccurs(rest, v, first + |Variables(n)|, forwards);
  }

  /** No do-while loops. */
  predicate NoDoWhile(n: Node)
    decreases n, 1
  {
    n.kind.Variable? || (!(n.kind.LoopNode? && n.kind.testsLast) && NoDoWhileIn(n.children))
  }

  predicate NoDoWhileIn(ns: Nodes)
    decreases ns, 0
  {
    match ns
    case NoNodes => true
    case MoreNodes(n, rest) => NoDoWhile(n) && NoDoWhileIn(rest)
  }

  /** Without do-while loops it is the use with the greatest position. */
  lemma {:induction false} LastUseIsLast(n: Node, v: VarName, first: nat, j: nat)
    requires NoDoWhile(n) && j < |Variables(n)| && Variables(n)[j] == v
    ensures var u := LastUse(n, v, first); u.Some? && first + j <= u.value
    decreases n, 1
  {
    if !n.kind.Variable? { LastUseInIsLast(n.children, v, first, j); }
  }

  lemma {:induction false} LastUseInIsLast(ns: Nodes, v: VarName, first: nat, j: nat)
    requires NoDoWhileIn(ns) && j < |VariablesOf(ns)| && VariablesOf(ns)[j] == v
    ensures var u := LastUseIn(ns, v, first, false); u.Some? && first + j <= u.value
    decreases ns, 0
  {
    var k := |Variables(ns.head)|;
    LastUseInOccurs(ns.tail, v, first + k, false);
    if j < k {
      LastUseIsLast(ns.head, v, first, j);
    } else {
      LastUseInIsLast(ns.tail, v, first + k, j - k);
    }
  }

  /** Two ways up part at a node, which is searched from its last child backwards, but a do-while loop from its
      condition, the first child, on: the first way leaves a child that is searched earlier. */
  ghost predicate SearchedBefore(a: seq<Link>, b: seq<Link>) {
    exists x, y :: x in a && y in b && x.parent == y.parent && x.first == y.first &&
      if x.parent.kind.LoopNode? && x.parent.kind.testsLast then x.child < y.child else x.child > y.child
  }

  /** The use that is found is searched before every other use. */
  lemma {:induction false} FoundFirst(n: Node, v: VarName, first: nat, j: nat)
    requires j < |Variables(n)| && Variables(n)[j] == v
    ensures var u := LastUse(n, v, first);
            && u.Some? && first <= u.value < first + |Variables(n)|
            && (u.value == first + j || SearchedBefore(Climb(n, u.value - first, first), Climb(n, j, first)))
    decreases n, 1
  {
    if !n.kind.Variable? {
      LastUseOccurs(n, v, first);
      FoundFirstIn(n, n.children, 0, v, first, first, j);
    }
  }

  lemma {:induction false} FoundFirstIn(n: Node, ns: Nodes, child: nat, v: VarName, first: nat, here: nat, j: nat)
    requires j < |VariablesOf(ns)| && VariablesOf(ns)[j] == v
    ensures var u := LastUseIn(ns, v, here, n.kind.LoopNode? && n.kind.testsLast);
            && u.Some? && here <= u.value < here + |VariablesOf(ns)|
            && (u.value == here + j || SearchedBefore(ClimbFrom(n, ns, child, u.value - here, first, here),
                                                      ClimbFrom(n, ns, child, j, first, here)))
    decreases ns, 0
  {
    hide SearchedBefore;
    var forwards := n.kind.LoopNode? && n.kind.testsLast;
    var k := |Variables(ns.head)|;
    LastUseInOccurs(ns, v, here, forwards);
    LastUseOccurs(ns.head, v, here);
    LastUseInOccurs(ns.tail, v, here + k, forwards);
    var i := LastUseIn(ns, v, here, forwards).value - here;
    if i < k && j < k {
      FoundFirst(ns.head, v, here, j);
      if i != j { BeforeDeeper(Climb(ns.head, i, here), Climb(ns.head, j, here), [Link(n, child, first)]); }
    } else if i >= k && j >= k {
      FoundFirstIn(n, ns.tail, child + 1, v, first, here + k, j - k);
    } else {
      var inHead, inTail := if i < k then i else j, if i < k then j else i;
      var y := LaterChild(n, ns.tail, child + 1, inTail - k, first, here + k);
      var x := Link(n, child, first);
      assert x in ClimbFrom(n, ns, child, inHead, first, here);
      if i < k {
        PartHere(ClimbFrom(n, ns, child, i, first, here), ClimbFrom(n, ns, child, j, first, here), x, y);
      } else {
        PartHere(ClimbFrom(n, ns, child, i, first, here), ClimbFrom(n, ns, child, j, first, here), y, x);
      }
    }
  }

  lemma PartHere(a: seq<Link>, b: seq<Link>, x: Link, y: Link)
    requires x in a && y in b && x.parent == y.parent && x.first == y.first
    requires if x.parent.kind.LoopNode? && x.parent.kind.testsLast then x.child < y.child else x.child > y.child
    ensures SearchedBefore(a, b)
  {
  }

  lemma BeforeDeeper(a: seq<Link>, b: seq<Link>, on: seq<Link>)
    requires SearchedBefore(a, b)
    ensures SearchedBefore(a + on, b + on)
  {
    var x, y :| x in a && y in b && x.parent == y.parent && x.first == y.first &&
      if x.parent.kind.LoopNode? && x.parent.kind.testsLast then x.child < y.child else x.child > y.child;
    PartHere(a + on, b + on, x, y);
  }

  lemma {:induction false} LaterChild(n: Node, ns: Nodes, child: nat, i: nat, first: nat, here: nat) returns (l: Link)
    requires i < |VariablesOf(ns)|
    ensures l in ClimbFrom(n, ns, child, i, first, here) && l.parent == n && l.first == first && l.child >= child
    decreases ns
  {
    var k := |Variables(ns.head)|;
    l := Link(n, child, first);
    if i >= k { l := LaterChild(n, ns.tail, child + 1, i - k, first, here + k); }
  }

  /** A do-while loop: a use in its condition is found before any in its body, which is searched as every other
      statement is. */
  lemma DoWhileUse(condition: Node, body: Node, v: VarName, first: nat)
    ensures LastUse(Node(LoopNode(0, true), MoreNodes(condition, MoreNodes(body, NoNodes))), v, first) ==
            if v in Variables(condition) then LastUse(condition, v, first)
            else LastUse(body, v, first + |Variables(condition)|)
  {
    var rest := MoreNodes(body, NoNodes);
    LastUseOccurs(condition, v, first);
    var next := first + |Variables(condition)|;
    assert LastUseIn(NoNodes, v, next + |Variables(body)|, true) == None;
    assert LastUseIn(rest, v, next, true) == LastUse(body, v, next);
  }

  /** The visitor that looks for the last use and stops at it. */
  class UseVisitor {
    const v: VarName
    var found: Option<nat>

    constructor (v: VarName)
      ensures this.v == v && found == None
    {
      this.v := v;
      found := None;
    }

    method Traverse(n: Node, first: nat) returns (goOn: bool)
      requires found == None
      modifies this
      ensures found == LastUse(n, v, first) && (goOn <==> found == None)
      decreases n, 2
    {
      goOn := true;
      if n.kind.Variable? {
        if n.kind.v == v {
          found := Some(first);
          goOn := false;
        }
      } else if n.kind.LoopNode? && n.kind.testsLast {
        goOn := Forwards(n.children, first);
      } else {
        goOn := Backwards(n.children, first);
      }
    }

    method Forwards(ns: Nodes, first: nat) returns (goOn: bool)
      requires found == None
      modifies this
      ensures found == LastUseIn(ns, v, first, true) && (goOn <==> found == None)
      decreases ns, 1
    {
      goOn := true;
      var rest: Nodes, here: nat := ns, first;
      while goOn && rest.MoreNodes?
        invariant rest == ns || rest < ns
        invariant goOn <==> found == None
        invariant goOn ==> LastUseIn(ns, v, first, true) == LastUseIn(rest, v, here, true)
        invariant !goOn ==> LastUseIn(ns, v, first, true) == found
        decreases rest, goOn
      {
        goOn := Traverse(rest.head, here);
        here := here + |Variables(rest.head)|;
        rest := rest.tail;
      }
    }

    method Backwards(ns: Nodes, first: nat) returns (goOn: bool)
      requires found == None
      modifies this
      ensures found == LastUseIn(ns, v, first, false) && (goOn <==> found == None)
      decreases ns, 1
    {
      goOn := true;
      if ns.MoreNodes? {
        goOn := Backwards(ns.tail, first + |Variables(ns.head)|);
        if goOn {
          goOn := Traverse(ns.head, first);
        }
      }
    }
  }

  // ---------------------------------------------------------------------------------------
  // The attributes an attribute depends on

  /** The variable at position d is in every closed set that holds what v directly depends on. */
  ghost predicate DependsOn(root: Node, v: nat, d: nat) {
    forall c | Closed(root, c) && Direct(root, v) <= c :: d in c
  }

  /** An attribute depends on another through the last use of it. */
  ghost predicate TokenDependsOn(root: Node, t: TokenKey, dep: TokenKey) {
    var last := LastUse(root, Attr(t), 0);
    last.Some? && exists d: nat ::
      d < |Variables(root)| && Variables(root)[d] == Attr(dep) && DependsOn(root, last.value, d)
  }

  method AttributeDependencyTokens(root: Node, t: TokenKey) returns (tokens: seq<TokenKey>)
    ensures NoRepeats(tokens)
    ensures forall dep :: dep in tokens <==> TokenDependsOn(root, t, dep)
  {
    hide Direct;
    var visitor := new UseVisitor(Attr(t));
    LastUseOccurs(root, Attr(t), 0);
    var goOn := visitor.Traverse(root, 0);
    tokens := [];
    if goOn {
      return;
    }
    var last := visitor.found.value;
    var deps := FindDependencies(root, last);
    var k := 0;
    while k < |deps|
      invariant k <= |deps| && NoRepeats(tokens)
      invariant forall dep: TokenKey :: dep in tokens <==>
                  exists i :: 0 <= i < k && deps[i] < |Variables(root)| && Variables(root)[deps[i]] == Attr(dep)
    {
      var d := deps[k];
      if d < |Variables(root)| && Variables(root)[d].Attr? && Variables(root)[d].token !in tokens {
        tokens := tokens + [Variables(root)[d].token];
      }
      k := k + 1;
    }
    DependenciesAre(root, last, deps);
    assert forall d: nat :: d in deps <==> exists i :: 0 <= i < |deps| && deps[i] == d;
  }

  lemma DependenciesAre(root: Node, v: nat, deps: seq<nat>)
    requires Direct(root, v) <= Elements(deps) && Closed(root, Elements(deps))
    requires forall c | Closed(root, c) && Direct(root, v) <= c :: Elements(deps) <= c
    ensures forall d: nat :: d in deps <==> DependsOn(root, v, d)
  {
    hide Direct, Closed;
    forall d: nat ensures d in deps <==> DependsOn(root, v, d) {
      if d in deps { assert d in Elements(deps); }
    }
  }

  // ---------------------------------------------------------------------------------------
  // The registry

  /** How an attribute is accessed; the entries that depend on it and those it depends on, by index. */
  datatype AccessData = AccessData(key: TokenKey, isRead: bool, isWritten: bool, uses: seq<nat>, deps: seq<nat>)

  /** The keys of a registry. */
  function Keys(accesses: seq<AccessData>): (ks: seq<TokenKey>)
    ensures |ks| == |accesses| && forall i | 0 <= i < |ks| :: ks[i] == accesses[i].key
  {
    seq(|accesses|, i requires 0 <= i < |accesses| => accesses[i].key)
  }

  /** The entries say exactly how the attributes of the program are accessed. */
  ghost predicate Describes(root: Node, accesses: seq<AccessData>) {
    && NoRepeats(Keys(accesses))
    && (forall t: TokenKey :: t in Keys(accesses) <==> TokenRead(root, t) || TokenWritten(root, t))
    && (forall i | 0 <= i < |accesses| ::
          accesses[i].isRead == TokenRead(root, accesses[i].key) &&
            accesses[i].isWritten == TokenWritten(root, accesses[i].key))
  }

  /** The entry at index i depends on exactly the entries the scanner names. */
  ghost predicate DepsAre(root: Node, accesses: seq<AccessData>, i: nat)
    requires i < |accesses|
  {
    && NoRepeats(accesses[i].deps)
    && (forall j | j in accesses[i].deps :: j < |accesses|)
    && forall j | 0 <= j < |accesses| :: j in accesses[i].deps <==>
      TokenDependsOn(root, accesses[i].key, accesses[j].key)
  }

  /** Uses are the exact converse of dependencies. */
  ghost predicate Converse(accesses: seq<AccessData>) {
    forall i, j | 0 <= i < |accesses| && 0 <= j < |accesses| :: j in accesses[i].uses <==> i in accesses[j].deps
  }

  /** The entries registered for some tokens. */
  function Entries(tokens: seq<TokenKey>, isRead: bool, isWritten: bool): (es: seq<AccessData>)
    ensures |es| == |tokens| && forall i | 0 <= i < |es| :: es[i] == AccessData(tokens[i], isRead, isWritten, [], [])
  {
    seq(|tokens|, i requires 0 <= i < |tokens| => AccessData(tokens[i], isRead, isWritten, [], []))
  }

  /** Every registered key is mapped to the index of its entry. */
  ghost predicate Indexed(indices: map<TokenKey, nat>, accesses: seq<AccessData>) {
    forall i | 0 <= i < |accesses| :: accesses[i].key in indices && indices[accesses[i].key] == i
  }

  class AttributeRegistry {
    var accesses: seq<AccessData>

    constructor Empty()
      ensures accesses == []
    {
      accesses := [];
    }

    method AddData(key: TokenKey, isRead: bool, isWritten: bool)
      modifies this
      ensures accesses == old(accesses) + [AccessData(key, isRead, isWritten, [], [])]
    {
      accesses := accesses + [AccessData(key, isRead, isWritten, [], [])];
    }

    /** Register all tokens of one list with the same flags, and remember their indices. */
    method BuildData(tokens: seq<TokenKey>, isRead: bool, isWritten: bool, was: map<TokenKey, nat>)
      returns (indices: map<TokenKey, nat>)
      requires Indexed(was, accesses) && NoRepeats(Keys(accesses) + tokens)
      modifies this
      ensures accesses == old(accesses) + Entries(tokens, isRead, isWritten)
      ensures Indexed(indices, accesses)
    {
      indices := was;
      var i := 0;
      while i < |tokens|
        invariant i <= |tokens| && accesses == old(accesses) + Entries(tokens[..i], isRead, isWritten)
        invariant Indexed(indices, accesses)
      {
        indices := indices[tokens[i] := |accesses|];
        assert tokens[..i + 1] == tokens[..i] + [tokens[i]];
        assert forall k | 0 <= k < |accesses| :: accesses[k].key == (Keys(old(accesses)) + tokens)[k];
        assert (Keys(old(accesses)) + tokens)[|accesses|] == tokens[i];
        AddData(tokens[i], isRead, isWritten);
        i := i + 1;
      }
      assert tokens[..i] == tokens;
    }

    /** Fill in the dependencies of the attributes of one list. */
    method BuildDeps(root: Node, tokens: seq<TokenKey>, indices: map<TokenKey, nat>)
      requires Indexed(indices, accesses) && Describes(root, accesses) && root.kind == OtherNode
      requires NoRepeats(tokens) && forall t | t in tokens :: t in Keys(accesses)
      requires forall i | 0 <= i < |accesses| && accesses[i].key in tokens :: accesses[i].deps == []
      modifies this
      ensures |accesses| == |old(accesses)| && Indexed(indices, accesses) && Describes(root, accesses)
      ensures forall i | 0 <= i < |accesses| ::
                if accesses[i].key in tokens
                then DepsAre(root, accesses, i) && accesses[i] == old(accesses)[i].(deps := accesses[i].deps)
                else accesses[i] == old(accesses)[i]
    {
      hide TokenRead, TokenWritten, TokenDependsOn;
      var k := 0;
      while k < |tokens|
        invariant k <= |tokens| && |accesses| == |old(accesses)|
        invariant Keys(accesses) == Keys(old(accesses))
        invariant forall i | 0 <= i < |accesses| ::
                    if accesses[i].key in tokens[..k]
                    then DepsAre(root, accesses, i) && accesses[i] == old(accesses)[i].(deps := accesses[i].deps)
                    else accesses[i] == old(accesses)[i]
      {
        var deps := AttributeDependencyTokens(root, tokens[k]);
        assert tokens[k] in tokens && tokens[k] !in tokens[..k];
        var index := indices[tokens[k]];
        DepsRegistered(root, accesses, tokens[k], deps);
        ghost var before := accesses;
        LinkDeps(index, deps, indices);
        DepsLinked(root, before, index, deps, accesses);
        assert tokens[..k + 1] == tokens[..k] + [tokens[k]];
        k := k + 1;
      }
      assert tokens[..k] == tokens;
      assert Keys(accesses) == Keys(old(accesses));
      StillDescribes(root, old(accesses), accesses);
    }

    /** Append the entries of some tokens to the dependencies of one entry. */
    method LinkDeps(index: nat, deps: seq<TokenKey>, indices: map<TokenKey, nat>)
      requires index < |accesses| && accesses[index].deps == [] && NoRepeats(deps) && NoRepeats(Keys(accesses))
      requires Indexed(indices, accesses) && forall t | t in deps :: t in Keys(accesses)
      modifies this
      ensures |accesses| == |old(accesses)| && Keys(accesses) == Keys(old(accesses))
      ensures accesses == old(accesses)[index := accesses[index]]
      ensures accesses[index] == old(accesses)[index].(deps := accesses[index].deps)
      ensures NoRepeats(accesses[index].deps) && (forall j | j in accesses[index].deps :: j < |accesses|)
      ensures forall j | 0 <= j < |accesses| :: j in accesses[index].deps <==> accesses[j].key in deps
    {
      var k := 0;
      while k < |deps|
        invariant k <= |deps| && |accesses| == |old(accesses)| && Keys(accesses) == Keys(old(accesses))
        invariant accesses == old(accesses)[index := accesses[index]]
        invariant accesses[index] == old(accesses)[index].(deps := accesses[index].deps)
        invariant NoRepeats(accesses[index].deps) && (forall j | j in accesses[index].deps :: j < |accesses|)
        invariant forall j | 0 <= j < |accesses| :: j in accesses[index].deps <==> accesses[j].key in deps[..k]
      {
        assert deps[k] in deps && deps[k] !in deps[..k];
        var depIndex := indices[deps[k]];
        assert Keys(accesses)[depIndex] == deps[k];
        accesses := accesses[index := accesses[index].(deps := accesses[index].deps + [depIndex])];
        assert deps[..k + 1] == deps[..k] + [deps[k]];
        k := k + 1;
      }
      assert deps[..k] == deps;
    }

    method DependsOnEntry(access: nat, on: nat) returns (found: bool)
      requires access < |accesses|
      ensures found <==> on in accesses[access].deps
    {
      var k := 0;
      var deps := accesses[access].deps;
      while k < |deps|
        invariant k <= |deps| && on !in deps[..k]
      {
        if deps[k] == on {
          return true;
        }
        k := k + 1;
      }
      found := false;
    }

    /** Whether an entry other than itself depends on this one. */
    method AffectsOthers(access: nat) returns (found: bool)
      requires access < |accesses|
      ensures found <==> exists j :: j in accesses[access].uses && j != access
    {
      var k := 0;
      var uses := accesses[access].uses;
      while k < |uses|
        invariant k <= |uses| && forall m | 0 <= m < k :: uses[m] == access
      {
        if uses[k] != access {
          assert uses[k] in uses;
          return true;
        }
        k := k + 1;
      }
      found := false;
    }

    /** Fill in the uses from the dependencies. */
    method BuildUses()
      requires forall i | 0 <= i < |accesses| :: accesses[i].uses == []
      modifies this
      ensures |accesses| == |old(accesses)| && Converse(accesses)
      ensures forall i | 0 <= i < |accesses| :: accesses[i] == old(accesses)[i].(uses := accesses[i].uses)
      ensures forall i | 0 <= i < |accesses| ::
        NoRepeats(accesses[i].uses) && forall j | j in accesses[i].uses :: j < |accesses|
    {
      var i := 0;
      while i < |accesses|
        invariant i <= |accesses| == |old(accesses)|
        invariant forall k | 0 <= k < |accesses| :: accesses[k] == old(accesses)[k].(uses := accesses[k].uses)
        invariant forall k | i <= k < |accesses| :: accesses[k].uses == []
        invariant forall k | 0 <= k < i :: NoRepeats(accesses[k].uses) &&
                    forall j: nat :: j in accesses[k].uses <==> j < |accesses| && k in old(accesses)[j].deps
      {
        var j := 0;
        while j < |accesses|
          invariant j <= |accesses| == |old(accesses)|
          invariant forall k | 0 <= k < |accesses| :: accesses[k] == old(accesses)[k].(uses := accesses[k].uses)
          invariant forall k | i < k < |accesses| :: accesses[k].uses == []
          invariant forall k | 0 <= k < i :: NoRepeats(accesses[k].uses) &&
                      forall j: nat :: j in accesses[k].uses <==> j < |accesses| && k in old(accesses)[j].deps
          invariant NoRepeats(accesses[i].uses) &&
                      forall k: nat :: k in accesses[i].uses <==> k < j && i in old(accesses)[k].deps
        {
          var uses := DependsOnEntry(j, i);
          if uses {
            accesses := accesses[i := accesses[i].(uses := accesses[i].uses + [j])];
          }
          j := j + 1;
        }
        i := i + 1;
      }
    }

    /** Fill in the dependencies of all entries, list by list. */
    method LinkAll(root: Node, readOnly: seq<TokenKey>, writeOnly: seq<TokenKey>, readWrite: seq<TokenKey>,
                   indices: map<TokenKey, nat>)
      requires Indexed(indices, accesses) && Describes(root, accesses) && root.kind == OtherNode
      requires Keys(accesses) == readOnly + writeOnly + readWrite
      requires forall i | 0 <= i < |accesses| :: accesses[i].deps == [] && accesses[i].uses == []
      modifies this
      ensures |accesses| == |old(accesses)| && Keys(accesses) == Keys(old(accesses)) && Describes(root, accesses)
      ensures forall i | 0 <= i < |accesses| :: DepsAre(root, accesses, i) && accesses[i].uses == []
    {
      hide TokenRead, TokenWritten, TokenDependsOn, DepsAre, Describes;
      var all := readOnly + writeOnly + readWrite;
      KeysApart(root, accesses, readOnly, writeOnly, readWrite);
      ghost var start := accesses;
      BuildDeps(root, readOnly, indices);
      ghost var first := accesses;
      BuildDeps(root, writeOnly, indices);
      ghost var second := accesses;
      DepsStay(root, first, second);
      BuildDeps(root, readWrite, indices);
      DepsStay(root, second, accesses);
      DepsStay(root, first, accesses);
      assert forall i | 0 <= i < |accesses| ::
        accesses[i].key == start[i].key == Keys(start)[i] && Keys(start)[i] in all;
    }

    /** The registry of a program. */
    constructor Create(root: Node)
      requires root.kind == OtherNode
      ensures Describes(root, accesses) && Converse(accesses)
      ensures forall i | 0 <= i < |accesses| :: accesses[i].isRead && DepsAre(root, accesses, i)
    {
      accesses := [];
      new;
      hide TokenRead, TokenWritten, TokenDependsOn;
      var readOnly, writeOnly, readWrite := CatalogueAttributeTokens(root);
      Sorted(root, readOnly, writeOnly, readWrite);
      var indices := map[];
      assert Keys([]) + readOnly == readOnly;
      indices := BuildData(readOnly, true, false, indices);
      assert accesses == Entries(readOnly, true, false);
      indices := BuildData(writeOnly, false, true, indices);
      assert accesses == Entries(readOnly, true, false) + Entries(writeOnly, false, true);
      indices := BuildData(readWrite, true, true, indices);
      LinkAll(root, readOnly, writeOnly, readWrite, indices);
      StillRead(root, accesses);
      ghost var linked := accesses;
      BuildUses();
      DepsStay(root, linked, accesses);
      assert Keys(accesses) == Keys(linked);
      StillDescribes(root, linked, accesses);
    }

    /** The index of an entry, or None. */
    method AccessIndex(key: TokenKey) returns (index: Option<nat>)
      ensures index.Some? ==> index.value < |accesses| && accesses[index.value].key == key
      ensures index.Some? ==> forall i | 0 <= i < index.value :: accesses[i].key != key
      ensures index.None? ==> forall i | 0 <= i < |accesses| :: accesses[i].key != key
    {
      var i := 0;
      while i < |accesses|
        invariant i <= |accesses| && forall j | 0 <= j < i :: accesses[j].key != key
      {
        if accesses[i].key == key {
          return Some(i);
        }
        i := i + 1;
      }
      index := None;
    }

    /** The access of the first entry with this name and, if one is given, this type; an entry that is not
        registered is neither read nor written. */
    method AccessPattern(name: string, ty: Option<Ty>) returns (a: Access)
      ensures forall i | 0 <= i < |accesses| && HasName(accesses[i].key, name, ty) &&
                         (forall j | 0 <= j < i :: !HasName(accesses[j].key, name, ty)) ::
                a == Access(accesses[i].isRead, accesses[i].isWritten)
      ensures (forall i | 0 <= i < |accesses| :: !HasName(accesses[i].key, name, ty)) ==> a == Access(false, false)
    {
      var i := 0;
      while i < |accesses|
        invariant i <= |accesses| && forall j | 0 <= j < i :: !HasName(accesses[j].key, name, ty)
      {
        if HasName(accesses[i].key, name, ty) {
          return Access(accesses[i].isRead, accesses[i].isWritten);
        }
        i := i + 1;
      }
      a := Access(false, false);
    }
  }

  predicate HasName(key: TokenKey, name: string, ty: Option<Ty>) {
    key.attrName == name && (ty.Some? ==> key.attrTy == ty.value)
  }

  /** Whatever an attribute depends on occurs in the program, and so it is registered. */
  lemma DepsRegistered(root: Node, accesses: seq<AccessData>, t: TokenKey, deps: seq<TokenKey>)
    requires Describes(root, accesses) && root.kind == OtherNode
    requires forall dep | dep in deps :: TokenDependsOn(root, t, dep)
    ensures forall dep | dep in deps :: dep in Keys(accesses)
  {
    forall dep | dep in deps ensures dep in Keys(accesses) {
      EverythingIsRead(root, dep);
    }
  }

  lemma DepsLinked(root: Node, was: seq<AccessData>, index: nat, deps: seq<TokenKey>, now: seq<AccessData>)
    requires index < |was| == |now| && Keys(now) == Keys(was)
    requires forall dep: TokenKey :: dep in deps <==> TokenDependsOn(root, was[index].key, dep)
    requires now == was[index := now[index]]
    requires NoRepeats(now[index].deps) && (forall j | j in now[index].deps :: j < |now|)
    requires forall j | 0 <= j < |now| :: j in now[index].deps <==> now[j].key in deps
    ensures DepsAre(root, now, index)
    ensures forall i | 0 <= i < |was| && i != index && DepsAre(root, was, i) :: DepsAre(root, now, i)
  {
    hide TokenDependsOn;
    assert forall i | 0 <= i < |was| :: now[i].key == Keys(now)[i] == Keys(was)[i] == was[i].key;
  }

  lemma StillDescribes(root: Node, was: seq<AccessData>, now: seq<AccessData>)
    requires Describes(root, was) && |now| == |was| && Keys(now) == Keys(was)
    requires forall i | 0 <= i < |was| :: now[i].isRead == was[i].isRead && now[i].isWritten == was[i].isWritten
    ensures Describes(root, now)
  {
    hide TokenRead, TokenWritten;
    assert forall i | 0 <= i < |was| :: now[i].key == Keys(now)[i] == Keys(was)[i] == was[i].key;
  }

  lemma Sorted(root: Node, readOnly: seq<TokenKey>, writeOnly: seq<TokenKey>, readWrite: seq<TokenKey>)
    requires forall t :: t in readWrite <==> TokenRead(root, t) && TokenWritten(root, t)
    requires forall t :: t in readOnly <==> TokenRead(root, t) && !TokenWritten(root, t)
    requires forall t :: t in writeOnly <==> !TokenRead(root, t) && TokenWritten(root, t)
    requires NoRepeats(readOnly) && NoRepeats(writeOnly) && NoRepeats(readWrite)
    ensures NoRepeats(readOnly + writeOnly) && NoRepeats(readOnly + writeOnly + readWrite)
    ensures var es := Entries(readOnly, true, false) + Entries(writeOnly, false, true) + Entries(readWrite, true, true);
            Describes(root, es) && Keys(es) == readOnly + writeOnly + readWrite
    ensures Keys(Entries(readOnly, true, false)) == readOnly
    ensures Keys(Entries(readOnly, true, false) + Entries(writeOnly, false, true)) == readOnly + writeOnly
  {
    hide TokenRead, TokenWritten;
    NoRepeatsJoin(readOnly, writeOnly);
    NoRepeatsJoin(readOnly + writeOnly, readWrite);
    var es := Entries(readOnly, true, false) + Entries(writeOnly, false, true) + Entries(readWrite, true, true);
    var all := readOnly + writeOnly + readWrite;
    assert Keys(es) == all;
    forall i | 0 <= i < |es|
      ensures es[i].isRead == TokenRead(root, es[i].key) && es[i].isWritten == TokenWritten(root, es[i].key)
    {
      if i < |readOnly| {
        assert es[i].key in readOnly;
      } else if i < |readOnly| + |writeOnly| {
        assert es[i].key in writeOnly;
      } else {
        assert es[i].key in readWrite;
      }
    }
  }

  lemma NoRepeatsJoin(a: seq<TokenKey>, b: seq<TokenKey>)
    requires NoRepeats(a) && NoRepeats(b) && forall t | t in a :: t !in b
    ensures NoRepeats(a + b)
  {
    forall i, j | 0 <= i < j < |a + b| ensures (a + b)[i] != (a + b)[j] {
      if i < |a| <= j { assert a[i] in a && b[j - |a|] in b; }
    }
  }

  lemma KeysApart(root: Node, accesses: seq<AccessData>, a: seq<TokenKey>, b: seq<TokenKey>, c: seq<TokenKey>)
    requires Describes(root, accesses) && Keys(accesses) == a + b + c
    ensures NoRepeats(a) && NoRepeats(b) && NoRepeats(c)
    ensures forall t | t in a :: t in Keys(accesses) && t !in b && t !in c
    ensures forall t | t in b :: t in Keys(accesses) && t !in c
    ensures forall t | t in c :: t in Keys(accesses)
  {
    hide TokenRead, TokenWritten;
    var all := a + b + c;
    assert forall i | 0 <= i < |a| :: all[i] == a[i];
    assert forall i | 0 <= i < |b| :: all[|a| + i] == b[i];
    assert forall i | 0 <= i < |c| :: all[|a| + |b| + i] == c[i];
  }

  lemma DepsStay(root: Node, was: seq<AccessData>, now: seq<AccessData>)
    requires |was| == |now| && forall i | 0 <= i < |was| :: now[i].key == was[i].key
    ensures forall i | 0 <= i < |was| && now[i].deps == was[i].deps && DepsAre(root, was, i) :: DepsAre(root, now, i)
  {
    hide TokenDependsOn;
  }

  lemma StillRead(root: Node, now: seq<AccessData>)
    requires Describes(root, now) && root.kind == OtherNode
    ensures forall i | 0 <= i < |now| :: now[i].isRead
  {
    forall i | 0 <= i < |now| ensures now[i].isRead {
      assert Keys(now)[i] == now[i].key;
      assert now[i].key in Keys(now);
      EverythingIsRead(root, now[i].key);
    }
  }
}
