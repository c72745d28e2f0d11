/**
How variables are classified as read, written or both, by climbing from each of them to the root, and
how the classifications of all variables with one token are merged.
*/
module Catalogue {
  import opened Types
  import opened Semantics
  import opened Occurrences

  // ---------------------------------------------------------------------------------------
  // What a step of the way up says

  predicate WritesAt(l: Link) {
    match l.parent.kind
    case CrementNode => true
    case AssignNode(_) => l.child == 0
    case DeclareNode => l.child == 0 && Size(l.parent.children) == 2
    case CallNode => true
    case _ => false
  }

  predicate ReadsAt(l: Link) {
    match l.parent.kind
    case CrementNode => true
    case AssignNode(compound) => compound || l.child != 0
    case DeclareNode => false
    case _ => true
  }

  /** A variable is written when some step of its way up writes, and read when some step reads. */
  predicate IsWritten(root: Node, i: nat) {
    i < |Variables(root)| && exists l :: l in Climb(root, i, 0) && WritesAt(l)
  }

  predicate IsRead(root: Node, i: nat) {
    i < |Variables(root)| && exists l :: l in Climb(root, i, 0) && ReadsAt(l)
  }

  /** The positions of the locals, or of the attributes, among some variables. */
  function Positions(vs: seq<VarName>, attributes: bool, n: nat): (ps: seq<nat>)
    requires n <= |vs|
    ensures forall i: nat :: i in ps <==> i < n && (if attributes then vs[i].Attr? else vs[i].Loc?)
  {
    if n == 0 then []
    else
      Positions(vs, attributes, n - 1) +
      if (if attributes then vs[n - 1].Attr? else vs[n - 1].Loc?) then [n - 1] else []
  }

  datatype Access = Access(isRead: bool, isWritten: bool)

  /** Climb from one variable to the root, or until it is known to be both read and written. */
  method Classify(root: Node, i: nat) returns (a: Access)
    requires i < |Variables(root)|
    ensures a.isRead <==> IsRead(root, i)
    ensures a.isWritten <==> IsWritten(root, i)
  {
    var up := Climb(root, i, 0);
    var read, write := false, false;
    var k := 0;
    while k < |up| && !(write && read)
      invariant k <= |up|
      invariant read <==> exists j :: 0 <= j < k && ReadsAt(up[j])
      invariant write <==> exists j :: 0 <= j < k && WritesAt(up[j])
    {
      var parent := up[k].parent;
      match parent.kind {
        case CrementNode => read, write := true, true;
        case AssignNode(compound) =>
          if up[k].child == 0 {
            if compound { read := true; }
            write := true;
          } else {
            read := true;
          }
        case DeclareNode =>
          if up[k].child == 0 && Size(parent.children) == 2 { write := true; }
        case CallNode => read, write := true, true;
        case _ => read := true;
      }
      k := k + 1;
    }
    assert forall j | 0 <= j < k :: up[j] in up;
    a := Access(read, write);
  }

  /** Of some variables, those that are accessed in one particular way. */
  function Classified(root: Node, vars: seq<nat>, a: Access): seq<nat> {
    if |vars| == 0 then []
    else
      var n := |vars| - 1;
      Classified(root, vars[..n], a) + if AccessOf(root, vars[n]) == a then [vars[n]] else []
  }

  function AccessOf(root: Node, i: nat): Access {
    Access(IsRead(root, i), IsWritten(root, i))
  }

  lemma {:induction false} ClassifiedAre(root: Node, vars: seq<nat>, a: Access)
    ensures forall i: nat :: i in Classified(root, vars, a) <==> i in vars && AccessOf(root, i) == a
  {
    hide AccessOf;
    if |vars| > 0 {
      var n := |vars| - 1;
      ClassifiedAre(root, vars[..n], a);
      assert vars == vars[..n] + [vars[n]];
    }
  }

  /** The variables that are catalogued, locals first. */
  function SelectedVariables(root: Node, locals: bool, attributes: bool): (vars: seq<nat>)
    ensures forall i: nat :: i in vars <==> Selected(root, locals, attributes, i)
  {
    var vs := Variables(root);
    (if locals then Positions(vs, false, |vs|) else []) + (if attributes then Positions(vs, true, |vs|) else [])
  }

  /** Sort the locals and the attributes of a program by how they are accessed. */
  method CatalogueVariables(root: Node, locals: bool, attributes: bool)
    returns (readOnly: seq<nat>, writeOnly: seq<nat>, readWrite: seq<nat>)
    ensures forall i: nat :: i in readWrite <==>
      Selected(root, locals, attributes, i) && AccessOf(root, i) == Access(true, true)
    ensures forall i: nat :: i in readOnly <==>
      Selected(root, locals, attributes, i) && AccessOf(root, i) == Access(true, false)
    ensures forall i: nat :: i in writeOnly <==>
      Selected(root, locals, attributes, i) && AccessOf(root, i) == Access(false, true)
  {
    hide IsRead, IsWritten, Variables, SelectedVariables, Selected;
    var vars := SelectedVariables(root, locals, attributes);
    readOnly, writeOnly, readWrite := [], [], [];
    var k := 0;
    while k < |vars|
      invariant k <= |vars|
      invariant readWrite == Classified(root, vars[..k], Access(true, true))
      invariant readOnly == Classified(root, vars[..k], Access(true, false))
      invariant writeOnly == Classified(root, vars[..k], Access(false, true))
    {
      assert vars[..k + 1][..k] == vars[..k];
      assert vars[k] in vars;
      SelectedExists(root, locals, attributes, vars[k]);
      var a := Classify(root, vars[k]);
      if a.isRead && a.isWritten { readWrite := readWrite + [vars[k]]; }
      if a.isRead && !a.isWritten { readOnly := readOnly + [vars[k]]; }
      if !a.isRead && a.isWritten { writeOnly := writeOnly + [vars[k]]; }
      k := k + 1;
    }
    assert vars[..k] == vars;
    ClassifiedAre(root, vars, Access(true, true));
    ClassifiedAre(root, vars, Access(true, false));
    ClassifiedAre(root, vars, Access(false, true));
  }

  lemma SelectedExists(root: Node, locals: bool, attributes: bool, i: nat)
    requires Selected(root, locals, attributes, i)
    ensures i < |Variables(root)|
  {
  }

  predicate Selected(root: Node, locals: bool, attributes: bool, i: nat) {
    i < |Variables(root)| && ((locals && Variables(root)[i].Loc?) || (attributes && Variables(root)[i].Attr?))
  }

  // ---------------------------------------------------------------------------------------
  // Tokens

  /** Some occurrence of the token is read, or written. */
  predicate TokenRead(root: Node, t: TokenKey) {
    exists i: nat :: i < |Variables(root)| && Variables(root)[i] == Attr(t) && IsRead(root, i)
  }

  predicate TokenWritten(root: Node, t: TokenKey) {
    exists i: nat :: i < |Variables(root)| && Variables(root)[i] == Attr(t) && IsWritten(root, i)
  }

  type AccessMap = map<TokenKey, Access>

  /** The entries of the tokens of some variables, with one kind of access merged into them. */
  function Merged(root: Node, vars: seq<nat>, a: Access, was: AccessMap): AccessMap {
    if |vars| == 0 then was
    else
      var n := |vars| - 1;
      var now := Merged(root, vars[..n], a, was);
      if vars[n] < |Variables(root)| && Variables(root)[vars[n]].Attr? then
        var t := Variables(root)[vars[n]].token;
        var b := Entry(now, t);
        now[t := Access(b.isRead || a.isRead, b.isWritten || a.isWritten)]
      else now
  }

  function Entry(m: AccessMap, t: TokenKey): Access {
    if t in m then m[t] else Access(false, false)
  }

  /** Some of these variables has this token. */
  predicate Hits(root: Node, vars: seq<nat>, t: TokenKey) {
    exists i :: 0 <= i < |vars| && vars[i] < |Variables(root)| && Variables(root)[vars[i]] == Attr(t)
  }

  lemma {:induction false} MergedAt(root: Node, vars: seq<nat>, a: Access, was: AccessMap, t: TokenKey)
    ensures var b := Entry(was, t);
            Entry(Merged(root, vars, a, was), t) ==
            if Hits(root, vars, t) then Access(b.isRead || a.isRead, b.isWritten || a.isWritten) else b
    ensures t in Merged(root, vars, a, was) <==> t in was || Hits(root, vars, t)
  {
    hide Variables;
    if |vars| > 0 {
      var n := |vars| - 1;
      MergedAt(root, vars[..n], a, was, t);
      assert Hits(root, vars, t) <==> Hits(root, vars[..n], t) || Hit(root, vars[n], t) by {
        HitsSplit(root, vars, t);
      }
    }
  }

  predicate Hit(root: Node, i: nat, t: TokenKey) {
    i < |Variables(root)| && Variables(root)[i] == Attr(t)
  }

  lemma HitsSplit(root: Node, vars: seq<nat>, t: TokenKey)
    requires |vars| > 0
    ensures Hits(root, vars, t) <==> Hits(root, vars[..|vars| - 1], t) || Hit(root, vars[|vars| - 1], t)
  {
    var n := |vars| - 1;
    if Hits(root, vars[..n], t) {
      var i :| 0 <= i < n && vars[..n][i] < |Variables(root)| && Variables(root)[vars[..n][i]] == Attr(t);
      assert vars[i] == vars[..n][i];
    }
    if Hits(root, vars, t) && !Hit(root, vars[n], t) {
      var i :| 0 <= i < |vars| && vars[i] < |Variables(root)| && Variables(root)[vars[i]] == Attr(t);
      assert vars[..n][i] == vars[i];
    }
  }

  /** Merge one kind of access into the entries of the tokens of some variables. */
  method AddAccesses(root: Node, vars: seq<nat>, a: Access, was: AccessMap) returns (now: AccessMap)
    ensures now == Merged(root, vars, a, was)
  {
    now := was;
    var k := 0;
    while k < |vars|
      invariant k <= |vars| && now == Merged(root, vars[..k], a, was)
    {
      assert vars[..k + 1][..k] == vars[..k];
      if vars[k] < |Variables(root)| && Variables(root)[vars[k]].Attr? {
        var t := Variables(root)[vars[k]].token;
        var b := Entry(now, t);
        now := now[t := Access(b.isRead || a.isRead, b.isWritten || a.isWritten)];
      }
      k := k + 1;
    }
    assert vars[..k] == vars;
  }

  /** The entry of a token merges the accesses of all its occurrences. */
  lemma MergedAccess(root: Node, both: seq<nat>, stores: seq<nat>, loads: seq<nat>, t: TokenKey)
    requires forall i: nat :: i in both <==> Selected(root, false, true, i) && AccessOf(root, i) == Access(true, true)
    requires forall i: nat :: i in stores <==>
      Selected(root, false, true, i) && AccessOf(root, i) == Access(false, true)
    requires forall i: nat :: i in loads <==> Selected(root, false, true, i) && AccessOf(root, i) == Access(true, false)
    ensures Hits(root, both, t) || Hits(root, loads, t) <==> TokenRead(root, t)
    ensures Hits(root, both, t) || Hits(root, stores, t) <==> TokenWritten(root, t)
  {
    hide IsRead, IsWritten;
    HitGives(root, both, t, Access(true, true));
    HitGives(root, stores, t, Access(false, true));
    HitGives(root, loads, t, Access(true, false));
    if TokenRead(root, t) {
      var i: nat :| i < |Variables(root)| && Variables(root)[i] == Attr(t) && IsRead(root, i);
      assert Selected(root, false, true, i);
      if IsWritten(root, i) { HitsIn(root, both, i, t); } else { HitsIn(root, loads, i, t); }
    }
    if TokenWritten(root, t) {
      var i: nat :| i < |Variables(root)| && Variables(root)[i] == Attr(t) && IsWritten(root, i);
      assert Selected(root, false, true, i);
      if IsRead(root, i) { HitsIn(root, both, i, t); } else { HitsIn(root, stores, i, t); }
    }
  }

  lemma HitGives(root: Node, vars: seq<nat>, t: TokenKey, a: Access)
    requires forall i | i in vars :: AccessOf(root, i) == a
    ensures Hits(root, vars, t) && a.isRead ==> TokenRead(root, t)
    ensures Hits(root, vars, t) && a.isWritten ==> TokenWritten(root, t)
  {
    hide IsRead, IsWritten;
    if Hits(root, vars, t) {
      var i :| 0 <= i < |vars| && vars[i] < |Variables(root)| && Variables(root)[vars[i]] == Attr(t);
      assert vars[i] in vars;
    }
  }

  lemma HitsIn(root: Node, vars: seq<nat>, i: nat, t: TokenKey)
    requires i in vars && i < |Variables(root)| && Variables(root)[i] == Attr(t)
    ensures Hits(root, vars, t)
  {
  }

  /** The tokens of all attributes, sorted by how any of their occurrences is accessed. */
  method CatalogueAttributeTokens(root: Node)
    returns (readOnly: seq<TokenKey>, writeOnly: seq<TokenKey>, readWrite: seq<TokenKey>)
    ensures forall t :: t in readWrite <==> TokenRead(root, t) && TokenWritten(root, t)
    ensures forall t :: t in readOnly <==> TokenRead(root, t) && !TokenWritten(root, t)
    ensures forall t :: t in writeOnly <==> !TokenRead(root, t) && TokenWritten(root, t)
    ensures NoRepeats(readOnly) && NoRepeats(writeOnly) && NoRepeats(readWrite)
  {
    hide TokenRead, TokenWritten, Merged, Selected, AccessOf;
    var readVars, writeVars, bothVars := CatalogueVariables(root, false, true);
    var m1 := AddAccesses(root, bothVars, Access(true, true), map[]);
    var m2 := AddAccesses(root, writeVars, Access(false, true), m1);
    var m3 := AddAccesses(root, readVars, Access(true, false), m2);
    forall t: TokenKey ensures Entry(m3, t) == Access(TokenRead(root, t), TokenWritten(root, t)) {
      MergedAccess(root, bothVars, writeVars, readVars, t);
      MergedAt(root, bothVars, Access(true, true), map[], t);
      MergedAt(root, writeVars, Access(false, true), m1, t);
      MergedAt(root, readVars, Access(true, false), m2, t);
    }
    readOnly, writeOnly, readWrite := SortTokens(m3);
  }

  /** Distribute the tokens over three lists by their merged accesses. */
  method SortTokens(accesses: AccessMap)
    returns (readOnly: seq<TokenKey>, writeOnly: seq<TokenKey>, readWrite: seq<TokenKey>)
    ensures forall t :: t in readWrite <==> Entry(accesses, t) == Access(true, true)
    ensures forall t :: t in readOnly <==> Entry(accesses, t) == Access(true, false)
    ensures forall t :: t in writeOnly <==> Entry(accesses, t) == Access(false, true)
    ensures NoRepeats(readOnly) && NoRepeats(writeOnly) && NoRepeats(readWrite)
  {
    readOnly, writeOnly, readWrite := [], [], [];
    var tokens := accesses.Keys;
    while tokens != {}
      invariant tokens <= accesses.Keys
      invariant forall t :: t in readWrite <==> t in accesses && t !in tokens && accesses[t] == Access(true, true)
      invariant forall t :: t in readOnly <==> t in accesses && t !in tokens && accesses[t] == Access(true, false)
      invariant forall t :: t in writeOnly <==> t in accesses && t !in tokens && accesses[t] == Access(false, true)
      invariant NoRepeats(readOnly) && NoRepeats(writeOnly) && NoRepeats(readWrite)
      decreases |tokens|
    {
      // the hash map is walked in no particular order
      var t :| t in tokens;
      tokens := tokens - {t};
      var a := accesses[t];
      if a.isRead && a.isWritten {
        readWrite := readWrite + [t];
      } else if a.isWritten {
        writeOnly := writeOnly + [t];
      } else if a.isRead {
        readOnly := readOnly + [t];
      }
    }
  }

  predicate NoRepeats<T(==)>(s: seq<T>) {
    forall i, j | 0 <= i < j < |s| :: s[i] != s[j]
  }

  // ---------------------------------------------------------------------------------------
  // Whole programs

  lemma {:induction false} ClimbEnds(n: Node, i: nat, first: nat)
    requires i < |Variables(n)| && !n.kind.Variable?
    ensures exists l :: l in Climb(n, i, first) && l.parent == n
    decreases n, 1
  {
    ClimbFromEnds(n, n.children, 0, i, first, first);
  }

  lemma {:induction false} ClimbFromEnds(n: Node, ns: Nodes, child: nat, i: nat, first: nat, here: nat)
    requires i < |VariablesOf(ns)|
    ensures exists l :: l in ClimbFrom(n, ns, child, i, first, here) && l.parent == n
    decreases ns, 0
  {
    var k := |Variables(ns.head)|;
    if i < k {
      assert Link(n, child, first) in ClimbFrom(n, ns, child, i, first, here);
    } else {
      ClimbFromEnds(n, ns.tail, child + 1, i - k, first, here + k);
    }
  }

  /** Every way up inside a program ends at its root block, and a block reads: so every attribute of a
      program is classified as read, and none is ever write-only. */
  lemma EverythingIsRead(root: Node, t: TokenKey)
    requires root.kind == OtherNode
    ensures TokenRead(root, t) <==> Attr(t) in Variables(root)
    ensures TokenWritten(root, t) ==> TokenRead(root, t)
  {
    if Attr(t) in Variables(root) {
      var i :| 0 <= i < |Variables(root)| && Variables(root)[i] == Attr(t);
      ClimbEnds(root, i, 0);
      assert IsRead(root, i);
    }
  }
}
