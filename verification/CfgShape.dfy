/**
The shape of the generated function: every block ends in its only terminator, every branch stays in
the function, a phi has exactly one entry for each predecessor, and the block opened after a keyword
has no predecessor.
*/
module CfgShape {
  import opened Types
  import opened Ast
  import opened Overloads
  import opened Semantics
  import opened Cfg
  import opened Lowering
  import opened Frames

  /** Straight-line code. */
  predicate Plain(code: seq<Instr>) {
    forall i | 0 <= i < |code| :: !IsTerminator(code[i])
  }

  predicate Ends(last: Instr) {
    IsTerminator(last) && (last.CondBr? ==> last.ifTrue != last.ifFalse)
  }

  /** Code that ends in its only terminator; the two sides of a conditional branch differ. */
  predicate Closed(code: seq<Instr>) {
    && |code| > 0
    && Ends(code[|code| - 1])
    && Plain(code[..|code| - 1])
  }

  predicate NoPhi(code: seq<Instr>) {
    forall i | 0 <= i < |code| :: !code[i].Phi?
  }

  /** Where code branches to when it ends in a branch. */
  function Out(code: seq<Instr>): set<nat> {
    if |code| == 0 then {} else Targets(code[|code| - 1])
  }

  /** The blocks that generation from g to h may have written to. */
  predicate InRegion(g: Gen, h: Gen, b: nat) {
    b < |h.blocks| && (b == g.ip || |g.blocks| <= b)
  }

  /** The blocks, among those, that branch to d. */
  function Preds(g: Gen, h: Gen, d: nat): set<nat> {
    set b: nat | b < |h.blocks| && InRegion(g, h, b) && d in Out(Code(h, b))
  }

  /** One entry for each predecessor and no other entries. */
  ghost predicate ArmsMatch(arms: seq<Arm>, preds: set<nat>) {
    && (forall i, j | 0 <= i < j < |arms| :: arms[i].pred != arms[j].pred)
    && (set i | 0 <= i < |arms| :: arms[i].pred) == preds
  }

  ghost predicate PhisMatch(code: seq<Instr>, preds: set<nat>) {
    forall i | 0 <= i < |code| && code[i].Phi? :: ArmsMatch(code[i].arms, preds)
  }

  predicate IsExit(x: Option<Exits>, d: nat) {
    x.Some? && (d == x.value.onBreak || d == x.value.onContinue)
  }

  /** A branch goes to a block generated here or leaves the enclosing loop's body. */
  predicate Inside(g: Gen, h: Gen, x: Option<Exits>, targets: set<nat>) {
    forall d | d in targets :: (|g.blocks| <= d < |h.blocks|) || IsExit(x, d)
  }

  ghost predicate BlockFine(g: Gen, h: Gen, x: Option<Exits>, open: set<nat>, b: nat)
    requires b < |h.blocks|
  {
    var code := Code(h, b);
    if b == h.ip then Plain(code)
    else if b in open then code == []
    else Closed(code) && Inside(g, h, x, Out(code))
  }

  ghost predicate EntriesFine(g: Gen, h: Gen, d: nat)
    requires d < |h.blocks|
  {
    && PhisMatch(Code(h, d), Preds(g, h, d))
    && (h.blocks[d].tag == Null ==> Preds(g, h, d) == {})
  }

  predicate ExitsBelow(x: Option<Exits>, g: Gen) {
    x.Some? ==> x.value.onBreak < |g.blocks| && x.value.onContinue < |g.blocks|
  }

  /** Generation from g to h has left everything in order, except that the blocks `open` have been
      created and not been visited yet. */
  ghost predicate Tidy(g: Gen, h: Gen, x: Option<Exits>, open: set<nat>) {
    && Frame(g, h) && ExitsBelow(x, g)
    && (forall b | b in open :: |g.blocks| <= b < |h.blocks| && b != h.ip && h.blocks[b].tag != Null)
    && (forall b: nat | InRegion(g, h, b) :: BlockFine(g, h, x, open, b))
    && NoPhi(Code(h, g.ip)[|Code(g, g.ip)|..])
    && (forall d: nat | |g.blocks| <= d < |h.blocks| :: EntriesFine(g, h, d))
  }

  lemma TidySelf(g: Gen, x: Option<Exits>)
    requires Plain(Code(g, g.ip)) && ExitsBelow(x, g)
    ensures Tidy(g, g, x, {})
  {
  }

  lemma PlainOut(code: seq<Instr>)
    requires Plain(code)
    ensures Out(code) == {}
  {
  }

  /** Nothing branches to a block that does not exist yet. */
  lemma NoPreds(g: Gen, h: Gen, x: Option<Exits>, open: set<nat>)
    requires Tidy(g, h, x, open)
    ensures Preds(g, h, |h.blocks|) == {}
  {
    forall b: nat | InRegion(g, h, b) ensures |h.blocks| !in Out(Code(h, b)) {
      assert BlockFine(g, h, x, open, b);
      if b == h.ip { PlainOut(Code(h, b)); }
    }
  }

  lemma ThenOpen(g: Gen, h: Gen, x: Option<Exits>, open: set<nat>, tag: Label)
    requires Tidy(g, h, x, open) && tag != Null
    ensures Tidy(g, NewBlock(h, tag), x, open + {|h.blocks|})
    ensures forall d: nat :: Preds(g, NewBlock(h, tag), d) == Preds(g, h, d)
    ensures Preds(g, h, |h.blocks|) == {}
  {
    var k := NewBlock(h, tag);
    NoPreds(g, h, x, open);
    ThenBlock(g, h, tag);
    forall d: nat ensures Preds(g, k, d) == Preds(g, h, d) {
    }
    forall b: nat | InRegion(g, k, b) ensures BlockFine(g, k, x, open + {|h.blocks|}, b) {
      if b < |h.blocks| { assert InRegion(g, h, b); }
    }
    forall d: nat | |g.blocks| <= d < |k.blocks| ensures EntriesFine(g, k, d) {
      if d < |h.blocks| { assert EntriesFine(g, h, d); }
    }
  }

  // ---------------------------------------------------------------------------------------
  // Straight-line code

  /** From h to k only straight-line code without phis was added to the current block. */
  ghost predicate Straight(h: Gen, k: Gen) {
    && k.ip == h.ip && |k.blocks| == |h.blocks| && h.regs <= k.regs
    && k.blocks[h.ip].tag == h.blocks[h.ip].tag
    && (forall b | 0 <= b < |h.blocks| && b != h.ip :: k.blocks[b] == h.blocks[b])
    && Code(h, h.ip) <= Code(k, h.ip)
    && Plain(Code(k, h.ip)[|Code(h, h.ip)|..]) && NoPhi(Code(k, h.ip)[|Code(h, h.ip)|..])
  }

  lemma StraightSelf(h: Gen)
    ensures Straight(h, h)
  {
  }

  lemma StraightEmit(h: Gen, k: Gen, i: Instr)
    requires Straight(h, k) && !IsTerminator(i) && !i.Phi?
    ensures Straight(h, Emit(k, i)) && Straight(h, EmitDef(k, i).g)
  {
    var a := Code(h, h.ip);
    assert Code(Emit(k, i), h.ip)[|a|..] == Code(k, h.ip)[|a|..] + [i];
  }

  lemma PlainTail(a: seq<Instr>, b: seq<Instr>)
    requires a <= b && Plain(a) && Plain(b[|a|..])
    ensures Plain(b)
  {
    assert b == a + b[|a|..];
  }

  lemma NoPhiTail(a: seq<Instr>, b: seq<Instr>, c: seq<Instr>)
    requires a <= b <= c && NoPhi(b[|a|..]) && NoPhi(c[|b|..])
    ensures NoPhi(c[|a|..])
  {
    assert c[|a|..] == b[|a|..] + c[|b|..];
  }

  lemma PhisMatchTail(a: seq<Instr>, b: seq<Instr>, preds: set<nat>)
    requires a <= b && NoPhi(b[|a|..]) && PhisMatch(a, preds)
    ensures PhisMatch(b, preds)
  {
    assert b == a + b[|a|..];
  }

  lemma ThenStraight(g: Gen, h: Gen, x: Option<Exits>, open: set<nat>, k: Gen)
    requires Tidy(g, h, x, open) && Straight(h, k)
    ensures Tidy(g, k, x, open)
    ensures forall d: nat :: Preds(g, k, d) == Preds(g, h, d)
  {
    var a, b := Code(h, h.ip), Code(k, h.ip);
    assert InRegion(g, h, h.ip) && BlockFine(g, h, x, open, h.ip);
    PlainTail(a, b);
    PlainOut(a);
    PlainOut(b);
    if h.ip == g.ip { NoPhiTail(Code(g, g.ip), a, b); }
    forall d: nat ensures Preds(g, k, d) == Preds(g, h, d) {
    }
    forall c: nat | InRegion(g, k, c) ensures BlockFine(g, k, x, open, c) {
      assert InRegion(g, h, c);
    }
    forall d: nat | |g.blocks| <= d < |k.blocks| ensures EntriesFine(g, k, d) {
      assert EntriesFine(g, h, d);
      if d == h.ip { PhisMatchTail(a, b, Preds(g, h, d)); }
    }
  }

  // ---------------------------------------------------------------------------------------
  // Joining pieces

  /** A place that code generated later may branch to. */
  ghost predicate MayEnter(g: Gen, h: Gen, x: Option<Exits>, d: nat) {
    IsExit(x, d) || (|g.blocks| <= d < |h.blocks| && d != h.ip && NoPhi(Code(h, d)) && h.blocks[d].tag != Null)
  }

  /** A piece generated by itself, with targets of its own for `break` and `continue`. */
  lemma ThenPiece(g: Gen, h: Gen, x: Option<Exits>, open: set<nat>, k: Gen, inner: Option<Exits>)
    requires Tidy(g, h, x, open) && Tidy(h, k, inner, {})
    requires forall d: nat | IsExit(inner, d) :: MayEnter(g, h, x, d)
    ensures Tidy(g, k, x, open)
    ensures forall d: nat | d < |h.blocks| && !IsExit(inner, d) :: Preds(g, k, d) == Preds(g, h, d)
  {
    FrameTrans(g, h, k);
    assert InRegion(g, h, h.ip) && BlockFine(g, h, x, open, h.ip);
    forall c: nat | InRegion(g, k, c) ensures BlockFine(g, k, x, open, c) {
      if c < |h.blocks| && c != h.ip { assert InRegion(g, h, c) && BlockFine(g, h, x, open, c); }
      else { assert InRegion(h, k, c) && BlockFine(h, k, inner, {}, c); }
    }
    forall d: nat | d < |h.blocks| && !IsExit(inner, d) ensures Preds(g, k, d) == Preds(g, h, d) {
      PiecePreds(g, h, x, open, k, inner, d);
    }
    if h.ip == g.ip { NoPhiTail(Code(g, g.ip), Code(h, g.ip), Code(k, g.ip)); }
    forall d: nat | |g.blocks| <= d < |k.blocks| ensures EntriesFine(g, k, d) {
      if d < |h.blocks| {
        assert EntriesFine(g, h, d);
        if d == h.ip && !IsExit(inner, d) { PhisMatchTail(Code(h, d), Code(k, d), Preds(g, h, d)); }
      } else {
        assert EntriesFine(h, k, d);
        NewPreds(g, h, x, open, k, inner, d);
      }
    }
  }

  lemma PiecePreds(g: Gen, h: Gen, x: Option<Exits>, open: set<nat>, k: Gen, inner: Option<Exits>, d: nat)
    requires Tidy(g, h, x, open) && Tidy(h, k, inner, {}) && d < |h.blocks| && !IsExit(inner, d)
    ensures Preds(g, k, d) == Preds(g, h, d)
  {
    assert InRegion(g, h, h.ip) && BlockFine(g, h, x, open, h.ip);
    PlainOut(Code(h, h.ip));
    forall b: nat | InRegion(g, k, b) ensures d in Out(Code(k, b)) <==> b < |h.blocks| && d in Out(Code(h, b)) {
      if b >= |h.blocks| || b == h.ip {
        assert InRegion(h, k, b) && BlockFine(h, k, inner, {}, b);
        if b == k.ip { PlainOut(Code(k, b)); }
        if b == h.ip { assert InRegion(g, h, b) && BlockFine(g, h, x, open, b); }
      }
    }
  }

  lemma NewPreds(g: Gen, h: Gen, x: Option<Exits>, open: set<nat>, k: Gen, inner: Option<Exits>, d: nat)
    requires Tidy(g, h, x, open) && Tidy(h, k, inner, {}) && |h.blocks| <= d < |k.blocks|
    ensures Preds(g, k, d) == Preds(h, k, d)
  {
    forall b: nat | InRegion(g, h, b) ensures d !in Out(Code(h, b)) {
      assert BlockFine(g, h, x, open, b);
      if b == h.ip { PlainOut(Code(h, b)); }
    }
    forall b: nat | InRegion(g, h, b) && b != h.ip ensures d !in Out(Code(k, b)) {
      assert k.blocks[b] == h.blocks[b];
    }
    forall b: nat ensures InRegion(g, k, b) && d in Out(Code(k, b)) ==> InRegion(h, k, b) {
      assert InRegion(g, k, b) && b < |h.blocks| ==> InRegion(g, h, b);
    }
  }

  lemma EndPreds(g: Gen, h: Gen, i: Instr, k: Gen, d: nat)
    requires k.blocks == Emit(h, i).blocks && Plain(Code(h, h.ip)) && InRegion(g, h, h.ip)
    ensures Preds(g, k, d) == Preds(g, h, d) + if d in Targets(i) then {h.ip} else {}
  {
    PlainOut(Code(h, h.ip));
  }

  lemma EndCloses(h: Gen, i: Instr)
    requires Plain(Code(h, h.ip)) && Ends(i)
    ensures Closed(Code(Emit(h, i), h.ip)) && Out(Code(Emit(h, i), h.ip)) == Targets(i)
  {
    var code := Code(h, h.ip);
    assert (code + [i])[..|code|] == code;
  }

  lemma AppendNoPhi(a: seq<Instr>, b: seq<Instr>, i: Instr)
    requires a <= b && NoPhi(b[|a|..]) && !i.Phi?
    ensures NoPhi((b + [i])[|a|..])
  {
    assert (b + [i])[|a|..] == b[|a|..] + [i];
  }

  lemma PhisMatchAppend(code: seq<Instr>, i: Instr, preds: set<nat>)
    requires PhisMatch(code, preds) && !i.Phi?
    ensures PhisMatch(code + [i], preds)
  {
  }

  /** End the current block and go on in one that is still open. */
  lemma ThenEnd(g: Gen, h: Gen, x: Option<Exits>, open: set<nat>, i: Instr, b: nat)
    requires Tidy(g, h, x, open) && b in open && Ends(i)
    requires forall d: nat | d in Targets(i) :: MayEnter(g, h, x, d)
    ensures b < |h.blocks| && Tidy(g, At(Emit(h, i), b), x, open - {b})
    ensures forall d: nat :: Preds(g, At(Emit(h, i), b), d) == Preds(g, h, d) + if d in Targets(i) then {h.ip} else {}
  {
    hide Plain, Closed, NoPhi, PhisMatch, Preds, Out;
    var k := At(Emit(h, i), b);
    var code := Code(h, h.ip);
    ThenEmit(g, h, i);
    ThenAt(g, Emit(h, i), b);
    assert InRegion(g, h, h.ip) && BlockFine(g, h, x, open, h.ip);
    EndCloses(h, i);
    forall d: nat ensures Preds(g, k, d) == Preds(g, h, d) + if d in Targets(i) then {h.ip} else {} {
      EndPreds(g, h, i, k, d);
    }
    assert Plain(Code(k, b)) by { assert InRegion(g, h, b) && BlockFine(g, h, x, open, b); EmptyPlain(); }
    forall c: nat | InRegion(g, k, c) ensures BlockFine(g, k, x, open - {b}, c) {
      assert InRegion(g, h, c) && BlockFine(g, h, x, open, c);
    }
    if h.ip == g.ip { AppendNoPhi(Code(g, g.ip), code, i); }
    forall d: nat | |g.blocks| <= d < |k.blocks| ensures EntriesFine(g, k, d) {
      assert EntriesFine(g, h, d) && !IsExit(x, d);
      assert Preds(g, h, d) + {} == Preds(g, h, d);
      if d == h.ip {
        PhisMatchAppend(code, i, Preds(g, h, d));
        assert d !in Targets(i) && Code(k, d) == code + [i];
      } else if d in Targets(i) && !IsExit(x, d) {
        NoPhiMatches(Code(h, d), Preds(g, k, d));
      }
    }
  }

  lemma EmptyPlain()
    ensures Plain([]) && NoPhi([])
  {
  }

  lemma NoPhiMatches(code: seq<Instr>, preds: set<nat>)
    requires NoPhi(code)
    ensures PhisMatch(code, preds)
  {
  }

  /** A phi at the head of a block that was opened here. */
  lemma ThenPhi(g: Gen, h: Gen, x: Option<Exits>, open: set<nat>, i: Instr)
    requires Tidy(g, h, x, open) && i.Phi? && h.ip >= |g.blocks|
    requires ArmsMatch(i.arms, Preds(g, h, h.ip))
    ensures Tidy(g, EmitDef(h, i).g, x, open)
    ensures forall d: nat :: Preds(g, EmitDef(h, i).g, d) == Preds(g, h, d)
  {
    var k := EmitDef(h, i).g;
    var code := Code(h, h.ip);
    ThenDefine(g, h, i);
    assert InRegion(g, h, h.ip) && BlockFine(g, h, x, open, h.ip);
    PlainOut(code);
    PlainOut(Code(k, h.ip));
    forall d: nat ensures Preds(g, k, d) == Preds(g, h, d) {
    }
    forall c: nat | InRegion(g, k, c) ensures BlockFine(g, k, x, open, c) {
      assert InRegion(g, h, c) && BlockFine(g, h, x, open, c);
    }
    forall d: nat | |g.blocks| <= d < |k.blocks| ensures EntriesFine(g, k, d) {
      assert EntriesFine(g, h, d);
    }
  }

  lemma OpenMayEnter(g: Gen, h: Gen, x: Option<Exits>, open: set<nat>, d: nat)
    requires Tidy(g, h, x, open) && d in open
    ensures MayEnter(g, h, x, d) && |g.blocks| <= d < |h.blocks| && d != h.ip
  {
    assert InRegion(g, h, d) && BlockFine(g, h, x, open, d);
  }

  /** Generation stands in a block that has not been ended. */
  lemma CurrentPlain(g: Gen, h: Gen, x: Option<Exits>, open: set<nat>)
    requires Tidy(g, h, x, open)
    ensures Plain(Code(h, h.ip))
  {
    assert InRegion(g, h, h.ip) && BlockFine(g, h, x, open, h.ip);
  }

  lemma InsertCloses(code: seq<Instr>, extra: seq<Instr>)
    requires Closed(code) && Plain(extra)
    ensures var k := code[..|code| - 1] + extra + code[|code| - 1..];
            Closed(k) && Out(k) == Out(code)
  {
    var n := |code| - 1;
    var k := code[..n] + extra + code[n..];
    assert k[..|k| - 1] == code[..n] + extra;
  }

  lemma InsertPhis(code: seq<Instr>, extra: seq<Instr>, preds: set<nat>)
    requires |code| > 0 && PhisMatch(code, preds) && NoPhi(extra)
    ensures PhisMatch(code[..|code| - 1] + extra + code[|code| - 1..], preds)
  {
  }

  lemma InsertTail(a: seq<Instr>, code: seq<Instr>, extra: seq<Instr>)
    requires a <= code && Plain(a) && Closed(code) && NoPhi(code[|a|..]) && NoPhi(extra)
    ensures NoPhi((code[..|code| - 1] + extra + code[|code| - 1..])[|a|..])
  {
    var n := |code| - 1;
    assert |a| <= n;
    assert (code[..n] + extra + code[n..])[|a|..] == code[|a|..n] + extra + code[n..];
  }

  /** Straight-line code in front of the branch that ends a block. */
  lemma ThenInserted(g: Gen, h: Gen, x: Option<Exits>, open: set<nat>, b: nat, extra: seq<Instr>)
    requires Tidy(g, h, x, open) && Plain(Code(g, g.ip)) && InRegion(g, h, b) && b != h.ip && b !in open
    requires Plain(extra) && NoPhi(extra)
    ensures Tidy(g, InsertBefore(h, b, extra), x, open)
    ensures forall d: nat :: Preds(g, InsertBefore(h, b, extra), d) == Preds(g, h, d)
  {
    hide Plain, Closed, NoPhi, PhisMatch, Out;
    var k := InsertBefore(h, b, extra);
    var code := Code(h, b);
    assert BlockFine(g, h, x, open, b);
    assert code != [] by { ClosedFilled(code); }
    InsertCloses(code, extra);
    forall d: nat ensures Preds(g, k, d) == Preds(g, h, d) {
    }
    forall c: nat | InRegion(g, k, c) ensures BlockFine(g, k, x, open, c) {
      assert InRegion(g, h, c) && BlockFine(g, h, x, open, c);
    }
    if b == g.ip { InsertTail(Code(g, g.ip), code, extra); InsertGrows(Code(g, g.ip), code, extra); }
    forall d: nat | |g.blocks| <= d < |k.blocks| ensures EntriesFine(g, k, d) {
      assert EntriesFine(g, h, d);
      if d == b { InsertPhis(code, extra, Preds(g, h, d)); }
    }
  }

  lemma ClosedFilled(code: seq<Instr>)
    requires Closed(code)
    ensures code != []
  {
  }

  lemma InsertGrows(a: seq<Instr>, code: seq<Instr>, extra: seq<Instr>)
    requires a <= code && Plain(a) && Closed(code)
    ensures |code| > 0 && a <= code[..|code| - 1] + extra + code[|code| - 1..]
  {
    assert |a| <= |code| - 1;
  }

  lemma CoercePlain(r: nat, v: Val, to: Static)
    ensures var c := CoerceCode(r, v, to); Plain(c.code) && NoPhi(c.code)
  {
    hide CoerceCode;
    CoerceComputes(r, v, to);
    var code := CoerceCode(r, v, to).code;
    assert forall i | 0 <= i < |code| :: code[i] in code;
  }
}
