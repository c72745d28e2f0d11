/**
The range kernel: a generated loop that calls the point kernel for every point index. Its counter and
its bound are 64-bit machine words. For any number of points from one on, it applies the program once
to each point, in order.
*/
module RangeKernel {
  import opened Types
  import opened Ast
  import opened Semantics
  import opened Cfg
  import opened Kernels
  import opened PointKernel

  const WORD: nat := 0x1_0000_0000_0000_0000

  function Sub64(a: nat, b: nat): nat {
    (a - b) % WORD
  }

  function Add64(a: nat, b: nat): nat {
    (a + b) % WORD
  }

  /** The attribute values of all points of a leaf, and the state called functions act on. */
  datatype Leaf = Leaf(points: seq<Attributes>, ext: int)

  /** One call of the point kernel for point i. */
  ghost predicate Call(k: Machine, i: nat, before: Leaf, after: Leaf) {
    && i < |before.points| == |after.points|
    && PointRuns(k, before.points[i], before.ext, after.points[i], after.ext)
    && after.points == before.points[i := after.points[i]]
  }

  /** The loop block around a call, entered with counter i and left after the given number of rounds:
      call, add one, and go round again while the counter was below the count minus one. */
  ghost predicate LoopEnds<S(!new)>(call: (nat, S, S) -> bool, count: nat, i: nat, before: S, after: S, rounds: nat)
    decreases rounds, 1
  {
    rounds > 0 && (exists mid: S :: call(i, before, mid) && GoesOn(call, count, i, mid, after, rounds))
  }

  ghost predicate GoesOn<S(!new)>(call: (nat, S, S) -> bool, count: nat, i: nat, mid: S, after: S, rounds: nat)
    requires rounds > 0
    decreases rounds, 0
  {
    if i < Sub64(count, 1) then LoopEnds(call, count, Add64(i, 1), mid, after, rounds - 1)
    else rounds == 1 && mid == after
  }

  ghost function CallsOf(k: Machine): (nat, Leaf, Leaf) -> bool {
    (i: nat, before: Leaf, after: Leaf) => Call(k, i, before, after)
  }

  ghost predicate LoopRuns(k: Machine, count: nat, i: nat, before: Leaf, after: Leaf, rounds: nat) {
    LoopEnds(CallsOf(k), count, i, before, after, rounds)
  }

  /** The range kernel called with a point count. */
  ghost predicate RangeRuns(k: Machine, count: nat, before: Leaf, after: Leaf) {
    exists rounds: nat :: LoopRuns(k, count, 0, before, after, rounds)
  }

  /** The program applied to one point. */
  ghost predicate Applied(cx: Context, root: Stmts, reg: Registry, i: nat, before: Leaf, after: Leaf) {
    && i < |before.points| == |after.points|
    && PointMeans(cx, root, reg, before.points[i], before.ext, after.points[i], after.ext)
    && after.points == before.points[i := after.points[i]]
  }

  /** The program applied once to each point from i on, in order. */
  ghost predicate AppliedToAll(cx: Context, root: Stmts, reg: Registry, i: nat, before: Leaf, after: Leaf)
    requires i <= |before.points|
    decreases |before.points| - i
  {
    if i == |before.points| then before == after
    else exists mid: Leaf :: Applied(cx, root, reg, i, before, mid) && AppliedToAll(cx, root, reg, i + 1, mid, after)
  }

  ghost predicate AllProvide(points: seq<Attributes>, reg: Registry) {
    forall i | 0 <= i < |points| :: Provides(points[i], reg)
  }

  lemma CallApplies(m: Machine, k: Machine, root: Stmts, reg: Registry, i: nat, before: Leaf, after: Leaf)
    requires IsKernel(m, k, root, reg) && Kernel(m.cx.functions, root, reg) == Some(k.code) && Covers(reg, root)
    requires AllProvide(before.points, reg)
    ensures Call(k, i, before, after) <==> Applied(m.cx, root, reg, i, before, after)
    ensures Call(k, i, before, after) ==> AllProvide(after.points, reg)
  {
    hide IsKernel, Kernel, Covers, PointRuns, PointMeans, Provides;
    if i < |before.points| == |after.points| {
      PointKernelCorrect(m, k, root, reg, before.points[i], before.ext, after.points[i], after.ext);
      if Call(k, i, before, after) {
        StillProvides(m.cx, root, reg, before.points[i], before.ext, after.points[i], after.ext);
      }
    }
  }

  /** The program leaves a value of the right size for every attribute. */
  lemma StillProvides(cx: Context, root: Stmts, reg: Registry, attrs: Attributes, ext: int, attrs1: Attributes,
      ext1: int)
    requires PointMeans(cx, root, reg, attrs, ext, attrs1, ext1) && Covers(reg, root)
    ensures Provides(attrs1, reg)
  {
    hide PointEnds;
    var final: State :| PointEnds(cx, root, reg, attrs, ext, final) && attrs1 == Stored(reg, final.mem, attrs) &&
                        ext1 == final.ext;
    forall i | 0 <= i < |reg| ensures reg[i].key in attrs1 && |attrs1[reg[i].key]| == SizeOf(reg[i].key) {
      StoredAt(reg, final.mem, attrs, i);
    }
  }

  lemma {:induction false} LoopApplies(m: Machine, k: Machine, root: Stmts, reg: Registry, i: nat, before: Leaf,
      after: Leaf)
    requires IsKernel(m, k, root, reg) && Kernel(m.cx.functions, root, reg) == Some(k.code) && Covers(reg, root)
    requires i < |before.points| < WORD && AllProvide(before.points, reg)
    ensures LoopRuns(k, |before.points|, i, before, after, |before.points| - i) <==>
            AppliedToAll(m.cx, root, reg, i, before, after)
    decreases |before.points| - i
  {
    hide IsKernel, Kernel, Covers, Call, AllProvide, PointMeans;
    var n := |before.points|;
    assert Sub64(n, 1) == n - 1 && Add64(i, 1) == i + 1;
    if LoopRuns(k, n, i, before, after, n - i) {
      var mid: Leaf :| Call(k, i, before, mid) && GoesOn(CallsOf(k), n, i, mid, after, n - i);
      CallApplies(m, k, root, reg, i, before, mid);
      SameCount(k, i, before, mid);
      if i < n - 1 {
        LoopApplies(m, k, root, reg, i + 1, mid, after);
      }
      assert AppliedToAll(m.cx, root, reg, i + 1, mid, after);
    }
    if AppliedToAll(m.cx, root, reg, i, before, after) {
      var mid: Leaf :| Applied(m.cx, root, reg, i, before, mid) && AppliedToAll(m.cx, root, reg, i + 1, mid, after);
      CallApplies(m, k, root, reg, i, before, mid);
      SameCount(k, i, before, mid);
      if i < n - 1 {
        LoopApplies(m, k, root, reg, i + 1, mid, after);
      }
      assert CallsOf(k)(i, before, mid) && GoesOn(CallsOf(k), n, i, mid, after, n - i);
    }
  }

  lemma SameCount(k: Machine, i: nat, before: Leaf, after: Leaf)
    requires Call(k, i, before, after)
    ensures |after.points| == |before.points|
  {
  }

  /** Whatever is called, the loop makes exactly as many rounds as there are indices left; the last index
      is the count minus one as a machine word. */
  lemma {:induction false} RoundsAre<S(!new)>(call: (nat, S, S) -> bool, count: nat, i: nat, before: S, after: S,
      rounds: nat)
    requires i <= Sub64(count, 1) && LoopEnds(call, count, i, before, after, rounds)
    ensures rounds == Sub64(count, 1) - i + 1
    decreases rounds
  {
    var mid: S :| call(i, before, mid) && GoesOn(call, count, i, mid, after, rounds);
    if i < Sub64(count, 1) {
      assert Add64(i, 1) == i + 1;
      RoundsAre(call, count, i + 1, mid, after, rounds - 1);
    }
  }

  ghost predicate CanReturn<S(!new)>(call: (nat, S, S) -> bool, i: nat, before: S) {
    exists after: S :: call(i, before, after)
  }

  ghost predicate AlwaysReturns<S(!new)>(call: (nat, S, S) -> bool) {
    forall i: nat, before: S :: CanReturn(call, i, before)
  }

  /** If every call returns, the loop ends. */
  lemma {:induction false} LoopCanEnd<S(!new)>(call: (nat, S, S) -> bool, count: nat, i: nat, before: S)
    returns (after: S)
    requires i <= Sub64(count, 1) && AlwaysReturns(call)
    ensures LoopEnds(call, count, i, before, after, Sub64(count, 1) - i + 1)
    decreases Sub64(count, 1) - i
  {
    assert CanReturn(call, i, before);
    var mid: S :| call(i, before, mid);
    after := mid;
    if i < Sub64(count, 1) {
      assert Add64(i, 1) == i + 1;
      after := LoopCanEnd(call, count, i + 1, mid);
    }
    assert GoesOn(call, count, i, mid, after, Sub64(count, 1) - i + 1);
  }

  /** For every accepted program and every number of points from one on: running the range kernel is
      applying the source program once to each point, in order. */
  lemma RangeKernelCorrect(m: Machine, k: Machine, root: Stmts, reg: Registry, before: Leaf, after: Leaf)
    requires IsKernel(m, k, root, reg) && Kernel(m.cx.functions, root, reg) == Some(k.code) && Covers(reg, root)
    requires 1 <= |before.points| < WORD && AllProvide(before.points, reg)
    ensures RangeRuns(k, |before.points|, before, after) <==> AppliedToAll(m.cx, root, reg, 0, before, after)
  {
    hide IsKernel, Kernel, Covers, AllProvide, LoopEnds;
    LoopApplies(m, k, root, reg, 0, before, after);
    if RangeRuns(k, |before.points|, before, after) {
      var rounds: nat :| LoopRuns(k, |before.points|, 0, before, after, rounds);
      RoundsAre(CallsOf(k), |before.points|, 0, before, after, rounds);
    }
  }

  /** With a count of zero the bound wraps round: the loop makes exactly 2^64 rounds, whatever is
      called, and makes them all if every call returns. */
  lemma NoPointsGoAllTheWay<S(!new)>(call: (nat, S, S) -> bool, before: S)
    requires AlwaysReturns(call)
    ensures exists after :: LoopEnds(call, 0, 0, before, after, WORD)
    ensures forall after, rounds: nat :: LoopEnds(call, 0, 0, before, after, rounds) ==> rounds == WORD
  {
    hide AlwaysReturns, LoopEnds;
    assert Sub64(0, 1) == WORD - 1;
    var last := LoopCanEnd(call, 0, 0, before);
    assert LoopEnds(call, 0, 0, before, last, WORD);
    forall after, rounds: nat | LoopEnds(call, 0, 0, before, after, rounds) ensures rounds == WORD {
      RoundsAre(call, 0, 0, before, after, rounds);
    }
  }
}
