/**
The three integer modulo functions at 16, 32 and 64 bits, each as the C code the library binds and
as the branch-free instructions it emits.
*/
module Modulo {

  datatype Width = W16 | W32 | W64 {
    function Half(): int {
      match this
      case W16 => 0x8000
      case W32 => 0x8000_0000
      case W64 => 0x8000_0000_0000_0000
    }

    predicate Holds(x: int) {
      -Half() <= x < Half()
    }

    /** Two's complement: what is left of a number in a register of this width. */
    function Wrap(x: int): (r: int)
      ensures Holds(r) && (Holds(x) ==> r == x)
    {
      (x + Half()) % (2 * Half()) - Half()
    }
  }

  /** The operands for which the machine's remainder is defined. */
  predicate Divides(w: Width, D: int, d: int) {
    w.Holds(D) && w.Holds(d) && d != 0 && !(D == -w.Half() && d == -1)
  }

  function Abs(x: int): nat {
    if x < 0 then -x else x
  }

  /** The machine's remainder: the dividend's sign, and the remainder of the magnitudes. */
  function Rem(D: int, d: int): (r: int)
    requires d != 0
    ensures Abs(r) < Abs(d) && (r > 0 ==> D > 0) && (r < 0 ==> D < 0)
  {
    if D == 0 then 0 else if D > 0 then D % Abs(d) else -((-D) % Abs(d))
  }

  function Quotient(D: int, d: int): real
    requires d != 0
  {
    D as real / d as real
  }

  function Ceiling(x: real): int {
    -(-x).Floor
  }

  function Truncate(x: real): int {
    if x >= 0.0 then x.Floor else Ceiling(x)
  }

  ghost predicate Congruent(a: int, b: int, d: int) {
    exists k :: a == b + Times(k, d)
  }

  function Times(k: int, d: int): int {
    k * d
  }

  // ---------------------------------------------------------------------------------------
  // Roundings of the quotient

  /** An integer is the floor of a quotient exactly when the remainder it leaves has the divisor's sign. */
  lemma FloorOf(D: int, d: int, q: int, r: int)
    requires d != 0 && D == q * d + r && (if d > 0 then 0 <= r < d else d < r <= 0)
    ensures Quotient(D, d).Floor == q
  {
    var x, y := D as real, d as real;
    assert x == q as real * y + r as real;
    var f := r as real / y;
    assert f * y == r as real;
    ProperFraction(f, r as real, y);
    assert (q as real + f) * y == x;
    Cancel(Quotient(D, d), q as real + f, y);
  }

  lemma ProperFraction(f: real, r: real, y: real)
    requires f * y == r && (if y > 0.0 then 0.0 <= r < y else y < r <= 0.0)
    ensures 0.0 <= f < 1.0
  {
    var g := f - 1.0;
    assert g * y == r - y;
    SameSign(f, y);
    SameSign(g, y);
  }

  lemma SameSign(f: real, y: real)
    requires y != 0.0
    ensures f * y > 0.0 <==> f != 0.0 && (f > 0.0 <==> y > 0.0)
    ensures f * y < 0.0 <==> f != 0.0 && (f > 0.0 <==> y < 0.0)
  {}

  lemma Cancel(a: real, b: real, y: real)
    requires y != 0.0 && a * y == b * y
    ensures a == b
  {
    assert (a - b) * y == 0.0;
  }

  lemma CeilingOf(D: int, d: int, q: int, r: int)
    requires d != 0 && D == q * d + r && (if d > 0 then -d < r <= 0 else 0 <= r < -d)
    ensures Ceiling(Quotient(D, d)) == q
  {
    assert -D == (-q) * d + (-r);
    FloorOf(-D, d, -q, -r);
    Cancel(Quotient(-D, d), -Quotient(D, d), d as real);
  }

  lemma SignOfQuotient(D: int, d: int)
    requires d != 0
    ensures Quotient(D, d) >= 0.0 <==> (D == 0 || (D > 0) == (d > 0))
  {
    var x, y, q := D as real, d as real, Quotient(D, d);
    assert q * y == x;
    if q >= 0.0 {
      if d > 0 { assert q * y >= 0.0; } else { assert q * y <= 0.0; }
    } else {
      if d > 0 { assert q * y < 0.0; } else { assert q * y > 0.0; }
    }
  }

  lemma DivMod(a: nat, m: int) returns (k: int)
    requires m > 0
    ensures a == k * m + a % m && (a == 0 ==> a % m == 0)
  {
    k := a / m;
  }

  lemma Negate(k: int, d: int)
    ensures (-k) * d == -(k * d) && k * (-d) == -(k * d)
  {}

  lemma RemLeaves(D: int, d: int) returns (k: int)
    requires d != 0
    ensures D == k * d + Rem(D, d)
  {
    k := DivMod(if D >= 0 then D else -D, if d > 0 then d else -d);
    Negate(k, d);
    if (D >= 0) != (d > 0) { k := -k; }
  }

  /** The machine's remainder is what truncating the quotient leaves. */
  lemma RemIsTruncated(D: int, d: int)
    requires d != 0
    ensures Rem(D, d) == D - d * Truncate(Quotient(D, d))
  {
    var k := RemLeaves(D, d);
    SignOfQuotient(D, d);
    if D == 0 {
      FloorOf(D, d, k, Rem(D, d));
    } else if (D > 0) == (d > 0) {
      FloorOf(D, d, k, Rem(D, d));
    } else {
      CeilingOf(D, d, k, Rem(D, d));
    }
  }

  // ---------------------------------------------------------------------------------------
  // Floored modulo

  /** What flooring the quotient leaves, as the documentation of `floormod` has it. */
  function Floored(D: int, d: int): int
    requires d != 0
  {
    D - d * Quotient(D, d).Floor
  }

  /** What flooring or ceiling the quotient by the divisor's sign leaves, as `euclideanmod` is documented. */
  function Euclidean(D: int, d: int): int
    requires d != 0
  {
    D - d * (if d < 0 then Ceiling(Quotient(D, d)) else Quotient(D, d).Floor)
  }

  /** The C form. The correction stays within the width. */
  method FloorMod(w: Width, D: int, d: int) returns (r: int)
    requires Divides(w, D, d)
    ensures r == Floored(D, d)
    ensures w.Holds(r)
  {
    r := Rem(D, d);
    FlooredIs(D, d);
    if (r > 0 && d < 0) || (r < 0 && d > 0) {
      assert w.Holds(r + d);
      r := r + d;
    }
  }

  /** The emitted form, which computes both outcomes and selects one; sums wrap around. */
  function FloorModIR(w: Width, D: int, d: int): int
    requires Divides(w, D, d)
  {
    var r := w.Wrap(Rem(D, d));
    var above := r > 0 && d < 0;
    var below := r < 0 && d > 0;
    Select(above || below, w.Wrap(r + d), r)
  }

  function Select(condition: bool, onTrue: int, onFalse: int): int {
    if condition then onTrue else onFalse
  }

  /** The floored remainder in terms of the machine's, which also gives its sign and its range. */
  lemma FlooredIs(D: int, d: int)
    requires d != 0
    ensures var r := Rem(D, d);
            Floored(D, d) == if (r > 0 && d < 0) || (r < 0 && d > 0) then r + d else r
    ensures if d > 0 then 0 <= Floored(D, d) < d else d < Floored(D, d) <= 0
  {
    var r := Rem(D, d);
    var q := Truncate(Quotient(D, d));
    RemIsTruncated(D, d);
    RemIsSmall(D, d);
    hide Rem, Truncate, Quotient;
    if (r > 0 && d < 0) || (r < 0 && d > 0) {
      OneLess(q, d);
      FloorOf(D, d, q - 1, r + d);
    } else {
      FloorOf(D, d, q, r);
    }
  }

  lemma RemIsSmall(D: int, d: int)
    requires d != 0
    ensures var r := Rem(D, d); if d > 0 then -d < r < d else d < r < -d
  {
  }

  lemma OneLess(q: int, d: int)
    ensures (q - 1) * d + d == d * q && q * d == d * q
  {
  }

  // ---------------------------------------------------------------------------------------
  // Euclidean modulo

  /** The C form. The correction stays within the width. */
  method EuclideanMod(w: Width, D: int, d: int) returns (r: int)
    requires Divides(w, D, d)
    ensures r == Euclidean(D, d)
    ensures w.Holds(r)
  {
    r := Rem(D, d);
    EuclideanIs(D, d);
    if r < 0 {
      if d > 0 {
        assert w.Holds(r + d);
        r := r + d;
      } else {
        assert w.Holds(r - d);
        r := r - d;
      }
    }
  }

  function EuclideanModIR(w: Width, D: int, d: int): int
    requires Divides(w, D, d)
  {
    var r := w.Wrap(Rem(D, d));
    var corrected := Select(d > 0, w.Wrap(r + d), w.Wrap(r - d));
    Select(r < 0, corrected, r)
  }

  lemma EuclideanIs(D: int, d: int)
    requires d != 0
    ensures var r := Rem(D, d);
            Euclidean(D, d) == if r >= 0 then r else if d > 0 then r + d else r - d
    ensures 0 <= Euclidean(D, d) < Abs(d)
  {
    var r := Rem(D, d);
    var q := Truncate(Quotient(D, d));
    RemIsTruncated(D, d);
    if d > 0 {
      FlooredIs(D, d);
    } else if r >= 0 {
      assert D == q * d + r;
      CeilingOf(D, d, q, r);
    } else {
      assert D == (q + 1) * d + (r - d);
      CeilingOf(D, d, q + 1, r - d);
    }
  }

  // ---------------------------------------------------------------------------------------
  // Relations between the three

  /** Both emitted forms compute what the C forms compute, although an unselected sum may wrap. */
  lemma EmittedFormsAgree(w: Width, D: int, d: int)
    requires Divides(w, D, d)
    ensures FloorModIR(w, D, d) == Floored(D, d)
    ensures EuclideanModIR(w, D, d) == Euclidean(D, d)
  {
    FlooredIs(D, d);
    EuclideanIs(D, d);
  }

  lemma AllCongruent(D: int, d: int)
    requires d != 0
    ensures Congruent(D, Rem(D, d), d)
    ensures Congruent(Floored(D, d), Rem(D, d), d)
    ensures Congruent(Euclidean(D, d), Rem(D, d), d)
  {
    RemIsTruncated(D, d);
    FlooredIs(D, d);
    EuclideanIs(D, d);
    assert D == Rem(D, d) + Times(Truncate(Quotient(D, d)), d);
    assert Times(1, d) == d && Times(0, d) == 0 && Times(-1, d) == -d;
  }

  lemma Apart(a: int, b: int, d: int)
    requires Congruent(a, b, d) && a != b
    ensures Abs(a - b) >= Abs(d)
  {
    var k :| a == b + Times(k, d);
    if k > 0 {
      assert if d > 0 then k * d >= d else k * d <= d;
    } else {
      assert k != 0;
      assert if d > 0 then k * d <= -d else k * d >= -d;
    }
  }

  /** The ranges and the congruence leave no choice: each modulo is the only number it can be. */
  lemma OnlyOne(D: int, d: int, r: int)
    requires d != 0 && Congruent(r, Rem(D, d), d)
    ensures (if d > 0 then 0 <= r < d else d < r <= 0) <==> r == Floored(D, d)
    ensures 0 <= r < Abs(d) <==> r == Euclidean(D, d)
  {
    FlooredIs(D, d);
    EuclideanIs(D, d);
    AllCongruent(D, d);
    var k :| r == Rem(D, d) + Times(k, d);
    var f :| Floored(D, d) == Rem(D, d) + Times(f, d);
    var e :| Euclidean(D, d) == Rem(D, d) + Times(e, d);
    assert r == Floored(D, d) + Times(k - f, d) && r == Euclidean(D, d) + Times(k - e, d);
    if r != Floored(D, d) { Apart(r, Floored(D, d), d); }
    if r != Euclidean(D, d) { Apart(r, Euclidean(D, d), d); }
  }

  /** The three differ only where a sign is negative and the division is not exact. */
  lemma WhereTheyDiffer(D: int, d: int)
    requires d != 0
    ensures Floored(D, d) == Rem(D, d) <==> (Rem(D, d) == 0 || (D > 0) == (d > 0))
    ensures Euclidean(D, d) == Rem(D, d) <==> (Rem(D, d) == 0 || D > 0)
    ensures Floored(D, d) == Euclidean(D, d) <==> (Rem(D, d) == 0 || d > 0)
  {
    FlooredIs(D, d);
    EuclideanIs(D, d);
  }
}
