/** APR_ALIGN on unsigned integers of any width `w`: the bit mask against "least multiple not
    below".  Bits are those of the binary representation; `+` and `-` wrap at `2^w`. */
module Align {

  function Pow2(k: nat): (p: nat)
    ensures p > 0
  {
    if k == 0 then 1 else 2 * Pow2(k - 1)
  }

  function And(x: nat, y: nat): nat {
    if x == 0 || y == 0 then 0
    else 2 * And(x / 2, y / 2) + (if x % 2 == 1 && y % 2 == 1 then 1 else 0)
  }

  function Not(w: nat, x: nat): nat
    requires x < Pow2(w)
  {
    Pow2(w) - 1 - x
  }

  /** `((size) + ((boundary) - 1)) & ~((boundary) - 1)` */
  function AlignTo(w: nat, size: nat, boundary: nat): nat
    requires size < Pow2(w) && boundary < Pow2(w)
  {
    var less := (boundary + Pow2(w) - 1) % Pow2(w);
    And((size + less) % Pow2(w), Not(w, less))
  }

  function AlignDefault(w: nat, size: nat): nat
    requires size < Pow2(w) && 8 < Pow2(w)
  {
    AlignTo(w, size, 8)
  }

  // ----- the bit operations are the bitwise ones -----

  predicate Bit(x: nat, i: nat) {
    if i == 0 then x % 2 == 1 else Bit(x / 2, i - 1)
  }

  lemma {:induction false} AndIsBitwise(x: nat, y: nat, i: nat)
    ensures Bit(And(x, y), i) <==> Bit(x, i) && Bit(y, i)
  {
    if x == 0 || y == 0 {
      ZeroHasNoBits(i);
    } else if i > 0 {
      AndIsBitwise(x / 2, y / 2, i - 1);
      assert And(x, y) / 2 == And(x / 2, y / 2);
    }
  }

  lemma {:induction false} ZeroHasNoBits(i: nat)
    ensures !Bit(0, i)
  {
    if i > 0 { ZeroHasNoBits(i - 1); }
  }

  lemma {:induction false} NotIsBitwise(w: nat, x: nat, i: nat)
    requires x < Pow2(w) && i < w
    ensures Bit(Not(w, x), i) <==> !Bit(x, i)
  {
    if i > 0 {
      assert Not(w, x) / 2 == Not(w - 1, x / 2);
      NotIsBitwise(w - 1, x / 2, i - 1);
    }
  }

  // ----- arithmetic -----

  lemma MulAtLeast(d: int, k: int)
    requires d > 0
    ensures k >= 1 ==> d * k >= d
    ensures k <= -1 ==> d * k <= -d
  {
  }

  lemma DivisionIsUnique(x: int, d: int, q: int, r: int)
    requires d > 0 && x == d * q + r && 0 <= r < d
    ensures x / d == q && x % d == r
  {
    assert d * (x / d - q) == r - x % d;
    MulAtLeast(d, x / d - q);
  }

  lemma Divided(x: int, d: int)
    requires d > 0
    ensures x == d * (x / d) + x % d && 0 <= x % d < d
  {
  }

  lemma SubstituteQuotients(x: int, s: int, a: int, q: int, b: int, c: int)
    requires x == (s * a) * q + (s * b + c)
    ensures x == s * (a * q + b) + c
  {
  }

  lemma RemainderThrough(x: nat, small: nat, big: nat, a: nat, q: nat, m: nat, b: nat, c: nat)
    requires c < small && big == small * a && x == big * q + m && m == small * b + c
    ensures x % small == c
  {
    SubstituteQuotients(x, small, a, q, b, c);
    DivisionIsUnique(x, small, a * q + b, c);
  }

  lemma HalvedRemainder(x: nat, d: nat)
    requires d > 0
    ensures x % (2 * d) == 2 * ((x / 2) % d) + x % 2
  {
    var q := x / 2;
    assert q == d * (q / d) + q % d;
    assert x == (2 * d) * (q / d) + (2 * (q % d) + x % 2);
    DivisionIsUnique(x, 2 * d, q / d, 2 * (q % d) + x % 2);
  }

  lemma {:induction false} AndAllOnes(w: nat, x: nat)
    requires x < Pow2(w)
    ensures And(x, Pow2(w) - 1) == x
  {
    if w > 0 && x > 0 {
      var ones, half := Pow2(w) - 1, Pow2(w - 1) - 1;
      assert ones == 2 * half + 1;
      AndAllOnes(w - 1, x / 2);
      assert And(x, ones) == 2 * And(x / 2, half) + x % 2;
    }
  }

  lemma {:induction false} Pow2Monotone(j: nat, k: nat)
    requires j <= k
    ensures Pow2(j) <= Pow2(k) && Pow2(k) % Pow2(j) == 0
  {
    if j < k {
      Pow2Monotone(j, k - 1);
      var q := Pow2(k - 1) / Pow2(j);
      assert Pow2(k) == Pow2(j) * (2 * q);
      DivisionIsUnique(Pow2(k), Pow2(j), 2 * q, 0);
    } else {
      DivisionIsUnique(Pow2(k), Pow2(j), 1, 0);
    }
  }

  /** Masking with the complement of `2^k - 1` clears the remainder modulo `2^k`. */
  lemma {:induction false} MaskClearsRemainder(w: nat, k: nat, x: nat)
    requires k <= w && x < Pow2(w)
    ensures Pow2(k) <= Pow2(w)
    ensures And(x, Not(w, Pow2(k) - 1)) == x - x % Pow2(k)
  {
    Pow2Monotone(k, w);
    if k == 0 {
      AndAllOnes(w, x);
    } else {
      var m := Not(w, Pow2(k) - 1);
      assert m == 2 * (Pow2(w - 1) - Pow2(k - 1));
      MaskClearsRemainder(w - 1, k - 1, x / 2);
      assert m / 2 == Not(w - 1, Pow2(k - 1) - 1) && m % 2 == 0;
      HalvedRemainder(x, Pow2(k - 1));
    }
  }

  // ----- the macro -----

  predicate Overflows(w: nat, size: nat, boundary: nat) {
    size + boundary - 1 >= Pow2(w)
  }

  lemma AlignValue(w: nat, size: nat, k: nat)
    requires k < w && size < Pow2(w)
    ensures Pow2(k) < Pow2(w)
    ensures AlignTo(w, size, Pow2(k)) ==
      if Overflows(w, size, Pow2(k)) then 0
      else (size + Pow2(k) - 1) - (size + Pow2(k) - 1) % Pow2(k)
  {
    AlignUnfolded(w, size, k);
    var b, p, t := Pow2(k), Pow2(w), size + (Pow2(k) - 1);
    hide AlignTo;
    if t < p {
      DivisionIsUnique(t, p, 0, t);
      MaskClearsRemainder(w, k, t);
    } else {
      DivisionIsUnique(t, p, 1, t - p);
      MaskClearsRemainder(w, k, t - p);
      DivisionIsUnique(t - p, b, 0, t - p);
    }
  }

  lemma AlignUnfolded(w: nat, size: nat, k: nat)
    requires k < w && size < Pow2(w)
    ensures Pow2(k) < Pow2(w)
    ensures AlignTo(w, size, Pow2(k)) == And((size + (Pow2(k) - 1)) % Pow2(w), Not(w, Pow2(k) - 1))
  {
    Pow2Monotone(k, w - 1);
    DivisionIsUnique(Pow2(k) + Pow2(w) - 1, Pow2(w), 1, Pow2(k) - 1);
  }

  lemma RoundedDown(t: nat, b: nat)
    requires b > 0
    ensures (t - t % b) % b == 0
  {
    assert t - t % b == b * (t / b) + 0;
    DivisionIsUnique(t - t % b, b, t / b, 0);
  }

  ghost predicate LeastMultiple(r: nat, size: nat, boundary: nat)
    requires boundary > 0
  {
    && r % boundary == 0 && r >= size
    && forall m: nat :: m % boundary == 0 && m >= size ==> r <= m
  }

  lemma MultiplesApart(b: nat, x: nat, y: nat)
    requires b > 0 && x % b == 0 && y % b == 0 && x < y
    ensures x + b <= y
  {
    var i, j := x / b, y / b;
    assert b * (j - i) == y - x;
    MulAtLeast(b, j - i);
  }

  /** The result is the least multiple of the boundary not below the size exactly when the sum
      does not overflow; when it does, the result is 0. */
  lemma AlignLeastMultipleIff(w: nat, size: nat, k: nat)
    requires k < w && size < Pow2(w)
    ensures Pow2(k) < Pow2(w)
    ensures LeastMultiple(AlignTo(w, size, Pow2(k)), size, Pow2(k)) <==> size + Pow2(k) - 1 < Pow2(w)
    ensures size + Pow2(k) - 1 >= Pow2(w) ==> AlignTo(w, size, Pow2(k)) == 0
  {
    AlignValue(w, size, k);
    var b, r := Pow2(k), AlignTo(w, size, Pow2(k));
    if !Overflows(w, size, b) {
      AlignBetween(w, size, k);
      forall m: nat | m % b == 0 && m >= size ensures r <= m {
        if m < r { MultiplesApart(b, m, r); }
      }
    }
  }

  lemma AlignBetween(w: nat, size: nat, k: nat)
    requires k < w && size < Pow2(w) && !Overflows(w, size, Pow2(k))
    ensures Pow2(k) < Pow2(w)
    ensures var r := AlignTo(w, size, Pow2(k)); r % Pow2(k) == 0 && size <= r < size + Pow2(k)
  {
    AlignValue(w, size, k);
    hide AlignTo;
    RoundedDown(size + Pow2(k) - 1, Pow2(k));
  }

  /** The default boundary is 8: the size is rounded up by less than 8 to a multiple of it,
      exactly when there is room for that, and otherwise the result is 0. */
  lemma AlignDefaultExact(w: nat, size: nat)
    requires 3 < w && size < Pow2(w)
    ensures 8 < Pow2(w)
    ensures (AlignDefault(w, size) % 8 == 0 && size <= AlignDefault(w, size) < size + 8)
       <==> size + 7 < Pow2(w)
    ensures size + 7 >= Pow2(w) ==> AlignDefault(w, size) == 0
  {
    assert Pow2(3) == 8;
    AlignLeastMultipleIff(w, size, 3);
    if !Overflows(w, size, 8) { AlignBetween(w, size, 3); }
  }

  lemma AlignFits(w: nat, size: nat, k: nat)
    requires k < w && size < Pow2(w)
    ensures Pow2(k) < Pow2(w) && AlignTo(w, size, Pow2(k)) < Pow2(w)
    ensures !Overflows(w, AlignTo(w, size, Pow2(k)), Pow2(k))
    ensures AlignTo(w, size, Pow2(k)) % Pow2(k) == 0
  {
    AlignValue(w, size, k);
    var b, r := Pow2(k), AlignTo(w, size, Pow2(k));
    if Overflows(w, size, b) {
      DivisionIsUnique(0, b, 0, 0);
    } else {
      AlignBetween(w, size, k);
      Pow2Monotone(k, w);
      if r < Pow2(w) { MultiplesApart(b, r, Pow2(w)); }
    }
  }

  /** A multiple that fits is left alone. */
  lemma AlignMultiple(w: nat, size: nat, k: nat)
    requires k < w && size < Pow2(w) && size % Pow2(k) == 0
    ensures Pow2(k) < Pow2(w) && AlignTo(w, size, Pow2(k)) == size
  {
    AlignValue(w, size, k);
    Pow2Monotone(k, w);
    MultiplesApart(Pow2(k), size, Pow2(w));
    AlignLeastMultipleIff(w, size, k);
  }

  /** Aligning twice is aligning once, overflow or not. */
  lemma AlignIdempotent(w: nat, size: nat, k: nat)
    requires k < w && size < Pow2(w)
    ensures Pow2(k) < Pow2(w) && AlignTo(w, size, Pow2(k)) < Pow2(w)
    ensures AlignTo(w, AlignTo(w, size, Pow2(k)), Pow2(k)) == AlignTo(w, size, Pow2(k))
  {
    AlignFits(w, size, k);
    AlignMultiple(w, AlignTo(w, size, Pow2(k)), k);
  }

  /** A larger size is aligned no lower, exactly unless it overflows to 0 while the smaller one
      is neither 0 nor overflows. */
  lemma AlignMonotoneIff(w: nat, x: nat, y: nat, k: nat)
    requires k < w && x <= y < Pow2(w)
    ensures Pow2(k) < Pow2(w)
    ensures AlignTo(w, x, Pow2(k)) <= AlignTo(w, y, Pow2(k))
       <==> !Overflows(w, y, Pow2(k)) || Overflows(w, x, Pow2(k)) || x == 0
  {
    AlignLeastMultipleIff(w, x, k);
    AlignLeastMultipleIff(w, y, k);
    if Overflows(w, y, Pow2(k)) {
      if x == 0 { AlignZero(w, k); }
    } else {
      AlignBetween(w, y, k);
    }
  }

  lemma AlignZero(w: nat, k: nat)
    requires k < w
    ensures Pow2(k) < Pow2(w) && AlignTo(w, 0, Pow2(k)) == 0
  {
    AlignValue(w, 0, k);
    DivisionIsUnique(Pow2(k) - 1, Pow2(k), 0, Pow2(k) - 1);
  }

  /** Aligning to a boundary and then to a larger one is aligning to the larger one, overflow or
      not. */
  lemma AlignAbsorbs(w: nat, size: nat, j: nat, k: nat)
    requires j <= k < w && size < Pow2(w)
    ensures Pow2(j) < Pow2(w) && Pow2(k) < Pow2(w) && AlignTo(w, size, Pow2(j)) < Pow2(w)
    ensures AlignTo(w, AlignTo(w, size, Pow2(j)), Pow2(k)) == AlignTo(w, size, Pow2(k))
  {
    AlignFits(w, size, j);
    AlignValue(w, size, j);
    AlignValue(w, size, k);
    Pow2Monotone(j, k);
    var r := AlignTo(w, size, Pow2(j));
    AlignValue(w, r, k);
    if Overflows(w, size, Pow2(j)) {
      AlignZero(w, k);
    } else {
      AlignBetween(w, size, j);
      if !Overflows(w, size, Pow2(k)) {
        AbsorbWithoutOverflow(w, size, j, k);
      }
    }
  }

  lemma AbsorbWithoutOverflow(w: nat, size: nat, j: nat, k: nat)
    requires j <= k < w && size < Pow2(w) && Pow2(j) <= Pow2(k) < Pow2(w)
    requires !Overflows(w, size, Pow2(j)) && !Overflows(w, size, Pow2(k))
    ensures Pow2(j) < Pow2(w) && AlignTo(w, size, Pow2(j)) < Pow2(w)
    ensures AlignTo(w, AlignTo(w, size, Pow2(j)), Pow2(k)) == AlignTo(w, size, Pow2(k))
  {
    AlignFits(w, size, j);
    AlignFits(w, size, k);
    AlignBetween(w, size, k);
    var a, c := AlignTo(w, size, Pow2(j)), AlignTo(w, size, Pow2(k));
    MultipleOfMultiple(c, Pow2(k), Pow2(j), j, k);
    AlignLeastMultipleIff(w, size, j);
    assert a <= c;
    AlignLeastMultipleIff(w, a, k);
    AlignMonotoneIff(w, a, c, k);
    AlignMultiple(w, c, k);
    AlignLeastMultipleIff(w, size, k);
    AlignBetween(w, size, j);
    AlignMonotoneIff(w, size, a, k);
  }

  lemma MultipleOfMultiple(x: nat, big: nat, small: nat, j: nat, k: nat)
    requires j <= k && big == Pow2(k) && small == Pow2(j) && x % big == 0
    ensures x % small == 0
  {
    Pow2Monotone(j, k);
    var q, r := x / big, big / small;
    Divided(x, big);
    Divided(big, small);
    RemainderThrough(x, small, big, r, q, 0, 0, 0);
  }

  // ----- operands of different types -----

  function Max(a: nat, b: nat): (m: nat)
    ensures m >= a && m >= b && (m == a || m == b)
  {
    if a < b then b else a
  }

  /** `~x` for an `x` of an unsigned type of `v` bits where `int` has `i` bits.  A type narrower
      than `int` is promoted to it, and the result is then a negative `int`. */
  function Complement(i: nat, v: nat, x: nat): int
    requires x < Pow2(v)
  {
    if v < i then -1 - x else Not(v, x)
  }

  /** The text with unsigned operands of `w` and `v` bits where `int` has `i` bits.  Both operands
      of `+`, and then of `&`, are converted to the widest of `int` and their types, which takes a
      value modulo a power of two; the complement is taken before that. */
  function AlignMixed(i: nat, w: nat, v: nat, size: nat, boundary: nat): nat
    requires 0 < i && size < Pow2(w) && 0 < boundary < Pow2(v)
  {
    var modulus := Pow2(Max(i, Max(w, v)));
    And((size + (boundary - 1)) % modulus, Complement(i, v, boundary - 1) % modulus)
  }

  /** Two operands narrower than `int` are added as signed integers, whose overflow C leaves
      undefined. */
  predicate SumDefined(i: nat, w: nat, v: nat, size: nat, boundary: nat)
    requires 0 < i
  {
    w < i && v < i ==> size + boundary <= Pow2(i - 1)
  }

  lemma {:induction false} AndSeesLowBits(x: nat, y: nat, v: nat)
    requires y < Pow2(v)
    ensures And(x, y) == And(x % Pow2(v), y)
  {
    if v > 0 {
      HalvedRemainder(x, Pow2(v - 1));
      assert (x % Pow2(v)) / 2 == (x / 2) % Pow2(v - 1) && (x % Pow2(v)) % 2 == x % 2;
      AndSeesLowBits(x / 2, y / 2, v - 1);
    }
  }

  lemma RemainderOfRemainder(x: nat, small: nat, big: nat)
    requires small > 0 && big > 0 && big % small == 0
    ensures (x % big) % small == x % small && x % small <= x % big
  {
    Divided(x, big);
    Divided(big, small);
    Divided(x % big, small);
    RemainderThrough(x, small, big, big / small, x / big, x % big, (x % big) / small, (x % big) % small);
    MulAtLeast(small, (x % big) / small);
  }

  lemma ModularDifference(x: nat, big: nat, c: nat)
    requires big > 0 && c <= x % big
    ensures (x - c) % big == x % big - c
  {
    DivisionIsUnique(x - c, big, x / big, x % big - c);
  }

  lemma MixedValue(i: nat, w: nat, v: nat, size: nat, k: nat)
    requires 0 < i && k < v && size < Pow2(w)
    ensures Pow2(k) < Pow2(v) && size < Pow2(Max(i, Max(w, v)))
    ensures Pow2(k) < Pow2(Max(i, Max(w, v)))
    ensures AlignMixed(i, w, v, size, Pow2(k))
         == AlignTo(Max(i, Max(w, v)), size, Pow2(k)) % Pow2(if v < i then Max(i, w) else v)
  {
    var common, m := Max(i, Max(w, v)), if v < i then Max(i, w) else v;
    Pow2Monotone(k, v - 1);
    Pow2Monotone(v, m);
    Pow2Monotone(m, common);
    Pow2Monotone(w, common);
    AlignUnfolded(common, size, k);
    ConvertedMask(i, w, v, k);
    assert Pow2(k) < Pow2(v) <= Pow2(common);
    hide AlignTo, And, Not, Complement, Pow2;
    NarrowMask(m, common, k, (size + (Pow2(k) - 1)) % Pow2(common));
  }

  /** Converted, the complement has its low bits set up to the width of the wider of the size's type
      and `int` if the boundary was promoted, and else up to the width of the boundary's type. */
  lemma ConvertedMask(i: nat, w: nat, v: nat, k: nat)
    requires 0 < i && k < v
    ensures Pow2(k) < Pow2(v) && Pow2(k) <= Pow2(if v < i then Max(i, w) else v)
    ensures Complement(i, v, Pow2(k) - 1) % Pow2(Max(i, Max(w, v)))
         == Not(if v < i then Max(i, w) else v, Pow2(k) - 1)
  {
    var b: int, p := Pow2(k), Pow2(Max(i, Max(w, v)));
    Pow2Monotone(k, v - 1);
    Pow2Monotone(v, Max(i, Max(w, v)));
    assert b < Pow2(v) <= p;
    hide Pow2;
    if v < i {
      DivisionIsUnique(-b, p, -1, p - b);
    } else {
      DivisionIsUnique(Pow2(v) - b, p, 0, Pow2(v) - b);
    }
  }

  lemma NarrowMask(v: nat, w: nat, k: nat, t: nat)
    requires k < v <= w && t < Pow2(w)
    ensures Pow2(k) <= Pow2(v) && Pow2(k) <= Pow2(w)
    ensures And(t, Not(v, Pow2(k) - 1)) == And(t, Not(w, Pow2(k) - 1)) % Pow2(v)
  {
    Pow2Monotone(k, v);
    Pow2Monotone(v, w);
    MaskClearsRemainder(w, k, t);
    AndSeesLowBits(t, Not(v, Pow2(k) - 1), v);
    hide And, Pow2;
    MaskClearsRemainder(v, k, t % Pow2(v));
    RemainderOfRemainder(t, Pow2(k), Pow2(v));
    ModularDifference(t, Pow2(v), t % Pow2(k));
  }

  /** The result is the least multiple of the boundary not below the size if and only if size
      and boundary together fit: if the boundary's type is promoted, the wider of `int` and the
      size's type, and else the boundary's own type. */
  lemma AlignMixedIff(i: nat, w: nat, v: nat, size: nat, k: nat)
    requires 0 < i && k < v && size < Pow2(w)
    requires SumDefined(i, w, v, size, Pow2(k))
    ensures Pow2(k) < Pow2(v)
    ensures LeastMultiple(AlignMixed(i, w, v, size, Pow2(k)), size, Pow2(k))
       <==> size + Pow2(k) <= Pow2(if v < i then Max(i, w) else v)
  {
    MixedValue(i, w, v, size, k);
    hide AlignMixed, AlignTo;
    var common, m, b := Max(i, Max(w, v)), if v < i then Max(i, w) else v, Pow2(k);
    var r := AlignMixed(i, w, v, size, b);
    Pow2Monotone(m, common);
    Pow2Monotone(k, m);
    if size + b <= Pow2(m) {
      AlignBetween(common, size, k);
      DivisionIsUnique(AlignTo(common, size, b), Pow2(m), 0, AlignTo(common, size, b));
      AlignLeastMultipleIff(common, size, k);
    } else if r % b == 0 && r >= size {
      Divided(AlignTo(common, size, b), Pow2(m));
      MultiplesApart(b, r, Pow2(m));
      assert false;
    }
  }

  /** With both types narrower than `int` nothing goes wrong as long as the sum is defined. */
  lemma AlignPromoted(i: nat, w: nat, v: nat, size: nat, k: nat)
    requires w < i && k < v < i && size < Pow2(w)
    requires size + Pow2(k) <= Pow2(i - 1)
    ensures Pow2(k) < Pow2(v)
    ensures LeastMultiple(AlignMixed(i, w, v, size, Pow2(k)), size, Pow2(k))
  {
    AlignMixedIff(i, w, v, size, k);
  }

  /** `AlignTo` is this text when the size's type is not narrower than `int` and the boundary has
      the same type, or one that promotes to `int`, as a small literal has. */
  lemma AlignMixedIsAlignTo(i: nat, w: nat, v: nat, size: nat, k: nat)
    requires 0 < i <= w && k < v && (v == w || v < i) && size < Pow2(w)
    ensures Pow2(k) < Pow2(v) && Pow2(k) < Pow2(w)
    ensures AlignMixed(i, w, v, size, Pow2(k)) == AlignTo(w, size, Pow2(k))
  {
    MixedValue(i, w, v, size, k);
    AlignFits(w, size, k);
    hide AlignMixed, AlignTo;
    DivisionIsUnique(AlignTo(w, size, Pow2(k)), Pow2(w), 0, AlignTo(w, size, Pow2(k)));
  }

  /** A size equal to the range of a boundary type that is narrower than the size's but not than
      `int` is a multiple already, and comes out as 0. */
  lemma NarrowBoundaryLosesSize(i: nat, w: nat, v: nat, k: nat)
    requires 0 < i <= v < w && k < v
    ensures Pow2(v) < Pow2(w) && Pow2(k) < Pow2(v)
    ensures AlignMixed(i, w, v, Pow2(v), Pow2(k)) == 0 && Pow2(v) % Pow2(k) == 0
  {
    Pow2Monotone(v, w - 1);
    Pow2Monotone(k, v);
    MixedValue(i, w, v, Pow2(v), k);
    AlignMultiple(w, Pow2(v), k);
    hide AlignMixed, AlignTo;
    DivisionIsUnique(Pow2(v), Pow2(v), 1, 0);
  }

  lemma {:induction false} Pow2Plus(a: nat, b: nat)
    ensures Pow2(a + b) == Pow2(a) * Pow2(b)
  {
    if a > 0 { Pow2Plus(a - 1, b); }
  }

  lemma Powers()
    ensures Pow2(3) == 8 && Pow2(8) == 256 && Pow2(16) == 0x1_0000 && Pow2(31) == 0x8000_0000
    ensures Pow2(32) == 0x1_0000_0000 && Pow2(32) < Pow2(64)
  {
    assert Pow2(3) == 8 && Pow2(4) == 16;
    Pow2Plus(4, 4);
    Pow2Plus(8, 8);
    Pow2Plus(16, 16);
    Pow2Monotone(33, 64);
  }

  /** For instance 2^32 aligned to 8, with a 32-bit `int`, a 64-bit size and a boundary of type
      `unsigned int`. */
  lemma UnsignedIntBoundary()
    ensures 8 < Pow2(32) == 0x1_0000_0000 < Pow2(64)
    ensures AlignMixed(32, 64, 32, 0x1_0000_0000, 8) == 0
  {
    Powers();
    hide Pow2, AlignMixed;
    NarrowBoundaryLosesSize(32, 64, 32, 3);
  }

  /** With a boundary of type `unsigned char` nothing goes wrong, whether the size has 64 bits or,
      like the boundary, fewer than `int`. */
  lemma UnsignedCharBoundary()
    ensures 8 < Pow2(8) && 300 < Pow2(16) && 300 < Pow2(64)
    ensures AlignMixed(32, 64, 8, 300, 8) == 304 && AlignMixed(32, 16, 8, 300, 8) == 304
  {
    Powers();
    hide Pow2, AlignMixed;
    AlignMixedIff(32, 64, 8, 300, 3);
    AlignMixedIff(32, 16, 8, 300, 3);
    assert 304 % 8 == 0;
  }

  // ----- boundaries that are no powers of two -----

  predicate HalvesToOne(b: nat) {
    b == 1 || (b > 1 && b % 2 == 0 && HalvesToOne(b / 2))
  }

  lemma {:induction false} Pow2Halves(k: nat)
    ensures HalvesToOne(Pow2(k))
  {
    if k > 0 { Pow2Halves(k - 1); }
  }

  lemma {:induction false} HalvesIsPow2(b: nat) returns (k: nat)
    requires HalvesToOne(b)
    ensures b == Pow2(k)
  {
    if b == 1 {
      k := 0;
    } else {
      k := HalvesIsPow2(b / 2);
      k := k + 1;
    }
  }

  lemma {:induction false} AndNot(w: nat, x: nat)
    requires x < Pow2(w)
    ensures And(x, Not(w, x)) == 0
  {
    if x > 0 && Not(w, x) > 0 {
      assert Not(w, x) / 2 == Not(w - 1, x / 2);
      AndNot(w - 1, x / 2);
    }
  }

  /** What the mask makes of the boundary itself is the boundary only for powers of two. */
  lemma {:induction false} LowestBit(w: nat, b: nat)
    requires 0 < b < Pow2(w)
    ensures 0 < And(b, Not(w, b - 1)) <= b
    ensures And(b, Not(w, b - 1)) == b <==> HalvesToOne(b)
  {
    var m := Not(w, b - 1);
    if b % 2 == 1 {
      assert m / 2 == Not(w - 1, b / 2) && m % 2 == 1;
      AndNot(w - 1, b / 2);
      assert And(b, m) == 2 * And(b / 2, m / 2) + 1;
    } else {
      assert m / 2 == Not(w - 1, b / 2 - 1) && m % 2 == 0;
      LowestBit(w - 1, b / 2);
      assert And(b, m) == 2 * And(b / 2, m / 2);
    }
  }

  lemma AlignOne(w: nat, b: nat)
    requires 0 < b < Pow2(w) && 1 < Pow2(w)
    ensures AlignTo(w, 1, b) == And(b, Not(w, b - 1))
  {
    DivisionIsUnique(b + Pow2(w) - 1, Pow2(w), 1, b - 1);
    DivisionIsUnique(b, Pow2(w), 0, b);
  }

  /** The mask is right for every size that does not overflow if and only if the boundary is a
      power of two; for any other boundary it already fails on the size 1. */
  lemma OnlyPowersOfTwo(w: nat, b: nat)
    requires 0 < b < Pow2(w)
    ensures (forall size: nat :: size + b - 1 < Pow2(w) ==> LeastMultiple(AlignTo(w, size, b), size, b))
       <==> exists k: nat :: b == Pow2(k)
    ensures (exists k: nat :: b == Pow2(k)) <==> LeastMultiple(AlignTo(w, 1, b), 1, b)
  {
    if k: nat :| b == Pow2(k) {
      if k >= w { Pow2Monotone(w, k); }
      assert k < w;
      forall size: nat | size + b - 1 < Pow2(w) ensures LeastMultiple(AlignTo(w, size, b), size, b) {
        AlignLeastMultipleIff(w, size, k);
      }
    }
    AlignOne(w, b);
    LowestBit(w, b);
    DivisionIsUnique(b, b, 1, 0);
    if LeastMultiple(AlignTo(w, 1, b), 1, b) {
      var r := AlignTo(w, 1, b);
      if r < b { DivisionIsUnique(r, b, 0, r); }
      var k := HalvesIsPow2(b);
    }
  }
}
