/**
  How long the checksum register takes to come back to where it was, and with it which errors
  of two bits the RTU check misses. A word stands for a polynomial over GF(2) modulo the
  generator, and one round of the inner loop multiplies it by x; squaring gives the powers of
  x that decide the period.
 */
module ModbusCrcPeriod {
  import opened Common
  import opened ModbusCrc

  /** A register, bit by bit. */
  datatype Poly = Poly(
    b0: bool, b1: bool, b2: bool, b3: bool, b4: bool, b5: bool, b6: bool, b7: bool,
    b8: bool, b9: bool, b10: bool, b11: bool, b12: bool, b13: bool, b14: bool, b15: bool)

  function Bits(w: Word): Poly {
    Poly(w[0], w[1], w[2], w[3], w[4], w[5], w[6], w[7], w[8], w[9], w[10], w[11], w[12], w[13], w[14], w[15])
  }

  /** Multiplication by x. */
  function TimesX(w: Poly): Poly {
    Poly(w.b1 != w.b0, w.b2, w.b3, w.b4, w.b5, w.b6, w.b7, w.b8,
         w.b9, w.b10, w.b11, w.b12, w.b13, w.b14 != w.b0, w.b15, w.b0)
  }

  lemma {:induction false} StepIsTimesX(w: Word)
    ensures Bits(Step(w)) == TimesX(Bits(w))
  {
    forall i: nat | i < 16
      ensures Step(w)[i] == ((i < 15 && w[i + 1]) != (w[0] && POLY[i]))
    {
      StepAt(w, i);
    }
  }

  function Get(p: Poly, i: nat): bool
    requires i < 16
  {
    match i
    case 0 => p.b0
    case 1 => p.b1
    case 2 => p.b2
    case 3 => p.b3
    case 4 => p.b4
    case 5 => p.b5
    case 6 => p.b6
    case 7 => p.b7
    case 8 => p.b8
    case 9 => p.b9
    case 10 => p.b10
    case 11 => p.b11
    case 12 => p.b12
    case 13 => p.b13
    case 14 => p.b14
    case _ => p.b15
  }

  lemma {:induction false} GetBit(w: Word, i: nat)
    requires i < 16
    ensures Get(Bits(w), i) == w[i]
  {
  }

  lemma {:induction false} BitsAreAll(v: Word, w: Word, p: Poly)
    requires Bits(v) == p && Bits(w) == p
    ensures v == w
  {
    forall i: nat | i < 16
      ensures v[i] == w[i]
    {
      GetBit(v, i);
      GetBit(w, i);
    }
  }

  lemma {:induction false} TimesXIsInjective(v: Poly, w: Poly)
    requires TimesX(v) == TimesX(w)
    ensures v == w
  {
  }

  /** `one` times x to the `n`. */
  function Power(one: Poly, n: nat): Poly
    decreases n, one
  {
    if n == 0 then one else TimesX(Power(one, n - 1))
  }

  lemma {:induction false} PowerMoves(one: Poly, n: nat)
    ensures Power(TimesX(one), n) == Power(one, n + 1)
    decreases n
  {
    if n > 0 {
      PowerMoves(one, n - 1);
    }
  }

  lemma {:induction false} StepsArePowers(w: Word, p: Poly, n: nat)
    requires Bits(w) == p
    ensures Bits(Steps(w, n)) == Power(p, n)
    decreases n
  {
    if n > 0 {
      StepIsTimesX(w);
      StepsArePowers(Step(w), TimesX(p), n - 1);
      PowerMoves(p, n - 1);
    }
  }

  /** x to the `n` is 1. */
  predicate Returns(one: Poly, n: nat) {
    Power(one, n) == one
  }

  lemma {:induction false} PowersCancel(one: Poly, n: nat, k: nat)
    ensures Power(one, n + k) == Power(one, k) <==> Returns(one, n)
    decreases k
  {
    if k > 0 {
      PowersCancel(one, n, k - 1);
      if Power(one, n + k) == Power(one, k) {
        TimesXIsInjective(Power(one, n + k - 1), Power(one, k - 1));
      }
    }
  }

  // ----- Squaring -----

  /** Each power of x goes to the power with twice the exponent. */
  function Square(w: Poly): Poly {
    var t := ((w.b6 != w.b5) != (w.b4 != w.b3)) != (w.b2 != w.b1);
    Poly((t != w.b7) != w.b0, w.b8 != w.b1, w.b1, w.b9 != w.b2, w.b2, w.b10 != w.b3, w.b3, w.b11 != w.b4,
         w.b4, w.b12 != w.b5, w.b5, w.b13 != w.b6, w.b6, (w.b14 != w.b7) != w.b0, t != w.b0, (t != w.b7) != w.b15)
  }

  lemma {:induction false} SamePoly(v: Poly, w: Poly)
    requires v.b0 == w.b0 && v.b1 == w.b1 && v.b2 == w.b2 && v.b3 == w.b3
    requires v.b4 == w.b4 && v.b5 == w.b5 && v.b6 == w.b6 && v.b7 == w.b7
    requires v.b8 == w.b8 && v.b9 == w.b9 && v.b10 == w.b10 && v.b11 == w.b11
    requires v.b12 == w.b12 && v.b13 == w.b13 && v.b14 == w.b14 && v.b15 == w.b15
    ensures v == w
  {
  }

  lemma {:induction false} SquareOfTimesX(w: Poly)
    ensures Square(TimesX(w)) == TimesX(TimesX(Square(w)))
  {
    SamePoly(Square(TimesX(w)), TimesX(TimesX(Square(w))));
  }

  lemma {:induction false} PowerOfTwice(one: Poly, n: nat)
    requires Square(one) == one
    ensures Power(one, 2 * n) == Square(Power(one, n))
  {
    if n > 0 {
      PowerOfTwice(one, n - 1);
      SquareOfTimesX(Power(one, n - 1));
      assert Power(one, 2 * n) == TimesX(Power(one, 2 * n - 1)) == TimesX(TimesX(Power(one, 2 * n - 2)));
    }
  }

  /** Twice an exponent, and one more if `odd`. */
  function Twice(p: Poly, odd: bool): Poly {
    if odd then TimesX(Square(p)) else Square(p)
  }

  /** x to the `n` by repeated squaring. */
  function Ladder(x: Poly, n: nat): Poly
    requires n >= 1
    decreases n, x
  {
    if n == 1 then x else Twice(Ladder(x, n / 2), n % 2 == 1)
  }

  lemma {:induction false} LadderIsPower(one: Poly, n: nat)
    requires n >= 1 && Square(one) == one
    ensures Ladder(TimesX(one), n) == Power(one, n)
    decreases n
  {
    if n == 1 {
      assert Power(one, 0) == one;
    } else {
      LadderIsPower(one, n / 2);
      PowerOfTwice(one, n / 2);
    }
  }

  /** The polynomials 1 and x. */
  predicate OneAndX(one: Poly, x: Poly) {
    && one == Poly(false, false, false, false, false, false, false, false,
                   false, false, false, false, false, false, false, true)
    && x == Poly(false, false, false, false, false, false, false, false,
                 false, false, false, false, false, false, true, false)
  }

  lemma {:induction false} XIsTimesOne(one: Poly, x: Poly)
    requires OneAndX(one, x)
    ensures x == TimesX(one) && Square(one) == one
  {
  }

  lemma {:induction false} Rung(x: Poly, n: nat, odd: bool, m: nat, p: Poly)
    requires n >= 1 && m == (if odd then 2 * n + 1 else 2 * n) && Ladder(x, n) == p
    ensures Ladder(x, m) == Twice(p, odd)
  {
  }

  /** From x to its power 217, one rung a binary digit. */
  function Climb217(p: Poly): Poly {
    Twice(Twice(Twice(Twice(Twice(Twice(Twice(p, true), false), true), true), false), false), true)
  }

  lemma {:induction false} Rungs217(x: Poly, p1: Poly)
    requires Ladder(x, 1) == p1
    ensures Ladder(x, 217) == Climb217(p1)
  {
    var p3 := Twice(p1, true);
    Rung(x, 1, true, 3, p1);
    var p6 := Twice(p3, false);
    Rung(x, 3, false, 6, p3);
    var p13 := Twice(p6, true);
    Rung(x, 6, true, 13, p6);
    var p27 := Twice(p13, true);
    Rung(x, 13, true, 27, p13);
    var p54 := Twice(p27, false);
    Rung(x, 27, false, 54, p27);
    var p108 := Twice(p54, false);
    Rung(x, 54, false, 108, p54);
    var p217 := Twice(p108, true);
    Rung(x, 108, true, 217, p108);
  }

  function Climb1057(p: Poly): Poly {
    var half := Twice(Twice(Twice(Twice(Twice(Twice(p, false), false), false), false), true), false);
    Twice(Twice(Twice(Twice(half, false), false), false), true)
  }

  lemma {:induction false} Rungs1057(x: Poly, p1: Poly)
    requires Ladder(x, 1) == p1
    ensures Ladder(x, 1057) == Climb1057(p1)
  {
    var p2 := Twice(p1, false);
    Rung(x, 1, false, 2, p1);
    var p4 := Twice(p2, false);
    Rung(x, 2, false, 4, p2);
    var p8 := Twice(p4, false);
    Rung(x, 4, false, 8, p4);
    var p16 := Twice(p8, false);
    Rung(x, 8, false, 16, p8);
    var p33 := Twice(p16, true);
    Rung(x, 16, true, 33, p16);
    var p66 := Twice(p33, false);
    Rung(x, 33, false, 66, p33);
    var p132 := Twice(p66, false);
    Rung(x, 66, false, 132, p66);
    var p264 := Twice(p132, false);
    Rung(x, 132, false, 264, p132);
    var p528 := Twice(p264, false);
    Rung(x, 264, false, 528, p264);
    var p1057 := Twice(p528, true);
    Rung(x, 528, true, 1057, p528);
  }

  function Climb4681(p: Poly): Poly {
    var half := Twice(Twice(Twice(Twice(Twice(Twice(p, false), false), true), false), false), true);
    Twice(Twice(Twice(Twice(Twice(Twice(half, false), false), true), false), false), true)
  }

  lemma {:induction false} Rungs4681(x: Poly, p1: Poly)
    requires Ladder(x, 1) == p1
    ensures Ladder(x, 4681) == Climb4681(p1)
  {
    var p2 := Twice(p1, false);
    Rung(x, 1, false, 2, p1);
    var p4 := Twice(p2, false);
    Rung(x, 2, false, 4, p2);
    var p9 := Twice(p4, true);
    Rung(x, 4, true, 9, p4);
    var p18 := Twice(p9, false);
    Rung(x, 9, false, 18, p9);
    var p36 := Twice(p18, false);
    Rung(x, 18, false, 36, p18);
    var p73 := Twice(p36, true);
    Rung(x, 36, true, 73, p36);
    var p146 := Twice(p73, false);
    Rung(x, 73, false, 146, p73);
    var p292 := Twice(p146, false);
    Rung(x, 146, false, 292, p146);
    var p585 := Twice(p292, true);
    Rung(x, 292, true, 585, p292);
    var p1170 := Twice(p585, false);
    Rung(x, 585, false, 1170, p585);
    var p2340 := Twice(p1170, false);
    Rung(x, 1170, false, 2340, p1170);
    var p4681 := Twice(p2340, true);
    Rung(x, 2340, true, 4681, p2340);
  }

  function Climb127(p: Poly): Poly {
    Twice(Twice(Twice(Twice(Twice(Twice(p, true), true), true), true), true), true)
  }

  lemma {:induction false} Rungs127(x: Poly, p1: Poly)
    requires Ladder(x, 1) == p1
    ensures Ladder(x, 127) == Climb127(p1)
  {
    var p3 := Twice(p1, true);
    Rung(x, 1, true, 3, p1);
    var p7 := Twice(p3, true);
    Rung(x, 3, true, 7, p3);
    var p15 := Twice(p7, true);
    Rung(x, 7, true, 15, p7);
    var p31 := Twice(p15, true);
    Rung(x, 15, true, 31, p15);
    var p63 := Twice(p31, true);
    Rung(x, 31, true, 63, p31);
    var p127 := Twice(p63, true);
    Rung(x, 63, true, 127, p63);
  }

  function Climb32767(p: Poly): Poly {
    var half := Twice(Twice(Twice(Twice(Twice(Twice(p, true), true), true), true), true), true);
    Twice(Twice(half, true), true)
  }

  lemma {:induction false} Rungs32767(x: Poly, p127: Poly)
    requires Ladder(x, 127) == p127
    ensures Ladder(x, 32767) == Climb32767(p127)
  {
    var p255 := Twice(p127, true);
    Rung(x, 127, true, 255, p127);
    var p511 := Twice(p255, true);
    Rung(x, 255, true, 511, p255);
    var p1023 := Twice(p511, true);
    Rung(x, 511, true, 1023, p511);
    var p2047 := Twice(p1023, true);
    Rung(x, 1023, true, 2047, p1023);
    var p4095 := Twice(p2047, true);
    Rung(x, 2047, true, 4095, p2047);
    var p8191 := Twice(p4095, true);
    Rung(x, 4095, true, 8191, p4095);
    var p16383 := Twice(p8191, true);
    Rung(x, 8191, true, 16383, p8191);
    var p32767 := Twice(p16383, true);
    Rung(x, 16383, true, 32767, p16383);
  }

  lemma {:induction false} At217(one: Poly, x: Poly)
    requires OneAndX(one, x)
    ensures Climb217(x) != one
  {
  }

  lemma {:induction false} At1057(one: Poly, x: Poly)
    requires OneAndX(one, x)
    ensures Climb1057(x) != one
  {
  }

  lemma {:induction false} At4681(one: Poly, x: Poly)
    requires OneAndX(one, x)
    ensures Climb4681(x) != one
  {
  }

  /** x to the 127, a rest on the way to 32767. */
  predicate Halfway(p: Poly) {
    p == Poly(false, false, false, false, false, false, false, false,
              true, false, false, false, false, false, true, true)
  }

  lemma {:induction false} At127(one: Poly, x: Poly)
    requires OneAndX(one, x)
    ensures Halfway(Climb127(x))
  {
  }

  lemma {:induction false} At32767(one: Poly, x: Poly, p: Poly)
    requires OneAndX(one, x) && Halfway(p)
    ensures Climb32767(p) == one
  {
  }

  lemma {:induction false} NotAt217(one: Poly, x: Poly)
    requires x == TimesX(one) && Square(one) == one && Climb217(x) != one
    ensures !Returns(one, 217)
  {
    Rungs217(x, x);
    LadderIsPower(one, 217);
  }

  lemma {:induction false} NotAt1057(one: Poly, x: Poly)
    requires x == TimesX(one) && Square(one) == one && Climb1057(x) != one
    ensures !Returns(one, 1057)
  {
    Rungs1057(x, x);
    LadderIsPower(one, 1057);
  }

  lemma {:induction false} NotAt4681(one: Poly, x: Poly)
    requires x == TimesX(one) && Square(one) == one && Climb4681(x) != one
    ensures !Returns(one, 4681)
  {
    Rungs4681(x, x);
    LadderIsPower(one, 4681);
  }

  lemma {:induction false} BackAt32767(one: Poly, x: Poly, p: Poly)
    requires x == TimesX(one) && Square(one) == one && Climb127(x) == p && Climb32767(p) == one
    ensures Returns(one, 32767)
  {
    Rungs127(x, x);
    Rungs32767(x, p);
    LadderIsPower(one, 32767);
  }

  lemma {:induction false} Not217(one: Poly, x: Poly)
    requires OneAndX(one, x)
    ensures !Returns(one, 217)
  {
    XIsTimesOne(one, x);
    At217(one, x);
    NotAt217(one, x);
  }

  lemma {:induction false} Not1057(one: Poly, x: Poly)
    requires OneAndX(one, x)
    ensures !Returns(one, 1057)
  {
    XIsTimesOne(one, x);
    At1057(one, x);
    NotAt1057(one, x);
  }

  lemma {:induction false} Not4681(one: Poly, x: Poly)
    requires OneAndX(one, x)
    ensures !Returns(one, 4681)
  {
    XIsTimesOne(one, x);
    At4681(one, x);
    NotAt4681(one, x);
  }

  lemma {:induction false} Back32767(one: Poly, x: Poly)
    requires OneAndX(one, x)
    ensures Returns(one, 32767)
  {
    XIsTimesOne(one, x);
    At127(one, x);
    At32767(one, x, Climb127(x));
    BackAt32767(one, x, Climb127(x));
  }

  // ----- Which numbers of steps return -----

  lemma {:induction false} ReturnsDifference(one: Poly, a: nat, b: nat)
    requires Returns(one, a) && Returns(one, b) && a >= b
    ensures Returns(one, a - b)
  {
    PowersCancel(one, b, a - b);
    assert Power(one, b + (a - b)) == Power(one, a);
  }

  lemma {:induction false} ReturnsMultiple(one: Poly, a: nat, k: nat)
    requires Returns(one, a)
    ensures Returns(one, a * k)
    decreases k
  {
    if k > 0 {
      ReturnsMultiple(one, a, k - 1);
      PowersCancel(one, a, a * (k - 1));
      assert a + a * (k - 1) == a * k;
    } else {
      assert a * k == 0 && Power(one, 0) == one;
    }
  }

  /** Two numbers of steps that return have a common divisor that does. */
  lemma {:induction false} ReturnsDivisor(one: Poly, a: nat, b: nat) returns (g: nat, x: nat, y: nat)
    requires Returns(one, a) && Returns(one, b) && a > 0 && b > 0
    ensures g > 0 && a == g * x && b == g * y && Returns(one, g)
    decreases a + b
  {
    if a == b {
      g, x, y := a, 1, 1;
    } else if a > b {
      ReturnsDifference(one, a, b);
      g, x, y := ReturnsDivisor(one, a - b, b);
      assert g * (x + y) == g * x + g * y;
      x := x + y;
    } else {
      ReturnsDifference(one, b, a);
      g, x, y := ReturnsDivisor(one, a, b - a);
      assert g * (x + y) == g * x + g * y;
      y := x + y;
    }
  }

  lemma {:induction false} Bezout(a: nat, b: nat) returns (g: nat, x: nat, y: nat, u: int, v: int)
    requires a > 0 && b > 0
    ensures g > 0 && a == g * x && b == g * y && u * x + v * y == 1
    decreases a + b
  {
    if a == b {
      g, x, y, u, v := a, 1, 1, 1, 0;
    } else if a > b {
      g, x, y, u, v := Bezout(a - b, b);
      assert g * (x + y) == g * x + g * y && u * (x + y) + (v - u) * y == u * x + v * y;
      x, v := x + y, v - u;
    } else {
      g, x, y, u, v := Bezout(a, b - a);
      assert g * (x + y) == g * x + g * y && (u - v) * x + v * (x + y) == u * x + v * y;
      y, u := x + y, u - v;
    }
  }

  ghost predicate Prime(r: nat) {
    r > 1 && forall k: nat, m: nat :: k * m == r ==> k == 1 || m == 1
  }

  lemma {:induction false} NoFactor(r: nat, k: nat, m: nat)
    requires r == 7 || r == 31 || r == 151
    requires k * m == r && k <= m
    ensures k == 1
  {
    if k >= 13 {
      MulMonotone(13, k, m);
    } else {
      SmallFactor(r, k, m);
    }
  }

  lemma {:induction false} SmallFactor(r: nat, k: nat, m: nat)
    requires r == 7 || r == 31 || r == 151
    requires k * m == r && k <= m && k <= 12
    ensures k == 1
  {
    assert k == 0 ==> k * m == 0;
    assert k == 2 ==> k * m == 2 * m;
    assert k == 3 ==> k * m == 3 * m;
    assert k == 4 ==> k * m == 4 * m;
    assert k == 5 ==> k * m == 5 * m;
    assert k == 6 ==> k * m == 6 * m;
    assert k == 7 ==> k * m == 7 * m;
    assert k == 8 ==> k * m == 8 * m;
    assert k == 9 ==> k * m == 9 * m;
    assert k == 10 ==> k * m == 10 * m;
    assert k == 11 ==> k * m == 11 * m;
    assert k == 12 ==> k * m == 12 * m;
  }

  lemma {:induction false} IsPrime(r: nat)
    requires r == 7 || r == 31 || r == 151
    ensures Prime(r)
  {
    forall k: nat, m: nat | k * m == r
      ensures k == 1 || m == 1
    {
      if k <= m {
        NoFactor(r, k, m);
      } else {
        NoFactor(r, m, k);
      }
    }
  }

  lemma {:induction false} Positive(a: int, b: int)
    requires a > 0 && b > 0
    ensures a * b > 0
  {
  }

  lemma {:induction false} StrictMul(g: nat, a: int, b: int)
    requires g > 0 && a < b
    ensures g * a < g * b
  {
    Positive(g, b - a);
    assert g * b == g * a + g * (b - a);
  }

  lemma {:induction false} CancelFactor(g: nat, a: int, b: int)
    requires g > 0 && g * a == g * b
    ensures a == b
  {
    if a < b {
      StrictMul(g, a, b);
    }
    if b < a {
      StrictMul(g, b, a);
    }
  }

  lemma {:induction false} CofactorDivides(x: nat, t: nat, y: nat, r: nat, u: int, v: int)
    requires x * t == y * r && u * x + v * y == 1
    ensures x * (r * u + v * t) == r
  {
    calc {
      x * (r * u + v * t);
      r * (u * x) + v * (x * t);
      r * (u * x) + v * (y * r);
      r * (u * x + v * y);
      r;
    }
  }

  lemma {:induction false} SameCofactor(g: nat, x: nat, t: nat, y: nat, r: nat)
    requires g > 0 && (g * x) * t == (g * y) * r
    ensures x * t == y * r
  {
    assert g * (x * t) == (g * x) * t;
    assert g * (y * r) == (g * y) * r;
    CancelFactor(g, x * t, y * r);
  }

  lemma {:induction false} PrimeFactor(r: nat, x: nat, z: int)
    requires Prime(r) && x * z == r
    ensures x == 1 || x == r
  {
    if z > 0 {
      var k: nat := z;
      assert x * k == r;
    } else {
      Negative(x, z);
    }
  }

  lemma {:induction false} Negative(x: nat, z: int)
    requires z <= 0
    ensures x * z <= 0
  {
  }

  /** A divisor of `c * r`, with `r` prime, divides `c` or is a multiple of `r`. */
  lemma {:induction false} DividesOrHolds(p: nat, t: nat, c: nat, r: nat) returns (divides: bool, k: nat)
    requires p > 0 && c > 0 && Prime(r) && p * t == c * r
    ensures if divides then c == p * k else p == r * k
  {
    var g, x, y, u, v := Bezout(p, c);
    SameCofactor(g, x, t, y, r);
    CofactorDivides(x, t, y, r, u, v);
    PrimeFactor(r, x, r * u + v * t);
    divides, k := x == 1, if x == 1 then y else g;
  }

  /** Multiples of 151, of 31 and of 7 are multiples of 32767. */
  lemma {:induction false} AllThree(g: nat, a: nat, b: nat, c: nat)
    requires g == 151 * a == 31 * b == 7 * c
    ensures g % 32767 == 0
  {
    var j := 39 * a - 8 * b;
    assert a == 31 * j;
    assert g == 4681 * j;
    var i := 3 * c - 2006 * j;
    assert j == 7 * i;
    assert g == 32767 * i;
  }

  /** x to the `d` is 1 exactly for the multiples of 32767. */
  lemma {:induction false} ReturnsIff(one: Poly, x: Poly, d: nat)
    requires OneAndX(one, x)
    ensures Returns(one, d) <==> d % 32767 == 0
  {
    Back32767(one, x);
    if d % 32767 == 0 {
      ReturnsMultiple(one, 32767, d / 32767);
      assert 32767 * (d / 32767) == d;
    } else if Returns(one, d) {
      var g, p, q := ReturnsDivisor(one, d, 32767);
      var a := HoldsPrime(one, x, g, q, 217, 151);
      var b := HoldsPrime(one, x, g, q, 1057, 31);
      var c := HoldsPrime(one, x, g, q, 4681, 7);
      AllThree(g, a, b, c);
      MultipleOf(d, g, p);
    }
  }

  lemma {:induction false} MultipleOf(d: nat, g: nat, p: nat)
    requires d == g * p && g % 32767 == 0
    ensures d % 32767 == 0
  {
    var i := g / 32767;
    assert g == 32767 * i;
    assert d == 32767 * (i * p);
  }

  lemma {:induction false} HoldsPrime(one: Poly, x: Poly, g: nat, q: nat, c: nat, r: nat) returns (k: nat)
    requires OneAndX(one, x) && g > 0 && Returns(one, g) && g * q == 32767
    requires (c == 217 && r == 151) || (c == 1057 && r == 31) || (c == 4681 && r == 7)
    ensures g == r * k
  {
    IsPrime(r);
    var divides, n := DividesOrHolds(g, q, c, r);
    k := n;
    ReturnsMultiple(one, g, n);
    Not217(one, x);
    Not1057(one, x);
    Not4681(one, x);
  }

  // ----- Two-bit errors -----

  lemma {:induction false} PowerAdds(one: Poly, n: nat, k: nat)
    ensures Power(Power(one, n), k) == Power(one, n + k)
    decreases k
  {
    if k > 0 {
      PowerAdds(one, n, k - 1);
    }
  }

  function Climb15(p: Poly): Poly {
    Twice(Twice(Twice(p, true), true), true)
  }

  lemma {:induction false} Rungs15(x: Poly, p1: Poly)
    requires Ladder(x, 1) == p1
    ensures Ladder(x, 15) == Climb15(p1)
  {
    var p3 := Twice(p1, true);
    Rung(x, 1, true, 3, p1);
    var p7 := Twice(p3, true);
    Rung(x, 3, true, 7, p3);
    Rung(x, 7, true, 15, p7);
  }

  /** x to the 15. */
  predicate Top(p: Poly) {
    p == Poly(true, false, false, false, false, false, false, false,
              false, false, false, false, false, false, false, false)
  }

  lemma {:induction false} At15(one: Poly, x: Poly)
    requires OneAndX(one, x)
    ensures Top(Climb15(x))
  {
  }

  lemma {:induction false} BitsOfOne()
    ensures Top(Bits(ONE))
  {
  }

  lemma {:induction false} PowerAt15(one: Poly, x: Poly, p: Poly)
    requires x == TimesX(one) && Square(one) == one && Climb15(x) == p
    ensures Power(one, 15) == p
  {
    Rungs15(x, x);
    LadderIsPower(one, 15);
  }

  /** A register that holds a power of x comes back to itself exactly when x comes back to 1. */
  lemma {:induction false} ReturnsTogether(one: Poly, w: Word, p: Poly, k: nat, d: nat)
    requires Bits(w) == p && Power(one, k) == p
    ensures Steps(w, d) == w <==> Returns(one, d)
  {
    StepsArePowers(w, p, d);
    PowerAdds(one, k, d);
    PowersCancel(one, d, k);
    assert d + k == k + d;
    if Returns(one, d) {
      BitsAreAll(Steps(w, d), w, p);
    }
  }

  lemma {:induction false} RegisterReturns(one: Poly, x: Poly, d: nat)
    requires OneAndX(one, x)
    ensures Steps(ONE, d) == ONE <==> Returns(one, d)
  {
    XIsTimesOne(one, x);
    At15(one, x);
    BitsOfOne();
    var w: Word, p := ONE, Bits(ONE);
    PowerAt15(one, x, p);
    ReturnsTogether(one, w, p, 15, d);
  }

  /** The register comes back from 1 to 1, which is x to the 15, exactly after multiples of 32767 steps. */
  lemma {:induction false} RegisterReturnsIff(d: nat)
    ensures Steps(ONE, d) == ONE <==> d % 32767 == 0
  {
    var one := Poly(false, false, false, false, false, false, false, false,
                    false, false, false, false, false, false, false, true);
    var x := Poly(false, false, false, false, false, false, false, false,
                  false, false, false, false, false, false, true, false);
    RegisterReturns(one, x, d);
    ReturnsIff(one, x, d);
  }

  /** The distance is a whole number of the register's periods. */
  ghost predicate WholePeriods(d: nat) {
    d % 32767 == 0
  }

  lemma {:induction false} Distance(cancels: bool, d: nat)
    requires cancels <==> Steps(ONE, d) == ONE
    ensures cancels <==> WholePeriods(d)
  {
    RegisterReturnsIff(d);
  }

  lemma {:induction false} UndetectedIff(frame: seq<Octet>, error: seq<Octet>, i: nat, d: nat)
    requires |error| == |frame| && Accepts(frame) && TwoBits(FrameBits(error), i, i + d)
    ensures Accepts(Damaged(frame, error)) <==> WholePeriods(d)
  {
    TwoBitErrorsCancelIff(frame, error, i, i + d);
    Distance(Accepts(Damaged(frame, error)), d);
  }

  /** An error of two bits goes unnoticed if and only if their distance is a multiple of 32767 bits. */
  lemma {:induction false} TwoBitErrorsUndetectedIff(frame: seq<Octet>, error: seq<Octet>, i: nat, j: nat)
    requires |error| == |frame| && Accepts(frame) && TwoBits(FrameBits(error), i, j)
    ensures Accepts(Damaged(frame, error)) <==> (j - i) % 32767 == 0
  {
    UndetectedIff(frame, error, i, j - i);
  }

  lemma {:induction false} ShortDistance(n: nat, i: nat, j: nat)
    requires i < j < 8 * n && n <= 4095
    ensures (j - i) % 32767 != 0
  {
  }

  /** No frame of up to 4095 bytes, and so no RTU frame of at most 256, passes the check with two bits flipped. */
  lemma {:induction false} TwoBitErrorsAreDetected(frame: seq<Octet>, error: seq<Octet>, i: nat, j: nat)
    requires |error| == |frame| <= 4095 && Accepts(frame) && TwoBits(FrameBits(error), i, j)
    ensures !Accepts(Damaged(frame, error))
  {
    TwoBitErrorsUndetectedIff(frame, error, i, j);
    ShortDistance(|error|, i, j);
  }
}
