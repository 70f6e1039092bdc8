/** The 64-bit division by shifting and subtracting that 32-bit builds use, with its wrap-around. */
module Division {
  import opened Arithmetic
  import opened Options

  /** 64-bit words hold the numbers below this. */
  const WORD: nat := 0x1_0000_0000_0000_0000

  lemma WordIsPow2()
    ensures Pow2(64) == WORD
  {
    hide Pow2;
    Pow2Of4();
    Pow2Add(4, 4);
    Pow2Add(8, 8);
    Pow2Add(16, 16);
    Pow2Add(32, 32);
  }

  lemma Pow2Of4()
    ensures Pow2(4) == 16
  {
    assert Pow2(2) == 4;
  }

  lemma {:induction false} Pow2Add(a: nat, b: nat)
    ensures Pow2(a + b) == Pow2(a) * Pow2(b)
  {
    if a > 0 {
      Pow2Add(a - 1, b);
      assert 2 * Pow2(a - 1) * Pow2(b) == 2 * (Pow2(a - 1) * Pow2(b));
    }
  }

  function Shl(x: nat): (r: nat)
    ensures r < WORD
  {
    2 * x % WORD
  }

  /**
   * The inner loop, at tmp_res == r with divisor * r == w in 64 bits: doubles both until twice w exceeds the
   * dividend. After 64 shifts w is 0 and stays 0, so None is the loop that never ends.
   */
  function Inner(dividend: nat, w: nat, r: nat, k: nat): (res: Option<(nat, nat)>)
    requires w <= dividend < WORD
    ensures res.Some? ==> 0 < res.value.0 <= dividend
    decreases k
  {
    if dividend < Shl(w) then Some((w, r))
    else if k == 0 then None
    else Inner(dividend, Shl(w), Shl(r), k - 1)
  }

  /** div_u64_u64 as a function: the result, or None if a loop does not end. */
  function Div(dividend: nat, divisor: nat): Option<nat>
    requires dividend < WORD && divisor < WORD
    decreases dividend
  {
    if dividend < divisor then Some(0)
    else
      match Inner(dividend, divisor, 1, 64)
      case None => None
      case Some((w, r)) =>
        match Div(dividend - w, divisor)
        case None => None
        case Some(q) => Some((r + q) % WORD)
  }

  /** Some doubling of the divisor lies above the dividend without leaving the word. */
  ghost predicate Reaches(dividend: nat, divisor: nat) {
    dividend < divisor || exists k: nat :: k >= 1 && dividend < divisor * Pow2(k) < WORD
  }

  ghost predicate Exact(dividend: nat, divisor: nat)
    requires dividend < WORD && divisor < WORD
  {
    divisor > 0 && Div(dividend, divisor) == Some(dividend / divisor)
  }

  // ---- None is a loop that never ends ----

  function ShlN(x: nat, m: nat): nat {
    if m == 0 then x else Shl(ShlN(x, m - 1))
  }

  lemma {:induction false} ShlNIs(x: nat, m: nat)
    ensures ShlN(x, m) % WORD == x * Pow2(m) % WORD
  {
    hide Pow2;
    hide Shl;
    if m == 0 {
      Pow2Zero();
    } else {
      ShlNIs(x, m - 1);
      Doubled(x, m - 1);
      ShlMod(ShlN(x, m - 1), x * Pow2(m - 1), x * Pow2(m));
    }
  }

  lemma ShlMod(a: nat, b: nat, c: nat)
    requires a % WORD == b % WORD && c == 2 * b
    ensures Shl(a) % WORD == c % WORD
  {
  }

  /** Shifted by 64 or more, a word is 0. */
  lemma ShiftedOut(x: nat, m: nat)
    requires m >= 64
    ensures ShlN(x, m) == 0
  {
    WordIsPow2();
    ShlNIs(x, m);
    Pow2Add(64, m - 64);
    var c := x * Pow2(m - 64);
    assert x * Pow2(m) == WORD * c by {
      assert x * (WORD * Pow2(m - 64)) == WORD * (x * Pow2(m - 64));
    }
    assert WORD * c % WORD == 0;
  }

  lemma {:induction false} InnerSteps(dividend: nat, x: nat, m: nat, r: nat, k: nat, i: nat)
    requires ShlN(x, m) <= dividend < WORD && Inner(dividend, ShlN(x, m), r, k) == None && m <= i <= m + k + 1
    ensures ShlN(x, i) <= dividend
    decreases k
  {
    if m < i && k > 0 {
      InnerSteps(dividend, x, m + 1, Shl(r), k - 1, i);
    }
  }

  /** If the inner loop has no result, its guard holds for ever. */
  lemma NeverEnds(dividend: nat, divisor: nat, i: nat)
    requires divisor <= dividend < WORD && Inner(dividend, divisor, 1, 64) == None
    ensures ShlN(divisor, i) <= dividend
  {
    if i < 64 {
      InnerSteps(dividend, divisor, 0, 1, 64, i);
    } else {
      ShiftedOut(divisor, i);
    }
  }

  // ---- Where the doubling stays within the word, the quotient is exact ----

  lemma {:induction false} Pow2Monotone(a: nat, b: nat)
    requires a <= b
    ensures Pow2(a) <= Pow2(b)
  {
    if a < b {
      Pow2Monotone(a, b - 1);
    }
  }

  lemma Doubled(x: nat, i: nat)
    ensures x * Pow2(i + 1) == 2 * (x * Pow2(i))
  {
    assert x * (2 * Pow2(i)) == 2 * (x * Pow2(i));
  }

  lemma AtLeastPow2(x: nat, i: nat)
    requires x > 0
    ensures Pow2(i) <= x * Pow2(i)
  {
  }

  /** x doubled j times, not in 64 bits. */
  function Scaled(x: nat, j: nat): nat
    decreases j
  {
    if j == 0 then x else Scaled(2 * x, j - 1)
  }

  lemma {:induction false} ScaledIs(x: nat, j: nat)
    ensures Scaled(x, j) == x * Pow2(j)
    decreases j
  {
    if j > 0 {
      ScaledIs(2 * x, j - 1);
      assert x * (2 * Pow2(j - 1)) == (2 * x) * Pow2(j - 1);
    }
  }

  lemma {:induction false} ScaledUp(x: nat, j: nat)
    ensures x <= Scaled(x, j) && Scaled(x, j + 1) == 2 * Scaled(x, j)
    decreases j
  {
    if j > 0 {
      ScaledUp(2 * x, j - 1);
    }
  }

  lemma ShlSmall(x: nat)
    requires 2 * x < WORD
    ensures Shl(x) == 2 * x
  {
  }

  /** Doubling w without leaving the word, j times, until the dividend is passed. */
  lemma {:induction false} InnerFinds(dividend: nat, w: nat, r: nat, j: nat, k: nat)
    requires k >= j && w <= dividend && r <= w && Scaled(w, j) <= dividend < Scaled(w, j + 1) < WORD
    ensures Inner(dividend, w, r, k) == Some((Scaled(w, j), Scaled(r, j)))
    decreases j
  {
    hide Shl;
    ScaledUp(w, j);
    ShlSmall(w);
    if j > 0 {
      ScaledUp(2 * w, j - 1);
      ShlSmall(r);
      InnerFinds(dividend, 2 * w, 2 * r, j - 1, k - 1);
    }
  }

  lemma {:induction false} TopShift(dividend: nat, divisor: nat, k: nat) returns (m: nat)
    requires k >= 1 && divisor <= dividend < divisor * Pow2(k)
    ensures m < k && divisor * Pow2(m) <= dividend < divisor * Pow2(m + 1) <= divisor * Pow2(k)
  {
    m := k - 1;
    if dividend < divisor * Pow2(m) {
      m := TopShift(dividend, divisor, k - 1);
      Doubled(divisor, k - 1);
    }
  }

  lemma DivStep(dividend: nat, divisor: nat, p: nat)
    requires divisor > 0 && divisor * p <= dividend
    ensures dividend / divisor == p + (dividend - divisor * p) / divisor
  {
    var rest := dividend - divisor * p;
    var q := rest / divisor;
    assert rest == divisor * q + rest % divisor;
    assert dividend == divisor * (p + q) + rest % divisor by {
      assert divisor * (p + q) == divisor * p + divisor * q;
    }
    DivUnique(dividend, divisor, p + q);
  }

  /** One round of the outer loop takes off the largest doubling that fits. */
  lemma OuterRound(dividend: nat, divisor: nat) returns (m: nat)
    requires dividend < WORD && divisor <= dividend && Reaches(dividend, divisor)
    ensures divisor * Pow2(m) <= dividend && Inner(dividend, divisor, 1, 64) == Some((divisor * Pow2(m), Pow2(m)))
    ensures Reaches(dividend - divisor * Pow2(m), divisor)
  {
    hide Pow2;
    var k: nat :| k >= 1 && dividend < divisor * Pow2(k) < WORD;
    m := TopShift(dividend, divisor, k);
    SmallShift(divisor, m);
    ScaledIs(divisor, m);
    ScaledIs(divisor, m + 1);
    ScaledIs(1, m);
    InnerFinds(dividend, divisor, 1, m, 64);
    Doubled(divisor, m);
    RestReaches(dividend - divisor * Pow2(m), divisor, m);
  }

  /** The result is the exact quotient wherever a doubling of the divisor fits between the dividend and the word. */
  lemma {:induction false} ReachesExact(dividend: nat, divisor: nat)
    requires dividend < WORD && divisor < WORD && Reaches(dividend, divisor)
    ensures Exact(dividend, divisor)
    decreases dividend
  {
    hide Pow2;
    hide Reaches;
    hide Exact;
    PositiveDivisor(dividend, divisor);
    if dividend < divisor {
      ExactZero(dividend, divisor);
    } else {
      var m := OuterRound(dividend, divisor);
      ReachesExact(dividend - divisor * Pow2(m), divisor);
      ExactStep(dividend, divisor, Pow2(m));
    }
  }

  lemma ExactStep(dividend: nat, divisor: nat, p: nat)
    requires 0 < divisor <= dividend < WORD && divisor * p <= dividend
    requires Inner(dividend, divisor, 1, 64) == Some((divisor * p, p)) && Exact(dividend - divisor * p, divisor)
    ensures Exact(dividend, divisor)
  {
    hide Inner;
    var w := divisor * p;
    DivStep(dividend, divisor, p);
    QuotientSmall(dividend, divisor);
    assert (p + (dividend - w) / divisor) % WORD == dividend / divisor;
  }

  lemma ExactZero(dividend: nat, divisor: nat)
    requires dividend < divisor < WORD
    ensures Exact(dividend, divisor)
  {
    DivUnique(dividend, divisor, 0);
  }

  lemma PositiveDivisor(dividend: nat, divisor: nat)
    requires Reaches(dividend, divisor)
    ensures divisor > 0
  {
    if dividend >= divisor {
      var k: nat :| k >= 1 && dividend < divisor * Pow2(k) < WORD;
      assert divisor * Pow2(k) > 0;
    }
  }

  lemma SmallShift(x: nat, m: nat)
    requires x > 0 && x * Pow2(m) < WORD
    ensures m < 64
  {
    WordIsPow2();
    AtLeastPow2(x, m);
    if m >= 64 {
      Pow2Monotone(64, m);
    }
  }

  lemma RestReaches(rest: nat, divisor: nat, m: nat)
    requires rest < divisor * Pow2(m) < WORD
    ensures Reaches(rest, divisor)
  {
    if m == 0 {
      assert divisor * Pow2(0) == divisor;
    }
  }

  lemma QuotientSmall(dividend: nat, divisor: nat)
    requires divisor > 0
    ensures dividend / divisor <= dividend
  {
    MulMonotone(dividend / divisor, 1, divisor);
    assert dividend / divisor * divisor <= dividend;
  }

  // ---- Where no doubling fits, the result is wrong or there is none ----

  /** The largest doubling of x that fits the word. */
  lemma {:induction false} TopOfWord(x: nat, j0: nat) returns (j: nat)
    requires x > 0 && Scaled(x, j0) < WORD && j0 <= 64
    ensures Scaled(x, j) < WORD <= Scaled(x, j + 1) && j < 64
    decreases 64 - j0
  {
    ScaledIs(x, j0);
    SmallShift(x, j0);
    j := j0;
    if Scaled(x, j0 + 1) < WORD {
      j := TopOfWord(x, j0 + 1);
    }
  }

  /** m divides the word size c times. */
  predicate Divides(m: nat, c: nat) { m > 0 && WORD == m * c }

  lemma Pow2Divides(j: nat)
    requires j < 64
    ensures Divides(Pow2(j + 1), Pow2(63 - j))
  {
    hide Pow2;
    WordIsPow2();
    Pow2Add(j + 1, 63 - j);
  }

  /** Reducing modulo the word does not change the residue modulo a divisor of it. */
  lemma ResidueKept(x: nat, m: nat, c: nat)
    requires Divides(m, c)
    ensures x % WORD % m == x % m
  {
    var q := x / WORD;
    assert x == WORD * q + x % WORD;
    assert WORD * q == m * (c * q) by {
      assert (m * c) * q == m * (c * q);
    }
    ResidueOfSum(m, c * q, x % WORD);
  }

  lemma ResidueOfSum(m: nat, a: nat, b: nat)
    requires m > 0
    ensures (m * a + b) % m == b % m
  {
    var q, r := b / m, b % m;
    assert m * a + b == m * (a + q) + r by {
      assert m * (a + q) == m * a + m * q;
    }
    DivUnique(m * a + b, m, a + q);
  }

  lemma SumResidue(r: nat, q: nat, m: nat)
    requires m > 0 && r % m == 0
    ensures (r + q) % m == q % m
  {
    ResidueOfSum(m, r / m, q);
    assert r == m * (r / m);
  }

  lemma {:induction false} InnerMultiple(dividend: nat, w: nat, r: nat, k: nat, m: nat, c: nat)
    requires w <= dividend < WORD && Divides(m, c) && r % m == 0
    ensures Inner(dividend, w, r, k).Some? ==> Inner(dividend, w, r, k).value.1 % m == 0
    decreases k
  {
    hide Divides;
    if dividend >= Shl(w) && k > 0 {
      SumDouble(r, m, c);
      InnerMultiple(dividend, Shl(w), Shl(r), k - 1, m, c);
    }
  }

  lemma SumDouble(r: nat, m: nat, c: nat)
    requires Divides(m, c) && r % m == 0
    ensures Shl(r) % m == 0
  {
    ResidueKept(2 * r, m, c);
    SumResidue(r, r, m);
  }

  /** Up to the largest doubling that fits, the inner loop goes on. */
  lemma {:induction false} InnerClimbs(dividend: nat, w: nat, r: nat, i: nat, k: nat)
    requires k >= i && r <= w <= Scaled(w, i) <= dividend < WORD
    ensures Scaled(r, i) <= Scaled(w, i)
    ensures Inner(dividend, w, r, k) == Inner(dividend, Scaled(w, i), Scaled(r, i), k - i)
    decreases i
  {
    hide Shl;
    if i > 0 {
      ScaledUp(2 * w, i - 1);
      ShlSmall(w);
      ShlSmall(r);
      InnerClimbs(dividend, 2 * w, 2 * r, i - 1, k - 1);
    }
  }

  /** A dividend above the largest doubling is given a multiple that wrapped around. */
  lemma InnerWraps(dividend: nat, divisor: nat, j: nat)
    requires 0 < divisor && j < 64 && Scaled(divisor, j) < WORD <= Scaled(divisor, j + 1)
    requires Scaled(divisor, j) <= dividend < WORD && divisor <= dividend
    ensures Inner(dividend, divisor, 1, 64).Some? ==> Inner(dividend, divisor, 1, 64).value.1 % Pow2(j + 1) == 0
  {
    hide Pow2;
    hide Divides;
    hide Scaled;
    hide Shl;
    hide Inner;
    var d, r := Scaled(divisor, j), Scaled(1, j);
    ScaledUp(divisor, j);
    InnerClimbs(dividend, divisor, 1, j, 64);
    Pow2Divides(j);
    ScaledUp(1, j);
    ScaledIs(1, j + 1);
    InnerPast(dividend, d, r, 64 - j, Pow2(j + 1), Pow2(63 - j));
  }

  /** The round that leaves the word makes the multiple divisible by m, and it stays so. */
  lemma InnerPast(dividend: nat, d: nat, r: nat, k: nat, m: nat, c: nat)
    requires k > 0 && d <= dividend < WORD <= 2 * d && 2 * r == m && Divides(m, c)
    ensures Inner(dividend, d, r, k).Some? ==> Inner(dividend, d, r, k).value.1 % m == 0
  {
    hide Divides;
    ShlAbove(d);
    ShlOfPower(r, m, c);
    hide Shl;
    InnerMultiple(dividend, Shl(d), Shl(r), k - 1, m, c);
  }

  lemma ShlAbove(d: nat)
    requires d < WORD <= 2 * d
    ensures Shl(d) == 2 * d - WORD < d
  {
  }

  lemma ShlOfPower(r: nat, m: nat, c: nat)
    requires Divides(m, c) && 2 * r == m
    ensures Shl(r) % m == 0
  {
    ResidueKept(m, m, c);
  }

  lemma SmallQuotient(dividend: nat, divisor: nat, j: nat)
    requires divisor > 0 && dividend < Scaled(divisor, j)
    ensures dividend / divisor < Pow2(j)
  {
    hide Pow2;
    ScaledIs(divisor, j);
    if dividend / divisor >= Pow2(j) {
      MulMonotone(divisor, Pow2(j), dividend / divisor);
    }
  }

  lemma LargeQuotient(dividend: nat, divisor: nat, j: nat)
    requires divisor > 0 && Scaled(divisor, j) <= dividend
    ensures dividend / divisor >= Pow2(j)
  {
    hide Pow2;
    ScaledIs(divisor, j);
    if dividend / divisor < Pow2(j) {
      MulMonotone(divisor, dividend / divisor + 1, Pow2(j));
    }
  }

  lemma SmallMod(x: nat, p: nat)
    requires x < p
    ensures x % (2 * p) == x
  {
    DivUnique(x, 2 * p, 0);
  }

  lemma ResidueLow(dividend: nat, divisor: nat, j: nat)
    requires 0 < divisor <= dividend < Scaled(divisor, j) < WORD
    ensures Div(dividend, divisor).Some? && Div(dividend, divisor).value % Pow2(j + 1) < Pow2(j)
  {
    hide Pow2;
    hide Div;
    Pow2Double(j);
    ScaledIs(divisor, j);
    RestReaches(dividend, divisor, j);
    ReachesExact(dividend, divisor);
    SmallQuotient(dividend, divisor, j);
    SmallMod(dividend / divisor, Pow2(j));
  }

  lemma ResidueHigh(r: nat, q: nat, j: nat)
    requires j < 64 && r % Pow2(j + 1) == 0
    ensures (r + q) % WORD % Pow2(j + 1) == q % Pow2(j + 1)
  {
    hide Pow2;
    hide Divides;
    Pow2Divides(j);
    ResidueKept(r + q, Pow2(j + 1), Pow2(63 - j));
    SumResidue(r, q, Pow2(j + 1));
  }

  /** Whatever the result, modulo twice the largest shift it is less than that shift. */
  lemma {:induction false} DivResidue(dividend: nat, divisor: nat, j: nat)
    requires dividend < WORD && 0 < divisor < WORD && j < 64 && Scaled(divisor, j) < WORD <= Scaled(divisor, j + 1)
    ensures Div(dividend, divisor).Some? ==> Div(dividend, divisor).value % Pow2(j + 1) < Pow2(j)
    decreases dividend
  {
    hide Pow2;
    hide Inner;
    hide Scaled;
    if dividend < divisor {
      Pow2Double(j);
      SmallMod(0, Pow2(j));
    } else if dividend < Scaled(divisor, j) {
      ResidueLow(dividend, divisor, j);
    } else if Inner(dividend, divisor, 1, 64).Some? {
      var (w, r) := Inner(dividend, divisor, 1, 64).value;
      InnerWraps(dividend, divisor, j);
      DivResidue(dividend - w, divisor, j);
      if Div(dividend - w, divisor).Some? {
        ResidueHigh(r, Div(dividend - w, divisor).value, j);
      }
    }
  }

  lemma Pow2Double(j: nat)
    ensures Pow2(j + 1) == 2 * Pow2(j)
  {
  }

  lemma ExactReaches(dividend: nat, divisor: nat)
    requires dividend < WORD && divisor < WORD && Exact(dividend, divisor)
    ensures Reaches(dividend, divisor)
  {
    hide Pow2;
    hide Div;
    if !Reaches(dividend, divisor) {
      var j := TopOfWord(divisor, 0);
      ScaledIs(divisor, j);
      Pow2Zero();
      assert Scaled(divisor, j) <= dividend;
      LargeQuotient(dividend, divisor, j);
      SmallQuotient(dividend, divisor, j + 1);
      DivResidue(dividend, divisor, j);
      DivUnique(dividend / divisor, Pow2(j + 1), 0);
    }
  }

  lemma Pow2Zero()
    ensures Pow2(0) == 1
  {
  }

  /**
   * The division ends with the exact quotient if and only if the dividend is smaller than the divisor or some
   * doubling of the divisor lies above the dividend and within 64 bits.
   */
  lemma DivExactIff(dividend: nat, divisor: nat)
    requires dividend < WORD && divisor < WORD
    ensures Exact(dividend, divisor) <==> Reaches(dividend, divisor)
  {
    hide Exact;
    hide Reaches;
    if Exact(dividend, divisor) {
      ExactReaches(dividend, divisor);
    }
    if Reaches(dividend, divisor) {
      ReachesExact(dividend, divisor);
    }
  }

  /** The inner loop where it ends. */
  method ShiftUp(dividend: nat, divisor: nat) returns (tmpRes: nat)
    requires divisor <= dividend < WORD && Inner(dividend, divisor, 1, 64).Some?
    ensures tmpRes == Inner(dividend, divisor, 1, 64).value.1
  {
    hide Shl;
    tmpRes := 1;
    var tmpDiv := Shl(divisor);
    ghost var w: nat, k: nat := divisor, 64;
    while dividend >= tmpDiv
      invariant tmpDiv == Shl(w) && w <= dividend
      invariant Inner(dividend, w, tmpRes, k) == Inner(dividend, divisor, 1, 64)
      decreases k
    {
      w, k := tmpDiv, k - 1;
      tmpDiv, tmpRes := Shl(tmpDiv), Shl(tmpRes);
    }
  }

  /** div_u64_u64 where it ends. */
  method DivU64(dividend0: nat, divisor: nat) returns (result: nat)
    requires dividend0 < WORD && divisor < WORD && Reaches(dividend0, divisor)
    ensures result == dividend0 / divisor
  {
    hide Pow2;
    hide Reaches;
    hide Inner;
    PositiveDivisor(dividend0, divisor);
    var dividend: nat := dividend0;
    result := 0;
    while dividend >= divisor
      invariant dividend <= dividend0 && Reaches(dividend, divisor)
      invariant result + dividend / divisor == dividend0 / divisor
      decreases dividend
    {
      ghost var m := OuterRound(dividend, divisor);
      var tmpRes := ShiftUp(dividend, divisor);
      RoundArithmetic(dividend0, dividend, divisor, tmpRes, result);
      dividend := (dividend + WORD - divisor * tmpRes % WORD) % WORD;
      result := (result + tmpRes) % WORD;
    }
    DivUnique(dividend, divisor, 0);
  }

  lemma RoundArithmetic(dividend0: nat, dividend: nat, divisor: nat, p: nat, result: nat)
    requires 0 < divisor && p > 0 && divisor * p <= dividend <= dividend0 < WORD
    requires result + dividend / divisor == dividend0 / divisor
    ensures var rest := (dividend + WORD - divisor * p % WORD) % WORD;
            && rest == dividend - divisor * p < dividend
            && (result + p) % WORD + rest / divisor == dividend0 / divisor
  {
    ProductFits(divisor, p, dividend);
    DivStep(dividend, divisor, p);
    QuotientSmall(dividend0, divisor);
  }

  lemma ProductFits(a: nat, b: nat, limit: nat)
    requires a * b <= limit < WORD && a > 0 && b > 0
    ensures a * b % WORD == a * b && a * b > 0 && (limit + WORD - a * b) % WORD == limit - a * b
  {
  }
}
