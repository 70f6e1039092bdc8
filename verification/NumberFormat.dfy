/** Printing numbers in decimal on 32-bit builds, and padding them. */
module NumberFormat {
  import opened Options
  import opened Arithmetic
  import opened Division

  /** Output bytes. */
  type Bytes = seq<nat>

  const ZERO: nat := 48

  function Pow10(e: nat): (r: nat)
    ensures r >= 1
  {
    if e == 0 then 1 else 10 * Pow10(e - 1)
  }

  /** A number of the printed form stands for. */
  function Parse(s: Bytes): int {
    if s == [] then 0 else 10 * Parse(s[..|s| - 1]) + (s[|s| - 1] - ZERO)
  }

  predicate Digits(s: Bytes) {
    forall i | 0 <= i < |s| :: ZERO <= s[i] <= ZERO + 9
  }

  /** The decimal form of v: digits that stand for v, without superfluous leading zeros. */
  predicate Canonical(s: Bytes, v: nat) {
    s != [] && Digits(s) && Parse(s) == v && (|s| == 1 || s[0] != ZERO)
  }

  /** The value without its leading digit, in 64 bits. */
  function Rest(value: nat, digit: nat, divisor: nat): (r: nat)
    ensures r < WORD
  {
    (value + WORD - digit * divisor % WORD) % WORD
  }

  /**
   * uint2str from one round of its loop on, with the division that may not end; characters are bytes. The divisor
   * shrinks by division by ten; None is a run that does not end.
   */
  function Print(value: nat, divisor: nat, first: bool): Option<Bytes>
    requires value < WORD && divisor < WORD
    decreases divisor
  {
    if divisor == 0 then Some([])
    else if Div(value, divisor).None? || Div(divisor, 10).None? || Div(divisor, 10).value >= divisor then None
    else
      var digit := Div(value, divisor).value;
      var emit := !first || digit > 0 || divisor == 1;
      match Print(Rest(value, digit, divisor), Div(divisor, 10).value, first && !emit)
      case None => None
      case Some(rest) => Some(if emit then [(ZERO + digit) % 256] + rest else rest)
  }

  /** uint2str */
  function Uint2Str(v: nat): Option<Bytes>
    requires v < WORD
  {
    Print(v, 10000000000000000000, true)
  }

  // ---- Parsing ----

  lemma {:induction false} ParseCons(d: nat, s: Bytes)
    ensures Parse([d] + s) == (d - ZERO) * Pow10(|s|) + Parse(s)
  {
    if s == [] {
      assert ([d] + s)[..0] == [] && [d] + s == [d];
    } else {
      var t, x := s[..|s| - 1], s[|s| - 1];
      ParseCons(d, t);
      assert ([d] + s)[..|s|] == [d] + t;
      var p := Pow10(|t|);
      assert 10 * ((d - ZERO) * p) == (d - ZERO) * (10 * p);
    }
  }

  lemma {:induction false} ParseBound(s: Bytes)
    requires Digits(s)
    ensures 0 <= Parse(s) < Pow10(|s|)
  {
    if s != [] {
      ParseBound(s[..|s| - 1]);
    }
  }

  /** The first digit of a number of n + 1 digits. */
  lemma ParseFirst(s: Bytes)
    requires s != [] && Digits(s)
    ensures (s[0] - ZERO) * Pow10(|s| - 1) <= Parse(s) < (s[0] - ZERO + 1) * Pow10(|s| - 1)
  {
    var t := s[1..];
    assert s == [s[0]] + t;
    ParseCons(s[0], t);
    ParseBound(t);
    assert (s[0] - ZERO + 1) * Pow10(|t|) == (s[0] - ZERO) * Pow10(|t|) + Pow10(|t|);
  }

  lemma {:induction false} Pow10Monotone(a: nat, b: nat)
    requires a <= b
    ensures Pow10(a) <= Pow10(b)
  {
    if a < b {
      Pow10Monotone(a, b - 1);
    }
  }

  lemma {:induction false} DigitsUnique(s: Bytes, t: Bytes)
    requires Digits(s) && Digits(t) && |s| == |t| && Parse(s) == Parse(t)
    ensures s == t
    decreases |s|
  {
    if s != [] {
      var i := |s| - 1;
      assert s == s[..i] + [s[i]] && t == t[..i] + [t[i]];
      DigitsUnique(s[..i], t[..i]);
    }
  }

  lemma LongerIsLarger(s: Bytes, t: Bytes, v: nat)
    requires Canonical(s, v) && Canonical(t, v)
    ensures |s| <= |t|
  {
    hide Pow10;
    ParseBound(t);
    if |s| > |t| {
      ParseFirst(s);
      Pow10Monotone(|t|, |s| - 1);
      LeadingDigit(s[0] - ZERO, Pow10(|s| - 1));
    }
  }

  /** The decimal form is unique. */
  lemma CanonicalUnique(s: Bytes, t: Bytes, v: nat)
    requires Canonical(s, v) && Canonical(t, v)
    ensures s == t
  {
    LongerIsLarger(s, t, v);
    LongerIsLarger(t, s, v);
    DigitsUnique(s, t);
  }

  // ---- The divisions of uint2str ----

  lemma {:induction false} Pow10Add(a: nat, b: nat)
    ensures Pow10(a + b) == Pow10(a) * Pow10(b)
  {
    if a > 0 {
      Pow10Add(a - 1, b);
      assert 10 * Pow10(a - 1) * Pow10(b) == 10 * (Pow10(a - 1) * Pow10(b));
    }
  }

  lemma Pow10Of2()
    ensures Pow10(1) == 10 && Pow10(2) == 100
  {
  }

  lemma Pow10Top()
    ensures Pow10(18) == 1000000000000000000 && Pow10(19) == 10000000000000000000
  {
    hide Pow10;
    Pow10Of2();
    Pow10Add(2, 2);
    Pow10Add(4, 4);
    Pow10Add(8, 8);
    Pow10Add(16, 2);
    Pow10Add(18, 1);
  }

  lemma Pow2Of60()
    ensures Pow2(60) == 0x1000_0000_0000_0000
  {
    hide Pow2;
    WordIsPow2();
    Pow2Of4();
    Pow2Add(60, 4);
  }

  /** Dividing the divisor by ten is exact. */
  lemma NextDivisor(e: nat)
    requires e <= 19
    ensures Pow10(e) < WORD && Div(Pow10(e), 10) == Some(if e == 0 then 0 else Pow10(e - 1))
    ensures (if e == 0 then 0 else Pow10(e - 1)) < Pow10(e)
  {
    hide Div;
    hide Pow2;
    Pow10Monotone(e, 19);
    Pow10Top();
    Pow2Of60();
    assert Pow10(e) < 10 * Pow2(60) < WORD;
    ReachesExact(Pow10(e), 10);
  }

  /** So is dividing a value of at most e + 1 digits by 10^e, for e up to 18. */
  lemma DigitReaches(value: nat, e: nat)
    requires e <= 18 && value < Pow10(e + 1)
    ensures value < WORD && Pow10(e) < WORD && Reaches(value, Pow10(e))
  {
    hide Pow2;
    Pow10Monotone(e, 18);
    Pow10Top();
    Pow2Of4();
    assert value < Pow10(e) * Pow2(4) < WORD;
  }

  lemma DigitParts(value: nat, p: nat)
    requires p > 0 && value < 10 * p
    ensures var d := value / p; d <= 9 && value == d * p + value % p && value % p < p
  {
  }

  lemma DigitStep(value: nat, e: nat)
    requires e <= 18 && value < Pow10(e + 1)
    ensures var d := value / Pow10(e);
            && value < WORD && Pow10(e) < WORD && Div(value, Pow10(e)) == Some(d) && d <= 9
            && (value + WORD - d * Pow10(e) % WORD) % WORD == value % Pow10(e) < Pow10(e)
            && value == d * Pow10(e) + value % Pow10(e)
  {
    hide Div;
    hide Reaches;
    hide Pow10;
    DigitReaches(value, e);
    ReachesExact(value, Pow10(e));
    Pow10Step(e);
    DigitParts(value, Pow10(e));
    DigitRest(value, value / Pow10(e) * Pow10(e));
  }

  lemma DigitRest(value: nat, taken: nat)
    requires taken <= value < WORD
    ensures (value + WORD - taken % WORD) % WORD == value - taken
  {
  }

  // ---- Every value below 10^19 is printed in its decimal form ----

  ghost predicate Printed(s: Bytes, value: nat, e: nat, first: bool) {
    && s != [] && Digits(s) && Parse(s) == value && |s| <= e + 1
    && (if first then |s| == 1 || s[0] != ZERO else |s| == e + 1)
  }

  lemma PrintedCons(s: Bytes, d: nat, rest: nat, e: nat, value: nat)
    requires e >= 1 && Printed(s, rest, e - 1, false) && d <= 9 && value == d * Pow10(e) + rest
    ensures Printed([ZERO + d] + s, value, e, false) && (d > 0 ==> Printed([ZERO + d] + s, value, e, true))
  {
    ParseCons(ZERO + d, s);
  }

  predicate Emits(d: nat, divisor: nat, first: bool) { !first || d > 0 || divisor == 1 }

  /** One round of the loop with exact divisions. */
  lemma PrintRound(value: nat, p: nat, d: nat, rest: nat, next: nat, first: bool)
    requires value < WORD && 0 < p < WORD && next < p && rest < WORD && d <= 9
    requires Div(value, p) == Some(d) && Div(p, 10) == Some(next)
    requires (value + WORD - d * p % WORD) % WORD == rest
    ensures Print(value, p, first) ==
            match Print(rest, next, first && !Emits(d, p, first))
            case None => None
            case Some(s) => Some(if Emits(d, p, first) then [ZERO + d] + s else s)
  {
    hide Div;
  }

  lemma PrintEnd(value: nat, first: bool)
    requires value < WORD
    ensures Print(value, 0, first) == Some([])
  {
  }

  lemma {:induction false} Prints(value: nat, e: nat, first: bool)
    requires e <= 18 && value < Pow10(e + 1) && value < WORD && Pow10(e) < WORD
    ensures Print(value, Pow10(e), first).Some? && Printed(Print(value, Pow10(e), first).value, value, e, first)
    decreases e
  {
    hide Div;
    hide Print;
    hide Printed;
    hide Pow10;
    DigitStep(value, e);
    NextDivisor(e);
    var d, rest := value / Pow10(e), value % Pow10(e);
    PrintRound(value, Pow10(e), d, rest, if e == 0 then 0 else Pow10(e - 1), first);
    if e == 0 {
      PrintEnd(rest, false);
      LastDigit(value, d, rest);
      PrintedLast(d, first);
      assert [ZERO + d] + [] == [ZERO + d];
    } else {
      Pow10Up(e - 1);
      if !first || d > 0 {
        Prints(rest, e - 1, false);
        PrintedCons(Print(rest, Pow10(e - 1), false).value, d, rest, e, value);
      } else {
        Prints(rest, e - 1, true);
        PrintedLonger(Print(rest, Pow10(e - 1), true).value, value, e);
      }
    }
  }

  lemma Pow10Up(e: nat)
    ensures Pow10(e) < Pow10(e + 1) && Pow10(0) == 1 && Pow10(e + 1) != 1
  {
    Pow10Monotone(0, e);
  }

  lemma LastDigit(value: nat, d: nat, rest: nat)
    requires value == d * Pow10(0) + rest && rest < Pow10(0)
    ensures Pow10(0) == 1 && d == value && rest == 0
  {
  }

  lemma PrintedLast(d: nat, first: bool)
    requires d <= 9
    ensures Printed([ZERO + d], d, 0, first)
  {
    assert [ZERO + d][..0] == [];
  }

  lemma PrintedLonger(s: Bytes, value: nat, e: nat)
    requires e >= 1 && Printed(s, value, e - 1, true)
    ensures Printed(s, value, e, true)
  {
  }

  const TOP: nat := 10000000000000000000

  lemma PrintsBelow(v: nat)
    requires v < TOP
    ensures Uint2Str(v).Some? && Canonical(Uint2Str(v).value, v)
  {
    hide Print;
    hide Div;
    hide Pow10;
    Pow10Top();
    NextDivisor(19);
    SmallDividend(v);
    PrintRound(v, TOP, 0, v, Pow10(18), true);
    Prints(v, 18, true);
  }

  lemma SmallDividend(v: nat)
    requires v < TOP
    ensures Div(v, TOP) == Some(0)
  {
  }

  // ---- From 10^19 on it is not ----

  /** The output has at most one byte for each power of ten left. */
  lemma {:induction false} PrintLength(value: nat, e: nat, first: bool)
    requires value < WORD && e <= 19 && Pow10(e) < WORD
    ensures Print(value, Pow10(e), first).Some? ==> |Print(value, Pow10(e), first).value| <= e + 1
    decreases e
  {
    hide Div;
    hide Pow10;
    NextDivisor(e);
    if Div(value, Pow10(e)).Some? {
      var d := Div(value, Pow10(e)).value;
      var rest := (value + WORD - d * Pow10(e) % WORD) % WORD;
      var again := first && !Emits(d, Pow10(e), first);
      if e > 0 {
        NextDivisor(e - 1);
        PrintLength(rest, e - 1, again);
      } else {
        PrintEnd(rest, again);
      }
    }
  }

  /** The decimal form of a number from 10^19 to 2^64 has twenty digits and starts with 1. */
  lemma CanonicalTop(s: Bytes, v: nat)
    requires TOP <= v < WORD && Canonical(s, v)
    ensures |s| == 20 && s[0] == ZERO + 1
  {
    hide Pow10;
    Pow10Top();
    ParseBound(s);
    ParseFirst(s);
    if |s| <= 19 {
      Pow10Monotone(|s|, 19);
    }
    if |s| >= 21 {
      Pow10Monotone(20, |s| - 1);
      Pow10Step(19);
      LeadingDigit(s[0] - ZERO, Pow10(|s| - 1));
    }
    if |s| == 20 {
      LeadingOne(s[0] - ZERO, Pow10(19), v);
    }
  }

  lemma Pow10Step(e: nat)
    ensures Pow10(e + 1) == 10 * Pow10(e)
  {
  }

  lemma LeadingDigit(d: nat, p: nat)
    requires d >= 1
    ensures d * p >= p
  {
  }

  lemma LeadingOne(d: nat, p: nat, v: nat)
    requires d * p <= v < (d + 1) * p && p <= v < 2 * p
    ensures d == 1
  {
    if d >= 2 {
      MulMonotone(p, 2, d);
    }
  }

  /** Dividing such a number by 10^19 gives an even number or does not end, while the digit is 1. */
  lemma FirstDigitEven(v: nat)
    requires TOP <= v < WORD
    ensures Div(v, TOP).Some? ==> Div(v, TOP).value % 2 == 0
  {
    hide Div;
    assert Scaled(TOP, 0) == TOP && Scaled(TOP, 1) == 2 * TOP;
    DivResidue(v, TOP, 0);
    assert Pow2(0) == 1 && Pow2(1) == 2;
  }

  lemma PrintsNotAbove(v: nat)
    requires TOP <= v < WORD && Uint2Str(v).Some?
    ensures !Canonical(Uint2Str(v).value, v)
  {
    hide Div;
    hide Pow10;
    hide Print;
    hide Canonical;
    Pow10Top();
    NextDivisor(19);
    FirstDigitEven(v);
    FirstRound(v);
    var d := Div(v, TOP).value;
    var s := Uint2Str(v).value;
    EvenByte(d);
    if Canonical(s, v) {
      CanonicalTop(s, v);
    }
  }

  /** The first round: a byte for the first digit, or an output of at most nineteen bytes. */
  lemma FirstRound(v: nat)
    requires v < WORD && Uint2Str(v).Some?
    ensures Div(v, TOP).Some?
    ensures |Uint2Str(v).value| <= 19 || Uint2Str(v).value[0] == (ZERO + Div(v, TOP).value) % 256
  {
    hide Div;
    hide Pow10;
    hide Print;
    Pow10Top();
    NextDivisor(19);
    NextDivisor(18);
    FirstStep(v, TOP, Pow10(18));
    PrintLength(Rest(v, Div(v, TOP).value, TOP), 18, true);
  }

  lemma FirstStep(v: nat, p: nat, next: nat)
    requires v < WORD && 1 < p < WORD && Print(v, p, true).Some? && Div(p, 10) == Some(next) && next < p
    ensures Div(v, p).Some?
    ensures var d, s := Div(v, p).value, Print(v, p, true).value;
            if d > 0 then s != [] && s[0] == (ZERO + d) % 256
            else Some(s) == Print(Rest(v, d, p), next, true)
  {
    hide Div;
    hide Rest;
  }

  lemma EvenByte(d: nat)
    requires d % 2 == 0
    ensures (ZERO + d) % 256 != ZERO + 1
  {
  }

  /** On 32-bit builds uint2str prints the decimal form of a 64-bit value if and only if it is below 10^19. */
  lemma Uint2StrIff(v: nat)
    requires v < WORD
    ensures Uint2Str(v).Some? && Canonical(Uint2Str(v).value, v) <==> v < TOP
  {
    hide Uint2Str;
    hide Canonical;
    if v < TOP {
      PrintsBelow(v);
    } else if Uint2Str(v).Some? {
      PrintsNotAbove(v);
    }
  }

  lemma Pow2Of3()
    ensures Pow2(3) == 8
  {
    assert Pow2(1) == 2;
  }

  // ---- The loops ----

  /** Where the loop of uint2str stands: at divisor 10^e with a value of at most e + 1 digits, or at the end. */
  ghost predicate AtRound(value: nat, divisor: nat, e: int) {
    -1 <= e <= 19 && (if e < 0 then divisor == 0 else divisor == Pow10(e))
    && value < TOP && (0 <= e < 19 ==> value < Pow10(e + 1))
  }

  /** What is still to be printed. */
  function Appended(buf: Bytes, rest: Option<Bytes>): Option<Bytes> {
    match rest
    case None => None
    case Some(s) => Some(buf + s)
  }

  lemma RoundParts(value: nat, divisor: nat, e: int)
    requires AtRound(value, divisor, e) && e >= 0
    ensures 0 < divisor < WORD && Reaches(value, divisor) && Reaches(divisor, 10) && divisor / 10 < divisor
    ensures Div(value, divisor) == Some(value / divisor)
    ensures Div(divisor, 10) == Some(divisor / 10) && value / divisor <= 9
    ensures var rest := (value + WORD - value / divisor * divisor % WORD) % WORD;
            AtRound(rest, divisor / 10, e - 1)
  {
    hide Div;
    hide Reaches;
    hide Pow10;
    NextDivisor(e);
    DivisorReaches(divisor, e);
    ReachesExact(divisor, 10);
    Pow10Top();
    if e == 19 {
      SmallReaches(value, divisor);
      ReachesExact(value, divisor);
      DivUnique(value, divisor, 0);
      DigitRest(value, 0);
    } else {
      Pow10Monotone(e, 19);
      DigitReaches(value, e);
      DigitStep(value, e);
    }
  }

  lemma SmallReaches(value: nat, divisor: nat)
    requires value < divisor
    ensures Reaches(value, divisor)
  {
  }

  lemma DivisorReaches(divisor: nat, e: nat)
    requires e <= 19 && divisor == Pow10(e)
    ensures divisor < WORD && Reaches(divisor, 10)
  {
    hide Pow2;
    Pow10Monotone(e, 19);
    Pow10Top();
    Pow2Of60();
    assert divisor < 10 * Pow2(60) < WORD;
  }

  /** uint2str below 10^19, as its loop. */
  method WriteUint(v: nat) returns (buf: Bytes)
    requires v < TOP
    ensures Canonical(buf, v)
  {
    hide Div;
    hide Print;
    hide Pow10;
    hide Reaches;
    hide Canonical;
    Pow10Top();
    PrintsBelow(v);
    var value: nat, divisor: nat, first := v, TOP, true;
    buf := [];
    ghost var e := 19;
    assert forall s: Bytes :: [] + s == s;
    while divisor > 0
      invariant AtRound(value, divisor, e) && divisor < WORD
      invariant Appended(buf, Print(value, divisor, first)) == Uint2Str(v)
      decreases divisor
    {
      RoundParts(value, divisor, e);
      var digit := DivU64(value, divisor);
      var rest := (value + WORD - digit * divisor % WORD) % WORD;
      PrintRound(value, divisor, digit, rest, divisor / 10, first);
      ghost var was := buf;
      if !first || digit > 0 || divisor == 1 {
        buf := buf + [ZERO + digit];
        first := false;
      }
      ghost var more := Print(rest, divisor / 10, first);
      assert more.Some? ==> was + ([ZERO + digit] + more.value) == was + [ZERO + digit] + more.value;
      divisor := DivU64(divisor, 10);
      value, e := rest, e - 1;
    }
    PrintEnd(value, first);
    assert buf + [] == buf;
  }

  /** The buffer with the text at p0 .. p1 moved to the end of a field of the given width, filled in front. */
  function Aligned(buf: Bytes, p1: nat, p0: nat, width: nat, fill: nat): (r: Bytes)
    requires p0 <= p1 <= |buf| && p0 + width <= |buf| && p1 - p0 <= width
  {
    buf[..p0] + seq(width - (p1 - p0), _ => fill) + buf[p0..p1] + buf[p0 + width..]
  }

  lemma AlignedAt(buf: Bytes, p1: nat, p0: nat, width: nat, fill: nat, r: Bytes)
    requires p0 <= p1 <= |buf| && p0 + width <= |buf| && p1 - p0 <= width && |r| == |buf|
    requires forall i | 0 <= i < p0 || p0 + width <= i < |r| :: r[i] == buf[i]
    requires forall i | p0 <= i < p0 + width - (p1 - p0) :: r[i] == fill
    requires forall i | p0 + width - (p1 - p0) <= i < p0 + width :: r[i] == buf[i - (width - (p1 - p0))]
    ensures r == Aligned(buf, p1, p0, width, fill)
  {
    var f := seq(width - (p1 - p0), _ => fill);
    assert forall j | 0 <= j < |f| :: f[j] == fill;
    assert r[..p0] == buf[..p0];
    assert r[p0..p0 + |f|] == f;
    assert r[p0 + |f|..p0 + width] == buf[p0..p1];
    assert r[p0 + width..] == buf[p0 + width..];
    assert r == r[..p0] + r[p0..p0 + |f|] + r[p0 + |f|..p0 + width] + r[p0 + width..];
  }

  /** memset on part of the buffer */
  method Memset(buf: array<nat>, p: nat, c: nat, n: nat)
    requires p + n <= buf.Length
    modifies buf
    ensures forall i | p <= i < p + n :: buf[i] == c
    ensures forall i | 0 <= i < p || p + n <= i < buf.Length :: buf[i] == old(buf[i])
  {
    for k := 0 to n
      invariant forall i | p <= i < p + k :: buf[i] == c
      invariant forall i | 0 <= i < p || p + k <= i < buf.Length :: buf[i] == old(buf[i])
    {
      buf[p + k] := c;
    }
  }

  /**
   * align: a text shorter than the field width is moved to the end of the field and the front is filled; nothing
   * else in the buffer changes. The field has to fit the buffer.
   */
  method Align(buf: array<nat>, p1: nat, p0: nat, width: nat, fill: nat) returns (end: nat)
    requires p0 <= p1 <= buf.Length && p0 + width <= buf.Length
    modifies buf
    ensures end == if p1 - p0 >= width then p1 else p0 + width
    ensures buf[..] == if p1 - p0 >= width then old(buf[..]) else Aligned(old(buf[..]), p1, p0, width, fill)
  {
    hide Aligned;
    var gap := width - (p1 - p0);
    if gap <= 0 {
      return p1;
    }
    ghost var was := buf[..];
    var n := 1;
    while p1 - n >= p0
      invariant 1 <= n <= p1 - p0 + 1
      invariant forall i | 0 <= i <= p0 + width - n || p0 + width <= i < buf.Length :: buf[i] == was[i]
      invariant forall i | p0 + width - n < i < p0 + width :: buf[i] == was[i - gap]
    {
      buf[p0 + width - n] := buf[p1 - n];
      n := n + 1;
    }
    Memset(buf, p0, fill, gap);
    AlignedAt(was, p1, p0, width, fill, buf[..]);
    return p0 + width;
  }
}
