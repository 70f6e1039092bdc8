/** Printing numbers in hexadecimal on 32-bit builds. Digits are given by their value, 0 to 15. */
module HexFormat {
  import opened Options
  import opened Arithmetic
  import opened Division
  import opened NumberFormat

  type Nibbles = seq<nat>

  function Pow16(e: nat): (r: nat)
    ensures r >= 1
  {
    if e == 0 then 1 else 16 * Pow16(e - 1)
  }

  function Parse16(s: Nibbles): nat {
    if s == [] then 0 else 16 * Parse16(s[..|s| - 1]) + s[|s| - 1]
  }

  predicate Nibbled(s: Nibbles) { forall i | 0 <= i < |s| :: s[i] <= 15 }

  /**
   * The hexadecimal form of v with the leading zeros that are asked for: `mask` holds the positions, counted from the
   * last digit, whose bit is set in the leading zero mask.
   */
  predicate HexForm(s: Nibbles, v: nat, mask: set<nat>) {
    && s != [] && Nibbled(s) && Parse16(s) == v
    && (|s| == 1 || s[0] != 0 || |s| - 1 in mask) && (forall m | m in mask && m < 16 :: m < |s|)
  }

  predicate EmitsHex(d: nat, e: nat, first: bool, mask: set<nat>) { !first || d > 0 || e == 0 || e in mask }

  /** hex2str from the round with divisor 16^e on; None is a run that does not end. */
  function PrintHex(value: nat, e: int, first: bool, mask: set<nat>): Option<Nibbles>
    requires value < WORD && -1 <= e <= 15 && (e >= 0 ==> Pow16(e) < WORD)
    decreases e + 1
  {
    if e < 0 then Some([])
    else if Div(value, Pow16(e)).None? then None
    else
      var d := Div(value, Pow16(e)).value;
      var emit := EmitsHex(d, e, first, mask);
      SmallerPower(e);
      match PrintHex(Rest(value, d, Pow16(e)), e - 1, first && !emit, mask)
      case None => None
      case Some(s) => Some(if emit then [d] + s else s)
  }

  lemma SmallerPower(e: nat)
    ensures e > 0 ==> Pow16(e - 1) < Pow16(e)
  {
  }

  lemma Pow16Top()
    ensures Pow16(15) == 0x1000_0000_0000_0000 && Pow16(16) == WORD
  {
    assert Pow16(3) == 0x1000;
    Pow16Four(0);
    Pow16Four(4);
    Pow16Four(8);
    assert Pow16(4) == 0x1_0000;
    assert Pow16(15) == 0x1000 * Pow16(12) by {
      assert Pow16(15) == 16 * Pow16(14) && Pow16(14) == 16 * Pow16(13) && Pow16(13) == 16 * Pow16(12);
    }
  }

  lemma Pow16Four(e: nat)
    ensures Pow16(e + 4) == 0x1_0000 * Pow16(e)
  {
    assert Pow16(e + 4) == 16 * Pow16(e + 3) && Pow16(e + 3) == 16 * Pow16(e + 2);
    assert Pow16(e + 2) == 16 * Pow16(e + 1) && Pow16(e + 1) == 16 * Pow16(e);
  }

  lemma {:induction false} Pow16Monotone(a: nat, b: nat)
    requires a <= b
    ensures Pow16(a) <= Pow16(b)
  {
    if a < b {
      Pow16Monotone(a, b - 1);
    }
  }

  /** hex2str */
  function Hex2Str(v: nat, mask: set<nat>): Option<Nibbles>
    requires v < WORD
  {
    Pow16Top();
    PrintHex(v, 15, true, mask)
  }

  // ---- Parsing ----

  lemma {:induction false} Parse16Cons(d: nat, s: Nibbles)
    ensures Parse16([d] + s) == d * Pow16(|s|) + Parse16(s)
  {
    if s == [] {
      assert ([d] + s)[..0] == [] && [d] + s == [d];
    } else {
      var t, x := s[..|s| - 1], s[|s| - 1];
      Parse16Cons(d, t);
      assert ([d] + s)[..|s|] == [d] + t;
      var p := Pow16(|t|);
      assert 16 * (d * p) == d * (16 * p);
    }
  }

  // ---- Below 2^63 ----

  /** Values that the round with divisor 16^e divides exactly. */
  ghost predicate InReach(value: nat, e: nat) {
    e <= 15 && value < if e == 15 then 0x8000_0000_0000_0000 else Pow16(e + 1)
  }

  lemma HexReaches(value: nat, e: nat)
    requires InReach(value, e)
    ensures value < WORD && 0 < Pow16(e) < WORD && Reaches(value, Pow16(e)) && value < 16 * Pow16(e)
  {
    hide Pow2;
    hide Pow16;
    Pow16Top();
    NextPower(e);
    Pow16Monotone(e, 15);
    Pow2Of4();
    Pow2Of3();
    if e == 15 {
      assert value < Pow16(e) * Pow2(3) < WORD;
    } else {
      Pow16Monotone(e, 14);
      NextPower(14);
      assert value < Pow16(e) * Pow2(4) < WORD;
    }
  }

  lemma NextPower(e: nat)
    ensures Pow16(e + 1) == 16 * Pow16(e)
  {
  }

  lemma NibbleParts(value: nat, p: nat)
    requires p > 0 && value < 16 * p
    ensures var d := value / p; d <= 15 && value == d * p + value % p && value % p < p
  {
  }

  lemma HexStep(value: nat, e: nat)
    requires InReach(value, e)
    ensures value < WORD && 0 < Pow16(e) < WORD && Reaches(value, Pow16(e))
    ensures var d := value / Pow16(e);
            && Div(value, Pow16(e)) == Some(d) && d <= 15 && value == d * Pow16(e) + value % Pow16(e)
            && Rest(value, d, Pow16(e)) == value % Pow16(e) && (e > 0 ==> InReach(value % Pow16(e), e - 1))
  {
    hide Div;
    hide Reaches;
    hide Pow16;
    HexReaches(value, e);
    ReachesExact(value, Pow16(e));
    NibbleParts(value, Pow16(e));
    DigitRest(value, value / Pow16(e) * Pow16(e));
  }

  ghost predicate Hexed(s: Nibbles, value: nat, e: int, first: bool, mask: set<nat>) {
    && Nibbled(s) && Parse16(s) == value && |s| <= e + 1
    && if first
       then s != [] && (|s| == 1 || s[0] != 0 || |s| - 1 in mask) && (forall m | m in mask && m <= e :: m < |s|)
       else |s| == e + 1
  }

  lemma HexedCons(s: Nibbles, d: nat, rest: nat, e: nat, value: nat, first: bool, mask: set<nat>)
    requires Hexed(s, rest, e - 1, false, mask) && d <= 15
    requires value == d * Pow16(e) + rest && EmitsHex(d, e, first, mask)
    ensures Hexed([d] + s, value, e, first, mask)
  {
    Parse16Cons(d, s);
  }

  lemma HexedLonger(s: Nibbles, value: nat, e: nat, mask: set<nat>)
    requires Hexed(s, value, e - 1, true, mask) && e !in mask
    ensures Hexed(s, value, e, true, mask)
  {
  }

  lemma HexRound(value: nat, e: nat, d: nat, first: bool, mask: set<nat>)
    requires value < WORD && e <= 15 && Pow16(e) < WORD && Div(value, Pow16(e)) == Some(d)
    ensures e > 0 ==> Pow16(e - 1) < WORD
    ensures PrintHex(value, e, first, mask) ==
            match PrintHex(Rest(value, d, Pow16(e)), e - 1, first && !EmitsHex(d, e, first, mask), mask)
            case None => None
            case Some(s) => Some(if EmitsHex(d, e, first, mask) then [d] + s else s)
  {
    hide Div;
    hide Rest;
    SmallerPower(e);
  }

  lemma {:induction false} PrintsHex(value: nat, e: int, first: bool, mask: set<nat>)
    requires -1 <= e <= 15 && (e < 0 ==> !first && value == 0)
    requires (e >= 0 ==> InReach(value, e) && Pow16(e) < WORD) && value < WORD
    ensures var r := PrintHex(value, e, first, mask); r.Some? && Hexed(r.value, value, e, first, mask)
    decreases e + 1
  {
    if e >= 0 {
      HexStep(value, e);
      PrintsHexRound(value, e, first, mask);
    }
  }

  lemma {:induction false} PrintsHexRound(value: nat, e: nat, first: bool, mask: set<nat>)
    requires InReach(value, e) && Pow16(e) < WORD && value < WORD
    ensures var r := PrintHex(value, e, first, mask); r.Some? && Hexed(r.value, value, e, first, mask)
    decreases e + 1, 0
  {
    hide Div;
    hide PrintHex;
    hide Hexed;
    hide Pow16;
    hide Rest;
    HexStep(value, e);
    var d, rest := value / Pow16(e), value % Pow16(e);
    HexRound(value, e, d, first, mask);
    var emit := EmitsHex(d, e, first, mask);
    if e == 0 {
      Pow16Zero(rest);
    }
    PrintsHex(rest, e - 1, first && !emit, mask);
    var s := PrintHex(rest, e - 1, first && !emit, mask).value;
    if emit {
      HexedCons(s, d, rest, e, value, first, mask);
    } else {
      HexedLonger(s, value, e, mask);
    }
  }

  lemma Pow16Zero(rest: nat)
    requires rest < Pow16(0)
    ensures rest == 0
  {
  }

  lemma HexBelow(v: nat, mask: set<nat>)
    requires v < 0x8000_0000_0000_0000
    ensures Hex2Str(v, mask).Some? && HexForm(Hex2Str(v, mask).value, v, mask)
  {
    hide PrintHex;
    hide Pow16;
    Pow16Top();
    PrintsHex(v, 15, true, mask);
  }

  // ---- From 2^63 on ----

  lemma {:induction false} InnerZero(dividend: nat, r: nat, k: nat)
    requires dividend < WORD
    ensures Inner(dividend, 0, r, k) == None
    decreases k
  {
    if k > 0 {
      InnerZero(dividend, Shl(r), k - 1);
    }
  }

  /** Four doublings of 2^60 leave the word with nothing in it, so the inner loop never ends. */
  lemma NoHexDigit(v: nat)
    requires 0x8000_0000_0000_0000 <= v < WORD
    ensures Div(v, 0x1000_0000_0000_0000) == None
  {
    hide Shl;
    hide Inner;
    var p := 0x1000_0000_0000_0000;
    Doublings();
    InnerZero(v, Shl(Shl(Shl(Shl(1)))), 60);
    InnerNext(v, 8 * p, Shl(Shl(Shl(1))), 61);
    InnerNext(v, 4 * p, Shl(Shl(1)), 62);
    InnerNext(v, 2 * p, Shl(1), 63);
    InnerNext(v, p, 1, 64);
  }

  lemma Doublings()
    ensures var p := 0x1000_0000_0000_0000;
            Shl(p) == 2 * p && Shl(2 * p) == 4 * p && Shl(4 * p) == 8 * p && Shl(8 * p) == 0
  {
  }

  lemma InnerNext(dividend: nat, w: nat, r: nat, k: nat)
    requires w <= dividend < WORD && Shl(w) <= dividend && k > 0 && Inner(dividend, Shl(w), Shl(r), k - 1) == None
    ensures Inner(dividend, w, r, k) == None
  {
    hide Shl;
  }

  /** On 32-bit builds hex2str ends, and then prints the hexadecimal form, if and only if the value is below 2^63. */
  lemma Hex2StrIff(v: nat, mask: set<nat>)
    requires v < WORD
    ensures Hex2Str(v, mask).Some? <==> v < 0x8000_0000_0000_0000
    ensures Hex2Str(v, mask).Some? ==> HexForm(Hex2Str(v, mask).value, v, mask)
  {
    hide Div;
    Pow16Top();
    if v < 0x8000_0000_0000_0000 {
      HexBelow(v, mask);
    } else {
      NoHexDigit(v);
    }
  }

  // ---- The loop ----

  /** hex2str below 2^63, as its loop; `divisor & leading_zero_mask` is whether the position is in the mask. */
  method WriteHex(v: nat, mask: set<nat>) returns (buf: Nibbles)
    requires v < 0x8000_0000_0000_0000
    ensures HexForm(buf, v, mask)
  {
    hide Div;
    hide PrintHex;
    hide Pow16;
    hide Reaches;
    hide HexForm;
    hide Rest;
    Pow16Top();
    HexBelow(v, mask);
    var value: nat, divisor: nat, first := v, 0x1000_0000_0000_0000, true;
    var position := 15;
    buf := [];
    assert forall s: Nibbles :: [] + s == s;
    while divisor > 0
      invariant -1 <= position <= 15 && value < WORD
      invariant if position < 0 then divisor == 0 else divisor == Pow16(position) < WORD && InReach(value, position)
      invariant Appended(buf, PrintHex(value, position, first, mask)) == Hex2Str(v, mask)
      decreases position
    {
      HexStep(value, position);
      var digit := DivU64(value, divisor);
      var rest := (value + WORD - digit * divisor % WORD) % WORD;
      RestIs(value, digit, divisor);
      HexRound(value, position, digit, first, mask);
      ghost var was := buf;
      if !first || digit > 0 || divisor == 1 || position in mask {
        buf := buf + [digit];
        first := false;
      }
      ghost var more := PrintHex(rest, position - 1, first, mask);
      assert more.Some? ==> was + ([digit] + more.value) == was + [digit] + more.value;
      ShiftRight(position);
      divisor := divisor / 16;
      value, position := rest, position - 1;
    }
    HexEnd(value, first, mask);
    assert buf + [] == buf;
  }

  lemma RestIs(value: nat, digit: nat, divisor: nat)
    ensures Rest(value, digit, divisor) == (value + WORD - digit * divisor % WORD) % WORD
  {
  }

  lemma ShiftRight(e: nat)
    ensures Pow16(e) / 16 == if e == 0 then 0 else Pow16(e - 1)
    ensures Pow16(e) == 1 <==> e == 0
  {
  }

  lemma HexEnd(value: nat, first: bool, mask: set<nat>)
    requires value < WORD
    ensures PrintHex(value, -1, first, mask) == Some([])
  {
  }
}
