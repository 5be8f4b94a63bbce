/**
 What durations mean in plain text: the worth of each unit, signs, zero, decimal
 fractions, conversions between units, and the unit texts that are refused.
 */
module DurationLaws {
  import opened Wrappers
  import opened Utf8
  import opened Decimal
  import opened GoDuration

  /** The unit texts and how many nanoseconds one of each is; the micro sign comes in three spellings. */
  predicate Worth(unit: seq<byte>, nanos: nat) {
    || (unit == Ascii("ns") && nanos == 1)
    || (unit == Ascii("us") && nanos == 1_000)
    || ((unit == [0xC2, 0xB5] + Ascii("s") || unit == [0xCE, 0xBC] + Ascii("s")) && nanos == 1_000)
    || (unit == Ascii("ms") && nanos == 1_000_000)
    || (unit == Ascii("s") && nanos == 1_000_000_000)
    || (unit == Ascii("m") && nanos == 60 * 1_000_000_000)
    || (unit == Ascii("h") && nanos == 3600 * 1_000_000_000)
  }

  lemma UnitIs(unit: seq<byte>, nanos: nat)
    ensures UnitNanos(unit) == Some(nanos) <==> Worth(unit, nanos)
  {
    assert |unit| == 1 ==> unit == [unit[0]];
    assert |unit| == 2 ==> unit == [unit[0], unit[1]];
    assert |unit| == 3 ==> unit == [unit[0], unit[1], unit[2]];
    assert Ascii("ns") == [110, 115] && Ascii("us") == [117, 115] && Ascii("ms") == [109, 115];
    assert Ascii("s") == [115] && Ascii("m") == [109] && Ascii("h") == [104];
  }

  // --- Whole numbers of a unit --------------------------------------------------

  lemma DigitsAreUnsigned(digits: seq<byte>, rest: seq<byte>)
    requires AllDigits(digits) && digits != []
    ensures Unsigned(digits + rest) == digits + rest && digits + rest != []
    ensures rest != [] ==> digits + rest != [ZERO]
  {
    assert (digits + rest)[0] == digits[0] && IsDigit(digits[0]);
  }

  /** A text of one term denotes the term's nanoseconds, if they are not too many. */
  lemma OneTerm(t: Term)
    requires IsTerm(t) && t.whole != []
    ensures Nanos(Render(t)) == if TermNanos(t) <= MAX_NANOS then Some(TermNanos(t)) else None
  {
    hide IsTerm, UnitNanos, TermNanos, Head, ScanAll;
    ScanComplete([t]);
    assert [t][1..] == [] && RenderAll([t]) == Render(t) + RenderAll([]) == Render(t);
    assert Total([t]) == TermNanos(t) + Total([]);
    TermIsUnsigned(t);
    UnsignedNanos(Render(t));
  }

  lemma TermIsUnsigned(t: Term)
    requires IsTerm(t) && t.whole != []
    ensures Unsigned(Render(t)) == Render(t) && Render(t) != [] && Render(t) != [ZERO]
  {
    hide UnitNanos;
    var tail := (if t.frac.Some? then [DOT] + t.frac.value else []) + t.unit;
    assert Render(t) == t.whole + tail;
    assert UnitNanos(t.unit).Some? ==> t.unit != [];
    DigitsAreUnsigned(t.whole, tail);
  }

  /**
   So many of a unit, written as a numeral and the unit's text, is that many times its worth, or is
   refused past 2^63-1 nanoseconds; a minus negates it and a plus changes nothing.
   */
  lemma UnitsAreWorth(n: nat, unit: seq<byte>, nanos: nat)
    requires Worth(unit, nanos)
    ensures var text := ToDecimal(n) + unit;
            if n * nanos <= 9_223_372_036_854_775_807 then
              && Nanos(text) == Some(n * nanos)
              && Nanos(Ascii("-") + text) == Some(-(n * nanos))
              && Nanos(Ascii("+") + text) == Some(n * nanos)
            else Nanos(text).None? && Nanos(Ascii("-") + text).None? && Nanos(Ascii("+") + text).None?
  {
    hide ToDecimal, Nanos, Worth, UnitNanos;
    UnitIs(unit, nanos);
    ValOfDecimal(n);
    var t := Term(ToDecimal(n), None, unit);
    assert Head(t) == t.whole + [] == t.whole;
    OneTerm(t);
    TermIsUnsigned(t);
    SignsNegate(Render(t));
    assert Ascii("-") == [MINUS] && Ascii("+") == [PLUS];
  }

  /** So many of a larger unit are as many times more of a smaller one; too many of either are too many of both. */
  lemma UnitsConvert(n: nat, large: seq<byte>, small: seq<byte>, nanos: nat, times: nat)
    requires Worth(large, times * nanos) && Worth(small, nanos)
    ensures Nanos(ToDecimal(n) + large) == Nanos(ToDecimal(n * times) + small)
  {
    hide ToDecimal, Nanos, Worth;
    UnitsAreWorth(n, large, times * nanos);
    UnitsAreWorth(n * times, small, nanos);
    TimesAssociate(n, times, nanos);
  }

  /** n hours, 60n minutes and 3600n seconds are the same duration. */
  lemma HoursMinutesSeconds(n: nat)
    ensures Nanos(ToDecimal(n) + Ascii("h")) == Nanos(ToDecimal(n * 60) + Ascii("m"))
    ensures Nanos(ToDecimal(n) + Ascii("h")) == Nanos(ToDecimal(n * 3600) + Ascii("s"))
  {
    hide ToDecimal, Nanos;
    assert Worth(Ascii("h"), 60 * 60_000_000_000) && Worth(Ascii("m"), 60_000_000_000);
    assert Worth(Ascii("h"), 3600 * 1_000_000_000) && Worth(Ascii("s"), 1_000_000_000);
    hide Worth, Ascii;
    UnitsConvert(n, Ascii("h"), Ascii("m"), 60_000_000_000, 60);
    UnitsConvert(n, Ascii("h"), Ascii("s"), 1_000_000_000, 3600);
  }

  ghost predicate HasWorth(unit: seq<byte>) {
    exists nanos: nat :: Worth(unit, nanos)
  }

  /** A number with any other unit text, or with none, is refused; a lone zero needs no unit. */
  lemma OtherUnitsRefused(digits: seq<byte>, unit: seq<byte>)
    requires AllDigits(digits) && digits != []
    requires forall k | 0 <= k < |unit| :: !IsDigit(unit[k]) && unit[k] != 46
    requires !HasWorth(unit)
    ensures Nanos(digits + unit) == if digits + unit == [48] then Some(0) else None
  {
    var text := digits + unit;
    assert UnitNanos(unit).None? by {
      if UnitNanos(unit).Some? {
        UnitIs(unit, UnitNanos(unit).value);
      }
    }
    hide UnitNanos, DigitSpan, UnitSpan;
    SpanIs(text, digits, unit);
    var n := |digits|;
    assert FracEnd(text) == n by { assert unit != [] ==> text[n] == unit[0]; }
    assert text[n..] == unit && unit == unit + [];
    UnitSpanIs(unit, unit, []);
    assert text[n..TermEnd(text)] == unit;
    assert ScanTerm(text).None?;
    DigitsAreUnsigned(digits, unit);
  }

  /** Zero needs no unit, with or without a sign; nothing at all, or a sign alone, is refused. */
  lemma ZeroAlone()
    ensures Nanos(Ascii("0")) == Nanos(Ascii("-0")) == Nanos(Ascii("+0")) == Some(0)
    ensures Nanos([]) == Nanos(Ascii("-")) == Nanos(Ascii("+")) == None
  {
    assert Ascii("-0")[1..] == Ascii("0") == [48] && Ascii("+0")[1..] == Ascii("0");
    assert Ascii("-")[1..] == [] && Ascii("+")[1..] == [];
  }

  // --- Decimal fractions --------------------------------------------------------

  lemma {:induction false} PowerSplits(a: nat, b: nat)
    ensures Pow10(a + b) == Pow10(a) * Pow10(b)
  {
    if a > 0 {
      PowerSplits(a - 1, b);
    }
  }

  lemma Squeezed(s: int, v: int, p: nat)
    requires p > 0 && s * p <= v * p < (s + 1) * p
    ensures s == v
  {
    Cancel(v, s + 1, p);
    assert s > v ==> s * p >= (v + 1) * p;
  }

  /** Up to nine decimal places of a second are exact, to the nanosecond. */
  lemma SecondsAreExact(n: nat, digits: seq<byte>)
    requires AllDigits(digits) && 1 <= |digits| <= 9
    ensures var nanos := n * 1_000_000_000 + Val(digits) * Pow10(9 - |digits|);
            Nanos(ToDecimal(n) + Ascii(".") + digits + Ascii("s"))
              == if nanos <= 9_223_372_036_854_775_807 then Some(nanos) else None
  {
    hide ToDecimal, Nanos, Val, Pow10, Scaled;
    var k, f := |digits|, Scaled(digits, 100_000_000);
    UnitIs(Ascii("s"), 1_000_000_000);
    var t := Term(ToDecimal(n), Some(digits), Ascii("s"));
    ValOfDecimal(n);
    assert Head(t) == ToDecimal(n) + Ascii(".") + digits by { assert Ascii(".") == [DOT]; }
    OneTerm(t);
    FractionIsClose(t);
    PowerSplits(9 - k, k);
    assert Pow10(9) == 1_000_000_000 by { NinePlaces(); }
    var p := Pow10(k);
    ValBounds(digits);
    TimesAssociate(Val(digits), Pow10(9 - k), p);
    Squeezed(f, Val(digits) * Pow10(9 - k), p);
  }

  lemma NinePlaces()
    ensures Pow10(9) == 1_000_000_000
  {
    assert Pow10(3) == 1_000 && Pow10(6) == 1_000_000;
  }

  lemma TimesAssociate(a: int, b: int, c: int)
    ensures a * (b * c) == a * b * c
  {
  }
}
