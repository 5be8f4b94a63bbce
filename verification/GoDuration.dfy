/**
 The form binder's duration parser: an optional sign, then [number][unit] terms
 with optional fractions, scanned byte by byte with checked u64 arithmetic.
 The grammar is stated by rendering: a text is a list of terms written out.
 */
module GoDuration {
  import opened Collections
  import opened Wrappers
  import opened Utf8
  import opened Decimal

  const MAX_NANOS: nat := 0x7fff_ffff_ffff_ffff
  const GIGA: nat := 1_000_000_000
  const DOT: byte := 46
  const MINUS: byte := 45
  const PLUS: byte := 43

  // --- Grammar ------------------------------------------------------------------

  datatype Term = Term(whole: seq<byte>, frac: Option<seq<byte>>, unit: seq<byte>)

  predicate Opens(b: byte) {
    IsDigit(b) || b == DOT
  }

  function UnitNanos(unit: seq<byte>): (n: Option<nat>)
    ensures n.Some? ==> n.value in {1, 1_000, 1_000_000, 1_000_000_000, 60_000_000_000, 3_600_000_000_000}
    ensures n.Some? ==> unit != [] && forall k | 0 <= k < |unit| :: !Opens(unit[k])
  {
    if |unit| == 1 then
      match unit[0]
      case 115 => Some(1_000_000_000) // s
      case 109 => Some(60_000_000_000) // m
      case 104 => Some(3_600_000_000_000) // h
      case _ => None
    else if |unit| == 2 && unit[1] == 115 then
      match unit[0]
      case 110 => Some(1) // ns
      case 117 => Some(1_000) // us
      case 109 => Some(1_000_000) // ms
      case _ => None
    else if |unit| == 3 && unit[2] == 115 && IsMu(unit[0], unit[1]) then Some(1_000)
    else None
  }

  /** The micro sign U+00B5 or the Greek letter U+03BC. */
  predicate IsMu(a: byte, b: byte) {
    (a == 0xC2 && b == 0xB5) || (a == 0xCE && b == 0xBC)
  }

  predicate IsTerm(t: Term) {
    && AllDigits(t.whole)
    && (t.frac.Some? ==> t.frac.value != [] && AllDigits(t.frac.value))
    && (t.whole != [] || t.frac.Some?)
    && UnitNanos(t.unit).Some?
  }

  ghost predicate AreTerms(ts: seq<Term>) {
    forall k | 0 <= k < |ts| :: IsTerm(ts[k])
  }

  function Head(t: Term): seq<byte> {
    t.whole + if t.frac.Some? then [DOT] + t.frac.value else []
  }

  function Render(t: Term): seq<byte> {
    Head(t) + t.unit
  }

  function RenderAll(ts: seq<Term>): seq<byte> {
    if ts == [] then [] else Render(ts[0]) + RenderAll(ts[1..])
  }

  // --- Value --------------------------------------------------------------------

  /** A fraction digit by digit, each worth a tenth of the one before, rounded down at every place. */
  function Scaled(digits: seq<byte>, scale: nat): int {
    if digits == [] || scale == 0 then 0
    else (digits[0] as int - 48) * scale + Scaled(digits[1..], scale / 10)
  }

  function FracNanos(t: Term): int {
    if t.frac.Some? && UnitNanos(t.unit).Some? then Scaled(t.frac.value, UnitNanos(t.unit).value / 10) else 0
  }

  function TermNanos(t: Term): int {
    if UnitNanos(t.unit).Some? then Val(t.whole) * UnitNanos(t.unit).value + FracNanos(t) else 0
  }

  function Total(ts: seq<Term>): int {
    if ts == [] then 0 else TermNanos(ts[0]) + Total(ts[1..])
  }

  /** How far below its exact value a fraction of one unit may fall, in nanoseconds. */
  function Slack(unitNanos: nat): nat {
    if unitNanos == 3_600_000_000_000 then 9 else if unitNanos == 60_000_000_000 then 6 else 1
  }

  /** Truncation keeps a fraction of u within slack below its exact value. */
  ghost predicate Within(digits: seq<byte>, u: nat, slack: nat) {
    Scaled(digits, u / 10) * Pow10(|digits|) <= Val(digits) * u < (Scaled(digits, u / 10) + slack) * Pow10(|digits|)
  }

  lemma TimesTen(d: int, p: int, v: int, f: int, u: int, slack: int)
    requires f * p <= v * u < (f + slack) * p
    ensures (d * u + f) * (10 * p) <= (d * p + v) * (10 * u) < (d * u + f + slack) * (10 * p)
  {
    var common := (d * u) * (10 * p);
    assert (d * u + f) * (10 * p) == common + 10 * (f * p);
    assert (d * u + (f + slack)) * (10 * p) == common + 10 * ((f + slack) * p);
    assert (d * p) * (10 * u) == common;
    assert (d * p + v) * (10 * u) == (d * p) * (10 * u) + 10 * (v * u);
  }

  /** Ten times a unit keeps its slack: a place where no truncation happens. */
  lemma WithinTimesTen(digits: seq<byte>, u: nat, slack: nat)
    requires AllDigits(digits) && u > 0 && slack > 0
    requires digits != [] ==> Within(digits[1..], u, slack)
    ensures Within(digits, 10 * u, slack)
  {
    if digits != [] {
      var rest := digits[1..];
      ValFirst(digits);
      TimesTen(digits[0] as int - 48, Pow10(|rest|), Val(rest), Scaled(rest, u / 10), u, slack);
    }
  }

  lemma ThirtySix(d: int, p: int, v: int)
    requires 0 <= d <= 9 && 0 <= v < p
    ensures (3 * d) * (10 * p) <= (d * p + v) * 36 < (3 * d + 9) * (10 * p)
  {
    assert 0 <= d * p <= 9 * p;
    assert (3 * d) * (10 * p) == 30 * (d * p);
    assert (3 * d + 9) * (10 * p) == 30 * (d * p) + 90 * p;
  }

  /** The units' leading factors: below one ten there is nothing left to scale. */
  lemma WithinFactor(digits: seq<byte>, c: nat)
    requires AllDigits(digits) && c in {1, 6, 36}
    ensures Within(digits, c, if c == 36 then 9 else c)
  {
    hide Val;
    ValBounds(digits);
    if c == 36 && digits != [] {
      hide AllDigits;
      FirstDigit(digits);
      ValFirst(digits);
      ValBounds(digits[1..]);
      assert Scaled(digits[1..], 0) == 0;
      ThirtySix(digits[0] as int - 48, Pow10(|digits| - 1), Val(digits[1..]));
    }
  }

  lemma FirstDigit(digits: seq<byte>)
    requires AllDigits(digits) && digits != []
    ensures 0 <= digits[0] as int - 48 <= 9 && AllDigits(digits[1..])
  {
    assert IsDigit(digits[0]);
  }

  lemma {:induction false} WithinUnit(digits: seq<byte>, u: nat, c: nat, places: nat)
    requires AllDigits(digits) && c in {1, 6, 36} && u == c * Pow10(places)
    ensures Within(digits, u, if c == 36 then 9 else c)
    decreases places
  {
    if places == 0 {
      WithinFactor(digits, c);
    } else {
      assert u == 10 * (c * Pow10(places - 1));
      if digits != [] {
        WithinUnit(digits[1..], c * Pow10(places - 1), c, places - 1);
      }
      WithinTimesTen(digits, c * Pow10(places - 1), if c == 36 then 9 else c);
    }
  }

  /** Every unit is a small factor times a power of ten. */
  lemma UnitShape(u: nat) returns (c: nat, places: nat)
    requires u in {1, 1_000, 1_000_000, 1_000_000_000, 60_000_000_000, 3_600_000_000_000}
    ensures c in {1, 6, 36} && u == c * Pow10(places) && Slack(u) == if c == 36 then 9 else c
  {
    assert Pow10(3) == 1_000;
    assert Pow10(6) == 1_000_000;
    assert Pow10(9) == 1_000_000_000;
    if u == 3_600_000_000_000 {
      c, places := 36, 11;
    } else if u == 60_000_000_000 {
      c, places := 6, 10;
    } else {
      c, places := 1, if u == 1 then 0 else if u == 1_000 then 3 else if u == 1_000_000 then 6 else 9;
    }
  }

  lemma Cancel(f: int, u: int, p: int)
    requires p > 0 && f * p < u * p
    ensures f < u
  {
    assert f >= u ==> f * p >= u * p;
  }

  /**
   A fraction is at most its exact value, less than 10 nanoseconds below it (9 for
   hours, 6 for minutes, 1 otherwise), and always under one unit: the clamp to one
   unit never acts.
   */
  lemma FractionIsClose(t: Term)
    requires IsTerm(t) && t.frac.Some?
    ensures Within(t.frac.value, UnitNanos(t.unit).value, Slack(UnitNanos(t.unit).value))
    ensures 0 <= FracNanos(t) < UnitNanos(t.unit).value
  {
    var digits, u := t.frac.value, UnitNanos(t.unit).value;
    var c, places := UnitShape(u);
    WithinUnit(digits, u, c, places);
    ValBounds(digits);
    ScaledNatural(digits, u / 10);
    assert Val(digits) * u < Pow10(|digits|) * u;
    Cancel(FracNanos(t), u, Pow10(|digits|));
  }

  lemma Nonnegative(a: int, b: int)
    requires a >= 0 && b >= 0
    ensures a * b >= 0
  {
  }

  lemma {:induction false} ScaledNatural(digits: seq<byte>, scale: nat)
    requires AllDigits(digits)
    ensures Scaled(digits, scale) >= 0
  {
    if digits != [] && scale > 0 {
      assert IsDigit(digits[0]);
      ScaledNatural(digits[1..], scale / 10);
      Nonnegative(digits[0] as int - 48, scale);
    }
  }

  lemma TermNatural(t: Term)
    requires IsTerm(t)
    ensures TermNanos(t) >= Val(t.whole) * UnitNanos(t.unit).value >= Val(t.whole) >= 0
  {
    ValBounds(t.whole);
    if t.frac.Some? {
      FractionIsClose(t);
    }
    assert Val(t.whole) * UnitNanos(t.unit).value >= Val(t.whole) * 1;
  }

  lemma {:induction false} TotalConcat(a: seq<Term>, b: seq<Term>)
    ensures Total(a + b) == Total(a) + Total(b)
  {
    if a == [] {
      assert a + b == b;
    } else {
      TotalConcat(a[1..], b);
      assert (a + b)[1..] == a[1..] + b;
    }
  }

  lemma {:induction false} RenderConcat(a: seq<Term>, b: seq<Term>)
    ensures RenderAll(a + b) == RenderAll(a) + RenderAll(b)
  {
    hide Render;
    if a == [] {
      assert a + b == b;
    } else {
      RenderConcat(a[1..], b);
      assert (a + b)[1..] == a[1..] + b;
      Assoc(Render(a[0]), RenderAll(a[1..]), RenderAll(b));
    }
  }

  lemma Halves<T>(a: seq<T>, b: seq<T>)
    ensures (a + b)[|a|..] == b && (a + b)[..|a|] == a
  {
  }

  lemma {:induction false} TotalNatural(ts: seq<Term>)
    requires AreTerms(ts)
    ensures Total(ts) >= 0
  {
    if ts != [] {
      TermNatural(ts[0]);
      TotalNatural(ts[1..]);
    }
  }

  // --- Scanning -----------------------------------------------------------------

  function DigitSpan(s: seq<byte>): (n: nat)
    ensures n <= |s| && AllDigits(s[..n]) && (n < |s| ==> !IsDigit(s[n]))
  {
    if s == [] || !IsDigit(s[0]) then 0
    else
      var n := 1 + DigitSpan(s[1..]);
      assert s[..n] == [s[0]] + s[1..][..n - 1];
      n
  }

  function UnitSpan(s: seq<byte>): (n: nat)
    ensures n <= |s| && (forall k | 0 <= k < n :: !Opens(s[k])) && (n < |s| ==> Opens(s[n]))
  {
    if s == [] || Opens(s[0]) then 0 else 1 + UnitSpan(s[1..])
  }

  /** Where the fraction that may follow the whole digits ends. */
  function FracEnd(s: seq<byte>): (j: nat)
    ensures DigitSpan(s) <= j <= |s|
    ensures j > DigitSpan(s) ==> s[DigitSpan(s)] == DOT && AllDigits(s[DigitSpan(s) + 1..j])
  {
    var i := DigitSpan(s);
    if i < |s| && s[i] == DOT then
      var d := DigitSpan(s[i + 1..]);
      assert s[i + 1..i + 1 + d] == s[i + 1..][..d];
      i + 1 + d
    else i
  }

  function TermEnd(s: seq<byte>): (k: nat)
    ensures FracEnd(s) <= k <= |s|
  {
    FracEnd(s) + UnitSpan(s[FracEnd(s)..])
  }

  /** The term a text starts with. */
  function ScanTerm(s: seq<byte>): (t: Option<Term>)
    ensures t.Some? ==> IsTerm(t.value) && TermEnd(s) > 0
  {
    var i, j, k := DigitSpan(s), FracEnd(s), TermEnd(s);
    if j == i + 1 || j == 0 || UnitNanos(s[j..k]).None? then None
    else Some(Term(s[..i], if j == i then None else Some(s[i + 1..j]), s[j..k]))
  }

  lemma ScanTermRenders(s: seq<byte>)
    requires ScanTerm(s).Some?
    ensures Render(ScanTerm(s).value) == s[..TermEnd(s)]
  {
    hide DigitSpan, FracEnd, UnitSpan, UnitNanos, IsTerm, TermEnd;
    var i, j, k := DigitSpan(s), FracEnd(s), TermEnd(s);
    var t := ScanTerm(s).value;
    assert Head(t) == s[..j] by {
      if j > i {
        assert s[i..j] == [s[i]] + s[i + 1..j];
        assert s[..j] == s[..i] + s[i..j];
      } else {
        assert s[..i] + [] == s[..i];
      }
    }
    assert s[..k] == s[..j] + s[j..k];
  }

  function ScanAll(s: seq<byte>): Option<seq<Term>>
    decreases |s|
  {
    if s == [] then Some([])
    else
      match ScanTerm(s)
      case None => None
      case Some(t) =>
        match ScanAll(s[TermEnd(s)..])
        case None => None
        case Some(ts) => Some([t] + ts)
  }

  lemma {:induction false} SpanIs(s: seq<byte>, digits: seq<byte>, rest: seq<byte>)
    requires s == digits + rest && AllDigits(digits) && (rest == [] || !IsDigit(rest[0]))
    ensures DigitSpan(s) == |digits|
  {
    if digits != [] {
      assert IsDigit(digits[0]);
      assert s[1..] == digits[1..] + rest;
      SpanIs(s[1..], digits[1..], rest);
    }
  }

  lemma {:induction false} UnitSpanIs(s: seq<byte>, unit: seq<byte>, rest: seq<byte>)
    requires s == unit + rest && (forall k | 0 <= k < |unit| :: !Opens(unit[k])) && (rest == [] || Opens(rest[0]))
    ensures UnitSpan(s) == |unit|
  {
    if unit != [] {
      assert s[1..] == unit[1..] + rest;
      UnitSpanIs(s[1..], unit[1..], rest);
    }
  }

  lemma FracEndIs(t: Term, tail: seq<byte>)
    requires IsTerm(t) && tail != [] && !Opens(tail[0])
    ensures DigitSpan(Head(t) + tail) == |t.whole|
    ensures FracEnd(Head(t) + tail) == |Head(t)|
  {
    hide DigitSpan, UnitNanos;
    var s, i := Head(t) + tail, |t.whole|;
    if t.frac.Some? {
      var digits := t.frac.value;
      var point := [DOT] + (digits + tail);
      assert s == t.whole + point;
      SpanIs(s, t.whole, point);
      assert s[i] == DOT && s[i + 1..] == digits + tail;
      SpanIs(digits + tail, digits, tail);
    } else {
      assert s == t.whole + tail;
      SpanIs(s, t.whole, tail);
      assert s[i] == tail[0];
    }
  }

  /** Scanning reads back a rendered term that the next term or the end follows. */
  lemma ScanRender(t: Term, rest: seq<byte>)
    requires IsTerm(t) && (rest == [] || Opens(rest[0]))
    ensures ScanTerm(Render(t) + rest) == Some(t)
    ensures TermEnd(Render(t) + rest) == |Render(t)|
  {
    hide DigitSpan, FracEnd, UnitSpan;
    var tail := t.unit + rest;
    var s := Render(t) + rest;
    var i, j := |t.whole|, |Head(t)|;
    assert s == Head(t) + tail by { Assoc(Head(t), t.unit, rest); }
    assert tail[0] == t.unit[0];
    FracEndIs(t, tail);
    Halves(Head(t), tail);
    UnitSpanIs(tail, t.unit, rest);
    var k := TermEnd(s);
    assert s[j..k] == t.unit by { assert s[j..k] == s[j..][..k - j]; Halves(t.unit, rest); }
    assert s[..i] == t.whole;
    assert t.frac.Some? ==> s[i + 1..j] == t.frac.value;
  }

  lemma TermOpens(t: Term)
    requires IsTerm(t)
    ensures Render(t) != [] && Opens(Render(t)[0])
  {
    if t.whole != [] {
      assert Render(t)[0] == t.whole[0];
    }
  }

  lemma {:induction false} ScanSound(s: seq<byte>)
    requires ScanAll(s).Some?
    ensures AreTerms(ScanAll(s).value) && RenderAll(ScanAll(s).value) == s
    decreases |s|
  {
    hide ScanTerm, TermEnd, IsTerm, Render;
    if s != [] {
      var k := TermEnd(s);
      ScanSound(s[k..]);
      ScanTermRenders(s);
      assert s == s[..k] + s[k..];
      var ts := ScanAll(s[k..]).value;
      Halves([ScanTerm(s).value], ts);
    }
  }

  lemma {:induction false} ScanComplete(ts: seq<Term>)
    requires AreTerms(ts)
    ensures ScanAll(RenderAll(ts)) == Some(ts)
    decreases |ts|
  {
    hide ScanTerm, TermEnd, IsTerm, Render, Opens;
    if ts != [] {
      var rest := RenderAll(ts[1..]);
      if |ts| > 1 {
        TermOpens(ts[1]);
      }
      TermOpens(ts[0]);
      ScanRender(ts[0], rest);
      ScanComplete(ts[1..]);
      Halves(Render(ts[0]), rest);
      assert [ts[0]] + ts[1..] == ts;
    }
  }

  // --- The parser ---------------------------------------------------------------

  /** A text without its sign. */
  function Unsigned(v: seq<byte>): seq<byte> {
    if v != [] && v[0] in {MINUS, PLUS} then v[1..] else v
  }

  function WithSign(v: seq<byte>, n: int): int {
    if v != [] && v[0] == MINUS then -n else n
  }

  /** The signed nanoseconds a text denotes, if it is accepted. */
  function Nanos(v: seq<byte>): Option<int> {
    var s := Unsigned(v);
    if s == [ZERO] then Some(0)
    else if s == [] || ScanAll(s).None? || Total(ScanAll(s).value) > MAX_NANOS then None
    else Some(WithSign(v, Total(ScanAll(s).value)))
  }

  /** The texts accepted, besides zero: terms written out, adding up to at most 2^63 - 1. */
  lemma AcceptedIff(v: seq<byte>, n: int)
    requires Unsigned(v) != [ZERO]
    ensures Nanos(v) == Some(n) <==>
      exists ts :: AreTerms(ts) && ts != [] && RenderAll(ts) == Unsigned(v)
                   && Total(ts) <= MAX_NANOS && n == WithSign(v, Total(ts))
  {
    var s := Unsigned(v);
    if ScanAll(s).Some? {
      ScanSound(s);
    }
    forall ts | AreTerms(ts) && ts != [] && RenderAll(ts) == s ensures s != [] && ScanAll(s) == Some(ts) {
      ScanComplete(ts);
      TermOpens(ts[0]);
    }
    if Nanos(v) == Some(n) {
      var ts := ScanAll(s).value;
      assert AreTerms(ts) && ts != [] && RenderAll(ts) == s;
    }
  }

  lemma ScanConcat(a: seq<byte>, b: seq<byte>)
    requires ScanAll(a).Some? && ScanAll(b).Some?
    ensures ScanAll(a + b) == Some(ScanAll(a).value + ScanAll(b).value)
  {
    ScanSound(a);
    ScanSound(b);
    var ta, tb := ScanAll(a).value, ScanAll(b).value;
    RenderConcat(ta, tb);
    ScanComplete(ta + tb);
  }

  lemma UnsignedConcat(a: seq<byte>, b: seq<byte>)
    requires a != [] && b != [] && Unsigned(a) == a
    ensures Unsigned(a + b) == a + b && (forall n :: WithSign(a + b, n) == n) && a + b != [] && a + b != [ZERO]
  {
    assert (a + b)[0] == a[0] && |a + b| > 1;
    assert a[1..] != a;
  }

  /** Written one after the other, two accepted unsigned texts add up, unless the sum overflows. */
  lemma Additive(a: seq<byte>, b: seq<byte>)
    requires Unsigned(a) == a != [ZERO] && Unsigned(b) == b != [ZERO]
    requires Nanos(a).Some? && Nanos(b).Some?
    ensures Nanos(a + b) ==
      if Nanos(a).value + Nanos(b).value <= MAX_NANOS then Some(Nanos(a).value + Nanos(b).value) else None
  {
    hide ScanAll;
    ScanConcat(a, b);
    TotalConcat(ScanAll(a).value, ScanAll(b).value);
    UnsignedConcat(a, b);
    UnsignedNanos(a);
    UnsignedNanos(b);
    UnsignedNanos(a + b);
  }

  lemma UnsignedNanos(s: seq<byte>)
    requires s != [] && Unsigned(s) == s != [ZERO]
    ensures Nanos(s) == if ScanAll(s).Some? && Total(ScanAll(s).value) <= MAX_NANOS
                        then Some(Total(ScanAll(s).value)) else None
  {
    assert s[1..] != s;
  }

  lemma SignIsNoTerm(sign: byte, s: seq<byte>)
    requires !Opens(sign)
    ensures ScanAll([sign] + s).None?
  {
    var signed := [sign] + s;
    assert signed[0] == sign;
    assert DigitSpan(signed) == 0 && FracEnd(signed) == 0;
  }

  lemma Signed(sign: byte, s: seq<byte>)
    ensures sign in {MINUS, PLUS} ==> Unsigned([sign] + s) == s
    ensures forall n :: WithSign([sign] + s, n) == if sign == MINUS then -n else n
    ensures [sign] + s == [ZERO] ==> sign == ZERO
  {
    assert ([sign] + s)[0] == sign && ([sign] + s)[1..] == s;
  }

  /** A leading minus negates, a leading plus changes nothing, a second sign is refused. */
  lemma SignsNegate(s: seq<byte>)
    requires Unsigned(s) == s
    ensures Nanos([PLUS] + s) == Nanos(s)
    ensures Nanos([MINUS] + s) == (match Nanos(s) case None => None case Some(n) => Some(-n))
  {
    hide ScanAll, Total;
    Signed(PLUS, s);
    Signed(MINUS, s);
    assert s != [] ==> s[1..] != s;
  }

  lemma SecondSignRefused(first: byte, second: byte, s: seq<byte>)
    requires first in {MINUS, PLUS} && second in {MINUS, PLUS}
    ensures Nanos([first] + ([second] + s)).None?
  {
    Signed(first, [second] + s);
    Signed(second, s);
    SignIsNoTerm(second, s);
  }

  // --- The loop -----------------------------------------------------------------

  function CheckedMul(a: nat, b: nat): Option<nat> {
    if a * b < U64 then Some(a * b) else None
  }

  function CheckedAdd(a: nat, b: nat): Option<nat> {
    if a + b < U64 then Some(a + b) else None
  }

  datatype Duration = Duration(secs: int, nanos: int)

  predicate Represents(d: Duration, n: int) {
    && d.secs * 1_000_000_000 + d.nanos == n
    && -1_000_000_000 < d.nanos < 1_000_000_000
    && (n >= 0 ==> d.secs >= 0 && d.nanos >= 0)
    && (n <= 0 ==> d.secs <= 0 && d.nanos <= 0)
  }

  method SkipDigits(s: seq<byte>, start: nat) returns (i: nat)
    requires start <= |s|
    ensures start <= i <= |s| && i - start == DigitSpan(s[start..])
    ensures start < i ==> IsDigit(s[i - 1])
  {
    i := start;
    while i < |s| && IsDigit(s[i])
      invariant start <= i <= |s| && AllDigits(s[start..i])
    {
      assert s[start..i + 1] == s[start..i] + [s[i]];
      i := i + 1;
    }
    assert s[start..] == s[start..i] + s[i..];
    SpanIs(s[start..], s[start..i], s[i..]);
  }

  method SkipUnit(s: seq<byte>, start: nat) returns (i: nat)
    requires start <= |s|
    ensures start <= i <= |s| && i - start == UnitSpan(s[start..])
  {
    i := start;
    while i < |s| && !IsDigit(s[i]) && s[i] != DOT
      invariant start <= i <= |s| && forall k | start <= k < i :: !Opens(s[k])
    {
      assert s[start..i + 1] == s[start..i] + [s[i]];
      i := i + 1;
    }
    assert s[start..] == s[start..i] + s[i..];
    UnitSpanIs(s[start..], s[start..i], s[i..]);
  }

  lemma FracEndAt(s: seq<byte>, start: nat, i: nat)
    requires start <= i < |s| && i - start == DigitSpan(s[start..]) && s[i] == DOT
    ensures FracEnd(s[start..]) == i + 1 - start + DigitSpan(s[i + 1..])
  {
    assert s[start..][i - start] == s[i];
    assert s[start..][i - start + 1..] == s[i + 1..];
  }

  /** The end of the number at start, and where its whole part ends. */
  method ReadNumber(s: seq<byte>, start: nat) returns (i: nat, j: nat)
    requires IsUtf8(s) && start < |s| && IsBoundary(s, start)
    ensures start <= i <= j <= |s| && IsBoundary(s, i) && IsBoundary(s, j)
    ensures i - start == DigitSpan(s[start..]) && j - start == FracEnd(s[start..])
    ensures i < j ==> IsBoundary(s, i + 1)
  {
    hide IsUtf8, DigitSpan;
    i := SkipDigits(s, start);
    if i > start {
      BoundaryAfterAscii(s, i);
    }
    j := i;
    if i < |s| && s[i] == DOT {
      BoundaryAfterAscii(s, i + 1);
      FracEndAt(s, start, i);
      j := SkipDigits(s, i + 1);
      if j > i + 1 {
        BoundaryAfterAscii(s, j);
      }
    } else {
      assert i < |s| ==> s[start..][i - start] == s[i];
    }
  }

  /** The scanned term's pieces as slices of the whole text. */
  lemma ScanTermAt(s: seq<byte>, start: nat, i: nat, j: nat, end: nat)
    requires start <= i <= j <= end <= |s|
    requires i - start == DigitSpan(s[start..]) && j - start == FracEnd(s[start..])
    requires end - j == UnitSpan(s[j..])
    ensures end - start == TermEnd(s[start..])
    ensures ScanTerm(s[start..]) ==
      if j == i + 1 || j == start || UnitNanos(s[j..end]).None? then None
      else Some(Term(s[start..i], if j == i then None else Some(s[i + 1..j]), s[j..end]))
  {
    hide DigitSpan, UnitSpan, FracEnd, UnitNanos;
    var rest := s[start..];
    assert rest[j - start..] == s[j..];
    assert rest[j - start..end - start] == s[j..end];
    assert rest[..i - start] == s[start..i];
    assert j > i ==> rest[i - start + 1..j - start] == s[i + 1..j];
  }

  /** One pass of the scan: the pieces of the term at start, each cut at character boundaries. */
  method ReadTerm(s: seq<byte>, start: nat) returns (t: Option<Term>, end: nat)
    requires IsUtf8(s) && start < |s| && IsBoundary(s, start)
    ensures t == ScanTerm(s[start..])
    ensures end == start + TermEnd(s[start..]) <= |s| && IsBoundary(s, end)
  {
    var i, j := ReadNumber(s, start);
    end := SkipUnit(s, j);
    assert IsBoundary(s, end) by {
      assert end < |s| ==> s[j..][end - j] == s[end];
    }
    ScanTermAt(s, start, i, j, end);
    if j == i + 1 || j == start {
      return None, end;
    }
    var unit := Slice(s, j, end);
    if UnitNanos(unit).None? {
      return None, end;
    }
    var frac := if j == i then None else Some(Slice(s, i + 1, j));
    t := Some(Term(Slice(s, start, i), frac, unit));
  }

  lemma DigitTimesScale(d: nat, scale: nat)
    requires d <= 9 && scale <= 360_000_000_000
    ensures 0 <= d * scale <= 9 * scale < U64
  {
  }

  /** The fraction loop: u64 sums that never wrap, stopping once the scale runs out. */
  method FractionNanos(digits: seq<byte>, unitNanos: nat) returns (scaled: nat)
    requires AllDigits(digits) && digits != [] && unitNanos <= 3_600_000_000_000
    requires Scaled(digits, unitNanos / 10) < U64
    ensures scaled == Scaled(digits, unitNanos / 10)
  {
    scaled := 0;
    var scale: nat := unitNanos / 10;
    var k := 0;
    while k < |digits|
      invariant 0 <= k <= |digits| && scale <= unitNanos / 10
      invariant scaled + Scaled(digits[k..], scale) == Scaled(digits, unitNanos / 10)
    {
      assert IsDigit(digits[k]) && digits[k..][0] == digits[k];
      assert digits[k..][1..] == digits[k + 1..];
      var d: nat := digits[k] as int - 48;
      DigitTimesScale(d, scale);
      ScaledNatural(digits[k + 1..], scale / 10);
      var product := CheckedMul(d, scale);
      var next := CheckedAdd(scaled, product.value);
      scaled, scale, k := next.value, scale / 10, k + 1;
      if scale == 0 {
        break;
      }
    }
  }

  /** A term's nanoseconds in checked u64 arithmetic; None exactly when they exceed u64. */
  method AddTerm(total: nat, t: Term) returns (sum: Option<nat>)
    requires IsTerm(t) && total < U64
    ensures sum == CheckedAdd(total, if TermNanos(t) >= 0 then TermNanos(t) else 0)
    ensures TermNanos(t) >= 0
  {
    var unitNanos := UnitNanos(t.unit).value;
    TermNatural(t);
    var parsed := ParseU64(t.whole);
    if parsed.None? {
      return None;
    }
    var fraction := 0;
    if t.frac.Some? {
      FractionIsClose(t);
      fraction := FractionNanos(t.frac.value, unitNanos);
    }
    var addInt := CheckedMul(parsed.value, unitNanos);
    if addInt.None? {
      return None;
    }
    var clamped := if fraction < unitNanos then fraction else unitNanos;
    assert addInt.value + clamped == TermNanos(t);
    sum := CheckedAdd(total, addInt.value);
    if sum.Some? {
      sum := CheckedAdd(sum.value, clamped);
    }
  }

  /** The scan of a text whose first i bytes gave these terms. */
  ghost predicate Progress(s: seq<byte>, i: nat, done: seq<Term>) {
    && i <= |s| && AreTerms(done)
    && match ScanAll(s[i..])
       case None => ScanAll(s).None?
       case Some(ts) => ScanAll(s) == Some(done + ts)
  }

  lemma ScanStep(s: seq<byte>, i: nat, done: seq<Term>)
    requires Progress(s, i, done) && i < |s| && ScanTerm(s[i..]).Some?
    ensures Progress(s, i + TermEnd(s[i..]), done + [ScanTerm(s[i..]).value])
  {
    var t, j := ScanTerm(s[i..]).value, i + TermEnd(s[i..]);
    assert s[i..][TermEnd(s[i..])..] == s[j..];
    if ScanAll(s[j..]).Some? {
      Assoc(done, [t], ScanAll(s[j..]).value);
    }
  }

  lemma ScanStops(s: seq<byte>, i: nat, done: seq<Term>)
    requires Progress(s, i, done) && i < |s| && ScanTerm(s[i..]).None?
    ensures ScanAll(s).None?
  {
    assert s[i..] != [];
  }

  lemma OverflowIsRefused(s: seq<byte>, i: nat, done: seq<Term>)
    requires Progress(s, i, done) && Total(done) > MAX_NANOS
    ensures ScanAll(s).None? || Total(ScanAll(s).value) > MAX_NANOS
  {
    if ScanAll(s[i..]).Some? {
      var ts := ScanAll(s[i..]).value;
      ScanSound(s[i..]);
      TotalNatural(ts);
      TotalConcat(done, ts);
    }
  }

  /** The term loop on a text without its sign. */
  method ParseTerms(s: seq<byte>) returns (r: Option<nat>)
    requires IsUtf8(s)
    ensures r.Some? <==> ScanAll(s).Some? && Total(ScanAll(s).value) <= MAX_NANOS
    ensures r.Some? ==> r.value == Total(ScanAll(s).value)
  {
    hide IsUtf8, TermEnd, ScanTerm, ScanAll, Progress, TermNanos;
    var total: nat := 0;
    var i := 0;
    ghost var done: seq<Term> := [];
    ProgressStart(s);
    while i < |s|
      invariant 0 <= i <= |s| && IsBoundary(s, i)
      invariant Progress(s, i, done) && total == Total(done) < U64
    {
      var t, end := ReadTerm(s, i);
      if t.None? {
        ScanStops(s, i, done);
        return None;
      }
      ScanStep(s, i, done);
      var sum := AddTerm(total, t.value);
      TotalConcat(done, [t.value]);
      done, i := done + [t.value], end;
      if sum.None? {
        OverflowIsRefused(s, i, done);
        return None;
      }
      total := sum.value;
    }
    ScanDone(s, done);
    r := if total > MAX_NANOS then None else Some(total);
  }

  lemma ScanDone(s: seq<byte>, done: seq<Term>)
    requires Progress(s, |s|, done)
    ensures ScanAll(s) == Some(done)
  {
    assert s[|s|..] == [] && done + [] == done;
  }

  lemma ProgressStart(s: seq<byte>)
    ensures Progress(s, 0, [])
  {
    assert s[0..] == s;
    assert ScanAll(s).Some? ==> [] + ScanAll(s).value == ScanAll(s).value;
    if ScanAll(s).Some? {
      ScanSound(s);
    }
  }

  /** Accepts exactly the texts of the grammar and returns their value split into seconds and nanoseconds. */
  method ParseDuration(v: seq<byte>) returns (r: Option<Duration>)
    requires IsUtf8(v)
    ensures r.Some? <==> Nanos(v).Some?
    ensures r.Some? ==> Represents(r.value, Nanos(v).value) && 0 - MAX_NANOS <= Nanos(v).value <= MAX_NANOS
  {
    var s := v;
    var neg := false;
    if v != [] && v[0] == MINUS {
      neg := true;
      TailIsUtf8(v);
      s := v[1..];
    } else if v != [] && v[0] == PLUS {
      TailIsUtf8(v);
      s := v[1..];
    }
    if s == [ZERO] {
      return Some(Duration(0, 0));
    }
    if s == [] {
      return None;
    }
    var total := ParseTerms(s);
    if total.None? {
      return None;
    }
    var secs, nanos := total.value / GIGA, total.value % GIGA;
    r := Some(if neg then Duration(-secs, -nanos) else Duration(secs, nanos));
  }
}
