/** Byte strings, UTF-8 well-formedness (RFC 3629 section 4) and character boundaries. */
module Utf8 {

  type byte = x: int | 0 <= x < 256

  /** The bytes of ASCII text. */
  function Ascii(s: string): (bytes: seq<byte>)
    requires forall k | 0 <= k < |s| :: s[k] < 128 as char
    ensures |bytes| == |s|
  {
    seq(|s|, k requires 0 <= k < |s| => s[k] as int)
  }

  predicate Continuation(b: byte) {
    0x80 <= b <= 0xBF
  }

  /** One encoded character. */
  predicate IsChar(c: seq<byte>) {
    match |c|
    case 1 => c[0] < 0x80
    case 2 => 0xC2 <= c[0] <= 0xDF && Continuation(c[1])
    case 3 => ThreeByteStart(c[0], c[1]) && Continuation(c[2])
    case 4 => FourByteStart(c[0], c[1]) && Continuation(c[2]) && Continuation(c[3])
    case _ => false
  }

  predicate ThreeByteStart(a: byte, b: byte) {
    || (a == 0xE0 && 0xA0 <= b <= 0xBF)
    || ((0xE1 <= a <= 0xEC || 0xEE <= a <= 0xEF) && Continuation(b))
    || (a == 0xED && 0x80 <= b <= 0x9F)
  }

  predicate FourByteStart(a: byte, b: byte) {
    || (a == 0xF0 && 0x90 <= b <= 0xBF)
    || (0xF1 <= a <= 0xF3 && Continuation(b))
    || (a == 0xF4 && 0x80 <= b <= 0x8F)
  }

  /** A code point that text may hold: up to U+10FFFF, surrogates excepted. */
  predicate IsScalar(point: nat) {
    point <= 0x10FFFF && !(0xD800 <= point <= 0xDFFF)
  }

  /** Six bits of the point in every byte after the first, the rest in the first, and no byte too many. */
  predicate Encodes(c: seq<byte>, point: nat) {
    && IsScalar(point) && (forall k | 1 <= k < |c| :: 0x80 <= c[k] < 0xC0)
    && match |c|
       case 1 => point < 0x80 && point == c[0]
       case 2 => 0x80 <= point < 0x800 && point == (c[0] as int - 0xC0) * 0x40 + (c[1] as int - 0x80)
       case 3 =>
         && 0x800 <= point < 0x10000
         && point == (c[0] as int - 0xE0) * 0x1000 + (c[1] as int - 0x80) * 0x40 + (c[2] as int - 0x80)
       case 4 =>
         && 0x10000 <= point
         && point == (c[0] as int - 0xF0) * 0x40000 + (c[1] as int - 0x80) * 0x1000 + (c[2] as int - 0x80) * 0x40
                     + (c[3] as int - 0x80)
       case _ => false
  }

  function Point(c: seq<byte>): int
    requires 1 <= |c| <= 4
  {
    match |c|
    case 1 => c[0] as int
    case 2 => (c[0] as int - 0xC0) * 0x40 + (c[1] as int - 0x80)
    case 3 => (c[0] as int - 0xE0) * 0x1000 + (c[1] as int - 0x80) * 0x40 + (c[2] as int - 0x80)
    case _ => (c[0] as int - 0xF0) * 0x40000 + (c[1] as int - 0x80) * 0x1000 + (c[2] as int - 0x80) * 0x40
              + (c[3] as int - 0x80)
  }

  /** The characters are exactly the shortest encodings of the code points. */
  lemma IsCharIff(c: seq<byte>)
    ensures IsChar(c) <==> exists point: nat :: Encodes(c, point)
  {
    if IsChar(c) {
      assert Point(c) >= 0 && Encodes(c, Point(c));
    }
    forall point: nat | Encodes(c, point) ensures IsChar(c) {
    }
  }

  predicate IsUtf8(s: seq<byte>)
    decreases |s|
  {
    s == [] || exists n {:trigger StartsWithChar(s, n)} | 0 < n <= |s| :: StartsWithChar(s, n) && IsUtf8(s[n..])
  }

  predicate StartsWithChar(s: seq<byte>, n: nat) {
    n <= |s| && IsChar(s[..n])
  }

  /** Where a string may be cut: slicing anywhere else panics. */
  predicate IsBoundary(s: seq<byte>, i: nat) {
    i == 0 || i == |s| || (i < |s| && !Continuation(s[i]))
  }

  function Slice(s: seq<byte>, i: nat, j: nat): seq<byte>
    requires i <= j <= |s| && IsBoundary(s, i) && IsBoundary(s, j)
  {
    s[i..j]
  }

  /** Right after an ASCII byte a well-formed string may be cut. */
  lemma {:induction false} BoundaryAfterAscii(s: seq<byte>, i: nat)
    requires IsUtf8(s) && 0 < i <= |s| && s[i - 1] < 0x80
    ensures IsBoundary(s, i)
    decreases |s|
  {
    var n :| 0 < n <= |s| && StartsWithChar(s, n) && IsUtf8(s[n..]);
    var rest := s[n..];
    if n < i {
      BoundaryAfterAscii(rest, i - n);
    } else {
      assert s[..n][i - 1] == s[i - 1];
      assert n == 1;
      if rest != [] {
        var m :| 0 < m <= |rest| && StartsWithChar(rest, m) && IsUtf8(rest[m..]);
        assert rest[..m][0] == s[1];
      }
    }
  }

  lemma FirstCharKept(a: seq<byte>, b: seq<byte>, n: nat)
    requires 0 < n <= |a| && StartsWithChar(a, n)
    requires IsUtf8(a[n..] + b)
    ensures IsUtf8(a + b)
  {
    var ab := a + b;
    assert ab[n..] == a[n..] + b;
    assert ab[..n] == a[..n];
    assert StartsWithChar(ab, n) && IsUtf8(ab[n..]);
  }

  lemma {:induction false} ConcatIsUtf8(a: seq<byte>, b: seq<byte>)
    requires IsUtf8(a) && IsUtf8(b)
    ensures IsUtf8(a + b)
    decreases |a|
  {
    if a == [] {
      assert a + b == b;
    } else {
      var n :| 0 < n <= |a| && StartsWithChar(a, n) && IsUtf8(a[n..]);
      ConcatIsUtf8(a[n..], b);
      FirstCharKept(a, b, n);
    }
  }

  lemma AsciiIsUtf8(b: byte)
    requires b < 0x80
    ensures IsUtf8([b])
  {
    assert [b][..1] == [b] && [b][1..] == [];
    assert StartsWithChar([b], 1);
  }

  /** Dropping a leading ASCII byte keeps a string well-formed. */
  lemma TailIsUtf8(s: seq<byte>)
    requires IsUtf8(s) && s != [] && s[0] < 0x80
    ensures IsUtf8(s[1..])
  {
    var n :| 0 < n <= |s| && StartsWithChar(s, n) && IsUtf8(s[n..]);
    assert s[..n][0] == s[0];
  }
}
