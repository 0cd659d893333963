/**
 * The Python string operations the fabric relies on: `str.split`,
 * `str.join`, `str(n)`, `int(s)` on decimal digit strings, and fixed-width
 * lower-case hexadecimal as produced by `'%0.Nx' % v`.
 */
module Text {
  import opened Wrappers

  /** Python's `s.split(sep)`: the pieces between separators, never empty. */
  function Split(s: string, sep: char): (r: seq<string>)
    ensures |r| >= 1
  {
    if |s| == 0 then [""]
    else
      var rest := Split(s[1..], sep);
      if s[0] == sep then [""] + rest
      else [[s[0]] + rest[0]] + rest[1..]
  }

  /** A separator splits the text on its two sides independently. */
  lemma {:induction false} SplitAround(x: string, sep: char, y: string)
    ensures Split(x + [sep] + y, sep) == Split(x, sep) + Split(y, sep)
  {
    var s := x + [sep] + y;
    if |x| == 0 {
      assert s[1..] == y;
    } else {
      SplitAround(x[1..], sep, y);
      assert s[1..] == x[1..] + [sep] + y;
      if x[0] != sep {
        SplitFirstPiece(x[1..], sep, Split(y, sep));
      }
    }
  }

  lemma SplitFirstPiece(x: string, sep: char, tail: seq<string>)
    ensures (Split(x, sep) + tail)[0] == Split(x, sep)[0]
    ensures (Split(x, sep) + tail)[1..] == Split(x, sep)[1..] + tail
  {
  }

  /** Python's `sep.join(parts)`. */
  function Join(parts: seq<string>, sep: char): string
  {
    if |parts| == 0 then ""
    else if |parts| == 1 then parts[0]
    else parts[0] + [sep] + Join(parts[1..], sep)
  }

  lemma {:induction false} SplitNoSep(x: string, sep: char)
    requires sep !in x
    ensures Split(x, sep) == [x]
  {
    if |x| > 0 {
      SplitNoSep(x[1..], sep);
      assert [x[0]] + x[1..] == x;
    }
  }

  lemma {:induction false} SplitAfterPiece(x: string, sep: char, y: string)
    requires sep !in x
    ensures Split(x + [sep] + y, sep) == [x] + Split(y, sep)
  {
    var s := x + [sep] + y;
    if |x| == 0 {
      assert s[1..] == y;
    } else {
      assert s[1..] == x[1..] + [sep] + y;
      SplitAfterPiece(x[1..], sep, y);
      assert [x[0]] + x[1..] == x;
    }
  }

  /** Splitting a join of separator-free pieces gives the pieces back. */
  lemma {:induction false} SplitJoin(parts: seq<string>, sep: char)
    requires |parts| >= 1
    requires forall i :: 0 <= i < |parts| ==> sep !in parts[i]
    ensures Split(Join(parts, sep), sep) == parts
  {
    if |parts| == 1 {
      SplitNoSep(parts[0], sep);
    } else {
      SplitJoin(parts[1..], sep);
      SplitAfterPiece(parts[0], sep, Join(parts[1..], sep));
      assert [parts[0]] + parts[1..] == parts;
    }
  }

  // ---------------------------------------------------------------- decimal

  predicate IsDigit(c: char)
  {
    '0' <= c <= '9'
  }

  predicate AllDigits(s: string)
  {
    forall i :: 0 <= i < |s| ==> IsDigit(s[i])
  }

  function DigitChar(d: nat): (c: char)
    requires d < 10
    ensures IsDigit(c) && (c as int) - ('0' as int) == d
  {
    (('0' as int) + d) as char
  }

  /** Python's `str(n)` for a non-negative integer: no sign, no leading zeros. */
  function NatToString(n: nat): (r: string)
    ensures 1 <= |r| && AllDigits(r)
    ensures |r| > 1 ==> r[0] != '0'
  {
    if n < 10 then [DigitChar(n)] else NatToString(n / 10) + [DigitChar(n % 10)]
  }

  /** The number a string of decimal digits denotes, most significant first. */
  function DigitsValue(s: string): nat
    requires AllDigits(s)
  {
    if |s| == 0 then 0
    else DigitsValue(s[..|s| - 1]) * 10 + ((s[|s| - 1] as int) - ('0' as int))
  }

  /**
   * Python's `int(s)` on unsigned decimal strings; anything else (the empty
   * string, a non-digit) is the ValueError case.
   */
  function ParseNat(s: string): (r: Option<nat>)
    ensures r.Some? <==> 1 <= |s| && AllDigits(s)
  {
    if 1 <= |s| && AllDigits(s) then Some(DigitsValue(s)) else None
  }

  /** `int(str(n)) == n`. */
  lemma {:induction false} ParseNatToString(n: nat)
    ensures ParseNat(NatToString(n)) == Some(n)
  {
    var s := NatToString(n);
    if n < 10 {
      assert s[..|s| - 1] == [];
      assert DigitsValue(s) == n;
    } else {
      ParseNatToString(n / 10);
      assert s[..|s| - 1] == NatToString(n / 10);
      assert DigitsValue(s) == (n / 10) * 10 + n % 10;
    }
  }

  lemma NatToStringHasNo(n: nat, c: char)
    requires !IsDigit(c)
    ensures c !in NatToString(n)
  {
  }

  // ------------------------------------------------------------ hexadecimal

  function Pow16(n: nat): (r: nat)
    ensures r >= 1
  {
    if n == 0 then 1 else 16 * Pow16(n - 1)
  }

  predicate IsHexDigit(c: char)
  {
    '0' <= c <= '9' || 'a' <= c <= 'f'
  }

  function HexChar(d: nat): (c: char)
    requires d < 16
    ensures IsHexDigit(c)
  {
    if d < 10 then (('0' as int) + d) as char else (('a' as int) + d - 10) as char
  }

  function HexDigitValue(c: char): (d: nat)
    requires IsHexDigit(c)
    ensures d < 16
  {
    if c <= '9' then (c as int) - ('0' as int) else (c as int) - ('a' as int) + 10
  }

  lemma HexCharValue(d: nat)
    requires d < 16
    ensures HexDigitValue(HexChar(d)) == d
  {
  }

  /** The low `width` hex digits of v, most significant first, zero padded. */
  function HexFixed(v: nat, width: nat): (r: string)
    ensures |r| == width
    ensures forall i :: 0 <= i < |r| ==> IsHexDigit(r[i])
  {
    if width == 0 then "" else HexFixed(v / 16, width - 1) + [HexChar(v % 16)]
  }

  /** The number a string of hex digits denotes, most significant first. */
  function HexValue(s: string): nat
    requires forall i :: 0 <= i < |s| ==> IsHexDigit(s[i])
  {
    if |s| == 0 then 0
    else HexValue(s[..|s| - 1]) * 16 + HexDigitValue(s[|s| - 1])
  }

  /** Number of hex digits Python's `'%x' % v` prints. */
  function HexDigitCount(v: nat): (n: nat)
    ensures n >= 1 && v < Pow16(n)
  {
    if v < 16 then 1 else 1 + HexDigitCount(v / 16)
  }

  /** Fixed-width hex text reads back as the value, provided it fits. */
  lemma {:induction false} HexFixedValue(v: nat, width: nat)
    requires v < Pow16(width)
    ensures HexValue(HexFixed(v, width)) == v
  {
    if width > 0 {
      var s := HexFixed(v, width);
      HexFixedValue(v / 16, width - 1);
      assert s[..|s| - 1] == HexFixed(v / 16, width - 1);
      HexCharValue(v % 16);
    }
  }

  lemma {:induction false} Pow16Monotone(m: nat, n: nat)
    requires m <= n
    ensures Pow16(m) <= Pow16(n)
  {
    if m < n {
      Pow16Monotone(m, n - 1);
    }
  }

  /** A value below `16^n` prints in at most n hex digits. */
  lemma {:induction false} HexDigitCountBound(v: nat, n: nat)
    requires n >= 1 && v < Pow16(n)
    ensures HexDigitCount(v) <= n
  {
    if v >= 16 {
      HexDigitCountBound(v / 16, n - 1);
    }
  }

  /** A value prints in at most n hex digits exactly when it is below `16^n`. */
  lemma HexDigitCountFits(v: nat, n: nat)
    requires n >= 1
    ensures HexDigitCount(v) <= n <==> v < Pow16(n)
  {
    if v < Pow16(n) {
      HexDigitCountBound(v, n);
    }
    if HexDigitCount(v) <= n {
      Pow16Monotone(HexDigitCount(v), n);
    }
  }

  /** `16^n` is the smallest value printing in n + 1 hex digits. */
  lemma {:induction false} HexDigitCountOfPow16(n: nat)
    ensures HexDigitCount(Pow16(n)) == n + 1
  {
    if n > 0 {
      HexDigitCountOfPow16(n - 1);
      assert Pow16(n) / 16 == Pow16(n - 1);
    }
  }

  /** Zero padding: the extra high digits of a value that fits in n digits are zeros. */
  lemma {:induction false} HexFixedPadded(v: nat, w: nat, n: nat)
    requires v < Pow16(n)
    ensures HexFixed(v, w + n) == HexFixed(0, w) + HexFixed(v, n)
  {
    if n > 0 {
      HexFixedPadded(v / 16, w, n - 1);
    }
  }
}
