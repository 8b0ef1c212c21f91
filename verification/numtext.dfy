/** Number <-> text conversions: JavaScript's `n.toString(base)`, the utilities' `hex(n, l)`
    and the prefix parse done by `parseInt(s, base)`. */
module NumText {
  import opened Common

  predicate IsDigitOf(c: char, base: nat)
  {
    ('0' <= c <= '9') || (base == 16 && (('a' <= c <= 'f') || ('A' <= c <= 'F')))
  }

  function DigitValue(c: char): (d: nat)
    requires IsDigitOf(c, 16)
    ensures d < 16
    ensures '0' <= c <= '9' ==> d < 10
  {
    if '0' <= c <= '9' then c as int - '0' as int
    else if 'a' <= c <= 'f' then c as int - 'a' as int + 10
    else c as int - 'A' as int + 10
  }

  /** The digit for `d`; letters are upper-case when `upper` holds. */
  function DigitChar(d: nat, upper: bool): (c: char)
    requires d < 16
    ensures IsDigitOf(c, 16) && DigitValue(c) == d
    ensures d < 10 ==> IsDigitOf(c, 10)
    ensures d >= 10 ==> if upper then 'A' <= c <= 'F' else 'a' <= c <= 'f'
  {
    if d < 10 then ('0' as int + d) as char
    else if upper then ('A' as int + d - 10) as char
    else ('a' as int + d - 10) as char
  }

  predicate AllDigits(s: string, base: nat)
  {
    forall i :: 0 <= i < |s| ==> IsDigitOf(s[i], base)
  }

  /** `n.toString(base)`, upper-cased when `upper`: the shortest digit string, "0" for zero. */
  function Digits(n: nat, base: nat, upper: bool): (s: string)
    requires base == 10 || base == 16
    ensures 0 < |s|
    ensures AllDigits(s, base)
    ensures |s| > 1 ==> s[0] != '0'
    ensures upper ==> forall i :: 0 <= i < |s| ==> !('a' <= s[i] <= 'f')
    decreases n
  {
    if n < base then [DigitChar(n, upper)]
    else Digits(n / base, base, upper) + [DigitChar(n % base, upper)]
  }

  /** The number a digit string denotes in `base`. */
  function Value(s: string, base: nat): nat
    requires base == 10 || base == 16
    requires AllDigits(s, base)
    decreases |s|
  {
    if |s| == 0 then 0
    else Value(s[..|s| - 1], base) * base + DigitValue(s[|s| - 1])
  }

  lemma {:induction false} DigitsValue(n: nat, base: nat, upper: bool)
    requires base == 10 || base == 16
    ensures Value(Digits(n, base, upper), base) == n
    decreases n
  {
    var s := Digits(n, base, upper);
    if n >= base {
      var p := Digits(n / base, base, upper);
      assert s == p + [DigitChar(n % base, upper)];
      assert s[..|s| - 1] == p;
      DigitsValue(n / base, base, upper);
      assert Value(s, base) == Value(p, base) * base + n % base;
    } else {
      assert s == [DigitChar(n, upper)];
      assert s[..0] == [];
    }
  }

  lemma {:induction false} LeadingZerosValue(k: int, s: string, base: nat)
    requires base == 10 || base == 16
    requires AllDigits(s, base)
    ensures AllDigits(Repeat('0', k) + s, base)
    ensures Value(Repeat('0', k) + s, base) == Value(s, base)
    decreases |s|
  {
    var z := Repeat('0', k);
    if |s| == 0 {
      assert z + s == z;
      ZerosValue(k, base);
    } else {
      var t := z + s;
      assert t[..|t| - 1] == z + s[..|s| - 1];
      LeadingZerosValue(k, s[..|s| - 1], base);
    }
  }

  lemma {:induction false} ZerosValue(k: int, base: nat)
    requires base == 10 || base == 16
    ensures AllDigits(Repeat('0', k), base) && Value(Repeat('0', k), base) == 0
    decreases k
  {
    if k > 0 {
      var z := Repeat('0', k);
      assert z[..|z| - 1] == Repeat('0', k - 1);
      ZerosValue(k - 1, base);
    }
  }

  /** `hex(n, l)` of the utilities: upper-case hexadecimal, left-padded with '0' to `width`. */
  function Hex(n: nat, width: nat): (s: string)
  {
    var d := Digits(n, 16, true);
    Repeat('0', width - |d|) + d
  }

  /** `hex(n, l)` is at least `l` digits long, all of them upper-case hexadecimal digits,
      and denotes `n`. */
  lemma HexValue(n: nat, width: nat)
    ensures |Hex(n, width)| == if width > |Digits(n, 16, true)| then width else |Digits(n, 16, true)|
    ensures AllDigits(Hex(n, width), 16) && Value(Hex(n, width), 16) == n
    ensures forall i :: 0 <= i < |Hex(n, width)| ==> !('a' <= Hex(n, width)[i] <= 'f')
  {
    var d := Digits(n, 16, true);
    var z := Repeat('0', width - |d|);
    assert Hex(n, width) == z + d;
    DigitsValue(n, 16, true);
    LeadingZerosValue(width - |d|, d, 16);
    forall i | 0 <= i < |z + d|
      ensures !('a' <= (z + d)[i] <= 'f')
    {
      if i >= |z| {
        assert (z + d)[i] == d[i - |z|];
      }
    }
  }

  function Pow16(k: nat): nat
  {
    if k == 0 then 1 else 16 * Pow16(k - 1)
  }

  lemma {:induction false} DigitsFit(n: nat, width: nat)
    requires 1 <= width
    requires n < Pow16(width)
    ensures |Digits(n, 16, true)| <= width
    decreases width
  {
    if n >= 16 {
      DigitsFit(n / 16, width - 1);
    }
  }

  /** Values below 16^width print as exactly `width` digits. */
  lemma HexWidth(n: nat, width: nat)
    requires 1 <= width
    requires n < Pow16(width)
    ensures |Hex(n, width)| == width
  {
    DigitsFit(n, width);
    HexValue(n, width);
  }

  /** `String(n)` for a non-negative integer. */
  function Decimal(n: nat): (s: string)
    ensures 0 < |s| && AllDigits(s, 10)
    ensures Value(s, 10) == n
  {
    DigitsValue(n, 10, false);
    Digits(n, 10, false)
  }

  /** Number of leading characters of `s` that are digits in `base`. */
  function DigitPrefix(s: string, base: nat): (k: nat)
    ensures k <= |s|
    ensures AllDigits(s[..k], base)
    ensures k < |s| ==> !IsDigitOf(s[k], base)
    decreases |s|
  {
    if |s| == 0 || !IsDigitOf(s[0], base) then 0
    else
      var k := 1 + DigitPrefix(s[1..], base);
      assert s[..k] == [s[0]] + s[1..][..k - 1];
      k
  }

  /** `parseInt(s, base)` on text of the form digits-then-other: the value of the leading
      digits, or None (NaN) when there are none. */
  function ParsePrefix(s: string, base: nat): (r: Option<nat>)
    requires base == 10 || base == 16
    ensures r.None? <==> (|s| == 0 || !IsDigitOf(s[0], base))
  {
    var k := DigitPrefix(s, base);
    if k == 0 then None else Some(Value(s[..k], base))
  }

  lemma {:induction false} DigitPrefixOf(d: string, rest: string, base: nat)
    requires AllDigits(d, base)
    requires |rest| == 0 || !IsDigitOf(rest[0], base)
    ensures DigitPrefix(d + rest, base) == |d|
    decreases |d|
  {
    if |d| > 0 {
      assert (d + rest)[1..] == d[1..] + rest;
      DigitPrefixOf(d[1..], rest, base);
    } else {
      assert d + rest == rest;
    }
  }

  /** Printing a number and parsing it back gives the number, whatever follows the digits. */
  lemma ParseDigits(n: nat, base: nat, upper: bool, rest: string)
    requires base == 10 || base == 16
    requires |rest| == 0 || !IsDigitOf(rest[0], base)
    ensures ParsePrefix(Digits(n, base, upper) + rest, base) == Some(n)
  {
    var d := Digits(n, base, upper);
    DigitPrefixOf(d, rest, base);
    assert (d + rest)[..|d|] == d;
    DigitsValue(n, base, upper);
  }
}
