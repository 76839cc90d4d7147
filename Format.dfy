/** The two integer renderings the relay code relies on, written out:
    Python's `str(i)` for an `int` (used in the channel messages) and the
    format spec `04X` (used for USB vendor and product ids). Each comes with
    a parser, so that the printed form is shown to carry the number back. */
module Format {

  const HexAlphabet := "0123456789ABCDEF"

  /** The character for digit `d`; upper-case letters above nine. */
  function DigitChar(d: nat): (c: char)
    requires d < 16
    ensures c in HexAlphabet
  {
    if d < 10 then ('0' as int + d) as char else ('A' as int + (d - 10)) as char
  }

  /** Digit character of the given base (at most 16, upper-case letters). */
  predicate IsDigit(c: char, base: nat) {
    ('0' <= c <= '9' && c as int - '0' as int < base)
    || ('A' <= c <= 'F' && c as int - 'A' as int + 10 < base)
  }

  function DigitValue(c: char): nat {
    if '0' <= c <= '9' then c as int - '0' as int
    else if 'A' <= c <= 'F' then c as int - 'A' as int + 10
    else 0
  }

  lemma DigitCharValue(d: nat, base: nat)
    requires d < base <= 16
    ensures IsDigit(DigitChar(d), base) && DigitValue(DigitChar(d)) == d
  {
  }

  /** The digits of `n` in `base`, most significant first, without leading zeros. */
  function NatToDigits(n: nat, base: nat): (s: string)
    requires 2 <= base <= 16
    ensures |s| >= 1
    ensures forall i :: 0 <= i < |s| ==> IsDigit(s[i], base)
    ensures |s| > 1 ==> s[0] != '0'
    ensures s[0] == '0' <==> n == 0
    decreases n
  {
    if n < base then
      DigitCharValue(n, base);
      [DigitChar(n)]
    else
      DivFacts(n, base);
      DigitCharValue(n % base, base);
      NatToDigits(n / base, base) + [DigitChar(n % base)]
  }

  /** Dividing a number of at least `base` leaves a smaller, positive quotient. */
  lemma DivFacts(n: nat, base: nat)
    requires 2 <= base <= n
    ensures 1 <= n / base < n && n % base < base
  {
  }

  /** The number a string of digits denotes; leading zeros add nothing. */
  function ParseDigits(s: string, base: nat): nat
    decreases |s|
  {
    if s == [] then 0 else ParseDigits(s[..|s| - 1], base) * base + DigitValue(s[|s| - 1])
  }

  lemma ParseSnoc(t: string, c: char, base: nat)
    ensures ParseDigits(t + [c], base) == ParseDigits(t, base) * base + DigitValue(c)
  {
    var s := t + [c];
    assert s[..|s| - 1] == t;
  }

  lemma {:induction false} DigitsRoundTrip(n: nat, base: nat)
    requires 2 <= base <= 16
    ensures ParseDigits(NatToDigits(n, base), base) == n
    decreases n
  {
    if n < base {
      DigitCharValue(n, base);
      var t := NatToDigits(n, base);
      assert t == [DigitChar(n)];
      assert t[..0] == [];
      assert ParseDigits(t, base) == 0 * base + DigitValue(DigitChar(n));
    } else {
      DigitsRoundTrip(n / base, base);
      DigitsStep(n, base);
    }
  }

  lemma DivMod(n: nat, base: nat)
    requires base > 0
    ensures (n / base) * base + n % base == n
  {
  }

  /** One step of the round trip: the last digit carries `n % base`, the rest `n / base`. */
  lemma DigitsStep(n: nat, base: nat)
    requires 2 <= base <= 16 && n >= base
    requires ParseDigits(NatToDigits(n / base, base), base) == n / base
    ensures ParseDigits(NatToDigits(n, base), base) == n
  {
    var q, r := n / base, n % base;
    var high, low := NatToDigits(q, base), DigitChar(r);
    assert NatToDigits(n, base) == high + [low];
    DigitCharValue(r, base);
    ParseSnoc(high, low, base);
    DivMod(n, base);
  }

  function Zeros(k: nat): (z: string)
    ensures |z| == k && forall i :: 0 <= i < k ==> z[i] == '0'
  {
    seq(k, _ => '0')
  }

  lemma {:induction false} LeadingZero(s: string, base: nat)
    ensures ParseDigits(['0'] + s, base) == ParseDigits(s, base)
    decreases |s|
  {
    if s == [] {
      assert (['0'] + s)[..0] == [];
    } else {
      var t := ['0'] + s;
      assert t[..|t| - 1] == ['0'] + s[..|s| - 1];
      LeadingZero(s[..|s| - 1], base);
    }
  }

  lemma {:induction false} LeadingZeros(k: nat, s: string, base: nat)
    ensures ParseDigits(Zeros(k) + s, base) == ParseDigits(s, base)
    decreases k
  {
    if k > 0 {
      assert Zeros(k) + s == ['0'] + (Zeros(k - 1) + s);
      LeadingZero(Zeros(k - 1) + s, base);
      LeadingZeros(k - 1, s, base);
    } else {
      assert Zeros(k) + s == s;
    }
  }

  /** `s` with zeros prepended until it is `width` characters long. */
  function ZeroPad(s: string, width: nat): (r: string)
    ensures |r| == if |s| < width then width else |s|
  {
    Zeros(if |s| < width then width - |s| else 0) + s
  }

  function Pow(base: nat, k: nat): nat {
    if k == 0 then 1 else base * Pow(base, k - 1)
  }

  lemma {:induction false} DigitCount(n: nat, base: nat, k: nat)
    requires 2 <= base <= 16 && 1 <= k && n < Pow(base, k)
    ensures |NatToDigits(n, base)| <= k
    decreases k
  {
    if n >= base {
      assert Pow(base, k) == base * Pow(base, k - 1);
      assert k >= 2;
      DivBelow(n, base, Pow(base, k - 1));
      DigitCount(n / base, base, k - 1);
    }
  }

  lemma DivBelow(n: nat, b: nat, p: nat)
    requires b > 0 && n < b * p
    ensures n / b < p
  {
    assert (n / b) * b <= n;
  }

  /** A decimal numeral as Python prints an `int`: an optional minus sign,
      then at least one decimal digit, and a first digit of zero only in "0". */
  predicate IsNumeral(s: string) {
    var d := if |s| > 0 && s[0] == '-' then 1 else 0;
    && |s| > d
    && (forall k :: d <= k < |s| ==> IsDigit(s[k], 10))
    && (s[d] == '0' ==> s == "0")
  }

  /** Python's `str(i)` for an integer: a minus sign exactly for a negative
      number, then decimal digits without a leading zero. */
  function IntToString(i: int): (s: string)
    ensures |s| >= 1 && (s[0] == '-' <==> i < 0)
    ensures forall k :: (if i < 0 then 1 else 0) <= k < |s| ==> IsDigit(s[k], 10)
    ensures IsNumeral(s)
  {
    if i < 0 then "-" + NatToDigits(-i, 10) else NatToDigits(i, 10)
  }

  /** Reads back what `IntToString` writes: an optional minus, then decimal digits. */
  function ParseInt(s: string): int {
    if |s| > 0 && s[0] == '-' then -(ParseDigits(s[1..], 10) as int) else ParseDigits(s, 10)
  }

  lemma IntToStringRoundTrip(i: int)
    ensures ParseInt(IntToString(i)) == i
  {
    if i < 0 {
      assert IntToString(i)[1..] == NatToDigits(-i, 10);
      DigitsRoundTrip(-i, 10);
    } else {
      assert IsDigit(NatToDigits(i, 10)[0], 10);
      DigitsRoundTrip(i, 10);
    }
  }

  /** The only numeral that reads back to `i` is the one `IntToString` prints. */
  lemma NumeralUnique(s: string, i: int)
    requires IsNumeral(s) && ParseInt(s) == i
    ensures s == IntToString(i)
  {
    if s[0] == '-' {
      var t := s[1..];
      assert forall k :: 0 <= k < |t| ==> IsDigit(t[k], 10) by {
        forall k | 0 <= k < |t| ensures IsDigit(t[k], 10) {
          assert t[k] == s[k + 1];
        }
      }
      assert t[0] != '0';
      PositiveDigits(t, 10);
      DigitsUnique(t, 10);
      assert s == "-" + t;
    } else {
      if s[0] == '0' {
        assert s == "0";
        assert s[..0] == [];
      } else {
        PositiveDigits(s, 10);
      }
      DigitsUnique(s, 10);
    }
  }

  /** Digits whose first one is not zero denote a positive number. */
  lemma {:induction false} PositiveDigits(s: string, base: nat)
    requires 2 <= base <= 16 && |s| >= 1 && s[0] != '0'
    requires forall k :: 0 <= k < |s| ==> IsDigit(s[k], base)
    ensures ParseDigits(s, base) >= 1
    decreases |s|
  {
    var t := s[..|s| - 1];
    if |s| == 1 {
      assert t == [];
    } else {
      assert t[0] == s[0];
      PositiveDigits(t, base);
    }
  }

  /** Digits without a leading zero are the rendering of the number they denote. */
  lemma {:induction false} DigitsUnique(s: string, base: nat)
    requires 2 <= base <= 16 && |s| >= 1 && (|s| > 1 ==> s[0] != '0')
    requires forall k :: 0 <= k < |s| ==> IsDigit(s[k], base)
    ensures s == NatToDigits(ParseDigits(s, base), base)
    decreases |s|
  {
    var t, c := s[..|s| - 1], s[|s| - 1];
    var n := ParseDigits(s, base);
    assert c == DigitChar(DigitValue(c)) && DigitValue(c) < base;
    if |s| == 1 {
      assert t == [];
      assert n == DigitValue(c);
      assert s == [c];
    } else {
      assert t[0] == s[0];
      PositiveDigits(t, base);
      DigitsUnique(t, base);
      var q := ParseDigits(t, base);
      assert n == q * base + DigitValue(c);
      SplitLastDigit(q, DigitValue(c), base);
      assert NatToDigits(n, base) == NatToDigits(q, base) + [DigitChar(DigitValue(c))];
      assert s == t + [c];
    }
  }

  /** Appending digit `d` to the digits of `q >= 1` gives a number of at least
      `base` whose quotient and remainder are `q` and `d`. */
  lemma SplitLastDigit(q: nat, d: nat, base: nat)
    requires 2 <= base && 1 <= q && d < base
    ensures q * base + d >= base
    ensures (q * base + d) / base == q && (q * base + d) % base == d
  {
    var n := q * base + d;
    MulAtLeast(q, base);
    var a, r := n / base, n % base;
    assert a * base + r == n;
    assert (a - q) * base == d - r;
    if a > q {
      MulAtLeast(a - q, base);
    } else if a < q {
      MulAtLeast(q - a, base);
    }
  }

  lemma MulAtLeast(x: int, b: nat)
    requires x >= 1
    ensures x * b >= b
  {
  }

  /** Python's `format(i, "04X")`: upper-case hexadecimal, zero-padded to a width
      of four characters, a minus sign counting towards the width. */
  function Hex04(i: int): (s: string)
    ensures |s| >= 4 && (s[0] == '-' <==> i < 0)
    ensures forall k :: (if i < 0 then 1 else 0) <= k < |s| ==> IsDigit(s[k], 16)
  {
    if i < 0 then "-" + ZeroPad(NatToDigits(-i, 16), 3) else ZeroPad(NatToDigits(i, 16), 4)
  }

  /** For a non-negative id, `Hex04` gives at least four upper-case hexadecimal
      digits, exactly four below 0x10000, and they denote the id. */
  lemma Hex04Digits(n: nat)
    ensures |Hex04(n)| >= 4
    ensures forall i :: 0 <= i < |Hex04(n)| ==> Hex04(n)[i] in HexAlphabet
    ensures n < 0x10000 ==> |Hex04(n)| == 4
    ensures ParseDigits(Hex04(n), 16) == n
  {
    var d := NatToDigits(n, 16);
    var k := if |d| < 4 then 4 - |d| else 0;
    assert Hex04(n) == Zeros(k) + d;
    HexAlphabetDigits(Zeros(k), d);
    if n < 0x10000 {
      FourHexDigits(n);
    }
    LeadingZeros(k, d, 16);
    DigitsRoundTrip(n, 16);
  }

  /** Zeros followed by hexadecimal digits are all in the alphabet. */
  lemma HexAlphabetDigits(z: string, d: string)
    requires forall i :: 0 <= i < |z| ==> z[i] == '0'
    requires forall i :: 0 <= i < |d| ==> IsDigit(d[i], 16)
    ensures forall i :: 0 <= i < |z + d| ==> (z + d)[i] in HexAlphabet
  {
    forall i | 0 <= i < |z + d| ensures (z + d)[i] in HexAlphabet {
      if i >= |z| {
        var c := d[i - |z|];
        assert (z + d)[i] == c;
        assert c == DigitChar(DigitValue(c));
      } else {
        assert (z + d)[i] == '0' == HexAlphabet[0];
      }
    }
  }

  /** An id below 0x10000 has at most four hexadecimal digits. */
  lemma FourHexDigits(n: nat)
    requires n < 0x10000
    ensures |NatToDigits(n, 16)| <= 4
  {
    assert Pow(16, 4) == 0x10000 by {
      assert Pow(16, 2) == 256;
    }
    DigitCount(n, 16, 4);
  }
}
