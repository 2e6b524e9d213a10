/**
 * The string operations of the .NET base library that the modelled code calls:
 * StartsWith, EndsWith, Substring, Remove, Replace, PadRight and the decimal
 * rendering of integers used by string interpolation. All are modelled ordinally;
 * the current-culture comparison of StartsWith and EndsWith is not modelled.
 */
module ClrString {
  import opened Wrappers

  /** `s.StartsWith(p)`, compared ordinally. */
  predicate StartsWith(s: string, p: string) {
    |p| <= |s| && s[..|p|] == p
  }

  /** `s.EndsWith(p)`, compared ordinally. */
  predicate EndsWith(s: string, p: string) {
    |p| <= |s| && s[|s| - |p|..] == p
  }

  /** `p` occurs in `s` starting at index `i`. */
  predicate OccursAt(s: string, p: string, i: int) {
    0 <= i && i + |p| <= |s| && s[i..i + |p|] == p
  }

  /**
   * `s.Remove(startIndex)`: keeps the first `startIndex` characters. The library
   * throws ArgumentOutOfRangeException unless `0 <= startIndex < |s|`; the failure
   * carries the offending index.
   */
  function Remove(s: string, startIndex: int): (r: Result<string, int>)
    ensures r.Success? <==> 0 <= startIndex < |s|
    ensures r.Success? ==> |r.value| == startIndex && r.value == s[..startIndex]
  {
    if 0 <= startIndex < |s| then Success(s[..startIndex]) else Failure(startIndex)
  }

  /**
   * `s.Replace(oldValue, newValue)`: replaces every non-overlapping occurrence of
   * `oldValue`, scanning from the left. The library rejects an empty `oldValue`.
   */
  function Replace(s: string, oldValue: string, newValue: string): string
    requires oldValue != []
    decreases |s|
  {
    if |s| < |oldValue| then s
    else if s[..|oldValue|] == oldValue then newValue + Replace(s[|oldValue|..], oldValue, newValue)
    else [s[0]] + Replace(s[1..], oldValue, newValue)
  }

  /** A string in which `oldValue` does not occur is returned unchanged by Replace. */
  lemma {:induction false} ReplaceAbsent(s: string, oldValue: string, newValue: string)
    requires oldValue != []
    requires forall i :: !OccursAt(s, oldValue, i)
    ensures Replace(s, oldValue, newValue) == s
    decreases |s|
  {
    if |s| >= |oldValue| {
      assert !OccursAt(s, oldValue, 0);
      assert s[..|oldValue|] == s[0..0 + |oldValue|];
      forall i ensures !OccursAt(s[1..], oldValue, i) {
        if OccursAt(s[1..], oldValue, i) {
          assert s[1..][i..i + |oldValue|] == s[i + 1..i + 1 + |oldValue|];
          assert OccursAt(s, oldValue, i + 1);
        }
      }
      ReplaceAbsent(s[1..], oldValue, newValue);
      assert s == [s[0]] + s[1..];
    }
  }

  /** Replacing a string by itself changes nothing. */
  lemma {:induction false} ReplaceBySelf(s: string, value: string)
    requires value != []
    ensures Replace(s, value, value) == s
    decreases |s|
  {
    if |s| >= |value| {
      if s[..|value|] == value {
        ReplaceBySelf(s[|value|..], value);
        assert s == s[..|value|] + s[|value|..];
      } else {
        ReplaceBySelf(s[1..], value);
        assert s == [s[0]] + s[1..];
      }
    }
  }

  /** `s.PadRight(totalWidth)`: appends spaces up to `totalWidth` characters. */
  function PadRight(s: string, totalWidth: nat): (r: string)
    ensures |r| == if |s| < totalWidth then totalWidth else |s|
    ensures r[..|s|] == s
    ensures forall i :: |s| <= i < |r| ==> r[i] == ' '
  {
    if |s| < totalWidth then s + seq(totalWidth - |s|, _ => ' ') else s
  }

  function DigitChar(d: nat): (c: char)
    requires d < 10
    ensures '0' <= c <= '9' && DigitValue(c) == d
  {
    ('0' as int + d) as char
  }

  function DigitValue(c: char): nat {
    if '0' <= c <= '9' then (c as int - '0' as int) as nat else 0
  }

  /** Decimal rendering of a natural number, without leading zeros. */
  function NatToString(n: nat): (r: string)
    ensures |r| >= 1
    ensures forall i :: 0 <= i < |r| ==> '0' <= r[i] <= '9'
    decreases n
  {
    if n < 10 then [DigitChar(n)] else NatToString(n / 10) + [DigitChar(n % 10)]
  }

  /** Decimal rendering of an integer, with a leading '-' when negative. */
  function IntToString(i: int): string {
    if i < 0 then "-" + NatToString(-i) else NatToString(i)
  }

  /** Reads back a string of decimal digits. */
  function ParseNat(s: string): nat
    decreases |s|
  {
    if s == [] then 0 else ParseNat(s[..|s| - 1]) * 10 + DigitValue(s[|s| - 1])
  }

  /** The decimal rendering is read back as the number it came from. */
  lemma {:induction false} ParseNatToString(n: nat)
    ensures ParseNat(NatToString(n)) == n
    decreases n
  {
    if n >= 10 {
      var s := NatToString(n / 10) + [DigitChar(n % 10)];
      assert s[..|s| - 1] == NatToString(n / 10);
      ParseNatToString(n / 10);
    }
  }

  /** The rendering starts with '-' exactly for negative numbers. */
  lemma IntToStringSign(i: int)
    ensures |IntToString(i)| >= 1
    ensures IntToString(i)[0] == '-' <==> i < 0
  {
    if i >= 0 {
      assert '0' <= NatToString(i)[0];
    }
  }

  /** Distinct integers render as distinct strings. */
  lemma IntToStringInjective(i: int, j: int)
    requires IntToString(i) == IntToString(j)
    ensures i == j
  {
    IntToStringSign(i);
    IntToStringSign(j);
    if (i < 0) == (j < 0) {
      var m: nat := if i < 0 then -i else i;
      var n: nat := if j < 0 then -j else j;
      assert NatToString(m) == NatToString(n) by {
        if i < 0 {
          assert NatToString(m) == IntToString(i)[1..];
          assert NatToString(n) == IntToString(j)[1..];
        }
      }
      ParseNatToString(m);
      ParseNatToString(n);
    }
  }
}
