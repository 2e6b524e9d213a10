/**
 * The `TrimStart` / `TrimEnd` string extensions: each walks its list of patterns
 * in order and strips the current string once per matching pattern.
 */
module StringExtensions {
  import opened Wrappers
  import opened ClrString

  // ---------------------------------------------------------------- TrimStart

  /** What one pattern does to the current string in TrimStart. */
  function TrimStartStep(str: string, s: string): string {
    if StartsWith(str, s) then str[|s|..] else str
  }

  /** The string TrimStart holds after trying `patterns`, first to last. */
  function TrimStartAll(str: string, patterns: seq<string>): string
    decreases |patterns|
  {
    if patterns == [] then str
    else TrimStartStep(TrimStartAll(str, patterns[..|patterns| - 1]), patterns[|patterns| - 1])
  }

  /** `str.TrimStart(trimString...)` */
  method TrimStart(str: string, trimString: seq<string>) returns (r: string)
    ensures r == TrimStartAll(str, trimString)
  {
    r := str;
    for i := 0 to |trimString|
      invariant r == TrimStartAll(str, trimString[..i])
    {
      var s := trimString[i];
      if StartsWith(r, s) {
        r := r[|s|..];
      }
      assert trimString[..i + 1][..i] == trimString[..i];
    }
    assert trimString[..|trimString|] == trimString;
  }

  /** The result of TrimStart is a suffix of its input. */
  lemma {:induction false} TrimStartIsSuffix(str: string, patterns: seq<string>)
    ensures |TrimStartAll(str, patterns)| <= |str|
    ensures TrimStartAll(str, patterns) == str[|str| - |TrimStartAll(str, patterns)|..]
    decreases |patterns|
  {
    if patterns != [] {
      var prefix := patterns[..|patterns| - 1];
      TrimStartIsSuffix(str, prefix);
      var cur := TrimStartAll(str, prefix);
      var s := patterns[|patterns| - 1];
      if StartsWith(cur, s) {
        assert cur[|s|..] == str[|str| - |cur| + |s|..];
      }
    }
  }

  /** When no pattern is a prefix of the input, TrimStart returns it unchanged. */
  lemma {:induction false} TrimStartNoMatch(str: string, patterns: seq<string>)
    requires forall k :: 0 <= k < |patterns| ==> !StartsWith(str, patterns[k])
    ensures TrimStartAll(str, patterns) == str
    decreases |patterns|
  {
    if patterns != [] {
      var prefix := patterns[..|patterns| - 1];
      assert forall k :: 0 <= k < |prefix| ==> prefix[k] == patterns[k];
      TrimStartNoMatch(str, prefix);
      assert !StartsWith(str, patterns[|patterns| - 1]);
    }
  }

  /** A matching pattern is stripped exactly; an empty pattern always matches and removes nothing. */
  lemma TrimStartStepStrips(str: string, s: string)
    ensures StartsWith(str, s) ==> s + TrimStartStep(str, s) == str
    ensures TrimStartStep(str, "") == str
  {
    if StartsWith(str, s) {
      assert str == str[..|s|] + str[|s|..];
    }
  }

  // ------------------------------------------------------------------ TrimEnd

  /**
   * What one pattern does to the current string in TrimEnd, as written: on a
   * match it calls `str.Remove(str.Length - s.Length - 1)`, which fails when the
   * index is negative.
   */
  function TrimEndStep(str: string, s: string): Result<string, int> {
    if EndsWith(str, s) then Remove(str, |str| - |s| - 1) else Success(str)
  }

  /** The outcome of TrimEnd after trying `patterns`; the first failure ends the loop. */
  function TrimEndAll(str: string, patterns: seq<string>): Result<string, int>
    decreases |patterns|
  {
    if patterns == [] then Success(str)
    else
      match TrimEndAll(str, patterns[..|patterns| - 1])
      case Failure(e) => Failure(e)
      case Success(cur) => TrimEndStep(cur, patterns[|patterns| - 1])
  }

  /** `str.TrimEnd(trimString...)`; a Failure stands for ArgumentOutOfRangeException. */
  method TrimEnd(str: string, trimString: seq<string>) returns (r: Result<string, int>)
    ensures r == TrimEndAll(str, trimString)
  {
    var cur := str;
    for i := 0 to |trimString|
      invariant TrimEndAll(str, trimString[..i]) == Success(cur)
    {
      assert trimString[..i + 1][..i] == trimString[..i];
      var s := trimString[i];
      assert TrimEndAll(str, trimString[..i + 1]) == TrimEndStep(cur, s);
      if EndsWith(cur, s) {
        var startIndex := |cur| - |s| - 1;
        if startIndex < 0 {
          assert TrimEndStep(cur, s) == Failure(startIndex);
          TrimEndFailureSticks(str, trimString, i + 1);
          return Failure(startIndex);
        }
        assert TrimEndStep(cur, s) == Success(cur[..startIndex]);
        cur := cur[..startIndex];
      }
    }
    assert trimString[..|trimString|] == trimString;
    r := Success(cur);
  }

  /** Once a prefix of the patterns has failed, the whole TrimEnd fails with the same index. */
  lemma {:induction false} TrimEndFailureSticks(str: string, patterns: seq<string>, n: nat)
    requires n <= |patterns|
    requires TrimEndAll(str, patterns[..n]).Failure?
    ensures TrimEndAll(str, patterns) == TrimEndAll(str, patterns[..n])
    decreases |patterns| - n
  {
    if n < |patterns| {
      assert patterns[..n + 1][..n] == patterns[..n];
      TrimEndFailureSticks(str, patterns, n + 1);
    } else {
      assert patterns[..n] == patterns;
    }
  }

  /** On a match, TrimEnd keeps one character fewer than the text before the suffix. */
  lemma TrimEndStepRemovesOneMore(str: string, s: string)
    requires EndsWith(str, s)
    ensures |str| > |s| ==> TrimEndStep(str, s) == Success(str[..|str| - |s| - 1])
    ensures |str| == |s| ==> TrimEndStep(str, s) == Failure(-1)
  {
  }

  /** A successful TrimEnd returns a prefix of its input. */
  lemma {:induction false} TrimEndIsPrefix(str: string, patterns: seq<string>)
    requires TrimEndAll(str, patterns).Success?
    ensures |TrimEndAll(str, patterns).value| <= |str|
    ensures TrimEndAll(str, patterns).value == str[..|TrimEndAll(str, patterns).value|]
    decreases |patterns|
  {
    if patterns != [] {
      TrimEndIsPrefix(str, patterns[..|patterns| - 1]);
    }
  }

  /** When no pattern is a suffix of the input, TrimEnd returns it unchanged. */
  lemma {:induction false} TrimEndNoMatch(str: string, patterns: seq<string>)
    requires forall k :: 0 <= k < |patterns| ==> !EndsWith(str, patterns[k])
    ensures TrimEndAll(str, patterns) == Success(str)
    decreases |patterns|
  {
    if patterns != [] {
      var prefix := patterns[..|patterns| - 1];
      assert forall k :: 0 <= k < |prefix| ==> prefix[k] == patterns[k];
      TrimEndNoMatch(str, prefix);
      assert !EndsWith(str, patterns[|patterns| - 1]);
    }
  }

  /** TrimEnd fails when the string is exactly the pattern, the empty string with pattern "" included. */
  lemma TrimEndFailsOnWholeString(str: string)
    ensures TrimEndAll(str, [str]) == Failure(-1)
    ensures TrimEndAll("", [""]) == Failure(-1)
  {
    assert [str][..0] == [];
    assert [""][..0] == [];
    assert EndsWith(str, str);
  }

  /** The empty pattern always matches in TrimEnd and removes the last character. */
  lemma TrimEndEmptyPattern(str: string)
    requires str != []
    ensures TrimEndAll(str, [""]) == Success(str[..|str| - 1])
  {
    assert [""][..0] == [];
    assert EndsWith(str, "");
  }

  /**
   * The discrepancy on a whole input: stripping a suffix `s` from `x + s` loses
   * the last character of `x` as well, and fails outright when `x` is empty.
   */
  lemma TrimEndLosesLastCharacter(x: string, s: string)
    ensures x != [] ==> TrimEndAll(x + s, [s]) == Success(x[..|x| - 1])
    ensures x == [] ==> TrimEndAll(x + s, [s]) == Failure(-1)
  {
    assert [s][..0] == [];
    assert (x + s)[|x + s| - |s|..] == s;
    if x != [] {
      assert (x + s)[..|x| - 1] == x[..|x| - 1];
    }
  }

  /** For example `"libfoo.so".TrimEnd(".so")` yields "libfo", not "libfoo". */
  lemma TrimEndExample()
    ensures TrimEndAll("libfoo.so", [".so"]) == Success("libfo")
  {
    assert "libfoo" + ".so" == "libfoo.so";
    TrimEndLosesLastCharacter("libfoo", ".so");
    assert "libfoo"[..5] == "libfo";
  }

  // ------------------------------------------------- TrimEnd, as evidently intended

  /** The evidently intended step: `str.Remove(str.Length - s.Length)`. */
  function TrimEndIntendedStep(str: string, s: string): (r: string)
    ensures EndsWith(str, s) ==> r + s == str
    ensures !EndsWith(str, s) ==> r == str
  {
    if EndsWith(str, s) then str[..|str| - |s|] else str
  }

  /** The evidently intended TrimEnd; it never fails. */
  function TrimEndIntended(str: string, patterns: seq<string>): string
    decreases |patterns|
  {
    if patterns == [] then str
    else TrimEndIntendedStep(TrimEndIntended(str, patterns[..|patterns| - 1]), patterns[|patterns| - 1])
  }

  /** The intended TrimEnd strips exactly the suffix: it undoes appending the pattern. */
  lemma TrimEndIntendedStripsSuffix(x: string, s: string)
    ensures TrimEndIntended(x + s, [s]) == x
  {
    assert [s][..0] == [];
    assert (x + s)[|x + s| - |s|..] == s;
    assert (x + s)[..|x|] == x;
  }

  /** The intended TrimEnd also returns a prefix of its input. */
  lemma {:induction false} TrimEndIntendedIsPrefix(str: string, patterns: seq<string>)
    ensures |TrimEndIntended(str, patterns)| <= |str|
    ensures TrimEndIntended(str, patterns) == str[..|TrimEndIntended(str, patterns)|]
    decreases |patterns|
  {
    if patterns != [] {
      TrimEndIntendedIsPrefix(str, patterns[..|patterns| - 1]);
    }
  }
}
