/**
 * The few operations of Go's `strings` and `fmt` packages that the history and
 * platform code relies on: `strings.Contains`, `strings.Split` with a one-character
 * separator, `strings.TrimSuffix(s, "\n")` and the `%d` verb on counters.
 */
module Strings {

  /** `strings.Contains(s, sub)`: `sub` occurs at some offset of `s`. */
  predicate Contains(s: string, sub: string)
    ensures Contains(s, sub) ==> |sub| <= |s|
    decreases |s|
  {
    sub <= s || (|s| > 0 && Contains(s[1..], sub))
  }

  /** An occurrence inside a suffix of `s` is an occurrence in `s`. */
  lemma {:induction false} ContainsInSuffix(s: string, sub: string, k: nat)
    requires k <= |s| && Contains(s[k..], sub)
    ensures Contains(s, sub)
  {
    if k > 0 {
      assert s[1..][k - 1..] == s[k..];
      ContainsInSuffix(s[1..], sub, k - 1);
    }
  }

  /** `sub` found at offset `k` of `s`. */
  lemma ContainsAt(s: string, sub: string, k: nat)
    requires k + |sub| <= |s| && s[k..k + |sub|] == sub
    ensures Contains(s, sub)
  {
    assert sub <= s[k..];
    ContainsInSuffix(s, sub, k);
  }

  /** Every occurrence has an offset. */
  lemma {:induction false} ContainsOffset(s: string, sub: string) returns (k: nat)
    requires Contains(s, sub)
    ensures k + |sub| <= |s| && s[k..k + |sub|] == sub
    decreases |s|
  {
    if sub <= s {
      k := 0;
    } else {
      var j := ContainsOffset(s[1..], sub);
      assert s[1..][j..j + |sub|] == s[j + 1..j + 1 + |sub|];
      k := j + 1;
    }
  }

  /** Whatever occurs in a piece of a concatenation occurs in the whole. */
  lemma ContainsInConcat(a: string, b: string, c: string, sub: string)
    requires Contains(b, sub)
    ensures Contains(a + b + c, sub)
  {
    var k := ContainsOffset(b, sub);
    assert (a + b + c)[|a| + k..|a| + k + |sub|] == b[k..k + |sub|];
    ContainsAt(a + b + c, sub, |a| + k);
  }

  /** Occurrence is transitive: a substring of a substring of `s` is a substring of `s`. */
  lemma ContainsTransitive(s: string, t: string, u: string)
    requires Contains(s, t) && Contains(t, u)
    ensures Contains(s, u)
  {
    var i := ContainsOffset(s, t);
    var j := ContainsOffset(t, u);
    forall m | 0 <= m < |u|
      ensures s[i + j..i + j + |u|][m] == u[m]
    {
      assert s[i..i + |t|][j + m] == t[j..j + |u|][m];
    }
    assert s[i + j..i + j + |u|] == u;
    ContainsAt(s, u, i + j);
  }

  /** A one-character needle is found exactly when the character is present. */
  lemma {:induction false} ContainsChar(s: string, c: char)
    ensures Contains(s, [c]) <==> c in s
    decreases |s|
  {
    if |s| > 0 {
      ContainsChar(s[1..], c);
      assert s == [s[0]] + s[1..];
    }
  }

  /** Number of occurrences of the character `c` in `s`. */
  function Count(s: string, c: char): nat
  {
    if s == [] then 0 else (if s[0] == c then 1 else 0) + Count(s[1..], c)
  }

  /**
   * `strings.Split(s, [c])`: the maximal `c`-free pieces between the separators,
   * one more piece than there are separators (so `Split("", sep)` is `[""]`).
   */
  function SplitOn(s: string, c: char): (parts: seq<string>)
    ensures |parts| == Count(s, c) + 1
    decreases |s|
  {
    if s == [] then [""]
    else if s[0] == c then [""] + SplitOn(s[1..], c)
    else
      var rest := SplitOn(s[1..], c);
      [[s[0]] + rest[0]] + rest[1..]
  }

  /** No piece contains the separator. */
  lemma {:induction false} SplitPiecesWithoutSeparator(s: string, c: char)
    ensures forall i :: 0 <= i < |SplitOn(s, c)| ==> c !in SplitOn(s, c)[i]
    decreases |s|
  {
    if s != [] {
      SplitPiecesWithoutSeparator(s[1..], c);
    }
  }

  /** `strings.Join(parts, [c])`. */
  function Join(parts: seq<string>, c: char): string
  {
    if |parts| == 0 then ""
    else if |parts| == 1 then parts[0]
    else parts[0] + [c] + Join(parts[1..], c)
  }

  /** Splitting loses nothing: joining the pieces back gives the original string. */
  lemma {:induction false} JoinSplit(s: string, c: char)
    ensures Join(SplitOn(s, c), c) == s
    decreases |s|
  {
    if s != [] {
      JoinSplit(s[1..], c);
      var rest := SplitOn(s[1..], c);
      if s[0] != c && |rest| > 1 {
        assert ([s[0]] + rest[0] + [c] + Join(rest[1..], c)) == [s[0]] + (rest[0] + [c] + Join(rest[1..], c));
      }
    }
  }

  /** A string without the separator is a single piece. */
  lemma {:induction false} SplitWithoutSeparator(a: string, c: char)
    requires c !in a
    ensures SplitOn(a, c) == [a]
    decreases |a|
  {
    if a != [] {
      SplitWithoutSeparator(a[1..], c);
      assert [a[0]] + a[1..] == a;
    }
  }

  /** A separator-free first piece followed by the separator is split off as is. */
  lemma {:induction false} SplitFirstPiece(a: string, b: string, c: char)
    requires c !in a
    ensures SplitOn(a + [c] + b, c) == [a] + SplitOn(b, c)
    decreases |a|
  {
    var s := a + [c] + b;
    if a == [] {
      assert s[1..] == b;
    } else {
      assert s[1..] == a[1..] + [c] + b;
      SplitFirstPiece(a[1..], b, c);
      assert [a[0]] + a[1..] == a;
    }
  }

  /** `strings.TrimSuffix(s, "\n")`: drops one trailing newline, if there is one. */
  function TrimNewline(s: string): (r: string)
    ensures s == r || s == r + "\n"
    ensures |s| > 0 && s[|s| - 1] == '\n' ==> s == r + "\n"
  {
    if |s| > 0 && s[|s| - 1] == '\n' then s[..|s| - 1] else s
  }

  /** The decimal digit for `d`. */
  function Digit(d: nat): (c: char)
    requires d < 10
    ensures '0' <= c <= '9' && DigitValue(c) == d
  {
    (('0' as int) + d) as char
  }

  /** The number a decimal digit stands for. */
  function DigitValue(c: char): nat
    requires '0' <= c <= '9'
  {
    (c as int) - ('0' as int)
  }

  /** The number a string of decimal digits denotes, read most significant digit first. */
  function DigitsValue(r: string): nat
    requires forall i :: 0 <= i < |r| ==> '0' <= r[i] <= '9'
  {
    if r == [] then 0 else 10 * DigitsValue(r[..|r| - 1]) + DigitValue(r[|r| - 1])
  }

  /**
   * `fmt.Sprintf("%d", n)` for a non-negative counter: the decimal digits of `n`,
   * without a leading zero.
   */
  function NatToString(n: nat): (r: string)
    ensures |r| > 0 && (|r| > 1 ==> r[0] != '0')
    ensures forall i :: 0 <= i < |r| ==> '0' <= r[i] <= '9'
    ensures DigitsValue(r) == n
  {
    if n < 10 then [Digit(n)]
    else
      var prefix := NatToString(n / 10);
      var r := prefix + [Digit(n % 10)];
      assert r[..|r| - 1] == prefix;
      r
  }

  /** Different counters print differently. */
  lemma NatToStringInjective(m: nat, n: nat)
    requires NatToString(m) == NatToString(n)
    ensures m == n
  {
  }
}
