/**
 * The handful of PHP string functions the gateway relies on, over `seq<char>`.
 * `strtoupper`/`strtolower` are ASCII-only (as in PHP 8.2 and later), `trim`
 * strips PHP's default character list, `explode` splits on one character.
 */
module PhpString {

  function UpperChar(c: char): char {
    if 'a' <= c <= 'z' then (c as int - 32) as char else c
  }

  function LowerChar(c: char): char {
    if 'A' <= c <= 'Z' then (c as int + 32) as char else c
  }

  /** `strtoupper` */
  function Upper(s: string): (r: string)
    ensures |r| == |s|
    ensures forall i :: 0 <= i < |s| ==> r[i] == UpperChar(s[i])
  {
    seq(|s|, i requires 0 <= i < |s| => UpperChar(s[i]))
  }

  /** `strtolower` */
  function Lower(s: string): (r: string)
    ensures |r| == |s|
    ensures forall i :: 0 <= i < |s| ==> r[i] == LowerChar(s[i])
  {
    seq(|s|, i requires 0 <= i < |s| => LowerChar(s[i]))
  }

  /** Upper-casing twice is upper-casing once. */
  lemma UpperIdempotent(s: string)
    ensures Upper(Upper(s)) == Upper(s)
  {
    assert forall i :: 0 <= i < |s| ==> Upper(Upper(s))[i] == Upper(s)[i];
  }

  /** Lower-casing twice is lower-casing once. */
  lemma LowerIdempotent(s: string)
    ensures Lower(Lower(s)) == Lower(s)
  {
    assert forall i :: 0 <= i < |s| ==> Lower(Lower(s))[i] == Lower(s)[i];
  }

  /** `str_starts_with` */
  predicate StartsWith(s: string, prefix: string) {
    |prefix| <= |s| && s[..|prefix|] == prefix
  }

  /** `str_contains` */
  predicate Contains(s: string, needle: string)
    decreases |s|
  {
    StartsWith(s, needle) || (|s| > 0 && Contains(s[1..], needle))
  }

  /** `substr($s, 0, $n)` for a non-negative length, counted in characters. */
  function Prefix(s: string, n: nat): (r: string)
    ensures |r| == if n < |s| then n else |s|
    ensures StartsWith(s, r)
  {
    if n < |s| then s[..n] else s
  }

  /** The characters PHP's `trim` removes by default. */
  predicate IsTrimmed(c: char) {
    c == ' ' || c == '\t' || c == '\n' || c == '\r' || c == 0 as char || c == 11 as char
  }

  /** Length of the run of trimmed characters that starts `s`. */
  function LeadingTrimmed(s: string): (n: nat)
    ensures n <= |s|
    ensures forall i :: 0 <= i < n ==> IsTrimmed(s[i])
    ensures n == |s| || !IsTrimmed(s[n])
  {
    if |s| > 0 && IsTrimmed(s[0]) then 1 + LeadingTrimmed(s[1..]) else 0
  }

  /** Length of the run of trimmed characters that ends `s`. */
  function TrailingTrimmed(s: string): (n: nat)
    ensures n <= |s|
    ensures forall i :: |s| - n <= i < |s| ==> IsTrimmed(s[i])
    ensures n == |s| || !IsTrimmed(s[|s| - n - 1])
  {
    if |s| > 0 && IsTrimmed(s[|s| - 1]) then 1 + TrailingTrimmed(s[..|s| - 1]) else 0
  }

  function TrimLeft(s: string): (r: string)
    ensures |r| <= |s| && r == s[|s| - |r|..]
    ensures forall i :: 0 <= i < |s| - |r| ==> IsTrimmed(s[i])
    ensures r == [] || !IsTrimmed(r[0])
  {
    s[LeadingTrimmed(s)..]
  }

  function TrimRight(s: string): (r: string)
    ensures |r| <= |s| && r == s[..|r|]
    ensures forall i :: |r| <= i < |s| ==> IsTrimmed(s[i])
    ensures r == [] || !IsTrimmed(r[|r| - 1])
  {
    s[..|s| - TrailingTrimmed(s)]
  }

  /** `trim` */
  function Trim(s: string): (r: string)
    ensures |r| <= |s|
    ensures r == [] || (!IsTrimmed(r[0]) && !IsTrimmed(r[|r| - 1]))
  {
    TrimRight(TrimLeft(s))
  }

  /**
   * `trim` keeps a contiguous piece of its input and cuts away only the
   * characters it trims.
   */
  lemma TrimIsInfix(s: string)
    ensures var i := |s| - |TrimLeft(s)|;
            && 0 <= i <= i + |Trim(s)| <= |s|
            && Trim(s) == s[i..i + |Trim(s)|]
            && (forall k :: 0 <= k < i ==> IsTrimmed(s[k]))
            && (forall k :: i + |Trim(s)| <= k < |s| ==> IsTrimmed(s[k]))
  {
    var l := TrimLeft(s);
    var i := |s| - |l|;
    assert forall k :: i + |Trim(s)| <= k < |s| ==> s[k] == l[k - i];
  }

  /** Number of occurrences of `c` in `s`. */
  function Count(c: char, s: string): nat {
    if |s| == 0 then 0 else (if s[0] == c then 1 else 0) + Count(c, s[1..])
  }

  /** A character that does not occur in `s` is counted zero times. */
  lemma {:induction false} CountAbsent(c: char, s: string)
    requires c !in s
    ensures Count(c, s) == 0
  {
    if |s| > 0 {
      assert c !in s[1..] by {
        forall i | 0 <= i < |s[1..]| ensures s[1..][i] != c {
          assert s[1..][i] == s[i + 1];
        }
      }
      CountAbsent(c, s[1..]);
    }
  }

  /** `explode($sep, $s)` for a one-character separator. */
  function Explode(sep: char, s: string): (parts: seq<string>)
    ensures |parts| >= 1
    decreases |s|
  {
    if |s| == 0 then [""]
    else
      var rest := Explode(sep, s[1..]);
      if s[0] == sep then [""] + rest
      else [[s[0]] + rest[0]] + rest[1..]
  }

  /** `implode($sep, $parts)` */
  function Implode(sep: char, parts: seq<string>): string
    requires |parts| >= 1
  {
    if |parts| == 1 then parts[0] else parts[0] + [sep] + Implode(sep, parts[1..])
  }

  /**
   * `explode` and `implode` are inverse: splitting loses nothing, the pieces
   * never contain the separator, and there is one piece more than there are
   * separators.
   */
  lemma {:induction false} ExplodeImplode(sep: char, s: string)
    ensures Implode(sep, Explode(sep, s)) == s
    ensures |Explode(sep, s)| == Count(sep, s) + 1
    ensures forall p :: p in Explode(sep, s) ==> sep !in p
    decreases |s|
  {
    if |s| > 0 {
      var rest := Explode(sep, s[1..]);
      ExplodeImplode(sep, s[1..]);
      assert s == [s[0]] + s[1..];
      if s[0] == sep {
        assert Explode(sep, s)[1..] == rest;
      } else {
        var parts := Explode(sep, s);
        assert parts[0] == [s[0]] + rest[0];
        assert parts[1..] == rest[1..];
        if |rest| == 1 {
          assert Implode(sep, parts) == parts[0];
        } else {
          assert Implode(sep, parts) == parts[0] + [sep] + Implode(sep, rest[1..]);
          assert Implode(sep, rest) == rest[0] + [sep] + Implode(sep, rest[1..]);
        }
        forall p | p in parts
          ensures sep !in p
        {
          if p == parts[0] {
            assert sep !in rest[0];
          } else {
            assert p in rest;
          }
        }
      }
    }
  }

  /** Decimal text of an integer, as PHP's string conversion writes it. */
  function IntToText(n: int): (r: string)
    ensures |r| >= 1
  {
    if n < 0 then "-" + NatToText(-n) else NatToText(n)
  }

  function NatToText(n: nat): (r: string)
    ensures |r| >= 1
    ensures forall i :: 0 <= i < |r| ==> '0' <= r[i] <= '9'
  {
    if n < 10 then [Digit(n)] else NatToText(n / 10) + [Digit(n % 10)]
  }

  function Digit(d: nat): (c: char)
    requires d < 10
    ensures '0' <= c <= '9'
  {
    ("0123456789")[d]
  }
}
