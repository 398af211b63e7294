/** Decimal printing, and why keys built by joining a string and a number never collide. */
module Decimal {

  function DigitChar(d: nat): char
    requires d < 10
  {
    '0' + d as char
  }

  function Digits(n: nat): string {
    if n < 10 then [DigitChar(n)] else Digits(n / 10) + [DigitChar(n % 10)]
  }

  /** The `%d` verb. */
  function Itoa(i: int): string {
    if i < 0 then "-" + Digits(-i) else Digits(i)
  }

  /** Reads digits back; other characters count as 0. */
  function Value(s: string): nat {
    if s == [] then 0
    else
      var c := s[|s| - 1];
      10 * Value(s[..|s| - 1]) + (if '0' <= c <= '9' then (c - '0') as nat else 0)
  }

  lemma {:induction false} DigitsReadBack(n: nat)
    ensures Value(Digits(n)) == n && |Digits(n)| > 0
    ensures forall c | c in Digits(n) :: '0' <= c <= '9'
  {
    if n >= 10 {
      DigitsReadBack(n / 10);
      assert Digits(n)[..|Digits(n)| - 1] == Digits(n / 10);
    } else {
      assert Digits(n)[..0] == [];
    }
  }

  lemma ItoaInjective(i: int, j: int)
    requires Itoa(i) == Itoa(j)
    ensures i == j
  {
    DigitsReadBack(if i < 0 then -i else i);
    DigitsReadBack(if j < 0 then -j else j);
    assert (i < 0) == (j < 0) by {
      assert i >= 0 ==> Itoa(i)[0] in Digits(i);
      assert j >= 0 ==> Itoa(j)[0] in Digits(j);
    }
    if i < 0 {
      assert Digits(-i) == Itoa(i)[1..] && Digits(-j) == Itoa(j)[1..];
    }
  }

  /** Printed numbers contain no separator used in a key. */
  lemma ItoaHasNo(i: int, sep: char)
    requires sep != '-' && !('0' <= sep <= '9')
    ensures sep !in Itoa(i)
  {
    DigitsReadBack(if i < 0 then -i else i);
  }

  /** A string splits in one way at the last occurrence of a separator. */
  lemma SplitsAtLast(a: string, b: string, c: string, d: string, sep: char)
    requires sep !in b && sep !in d
    requires a + [sep] + b == c + [sep] + d
    ensures a == c && b == d
  {
    var s, t := a + [sep] + b, c + [sep] + d;
    assert s[|a|] == sep && t[|c|] == sep;
    assert |a| == |c|;
    assert a == s[..|a|] && c == t[..|c|];
    assert b == s[|a| + 1..] && d == t[|c| + 1..];
  }

  /** A string splits in one way at the first occurrence of a separator. */
  lemma SplitsAtFirst(a: string, b: string, c: string, d: string, sep: char)
    requires sep !in a && sep !in c
    requires a + [sep] + b == c + [sep] + d
    ensures a == c && b == d
  {
    var s, t := a + [sep] + b, c + [sep] + d;
    assert s[|a|] == sep && t[|c|] == sep;
    assert |a| == |c|;
    assert a == s[..|a|] && c == t[..|c|];
    assert b == s[|a| + 1..] && d == t[|c| + 1..];
  }
}
