/** Text at a position, and numbers in decimal: what the other modules say about strings. */
module Text {

  /** The end of a C string: the last character, or a NUL before it. */
  predicate AtEnd(s: string, p: nat) {
    p >= |s| || s[p] == '\0'
  }

  /** `r` stands in `s` at `p`. */
  predicate At<T(==)>(s: seq<T>, p: nat, r: seq<T>) {
    p + |r| <= |s| && s[p..p + |r|] == r
  }

  lemma AtSplit<T>(s: seq<T>, p: nat, a: seq<T>, b: seq<T>)
    requires At(s, p, a + b)
    ensures At(s, p, a) && At(s, p + |a|, b)
  {
    assert s[p..p + |a|] == (a + b)[..|a|];
    assert s[p + |a|..p + |a| + |b|] == (a + b)[|a|..];
  }

  lemma AtChar<T>(s: seq<T>, p: nat, r: seq<T>, i: nat)
    requires At(s, p, r) && i < |r|
    ensures p + |r| <= |s| && s[p + i] == r[i]
  {
    assert s[p..p + |r|][i] == r[i];
  }

  function Take(s: string, n: nat): (r: string)
    ensures |r| <= n && r <= s
    ensures |s| <= n ==> r == s
  {
    if |s| <= n then s else s[..n]
  }

  predicate IsDigit(c: char) { '0' <= c <= '9' }

  function DigitValue(c: char): nat
    requires IsDigit(c)
  {
    c as int - '0' as int
  }

  function Digits(n: nat): (r: string)
    ensures r != ""
  {
    var d := [('0' as int + n % 10) as char];
    if n < 10 then d else Digits(n / 10) + d
  }

  lemma LastDigit(n: nat)
    ensures var r := Digits(n);
            IsDigit(r[|r| - 1]) && DigitValue(r[|r| - 1]) == n % 10
            && r == (if n < 10 then "" else Digits(n / 10)) + [r[|r| - 1]]
  {
  }
}
