/** What several of the models share. */
module Basics {
  datatype Option<+T> = None | Some(value: T)

  /** The members of string.whitespace. */
  predicate IsSpace(c: char) {
    c == ' ' || c == '\t' || c == '\n' || c == '\r' || c == '\U{0B}' || c == '\U{0C}'
  }

  /** Characters of code 0. */
  function Nuls(n: nat): (s: string)
    ensures |s| == n && forall i :: 0 <= i < n ==> s[i] as int == 0
  {
    seq(n, _ => '\0')
  }

  /** What a write at pos leaves in a file. */
  function WriteAt<T>(f: seq<T>, pos: nat, s: seq<T>): seq<T>
    requires pos <= |f|
  {
    f[..pos] + s + if pos + |s| <= |f| then f[pos + |s|..] else []
  }

  lemma QuotientIs(n: int, d: int, q: int, r: int)
    requires 0 <= r < d && n == d * q + r
    ensures n / d == q
  {
    var k := n / d - q;
    assert n == d * (n / d) + n % d;
    assert d * k == d * (n / d) - d * q;
    assert k >= 1 ==> d * k >= d * 1;
    assert k <= -1 ==> d * k <= d * -1;
  }
}
