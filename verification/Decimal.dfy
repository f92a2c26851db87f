/** Decimal numbers in identifiers: they, and what stands before them, can be read back. */
module Decimal {
  import opened Sequences

  predicate IsDigit(c: char) {
    '0' <= c <= '9'
  }

  function Digit(n: nat): (c: char)
    requires n < 10
    ensures IsDigit(c)
  {
    '0' + n as char
  }

  /** `format!("{n}")`. */
  function Render(n: nat): (s: string)
    ensures s != [] && forall c | c in s :: IsDigit(c)
  {
    if n < 10 then [Digit(n)] else Render(n / 10) + [Digit(n % 10)]
  }

  function DigitValue(c: char): int {
    c as int - '0' as int
  }

  function Value(s: string): int {
    if s == [] then 0 else 10 * Value(DropLast(s)) + DigitValue(Last(s))
  }

  lemma {:induction false} RenderValue(n: nat)
    ensures Value(Render(n)) == n
  {
    if n >= 10 {
      RenderValue(n / 10);
      assert DropLast(Render(n)) == Render(n / 10);
    } else {
      assert DropLast(Render(n)) == [];
    }
  }

  lemma RenderInjective(m: nat, n: nat)
    requires Render(m) == Render(n)
    ensures m == n
  {
    RenderValue(m);
    RenderValue(n);
  }

  /** What follows the last separator can be read back when it holds no separator. */
  lemma {:induction false} SplitAtLast(a: string, b: string, c: string, d: string, separator: char)
    requires separator !in b && separator !in d
    requires a + [separator] + b == c + [separator] + d
    ensures a == c && b == d
    decreases |b|
  {
    var left, right := a + [separator] + b, c + [separator] + d;
    assert Last(left) == if b == [] then separator else Last(b);
    assert Last(right) == if d == [] then separator else Last(d);
    assert b != [] ==> Last(b) in b;
    assert d != [] ==> Last(d) in d;
    if b == [] {
      assert DropLast(left) == a && DropLast(right) == c;
    } else {
      assert DropLast(left) == a + [separator] + DropLast(b);
      assert DropLast(right) == c + [separator] + DropLast(d);
      SplitAtLast(a, DropLast(b), c, DropLast(d), separator);
      assert b == DropLast(b) + [Last(b)] && d == DropLast(d) + [Last(d)];
    }
  }
}
