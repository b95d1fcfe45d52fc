/** Byte order of texts. */
module Text {

  /** -1, 0 or 1. */
  function Order(a: string, b: string): int {
    if a == [] && b == [] then 0
    else if a == [] then -1
    else if b == [] then 1
    else if a[0] < b[0] then -1
    else if b[0] < a[0] then 1
    else Order(a[1..], b[1..])
  }

  lemma {:induction false} OrderZero(a: string, b: string)
    ensures Order(a, b) == 0 <==> a == b
  {
    if a != [] && b != [] {
      OrderZero(a[1..], b[1..]);
      assert a == [a[0]] + a[1..] && b == [b[0]] + b[1..];
    }
  }

  lemma {:induction false} OrderFlip(a: string, b: string)
    ensures Order(a, b) == -Order(b, a)
  {
    if a != [] && b != [] { OrderFlip(a[1..], b[1..]); }
  }

  lemma {:induction false} OrderTransitive(a: string, b: string, c: string)
    requires Order(a, b) <= 0 && Order(b, c) <= 0
    ensures Order(a, c) <= 0 && (Order(a, c) == 0 ==> Order(a, b) == 0 && Order(b, c) == 0)
  {
    if a != [] && b != [] && c != [] && a[0] == b[0] == c[0] {
      OrderTransitive(a[1..], b[1..], c[1..]);
    }
  }

  lemma {:induction false} OrderPrefix(p: string, a: string, b: string)
    ensures Order(p + a, p + b) == Order(a, b)
  {
    if p == [] {
      assert p + a == a && p + b == b;
    } else {
      OrderPrefix(p[1..], a, b);
      assert (p + a)[1..] == p[1..] + a && (p + b)[1..] == p[1..] + b;
    }
  }

  /** Texts of equal length that differ decide the order whatever follows them. */
  lemma {:induction false} OrderDecided(a: string, b: string, x: string, y: string)
    requires |a| == |b| && a != b
    ensures Order(a + x, b + y) == Order(a, b) != 0
  {
    assert (a + x)[1..] == a[1..] + x && (b + y)[1..] == b[1..] + y;
    if a[0] == b[0] {
      assert a == [a[0]] + a[1..] && b == [b[0]] + b[1..];
      OrderDecided(a[1..], b[1..], x, y);
    }
  }

  lemma {:induction false} OrderRange(a: string, b: string)
    ensures -1 <= Order(a, b) <= 1
  {
    if a != [] && b != [] { OrderRange(a[1..], b[1..]); }
  }

  // ---- Numbers in decimal -------------------------------------------------------------

  function DigitChar(n: nat): char
    requires n < 10
  {
    '0' + n as char
  }

  function Decimal(n: nat): string {
    if n < 10 then [DigitChar(n)] else Decimal(n / 10) + [DigitChar(n % 10)]
  }

  lemma {:induction false} DecimalLength(n: nat)
    ensures |Decimal(n)| >= 1 && (n >= 10 <==> |Decimal(n)| >= 2)
  {
    if n >= 10 { DecimalLength(n / 10); }
  }

  lemma {:induction false} DecimalInjective(m: nat, n: nat)
    ensures Decimal(m) == Decimal(n) <==> m == n
    decreases m
  {
    DecimalLength(m);
    DecimalLength(n);
    if m >= 10 && n >= 10 {
      DecimalInjective(m / 10, n / 10);
      var (a, b) := (Decimal(m), Decimal(n));
      assert a[..|a| - 1] == Decimal(m / 10) && b[..|b| - 1] == Decimal(n / 10);
      assert DigitChar(m % 10) == DigitChar(n % 10) <==> m % 10 == n % 10;
    } else if m < 10 && n < 10 {
      assert DigitChar(m) == DigitChar(n) <==> m == n;
    }
  }
}
