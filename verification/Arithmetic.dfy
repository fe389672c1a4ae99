/** Facts about multiplication, division and remainder by a positive number that the
    ring and chunk arithmetic of the other modules rests on.  */
module Arithmetic {

  lemma {:induction false} MulGrows(c: nat, a: nat, b: nat)
    requires a < b
    ensures c * a + c <= c * b
    decreases b
  {
    assert c * b == c * (b - 1) + c;
    if a + 1 < b { MulGrows(c, a, b - 1); }
  }

  lemma DivMod(c: nat, n: nat)
    requires c > 0
    ensures n == c * (n / c) + n % c && 0 <= n % c < c && n / c >= 0
  {
  }

  lemma DivModUnique(c: nat, q: nat, r: nat)
    requires r < c
    ensures (c * q + r) / c == q && (c * q + r) % c == r
  {
    var n := c * q + r;
    DivMod(c, n);
    if n / c < q {
      MulGrows(c, n / c, q);
    } else if q < n / c {
      MulGrows(c, q, n / c);
    }
  }

  /** x modulo c for an x that has wrapped at most once. */
  function Wrap(c: nat, x: nat): nat
    requires c > 0 && x < 2 * c
  {
    if x < c then x else x - c
  }

  lemma ModIsWrap(c: nat, x: nat)
    requires c > 0 && x < 2 * c
    ensures x % c == Wrap(c, x) < c
  {
    if x < c {
      DivModUnique(c, 0, x);
    } else {
      DivModUnique(c, 1, x - c);
    }
  }

  lemma DivModIs(c: nat, n: nat, q: nat, r: nat)
    requires r < c && n == c * q + r
    ensures n / c == q && n % c == r
  {
    DivModUnique(c, q, r);
  }

  lemma MulNext(c: nat, q: nat)
    ensures c * (q + 1) == c * q + c
  {
  }

  lemma DivModNext(c: nat, n: nat)
    requires c > 0
    ensures if n % c + 1 == c then (n + 1) / c == n / c + 1 && (n + 1) % c == 0
            else (n + 1) / c == n / c && (n + 1) % c == n % c + 1
  {
    DivMod(c, n);
    var q, r := n / c, n % c;
    MulNext(c, q);
    if r + 1 == c {
      DivModIs(c, n + 1, q + 1, 0);
    } else {
      DivModIs(c, n + 1, q, r + 1);
    }
  }

  lemma ModEqual(m: nat, x: nat, y: nat)
    requires m > 0 && x <= y
    ensures x % m == y % m <==> (y - x) % m == 0
  {
    DivMod(m, x);
    DivMod(m, y);
    DivMod(m, y - x);
    if x % m == y % m {
      if y / m < x / m { MulGrows(m, y / m, x / m); }
      assert y - x == m * (y / m - x / m) + 0;
      DivModUnique(m, y / m - x / m, 0);
    }
    if (y - x) % m == 0 {
      assert y == m * (x / m + (y - x) / m) + x % m;
      DivModUnique(m, x / m + (y - x) / m, x % m);
    }
  }
}
