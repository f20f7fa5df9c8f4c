/** Rounding to multiples, as misc/balign.h does it. */
module Align {

  function AlignUp(x: nat, n: nat): nat
    requires n > 0
  {
    if x % n == 0 then x else x + (n - x % n)
  }

  function AlignDown(x: nat, n: nat): nat
    requires n > 0
  {
    x - x % n
  }

  lemma {:induction false} Larger(n: nat, a: nat, b: nat)
    requires a < b
    ensures n * b >= n * a + n
  {
    assert n * b == n * (b - 1) + n;
    if a < b - 1 {
      Larger(n, a, b - 1);
    }
  }

  /** Quotient and remainder are unique. */
  lemma Remainder(x: nat, n: nat, q: nat, r: nat)
    requires n > 0 && x == n * q + r && r < n
    ensures x % n == r && x / n == q
  {
    var q' := x / n;
    assert x == n * q' + x % n;
    if q' > q {
      Larger(n, q, q');
    } else if q > q' {
      Larger(n, q', q);
    }
  }

  lemma PlusOne(a: nat, n: nat)
    requires n > 0
    ensures (a + n) % n == a % n
  {
    assert a == n * (a / n) + a % n;
    assert a + n == n * (a / n + 1) + a % n;
    Remainder(a + n, n, a / n + 1, a % n);
  }

  /** Different multiples of n are at least n apart. */
  lemma Apart(a: nat, b: nat, n: nat)
    requires n > 0 && a % n == 0 && b % n == 0 && a < b
    ensures a + n <= b
  {
    if b < a + n {
      assert a == n * (a / n);
      Remainder(b, n, a / n, b - a);
    }
  }

  lemma AlignUpIs(x: nat, n: nat)
    requires n > 0
    ensures AlignUp(x, n) % n == 0 && x <= AlignUp(x, n) < x + n
  {
    var r := x % n;
    assert x == n * (x / n) + r;
    if r != 0 {
      assert x + (n - r) == n * (x / n + 1);
      Remainder(x + (n - r), n, x / n + 1, 0);
    }
  }

  lemma AlignDownIs(x: nat, n: nat)
    requires n > 0
    ensures AlignDown(x, n) % n == 0 && AlignDown(x, n) <= x < AlignDown(x, n) + n
  {
    assert x == n * (x / n) + x % n;
    Remainder(x - x % n, n, x / n, 0);
  }

  /** AlignUp is the only multiple of n in reach. */
  lemma AlignUpUnique(x: nat, y: nat, n: nat)
    requires n > 0 && y % n == 0 && x <= y < x + n
    ensures AlignUp(x, n) == y
  {
    AlignUpIs(x, n);
    if AlignUp(x, n) < y {
      Apart(AlignUp(x, n), y, n);
    } else if y < AlignUp(x, n) {
      Apart(y, AlignUp(x, n), n);
    }
  }

  /** Rounding up fits below a limit exactly if it fits below the limit rounded down. */
  lemma UpAndDown(x: nat, limit: nat, n: nat)
    requires n > 0
    ensures n + AlignUp(x, n) <= limit <==> n + x <= AlignDown(limit, n)
  {
    var up, down := AlignUp(x, n), AlignDown(limit, n);
    AlignUpIs(x, n);
    AlignDownIs(limit, n);
    PlusOne(up, n);
    if n + up <= limit && down < n + up {
      Apart(down, n + up, n);
    }
    if n + x <= down && down < n + up {
      PlusOne(down - n, n);
      Apart(down - n, up, n);
    }
  }
}
