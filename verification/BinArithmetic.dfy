/** Division facts behind bucket boundaries. */
module BinArithmetic {

  // w-multiples at least one apart differ by at least w.
  lemma MultiplesApart(w: int, d: int, e: int)
    requires 0 < w && d < e
    ensures d * w + w <= e * w
  {
    assert e * w - d * w - w == (e - d - 1) * w;
  }

  lemma UniqueQuotient(w: int, d: int, m: int, e: int, n: int)
    requires 0 <= m < w && 0 <= n < w && d * w + m == e * w + n
    ensures d == e && m == n
  {
    if d < e {
      MultiplesApart(w, d, e);
    } else if e < d {
      MultiplesApart(w, e, d);
    }
  }

  lemma DivModUnique(w: int, d: int, m: int, a: int)
    requires 0 <= m < w && a == d * w + m
    ensures a / w == d && a % w == m
  {
    UniqueQuotient(w, d, m, a / w, a % w);
  }

  lemma FloorIsTheMultipleBelow(w: int, t: int, edge: int)
    requires 0 < w
    ensures t / w * w == edge <==> edge % w == 0 && edge <= t < edge + w
  {
    if t / w * w == edge {
      DivModUnique(w, t / w, 0, edge);
    }
    if edge % w == 0 && edge <= t < edge + w {
      DivModUnique(w, edge / w, t - edge, t);
    }
  }

  lemma Regroup(k: int, m: int, v: int)
    ensures k * (m * v) == (k * m) * v
  {
  }

  // What divides the divisor divides the multiple.
  lemma DivisorOfDivisor(v: int, w: int, a: int)
    requires 0 < v && 0 < w && w % v == 0 && a % w == 0
    ensures a % v == 0
  {
    var k, m := a / w, w / v;
    assert a == k * w && w == m * v;
    Regroup(k, m, v);
    DivModUnique(v, k * m, 0, a);
  }

  lemma ModPlus(a: int, w: int)
    requires w > 0
    ensures (a + w) % w == a % w && (a + w) / w == a / w + 1
  {
    DivModUnique(w, a / w + 1, a % w, a + w);
  }

  lemma FloorOfSum(w: int, a: int, b: int)
    requires w > 0
    ensures (a % w + b) / w == b / w + (if a % w + b % w >= w then 1 else 0)
    ensures (b + w) / w == b / w + 1
    ensures a - a / w * w == a % w
  {
    ModPlus(b, w);
    var m := a % w + b % w;
    if m >= w {
      DivModUnique(w, b / w + 1, m - w, a % w + b);
    } else {
      DivModUnique(w, b / w, m, a % w + b);
    }
  }
}
