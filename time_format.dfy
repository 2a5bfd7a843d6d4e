/** kerbal_Time: splitting a duration in seconds into the game's calendar of
    60-second minutes, 60-minute hours and 6-hour days. The source works on
    JavaScript numbers, whose `%` truncates toward zero; the model keeps
    reals and spells that operator out. */
module TimeFormat {

  predicate IsInt(x: real)
  {
    x.Floor as real == x
  }

  /** Truncation toward zero, the integer part JavaScript's `%` removes. */
  function Trunc(q: real): (n: int)
    ensures q >= 0.0 ==> 0 <= n && n as real <= q < n as real + 1.0
    ensures q <= 0.0 ==> n <= 0 && n as real - 1.0 < q <= n as real
  {
    if q >= 0.0 then q.Floor else -((-q).Floor)
  }

  /** JavaScript's `x % y`: the remainder keeps the sign of x, is smaller
      than y in size, and x minus it is a whole multiple of y. */
  function JsRem(x: real, y: real): (r: real)
    requires y > 0.0
    ensures x >= 0.0 ==> 0.0 <= r < y && r <= x
    ensures x <= 0.0 ==> -y < r <= 0.0 && x <= r
    ensures IsInt((x - r) / y)
    ensures IsInt(x) && IsInt(y) ==> IsInt(r)
  {
    var z := x / y;
    var n := Trunc(z);
    var r := x - n as real * y;
    DivMul(x, y);
    RemainderFacts(x, y, z, n, r);
    r
  }

  lemma DivMul(x: real, y: real)
    requires y != 0.0
    ensures (x / y) * y == x
  {
  }

  /** The facts JsRem promises, for x == z * y and n the truncation of z. */
  lemma RemainderFacts(x: real, y: real, z: real, n: int, r: real)
    requires y > 0.0 && z * y == x
    requires z >= 0.0 ==> 0 <= n && n as real <= z < n as real + 1.0
    requires z <= 0.0 ==> n <= 0 && n as real - 1.0 < z <= n as real
    requires r == x - n as real * y
    ensures x >= 0.0 ==> 0.0 <= r < y && r <= x
    ensures x <= 0.0 ==> -y < r <= 0.0 && x <= r
    ensures IsInt((x - r) / y)
    ensures IsInt(x) && IsInt(y) ==> IsInt(r)
  {
    RemainderBounds(x, y, z, n as real, r);
    WholeQuotient(x, y, n, r);
    IntRemainder(x, y, n);
  }

  /** The sign and size of r == x - q·y, for q the truncation of x / y. */
  lemma RemainderBounds(x: real, y: real, z: real, q: real, r: real)
    requires y > 0.0 && z * y == x
    requires z >= 0.0 ==> 0.0 <= q <= z < q + 1.0
    requires z <= 0.0 ==> q <= 0.0 && q - 1.0 < z <= q
    requires r == x - q * y
    ensures x >= 0.0 ==> 0.0 <= r < y && r <= x
    ensures x <= 0.0 ==> -y < r <= 0.0 && x <= r
  {
    SignOfProduct(z, y);
    SignOfProduct(q, y);
    QuotientBounds(x, y, z, q);
    OffsetBounds(x, y, q, q * y);
  }

  /** Taking r == x - n·y from x leaves n multiples of y. */
  lemma WholeQuotient(x: real, y: real, n: int, r: real)
    requires y != 0.0 && r == x - n as real * y
    ensures IsInt((x - r) / y)
  {
    var q := n as real;
    assert x - r == q * y;
    MulDiv(q, y);
    assert (x - r) / y == q;
    assert q.Floor == n;
  }

  /** The sign and size of x - p, for p the multiple of y next to x. */
  lemma OffsetBounds(x: real, y: real, q: real, p: real)
    requires y > 0.0
    requires x >= 0.0 ==> 0.0 <= q && p <= x < p + y
    requires x <= 0.0 ==> q <= 0.0 && p - y < x <= p
    requires q >= 0.0 ==> p >= 0.0
    requires q <= 0.0 ==> p <= 0.0
    ensures x >= 0.0 ==> 0.0 <= x - p < y && x - p <= x
    ensures x <= 0.0 ==> -y < x - p <= 0.0 && x <= x - p
  {
  }

  /** A whole multiple of a whole number, taken from a whole number, is
      whole. */
  lemma IntRemainder(x: real, y: real, n: int)
    ensures IsInt(x) && IsInt(y) ==> IsInt(x - n as real * y)
  {
    if IsInt(x) && IsInt(y) {
      IntProduct(n, y.Floor);
      assert x - n as real * y == (x.Floor - n * y.Floor) as real;
    }
  }

  /** With y > 0, z * y has the sign of z. */
  lemma SignOfProduct(z: real, y: real)
    requires y > 0.0
    ensures z >= 0.0 <==> z * y >= 0.0
    ensures z <= 0.0 <==> z * y <= 0.0
  {
    if z >= 0.0 { MulBounds(z, 0.0, y); } else { MulBounds(0.0, z, y); }
  }

  lemma MulDiv(q: real, y: real)
    requires y != 0.0
    ensures (q * y) / y == q
  {
  }

  lemma IntProduct(m: int, n: int)
    ensures (m as real) * (n as real) == (m * n) as real
  {
  }

  /** Where x == z * y lies relative to the multiples of y next to q, the
      quotient z truncated. */
  lemma QuotientBounds(x: real, y: real, z: real, q: real)
    requires y > 0.0 && z * y == x
    requires x >= 0.0 ==> q <= z < q + 1.0
    requires x <= 0.0 ==> q - 1.0 < z <= q
    ensures x >= 0.0 ==> q * y <= x < q * y + y
    ensures x <= 0.0 ==> q * y - y < x <= q * y
  {
    Shift(q, y);
    ScaleCompare(x, y, z, q);
    if x >= 0.0 {
      ScaleCompare(x, y, z, q + 1.0);
    }
    if x <= 0.0 {
      ScaleCompare(x, y, z, q - 1.0);
    }
  }

  /** For x == z * y with y > 0, comparing q with z compares q * y with x. */
  lemma ScaleCompare(x: real, y: real, z: real, q: real)
    requires y > 0.0 && z * y == x
    ensures q <= z ==> q * y <= x
    ensures q < z ==> q * y < x
    ensures z <= q ==> x <= q * y
    ensures z < q ==> x < q * y
  {
    if q <= z { MulBounds(z, q, y); } else { MulBounds(q, z, y); }
  }

  /** Multiplying both sides of an order by a positive number keeps it. */
  lemma MulBounds(p: real, q: real, y: real)
    requires y > 0.0 && q <= p
    ensures q * y <= p * y
    ensures q < p ==> q * y < p * y
  {
  }

  lemma Shift(q: real, y: real)
    ensures (q + 1.0) * y == q * y + y
    ensures (q - 1.0) * y == q * y - y
  {
  }

  /** kerbal_Time: the days, hours, minutes and seconds shown for a duration
      of t seconds. Recombined, they give t back exactly; minutes, hours and
      days are whole numbers; for a non-negative duration every part is
      non-negative and below its unit's size, and a negative duration gives
      the mirror image. */
  method KerbalTime(t: real) returns (days: real, hours: real, mins: real, secs: real)
    ensures 21600.0 * days + 3600.0 * hours + 60.0 * mins + secs == t
    ensures IsInt(days) && IsInt(hours) && IsInt(mins)
    ensures t >= 0.0 ==> 0.0 <= secs < 60.0 && 0.0 <= mins < 60.0 && 0.0 <= hours < 6.0 && 0.0 <= days
    ensures t <= 0.0 ==> -60.0 < secs <= 0.0 && -60.0 < mins <= 0.0 && -6.0 < hours <= 0.0 && days <= 0.0
  {
    var rest := t;
    secs := JsRem(rest, 60.0);
    rest := rest - secs;
    rest := rest / 60.0;
    mins := JsRem(rest, 60.0);
    rest := rest - mins;
    rest := rest / 60.0;
    hours := JsRem(rest, 6.0);
    rest := rest - hours;
    rest := rest / 6.0;
    days := rest;
  }
}
