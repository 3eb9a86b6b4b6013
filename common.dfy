/** The small pieces of p5 arithmetic the sketches rely on, over reals:
    two-dimensional vectors (createVector), linear interpolation (lerp)
    and Math.max; plus an Option type for the values JavaScript would
    turn into NaN or a thrown TypeError. */
module Common {

  datatype Option<+T> = None | Some(value: T)

  /** A p5 vector restricted to the two coordinates the sketches use. */
  datatype Vec = Vec(x: real, y: real) {
    function Plus(d: Vec): Vec {
      Vec(x + d.x, y + d.y)
    }
  }

  function Max(a: real, b: real): (m: real)
    ensures m >= a && m >= b
    ensures m == a || m == b
  {
    if a >= b then a else b
  }

  /** b raised to the power e. */
  function Pow(b: nat, e: nat): nat {
    if e == 0 then 1 else b * Pow(b, e - 1)
  }

  /** p5's lerp(start, stop, amt) = amt * (stop - start) + start. */
  function Lerp(start: real, stop: real, amt: real): (r: real)
    ensures amt == 0.0 ==> r == start
    ensures amt == 1.0 ==> r == stop
    ensures amt == 0.5 ==> r == (start + stop) / 2.0
  {
    amt * (stop - start) + start
  }

  /** An amount in [0, 1] lands between start and stop. */
  lemma LerpBetween(start: real, stop: real, amt: real)
    requires 0.0 <= amt <= 1.0 && start <= stop
    ensures start <= Lerp(start, stop, amt) <= stop
  {
    var d := stop - start;
    assert amt * d >= 0.0;
    assert (1.0 - amt) * d >= 0.0;
    assert amt * d <= d;
  }

  /** Dividing both sides of a * n <= b * n by a positive n. */
  lemma ScaleBack(a: real, b: real, n: real)
    requires n > 0.0 && a * n <= b * n
    ensures a <= b
  {
    assert (b - a) * n >= 0.0;
    assert b - a == (b * n - a * n) / n;
  }

  /** A fraction p / q with 0 <= p <= q and q positive lies in [0, 1]. */
  lemma FractionInUnit(p: real, q: real)
    requires 0.0 <= p <= q && q > 0.0
    ensures 0.0 <= p / q <= 1.0
  {
    var t := p / q;
    assert t * q == p;
    ScaleBack(0.0, t, q);
    ScaleBack(t, 1.0, q);
  }
}
