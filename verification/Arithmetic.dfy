/** Division by a unit, as the window and round-robin arithmetic needs it. */
module Arithmetic {

  function Min(a: int, b: int): int
  {
    if a < b then a else b
  }

  lemma FloorBounds(t: nat, unit: nat)
    requires unit > 0
    ensures t / unit * unit <= t < t / unit * unit + unit
  {
  }

  lemma MulMonotone(a: int, b: int, unit: nat)
    ensures a <= b ==> a * unit <= b * unit
  {
  }

  lemma MulStep(m: nat, n: nat)
    requires m > 0
    ensures m * n == (m - 1) * n + n && (m - 1) * n >= 0
  {
  }

  lemma FloorUnique(t: nat, unit: nat, q: int)
    requires unit > 0 && q * unit <= t < q * unit + unit
    ensures t / unit == q
  {
    FloorBounds(t, unit);
    var r := t / unit;
    MulMonotone(r + 1, q, unit);
    MulMonotone(q + 1, r, unit);
  }

  lemma RemainderUnique(t: nat, unit: nat, q: int, r: nat)
    requires r < unit && t == q * unit + r
    ensures t % unit == r
  {
    FloorUnique(t, unit, q);
    assert t % unit == t - t / unit * unit;
  }

  lemma SameRemainder(t: nat, unit: nat)
    requires unit > 0
    ensures (t + unit) % unit == t % unit
  {
    var q, r := t / unit, t % unit;
    assert t == q * unit + r;
    assert (q + 1) * unit == q * unit + unit;
    RemainderUnique(t + unit, unit, q + 1, r);
  }

  lemma FloorAligned(t: nat, unit: nat)
    requires unit > 0
    ensures t / unit * unit % unit == 0 && t / unit * unit <= t < t / unit * unit + unit
  {
    FloorBounds(t, unit);
    RemainderUnique(t / unit * unit, unit, t / unit, 0);
  }

  lemma AlignedIsFloor(t: nat, unit: nat, start: int)
    requires unit > 0 && start % unit == 0 && start <= t < start + unit
    ensures t / unit * unit == start
  {
    var q := start / unit;
    assert start == q * unit;
    FloorUnique(t, unit, q);
  }

  lemma FloorStep(t: nat, unit: nat)
    requires unit > 0
    ensures (t + 1) / unit == t / unit + if (t + 1) % unit == 0 then 1 else 0
  {
    var q, r := t / unit, t % unit;
    assert t == q * unit + r;
    if r + 1 == unit {
      assert t + 1 == (q + 1) * unit;
      FloorUnique(t + 1, unit, q + 1);
      RemainderUnique(t + 1, unit, q + 1, 0);
    } else {
      FloorUnique(t + 1, unit, q);
      RemainderUnique(t + 1, unit, q, r + 1);
    }
  }
}
