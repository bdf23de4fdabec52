/** The tessellated address counter: the low half counts, the high half follows one step after
    each wrap of the low half, so the addresses are not visited in numerical order. */
module Address {
  import opened Arithmetic

  // low counts modulo lows (2^(ADDR/2)), high modulo highs (2^(ADDR-ADDR/2)).
  datatype Counter = Counter(low: nat, high: nat, lowWrapN: bool)

  const CLEAR := Counter(0, 0, false)

  function CounterEdge(c: Counter, lows: nat, highs: nat, incr: bool): Counter
    requires lows > 0 && highs > 0
  {
    if incr then
      Counter((c.low + 1) % lows, if !c.lowWrapN then (c.high + 1) % highs else c.high, c.low != lows - 1)
    else c
  }

  // The address bus is the two halves side by side.
  function Bus(c: Counter, lows: nat): nat {
    c.high * lows + c.low
  }

  function CeilDiv(n: nat, d: nat): nat
    requires d > 0
  {
    (n + d - 1) / d
  }

  // The counter after n increments.
  function After(n: nat, lows: nat, highs: nat): Counter
    requires lows > 0 && highs > 0
  {
    Counter(n % lows, CeilDiv(n, lows) % highs, n % lows != 0)
  }

  function Place(n: nat, lows: nat, highs: nat): nat
    requires lows > 0 && highs > 0
  {
    Bus(After(n, lows, highs), lows)
  }

  // The ceiling in terms of quotient and remainder.
  lemma CeilDivOf(n: nat, d: nat)
    requires d > 0
    ensures CeilDiv(n, d) == n / d + (if n % d == 0 then 0 else 1)
  {
    var q, r := Decompose(n, d);
    if r == 0 {
      DivModUnique(n + d - 1, d, q, d - 1);
    } else {
      assert (q + 1) * d == q * d + d;
      DivModUnique(n + d - 1, d, q + 1, r - 1);
    }
  }

  lemma NextMod(n: nat, d: nat)
    requires d > 0
    ensures (n + 1) % d == (n % d + 1) % d
    ensures (n + 1) % d == (if n % d == d - 1 then 0 else n % d + 1)
    ensures (n + 1) / d == n / d + (if n % d == d - 1 then 1 else 0)
  {
    var q, r := Decompose(n, d);
    if r == d - 1 {
      assert (q + 1) * d == q * d + d;
      DivModUnique(n + 1, d, q + 1, 0);
      DivModUnique(d, d, 1, 0);
    } else {
      DivModUnique(n + 1, d, q, r + 1);
      DivModUnique(r + 1, d, 0, r + 1);
    }
  }

  /** After n increments from reset the counter stands at {ceil(n / lows) mod highs, n mod lows}. */
  lemma CounterStep(n: nat, lows: nat, highs: nat)
    requires lows > 1 && highs > 0
    ensures CounterEdge(After(n, lows, highs), lows, highs, true) == After(n + 1, lows, highs)
  {
    NextMod(n, lows);
    CeilDivOf(n, lows);
    CeilDivOf(n + 1, lows);
    NextMod(CeilDiv(n, lows), highs);
  }

  lemma PlaceInRange(n: nat, lows: nat, highs: nat)
    requires lows > 0 && highs > 0
    ensures Place(n, lows, highs) < highs * lows
  {
    var c := After(n, lows, highs);
    Below(c.high, c.low, lows, highs);
  }

  lemma SameModulo(i: nat, j: nat, d: nat)
    requires d > 0
    requires i <= j
    requires i % d == j % d
    ensures (j - i) == (j / d - i / d) * d
    ensures j / d >= i / d
  {
    var qi, ri := Decompose(i, d);
    var qj, rj := Decompose(j, d);
    Distribute(qj, qi, d);
    OrderKept(qj, qi, d);
  }

  lemma WholePeriods(k: nat, m: nat, lows: nat, highs: nat)
    requires m > 0 && k == m * highs
    ensures k * lows >= highs * lows
  {
    MulAtLeast(m, highs);
    Distribute(k, highs, lows);
  }

  /** Two steps less than a full period apart never share an address. */
  lemma PlacesDiffer(i: nat, j: nat, lows: nat, highs: nat)
    requires lows > 0 && highs > 0
    requires i < j < i + highs * lows
    ensures Place(i, lows, highs) != Place(j, lows, highs)
  {
    if Place(i, lows, highs) == Place(j, lows, highs) {
      var a, b := After(i, lows, highs), After(j, lows, highs);
      DivModUnique(Bus(a, lows), lows, a.high, a.low);
      DivModUnique(Bus(b, lows), lows, b.high, b.low);
      SameModulo(i, j, lows);
      CeilDivOf(i, lows);
      CeilDivOf(j, lows);
      var k := j / lows - i / lows;
      SameModulo(CeilDiv(i, lows), CeilDiv(j, lows), highs);
      var m := CeilDiv(j, lows) / highs - CeilDiv(i, lows) / highs;
      assert k == m * highs;
      if m > 0 {
        WholePeriods(k, m, lows, highs);
      }
    }
  }

  // The step of a period at which an address is visited.
  function StepOf(place: nat, lows: nat, highs: nat): nat
    requires lows > 0 && highs > 0
  {
    var low, high := place % lows, place / lows;
    if low == 0 then high * lows else if high == 0 then (highs - 1) * lows + low else (high - 1) * lows + low
  }

  lemma Below(q: nat, r: nat, lows: nat, highs: nat)
    requires q < highs && r < lows
    ensures q * lows + r < highs * lows
  {
    Distribute(highs, q, lows);
    MulAtLeast(highs - q, lows);
  }

  lemma StepSplits(place: nat, lows: nat, highs: nat) returns (high: nat, low: nat, q: nat)
    requires lows > 0 && highs > 0
    requires place < highs * lows
    ensures place == high * lows + low && low < lows && high < highs
    ensures q == (if low == 0 then high else if high == 0 then highs - 1 else high - 1)
    ensures StepOf(place, lows, highs) == q * lows + low
  {
    high, low := Decompose(place, lows);
    OrderKept(highs, high, lows);
    q := if low == 0 then high else if high == 0 then highs - 1 else high - 1;
  }

  /** Every address is visited in every period, and by PlacesDiffer only once. */
  lemma EveryPlaceIsVisited(place: nat, lows: nat, highs: nat)
    requires lows > 0 && highs > 0
    requires place < highs * lows
    ensures StepOf(place, lows, highs) < highs * lows
    ensures Place(StepOf(place, lows, highs), lows, highs) == place
  {
    var high, low, q := StepSplits(place, lows, highs);
    var n := StepOf(place, lows, highs);
    Below(q, low, lows, highs);
    DivModUnique(n, lows, q, low);
    CeilDivOf(n, lows);
    var c := CeilDiv(n, lows);
    if c == highs {
      DivModUnique(c, highs, 1, 0);
    } else {
      DivModUnique(c, highs, 0, c);
    }
  }
}
