/** The search of the memory diagnostic for the largest buffer that can be allocated. */
module BufferSearch {
  import opened Parameters
  import Arithmetic

  // An allocator that has room for a buffer has room for a smaller one; a buffer without bytes is refused.
  ghost predicate Monotone(fits: nat -> bool) {
    && !fits(0)
    && forall n: nat, k: nat :: 0 < k <= n && fits(n) ==> fits(k)
  }

  ghost predicate Largest(fits: nat -> bool, limit: nat, r: nat) {
    fits(r) && r <= limit && forall n | r < n <= limit :: !fits(n)
  }

  // The variables of the loop.
  datatype State = State(low: nat, high: nat, status: bool)

  predicate GoesOn(s: State) { !s.status || s.low + 1 < s.high }

  function Step(s: State, fits: nat -> bool): State {
    var mid := (s.low + s.high) / 2;
    if fits(mid) then s.(low := mid, status := true) else s.(high := mid, status := false)
  }

  // They after n iterations, or at the end if that comes earlier.
  function Iterate(s: State, fits: nat -> bool, n: nat): State
    decreases n
  {
    if n == 0 then s
    else
      var p := Iterate(s, fits, n - 1);
      if GoesOn(p) then Step(p, fits) else p
  }

  lemma IterateStart(s: State, fits: nat -> bool)
    ensures Iterate(s, fits, 0) == s
  {
  }

  lemma IterateNext(s: State, fits: nat -> bool, n: nat)
    ensures var p := Iterate(s, fits, n);
            Iterate(s, fits, n + 1) == if GoesOn(p) then Step(p, fits) else p
  {
  }

  /** The search finds the largest buffer up to what the device reports. It goes on after a failed attempt even
      when low + 1 == high. */
  method Search(maxBufferSize: nat, maxAllocSize: nat, fits: nat -> bool) returns (maxSize: nat)
    requires Monotone(fits)
    requires fits(1) && (maxBufferSize > 0 || maxAllocSize > 0)
    ensures Largest(fits, if maxBufferSize > maxAllocSize then maxBufferSize else maxAllocSize, maxSize)
  {
    hide Iterate;
    var low: nat := 1;
    var high: nat := if maxBufferSize > maxAllocSize then maxBufferSize else maxAllocSize;
    ghost var limit := high;
    var status := false;
    ghost var n: nat := 0;
    IterateStart(State(1, limit, false), fits);
    while !status || low + 1 < high
      invariant 1 <= low <= high <= limit && fits(low)
      invariant high < limit ==> !fits(high)
      invariant State(low, high, status) == Iterate(State(1, limit, false), fits, n)
      decreases high - low, if status then 0 else 1
    {
      var mid := (low + high) / 2;
      status := fits(mid);
      if status {
        low := mid;
      } else {
        high := mid;
      }
      IterateNext(State(1, limit, false), fits, n);
      n := n + 1;
    }
    status := fits(high);
    if !status {
      high := low;
    }
    maxSize := high;
  }

  lemma {:induction false} Ends(s: State, fits: nat -> bool, k: nat) returns (n: nat)
    requires var p := Iterate(s, fits, k); 1 <= p.low <= p.high && fits(p.low)
    ensures !GoesOn(Iterate(s, fits, n))
    decreases Iterate(s, fits, k).high - Iterate(s, fits, k).low, !Iterate(s, fits, k).status
  {
    n := k;
    if GoesOn(Iterate(s, fits, k)) {
      n := Ends(s, fits, k + 1);
    }
  }

  lemma {:induction false} NeverEnds(s: State, fits: nat -> bool, n: nat)
    requires Monotone(fits) && !s.status && s.low == 1
    requires s.high == 0 || !fits(1)
    ensures var p := Iterate(s, fits, n); GoesOn(p) && p.low == 1 && (p.high == 0 || !fits(1))
    decreases n
  {
    if n > 0 {
      NeverEnds(s, fits, n - 1);
    }
  }

  /** The loop ends exactly when one byte can be allocated and the device reports at least one byte. */
  lemma EndsExactlyWhen(limit: nat, fits: nat -> bool)
    requires Monotone(fits)
    ensures (exists n: nat :: !GoesOn(Iterate(State(1, limit, false), fits, n))) <==> limit >= 1 && fits(1)
  {
    if limit >= 1 && fits(1) {
      var n := Ends(State(1, limit, false), fits, 0);
    } else {
      forall n: nat ensures GoesOn(Iterate(State(1, limit, false), fits, n)) {
        NeverEnds(State(1, limit, false), fits, n);
      }
    }
  }

  // Every attempt halves what is left to search.
  lemma StepHalves(s: State, fits: nat -> bool)
    requires s.low < s.high
    ensures var s' := Step(s, fits);
            s.low <= s'.low <= s'.high <= s.high && 2 * (s'.high - s'.low - 1) <= s.high - s.low - 1
  {
  }

  lemma {:induction false} Gap(limit: nat, fits: nat -> bool, n: nat)
    requires limit >= 1 && fits(1)
    ensures var p := Iterate(State(1, limit, false), fits, n);
            && 1 <= p.low <= p.high && fits(p.low)
            && (p.low < p.high ==> (p.high - p.low - 1) * Pow2(n) <= limit - 1)
    decreases n
  {
    if n > 0 {
      Gap(limit, fits, n - 1);
      var p := Iterate(State(1, limit, false), fits, n - 1);
      if p.low < p.high && GoesOn(p) {
        StepHalves(p, fits);
        var q := Step(p, fits);
        hide Iterate;
        if q.low < q.high {
          Scale(q.high - q.low - 1, p.high - p.low - 1, Pow2(n - 1), limit - 1);
        }
      } else if p.low < p.high {
        assert p.high - p.low - 1 == 0;
      }
    }
  }

  lemma Scale(a: nat, b: nat, x: nat, m: nat)
    requires 2 * a <= b && b * x <= m
    ensures a * (2 * x) <= m
  {
    assert a * (2 * x) == (2 * a) * x;
    if 2 * a < b {
      assert (b - 2 * a) * x >= 0;
      assert b * x == (2 * a) * x + (b - 2 * a) * x;
    }
  }

  // With nothing left between low and high one more attempt ends the loop.
  lemma CloseEnds(p: State, fits: nat -> bool)
    requires p.low <= p.high <= p.low + 1 && fits(p.low)
    ensures !GoesOn(if GoesOn(p) then Step(p, fits) else p)
  {
  }

  /** So the loop ends after about as many attempts as the reported size has binary digits. */
  lemma EndsInTime(limit: nat, fits: nat -> bool, n: nat)
    requires limit >= 1 && fits(1) && Pow2(n) >= limit
    ensures !GoesOn(Iterate(State(1, limit, false), fits, n + 1))
  {
    hide Pow2, Iterate, GoesOn;
    Gap(limit, fits, n);
    var p := Iterate(State(1, limit, false), fits, n);
    var left := p.high - p.low - 1;
    if left >= 1 {
      Arithmetic.MulAtLeast(left, Pow2(n));
    }
    CloseEnds(p, fits);
    IterateNext(State(1, limit, false), fits, n);
  }
}
