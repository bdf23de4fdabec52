/** The parameters of the dual-clock FIFO and the constants derived from them. */
module Parameters {

  datatype RamType = MLAB | M20K | FifoToChoose

  datatype Config = Config(depth: nat, almostFullCutoff: nat, almostEmptyCutoff: nat, neverOverflows: bool,
                           ram: RamType, pipeline: bool, holdData: bool)
  {
    predicate Valid() {
      depth >= 1 && almostFullCutoff < depth && almostEmptyCutoff < depth
    }

    // ADDR: the RAM has 2^ADDR words.
    function AddrBits(): nat {
      if depth <= 8 then 3 else CeilLog2(depth)
    }

    function Size(): nat {
      Pow2(AddrBits())
    }

    // Modulus of the upper part of the leftover counters, ADDR-2 bits wide.
    function HiModulus(): nat
      requires Valid()
      ensures HiModulus() > 0
    {
      SizeFacts(this);
      Pow2(AddrBits() - 2)
    }

    function FullSlack(): nat
      requires Valid()
    {
      SizeFacts(this);
      Size() - depth
    }

    predicate UseMlab() {
      ram.MLAB? || (ram.FifoToChoose? && AddrBits() <= 5)
    }
  }

  function Pow2(k: nat): (p: nat)
    ensures p > 0
  {
    if k == 0 then 1 else 2 * Pow2(k - 1)
  }

  // The least k with 2^k >= n.
  function CeilLog2(n: nat): (k: nat)
    requires n >= 1
    ensures Pow2(k) >= n
    ensures k > 0 ==> Pow2(k - 1) < n
  {
    if n == 1 then 0 else 1 + CeilLog2((n + 1) / 2)
  }

  lemma {:induction false} Pow2Grows(j: nat, k: nat)
    requires j <= k
    ensures Pow2(j) <= Pow2(k)
    decreases k
  {
    if j < k {
      Pow2Grows(j, k - 1);
    }
  }

  lemma {:induction false} Pow2Sum(j: nat, k: nat)
    ensures Pow2(j) * Pow2(k) == Pow2(j + k)
  {
    if j > 0 {
      Pow2Sum(j - 1, k);
      assert Pow2(j) * Pow2(k) == 2 * (Pow2(j - 1) * Pow2(k));
    }
  }

  /** What the circuit assumes of its derived constants: at least eight words, room for the depth,
      and counters that split at their second bit. */
  lemma SizeFacts(cfg: Config)
    requires cfg.Valid()
    ensures cfg.AddrBits() >= 3
    ensures cfg.depth <= cfg.Size()
    ensures cfg.Size() == 4 * Pow2(cfg.AddrBits() - 2)
    ensures cfg.Size() >= 8
  {
    var k := cfg.AddrBits();
    assert Pow2(3) == 8;
    if k < 3 {
      Pow2Grows(k, 3);
    }
    Pow2Grows(3, k);
    assert Pow2(k) == 2 * Pow2(k - 1) == 4 * Pow2(k - 2);
  }

  /** Which RAM is built: the one asked for, or, if the choice is left, an MLAB exactly for up to 32 words. */
  lemma RamChoice(cfg: Config)
    requires cfg.Valid()
    ensures cfg.ram.MLAB? ==> cfg.UseMlab()
    ensures cfg.ram.M20K? ==> !cfg.UseMlab()
    ensures cfg.ram.FifoToChoose? ==> (cfg.UseMlab() <==> cfg.depth <= 32)
  {
    assert Pow2(5) == 32;
    if cfg.depth > 8 {
      var k := CeilLog2(cfg.depth);
      if k <= 5 {
        Pow2Grows(k, 5);
      } else {
        Pow2Grows(5, k - 1);
      }
    }
  }
}
