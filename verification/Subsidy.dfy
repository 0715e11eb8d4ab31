/** What the block subsidy comes to (GetBlockSubsidy in src/main.cpp). */
module Subsidy {
  import opened Quotients
  import opened Supply

  function Power(b: nat, e: nat): nat {
    if e == 0 then 1 else b * Power(b, e - 1)
  }

  /** Truncating every week loses less than 20 units altogether. */
  lemma {:induction false} DecayedIs(weeks: nat)
    ensures Decayed(weeks) * Power(20, weeks) <= 28_000_000_000 * Power(19, weeks)
    ensures 28_000_000_000 * Power(19, weeks) < (Decayed(weeks) + 20) * Power(20, weeks)
  {
    if weeks > 0 {
      DecayedIs(weeks - 1);
      PowerPositive(20, weeks - 1);
      Scale(Decayed(weeks), Decayed(weeks - 1), Power(20, weeks - 1), Power(19, weeks - 1));
    }
  }

  lemma Scale(d: nat, e: nat, q: nat, n: nat)
    requires d == e * 19 / 20 && q > 0
    requires e * q <= 28_000_000_000 * n < (e + 20) * q
    ensures d * (20 * q) <= 28_000_000_000 * (19 * n) < (d + 20) * (20 * q)
  {
    MulMonotone(20 * d, 19 * e, q);
    MulMonotone(19 * e, 20 * d + 19, q);
    assert d * (20 * q) == 20 * d * q && 19 * e * q == 19 * (e * q);
    assert (d + 20) * (20 * q) == 20 * d * q + 400 * q;
    assert (20 * d + 19) * q == 20 * d * q + 19 * q && (e + 20) * q == e * q + 20 * q;
  }

  lemma {:induction false} PowerPositive(b: nat, e: nat)
    requires b > 0
    ensures Power(b, e) > 0
  {
    if e > 0 {
      PowerPositive(b, e - 1);
    }
  }

  lemma First(nHeight: nat)
    requires nHeight < 240
    ensures BlockSubsidy(nHeight) * (240 - nHeight) <= 28_000_000_000
    ensures 28_000_000_000 < (BlockSubsidy(nHeight) + 1) * (240 - nHeight)
  {
    var n := 240 - nHeight;
    var q := 28_000_000_000 / n;
    assert (q + 1) * n == q * n + n;
  }

  /** What the subsidy is: it grows to 280 coins over the first 240 blocks; after those it falls by 5% every 1680,
      to less than 20 units of exactly so, but never below 2.15 coins. */
  lemma SubsidyIs(nHeight: nat)
    ensures nHeight < 240 ==>
      BlockSubsidy(nHeight) * (240 - nHeight) <= 28_000_000_000 < (BlockSubsidy(nHeight) + 1) * (240 - nHeight)
    ensures nHeight >= 240 ==>
      var exact, d := 28_000_000_000 * Power(19, nHeight / 1680), Power(20, nHeight / 1680);
      && BlockSubsidy(nHeight) >= 215_000_000 && exact < (BlockSubsidy(nHeight) + 20) * d
      && (BlockSubsidy(nHeight) > 215_000_000 ==> BlockSubsidy(nHeight) * d <= exact)
  {
    var weeks := nHeight / 1680;
    hide Decayed, Power;
    if nHeight < 240 {
      First(nHeight);
    } else {
      DecayedIs(weeks);
      PowerPositive(20, weeks);
      MulMonotone(Decayed(weeks) + 20, BlockSubsidy(nHeight) + 20, Power(20, weeks));
    }
  }

  /** Awards fall on every twentieth block from block 40 on. */
  lemma AwardHeights(nHeight: nat)
    ensures IsGrantAwardBlock(nHeight) <==> exists k: nat :: k >= 2 && nHeight == 20 * k
  {
    if IsGrantAwardBlock(nHeight) {
      assert nHeight == 20 * (nHeight / 20);
    }
  }

  /** What one block may add: the premine in block 1, and from then on the subsidy and, on an award block, six
      fifths of it, less what truncation takes from each fifth. */
  lemma AllowanceIs(nHeight: nat, fTestNet: bool)
    ensures nHeight == 1 && !fTestNet ==> Allowance(nHeight, fTestNet) == 73_366_415_666_531
    ensures (nHeight != 1 || fTestNet) && (nHeight < 40 || nHeight % 20 != 0) ==>
      Allowance(nHeight, fTestNet) == BlockSubsidy(nHeight)
    ensures nHeight >= 40 && nHeight % 20 == 0 ==>
      var grants := Allowance(nHeight, fTestNet) - BlockSubsidy(nHeight);
      grants == 6 * GrantValue(nHeight) && 6 * BlockSubsidy(nHeight) - 30 < 5 * grants <= 6 * BlockSubsidy(nHeight)
  {
    hide BlockSubsidy;
  }
}
