/** The difficulty rule over the last two hours (OldGetNextWorkRequired and CheckProofOfWork in src/main.cpp). */
module Retarget {
  import opened Quotients
  import opened Compact

  const TARGET_TIMESPAN := 7200
  const INTERVAL := 20
  const MIN_TIMESPAN := 5760
  const MAX_TIMESPAN := 8640

  /** An entry of the block index; a chain is listed from genesis to its tip. */
  datatype CBlockIndex = CBlockIndex(nTime: nat, nBits: uint32)

  /** The easiest target, 2^252 - 1. */
  function Limit(): nat {
    16 * Pow256(31) - 1
  }

  function Clamp(span: int): (r: nat)
    ensures MIN_TIMESPAN <= r <= MAX_TIMESPAN
  {
    if span < MIN_TIMESPAN then MIN_TIMESPAN else if span > MAX_TIMESPAN then MAX_TIMESPAN else span
  }

  /** The position the look-back window starts at; negative where the chain is too short. */
  function WindowStart(n: nat): int {
    n - 1 - (if n == INTERVAL then INTERVAL - 1 else INTERVAL)
  }

  /** The clamped time the window took. */
  function Timespan(chain: seq<CBlockIndex>): (r: nat)
    requires WindowStart(|chain|) >= 0
    ensures MIN_TIMESPAN <= r <= MAX_TIMESPAN
  {
    Clamp(chain[|chain| - 1].nTime - chain[WindowStart(|chain|)].nTime)
  }

  /** Division that drops the fraction towards zero (BN_div). */
  function Truncated(a: int, d: nat): int
    requires d > 0
  {
    if a < 0 then -(-a / d) else a / d
  }

  function Scaled(was: int, span: nat): int {
    Truncated(was * span, TARGET_TIMESPAN)
  }

  function NextTarget(chain: seq<CBlockIndex>): int {
    if WindowStart(|chain|) < 0 then Limit()
    else
      var scaled := Scaled(Decode(chain[|chain| - 1].nBits), Timespan(chain));
      if scaled > Limit() then Limit() else scaled
  }

  /** What the last window took: the time since the block 20 before the tip, and the whole chain's where it has
      exactly 20 blocks. */
  function Took(chain: seq<CBlockIndex>): int
    requires |chain| >= 20
  {
    chain[|chain| - 1].nTime - if |chain| == 20 then chain[0].nTime else chain[|chain| - 21].nTime
  }

  lemma LimitIs()
    ensures Limit() == 0xfff_ffff_ffff_ffff_ffff_ffff_ffff_ffff_ffff_ffff_ffff_ffff_ffff_ffff_ffff_ffff
  {
    assert Pow256(8) == 0x1_0000_0000_0000_0000;
    assert Pow256(16) == 0x1_0000_0000_0000_0000 * Pow256(8);
    assert Pow256(24) == 0x1_0000_0000_0000_0000 * Pow256(16);
    assert Pow256(31) == 0x100_0000_0000_0000 * Pow256(24);
  }

  /** Below 20 blocks the target is the limit. From there it is the last one times what the window took, held
      between 5760 and 8640 seconds, over 7200, towards zero and no more than the limit. */
  lemma NextIs(chain: seq<CBlockIndex>)
    ensures |chain| < 20 ==> NextTarget(chain) == Limit()
    ensures |chain| >= 20 ==>
      var span := if Took(chain) < 5760 then 5760 else if Took(chain) > 8640 then 8640 else Took(chain);
      var whole := Decode(chain[|chain| - 1].nBits) * span;
      var t := NextTarget(chain);
      && t <= Limit()
      && (whole < 0 ==> 7200 * (t - 1) < whole <= 7200 * t)
      && (whole >= 0 ==> 7200 * t <= whole && (t < Limit() ==> whole < 7200 * (t + 1)))
  {
    hide Limit, Decode;
    LimitIs();
  }

  method OldGetNextWorkRequired(chain: seq<CBlockIndex>) returns (nBits: uint32)
    ensures nBits == Encode(NextTarget(chain))
  {
    hide Limit, Decode, Encode;
    var bnProofOfWorkLimit := new CBigNum();
    bnProofOfWorkLimit.value := Limit();
    var nProofOfWorkLimit := bnProofOfWorkLimit.GetCompact();
    if |chain| == 0 {
      return nProofOfWorkLimit;
    }
    var last := |chain| - 1;
    var nBlocksBack := INTERVAL - 1;
    if last + 1 != INTERVAL {
      nBlocksBack := INTERVAL;
    }
    var first := last;
    var i := 0;
    while first >= 0 && i < nBlocksBack
      invariant 0 <= i <= nBlocksBack && -1 <= first == last - i
    {
      first := first - 1;
      i := i + 1;
    }
    if first < 0 {
      return nProofOfWorkLimit;
    }
    var nActualTimespan := chain[last].nTime - chain[first].nTime;
    if nActualTimespan < MIN_TIMESPAN {
      nActualTimespan := MIN_TIMESPAN;
    }
    if nActualTimespan > MAX_TIMESPAN {
      nActualTimespan := MAX_TIMESPAN;
    }
    var bnNew := new CBigNum();
    bnNew.SetCompact(chain[last].nBits);
    bnNew.value := bnNew.value * nActualTimespan;
    bnNew.value := Truncated(bnNew.value, TARGET_TIMESPAN);
    if bnNew.value > bnProofOfWorkLimit.value {
      bnNew.value := bnProofOfWorkLimit.value;
    }
    nBits := bnNew.GetCompact();
  }

  /** The range check that a block's bits must pass. */
  predicate InRange(nBits: uint32) {
    0 < Decode(nBits) <= Limit()
  }

  method CheckProofOfWork(hash: nat, nBits: uint32) returns (ok: bool)
    ensures ok <==> 0 < Decode(nBits) && hash <= Decode(nBits) <= Limit()
  {
    var bnTarget := new CBigNum();
    bnTarget.SetCompact(nBits);
    if bnTarget.value <= 0 || bnTarget.value > Limit() {
      return false;
    }
    if hash > bnTarget.value {
      return false;
    }
    return true;
  }

  lemma LimitFits(n: nat)
    requires n <= Limit()
    ensures Exponent(n) <= 33
  {
    hide Exponent, NumBytes;
    if n == 0 {
      ZeroIsZero();
    } else {
      var p := Pow256(31);
      assert Pow256(32) == 256 * p;
      NumBytesIs(Limit(), 32);
      NumBytesMonotone(n, Limit());
      MantissaBounds(n);
    }
  }

  lemma ScaledBounds(was: nat, span: nat)
    requires MIN_TIMESPAN <= span <= MAX_TIMESPAN
    ensures 0 <= Scaled(was, span)
    ensures 5 * Scaled(was, span) <= 6 * was
    ensures was * 4 / 5 <= Scaled(was, span)
    ensures Scaled(was, span) > 0 <==> was > 1 || (was == 1 && span >= TARGET_TIMESPAN)
  {
    MulMonotone(MIN_TIMESPAN, span, was);
    MulMonotone(span, MAX_TIMESPAN, was);
    assert span * was == was * span;
  }

  /** One step of the rule: never easier than the limit or than 6/5 of the last target, and, unless the limit
      cuts in, no harder than 4/5 of it but for what the compact form rounds off. */
  lemma StepBounds(chain: seq<CBlockIndex>)
    requires WindowStart(|chain|) >= 0 && Decode(chain[|chain| - 1].nBits) >= 0
    ensures Encode(NextTarget(chain)) < 0x1_0000_0000
    ensures
      var was := Decode(chain[|chain| - 1].nBits);
      var next := Decode(Encode(NextTarget(chain)));
      && 0 <= next <= Limit() && 5 * next <= 6 * was
      && (NextTarget(chain) < Limit() ==> was * 4 / 5 == 0 || was * 4 / 5 * 0x8000 < next * 0x8001)
  {
    hide Limit, Decode, Encode, Exponent, Scaled, RoundDown;
    var was := Decode(chain[|chain| - 1].nBits);
    var t := NextTarget(chain);
    ScaledBounds(was, Timespan(chain));
    LimitFits(t);
    DecodeEncode(t);
    if t > 0 {
      RoundingLoss(t);
    } else {
      RoundDownIs(t);
    }
  }

  /** The next block's bits are in range exactly where the last target is above 1, or is 1 and the window was no
      faster than planned: from a target of 1 a fast window reaches 0, which no block can meet. */
  lemma StaysInRangeIff(chain: seq<CBlockIndex>)
    requires WindowStart(|chain|) >= 0 && InRange(chain[|chain| - 1].nBits)
    ensures Encode(NextTarget(chain)) < 0x1_0000_0000
    ensures InRange(Encode(NextTarget(chain))) <==>
            Decode(chain[|chain| - 1].nBits) > 1 || Timespan(chain) >= TARGET_TIMESPAN
  {
    hide Limit, Decode, Encode, Exponent, Scaled, RoundDown;
    var was := Decode(chain[|chain| - 1].nBits);
    var t := NextTarget(chain);
    ScaledBounds(was, Timespan(chain));
    LimitFits(t);
    DecodeEncode(t);
    RoundDownIs(t);
    if t > 0 {
      RoundingLoss(t);
    }
  }

  /** A slower window never makes the next block harder. */
  lemma SlowerIsEasier(slow: seq<CBlockIndex>, fast: seq<CBlockIndex>)
    requires |slow| == |fast| && WindowStart(|slow|) >= 0
    requires slow[|slow| - 1].nBits == fast[|fast| - 1].nBits && Decode(slow[|slow| - 1].nBits) >= 0
    requires Timespan(fast) <= Timespan(slow)
    ensures Encode(NextTarget(fast)) <= Encode(NextTarget(slow))
  {
    hide Limit, Decode, Encode, Exponent;
    var was := Decode(slow[|slow| - 1].nBits);
    ScaledBounds(was, Timespan(fast));
    ScaledBounds(was, Timespan(slow));
    MulMonotone(Timespan(fast), Timespan(slow), was);
    DivMonotone(was * Timespan(fast), was * Timespan(slow), TARGET_TIMESPAN);
    LimitFits(NextTarget(slow));
    EncodeMonotone(NextTarget(fast), NextTarget(slow));
  }
}
