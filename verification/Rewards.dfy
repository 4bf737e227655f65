/**
 Disinflationary block rewards: the yearly emission, its share per block, the
 supply tracker, and the split of gas fees.
 */
module Rewards {
  import opened Results
  import opened Division

  const YEAR_1_EMISSION: nat := 50_000_000
  const DECAY_FACTOR_NUM: nat := 8
  const DECAY_FACTOR_DEN: nat := 10
  const EMISSION_HALT_YEAR: nat := 20
  const OIKOS_MAX_SUPPLY: nat := 1_000_000_000_000_000_000_000_000_000
  const U128_LIMIT: nat := 0x1_0000_0000_0000_0000_0000_0000_0000_0000

  // The emission after k years of decay.
  function Decayed(k: nat): nat {
    if k == 0 then YEAR_1_EMISSION else Decayed(k - 1) * DECAY_FACTOR_NUM / DECAY_FACTOR_DEN
  }

  function Emission(year: nat): nat {
    if year == 0 || year > EMISSION_HALT_YEAR then 0 else Decayed(year - 1)
  }

  /** The decay loop. */
  method EmissionAtYear(year: nat) returns (emission: nat)
    ensures emission == Emission(year)
  {
    if year == 0 || year > EMISSION_HALT_YEAR {
      return 0;
    }
    emission := YEAR_1_EMISSION;
    for y := 1 to year
      invariant emission == Decayed(y - 1)
    {
      emission := emission * DECAY_FACTOR_NUM / DECAY_FACTOR_DEN;
    }
  }

  function Pow(b: nat, k: nat): nat { if k == 0 then 1 else b * Pow(b, k - 1) }

  lemma DecayBound(d: nat, e: nat, p: nat, q: nat)
    requires d * p <= q < (d + 5) * p && e == d * 8 / 10
    ensures e * (10 * p) <= 8 * q < (e + 5) * (10 * p)
  {
    assert 10 * e <= 8 * d < 10 * e + 10;
    MulMonotone(p, 10 * e, 8 * d);
    MulMonotone(p, 8 * d + 40, 10 * e + 50);
    Scaled(10, e, p);
    Scaled(8, d, p);
    Scaled(10, e + 5, p);
    Scaled(8, d + 5, p);
  }

  lemma Scaled(k: nat, a: nat, p: nat)
    ensures (k * a) * p == k * (a * p) == a * (k * p)
  {}

  /**
   Rounding every year loses less than five units: the emission after k years is 50
   million times 0.8^k, less at most that.
   */
  lemma {:induction false} EmissionIsGeometric(k: nat)
    ensures Decayed(k) * Pow(10, k) <= 50_000_000 * Pow(8, k) < (Decayed(k) + 5) * Pow(10, k)
    decreases k
  {
    if k > 0 {
      EmissionIsGeometric(k - 1);
      DecayBound(Decayed(k - 1), Decayed(k), Pow(10, k - 1), 50_000_000 * Pow(8, k - 1));
    }
  }

  /** The first years of the published schedule, and its end. */
  lemma PublishedYears()
    ensures Emission(0) == 0 && Emission(1) == 50_000_000 && Emission(2) == 40_000_000 && Emission(3) == 32_000_000
    ensures forall y :: y > 20 ==> Emission(y) == 0
  {
    assert Decayed(0) == 50_000_000;
    assert Decayed(1) == 40_000_000;
  }

  function YearForBlock(blocksPerYear: nat, block: nat): nat {
    if block == 0 || blocksPerYear == 0 then 0
    else
      var year := (block - 1) / blocksPerYear + 1;
      if year > 20 then 0 else year
  }

  function PerBlock(blocksPerYear: nat, block: nat): nat
    requires blocksPerYear > 0
  {
    hide YearForBlock, Emission;
    Emission(YearForBlock(blocksPerYear, block)) / blocksPerYear
  }

  // ----- fee split -----

  datatype FeeConfig = FeeConfig(burnPct: nat, validatorPct: nat, treasuryPct: nat)

  const DEFAULT_FEES := FeeConfig(70, 20, 10)

  datatype FeeSplit = FeeSplit(burn: int, validator: int, treasury: int)

  /**
   A split of a non-negative total loses nothing: burn and validator get their shares
   rounded down, the treasury what is left.
   */
  function SplitFees(config: FeeConfig, total: int): (s: FeeSplit)
    ensures total >= 0 ==> s.burn + s.validator + s.treasury == total
    ensures total >= 0 ==> 100 * s.burn <= total * config.burnPct < 100 * s.burn + 100
    ensures total >= 0 ==> 100 * s.validator <= total * config.validatorPct < 100 * s.validator + 100
    ensures total >= 0 && config.burnPct + config.validatorPct + config.treasuryPct == 100 ==>
              s.burn >= 0 && s.validator >= 0 && 0 <= 100 * s.treasury - total * config.treasuryPct < 200
    ensures total < 0 ==> s == FeeSplit(0, 0, 0)
  {
    if total < 0 then FeeSplit(0, 0, 0)
    else
      var burn := total * config.burnPct / 100;
      var validator := total * config.validatorPct / 100;
      ShareBounds(total, config.burnPct);
      ShareBounds(total, config.validatorPct);
      Hundred(total, config);
      FeeSplit(burn, validator, total - burn - validator)
  }

  lemma ShareBounds(total: nat, pct: nat)
    ensures 0 <= total * pct / 100 && 100 * (total * pct / 100) <= total * pct < 100 * (total * pct / 100) + 100
  {}

  lemma Hundred(total: nat, config: FeeConfig)
    ensures config.burnPct + config.validatorPct + config.treasuryPct == 100 ==>
              total * config.burnPct + total * config.validatorPct + total * config.treasuryPct == 100 * total
  {
    assert total * config.burnPct + total * config.validatorPct + total * config.treasuryPct
        == total * (config.burnPct + config.validatorPct + config.treasuryPct);
  }

  // ----- the supply tracker -----

  datatype Tracker = Tracker(minted: nat, burned: nat, totalOikos: nat)

  const FRESH_TRACKER := Tracker(0, 0, 0)

  datatype Recorded = Recorded(tracker: Tracker, ok: bool)

  // Minting: refused above the maximum supply; a total that overflows is refused after
  // the minted amount has been raised.
  function RecordMint(t: Tracker, amount: nat): Recorded {
    if t.minted + amount >= U128_LIMIT || t.minted + amount > OIKOS_MAX_SUPPLY then Recorded(t, false)
    else if t.totalOikos + amount >= U128_LIMIT then Recorded(t.(minted := t.minted + amount), false)
    else Recorded(t.(minted := t.minted + amount, totalOikos := t.totalOikos + amount), true)
  }

  /** A mint is refused exactly when it would exceed the maximum supply; otherwise both totals grow by it. */
  lemma MintExactlyWhen(t: Tracker, amount: nat)
    requires t.totalOikos == t.minted
    ensures RecordMint(t, amount).ok <==> t.minted + amount <= OIKOS_MAX_SUPPLY
    ensures RecordMint(t, amount).tracker
         == if RecordMint(t, amount).ok then Tracker(t.minted + amount, t.burned, t.minted + amount) else t
  {}

  predicate CheckInvariant(t: Tracker) { t.minted >= t.burned }

  predicate CheckConservation(t: Tracker) { CheckInvariant(t) && t.minted <= OIKOS_MAX_SUPPLY }

  // ----- the processor -----

  datatype BlockReward = BlockReward(blockNumber: nat, year: nat, baseReward: nat, feeBurn: int, feeValidator: int,
                                     feeTreasury: int)

  datatype Processor = Processor(blocksPerYear: nat, tracker: Tracker, currentYear: nat)

  function Fresh(blocksPerYear: nat): Processor { Processor(blocksPerYear, FRESH_TRACKER, 1) }

  datatype Processed = Processed(processor: Processor, reward: Result<BlockReward>)

  function Process(p: Processor, block: nat, gasFees: int): Processed
    requires p.blocksPerYear > 0
  {
    var year := YearForBlock(p.blocksPerYear, block);
    var base := PerBlock(p.blocksPerYear, block);
    var rec := if base > 0 then RecordMint(p.tracker, base) else Recorded(p.tracker, true);
    var split := SplitFees(DEFAULT_FEES, gasFees);
    if !rec.ok then Processed(p.(tracker := rec.tracker), Err("ConservationViolation"))
    else Processed(p.(tracker := rec.tracker, currentYear := year),
                   Ok(BlockReward(block, year, base, split.burn, split.validator, split.treasury)))
  }

  class BlockRewardProcessor {
    const blocksPerYear: nat
    var tracker: Tracker
    var currentYear: nat

    function View(): Processor reads this { Processor(blocksPerYear, tracker, currentYear) }

    constructor (blocksPerYear: nat)
      ensures View() == Fresh(blocksPerYear)
    {
      this.blocksPerYear := blocksPerYear;
      tracker, currentYear := FRESH_TRACKER, 1;
    }

    /** One block.  The code divides by blocks_per_year, so a zero there panics. */
    method ProcessBlock(block: nat, gasFees: int) returns (r: Result<BlockReward>)
      requires blocksPerYear > 0
      modifies this
      ensures Processed(View(), r) == Process(old(View()), block, gasFees)
    {
      hide Decayed, RecordMint, SplitFees;
      var year := YearForBlock(blocksPerYear, block);
      var annual := EmissionAtYear(year);
      var base := annual / blocksPerYear;
      if base > 0 {
        var rec := RecordMint(tracker, base);
        tracker := rec.tracker;
        if !rec.ok {
          return Err("ConservationViolation");
        }
      }
      var split := SplitFees(DEFAULT_FEES, gasFees);
      currentYear := year;
      return Ok(BlockReward(block, year, base, split.burn, split.validator, split.treasury));
    }
  }

  // ----- runs over blocks 1..n -----

  // The sum of the floored per-block rewards.
  function MintedBy(blocksPerYear: nat, n: nat): nat
    requires blocksPerYear > 0
  {
    if n == 0 then 0 else MintedBy(blocksPerYear, n - 1) + PerBlock(blocksPerYear, n)
  }

  function RunBlocks(blocksPerYear: nat, fees: seq<int>, n: nat): (p: Processor)
    requires blocksPerYear > 0 && n <= |fees|
    ensures p.blocksPerYear == blocksPerYear
  {
    if n == 0 then Fresh(blocksPerYear) else Process(RunBlocks(blocksPerYear, fees, n - 1), n, fees[n - 1]).processor
  }

  // Each year's decay pays for the year: E <= 5 * (E - next E).
  lemma DecayPays(k: nat)
    ensures Decayed(k) + 5 * Decayed(k + 1) <= 5 * Decayed(k)
  {}

  // The number of blocks before year y.
  function Before(blocksPerYear: nat, y: nat): nat
    requires y >= 1
  {
    (y - 1) * blocksPerYear
  }

  lemma BeforeSteps(b: nat, y: nat)
    requires y >= 1
    ensures Before(b, 1) == 0 && Before(b, y) + b == Before(b, y + 1)
    ensures Before(b, EMISSION_HALT_YEAR + 1) == EMISSION_HALT_YEAR * b
  {}

  lemma YearOfBlock(b: nat, y: nat, k: nat)
    requires b > 0 && 1 <= y <= EMISSION_HALT_YEAR && 1 <= k <= b
    ensures YearForBlock(b, Before(b, y) + k) == y
  {
    QuotientIs(b, y - 1, k - 1);
    assert Before(b, y) + k - 1 == (y - 1) * b + (k - 1);
  }

  /** A block lies in year y exactly when y - 1 full years and no more come before it; after year 20 there is none. */
  lemma YearExactlyWhen(b: nat, block: nat, y: nat)
    requires b > 0 && y >= 1
    ensures YearForBlock(b, block) == y <==> y <= 20 && (y - 1) * b < block <= y * b
    ensures YearForBlock(b, block) == 0 <==> block == 0 || block > 20 * b
  {
    if block > 0 {
      QuotientIsLargest(b, block - 1, y - 1);
      QuotientIsLargest(b, block - 1, y);
      QuotientIsLargest(b, block - 1, 20);
    }
  }

  lemma BlockMints(b: nat, y: nat, k: nat)
    requires b > 0 && 1 <= y <= EMISSION_HALT_YEAR && 1 <= k <= b
    ensures MintedBy(b, Before(b, y) + k) == MintedBy(b, Before(b, y) + (k - 1)) + Decayed(y - 1) / b
  {
    hide Decayed, YearForBlock, Before;
    YearOfBlock(b, y, k);
  }

  // What k blocks of year y mint.
  function Shares(b: nat, y: nat, k: nat): nat
    requires b > 0 && y >= 1
  {
    k * (Decayed(y - 1) / b)
  }

  lemma SharesStep(b: nat, y: nat, k: nat)
    requires b > 0 && y >= 1
    ensures Shares(b, y, 0) == 0 && Shares(b, y, k + 1) == Shares(b, y, k) + Decayed(y - 1) / b
  {
    hide Decayed;
  }

  lemma SharesBound(b: nat, y: nat, k: nat)
    requires b > 0 && y >= 1 && k <= b
    ensures Shares(b, y, k) <= Decayed(y - 1)
  {
    hide Decayed;
    MulMonotone(Decayed(y - 1) / b, k, b);
    DivBounds(b, Decayed(y - 1));
  }

  // After k blocks of year y: five times what the emission has lost so far, plus the year's shares.
  lemma {:induction false} YearBound(b: nat, y: nat, k: nat)
    requires b > 0 && 1 <= y <= EMISSION_HALT_YEAR && k <= b
    ensures MintedBy(b, Before(b, y) + k) <= 5 * (YEAR_1_EMISSION - Decayed(y - 1)) + Shares(b, y, k)
    decreases y, k
  {
    hide Decayed, MintedBy, Before, Shares;
    if k > 0 {
      YearBound(b, y, k - 1);
      BlockMints(b, y, k);
      SharesStep(b, y, k - 1);
    } else if y > 1 {
      YearBound(b, y - 1, b);
      BeforeSteps(b, y - 1);
      SharesBound(b, y - 1, b);
      SharesStep(b, y, 0);
      DecayPays(y - 2);
    } else {
      BeforeSteps(b, 1);
      SharesStep(b, 1, 0);
      AtFirst(b);
    }
  }

  lemma AtFirst(b: nat)
    requires b > 0
    ensures MintedBy(b, 0) == 0 && Decayed(0) == YEAR_1_EMISSION
  {}

  lemma {:induction false} SilentAfterHalt(b: nat, n: nat)
    requires b > 0 && n >= EMISSION_HALT_YEAR * b
    ensures MintedBy(b, n) == MintedBy(b, EMISSION_HALT_YEAR * b)
    decreases n
  {
    hide PerBlock;
    if n > EMISSION_HALT_YEAR * b {
      SilentAfterHalt(b, n - 1);
      NothingAfterHalt(b, n);
    }
  }

  lemma NothingAfterHalt(b: nat, n: nat)
    requires b > 0 && n > EMISSION_HALT_YEAR * b
    ensures PerBlock(b, n) == 0
  {
    QuotientIsLargest(b, n - 1, EMISSION_HALT_YEAR);
    assert YearForBlock(b, n) == 0;
  }

  /** Whatever the block rate, the whole schedule mints at most five first years. */
  lemma MintedIsBounded(blocksPerYear: nat, n: nat)
    requires blocksPerYear > 0
    ensures MintedBy(blocksPerYear, n) <= 5 * YEAR_1_EMISSION
  {
    hide Decayed, MintedBy, Shares;
    var b := blocksPerYear;
    if n >= EMISSION_HALT_YEAR * b {
      SilentAfterHalt(b, n);
      YearBound(b, EMISSION_HALT_YEAR, b);
      BeforeSteps(b, EMISSION_HALT_YEAR);
      SharesBound(b, EMISSION_HALT_YEAR, b);
    } else {
      QuotientIsLargest(b, n, EMISSION_HALT_YEAR);
      DivBounds(b, n);
      YearBound(b, n / b + 1, n % b);
      SharesBound(b, n / b + 1, n % b);
    }
  }

  /**
   Processing blocks 1..n from a fresh processor never violates conservation, for
   every positive block rate and all fees: the minted amount and the total are both
   the sum of the floored per-block rewards, at most five first years' emission.
   */
  lemma {:induction false} RunsConserve(blocksPerYear: nat, fees: seq<int>, n: nat)
    requires blocksPerYear > 0 && n <= |fees|
    ensures RunBlocks(blocksPerYear, fees, n).blocksPerYear == blocksPerYear
    ensures RunBlocks(blocksPerYear, fees, n).tracker
         == Tracker(MintedBy(blocksPerYear, n), 0, MintedBy(blocksPerYear, n))
    ensures MintedBy(blocksPerYear, n) <= 5 * YEAR_1_EMISSION
    ensures CheckConservation(RunBlocks(blocksPerYear, fees, n).tracker)
    ensures n > 0 ==> Process(RunBlocks(blocksPerYear, fees, n - 1), n, fees[n - 1]).reward.Ok?
    decreases n
  {
    hide PerBlock, SplitFees;
    MintedIsBounded(blocksPerYear, n);
    if n > 0 {
      RunsConserve(blocksPerYear, fees, n - 1);
    }
  }

  /** What block n pays: its number, its year, its floored share of the year, and its fees split 70, 20 and 10. */
  lemma BlockPays(blocksPerYear: nat, fees: seq<int>, n: nat)
    requires blocksPerYear > 0 && 0 < n <= |fees| && fees[n - 1] >= 0
    ensures var r := Process(RunBlocks(blocksPerYear, fees, n - 1), n, fees[n - 1]).reward;
      && r.Ok? && Pays(r.value, blocksPerYear, n, fees[n - 1])
    ensures RunBlocks(blocksPerYear, fees, n).currentYear == YearForBlock(blocksPerYear, n)
  {
    hide SplitFees, RecordMint, PerBlock, YearForBlock, RunBlocks, Pays;
    RunsConserve(blocksPerYear, fees, n);
    var p := RunBlocks(blocksPerYear, fees, n - 1);
    ProcessPays(p, n, fees[n - 1]);
    RunStep(blocksPerYear, fees, n);
  }

  lemma RunStep(blocksPerYear: nat, fees: seq<int>, n: nat)
    requires blocksPerYear > 0 && 0 < n <= |fees|
    ensures RunBlocks(blocksPerYear, fees, n)
         == Process(RunBlocks(blocksPerYear, fees, n - 1), n, fees[n - 1]).processor
  {
    hide Process;
  }

  // What a successful reward contains.
  lemma ProcessPays(p: Processor, block: nat, fees: int)
    requires p.blocksPerYear > 0 && fees >= 0 && Process(p, block, fees).reward.Ok?
    ensures Pays(Process(p, block, fees).reward.value, p.blocksPerYear, block, fees)
    ensures Process(p, block, fees).processor.currentYear == YearForBlock(p.blocksPerYear, block)
  {
    hide RecordMint, YearForBlock, Emission;
  }

  ghost predicate Pays(r: BlockReward, blocksPerYear: nat, n: nat, fees: int)
    requires blocksPerYear > 0
  {
    && r.blockNumber == n && r.year == YearForBlock(blocksPerYear, n)
    && r.baseReward == Emission(YearForBlock(blocksPerYear, n)) / blocksPerYear
    && r.feeBurn + r.feeValidator + r.feeTreasury == fees
    && 100 * r.feeBurn <= 70 * fees < 100 * r.feeBurn + 100
    && 100 * r.feeValidator <= 20 * fees < 100 * r.feeValidator + 100
  }
}
