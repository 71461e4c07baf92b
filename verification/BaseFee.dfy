// Header validation and the base fee along a chain of validated headers (EIP-1559).
module BaseFee {
  import opened Wrappers

  const INITIAL_BASE_FEE: nat := 1_000_000_000
  const BASE_FEE_MAX_CHANGE_DENOMINATOR: nat := 8
  const ELASTICITY_MULTIPLIER: nat := 2
  const I64_MAX: nat := 0x7FFF_FFFF_FFFF_FFFF

  datatype Header = Header(
    number: nat,
    timestamp: nat,
    gasLimit: nat,
    gasUsed: nat,
    extraLength: nat,
    baseFee: Option<nat>)

  datatype HeaderError =
    | FutureBlock
    | GasAboveLimit
    | InvalidGasLimit
    | ExtraDataTooLong
    | InvalidTimestamp
    | WrongBaseFee

  /** The expected fee, or a crash: a missing parent fee or a division by zero. */
  datatype Expectation = Fee(fee: Option<nat>) | Crash

  datatype Verdict = Valid | Invalid(error: HeaderError) | Crashed

  function SaturatingSub(x: nat, y: nat): (r: nat) {
    if x < y then 0 else x - y
  }

  function Max(x: nat, y: nat): (r: nat) {
    if x < y then y else x
  }

  function Quotient(fee: nat, delta: nat, target: nat): (r: nat)
    requires target > 0
  {
    fee * delta / target / BASE_FEE_MAX_CHANGE_DENOMINATOR
  }

  function ExpectedBaseFee(fork: Option<nat>, header: Header, parent: Header): (r: Expectation) {
    if fork.None? || header.number < fork.value then Fee(None)
    else if header.number == fork.value then Fee(Some(INITIAL_BASE_FEE))
    else
      var target := parent.gasLimit / ELASTICITY_MULTIPLIER;
      if parent.baseFee.None? then Crash
      else if parent.gasUsed == target then Fee(parent.baseFee)
      else if target == 0 then Crash
      else if parent.gasUsed > target then
        Fee(Some(parent.baseFee.value + Max(1, Quotient(parent.baseFee.value, parent.gasUsed - target, target))))
      else
        Fee(Some(SaturatingSub(parent.baseFee.value, Quotient(parent.baseFee.value, target - parent.gasUsed, target))))
  }

  function Distance(x: nat, y: nat): (r: nat) {
    if x > y then x - y else y - x
  }

  /** The checks in order; the clock is given when future blocks are refused. */
  function ValidateHeader(fork: Option<nat>, header: Header, parent: Header, now: Option<nat>): (r: Verdict) {
    if now.Some? && header.timestamp > now.value then Invalid(FutureBlock)
    else if header.gasUsed > header.gasLimit then Invalid(GasAboveLimit)
    else if header.gasLimit < 5000 || header.gasLimit > I64_MAX then Invalid(InvalidGasLimit)
    else if header.extraLength > 32 then Invalid(ExtraDataTooLong)
    else if header.timestamp <= parent.timestamp then Invalid(InvalidTimestamp)
    else
      var parentLimit := parent.gasLimit * if fork == Some(header.number) then ELASTICITY_MULTIPLIER else 1;
      if Distance(header.gasLimit, parentLimit) >= parentLimit / 1024 then Invalid(InvalidGasLimit)
      else
        match ExpectedBaseFee(fork, header, parent)
        case Crash => Crashed
        case Fee(fee) => if header.baseFee != fee then Invalid(WrongBaseFee) else Valid
  }

  /** The parent's gas limit as the step is measured: doubled at the fork block. */
  function MeasuredLimit(fork: Option<nat>, header: Header, parent: Header): (r: nat) {
    if fork == Some(header.number) then 2 * parent.gasLimit else parent.gasLimit
  }

  /** The limit moves by less than a 1024th of the parent's. */
  predicate SmallStep(fork: Option<nat>, header: Header, parent: Header) {
    var limit := MeasuredLimit(fork, header, parent);
    limit - limit / 1024 < header.gasLimit < limit + limit / 1024
  }

  /** A header is valid exactly when it is not from the future, uses no more gas than its limit,
      has a limit from 5000 to 2^63 - 1 that moved by a small step, at most 32 extra bytes, a
      later timestamp than its parent, and the expected fee. */
  lemma HeaderValidIff(fork: Option<nat>, header: Header, parent: Header, now: Option<nat>)
    ensures ValidateHeader(fork, header, parent, now) == Valid <==>
      && (now.Some? ==> header.timestamp <= now.value)
      && header.gasUsed <= header.gasLimit
      && 5000 <= header.gasLimit < 0x8000_0000_0000_0000
      && header.extraLength <= 32
      && header.timestamp > parent.timestamp
      && SmallStep(fork, header, parent)
      && ExpectedBaseFee(fork, header, parent) == Fee(header.baseFee)
  {
    hide ExpectedBaseFee;
  }

  /** Which error an invalid header gets: that of the first condition it misses. */
  lemma HeaderErrorTells(fork: Option<nat>, header: Header, parent: Header, now: Option<nat>)
    ensures var v := ValidateHeader(fork, header, parent, now);
            var future := now.Some? && header.timestamp > now.value;
            var over := header.gasUsed > header.gasLimit;
            var outside := header.gasLimit < 5000 || header.gasLimit >= 0x8000_0000_0000_0000;
            var long := header.extraLength > 32;
            var early := header.timestamp <= parent.timestamp;
            && (v == Invalid(FutureBlock) <==> future)
            && (v == Invalid(GasAboveLimit) <==> !future && over)
            && (v == Invalid(ExtraDataTooLong) <==> !future && !over && !outside && long)
            && (v == Invalid(InvalidTimestamp) <==> !future && !over && !outside && !long && early)
            && (v == Invalid(InvalidGasLimit) <==>
                  !future && !over && (outside || (!long && !early && !SmallStep(fork, header, parent))))
  {
    hide ExpectedBaseFee;
  }

  /** Before the fork no fee is expected, at the fork block the initial one of a thousand million. */
  lemma FeesBegin(fork: Option<nat>, header: Header, parent: Header)
    ensures fork.None? || header.number < fork.value ==> ExpectedBaseFee(fork, header, parent) == Fee(None)
    ensures fork == Some(header.number) ==> ExpectedBaseFee(fork, header, parent) == Fee(Some(1_000_000_000))
  {
  }

  /** Consecutive headers, each validated against the one before, from the parent of the
      fork block on. */
  ghost predicate ValidatedChain(fork: nat, chain: seq<Header>) {
    && (chain != [] ==> chain[0].number + 1 == fork)
    && forall i | 0 < i < |chain| :: Follows(fork, chain[i - 1], chain[i])
  }

  ghost predicate Follows(fork: nat, parent: Header, header: Header) {
    header.number == parent.number + 1 && ValidateHeader(Some(fork), header, parent, None) == Valid
  }

  // ----- Division -----

  lemma DivMonotone(x: nat, y: nat, t: nat)
    requires x <= y && t > 0
    ensures x / t <= y / t
  {
    var q, p := x / t, y / t;
    assert x == q * t + x % t && y == p * t + y % t;
    if p < q {
      ProductMonotone(t, p + 1, q);
    }
  }

  lemma {:induction false} SameQuotient(q: nat, m: nat, p: nat, n: nat, t: nat)
    requires q * t + m == p * t + n && m < t && n < t
    ensures q == p
  {
    if q > 0 && p > 0 {
      assert (q - 1) * t == q * t - t && (p - 1) * t == p * t - t;
      SameQuotient(q - 1, m, p - 1, n, t);
    }
  }

  lemma ProductMonotone(f: nat, x: nat, y: nat)
    requires x <= y
    ensures f * x <= f * y
  {
  }

  lemma DivUnique(a: nat, t: nat, p: nat)
    requires t > 0 && p * t <= a < p * t + t
    ensures a / t == p
  {
    assert a == (a / t) * t + a % t;
    SameQuotient(a / t, a % t, p, a - p * t, t);
  }

  lemma DivExact(f: nat, t: nat)
    requires t > 0
    ensures f * t / t == f
  {
    DivUnique(f * t, t, f);
  }

  /** A change of at most the whole target moves the fee by at most an eighth. */
  lemma QuotientBound(fee: nat, delta: nat, target: nat)
    requires target > 0 && delta <= target
    ensures Quotient(fee, delta, target) <= fee / BASE_FEE_MAX_CHANGE_DENOMINATOR
  {
    ProductMonotone(fee, delta, target);
    DivMonotone(fee * delta, fee * target, target);
    DivExact(fee, target);
    DivMonotone(fee * delta / target, fee, BASE_FEE_MAX_CHANGE_DENOMINATOR);
  }

  // ----- One step -----

  ghost predicate StepBounds(parent: Header, fee: nat, fee': nat) {
    var target := parent.gasLimit / ELASTICITY_MULTIPLIER;
    && (parent.gasUsed == target ==> fee' == fee)
    && (parent.gasUsed > target ==> fee' > fee)
    && (parent.gasUsed < target ==>
          fee' <= fee && fee - fee' <= fee / 8 && IsEighth(fee, target - parent.gasUsed, target, fee - fee'))
    && (parent.gasUsed > target > 0 ==>
          var d, x := parent.gasUsed - target, fee' - fee;
          IsEighth(fee, d, target, x) || (x == 1 && fee * d < 8 * target))
    && (target > 0 ==> (fee' > fee + Max(1, fee / 8) <==> Overshoots(parent, fee)))
    && (target > 0 && Overshoots(parent, fee) ==> fee' == fee + (fee + fee / target) / 8)
  }

  /** x is an eighth of the fee's share for d units of gas in t, rounded down. */
  ghost predicate IsEighth(fee: nat, d: nat, t: nat, x: int) {
    8 * t * x <= fee * d < 8 * t * (x + 1)
  }

  lemma QuotientIsEighth(fee: nat, d: nat, t: nat)
    requires t > 0
    ensures IsEighth(fee, d, t, Quotient(fee, d, t))
  {
    var a := fee * d;
    var y := a / t;
    var q := y / 8;
    assert a == y * t + a % t;
    ProductMonotone(t, 8 * q, y);
    ProductMonotone(t, y + 1, 8 * q + 8);
    assert t * (8 * q) == 8 * t * q && t * (8 * q + 8) == 8 * t * (q + 1);
    assert t * y == y * t && t * (y + 1) == y * t + t;
  }

  /** An amount below one eighth of a unit rounds to nothing. */
  lemma BelowOne(fee: nat, d: nat, t: nat)
    requires t > 0 && Quotient(fee, d, t) == 0
    ensures fee * d < 8 * t
  {
    hide Quotient;
    QuotientIsEighth(fee, d, t);
    assert 8 * t * (0 + 1) == 8 * t;
  }

  /** The parent's gas limit is odd, its block is full, and one unit above the target is enough
      to carry the fee's eighth over. */
  ghost predicate Overshoots(parent: Header, fee: nat)
    requires parent.gasLimit >= ELASTICITY_MULTIPLIER
  {
    && parent.gasLimit % 2 == 1 && parent.gasUsed == parent.gasLimit
    && (fee + fee / (parent.gasLimit / ELASTICITY_MULTIPLIER)) / 8 > Max(1, fee / 8)
  }

  /** With a validated parent the division is by a nonzero target, the subtraction does not
      saturate, the fee stays at least 7 and falls by at most an eighth, and it rises by more
      than one and an eighth exactly when the parent overshoots. */
  lemma StepKeepsFloor(fork: nat, parent: Header, header: Header)
    requires header.number > fork && parent.baseFee.Some? && parent.baseFee.value >= 7
    requires parent.gasLimit >= 5000 && parent.gasUsed <= parent.gasLimit
    ensures var e := ExpectedBaseFee(Some(fork), header, parent);
      && e.Fee? && e.fee.Some? && e.fee.value >= 7
      && StepBounds(parent, parent.baseFee.value, e.fee.value)
    ensures var target := parent.gasLimit / ELASTICITY_MULTIPLIER;
      target > 0 && (parent.gasUsed < target ==>
        Quotient(parent.baseFee.value, target - parent.gasUsed, target) <= parent.baseFee.value)
  {
    hide Quotient, IsEighth;
    var fee := parent.baseFee.value;
    var target := parent.gasLimit / ELASTICITY_MULTIPLIER;
    if parent.gasUsed < target {
      QuotientBound(fee, target - parent.gasUsed, target);
      QuotientIsEighth(fee, target - parent.gasUsed, target);
    } else if parent.gasUsed > target {
      QuotientIsEighth(fee, parent.gasUsed - target, target);
      if Quotient(fee, parent.gasUsed - target, target) == 0 {
        BelowOne(fee, parent.gasUsed - target, target);
      }
      if parent.gasUsed - target <= target {
        QuotientBound(fee, parent.gasUsed - target, target);
      } else {
        FullOddBlock(fee, target);
      }
    }
  }

  /** One unit above the target adds the fee's share of that unit. */
  lemma FullOddBlock(fee: nat, target: nat)
    requires target > 0
    ensures Quotient(fee, target + 1, target) == (fee + fee / target) / 8
  {
    assert fee * (target + 1) == fee * target + fee;
    SplitDiv(fee, target, fee);
  }

  // ----- Chains -----

  ghost predicate HealthyFrom(fork: nat, chain: seq<Header>, i: nat) {
    && i < |chain| && chain[i].number >= fork
    && chain[i].baseFee.Some? && chain[i].baseFee.value >= 7
    && chain[i].gasLimit >= 5000 && chain[i].gasUsed <= chain[i].gasLimit
  }

  lemma {:induction false} ChainNumbers(fork: nat, chain: seq<Header>, i: nat)
    requires ValidatedChain(fork, chain) && i < |chain|
    ensures chain[i].number + 1 == fork + i
  {
    if i > 0 {
      ChainNumbers(fork, chain, i - 1);
      assert Follows(fork, chain[i - 1], chain[i]);
    }
  }

  /** Every header from the fork block on carries a fee of at least 7. */
  lemma {:induction false} ChainFeesHealthy(fork: nat, chain: seq<Header>, i: nat)
    requires ValidatedChain(fork, chain) && 0 < i < |chain|
    ensures HealthyFrom(fork, chain, i)
    ensures i == 1 ==> chain[i].baseFee == Some(INITIAL_BASE_FEE)
  {
    ChainNumbers(fork, chain, i);
    assert Follows(fork, chain[i - 1], chain[i]);
    if i > 1 {
      ChainFeesHealthy(fork, chain, i - 1);
      StepKeepsFloor(fork, chain[i - 1], chain[i]);
    }
  }

  /** From one header to the next the fee follows the parent's gas: unchanged at the target,
      higher above it, lower by at most an eighth below it. The rise is at most one or an
      eighth exactly unless the parent overshoots. */
  lemma ChainFeeSteps(fork: nat, chain: seq<Header>, i: nat)
    requires ValidatedChain(fork, chain) && 1 < i < |chain|
    ensures chain[i].baseFee.Some? && chain[i - 1].baseFee.Some?
    ensures StepBounds(chain[i - 1], chain[i - 1].baseFee.value, chain[i].baseFee.value)
  {
    ChainNumbers(fork, chain, i);
    ChainFeesHealthy(fork, chain, i - 1);
    assert Follows(fork, chain[i - 1], chain[i]);
    StepKeepsFloor(fork, chain[i - 1], chain[i]);
  }

  /** Extending a validated chain by any header never crashes the validation. */
  lemma ValidationNeverCrashes(fork: nat, chain: seq<Header>, header: Header, now: Option<nat>)
    requires ValidatedChain(fork, chain) && chain != [] && header.number == chain[|chain| - 1].number + 1
    ensures ValidateHeader(Some(fork), header, chain[|chain| - 1], now) != Crashed
  {
    var last := |chain| - 1;
    ChainNumbers(fork, chain, last);
    if last > 0 {
      ChainFeesHealthy(fork, chain, last);
      StepKeepsFloor(fork, chain[last], header);
    }
  }

  /** A full block with an odd gas limit that raises the fee by more than an eighth. */
  lemma OddLimitRaisesMore()
    ensures var parent := Header(9, 0, 5001, 5001, 0, Some(20_000));
      && Overshoots(parent, 20_000)
      && ExpectedBaseFee(Some(1), parent.(number := 10), parent) == Fee(Some(20_000 + 20_000 / 8 + 1))
  {
    assert 20_000 * 2_501 / 2_500 == 20_008;
  }

  lemma SplitDiv(f: nat, t: nat, r: nat)
    requires t > 0
    ensures (f * t + r) / t == f + r / t
  {
    assert (f + r / t) * t == f * t + (r / t) * t;
    assert r == (r / t) * t + r % t;
    DivUnique(f * t + r, t, f + r / t);
  }
}
