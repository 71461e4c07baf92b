// Block difficulty, computed by subtracting the largest fall first and adding back, against
// the clamped formulas of EIP-2 and EIP-100.
module Difficulty {
  import opened Revisions

  const MIN_DIFFICULTY: nat := 131_072

  datatype Formula = Frontier | Homestead | Byzantium

  function Pow2(n: nat): (r: nat)
    ensures r > 0
  {
    if n == 0 then 1 else 2 * Pow2(n - 1)
  }

  /** One shifted left in 256 bits: zero once it falls off the end. */
  function ShiftOne(n: nat): (r: nat) {
    if n < 256 then Pow2(n) else 0
  }

  // ----- The published formulas -----

  function AtLeast(low: int, n: int): (r: int) {
    if n < low then low else n
  }

  /** How many 2048ths of the parent's difficulty are added. */
  function Multiplier(f: Formula, elapsed: nat, parentHasUncles: bool): (r: int) {
    match f
    case Frontier => if elapsed < 13 then 1 else -1
    case Homestead => AtLeast(-99, 1 - elapsed / 10)
    case Byzantium => AtLeast(-99, (if parentHasUncles then 2 else 1) - elapsed / 9)
  }

  function Bomb(number: nat): (r: nat) {
    var n := number / 100_000;
    if n >= 2 then Pow2(n - 2) else 0
  }

  /** The block number the bomb sees. */
  function Delayed(number: nat, delay: nat): (r: nat) {
    AtLeast(0, number - delay)
  }

  function Published(f: Formula, number: nat, delay: nat, elapsed: nat, parent: nat, parentHasUncles: bool): (r: int) {
    AtLeast(MIN_DIFFICULTY,
      parent + parent / 2048 * Multiplier(f, elapsed, parentHasUncles) + Bomb(Delayed(number, delay)))
  }

  /** The bomb fits 256 bits. */
  predicate BombFits(number: nat, delay: nat) {
    Delayed(number, delay) < 25_800_000
  }

  // ----- As computed -----

  /** The bomb in 256 bits. */
  function Shifted(number: nat): (r: nat) {
    var n := number / 100_000;
    if n >= 2 then ShiftOne(n - 2) else 0
  }

  function Computed(f: Formula, number: nat, delay: nat, elapsed: nat, parent: nat, parentHasUncles: bool): (r: int) {
    AtLeast(MIN_DIFFICULTY,
      parent + parent / 2048 * Multiplier(f, elapsed, parentHasUncles) + Shifted(Delayed(number, delay)))
  }

  /** What is computed is the published formula exactly as long as the bomb fits. */
  lemma ComputedIsPublishedIff(f: Formula, number: nat, delay: nat, elapsed: nat, parent: nat, uncles: bool)
    ensures
      (Computed(f, number, delay, elapsed, parent, uncles) == Published(f, number, delay, elapsed, parent, uncles))
      <==> BombFits(number, delay)
  {
    hide Bomb, Shifted, Multiplier;
    FallBound(f, number, delay, elapsed, parent, uncles);
    BombOrNothing(Delayed(number, delay));
  }

  lemma BombOrNothing(number: nat)
    ensures number < 25_800_000 ==> Shifted(number) == Bomb(number)
    ensures number >= 25_800_000 ==> Shifted(number) == 0 && Bomb(number) > MIN_DIFFICULTY
  {
    if number >= 25_800_000 {
      Pow2Big(number / 100_000 - 2);
    }
  }

  /** Adds the bomb and applies the floor. */
  method DifficultyBomb(start: nat, number: nat) returns (difficulty: nat)
    ensures difficulty == AtLeast(MIN_DIFFICULTY, start + Shifted(number))
  {
    difficulty := start;
    var n := number / 100_000;
    if n >= 2 {
      difficulty := difficulty + ShiftOne(n - 2);
    }
    if difficulty < MIN_DIFFICULTY {
      difficulty := MIN_DIFFICULTY;
    }
  }

  lemma {:induction false} Pow2Mono(m: nat, n: nat)
    requires m <= n
    ensures Pow2(m) <= Pow2(n)
    decreases n - m
  {
    if m < n {
      Pow2Mono(m, n - 1);
    }
  }

  lemma Pow2Big(n: nat)
    requires n >= 18
    ensures Pow2(n) > MIN_DIFFICULTY
  {
    Pow2Mono(18, n);
    assert Pow2(6) == 64;
    assert Pow2(12) == 64 * Pow2(6);
    assert Pow2(18) == 64 * Pow2(12);
  }

  method FrontierDifficulty(number: nat, timestamp: nat, parent: nat, parentTimestamp: nat) returns (r: nat)
    requires parentTimestamp <= timestamp
    ensures r == Computed(Frontier, number, 0, timestamp - parentTimestamp, parent, false)
  {
    var difficulty: nat := parent;
    var x := parent / 2048;
    if timestamp - parentTimestamp < 13 {
      difficulty := difficulty + x;
    } else {
      difficulty := difficulty - x;
    }
    r := DifficultyBomb(difficulty, number);
  }

  /** Takes 99 2048ths off, then adds back up to the clamped multiple; never below zero. */
  method TakeThenAdd(parent: nat, z: nat, top: nat) returns (difficulty: nat)
    requires top >= 99
    ensures difficulty == parent + parent / 2048 * AtLeast(-99, top - 99 - z)
  {
    var x := parent / 2048;
    difficulty := parent - x * 99;
    if top > z {
      difficulty := difficulty + (top - z) * x;
      assert (top - z) * x - x * 99 == x * (top - 99 - z);
    }
  }

  method HomesteadDifficulty(number: nat, timestamp: nat, parent: nat, parentTimestamp: nat) returns (r: nat)
    requires parentTimestamp <= timestamp
    ensures r == Computed(Homestead, number, 0, timestamp - parentTimestamp, parent, false)
  {
    hide Shifted;
    var z := (timestamp - parentTimestamp) / 10;
    var difficulty := TakeThenAdd(parent, z, 100);
    r := DifficultyBomb(difficulty, number);
  }

  method ByzantiumDifficulty(
    number: nat, timestamp: nat, parent: nat, parentTimestamp: nat, parentHasUncles: bool, delay: nat)
    returns (r: nat)
    requires parentTimestamp <= timestamp
    ensures r == Computed(Byzantium, number, delay, timestamp - parentTimestamp, parent, parentHasUncles)
  {
    hide Shifted;
    var y := if parentHasUncles then 2 else 1;
    var z := (timestamp - parentTimestamp) / 9;
    var difficulty := TakeThenAdd(parent, z, 99 + y);
    var seen: nat := number;
    if number > delay {
      seen := number - delay;
    } else {
      seen := 0;
    }
    r := DifficultyBomb(difficulty, seen);
  }

  // ----- Which formula -----

  function FormulaAt(rev: Revision): (f: Formula) {
    if rev >= BYZANTIUM then Byzantium else if rev >= HOMESTEAD then Homestead else Frontier
  }

  /** By how many blocks the bomb is put off. */
  function DelayAt(rev: Revision, afterArrowGlacier: bool, afterMuirGlacier: bool): (d: nat) {
    if rev < BYZANTIUM then 0
    else if afterArrowGlacier then 10_700_000
    else if rev >= LONDON then 9_700_000
    else if afterMuirGlacier then 9_000_000
    else if rev >= CONSTANTINOPLE then 5_000_000
    else 3_000_000
  }

  datatype Rules = Rules(revision: Revision, afterArrowGlacier: bool, afterMuirGlacier: bool)

  ghost function ComputedUnder(rules: Rules, number: nat, elapsed: nat, parent: nat, parentHasUncles: bool): int {
    Computed(FormulaAt(rules.revision), number,
      DelayAt(rules.revision, rules.afterArrowGlacier, rules.afterMuirGlacier), elapsed, parent,
      parentHasUncles && rules.revision >= BYZANTIUM)
  }

  /** The formula of the block's revision. */
  method CanonicalDifficulty(
    rules: Rules, number: nat, timestamp: nat, parent: nat, parentTimestamp: nat, parentHasUncles: bool)
    returns (r: nat)
    requires parentTimestamp <= timestamp
    ensures r == ComputedUnder(rules, number, timestamp - parentTimestamp, parent, parentHasUncles)
  {
    hide Computed;
    if rules.revision >= BYZANTIUM {
      var delay := DelayAt(rules.revision, rules.afterArrowGlacier, rules.afterMuirGlacier);
      r := ByzantiumDifficulty(number, timestamp, parent, parentTimestamp, parentHasUncles, delay);
    } else if rules.revision >= HOMESTEAD {
      r := HomesteadDifficulty(number, timestamp, parent, parentTimestamp);
    } else {
      r := FrontierDifficulty(number, timestamp, parent, parentTimestamp);
    }
  }

  // ----- Chains -----

  datatype Header = Header(number: nat, timestamp: nat, difficulty: nat, hasUncles: bool)

  /** Every header's difficulty is the one computed from its parent. */
  ghost predicate DifficultyChain(rules: nat -> Rules, chain: seq<Header>) {
    forall i | 0 < i < |chain| ::
      && chain[i - 1].timestamp <= chain[i].timestamp
      && chain[i].difficulty == ComputedUnder(rules(chain[i].number), chain[i].number,
           chain[i].timestamp - chain[i - 1].timestamp, chain[i - 1].difficulty, chain[i - 1].hasUncles)
  }

  /** Along any chain the difficulty is at least the floor and falls by at most 99 2048ths. */
  lemma ChainFloor(rules: nat -> Rules, chain: seq<Header>, i: nat)
    requires DifficultyChain(rules, chain) && 0 < i < |chain|
    ensures chain[i].difficulty >= MIN_DIFFICULTY
    ensures chain[i].difficulty >= chain[i - 1].difficulty - chain[i - 1].difficulty / 2048 * 99 >= 0
  {
    var r := rules(chain[i].number);
    var parent := chain[i - 1];
    FallBound(FormulaAt(r.revision), chain[i].number, DelayAt(r.revision, r.afterArrowGlacier, r.afterMuirGlacier),
      chain[i].timestamp - parent.timestamp, parent.difficulty, parent.hasUncles && r.revision >= BYZANTIUM);
  }

  lemma FallBound(f: Formula, number: nat, delay: nat, elapsed: nat, parent: nat, uncles: bool)
    ensures Computed(f, number, delay, elapsed, parent, uncles) >= MIN_DIFFICULTY
    ensures Computed(f, number, delay, elapsed, parent, uncles) >= parent - parent / 2048 * 99 >= 0
    ensures parent + parent / 2048 * Multiplier(f, elapsed, uncles) >= 0
  {
    hide Shifted;
    var m := Multiplier(f, elapsed, uncles);
    Scaled(parent / 2048, m);
  }

  lemma Scaled(x: nat, m: int)
    requires m >= -99
    ensures x * m >= -(x * 99)
  {
    assert x * (m + 99) >= 0;
  }

  /** Homestead is revision 1, Byzantium 4, Constantinople 5, London 9. The bomb is put off by
      three million blocks from Byzantium (EIP-649), five from Constantinople (EIP-1234), nine
      from Muir Glacier (EIP-2384), 9.7 from London (EIP-3554) and 10.7 million from Arrow
      Glacier (EIP-4345) on. */
  lemma RuleValues(rev: Revision, arrow: bool, muir: bool)
    ensures FormulaAt(rev) == if rev >= 4 then Byzantium else if rev >= 1 then Homestead else Frontier
    ensures rev < 4 ==> DelayAt(rev, arrow, muir) == 0
    ensures rev >= 4 && arrow ==> DelayAt(rev, arrow, muir) == 10_700_000
    ensures rev >= 9 && !arrow ==> DelayAt(rev, arrow, muir) == 9_700_000
    ensures 4 <= rev < 9 && !arrow && muir ==> DelayAt(rev, arrow, muir) == 9_000_000
    ensures 5 <= rev < 9 && !arrow && !muir ==> DelayAt(rev, arrow, muir) == 5_000_000
    ensures rev == 4 && !arrow && !muir ==> DelayAt(rev, arrow, muir) == 3_000_000
  {
  }

  /** A block within the first ten seconds (nine from Byzantium on) raises the difficulty, once
      more if its parent has ommers; every further such interval takes one part away, down to
      the largest fall. */
  lemma MultiplierSteps(elapsed: nat, uncles: bool)
    ensures Multiplier(Frontier, elapsed, uncles) == 1 <==> elapsed < 13
    ensures Multiplier(Frontier, elapsed, uncles) == -1 <==> elapsed >= 13
    ensures elapsed < 10 ==> Multiplier(Homestead, elapsed, uncles) == 1
    ensures var m := Multiplier(Homestead, elapsed, uncles);
            Multiplier(Homestead, elapsed + 10, uncles) == if m > -99 then m - 1 else -99
    ensures elapsed < 9 ==> Multiplier(Byzantium, elapsed, uncles) == if uncles then 2 else 1
    ensures var m := Multiplier(Byzantium, elapsed, uncles);
            Multiplier(Byzantium, elapsed + 9, uncles) == if m > -99 then m - 1 else -99
  {
  }

  /** The bomb starts at block 200,000 and doubles every 100,000 blocks. */
  lemma BombDoubles(number: nat)
    ensures number < 200_000 ==> Bomb(number) == 0
    ensures 200_000 <= number < 300_000 ==> Bomb(number) == 1
    ensures number >= 200_000 ==> Bomb(number + 100_000) == 2 * Bomb(number)
  {
  }
}
