/**
 * The round engine of the number-guessing game (game/core.py): one
 * `GuessingGame` object holds a secret target in [low, high], the attempts
 * and guesses made so far, an unclamped score, the distance of the last wrong
 * guess (for warmer/colder feedback) and the segments eliminated by the hint
 * shop. Messages built by the source are abstracted into datatypes.
 */
module GameCore {
  import opened Prelude

  /** A closed range [lo, hi] of integers, the `(a, b)` tuples of the source. */
  datatype Segment = Segment(lo: int, hi: int) {
    predicate Contains(x: int) { lo <= x <= hi }
  }

  datatype Direction = TooLow | TooHigh

  /** How the distance of a wrong guess compares with the previous wrong guess. */
  datatype Trend = NoComparison | Warmer | Colder | SameDistance

  /** What the message of a `GuessResult` says. */
  datatype GuessFeedback =
    | OutOfRange(low: int, high: int)
    | Correct(target: int, attempts: nat)
    | Wrong(direction: Direction, trend: Trend)

  datatype GuessResult = GuessResult(
    correct: bool,
    feedback: GuessFeedback,
    pointsLost: int,
    currentScore: int,
    attemptsLeft: Option<int>,
    guess: int)

  datatype HintKind = Parity | WithinTen | EliminateThird | DigitSumHint

  /** An entry of the hint shop; its description is static text and is not modelled. */
  datatype HintInfo = HintInfo(name: string, kind: HintKind, cost: int)

  /** What `buy_hint` answers; the first two are its `(False, ...)` answers. */
  datatype HintOutcome =
    | InvalidKey
    | NotEnoughPoints(cost: int, score: int)
    | ParityRevealed(even: bool, cost: int)
    | DigitSumRevealed(sum: nat, cost: int)
    | WithinRevealed(anchor: int, within: bool, cost: int)
    | RangeTooSmall
    | Eliminated(segment: Segment, cost: int)
  {
    predicate Success() { !InvalidKey? && !NotEnoughPoints? }
  }

  /**
   * The penalty `reset` resolves when none was configured: one point for
   * every twenty values of the range, and never less than one.
   */
  function DefaultPenalty(low: int, high: int): (p: int)
    ensures p >= 1
    ensures p == 1 <==> high - low + 1 < 40
    ensures p > 1 ==> p * 20 <= high - low + 1 < (p + 1) * 20
  {
    ScaledCost(1, 20, high - low + 1)
  }

  /**
   * The price of a hint over a range of `n` values: `least` points, or one
   * point for every `per` values of the range once that is more.
   */
  function ScaledCost(least: nat, per: nat, n: int): (c: int)
    requires least >= 1 && per >= 1
    ensures c >= least
    ensures c == least <==> n < (least + 1) * per
    ensures c > least ==> c * per <= n < (c + 1) * per
  {
    FloorDivision(n, per, least);
    Max(least, n / per)
  }

  /** `n / per` is the floor of n over per, so it stays at most `m` exactly while n < (m + 1) * per. */
  lemma FloorDivision(n: int, per: int, m: int)
    requires per >= 1
    ensures (n / per) * per <= n < (n / per + 1) * per
    ensures n / per <= m <==> n < (m + 1) * per
  {
    var q := n / per;
    assert n == q * per + n % per;
    if q <= m {
      MultiplyMonotone(q + 1, m + 1, per);
    } else {
      MultiplyMonotone(m + 1, q, per);
    }
  }

  /** The only c with c * per <= n < (c + 1) * per is the floor of n over per. */
  lemma QuotientUnique(n: int, per: int, c: int)
    requires per >= 1 && c * per <= n < (c + 1) * per
    ensures c == n / per
  {
    var q := n / per;
    FloorDivision(n, per, q);
    if c < q {
      MultiplyMonotone(c + 1, q, per);
    } else if c > q {
      MultiplyMonotone(q + 1, c, per);
    }
  }

  lemma MultiplyMonotone(a: int, b: int, c: int)
    requires a <= b && c >= 0
    ensures a * c <= b * c
  {
    assert b * c - a * c == (b - a) * c;
  }

  function HintCost(kind: HintKind, rangeSize: int): int
  {
    match kind
    case Parity => ScaledCost(5, 20, rangeSize)
    case WithinTen => ScaledCost(8, 15, rangeSize)
    case EliminateThird => ScaledCost(12, 10, rangeSize)
    case DigitSumHint => ScaledCost(7, 25, rangeSize)
  }

  /**
   * The hint a name selects: the source builds a dictionary from the list,
   * so a later entry with the same name wins.
   */
  function FindHint(hints: seq<HintInfo>, key: string): (h: Option<HintInfo>)
    ensures h.Some? ==> h.value.name == key && h.value in hints
    ensures h.None? <==> forall i :: 0 <= i < |hints| ==> hints[i].name != key
  {
    if hints == [] then None
    else if hints[|hints| - 1].name == key then Some(hints[|hints| - 1])
    else FindHint(hints[..|hints| - 1], key)
  }

  /** The sum of the decimal digits of `n`, as the source computes it on `str(abs(target))`. */
  function DigitSum(n: nat): (s: nat)
    ensures s <= n
    ensures (n - s) % 9 == 0
    ensures n > 0 ==> s > 0
  {
    if n < 10 then n else n % 10 + DigitSum(n / 10)
  }

  /**
   * The segments `eliminate_third` cuts [lo, hi] into: consecutive runs of
   * `part` values, the last one possibly shorter.
   */
  function Partition(lo: int, hi: int, part: int): (segs: seq<Segment>)
    requires part >= 1
    decreases hi - lo + 1
  {
    if lo > hi then []
    else
      var end := Min(hi, lo + part - 1);
      [Segment(lo, end)] + Partition(end + 1, hi, part)
  }

  /** Every segment lies inside [lo, hi] and holds fewer than `part + 1` values. */
  predicate Inside(segs: seq<Segment>, lo: int, hi: int, part: int)
  {
    forall i :: 0 <= i < |segs| ==> lo <= segs[i].lo <= segs[i].hi <= hi && segs[i].hi - segs[i].lo < part
  }

  /** Each segment but the last holds exactly `part` values and is followed without a gap. */
  predicate Consecutive(segs: seq<Segment>, part: int)
  {
    forall i :: 0 <= i < |segs| - 1 ==> segs[i].hi + 1 == segs[i + 1].lo && segs[i].hi - segs[i].lo + 1 == part
  }

  /**
   * The segments lie inside [lo, hi], each follows the previous one without a
   * gap, and all but the last hold exactly `part` values.
   */
  lemma {:induction false} PartitionShape(lo: int, hi: int, part: int)
    requires part >= 1
    ensures lo > hi <==> Partition(lo, hi, part) == []
    ensures lo <= hi ==> Partition(lo, hi, part)[0].lo == lo
    ensures lo <= hi ==> Partition(lo, hi, part)[|Partition(lo, hi, part)| - 1].hi == hi
    ensures Inside(Partition(lo, hi, part), lo, hi, part)
    ensures Consecutive(Partition(lo, hi, part), part)
    decreases hi - lo + 1
  {
    if lo <= hi {
      var end := Min(hi, lo + part - 1);
      PartitionShape(end + 1, hi, part);
      var rest := Partition(end + 1, hi, part);
      assert Partition(lo, hi, part) == [Segment(lo, end)] + rest;
      assert end < hi ==> end == lo + part - 1 && rest != [] && rest[0].lo == end + 1;
      ConsSegments(lo, end, hi, part, rest);
    }
  }

  /** The shape facts of `PartitionShape` carried from the remaining segments to one more in front. */
  lemma ConsSegments(lo: int, end: int, hi: int, part: int, rest: seq<Segment>)
    requires lo <= end <= hi && end - lo < part
    requires end < hi ==> end - lo + 1 == part && rest != [] && rest[0].lo == end + 1
    requires Inside(rest, end + 1, hi, part) && Consecutive(rest, part)
    ensures Inside([Segment(lo, end)] + rest, lo, hi, part)
    ensures Consecutive([Segment(lo, end)] + rest, part)
  {
    var segs := [Segment(lo, end)] + rest;
    forall i | 0 <= i < |segs|
      ensures lo <= segs[i].lo <= segs[i].hi <= hi && segs[i].hi - segs[i].lo < part
    {
      if i > 0 {
        assert segs[i] == rest[i - 1];
      }
    }
    forall i | 0 <= i < |segs| - 1
      ensures segs[i].hi + 1 == segs[i + 1].lo && segs[i].hi - segs[i].lo + 1 == part
    {
      assert segs[i + 1] == rest[i];
      if i > 0 {
        assert segs[i] == rest[i - 1];
      } else {
        assert end < hi;
      }
    }
  }

  /** Segments of a partition are ordered and therefore pairwise disjoint. */
  lemma {:induction false} PartitionOrdered(lo: int, hi: int, part: int, i: int, j: int)
    requires part >= 1
    requires 0 <= i < j < |Partition(lo, hi, part)|
    ensures Partition(lo, hi, part)[i].hi < Partition(lo, hi, part)[j].lo
    decreases j - i
  {
    var segs := Partition(lo, hi, part);
    PartitionShape(lo, hi, part);
    if j > i + 1 {
      PartitionOrdered(lo, hi, part, i, j - 1);
      assert segs[j - 1].hi + 1 == segs[j].lo;
    }
  }

  /** Every value of [lo, hi] lies in exactly one segment of the partition, and no other value lies in any. */
  lemma {:induction false} PartitionCovers(lo: int, hi: int, part: int, x: int) returns (k: nat)
    requires part >= 1 && lo <= x <= hi
    ensures k < |Partition(lo, hi, part)| && Partition(lo, hi, part)[k].Contains(x)
    ensures forall j :: 0 <= j < |Partition(lo, hi, part)| && j != k ==> !Partition(lo, hi, part)[j].Contains(x)
    decreases hi - lo + 1
  {
    var end := Min(hi, lo + part - 1);
    var segs := Partition(lo, hi, part);
    assert segs == [Segment(lo, end)] + Partition(end + 1, hi, part);
    if x <= end {
      k := 0;
    } else {
      var k' := PartitionCovers(end + 1, hi, part, x);
      k := k' + 1;
    }
    forall j | 0 <= j < |segs| && j != k
      ensures !segs[j].Contains(x)
    {
      if j < k {
        PartitionOrdered(lo, hi, part, j, k);
      } else {
        PartitionOrdered(lo, hi, part, k, j);
      }
    }
  }

  /** A partition of a non-empty range has a single segment exactly when one part spans the whole range. */
  lemma PartitionSingle(lo: int, hi: int, part: int)
    requires part >= 1 && lo <= hi
    ensures |Partition(lo, hi, part)| == 1 <==> hi - lo + 1 <= part
  {
    var end := Min(hi, lo + part - 1);
    assert Partition(lo, hi, part) == [Segment(lo, end)] + Partition(end + 1, hi, part);
  }

  /** One step of the partition: the first segment, then the partition of what follows it. */
  lemma PartitionStep(lo: int, hi: int, part: int)
    requires part >= 1 && lo <= hi
    ensures Partition(lo, hi, part)
      == [Segment(lo, Min(hi, lo + part - 1))] + Partition(Min(hi, lo + part - 1) + 1, hi, part)
  {
  }

  /** The `while start <= high` loop of `eliminate_third` that lists the segments. */
  method BuildSegments(low: int, high: int, part: int) returns (segments: seq<Segment>)
    requires part >= 1
    ensures segments == Partition(low, high, part)
  {
    segments := [];
    var start := low;
    while start <= high
      invariant segments + Partition(start, high, part) == Partition(low, high, part)
      decreases high - start + 1
    {
      var end := Min(high, start + part - 1);
      PartitionStep(start, high, part);
      ConcatAssoc(segments, [Segment(start, end)], Partition(end + 1, high, part));
      segments := segments + [Segment(start, end)];
      start := end + 1;
    }
  }

  /**
   * The `for` loop of `eliminate_third` that finds the target's segment: the
   * first segment holding `target`, or 0 when none does.
   */
  method FindKeep(segments: seq<Segment>, target: int) returns (keep: nat)
    ensures (exists i :: 0 <= i < |segments| && segments[i].Contains(target)) ==>
      keep < |segments| && segments[keep].Contains(target)
    ensures forall j :: 0 <= j < keep && j < |segments| ==> !segments[j].Contains(target)
    ensures (forall i :: 0 <= i < |segments| ==> !segments[i].Contains(target)) ==> keep == 0
  {
    keep := 0;
    for i := 0 to |segments|
      invariant forall j :: 0 <= j < i ==> !segments[j].Contains(target)
    {
      if segments[i].Contains(target) {
        keep := i;
        return;
      }
    }
  }

  /** The segments `eliminate_third` cuts [low, high] into: parts of a third of the range, at least one value each. */
  function Thirds(low: int, high: int): seq<Segment>
  {
    Partition(low, high, Max(1, (high - low + 1) / 3))
  }

  /**
   * The segment `eliminate_third` removes: the one after the target's segment,
   * wrapping round to the first; none when the range has a single segment.
   */
  method EliminationFor(low: int, high: int, target: int) returns (elim: Option<Segment>)
    requires low <= target <= high
    ensures elim.None? <==> low == high
    ensures elim.Some? ==>
      && (exists k :: 0 <= k < |Thirds(low, high)| && Thirds(low, high)[k].Contains(target)
                      && elim.value == Thirds(low, high)[(k + 1) % |Thirds(low, high)|])
      && !elim.value.Contains(target)
      && low <= elim.value.lo <= elim.value.hi <= high
  {
    var span := high - low + 1;
    var part := Max(1, span / 3);
    var segments := BuildSegments(low, high, part);
    var keep := FindKeep(segments, target);
    ghost var k := PartitionCovers(low, high, part, target);
    assert keep == k;
    PartitionSingle(low, high, part);
    PartitionShape(low, high, part);
    assert segments == Thirds(low, high);
    if |segments| > 1 {
      elim := Some(segments[(keep + 1) % |segments|]);
      assert segments[keep].Contains(target);
      assert (keep + 1) % |segments| != keep;
    } else {
      elim := None;
    }
  }

  class GuessingGame {
    const low: int
    const high: int
    const maxAttempts: Option<int>
    const startingScore: int
    /** Resolved by `Reset` when unset; a configured value is kept as given. */
    var penaltyPerWrong: Option<int>
    var target: int
    var attempts: nat
    var guesses: seq<int>
    /** The raw score; it may drop below zero. */
    var score: int
    var lastDistance: Option<nat>
    var eliminatedSegments: seq<Segment>

    ghost predicate Valid()
      reads this
    {
      && low <= target <= high
      && attempts == |guesses|
      && (forall i :: 0 <= i < |guesses| ==> low <= guesses[i] <= high)
      && penaltyPerWrong.Some?
      && (forall i :: 0 <= i < |eliminatedSegments| ==>
            low <= eliminatedSegments[i].lo <= eliminatedSegments[i].hi <= high
            && !eliminatedSegments[i].Contains(target))
    }

    /**
     * `target` stands for the value the source draws with `random.randint(low, high)`; it comes
     * first so that the configuration keeps the source's default values.
     */
    constructor (target: int, low: int := 1, high: int := 100, maxAttempts: Option<int> := None,
                 startingScore: int := 100, penaltyPerWrong: Option<int> := None)
      requires low <= target <= high
      ensures Valid()
      ensures this.low == low && this.high == high
      ensures this.maxAttempts == maxAttempts && this.startingScore == startingScore
      ensures this.penaltyPerWrong ==
        Some(if penaltyPerWrong.Some? then penaltyPerWrong.value else DefaultPenalty(low, high))
      ensures this.target == target && attempts == 0 && guesses == [] && score == startingScore
      ensures lastDistance == None && eliminatedSegments == []
    {
      this.low := low;
      this.high := high;
      this.maxAttempts := maxAttempts;
      this.startingScore := startingScore;
      this.penaltyPerWrong := penaltyPerWrong;
      new;
      Reset(target);
    }

    /** Starts the round again with a new target. */
    method Reset(target: int)
      requires low <= target <= high
      modifies this
      ensures Valid()
      ensures this.target == target && attempts == 0 && guesses == [] && score == startingScore
      ensures lastDistance == None && eliminatedSegments == []
      ensures penaltyPerWrong ==
        if old(penaltyPerWrong).None? then Some(DefaultPenalty(low, high)) else old(penaltyPerWrong)
    {
      this.target := target;
      attempts := 0;
      guesses := [];
      score := startingScore;
      if penaltyPerWrong.None? {
        penaltyPerWrong := Some(DefaultPenalty(low, high));
      }
      lastDistance := None;
      eliminatedSegments := [];
    }

    method MakeGuess(guess: int) returns (r: GuessResult)
      requires Valid()
      modifies this
      ensures Valid()
      ensures r.guess == guess
      ensures target == old(target) && penaltyPerWrong == old(penaltyPerWrong)
      ensures eliminatedSegments == old(eliminatedSegments)
      // A guess outside [low, high] changes nothing and is not an attempt.
      ensures !(low <= guess <= high) ==>
        && attempts == old(attempts) && guesses == old(guesses)
        && score == old(score) && lastDistance == old(lastDistance)
        && r.feedback == OutOfRange(low, high) && !r.correct
        && r.pointsLost == 0 && r.currentScore == score
        && r.attemptsLeft ==
             (if maxAttempts.Some? && maxAttempts.value != 0 then Some(maxAttempts.value - attempts) else None)
      // Every guess inside the range is one more attempt, recorded in order.
      ensures low <= guess <= high ==> attempts == old(attempts) + 1 && guesses == old(guesses) + [guess]
      // The right guess earns (high - low) / attempts, counting itself.
      ensures guess == target ==>
        && score == old(score) + (high - low) / attempts && score >= old(score)
        && lastDistance == old(lastDistance)
        && r.correct && r.feedback == Correct(target, attempts)
        && r.pointsLost == 0 && r.currentScore == score && r.attemptsLeft == None
      // A wrong guess inside the range costs exactly the penalty.
      ensures low <= guess <= high && guess != target ==>
        && score == old(score) - penaltyPerWrong.value
        && lastDistance == Some(Abs(target - guess))
        && !r.correct && r.pointsLost == penaltyPerWrong.value
        && r.currentScore >= 0 && (score >= 0 ==> r.currentScore == score) && (score < 0 ==> r.currentScore == 0)
        && r.attemptsLeft == (if maxAttempts.Some? then Some(maxAttempts.value - attempts) else None)
        && r.feedback.Wrong?
        && (r.feedback.direction == TooLow <==> guess < target)
        && (r.feedback.trend == NoComparison <==> old(lastDistance).None?)
        && (r.feedback.trend == Warmer <==>
              old(lastDistance).Some? && Abs(target - guess) < old(lastDistance).value)
        && (r.feedback.trend == Colder <==>
              old(lastDistance).Some? && Abs(target - guess) > old(lastDistance).value)
        && (r.feedback.trend == SameDistance <==> old(lastDistance) == Some(Abs(target - guess)))
      // A round that is over stays over after a guess that is not right, unless the penalty is negative.
      ensures old(IsOver()) && !r.correct && penaltyPerWrong.value >= 0 ==> IsOver()
    {
      if guess < low || guess > high {
        var left := if maxAttempts.Some? && maxAttempts.value != 0 then Some(maxAttempts.value - attempts) else None;
        return GuessResult(false, OutOfRange(low, high), 0, score, left, guess);
      }

      attempts := attempts + 1;
      guesses := guesses + [guess];
      var distance := Abs(target - guess);

      if guess == target {
        var bonus := Max(0, (high - low) / (if attempts == 0 then 1 else attempts));
        score := score + bonus;
        return GuessResult(true, Correct(target, attempts), 0, score, None, guess);
      }

      var pointsLost := penaltyPerWrong.value;
      score := score - pointsLost;

      var trend := NoComparison;
      if lastDistance.Some? {
        if distance < lastDistance.value {
          trend := Warmer;
        } else if distance > lastDistance.value {
          trend := Colder;
        } else {
          trend := SameDistance;
        }
      }
      lastDistance := Some(distance);

      var direction := if guess < target then TooLow else TooHigh;

      var attemptsLeft := None;
      if maxAttempts.Some? {
        attemptsLeft := Some(maxAttempts.value - attempts);
      }

      r := GuessResult(false, Wrong(direction, trend), pointsLost, Max(0, score), attemptsLeft, guess);
    }

    /** The round ends when the raw score is spent or the attempt budget is used up. */
    function IsOver(): (over: bool)
      reads this
      ensures over <==> score <= 0 || (maxAttempts.Some? && attempts >= maxAttempts.value)
    {
      if score <= 0 then true
      else if maxAttempts.Some? && attempts >= maxAttempts.value then true
      else false
    }

    /** The hint shop: four hints in fixed order, priced by the size of the range. */
    function AvailableHints(): (hints: seq<HintInfo>)
      ensures |hints| == 4
      ensures hints[0].name == "parity" && hints[0].kind == Parity
      ensures hints[1].name == "within_10" && hints[1].kind == WithinTen
      ensures hints[2].name == "eliminate_third" && hints[2].kind == EliminateThird
      ensures hints[3].name == "digit_sum" && hints[3].kind == DigitSumHint
      ensures hints[0].cost >= 5 && hints[1].cost >= 8 && hints[2].cost >= 12 && hints[3].cost >= 7
      ensures high - low + 1 < 120 ==>
        hints[0].cost == 5 && hints[1].cost == 8 && hints[2].cost == 12 && hints[3].cost == 7
      // Every price is the hint's own scaling rule applied to the size of the range.
      ensures forall i :: 0 <= i < 4 ==> hints[i].cost == HintCost(hints[i].kind, Max(1, high - low + 1))
    {
      var rangeSize := Max(1, high - low + 1);
      [ HintInfo("parity", Parity, HintCost(Parity, rangeSize)),
        HintInfo("within_10", WithinTen, HintCost(WithinTen, rangeSize)),
        HintInfo("eliminate_third", EliminateThird, HintCost(EliminateThird, rangeSize)),
        HintInfo("digit_sum", DigitSumHint, HintCost(DigitSumHint, rangeSize)) ]
    }

    /**
     * From 175 values on, no minimum is above the quotient, so each hint costs one point
     * per 20, 15, 10 or 25 values of the range (for 1..500: 25, 33, 50 and 20 points).
     */
    lemma LargeRangePrices()
      requires high - low + 1 >= 175
      ensures AvailableHints()[0].cost == (high - low + 1) / 20
      ensures AvailableHints()[1].cost == (high - low + 1) / 15
      ensures AvailableHints()[2].cost == (high - low + 1) / 10
      ensures AvailableHints()[3].cost == (high - low + 1) / 25
    {
      var n := high - low + 1;
      var hints := AvailableHints();
      QuotientUnique(n, 20, hints[0].cost);
      QuotientUnique(n, 15, hints[1].cost);
      QuotientUnique(n, 10, hints[2].cost);
      QuotientUnique(n, 25, hints[3].cost);
    }

    /** The value `within_10` compares with: the one given, else the last guess, else the midpoint. */
    function Anchor(given: Option<int>): int
      reads this`guesses
    {
      if given.Some? then given.value
      else if guesses != [] then guesses[|guesses| - 1]
      else (low + high) / 2
    }

    /** What a purchased hint of the given kind tells about the target; it changes nothing. */
    method Reveal(kind: HintKind, cost: int, anchor: Option<int>) returns (outcome: HintOutcome)
      requires Valid()
      ensures outcome.Success()
      ensures kind == Parity ==> outcome == ParityRevealed(target % 2 == 0, cost)
      ensures kind == DigitSumHint ==> outcome == DigitSumRevealed(DigitSum(Abs(target)), cost)
      ensures kind == WithinTen ==>
        outcome == WithinRevealed(Anchor(anchor), Abs(target - Anchor(anchor)) <= 10, cost)
      ensures kind == EliminateThird ==>
        (outcome.Eliminated? || outcome.RangeTooSmall?) && (outcome.RangeTooSmall? <==> low == high)
      ensures outcome.Eliminated? ==>
        && outcome.cost == cost
        && !outcome.segment.Contains(target)
        && low <= outcome.segment.lo <= outcome.segment.hi <= high
        && (exists k :: 0 <= k < |Thirds(low, high)| && Thirds(low, high)[k].Contains(target)
                        && outcome.segment == Thirds(low, high)[(k + 1) % |Thirds(low, high)|])
    {
      match kind
      case Parity =>
        outcome := ParityRevealed(target % 2 == 0, cost);
      case DigitSumHint =>
        outcome := DigitSumRevealed(DigitSum(Abs(target)), cost);
      case WithinTen =>
        var a := Anchor(anchor);
        outcome := WithinRevealed(a, Abs(target - a) <= 10, cost);
      case EliminateThird =>
        var elim := EliminationFor(low, high, target);
        outcome := if elim.Some? then Eliminated(elim.value, cost) else RangeTooSmall;
    }

    method BuyHint(key: string, anchor: Option<int>) returns (outcome: HintOutcome)
      requires Valid()
      modifies this
      ensures Valid()
      // Hints never touch the target, the attempts, the guesses or the warmer/colder memory.
      ensures target == old(target) && attempts == old(attempts) && guesses == old(guesses)
      ensures lastDistance == old(lastDistance) && penaltyPerWrong == old(penaltyPerWrong)
      ensures FindHint(AvailableHints(), key).None? ==> outcome == InvalidKey
      ensures FindHint(AvailableHints(), key).Some? ==>
        var hint := FindHint(AvailableHints(), key).value;
        && (old(score) < hint.cost ==> outcome == NotEnoughPoints(hint.cost, old(score)))
        && (outcome.Success() <==> old(score) >= hint.cost)
        && (outcome.Success() ==> score == old(score) - hint.cost && score >= 0)
        && (outcome.Success() && hint.kind == Parity ==>
              outcome == ParityRevealed(target % 2 == 0, hint.cost))
        && (outcome.Success() && hint.kind == DigitSumHint ==>
              outcome == DigitSumRevealed(DigitSum(Abs(target)), hint.cost))
        && (outcome.Success() && hint.kind == WithinTen ==>
              outcome == WithinRevealed(Anchor(anchor), Abs(target - Anchor(anchor)) <= 10, hint.cost))
        && (outcome.Success() && hint.kind == EliminateThird ==>
              (outcome.Eliminated? || outcome.RangeTooSmall?) && (outcome.RangeTooSmall? <==> low == high))
      // A failed purchase changes nothing.
      ensures !outcome.Success() ==> score == old(score)
      // The eliminated segment is the one after the target's segment, cyclically, so never the target's.
      ensures outcome.Eliminated? ==>
        && outcome.cost == FindHint(AvailableHints(), key).value.cost
        && !outcome.segment.Contains(target)
        && eliminatedSegments == old(eliminatedSegments) + [outcome.segment]
        && (exists k :: 0 <= k < |Thirds(low, high)| && Thirds(low, high)[k].Contains(target)
                        && outcome.segment == Thirds(low, high)[(k + 1) % |Thirds(low, high)|])
      ensures !outcome.Eliminated? ==> eliminatedSegments == old(eliminatedSegments)
    {
      var hint := FindHint(AvailableHints(), key);
      if hint.None? {
        return InvalidKey;
      }
      var cost := hint.value.cost;
      if score < cost {
        return NotEnoughPoints(cost, score);
      }

      score := score - cost;

      outcome := Reveal(hint.value.kind, cost, anchor);
      if outcome.Eliminated? {
        eliminatedSegments := eliminatedSegments + [outcome.segment];
      }
    }
  }
}
