# number-guess, modelled in Dafny

A model of the engine of a terminal number-guessing game. One round is a
`GuessingGame`. It holds:

- a secret target in `[low, high]`;
- a score that starts at the configured starting score;
- the attempts and guesses made so far;
- the distance of the last wrong guess, which drives the "warmer / colder" feedback;
- the segments removed by the hint shop.

A guess inside the range is either correct, which earns a bonus of
`(high - low) / attempts`, or wrong, which costs the per-wrong penalty. The hint
shop sells four hints and deducts their price from the score. The prices scale
with the size of the range:

- parity;
- whether the target is within 10 of an anchor;
- removal of a third of the range that does not hold the target;
- the digit sum of the target.

A level picks the range, the attempt budget and the starting score. The
leaderboard keeps the ten best results, ranked by score with ties in arrival
order.

Files:

- `prelude.dfy` (`Prelude`): `Option` and the built-ins `max`, `min` and `abs`.
- `core.dfy` (`GameCore`): the `GuessingGame` class with `Reset`, `MakeGuess`,
  `IsOver`, `AvailableHints` and `BuyHint`; the two loops of `eliminate_third`:
  `BuildSegments` is proved equal to the function `Partition`, and `FindKeep` is
  proved to find the first segment holding the target in any list of segments;
  lemmas show how `Partition` cuts a range; results and hints as datatypes.
- `levels.dfy` (`Levels`): `create_game_for_level` as a function returning the
  constructor arguments.
- `scores.dfy` (`Scores`): the leaderboard rule of `save_highscore` as a stable
  insertion sort by descending score cut to ten entries, and the line structure
  of `pretty_highscores`.

On these points the model follows the code exactly:

- The score is stored unclamped. Only the `current_score` reported for a wrong
  guess is clamped at 0. A later correct guess or a hint purchase therefore
  works on the raw, possibly negative, score. This is what
  `GameCore.GuessingGame.MakeGuess` and `GameCore.GuessingGame.BuyHint` state.
- `eliminate_third` on a range of two values cuts two one-value segments and
  removes one of them. Only a range of a single value is "too small".
  `GameCore.EliminationFor` proves `elim.None? <==> low == high`.
- The out-of-range answer of `make_guess` tests `max_attempts` for
  truthiness. A budget of 0 therefore reports no attempts left (`None`). The
  wrong-guess answer tests `is not None` instead.

## Model

| member | source | states |
|---|---|---|
| GameCore.DefaultPenalty | number-guess/game/core.py:42-44 | the penalty resolved when none is configured is at least 1, exactly 1 for ranges under 40 values, and otherwise p with p*20 <= range size < (p+1)*20 |
| GameCore.ScaledCost | number-guess/game/core.py:107-112 | a hint price is at least its minimum, equals the minimum exactly while the range has fewer than (minimum+1)*per values, and is otherwise the floor of range size / per |
| GameCore.QuotientUnique | number-guess/game/core.py:107-112 | the floor division is the only whole number c with c*per <= n < (c+1)*per |
| GameCore.FloorDivision | number-guess/game/core.py:107-112 | the floor division used for prices brackets n between q*per and (q+1)*per, and stays at most m exactly while n < (m+1)*per |
| GameCore.FindHint | number-guess/game/core.py:121-125 | the dictionary lookup by hint name finds a hint with that name from the list, and finds none exactly when no hint has that name |
| GameCore.DigitSum | number-guess/game/core.py:137 | the digit sum of n is at most n, is congruent to n modulo 9, and is positive for positive n |
| GameCore.Partition | number-guess/game/core.py:153-158 | the segments the `while start <= high` loop lists, as a function: a run of `part` values from lo, cut at hi, then the segments of what follows; none when lo > hi |
| GameCore.Thirds | number-guess/game/core.py:151-152 | `eliminate_third` cuts the range into parts of a third of its size, floored, and at least one value each |
| GameCore.HintCost | number-guess/game/core.py:109-112 | the price rule of each hint: at least 5, 8, 12 or 7 points, else one point per 20, 15, 10 or 25 values of the range |
| GameCore.PartitionShape | number-guess/game/core.py:151-158 | the segments cover [lo, hi] from lo to hi, lie inside it, follow each other without a gap, and all but the last hold exactly `part` values; the list is empty exactly when lo > hi |
| GameCore.ConsSegments | number-guess/game/core.py:155-158 | one loop step keeps the shape: a first segment followed by well-shaped segments of the rest is well shaped |
| GameCore.PartitionOrdered | number-guess/game/core.py:151-158 | earlier segments end before later ones start, so segments are pairwise disjoint |
| GameCore.PartitionCovers | number-guess/game/core.py:151-164 | every value of [lo, hi] lies in exactly one segment |
| GameCore.PartitionSingle | number-guess/game/core.py:152-158 | a non-empty range gives a single segment exactly when one part spans the whole range |
| GameCore.BuildSegments | number-guess/game/core.py:151-158 | the `while start <= high` loop builds exactly the partition of [low, high] into parts of `part` values |
| GameCore.FindKeep | number-guess/game/core.py:160-164 | the search loop returns the first segment holding the target, and 0 when none does |
| GameCore.EliminationFor | number-guess/game/core.py:149-171 | the removed segment is the one after the target's segment (wrapping round), never holds the target and lies inside the range; there is none exactly when the range has one value |
| GameCore.GuessingGame.constructor | number-guess/game/core.py:22-35 | a new game, with the source's defaults 1..100, no attempt limit, 100 points and no penalty, keeps its configuration and starts as `reset` leaves it, with the penalty resolved from the range only when it was not given |
| GameCore.GuessingGame.Reset | number-guess/game/core.py:37-47 | attempts, guesses, last distance and eliminated segments are cleared, the score is the starting score, the penalty is resolved only if unset, and the state invariant holds |
| GameCore.GuessingGame.MakeGuess | number-guess/game/core.py:50-94 | out-of-range guesses change nothing; in-range guesses are one more recorded attempt; a correct guess adds (high-low)/attempts; a wrong one subtracts exactly the penalty and reports the score clamped at 0, the direction, and warmer/colder/same compared with the previous distance; a round that is over stays over after a wrong guess when the penalty is not negative |
| GameCore.GuessingGame.IsOver | number-guess/game/core.py:96-101 | the round is over exactly when the raw score is at most 0 or the attempt budget is used up |
| GameCore.GuessingGame.AvailableHints | number-guess/game/core.py:104-113 | four hints in fixed order with their names, each priced by its own rule over max(1, range size): at least its minimum of 5, 8, 12 and 7 points, exactly those for ranges under 120 values, and otherwise the larger of that minimum and the range size floor-divided by 20, 15, 10 and 25 |
| GameCore.GuessingGame.LargeRangePrices | number-guess/game/core.py:107-112 | from 175 values on, no minimum is above the quotient and the four prices are the range size floor-divided by 20, 15, 10 and 25 (for 1..500: 25, 33, 50 and 20 points) |
| GameCore.GuessingGame.Anchor | number-guess/game/core.py:142-145 | `within_10` compares with the anchor given, else the last guess, else the floored midpoint of the range |
| GameCore.GuessingGame.Reveal | number-guess/game/core.py:132-171 | what each bought hint tells: the parity of the target, its digit sum, whether it is within 10 of the anchor, or a removed segment without the target |
| GameCore.GuessingGame.BuyHint | number-guess/game/core.py:115-173 | an unknown key or a score below the price fails and changes nothing; otherwise the price is deducted, the score stays non-negative, the answer matches the hint, only `eliminate_third` appends to the eliminated segments, and the target, attempts and guesses never change |
| Levels.CreateGameForLevel | number-guess/game/main.py:21-36 | with the defaults progressive mode and choice "2", progressive mode gives range 1..20*level, starting score 100+20*(level-1) and max(10, 20-level) attempts; fixed mode gives easy, hard, or medium for every other choice; the range is non-empty for every level from 1 |
| Levels.ProgressionHarder | number-guess/game/main.py:23-28 | a higher level never gives a smaller range, a smaller starting score or more attempts |
| Levels.ProgressivePenaltyIsLevel | number-guess/game/main.py:23-29 | a progressive game resolves its wrong-guess penalty to exactly its level |
| Scores.Insert | number-guess/game/score.py:39 | one step of the stable descending sort: the entry goes after every leading entry scoring at least as much |
| Scores.SortByScoreDesc | number-guess/game/score.py:39 | `sorted(..., key=score, reverse=True)` as an insertion sort that takes the entries in their order |
| Scores.InsertSorted | number-guess/game/score.py:39 | inserting one entry adds exactly that entry and keeps a board sorted by descending score |
| Scores.InsertBounded | number-guess/game/score.py:39 | inserting never brings in a score above a bound the board and the entry respect |
| Scores.SortedCons | number-guess/game/score.py:39 | an entry scoring at least every entry of a sorted board can go in front of it |
| Scores.SortSorted | number-guess/game/score.py:39 | sorting permutes the board into descending order of score |
| Scores.TakeSorted | number-guess/game/score.py:39 | cutting a sorted board keeps it sorted and keeps only entries of the board |
| Scores.SaveHighscore | number-guess/game/score.py:30-39 | the saved board holds min(10, old size + 1) entries, sorted by descending score, all from the old board or the new result |
| Scores.InsertStable | number-guess/game/score.py:39 | inserting keeps the entries that tie on a score in their order and puts the new one after them |
| Scores.InsertPosition | number-guess/game/score.py:39 | in a sorted board the new entry lands right after every entry scoring at least as much |
| Scores.InsertCount | number-guess/game/score.py:39 | inserting raises by one the count of entries reaching any score the new entry reaches |
| Scores.SortStable | number-guess/game/score.py:39 | the sort is stable: for every score, the entries with that score keep their original order |
| Scores.SortCount | number-guess/game/score.py:39 | sorting does not change how many entries reach a given score |
| Scores.SaveStable | number-guess/game/score.py:33-39 | for every score, the saved entries with that score are a prefix of the old ones followed by the new result |
| Scores.NewEntryRank | number-guess/game/score.py:33-39 | the new result ranks right after every old entry scoring at least as much: it is kept at that rank behind the old top entries when fewer than ten of them exist, and otherwise the saved board is the old top ten |
| Scores.PrettyHighscores | number-guess/game/score.py:46-53 | an empty board gives the "no high scores" answer; otherwise a header, then one line per entry numbered from 1 in board order |

## Left out

- GameCore.GuessingGame.constructor: takes the target as its first parameter, ahead of the source's five configuration parameters, which keep their order and default values.
- `random.randint` in `reset`: the target is a parameter of the constructor and of `Reset`, required to lie in `[low, high]`, which is what `randint` itself demands.
- Message texts and f-strings: a `GuessResult` carries a `GuessFeedback` value and `buy_hint` answers with a `HintOutcome` value instead of a `(bool, str)` pair.
- Hint descriptions: `HintInfo` carries a `HintKind` in their place.
- `eliminated_summary` (core.py:176-180): string formatting only.
- The scan of eliminated segments in `make_guess` (core.py:54-58): it breaks out of the loop without any effect.
- The final `"Hint implementation missing."` answer of `buy_hint` (core.py:173): every key in the shop has one of the four kinds, so it cannot be reached.
- Any extra keyword arguments of `buy_hint`: only `anchor` is read, and it is an `Option<int>` parameter.
- The menus, input loop and colour output of `main.py` and all of `utils.py`: terminal I/O.
- Reading and writing `highscores.json`, `ensure_data_file`, `load_highscores` and the debug prints in `save_highscore`: file I/O. The board is passed in and returned instead. A file that is not a JSON list reads as the empty board there; that is not modelled.
- Scores.PrettyHighscores: returns the lines as `Line` values rather than one string joined with newlines.
- Scores.Entry: `score` is an `int`; JSON values of other types in the file are not modelled.
- Scores.SortByScoreDesc: is an insertion sort that defines the order Python's stable `sorted(..., reverse=True)` produces; Timsort itself is not modelled.
