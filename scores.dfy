/**
 * The leaderboard of game/score.py. `save_highscore` appends the new result,
 * sorts the list by score from highest to lowest with Python's stable sort,
 * and keeps the first ten entries; `pretty_highscores` lists a board one line
 * per entry. Reading and writing the JSON file is not modelled: the board is
 * passed in and returned.
 */
module Scores {
  import opened Prelude

  datatype Entry = Entry(name: string, score: int, attempts: int, difficulty: string)

  /** How many entries the board keeps. */
  const Capacity := 10

  predicate SortedDesc(s: seq<Entry>)
  {
    forall i, j :: 0 <= i < j < |s| ==> s[i].score >= s[j].score
  }

  /**
   * Places `e` after every leading entry whose score is at least its own: in a
   * board sorted from highest to lowest, after all entries that tie with it.
   */
  function Insert(t: seq<Entry>, e: Entry): seq<Entry>
  {
    if t == [] then [e]
    else if t[0].score >= e.score then [t[0]] + Insert(t[1..], e)
    else [e] + t
  }

  /** Inserting adds exactly `e`, and into a sorted board keeps it sorted. */
  lemma {:induction false} InsertSorted(t: seq<Entry>, e: Entry)
    ensures |Insert(t, e)| == |t| + 1
    ensures multiset(Insert(t, e)) == multiset(t) + multiset{e}
    ensures SortedDesc(t) ==> SortedDesc(Insert(t, e))
  {
    if t != [] && t[0].score >= e.score {
      var rest := Insert(t[1..], e);
      InsertSorted(t[1..], e);
      assert t == [t[0]] + t[1..];
      if SortedDesc(t) {
        SortedTail(t);
        InsertBounded(t[1..], e, t[0].score);
        SortedCons(t[0], rest);
      }
    } else if t != [] && SortedDesc(t) {
      SortedTail(t);
      SortedCons(e, t);
    }
  }

  /** No entry of `Insert(t, e)` scores above a bound that `e` and every entry of `t` respect. */
  lemma {:induction false} InsertBounded(t: seq<Entry>, e: Entry, b: int)
    requires e.score <= b
    requires forall i :: 0 <= i < |t| ==> t[i].score <= b
    ensures forall i :: 0 <= i < |Insert(t, e)| ==> Insert(t, e)[i].score <= b
  {
    if t != [] && t[0].score >= e.score {
      InsertBounded(t[1..], e, b);
    }
  }

  lemma SortedCons(x: Entry, s: seq<Entry>)
    requires SortedDesc(s)
    requires forall i :: 0 <= i < |s| ==> s[i].score <= x.score
    ensures SortedDesc([x] + s)
  {
    var xs := [x] + s;
    forall i, j | 0 <= i < j < |xs| ensures xs[i].score >= xs[j].score {
      if i > 0 {
        assert xs[i] == s[i - 1] && xs[j] == s[j - 1];
      } else {
        assert xs[j] == s[j - 1];
      }
    }
  }

  /** The stable sort by descending score, as an insertion sort that takes the entries in order. */
  function SortByScoreDesc(s: seq<Entry>): seq<Entry>
  {
    if s == [] then [] else Insert(SortByScoreDesc(s[..|s| - 1]), s[|s| - 1])
  }

  lemma SplitLast(s: seq<Entry>)
    requires s != []
    ensures s == s[..|s| - 1] + [s[|s| - 1]]
  {
  }

  /** Sorting permutes the board into descending order of score. */
  lemma {:induction false} SortSorted(s: seq<Entry>)
    ensures |SortByScoreDesc(s)| == |s|
    ensures multiset(SortByScoreDesc(s)) == multiset(s)
    ensures SortedDesc(SortByScoreDesc(s))
  {
    if s != [] {
      var init, last := s[..|s| - 1], s[|s| - 1];
      SplitLast(s);
      SortSorted(init);
      InsertSorted(SortByScoreDesc(init), last);
    }
  }

  /** `save_highscore`: append, sort by descending score, keep the first ten. */
  function SaveHighscore(board: seq<Entry>, e: Entry): (r: seq<Entry>)
    ensures |r| == Min(Capacity, |board| + 1)
    ensures SortedDesc(r)
    ensures multiset(r) <= multiset(board + [e])
  {
    var ranked := SortByScoreDesc(board + [e]);
    SortSorted(board + [e]);
    TakeSorted(ranked, Min(Capacity, |ranked|));
    ranked[..Min(Capacity, |ranked|)]
  }

  /** A prefix of a sorted board is sorted and holds only entries of the board. */
  lemma TakeSorted(s: seq<Entry>, n: nat)
    requires n <= |s|
    ensures SortedDesc(s) ==> SortedDesc(s[..n])
    ensures multiset(s[..n]) <= multiset(s)
  {
    assert s == s[..n] + s[n..];
  }

  /** The entries of `s` whose score is `v`, in their order in `s`. */
  function WithScore(s: seq<Entry>, v: int): seq<Entry>
  {
    if s == [] then []
    else (if s[0].score == v then [s[0]] else []) + WithScore(s[1..], v)
  }

  /** How many entries of `s` score at least `v`. */
  function CountAtLeast(s: seq<Entry>, v: int): nat
  {
    if s == [] then 0
    else (if s[0].score >= v then 1 else 0) + CountAtLeast(s[1..], v)
  }

  lemma {:induction false} WithScoreConcat(a: seq<Entry>, b: seq<Entry>, v: int)
    ensures WithScore(a + b, v) == WithScore(a, v) + WithScore(b, v)
  {
    if a != [] {
      assert (a + b)[0] == a[0] && (a + b)[1..] == a[1..] + b;
      WithScoreConcat(a[1..], b, v);
      var head := if a[0].score == v then [a[0]] else [];
      assert WithScore(a + b, v) == head + (WithScore(a[1..], v) + WithScore(b, v));
      assert head + (WithScore(a[1..], v) + WithScore(b, v)) == (head + WithScore(a[1..], v)) + WithScore(b, v);
    } else {
      assert a + b == b;
    }
  }

  lemma {:induction false} WithScoreNone(s: seq<Entry>, v: int)
    requires forall i :: 0 <= i < |s| ==> s[i].score < v
    ensures WithScore(s, v) == []
  {
    if s != [] {
      WithScoreNone(s[1..], v);
    }
  }

  lemma {:induction false} CountAtLeastNone(s: seq<Entry>, v: int)
    requires forall i :: 0 <= i < |s| ==> s[i].score < v
    ensures CountAtLeast(s, v) == 0
  {
    if s != [] {
      CountAtLeastNone(s[1..], v);
    }
  }

  lemma WithScoreCons(x: Entry, s: seq<Entry>, v: int)
    ensures WithScore([x] + s, v) == (if x.score == v then [x] else []) + WithScore(s, v)
  {
    assert ([x] + s)[0] == x && ([x] + s)[1..] == s;
  }

  /** Inserting into a sorted board keeps the order of the entries that tie, and puts `e` after them. */
  lemma {:induction false} InsertStable(t: seq<Entry>, e: Entry, v: int)
    requires SortedDesc(t)
    ensures WithScore(Insert(t, e), v) == WithScore(t, v) + (if e.score == v then [e] else [])
  {
    var tail := if e.score == v then [e] else [];
    if t == [] {
      WithScoreCons(e, [], v);
      assert [e] == [e] + [];
    } else if t[0].score >= e.score {
      SortedTail(t);
      InsertStable(t[1..], e, v);
      InsertStableStep(t, e, v);
    } else {
      SortedTail(t);
      InsertStableFront(t, e, v);
    }
  }

  /** The step of `InsertStable` where `e` goes after the first entry. */
  lemma InsertStableStep(t: seq<Entry>, e: Entry, v: int)
    requires t != [] && t[0].score >= e.score
    requires WithScore(Insert(t[1..], e), v) == WithScore(t[1..], v) + (if e.score == v then [e] else [])
    ensures WithScore(Insert(t, e), v) == WithScore(t, v) + (if e.score == v then [e] else [])
  {
    var head := if t[0].score == v then [t[0]] else [];
    var tail := if e.score == v then [e] else [];
    WithScoreCons(t[0], Insert(t[1..], e), v);
    assert WithScore(Insert(t, e), v) == head + (WithScore(t[1..], v) + tail);
    ConcatAssoc(head, WithScore(t[1..], v), tail);
  }

  /** The case of `InsertStable` where `e` outscores every entry and goes first. */
  lemma InsertStableFront(t: seq<Entry>, e: Entry, v: int)
    requires t != [] && t[0].score < e.score
    requires forall i :: 0 <= i < |t| ==> t[0].score >= t[i].score
    ensures WithScore(Insert(t, e), v) == WithScore(t, v) + (if e.score == v then [e] else [])
  {
    if e.score == v {
      WithScoreNone(t, v);
    }
    WithScoreCons(e, t, v);
  }

  lemma SortedTail(t: seq<Entry>)
    requires SortedDesc(t) && t != []
    ensures SortedDesc(t[1..])
    ensures forall i :: 0 <= i < |t| ==> t[0].score >= t[i].score
    ensures forall i :: 0 <= i < |t| - 1 ==> t[1..][i].score <= t[0].score
  {
  }

  /** Inserting into a sorted board puts `e` at the index given by the entries scoring at least as much. */
  lemma {:induction false} InsertPosition(t: seq<Entry>, e: Entry)
    requires SortedDesc(t)
    ensures CountAtLeast(t, e.score) <= |t|
    ensures Insert(t, e) == t[..CountAtLeast(t, e.score)] + [e] + t[CountAtLeast(t, e.score)..]
  {
    if t == [] {
    } else if t[0].score >= e.score {
      InsertPosition(t[1..], e);
      var k := CountAtLeast(t[1..], e.score);
      assert t[..k + 1] == [t[0]] + t[1..][..k];
      assert t[k + 1..] == t[1..][k..];
    } else {
      forall i | 0 <= i < |t| ensures t[i].score < e.score {
        assert t[0].score >= t[i].score;
      }
      CountAtLeastNone(t, e.score);
    }
  }

  lemma {:induction false} InsertCount(t: seq<Entry>, e: Entry, v: int)
    ensures CountAtLeast(Insert(t, e), v) == CountAtLeast(t, v) + (if e.score >= v then 1 else 0)
  {
    if t != [] && t[0].score >= e.score {
      InsertCount(t[1..], e, v);
      assert Insert(t, e)[1..] == Insert(t[1..], e);
    } else if t != [] {
      assert Insert(t, e)[1..] == t;
    }
  }

  lemma {:induction false} CountAtLeastConcat(a: seq<Entry>, b: seq<Entry>, v: int)
    ensures CountAtLeast(a + b, v) == CountAtLeast(a, v) + CountAtLeast(b, v)
  {
    if a != [] {
      assert (a + b)[0] == a[0] && (a + b)[1..] == a[1..] + b;
      CountAtLeastConcat(a[1..], b, v);
    } else {
      assert a + b == b;
    }
  }

  /** Sorting keeps, for every score, the entries with that score in their original order. */
  lemma {:induction false} SortStable(s: seq<Entry>, v: int)
    ensures WithScore(SortByScoreDesc(s), v) == WithScore(s, v)
  {
    if s != [] {
      var init, last := s[..|s| - 1], s[|s| - 1];
      SplitLast(s);
      WithScoreConcat(init, [last], v);
      WithScoreCons(last, [], v);
      assert [last] + [] == [last];
      SortStable(init, v);
      SortSorted(init);
      InsertStable(SortByScoreDesc(init), last, v);
    }
  }

  /** Sorting does not change how many entries reach a given score. */
  lemma {:induction false} SortCount(s: seq<Entry>, v: int)
    ensures CountAtLeast(SortByScoreDesc(s), v) == CountAtLeast(s, v)
  {
    if s != [] {
      var init, last := s[..|s| - 1], s[|s| - 1];
      SplitLast(s);
      CountAtLeastConcat(init, [last], v);
      SortCount(init, v);
      InsertCount(SortByScoreDesc(init), last, v);
      assert CountAtLeast([last], v) == (if last.score >= v then 1 else 0) + CountAtLeast([last][1..], v);
    }
  }

  /**
   * Ties keep their order on the saved board: for every score, the entries
   * with that score are a prefix of the old ones with that score followed by
   * the new entry.
   */
  lemma {:induction false} SaveStable(board: seq<Entry>, e: Entry, v: int)
    ensures WithScore(SaveHighscore(board, e), v) <= WithScore(board, v) + (if e.score == v then [e] else [])
  {
    var ranked := SortByScoreDesc(board + [e]);
    var kept := SaveHighscore(board, e);
    SortSorted(board + [e]);
    assert ranked == kept + ranked[|kept|..];
    WithScoreConcat(kept, ranked[|kept|..], v);
    SortStable(board + [e], v);
    WithScoreConcat(board, [e], v);
    assert WithScore([e], v) == (if e.score == v then [e] else []) + WithScore([e][1..], v);
    var a, b := WithScore(kept, v), WithScore(ranked[|kept|..], v);
    assert (a + b)[..|a|] == a;
  }

  /** Entries scoring at least `v` never outnumber the board. */
  lemma {:induction false} CountAtLeastBound(s: seq<Entry>, v: int)
    ensures CountAtLeast(s, v) <= |s|
  {
    if s != [] {
      CountAtLeastBound(s[1..], v);
    }
  }

  /**
   * The new entry ranks right after every old entry scoring at least as much:
   * it survives at that rank when fewer than ten of them exist, and otherwise
   * the saved board is the old board's own top ten.
   */
  lemma {:induction false} NewEntryRank(board: seq<Entry>, e: Entry)
    ensures |SortByScoreDesc(board)| == |board|
    ensures CountAtLeast(board, e.score) <= |board|
    ensures var k, r := CountAtLeast(board, e.score), SaveHighscore(board, e);
      && (k < Capacity ==> k < |r| && r[k] == e && r[..k] == SortByScoreDesc(board)[..k])
      && (k >= Capacity ==> r == SortByScoreDesc(board)[..Capacity])
  {
    var sorted := SortByScoreDesc(board);
    SortSorted(board);
    CountAtLeastBound(board, e.score);
    SortCount(board, e.score);
    InsertPosition(sorted, e);
    SaveIsInsert(board, e);
    TakeAroundInsertion(sorted, e, CountAtLeast(board, e.score), Min(Capacity, |board| + 1));
  }

  /** The saved board is the old board, sorted, with the new entry inserted, cut to ten. */
  lemma SaveIsInsert(board: seq<Entry>, e: Entry)
    ensures |Insert(SortByScoreDesc(board), e)| == |board| + 1
    ensures SaveHighscore(board, e) == Insert(SortByScoreDesc(board), e)[..Min(Capacity, |board| + 1)]
  {
    SortSorted(board);
    InsertSorted(SortByScoreDesc(board), e);
    assert (board + [e])[..|board|] == board;
  }

  /** The first `n` items of `s` with `e` placed at index `k`. */
  lemma TakeAroundInsertion<T>(s: seq<T>, e: T, k: nat, n: nat)
    requires k <= |s| && n <= |s| + 1
    ensures var r := (s[..k] + [e] + s[k..])[..n];
      && (k < n ==> r[k] == e && r[..k] == s[..k])
      && (k >= n ==> r == s[..n])
  {
  }

  /** One line of the listing `pretty_highscores` prints. */
  datatype Line = Header | Row(rank: nat, entry: Entry)

  datatype Listing = NoHighScores | Lines(lines: seq<Line>)

  /** `pretty_highscores` over a given board: a header, then the entries numbered from 1 in board order. */
  method PrettyHighscores(scores: seq<Entry>) returns (listing: Listing)
    ensures scores == [] <==> listing == NoHighScores
    ensures listing.Lines? ==>
      && |listing.lines| == |scores| + 1
      && listing.lines[0] == Header
      && forall i :: 0 <= i < |scores| ==> listing.lines[i + 1] == Row(i + 1, scores[i])
  {
    if scores == [] {
      return NoHighScores;
    }
    var lines := [Header];
    for i := 0 to |scores|
      invariant |lines| == i + 1 && lines[0] == Header
      invariant forall j :: 0 <= j < i ==> lines[j + 1] == Row(j + 1, scores[j])
    {
      lines := lines + [Row(i + 1, scores[i])];
    }
    listing := Lines(lines);
  }
}
