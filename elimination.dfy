/**
 * What rcv_round decides once the first choices are counted: the code from
 * the count check to the choice of the candidate to eliminate is the same in
 * both tabulators.
 */
module Elimination {
  import opened Collections
  import opened Ballots

  /** First-choice counts: a dict from choice to number of votes. */
  type Counts = Dict<Token, nat>

  datatype Decision = Elect(winner: Token) | Eliminate(loser: Token)

  /** The tuple rcv_round returns for one round: the winner and the counts,
      or the counts, the eliminated candidate and the ballots without it
      (`B` is the variant's ballot collection). */
  datatype Outcome<B> =
    | Winner(winner: Token, counts: Counts)
    | Eliminated(counts: Counts, eliminated: Token, rest: B)

  /** The entry of `E` for the choice at position `i` of `d`:
      (count, -tie-break index, name). */
  function Rank(d: Counts, tieBreaker: seq<Token>, i: nat): (int, int, Token)
    requires i < |d|
  {
    (d[i].1, -(TieBreakerIndex(tieBreaker, d[i].0) as int), d[i].0)
  }

  /** Python's order on such tuples: field by field, names by code point. */
  predicate RankLess(x: (int, int, Token), y: (int, int, Token))
  {
    x.0 < y.0 || (x.0 == y.0 && (x.1 < y.1 || (x.1 == y.1 && StrLess(x.2, y.2))))
  }

  lemma RankLessTransitive(x: (int, int, Token), y: (int, int, Token), z: (int, int, Token))
    requires RankLess(x, y) && RankLess(y, z)
    ensures RankLess(x, z)
  {
    if x.0 == y.0 == z.0 && x.1 == y.1 == z.1 {
      StrLessTransitive(x.2, y.2, z.2);
    }
  }

  /** Position in `d` of the entry that comes first in sorted(E). */
  function WeakestAt(d: Counts, tieBreaker: seq<Token>): (j: nat)
    requires |d| > 0
    ensures j < |d|
    decreases |d|
  {
    if |d| == 1 then 0
    else
      var j := WeakestAt(d[..|d| - 1], tieBreaker);
      if RankLess(Rank(d, tieBreaker, |d| - 1), Rank(d, tieBreaker, j)) then |d| - 1 else j
  }

  /** No entry sorts strictly before the one WeakestAt picks. */
  lemma {:induction false} WeakestAtIsLeast(d: Counts, tieBreaker: seq<Token>, i: nat)
    requires i < |d|
    ensures !RankLess(Rank(d, tieBreaker, i), Rank(d, tieBreaker, WeakestAt(d, tieBreaker)))
    decreases |d|
  {
    if |d| > 1 {
      var n := |d|;
      var front := d[..n - 1];
      var j := WeakestAt(front, tieBreaker);
      assert Rank(front, tieBreaker, j) == Rank(d, tieBreaker, j);
      if i < n - 1 {
        WeakestAtIsLeast(front, tieBreaker, i);
        assert Rank(front, tieBreaker, i) == Rank(d, tieBreaker, i);
        if RankLess(Rank(d, tieBreaker, n - 1), Rank(d, tieBreaker, j)) {
          if RankLess(Rank(d, tieBreaker, i), Rank(d, tieBreaker, n - 1)) {
            RankLessTransitive(Rank(d, tieBreaker, i), Rank(d, tieBreaker, n - 1), Rank(d, tieBreaker, j));
          }
        }
      } else if RankLess(Rank(d, tieBreaker, n - 1), Rank(d, tieBreaker, j)) {
        StrLessIrreflexive(d[n - 1].0);
      }
    } else {
      StrLessIrreflexive(d[0].0);
    }
  }

  /** The candidate sorted(E)[0] names, spelled out: it has the fewest votes;
      among those with as few it has the largest tie-break index; among
      those it has the smallest name. */
  lemma WeakestAtSpec(d: Counts, tieBreaker: seq<Token>)
    requires |d| > 0
    ensures var j := WeakestAt(d, tieBreaker);
      forall i :: 0 <= i < |d| ==>
        d[j].1 <= d[i].1 &&
        (d[i].1 == d[j].1 ==> TieBreakerIndex(tieBreaker, d[i].0) <= TieBreakerIndex(tieBreaker, d[j].0)) &&
        (d[i].1 == d[j].1 && TieBreakerIndex(tieBreaker, d[i].0) == TieBreakerIndex(tieBreaker, d[j].0) ==>
           d[i].0 == d[j].0 || StrLess(d[j].0, d[i].0))
  {
    var j := WeakestAt(d, tieBreaker);
    forall i | 0 <= i < |d|
      ensures d[j].1 <= d[i].1
      ensures d[i].1 == d[j].1 ==> TieBreakerIndex(tieBreaker, d[i].0) <= TieBreakerIndex(tieBreaker, d[j].0)
      ensures d[i].1 == d[j].1 && TieBreakerIndex(tieBreaker, d[i].0) == TieBreakerIndex(tieBreaker, d[j].0) ==>
           d[i].0 == d[j].0 || StrLess(d[j].0, d[i].0)
    {
      WeakestAtIsLeast(d, tieBreaker, i);
      if d[i].0 != d[j].0 {
        StrLessTotal(d[i].0, d[j].0);
      }
    }
  }

  /** In a dict the least entry is unique, so any position no entry sorts
      before is the one WeakestAt finds: the choice does not depend on the
      order of the scan. */
  lemma WeakestAtUnique(d: Counts, tieBreaker: seq<Token>, k: nat)
    requires DistinctKeys(d) && k < |d|
    requires forall i :: 0 <= i < |d| ==> !RankLess(Rank(d, tieBreaker, i), Rank(d, tieBreaker, k))
    ensures k == WeakestAt(d, tieBreaker)
  {
    var j := WeakestAt(d, tieBreaker);
    WeakestAtIsLeast(d, tieBreaker, k);
    if k != j {
      StrLessTotal(d[k].0, d[j].0);
    }
  }

  /** The decision of rcv_round: the AssertionError on an empty count, the
      single remaining choice, the first choice holding every vote, or else
      the candidate sorted(E)[0] names. */
  function Decide(d: Counts, tieBreaker: seq<Token>): (r: Result<Decision>)
  {
    if |d| == 0 then Err(AllCandidatesEliminated)
    else if |d| == 1 then Ok(Elect(d[0].0))
    else
      var at := IndexOf(Values(d), Total(d));
      if at < |d| then Ok(Elect(d[at].0))
      else Ok(Eliminate(d[WeakestAt(d, tieBreaker)].0))
  }

  /** Choice `i` holds every first-choice vote. */
  predicate HoldsAll(d: Counts, i: nat)
    requires i < |d|
  {
    d[i].1 == Total(d)
  }

  /** rcv_round fails exactly on an empty count; it elects exactly when one
      choice is left or some choice holds every vote (the first such in dict
      order); otherwise it eliminates the least choice under the sort key. */
  lemma DecideSpec(d: Counts, tieBreaker: seq<Token>)
    ensures Decide(d, tieBreaker).Err? <==> |d| == 0
    ensures Decide(d, tieBreaker).Err? ==> Decide(d, tieBreaker).error == AllCandidatesEliminated
    ensures Decide(d, tieBreaker).Ok? && Decide(d, tieBreaker).value.Elect? <==>
      |d| == 1 || exists i :: 0 <= i < |d| && HoldsAll(d, i)
    ensures |d| == 1 ==> Decide(d, tieBreaker) == Ok(Elect(d[0].0))
    ensures |d| > 1 && Decide(d, tieBreaker).Ok? && Decide(d, tieBreaker).value.Elect? ==>
      exists i :: 0 <= i < |d| && HoldsAll(d, i) && d[i].0 == Decide(d, tieBreaker).value.winner &&
        forall j :: 0 <= j < i ==> !HoldsAll(d, j)
    ensures Decide(d, tieBreaker).Ok? && Decide(d, tieBreaker).value.Eliminate? ==>
      |d| > 1 && WeakestAt(d, tieBreaker) < |d| &&
      Decide(d, tieBreaker).value.loser == d[WeakestAt(d, tieBreaker)].0
  {
    if |d| > 1 {
      var at := IndexOf(Values(d), Total(d));
      assert forall i :: 0 <= i < |d| ==> Values(d)[i] == d[i].1;
      if at < |d| {
        assert HoldsAll(d, at);
      } else {
        assert forall i :: 0 <= i < |d| ==> !HoldsAll(d, i);
      }
    }
  }

  /** The candidate a round eliminates has a first-choice count. */
  lemma DecideLoserCounted(d: Counts, tieBreaker: seq<Token>)
    requires Decide(d, tieBreaker).Ok? && Decide(d, tieBreaker).value.Eliminate?
    ensures HasKey(d, Decide(d, tieBreaker).value.loser)
  {
    DecideSpec(d, tieBreaker);
    var j := WeakestAt(d, tieBreaker);
    assert Keys(d)[j] == d[j].0;
  }

  /** A winner by full count with another choice left means every other
      choice has no first-choice vote. */
  lemma HoldsAllOthersZero(d: Counts, i: nat, j: nat)
    requires i < |d| && j < |d| && i != j && HoldsAll(d, i)
    ensures d[j].1 == 0
  {
    TotalTwo(d, i, j);
  }

  /** A single value never exceeds the total. */
  lemma {:induction false} TotalAtLeast(d: Counts, i: nat)
    requires i < |d|
    ensures d[i].1 <= Total(d)
    decreases |d|
  {
    if i < |d| - 1 {
      TotalAtLeast(d[..|d| - 1], i);
    }
  }

  /** Two distinct values together never exceed the total. */
  lemma {:induction false} TotalTwo(d: Counts, i: nat, j: nat)
    requires i < |d| && j < |d| && i != j
    ensures d[i].1 + d[j].1 <= Total(d)
    decreases |d|
  {
    var front := d[..|d| - 1];
    if i == |d| - 1 {
      TotalAtLeast(front, j);
    } else if j == |d| - 1 {
      TotalAtLeast(front, i);
    } else {
      TotalTwo(front, i, j);
    }
  }

  /** The winner-scan loop of rcv_round: `for choice in d: if d[choice] ==
      total_first_choices`. */
  method FindHolderOfAll(d: Counts, total: nat) returns (at: nat)
    ensures at == IndexOf(Values(d), total)
  {
    for i := 0 to |d|
      invariant forall j :: 0 <= j < i ==> Values(d)[j] != total
    {
      if d[i].1 == total {
        assert Values(d)[i] == total;
        return i;
      }
    }
    return |d|;
  }
}
