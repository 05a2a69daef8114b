/**
 * The ballot-dictionary tabulator (v2-ballot-dictionary_based/rcv.py): the
 * same rules as the list tabulator, over a tally that maps each distinct
 * ballot to the number of voters who cast it.  Ballots that become equal
 * after a step are merged by adding their counts, and only candidates that
 * are somebody's first choice take part in a round's count.
 */
module RcvDict {
  import opened Collections
  import opened Ballots
  import opened Elimination

  /** Each distinct ballot with its number of voters. */
  type Tally = Dict<Ballot, nat>

  /** Every token on some ballot of the tally. */
  function BallotTokens(t: Tally): set<Token>
  {
    Tokens(Keys(t))
  }

  // ---------------------------------------------------------------------
  // What each step computes

  /** Each ballot truncated at its first double undervote, with its count. */
  function DoubleUndervotePairs(t: Tally): seq<(Ballot, nat)>
  {
    seq(|t|, i requires 0 <= i < |t| => (BeforeDoubleUndervote(t[i].0), t[i].1))
  }

  function DoubleUndervotesDeleted(t: Tally): Tally
  {
    Accumulate(DoubleUndervotePairs(t))
  }

  /** Each ballot with `name` deleted, with its count. */
  function NamePairs(t: Tally, name: Token, deleteFollowing: bool): seq<(Ballot, nat)>
  {
    seq(|t|, i requires 0 <= i < |t| => (Stripped(t[i].0, name, deleteFollowing), t[i].1))
  }

  function NameDeleted(t: Tally, name: Token, deleteFollowing: bool): Tally
  {
    Accumulate(NamePairs(t, name, deleteFollowing))
  }

  function UndervotesDeleted(t: Tally): Tally
  {
    NameDeleted(DoubleUndervotesDeleted(t), Undervote, false)
  }

  function OvervotesDeleted(t: Tally): Tally
  {
    NameDeleted(t, Overvote, true)
  }

  function Cleaned(t: Tally): Tally
  {
    UndervotesDeleted(OvervotesDeleted(t))
  }

  /** The merge steps of count_first_choices: each non-empty ballot's first
      choice with the ballot's count. */
  function FirstChoicePairs(t: Tally): seq<(Token, nat)>
  {
    if |t| == 0 then []
    else
      var b := t[|t| - 1];
      FirstChoicePairs(t[..|t| - 1]) + (if |b.0| > 0 then [(b.0[0], b.1)] else [])
  }

  function FirstChoiceCounts(t: Tally): Counts
  {
    Accumulate(FirstChoicePairs(t))
  }

  /** One round of rcv_round on the tally `t`. */
  function RoundOf(t: Tally, tieBreaker: seq<Token>): Result<Outcome<Tally>>
  {
    var d := FirstChoiceCounts(t);
    match Decide(d, tieBreaker)
    case Err(f) => Err(f)
    case Ok(Elect(w)) => Ok(Winner(w, d))
    case Ok(Eliminate(e)) => Ok(Eliminated(d, e, NameDeleted(t, e, false)))
  }

  /** rcv_winner: rounds until one elects; between rounds the eliminated
      candidate is deleted once more from the returned tally. */
  function WinnerOf(t: Tally, tieBreaker: seq<Token>): Result<Token>
    decreases |BallotTokens(t)|
  {
    match RoundOf(t, tieBreaker)
    case Err(f) => Err(f)
    case Ok(Winner(w, _)) => Ok(w)
    case Ok(Eliminated(_, e, rest)) =>
      RoundShrinks(t, tieBreaker);
      WinnerOf(NameDeleted(rest, e, false), tieBreaker)
  }

  // ---------------------------------------------------------------------
  // Independent counts to compare with

  /** The candidates that are the first choice of some ballot. */
  function FirstChoices(t: Tally): set<Token>
  {
    if |t| == 0 then {}
    else
      var b := t[|t| - 1];
      FirstChoices(t[..|t| - 1]) + (if |b.0| > 0 then {b.0[0]} else {})
  }

  /** Number of voters whose first choice is `c`. */
  function VotesFor(t: Tally, c: Token): nat
  {
    if |t| == 0 then 0
    else
      var b := t[|t| - 1];
      VotesFor(t[..|t| - 1], c) + (if |b.0| > 0 && b.0[0] == c then b.1 else 0)
  }

  /** Number of voters whose ballot is not empty. */
  function NonEmptyTotal(t: Tally): nat
  {
    if |t| == 0 then 0
    else
      var b := t[|t| - 1];
      NonEmptyTotal(t[..|t| - 1]) + (if |b.0| > 0 then b.1 else 0)
  }

  // ---------------------------------------------------------------------
  // The operations

  /** delete_double_undervotes */
  method DeleteDoubleUndervotes(tally: Tally) returns (newTally: Tally)
    ensures newTally == DoubleUndervotesDeleted(tally)
  {
    ghost var ps := DoubleUndervotePairs(tally);
    newTally := [];
    for j := 0 to |tally|
      invariant newTally == Accumulate(ps[..j])
    {
      var (ballot, ballotTally) := tally[j];
      var doubleUvAt := FindDoubleUndervote(ballot);
      var newBallot := ballot[..doubleUvAt];
      AccumulatePrefix(ps, j);
      newTally := AddTo(newTally, newBallot, ballotTally);
    }
    assert ps[..|tally|] == ps;
  }

  /** delete_name */
  method DeleteName(tally: Tally, name: Token, deleteFollowing: bool) returns (newTally: Tally)
    ensures newTally == NameDeleted(tally, name, deleteFollowing)
  {
    ghost var ps := NamePairs(tally, name, deleteFollowing);
    newTally := [];
    for j := 0 to |tally|
      invariant newTally == Accumulate(ps[..j])
    {
      var (ballot, ballotTally) := tally[j];
      var newBallot := StripName(ballot, name, deleteFollowing);
      AccumulatePrefix(ps, j);
      newTally := AddTo(newTally, newBallot, ballotTally);
    }
    assert ps[..|tally|] == ps;
  }

  /** delete_undervotes */
  method DeleteUndervotes(tally: Tally) returns (newTally: Tally)
    ensures newTally == UndervotesDeleted(tally)
  {
    var t1 := DeleteDoubleUndervotes(tally);
    newTally := DeleteName(t1, Undervote, false);
  }

  /** delete_overvotes */
  method DeleteOvervotes(tally: Tally) returns (newTally: Tally)
    ensures newTally == OvervotesDeleted(tally)
  {
    newTally := DeleteName(tally, Overvote, true);
  }

  /** clean */
  method Clean(tally: Tally) returns (newTally: Tally)
    ensures newTally == Cleaned(tally)
  {
    var t1 := DeleteOvervotes(tally);
    newTally := DeleteUndervotes(t1);
  }

  /** count_first_choices */
  method CountFirstChoices(tally: Tally) returns (d: Counts)
    ensures d == FirstChoiceCounts(tally)
  {
    d := [];
    for j := 0 to |tally|
      invariant d == FirstChoiceCounts(tally[..j])
    {
      var (ballot, count) := tally[j];
      CountStep(tally, j);
      if |ballot| > 0 {
        var firstChoice := ballot[0];
        if HasKey(d, firstChoice) {
          AddToPut(d, firstChoice, count, count + Get(d, firstChoice));
          d := Put(d, firstChoice, count + Get(d, firstChoice));
        } else {
          AddToPut(d, firstChoice, count, count);
          d := Put(d, firstChoice, count);
        }
      }
    }
    assert tally[..|tally|] == tally;
  }

  /** Counting one more ballot adds its count to its first choice. */
  lemma CountStep(t: Tally, j: nat)
    requires j < |t|
    ensures FirstChoiceCounts(t[..j + 1]) ==
      if |t[j].0| > 0 then AddTo(FirstChoiceCounts(t[..j]), t[j].0[0], t[j].1)
      else FirstChoiceCounts(t[..j])
  {
    assert t[..j + 1][..j] == t[..j];
    var ps := FirstChoicePairs(t[..j]);
    if |t[j].0| > 0 {
      assert FirstChoicePairs(t[..j + 1]) == ps + [(t[j].0[0], t[j].1)];
      AccumulateSnoc(ps, (t[j].0[0], t[j].1));
    } else {
      assert FirstChoicePairs(t[..j + 1]) == ps + [];
      assert ps + [] == ps;
    }
  }

  /** rcv_round */
  method RcvRound(tally: Tally, tieBreaker: seq<Token>) returns (r: Result<Outcome<Tally>>)
    ensures r == RoundOf(tally, tieBreaker)
  {
    var d := CountFirstChoices(tally);
    if |d| == 0 {
      return Err(AllCandidatesEliminated);
    }
    if |d| == 1 {
      return Ok(Winner(d[0].0, d));
    }
    var totalFirstChoices := Total(d);
    var at := FindHolderOfAll(d, totalFirstChoices);
    if at < |d| {
      return Ok(Winner(d[at].0, d));
    }
    var e := d[WeakestAt(d, tieBreaker)].0;
    var LL := DeleteName(tally, e, false);
    return Ok(Eliminated(d, e, LL));
  }

  /** rcv_winner, without its printing */
  method RcvWinner(tally0: Tally, tieBreaker: seq<Token>) returns (r: Result<Token>)
    ensures r == WinnerOf(tally0, tieBreaker)
  {
    var tally := tally0;
    while true
      invariant WinnerOf(tally, tieBreaker) == WinnerOf(tally0, tieBreaker)
      decreases |BallotTokens(tally)|
    {
      var outcome := RcvRound(tally, tieBreaker);
      if outcome.Err? {
        return Err(outcome.error);
      }
      if outcome.value.Winner? {
        return Ok(outcome.value.winner);
      }
      RoundShrinks(tally, tieBreaker);
      tally := DeleteName(outcome.value.rest, outcome.value.eliminated, false);
    }
  }

  // ---------------------------------------------------------------------
  // Properties of the merges

  /** Tokens of a merged tally are the tokens of the ballots merged. */
  lemma MergedTokens(ps: seq<(Ballot, nat)>)
    ensures Tokens(Keys(Accumulate(ps))) == Tokens(Keys(ps))
  {
    AccumulateSpec(ps);
    var r := Accumulate(ps);
    forall x ensures x in Tokens(Keys(r)) <==> x in Tokens(Keys(ps)) {
      TokensIff(Keys(r), x);
      TokensIff(Keys(ps), x);
      if x in Tokens(Keys(r)) {
        var i :| 0 <= i < |Keys(r)| && x in Keys(r)[i];
        assert HasKey(r, Keys(r)[i]);
        var j := IndexOf(Keys(ps), Keys(r)[i]);
        assert x in Keys(ps)[j];
      }
      if x in Tokens(Keys(ps)) {
        var i :| 0 <= i < |Keys(ps)| && x in Keys(ps)[i];
        assert HasKey(r, Keys(ps)[i]);
        var j := IndexOf(Keys(r), Keys(ps)[i]);
        assert x in Keys(r)[j];
      }
    }
  }

  lemma {:induction false} NamePairsTotal(t: Tally, name: Token, deleteFollowing: bool)
    ensures Total(NamePairs(t, name, deleteFollowing)) == Total(t)
    decreases |t|
  {
    if |t| > 0 {
      assert NamePairs(t, name, deleteFollowing)[..|t| - 1] == NamePairs(t[..|t| - 1], name, deleteFollowing);
      NamePairsTotal(t[..|t| - 1], name, deleteFollowing);
    }
  }

  lemma {:induction false} DoubleUndervotePairsTotal(t: Tally)
    ensures Total(DoubleUndervotePairs(t)) == Total(t)
    decreases |t|
  {
    if |t| > 0 {
      assert DoubleUndervotePairs(t)[..|t| - 1] == DoubleUndervotePairs(t[..|t| - 1]);
      DoubleUndervotePairsTotal(t[..|t| - 1]);
    }
  }

  /** The keys of the merge steps of delete_name are the deleted ballots. */
  lemma NamePairsKeys(t: Tally, name: Token, deleteFollowing: bool)
    ensures Keys(NamePairs(t, name, deleteFollowing)) ==
      seq(|t|, i requires 0 <= i < |t| => Stripped(Keys(t)[i], name, deleteFollowing))
    ensures forall b :: b in Keys(NamePairs(t, name, deleteFollowing)) <==>
      exists i :: 0 <= i < |t| && Stripped(t[i].0, name, deleteFollowing) == b
  {
    var ps := NamePairs(t, name, deleteFollowing);
    forall b ensures b in Keys(ps) <==> exists i :: 0 <= i < |t| && Stripped(t[i].0, name, deleteFollowing) == b {
      if b in Keys(ps) {
        var i := IndexOf(Keys(ps), b);
        assert ps[i].0 == b;
      }
      if exists i :: 0 <= i < |t| && Stripped(t[i].0, name, deleteFollowing) == b {
        var i :| 0 <= i < |t| && Stripped(t[i].0, name, deleteFollowing) == b;
        assert Keys(ps)[i] == b;
      }
    }
  }

  /** delete_name on a tally: the result is a dict, no voter is lost or
      added, `name` is on no ballot, no token appears that was not there,
      and plain removal keeps every other token. */
  lemma NameDeletedSpec(t: Tally, name: Token, deleteFollowing: bool)
    ensures DistinctKeys(NameDeleted(t, name, deleteFollowing))
    ensures Total(NameDeleted(t, name, deleteFollowing)) == Total(t)
    ensures name !in BallotTokens(NameDeleted(t, name, deleteFollowing))
    ensures BallotTokens(NameDeleted(t, name, deleteFollowing)) <= BallotTokens(t) - {name}
    ensures !deleteFollowing ==> BallotTokens(NameDeleted(t, name, deleteFollowing)) == BallotTokens(t) - {name}
  {
    var ps := NamePairs(t, name, deleteFollowing);
    AccumulateSpec(ps);
    NamePairsTotal(t, name, deleteFollowing);
    MergedTokens(ps);
    NamePairsKeys(t, name, deleteFollowing);
    StrippedTokens(Keys(t), Keys(ps), name, deleteFollowing);
  }

  /** The ballots of delete_name's result are the deleted forms of the old
      ones, each counted with the sum of the counts that became it; a ballot
      without `name` keeps its key and at least its count; and a dict without
      `name` anywhere is returned unchanged. */
  lemma NameDeletedMerges(t: Tally, name: Token, deleteFollowing: bool)
    ensures forall b :: HasKey(NameDeleted(t, name, deleteFollowing), b) <==>
      exists i :: 0 <= i < |t| && Stripped(t[i].0, name, deleteFollowing) == b
    ensures forall b :: HasKey(NameDeleted(t, name, deleteFollowing), b) ==>
      Get(NameDeleted(t, name, deleteFollowing), b) == SumFor(NamePairs(t, name, deleteFollowing), b)
    ensures forall i :: 0 <= i < |t| && name !in t[i].0 ==>
      HasKey(NameDeleted(t, name, deleteFollowing), t[i].0) &&
      Get(NameDeleted(t, name, deleteFollowing), t[i].0) >= t[i].1
    ensures DistinctKeys(t) && name !in BallotTokens(t) ==> NameDeleted(t, name, deleteFollowing) == t
  {
    var ps := NamePairs(t, name, deleteFollowing);
    var r := Accumulate(ps);
    AccumulateSpec(ps);
    NamePairsKeys(t, name, deleteFollowing);
    forall i | 0 <= i < |t| && name !in t[i].0
      ensures HasKey(r, t[i].0) && Get(r, t[i].0) >= t[i].1
    {
      assert Keys(ps)[i] == t[i].0;
      SumForAtLeast(ps, i);
    }
    if DistinctKeys(t) && name !in BallotTokens(t) {
      forall i | 0 <= i < |t| ensures ps[i] == t[i] {
        TokensIff(Keys(t), name);
        assert Keys(t)[i] == t[i].0;
      }
      assert ps == t;
      AccumulateDistinct(t);
    }
  }

  /** The count merged into a key is at least the count of each pair that
      carries it. */
  lemma {:induction false} SumForAtLeast<K>(ps: seq<(K, nat)>, i: nat)
    requires i < |ps|
    ensures SumFor(ps, ps[i].0) >= ps[i].1
    decreases |ps|
  {
    if i < |ps| - 1 {
      SumForAtLeast(ps[..|ps| - 1], i);
    }
  }

  lemma DoubleUndervotePairsKeys(t: Tally)
    ensures forall b :: b in Keys(DoubleUndervotePairs(t)) <==>
      exists i :: 0 <= i < |t| && BeforeDoubleUndervote(t[i].0) == b
  {
    var ps := DoubleUndervotePairs(t);
    forall b ensures b in Keys(ps) <==> exists i :: 0 <= i < |t| && BeforeDoubleUndervote(t[i].0) == b {
      if b in Keys(ps) {
        var i := IndexOf(Keys(ps), b);
        assert ps[i].0 == b;
      }
      if exists i :: 0 <= i < |t| && BeforeDoubleUndervote(t[i].0) == b {
        var i :| 0 <= i < |t| && BeforeDoubleUndervote(t[i].0) == b;
        assert Keys(ps)[i] == b;
      }
    }
  }

  /** delete_double_undervotes on a tally: the result is a dict, no voter is
      lost or added, its ballots are the truncated old ones, none of them
      holds two adjacent undervotes, and no token appears that was not
      there. */
  lemma DoubleUndervotesDeletedSpec(t: Tally)
    ensures DistinctKeys(DoubleUndervotesDeleted(t))
    ensures Total(DoubleUndervotesDeleted(t)) == Total(t)
    ensures forall b :: HasKey(DoubleUndervotesDeleted(t), b) <==>
      exists i :: 0 <= i < |t| && BeforeDoubleUndervote(t[i].0) == b
    ensures forall b :: HasKey(DoubleUndervotesDeleted(t), b) ==>
      forall j :: 0 <= j < |b| - 1 ==> !(b[j] == Undervote && b[j + 1] == Undervote)
    ensures BallotTokens(DoubleUndervotesDeleted(t)) <= BallotTokens(t)
  {
    var ps := DoubleUndervotePairs(t);
    AccumulateTotal(ps);
    DoubleUndervotePairsTotal(t);
    DoubleUndervoteKeysIff(t);
    DoubleUndervoteKeysClean(t);
    DoubleUndervoteTokens(t);
  }

  lemma DoubleUndervoteKeysIff(t: Tally)
    ensures DistinctKeys(DoubleUndervotesDeleted(t))
    ensures forall b :: HasKey(DoubleUndervotesDeleted(t), b) <==>
      exists i :: 0 <= i < |t| && BeforeDoubleUndervote(t[i].0) == b
  {
    AccumulateKeys(DoubleUndervotePairs(t));
    DoubleUndervotePairsKeys(t);
  }

  lemma DoubleUndervoteKeysClean(t: Tally)
    ensures forall b :: HasKey(DoubleUndervotesDeleted(t), b) ==>
      forall j :: 0 <= j < |b| - 1 ==> !(b[j] == Undervote && b[j + 1] == Undervote)
  {
    var ps := DoubleUndervotePairs(t);
    AccumulateSpec(ps);
    forall b | b in Keys(ps)
      ensures forall j :: 0 <= j < |b| - 1 ==> !(b[j] == Undervote && b[j + 1] == Undervote)
    {
      var i := IndexOf(Keys(ps), b);
      BeforeDoubleUndervoteSpec(t[i].0);
    }
  }

  lemma DoubleUndervoteTokens(t: Tally)
    ensures BallotTokens(DoubleUndervotesDeleted(t)) <= BallotTokens(t)
  {
    var ps := DoubleUndervotePairs(t);
    MergedTokens(ps);
    forall x | x in Tokens(Keys(ps)) ensures x in BallotTokens(t) {
      TokensIff(Keys(ps), x);
      TokensIff(Keys(t), x);
      var i :| 0 <= i < |Keys(ps)| && x in Keys(ps)[i];
      BeforeDoubleUndervoteSpec(t[i].0);
      assert x in Keys(t)[i];
    }
  }

  /** delete_undervotes on a tally: no undervote is left on any ballot, no
      voter is lost or added, and no token appears that was not there. */
  lemma UndervotesDeletedSpec(t: Tally)
    ensures DistinctKeys(UndervotesDeleted(t))
    ensures Total(UndervotesDeleted(t)) == Total(t)
    ensures Undervote !in BallotTokens(UndervotesDeleted(t))
    ensures BallotTokens(UndervotesDeleted(t)) <= BallotTokens(t) - {Undervote}
  {
    DoubleUndervotesDeletedSpec(t);
    NameDeletedSpec(DoubleUndervotesDeleted(t), Undervote, false);
  }

  /** After clean no ballot holds an overvote or an undervote, no voter is
      lost or added, no token appears that was not there, and cleaning again
      changes nothing. */
  lemma CleanedSpec(t: Tally)
    ensures DistinctKeys(Cleaned(t))
    ensures Total(Cleaned(t)) == Total(t)
    ensures Overvote !in BallotTokens(Cleaned(t)) && Undervote !in BallotTokens(Cleaned(t))
    ensures BallotTokens(Cleaned(t)) <= BallotTokens(t)
    ensures Cleaned(Cleaned(t)) == Cleaned(t)
  {
    var t1 := OvervotesDeleted(t);
    NameDeletedSpec(t, Overvote, true);
    UndervotesDeletedSpec(t1);
    CleanedIdempotent(t);
  }

  /** Cleaning a clean dict: each step meets no marker and no double
      undervote, so nothing changes. */
  lemma CleanedIdempotent(t: Tally)
    requires DistinctKeys(Cleaned(t))
    requires Overvote !in BallotTokens(Cleaned(t)) && Undervote !in BallotTokens(Cleaned(t))
    ensures Cleaned(Cleaned(t)) == Cleaned(t)
  {
    var c := Cleaned(t);
    NameDeletedMerges(c, Overvote, true);
    assert OvervotesDeleted(c) == c;
    DoubleUndervotesUnchanged(c);
    NameDeletedMerges(c, Undervote, false);
  }

  /** A dict in which no ballot holds an undervote is left as it is by
      delete_double_undervotes. */
  lemma DoubleUndervotesUnchanged(t: Tally)
    requires DistinctKeys(t) && Undervote !in BallotTokens(t)
    ensures DoubleUndervotesDeleted(t) == t
  {
    var ps := DoubleUndervotePairs(t);
    forall i | 0 <= i < |t| ensures ps[i] == t[i] {
      TokensIff(Keys(t), Undervote);
      assert Keys(t)[i] == t[i].0;
      assert Undervote !in t[i].0;
      assert FirstDoubleUndervote(t[i].0) == |t[i].0|;
      assert t[i].0[..|t[i].0|] == t[i].0;
    }
    assert ps == t;
    AccumulateDistinct(t);
  }

  // ---------------------------------------------------------------------
  // Properties of the counts

  lemma {:induction false} FirstChoicePairsKeys(t: Tally, c: Token)
    ensures c in Keys(FirstChoicePairs(t)) <==> c in FirstChoices(t)
    decreases |t|
  {
    if |t| > 0 {
      var front, b := t[..|t| - 1], t[|t| - 1];
      FirstChoicePairsKeys(front, c);
      var tail: seq<(Token, nat)> := if |b.0| > 0 then [(b.0[0], b.1)] else [];
      assert FirstChoicePairs(t) == FirstChoicePairs(front) + tail;
      KeysConcat(FirstChoicePairs(front), tail);
      if |b.0| > 0 {
        assert Keys(tail)[0] == b.0[0];
      }
    }
  }

  lemma {:induction false} FirstChoicePairsSum(t: Tally, c: Token)
    ensures SumFor(FirstChoicePairs(t), c) == VotesFor(t, c)
    decreases |t|
  {
    if |t| > 0 {
      var front, b := t[..|t| - 1], t[|t| - 1];
      FirstChoicePairsSum(front, c);
      var tail: seq<(Token, nat)> := if |b.0| > 0 then [(b.0[0], b.1)] else [];
      SumForAppend(FirstChoicePairs(front), tail, c);
      assert |b.0| > 0 ==> tail[..0] == [];
    }
  }

  lemma {:induction false} FirstChoicePairsTotal(t: Tally)
    ensures Total(FirstChoicePairs(t)) == NonEmptyTotal(t)
    decreases |t|
  {
    if |t| > 0 {
      var front, b := t[..|t| - 1], t[|t| - 1];
      FirstChoicePairsTotal(front);
      var tail: seq<(Token, nat)> := if |b.0| > 0 then [(b.0[0], b.1)] else [];
      TotalConcat(FirstChoicePairs(front), tail);
      assert |b.0| > 0 ==> tail[..0] == [];
    }
  }

  /** Membership in FirstChoices, spelled out. */
  lemma {:induction false} FirstChoicesIff(t: Tally, c: Token)
    ensures c in FirstChoices(t) <==> exists i :: 0 <= i < |t| && |t[i].0| > 0 && t[i].0[0] == c
    decreases |t|
  {
    if |t| > 0 {
      var front := t[..|t| - 1];
      FirstChoicesIff(front, c);
      if exists i :: 0 <= i < |front| && |front[i].0| > 0 && front[i].0[0] == c {
        var i :| 0 <= i < |front| && |front[i].0| > 0 && front[i].0[0] == c;
        assert t[i] == front[i];
      }
      if exists i :: 0 <= i < |t| && |t[i].0| > 0 && t[i].0[0] == c {
        var i :| 0 <= i < |t| && |t[i].0| > 0 && t[i].0[0] == c;
        if i < |t| - 1 {
          assert front[i] == t[i];
        }
      }
    }
  }

  /** Every first choice is a token on the ballots. */
  lemma FirstChoicesAreTokens(t: Tally)
    ensures FirstChoices(t) <= BallotTokens(t)
  {
    forall c | c in FirstChoices(t) ensures c in BallotTokens(t) {
      FirstChoicesIff(t, c);
      var i :| 0 <= i < |t| && |t[i].0| > 0 && t[i].0[0] == c;
      TokensIff(Keys(t), c);
      assert c in Keys(t)[i];
    }
  }

  /** count_first_choices on a tally has an entry exactly for every first
      choice; each entry is the number of voters with that first choice; so
      the entries add up to the voters with a non-empty ballot. */
  lemma FirstChoiceCountsSpec(t: Tally)
    ensures DistinctKeys(FirstChoiceCounts(t))
    ensures forall c :: HasKey(FirstChoiceCounts(t), c) <==> c in FirstChoices(t)
    ensures forall c :: c in FirstChoices(t) ==> Get(FirstChoiceCounts(t), c) == VotesFor(t, c)
    ensures Total(FirstChoiceCounts(t)) == NonEmptyTotal(t)
    ensures |FirstChoiceCounts(t)| == |FirstChoices(t)|
  {
    FirstChoiceCountsKeys(t);
    FirstChoiceCountsVotes(t);
    AccumulateSpec(FirstChoicePairs(t));
    FirstChoicePairsTotal(t);
    FirstChoiceCountsCard(t);
  }

  lemma FirstChoiceCountsKeys(t: Tally)
    ensures DistinctKeys(FirstChoiceCounts(t))
    ensures forall c :: HasKey(FirstChoiceCounts(t), c) <==> c in FirstChoices(t)
  {
    var d := FirstChoiceCounts(t);
    AccumulateSpec(FirstChoicePairs(t));
    forall c ensures HasKey(d, c) <==> c in FirstChoices(t) {
      FirstChoicePairsKeys(t, c);
    }
  }

  lemma FirstChoiceCountsVotes(t: Tally)
    ensures forall c :: c in FirstChoices(t) ==>
      HasKey(FirstChoiceCounts(t), c) && Get(FirstChoiceCounts(t), c) == VotesFor(t, c)
  {
    var d := FirstChoiceCounts(t);
    AccumulateSpec(FirstChoicePairs(t));
    forall c | c in FirstChoices(t) ensures HasKey(d, c) && Get(d, c) == VotesFor(t, c) {
      FirstChoicePairsKeys(t, c);
      FirstChoicePairsSum(t, c);
    }
  }

  lemma FirstChoiceCountsCard(t: Tally)
    ensures |FirstChoiceCounts(t)| == |FirstChoices(t)|
  {
    var d := FirstChoiceCounts(t);
    FirstChoiceCountsKeys(t);
    DistinctKeysCard(d);
    assert (set k | k in Keys(d)) == FirstChoices(t);
  }

  // ---------------------------------------------------------------------
  // Properties of the rounds

  /** Position of each candidate in the first-choice count, and the count
      found there. */
  lemma FirstChoiceEntries(t: Tally)
    ensures forall i :: 0 <= i < |FirstChoiceCounts(t)| ==>
      FirstChoiceCounts(t)[i].0 in FirstChoices(t) &&
      FirstChoiceCounts(t)[i].1 == VotesFor(t, FirstChoiceCounts(t)[i].0)
    ensures forall c :: c in FirstChoices(t) ==>
      IndexOf(Keys(FirstChoiceCounts(t)), c) < |FirstChoiceCounts(t)| &&
      FirstChoiceCounts(t)[IndexOf(Keys(FirstChoiceCounts(t)), c)].0 == c &&
      FirstChoiceCounts(t)[IndexOf(Keys(FirstChoiceCounts(t)), c)].1 == VotesFor(t, c)
  {
    var d := FirstChoiceCounts(t);
    FirstChoiceCountsSpec(t);
    forall i | 0 <= i < |d| ensures d[i].0 in FirstChoices(t) && d[i].1 == VotesFor(t, d[i].0) {
      GetAt(d, i);
    }
    forall c | c in FirstChoices(t)
      ensures IndexOf(Keys(d), c) < |d| && d[IndexOf(Keys(d), c)].0 == c
    {
      assert Keys(d)[IndexOf(Keys(d), c)] == c;
    }
  }

  /** rcv_round fails, with the "all candidates eliminated" assertion,
      exactly when no ballot has a first choice. */
  lemma RoundOfFails(t: Tally, tieBreaker: seq<Token>)
    ensures RoundOf(t, tieBreaker).Err? <==> FirstChoices(t) == {}
    ensures RoundOf(t, tieBreaker).Err? ==> RoundOf(t, tieBreaker).error == AllCandidatesEliminated
  {
    DecideSpec(FirstChoiceCounts(t), tieBreaker);
    FirstChoiceCountsSpec(t);
  }

  /** rcv_round elects exactly when one candidate is the first choice of
      some ballot, or one candidate is the first choice of every voter with
      a non-empty ballot, and it elects a first choice that meets one of
      these. */
  lemma RoundOfElects(t: Tally, tieBreaker: seq<Token>)
    ensures RoundOf(t, tieBreaker).Ok? && RoundOf(t, tieBreaker).value.Winner? <==>
      |FirstChoices(t)| == 1 || exists c :: c in FirstChoices(t) && VotesFor(t, c) == NonEmptyTotal(t)
    ensures RoundOf(t, tieBreaker).Ok? && RoundOf(t, tieBreaker).value.Winner? ==>
      var w := RoundOf(t, tieBreaker).value.winner;
      w in FirstChoices(t) && (|FirstChoices(t)| == 1 || VotesFor(t, w) == NonEmptyTotal(t))
  {
    var d := FirstChoiceCounts(t);
    DecideSpec(d, tieBreaker);
    FirstChoiceCountsSpec(t);
    FirstChoiceEntries(t);
    if exists c :: c in FirstChoices(t) && VotesFor(t, c) == NonEmptyTotal(t) {
      var c :| c in FirstChoices(t) && VotesFor(t, c) == NonEmptyTotal(t);
      assert HoldsAll(d, IndexOf(Keys(d), c));
    }
  }

  /** When rcv_round eliminates, at least two first choices are left and it
      takes one with the fewest votes, the largest tie-break index among
      those and the smallest name among those; the tally it returns is the
      tally without that candidate. */
  lemma RoundOfEliminates(t: Tally, tieBreaker: seq<Token>)
    requires RoundOf(t, tieBreaker).Ok? && RoundOf(t, tieBreaker).value.Eliminated?
    ensures var e := RoundOf(t, tieBreaker).value.eliminated;
      e in FirstChoices(t) && |FirstChoices(t)| >= 2 &&
      RoundOf(t, tieBreaker).value.rest == NameDeleted(t, e, false) &&
      forall c :: c in FirstChoices(t) ==>
        VotesFor(t, c) < NonEmptyTotal(t) &&
        VotesFor(t, e) <= VotesFor(t, c) &&
        (VotesFor(t, c) == VotesFor(t, e) ==>
           TieBreakerIndex(tieBreaker, c) <= TieBreakerIndex(tieBreaker, e)) &&
        (VotesFor(t, c) == VotesFor(t, e) &&
         TieBreakerIndex(tieBreaker, c) == TieBreakerIndex(tieBreaker, e) ==>
           c == e || StrLess(e, c))
  {
    var d := FirstChoiceCounts(t);
    DecideSpec(d, tieBreaker);
    FirstChoiceCountsSpec(t);
    FirstChoiceEntries(t);
    WeakestAtSpec(d, tieBreaker);
    forall c | c in FirstChoices(t) ensures VotesFor(t, c) < NonEmptyTotal(t) {
      var i := IndexOf(Keys(d), c);
      TotalAtLeast(d, i);
      assert !HoldsAll(d, i);
    }
  }

  /** An elimination removes a candidate that is on the ballots; the tally
      handed to the next round has exactly one candidate fewer and the same
      number of voters. */
  lemma RoundShrinks(t: Tally, tieBreaker: seq<Token>)
    requires RoundOf(t, tieBreaker).Ok? && RoundOf(t, tieBreaker).value.Eliminated?
    ensures var o := RoundOf(t, tieBreaker).value;
      var next := NameDeleted(o.rest, o.eliminated, false);
      o.eliminated in BallotTokens(t) && o.rest == NameDeleted(t, o.eliminated, false) &&
      BallotTokens(next) == BallotTokens(t) - {o.eliminated} &&
      |BallotTokens(next)| < |BallotTokens(t)| &&
      Total(next) == Total(t)
  {
    var o := RoundOf(t, tieBreaker).value;
    EliminatedOnBallots(t, tieBreaker);
    NameDeletedSpec(t, o.eliminated, false);
    NameDeletedSpec(o.rest, o.eliminated, false);
  }

  lemma EliminatedOnBallots(t: Tally, tieBreaker: seq<Token>)
    requires RoundOf(t, tieBreaker).Ok? && RoundOf(t, tieBreaker).value.Eliminated?
    ensures RoundOf(t, tieBreaker).value.eliminated in BallotTokens(t)
    ensures RoundOf(t, tieBreaker).value.rest == NameDeleted(t, RoundOf(t, tieBreaker).value.eliminated, false)
  {
    var d := FirstChoiceCounts(t);
    DecideLoserCounted(d, tieBreaker);
    assert HasKey(d, RoundOf(t, tieBreaker).value.eliminated);
    FirstChoiceCountsSpec(t);
    FirstChoicesAreTokens(t);
  }

  /** After an elimination some ballot still has a first choice. */
  lemma NextHasFirstChoice(t: Tally, tieBreaker: seq<Token>)
    requires RoundOf(t, tieBreaker).Ok? && RoundOf(t, tieBreaker).value.Eliminated?
    ensures var o := RoundOf(t, tieBreaker).value;
      FirstChoices(NameDeleted(o.rest, o.eliminated, false)) != {}
  {
    var o := RoundOf(t, tieBreaker).value;
    var e := o.eliminated;
    RoundOfEliminates(t, tieBreaker);
    assert FirstChoices(t) - {e} != {};
    var c :| c in FirstChoices(t) - {e};
    FirstSurvives(t, e, c);
    FirstSurvives(o.rest, e, c);
  }

  /** A first choice other than the deleted name is still a first choice. */
  lemma FirstSurvives(t: Tally, e: Token, c: Token)
    requires c in FirstChoices(t) && c != e
    ensures c in FirstChoices(NameDeleted(t, e, false))
  {
    FirstChoicesIff(t, c);
    var i :| 0 <= i < |t| && |t[i].0| > 0 && t[i].0[0] == c;
    var b := Stripped(t[i].0, e, false);
    StillFirst(t, i, e, c);
    var next := NameDeleted(t, e, false);
    var m := IndexOf(Keys(next), b);
    assert next[m].0 == b;
    FirstChoicesIff(next, c);
  }

  /** Deleting a name other than a ballot's first choice keeps that ballot's
      first choice, and the deleted ballot is a key of the result. */
  lemma StillFirst(t: Tally, i: nat, e: Token, c: Token)
    requires i < |t| && |t[i].0| > 0 && t[i].0[0] == c && c != e
    ensures var b := Stripped(t[i].0, e, false);
      |b| > 0 && b[0] == c && HasKey(NameDeleted(t, e, false), b)
  {
    if e in t[i].0 {
      WithoutKeepsFirst(t[i].0, e);
    }
    NameDeletedMerges(t, e, false);
  }

  /** rcv_winner fails exactly when no ballot has a first choice, and
      otherwise elects a candidate named on the ballots. */
  lemma {:induction false} WinnerOfSpec(t: Tally, tieBreaker: seq<Token>)
    ensures WinnerOf(t, tieBreaker).Err? <==> FirstChoices(t) == {}
    ensures WinnerOf(t, tieBreaker).Err? ==> WinnerOf(t, tieBreaker).error == AllCandidatesEliminated
    ensures WinnerOf(t, tieBreaker).Ok? ==> WinnerOf(t, tieBreaker).value in BallotTokens(t)
    decreases |BallotTokens(t)|
  {
    RoundOfFails(t, tieBreaker);
    RoundOfElects(t, tieBreaker);
    FirstChoicesAreTokens(t);
    var r := RoundOf(t, tieBreaker);
    if r.Ok? && r.value.Eliminated? {
      RoundShrinks(t, tieBreaker);
      NextHasFirstChoice(t, tieBreaker);
      var next := NameDeleted(r.value.rest, r.value.eliminated, false);
      WinnerOfSpec(next, tieBreaker);
    }
  }

  /** A contest run on a cleaned tally never elects a marker. */
  lemma CleanWinner(t: Tally, tieBreaker: seq<Token>)
    ensures WinnerOf(Cleaned(t), tieBreaker).Ok? ==>
      WinnerOf(Cleaned(t), tieBreaker).value in BallotTokens(t) &&
      WinnerOf(Cleaned(t), tieBreaker).value != Overvote &&
      WinnerOf(Cleaned(t), tieBreaker).value != Undervote
  {
    WinnerOfSpec(Cleaned(t), tieBreaker);
    CleanedSpec(t);
  }
}
