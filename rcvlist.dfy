/**
 * The list-of-ballots tabulator (rcv.py): a contest is a list of ballots,
 * cleaned of overvotes and undervotes, then decided round by round by
 * counting first choices and eliminating the weakest candidate.  Every
 * candidate seen anywhere on a ballot takes part in the count, with zero
 * first choices if need be.
 */
module RcvList {
  import opened Collections
  import opened Ballots
  import opened Elimination

  // ---------------------------------------------------------------------
  // What each step computes

  function DoubleUndervotesDeleted(L: seq<Ballot>): seq<Ballot>
  {
    seq(|L|, i requires 0 <= i < |L| => BeforeDoubleUndervote(L[i]))
  }

  function NameDeleted(L: seq<Ballot>, name: Token, deleteFollowing: bool): seq<Ballot>
  {
    seq(|L|, i requires 0 <= i < |L| => Stripped(L[i], name, deleteFollowing))
  }

  function UndervotesDeleted(L: seq<Ballot>): seq<Ballot>
  {
    NameDeleted(DoubleUndervotesDeleted(L), Undervote, false)
  }

  function OvervotesDeleted(L: seq<Ballot>): seq<Ballot>
  {
    NameDeleted(L, Overvote, true)
  }

  function Cleaned(L: seq<Ballot>): seq<Ballot>
  {
    UndervotesDeleted(OvervotesDeleted(L))
  }

  /** Every token of a ballot paired with `n`. */
  function Tagged(b: Ballot, n: nat): seq<(Token, nat)>
  {
    seq(|b|, i requires 0 <= i < |b| => (b[i], n))
  }

  /** The merge steps of choices_on_ballots: one per token shown. */
  function ChoicePairs(L: seq<Ballot>): seq<(Token, nat)>
  {
    if |L| == 0 then [] else ChoicePairs(L[..|L| - 1]) + Tagged(L[|L| - 1], 1)
  }

  /** The merge steps of count_first_choices for one ballot: a zero entry for
      each token, then one vote for its first choice. */
  function BallotFirstChoicePairs(b: Ballot): seq<(Token, nat)>
  {
    Tagged(b, 0) + (if |b| > 0 then [(b[0], 1)] else [])
  }

  function FirstChoicePairs(L: seq<Ballot>): seq<(Token, nat)>
  {
    if |L| == 0 then [] else FirstChoicePairs(L[..|L| - 1]) + BallotFirstChoicePairs(L[|L| - 1])
  }

  function ChoiceCounts(L: seq<Ballot>): Counts
  {
    Accumulate(ChoicePairs(L))
  }

  function FirstChoiceCounts(L: seq<Ballot>): Counts
  {
    Accumulate(FirstChoicePairs(L))
  }

  /** One round of rcv_round on the list `L`. */
  function RoundOf(L: seq<Ballot>, tieBreaker: seq<Token>): Result<Outcome<seq<Ballot>>>
  {
    var d := FirstChoiceCounts(L);
    match Decide(d, tieBreaker)
    case Err(f) => Err(f)
    case Ok(Elect(w)) => Ok(Winner(w, d))
    case Ok(Eliminate(e)) => Ok(Eliminated(d, e, NameDeleted(L, e, false)))
  }

  /** rcv_winner: rounds until one elects; between rounds the eliminated
      candidate is deleted once more from the returned ballots. */
  function WinnerOf(L: seq<Ballot>, tieBreaker: seq<Token>): Result<Token>
    decreases |Tokens(L)|
  {
    match RoundOf(L, tieBreaker)
    case Err(f) => Err(f)
    case Ok(Winner(w, _)) => Ok(w)
    case Ok(Eliminated(_, e, rest)) =>
      RoundShrinks(L, tieBreaker);
      WinnerOf(NameDeleted(rest, e, false), tieBreaker)
  }

  // ---------------------------------------------------------------------
  // Independent counts to compare with

  /** Number of ballots whose first choice is `c`. */
  function StartingWith(L: seq<Ballot>, c: Token): nat
  {
    if |L| == 0 then 0
    else StartingWith(L[..|L| - 1], c) + (if |L[|L| - 1]| > 0 && L[|L| - 1][0] == c then 1 else 0)
  }

  /** Number of non-empty ballots. */
  function NonEmpty(L: seq<Ballot>): nat
  {
    if |L| == 0 then 0 else NonEmpty(L[..|L| - 1]) + (if |L[|L| - 1]| > 0 then 1 else 0)
  }

  /** Number of positions, over all ballots, holding `c`. */
  function Occurrences(L: seq<Ballot>, c: Token): nat
  {
    if |L| == 0 then 0 else Occurrences(L[..|L| - 1], c) + multiset(L[|L| - 1])[c]
  }

  /** Number of positions over all ballots. */
  function TotalLength(L: seq<Ballot>): nat
  {
    if |L| == 0 then 0 else TotalLength(L[..|L| - 1]) + |L[|L| - 1]|
  }

  // ---------------------------------------------------------------------
  // The operations

  /** choices_on_ballots */
  method ChoicesOnBallots(L: seq<Ballot>) returns (C: Counts)
    ensures C == ChoiceCounts(L)
  {
    C := [];
    for j := 0 to |L|
      invariant C == Accumulate(ChoicePairs(L[..j]))
    {
      var ballot := L[j];
      TallyStart(ChoicePairs(L[..j]), ballot, 1);
      for k := 0 to |ballot|
        invariant C == Accumulate(ChoicePairs(L[..j]) + Tagged(ballot[..k], 1))
      {
        var choice := ballot[k];
        var seen := if HasKey(C, choice) then Get(C, choice) else 0;
        TallyStep(ChoicePairs(L[..j]), ballot, 1, k);
        AddToPut(C, choice, 1, 1 + seen);
        C := Put(C, choice, 1 + seen);
      }
      BallotTallied(L, j);
    }
    assert L[..|L|] == L;
  }

  /** delete_double_undervotes */
  method DeleteDoubleUndervotes(L: seq<Ballot>) returns (LL: seq<Ballot>)
    ensures LL == DoubleUndervotesDeleted(L)
  {
    LL := [];
    for j := 0 to |L|
      invariant |LL| == j
      invariant forall k :: 0 <= k < j ==> LL[k] == BeforeDoubleUndervote(L[k])
    {
      var ballot := L[j];
      var doubleUvAt := FindDoubleUndervote(ballot);
      var newBallot := ballot[..doubleUvAt];
      LL := LL + [newBallot];
    }
  }

  /** delete_name */
  method DeleteName(L: seq<Ballot>, name: Token, deleteFollowing: bool) returns (LL: seq<Ballot>)
    ensures LL == NameDeleted(L, name, deleteFollowing)
  {
    LL := [];
    for j := 0 to |L|
      invariant |LL| == j
      invariant forall k :: 0 <= k < j ==> LL[k] == Stripped(L[k], name, deleteFollowing)
    {
      var newBallot := StripName(L[j], name, deleteFollowing);
      LL := LL + [newBallot];
    }
  }

  /** delete_undervotes */
  method DeleteUndervotes(L: seq<Ballot>) returns (LL: seq<Ballot>)
    ensures LL == UndervotesDeleted(L)
  {
    var L1 := DeleteDoubleUndervotes(L);
    LL := DeleteName(L1, Undervote, false);
  }

  /** delete_overvotes */
  method DeleteOvervotes(L: seq<Ballot>) returns (LL: seq<Ballot>)
    ensures LL == OvervotesDeleted(L)
  {
    LL := DeleteName(L, Overvote, true);
  }

  /** clean */
  method Clean(L: seq<Ballot>) returns (LL: seq<Ballot>)
    ensures LL == Cleaned(L)
  {
    var L1 := DeleteOvervotes(L);
    LL := DeleteUndervotes(L1);
  }

  /** count_first_choices */
  method CountFirstChoices(L: seq<Ballot>) returns (d: Counts)
    ensures d == FirstChoiceCounts(L)
  {
    d := [];
    for j := 0 to |L|
      invariant d == Accumulate(FirstChoicePairs(L[..j]))
    {
      var ballot := L[j];
      TallyStart(FirstChoicePairs(L[..j]), ballot, 0);
      for k := 0 to |ballot|
        invariant d == Accumulate(FirstChoicePairs(L[..j]) + Tagged(ballot[..k], 0))
        invariant k > 0 ==> HasKey(d, ballot[0])
      {
        var choice := ballot[k];
        TallyStep(FirstChoicePairs(L[..j]), ballot, 0, k);
        MarkSeen(d, choice, ballot[0]);
        if !HasKey(d, choice) {
          d := Put(d, choice, 0);
        }
      }
      BallotTallied(L, j);
      if |ballot| > 0 {
        var firstChoice := ballot[0];
        AddToPut(d, firstChoice, 1, 1 + Get(d, firstChoice));
        d := Put(d, firstChoice, 1 + Get(d, firstChoice));
      }
    }
    assert L[..|L|] == L;
  }

  /** Before a ballot's tokens are merged. */
  lemma TallyStart(before: seq<(Token, nat)>, ballot: Ballot, n: nat)
    ensures before + Tagged(ballot[..0], n) == before
  {
  }

  /** Merging the next token. */
  lemma TallyStep(before: seq<(Token, nat)>, ballot: Ballot, n: nat, k: nat)
    requires k < |ballot|
    ensures Accumulate(before + Tagged(ballot[..k + 1], n)) ==
      AddTo(Accumulate(before + Tagged(ballot[..k], n)), ballot[k], n)
  {
    TaggedPrefix(ballot, n, k);
    assert before + Tagged(ballot[..k + 1], n) == (before + Tagged(ballot[..k], n)) + [(ballot[k], n)];
    AccumulateSnoc(before + Tagged(ballot[..k], n), (ballot[k], n));
  }

  /** After a ballot's tokens are merged: ballot j is done for
      choices_on_ballots, and needs only its first-choice vote for
      count_first_choices. */
  lemma BallotTallied(L: seq<Ballot>, j: nat)
    requires j < |L|
    ensures Accumulate(ChoicePairs(L[..j]) + Tagged(L[j][..|L[j]|], 1)) == Accumulate(ChoicePairs(L[..j + 1]))
    ensures var d := Accumulate(FirstChoicePairs(L[..j]) + Tagged(L[j][..|L[j]|], 0));
      Accumulate(FirstChoicePairs(L[..j + 1])) == if |L[j]| > 0 then AddTo(d, L[j][0], 1) else d
  {
    var b := L[j];
    TaggedPrefix(b, 1, |b|);
    TaggedPrefix(b, 0, |b|);
    PairsPrefix(L, j);
    if |b| > 0 {
      AccumulateSnoc(FirstChoicePairs(L[..j]) + Tagged(b, 0), (b[0], 1));
    } else {
      assert FirstChoicePairs(L[..j + 1]) == FirstChoicePairs(L[..j]) + Tagged(b, 0);
    }
  }

  /** `if choice not in d: d[choice] = 0` is a merge step with a zero count,
      after which `choice` is a key and a key `seen` still is. */
  lemma MarkSeen(d: Counts, choice: Token, seen: Token)
    ensures (if HasKey(d, choice) then d else Put(d, choice, 0)) == AddTo(d, choice, 0)
    ensures HasKey(d, seen) ==> HasKey(AddTo(d, choice, 0), seen)
    ensures HasKey(AddTo(d, choice, 0), choice)
  {
    AddToSpec(d, choice, 0);
    if HasKey(d, choice) {
      AddZeroPresent(d, choice);
    }
  }

  lemma TaggedPrefix(b: Ballot, n: nat, k: nat)
    requires k <= |b|
    ensures k == 0 ==> Tagged(b[..k], n) == []
    ensures k < |b| ==> Tagged(b[..k + 1], n) == Tagged(b[..k], n) + [(b[k], n)]
    ensures k == |b| ==> Tagged(b[..k], n) == Tagged(b, n)
  {
    assert k == |b| ==> b[..k] == b;
  }

  /** The pairs of the first j + 1 ballots extend those of the first j. */
  lemma PairsPrefix(L: seq<Ballot>, j: nat)
    requires j < |L|
    ensures ChoicePairs(L[..j + 1]) == ChoicePairs(L[..j]) + Tagged(L[j], 1)
    ensures FirstChoicePairs(L[..j + 1]) == FirstChoicePairs(L[..j]) + Tagged(L[j], 0) +
      (if |L[j]| > 0 then [(L[j][0], 1)] else [])
  {
    assert L[..j + 1][..j] == L[..j];
  }

  /** rcv_round */
  method RcvRound(L: seq<Ballot>, tieBreaker: seq<Token>) returns (r: Result<Outcome<seq<Ballot>>>)
    ensures r == RoundOf(L, tieBreaker)
  {
    var d := CountFirstChoices(L);
    if |d| == 0 {
      return Err(AllCandidatesEliminated);
    }
    if |d| == 1 {
      return Ok(Winner(d[0].0, d));
    }
    var totalFirstChoices := Total(d);
    var at := FindHolderOfAll(d, totalFirstChoices);
    if at < |d| {
      return Ok(Winner(d[at].0, d));
    }
    var e := d[WeakestAt(d, tieBreaker)].0;
    var LL := DeleteName(L, e, false);
    return Ok(Eliminated(d, e, LL));
  }

  /** rcv_winner, without its printing */
  method RcvWinner(L0: seq<Ballot>, tieBreaker: seq<Token>) returns (r: Result<Token>)
    ensures r == WinnerOf(L0, tieBreaker)
  {
    var L := L0;
    while true
      invariant WinnerOf(L, tieBreaker) == WinnerOf(L0, tieBreaker)
      decreases |Tokens(L)|
    {
      var outcome := RcvRound(L, tieBreaker);
      if outcome.Err? {
        return Err(outcome.error);
      }
      if outcome.value.Winner? {
        return Ok(outcome.value.winner);
      }
      RoundShrinks(L, tieBreaker);
      L := DeleteName(outcome.value.rest, outcome.value.eliminated, false);
    }
  }

  // ---------------------------------------------------------------------
  // Properties of the cleaning steps

  /** Tokens after deleting a name: `name` is gone, nothing new appears, and
      plain removal keeps every other token. */
  lemma NameDeletedTokens(L: seq<Ballot>, name: Token, deleteFollowing: bool)
    ensures Tokens(NameDeleted(L, name, deleteFollowing)) <= Tokens(L) - {name}
    ensures !deleteFollowing ==> Tokens(NameDeleted(L, name, deleteFollowing)) == Tokens(L) - {name}
  {
    StrippedTokens(L, NameDeleted(L, name, deleteFollowing), name, deleteFollowing);
  }

  /** delete_name: one ballot out per ballot in; no `name` is left; a ballot
      without `name` is kept as it is; with deleteFollowing each ballot is
      cut just before its first `name`; without it each ballot keeps every
      other token, as often as before. */
  lemma NameDeletedSpec(L: seq<Ballot>, name: Token, deleteFollowing: bool)
    ensures |NameDeleted(L, name, deleteFollowing)| == |L|
    ensures name !in Tokens(NameDeleted(L, name, deleteFollowing))
    ensures forall i :: 0 <= i < |L| && name !in L[i] ==> NameDeleted(L, name, deleteFollowing)[i] == L[i]
    ensures deleteFollowing ==> forall i :: 0 <= i < |L| ==>
      var b := NameDeleted(L, name, deleteFollowing)[i];
      b == L[i][..|b|] && (name in L[i] ==> L[i][|b|] == name)
    ensures !deleteFollowing ==> forall i :: 0 <= i < |L| ==>
      multiset(NameDeleted(L, name, deleteFollowing)[i]) == multiset(L[i])[name := 0]
  {
    var LL := NameDeleted(L, name, deleteFollowing);
    NameDeletedTokens(L, name, deleteFollowing);
    forall i | 0 <= i < |L|
      ensures name !in L[i] ==> LL[i] == L[i]
      ensures deleteFollowing ==> LL[i] == L[i][..|LL[i]|] && (name in L[i] ==> L[i][|LL[i]|] == name)
      ensures !deleteFollowing ==> multiset(LL[i]) == multiset(L[i])[name := 0]
    {
      StrippedSpec(L[i], name, deleteFollowing);
      WithoutSpec(L[i], name);
    }
  }

  /** delete_double_undervotes: one ballot out per ballot in, each a prefix of
      its original with no two adjacent undervotes left, cut exactly at the
      first such pair; ballots without one are unchanged. */
  lemma DoubleUndervotesDeletedSpec(L: seq<Ballot>)
    ensures |DoubleUndervotesDeleted(L)| == |L|
    ensures forall i :: 0 <= i < |L| ==>
      var b := DoubleUndervotesDeleted(L)[i];
      b == L[i][..|b|] &&
      (forall j :: 0 <= j < |b| - 1 ==> !(b[j] == Undervote && b[j + 1] == Undervote)) &&
      (|b| < |L[i]| ==> L[i][|b|] == Undervote && L[i][|b| + 1] == Undervote)
    ensures forall i :: 0 <= i < |L| ==>
      (forall j :: 0 <= j < |L[i]| - 1 ==> !(L[i][j] == Undervote && L[i][j + 1] == Undervote)) ==>
        DoubleUndervotesDeleted(L)[i] == L[i]
  {
    forall i | 0 <= i < |L|
      ensures (forall j :: 0 <= j < |L[i]| - 1 ==> !(L[i][j] == Undervote && L[i][j + 1] == Undervote)) ==>
        DoubleUndervotesDeleted(L)[i] == L[i]
    {
      var k := FirstDoubleUndervote(L[i]);
      assert DoubleUndervotesDeleted(L)[i] == L[i][..k];
    }
  }

  /** After clean no ballot holds an overvote or an undervote, each ballot is
      no longer than before and holds only tokens it held before, and
      cleaning again changes nothing. */
  lemma CleanedSpec(L: seq<Ballot>)
    ensures |Cleaned(L)| == |L|
    ensures Overvote !in Tokens(Cleaned(L)) && Undervote !in Tokens(Cleaned(L))
    ensures forall i :: 0 <= i < |L| ==>
      |Cleaned(L)[i]| <= |L[i]| && forall t :: t in Cleaned(L)[i] ==> t in L[i]
    ensures Tokens(Cleaned(L)) <= Tokens(L)
    ensures Cleaned(Cleaned(L)) == Cleaned(L)
  {
    var C := Cleaned(L);
    assert forall i :: 0 <= i < |L| ==> C[i] == CleanBallot(L[i]);
    forall i | 0 <= i < |L| {
      CleanBallotSpec(L[i]);
    }
    forall t ensures t in Tokens(C) ==> t in Tokens(L) && t != Overvote && t != Undervote {
      TokensIff(C, t);
      TokensIff(L, t);
      if t in Tokens(C) {
        var i :| 0 <= i < |C| && t in C[i];
        assert t in L[i];
      }
    }
    assert forall i :: 0 <= i < |C| ==> Cleaned(C)[i] == CleanBallot(C[i]);
  }

  // ---------------------------------------------------------------------
  // Properties of the counts

  lemma {:induction false} TaggedSum(b: Ballot, n: nat, c: Token)
    ensures SumFor(Tagged(b, n), c) == n * multiset(b)[c]
    decreases |b|
  {
    if |b| > 0 {
      var front, last := b[..|b| - 1], b[|b| - 1];
      var t := Tagged(b, n);
      TaggedSum(front, n, c);
      assert t[..|t| - 1] == Tagged(front, n);
      assert SumFor(t, c) == SumFor(Tagged(front, n), c) + (if last == c then n else 0);
      assert multiset(b)[c] == multiset(front)[c] + (if last == c then 1 else 0) by {
        assert b == front + [last];
      }
      if last == c {
        MulPlusOne(n, multiset(front)[c]);
        assert n * multiset(b)[c] == n * multiset(front)[c] + n;
      } else {
        assert multiset(b)[c] == multiset(front)[c];
      }
    }
  }

  lemma MulPlusOne(n: nat, m: nat)
    ensures n * (m + 1) == n * m + n
  {
  }

  lemma {:induction false} TaggedTotal(b: Ballot, n: nat)
    ensures Total(Tagged(b, n)) == n * |b|
    decreases |b|
  {
    if |b| > 0 {
      assert Tagged(b, n)[..|b| - 1] == Tagged(b[..|b| - 1], n);
      TaggedTotal(b[..|b| - 1], n);
      assert n * |b| == n * (|b| - 1) + n;
    }
  }

  lemma TaggedKeys(b: Ballot, n: nat, c: Token)
    ensures c in Keys(Tagged(b, n)) <==> c in b
  {
    assert Keys(Tagged(b, n)) == b;
  }

  /** The keys of the pairs are the tokens of the ballots. */
  lemma {:induction false} PairKeys(L: seq<Ballot>, c: Token)
    ensures c in Keys(FirstChoicePairs(L)) <==> c in Tokens(L)
    ensures c in Keys(ChoicePairs(L)) <==> c in Tokens(L)
    decreases |L|
  {
    if |L| > 0 {
      var front, last := L[..|L| - 1], L[|L| - 1];
      PairKeys(front, c);
      TaggedKeys(last, 0, c);
      TaggedKeys(last, 1, c);
      KeysConcat(FirstChoicePairs(front), BallotFirstChoicePairs(last));
      KeysConcat(Tagged(last, 0), if |last| > 0 then [(last[0], 1)] else []);
      KeysConcat(ChoicePairs(front), Tagged(last, 1));
    }
  }

  lemma {:induction false} FirstChoicePairsSums(L: seq<Ballot>, c: Token)
    ensures SumFor(FirstChoicePairs(L), c) == StartingWith(L, c)
    ensures Total(FirstChoicePairs(L)) == NonEmpty(L)
    decreases |L|
  {
    if |L| > 0 {
      var front, last := L[..|L| - 1], L[|L| - 1];
      FirstChoicePairsSums(front, c);
      TaggedSum(last, 0, c);
      TaggedTotal(last, 0);
      var tail: seq<(Token, nat)> := if |last| > 0 then [(last[0], 1)] else [];
      SumForAppend(FirstChoicePairs(front), BallotFirstChoicePairs(last), c);
      SumForAppend(Tagged(last, 0), tail, c);
      TotalConcat(FirstChoicePairs(front), BallotFirstChoicePairs(last));
      TotalConcat(Tagged(last, 0), tail);
      if |last| > 0 {
        assert tail[..0] == [];
      }
    }
  }

  lemma {:induction false} ChoicePairsSums(L: seq<Ballot>, c: Token)
    ensures SumFor(ChoicePairs(L), c) == Occurrences(L, c)
    ensures Total(ChoicePairs(L)) == TotalLength(L)
    decreases |L|
  {
    if |L| > 0 {
      var front, last := L[..|L| - 1], L[|L| - 1];
      ChoicePairsSums(front, c);
      TaggedSum(last, 1, c);
      TaggedTotal(last, 1);
      SumForAppend(ChoicePairs(front), Tagged(last, 1), c);
      TotalConcat(ChoicePairs(front), Tagged(last, 1));
    }
  }

  /** count_first_choices has an entry for every token on any ballot and for
      no other; each entry is the number of ballots with that first choice,
      so the entries add up to the number of non-empty ballots. */
  lemma FirstChoiceCountsSpec(L: seq<Ballot>)
    ensures DistinctKeys(FirstChoiceCounts(L))
    ensures forall c :: HasKey(FirstChoiceCounts(L), c) <==> c in Tokens(L)
    ensures forall c :: c in Tokens(L) ==> Get(FirstChoiceCounts(L), c) == StartingWith(L, c)
    ensures Total(FirstChoiceCounts(L)) == NonEmpty(L)
    ensures |FirstChoiceCounts(L)| == |Tokens(L)|
  {
    var d := FirstChoiceCounts(L);
    AccumulateSpec(FirstChoicePairs(L));
    forall c ensures HasKey(d, c) <==> c in Tokens(L) {
      PairKeys(L, c);
    }
    forall c | c in Tokens(L) ensures Get(d, c) == StartingWith(L, c) {
      FirstChoicePairsSums(L, c);
    }
    FirstChoicePairsSums(L, Undervote);
    DistinctKeysCard(d);
    assert (set k | k in Keys(d)) == Tokens(L);
  }

  /** choices_on_ballots has an entry for every token on any ballot and for no
      other; each entry is the number of positions holding that token, so the
      entries add up to the total length of the ballots. */
  lemma ChoiceCountsSpec(L: seq<Ballot>)
    ensures DistinctKeys(ChoiceCounts(L))
    ensures forall c :: HasKey(ChoiceCounts(L), c) <==> c in Tokens(L)
    ensures forall c :: c in Tokens(L) ==> Get(ChoiceCounts(L), c) == Occurrences(L, c)
    ensures Total(ChoiceCounts(L)) == TotalLength(L)
  {
    AccumulateSpec(ChoicePairs(L));
    forall c ensures HasKey(ChoiceCounts(L), c) <==> c in Tokens(L) {
      PairKeys(L, c);
    }
    forall c | c in Tokens(L) ensures Get(ChoiceCounts(L), c) == Occurrences(L, c) {
      ChoicePairsSums(L, c);
    }
    ChoicePairsSums(L, Undervote);
  }

  // ---------------------------------------------------------------------
  // Properties of the rounds

  /** An elimination removes a candidate that is on the ballots, and the
      ballots handed to the next round have exactly one candidate fewer. */
  lemma RoundShrinks(L: seq<Ballot>, tieBreaker: seq<Token>)
    requires RoundOf(L, tieBreaker).Ok? && RoundOf(L, tieBreaker).value.Eliminated?
    ensures var o := RoundOf(L, tieBreaker).value;
      o.eliminated in Tokens(L) && o.rest == NameDeleted(L, o.eliminated, false) &&
      Tokens(NameDeleted(o.rest, o.eliminated, false)) == Tokens(L) - {o.eliminated} &&
      |Tokens(NameDeleted(o.rest, o.eliminated, false))| < |Tokens(L)|
  {
    var o := RoundOf(L, tieBreaker).value;
    EliminatedOnBallots(L, tieBreaker);
    NameDeletedTokens(L, o.eliminated, false);
    NameDeletedTokens(o.rest, o.eliminated, false);
  }

  lemma EliminatedOnBallots(L: seq<Ballot>, tieBreaker: seq<Token>)
    requires RoundOf(L, tieBreaker).Ok? && RoundOf(L, tieBreaker).value.Eliminated?
    ensures RoundOf(L, tieBreaker).value.eliminated in Tokens(L)
    ensures RoundOf(L, tieBreaker).value.rest == NameDeleted(L, RoundOf(L, tieBreaker).value.eliminated, false)
  {
    var d := FirstChoiceCounts(L);
    DecideLoserCounted(d, tieBreaker);
    assert HasKey(d, RoundOf(L, tieBreaker).value.eliminated);
    FirstChoiceCountsSpec(L);
  }

  /** Position of each candidate in the first-choice count, and the count
      found there. */
  lemma FirstChoiceEntries(L: seq<Ballot>)
    ensures forall i :: 0 <= i < |FirstChoiceCounts(L)| ==>
      FirstChoiceCounts(L)[i].0 in Tokens(L) &&
      FirstChoiceCounts(L)[i].1 == StartingWith(L, FirstChoiceCounts(L)[i].0)
    ensures forall c :: c in Tokens(L) ==>
      IndexOf(Keys(FirstChoiceCounts(L)), c) < |FirstChoiceCounts(L)| &&
      FirstChoiceCounts(L)[IndexOf(Keys(FirstChoiceCounts(L)), c)].0 == c &&
      FirstChoiceCounts(L)[IndexOf(Keys(FirstChoiceCounts(L)), c)].1 == StartingWith(L, c)
  {
    var d := FirstChoiceCounts(L);
    FirstChoiceCountsSpec(L);
    forall i | 0 <= i < |d| ensures d[i].0 in Tokens(L) && d[i].1 == StartingWith(L, d[i].0) {
      GetAt(d, i);
    }
    forall c | c in Tokens(L)
      ensures IndexOf(Keys(d), c) < |d| && d[IndexOf(Keys(d), c)].0 == c
    {
      assert Keys(d)[IndexOf(Keys(d), c)] == c;
    }
  }

  /** rcv_round fails, with the "all candidates eliminated" assertion,
      exactly when no candidate is left on the ballots. */
  lemma RoundOfFails(L: seq<Ballot>, tieBreaker: seq<Token>)
    ensures RoundOf(L, tieBreaker).Err? <==> Tokens(L) == {}
    ensures RoundOf(L, tieBreaker).Err? ==> RoundOf(L, tieBreaker).error == AllCandidatesEliminated
  {
    DecideSpec(FirstChoiceCounts(L), tieBreaker);
    FirstChoiceCountsSpec(L);
  }

  /** rcv_round elects exactly when one candidate is left or one candidate is
      the first choice of every non-empty ballot, and it elects a candidate
      on the ballots that meets one of these. */
  lemma RoundOfElects(L: seq<Ballot>, tieBreaker: seq<Token>)
    ensures RoundOf(L, tieBreaker).Ok? && RoundOf(L, tieBreaker).value.Winner? <==>
      |Tokens(L)| == 1 || exists c :: c in Tokens(L) && StartingWith(L, c) == NonEmpty(L)
    ensures RoundOf(L, tieBreaker).Ok? && RoundOf(L, tieBreaker).value.Winner? ==>
      var w := RoundOf(L, tieBreaker).value.winner;
      w in Tokens(L) && (|Tokens(L)| == 1 || StartingWith(L, w) == NonEmpty(L))
  {
    var d := FirstChoiceCounts(L);
    DecideSpec(d, tieBreaker);
    FirstChoiceCountsSpec(L);
    FirstChoiceEntries(L);
    if exists c :: c in Tokens(L) && StartingWith(L, c) == NonEmpty(L) {
      var c :| c in Tokens(L) && StartingWith(L, c) == NonEmpty(L);
      assert HoldsAll(d, IndexOf(Keys(d), c));
    }
  }

  /** When rcv_round eliminates, at least two candidates are left, and it
      takes one with the fewest first choices, the largest tie-break index
      among those and the smallest name among those; the ballots it returns
      are the ballots without that candidate. */
  lemma RoundOfEliminates(L: seq<Ballot>, tieBreaker: seq<Token>)
    requires RoundOf(L, tieBreaker).Ok? && RoundOf(L, tieBreaker).value.Eliminated?
    ensures var e := RoundOf(L, tieBreaker).value.eliminated;
      e in Tokens(L) && |Tokens(L)| >= 2 &&
      RoundOf(L, tieBreaker).value.rest == NameDeleted(L, e, false) &&
      forall c :: c in Tokens(L) ==>
        StartingWith(L, c) < NonEmpty(L) &&
        StartingWith(L, e) <= StartingWith(L, c) &&
        (StartingWith(L, c) == StartingWith(L, e) ==>
           TieBreakerIndex(tieBreaker, c) <= TieBreakerIndex(tieBreaker, e)) &&
        (StartingWith(L, c) == StartingWith(L, e) &&
         TieBreakerIndex(tieBreaker, c) == TieBreakerIndex(tieBreaker, e) ==>
           c == e || StrLess(e, c))
  {
    var d := FirstChoiceCounts(L);
    DecideSpec(d, tieBreaker);
    FirstChoiceCountsSpec(L);
    FirstChoiceEntries(L);
    WeakestAtSpec(d, tieBreaker);
    var j := WeakestAt(d, tieBreaker);
    forall c | c in Tokens(L) ensures StartingWith(L, c) < NonEmpty(L) {
      var i := IndexOf(Keys(d), c);
      TotalAtLeast(d, i);
      assert !HoldsAll(d, i);
    }
  }

  /** rcv_winner fails exactly when the ballots name no candidate at all, and
      otherwise elects a candidate named on the ballots. */
  lemma {:induction false} WinnerOfSpec(L: seq<Ballot>, tieBreaker: seq<Token>)
    ensures WinnerOf(L, tieBreaker).Err? <==> Tokens(L) == {}
    ensures WinnerOf(L, tieBreaker).Err? ==> WinnerOf(L, tieBreaker).error == AllCandidatesEliminated
    ensures WinnerOf(L, tieBreaker).Ok? ==> WinnerOf(L, tieBreaker).value in Tokens(L)
    decreases |Tokens(L)|
  {
    RoundOfFails(L, tieBreaker);
    RoundOfElects(L, tieBreaker);
    var r := RoundOf(L, tieBreaker);
    if r.Ok? && r.value.Eliminated? {
      RoundOfEliminates(L, tieBreaker);
      RoundShrinks(L, tieBreaker);
      var next := NameDeleted(r.value.rest, r.value.eliminated, false);
      WinnerOfSpec(next, tieBreaker);
      assert Tokens(next) != {} by {
        var c :| c in Tokens(L) && c != r.value.eliminated;
        assert c in Tokens(next);
      }
    }
  }

  /** A contest run on cleaned ballots never elects a marker. */
  lemma CleanWinner(L: seq<Ballot>, tieBreaker: seq<Token>)
    ensures WinnerOf(Cleaned(L), tieBreaker).Ok? ==>
      WinnerOf(Cleaned(L), tieBreaker).value in Tokens(L) &&
      WinnerOf(Cleaned(L), tieBreaker).value != Overvote &&
      WinnerOf(Cleaned(L), tieBreaker).value != Undervote
  {
    WinnerOfSpec(Cleaned(L), tieBreaker);
    CleanedSpec(L);
  }
}
