// The examples written into the documentation of the tabulators and the
// audit driver, as facts about the model.

module Doctests {
  import opened Collections
  import opened Ballots
  import opened Elimination
  import RcvList
  import RcvDict

  // ---------------------------------------------------------------------
  // rcv.py (tally as a list of ballots)

  /** delete_double_undervotes cuts each ballot before its first pair of
      undervotes. */
  lemma ListDoubleUndervotesExample()
    ensures RcvList.DoubleUndervotesDeleted([["undervote", "undervote", "a"], ["b", "undervote", "undervote", "c"], ["d", "undervote"]])
         == [[], ["b"], ["d", "undervote"]]
  {
    var b1: Ballot := ["b", "undervote", "undervote", "c"];
    assert FirstDoubleUndervote(b1[1..]) == 0;
    assert FirstDoubleUndervote(b1) == 1;
    var b2: Ballot := ["d", "undervote"];
    assert FirstDoubleUndervote(b2[1..]) == 1;
    assert FirstDoubleUndervote(b2) == 2;
    assert b2[..2] == b2;
    assert b1[..1] == ["b"];
    var L: seq<Ballot> := [["undervote", "undervote", "a"], b1, b2];
    var D := RcvList.DoubleUndervotesDeleted(L);
    assert D[0] == [] && D[1] == ["b"] && D[2] == b2;
  }

  /** delete_name without delete_following drops every occurrence. */
  lemma ListDeleteNameExample()
    ensures RcvList.NameDeleted([["a", "undervote", "b"], ["undervote"], ["c"], []], "undervote", false)
         == [["a", "b"], [], ["c"], []]
  {
    var b0: Ballot := ["a", "undervote", "b"];
    assert Undervote in b0;
    assert Without(b0[..1], "undervote") == ["a"];
    assert b0[..2][..1] == b0[..1];
    assert Without(b0[..2], "undervote") == ["a"];
    assert Without(b0, "undervote") == ["a", "b"];
    var b1: Ballot := ["undervote"];
    assert Without(b1, "undervote") == [];
    assert "undervote" !in ["c"];
  }

  lemma ListUndervotesExample()
    ensures RcvList.UndervotesDeleted([["undervote", "a"], ["undervote", "undervote", "b"], ["c", "undervote"]])
         == [["a"], [], ["c"]]
  {
    var L: seq<Ballot> := [["undervote", "a"], ["undervote", "undervote", "b"], ["c", "undervote"]];
    var b0 := L[0];
    assert FirstDoubleUndervote(b0[1..]) == 1;
    assert FirstDoubleUndervote(b0) == 2;
    assert b0[..2] == b0;
    assert FirstDoubleUndervote(L[1]) == 0;
    var b2 := L[2];
    assert FirstDoubleUndervote(b2[1..]) == 1;
    assert FirstDoubleUndervote(b2) == 2;
    assert b2[..2] == b2;
    var D := RcvList.DoubleUndervotesDeleted(L);
    assert D == [b0, [], b2];
    assert Without(b0[..1], "undervote") == [];
    assert Without(b0, "undervote") == ["a"];
    assert Without(b2[..1], "undervote") == ["c"];
    assert Without(b2, "undervote") == ["c"];
  }

  /** delete_overvotes drops an overvote and everything after it. */
  lemma ListOvervotesExample()
    ensures RcvList.OvervotesDeleted([["a", "overvote", "b"], ["c", "overvote"], ["d"], ["overvote"]])
         == [["a"], ["c"], ["d"], []]
  {
    var L: seq<Ballot> := [["a", "overvote", "b"], ["c", "overvote"], ["d"], ["overvote"]];
    assert IndexOf(L[0], "overvote") == 1;
    assert IndexOf(L[1], "overvote") == 1;
    assert "overvote" !in L[2];
    assert IndexOf(L[3], "overvote") == 0;
    assert L[0][..1] == ["a"] && L[1][..1] == ["c"];
    var D := RcvList.OvervotesDeleted(L);
    assert D[0] == ["a"] && D[1] == ["c"] && D[2] == ["d"] && D[3] == [];
  }

  /** One merge step of Accumulate, on a computed prefix. */
  lemma AccumulateStep(ps: seq<(Token, nat)>, k: nat, key: Token, n: nat, before: Counts, after: Counts)
    requires k < |ps| && ps[k] == (key, n)
    requires Accumulate(ps[..k]) == before && AddTo(before, key, n) == after
    ensures Accumulate(ps[..k + 1]) == after
  {
    assert ps[..k + 1][..k] == ps[..k];
  }

  /** Merging into the entry at position `i`, the first with its key. */
  lemma AddToAt(d: Counts, i: nat, key: Token, m: nat, n: nat, after: Counts)
    requires i < |d| && d[i] == (key, m) && forall j :: 0 <= j < i ==> d[j].0 != key
    requires after == d[i := (key, m + n)]
    ensures AddTo(d, key, n) == after
  {
    assert Keys(d)[i] == key;
    assert IndexOf(Keys(d), key) == i;
  }

  /** Merging a key the dict does not hold appends it. */
  lemma AddToNew(d: Counts, key: Token, n: nat, after: Counts)
    requires forall j :: 0 <= j < |d| ==> d[j].0 != key
    requires after == d + [(key, n)]
    ensures AddTo(d, key, n) == after
  {
    assert key !in Keys(d);
  }

  /** The merge steps of count_first_choices on the rcv_round example:
      a zero for every token of a ballot, then one for its first choice. */
  lemma ListFirstChoicePairsExample()
    ensures RcvList.FirstChoicePairs([["a", "b"], ["c", "d"], ["c", "e"], ["f", "a"]]) == PS
  {
    var L: seq<Ballot> := [["a", "b"], ["c", "d"], ["c", "e"], ["f", "a"]];
    assert L[..1] == [["a", "b"]];
    assert L[..2][..1] == L[..1] && L[..3][..2] == L[..2] && L[..4][..3] == L[..3] && L[..4] == L;
    assert RcvList.FirstChoicePairs(L[..1]) == PS[..3];
    assert RcvList.FirstChoicePairs(L[..2]) == PS[..6];
    assert RcvList.FirstChoicePairs(L[..3]) == PS[..9];
  }

  const PS: seq<(Token, nat)> := [("a", 0), ("b", 0), ("a", 1), ("c", 0), ("d", 0), ("c", 1), ("c", 0), ("e", 0), ("c", 1), ("f", 0), ("a", 0), ("f", 1)]

  // The merge steps of count_first_choices on the list example, one
  // lemma per step.

  lemma ListCountsStep1(ps: seq<(Token, nat)>, before: Counts)
    requires ps == PS && before == []
    ensures Accumulate(ps[..1]) == [("a", 0)]
  {
    assert ps[..0] == [];
    AddToNew(before, "a", 0, [("a", 0)]);
    AccumulateStep(ps, 0, "a", 0, before, [("a", 0)]);
  }

  lemma ListCountsStep2(ps: seq<(Token, nat)>, before: Counts)
    requires ps == PS && before == [("a", 0)]
    ensures Accumulate(ps[..2]) == [("a", 0), ("b", 0)]
  {
    ListCountsStep1(ps, []);
    AddToNew(before, "b", 0, [("a", 0), ("b", 0)]);
    AccumulateStep(ps, 1, "b", 0, before, [("a", 0), ("b", 0)]);
  }

  lemma ListCountsStep3(ps: seq<(Token, nat)>, before: Counts)
    requires ps == PS && before == [("a", 0), ("b", 0)]
    ensures Accumulate(ps[..3]) == [("a", 1), ("b", 0)]
  {
    ListCountsStep2(ps, [("a", 0)]);
    AddToAt(before, 0, "a", 0, 1, [("a", 1), ("b", 0)]);
    AccumulateStep(ps, 2, "a", 1, before, [("a", 1), ("b", 0)]);
  }

  lemma ListCountsStep4(ps: seq<(Token, nat)>, before: Counts)
    requires ps == PS && before == [("a", 1), ("b", 0)]
    ensures Accumulate(ps[..4]) == [("a", 1), ("b", 0), ("c", 0)]
  {
    ListCountsStep3(ps, [("a", 0), ("b", 0)]);
    AddToNew(before, "c", 0, [("a", 1), ("b", 0), ("c", 0)]);
    AccumulateStep(ps, 3, "c", 0, before, [("a", 1), ("b", 0), ("c", 0)]);
  }

  lemma ListCountsStep5(ps: seq<(Token, nat)>, before: Counts)
    requires ps == PS && before == [("a", 1), ("b", 0), ("c", 0)]
    ensures Accumulate(ps[..5]) == [("a", 1), ("b", 0), ("c", 0), ("d", 0)]
  {
    ListCountsStep4(ps, [("a", 1), ("b", 0)]);
    AddToNew(before, "d", 0, [("a", 1), ("b", 0), ("c", 0), ("d", 0)]);
    AccumulateStep(ps, 4, "d", 0, before, [("a", 1), ("b", 0), ("c", 0), ("d", 0)]);
  }

  lemma ListCountsStep6(ps: seq<(Token, nat)>, before: Counts)
    requires ps == PS && before == [("a", 1), ("b", 0), ("c", 0), ("d", 0)]
    ensures Accumulate(ps[..6]) == [("a", 1), ("b", 0), ("c", 1), ("d", 0)]
  {
    ListCountsStep5(ps, [("a", 1), ("b", 0), ("c", 0)]);
    AddToAt(before, 2, "c", 0, 1, [("a", 1), ("b", 0), ("c", 1), ("d", 0)]);
    AccumulateStep(ps, 5, "c", 1, before, [("a", 1), ("b", 0), ("c", 1), ("d", 0)]);
  }

  lemma ListCountsStep7(ps: seq<(Token, nat)>, before: Counts)
    requires ps == PS && before == [("a", 1), ("b", 0), ("c", 1), ("d", 0)]
    ensures Accumulate(ps[..7]) == [("a", 1), ("b", 0), ("c", 1), ("d", 0)]
  {
    ListCountsStep6(ps, [("a", 1), ("b", 0), ("c", 0), ("d", 0)]);
    AddToAt(before, 2, "c", 1, 0, before);
    AccumulateStep(ps, 6, "c", 0, before, before);
  }

  lemma ListCountsStep8(ps: seq<(Token, nat)>, before: Counts)
    requires ps == PS && before == [("a", 1), ("b", 0), ("c", 1), ("d", 0)]
    ensures Accumulate(ps[..8]) == [("a", 1), ("b", 0), ("c", 1), ("d", 0), ("e", 0)]
  {
    ListCountsStep7(ps, [("a", 1), ("b", 0), ("c", 1), ("d", 0)]);
    AddToNew(before, "e", 0, [("a", 1), ("b", 0), ("c", 1), ("d", 0), ("e", 0)]);
    AccumulateStep(ps, 7, "e", 0, before, [("a", 1), ("b", 0), ("c", 1), ("d", 0), ("e", 0)]);
  }

  lemma ListCountsStep9(ps: seq<(Token, nat)>, before: Counts)
    requires ps == PS && before == [("a", 1), ("b", 0), ("c", 1), ("d", 0), ("e", 0)]
    ensures Accumulate(ps[..9]) == [("a", 1), ("b", 0), ("c", 2), ("d", 0), ("e", 0)]
  {
    ListCountsStep8(ps, [("a", 1), ("b", 0), ("c", 1), ("d", 0)]);
    AddToAt(before, 2, "c", 1, 1, [("a", 1), ("b", 0), ("c", 2), ("d", 0), ("e", 0)]);
    AccumulateStep(ps, 8, "c", 1, before, [("a", 1), ("b", 0), ("c", 2), ("d", 0), ("e", 0)]);
  }

  lemma ListCountsStep10(ps: seq<(Token, nat)>, before: Counts)
    requires ps == PS && before == [("a", 1), ("b", 0), ("c", 2), ("d", 0), ("e", 0)]
    ensures Accumulate(ps[..10]) == [("a", 1), ("b", 0), ("c", 2), ("d", 0), ("e", 0), ("f", 0)]
  {
    ListCountsStep9(ps, [("a", 1), ("b", 0), ("c", 1), ("d", 0), ("e", 0)]);
    AddToNew(before, "f", 0, [("a", 1), ("b", 0), ("c", 2), ("d", 0), ("e", 0), ("f", 0)]);
    AccumulateStep(ps, 9, "f", 0, before, [("a", 1), ("b", 0), ("c", 2), ("d", 0), ("e", 0), ("f", 0)]);
  }

  lemma ListCountsStep11(ps: seq<(Token, nat)>, before: Counts)
    requires ps == PS && before == [("a", 1), ("b", 0), ("c", 2), ("d", 0), ("e", 0), ("f", 0)]
    ensures Accumulate(ps[..11]) == [("a", 1), ("b", 0), ("c", 2), ("d", 0), ("e", 0), ("f", 0)]
  {
    ListCountsStep10(ps, [("a", 1), ("b", 0), ("c", 2), ("d", 0), ("e", 0)]);
    AddToAt(before, 0, "a", 1, 0, before);
    AccumulateStep(ps, 10, "a", 0, before, before);
  }

  lemma ListCountsStep12(ps: seq<(Token, nat)>, before: Counts)
    requires ps == PS && before == [("a", 1), ("b", 0), ("c", 2), ("d", 0), ("e", 0), ("f", 0)]
    ensures Accumulate(ps[..12]) == [("a", 1), ("b", 0), ("c", 2), ("d", 0), ("e", 0), ("f", 1)]
  {
    ListCountsStep11(ps, [("a", 1), ("b", 0), ("c", 2), ("d", 0), ("e", 0), ("f", 0)]);
    AddToAt(before, 5, "f", 0, 1, [("a", 1), ("b", 0), ("c", 2), ("d", 0), ("e", 0), ("f", 1)]);
    AccumulateStep(ps, 11, "f", 1, before, [("a", 1), ("b", 0), ("c", 2), ("d", 0), ("e", 0), ("f", 1)]);
  }

  /** count_first_choices on the list example: every token gets an entry,
      in order of first appearance. */
  lemma ListCountsExample()
    ensures RcvList.FirstChoiceCounts([["a", "b"], ["c", "d"], ["c", "e"], ["f", "a"]]) == [("a", 1), ("b", 0), ("c", 2), ("d", 0), ("e", 0), ("f", 1)]
  {
    ListFirstChoicePairsExample();
    ListCountsStep12(PS, [("a", 1), ("b", 0), ("c", 2), ("d", 0), ("e", 0), ("f", 0)]);
    assert PS[..12] == PS;
  }

  /** Nobody holds all four first-choice votes of the list example. */
  lemma ListNoMajorityExample(d: Counts)
    requires d == [("a", 1), ("b", 0), ("c", 2), ("d", 0), ("e", 0), ("f", 1)]
    ensures IndexOf(Values(d), Total(d)) == |d|
  {
    var v: seq<nat> := [1, 0, 2, 0, 0, 1];
    assert Values(d) == v;
    var v1: seq<nat> := [1];
    assert Sum(v1) == 1 by {
      assert v1[..0] == [];
    }
    SumSnoc(v1, 0);
    SumSnoc(v1 + [0], 2);
    SumSnoc(v1 + [0] + [2], 0);
    SumSnoc(v1 + [0] + [2] + [0], 0);
    SumSnoc(v1 + [0] + [2] + [0] + [0], 1);
    assert v1 + [0] + [2] + [0] + [0] + [1] == v;
    SumValues(d);
    NoValueIsTotal(d, 4);
  }

  lemma SumSnoc(s: seq<nat>, x: nat)
    ensures Sum(s + [x]) == Sum(s) + x
  {
    assert (s + [x])[..|s|] == s;
  }

  /** When no count equals the total, rcv_round finds nobody holding every vote. */
  lemma NoValueIsTotal(d: Counts, total: nat)
    requires Total(d) == total && total !in Values(d)
    ensures IndexOf(Values(d), Total(d)) == |d|
  {
  }

  /** tie_breaker_index of the `i`-th listed name is `i`. */
  lemma TieBreakerIndexAt(tieBreaker: seq<Token>, i: nat)
    requires i < |tieBreaker| && forall j :: 0 <= j < i ==> tieBreaker[j] != tieBreaker[i]
    ensures TieBreakerIndex(tieBreaker, tieBreaker[i]) == i
  {
  }

  /** The weakest entry of the list example is 'e': b, d and e hold no
      vote, and 'e' comes last in the tie-break a..f. */
  lemma ListWeakestExample(d: Counts, tb: seq<Token>)
    requires d == [("a", 1), ("b", 0), ("c", 2), ("d", 0), ("e", 0), ("f", 1)]
    requires tb == ["a", "b", "c", "d", "e", "f"]
    ensures WeakestAt(d, tb) == 4
  {
    forall i | 0 <= i < 6 ensures TieBreakerIndex(tb, tb[i]) == i {
      TieBreakerIndexAt(tb, i);
    }
    assert forall i :: 0 <= i < 6 ==> d[i].0 == tb[i];
    WeakestAtUnique(d, tb, 4);
  }

  /** Zero-vote candidates b, d and e sort first; of these 'e' is the least
      favoured by the tie-break a..f. */
  lemma ListDecideExample(d: Counts, tb: seq<Token>)
    requires d == [("a", 1), ("b", 0), ("c", 2), ("d", 0), ("e", 0), ("f", 1)]
    requires tb == ["a", "b", "c", "d", "e", "f"]
    ensures Decide(d, tb) == Ok(Eliminate("e"))
  {
    ListNoMajorityExample(d);
    ListWeakestExample(d, tb);
    assert d[4].0 == "e";
  }

  /** Deleting 'e' changes only the ballot ('c', 'e'). */
  lemma ListDeleteNameEExample()
    ensures RcvList.NameDeleted([["a", "b"], ["c", "d"], ["c", "e"], ["f", "a"]], "e", false) == [["a", "b"], ["c", "d"], ["c"], ["f", "a"]]
  {
    var ce: Ballot := ["c", "e"];
    assert Without(ce[..1], "e") == ["c"];
    assert Without(ce, "e") == ["c"];
    var D := RcvList.NameDeleted([["a", "b"], ["c", "d"], ["c", "e"], ["f", "a"]], "e", false);
    assert D[0] == ["a", "b"] && D[1] == ["c", "d"] && D[2] == ["c"] && D[3] == ["f", "a"];
  }

  /** rcv_round on the list example: 'e' is eliminated, and only the ballot
      ('c', 'e') changes. */
  lemma ListRoundEliminatesExample(ballots: seq<Ballot>, tb: seq<Token>)
    requires ballots == [["a", "b"], ["c", "d"], ["c", "e"], ["f", "a"]]
    requires tb == ["a", "b", "c", "d", "e", "f"]
    ensures RcvList.RoundOf(ballots, tb)
         == Ok(Eliminated([("a", 1), ("b", 0), ("c", 2), ("d", 0), ("e", 0), ("f", 1)], "e", [["a", "b"], ["c", "d"], ["c"], ["f", "a"]]))
  {
    ListCountsExample();
    ListDecideExample(RcvList.FirstChoiceCounts(ballots), tb);
    ListDeleteNameEExample();
  }

  /** The merge steps of count_first_choices on the electing example. */
  lemma ListElectsPairsExample()
    ensures RcvList.FirstChoicePairs([["a", "b"], ["a", "c"]]) == EPS
  {
    var L: seq<Ballot> := [["a", "b"], ["a", "c"]];
    assert L[..1] == [["a", "b"]];
    assert RcvList.FirstChoicePairs(L[..1]) == EPS[..3];
  }

  const EPS: seq<(Token, nat)> := [("a", 0), ("b", 0), ("a", 1), ("a", 0), ("c", 0), ("a", 1)]

  // The merge steps of count_first_choices on the electing example, one
  // lemma per step.
  lemma ListElectsStep1(ps: seq<(Token, nat)>, before: Counts)
    requires ps == EPS && before == []
    ensures Accumulate(ps[..1]) == [("a", 0)]
  {
    assert ps[..0] == [];
    AddToNew(before, "a", 0, [("a", 0)]);
    AccumulateStep(ps, 0, "a", 0, before, [("a", 0)]);
  }

  lemma ListElectsStep2(ps: seq<(Token, nat)>, before: Counts)
    requires ps == EPS && before == [("a", 0)]
    ensures Accumulate(ps[..2]) == [("a", 0), ("b", 0)]
  {
    ListElectsStep1(ps, []);
    AddToNew(before, "b", 0, [("a", 0), ("b", 0)]);
    AccumulateStep(ps, 1, "b", 0, before, [("a", 0), ("b", 0)]);
  }

  lemma ListElectsStep3(ps: seq<(Token, nat)>, before: Counts)
    requires ps == EPS && before == [("a", 0), ("b", 0)]
    ensures Accumulate(ps[..3]) == [("a", 1), ("b", 0)]
  {
    ListElectsStep2(ps, [("a", 0)]);
    AddToAt(before, 0, "a", 0, 1, [("a", 1), ("b", 0)]);
    AccumulateStep(ps, 2, "a", 1, before, [("a", 1), ("b", 0)]);
  }

  lemma ListElectsStep4(ps: seq<(Token, nat)>, before: Counts)
    requires ps == EPS && before == [("a", 1), ("b", 0)]
    ensures Accumulate(ps[..4]) == [("a", 1), ("b", 0)]
  {
    ListElectsStep3(ps, [("a", 0), ("b", 0)]);
    AddToAt(before, 0, "a", 1, 0, [("a", 1), ("b", 0)]);
    AccumulateStep(ps, 3, "a", 0, before, [("a", 1), ("b", 0)]);
  }

  lemma ListElectsStep5(ps: seq<(Token, nat)>, before: Counts)
    requires ps == EPS && before == [("a", 1), ("b", 0)]
    ensures Accumulate(ps[..5]) == [("a", 1), ("b", 0), ("c", 0)]
  {
    ListElectsStep4(ps, [("a", 1), ("b", 0)]);
    AddToNew(before, "c", 0, [("a", 1), ("b", 0), ("c", 0)]);
    AccumulateStep(ps, 4, "c", 0, before, [("a", 1), ("b", 0), ("c", 0)]);
  }

  lemma ListElectsStep6(ps: seq<(Token, nat)>, before: Counts)
    requires ps == EPS && before == [("a", 1), ("b", 0), ("c", 0)]
    ensures Accumulate(ps[..6]) == [("a", 2), ("b", 0), ("c", 0)]
  {
    ListElectsStep5(ps, [("a", 1), ("b", 0)]);
    AddToAt(before, 0, "a", 1, 1, [("a", 2), ("b", 0), ("c", 0)]);
    AccumulateStep(ps, 5, "a", 1, before, [("a", 2), ("b", 0), ("c", 0)]);
  }

  /** Both ballots put 'a' first; b and c are counted with no vote. */
  lemma ListElectsCountsExample(ballots: seq<Ballot>)
    requires ballots == [["a", "b"], ["a", "c"]]
    ensures RcvList.FirstChoiceCounts(ballots) == [("a", 2), ("b", 0), ("c", 0)]
  {
    ListElectsPairsExample();
    ListElectsStep6(EPS, [("a", 1), ("b", 0), ("c", 0)]);
    assert EPS[..6] == EPS;
  }

  /** 'a' holds both first-choice votes. */
  lemma ListHoldsAllExample(d: Counts)
    requires d == [("a", 2), ("b", 0), ("c", 0)]
    ensures IndexOf(Values(d), Total(d)) == 0
  {
    var v: seq<nat> := [2, 0, 0];
    assert Values(d) == v;
    var v1: seq<nat> := [2];
    assert Sum(v1) == 2 by {
      assert v1[..0] == [];
    }
    SumSnoc(v1, 0);
    SumSnoc(v1 + [0], 0);
    assert v1 + [0] + [0] == v;
    SumValues(d);
  }

  /** rcv_round on the electing example: 'a' holds every vote and wins,
      and no ballots are returned. */
  lemma ListRoundElectsExample(ballots: seq<Ballot>, tb: seq<Token>)
    requires ballots == [["a", "b"], ["a", "c"]]
    requires tb == ["a", "b", "c"]
    ensures RcvList.RoundOf(ballots, tb) == Ok(Winner("a", [("a", 2), ("b", 0), ("c", 0)]))
  {
    ListElectsCountsExample(ballots);
    ListHoldsAllExample(RcvList.FirstChoiceCounts(ballots));
  }

  lemma TieBreakerIndexExample()
    ensures TieBreakerIndex(["a", "b"], "a") == 0
    ensures TieBreakerIndex(["a", "b"], "c") == 2
  {
  }

  // ---------------------------------------------------------------------
  // The dictionary-tally rcv.py

  /** Each ballot of the tally cut before its first double undervote. */
  lemma DictDoubleUndervotePairsExample(t: RcvDict.Tally)
    requires t == [(["undervote", "undervote", "a"], 1), (["b", "undervote", "undervote", "c"], 1), (["d", "undervote"], 1)]
    ensures RcvDict.DoubleUndervotePairs(t) == [([], 1), (["b"], 1), (["d", "undervote"], 1)]
  {
    ListDoubleUndervotesExample();
    var L: seq<Ballot> := [t[0].0, t[1].0, t[2].0];
    var D := RcvList.DoubleUndervotesDeleted(L);
    assert D[0] == [] && D[1] == ["b"] && D[2] == ["d", "undervote"];
    var ps := RcvDict.DoubleUndervotePairs(t);
    assert ps[0] == ([], 1) && ps[1] == (["b"], 1) && ps[2] == (["d", "undervote"], 1);
  }

  /** delete_double_undervotes on a tally: no two cut ballots collide. */
  lemma DictDoubleUndervotesExample(t: RcvDict.Tally)
    requires t == [(["undervote", "undervote", "a"], 1), (["b", "undervote", "undervote", "c"], 1), (["d", "undervote"], 1)]
    ensures RcvDict.DoubleUndervotesDeleted(t) == [([], 1), (["b"], 1), (["d", "undervote"], 1)]
  {
    DictDoubleUndervotePairsExample(t);
    var ps := RcvDict.DoubleUndervotePairs(t);
    assert |ps[0].0| == 0 && |ps[1].0| == 1 && |ps[2].0| == 2;
    assert DistinctKeys(ps);
    AccumulateDistinct(ps);
  }

  /** Each ballot of the tally cut before its first overvote. */
  lemma DictOvervotePairsExample(t: RcvDict.Tally)
    requires t == [(["a", "overvote", "b"], 4), (["c", "overvote"], 2), (["d"], 1), (["overvote"], 1)]
    ensures RcvDict.NamePairs(t, Overvote, true) == [(["a"], 4), (["c"], 2), (["d"], 1), ([], 1)]
  {
    ListOvervotesExample();
    var L: seq<Ballot> := [t[0].0, t[1].0, t[2].0, t[3].0];
    var D := RcvList.OvervotesDeleted(L);
    assert D[0] == ["a"] && D[1] == ["c"] && D[2] == ["d"] && D[3] == [];
    var ps := RcvDict.NamePairs(t, Overvote, true);
    assert ps[0] == (["a"], 4) && ps[1] == (["c"], 2) && ps[2] == (["d"], 1) && ps[3] == ([], 1);
  }

  /** delete_overvotes on a tally keeps each count with its cut ballot. */
  lemma DictOvervotesExample(t: RcvDict.Tally)
    requires t == [(["a", "overvote", "b"], 4), (["c", "overvote"], 2), (["d"], 1), (["overvote"], 1)]
    ensures RcvDict.OvervotesDeleted(t) == [(["a"], 4), (["c"], 2), (["d"], 1), ([], 1)]
  {
    DictOvervotePairsExample(t);
    var ps := RcvDict.NamePairs(t, Overvote, true);
    DictOvervoteKeysDistinct(ps);
    AccumulateDistinct(ps);
  }

  lemma DictOvervoteKeysDistinct(ps: seq<(Ballot, nat)>)
    requires ps == [(["a"], 4), (["c"], 2), (["d"], 1), ([], 1)]
    ensures DistinctKeys(ps)
  {
    assert ps[0].0[0] == "a" && ps[1].0[0] == "c" && ps[2].0[0] == "d" && |ps[3].0| == 0;
  }

  /** Both ballots put 'a' first. */
  lemma DictElectsCountsExample(t: RcvDict.Tally)
    requires t == [(["a", "b"], 1), (["a", "c"], 1)]
    ensures RcvDict.FirstChoiceCounts(t) == [("a", 2)]
  {
    assert t[..1] == [(["a", "b"], 1)];
    assert RcvDict.FirstChoicePairs(t[..1]) == [("a", 1)];
    assert RcvDict.FirstChoicePairs(t) == [("a", 1), ("a", 1)];
    DictElectsMergeExample(RcvDict.FirstChoicePairs(t));
  }

  lemma DictElectsMergeExample(ps: seq<(Token, nat)>)
    requires ps == [("a", 1), ("a", 1)]
    ensures Accumulate(ps) == [("a", 2)]
  {
    DictElectsStep2(ps, [("a", 1)]);
    assert ps[..2] == ps;
  }

  // The merge steps of count_first_choices on the electing example.
  lemma DictElectsStep1(ps: seq<(Token, nat)>, before: Counts)
    requires ps == [("a", 1), ("a", 1)] && before == []
    ensures Accumulate(ps[..1]) == [("a", 1)]
  {
    assert ps[..0] == [];
    AddToNew(before, "a", 1, [("a", 1)]);
    AccumulateStep(ps, 0, "a", 1, before, [("a", 1)]);
  }

  lemma DictElectsStep2(ps: seq<(Token, nat)>, before: Counts)
    requires ps == [("a", 1), ("a", 1)] && before == [("a", 1)]
    ensures Accumulate(ps[..2]) == [("a", 2)]
  {
    DictElectsStep1(ps, []);
    AddToAt(before, 0, "a", 1, 1, [("a", 2)]);
    AccumulateStep(ps, 1, "a", 1, before, [("a", 2)]);
  }

  /** rcv_round elects the only first choice. */
  lemma DictRoundElectsExample(t: RcvDict.Tally, tb: seq<Token>)
    requires t == [(["a", "b"], 1), (["a", "c"], 1)]
    requires tb == ["a", "b", "c"]
    ensures RcvDict.RoundOf(t, tb) == Ok(Winner("a", [("a", 2)]))
  {
    DictElectsCountsExample(t);
  }

  /** delete_undervotes on a tally: first the double undervotes, then every
      remaining undervote; no two cleaned ballots collide. */
  lemma DictUndervotesExample(t: RcvDict.Tally)
    requires t == [(["undervote", "a"], 1), (["undervote", "undervote", "b"], 1), (["c", "undervote"], 1)]
    ensures RcvDict.UndervotesDeleted(t) == [(["a"], 1), ([], 1), (["c"], 1)]
  {
    DictUndervotePairsExample(t);
    var ps := RcvDict.DoubleUndervotePairs(t);
    assert ps[0].0[0] == "undervote" && |ps[1].0| == 0 && ps[2].0[0] == "c";
    assert DistinctKeys(ps);
    AccumulateDistinct(ps);
    var d := RcvDict.DoubleUndervotesDeleted(t);
    DictUndervoteNamePairsExample(d);
    var qs := RcvDict.NamePairs(d, Undervote, false);
    assert qs[0].0[0] == "a" && |qs[1].0| == 0 && qs[2].0[0] == "c";
    assert DistinctKeys(qs);
    AccumulateDistinct(qs);
  }

  /** Only the first ballot has a double undervote, and it is cut to (). */
  lemma DictUndervotePairsExample(t: RcvDict.Tally)
    requires t == [(["undervote", "a"], 1), (["undervote", "undervote", "b"], 1), (["c", "undervote"], 1)]
    ensures RcvDict.DoubleUndervotePairs(t) == [(["undervote", "a"], 1), ([], 1), (["c", "undervote"], 1)]
  {
    var b0 := t[0].0;
    assert FirstDoubleUndervote(b0[1..]) == 1;
    assert FirstDoubleUndervote(b0) == 2;
    assert b0[..2] == b0;
    assert FirstDoubleUndervote(t[1].0) == 0;
    var b2 := t[2].0;
    assert FirstDoubleUndervote(b2[1..]) == 1;
    assert FirstDoubleUndervote(b2) == 2;
    assert b2[..2] == b2;
    var ps := RcvDict.DoubleUndervotePairs(t);
    assert ps[0] == (b0, 1) && ps[1] == ([], 1) && ps[2] == (b2, 1);
  }

  /** Each remaining undervote is dropped, keeping the rest of the ballot. */
  lemma DictUndervoteNamePairsExample(d: RcvDict.Tally)
    requires d == [(["undervote", "a"], 1), ([], 1), (["c", "undervote"], 1)]
    ensures RcvDict.NamePairs(d, Undervote, false) == [(["a"], 1), ([], 1), (["c"], 1)]
  {
    var b0 := d[0].0;
    assert Without(b0[..1], "undervote") == [];
    assert Without(b0, "undervote") == ["a"];
    var b2 := d[2].0;
    assert Without(b2[..1], "undervote") == ["c"];
    assert Without(b2, "undervote") == ["c"];
    var qs := RcvDict.NamePairs(d, Undervote, false);
    assert qs[0] == (["a"], 1) && qs[1] == ([], 1) && qs[2] == (["c"], 1);
  }

  /** The first-choice counts of the rcv_round example below. */
  lemma DictCountsExample(t: RcvDict.Tally)
    requires t == [(["a", "b"], 1), (["c", "d"], 1), (["c", "e"], 1), (["f", "a"], 1)]
    ensures RcvDict.FirstChoiceCounts(t) == [("a", 1), ("c", 2), ("f", 1)]
  {
    DictFirstChoicePairsExample(t);
    DictCountsMergeExample(RcvDict.FirstChoicePairs(t));
  }

  lemma DictCountsMergeExample(ps: seq<(Token, nat)>)
    requires ps == [("a", 1), ("c", 1), ("c", 1), ("f", 1)]
    ensures Accumulate(ps) == [("a", 1), ("c", 2), ("f", 1)]
  {
    DictCountsStep4(ps, [("a", 1), ("c", 2)]);
    assert ps[..4] == ps;
  }

  // The merge steps of count_first_choices on the rcv_round example.
  lemma DictCountsStep1(ps: seq<(Token, nat)>, before: Counts)
    requires ps == [("a", 1), ("c", 1), ("c", 1), ("f", 1)] && before == []
    ensures Accumulate(ps[..1]) == [("a", 1)]
  {
    assert ps[..0] == [];
    AddToNew(before, "a", 1, [("a", 1)]);
    AccumulateStep(ps, 0, "a", 1, before, [("a", 1)]);
  }

  lemma DictCountsStep2(ps: seq<(Token, nat)>, before: Counts)
    requires ps == [("a", 1), ("c", 1), ("c", 1), ("f", 1)] && before == [("a", 1)]
    ensures Accumulate(ps[..2]) == [("a", 1), ("c", 1)]
  {
    DictCountsStep1(ps, []);
    AddToNew(before, "c", 1, [("a", 1), ("c", 1)]);
    AccumulateStep(ps, 1, "c", 1, before, [("a", 1), ("c", 1)]);
  }

  lemma DictCountsStep3(ps: seq<(Token, nat)>, before: Counts)
    requires ps == [("a", 1), ("c", 1), ("c", 1), ("f", 1)] && before == [("a", 1), ("c", 1)]
    ensures Accumulate(ps[..3]) == [("a", 1), ("c", 2)]
  {
    DictCountsStep2(ps, [("a", 1)]);
    AddToAt(before, 1, "c", 1, 1, [("a", 1), ("c", 2)]);
    AccumulateStep(ps, 2, "c", 1, before, [("a", 1), ("c", 2)]);
  }

  lemma DictCountsStep4(ps: seq<(Token, nat)>, before: Counts)
    requires ps == [("a", 1), ("c", 1), ("c", 1), ("f", 1)] && before == [("a", 1), ("c", 2)]
    ensures Accumulate(ps[..4]) == [("a", 1), ("c", 2), ("f", 1)]
  {
    DictCountsStep3(ps, [("a", 1), ("c", 1)]);
    AddToNew(before, "f", 1, [("a", 1), ("c", 2), ("f", 1)]);
    AccumulateStep(ps, 3, "f", 1, before, [("a", 1), ("c", 2), ("f", 1)]);
  }

  /** One merge step per non-empty ballot, in order. */
  lemma DictFirstChoicePairsExample(t: RcvDict.Tally)
    requires t == [(["a", "b"], 1), (["c", "d"], 1), (["c", "e"], 1), (["f", "a"], 1)]
    ensures RcvDict.FirstChoicePairs(t) == [("a", 1), ("c", 1), ("c", 1), ("f", 1)]
  {
    assert t[..1] == [(["a", "b"], 1)];
    assert t[..2] == [(["a", "b"], 1), (["c", "d"], 1)];
    assert t[..3] == [(["a", "b"], 1), (["c", "d"], 1), (["c", "e"], 1)];
    var ps := [("a", 1), ("c", 1), ("c", 1), ("f", 1)];
    assert RcvDict.FirstChoicePairs(t[..1]) == ps[..1];
    assert RcvDict.FirstChoicePairs(t[..2]) == ps[..2];
    assert t[..3][..2] == t[..2] && t[..2][..1] == t[..1];
    assert RcvDict.FirstChoicePairs(t[..3]) == ps[..3];
  }

  /** With counts a:1, c:2, f:1 nobody holds all four votes. */
  lemma DictNoMajorityExample(d: Counts)
    requires d == [("a", 1), ("c", 2), ("f", 1)]
    ensures IndexOf(Values(d), Total(d)) == |d|
  {
    var v: seq<nat> := [1, 2, 1];
    assert Values(d) == v;
    var v1: seq<nat> := [1];
    assert Sum(v1) == 1 by {
      assert v1[..0] == [];
    }
    SumSnoc(v1, 2);
    SumSnoc(v1 + [2], 1);
    assert v1 + [2] + [1] == v;
    SumValues(d);
    NoValueIsTotal(d, 4);
  }

  /** Of a and f, tied on one vote, 'f' comes later in the tie-break a..f. */
  lemma DictWeakestExample(d: Counts, tb: seq<Token>)
    requires d == [("a", 1), ("c", 2), ("f", 1)]
    requires tb == ["a", "b", "c", "d", "e", "f"]
    ensures WeakestAt(d, tb) == 2
  {
    TieBreakerIndexAt(tb, 0);
    TieBreakerIndexAt(tb, 2);
    TieBreakerIndexAt(tb, 5);
    assert d[0].0 == tb[0] && d[1].0 == tb[2] && d[2].0 == tb[5];
    StrLessIrreflexive(d[2].0);
    WeakestAtUnique(d, tb, 2);
  }

  /** With counts a:1, c:2, f:1 and tie-break a..f, nobody holds all four
      votes and 'f' sorts first: fewest votes, least favoured. */
  lemma DictDecideExample(d: Counts, tb: seq<Token>)
    requires d == [("a", 1), ("c", 2), ("f", 1)]
    requires tb == ["a", "b", "c", "d", "e", "f"]
    ensures Decide(d, tb) == Ok(Eliminate("f"))
  {
    DictNoMajorityExample(d);
    DictWeakestExample(d, tb);
    assert d[2].0 == "f";
  }

  /** Deleting 'f' changes only the ballot ('f', 'a'). */
  lemma DictDeleteNameExample()
    ensures RcvDict.NameDeleted([(["a", "b"], 1), (["c", "d"], 1), (["c", "e"], 1), (["f", "a"], 1)], "f", false)
         == [(["a", "b"], 1), (["c", "d"], 1), (["c", "e"], 1), (["a"], 1)]
  {
    var t: RcvDict.Tally := [(["a", "b"], 1), (["c", "d"], 1), (["c", "e"], 1), (["f", "a"], 1)];
    var qs := RcvDict.NamePairs(t, "f", false);
    var fa: Ballot := ["f", "a"];
    assert Without(fa[..1], "f") == [];
    assert Without(fa, "f") == ["a"];
    assert qs == [(["a", "b"], 1), (["c", "d"], 1), (["c", "e"], 1), (["a"], 1)];
    assert DistinctKeys(qs);
    AccumulateDistinct(qs);
  }

  /** rcv_round with tie-break a..f: 'a' and 'f' tie at one vote, 'f' is
      the less favoured and is eliminated, and only ('f', 'a') changes. */
  lemma DictRoundEliminatesExample()
    ensures RcvDict.RoundOf([(["a", "b"], 1), (["c", "d"], 1), (["c", "e"], 1), (["f", "a"], 1)], ["a", "b", "c", "d", "e", "f"])
         == Ok(Eliminated([("a", 1), ("c", 2), ("f", 1)], "f", [(["a", "b"], 1), (["c", "d"], 1), (["c", "e"], 1), (["a"], 1)]))
  {
    DictCountsExample([(["a", "b"], 1), (["c", "d"], 1), (["c", "e"], 1), (["f", "a"], 1)]);
    DictDecideExample([("a", 1), ("c", 2), ("f", 1)], ["a", "b", "c", "d", "e", "f"]);
    DictDeleteNameExample();
  }
}
