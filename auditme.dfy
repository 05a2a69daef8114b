// The RCV audit driver of the dictionary-tally version: the voting method
// that runs instant-runoff on a simulated tally (rcv_wrapper), the candidate
// list (get_candidates), the per-trial win counting of compute_win_probs_rcv
// and the sample thinning of audit.

module AuditMe {
  import opened Collections
  import opened Ballots
  import RcvDict
  import Bptool

  type Tally = RcvDict.Tally

  // ---------------------------------------------------------------------
  // rcv_wrapper

  /** The tally rcv_wrapper builds: `tally[unique_ballots[index]] = count`
      for each pair, in order; an index past the end is an IndexError. */
  function WrapperTally(uniqueBallots: seq<Ballot>, tallyList: seq<(nat, nat)>): Result<Tally>
  {
    if |tallyList| == 0 then Ok([])
    else
      var (index, count) := tallyList[|tallyList| - 1];
      match WrapperTally(uniqueBallots, tallyList[..|tallyList| - 1])
      case Err(f) => Err(f)
      case Ok(t) => if index < |uniqueBallots| then Ok(Put(t, uniqueBallots[index], count)) else Err(IndexOutOfRange)
  }

  /** What one trial of the audit returns: the RCV winner of the simulated
      tally, with an empty tie-breaker. */
  function WrapperOutcome(uniqueBallots: seq<Ballot>, tallyList: seq<(nat, nat)>): Result<Token>
  {
    match WrapperTally(uniqueBallots, tallyList)
    case Err(f) => Err(f)
    case Ok(t) => RcvDict.WinnerOf(t, [])
  }

  /** Every index names a unique ballot. */
  predicate IndicesInRange(uniqueBallots: seq<Ballot>, tallyList: seq<(nat, nat)>)
  {
    forall i :: 0 <= i < |tallyList| ==> tallyList[i].0 < |uniqueBallots|
  }

  /** rcv_wrapper builds its tally exactly when every index is in range;
      the tally is a dict over unique ballots holding every listed one. */
  lemma WrapperTallySpec(uniqueBallots: seq<Ballot>, tallyList: seq<(nat, nat)>)
    ensures WrapperTally(uniqueBallots, tallyList).Ok? <==> IndicesInRange(uniqueBallots, tallyList)
    ensures WrapperTally(uniqueBallots, tallyList).Err? ==> WrapperTally(uniqueBallots, tallyList).error == IndexOutOfRange
    ensures WrapperTally(uniqueBallots, tallyList).Ok? ==>
      var t := WrapperTally(uniqueBallots, tallyList).value;
      DistinctKeys(t) && (forall b :: HasKey(t, b) <==> exists i :: 0 <= i < |tallyList| && uniqueBallots[tallyList[i].0] == b)
  {
    WrapperTallyOk(uniqueBallots, tallyList);
    if IndicesInRange(uniqueBallots, tallyList) {
      WrapperTallyKeys(uniqueBallots, tallyList);
      forall b ensures Listed(uniqueBallots, tallyList, b) <==>
        exists i :: 0 <= i < |tallyList| && uniqueBallots[tallyList[i].0] == b
      {
      }
    }
  }

  lemma {:induction false} WrapperTallyOk(uniqueBallots: seq<Ballot>, tallyList: seq<(nat, nat)>)
    ensures WrapperTally(uniqueBallots, tallyList).Ok? <==> IndicesInRange(uniqueBallots, tallyList)
    ensures WrapperTally(uniqueBallots, tallyList).Err? ==> WrapperTally(uniqueBallots, tallyList).error == IndexOutOfRange
    decreases |tallyList|
  {
    if |tallyList| > 0 {
      var n := |tallyList|;
      var front := tallyList[..n - 1];
      WrapperTallyOk(uniqueBallots, front);
      assert forall i :: 0 <= i < n - 1 ==> front[i] == tallyList[i];
      assert IndicesInRange(uniqueBallots, tallyList) <==>
        IndicesInRange(uniqueBallots, front) && tallyList[n - 1].0 < |uniqueBallots|;
    }
  }

  /** Some entry of the tally list names the unique ballot `b`. */
  ghost predicate Listed(uniqueBallots: seq<Ballot>, tallyList: seq<(nat, nat)>, b: Ballot)
  {
    exists i :: 0 <= i < |tallyList| && tallyList[i].0 < |uniqueBallots| && uniqueBallots[tallyList[i].0] == b
  }

  lemma {:induction false} WrapperTallyKeys(uniqueBallots: seq<Ballot>, tallyList: seq<(nat, nat)>)
    requires IndicesInRange(uniqueBallots, tallyList)
    ensures WrapperTally(uniqueBallots, tallyList).Ok?
    ensures var t := WrapperTally(uniqueBallots, tallyList).value;
      DistinctKeys(t) && (forall b :: HasKey(t, b) <==> Listed(uniqueBallots, tallyList, b))
    decreases |tallyList|
  {
    if |tallyList| > 0 {
      var front, last := tallyList[..|tallyList| - 1], tallyList[|tallyList| - 1];
      assert tallyList == front + [last];
      assert IndicesInRange(uniqueBallots, front) by {
        assert forall i :: 0 <= i < |front| ==> front[i] == tallyList[i];
      }
      WrapperTallyKeys(uniqueBallots, front);
      WrapperTallyKeysNext(uniqueBallots, front, last);
    }
  }

  lemma WrapperTallyKeysNext(uniqueBallots: seq<Ballot>, front: seq<(nat, nat)>, last: (nat, nat))
    requires WrapperTally(uniqueBallots, front).Ok? && last.0 < |uniqueBallots|
    requires var t := WrapperTally(uniqueBallots, front).value;
      DistinctKeys(t) && (forall b :: HasKey(t, b) <==> Listed(uniqueBallots, front, b))
    ensures WrapperTally(uniqueBallots, front + [last]).Ok?
    ensures var t := WrapperTally(uniqueBallots, front + [last]).value;
      DistinctKeys(t) && (forall b :: HasKey(t, b) <==> Listed(uniqueBallots, front + [last], b))
  {
    var tl := front + [last];
    assert tl[..|tl| - 1] == front;
    var t := WrapperTally(uniqueBallots, front).value;
    var key := uniqueBallots[last.0];
    assert WrapperTally(uniqueBallots, tl) == Ok(Put(t, key, last.1));
    PutKeys(t, key, last.1);
    forall b ensures HasKey(Put(t, key, last.1), b) <==> Listed(uniqueBallots, tl, b) {
      ListedSnoc(uniqueBallots, front, last, b);
    }
  }

  lemma ListedSnoc(uniqueBallots: seq<Ballot>, front: seq<(nat, nat)>, last: (nat, nat), b: Ballot)
    requires last.0 < |uniqueBallots|
    ensures Listed(uniqueBallots, front + [last], b) <==> Listed(uniqueBallots, front, b) || uniqueBallots[last.0] == b
  {
    var tl := front + [last];
    if Listed(uniqueBallots, tl, b) {
      var i :| 0 <= i < |tl| && tl[i].0 < |uniqueBallots| && uniqueBallots[tl[i].0] == b;
      if i < |front| {
        assert front[i] == tl[i];
      }
    }
    if Listed(uniqueBallots, front, b) {
      var i :| 0 <= i < |front| && front[i].0 < |uniqueBallots| && uniqueBallots[front[i].0] == b;
      assert tl[i] == front[i];
    }
    if uniqueBallots[last.0] == b {
      assert tl[|front|] == last;
    }
  }

  /** Distinct ballots, as the keys of a dict are. */
  predicate Distinct(uniqueBallots: seq<Ballot>)
  {
    forall i, j :: 0 <= i < j < |uniqueBallots| ==> uniqueBallots[i] != uniqueBallots[j]
  }

  /** Each unique ballot paired with the count at its position. */
  function Zip(uniqueBallots: seq<Ballot>, counts: seq<nat>): Tally
    requires |counts| == |uniqueBallots|
  {
    seq(|counts|, i requires 0 <= i < |counts| => (uniqueBallots[i], counts[i]))
  }

  /** Position `j` of the count vector belongs to `unique_ballots[j]`: on
      an indexed tally vector as compute_winner builds it, rcv_wrapper
      pairs each unique ballot with the count at its own position. */
  lemma {:induction false} WrapperTallyIndexed(uniqueBallots: seq<Ballot>, counts: seq<nat>, n: nat)
    requires |counts| == |uniqueBallots| && Distinct(uniqueBallots) && n <= |counts|
    ensures WrapperTally(uniqueBallots, Bptool.Indexed(counts)[..n]) == Ok(Zip(uniqueBallots, counts)[..n])
    decreases n
  {
    if n > 0 {
      var tl := Bptool.Indexed(counts)[..n];
      assert tl[..n - 1] == Bptool.Indexed(counts)[..n - 1];
      WrapperTallyIndexed(uniqueBallots, counts, n - 1);
      var prev := Zip(uniqueBallots, counts)[..n - 1];
      assert !HasKey(prev, uniqueBallots[n - 1]) by {
        HasKeyIff(prev, uniqueBallots[n - 1]);
      }
      assert Zip(uniqueBallots, counts)[..n] == prev + [(uniqueBallots[n - 1], counts[n - 1])];
    }
  }

  /** rcv_wrapper in audit_me.py: the tally filled from the pairs in a
      loop, then the RCV winner with an empty tie-breaker. */
  method RcvWrapper(uniqueBallots: seq<Ballot>, tallyList: seq<(nat, nat)>) returns (r: Result<Token>)
    ensures r == WrapperOutcome(uniqueBallots, tallyList)
  {
    var tally: Tally := [];
    for i := 0 to |tallyList|
      invariant WrapperTally(uniqueBallots, tallyList[..i]) == Ok(tally)
    {
      var (index, count) := tallyList[i];
      assert tallyList[..i + 1][..i] == tallyList[..i];
      if index >= |uniqueBallots| {
        WrapperTallyErrSticks(uniqueBallots, tallyList, i + 1, |tallyList|);
        assert tallyList[..|tallyList|] == tallyList;
        return Err(IndexOutOfRange);
      }
      tally := Put(tally, uniqueBallots[index], count);
    }
    assert tallyList[..|tallyList|] == tallyList;
    r := RcvDict.RcvWinner(tally, []);
  }

  lemma {:induction false} WrapperTallyErrSticks(uniqueBallots: seq<Ballot>, tallyList: seq<(nat, nat)>, n: nat, m: nat)
    requires n <= m <= |tallyList| && WrapperTally(uniqueBallots, tallyList[..n]).Err?
    ensures WrapperTally(uniqueBallots, tallyList[..m]) == WrapperTally(uniqueBallots, tallyList[..n])
    decreases m - n
  {
    if n < m {
      WrapperTallyErrSticks(uniqueBallots, tallyList, n, m - 1);
      assert tallyList[..m][..m - 1] == tallyList[..m - 1];
    }
  }

  /** A trial of the audit elects a name written on some unique ballot, or
      fails: with an IndexError when an index is out of range, else because
      every candidate was eliminated. */
  lemma WrapperWinnerKnown(uniqueBallots: seq<Ballot>, tallyList: seq<(nat, nat)>)
    ensures WrapperOutcome(uniqueBallots, tallyList).Ok? ==> WrapperOutcome(uniqueBallots, tallyList).value in Tokens(uniqueBallots)
    ensures WrapperOutcome(uniqueBallots, tallyList).Err? ==>
      WrapperOutcome(uniqueBallots, tallyList).error ==
        if IndicesInRange(uniqueBallots, tallyList) then AllCandidatesEliminated else IndexOutOfRange
  {
    WrapperTallySpec(uniqueBallots, tallyList);
    var r := WrapperTally(uniqueBallots, tallyList);
    if r.Ok? {
      var t := r.value;
      RcvDict.WinnerOfSpec(t, []);
      var w := WrapperOutcome(uniqueBallots, tallyList);
      if w.Ok? {
        TokensIff(Keys(t), w.value);
        var i :| 0 <= i < |Keys(t)| && w.value in Keys(t)[i];
        assert HasKey(t, Keys(t)[i]);
        var j :| 0 <= j < |tallyList| && uniqueBallots[tallyList[j].0] == Keys(t)[i];
        TokensIff(uniqueBallots, w.value);
      }
    }
  }

  // ---------------------------------------------------------------------
  // get_candidates

  /** get_candidates: every name on any ballot key of the tally, each once;
      `list(set)` fixes no order, so none is promised. */
  method GetCandidates(tally: Tally) returns (names: seq<Token>)
    ensures forall x :: x in names <==> x in RcvDict.BallotTokens(tally)
    ensures forall i, j :: 0 <= i < j < |names| ==> names[i] != names[j]
  {
    var candidateNames: set<Token> := {};
    var keys := Keys(tally);
    for i := 0 to |keys|
      invariant candidateNames == Tokens(keys[..i])
    {
      var ballot := keys[i];
      assert keys[..i + 1][..i] == keys[..i];
      for j := 0 to |ballot|
        invariant candidateNames == Tokens(keys[..i]) + set x | x in ballot[..j]
      {
        assert forall x :: x in ballot[..j + 1] <==> x in ballot[..j] || x == ballot[j];
        candidateNames := candidateNames + {ballot[j]};
      }
      assert ballot[..|ballot|] == ballot;
    }
    assert keys[..|keys|] == keys;
    names := [];
    var rest := candidateNames;
    while rest != {}
      invariant forall x :: x in candidateNames <==> x in names || x in rest
      invariant forall x :: x in names ==> x !in rest
      invariant forall i, j :: 0 <= i < j < |names| ==> names[i] != names[j]
      decreases rest
    {
      var x :| x in rest;
      names := names + [x];
      rest := rest - {x};
    }
  }

  // ---------------------------------------------------------------------
  // The sample thinning of audit

  /** The sample tally of audit: each ballot kept with its count divided by
      1000, rounded down, when that is above zero. */
  function Thinned(tally: Tally): Tally
  {
    if |tally| == 0 then []
    else
      var (key, count) := tally[|tally| - 1];
      var prev := Thinned(tally[..|tally| - 1]);
      if count / 1000 > 0 then Put(prev, key, count / 1000) else prev
  }

  /** On a dict, thinning keeps exactly the ballots with at least 1000
      votes, each with its count divided by 1000. */
  lemma ThinnedSpec(tally: Tally)
    requires DistinctKeys(tally)
    ensures DistinctKeys(Thinned(tally))
    ensures forall b :: HasKey(Thinned(tally), b) <==> HasKey(tally, b) && Get(tally, b) / 1000 > 0
    ensures forall b :: HasKey(Thinned(tally), b) ==> Get(Thinned(tally), b) == Get(tally, b) / 1000
  {
    ThinnedKeys(tally);
    forall b
      ensures HasKey(Thinned(tally), b) <==> HasKey(tally, b) && Get(tally, b) / 1000 > 0
      ensures HasKey(Thinned(tally), b) ==> Get(Thinned(tally), b) == Get(tally, b) / 1000
    {
      assert ThinnedAt(tally, Thinned(tally), b);
    }
  }

  /** What ThinnedSpec says about one ballot `b`. */
  ghost predicate ThinnedAt(tally: Tally, th: Tally, b: Ballot)
  {
    (HasKey(th, b) <==> HasKey(tally, b) && Get(tally, b) / 1000 > 0) &&
    (HasKey(th, b) ==> HasKey(tally, b) && Get(th, b) == Get(tally, b) / 1000)
  }

  /** ThinnedSpec, by induction on the dict. */
  lemma {:induction false} ThinnedKeys(tally: Tally)
    requires DistinctKeys(tally)
    ensures DistinctKeys(Thinned(tally))
    ensures forall b :: ThinnedAt(tally, Thinned(tally), b)
    decreases |tally|
  {
    if |tally| > 0 {
      var front, last := tally[..|tally| - 1], tally[|tally| - 1];
      assert tally == front + [last];
      assert forall i :: 0 <= i < |front| ==> front[i] == tally[i];
      ThinnedKeys(front);
      ThinnedStep(front, last);
      forall b ensures ThinnedAt(tally, Thinned(tally), b) {
        ThinnedStepAt(front, last, b);
      }
    }
  }

  /** The step of ThinnedKeys: the thinned dict keeps distinct keys. */
  lemma ThinnedStep(front: Tally, last: (Ballot, nat))
    requires DistinctKeys(Thinned(front))
    ensures DistinctKeys(Thinned(front + [last]))
  {
    var d := front + [last];
    assert d[..|d| - 1] == front;
    var c, prev := last.1 / 1000, Thinned(front);
    assert Thinned(d) == if c > 0 then Put(prev, last.0, c) else prev;
    if c > 0 {
      PutKeys(prev, last.0, c);
    }
  }

  /** The step of ThinnedKeys for one ballot: the new entry's ballot is new,
      and the earlier ballots keep their counts. */
  lemma ThinnedStepAt(front: Tally, last: (Ballot, nat), b: Ballot)
    requires DistinctKeys(front + [last]) && ThinnedAt(front, Thinned(front), b)
    ensures ThinnedAt(front + [last], Thinned(front + [last]), b)
  {
    var d := front + [last];
    assert d[..|d| - 1] == front;
    LastEntry(d);
    var c, prev := last.1 / 1000, Thinned(front);
    assert Thinned(d) == if c > 0 then Put(prev, last.0, c) else prev;
    if c > 0 {
      if b == last.0 {
        PutSame(prev, last.0, c);
      } else {
        PutOther(prev, last.0, c, b);
      }
    }
  }

  /** Every sampled count is at most a thousandth of its ballot's votes,
      so 1000 times the sample size is at most the number of votes. */
  lemma {:induction false} ThinnedTotal(tally: Tally)
    ensures 1000 * Total(Thinned(tally)) <= Total(tally)
    decreases |tally|
  {
    if |tally| > 0 {
      var front, last := tally[..|tally| - 1], tally[|tally| - 1];
      assert tally == front + [last];
      ThinnedTotal(front);
      ThinnedTotalNext(front, last);
    }
  }

  lemma ThinnedTotalNext(front: Tally, last: (Ballot, nat))
    requires 1000 * Total(Thinned(front)) <= Total(front)
    ensures 1000 * Total(Thinned(front + [last])) <= Total(front + [last])
  {
    var tl := front + [last];
    assert tl[..|tl| - 1] == front;
    TotalAppend(front, last);
    var prev, c := Thinned(front), last.1 / 1000;
    ThousandthBound(last.1);
    if c > 0 {
      assert Thinned(tl) == Put(prev, last.0, c);
      var i := IndexOf(Keys(prev), last.0);
      if i < |prev| {
        TotalReplace(prev, i, (last.0, c));
      } else {
        TotalAppend(prev, (last.0, c));
      }
    } else {
      assert Thinned(tl) == prev;
    }
  }

  lemma ThousandthBound(count: nat)
    ensures 1000 * (count / 1000) <= count
  {
  }

  /** The thinning loop of audit. */
  method ThinSample(tally: Tally) returns (sampleTally: Tally)
    ensures sampleTally == Thinned(tally)
  {
    sampleTally := [];
    for i := 0 to |tally|
      invariant sampleTally == Thinned(tally[..i])
    {
      var (key, count) := tally[i];
      assert tally[..i + 1][..i] == tally[..i];
      var newCount := count / 1000;
      if newCount > 0 {
        sampleTally := Put(sampleTally, key, newCount);
      }
    }
    assert tally[..|tally|] == tally;
  }

  /** `[sample_tally[name] for name in unique_ballots]`. */
  function SampleVector(sampleTally: Tally, uniqueBallots: seq<Ballot>): seq<nat>
    requires forall i :: 0 <= i < |uniqueBallots| ==> HasKey(sampleTally, uniqueBallots[i])
  {
    seq(|uniqueBallots|, j requires 0 <= j < |uniqueBallots| => Get(sampleTally, uniqueBallots[j]))
  }

  /** With `unique_ballots` the keys of the sample tally, the sample vector
      is its list of values, and rcv_wrapper rebuilds the sample tally
      from that vector: the two orders agree. */
  lemma SampleVectorRoundTrip(sampleTally: Tally)
    requires DistinctKeys(sampleTally)
    ensures forall i :: 0 <= i < |Keys(sampleTally)| ==> HasKey(sampleTally, Keys(sampleTally)[i])
    ensures SampleVector(sampleTally, Keys(sampleTally)) == Values(sampleTally)
    ensures WrapperTally(Keys(sampleTally), Bptool.Indexed(Values(sampleTally))) == Ok(sampleTally)
  {
    var ub := Keys(sampleTally);
    forall i | 0 <= i < |ub| ensures HasKey(sampleTally, ub[i]) && Get(sampleTally, ub[i]) == sampleTally[i].1 {
      GetAt(sampleTally, i);
    }
    var counts := Values(sampleTally);
    WrapperTallyIndexed(ub, counts, |counts|);
    assert Bptool.Indexed(counts)[..|counts|] == Bptool.Indexed(counts);
    assert Zip(ub, counts)[..|counts|] == sampleTally;
  }

  // ---------------------------------------------------------------------
  // compute_win_probs_rcv

  /** One trial of the audit as a function of the seed: compute_winner
      with rcv_wrapper as the voting method. */
  function AuditTrials(samples: seq<seq<nat>>, totals: seq<int>, draw: Bptool.Draw, uniqueBallots: seq<Ballot>): int -> Result<Token>
  {
    Bptool.VoteTrials(samples, totals, draw, t => WrapperOutcome(uniqueBallots, t))
  }

  lemma AuditTrialsAt(samples: seq<seq<nat>>, totals: seq<int>, draw: Bptool.Draw, uniqueBallots: seq<Ballot>, s: int)
    ensures AuditTrials(samples, totals, draw, uniqueBallots)(s) ==
      match Bptool.FinalTallies(samples, totals, s, draw)
      case Err(f) => Err(f)
      case Ok(t) => WrapperOutcome(uniqueBallots, t)
  {
  }

  /** `{name : win_count[name] / total_count for name in win_count}`. */
  function Ratios(wc: Dict<Token, nat>): Dict<Token, Bptool.Ratio>
  {
    seq(|wc|, i requires 0 <= i < |wc| => (wc[i].0, Bptool.Ratio(wc[i].1, Total(wc))))
  }

  /** The numbers of wins behind a table of ratios. */
  function Wins(probs: Dict<Token, Bptool.Ratio>): Dict<Token, nat>
  {
    seq(|probs|, i requires 0 <= i < |probs| => (probs[i].0, probs[i].1.num))
  }

  /** compute_win_probs_rcv in audit_me.py: the named win counts, then
      each over their total, which fails on zero trials when there is a
      name. */
  function WinProbs(trials: int -> Result<Token>, seed: int, numTrials: nat, realNames: seq<Token>): Result<Dict<Token, Bptool.Ratio>>
  {
    match Bptool.NamedWinCounts(trials, seed, realNames, numTrials)
    case Err(f) => Err(f)
    case Ok(wc) => if Total(wc) == 0 && |wc| > 0 then Err(ZeroTrials) else Ok(Ratios(wc))
  }

  /** The probabilities cover exactly the real names, each once, in the
      order of the zero counters; each is its name's wins over
      `num_trials`, and the wins add up to `num_trials`. It fails exactly
      when some trial fails or names an unknown winner, or when there are
      no trials but some name. */
  lemma WinProbsSpec(trials: int -> Result<Token>, seed: int, numTrials: nat, realNames: seq<Token>)
    ensures WinProbs(trials, seed, numTrials, realNames).Ok? <==>
      Bptool.TrialsNameKnownWinners(trials, seed, realNames, numTrials) && (numTrials > 0 || |realNames| == 0)
    ensures WinProbs(trials, seed, numTrials, realNames).Ok? ==>
      var probs := WinProbs(trials, seed, numTrials, realNames).value;
      DistinctKeys(probs) && (forall k :: HasKey(probs, k) <==> k in realNames) &&
      Keys(probs) == Keys(Bptool.ZeroCounts(realNames)) &&
      Total(Wins(probs)) == numTrials &&
      forall i :: 0 <= i < |probs| ==> probs[i].1.den == numTrials
    ensures WinProbs(trials, seed, numTrials, realNames).Ok? ==>
      var probs := WinProbs(trials, seed, numTrials, realNames).value;
      forall i :: 0 <= i < |probs| ==> probs[i].1.num == Bptool.WonBy(trials, seed, numTrials, probs[i].0)
  {
    Bptool.NamedWinCountsSpec(trials, seed, realNames, numTrials);
    var r := Bptool.NamedWinCounts(trials, seed, realNames, numTrials);
    if r.Ok? {
      var wc := r.value;
      forall i | 0 <= i < |wc| ensures wc[i].1 == Bptool.WonBy(trials, seed, numTrials, wc[i].0) {
        Bptool.NamedWinCountsEntry(trials, seed, realNames, numTrials, i);
      }
      if |realNames| > 0 {
        assert HasKey(wc, realNames[0]);
      }
      var probs := Ratios(wc);
      assert Keys(probs) == Keys(wc);
      assert Wins(probs) == wc;
    }
  }

  /** One trial of compute_win_probs_rcv: compute_winner with rcv_wrapper,
      and the named counter of its winner incremented. */
  method CountTrial(samples: seq<seq<nat>>, totals: seq<int>, seed: int, i: nat, uniqueBallots: seq<Ballot>,
                    realNames: seq<Token>, draw: Bptool.Draw, winCount: Dict<Token, nat>)
    returns (next: Result<Dict<Token, nat>>)
    requires Bptool.NamedWinCounts(AuditTrials(samples, totals, draw, uniqueBallots), seed, realNames, i) == Ok(winCount)
    ensures Bptool.NamedWinCounts(AuditTrials(samples, totals, draw, uniqueBallots), seed, realNames, i + 1) == next
  {
    var seedI := seed + i * Bptool.TrialSeedStep;
    var finalTallies := Bptool.ComputeFinalTallies(samples, totals, seedI, draw);
    var winner: Result<Token>;
    if finalTallies.Err? {
      winner := Err(finalTallies.error);
    } else {
      winner := RcvWrapper(uniqueBallots, finalTallies.value);
    }
    assert seedI == Bptool.TrialSeed(seed, i);
    AuditTrialsAt(samples, totals, draw, uniqueBallots, seedI);
    assert winner == AuditTrials(samples, totals, draw, uniqueBallots)(Bptool.TrialSeed(seed, i));
    next := if winner.Err? then Err(winner.error) else Bptool.CountWin(winCount, winner.value);
  }

  /** compute_win_probs_rcv in audit_me.py: a zero counter per real name,
      one win per trial for the RCV winner of the trial's simulated tally,
      then each count over the total. */
  method ComputeWinProbsRcv(samples: seq<seq<nat>>, totals: seq<int>, seed: int, numTrials: nat,
                            uniqueBallots: seq<Ballot>, realNames: seq<Token>, draw: Bptool.Draw)
    returns (r: Result<Dict<Token, Bptool.Ratio>>)
    ensures r == WinProbs(AuditTrials(samples, totals, draw, uniqueBallots), seed, numTrials, realNames)
  {
    ghost var trials := AuditTrials(samples, totals, draw, uniqueBallots);
    var winCount := Bptool.ZeroCounts(realNames);
    for i := 0 to numTrials
      invariant Bptool.NamedWinCounts(trials, seed, realNames, i) == Ok(winCount)
    {
      var next := CountTrial(samples, totals, seed, i, uniqueBallots, realNames, draw, winCount);
      if next.Err? {
        Bptool.NamedWinCountsErrSticks(trials, seed, realNames, i + 1, numTrials);
        return Err(next.error);
      }
      winCount := next.value;
    }
    var totalCount := Total(winCount);
    if totalCount == 0 && |winCount| > 0 {
      return Err(ZeroTrials);
    }
    r := Ok(Ratios(winCount));
  }

  // ---------------------------------------------------------------------
  // audit

  /** A trial on a single county whose sample fits its total and with a
      positive seed always reaches the RCV count, which elects a name
      on some unique ballot unless every candidate is eliminated. */
  lemma SingleCountyTrial(sample: seq<nat>, total: int, s: int, draw: Bptool.Draw, uniqueBallots: seq<Ballot>)
    requires |sample| == |uniqueBallots| && s > 0 && Sum(sample) <= total
    ensures var o := AuditTrials([sample], [total], draw, uniqueBallots)(s);
      (o.Ok? ==> o.value in Tokens(uniqueBallots)) && (o.Err? ==> o.error == AllCandidatesEliminated)
  {
    SingleCountyTallies(sample, total, s, draw);
    var t := Bptool.FinalTallies([sample], [total], s, draw).value;
    assert AuditTrials([sample], [total], draw, uniqueBallots)(s) == WrapperOutcome(uniqueBallots, t);
    assert IndicesInRange(uniqueBallots, t);
    WrapperWinnerKnown(uniqueBallots, t);
  }

  /** Seed 0 gives the empty digit array, which numpy refuses. */
  lemma SeedZeroTrial(sample: seq<nat>, total: int, draw: Bptool.Draw, uniqueBallots: seq<Ballot>)
    ensures AuditTrials([sample], [total], draw, uniqueBallots)(0) == Err(EmptySeed)
  {
    assert Bptool.CreateRandomState(0) == Err(EmptySeed);
    assert Bptool.Aggregate([sample], [total], 0, draw, 1) == Err(EmptySeed);
    assert Bptool.FinalTallies([sample], [total], 0, draw) == Err(EmptySeed);
    AuditTrialsAt([sample], [total], draw, uniqueBallots, 0);
  }

  /** compute_winner's final tally for a single fitting county: no index
      past the sample. */
  lemma SingleCountyTallies(sample: seq<nat>, total: int, s: int, draw: Bptool.Draw)
    requires s > 0 && Sum(sample) <= total
    ensures Bptool.FinalTallies([sample], [total], s, draw).Ok?
    ensures var t := Bptool.FinalTallies([sample], [total], s, draw).value;
      forall i :: 0 <= i < |t| ==> t[i].0 < |sample|
  {
    var county := Bptool.CountyTally(sample, total, s, draw);
    assert county.Ok?;
    assert Bptool.Aggregate([sample], [total], s, draw, 1) == Ok(Some(county.value));
    Bptool.ZipSumSpec(sample, Bptool.GenerateNonsampleTally(sample, total, s, draw).value);
    assert Bptool.FinalTallies([sample], [total], s, draw) == Ok(Bptool.Indexed(county.value));
  }

  /** audit without reading the data and printing: thin the tally to a
      sample, list the candidates and the unique ballots, and run 100
      trials from seed 1 on a single county holding all the votes. Every
      trial reaches the RCV count, so the audit can only fail when every
      candidate is eliminated; otherwise it reports each candidate on the
      sampled ballots once, with its wins out of 100. */
  method Audit(tally: Tally, draw: Bptool.Draw) returns (r: Result<Dict<Token, Bptool.Ratio>>)
    requires DistinctKeys(tally)
    ensures r.Err? ==> r.error == AllCandidatesEliminated
    ensures r.Ok? ==>
      DistinctKeys(r.value) && (forall k :: HasKey(r.value, k) <==> k in RcvDict.BallotTokens(Thinned(tally))) &&
      Total(Wins(r.value)) == 100 && forall i :: 0 <= i < |r.value| ==> r.value[i].1.den == 100
    ensures var sampled := Thinned(tally);
      var trials := AuditTrials([Values(sampled)], [Total(tally)], draw, Keys(sampled));
      r.Ok? ==> forall i :: 0 <= i < |r.value| ==> r.value[i].1.num == Bptool.WonBy(trials, 1, 100, r.value[i].0)
  {
    var n := Total(tally);
    var sampleTally := ThinSample(tally);
    ThinnedSpec(tally);
    ThinnedTotal(tally);
    var realNames := GetCandidates(sampleTally);
    var uniqueBallots := Keys(sampleTally);
    SampleVectorRoundTrip(sampleTally);
    var sample := SampleVector(sampleTally, uniqueBallots);
    SumValues(sampleTally);
    var numTrials := 100;
    var seed := 1;
    r := ComputeWinProbsRcv([sample], [n], seed, numTrials, uniqueBallots, realNames, draw);
    AuditOutcome(sample, n, draw, uniqueBallots, realNames, seed, numTrials);
  }

  /** The reasoning behind Audit's contract, on its inputs. */
  lemma AuditOutcome(sample: seq<nat>, n: int, draw: Bptool.Draw, uniqueBallots: seq<Ballot>, realNames: seq<Token>,
                     seed: nat, numTrials: nat)
    requires |sample| == |uniqueBallots| && Sum(sample) <= n && numTrials > 0
    requires forall x :: x in Tokens(uniqueBallots) ==> x in realNames
    ensures seed == 0 ==> WinProbs(AuditTrials([sample], [n], draw, uniqueBallots), seed, numTrials, realNames) == Err(EmptySeed)
    ensures var r := WinProbs(AuditTrials([sample], [n], draw, uniqueBallots), seed, numTrials, realNames);
      (r.Err? && seed > 0 ==> r.error == AllCandidatesEliminated) &&
      (r.Ok? ==> DistinctKeys(r.value) && (forall k :: HasKey(r.value, k) <==> k in realNames) &&
                 Total(Wins(r.value)) == numTrials && forall i :: 0 <= i < |r.value| ==> r.value[i].1.den == numTrials)
    ensures var trials := AuditTrials([sample], [n], draw, uniqueBallots);
      var r := WinProbs(trials, seed, numTrials, realNames);
      r.Ok? ==> forall i :: 0 <= i < |r.value| ==> r.value[i].1.num == Bptool.WonBy(trials, seed, numTrials, r.value[i].0)
  {
    var trials := AuditTrials([sample], [n], draw, uniqueBallots);
    WinProbsSpec(trials, seed, numTrials, realNames);
    Bptool.NamedWinCountsErr(trials, seed, realNames, numTrials);
    var c := Bptool.NamedWinCounts(trials, seed, realNames, numTrials);
    if seed == 0 {
      SeedZeroTrial(sample, n, draw, uniqueBallots);
      assert Bptool.NamedWinCounts(trials, seed, realNames, 1) == Err(EmptySeed);
      Bptool.NamedWinCountsErrSticks(trials, seed, realNames, 1, numTrials);
    } else if c.Err? {
      var i :| 0 <= i < numTrials && Bptool.TrialCausing(trials(Bptool.TrialSeed(seed, i)), realNames, c.error);
      SingleCountyTrial(sample, n, Bptool.TrialSeed(seed, i), draw, uniqueBallots);
    } else {
      Bptool.NamedWinCountsSpec(trials, seed, realNames, numTrials);
    }
  }
}
