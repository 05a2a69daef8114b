/**
 * The deterministic skeleton of the Bayesian ballot-polling audit
 * (v2-tally-dictionary-based/bptool.py): the seed's base-2^32 digits, the
 * Dirichlet-multinomial step with its checks and its +1 prior, the
 * aggregation of simulated county tallies, plurality selection by a stable
 * sort, and the win counting over many trials.
 *
 * The random draw itself (numpy's gamma and multinomial) is a parameter
 * `draw`; IsMultinomialDraw states what the code relies on about it.
 * Probabilities are kept as exact ratios of integer counts.
 */
module Bptool {
  import opened Collections

  /** The radix of the seed digits. */
  const Radix: nat := 0x1_0000_0000

  /** The factor between the seeds of successive trials. */
  const TrialSeedStep: int := 314159265

  // ---------------------------------------------------------------------
  // The seed

  /** The little-endian base-2^32 digits of `v`; none for 0. */
  function Digits(v: nat): seq<nat>
    decreases v
  {
    if v == 0 then [] else [v % Radix] + Digits(v / Radix)
  }

  /** The number a little-endian base-2^32 digit sequence stands for. */
  function ValueOf(ds: seq<nat>): nat
  {
    if |ds| == 0 then 0 else ds[0] + Radix * ValueOf(ds[1..])
  }

  /** Every digit is below the radix and the most significant one is not 0. */
  predicate IsDigitString(ds: seq<nat>)
  {
    (forall i :: 0 <= i < |ds| ==> ds[i] < Radix) && (|ds| == 0 || ds[|ds| - 1] != 0)
  }

  /** convert_int_to_32_bit_numpy_array: ValueError on a negative value,
      else the digits, produced least significant first. */
  method ConvertIntTo32BitArray(v: int) returns (r: Result<seq<nat>>)
    ensures v < 0 ==> r == Err(NegativeSeed)
    ensures v >= 0 ==> r == Ok(Digits(v))
  {
    if v < 0 {
      return Err(NegativeSeed);
    }
    var parts: seq<nat> := [];
    var cur: nat := v;
    while cur > 0
      invariant parts + Digits(cur) == Digits(v)
      decreases cur
    {
      assert Digits(cur) == [cur % Radix] + Digits(cur / Radix);
      assert parts + Digits(cur) == (parts + [cur % Radix]) + Digits(cur / Radix);
      parts := parts + [cur % Radix];
      cur := cur / Radix;
    }
    assert parts + [] == parts;
    return Ok(parts);
  }

  /** The digits are canonical and stand for `v`; only 0 has none. */
  lemma {:induction false} DigitsSpec(v: nat)
    ensures IsDigitString(Digits(v))
    ensures ValueOf(Digits(v)) == v
    ensures Digits(v) == [] <==> v == 0
    decreases v
  {
    if v > 0 {
      DigitsSpec(v / Radix);
      var ds := Digits(v);
      assert ds[1..] == Digits(v / Radix);
      if v / Radix == 0 {
        assert ds == [v % Radix];
      }
    }
  }

  /** Digits undoes ValueOf on canonical digit strings, so the representation
      is unique. */
  lemma {:induction false} DigitsOfValue(ds: seq<nat>)
    requires IsDigitString(ds)
    ensures Digits(ValueOf(ds)) == ds
    ensures |ds| > 0 ==> ValueOf(ds) > 0
    decreases |ds|
  {
    if |ds| > 0 {
      var rest := ds[1..];
      assert IsDigitString(rest) by {
        assert forall i :: 0 <= i < |rest| ==> rest[i] == ds[i + 1];
      }
      DigitsOfValue(rest);
      var v := ValueOf(ds);
      assert v == ds[0] + Radix * ValueOf(rest);
      assert v % Radix == ds[0] && v / Radix == ValueOf(rest);
      assert [ds[0]] + rest == ds;
    }
  }

  /** The documented example: 2^64 + 5 yields [5, 0, 1]. */
  lemma DigitsExample()
    ensures Digits(0x1_0000_0000_0000_0000 + 5) == [5, 0, 1]
  {
    var v := 0x1_0000_0000_0000_0000 + 5;
    assert v % Radix == 5 && v / Radix == Radix;
    assert Radix % Radix == 0 && Radix / Radix == 1;
    assert 1 % Radix == 1 && 1 / Radix == 0;
    assert Digits(1) == [1];
    assert Digits(Radix) == [0, 1];
  }

  // ---------------------------------------------------------------------
  // One county's simulation

  /** The random state's draw, given the seed digits it was created from,
      the Dirichlet parameters and the number of votes to distribute: the
      simulated count of every category. */
  type Draw = (seq<nat>, seq<nat>, nat) -> seq<nat>

  /** What the code relies on about the draw: for a non-empty parameter
      vector, one count per category, summing to the votes distributed. */
  ghost predicate IsMultinomialDraw(draw: Draw)
  {
    forall state, alpha, n :: |alpha| > 0 ==>
      |draw(state, alpha, n)| == |alpha| && Sum(draw(state, alpha, n)) == n
  }

  /** The sample tally with the prior pseudocount of one added to each count. */
  function WithPrior(s: seq<nat>): seq<nat>
  {
    if |s| == 0 then [] else WithPrior(s[..|s| - 1]) + [s[|s| - 1] + 1]
  }

  /** The prior keeps the length, makes every Dirichlet parameter positive
      and adds exactly one to the sum per category. */
  lemma {:induction false} WithPriorSpec(s: seq<nat>)
    ensures |WithPrior(s)| == |s|
    ensures forall i :: 0 <= i < |s| ==> WithPrior(s)[i] > 0 && WithPrior(s)[i] == s[i] + 1
    ensures Sum(WithPrior(s)) == Sum(s) + |s|
    decreases |s|
  {
    if |s| > 0 {
      var front := s[..|s| - 1];
      WithPriorSpec(front);
      var w := WithPrior(front) + [s[|s| - 1] + 1];
      assert w[..|w| - 1] == WithPrior(front);
      assert forall i :: 0 <= i < |s| - 1 ==> w[i] == WithPrior(front)[i] && s[i] == front[i];
    }
  }

  /** dirichlet_multinomial: ValueError when the sample is larger than the
      county, else the draw of the unsampled votes under the prior. */
  function DirichletMultinomial(sample: seq<nat>, total: int, state: seq<nat>, draw: Draw): Result<seq<nat>>
  {
    if Sum(sample) > total then Err(SampleExceedsTotal)
    else Ok(draw(state, WithPrior(sample), (total - Sum(sample)) as nat))
  }

  /** The check fails exactly when the sample exceeds the county's votes;
      otherwise the simulated tally has one count per candidate and, with the
      sample, makes up the county's votes. */
  lemma DirichletMultinomialSpec(sample: seq<nat>, total: int, state: seq<nat>, draw: Draw)
    ensures DirichletMultinomial(sample, total, state, draw).Err? <==> Sum(sample) > total
    ensures DirichletMultinomial(sample, total, state, draw).Err? ==>
      DirichletMultinomial(sample, total, state, draw).error == SampleExceedsTotal
    ensures IsMultinomialDraw(draw) && |sample| > 0 && DirichletMultinomial(sample, total, state, draw).Ok? ==>
      |DirichletMultinomial(sample, total, state, draw).value| == |sample| &&
      Sum(DirichletMultinomial(sample, total, state, draw).value) + Sum(sample) == total
  {
    WithPriorSpec(sample);
  }

  /** create_rs: the seed's digit array; numpy's RandomState refuses the
      empty array that seed 0 converts to (DigitsSpec: only 0 has no
      digits). */
  function CreateRandomState(seed: int): Result<seq<nat>>
  {
    if seed < 0 then Err(NegativeSeed)
    else if seed == 0 then Err(EmptySeed)
    else Ok(Digits(seed))
  }

  /** A random state exists exactly when the seed has a non-empty digit
      array, that is for a positive seed, and it holds those digits. */
  lemma CreateRandomStateSpec(seed: int)
    ensures CreateRandomState(seed).Ok? <==> seed >= 0 && Digits(seed) != []
    ensures CreateRandomState(seed).Ok? <==> seed > 0
    ensures CreateRandomState(seed).Err? ==> CreateRandomState(seed).error == if seed < 0 then NegativeSeed else EmptySeed
    ensures seed > 0 ==> CreateRandomState(seed) == Ok(Digits(seed)) && ValueOf(Digits(seed)) == seed
  {
    if seed >= 0 {
      DigitsSpec(seed);
    }
  }

  /** generate_nonsample_tally: create_rs converts the seed first, then the
      Dirichlet-multinomial step runs on that random state. */
  function GenerateNonsampleTally(sample: seq<nat>, total: int, seed: int, draw: Draw): Result<seq<nat>>
  {
    match CreateRandomState(seed)
    case Err(f) => Err(f)
    case Ok(state) => DirichletMultinomial(sample, total, state, draw)
  }

  /** `[sum(k) for k in zip(a, b)]`. */
  function ZipSum(a: seq<nat>, b: seq<nat>): seq<nat>
    decreases |a|
  {
    var n := if |a| <= |b| then |a| else |b|;
    if n == 0 then [] else ZipSum(a[..n - 1], b[..n - 1]) + [a[n - 1] + b[n - 1]]
  }

  /** zip stops at the shorter list; on equal lengths the sums add up. */
  lemma {:induction false} ZipSumSpec(a: seq<nat>, b: seq<nat>)
    ensures |ZipSum(a, b)| == if |a| <= |b| then |a| else |b|
    ensures |a| == |b| ==> Sum(ZipSum(a, b)) == Sum(a) + Sum(b)
    decreases |a|
  {
    var n := if |a| <= |b| then |a| else |b|;
    if n > 0 {
      ZipSumSpec(a[..n - 1], b[..n - 1]);
      var z := ZipSum(a[..n - 1], b[..n - 1]) + [a[n - 1] + b[n - 1]];
      assert z[..|z| - 1] == ZipSum(a[..n - 1], b[..n - 1]);
    }
  }

  /** Entry `k` of the zipped sum adds the two entries `k`. */
  lemma {:induction false} ZipSumAt(a: seq<nat>, b: seq<nat>, k: nat)
    requires k < |a| && k < |b|
    ensures k < |ZipSum(a, b)| && ZipSum(a, b)[k] == a[k] + b[k]
    decreases |a|
  {
    ZipSumSpec(a, b);
    var n := if |a| <= |b| then |a| else |b|;
    if k < n - 1 {
      ZipSumAt(a[..n - 1], b[..n - 1], k);
    }
  }

  /** One county's final tally: sample plus simulated unsampled votes. */
  function CountyTally(sample: seq<nat>, total: int, seed: int, draw: Draw): Result<seq<nat>>
  {
    match GenerateNonsampleTally(sample, total, seed, draw)
    case Err(f) => Err(f)
    case Ok(nonsample) => Ok(ZipSum(sample, nonsample))
  }

  // ---------------------------------------------------------------------
  // All counties

  /** The loop of compute_winner over the first `n` counties: `None` before
      any county, then the elementwise sum of the county tallies; a missing
      total is an IndexError. */
  function Aggregate(samples: seq<seq<nat>>, totals: seq<int>, seed: int, draw: Draw, n: nat): Result<Option<seq<nat>>>
    requires n <= |samples|
  {
    if n == 0 then Ok(None)
    else
      match Aggregate(samples, totals, seed, draw, n - 1)
      case Err(f) => Err(f)
      case Ok(acc) =>
        if n - 1 >= |totals| then Err(IndexOutOfRange)
        else
          match CountyTally(samples[n - 1], totals[n - 1], seed, draw)
          case Err(f) => Err(f)
          case Ok(county) => Ok(Some(if acc.None? then county else ZipSum(acc.value, county)))
  }

  /** `[(k, t[k]) for k in range(len(t))]`. */
  function Indexed(t: seq<nat>): seq<(nat, nat)>
  {
    seq(|t|, k requires 0 <= k < |t| => (k, t[k]))
  }

  /** The tally compute_winner hands to the voting method: each candidate
      index with its count summed over the counties; `len(None)` fails when
      there is no county. */
  function FinalTallies(samples: seq<seq<nat>>, totals: seq<int>, seed: int, draw: Draw): Result<seq<(nat, nat)>>
  {
    match Aggregate(samples, totals, seed, draw, |samples|)
    case Err(f) => Err(f)
    case Ok(None) => Err(NoCounties)
    case Ok(Some(t)) => Ok(Indexed(t))
  }

  /** Each county's votes are all there: its sample fits, its total exists
      and the seed is usable. */
  predicate CountiesFit(samples: seq<seq<nat>>, totals: seq<int>, seed: int, n: nat)
    requires n <= |samples|
  {
    n == 0 || (seed > 0 && n <= |totals| && forall i :: 0 <= i < n ==> Sum(samples[i]) <= totals[i])
  }

  /** Integer sum of the county totals. */
  function IntSum(s: seq<int>): int
  {
    if |s| == 0 then 0 else IntSum(s[..|s| - 1]) + s[|s| - 1]
  }

  /** All sample tallies have `m` entries. */
  predicate Uniform(samples: seq<seq<nat>>, m: nat)
  {
    forall i :: 0 <= i < |samples| ==> |samples[i]| == m
  }

  /** Aggregation fails exactly when some county does not fit, and a failure
      is never undone by later counties. */
  lemma {:induction false} AggregateOk(samples: seq<seq<nat>>, totals: seq<int>, seed: int, draw: Draw, n: nat)
    requires n <= |samples|
    ensures Aggregate(samples, totals, seed, draw, n).Ok? <==> CountiesFit(samples, totals, seed, n)
    ensures Aggregate(samples, totals, seed, draw, n).Ok? ==> (Aggregate(samples, totals, seed, draw, n).value.None? <==> n == 0)
    decreases n
  {
    if n > 0 {
      AggregateOk(samples, totals, seed, draw, n - 1);
      if n - 1 < |totals| {
        CountyTallyOk(samples[n - 1], totals[n - 1], seed, draw);
      }
      assert CountiesFit(samples, totals, seed, n) <==>
        CountiesFit(samples, totals, seed, n - 1) && seed > 0 && n - 1 < |totals| && Sum(samples[n - 1]) <= totals[n - 1];
    }
  }

  /** Once a county fails, more counties do not change the failure. */
  lemma {:induction false} AggregateErrSticks(samples: seq<seq<nat>>, totals: seq<int>, seed: int, draw: Draw, n: nat, m: nat)
    requires n <= m <= |samples|
    requires Aggregate(samples, totals, seed, draw, n).Err?
    ensures Aggregate(samples, totals, seed, draw, m) == Aggregate(samples, totals, seed, draw, n)
    decreases m - n
  {
    if n < m {
      AggregateErrSticks(samples, totals, seed, draw, n, m - 1);
    }
  }

  /** With a draw meeting its postcondition and sample tallies of one length,
      the aggregate has that length and holds every vote of the counties. */
  lemma {:induction false} AggregateTotals(samples: seq<seq<nat>>, totals: seq<int>, seed: int, draw: Draw, n: nat, m: nat)
    requires n <= |samples| && n <= |totals|
    requires IsMultinomialDraw(draw) && Uniform(samples, m) && m > 0
    ensures Aggregate(samples, totals, seed, draw, n).Ok? && n > 0 ==>
      |Aggregate(samples, totals, seed, draw, n).value.value| == m &&
      Sum(Aggregate(samples, totals, seed, draw, n).value.value) == IntSum(totals[..n])
    decreases n
  {
    if n > 0 && Aggregate(samples, totals, seed, draw, n).Ok? {
      AggregateTotals(samples, totals, seed, draw, n - 1, m);
      AggregateTotalsNext(samples, totals, seed, draw, n, m);
    }
  }

  /** The step of AggregateTotals: one more county adds its votes. */
  lemma AggregateTotalsNext(samples: seq<seq<nat>>, totals: seq<int>, seed: int, draw: Draw, n: nat, m: nat)
    requires 0 < n <= |samples| && n <= |totals|
    requires IsMultinomialDraw(draw) && Uniform(samples, m) && m > 0
    requires Aggregate(samples, totals, seed, draw, n).Ok?
    requires Aggregate(samples, totals, seed, draw, n - 1).Ok? && n - 1 > 0 ==>
      |Aggregate(samples, totals, seed, draw, n - 1).value.value| == m &&
      Sum(Aggregate(samples, totals, seed, draw, n - 1).value.value) == IntSum(totals[..n - 1])
    ensures |Aggregate(samples, totals, seed, draw, n).value.value| == m
    ensures Sum(Aggregate(samples, totals, seed, draw, n).value.value) == IntSum(totals[..n])
  {
    var acc := Aggregate(samples, totals, seed, draw, n - 1).value;
    var county := CountyTally(samples[n - 1], totals[n - 1], seed, draw);
    CountyTallySpec(samples[n - 1], totals[n - 1], seed, draw);
    assert Aggregate(samples, totals, seed, draw, n) ==
      Ok(Some(if acc.None? then county.value else ZipSum(acc.value, county.value)));
    assert totals[..n][..n - 1] == totals[..n - 1];
    if acc.Some? {
      ZipSumSpec(acc.value, county.value);
    } else {
      AggregateOk(samples, totals, seed, draw, n - 1);
      assert totals[..n - 1] == [];
    }
  }

  /** One county's tally exists exactly when the seed is usable and the
      sample fits. */
  lemma CountyTallyOk(sample: seq<nat>, total: int, seed: int, draw: Draw)
    ensures CountyTally(sample, total, seed, draw).Ok? <==> seed > 0 && Sum(sample) <= total
  {
  }

  /** One county's final tally has a count per category and holds all of
      the county's votes. */
  lemma CountyTallySpec(sample: seq<nat>, total: int, seed: int, draw: Draw)
    requires IsMultinomialDraw(draw) && |sample| > 0
    ensures CountyTally(sample, total, seed, draw).Ok? ==>
      |CountyTally(sample, total, seed, draw).value| == |sample| &&
      Sum(CountyTally(sample, total, seed, draw).value) == total
  {
    if seed > 0 {
      DirichletMultinomialSpec(sample, total, Digits(seed), draw);
      var g := GenerateNonsampleTally(sample, total, seed, draw);
      if g.Ok? {
        ZipSumSpec(sample, g.value);
      }
    }
  }

  /** The final tally pairs entry k with index k; with a well-behaved draw
      and one length `m` of sample tallies it lists the m candidates and
      holds every vote of the election. */
  lemma FinalTalliesSpec(samples: seq<seq<nat>>, totals: seq<int>, seed: int, draw: Draw, m: nat)
    ensures FinalTallies(samples, totals, seed, draw).Ok? <==>
      |samples| > 0 && CountiesFit(samples, totals, seed, |samples|)
    ensures FinalTallies(samples, totals, seed, draw).Ok? ==>
      var t := FinalTallies(samples, totals, seed, draw).value;
      t == Indexed(Values(t))
    ensures FinalTallies(samples, totals, seed, draw).Ok? && IsMultinomialDraw(draw) && Uniform(samples, m) && m > 0 ==>
      var t := FinalTallies(samples, totals, seed, draw).value;
      |t| == m && Sum(Values(t)) == IntSum(totals[..|samples|])
  {
    AggregateOk(samples, totals, seed, draw, |samples|);
    var r := FinalTallies(samples, totals, seed, draw);
    if r.Ok? {
      var f := Aggregate(samples, totals, seed, draw, |samples|).value.value;
      assert Values(Indexed(f)) == f;
    }
    if r.Ok? && IsMultinomialDraw(draw) && Uniform(samples, m) && m > 0 {
      AggregateTotals(samples, totals, seed, draw, |samples|, m);
      var f := Aggregate(samples, totals, seed, draw, |samples|).value.value;
      assert Values(Indexed(f)) == f;
    }
  }

  /** Entry `k` of every row, summed over the rows; a row without entry `k`
      adds nothing. */
  function ColumnSum(rows: seq<seq<nat>>, k: nat): nat
  {
    if |rows| == 0 then 0
    else
      var last := rows[|rows| - 1];
      ColumnSum(rows[..|rows| - 1], k) + (if k < |last| then last[k] else 0)
  }

  /** The unsampled votes simulated for county `i`; none when the county
      fails. */
  function NonsampleOf(samples: seq<seq<nat>>, totals: seq<int>, seed: int, draw: Draw, i: nat): seq<nat>
    requires i < |samples|
  {
    if i < |totals| && GenerateNonsampleTally(samples[i], totals[i], seed, draw).Ok?
    then GenerateNonsampleTally(samples[i], totals[i], seed, draw).value
    else []
  }

  /** The simulated unsampled tallies of the first `n` counties. */
  function Nonsamples(samples: seq<seq<nat>>, totals: seq<int>, seed: int, draw: Draw, n: nat): (r: seq<seq<nat>>)
    requires n <= |samples|
    ensures |r| == n
  {
    if n == 0 then [] else Nonsamples(samples, totals, seed, draw, n - 1) + [NonsampleOf(samples, totals, seed, draw, n - 1)]
  }

  /** Entry `k` of the aggregate over the first `n` counties is candidate
      k's sampled votes plus its simulated unsampled votes, summed over
      those counties. */
  lemma {:induction false} AggregateColumns(samples: seq<seq<nat>>, totals: seq<int>, seed: int, draw: Draw, n: nat, k: nat)
    requires n <= |samples|
    ensures AggregateColumnAt(samples, totals, seed, draw, n, k)
    decreases n
  {
    if n > 0 {
      AggregateColumns(samples, totals, seed, draw, n - 1, k);
      AggregateColumnsNext(samples, totals, seed, draw, n, k);
    }
  }

  /** What AggregateColumns states for the first `n` counties. */
  predicate AggregateColumnAt(samples: seq<seq<nat>>, totals: seq<int>, seed: int, draw: Draw, n: nat, k: nat)
    requires n <= |samples|
  {
    var r := Aggregate(samples, totals, seed, draw, n);
    (r.Ok? && r.value.Some? && k < |r.value.value|) ==>
      r.value.value[k] == ColumnSum(samples[..n], k) + ColumnSum(Nonsamples(samples, totals, seed, draw, n), k)
  }

  /** The step of AggregateColumns: one more county adds its two entries `k`. */
  lemma AggregateColumnsNext(samples: seq<seq<nat>>, totals: seq<int>, seed: int, draw: Draw, n: nat, k: nat)
    requires 0 < n <= |samples|
    requires AggregateColumnAt(samples, totals, seed, draw, n - 1, k)
    ensures AggregateColumnAt(samples, totals, seed, draw, n, k)
  {
    var r := Aggregate(samples, totals, seed, draw, n);
    if r.Ok? && k < |r.value.value| {
      var prev := Aggregate(samples, totals, seed, draw, n - 1);
      assert prev.Ok? && n - 1 < |totals|;
      var acc := prev.value;
      var sample := samples[n - 1];
      var g := GenerateNonsampleTally(sample, totals[n - 1], seed, draw);
      assert g.Ok?;
      var nonsample := g.value;
      assert r.value.value == Merged(acc, sample, nonsample);
      var prevNs := Nonsamples(samples, totals, seed, draw, n - 1);
      assert Nonsamples(samples, totals, seed, draw, n) == prevNs + [nonsample];
      assert samples[..n] == samples[..n - 1] + [sample];
      if acc.None? {
        AggregateOk(samples, totals, seed, draw, n - 1);
      }
      ColumnStep(samples[..n - 1], prevNs, acc, sample, nonsample, k);
    }
  }

  /** One county's step on column `k`: merging its sample and unsampled
      votes into a running tally that holds the column sums of the earlier
      rows gives the column sums with its rows added. */
  lemma ColumnStep(rowsA: seq<seq<nat>>, rowsB: seq<seq<nat>>, acc: Option<seq<nat>>,
                   sample: seq<nat>, nonsample: seq<nat>, k: nat)
    requires k < |Merged(acc, sample, nonsample)|
    requires acc.None? ==> rowsA == [] && rowsB == []
    requires acc.Some? && k < |acc.value| ==> acc.value[k] == ColumnSum(rowsA, k) + ColumnSum(rowsB, k)
    ensures Merged(acc, sample, nonsample)[k] == ColumnSum(rowsA + [sample], k) + ColumnSum(rowsB + [nonsample], k)
  {
    MergedAt(acc, sample, nonsample, k);
    ColumnSumSnoc(rowsA, sample, k);
    ColumnSumSnoc(rowsB, nonsample, k);
  }

  /** The running tally after one more county's sample and unsampled votes. */
  function Merged(acc: Option<seq<nat>>, sample: seq<nat>, nonsample: seq<nat>): seq<nat>
  {
    var county := ZipSum(sample, nonsample);
    if acc.None? then county else ZipSum(acc.value, county)
  }

  /** Entry `k` of the merged tally adds the county's two entries `k` to the
      running one. */
  lemma MergedAt(acc: Option<seq<nat>>, sample: seq<nat>, nonsample: seq<nat>, k: nat)
    requires k < |Merged(acc, sample, nonsample)|
    ensures k < |sample| && k < |nonsample| && (acc.Some? ==> k < |acc.value|)
    ensures Merged(acc, sample, nonsample)[k] == (if acc.None? then 0 else acc.value[k]) + sample[k] + nonsample[k]
  {
    var county := ZipSum(sample, nonsample);
    ZipSumSpec(sample, nonsample);
    if acc.Some? {
      ZipSumSpec(acc.value, county);
      ZipSumAt(acc.value, county, k);
    }
    ZipSumAt(sample, nonsample, k);
  }

  /** One more row adds its entry `k`. */
  lemma ColumnSumSnoc(rows: seq<seq<nat>>, x: seq<nat>, k: nat)
    ensures ColumnSum(rows + [x], k) == ColumnSum(rows, k) + (if k < |x| then x[k] else 0)
  {
    assert (rows + [x])[..|rows|] == rows;
  }

  /** Entry `k` of the final tally is candidate `k` with its sampled votes
      plus its simulated unsampled votes, summed over all counties. */
  lemma FinalTalliesColumns(samples: seq<seq<nat>>, totals: seq<int>, seed: int, draw: Draw, k: nat)
    ensures FinalTallies(samples, totals, seed, draw).Ok? && k < |FinalTallies(samples, totals, seed, draw).value| ==>
      FinalTallies(samples, totals, seed, draw).value[k] ==
        (k, ColumnSum(samples, k) + ColumnSum(Nonsamples(samples, totals, seed, draw, |samples|), k))
  {
    AggregateColumns(samples, totals, seed, draw, |samples|, k);
    assert samples[..|samples|] == samples;
  }

  /** One more county: an IndexError for a missing total, the county's
      failure, or the county's tally added in. */
  lemma AggregateNext(samples: seq<seq<nat>>, totals: seq<int>, seed: int, draw: Draw, i: nat, acc: Option<seq<nat>>)
    requires i < |samples| && Aggregate(samples, totals, seed, draw, i) == Ok(acc)
    ensures i >= |totals| ==> Aggregate(samples, totals, seed, draw, i + 1) == Err(IndexOutOfRange)
    ensures i < |totals| && GenerateNonsampleTally(samples[i], totals[i], seed, draw).Err? ==>
      Aggregate(samples, totals, seed, draw, i + 1) == Err(GenerateNonsampleTally(samples[i], totals[i], seed, draw).error)
    ensures i < |totals| && GenerateNonsampleTally(samples[i], totals[i], seed, draw).Ok? ==>
      var county := ZipSum(samples[i], GenerateNonsampleTally(samples[i], totals[i], seed, draw).value);
      Aggregate(samples, totals, seed, draw, i + 1) == Ok(Some(if acc.None? then county else ZipSum(acc.value, county)))
  {
  }

  /** The aggregation loop of compute_winner, ending in the indexed tally. */
  method ComputeFinalTallies(samples: seq<seq<nat>>, totals: seq<int>, seed: int, draw: Draw)
    returns (r: Result<seq<(nat, nat)>>)
    ensures r == FinalTallies(samples, totals, seed, draw)
  {
    var finalTallies: Option<seq<nat>> := None;
    for i := 0 to |samples|
      invariant Aggregate(samples, totals, seed, draw, i) == Ok(finalTallies)
    {
      AggregateNext(samples, totals, seed, draw, i, finalTallies);
      if i >= |totals| {
        FinalTalliesErr(samples, totals, seed, draw, i + 1);
        return Err(IndexOutOfRange);
      }
      var nonsample := GenerateNonsampleTally(samples[i], totals[i], seed, draw);
      if nonsample.Err? {
        FinalTalliesErr(samples, totals, seed, draw, i + 1);
        return Err(nonsample.error);
      }
      var county := ZipSum(samples[i], nonsample.value);
      if finalTallies.None? {
        finalTallies := Some(county);
      } else {
        finalTallies := Some(ZipSum(finalTallies.value, county));
      }
    }
    FinalTalliesOk(samples, totals, seed, draw, finalTallies);
    if finalTallies.None? {
      return Err(NoCounties);
    }
    return Ok(Indexed(finalTallies.value));
  }

  lemma FinalTalliesErr(samples: seq<seq<nat>>, totals: seq<int>, seed: int, draw: Draw, n: nat)
    requires n <= |samples| && Aggregate(samples, totals, seed, draw, n).Err?
    ensures FinalTallies(samples, totals, seed, draw) == Err(Aggregate(samples, totals, seed, draw, n).error)
  {
    AggregateErrSticks(samples, totals, seed, draw, n, |samples|);
  }

  lemma FinalTalliesOk(samples: seq<seq<nat>>, totals: seq<int>, seed: int, draw: Draw, acc: Option<seq<nat>>)
    requires Aggregate(samples, totals, seed, draw, |samples|) == Ok(acc)
    ensures FinalTallies(samples, totals, seed, draw) == if acc.None? then Err(NoCounties) else Ok(Indexed(acc.value))
  {
  }

  // ---------------------------------------------------------------------
  // plurality_winner

  /** Stable insertion of `x` into a list sorted by count: `x` goes after
      every entry whose count is not larger than its own. */
  function InsertByCount(sorted: seq<(nat, nat)>, x: (nat, nat)): seq<(nat, nat)>
    decreases |sorted|
  {
    if |sorted| == 0 || sorted[|sorted| - 1].1 <= x.1 then sorted + [x]
    else InsertByCount(sorted[..|sorted| - 1], x) + [sorted[|sorted| - 1]]
  }

  /** `sorted(s, key = lambda x: x[1])`: Python's sort is stable, and the
      stable sort of a list is unique, so insertion sort defines it. */
  function SortedByCount(s: seq<(nat, nat)>): seq<(nat, nat)>
  {
    if |s| == 0 then [] else InsertByCount(SortedByCount(s[..|s| - 1]), s[|s| - 1])
  }

  predicate IsSortedByCount(s: seq<(nat, nat)>)
  {
    forall i, j :: 0 <= i < j < |s| ==> s[i].1 <= s[j].1
  }

  /** The entries of `s` with count `c`, in their order in `s`. */
  function WithCount(s: seq<(nat, nat)>, c: nat): seq<(nat, nat)>
  {
    if |s| == 0 then []
    else WithCount(s[..|s| - 1], c) + (if s[|s| - 1].1 == c then [s[|s| - 1]] else [])
  }

  lemma {:induction false} WithCountConcat(a: seq<(nat, nat)>, b: seq<(nat, nat)>, c: nat)
    ensures WithCount(a + b, c) == WithCount(a, c) + WithCount(b, c)
    decreases |b|
  {
    if |b| == 0 {
      assert a + b == a;
    } else {
      assert (a + b)[..|a + b| - 1] == a + b[..|b| - 1];
      WithCountConcat(a, b[..|b| - 1], c);
    }
  }

  lemma {:induction false} InsertByCountMultiset(sorted: seq<(nat, nat)>, x: (nat, nat))
    ensures multiset(InsertByCount(sorted, x)) == multiset(sorted) + multiset{x}
    decreases |sorted|
  {
    if !(|sorted| == 0 || sorted[|sorted| - 1].1 <= x.1) {
      var front, last := sorted[..|sorted| - 1], sorted[|sorted| - 1];
      InsertByCountMultiset(front, x);
      assert front + [last] == sorted;
    }
  }

  lemma {:induction false} InsertByCountSorted(sorted: seq<(nat, nat)>, x: (nat, nat))
    requires IsSortedByCount(sorted)
    ensures IsSortedByCount(InsertByCount(sorted, x))
    decreases |sorted|
  {
    var r := InsertByCount(sorted, x);
    if |sorted| == 0 || sorted[|sorted| - 1].1 <= x.1 {
      assert r == sorted + [x];
    } else {
      var front, last := sorted[..|sorted| - 1], sorted[|sorted| - 1];
      InsertByCountSorted(front, x);
      InsertByCountMultiset(front, x);
      var mid := InsertByCount(front, x);
      assert r == mid + [last];
      forall i, j | 0 <= i < j < |r| ensures r[i].1 <= r[j].1 {
        if j == |r| - 1 {
          assert r[i] == mid[i];
          assert mid[i] in multiset(mid);
          if mid[i] != x {
            assert mid[i] in multiset(front);
            var k :| 0 <= k < |front| && front[k] == mid[i];
            assert sorted[k] == mid[i];
          }
        } else {
          assert r[i] == mid[i] && r[j] == mid[j];
        }
      }
    }
  }

  lemma {:induction false} InsertByCountStable(sorted: seq<(nat, nat)>, x: (nat, nat), c: nat)
    ensures WithCount(InsertByCount(sorted, x), c) == WithCount(sorted, c) + (if x.1 == c then [x] else [])
    decreases |sorted|
  {
    var r := InsertByCount(sorted, x);
    if |sorted| == 0 || sorted[|sorted| - 1].1 <= x.1 {
      assert r[..|r| - 1] == sorted;
    } else {
      var front, last := sorted[..|sorted| - 1], sorted[|sorted| - 1];
      InsertByCountStable(front, x, c);
      var mid := InsertByCount(front, x);
      assert front + [last] == sorted;
      assert r == mid + [last];
      WithCountConcat(mid, [last], c);
      WithCountConcat(front, [last], c);
      assert WithCount([last], c) == if last.1 == c then [last] else [] by {
        assert [last][..0] == [];
      }
    }
  }

  /** The sort is a permutation of its input, is ordered by count, and is
      stable: the entries of each count keep their relative order. */
  lemma {:induction false} SortedByCountSpec(s: seq<(nat, nat)>)
    ensures multiset(SortedByCount(s)) == multiset(s)
    ensures IsSortedByCount(SortedByCount(s))
    ensures forall c :: WithCount(SortedByCount(s), c) == WithCount(s, c)
    decreases |s|
  {
    if |s| > 0 {
      var front, x := s[..|s| - 1], s[|s| - 1];
      assert front + [x] == s;
      SortedByCountSpec(front);
      SortedByCountSpecNext(front, x);
    }
  }

  /** The step of SortedByCountSpec: inserting one more entry. */
  lemma SortedByCountSpecNext(front: seq<(nat, nat)>, x: (nat, nat))
    requires multiset(SortedByCount(front)) == multiset(front)
    requires IsSortedByCount(SortedByCount(front))
    requires forall c :: WithCount(SortedByCount(front), c) == WithCount(front, c)
    ensures multiset(SortedByCount(front + [x])) == multiset(front + [x])
    ensures IsSortedByCount(SortedByCount(front + [x]))
    ensures forall c :: WithCount(SortedByCount(front + [x]), c) == WithCount(front + [x], c)
  {
    var s := front + [x];
    assert s[..|s| - 1] == front;
    var p := SortedByCount(front);
    assert SortedByCount(s) == InsertByCount(p, x);
    InsertByCountMultiset(p, x);
    InsertByCountSorted(p, x);
    forall c ensures WithCount(SortedByCount(s), c) == WithCount(s, c) {
      InsertByCountStable(p, x, c);
    }
  }

  /** The shifting step of insertion: an entry with a larger count moves
      right past the inserted one. */
  lemma InsertShift(p: seq<(nat, nat)>, x: (nat, nat), j: nat)
    requires 0 < j <= |p| && p[j - 1].1 > x.1
    ensures InsertByCount(p[..j], x) + p[j..] == InsertByCount(p[..j - 1], x) + p[j - 1..]
  {
    assert p[..j][..j - 1] == p[..j - 1];
    assert [p[j - 1]] + p[j..] == p[j - 1..];
  }

  /** Insertion stops at the first entry from the right whose count is not
      larger. */
  lemma InsertStop(p: seq<(nat, nat)>, x: (nat, nat), j: nat)
    requires j <= |p| && (j == 0 || p[j - 1].1 <= x.1)
    ensures InsertByCount(p[..j], x) == p[..j] + [x]
  {
  }

  /** One step of the in-place insertion sort: the entry at `i` is moved
      left into the sorted prefix before it. */
  method InsertAt(a: array<(nat, nat)>, i: nat)
    requires i < a.Length
    modifies a
    ensures a[..i + 1] == InsertByCount(old(a[..i]), old(a[i]))
    ensures a[i + 1..] == old(a[i + 1..])
  {
    ghost var p := a[..i];
    ghost var rest := a[i + 1..];
    var x := a[i];
    var j := i;
    while j > 0 && a[j - 1].1 > x.1
      invariant 0 <= j <= i
      invariant a[..j] == p[..j]
      invariant a[j + 1..i + 1] == p[j..]
      invariant a[i + 1..] == rest
      invariant InsertByCount(p, x) == InsertByCount(p[..j], x) + p[j..]
      decreases j
    {
      InsertShift(p, x, j);
      a[j] := a[j - 1];
      j := j - 1;
    }
    InsertStop(p, x, j);
    a[j] := x;
    assert a[..i + 1] == p[..j] + [x] + p[j..];
  }

  /** `tallies.sort(key = lambda x: x[1])`, in place. */
  method SortByCount(a: array<(nat, nat)>)
    modifies a
    ensures a[..] == SortedByCount(old(a[..]))
  {
    ghost var s := a[..];
    for i := 0 to a.Length
      invariant a[..i] == SortedByCount(s[..i])
      invariant a[i..] == s[i..]
    {
      assert s[..i + 1][..i] == s[..i] && s[i] == a[i];
      InsertAt(a, i);
    }
    assert s[..a.Length] == s;
  }

  /** Python's start index for the slice `s[start:]` of a list of length `len`. */
  function SliceStart(start: int, len: nat): (r: nat)
    ensures r <= len
  {
    if start < 0 then (if len + start < 0 then 0 else len + start)
    else if start > len then len
    else start
  }

  function Firsts(s: seq<(nat, nat)>): seq<nat>
  {
    seq(|s|, i requires 0 <= i < |s| => s[i].0)
  }

  /** plurality_winner on the tally `t`: the indices of the last
      `vote_for_n` entries once sorted by count. */
  function PluralityWinners(t: seq<(nat, nat)>, voteForN: int): seq<nat>
  {
    var sorted := SortedByCount(t);
    Firsts(sorted[SliceStart(-voteForN, |sorted|)..])
  }

  /** How many winners plurality_winner returns for `len` candidates: all
      of them when `vote_for_n` is 0, as for `tallies[-0:]`. */
  function NumWinners(len: nat, voteForN: int): nat
  {
    len - SliceStart(-voteForN, len)
  }

  lemma NumWinnersSpec(len: nat, voteForN: int)
    ensures 0 < voteForN ==> NumWinners(len, voteForN) == if voteForN <= len then voteForN else len
    ensures voteForN == 0 ==> NumWinners(len, voteForN) == len
    ensures voteForN < 0 ==> NumWinners(len, voteForN) == if -voteForN <= len then len + voteForN else 0
  {
  }

  /** Candidate `k` with `x` votes sorts strictly before candidate `w` with
      `y` votes: fewer votes, or as many and a lower index. */
  predicate Below(x: nat, k: nat, y: nat, w: nat)
  {
    x < y || (x == y && k < w)
  }

  predicate IsLexSorted(s: seq<(nat, nat)>)
  {
    forall i, j :: 0 <= i < j < |s| ==> Below(s[i].1, s[i].0, s[j].1, s[j].0)
  }

  /** Sorting entries whose indices increase orders them by (count, index). */
  lemma {:induction false} SortedIndexedLex(s: seq<(nat, nat)>)
    requires forall i, j :: 0 <= i < j < |s| ==> s[i].0 < s[j].0
    ensures IsLexSorted(SortedByCount(s))
    decreases |s|
  {
    if |s| > 0 {
      var front, x := s[..|s| - 1], s[|s| - 1];
      SortedIndexedLex(front);
      SortedByCountSpec(front);
      var p := SortedByCount(front);
      forall y | y in p ensures y.0 < x.0 {
        assert y in multiset(front);
      }
      InsertLex(p, x);
    }
  }

  lemma {:induction false} InsertLex(p: seq<(nat, nat)>, x: (nat, nat))
    requires IsLexSorted(p) && forall y :: y in p ==> y.0 < x.0
    ensures IsLexSorted(InsertByCount(p, x))
    decreases |p|
  {
    var r := InsertByCount(p, x);
    if |p| == 0 || p[|p| - 1].1 <= x.1 {
      forall i | 0 <= i < |p| ensures Below(p[i].1, p[i].0, x.1, x.0) {
        assert p[i] in p;
      }
    } else {
      var front, last := p[..|p| - 1], p[|p| - 1];
      assert forall y :: y in front ==> y in p;
      InsertLex(front, x);
      InsertByCountMultiset(front, x);
      var mid := InsertByCount(front, x);
      forall i | 0 <= i < |mid| ensures Below(mid[i].1, mid[i].0, last.1, last.0) {
        assert mid[i] in multiset(mid);
        if mid[i] != x {
          assert mid[i] in front;
          var k :| 0 <= k < |front| && front[k] == mid[i];
          assert p[k] == mid[i];
        }
      }
    }
  }

  /** plurality_winner on the tally compute_winner builds: it returns as
      many distinct candidate indices as NumWinners says, and every winner
      beats every other candidate on (votes, index), so ties go to the
      higher index. */
  lemma PluralityWinnersSpec(f: seq<nat>, voteForN: int)
    ensures |PluralityWinners(Indexed(f), voteForN)| == NumWinners(|f|, voteForN)
    ensures forall i :: 0 <= i < |PluralityWinners(Indexed(f), voteForN)| ==>
      PluralityWinners(Indexed(f), voteForN)[i] < |f|
    ensures forall i, j :: 0 <= i < j < |PluralityWinners(Indexed(f), voteForN)| ==>
      PluralityWinners(Indexed(f), voteForN)[i] != PluralityWinners(Indexed(f), voteForN)[j]
    ensures forall w, k :: (w in PluralityWinners(Indexed(f), voteForN) && 0 <= k < |f| &&
      k !in PluralityWinners(Indexed(f), voteForN)) ==> Below(f[k], k, f[w], w)
  {
    var sorted := SortedByCount(Indexed(f));
    SortedIndexed(f);
    SliceWinners(f, sorted, SliceStart(-voteForN, |sorted|));
  }

  /** An arrangement of the entries `(k, f[k])`: each appears, nothing else does. */
  ghost predicate ArrangesIndexed(f: seq<nat>, s: seq<(nat, nat)>)
  {
    |s| == |f| &&
    (forall q :: 0 <= q < |s| ==> s[q].0 < |f| && s[q].1 == f[s[q].0]) &&
    (forall k :: 0 <= k < |f| ==> (k, f[k]) in s)
  }

  /** The sorted tally arranges the indexed tally in (count, index) order. */
  lemma SortedIndexed(f: seq<nat>)
    ensures ArrangesIndexed(f, SortedByCount(Indexed(f)))
    ensures IsLexSorted(SortedByCount(Indexed(f)))
  {
    var t := Indexed(f);
    var sorted := SortedByCount(t);
    SortedByCountSpec(t);
    SortedIndexedLex(t);
    assert |sorted| == |t| by {
      assert |multiset(sorted)| == |multiset(t)|;
    }
    forall q | 0 <= q < |sorted| ensures sorted[q].0 < |f| && sorted[q].1 == f[sorted[q].0] {
      assert sorted[q] in multiset(t);
      var k :| 0 <= k < |t| && t[k] == sorted[q];
    }
    forall k | 0 <= k < |f| ensures (k, f[k]) in sorted {
      assert t[k] == (k, f[k]);
      assert t[k] in multiset(sorted);
    }
  }

  /** The indices of a (count, index)-ordered arrangement from `start` on
      are distinct candidates that beat every candidate left out. */
  lemma SliceWinners(f: seq<nat>, sorted: seq<(nat, nat)>, start: nat)
    requires ArrangesIndexed(f, sorted) && IsLexSorted(sorted) && start <= |sorted|
    ensures |Firsts(sorted[start..])| == |f| - start
    ensures forall i :: 0 <= i < |Firsts(sorted[start..])| ==> Firsts(sorted[start..])[i] < |f|
    ensures forall i, j :: 0 <= i < j < |Firsts(sorted[start..])| ==>
      Firsts(sorted[start..])[i] != Firsts(sorted[start..])[j]
    ensures forall w, k :: (w in Firsts(sorted[start..]) && 0 <= k < |f| &&
      k !in Firsts(sorted[start..])) ==> Below(f[k], k, f[w], w)
  {
    var ws := Firsts(sorted[start..]);
    forall i | 0 <= i < |ws| ensures ws[i] == sorted[start + i].0 && ws[i] < |f| {
    }
    forall i, j | 0 <= i < j < |ws| ensures ws[i] != ws[j] {
      assert Below(sorted[start + i].1, sorted[start + i].0, sorted[start + j].1, sorted[start + j].0);
    }
    forall w, k | w in ws && 0 <= k < |f| && k !in ws ensures Below(f[k], k, f[w], w) {
      var i :| 0 <= i < |ws| && ws[i] == w;
      var q :| 0 <= q < |sorted| && sorted[q] == (k, f[k]);
      if start <= q {
        InSlice(sorted, start, q);
        assert false;
      }
    }
  }

  /** An entry at or after `start` has its index among the slice's. */
  lemma InSlice(sorted: seq<(nat, nat)>, start: nat, q: nat)
    requires start <= q < |sorted|
    ensures sorted[q].0 in Firsts(sorted[start..])
  {
    assert Firsts(sorted[start..])[q - start] == sorted[q].0;
  }

  /** plurality_winner: sorts the caller's list in place, then takes the
      indices of its last `vote_for_n` entries. */
  method PluralityWinner(tallies: array<(nat, nat)>, voteForN: int) returns (winners: seq<nat>)
    modifies tallies
    ensures tallies[..] == SortedByCount(old(tallies[..]))
    ensures winners == PluralityWinners(old(tallies[..]), voteForN)
  {
    SortByCount(tallies);
    var winnersWithTallies := tallies[SliceStart(-voteForN, tallies.Length)..];
    winners := Firsts(winnersWithTallies);
  }

  /** compute_winner with the default voting method. */
  function PluralityOutcome(samples: seq<seq<nat>>, totals: seq<int>, voteForN: int, seed: int, draw: Draw): Result<seq<nat>>
  {
    match FinalTallies(samples, totals, seed, draw)
    case Err(f) => Err(f)
    case Ok(t) => Ok(PluralityWinners(t, voteForN))
  }

  /** compute_winner: aggregate the counties, then run plurality_winner on
      a fresh list. */
  method ComputeWinner(samples: seq<seq<nat>>, totals: seq<int>, voteForN: int, seed: int, draw: Draw)
    returns (r: Result<seq<nat>>)
    ensures r == PluralityOutcome(samples, totals, voteForN, seed, draw)
  {
    var finalTallies := ComputeFinalTallies(samples, totals, seed, draw);
    if finalTallies.Err? {
      return Err(finalTallies.error);
    }
    var t := finalTallies.value;
    var a := new (nat, nat)[|t|](i requires 0 <= i < |t| => t[i]);
    assert a[..] == t;
    var winners := PluralityWinner(a, voteForN);
    return Ok(winners);
  }


  // ---------------------------------------------------------------------
  // compute_win_probs

  /** A probability as the exact ratio the code divides. */
  datatype Ratio = Ratio(num: nat, den: nat)

  /** The seed of trial `i`. */
  function TrialSeed(seed: int, i: nat): int
  {
    seed + i * TrialSeedStep
  }

  /** compute_winner with the default voting method, as a function of the
      seed: what one trial returns. */
  function PluralityTrials(samples: seq<seq<nat>>, totals: seq<int>, voteForN: int, draw: Draw): int -> Result<seq<nat>>
  {
    s => PluralityOutcome(samples, totals, voteForN, s, draw)
  }

  lemma PluralityTrialsAt(samples: seq<seq<nat>>, totals: seq<int>, voteForN: int, draw: Draw, s: int)
    ensures PluralityTrials(samples, totals, voteForN, draw)(s) == PluralityOutcome(samples, totals, voteForN, s, draw)
  {
  }

  /** `for winner in winners: win_count[winner+1] += 1`; an IndexError when
      a winner has no counter. */
  function AddWins(wc: seq<nat>, ws: seq<nat>): (r: Result<seq<nat>>)
    ensures r.Ok? ==> |r.value| == |wc|
  {
    if |ws| == 0 then Ok(wc)
    else
      match AddWins(wc, ws[..|ws| - 1])
      case Err(f) => Err(f)
      case Ok(w) =>
        var k := ws[|ws| - 1] + 1;
        if k < |w| then Ok(w[k := w[k] + 1]) else Err(IndexOutOfRange)
  }

  /** Adding the winners succeeds exactly when every winner has a counter;
      then each counter k grows by the number of times k - 1 won, counter 0
      is untouched and the sum grows by the number of winners. */
  lemma AddWinsSpec(wc: seq<nat>, ws: seq<nat>)
    ensures AddWins(wc, ws).Ok? <==> forall i :: 0 <= i < |ws| ==> ws[i] + 1 < |wc|
    ensures AddWins(wc, ws).Err? ==> AddWins(wc, ws).error == IndexOutOfRange
    ensures AddWins(wc, ws).Ok? ==>
      (forall k :: 1 <= k < |wc| ==> AddWins(wc, ws).value[k] == wc[k] + multiset(ws)[k - 1]) &&
      (|wc| > 0 ==> AddWins(wc, ws).value[0] == wc[0]) &&
      Sum(AddWins(wc, ws).value) == Sum(wc) + |ws|
  {
    AddWinsOk(wc, ws);
    AddWinsCounters(wc, ws);
    AddWinsSum(wc, ws);
  }

  lemma {:induction false} AddWinsOk(wc: seq<nat>, ws: seq<nat>)
    ensures AddWins(wc, ws).Ok? <==> forall i :: 0 <= i < |ws| ==> ws[i] + 1 < |wc|
    ensures AddWins(wc, ws).Err? ==> AddWins(wc, ws).error == IndexOutOfRange
    decreases |ws|
  {
    if |ws| > 0 {
      var front := ws[..|ws| - 1];
      AddWinsOk(wc, front);
      assert forall i :: 0 <= i < |front| ==> front[i] == ws[i];
    }
  }

  lemma {:induction false} AddWinsCounters(wc: seq<nat>, ws: seq<nat>)
    ensures AddWins(wc, ws).Ok? ==>
      (forall k :: 1 <= k < |wc| ==> AddWins(wc, ws).value[k] == wc[k] + multiset(ws)[k - 1]) &&
      (|wc| > 0 ==> AddWins(wc, ws).value[0] == wc[0])
    decreases |ws|
  {
    if |ws| > 0 {
      var front, last := ws[..|ws| - 1], ws[|ws| - 1];
      AddWinsCounters(wc, front);
      assert front + [last] == ws;
      assert multiset(ws) == multiset(front) + multiset{last};
    }
  }

  lemma {:induction false} AddWinsSum(wc: seq<nat>, ws: seq<nat>)
    ensures AddWins(wc, ws).Ok? ==> Sum(AddWins(wc, ws).value) == Sum(wc) + |ws|
    decreases |ws|
  {
    if |ws| > 0 {
      var front := ws[..|ws| - 1];
      AddWinsSum(wc, front);
      var r := AddWins(wc, front);
      if r.Ok? && ws[|ws| - 1] + 1 < |wc| {
        var k := ws[|ws| - 1] + 1;
        SumUpdate(r.value, k, r.value[k] + 1);
      }
    }
  }

  /** An IndexError while adding a prefix of the winners is the outcome for
      all of them. */
  lemma {:induction false} AddWinsErrSticks(wc: seq<nat>, ws: seq<nat>, n: nat)
    requires n <= |ws| && AddWins(wc, ws[..n]).Err?
    ensures AddWins(wc, ws) == AddWins(wc, ws[..n])
    decreases |ws| - n
  {
    if n < |ws| {
      var front := ws[..|ws| - 1];
      assert front[..n] == ws[..n];
      AddWinsErrSticks(wc, front, n);
    } else {
      assert ws[..n] == ws;
    }
  }

  /** The win counts after the first `n` trials, starting from
      `[0]*(1+num_candidates)`. */
  function WinCounts(trials: int -> Result<seq<nat>>, seed: int, numCandidates: nat, n: nat): (r: Result<seq<nat>>)
    ensures r.Ok? ==> |r.value| == numCandidates + 1
  {
    if n == 0 then Ok(seq(numCandidates + 1, _ => 0))
    else
      match WinCounts(trials, seed, numCandidates, n - 1)
      case Err(f) => Err(f)
      case Ok(wc) =>
        match trials(TrialSeed(seed, n - 1))
        case Err(f) => Err(f)
        case Ok(ws) => AddWins(wc, ws)
  }

  /** compute_win_probs: `(i, win_count[i] / num_trials)` for every
      candidate i from 1; dividing by zero trials fails when there is a
      candidate. */
  function WinProbs(trials: int -> Result<seq<nat>>, seed: int, numTrials: nat, numCandidates: nat): Result<seq<(nat, Ratio)>>
  {
    match WinCounts(trials, seed, numCandidates, numTrials)
    case Err(f) => Err(f)
    case Ok(wc) =>
      if numTrials == 0 && numCandidates > 0 then Err(ZeroTrials)
      else Ok(seq(numCandidates, i requires 0 <= i < numCandidates => (i + 1, Ratio(wc[i + 1], numTrials))))
  }

  /** Trials that succeed exactly for the usable seeds when `ok` holds, and
      then return `w` winners, each below `m`. */
  ghost predicate TrialsBehave(trials: int -> Result<seq<nat>>, ok: bool, w: nat, m: nat)
  {
    forall s :: (trials(s).Ok? <==> s > 0 && ok) &&
      (trials(s).Ok? ==> |trials(s).value| == w && forall i :: 0 <= i < |trials(s).value| ==> trials(s).value[i] < m)
  }

  /** A usable seed does not decide whether the counties fit. */
  lemma CountiesFitSeed(samples: seq<seq<nat>>, totals: seq<int>, a: int, b: int)
    requires a > 0 && b > 0
    ensures CountiesFit(samples, totals, a, |samples|) == CountiesFit(samples, totals, b, |samples|)
  {
  }

  /** compute_winner succeeds exactly when the counties fit; with a
      well-behaved draw and `m` candidates it then returns NumWinners(m,
      vote_for_n) candidate indices below m. */
  lemma PluralityTrialsBehave(samples: seq<seq<nat>>, totals: seq<int>, voteForN: int, draw: Draw, m: nat)
    requires IsMultinomialDraw(draw) && Uniform(samples, m) && m > 0
    ensures TrialsBehave(PluralityTrials(samples, totals, voteForN, draw),
      |samples| > 0 && CountiesFit(samples, totals, 1, |samples|), NumWinners(m, voteForN), m)
  {
    var trials := PluralityTrials(samples, totals, voteForN, draw);
    forall s
      ensures trials(s).Ok? <==> s > 0 && |samples| > 0 && CountiesFit(samples, totals, 1, |samples|)
      ensures trials(s).Ok? ==> (|trials(s).value| == NumWinners(m, voteForN) &&
        forall i :: 0 <= i < |trials(s).value| ==> trials(s).value[i] < m)
    {
      FinalTalliesSpec(samples, totals, s, draw, m);
      var t := FinalTallies(samples, totals, s, draw);
      if t.Ok? {
        PluralityWinnersSpec(Values(t.value), voteForN);
      }
      if s > 0 {
        CountiesFitSeed(samples, totals, s, 1);
      }
    }
  }

  lemma MulSucc(n: nat, w: nat)
    requires n >= 1
    ensures (n - 1) * w + w == n * w
  {
  }

  /** With well-behaved trials and a counter for each of the `m`
      candidates, the counting succeeds exactly when the seed is usable and
      the trials succeed; every trial adds `w` wins and counter 0 stays 0. */
  lemma {:induction false} WinCountsSpec(trials: int -> Result<seq<nat>>, ok: bool, w: nat, m: nat,
                                         seed: int, numCandidates: nat, n: nat)
    requires TrialsBehave(trials, ok, w, m) && m <= numCandidates
    ensures WinCounts(trials, seed, numCandidates, n).Ok? <==> n == 0 || (seed > 0 && ok)
    ensures WinCounts(trials, seed, numCandidates, n).Ok? ==>
      WinCounts(trials, seed, numCandidates, n).value[0] == 0 &&
      Sum(WinCounts(trials, seed, numCandidates, n).value) == n * w
    decreases n
  {
    if n == 0 {
      SumZeros(numCandidates + 1);
    } else {
      WinCountsSpec(trials, ok, w, m, seed, numCandidates, n - 1);
      var prev := WinCounts(trials, seed, numCandidates, n - 1);
      var s := TrialSeed(seed, n - 1);
      if prev.Ok? {
        if n - 1 == 0 {
          assert s == seed;
        }
        if trials(s).Ok? {
          AddWinsSpec(prev.value, trials(s).value);
          MulSucc(n, w);
        }
      }
    }
  }

  /** A failed trial ends the counting with that failure. */
  lemma {:induction false} WinCountsErrSticks(trials: int -> Result<seq<nat>>, seed: int, numCandidates: nat, n: nat, m: nat)
    requires n <= m && WinCounts(trials, seed, numCandidates, n).Err?
    ensures WinCounts(trials, seed, numCandidates, m) == WinCounts(trials, seed, numCandidates, n)
    decreases m - n
  {
    if n < m {
      WinCountsErrSticks(trials, seed, numCandidates, n, m - 1);
    }
  }

  /** How many of the first `n` trials succeed with candidate `c` among
      their winners. */
  function TimesWon(trials: int -> Result<seq<nat>>, seed: int, n: nat, c: nat): nat
  {
    if n == 0 then 0
    else
      var t := trials(TrialSeed(seed, n - 1));
      TimesWon(trials, seed, n - 1, c) + (if t.Ok? && c in t.value then 1 else 0)
  }

  /** Every successful trial lists each of its winners once. */
  ghost predicate DistinctWinners(trials: int -> Result<seq<nat>>)
  {
    forall s :: trials(s).Ok? ==> forall i, j :: 0 <= i < j < |trials(s).value| ==> trials(s).value[i] != trials(s).value[j]
  }

  /** In a list without repeats, a value occurs once or not at all. */
  lemma {:induction false} DistinctCount(ws: seq<nat>, c: nat)
    requires forall i, j :: 0 <= i < j < |ws| ==> ws[i] != ws[j]
    ensures multiset(ws)[c] == if c in ws then 1 else 0
    decreases |ws|
  {
    if |ws| > 0 {
      var front, last := ws[..|ws| - 1], ws[|ws| - 1];
      assert ws == front + [last];
      DistinctCount(front, c);
      assert multiset(ws) == multiset(front) + multiset{last};
      forall i | 0 <= i < |front| ensures front[i] != last {
        assert front[i] == ws[i];
      }
    }
  }

  /** When no trial names a winner twice, counter k is the number of trials
      that candidate k - 1 won. */
  lemma {:induction false} WinCountsWon(trials: int -> Result<seq<nat>>, seed: int, numCandidates: nat, n: nat, k: nat)
    requires DistinctWinners(trials) && 1 <= k <= numCandidates
    ensures WinCounts(trials, seed, numCandidates, n).Ok? ==>
      WinCounts(trials, seed, numCandidates, n).value[k] == TimesWon(trials, seed, n, k - 1)
    decreases n
  {
    if n > 0 {
      WinCountsWon(trials, seed, numCandidates, n - 1, k);
      var prev := WinCounts(trials, seed, numCandidates, n - 1);
      var t := trials(TrialSeed(seed, n - 1));
      if prev.Ok? && t.Ok? {
        AddWinsCounters(prev.value, t.value);
        DistinctCount(t.value, k - 1);
      }
    }
  }

  /** plurality_winner never names a candidate twice. */
  lemma PluralityTrialsDistinct(samples: seq<seq<nat>>, totals: seq<int>, voteForN: int, draw: Draw)
    ensures DistinctWinners(PluralityTrials(samples, totals, voteForN, draw))
  {
    var trials := PluralityTrials(samples, totals, voteForN, draw);
    forall s | trials(s).Ok?
      ensures forall i, j :: 0 <= i < j < |trials(s).value| ==> trials(s).value[i] != trials(s).value[j]
    {
      FinalTalliesSpec(samples, totals, s, draw, 0);
      var t := FinalTallies(samples, totals, s, draw).value;
      PluralityWinnersSpec(Values(t), voteForN);
    }
  }

  /** Entry i of compute_win_probs is candidate i + 1 with the number of
      trials it won over the number of trials. */
  lemma WinProbsWon(trials: int -> Result<seq<nat>>, seed: int, numTrials: nat, numCandidates: nat, i: nat)
    requires DistinctWinners(trials) && i < numCandidates
    ensures WinProbs(trials, seed, numTrials, numCandidates).Ok? ==>
      WinProbs(trials, seed, numTrials, numCandidates).value[i] == (i + 1, Ratio(TimesWon(trials, seed, numTrials, i), numTrials))
  {
    WinCountsWon(trials, seed, numCandidates, numTrials, i + 1);
  }

  /** compute_win_probs reports candidate i + 1's wins over the trials. It
      succeeds exactly when there is a trial, the seed is usable and every
      county fits; then, with `m` candidates in every county and a counter for
      each, the wins add up to NumWinners(m, vote_for_n) per trial. */
  lemma WinProbsSpec(samples: seq<seq<nat>>, totals: seq<int>, seed: int, numTrials: nat,
                     numCandidates: nat, voteForN: int, draw: Draw, m: nat)
    requires IsMultinomialDraw(draw) && Uniform(samples, m) && 0 < m <= numCandidates
    ensures WinProbs(PluralityTrials(samples, totals, voteForN, draw), seed, numTrials, numCandidates).Ok? <==>
      numTrials > 0 && |samples| > 0 && CountiesFit(samples, totals, seed, |samples|)
    ensures WinProbs(PluralityTrials(samples, totals, voteForN, draw), seed, numTrials, numCandidates).Ok? ==>
      var trials := PluralityTrials(samples, totals, voteForN, draw);
      var probs := WinProbs(trials, seed, numTrials, numCandidates).value;
      var wc := WinCounts(trials, seed, numCandidates, numTrials).value;
      |probs| == numCandidates &&
      (forall i :: 0 <= i < numCandidates ==> probs[i] == (i + 1, Ratio(wc[i + 1], numTrials))) &&
      Sum(wc) == numTrials * NumWinners(m, voteForN)
    ensures WinProbs(PluralityTrials(samples, totals, voteForN, draw), seed, numTrials, numCandidates).Ok? ==>
      var trials := PluralityTrials(samples, totals, voteForN, draw);
      var probs := WinProbs(trials, seed, numTrials, numCandidates).value;
      forall i :: 0 <= i < numCandidates ==> probs[i] == (i + 1, Ratio(TimesWon(trials, seed, numTrials, i), numTrials))
  {
    var trials := PluralityTrials(samples, totals, voteForN, draw);
    PluralityTrialsDistinct(samples, totals, voteForN, draw);
    forall i | 0 <= i < numCandidates {
      WinProbsWon(trials, seed, numTrials, numCandidates, i);
    }
    var ok := |samples| > 0 && CountiesFit(samples, totals, 1, |samples|);
    PluralityTrialsBehave(samples, totals, voteForN, draw, m);
    WinProbsBehaved(PluralityTrials(samples, totals, voteForN, draw), ok, NumWinners(m, voteForN), m,
      seed, numTrials, numCandidates);
    if seed > 0 {
      CountiesFitSeed(samples, totals, seed, 1);
    }
  }

  /** compute_win_probs over trials that behave. */
  lemma WinProbsBehaved(trials: int -> Result<seq<nat>>, ok: bool, w: nat, m: nat,
                        seed: int, numTrials: nat, numCandidates: nat)
    requires TrialsBehave(trials, ok, w, m) && 0 < m <= numCandidates
    ensures WinProbs(trials, seed, numTrials, numCandidates).Ok? <==> numTrials > 0 && seed > 0 && ok
    ensures WinProbs(trials, seed, numTrials, numCandidates).Ok? ==>
      var probs := WinProbs(trials, seed, numTrials, numCandidates).value;
      var wc := WinCounts(trials, seed, numCandidates, numTrials).value;
      |probs| == numCandidates &&
      (forall i :: 0 <= i < numCandidates ==> probs[i] == (i + 1, Ratio(wc[i + 1], numTrials))) &&
      Sum(wc) == numTrials * w
  {
    WinCountsSpec(trials, ok, w, m, seed, numCandidates, numTrials);
  }

  /** The loop `for winner in winners: win_count[winner+1] += 1`. */
  method AddWinners(winCount0: seq<nat>, winners: seq<nat>) returns (r: Result<seq<nat>>)
    ensures r == AddWins(winCount0, winners)
  {
    var winCount := winCount0;
    for k := 0 to |winners|
      invariant AddWins(winCount0, winners[..k]) == Ok(winCount)
    {
      assert winners[..k + 1][..k] == winners[..k];
      var winner := winners[k];
      if winner + 1 >= |winCount| {
        AddWinsErrSticks(winCount0, winners, k + 1);
        return Err(IndexOutOfRange);
      }
      winCount := winCount[winner + 1 := winCount[winner + 1] + 1];
    }
    assert winners[..|winners|] == winners;
    return Ok(winCount);
  }

  /** One trial's winners added to the counts. */
  lemma WinCountsStep(trials: int -> Result<seq<nat>>, seed: int, numCandidates: nat, i: nat, wc: seq<nat>,
                      winners: Result<seq<nat>>, added: Result<seq<nat>>)
    requires WinCounts(trials, seed, numCandidates, i) == Ok(wc)
    requires winners == trials(TrialSeed(seed, i))
    requires added == if winners.Err? then Err(winners.error) else AddWins(wc, winners.value)
    ensures WinCounts(trials, seed, numCandidates, i + 1) == added
  {
  }

  /** One trial of compute_win_probs: compute_winner with the trial's seed,
      its winners added to the counts. */
  method CountTrial(samples: seq<seq<nat>>, totals: seq<int>, seed: int, i: nat, numCandidates: nat,
                    voteForN: int, draw: Draw, winCount: seq<nat>) returns (added: Result<seq<nat>>)
    requires WinCounts(PluralityTrials(samples, totals, voteForN, draw), seed, numCandidates, i) == Ok(winCount)
    ensures WinCounts(PluralityTrials(samples, totals, voteForN, draw), seed, numCandidates, i + 1) == added
  {
    var seedI := seed + i * TrialSeedStep;
    var winners := ComputeWinner(samples, totals, voteForN, seedI, draw);
    if winners.Err? {
      added := Err(winners.error);
    } else {
      added := AddWinners(winCount, winners.value);
    }
    assert seedI == TrialSeed(seed, i);
    PluralityTrialsAt(samples, totals, voteForN, draw, seedI);
    WinCountsStep(PluralityTrials(samples, totals, voteForN, draw), seed, numCandidates, i, winCount, winners, added);
  }

  /** The counting loop of compute_win_probs: one trial after another,
      stopping at the first error. */
  method CountWins(samples: seq<seq<nat>>, totals: seq<int>, seed: int, numTrials: nat,
                   numCandidates: nat, voteForN: int, draw: Draw) returns (r: Result<seq<nat>>)
    ensures r == WinCounts(PluralityTrials(samples, totals, voteForN, draw), seed, numCandidates, numTrials)
  {
    ghost var trials := PluralityTrials(samples, totals, voteForN, draw);
    var winCount := seq(numCandidates + 1, _ => 0);
    for i := 0 to numTrials
      invariant WinCounts(trials, seed, numCandidates, i) == Ok(winCount)
    {
      var added := CountTrial(samples, totals, seed, i, numCandidates, voteForN, draw, winCount);
      if added.Err? {
        WinCountsErrSticks(trials, seed, numCandidates, i + 1, numTrials);
        return Err(added.error);
      }
      winCount := added.value;
    }
    return Ok(winCount);
  }

  /** compute_win_probs: the counts of CountWins, each over the number of
      trials. */
  method ComputeWinProbs(samples: seq<seq<nat>>, totals: seq<int>, seed: int, numTrials: nat,
                         numCandidates: nat, voteForN: int, draw: Draw) returns (r: Result<seq<(nat, Ratio)>>)
    ensures r == WinProbs(PluralityTrials(samples, totals, voteForN, draw), seed, numTrials, numCandidates)
  {
    var counted := CountWins(samples, totals, seed, numTrials, numCandidates, voteForN, draw);
    if counted.Err? {
      return Err(counted.error);
    }
    var winCount := counted.value;
    if numTrials == 0 && numCandidates > 0 {
      return Err(ZeroTrials);
    }
    r := Ok(seq(numCandidates, i requires 0 <= i < numCandidates => (i + 1, Ratio(winCount[i + 1], numTrials))));
  }

  // ---------------------------------------------------------------------
  // compute_win_probs_rcv

  /** compute_winner with a voting method that names one winner (the
      method is applied to the final tally; it stands for rcv_wrapper with
      its other arguments fixed), as a function of the seed. */
  function VoteTrials(samples: seq<seq<nat>>, totals: seq<int>, draw: Draw,
                      vote: seq<(nat, nat)> -> Result<string>): int -> Result<string>
  {
    s => match FinalTallies(samples, totals, s, draw)
         case Err(f) => Err(f)
         case Ok(t) => vote(t)
  }

  /** `{name : 0 for name in real_names}`. */
  function ZeroCounts(names: seq<string>): Dict<string, nat>
  {
    if |names| == 0 then [] else Put(ZeroCounts(names[..|names| - 1]), names[|names| - 1], 0)
  }

  /** The zero counters: one per distinct name, all 0. */
  lemma ZeroCountsSpec(names: seq<string>)
    ensures DistinctKeys(ZeroCounts(names))
    ensures forall k :: HasKey(ZeroCounts(names), k) <==> k in names
    ensures forall k :: HasKey(ZeroCounts(names), k) ==> Get(ZeroCounts(names), k) == 0
    ensures Total(ZeroCounts(names)) == 0
  {
    ZeroCountsKeys(names);
    ZeroCountsZero(names);
    TotalOfZeros(ZeroCounts(names));
  }

  lemma {:induction false} ZeroCountsKeys(names: seq<string>)
    ensures DistinctKeys(ZeroCounts(names))
    ensures forall k :: HasKey(ZeroCounts(names), k) <==> k in names
    decreases |names|
  {
    if |names| > 0 {
      var front, last := names[..|names| - 1], names[|names| - 1];
      ZeroCountsKeys(front);
      PutKeys(ZeroCounts(front), last, 0);
      assert forall k :: k in names <==> k in front || k == last;
    }
  }

  lemma {:induction false} ZeroCountsZero(names: seq<string>)
    ensures forall i :: 0 <= i < |ZeroCounts(names)| ==> ZeroCounts(names)[i].1 == 0
    decreases |names|
  {
    if |names| > 0 {
      ZeroCountsZero(names[..|names| - 1]);
    }
  }

  lemma {:induction false} TotalOfZeros<K>(d: seq<(K, nat)>)
    requires forall i :: 0 <= i < |d| ==> d[i].1 == 0
    ensures Total(d) == 0
    decreases |d|
  {
    if |d| > 0 {
      TotalOfZeros(d[..|d| - 1]);
    }
  }

  /** One more win for `w`; a KeyError when `w` has no counter. */
  function CountWin(wc: Dict<string, nat>, w: string): Result<Dict<string, nat>>
  {
    if HasKey(wc, w) then Ok(Put(wc, w, Get(wc, w) + 1)) else Err(UnknownWinner)
  }

  /** The named win counts after the first `n` trials. */
  function NamedWinCounts(trials: int -> Result<string>, seed: int, names: seq<string>, n: nat): Result<Dict<string, nat>>
  {
    if n == 0 then Ok(ZeroCounts(names))
    else
      match NamedWinCounts(trials, seed, names, n - 1)
      case Err(f) => Err(f)
      case Ok(wc) =>
        match trials(TrialSeed(seed, n - 1))
        case Err(f) => Err(f)
        case Ok(w) => CountWin(wc, w)
  }

  /** Every trial among the first `n` succeeds and names a counted winner. */
  ghost predicate TrialsNameKnownWinners(trials: int -> Result<string>, seed: int, names: seq<string>, n: nat)
  {
    forall i :: 0 <= i < n ==> TrialNamesKnownWinner(trials, seed, names, i)
  }

  /** Trial `i` succeeds and names a winner among `names`. */
  ghost predicate TrialNamesKnownWinner(trials: int -> Result<string>, seed: int, names: seq<string>, i: nat)
  {
    trials(TrialSeed(seed, i)).Ok? && trials(TrialSeed(seed, i)).value in names
  }

  /** The counting succeeds exactly when every trial names a winner that
      has a counter; the counters stay those of the real names, and exactly
      one win is added per trial. */
  lemma NamedWinCountsSpec(trials: int -> Result<string>, seed: int, names: seq<string>, n: nat)
    ensures NamedWinCounts(trials, seed, names, n).Ok? <==> TrialsNameKnownWinners(trials, seed, names, n)
    ensures NamedWinCounts(trials, seed, names, n).Ok? ==>
      var wc := NamedWinCounts(trials, seed, names, n).value;
      DistinctKeys(wc) && (forall k :: HasKey(wc, k) <==> k in names) &&
      Keys(wc) == Keys(ZeroCounts(names)) && Total(wc) == n
  {
    NamedWinCountsOk(trials, seed, names, n);
    NamedWinCountsKeys(trials, seed, names, n);
    NamedWinCountsTotal(trials, seed, names, n);
    ZeroCountsKeys(names);
    var r := NamedWinCounts(trials, seed, names, n);
    if r.Ok? {
      SameKeys(r.value, ZeroCounts(names));
    }
  }

  /** Counting a win never adds or moves a counter. */
  lemma {:induction false} NamedWinCountsKeys(trials: int -> Result<string>, seed: int, names: seq<string>, n: nat)
    ensures NamedWinCounts(trials, seed, names, n).Ok? ==>
      Keys(NamedWinCounts(trials, seed, names, n).value) == Keys(ZeroCounts(names))
    decreases n
  {
    if n > 0 {
      NamedWinCountsKeys(trials, seed, names, n - 1);
      NamedWinCountsKeysNext(trials, seed, names, n);
    }
  }

  lemma NamedWinCountsKeysNext(trials: int -> Result<string>, seed: int, names: seq<string>, n: nat)
    requires n > 0
    ensures NamedWinCounts(trials, seed, names, n).Ok? ==>
      Keys(NamedWinCounts(trials, seed, names, n).value) == Keys(NamedWinCounts(trials, seed, names, n - 1).value)
  {
    var prev := NamedWinCounts(trials, seed, names, n - 1);
    var t := trials(TrialSeed(seed, n - 1));
    if prev.Ok? && t.Ok? && HasKey(prev.value, t.value) {
      PutKeys(prev.value, t.value, Get(prev.value, t.value) + 1);
    }
  }

  /** Each successful trial adds exactly one win. */
  lemma {:induction false} NamedWinCountsTotal(trials: int -> Result<string>, seed: int, names: seq<string>, n: nat)
    ensures NamedWinCounts(trials, seed, names, n).Ok? ==> Total(NamedWinCounts(trials, seed, names, n).value) == n
    decreases n
  {
    if n == 0 {
      ZeroCountsZero(names);
      TotalOfZeros(ZeroCounts(names));
    } else {
      NamedWinCountsTotal(trials, seed, names, n - 1);
      NamedWinCountsTotalNext(trials, seed, names, n);
    }
  }

  lemma NamedWinCountsTotalNext(trials: int -> Result<string>, seed: int, names: seq<string>, n: nat)
    requires n > 0
    ensures NamedWinCounts(trials, seed, names, n).Ok? ==>
      Total(NamedWinCounts(trials, seed, names, n).value) == Total(NamedWinCounts(trials, seed, names, n - 1).value) + 1
  {
    var prev := NamedWinCounts(trials, seed, names, n - 1);
    var t := trials(TrialSeed(seed, n - 1));
    if prev.Ok? && t.Ok? && HasKey(prev.value, t.value) {
      AddToTotal(prev.value, t.value, 1);
      assert NamedWinCounts(trials, seed, names, n) == Ok(AddTo(prev.value, t.value, 1));
    }
  }

  /** The counting succeeds exactly when every trial names a real name. */
  lemma {:induction false} NamedWinCountsOk(trials: int -> Result<string>, seed: int, names: seq<string>, n: nat)
    ensures NamedWinCounts(trials, seed, names, n).Ok? <==> TrialsNameKnownWinners(trials, seed, names, n)
    decreases n
  {
    if n > 0 {
      NamedWinCountsOk(trials, seed, names, n - 1);
      NamedWinCountsOkNext(trials, seed, names, n);
    }
  }

  /** One more trial keeps the counting going exactly when it names a real name. */
  lemma NamedWinCountsOkNext(trials: int -> Result<string>, seed: int, names: seq<string>, n: nat)
    requires n > 0
    requires NamedWinCounts(trials, seed, names, n - 1).Ok? <==> TrialsNameKnownWinners(trials, seed, names, n - 1)
    ensures NamedWinCounts(trials, seed, names, n).Ok? <==> TrialsNameKnownWinners(trials, seed, names, n)
  {
    NamedWinCountsOkStep(trials, seed, names, n);
    KnownWinnersNext(trials, seed, names, n);
    var prev := NamedWinCounts(trials, seed, names, n - 1);
    var t := trials(TrialSeed(seed, n - 1));
    if prev.Ok? && t.Ok? {
      NamedWinCountsHasKey(trials, seed, names, n - 1, t.value);
    }
  }

  lemma KnownWinnersNext(trials: int -> Result<string>, seed: int, names: seq<string>, n: nat)
    requires n > 0
    ensures TrialsNameKnownWinners(trials, seed, names, n) <==>
      TrialsNameKnownWinners(trials, seed, names, n - 1) && TrialNamesKnownWinner(trials, seed, names, n - 1)
  {
  }

  /** While the counting goes on, the counters are exactly the real names. */
  lemma NamedWinCountsHasKey(trials: int -> Result<string>, seed: int, names: seq<string>, n: nat, k: string)
    requires NamedWinCounts(trials, seed, names, n).Ok?
    ensures HasKey(NamedWinCounts(trials, seed, names, n).value, k) <==> k in names
  {
    NamedWinCountsKeys(trials, seed, names, n);
    ZeroCountsKeys(names);
    assert HasKey(NamedWinCounts(trials, seed, names, n).value, k) <==> HasKey(ZeroCounts(names), k);
  }

  lemma NamedWinCountsOkStep(trials: int -> Result<string>, seed: int, names: seq<string>, n: nat)
    requires n > 0
    ensures var prev := NamedWinCounts(trials, seed, names, n - 1);
      var t := trials(TrialSeed(seed, n - 1));
      NamedWinCounts(trials, seed, names, n).Ok? <==> prev.Ok? && t.Ok? && HasKey(prev.value, t.value)
  {
  }

  /** How many of the first `n` trials name `name` as the winner. */
  function WonBy(trials: int -> Result<string>, seed: int, n: nat, name: string): nat
  {
    if n == 0 then 0
    else WonBy(trials, seed, n - 1, name) + (if trials(TrialSeed(seed, n - 1)) == Ok(name) then 1 else 0)
  }

  /** Each counter holds the number of trials its name won. */
  lemma {:induction false} NamedWinCountsWon(trials: int -> Result<string>, seed: int, names: seq<string>, n: nat, k: string)
    ensures NamedWinCountsWonAt(trials, seed, names, n, k)
    decreases n
  {
    if n == 0 {
      ZeroCountsSpec(names);
    } else {
      NamedWinCountsWon(trials, seed, names, n - 1, k);
      NamedWinCountsWonNext(trials, seed, names, n, k);
    }
  }

  /** What NamedWinCountsWon states after `n` trials. */
  predicate NamedWinCountsWonAt(trials: int -> Result<string>, seed: int, names: seq<string>, n: nat, k: string)
  {
    var r := NamedWinCounts(trials, seed, names, n);
    (r.Ok? && HasKey(r.value, k)) ==> Get(r.value, k) == WonBy(trials, seed, n, k)
  }

  /** The step of NamedWinCountsWon: only the winner's counter moves, by one. */
  lemma NamedWinCountsWonNext(trials: int -> Result<string>, seed: int, names: seq<string>, n: nat, k: string)
    requires n > 0 && NamedWinCountsWonAt(trials, seed, names, n - 1, k)
    ensures NamedWinCountsWonAt(trials, seed, names, n, k)
  {
    var prev := NamedWinCounts(trials, seed, names, n - 1);
    var t := trials(TrialSeed(seed, n - 1));
    if prev.Ok? && t.Ok? && HasKey(prev.value, t.value) {
      var v := Get(prev.value, t.value) + 1;
      assert NamedWinCounts(trials, seed, names, n) == Ok(Put(prev.value, t.value, v));
      if k == t.value {
        PutSame(prev.value, k, v);
      } else {
        PutOther(prev.value, t.value, v, k);
      }
    }
  }

  /** A failed count names its cause: a trial that failed with that
      error, or a trial whose winner has no counter. */
  lemma {:induction false} NamedWinCountsErr(trials: int -> Result<string>, seed: int, names: seq<string>, n: nat)
    ensures NamedWinCounts(trials, seed, names, n).Err? ==>
      exists i :: 0 <= i < n && TrialCausing(trials(TrialSeed(seed, i)), names, NamedWinCounts(trials, seed, names, n).error)
    decreases n
  {
    if n > 0 {
      NamedWinCountsErr(trials, seed, names, n - 1);
      var prev := NamedWinCounts(trials, seed, names, n - 1);
      if prev.Ok? && NamedWinCounts(trials, seed, names, n).Err? {
        NamedWinCountsSpec(trials, seed, names, n - 1);
        assert TrialCausing(trials(TrialSeed(seed, n - 1)), names, NamedWinCounts(trials, seed, names, n).error);
      }
    }
  }

  /** A trial outcome that makes the counting fail with `f`. */
  predicate TrialCausing(outcome: Result<string>, names: seq<string>, f: Failure)
  {
    outcome == Err(f) || (outcome.Ok? && outcome.value !in names && f == UnknownWinner)
  }

  lemma {:induction false} NamedWinCountsErrSticks(trials: int -> Result<string>, seed: int, names: seq<string>, n: nat, m: nat)
    requires n <= m && NamedWinCounts(trials, seed, names, n).Err?
    ensures NamedWinCounts(trials, seed, names, m) == NamedWinCounts(trials, seed, names, n)
    decreases m - n
  {
    if n < m {
      NamedWinCountsErrSticks(trials, seed, names, n, m - 1);
    }
  }

  /** `name_map`: each name with the position of its last occurrence. */
  function NameIndices(names: seq<string>): Dict<string, nat>
  {
    if |names| == 0 then [] else Put(NameIndices(names[..|names| - 1]), names[|names| - 1], |names| - 1)
  }

  /** name_map knows exactly the real names, and maps each to the last
      position where it occurs. */
  lemma {:induction false} NameIndicesSpec(names: seq<string>)
    ensures forall k :: HasKey(NameIndices(names), k) <==> k in names
    ensures forall k :: HasKey(NameIndices(names), k) ==> LastAt(names, k, Get(NameIndices(names), k))
    decreases |names|
  {
    if |names| > 0 {
      var front, last := names[..|names| - 1], names[|names| - 1];
      NameIndicesSpec(front);
      PutKeys(NameIndices(front), last, |names| - 1);
      assert forall k :: k in names <==> k in front || k == last;
      forall k | HasKey(NameIndices(names), k) ensures LastAt(names, k, Get(NameIndices(names), k)) {
        NameIndicesNext(names, k);
      }
    }
  }

  /** The step of NameIndicesSpec for one name. */
  lemma NameIndicesNext(names: seq<string>, k: string)
    requires |names| > 0 && HasKey(NameIndices(names), k)
    requires var front := names[..|names| - 1];
      HasKey(NameIndices(front), k) ==> LastAt(front, k, Get(NameIndices(front), k))
    ensures LastAt(names, k, Get(NameIndices(names), k))
  {
    var front, last := names[..|names| - 1], names[|names| - 1];
    var m := NameIndices(front);
    if k == last {
      PutSame(m, last, |names| - 1);
    } else {
      PutOther(m, last, |names| - 1, k);
      var i := Get(m, k);
      assert LastAt(front, k, i);
      assert names[i] == front[i];
      assert forall j :: i < j < |front| ==> names[j] == front[j];
    }
  }

  /** `i` is the last position of `k` in `names`. */
  ghost predicate LastAt(names: seq<string>, k: string, i: nat)
  {
    i < |names| && names[i] == k && forall j :: i < j < |names| ==> names[j] != k
  }

  /** The loop building name_map. */
  method BuildNameIndices(names: seq<string>) returns (nameMap: Dict<string, nat>)
    ensures nameMap == NameIndices(names)
  {
    nameMap := [];
    for i := 0 to |names|
      invariant nameMap == NameIndices(names[..i])
    {
      assert names[..i + 1][..i] == names[..i];
      nameMap := Put(nameMap, names[i], i);
    }
    assert names[..|names|] == names;
  }

  /** `[(name_map[name], win_count[name] / total_count) for name in win_count]`. */
  function RcvProbs(wc: Dict<string, nat>, nameMap: Dict<string, nat>): seq<(nat, Ratio)>
    requires forall i :: 0 <= i < |wc| ==> HasKey(nameMap, wc[i].0)
  {
    seq(|wc|, i requires 0 <= i < |wc| => (Get(nameMap, wc[i].0), Ratio(wc[i].1, Total(wc))))
  }

  /** Every counted name is in name_map. */
  lemma CountedNamesIndexed(trials: int -> Result<string>, seed: int, names: seq<string>, n: nat)
    requires NamedWinCounts(trials, seed, names, n).Ok?
    ensures var wc := NamedWinCounts(trials, seed, names, n).value;
      forall i :: 0 <= i < |wc| ==> HasKey(NameIndices(names), wc[i].0)
  {
    NamedWinCountsSpec(trials, seed, names, n);
    NameIndicesSpec(names);
    var wc := NamedWinCounts(trials, seed, names, n).value;
    forall i | 0 <= i < |wc| ensures HasKey(NameIndices(names), wc[i].0) {
      assert Keys(wc)[i] == wc[i].0;
    }
  }

  /** compute_win_probs_rcv: the counts become ratios over their total,
      which fails on zero trials when there is a name. */
  function WinProbsRcv(trials: int -> Result<string>, seed: int, numTrials: nat, names: seq<string>): Result<seq<(nat, Ratio)>>
  {
    match NamedWinCounts(trials, seed, names, numTrials)
    case Err(f) => Err(f)
    case Ok(wc) =>
      if Total(wc) == 0 && |wc| > 0 then Err(ZeroTrials)
      else
        CountedNamesIndexed(trials, seed, names, numTrials);
        Ok(RcvProbs(wc, NameIndices(names)))
  }

  /** compute_win_probs_rcv succeeds exactly when every trial names a real
      name and, should there be none, when some name exists; then it
      reports one entry per distinct real name, in the order of their first
      occurrence, with the name's last position and its wins over
      `num_trials`, and the wins add up to `num_trials`. */
  lemma WinProbsRcvSpec(trials: int -> Result<string>, seed: int, numTrials: nat, names: seq<string>)
    ensures WinProbsRcv(trials, seed, numTrials, names).Ok? <==>
      TrialsNameKnownWinners(trials, seed, names, numTrials) && (numTrials > 0 || |names| == 0)
    ensures WinProbsRcv(trials, seed, numTrials, names).Ok? ==>
      var probs := WinProbsRcv(trials, seed, numTrials, names).value;
      var wc := NamedWinCounts(trials, seed, names, numTrials).value;
      |probs| == |wc| && Keys(wc) == Keys(ZeroCounts(names)) && Total(wc) == numTrials &&
      forall i :: 0 <= i < |wc| ==>
        probs[i].1 == Ratio(wc[i].1, numTrials) && LastAt(names, wc[i].0, probs[i].0)
    ensures WinProbsRcv(trials, seed, numTrials, names).Ok? ==>
      var probs := WinProbsRcv(trials, seed, numTrials, names).value;
      var wc := NamedWinCounts(trials, seed, names, numTrials).value;
      forall i :: 0 <= i < |wc| ==> probs[i].1 == Ratio(WonBy(trials, seed, numTrials, wc[i].0), numTrials)
  {
    WinProbsRcvWon(trials, seed, numTrials, names);
    NamedWinCountsSpec(trials, seed, names, numTrials);
    NameIndicesSpec(names);
    var r := NamedWinCounts(trials, seed, names, numTrials);
    if r.Ok? {
      var wc := r.value;
      if |names| > 0 {
        assert HasKey(wc, names[0]);
        assert |wc| > 0;
      }
      if Total(wc) != 0 || |wc| == 0 {
        forall i | 0 <= i < |wc| ensures HasKey(NameIndices(names), wc[i].0) {
          assert Keys(wc)[i] == wc[i].0;
        }
      }
    }
  }

  /** Each probability of compute_win_probs_rcv is the number of trials its
      name won over the number of trials. */
  lemma WinProbsRcvWon(trials: int -> Result<string>, seed: int, numTrials: nat, names: seq<string>)
    ensures WinProbsRcv(trials, seed, numTrials, names).Ok? ==>
      var probs := WinProbsRcv(trials, seed, numTrials, names).value;
      var wc := NamedWinCounts(trials, seed, names, numTrials).value;
      |probs| == |wc| && forall i :: 0 <= i < |wc| ==> probs[i].1 == Ratio(WonBy(trials, seed, numTrials, wc[i].0), numTrials)
  {
    if WinProbsRcv(trials, seed, numTrials, names).Ok? {
      var wc := NamedWinCounts(trials, seed, names, numTrials).value;
      NamedWinCountsTotal(trials, seed, names, numTrials);
      forall i | 0 <= i < |wc| ensures wc[i].1 == WonBy(trials, seed, numTrials, wc[i].0) {
        NamedWinCountsEntry(trials, seed, names, numTrials, i);
      }
    }
  }

  /** Entry `i` of the named counts is its name with the number of trials
      that name won. */
  lemma NamedWinCountsEntry(trials: int -> Result<string>, seed: int, names: seq<string>, n: nat, i: nat)
    requires NamedWinCounts(trials, seed, names, n).Ok? && i < |NamedWinCounts(trials, seed, names, n).value|
    ensures var wc := NamedWinCounts(trials, seed, names, n).value;
      wc[i].1 == WonBy(trials, seed, n, wc[i].0)
  {
    var wc := NamedWinCounts(trials, seed, names, n).value;
    NamedWinCountsSpec(trials, seed, names, n);
    GetAt(wc, i);
    NamedWinCountsWon(trials, seed, names, n, wc[i].0);
  }

  /** One trial of compute_win_probs_rcv: the voting method on the final
      tally of the trial's seed, and the named counter of its winner
      incremented. */
  method CountNamedTrial(samples: seq<seq<nat>>, totals: seq<int>, seed: int, i: nat, realNames: seq<string>,
                         draw: Draw, vote: seq<(nat, nat)> -> Result<string>, winCount: Dict<string, nat>)
    returns (next: Result<Dict<string, nat>>)
    requires NamedWinCounts(VoteTrials(samples, totals, draw, vote), seed, realNames, i) == Ok(winCount)
    ensures NamedWinCounts(VoteTrials(samples, totals, draw, vote), seed, realNames, i + 1) == next
  {
    var seedI := seed + i * TrialSeedStep;
    var finalTallies := ComputeFinalTallies(samples, totals, seedI, draw);
    var winner := if finalTallies.Err? then Err(finalTallies.error) else vote(finalTallies.value);
    assert winner == VoteTrials(samples, totals, draw, vote)(TrialSeed(seed, i));
    next := if winner.Err? then Err(winner.error) else CountWin(winCount, winner.value);
  }

  /** The counting loop of compute_win_probs_rcv: one trial after another,
      stopping at the first error. */
  method CountNamedWins(samples: seq<seq<nat>>, totals: seq<int>, seed: int, numTrials: nat,
                        realNames: seq<string>, draw: Draw, vote: seq<(nat, nat)> -> Result<string>)
    returns (r: Result<Dict<string, nat>>)
    ensures r == NamedWinCounts(VoteTrials(samples, totals, draw, vote), seed, realNames, numTrials)
  {
    ghost var trials := VoteTrials(samples, totals, draw, vote);
    var winCount := ZeroCounts(realNames);
    for i := 0 to numTrials
      invariant NamedWinCounts(trials, seed, realNames, i) == Ok(winCount)
    {
      var next := CountNamedTrial(samples, totals, seed, i, realNames, draw, vote, winCount);
      if next.Err? {
        NamedWinCountsErrSticks(trials, seed, realNames, i + 1, numTrials);
        return Err(next.error);
      }
      winCount := next.value;
    }
    return Ok(winCount);
  }

  /** compute_win_probs_rcv in bptool.py: the counts of CountNamedWins,
      each over their total, keyed by the name's index. */
  method ComputeWinProbsRcv(samples: seq<seq<nat>>, totals: seq<int>, seed: int, numTrials: nat,
                            realNames: seq<string>, draw: Draw, vote: seq<(nat, nat)> -> Result<string>)
    returns (r: Result<seq<(nat, Ratio)>>)
    ensures r == WinProbsRcv(VoteTrials(samples, totals, draw, vote), seed, numTrials, realNames)
  {
    var counted := CountNamedWins(samples, totals, seed, numTrials, realNames, draw, vote);
    if counted.Err? {
      return Err(counted.error);
    }
    var winCount := counted.value;
    var totalCount := Total(winCount);
    var nameMap := BuildNameIndices(realNames);
    if totalCount == 0 && |winCount| > 0 {
      return Err(ZeroTrials);
    }
    CountedNamesIndexed(VoteTrials(samples, totals, draw, vote), seed, realNames, numTrials);
    r := Ok(RcvProbs(winCount, nameMap));
  }
}
