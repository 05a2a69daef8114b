# Ranked-choice tabulation and Bayesian audit of Maine's RCV contest, in Dafny

This project models the core of a small Python code base written to tabulate
Maine's ranked-choice ("instant-runoff") elections and to simulate a Bayesian
ballot-polling audit of them. It proves properties of the model. The core has
four files:

- `rcv.py` is the tabulator over a **list of ballots**. It cleans ballots of
  overvotes and undervotes and counts first choices. It elects a candidate
  who is the only one left or who holds every first-choice vote. Otherwise it
  eliminates the weakest candidate, breaking ties with a tie-breaker list, and
  repeats until someone wins.
- `maine-rcv-code/v2-ballot-dictionary_based/rcv.py` is the same tabulator
  over a **tally**, a dict mapping each distinct ballot to the number of
  voters who cast it. Ballots that become equal after a deletion are merged
  by adding their counts. Its first-choice count lists only candidates who
  are some ballot's first choice.
- `maine-rcv-code/v2-tally-dictionary-based/bptool.py` is the Bayesian audit
  tool. It converts seeds to 32-bit digit arrays. For each county it draws
  the unsampled votes from a Dirichlet-multinomial posterior, adds that draw
  to the sample, and sums the counties. A voting method picks the winners of
  the simulated tally: plurality, or a ranked-choice wrapper. Repeating this
  over many trials, with seed `seed + i * 314159265` for trial `i`, gives each
  candidate's win frequency.
- `maine-rcv-code/v2-tally-dictionary-based/audit_me.py` drives that tool for
  an RCV contest. It thins the full tally to a pretend sample of one ballot
  per thousand and lists the candidates and the distinct ballots. It then runs
  100 trials from seed 1. In each trial, `rcv_wrapper` rebuilds a tally from
  the simulated counts and runs the dict tabulator.

The Dafny modules follow that structure:

| file | module | models |
|---|---|---|
| `collections.dfy` | `Collections` | Python dicts as insertion-ordered association lists: `Put`, `AddTo`, the merge `Accumulate`, `Total`. Also errors as a `Result` and `Sum` |
| `ballots.dfy` | `Ballots` | per-ballot steps shared by both tabulators: the double-undervote scan, `delete_name` on one ballot, and `tie_breaker_index` |
| `elimination.dfy` | `Elimination` | the decision inside `rcv_round`: fail, elect, or eliminate the first element of `sorted(E)` |
| `rcvlist.dfy` | `RcvList` | the list-of-ballots tabulator |
| `rcvdict.dfy` | `RcvDict` | the tally (ballot to count) tabulator |
| `bptool.dfy` | `Bptool` | the audit tool |
| `auditme.dfy` | `AuditMe` | the RCV audit driver |
| `doctests.dfy` | `Doctests` | the examples in the source docstrings, stated as lemmas |

Every loop of the source is a `method` whose `ensures` ties its result to a
specification function. The lemmas prove what the functions mean. The Python
exceptions the code can raise become `Err` values of `Collections.Failure`:

| Python exception | Failure |
|---|---|
| `AssertionError` "all candidates eliminated" | `AllCandidatesEliminated` |
| `ValueError` for a negative seed | `NegativeSeed` |
| `ValueError` from `RandomState` for seed 0's empty digit array | `EmptySeed` |
| `ValueError` for a sample larger than its county | `SampleExceedsTotal` |
| `IndexError` | `IndexOutOfRange` |
| `len(None)` when there are no counties | `NoCounties` |
| `KeyError` for an unknown winner | `UnknownWinner` |
| `ZeroDivisionError` | `ZeroTrials` |

The pseudo-random draw is a parameter. A seeded draw, type `Bptool.Draw`, maps
the posterior weights, the number of unsampled votes and the generator state
to a vector of counts. The only property assumed of it,
`Bptool.IsMultinomialDraw`, is that it returns one count per category and
that these counts add up to the number drawn. A per-trial voting method
`trials: int -> Result<...>` is abstracted the same way where the source
takes it as an argument.

Points where the two tabulators, or the code and what one might expect of
it, differ:

- **First-choice counts.** The list tabulator ranks every candidate still on
  a ballot, giving an entry of zero to one who is nobody's first choice
  (`rcv.py` `rcv_round`). The dict tabulator ranks only candidates who are
  some ballot's first choice (`v2-ballot-dictionary_based/rcv.py`
  `rcv_round`). So on the same four ballots
  `ab, cd, ce, fa` with tie-breaker `abcdef`, the list tabulator eliminates
  `e`, who holds zero votes. The dict tabulator eliminates `f`. Both doctests
  say so, and both are proved (`Doctests.ListRoundEliminatesExample`,
  `Doctests.DictRoundEliminatesExample`).
- **Elimination order.** The candidate eliminated is the first element of
  `sorted((count, -tie_breaker_index, name))`. Ties on count and tie-breaker
  index, which happen among candidates missing from the tie-breaker list,
  fall to the name that sorts first, because the tuple's third element is
  the name.
- **List lengths.** A list of county totals shorter than the list of samples
  raises `IndexError`. A longer list is not an error: the extra totals are
  ignored.
- **Zero trials.** This is an error only where the code divides by the number
  of trials with at least one candidate to report. `audit_me.py` divides by
  the sum of the win counts, which equals the number of trials.
- **Seeds.** Every county of one trial is drawn with the same seed, because
  `compute_winner` passes it unchanged to each county. Seed 0 converts to an
  empty digit array (`convert_int_to_32_bit_numpy_array` says this is fine),
  but NumPy's `RandomState` refuses an empty seed array with `ValueError`.
  The model makes this the failure `EmptySeed`: a trial needs a positive
  seed, so `--audit_seed 0` fails at its first trial.
- **RCV probabilities.** `bptool.compute_win_probs_rcv` returns pairs
  (position of the name in `real_names`, probability). It uses the last
  position when a name repeats. The `audit_me.py` copy returns a dict keyed
  by name.
- **Tabulator used by `audit_me.py`.** It imports the `rcv` module of its own
  directory. That file is not part of this model. The driver is modelled with
  the dict tabulator it mirrors.

## Model

| member | source | states |
|---|---|---|
| Collections.IndexOf | rcv.py:251-256 | the first position holding `x`, or the length when `x` does not occur; nothing before it equals `x` |
| Collections.PutSpec | maine-rcv-code/v2-ballot-dictionary_based/rcv.py:68 | storing a key: found with the new value; other keys keep their presence and value; keys grow only when the key is new; distinct keys stay distinct |
| Collections.AddToSpec | rcv.py:177-179 | adding `n` under a key: its value becomes old value (0 if absent) plus `n`, nothing else changes, and the total rises by `n` |
| Collections.AccumulateSpec | maine-rcv-code/v2-ballot-dictionary_based/rcv.py:107 | merging a list of (key, count) pairs into a dict: distinct keys, exactly the keys that occur, each holding the sum of its pairs' counts, and the same total |
| Collections.AccumulateDistinct | maine-rcv-code/v2-ballot-dictionary_based/rcv.py:107 | merging a dict that already has distinct keys gives it back unchanged |
| Collections.HasKeyIff | maine-rcv-code/v2-ballot-dictionary_based/rcv.py:176 | `in` on a dict is true exactly when some entry carries that key |
| Collections.GetAt | maine-rcv-code/v2-ballot-dictionary_based/rcv.py:177 | on distinct keys, looking up an entry's key finds that entry's value at that entry's position |
| Collections.SumValues | maine-rcv-code/v2-tally-dictionary-based/audit_me.py:124 | `sum(tally.values())` is the total of the dict's counts |
| Collections.DistinctKeysCard | maine-rcv-code/v2-tally-dictionary-based/audit_me.py:138 | a dict has as many distinct keys as entries |
| Ballots.FirstDoubleUndervote | rcv.py:61-66 | the first position of two undervotes in a row, or the ballot's length when there is none; no earlier pair exists |
| Ballots.FindDoubleUndervote | rcv.py:60-66 | the scan loop finds exactly the first double undervote |
| Ballots.BeforeDoubleUndervoteSpec | rcv.py:67 | the kept prefix is a prefix of the ballot, holds no double undervote and has no new tokens |
| Ballots.StripName | rcv.py:97-106 | the per-ballot loop of delete_name computes `Stripped` |
| Ballots.StrippedSpec | rcv.py:72-108 | the name is gone, the ballot does not grow and gains no tokens, a ballot without the name is unchanged; with delete_following the result is the prefix before the first occurrence, otherwise every other token survives |
| Ballots.WithoutSpec | rcv.py:100-103 | removing every occurrence leaves the tokens as a multiset with that name's count set to zero |
| Ballots.StrippedTwice | rcv.py:321 | deleting the same name twice is the same as deleting it once |
| Ballots.StrippedTokens | rcv.py:72-108 | after deleting a name from every ballot, the tokens on ballots lose exactly that name (without delete_following) or at least that name (with it) |
| Ballots.CleanBallotSpec | rcv.py:325-338 | a cleaned ballot holds no undervote or overvote, is no longer than the original, has only original tokens, and cleaning it again changes nothing |
| Ballots.CleanFixesSentinelFree | rcv.py:325-338 | cleaning leaves a ballot without markers unchanged |
| Ballots.TieBreakerIndex | rcv.py:184-208 | the position of the name in the tie-breaker, whose first occurrence it is; the list's length exactly when the name is absent |
| Ballots.TokensIff | rcv.py:13-37 | a token is among the ballots' tokens exactly when some ballot carries it |
| Ballots.StrLessTransitive | rcv.py:258-259 | Python's string order, used to sort ties, is transitive (irreflexive and total are also proved) |
| Elimination.WeakestAtSpec | rcv.py:258-260 | `sorted(E)[0]`: the fewest votes; among those, the largest tie-breaker index; among those, the name sorting first |
| Elimination.WeakestAtUnique | rcv.py:258-260 | any entry no other entry sorts before is the one chosen |
| Elimination.DecideSpec | rcv.py:245-260 | fails (all candidates eliminated) exactly on an empty count; elects exactly when one candidate is left or one holds every vote, and then the first such; otherwise eliminates the weakest choice |
| Elimination.FindHolderOfAll | rcv.py:251-256 | the loop finds the first choice whose count equals the total, or none |
| Elimination.HoldsAllOthersZero | rcv.py:251-256 | when one choice holds every vote, every other choice holds none |
| RcvList.ChoicesOnBallots | rcv.py:13-37 | the loop computes `ChoiceCounts` |
| RcvList.ChoiceCountsSpec | rcv.py:13-37 | keys are exactly the tokens on the ballots; each counts its occurrences; the total is the number of marks |
| RcvList.DeleteDoubleUndervotes | rcv.py:40-69 | the loop computes `DoubleUndervotesDeleted` |
| RcvList.DoubleUndervotesDeletedSpec | rcv.py:40-69 | one output ballot per input ballot, each the prefix before the first double undervote; ballots without one are untouched |
| RcvList.DeleteName | rcv.py:72-108 | the loop computes `NameDeleted` |
| RcvList.NameDeletedSpec | rcv.py:72-108 | one ballot per ballot; the name is gone; ballots without it are unchanged; truncation at the first occurrence with delete_following, multiset removal without |
| RcvList.NameDeletedTokens | rcv.py:72-108 | the tokens afterwards are the old tokens minus the name (a subset with delete_following) |
| RcvList.DeleteUndervotes | rcv.py:111-131 | the loop computes `UndervotesDeleted` |
| RcvList.DeleteOvervotes | rcv.py:134-152 | the loop computes `OvervotesDeleted` |
| RcvList.Clean | rcv.py:325-338 | computes `Cleaned` |
| RcvList.CleanedSpec | rcv.py:325-338 | same number of ballots, no markers left, each ballot no longer, no new tokens, and cleaning is idempotent |
| RcvList.CountFirstChoices | rcv.py:155-181 | the nested loop computes `FirstChoiceCounts` |
| RcvList.FirstChoiceCountsSpec | rcv.py:155-181 | keys are exactly the candidates on any ballot, each counting the ballots it heads (zero if none); the total is the number of non-empty ballots |
| RcvList.FirstChoiceEntries | rcv.py:174-179 | each entry counts the ballots its key heads, and each candidate's first entry carries it |
| RcvList.RcvRound | rcv.py:211-263 | the round computes `RoundOf` |
| RcvList.RoundOfFails | rcv.py:245 | a round fails exactly when no ballot holds a token |
| RcvList.RoundOfElects | rcv.py:247-256 | a round elects exactly when one candidate is left or one heads every non-empty ballot, and the winner is such a candidate |
| RcvList.RoundOfEliminates | rcv.py:258-263 | the eliminated candidate is on a ballot, there are at least two, nobody holds every vote, it has the fewest votes and the largest tie-breaker index among those, and the ballots returned lack only it |
| RcvList.RoundShrinks | rcv.py:262-263 | after an elimination the next round's candidates are the old ones minus the eliminated one, so there is one fewer |
| RcvList.RcvWinner | rcv.py:266-322 | the loop computes `WinnerOf`, which terminates because each round removes a candidate |
| RcvList.WinnerOfSpec | rcv.py:266-322 | the winner search fails (all eliminated) exactly when the ballots hold no token; a winner is always a token on the ballots |
| RcvList.CleanWinner | rcv.py:279-281 | rcv_winner on cleaned ballots elects a real candidate from the ballots, never a marker |
| RcvDict.DeleteDoubleUndervotes | maine-rcv-code/v2-ballot-dictionary_based/rcv.py:40-69 | the loop computes `DoubleUndervotesDeleted` |
| RcvDict.DoubleUndervotesDeletedSpec | maine-rcv-code/v2-ballot-dictionary_based/rcv.py:40-69 | distinct keys, the same number of voters, keys exactly the truncated ballots, free of double undervotes, and no new tokens |
| RcvDict.DoubleUndervotesUnchanged | maine-rcv-code/v2-ballot-dictionary_based/rcv.py:40-69 | a tally without undervotes is left as it is |
| RcvDict.DeleteName | maine-rcv-code/v2-ballot-dictionary_based/rcv.py:72-109 | the loop computes `NameDeleted` |
| RcvDict.NameDeletedSpec | maine-rcv-code/v2-ballot-dictionary_based/rcv.py:72-109 | distinct keys, the same number of voters, the name on no ballot, and the tokens are the old ones minus the name (a subset with delete_following) |
| RcvDict.NameDeletedMerges | maine-rcv-code/v2-ballot-dictionary_based/rcv.py:95-107 | keys are exactly the stripped ballots; each counts all ballots that strip to it; a ballot without the name keeps at least its count; without the name anywhere the tally is unchanged |
| RcvDict.DeleteUndervotes | maine-rcv-code/v2-ballot-dictionary_based/rcv.py:112-132 | computes `UndervotesDeleted` |
| RcvDict.UndervotesDeletedSpec | maine-rcv-code/v2-ballot-dictionary_based/rcv.py:112-132 | distinct keys, the same number of voters, and no undervote left |
| RcvDict.DeleteOvervotes | maine-rcv-code/v2-ballot-dictionary_based/rcv.py:135-153 | computes `OvervotesDeleted` |
| RcvDict.Clean | maine-rcv-code/v2-ballot-dictionary_based/rcv.py:326-339 | computes `Cleaned` |
| RcvDict.CleanedSpec | maine-rcv-code/v2-ballot-dictionary_based/rcv.py:326-339 | distinct keys, the same number of voters, no markers, no new tokens, and cleaning is idempotent |
| RcvDict.CountFirstChoices | maine-rcv-code/v2-ballot-dictionary_based/rcv.py:156-182 | the loop computes `FirstChoiceCounts` |
| RcvDict.FirstChoiceCountsSpec | maine-rcv-code/v2-ballot-dictionary_based/rcv.py:156-182 | keys are exactly the first choices of non-empty ballots, each with the voters it heads; the total is the number of voters with a non-empty ballot |
| RcvDict.FirstChoicesIff | maine-rcv-code/v2-ballot-dictionary_based/rcv.py:174-176 | a candidate is a first choice exactly when some non-empty ballot begins with it |
| RcvDict.RcvRound | maine-rcv-code/v2-ballot-dictionary_based/rcv.py:212-263 | the round computes `RoundOf` |
| RcvDict.RoundOfFails | maine-rcv-code/v2-ballot-dictionary_based/rcv.py:245 | a round fails exactly when no ballot has a first choice |
| RcvDict.RoundOfElects | maine-rcv-code/v2-ballot-dictionary_based/rcv.py:247-256 | a round elects exactly when one first choice is left or one holds every vote, and the winner is such a candidate |
| RcvDict.RoundOfEliminates | maine-rcv-code/v2-ballot-dictionary_based/rcv.py:258-263 | the eliminated candidate is a first choice with the fewest votes and the largest tie-breaker index among them, nobody holds every vote, and the returned tally lacks only it |
| RcvDict.RoundShrinks | maine-rcv-code/v2-ballot-dictionary_based/rcv.py:262-263 | the next round has one candidate fewer on its ballots and the same number of voters |
| RcvDict.NextHasFirstChoice | maine-rcv-code/v2-ballot-dictionary_based/rcv.py:299-323 | after an elimination some ballot still has a first choice, so the next round cannot fail |
| RcvDict.RcvWinner | maine-rcv-code/v2-ballot-dictionary_based/rcv.py:266-323 | the loop computes `WinnerOf` |
| RcvDict.WinnerOfSpec | maine-rcv-code/v2-ballot-dictionary_based/rcv.py:266-323 | fails exactly when no ballot has a first choice in the first round; a winner is a token on the ballots |
| RcvDict.CleanWinner | maine-rcv-code/v2-ballot-dictionary_based/rcv.py:279-281 | on a cleaned tally the winner is a candidate from the ballots, never a marker |
| Bptool.ConvertIntTo32BitArray | maine-rcv-code/v2-tally-dictionary-based/bptool.py:74-106 | rejects a negative seed; otherwise returns its base-2^32 digits, least significant first |
| Bptool.DigitsSpec | maine-rcv-code/v2-tally-dictionary-based/bptool.py:100-106 | the digits are each below 2^32, the last is non-zero, they evaluate back to the seed, and zero gives the empty array |
| Bptool.DigitsOfValue | maine-rcv-code/v2-tally-dictionary-based/bptool.py:100-106 | every digit string without a leading zero is the conversion of its value, so the conversion is a bijection |
| Bptool.CreateRandomStateSpec | maine-rcv-code/v2-tally-dictionary-based/bptool.py:109-128 | a random state exists exactly when the seed's digit array is non-empty, that is for a positive seed; a negative seed and seed 0 fail with their own errors |
| Bptool.DigitsExample | maine-rcv-code/v2-tally-dictionary-based/bptool.py:82 | the docstring's example `2**64 + 5` gives `[5, 0, 1]` |
| Bptool.WithPriorSpec | maine-rcv-code/v2-tally-dictionary-based/bptool.py:170-173 | the prior adds one pseudo-count to every category |
| Bptool.DirichletMultinomialSpec | maine-rcv-code/v2-tally-dictionary-based/bptool.py:135-181 | fails exactly when the sample exceeds the county's votes; otherwise the draw has one count per category and, with the sample, makes up the county's votes |
| Bptool.ZipSumSpec | maine-rcv-code/v2-tally-dictionary-based/bptool.py:284-285 | `zip` then sum: as long as the shorter list, and on equal lengths the sum of the sums |
| Bptool.ZipSumAt | maine-rcv-code/v2-tally-dictionary-based/bptool.py:284-285 | entry `k` of `zip` then sum, within both lists, is the sum of the two entries `k` |
| Bptool.AggregateColumns | maine-rcv-code/v2-tally-dictionary-based/bptool.py:280-290 | entry `k` of the running tally is candidate `k`'s sampled votes plus its simulated unsampled votes, each summed over the counties so far |
| Bptool.FinalTalliesColumns | maine-rcv-code/v2-tally-dictionary-based/bptool.py:280-291 | the final tally pairs index `k` with the column sum over the counties of the samples plus that of the simulated unsampled tallies |
| Bptool.MergedAt | maine-rcv-code/v2-tally-dictionary-based/bptool.py:284-290 | merging one county adds its sample's and its unsampled tally's entries `k` to the running entry `k` |
| Bptool.AggregateOk | maine-rcv-code/v2-tally-dictionary-based/bptool.py:280-290 | the county loop succeeds exactly when every county has a total, the seed is positive and every sample is no larger than its total |
| Bptool.AggregateErrSticks | maine-rcv-code/v2-tally-dictionary-based/bptool.py:280-290 | once a county fails, the whole loop fails with that error |
| Bptool.AggregateTotals | maine-rcv-code/v2-tally-dictionary-based/bptool.py:280-290 | with equally long samples, the aggregate has one count per category, and its counts add up to the counties' totals |
| Bptool.FinalTalliesSpec | maine-rcv-code/v2-tally-dictionary-based/bptool.py:280-291 | the final tallies exist exactly when there is a county and all fit; they pair each count with its index and add up to all votes cast |
| Bptool.ComputeFinalTallies | maine-rcv-code/v2-tally-dictionary-based/bptool.py:280-291 | the county loop computes `FinalTallies` |
| Bptool.SortedByCountSpec | maine-rcv-code/v2-tally-dictionary-based/bptool.py:224 | `sort(key=count)` returns a permutation, sorted by count, keeping the original order among equal counts (stable) |
| Bptool.InsertAt | maine-rcv-code/v2-tally-dictionary-based/bptool.py:224 | one insertion step of the in-place sort: the prefix becomes the insertion of the next element, the rest is untouched |
| Bptool.SortByCount | maine-rcv-code/v2-tally-dictionary-based/bptool.py:224 | the in-place sort leaves the array equal to `SortedByCount` of its old contents |
| Bptool.NumWinnersSpec | maine-rcv-code/v2-tally-dictionary-based/bptool.py:225 | how many the slice `[-vote_for_n:]` keeps, for positive, zero and negative `vote_for_n` |
| Bptool.PluralityWinnersSpec | maine-rcv-code/v2-tally-dictionary-based/bptool.py:214-227 | that many winners, all distinct valid indices, each beating every non-winner on votes, with ties to the larger index |
| Bptool.PluralityWinner | maine-rcv-code/v2-tally-dictionary-based/bptool.py:214-227 | sorts the caller's array in place and returns the indices of the last `vote_for_n` entries |
| Bptool.ComputeWinner | maine-rcv-code/v2-tally-dictionary-based/bptool.py:230-294 | simulates every county and applies plurality |
| Bptool.AddWinsSpec | maine-rcv-code/v2-tally-dictionary-based/bptool.py:360-361 | fails exactly on a winner past the counters; otherwise each counter `k` gains the wins of candidate `k - 1`, slot 0 never moves, and the counts grow by the number of winners |
| Bptool.AddWinners | maine-rcv-code/v2-tally-dictionary-based/bptool.py:360-361 | the loop computes `AddWins` |
| Bptool.WinCountsSpec | maine-rcv-code/v2-tally-dictionary-based/bptool.py:349-361 | for trials returning `w` valid winners when they succeed, counting succeeds exactly when nothing is run or the seed is positive, and then exactly `n * w` wins are recorded |
| Bptool.WinCountsWon | maine-rcv-code/v2-tally-dictionary-based/bptool.py:349-361 | when no trial names a winner twice, counter `k` equals the number of trials that candidate `k - 1` won |
| Bptool.PluralityTrialsDistinct | maine-rcv-code/v2-tally-dictionary-based/bptool.py:214-227 | a plurality trial never names a candidate twice |
| Bptool.WinProbsWon | maine-rcv-code/v2-tally-dictionary-based/bptool.py:349-364 | entry `i` of the win probabilities is candidate `i + 1` with the number of trials it won over the number of trials |
| Bptool.DistinctCount | maine-rcv-code/v2-tally-dictionary-based/bptool.py:360-361 | a winner listed once in a trial adds exactly one win |
| Bptool.WinCountsErrSticks | maine-rcv-code/v2-tally-dictionary-based/bptool.py:351-361 | a failing trial aborts the whole run with its error |
| Bptool.PluralityTrialsBehave | maine-rcv-code/v2-tally-dictionary-based/bptool.py:355-359 | a plurality trial succeeds exactly for a positive seed when the counties fit, and then returns `NumWinners` indices of real candidates |
| Bptool.CountWins | maine-rcv-code/v2-tally-dictionary-based/bptool.py:349-361 | the trial loop computes `WinCounts` |
| Bptool.WinProbsSpec | maine-rcv-code/v2-tally-dictionary-based/bptool.py:297-364 | plurality win probabilities exist exactly with at least one trial, one county and fitting counties; candidate `i + 1` gets the number of trials it won over the number of trials, and the wins add up to trials times winners per trial |
| Bptool.ComputeWinProbs | maine-rcv-code/v2-tally-dictionary-based/bptool.py:297-364 | computes `WinProbs` |
| Bptool.ZeroCountsSpec | maine-rcv-code/v2-tally-dictionary-based/bptool.py:424 | `{name: 0 for name in real_names}`: distinct keys, exactly the names, all zero |
| Bptool.NamedWinCountsSpec | maine-rcv-code/v2-tally-dictionary-based/bptool.py:424-434 | counting succeeds exactly when every trial names a known winner, and then it keeps the names in order and records one win per trial |
| Bptool.WinProbsRcvWon | maine-rcv-code/v2-tally-dictionary-based/bptool.py:424-441 | each probability is the number of trials its name won over the number of trials |
| Bptool.NamedWinCountsWon | maine-rcv-code/v2-tally-dictionary-based/bptool.py:424-434 | each name's counter holds the number of trials that name won |
| Bptool.NamedWinCountsEntry | maine-rcv-code/v2-tally-dictionary-based/bptool.py:424-434 | every entry of the counts is a name with the number of trials it won |
| Bptool.NamedWinCountsErr | maine-rcv-code/v2-tally-dictionary-based/bptool.py:425-434 | a failure comes from some trial that failed or named an unknown winner |
| Bptool.NamedWinCountsErrSticks | maine-rcv-code/v2-tally-dictionary-based/bptool.py:425-434 | once a trial fails, the run fails with that error |
| Bptool.NameIndicesSpec | maine-rcv-code/v2-tally-dictionary-based/bptool.py:436-438 | `name_map` holds exactly the names, each mapped to its last position |
| Bptool.BuildNameIndices | maine-rcv-code/v2-tally-dictionary-based/bptool.py:436-438 | the loop computes `NameIndices` |
| Bptool.WinProbsRcvSpec | maine-rcv-code/v2-tally-dictionary-based/bptool.py:366-441 | probabilities exist exactly when every trial names a known winner and there is a trial (or no name); every name's entry pairs its last position with the number of trials it won over the trials, and the wins add up to the trials |
| Bptool.ComputeWinProbsRcv | maine-rcv-code/v2-tally-dictionary-based/bptool.py:366-441 | computes `WinProbsRcv` |
| AuditMe.WrapperTallySpec | maine-rcv-code/v2-tally-dictionary-based/audit_me.py:37-41 | the rebuilt tally exists exactly when every index is in range; its keys are distinct and are exactly the ballots indexed |
| AuditMe.WrapperTallyIndexed | maine-rcv-code/v2-tally-dictionary-based/audit_me.py:37-41 | on distinct ballots and indexed counts, the rebuilt tally pairs the ballots with the counts in order |
| AuditMe.RcvWrapper | maine-rcv-code/v2-tally-dictionary-based/audit_me.py:37-42 | the loop plus the tabulator compute `WrapperOutcome` |
| AuditMe.WrapperWinnerKnown | maine-rcv-code/v2-tally-dictionary-based/audit_me.py:37-42 | the wrapper's winner is a token on the unique ballots; it fails only on a bad index or an empty count |
| AuditMe.GetCandidates | maine-rcv-code/v2-tally-dictionary-based/audit_me.py:115-120 | every name on a ballot of the tally, each once, and nothing else |
| AuditMe.ThinSample | maine-rcv-code/v2-tally-dictionary-based/audit_me.py:127-131 | the loop computes `Thinned` |
| AuditMe.ThinnedSpec | maine-rcv-code/v2-tally-dictionary-based/audit_me.py:127-131 | the sample keeps exactly the ballots with at least 1000 votes, each with its count divided by 1000 |
| AuditMe.ThinnedTotal | maine-rcv-code/v2-tally-dictionary-based/audit_me.py:127-132 | the sample holds at most a thousandth of the votes |
| AuditMe.SampleVectorRoundTrip | maine-rcv-code/v2-tally-dictionary-based/audit_me.py:138-148 | listing the sample in key order and rebuilding it through `rcv_wrapper`'s loop gives the sample back |
| AuditMe.WinProbsSpec | maine-rcv-code/v2-tally-dictionary-based/audit_me.py:99-113 | probabilities exist exactly when every trial names a known winner and there is a trial (or no name); they are keyed by exactly the names, each name's numerator is the number of trials it won, over the trials, with one win per trial |
| AuditMe.ComputeWinProbsRcv | maine-rcv-code/v2-tally-dictionary-based/audit_me.py:44-113 | computes `WinProbs` over RCV trials |
| AuditMe.SingleCountyTrial | maine-rcv-code/v2-tally-dictionary-based/audit_me.py:149-155 | a trial of a fitting single county elects a candidate from the ballots or finds every candidate eliminated |
| AuditMe.AuditOutcome | maine-rcv-code/v2-tally-dictionary-based/audit_me.py:148-155 | for a fitting single county whose candidates are all listed, seed 0 fails with `EmptySeed`; with a positive seed the run fails only if every candidate is eliminated; otherwise every name gets the number of trials it won over the trials, adding up to the trials |
| AuditMe.Audit | maine-rcv-code/v2-tally-dictionary-based/audit_me.py:121-156 | the audit fails only if every candidate is eliminated; otherwise it reports each candidate on the sampled ballots once, with the number of the 100 trials from seed 1 it won, out of 100, adding up to 100 |
| Doctests.ListDoubleUndervotesExample | rcv.py:54-56 | the delete_double_undervotes docstring example |
| Doctests.ListDeleteNameExample | rcv.py:90-92 | the delete_name docstring example |
| Doctests.ListUndervotesExample | rcv.py:124-126 | the delete_undervotes docstring example |
| Doctests.ListOvervotesExample | rcv.py:147-149 | the delete_overvotes docstring example |
| Doctests.TieBreakerIndexExample | rcv.py:199-203 | both tie_breaker_index docstring examples |
| Doctests.ListCountsExample | rcv.py:229-231 | the first round's count in the rcv_round example, zero entries included |
| Doctests.ListDecideExample | rcv.py:229-231 | that count, with tie-breaker `abcdef`, eliminates `e` |
| Doctests.ListRoundEliminatesExample | rcv.py:229-231 | the first rcv_round docstring example, whole |
| Doctests.ListRoundElectsExample | rcv.py:237-239 | the third rcv_round docstring example: `a` heads both ballots and wins, with `b` and `c` counted at zero |
| Doctests.DictDoubleUndervotesExample | maine-rcv-code/v2-ballot-dictionary_based/rcv.py:54-56 | the delete_double_undervotes docstring example |
| Doctests.DictUndervotesExample | maine-rcv-code/v2-ballot-dictionary_based/rcv.py:125-127 | the delete_undervotes docstring example: double undervote cut first, then each undervote dropped |
| Doctests.DictOvervotesExample | maine-rcv-code/v2-ballot-dictionary_based/rcv.py:148-150 | the delete_overvotes docstring example, counts merged |
| Doctests.DictCountsExample | maine-rcv-code/v2-ballot-dictionary_based/rcv.py:230-232 | the first round's count in the rcv_round example: only first choices |
| Doctests.DictDecideExample | maine-rcv-code/v2-ballot-dictionary_based/rcv.py:230-232 | that count eliminates `f` |
| Doctests.DictRoundEliminatesExample | maine-rcv-code/v2-ballot-dictionary_based/rcv.py:230-232 | the first rcv_round docstring example, whole |
| Doctests.DictRoundElectsExample | maine-rcv-code/v2-ballot-dictionary_based/rcv.py:238-240 | the third rcv_round docstring example: `a` holds every vote and wins |

## Left out

- Reading and preprocessing the Maine CSV files (`read_ME_data`, `preprocess_csv`), `print_results`, `main`, `test_rcv` and the argument parsing are file I/O and command-line glue.
- The trace printed by `rcv_winner` and `choices_on_ballots` and the prints in `audit` add output only and change no result.
- `randint` and `get_data` in `audit_me.py` and the module-level script code are left out. The first hashes a global counter; the second reads a file. The audit takes the full tally as an argument instead.
- NumPy's `RandomState`, `gamma` and `multinomial` are left out. The float normalisation of the gamma sample is left out too. The seeded draw is the parameter `Bptool.Draw`; `Bptool.IsMultinomialDraw` states only that it returns one count per category, adding up to the number drawn.
- `create_rs(None)` seeds from the clock. The model always has a seed.
- `Bptool.DirichletMultinomialSpec`: the length and sum of the draw are stated only for a non-empty sample, because no count vector over zero categories adds up to a positive number drawn. With an empty sample the code passes the empty list to `rs.multinomial` (`bptool.py:175-179`; nothing is divided). What NumPy does on that call is not modelled: the model takes whatever `Draw` returns, and `ZipSum` with the empty sample cuts it to the empty tally. So for an audit tally whose every ballot has fewer than 1000 votes, `AuditMe.Audit` and `AuditMe.AuditOutcome` report `AllCandidatesEliminated` from the count. This assumes that NumPy returns from the call rather than raising.
- Win probabilities are integer ratios `Ratio(wins, trials)`, not floats. Float rounding is not modelled.
- `AuditMe.Thinned`: `int(count / 1000.0)` is modelled as floor division by 1000. This is exact for counts of realistic size, but not for counts beyond double precision.
- `AuditMe.GetCandidates`: `list(set(...))` promises no order. In the model any order may be chosen, and only membership and no duplicates are stated.
- `Bptool.PluralityWinner`: Python's stable Timsort is modelled by an in-place insertion sort. The two produce the same order.
- Unused parameters play no part: `candidate_names` and `num_candidates` in the trial loops, and `vote_for_n` in `rcv_wrapper`.
- The number of trials and all counts are natural numbers. A negative `num_trials`, which Python's `range` treats as zero, is not modelled.
- `choices_on_ballots` in the dict file is the same code as in the list file, and is modelled once, by `RcvList.ChoicesOnBallots`.
- The second `rcv_round` docstring example of each file and the `rcv_winner` examples are not stated as lemmas. The first and third `rcv_round` examples of each file are. Their general cases are covered by `RoundOfEliminates` and `WinnerOfSpec`. The `count_first_choices` examples are left out too: they tally strings such as `('c')` as ballots, whose first choice is a character.
- `RcvList.WinnerOfSpec`, `RcvDict.WinnerOfSpec`: no bound on the number of rounds is stated. Termination follows from `RoundShrinks`, which removes one candidate per round.
