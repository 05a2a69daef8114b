/**
 * Python's built-in containers as the tabulator and the audit use them:
 * outcomes of a call (a value or the exception it raises), `list.index`,
 * `sum`, and the insertion-ordered `dict`, modelled as a sequence of
 * (key, value) entries.
 */
module Collections {

  /** The exceptions the modelled code can raise. */
  datatype Failure =
    | AllCandidatesEliminated   // AssertionError in rcv_round: no first choices left
    | NegativeSeed              // ValueError in convert_int_to_32_bit_numpy_array
    | EmptySeed                 // ValueError from numpy's RandomState, given seed 0's empty digit array
    | SampleExceedsTotal        // ValueError in dirichlet_multinomial
    | IndexOutOfRange           // IndexError on a list subscript
    | NoCounties                // TypeError: len(None) when there is no county
    | UnknownWinner             // KeyError: the winner has no counter
    | ZeroTrials                // ZeroDivisionError when dividing by zero trials

  datatype Result<T> = Ok(value: T) | Err(error: Failure)

  datatype Option<T> = None | Some(value: T)

  /** Position of the first `x` in `s`, or `|s|` when `x` does not occur. */
  function IndexOf<T(==)>(s: seq<T>, x: T): (i: nat)
    ensures i <= |s|
    ensures i < |s| <==> x in s
    ensures i < |s| ==> s[i] == x
    ensures forall j :: 0 <= j < i ==> s[j] != x
  {
    if |s| == 0 then 0
    else if s[0] == x then 0
    else 1 + IndexOf(s[1..], x)
  }

  /** Python's `sum` over a list of counts. */
  function Sum(s: seq<nat>): nat
  {
    if |s| == 0 then 0 else Sum(s[..|s| - 1]) + s[|s| - 1]
  }

  lemma {:induction false} SumAppend(a: seq<nat>, b: seq<nat>)
    ensures Sum(a + b) == Sum(a) + Sum(b)
    decreases |b|
  {
    if |b| == 0 {
      assert a + b == a;
    } else {
      assert (a + b)[..|a + b| - 1] == a + b[..|b| - 1];
      SumAppend(a, b[..|b| - 1]);
    }
  }

  /** Changing one element changes the sum by the difference. */
  lemma {:induction false} SumUpdate(s: seq<nat>, i: nat, v: nat)
    requires i < |s|
    ensures Sum(s[i := v]) + s[i] == Sum(s) + v
    decreases |s|
  {
    var n := |s|;
    if i == n - 1 {
      assert s[i := v][..n - 1] == s[..n - 1];
    } else {
      assert s[i := v][..n - 1] == s[..n - 1][i := v];
      SumUpdate(s[..n - 1], i, v);
    }
  }

  /** A list of zeros sums to zero. */
  lemma {:induction false} SumZeros(n: nat)
    ensures Sum(seq(n, _ => 0)) == 0
  {
    if n > 0 {
      assert seq(n, _ => 0)[..n - 1] == seq(n - 1, _ => 0);
      SumZeros(n - 1);
    }
  }

  // ---------------------------------------------------------------------
  // Insertion-ordered dictionaries

  /** A Python dict: its entries in insertion order. */
  type Dict<K, V> = seq<(K, V)>

  function Keys<K, V>(d: seq<(K, V)>): seq<K>
  {
    seq(|d|, i requires 0 <= i < |d| => d[i].0)
  }

  function Values<K, V>(d: seq<(K, V)>): seq<V>
  {
    seq(|d|, i requires 0 <= i < |d| => d[i].1)
  }

  /** No key occurs twice: the shape every Python dict has. */
  predicate DistinctKeys<K(==), V>(d: seq<(K, V)>)
  {
    forall i, j :: 0 <= i < j < |d| ==> d[i].0 != d[j].0
  }

  predicate HasKey<K(==), V>(d: seq<(K, V)>, k: K)
  {
    k in Keys(d)
  }

  /** `d[k]` for a key that is present. */
  function Get<K(==), V>(d: seq<(K, V)>, k: K): V
    requires HasKey(d, k)
  {
    d[IndexOf(Keys(d), k)].1
  }

  /** `d[k] = v`: overwrite in place when `k` is present, else append. */
  function Put<K(==), V>(d: seq<(K, V)>, k: K, v: V): seq<(K, V)>
  {
    var i := IndexOf(Keys(d), k);
    if i < |d| then d[i := (k, v)] else d + [(k, v)]
  }

  /** `d[k] = d[k] + n if k in d else n`: the merge step used throughout. */
  function AddTo<K(==)>(d: seq<(K, nat)>, k: K, n: nat): seq<(K, nat)>
  {
    Put(d, k, if HasKey(d, k) then Get(d, k) + n else n)
  }

  /** The dict built by applying AddTo to the pairs from left to right. */
  function Accumulate<K(==)>(ps: seq<(K, nat)>): seq<(K, nat)>
  {
    if |ps| == 0 then []
    else AddTo(Accumulate(ps[..|ps| - 1]), ps[|ps| - 1].0, ps[|ps| - 1].1)
  }

  /** Sum of all values: `sum(d.values())`. */
  function Total<K>(d: seq<(K, nat)>): nat
  {
    if |d| == 0 then 0 else Total(d[..|d| - 1]) + d[|d| - 1].1
  }

  /** Sum of the values paired with `k`. */
  function SumFor<K(==)>(ps: seq<(K, nat)>, k: K): nat
  {
    if |ps| == 0 then 0
    else SumFor(ps[..|ps| - 1], k) + (if ps[|ps| - 1].0 == k then ps[|ps| - 1].1 else 0)
  }

  lemma KeysPrefix<K, V>(d: seq<(K, V)>, n: nat)
    requires n <= |d|
    ensures Keys(d[..n]) == Keys(d)[..n]
  {
  }

  /** Python's `in` on dict keys, spelled out. */
  lemma HasKeyIff<K, V>(d: seq<(K, V)>, k: K)
    ensures HasKey(d, k) <==> exists i :: 0 <= i < |d| && d[i].0 == k
  {
    if HasKey(d, k) {
      var i := IndexOf(Keys(d), k);
      assert d[i].0 == k;
    }
    if exists i :: 0 <= i < |d| && d[i].0 == k {
      var i :| 0 <= i < |d| && d[i].0 == k;
      assert Keys(d)[i] == k;
    }
  }

  /** In a dict, the entry at position `i` is the one `Get` finds. */
  lemma GetAt<K, V>(d: seq<(K, V)>, i: nat)
    requires DistinctKeys(d) && i < |d|
    ensures HasKey(d, d[i].0) && Get(d, d[i].0) == d[i].1
    ensures IndexOf(Keys(d), d[i].0) == i
  {
    assert Keys(d)[i] == d[i].0;
  }

  /** What `d[k] = v` does: `k` now maps to `v`, every other key is as before,
      and the length grows by one exactly when `k` was new. */
  lemma PutSpec<K, V>(d: seq<(K, V)>, k: K, v: V)
    ensures HasKey(Put(d, k, v), k) && Get(Put(d, k, v), k) == v
    ensures forall k' :: k' != k ==> (HasKey(Put(d, k, v), k') <==> HasKey(d, k'))
    ensures forall k' :: k' != k && HasKey(d, k') ==> Get(Put(d, k, v), k') == Get(d, k')
    ensures |Put(d, k, v)| == if HasKey(d, k) then |d| else |d| + 1
    ensures Keys(Put(d, k, v)) == if HasKey(d, k) then Keys(d) else Keys(d) + [k]
    ensures DistinctKeys(d) ==> DistinctKeys(Put(d, k, v))
  {
    PutKeys(d, k, v);
    PutSame(d, k, v);
    forall k' | k' != k
      ensures HasKey(Put(d, k, v), k') <==> HasKey(d, k')
      ensures HasKey(d, k') ==> Get(Put(d, k, v), k') == Get(d, k')
    {
      PutOther(d, k, v, k');
    }
  }

  /** The keys after `d[k] = v`: unchanged, or `k` appended when new; a
      dict stays a dict. */
  lemma PutKeys<K, V>(d: seq<(K, V)>, k: K, v: V)
    ensures |Put(d, k, v)| == if HasKey(d, k) then |d| else |d| + 1
    ensures Keys(Put(d, k, v)) == if HasKey(d, k) then Keys(d) else Keys(d) + [k]
    ensures DistinctKeys(d) ==> DistinctKeys(Put(d, k, v))
  {
    var i := IndexOf(Keys(d), k);
    var r := Put(d, k, v);
    if i < |d| {
      assert Keys(r) == Keys(d);
    } else {
      assert Keys(r) == Keys(d) + [k];
      if DistinctKeys(d) {
        forall j | 0 <= j < |d| ensures d[j].0 != k {
          assert Keys(d)[j] == d[j].0;
        }
      }
    }
  }

  /** After `d[k] = v`, `d[k]` is `v`. */
  lemma PutSame<K, V>(d: seq<(K, V)>, k: K, v: V)
    ensures HasKey(Put(d, k, v), k) && Get(Put(d, k, v), k) == v
  {
    var i := IndexOf(Keys(d), k);
    var r := Put(d, k, v);
    PutKeys(d, k, v);
    if i >= |d| {
      IndexOfAppend(Keys(d), k, k);
    }
    assert IndexOf(Keys(r), k) == i;
  }

  /** `d[k] = v` leaves every other key where it was. */
  lemma PutOther<K, V>(d: seq<(K, V)>, k: K, v: V, k': K)
    requires k' != k
    ensures HasKey(Put(d, k, v), k') <==> HasKey(d, k')
    ensures HasKey(d, k') ==> Get(Put(d, k, v), k') == Get(d, k')
  {
    var r := Put(d, k, v);
    PutKeys(d, k, v);
    if !HasKey(d, k) {
      IndexOfAppend(Keys(d), k, k');
    }
  }

  /** Entries with the keys of a dict, in its order, form a dict. */
  lemma SameKeys<K, V, W>(a: seq<(K, V)>, b: seq<(K, W)>)
    requires Keys(a) == Keys(b) && DistinctKeys(b)
    ensures DistinctKeys(a) && |a| == |b|
  {
    assert |a| == |Keys(a)|;
    forall i, j | 0 <= i < j < |a| ensures a[i].0 != a[j].0 {
      assert Keys(a)[i] == b[i].0 && Keys(a)[j] == b[j].0;
    }
  }

  /** Appending never moves the first occurrence of an element already present. */
  lemma IndexOfAppend<T>(s: seq<T>, y: T, x: T)
    ensures x in s ==> IndexOf(s + [y], x) == IndexOf(s, x)
    ensures x !in s && x == y ==> IndexOf(s + [y], x) == |s|
  {
    var i := IndexOf(s, x);
    var j := IndexOf(s + [y], x);
    if x in s {
      assert (s + [y])[i] == x;
      assert j <= i;
      assert s[j] == x;
    } else if x == y {
      assert (s + [y])[|s|] == x;
    }
  }

  /** Total after `d[k] = v` for a key already present at position i. */
  lemma {:induction false} TotalReplace<K>(d: seq<(K, nat)>, i: nat, p: (K, nat))
    requires i < |d|
    ensures Total(d[i := p]) + d[i].1 == Total(d) + p.1
    decreases |d|
  {
    var n := |d|;
    if i == n - 1 {
      assert d[i := p][..n - 1] == d[..n - 1];
    } else {
      assert d[i := p][..n - 1] == d[..n - 1][i := p];
      TotalReplace(d[..n - 1], i, p);
    }
  }

  lemma TotalAppend<K>(d: seq<(K, nat)>, p: (K, nat))
    ensures Total(d + [p]) == Total(d) + p.1
  {
    assert (d + [p])[..|d|] == d;
  }

  /** The merge step adds `n` to the total, keeps the keys distinct, and
      adds `n` to the value of `k` only. */
  lemma AddToSpec<K>(d: seq<(K, nat)>, k: K, n: nat)
    ensures Total(AddTo(d, k, n)) == Total(d) + n
    ensures DistinctKeys(d) ==> DistinctKeys(AddTo(d, k, n))
    ensures HasKey(AddTo(d, k, n), k)
    ensures Get(AddTo(d, k, n), k) == (if HasKey(d, k) then Get(d, k) else 0) + n
    ensures forall k' :: k' != k ==> (HasKey(AddTo(d, k, n), k') <==> HasKey(d, k'))
    ensures forall k' :: k' != k && HasKey(d, k') ==> Get(AddTo(d, k, n), k') == Get(d, k')
    ensures Keys(AddTo(d, k, n)) == if HasKey(d, k) then Keys(d) else Keys(d) + [k]
  {
    var v := if HasKey(d, k) then Get(d, k) + n else n;
    AddToPut(d, k, n, v);
    PutKeys(d, k, v);
    PutSame(d, k, v);
    forall k' | k' != k
      ensures HasKey(AddTo(d, k, n), k') <==> HasKey(d, k')
      ensures HasKey(d, k') ==> HasKey(AddTo(d, k, n), k') && Get(AddTo(d, k, n), k') == Get(d, k')
    {
      PutOther(d, k, v, k');
    }
    AddToTotal(d, k, n);
  }

  /** Merging pairs into a dict: keys distinct, exactly the keys of the pairs,
      each value the sum of the values paired with that key, and the same
      grand total. */
  lemma AccumulateSpec<K>(ps: seq<(K, nat)>)
    ensures DistinctKeys(Accumulate(ps))
    ensures forall k :: HasKey(Accumulate(ps), k) <==> k in Keys(ps)
    ensures forall k :: HasKey(Accumulate(ps), k) ==> Get(Accumulate(ps), k) == SumFor(ps, k)
    ensures Total(Accumulate(ps)) == Total(ps)
  {
    AccumulateKeys(ps);
    forall k | HasKey(Accumulate(ps), k)
      ensures Get(Accumulate(ps), k) == SumFor(ps, k)
    {
      AccumulateGet(ps, k);
    }
    AccumulateTotal(ps);
  }

  lemma {:induction false} AccumulateKeys<K>(ps: seq<(K, nat)>)
    ensures DistinctKeys(Accumulate(ps))
    ensures forall k :: HasKey(Accumulate(ps), k) <==> k in Keys(ps)
    decreases |ps|
  {
    if |ps| > 0 {
      var front, last := ps[..|ps| - 1], ps[|ps| - 1];
      assert ps == front + [last];
      AccumulateKeys(front);
      AccumulateKeysNext(front, last);
    }
  }

  lemma AccumulateKeysNext<K>(front: seq<(K, nat)>, last: (K, nat))
    requires DistinctKeys(Accumulate(front))
    requires forall k :: HasKey(Accumulate(front), k) <==> k in Keys(front)
    ensures DistinctKeys(Accumulate(front + [last]))
    ensures forall k :: HasKey(Accumulate(front + [last]), k) <==> k in Keys(front + [last])
  {
    var d := Accumulate(front);
    var v := if HasKey(d, last.0) then Get(d, last.0) + last.1 else last.1;
    AccumulateSnoc(front, last);
    AddToPut(d, last.0, last.1, v);
    PutKeys(d, last.0, v);
    var r := Accumulate(front + [last]);
    assert Keys(r) == if HasKey(d, last.0) then Keys(d) else Keys(d) + [last.0];
    assert Keys(front + [last]) == Keys(front) + [last.0];
    forall k ensures HasKey(r, k) <==> k in Keys(front + [last]) {
      assert k in Keys(front) + [last.0] <==> k in Keys(front) || k == last.0;
      assert k in Keys(d) + [last.0] <==> k in Keys(d) || k == last.0;
    }
  }

  lemma {:induction false} AccumulateGet<K>(ps: seq<(K, nat)>, k: K)
    requires HasKey(Accumulate(ps), k)
    ensures Get(Accumulate(ps), k) == SumFor(ps, k)
    decreases |ps|
  {
    var front, last := ps[..|ps| - 1], ps[|ps| - 1];
    assert ps == front + [last];
    if HasKey(Accumulate(front), k) {
      AccumulateGet(front, k);
    }
    AccumulateGetNext(front, last, k);
  }

  lemma AccumulateGetNext<K>(front: seq<(K, nat)>, last: (K, nat), k: K)
    requires HasKey(Accumulate(front + [last]), k)
    requires HasKey(Accumulate(front), k) ==> Get(Accumulate(front), k) == SumFor(front, k)
    ensures Get(Accumulate(front + [last]), k) == SumFor(front + [last], k)
  {
    var ps := front + [last];
    assert ps[..|ps| - 1] == front;
    var d := Accumulate(front);
    var v := if HasKey(d, last.0) then Get(d, last.0) + last.1 else last.1;
    AccumulateSnoc(front, last);
    assert Accumulate(ps) == Put(d, last.0, v);
    assert SumFor(ps, k) == SumFor(front, k) + (if last.0 == k then last.1 else 0);
    if k == last.0 {
      PutSame(d, k, v);
      if !HasKey(d, k) {
        AccumulateKeys(front);
        SumForAbsent(front, k);
      }
    } else {
      PutOther(d, last.0, v, k);
    }
  }

  lemma {:induction false} AccumulateTotal<K>(ps: seq<(K, nat)>)
    ensures Total(Accumulate(ps)) == Total(ps)
    decreases |ps|
  {
    if |ps| > 0 {
      var n := |ps|;
      var front := ps[..n - 1];
      var last := ps[n - 1];
      AccumulateTotal(front);
      AddToTotal(Accumulate(front), last.0, last.1);
    }
  }

  /** The merge step adds `n` to the total. */
  lemma AddToTotal<K>(d: seq<(K, nat)>, k: K, n: nat)
    ensures Total(AddTo(d, k, n)) == Total(d) + n
  {
    var v := if HasKey(d, k) then Get(d, k) + n else n;
    var i := IndexOf(Keys(d), k);
    if i < |d| {
      TotalReplace(d, i, (k, v));
    } else {
      TotalAppend(d, (k, v));
    }
  }

  lemma {:induction false} SumForAbsent<K>(ps: seq<(K, nat)>, k: K)
    requires k !in Keys(ps)
    ensures SumFor(ps, k) == 0
    decreases |ps|
  {
    if |ps| > 0 {
      KeysPrefix(ps, |ps| - 1);
      assert Keys(ps)[|ps| - 1] == ps[|ps| - 1].0;
      SumForAbsent(ps[..|ps| - 1], k);
    }
  }

  /** A dict merged into a fresh dict is itself: the merge of a collision-free
      transformation changes nothing. */
  lemma {:induction false} AccumulateDistinct<K>(d: seq<(K, nat)>)
    requires DistinctKeys(d)
    ensures Accumulate(d) == d
    decreases |d|
  {
    if |d| > 0 {
      var n := |d|;
      var front := d[..n - 1];
      AccumulateDistinct(front);
      KeysPrefix(d, n - 1);
      HasKeyIff(front, d[n - 1].0);
      assert front + [d[n - 1]] == d;
    }
  }

  /** Writing the merged count by hand is the merge step. */
  lemma AddToPut<K>(d: seq<(K, nat)>, k: K, n: nat, v: nat)
    requires v == n + (if HasKey(d, k) then Get(d, k) else 0)
    ensures Put(d, k, v) == AddTo(d, k, n)
  {
  }

  /** Merging with a zero count for a key already present changes nothing. */
  lemma AddZeroPresent<K>(d: seq<(K, nat)>, k: K)
    requires HasKey(d, k)
    ensures AddTo(d, k, 0) == d
  {
    var i := IndexOf(Keys(d), k);
    assert d[i := (k, d[i].1)] == d;
  }

  /** One more pair is one more merge step. */
  lemma AccumulateSnoc<K>(ps: seq<(K, nat)>, p: (K, nat))
    ensures Accumulate(ps + [p]) == AddTo(Accumulate(ps), p.0, p.1)
  {
    assert (ps + [p])[..|ps|] == ps;
  }

  lemma {:induction false} SumForAppend<K>(a: seq<(K, nat)>, b: seq<(K, nat)>, k: K)
    ensures SumFor(a + b, k) == SumFor(a, k) + SumFor(b, k)
    decreases |b|
  {
    if |b| == 0 {
      assert a + b == a;
    } else {
      assert (a + b)[..|a + b| - 1] == a + b[..|b| - 1];
      SumForAppend(a, b[..|b| - 1], k);
    }
  }

  lemma {:induction false} TotalConcat<K>(a: seq<(K, nat)>, b: seq<(K, nat)>)
    ensures Total(a + b) == Total(a) + Total(b)
    decreases |b|
  {
    if |b| == 0 {
      assert a + b == a;
    } else {
      assert (a + b)[..|a + b| - 1] == a + b[..|b| - 1];
      TotalConcat(a, b[..|b| - 1]);
    }
  }

  lemma KeysConcat<K, V>(a: seq<(K, V)>, b: seq<(K, V)>)
    ensures Keys(a + b) == Keys(a) + Keys(b)
  {
  }

  /** A dict has as many entries as distinct keys. */
  lemma {:induction false} DistinctKeysCard<K, V>(d: seq<(K, V)>)
    requires DistinctKeys(d)
    ensures |set k | k in Keys(d)| == |d|
    decreases |d|
  {
    if |d| > 0 {
      var n := |d|;
      var front := d[..n - 1];
      DistinctKeysCard(front);
      KeysPrefix(d, n - 1);
      assert Keys(d) == Keys(front) + [d[n - 1].0];
      assert (set k | k in Keys(d)) == (set k | k in Keys(front)) + {d[n - 1].0};
      HasKeyIff(front, d[n - 1].0);
    }
  }

  /** Merging one more pair of a list into the dict built from its prefix. */
  lemma AccumulatePrefix<K>(ps: seq<(K, nat)>, j: nat)
    requires j < |ps|
    ensures Accumulate(ps[..j + 1]) == AddTo(Accumulate(ps[..j]), ps[j].0, ps[j].1)
  {
    assert ps[..j + 1][..j] == ps[..j];
  }

  /** The last entry of a dict is its own key: new before it, found at
      the end, and the earlier keys keep their values. */
  lemma LastEntry<K, V>(d: seq<(K, V)>)
    requires DistinctKeys(d) && |d| > 0
    ensures !HasKey(d[..|d| - 1], d[|d| - 1].0)
    ensures HasKey(d, d[|d| - 1].0) && Get(d, d[|d| - 1].0) == d[|d| - 1].1
    ensures forall b :: HasKey(d, b) <==> HasKey(d[..|d| - 1], b) || b == d[|d| - 1].0
    ensures forall b :: HasKey(d[..|d| - 1], b) ==> Get(d, b) == Get(d[..|d| - 1], b)
  {
    var n := |d|;
    var front := d[..n - 1];
    assert forall i :: 0 <= i < n - 1 ==> front[i] == d[i];
    HasKeyIff(front, d[n - 1].0);
    GetAt(d, n - 1);
    forall b ensures HasKey(d, b) <==> HasKey(front, b) || b == d[n - 1].0 {
      HasKeyIff(d, b);
      HasKeyIff(front, b);
    }
    forall b | HasKey(front, b) ensures Get(d, b) == Get(front, b) {
      var i := IndexOf(Keys(front), b);
      GetAt(front, i);
      GetAt(d, i);
    }
  }

  /** `sum(d.values())` is the total of the dict. */
  lemma {:induction false} SumValues<K>(d: seq<(K, nat)>)
    ensures Sum(Values(d)) == Total(d)
    decreases |d|
  {
    if |d| > 0 {
      assert Values(d)[..|d| - 1] == Values(d[..|d| - 1]);
      SumValues(d[..|d| - 1]);
    }
  }
}
