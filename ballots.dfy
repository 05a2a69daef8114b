/**
 * Ranked ballots and the per-ballot steps of Maine's cleaning rules, shared
 * by both tabulators (the list-of-ballots one and the ballot-to-count one
 * carry identical copies of this code).  A ballot is a sequence of choice
 * tokens: candidate names or the reserved markers "undervote" and
 * "overvote".
 */
module Ballots {
  import opened Collections

  type Token = string
  type Ballot = seq<Token>

  const Undervote: Token := "undervote"
  const Overvote: Token := "overvote"

  /** Position of the first pair of adjacent undervotes, or |b| if none. */
  function FirstDoubleUndervote(b: Ballot): (i: nat)
    ensures i <= |b|
    ensures i < |b| ==> i + 1 < |b| && b[i] == Undervote && b[i + 1] == Undervote
    ensures forall j :: 0 <= j < i && j + 1 < |b| ==> !(b[j] == Undervote && b[j + 1] == Undervote)
  {
    if |b| < 2 then |b|
    else if b[0] == Undervote && b[1] == Undervote then 0
    else 1 + FirstDoubleUndervote(b[1..])
  }

  /** A ballot truncated before its first double undervote. */
  function BeforeDoubleUndervote(b: Ballot): Ballot
  {
    b[..FirstDoubleUndervote(b)]
  }

  /** The ballot with every occurrence of `name` removed. */
  function Without(b: Ballot, name: Token): Ballot
  {
    if |b| == 0 then []
    else Without(b[..|b| - 1], name) + (if b[|b| - 1] == name then [] else [b[|b| - 1]])
  }

  /** What delete_name does to one ballot: unchanged when `name` does not
      occur; otherwise cut just before the first `name` (deleteFollowing), or
      with every `name` removed and the rest kept in order. */
  function Stripped(b: Ballot, name: Token, deleteFollowing: bool): Ballot
  {
    if name !in b then b
    else if deleteFollowing then b[..IndexOf(b, name)]
    else Without(b, name)
  }

  /** One ballot as clean() leaves it: overvote truncation, then double
      undervote truncation, then removal of the remaining undervotes. */
  function CleanBallot(b: Ballot): Ballot
  {
    Stripped(BeforeDoubleUndervote(Stripped(b, Overvote, true)), Undervote, false)
  }

  /** tie_breaker_index: the position of `name` in the tie-break list, or the
      list's length when `name` is not listed (least favoured). */
  function TieBreakerIndex(tieBreaker: seq<Token>, name: Token): (r: nat)
    ensures r <= |tieBreaker|
    ensures r == |tieBreaker| <==> name !in tieBreaker
    ensures r < |tieBreaker| ==> tieBreaker[r] == name && name !in tieBreaker[..r]
  {
    if name in tieBreaker then IndexOf(tieBreaker, name) else |tieBreaker|
  }

  /** Every token that appears on some ballot of `L`. */
  function Tokens(L: seq<Ballot>): set<Token>
  {
    if |L| == 0 then {}
    else var last := L[|L| - 1]; Tokens(L[..|L| - 1]) + (set t | t in last)
  }

  // ---------------------------------------------------------------------
  // The two inner loops of the cleaning code

  /** The scan for `double_uv_at` in delete_double_undervotes. */
  method FindDoubleUndervote(ballot: Ballot) returns (doubleUvAt: nat)
    ensures doubleUvAt == FirstDoubleUndervote(ballot)
  {
    doubleUvAt := |ballot|;
    var i := 0;
    while i < |ballot| - 1
      invariant 0 <= i <= if |ballot| == 0 then 0 else |ballot| - 1
      invariant doubleUvAt <= |ballot|
      invariant doubleUvAt == |ballot| ==> FirstDoubleUndervote(ballot) >= i
      invariant doubleUvAt < |ballot| ==> doubleUvAt == FirstDoubleUndervote(ballot)
    {
      if ballot[i] == Undervote && ballot[i + 1] == Undervote && doubleUvAt == |ballot| {
        doubleUvAt := i;
      }
      i := i + 1;
    }
  }

  /** The per-ballot body of delete_name. */
  method StripName(ballot: Ballot, name: Token, deleteFollowing: bool) returns (newBallot: Ballot)
    ensures newBallot == Stripped(ballot, name, deleteFollowing)
  {
    if name in ballot {
      newBallot := [];
      var j := 0;
      while j < |ballot|
        invariant 0 <= j <= |ballot|
        invariant deleteFollowing ==> newBallot == ballot[..j] && name !in ballot[..j]
        invariant !deleteFollowing ==> newBallot == Without(ballot[..j], name)
      {
        var c := ballot[j];
        if c != name {
          newBallot := newBallot + [c];
        } else if deleteFollowing {
          break;
        }
        assert ballot[..j + 1][..j] == ballot[..j];
        j := j + 1;
      }
      if deleteFollowing {
        assert IndexOf(ballot, name) == j;
      } else {
        assert ballot[..j] == ballot;
      }
    } else {
      newBallot := ballot;
    }
  }

  // ---------------------------------------------------------------------
  // Properties of the per-ballot steps

  /** Removing a token removes all of it and nothing else: no `name` is left,
      the count of every other token is unchanged, and a ballot without
      `name` is returned as it was. */
  lemma WithoutSpec(b: Ballot, name: Token)
    ensures name !in Without(b, name)
    ensures multiset(Without(b, name)) == multiset(b)[name := 0]
    ensures |Without(b, name)| <= |b|
    ensures name !in b ==> Without(b, name) == b
  {
    WithoutCount(b, name);
    WithoutShort(b, name);
    assert multiset(Without(b, name))[name] == 0;
  }

  lemma {:induction false} WithoutCount(b: Ballot, name: Token)
    ensures multiset(Without(b, name)) == multiset(b)[name := 0]
    decreases |b|
  {
    if |b| > 0 {
      var front, last := b[..|b| - 1], b[|b| - 1];
      assert b == front + [last];
      WithoutCount(front, name);
      assert multiset(b) == multiset(front) + multiset{last};
    }
  }

  lemma {:induction false} WithoutShort(b: Ballot, name: Token)
    ensures |Without(b, name)| <= |b|
    ensures name !in b ==> Without(b, name) == b
    decreases |b|
  {
    if |b| > 0 {
      var front, last := b[..|b| - 1], b[|b| - 1];
      assert b == front + [last];
      WithoutShort(front, name);
    }
  }

  /** Removing a token keeps the order of what remains: it commutes with
      concatenation. */
  lemma {:induction false} WithoutAppend(a: Ballot, b: Ballot, name: Token)
    ensures Without(a + b, name) == Without(a, name) + Without(b, name)
    decreases |b|
  {
    if |b| == 0 {
      assert a + b == a;
    } else {
      assert (a + b)[..|a + b| - 1] == a + b[..|b| - 1];
      WithoutAppend(a, b[..|b| - 1], name);
    }
  }

  /** delete_name on one ballot: no `name` remains, nothing new appears, the
      ballot never grows, truncation yields a prefix cut exactly at the first
      `name`, and plain removal keeps every other token. */
  lemma StrippedSpec(b: Ballot, name: Token, deleteFollowing: bool)
    ensures name !in Stripped(b, name, deleteFollowing)
    ensures |Stripped(b, name, deleteFollowing)| <= |b|
    ensures name !in b ==> Stripped(b, name, deleteFollowing) == b
    ensures forall t :: t in Stripped(b, name, deleteFollowing) ==> t in b
    ensures deleteFollowing ==> Stripped(b, name, true) == b[..|Stripped(b, name, true)|]
    ensures deleteFollowing && name in b ==> b[|Stripped(b, name, true)|] == name
    ensures !deleteFollowing ==> forall t :: t in b && t != name ==> t in Stripped(b, name, false)
  {
    WithoutSpec(b, name);
    var r := Stripped(b, name, deleteFollowing);
    forall t | t in r ensures t in b {
      if name in b && !deleteFollowing {
        assert t in multiset(r);
      }
    }
    if !deleteFollowing {
      forall t | t in b && t != name ensures t in Stripped(b, name, false) {
        assert t in multiset(b);
        assert multiset(b)[name := 0][t] == multiset(b)[t];
        assert t in multiset(Without(b, name));
      }
    }
  }

  /** delete_name is idempotent on a ballot. */
  lemma StrippedTwice(b: Ballot, name: Token, deleteFollowing: bool)
    ensures Stripped(Stripped(b, name, deleteFollowing), name, deleteFollowing) == Stripped(b, name, deleteFollowing)
  {
    StrippedSpec(b, name, deleteFollowing);
  }

  /** Truncation at a double undervote yields a prefix with no double
      undervote left in it. */
  lemma BeforeDoubleUndervoteSpec(b: Ballot)
    ensures BeforeDoubleUndervote(b) == b[..|BeforeDoubleUndervote(b)|]
    ensures FirstDoubleUndervote(BeforeDoubleUndervote(b)) == |BeforeDoubleUndervote(b)|
    ensures forall t :: t in BeforeDoubleUndervote(b) ==> t in b
  {
  }

  /** A cleaned ballot holds no overvote and no undervote, is no longer than
      the original, holds only tokens of the original, and cleaning it again
      changes nothing. */
  lemma CleanBallotSpec(b: Ballot)
    ensures Overvote !in CleanBallot(b) && Undervote !in CleanBallot(b)
    ensures |CleanBallot(b)| <= |b|
    ensures forall t :: t in CleanBallot(b) ==> t in b
    ensures CleanBallot(CleanBallot(b)) == CleanBallot(b)
  {
    var b1 := Stripped(b, Overvote, true);
    var b2 := BeforeDoubleUndervote(b1);
    var c := CleanBallot(b);
    StrippedSpec(b, Overvote, true);
    BeforeDoubleUndervoteSpec(b1);
    StrippedSpec(b2, Undervote, false);
    CleanFixesSentinelFree(c);
  }

  /** A ballot without markers is its own cleaned form. */
  lemma CleanFixesSentinelFree(b: Ballot)
    requires Overvote !in b && Undervote !in b
    ensures CleanBallot(b) == b
  {
    assert BeforeDoubleUndervote(b) == b;
  }

  /** Membership in Tokens, spelled out. */
  lemma {:induction false} TokensIff(L: seq<Ballot>, t: Token)
    ensures t in Tokens(L) <==> exists i :: 0 <= i < |L| && t in L[i]
    decreases |L|
  {
    if |L| > 0 {
      TokensIff(L[..|L| - 1], t);
      if t in Tokens(L[..|L| - 1]) {
        var i :| 0 <= i < |L| - 1 && t in L[..|L| - 1][i];
        assert t in L[i];
      }
      if exists i :: 0 <= i < |L| && t in L[i] {
        var i :| 0 <= i < |L| && t in L[i];
        if i < |L| - 1 {
          assert L[..|L| - 1][i] == L[i];
        }
      }
    }
  }

  /** Tokens after deleting a name from every ballot of a list: `name` is
      gone, nothing new appears, and plain removal keeps every other token. */
  lemma StrippedTokens(L: seq<Ballot>, LL: seq<Ballot>, name: Token, deleteFollowing: bool)
    requires |LL| == |L|
    requires forall i :: 0 <= i < |L| ==> LL[i] == Stripped(L[i], name, deleteFollowing)
    ensures Tokens(LL) <= Tokens(L) - {name}
    ensures !deleteFollowing ==> Tokens(LL) == Tokens(L) - {name}
  {
    forall t | t in Tokens(LL) ensures t in Tokens(L) && t != name {
      TokensIff(LL, t);
      TokensIff(L, t);
      var i :| 0 <= i < |LL| && t in LL[i];
      StrippedSpec(L[i], name, deleteFollowing);
    }
    if !deleteFollowing {
      forall t | t in Tokens(L) && t != name ensures t in Tokens(LL) {
        TokensIff(LL, t);
        TokensIff(L, t);
        var i :| 0 <= i < |L| && t in L[i];
        StrippedSpec(L[i], name, deleteFollowing);
        assert t in LL[i];
      }
    }
  }

  /** Removing a name other than the first choice keeps the first choice. */
  lemma {:induction false} WithoutKeepsFirst(b: Ballot, name: Token)
    requires |b| > 0 && b[0] != name
    ensures |Without(b, name)| > 0 && Without(b, name)[0] == b[0]
    decreases |b|
  {
    if |b| > 1 {
      WithoutKeepsFirst(b[..|b| - 1], name);
    }
  }

  // ---------------------------------------------------------------------
  // Python's ordering of strings (code point by code point)

  predicate StrLess(a: string, b: string)
  {
    if |a| == 0 then |b| > 0
    else if |b| == 0 then false
    else if a[0] != b[0] then a[0] < b[0]
    else StrLess(a[1..], b[1..])
  }

  /** String order is a strict total order: irreflexive, transitive and
      total on distinct strings. */
  lemma {:induction false} StrLessIrreflexive(a: string)
    ensures !StrLess(a, a)
    decreases |a|
  {
    if |a| > 0 {
      StrLessIrreflexive(a[1..]);
    }
  }

  lemma {:induction false} StrLessTransitive(a: string, b: string, c: string)
    requires StrLess(a, b) && StrLess(b, c)
    ensures StrLess(a, c)
    decreases |a|
  {
    if |a| > 0 && |b| > 0 && |c| > 0 && a[0] == b[0] && b[0] == c[0] {
      StrLessTransitive(a[1..], b[1..], c[1..]);
    }
  }

  lemma {:induction false} StrLessTotal(a: string, b: string)
    requires a != b
    ensures StrLess(a, b) || StrLess(b, a)
    decreases |a|
  {
    if |a| > 0 && |b| > 0 && a[0] == b[0] {
      assert a == [a[0]] + a[1..] && b == [b[0]] + b[1..];
      StrLessTotal(a[1..], b[1..]);
    }
  }
}
