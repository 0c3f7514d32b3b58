/**
 * The contract rule table of the Barbu scorekeeper: the seven contracts, the
 * pool of units each counting contract distributes, the points a unit is
 * worth, the four outcomes of Last Two Tricks, and the round record that the
 * session stores. Also the small sequence arithmetic (sums and counts) that
 * every other module uses.
 */
module Rules {
  import opened Wrappers

  /** The seven contracts, in the order the setup screen lists them. */
  datatype Contract = Hearts | Queens | KingOfSpades | Tricks | LastTwoTricks | Domino | Barbu

  const AllContracts: seq<Contract> := [Hearts, Queens, KingOfSpades, Tricks, LastTwoTricks, Domino, Barbu]

  /** A contract scored by counting units (hearts, queens or tricks) per player. */
  predicate IsCounting(c: Contract) {
    c == Hearts || c == Queens || c == Tricks
  }

  /**
   * The number of units a counting contract distributes among `n` players.
   * Tricks has no pool outside 3..6 players: the source looks the count up in
   * a table with only those four keys.
   */
  function PoolSize(c: Contract, n: int): (r: Option<nat>)
    ensures r.Some? <==> c == Hearts || c == Queens || (c == Tricks && 3 <= n <= 6)
    ensures c == Hearts ==> r.value == 12 || r.value == 13
    ensures c == Tricks && r.Some? ==> 48 <= n * r.value <= 52
  {
    match c
    case Hearts => Some(if n == 4 || n == 5 then 13 else 12)
    case Queens => Some(4)
    case Tricks =>
      if n == 3 then Some(16)
      else if n == 4 then Some(13)
      else if n == 5 then Some(10)
      else if n == 6 then Some(8)
      else None
    case _ => None
  }

  /** Points per unit of a counting contract. */
  function UnitValue(c: Contract): (r: nat)
    requires IsCounting(c)
    ensures r == 10 || r == 30
    ensures r == 30 <==> c == Queens
  {
    match c
    case Queens => 30
    case _ => 10
  }

  /** What a player can take in Last Two Tricks. */
  datatype Ltt = Neither | PreLast | Last | Both

  /** Points of a Last Two Tricks outcome. */
  function LttPoints(o: Ltt): (r: nat)
    ensures r % 40 == 0 && r <= 120
    ensures r == 0 <==> o == Neither
  {
    match o
    case Neither => 0
    case PreLast => 40
    case Last => 80
    case Both => 120
  }

  /** Taking both last tricks is worth exactly taking each of them. */
  lemma LttPointsInjective(a: Ltt, b: Ltt)
    ensures LttPoints(a) == LttPoints(b) <==> a == b
    ensures LttPoints(Both) == LttPoints(PreLast) + LttPoints(Last)
  {
  }

  /** One recorded round: who dealt, which contract, and each player's points. */
  datatype Round = Round(dealer: string, contract: Contract, scores: map<string, int>)

  /** A player's points in a round; a missing key reads as 0 (`r.scores[p] || 0`). */
  function PointsOf(r: Round, p: string): int {
    if p in r.scores then r.scores[p] else 0
  }

  // ----- sequence arithmetic -----

  function Sum(s: seq<int>): int {
    if s == [] then 0 else s[0] + Sum(s[1..])
  }

  function CountOf<T(==)>(s: seq<T>, x: T): nat {
    if s == [] then 0 else (if s[0] == x then 1 else 0) + CountOf(s[1..], x)
  }

  /** Every element but the one at position `i`. */
  function Others<T>(s: seq<T>, i: nat): (r: seq<T>)
    requires i < |s|
    ensures |r| == |s| - 1
  {
    s[..i] + s[i+1..]
  }

  /** The elements of `s` at every position other than `i` are `Others(s, i)`'s. */
  lemma InOthers<T>(s: seq<T>, i: nat, x: T)
    requires i < |s|
    ensures x in Others(s, i) <==> exists j :: 0 <= j < |s| && j != i && s[j] == x
  {
    var o := Others(s, i);
    if x in o {
      var k :| 0 <= k < |o| && o[k] == x;
      if k < i { assert s[k] == x; } else { assert s[k + 1] == x; }
    }
    if j :| 0 <= j < |s| && j != i && s[j] == x {
      if j < i { assert o[j] == x; } else { assert o[j - 1] == x; }
    }
  }

  lemma {:induction false} SumAppend(a: seq<int>, b: seq<int>)
    ensures Sum(a + b) == Sum(a) + Sum(b)
  {
    if a != [] {
      assert (a + b)[1..] == a[1..] + b;
      SumAppend(a[1..], b);
    } else {
      assert a + b == b;
    }
  }

  lemma {:induction false} CountAppend<T>(a: seq<T>, b: seq<T>, x: T)
    ensures CountOf(a + b, x) == CountOf(a, x) + CountOf(b, x)
  {
    if a != [] {
      assert (a + b)[1..] == a[1..] + b;
      CountAppend(a[1..], b, x);
    } else {
      assert a + b == b;
    }
  }

  /** The sum splits into one element and all the others. */
  lemma {:induction false} SumOthers(s: seq<int>, i: nat)
    requires i < |s|
    ensures Sum(s) == Sum(Others(s, i)) + s[i]
  {
    if i == 0 {
      assert Others(s, 0) == s[1..];
    } else {
      SumOthers(s[1..], i - 1);
      var o := Others(s, i);
      assert o[0] == s[0] && o[1..] == Others(s[1..], i - 1);
    }
  }

  lemma CountOthers<T>(s: seq<T>, i: nat, x: T)
    requires i < |s|
    ensures CountOf(s, x) == CountOf(Others(s, i), x) + (if s[i] == x then 1 else 0)
  {
    assert s == s[..i] + ([s[i]] + s[i+1..]);
    CountAppend(s[..i], [s[i]] + s[i+1..], x);
    CountAppend([s[i]], s[i+1..], x);
    CountAppend(s[..i], s[i+1..], x);
  }

  /** Replacing one element leaves the others alone. */
  lemma OthersUpdate<T>(s: seq<T>, i: nat, x: T)
    requires i < |s|
    ensures Others(s[i := x], i) == Others(s, i)
  {
    assert s[i := x][..i] == s[..i];
    assert s[i := x][i+1..] == s[i+1..];
  }

  lemma SumUpdate(s: seq<int>, i: nat, x: int)
    requires i < |s|
    ensures Sum(s[i := x]) == Sum(s) - s[i] + x
  {
    SumOthers(s, i);
    SumOthers(s[i := x], i);
    OthersUpdate(s, i, x);
  }

  lemma CountUpdate<T>(s: seq<T>, i: nat, x: T, y: T)
    requires i < |s|
    ensures CountOf(s[i := x], y) == CountOf(s, y) - (if s[i] == y then 1 else 0) + (if x == y then 1 else 0)
  {
    CountOthers(s, i, y);
    CountOthers(s[i := x], i, y);
    OthersUpdate(s, i, x);
  }

  /** An element is present exactly when it is counted at least once. */
  lemma {:induction false} CountPositive<T>(s: seq<T>, x: T)
    ensures CountOf(s, x) > 0 <==> x in s
  {
    if s != [] {
      CountPositive(s[1..], x);
      assert x in s <==> s[0] == x || x in s[1..];
    }
  }

  /** Two distinct positions holding `x` make it counted at least twice. */
  lemma CountTwo<T>(s: seq<T>, i: nat, j: nat, x: T)
    requires i < |s| && j < |s| && i != j && s[i] == x && s[j] == x
    ensures CountOf(s, x) >= 2
  {
    CountOthers(s, i, x);
    InOthers(s, i, x);
    CountPositive(Others(s, i), x);
  }
}
