/**
 * The top bar: every player's total over the recorded rounds, the players
 * listed by ascending total (lower is better; the sort is stable, so equal
 * totals keep seat order), and competition ranking, where tied totals share
 * a rank and the next rank skips.
 */
module Standings {
  import opened Wrappers
  import opened Rules

  /** A player's points over the given rounds; a round without the player counts 0. */
  function RoundsTotal(rounds: seq<Round>, p: string): int {
    if rounds == [] then 0
    else RoundsTotal(rounds[..|rounds| - 1], p) + PointsOf(rounds[|rounds| - 1], p)
  }

  /**
   * The total the top bar shows for `p`. Each round is added once for every
   * seat named `p`, so a name taken by two seats is counted twice.
   */
  function Total(players: seq<string>, rounds: seq<Round>, p: string): int {
    CountOf(players, p) * RoundsTotal(rounds, p)
  }

  /** Start every player at 0 and add each round's points, round by round. */
  method ComputeTotals(players: seq<string>, rounds: seq<Round>) returns (totals: map<string, int>)
    ensures totals.Keys == set p | p in players
    ensures forall p :: p in players ==> totals[p] == Total(players, rounds, p)
  {
    totals := map[];
    for i := 0 to |players|
      invariant totals.Keys == set p | p in players[..i]
      invariant forall p :: p in totals ==> totals[p] == 0
    {
      assert players[..i + 1] == players[..i] + [players[i]];
      totals := totals[players[i] := 0];
    }
    assert players[..|players|] == players;
    for r := 0 to |rounds|
      invariant totals.Keys == set p | p in players
      invariant forall p :: p in players ==> totals[p] == Total(players, rounds[..r], p)
    {
      totals := AddRound(players, totals, rounds[r]);
      TotalStep(players, rounds, r);
    }
    assert rounds[..|rounds|] == rounds;
  }

  /** One round of the top bar's sum: every seat adds its player's points. */
  method AddRound(players: seq<string>, totals: map<string, int>, round: Round) returns (next: map<string, int>)
    requires totals.Keys == set p | p in players
    ensures next.Keys == totals.Keys
    ensures forall p :: p in players ==> next[p] == totals[p] + CountOf(players, p) * PointsOf(round, p)
  {
    next := totals;
    for i := 0 to |players|
      invariant next.Keys == totals.Keys
      invariant forall p :: p in players ==> next[p] == totals[p] + SeatsSum(players[..i], p, PointsOf(round, p))
    {
      var p := players[i];
      next := next[p := next[p] + PointsOf(round, p)];
      assert players[..i + 1][..i] == players[..i];
    }
    assert players[..|players|] == players;
    forall p | p in players ensures SeatsSum(players, p, PointsOf(round, p)) == CountOf(players, p) * PointsOf(round, p) {
      SeatsSumCount(players, p, PointsOf(round, p));
    }
  }

  /** `x` added once for every seat named `p`. */
  function SeatsSum(players: seq<string>, p: string, x: int): int {
    if players == [] then 0
    else SeatsSum(players[..|players| - 1], p, x) + (if players[|players| - 1] == p then x else 0)
  }

  lemma {:induction false} SeatsSumCount(players: seq<string>, p: string, x: int)
    ensures SeatsSum(players, p, x) == CountOf(players, p) * x
    decreases |players|
  {
    if players != [] {
      var k := |players| - 1;
      SeatsSumCount(players[..k], p, x);
      assert players == players[..k] + [players[k]];
      CountAppend(players[..k], [players[k]], p);
      var c := CountOf(players[..k], p);
      assert CountOf([players[k]], p) == if players[k] == p then 1 else 0;
      if players[k] == p {
        MulSucc(c, x);
      }
    }
  }

  lemma MulSucc(c: int, x: int)
    ensures (c + 1) * x == c * x + x
  {
  }

  lemma TotalStep(players: seq<string>, rounds: seq<Round>, r: nat)
    requires r < |rounds|
    ensures forall p :: Total(players, rounds[..r + 1], p) == Total(players, rounds[..r], p) + CountOf(players, p) * PointsOf(rounds[r], p)
  {
    assert rounds[..r + 1][..r] == rounds[..r];
    forall p ensures Total(players, rounds[..r + 1], p) == Total(players, rounds[..r], p) + CountOf(players, p) * PointsOf(rounds[r], p) {
      var c, t, x := CountOf(players, p), RoundsTotal(rounds[..r], p), PointsOf(rounds[r], p);
      assert RoundsTotal(rounds[..r + 1], p) == t + x;
      assert c * (t + x) == c * t + c * x;
    }
  }

  // ----- the stable sort -----

  /** Seat `a` is listed before seat `b`: a lower total, or the same total and an earlier seat. */
  predicate Before(keys: seq<int>, a: nat, b: nat)
    requires a < |keys| && b < |keys|
  {
    keys[a] < keys[b] || (keys[a] == keys[b] && a < b)
  }

  /** A list of seats in the order a stable ascending sort lists them. */
  predicate InOrder(keys: seq<int>, t: seq<nat>) {
    (forall k :: 0 <= k < |t| ==> t[k] < |keys|)
    && forall k, l :: 0 <= k < l < |t| ==> Before(keys, t[k], t[l])
  }

  /** Put seat `x`, later than every seat of `t`, after every seat whose total is not above its own. */
  function Insert(keys: seq<int>, t: seq<nat>, x: nat): (r: seq<nat>)
    requires x < |keys| && InOrder(keys, t)
    requires forall k :: 0 <= k < |t| ==> t[k] < x
    ensures |r| == |t| + 1
    ensures forall y :: y in r <==> y in t || y == x
    ensures InOrder(keys, r)
    decreases |t|
  {
    if t == [] || keys[t[|t| - 1]] <= keys[x] then
      assert forall k :: 0 <= k < |t| ==> Before(keys, t[k], x) by {
        forall k | 0 <= k < |t| ensures Before(keys, t[k], x) {
          if k < |t| - 1 { assert Before(keys, t[k], t[|t| - 1]); }
        }
      }
      InOrderSnoc(keys, t, x);
      t + [x]
    else
      var z := t[|t| - 1];
      var init := t[..|t| - 1];
      assert t == init + [z];
      var front := Insert(keys, init, x);
      assert forall k :: 0 <= k < |front| ==> Before(keys, front[k], z) by {
        forall k | 0 <= k < |front| ensures Before(keys, front[k], z) {
          assert front[k] in front;
          if front[k] != x {
            var j :| 0 <= j < |init| && init[j] == front[k];
          }
        }
      }
      InOrderSnoc(keys, front, z);
      front + [z]
  }

  /** A seat listed after every seat of a sorted list keeps it sorted. */
  lemma InOrderSnoc(keys: seq<int>, t: seq<nat>, x: nat)
    requires x < |keys| && InOrder(keys, t)
    requires forall k :: 0 <= k < |t| ==> Before(keys, t[k], x)
    ensures InOrder(keys, t + [x])
  {
    var r := t + [x];
    assert forall k :: 0 <= k < |t| ==> r[k] == t[k];
  }

  /** The seats `0 .. m - 1` in sorted order. */
  function SortSeats(keys: seq<int>, m: nat): (r: seq<nat>)
    requires m <= |keys|
    ensures |r| == m
    ensures forall y :: y in r <==> 0 <= y < m
    ensures InOrder(keys, r)
  {
    if m == 0 then []
    else
      var t := SortSeats(keys, m - 1);
      assert forall k :: 0 <= k < |t| ==> t[k] < m - 1 by {
        forall k | 0 <= k < |t| ensures t[k] < m - 1 {
          assert t[k] in t;
        }
      }
      var r := Insert(keys, t, m - 1);
      assert forall y :: y in r <==> 0 <= y < m by {
        forall y ensures y in r <==> 0 <= y < m {
          assert y in r <==> y in t || y == m - 1;
        }
      }
      r
  }

  /** In sorted order every seat appears exactly once. */
  lemma SortedSeatsDistinct(keys: seq<int>, t: seq<nat>)
    requires InOrder(keys, t)
    ensures forall k, l :: 0 <= k < l < |t| ==> t[k] != t[l]
  {
  }

  // ----- competition ranking -----

  /** How many entries of `s` are strictly below `x`. */
  function CountLess(s: seq<int>, x: int): nat {
    if s == [] then 0 else (if s[0] < x then 1 else 0) + CountLess(s[1..], x)
  }

  predicate Ascending(s: seq<int>) {
    forall i, j :: 0 <= i < j < |s| ==> s[i] <= s[j]
  }

  /**
   * The ranking pass over the sorted totals: an entry equal to the one before
   * takes its rank, any other entry takes its position. On ascending totals
   * that is one more than the number of strictly lower totals.
   */
  method AssignRanks(sorted: seq<int>) returns (ranks: seq<nat>)
    ensures |ranks| == |sorted|
    ensures |sorted| > 0 ==> ranks[0] == 1
    ensures forall i :: 0 < i < |sorted| ==> ranks[i] == (if sorted[i] == sorted[i - 1] then ranks[i - 1] else i + 1)
    ensures Ascending(sorted) ==> forall i :: 0 <= i < |sorted| ==> ranks[i] == 1 + CountLess(sorted, sorted[i])
  {
    var lastScore: Option<int> := None;
    var lastRank: nat := 0;
    ranks := [];
    for i := 0 to |sorted|
      invariant |ranks| == i
      invariant i == 0 ==> lastScore == None
      invariant i > 0 ==> lastScore == Some(sorted[i - 1]) && lastRank == ranks[i - 1]
      invariant i > 0 ==> ranks[0] == 1
      invariant forall k :: 0 < k < i ==> ranks[k] == (if sorted[k] == sorted[k - 1] then ranks[k - 1] else k + 1)
    {
      var score := sorted[i];
      var rank: nat := if lastScore == Some(score) then lastRank else i + 1;
      lastScore := Some(score);
      lastRank := rank;
      ranks := ranks + [rank];
    }
    if Ascending(sorted) {
      RanksCompetition(sorted, ranks, |sorted|);
    }
  }

  /** On ascending totals the pass's ranks are competition ranks. */
  lemma {:induction false} RanksCompetition(s: seq<int>, ranks: seq<nat>, m: nat)
    requires Ascending(s) && |ranks| == |s| && m <= |s|
    requires |s| > 0 ==> ranks[0] == 1
    requires forall i :: 0 < i < |s| ==> ranks[i] == (if s[i] == s[i - 1] then ranks[i - 1] else i + 1)
    ensures forall i :: 0 <= i < m ==> ranks[i] == 1 + CountLess(s, s[i])
  {
    if m > 0 {
      RanksCompetition(s, ranks, m - 1);
      var i := m - 1;
      if i > 0 && s[i] == s[i - 1] {
      } else {
        CountLessSplit(s, i, s[i]);
      }
    }
  }

  /** Entries below `x` up to position `i` and none after: exactly `i` are below `x`. */
  lemma {:induction false} CountLessSplit(s: seq<int>, i: nat, x: int)
    requires i <= |s|
    requires forall j :: 0 <= j < i ==> s[j] < x
    requires forall j :: i <= j < |s| ==> s[j] >= x
    ensures CountLess(s, x) == i
  {
    if s != [] {
      CountLessSplit(s[1..], if i > 0 then i - 1 else 0, x);
    }
  }

  // ----- the top bar -----

  /** One line of the top bar. */
  datatype Standing = Standing(name: string, score: int, rank: nat)

  /** Every seat's total, in seat order. */
  function Totals(players: seq<string>, rounds: seq<Round>): (r: seq<int>)
    ensures |r| == |players|
  {
    seq(|players|, i requires 0 <= i < |players| => Total(players, rounds, players[i]))
  }

  /** The seats in the order the top bar lists them. */
  function Order(players: seq<string>, rounds: seq<Round>): (r: seq<nat>)
    ensures |r| == |players|
    ensures forall y :: y in r <==> 0 <= y < |players|
    ensures InOrder(Totals(players, rounds), r)
  {
    SortSeats(Totals(players, rounds), |players|)
  }

  /** The top bar's lines: name, total and rank, by ascending total. */
  function Standings(players: seq<string>, rounds: seq<Round>): (r: seq<Standing>)
    ensures |r| == |players|
    ensures forall k :: 0 <= k < |r| ==>
      r[k].name == players[Order(players, rounds)[k]] && r[k].score == Totals(players, rounds)[Order(players, rounds)[k]]
  {
    var keys := Totals(players, rounds);
    var order := Order(players, rounds);
    var sorted := SortedTotals(players, rounds);
    seq(|order|, k requires 0 <= k < |order| => Standing(players[order[k]], sorted[k], 1 + CountLess(sorted, sorted[k])))
  }

  /** The totals in the order the top bar lists them. */
  function SortedTotals(players: seq<string>, rounds: seq<Round>): (r: seq<int>)
    ensures |r| == |players|
    ensures Ascending(r)
  {
    var keys := Totals(players, rounds);
    var order := Order(players, rounds);
    seq(|order|, k requires 0 <= k < |order| => keys[order[k]])
  }

  /** Compute and rank the top bar as the page's render step does. */
  method RankStandings(players: seq<string>, rounds: seq<Round>) returns (ranked: seq<Standing>)
    ensures ranked == Standings(players, rounds)
  {
    var totals := ComputeTotals(players, rounds);
    var keys := seq(|players|, i requires 0 <= i < |players| => totals[players[i]]);
    assert keys == Totals(players, rounds);
    var order := SortSeats(keys, |keys|);
    assert order == Order(players, rounds);
    var sorted := seq(|order|, k requires 0 <= k < |order| => keys[order[k]]);
    assert sorted == SortedTotals(players, rounds);
    var ranks := AssignRanks(sorted);
    assert forall k :: 0 <= k < |order| ==> ranks[k] == 1 + CountLess(sorted, sorted[k]);
    ranked := seq(|order|, k requires 0 <= k < |order| => Standing(players[order[k]], sorted[k], ranks[k]));
    var spec := Standings(players, rounds);
    assert forall k :: 0 <= k < |order| ==> ranked[k] == spec[k];
  }

  /** Every player is listed once, with their total. */
  lemma EveryPlayerListed(players: seq<string>, rounds: seq<Round>, i: nat)
    requires i < |players|
    ensures exists k :: (0 <= k < |players| && Order(players, rounds)[k] == i
      && Standings(players, rounds)[k].name == players[i]
      && Standings(players, rounds)[k].score == Total(players, rounds, players[i]))
  {
    var order := Order(players, rounds);
    assert i in order;
  }

  /**
   * The ranks start at 1, never decrease, equal totals share a rank, and a
   * total above the previous one is ranked by its position.
   */
  lemma RanksShape(players: seq<string>, rounds: seq<Round>)
    ensures var r := Standings(players, rounds);
      (|r| > 0 ==> r[0].rank == 1)
      && (forall k :: 0 <= k < |r| ==> 1 <= r[k].rank <= k + 1)
      && (forall k, l :: 0 <= k < l < |r| ==> r[k].rank <= r[l].rank)
      && (forall k, l :: 0 <= k < |r| && 0 <= l < |r| && r[k].score == r[l].score ==> r[k].rank == r[l].rank)
      && (forall k :: 0 < k < |r| && r[k - 1].score < r[k].score ==> r[k].rank == k + 1)
  {
    var r := Standings(players, rounds);
    var s := SortedTotals(players, rounds);
    assert forall k :: 0 <= k < |r| ==> r[k].score == s[k] && r[k].rank == 1 + CountLess(s, s[k]);
    CompetitionShape(s);
  }

  /** The shape of competition ranks over ascending totals. */
  lemma CompetitionShape(s: seq<int>)
    requires Ascending(s)
    ensures |s| > 0 ==> CountLess(s, s[0]) == 0
    ensures forall k :: 0 <= k < |s| ==> CountLess(s, s[k]) <= k
    ensures forall k, l :: 0 <= k < l < |s| ==> CountLess(s, s[k]) <= CountLess(s, s[l])
    ensures forall k :: 0 < k < |s| && s[k - 1] < s[k] ==> CountLess(s, s[k]) == k
  {
    forall k | 0 <= k < |s| ensures CountLess(s, s[k]) <= k {
      CountLessPrefix(s, k);
    }
    forall k, l | 0 <= k < l < |s| ensures CountLess(s, s[k]) <= CountLess(s, s[l]) {
      CountLessMonotone(s, s[k], s[l]);
    }
    forall k | 0 < k < |s| && s[k - 1] < s[k] ensures CountLess(s, s[k]) == k {
      CountLessSplit(s, k, s[k]);
    }
    if |s| > 0 {
      CountLessSplit(s, 0, s[0]);
    }
  }

  /** On ascending totals, at most the `k` entries before position `k` are below it. */
  lemma CountLessPrefix(s: seq<int>, k: nat)
    requires Ascending(s) && k < |s|
    ensures CountLess(s, s[k]) <= k
  {
    var i := FirstAtLeast(s, s[k]);
    CountLessSplit(s, i, s[k]);
  }

  /** The first position holding a value not below `x`, on ascending totals. */
  function FirstAtLeast(s: seq<int>, x: int): (i: nat)
    requires Ascending(s)
    ensures i <= |s|
    ensures forall j :: 0 <= j < i ==> s[j] < x
    ensures forall j :: i <= j < |s| ==> s[j] >= x
  {
    if s == [] || s[0] >= x then 0 else 1 + FirstAtLeast(s[1..], x)
  }

  lemma {:induction false} CountLessMonotone(s: seq<int>, x: int, y: int)
    requires x <= y
    ensures CountLess(s, x) <= CountLess(s, y)
  {
    if s != [] {
      CountLessMonotone(s[1..], x, y);
    }
  }

  /** The player listed first has the lowest total of all and rank 1. */
  lemma WinnerFirst(players: seq<string>, rounds: seq<Round>)
    requires |players| > 0
    ensures var r := Standings(players, rounds);
      r[0].rank == 1 && forall i :: 0 <= i < |players| ==> r[0].score <= Total(players, rounds, players[i])
  {
    RanksShape(players, rounds);
    var order := Order(players, rounds);
    forall i | 0 <= i < |players| ensures Standings(players, rounds)[0].score <= Total(players, rounds, players[i]) {
      EveryPlayerListed(players, rounds, i);
    }
  }

  /** Totals 80, 100, 100, 120 rank 1, 2, 2, 4. */
  lemma RankExample()
    ensures var s := [80, 100, 100, 120];
      [1 + CountLess(s, s[0]), 1 + CountLess(s, s[1]), 1 + CountLess(s, s[2]), 1 + CountLess(s, s[3])] == [1, 2, 2, 4]
  {
  }

  // ----- totals as the rounds change -----

  /** Recording a round adds its points to every total. */
  lemma TotalAfterAppend(rounds: seq<Round>, r: Round, p: string)
    ensures RoundsTotal(rounds + [r], p) == RoundsTotal(rounds, p) + PointsOf(r, p)
  {
    assert (rounds + [r])[..|rounds|] == rounds;
  }

  /** Editing round `e` swaps its points for the new round's in every total. */
  lemma {:induction false} TotalAfterEdit(rounds: seq<Round>, e: nat, r: Round, p: string)
    requires e < |rounds|
    ensures RoundsTotal(rounds[e := r], p) == RoundsTotal(rounds, p) - PointsOf(rounds[e], p) + PointsOf(r, p)
    decreases |rounds|
  {
    var k := |rounds| - 1;
    if e < k {
      assert rounds[e := r][..k] == rounds[..k][e := r];
      TotalAfterEdit(rounds[..k], e, r, p);
    } else {
      assert rounds[e := r][..k] == rounds[..k];
    }
  }
}
