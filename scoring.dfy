/**
 * Turning a submitted form into the round's scores. Each contract gives every
 * seat a number of points. The plain contracts then add a seat's points into
 * the score under its player's name (`scores[p] = (scores[p] || 0) + v`).
 * Domino and Barbu assign it instead (`scores[p] = v`), so the last seat
 * under a name decides.
 */
module Scoring {
  import opened Wrappers
  import opened Rules
  import opened Narrowing
  import opened Validation

  // ----- per-seat points -----

  /** Every entry of `s` multiplied by `k`. */
  function Scale(s: seq<nat>, k: nat): (r: seq<int>)
    ensures |r| == |s|
  {
    seq(|s|, i requires 0 <= i < |s| => s[i] * k)
  }

  lemma {:induction false} SumScale(s: seq<nat>, k: nat)
    ensures Sum(Scale(s, k)) == Sum(s) * k
  {
    if s != [] {
      SumScale(s[1..], k);
      assert Scale(s, k)[1..] == Scale(s[1..], k);
    }
  }

  /** The points of a seat that holds the king of spades or not. */
  function KingPoints(holder: Option<nat>, n: nat): (r: seq<int>)
    ensures |r| == n
  {
    seq(n, i => if holder.Some? && holder.value == i then 80 else 0)
  }

  /** A row of points that is zero everywhere except at `k`. */
  lemma {:induction false} SumSingle(s: seq<int>, k: int, v: int)
    requires forall i :: 0 <= i < |s| ==> s[i] == (if i == k then v else 0)
    ensures Sum(s) == (if 0 <= k < |s| then v else 0)
  {
    if s != [] {
      SumSingle(s[1..], k - 1, v);
    }
  }

  /** Exactly one player takes the 80 points of the king. */
  lemma KingConserves(holder: Option<nat>, n: nat)
    requires IsSeat(holder, n)
    ensures Sum(KingPoints(holder, n)) == (if holder.Some? then 80 else 0)
  {
    SumSingle(KingPoints(holder, n), if holder.Some? then holder.value else -1, 80);
  }

  function LttSeatPoints(o: seq<Ltt>): (r: seq<int>)
    ensures |r| == |o|
  {
    seq(|o|, i requires 0 <= i < |o| => LttPoints(o[i]) as int)
  }

  lemma {:induction false} LttSeatTotal(o: seq<Ltt>)
    ensures Sum(LttSeatPoints(o)) == LttTotal(o)
  {
    if o != [] {
      LttSeatTotal(o[1..]);
      assert LttSeatPoints(o)[1..] == LttSeatPoints(o[1..]);
    }
  }

  /** First out loses 100, second out 50, everyone else pays 5 per card left. */
  function DominoPoints(first: Option<nat>, second: Option<nat>, cards: seq<nat>): (r: seq<int>)
    ensures |r| == |cards|
  {
    seq(|cards|, i requires 0 <= i < |cards| =>
      if first.Some? && first.value == i then -100
      else if second.Some? && second.value == i then -50
      else 5 * (cards[i] as int))
  }

  /** The count a seat holds in a sub-contract, 0 when the form has no select for it. */
  function Read(s: seq<nat>, i: int): nat {
    if 0 <= i < |s| then s[i] else 0
  }

  /** The Barbu points of one seat before halving. */
  function BarbuRaw(hearts: seq<nat>, queens: seq<nat>, tricks: seq<nat>, king: Option<nat>, ltt: seq<Ltt>, i: int): nat {
    Read(hearts, i) * 10 + Read(queens, i) * 30 + Read(tricks, i) * 10
    + (if king.Some? && king.value == i then 80 else 0)
    + (if 0 <= i < |ltt| then LttPoints(ltt[i]) else 0)
  }

  /** Half the raw points, rounded down as `Math.floor(total / 2)` does. */
  function Half(raw: nat): (r: nat)
    ensures 2 * r <= raw < 2 * r + 2
  {
    raw / 2
  }

  function BarbuPoints(n: nat, hearts: seq<nat>, queens: seq<nat>, tricks: seq<nat>, king: Option<nat>, ltt: seq<Ltt>): (r: seq<int>)
    ensures |r| == n
  {
    seq(n, i => Half(BarbuRaw(hearts, queens, tricks, king, ltt, i)) as int)
  }

  /** Each seat's points for the round described by form `s`. */
  function SeatPoints(c: Contract, n: nat, enabled: seq<Contract>, s: Sheet): (r: seq<int>)
    requires Fits(c, n, enabled, s)
    ensures |r| == n
  {
    match s
    case CountSheet(units) => Scale(units, UnitValue(c))
    case KingSheet(holder) => KingPoints(holder, n)
    case LttSheet(outcomes) => LttSeatPoints(outcomes)
    case DominoSheet(first, second, cards) => DominoPoints(first, second, cards)
    case BarbuSheet(hearts, queens, tricks, king, ltt) => BarbuPoints(n, hearts, queens, tricks, king, ltt)
  }

  // ----- what each valid round distributes -----

  /** A valid counting round hands out the whole pool, at 10 or 30 points a unit. */
  lemma CountingConserves(c: Contract, players: seq<string>, units: seq<nat>)
    requires IsCounting(c) && |units| == |players|
    requires Valid(c, players, [], CountSheet(units))
    ensures Sum(SeatPoints(c, |players|, [], CountSheet(units))) == PoolSize(c, |players|).value * UnitValue(c)
  {
    SumScale(units, UnitValue(c));
  }

  /** A valid Last Two Tricks round hands out exactly 120 points. */
  lemma LttConserves(players: seq<string>, o: seq<Ltt>)
    requires |o| == |players| && Valid(LastTwoTricks, players, [], LttSheet(o))
    ensures Sum(SeatPoints(LastTwoTricks, |players|, [], LttSheet(o))) == 120
  {
    LttSeatTotal(o);
    LttCompleteTotal(o);
  }

  /** A valid King of Spades round hands out exactly 80 points. */
  lemma KingRoundConserves(players: seq<string>, holder: Option<nat>)
    requires Fits(KingOfSpades, |players|, [], KingSheet(holder)) && Valid(KingOfSpades, players, [], KingSheet(holder))
    ensures Sum(SeatPoints(KingOfSpades, |players|, [], KingSheet(holder))) == 80
  {
    KingConserves(holder, |players|);
  }

  /**
   * In a valid Domino round the first and second out get -100 and -50, and
   * every other seat pays 5 per card left, between 5 and 50 in all.
   */
  lemma DominoScores(players: seq<string>, first: Option<nat>, second: Option<nat>, cards: seq<nat>)
    requires Fits(Domino, |players|, [], DominoSheet(first, second, cards))
    requires Valid(Domino, players, [], DominoSheet(first, second, cards))
    ensures first.value != second.value
    ensures var r := SeatPoints(Domino, |players|, [], DominoSheet(first, second, cards));
      r[first.value] == -100 && r[second.value] == -50
      && forall j :: 0 <= j < |players| && players[j] != players[first.value] && players[j] != players[second.value] ==> 5 <= r[j] <= 50
    ensures var r := SeatPoints(Domino, |players|, [], DominoSheet(first, second, cards));
      forall j :: 0 <= j < |players| && j != first.value && j != second.value ==> r[j] == 5 * cards[j]
  {
  }

  /** A valid Domino round hands out five points per card the other seats still hold, minus 150. */
  lemma DominoTotal(players: seq<string>, first: Option<nat>, second: Option<nat>, cards: seq<nat>)
    requires Fits(Domino, |players|, [], DominoSheet(first, second, cards))
    requires Valid(Domino, players, [], DominoSheet(first, second, cards))
    ensures Sum(SeatPoints(Domino, |players|, [], DominoSheet(first, second, cards)))
      == 5 * (Sum(cards) - cards[first.value] - cards[second.value]) - 150
  {
    assert first.value != second.value;
    DominoSum(first.value, second.value, cards);
  }

  lemma DominoSum(f: nat, s: nat, cards: seq<nat>)
    requires f < |cards| && s < |cards| && f != s
    ensures Sum(DominoPoints(Some(f), Some(s), cards)) == 5 * (Sum(cards) - cards[f] - cards[s]) - 150
  {
    var r := DominoPoints(Some(f), Some(s), cards);
    var c2 := cards[f := 0][s := 0];
    var rest := Scale(c2, 5);
    forall j | 0 <= j < |r| ensures r[j] == rest[j] + (if j == f then -100 else 0) + (if j == s then -50 else 0) {
      assert c2[j] == if j == f || j == s then 0 else cards[j];
    }
    SumSplit(r, rest, f, s, -100, -50);
    SumScale(c2, 5);
    SumUpdate(cards, f, 0);
    SumUpdate(cards[f := 0], s, 0);
  }

  /** A row that differs from `base` by `a` at `f` and `b` at `s` sums to `base`'s sum plus those of `a` and `b` that fall in the row. */
  lemma {:induction false} SumSplit(r: seq<int>, base: seq<int>, f: int, s: int, a: int, b: int)
    requires |r| == |base| && f != s
    requires forall j :: 0 <= j < |r| ==> r[j] == base[j] + (if j == f then a else 0) + (if j == s then b else 0)
    ensures Sum(r) == Sum(base) + (if 0 <= f < |r| then a else 0) + (if 0 <= s < |r| then b else 0)
  {
    if r != [] {
      assert forall j :: 0 <= j < |r| - 1 ==> r[1..][j] == r[j + 1] && base[1..][j] == base[j + 1];
      SumSplit(r[1..], base[1..], f - 1, s - 1, a, b);
    }
  }

  /** A sub-contract the game does not play contributes nothing to a Barbu score. */
  lemma BarbuGated(players: seq<string>, enabled: seq<Contract>, s: Sheet, i: nat)
    requires Fits(Barbu, |players|, enabled, s) && i < |players|
    ensures BarbuRaw(s.hearts, s.queens, s.tricks, s.king, s.ltt, i) ==
      (if Hearts in enabled then s.hearts[i] * 10 else 0)
      + (if Queens in enabled then s.queens[i] * 30 else 0)
      + (if Tricks in enabled then s.tricks[i] * 10 else 0)
      + (if KingOfSpades in enabled && s.king == Some(i) then 80 else 0)
      + (if LastTwoTricks in enabled then LttPoints(s.ltt[i]) else 0)
  {
  }

  /** A seat's Barbu points are half its raw points, rounded down. */
  lemma BarbuHalves(players: seq<string>, enabled: seq<Contract>, s: Sheet, i: nat)
    requires Fits(Barbu, |players|, enabled, s) && i < |players|
    ensures var raw := BarbuRaw(s.hearts, s.queens, s.tricks, s.king, s.ltt, i);
      var r := SeatPoints(Barbu, |players|, enabled, s)[i];
      2 * r <= raw < 2 * r + 2
  {
  }

  /** The raw Barbu points of all seats together. */
  function RawTotal(n: nat, enabled: seq<Contract>, s: Sheet): int
    requires s.BarbuSheet?
  {
    Sum(seq(n, i => BarbuRaw(s.hearts, s.queens, s.tricks, s.king, s.ltt, i) as int))
  }

  /**
   * A valid Barbu round distributes, before halving, the full points of every
   * sub-contract the game plays and nothing of the others.
   */
  lemma BarbuConserves(players: seq<string>, enabled: seq<Contract>, s: Sheet)
    requires Fits(Barbu, |players|, enabled, s) && Valid(Barbu, players, enabled, s)
    ensures RawTotal(|players|, enabled, s) ==
      (if Hearts in enabled then PoolSize(Hearts, |players|).value * 10 else 0)
      + (if Queens in enabled then 120 else 0)
      + (if Tricks in enabled then PoolSize(Tricks, |players|).value * 10 else 0)
      + (if KingOfSpades in enabled then 80 else 0)
      + (if LastTwoTricks in enabled then 120 else 0)
  {
    var n := |players|;
    var l := LttRow(s.ltt, n);
    RawRows(n, enabled, s);
    SubRowSum(s.hearts, n, 10);
    SubRowSum(s.queens, n, 30);
    SubRowSum(s.tricks, n, 10);
    KingConserves(s.king, n);
    if LastTwoTricks in enabled {
      assert l == LttSeatPoints(s.ltt);
      LttSeatTotal(s.ltt);
      LttCompleteTotal(s.ltt);
    } else {
      SumZero(l);
    }
  }

  /** The Last Two Tricks points per seat, zero where the form has no select. */
  function LttRow(o: seq<Ltt>, n: nat): (r: seq<int>)
    ensures |r| == n
  {
    seq(n, i => if 0 <= i < |o| then LttPoints(o[i]) as int else 0)
  }

  /** The raw Barbu total is the sum of the sub-contracts' rows. */
  lemma RawRows(n: nat, enabled: seq<Contract>, s: Sheet)
    requires s.BarbuSheet?
    ensures RawTotal(n, enabled, s) == Sum(SubRow(s.hearts, n, 10)) + Sum(SubRow(s.queens, n, 30))
      + Sum(SubRow(s.tricks, n, 10)) + Sum(KingPoints(s.king, n)) + Sum(LttRow(s.ltt, n))
  {
    var h := SubRow(s.hearts, n, 10);
    var q := SubRow(s.queens, n, 30);
    var t := SubRow(s.tricks, n, 10);
    var k := KingPoints(s.king, n);
    var l := LttRow(s.ltt, n);
    var raw := seq(n, i => BarbuRaw(s.hearts, s.queens, s.tricks, s.king, s.ltt, i) as int);
    assert raw == Plus(Plus(Plus(Plus(h, q), t), k), l);
    SumPlus(Plus(Plus(Plus(h, q), t), k), l);
    SumPlus(Plus(Plus(h, q), t), k);
    SumPlus(Plus(h, q), t);
    SumPlus(h, q);
  }

  /** A sub-contract's points per seat, zero where the form has no select. */
  function SubRow(s: seq<nat>, n: nat, k: nat): (r: seq<int>)
    ensures |r| == n
  {
    seq(n, i => Read(s, i) * k)
  }

  lemma SubRowSum(s: seq<nat>, n: nat, k: nat)
    requires |s| == n || |s| == 0
    ensures Sum(SubRow(s, n, k)) == (if |s| == n then Sum(s) * k else 0)
  {
    if |s| == n {
      assert SubRow(s, n, k) == Scale(s, k);
      SumScale(s, k);
    } else {
      SumZero(SubRow(s, n, k));
    }
  }

  function Plus(a: seq<int>, b: seq<int>): (r: seq<int>)
    requires |a| == |b|
    ensures |r| == |a|
  {
    seq(|a|, i requires 0 <= i < |a| => a[i] + b[i])
  }

  lemma {:induction false} SumPlus(a: seq<int>, b: seq<int>)
    requires |a| == |b|
    ensures Sum(Plus(a, b)) == Sum(a) + Sum(b)
  {
    if a != [] {
      SumPlus(a[1..], b[1..]);
      assert Plus(a, b)[1..] == Plus(a[1..], b[1..]);
    }
  }

  lemma {:induction false} SumZero(s: seq<int>)
    requires forall i :: 0 <= i < |s| ==> s[i] == 0
    ensures Sum(s) == 0
  {
    if s != [] {
      SumZero(s[1..]);
    }
  }

  // ----- from seat points to the round's score map -----

  /** The points of every seat named `p`, added up. */
  function SumFor(players: seq<string>, points: seq<int>, p: string): int
    requires |points| == |players|
  {
    if players == [] then 0
    else
      var k := |players| - 1;
      SumFor(players[..k], points[..k], p) + (if players[k] == p then points[k] else 0)
  }

  /** The score map the plain contracts build by adding into each name. */
  function Tally(players: seq<string>, points: seq<int>): map<string, int>
    requires |points| == |players|
  {
    map p | p in players :: SumFor(players, points, p)
  }

  /** The last seat named `p`. */
  function LastSeat(players: seq<string>, p: string): (r: nat)
    requires p in players
    ensures r < |players| && players[r] == p
    ensures forall j :: r < j < |players| ==> players[j] != p
  {
    var k := |players| - 1;
    if players[k] == p then k
    else
      assert p in players[..k] by {
        var j :| 0 <= j < |players| && players[j] == p;
        assert players[..k][j] == p;
      }
      LastSeat(players[..k], p)
  }

  /** The score map Domino and Barbu build by assigning each name. */
  function LastWins(players: seq<string>, points: seq<int>): map<string, int>
    requires |points| == |players|
  {
    map p | p in players :: points[LastSeat(players, p)]
  }

  /** The plain contracts' loop: add each seat's points into its player's score. */
  method Accumulate(players: seq<string>, points: seq<int>) returns (scores: map<string, int>)
    requires |points| == |players|
    ensures scores == Tally(players, points)
  {
    scores := map[];
    for i := 0 to |players|
      invariant scores == Tally(players[..i], points[..i])
    {
      var p, v := players[i], points[i];
      scores := scores[p := (if p in scores then scores[p] else 0) + v];
      TallyStep(players, points, i);
    }
    assert players[..|players|] == players && points[..|points|] == points;
  }

  lemma TallyStep(players: seq<string>, points: seq<int>, i: nat)
    requires |points| == |players| && i < |players|
    ensures var m := Tally(players[..i], points[..i]);
      var p := players[i];
      Tally(players[..i + 1], points[..i + 1]) == m[p := (if p in m then m[p] else 0) + points[i]]
  {
    var pl, pt := players[..i + 1], points[..i + 1];
    assert pl[..i] == players[..i] && pt[..i] == points[..i];
    forall q ensures q in pl <==> q in players[..i] || q == players[i] {
      assert pl == players[..i] + [players[i]];
    }
    forall q | q in players[..i] && q != players[i]
      ensures SumFor(pl, pt, q) == SumFor(players[..i], points[..i], q)
    {
    }
    if players[i] !in players[..i] {
      SumForAbsent(players[..i], points[..i], players[i]);
    }
  }

  lemma {:induction false} SumForAbsent(players: seq<string>, points: seq<int>, p: string)
    requires |points| == |players| && p !in players
    ensures SumFor(players, points, p) == 0
  {
    if players != [] {
      var k := |players| - 1;
      assert p !in players[..k];
      SumForAbsent(players[..k], points[..k], p);
    }
  }

  /** Domino's and Barbu's loop: set each player's score to their seat's points. */
  method Assign(players: seq<string>, points: seq<int>) returns (scores: map<string, int>)
    requires |points| == |players|
    ensures scores == LastWins(players, points)
  {
    scores := map[];
    for i := 0 to |players|
      invariant scores == LastWins(players[..i], points[..i])
    {
      scores := scores[players[i] := points[i]];
      LastWinsStep(players, points, i);
    }
    assert players[..|players|] == players && points[..|points|] == points;
  }

  lemma LastWinsStep(players: seq<string>, points: seq<int>, i: nat)
    requires |points| == |players| && i < |players|
    ensures LastWins(players[..i + 1], points[..i + 1]) == LastWins(players[..i], points[..i])[players[i] := points[i]]
  {
    var pl, pt := players[..i + 1], points[..i + 1];
    assert pl[..i] == players[..i] && pt[..i] == points[..i];
    forall q ensures q in pl <==> q in players[..i] || q == players[i] {
      assert pl == players[..i] + [players[i]];
    }
  }

  /** With all names different, a player's score is exactly their seat's points. */
  lemma {:induction false} SumForDistinct(players: seq<string>, points: seq<int>, i: nat)
    requires |points| == |players| && i < |players|
    requires forall a, b :: 0 <= a < b < |players| ==> players[a] != players[b]
    ensures SumFor(players, points, players[i]) == points[i]
    decreases |players|
  {
    var k := |players| - 1;
    if i < k {
      SumForDistinct(players[..k], points[..k], i);
    } else {
      assert players[i] !in players[..k];
      SumForAbsent(players[..k], points[..k], players[i]);
    }
  }

  /**
   * With all names different, adding in and assigning give the same map, and
   * each player's score is their seat's points.
   */
  lemma DistinctScores(players: seq<string>, points: seq<int>)
    requires |points| == |players|
    requires forall a, b :: 0 <= a < b < |players| ==> players[a] != players[b]
    ensures Tally(players, points) == LastWins(players, points)
    ensures forall i :: 0 <= i < |players| ==> players[i] in Tally(players, points) && Tally(players, points)[players[i]] == points[i]
  {
    forall i | 0 <= i < |players| ensures SumFor(players, points, players[i]) == points[i] && LastSeat(players, players[i]) == i {
      SumForDistinct(players, points, i);
    }
  }

  /** The score map of the round described by form `s`. */
  function RoundScores(c: Contract, players: seq<string>, enabled: seq<Contract>, s: Sheet): map<string, int>
    requires Fits(c, |players|, enabled, s)
  {
    var points := SeatPoints(c, |players|, enabled, s);
    if c == Domino || c == Barbu then LastWins(players, points) else Tally(players, points)
  }

  /** The scoring half of Submit: each seat's points, written into the map by the contract's loop. */
  method ScoreRound(c: Contract, players: seq<string>, enabled: seq<Contract>, s: Sheet) returns (scores: map<string, int>)
    requires Fits(c, |players|, enabled, s)
    ensures scores == RoundScores(c, players, enabled, s)
    ensures scores.Keys == set p | p in players
  {
    var points := SeatPoints(c, |players|, enabled, s);
    if c == Domino || c == Barbu {
      scores := Assign(players, points);
    } else {
      scores := Accumulate(players, points);
    }
  }

  /** With all names different, the round records each seat's points under its player. */
  lemma RoundRecordsSeats(c: Contract, players: seq<string>, enabled: seq<Contract>, s: Sheet, i: nat)
    requires Fits(c, |players|, enabled, s) && i < |players|
    requires forall a, b :: 0 <= a < b < |players| ==> players[a] != players[b]
    ensures players[i] in RoundScores(c, players, enabled, s)
    ensures RoundScores(c, players, enabled, s)[players[i]] == SeatPoints(c, |players|, enabled, s)[i]
  {
    var points := SeatPoints(c, |players|, enabled, s);
    DistinctScores(players, points);
    assert RoundScores(c, players, enabled, s) == Tally(players, points);
  }
}
