/**
 * The badge shown beside a round's dealer in the round table: a star for a
 * dealer who did best, a flop for a dealer who did worst, nothing otherwise.
 */
module Badges {
  import opened Rules

  datatype Badge = Star | Flop | Plain

  /** The smallest entry of a non-empty row. */
  function Min(s: seq<int>): (m: int)
    requires |s| > 0
    ensures m in s && forall j :: 0 <= j < |s| ==> m <= s[j]
  {
    if |s| == 1 then s[0]
    else
      var rest := Min(s[1..]);
      assert forall j :: 1 <= j < |s| ==> s[j] == s[1..][j - 1];
      if s[0] <= rest then s[0] else rest
  }

  /** The largest entry of a non-empty row. */
  function Max(s: seq<int>): (m: int)
    requires |s| > 0
    ensures m in s && forall j :: 0 <= j < |s| ==> m >= s[j]
  {
    if |s| == 1 then s[0]
    else
      var rest := Max(s[1..]);
      assert forall j :: 1 <= j < |s| ==> s[j] == s[1..][j - 1];
      if s[0] >= rest then s[0] else rest
  }

  /** The players' points in round `r`, in seat order. */
  function RowOf(players: seq<string>, r: Round): (s: seq<int>)
    ensures |s| == |players|
  {
    seq(|players|, i requires 0 <= i < |players| => PointsOf(r, players[i]))
  }

  /**
   * The dealer's badge. A star goes to a dealer whose points are the lowest
   * and nobody else's, or who scored 0 when 0 is the lowest. A flop goes to a
   * dealer whose points are the highest and nobody else's. With no players the
   * lowest and highest are infinite, so no score matches them.
   */
  function DealerBadge(players: seq<string>, r: Round): (b: Badge)
    ensures var s, d := RowOf(players, r), PointsOf(r, r.dealer);
      b == Star <==> |s| > 0 && d in s && (forall j :: 0 <= j < |s| ==> d <= s[j]) && (CountOf(s, d) == 1 || d == 0)
    ensures var s, d := RowOf(players, r), PointsOf(r, r.dealer);
      b == Flop <==> b != Star && |s| > 0 && (forall j :: 0 <= j < |s| ==> d >= s[j]) && CountOf(s, d) == 1
  {
    var s := RowOf(players, r);
    var d := PointsOf(r, r.dealer);
    if |s| == 0 then Plain
    else
      var lo, hi := Min(s), Max(s);
      CountPositive(s, d);
      if (d == lo && CountOf(s, lo) == 1) || (d == 0 && d == lo) then Star
      else if d == hi && CountOf(s, hi) == 1 then Flop
      else Plain
  }

  /** A dealer who shares a zero score with others still gets the star when nobody is lower. */
  lemma ZeroDealerStars(players: seq<string>, r: Round)
    requires r.dealer in players && PointsOf(r, r.dealer) == 0
    requires forall i :: 0 <= i < |players| ==> PointsOf(r, players[i]) >= 0
    ensures DealerBadge(players, r) == Star
  {
    var s := RowOf(players, r);
    var k :| 0 <= k < |players| && players[k] == r.dealer;
    assert s[k] == 0;
  }

  /** When everyone scores the same non-zero amount, no one is singled out. */
  lemma TieNoBadge(players: seq<string>, r: Round, x: int)
    requires |players| >= 2 && x != 0
    requires forall i :: 0 <= i < |players| ==> PointsOf(r, players[i]) == x
    ensures DealerBadge(players, r) == Plain
  {
    var s := RowOf(players, r);
    var d := PointsOf(r, r.dealer);
    if d == x {
      CountTwo(s, 0, 1, x);
    }
  }
}
