/**
 * Editing a recorded round: the form is rebuilt for the round's contract and
 * each player's control is set back from the points the round stored. Then
 * every select fires its change event, which runs the form's narrowing pass
 * again. Only Hearts, Queens, Tricks, King of Spades and Last Two Tricks are
 * restored. A Domino form comes back blank. A Barbu form has no branch of its
 * own and comes back blank too, except for the King of Spades radios when
 * that is the first part in play (see "Left out").
 */
module Editing {
  import opened Wrappers
  import opened Rules
  import opened Narrowing
  import opened Validation
  import opened Scoring
  import opened Session

  /**
   * A count select set to `pts / unit`. The fresh form offers the counts
   * 0..pool, and a value that is not one of them (a fraction, a negative
   * number, too large) leaves the select blank, which reads as 0.
   */
  function RestoreUnits(pts: int, unit: nat, pool: nat): (r: nat)
    requires unit > 0
    ensures r <= pool
    ensures r == 0 || r * unit == pts
  {
    if pts >= 0 && pts % unit == 0 && pts / unit <= pool then pts / unit else 0
  }

  /** Restoring the points of a count that the select offers gives that count back. */
  lemma RestoreUnitsInverse(u: nat, unit: nat, pool: nat)
    requires unit > 0 && u <= pool
    ensures RestoreUnits(u * unit, unit, pool) == u
  {
    assert u * unit == u * unit + 0;
    DivModUnique(u * unit, unit, u, 0);
  }

  /** A Last Two Tricks select set back from its points: 120, 80 and 40 name an outcome, anything else is None. */
  function RestoreLtt(pts: int): (r: Ltt)
    ensures r == Neither || LttPoints(r) == pts
    ensures pts !in {40, 80, 120} ==> r == Neither
  {
    if pts == 120 then Both
    else if pts == 80 then Last
    else if pts == 40 then PreLast
    else Neither
  }

  /** Every outcome is restored from its points. */
  lemma RestoreLttInverse(o: Ltt)
    ensures RestoreLtt(LttPoints(o) as int) == o
  {
  }

  /**
   * The king radio group set back: each player's radio is checked when their
   * points are 80 and unchecked otherwise, in seat order, and checking one
   * radio clears the others, so the last seat with 80 holds the king.
   */
  function RestoreKing(players: seq<string>, r: Round): (h: Option<nat>)
    ensures h.Some? ==> h.value < |players| && PointsOf(r, players[h.value]) == 80
    ensures h.Some? ==> forall j :: h.value < j < |players| ==> PointsOf(r, players[j]) != 80
    ensures h.None? ==> forall j :: 0 <= j < |players| ==> PointsOf(r, players[j]) != 80
  {
    if players == [] then None
    else
      var k := |players| - 1;
      if PointsOf(r, players[k]) == 80 then Some(k)
      else
        var h := RestoreKing(players[..k], r);
        assert forall j :: 0 <= j < k ==> players[..k][j] == players[j];
        h
  }

  /** The King-of-Spades radio walk as the page performs it, one seat after another. */
  method CheckKingRadios(players: seq<string>, r: Round) returns (checked: Option<nat>)
    ensures checked == RestoreKing(players, r)
  {
    checked := None;
    for i := 0 to |players|
      invariant checked == RestoreKing(players[..i], r)
    {
      if PointsOf(r, players[i]) == 80 {
        checked := Some(i);
      } else if checked == Some(i) {
        checked := None;
      }
      assert players[..i + 1][..i] == players[..i];
    }
    assert players[..|players|] == players;
  }

  /** Whether the edit form sets its controls back for contract `c`. */
  predicate Restorable(c: Contract) {
    IsCounting(c) || c == KingOfSpades || c == LastTwoTricks
  }

  /** The form as it stands once every control has been set back, before the change events fire. */
  function Restore(players: seq<string>, r: Round): (s: Option<Sheet>)
    ensures s.Some? <==> Restorable(r.contract)
    ensures s.Some? ==> Fits(r.contract, |players|, [], s.value)
  {
    match r.contract
    case Hearts => Some(RestoreCounts(players, r))
    case Queens => Some(RestoreCounts(players, r))
    case Tricks => Some(RestoreCounts(players, r))
    case KingOfSpades => Some(KingSheet(RestoreKing(players, r)))
    case LastTwoTricks => Some(LttSheet(RestoreOutcomes(players, r)))
    case _ => None
  }

  function RestoreCounts(players: seq<string>, r: Round): (s: Sheet)
    requires IsCounting(r.contract)
    ensures s.CountSheet? && |s.units| == |players|
  {
    var n := |players|;
    var pool := PoolSize(r.contract, n).GetOr(0);
    CountSheet(seq(n, i requires 0 <= i < n => RestoreUnits(PointsOf(r, players[i]), UnitValue(r.contract), pool)))
  }

  function RestoreOutcomes(players: seq<string>, r: Round): (o: seq<Ltt>)
    ensures |o| == |players|
  {
    seq(|players|, i requires 0 <= i < |players| => RestoreLtt(PointsOf(r, players[i])))
  }

  /**
   * The form after the change events. The page fires one event per select and
   * so runs the narrowing pass once per select; the passes are idempotent
   * (`AdjustedIdempotent`, `NarrowedIdempotent`), so one pass gives the same form.
   */
  function Retriggered(c: Contract, n: nat, s: Sheet): (t: Sheet)
  {
    match s
    case CountSheet(units) => CountSheet(Adjusted(units, PoolSize(c, n).GetOr(0)))
    case LttSheet(outcomes) => LttSheet(NarrowedLtt(outcomes))
    case _ => s
  }

  /** A count in a complete counting form is at most the pool. */
  lemma EachWithinPool(units: seq<nat>, i: nat)
    requires i < |units|
    ensures units[i] <= Sum(units)
  {
    SumOthers(units, i);
    NonNegativeSum(Others(units, i));
  }

  /**
   * With all names different, editing a round that a valid form recorded gives
   * that form back, and the change events the edit fires leave it as it is.
   */
  lemma RestoreRoundTrip(players: seq<string>, enabled: seq<Contract>, c: Contract, s: Sheet, dealer: string)
    requires Restorable(c) && Fits(c, |players|, enabled, s) && Valid(c, players, enabled, s)
    requires Distinct(players)
    ensures var r := Round(dealer, c, RoundScores(c, players, enabled, s));
      Restore(players, r) == Some(s) && Retriggered(c, |players|, s) == s
  {
    var r := Round(dealer, c, RoundScores(c, players, enabled, s));
    RecordedPoints(players, enabled, c, s, r);
    match s
    case CountSheet(units) => CountsTrip(players, c, units, r);
    case KingSheet(holder) => KingTrip(players, holder.value, r);
    case LttSheet(outcomes) => LttTrip(players, outcomes, r);
  }

  /** With all names different, a player's stored points are their seat's points. */
  lemma RecordedPoints(players: seq<string>, enabled: seq<Contract>, c: Contract, s: Sheet, r: Round)
    requires Fits(c, |players|, enabled, s) && Distinct(players)
    requires r.scores == RoundScores(c, players, enabled, s)
    ensures forall i :: 0 <= i < |players| ==> PointsOf(r, players[i]) == SeatPoints(c, |players|, enabled, s)[i]
  {
    forall i | 0 <= i < |players| ensures PointsOf(r, players[i]) == SeatPoints(c, |players|, enabled, s)[i] {
      RoundRecordsSeats(c, players, enabled, s, i);
    }
  }

  lemma CountsTrip(players: seq<string>, c: Contract, units: seq<nat>, r: Round)
    requires IsCounting(c) && r.contract == c && |units| == |players| && PoolComplete(c, |players|, units)
    requires forall i :: 0 <= i < |players| ==> PointsOf(r, players[i]) == units[i] * UnitValue(c)
    ensures Restore(players, r) == Some(CountSheet(units))
    ensures Retriggered(c, |players|, CountSheet(units)) == CountSheet(units)
  {
    var pool := PoolSize(c, |players|).value;
    forall i | 0 <= i < |players| ensures RestoreUnits(PointsOf(r, players[i]), UnitValue(c), pool) == units[i] {
      EachWithinPool(units, i);
      RestoreUnitsInverse(units[i], UnitValue(c), pool);
    }
    assert RestoreCounts(players, r).units == units;
    AdjustedStable(units, pool);
  }

  lemma KingTrip(players: seq<string>, holder: nat, r: Round)
    requires r.contract == KingOfSpades && holder < |players|
    requires forall i :: 0 <= i < |players| ==> PointsOf(r, players[i]) == (if i == holder then 80 else 0)
    ensures Restore(players, r) == Some(KingSheet(Some(holder)))
  {
    var h := RestoreKing(players, r);
    assert PointsOf(r, players[holder]) == 80;
  }

  lemma LttTrip(players: seq<string>, outcomes: seq<Ltt>, r: Round)
    requires r.contract == LastTwoTricks && |outcomes| == |players| && LttComplete(outcomes)
    requires forall i :: 0 <= i < |players| ==> PointsOf(r, players[i]) == LttPoints(outcomes[i]) as int
    ensures Restore(players, r) == Some(LttSheet(outcomes))
    ensures Retriggered(LastTwoTricks, |players|, LttSheet(outcomes)) == LttSheet(outcomes)
  {
    forall i | 0 <= i < |players| ensures RestoreLtt(PointsOf(r, players[i])) == outcomes[i] {
      RestoreLttInverse(outcomes[i]);
    }
    assert RestoreOutcomes(players, r) == outcomes;
    CompleteStable(outcomes);
  }

  /**
   * Opening a recorded round for editing and saving it without touching the
   * form leaves the game as it was, apart from ending the edit.
   */
  lemma EditWithoutChange(g: Game, e: nat, s: Sheet)
    requires WellFormed(g) && e < |g.rounds| && Distinct(g.players)
    requires var c := g.rounds[e].contract;
      Restorable(c) && Fits(c, |g.players|, g.enabled, s) && Valid(c, g.players, g.enabled, s)
      && g.rounds[e].scores == RoundScores(c, g.players, g.enabled, s)
    ensures var c := g.rounds[e].contract;
      var t := Retriggered(c, |g.players|, Restore(g.players, g.rounds[e]).value);
      Fits(c, |g.players|, g.enabled, t)
      && AfterSubmit(StartEditing(g, e), c, RoundScores(c, g.players, g.enabled, t)) == g.(edit := None)
  {
    var r := g.rounds[e];
    RestoreRoundTrip(g.players, g.enabled, r.contract, s, r.dealer);
    assert r == Round(r.dealer, r.contract, RoundScores(r.contract, g.players, g.enabled, s));
    assert g.rounds[e := r] == g.rounds;
  }
}
