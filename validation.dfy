/**
 * The round validator: which score forms enable the Submit button. There is
 * one rule per contract, and Barbu re-checks every sub-contract the game
 * plays. This module also holds the invariant of the Last Two Tricks form,
 * which every choice the form offers keeps, and shows that ⚡ completes the form.
 *
 * A form is modelled by the values of its controls, indexed by seat.
 */
module Validation {
  import opened Wrappers
  import opened Rules
  import opened Narrowing

  /** What the score form holds when Submit is pressed. */
  datatype Sheet =
    | CountSheet(units: seq<nat>)
    | KingSheet(holder: Option<nat>)
    | LttSheet(outcomes: seq<Ltt>)
    | DominoSheet(first: Option<nat>, second: Option<nat>, cards: seq<nat>)
    | BarbuSheet(hearts: seq<nat>, queens: seq<nat>, tricks: seq<nat>, king: Option<nat>, ltt: seq<Ltt>)

  /** A radio group holds no choice or the seat of one of the `n` players. */
  predicate IsSeat(o: Option<nat>, n: nat) {
    o.Some? ==> o.value < n
  }

  /**
   * The form of the shape the game builds for contract `c` with `n` players.
   * A Barbu form has controls only for the sub-contracts the game plays.
   * A cards-left select offers 0..10.
   */
  predicate Fits(c: Contract, n: nat, enabled: seq<Contract>, s: Sheet) {
    match s
    case CountSheet(units) => IsCounting(c) && |units| == n
    case KingSheet(holder) => c == KingOfSpades && IsSeat(holder, n)
    case LttSheet(outcomes) => c == LastTwoTricks && |outcomes| == n
    case DominoSheet(first, second, cards) =>
      c == Domino && IsSeat(first, n) && IsSeat(second, n) && |cards| == n
      && forall i :: 0 <= i < n ==> cards[i] <= 10
    case BarbuSheet(hearts, queens, tricks, king, ltt) =>
      c == Barbu
      && |hearts| == (if Hearts in enabled then n else 0)
      && |queens| == (if Queens in enabled then n else 0)
      && |tricks| == (if Tricks in enabled then n else 0)
      && IsSeat(king, n) && (KingOfSpades !in enabled ==> king.None?)
      && |ltt| == (if LastTwoTricks in enabled then n else 0)
  }

  /** The counts of a counting contract add up to exactly its pool. */
  predicate PoolComplete(c: Contract, n: nat, units: seq<nat>) {
    PoolSize(c, n).Some? && Sum(units) == PoolSize(c, n).value
  }

  /** The Last Two Tricks rule, stated on the counts of each outcome as the source tests it. */
  predicate LttComplete(o: seq<Ltt>) {
    var both, last, pre := CountOf(o, Both), CountOf(o, Last), CountOf(o, PreLast);
    120 * both + 80 * last + 40 * pre == 120 && both <= 1 && (both == 0 ==> pre == 1 && last == 1)
  }

  /**
   * One first and one second are chosen and name different players,
   * and every other player has at least one card left.
   */
  predicate DominoComplete(players: seq<string>, first: Option<nat>, second: Option<nat>, cards: seq<nat>)
    requires |cards| == |players| && IsSeat(first, |players|) && IsSeat(second, |players|)
  {
    first.Some? && second.Some? && players[first.value] != players[second.value]
    && forall j :: 0 <= j < |players| && players[j] != players[first.value] && players[j] != players[second.value] ==> cards[j] >= 1
  }

  /** Every sub-contract the game plays is complete; the others are not looked at. */
  predicate BarbuComplete(n: nat, enabled: seq<Contract>, hearts: seq<nat>, queens: seq<nat>, tricks: seq<nat>, king: Option<nat>, ltt: seq<Ltt>) {
    (Hearts in enabled ==> PoolComplete(Hearts, n, hearts))
    && (Queens in enabled ==> PoolComplete(Queens, n, queens))
    && (Tricks in enabled ==> PoolComplete(Tricks, n, tricks))
    && (KingOfSpades in enabled ==> king.Some?)
    && (LastTwoTricks in enabled ==> LttComplete(ltt))
  }

  /** Whether the Submit button is enabled for the form `s` of contract `c`. */
  predicate Valid(c: Contract, players: seq<string>, enabled: seq<Contract>, s: Sheet)
    requires Fits(c, |players|, enabled, s)
  {
    match s
    case CountSheet(units) => PoolComplete(c, |players|, units)
    case KingSheet(holder) => holder.Some?
    case LttSheet(outcomes) => LttComplete(outcomes)
    case DominoSheet(first, second, cards) => DominoComplete(players, first, second, cards)
    case BarbuSheet(hearts, queens, tricks, king, ltt) => BarbuComplete(|players|, enabled, hearts, queens, tricks, king, ltt)
  }

  /** Tricks with fewer than 3 or more than 6 players has no pool, so such a form is never valid. */
  lemma TricksNeedsTable(n: nat, units: seq<nat>)
    requires PoolComplete(Tricks, n, units)
    ensures 3 <= n <= 6
  {
  }

  /** Exactly the two ways of splitting the last two tricks pass the rule. */
  lemma LttCompleteCases(o: seq<Ltt>)
    ensures LttComplete(o) <==>
      (CountOf(o, Both) == 1 && CountOf(o, PreLast) == 0 && CountOf(o, Last) == 0)
      || (CountOf(o, Both) == 0 && CountOf(o, PreLast) == 1 && CountOf(o, Last) == 1)
  {
  }

  /** A complete form hands out exactly the 120 points of the contract. */
  lemma LttCompleteTotal(o: seq<Ltt>)
    requires LttComplete(o)
    ensures LttTotal(o) == 120
  {
    LttTotalByCounts(o);
  }

  // ----- the Last Two Tricks form -----

  /**
   * The invariant of the form: each outcome is held at most once, and a
   * player holding Both leaves Pre-last and Last to nobody.
   */
  predicate Sound(o: seq<Ltt>) {
    var both, last, pre := CountOf(o, Both), CountOf(o, Last), CountOf(o, PreLast);
    both <= 1 && pre <= 1 && last <= 1 && (both == 1 ==> pre == 0 && last == 0)
  }

  lemma CompleteSound(o: seq<Ltt>)
    requires LttComplete(o)
    ensures Sound(o)
  {
  }

  /** A form that holds the invariant is one the narrowing pass leaves alone. */
  lemma SoundConsistent(o: seq<Ltt>)
    requires Sound(o)
    ensures Consistent(o)
  {
    forall i, j | 0 <= i < |o| && 0 <= j < |o| && i != j && o[i] == Both
      ensures o[j] != PreLast && o[j] != Last
    {
      CountPositive(o, Both);
      if o[j] == PreLast {
        CountPositive(o, PreLast);
      } else if o[j] == Last {
        CountPositive(o, Last);
      }
    }
  }

  /** The form as first built: every player on Neither. */
  function Blank(n: nat): (r: seq<Ltt>)
    ensures |r| == n && forall i :: 0 <= i < n ==> r[i] == Neither
  {
    seq(n, _ => Neither)
  }

  lemma {:induction false} BlankCounts(n: nat, x: Ltt)
    requires x != Neither
    ensures CountOf(Blank(n), x) == 0
  {
    CountPositive(Blank(n), x);
  }

  /** The blank form holds the invariant and the first pass leaves it blank. */
  lemma BlankSound(n: nat)
    ensures Sound(Blank(n))
    ensures NarrowedLtt(Blank(n)) == Blank(n)
  {
    BlankCounts(n, Both);
    BlankCounts(n, PreLast);
    BlankCounts(n, Last);
    SoundConsistent(Blank(n));
    NarrowedStable(Blank(n));
  }

  /** The counts once seat `i` is given `v`: the others' counts plus `v` itself. */
  lemma CountsAfterWrite(o: seq<Ltt>, i: nat, v: Ltt, x: Ltt)
    requires i < |o|
    ensures CountOf(o[i := v], x) == CountOf(Others(o, i), x) + (if v == x then 1 else 0)
  {
    CountOthers(o[i := v], i, x);
    OthersUpdate(o, i, v);
  }

  /** The others' count of `x` is below 1 exactly when it is absent from them. */
  lemma AbsentFromOthers(o: seq<Ltt>, i: nat, x: Ltt)
    requires i < |o|
    ensures CountOf(Others(o, i), x) == 0 <==> x !in Others(o, i)
  {
    CountPositive(Others(o, i), x);
  }

  /**
   * On a form that holds the invariant (so the pass gave each select the
   * options computed from the form itself), picking any offered outcome keeps
   * the invariant, and the pass the change triggers changes nothing.
   */
  lemma PickKeepsSound(o: seq<Ltt>, i: nat, x: Ltt)
    requires Sound(o) && i < |o|
    requires x in OfferedLtt(o)[i]
    ensures Sound(o[i := x])
    ensures NarrowedLtt(o[i := x]) == o[i := x]
  {
    SoundConsistent(o);
    LiveOthersWhenStable(o, i);
    var others := Others(o, i);
    assert x in LttOptions(o[i], others, o);
    CountsAfterWrite(o, i, x, Both);
    CountsAfterWrite(o, i, x, PreLast);
    CountsAfterWrite(o, i, x, Last);
    CountOthers(o, i, Both);
    CountOthers(o, i, PreLast);
    CountOthers(o, i, Last);
    AbsentFromOthers(o, i, Both);
    AbsentFromOthers(o, i, PreLast);
    AbsentFromOthers(o, i, Last);
    CountPositive(o, PreLast);
    CountPositive(o, Last);
    SoundConsistent(o[i := x]);
    NarrowedStable(o[i := x]);
  }

  /**
   * The select takes the value ⚡ writes when one of its options carries it;
   * otherwise it goes blank, which the pass that follows turns into Neither.
   */
  function Shown(v: Option<Ltt>, shown: seq<Ltt>): (r: Ltt)
    ensures r == Neither || (v.Some? && r == v.value && r in shown)
    ensures v.Some? && v.value in shown ==> r == v.value
  {
    if v.Some? && v.value in shown then v.value else Neither
  }

  /** Pressing the Barbu ⚡ button of seat `i`, followed by the narrowing pass. */
  function BarbuRestPress(o: seq<Ltt>, i: nat, shown: seq<Ltt>): seq<Ltt>
    requires i < |o|
  {
    NarrowedLtt(o[i := Shown(Some(BarbuRest(Others(o, i))), shown)])
  }

  /** Pressing the plain-contract ⚡ button, which may find no outcome worth the rest. */
  function RestPress(o: seq<Ltt>, i: nat, shown: seq<Ltt>): seq<Ltt>
    requires i < |o|
  {
    NarrowedLtt(o[i := Shown(RestOutcome(Others(o, i)), shown)])
  }

  /** On a form that holds the invariant, the rest is an outcome, and the select offers it. */
  lemma RestOffered(o: seq<Ltt>, i: nat)
    requires Sound(o) && i < |o|
    ensures RestOutcome(Others(o, i)).Some?
    ensures RestOutcome(Others(o, i)).value == BarbuRest(Others(o, i))
    ensures BarbuRest(Others(o, i)) in OfferedLtt(o)[i]
    ensures LttComplete(o[i := BarbuRest(Others(o, i))])
  {
    var others := Others(o, i);
    SoundConsistent(o);
    LiveOthersWhenStable(o, i);
    LttTotalByCounts(others);
    CountOthers(o, i, Both);
    CountOthers(o, i, PreLast);
    CountOthers(o, i, Last);
    AbsentFromOthers(o, i, Both);
    AbsentFromOthers(o, i, PreLast);
    AbsentFromOthers(o, i, Last);
    CountPositive(o, PreLast);
    CountPositive(o, Last);
    var v := BarbuRest(others);
    CountsAfterWrite(o, i, v, Both);
    CountsAfterWrite(o, i, v, PreLast);
    CountsAfterWrite(o, i, v, Last);
  }

  /**
   * The two ⚡ buttons leave every form in the same state: where the plain
   * button writes a value no option carries, the select goes blank and the
   * narrowing pass its change event runs resets it to Neither, the Barbu
   * button's fallback.
   */
  lemma RestPressesAgree(o: seq<Ltt>, i: nat)
    requires i < |o|
    ensures BarbuRestPress(o, i, OfferedLtt(o)[i]) == RestPress(o, i, OfferedLtt(o)[i])
  {
    LttTotalMultiple(Others(o, i));
  }

  /**
   * Either ⚡ button, pressed on a form that holds the invariant, completes
   * the form, and the two buttons agree.
   */
  lemma RestPressCompletes(o: seq<Ltt>, i: nat)
    requires Sound(o) && i < |o|
    ensures BarbuRestPress(o, i, OfferedLtt(o)[i]) == RestPress(o, i, OfferedLtt(o)[i])
    ensures LttComplete(BarbuRestPress(o, i, OfferedLtt(o)[i]))
  {
    RestOffered(o, i);
    var next := o[i := BarbuRest(Others(o, i))];
    CompleteSound(next);
    SoundConsistent(next);
    NarrowedStable(next);
  }

  /** A complete form is one the narrowing pass leaves as it is. */
  lemma CompleteStable(o: seq<Ltt>)
    requires LttComplete(o)
    ensures NarrowedLtt(o) == o
  {
    CompleteSound(o);
    SoundConsistent(o);
    NarrowedStable(o);
  }
}
