/**
 * The game session: the players, the contracts in play, the recorded rounds,
 * whose turn it is to deal, and which round (if any) is being edited.
 * Submitting a form either appends a round dealt by the current dealer and
 * passes the deal on, or overwrites the round being edited and keeps its
 * original dealer.
 */
module Session {
  import opened Wrappers
  import opened Rules
  import opened Validation
  import opened Scoring

  /** The session's state, as a value. */
  datatype Game = Game(players: seq<string>, enabled: seq<Contract>, rounds: seq<Round>, dealer: nat, edit: Option<nat>)

  /** The dealer is one of the players. */
  predicate Live(g: Game) {
    |g.players| > 0 && g.dealer < |g.players|
  }

  /** The dealer is one of the players, and an edit names a recorded round. */
  predicate WellFormed(g: Game) {
    Live(g) && (g.edit.Some? ==> g.edit.value < |g.rounds|)
  }

  /** An edit index that names no recorded round: one kept across an import of a shorter game. */
  predicate StaleEdit(g: Game) {
    g.edit.Some? && g.edit.value >= |g.rounds|
  }

  /** A game as the setup screen starts it. */
  function NewGame(players: seq<string>, enabled: seq<Contract>): Game {
    Game(players, enabled, [], 0, None)
  }

  /** The contracts `p` has dealt, in the order of the rounds. */
  function Taken(rounds: seq<Round>, p: string): (r: seq<Contract>)
    ensures |r| <= |rounds|
    ensures forall c :: c in r <==> exists i :: 0 <= i < |rounds| && rounds[i].dealer == p && rounds[i].contract == c
  {
    if rounds == [] then []
    else
      var k := |rounds| - 1;
      var front := Taken(rounds[..k], p);
      assert forall i :: 0 <= i < k ==> rounds[..k][i] == rounds[i];
      front + (if rounds[k].dealer == p then [rounds[k].contract] else [])
  }

  /** The entries of `s` that are not in `taken`, in order. */
  function Without(s: seq<Contract>, taken: seq<Contract>): (r: seq<Contract>)
    ensures forall c :: CountOf(r, c) == if c in taken then 0 else CountOf(s, c)
  {
    if s == [] then []
    else
      var tail := Without(s[1..], taken);
      if s[0] in taken then tail
      else
        assert ([s[0]] + tail)[1..] == tail;
        [s[0]] + tail
  }

  /** The contracts the current dealer may still choose. */
  function Available(g: Game): seq<Contract>
    requires g.dealer < |g.players|
  {
    Without(g.enabled, Taken(g.rounds, g.players[g.dealer]))
  }

  /** The progress grid's tick: `p` has dealt `c`. */
  predicate Done(g: Game, p: string, c: Contract) {
    exists i :: 0 <= i < |g.rounds| && g.rounds[i].dealer == p && g.rounds[i].contract == c
  }

  /** A contract is offered exactly when it is in play and the dealer's tick for it is still open. */
  lemma AvailableIffOpen(g: Game, c: Contract)
    requires g.dealer < |g.players|
    ensures c in Available(g) <==> c in g.enabled && !Done(g, g.players[g.dealer], c)
  {
    CountPositive(Available(g), c);
    CountPositive(g.enabled, c);
  }

  /** Every player has dealt every contract. */
  predicate Complete(g: Game) {
    |g.rounds| >= |g.players| * |g.enabled|
  }

  /** The state after a form with scores `scores` for contract `c` is submitted. */
  function AfterSubmit(g: Game, c: Contract, scores: map<string, int>): (h: Game)
    requires WellFormed(g)
    ensures WellFormed(h) && h.edit.None?
    ensures h.players == g.players && h.enabled == g.enabled
  {
    match g.edit
    case Some(e) => g.(rounds := g.rounds[e := Round(g.rounds[e].dealer, c, scores)], edit := None)
    case None => g.(rounds := g.rounds + [Round(g.players[g.dealer], c, scores)], dealer := (g.dealer + 1) % |g.players|)
  }

  /**
   * Submit as the page runs it. With a stale edit index, reading the edited
   * round's dealer throws before anything is assigned, so the state stays as
   * it was; every other state is well formed and takes `AfterSubmit`.
   */
  function Submitted(g: Game, c: Contract, scores: map<string, int>): (h: Game)
    requires Live(g)
    ensures Live(h)
    ensures StaleEdit(g) ==> h == g
    ensures !StaleEdit(g) ==> WellFormed(g) && h == AfterSubmit(g, c, scores) && WellFormed(h) && h.edit.None?
  {
    if StaleEdit(g) then g else AfterSubmit(g, c, scores)
  }

  /** The state once the edit button of round `idx` is pressed. */
  function StartEditing(g: Game, idx: nat): (h: Game)
    requires Live(g) && idx < |g.rounds|
    ensures WellFormed(h)
  {
    g.(edit := Some(idx))
  }

  /** The session object: the page's module-level state and the handlers that change it. */
  class ScoreKeeper {
    var players: seq<string>
    var enabled: seq<Contract>
    var rounds: seq<Round>
    var dealerIndex: nat
    var editIndex: Option<nat>

    function State(): Game
      reads this
    {
      Game(players, enabled, rounds, dealerIndex, editIndex)
    }

    /** The dealer index names a seat; the edit index may be stale. */
    predicate Valid()
      reads this
    {
      Live(State())
    }

    /** A fresh game: no rounds, the first player deals, nothing is edited. */
    constructor Start(names: seq<string>, contracts: seq<Contract>)
      requires |names| > 0
      ensures Valid() && State() == NewGame(names, contracts)
    {
      players := names;
      enabled := contracts;
      rounds := [];
      dealerIndex := 0;
      editIndex := None;
    }

    /** A game picked up from storage. */
    constructor Resume(g: Game)
      requires WellFormed(g) && g.edit.None?
      ensures Valid() && State() == g
    {
      players := g.players;
      enabled := g.enabled;
      rounds := g.rounds;
      dealerIndex := g.dealer;
      editIndex := None;
    }

    /** The edit button of round `idx`: the next submit overwrites that round. */
    method StartEdit(idx: nat)
      requires Valid() && idx < |rounds|
      modifies this
      ensures Valid() && WellFormed(State()) && State() == StartEditing(old(State()), idx)
    {
      editIndex := Some(idx);
    }

    /**
     * Importing a game file: its players, contracts, rounds and dealer replace
     * the state; the edit index is left as it was.
     */
    method Import(names: seq<string>, contracts: seq<Contract>, recorded: seq<Round>, dealer: nat)
      requires |names| > 0 && dealer < |names|
      modifies this
      ensures Valid() && State() == Game(names, contracts, recorded, dealer, old(editIndex))
    {
      players := names;
      enabled := contracts;
      rounds := recorded;
      dealerIndex := dealer;
    }

    /**
     * Submit the form `s` for contract `c`: score it, then overwrite the round
     * being edited or append a round and pass the deal on. Reports whether an
     * append filled the game, which ends it. A stale edit index makes the
     * handler throw, and nothing changes.
     */
    method SubmitRound(c: Contract, s: Sheet) returns (finished: bool)
      requires Valid() && Fits(c, |players|, enabled, s)
      modifies this
      ensures Valid()
      ensures State() == Submitted(old(State()), c, RoundScores(c, old(players), old(enabled), s))
      ensures finished <==> old(editIndex).None? && Complete(State())
    {
      var scores := ScoreRound(c, players, enabled, s);
      if editIndex.Some? {
        var e := editIndex.value;
        if e >= |rounds| {
          return false;
        }
        var oldDealer := rounds[e].dealer;
        rounds := rounds[e := Round(oldDealer, c, scores)];
        editIndex := None;
        finished := false;
      } else {
        rounds := rounds + [Round(players[dealerIndex], c, scores)];
        dealerIndex := (dealerIndex + 1) % |players|;
        finished := |rounds| >= |players| * |enabled|;
      }
    }
  }

  // ----- what a submit does -----

  /** Appending records the current dealer, passes the deal to the next seat, and keeps earlier rounds. */
  lemma AppendPassesDeal(g: Game, c: Contract, scores: map<string, int>)
    requires WellFormed(g) && g.edit.None?
    ensures var h := AfterSubmit(g, c, scores);
      |h.rounds| == |g.rounds| + 1 && h.rounds[..|g.rounds|] == g.rounds
      && h.rounds[|g.rounds|] == Round(g.players[g.dealer], c, scores)
      && (if g.dealer + 1 < |g.players| then h.dealer == g.dealer + 1 else h.dealer == 0)
  {
    assert (g.rounds + [Round(g.players[g.dealer], c, scores)])[..|g.rounds|] == g.rounds;
  }

  /**
   * Editing replaces round `e` and nothing else: the round keeps its dealer,
   * the count of rounds and the current dealer stay, and the edit is cleared.
   */
  lemma EditOverwrites(g: Game, c: Contract, scores: map<string, int>)
    requires WellFormed(g) && g.edit.Some?
    ensures var h, e := AfterSubmit(g, c, scores), g.edit.value;
      |h.rounds| == |g.rounds| && h.dealer == g.dealer && h.edit == None
      && h.rounds[e] == Round(g.rounds[e].dealer, c, scores)
      && forall j :: 0 <= j < |g.rounds| && j != e ==> h.rounds[j] == g.rounds[j]
  {
  }

  /** Submitting the same edit again changes nothing more. */
  lemma EditIdempotent(g: Game, e: nat, c: Contract, scores: map<string, int>)
    requires WellFormed(g) && e < |g.rounds|
    ensures var once := AfterSubmit(StartEditing(g, e), c, scores);
      AfterSubmit(StartEditing(once, e), c, scores) == once
  {
  }

  // ----- the dealer rotation -----

  /** Round `i` was dealt by seat `i mod n`, and the deal now sits with seat `rounds mod n`. */
  predicate Rotation(g: Game) {
    |g.players| > 0
    && (forall i :: 0 <= i < |g.rounds| ==> g.rounds[i].dealer == g.players[i % |g.players|])
    && g.dealer == |g.rounds| % |g.players|
  }

  lemma NewGameRotation(players: seq<string>, enabled: seq<Contract>)
    requires |players| > 0
    ensures Rotation(NewGame(players, enabled))
  {
  }

  lemma ModNext(a: nat, n: nat)
    requires n > 0
    ensures (a % n + 1) % n == (a + 1) % n
  {
    DivModNext(a, n);
    if a % n + 1 == n {
      DivModUnique(n, n, 1, 0);
    } else {
      DivModUnique(a % n + 1, n, 0, a % n + 1);
    }
  }

  /** Quotient and remainder of a successor. */
  lemma DivModNext(a: nat, n: nat)
    requires n > 0
    ensures a % n + 1 < n ==> (a + 1) / n == a / n && (a + 1) % n == a % n + 1
    ensures a % n + 1 == n ==> (a + 1) / n == a / n + 1 && (a + 1) % n == 0
  {
    var q, m := a / n, a % n;
    assert a == q * n + m;
    if m + 1 < n {
      DivModUnique(a + 1, n, q, m + 1);
    } else {
      assert (q + 1) * n == q * n + n;
      DivModUnique(a + 1, n, q + 1, 0);
    }
  }

  /** Quotient and remainder are the only such pair. */
  lemma DivModUnique(a: int, n: int, q: int, r: int)
    requires n > 0 && 0 <= r < n && a == q * n + r
    ensures a / n == q && a % n == r
  {
    var q', r' := a / n, a % n;
    assert a == q' * n + r';
    if q' < q {
      MulBelow(q', q, n);
    } else if q' > q {
      MulBelow(q, q', n);
    }
  }

  lemma MulBelow(x: int, y: int, n: int)
    requires x < y && n > 0
    ensures x * n <= y * n - n
    decreases y - x
  {
    if y - x > 1 {
      MulBelow(x, y - 1, n);
      assert (y - 1) * n == y * n - n;
    } else {
      assert y * n == x * n + n;
    }
  }

  lemma MulLe(x: int, y: int, n: int)
    requires x <= y && n > 0
    ensures x * n <= y * n && n * x <= n * y
  {
    if x < y {
      MulBelow(x, y, n);
    }
  }

  /** Fewer than `n * m` rounds give each seat fewer than `m` turns. */
  lemma DivBelow(r: nat, n: nat, m: nat)
    requires n > 0 && r < n * m
    ensures r / n < m
  {
    var q := r / n;
    assert r == q * n + r % n;
    if q >= m {
      MulLe(m, q, n);
    }
  }

  /** Every submit and every edit button keep the rotation. */
  lemma SubmitKeepsRotation(g: Game, c: Contract, scores: map<string, int>)
    requires WellFormed(g) && Rotation(g)
    ensures Rotation(AfterSubmit(g, c, scores))
  {
    if g.edit.None? {
      ModNext(|g.rounds|, |g.players|);
    }
  }

  lemma StartEditKeepsRotation(g: Game, idx: nat)
    requires WellFormed(g) && Rotation(g) && idx < |g.rounds|
    ensures Rotation(StartEditing(g, idx))
  {
  }

  // ----- no contract dealt twice by the same dealer -----

  /** No two rounds share both dealer and contract. */
  predicate NoRepeats(g: Game) {
    forall i, j :: 0 <= i < j < |g.rounds| ==>
      g.rounds[i].dealer != g.rounds[j].dealer || g.rounds[i].contract != g.rounds[j].contract
  }

  /**
   * Appending a contract the dealer may still choose, or re-submitting an
   * edited round under its own contract (the form locks it), keeps every
   * dealer's contracts distinct.
   */
  lemma SubmitKeepsNoRepeats(g: Game, c: Contract, scores: map<string, int>)
    requires WellFormed(g) && NoRepeats(g)
    requires g.edit.None? ==> c in Available(g)
    requires g.edit.Some? ==> c == g.rounds[g.edit.value].contract
    ensures NoRepeats(AfterSubmit(g, c, scores))
  {
    if g.edit.None? {
      AvailableIffOpen(g, c);
    }
  }

  // ----- the game can always go on until it is complete -----

  /** A row without repeated entries. */
  predicate Distinct<T(==)>(s: seq<T>) {
    forall i, j :: 0 <= i < j < |s| ==> s[i] != s[j]
  }

  /** How many of the rounds `0 .. r - 1` seat `d` of `n` deals. */
  function DealtCount(r: nat, n: nat, d: nat): nat
    requires n > 0
  {
    if r == 0 then 0 else DealtCount(r - 1, n, d) + (if (r - 1) % n == d then 1 else 0)
  }

  lemma {:induction false} DealtCountValue(r: nat, n: nat, d: nat)
    requires n > 0 && d < n
    ensures DealtCount(r, n, d) == r / n + (if d < r % n then 1 else 0)
  {
    if r > 0 {
      DealtCountValue(r - 1, n, d);
      DivModNext(r - 1, n);
    }
  }

  /** With distinct names, the rotation gives the dealer of seat `d` exactly its share of the rounds. */
  lemma {:induction false} TakenCount(g: Game, d: nat, r: nat)
    requires Rotation(g) && Distinct(g.players) && d < |g.players| && r <= |g.rounds|
    ensures |Taken(g.rounds[..r], g.players[d])| == DealtCount(r, |g.players|, d)
  {
    if r > 0 {
      TakenCount(g, d, r - 1);
      assert g.rounds[..r][..r - 1] == g.rounds[..r - 1];
      var n := |g.players|;
      assert g.rounds[r - 1].dealer == g.players[(r - 1) % n];
    }
  }

  lemma {:induction false} SetOfSeqBound<T>(s: seq<T>)
    ensures |set x | x in s| <= |s|
  {
    if s != [] {
      SetOfSeqBound(s[1..]);
      assert (set x | x in s) == (set x | x in s[1..]) + {s[0]};
    }
  }

  lemma {:induction false} SetOfDistinct<T>(s: seq<T>)
    requires Distinct(s)
    ensures |set x | x in s| == |s|
  {
    if s != [] {
      SetOfDistinct(s[1..]);
      assert (set x | x in s) == (set x | x in s[1..]) + {s[0]};
      assert s[0] !in s[1..];
    }
  }

  /**
   * Until the game is complete the current dealer always has a contract left,
   * given distinct names, distinct contracts and the rotation: each player
   * has dealt fewer rounds than there are contracts.
   */
  lemma DealerHasContract(g: Game)
    requires WellFormed(g) && Rotation(g) && Distinct(g.players) && Distinct(g.enabled)
    requires !Complete(g)
    ensures |Available(g)| > 0
  {
    var n, m, r := |g.players|, |g.enabled|, |g.rounds|;
    var taken := Taken(g.rounds, g.players[g.dealer]);
    assert g.rounds[..r] == g.rounds;
    TakenCount(g, g.dealer, r);
    DealtCountValue(r, n, g.dealer);
    assert |taken| == r / n;
    DivBelow(r, n, m);
    SetOfSeqBound(taken);
    SetOfDistinct(g.enabled);
    var en, tk := set x | x in g.enabled, set x | x in taken;
    var c := Outside(en, tk);
    AvailableIffOpen(g, c);
  }

  /** A larger set has an element outside a smaller one. */
  lemma Outside<T>(a: set<T>, b: set<T>) returns (c: T)
    requires |a| > |b|
    ensures c in a && c !in b
  {
    var d := a - b;
    assert a <= b + d;
    assert |d| > 0 by {
      assert a == (a * b) + d;
    }
    c :| c in d;
  }
}
