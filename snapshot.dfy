/**
 * The saved game: the four fields written to local storage after each
 * change (and to an exported file), and how a page load or an import turns
 * an already parsed record back into the page's state variables.
 */
module Snapshot {
  import opened Wrappers
  import opened Rules
  import opened Session

  /**
   * A parsed record: each field is present with the JSON type the page
   * expects (arrays for the lists, a number for the dealer), or it is not.
   */
  datatype Stored = Stored(players: Option<seq<string>>, enabled: Option<seq<Contract>>, rounds: Option<seq<Round>>, dealer: Option<int>)

  /** The page's state variables; the dealer index is whatever number was loaded. */
  datatype Globals = Globals(players: seq<string>, enabled: seq<Contract>, rounds: seq<Round>, dealer: int, edit: Option<nat>)

  /** The state variables before anything is loaded. */
  const Initial := Globals([], [], [], 0, None)

  /** What is written: every field, present. */
  function Save(g: Globals): (d: Stored)
    ensures d.players.Some? && d.enabled.Some? && d.rounds.Some? && d.dealer.Some?
  {
    Stored(Some(g.players), Some(g.enabled), Some(g.rounds), Some(g.dealer))
  }

  /** The outcome of a page load: the state, and whether the stored record is kept. */
  datatype Loaded = Loaded(state: Globals, keep: bool)

  /**
   * Loading at page start. A record with both lists is taken, with no rounds
   * and the first dealer standing in for missing fields; any other record is
   * removed from storage and the initial state stays.
   */
  function Load(data: Stored): (r: Loaded)
    ensures r.keep <==> data.players.Some? && data.enabled.Some?
    ensures !r.keep ==> r.state == Initial
    ensures r.state.edit.None?
    ensures data.rounds.None? ==> r.state.rounds == []
    ensures r.keep && data.dealer.None? ==> r.state.dealer == 0
    ensures r.keep ==> r.state.players == data.players.value && r.state.enabled == data.enabled.value
    ensures r.keep && data.rounds.Some? ==> r.state.rounds == data.rounds.value
    ensures r.keep && data.dealer.Some? ==> r.state.dealer == data.dealer.value
  {
    if data.players.Some? && data.enabled.Some? then
      Loaded(Globals(data.players.value, data.enabled.value, data.rounds.GetOr([]), data.dealer.GetOr(0), None), true)
    else Loaded(Initial, false)
  }

  /** Loading what was saved gives the saved state back, with no round being edited. */
  lemma LoadSave(g: Globals)
    ensures Load(Save(g)) == Loaded(g.(edit := None), true)
  {
  }

  /** The screen a page load opens. */
  datatype Screen = SetupScreen | GameScreen(state: Globals)

  /** After loading, a non-empty player list opens the game, anything else the setup screen. */
  function Boot(data: Stored): (s: Screen)
    ensures s.GameScreen? <==> data.players.Some? && data.enabled.Some? && |data.players.value| > 0
    ensures s.GameScreen? ==> s.state == Load(data).state
  {
    var l := Load(data);
    if |l.state.players| > 0 then GameScreen(l.state) else SetupScreen
  }

  /** The page's state variables holding a session state. */
  function FromGame(g: Game): (s: Globals)
    ensures s.dealer >= 0
  {
    Globals(g.players, g.enabled, g.rounds, g.dealer, g.edit)
  }

  /** The session state held by state variables whose dealer index is a seat. */
  function ToGame(s: Globals): (g: Game)
    requires s.dealer >= 0
    ensures FromGame(g) == s
  {
    Game(s.players, s.enabled, s.rounds, s.dealer, s.edit)
  }

  /** Reloading the page in the middle of a game resumes it where it was, with no round being edited. */
  lemma ReloadResumes(g: Game)
    requires WellFormed(g)
    ensures Boot(Save(FromGame(g))).GameScreen?
    ensures var s := Boot(Save(FromGame(g))).state;
      s.dealer >= 0 && ToGame(s) == g.(edit := None) && WellFormed(ToGame(s))
  {
  }

  datatype ImportError = NotAGameFile

  /**
   * Importing a file. A record without both lists is refused and nothing
   * changes; otherwise its fields replace the state variables, defaulted as
   * on a page load, and the round being edited (if any) is left as it was.
   */
  function Import(current: Globals, data: Stored): (r: Result<Globals, ImportError>)
    ensures r.Failure? <==> !Load(data).keep
    ensures r.Success? ==> r.value == Load(data).state.(edit := current.edit)
  {
    if data.players.Some? && data.enabled.Some? then
      Success(Globals(data.players.value, data.enabled.value, data.rounds.GetOr([]), data.dealer.GetOr(0), current.edit))
    else Failure(NotAGameFile)
  }

  /** Importing an exported game gives its state back, except for the edit in progress, which stays. */
  lemma ImportExport(current: Globals, g: Globals)
    ensures Import(current, Save(g)) == Success(g.(edit := current.edit))
  {
  }

  /**
   * An import during an edit keeps the edit index, which then need not name
   * a round of the imported game.
   */
  lemma ImportKeepsStaleEdit()
    ensures var current := Globals(["A", "B", "C"], [Hearts], [Round("A", Hearts, map[])], 1, Some(0));
      var r := Import(current, Save(Initial.(players := ["A", "B", "C"], enabled := [Hearts])));
      r.Success? && r.value.edit == Some(0) && |r.value.rounds| == 0
  {
  }

  /**
   * Pressing Submit after such an import: the edit index names no round, the
   * handler throws, and the session stays as the import left it.
   */
  lemma ImportThenSubmitThrows(scores: map<string, int>)
    ensures var current := Globals(["A", "B", "C"], [Hearts], [Round("A", Hearts, map[])], 1, Some(0));
      var g := ToGame(Import(current, Save(Initial.(players := ["A", "B", "C"], enabled := [Hearts]))).value);
      StaleEdit(g) && !WellFormed(g) && Submitted(g, Hearts, scores) == g
  {
    ImportKeepsStaleEdit();
  }
}
