/**
 * The setup screen: six name fields and one check box per contract. Starting
 * a game keeps the non-blank names (with surrounding white space removed),
 * insists on three to six of them and on at least one contract, and opens a
 * fresh session with no rounds and the first player dealing.
 */
module Setup {
  import opened Wrappers
  import opened Rules
  import opened Session

  /**
   * The characters a JavaScript string's trim removes: the white space and
   * line terminator characters of section 12.2 and 12.3 of ECMA-262.
   */
  predicate IsJsSpace(ch: char) {
    ch == ' ' || ch == '\t' || ch == '\n' || ch == '\U{000B}' || ch == '\U{000C}' || ch == '\r'
    || ch == '\U{00A0}' || ch == '\U{1680}' || ('\U{2000}' <= ch <= '\U{200A}')
    || ch == '\U{2028}' || ch == '\U{2029}' || ch == '\U{202F}' || ch == '\U{205F}'
    || ch == '\U{3000}' || ch == '\U{FEFF}'
  }

  predicate AllSpace(s: string) {
    forall i :: 0 <= i < |s| ==> IsJsSpace(s[i])
  }

  /** Neither end of `s` is white space. */
  predicate Trimmed(s: string) {
    |s| == 0 || (!IsJsSpace(s[0]) && !IsJsSpace(s[|s| - 1]))
  }

  /** The number of white-space characters `s` starts with. */
  function LeadLen(s: string): (k: nat)
    ensures k <= |s| && AllSpace(s[..k]) && (k == |s| || !IsJsSpace(s[k]))
  {
    if |s| > 0 && IsJsSpace(s[0]) then
      var k := 1 + LeadLen(s[1..]);
      assert forall i :: 1 <= i < k ==> s[..k][i] == s[1..][..k - 1][i - 1];
      k
    else 0
  }

  /** The number of white-space characters `s` ends with. */
  function TrailLen(s: string): (k: nat)
    ensures k <= |s| && AllSpace(s[|s| - k..]) && (k == |s| || !IsJsSpace(s[|s| - k - 1]))
  {
    if |s| > 0 && IsJsSpace(s[|s| - 1]) then
      var k := 1 + TrailLen(s[..|s| - 1]);
      var tail, inner := s[|s| - k..], s[..|s| - 1][|s| - k..];
      assert forall i :: 0 <= i < k - 1 ==> tail[i] == inner[i];
      k
    else 0
  }

  /** `s` is `t` with white space added on either side. */
  predicate Padded(s: string, t: string) {
    exists k :: 0 <= k <= |s| - |t| && s[k..k + |t|] == t && AllSpace(s[..k]) && AllSpace(s[k + |t|..])
  }

  /** String trim: `s` without its leading and trailing white space. */
  function Trim(s: string): (r: string)
    ensures Trimmed(r) && Padded(s, r)
  {
    var k := LeadLen(s);
    var t := s[k..];
    var j := TrailLen(t);
    var r := t[..|t| - j];
    assert s[k..k + |r|] == r;
    assert s[k + |r|..] == t[|t| - j..];
    assert |r| == 0 || (r[0] == s[k] && r[|r| - 1] == t[|t| - j - 1]);
    assert 0 <= k <= |s| - |r| && AllSpace(s[..k]) && AllSpace(s[k + |r|..]);
    r
  }

  /** A lead of white space ends at the first other character. */
  lemma LeadLenOf(a: string, t: string)
    requires AllSpace(a) && (|t| == 0 || !IsJsSpace(t[0]))
    ensures LeadLen(a + t) == |a|
  {
    var s := a + t;
    assert forall i :: 0 <= i < |a| ==> s[i] == a[i];
    assert |t| > 0 ==> s[|a|] == t[0];
  }

  /** A trail of white space starts after the last other character. */
  lemma TrailLenOf(t: string, b: string)
    requires AllSpace(b) && (|t| == 0 || !IsJsSpace(t[|t| - 1]))
    ensures TrailLen(t + b) == |b|
  {
    var s := t + b;
    assert forall i :: |t| <= i < |s| ==> s[i] == b[i - |t|];
    assert |t| > 0 ==> s[|t| - 1] == t[|t| - 1];
  }

  /** Trim gives back exactly the part without white space at its ends, whatever padding surrounds it. */
  lemma TrimUnique(a: string, t: string, b: string)
    requires AllSpace(a) && AllSpace(b) && Trimmed(t)
    ensures Trim(a + t + b) == t
  {
    var s := a + t + b;
    if |t| == 0 {
      assert s == a + b;
      assert AllSpace(s) by {
        forall i | 0 <= i < |s| ensures IsJsSpace(s[i]) {
          if i < |a| { assert s[i] == a[i]; } else { assert s[i] == b[i - |a|]; }
        }
      }
      assert LeadLen(s) == |s|;
    } else {
      assert s == a + (t + b);
      LeadLenOf(a, t + b);
      assert s[|a|..] == t + b;
      TrailLenOf(t, b);
    }
  }

  /** Trimming twice trims no more than once. */
  lemma TrimIdempotent(s: string)
    ensures Trim(Trim(s)) == Trim(s)
  {
    var t := Trim(s);
    assert t == [] + t + [];
    TrimUnique([], t, []);
  }

  /** Some input field trims to the non-blank name `x`. */
  predicate Typed(inputs: seq<string>, x: string) {
    x != "" && exists i :: 0 <= i < |inputs| && Trim(inputs[i]) == x
  }

  lemma TypedCons(inputs: seq<string>, x: string)
    requires |inputs| > 0
    ensures Typed(inputs, x) <==> (x != "" && Trim(inputs[0]) == x) || Typed(inputs[1..], x)
  {
    if x != "" && exists i :: 0 <= i < |inputs| && Trim(inputs[i]) == x {
      var i :| 0 <= i < |inputs| && Trim(inputs[i]) == x;
      if i > 0 { assert inputs[1..][i - 1] == inputs[i]; }
    }
    if Typed(inputs[1..], x) {
      var i :| 0 <= i < |inputs[1..]| && Trim(inputs[1..][i]) == x;
      assert inputs[i + 1] == inputs[1..][i];
    }
  }

  /** The names kept from the input fields: each trimmed, blanks dropped, order kept. */
  function KeptNames(inputs: seq<string>): (r: seq<string>)
    ensures |r| <= |inputs|
    ensures forall j :: 0 <= j < |r| ==> r[j] != "" && Trimmed(r[j])
    ensures forall x :: x in r <==> Typed(inputs, x)
  {
    if inputs == [] then []
    else
      var rest := KeptNames(inputs[1..]);
      var t := Trim(inputs[0]);
      assert forall x :: Typed(inputs, x) <==> (x != "" && t == x) || Typed(inputs[1..], x) by {
        forall x ensures Typed(inputs, x) <==> (x != "" && t == x) || Typed(inputs[1..], x) {
          TypedCons(inputs, x);
        }
      }
      if t == "" then rest else [t] + rest
  }

  /** A single field is dropped when it trims to nothing, and kept trimmed otherwise. */
  lemma KeptField(x: string)
    ensures Trim(x) == "" ==> KeptNames([x]) == []
    ensures Trim(x) != "" ==> KeptNames([x]) == [Trim(x)]
  {
    assert [x][1..] == [];
  }

  /** The fields are filtered one by one: the names kept from two runs of fields, in field order. */
  lemma {:induction false} KeptNamesAppend(a: seq<string>, b: seq<string>)
    ensures KeptNames(a + b) == KeptNames(a) + KeptNames(b)
  {
    if a == [] {
      assert a + b == b;
    } else {
      assert (a + b)[0] == a[0];
      assert (a + b)[1..] == a[1..] + b;
      KeptNamesAppend(a[1..], b);
    }
  }

  /** Fields that all trim to nothing keep no name. */
  lemma {:induction false} BlankFieldsKeepNothing(inputs: seq<string>)
    requires forall i :: 0 <= i < |inputs| ==> Trim(inputs[i]) == ""
    ensures KeptNames(inputs) == []
  {
    if inputs != [] {
      BlankFieldsKeepNothing(inputs[1..]);
    }
  }

  /** The index of a contract in the setup screen's list. */
  function Position(c: Contract): (k: nat)
    ensures k < |AllContracts| && AllContracts[k] == c
  {
    match c
    case Hearts => 0
    case Queens => 1
    case KingOfSpades => 2
    case Tricks => 3
    case LastTwoTricks => 4
    case Domino => 5
    case Barbu => 6
  }

  /** The contracts of `s` appear in the setup screen's order. */
  predicate InListOrder(s: seq<Contract>) {
    forall i, j :: 0 <= i < j < |s| ==> Position(s[i]) < Position(s[j])
  }

  /** The entries of `s` whose box is checked, in order. */
  function Checked(s: seq<Contract>, checked: set<Contract>): (r: seq<Contract>)
    ensures forall c :: c in r <==> c in s && c in checked
    ensures InListOrder(s) ==> InListOrder(r)
  {
    if s == [] then []
    else
      var rest := Checked(s[1..], checked);
      assert InListOrder(s) ==> InListOrder(s[1..]) by {
        assert forall i :: 1 <= i < |s| ==> s[1..][i - 1] == s[i];
      }
      if s[0] in checked then
        assert InListOrder(s) ==> InListOrder([s[0]] + rest) by {
          if InListOrder(s) {
            forall j | 0 <= j < |rest| ensures Position(s[0]) < Position(rest[j]) {
              assert rest[j] in s[1..];
              var i :| 0 <= i < |s| - 1 && s[1..][i] == rest[j];
              assert s[i + 1] == rest[j];
            }
            ConsInOrder(s[0], rest);
          }
        }
        [s[0]] + rest
      else rest
  }

  /** A contract listed before every contract of an ordered list keeps it ordered. */
  lemma ConsInOrder(x: Contract, rest: seq<Contract>)
    requires InListOrder(rest)
    requires forall j :: 0 <= j < |rest| ==> Position(x) < Position(rest[j])
    ensures InListOrder([x] + rest)
  {
    var r := [x] + rest;
    assert forall j :: 1 <= j < |r| ==> r[j] == rest[j - 1];
  }

  /** The contracts in play: the checked ones, in the setup screen's order. */
  function EnabledOf(checked: set<Contract>): (r: seq<Contract>)
    ensures forall c :: c in r <==> c in checked
    ensures InListOrder(r) && Distinct(r)
  {
    assert forall i :: 0 <= i < |AllContracts| ==> Position(AllContracts[i]) == i;
    var r := Checked(AllContracts, checked);
    assert forall i, j :: 0 <= i < j < |r| ==> Position(r[i]) != Position(r[j]);
    assert forall c :: c in checked ==> AllContracts[Position(c)] == c;
    r
  }

  datatype SetupError = PlayerCount | NoContract | RepeatedName

  /** Pressing start: the new session, or the reason the form is refused. */
  function StartGame(inputs: seq<string>, checked: set<Contract>): (r: Result<Game, SetupError>)
    ensures r.Failure? && r.error == PlayerCount <==> !(3 <= |KeptNames(inputs)| <= 6)
    ensures r.Failure? && r.error == NoContract <==> 3 <= |KeptNames(inputs)| <= 6 && checked == {}
    ensures r.Success? <==> 3 <= |KeptNames(inputs)| <= 6 && checked != {}
    ensures r.Success? ==> r.value == NewGame(KeptNames(inputs), EnabledOf(checked))
  {
    var names := KeptNames(inputs);
    if |names| < 3 || |names| > 6 then Failure(PlayerCount)
    else
      var enabled := EnabledOf(checked);
      if |enabled| == 0 then
        assert forall c :: c !in checked;
        Failure(NoContract)
      else
        assert enabled[0] in checked;
        Success(NewGame(names, enabled))
  }

  /**
   * A game the setup screen starts is in the state every later step relies
   * on: well formed, on the deal rotation, without repeated contracts, and
   * with each contract in play once.
   */
  lemma StartedGameShape(inputs: seq<string>, checked: set<Contract>)
    requires StartGame(inputs, checked).Success?
    ensures var g := StartGame(inputs, checked).value;
      WellFormed(g) && Rotation(g) && NoRepeats(g) && Distinct(g.enabled) && |g.enabled| > 0
      && 3 <= |g.players| <= 6 && !Complete(g)
  {
    var g := StartGame(inputs, checked).value;
    NewGameRotation(g.players, g.enabled);
    var c :| c in checked;
    assert c in g.enabled;
    MulLe(1, |g.enabled|, |g.players|);
  }

  /**
   * The start button accepts repeated names. Seats that share a name share
   * their ticks in the progress grid, so after the first of them deals Hearts
   * in a Hearts-only game the second is offered nothing, although the game is
   * two rounds short of complete. The form is the page's six fields, the
   * last three left blank.
   */
  lemma RepeatedNamesLeaveNothingToDeal()
    ensures StartGame(["A", "A", "B", "", "", ""], {Hearts}).Success?
    ensures var g := AfterSubmit(StartGame(["A", "A", "B", "", "", ""], {Hearts}).value, Hearts, map[]);
      Rotation(g) && !Complete(g) && g.dealer == 1 && Available(g) == []
  {
    SampleNames();
    OnlyHearts();
    SharedTick();
  }

  /** The state after the first seat deals Hearts with names A, A, B. */
  lemma SharedTick()
    ensures var g := AfterSubmit(NewGame(["A", "A", "B"], [Hearts]), Hearts, map[]);
      Rotation(g) && !Complete(g) && g.dealer == 1 && Available(g) == []
  {
    var start := NewGame(["A", "A", "B"], [Hearts]);
    NewGameRotation(start.players, start.enabled);
    SubmitKeepsRotation(start, Hearts, map[]);
    SharedTickStall(start);
  }

  lemma SharedTickStall(start: Game)
    requires start == NewGame(["A", "A", "B"], [Hearts])
    ensures var g := AfterSubmit(start, Hearts, map[]);
      !Complete(g) && g.dealer == 1 && Available(g) == []
  {
    var g := AfterSubmit(start, Hearts, map[]);
    assert g == Game(["A", "A", "B"], [Hearts], [Round("A", Hearts, map[])], 1, None);
    assert g.rounds[0].dealer == "A";
    var tk := Taken(g.rounds, "A");
    assert Hearts in tk;
    assert [Hearts][1..] == [];
    assert Without([Hearts][1..], tk) == [];
    assert Available(g) == Without([Hearts], tk);
  }

  lemma SampleNames()
    ensures KeptNames(["A", "A", "B", "", "", ""]) == ["A", "A", "B"]
  {
    var s := ["A", "A", "B"];
    assert !IsJsSpace('A') && !IsJsSpace('B');
    assert forall i :: 0 <= i < |s| ==> s[i] == "A" || s[i] == "B";
    CleanThenBlank(s, ["", "", ""]);
    assert s + ["", "", ""] == ["A", "A", "B", "", "", ""];
  }

  /** Names typed as they are, followed by blank fields: only the names are kept. */
  lemma CleanThenBlank(names: seq<string>, blanks: seq<string>)
    requires forall i :: 0 <= i < |names| ==> names[i] != "" && Trimmed(names[i])
    requires forall i :: 0 <= i < |blanks| ==> blanks[i] == ""
    ensures KeptNames(names + blanks) == names
  {
    CleanNamesKept(names);
    TrimClean("");
    BlankFieldsKeepNothing(blanks);
    KeptNamesAppend(names, blanks);
  }

  /** Names typed without surrounding white space are kept as typed. */
  lemma {:induction false} CleanNamesKept(inputs: seq<string>)
    requires forall i :: 0 <= i < |inputs| ==> inputs[i] != "" && Trimmed(inputs[i])
    ensures KeptNames(inputs) == inputs
  {
    if inputs != [] {
      CleanNamesKept(inputs[1..]);
      TrimClean(inputs[0]);
      assert KeptNames(inputs) == [inputs[0]] + KeptNames(inputs[1..]);
      assert [inputs[0]] + inputs[1..] == inputs;
    }
  }

  /** A text without white space at its ends is left as it is. */
  lemma TrimClean(s: string)
    requires Trimmed(s)
    ensures Trim(s) == s
  {
    assert [] + s + [] == s;
    TrimUnique([], s, []);
  }

  lemma OnlyHearts()
    ensures EnabledOf({Hearts}) == [Hearts]
  {
    var rest := Checked(AllContracts[1..], {Hearts});
    assert AllContracts[1..] == [Queens, KingOfSpades, Tricks, LastTwoTricks, Domino, Barbu];
    CheckedNone(AllContracts[1..], {Hearts});
  }

  lemma {:induction false} CheckedNone(s: seq<Contract>, checked: set<Contract>)
    requires forall i :: 0 <= i < |s| ==> s[i] !in checked
    ensures Checked(s, checked) == []
  {
    if s != [] {
      CheckedNone(s[1..], checked);
    }
  }

  /** The start button with repeated names refused as well. */
  function StartGameDistinct(inputs: seq<string>, checked: set<Contract>): (r: Result<Game, SetupError>)
    ensures r.Failure? && r.error == RepeatedName <==> StartGame(inputs, checked).Success? && !Distinct(KeptNames(inputs))
    ensures r.Success? <==> StartGame(inputs, checked).Success? && Distinct(KeptNames(inputs))
    ensures r.Success? ==> r == StartGame(inputs, checked)
  {
    var r := StartGame(inputs, checked);
    if r.Success? && !Distinct(KeptNames(inputs)) then Failure(RepeatedName) else r
  }

  /**
   * With distinct names, every state on the deal rotation over the started
   * game's players and contracts offers the dealer a contract until the game
   * is complete.
   */
  lemma DistinctStartAlwaysOffers(inputs: seq<string>, checked: set<Contract>, g: Game)
    requires StartGameDistinct(inputs, checked).Success?
    requires var start := StartGameDistinct(inputs, checked).value;
      g.players == start.players && g.enabled == start.enabled
    requires WellFormed(g) && Rotation(g) && !Complete(g)
    ensures |Available(g)| > 0
  {
    DealerHasContract(g);
  }
}
