# Barbu scorekeeper — a verified model of its scoring engine

Barbu is a card game played over many rounds. In each round one player deals and chooses one of seven
contracts: Hearts, Queens, King of Spades, Tricks, Last Two Tricks, Domino or Barbu. Barbu is a
compound of the first five, and the lower total wins. The scorekeeper is a single-page web application
(`app.js`). It has five parts:

- a setup screen (three to six names, the contracts in play);
- a score form per contract, whose selects narrow each other so the form can only describe a legal deal;
- a validator that enables Submit;
- the conversion of a form into per-player points;
- a session that appends rounds and passes the deal, or overwrites a round being edited.

A ranked top bar, a progress grid of who has dealt what, a dealer badge and local-storage persistence
sit around these.

This project models that engine in Dafny and proves what the page promises about it. One module per
part of the page:

| file | module | what it holds |
|---|---|---|
| `wrappers.dfy` | `Wrappers` | `Option` and `Result` |
| `rules.dfy` | `Rules` | contracts, pool sizes, unit values, Last Two Tricks outcomes, the round record, sums and counts |
| `narrowing.dfy` | `Narrowing` | the count clamp (`adjust` / `adjustBarbuSelects`), the Last Two Tricks narrowing (`adjustLTT`), the ⚡ "give me the rest" buttons |
| `validation.dfy` | `Validation` | the form (`Sheet`), `validateForm` case by case, and the invariant that the Last Two Tricks form keeps |
| `scoring.dfy` | `Scoring` | the points of each contract, the Barbu halving, and how seat points become the round's score map |
| `standings.dfy` | `Standings` | totals, the stable ascending sort and competition ranking of the top bar |
| `badges.dfy` | `Badges` | the dealer's 🌟 / 💩 badge |
| `session.dfy` | `Session` | the session state, the `ScoreKeeper` class, append versus edit, availability, completion, the deal rotation |
| `setup.dfy` | `Setup` | the start button: trimming, blank names, player count, checked contracts |
| `snapshot.dfy` | `Snapshot` | saving, page-load defaulting, import |
| `editing.dfy` | `Editing` | setting the form back from a recorded round when it is edited |

Imperative parts of the page are imperative here:

- the in-place clamp of an array of counts (`ClampToPool`, `AdjustBarbuSelects`);
- the in-place Last Two Tricks pass (`NarrowLtt`);
- the score-map loops (`Accumulate`, `Assign`);
- the top bar's loops (`ComputeTotals`, `AssignRanks`, `RankStandings`);
- the king-radio walk of the edit form (`CheckKingRadios`);
- the session object (`Session.ScoreKeeper`, whose fields are the page's module-level state).

Each is proved against a pure function, and the properties are proved as lemmas about that function.

Modelling conventions:

- **Forms are indexed by seat.** The page finds controls by player name; see "Left out".
- **A blank select reads 0.** A select given a value it does not offer goes blank, and every reader
  does `Number(v) || 0`.
- **A missing score reads 0**, as `r.scores[p] || 0` does (`Rules.PointsOf`), for every player name
  that is not a member of `Object.prototype` (see "Left out").
- **Integers are unbounded.** Every number the page handles is a small integer.
- **The Barbu halving is floor division.** `Math.floor(total / 2)` on a non-negative total is Dafny's
  `/`, so `Scoring.Half` proves `2r <= raw < 2r + 2`.

Two behaviours of `app.js` that the model keeps as written, and one note:

- **The edit index survives an import.** Importing a game file replaces the players, contracts,
  rounds and dealer, and leaves `editIndex` as it was (app.js:263-268; `Snapshot.ImportKeepsStaleEdit`,
  `Session.ScoreKeeper.Import`). A later Submit then throws if that index names no round
  (`Snapshot.ImportThenSubmitThrows`).
- **Pre-last and Last in `adjustLTT` are counted on a snapshot.** The counts are taken before the
  pass, while Both is read live from the other players (app.js:707-725). The model keeps that order
  (`Narrowing.NarrowPrefix`).
- **Note: the standalone Last Two Tricks ⚡ blanks its select only for a moment.** When no outcome is
  worth exactly the missing points, the button writes `undefined` (app.js:549), so the select is blank
  until the change event it dispatches (app.js:550) runs `adjustLTT`, which resets it to None
  (app.js:724). Both ⚡ buttons therefore end in the same form on every form
  (`Validation.RestPressesAgree`); `Narrowing.RestOutcome` returns `None` for the missing outcome.

## Model

| member | source | states |
|---|---|---|
| Rules.PoolSize | app.js:438-442 | Hearts has 13 units with 4 or 5 players, else 12; Queens has 4; Tricks has 16/13/10/8 units for 3/4/5/6 players, so 48..52 tricks in all, and no pool outside 3..6; other contracts have no pool |
| Rules.UnitValue | app.js:951-956 | a heart or a trick is worth 10, a queen 30 |
| Rules.LttPoints | app.js:945-949 | the outcomes are worth multiples of 40 up to 120, and only None is worth 0 |
| Rules.LttPointsInjective | app.js:945-949 | different outcomes are worth different points, and Both is worth Pre-last plus Last |
| Narrowing.SeatMax | app.js:481-485 | the largest count a select offers: the pool minus the other seats' counts, all read before the pass |
| Narrowing.Clamp | app.js:486-490 | a selected count above the offered maximum drops to that maximum, and to a blank select (0) when the maximum is negative; any other count stays |
| Narrowing.Adjusted | app.js:480-491 | after one pass every count is at most its old value and at most pool − (others' counts before the pass); a count already within that bound is kept; the counts then sum to at most the pool |
| Narrowing.AdjustedStable | app.js:480-491 | a form whose counts fit the pool is left unchanged by the pass |
| Narrowing.AdjustedIdempotent | app.js:480-491 | running the pass again (one change event per select) changes nothing more |
| Narrowing.PickKeepsPool | app.js:486-490 | choosing any count a select offers keeps the counts within the pool, and the pass the change triggers corrects nothing |
| Narrowing.ClampToPool | app.js:480-491 | the in-place loop leaves the array equal to `Adjusted` of its old contents, and each select's offered maximum is pool − (others' sum) |
| Narrowing.AdjustBarbuSelects | app.js:729-746 | a registered Barbu sub-contract's selects are clamped exactly as `Adjusted` says; an unregistered one is left alone |
| Narrowing.FillRest | app.js:464-472 | on a form within the pool, ⚡ writes the largest count the select offers (`SeatMax`), makes the counts sum to exactly the pool, and the pass it triggers leaves the form as it is |
| Narrowing.FillRestCompletes | app.js:638-647 | the Barbu ⚡ remainder is non-negative, completes the pool and is kept by the pass |
| Narrowing.LttOptions | app.js:707-722 | None is always offered; Both exactly when no other player holds Pre-last or Last and (nobody else holds Both or this player does); Pre-last (resp. Last) exactly when nobody else holds Both and (no one in the snapshot holds it or this player does) |
| Narrowing.LttStep | app.js:722-725 | a player keeps their outcome exactly when it is None, or Both with no other Pre-last or Last, or Pre-last or Last with no other Both; otherwise it becomes None |
| Narrowing.NarrowPrefix | app.js:707-725 | the first k outcomes once the pass has visited the first k selects: each step sees the outcomes already narrowed before it, the untouched ones after it, and the snapshot counts |
| Narrowing.NarrowedLtt | app.js:707-727 | every outcome after one full pass; its properties are `NarrowedKeepsOrResets`, `NarrowedConsistent`, `NarrowedStable` and `NarrowedIdempotent` |
| Narrowing.NarrowedKeepsOrResets | app.js:722-725 | after the pass each player holds their old outcome or None |
| Narrowing.NarrowedConsistent | app.js:707-727 | after the pass no player holds Both while another holds Pre-last or Last |
| Narrowing.NarrowedStable | app.js:707-727 | a form in which Both never stands beside Pre-last or Last is left exactly as it is |
| Narrowing.NarrowedIdempotent | app.js:707-727 | a second pass changes nothing more |
| Narrowing.NarrowLtt | app.js:707-727 | the in-place loop (snapshot counts, live others) leaves the array equal to `NarrowedLtt` of its old contents and gives each select the options `LttOptions` describes |
| Narrowing.RestOutcome | app.js:542-551 | the standalone ⚡ finds an outcome exactly when 120 − (others' points) is 0, 40, 80 or 120, and that outcome completes the 120 points |
| Narrowing.BarbuRest | app.js:683-693 | the Barbu ⚡ completes the 120 points whenever the others hold at most 120, and falls back to None otherwise |
| Narrowing.LttTotalByCounts | app.js:796-797 | the points of a form are 120·Both + 80·Last + 40·Pre-last, as `validateForm` computes them |
| Validation.Valid | app.js:771-884 | `validateForm`'s verdict, per contract: the counting, king, Last Two Tricks, Domino and Barbu rules below |
| Validation.PoolComplete | app.js:778-787 | the counts add up to exactly the contract's pool, and there is a pool for this table size |
| Validation.LttComplete | app.js:792-803 | the outcome counts give 120 points, Both at most once, and with no Both exactly one Pre-last and one Last |
| Validation.DominoComplete | app.js:804-830 | one first and one second are chosen and name different players, and every other player has at least one card left |
| Validation.BarbuComplete | app.js:833-880 | each sub-contract in play is complete by its own rule; the others are not looked at |
| Validation.TricksNeedsTable | app.js:778-787 | a Tricks count can only complete with 3 to 6 players |
| Validation.LttCompleteCases | app.js:792-803 | a Last Two Tricks form passes exactly when one player holds Both and nobody Pre-last or Last, or exactly one holds Pre-last, exactly one Last and nobody Both |
| Validation.LttCompleteTotal | app.js:796-801 | a passing form hands out exactly 120 points |
| Validation.CompleteSound | app.js:792-803 | a passing form holds the form's invariant (each outcome at most once, Both alone) |
| Validation.BlankSound | app.js:748-754 | the freshly built form (all None) holds the invariant and the first pass leaves it blank |
| Validation.PickKeepsSound | app.js:707-727 | on a form holding the invariant, any outcome a select offers keeps the invariant, and the pass the change triggers changes nothing |
| Validation.RestOffered | app.js:683-693 | on a form holding the invariant, the remainder is an outcome, the select offers it, and writing it makes the form pass |
| Validation.RestPressesAgree | app.js:542-551 | on every form the standalone ⚡, whose blank select the change event resets to None (app.js:724), ends in the same form as the Barbu ⚡ with its `|| 'None'` fallback |
| Validation.RestPressCompletes | app.js:542-551 | either ⚡ button, pressed on a form holding the invariant, makes the form pass, and the two buttons agree |
| Validation.CompleteStable | app.js:1139-1142 | a passing Last Two Tricks form is left as it is by the change events |
| Scoring.SeatPoints | app.js:894-1005 | each seat's points for the contract: counts × unit value, 80 for the king's holder, the Last Two Tricks points, the Domino and Barbu points; the conservation lemmas below state what they add up to |
| Scoring.KingPoints | app.js:934-937 | 80 points to the seat whose radio is checked, 0 to every other seat |
| Scoring.LttSeatPoints | app.js:945-949 | each seat scores the points of its outcome |
| Scoring.DominoPoints | app.js:899-925 | −100 to the first out, −50 to the second, 5 per card left to everyone else |
| Scoring.BarbuRaw | app.js:974-1001 | a seat's Barbu points before halving: the sum of its sub-contract points, a missing select reading 0 |
| Scoring.BarbuPoints | app.js:974-1004 | each seat's Barbu score: half its raw points, rounded down |
| Scoring.RoundScores | app.js:894-1005 | the round's score map: Domino and Barbu assign each seat's points, the other contracts add them under the player's name |
| Scoring.Half | app.js:1004 | `Math.floor(total / 2)`: twice the result is the raw total or one less |
| Scoring.CountingConserves | app.js:951-956 | a valid Hearts / Queens / Tricks round hands out pool × 10 (or × 30 for Queens) points |
| Scoring.LttConserves | app.js:945-949 | a valid Last Two Tricks round hands out 120 points |
| Scoring.KingRoundConserves | app.js:934-937 | a valid King of Spades round hands out 80 points, to one seat |
| Scoring.DominoScores | app.js:899-925 | in a valid Domino round first and second are different seats scoring −100 and −50, every other seat scores exactly 5 per card it holds, and every other player pays between 5 and 50 |
| Scoring.DominoTotal | app.js:899-925 | a valid Domino round sums to 5 × (cards left by the others) − 150 |
| Scoring.BarbuGated | app.js:974-1001 | a Barbu seat's raw points add 10 per heart, 30 per queen, 10 per trick, 80 for the king and the Last Two Tricks points, each only when that sub-contract is in play |
| Scoring.BarbuHalves | app.js:1004 | a Barbu seat scores half its raw points, rounded down |
| Scoring.BarbuConserves | app.js:974-1004 | before halving, a valid Barbu round hands out the full points of each sub-contract in play and nothing of the others |
| Scoring.Accumulate | app.js:968 | the `scores[p] = (scores[p] \|\| 0) + v` loop yields, for each name, the sum of the points of every seat with that name |
| Scoring.Assign | app.js:924 | the `scores[p] = v` loop yields, for each name, the points of the last seat with that name |
| Scoring.DistinctScores | app.js:924-968 | with distinct names both loops give the same map, and each player's score is their seat's points |
| Scoring.ScoreRound | app.js:889-1005 | the submit handler's score map is `RoundScores` of the form, with exactly the players as keys |
| Scoring.RoundRecordsSeats | app.js:889-1005 | with distinct names the recorded score of each player is their seat's points for that contract |
| Standings.Total | app.js:172-176 | a player's top-bar total: each round's points, added once for every seat with that name |
| Standings.ComputeTotals | app.js:172-176 | every player's total is each round's points added once per seat with that name; the keys are the players |
| Standings.AddRound | app.js:174-176 | one round adds its points to every player's total, once per seat with that name |
| Standings.SortSeats | app.js:179-181 | the sort lists every seat once, by ascending total, ties in seat order (a stable sort) |
| Standings.SortedSeatsDistinct | app.js:179-181 | no seat is listed twice |
| Standings.AssignRanks | app.js:184-192 | the first rank is 1; an entry equal to the one before reuses its rank, any other takes its position; on ascending totals that is 1 + the number of strictly lower totals |
| Standings.RankStandings | app.js:170-192 | the top bar's lines are exactly `Standings`: name, total and competition rank, by ascending total |
| Standings.Standings | app.js:179-192 | each line carries a player's name, their total and 1 + the number of strictly lower totals |
| Standings.SortedTotals | app.js:179-181 | the listed totals ascend |
| Standings.EveryPlayerListed | app.js:179-192 | every player appears in the top bar with their total |
| Standings.RanksShape | app.js:184-192 | ranks start at 1, never exceed the position, never decrease, equal totals share a rank, and a higher total is ranked by its position |
| Standings.WinnerFirst | app.js:179-192 | the first line has rank 1 and the lowest total of all |
| Standings.RankExample | app.js:184-192 | totals 80, 100, 100, 120 rank 1, 2, 2, 4 |
| Standings.TotalAfterAppend | app.js:172-176 | recording a round adds its points to every total |
| Standings.TotalAfterEdit | app.js:172-176 | editing a round replaces its points by the new round's in every total |
| Badges.DealerBadge | app.js:47-63 | 🌟 exactly when the dealer's points are the lowest and (nobody else's, or 0); otherwise 💩 exactly when they are the highest and nobody else's |
| Badges.ZeroDealerStars | app.js:54-56 | a dealer on 0 with nobody below gets 🌟 even when others also scored 0 |
| Badges.TieNoBadge | app.js:47-63 | when all players score the same non-zero amount nobody is badged |
| Session.WellFormed | app.js:1009-1031 | the state a submit needs: the dealer is a seat and an edit index names a recorded round |
| Session.Done | app.js:370 | the progress grid's ✅ for a player and contract: some round was dealt by that name with that contract |
| Session.Taken | app.js:380-382 | a contract is among the dealer's taken ones exactly when some round was dealt by that name with that contract |
| Session.Without | app.js:383 | the offered list keeps each enabled contract as often as it is enabled, unless taken |
| Session.Available | app.js:380-383 | the dropdown's contracts: the enabled ones the current dealer's name has not dealt, in the order they are enabled |
| Session.AvailableIffOpen | app.js:370-383 | a contract is offered exactly when it is in play and the dealer's tick for it in the progress grid is still open |
| Session.Complete | app.js:1065 | the game ends once there are at least players × contracts rounds |
| Session.Submitted | app.js:1009-1031 | a submit whose edit index names no round throws and changes nothing; any other submit gives `AfterSubmit`, a well-formed state with no edit |
| Session.AfterSubmit | app.js:1009-1031 | the state after a submit is well formed and has no round being edited |
| Session.ScoreKeeper.Start | app.js:137-138 | a new game has no rounds, the first seat deals, nothing is edited |
| Session.ScoreKeeper.Resume | app.js:76-84 | a game picked up from storage keeps its state |
| Session.ScoreKeeper.StartEdit | app.js:1102-1103 | the edit button marks round `idx` as the one the next submit overwrites |
| Session.ScoreKeeper.Import | app.js:262-268 | an imported game's players, contracts, rounds and dealer replace the state, and the edit index stays |
| Session.ScoreKeeper.SubmitRound | app.js:1009-1031 | the new state is `Submitted` of the old one with the form's score map (unchanged under a stale edit index, otherwise `AfterSubmit`); it reports the game finished exactly when an append reached players × contracts rounds |
| Session.AppendPassesDeal | app.js:1024-1031 | an append keeps every earlier round, records the current dealer and contract, and passes the deal to the next seat, wrapping to the first |
| Session.EditOverwrites | app.js:1009-1014 | an edit replaces only the edited round, which keeps its dealer; the number of rounds and the dealer stay, and the edit ends |
| Session.EditIdempotent | app.js:1009-1014 | submitting the same edit a second time changes nothing more |
| Session.NewGameRotation | app.js:137-138 | a new game is on the deal rotation |
| Session.SubmitKeepsRotation | app.js:1024-1031 | every submit keeps round i dealt by seat i mod n and the deal at seat (rounds mod n) |
| Session.StartEditKeepsRotation | app.js:1102-1103 | pressing an edit button keeps the rotation |
| Session.SubmitKeepsNoRepeats | app.js:379-383 | appending an offered contract, or re-submitting an edit under its locked contract, keeps every dealer's contracts distinct |
| Session.DealerHasContract | app.js:379-383 | with distinct names and contracts, on the rotation, the dealer is always offered a contract until the game is complete |
| Setup.Trim | app.js:127 | `trim()` leaves no white space at either end and removes only white space around the kept text |
| Setup.TrimUnique | app.js:127 | trimming white-space padding off a text that has none at its ends gives that text back |
| Setup.TrimIdempotent | app.js:127 | trimming twice is trimming once |
| Setup.KeptNames | app.js:125-127 | every kept name is trimmed and non-blank, and a name is kept exactly when some field trims to it; order, multiplicity and count follow from `KeptField` and `KeptNamesAppend` |
| Setup.KeptField | app.js:125-127 | one field keeps nothing when it trims to nothing, and otherwise keeps its trimmed text |
| Setup.KeptNamesAppend | app.js:125-127 | the names kept from two runs of fields are those of the first run followed by those of the second, so field order and repeats are kept and the count adds up |
| Setup.BlankFieldsKeepNothing | app.js:125-127 | fields that all trim to nothing keep no name |
| Setup.CleanThenBlank | app.js:125-127 | names typed without padding followed by blank fields (the page's six fields with some left empty) keep exactly those names, in order |
| Setup.CleanNamesKept | app.js:125-127 | names typed without surrounding white space are kept as typed, in order |
| Setup.EnabledOf | app.js:131-133 | the contracts in play are exactly the checked ones, once each, in the setup screen's order |
| Setup.StartGame | app.js:123-138 | the start is refused for fewer than 3 or more than 6 names, then for no contract; otherwise the game starts with the kept names and checked contracts, no rounds, the first seat dealing |
| Setup.StartedGameShape | app.js:123-138 | a started game is well formed, on the rotation, without repeats, with distinct contracts in play, 3..6 players, and not complete |
| Setup.RepeatedNamesLeaveNothingToDeal | app.js:125-131 | on the six-field form A, A, B, blank, blank, blank with only Hearts, the game starts, and after the first deal the second seat is offered nothing although the game is not complete |
| Setup.StartGameDistinct | app.js:123-138 | refuses repeated names as well, and otherwise starts exactly the game `StartGame` starts |
| Setup.DistinctStartAlwaysOffers | app.js:379-383 | every state on the rotation over a game started with distinct names offers the dealer a contract until the game is complete |
| Snapshot.FromGame | app.js:67-70 | the page's state variables for a session state; the dealer index is never negative |
| Snapshot.ToGame | app.js:72-85 | the session state of state variables whose dealer index is not negative; `FromGame` gives the variables back |
| Snapshot.Save | app.js:67-70 | all four fields are written |
| Snapshot.Load | app.js:72-85 | the record is kept exactly when both lists are present, and a kept state takes the record's players, contracts, rounds and dealer; otherwise the initial state stays; missing rounds read as none, a missing dealer as the first seat; nothing is being edited |
| Snapshot.LoadSave | app.js:67-85 | loading what was saved gives the saved state back |
| Snapshot.Boot | app.js:91-94 | the game screen opens exactly when a kept record has players, with the loaded state |
| Snapshot.ReloadResumes | app.js:67-94 | reloading during a game resumes it where it was, well formed, with no edit |
| Snapshot.Import | app.js:248-275 | an import without both lists fails and changes nothing; otherwise it loads the fields as a page load does and keeps the edit index |
| Snapshot.ImportExport | app.js:231-275 | importing an exported game restores its state, except the edit index |
| Snapshot.ImportKeepsStaleEdit | app.js:263-268 | an import during an edit keeps an edit index that need not name a round of the imported game |
| Snapshot.ImportThenSubmitThrows | app.js:1009-1011 | after such an import the state is not well formed, and Submit leaves it as it is |
| Editing.RestoreUnits | app.js:1121-1124 | a count select set from points holds a count within the pool that is worth those points, or 0 |
| Editing.RestoreUnitsInverse | app.js:1121-1124 | the points of any offered count restore that count |
| Editing.RestoreLtt | app.js:1125-1129 | a Last Two Tricks select set from points holds the outcome worth them, or None for any other amount |
| Editing.RestoreLttInverse | app.js:1125-1129 | every outcome is restored from its points |
| Editing.RestoreKing | app.js:1134-1135 | the king radio ends on the last seat with 80 points, and on no seat when nobody has 80 |
| Editing.CheckKingRadios | app.js:1114-1137 | the seat-by-seat radio walk ends in the state `RestoreKing` describes |
| Editing.RestoreCounts | app.js:1121-1124 | a counting form set back seat by seat from the round's points, one count per player |
| Editing.RestoreOutcomes | app.js:1125-1129 | a Last Two Tricks form set back seat by seat from the round's points, one outcome per player |
| Editing.Retriggered | app.js:1139-1142 | the form after every select's change event: the page runs one pass per select, and the model one, which `Narrowing.AdjustedIdempotent` and `Narrowing.NarrowedIdempotent` show gives the same form as n passes; `RestoreRoundTrip` proves it leaves a recorded valid form as it is |
| Editing.Restore | app.js:1114-1137 | the form is set back exactly for Hearts, Queens, Tricks, King of Spades and Last Two Tricks, in the shape the form has |
| Editing.RestoreRoundTrip | app.js:1114-1142 | with distinct names, a round recorded from a valid form restores that form, and the change events leave it as it is |
| Editing.EditWithoutChange | app.js:1102-1142 | opening a round for editing and saving it untouched leaves the game as it was, apart from ending the edit |

## Left out

- The DOM is not modelled: building controls, `innerHTML`, labels, emoji, scrolling, focus, `alert` and `confirm`. The form is modelled only by the values of its controls.
- A King of Spades radio group (and each Domino radio group) is modelled as one optional seat, the checked one. The radio elements themselves are not modelled; the page rebuilds them after every submit (`nextRound` calls `buildScoreInputs`).
- Controls are found by player name, so two seats with one name share a control in the page. The model indexes controls by seat. With repeated names it therefore describes a form the page does not build. With distinct names the two agree.
- `localStorage`, `JSON.parse` / `JSON.stringify`, `Blob`, `FileReader` and the download link are not modelled. Snapshots are stated on an already parsed record with each field present in the right JSON type or absent.
- Snapshot.Load: the loaded dealer index is any integer. A fractional, `NaN` or infinite number is not modelled. The model also does not check that the index names a seat, just as the page does not.
- The export timestamp (`exportedAt`) is read from the clock and never read back, so it is not modelled.
- `getTotalForContract` (app.js:395-403) is never called; its Hearts rule differs from the one used.
- The podium and winner screen (`finishGame`) is not modelled. Its order is the same ascending sort that `Standings.WinnerFirst` covers.
- The rank-change pulse animation (`prevRankOrder`) is not modelled.
- The reset and restart buttons are not modelled. They clear storage and reload the page.
- Restoring Domino and Barbu rounds when editing is left out, and `Editing.Restore` returns `None` for them. For Domino the edit code looks up the wrong sibling element (the label after a player's label is the "1st" label, not a select; app.js:566-574), so nothing is restored. Barbu has no branch of its own in the edit code (app.js:1117-1132) and restores nothing, except that when King of Spades is the first Barbu part in play (Hearts, Queens and Tricks not enabled) the first label of each player holds the King radio (app.js:666-672), so `rd.checked = (pts === 80)` (app.js:1134-1135) checks the radio of the last seat whose Barbu score is exactly 80 (a raw 160). The model does not restore that radio.
- Editing.RestoreRoundTrip: the round trip is proved for distinct player names only. With repeated names the seat-indexed form and the page's shared controls differ (see above).
- Validation.RestOffered and Narrowing.FillRest are stated for forms that already hold their invariant (within the pool, or outcomes held at most once). A form outside the invariant cannot be reached through the page's selects, but it can be restored by editing a round no valid form produces: an imported or hand-edited record such as a Last Two Tricks round scored {A:120, B:120, C:0} restores to Both, Both, None (app.js:1125-1129), and `Narrowing.NarrowedLtt` keeps both. For such forms the model states only the plain arithmetic of the remainder.
- The ⚡ value on the Last Two Tricks select is modelled against the options of the last narrowing pass (`Validation.Shown`). The page keeps those options until the next pass, so the two agree.
- Session.ScoreKeeper.Resume: the session is resumed only with a dealer index that names a seat. A stored or imported index that names no seat (negative, too large, fractional) is accepted by the page, and the next append records an undefined dealer (app.js:1027). The model does not cover that state.
- Session.ScoreKeeper.Import: the imported dealer index must name a seat and the player list must be non-empty, for the same reason. An import with no players opens the game screen with an empty table, which is not modelled.
- Session.SubmitKeepsNoRepeats: the contract is locked only while an edit started on the current game. An edit index kept across an import that still names a round of the new game lets the page overwrite that round with any contract the new dealer is offered, so a repeat can be recorded. The lemma does not cover that path.
- Rules.PointsOf, Scoring.Accumulate, Scoring.Assign and Standings.ComputeTotals: the page's score maps are plain objects, which inherit the members of `Object.prototype`. A player named `toString`, `constructor`, `valueOf` or another inherited member reads a function instead of a missing score, so the score and total become strings and the sort compares `NaN`. A player named `__proto__` has every assignment to their score ignored (app.js:173, 924, 968, 1004). The model's `map<string, int>` gives every name an integer, so it does not describe those names.
- The contract drop-down may be empty (see Findings). When it is, the page still enables Submit and records a round under an empty contract name. The model's `Contract` type has no such value, so that path is not modelled.

## Findings

| source | as written | input that shows it | evidently intended | confidence | as-written member | corrected member |
|---|---|---|---|---|---|---|
| app.js:125-136 | the start button accepts repeated player names; the progress grid and the dealer's offered contracts are keyed by name, so seats sharing a name share their ticks | the six fields A, A, B, blank, blank, blank with only Hearts: after seat 0 deals Hearts, seat 1 (also A) is offered no contract while the game needs two more rounds | every seat can deal every contract in play before the game ends, which needs the names to differ | medium, not executed | Setup.RepeatedNamesLeaveNothingToDeal | Setup.StartGameDistinct |
