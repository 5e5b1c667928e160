# Rock-Paper-Scissors match engine, modelled in Dafny

This project models the match engine `RPSGame` of a desktop Rock-Paper-Scissors
game (`src/rps_logic.py`) and proves properties of it. All of it is in
`rps_logic.dfy`, in the module `RpsLogic`.

The engine is built with a "best of N" length. It turns that length into a win
threshold, `rounds_to_win = N // 2 + 1`, and keeps two score counters. Each
turn it decides a round between the player's move and the computer's move by
the cyclic rule: rock beats scissors, paper beats rock, scissors beats paper,
and equal moves tie. The round's winner gains a point. The match is over once
either score equals the threshold.

How the model is built:

- `Move`, `RoundWinner` (`'player'`, `'computer'`, `'tie'`) and `MatchWinner`
  (`"You"`, `"Computer"`) are datatypes in place of the source's strings.
  `TurnResult` stands for the dictionary that `play_turn` returns.
- `RPSGame` is a class with the source's three fields. Its constructor and
  `PlayTurn` assign them in place. `PlayTurn` takes the computer's move as a
  second argument, so every property holds for every possible random draw.
- `Match` is that state as a value. Its members `IsOver`, `TotalRounds`,
  `CurrentRound` and `GetWinner` are the source's queries, and the class's
  query functions delegate to them. `Match.Record` is the score update of one
  turn, and `PlayTurn` is proved to perform exactly that update.
- `DetermineWinner` is proved to agree with an independent reference relation,
  `Beats`: a move beats the one just before it on the cycle rock, paper,
  scissors.
- `Run` replays a sequence of turns on a `Match`. The lemmas about whole
  matches are stated over `Run`: the score invariant, the match length and the
  final winner.

The engine validates nothing and raises no errors:

- Any integer match length is accepted. For odd lengths the threshold comes out
  as `(N + 1) / 2`. Even lengths round up to the next odd length. A length
  below 0 gives a threshold below 1.
- `PlayTurn` does not refuse a turn after the match is over. The score
  invariant therefore holds only for turns played while the match is not over.
  The lemmas say so in their preconditions (`PlayedWhileNotOver`).
- `IsOver` tests the scores with `==`. If the side that already won takes one
  more round, its score passes the threshold and the match is no longer over
  (`PlayPastEndReopens`). The game window leaves its move buttons active during
  the short delay before it shows the result, so a quick extra click can do
  this.
- `GetWinner` does not check that the match is over. At a level score,
  including 0-0, it answers `Computer`.

## Model

| member | source | states |
|---|---|---|
| `RpsLogic.DetermineWinner` | src/rps_logic.py:38-46 | The round is a tie exactly when the moves are equal. The player wins exactly when the player's move beats the computer's under the cyclic reference relation `Beats`. The computer wins exactly when its move beats the player's. |
| `RpsLogic.DetermineWinnerSwap` | src/rps_logic.py:38-46 | Equal moves tie and different moves never tie. Swapping the two moves turns a player win into a computer win, and the other way round. |
| `RpsLogic.PlayerWinningPairs` | src/rps_logic.py:41-44 | The player wins on exactly (rock, scissors), (paper, rock) and (scissors, paper). |
| `RpsLogic.RoundsToWin` | src/rps_logic.py:6 | For an odd match length N the threshold k satisfies 2k - 1 = N; for an even N it satisfies 2k - 1 = N + 1. The threshold is at least 1 exactly when N is at least 0. |
| `RpsLogic.NewMatch` | src/rps_logic.py:4-8 | A new match has the threshold of its length and both scores at 0. For an odd length, its total rounds equal that length. For a non-negative length it satisfies the score invariant and is not over. |
| `RpsLogic.RPSGame.constructor` | src/rps_logic.py:4-8 | The new engine's fields equal `NewMatch(gamemode)`. For a non-negative length it satisfies the score invariant and is not over. |
| `RpsLogic.Match.TotalRounds` | src/rps_logic.py:10-11 | Under the score invariant, the rounds decided so far never exceed the total, and the current round stays within it while the match runs. Once the decided rounds reach the total, the match is over. |
| `RpsLogic.Match.CurrentRound` | src/rps_logic.py:13-14 | The round number is at least 1, which already follows from the scores being non-negative. How it moves is stated by `RecordAdvancesRound` and `RunAdvancesRound`. |
| `RpsLogic.RecordAdvancesRound` | src/rps_logic.py:22-25 | A decided round raises the round number by exactly 1; a tie leaves it unchanged. |
| `RpsLogic.Match.Record` | src/rps_logic.py:21-25 | The player's score rises by one exactly when the player wins the round and otherwise stays put; the same holds for the computer. The threshold never changes. A match that satisfies the invariant and is not over still satisfies it afterwards. |
| `RpsLogic.RPSGame.PlayTurn` | src/rps_logic.py:17-35 | The threshold is unchanged. Each score rises by one exactly when its side wins the round. The new state is the old state updated by `Record` with the round's winner. The result echoes both moves, the winner, the scores after the update and `IsOver()` after the update. If the old state satisfied the invariant and the match was not over, the new state satisfies the invariant. |
| `RpsLogic.OverIffOneSideAtThreshold` | src/rps_logic.py:49-50 | Under the invariant, the match is over exactly when one side, and only one, has reached the threshold. It is not over exactly when both scores are below the threshold. |
| `RpsLogic.PlayPastEndReopens` | src/rps_logic.py:49-50 | In a finished match, one more round won by the winner pushes its score past the threshold: the match reads as not over and the invariant is broken. |
| `RpsLogic.Match.GetWinner` | src/rps_logic.py:53-57 | A level score, 0-0 included, goes to the computer. Under the invariant, once the match is over, the answer is `You` exactly when the player's score is at the threshold, and `Computer` exactly when the computer's is. |
| `RpsLogic.Run` | src/rps_logic.py:17-25 | Replaying turns never changes the threshold. |
| `RpsLogic.RunCountsDecidedRounds` | src/rps_logic.py:22-25 | After any sequence of turns, the sum of the scores has grown by exactly the number of turns that were not ties. |
| `RpsLogic.RunAdvancesRound` | src/rps_logic.py:13-14 | After any sequence of turns, the round number has grown by exactly the number of decided turns. |
| `RpsLogic.RunKeepsInvariant` | src/rps_logic.py:17-25 | If every turn is played while the match is not over, the score invariant holds after any number of turns: neither score exceeds the threshold, and at most one side reaches it. |
| `RpsLogic.MatchLength` | src/rps_logic.py:10-11 | A match with a non-negative length, played only while not over, has at most `TotalRounds()` decided rounds. It is over once it has that many. |
| `RpsLogic.WinnerOfFinishedMatch` | src/rps_logic.py:53-57 | When such a match is over, the scores differ, and `GetWinner` names exactly the side whose score equals the threshold. |
| `RpsLogic.BestOfFiveEndsEarly` | src/rps_logic.py:17-35 | In a best-of-5 match where the computer's rock meets the player's scissors every time, the match is still open after two rounds. It ends 0-3 after the third round, and the computer wins. |
| `RpsLogic.BestOfThreeWithTie` | src/rps_logic.py:17-35 | In a best-of-3 match, an opening tie leaves 0-0. Paper against rock twice then gives 1-0 (not over) and then 2-0, and the player wins. |

## Left out

- The computer's random draw (`random.choice`, src/rps_logic.py:18) is a foreign call. The model takes the computer's move as an argument of `PlayTurn`. The uniform distribution is not modelled.
- The graphical front end (`src/rps_gui.py`) is not part of this model. It covers windows, screens, buttons, timers, images and label text. Its round arithmetic repeats `current_round` and `total_rounds`.
- Moves and winners are datatypes, not strings. The source would accept any string as a move; for example, `'lizard'` against a different move scores a computer win. That case cannot be expressed here.
- The dictionary returned by `play_turn` is the `TurnResult` datatype, with one field per key.
- Python integers are unbounded, like Dafny's `int`, so there is no overflow to model. Python's `//` by 2 floors, and so does Dafny's `/` with a positive divisor.
- `RPSGame.TotalRounds`, `RPSGame.CurrentRound`, `RPSGame.IsOver` and `RPSGame.GetWinner` have no contracts of their own; each delegates to the `Match` member of the same name. `Match.TotalRounds`, `Match.CurrentRound` and `Match.GetWinner` carry contracts. `Match.IsOver` is a bare predicate, the same equality test as the source; what it means is stated by `OverIffOneSideAtThreshold` and `PlayPastEndReopens`.
