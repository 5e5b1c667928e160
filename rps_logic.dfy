/**
 * The match engine of a Rock-Paper-Scissors game: a "best of N" match between
 * the player and the computer, decided round by round by the cyclic rule
 * (rock beats scissors, paper beats rock, scissors beats paper).
 *
 * The engine object (RPSGame) keeps a win threshold and two score counters and
 * updates them in place, one turn at a time.  The computer's move, drawn at
 * random by the Python engine, is an argument of PlayTurn here, so every property
 * below holds for every possible draw.
 */
module RpsLogic {

  datatype Move = Rock | Paper | Scissors

  /** Who won a single round: 'player', 'computer' or 'tie'. */
  datatype RoundWinner = PlayerWins | ComputerWins | Tie

  /** Who won the match: "You" or "Computer". */
  datatype MatchWinner = You | Computer

  /** What one turn reports back: both moves, the round's winner, the scores after it, and whether the match is over. */
  datatype TurnResult = TurnResult(
    player: Move,
    computer: Move,
    winner: RoundWinner,
    playerScore: nat,
    computerScore: nat,
    isOver: bool)

  // ---------------------------------------------------------------------------
  // Deciding a round

  /** Position of a move on the cycle rock -> paper -> scissors -> rock. */
  function CycleIndex(m: Move): int {
    match m
    case Rock => 0
    case Paper => 1
    case Scissors => 2
  }

  /**
   * Reference definition of dominance: a move beats the move one step before
   * it on the cycle.  (Dafny's % is never negative, so rock, at index 0, beats
   * scissors, at index 2.)
   */
  predicate Beats(a: Move, b: Move) {
    (CycleIndex(a) - CycleIndex(b)) % 3 == 1
  }

  /** The round's winner, by the case analysis of the engine. */
  function DetermineWinner(player: Move, computer: Move): (w: RoundWinner)
    ensures w == Tie <==> player == computer
    ensures w == PlayerWins <==> Beats(player, computer)
    ensures w == ComputerWins <==> Beats(computer, player)
  {
    if player == computer then Tie
    else if (player == Rock && computer == Scissors)
         || (player == Paper && computer == Rock)
         || (player == Scissors && computer == Paper) then PlayerWins
    else ComputerWins
  }

  /** Swapping the two moves swaps the round's winner; equal moves always tie. */
  lemma DetermineWinnerSwap(a: Move, b: Move)
    ensures DetermineWinner(a, a) == Tie
    ensures a != b ==> DetermineWinner(a, b) != Tie
    ensures DetermineWinner(a, b) == PlayerWins <==> DetermineWinner(b, a) == ComputerWins
  {
  }

  /** The player wins on exactly three of the nine pairs of moves. */
  lemma PlayerWinningPairs(a: Move, b: Move)
    ensures DetermineWinner(a, b) == PlayerWins
      <==> (a, b) == (Rock, Scissors) || (a, b) == (Paper, Rock) || (a, b) == (Scissors, Paper)
  {
  }

  // ---------------------------------------------------------------------------
  // The engine's state as a value

  /**
   * Wins needed to take a "best of gamemode" match, by floor division (for the
   * divisor 2 Dafny's / agrees with floor division on negative operands too).
   * For an odd match length the match lasts at most that many decided rounds;
   * an even length is rounded up to the next odd one.
   */
  function RoundsToWin(gamemode: int): (k: int)
    ensures gamemode % 2 == 1 ==> 2 * k - 1 == gamemode
    ensures gamemode % 2 == 0 ==> 2 * k - 1 == gamemode + 1
    ensures gamemode >= 0 <==> k >= 1
  {
    gamemode / 2 + 1
  }

  /** The win threshold and the two scores of an engine. */
  datatype Match = Match(roundsToWin: int, playerScore: nat, computerScore: nat) {

    /** The match is decided once either score equals the threshold. */
    predicate IsOver() {
      playerScore == roundsToWin || computerScore == roundsToWin
    }

    /**
     * The score invariant the engine keeps while no turn is played after the
     * end: a positive threshold, neither score past it, and not both at it.
     */
    predicate Consistent() {
      && roundsToWin >= 1
      && playerScore <= roundsToWin
      && computerScore <= roundsToWin
      && !(playerScore == roundsToWin && computerScore == roundsToWin)
    }

    /** An upper bound on the decided rounds of a match: 2k - 1 for the threshold k. */
    function TotalRounds(): (n: int)
      ensures Consistent() ==> playerScore + computerScore <= n
      ensures Consistent() && !IsOver() ==> CurrentRound() <= n
      ensures Consistent() && playerScore + computerScore == n ==> IsOver()
    {
      roundsToWin * 2 - 1
    }

    /** The 1-based number of the round about to be played; ties do not advance it. */
    function CurrentRound(): (r: int)
      ensures r >= 1
    {
      playerScore + computerScore + 1
    }

    /**
     * "You" when the player is ahead, otherwise "Computer" (a level score,
     * 0-0 included, goes to the computer).  Under the invariant, once the match
     * is over this names the side whose score reached the threshold.
     */
    function GetWinner(): (w: MatchWinner)
      ensures playerScore == computerScore ==> w == Computer
      ensures Consistent() && IsOver() ==> (w == You <==> playerScore == roundsToWin)
      ensures Consistent() && IsOver() ==> (w == Computer <==> computerScore == roundsToWin)
    {
      if playerScore > computerScore then You else Computer
    }

    /**
     * The score update of one turn: the round's winner gains a point, a tie
     * changes nothing, and the threshold never changes.
     */
    function Record(w: RoundWinner): (m: Match)
      ensures m.roundsToWin == roundsToWin
      ensures m.playerScore == playerScore + 1 <==> w == PlayerWins
      ensures m.playerScore == playerScore <==> w != PlayerWins
      ensures m.computerScore == computerScore + 1 <==> w == ComputerWins
      ensures m.computerScore == computerScore <==> w != ComputerWins
      ensures Consistent() && !IsOver() ==> m.Consistent()
    {
      match w
      case PlayerWins => this.(playerScore := playerScore + 1)
      case ComputerWins => this.(computerScore := computerScore + 1)
      case Tie => this
    }
  }

  /** A decided round moves the round number on by one; a tie leaves it where it was. */
  lemma RecordAdvancesRound(m: Match, w: RoundWinner)
    ensures m.Record(w).CurrentRound() == m.CurrentRound() + (if w == Tie then 0 else 1)
  {
  }

  /** The state of a freshly constructed engine. */
  function NewMatch(gamemode: int): (m: Match)
    ensures m.roundsToWin == RoundsToWin(gamemode) && m.playerScore == 0 && m.computerScore == 0
    ensures gamemode % 2 == 1 ==> m.TotalRounds() == gamemode
    ensures gamemode >= 0 ==> m.Consistent() && !m.IsOver()
  {
    Match(RoundsToWin(gamemode), 0, 0)
  }

  /** In a consistent state the match is over iff exactly one side has reached the threshold. */
  lemma OverIffOneSideAtThreshold(m: Match)
    requires m.Consistent()
    ensures m.IsOver() <==> (m.playerScore == m.roundsToWin) != (m.computerScore == m.roundsToWin)
    ensures !m.IsOver() <==> m.playerScore < m.roundsToWin && m.computerScore < m.roundsToWin
  {
  }

  /**
   * Nothing stops a turn after the end, and the end test is an equality: when
   * the side that already won takes one more round, its score passes the
   * threshold and the match reads as not over again.
   */
  lemma PlayPastEndReopens(m: Match, w: RoundWinner)
    requires m.Consistent() && m.IsOver()
    requires w == (if m.playerScore == m.roundsToWin then PlayerWins else ComputerWins)
    ensures !m.Record(w).IsOver()
    ensures !m.Record(w).Consistent()
  {
  }

  // ---------------------------------------------------------------------------
  // Several turns in a row

  /** The state after playing the given (player, computer) moves in order, unguarded as in the engine. */
  function Run(m: Match, turns: seq<(Move, Move)>): (r: Match)
    ensures r.roundsToWin == m.roundsToWin
    decreases |turns|
  {
    if turns == [] then m
    else Run(m.Record(DetermineWinner(turns[0].0, turns[0].1)), turns[1..])
  }

  /** How many of the turns were not ties. */
  function DecidedRounds(turns: seq<(Move, Move)>): (n: nat)
    ensures n <= |turns|
    decreases |turns|
  {
    if turns == [] then 0
    else (if DetermineWinner(turns[0].0, turns[0].1) == Tie then 0 else 1) + DecidedRounds(turns[1..])
  }

  /** Each decided turn adds one point to one side; ties add none. */
  lemma {:induction false} RunCountsDecidedRounds(m: Match, turns: seq<(Move, Move)>)
    ensures Run(m, turns).playerScore + Run(m, turns).computerScore
         == m.playerScore + m.computerScore + DecidedRounds(turns)
    decreases |turns|
  {
    if turns != [] {
      RunCountsDecidedRounds(m.Record(DetermineWinner(turns[0].0, turns[0].1)), turns[1..]);
    }
  }

  /** The round number after several turns counts the decided ones only. */
  lemma RunAdvancesRound(m: Match, turns: seq<(Move, Move)>)
    ensures Run(m, turns).CurrentRound() == m.CurrentRound() + DecidedRounds(turns)
  {
    RunCountsDecidedRounds(m, turns);
  }

  /** Every turn of the sequence is played while the match is not yet over. */
  predicate PlayedWhileNotOver(m: Match, turns: seq<(Move, Move)>)
    decreases |turns|
  {
    turns == [] ||
    (!m.IsOver() && PlayedWhileNotOver(m.Record(DetermineWinner(turns[0].0, turns[0].1)), turns[1..]))
  }

  /** As long as no turn is played after the end, the score invariant survives any number of turns. */
  lemma {:induction false} RunKeepsInvariant(m: Match, turns: seq<(Move, Move)>)
    requires m.Consistent()
    requires PlayedWhileNotOver(m, turns)
    ensures Run(m, turns).Consistent()
    decreases |turns|
  {
    if turns != [] {
      RunKeepsInvariant(m.Record(DetermineWinner(turns[0].0, turns[0].1)), turns[1..]);
    }
  }

  /**
   * A match started with a non-negative length and played only while not over
   * has at most TotalRounds() decided rounds, and it is over once it reaches that many.
   */
  lemma MatchLength(gamemode: int, turns: seq<(Move, Move)>)
    requires gamemode >= 0
    requires PlayedWhileNotOver(NewMatch(gamemode), turns)
    ensures DecidedRounds(turns) <= NewMatch(gamemode).TotalRounds()
    ensures DecidedRounds(turns) == NewMatch(gamemode).TotalRounds() ==> Run(NewMatch(gamemode), turns).IsOver()
  {
    RunKeepsInvariant(NewMatch(gamemode), turns);
    RunCountsDecidedRounds(NewMatch(gamemode), turns);
  }

  /** Once a match played only while not over has ended, the winner is the side at the threshold. */
  lemma WinnerOfFinishedMatch(gamemode: int, turns: seq<(Move, Move)>)
    requires gamemode >= 0
    requires PlayedWhileNotOver(NewMatch(gamemode), turns)
    requires Run(NewMatch(gamemode), turns).IsOver()
    ensures var r := Run(NewMatch(gamemode), turns);
      (r.GetWinner() == You <==> r.playerScore == RoundsToWin(gamemode)) &&
      (r.GetWinner() == Computer <==> r.computerScore == RoundsToWin(gamemode)) &&
      r.playerScore != r.computerScore
  {
    RunKeepsInvariant(NewMatch(gamemode), turns);
  }

  /** Best of 5 with scissors against rock every round: over after exactly three rounds, not five. */
  lemma BestOfFiveEndsEarly()
    ensures !Run(NewMatch(5), [(Scissors, Rock), (Scissors, Rock)]).IsOver()
    ensures Run(NewMatch(5), [(Scissors, Rock), (Scissors, Rock), (Scissors, Rock)]) == Match(3, 0, 3)
    ensures Run(NewMatch(5), [(Scissors, Rock), (Scissors, Rock), (Scissors, Rock)]).GetWinner() == Computer
  {
  }

  /** Best of 3: a tie leaves the score where it was, and two wins end the match for the player. */
  lemma BestOfThreeWithTie()
    ensures Run(NewMatch(3), [(Rock, Rock)]) == Match(2, 0, 0)
    ensures !Run(NewMatch(3), [(Rock, Rock), (Paper, Rock)]).IsOver()
    ensures Run(NewMatch(3), [(Rock, Rock), (Paper, Rock), (Paper, Rock)]) == Match(2, 2, 0)
    ensures Run(NewMatch(3), [(Rock, Rock), (Paper, Rock), (Paper, Rock)]).GetWinner() == You
  {
  }

  // ---------------------------------------------------------------------------
  // The engine object

  class RPSGame {
    var roundsToWin: int
    var playerScore: nat
    var computerScore: nat

    /** The engine's fields as a value. */
    function State(): Match
      reads this
    {
      Match(roundsToWin, playerScore, computerScore)
    }

    /** A "best of gamemode" match with both scores at zero. */
    constructor (gamemode: int)
      ensures State() == NewMatch(gamemode)
      ensures gamemode >= 0 ==> State().Consistent() && !IsOver()
    {
      roundsToWin := gamemode / 2 + 1;
      playerScore := 0;
      computerScore := 0;
    }

    function TotalRounds(): int
      reads this
    {
      State().TotalRounds()
    }

    function CurrentRound(): int
      reads this
    {
      State().CurrentRound()
    }

    predicate IsOver()
      reads this
    {
      State().IsOver()
    }

    function GetWinner(): MatchWinner
      reads this
    {
      State().GetWinner()
    }

    /**
     * Plays one round of the player's move against the computer's move and
     * scores it.  There is no guard against playing after the match is over.
     */
    method PlayTurn(playerChoice: Move, computerChoice: Move) returns (result: TurnResult)
      modifies this
      ensures roundsToWin == old(roundsToWin)
      ensures playerScore == old(playerScore) + (if result.winner == PlayerWins then 1 else 0)
      ensures computerScore == old(computerScore) + (if result.winner == ComputerWins then 1 else 0)
      ensures result == TurnResult(playerChoice, computerChoice, DetermineWinner(playerChoice, computerChoice),
                                   playerScore, computerScore, IsOver())
      ensures State() == old(State()).Record(result.winner)
      ensures old(State().Consistent() && !IsOver()) ==> State().Consistent()
    {
      var winner := DetermineWinner(playerChoice, computerChoice);
      if winner == PlayerWins {
        playerScore := playerScore + 1;
      } else if winner == ComputerWins {
        computerScore := computerScore + 1;
      }
      result := TurnResult(playerChoice, computerChoice, winner, playerScore, computerScore, IsOver());
    }
  }

  /** A best-of-5 match in which scissors meets rock every round ends after exactly three rounds. */
  method BestOfFiveClient() {
    var game := new RPSGame(5);
    assert game.TotalRounds() == 5 && game.CurrentRound() == 1;
    var r := game.PlayTurn(Scissors, Rock);
    assert r.winner == ComputerWins && !r.isOver;
    r := game.PlayTurn(Scissors, Rock);
    assert r.computerScore == 2 && !r.isOver;
    r := game.PlayTurn(Scissors, Rock);
    assert r.computerScore == 3 && r.playerScore == 0 && r.isOver;
    assert game.GetWinner() == Computer;
  }
}
