/** The tic-tac-toe game's move history: a sequence of boards and a cursor into it,
    changed by clicking a square, jumping to a move, and restarting. */
module GameHistory {
  import opened Wrappers
  import opened TicTacToe

  /** `history` holds the boards after each move, `step` is the move on show. */
  datatype Game = Game(history: seq<Board>, step: int)

  /** The history is never empty and the cursor addresses one of its boards. */
  predicate Valid(g: Game) {
    |g.history| >= 1 && 0 <= g.step < |g.history|
  }

  /** The board on show. */
  function Current(g: Game): Board
    requires Valid(g)
  {
    g.history[g.step]
  }

  /** A click on `square` is ignored: the game is won or the square is taken. */
  predicate Blocked(g: Game, square: int)
    requires Valid(g) && 0 <= square < 9
  {
    Winner(Current(g)).Some? || Current(g)[square].Some?
  }

  /** Board `after` follows board `before` by one accepted click: `before` has no winner,
      and one of its empty squares receives the mark whose turn it is. */
  predicate OneMove(before: Board, after: Board) {
    && Winner(before).None?
    && exists square :: 0 <= square < 9 && before[square].None? && after == before[square := Some(NextValue(before))]
  }

  /** Board `i` of `history` is one move after board `i - 1`. */
  predicate Follows(history: seq<Board>, i: int)
    requires 0 < i < |history|
  {
    OneMove(history[i - 1], history[i])
  }

  /** What every history the game builds satisfies: a valid cursor, the empty board first,
      and each later board one move after the one before it. */
  predicate Consistent(g: Game) {
    && Valid(g)
    && g.history[0] == EmptyBoard
    && forall i :: 0 < i < |g.history| ==> Follows(g.history, i)
  }

  /** The state before any stored history: one empty board, cursor on it. */
  function Start(): (g: Game)
    ensures Consistent(g) && |g.history| == 1 && g.step == 0
  {
    Game([EmptyBoard], 0)
  }

  /** `r` is what an accepted click on `square` makes of `g`: the boards up to the cursor are
      kept, one board follows them and nothing else, the cursor moves onto it, and that board is
      the one on show with the next mark written into `square` and every other square as it was. */
  predicate Committed(g: Game, square: int, r: Game)
    requires Valid(g) && 0 <= square < 9
  {
    && r.step == g.step + 1
    && |r.history| == r.step + 1
    && r.history[..r.step] == g.history[..g.step + 1]
    && r.history[r.step][square] == Some(NextValue(Current(g)))
    && forall i :: 0 <= i < 9 && i != square ==> r.history[r.step][i] == Current(g)[i]
  }

  /** `selectSquare`: a click on a won board or a taken square changes nothing; any other click
      commits a new board after the cursor, discarding the boards that followed it. */
  function SelectSquare(g: Game, square: int): (r: Game)
    requires Valid(g) && 0 <= square < 9
    ensures Valid(r)
    ensures Blocked(g, square) ==> r == g
    ensures !Blocked(g, square) ==> Committed(g, square, r)
  {
    if Blocked(g, square) then g
    else
      var squares := Current(g)[square := Some(NextValue(Current(g)))];
      Game(g.history[..g.step + 1] + [squares], g.step + 1)
  }

  /** A move button: the cursor jumps to an existing move and the history stays as it is. */
  function GoTo(g: Game, move: int): (r: Game)
    requires Valid(g) && 0 <= move < |g.history|
    ensures Valid(r) && r.history == g.history && r.step == move
  {
    g.(step := move)
  }

  /** `restart`: a single empty board with the cursor on it, whatever came before. */
  function Restart(g: Game): (r: Game)
    ensures Consistent(r) && |r.history| == 1 && r.step == 0 && CountMarks(Current(r)) == 0
  {
    Start()
  }

  /** Clicking from the last move only appends: the old history is kept whole. */
  lemma CommitAtTailAppends(g: Game, square: int)
    requires Valid(g) && 0 <= square < 9 && g.step == |g.history| - 1
    requires !Blocked(g, square)
    ensures SelectSquare(g, square).history == g.history + [Current(SelectSquare(g, square))]
  {
    assert g.history[..g.step + 1] == g.history;
  }

  /** Clicking accepted from an earlier move keeps the moves up to the cursor and drops the rest. */
  lemma CommitTruncates(g: Game, square: int)
    requires Valid(g) && 0 <= square < 9 && !Blocked(g, square)
    ensures var r := SelectSquare(g, square);
      && |r.history| == g.step + 2
      && (forall i :: 0 <= i <= g.step ==> r.history[i] == g.history[i])
      && r.history[g.step] == Current(g)
  {
    var r := SelectSquare(g, square);
    forall i | 0 <= i <= g.step ensures r.history[i] == g.history[i] {
      assert r.history[i] == r.history[..r.step][i];
    }
  }

  /** A click keeps a consistent game consistent: the boards it keeps still follow one another,
      and the board it adds is one move after the board on show. */
  lemma {:induction false} SelectSquareKeepsConsistent(g: Game, square: int)
    requires Consistent(g) && 0 <= square < 9
    ensures Consistent(SelectSquare(g, square))
  {
    if !Blocked(g, square) {
      var r := SelectSquare(g, square);
      CommitTruncates(g, square);
      forall i | 0 < i < |r.history| ensures Follows(r.history, i) {
        if i <= g.step {
          assert Follows(g.history, i);
        } else {
          assert Current(r) == Current(g)[square := Some(NextValue(Current(g)))];
          assert OneMove(Current(g), Current(r));
        }
      }
    }
  }

  /** A jump keeps a consistent game consistent: only the cursor moves. */
  lemma GoToKeepsConsistent(g: Game, move: int)
    requires Consistent(g) && 0 <= move < |g.history|
    ensures Consistent(GoTo(g, move))
  {
  }

  /** In a consistent history the board after move `i` holds exactly `i` marks. */
  lemma {:induction false} MarksMatchMoveNumber(g: Game, i: int)
    requires Consistent(g) && 0 <= i < |g.history|
    ensures CountMarks(g.history[i]) == i
  {
    if i == 0 {
      EmptyBoardHasNoMarks();
    } else {
      MarksMatchMoveNumber(g, i - 1);
      assert Follows(g.history, i);
      var before := g.history[i - 1];
      var square :| 0 <= square < 9 && before[square].None? && g.history[i] == before[square := Some(NextValue(before))];
      MarkingCountsOne(before, square, NextValue(before));
    }
  }

  /** So the turns alternate: X moves on even moves, O on odd ones. */
  lemma NextValueAlternates(g: Game, i: int)
    requires Consistent(g) && 0 <= i < |g.history|
    ensures NextValue(g.history[i]) == (if i % 2 == 0 then X else O)
  {
    MarksMatchMoveNumber(g, i);
  }

  /** Only the last board of a consistent history can have a winner: play stops at a win. */
  lemma OnlyLastBoardWon(g: Game, i: int)
    requires Consistent(g) && 0 <= i < |g.history| - 1
    ensures Winner(g.history[i]).None?
  {
    assert Follows(g.history, i + 1);
  }

  /** A user action, as the rendered page offers it. */
  datatype Event = Click(square: int) | JumpTo(move: int) | RestartClick

  /** The page renders nine squares and one move button per history entry. */
  predicate Offered(g: Game, e: Event)
    requires Valid(g)
  {
    match e
    case Click(square) => 0 <= square < 9
    case JumpTo(move) => 0 <= move < |g.history|
    case RestartClick => true
  }

  /** One event, handled as one atomic transition. */
  function Apply(g: Game, e: Event): (r: Game)
    requires Valid(g) && Offered(g, e)
    ensures Valid(r)
  {
    match e
    case Click(square) => SelectSquare(g, square)
    case JumpTo(move) => GoTo(g, move)
    case RestartClick => Restart(g)
  }

  /** A sequence of events; None when some event targets a control the page does not render. */
  function Run(g: Game, events: seq<Event>): (r: Option<Game>)
    requires Valid(g)
    ensures r.Some? ==> Valid(r.value)
    ensures (forall i :: 0 <= i < |events| ==> events[i].RestartClick?) ==> r.Some?
    decreases |events|
  {
    if |events| == 0 then Some(g)
    else if !Offered(g, events[0]) then None
    else Run(Apply(g, events[0]), events[1..])
  }

  /** Every game reached from a consistent one, by any events, is consistent. */
  lemma {:induction false} RunKeepsConsistent(g: Game, events: seq<Event>)
    requires Consistent(g)
    ensures Run(g, events).Some? ==> Consistent(Run(g, events).value)
    decreases |events|
  {
    if |events| > 0 && Offered(g, events[0]) {
      var e := events[0];
      if e.Click? {
        SelectSquareKeepsConsistent(g, e.square);
      } else if e.JumpTo? {
        GoToKeepsConsistent(g, e.move);
      }
      RunKeepsConsistent(Apply(g, e), events[1..]);
    }
  }

  /** A board on which no line is completed has no winner. */
  lemma NoWinnerYet(b: Board)
    requires !Completed(b, 0) && !Completed(b, 1) && !Completed(b, 2) && !Completed(b, 3)
    requires !Completed(b, 4) && !Completed(b, 5) && !Completed(b, 6) && !Completed(b, 7)
    ensures Winner(b).None?
  {
    forall j | 0 <= j < |Lines| ensures !Completed(b, j) {
      assert j == 0 || j == 1 || j == 2 || j == 3 || j == 4 || j == 5 || j == 6 || j == 7;
    }
  }

  /** The boards of the scenario below. */
  const ScenarioB1: Board := EmptyBoard[4 := Some(X)]
  const ScenarioB2: Board := ScenarioB1[0 := Some(O)]
  const ScenarioB3: Board := ScenarioB2[8 := Some(X)]
  const ScenarioB4: Board := ScenarioB1[2 := Some(O)]

  lemma ScenarioFirstMoves()
    ensures SelectSquare(Start(), 4) == Game([EmptyBoard, ScenarioB1], 1)
    ensures SelectSquare(Game([EmptyBoard, ScenarioB1], 1), 0) == Game([EmptyBoard, ScenarioB1, ScenarioB2], 2)
  {
    NoWinnerYet(EmptyBoard);
    EmptyBoardHasNoMarks();
    MarkingCountsOne(EmptyBoard, 4, X);
    NoWinnerYet(ScenarioB1);
    assert [EmptyBoard, ScenarioB1][..2] == [EmptyBoard, ScenarioB1];
  }

  lemma ScenarioLaterMoves()
    ensures SelectSquare(Game([EmptyBoard, ScenarioB1, ScenarioB2], 2), 8)
      == Game([EmptyBoard, ScenarioB1, ScenarioB2, ScenarioB3], 3)
    ensures SelectSquare(Game([EmptyBoard, ScenarioB1, ScenarioB2, ScenarioB3], 1), 2)
      == Game([EmptyBoard, ScenarioB1, ScenarioB4], 2)
  {
    EmptyBoardHasNoMarks();
    MarkingCountsOne(EmptyBoard, 4, X);
    MarkingCountsOne(ScenarioB1, 0, O);
    MarkingCountsOne(ScenarioB1, 2, O);
    NoWinnerYet(ScenarioB1);
    NoWinnerYet(ScenarioB2);
    assert [EmptyBoard, ScenarioB1, ScenarioB2][..3] == [EmptyBoard, ScenarioB1, ScenarioB2];
    assert [EmptyBoard, ScenarioB1, ScenarioB2, ScenarioB3][..2] == [EmptyBoard, ScenarioB1];
  }

  /** Three moves at squares 4, 0 and 8, a jump back to move 1 and a move at square 2:
      the branch with squares 0 and 8 is gone and the board shows marks at 4 and 2 only. */
  lemma BranchScenario()
    ensures var g := Run(Start(), [Click(4), Click(0), Click(8)]);
      && g.Some? && |g.value.history| == 4 && g.value.step == 3
    ensures var g := Run(Start(), [Click(4), Click(0), Click(8), JumpTo(1), Click(2)]);
      && g.Some? && |g.value.history| == 3 && g.value.step == 2
      && Current(g.value) == [None, None, Some(O), None, Some(X), None, None, None, None]
  {
    ScenarioFirstMoves();
    ScenarioLaterMoves();
    var g0 := Start();
    var g1 := Game([EmptyBoard, ScenarioB1], 1);
    var g2 := Game([EmptyBoard, ScenarioB1, ScenarioB2], 2);
    var g3 := Game([EmptyBoard, ScenarioB1, ScenarioB2, ScenarioB3], 3);
    var g4 := GoTo(g3, 1);
    var g5 := Game([EmptyBoard, ScenarioB1, ScenarioB4], 2);

    assert Run(g3, []) == Some(g3);
    assert Run(g2, [Click(8)]) == Some(g3);
    assert Run(g1, [Click(0), Click(8)]) == Some(g3);
    assert Run(g0, [Click(4), Click(0), Click(8)]) == Some(g3);

    assert Run(g5, []) == Some(g5);
    assert Run(g4, [Click(2)]) == Some(g5);
    assert Run(g3, [JumpTo(1), Click(2)]) == Some(g5);
    assert Run(g2, [Click(8), JumpTo(1), Click(2)]) == Some(g5);
    assert Run(g1, [Click(0), Click(8), JumpTo(1), Click(2)]) == Some(g5);
    assert Run(g0, [Click(4), Click(0), Click(8), JumpTo(1), Click(2)]) == Some(g5);
  }
}
