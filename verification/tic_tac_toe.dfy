/** The pure helpers of the tic-tac-toe game: whose turn it is, who has won, and the status line. */
module TicTacToe {
  import opened Wrappers

  datatype Mark = X | O

  /** A square holds a mark or is empty (`null`). */
  type Square = Option<Mark>

  /** A position on the board, numbered row by row from the top left. */
  type Index = i: nat | i < 9

  /** The nine squares of a board. */
  type Board = b: seq<Square> | |b| == 9 witness [None, None, None, None, None, None, None, None, None]

  /** `Array(9).fill(null)`. */
  const EmptyBoard: Board := [None, None, None, None, None, None, None, None, None]

  /** `squares.filter(Boolean).length`: how many squares hold a mark. */
  function CountMarks(squares: seq<Square>): (n: nat)
    ensures n <= |squares|
  {
    if |squares| == 0 then 0
    else (if squares[0].Some? then 1 else 0) + CountMarks(squares[1..])
  }

  /** `squares.every(Boolean)`: every square holds a mark. */
  predicate Full(squares: seq<Square>) {
    forall i :: 0 <= i < |squares| ==> squares[i].Some?
  }

  /** A sequence is full exactly when every one of its squares is counted. */
  lemma {:induction false} FullIffAllCounted(squares: seq<Square>)
    ensures Full(squares) <==> CountMarks(squares) == |squares|
  {
    if |squares| > 0 {
      FullIffAllCounted(squares[1..]);
      if Full(squares) {
        assert Full(squares[1..]) by {
          forall i | 0 <= i < |squares[1..]| ensures squares[1..][i].Some? {
            assert squares[1..][i] == squares[i + 1];
          }
        }
      }
      if CountMarks(squares) == |squares| {
        forall i | 0 <= i < |squares| ensures squares[i].Some? {
          if i > 0 {
            assert squares[i] == squares[1..][i - 1];
          }
        }
      }
    }
  }

  /** Writing a mark into an empty square adds exactly one to the count. */
  lemma {:induction false} MarkingCountsOne(squares: seq<Square>, i: int, m: Mark)
    requires 0 <= i < |squares| && squares[i].None?
    ensures CountMarks(squares[i := Some(m)]) == CountMarks(squares) + 1
  {
    if i > 0 {
      assert squares[i := Some(m)][1..] == squares[1..][i - 1 := Some(m)];
      MarkingCountsOne(squares[1..], i - 1, m);
    } else {
      assert squares[i := Some(m)][1..] == squares[1..];
    }
  }

  /** The empty board holds no mark. */
  lemma EmptyBoardHasNoMarks()
    ensures CountMarks(EmptyBoard) == 0
  {
  }

  /** X moves when the number of marks is even, O when it is odd (X starts). */
  function NextValue(squares: Board): (m: Mark)
    ensures m == X <==> CountMarks(squares) % 2 == 0
    ensures m == O <==> CountMarks(squares) % 2 == 1
  {
    if CountMarks(squares) % 2 == 0 then X else O
  }

  /** The eight winning lines, in the order the winner search tries them. */
  const Lines: seq<(Index, Index, Index)> := [
    (0, 1, 2), (3, 4, 5), (6, 7, 8),
    (0, 3, 6), (1, 4, 7), (2, 5, 8),
    (0, 4, 8), (2, 4, 6)
  ]

  /** The search's test for line `i`: its first square holds a mark and the other two hold the same. */
  predicate Completed(b: Board, i: nat)
    requires i < |Lines|
  {
    b[Lines[i].0].Some? && b[Lines[i].0] == b[Lines[i].1] && b[Lines[i].0] == b[Lines[i].2]
  }

  /** All three squares of line `i` hold `m`. */
  predicate LineOf(b: Board, i: nat, m: Mark)
    requires i < |Lines|
  {
    b[Lines[i].0] == Some(m) && b[Lines[i].1] == Some(m) && b[Lines[i].2] == Some(m)
  }

  /** Line `j` is completed and no line before it (from `i` on) is. */
  predicate FirstCompleted(b: Board, i: nat, j: nat)
    requires i <= j < |Lines|
  {
    Completed(b, j) && forall k :: i <= k < j ==> !Completed(b, k)
  }

  /** The winner search, from line `i` on: the mark of the first completed line, or none. */
  function WinnerFrom(b: Board, i: nat): (w: Option<Mark>)
    requires i <= |Lines|
    decreases |Lines| - i
    ensures w.Some? ==> exists j :: i <= j < |Lines| && FirstCompleted(b, i, j) && LineOf(b, j, w.value)
    ensures w.None? <==> forall j :: i <= j < |Lines| ==> !Completed(b, j)
  {
    if i == |Lines| then None
    else if Completed(b, i) then
      assert FirstCompleted(b, i, i);
      b[Lines[i].0]
    else WinnerFrom(b, i + 1)
  }

  /** `calculateWinner`: the mark of the first completed line, or none when no line is completed. */
  function Winner(b: Board): (w: Option<Mark>)
    ensures w.Some? ==> exists j :: 0 <= j < |Lines| && FirstCompleted(b, 0, j) && LineOf(b, j, w.value)
    ensures w.None? <==> forall j :: 0 <= j < |Lines| ==> !Completed(b, j)
  {
    WinnerFrom(b, 0)
  }

  function Opponent(m: Mark): Mark {
    if m == X then O else X
  }

  /** When only one mark owns a line, that mark is the winner, wherever its line sits in the list. */
  lemma SoleWinner(b: Board, m: Mark, j: nat)
    requires j < |Lines| && LineOf(b, j, m)
    requires forall k :: 0 <= k < |Lines| ==> !LineOf(b, k, Opponent(m))
    ensures Winner(b) == Some(m)
  {
    assert Completed(b, j);
    var w := Winner(b);
    assert w.Some?;
    var k :| 0 <= k < |Lines| && FirstCompleted(b, 0, k) && LineOf(b, k, w.value);
    assert !LineOf(b, k, Opponent(m));
    assert w.value == m || w.value == Opponent(m);
  }

  /** What the status line reports. */
  datatype Status = Won(winner: Mark) | Scratch | NextPlayer(next: Mark)

  /** `calculateStatus`: a winner first, then a full board, then the player to move. */
  function CalculateStatus(winner: Option<Mark>, squares: Board, next: Mark): (s: Status)
    ensures s.Won? <==> winner.Some?
    ensures s.Won? ==> s.winner == winner.value
    ensures s.Scratch? <==> winner.None? && Full(squares)
    ensures s.NextPlayer? <==> winner.None? && !Full(squares)
    ensures s.NextPlayer? ==> s.next == next
  {
    if winner.Some? then Won(winner.value)
    else if Full(squares) then Scratch
    else NextPlayer(next)
  }

  /** The status the game shows for a board, described by its lines and its number of marks. */
  lemma {:induction false} StatusOfBoard(b: Board)
    ensures var s := CalculateStatus(Winner(b), b, NextValue(b));
      && (s.Won? <==> exists j :: 0 <= j < |Lines| && Completed(b, j))
      && (s.Won? ==> exists j :: 0 <= j < |Lines| && LineOf(b, j, s.winner))
      && (s.Scratch? <==> (forall j :: 0 <= j < |Lines| ==> !Completed(b, j)) && CountMarks(b) == 9)
      && (s.NextPlayer? <==> (forall j :: 0 <= j < |Lines| ==> !Completed(b, j)) && CountMarks(b) < 9)
      && (s.NextPlayer? ==> (s.next == X <==> CountMarks(b) % 2 == 0))
  {
    FullIffAllCounted(b);
  }
}
