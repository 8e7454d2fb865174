/** The board the game works on: nine squares indexed 3 * row + col, each empty or
    holding a player's mark, and the index of the move that produced the board.
    The program keeps that index in a tenth array slot; here it is a field of its own,
    which is faithful because neither the winner check nor the click guard reads it. */
module Squares {

  datatype Cell = Empty | X | O

  datatype Option<T> = None | Some(value: T)

  /** An index of a playable square. */
  type Index = i: nat | i < 9

  /** The nine playable squares, row by row. */
  type Grid = s: seq<Cell> | |s| == 9
    witness [Empty, Empty, Empty, Empty, Empty, Empty, Empty, Empty, Empty]

  /** One history snapshot: the squares and the index of the last move (the tenth slot). */
  datatype Board = Board(cells: Grid, lastMove: Option<Index>)

  const EmptyGrid: Grid := [Empty, Empty, Empty, Empty, Empty, Empty, Empty, Empty, Empty]

  /** The board the game starts with: every slot null. */
  const EmptyBoard: Board := Board(EmptyGrid, None)

  /** The eight lines in the order the winner check scans them:
      rows, columns, then the anti-diagonal before the main diagonal. */
  const Lines: seq<(Index, Index, Index)> := [
    (0, 1, 2), (3, 4, 5), (6, 7, 8),
    (0, 3, 6), (1, 4, 7), (2, 5, 8),
    (2, 4, 6), (0, 4, 8)
  ]

  /** Line k holds three equal marks. */
  predicate Complete(s: Grid, k: nat)
    requires k < |Lines|
  {
    var (a, b, c) := Lines[k];
    s[a] != Empty && s[a] == s[b] && s[a] == s[c]
  }

  /** No playable square is empty. */
  predicate IsFull(s: Grid) {
    forall i: Index :: s[i] != Empty
  }

  /** The mark the player to move writes. */
  function MarkFor(xIsNext: bool): (m: Cell)
    ensures m != Empty
    ensures m == X <==> xIsNext
  {
    if xIsNext then X else O
  }

  /** How many squares of s hold c. */
  function Count(s: seq<Cell>, c: Cell): (n: nat)
    ensures n <= |s|
    ensures n == |s| <==> forall i :: 0 <= i < |s| ==> s[i] == c
  {
    if s == [] then 0 else (if s[0] == c then 1 else 0) + Count(s[1..], c)
  }

  /** Writing m over square i moves one square from the count of its old content
      to the count of m, and leaves every other count as it was. */
  lemma {:induction false} CountUpdate(s: seq<Cell>, i: nat, m: Cell, c: Cell)
    requires i < |s|
    ensures Count(s[i := m], c) ==
            Count(s, c) - (if s[i] == c then 1 else 0) + (if m == c then 1 else 0)
  {
    if i == 0 {
      assert s[i := m][1..] == s[1..];
    } else {
      CountUpdate(s[1..], i - 1, m, c);
      assert s[i := m][1..] == s[1..][i - 1 := m];
    }
  }

  /** A board is full exactly when it holds nine marks. */
  lemma FullIffNoEmpty(s: Grid)
    ensures IsFull(s) <==> Count(s, Empty) == 0
  {
    if Count(s, Empty) == 0 {
      forall i: Index ensures s[i] != Empty {
        if s[i] == Empty {
          CountUpdate(s, i, X, Empty);
        }
      }
    } else if IsFull(s) {
      NoneCounted(s, Empty);
    }
  }

  /** A value no square holds is counted zero times. */
  lemma {:induction false} NoneCounted(s: seq<Cell>, c: Cell)
    requires forall i :: 0 <= i < |s| ==> s[i] != c
    ensures Count(s, c) == 0
  {
    if s != [] {
      NoneCounted(s[1..], c);
    }
  }
}
