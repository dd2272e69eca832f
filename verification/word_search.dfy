/** The word-search game: dragging a straight line of cells across the letter
    grid, matching the letters read forwards or backwards against the word
    list, and the completion test. Grid cells are single letters. */
module WordSearch {
  import opened Common

  datatype Pos = Pos(row: int, col: int)

  /** `b === a ? 0 : (b > a ? 1 : -1)`. */
  function StepToward(a: int, b: int): (s: int)
    ensures s == 0 <==> a == b
    ensures s == 1 <==> b > a
    ensures s == -1 <==> b < a
  {
    if b == a then 0 else if b > a then 1 else -1
  }

  function Abs(x: int): nat { if x < 0 then -x else x }

  /** The test of `handleMouseEnter`: same row, same column, or a diagonal
      whose row and column distances are equal. */
  predicate StraightLine(start: Pos, end: Pos)
  {
    end.row - start.row == 0 || end.col - start.col == 0
    || Abs(end.row - start.row) == Abs(end.col - start.col)
  }

  /** `a + k * step` for a step in {-1, 0, 1}. */
  function Advance(a: int, step: int, k: nat): int
  {
    if step == 0 then a else if step > 0 then a + k else a - k
  }

  /** The cells `getLineCells(start, end)` pushes: `k` steps from `start`,
      for `k` from 0 up to the larger of the two distances. */
  function Line(start: Pos, end: Pos): (cells: seq<Pos>)
    requires StraightLine(start, end)
    ensures |cells| == Max(Abs(end.row - start.row), Abs(end.col - start.col)) + 1
    ensures cells[0] == start && cells[|cells| - 1] == end
    ensures forall k :: 0 <= k < |cells| - 1 ==>
      cells[k + 1].row - cells[k].row == StepToward(start.row, end.row)
      && cells[k + 1].col - cells[k].col == StepToward(start.col, end.col)
    ensures forall k :: 0 <= k < |cells| ==>
      Min(start.row, end.row) <= cells[k].row <= Max(start.row, end.row)
      && Min(start.col, end.col) <= cells[k].col <= Max(start.col, end.col)
    ensures forall k :: 0 <= k < |cells| - 1 ==> cells[k] != end
  {
    var n := Max(Abs(end.row - start.row), Abs(end.col - start.col));
    var cells := Steps(start, end, n);
    forall k | 0 <= k < |cells|
      ensures Min(start.row, end.row) <= cells[k].row <= Max(start.row, end.row)
      ensures Min(start.col, end.col) <= cells[k].col <= Max(start.col, end.col)
      ensures k == n ==> cells[k] == end
      ensures k < n ==> cells[k] != end
      ensures k < n ==> cells[k + 1].row - cells[k].row == StepToward(start.row, end.row)
      ensures k < n ==> cells[k + 1].col - cells[k].col == StepToward(start.col, end.col)
    {
      LinePosFacts(start, end, n, k);
    }
    cells
  }

  /** The cells `0..n` steps from `start` towards `end`. */
  function Steps(start: Pos, end: Pos, n: nat): (cells: seq<Pos>)
    ensures |cells| == n + 1 && forall k :: 0 <= k <= n ==> cells[k] == LinePos(start, end, k)
  {
    seq(n + 1, k requires 0 <= k <= n => LinePos(start, end, k))
  }

  /** What one cell of a straight line satisfies: inside the endpoints' box,
      equal to `end` exactly at the last index, one fixed step from the next. */
  predicate LineStep(start: Pos, end: Pos, n: nat, k: nat)
  {
    var p := LinePos(start, end, k);
    && Min(start.row, end.row) <= p.row <= Max(start.row, end.row)
    && Min(start.col, end.col) <= p.col <= Max(start.col, end.col)
    && (p == end <==> k == n)
    && (k < n ==> LinePos(start, end, k + 1).row - p.row == StepToward(start.row, end.row)
                  && LinePos(start, end, k + 1).col - p.col == StepToward(start.col, end.col))
  }

  lemma LinePosFacts(start: Pos, end: Pos, n: nat, k: nat)
    requires StraightLine(start, end) && n == Max(Abs(end.row - start.row), Abs(end.col - start.col))
    requires k <= n
    ensures LineStep(start, end, n, k)
  {
    assert Abs(end.row - start.row) == 0 || Abs(end.row - start.row) == n;
    assert Abs(end.col - start.col) == 0 || Abs(end.col - start.col) == n;
    AdvanceFacts(start.row, end.row, n, k);
    AdvanceFacts(start.col, end.col, n, k);
  }

  /** The cell `k` steps from `start` towards `end`. */
  function LinePos(start: Pos, end: Pos, k: nat): Pos
  {
    Pos(Advance(start.row, StepToward(start.row, end.row), k), Advance(start.col, StepToward(start.col, end.col), k))
  }

  /** One coordinate of a straight line: its distance is 0 or the line's
      length `n`, so `k` steps stay between the endpoints, reach the far one
      exactly at `n`, and each step moves by the fixed step. */
  lemma AdvanceFacts(a: int, b: int, n: nat, k: nat)
    requires Abs(b - a) == 0 || Abs(b - a) == n
    requires k <= n
    ensures Min(a, b) <= Advance(a, StepToward(a, b), k) <= Max(a, b)
    ensures k == n ==> Advance(a, StepToward(a, b), k) == b
    ensures k < n && Abs(b - a) == n ==> Advance(a, StepToward(a, b), k) != b
    ensures k < n ==> Advance(a, StepToward(a, b), k + 1) - Advance(a, StepToward(a, b), k) == StepToward(a, b)
  {
  }

  /** `getLineCells`: pushes the current cell, stops at `end`, otherwise
      steps towards it. Only straight lines reach it, and they reach `end`. */
  method LineCells(start: Pos, end: Pos) returns (cells: seq<Pos>)
    requires StraightLine(start, end)
    ensures cells == Line(start, end)
  {
    var rowStep := StepToward(start.row, end.row);
    var colStep := StepToward(start.col, end.col);
    var currentRow := start.row;
    var currentCol := start.col;
    ghost var line := Line(start, end);
    cells := [];
    while true
      invariant |cells| < |line|
      invariant cells == line[..|cells|]
      invariant Pos(currentRow, currentCol) == line[|cells|]
      decreases |line| - |cells|
    {
      cells := cells + [Pos(currentRow, currentCol)];
      if currentRow == end.row && currentCol == end.col {
        break;
      }
      currentRow := currentRow + rowStep;
      currentCol := currentCol + colStep;
    }
  }

  /** `puzzle.grid[row][col]` joined: a column past the end of its row is
      `undefined`, which `join` turns into the empty string. */
  function LetterAt(grid: seq<seq<char>>, p: Pos): string
    requires 0 <= p.row < |grid|
  {
    if 0 <= p.col < |grid[p.row]| then [grid[p.row][p.col]] else ""
  }

  predicate RowsInRange(grid: seq<seq<char>>, cells: seq<Pos>)
  {
    forall k :: 0 <= k < |cells| ==> 0 <= cells[k].row < |grid|
  }

  /** Every cell lies inside the grid, row and column. */
  predicate CellsOnGrid(grid: seq<seq<char>>, cells: seq<Pos>)
  {
    forall k :: 0 <= k < |cells| ==> 0 <= cells[k].row < |grid| && 0 <= cells[k].col < |grid[cells[k].row]|
  }

  /** The selected letters, in selection order: one letter per cell when
      every cell is on the grid, and a cell past the end of its row adds none. */
  function Spell(grid: seq<seq<char>>, cells: seq<Pos>): (w: string)
    requires RowsInRange(grid, cells)
    ensures |w| <= |cells|
    ensures CellsOnGrid(grid, cells) ==>
      |w| == |cells| && forall k :: 0 <= k < |cells| ==> w[k] == grid[cells[k].row][cells[k].col]
  {
    if cells == [] then ""
    else
      var init := cells[..|cells| - 1];
      assert CellsOnGrid(grid, cells) ==> CellsOnGrid(grid, init);
      Spell(grid, init) + LetterAt(grid, cells[|cells| - 1])
  }

  function Reverse(s: string): (r: string)
    ensures |r| == |s|
    ensures forall i :: 0 <= i < |s| ==> r[i] == s[|s| - 1 - i]
  {
    if s == [] then [] else Reverse(s[1..]) + [s[0]]
  }

  lemma ReverseInvolution(s: string)
    ensures Reverse(Reverse(s)) == s
  {
    assert Reverse(Reverse(s)) == s by {
      forall i | 0 <= i < |s| ensures Reverse(Reverse(s))[i] == s[i] { }
    }
  }

  /** `words.find(w => w === word || w === reverseWord)`. */
  function FirstMatch(words: seq<string>, word: string, reverseWord: string): (o: Option<string>)
    ensures o.None? <==> forall k :: 0 <= k < |words| ==> words[k] != word && words[k] != reverseWord
    ensures o.Some? ==> (o.value == word || o.value == reverseWord) && exists k :: (
              0 <= k < |words| && words[k] == o.value
              && forall j :: 0 <= j < k ==> words[j] != word && words[j] != reverseWord)
  {
    if words == [] then None
    else if words[0] == word || words[0] == reverseWord then Some(words[0])
    else
      var o := FirstMatch(words[1..], word, reverseWord);
      if o.Some? then
        var k :| 0 <= k < |words[1..]| && words[1..][k] == o.value
          && forall j :: 0 <= j < k ==> words[1..][j] != word && words[1..][j] != reverseWord;
        assert words[k + 1] == o.value;
        o
      else o
  }

  /** In a list without repeats, a word listed after its own reversal is
      never matched: any selection that spells it either way also spells the
      earlier word, which `find` returns first. With the list
      `["DOG", "GOD"]`, "GOD" is never found. */
  lemma ReversedLaterWordShadowed(words: seq<string>, i: nat, j: nat, selection: string)
    requires Distinct(words)
    requires i < j < |words| && words[j] == Reverse(words[i])
    ensures FirstMatch(words, selection, Reverse(selection)) != Some(words[j])
  {
    var rev := Reverse(selection);
    var o := FirstMatch(words, selection, rev);
    if o == Some(words[j]) {
      assert words[i] == selection || words[i] == rev by {
        ReverseInvolution(words[i]);
        ReverseInvolution(selection);
        if words[j] == selection {
          assert words[i] == Reverse(Reverse(words[i])) == Reverse(selection);
        } else {
          assert words[i] == Reverse(Reverse(words[i])) == Reverse(rev);
        }
      }
      assert false;
    }
  }

  lemma DistinctCard(s: seq<string>)
    requires Distinct(s)
    ensures |set x | x in s| == |s|
  {
    if s != [] {
      var t := s[..|s| - 1];
      DistinctCard(t);
      assert (set x | x in s) == (set x | x in t) + {s[|s| - 1]};
      assert s[|s| - 1] !in t;
    }
  }

  /** The submit test counts found words. With a duplicate-free word list,
      the count reaches the list's length exactly when every word is found. */
  lemma {:induction false} CompleteIffAllFound(found: seq<string>, words: seq<string>)
    requires Distinct(found) && Distinct(words)
    requires forall w :: w in found ==> w in words
    ensures |found| == |words| <==> forall w :: w in words ==> w in found
  {
    var F, W := set x | x in found, set x | x in words;
    DistinctCard(found);
    DistinctCard(words);
    assert F <= W;
    if |found| == |words| {
      assert W == F + (W - F) && F !! (W - F);
      assert |W - F| == 0;
      forall w | w in words ensures w in found {
        assert w in W;
      }
    }
    if forall w :: w in words ==> w in found {
      assert W <= F;
      assert F == W;
      assert |found| == |F| == |W| == |words|;
    }
  }

  class Game {
    const grid: seq<seq<char>>
    const words: seq<string>
    const startTime: int
    var foundWords: seq<string>
    var selectedCells: seq<Pos>
    var isSelecting: bool

    /** Found words come from the list and are never repeated; every selected
        cell lies on a row of the grid. */
    ghost predicate Valid()
      reads this
    {
      && (forall w :: w in foundWords ==> w in words)
      && Distinct(foundWords)
      && RowsInRange(grid, selectedCells)
    }

    predicate OnGrid(p: Pos)
    {
      0 <= p.row < |grid| && 0 <= p.col < |grid[p.row]|
    }

    constructor (grid: seq<seq<char>>, words: seq<string>, now: int)
      ensures Valid()
      ensures this.grid == grid && this.words == words && startTime == now
      ensures foundWords == [] && selectedCells == [] && !isSelecting
    {
      this.grid := grid;
      this.words := words;
      startTime := now;
      foundWords := [];
      selectedCells := [];
      isSelecting := false;
    }

    /** `handleMouseDown(row, col)` on a rendered cell. */
    method MouseDown(p: Pos)
      requires Valid() && OnGrid(p)
      modifies this
      ensures Valid()
      ensures isSelecting && selectedCells == [p] && foundWords == old(foundWords)
    {
      isSelecting := true;
      selectedCells := [p];
    }

    /** `handleMouseEnter(row, col)` on a rendered cell: the selection becomes
        the line from its first cell when the new cell is in line with it. */
    method MouseEnter(p: Pos)
      requires Valid() && OnGrid(p)
      modifies this
      ensures Valid()
      ensures
        if old(isSelecting) && old(selectedCells) != [] && StraightLine(old(selectedCells)[0], p)
        then selectedCells == Line(old(selectedCells)[0], p)
        else selectedCells == old(selectedCells)
      ensures isSelecting == old(isSelecting) && foundWords == old(foundWords)
    {
      if !isSelecting { return; }
      if selectedCells == [] { return; }
      var start := selectedCells[0];
      if StraightLine(start, p) {
        var cells := LineCells(start, p);
        selectedCells := cells;
      }
    }

    /** The word `checkForWord` would add, if any: the first listed word equal
        to the selection read either way, unless it is already found or empty. */
    function NewWord(cells: seq<Pos>): (o: Option<string>)
      requires RowsInRange(grid, cells)
      reads this
      ensures o.Some? ==> o.value in words && o.value !in foundWords && o.value != ""
    {
      var word := Spell(grid, cells);
      var found := FirstMatch(words, word, Reverse(word));
      if found.Some? && found.value != "" && found.value !in foundWords then found else None
    }

    /** `handleMouseUp()`: a selection of two or more cells is checked, and the
        selection ends either way. */
    method MouseUp()
      requires Valid()
      modifies this
      ensures Valid()
      ensures
        var o := if |old(selectedCells)| > 1 then old(NewWord(selectedCells)) else None;
        foundWords == old(foundWords) + (if o.Some? then [o.value] else [])
      ensures !isSelecting && selectedCells == []
    {
      if |selectedCells| > 1 {
        var o := NewWord(selectedCells);
        if o.Some? {
          foundWords := foundWords + [o.value];
        }
      }
      isSelecting := false;
      selectedCells := [];
    }

    /** `handleSubmit(now)`: complete when as many words are found as listed. */
    method Submit(now: int) returns (answer: Answer, timeSpent: int)
      requires Valid()
      ensures answer == Str("complete") <==> |foundWords| == |words|
      ensures answer == Str("incomplete") <==> |foundWords| != |words|
      ensures Distinct(words) ==>
        (answer == Str("complete") <==> forall w :: w in words ==> w in foundWords)
      ensures 1000 * timeSpent <= now - startTime < 1000 * (timeSpent + 1)
    {
      answer := if |foundWords| == |words| then Str("complete") else Str("incomplete");
      timeSpent := (now - startTime) / 1000;
      if Distinct(words) {
        CompleteIffAllFound(foundWords, words);
      }
    }
  }
}
