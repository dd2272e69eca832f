/** The crossword game's working state: the player's grid, the word and clue
    currently selected, and the words already placed. A row of the player's
    grid is a JavaScript array, which an out-of-range write extends or gives
    an extra property; it is modelled as a map from column to cell, so a
    column absent from the map reads as `undefined`. */
module Crossword {
  import opened Common

  datatype Direction = Across | Down

  datatype Clue = Clue(number: int, answer: string, direction: Direction, startRow: int, startCol: int)

  /** A cell of the player's grid: `null` (blocked), `''` (open, empty) or a letter. */
  datatype Cell = Blocked | Blank | Letter(c: char)

  type Row = map<int, Cell>

  /** Row and column of the `i`-th letter of a clue. */
  function RowOf(clue: Clue, i: int): int
  {
    if clue.direction == Down then clue.startRow + i else clue.startRow
  }

  function ColOf(clue: Clue, i: int): int
  {
    if clue.direction == Across then clue.startCol + i else clue.startCol
  }

  /** `userGrid[row]?.[col]`: `None` stands for `undefined`. */
  function CellAt(g: seq<Row>, r: int, c: int): (o: Option<Cell>)
    ensures o.Some? <==> 0 <= r < |g| && c in g[r]
  {
    if 0 <= r < |g| && c in g[r] then Some(g[r][c]) else None
  }

  /** The initial working grid: blocked puzzle cells stay blocked, open ones start empty. */
  function InitialGrid(puzzle: seq<seq<Option<char>>>): (g: seq<Row>)
    ensures |g| == |puzzle|
    ensures forall r, c :: CellAt(g, r, c) == (
              if 0 <= r < |puzzle| && 0 <= c < |puzzle[r]| then
                Some(if puzzle[r][c].None? then Blocked else Blank)
              else None)
  {
    seq(|puzzle|, r requires 0 <= r < |puzzle| =>
      map c | 0 <= c < |puzzle[r]| :: if puzzle[r][c].None? then Blocked else Blank)
  }

  /** `clues.find(c => c.number === n)`. */
  function FindClue(clues: seq<Clue>, n: int): (o: Option<Clue>)
    ensures o.None? <==> forall k :: 0 <= k < |clues| ==> clues[k].number != n
    ensures o.Some? ==> o.value.number == n && exists k :: (
              0 <= k < |clues| && clues[k] == o.value
              && forall j :: 0 <= j < k ==> clues[j].number != n)
  {
    if clues == [] then None
    else if clues[0].number == n then Some(clues[0])
    else
      var o := FindClue(clues[1..], n);
      if o.Some? then
        var k :| 0 <= k < |clues[1..]| && clues[1..][k] == o.value
          && o.value.number == n && forall j :: 0 <= j < k ==> clues[1..][j].number != n;
        assert clues[k + 1] == o.value;
        o
      else o
  }

  /** One step of the placement loop: write letter `i` unless the row is
      missing or the cell is `null`. An absent column is `undefined`, which is
      not `null`, so the write goes through and adds the column. */
  function WriteLetter(g: seq<Row>, clue: Clue, i: nat): seq<Row>
    requires i < |clue.answer|
  {
    var r, c := RowOf(clue, i), ColOf(clue, i);
    if 0 <= r < |g| && CellAt(g, r, c) != Some(Blocked)
    then g[r := g[r][c := Letter(clue.answer[i])]]
    else g
  }

  /** The grid after the first `n` iterations of the placement loop. */
  function PlacedUpTo(g: seq<Row>, clue: Clue, n: nat): seq<Row>
    requires n <= |clue.answer|
  {
    if n == 0 then g else WriteLetter(PlacedUpTo(g, clue, n - 1), clue, n - 1)
  }

  function Placed(g: seq<Row>, clue: Clue): seq<Row>
  {
    PlacedUpTo(g, clue, |clue.answer|)
  }

  /** The loop index that visits cell (r, c) of a clue's line, if any. */
  function Offset(clue: Clue, r: int, c: int): (o: Option<nat>)
    ensures o.Some? ==> o.value < |clue.answer| && RowOf(clue, o.value) == r && ColOf(clue, o.value) == c
    ensures o.None? ==> forall i :: 0 <= i < |clue.answer| ==> RowOf(clue, i) != r || ColOf(clue, i) != c
  {
    if clue.direction == Across then
      if r == clue.startRow && 0 <= c - clue.startCol < |clue.answer| then Some(c - clue.startCol) else None
    else
      if c == clue.startCol && 0 <= r - clue.startRow < |clue.answer| then Some(r - clue.startRow) else None
  }

  /** After `n` iterations, a cell holds the clue's letter exactly when the
      loop has visited it, its row exists and it was not blocked; every other
      cell, present or absent, is as before. */
  lemma {:induction false} PlacedUpToCell(g: seq<Row>, clue: Clue, n: nat, r: int, c: int)
    requires n <= |clue.answer|
    ensures |PlacedUpTo(g, clue, n)| == |g|
    ensures CellAt(PlacedUpTo(g, clue, n), r, c) ==
      var o := Offset(clue, r, c);
      if o.Some? && o.value < n && 0 <= r < |g| && CellAt(g, r, c) != Some(Blocked)
      then Some(Letter(clue.answer[o.value]))
      else CellAt(g, r, c)
  {
    if n > 0 {
      PlacedUpToCell(g, clue, n - 1, r, c);
      var prev := PlacedUpTo(g, clue, n - 1);
      var rr, cc := RowOf(clue, n - 1), ColOf(clue, n - 1);
      PlacedUpToCell(g, clue, n - 1, rr, cc);
      var o := Offset(clue, rr, cc);
      assert o == Some(n - 1);
    }
  }

  /** The whole placement, cell by cell. */
  lemma PlacedCell(g: seq<Row>, clue: Clue, r: int, c: int)
    ensures |Placed(g, clue)| == |g|
    ensures CellAt(Placed(g, clue), r, c) ==
      var o := Offset(clue, r, c);
      if o.Some? && 0 <= r < |g| && CellAt(g, r, c) != Some(Blocked)
      then Some(Letter(clue.answer[o.value]))
      else CellAt(g, r, c)
  {
    PlacedUpToCell(g, clue, |clue.answer|, r, c);
  }

  /** Every cell of the clue's line exists and is open. */
  predicate Open(g: seq<Row>, clue: Clue)
  {
    forall i :: 0 <= i < |clue.answer| ==>
      CellAt(g, RowOf(clue, i), ColOf(clue, i)).Some?
      && CellAt(g, RowOf(clue, i), ColOf(clue, i)) != Some(Blocked)
  }

  /** The clue's line spells its answer: the inner loop of `checkCompletion`. */
  predicate Satisfied(g: seq<Row>, clue: Clue)
  {
    forall i :: 0 <= i < |clue.answer| ==>
      CellAt(g, RowOf(clue, i), ColOf(clue, i)) == Some(Letter(clue.answer[i]))
  }

  /** `checkCompletion`: every clue is spelled out; a missing row or column
      reads as `undefined` and fails. */
  predicate CheckCompletion(g: seq<Row>, clues: seq<Clue>)
    ensures clues == [] ==> CheckCompletion(g, clues)
    ensures CheckCompletion(g, clues) ==> forall clue :: clue in clues ==> Open(g, clue)
  {
    forall clue :: clue in clues ==> Satisfied(g, clue)
  }

  /** Two clues agree on every cell they share. */
  predicate Agree(a: Clue, b: Clue)
  {
    forall i, j :: 0 <= i < |a.answer| && 0 <= j < |b.answer|
      && RowOf(a, i) == RowOf(b, j) && ColOf(a, i) == ColOf(b, j)
      ==> a.answer[i] == b.answer[j]
  }

  /** Placing a clue on an open line spells it, keeps every open line open,
      and keeps every clue that agrees with it spelled out. */
  lemma PlaceEffects(g: seq<Row>, clue: Clue)
    ensures Open(g, clue) ==> Satisfied(Placed(g, clue), clue)
    ensures forall other :: Open(g, other) ==> Open(Placed(g, clue), other)
    ensures forall other :: Satisfied(g, other) && Agree(clue, other) ==> Satisfied(Placed(g, clue), other)
  {
    var p := Placed(g, clue);
    if Open(g, clue) {
      forall i | 0 <= i < |clue.answer|
        ensures CellAt(p, RowOf(clue, i), ColOf(clue, i)) == Some(Letter(clue.answer[i]))
      {
        PlacedCell(g, clue, RowOf(clue, i), ColOf(clue, i));
      }
    }
    forall other | Open(g, other) ensures Open(p, other) {
      forall i | 0 <= i < |other.answer|
        ensures CellAt(p, RowOf(other, i), ColOf(other, i)).Some?
        ensures CellAt(p, RowOf(other, i), ColOf(other, i)) != Some(Blocked)
      {
        PlacedCell(g, clue, RowOf(other, i), ColOf(other, i));
      }
    }
    forall other | Satisfied(g, other) && Agree(clue, other) ensures Satisfied(p, other) {
      forall j | 0 <= j < |other.answer|
        ensures CellAt(p, RowOf(other, j), ColOf(other, j)) == Some(Letter(other.answer[j]))
      {
        PlacedCell(g, clue, RowOf(other, j), ColOf(other, j));
      }
    }
  }

  /** Placing the clues one after the other, in the order the player chose. */
  function PlaceAll(g: seq<Row>, order: seq<Clue>): seq<Row>
  {
    if order == [] then g else Placed(PlaceAll(g, order[..|order| - 1]), order[|order| - 1])
  }

  /** Placing every clue of a puzzle whose lines are open and whose crossings
      agree completes it, in whatever order the clues are placed. */
  lemma {:induction false} PlaceAllCompletes(g: seq<Row>, order: seq<Clue>)
    requires forall clue :: clue in order ==> Open(g, clue)
    requires forall a, b :: a in order && b in order ==> Agree(a, b)
    ensures CheckCompletion(PlaceAll(g, order), order)
    ensures forall clue :: Open(g, clue) ==> Open(PlaceAll(g, order), clue)
  {
    if order != [] {
      var init := order[..|order| - 1];
      var last := order[|order| - 1];
      PlaceAllCompletes(g, init);
      var before := PlaceAll(g, init);
      PlaceEffects(before, last);
      forall clue | clue in order ensures Satisfied(PlaceAll(g, order), clue) {
        if clue != last {
          assert clue in init;
        }
      }
    }
  }

  /** The fresh grid of a puzzle with a non-empty clue is not complete: its
      open cells are empty. */
  lemma InitialIncomplete(puzzle: seq<seq<Option<char>>>, clues: seq<Clue>)
    requires exists clue :: clue in clues && clue.answer != []
    ensures !CheckCompletion(InitialGrid(puzzle), clues)
  {
    var clue :| clue in clues && clue.answer != [];
    assert CellAt(InitialGrid(puzzle), RowOf(clue, 0), ColOf(clue, 0)) != Some(Letter(clue.answer[0]));
  }

  /** A clue fits the puzzle grid: every cell of its line exists and is not `null`. */
  predicate Fits(puzzle: seq<seq<Option<char>>>, clue: Clue)
  {
    forall i :: 0 <= i < |clue.answer| ==>
      0 <= RowOf(clue, i) < |puzzle| && 0 <= ColOf(clue, i) < |puzzle[RowOf(clue, i)]|
      && puzzle[RowOf(clue, i)][ColOf(clue, i)].Some?
  }

  lemma FitsOpen(puzzle: seq<seq<Option<char>>>, clue: Clue)
    requires Fits(puzzle, clue)
    ensures Open(InitialGrid(puzzle), clue)
  {
  }

  /** The crossword-002 fixture ("Simple Animals"). */
  const AnimalsGrid: seq<seq<Option<char>>> := [
    [None, None, Some('C'), Some('A'), Some('T')],
    [None, None, None, None, None],
    [Some('D'), Some('O'), Some('G'), None, None],
    [None, None, None, None, None],
    [None, None, None, None, None]]

  const AnimalsClues: seq<Clue> := [Clue(1, "CAT", Across, 0, 2), Clue(2, "DOG", Across, 2, 0)]

  /** Both words of the fixture lie on open cells and agree where they cross. */
  lemma AnimalsPlaceable()
    ensures forall clue :: clue in AnimalsClues ==> Open(InitialGrid(AnimalsGrid), clue)
    ensures forall a, b :: a in AnimalsClues && b in AnimalsClues ==> Agree(a, b)
  {
    var cat, dog := AnimalsClues[0], AnimalsClues[1];
    FitsOpen(AnimalsGrid, cat);
    FitsOpen(AnimalsGrid, dog);
    assert Agree(cat, dog) && Agree(dog, cat) && Agree(cat, cat) && Agree(dog, dog);
  }

  /** Placing both words of the fixture, in either order, completes it. */
  lemma AnimalsSolvable()
    ensures CheckCompletion(PlaceAll(InitialGrid(AnimalsGrid), AnimalsClues), AnimalsClues)
    ensures CheckCompletion(PlaceAll(InitialGrid(AnimalsGrid), [AnimalsClues[1], AnimalsClues[0]]), AnimalsClues)
    ensures !CheckCompletion(InitialGrid(AnimalsGrid), AnimalsClues)
  {
    var g := InitialGrid(AnimalsGrid);
    var reversed := [AnimalsClues[1], AnimalsClues[0]];
    AnimalsPlaceable();
    PlaceAllCompletes(g, AnimalsClues);
    assert forall clue :: clue in reversed <==> clue in AnimalsClues;
    PlaceAllCompletes(g, reversed);
    InitialIncomplete(AnimalsGrid, AnimalsClues);
  }

  /** The component's state for one puzzle. `selectedWord == ""` means no
      word is selected, as the source tests it by truthiness. */
  class Game {
    const clues: seq<Clue>
    const startTime: int
    var userGrid: seq<Row>
    var selectedWord: string
    var selectedClue: Option<int>
    var usedWords: seq<string>

    /** Mounting the component; `now` stands for `Date.now()`. */
    constructor (grid: seq<seq<Option<char>>>, clues: seq<Clue>, now: int)
      ensures this.clues == clues && startTime == now
      ensures userGrid == InitialGrid(grid)
      ensures selectedWord == "" && selectedClue.None? && usedWords == []
    {
      this.clues := clues;
      startTime := now;
      userGrid := InitialGrid(grid);
      selectedWord := "";
      selectedClue := None;
      usedWords := [];
    }

    /** `handleWordSelect(word)`: a used word cannot be selected again. */
    method SelectWord(word: string)
      modifies this
      ensures word in old(usedWords) ==> selectedWord == old(selectedWord)
      ensures word !in old(usedWords) ==> selectedWord == word
      ensures userGrid == old(userGrid) && selectedClue == old(selectedClue) && usedWords == old(usedWords)
    {
      if word in usedWords { return; }
      selectedWord := word;
    }

    /** `handleClueSelect(n)`. */
    method SelectClue(n: int)
      modifies this
      ensures selectedClue == Some(n)
      ensures userGrid == old(userGrid) && selectedWord == old(selectedWord) && usedWords == old(usedWords)
    {
      selectedClue := Some(n);
    }

    /** `handlePlaceWord()`: writes the selected word along the selected clue's
        line when it is that clue's answer, and does nothing otherwise. */
    method PlaceWord()
      modifies this
      ensures
        var o := if old(selectedClue).Some? then FindClue(clues, old(selectedClue).value) else None;
        if old(selectedWord) == "" || o.None? || o.value.answer != old(selectedWord) then
          userGrid == old(userGrid) && selectedWord == old(selectedWord)
          && selectedClue == old(selectedClue) && usedWords == old(usedWords)
        else
          userGrid == Placed(old(userGrid), o.value)
          && usedWords == old(usedWords) + [old(selectedWord)]
          && selectedWord == "" && selectedClue.None?
    {
      if selectedWord == "" || selectedClue.None? { return; }
      var o := FindClue(clues, selectedClue.value);
      if o.None? || o.value.answer != selectedWord { return; }
      var clue := o.value;
      ghost var start := userGrid;
      var grid := userGrid;
      var i := 0;
      while i < |clue.answer|
        invariant 0 <= i <= |clue.answer|
        invariant grid == PlacedUpTo(start, clue, i)
      {
        var r := RowOf(clue, i);
        var c := ColOf(clue, i);
        if 0 <= r < |grid| && (c !in grid[r] || grid[r][c] != Blocked) {
          grid := grid[r := grid[r][c := Letter(clue.answer[i])]];
        }
        i := i + 1;
      }
      userGrid := grid;
      usedWords := usedWords + [selectedWord];
      selectedWord := "";
      selectedClue := None;
    }

    /** `handleSubmit(now)`: the answer string and the whole seconds since mounting. */
    method Submit(now: int) returns (answer: Answer, timeSpent: int)
      ensures answer == Str("complete") <==> CheckCompletion(userGrid, clues)
      ensures answer == Str("incomplete") <==> !CheckCompletion(userGrid, clues)
      ensures 1000 * timeSpent <= now - startTime < 1000 * (timeSpent + 1)
    {
      answer := if CheckCompletion(userGrid, clues) then Str("complete") else Str("incomplete");
      timeSpent := (now - startTime) / 1000;
    }
  }
}
