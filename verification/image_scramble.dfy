/** The image-scramble game. Each piece object carries an id, its correct
    position and its current position; the component copies only the array
    of pieces, so every swap writes `currentPosition` into the objects that the
    puzzle record shares. The current positions are therefore one array that
    all copies alias, written in place; ids and correct positions never change. */
module ImageScramble {
  import opened Common

  /** `ids.findIndex(x => x === id)`: the first index holding `id`, or -1. */
  function FindIndex(ids: seq<string>, id: string): (k: int)
    ensures k == -1 <==> id !in ids
    ensures k != -1 ==> 0 <= k < |ids| && ids[k] == id && forall j :: 0 <= j < k ==> ids[j] != id
  {
    if ids == [] then -1
    else if ids[0] == id then 0
    else
      var k := FindIndex(ids[1..], id);
      assert ids == [ids[0]] + ids[1..];
      if k == -1 then -1 else k + 1
  }

  /** The positions after exchanging the entries at `i` and `j`. */
  function Swapped(s: seq<int>, i: nat, j: nat): (r: seq<int>)
    requires i < |s| && j < |s|
    ensures |r| == |s| && r[i] == s[j] && r[j] == s[i]
    ensures forall k :: 0 <= k < |s| && k != i && k != j ==> r[k] == s[k]
    ensures multiset(r) == multiset(s)
  {
    s[i := s[j]][j := s[i]]
  }

  /** `checkCompletion`: every piece sits at its correct position. */
  predicate Solved(positions: seq<int>, correct: seq<int>)
  {
    |positions| == |correct| && forall k :: 0 <= k < |positions| ==> positions[k] == correct[k]
  }

  /** A layout that is a permutation of the correct positions stays one
      after any swap, and a swap of two different values moves a solved
      layout out of place. */
  lemma SwapKeepsPermutation(s: seq<int>, correct: seq<int>, i: nat, j: nat)
    requires i < |s| && j < |s| && multiset(s) == multiset(correct)
    ensures multiset(Swapped(s, i, j)) == multiset(correct)
    ensures Solved(s, correct) && s[i] != s[j] ==> !Solved(Swapped(s, i, j), correct)
  {
  }

  /** Swapping the same two entries twice restores the layout. */
  lemma SwapTwiceRestores(s: seq<int>, i: nat, j: nat)
    requires i < |s| && j < |s|
    ensures Swapped(Swapped(s, i, j), i, j) == s
  {
    var r := Swapped(Swapped(s, i, j), i, j);
    assert forall k :: 0 <= k < |s| ==> r[k] == s[k];
  }

  class Game {
    const ids: seq<string>
    const correct: seq<int>
    /** The `currentPosition` fields of the shared piece objects. */
    const positions: array<int>
    const startTime: int
    /** `None` is `null`; the empty id is falsy and counts as nothing selected too. */
    var selected: Option<string>
    var moves: int

    ghost predicate Valid()
      reads this
    {
      && positions.Length == |ids| == |correct|
      && (selected.Some? ==> selected.value in ids)
    }

    predicate NothingSelected()
      reads this
    {
      selected.None? || selected.value == ""
    }

    /** Mounting the component on the puzzle's pieces: the state shares the
        record's piece objects, here the `pieces` array. */
    constructor (ids: seq<string>, correct: seq<int>, pieces: array<int>, now: int)
      requires pieces.Length == |ids| == |correct|
      ensures Valid()
      ensures this.ids == ids && this.correct == correct && positions == pieces && startTime == now
      ensures selected.None? && moves == 0
    {
      this.ids := ids;
      this.correct := correct;
      positions := pieces;
      startTime := now;
      selected := None;
      moves := 0;
    }

    /** `handlePieceClick(id)` on a rendered piece: select it, deselect it, or
        swap it with the selected piece. */
    method Click(showResult: bool, pieceId: string)
      requires Valid() && pieceId in ids
      modifies this, positions
      ensures Valid()
      ensures showResult ==>
        selected == old(selected) && moves == old(moves) && positions[..] == old(positions[..])
      ensures !showResult && old(NothingSelected()) ==>
        selected == Some(pieceId) && moves == old(moves) && positions[..] == old(positions[..])
      ensures !showResult && !old(NothingSelected()) && old(selected) == Some(pieceId) ==>
        selected.None? && moves == old(moves) && positions[..] == old(positions[..])
      ensures !showResult && !old(NothingSelected()) && old(selected) != Some(pieceId) ==>
        && positions[..] == Swapped(old(positions[..]),
             FindIndex(ids, old(selected).value), FindIndex(ids, pieceId))
        && selected.None? && moves == old(moves) + 1
    {
      if showResult { return; }
      if NothingSelected() {
        selected := Some(pieceId);
      } else if selected == Some(pieceId) {
        selected := None;
      } else {
        var piece1Index := FindIndex(ids, selected.value);
        var piece2Index := FindIndex(ids, pieceId);
        var temp := positions[piece1Index];
        positions[piece1Index] := positions[piece2Index];
        positions[piece2Index] := temp;
        selected := None;
        moves := moves + 1;
      }
    }

    /** `shufflePieces()`: the Fisher-Yates loop, with each random index an
        arbitrary choice in range; it counts as one move. */
    method Shuffle()
      requires Valid()
      modifies this, positions
      ensures Valid()
      ensures multiset(positions[..]) == multiset(old(positions[..]))
      ensures selected == old(selected) && moves == old(moves) + 1
    {
      var i := positions.Length - 1;
      while i > 0
        invariant -1 <= i < positions.Length
        invariant multiset(positions[..]) == multiset(old(positions[..]))
        modifies positions
        decreases i
      {
        var j :| 0 <= j <= i;
        ghost var before := positions[..];
        var temp := positions[i];
        positions[i] := positions[j];
        positions[j] := temp;
        assert positions[..] == Swapped(before, i, j);
        i := i - 1;
      }
      moves := moves + 1;
    }

    /** `resetPuzzle()`: clears the selection and the move count. The pieces
        it restores are the shared objects, so the layout stays as it is. */
    method Reset()
      requires Valid()
      modifies this
      ensures Valid()
      ensures selected.None? && moves == 0
      ensures positions[..] == old(positions[..])
    {
      selected := None;
      moves := 0;
    }

    predicate CheckCompletion()
      reads this, positions
      ensures CheckCompletion() <==> positions[..] == correct
    {
      Solved(positions[..], correct)
    }

    /** `handleSubmit(now)`. */
    method Submit(now: int) returns (answer: Answer, timeSpent: int)
      requires Valid()
      ensures answer == Str("complete") <==> Solved(positions[..], correct)
      ensures answer == Str("incomplete") <==> !Solved(positions[..], correct)
      ensures 1000 * timeSpent <= now - startTime < 1000 * (timeSpent + 1)
    {
      answer := if CheckCompletion() then Str("complete") else Str("incomplete");
      timeSpent := (now - startTime) / 1000;
    }
  }
}
