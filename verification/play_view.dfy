/** The solo-play setup screen: the chosen subjects, difficulty and puzzle
    count, and the start button that asks the selector for puzzles and opens
    a session in the store. */
module PlayView {
  import opened Common
  import Puzzles
  import GameStore

  /** `handleSubjectToggle`: remove every copy of a chosen subject, or append
      one that is not chosen. */
  function Toggled(chosen: seq<Subject>, s: Subject): (r: seq<Subject>)
    ensures s in chosen ==> s !in r && forall x :: x != s ==> (x in r <==> x in chosen)
    ensures s !in chosen ==> r == chosen + [s]
  {
    if s in chosen then Filter(chosen, (x: Subject) => x != s) else chosen + [s]
  }

  /** Toggling the same subject twice restores which subjects are chosen;
      starting from an unchosen subject it restores the very list. */
  lemma ToggleTwice(chosen: seq<Subject>, s: Subject)
    ensures forall x :: x in Toggled(Toggled(chosen, s), s) <==> x in chosen
    ensures s !in chosen ==> Toggled(Toggled(chosen, s), s) == chosen
  {
    if s !in chosen {
      FilterAppendDrops(chosen, s);
    }
  }

  /** Filtering out `s` from a list that ends in its only copy of `s`. */
  lemma {:induction false} FilterAppendDrops(chosen: seq<Subject>, s: Subject)
    requires s !in chosen
    ensures Filter(chosen + [s], (x: Subject) => x != s) == chosen
  {
    if chosen == [] {
      assert [s][1..] == [];
    } else {
      assert (chosen + [s])[1..] == chosen[1..] + [s];
      FilterAppendDrops(chosen[1..], s);
      assert chosen == [chosen[0]] + chosen[1..];
    }
  }

  /** A toggle keeps the chosen list free of repeats. */
  lemma ToggleKeepsDistinct(chosen: seq<Subject>, s: Subject)
    requires Distinct(chosen)
    ensures Distinct(Toggled(chosen, s))
  {
    if s in chosen {
      FilterKeepsDistinct(chosen, (x: Subject) => x != s);
    }
  }

  /** The first puzzle count offered for a difficulty level, if the level is listed. */
  function FirstCount(level: int): (c: Option<int>)
    ensures c.Some? <==> 1 <= level <= 4
    ensures c.Some? ==> 2 <= c.value <= 5
  {
    if level == 1 then Some(3)
    else if level == 2 then Some(4)
    else if level == 3 then Some(5)
    else if level == 4 then Some(2)
    else None
  }

  class Setup {
    var selectedSubjects: seq<Subject>
    var selectedDifficulty: int
    var puzzleCount: int

    ghost predicate Valid()
      reads this
    {
      Distinct(selectedSubjects)
    }

    constructor ()
      ensures Valid()
      ensures selectedSubjects == [Mathematics, Logic] && selectedDifficulty == 1 && puzzleCount == 3
    {
      selectedSubjects := [Mathematics, Logic];
      selectedDifficulty := 1;
      puzzleCount := 3;
    }

    method ToggleSubject(s: Subject)
      requires Valid()
      modifies this
      ensures Valid()
      ensures selectedSubjects == Toggled(old(selectedSubjects), s)
      ensures selectedDifficulty == old(selectedDifficulty) && puzzleCount == old(puzzleCount)
    {
      ToggleKeepsDistinct(selectedSubjects, s);
      selectedSubjects := Toggled(selectedSubjects, s);
    }

    /** `handleDifficultyChange(level)`: the count resets to the level's first
        offered count, and stays as it was for an unlisted level. */
    method ChangeDifficulty(level: int)
      requires Valid()
      modifies this
      ensures Valid()
      ensures selectedDifficulty == level
      ensures puzzleCount == (if FirstCount(level).Some? then FirstCount(level).value else old(puzzleCount))
      ensures selectedSubjects == old(selectedSubjects)
    {
      selectedDifficulty := level;
      var first := FirstCount(level);
      if first.Some? {
        puzzleCount := first.value;
      }
    }

    method SelectCount(count: int)
      requires Valid()
      modifies this
      ensures Valid()
      ensures puzzleCount == count
      ensures selectedSubjects == old(selectedSubjects) && selectedDifficulty == old(selectedDifficulty)
    {
      puzzleCount := count;
    }

    /** `handleStartGame()`: nothing without a subject; otherwise the selector's
        puzzles open a session. `shuffled` is the order the selector's random
        sort produced; `id` and `now` are the session id and start time. */
    method StartGame(store: GameStore.Store, catalog: seq<Puzzle>, shuffled: seq<Puzzle>, id: string, now: int)
      requires Valid() && store.Valid()
      requires multiset(shuffled) ==
        multiset(Puzzles.Candidates(catalog, selectedDifficulty, selectedSubjects))
      modifies store
      ensures store.Valid()
      ensures store.currentUser == old(store.currentUser) && store.users == old(store.users)
      ensures selectedSubjects == [] || store.currentUser.None? ==>
        store.currentSession == old(store.currentSession) && store.isPlaying == old(store.isPlaying)
      ensures selectedSubjects != [] && store.currentUser.Some? ==>
        && store.isPlaying
        && store.currentSession == Some(GameStore.Session(id, store.currentUser.value.id,
             Puzzles.AdaptivePuzzles(catalog, selectedDifficulty, selectedSubjects, puzzleCount, shuffled),
             0, now, 0, 0, 0, 0, false))
    {
      if |selectedSubjects| == 0 { return; }
      var puzzles := Puzzles.AdaptivePuzzles(catalog, selectedDifficulty, selectedSubjects, puzzleCount, shuffled);
      store.StartSession(puzzles, id, now);
    }
  }
}
