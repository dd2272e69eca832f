/** The memory-card game: turning cards face up two at a time, the effect that
    resolves a pair once two are up, the delayed flip-back of a mismatched
    pair, completion and reset. Card ids are distinct in a puzzle. */
module MemoryCards {
  import opened Common

  /** A card of the puzzle record. */
  datatype PuzzleCard = PuzzleCard(id: string, content: string, matched: bool)

  /** A card of the component's state: the record plus its `flipped` flag. */
  datatype Card = Card(id: string, content: string, matched: bool, flipped: bool)

  predicate DistinctIds(cards: seq<PuzzleCard>)
  {
    forall i, j :: 0 <= i < j < |cards| ==> cards[i].id != cards[j].id
  }

  function Ids(cards: seq<Card>): (ids: seq<string>)
    ensures |ids| == |cards| && forall i :: 0 <= i < |cards| ==> ids[i] == cards[i].id
  {
    seq(|cards|, i requires 0 <= i < |cards| => cards[i].id)
  }

  /** `cards.find(c => c.id === id)`. */
  function FindCard(cards: seq<Card>, id: string): (o: Option<Card>)
    ensures o.None? <==> id !in Ids(cards)
    ensures o.Some? ==> exists i :: 0 <= i < |cards| && cards[i] == o.value && o.value.id == id
  {
    if cards == [] then None
    else if cards[0].id == id then Some(cards[0])
    else
      var o := FindCard(cards[1..], id);
      assert Ids(cards) == [cards[0].id] + Ids(cards[1..]);
      if o.Some? then
        var k :| 0 <= k < |cards[1..]| && cards[1..][k] == o.value && o.value.id == id;
        assert cards[k + 1] == o.value;
        o
      else o
  }

  /** The cards as the component first holds them: every card face down,
      its `matched` flag as the record gives it. */
  function Dealt(puzzle: seq<PuzzleCard>): (cards: seq<Card>)
    ensures |cards| == |puzzle|
    ensures forall i :: 0 <= i < |cards| ==>
      cards[i] == Card(puzzle[i].id, puzzle[i].content, puzzle[i].matched, false)
  {
    seq(|puzzle|, i requires 0 <= i < |puzzle| => Card(puzzle[i].id, puzzle[i].content, puzzle[i].matched, false))
  }

  /** The deck after `resetGame`: every card face down and unmatched. */
  function Fresh(puzzle: seq<PuzzleCard>): (cards: seq<Card>)
    ensures |cards| == |puzzle|
    ensures forall i :: 0 <= i < |cards| ==>
      cards[i] == Card(puzzle[i].id, puzzle[i].content, false, false)
  {
    seq(|puzzle|, i requires 0 <= i < |puzzle| => Card(puzzle[i].id, puzzle[i].content, false, false))
  }

  /** The click's update: the card with this id turns face up. */
  function FlipUp(cards: seq<Card>, id: string): (r: seq<Card>)
    ensures |r| == |cards|
    ensures forall i :: 0 <= i < |cards| ==>
      r[i] == if cards[i].id == id then cards[i].(flipped := true) else cards[i]
  {
    seq(|cards|, i requires 0 <= i < |cards| =>
      if cards[i].id == id then cards[i].(flipped := true) else cards[i])
  }

  /** The match update: both cards of the pair are matched and face up. */
  function MarkMatched(cards: seq<Card>, a: string, b: string): (r: seq<Card>)
    ensures |r| == |cards|
    ensures forall i :: 0 <= i < |cards| ==>
      r[i] == if cards[i].id == a || cards[i].id == b then cards[i].(matched := true, flipped := true) else cards[i]
  {
    seq(|cards|, i requires 0 <= i < |cards| =>
      if cards[i].id == a || cards[i].id == b then cards[i].(matched := true, flipped := true) else cards[i])
  }

  /** The delayed mismatch update: both cards of the pair turn face down. */
  function FlipDown(cards: seq<Card>, a: string, b: string): (r: seq<Card>)
    ensures |r| == |cards|
    ensures forall i :: 0 <= i < |cards| ==>
      r[i] == if cards[i].id == a || cards[i].id == b then cards[i].(flipped := false) else cards[i]
  {
    seq(|cards|, i requires 0 <= i < |cards| =>
      if cards[i].id == a || cards[i].id == b then cards[i].(flipped := false) else cards[i])
  }

  /** Positions of the matched cards. */
  function MatchedAt(cards: seq<Card>): set<int>
  {
    set i | 0 <= i < |cards| && cards[i].matched
  }

  function MatchedCount(cards: seq<Card>): nat
  {
    |MatchedAt(cards)|
  }

  /** Every card is matched exactly when the matched count is the deck size. */
  lemma {:induction false} AllMatchedIffCount(cards: seq<Card>)
    ensures MatchedCount(cards) <= |cards|
    ensures MatchedCount(cards) == |cards| <==> forall i :: 0 <= i < |cards| ==> cards[i].matched
  {
    if cards != [] {
      var n := |cards| - 1;
      var init := cards[..n];
      AllMatchedIffCount(init);
      assert MatchedAt(cards) == MatchedAt(init) + (if cards[n].matched then {n} else {});
      assert n !in MatchedAt(init);
      if forall i :: 0 <= i < |init| ==> init[i].matched {
        assert forall i :: 0 <= i < n ==> cards[i].matched;
      }
      if forall i :: 0 <= i < |cards| ==> cards[i].matched {
        assert forall i :: 0 <= i < |init| ==> init[i].matched;
      }
    }
  }

  /** Matching two distinct, unmatched cards adds exactly two to the count. */
  lemma MarkMatchedCount(cards: seq<Card>, ia: nat, ib: nat)
    requires ia < |cards| && ib < |cards| && ia != ib
    requires forall i, j :: 0 <= i < j < |cards| ==> cards[i].id != cards[j].id
    requires !cards[ia].matched && !cards[ib].matched
    ensures MatchedCount(MarkMatched(cards, cards[ia].id, cards[ib].id)) == MatchedCount(cards) + 2
  {
    var r := MarkMatched(cards, cards[ia].id, cards[ib].id);
    var m := MatchedAt(cards);
    assert MatchedAt(r) == m + {ia} + {ib} by {
      forall i ensures i in MatchedAt(r) <==> i in m + {ia} + {ib} {
        if 0 <= i < |cards| && i != ia && i != ib {
          assert cards[i].id != cards[ia].id && cards[i].id != cards[ib].id;
        }
      }
    }
    assert ia !in m && ib !in m + {ia};
  }

  /** Turning cards up or down leaves the matched count alone. */
  lemma FlipsKeepCount(cards: seq<Card>, id: string, a: string, b: string)
    ensures MatchedAt(FlipUp(cards, id)) == MatchedAt(cards)
    ensures MatchedAt(FlipDown(cards, a, b)) == MatchedAt(cards)
  {
    assert MatchedAt(FlipUp(cards, id)) == MatchedAt(cards);
    assert MatchedAt(FlipDown(cards, a, b)) == MatchedAt(cards);
  }

  /** The component's cards are the puzzle's cards, in order. */
  predicate SameDeck(puzzle: seq<PuzzleCard>, cards: seq<Card>)
  {
    && |cards| == |puzzle|
    && forall i :: 0 <= i < |cards| ==> cards[i].id == puzzle[i].id && cards[i].content == puzzle[i].content
  }

  /** At most two distinct known ids are flipped, and they are exactly the
      cards that are face up without being matched. */
  predicate FlipState(cards: seq<Card>, flipped: seq<string>)
  {
    && |flipped| <= 2
    && (|flipped| == 2 ==> flipped[0] != flipped[1])
    && (forall k :: 0 <= k < |flipped| ==> flipped[k] in Ids(cards))
    && (forall i :: 0 <= i < |cards| ==> (cards[i].flipped && !cards[i].matched <==> cards[i].id in flipped))
  }

  /** The card a known id names, in a deck with distinct ids. */
  lemma CardOf(puzzle: seq<PuzzleCard>, cards: seq<Card>, id: string) returns (i: nat)
    requires DistinctIds(puzzle) && SameDeck(puzzle, cards) && id in Ids(cards)
    ensures i < |cards| && cards[i].id == id
    ensures FindCard(cards, id) == Some(cards[i])
    ensures forall j :: 0 <= j < |cards| && cards[j].id == id ==> j == i
  {
    i :| 0 <= i < |cards| && Ids(cards)[i] == id;
    forall j | 0 <= j < |cards| && cards[j].id == id ensures j == i { }
  }

  /** A click on a known, face-down, unmatched card while fewer than two are
      up keeps the deck and the flip state consistent, and matches nothing. */
  lemma ClickStep(puzzle: seq<PuzzleCard>, cards: seq<Card>, flipped: seq<string>, i0: nat)
    requires DistinctIds(puzzle) && SameDeck(puzzle, cards) && FlipState(cards, flipped)
    requires |flipped| < 2
    requires i0 < |cards| && !cards[i0].flipped && !cards[i0].matched
    ensures SameDeck(puzzle, FlipUp(cards, cards[i0].id))
    ensures FlipState(FlipUp(cards, cards[i0].id), flipped + [cards[i0].id])
    ensures MatchedAt(FlipUp(cards, cards[i0].id)) == MatchedAt(cards)
  {
    var id := cards[i0].id;
    assert id in Ids(cards);
    var j := CardOf(puzzle, cards, id);
    assert j == i0;
    assert id !in flipped;
    var r := FlipUp(cards, id);
    var f := flipped + [id];
    assert Ids(r) == Ids(cards);
    forall i | 0 <= i < |r| ensures (r[i].flipped && !r[i].matched <==> r[i].id in f) {
      if cards[i].id == id {
        assert i == i0;
      } else {
        assert r[i] == cards[i];
      }
    }
    FlipsKeepCount(cards, id, id, id);
  }

  /** Resolving a pair of equal content: both cards become matched, nothing
      stays flipped, and the matched count grows by two. */
  lemma MatchStep(puzzle: seq<PuzzleCard>, cards: seq<Card>, flipped: seq<string>)
    requires DistinctIds(puzzle) && SameDeck(puzzle, cards) && FlipState(cards, flipped)
    requires |flipped| == 2
    ensures var r := MarkMatched(cards, flipped[0], flipped[1]);
      && SameDeck(puzzle, r)
      && FlipState(r, [])
      && MatchedCount(r) == MatchedCount(cards) + 2
  {
    var a, b := flipped[0], flipped[1];
    var ia := CardOf(puzzle, cards, a);
    var ib := CardOf(puzzle, cards, b);
    assert a in flipped && b in flipped;
    MarkMatchedCount(cards, ia, ib);
    MatchClearsFlips(cards, flipped);
  }

  lemma MatchClearsFlips(cards: seq<Card>, flipped: seq<string>)
    requires FlipState(cards, flipped) && |flipped| == 2
    ensures FlipState(MarkMatched(cards, flipped[0], flipped[1]), [])
  {
    var a, b := flipped[0], flipped[1];
    var r := MarkMatched(cards, a, b);
    assert Ids(r) == Ids(cards);
    forall i | 0 <= i < |r| ensures !(r[i].flipped && !r[i].matched) {
      if cards[i].id != a && cards[i].id != b {
        assert cards[i].id !in flipped;
      }
    }
  }

  /** The flip-back of a flipped pair: both turn face down, nothing stays
      flipped, and the matched count is unchanged. */
  lemma FlipBackStep(puzzle: seq<PuzzleCard>, cards: seq<Card>, flipped: seq<string>)
    requires DistinctIds(puzzle) && SameDeck(puzzle, cards) && FlipState(cards, flipped)
    requires |flipped| == 2
    ensures var r := FlipDown(cards, flipped[0], flipped[1]);
      && SameDeck(puzzle, r)
      && FlipState(r, [])
      && MatchedAt(r) == MatchedAt(cards)
  {
    var a, b := flipped[0], flipped[1];
    var r := FlipDown(cards, a, b);
    assert Ids(r) == Ids(cards);
    forall i | 0 <= i < |r| ensures !(r[i].flipped && !r[i].matched) {
      if cards[i].id != a && cards[i].id != b {
        assert cards[i].id !in flipped;
      }
    }
    FlipsKeepCount(cards, a, a, b);
  }

  /** The game's invariant on its values: the deck is the puzzle's, the flip
      state is consistent, and the matched cards are the two of every
      recorded pair plus those the record started with. */
  predicate Consistent(puzzle: seq<PuzzleCard>, cards: seq<Card>, flipped: seq<string>, pairs: nat, pre: nat)
  {
    && DistinctIds(puzzle)
    && SameDeck(puzzle, cards)
    && FlipState(cards, flipped)
    && MatchedCount(cards) == 2 * pairs + pre
  }

  /** A permitted click keeps the game's invariant with the same pairs. */
  lemma ClickKeeps(puzzle: seq<PuzzleCard>, cards: seq<Card>, flipped: seq<string>, pairs: nat, pre: nat, i: nat)
    requires Consistent(puzzle, cards, flipped, pairs, pre) && |flipped| < 2
    requires i < |cards| && !cards[i].flipped && !cards[i].matched
    ensures Consistent(puzzle, FlipUp(cards, cards[i].id), flipped + [cards[i].id], pairs, pre)
  {
    ClickStep(puzzle, cards, flipped, i);
  }

  /** The same for the card a click finds by its id. */
  lemma ClickFound(puzzle: seq<PuzzleCard>, cards: seq<Card>, flipped: seq<string>, pairs: nat, pre: nat, id: string)
    requires Consistent(puzzle, cards, flipped, pairs, pre) && |flipped| < 2
    requires FindCard(cards, id).Some? && !FindCard(cards, id).value.flipped && !FindCard(cards, id).value.matched
    ensures Consistent(puzzle, FlipUp(cards, id), flipped + [id], pairs, pre)
  {
    var i := CardOf(puzzle, cards, id);
    ClickKeeps(puzzle, cards, flipped, pairs, pre, i);
  }

  /** Resolving a flipped pair of equal content records one more pair. */
  lemma ResolveMatched(puzzle: seq<PuzzleCard>, cards: seq<Card>, flipped: seq<string>, pairs: nat, pre: nat)
    requires Consistent(puzzle, cards, flipped, pairs, pre) && |flipped| == 2
    ensures Consistent(puzzle, MarkMatched(cards, flipped[0], flipped[1]), [], pairs + 1, pre)
  {
    MatchStep(puzzle, cards, flipped);
  }

  class Game {
    const puzzle: seq<PuzzleCard>
    const startTime: int
    var cards: seq<Card>
    var flippedCards: seq<string>
    var matchedPairs: seq<string>
    var moves: int
    /** The mismatch timer is pending: the pair stays face up until it fires. */
    var awaitingFlipBack: bool
    /** Cards the record already marks matched, which no pair accounts for. */
    ghost var preMatched: nat

    ghost predicate Valid()
      reads this
    {
      && Consistent(puzzle, cards, flippedCards, |matchedPairs|, preMatched)
      && (awaitingFlipBack ==> |flippedCards| == 2)
      && moves >= 0
    }

    /** Mounting the component; `now` stands for `Date.now()`. */
    constructor (puzzle: seq<PuzzleCard>, now: int)
      requires DistinctIds(puzzle)
      ensures Valid()
      ensures this.puzzle == puzzle && startTime == now
      ensures cards == Dealt(puzzle)
      ensures flippedCards == [] && matchedPairs == [] && moves == 0 && !awaitingFlipBack
    {
      this.puzzle := puzzle;
      startTime := now;
      cards := Dealt(puzzle);
      flippedCards := [];
      matchedPairs := [];
      moves := 0;
      awaitingFlipBack := false;
      preMatched := MatchedCount(Dealt(puzzle));
    }

    /** `handleCardClick(id)`: ignored while the result is shown, while two
        cards are up, or for an unknown, face-up or matched card. */
    method Click(showResult: bool, id: string)
      requires Valid()
      modifies this
      ensures Valid()
      ensures
        var card := FindCard(old(cards), id);
        if showResult || |old(flippedCards)| >= 2 || card.None? || card.value.flipped || card.value.matched
        then cards == old(cards) && flippedCards == old(flippedCards)
        else cards == FlipUp(old(cards), id) && flippedCards == old(flippedCards) + [id]
      ensures matchedPairs == old(matchedPairs) && moves == old(moves)
      ensures awaitingFlipBack == old(awaitingFlipBack) && preMatched == old(preMatched)
    {
      if showResult || |flippedCards| >= 2 { return; }
      var card := FindCard(cards, id);
      if card.None? || card.value.flipped || card.value.matched { return; }
      ClickFound(puzzle, cards, flippedCards, |matchedPairs|, preMatched, id);
      cards, flippedCards := FlipUp(cards, id), flippedCards + [id];
    }

    /** The matched branch of the pair effect: the pair's content is
        recorded and both cards become matched and face up. */
    method RecordMatch(content: string)
      requires Valid() && |flippedCards| == 2 && !awaitingFlipBack
      modifies this
      ensures Valid()
      ensures matchedPairs == old(matchedPairs) + [content]
      ensures cards == MarkMatched(old(cards), old(flippedCards)[0], old(flippedCards)[1])
      ensures flippedCards == [] && !awaitingFlipBack && moves == old(moves) && preMatched == old(preMatched)
    {
      ResolveMatched(puzzle, cards, flippedCards, |matchedPairs|, preMatched);
      cards := MarkMatched(cards, flippedCards[0], flippedCards[1]);
      matchedPairs := matchedPairs + [content];
      flippedCards := [];
    }

    /** The effect that runs once two cards are up: a pair with equal content
        is matched and cleared; otherwise the flip-back timer is started. The
        move counter counts every resolved pair. */
    method ResolvePair()
      requires Valid() && |flippedCards| == 2 && !awaitingFlipBack
      modifies this
      ensures Valid()
      ensures
        var a, b := old(flippedCards)[0], old(flippedCards)[1];
        var ca, cb := FindCard(old(cards), a), FindCard(old(cards), b);
        if ca.Some? && cb.Some? && ca.value.content == cb.value.content then
          && matchedPairs == old(matchedPairs) + [ca.value.content]
          && cards == MarkMatched(old(cards), a, b)
          && flippedCards == [] && !awaitingFlipBack
        else
          && matchedPairs == old(matchedPairs) && cards == old(cards)
          && flippedCards == old(flippedCards) && awaitingFlipBack
      ensures moves == old(moves) + 1 && preMatched == old(preMatched)
    {
      var first, second := flippedCards[0], flippedCards[1];
      var firstCard := FindCard(cards, first);
      var secondCard := FindCard(cards, second);
      if firstCard.Some? && secondCard.Some? && firstCard.value.content == secondCard.value.content {
        RecordMatch(firstCard.value.content);
      } else {
        awaitingFlipBack := true;
      }
      moves := moves + 1;
    }

    /** The flip-back timer firing: the mismatched pair turns face down. */
    method FlipBack()
      requires Valid() && awaitingFlipBack
      modifies this
      ensures Valid()
      ensures cards == FlipDown(old(cards), old(flippedCards)[0], old(flippedCards)[1])
      ensures flippedCards == [] && !awaitingFlipBack
      ensures matchedPairs == old(matchedPairs) && moves == old(moves) && preMatched == old(preMatched)
    {
      FlipBackStep(puzzle, cards, flippedCards);
      cards := FlipDown(cards, flippedCards[0], flippedCards[1]);
      flippedCards := [];
      awaitingFlipBack := false;
    }

    /** `resetGame()`: every card face down and unmatched, counters cleared. */
    method Reset()
      requires Valid()
      modifies this
      ensures Valid()
      ensures cards == Fresh(puzzle)
      ensures flippedCards == [] && matchedPairs == [] && moves == 0 && !awaitingFlipBack
      ensures preMatched == 0
    {
      cards := Fresh(puzzle);
      flippedCards := [];
      matchedPairs := [];
      moves := 0;
      awaitingFlipBack := false;
      preMatched := 0;
      assert MatchedAt(cards) == {};
    }

    /** The completion effect's test: it schedules the submission. */
    predicate AutoSubmitDue()
      reads this
      ensures AutoSubmitDue() ==> |puzzle| >= 2
      ensures Valid() && preMatched == 0 ==>
        (AutoSubmitDue() <==> |cards| > 0 && forall i :: 0 <= i < |cards| ==> cards[i].matched)
    {
      AllMatchedIffCount(cards);
      2 * |matchedPairs| == |puzzle| && |matchedPairs| > 0
    }

    /** `handleSubmit(now)`: complete when there are half as many matched pairs
        as cards. Starting from unmatched cards, that is when every card is matched. */
    method Submit(now: int) returns (answer: Answer, timeSpent: int)
      requires Valid()
      ensures answer == Str("complete") <==> 2 * |matchedPairs| == |puzzle|
      ensures answer == Str("incomplete") <==> 2 * |matchedPairs| != |puzzle|
      ensures preMatched == 0 ==>
        (answer == Str("complete") <==> forall i :: 0 <= i < |cards| ==> cards[i].matched)
      ensures 1000 * timeSpent <= now - startTime < 1000 * (timeSpent + 1)
    {
      AllMatchedIffCount(cards);
      answer := if 2 * |matchedPairs| == |puzzle| then Str("complete") else Str("incomplete");
      timeSpent := (now - startTime) / 1000;
    }
  }
}
