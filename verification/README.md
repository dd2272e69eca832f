# Puzzle academy — a verified model of its game logic

Puzzle academy is a React app where children, teens and adults solve puzzles
by subject and difficulty. This project models the app's logic in Dafny and
proves properties of that model. It covers:

- **the session engine** (`GameStore.Store`): the current user, the user list,
  the current session and the `isPlaying` flag, with the store's actions;
- **the puzzle selector** (`Puzzles`): selection by difficulty, by subject,
  and the adaptive selection;
- **the working state of four puzzle types**: crossword (`Crossword.Game`),
  word search (`WordSearch.Game`), memory cards (`MemoryCards.Game`) and
  image scramble (`ImageScramble.Game`);
- **the formatting helpers** (`Utils`);
- **the multiplayer room list** (`Multiplayer.Lobby`);
- **the solo-play setup screen** (`PlayView.Setup`).

Code that changes state step by step is modelled as a class:

- each store or component state field is a field of the class;
- each handler is a method whose `ensures` gives the whole new state in terms
  of the old one;
- a ghost `Valid()` predicate states the invariant that every handler keeps.

Pure code is modelled as functions and lemmas. The list operations the
components use (`filter`, `slice`, `find`, `findIndex`, `map`-replace) are
written out once in `Common`, together with their JavaScript edge cases:

- `slice(0, n)` with a negative `n`;
- `%` keeping the sign of its left operand;
- `find` returning the first match;
- `===` never equating a string with a number.

Some inputs are parameters rather than part of the model:

- Clock readings (`Date.now()`) and random ids (`generateId`).
- The order the selector's random sort produces. The only constraint on it is
  that it is a permutation of the filtered candidates.
- The random indices of the image-scramble shuffle. These are arbitrary
  choices within the loop's range.

The model follows the code as written, including these quirks:

- The session's `hintsUsed` counter is never reset between puzzles, so it
  indexes later puzzles' hint lists.
- A word listed after its own reversal can never be found in a word search.
- Resetting the image scramble does not restore the layout. The piece objects
  that the swaps write are shared with the puzzle record.

The selectors and the session statistics behave as follows:

- the adaptive selector clamps the level to [1, 7];
- when fewer puzzles match than were asked for, the selectors return fewer;
- the running average is `Math.round((old + score) / 2)`, with halves rounded
  up.

## Model

| member | source | states |
|---|---|---|
| Common.StrictEquals | src/store/gameStore.ts:206 | `===` on `string \| number`: equal only when both are strings with the same text or both are numbers with the same value; a string never equals a number |
| Common.SliceTo | src/data/puzzles.ts:164 | `slice(0, end)` keeps the first `min(end, n)` elements, or all but the last `-end` when `end` is negative; the result is a prefix and a sub-multiset of the input |
| Common.Filter | src/data/puzzles.ts:163 | `filter` keeps an element exactly when it is in the list and passes, never grows the list and draws only from it |
| Common.FilterKeepsCopies | src/data/puzzles.ts:163 | every copy of an element that passes stays and every copy of one that fails goes: the result has exactly the passing elements, with their multiplicities |
| Utils.JsRem60 | src/lib/utils.ts:10 | `seconds % 60` lies in [0, 60) for a non-negative input and in (-60, 0] for a negative one, and differs from the input by a multiple of 60 |
| Utils.PadStart2 | src/lib/utils.ts:11 | `padStart(2, '0')` leaves text of two or more characters alone and otherwise left-fills it with zeros to length two |
| Utils.NatToString | src/lib/utils.ts:9-11 | `toString` of a natural number is a non-empty run of decimal digits |
| Utils.IntToString | src/lib/utils.ts:9-11 | `toString` of an integer starts with `-` exactly when it is negative, and every other character is a decimal digit |
| Utils.DecimalValueOfNatToString | src/lib/utils.ts:11 | the decimal text of a number reads back as that number |
| Utils.FormatTime | src/lib/utils.ts:8-12 | for a non-negative input: the minutes in decimal, a colon, then two digit characters; a negative input gives text that starts with `-` |
| Utils.FormatTimeFields | src/lib/utils.ts:8-12 | for a non-negative input the text is the minutes `s div 60` in decimal, a colon, then exactly two digits of `s mod 60` |
| Utils.FormatTimeRoundTrip | src/lib/utils.ts:8-12 | reading `m:ss` back as `60 * m + ss` gives the input: minutes and seconds recombine to the original count |
| Utils.FormatTimeZeroPad | src/lib/utils.ts:11 | below ten seconds past the minute, the seconds field is `0` followed by the digit |
| Utils.GetAgeGroup | src/lib/utils.ts:24-28 | child exactly for ages up to 12, teen exactly for 13 to 17, adult exactly from 18; every integer gets one group |
| Utils.AgeGroupMonotone | src/lib/utils.ts:24-28 | an older age never gets a younger group |
| Utils.GetDifficultyColor | src/lib/utils.ts:30-35 | green exactly up to 2, yellow exactly for 3 to 4, orange exactly for 5 to 6, red exactly from 7 |
| Puzzles.FirstMatches | src/data/puzzles.ts:162-170 | `getPuzzlesByDifficulty` and `getPuzzlesBySubject`: every result is a catalog puzzle that passes the test, in catalog order; for a non-negative count there are `min(count, matches)` of them |
| Puzzles.FirstMatchesTakesPrefix | src/data/puzzles.ts:162-170 | the selection is every passing puzzle of some prefix of the catalog: no passing puzzle is skipped in favour of a later one |
| Puzzles.ClampLevel | src/data/puzzles.ts:177 | the target lies in [1, 7]; a level inside the range is kept, one below becomes 1 and one above becomes 7 |
| Puzzles.Candidates | src/data/puzzles.ts:178-183 | a puzzle is a candidate exactly when it is in the catalog, its difficulty is within one of the clamped target and its subject is one of the chosen subjects |
| Puzzles.AdaptivePuzzles | src/data/puzzles.ts:172-188 | every result is a catalog puzzle within one level of the clamped target and of a chosen subject; for a non-negative count there are `min(count, candidates)` of them; the result is a sub-multiset of the catalog; no subjects give no puzzles |
| Puzzles.PermutedPrefix | src/data/puzzles.ts:186-187 | a prefix of a shuffle of the candidates draws only from the candidates |
| Puzzles.AdaptiveIdsDistinct | src/data/puzzles.ts:180-187 | when catalog ids are distinct, the selection's ids are distinct too: the shuffle only reorders the filtered copy |
| GameStore.Penalized | src/store/gameStore.ts:232 | the hint penalty takes ten points off a score of at least ten and floors a smaller score at 0; the result is never negative |
| GameStore.RoundedMean | src/store/gameStore.ts:174-176 | `Math.round((a + b) / 2)` on integers: twice the result is `a + b`, or `a + b + 1` when the sum is odd |
| GameStore.MergePreferences | src/store/gameStore.ts:101 | `{ ...preferences, ...patch }`: each key is the patch's value when given and the old value otherwise |
| GameStore.MergeStats | src/store/gameStore.ts:116 | `{ ...stats, ...patch }`: each key is the patch's value when given and the old value otherwise |
| GameStore.WithSessionTallies | src/store/gameStore.ts:170-179 | the user `endSession` stores: puzzles solved and play time grow by the session's correct answers and time, twice the new average is the old average plus the session score, rounded up when odd, and nothing else about the user changes |
| GameStore.MergePreferencesKeepsOthers | src/store/gameStore.ts:95-108 | for each of the seven preference keys, a patch that gives the key sets it and one that omits it keeps it; an empty patch changes nothing, and applying a patch twice equals applying it once |
| GameStore.MergeStatsKeepsOthers | src/store/gameStore.ts:110-123 | the same laws for each of the seven statistics keys |
| GameStore.Store.constructor | src/store/gameStore.ts:66-70 | the store starts with no user, no users, no session and not playing |
| GameStore.Store.SetCurrentUser | src/store/gameStore.ts:75 | sets the current user and nothing else |
| GameStore.Store.CreateUser | src/store/gameStore.ts:77-93 | the new user has the given id, name and age, the age group of that age, an avatar seeded by the name, the default preferences and statistics and no achievements; it becomes the current user and is appended to the users |
| GameStore.Store.ReplaceCurrentUser | src/store/gameStore.ts:104-107 | the updated user becomes current, and every listed user with the same id is replaced by it, the rest kept |
| GameStore.Store.UpdateUserPreferences | src/store/gameStore.ts:95-108 | no-op without a current user; otherwise the patch is merged into the current user's preferences, and only the user with that id is replaced in the users list |
| GameStore.Store.UpdateUserStats | src/store/gameStore.ts:110-123 | no-op without a current user; otherwise the patch is merged into the current user's statistics, and only the user with that id is replaced in the users list |
| GameStore.Store.AddAchievement | src/store/gameStore.ts:125-138 | no-op without a current user; otherwise the achievement is appended to the current user's list, and only the user with that id is replaced in the users list |
| GameStore.Store.StartSession | src/store/gameStore.ts:140-158 | no-op without a current user; otherwise a session for that user at index 0, with score, correct answers, hints used and time spent all 0 and not completed; playing is set |
| GameStore.Store.EndSession | src/store/gameStore.ts:160-181 | no-op without both a session and a user; otherwise solved count += correct answers, play time += time spent, average = rounded mean of the old average and the session score, the session is dropped and playing cleared |
| GameStore.Store.NextPuzzle | src/store/gameStore.ts:183-199 | no change at all without a session; the index moves on by exactly one while a later puzzle exists, with every other session field, the users and `isPlaying` kept; after the last puzzle it does what `endSession` does: the user gets the session's tallies, in `currentUser` and in `users`, and the session ends |
| GameStore.Store.SubmitAnswer | src/store/gameStore.ts:201-217 | false and no change without a session; otherwise correct exactly when the answer strictly equals the current puzzle's answer; points and one correct answer are added only when correct, time spent always; nothing else in the session changes |
| GameStore.Store.UseHint | src/store/gameStore.ts:219-237 | nothing and no change without a session or once `hintsUsed` reaches the current puzzle's hint count; otherwise the hint at `hintsUsed`, the counter up by exactly one and the score penalised; the store invariant keeps the score non-negative |
| Crossword.InitialGrid | src/components/Game/PuzzleTypes/CrosswordGame.tsx:26-28 | the working grid has the puzzle's shape; a blocked cell stays blocked, an open one starts empty, and every cell outside the shape is undefined |
| Crossword.Game.constructor | src/components/Game/PuzzleTypes/CrosswordGame.tsx:26-34 | the working grid is the initial grid; no word, no clue and no used words |
| Crossword.Game.SelectWord | src/components/Game/PuzzleTypes/CrosswordGame.tsx:52-55 | a word already used leaves the selection alone; any other word becomes the selection; nothing else changes |
| Crossword.Game.SelectClue | src/components/Game/PuzzleTypes/CrosswordGame.tsx:57-59 | the clue number becomes the selection; nothing else changes |
| Crossword.FindClue | src/components/Game/PuzzleTypes/CrosswordGame.tsx:64 | none exactly when no clue has that number; otherwise the first clue with that number |
| Crossword.Offset | src/components/Game/PuzzleTypes/CrosswordGame.tsx:71-73 | the loop index that visits a cell of the clue's line, and none exactly when no index does |
| Crossword.Game.PlaceWord | src/components/Game/PuzzleTypes/CrosswordGame.tsx:61-83 | no change without a word or clue, when the clue is not found, or when the word is not its answer; otherwise the grid is the placement of that clue, the word is appended to the used words and both selections are cleared |
| Crossword.PlacedUpToCell | src/components/Game/PuzzleTypes/CrosswordGame.tsx:69-77 | after `n` loop steps, a cell holds the clue's letter exactly when the loop has visited it, its row exists and it was not blocked; every other cell is as before |
| Crossword.PlacedCell | src/components/Game/PuzzleTypes/CrosswordGame.tsx:69-77 | the same, cell by cell, for the whole placement: letters land on open cells of the clue's line and nowhere else |
| Crossword.PlaceEffects | src/components/Game/PuzzleTypes/CrosswordGame.tsx:69-103 | placing a clue on an open line spells it, keeps every open line open, and keeps every clue that agrees with it spelled out |
| Crossword.PlaceAllCompletes | src/components/Game/PuzzleTypes/CrosswordGame.tsx:91-103 | placing every clue of a puzzle whose lines are open and whose crossings agree completes the grid, in any order |
| Crossword.InitialIncomplete | src/components/Game/PuzzleTypes/CrosswordGame.tsx:91-103 | a fresh grid is not complete when some clue has a non-empty answer |
| Crossword.CheckCompletion | src/components/Game/PuzzleTypes/CrosswordGame.tsx:91-103 | a complete grid has every clue cell present and not blocked; with no clues `every` holds and the grid counts as complete |
| Crossword.FitsOpen | src/components/Game/PuzzleTypes/CrosswordGame.tsx:26-28 | a clue that lies on non-blocked puzzle cells has an open line in the initial grid |
| Crossword.AnimalsPlaceable | src/data/extendedPuzzles.ts:188-228 | both words of the "Simple Animals" crossword lie on open cells and agree where they cross |
| Crossword.AnimalsSolvable | src/data/extendedPuzzles.ts:188-228 | the "Simple Animals" crossword is incomplete at first and complete after placing both words, in either order |
| Crossword.Game.Submit | src/components/Game/PuzzleTypes/CrosswordGame.tsx:85-89 | the answer is `complete` exactly when every clue is spelled out in the grid, `incomplete` otherwise; the time is the whole seconds since mounting |
| WordSearch.StepToward | src/components/Game/PuzzleTypes/WordSearchGame.tsx:79-80 | the step towards the end is 0, 1 or -1 exactly as the end is equal, larger or smaller |
| WordSearch.Line | src/components/Game/PuzzleTypes/WordSearchGame.tsx:77-95 | for straight-line endpoints: from start to end inclusive, a fixed step between neighbours, `max(|dr|, |dc|) + 1` cells, all inside the endpoints' box, and the end reached only at the last cell |
| WordSearch.LineCells | src/components/Game/PuzzleTypes/WordSearchGame.tsx:77-95 | the push-and-step loop returns exactly `Line(start, end)` |
| WordSearch.Game.constructor | src/components/Game/PuzzleTypes/WordSearchGame.tsx:25-29 | nothing found, nothing selected, not selecting |
| WordSearch.Game.MouseDown | src/components/Game/PuzzleTypes/WordSearchGame.tsx:48-51 | selecting starts, with the pressed cell as the whole selection |
| WordSearch.Game.MouseEnter | src/components/Game/PuzzleTypes/WordSearchGame.tsx:53-67 | while selecting, a cell in line with the first selected cell makes the selection the line between them; any other cell leaves it unchanged |
| WordSearch.Reverse | src/components/Game/PuzzleTypes/WordSearchGame.tsx:99 | the reversed text has the same length and the characters in the opposite order |
| WordSearch.ReverseInvolution | src/components/Game/PuzzleTypes/WordSearchGame.tsx:99 | reversing twice gives the text back |
| WordSearch.Spell | src/components/Game/PuzzleTypes/WordSearchGame.tsx:98 | the `map` and `join` of the selected letters: one letter per cell, in selection order, when every cell is on the grid; never longer than the selection |
| WordSearch.FirstMatch | src/components/Game/PuzzleTypes/WordSearchGame.tsx:101-103 | none exactly when no listed word equals the selection forwards or backwards; otherwise the first listed word that does |
| WordSearch.ReversedLaterWordShadowed | src/components/Game/PuzzleTypes/WordSearchGame.tsx:97-107 | in a list without repeats, a word listed after its own reversal is never matched |
| WordSearch.Game.NewWord | src/components/Game/PuzzleTypes/WordSearchGame.tsx:97-107 | a word added is a listed word, not yet found and not empty |
| WordSearch.Game.MouseUp | src/components/Game/PuzzleTypes/WordSearchGame.tsx:69-75 | a selection of two or more cells appends its new word, if any, to the found words; the selection is cleared and selecting stops either way; found words stay listed and free of repeats |
| WordSearch.CompleteIffAllFound | src/components/Game/PuzzleTypes/WordSearchGame.tsx:110-114 | with found words listed and both lists free of repeats, the counts are equal exactly when every listed word is found |
| WordSearch.Game.Submit | src/components/Game/PuzzleTypes/WordSearchGame.tsx:110-114 | `complete` exactly when as many words are found as listed; for a list without repeats, exactly when every word is found |
| MemoryCards.FindCard | src/components/Game/PuzzleTypes/MemoryCardGame.tsx:89 | none exactly when no card has that id; otherwise a card with that id |
| MemoryCards.Dealt | src/components/Game/PuzzleTypes/MemoryCardGame.tsx:25 | the puzzle's cards in order, each face down |
| MemoryCards.Game.constructor | src/components/Game/PuzzleTypes/MemoryCardGame.tsx:25-31 | the dealt cards, nothing flipped, no pairs, no moves |
| MemoryCards.FlipUp | src/components/Game/PuzzleTypes/MemoryCardGame.tsx:92-94 | the card with the clicked id turns face up and no other card changes |
| MemoryCards.ClickStep | src/components/Game/PuzzleTypes/MemoryCardGame.tsx:86-96 | a permitted click keeps the deck and the flip state consistent and matches nothing |
| MemoryCards.Game.Click | src/components/Game/PuzzleTypes/MemoryCardGame.tsx:86-96 | ignored while the result shows, while two cards are up, or for an unknown, face-up or matched card; otherwise that card turns up and its id is appended; at most two distinct ids are ever flipped |
| MemoryCards.MarkMatched | src/components/Game/PuzzleTypes/MemoryCardGame.tsx:58-62 | the two cards of the pair become matched and face up; no other card changes |
| MemoryCards.MarkMatchedCount | src/components/Game/PuzzleTypes/MemoryCardGame.tsx:55-63 | matching two different unmatched cards adds exactly two to the matched count |
| MemoryCards.MatchClearsFlips | src/components/Game/PuzzleTypes/MemoryCardGame.tsx:58-63 | after a match no card is face up without being matched |
| MemoryCards.MatchStep | src/components/Game/PuzzleTypes/MemoryCardGame.tsx:55-63 | a match keeps the deck, clears the flip state and adds two to the matched count |
| MemoryCards.Game.RecordMatch | src/components/Game/PuzzleTypes/MemoryCardGame.tsx:55-63 | the pair's content is appended to the pairs, both cards become matched and face up, and nothing stays flipped; the invariant is kept |
| MemoryCards.Game.ResolvePair | src/components/Game/PuzzleTypes/MemoryCardGame.tsx:49-77 | equal contents: the content is appended to the pairs, both cards are matched and face up, and nothing stays flipped; different contents: the flip-back is pending; moves go up by exactly one either way |
| MemoryCards.FlipDown | src/components/Game/PuzzleTypes/MemoryCardGame.tsx:67-71 | the two cards of the pair turn face down; no other card changes |
| MemoryCards.FlipsKeepCount | src/components/Game/PuzzleTypes/MemoryCardGame.tsx:66-73 | turning cards up or down leaves the matched cards as they were |
| MemoryCards.FlipBackStep | src/components/Game/PuzzleTypes/MemoryCardGame.tsx:66-73 | the flip-back keeps the deck, clears the flip state and keeps the matched cards |
| MemoryCards.Game.FlipBack | src/components/Game/PuzzleTypes/MemoryCardGame.tsx:66-73 | when the timer fires, the mismatched pair turns face down and nothing stays flipped; pairs and moves are unchanged |
| MemoryCards.Fresh | src/components/Game/PuzzleTypes/MemoryCardGame.tsx:112 | the puzzle's cards in order, each face down and unmatched |
| MemoryCards.Game.Reset | src/components/Game/PuzzleTypes/MemoryCardGame.tsx:111-116 | all cards face down and unmatched, nothing flipped, no pairs, no moves |
| MemoryCards.AllMatchedIffCount | src/components/Game/PuzzleTypes/MemoryCardGame.tsx:98-102 | the matched count is at most the deck size, and equals it exactly when every card is matched |
| MemoryCards.Game.AutoSubmitDue | src/components/Game/PuzzleTypes/MemoryCardGame.tsx:79-84 | the completion effect fires only for a deck of at least two cards, and, starting from unmatched cards, exactly when the deck is non-empty and every card is matched |
| MemoryCards.Game.Submit | src/components/Game/PuzzleTypes/MemoryCardGame.tsx:98-102 | `complete` exactly when there are half as many pairs as cards; for a deck dealt unmatched, exactly when every card is matched |
| ImageScramble.FindIndex | src/components/Game/PuzzleTypes/ImageScrambleGame.tsx:58-59 | -1 exactly when the id is absent; otherwise the first index holding it |
| ImageScramble.Swapped | src/components/Game/PuzzleTypes/ImageScrambleGame.tsx:61-64 | the two positions are exchanged, every other one is kept, and the multiset of positions is unchanged |
| ImageScramble.SwapKeepsPermutation | src/components/Game/PuzzleTypes/ImageScrambleGame.tsx:61-64 | a layout that is a permutation of the correct positions stays one after a swap, and swapping two different values breaks a solved layout |
| ImageScramble.SwapTwiceRestores | src/components/Game/PuzzleTypes/ImageScrambleGame.tsx:61-64 | swapping the same two pieces twice restores the layout |
| ImageScramble.Game.constructor | src/components/Game/PuzzleTypes/ImageScrambleGame.tsx:26-31 | the positions are the given pieces' shared positions, nothing is selected and there are no moves |
| ImageScramble.Game.Click | src/components/Game/PuzzleTypes/ImageScrambleGame.tsx:49-70 | ignored while the result shows; with nothing selected the piece is selected; the selected piece again deselects it; another piece swaps the two positions in place, clears the selection and adds one move |
| ImageScramble.Game.Shuffle | src/components/Game/PuzzleTypes/ImageScrambleGame.tsx:89-99 | the Fisher-Yates loop keeps the multiset of positions and counts one move |
| ImageScramble.Game.Reset | src/components/Game/PuzzleTypes/ImageScrambleGame.tsx:101-105 | the selection is cleared and moves return to 0; the shared positions stay as they are |
| ImageScramble.Game.CheckCompletion | src/components/Game/PuzzleTypes/ImageScrambleGame.tsx:78-80 | every piece is at its correct position exactly when the layout equals the correct positions |
| ImageScramble.Game.Submit | src/components/Game/PuzzleTypes/ImageScrambleGame.tsx:72-80 | `complete` exactly when every piece is at its correct position, `incomplete` otherwise |
| Multiplayer.Lobby.constructor | src/components/Views/MultiplayerView.tsx:26-61 | the rooms are exactly the three sample rooms `SampleRooms` (ids, names, hosts, players, capacities, levels, subjects and states, the third one playing); no form shown, an empty name, no open room |
| Multiplayer.Lobby.SetNewRoomName | src/components/Views/MultiplayerView.tsx:153 | only the name being typed changes |
| Multiplayer.NewRoom | src/components/Views/MultiplayerView.tsx:66-75 | the user hosts the room and is its only player; four places, waiting, named as typed, with the clock reading as id |
| Multiplayer.Lobby.CreateRoom | src/components/Views/MultiplayerView.tsx:63-81 | rejected without a user or with a blank name; otherwise the new room is appended and opened, the name cleared and the form closed; rooms stay within capacity and free of repeats |
| Multiplayer.Joined | src/components/Views/MultiplayerView.tsx:88-91 | the user is appended to the players; nothing else in the room changes |
| Multiplayer.JoinKeepsRoomOk | src/components/Views/MultiplayerView.tsx:84-91 | a permitted join keeps the room within capacity and free of repeated players |
| Multiplayer.Lobby.JoinRoom | src/components/Views/MultiplayerView.tsx:83-95 | rejected without a user, for a player already in the room, or for a full room; otherwise only the rooms with that id are replaced by the joined room, which is opened |
| Multiplayer.Left | src/components/Views/MultiplayerView.tsx:100-103 | every occurrence of the user leaves the players and everyone else stays, in order |
| Multiplayer.LeaveKeepsRoomOk | src/components/Views/MultiplayerView.tsx:100-103 | leaving keeps a room within capacity and free of repeated players |
| Multiplayer.Lobby.LeaveRoom | src/components/Views/MultiplayerView.tsx:97-112 | no-op without an open room or a user; a room left empty is removed, otherwise only the rooms with that id are replaced; the open room is cleared either way |
| Multiplayer.LeaveRemovesUser | src/components/Views/MultiplayerView.tsx:100-111 | after leaving, no room with the open room's id holds the user or is empty |
| PlayView.Toggled | src/components/Views/PlayView.tsx:40-46 | a chosen subject is removed and every other membership is kept; an unchosen one is appended at the end |
| PlayView.ToggleTwice | src/components/Views/PlayView.tsx:40-46 | toggling twice restores which subjects are chosen, and the very list when the subject was not chosen |
| PlayView.ToggleKeepsDistinct | src/components/Views/PlayView.tsx:40-46 | a toggle keeps the chosen list free of repeats |
| PlayView.FirstCount | src/components/Views/PlayView.tsx:31-36 | a first count exists exactly for levels 1 to 4, and lies between 2 and 5 |
| PlayView.Setup.constructor | src/components/Views/PlayView.tsx:18-20 | mathematics and logic chosen, difficulty 1, three puzzles |
| PlayView.Setup.ToggleSubject | src/components/Views/PlayView.tsx:40-46 | the chosen subjects are toggled and nothing else changes |
| PlayView.Setup.ChangeDifficulty | src/components/Views/PlayView.tsx:48-54 | the difficulty is set, and the count becomes the level's first offered count, or stays for an unlisted level |
| PlayView.Setup.SelectCount | src/components/Views/PlayView.tsx:170 | the puzzle count is set and nothing else changes |
| PlayView.Setup.StartGame | src/components/Views/PlayView.tsx:55-65 | nothing without a chosen subject; otherwise the selector's puzzles for the chosen difficulty, subjects and count open a session in the store |

## Left out

- Rendering, styling and animation are not modelled: they have no behaviour beyond dispatching to the handlers.
- The countdown timers that auto-submit a puzzle and the room countdown are not modelled, because they depend on time. Only the state change a timer makes when it fires is modelled (`MemoryCards.Game.FlipBack`, and `MemoryCards.Game.AutoSubmitDue` as the completion effect's test).
- `calculateScore` is not modelled: it is floating-point division and rounding, and it is undefined for zero questions.
- `generateId`, `Date.now()` and `new Date()` are parameters, because they are random or read the clock.
- The random sort of `getAdaptivePuzzles` and the random indices of `shufflePieces` are a parameter and arbitrary choices respectively, because they are random.
- The app-level flags and setters for the settings, profile and leaderboard panels carry no game logic and are not modelled.
- The per-game hint buttons are not modelled: they only forward the store's hint to the display.
- The static puzzle catalog is not modelled. Only the "Simple Animals" crossword appears, as a fixture.
- `GameSession.tsx`, which chooses between ending the session and moving to the next puzzle, is not part of this model.
- `PatternGame.tsx` and `PuzzleCard.tsx` only forward a chosen string to the answer callback, so they are not modelled.
- Utils.IntToString: values of 1e21 and above, which JavaScript prints in exponent notation, are not modelled; the model writes plain decimal digits for every integer.
- Utils.NatToString: the same bound applies.
- Common.Answer: numbers are modelled as integers. Every numeric answer in the catalog (10, 4, 3) is an integer, and floating-point values are not modelled.
- Utils.FormatTimeFields: the formatting lemmas cover non-negative whole seconds only. `FormatTime` itself also models negative inputs, but fractional seconds are not modelled.
- GameStore.Store.SubmitAnswer: requires a current puzzle. With an empty puzzle list the source throws on reading a field of `undefined`, and that crash is not modelled.
- GameStore.Store.UseHint: requires a current puzzle, for the same reason.
- GameStore.Store.CreateUser: the id is a parameter rather than `generateId()`.
- WordSearch.Game.MouseDown: requires the cell to be on the grid. Mouse events only come from rendered cells.
- WordSearch.Game.MouseEnter: requires the cell to be on the grid, for the same reason.
- WordSearch grid cells are modelled as single characters.
- MemoryCards.Game.constructor: requires distinct card ids, because the flip logic looks cards up by id.
- MemoryCards.Game.Reset: the model drops a pending flip-back. In the source, a flip-back timer started before the reset still fires afterwards and empties the flipped list. That race between the timer and the reset is not captured.
- ImageScramble.Game.Click: requires the clicked id to be one of the puzzle's pieces. Clicks only come from rendered pieces.
- Multiplayer.Lobby.JoinRoom: requires the room to be one of the listed rooms. The join button only appears on listed rooms.
- React's batching of state updates, and the aliasing of row arrays between the old and new crossword grid, are not modelled. Each handler is modelled as one atomic update of the component state.
