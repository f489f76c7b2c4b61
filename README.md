# Pokememory game — a verified Dafny model of its game logic

Pokememory is a React/Redux game collection built on first-generation
Pokémon (ids 1 to 151). This project models its three games and the three
Redux slices that persist their statistics:

- **Memory** (`src/components/MemoryGame/MemoryGame.jsx`). Six different
  Pokémon are drawn and each contributes two cards. The deck is shuffled
  and the player turns two cards at a time. A pair showing the same
  Pokémon stays matched; any other pair is turned back. Once every card is
  matched the game is won and `gameWon` is dispatched.
- **Who's that Pokémon?** (`src/components/WhosThatPokemon/WhosThatPokemon.jsx`).
  One Pokémon is shown with its right name and three wrong names, in
  shuffled order. The first answer of a round is recorded in the store.
- **Type matcher** (`src/components/TypeMatcher/TypeMatcher.jsx`). The
  player drops type names into as many slots as the Pokémon has types. A
  complete answer is checked without regard to order.
- **The slices** (`src/store/slices/*.js`). Their reducers update moves,
  time, records, running averages, streaks, per-type accuracy and capped
  histories.

Each slice is a pure `Reduce(state, action)` function with an invariant
`Valid`. Lemmas prove the invariant is preserved by every action and so
holds in every reachable state. Each slice's state object is also a class
whose methods update the fields in place, as the reducers' Immer drafts
do. Each method is proved to produce `Reduce` of the old state.

Each component is a class holding its local React state, with one method
per handler. Each class has a round invariant, and every handler is
proved to keep it. What the model takes as parameters:

- random draws and the shuffle's swaps;
- the fetch provider, a map from Pokémon id to record, where a missing id
  means a failed request;
- timestamps.

Files:

| file | module | models |
|---|---|---|
| common.dfy | Common | records, `Math.round` of a quotient, the 20-entry history cap, the shuffle as swaps |
| text.dfy | Text | `toString`, `padStart(2, '0')`, `capitalizeName` |
| memory_game_slice.dfy | MemoryGameSlice | `memoryGameSlice.js` |
| whos_that_pokemon_slice.dfy | WhosThatPokemonSlice | `whosThatPokemonSlice.js` |
| type_matcher_slice.dfy | TypeMatcherSlice | `typeMatcherSlice.js` |
| memory_game.dfy | MemoryGame | `MemoryGame.jsx` |
| whos_that_pokemon.dfy | WhosThatPokemon | `WhosThatPokemon.jsx` |
| type_matcher.dfy | TypeMatcher | `TypeMatcher.jsx` |

Two behaviours of the code that a reader might expect otherwise; the
model follows the code:

- **The type matcher never dispatches to `typeMatcherSlice`.** Its score
  and attempts are local React state (TypeMatcher.jsx:36-37, 115, 123). So
  the slice and the component are modelled separately, and
  `updateTypeStats` is not invoked by the component.
- **Removing a type does not close every gap.** `[...droppedTypes]` turns
  the gaps of the sparse array into `undefined` entries.
  `filter(t => t !== null)` keeps those entries and drops only the removed
  slot (TypeMatcher.jsx:102-104). `TypeMatcher.RemoveAt` keeps them.

## Model

| member | source | states |
|---|---|---|
| Common.PushCapped | src/store/slices/memoryGameSlice.js:58-67 | `unshift` then one `pop` beyond 20: the new entry is first, the rest is the old history minus at most its oldest entry, and the length stays within 20 |
| Common.PushAllKeepsNewest | src/store/slices/whosThatPokemonSlice.js:35-45 | after any run of additions the history is the newest 20 entries, newest first |
| Common.RoundDiv | src/store/slices/memoryGameSlice.js:50-55 | `Math.round(n / d)`: the result r satisfies 2dr ≤ 2n + d < 2d(r + 1), i.e. nearest integer, halves up |
| Common.Percent | src/store/slices/typeMatcherSlice.js:23-25 | the rounded percentage is at most 100 when hits ≤ tries, exactly 100 when all hit, 0 when none |
| Common.ApplySwapsPermutes | src/components/MemoryGame/MemoryGame.jsx:91 | the shuffle is a permutation: the multiset of cards is unchanged |
| Text.NatToString | src/components/MemoryGame/MemoryGame.jsx:40 | `toString` of a non-negative number: at least one digit, one digit exactly below 10, two digits from 10 to 99, and a leading '0' only for the number 0 |
| Text.DecimalRoundTrip | src/components/MemoryGame/MemoryGame.jsx:40 | reading back the printed digits gives the number |
| Text.Pad2 | src/components/MemoryGame/MemoryGame.jsx:40 | `padStart(2, '0')`: at least two digits, exactly two below 100, denoting the number |
| Text.Capitalize | src/components/WhosThatPokemon/WhosThatPokemon.jsx:141-143 | same length, first character upper-cased, the rest unchanged; the same function as TypeMatcher.jsx:145-147 |
| MemoryGameSlice.Best | src/store/slices/memoryGameSlice.js:40-47 | the new record is the current value or the old record, and beats neither |
| MemoryGameSlice.RunningAverage | src/store/slices/memoryGameSlice.js:50-55 | `Math.round((average * (gamesWon - 1) + value) / gamesWon)` with `gamesWon` already incremented; its properties are `FirstWinAverage` and `AverageBetween` |
| MemoryGameSlice.Won | src/store/slices/memoryGameSlice.js:35-68 | a win counts one game played and won, leaves moves and time, never worsens a record, and puts the game at the head of the capped history |
| MemoryGameSlice.FirstWinAverage | src/store/slices/memoryGameSlice.js:50-55 | after the first win each average is that game's value |
| MemoryGameSlice.AverageBetween | src/store/slices/memoryGameSlice.js:50-55 | the new running average lies between the old average and the new value |
| MemoryGameSlice.WonPreservesValid | src/store/slices/memoryGameSlice.js:35-68 | a win keeps the invariant: records null only before the first win, played = won, history length min(won, 20), records no worse than any listed game or the averages |
| MemoryGameSlice.Reduce | src/store/slices/memoryGameSlice.js:18-89 | the reducer, one case per action: the counters' increments and `setTime`, `gameWon` as `Won`, the two partial resets and `resetAll`; proved to keep the invariant by `ReducePreservesValid` |
| MemoryGameSlice.ReducePreservesValid | src/store/slices/memoryGameSlice.js:18-88 | every action keeps that invariant |
| MemoryGameSlice.ReachableValid | src/store/slices/memoryGameSlice.js:3-88 | the invariant holds after any sequence of actions from the initial state |
| MemoryGameSlice.RecordsNeverWorsen | src/store/slices/memoryGameSlice.js:40-47 | except for the two resets, no action makes a set record worse |
| MemoryGameSlice.FirstGameScenario | src/store/slices/memoryGameSlice.js:20-68 | one move then a win from the initial state gives moves 1, won 1, best time 0, best moves 1, averages 1 and 0, and a one-entry history |
| MemoryGameSlice.MemoryStats.constructor | src/store/slices/memoryGameSlice.js:3-13 | the initial state |
| MemoryGameSlice.MemoryStats.IncrementMoves | src/store/slices/memoryGameSlice.js:20-22 | moves + 1, nothing else changes |
| MemoryGameSlice.MemoryStats.SetTime | src/store/slices/memoryGameSlice.js:25-27 | time := payload, nothing else changes |
| MemoryGameSlice.MemoryStats.IncrementTime | src/store/slices/memoryGameSlice.js:30-32 | time + 1, nothing else changes |
| MemoryGameSlice.MemoryStats.GameWon | src/store/slices/memoryGameSlice.js:35-68 | the reducer's updates, computed from the old fields and then stored, yield `Won` of the old state |
| MemoryGameSlice.MemoryStats.ResetCurrentGame | src/store/slices/memoryGameSlice.js:71-74 | moves and time zeroed, records and history kept |
| MemoryGameSlice.MemoryStats.ResetStats | src/store/slices/memoryGameSlice.js:77-85 | counters, records, averages and history cleared, moves and time kept |
| MemoryGameSlice.MemoryStats.ResetAll | src/store/slices/memoryGameSlice.js:88 | back to the initial state |
| WhosThatPokemonSlice.IncrementScoreEffect | src/store/slices/whosThatPokemonSlice.js:16-22 | score and streak + 1, best streak lifted to the streak when behind, the rest kept |
| WhosThatPokemonSlice.AddToHistoryEffect | src/store/slices/whosThatPokemonSlice.js:35-45 | the entry goes first, only the oldest can drop out, nothing else changes |
| WhosThatPokemonSlice.Reduce | src/store/slices/whosThatPokemonSlice.js:14-57 | the reducer, one case per action: a hit raises score and streak and lifts the best streak, a miss zeroes the streak, the history is capped at 20, `resetGame` keeps the best streak and history; its effects are stated by `IncrementScoreEffect` and `AddToHistoryEffect` |
| WhosThatPokemonSlice.ReducePreservesValid | src/store/slices/whosThatPokemonSlice.js:15-56 | every action keeps streak ≤ best streak and history ≤ 20 |
| WhosThatPokemonSlice.ReachableValid | src/store/slices/whosThatPokemonSlice.js:3-56 | that invariant holds in every reachable state |
| WhosThatPokemonSlice.StreakScenario | src/store/slices/whosThatPokemonSlice.js:16-27 | from streak 4 a hit gives streak and best 5, then a miss gives streak 0 and best 5 |
| WhosThatPokemonSlice.QuizStats.constructor | src/store/slices/whosThatPokemonSlice.js:3-9 | the initial state |
| WhosThatPokemonSlice.QuizStats.IncrementScore | src/store/slices/whosThatPokemonSlice.js:16-22 | the in-place updates yield the reducer's result |
| WhosThatPokemonSlice.QuizStats.ResetStreak | src/store/slices/whosThatPokemonSlice.js:25-27 | streak := 0, nothing else changes |
| WhosThatPokemonSlice.QuizStats.IncrementTotalPlayed | src/store/slices/whosThatPokemonSlice.js:30-32 | total played + 1, nothing else changes |
| WhosThatPokemonSlice.QuizStats.AddToHistory | src/store/slices/whosThatPokemonSlice.js:35-45 | unshift and cap yield the capped history |
| WhosThatPokemonSlice.QuizStats.ResetGame | src/store/slices/whosThatPokemonSlice.js:48-53 | score, total and streak zeroed, best streak and history kept |
| WhosThatPokemonSlice.QuizStats.ResetAll | src/store/slices/whosThatPokemonSlice.js:56 | back to the initial state |
| TypeMatcherSlice.BumpAllKeys | src/store/slices/typeMatcherSlice.js:36-57 | `updateTypeStats`: the listed types gain an entry and unlisted types are untouched |
| TypeMatcherSlice.BumpAllEntry | src/store/slices/typeMatcherSlice.js:36-57 | `updateTypeStats`: a listed type's entry gains one attempt per occurrence (and as many correct ones when the round was correct), with accuracy recomputed |
| TypeMatcherSlice.BumpAllPreservesValid | src/store/slices/typeMatcherSlice.js:39-56 | every type entry keeps attempts ≥ 1, correct ≤ attempts and accuracy = rounded percentage |
| TypeMatcherSlice.AccuracyOf | src/store/slices/typeMatcherSlice.js:23-25 | the rounded percentage of correct answers, 0 before the first attempt; bounded by `AccuracyIsPercentage` |
| TypeMatcherSlice.Bump | src/store/slices/typeMatcherSlice.js:39-56 | one pass of the `forEach` body: a missing entry starts at zero, one attempt is counted, one correct answer when the round was correct, and the accuracy is recomputed |
| TypeMatcherSlice.BumpAll | src/store/slices/typeMatcherSlice.js:36-57 | the whole `forEach`: one `Bump` per listed type, in order; its effect is stated by `BumpAllKeys` and `BumpAllEntry` |
| TypeMatcherSlice.IncrementScoreEffect | src/store/slices/typeMatcherSlice.js:17-26 | score + 1, best score = max(old best, new score), accuracy round(100·score/attempts) or 0 without attempts |
| TypeMatcherSlice.AccuracyScenario | src/store/slices/typeMatcherSlice.js:17-26 | score 2 of 4 attempts, then a hit: score 3, accuracy 75 |
| TypeMatcherSlice.AccuracyIsPercentage | src/store/slices/typeMatcherSlice.js:23-25 | with score ≤ attempts the accuracy is at most 100 |
| TypeMatcherSlice.ReducePreservesValid | src/store/slices/typeMatcherSlice.js:16-91 | every action keeps accuracy consistent with score and attempts, every type entry valid and the history ≤ 20 |
| TypeMatcherSlice.Reduce | src/store/slices/typeMatcherSlice.js:15-92 | the reducer, one case per action: score and best score with the accuracy, attempts with the accuracy, `updateTypeStats` as `BumpAll`, the capped history and the three resets |
| TypeMatcherSlice.ReachableValid | src/store/slices/typeMatcherSlice.js:3-91 | that invariant holds in every reachable state |
| TypeMatcherSlice.TypeMatcherStats.constructor | src/store/slices/typeMatcherSlice.js:3-10 | the initial state |
| TypeMatcherSlice.TypeMatcherStats.IncrementScore | src/store/slices/typeMatcherSlice.js:17-26 | the in-place updates yield the reducer's result |
| TypeMatcherSlice.TypeMatcherStats.IncrementAttempts | src/store/slices/typeMatcherSlice.js:29-33 | attempts + 1 and accuracy recomputed |
| TypeMatcherSlice.TypeMatcherStats.UpdateTypeStats | src/store/slices/typeMatcherSlice.js:36-57 | the `forEach` loop, one type at a time, yields `BumpAll` of the old map; the other fields are unchanged |
| TypeMatcherSlice.TypeMatcherStats.AddToHistory | src/store/slices/typeMatcherSlice.js:60-73 | unshift and cap yield the capped history |
| TypeMatcherSlice.TypeMatcherStats.ResetGame | src/store/slices/typeMatcherSlice.js:76-81 | score, attempts and accuracy zeroed, the rest kept |
| TypeMatcherSlice.TypeMatcherStats.ResetStats | src/store/slices/typeMatcherSlice.js:84-88 | best score, type statistics and history cleared, score, attempts and accuracy kept |
| TypeMatcherSlice.TypeMatcherStats.ResetAll | src/store/slices/typeMatcherSlice.js:91 | back to the initial state |
| MemoryGame.FormatTime | src/components/MemoryGame/MemoryGame.jsx:37-41 | minutes, a colon, two-digit seconds below 60; exactly "MM:SS" below 100 minutes |
| MemoryGame.FormatTimeRoundTrip | src/components/MemoryGame/MemoryGame.jsx:37-41 | the display reads back as the elapsed seconds |
| MemoryGame.ChosenIds | src/components/MemoryGame/MemoryGame.jsx:58-71 | six distinct ids, each one drawn |
| MemoryGame.SelectIds | src/components/MemoryGame/MemoryGame.jsx:58-71 | the `while` loop returns the first six different draws, all within 1..151 |
| MemoryGame.CardIdInjective | src/components/MemoryGame/MemoryGame.jsx:85-86 | `${index}-a` / `${index}-b` ids never collide across pairs or sides |
| MemoryGame.CardId | src/components/MemoryGame/MemoryGame.jsx:85-86 | the card id `${index}-a` or `${index}-b`; `CardIdInjective` proves no two coincide |
| MemoryGame.PairCards | src/components/MemoryGame/MemoryGame.jsx:84-87 | the two face-down, unmatched cards of one Pokémon, sides a and b, with its id and name |
| MemoryGame.BuildDeck | src/components/MemoryGame/MemoryGame.jsx:76-88 | 2N cards; cards 2i and 2i+1 are the face-down pair of Pokémon i |
| MemoryGame.DeckIdsDistinct | src/components/MemoryGame/MemoryGame.jsx:84-87 | all card ids of the deck differ |
| MemoryGame.DeckKeys | src/components/MemoryGame/MemoryGame.jsx:76-88 | the deck's Pokémon keys are the fetched keys, each twice |
| MemoryGame.DeckKeysSnoc | src/components/MemoryGame/MemoryGame.jsx:76-88 | one more fetched Pokémon adds its key twice to the deck |
| MemoryGame.Deal | src/components/MemoryGame/MemoryGame.jsx:76-91 | the deck, shuffled by the swaps; its properties are `DealFacts` |
| MemoryGame.DealFacts | src/components/MemoryGame/MemoryGame.jsx:76-92 | after the shuffle: 2N distinct-id cards, all face down and unmatched, every key exactly twice when the Pokémon differ |
| MemoryGame.FindIndex | src/components/MemoryGame/MemoryGame.jsx:106 | `cards.find`: the first card with that id, or none when no card has it |
| MemoryGame.AllMatchedIff | src/components/MemoryGame/MemoryGame.jsx:167 | comparing `matchedCards.length` with `cards.length` is the same as every card being matched |
| MemoryGame.FlipUp | src/components/MemoryGame/MemoryGame.jsx:115-119 | the `cards.map` of a click: the card with that id turns face up, every other card is unchanged; `ClickKeepsConsistent` proves it keeps the round consistent |
| MemoryGame.MarkMatched | src/components/MemoryGame/MemoryGame.jsx:140-146 | the `cards.map` of a match: both cards with those ids become matched, the others are unchanged; see `MatchKeepsConsistent` |
| MemoryGame.FlipDown | src/components/MemoryGame/MemoryGame.jsx:153-158 | the `cards.map` of a mismatch: both cards with those ids turn face down, the others are unchanged; see `MismatchKeepsConsistent` |
| MemoryGame.ClickKeepsConsistent | src/components/MemoryGame/MemoryGame.jsx:114-122 | flipping an accepted card keeps ids unique, at most two distinct unmatched cards face up and faces agreeing with the lists |
| MemoryGame.MatchKeepsConsistent | src/components/MemoryGame/MemoryGame.jsx:139-149 | marking a matching pair keeps the round consistent and adds both ids to the matched list |
| MemoryGame.MismatchKeepsConsistent | src/components/MemoryGame/MemoryGame.jsx:152-161 | turning a non-matching pair back keeps the round consistent |
| MemoryGame.MemoryGame.constructor | src/components/MemoryGame/MemoryGame.jsx:189-191 | mounting deals the first round on an empty, unwon table |
| MemoryGame.MemoryGame.FetchCards | src/components/MemoryGame/MemoryGame.jsx:55-98 | the table holds the shuffled deck of the six chosen Pokémon, or nothing when a fetch fails; with a faithful provider every key shows exactly twice |
| MemoryGame.MemoryGame.ClickCard | src/components/MemoryGame/MemoryGame.jsx:101-129 | a won game, two face-up cards, an unknown, matched or already face-up card leave everything as is; otherwise play starts, the card turns face up and the second card counts one move |
| MemoryGame.MemoryGame.ResolvePair | src/components/MemoryGame/MemoryGame.jsx:132-163 | a matching pair becomes matched and is recorded, any other pair turns face down; the face-up list empties; the invariant holds |
| MemoryGame.MemoryGame.CheckForWin | src/components/MemoryGame/MemoryGame.jsx:166-174 | the round is won exactly when there are cards and all are matched; a win stops play and applies `gameWon` once |
| MemoryGame.MemoryGame.Restart | src/components/MemoryGame/MemoryGame.jsx:177-186 | the table is cleared, moves and time reset, and a new round dealt |
| WhosThatPokemon.WrongPicksMembers | src/components/WhosThatPokemon/WhosThatPokemon.jsx:72-94 | the wrong ids are distinct, drawn, fetchable and never the right id |
| WhosThatPokemon.WrongPicksLength | src/components/WhosThatPokemon/WhosThatPokemon.jsx:76-91 | the loop keeps as many ids as needed, or as many as are available |
| WhosThatPokemon.WrongPicks | src/components/WhosThatPokemon/WhosThatPokemon.jsx:72-94 | the ids the wrong-option loop keeps: a draw already used is skipped, a new draw is marked used and kept when its fetch succeeds, until enough are kept; stated by `WrongPicksMembers` and `WrongPicksLength` |
| WhosThatPokemon.WrongOptionsFor | src/components/WhosThatPokemon/WhosThatPokemon.jsx:83-86 | one `{ name, isCorrect: false }` per fetched id, in order |
| WhosThatPokemon.GenerateWrongOptions | src/components/WhosThatPokemon/WhosThatPokemon.jsx:72-94 | the loop returns exactly three incorrect options, named after the first three fetchable, distinct, non-right draws; a failed fetch still uses up its id |
| WhosThatPokemon.AssembleOptionsWellFormed | src/components/WhosThatPokemon/WhosThatPokemon.jsx:58-61 | whatever the shuffle: four options, exactly one correct, and it carries the Pokémon's name |
| WhosThatPokemon.AssembleOptions | src/components/WhosThatPokemon/WhosThatPokemon.jsx:58-61 | the right option first, then the wrong ones, shuffled by the swaps; `AssembleOptionsWellFormed` states the result |
| WhosThatPokemon.AnswerRoundEffect | src/components/WhosThatPokemon/WhosThatPokemon.jsx:105-121 | one answer: one more round played; a hit raises score and streak, a miss zeroes the streak; the entry heads the history |
| WhosThatPokemon.AnswerRoundKeepsInvariant | src/components/WhosThatPokemon/WhosThatPokemon.jsx:105-121 | an answer keeps the slice invariant and score ≤ rounds played |
| WhosThatPokemon.AnswerRound | src/components/WhosThatPokemon/WhosThatPokemon.jsx:105-121 | the dispatches of one answer, in order: `incrementTotalPlayed`, then `incrementScore` or `resetStreak`, then `addToHistory`; stated by `AnswerRoundEffect` |
| WhosThatPokemon.WhosThatPokemon.constructor | src/components/WhosThatPokemon/WhosThatPokemon.jsx:136-138 | mounting loads the first Pokémon with its well-formed shuffled options, in an unrevealed round with nothing selected; with no Pokémon and no options when the fetch fails |
| WhosThatPokemon.WhosThatPokemon.FetchRandomPokemon | src/components/WhosThatPokemon/WhosThatPokemon.jsx:34-69 | the round is cleared; the fetched Pokémon comes with its shuffled options, or the previous Pokémon and options stay when the fetch fails |
| WhosThatPokemon.WhosThatPokemon.SelectOption | src/components/WhosThatPokemon/WhosThatPokemon.jsx:97-122 | only the first choice of a round counts: it is revealed with feedback and the statistics take one answer |
| WhosThatPokemon.WhosThatPokemon.Restart | src/components/WhosThatPokemon/WhosThatPokemon.jsx:130-133 | `resetGame` applied, then a new round |
| TypeMatcher.SetSlot | src/components/TypeMatcher/TypeMatcher.jsx:93-94 | `copy[i] = v`: length max(old, i + 1), slot i holds v, every other slot is as before or a gap |
| TypeMatcher.RemoveAt | src/components/TypeMatcher/TypeMatcher.jsx:100-105 | `[...d]`, `d[index] = null`, then `filter(t => t !== null)`: the slot goes away, later slots move up and gaps elsewhere stay; stated by `RemoveAtFilled` |
| TypeMatcher.Filled | src/components/TypeMatcher/TypeMatcher.jsx:109 | `filter(t => t)`: the names of the filled slots, in order; stated by `FilledFacts` |
| TypeMatcher.DropAllowed | src/components/TypeMatcher/TypeMatcher.jsx:85-90 | the capacity test of a drop: refused when the array is already as long as the Pokémon has types and the target slot is empty, gaps counting toward the length |
| TypeMatcher.IsCorrectAnswer | src/components/TypeMatcher/TypeMatcher.jsx:117-122 | every type of the Pokémon is in some slot and there are exactly as many slots as types; stated by `CorrectIffSameTypes` and `AnswerOrderIrrelevant` |
| TypeMatcher.FilledFacts | src/components/TypeMatcher/TypeMatcher.jsx:109 | `filter(t => t)` keeps exactly the non-empty names present, never more than there are slots, and as many only when no slot is empty |
| TypeMatcher.RemoveAtFilled | src/components/TypeMatcher/TypeMatcher.jsx:100-105 | removal keeps the other names in order and loses exactly the removed slot's name |
| TypeMatcher.AnswerOrderIrrelevant | src/components/TypeMatcher/TypeMatcher.jsx:117-122 | the verdict does not depend on the order of the slots |
| TypeMatcher.CorrectIffSameTypes | src/components/TypeMatcher/TypeMatcher.jsx:117-122 | for a complete answer and distinct types: correct if and only if the dropped names and the required types are the same set |
| TypeMatcher.GapScenario | src/components/TypeMatcher/TypeMatcher.jsx:85-94 | with two types, a first drop into slot 1 leaves a gap at slot 0 that the capacity test then refuses, and the check would only warn |
| TypeMatcher.TypeMatcher.constructor | src/components/TypeMatcher/TypeMatcher.jsx:155-157 | mounting: score and attempts 0, the first Pokémon loaded (or none), empty slots, unrevealed, no feedback, nothing dragged |
| TypeMatcher.TypeMatcher.FetchRandomPokemon | src/components/TypeMatcher/TypeMatcher.jsx:44-67 | empty slots, not revealed, no feedback; the fetched Pokémon, or the previous one on failure |
| TypeMatcher.TypeMatcher.DragStart | src/components/TypeMatcher/TypeMatcher.jsx:70-73 | the dragged type is remembered, nothing else changes, and the round invariant is kept |
| TypeMatcher.TypeMatcher.Drop | src/components/TypeMatcher/TypeMatcher.jsx:82-97 | no dragged type, a revealed round, or a full array with an empty target slot change nothing; otherwise only that slot is set and the drag ends; never more filled slots than types |
| TypeMatcher.TypeMatcher.RemoveType | src/components/TypeMatcher/TypeMatcher.jsx:100-105 | outside a revealed round the slot is removed and later ones move up |
| TypeMatcher.TypeMatcher.CheckAnswer | src/components/TypeMatcher/TypeMatcher.jsx:108-130 | an incomplete answer only warns; a complete one is revealed, counts one attempt, and scores only when correct; score ≤ attempts is kept; the dragged type is untouched in both cases |
| TypeMatcher.TypeMatcher.Restart | src/components/TypeMatcher/TypeMatcher.jsx:138-142 | score and attempts zeroed, then a fresh round; the dragged type is untouched |

## Left out

- MemoryGameSlice.MemoryStats.GameWon: computes the new counters, records, averages and history in locals and stores them together, rather than assigning the draft's fields one at a time. The final state is the same, and no state in between is visible outside the reducer.
- TypeMatcherSlice.TypeMatcherStats.UpdateTypeStats: builds each type's updated entry as a value and stores it once, rather than creating it and then changing its fields in the map. The map after each type is the same.
- Network requests (`axios.get`, `Promise.all`): fetch results are a map parameter; an absent id is a failed request. Response shapes and sprite URLs are not modelled.
- `Math.random`: the drawn ids are a sequence parameter and the `sort(() => Math.random() - 0.5)` shuffle is a sequence of swaps. The distribution of the shuffle is not modelled, only that it permutes.
- MemoryGame.MemoryGame.FetchCards: the draws must hold six different ids (and the quiz's must hold three usable wrong ids). With fewer the source loops forever; the model does not describe that case.
- Timers: `setTimeout` delays (500 ms, 1000 ms, the confetti timeouts) and the `setInterval` tick that repeatedly applies `incrementTime`. `ResolvePair` is the timeout firing, and `MemoryStats.IncrementTime` is the tick. A pending timeout that fires after a restart is not modelled.
- `Date.now()`: timestamps are parameters.
- Common.Percent: uses exact rational rounding, while the source computes `Math.round((score / attempts) * 100)` in floating point. The two can differ on an exact half that is not representable in binary, e.g. 29/200 is 14 in JavaScript and 15 here.
- Text.UpperCase: handles the ASCII letters only, not Unicode `toUpperCase`.
- Rendering, framer-motion, confetti, icons, CSS, navigation, the drag-and-drop event objects and `POKEMON_TYPES` (a display-only colour table).
- The Redux store wiring and persistence (`src/store/store.js` is not part of this model).
- `showConfetti` state in all three components.
- TypeMatcher.TypeMatcher.Drop: requires a loaded Pokémon and takes only slot indices of the rendered drop zones (0 to types.length - 1). The drop zones are rendered only once a Pokémon is loaded (src/components/TypeMatcher/TypeMatcher.jsx:259), and the handler is never called with other indices.
- TypeMatcher.TypeMatcher.CheckAnswer: requires a loaded Pokémon. The check button is rendered only once one is loaded (src/components/TypeMatcher/TypeMatcher.jsx:314); without one, the handler would throw reading `pokemon.types`.
- WhosThatPokemon.WhosThatPokemon.SelectOption: requires a loaded Pokémon. The options are only rendered once one is loaded; without one, the source throws reading `pokemon.name`.
