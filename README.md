# KKS quiz engine — a Dafny model

This project models the engine of the KKS self-study quiz (`src/App.jsx`). The
quiz teaches KKS plant-tagging codes with two kinds of questions: multiple choice
and flash cards. It keeps a Leitner-style progress record for every card. The
model covers the parts of the app that decide things. Rendering is left out.

- **Leitner scheduler** (`leitner.dfy`):
  - `clamp`;
  - the review-interval table `nextDueMs` and the box label `boxLabel`;
  - the record update that `markResult` performs after an answer;
  - `Replay` applies a whole sequence of answers, so properties can be stated
    for any run of answers.
- **Shuffling** (`shuffling.dfy`): the Fisher–Yates `shuffle` and `pickN`.
  `Math.random` is replaced by an explicit sequence `js` of swap indices. Step
  `i` exchanges positions `i` and `js[i]`, where `js[i] <= i`.
  - `Shuffled` is the specification.
  - `Shuffle` is the loop. It runs over a fresh array copied from its argument,
    as `arr.slice()` does.
- **Card normalisation** (`cards.dfy`, with `strings.dfy` for `trim`, number
  rendering and the UTF-16 code-unit order of `sort`). It covers:
  - field trimming;
  - the KKS-code fallback;
  - the category chain `sheet || nivel || type || 'General'`;
  - the `id` template;
  - the filter that drops broken cards;
  - the sorted list of distinct categories.
- **Choices** (`choices.dfy`): `makeChoices`. It builds the correct card plus up
  to `n - 1` distractors with different ids, all in shuffled order.
- **Pool builder** (`pool.dfy`): the `new`, `due` and `mix` focus modes over the
  selected categories. Each card carries its progress record, or the all-zero
  record when it has none.
- **Summary** (`tallies.dfy`): the `stats` loop, proved against a recursive
  specification `Tally`.
- **Screen state** (`app.dfy`): the class `Quiz`, which holds the state the
  component keeps. Its methods are the handlers:
  - `markResult`, next and previous;
  - an option click, ignored once the answer is revealed;
  - flash-card self-report;
  - `toggleCat`, "all", "minimum" and reset.

  The methods are proved against the pure functions `CurrentAt`, `Marked`,
  `Toggled` and `ChoicesFor`.

Two values come in from outside as parameters:

- the clock reading `now`, passed to every operation that reads it;
- the random numbers, passed as swap-index sequences.

The regular-expression extraction of the code from the question text is the
function parameter `kksOf`. Only the fallbacks around it are modelled. Reading
from `localStorage` is a parameter `stored` that is `None` when nothing could be
read.

Two behaviours of the code are worth knowing:

- In `mix` mode the groups are not disjoint. A card that has never been
  answered is both due (its missing `due` reads as 0) and fresh, so it appears
  twice in the pool. `MixRepeatsUnrecorded` and `MixWithoutProgressDoubles`
  state this. Only the `rest` group is disjoint from the others.
- Distractors come from the current card's category only. When the category is
  small, fewer than four options are shown.

## Model

| member | source | states |
|---|---|---|
| Leitner.Clamp | src/App.jsx:10 | for `a <= b` the result lies in `[a, b]`; it is `n` inside the range, `a` below it and `b` above it |
| Leitner.NextDueMs | src/App.jsx:49-54 | the delay is one of the five table entries; for boxes 0..4 it is that box's entry; at or below 0 it is 0; at or above 4 it is 14 days |
| Leitner.NextDueMonotonic | src/App.jsx:49-54 | `nextDueMs` is non-decreasing over all integers |
| Leitner.IntervalsIncrease | src/App.jsx:50-53 | within 0..4 each box waits strictly longer than the one below |
| Leitner.BoxLabel | src/App.jsx:45-47 | total through the clamp: boxes 0..4 get their label, at or below 0 "Nuevo", at or above 4 "Dominado" |
| Leitner.RecordOf | src/App.jsx:172 | a stored record is used as it is; a missing one reads as all zeros |
| Leitner.Answered | src/App.jsx:225-240 | the new box is in 0..4; `seen` grows by exactly 1; exactly one of `correct` and `wrong` grows by 1 and the other is unchanged; `due` is `now` plus the new box's delay; from a box in 0..4 the new box is `min(box+1, 4)` after a correct answer and `max(box-1, 0)` after a wrong one; a missing field reads as 0 |
| Leitner.ReplayCounters | src/App.jsx:225-240 | after any sequence of answers, `seen` has grown by the number of answers, `correct` by the number of right ones and `wrong` by the number of wrong ones |
| Leitner.ReplayBoxInRange | src/App.jsx:227-239 | after at least one answer the box is in 0..4 for every sequence of answers, and the card is due at the last answer's time plus its box's delay |
| Leitner.CorrectRunClimbs | src/App.jsx:231-233 | `k` correct answers in a row from box `b` lead to box `min(b + k, 4)` |
| Leitner.CorrectThenWrong | src/App.jsx:225-239 | a new card answered right at `t` is in box 1, due at `t + 4h`; a wrong answer at `t2` after that puts it in box 0, due at `t2` |
| Shuffling.SwapIndicesFewer | src/App.jsx:25-26 | swap indices good for `n` elements are good for fewer |
| Shuffling.Shuffled | src/App.jsx:23-30 | the shuffle of the argument has its length; `ShuffledPermutes` and `ShuffledReachesEveryPermutation` state that it is a permutation and that every order is reachable |
| Shuffling.Shuffle | src/App.jsx:23-30 | the loop over a copy of the argument returns exactly `Shuffled(arr, js)`; the argument is a value and is left as it was |
| Shuffling.ShuffledPermutes | src/App.jsx:23-30 | the shuffle keeps every element as often as it occurs, so it returns a permutation of the same length |
| Shuffling.ShuffleStep | src/App.jsx:25-28 | one swap of the loop preserves its eventual result |
| Shuffling.ShuffledReadsPrefix | src/App.jsx:25-26 | the shuffle depends only on the swap indices of the positions it has |
| Shuffling.ShuffledReachesEveryPermutation | src/App.jsx:23-30 | every arrangement of the argument is produced by some valid choice of swap indices |
| Shuffling.SwapPermutes | src/App.jsx:27 | exchanging two elements keeps the contents |
| Shuffling.PickN | src/App.jsx:32-35 | the result is a sub-multiset of `arr`; for `n >= 0` it has `min(n, arr.length)` elements; for negative `n` it has `slice`'s length; for `n >= arr.length` it is a permutation of `arr` |
| Seqs.Take | src/App.jsx:34 | `slice(0, end)` is a prefix with JavaScript's length for positive and negative `end` |
| Seqs.Filter | src/App.jsx:38 | `filter` keeps exactly the elements that pass and never grows; order and multiplicity are stated by `FilterCounts`, `FilterAppend` and `FilterSingleton` |
| Seqs.FilterSubMultiset | src/App.jsx:38 | filtering keeps each element at most as often as it occurs |
| Seqs.FilterCounts | src/App.jsx:38 | `filter` keeps each passing element exactly as often as it occurs, and nothing else |
| Seqs.FilterAppend | src/App.jsx:38 | the filter of `a + b` is the filter of `a` followed by the filter of `b`, so the relative order is kept |
| Seqs.FilterSingleton | src/App.jsx:38 | a single element is kept exactly when it passes |
| Choices.Others | src/App.jsx:38 | the candidates are exactly the pool cards whose id differs from the correct one |
| Choices.MakeChoices | src/App.jsx:37-42 | the correct card is offered exactly once; every other option is a pool card with a different id, offered no more often than it occurs in the pool; the number of options is `1 + min(n - 1, others.length)` for `n >= 1` |
| Choices.OptionsFacts | src/App.jsx:39-40 | any arrangement of the correct card and distractors taken from the others holds the correct card once and nothing else from outside the others |
| Choices.ChoicesFromDistinctPool | src/App.jsx:37-42 | from a pool with unique ids that holds the correct card, the options are `min(n, pool.length)` cards, none repeated |
| Strings.TrimStartSpec | src/App.jsx:113 | `trim`'s left half removes a white-space prefix and keeps what starts with a non-space |
| Strings.TrimEndSpec | src/App.jsx:113 | `trim`'s right half removes a white-space suffix and keeps what ends with a non-space |
| Strings.Trim | src/App.jsx:113-118 | `trim` leaves no white space at either end and gives the empty string exactly when the input is all white space |
| Strings.TrimSpec | src/App.jsx:113-118 | the trimmed text is the infix of the input left after removing white space at both ends |
| Strings.NatToString | src/App.jsx:134 | the rendering of the index is non-empty and made of decimal digits |
| Strings.NatToStringInjective | src/App.jsx:134 | different indices render differently |
| Strings.AfterLastDash | src/App.jsx:134 | an id `x-a` with no dash in `a` determines `a` |
| Strings.Insert | src/App.jsx:154 | inserting into a strictly sorted list keeps it strictly sorted and adds exactly the new element |
| Strings.CodeUnits | src/App.jsx:154 | a character below U+10000 is one code unit, itself and not a surrogate; a larger one is a high then a low surrogate |
| Strings.CodeUnitsInjective | src/App.jsx:154 | different characters have different code units |
| Strings.Utf16Injective | src/App.jsx:154 | different strings have different UTF-16 encodings |
| Strings.Below | src/App.jsx:154 | `sort`'s default order compares UTF-16 code units; a string is never below itself, and the empty string is below every other |
| Strings.SurrogatesSortBeforeHighBmp | src/App.jsx:154 | U+1F600 sorts before U+FF21, though its code point is larger |
| Strings.SortedListIsUnique | src/App.jsx:154 | two strictly sorted lists with the same elements are equal |
| Cards.Text | src/App.jsx:113-118 | a missing field becomes the empty string |
| Cards.CategoryOf | src/App.jsx:131 | the category is never empty; it is the first non-empty of sheet, nivel and type, else "General" |
| Cards.NormalizeCard | src/App.jsx:112-145 | the prompt is the extracted code when that is non-empty, else the whole trimmed question; the answer is the trimmed `a`; the category is non-empty; the id is `category-prompt-index` |
| Cards.Numbered | src/App.jsx:112 | the i-th normalised card is the normalisation of entry i with index i |
| Cards.Normalize | src/App.jsx:103-148 | the kept cards are exactly the normalised entries with non-empty prompt and answer; every kept card has a category; ids are unique |
| Cards.NumberedIdsDistinct | src/App.jsx:134 | the index suffix makes every id of the normalised list unique |
| Cards.FilterKeepsDistinct | src/App.jsx:148 | filtering keeps ids unique |
| Cards.DistinctIdsNoRepeats | src/App.jsx:148 | with unique ids no card occurs twice |
| Cards.MissingBankIsEmpty | src/App.jsx:103 | a missing `raw.cards` yields no cards |
| Cards.CompleteBankKeepsEverything | src/App.jsx:148 | when every entry has a non-blank question and answer, nothing is dropped |
| Cards.Categories | src/App.jsx:152-155 | the category list is strictly sorted and holds exactly the categories of the cards |
| Cards.CategoriesAreTheSortedSet | src/App.jsx:152-155 | the category list is the only strictly sorted list of those categories |
| Cards.CategoriesEmptyIff | src/App.jsx:152-155 | there are categories exactly when there are cards |
| PoolBuilder.InCategories | src/App.jsx:168 | keeps exactly the cards whose category is selected |
| PoolBuilder.WithProgress | src/App.jsx:171-174 | each card gets its own record, or the all-zero record when it has none |
| PoolBuilder.Candidates | src/App.jsx:168-174 | the candidates are exactly the selected cards, each with its own record |
| PoolBuilder.Fresh | src/App.jsx:177 | keeps exactly the entries whose `seen`, read as 0 when missing, is 0 |
| PoolBuilder.DueNow | src/App.jsx:178 | keeps exactly the entries whose `due`, read as 0 when missing, is at most `t` |
| PoolBuilder.Rest | src/App.jsx:182 | keeps exactly the entries not yet due and already answered |
| PoolBuilder.Mixed | src/App.jsx:183 | the mixed pool is the due group first, then the fresh group, then the rest: each of the three stretches holds exactly its group's elements, and the total length is the sum |
| PoolBuilder.Pool | src/App.jsx:166-184 | the pool has at most three entries per card |
| PoolBuilder.PoolFromSelection | src/App.jsx:166-184 | in every focus, each pool entry is a selected card carrying its own record |
| PoolBuilder.NewPoolIsUnseen | src/App.jsx:177 | in `new` focus the pool holds exactly the selected cards that were never answered, each as often as among the candidates |
| PoolBuilder.DuePoolIsDue | src/App.jsx:178 | in `due` focus the pool holds exactly the selected cards due at `t`, with a missing record read as zeros, each as often as among the candidates |
| PoolBuilder.CandidatesAppend | src/App.jsx:168-174 | the candidates of `a + b` are those of `a` followed by those of `b` |
| PoolBuilder.UnshuffledPoolKeepsCardOrder | src/App.jsx:177-178 | the `new` and `due` pools follow the card list's order: the pool of `a + b` is the pool of `a` followed by the pool of `b` |
| PoolBuilder.UnrecordedIsDue | src/App.jsx:172-178 | a selected card without a record is in both the `due` and the `new` pool for `t >= 0` |
| PoolBuilder.MixPoolIsThreeGroups | src/App.jsx:179-183 | in `mix` focus the pool is the due group, then the fresh group, then the rest, each stretch holding exactly its group; the length is the sum of the three group lengths |
| PoolBuilder.RestIsDisjoint | src/App.jsx:180-182 | the rest group shares no entry with the due group or the fresh group |
| PoolBuilder.MixPoolCovers | src/App.jsx:180-183 | in `mix` focus every selected card lands in at least one group, and so in the pool; the exception is a stored record with a negative answer count that is not yet due |
| PoolBuilder.MixRepeatsUnrecorded | src/App.jsx:180-183 | a selected card without a record appears at least twice in the `mix` pool |
| PoolBuilder.MixWithoutProgressDoubles | src/App.jsx:180-183 | with no progress at all the `mix` pool is twice as long as the selection |
| PoolBuilder.UnrecordedGroups | src/App.jsx:172-182 | entries with the all-zero record are all fresh and all due, and none is in the rest |
| Tallies.Ids | src/App.jsx:208 | the id list has one id per card, in order |
| Tallies.SummaryOf | src/App.jsx:206-221 | the total is the number of cards, and seen, mastered and due lie between 0 and the total |
| Tallies.Stats | src/App.jsx:206-221 | the loop's summary equals the specification `SummaryOf`: total is the number of cards, and ids without a record are skipped |
| Tallies.Tally | src/App.jsx:209-219 | the seen, mastered and due counts lie between 0 and the number of ids |
| Tallies.TallyCountsFilters | src/App.jsx:211-219 | seen, mastered and due count exactly the ids whose record is answered, in box 4 or more, and due |
| Tallies.TallyOfNoProgress | src/App.jsx:211-213 | with no progress every counter is 0 |
| Tallies.TallyIgnoresOthers | src/App.jsx:211-212 | records of ids that are not listed do not change the summary |
| Tallies.TallyAfterAnswer | src/App.jsx:211-219 | answering a listed card adds 1 to exactly one of the correct and wrong totals, and 1 to seen when the card had no answers |
| Tallies.SummaryAfterAnswer | src/App.jsx:206-242 | for a card list with unique ids, an answer adds 1 to exactly one of the correct and wrong totals; seen grows by 1 if the card had no answers and is unchanged otherwise; the total is unchanged |
| Tallies.OccursOnce | src/App.jsx:208 | a value found at only one position occurs once |
| App.CurrentAt | src/App.jsx:189 | there is a current entry exactly when the pool is non-empty, and it is a pool entry |
| App.CurrentWraps | src/App.jsx:189 | the position wraps modulo the pool length, and a position inside the pool shows the entry there |
| App.ModPeriod | src/App.jsx:189 | `(a + n) % n == a % n` |
| App.SameCategory | src/App.jsx:202 | keeps exactly the cards of the given category |
| App.QuestionChoices | src/App.jsx:201-203 | with unique ids, a question's options are `min(4, n)` cards, where `n` is the size of its category, and contain the current card exactly once |
| App.ChoicesFor | src/App.jsx:196-204 | with no question the options stay as they were; with one, they are as `QuestionChoices` states |
| App.Marked | src/App.jsx:223-241 | with no current card the progress map is unchanged |
| App.MarkedTouchesOnlyCurrent | src/App.jsx:241 | only the current card's entry changes, and it becomes the answered record |
| App.MarkedRecord | src/App.jsx:225-240 | the current card's record gains one answer; `correct` grows by 1 after a right answer and `wrong` after a wrong one, the other unchanged; its box is in 0..4 and it is due after that box's delay |
| App.Toggled | src/App.jsx:253-261 | the selection is never empty; other categories are untouched; `cat` ends up selected exactly when it was not, or when it was the only one |
| App.ToggleTwiceRestores | src/App.jsx:253-261 | toggling a category twice restores any non-empty selection |
| App.InitiallyConsistent | src/App.jsx:152-158 | the first selection is every category, so it is non-empty whenever there are cards |
| App.LoadProgress | src/App.jsx:12-17 | a read that fails gives the empty map; one that succeeds gives what was stored |
| App.Quiz.constructor | src/App.jsx:102-162 | the first state: normalised cards, every category selected, the loaded progress, `mix` focus, position 0 |
| App.Quiz.PoolAt | src/App.jsx:166-184 | every entry of the current pool is a card of a selected category with its own record |
| App.Quiz.MarkResult | src/App.jsx:223-242 | the progress map becomes `Marked` of the old map for the current entry |
| App.Quiz.Next | src/App.jsx:244-246 | the position grows by one |
| App.Quiz.Previous | src/App.jsx:410 | the position steps back by one and never below 0 |
| App.Quiz.ShowQuestion | src/App.jsx:196-204 | the answer is hidden again and the options become `ChoicesFor` the current entry |
| App.Quiz.Choose | src/App.jsx:363-375 | once revealed a click changes nothing; otherwise the option is recorded as picked, the answer revealed, and the result marked with `choice.id === current.id` |
| App.Quiz.IsCorrectChoice | src/App.jsx:363 | a choice is correct only if a pool card has its id; at a position inside the pool, exactly when its id is that of the entry there |
| App.Quiz.RevealAnswer | src/App.jsx:392 | the answer is revealed |
| App.Quiz.SelfReport | src/App.jsx:400-401 | the flash-card result is marked, then the position moves on |
| App.Quiz.ToggleCat | src/App.jsx:253-261 | the selection becomes `Toggled` of the old one |
| App.Quiz.SelectAllCats | src/App.jsx:263 | every category is selected |
| App.Quiz.SelectNoneCats | src/App.jsx:264 | only the first category is selected |
| App.Quiz.ResetProgress | src/App.jsx:248-251 | after confirmation the progress map is empty; otherwise it is unchanged |
| App.Quiz.SetMode | src/App.jsx:288 | the mode becomes the one chosen |
| App.Quiz.SetFocus | src/App.jsx:296 | the focus becomes the one chosen |
| App.AnswerIsScoredOnce | src/App.jsx:370-375 | within one render, a second click on an option leaves the progress and the picked option as the first click set them |
| App.AnswerRescoredAfterEffect | src/App.jsx:184-204 | after the question effect runs again, a click at the same position is scored a second time |

## Left out

- Rendering: the `Card`, `Btn` and `Chip` components and the JSX tree. It has
  no logic beyond the guards modelled above. `src/main.jsx` holds only
  service-worker registration and mounting.
- `questionType` and `showEN` only choose which text is displayed. They are not
  modelled.
- `saveProgress` and the JSON parsing in `loadProgress` are I/O. Loading is
  modelled only as "a failed read gives the empty map" (`LoadProgress`).
- The `confirm` dialog in `resetProgress` is the parameter `confirmed`.
- `Math.random` and `Date.now` are parameters: swap-index sequences and `now`.
- The regular-expression extraction of the KKS code from `q` is the
  uninterpreted function parameter `kksOf`. Only the `if (!kks) kks = q`
  fallback is modelled.
- The fields of the bank are assumed to be strings when present. `toString()`
  on other JSON values is not modelled.
- The `useMemo`/`useEffect` re-derivation timing is framework scheduling. This
  includes resetting `idx` to 0 when the configuration changes and re-running
  the question effect. The pool is passed to the handlers as it was shown, and
  `ShowQuestion` is the effect body.
- App.Quiz.SelectNoneCats: with no categories at all the code builds a set
  holding `undefined`. The model uses the empty set. Either way, no card
  matches.
- PoolBuilder.MixPoolCovers: a stored record with a negative `seen` and a
  future `due` belongs to none of the three `mix` groups. The coverage property
  excludes such records. The app never writes them.
- App.AnswerIsScoredOnce: the `reveal` guard holds only within one render. Recording
  an answer changes `progress`, which derives the pool again with new entry
  objects. The question effect then runs again and hides the answer, so the
  same position can be scored a second time (`AnswerRescoredAfterEffect`).
  The model does not derive this re-run by itself. It is the `ShowQuestion`
  call that the caller makes.
