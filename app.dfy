/** The quiz screen's state and the handlers that change it: answering a
    question, moving between questions, and choosing categories. */
module App {
  import opened Wrappers
  import opened Seqs
  import opened Shuffling
  import opened Leitner
  import opened Cards
  import opened Choices
  import opened PoolBuilder

  /** The mode selector: multiple choice or flash cards. */
  datatype Mode = Test | Flash

  /** The number of options of a multiple-choice question. */
  const ChoiceCount := 4

  /** `pool[idx % Math.max(1, pool.length)]`: undefined only for an empty pool. */
  function CurrentAt(pool: seq<Entry>, idx: nat): (r: Option<Entry>)
    ensures r.Some? <==> pool != []
    ensures r.Some? ==> r.value in pool
  {
    var k := idx % Max(1, |pool|);
    if k < |pool| then Some(pool[k]) else None
  }

  /** The position wraps around: moving on by the pool's length shows the same
      question, and a position inside the pool shows the entry there. */
  lemma CurrentWraps(pool: seq<Entry>, idx: nat)
    ensures CurrentAt(pool, idx + |pool|) == CurrentAt(pool, idx)
    ensures idx < |pool| ==> CurrentAt(pool, idx) == Some(pool[idx])
  {
    if pool != [] {
      ModPeriod(idx, |pool|);
    }
  }

  lemma ModPeriod(a: nat, n: nat)
    requires n > 0
    ensures (a + n) % n == a % n
  {
    var q, r := a / n, a % n;
    assert a == q * n + r;
    assert a + n == (q + 1) * n + r;
    ModUnique(a + n, n, q + 1, r);
  }

  /** The remainder is determined by any decomposition with a remainder in range. */
  lemma ModUnique(x: nat, n: nat, k: int, r: int)
    requires n > 0 && 0 <= r < n && x == k * n + r
    ensures x % n == r
  {
    var q := x / n;
    assert x == q * n + x % n;
    assert (k - q) * n == x % n - r;
    MulBounds(k - q, n);
  }

  lemma MulBounds(d: int, n: int)
    requires n >= 0
    ensures d >= 1 ==> d * n >= n
    ensures d <= -1 ==> d * n <= -n
  {
    if d >= 1 {
      assert d * n == (d - 1) * n + n;
    } else if d <= -1 {
      assert d * n == -((-d - 1) * n) - n;
    }
  }

  /** `cards.filter(c => c.category === cat)`: where distractors come from. */
  function SameCategory(cards: seq<Card>, cat: string): (r: seq<Card>)
    ensures |r| <= |cards|
    ensures forall c :: c in r <==> c in cards && c.category == cat
  {
    Filter(cards, (c: Card) => c.category == cat)
  }

  /** The options of a question on one of the cards: there are enough swap
      indices for its category, and with unique ids the card is offered once
      among `min(4, |category|)` options. */
  lemma QuestionChoices(cards: seq<Card>, card: Card, jsPick: seq<nat>, jsOrder: seq<nat>)
    requires Draws(cards, jsPick, jsOrder)
    ensures Draws(SameCategory(cards, card.category), jsPick, jsOrder)
    ensures DistinctIds(cards) && card in cards ==>
      var same := SameCategory(cards, card.category);
      var r := MakeChoices(card, same, ChoiceCount, jsPick, jsOrder);
      |r| == Min(ChoiceCount, |same|) && multiset(r)[card] == 1
  {
    var same := SameCategory(cards, card.category);
    SwapIndicesFewer(jsPick, |same|, |cards|);
    SwapIndicesFewer(jsOrder, |same| + 1, |cards| + 1);
    if DistinctIds(cards) && card in cards {
      FilterKeepsDistinct(cards, (c: Card) => c.category == card.category);
      ChoicesFromDistinctPool(card, same, ChoiceCount, jsPick, jsOrder);
    }
  }

  /** The options after the question changed to `current`: drawn afresh from
      the current card's category, or left as they were without a question. */
  function ChoicesFor(cards: seq<Card>, current: Option<Entry>, prev: seq<Card>, jsPick: seq<nat>, jsOrder: seq<nat>): (r: seq<Card>)
    requires Draws(cards, jsPick, jsOrder)
    ensures current.None? ==> r == prev
    ensures current.Some? && DistinctIds(cards) && current.value.card in cards ==>
      |r| == Min(ChoiceCount, |SameCategory(cards, current.value.card.category)|) && multiset(r)[current.value.card] == 1
  {
    if current.None? then prev
    else
      var card := current.value.card;
      QuestionChoices(cards, card, jsPick, jsOrder);
      MakeChoices(card, SameCategory(cards, card.category), ChoiceCount, jsPick, jsOrder)
  }

  /** The progress map after `markResult`: the current card's record replaced
      by the answered one; without a current card nothing changes. */
  function Marked(progress: map<string, Progress>, current: Option<Entry>, isCorrect: bool, now: int): (r: map<string, Progress>)
    ensures current.None? ==> r == progress
  {
    if current.None? then progress
    else progress[current.value.card.id := Answered(RecordOf(progress, current.value.card.id), isCorrect, now)]
  }

  /** Only the current card's entry changes, and it becomes the answered record. */
  lemma MarkedTouchesOnlyCurrent(progress: map<string, Progress>, e: Entry, isCorrect: bool, now: int)
    ensures var r := Marked(progress, Some(e), isCorrect, now);
      e.card.id in r && r[e.card.id] == Answered(RecordOf(progress, e.card.id), isCorrect, now) &&
      (forall k :: k != e.card.id ==> (k in r <==> k in progress) && (k in r ==> r[k] == progress[k]))
  {
  }

  /** The new record of the current card: one more answer, one more right or
      wrong, a box in 0..4 moved one step, due after that box's interval. */
  lemma MarkedRecord(progress: map<string, Progress>, e: Entry, isCorrect: bool, now: int)
    ensures var before := RecordOf(progress, e.card.id);
      var after := RecordOf(Marked(progress, Some(e), isCorrect, now), e.card.id);
      Or0(after.seen) == Or0(before.seen) + 1 &&
      (isCorrect ==> Or0(after.correct) == Or0(before.correct) + 1 && Or0(after.wrong) == Or0(before.wrong)) &&
      (!isCorrect ==> Or0(after.wrong) == Or0(before.wrong) + 1 && Or0(after.correct) == Or0(before.correct)) &&
      0 <= Or0(after.box) <= MaxBox &&
      Or0(after.due) == now + NextDueMs(Or0(after.box))
  {
  }

  /** `toggleCat(cat)` on the selection `cats`. */
  function Toggled(cats: set<string>, cat: string): (r: set<string>)
    ensures r != {}
    ensures forall x :: x != cat ==> (x in r <==> x in cats)
    ensures cat in r <==> cat !in cats || cats == {cat}
  {
    var n := if cat in cats then cats - {cat} else cats + {cat};
    if n == {} then n + {cat} else n
  }

  /** Toggling the same category twice restores a non-empty selection. */
  lemma ToggleTwiceRestores(cats: set<string>, cat: string)
    requires cats != {}
    ensures Toggled(Toggled(cats, cat), cat) == cats
  {
    if cat !in cats {
      assert Toggled(cats, cat) == cats + {cat};
      assert cats + {cat} - {cat} == cats;
    } else if cats != {cat} {
      assert Toggled(cats, cat) == cats - {cat};
    } else {
      assert Toggled(cats, cat) == {cat};
    }
  }

  /** Ids are unique, the category list is the sorted set of the cards'
      categories, and while there are categories at least one is selected. */
  ghost predicate Consistent(cards: seq<Card>, categories: seq<string>, selected: set<string>) {
    DistinctIds(cards) && categories == Categories(cards) && (categories != [] ==> selected != {})
  }

  /** The state of the first render is consistent. */
  lemma InitiallyConsistent(cards: seq<Card>)
    requires DistinctIds(cards)
    ensures Consistent(cards, Categories(cards), set c | c in Categories(cards))
  {
    var cats := Categories(cards);
    var selected := set c | c in cats;
    if cats != [] {
      assert cats[0] in selected;
    }
    assert Consistent(cards, cats, selected);
  }

  /** `stored` is what could be read back from the device: `None` when
      nothing was stored or what was stored could not be read. */
  function LoadProgress(stored: Option<map<string, Progress>>): (r: map<string, Progress>)
    ensures stored.None? ==> r == map[]
    ensures stored.Some? ==> r == stored.value
  {
    stored.GetOr(map[])
  }

  /** The quiz state. The pool is derived from it at every render, with the
      clock reading and the shuffles of that render; the handlers receive the
      pool as it was shown. */
  class Quiz {
    const cards: seq<Card>
    const categories: seq<string>
    var mode: Mode
    var focus: Focus
    var selectedCats: set<string>
    var progress: map<string, Progress>
    var idx: nat
    var choices: seq<Card>
    var revealed: bool
    var picked: Option<Card>

    /** The state is `Consistent`. */
    ghost predicate Valid()
      reads this
    {
      Consistent(cards, categories, selectedCats)
    }

    /** The pool of this state at time `t`. */
    function PoolAt(t: int, jsDue: seq<nat>, jsFresh: seq<nat>, jsRest: seq<nat>): (r: seq<Entry>)
      reads this
      requires PoolDraws(cards, jsDue, jsFresh, jsRest)
      ensures forall e :: e in r ==>
        e.card in cards && e.card.category in selectedCats && e.p == RecordOf(progress, e.card.id)
    {
      PoolFromSelection(cards, selectedCats, progress, focus, t, jsDue, jsFresh, jsRest);
      Pool(cards, selectedCats, progress, focus, t, jsDue, jsFresh, jsRest)
    }

    /** The first render: normalised cards, every category selected, the
        stored progress (none when it cannot be read), the first question. */
    constructor (raw: Option<seq<RawCard>>, kksOf: string -> string, stored: Option<map<string, Progress>>)
      ensures Valid()
      ensures cards == Normalize(raw, kksOf) && categories == Categories(cards)
      ensures selectedCats == (set c | c in categories)
      ensures progress == LoadProgress(stored)
      ensures mode == Test && focus == Mix && idx == 0
      ensures choices == [] && !revealed && picked.None?
    {
      var cs := Normalize(raw, kksOf);
      var cats := Categories(cs);
      cards := cs;
      categories := cats;
      mode := Test;
      focus := Mix;
      selectedCats := set c | c in cats;
      progress := LoadProgress(stored);
      idx := 0;
      choices := [];
      revealed := false;
      picked := None;
      InitiallyConsistent(cs);
    }

    /** `markResult(isCorrect)` for the question shown from `pool`. */
    method MarkResult(pool: seq<Entry>, isCorrect: bool, now: int)
      requires Valid()
      modifies this`progress
      ensures Valid()
      ensures progress == Marked(old(progress), CurrentAt(pool, idx), isCorrect, now)
    {
      var current := CurrentAt(pool, idx);
      if current.None? {
        return;
      }
      var id := current.value.card.id;
      var prev := RecordOf(progress, id);
      var seen := Or0(prev.seen) + 1;
      var box := Or0(prev.box);
      var correct := Or0(prev.correct);
      var wrong := Or0(prev.wrong);
      if isCorrect {
        correct := correct + 1;
        box := Clamp(box + 1, 0, MaxBox);
      } else {
        wrong := wrong + 1;
        box := Clamp(box - 1, 0, MaxBox);
      }
      var due := now + NextDueMs(box);
      progress := progress[id := Progress(Some(box), Some(due), Some(seen), Some(correct), Some(wrong))];
    }

    /** `next()`. */
    method Next()
      requires Valid()
      modifies this`idx
      ensures Valid()
      ensures idx == old(idx) + 1
    {
      idx := idx + 1;
    }

    /** The "previous" button: one step back, never below the first question. */
    method Previous()
      requires Valid()
      modifies this`idx
      ensures Valid()
      ensures idx == if old(idx) > 0 then old(idx) - 1 else 0
    {
      idx := Max(0, idx - 1);
    }

    /** The effect run when the question changes: the answer is hidden again
        and, when there is a question, its options are drawn from the cards of
        its category. */
    method ShowQuestion(pool: seq<Entry>, jsPick: seq<nat>, jsOrder: seq<nat>)
      requires Valid()
      requires Draws(cards, jsPick, jsOrder)
      modifies this`revealed, this`picked, this`choices
      ensures Valid()
      ensures !revealed && picked == None
      ensures choices == ChoicesFor(cards, CurrentAt(pool, idx), old(choices), jsPick, jsOrder)
    {
      revealed := false;
      picked := None;
      var current := CurrentAt(pool, idx);
      if current.None? {
        return;
      }
      var card := current.value.card;
      var same := SameCategory(cards, card.category);
      QuestionChoices(cards, card, jsPick, jsOrder);
      choices := MakeChoices(card, same, ChoiceCount, jsPick, jsOrder);
    }

    /** A click on an option in test mode: ignored while the answer is shown,
        otherwise the option is marked, the answer shown and the result
        recorded. `revealed` stays set only until the question effect runs
        again (see `AnswerRescoredAfterEffect`). */
    method Choose(pool: seq<Entry>, choice: Card, now: int)
      requires Valid()
      modifies this`picked, this`revealed, this`progress
      ensures Valid()
      ensures old(revealed) ==> picked == old(picked) && revealed && progress == old(progress)
      ensures !old(revealed) ==> picked == Some(choice) && revealed
      ensures !old(revealed) ==> progress == Marked(old(progress), CurrentAt(pool, idx), IsCorrectChoice(pool, choice), now)
    {
      if revealed {
        return;
      }
      picked := Some(choice);
      revealed := true;
      MarkResult(pool, IsCorrectChoice(pool, choice), now);
    }

    /** `choice.id === current.id`. */
    function IsCorrectChoice(pool: seq<Entry>, choice: Card): (r: bool)
      reads this
      ensures r ==> exists e :: e in pool && e.card.id == choice.id
      ensures idx < |pool| ==> (r <==> choice.id == pool[idx].card.id)
    {
      CurrentWraps(pool, idx);
      var current := CurrentAt(pool, idx);
      current.Some? && choice.id == current.value.card.id
    }

    /** The flash-card "revealed" button. */
    method RevealAnswer()
      requires Valid()
      modifies this`revealed
      ensures Valid()
      ensures revealed
    {
      revealed := true;
    }

    /** "I knew it" / "I failed" after a revealed flash card: record the
        result, then move on. */
    method SelfReport(pool: seq<Entry>, knew: bool, now: int)
      requires Valid()
      modifies this`progress, this`idx
      ensures Valid()
      ensures progress == Marked(old(progress), CurrentAt(pool, old(idx)), knew, now)
      ensures idx == old(idx) + 1
    {
      MarkResult(pool, knew, now);
      Next();
    }

    /** `toggleCat(cat)`: a copy of the selection with `cat` removed or added,
        and `cat` put back when nothing would be left. */
    method ToggleCat(cat: string)
      requires Valid()
      modifies this`selectedCats
      ensures Valid()
      ensures selectedCats == Toggled(old(selectedCats), cat)
    {
      var n := selectedCats;
      if cat in n {
        n := n - {cat};
      } else {
        n := n + {cat};
      }
      if |n| == 0 {
        n := n + {cat};
      }
      selectedCats := n;
    }

    /** "All": every category. */
    method SelectAllCats()
      requires Valid()
      modifies this`selectedCats
      ensures Valid()
      ensures selectedCats == (set c | c in categories)
    {
      selectedCats := set c | c in categories;
      if categories != [] {
        assert categories[0] in selectedCats;
      }
    }

    /** "Minimum": only the first category. */
    method SelectNoneCats()
      requires Valid()
      modifies this`selectedCats
      ensures Valid()
      ensures categories != [] ==> selectedCats == {categories[0]}
      ensures categories == [] ==> selectedCats == {}
    {
      if categories != [] {
        selectedCats := {categories[0]};
      } else {
        selectedCats := {};
      }
    }

    /** "Reset progress", once the user has confirmed. */
    method ResetProgress(confirmed: bool)
      requires Valid()
      modifies this`progress
      ensures Valid()
      ensures progress == if confirmed then map[] else old(progress)
    {
      if !confirmed {
        return;
      }
      progress := map[];
    }

    method SetMode(m: Mode)
      requires Valid()
      modifies this`mode
      ensures Valid() && mode == m
    {
      mode := m;
    }

    method SetFocus(f: Focus)
      requires Valid()
      modifies this`focus
      ensures Valid() && focus == f
    {
      focus := f;
    }
  }

  /** Within one render a second click on an option changes nothing: the
      `reveal` guard lets only the first click be scored. The guard does not
      last beyond that render (see `AnswerRescoredAfterEffect`). */
  method AnswerIsScoredOnce(q: Quiz, pool: seq<Entry>, first: Card, second: Card, now: int, later: int)
    requires q.Valid() && !q.revealed
    modifies q
    ensures q.progress == Marked(old(q.progress), CurrentAt(pool, q.idx), q.IsCorrectChoice(pool, first), now)
    ensures q.picked == Some(first)
  {
    q.Choose(pool, first, now);
    q.Choose(pool, second, later);
  }

  /** Recording an answer changes `progress`, so the pool is derived again
      with fresh entry objects, `current` is a new object and the question
      effect runs once more: the answer is hidden, the options are drawn again
      and nothing is picked. A click on the same position after that is
      scored a second time. */
  method AnswerRescoredAfterEffect(q: Quiz, pool: seq<Entry>, rerendered: seq<Entry>, first: Card, second: Card,
                                   now: int, later: int, jsPick: seq<nat>, jsOrder: seq<nat>)
    requires q.Valid() && !q.revealed
    requires Draws(q.cards, jsPick, jsOrder)
    modifies q
    ensures q.revealed && q.picked == Some(second)
    ensures q.progress ==
      Marked(Marked(old(q.progress), CurrentAt(pool, q.idx), q.IsCorrectChoice(pool, first), now),
             CurrentAt(rerendered, q.idx), q.IsCorrectChoice(rerendered, second), later)
  {
    q.Choose(pool, first, now);
    q.ShowQuestion(rerendered, jsPick, jsOrder);
    q.Choose(rerendered, second, later);
  }
}
