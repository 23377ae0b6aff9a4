/** The multiple-choice options of a question: the correct card plus up to
    `n - 1` distractors drawn from the same category, in shuffled order. */
module Choices {
  import opened Seqs
  import opened Shuffling
  import opened Cards

  /** `pool.filter(x => x.id !== correct.id)`. */
  function Others(pool: seq<Card>, id: string): (r: seq<Card>)
    ensures |r| <= |pool|
    ensures forall x :: x in r <==> x in pool && x.id != id
    ensures multiset(r) <= multiset(pool)
  {
    FilterSubMultiset(pool, (x: Card) => x.id != id);
    Filter(pool, (x: Card) => x.id != id)
  }

  /** How many distractors `pickN(others, n - 1)` keeps. */
  function DistractorCount(others: nat, n: int): nat {
    if n - 1 >= 0 then Min(n - 1, others) else Max(others + n - 1, 0)
  }

  /** The swap indices the two shuffles of `makeChoices` consume: one pass over
      the distractor candidates, one over the options (at most one more). */
  predicate Draws(pool: seq<Card>, jsPick: seq<nat>, jsOrder: seq<nat>) {
    SwapIndices(jsPick, |pool|) && SwapIndices(jsOrder, |pool| + 1)
  }

  /** `makeChoices(correct, pool, n)`. The correct card is offered exactly once;
      every other option is a card of `pool` with a different id, offered no
      more often than it occurs in `pool`; and the number of options is one more
      than the number of distractors kept. */
  function MakeChoices(correct: Card, pool: seq<Card>, n: int, jsPick: seq<nat>, jsOrder: seq<nat>): (r: seq<Card>)
    requires Draws(pool, jsPick, jsOrder)
    ensures multiset(r)[correct] == 1
    ensures forall x :: x in r ==> x == correct || (x in pool && x.id != correct.id)
    ensures forall x :: x != correct ==> multiset(r)[x] <= multiset(pool)[x]
    ensures |r| == 1 + DistractorCount(|Others(pool, correct.id)|, n)
    ensures n >= 1 ==> |r| == 1 + Min(n - 1, |Others(pool, correct.id)|)
  {
    var others := Others(pool, correct.id);
    var picked := PickN(others, n - 1, jsPick);
    var options := [correct] + picked;
    var r := Shuffled(options, jsOrder);
    ShuffledPermutes(options, jsOrder);
    OptionsFacts(correct, pool, picked, r);
    r
  }

  /** Any arrangement of the correct card and distractors drawn from the others. */
  lemma OptionsFacts(correct: Card, pool: seq<Card>, picked: seq<Card>, r: seq<Card>)
    requires multiset(picked) <= multiset(Others(pool, correct.id))
    requires multiset(r) == multiset([correct] + picked)
    ensures multiset(r)[correct] == 1
    ensures forall x :: x in r ==> x == correct || (x in pool && x.id != correct.id)
    ensures forall x :: x != correct ==> multiset(r)[x] <= multiset(pool)[x]
  {
    var others := Others(pool, correct.id);
    assert multiset([correct] + picked) == multiset{correct} + multiset(picked);
    assert correct !in others;
    assert multiset(picked)[correct] == 0 by {
      assert multiset(picked)[correct] <= multiset(others)[correct];
    }
    forall x | x in r ensures x == correct || (x in pool && x.id != correct.id) {
      assert x in multiset(r);
      if x != correct {
        assert x in multiset(others);
      }
    }
  }

  /** Drawn from a pool that holds the correct card and has unique ids, the
      options are `min(n, |pool|)` different cards with different ids. */
  lemma ChoicesFromDistinctPool(correct: Card, pool: seq<Card>, n: int, jsPick: seq<nat>, jsOrder: seq<nat>)
    requires Draws(pool, jsPick, jsOrder)
    requires DistinctIds(pool) && correct in pool && n >= 1
    ensures |MakeChoices(correct, pool, n, jsPick, jsOrder)| == Min(n, |pool|)
    ensures forall x :: multiset(MakeChoices(correct, pool, n, jsPick, jsOrder))[x] <= 1
  {
    var k :| 0 <= k < |pool| && pool[k] == correct;
    assert forall i :: 0 <= i < |pool| && i != k ==> pool[i].id != correct.id;
    FilterDropsOne(pool, (x: Card) => x.id != correct.id, k);
    assert |Others(pool, correct.id)| == |pool| - 1;
    DistinctIdsNoRepeats(pool);
    var r := MakeChoices(correct, pool, n, jsPick, jsOrder);
    forall x ensures multiset(r)[x] <= 1 {
      if x != correct {
        assert multiset(r)[x] <= multiset(pool)[x];
      }
    }
  }
}
