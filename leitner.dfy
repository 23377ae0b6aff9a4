/** The Leitner scheduler: a card's progress record, its box clamped to 0..4,
    the fixed review-interval table and the record update after an answer. */
module Leitner {
  import opened Wrappers
  import opened Seqs

  /** `clamp(n, a, b)`, written `Math.max(a, Math.min(b, n))`. */
  function Clamp(n: int, a: int, b: int): (r: int)
    ensures a <= b ==> a <= r <= b
    ensures a <= n <= b ==> r == n
    ensures n < a ==> r == a
    ensures a <= b < n ==> r == b
    ensures b < a ==> r == a
  {
    Max(a, Min(b, n))
  }

  const MaxBox: int := 4
  const Hour: nat := 60 * 60 * 1000
  const Day: nat := 24 * Hour

  /** Review delay in milliseconds for boxes 0..4: now, 4 hours, 1, 3 and 14 days. */
  const Intervals: seq<nat> := [0, 4 * Hour, 1 * Day, 3 * Day, 14 * Day]

  /** The label shown for boxes 0..4. */
  const Labels: seq<string> := ["Nuevo", "Caja 1", "Caja 2", "Caja 3", "Dominado"]

  /** `nextDueMs(box)`: the delay for `box`, defined for every integer through the clamp. */
  function NextDueMs(box: int): (r: nat)
    ensures r in Intervals
    ensures 0 <= box <= MaxBox ==> r == Intervals[box]
    ensures box <= 0 ==> r == 0
    ensures box >= MaxBox ==> r == 14 * Day
  {
    Intervals[Clamp(box, 0, MaxBox)]
  }

  /** A larger box never waits less. */
  lemma NextDueMonotonic(a: int, b: int)
    requires a <= b
    ensures NextDueMs(a) <= NextDueMs(b)
  {
  }

  /** Within 0..4 each box waits strictly longer than the one below it. */
  lemma IntervalsIncrease(a: int, b: int)
    requires 0 <= a < b <= MaxBox
    ensures NextDueMs(a) < NextDueMs(b)
  {
  }

  /** `boxLabel(b)`: the label of `b`, defined for every integer through the clamp. */
  function BoxLabel(b: int): (r: string)
    ensures r in Labels
    ensures 0 <= b <= MaxBox ==> r == Labels[b]
    ensures b <= 0 ==> r == "Nuevo"
    ensures b >= MaxBox ==> r == "Dominado"
  {
    Labels[Clamp(b, 0, MaxBox)]
  }

  /** A stored progress record. Every field may be missing from what was loaded;
      a missing field reads as 0, as `x || 0` does. */
  datatype Progress = Progress(box: Option<int>, due: Option<int>, seen: Option<int>, correct: Option<int>, wrong: Option<int>)

  /** `v || 0` on a numeric field. */
  function Or0(v: Option<int>): int {
    v.GetOr(0)
  }

  /** The record assumed for a card that has none. */
  const Zero := Progress(Some(0), Some(0), Some(0), Some(0), Some(0))

  /** `progress[id] || { box: 0, due: 0, seen: 0, correct: 0, wrong: 0 }`. */
  function RecordOf(progress: map<string, Progress>, id: string): (r: Progress)
    ensures id in progress ==> r == progress[id]
    ensures id !in progress ==> Or0(r.box) == 0 && Or0(r.due) == 0 && Or0(r.seen) == 0 && Or0(r.correct) == 0 && Or0(r.wrong) == 0
  {
    if id in progress then progress[id] else Zero
  }

  /** The record `markResult` stores after an answer given at time `now`. */
  function Answered(prev: Progress, isCorrect: bool, now: int): (next: Progress)
    ensures next.box.Some? && next.due.Some? && next.seen.Some? && next.correct.Some? && next.wrong.Some?
    ensures 0 <= Or0(next.box) <= MaxBox
    ensures Or0(next.seen) == Or0(prev.seen) + 1
    ensures isCorrect ==> Or0(next.correct) == Or0(prev.correct) + 1 && Or0(next.wrong) == Or0(prev.wrong)
    ensures !isCorrect ==> Or0(next.wrong) == Or0(prev.wrong) + 1 && Or0(next.correct) == Or0(prev.correct)
    ensures Or0(next.due) == now + NextDueMs(Or0(next.box))
    ensures 0 <= Or0(prev.box) <= MaxBox ==>
      Or0(next.box) == if isCorrect then Min(Or0(prev.box) + 1, MaxBox) else Max(Or0(prev.box) - 1, 0)
  {
    var b := Or0(prev.box);
    var box := if isCorrect then Clamp(b + 1, 0, MaxBox) else Clamp(b - 1, 0, MaxBox);
    var correct := if isCorrect then Or0(prev.correct) + 1 else Or0(prev.correct);
    var wrong := if isCorrect then Or0(prev.wrong) else Or0(prev.wrong) + 1;
    Progress(Some(box), Some(now + NextDueMs(box)), Some(Or0(prev.seen) + 1), Some(correct), Some(wrong))
  }

  /** One answer: whether it was right and when it was given. */
  datatype Answer = Answer(correct: bool, at: int)

  /** The record after `answers`, applied in the order they were given. */
  function Replay(p: Progress, answers: seq<Answer>): Progress
    decreases |answers|
  {
    if answers == [] then p
    else
      var last := answers[|answers| - 1];
      Answered(Replay(p, answers[..|answers| - 1]), last.correct, last.at)
  }

  function CorrectAnswers(answers: seq<Answer>): nat
    decreases |answers|
  {
    if answers == [] then 0
    else CorrectAnswers(answers[..|answers| - 1]) + if answers[|answers| - 1].correct then 1 else 0
  }

  /** The counters of a record reflect exactly the answers given to it. */
  lemma {:induction false} ReplayCounters(p: Progress, answers: seq<Answer>)
    ensures CorrectAnswers(answers) <= |answers|
    ensures Or0(Replay(p, answers).seen) == Or0(p.seen) + |answers|
    ensures Or0(Replay(p, answers).correct) == Or0(p.correct) + CorrectAnswers(answers)
    ensures Or0(Replay(p, answers).wrong) == Or0(p.wrong) + |answers| - CorrectAnswers(answers)
  {
    if answers != [] {
      ReplayCounters(p, answers[..|answers| - 1]);
    }
  }

  /** Whatever the sequence of answers, the box stays within 0..4 once it started
      there or once at least one answer has been given; after an answer the card
      is next due at the time of the last answer plus that box's delay. */
  lemma ReplayBoxInRange(p: Progress, answers: seq<Answer>)
    requires 0 <= Or0(p.box) <= MaxBox || answers != []
    ensures 0 <= Or0(Replay(p, answers).box) <= MaxBox
    ensures answers != [] ==>
      Or0(Replay(p, answers).due) == answers[|answers| - 1].at + NextDueMs(Or0(Replay(p, answers).box))
  {
  }

  /** A run of correct answers from a box in range climbs one box per answer up to 4. */
  lemma {:induction false} CorrectRunClimbs(p: Progress, answers: seq<Answer>)
    requires 0 <= Or0(p.box) <= MaxBox
    requires forall k :: 0 <= k < |answers| ==> answers[k].correct
    ensures Or0(Replay(p, answers).box) == Min(Or0(p.box) + |answers|, MaxBox)
  {
    if answers != [] {
      CorrectRunClimbs(p, answers[..|answers| - 1]);
    }
  }

  /** A new card answered correctly at `t` moves to box 1 and is due four hours
      later; answered wrongly at `t2` it falls back to box 0, due at once. */
  lemma CorrectThenWrong(t: int, t2: int)
    ensures Or0(Answered(Zero, true, t).box) == 1
    ensures Or0(Answered(Zero, true, t).due) == t + 4 * Hour
    ensures Or0(Answered(Answered(Zero, true, t), false, t2).box) == 0
    ensures Or0(Answered(Answered(Zero, true, t), false, t2).due) == t2
  {
  }
}
