/** The progress summary shown in the header: how many cards there are, how
    many were ever answered, the answer totals, how many are mastered and how
    many are due. */
module Tallies {
  import opened Wrappers
  import opened Seqs
  import opened Cards
  import opened Leitner

  /** The five counters the loop accumulates. */
  datatype Counts = Counts(seen: int, correct: int, wrong: int, mastered: int, due: int)

  /** The summary `{ total, seen, correct, wrong, mastered, due }`. */
  datatype Summary = Summary(total: int, seen: int, correct: int, wrong: int, mastered: int, due: int)

  const NoCounts := Counts(0, 0, 0, 0, 0)

  function Plus(a: Counts, b: Counts): Counts {
    Counts(a.seen + b.seen, a.correct + b.correct, a.wrong + b.wrong, a.mastered + b.mastered, a.due + b.due)
  }

  function Indicator(b: bool): int {
    if b then 1 else 0
  }

  /** What one stored record adds to the counters at time `t`. */
  function Contribution(s: Progress, t: int): Counts {
    Counts(Indicator(Or0(s.seen) > 0), Or0(s.correct), Or0(s.wrong), Indicator(Or0(s.box) >= MaxBox), Indicator(Or0(s.due) <= t))
  }

  /** The counters over `ids`; an id without a record adds nothing. */
  function Tally(ids: seq<string>, progress: map<string, Progress>, t: int): (r: Counts)
    ensures 0 <= r.seen <= |ids| && 0 <= r.mastered <= |ids| && 0 <= r.due <= |ids|
  {
    if ids == [] then NoCounts
    else
      var rest := Tally(ids[1..], progress, t);
      if ids[0] in progress then Plus(Contribution(progress[ids[0]], t), rest) else rest
  }

  /** `cards.map(c => c.id)`. */
  function Ids(cards: seq<Card>): (r: seq<string>)
    ensures |r| == |cards|
    ensures forall i :: 0 <= i < |cards| ==> r[i] == cards[i].id
  {
    seq(|cards|, i requires 0 <= i < |cards| => cards[i].id)
  }

  /** The summary `stats` derives from the cards and the progress map at time `t`. */
  function SummaryOf(cards: seq<Card>, progress: map<string, Progress>, t: int): (r: Summary)
    ensures r.total == |cards|
    ensures 0 <= r.seen <= r.total && 0 <= r.mastered <= r.total && 0 <= r.due <= r.total
  {
    var c := Tally(Ids(cards), progress, t);
    Summary(|cards|, c.seen, c.correct, c.wrong, c.mastered, c.due)
  }

  /** The loop of `stats`: one pass over the ids, skipping those without a record. */
  method Stats(cards: seq<Card>, progress: map<string, Progress>, now: int) returns (s: Summary)
    ensures s == SummaryOf(cards, progress, now)
  {
    var ids := Ids(cards);
    var seen, correct, wrong, mastered, due := 0, 0, 0, 0, 0;
    for k := 0 to |ids|
      invariant seen + Tally(ids[k..], progress, now).seen == Tally(ids, progress, now).seen
      invariant correct + Tally(ids[k..], progress, now).correct == Tally(ids, progress, now).correct
      invariant wrong + Tally(ids[k..], progress, now).wrong == Tally(ids, progress, now).wrong
      invariant mastered + Tally(ids[k..], progress, now).mastered == Tally(ids, progress, now).mastered
      invariant due + Tally(ids[k..], progress, now).due == Tally(ids, progress, now).due
    {
      TallyStep(ids, k, progress, now);
      if ids[k] !in progress {
        continue;
      }
      ghost var before := Counts(seen, correct, wrong, mastered, due);
      var p := progress[ids[k]];
      ghost var c := Contribution(p, now);
      if Or0(p.seen) > 0 {
        seen := seen + 1;
      }
      assert seen == before.seen + c.seen;
      correct := correct + Or0(p.correct);
      wrong := wrong + Or0(p.wrong);
      if Or0(p.box) >= MaxBox {
        mastered := mastered + 1;
      }
      assert mastered == before.mastered + c.mastered;
      if Or0(p.due) <= now {
        due := due + 1;
      }
      assert due == before.due + c.due;
    }
    assert ids[|ids|..] == [];
    s := Summary(|ids|, seen, correct, wrong, mastered, due);
  }

  lemma TallyStep(ids: seq<string>, k: nat, progress: map<string, Progress>, t: int)
    requires k < |ids|
    ensures Tally(ids[k..], progress, t) ==
      if ids[k] in progress then Plus(Contribution(progress[ids[k]], t), Tally(ids[k + 1..], progress, t))
      else Tally(ids[k + 1..], progress, t)
  {
    assert ids[k..][1..] == ids[k + 1..];
  }

  /** The card counters agree with filtering the ids by the property each counts. */
  lemma {:induction false} TallyCountsFilters(ids: seq<string>, progress: map<string, Progress>, t: int)
    ensures Tally(ids, progress, t).seen == |Filter(ids, (x: string) => x in progress && Or0(progress[x].seen) > 0)|
    ensures Tally(ids, progress, t).mastered == |Filter(ids, (x: string) => x in progress && Or0(progress[x].box) >= MaxBox)|
    ensures Tally(ids, progress, t).due == |Filter(ids, (x: string) => x in progress && Or0(progress[x].due) <= t)|
  {
    if ids != [] {
      TallyCountsFilters(ids[1..], progress, t);
    }
  }

  /** With no progress at all every counter is zero. */
  lemma {:induction false} TallyOfNoProgress(ids: seq<string>, t: int)
    ensures Tally(ids, map[], t) == NoCounts
  {
    if ids != [] {
      TallyOfNoProgress(ids[1..], t);
    }
  }

  /** Records of ids that are not listed do not matter. */
  lemma {:induction false} TallyIgnoresOthers(ids: seq<string>, p1: map<string, Progress>, p2: map<string, Progress>, t: int)
    requires forall x :: x in ids ==> (x in p1 <==> x in p2) && (x in p1 ==> p1[x] == p2[x])
    ensures Tally(ids, p1, t) == Tally(ids, p2, t)
  {
    if ids != [] {
      assert forall x :: x in ids[1..] ==> x in ids;
      TallyIgnoresOthers(ids[1..], p1, p2, t);
    }
  }

  /** Answering a listed card once adds one to the correct or the wrong total,
      and counts the card as seen when its record had no answers yet. */
  lemma {:induction false} TallyAfterAnswer(ids: seq<string>, progress: map<string, Progress>, id: string, isCorrect: bool, now: int, t: int)
    requires multiset(ids)[id] == 1
    ensures var after := Tally(ids, progress[id := Answered(RecordOf(progress, id), isCorrect, now)], t);
      var before := Tally(ids, progress, t);
      after.correct == before.correct + Indicator(isCorrect) &&
      after.wrong == before.wrong + Indicator(!isCorrect) &&
      (Or0(RecordOf(progress, id).seen) == 0 ==> after.seen == before.seen + 1) &&
      (Or0(RecordOf(progress, id).seen) > 0 ==> after.seen == before.seen)
  {
    var p2 := progress[id := Answered(RecordOf(progress, id), isCorrect, now)];
    assert ids == [ids[0]] + ids[1..];
    if ids[0] == id {
      assert id !in ids[1..] by {
        assert multiset(ids[1..])[id] == 0;
      }
      TallyIgnoresOthers(ids[1..], progress, p2, t);
    } else {
      TallyAfterAnswer(ids[1..], progress, id, isCorrect, now, t);
    }
  }

  /** The same fact for the summary of a card list with unique ids. */
  lemma SummaryAfterAnswer(cards: seq<Card>, progress: map<string, Progress>, c: Card, isCorrect: bool, now: int, t: int)
    requires DistinctIds(cards) && c in cards
    ensures var after := SummaryOf(cards, progress[c.id := Answered(RecordOf(progress, c.id), isCorrect, now)], t);
      var before := SummaryOf(cards, progress, t);
      after.total == before.total &&
      after.correct == before.correct + Indicator(isCorrect) &&
      after.wrong == before.wrong + Indicator(!isCorrect) &&
      (Or0(RecordOf(progress, c.id).seen) == 0 ==> after.seen == before.seen + 1) &&
      (Or0(RecordOf(progress, c.id).seen) > 0 ==> after.seen == before.seen)
  {
    OneCardPerId(cards, c);
    TallyAfterAnswer(Ids(cards), progress, c.id, isCorrect, now, t);
  }

  /** In a card list with unique ids, the id of a listed card occurs once among the ids. */
  lemma OneCardPerId(cards: seq<Card>, c: Card)
    requires DistinctIds(cards) && c in cards
    ensures multiset(Ids(cards))[c.id] == 1
  {
    var ids := Ids(cards);
    var k :| 0 <= k < |cards| && cards[k] == c;
    assert forall i :: 0 <= i < |ids| && i != k ==> ids[i] != ids[k];
    OccursOnce(ids, k);
  }

  /** A value found at one position only occurs once. */
  lemma {:induction false} OccursOnce<T>(s: seq<T>, k: nat)
    requires k < |s| && forall i :: 0 <= i < |s| && i != k ==> s[i] != s[k]
    ensures multiset(s)[s[k]] == 1
  {
    assert s == [s[0]] + s[1..];
    if k == 0 {
      assert s[0] !in s[1..] by {
        forall j | 0 <= j < |s[1..]| ensures s[1..][j] != s[0] {
          assert s[1..][j] == s[j + 1];
        }
      }
    } else {
      assert forall i :: 0 <= i < |s[1..]| && i != k - 1 ==> s[1..][i] == s[i + 1];
      OccursOnce(s[1..], k - 1);
      assert s[1..][k - 1] == s[k];
    }
  }
}
