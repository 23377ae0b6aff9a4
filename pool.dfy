/** The question pool: the cards of the selected categories, each with its
    progress record, chosen by the focus mode. */
module PoolBuilder {
  import opened Wrappers
  import opened Seqs
  import opened Shuffling
  import opened Cards
  import opened Leitner

  /** The focus selector: `new`, `due` or `mix`. */
  datatype Focus = New | Due | Mix

  /** A card with its progress attached (`{...c, _p: p}`). */
  datatype Entry = Entry(card: Card, p: Progress)

  /** `cards.filter(c => cats.has(c.category))`. */
  function InCategories(cards: seq<Card>, cats: set<string>): (r: seq<Card>)
    ensures forall c :: c in r <==> c in cards && c.category in cats
    ensures |r| <= |cards|
  {
    Filter(cards, (c: Card) => c.category in cats)
  }

  /** Each card with its record, or the all-zero record when it has none. */
  function WithProgress(cards: seq<Card>, progress: map<string, Progress>): (r: seq<Entry>)
    ensures |r| == |cards|
    ensures forall i :: 0 <= i < |cards| ==> r[i] == Entry(cards[i], RecordOf(progress, cards[i].id))
  {
    seq(|cards|, i requires 0 <= i < |cards| => Entry(cards[i], RecordOf(progress, cards[i].id)))
  }

  /** The selected cards with progress attached, before the focus applies. */
  function Candidates(cards: seq<Card>, cats: set<string>, progress: map<string, Progress>): (r: seq<Entry>)
    ensures |r| <= |cards|
    ensures forall e :: e in r <==>
      e.card in cards && e.card.category in cats && e.p == RecordOf(progress, e.card.id)
  {
    var f := InCategories(cards, cats);
    var r := WithProgress(f, progress);
    assert forall e :: e in r ==> exists i :: 0 <= i < |f| && e == r[i];
    assert forall c :: c in f ==> exists i :: 0 <= i < |f| && c == f[i];
    r
  }

  /** Never answered: `(seen || 0) === 0`. */
  predicate IsFresh(e: Entry) {
    Or0(e.p.seen) == 0
  }

  /** Due at time `t`: `(due || 0) <= t`. */
  predicate IsDue(e: Entry, t: int) {
    Or0(e.p.due) <= t
  }

  /** Neither: `(due || 0) > t && (seen || 0) > 0`. */
  predicate IsRest(e: Entry, t: int) {
    Or0(e.p.due) > t && Or0(e.p.seen) > 0
  }

  function Fresh(c: seq<Entry>): (r: seq<Entry>)
    ensures |r| <= |c|
    ensures forall e :: e in r <==> e in c && IsFresh(e)
  {
    Filter(c, IsFresh)
  }

  function DueNow(c: seq<Entry>, t: int): (r: seq<Entry>)
    ensures |r| <= |c|
    ensures forall e :: e in r <==> e in c && IsDue(e, t)
  {
    Filter(c, (e: Entry) => IsDue(e, t))
  }

  function Rest(c: seq<Entry>, t: int): (r: seq<Entry>)
    ensures |r| <= |c|
    ensures forall e :: e in r <==> e in c && IsRest(e, t)
  {
    Filter(c, (e: Entry) => IsRest(e, t))
  }

  /** Swap indices for the three shuffles of the `mix` focus. */
  predicate PoolDraws(cards: seq<Card>, jsDue: seq<nat>, jsFresh: seq<nat>, jsRest: seq<nat>) {
    SwapIndices(jsDue, |cards|) && SwapIndices(jsFresh, |cards|) && SwapIndices(jsRest, |cards|)
  }

  /** `[...shuffle(due), ...shuffle(fresh), ...shuffle(rest)]`. */
  function Mixed(d: seq<Entry>, f: seq<Entry>, s: seq<Entry>, jsDue: seq<nat>, jsFresh: seq<nat>, jsRest: seq<nat>): (r: seq<Entry>)
    requires SwapIndices(jsDue, |d|) && SwapIndices(jsFresh, |f|) && SwapIndices(jsRest, |s|)
    ensures |r| == |d| + |f| + |s|
    ensures multiset(r) == multiset(d) + multiset(f) + multiset(s)
    ensures multiset(r[..|d|]) == multiset(d)
    ensures multiset(r[|d|..|d| + |f|]) == multiset(f)
    ensures multiset(r[|d| + |f|..]) == multiset(s)
  {
    var a, b, c := Shuffled(d, jsDue), Shuffled(f, jsFresh), Shuffled(s, jsRest);
    ShuffledPermutes(d, jsDue);
    ShuffledPermutes(f, jsFresh);
    ShuffledPermutes(s, jsRest);
    var r := a + b + c;
    assert r[..|d|] == a && r[|d|..|d| + |f|] == b && r[|d| + |f|..] == c;
    assert multiset(r) == multiset(a) + multiset(b) + multiset(c);
    r
  }

  /** The pool at time `t`. */
  function Pool(cards: seq<Card>, cats: set<string>, progress: map<string, Progress>, focus: Focus, t: int,
                jsDue: seq<nat>, jsFresh: seq<nat>, jsRest: seq<nat>): (r: seq<Entry>)
    requires PoolDraws(cards, jsDue, jsFresh, jsRest)
    ensures |r| <= 3 * |cards|
  {
    var c := Candidates(cards, cats, progress);
    match focus
    case New => Fresh(c)
    case Due => DueNow(c, t)
    case Mix =>
      var d, f, s := DueNow(c, t), Fresh(c), Rest(c, t);
      SwapIndicesFewer(jsDue, |d|, |cards|);
      SwapIndicesFewer(jsFresh, |f|, |cards|);
      SwapIndicesFewer(jsRest, |s|, |cards|);
      Mixed(d, f, s, jsDue, jsFresh, jsRest)
  }

  /** Every pool entry is a card of a selected category carrying its own record
      (the all-zero record when it has none). */
  lemma PoolFromSelection(cards: seq<Card>, cats: set<string>, progress: map<string, Progress>, focus: Focus, t: int,
                          jsDue: seq<nat>, jsFresh: seq<nat>, jsRest: seq<nat>)
    requires PoolDraws(cards, jsDue, jsFresh, jsRest)
    ensures forall e :: e in Pool(cards, cats, progress, focus, t, jsDue, jsFresh, jsRest) ==>
      e.card in cards && e.card.category in cats && e.p == RecordOf(progress, e.card.id)
  {
    var c := Candidates(cards, cats, progress);
    var r := Pool(cards, cats, progress, focus, t, jsDue, jsFresh, jsRest);
    if focus == Mix {
      forall e | e in r ensures e in c {
        assert e in multiset(r);
      }
    }
  }

  /** The `new` focus keeps exactly the selected cards never answered, each as
      often as it is listed among the candidates. */
  lemma NewPoolIsUnseen(cards: seq<Card>, cats: set<string>, progress: map<string, Progress>, t: int,
                        jsDue: seq<nat>, jsFresh: seq<nat>, jsRest: seq<nat>)
    requires PoolDraws(cards, jsDue, jsFresh, jsRest)
    ensures forall e :: e in Pool(cards, cats, progress, New, t, jsDue, jsFresh, jsRest) <==>
      e.card in cards && e.card.category in cats && e.p == RecordOf(progress, e.card.id) && Or0(e.p.seen) == 0
    ensures var r, c := Pool(cards, cats, progress, New, t, jsDue, jsFresh, jsRest), Candidates(cards, cats, progress);
      forall e :: multiset(r)[e] == if IsFresh(e) then multiset(c)[e] else 0
  {
    forall e ensures multiset(Pool(cards, cats, progress, New, t, jsDue, jsFresh, jsRest))[e] ==
      if IsFresh(e) then multiset(Candidates(cards, cats, progress))[e] else 0 {
      FilterCounts(Candidates(cards, cats, progress), IsFresh, e);
    }
  }

  /** The `due` focus keeps exactly the selected cards due at `t`, each as
      often as it is listed among the candidates. */
  lemma DuePoolIsDue(cards: seq<Card>, cats: set<string>, progress: map<string, Progress>, t: int,
                     jsDue: seq<nat>, jsFresh: seq<nat>, jsRest: seq<nat>)
    requires PoolDraws(cards, jsDue, jsFresh, jsRest)
    ensures forall e :: e in Pool(cards, cats, progress, Due, t, jsDue, jsFresh, jsRest) <==>
      e.card in cards && e.card.category in cats && e.p == RecordOf(progress, e.card.id) && Or0(e.p.due) <= t
    ensures var r, c := Pool(cards, cats, progress, Due, t, jsDue, jsFresh, jsRest), Candidates(cards, cats, progress);
      forall e :: multiset(r)[e] == if IsDue(e, t) then multiset(c)[e] else 0
  {
    forall e ensures multiset(Pool(cards, cats, progress, Due, t, jsDue, jsFresh, jsRest))[e] ==
      if IsDue(e, t) then multiset(Candidates(cards, cats, progress))[e] else 0 {
      FilterCounts(Candidates(cards, cats, progress), (x: Entry) => IsDue(x, t), e);
    }
  }

  /** The selection of `a + b` is the selection of `a` followed by that of `b`. */
  lemma CandidatesAppend(a: seq<Card>, b: seq<Card>, cats: set<string>, progress: map<string, Progress>)
    ensures Candidates(a + b, cats, progress) == Candidates(a, cats, progress) + Candidates(b, cats, progress)
  {
    FilterAppend(a, b, (c: Card) => c.category in cats);
    var fa, fb := InCategories(a, cats), InCategories(b, cats);
    var w := WithProgress(fa + fb, progress);
    var wa, wb := WithProgress(fa, progress), WithProgress(fb, progress);
    assert w == wa + wb by {
      forall i | 0 <= i < |w| ensures w[i] == (wa + wb)[i] {
        if i < |fa| {
          assert (fa + fb)[i] == fa[i];
        } else {
          assert (fa + fb)[i] == fb[i - |fa|];
        }
      }
    }
  }

  /** The `new` and `due` pools are not shuffled: they list the cards in the
      order of the card list, so the pool of `a + b` is the pool of `a`
      followed by the pool of `b`. */
  lemma UnshuffledPoolKeepsCardOrder(a: seq<Card>, b: seq<Card>, cats: set<string>, progress: map<string, Progress>,
                                     focus: Focus, t: int, jsDue: seq<nat>, jsFresh: seq<nat>, jsRest: seq<nat>)
    requires focus != Mix
    requires PoolDraws(a + b, jsDue, jsFresh, jsRest)
    requires PoolDraws(a, jsDue, jsFresh, jsRest) && PoolDraws(b, jsDue, jsFresh, jsRest)
    ensures Pool(a + b, cats, progress, focus, t, jsDue, jsFresh, jsRest) ==
      Pool(a, cats, progress, focus, t, jsDue, jsFresh, jsRest) + Pool(b, cats, progress, focus, t, jsDue, jsFresh, jsRest)
  {
    CandidatesAppend(a, b, cats, progress);
    var ca, cb := Candidates(a, cats, progress), Candidates(b, cats, progress);
    if focus == New {
      FilterAppend(ca, cb, IsFresh);
    } else {
      FilterAppend(ca, cb, (e: Entry) => IsDue(e, t));
    }
  }

  /** A card without a record is due at any time from the epoch on. */
  lemma UnrecordedIsDue(cards: seq<Card>, cats: set<string>, progress: map<string, Progress>, c: Card, t: int,
                        jsDue: seq<nat>, jsFresh: seq<nat>, jsRest: seq<nat>)
    requires PoolDraws(cards, jsDue, jsFresh, jsRest)
    requires c in cards && c.category in cats && c.id !in progress && t >= 0
    ensures Entry(c, Zero) in Pool(cards, cats, progress, Due, t, jsDue, jsFresh, jsRest)
    ensures Entry(c, Zero) in Pool(cards, cats, progress, New, t, jsDue, jsFresh, jsRest)
  {
    NewPoolIsUnseen(cards, cats, progress, t, jsDue, jsFresh, jsRest);
    DuePoolIsDue(cards, cats, progress, t, jsDue, jsFresh, jsRest);
  }

  /** The `mix` focus is the due group, then the fresh group, then the rest,
      each shuffled: its contents are the three groups together, and each
      stretch of it, in that priority order, holds exactly one group. */
  lemma MixPoolIsThreeGroups(cards: seq<Card>, cats: set<string>, progress: map<string, Progress>, t: int,
                             jsDue: seq<nat>, jsFresh: seq<nat>, jsRest: seq<nat>)
    requires PoolDraws(cards, jsDue, jsFresh, jsRest)
    ensures var c := Candidates(cards, cats, progress);
      var r := Pool(cards, cats, progress, Mix, t, jsDue, jsFresh, jsRest);
      var nd, nf := |DueNow(c, t)|, |Fresh(c)|;
      |r| == nd + nf + |Rest(c, t)| &&
      multiset(r) == multiset(DueNow(c, t)) + multiset(Fresh(c)) + multiset(Rest(c, t)) &&
      multiset(r[..nd]) == multiset(DueNow(c, t)) &&
      multiset(r[nd..nd + nf]) == multiset(Fresh(c)) &&
      multiset(r[nd + nf..]) == multiset(Rest(c, t))
  {
  }

  /** The rest group shares no entry with the due group or the fresh group. */
  lemma RestIsDisjoint(c: seq<Entry>, t: int)
    ensures forall e :: e in Rest(c, t) ==> e !in DueNow(c, t) && e !in Fresh(c)
    ensures multiset(Rest(c, t)) !! multiset(DueNow(c, t))
    ensures multiset(Rest(c, t)) !! multiset(Fresh(c))
  {
  }

  /** In the `mix` focus, every selected card with a non-negative answer count
      is in the pool: it is due, fresh, or in the rest (a stored record with a
      negative count and a future due date belongs to no group). */
  lemma MixPoolCovers(cards: seq<Card>, cats: set<string>, progress: map<string, Progress>, t: int,
                      jsDue: seq<nat>, jsFresh: seq<nat>, jsRest: seq<nat>)
    requires PoolDraws(cards, jsDue, jsFresh, jsRest)
    ensures forall e :: e in Candidates(cards, cats, progress) && (Or0(e.p.seen) >= 0 || Or0(e.p.due) <= t) ==>
      e in Pool(cards, cats, progress, Mix, t, jsDue, jsFresh, jsRest)
  {
    MixPoolIsThreeGroups(cards, cats, progress, t, jsDue, jsFresh, jsRest);
    var c := Candidates(cards, cats, progress);
    var r := Pool(cards, cats, progress, Mix, t, jsDue, jsFresh, jsRest);
    var d, f, s := DueNow(c, t), Fresh(c), Rest(c, t);
    forall e | e in c && (Or0(e.p.seen) >= 0 || Or0(e.p.due) <= t) ensures e in r {
      assert e in d || e in f || e in s;
      InUnion(r, d, f, s, e);
    }
  }

  /** A selected card without a record is both due and fresh, so the `mix` pool
      lists it twice. */
  lemma MixRepeatsUnrecorded(cards: seq<Card>, cats: set<string>, progress: map<string, Progress>, c: Card, t: int,
                             jsDue: seq<nat>, jsFresh: seq<nat>, jsRest: seq<nat>)
    requires PoolDraws(cards, jsDue, jsFresh, jsRest)
    requires c in cards && c.category in cats && c.id !in progress && t >= 0
    ensures multiset(Pool(cards, cats, progress, Mix, t, jsDue, jsFresh, jsRest))[Entry(c, Zero)] >= 2
  {
    MixPoolIsThreeGroups(cards, cats, progress, t, jsDue, jsFresh, jsRest);
    var cs := Candidates(cards, cats, progress);
    var e := Entry(c, Zero);
    assert e in cs;
    assert e in multiset(DueNow(cs, t));
    assert e in multiset(Fresh(cs));
  }

  /** With no progress at all and `t` from the epoch on, every selected card is
      listed twice by the `mix` focus. */
  lemma MixWithoutProgressDoubles(cards: seq<Card>, cats: set<string>, t: int,
                                  jsDue: seq<nat>, jsFresh: seq<nat>, jsRest: seq<nat>)
    requires PoolDraws(cards, jsDue, jsFresh, jsRest) && t >= 0
    ensures |Pool(cards, cats, map[], Mix, t, jsDue, jsFresh, jsRest)| == 2 * |Candidates(cards, cats, map[])|
  {
    MixPoolIsThreeGroups(cards, cats, map[], t, jsDue, jsFresh, jsRest);
    var c := Candidates(cards, cats, map[]);
    assert forall i :: 0 <= i < |c| ==> c[i].p == Zero by {
      assert forall i :: 0 <= i < |c| ==> c[i] in c;
    }
    UnrecordedGroups(c, t);
  }

  /** Entries that all carry the all-zero record are all due and all fresh. */
  lemma UnrecordedGroups(c: seq<Entry>, t: int)
    requires t >= 0 && forall i :: 0 <= i < |c| ==> c[i].p == Zero
    ensures Fresh(c) == c && DueNow(c, t) == c && Rest(c, t) == []
  {
    FilterKeepsAll(c, IsFresh);
    FilterKeepsAll(c, (e: Entry) => IsDue(e, t));
    FilterKeepsNone(c, (e: Entry) => IsRest(e, t));
  }

  /** An element of one of three sequences is in any sequence holding all three. */
  lemma InUnion<T>(r: seq<T>, a: seq<T>, b: seq<T>, c: seq<T>, e: T)
    requires multiset(r) == multiset(a) + multiset(b) + multiset(c)
    requires e in a || e in b || e in c
    ensures e in r
  {
    assert e in multiset(a) || e in multiset(b) || e in multiset(c);
    assert e in multiset(r);
  }
}
