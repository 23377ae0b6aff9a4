/** Card normalisation: the raw entries of the question bank become the cards
    the quiz works with, broken entries are dropped, and the sorted list of
    distinct categories is derived from what is left. */
module Cards {
  import opened Wrappers
  import opened Seqs
  import opened Strings

  /** An entry of the bank as it is stored: every field may be missing.
      `kind` is the entry's `type` field. A missing entry reads like one
      whose fields are all missing. */
  datatype RawCard = RawCard(
    q: Option<string>,
    a: Option<string>,
    en: Option<string>,
    sheet: Option<string>,
    nivel: Option<string>,
    kind: Option<string>)

  /** A normalised card: `prompt` is the KKS code, `answer` (and its copy `es`)
      the Spanish description, `extra` the original question text. */
  datatype Card = Card(
    id: string,
    category: string,
    sheet: string,
    nivel: string,
    kind: string,
    prompt: string,
    answer: string,
    es: string,
    en: string,
    extra: string)

  /** `(v ?? '').toString().trim()` for a field that is a string when present. */
  function Text(v: Option<string>): (r: string)
    ensures v.None? ==> r == ""
  {
    Trim(v.GetOr(""))
  }

  /** `sheet || nivel || type || 'General'`: the first non-empty name. */
  function CategoryOf(sheet: string, nivel: string, kind: string): (r: string)
    ensures r != ""
    ensures r == sheet || r == nivel || r == kind || r == "General"
    ensures sheet != "" ==> r == sheet
    ensures sheet == "" && nivel != "" ==> r == nivel
    ensures sheet == "" && nivel == "" && kind != "" ==> r == kind
    ensures sheet == "" && nivel == "" && kind == "" ==> r == "General"
  {
    if sheet != "" then sheet
    else if nivel != "" then nivel
    else if kind != "" then kind
    else "General"
  }

  /** The normalisation of the `i`-th raw entry. `kksOf` stands for the
      extraction of the code from the question text; a result that is empty
      falls back to the whole question. */
  function NormalizeCard(c: RawCard, i: nat, kksOf: string -> string): (r: Card)
    ensures r.prompt == "" <==> Text(c.q) == "" && kksOf("") == ""
    ensures r.prompt == if kksOf(Text(c.q)) != "" then kksOf(Text(c.q)) else Text(c.q)
    ensures r.answer == Text(c.a) && r.es == r.answer && r.extra == Text(c.q) && r.en == Text(c.en)
    ensures r.category != ""
    ensures r.category == CategoryOf(Text(c.sheet), Text(c.nivel), Text(c.kind))
    ensures r.id == r.category + "-" + r.prompt + "-" + NatToString(i)
  {
    var q := Text(c.q);
    var a := Text(c.a);
    var extracted := kksOf(q);
    var kks := if extracted == "" then q else extracted;
    var sheet := Text(c.sheet);
    var nivel := Text(c.nivel);
    var kind := Text(c.kind);
    var category := CategoryOf(sheet, nivel, kind);
    Card(category + "-" + kks + "-" + NatToString(i), category, sheet, nivel, kind, kks, a, a, Text(c.en), q)
  }

  /** `list.map((c, i) => ...)`. */
  function Numbered(list: seq<RawCard>, kksOf: string -> string): (r: seq<Card>)
    ensures |r| == |list|
    ensures forall i :: 0 <= i < |list| ==> r[i] == NormalizeCard(list[i], i, kksOf)
  {
    seq(|list|, i requires 0 <= i < |list| => NormalizeCard(list[i], i, kksOf))
  }

  /** The filter against broken cards: both the code and the description are non-empty. */
  predicate Usable(c: Card) {
    c.prompt != "" && c.answer != ""
  }

  /** No two positions hold cards with the same id. */
  predicate DistinctIds(s: seq<Card>) {
    forall i, j :: 0 <= i < j < |s| ==> s[i].id != s[j].id
  }

  /** The card list of the quiz: `raw.cards || []`, numbered, normalised and
      filtered. Every kept card is usable and has a category, the kept cards are
      exactly the usable normalised entries (each numbered by its own position,
      see `NumberedMembers`), and ids are unique. */
  function Normalize(raw: Option<seq<RawCard>>, kksOf: string -> string): (r: seq<Card>)
    ensures |r| <= |raw.GetOr([])|
    ensures forall k :: 0 <= k < |r| ==> Usable(r[k]) && r[k].category != ""
    ensures forall c :: c in r <==> c in Numbered(raw.GetOr([]), kksOf) && Usable(c)
    ensures DistinctIds(r)
  {
    var all := Numbered(raw.GetOr([]), kksOf);
    NumberedIdsDistinct(raw.GetOr([]), kksOf);
    FilterKeepsDistinct(all, Usable);
    NumberedHaveCategories(raw.GetOr([]), kksOf);
    var r := Filter(all, Usable);
    assert forall k :: 0 <= k < |r| ==> r[k] in all;
    r
  }

  /** Every normalised entry has a category. */
  lemma NumberedHaveCategories(list: seq<RawCard>, kksOf: string -> string)
    ensures forall c :: c in Numbered(list, kksOf) ==> c.category != ""
  {
    var all := Numbered(list, kksOf);
    forall c | c in all ensures c.category != "" {
      var i :| 0 <= i < |all| && all[i] == c;
    }
  }

  /** The members of the numbered list are the normalised entries, and all have a category. */
  lemma NumberedMembers(list: seq<RawCard>, kksOf: string -> string)
    ensures forall c :: c in Numbered(list, kksOf) <==>
      exists i :: 0 <= i < |list| && c == NormalizeCard(list[i], i, kksOf)
  {
    var all := Numbered(list, kksOf);
    forall c | c in all ensures exists i :: 0 <= i < |list| && c == NormalizeCard(list[i], i, kksOf) {
      var i :| 0 <= i < |all| && all[i] == c;
    }
  }

  /** The entry's index is the last dash-separated part of its id, so the
      normalised list has no repeated id. */
  lemma NumberedIdsDistinct(list: seq<RawCard>, kksOf: string -> string)
    ensures DistinctIds(Numbered(list, kksOf))
  {
    var s := Numbered(list, kksOf);
    forall i, j | 0 <= i < j < |s| ensures s[i].id != s[j].id {
      var a, b := NatToString(i), NatToString(j);
      NoDashInNumber(i);
      NoDashInNumber(j);
      if s[i].id == s[j].id {
        AfterLastDash(s[i].category + "-" + s[i].prompt, s[j].category + "-" + s[j].prompt, a, b);
        NatToStringInjective(i, j);
      }
    }
  }

  lemma NoDashInNumber(n: nat)
    ensures '-' !in NatToString(n)
  {
    var r := NatToString(n);
    forall k | 0 <= k < |r| ensures r[k] != '-' {
      assert '0' <= r[k] <= '9';
    }
  }

  /** Filtering keeps ids unique. */
  lemma {:induction false} FilterKeepsDistinct(s: seq<Card>, p: Card -> bool)
    requires DistinctIds(s)
    ensures DistinctIds(Filter(s, p))
  {
    if s != [] {
      var t := Filter(s[1..], p);
      DistinctTail(s);
      FilterKeepsDistinct(s[1..], p);
      if p(s[0]) {
        forall i | 0 <= i < |t| ensures t[i].id != s[0].id {
          assert t[i] in s[1..];
          var k :| 0 <= k < |s[1..]| && s[1..][k] == t[i];
          assert s[k + 1] == t[i];
        }
        ConsDistinct(s[0], t);
      }
    }
  }

  /** Dropping the first card keeps ids unique. */
  lemma DistinctTail(s: seq<Card>)
    requires DistinctIds(s) && s != []
    ensures DistinctIds(s[1..])
  {
    forall i, j | 0 <= i < j < |s[1..]| ensures s[1..][i].id != s[1..][j].id {
      assert s[1..][i] == s[i + 1] && s[1..][j] == s[j + 1];
    }
  }

  /** A card whose id is new can be put in front. */
  lemma ConsDistinct(x: Card, t: seq<Card>)
    requires DistinctIds(t)
    requires forall i :: 0 <= i < |t| ==> t[i].id != x.id
    ensures DistinctIds([x] + t)
  {
    var r := [x] + t;
    forall i, j | 0 <= i < j < |r| ensures r[i].id != r[j].id {
      assert r[j] == t[j - 1];
      if i > 0 {
        assert r[i] == t[i - 1];
      }
    }
  }

  /** Unique ids mean no card occurs twice. */
  lemma {:induction false} DistinctIdsNoRepeats(s: seq<Card>)
    requires DistinctIds(s)
    ensures forall x :: multiset(s)[x] <= 1
  {
    if s != [] {
      var rest := s[1..];
      assert s == [s[0]] + rest;
      DistinctTail(s);
      DistinctIdsNoRepeats(rest);
      assert s[0] !in rest by {
        forall k | 0 <= k < |rest| ensures rest[k] != s[0] {
          assert rest[k] == s[k + 1];
        }
      }
    }
  }

  /** A bank that is absent yields no cards. */
  lemma MissingBankIsEmpty(kksOf: string -> string)
    ensures Normalize(None, kksOf) == []
  {
    assert Numbered([], kksOf) == [];
  }

  /** When every entry has a non-blank question and answer, nothing is dropped:
      card `i` is the normalisation of entry `i`. */
  lemma CompleteBankKeepsEverything(list: seq<RawCard>, kksOf: string -> string)
    requires forall i :: 0 <= i < |list| ==> Text(list[i].q) != "" && Text(list[i].a) != ""
    ensures Normalize(Some(list), kksOf) == Numbered(list, kksOf)
  {
    FilterKeepsAll(Numbered(list, kksOf), Usable);
  }

  /** The set of categories in use. */
  function CategorySet(cards: seq<Card>): set<string> {
    set c | c in cards :: c.category
  }

  /** `Array.from(new Set(cards.map(c => c.category))).sort()`: every category
      once, in increasing order. */
  function Categories(cards: seq<Card>): (r: seq<string>)
    ensures StrictlySorted(r)
    ensures forall y :: y in r <==> y in CategorySet(cards)
  {
    if cards == [] then []
    else
      var init := cards[..|cards| - 1];
      var last := cards[|cards| - 1];
      assert cards == init + [last];
      assert CategorySet(cards) == CategorySet(init) + {last.category};
      Insert(Categories(init), last.category)
  }

  /** The category list is the only strictly sorted list of the categories in use. */
  lemma CategoriesAreTheSortedSet(cards: seq<Card>, s: seq<string>)
    requires StrictlySorted(s)
    requires forall y :: y in s <==> y in CategorySet(cards)
    ensures s == Categories(cards)
  {
    SortedListIsUnique(s, Categories(cards));
  }

  /** There are categories exactly when there are cards. */
  lemma CategoriesEmptyIff(cards: seq<Card>)
    ensures Categories(cards) == [] <==> cards == []
  {
    if cards != [] {
      assert cards[0].category in CategorySet(cards);
    }
  }
}
