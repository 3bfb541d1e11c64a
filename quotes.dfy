/**
 * The quote collection of the quote generator page: the seed quotes, the
 * category list that fills the category drop-down, and the choice of a quote
 * to display for the selected category.
 */
module Quotes {
  import opened Wrappers
  import opened Sequences
  import opened Text

  datatype Quote = Quote(text: string, category: string)

  /**
   * The four quotes the page starts with. The three longer texts are written
   * as two concatenated literals, which denote the same strings: the verifier
   * does not index into a single literal of this length, and the split lets
   * `SeedWellFormed` see each text's first and last characters.
   */
  const SeedQuotes: seq<Quote> := [
    Quote("The best way to predict " + "the future is to create it.", "Motivation"),
    Quote("Life is what happens " + "when you're busy making other plans.", "Life"),
    Quote("Do not watch the clock. " + "Do what it does. Keep going.", "Motivation"),
    Quote("Knowledge is power.", "Education")
  ]

  /** `quotes.map(q => q.category)` */
  function CategoryOf(qs: seq<Quote>): (cs: seq<string>)
    ensures |cs| == |qs| && forall i :: 0 <= i < |qs| ==> cs[i] == qs[i].category
  {
    seq(|qs|, i requires 0 <= i < |qs| => qs[i].category)
  }

  /**
   * The options of the category drop-down, `[...new Set(quotes.map(q => q.category))]`:
   * each category of the collection once, in order of its first appearance.
   */
  function Categories(qs: seq<Quote>): (cs: seq<string>)
    ensures NoDuplicates(cs)
    ensures forall c :: c in cs <==> exists q :: q in qs && q.category == c
    ensures InFirstOccurrenceOrder(cs, CategoryOf(qs))
  {
    var all := CategoryOf(qs);
    var cs := Distinct(all);
    forall c ensures c in cs <==> exists q :: q in qs && q.category == c {
      if c in all {
        assert qs[IndexOf(all, c)].category == c;
      }
    }
    cs
  }

  /** The category list of the seed quotes is Motivation, Life, Education. */
  lemma SeedCategories()
    ensures Categories(SeedQuotes) == ["Motivation", "Life", "Education"]
  {
    var all := CategoryOf(SeedQuotes);
    assert all == ["Motivation", "Life", "Motivation", "Education"];
    var s: seq<string> := ["Motivation", "Life", "Education"];
    assert IndexOf(all, s[0]) == 0 && IndexOf(all, s[1]) == 1 && IndexOf(all, s[2]) == 3;
    DistinctUnique(s, all);
  }

  /**
   * Adding a quote re-derives the category list: it is unchanged when the
   * quote's category was already listed, and otherwise gains that category at
   * the end.
   */
  lemma {:induction false} CategoriesAppend(qs: seq<Quote>, q: Quote)
    ensures Categories(qs + [q]) ==
      if q.category in Categories(qs) then Categories(qs) else Categories(qs) + [q.category]
  {
    var all := CategoryOf(qs + [q]);
    assert all == CategoryOf(qs) + [q.category];
    assert all[..|all| - 1] == CategoryOf(qs);
  }

  /**
   * `quotes.filter(quote => quote.category === selectedCategory)`: the quotes
   * of category `c`. `FilterCounts` and `FilterKeepsOrder` add that each
   * occurs as often as in `qs` and that their order is kept.
   */
  function Filter(qs: seq<Quote>, c: string): (r: seq<Quote>)
    ensures forall q :: q in r ==> q in qs && q.category == c
    ensures forall q :: q in qs && q.category == c ==> q in r
  {
    if qs == [] then []
    else
      var rest := Filter(qs[1..], c);
      assert qs == [qs[0]] + qs[1..];
      if qs[0].category == c then [qs[0]] + rest else rest
  }

  /** Each quote of category `c` is kept as often as it occurs; every other quote is dropped. */
  lemma {:induction false} FilterCounts(qs: seq<Quote>, c: string)
    ensures forall q :: multiset(Filter(qs, c))[q] == if q.category == c then multiset(qs)[q] else 0
  {
    if qs != [] {
      FilterCounts(qs[1..], c);
      assert qs == [qs[0]] + qs[1..];
    }
  }

  /** The filtered quotes keep their relative order: they are a subsequence of the collection. */
  lemma {:induction false} FilterKeepsOrder(qs: seq<Quote>, c: string)
    ensures IsSubsequence(Filter(qs, c), qs)
  {
    if qs != [] {
      FilterKeepsOrder(qs[1..], c);
      var r := Filter(qs, c);
      if qs[0].category == c {
        assert r[0] == qs[0] && r[1..] == Filter(qs[1..], c);
      }
    }
  }

  /** Filtering after an append is filtering before it, followed by the new quote when it matches. */
  lemma {:induction false} FilterAppend(qs: seq<Quote>, q: Quote, c: string)
    ensures Filter(qs + [q], c) == Filter(qs, c) + (if q.category == c then [q] else [])
    decreases |qs|
  {
    var extended := qs + [q];
    if qs == [] {
      assert extended == [q] && extended[1..] == [];
    } else {
      assert extended[0] == qs[0] && extended[1..] == qs[1..] + [q];
      FilterAppend(qs[1..], q, c);
    }
  }

  /**
   * A category has quotes to show exactly when it is one of the drop-down's
   * options, so the "no quotes" message appears only for a category that is
   * not in the list.
   */
  lemma FilterEmptyIffNotListed(qs: seq<Quote>, c: string)
    ensures Filter(qs, c) == [] <==> c !in Categories(qs)
  {
    var r := Filter(qs, c);
    if r != [] {
      assert r[0] in r;
    }
  }

  /**
   * `Math.floor(Math.random() * n)` over exact reals, where `random` is the
   * value drawn from `Math.random()`, in [0, 1).
   */
  function PickIndex(n: nat, random: real): (i: nat)
    requires 0 < n && 0.0 <= random < 1.0
    ensures i < n
    ensures i as real <= random * n as real < i as real + 1.0
  {
    var x := random * n as real;
    assert x < n as real;
    x.Floor
  }

  /** Every index below `n` is picked for some value of `Math.random()`. */
  lemma PickIndexReachesAll(n: nat, k: nat)
    requires k < n
    ensures var random := k as real / n as real;
      0.0 <= random < 1.0 && PickIndex(n, random) == k
  {
    var random := k as real / n as real;
    assert random * n as real == k as real;
  }

  /**
   * `showRandomQuote`: `None` is the "no quotes available" message, shown
   * exactly when no quote has the selected category; otherwise a quote of the
   * selected category from the collection, chosen by `random`.
   */
  function ShowRandomQuote(qs: seq<Quote>, selected: string, random: real): (shown: Option<Quote>)
    requires 0.0 <= random < 1.0
    ensures shown == None <==> forall q :: q in qs ==> q.category != selected
    ensures shown.Some? ==> shown.value in qs && shown.value.category == selected
  {
    var filtered := Filter(qs, selected);
    if |filtered| == 0 then None
    else
      var q := filtered[PickIndex(|filtered|, random)];
      assert q in filtered;
      Some(q)
  }

  /** Every quote of the selected category can be the one shown. */
  lemma ShowRandomQuoteReachesAll(qs: seq<Quote>, selected: string, q: Quote)
    requires q in qs && q.category == selected
    ensures exists random: real :: 0.0 <= random < 1.0 && ShowRandomQuote(qs, selected, random) == Some(q)
  {
    var filtered := Filter(qs, selected);
    var k := IndexOf(filtered, q);
    PickIndexReachesAll(|filtered|, k);
    var random := k as real / |filtered| as real;
    assert ShowRandomQuote(qs, selected, random) == Some(q);
  }
}
