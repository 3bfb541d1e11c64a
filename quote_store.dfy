/**
 * The page's mutable `quotes` array and the "Add Quote" handler that pushes
 * onto it.
 */
module QuoteStore {
  import opened Text
  import opened Quotes

  /** A stored quote: text and category are non-empty and carry no surrounding whitespace. */
  predicate WellFormed(q: Quote) {
    q.text != "" && Trim(q.text) == q.text && q.category != "" && Trim(q.category) == q.category
  }

  /** No stored quote has an empty category, so the drop-down never offers an empty option. */
  lemma WellFormedCategoriesNonEmpty(qs: seq<Quote>)
    requires forall q :: q in qs ==> WellFormed(q)
    ensures "" !in Categories(qs)
  {
  }

  /** The seed quotes are stored as written: none has whitespace at either end. */
  lemma SeedWellFormed()
    ensures forall q :: q in SeedQuotes ==> WellFormed(q)
  {
    LiteralWellFormed(SeedQuotes[0], 'T', '.', 'M', 'n');
    LiteralWellFormed(SeedQuotes[1], 'L', '.', 'L', 'e');
    LiteralWellFormed(SeedQuotes[2], 'D', '.', 'M', 'n');
    LiteralWellFormed(SeedQuotes[3], 'K', '.', 'E', 'n');
  }

  lemma LiteralWellFormed(q: Quote, textFirst: char, textLast: char, categoryFirst: char, categoryLast: char)
    requires q.text != [] && q.text[0] == textFirst && q.text[|q.text| - 1] == textLast
    requires q.category != [] && q.category[0] == categoryFirst && q.category[|q.category| - 1] == categoryLast
    requires !IsSpace(textFirst) && !IsSpace(textLast) && !IsSpace(categoryFirst) && !IsSpace(categoryLast)
    ensures WellFormed(q)
  {
    TrimFixed(q.text);
    TrimFixed(q.category);
  }

  /** The quote built from two inputs that do not trim to empty is well formed. */
  lemma TrimmedWellFormed(text: string, category: string)
    requires Trim(text) != "" && Trim(category) != ""
    ensures WellFormed(Quote(Trim(text), Trim(category)))
  {
    TrimIdempotent(text);
    TrimIdempotent(category);
  }

  class Store {
    var quotes: seq<Quote>

    ghost predicate Valid()
      reads this
    {
      forall q :: q in quotes ==> WellFormed(q)
    }

    /** The page's initial collection. */
    constructor ()
      ensures Valid() && quotes == SeedQuotes
    {
      quotes := SeedQuotes;
      new;
      SeedWellFormed();
    }

    /**
     * `addQuote`: both inputs are trimmed; when either is then empty the add
     * is refused and the collection is left as it was, otherwise the trimmed
     * quote is pushed onto the end.
     */
    method AddQuote(text: string, category: string) returns (ok: bool)
      requires Valid()
      modifies this
      ensures Valid()
      ensures ok <==> Trim(text) != "" && Trim(category) != ""
      ensures ok ==> quotes == old(quotes) + [Quote(Trim(text), Trim(category))]
      ensures !ok ==> quotes == old(quotes)
    {
      var quoteText := Trim(text);
      var quoteCategory := Trim(category);
      if quoteText == "" || quoteCategory == "" {
        return false;
      }
      var q := Quote(quoteText, quoteCategory);
      TrimmedWellFormed(text, category);
      quotes := quotes + [q];
      ok := true;
    }
  }

  /**
   * After a successful add the re-populated drop-down lists the new quote's
   * category, and that category's filtered quotes gain the new quote at the end.
   */
  lemma AddedQuoteIsListed(qs: seq<Quote>, text: string, category: string)
    requires Trim(text) != "" && Trim(category) != ""
    ensures var q := Quote(Trim(text), Trim(category));
      Trim(category) in Categories(qs + [q]) && Filter(qs + [q], Trim(category)) == Filter(qs, Trim(category)) + [q]
  {
    var q := Quote(Trim(text), Trim(category));
    CategoriesAppend(qs, q);
    FilterAppend(qs, q, Trim(category));
  }
}
