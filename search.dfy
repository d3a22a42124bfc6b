/**
 * The header search box: the results it shows for what has been typed,
 * taken from the fixed catalogue it is given.
 */
module SearchBox {
  import opened Text
  import opened Seqs
  import opened MoviesRoute

  /** The catalogue entries whose title contains the query, regardless of
      case, in catalogue order; nothing for a query that is blank once
      trimmed. The match uses the query as typed, untrimmed. */
  function SearchResults(catalog: seq<MovieView>, query: string): (r: seq<MovieView>)
    ensures IsBlank(query) ==> r == []
    ensures !IsBlank(query) ==>
      forall m :: multiset(r)[m] == (if ContainsIgnoreCase(m.title, query) then multiset(catalog)[m] else 0)
    ensures Subsequence(r, catalog)
    ensures forall i :: 0 <= i < |r| ==> ContainsIgnoreCase(r[i].title, query)
  {
    if Trim(query) == "" then []
    else Filter(catalog, (m: MovieView) => ContainsIgnoreCase(m.title, query))
  }

  /** The case of the query does not matter: a lower-cased query shows the
      same results. */
  lemma CaseInsensitive(catalog: seq<MovieView>, query: string)
    ensures SearchResults(catalog, Lower(query)) == SearchResults(catalog, query)
  {
    TrimStartLower(query);
    TrimEndLower(TrimStart(query));
    LowerIdempotent(query);
    FilterAgree(catalog, (m: MovieView) => ContainsIgnoreCase(m.title, Lower(query)),
                (m: MovieView) => ContainsIgnoreCase(m.title, query));
  }

  /** The query is not trimmed before matching: a title without a space
      does not match a query that ends in one. */
  lemma UntrimmedQuery(m: MovieView)
    requires m.title == "Dune"
    ensures SearchResults([m], "Dune ") == []
  {
    ContainsNotLonger(Lower("Dune"), Lower("Dune "));
    assert !ContainsIgnoreCase(m.title, "Dune ");
    assert Trim("Dune ") != "" by {
      assert !IsSpace("Dune "[0]);
    }
  }

  /** The search box's state: whether it is open, the query, the results. */
  class Search {
    const catalog: seq<MovieView>
    var isOpen: bool
    var query: string
    var results: seq<MovieView>

    constructor (catalog: seq<MovieView>)
      ensures this.catalog == catalog && !isOpen && query == "" && results == []
    {
      this.catalog := catalog;
      isOpen := false;
      query := "";
      results := [];
    }

    /** Typing: the query changes and the `query` effect recomputes the
        results. */
    method SetQuery(q: string)
      modifies this
      ensures query == q && results == SearchResults(catalog, q) && isOpen == old(isOpen)
    {
      query := q;
      results := SearchResults(catalog, q);
    }

    /** Clicking the icon opens or closes the box. */
    method Toggle()
      modifies this
      ensures isOpen == !old(isOpen) && query == old(query) && results == old(results)
    {
      isOpen := !isOpen;
    }
  }
}
