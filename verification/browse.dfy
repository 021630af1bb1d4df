/**
 * The filter state of the catalogue browser (src/app/browse/page.tsx): the search term,
 * the selected genres, the rating range, the sort order and the page, the handlers that
 * overwrite them, the query the page sends for each state, and the pagination buttons.
 */
module Browse {
  import opened Strings

  const DefaultSort: string := "newest"
  const PageSize: string := "12"

  // ---------------------------------------------------------------------------
  // The genre toggle

  /** No genre id occurs twice. */
  predicate NoDup(s: seq<string>)
  {
    forall i, j :: 0 <= i < j < |s| ==> s[i] != s[j]
  }

  /** `a` is `b` with some elements left out, the rest in their original order. */
  predicate IsSubsequence(a: seq<string>, b: seq<string>)
    decreases |b|
  {
    if a == [] then true
    else if b == [] then false
    else if a[0] == b[0] then IsSubsequence(a[1..], b[1..])
    else IsSubsequence(a, b[1..])
  }

  /** `s.filter((id) => id !== x)`: every occurrence of `x` goes, the rest stays in order. */
  function RemoveAll(s: seq<string>, x: string): (r: seq<string>)
    ensures x !in r
    ensures forall y :: y != x ==> multiset(r)[y] == multiset(s)[y]
    ensures IsSubsequence(r, s)
  {
    if s == [] then []
    else
      var rest := RemoveAll(s[1..], x);
      assert s == [s[0]] + s[1..];
      if s[0] == x then rest
      else
        assert ([s[0]] + rest)[1..] == rest;
        [s[0]] + rest
  }

  /**
   * The updater of `handleGenreToggle`: a selected genre is removed (every occurrence),
   * an unselected one is appended at the end.
   */
  function Toggled(selection: seq<string>, genreId: string): (r: seq<string>)
    ensures genreId in r <==> genreId !in selection
    ensures forall y :: y != genreId ==> multiset(r)[y] == multiset(selection)[y]
    ensures genreId !in selection ==> r == selection + [genreId]
    ensures genreId in selection ==> IsSubsequence(r, selection)
  {
    if genreId in selection then RemoveAll(selection, genreId) else selection + [genreId]
  }

  /** Removing a genre that is not there changes nothing. */
  lemma {:induction false} RemoveAllAbsent(s: seq<string>, x: string)
    requires x !in s
    ensures RemoveAll(s, x) == s
  {
    if s != [] {
      RemoveAllAbsent(s[1..], x);
      assert s == [s[0]] + s[1..];
    }
  }

  /** Removing `x` from `s + [x]` is removing it from `s`. */
  lemma {:induction false} RemoveAllAppended(s: seq<string>, x: string)
    ensures RemoveAll(s + [x], x) == RemoveAll(s, x)
  {
    if s == [] {
      assert RemoveAll([x], x) == RemoveAll([], x);
    } else {
      assert (s + [x])[1..] == s[1..] + [x];
      RemoveAllAppended(s[1..], x);
    }
  }

  /** Removing from a duplicate-free selection keeps it duplicate-free. */
  lemma {:induction false} RemoveAllNoDup(s: seq<string>, x: string)
    requires NoDup(s)
    ensures NoDup(RemoveAll(s, x))
  {
    if s != [] {
      var rest := RemoveAll(s[1..], x);
      RemoveAllNoDup(s[1..], x);
      if s[0] != x {
        assert s[0] !in s[1..];
        assert multiset(s[1..])[s[0]] == 0;
        assert s[0] !in rest;
      }
    }
  }

  /** Toggling keeps a duplicate-free selection duplicate-free. */
  lemma ToggledNoDup(selection: seq<string>, genreId: string)
    requires NoDup(selection)
    ensures NoDup(Toggled(selection, genreId))
  {
    if genreId in selection {
      RemoveAllNoDup(selection, genreId);
    }
  }

  /**
   * Toggling the same genre twice on a duplicate-free selection restores it exactly when
   * the genre was not selected or was the last one selected; otherwise the genre moves
   * to the end.
   */
  lemma ToggleTwice(selection: seq<string>, genreId: string)
    requires NoDup(selection)
    ensures Toggled(Toggled(selection, genreId), genreId) == selection <==>
      genreId !in selection || selection[|selection| - 1] == genreId
  {
    if genreId !in selection {
      RemoveAllAppended(selection, genreId);
      RemoveAllAbsent(selection, genreId);
    } else if selection[|selection| - 1] == genreId {
      var front := selection[..|selection| - 1];
      assert selection == front + [genreId];
      assert genreId !in front;
      RemoveAllAppended(front, genreId);
      RemoveAllAbsent(front, genreId);
    }
  }

  /** The genre badge: filled ("default") for a selected genre, outlined otherwise. */
  datatype GenreBadge = Filled | Outlined

  function GenreBadgeVariant(selection: seq<string>, genreId: string): (v: GenreBadge)
    ensures v == Filled <==> genreId in selection
  {
    if genreId in selection then Filled else Outlined
  }

  /** Clicking a badge flips that badge and leaves every other badge as it was. */
  lemma ToggleFlipsOneBadge(selection: seq<string>, genreId: string, other: string)
    requires other != genreId
    ensures GenreBadgeVariant(Toggled(selection, genreId), genreId) != GenreBadgeVariant(selection, genreId)
    ensures GenreBadgeVariant(Toggled(selection, genreId), other) == GenreBadgeVariant(selection, other)
  {
    var r := Toggled(selection, genreId);
    assert multiset(r)[other] == multiset(selection)[other];
    assert other in r <==> other in multiset(r);
    assert other in selection <==> other in multiset(selection);
  }

  // ---------------------------------------------------------------------------
  // The query

  /** The keys `fetchBooks` appends, in the order it appends them. */
  datatype QueryKey = Search | Genre | MinRating | MaxRating | Sort | Page | Limit {
    /** The position of the key in the page's order. */
    function Rank(): nat
    {
      match this
      case Search => 0
      case Genre => 1
      case MinRating => 2
      case MaxRating => 3
      case Sort => 4
      case Page => 5
      case Limit => 6
    }

    /** The key as it appears in the query string. */
    function Name(): string
    {
      match this
      case Search => "search"
      case Genre => "genre"
      case MinRating => "minRating"
      case MaxRating => "maxRating"
      case Sort => "sort"
      case Page => "page"
      case Limit => "limit"
    }
  }

  /** The keys present in a query. */
  function KeySet(params: seq<(QueryKey, string)>): set<QueryKey>
  {
    set i | 0 <= i < |params| :: params[i].0
  }

  /** The keys appear in strictly increasing rank: in the page's order, each at most once. */
  predicate KeysAscending(params: seq<(QueryKey, string)>)
  {
    forall i, j :: 0 <= i < j < |params| ==> params[i].0.Rank() < params[j].0.Rank()
  }

  /** One more than the rank of the last key: the least rank that may still be appended. */
  function NextRank(params: seq<(QueryKey, string)>): nat
  {
    if params == [] then 0 else params[|params| - 1].0.Rank() + 1
  }

  /** What `if (cond) params.append(key, value)` adds: the pair, or nothing. */
  function Opt(cond: bool, key: QueryKey, value: string): seq<(QueryKey, string)>
  {
    if cond then [(key, value)] else []
  }

  /** The pairs a query with the given filter switches and values consists of. */
  function Assemble(c1: bool, c2: bool, c3: bool, c4: bool, c5: bool,
                    v1: string, v2: string, v3: string, v4: string, v5: string, v6: string, v7: string)
    : seq<(QueryKey, string)>
  {
    Opt(c1, Search, v1) + Opt(c2, Genre, v2) + Opt(c3, MinRating, v3) + Opt(c4, MaxRating, v4)
      + Opt(c5, Sort, v5) + Opt(true, Page, v6) + Opt(true, Limit, v7)
  }

  /**
   * The query `fetchBooks` builds from the filter state: search, genre (the ids joined
   * with commas), minRating, maxRating and sort, each only when non-empty, then page and
   * limit=12.
   */
  function Query(searchTerm: string, selectedGenres: seq<string>, minRating: string, maxRating: string,
                 sortBy: string, page: nat): (q: seq<(QueryKey, string)>)
    ensures |q| >= 2 && q[|q| - 2] == (Page, NatToString(page)) && q[|q| - 1] == (Limit, PageSize)
  {
    Assemble(searchTerm != "", selectedGenres != [], minRating != "", maxRating != "", sortBy != "",
      searchTerm, Join(selectedGenres, ','), minRating, maxRating, sortBy, NatToString(page), PageSize)
  }

  /** Appending a key of higher rank than every present one keeps the keys in order. */
  lemma AppendOptAscending(params: seq<(QueryKey, string)>, cond: bool, key: QueryKey, value: string)
    requires KeysAscending(params) && NextRank(params) <= key.Rank()
    ensures KeysAscending(params + Opt(cond, key, value))
    ensures NextRank(params + Opt(cond, key, value)) <= key.Rank() + 1
  {
    if !cond {
      assert params + Opt(cond, key, value) == params;
    } else {
      var r := params + [(key, value)];
      assert r[|params|].0 == key;
      forall i, j | 0 <= i < j < |r| ensures r[i].0.Rank() < r[j].0.Rank() {
        if j == |params| && i < |params| - 1 {
          assert params[i].0.Rank() < params[|params| - 1].0.Rank();
        }
      }
    }
  }

  /** A conditional append adds its key to the key set, or nothing. */
  lemma AppendOptKeys(params: seq<(QueryKey, string)>, cond: bool, key: QueryKey, value: string, k: QueryKey)
    ensures k in KeySet(params + Opt(cond, key, value)) <==> k in KeySet(params) || (cond && k == key)
  {
    var r := params + Opt(cond, key, value);
    if k in KeySet(r) {
      var i :| 0 <= i < |r| && r[i].0 == k;
      if i < |params| {
        assert params[i].0 == k;
      }
    }
    if k in KeySet(params) {
      var i :| 0 <= i < |params| && params[i].0 == k;
      assert r[i].0 == k;
    }
    if cond && k == key {
      assert r[|params|].0 == k;
    }
  }

  /** An assembled query lists its keys in the page's order. */
  lemma AssembleAscending(c1: bool, c2: bool, c3: bool, c4: bool, c5: bool,
                          v1: string, v2: string, v3: string, v4: string, v5: string, v6: string, v7: string)
    ensures KeysAscending(Assemble(c1, c2, c3, c4, c5, v1, v2, v3, v4, v5, v6, v7))
  {
    var q0: seq<(QueryKey, string)> := [];
    AppendOptAscending(q0, c1, Search, v1);
    var q1 := Opt(c1, Search, v1);
    assert q0 + q1 == q1;
    AppendOptAscending(q1, c2, Genre, v2);
    var q2 := q1 + Opt(c2, Genre, v2);
    AppendOptAscending(q2, c3, MinRating, v3);
    var q3 := q2 + Opt(c3, MinRating, v3);
    AppendOptAscending(q3, c4, MaxRating, v4);
    var q4 := q3 + Opt(c4, MaxRating, v4);
    AppendOptAscending(q4, c5, Sort, v5);
    var q5 := q4 + Opt(c5, Sort, v5);
    AppendOptAscending(q5, true, Page, v6);
    var q6 := q5 + Opt(true, Page, v6);
    AppendOptAscending(q6, true, Limit, v7);
  }

  /** A key is in an assembled query exactly when its switch is on; page and limit always are. */
  lemma AssembleKeys(c1: bool, c2: bool, c3: bool, c4: bool, c5: bool,
                     v1: string, v2: string, v3: string, v4: string, v5: string, v6: string, v7: string,
                     k: QueryKey)
    ensures k in KeySet(Assemble(c1, c2, c3, c4, c5, v1, v2, v3, v4, v5, v6, v7)) <==>
      match k
      case Search => c1
      case Genre => c2
      case MinRating => c3
      case MaxRating => c4
      case Sort => c5
      case Page => true
      case Limit => true
  {
    var q0: seq<(QueryKey, string)> := [];
    AppendOptKeys(q0, c1, Search, v1, k);
    var q1 := Opt(c1, Search, v1);
    assert q0 + q1 == q1;
    AppendOptKeys(q1, c2, Genre, v2, k);
    var q2 := q1 + Opt(c2, Genre, v2);
    AppendOptKeys(q2, c3, MinRating, v3, k);
    var q3 := q2 + Opt(c3, MinRating, v3);
    AppendOptKeys(q3, c4, MaxRating, v4, k);
    var q4 := q3 + Opt(c4, MaxRating, v4);
    AppendOptKeys(q4, c5, Sort, v5, k);
    var q5 := q4 + Opt(c5, Sort, v5);
    AppendOptKeys(q5, true, Page, v6, k);
    var q6 := q5 + Opt(true, Page, v6);
    AppendOptKeys(q6, true, Limit, v7, k);
  }

  /** The keys of the query are in the page's order, each at most once. */
  lemma QueryKeysAscending(searchTerm: string, selectedGenres: seq<string>, minRating: string, maxRating: string,
                           sortBy: string, page: nat)
    ensures KeysAscending(Query(searchTerm, selectedGenres, minRating, maxRating, sortBy, page))
  {
    AssembleAscending(searchTerm != "", selectedGenres != [], minRating != "", maxRating != "", sortBy != "",
      searchTerm, Join(selectedGenres, ','), minRating, maxRating, sortBy, NatToString(page), PageSize);
  }

  /** Different keys have different names in the query string. */
  lemma KeyNamesDistinct(a: QueryKey, b: QueryKey)
    ensures a.Name() == b.Name() <==> a == b
  {
  }

  /** No parameter name occurs twice in the query `fetchBooks` sends. */
  lemma QueryNamesDistinct(searchTerm: string, selectedGenres: seq<string>, minRating: string, maxRating: string,
                           sortBy: string, page: nat)
    ensures var q := Query(searchTerm, selectedGenres, minRating, maxRating, sortBy, page);
      forall i, j :: 0 <= i < j < |q| ==> q[i].0.Name() != q[j].0.Name()
  {
    var q := Query(searchTerm, selectedGenres, minRating, maxRating, sortBy, page);
    QueryKeysAscending(searchTerm, selectedGenres, minRating, maxRating, sortBy, page);
    forall i, j | 0 <= i < j < |q| ensures q[i].0.Name() != q[j].0.Name() {
      KeyNamesDistinct(q[i].0, q[j].0);
    }
  }

  /** A key is present exactly when its filter is set; page and limit are always there. */
  lemma QueryKeySet(searchTerm: string, selectedGenres: seq<string>, minRating: string, maxRating: string,
                    sortBy: string, page: nat)
    ensures var keys := KeySet(Query(searchTerm, selectedGenres, minRating, maxRating, sortBy, page));
      (Search in keys <==> searchTerm != "") && (Genre in keys <==> selectedGenres != [])
      && (MinRating in keys <==> minRating != "") && (MaxRating in keys <==> maxRating != "")
      && (Sort in keys <==> sortBy != "") && Page in keys && Limit in keys
  {
    var c1, c2, c3 := searchTerm != "", selectedGenres != [], minRating != "";
    var c4, c5 := maxRating != "", sortBy != "";
    var v2, v6 := Join(selectedGenres, ','), NatToString(page);
    AssembleKeys(c1, c2, c3, c4, c5, searchTerm, v2, minRating, maxRating, sortBy, v6, PageSize, Search);
    AssembleKeys(c1, c2, c3, c4, c5, searchTerm, v2, minRating, maxRating, sortBy, v6, PageSize, Genre);
    AssembleKeys(c1, c2, c3, c4, c5, searchTerm, v2, minRating, maxRating, sortBy, v6, PageSize, MinRating);
    AssembleKeys(c1, c2, c3, c4, c5, searchTerm, v2, minRating, maxRating, sortBy, v6, PageSize, MaxRating);
    AssembleKeys(c1, c2, c3, c4, c5, searchTerm, v2, minRating, maxRating, sortBy, v6, PageSize, Sort);
    AssembleKeys(c1, c2, c3, c4, c5, searchTerm, v2, minRating, maxRating, sortBy, v6, PageSize, Page);
    AssembleKeys(c1, c2, c3, c4, c5, searchTerm, v2, minRating, maxRating, sortBy, v6, PageSize, Limit);
  }

  /** Each filter that is set is sent with its value; the genre ids travel joined by commas. */
  lemma QueryValues(searchTerm: string, selectedGenres: seq<string>, minRating: string, maxRating: string,
                    sortBy: string, page: nat)
    ensures var q := Query(searchTerm, selectedGenres, minRating, maxRating, sortBy, page);
      (searchTerm != "" ==> (Search, searchTerm) in q) &&
      (selectedGenres != [] ==> (Genre, Join(selectedGenres, ',')) in q) &&
      (minRating != "" ==> (MinRating, minRating) in q) &&
      (maxRating != "" ==> (MaxRating, maxRating) in q) &&
      (sortBy != "" ==> (Sort, sortBy) in q)
  {
  }

  /**
   * The server reads the request back: the page parameter parses to the page number and,
   * when no genre id holds a comma, the genre parameter splits into the selected ids.
   */
  lemma QueryReadBack(searchTerm: string, selectedGenres: seq<string>, minRating: string, maxRating: string,
                      sortBy: string, page: nat)
    ensures var q := Query(searchTerm, selectedGenres, minRating, maxRating, sortBy, page);
      ParseNat(q[|q| - 2].1) == page
    ensures selectedGenres != [] && CommaFree(selectedGenres) ==>
      Split(Join(selectedGenres, ','), ',') == selectedGenres
  {
    ParseNatToString(page);
    if selectedGenres != [] && CommaFree(selectedGenres) {
      SplitJoin(selectedGenres, ',');
    }
  }

  /** `if (cond) params.append(key, value)`: one conditional step of the query builder. */
  method AppendIf(params: seq<(QueryKey, string)>, cond: bool, key: QueryKey, value: string)
    returns (r: seq<(QueryKey, string)>)
    ensures r == params + Opt(cond, key, value)
  {
    r := params;
    if cond {
      r := r + [(key, value)];
    }
  }

  /** Every genre id is free of the separator the query joins them with. */
  predicate CommaFree(ids: seq<string>)
  {
    forall k :: 0 <= k < |ids| ==> ',' !in ids[k]
  }

  // ---------------------------------------------------------------------------
  // The page state

  class BrowseFilters {
    var searchTerm: string
    var selectedGenres: seq<string>
    var minRating: string
    var maxRating: string
    var sortBy: string
    var page: int
    var totalPages: int

    /** The page number never drops below 1. */
    ghost predicate Valid()
      reads this
    {
      page >= 1
    }

    /** The filters and the page hold the values the page starts with and clearFilters restores. */
    predicate AtDefaults()
      reads this
    {
      searchTerm == "" && selectedGenres == [] && minRating == "" && maxRating == ""
      && sortBy == DefaultSort && page == 1
    }

    constructor ()
      ensures Valid() && AtDefaults() && totalPages == 1
    {
      searchTerm, selectedGenres, minRating, maxRating := "", [], "", "";
      sortBy, page, totalPages := DefaultSort, 1, 1;
    }

    /** `handleGenreToggle`: toggles one genre and goes back to page 1. */
    method ToggleGenre(genreId: string)
      requires Valid()
      modifies this
      ensures Valid() && page == 1
      ensures selectedGenres == Toggled(old(selectedGenres), genreId)
      ensures searchTerm == old(searchTerm) && minRating == old(minRating) && maxRating == old(maxRating)
      ensures sortBy == old(sortBy) && totalPages == old(totalPages)
    {
      selectedGenres := Toggled(selectedGenres, genreId);
      page := 1;
    }

    /** The search box's change handler: new term, back to page 1. */
    method SetSearchTerm(value: string)
      requires Valid()
      modifies this
      ensures Valid() && page == 1 && searchTerm == value
      ensures selectedGenres == old(selectedGenres) && minRating == old(minRating) && maxRating == old(maxRating)
      ensures sortBy == old(sortBy) && totalPages == old(totalPages)
    {
      searchTerm := value;
      page := 1;
    }

    /** The minimum-rating field's change handler: new value, back to page 1. */
    method SetMinRating(value: string)
      requires Valid()
      modifies this
      ensures Valid() && page == 1 && minRating == value
      ensures searchTerm == old(searchTerm) && selectedGenres == old(selectedGenres) && maxRating == old(maxRating)
      ensures sortBy == old(sortBy) && totalPages == old(totalPages)
    {
      minRating := value;
      page := 1;
    }

    /** The maximum-rating field's change handler: new value, back to page 1. */
    method SetMaxRating(value: string)
      requires Valid()
      modifies this
      ensures Valid() && page == 1 && maxRating == value
      ensures searchTerm == old(searchTerm) && selectedGenres == old(selectedGenres) && minRating == old(minRating)
      ensures sortBy == old(sortBy) && totalPages == old(totalPages)
    {
      maxRating := value;
      page := 1;
    }

    /** The sort selector's change handler: new order, back to page 1. */
    method SetSortBy(value: string)
      requires Valid()
      modifies this
      ensures Valid() && page == 1 && sortBy == value
      ensures searchTerm == old(searchTerm) && selectedGenres == old(selectedGenres)
      ensures minRating == old(minRating) && maxRating == old(maxRating) && totalPages == old(totalPages)
    {
      sortBy := value;
      page := 1;
    }

    /** `clearFilters`: every filter and the page back to the initial state; the page count stays. */
    method ClearFilters()
      modifies this
      ensures Valid() && AtDefaults() && totalPages == old(totalPages)
    {
      searchTerm := "";
      selectedGenres := [];
      minRating := "";
      maxRating := "";
      sortBy := DefaultSort;
      page := 1;
    }

    /** A fetched result page tells how many pages the current filters have. */
    method ReceiveTotalPages(count: int)
      modifies this`totalPages
      ensures totalPages == count
    {
      totalPages := count;
    }

    /** The pagination bar is drawn only for a loaded, non-empty result of more than one page. */
    predicate PaginationShown(loading: bool, bookCount: nat)
      reads this
    {
      !loading && bookCount > 0 && totalPages > 1
    }

    /** Whenever the pagination bar is drawn, at least one of its two buttons is enabled. */
    lemma ShownBarHasEnabledButton(loading: bool, bookCount: nat)
      requires Valid() && PaginationShown(loading, bookCount)
      ensures !(PreviousDisabled() && NextDisabled())
      ensures page == 1 ==> !NextDisabled()
    {
    }

    predicate PreviousDisabled()
      reads this
    {
      page == 1
    }

    predicate NextDisabled()
      reads this
    {
      page == totalPages
    }

    /** Previous: one page back, unless on page 1 where the button is disabled. */
    method ClickPrevious()
      requires Valid()
      modifies this`page
      ensures Valid()
      ensures old(PreviousDisabled()) ==> page == old(page)
      ensures !old(PreviousDisabled()) ==> page == old(page) - 1
    {
      if !PreviousDisabled() {
        page := page - 1;
      }
    }

    /** Next: one page on, unless on the last page where the button is disabled. */
    method ClickNext()
      requires Valid()
      modifies this`page
      ensures Valid()
      ensures old(NextDisabled()) ==> page == old(page)
      ensures !old(NextDisabled()) ==> page == old(page) + 1
      ensures old(page) <= totalPages ==> page <= totalPages
    {
      if !NextDisabled() {
        page := page + 1;
      }
    }

    /** `fetchBooks` builds its query by appending to an initially empty parameter list. */
    method QueryParams() returns (params: seq<(QueryKey, string)>)
      requires Valid()
      ensures params == Query(searchTerm, selectedGenres, minRating, maxRating, sortBy, page)
    {
      params := [];
      params := AppendIf(params, searchTerm != "", Search, searchTerm);
      assert params == Opt(searchTerm != "", Search, searchTerm);
      params := AppendIf(params, selectedGenres != [], Genre, Join(selectedGenres, ','));
      params := AppendIf(params, minRating != "", MinRating, minRating);
      params := AppendIf(params, maxRating != "", MaxRating, maxRating);
      params := AppendIf(params, sortBy != "", Sort, sortBy);
      params := AppendIf(params, true, Page, NatToString(page));
      params := AppendIf(params, true, Limit, PageSize);
    }
  }
}
