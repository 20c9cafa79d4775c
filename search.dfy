/** `Book.search(query, options)`: picks one of the query shapes from the
    presence of the query and options and from the number of keys in the options
    hash, then applies at most one format filter and at most one title projection. */
module QueryPlanner {
  import opened Sequences
  import opened BookStore
  import opened Rating
  import opened Options
  import opened Relation

  /** A relation of books, a plucked list of titles, or `nil`. */
  datatype SearchResult = Books(books: seq<Book>) | Titles(titles: seq<string>) | NoResult

  /** `single_option_search_filter`: a truthy `title_only` wins, then a truthy
      `book_format_type_id`; otherwise the physical filter, whatever
      `book_format_physical` holds. */
  function SingleOptionSearchFilter(s: Store, query: Option<string>, o: OptionsHash): (r: SearchResult)
    ensures !r.NoResult?
    ensures r.Titles? <==> Truthy(Get(o, TitleOnlyKey))
    ensures r.Titles? ==>
      |r.titles| == |QueryLookup(s, query)| &&
      forall i | 0 <= i < |r.titles| :: r.titles[i] == QueryLookup(s, query)[i].title
    ensures !Truthy(Get(o, TitleOnlyKey)) && Truthy(Get(o, BookFormatTypeIdKey)) ==>
      forall b :: b in r.books <==>
        b in QueryLookup(s, query) && HasFormatTypeId(s, b, Get(o, BookFormatTypeIdKey))
    ensures !Truthy(Get(o, TitleOnlyKey)) && !Truthy(Get(o, BookFormatTypeIdKey)) ==>
      forall b :: b in r.books <==>
        b in QueryLookup(s, query) && HasPhysicalFormat(s, b, Get(o, BookFormatPhysicalKey))
  {
    if Truthy(Get(o, TitleOnlyKey)) then
      Titles(TitleOnly(QueryLookup(s, query)))
    else if Truthy(Get(o, BookFormatTypeIdKey)) then
      Books(ByBookFormatType(s, QueryLookup(s, query), Get(o, BookFormatTypeIdKey)))
    else
      Books(ByBookFormatPhysical(s, QueryLookup(s, query), Get(o, BookFormatPhysicalKey)))
  }

  /** `two_options_search_filter`: with a falsy `book_format_type_id`, the titles
      of the physically filtered lookup; else with a falsy `book_format_physical`,
      the titles of the lookup filtered by type id; with both truthy, `nil`.
      Titles come one per book, in ranking order.
      The value of `title_only` is never consulted. */
  function TwoOptionsSearchFilter(s: Store, query: Option<string>, o: OptionsHash): (r: SearchResult)
    ensures r.NoResult? <==> Truthy(Get(o, BookFormatTypeIdKey)) && Truthy(Get(o, BookFormatPhysicalKey))
    ensures !r.NoResult? ==> r.Titles?
    ensures !Truthy(Get(o, BookFormatTypeIdKey)) ==>
      forall t :: t in r.titles <==>
        exists b | b in QueryLookup(s, query) ::
          HasPhysicalFormat(s, b, Get(o, BookFormatPhysicalKey)) && b.title == t
    ensures Truthy(Get(o, BookFormatTypeIdKey)) && !Truthy(Get(o, BookFormatPhysicalKey)) ==>
      forall t :: t in r.titles <==>
        exists b | b in QueryLookup(s, query) ::
          HasFormatTypeId(s, b, Get(o, BookFormatTypeIdKey)) && b.title == t
    ensures !Truthy(Get(o, BookFormatTypeIdKey)) ==>
      var f := ByBookFormatPhysical(s, QueryLookup(s, query), Get(o, BookFormatPhysicalKey));
      |r.titles| == |f| && forall i | 0 <= i < |f| :: r.titles[i] == f[i].title
    ensures Truthy(Get(o, BookFormatTypeIdKey)) && !Truthy(Get(o, BookFormatPhysicalKey)) ==>
      var f := ByBookFormatType(s, QueryLookup(s, query), Get(o, BookFormatTypeIdKey));
      |r.titles| == |f| && forall i | 0 <= i < |f| :: r.titles[i] == f[i].title
  {
    if !Truthy(Get(o, BookFormatTypeIdKey)) then
      var books := ByBookFormatPhysical(s, QueryLookup(s, query), Get(o, BookFormatPhysicalKey));
      TitleOnlyMembers(books);
      Titles(TitleOnly(books))
    else if !Truthy(Get(o, BookFormatPhysicalKey)) then
      var books := ByBookFormatType(s, QueryLookup(s, query), Get(o, BookFormatTypeIdKey));
      TitleOnlyMembers(books);
      Titles(TitleOnly(books))
    else
      NoResult
  }

  /** `Book.search`. The two-key test counts every key of the hash, recognised or not. */
  function Search(s: Store, query: Option<string>, options: Option<OptionsHash>): (r: SearchResult)
    ensures options.None? ==> r.Books?
    ensures r.NoResult? <==>
      options.Some? && |options.value| == 2 &&
      Truthy(Get(options.value, BookFormatTypeIdKey)) && Truthy(Get(options.value, BookFormatPhysicalKey))
    ensures r.Titles? <==>
      options.Some? &&
      if |options.value| == 2
      then !(Truthy(Get(options.value, BookFormatTypeIdKey)) && Truthy(Get(options.value, BookFormatPhysicalKey)))
      else Truthy(Get(options.value, TitleOnlyKey))
  {
    if query.None? && options.None? then Books(BooksByRating(s))
    else if options.None? then Books(QueryLookup(s, query))
    else if |options.value| == 2 then TwoOptionsSearchFilter(s, query, options.value)
    else SingleOptionSearchFilter(s, query, options.value)
  }

  /** Which query shape handles which arguments. */
  lemma SearchDispatch(s: Store, query: Option<string>, options: Option<OptionsHash>)
    ensures query.None? && options.None? ==> Search(s, query, options) == Books(BooksByRating(s))
    ensures query.Some? && options.None? ==> Search(s, query, options) == Books(QueryLookup(s, query))
    ensures options.Some? && |options.value| == 2 ==>
      Search(s, query, options) == TwoOptionsSearchFilter(s, query, options.value)
    ensures options.Some? && |options.value| != 2 ==>
      Search(s, query, options) == SingleOptionSearchFilter(s, query, options.value)
  {
  }

  /** A present query with no options gives the same relation whether the query is
      empty or absent: the whole ranked set. */
  lemma SearchEmptyQuery(s: Store, query: Option<string>)
    requires query == None || query == Some("")
    ensures Search(s, query, None) == Books(BooksByRating(s))
  {
    if query.Some? {
      QueryLookupEmptyQuery(s, query);
    }
  }

  /** Every result is drawn from the ranked base set and keeps its order: books
      come ranked by average rating and, ids being a key, at most once; titles are
      the projection of such a relation. */
  lemma SearchResultRanked(s: Store, query: Option<string>, options: Option<OptionsHash>)
    ensures var r := Search(s, query, options);
      r.Books? ==>
        Subsequence(r.books, BooksByRating(s)) && Ranked(s, r.books) &&
        (UniqueBookIds(s) ==> UniqueIds(r.books))
    ensures var r := Search(s, query, options);
      r.Titles? ==>
        exists bs :: Subsequence(bs, BooksByRating(s)) && Ranked(s, bs) && r.titles == TitleOnly(bs)
  {
    var r := Search(s, query, options);
    var ranked := BooksByRating(s);
    var lookup := QueryLookup(s, query);
    assert Subsequence(ranked, ranked) by {
      assert Filter(ranked, b => true) == ranked by {
        FilterKeepsAll(ranked, b => true);
      }
    }
    var bs: seq<Book>;
    if options.None? {
      bs := if query.None? then ranked else lookup;
    } else {
      var o := options.value;
      var title, typeId, physical := Get(o, TitleOnlyKey), Get(o, BookFormatTypeIdKey), Get(o, BookFormatPhysicalKey);
      if |o| != 2 && Truthy(title) {
        bs := lookup;
      } else if (|o| != 2 && Truthy(typeId)) || (|o| == 2 && Truthy(typeId) && !Truthy(physical)) {
        bs := ByBookFormatType(s, lookup, typeId);
        SubsequenceTransitive(bs, lookup, ranked);
      } else {
        bs := ByBookFormatPhysical(s, lookup, physical);
        SubsequenceTransitive(bs, lookup, ranked);
      }
    }
    assert Subsequence(bs, ranked);
    SubsequenceRanked(s, bs, ranked);
    if UniqueBookIds(s) {
      SubsequenceUniqueIds(bs, ranked);
    }
    assert r.Books? ==> r.books == bs;
    assert r.Titles? ==> r.titles == TitleOnly(bs);
  }

  /** A present but empty options hash reaches the single-option filter and its
      physical fallback with `nil`; with that scope modelled as equality on the
      flag, no format type matches. */
  lemma SearchEmptyOptions(s: Store, query: Option<string>)
    ensures Search(s, query, Some(map[])) == Books([])
  {
    ByBookFormatPhysicalNonBoolean(s, QueryLookup(s, query), Nil);
  }

  /** An unrecognised key still counts towards the two-key test: `title_only` with
      one extra key takes the two-option path, filters by a `nil` physical flag
      and so plucks no titles at all. */
  lemma SearchUnrecognisedKeyCounts(s: Store, query: Option<string>, name: string, v: Value)
    ensures Search(s, query, Some(map[TitleOnlyKey := Bool(true), OtherKey(name) := v])) == Titles([])
  {
    var o := map[TitleOnlyKey := Bool(true), OtherKey(name) := v];
    assert o.Keys == {TitleOnlyKey, OtherKey(name)};
    assert |o| == 2;
    assert Get(o, BookFormatTypeIdKey) == Nil && Get(o, BookFormatPhysicalKey) == Nil;
    var lookup := QueryLookup(s, query);
    ByBookFormatPhysicalNonBoolean(s, lookup, Nil);
    assert TwoOptionsSearchFilter(s, query, o) == Titles(TitleOnly(ByBookFormatPhysical(s, lookup, Nil)));
  }

  /** The two-option filter gives the same answer whatever `title_only` holds, or
      whether it is there at all. */
  lemma TwoOptionsIgnoresTitleOnly(s: Store, query: Option<string>, o: OptionsHash, v: Value)
    ensures TwoOptionsSearchFilter(s, query, o) == TwoOptionsSearchFilter(s, query, o[TitleOnlyKey := v])
    ensures TwoOptionsSearchFilter(s, query, o) == TwoOptionsSearchFilter(s, query, o - {TitleOnlyKey})
  {
    assert Get(o[TitleOnlyKey := v], BookFormatTypeIdKey) == Get(o, BookFormatTypeIdKey);
    assert Get(o[TitleOnlyKey := v], BookFormatPhysicalKey) == Get(o, BookFormatPhysicalKey);
    assert Get(o - {TitleOnlyKey}, BookFormatTypeIdKey) == Get(o, BookFormatTypeIdKey);
    assert Get(o - {TitleOnlyKey}, BookFormatPhysicalKey) == Get(o, BookFormatPhysicalKey);
  }

  /** `title_only: true` alone: the titles of the lookup, in the lookup's order. */
  lemma SearchTitleOnly(s: Store, query: Option<string>)
    ensures var r := Search(s, query, Some(map[TitleOnlyKey := Bool(true)]));
      r.Titles? && |r.titles| == |QueryLookup(s, query)| &&
      forall i | 0 <= i < |r.titles| :: r.titles[i] == QueryLookup(s, query)[i].title
  {
    assert |map[TitleOnlyKey := Bool(true)]| == 1;
  }

  /** A truthy `book_format_type_id` alone: the lookup's books that have a format
      type with that id, ranked by rating. */
  lemma SearchFormatTypeIdOnly(s: Store, query: Option<string>, id: Value)
    requires Truthy(id)
    ensures var r := Search(s, query, Some(map[BookFormatTypeIdKey := id]));
      r.Books? && Ranked(s, r.books) &&
      forall b :: b in r.books <==> b in QueryLookup(s, query) && HasFormatTypeId(s, b, id)
  {
    var o := map[BookFormatTypeIdKey := id];
    assert |o| == 1;
    assert Get(o, TitleOnlyKey) == Nil && Get(o, BookFormatTypeIdKey) == id;
    assert Search(s, query, Some(o)) == Books(ByBookFormatType(s, QueryLookup(s, query), id));
  }

  /** `title_only` with `book_format_physical`: the titles of the lookup's books
      whose format type has that `physical` flag, in ranking order. */
  lemma SearchTitleOnlyPhysical(s: Store, query: Option<string>, physical: bool)
    ensures var r := Search(s, query, Some(map[TitleOnlyKey := Bool(true), BookFormatPhysicalKey := Bool(physical)]));
      r.Titles? &&
      forall t :: t in r.titles <==>
        exists b | b in QueryLookup(s, query) :: HasPhysicalFormat(s, b, Bool(physical)) && b.title == t
    ensures var r := Search(s, query, Some(map[TitleOnlyKey := Bool(true), BookFormatPhysicalKey := Bool(physical)]));
      var f := ByBookFormatPhysical(s, QueryLookup(s, query), Bool(physical));
      r.Titles? && |r.titles| == |f| && forall i | 0 <= i < |f| :: r.titles[i] == f[i].title
  {
    var o := map[TitleOnlyKey := Bool(true), BookFormatPhysicalKey := Bool(physical)];
    assert o.Keys == {TitleOnlyKey, BookFormatPhysicalKey};
    assert |o| == 2;
    assert Get(o, BookFormatTypeIdKey) == Nil && Get(o, BookFormatPhysicalKey) == Bool(physical);
  }
}
