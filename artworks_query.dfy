/** The public artworks query: the server-side selection and ordering, and the client-side search. */
module ArtworksQuery {
  import opened Wrappers
  import Seqs
  import Text

  /** The `content_status` enumeration of the database. */
  datatype ContentStatus = Draft | Published | Archived

  /** A row of the `artworks` table, with the columns the query and the search look at. `createdAt` is the
      creation instant as a number, later instants being larger. */
  datatype ArtworkRow = ArtworkRow(
    id: string,
    title: string,
    description: Option<string>,
    category: string,
    tags: Option<seq<string>>,
    status: Option<ContentStatus>,
    featured: Option<bool>,
    displayOrder: Option<int>,
    createdAt: Option<int>)

  datatype Options = Options(category: Option<string>, search: Option<string>, featured: Option<bool>)

  /** A JavaScript string option that is present and not empty. */
  predicate Given(o: Option<string>)
  {
    o.Some? && o.value != ""
  }

  /** The server-side filters: published only; featured only when asked for with `true`; one category
      only when a category other than `"all"` is given. */
  predicate Selected(row: ArtworkRow, opts: Options)
  {
    row.status == Some(Published) &&
    (opts.featured == Some(true) ==> row.featured == Some(true)) &&
    (Given(opts.category) && opts.category.value != "all" ==> row.category == opts.category.value)
  }

  /** The featured filter is inert unless `featured` is `true`, and the category filter is inert for an
      absent or empty category and for `"all"`. */
  lemma FiltersInert(row: ArtworkRow, opts: Options)
    requires opts.featured != Some(true)
    requires !Given(opts.category) || opts.category.value == "all"
    ensures Selected(row, opts) <==> row.status == Some(Published)
  {
  }

  /** `display_order` ascending, where a missing value sorts after every number. */
  predicate DisplayOrderBefore(a: Option<int>, b: Option<int>)
  {
    a.Some? && (b.None? || a.value < b.value)
  }

  /** `created_at` descending, where a missing value sorts before every instant. */
  predicate CreatedBefore(a: Option<int>, b: Option<int>)
  {
    b.Some? && (a.None? || a.value > b.value)
  }

  /** `a` comes strictly before `b` under `.order("display_order").order("created_at", descending)`. */
  predicate RowBefore(a: ArtworkRow, b: ArtworkRow)
  {
    DisplayOrderBefore(a.displayOrder, b.displayOrder) ||
    (a.displayOrder == b.displayOrder && CreatedBefore(a.createdAt, b.createdAt))
  }

  /** No row comes strictly before one listed ahead of it. */
  predicate InOrder(rows: seq<ArtworkRow>)
  {
    forall i, j :: 0 <= i < j < |rows| ==> !RowBefore(rows[j], rows[i])
  }

  /** The ordering is a strict weak order: irreflexive and transitive, and two rows neither of which comes
      before the other have the same sort keys. */
  lemma RowBeforeIsStrictWeakOrder(a: ArtworkRow, b: ArtworkRow, c: ArtworkRow)
    ensures !RowBefore(a, a)
    ensures RowBefore(a, b) && RowBefore(b, c) ==> RowBefore(a, c)
    ensures !RowBefore(a, b) && !RowBefore(b, a) ==> a.displayOrder == b.displayOrder && a.createdAt == b.createdAt
  {
  }

  /** What the server returns for `table`: exactly the selected rows, each as often as in the table,
      in order. */
  predicate ServerResult(table: seq<ArtworkRow>, opts: Options, result: seq<ArtworkRow>)
  {
    multiset(result) == multiset(Seqs.Filter(table, (row: ArtworkRow) => Selected(row, opts))) && InOrder(result)
  }

  /** Every row of a server result is published and passes the requested filters. */
  lemma ServerResultSelected(table: seq<ArtworkRow>, opts: Options, result: seq<ArtworkRow>, row: ArtworkRow)
    requires ServerResult(table, opts, result) && row in result
    ensures row in table && Selected(row, opts)
  {
    assert row in multiset(result);
  }

  /** Whether a row matches a lower-cased query: title, or a present description, or some present tag. */
  predicate Matches(row: ArtworkRow, query: string)
  {
    Text.Contains(Text.Lower(row.title), query) ||
    (row.description.Some? && Text.Contains(Text.Lower(row.description.value), query)) ||
    (row.tags.Some? && SomeTagContains(row.tags.value, query))
  }

  predicate SomeTagContains(tags: seq<string>, query: string)
  {
    tags != [] && (Text.Contains(Text.Lower(tags[0]), query) || SomeTagContains(tags[1..], query))
  }

  /** The client-side step of `queryFn`: null data becomes empty, and a non-empty search keeps the rows
      matching its lower-cased text. */
  function Search(data: Option<seq<ArtworkRow>>, search: Option<string>): (r: seq<ArtworkRow>)
    ensures data.None? ==> r == []
    ensures !Given(search) ==> r == data.GetOr([])
    ensures Seqs.IsSubsequence(r, data.GetOr([]))
    ensures Given(search) ==>
      forall row :: row in r <==> row in data.GetOr([]) && Matches(row, Text.Lower(search.value))
    ensures Given(search) ==>
      |r| == Seqs.Count(data.GetOr([]), (row: ArtworkRow) => Matches(row, Text.Lower(search.value)))
  {
    var rows := data.GetOr([]);
    if Given(search) then
      var query := Text.Lower(search.value);
      Seqs.Filter(rows, (row: ArtworkRow) => Matches(row, query))
    else
      Seqs.SubsequenceOfSelf(rows);
      rows
  }

  /** A row with neither description nor tags is found only through its title. */
  lemma NullFieldsNeverMatch(row: ArtworkRow, query: string)
    requires row.description.None? && row.tags.None?
    ensures Matches(row, query) <==> Text.Contains(Text.Lower(row.title), query)
  {
  }

  /** Queries that differ only in letter case give the same result. */
  lemma SearchIgnoresCase(data: Option<seq<ArtworkRow>>, q1: string, q2: string)
    requires Text.Lower(q1) == Text.Lower(q2)
    ensures Search(data, Some(q1)) == Search(data, Some(q2))
  {
    assert |q1| == |Text.Lower(q1)| == |q2|;
  }

  /** Searching for the lower-cased query is searching for the query. */
  lemma SearchLowerCased(data: Option<seq<ArtworkRow>>, q: string)
    ensures Search(data, Some(Text.Lower(q))) == Search(data, Some(q))
  {
    Text.LowerIdempotent(q);
    SearchIgnoresCase(data, Text.Lower(q), q);
  }
}
