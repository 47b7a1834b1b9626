/** What the admin pages share: the loading/admin gate, and saving a form as an insert or an update. */
module Admin {
  import opened Wrappers

  /** What an admin page renders. */
  datatype Screen = LoadingScreen | Redirect(to: string) | Content

  /** The gate: while the session or the page's data is loading only the loading screen shows; after
      that a non-admin is redirected home and only an admin sees the page. */
  function Gate(authLoading: bool, dataLoading: bool, isAdmin: bool): (s: Screen)
    ensures s == LoadingScreen <==> authLoading || dataLoading
    ensures s == Content <==> !authLoading && !dataLoading && isAdmin
    ensures s.Redirect? ==> s.to == "/"
  {
    if authLoading || dataLoading then LoadingScreen
    else if !isAdmin then Redirect("/")
    else Content
  }

  /** A non-admin never sees the page, whatever is loading. */
  lemma NonAdminNeverSeesContent(authLoading: bool, dataLoading: bool)
    ensures Gate(authLoading, dataLoading, false) != Content
  {
  }

  /** `s || fallback` for a nullable text column, as the admin forms fill their fields: null and `""`
      give the fallback. */
  function OrText(s: Option<string>, fallback: string): (r: string)
    ensures r == if s.Some? && s.value != "" then s.value else fallback
  {
    match s
    case Some(v) => if v != "" then v else fallback
    case None => fallback
  }

  /** With an empty fallback, `s || ""` is the string itself, or the empty string for null. */
  lemma OrTextEmpty(s: Option<string>)
    ensures OrText(s, "") == s.GetOr("")
  {
  }

  /** The database write a form submission makes. */
  datatype Mutation<P> = Insert(payload: P) | Update(id: string, payload: P)

  /** A form for an existing record updates that record by its id; a form for a new record inserts. */
  function MutationFor<P>(existingId: Option<string>, payload: P): (m: Mutation<P>)
    ensures m.payload == payload
    ensures m.Update? <==> existingId.Some?
    ensures m.Update? ==> m.id == existingId.value
  {
    match existingId
    case None => Insert(payload)
    case Some(id) => Update(id, payload)
  }

  /** `update(payload).eq("id", id)` on a table: the rows with that id take the payload's columns and
      every other row is left alone. */
  function UpdateWhere<R>(table: seq<R>, id: string, idOf: R -> string, apply: R -> R): (r: seq<R>)
    ensures |r| == |table|
    ensures forall i :: 0 <= i < |table| ==> r[i] == if idOf(table[i]) == id then apply(table[i]) else table[i]
  {
    seq(|table|, i requires 0 <= i < |table| => if idOf(table[i]) == id then apply(table[i]) else table[i])
  }

  /** The table after a mutation: an insert appends exactly one new row, an update rewrites in place. */
  function ApplyMutation<R, P>(table: seq<R>, m: Mutation<P>, idOf: R -> string, merge: (R, P) -> R,
                               create: (string, P) -> R, newId: string): (r: seq<R>)
    ensures m.Insert? ==> r == table + [create(newId, m.payload)]
    ensures m.Update? ==> r == UpdateWhere(table, m.id, idOf, (row: R) => merge(row, m.payload))
  {
    match m
    case Insert(p) => table + [create(newId, p)]
    case Update(id, p) => UpdateWhere(table, id, idOf, (row: R) => merge(row, p))
  }

  /** Saving an edited record never changes how many rows there are; saving a new one adds exactly one. */
  lemma MutationRowCount<R, P>(table: seq<R>, existingId: Option<string>, payload: P, idOf: R -> string,
                               merge: (R, P) -> R, create: (string, P) -> R, newId: string)
    ensures var r := ApplyMutation(table, MutationFor(existingId, payload), idOf, merge, create, newId);
      |r| == if existingId.Some? then |table| else |table| + 1
  {
  }
}
