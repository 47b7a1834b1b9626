/** The artworks admin form: its defaults, its field edits, the payload it builds and the database
    write it makes. */
module ArtworksManager {
  import opened Wrappers
  import opened Numbers
  import Admin

  /** An artwork as the admin list loads it; the nullable columns of the table are options. */
  datatype Artwork = Artwork(
    id: string,
    title: string,
    description: Option<string>,
    category: string,
    technique: Option<string>,
    year: Option<int>,
    coverUrl: string,
    slug: string,
    status: Option<string>,
    featured: Option<bool>,
    displayOrder: Option<int>)

  /** The form's state: text inputs, the status select, the featured checkbox and the order number. */
  datatype FormData = FormData(
    title: string,
    description: string,
    category: string,
    technique: string,
    year: string,
    coverUrl: string,
    slug: string,
    status: string,
    featured: bool,
    displayOrder: JsNumber)

  /** The columns written on submit. */
  datatype Payload = Payload(
    title: string,
    description: Option<string>,
    category: string,
    technique: Option<string>,
    year: Option<JsNumber>,
    coverUrl: string,
    slug: string,
    status: string,
    featured: bool,
    displayOrder: JsNumber)

  /** `s || null`: the empty string becomes null. */
  function NullIfEmpty(s: string): (r: Option<string>)
    ensures r.None? <==> s == ""
    ensures r.Some? ==> r.value == s
  {
    if s == "" then None else Some(s)
  }

  /** `year?.toString() || ""`. */
  function YearText(year: Option<int>): (r: string)
    ensures r == "" <==> year.None?
  {
    match year
    case None => ""
    case Some(y) => IntToString(y)
  }

  /** The form's initial state, for a new artwork (`None`) or an existing one. */
  function InitialForm(artwork: Option<Artwork>): (f: FormData)
    ensures artwork.None? ==>
      f == FormData("", "", "painting", "", "", "", "", "draft", false, Num(0))
    ensures artwork.Some? ==> var a := artwork.value;
      f.title == a.title && f.coverUrl == a.coverUrl && f.slug == a.slug &&
      f.description == Admin.OrText(a.description, "") && f.technique == Admin.OrText(a.technique, "") &&
      f.category == (if a.category == "" then "painting" else a.category) &&
      f.status == Admin.OrText(a.status, "draft") && f.year == YearText(a.year) &&
      f.featured == (a.featured == Some(true)) &&
      f.displayOrder == Num(if a.displayOrder.Some? then a.displayOrder.value else 0)
  {
    match artwork
    case None => FormData("", "", "painting", "", "", "", "", "draft", false, Num(0))
    case Some(a) =>
      FormData(a.title, Admin.OrText(a.description, ""),
               if a.category == "" then "painting" else a.category,
               Admin.OrText(a.technique, ""), YearText(a.year), a.coverUrl, a.slug,
               Admin.OrText(a.status, "draft"),
               a.featured == Some(true), Num(if a.displayOrder.Some? then a.displayOrder.value else 0))
  }

  /** The payload built from the form: empty description and technique become null, an empty year
      becomes null and any other year is read with `parseInt`; the rest is copied. */
  function ToPayload(d: FormData): (p: Payload)
    ensures p.description == NullIfEmpty(d.description) && p.technique == NullIfEmpty(d.technique)
    ensures p.year == if d.year == "" then None else Some(ParseInt(d.year))
    ensures p.title == d.title && p.category == d.category && p.coverUrl == d.coverUrl && p.slug == d.slug
    ensures p.status == d.status && p.featured == d.featured && p.displayOrder == d.displayOrder
  {
    Payload(d.title, NullIfEmpty(d.description), d.category, NullIfEmpty(d.technique),
            if d.year != "" then Some(ParseInt(d.year)) else None,
            d.coverUrl, d.slug, d.status, d.featured, d.displayOrder)
  }

  /** The artwork's own columns, as a payload that would write them back unchanged. */
  function AsPayload(a: Artwork): Payload
  {
    Payload(a.title, a.description, a.category, a.technique,
            if a.year.Some? then Some(Num(a.year.value)) else None,
            a.coverUrl, a.slug, a.status.GetOr(""), a.featured.GetOr(false), Num(a.displayOrder.GetOr(0)))
  }

  /** Submitting a new form unedited writes the defaults. */
  lemma NewFormPayload()
    ensures ToPayload(InitialForm(None)) == Payload("", None, "painting", None, None, "", "", "draft", false, Num(0))
  {
  }

  /** Submitting an existing artwork's form unedited: every column comes back as it was, except that an
      empty description or technique becomes null, an empty category becomes "painting", a missing or
      empty status becomes "draft", a missing featured flag false and a missing order 0. The year
      survives `toString` and `parseInt`. */
  lemma ExistingFormPayload(a: Artwork)
    ensures var p := ToPayload(InitialForm(Some(a)));
      p.title == a.title && p.coverUrl == a.coverUrl && p.slug == a.slug &&
      p.description == (if a.description == Some("") then None else a.description) &&
      p.technique == (if a.technique == Some("") then None else a.technique) &&
      p.category == (if a.category == "" then "painting" else a.category) &&
      p.status == Admin.OrText(a.status, "draft") &&
      p.featured == (a.featured == Some(true)) &&
      p.displayOrder == Num(a.displayOrder.GetOr(0)) &&
      p.year == (if a.year.Some? then Some(Num(a.year.value)) else None)
  {
    if a.year.Some? {
      ParseIntOfIntToString(a.year.value);
    }
  }

  /** An artwork with every column filled in and no empty text is written back exactly as it was. */
  lemma UneditedRoundTrip(a: Artwork)
    requires a.description != Some("") && a.technique != Some("") && a.category != ""
    requires a.status.Some? && a.status.value != "" && a.featured.Some? && a.displayOrder.Some?
    ensures ToPayload(InitialForm(Some(a))) == AsPayload(a)
  {
    ExistingFormPayload(a);
  }

  /** One `setFormData({ ...formData, field: value })` call. `DisplayOrder` carries the input's text,
      which is read with `parseInt`. */
  datatype Edit =
    | Title(text: string)
    | Slug(text: string)
    | Description(text: string)
    | Category(text: string)
    | Year(text: string)
    | Technique(text: string)
    | CoverUrl(text: string)
    | Status(text: string)
    | DisplayOrder(text: string)
    | Featured(checked: bool)

  function ApplyEdit(d: FormData, e: Edit): FormData
  {
    match e
    case Title(t) => d.(title := t)
    case Slug(t) => d.(slug := t)
    case Description(t) => d.(description := t)
    case Category(t) => d.(category := t)
    case Year(t) => d.(year := t)
    case Technique(t) => d.(technique := t)
    case CoverUrl(t) => d.(coverUrl := t)
    case Status(t) => d.(status := t)
    case DisplayOrder(t) => d.(displayOrder := ParseInt(t))
    case Featured(c) => d.(featured := c)
  }

  /** The form field an edit writes. */
  function FieldOf(e: Edit): nat
  {
    match e
    case Title(_) => 0
    case Slug(_) => 1
    case Description(_) => 2
    case Category(_) => 3
    case Year(_) => 4
    case Technique(_) => 5
    case CoverUrl(_) => 6
    case Status(_) => 7
    case DisplayOrder(_) => 8
    case Featured(_) => 9
  }

  /** Edits of different fields commute, and a later edit of the same field overrides an earlier one. */
  lemma EditsIndependent(d: FormData, e1: Edit, e2: Edit)
    ensures FieldOf(e1) != FieldOf(e2) ==> ApplyEdit(ApplyEdit(d, e1), e2) == ApplyEdit(ApplyEdit(d, e2), e1)
    ensures FieldOf(e1) == FieldOf(e2) ==> ApplyEdit(ApplyEdit(d, e1), e2) == ApplyEdit(d, e2)
  {
  }

  /** The artwork columns a payload overwrites when it updates an existing row. */
  function Merge(a: Artwork, p: Payload): Artwork
  {
    Artwork(a.id, p.title, p.description, p.category, p.technique,
            match p.year case Some(Num(y)) => Some(y) case _ => None,
            p.coverUrl, p.slug, Some(p.status), Some(p.featured),
            match p.displayOrder case Num(n) => Some(n) case NaN => None)
  }

  /** The row an insert creates, with the id the database assigns. */
  function Create(id: string, p: Payload): Artwork
  {
    Merge(Artwork(id, "", None, "", None, None, "", "", None, None, None), p)
  }

  function IdOf(a: Artwork): string
  {
    a.id
  }

  /** Saving an unedited, fully filled-in artwork leaves the table exactly as it was. */
  lemma UneditedSaveChangesNothing(table: seq<Artwork>, a: Artwork, newId: string)
    requires a.description != Some("") && a.technique != Some("") && a.category != ""
    requires a.status.Some? && a.status.value != "" && a.featured.Some? && a.displayOrder.Some?
    requires forall row :: row in table && row.id == a.id ==> row == a
    ensures Admin.ApplyMutation(table, Admin.MutationFor(Some(a.id), ToPayload(InitialForm(Some(a)))),
                                IdOf, Merge, Create, newId) == table
  {
    UneditedRoundTrip(a);
    assert Merge(a, AsPayload(a)) == a;
    var r := Admin.ApplyMutation(table, Admin.MutationFor(Some(a.id), AsPayload(a)), IdOf, Merge, Create, newId);
    assert forall i :: 0 <= i < |table| ==> r[i] == table[i] by {
      forall i | 0 <= i < |table|
        ensures r[i] == table[i]
      {
        assert table[i] in table;
      }
    }
  }

  /** The form dialog: which artwork it edits (`None` for a new one) and the current form state. */
  class ArtworkForm {
    const artwork: Option<Artwork>
    var data: FormData

    constructor (artwork: Option<Artwork>)
      ensures this.artwork == artwork && data == InitialForm(artwork)
    {
      this.artwork := artwork;
      data := InitialForm(artwork);
    }

    method Change(e: Edit)
      modifies this
      ensures data == ApplyEdit(old(data), e)
    {
      data := ApplyEdit(data, e);
    }

    /** `handleSubmit`: the write the mutation makes for the current form state. */
    method Submit() returns (m: Admin.Mutation<Payload>)
      ensures m.payload == ToPayload(data)
      ensures m.Update? <==> artwork.Some?
      ensures m.Update? ==> m.id == artwork.value.id
    {
      var id := if artwork.Some? then Some(artwork.value.id) else None;
      m := Admin.MutationFor(id, ToPayload(data));
    }
  }
}
