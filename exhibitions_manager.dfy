/** The exhibitions admin form: its defaults, its field edits, the payload it builds and the database
    write it makes; and the order of the admin list. */
module ExhibitionsManager {
  import opened Wrappers
  import opened Numbers
  import Admin

  /** An exhibition as the admin list loads it; the nullable columns of the table are options. */
  datatype Exhibition = Exhibition(
    id: string,
    title: string,
    description: Option<string>,
    location: Option<string>,
    date: Option<string>,
    year: int,
    kind: Option<string>,         // the `type` column
    displayOrder: Option<int>)

  datatype FormData = FormData(
    title: string,
    description: string,
    location: string,
    date: string,
    year: string,
    kind: string,
    displayOrder: JsNumber)

  /** The form's fields as they are, except the year, which is read with `parseInt`. */
  datatype Payload = Payload(
    title: string,
    description: string,
    location: string,
    date: string,
    year: JsNumber,
    kind: string,
    displayOrder: JsNumber)

  /** The form's initial state, for a new exhibition (`None`) or an existing one; `currentYear` is the
      year of the clock when the form opens. */
  function InitialForm(exhibition: Option<Exhibition>, currentYear: int): (f: FormData)
    ensures exhibition.None? ==> f == FormData("", "", "", "", IntToString(currentYear), "group", Num(0))
    ensures exhibition.Some? ==> var e := exhibition.value;
      f.title == e.title && f.description == Admin.OrText(e.description, "") &&
      f.location == Admin.OrText(e.location, "") && f.date == Admin.OrText(e.date, "") &&
      f.year == IntToString(e.year) && f.kind == Admin.OrText(e.kind, "group") &&
      f.displayOrder == Num(e.displayOrder.GetOr(0))
  {
    match exhibition
    case None => FormData("", "", "", "", IntToString(currentYear), "group", Num(0))
    case Some(e) =>
      FormData(e.title, Admin.OrText(e.description, ""), Admin.OrText(e.location, ""), Admin.OrText(e.date, ""),
               IntToString(e.year), Admin.OrText(e.kind, "group"), Num(e.displayOrder.GetOr(0)))
  }

  /** `{ ...data, year: parseInt(data.year) }`. */
  function ToPayload(d: FormData): (p: Payload)
    ensures p.year == ParseInt(d.year)
    ensures p.title == d.title && p.description == d.description && p.location == d.location &&
            p.date == d.date && p.kind == d.kind && p.displayOrder == d.displayOrder
  {
    Payload(d.title, d.description, d.location, d.date, ParseInt(d.year), d.kind, d.displayOrder)
  }

  /** A new form is for the current year, and its payload carries that year as a number. */
  lemma NewFormPayload(currentYear: int)
    ensures ToPayload(InitialForm(None, currentYear)) == Payload("", "", "", "", Num(currentYear), "group", Num(0))
  {
    ParseIntOfIntToString(currentYear);
  }

  /** An unedited existing exhibition is written back with its own year; a null description, location
      or date is sent as the empty string, never as null. */
  lemma ExistingFormPayload(e: Exhibition, currentYear: int)
    ensures var p := ToPayload(InitialForm(Some(e), currentYear));
      p.year == Num(e.year) && p.title == e.title &&
      p.description == e.description.GetOr("") && p.location == e.location.GetOr("") &&
      p.date == e.date.GetOr("") && p.kind == Admin.OrText(e.kind, "group") &&
      p.displayOrder == Num(e.displayOrder.GetOr(0))
  {
    var f := InitialForm(Some(e), currentYear);
    assert f.year == IntToString(e.year);
    ParseIntOfIntToString(e.year);
    Admin.OrTextEmpty(e.description);
    Admin.OrTextEmpty(e.location);
    Admin.OrTextEmpty(e.date);
  }

  /** One `setFormData({ ...formData, field: value })` call. */
  datatype Edit =
    | Title(text: string)
    | Description(text: string)
    | Location(text: string)
    | Date(text: string)
    | Year(text: string)
    | Kind(text: string)
    | DisplayOrder(text: string)

  function ApplyEdit(d: FormData, e: Edit): FormData
  {
    match e
    case Title(t) => d.(title := t)
    case Description(t) => d.(description := t)
    case Location(t) => d.(location := t)
    case Date(t) => d.(date := t)
    case Year(t) => d.(year := t)
    case Kind(t) => d.(kind := t)
    case DisplayOrder(t) => d.(displayOrder := ParseInt(t))
  }

  /** Every edit but the year's reaches the payload verbatim; a year edit reaches it through `parseInt`. */
  lemma EditReachesPayload(d: FormData, e: Edit)
    ensures var p, q := ToPayload(ApplyEdit(d, e)), ToPayload(d);
      match e
      case Title(t) => p == q.(title := t)
      case Description(t) => p == q.(description := t)
      case Location(t) => p == q.(location := t)
      case Date(t) => p == q.(date := t)
      case Year(t) => p == q.(year := ParseInt(t))
      case Kind(t) => p == q.(kind := t)
      case DisplayOrder(t) => p == q.(displayOrder := ParseInt(t))
  {
  }

  class ExhibitionForm {
    const exhibition: Option<Exhibition>
    var data: FormData

    constructor (exhibition: Option<Exhibition>, currentYear: int)
      ensures this.exhibition == exhibition && data == InitialForm(exhibition, currentYear)
    {
      this.exhibition := exhibition;
      data := InitialForm(exhibition, currentYear);
    }

    method Change(e: Edit)
      modifies this
      ensures data == ApplyEdit(old(data), e)
    {
      data := ApplyEdit(data, e);
    }

    /** `handleSubmit`: update by id when editing, insert otherwise. */
    method Submit() returns (m: Admin.Mutation<Payload>)
      ensures m.payload == ToPayload(data)
      ensures m.Update? <==> exhibition.Some?
      ensures m.Update? ==> m.id == exhibition.value.id
    {
      var id := if exhibition.Some? then Some(exhibition.value.id) else None;
      m := Admin.MutationFor(id, ToPayload(data));
    }
  }

  /** `a` comes strictly before `b` under `.order("year", descending).order("display_order")`, where a
      missing `display_order` sorts after every number. */
  predicate ListedBefore(a: Exhibition, b: Exhibition)
  {
    a.year > b.year ||
    (a.year == b.year && a.displayOrder.Some? && (b.displayOrder.None? || a.displayOrder.value < b.displayOrder.value))
  }

  predicate ListedInOrder(rows: seq<Exhibition>)
  {
    forall i, j :: 0 <= i < j < |rows| ==> !ListedBefore(rows[j], rows[i])
  }

  /** The list order is a strict weak order whose ties share year and order. */
  lemma ListedBeforeIsStrictWeakOrder(a: Exhibition, b: Exhibition, c: Exhibition)
    ensures !ListedBefore(a, a)
    ensures ListedBefore(a, b) && ListedBefore(b, c) ==> ListedBefore(a, c)
    ensures !ListedBefore(a, b) && !ListedBefore(b, a) ==> a.year == b.year && a.displayOrder == b.displayOrder
  {
  }

  /** In a listed page, years never increase from one row to any later row. */
  lemma {:induction false} ListedYearsDescend(rows: seq<Exhibition>, i: int, j: int)
    requires ListedInOrder(rows) && 0 <= i <= j < |rows|
    ensures rows[i].year >= rows[j].year
  {
    if i < j {
      assert !ListedBefore(rows[j], rows[i]);
    }
  }
}
