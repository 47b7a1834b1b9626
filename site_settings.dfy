/** Site settings: the public-settings query and the `??` fallback resolution of one setting. */
module SiteSettings {
  import opened Wrappers
  import opened Json
  import Seqs

  /** A row of the `settings` table. */
  datatype SettingRow = SettingRow(id: string, key: string, value: Json, isPublic: Option<bool>, description: Option<string>)

  /** What the settings query yields: every public row when no key is given, else at most one row. */
  datatype SettingsData = Many(rows: seq<SettingRow>) | One(row: Option<SettingRow>)

  predicate IsPublic(row: SettingRow)
  {
    row.isPublic == Some(true)
  }

  predicate IsPublicWithKey(row: SettingRow, key: string)
  {
    row.key == key && row.isPublic == Some(true)
  }

  /** `useSettings(key)`'s query against `table`: without a key (or with an empty one) all public rows;
      with a key the public row with that key or null, and an error when `maybeSingle` finds several. */
  function SelectSettings(table: seq<SettingRow>, key: Option<string>): (r: Result<SettingsData, string>)
    ensures (key.None? || key.value == "") ==>
      r.Ok? && r.value.Many? && forall row :: row in r.value.rows <==> row in table && IsPublic(row)
    ensures key.Some? && key.value != "" ==> (r.Ok? ==> r.value.One?)
    ensures key.Some? && key.value != "" ==>
      (r.Err? <==> Seqs.Count(table, (row: SettingRow) => IsPublicWithKey(row, key.value)) >= 2)
    ensures key.Some? && key.value != "" && r.Ok? && r.value.row.Some? ==>
      r.value.row.value in table && IsPublicWithKey(r.value.row.value, key.value)
    ensures key.Some? && key.value != "" && r.Ok? && r.value.row.None? ==>
      forall row :: row in table ==> !IsPublicWithKey(row, key.value)
  {
    if key.None? || key.value == "" then
      Ok(Many(Seqs.Filter(table, IsPublic)))
    else
      var matches := Seqs.Filter(table, (row: SettingRow) => IsPublicWithKey(row, key.value));
      if |matches| == 0 then Ok(One(None))
      else if |matches| == 1 then
        assert matches[0] in matches;
        Ok(One(Some(matches[0])))
      else Err("JSON object requested, multiple (or no) rows returned")
  }

  /** `useSiteSetting(key, fallback)`: no data, a null row or an array gives `fallback ?? null`; a row
      gives `value ?? fallback ?? null`. An absent fallback is `None`. */
  function SiteSetting(data: Option<SettingsData>, fallback: Option<Json>): (r: Json)
    ensures (data.None? || data.value.Many? || data.value == One(None)) ==> r == fallback.GetOr(JNull)
    ensures data.Some? && data.value.One? && data.value.row.Some? ==>
      var v := data.value.row.value.value;
      r == if v != JNull then v else fallback.GetOr(JNull)
  {
    match data
    case None => fallback.GetOr(JNull)
    case Some(Many(_)) => fallback.GetOr(JNull)
    case Some(One(None)) => fallback.GetOr(JNull)
    case Some(One(Some(row))) => if row.value != JNull then row.value else fallback.GetOr(JNull)
  }

  /** A stored `false`, `0` or `""` is returned as it is; the fallback is not used for falsy values. */
  lemma FalsyValuesKept(row: SettingRow, fallback: Option<Json>)
    requires row.value in {JBool(false), JNumber(0), JString("")}
    ensures SiteSetting(Some(One(Some(row))), fallback) == row.value
  {
  }

  /** Reading one setting from the table: the value of its public row when that value is not null,
      else the fallback, else null. */
  lemma SiteSettingFromTable(table: seq<SettingRow>, key: string, fallback: Option<Json>, row: SettingRow)
    requires key != "" && row in table && IsPublicWithKey(row, key)
    requires Seqs.Count(table, (r: SettingRow) => IsPublicWithKey(r, key)) == 1
    ensures var q := SelectSettings(table, Some(key));
      q.Ok? && SiteSetting(Some(q.value), fallback) == if row.value != JNull then row.value else fallback.GetOr(JNull)
  {
    var matches := Seqs.Filter(table, (r: SettingRow) => IsPublicWithKey(r, key));
    assert |matches| == 1 && matches[0] in matches;
  }

  /** An empty key asks for the whole public list, so the single-setting reader answers with the
      fallback. */
  lemma EmptyKeyGivesFallback(table: seq<SettingRow>, fallback: Option<Json>)
    ensures var q := SelectSettings(table, Some(""));
      q.Ok? && SiteSetting(Some(q.value), fallback) == fallback.GetOr(JNull)
  {
  }
}
