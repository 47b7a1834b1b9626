/** The settings editor card: the text being edited, the public flag, the unsaved-changes flag, and
    saving with the "looks like JSON" rule. */
module SettingsManager {
  import opened Wrappers
  import opened Json
  import Text

  /** A setting as the admin list loads it. */
  datatype Setting = Setting(id: string, key: string, value: Json, description: Option<string>, isPublic: bool)

  /** One `onUpdate(value, is_public)` call. */
  datatype SentUpdate = SentUpdate(value: Json, isPublic: bool)

  /** The text shown when the card opens: a string setting as it is, anything else as JSON text. */
  function InitialText(v: Json, stringify: Json -> string): (r: string)
    ensures v.JString? ==> r == v.s
    ensures !v.JString? ==> r == stringify(v)
  {
    if v.JString? then v.s else stringify(v)
  }

  /** The trimmed text starts with `{` or `[`. */
  predicate LooksLikeJson(text: string)
  {
    Text.StartsWith(Text.Trim(text), "{") || Text.StartsWith(Text.Trim(text), "[")
  }

  /** The value a save sends: the parse of the untrimmed text when it looks like JSON (`None` when the
      parse throws), otherwise the text itself as a string. */
  function SavedValue(text: string, parse: string -> Option<Json>): (r: Option<Json>)
    ensures !LooksLikeJson(text) ==> r == Some(JString(text))
    ensures LooksLikeJson(text) ==> r == parse(text)
  {
    if LooksLikeJson(text) then parse(text) else Some(JString(text))
  }

  /** The first character that `trim` keeps, when there is one. */
  lemma TrimKeepsFirstVisible(text: string)
    requires Text.TrimStart(text) != []
    ensures Text.Trim(text) != [] && Text.Trim(text)[0] == Text.TrimStart(text)[0]
  {
    var t := Text.TrimStart(text);
    assert Text.TrimEnd(t) == t[..|Text.TrimEnd(t)|];
  }

  /** A one-character prefix test looks at the first character only. */
  lemma StartsWithChar(s: string, c: char)
    ensures Text.StartsWith(s, [c]) <==> s != [] && s[0] == c
  {
    if s != [] && s[0] == c {
      assert s[..1] == [c];
    }
  }

  /** Whether text looks like JSON is decided by its first non-blank character. */
  lemma LooksLikeJsonByFirstVisible(text: string)
    requires Text.TrimStart(text) != []
    ensures LooksLikeJson(text) <==> Text.TrimStart(text)[0] == '{' || Text.TrimStart(text)[0] == '['
  {
    TrimKeepsFirstVisible(text);
    StartsWithChar(Text.Trim(text), '{');
    StartsWithChar(Text.Trim(text), '[');
  }

  /** Only the first non-blank character decides, and text not opening with `{` or `[` is never given
      to the parser: `"123"` stays the string "123". */
  lemma FirstVisibleCharDecides(text: string, parse: string -> Option<Json>)
    requires Text.TrimStart(text) != []
    ensures Text.TrimStart(text)[0] != '{' && Text.TrimStart(text)[0] != '[' ==>
      SavedValue(text, parse) == Some(JString(text))
    ensures Text.TrimStart(text)[0] == '{' || Text.TrimStart(text)[0] == '[' ==>
      SavedValue(text, parse) == parse(text)
  {
    LooksLikeJsonByFirstVisible(text);
  }

  /** Blank text, or text of blanks only, is sent as it is. */
  lemma BlankTextStaysString(text: string, parse: string -> Option<Json>)
    requires Text.TrimStart(text) == []
    ensures SavedValue(text, parse) == Some(JString(text))
  {
  }

  /** A non-string setting shown as JSON text that does not start with `{` or `[` (a number, a boolean,
      null) goes back as a string when the card is saved without editing the text. */
  lemma ScalarSettingSavedAsString(v: Json, stringify: Json -> string, parse: string -> Option<Json>)
    requires !v.JString? && !LooksLikeJson(stringify(v))
    ensures SavedValue(InitialText(v, stringify), parse) == Some(JString(stringify(v)))
  {
  }

  /** An object or array setting whose JSON text parses back to it is sent back unchanged when the card
      is saved without editing the text. */
  lemma StructuredSettingRoundTrips(v: Json, stringify: Json -> string, parse: string -> Option<Json>)
    requires v.JArray? || v.JObject?
    requires LooksLikeJson(stringify(v)) && parse(stringify(v)) == Some(v)
    ensures SavedValue(InitialText(v, stringify), parse) == Some(v)
  {
  }

  /** The card's state. `sent` records the `onUpdate` calls and `toasts` the error messages shown;
      `stringify` and `parse` are `JSON.stringify(_, null, 2)` and `JSON.parse`, `None` when it throws. */
  class SettingCard {
    const setting: Setting
    const stringify: Json -> string
    const parse: string -> Option<Json>
    var value: string
    var isPublic: bool
    var hasChanges: bool
    var sent: seq<SentUpdate>
    var toasts: seq<string>

    constructor (setting: Setting, stringify: Json -> string, parse: string -> Option<Json>)
      ensures this.setting == setting && this.stringify == stringify && this.parse == parse
      ensures value == InitialText(setting.value, stringify) && isPublic == setting.isPublic
      ensures !hasChanges && sent == [] && toasts == []
    {
      this.setting := setting;
      this.stringify := stringify;
      this.parse := parse;
      value := InitialText(setting.value, stringify);
      isPublic := setting.isPublic;
      hasChanges := false;
      sent := [];
      toasts := [];
    }

    /** `handleValueChange`. */
    method EditValue(newValue: string)
      modifies this
      ensures value == newValue && hasChanges
      ensures isPublic == old(isPublic) && sent == old(sent) && toasts == old(toasts)
    {
      value := newValue;
      hasChanges := true;
    }

    /** `handlePublicChange`. */
    method SetPublic(checked: bool)
      modifies this
      ensures isPublic == checked && hasChanges
      ensures value == old(value) && sent == old(sent) && toasts == old(toasts)
    {
      isPublic := checked;
      hasChanges := true;
    }

    /** `handleSave`: one `onUpdate` with the saved value and the current flag, then no unsaved changes;
        on a parse failure nothing is sent, an error is shown and the unsaved changes stay. */
    method Save()
      modifies this
      ensures value == old(value) && isPublic == old(isPublic)
      ensures var out := SavedValue(old(value), parse);
        if out.Some? then
          sent == old(sent) + [SentUpdate(out.value, old(isPublic))] && !hasChanges && toasts == old(toasts)
        else
          sent == old(sent) && hasChanges == old(hasChanges) && toasts == old(toasts) + ["Invalid JSON format"]
    {
      var parsed: Option<Json> := Some(JString(value));
      var trimmed := Text.Trim(value);
      if Text.StartsWith(trimmed, "{") || Text.StartsWith(trimmed, "[") {
        parsed := parse(value);
      }
      if parsed.Some? {
        sent := sent + [SentUpdate(parsed.value, isPublic)];
        hasChanges := false;
      } else {
        toasts := toasts + ["Invalid JSON format"];
      }
    }

    /** The Save button is rendered exactly while there are unsaved changes. */
    function ShowSave(): (r: bool)
      reads this
      ensures r <==> hasChanges
    {
      hasChanges
    }

    /** A text area for structured values (`typeof` object, which includes null) or long text. */
    function IsMultiline(): (r: bool)
      reads this
      ensures r <==> setting.value.JNull? || setting.value.JArray? || setting.value.JObject? || |value| > 50
    {
      setting.value.IsObjectType() || |value| > 50
    }
  }
}
