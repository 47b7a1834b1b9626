/** The translation provider: locale selection and persistence, and the nested key lookup with an
    English fallback. */
module I18n {
  import opened Wrappers
  import Text

  datatype Locale = En | Pt

  function LocaleCode(l: Locale): (r: string)
    ensures r == "en" || r == "pt"
    ensures l == En <==> r == "en"
  {
    match l
    case En => "en"
    case Pt => "pt"
  }

  /** A translation catalog: nested objects whose leaves are strings. */
  datatype Translation = Leaf(text: string) | Branch(children: map<string, Translation>)

  datatype Catalog = Catalog(en: Translation, pt: Translation)

  function TreeOf(c: Catalog, l: Locale): Translation
  {
    match l
    case En => c.en
    case Pt => c.pt
  }

  /** `String(v)`: a leaf is its text and a nested object prints as `[object Object]`. */
  function Show(v: Translation): string
  {
    match v
    case Leaf(text) => text
    case Branch(_) => "[object Object]"
  }

  /** One segment of the walk: it proceeds only from an object that has the segment as a key. */
  function Descend(v: Translation, k: string): (r: Option<Translation>)
    ensures r.Some? <==> v.Branch? && k in v.children
  {
    if v.Branch? && k in v.children then Some(v.children[k]) else None
  }

  /** The value reached by following every segment of the path from `v`, if each step succeeds. */
  function Walk(v: Translation, path: seq<string>): Option<Translation>
    decreases |path|
  {
    if path == [] then Some(v)
    else match Descend(v, path[0])
      case None => None
      case Some(child) => Walk(child, path[1..])
  }

  /** The key as the separate segments it names. */
  function Segments(key: string): (r: seq<string>)
    ensures |r| >= 1 && Text.Join(r, '.') == key
  {
    Text.Split(key, '.')
  }

  /** What `t(key)` returns: the current locale's value, else the English value, else the key. */
  function Translate(c: Catalog, l: Locale, key: string): string
  {
    var path := Segments(key);
    match Walk(TreeOf(c, l), path)
    case Some(v) => Show(v)
    case None =>
      match Walk(c.en, path)
      case Some(v) => Show(v)
      case None => key
  }

  lemma {:induction false} WalkAppend(v: Translation, a: seq<string>, b: seq<string>)
    ensures Walk(v, a + b) == match Walk(v, a) case None => None case Some(w) => Walk(w, b)
    decreases |a|
  {
    if a == [] {
      assert a + b == b;
    } else {
      assert (a + b)[0] == a[0] && (a + b)[1..] == a[1..] + b;
      match Descend(v, a[0])
      case None =>
      case Some(child) => WalkAppend(child, a[1..], b);
    }
  }

  /** A walk that has reached `w` after `i` segments and cannot take segment `i` fails as a whole. */
  lemma WalkStuck(v: Translation, path: seq<string>, i: nat, w: Translation)
    requires i < |path| && Walk(v, path[..i]) == Some(w) && Descend(w, path[i]).None?
    ensures Walk(v, path) == None
  {
    assert path == path[..i] + path[i..];
    WalkAppend(v, path[..i], path[i..]);
  }

  /** A walk that has reached `w` after `i` segments and takes segment `i` to `u` has reached `u`
      after `i + 1` segments. */
  lemma WalkExtend(v: Translation, path: seq<string>, i: nat, w: Translation, u: Translation)
    requires i < |path| && Walk(v, path[..i]) == Some(w) && Descend(w, path[i]) == Some(u)
    ensures Walk(v, path[..i + 1]) == Some(u)
  {
    assert path[..i + 1] == path[..i] + [path[i]];
    WalkAppend(v, path[..i], [path[i]]);
  }

  /** When every segment resolves in the current locale, `t` returns that value. */
  lemma ResolvedInLocale(c: Catalog, l: Locale, key: string, v: Translation)
    requires Walk(TreeOf(c, l), Segments(key)) == Some(v)
    ensures Translate(c, l, key) == Show(v)
  {
  }

  /** When the current locale's walk fails anywhere, the whole key is walked again in English. */
  lemma FallsBackToEnglish(c: Catalog, l: Locale, key: string, v: Translation)
    requires Walk(TreeOf(c, l), Segments(key)).None? && Walk(c.en, Segments(key)) == Some(v)
    ensures Translate(c, l, key) == Show(v)
  {
  }

  /** A key that fails in both catalogs comes back unchanged. */
  lemma MissingKeyIsReturned(c: Catalog, l: Locale, key: string)
    requires Walk(TreeOf(c, l), Segments(key)).None? && Walk(c.en, Segments(key)).None?
    ensures Translate(c, l, key) == key
  {
  }

  /** In English, `t(k)` is the English value or `k` itself. */
  lemma EnglishIsValueOrKey(c: Catalog, key: string)
    ensures var r := Translate(c, En, key);
      r == key || exists v :: Walk(c.en, Segments(key)) == Some(v) && r == Show(v)
  {
    match Walk(c.en, Segments(key))
    case None =>
    case Some(v) => assert Translate(c, En, key) == Show(v);
  }

  /** A key that resolves in Portuguese does not depend on the English catalog at all. */
  lemma PortugueseIndependentOfEnglish(c: Catalog, en2: Translation, key: string)
    requires Walk(c.pt, Segments(key)).Some?
    ensures Translate(c, Pt, key) == Translate(c.(en := en2), Pt, key)
  {
  }

  /** The initial locale: a stored `"en"` or `"pt"` wins; otherwise Portuguese exactly when the lowercased
      browser language starts with `"pt"`. */
  function InitialLocale(stored: Option<string>, browserLanguage: string): (l: Locale)
    ensures stored == Some("en") ==> l == En
    ensures stored == Some("pt") ==> l == Pt
    ensures stored != Some("en") && stored != Some("pt") ==>
      (l == Pt <==> Text.StartsWith(Text.Lower(browserLanguage), "pt"))
  {
    if stored.Some? && stored.value != "" && (stored.value == "en" || stored.value == "pt") then
      (if stored.value == "en" then En else Pt)
    else if Text.StartsWith(Text.Lower(browserLanguage), "pt") then Pt
    else En
  }

  function Lookup(storage: map<string, string>, key: string): Option<string>
  {
    if key in storage then Some(storage[key]) else None
  }

  /** `useI18n`: the provider's value, or the error thrown outside a provider. */
  function UseI18n<C>(context: Option<C>): (r: Result<C, string>)
    ensures r.Ok? <==> context.Some?
    ensures r.Ok? ==> r.value == context.value
    ensures r.Err? ==> r.error == "useI18n must be used within an I18nProvider"
  {
    match context
    case None => Err("useI18n must be used within an I18nProvider")
    case Some(ctx) => Ok(ctx)
  }

  /** The provider: the current locale, the browser's local storage and the document's `lang`. */
  class I18nProvider {
    const catalog: Catalog
    var locale: Locale
    var storage: map<string, string>
    var documentLang: string

    constructor (catalog: Catalog, storage: map<string, string>, browserLanguage: string)
      ensures this.catalog == catalog && this.storage == storage
      ensures locale == InitialLocale(Lookup(storage, "locale"), browserLanguage)
      ensures documentLang == LocaleCode(locale)
    {
      this.catalog := catalog;
      this.storage := storage;
      var l := InitialLocale(Lookup(storage, "locale"), browserLanguage);
      this.locale := l;
      this.documentLang := LocaleCode(l);
    }

    /** `setLocale`: the new locale becomes current, is stored under `"locale"` and reaches the document. */
    method SetLocale(l: Locale)
      modifies this
      ensures locale == l && storage == old(storage)["locale" := LocaleCode(l)]
      ensures documentLang == LocaleCode(l)
    {
      locale := l;
      storage := storage["locale" := LocaleCode(l)];
      documentLang := LocaleCode(l);
    }

    /** `t`: walk the segments in the current locale; at the first failing segment walk them all again
        in English, returning the key if that fails too. */
    method T(key: string) returns (r: string)
      ensures r == Translate(catalog, locale, key)
    {
      var keys := Segments(key);
      var value := TreeOf(catalog, locale);
      var i := 0;
      while i < |keys|
        invariant 0 <= i <= |keys|
        invariant Walk(TreeOf(catalog, locale), keys[..i]) == Some(value)
      {
        var k := keys[i];
        if value.Branch? && k in value.children {
          WalkExtend(TreeOf(catalog, locale), keys, i, value, value.children[k]);
          value := value.children[k];
        } else {
          WalkStuck(TreeOf(catalog, locale), keys, i, value);
          var fallback := catalog.en;
          var j := 0;
          while j < |keys|
            invariant 0 <= j <= |keys|
            invariant Walk(catalog.en, keys[..j]) == Some(fallback)
          {
            var fk := keys[j];
            if fallback.Branch? && fk in fallback.children {
              WalkExtend(catalog.en, keys, j, fallback, fallback.children[fk]);
              fallback := fallback.children[fk];
            } else {
              WalkStuck(catalog.en, keys, j, fallback);
              return key;
            }
            j := j + 1;
          }
          assert keys[..j] == keys;
          return Show(fallback);
        }
        i := i + 1;
      }
      assert keys[..i] == keys;
      r := Show(value);
    }
  }

  /** After `setLocale(l)`, a provider created later from the same storage starts in `l`, whatever the
      browser language. */
  lemma LocaleSurvivesReload(storage: map<string, string>, l: Locale, browserLanguage: string)
    ensures InitialLocale(Lookup(storage["locale" := LocaleCode(l)], "locale"), browserLanguage) == l
  {
  }
}
