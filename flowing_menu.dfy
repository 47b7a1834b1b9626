/** The vertical flowing menu: accent classification, the active-item rule, the rendered item
    attributes and the marquee contents. */
module FlowingMenu {
  import opened Wrappers
  import Text

  /** The style object set on an accent swatch. */
  datatype AccentStyle = Background(background: string) | BackgroundImage(image: string)

  const DefaultAccent: string := "linear-gradient(135deg, hsl(var(--primary)) 0%, hsl(var(--secondary)) 100%)"

  /** `accentStyle`: no accent (absent or empty) gives the default gradient as `background`; an accent
      starting with `url(` becomes `backgroundImage`; any other accent is `background` verbatim. The
      gradient-keyword branch of the source yields the same style as the last branch. */
  function AccentStyleOf(accent: Option<string>): (r: AccentStyle)
    ensures (accent.None? || accent.value == "") ==> r == Background(DefaultAccent)
    ensures accent.Some? && accent.value != "" && Text.StartsWith(accent.value, "url(") ==>
      r == BackgroundImage(accent.value)
    ensures accent.Some? && accent.value != "" && !Text.StartsWith(accent.value, "url(") ==>
      r == Background(accent.value)
  {
    if accent.None? || accent.value == "" then Background(DefaultAccent)
    else if Text.StartsWith(accent.value, "url(") then BackgroundImage(accent.value)
    else if Text.StartsWith(accent.value, "linear") || Text.StartsWith(accent.value, "radial") ||
            Text.StartsWith(accent.value, "conic") then Background(accent.value)
    else Background(accent.value)
  }

  /** One piece of the marquee strip. */
  datatype MarqueePiece = Label(text: string) | Swatch(style: AccentStyle)

  /** The marquee: caption then accent swatch, exactly four times. */
  function Marquee(caption: string, style: AccentStyle): (r: seq<MarqueePiece>)
    ensures |r| == 8
    ensures forall k :: 0 <= k < 4 ==> r[2 * k] == Label(caption) && r[2 * k + 1] == Swatch(style)
  {
    var pair := [Label(caption), Swatch(style)];
    pair + pair + pair + pair
  }

  datatype MenuItem = MenuItem(href: string, caption: string, accent: Option<string>)

  /** The attributes of one rendered item link and its marquee. */
  datatype ItemView = ItemView(
    href: string,
    caption: string,
    active: bool,
    ariaCurrent: Option<string>,
    role: string,
    dataMenuItem: bool,
    marquee: seq<MarqueePiece>)

  function ItemRole(itemRole: Option<string>): string
  {
    itemRole.GetOr("menuitem")
  }

  /** One item: active exactly when its href equals `activeHref`, which then also sets
      `aria-current="page"`. */
  function RenderItem(item: MenuItem, activeHref: Option<string>, itemRole: Option<string>): (v: ItemView)
    ensures v.active <==> activeHref == Some(item.href)
    ensures v.ariaCurrent == if v.active then Some("page") else None
    ensures v.role == itemRole.GetOr("menuitem") && v.dataMenuItem
    ensures v.href == item.href && v.caption == item.caption
    ensures v.marquee == Marquee(item.caption, AccentStyleOf(item.accent))
  {
    var active := activeHref.Some? && activeHref.value == item.href;
    ItemView(item.href, item.caption, active, if active then Some("page") else None,
             ItemRole(itemRole), true, Marquee(item.caption, AccentStyleOf(item.accent)))
  }

  /** The menu: one view per item, in order. */
  function Render(items: seq<MenuItem>, activeHref: Option<string>, itemRole: Option<string>): (r: seq<ItemView>)
    ensures |r| == |items|
    ensures forall i :: 0 <= i < |items| ==> r[i] == RenderItem(items[i], activeHref, itemRole)
  {
    seq(|items|, i requires 0 <= i < |items| => RenderItem(items[i], activeHref, itemRole))
  }

  predicate DistinctHrefs(items: seq<MenuItem>)
  {
    forall i, j :: 0 <= i < j < |items| ==> items[i].href != items[j].href
  }

  /** With distinct hrefs at most one item is active, and only that item carries `aria-current`. */
  lemma AtMostOneActive(items: seq<MenuItem>, activeHref: Option<string>, itemRole: Option<string>, i: int, j: int)
    requires DistinctHrefs(items) && 0 <= i < |items| && 0 <= j < |items|
    ensures var r := Render(items, activeHref, itemRole);
      r[i].active && r[j].active ==> i == j
    ensures var r := Render(items, activeHref, itemRole);
      r[i].ariaCurrent.Some? <==> r[i].active
  {
  }

  /** Without an active href no item is active. */
  lemma NoActiveHref(items: seq<MenuItem>, itemRole: Option<string>)
    ensures forall v :: v in Render(items, None, itemRole) ==> !v.active && v.ariaCurrent.None?
  {
  }

  /** The hover handlers start an animation only when motion is allowed and the item is mounted. */
  function HoverAnimates(reduceMotion: bool, mounted: bool): (r: bool)
    ensures reduceMotion ==> !r
    ensures r <==> !reduceMotion && mounted
  {
    if reduceMotion then false else mounted
  }
}
