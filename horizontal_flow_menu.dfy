/** The horizontal category menu: the same accent rule as the flowing menu, selection by value, and
    the value reported on click. */
module HorizontalFlowMenu {
  import opened Wrappers
  import Text
  import FlowingMenu

  /** `accentStyle` as this component writes it out again. */
  function AccentStyleOf(accent: Option<string>): FlowingMenu.AccentStyle
  {
    if accent.None? || accent.value == "" then FlowingMenu.Background(FlowingMenu.DefaultAccent)
    else if Text.StartsWith(accent.value, "url(") then FlowingMenu.BackgroundImage(accent.value)
    else if Text.StartsWith(accent.value, "linear") || Text.StartsWith(accent.value, "radial") ||
            Text.StartsWith(accent.value, "conic") then FlowingMenu.Background(accent.value)
    else FlowingMenu.Background(accent.value)
  }

  /** Both menus classify every accent the same way. */
  lemma SameAccentRule(accent: Option<string>)
    ensures AccentStyleOf(accent) == FlowingMenu.AccentStyleOf(accent)
  {
  }

  datatype MenuItem = MenuItem(value: string, caption: string, accent: Option<string>)

  datatype ItemView = ItemView(
    value: string,
    caption: string,
    active: bool,
    ariaCurrent: Option<string>,
    role: string,
    dataMenuItem: bool,
    marquee: seq<FlowingMenu.MarqueePiece>)

  /** One item button: active exactly when its value is the selected one. */
  function RenderItem(item: MenuItem, selectedValue: string, itemRole: Option<string>): (v: ItemView)
    ensures v.active <==> item.value == selectedValue
    ensures v.ariaCurrent == if v.active then Some("page") else None
    ensures v.role == itemRole.GetOr("menuitem") && v.dataMenuItem
    ensures v.value == item.value && v.caption == item.caption
    ensures |v.marquee| == 8 && v.marquee == FlowingMenu.Marquee(item.caption, AccentStyleOf(item.accent))
  {
    var active := item.value == selectedValue;
    ItemView(item.value, item.caption, active, if active then Some("page") else None,
             itemRole.GetOr("menuitem"), true, FlowingMenu.Marquee(item.caption, AccentStyleOf(item.accent)))
  }

  function Render(items: seq<MenuItem>, selectedValue: string, itemRole: Option<string>): (r: seq<ItemView>)
    ensures |r| == |items|
    ensures forall i :: 0 <= i < |items| ==> r[i] == RenderItem(items[i], selectedValue, itemRole)
  {
    seq(|items|, i requires 0 <= i < |items| => RenderItem(items[i], selectedValue, itemRole))
  }

  /** Clicking the item at index `i` reports exactly its value to `onValueChange`. */
  function Click(items: seq<MenuItem>, i: nat): (v: string)
    requires i < |items|
    ensures v == items[i].value
  {
    items[i].value
  }

  predicate DistinctValues(items: seq<MenuItem>)
  {
    forall i, j :: 0 <= i < j < |items| ==> items[i].value != items[j].value
  }

  /** Once the reported value is selected, the clicked item is the one and only active item. */
  lemma ClickSelectsOnlyThatItem(items: seq<MenuItem>, i: nat, itemRole: Option<string>)
    requires i < |items| && DistinctValues(items)
    ensures var r := Render(items, Click(items, i), itemRole);
      r[i].active && r[i].ariaCurrent == Some("page") &&
      forall j :: 0 <= j < |items| && j != i ==> !r[j].active && r[j].ariaCurrent.None?
  {
    var r := Render(items, Click(items, i), itemRole);
    forall j | 0 <= j < |items| && j != i
      ensures !r[j].active
    {
      if j < i { assert items[j].value != items[i].value; } else { assert items[i].value != items[j].value; }
    }
  }

  /** The hover handlers do nothing under reduced motion. */
  function HoverAnimates(reduceMotion: bool, mounted: bool): (r: bool)
    ensures r <==> !reduceMotion && mounted
  {
    if reduceMotion then false else mounted
  }
}
