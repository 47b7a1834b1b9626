/** The mobile overlay navigation of the site header: an open/closed state machine with a focus trap,
    arrow-key cycling over the menu items, a focus memento and a page scroll lock. */
module GooeyNav {
  import opened Wrappers
  import Seqs

  /** Identity of a DOM element; distinct elements have distinct identities. */
  type ElementId = nat

  datatype Tag = Anchor | Button | OtherTag

  /** One descendant of the overlay section, with the attributes that the focus selectors inspect. */
  datatype Node = Node(
    id: ElementId,
    tag: Tag,
    hasHref: bool,
    disabled: bool,
    role: Option<string>,
    tabIndex: Option<string>,
    focusGuard: bool,     // carries `data-focus-guard`
    menuItem: bool)       // carries `data-menu-item`

  /** The selector `a[href], button:not([disabled]), [role='menuitem'], [tabindex]:not([tabindex='-1'])`. */
  predicate MatchesFocusSelector(n: Node)
  {
    (n.tag == Anchor && n.hasHref) || (n.tag == Button && !n.disabled) ||
    n.role == Some("menuitem") || (n.tabIndex.Some? && n.tabIndex.value != "-1")
  }

  predicate IsFocusable(n: Node)
  {
    MatchesFocusSelector(n) && !n.focusGuard
  }

  predicate IsMenuItem(n: Node)
  {
    n.menuItem
  }

  function Ids(nodes: seq<Node>): (r: seq<ElementId>)
    ensures |r| == |nodes|
    ensures forall i :: 0 <= i < |nodes| ==> r[i] == nodes[i].id
  {
    seq(|nodes|, i requires 0 <= i < |nodes| => nodes[i].id)
  }

  lemma IdsMembership(nodes: seq<Node>, id: ElementId)
    ensures id in Ids(nodes) <==> exists n :: n in nodes && n.id == id
  {
    if id in Ids(nodes) {
      var i :| 0 <= i < |nodes| && Ids(nodes)[i] == id;
      assert nodes[i] in nodes;
    }
  }

  /** Taking ids keeps document order: the ids of a subsequence form a subsequence of the ids. */
  lemma {:induction false} IdsSubsequence(a: seq<Node>, b: seq<Node>)
    requires Seqs.IsSubsequence(a, b)
    ensures Seqs.IsSubsequence(Ids(a), Ids(b))
    decreases |b|
  {
    if a != [] {
      assert Ids(b)[1..] == Ids(b[1..]);
      if a[0] == b[0] {
        assert Ids(a)[1..] == Ids(a[1..]);
        IdsSubsequence(a[1..], b[1..]);
      } else {
        IdsSubsequence(a, b[1..]);
        if Ids(a)[0] == Ids(b)[0] {
          Seqs.SubsequenceTail(Ids(a), Ids(b)[1..]);
        }
      }
    }
  }

  /** The focus ring: the container's descendants matching the focus selector, in document order,
      without focus guards; no container gives an empty ring. */
  function FocusableElements(container: Option<seq<Node>>): (r: seq<ElementId>)
    ensures container.None? ==> r == []
    ensures container.Some? ==>
      forall id :: id in r <==> exists n :: n in container.value && IsFocusable(n) && n.id == id
    ensures container.Some? ==> Seqs.IsSubsequence(r, Ids(container.value))
  {
    match container
    case None => []
    case Some(nodes) =>
      var kept := Seqs.Filter(nodes, IsFocusable);
      assert forall id :: id in Ids(kept) <==> exists n :: n in kept && n.id == id by {
        forall id { IdsMembership(kept, id); }
      }
      IdsSubsequence(kept, nodes);
      Ids(kept)
  }

  /** The container's `[data-menu-item]` descendants, in document order. */
  function MenuItems(container: Option<seq<Node>>): (r: seq<ElementId>)
    ensures container.None? ==> r == []
    ensures container.Some? ==>
      forall id :: id in r <==> exists n :: n in container.value && n.menuItem && n.id == id
    ensures container.Some? ==> Seqs.IsSubsequence(r, Ids(container.value))
  {
    match container
    case None => []
    case Some(nodes) =>
      var kept := Seqs.Filter(nodes, IsMenuItem);
      assert forall id :: id in Ids(kept) <==> exists n :: n in kept && n.id == id by {
        forall id { IdsMembership(kept, id); }
      }
      IdsSubsequence(kept, nodes);
      Ids(kept)
  }

  predicate Distinct(items: seq<ElementId>)
  {
    forall i, j :: 0 <= i < j < |items| ==> items[i] != items[j]
  }

  /** `items.findIndex(item => item === e)`. */
  function IndexOf(items: seq<ElementId>, e: ElementId): (r: int)
    ensures -1 <= r < |items|
    ensures r == -1 <==> e !in items
    ensures 0 <= r ==> items[r] == e && e !in items[..r]
  {
    if items == [] then -1
    else if items[0] == e then 0
    else
      var k := IndexOf(items[1..], e);
      assert items[1..][..if k < 0 then 0 else k] == items[1..if k < 0 then 1 else k + 1];
      if k == -1 then -1 else k + 1
  }

  lemma IndexOfDistinct(items: seq<ElementId>, i: int)
    requires Distinct(items) && 0 <= i < |items|
    ensures IndexOf(items, items[i]) == i
  {
  }

  datatype Key = Escape | Tab | ArrowDown | ArrowUp | OtherKey

  /** The focus trap: Shift+Tab on the first focusable moves to the last, Tab on the last moves to the
      first; anywhere else (or with an empty ring) the handler leaves focus alone. */
  function TabTarget(ring: seq<ElementId>, focused: ElementId, shift: bool): (r: Option<ElementId>)
    ensures r.Some? <==> |ring| > 0 && focused == (if shift then ring[0] else ring[|ring| - 1])
    ensures r.Some? ==> r.value == (if shift then ring[|ring| - 1] else ring[0])
  {
    if |ring| == 0 then None
    else
      var first, last := ring[0], ring[|ring| - 1];
      if shift then (if focused == first then Some(last) else None)
      else if focused == last then Some(first) else None
  }

  /** `(index + 1) % length`: the next index, wrapping from the last back to the first. */
  function NextIndex(i: int, n: int): (r: int)
    requires 0 <= i < n
    ensures 0 <= r < n
    ensures r == if i + 1 == n then 0 else i + 1
  {
    (i + 1) % n
  }

  /** `(index - 1 + length) % length`: the previous index, wrapping from the first on to the last. */
  function PrevIndex(i: int, n: int): (r: int)
    requires 0 <= i < n
    ensures 0 <= r < n
    ensures r == if i == 0 then n - 1 else i - 1
  {
    assert i > 0 ==> (i - 1 + n) % n == ((i - 1) + n) % n;
    (i - 1 + n) % n
  }

  /** Arrow-key cycling: ArrowDown moves from the item at index i to the next index and ArrowUp to the
      previous one, both wrapping around; when focus is not on an item nothing happens. */
  function ArrowTarget(items: seq<ElementId>, focused: ElementId, down: bool): (r: Option<ElementId>)
    ensures r.Some? <==> focused in items
    ensures r.Some? ==> r.value in items
    ensures r.Some? ==>
      var i, n := IndexOf(items, focused), |items|;
      0 <= i < n && r.value == items[if down then NextIndex(i, n) else PrevIndex(i, n)]
  {
    if |items| == 0 then None
    else
      var index := IndexOf(items, focused);
      if index == -1 then None
      else if down then Some(items[NextIndex(index, |items|)])
      else Some(items[PrevIndex(index, |items|)])
  }

  /** ArrowDown followed by ArrowUp puts focus back where it was. */
  lemma ArrowDownThenUp(items: seq<ElementId>, i: int)
    requires Distinct(items) && 0 <= i < |items|
    ensures ArrowTarget(items, items[i], true).Some?
    ensures ArrowTarget(items, ArrowTarget(items, items[i], true).value, false) == Some(items[i])
  {
    var n := |items|;
    IndexOfDistinct(items, i);
    var j := if i + 1 == n then 0 else i + 1;
    assert ArrowTarget(items, items[i], true) == Some(items[j]);
    IndexOfDistinct(items, j);
  }

  /** Focus after pressing ArrowDown `k` times starting from `e`. */
  function ArrowDownTimes(items: seq<ElementId>, e: ElementId, k: nat): ElementId
    decreases k
  {
    if k == 0 then e
    else match ArrowTarget(items, e, true)
      case None => e
      case Some(next) => ArrowDownTimes(items, next, k - 1)
  }

  lemma ArrowDownStep(items: seq<ElementId>, i: nat)
    requires Distinct(items) && i < |items|
    ensures ArrowDownTimes(items, items[i], 1) == items[if i + 1 == |items| then 0 else i + 1]
  {
    IndexOfDistinct(items, i);
  }

  lemma {:induction false} ArrowDownTimesCompose(items: seq<ElementId>, e: ElementId, a: nat, b: nat)
    ensures ArrowDownTimes(items, e, a + b) == ArrowDownTimes(items, ArrowDownTimes(items, e, a), b)
    decreases a
  {
    if a > 0 {
      match ArrowTarget(items, e, true)
      case None =>
        ArrowDownTimesStuck(items, e, b);
      case Some(next) =>
        ArrowDownTimesCompose(items, next, a - 1, b);
    }
  }

  lemma {:induction false} ArrowDownTimesStuck(items: seq<ElementId>, e: ElementId, k: nat)
    requires ArrowTarget(items, e, true).None?
    ensures ArrowDownTimes(items, e, k) == e
  {
  }

  lemma {:induction false} ArrowDownTimesForward(items: seq<ElementId>, i: nat, k: nat)
    requires Distinct(items) && i + k < |items|
    ensures ArrowDownTimes(items, items[i], k) == items[i + k]
    decreases k
  {
    if k > 0 {
      ArrowDownTimesCompose(items, items[i], 1, k - 1);
      ArrowDownStep(items, i);
      ArrowDownTimesForward(items, i + 1, k - 1);
    }
  }

  /** A full cycle: with n menu items, n ArrowDowns return focus to the item it started on. */
  lemma {:induction false} ArrowDownFullCycle(items: seq<ElementId>, i: nat)
    requires Distinct(items) && i < |items|
    ensures ArrowDownTimes(items, items[i], |items|) == items[i]
  {
    var n := |items|;
    var k: nat := n - 1 - i;
    var last := ArrowDownTimes(items, items[i], k);
    ArrowDownTimesForward(items, i, k);
    assert last == items[n - 1];
    var wrapped := ArrowDownTimes(items, last, 1);
    ArrowDownStep(items, n - 1);
    assert wrapped == items[0];
    ArrowDownTimesForward(items, 0, i);
    assert ArrowDownTimes(items, wrapped, i) == items[i];
    ArrowDownTimesCompose(items, last, 1, i);
    assert ArrowDownTimes(items, last, 1 + i) == items[i];
    ArrowDownTimesCompose(items, items[i], k, 1 + i);
    assert k + (1 + i) == n;
  }

  /** The controller's state together with the page state it owns while open. */
  datatype NavState = NavState(
    open: bool,
    listening: bool,                 // the window keydown listener is installed
    focused: ElementId,              // document.activeElement
    memento: Option<ElementId>,      // the element focused before opening
    overflow: string,                // document.body.style.overflow
    savedOverflow: Option<string>,   // the value the scroll-lock effect will restore
    pathname: string)

  /** The user-visible events the controller reacts to. */
  datatype Event =
    | Toggle                         // the menu button
    | CloseMenu                      // the close button or the backdrop
    | ItemClick(href: string)        // a menu link: closes, then the router navigates to `href`
    | KeyDown(key: Key, shift: bool)
    | RouteChange(path: string)

  /** The state on mount: closed, nothing remembered, the page's own overflow in place. */
  function Initial(pathname: string, overflow: string, focused: ElementId): (s: NavState)
    ensures !s.open && !s.listening && s.memento == None && s.savedOverflow == None
    ensures s.overflow == overflow && s.focused == focused && s.pathname == pathname
  {
    NavState(false, false, focused, None, overflow, None, pathname)
  }

  /** The effects run when `open` becomes true: install the key listener, remember the focused element,
      focus the first focusable of the overlay if there is one, save the overflow and lock scrolling. */
  function Opened(s: NavState, section: seq<Node>): (r: NavState)
    ensures r.open && r.listening && r.overflow == "hidden"
    ensures r.memento == Some(s.focused) && r.savedOverflow == Some(s.overflow)
    ensures var ring := FocusableElements(Some(section));
      r.focused == if |ring| > 0 then ring[0] else s.focused
    ensures r.pathname == s.pathname
  {
    var ring := FocusableElements(Some(section));
    NavState(true, true, if |ring| > 0 then ring[0] else s.focused, Some(s.focused),
             "hidden", Some(s.overflow), s.pathname)
  }

  /** The cleanups and effects run when `open` becomes false: remove the key listener, restore the saved
      overflow, and give focus back to the remembered element, clearing the memento. */
  function Closed(s: NavState): (r: NavState)
    ensures !r.open && !r.listening && r.memento == None && r.savedOverflow == None
    ensures r.overflow == s.savedOverflow.GetOr(s.overflow)
    ensures r.focused == s.memento.GetOr(s.focused)
    ensures r.pathname == s.pathname
  {
    NavState(false, false, s.memento.GetOr(s.focused), None,
             s.savedOverflow.GetOr(s.overflow), None, s.pathname)
  }

  /** `setOpen(v)`: the effects run only when the value changes. */
  function SetOpen(s: NavState, section: seq<Node>, v: bool): (r: NavState)
    ensures r.open == v
    ensures v == s.open ==> r == s
  {
    if v == s.open then s else if v then Opened(s, section) else Closed(s)
  }

  /** The window keydown handler, which only acts while it is installed. */
  function HandleKey(s: NavState, section: seq<Node>, key: Key, shift: bool): (r: NavState)
    ensures !s.listening ==> r == s
    ensures s.listening && key == Escape ==> r == SetOpen(s, section, false)
    ensures key != Escape ==> r == s.(focused := r.focused)
    ensures key == Tab && TabTarget(FocusableElements(Some(section)), s.focused, shift).None? ==> r == s
    ensures key == ArrowDown && ArrowTarget(MenuItems(Some(section)), s.focused, true).None? ==> r == s
    ensures key == ArrowUp && ArrowTarget(MenuItems(Some(section)), s.focused, false).None? ==> r == s
    ensures key == OtherKey ==> r == s
  {
    if !s.listening then s
    else match key
      case Escape => SetOpen(s, section, false)
      case Tab =>
        (match TabTarget(FocusableElements(Some(section)), s.focused, shift)
         case None => s
         case Some(e) => s.(focused := e))
      case ArrowDown =>
        (match ArrowTarget(MenuItems(Some(section)), s.focused, true)
         case None => s
         case Some(e) => s.(focused := e))
      case ArrowUp =>
        (match ArrowTarget(MenuItems(Some(section)), s.focused, false)
         case None => s
         case Some(e) => s.(focused := e))
      case OtherKey => s
  }

  /** The pathname effect: a new pathname closes the menu. */
  function RouteTo(s: NavState, section: seq<Node>, path: string): (r: NavState)
    ensures r.pathname == path
    ensures path != s.pathname ==> !r.open
    ensures path == s.pathname ==> r == s
  {
    if path == s.pathname then s else SetOpen(s.(pathname := path), section, false)
  }

  /** One event. */
  function Step(s: NavState, section: seq<Node>, ev: Event): (r: NavState)
    ensures ev == Toggle ==> r.open == !s.open
    ensures ev == CloseMenu || ev.ItemClick? ==> !r.open
    ensures ev.ItemClick? ==> r.pathname == ev.href
    ensures ev.RouteChange? && ev.path != s.pathname ==> !r.open
    ensures ev.KeyDown? && ev.key == Escape ==> !r.open || !s.listening
    ensures ev.KeyDown? && !s.listening ==> r == s
  {
    match ev
    case Toggle => SetOpen(s, section, !s.open)
    case CloseMenu => SetOpen(s, section, false)
    case ItemClick(href) => RouteTo(SetOpen(s, section, false), section, href)
    case KeyDown(key, shift) => HandleKey(s, section, key, shift)
    case RouteChange(path) => RouteTo(s, section, path)
  }

  function Run(s: NavState, section: seq<Node>, events: seq<Event>): NavState
    decreases |events|
  {
    if events == [] then s else Run(Step(s, section, events[0]), section, events[1..])
  }

  /** The ownership discipline: the key listener is installed exactly while open; while open the page
      cannot scroll and the page's own overflow is held for restoring; while closed it is back in place
      and nothing is remembered. */
  predicate Inv(s: NavState, pageOverflow: string)
  {
    s.listening == s.open &&
    (s.open ==> s.overflow == "hidden" && s.savedOverflow == Some(pageOverflow) && s.memento.Some?) &&
    (!s.open ==> s.overflow == pageOverflow && s.savedOverflow == None && s.memento == None)
  }

  lemma StepPreservesInv(s: NavState, section: seq<Node>, ev: Event, pageOverflow: string)
    requires Inv(s, pageOverflow)
    ensures Inv(Step(s, section, ev), pageOverflow)
  {
  }

  /** While the menu is closed the key listener is not installed, so no key press changes anything. */
  lemma KeysIgnoredWhileClosed(s: NavState, section: seq<Node>, key: Key, shift: bool, pageOverflow: string)
    requires Inv(s, pageOverflow) && !s.open
    ensures Step(s, section, KeyDown(key, shift)) == s
  {
  }

  /** Whatever events arrive, the scroll lock is held exactly while the menu is open, and every way of
      closing it puts back exactly the overflow the page had before the menu was opened. */
  lemma {:induction false} ScrollLockReleased(s: NavState, section: seq<Node>, events: seq<Event>, pageOverflow: string)
    requires Inv(s, pageOverflow)
    ensures var t := Run(s, section, events);
      Inv(t, pageOverflow) && (t.open ==> t.overflow == "hidden") && (!t.open ==> t.overflow == pageOverflow)
    decreases |events|
  {
    if events != [] {
      StepPreservesInv(s, section, events[0], pageOverflow);
      ScrollLockReleased(Step(s, section, events[0]), section, events[1..], pageOverflow);
    }
  }

  function Toggles(k: nat): (r: seq<Event>)
    ensures |r| == k && forall i :: 0 <= i < k ==> r[i] == Toggle
  {
    if k == 0 then [] else [Toggle] + Toggles(k - 1)
  }

  /** Repeated toggling alternates strictly between closed and open. */
  lemma {:induction false} TogglingAlternates(s: NavState, section: seq<Node>, k: nat)
    decreases k
    ensures Run(s, section, Toggles(k)).open == (if k % 2 == 0 then s.open else !s.open)
  {
    if k > 0 {
      assert Toggles(k)[1..] == Toggles(k - 1);
      TogglingAlternates(Step(s, section, Toggle), section, k - 1);
    }
  }

  /** Events that move focus inside the open menu without closing it. */
  predicate IsFocusMove(ev: Event)
  {
    ev.KeyDown? && ev.key != Escape
  }

  /** Events that close an open menu. */
  predicate IsClosing(ev: Event, s: NavState)
  {
    ev == Toggle || ev == CloseMenu || ev.ItemClick? || (ev.KeyDown? && ev.key == Escape) ||
    (ev.RouteChange? && ev.path != s.pathname)
  }

  lemma {:induction false} FocusMovesKeepMemento(s: NavState, section: seq<Node>, events: seq<Event>)
    requires s.open && s.listening
    requires forall i :: 0 <= i < |events| ==> IsFocusMove(events[i])
    ensures var t := Run(s, section, events);
      t == s.(focused := t.focused)
    decreases |events|
  {
    if events != [] {
      FocusMovesKeepMemento(Step(s, section, events[0]), section, events[1..]);
    }
  }

  /** The focus memento: open the menu, move focus around inside it, close it by any route, and focus is
      back on the element that had it before opening, with nothing left remembered. */
  lemma FocusRestoredOnClose(s: NavState, section: seq<Node>, moves: seq<Event>, closer: Event, pageOverflow: string)
    requires Inv(s, pageOverflow) && !s.open
    requires forall i :: 0 <= i < |moves| ==> IsFocusMove(moves[i])
    requires IsClosing(closer, s)
    ensures var t := Run(s, section, [Toggle] + moves + [closer]);
      !t.open && t.focused == s.focused && t.memento == None && t.overflow == pageOverflow
  {
    var afterOpen := Step(s, section, Toggle);
    FocusMovesKeepMemento(afterOpen, section, moves);
    var moved := Run(afterOpen, section, moves);
    RunAppend(s, section, [Toggle] + moves, [closer]);
    RunAppend(s, section, [Toggle], moves);
    assert Run(s, section, [Toggle]) == afterOpen;
  }

  lemma {:induction false} RunAppend(s: NavState, section: seq<Node>, a: seq<Event>, b: seq<Event>)
    ensures Run(s, section, a + b) == Run(Run(s, section, a), section, b)
    decreases |a|
  {
    if a == [] {
      assert a + b == b;
    } else {
      assert (a + b)[1..] == a[1..] + b;
      RunAppend(Step(s, section, a[0]), section, a[1..], b);
    }
  }

  /** A link of the overlay menu: an anchor with `role="menuitem"` and `data-menu-item`. */
  function MenuLink(id: ElementId): Node
  {
    Node(id, Anchor, true, false, Some("menuitem"), None, false, true)
  }

  /** The screen-reader title and the `role="menu"` list element of the header's overlay. */
  function HeaderFrame(): seq<Node>
  {
    [Node(10, OtherTag, false, false, None, None, false, false),
     Node(11, OtherTag, false, false, Some("menu"), None, false, false)]
  }

  /** The links Home (1), Portfolio (2), About (3) and Contact (4). */
  function HeaderLinks(): seq<Node>
  {
    [MenuLink(1), MenuLink(2), MenuLink(3), MenuLink(4)]
  }

  function CloseButton(): Node
  {
    Node(5, Button, false, false, None, None, false, false)
  }

  lemma FrameDropped(frame: seq<Node>, keep: Node -> bool)
    requires frame == HeaderFrame() && (keep == IsFocusable || keep == IsMenuItem)
    ensures Seqs.Filter(frame, keep) == []
  {
    var r := Seqs.Filter(frame, keep);
    assert forall n :: n in frame ==> !keep(n);
  }

  lemma LinksKept(links: seq<Node>, keep: Node -> bool)
    requires links == HeaderLinks() && (keep == IsFocusable || keep == IsMenuItem)
    ensures Seqs.Filter(links, keep) == links
  {
    assert forall n :: n in links ==> keep(n);
  }

  lemma CloseFiltered(close: Node)
    requires close == CloseButton()
    ensures Seqs.Filter([close], IsFocusable) == [close] && Seqs.Filter([close], IsMenuItem) == []
  {
    assert !IsMenuItem(close);
  }

  /** Filtering a section whose head is dropped entirely and whose middle is kept entirely. */
  lemma FilterParts(head: seq<Node>, links: seq<Node>, tail: seq<Node>, keep: Node -> bool)
    requires Seqs.Filter(head, keep) == [] && Seqs.Filter(links, keep) == links
    ensures Seqs.Filter(head + links + tail, keep) == links + Seqs.Filter(tail, keep)
  {
    Seqs.FilterAppend(head + links, tail, keep);
    Seqs.FilterAppend(head, links, keep);
    assert [] + links == links;
  }

  /** The header's overlay in document order is the frame, the links, then the close button (5): its
      focus ring is the four links then the close button, and its menu items are the links. */
  lemma HeaderRing(frame: seq<Node>, links: seq<Node>, close: Node)
    requires frame == HeaderFrame() && links == HeaderLinks() && close == CloseButton()
    ensures FocusableElements(Some(frame + links + [close])) == [1, 2, 3, 4, 5]
    ensures MenuItems(Some(frame + links + [close])) == [1, 2, 3, 4]
  {
    HeaderFocusableNodes(frame, links, close);
    HeaderMenuItemNodes(frame, links, close);
    RingIsIds(frame + links + [close]);
    HeaderIds(links, close);
  }

  lemma HeaderFocusableNodes(frame: seq<Node>, links: seq<Node>, close: Node)
    requires frame == HeaderFrame() && links == HeaderLinks() && close == CloseButton()
    ensures Seqs.Filter(frame + links + [close], IsFocusable) == links + [close]
  {
    assert Seqs.Filter(frame, IsFocusable) == [] by { FrameDropped(frame, IsFocusable); }
    assert Seqs.Filter(links, IsFocusable) == links by { LinksKept(links, IsFocusable); }
    assert Seqs.Filter([close], IsFocusable) == [close] by { CloseFiltered(close); }
    FilterParts(frame, links, [close], IsFocusable);
  }

  lemma HeaderMenuItemNodes(frame: seq<Node>, links: seq<Node>, close: Node)
    requires frame == HeaderFrame() && links == HeaderLinks() && close == CloseButton()
    ensures Seqs.Filter(frame + links + [close], IsMenuItem) == links
  {
    assert Seqs.Filter(frame, IsMenuItem) == [] by { FrameDropped(frame, IsMenuItem); }
    assert Seqs.Filter(links, IsMenuItem) == links by { LinksKept(links, IsMenuItem); }
    assert Seqs.Filter([close], IsMenuItem) == [] by { CloseFiltered(close); }
    FilterParts(frame, links, [close], IsMenuItem);
  }

  lemma RingIsIds(nodes: seq<Node>)
    ensures FocusableElements(Some(nodes)) == Ids(Seqs.Filter(nodes, IsFocusable))
    ensures MenuItems(Some(nodes)) == Ids(Seqs.Filter(nodes, IsMenuItem))
  {
  }

  lemma HeaderIds(links: seq<Node>, close: Node)
    requires links == HeaderLinks() && close == CloseButton()
    ensures Ids(links + [close]) == [1, 2, 3, 4, 5] && Ids(links) == [1, 2, 3, 4]
  {
  }

  /** The walk-through the component's own tests perform on a section laid out like the header's
      overlay, with the menu button (0) focused by the click that opens the menu: focus lands on Home,
      Shift+Tab wraps to the close button and Tab back to Home, ArrowDown then ArrowUp visit Portfolio
      and return, Escape closes and refocuses the menu button, and choosing Portfolio closes the menu
      and records the new route. */
  lemma HeaderWalkThrough(sec: seq<Node>, s0: NavState)
    requires FocusableElements(Some(sec)) == [1, 2, 3, 4, 5] && MenuItems(Some(sec)) == [1, 2, 3, 4]
    requires s0 == Initial("/", "", 0)
    ensures var s1 := Step(s0, sec, Toggle);
      s1.open && Render(s1).ariaExpanded && s1.focused == 1 && s1.overflow == "hidden" &&
      var s2 := Step(s1, sec, KeyDown(Tab, true));
      s2.focused == 5 &&
      var s3 := Step(s2, sec, KeyDown(Tab, false));
      s3.focused == 1 &&
      var s4 := Step(s3, sec, KeyDown(ArrowDown, false));
      s4.focused == 2 &&
      var s5 := Step(s4, sec, KeyDown(ArrowUp, false));
      s5.focused == 1 &&
      var s6 := Step(s5, sec, KeyDown(Escape, false));
      !s6.open && !Render(s6).dialogShown && s6.focused == 0 && s6.overflow == "" &&
      var s7 := Step(s3, sec, ItemClick("/portfolio"));
      !s7.open && s7.pathname == "/portfolio" && s7.focused == 0
  {
    var s1 := Step(s0, sec, Toggle);
    HeaderOpens(sec, s0);
    HeaderTabWraps(sec, s1);
    HeaderArrowsReturn(sec, s1);
    HeaderEscapeCloses(sec, s1);
    HeaderChoiceCloses(sec, s1);
  }

  /** The menu state once the header's overlay has opened from the menu button (0) on route "/". */
  function HeaderOpenState(): NavState
  {
    NavState(true, true, 1, Some(0), "hidden", Some(""), "/")
  }

  lemma HeaderOpens(sec: seq<Node>, s0: NavState)
    requires FocusableElements(Some(sec)) == [1, 2, 3, 4, 5]
    requires s0 == Initial("/", "", 0)
    ensures Step(s0, sec, Toggle) == HeaderOpenState()
  {
  }

  lemma HeaderTabWraps(sec: seq<Node>, s1: NavState)
    requires FocusableElements(Some(sec)) == [1, 2, 3, 4, 5]
    requires s1 == HeaderOpenState()
    ensures Step(s1, sec, KeyDown(Tab, true)) == s1.(focused := 5)
    ensures Step(s1.(focused := 5), sec, KeyDown(Tab, false)) == s1
  {
    var ring := FocusableElements(Some(sec));
    assert TabTarget(ring, 1, true) == Some(5);
    TabMovesFocus(s1, sec, true, 5);
    assert TabTarget(ring, 5, false) == Some(1);
    TabMovesFocus(s1.(focused := 5), sec, false, 1);
  }

  lemma HeaderArrowsReturn(sec: seq<Node>, s1: NavState)
    requires MenuItems(Some(sec)) == [1, 2, 3, 4]
    requires s1 == HeaderOpenState()
    ensures Step(s1, sec, KeyDown(ArrowDown, false)) == s1.(focused := 2)
    ensures Step(s1.(focused := 2), sec, KeyDown(ArrowUp, false)) == s1
  {
    HeaderArrows(MenuItems(Some(sec)));
    ArrowMovesFocus(s1, sec, true, false, 2);
    ArrowMovesFocus(s1.(focused := 2), sec, false, false, 1);
  }

  lemma HeaderEscapeCloses(sec: seq<Node>, s1: NavState)
    requires s1 == HeaderOpenState()
    ensures Step(s1, sec, KeyDown(Escape, false)) == NavState(false, false, 0, None, "", None, "/")
  {
  }

  lemma HeaderChoiceCloses(sec: seq<Node>, s1: NavState)
    requires s1 == HeaderOpenState()
    ensures Step(s1, sec, ItemClick("/portfolio")) == NavState(false, false, 0, None, "", None, "/portfolio")
  {
  }

  lemma HeaderArrows(items: seq<ElementId>)
    requires items == [1, 2, 3, 4]
    ensures ArrowTarget(items, 1, true) == Some(2) && ArrowTarget(items, 2, false) == Some(1)
  {
    assert IndexOf(items, 1) == 0;
    assert IndexOf(items, 2) == 1;
  }

  /** A Tab key press that the trap handles moves focus to the trap's target and changes nothing else. */
  lemma TabMovesFocus(s: NavState, sec: seq<Node>, shift: bool, e: ElementId)
    requires s.listening && TabTarget(FocusableElements(Some(sec)), s.focused, shift) == Some(e)
    ensures Step(s, sec, KeyDown(Tab, shift)) == s.(focused := e)
  {
  }

  /** A Tab key press that the trap does not handle (an empty ring, or focus not on the end it wraps
      from) changes nothing. */
  lemma TabIgnored(s: NavState, sec: seq<Node>, shift: bool)
    requires TabTarget(FocusableElements(Some(sec)), s.focused, shift).None?
    ensures Step(s, sec, KeyDown(Tab, shift)) == s
  {
  }

  /** An arrow key press on a menu item moves focus to the cycling target and changes nothing else;
      Shift makes no difference. */
  lemma ArrowMovesFocus(s: NavState, sec: seq<Node>, down: bool, shift: bool, e: ElementId)
    requires s.listening && ArrowTarget(MenuItems(Some(sec)), s.focused, down) == Some(e)
    ensures Step(s, sec, KeyDown(if down then ArrowDown else ArrowUp, shift)) == s.(focused := e)
  {
    var key := if down then ArrowDown else ArrowUp;
    assert Step(s, sec, KeyDown(key, shift)) == HandleKey(s, sec, key, shift);
  }

  /** An arrow key press while focus is on no menu item (or there are no items) changes nothing. */
  lemma ArrowIgnored(s: NavState, sec: seq<Node>, down: bool, shift: bool)
    requires ArrowTarget(MenuItems(Some(sec)), s.focused, down).None?
    ensures Step(s, sec, KeyDown(if down then ArrowDown else ArrowUp, shift)) == s
  {
    var key := if down then ArrowDown else ArrowUp;
    assert Step(s, sec, KeyDown(key, shift)) == HandleKey(s, sec, key, shift);
  }

  /** Any other key changes nothing. */
  lemma OtherKeyIgnored(s: NavState, sec: seq<Node>, shift: bool)
    ensures Step(s, sec, KeyDown(OtherKey, shift)) == s
  {
  }

  /** `k` ArrowDown key presses. */
  function Downs(k: nat): (r: seq<Event>)
    ensures |r| == k && forall i :: 0 <= i < k ==> r[i] == KeyDown(ArrowDown, false)
  {
    seq(k, i => KeyDown(ArrowDown, false))
  }

  /** While the listener is installed, `k` ArrowDown key presses move focus exactly as `ArrowDownTimes`
      says, and change nothing else. */
  lemma {:induction false} RunDowns(s: NavState, sec: seq<Node>, k: nat)
    requires s.listening
    ensures Run(s, sec, Downs(k)) == s.(focused := ArrowDownTimes(MenuItems(Some(sec)), s.focused, k))
    decreases k
  {
    if k > 0 {
      var items := MenuItems(Some(sec));
      assert Downs(k)[1..] == Downs(k - 1);
      var t := Step(s, sec, KeyDown(ArrowDown, false));
      assert t == HandleKey(s, sec, ArrowDown, false);
      RunDowns(t, sec, k - 1);
      match ArrowTarget(items, s.focused, true)
      case None =>
        ArrowDownTimesStuck(items, s.focused, k - 1);
      case Some(next) =>
    }
  }

  /** A full cycle over key events: with n distinct menu items and focus on one of them, n ArrowDown key
      presses leave the whole state as it was. */
  lemma ArrowDownFullCycleRun(s: NavState, sec: seq<Node>, i: nat)
    requires s.listening
    requires Distinct(MenuItems(Some(sec))) && i < |MenuItems(Some(sec))| && s.focused == MenuItems(Some(sec))[i]
    ensures Run(s, sec, Downs(|MenuItems(Some(sec))|)) == s
  {
    RunDowns(s, sec, |MenuItems(Some(sec))|);
    ArrowDownFullCycle(MenuItems(Some(sec)), i);
  }

  /** What the view binds to the state: the trigger's `aria-expanded` and label, the dialog section and
      the backdrop. */
  datatype View = View(ariaExpanded: bool, triggerLabel: string, dialogShown: bool, backdropShown: bool)

  function Render(s: NavState): (v: View)
    ensures v.ariaExpanded == s.open && v.dialogShown == s.open && v.backdropShown == s.open
    ensures v.triggerLabel == if s.open then "Close navigation" else "Open navigation"
  {
    View(s.open, if s.open then "Close navigation" else "Open navigation", s.open, s.open)
  }

  /** The controller as a mutable object, one method per event handler; every method is proved
      against `Step`, and keeps the ownership invariant `Inv`. */
  class NavController {
    const section: seq<Node>
    ghost const pageOverflow: string
    var open: bool
    var listening: bool
    var focused: ElementId
    var memento: Option<ElementId>
    var overflow: string
    var savedOverflow: Option<string>
    var pathname: string

    function State(): NavState
      reads this
    {
      NavState(open, listening, focused, memento, overflow, savedOverflow, pathname)
    }

    ghost predicate Valid()
      reads this
    {
      Inv(State(), pageOverflow)
    }

    constructor (section: seq<Node>, pathname: string, overflow: string, focused: ElementId)
      ensures this.section == section && pageOverflow == overflow
      ensures State() == Initial(pathname, overflow, focused) && Valid()
    {
      this.section := section;
      this.pageOverflow := overflow;
      this.pathname := pathname;
      this.overflow := overflow;
      this.focused := focused;
      open := false;
      listening := false;
      memento := None;
      savedOverflow := None;
    }

    method RunOpenEffects()
      modifies this
      ensures State() == Opened(old(State()), section)
    {
      open := true;
      listening := true;
      memento := Some(focused);
      var ring := FocusableElements(Some(section));
      if |ring| > 0 {
        focused := ring[0];
      }
      savedOverflow := Some(overflow);
      overflow := "hidden";
    }

    method RunCloseEffects()
      modifies this
      ensures State() == Closed(old(State()))
    {
      open := false;
      listening := false;
      if savedOverflow.Some? {
        overflow := savedOverflow.value;
      }
      savedOverflow := None;
      if memento.Some? {
        focused := memento.value;
        memento := None;
      }
    }

    /** `toggleMenu`. */
    method ToggleMenu()
      requires Valid()
      modifies this
      ensures State() == Step(old(State()), section, Toggle) && Valid()
    {
      if open {
        RunCloseEffects();
      } else {
        RunOpenEffects();
      }
    }

    /** `closeMenu`, bound to the close button and the backdrop. */
    method CloseMenu()
      requires Valid()
      modifies this
      ensures State() == Step(old(State()), section, Event.CloseMenu) && Valid()
    {
      if open {
        RunCloseEffects();
      }
    }

    /** The pathname effect. */
    method RouteChange(path: string)
      requires Valid()
      modifies this
      ensures State() == Step(old(State()), section, Event.RouteChange(path)) && Valid()
    {
      if path != pathname {
        pathname := path;
        if open {
          RunCloseEffects();
        }
      }
    }

    /** A menu link: `onItemClick` closes the menu, then the router moves to `href`. */
    method ItemClick(href: string)
      requires Valid()
      modifies this
      ensures State() == Step(old(State()), section, Event.ItemClick(href)) && Valid()
    {
      CloseMenu();
      RouteChange(href);
    }

    /** The window keydown listener (a no-op while it is not installed). */
    method KeyDown(key: Key, shift: bool)
      requires Valid()
      modifies this
      ensures State() == Step(old(State()), section, Event.KeyDown(key, shift)) && Valid()
    {
      assert Step(State(), section, Event.KeyDown(key, shift)) == HandleKey(State(), section, key, shift);
      if !listening {
        return;
      }
      match key {
        case Escape =>
          if open {
            RunCloseEffects();
          }
        case Tab =>
          var ring := FocusableElements(Some(section));
          if |ring| > 0 {
            var first, last := ring[0], ring[|ring| - 1];
            if shift {
              if focused == first {
                focused := last;
              }
            } else if focused == last {
              focused := first;
            }
          }
        case ArrowDown =>
          var target := ArrowTarget(MenuItems(Some(section)), focused, true);
          if target.Some? {
            focused := target.value;
          }
        case ArrowUp =>
          var target := ArrowTarget(MenuItems(Some(section)), focused, false);
          if target.Some? {
            focused := target.value;
          }
        case OtherKey =>
      }
    }
  }
}
