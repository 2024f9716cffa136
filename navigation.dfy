/**
 * The site's hamburger menu (`Navigation`): the open/closed flag, the
 * clicks that toggle or close it, and the keyboard handler that moves focus
 * among the menu items while the menu is open.
 */
module Navigation {
  import opened Modular

  /** One entry of the menu. */
  datatype Link = Link(name: string, href: string, description: string)

  /** The four entries, in the order they are rendered. */
  const MenuLinks: seq<Link> := [
    Link("Home", "/", "Return to homepage"),
    Link("Projects", "/projects", "View all projects"),
    Link("About", "/about", "Learn about TALAAT STUDIO"),
    Link("Contact", "/contact", "Get in touch with us")
  ]

  /** The number of rendered `menuitem` links. */
  const ItemCount: nat := |MenuLinks|

  /** The keys the handler tells apart; every other key is `OtherKey`. */
  datatype Key = Escape | ArrowDown | ArrowUp | Home | End | OtherKey

  /** Where the document's focus is, as far as the menu is concerned. */
  datatype Focus = Elsewhere | ToggleButton | MenuItem(index: nat)

  /** Where a mousedown lands. */
  datatype Target = InsideMenu | OnButton | Outside

  /** The component's state: `isMenuOpen` and the focused element. */
  datatype MenuState = MenuState(open: bool, focus: Focus)

  /** Only an open menu has its items rendered, so only then can one of them hold focus. */
  predicate Consistent(s: MenuState)
  {
    s.focus.MenuItem? ==> s.open && s.focus.index < ItemCount
  }

  /** The `findIndex` of the focused element among the `count` rendered items, or -1. */
  function CurrentIndex(focus: Focus, count: nat): (i: int)
    ensures -1 <= i < count
    ensures i >= 0 <==> focus.MenuItem? && focus.index < count
    ensures i >= 0 ==> i == focus.index
  {
    if focus.MenuItem? && focus.index < count then focus.index else -1
  }

  /** The item ArrowDown moves to: the next one, or the first after the last (or from nowhere). */
  function ArrowDownTarget(cur: int, count: nat): (t: nat)
    requires count > 0 && -1 <= cur < count
    ensures t < count
  {
    if cur < count - 1 then cur + 1 else 0
  }

  /** The item ArrowUp moves to: the previous one, or the last from the first (or from nowhere). */
  function ArrowUpTarget(cur: int, count: nat): (t: nat)
    requires count > 0 && -1 <= cur < count
    ensures t < count
  {
    if cur > 0 then cur - 1 else count - 1
  }

  /** From a focused item the arrows step around the items as a ring. */
  lemma ArrowsWrapAround(cur: nat, count: nat)
    requires cur < count
    ensures ArrowDownTarget(cur, count) == (cur + 1) % count
    ensures ArrowUpTarget(cur, count) == (cur + count - 1) % count
  {
    if cur + 1 < count {
      ModUnique(cur + 1, count, 0, cur + 1);
    } else {
      ModUnique(cur + 1, count, 1, 0);
    }
    if cur > 0 {
      ModUnique(cur + count - 1, count, 1, cur - 1);
    } else {
      ModUnique(cur + count - 1, count, 0, count - 1);
    }
  }

  /**
   * With no item focused, ArrowDown goes to the first item and ArrowUp to the
   * last, which is not where the ring formula of `ArrowsWrapAround` would put
   * an index of -1.
   */
  lemma ArrowsFromNowhere(count: nat)
    requires count > 0
    ensures ArrowDownTarget(-1, count) == 0
    ensures ArrowUpTarget(-1, count) == count - 1
    ensures count > 1 ==> ArrowUpTarget(-1, count) != (-1 + count - 1) % count
  {
    if count > 1 {
      ModUnique(count - 2, count, 0, count - 2);
    }
  }

  /** The state after one keydown. */
  function KeyStep(s: MenuState, key: Key): (t: MenuState)
    ensures !s.open ==> t == s
    ensures t.open <==> s.open && key != Escape
    ensures s.open && key == Escape ==> t.focus == ToggleButton
    ensures s.open && key in {ArrowDown, ArrowUp, Home, End} ==> t.focus.MenuItem? && t.focus.index < ItemCount
    ensures s.open && key == Home ==> t == MenuState(true, MenuItem(0))
    ensures s.open && key == End ==> t == MenuState(true, MenuItem(ItemCount - 1))
    ensures key == OtherKey ==> t == s
    ensures Consistent(s) ==> Consistent(t)
  {
    if !s.open then s
    else
      match key
      case Escape => MenuState(false, ToggleButton)
      case ArrowDown => MenuState(true, MenuItem(ArrowDownTarget(CurrentIndex(s.focus, ItemCount), ItemCount)))
      case ArrowUp => MenuState(true, MenuItem(ArrowUpTarget(CurrentIndex(s.focus, ItemCount), ItemCount)))
      case Home => MenuState(true, MenuItem(0))
      case End => MenuState(true, MenuItem(ItemCount - 1))
      case OtherKey => s
  }

  /** The state after a sequence of keydowns, the last one last. */
  function KeySteps(s: MenuState, keys: seq<Key>): MenuState
  {
    if keys == [] then s else KeyStep(KeySteps(s, keys[..|keys| - 1]), keys[|keys| - 1])
  }

  /** A closed menu ignores every sequence of keys. */
  lemma {:induction false} ClosedIgnoresKeys(s: MenuState, keys: seq<Key>)
    requires !s.open
    ensures KeySteps(s, keys) == s
  {
    if keys != [] {
      ClosedIgnoresKeys(s, keys[..|keys| - 1]);
    }
  }

  /** `k` ArrowDown presses in a row. */
  function Downs(k: nat): (keys: seq<Key>)
    ensures |keys| == k && forall i :: 0 <= i < k ==> keys[i] == ArrowDown
  {
    if k == 0 then [] else Downs(k - 1) + [ArrowDown]
  }

  /** Applying one more key after a sequence of keys. */
  lemma KeyStepsSnoc(s: MenuState, keys: seq<Key>, key: Key)
    ensures KeySteps(s, keys + [key]) == KeyStep(KeySteps(s, keys), key)
  {
    assert (keys + [key])[..|keys|] == keys;
  }

  /** The item reached from item `i` by `k` steps of ArrowDown's target. */
  function DownSteps(i: nat, k: nat): (j: nat)
    requires i < ItemCount
    ensures j < ItemCount
  {
    if k == 0 then i else ArrowDownTarget(DownSteps(i, k - 1), ItemCount)
  }

  /** `k` steps of ArrowDown's target from item `i` land on item `(i + k) % ItemCount`. */
  lemma {:induction false} DownStepsModular(i: nat, k: nat)
    requires i < ItemCount
    ensures DownSteps(i, k) == (i + k) % ItemCount
  {
    if k == 0 {
      ModUnique(i, ItemCount, 0, i);
    } else {
      DownStepsModular(i, k - 1);
      ArrowsWrapAround(DownSteps(i, k - 1), ItemCount);
      ModSucc(i + k - 1, ItemCount);
    }
  }

  /** Pressing ArrowDown `k` times from item `i` of the open menu focuses item `DownSteps(i, k)`. */
  lemma {:induction false} DownsFollowSteps(s: MenuState, k: nat)
    requires s.open && s.focus.MenuItem? && s.focus.index < ItemCount
    ensures KeySteps(s, Downs(k)) == MenuState(true, MenuItem(DownSteps(s.focus.index, k)))
  {
    if k > 0 {
      DownsFollowSteps(s, k - 1);
      assert Downs(k) == Downs(k - 1) + [ArrowDown];
      KeyStepsSnoc(s, Downs(k - 1), ArrowDown);
      assert CurrentIndex(MenuItem(DownSteps(s.focus.index, k - 1)), ItemCount) == DownSteps(s.focus.index, k - 1);
    }
  }

  /** Going once round the menu with ArrowDown comes back to the item it started from. */
  lemma DownRoundTrip(s: MenuState)
    requires s.open && s.focus.MenuItem? && s.focus.index < ItemCount
    ensures KeySteps(s, Downs(ItemCount)) == s
  {
    var i := s.focus.index;
    DownsFollowSteps(s, ItemCount);
    DownStepsModular(i, ItemCount);
    ModUnique(i + ItemCount, ItemCount, 1, i);
    assert DownSteps(i, ItemCount) == i;
  }

  /** ArrowUp undoes ArrowDown and ArrowDown undoes ArrowUp on a focused item of the open menu. */
  lemma ArrowsUndoEachOther(s: MenuState)
    requires s.open && s.focus.MenuItem? && s.focus.index < ItemCount
    ensures KeyStep(KeyStep(s, ArrowDown), ArrowUp) == s
    ensures KeyStep(KeyStep(s, ArrowUp), ArrowDown) == s
  {
    var i := s.focus.index;
    assert CurrentIndex(s.focus, ItemCount) == i;
    var down := ArrowDownTarget(i, ItemCount);
    assert CurrentIndex(MenuItem(down), ItemCount) == down;
    var up := ArrowUpTarget(i, ItemCount);
    assert CurrentIndex(MenuItem(up), ItemCount) == up;
  }

  /** A toggle-button click: the flag flips, and the items (and any focus on them) go away when it closes. */
  function Toggle(s: MenuState): (t: MenuState)
    ensures t.open == !s.open
    ensures t.focus == s.focus || (s.focus.MenuItem? && t.focus == Elsewhere)
    ensures Consistent(s) ==> Consistent(t)
  {
    if s.open then Close(s) else MenuState(true, s.focus)
  }

  /** Closing the menu (an item click, an overlay click, a mousedown outside). */
  function Close(s: MenuState): (t: MenuState)
    ensures !t.open
    ensures t.focus == (if s.focus.MenuItem? then Elsewhere else s.focus)
    ensures Consistent(t)
  {
    MenuState(false, if s.focus.MenuItem? then Elsewhere else s.focus)
  }

  /** A mousedown closes the menu exactly when it is open and the press is outside both the menu and the button. */
  function MouseDown(s: MenuState, target: Target): (t: MenuState)
    ensures t.open <==> s.open && target != Outside
    ensures !(s.open && target == Outside) ==> t == s
    ensures Consistent(s) ==> Consistent(t)
  {
    if s.open && target == Outside then Close(s) else s
  }

  /** A full click on the button (mousedown, then click) flips the menu; one on the overlay leaves it closed. */
  lemma ClickSequences(s: MenuState)
    requires Consistent(s)
    ensures Toggle(MouseDown(s, OnButton)).open == !s.open
    ensures s.open ==> !Close(MouseDown(s, Outside)).open
    ensures Close(MouseDown(s, Outside)) == Close(s)
  {
  }

  /** The component: `isMenuOpen` and the focused element. */
  class Menu {
    var isMenuOpen: bool
    var focus: Focus

    /** The state as a value. */
    function State(): (s: MenuState)
      reads this
      ensures s.open == isMenuOpen && s.focus == focus
    {
      MenuState(isMenuOpen, focus)
    }

    /** The menu starts closed, with focus elsewhere on the page. */
    constructor()
      ensures !isMenuOpen && focus == Elsewhere
      ensures Consistent(State())
    {
      isMenuOpen := false;
      focus := Elsewhere;
    }

    /** The toggle button's `onClick`. */
    method ToggleClick()
      modifies this
      ensures State() == Toggle(old(State()))
    {
      isMenuOpen := !isMenuOpen;
      if !isMenuOpen && focus.MenuItem? {
        focus := Elsewhere;
      }
    }

    /** A menu item's or the overlay's `onClick`. */
    method CloseClick()
      modifies this
      ensures State() == Close(old(State()))
    {
      isMenuOpen := false;
      if focus.MenuItem? {
        focus := Elsewhere;
      }
    }

    /** The document's `mousedown` listener. */
    method HandleMouseDown(target: Target)
      modifies this
      ensures State() == MouseDown(old(State()), target)
    {
      if isMenuOpen && target != InsideMenu && target != OnButton {
        CloseClick();
      }
    }

    /** The document's `keydown` listener. */
    method HandleKeyDown(key: Key)
      modifies this
      ensures State() == KeyStep(old(State()), key)
    {
      if !isMenuOpen {
        return;
      }
      if key == Escape {
        isMenuOpen := false;
        focus := ToggleButton;
        return;
      }
      if key == ArrowDown || key == ArrowUp {
        var count := ItemCount;
        var currentIndex := CurrentIndex(focus, count);
        var nextIndex: nat;
        if key == ArrowDown {
          nextIndex := if currentIndex < count - 1 then currentIndex + 1 else 0;
        } else {
          nextIndex := if currentIndex > 0 then currentIndex - 1 else count - 1;
        }
        focus := MenuItem(nextIndex);
      }
      if key == Home || key == End {
        var targetIndex := if key == Home then 0 else ItemCount - 1;
        focus := MenuItem(targetIndex);
      }
    }
  }
}
