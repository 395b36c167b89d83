/** `BurgerMenu`: the collapsible navigation panel. Its `isOpen` flag is kept
    in step with the panel's `show` class, the toggler's `aria-expanded`
    attribute and the body's `u-no-scroll` class; opening also caps the
    panel's height. Four outside triggers close it, each only while open. */
module Menu {

  /** The sizes `open` reads: the panel's `scrollHeight`, the window's
      `innerHeight` and the header's `offsetHeight`. */
  datatype Layout = Layout(scrollHeight: int, innerHeight: int, headerHeight: int)

  /** The panel's inline `max-height`: never set, or a length in pixels
      (`close` writes '0', the same length as 0px). */
  datatype MaxHeight = Unset | Px(px: int)

  /** Which listener-bearing element a click lands on. */
  datatype TargetKind = OnToggler | OnNavLink | Elsewhere

  /** A click's target: which element it is and whether the header contains it. */
  datatype ClickTarget = ClickTarget(kind: TargetKind, insideHeader: bool)

  const HeightMargin: int := 20
  const DesktopWidth: int := 768

  /** The height `open` gives the panel: its content height, but no more than
      the window height below the header less a 20-pixel margin. */
  function OpenHeight(l: Layout): (h: int)
    ensures h <= l.scrollHeight && h <= l.innerHeight - l.headerHeight - HeightMargin
    ensures h == l.scrollHeight || h == l.innerHeight - l.headerHeight - HeightMargin
  {
    if l.scrollHeight <= l.innerHeight - l.headerHeight - HeightMargin then l.scrollHeight
    else l.innerHeight - l.headerHeight - HeightMargin
  }

  /** The panel's max-height after `open` writes `${px}px` to it: CSS
      refuses a negative length, so such a write is dropped and the panel
      keeps the value it had. */
  function WriteMaxHeight(current: MaxHeight, px: int): (m: MaxHeight)
    ensures m == Px(px) <==> px >= 0 || current == Px(px)
    ensures m != Px(px) ==> m == current
  {
    if px >= 0 then Px(px) else current
  }

  /** Whether the menu is open after a click that starts with the menu
      `open`: first the target's own listener (the toggler toggles, a
      navigation link closes an open menu), then the document's listener,
      which closes an open menu when the click lands outside the header. */
  function OpenAfterClick(open: bool, t: ClickTarget, hasHeader: bool): (r: bool)
    ensures r ==> hasHeader ==> t.insideHeader
    ensures r ==> t.kind != OnNavLink
  {
    var afterTarget := match t.kind
      case OnToggler => !open
      case OnNavLink => false
      case Elsewhere => open;
    afterTarget && !(hasHeader && !t.insideHeader)
  }

  class BurgerMenu {
    /** Whether `header` was found. */
    const hasHeader: bool
    /** Whether both the toggler and the collapsible panel were found, so
        that the listeners were attached. */
    const wired: bool
    var isOpen: bool
    /** The panel has class `show`. */
    var shown: bool
    /** The toggler's `aria-expanded` attribute. */
    var ariaExpanded: string
    /** The body has class `u-no-scroll`. */
    var noScroll: bool
    var maxHeight: MaxHeight

    /** The flag, the class, the attribute and the scroll lock agree. */
    ghost predicate Synced()
      reads this
    {
      && shown == isOpen
      && ariaExpanded == (if isOpen then "true" else "false")
      && noScroll == isOpen
    }

    /** The invariant every handler keeps: an open menu is in sync. A closed
        menu may still show the markup the page was loaded with, until the
        first `close` or `open` brings it in line. */
    ghost predicate Valid()
      reads this
    {
      isOpen ==> Synced()
    }

    /** The page is loaded with the panel's markup as it stands and the menu
        flag false. */
    constructor (hasHeader: bool, hasToggler: bool, hasCollapse: bool,
                 shown: bool, ariaExpanded: string, noScroll: bool, maxHeight: MaxHeight)
      ensures Valid()
      ensures this.hasHeader == hasHeader && wired == (hasToggler && hasCollapse)
      ensures !isOpen && this.shown == shown && this.ariaExpanded == ariaExpanded
      ensures this.noScroll == noScroll && this.maxHeight == maxHeight
    {
      this.hasHeader := hasHeader;
      wired := hasToggler && hasCollapse;
      isOpen := false;
      this.shown := shown;
      this.ariaExpanded := ariaExpanded;
      this.noScroll := noScroll;
      this.maxHeight := maxHeight;
    }

    /** `open`. Without a header, reading its height throws after the flag,
        the class, the attribute and the lock are set: `completed` is false
        and the height is left as it was. A window too short for the header
        plus the margin gives a negative height, which the browser drops. */
    method Open(l: Layout) returns (completed: bool)
      requires wired
      modifies this
      ensures isOpen && Synced()
      ensures completed == hasHeader
      ensures maxHeight == if hasHeader then WriteMaxHeight(old(maxHeight), OpenHeight(l)) else old(maxHeight)
    {
      isOpen := true;
      shown := true;
      ariaExpanded := "true";
      noScroll := true;
      if !hasHeader {
        return false;
      }
      var h := OpenHeight(l);
      if h >= 0 {
        maxHeight := Px(h);
      }
      completed := true;
    }

    /** `close`: reset everything `open` set. */
    method Close()
      requires wired
      modifies this
      ensures !isOpen && Synced()
      ensures maxHeight == Px(0)
    {
      isOpen := false;
      shown := false;
      ariaExpanded := "false";
      noScroll := false;
      maxHeight := Px(0);
    }

    /** `toggle`: close when open, open when closed. */
    method Toggle(l: Layout)
      requires wired
      modifies this
      ensures isOpen == !old(isOpen) && Synced()
      ensures maxHeight == if old(isOpen) then Px(0)
                           else if hasHeader then WriteMaxHeight(old(maxHeight), OpenHeight(l))
                           else old(maxHeight)
    {
      if isOpen {
        Close();
      } else {
        var _ := Open(l);
      }
    }

    /** A click anywhere: the target's listener runs, then the document's.
        Whenever one of them calls `open` or `close`, the menu ends in sync;
        its height is the capped height if the click left it freshly open,
        0 if it ran `close` last, and otherwise untouched. */
    method Click(t: ClickTarget, l: Layout)
      requires Valid()
      modifies this
      ensures Valid()
      ensures isOpen == if wired then OpenAfterClick(old(isOpen), t, hasHeader) else old(isOpen)
      ensures !wired ==> unchanged(this)
      ensures wired && (t.kind == OnToggler || old(isOpen)) ==> Synced()
      ensures wired && !old(isOpen) && t.kind != OnToggler ==> unchanged(this)
      ensures wired && old(isOpen) && isOpen ==> unchanged(this)
      ensures wired && !old(isOpen) && isOpen ==>
        maxHeight == if hasHeader then WriteMaxHeight(old(maxHeight), OpenHeight(l)) else old(maxHeight)
      ensures wired && !isOpen && (old(isOpen) || t.kind == OnToggler) ==> maxHeight == Px(0)
    {
      if !wired {
        return;
      }
      if t.kind == OnToggler {
        Toggle(l);
      } else if t.kind == OnNavLink && isOpen {
        Close();
      }
      if isOpen && hasHeader && !t.insideHeader {
        Close();
      }
    }

    /** The document's `keydown` listener: Escape closes an open menu. */
    method KeyDown(key: string)
      requires Valid()
      modifies this
      ensures Valid()
      ensures wired && key == "Escape" && old(isOpen) ==> !isOpen && Synced() && maxHeight == Px(0)
      ensures !(wired && key == "Escape" && old(isOpen)) ==> unchanged(this)
    {
      if wired && key == "Escape" && isOpen {
        Close();
      }
    }

    /** The window's `resize` listener once the 250 ms debounce has settled:
        a width of 768 pixels or more closes an open menu. */
    method Resize(innerWidth: int)
      requires Valid()
      modifies this
      ensures Valid()
      ensures wired && innerWidth >= DesktopWidth && old(isOpen) ==> !isOpen && Synced() && maxHeight == Px(0)
      ensures !(wired && innerWidth >= DesktopWidth && old(isOpen)) ==> unchanged(this)
    {
      if wired && innerWidth >= DesktopWidth && isOpen {
        Close();
      }
    }
  }

  /** A toggler inside the header opens a closed menu and closes an open one. */
  lemma TogglerInsideHeaderFlips(open: bool, hasHeader: bool)
    ensures OpenAfterClick(open, ClickTarget(OnToggler, true), hasHeader) == !open
  {
  }

  /** A toggler outside the header can never leave the menu open: the
      document listener closes at once what the toggler just opened. */
  lemma TogglerOutsideHeaderNeverOpens(open: bool)
    ensures !OpenAfterClick(open, ClickTarget(OnToggler, false), true)
  {
  }

  /** Opening, then widening the window to the desktop breakpoint, closes
      the menu; a narrower window leaves it open. */
  method OpenThenResize(m: BurgerMenu, l: Layout, width: int)
    requires m.wired
    modifies m
    ensures m.Synced()
    ensures m.isOpen <==> width < DesktopWidth
  {
    var _ := m.Open(l);
    m.Resize(width);
  }
}
