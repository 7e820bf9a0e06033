/** The mobile navigation menu. Its state is carried by three class flags:
    `menu-open` on the body, `active` on the `.navigation-links` panel and
    `active` on the `.nav-overlay`; the panel and the overlay may be missing
    from the page, in which case their flag does not exist. */
module MobileMenu {

  /** The `active` flag of an element that a lookup may not have found. */
  datatype Panel = Absent | Present(active: bool)

  datatype MenuState = MenuState(menuOpen: bool, nav: Panel, overlay: Panel)

  /** What the listeners receive. A click on the toggle or on the overlay can
      only happen when that element exists. */
  datatype MenuEvent =
    | ToggleClick
    | OverlayClick
    | KeyDown(key: string)
    | LinkClick(innerWidth: int)

  const MobileBreakpoint: int := 992

  function FlipPanel(p: Panel): Panel
  {
    match p
    case Absent => Absent
    case Present(a) => Present(!a)
  }

  function ClearPanel(p: Panel): Panel
  {
    match p
    case Absent => Absent
    case Present(_) => Present(false)
  }

  /** `toggleMenu`: toggles `menu-open`, and `active` on each element found. */
  function Toggled(s: MenuState): MenuState
  {
    MenuState(!s.menuOpen, FlipPanel(s.nav), FlipPanel(s.overlay))
  }

  /** `closeMenu`: removes `menu-open`, and `active` from each element found. */
  function Closed(s: MenuState): MenuState
  {
    MenuState(false, ClearPanel(s.nav), ClearPanel(s.overlay))
  }

  /** The effect of one event on the three flags. */
  function Step(s: MenuState, e: MenuEvent): MenuState
  {
    match e
    case ToggleClick => Toggled(s)
    case OverlayClick => if s.overlay.Present? then Closed(s) else s
    case KeyDown(key) => if key == "Escape" && s.menuOpen then Closed(s) else s
    case LinkClick(w) => if w < MobileBreakpoint then Closed(s) else s
  }

  function Run(s: MenuState, events: seq<MenuEvent>): MenuState
    decreases |events|
  {
    if events == [] then s else Run(Step(s, events[0]), events[1..])
  }

  /** The page as loaded: no flag set. */
  function Initial(hasNav: bool, hasOverlay: bool): MenuState
  {
    MenuState(false, if hasNav then Present(false) else Absent,
              if hasOverlay then Present(false) else Absent)
  }

  predicate Agrees(p: Panel, open: bool)
  {
    p.Present? ==> p.active == open
  }

  /** Every flag that exists says the same thing as `menu-open`. */
  predicate Consistent(s: MenuState)
  {
    Agrees(s.nav, s.menuOpen) && Agrees(s.overlay, s.menuOpen)
  }

  /** Toggling flips `menu-open` and every present `active` flag, and never
      creates or removes an element. */
  lemma ToggleFlipsEveryFlag(s: MenuState)
    ensures Toggled(s).menuOpen == !s.menuOpen
    ensures Toggled(s).nav.Present? == s.nav.Present?
    ensures Toggled(s).overlay.Present? == s.overlay.Present?
    ensures s.nav.Present? ==> Toggled(s).nav.active == !s.nav.active
    ensures s.overlay.Present? ==> Toggled(s).overlay.active == !s.overlay.active
  {
  }

  /** Toggling keeps the flags in agreement exactly when they agreed before:
      it neither repairs nor creates a split state. */
  lemma ToggleKeepsConsistency(s: MenuState)
    ensures Consistent(Toggled(s)) <==> Consistent(s)
  {
  }

  /** Two toggles restore the original state. */
  lemma ToggleTwiceRestores(s: MenuState)
    ensures Toggled(Toggled(s)) == s
  {
  }

  /** Closing clears every present flag, whatever the state before, and
      closing twice is the same as closing once. */
  lemma CloseClearsAll(s: MenuState)
    ensures !Closed(s).menuOpen && Consistent(Closed(s))
    ensures Closed(s).nav.Present? == s.nav.Present? && Closed(s).overlay.Present? == s.overlay.Present?
    ensures Closed(Closed(s)) == Closed(s)
  {
  }

  /** A key press changes the state only when it is Escape while the menu is
      open, and then it closes the menu. */
  lemma EscapeClosesOnlyWhenOpen(s: MenuState, key: string)
    ensures Step(s, KeyDown(key)) != s ==> key == "Escape" && s.menuOpen
    ensures key == "Escape" && s.menuOpen ==> Step(s, KeyDown(key)) == Closed(s)
  {
  }

  /** A navigation-link click closes the menu below the 992 px breakpoint and
      does nothing at or above it. */
  lemma LinkClickClosesOnlyWhenNarrow(s: MenuState, width: int)
    ensures width < MobileBreakpoint ==> Step(s, LinkClick(width)) == Closed(s)
    ensures width >= MobileBreakpoint ==> Step(s, LinkClick(width)) == s
  {
  }

  lemma StepKeepsConsistency(s: MenuState, e: MenuEvent)
    requires Consistent(s)
    ensures Consistent(Step(s, e))
  {
  }

  /** From a state where the flags agree, no sequence of events ever leaves
      them disagreeing: the three reflections of the menu state move together. */
  lemma {:induction false} RunKeepsConsistency(s: MenuState, events: seq<MenuEvent>)
    requires Consistent(s)
    ensures Consistent(Run(s, events))
    decreases |events|
  {
    if events != [] {
      StepKeepsConsistency(s, events[0]);
      RunKeepsConsistency(Step(s, events[0]), events[1..]);
    }
  }

  /** On a narrow viewport, opening the menu with the toggle and then
      following a navigation link leaves the page as it was loaded. */
  lemma NarrowToggleThenLinkCloses(hasNav: bool, hasOverlay: bool, width: int)
    requires width < MobileBreakpoint
    ensures Step(Initial(hasNav, hasOverlay), ToggleClick).menuOpen
    ensures Run(Initial(hasNav, hasOverlay), [ToggleClick, LinkClick(width)]) == Initial(hasNav, hasOverlay)
  {
    var s0, evs := Initial(hasNav, hasOverlay), [ToggleClick, LinkClick(width)];
    var s1 := Step(s0, ToggleClick);
    assert evs[0] == ToggleClick && evs[1..] == [LinkClick(width)];
    assert Run(s0, evs) == Run(s1, [LinkClick(width)]);
    assert [LinkClick(width)][1..] == [];
    assert Run(s1, [LinkClick(width)]) == Step(s1, LinkClick(width));
  }

  /** The DOM side: the three class lists the handlers update in place. */
  class MenuController {
    /** Whether `.navigation-links` and `.nav-overlay` were found. */
    const hasNav: bool
    const hasOverlay: bool
    /** `menu-open` on the body, `active` on the panel and on the overlay. */
    var bodyMenuOpen: bool
    var navActive: bool
    var overlayActive: bool

    function State(): MenuState
      reads this
    {
      MenuState(bodyMenuOpen,
                if hasNav then Present(navActive) else Absent,
                if hasOverlay then Present(overlayActive) else Absent)
    }

    /** `initMobileMenu` on a page that has no flag set yet. */
    constructor (hasNav: bool, hasOverlay: bool)
      ensures State() == Initial(hasNav, hasOverlay)
    {
      this.hasNav := hasNav;
      this.hasOverlay := hasOverlay;
      bodyMenuOpen, navActive, overlayActive := false, false, false;
    }

    method ToggleMenu()
      modifies this
      ensures State() == Toggled(old(State()))
    {
      bodyMenuOpen := !bodyMenuOpen;
      if hasNav {
        navActive := !navActive;
      }
      if hasOverlay {
        overlayActive := !overlayActive;
      }
    }

    method CloseMenu()
      modifies this
      ensures State() == Closed(old(State()))
    {
      bodyMenuOpen := false;
      if hasNav {
        navActive := false;
      }
      if hasOverlay {
        overlayActive := false;
      }
    }

    /** The click listener of `.mobile-toggle`. */
    method OnToggleClick()
      modifies this
      ensures State() == Step(old(State()), ToggleClick)
    {
      ToggleMenu();
    }

    /** The click listener of `.nav-overlay`, registered only when it exists. */
    method OnOverlayClick()
      modifies this
      ensures State() == Step(old(State()), OverlayClick)
    {
      if hasOverlay {
        CloseMenu();
      }
    }

    /** The document's `keydown` listener. */
    method OnKeyDown(key: string)
      modifies this
      ensures State() == Step(old(State()), KeyDown(key))
    {
      if key == "Escape" && bodyMenuOpen {
        CloseMenu();
      }
    }

    /** The click listener of every `.navigation-links li a`. */
    method OnLinkClick(innerWidth: int)
      modifies this
      ensures State() == Step(old(State()), LinkClick(innerWidth))
    {
      if innerWidth < MobileBreakpoint {
        CloseMenu();
      }
    }
  }
}
