/**
 * The mobile navigation menu: a toggle button in the header opens and
 * closes the navigation list; following a link closes it on narrow
 * viewports.
 */
module MobileMenu {
  import opened Wrappers

  datatype MenuIcon = Bars | Times

  /** The toggle button: its icon and its `aria-expanded` attribute, if set. */
  datatype Button = Button(icon: MenuIcon, ariaExpanded: Option<string>)

  /** Widest viewport, in CSS pixels, on which following a link closes the menu. */
  const Breakpoint := 768

  /** How `setAttribute` writes a boolean. */
  function AriaText(b: bool): string {
    if b then "true" else "false"
  }

  /** The button as a handler leaves it for the given open state. */
  function ButtonFor(open: bool): (b: Button)
    ensures b.ariaExpanded == Some(AriaText(open))
    ensures b.icon == Times <==> open
  {
    Button(if open then Times else Bars, Some(AriaText(open)))
  }

  class Menu {
    /** Both the header content and the navigation list exist, so the handlers are attached. */
    const listening: bool
    /** The navigation list carries the `active` class. */
    var open: bool
    /** The toggle button, once one exists. */
    var toggle: Option<Button>

    ghost predicate Valid()
      reads this
    {
      listening ==> toggle.Some?
    }

    /**
     * Setup: without header content nothing is done; otherwise a toggle is
     * created with the bars icon unless one is already there; the handlers
     * are attached only when the navigation list exists too.
     */
    constructor Setup(hasHeader: bool, hasNavList: bool, navOpen: bool, existing: Option<Button>)
      ensures Valid()
      ensures listening == (hasHeader && hasNavList)
      ensures open == navOpen
      ensures toggle == if hasHeader then Some(existing.GetOr(Button(Bars, None))) else existing
    {
      listening := hasHeader && hasNavList;
      open := navOpen;
      toggle := if hasHeader && existing.None? then Some(Button(Bars, None)) else existing;
    }

    /** A click on the toggle button. */
    method ToggleClick()
      requires Valid()
      modifies this
      ensures Valid()
      ensures listening ==> open == !old(open) && toggle == Some(ButtonFor(open))
      ensures !listening ==> open == old(open) && toggle == old(toggle)
    {
      if listening {
        open := !open;
        toggle := Some(Button(if open then Times else Bars, Some(AriaText(open))));
      }
    }

    /** A click on a navigation link with the viewport `innerWidth` pixels wide. */
    method NavLinkClick(innerWidth: int)
      requires Valid()
      modifies this
      ensures Valid()
      ensures listening && innerWidth <= Breakpoint ==> !open && toggle == Some(ButtonFor(false))
      ensures !(listening && innerWidth <= Breakpoint) ==> open == old(open) && toggle == old(toggle)
    {
      if listening && innerWidth <= Breakpoint {
        open := false;
        toggle := Some(Button(Bars, Some("false")));
      }
    }
  }

  /** Two toggle clicks leave the menu and its button as a handler last left them. */
  method TwoTogglesRestore(m: Menu)
    requires m.Valid() && m.listening
    modifies m
    ensures m.Valid()
    ensures m.open == old(m.open) && m.toggle == Some(ButtonFor(m.open))
  {
    m.ToggleClick();
    m.ToggleClick();
  }
}
