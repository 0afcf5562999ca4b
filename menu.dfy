/** The mobile navigation menu: the `active` class on the hamburger button, the menu and
    the overlay, mirrored into `aria-expanded` and `aria-label` of the button,
    `aria-hidden` of the overlay and the page's `overflow` style. */
module Menu {
  const OpenLabel := "Apri menu"
  const CloseLabel := "Chiudi menu"

  class MobileMenu {
    var buttonActive: bool
    var menuActive: bool
    var overlayActive: bool
    var ariaExpanded: bool
    var ariaLabel: string
    var overlayAriaHidden: bool
    var bodyOverflow: string
    var buttonFocused: bool

    /** Everything agrees with the button's `active` class. */
    ghost predicate Consistent()
      reads this
    {
      && menuActive == buttonActive && overlayActive == buttonActive
      && ariaExpanded == buttonActive
      && ariaLabel == (if buttonActive then CloseLabel else OpenLabel)
      && overlayAriaHidden == !buttonActive
      && bodyOverflow == (if buttonActive then "hidden" else "")
    }

    /** The closed menu of a freshly loaded page. */
    constructor ()
      ensures Consistent() && !buttonActive && !buttonFocused
    {
      buttonActive, menuActive, overlayActive := false, false, false;
      ariaExpanded, ariaLabel, overlayAriaHidden := false, OpenLabel, true;
      bodyOverflow := "";
      buttonFocused := false;
    }

    /** `toggleMenu`: flips each `active` class and writes the attributes and the overflow
        style from the button's new state. */
    method Toggle()
      modifies this
      ensures buttonActive == !old(buttonActive)
      ensures menuActive == !old(menuActive) && overlayActive == !old(overlayActive)
      ensures ariaExpanded == buttonActive && overlayAriaHidden == !buttonActive
      ensures ariaLabel == (if buttonActive then CloseLabel else OpenLabel)
      ensures bodyOverflow == (if buttonActive then "hidden" else "")
      ensures buttonFocused == old(buttonFocused)
      ensures old(Consistent()) ==> Consistent()
    {
      buttonActive := !buttonActive;
      menuActive := !menuActive;
      overlayActive := !overlayActive;
      ariaExpanded := buttonActive;
      ariaLabel := if buttonActive then CloseLabel else OpenLabel;
      overlayAriaHidden := !buttonActive;
      bodyOverflow := if buttonActive then "hidden" else "";
    }

    /** Two toggles from a consistent state restore every class, attribute and style. */
    method ToggleTwice()
      requires Consistent()
      modifies this
      ensures Consistent()
      ensures buttonActive == old(buttonActive) && menuActive == old(menuActive)
      ensures overlayActive == old(overlayActive) && ariaExpanded == old(ariaExpanded)
      ensures ariaLabel == old(ariaLabel) && overlayAriaHidden == old(overlayAriaHidden)
      ensures bodyOverflow == old(bodyOverflow) && buttonFocused == old(buttonFocused)
    {
      Toggle();
      Toggle();
    }

    /** A click on a menu link closes an open menu and leaves a closed one alone. */
    method OnLinkClick()
      requires Consistent()
      modifies this
      ensures Consistent() && !menuActive
      ensures buttonFocused == old(buttonFocused)
      ensures !old(menuActive) ==> unchanged(this)
    {
      if menuActive {
        Toggle();
      }
    }

    /** Escape closes an open menu and moves focus to the hamburger button; any other key,
        or Escape on a closed menu, does nothing. */
    method OnKeydown(key: string)
      requires Consistent()
      modifies this
      ensures Consistent()
      ensures key == "Escape" ==> !menuActive
      ensures key == "Escape" && old(menuActive) ==> buttonFocused
      ensures !(key == "Escape" && old(menuActive)) ==> unchanged(this)
    {
      if key == "Escape" && menuActive {
        Toggle();
        buttonFocused := true;
      }
    }
  }
}
