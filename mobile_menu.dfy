/**
 * The mobile menu: the "active" class of the hamburger trigger and of the
 * menu panel, flipped together by a click on the trigger and both cleared by
 * a link click or a click outside the two.
 */
module Menu {
  class MobileMenu {
    var toggleActive: bool
    var menuActive: bool

    /** The two flags agree, which holds from the first close or whenever the markup starts them equal. */
    predicate InLockstep()
      reads this
    {
      toggleActive == menuActive
    }

    predicate IsOpen()
      reads this
    {
      toggleActive && menuActive
    }

    constructor (toggleActive: bool, menuActive: bool)
      ensures this.toggleActive == toggleActive && this.menuActive == menuActive
    {
      this.toggleActive := toggleActive;
      this.menuActive := menuActive;
    }

    /** toggleMenu: both classes are toggled. */
    method ToggleMenu()
      modifies this
      ensures toggleActive == !old(toggleActive) && menuActive == !old(menuActive)
      ensures old(InLockstep()) ==> InLockstep() && (IsOpen() <==> !old(IsOpen()))
    {
      toggleActive := !toggleActive;
      menuActive := !menuActive;
    }

    /** closeMenu: both classes are removed; closing a closed menu changes nothing. */
    method CloseMenu()
      modifies this
      ensures !toggleActive && !menuActive
      ensures InLockstep() && !IsOpen()
      ensures !old(toggleActive) && !old(menuActive) ==> unchanged(this)
    {
      toggleActive := false;
      menuActive := false;
    }

    /** The document click listener: a click outside both the trigger and the panel closes the menu. */
    method HandleDocumentClick(insideToggle: bool, insideMenu: bool)
      modifies this
      ensures !insideToggle && !insideMenu ==> !toggleActive && !menuActive
      ensures insideToggle || insideMenu ==> unchanged(this)
    {
      if !insideToggle && !insideMenu {
        CloseMenu();
      }
    }
  }
}
