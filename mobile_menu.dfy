/**
 * The mobile menu: the burger button and the link panel each carry an
 * `active` class, and the page body's `overflow` style locks scrolling while
 * the menu is open.
 */
module MobileMenu {
  const Hidden: string := "hidden"

  class Menu {
    var burgerActive: bool
    var linksActive: bool
    var bodyOverflow: string

    /** The two flags agree and the body is locked exactly while the menu
        is open. */
    ghost predicate InSync()
      reads this
    {
      burgerActive == linksActive &&
      bodyOverflow == (if linksActive then Hidden else "")
    }

    /** The page as loaded: the two classes and the body style are whatever
        the markup gives them; the script does not set them. */
    constructor (burgerActive: bool, linksActive: bool, bodyOverflow: string)
      ensures this.burgerActive == burgerActive && this.linksActive == linksActive
      ensures this.bodyOverflow == bodyOverflow
      ensures !burgerActive && !linksActive && bodyOverflow == "" ==> InSync()
    {
      this.burgerActive := burgerActive;
      this.linksActive := linksActive;
      this.bodyOverflow := bodyOverflow;
    }

    /** A click on the burger toggles both classes; the body is then locked
        exactly when the link panel is open. Started in sync, it stays in sync. */
    method OnBurgerClick()
      modifies this
      ensures burgerActive == !old(burgerActive) && linksActive == !old(linksActive)
      ensures bodyOverflow == (if linksActive then Hidden else "")
      ensures old(InSync()) ==> InSync()
    {
      burgerActive := !burgerActive;
      linksActive := !linksActive;
      bodyOverflow := if linksActive then Hidden else "";
    }

    /** A click on any nav link closes the menu from whatever state it was
        in; a second click changes nothing. */
    method OnLinkClick()
      modifies this
      ensures !burgerActive && !linksActive && bodyOverflow == ""
      ensures InSync()
    {
      burgerActive := false;
      linksActive := false;
      bodyOverflow := "";
    }
  }

  /** Two burger clicks restore both flags and, from an in-sync menu, the
      body style too. */
  method DoubleBurgerClick(m: Menu)
    modifies m
    ensures m.burgerActive == old(m.burgerActive) && m.linksActive == old(m.linksActive)
    ensures old(m.InSync()) ==> m.bodyOverflow == old(m.bodyOverflow)
  {
    m.OnBurgerClick();
    m.OnBurgerClick();
  }
}
