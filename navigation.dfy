/**
 * The navigation bar's scroll handlers: the `scrolled` state past a fixed
 * threshold, and the highlighting of the nav link that belongs to the page
 * section the reader has reached. Scroll offsets and element offsets are
 * whole pixels.
 */
module Navigation {
  import opened Wrappers

  /** The bar turns `scrolled` once the page is scrolled past this many pixels. */
  const ScrolledThreshold: int := 50
  /** A section counts as reached this many pixels before its top arrives. */
  const SectionLookahead: int := 200

  /** The bar and the one piece of state its scroll handler keeps. */
  class NavBar {
    var scrolled: bool
    var lastScroll: int

    constructor (initiallyScrolled: bool)
      ensures scrolled == initiallyScrolled && lastScroll == 0
    {
      scrolled := initiallyScrolled;
      lastScroll := 0;
    }

    /** The scroll handler: the `scrolled` class is present exactly when the
        page is scrolled past the threshold, whatever it was before. */
    method OnScroll(scrollY: int)
      modifies this
      ensures scrolled <==> scrollY > ScrolledThreshold
      ensures lastScroll == scrollY
    {
      if scrollY > ScrolledThreshold {
        scrolled := true;
      } else {
        scrolled := false;
      }
      lastScroll := scrollY;
    }
  }

  /** A `section` element with an `id` attribute, in document order. */
  datatype Section = Section(id: string, offsetTop: int)

  predicate Reached(s: Section, scrollY: int) {
    scrollY >= s.offsetTop - SectionLookahead
  }

  /** The position of the last reached section, or -1 when none is reached. */
  function LastReached(sections: seq<Section>, scrollY: int): (k: int)
    ensures -1 <= k < |sections|
    ensures k >= 0 ==> Reached(sections[k], scrollY)
    ensures forall j :: k < j < |sections| ==> !Reached(sections[j], scrollY)
    decreases |sections|
  {
    if sections == [] then -1
    else if Reached(sections[|sections| - 1], scrollY) then |sections| - 1
    else LastReached(sections[..|sections| - 1], scrollY)
  }

  /** The id the handler settles on: that of the last reached section. */
  function CurrentId(sections: seq<Section>, scrollY: int): string {
    var k := LastReached(sections, scrollY);
    if k < 0 then "" else sections[k].id
  }

  /** The scan of the scroll handler: it walks the sections in document
      order and keeps the id of the last one reached, or '' when none is. */
  method CurrentSection(sections: seq<Section>, scrollY: int) returns (current: string)
    ensures (forall i :: 0 <= i < |sections| ==> !Reached(sections[i], scrollY)) ==> current == ""
    ensures (exists i :: 0 <= i < |sections| && Reached(sections[i], scrollY)) ==>
      exists k :: 0 <= k < |sections| && Reached(sections[k], scrollY) && current == sections[k].id &&
        forall j :: k < j < |sections| ==> !Reached(sections[j], scrollY)
    ensures current == CurrentId(sections, scrollY)
  {
    current := "";
    var i := 0;
    while i < |sections|
      invariant 0 <= i <= |sections|
      invariant current == CurrentId(sections[..i], scrollY)
    {
      assert sections[..i + 1][..i] == sections[..i];
      if scrollY >= sections[i].offsetTop - SectionLookahead {
        current := sections[i].id;
      }
      i := i + 1;
    }
    assert sections[..i] == sections;
  }

  /** When the sections lie in document order with non-decreasing tops, the
      reached sections are exactly those up to the current one. */
  lemma {:induction false} ReachedPrefix(sections: seq<Section>, scrollY: int, j: int)
    requires forall a, b :: 0 <= a < b < |sections| ==> sections[a].offsetTop <= sections[b].offsetTop
    requires 0 <= j < |sections|
    ensures Reached(sections[j], scrollY) <==> j <= LastReached(sections, scrollY)
  {
    var k := LastReached(sections, scrollY);
    if j <= k {
      assert sections[j].offsetTop <= sections[k].offsetTop;
    }
  }

  /** Whether a link with this `href` attribute (absent: None) is marked
      active for the current section id. */
  predicate LinkMatches(href: Option<string>, current: string) {
    href == Some("#" + current)
  }

  /** The highlight loop: every link loses `active` and gets it back exactly
      when its `href` is '#' followed by the current id. The flags are
      updated in place; the hrefs do not change. */
  method HighlightLinks(hrefs: seq<Option<string>>, active: array<bool>, current: string)
    requires active.Length == |hrefs|
    modifies active
    ensures forall i :: 0 <= i < active.Length ==> (active[i] <==> LinkMatches(hrefs[i], current))
  {
    var i := 0;
    while i < active.Length
      invariant 0 <= i <= active.Length
      invariant forall j :: 0 <= j < i ==> (active[j] <==> LinkMatches(hrefs[j], current))
    {
      active[i] := false;
      if hrefs[i] == Some("#" + current) {
        active[i] := true;
      }
      i := i + 1;
    }
  }

  /** The whole active-link scroll handler. */
  method OnScrollHighlight(sections: seq<Section>, hrefs: seq<Option<string>>, active: array<bool>, scrollY: int)
    requires active.Length == |hrefs|
    modifies active
    ensures forall i :: 0 <= i < active.Length ==>
      (active[i] <==> LinkMatches(hrefs[i], CurrentId(sections, scrollY)))
  {
    var current := CurrentSection(sections, scrollY);
    HighlightLinks(hrefs, active, current);
  }

  /** With no section reached, only a link whose href is exactly '#' can be
      active. */
  lemma NothingReachedMatchesHashOnly(sections: seq<Section>, scrollY: int, href: Option<string>)
    requires forall i :: 0 <= i < |sections| ==> !Reached(sections[i], scrollY)
    ensures LinkMatches(href, CurrentId(sections, scrollY)) <==> href == Some("#")
  {
    assert CurrentId(sections, scrollY) == "";
    assert "#" + "" == "#";
  }

  /** When the links' hrefs are pairwise different, at most one link is
      active after highlighting. */
  lemma AtMostOneLinkMatches(hrefs: seq<Option<string>>, current: string, i: int, j: int)
    requires forall a, b :: 0 <= a < b < |hrefs| ==> hrefs[a] != hrefs[b]
    requires 0 <= i < |hrefs| && 0 <= j < |hrefs|
    requires LinkMatches(hrefs[i], current) && LinkMatches(hrefs[j], current)
    ensures i == j
  {
  }
}
