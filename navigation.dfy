/**
 * The navigation bar: the scrolled flag, the active-section tracker (a
 * first-match scan of a fixed section list against the scroll position), the
 * active-item test and the mobile-menu open/close rules. The DOM is an input:
 * the sections present on the page, by id, with their vertical boxes.
 */
module Navigation {
  import opened Wrappers

  /** The sections scanned, in order. */
  const Sections: seq<string> := ["home", "about", "skills", "timeline", "projects", "contact"]
  /** `isScrolled` holds strictly beyond this scroll offset. */
  const ScrolledThreshold: real := 50.0
  /** The scan tests `scrollY + 100`. */
  const ScanOffset: real := 100.0

  /** An element's `offsetTop` and `offsetHeight`. */
  datatype Box = Box(offsetTop: real, offsetHeight: real)

  /** The page: `document.getElementById(id)` finds an element exactly when `id` is a key. */
  type Page = map<string, Box>

  datatype NavItem = NavItem(name: string, href: string)

  const NavItems: seq<NavItem> := [
    NavItem("Home", "#home"),
    NavItem("About", "#about"),
    NavItem("Skills", "#skills"),
    NavItem("Timeline", "#timeline"),
    NavItem("Projects", "#projects"),
    NavItem("Contact", "#contact")
  ]

  /** The half-open interval `[offsetTop, offsetTop + offsetHeight)` contains `pos`. */
  predicate Contains(b: Box, pos: real)
  {
    b.offsetTop <= pos < b.offsetTop + b.offsetHeight
  }

  /** Section `s` is on the page and its box contains `pos`. */
  predicate Hit(page: Page, s: string, pos: real)
  {
    s in page && Contains(page[s], pos)
  }

  /**
   * The test is half-open: a box with height contains its top edge, no box
   * contains its bottom edge, and so of two stacked boxes at most one
   * contains any position.
   */
  lemma ContainsHalfOpen(b: Box, next: Box, pos: real)
    ensures Contains(b, b.offsetTop) <==> b.offsetHeight > 0.0
    ensures !Contains(b, b.offsetTop + b.offsetHeight)
    ensures next.offsetTop == b.offsetTop + b.offsetHeight ==> !(Contains(b, pos) && Contains(next, pos))
  {
  }

  /** The section the scan settles on: the first of `sections` that is a hit, if any. */
  function FirstMatch(sections: seq<string>, page: Page, pos: real): (r: Option<string>)
    ensures r.Some? ==> r.value in sections && Hit(page, r.value, pos)
  {
    if sections == [] then None
    else if Hit(page, sections[0], pos) then Some(sections[0])
    else FirstMatch(sections[1..], page, pos)
  }

  /** No section before index `i` is a hit. */
  predicate NoHitBefore(sections: seq<string>, page: Page, pos: real, i: int)
    requires 0 <= i <= |sections|
  {
    forall j :: 0 <= j < i ==> !Hit(page, sections[j], pos)
  }

  /**
   * The scan picks section `s` exactly when `s` is a hit at some index and
   * every section before that index is missing from the page or does not
   * contain the position: sections after the first hit never override it.
   */
  lemma {:induction false} FirstMatchIsEarliest(sections: seq<string>, page: Page, pos: real, s: string)
    ensures FirstMatch(sections, page, pos) == Some(s) <==>
      exists i :: 0 <= i < |sections| && sections[i] == s && Hit(page, s, pos) && NoHitBefore(sections, page, pos, i)
  {
    if sections != [] {
      FirstMatchIsEarliest(sections[1..], page, pos, s);
      var tail := sections[1..];
      if FirstMatch(sections, page, pos) == Some(s) {
        if Hit(page, sections[0], pos) {
          assert sections[0] == s && NoHitBefore(sections, page, pos, 0);
        } else {
          var i :| 0 <= i < |tail| && tail[i] == s && Hit(page, s, pos) && NoHitBefore(tail, page, pos, i);
          assert sections[i + 1] == s;
          assert NoHitBefore(sections, page, pos, i + 1) by {
            forall j | 0 <= j < i + 1 ensures !Hit(page, sections[j], pos) {
              if j > 0 {
                assert sections[j] == tail[j - 1];
              }
            }
          }
        }
      }
      if exists i :: 0 <= i < |sections| && sections[i] == s && Hit(page, s, pos) && NoHitBefore(sections, page, pos, i) {
        var i :| 0 <= i < |sections| && sections[i] == s && Hit(page, s, pos) && NoHitBefore(sections, page, pos, i);
        if i > 0 {
          assert !Hit(page, sections[0], pos);
          assert tail[i - 1] == s;
          assert NoHitBefore(tail, page, pos, i - 1) by {
            forall j | 0 <= j < i - 1 ensures !Hit(page, tail[j], pos) {
              assert tail[j] == sections[j + 1];
            }
          }
        }
      }
    }
  }

  /** The scan finds nothing exactly when no section is a hit: missing sections are skipped. */
  lemma {:induction false} FirstMatchNone(sections: seq<string>, page: Page, pos: real)
    ensures FirstMatch(sections, page, pos).None? <==> forall s :: s in sections ==> !Hit(page, s, pos)
  {
    if sections != [] {
      FirstMatchNone(sections[1..], page, pos);
      assert forall s :: s in sections <==> s == sections[0] || s in sections[1..];
    }
  }

  /** One step of the scan from index `i`. */
  lemma FirstMatchUnfold(sections: seq<string>, page: Page, pos: real, i: nat)
    requires i < |sections|
    ensures FirstMatch(sections[i..], page, pos) ==
      if Hit(page, sections[i], pos) then Some(sections[i]) else FirstMatch(sections[i + 1..], page, pos)
  {
    assert sections[i..][1..] == sections[i + 1..];
  }

  /** `href.slice(1)`: the string without its first character (empty stays empty). */
  function Slice1(href: string): string
  {
    if |href| >= 1 then href[1..] else ""
  }

  /** A nav item is highlighted when the active section is its `href` without the leading `#`. */
  predicate IsActive(activeSection: string, item: NavItem)
  {
    activeSection == Slice1(item.href)
  }

  /** An item linking to `#id` is highlighted exactly when `id` is the active section. */
  lemma HashLinkActive(name: string, id: string, activeSection: string)
    ensures Slice1("#" + id) == id
    ensures IsActive(activeSection, NavItem(name, "#" + id)) <==> activeSection == id
  {
    assert ("#" + id)[1..] == id;
  }

  /** The nav items are the sections, in order: each item's `href` without its `#` is the section at its index. */
  lemma NavItemsLinkSections()
    ensures |NavItems| == |Sections|
    ensures forall i :: 0 <= i < |NavItems| ==> Slice1(NavItems[i].href) == Sections[i]
  {
    forall i | 0 <= i < |NavItems| ensures Slice1(NavItems[i].href) == Sections[i] {
      assert NavItems[i].href == "#" + Sections[i];
      assert ("#" + Sections[i])[1..] == Sections[i];
    }
  }

  /** No section id occurs twice (their initials already differ). */
  lemma SectionsDistinct()
    ensures forall i, j :: 0 <= i < |Sections| && 0 <= j < |Sections| && Sections[i] == Sections[j] ==> i == j
  {
    var initials := "hastpc";
    assert forall i :: 0 <= i < |Sections| ==> Sections[i][0] == initials[i];
  }

  /** For any section the tracker can hold, exactly one nav item is highlighted: the one at its index. */
  lemma ExactlyOneActive(activeSection: string)
    requires activeSection in Sections
    ensures exists i :: 0 <= i < |NavItems| && IsActive(activeSection, NavItems[i])
    ensures forall i, j ::
      (0 <= i < |NavItems| && 0 <= j < |NavItems| &&
       IsActive(activeSection, NavItems[i]) && IsActive(activeSection, NavItems[j])) ==> i == j
  {
    NavItemsLinkSections();
    SectionsDistinct();
    var k :| 0 <= k < |Sections| && Sections[k] == activeSection;
    assert IsActive(activeSection, NavItems[k]);
  }

  class NavigationBar {
    var isScrolled: bool
    var activeSection: string
    var isMobileMenuOpen: bool

    ghost predicate Valid()
      reads this
    {
      activeSection in Sections
    }

    /** Mounting: not scrolled, `home` active, menu closed. */
    constructor ()
      ensures Valid() && !isScrolled && activeSection == "home" && !isMobileMenuOpen
    {
      isScrolled, activeSection, isMobileMenuOpen := false, "home", false;
    }

    /** The scroll-position listener: `isScrolled` becomes `latest > 50`. */
    method OnScrollChange(latest: real)
      requires Valid()
      modifies this
      ensures Valid() && (isScrolled <==> latest > ScrolledThreshold)
      ensures activeSection == old(activeSection) && isMobileMenuOpen == old(isMobileMenuOpen)
    {
      isScrolled := latest > ScrolledThreshold;
    }

    /** `handleScroll`: scan the sections in order and make the first hit active, or keep the current one. */
    method HandleScroll(scrollY: real, page: Page)
      requires Valid()
      modifies this
      ensures Valid()
      ensures activeSection == match FirstMatch(Sections, page, scrollY + ScanOffset)
                               case Some(s) => s
                               case None => old(activeSection)
      ensures isScrolled == old(isScrolled) && isMobileMenuOpen == old(isMobileMenuOpen)
    {
      var scrollPosition := scrollY + ScanOffset;
      var i := 0;
      while i < |Sections|
        invariant 0 <= i <= |Sections|
        invariant FirstMatch(Sections, page, scrollPosition) == FirstMatch(Sections[i..], page, scrollPosition)
        invariant activeSection == old(activeSection)
        invariant isScrolled == old(isScrolled) && isMobileMenuOpen == old(isMobileMenuOpen)
        decreases |Sections| - i
      {
        FirstMatchUnfold(Sections, page, scrollPosition, i);
        var section := Sections[i];
        if section in page {
          var element := page[section];
          if scrollPosition >= element.offsetTop && scrollPosition < element.offsetTop + element.offsetHeight {
            activeSection := section;
            break;
          }
        }
        i := i + 1;
      }
    }

    /**
     * `scrollToSection(href)`: when the selector finds an element, scroll
     * to it and close the mobile menu; otherwise nothing happens.
     * `scrolled` tells whether `scrollIntoView` was called.
     */
    method ScrollToSection(href: string, page: Page) returns (scrolled: bool)
      requires Valid()
      modifies this
      ensures Valid()
      ensures scrolled <==> |href| >= 1 && href[0] == '#' && href[1..] in page
      ensures scrolled ==> !isMobileMenuOpen
      ensures !scrolled ==> isMobileMenuOpen == old(isMobileMenuOpen)
      ensures isScrolled == old(isScrolled) && activeSection == old(activeSection)
    {
      scrolled := |href| >= 1 && href[0] == '#' && href[1..] in page;
      if scrolled {
        isMobileMenuOpen := false;
      }
    }

    /** The menu button: open a closed menu, close an open one. */
    method ToggleMobileMenu()
      requires Valid()
      modifies this
      ensures Valid() && isMobileMenuOpen == !old(isMobileMenuOpen)
      ensures isScrolled == old(isScrolled) && activeSection == old(activeSection)
    {
      isMobileMenuOpen := !isMobileMenuOpen;
    }

    /** A click on the overlay closes the menu. */
    method CloseMobileMenu()
      requires Valid()
      modifies this
      ensures Valid() && !isMobileMenuOpen
      ensures isScrolled == old(isScrolled) && activeSection == old(activeSection)
    {
      isMobileMenuOpen := false;
    }
  }
}
