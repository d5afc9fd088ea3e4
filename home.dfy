/**
 * The page shell's scroll-spy: which navigation entry is highlighted.
 * The DOM is a map from element id to `offsetTop`; an id with no entry has
 * no element on the page. Scroll positions are whole pixels.
 */
module Home {

  import opened Wrappers

  /** The sections scanned, top of the page first (home.tsx, 19-25). */
  const Sections: seq<string> := ["home", "skills", "portfolio", "process", "contact"]

  /** The scroll position is taken this far below the window's top (home.tsx, 18). */
  const ScrollLookahead: int := 100

  /** A jump leaves this much room for the navigation bar (home.tsx, 49). */
  const NavHeight: int := 70

  /** Section `i` exists and its top has been reached by `position`. */
  predicate Reached(sections: seq<string>, dom: map<string, int>, position: int, i: nat)
    requires i < |sections|
  {
    sections[i] in dom && position >= dom[sections[i]]
  }

  /** The largest index below `n` whose section has been reached, if any. */
  function LastReachedBelow(sections: seq<string>, dom: map<string, int>, position: int, n: nat): (r: Option<nat>)
    requires n <= |sections|
    ensures r.Some? ==> r.value < n && Reached(sections, dom, position, r.value)
    ensures r.Some? ==> forall j :: r.value < j < n ==> !Reached(sections, dom, position, j)
    ensures r.None? ==> forall j :: 0 <= j < n ==> !Reached(sections, dom, position, j)
    decreases n
  {
    if n == 0 then None
    else if Reached(sections, dom, position, n - 1) then Some(n - 1)
    else LastReachedBelow(sections, dom, position, n - 1)
  }

  /** The section the scroll-spy picks: the last one, in page order, that
      exists and whose top is at or above `position`. */
  function ActiveIndex(sections: seq<string>, dom: map<string, int>, position: int): (r: Option<nat>)
    ensures r.Some? ==> r.value < |sections| && Reached(sections, dom, position, r.value)
    ensures r.Some? ==> forall j :: r.value < j < |sections| ==> !Reached(sections, dom, position, j)
    ensures r.None? <==> forall j :: 0 <= j < |sections| ==> !Reached(sections, dom, position, j)
  {
    LastReachedBelow(sections, dom, position, |sections|)
  }

  /** The countdown loop of `handleScroll` (home.tsx, 27-36): from the last
      section to the first, skip a missing element, stop at the first whose
      top is reached. */
  method ScanSections(sections: seq<string>, dom: map<string, int>, scrollY: int) returns (found: Option<nat>)
    ensures found == ActiveIndex(sections, dom, scrollY + ScrollLookahead)
  {
    var scrollPosition := scrollY + ScrollLookahead;
    found := None;
    var i: int := |sections| - 1;
    while i >= 0
      invariant -1 <= i < |sections|
      invariant found == None
      invariant forall j :: i < j < |sections| ==> !Reached(sections, dom, scrollPosition, j)
      decreases i
    {
      var id := sections[i];
      if id in dom {
        var offsetTop := dom[id];
        if scrollPosition >= offsetTop {
          found := Some(i);
          ActiveIndexIs(sections, dom, scrollPosition, i);
          break;
        }
      }
      i := i - 1;
    }
  }

  /** A reached section with nothing reached after it is the active one. */
  lemma ActiveIndexIs(sections: seq<string>, dom: map<string, int>, position: int, i: nat)
    requires i < |sections| && Reached(sections, dom, position, i)
    requires forall j :: i < j < |sections| ==> !Reached(sections, dom, position, j)
    ensures ActiveIndex(sections, dom, position) == Some(i)
  {
  }

  /** Scrolling further down never moves the highlight back up the page. */
  lemma ActiveIndexMonotone(sections: seq<string>, dom: map<string, int>, p1: int, p2: int)
    requires p1 <= p2
    ensures ActiveIndex(sections, dom, p1).Some? ==>
      ActiveIndex(sections, dom, p2).Some? &&
      ActiveIndex(sections, dom, p1).value <= ActiveIndex(sections, dom, p2).value
  {
    var r1 := ActiveIndex(sections, dom, p1);
    if r1.Some? {
      assert Reached(sections, dom, p2, r1.value);
    }
  }

  /** Once section `i` exists and its top is reached, the highlight is on
      `i` or on a section below it, never nothing and never one above it. */
  lemma ActiveIndexExists(sections: seq<string>, dom: map<string, int>, position: int, i: nat)
    requires i < |sections| && sections[i] in dom && dom[sections[i]] <= position
    ensures ActiveIndex(sections, dom, position).Some?
    ensures i <= ActiveIndex(sections, dom, position).value
  {
    assert Reached(sections, dom, position, i);
  }

  class Home {
    var activeSection: string

    /** The highlight starts on "home" (home.tsx, 13). */
    constructor ()
      ensures activeSection == "home"
    {
      activeSection := "home";
    }

    /** `handleScroll` (home.tsx, 17-37): the section found by the scan
        becomes active; when none qualifies the highlight stays. */
    method HandleScroll(dom: map<string, int>, scrollY: int)
      modifies this
      ensures ActiveIndex(Sections, dom, scrollY + ScrollLookahead).Some? ==>
        activeSection == Sections[ActiveIndex(Sections, dom, scrollY + ScrollLookahead).value]
      ensures ActiveIndex(Sections, dom, scrollY + ScrollLookahead).None? ==>
        activeSection == old(activeSection)
      ensures activeSection in Sections || activeSection == old(activeSection)
    {
      var found := ScanSections(Sections, dom, scrollY);
      if found.Some? {
        activeSection := Sections[found.value];
      }
    }

    /** `handleSectionChange` (home.tsx, 44-53): the clicked entry is active
        whether or not its element exists; the page is asked to scroll to
        just above the element's top only when it does. */
    method HandleSectionChange(sectionId: string, dom: map<string, int>) returns (scrollTarget: Option<int>)
      modifies this
      ensures activeSection == sectionId
      ensures scrollTarget.Some? <==> sectionId in dom
      ensures sectionId in dom ==> scrollTarget.value == dom[sectionId] - NavHeight
    {
      activeSection := sectionId;
      if sectionId in dom {
        scrollTarget := Some(dom[sectionId] - NavHeight);
      } else {
        scrollTarget := None;
      }
    }
  }
}
