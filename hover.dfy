/**
 * The mouse-move handler of `useHoveredParagraphCoordinate`: it hit-tests
 * the candidate elements in list order and replaces the single hovered
 * value with the first match, or with nothing.
 */
module Hover {
  import opened Wrappers
  import opened Dom
  import opened Geometry
  import opened FirstLine

  /** `HoveredElementInfo`: the matched element, its page-absolute top-left corner and its first-line height. */
  datatype HoveredElementInfo = HoveredElementInfo(element: Element, top: int, left: int, heightOfFirstLine: int)

  /** The value published for a matched candidate. */
  function MatchFor(e: Element, scroll: Scroll): (m: HoveredElementInfo)
    ensures m.element == e && m.heightOfFirstLine == LineHeightTarget(e).fontSize
    ensures m.left - scroll.x == e.rect.left && m.top - scroll.y == e.rect.top
    ensures e.rect.width >= 0 && e.rect.height >= 0 ==> IsPointInsideElement(Point(m.left, m.top), e, scroll)
  {
    var bounds := ElementBounds(e, scroll);
    HoveredElementInfo(e, bounds.top, bounds.left, LineHeightTarget(e).fontSize)
  }

  /** The index of the first candidate whose bounds contain `p`, if any. */
  function FirstHit(candidates: seq<Element>, p: Point, scroll: Scroll): (r: Option<nat>)
    ensures r.Some? ==> r.value < |candidates| && IsPointInsideElement(p, candidates[r.value], scroll)
    ensures r.Some? ==> forall j :: 0 <= j < r.value ==> !IsPointInsideElement(p, candidates[j], scroll)
    ensures r.None? ==> forall j :: 0 <= j < |candidates| ==> !IsPointInsideElement(p, candidates[j], scroll)
  {
    if candidates == [] then None
    else if IsPointInsideElement(p, candidates[0], scroll) then Some(0)
    else
      match FirstHit(candidates[1..], p, scroll)
      case Some(k) => Some(k + 1)
      case None => None
  }

  /**
   * What the handler publishes for a pointer at client position
   * (`clientX`, `clientY`) with the page scrolled by `scroll`.
   */
  function HoverAt(candidates: seq<Element>, clientX: int, clientY: int, scroll: Scroll): (r: Option<HoveredElementInfo>)
    ensures r.None? <==>
      forall j :: 0 <= j < |candidates| ==> !IsPointInsideElement(PagePoint(clientX, clientY, scroll), candidates[j], scroll)
    ensures r.Some? ==>
      && r.value.element in candidates
      && r.value == MatchFor(r.value.element, scroll)
      && IsPointInsideElement(PagePoint(clientX, clientY, scroll), r.value.element, scroll)
  {
    match FirstHit(candidates, PagePoint(clientX, clientY, scroll), scroll)
    case Some(i) => Some(MatchFor(candidates[i], scroll))
    case None => None
  }

  /**
   * The hovered value is the match of the first candidate, in list order,
   * that contains the pointer; it is nothing exactly when no candidate
   * contains the pointer.
   */
  lemma HoverAtIsFirstMatch(candidates: seq<Element>, clientX: int, clientY: int, scroll: Scroll)
    ensures var p := PagePoint(clientX, clientY, scroll);
      HoverAt(candidates, clientX, clientY, scroll).None?
      <==> forall j :: 0 <= j < |candidates| ==> !IsPointInsideElement(p, candidates[j], scroll)
    ensures var p := PagePoint(clientX, clientY, scroll);
      forall i :: 0 <= i < |candidates| && IsPointInsideElement(p, candidates[i], scroll)
        && (forall j :: 0 <= j < i ==> !IsPointInsideElement(p, candidates[j], scroll))
        ==> HoverAt(candidates, clientX, clientY, scroll) == Some(MatchFor(candidates[i], scroll))
  {
  }

  /**
   * A published match sits at its element's page bounds, carries that
   * element's first-line height, and its element is a candidate containing
   * the pointer.
   */
  lemma PublishedMatchIsConsistent(candidates: seq<Element>, clientX: int, clientY: int, scroll: Scroll)
    requires HoverAt(candidates, clientX, clientY, scroll).Some?
    ensures var m := HoverAt(candidates, clientX, clientY, scroll).value;
      && m.element in candidates
      && IsPointInsideElement(PagePoint(clientX, clientY, scroll), m.element, scroll)
      && m.top == ElementBounds(m.element, scroll).top
      && m.left == ElementBounds(m.element, scroll).left
      && m.heightOfFirstLine == LineHeightTarget(m.element).fontSize
  {
  }

  /** With two overlapping candidates `[a, b]`, a point inside both matches `a`. */
  lemma FirstOfOverlappingWins(a: Element, b: Element, clientX: int, clientY: int, scroll: Scroll)
    requires IsPointInsideElement(PagePoint(clientX, clientY, scroll), a, scroll)
    requires IsPointInsideElement(PagePoint(clientX, clientY, scroll), b, scroll)
    ensures HoverAt([a, b], clientX, clientY, scroll) == Some(MatchFor(a, scroll))
  {
  }

  /** With no candidates nothing is ever hovered. */
  lemma NoCandidatesNoMatch(clientX: int, clientY: int, scroll: Scroll)
    ensures HoverAt([], clientX, clientY, scroll).None?
  {
  }

  /**
   * Which candidate is hovered depends only on the client position, not on
   * the scroll offset.
   */
  lemma {:induction false} FirstHitIgnoresScroll(candidates: seq<Element>, clientX: int, clientY: int, s1: Scroll, s2: Scroll)
    ensures FirstHit(candidates, PagePoint(clientX, clientY, s1), s1)
         == FirstHit(candidates, PagePoint(clientX, clientY, s2), s2)
  {
    if candidates != [] {
      HitTestIgnoresScroll(clientX, clientY, candidates[0], s1);
      HitTestIgnoresScroll(clientX, clientY, candidates[0], s2);
      FirstHitIgnoresScroll(candidates[1..], clientX, clientY, s1, s2);
    }
  }

  /**
   * The state behind the hook: the candidate list the handler closes over
   * and the single hovered value it replaces on every mouse move.
   */
  class HoverTracker {
    const candidates: seq<Element>
    var hovered: Option<HoveredElementInfo>

    /** The hook starts with nothing hovered. */
    constructor (candidates: seq<Element>)
      ensures this.candidates == candidates && hovered.None?
    {
      this.candidates := candidates;
      hovered := None;
    }

    /**
     * `handleMouseMove`: converts the pointer to page coordinates, scans the
     * candidates in order and publishes the first match, or nothing.
     */
    method OnMouseMove(clientX: int, clientY: int, scroll: Scroll)
      modifies this
      ensures hovered == HoverAt(candidates, clientX, clientY, scroll)
    {
      var x := clientX + scroll.x;
      var y := clientY + scroll.y;
      for i := 0 to |candidates|
        invariant forall j :: 0 <= j < i ==> !IsPointInsideElement(Point(x, y), candidates[j], scroll)
      {
        var element := candidates[i];
        if IsPointInsideElement(Point(x, y), element, scroll) {
          var bounds := ElementBounds(element, scroll);
          var height := GetLineHeightOfFirstLine(element);
          hovered := Some(HoveredElementInfo(element, bounds.top, bounds.left, height));
          HoverAtIsFirstMatch(candidates, clientX, clientY, scroll);
          return;
        }
      }
      hovered := None;
      HoverAtIsFirstMatch(candidates, clientX, clientY, scroll);
    }
  }

  /**
   * A session with one candidate at top 100, left 50, size 200 by 40 and no
   * scroll: the pointer at (60, 110) publishes top 100 and left 50, the same
   * move again publishes the same value, and a move to (500, 500) clears it.
   */
  method SingleCandidateSession(paragraph: Element)
    requires paragraph.rect == ClientRect(100, 50, 200, 40)
  {
    var tracker := new HoverTracker([paragraph]);
    assert tracker.hovered.None?;
    var noScroll := Scroll(0, 0);
    tracker.OnMouseMove(60, 110, noScroll);
    assert IsPointInsideElement(Point(60, 110), paragraph, noScroll);
    assert tracker.hovered.Some? && tracker.hovered.value.top == 100 && tracker.hovered.value.left == 50;
    var first := tracker.hovered;
    tracker.OnMouseMove(60, 110, noScroll);
    assert tracker.hovered == first;
    tracker.OnMouseMove(500, 500, noScroll);
    assert tracker.hovered.None?;
  }
}
