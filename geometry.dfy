/**
 * Page-absolute bounds of an element and the edge-inclusive hit test
 * (`getElementBounds` and `isPointInsideElement`).
 */
module Geometry {
  import opened Dom

  /** The window's scroll offset (`window.scrollX`, `window.scrollY`) at the time of the call. */
  datatype Scroll = Scroll(x: int, y: int)

  /** A point in page coordinates. */
  datatype Point = Point(x: int, y: int)

  /** The rectangle `getElementBounds` returns, in page coordinates. */
  datatype Bounds = Bounds(x: int, y: int, top: int, left: int, width: int, height: int)

  /**
   * The element's client rectangle moved by the scroll offset into page
   * coordinates; `x`/`y` repeat `left`/`top`, and the size is unchanged.
   */
  function ElementBounds(e: Element, scroll: Scroll): (b: Bounds)
    ensures b.x == b.left && b.y == b.top
    ensures b.top - scroll.y == e.rect.top && b.left - scroll.x == e.rect.left
    ensures b.width == e.rect.width && b.height == e.rect.height
  {
    var top := e.rect.top + scroll.y;
    var left := e.rect.left + scroll.x;
    Bounds(left, top, top, left, e.rect.width, e.rect.height)
  }

  /** `isPointInsideElement`: the point lies in the element's page bounds, edges included. */
  predicate IsPointInsideElement(p: Point, e: Element, scroll: Scroll)
    ensures IsPointInsideElement(p, e, scroll) <==>
      e.rect.left <= p.x - scroll.x <= e.rect.left + e.rect.width
      && e.rect.top <= p.y - scroll.y <= e.rect.top + e.rect.height
  {
    var b := ElementBounds(e, scroll);
    p.x >= b.left && p.x <= b.left + b.width && p.y >= b.top && p.y <= b.top + b.height
  }

  /** The pointer position in page coordinates: client coordinates plus the scroll offset. */
  function PagePoint(clientX: int, clientY: int, scroll: Scroll): (p: Point)
    ensures p.x - scroll.x == clientX && p.y - scroll.y == clientY
  {
    Point(clientX + scroll.x, clientY + scroll.y)
  }

  /** Every point on each of the four edges counts as inside. */
  lemma EdgesAreInside(e: Element, scroll: Scroll, dx: int, dy: int)
    requires 0 <= dx <= e.rect.width && 0 <= dy <= e.rect.height
    ensures var b := ElementBounds(e, scroll);
      && IsPointInsideElement(Point(b.left + dx, b.top), e, scroll)
      && IsPointInsideElement(Point(b.left + dx, b.top + b.height), e, scroll)
      && IsPointInsideElement(Point(b.left, b.top + dy), e, scroll)
      && IsPointInsideElement(Point(b.left + b.width, b.top + dy), e, scroll)
  {
  }

  /** A point beyond any of the four edges is outside; with `EdgesAreInside` this is the whole test. */
  lemma BeyondAnEdgeIsOutside(p: Point, e: Element, scroll: Scroll)
    ensures var b := ElementBounds(e, scroll);
      (p.x < b.left || p.x > b.left + b.width || p.y < b.top || p.y > b.top + b.height)
      ==> !IsPointInsideElement(p, e, scroll)
  {
  }

  /** An element of zero width and height still contains its own top-left corner. */
  lemma ZeroSizeContainsCorner(e: Element, scroll: Scroll)
    requires e.rect.width == 0 && e.rect.height == 0
    ensures var b := ElementBounds(e, scroll);
      IsPointInsideElement(Point(b.left, b.top), e, scroll)
  {
  }

  /**
   * Hit-testing the pointer does not depend on the scroll offset: the client
   * position is inside the element's client rectangle, whatever the scroll.
   */
  lemma HitTestIgnoresScroll(clientX: int, clientY: int, e: Element, scroll: Scroll)
    ensures IsPointInsideElement(PagePoint(clientX, clientY, scroll), e, scroll)
      <==> (e.rect.left <= clientX <= e.rect.left + e.rect.width
            && e.rect.top <= clientY <= e.rect.top + e.rect.height)
  {
  }
}
