/**
 * The part of the document the hook reads: elements with their layout box,
 * their computed font size and their child nodes in document order.
 */
module Dom {

  /** What `getBoundingClientRect()` reports: the layout box relative to the viewport. */
  datatype ClientRect = ClientRect(top: int, left: int, width: int, height: int)

  /**
   * A child node, told apart by `nodeType`: a text node with its
   * `textContent`, an element, or any other kind (a comment, a CDATA section,
   * a processing instruction), which the hook skips.
   */
  datatype Node = TextNode(content: string) | ElementNode(elem: Element) | OtherNode

  /**
   * An element. `id` stands for the element's identity, `rect` for its current
   * client rectangle and `fontSize` for `parseInt(getComputedStyle(e).fontSize, 10)`.
   */
  datatype Element = Element(id: nat, rect: ClientRect, fontSize: int, childNodes: seq<Node>)

  /** `d` is `e` itself or an element somewhere below it. */
  predicate DescendsFrom(d: Element, e: Element)
    decreases e
  {
    d == e
    || exists i :: 0 <= i < |e.childNodes| && e.childNodes[i].ElementNode? && DescendsFrom(d, e.childNodes[i].elem)
  }

  /** Descent is transitive: a descendant of a child is a descendant of the parent. */
  lemma {:induction false} DescendsFromTrans(d: Element, c: Element, e: Element)
    requires DescendsFrom(d, c) && DescendsFrom(c, e)
    ensures DescendsFrom(d, e)
    decreases e
  {
    if c != e {
      var i :| 0 <= i < |e.childNodes| && e.childNodes[i].ElementNode? && DescendsFrom(c, e.childNodes[i].elem);
      DescendsFromTrans(d, c, e.childNodes[i].elem);
    }
  }
}
