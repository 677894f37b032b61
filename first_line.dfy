/**
 * Choosing the element whose font size stands for the height of an
 * element's first line: `findFirstElementWithText` and
 * `getLineHeightOfFirstLine`.
 */
module FirstLine {
  import opened Wrappers
  import opened Text
  import opened Dom

  /** `e` has a direct child text node whose trimmed content is not empty. */
  predicate HasDirectText(e: Element)
    ensures HasDirectText(e) <==>
      exists i :: 0 <= i < |e.childNodes| && e.childNodes[i].TextNode? && Trim(e.childNodes[i].content) != []
  {
    TrimTruthinessOfChildren(e.childNodes);
    exists i :: 0 <= i < |e.childNodes| && e.childNodes[i].TextNode? && HasContent(e.childNodes[i].content)
  }

  /** For each text node among `nodes`, a non-empty `trim()` is `HasContent`. */
  lemma TrimTruthinessOfChildren(nodes: seq<Node>)
    ensures forall i :: 0 <= i < |nodes| && nodes[i].TextNode? ==>
      (Trim(nodes[i].content) != [] <==> HasContent(nodes[i].content))
  {
    forall i | 0 <= i < |nodes| && nodes[i].TextNode? {
      TrimmedIsNonEmpty(nodes[i].content);
    }
  }

  /** A text node with non-whitespace content, with the element it is a direct child of. */
  datatype TextRun = TextRun(owner: Element, text: string)

  /** The non-whitespace text nodes that child `i` of `e` contributes, in document order. */
  function ChildRuns(e: Element, i: nat): (runs: seq<TextRun>)
    requires i < |e.childNodes|
    decreases e, |e.childNodes| - i, 0
  {
    match e.childNodes[i]
    case TextNode(s) => if HasContent(s) then [TextRun(e, s)] else []
    case ElementNode(c) => TextRunsFrom(c, 0)
    case OtherNode => []
  }

  /** The non-whitespace text nodes below children `i..` of `e`, in document order. */
  function TextRunsFrom(e: Element, i: nat): (runs: seq<TextRun>)
    requires i <= |e.childNodes|
    decreases e, |e.childNodes| - i, 1
  {
    if i == |e.childNodes| then [] else ChildRuns(e, i) + TextRunsFrom(e, i + 1)
  }

  /** Every non-whitespace text node below `e`, in document order, each with its parent element. */
  function TextRuns(e: Element): (runs: seq<TextRun>) {
    TextRunsFrom(e, 0)
  }

  /** The parent of the first run, if there is one. */
  function FirstOwner(runs: seq<TextRun>): (owner: Option<Element>) {
    if runs == [] then None else Some(runs[0].owner)
  }

  /**
   * The reference meaning of the search: the element that owns the first
   * non-whitespace text node below `e` in document order, if there is one.
   */
  function FirstTextOwner(e: Element): (owner: Option<Element>) {
    FirstOwner(TextRuns(e))
  }

  /**
   * `findFirstElementWithText`: walks the child nodes in order; a text node
   * with content makes `e` the answer, a child element is searched
   * recursively and its answer, if any, is returned; other nodes are skipped.
   */
  method FindFirstElementWithText(e: Element) returns (r: Option<Element>)
    ensures r == FirstTextOwner(e)
    decreases e
  {
    if |e.childNodes| == 0 {
      return None;
    }
    for i := 0 to |e.childNodes|
      invariant TextRuns(e) == TextRunsFrom(e, i)
    {
      assert TextRunsFrom(e, i) == ChildRuns(e, i) + TextRunsFrom(e, i + 1);
      match e.childNodes[i]
      case TextNode(s) =>
        if HasContent(s) {
          return Some(e);
        }
      case ElementNode(c) =>
        var result := FindFirstElementWithText(c);
        if result.Some? {
          return result;
        }
      case OtherNode =>
    }
    return None;
  }

  /** Every run below `e` is a non-whitespace direct text child of `e` or of one of its descendants. */
  lemma {:induction false} RunsAreDirectText(e: Element, i: nat, k: nat)
    requires i <= |e.childNodes| && k < |TextRunsFrom(e, i)|
    ensures DescendsFrom(TextRunsFrom(e, i)[k].owner, e)
    ensures TextNode(TextRunsFrom(e, i)[k].text) in TextRunsFrom(e, i)[k].owner.childNodes
    ensures HasContent(TextRunsFrom(e, i)[k].text)
    decreases e, |e.childNodes| - i
  {
    var here := ChildRuns(e, i);
    assert TextRunsFrom(e, i) == here + TextRunsFrom(e, i + 1);
    if k < |here| {
      assert TextRunsFrom(e, i)[k] == here[k];
      match e.childNodes[i]
      case TextNode(s) =>
        assert e.childNodes[i] in e.childNodes;
      case ElementNode(c) =>
        RunsAreDirectText(c, 0, k);
        assert DescendsFrom(c, c);
        assert DescendsFrom(c, e);
        DescendsFromTrans(here[k].owner, c, e);
      case OtherNode =>
    } else {
      RunsAreDirectText(e, i + 1, k - |here|);
    }
  }

  /** The runs of child `j` all appear among the runs of children `i..` when `i <= j`. */
  lemma {:induction false} ChildRunsListed(e: Element, i: nat, j: nat, run: TextRun)
    requires i <= j < |e.childNodes| && run in ChildRuns(e, j)
    ensures run in TextRunsFrom(e, i)
    decreases j - i
  {
    if i < j {
      ChildRunsListed(e, i + 1, j, run);
    }
  }

  /** Every non-whitespace direct text child of `e` or of a descendant of `e` is among `e`'s runs. */
  lemma {:induction false} DirectTextIsListed(d: Element, e: Element, s: string)
    requires DescendsFrom(d, e) && TextNode(s) in d.childNodes && HasContent(s)
    ensures TextRun(d, s) in TextRuns(e)
    decreases e
  {
    if d == e {
      var j :| 0 <= j < |e.childNodes| && e.childNodes[j] == TextNode(s);
      ChildRunsListed(e, 0, j, TextRun(d, s));
    } else {
      var j :| 0 <= j < |e.childNodes| && e.childNodes[j].ElementNode? && DescendsFrom(d, e.childNodes[j].elem);
      DirectTextIsListed(d, e.childNodes[j].elem, s);
      ChildRunsListed(e, 0, j, TextRun(d, s));
    }
  }

  /** A result of the search is `e` or a descendant of `e`, and has direct text. */
  lemma FoundElementHasDirectText(e: Element)
    requires FirstTextOwner(e).Some?
    ensures DescendsFrom(FirstTextOwner(e).value, e)
    ensures HasDirectText(FirstTextOwner(e).value)
  {
    var run := TextRuns(e)[0];
    RunsAreDirectText(e, 0, 0);
    var j :| 0 <= j < |run.owner.childNodes| && run.owner.childNodes[j] == TextNode(run.text);
  }

  /** The search finds nothing exactly when neither `e` nor any descendant has direct text. */
  lemma NothingFoundIff(e: Element)
    ensures FirstTextOwner(e).None? <==> forall d :: DescendsFrom(d, e) ==> !HasDirectText(d)
  {
    if FirstTextOwner(e).None? {
      forall d | DescendsFrom(d, e) ensures !HasDirectText(d) {
        if HasDirectText(d) {
          var j :| 0 <= j < |d.childNodes| && d.childNodes[j].TextNode? && HasContent(d.childNodes[j].content);
          DirectTextIsListed(d, e, d.childNodes[j].content);
        }
      }
    } else {
      FoundElementHasDirectText(e);
    }
  }

  /**
   * What one pass of the search loop over child `i` of `e` yields: `e` for a
   * text node with content, the child's own result for an element, nothing
   * for whitespace text and for any other kind of node.
   */
  function ChildHit(e: Element, i: nat): (hit: Option<Element>)
    requires i < |e.childNodes|
  {
    match e.childNodes[i]
    case TextNode(s) => if HasContent(s) then Some(e) else None
    case ElementNode(c) => FirstTextOwner(c)
    case OtherNode => None
  }

  /** A child yields nothing exactly when it contributes no run, and otherwise the owner of its first run. */
  lemma ChildHitIsFirstOwner(e: Element, i: nat)
    requires i < |e.childNodes|
    ensures ChildHit(e, i) == FirstOwner(ChildRuns(e, i))
  {
  }

  /** Children that yield nothing can be skipped: the result is that of the remaining children. */
  lemma {:induction false} MissesAreSkipped(e: Element, i: nat)
    requires i <= |e.childNodes|
    requires forall j :: 0 <= j < i ==> ChildHit(e, j).None?
    ensures TextRuns(e) == TextRunsFrom(e, i)
  {
    if i > 0 {
      MissesAreSkipped(e, i - 1);
      ChildHitIsFirstOwner(e, i - 1);
      assert TextRunsFrom(e, i - 1) == ChildRuns(e, i - 1) + TextRunsFrom(e, i);
    }
  }

  /**
   * Document order, first hit wins: when children before `i` yield nothing
   * and child `i` yields a result, that is the result of the search.
   */
  lemma FirstChildHitWins(e: Element, i: nat)
    requires i < |e.childNodes|
    requires forall j :: 0 <= j < i ==> ChildHit(e, j).None?
    requires ChildHit(e, i).Some?
    ensures FirstTextOwner(e) == ChildHit(e, i)
  {
    MissesAreSkipped(e, i);
    ChildHitIsFirstOwner(e, i);
    assert TextRunsFrom(e, i) == ChildRuns(e, i) + TextRunsFrom(e, i + 1);
  }

  /** When no child yields anything, the search returns nothing. */
  lemma NoChildHitFindsNothing(e: Element)
    requires forall j :: 0 <= j < |e.childNodes| ==> ChildHit(e, j).None?
    ensures FirstTextOwner(e).None?
  {
    MissesAreSkipped(e, |e.childNodes|);
  }

  /** An element without child nodes has no result. */
  lemma EmptyElementFindsNothing(e: Element)
    requires |e.childNodes| == 0
    ensures FirstTextOwner(e).None?
  {
  }

  /**
   * The element whose font size `getLineHeightOfFirstLine` reads: `e` itself
   * when it has direct text, else the search result, else `e` again.
   */
  function LineHeightTarget(e: Element): (target: Element)
    ensures DescendsFrom(target, e)
    ensures HasDirectText(e) ==> target == e
    ensures target != e ==> HasDirectText(target)
    ensures !HasDirectText(e) && TextRuns(e) != [] ==> target == TextRuns(e)[0].owner
    ensures !HasDirectText(e) && TextRuns(e) == [] ==> target == e
  {
    if HasDirectText(e) || FirstTextOwner(e).None? then
      assert DescendsFrom(e, e);
      e
    else
      FoundElementHasDirectText(e);
      FirstTextOwner(e).value
  }

  /**
   * The target is `e` or a descendant of `e`; it has direct text exactly when
   * `e` or some descendant has; when it has none it is `e` itself; and it is
   * `e` whenever `e` has direct text of its own.
   */
  lemma LineHeightTargetIsTextBearing(e: Element)
    ensures DescendsFrom(LineHeightTarget(e), e)
    ensures HasDirectText(LineHeightTarget(e)) <==> exists d :: DescendsFrom(d, e) && HasDirectText(d)
    ensures !HasDirectText(LineHeightTarget(e)) ==> LineHeightTarget(e) == e
    ensures HasDirectText(e) ==> LineHeightTarget(e) == e
  {
    assert DescendsFrom(e, e);
    NothingFoundIff(e);
    if FirstTextOwner(e).Some? {
      FoundElementHasDirectText(e);
    }
  }

  /**
   * Direct text outranks document order: when the first child of `e` is an
   * element whose subtree has text and a later child is text of `e`'s own,
   * the search returns the child's result, yet `e` is its own target.
   */
  lemma DirectTextOutranksEarlierChild(e: Element, c: Element, j: nat)
    requires |e.childNodes| > 0 && e.childNodes[0] == ElementNode(c) && FirstTextOwner(c).Some?
    requires 0 < j < |e.childNodes| && e.childNodes[j].TextNode? && HasContent(e.childNodes[j].content)
    ensures FirstTextOwner(e) == FirstTextOwner(c)
    ensures LineHeightTarget(e) == e
  {
    FirstChildHitWins(e, 0);
  }

  /** `getLineHeightOfFirstLine`: the font size of the line-height target. */
  method GetLineHeightOfFirstLine(e: Element) returns (height: int)
    ensures height == LineHeightTarget(e).fontSize
  {
    var hasDirectText := HasDirectText(e);
    var target := e;
    if !hasDirectText {
      var found := FindFirstElementWithText(e);
      target := found.GetOr(e);
    }
    height := target.fontSize;
  }
}
