# Hover player hit-testing, modelled in Dafny

This project models the logic behind a hover player. A small control floats
next to whichever block of text the mouse pointer is over. The logic lives in
`src/lib/hook.ts` and has four parts:

- **Geometry.** `getElementBounds` moves an element's client rectangle into
  page coordinates by adding the window's scroll offset.
  `isPointInsideElement` tests whether a point lies in those bounds, with all
  four edges counting as inside.
- **First-text search.** `findFirstElementWithText` walks an element's child
  nodes in document order. A text node whose trimmed content is not empty
  makes the element itself the answer. A child element is searched
  recursively, and its answer wins if it has one. Any other node is skipped.
- **Line-height target.** `getLineHeightOfFirstLine` reads the font size of
  one target element. The target is the element itself when it has direct
  non-whitespace text. Otherwise it is the search result, or the element
  itself again when the search finds nothing.
- **Hover tracking.** The mouse-move handler in `useHoveredParagraphCoordinate`
  turns the pointer's client position into page coordinates. It then scans
  the candidate elements in list order. The first candidate that contains the
  point replaces the single hovered value, a `HoveredElementInfo`. If no
  candidate contains the point, the hovered value becomes null.

Modules, leaf first:

- `Wrappers` is the option type that stands for `null`.
- `Text` models ECMAScript's `trim` and the "has non-whitespace content" test.
- `Dom` holds the nodes and elements the hook reads.
- `Geometry` holds the bounds and the hit test.
- `FirstLine` holds the search and the line-height target.
- `Hover` holds the hovered record, the handler's specification and the
  `HoverTracker` class.

The search is a recursive method with a `for` loop and early returns, like the
source. It is proved equal to a separate reference definition, `FirstTextOwner`:
the parent element of the first non-whitespace text node below the element, in
document order. The handler is a method of `HoverTracker` that overwrites the
`hovered` field. It is proved to leave exactly `HoverAt(...)` there, a function
of the candidates, the pointer and the scroll offset alone.

The hit test is edge-inclusive. So an element of zero width and height is
not skipped: it still contains the one point at its corner
(`ZeroSizeContainsCorner`). The model follows the code here.

## Model

| member | source | states |
|---|---|---|
| `Text.TrimStart` | src/lib/hook.ts:40 | the result is a suffix of the input; every character dropped is whitespace; the result is empty or starts with non-whitespace |
| `Text.TrimEnd` | src/lib/hook.ts:40 | the result is a prefix of the input; every character dropped is whitespace; the result is empty or ends with non-whitespace |
| `Text.Trim` | src/lib/hook.ts:59 | `trim()` returns the slice of the input that starts after its leading whitespace; every character outside that slice is whitespace, and the slice neither starts nor ends with whitespace |
| `Text.TrimEmptyIff` | src/lib/hook.ts:59-60 | trimming leaves the empty string exactly when every character is whitespace |
| `Text.TrimmedIsNonEmpty` | src/lib/hook.ts:40 | the truthiness of `trim()` is exactly `HasContent`: some character is not whitespace |
| `Geometry.ElementBounds` | src/lib/hook.ts:6-18 | page bounds are the client rectangle shifted by the scroll offset; `x == left`, `y == top`; width and height are copied unchanged |
| `Geometry.IsPointInsideElement` | src/lib/hook.ts:24-32 | the page point lies in the element's page bounds, all four edges included; that is, the point minus the scroll offset lies in the element's client rectangle |
| `Geometry.EdgesAreInside` | src/lib/hook.ts:31 | every point on each of the four edges of the bounds counts as inside |
| `Geometry.BeyondAnEdgeIsOutside` | src/lib/hook.ts:31 | a point left of, right of, above or below the bounds is outside |
| `Geometry.ZeroSizeContainsCorner` | src/lib/hook.ts:31 | an element of zero width and height still contains its own top-left corner |
| `Geometry.HitTestIgnoresScroll` | src/lib/hook.ts:24-32 | hit-testing the pointer's page position against the page bounds is the same as testing the client position against the client rectangle, whatever the scroll offset |
| `Geometry.PagePoint` | src/lib/hook.ts:92-93 | the pointer's page position minus the scroll offset gives back its client position |
| `FirstLine.HasDirectText` | src/lib/hook.ts:39-41 | some direct child of the element is a text node whose `trim()` is not empty |
| `FirstLine.FindFirstElementWithText` | src/lib/hook.ts:54-68 | the loop-and-recursion search returns exactly the owner of the first non-whitespace text node below the element in document order, or nothing |
| `FirstLine.RunsAreDirectText` | src/lib/hook.ts:57-65 | every text node the document-order walk lists is a non-whitespace direct text child of the element or of one of its descendants |
| `FirstLine.DirectTextIsListed` | src/lib/hook.ts:57-65 | every non-whitespace direct text child of the element or of a descendant is listed by the walk |
| `FirstLine.FoundElementHasDirectText` | src/lib/hook.ts:57-65 | a search result is the element or one of its descendants, and has a direct child text node with non-empty trimmed content |
| `FirstLine.NothingFoundIff` | src/lib/hook.ts:55-67 | the search returns nothing exactly when neither the element nor any descendant has direct non-whitespace text |
| `FirstLine.EmptyElementFindsNothing` | src/lib/hook.ts:55 | an element without child nodes gives no result |
| `FirstLine.ChildHitIsFirstOwner` | src/lib/hook.ts:58-64 | one loop pass over a child yields the element for text with content, the child's own result for an element, and nothing for whitespace text or other nodes; that is the owner of the child's first listed text node |
| `FirstLine.MissesAreSkipped` | src/lib/hook.ts:57-65 | children that yield nothing are passed over: the search continues with the remaining children |
| `FirstLine.FirstChildHitWins` | src/lib/hook.ts:57-65 | in document order the first child that yields a result decides the search, whether it is a text node (the element itself) or a child element's subtree |
| `FirstLine.NoChildHitFindsNothing` | src/lib/hook.ts:67 | when no child yields a result the search returns nothing |
| `FirstLine.LineHeightTargetIsTextBearing` | src/lib/hook.ts:39-45 | the target is the element or a descendant; it is the element whenever the element has direct text; it has direct text exactly when some descendant-or-self has; otherwise it is the element itself |
| `FirstLine.DirectTextOutranksEarlierChild` | src/lib/hook.ts:39-45 | for every element whose first child is an element with text in its subtree and a later child is its own non-whitespace text, the search returns the child's result, yet the element is its own target |
| `FirstLine.LineHeightTarget` | src/lib/hook.ts:43-45 | the element whose font size is read: the element itself when it has direct text; otherwise the owner of the first non-whitespace text node below it in document order (the search result), or the element itself when there is none; it is always the element or a descendant, and when it is not the element it has direct text |
| `FirstLine.GetLineHeightOfFirstLine` | src/lib/hook.ts:38-49 | the returned height is the font size of the line-height target |
| `Hover.MatchFor` | src/lib/hook.ts:99-104 | the record published for a matched element holds that element, its client top-left corner shifted by the scroll offset, and its line-height target's font size; for a rectangle of non-negative size that corner passes the hit test |
| `Hover.FirstHit` | src/lib/hook.ts:95-96 | the index found holds a candidate containing the point, and no earlier candidate contains it; nothing is found only when no candidate contains the point |
| `Hover.HoverAt` | src/lib/hook.ts:91-110 | the handler's published value: null exactly when no candidate contains the pointer's page position; otherwise the record of a candidate that contains it |
| `Hover.HoverAtIsFirstMatch` | src/lib/hook.ts:92-109 | the published value is the match of the first candidate in list order that contains the pointer, and null exactly when none does |
| `Hover.PublishedMatchIsConsistent` | src/lib/hook.ts:97-104 | a published match is a candidate that contains the pointer; its top and left are the element's page bounds, and its height is the element's first-line height |
| `Hover.FirstOfOverlappingWins` | src/lib/hook.ts:95-106 | with two overlapping candidates `[a, b]`, a point inside both matches `a` |
| `Hover.NoCandidatesNoMatch` | src/lib/hook.ts:95-109 | with an empty candidate list the published value is null |
| `Hover.FirstHitIgnoresScroll` | src/lib/hook.ts:92-96 | which candidate is hit depends only on the pointer's client position, not on the scroll offset |
| `Hover.HoverTracker.constructor` | src/lib/hook.ts:86-88 | the hovered value starts as null |
| `Hover.HoverTracker.OnMouseMove` | src/lib/hook.ts:91-110 | after a mouse move the hovered value is replaced wholesale by `HoverAt` of the candidates, the pointer and the scroll offset; the old value plays no part, so the same position and layout always give the same value |

## Left out

- React plumbing is not modelled: `useState`, `useEffect`, and adding and
  removing the window `mousemove` listener. So the model does not cover
  re-subscribing when the candidate list changes. It also does not cover the
  hovered value surviving such a change until the next move. A `HoverTracker`
  keeps one fixed candidate list.
- Browser calls are inputs. `getBoundingClientRect()` is the element's `rect`
  field. `window.scrollX` and `window.scrollY` are the `Scroll` parameter.
  `parseInt(getComputedStyle(target).fontSize, 10)` is the element's `fontSize`
  field, so a `NaN` font size is not modelled.
- Layout is a snapshot. Each `Element` value carries its client rectangle, so
  a reflow between two events means new element values, not a change seen
  through the same reference.
- Element identity is value identity, with an `id` field to tell apart
  elements that are otherwise alike.
- JavaScript numbers are modelled as unbounded integers. Fractional
  coordinates and floating-point rounding are not modelled.
- `Text.IsWhitespace` is ECMAScript's WhiteSpace and LineTerminator set, with
  the Unicode space separators written out as of Unicode 15. A later Unicode
  version that adds a space separator is not covered.
- `src/lib/HoverPlayer.tsx` is not part of this model. It renders the control,
  loads the candidates through `getTopLevelReadableElementsOnPage`, and calls
  the `speechify` playback service. None of these are hit-testing logic.
