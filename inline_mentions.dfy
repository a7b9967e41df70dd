/**
 * The `InlineMentions` overlay controller. On every editor change it
 * recomputes where, and whether, the suggestion overlay shows: hidden
 * (the reset state, parked off-screen) unless the cursor is a focused
 * collapsed selection inside a registered mention leaf and the browser
 * can measure a rectangle; otherwise visible just below that rectangle
 * with the query text that starts at the last `@`.
 */
module Mentions {
  import opened Wrappers
  import opened Seqs
  import opened JsString
  import opened OffsetBag
  import opened LeafLocator

  /** The off-screen coordinate the overlay is parked at while hidden. */
  const OFFSCREEN: int := -9999

  /** A `getBoundingClientRect` result, in whole pixels. */
  datatype Rect = Rect(top: int, left: int, bottom: int, right: int)

  /** The parts of a draft `EditorState` read here: selection, block texts, block trees. */
  datatype EditorState = EditorState(selection: Selection, content: map<BlockKey, string>, tree: BlockTree)

  /**
   * Where the query text ends: `Math.min(end, anchorOffset)` when
   * `queryUntilCursor` is set, the leaf's end otherwise.
   */
  function QueryEnd(leaf: Leaf, anchorOffset: int, queryUntilCursor: bool): (r: int)
    ensures r <= leaf.end
    ensures !queryUntilCursor ==> r == leaf.end
    ensures queryUntilCursor ==> r <= anchorOffset && (r == leaf.end || r == anchorOffset)
  {
    if queryUntilCursor then (if leaf.end < anchorOffset then leaf.end else anchorOffset) else leaf.end
  }

  /** The raw query: the leaf's text, cut at the cursor when `queryUntilCursor` is set. */
  function ExtractQuery(text: string, leaf: Leaf, anchorOffset: int, queryUntilCursor: bool): (r: string)
    ensures |r| <= |text|
    ensures 0 <= leaf.start <= leaf.end <= |text| && Within(leaf, anchorOffset) ==>
      r == if queryUntilCursor then text[leaf.start..anchorOffset] else text[leaf.start..leaf.end]
  {
    Substring(text, leaf.start, QueryEnd(leaf, anchorOffset, queryUntilCursor))
  }

  /** With the cursor at the end of the leaf, both policies agree. */
  lemma ExtractQueryAtLeafEnd(text: string, leaf: Leaf)
    requires 0 <= leaf.start <= leaf.end <= |text|
    ensures ExtractQuery(text, leaf, leaf.end, true) == ExtractQuery(text, leaf, leaf.end, false)
  {
  }

  /** The query until the cursor is a prefix of the whole-span query. */
  lemma ExtractQueryPrefix(text: string, leaf: Leaf, anchorOffset: int)
    requires 0 <= leaf.start <= leaf.end <= |text|
    requires Within(leaf, anchorOffset)
    ensures var short := ExtractQuery(text, leaf, anchorOffset, true);
      short <= ExtractQuery(text, leaf, anchorOffset, false)
  {
  }

  /** `q.substring(q.lastIndexOf("@"), q.length)`; a miss (-1) is clamped to 0. */
  function TrimToLastAt(q: string): (r: string)
    ensures |r| <= |q| && r == q[|q| - |r|..]
    ensures AT !in q ==> r == q
    ensures AT in q ==> |r| >= 1 && r[0] == AT && AT !in r[1..]
  {
    var i := LastIndexOf(q, AT);
    var r := Substring(q, i, |q|);
    assert r == q[if i < 0 then 0 else i..] by {
      if i < 0 {
        SubstringNegativeStart(q, i, |q|);
      }
    }
    assert i >= 0 ==> r[1..] == q[i + 1..];
    r
  }

  /** Trimming is idempotent: the published query trims to itself. */
  lemma TrimToLastAtIdempotent(q: string)
    ensures TrimToLastAt(TrimToLastAt(q)) == TrimToLastAt(q)
  {
  }

  /**
   * The offset the rectangle is measured from is where the published query
   * begins within the raw query; -1, leaving the range unnarrowed, when
   * there is no `@`.
   */
  lemma MeasureOffsetIsQueryStart(q: string)
    ensures AT in q ==> LastIndexOf(q, AT) == |q| - |TrimToLastAt(q)|
    ensures AT !in q ==> LastIndexOf(q, AT) == -1
  {
  }

  /**
   * The mention pattern puts the `@` first in the leaf or right after one
   * captured whitespace character. With the query cut at a cursor on or
   * before the `@`, the published query is the text from the leaf start to
   * the cursor: at most one character, and no `@`.
   */
  lemma QueryBeforeSigil(text: string, leaf: Leaf, anchorOffset: int, at: int)
    requires 0 <= leaf.start <= at <= leaf.start + 1 && at < leaf.end <= |text|
    requires text[at] == AT && AT !in text[leaf.start..at]
    requires leaf.start <= anchorOffset <= at
    ensures var q := TrimToLastAt(ExtractQuery(text, leaf, anchorOffset, true));
      q == text[leaf.start..anchorOffset] && |q| <= 1 && AT !in q
  {
  }

  /** The selection guard of `calculateAndSetState`: a focused bare cursor. */
  predicate SelectionActive(sel: Selection)
    ensures SelectionActive(sel) <==>
      sel == Selection(sel.anchorKey, sel.anchorOffset, sel.anchorKey, sel.anchorOffset, true)
  {
    IsCollapsed(sel) && sel.hasFocus
  }

  /** The `InlineMentions` component: its one prop and its overlay state. */
  class InlineMentions {
    const queryUntilCursor: bool
    var top: int
    var left: int
    var mentionQuery: string
    var visible: bool

    /** The hidden state, set initially and by `resetState`. */
    predicate IsReset()
      reads this
    {
      top == OFFSCREEN && left == OFFSCREEN && mentionQuery == "" && !visible
    }

    constructor (queryUntilCursor: bool)
      ensures this.queryUntilCursor == queryUntilCursor
      ensures IsReset()
    {
      this.queryUntilCursor := queryUntilCursor;
      top, left, mentionQuery, visible := OFFSCREEN, OFFSCREEN, "", false;
    }

    method ResetState()
      modifies this
      ensures IsReset()
    {
      top, left, visible, mentionQuery := OFFSCREEN, OFFSCREEN, false, "";
    }

    /**
     * The part of `calculateAndSetState` after a leaf has been found: cut
     * the query out of the block text, measure the rectangle from its last
     * `@`, and publish, or reset when nothing can be measured.
     */
    method PublishLeaf(plainString: string, foundBounds: Leaf, anchorOffset: int, measure: int -> Option<Rect>)
      modifies this
      ensures var query := ExtractQuery(plainString, foundBounds, anchorOffset, queryUntilCursor);
        var rect := measure(LastIndexOf(query, AT));
        if rect.None? then IsReset()
        else (visible && top == rect.value.bottom && left == rect.value.left
              && mentionQuery == TrimToLastAt(query))
    {
      var query := ExtractQuery(plainString, foundBounds, anchorOffset, queryUntilCursor);
      var lastAtIndex := LastIndexOf(query, AT);
      var activeSelectionRect := measure(lastAtIndex);
      if activeSelectionRect.None? {
        ResetState();
        return;
      }
      top, left := activeSelectionRect.value.bottom, activeSelectionRect.value.left;
      mentionQuery := Substring(query, lastAtIndex, |query|);
      visible := true;
    }

    /**
     * `calculateAndSetState`. The registered keys are those of `bag`,
     * turned into structured keys by `decode`; `measure` stands for the
     * browser's bounding rectangle of the native selection narrowed to
     * start at the given offset, `None` when there is no selection range.
     */
    method CalculateAndSetState(editorState: EditorState, bag: MentionSpanOffsetBag,
                                decode: OffsetKey -> DecodedKey, measure: int -> Option<Rect>)
      requires var sel := editorState.selection;
        SelectionActive(sel) && LeafUnderCursor(editorState.tree, sel, MapSeq(bag.offsetKeys, decode)).Some?
        ==> sel.anchorKey in editorState.content
      modifies this
      ensures var sel := editorState.selection;
        var found := LeafUnderCursor(editorState.tree, sel, MapSeq(bag.offsetKeys, decode));
        if !SelectionActive(sel) || found.None? then IsReset()
        else
          var query := ExtractQuery(editorState.content[sel.anchorKey], found.value, sel.anchorOffset, queryUntilCursor);
          var rect := measure(LastIndexOf(query, AT));
          if rect.None? then IsReset()
          else (visible && top == rect.value.bottom && left == rect.value.left
                && mentionQuery == TrimToLastAt(query))
    {
      var currentSelection := editorState.selection;
      if !IsCollapsed(currentSelection) || !currentSelection.hasFocus {
        ResetState();
        return;
      }
      var offsetKeys := bag.GetOffsetKeys();
      var decodedOffsetKeys := MapSeq(offsetKeys, decode);
      var leaves := FindOffsetKeysLeaves(editorState.tree, currentSelection.anchorKey, decodedOffsetKeys);
      var foundBounds := FindSelectionBoundsWithinLeaves(currentSelection.anchorOffset, leaves);
      assert foundBounds == LeafUnderCursor(editorState.tree, currentSelection, decodedOffsetKeys);
      if foundBounds.None? {
        ResetState();
        return;
      }
      var plainString := editorState.content[currentSelection.anchorKey];
      PublishLeaf(plainString, foundBounds.value, currentSelection.anchorOffset, measure);
    }
  }
}
