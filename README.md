# Inline mention trigger core, modelled in Dafny

This project models the mention-trigger logic of a small draft-js editor
experiment (`index.js`). That logic has four parts:

- **The offset-key registry** `MentionSpanOffsetBag`. Each decorated
  `MentionSpan` puts its offset key into the registry when it mounts and
  deletes it when it unmounts.
- **The leaf locator.** It keeps the registered keys of the cursor's block,
  looks each one up in the editor's block tree, and picks the first leaf
  whose `[start, end]` bounds contain the cursor.
- **The overlay controller** `InlineMentions.calculateAndSetState`. It
  hides the overlay in three cases: the selection is not a focused cursor,
  no leaf is found, or no rectangle can be measured. Otherwise it shows the
  overlay just below the measured rectangle. The query it publishes is the
  leaf text (cut at the cursor when `queryUntilCursor` is set), trimmed so
  that it starts at the last `@`.
- **The suggestion helpers.** `withoutAt` strips everything up to and
  including the first `@`. The `FruitsProvider` filter keeps the `FRUITS`
  entries whose lower-cased form contains the value, and does nothing when
  the value has not changed.

Modules, one per part plus shared helpers:

- `Wrappers`: `Option`.
- `Seqs`: the `filter`, `map` and `filter(Boolean)` array combinators, each
  proved order-preserving.
- `JsString`: the JavaScript string operations, with their edge cases.
  `substring` clamps and swaps its bounds. `indexOf` and `lastIndexOf`
  return -1 on a miss. `includes` accepts the empty needle.
- `OffsetBag`: the registry, as a class with a `seq` field.
- `LeafLocator`: the selection, keys, leaves and the two locator functions.
- `Mentions`: query extraction and the `InlineMentions` class with its
  state-updating methods.
- `Suggestions`: `withoutAt` and the fruit filter.
- `Scenarios`: worked concrete cases, plus one end-to-end scenario
  (verified) of the controller class.

Three behaviours of the code differ from what one might expect of such a
component; the model follows the code:

- **Duplicates.** The registry is not an idempotent set. The code appends
  with `concat`, so mounting a key twice leaves two copies, and a single
  unmount then removes both (`MountTwice`, `DelAfterPut`).
  The set of registered keys still behaves like a set. A duplicate only
  repeats a leaf at the end of the locator's list, and the leaf found
  under the cursor stays the same (`DuplicateDoesNotChangeFirstMatch`).
- **Queries without `@`.** The published query does not always start with
  `@`. It does only when the text that was cut contains `@`. With
  `queryUntilCursor` set and the cursor on or before the `@`, the query is
  empty, or it is the single whitespace character that the pattern
  captured before the `@` (`QueryBeforeSigil`). That character may be a
  space, a soft newline, a tab or a no-break space. For "hi @ap" the query
  is `""` or `" "`, and for "hi\n@ap" it is `"\n"` (`CursorBeforeSigil`).
- **Leaf bounds.** The mention regex includes the leading whitespace. For
  "hi @ap" the leaf is therefore `[2, 6]`, not `[3, 6]`.

External collaborators become parameters of `CalculateAndSetState`:

- `decode` stands for `DraftOffsetKey.decode`.
- `measure` stands for `computeStartRangeRectBounds(window, ·)`. It is
  called with the same offset the code passes.

The editor state is a value holding three things: the selection, the block
texts as a `map`, and the block trees flattened into a map from
`(blockKey, decoratorKey, leafKey)` to a leaf.

## Model

| member | source | states |
|---|---|---|
| `Seqs.Filter` | index.js:35-37 | the result holds exactly the elements satisfying the predicate, and is no longer than the input |
| `Seqs.FilterConcat` | index.js:35-37 | filtering commutes with concatenation, so relative order is preserved |
| `Seqs.FilterKeepsAll` | index.js:35-37 | a filter whose predicate holds everywhere returns its input |
| `Seqs.FilterMultiset` | index.js:35-37 | each kept value keeps all its occurrences; a dropped value has none |
| `Seqs.MapSeq` | index.js:111-119 | `map` keeps the length and applies the function at every position |
| `Seqs.MapSeqConcat` | index.js:111-119 | `map` commutes with concatenation |
| `Seqs.Somes` | index.js:120 | `filter(Boolean)` keeps exactly the found values, and is no longer than the input |
| `Seqs.SomesConcat` | index.js:120 | `filter(Boolean)` commutes with concatenation |
| `JsString.Clamp` | index.js:237-242 | a `substring` bound is brought into `[0, len]`: negative to 0, too large to len |
| `JsString.Substring` | index.js:237-242 | never longer than the string; in range it is the slice, in either argument order; bounds covering the whole string give the string |
| `JsString.SubstringNegativeStart` | index.js:260 | a start of -1 (no `@` found) behaves as 0 |
| `JsString.IndexOf` | index.js:166 | -1 exactly when the character is absent; otherwise its first position |
| `JsString.LastIndexOf` | index.js:245 | -1 exactly when the character is absent; otherwise its last position |
| `JsString.LowerChar` | index.js:156 | ASCII upper-case letters move down by 32 and all other characters are unchanged |
| `JsString.ToLowerAscii` | index.js:156 | same length, no upper-case ASCII letter left, each character lowered |
| `JsString.ToLowerAsciiIdempotent` | index.js:156 | lower-casing twice equals lower-casing once |
| `JsString.Includes` | index.js:156 | true exactly when the needle occurs at some position of the haystack |
| `JsString.IncludesEmpty` | index.js:156 | the empty string is included in every string |
| `JsString.MissingCharNotIncluded` | index.js:156 | a needle holding a character that the haystack lacks is not included |
| `OffsetBag.Without` | index.js:34-38 | deleting leaves no copy of the key, removes nothing else, and adds nothing |
| `OffsetBag.WithoutCounts` | index.js:34-38 | the other keys keep their multiplicities and the deleted key's count becomes 0 |
| `OffsetBag.WithoutAbsent` | index.js:34-38 | deleting an absent key leaves the list unchanged |
| `OffsetBag.WithoutConcat` | index.js:34-38 | deleting commutes with concatenation, so the remaining keys keep their order |
| `OffsetBag.WithoutIdempotent` | index.js:34-38 | a repeated unmount is a no-op |
| `OffsetBag.DelAfterPut` | index.js:27-38 | unmounting right after mounting also removes earlier copies of the key |
| `OffsetBag.DelOtherAfterPut` | index.js:27-38 | unmounting another key leaves the freshly mounted key last |
| `OffsetBag.MentionSpanOffsetBag.constructor` | index.js:22 | the registry starts empty |
| `OffsetBag.MentionSpanOffsetBag.PutOffsetKey` | index.js:27-29 | the new list is the old list with the key appended; its length grows by one |
| `OffsetBag.MentionSpanOffsetBag.DelOffsetKey` | index.js:34-38 | the new list is the old one without the key; an absent key changes nothing |
| `OffsetBag.MentionSpanOffsetBag.GetOffsetKeys` | index.js:43-45 | returns the current list |
| `LeafLocator.IsCollapsed` | index.js:210 | vocabulary for the guard, `isCollapsed()`: anchor and focus coincide (its ensures only spells the selection out; the guard's effect is stated by `CalculateAndSetState`) |
| `LeafLocator.LookupLeaf` | index.js:112-118 | a lookup finds exactly the keys that the tree holds |
| `LeafLocator.FindOffsetKeysLeaves` | index.js:105-121 | the result is no longer than the input |
| `LeafLocator.FindOffsetKeysLeavesConcat` | index.js:105-121 | the locator works key by key, so the input order is preserved |
| `LeafLocator.FindOffsetKeysLeavesSingle` | index.js:109-120 | one key yields its leaf exactly when it is in the anchor block and in the tree; otherwise it yields nothing |
| `LeafLocator.FindOffsetKeysLeavesCons` | index.js:109-120 | the result is the first key's contribution followed by the rest |
| `LeafLocator.FindOffsetKeysLeavesMembership` | index.js:105-121 | a leaf is returned exactly when some key of the anchor block names it in the tree |
| `LeafLocator.FindOffsetKeysLeavesLocal` | index.js:110-113 | only the anchor block's tree entries affect the result |
| `LeafLocator.FindSelectionBoundsWithinLeaves` | index.js:123-136 | returns the first leaf with `start <= anchorOffset <= end`; `None` exactly when no leaf has that |
| `LeafLocator.FindSelectionBoundsConcat` | index.js:126-133 | the search scans in order, so a hit in a prefix shadows later leaves |
| `LeafLocator.LeafUnderCursor` | index.js:217-223 | a found leaf contains the cursor and is one of the located leaves of the anchor block |
| `LeafLocator.LeafUnderCursorFound` | index.js:217-223 | a leaf is found exactly when a registered key of the anchor block names a tree leaf containing the cursor; the found leaf is such a leaf |
| `LeafLocator.DuplicateDoesNotChangeFirstMatch` | index.js:105-136 | mounting an already registered key again does not change the leaf found under the cursor |
| `Mentions.QueryEnd` | index.js:239 | with `queryUntilCursor` the end is the smaller of the leaf's end and the cursor; otherwise it is the leaf's end |
| `Mentions.ExtractQuery` | index.js:236-243 | for a leaf within the text that contains the cursor: `text[start..anchorOffset]` when `queryUntilCursor` is set, `text[start..end]` otherwise |
| `Mentions.ExtractQueryAtLeafEnd` | index.js:236-243 | with the cursor at the leaf's end, both policies agree |
| `Mentions.ExtractQueryPrefix` | index.js:236-243 | the query cut at the cursor is a prefix of the whole-leaf query |
| `Mentions.TrimToLastAt` | index.js:245-260 | the published query is a suffix of the raw query; without `@` it is the raw query; with `@` it starts with `@` and has no further `@` |
| `Mentions.TrimToLastAtIdempotent` | index.js:245-260 | trimming the published query again changes nothing |
| `Mentions.MeasureOffsetIsQueryStart` | index.js:245-250 | the rectangle is measured from where the published query begins, or from -1 (the range is not narrowed) when there is no `@` |
| `Mentions.QueryBeforeSigil` | index.js:236-260 | with the query cut at a cursor on or before the `@`, which the pattern of index.js:291 puts first in the leaf or after one captured character, the published query is the text from the leaf start to the cursor: at most one character and no `@` |
| `Mentions.SelectionActive` | index.js:209-212 | vocabulary for the guard: collapsed and focused (its ensures only spells the selection out; the guard's effect is stated by `CalculateAndSetState`) |
| `Mentions.InlineMentions.constructor` | index.js:174-187 | initially hidden at (-9999, -9999) with an empty query |
| `Mentions.InlineMentions.ResetState` | index.js:197-203 | the reset state: hidden, off-screen, with an empty query |
| `Mentions.InlineMentions.PublishLeaf` | index.js:234-262 | reset state when the oracle yields no rectangle for the last `@` offset of the query; otherwise visible at `(rect.bottom, rect.left)` with the query trimmed to its last `@` |
| `Mentions.InlineMentions.CalculateAndSetState` | index.js:205-263 | reset state unless the selection is collapsed and focused, a leaf contains the cursor, and the oracle yields a rectangle; otherwise visible at `(rect.bottom, rect.left)` with the trimmed query |
| `Suggestions.WithoutAt` | index.js:165-171 | without `@` the string is unchanged; otherwise the result is what follows the first `@` |
| `Suggestions.WithoutAtRoundTrip` | index.js:165-171 | stripping `@` from `"@" + q` gives back `q` |
| `Suggestions.StrippedQueryHasNoAt` | index.js:373 | the value passed to the provider, `withoutAt` of a published query, never contains `@` |
| `Suggestions.MatchingFruits` | index.js:155-157 | exactly the `FRUITS` entries whose lower-cased form includes the value, as a subsequence of `FRUITS` (original order) |
| `Suggestions.MatchingFruitsCounts` | index.js:155-157 | a matching entry is offered as often as it is listed; a non-matching one never |
| `Suggestions.FruitsOnReceiveProps` | index.js:146-160 | nothing is filtered or reported when the value is unchanged; otherwise the filtered list is reported |
| `Suggestions.MatchingFruitsEmpty` | index.js:155-157 | an empty value offers every fruit, in order |
| `Suggestions.UpperCaseNotIncluded` | index.js:156 | a lower-cased string includes no needle with an upper-case letter |
| `Suggestions.MatchingFruitsUpperCase` | index.js:155-157 | a value with an upper-case letter offers nothing, because only the entries are lower-cased |
| `Scenarios.CursorInsideAndOutsideLeaf` | index.js:123-136 | in "hello @wor world", offset 8 finds leaf `[5, 10]` and offset 11 finds nothing |
| `Scenarios.QueryPolicies` | index.js:236-260 | leaf `[5, 12]` with the cursor at 9 gives "@wo" until the cursor and "@world" otherwise |
| `Scenarios.CursorBeforeSigil` | index.js:236-260 | with the query cut at the cursor, a cursor before the `@` of "hi @ap" publishes "" or " ", and of "hi\n@ap" publishes "\n" |
| `Scenarios.TypingApp` | index.js:138-157 | the value "app" offers Apple, then Pineapple |
| `Scenarios.MountTwice` | index.js:27-29 | two `PutOffsetKey` calls with one key add two copies of it; the result is not the list with one copy appended |
| `Scenarios.TypingHiAp` | index.js:205-263 | for "hi @ap" with leaf `[2, 6]` and the cursor at 6 the overlay is visible with query "@ap" at the measured position; with the cursor at 1 it is reset |

## Left out

- `computeStartRangeRectBounds` reads the browser selection, clones a DOM range and measures floating-point rectangles. It is modelled only as the `measure` oracle, which returns an optional integer rectangle.
- `DraftOffsetKey.decode` is a library function and is not part of this model. It is the `decode` parameter, and no encode/decode round trip is claimed.
- `findWithRegex`, `CompositeDecorator` and `MENTION_SPAN_REGEX` belong to the external decoration engine. Leaves are taken as given, and nothing assumes their text contains `@`.
- React scheduling is not modelled: the `setState` deferral in `componentWillReceiveProps` and prop updates. `calculateAndSetState` is modelled as one synchronous call made after the registry and block trees have settled.
- Rendering is not modelled: `DidMountWillUnmount`, the `MentionSpan` mount/unmount wiring (mount calls `PutOffsetKey`, unmount calls `DelOffsetKey`), portals, render functions and `ReactDOM.render`.
- `console.log` and the styling components (`OurSuggestionBox`, `FruitEntry`, `ExperimentalEditor`, `DraftExperimental`) are presentation only.
- JsString.ToLowerAscii: lower-cases ASCII letters only, not the full Unicode mapping of `toLowerCase`.
- Strings are sequences of `char`, not UTF-16 code units, so offsets count characters. A NaN `substring` bound is not modelled.
- Mentions.InlineMentions.CalculateAndSetState: requires that the anchor block exists in the content whenever a leaf is found, the only path that reads it. draft-js guarantees this, and the source would throw on `getText` of a missing block.
- LeafLocator.FindOffsetKeysLeaves: a block tree missing for the anchor block is treated as a tree without entries. In the source, `getBlockTree` of a missing block would throw, but draft-js always has a tree for the anchor block.
