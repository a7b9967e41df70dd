/**
 * Finding the decorated leaf under the cursor. Registered offset keys are
 * decoded, restricted to the cursor's block, looked up in that block's
 * decoration tree (misses are dropped), and the first leaf whose bounds
 * contain the anchor offset is chosen.
 */
module LeafLocator {
  import opened Wrappers
  import opened Seqs

  type BlockKey = string

  /** The structured form of an offset key: block, decorator pass, leaf. */
  datatype DecodedKey = DecodedKey(blockKey: BlockKey, decoratorKey: int, leafKey: int)

  /** The character bounds of one decorated leaf within its block's text. */
  datatype Leaf = Leaf(start: int, end: int)

  /**
   * The editor's block trees, flattened: `getBlockTree(b).getIn([d, "leaves", l])`
   * is the entry at `DecodedKey(b, d, l)`, if any.
   */
  type BlockTree = map<DecodedKey, Leaf>

  /** A draft selection: anchor and focus positions and whether the editor has focus. */
  datatype Selection = Selection(
    anchorKey: BlockKey, anchorOffset: int,
    focusKey: BlockKey, focusOffset: int,
    hasFocus: bool)

  /** `SelectionState.isCollapsed()`: anchor and focus coincide, so the selection is a bare cursor. */
  predicate IsCollapsed(sel: Selection)
    ensures IsCollapsed(sel) <==>
      sel == Selection(sel.anchorKey, sel.anchorOffset, sel.anchorKey, sel.anchorOffset, sel.hasFocus)
  {
    sel.anchorKey == sel.focusKey && sel.anchorOffset == sel.focusOffset
  }

  /** The leaf's bounds contain the offset, both ends inclusive. */
  predicate Within(leaf: Leaf, offset: int) {
    leaf.start <= offset <= leaf.end
  }

  /** The `getIn` lookup: `undefined` becomes `None`. */
  function LookupLeaf(tree: BlockTree, key: DecodedKey): (r: Option<Leaf>)
    ensures r.Some? <==> key in tree
    ensures r.Some? ==> r.value == tree[key]
  {
    if key in tree then Some(tree[key]) else None
  }

  /** `findOffsetKeysLeaves`: filter by the anchor block, map to lookups, drop the misses. */
  function FindOffsetKeysLeaves(tree: BlockTree, anchorKey: BlockKey, keys: seq<DecodedKey>): (r: seq<Leaf>)
    ensures |r| <= |keys|
  {
    var inBlock := Filter(keys, (k: DecodedKey) => k.blockKey == anchorKey);
    Somes(MapSeq(inBlock, (k: DecodedKey) => LookupLeaf(tree, k)))
  }

  /** What one decoded key contributes to the result. */
  function LeafOfKey(tree: BlockTree, anchorKey: BlockKey, key: DecodedKey): (r: seq<Leaf>)
    ensures |r| <= 1
  {
    if key.blockKey == anchorKey && key in tree then [tree[key]] else []
  }

  /** The pipeline works key by key, so the result follows the order of the keys. */
  lemma FindOffsetKeysLeavesConcat(tree: BlockTree, anchorKey: BlockKey, a: seq<DecodedKey>, b: seq<DecodedKey>)
    ensures FindOffsetKeysLeaves(tree, anchorKey, a + b)
         == FindOffsetKeysLeaves(tree, anchorKey, a) + FindOffsetKeysLeaves(tree, anchorKey, b)
  {
    var p := (k: DecodedKey) => k.blockKey == anchorKey;
    var f := (k: DecodedKey) => LookupLeaf(tree, k);
    FilterConcat(a, b, p);
    MapSeqConcat(Filter(a, p), Filter(b, p), f);
    SomesConcat(MapSeq(Filter(a, p), f), MapSeq(Filter(b, p), f));
  }

  /** A single key contributes its leaf exactly when it is in the anchor block and in the tree. */
  lemma FindOffsetKeysLeavesSingle(tree: BlockTree, anchorKey: BlockKey, key: DecodedKey)
    ensures FindOffsetKeysLeaves(tree, anchorKey, [key]) == LeafOfKey(tree, anchorKey, key)
  {
  }

  /** Peeling off the first key. */
  lemma FindOffsetKeysLeavesCons(tree: BlockTree, anchorKey: BlockKey, keys: seq<DecodedKey>)
    requires keys != []
    ensures FindOffsetKeysLeaves(tree, anchorKey, keys)
         == LeafOfKey(tree, anchorKey, keys[0]) + FindOffsetKeysLeaves(tree, anchorKey, keys[1..])
  {
  }

  /**
   * Every leaf returned comes from a key of the anchor block that the tree
   * knows, and every such key's leaf is returned.
   */
  lemma FindOffsetKeysLeavesMembership(tree: BlockTree, anchorKey: BlockKey, keys: seq<DecodedKey>, leaf: Leaf)
    ensures leaf in FindOffsetKeysLeaves(tree, anchorKey, keys)
        <==> exists k :: k in keys && k.blockKey == anchorKey && k in tree && tree[k] == leaf
  {
  }

  /** Only the anchor block's entries of the tree are ever consulted. */
  lemma {:induction false} FindOffsetKeysLeavesLocal(tree: BlockTree, tree': BlockTree, anchorKey: BlockKey, keys: seq<DecodedKey>)
    requires forall k: DecodedKey :: k.blockKey == anchorKey ==> (k in tree <==> k in tree')
    requires forall k: DecodedKey :: k.blockKey == anchorKey && k in tree ==> tree[k] == tree'[k]
    ensures FindOffsetKeysLeaves(tree, anchorKey, keys) == FindOffsetKeysLeaves(tree', anchorKey, keys)
  {
    if keys != [] {
      FindOffsetKeysLeavesCons(tree, anchorKey, keys);
      FindOffsetKeysLeavesCons(tree', anchorKey, keys);
      FindOffsetKeysLeavesLocal(tree, tree', anchorKey, keys[1..]);
    }
  }

  /** Position `i` holds the first leaf of `leaves` that contains `offset`. */
  predicate IsFirstWithin(leaves: seq<Leaf>, offset: int, i: int) {
    0 <= i < |leaves| && Within(leaves[i], offset)
    && forall j :: 0 <= j < i ==> !Within(leaves[j], offset)
  }

  /** `findSelectionBoundsWithinLeaves`: the first leaf containing the anchor offset, or `null`. */
  function FindSelectionBoundsWithinLeaves(anchorOffset: int, leaves: seq<Leaf>): (r: Option<Leaf>)
    ensures r.None? <==> forall i :: 0 <= i < |leaves| ==> !Within(leaves[i], anchorOffset)
    ensures r.Some? ==> exists i :: IsFirstWithin(leaves, anchorOffset, i) && leaves[i] == r.value
  {
    if leaves == [] then None
    else if Within(leaves[0], anchorOffset) then
      assert IsFirstWithin(leaves, anchorOffset, 0);
      Some(leaves[0])
    else
      var r := FindSelectionBoundsWithinLeaves(anchorOffset, leaves[1..]);
      assert r.Some? ==> exists i :: IsFirstWithin(leaves, anchorOffset, i) && leaves[i] == r.value by {
        if r.Some? {
          var i :| IsFirstWithin(leaves[1..], anchorOffset, i) && leaves[1..][i] == r.value;
          assert IsFirstWithin(leaves, anchorOffset, i + 1);
        }
      }
      r
  }

  /** The search scans the leaves in order: a hit in a prefix shadows the rest. */
  lemma {:induction false} FindSelectionBoundsConcat(anchorOffset: int, a: seq<Leaf>, b: seq<Leaf>)
    ensures FindSelectionBoundsWithinLeaves(anchorOffset, a + b)
         == if FindSelectionBoundsWithinLeaves(anchorOffset, a).Some?
            then FindSelectionBoundsWithinLeaves(anchorOffset, a)
            else FindSelectionBoundsWithinLeaves(anchorOffset, b)
  {
    if a == [] {
      assert a + b == b;
    } else {
      assert (a + b)[1..] == a[1..] + b;
      FindSelectionBoundsConcat(anchorOffset, a[1..], b);
    }
  }

  /** The leaf found under the cursor, or `None`, before any selection guard. */
  function LeafUnderCursor(tree: BlockTree, sel: Selection, keys: seq<DecodedKey>): (r: Option<Leaf>)
    ensures r.Some? ==> Within(r.value, sel.anchorOffset)
    ensures r.Some? ==> r.value in FindOffsetKeysLeaves(tree, sel.anchorKey, keys)
  {
    FindSelectionBoundsWithinLeaves(sel.anchorOffset, FindOffsetKeysLeaves(tree, sel.anchorKey, keys))
  }

  /**
   * A leaf is found exactly when some registered key of the anchor block
   * names a leaf of the tree that contains the anchor offset.
   */
  lemma LeafUnderCursorFound(tree: BlockTree, sel: Selection, keys: seq<DecodedKey>)
    ensures LeafUnderCursor(tree, sel, keys).Some?
        <==> exists k :: k in keys && k.blockKey == sel.anchorKey && k in tree && Within(tree[k], sel.anchorOffset)
    ensures LeafUnderCursor(tree, sel, keys).Some? ==>
      var leaf := LeafUnderCursor(tree, sel, keys).value;
      Within(leaf, sel.anchorOffset)
      && exists k :: k in keys && k.blockKey == sel.anchorKey && k in tree && tree[k] == leaf
  {
  }

  /**
   * Mounting a registered key again repeats its leaf at the end of the
   * located list, which the first-match search never reaches ahead of the
   * earlier copy: the leaf under the cursor stays the same.
   */
  lemma DuplicateDoesNotChangeFirstMatch(tree: BlockTree, sel: Selection, keys: seq<DecodedKey>, k: DecodedKey)
    requires k in keys
    ensures LeafUnderCursor(tree, sel, keys + [k]) == LeafUnderCursor(tree, sel, keys)
  {
    var leaves := FindOffsetKeysLeaves(tree, sel.anchorKey, keys);
    FindOffsetKeysLeavesConcat(tree, sel.anchorKey, keys, [k]);
    FindOffsetKeysLeavesSingle(tree, sel.anchorKey, k);
    FindSelectionBoundsConcat(sel.anchorOffset, leaves, LeafOfKey(tree, sel.anchorKey, k));
    if k.blockKey == sel.anchorKey && k in tree {
      FindOffsetKeysLeavesMembership(tree, sel.anchorKey, keys, tree[k]);
    }
  }
}
