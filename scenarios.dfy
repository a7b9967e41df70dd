/**
 * Worked cases of the mention core on concrete editor states: a cursor
 * inside or outside a leaf, the two query policies, the overlay for
 * "hi @ap", and what the fruit filter offers.
 */
module Scenarios {
  import opened Wrappers
  import opened Seqs
  import opened JsString
  import opened OffsetBag
  import opened LeafLocator
  import opened Mentions
  import opened Suggestions

  /** In "hello @wor world" the leaf " @wor" spans [5, 10]: offset 8 finds it, 11 does not. */
  lemma CursorInsideAndOutsideLeaf()
    ensures FindSelectionBoundsWithinLeaves(8, [Leaf(5, 10)]) == Some(Leaf(5, 10))
    ensures FindSelectionBoundsWithinLeaves(11, [Leaf(5, 10)]) == None
  {
  }

  /** Leaf " @world" at [5, 12] of "hello @world": until the cursor at 9 the query is "@wo", else "@world". */
  lemma QueryPolicies()
    ensures TrimToLastAt(ExtractQuery("hello @world", Leaf(5, 12), 9, true)) == "@wo"
    ensures TrimToLastAt(ExtractQuery("hello @world", Leaf(5, 12), 9, false)) == "@world"
  {
    assert "hello @world"[5..9] == " @wo";
    assert "hello @world"[5..12] == " @world";
    assert LastIndexOf(" @wo", AT) == 1;
    assert LastIndexOf(" @world", AT) == 1;
  }

  /**
   * With the query cut at the cursor, a cursor placed before the sigil
   * yields a query without `@`: the empty string at the start of the leaf,
   * or the whitespace character the pattern captured before the `@`.
   */
  lemma CursorBeforeSigil()
    ensures TrimToLastAt(ExtractQuery("hi @ap", Leaf(2, 6), 2, true)) == ""
    ensures TrimToLastAt(ExtractQuery("hi @ap", Leaf(2, 6), 3, true)) == " "
    ensures TrimToLastAt(ExtractQuery("hi\n@ap", Leaf(2, 6), 3, true)) == "\n"
  {
    assert "hi @ap"[2..3] == " ";
    assert "hi\n@ap"[2..3] == "\n";
  }

  lemma AppleMatches()
    ensures FruitMatches("app", "Apple") && FruitMatches("app", "Pineapple")
  {
    assert ToLowerAscii("Apple") == "apple";
    assert OccursAt("apple", "app", 0);
    assert ToLowerAscii("Pineapple") == "pineapple";
    assert OccursAt("pineapple", "app", 4);
  }

  lemma OrangeBananaDoNotMatch()
    ensures !FruitMatches("app", "Orange") && !FruitMatches("app", "Banana")
  {
    assert ToLowerAscii("Orange") == "orange";
    assert ToLowerAscii("Banana") == "banana";
    MissingCharNotIncluded("orange", "app", 1);
    MissingCharNotIncluded("banana", "app", 1);
  }

  /** Typing "app" offers Apple and Pineapple, in that order. */
  lemma TypingApp()
    ensures MatchingFruits("app") == ["Apple", "Pineapple"]
  {
    AppleMatches();
    OrangeBananaDoNotMatch();
    var p := (f: string) => FruitMatches("app", f);
    var tail1 := ["Orange", "Banana", "Pineapple"];
    var tail2 := ["Banana", "Pineapple"];
    var tail3 := ["Pineapple"];
    assert FRUITS[1..] == tail1 && tail1[1..] == tail2 && tail2[1..] == tail3 && tail3[1..] == [];
    assert Filter(tail3, p) == ["Pineapple"];
    assert Filter(tail2, p) == ["Pineapple"];
    assert Filter(tail1, p) == ["Pineapple"];
    assert Filter(FRUITS, p) == ["Apple"] + ["Pineapple"];
  }

  /**
   * Mounting one span twice leaves two copies of its key: a put is not
   * idempotent, whether or not the key was there already.
   */
  method MountTwice(bag: MentionSpanOffsetBag, key: OffsetKey)
    modifies bag
    ensures multiset(bag.offsetKeys)[key] == multiset(old(bag.offsetKeys))[key] + 2
    ensures |bag.offsetKeys| == |old(bag.offsetKeys)| + 2
    ensures bag.offsetKeys != old(bag.offsetKeys) + [key]
  {
    bag.PutOffsetKey(key);
    bag.PutOffsetKey(key);
  }

  /**
   * The end-to-end scenario (verified) for "hi @ap": one block "b" whose
   * leaf " @ap" is [2, 6], its span registered, the cursor at 6. The
   * overlay turns visible with query "@ap", measured from offset 1 of the
   * leaf. Moving the cursor to 1 hides it again.
   */
  method TypingHiAp() returns (shown: bool, query: string, top: int, left: int, hiddenAfter: bool)
    ensures shown && query == "@ap" && top == 120 && left == 41
    ensures hiddenAfter
  {
    var bag := new MentionSpanOffsetBag();
    bag.PutOffsetKey("b-0-0");
    var key := DecodedKey("b", 0, 0);
    var decode := (s: OffsetKey) => key;
    var measure := (offset: int) => Some(Rect(100, 40 + offset, 120, 80));
    var tree := map[key := Leaf(2, 6)];
    var atEnd := EditorState(Selection("b", 6, "b", 6, true), map["b" := "hi @ap"], tree);
    var overlay := new InlineMentions(true);
    assert MapSeq(bag.offsetKeys, decode) == [key];
    FindOffsetKeysLeavesSingle(tree, "b", key);
    assert "hi @ap"[2..6] == " @ap";
    assert LastIndexOf(" @ap", AT) == 1;
    overlay.CalculateAndSetState(atEnd, bag, decode, measure);
    shown, query, top, left := overlay.visible, overlay.mentionQuery, overlay.top, overlay.left;

    var inHi := EditorState(Selection("b", 1, "b", 1, true), map["b" := "hi @ap"], tree);
    overlay.CalculateAndSetState(inHi, bag, decode, measure);
    hiddenAfter := overlay.IsReset();
  }
}
