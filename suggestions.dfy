/**
 * The demo's suggestion side: the query with its sigil stripped, and the
 * fruit list filtered by it whenever the value handed to the provider
 * changes.
 */
module Suggestions {
  import opened Wrappers
  import opened Seqs
  import opened JsString
  import opened Mentions

  /** `withoutAt`: the text after the first `@`, or the whole string when there is none. */
  function WithoutAt(s: string): (r: string)
    ensures AT !in s ==> r == s
    ensures AT in s ==>
      |r| < |s| && s[|s| - |r| - 1] == AT && r == s[|s| - |r|..] && AT !in s[..|s| - |r| - 1]
  {
    var atIndex := IndexOf(s, AT);
    if atIndex >= 0 then
      assert Substring(s, atIndex + 1, |s|) == s[atIndex + 1..];
      Substring(s, atIndex + 1, |s|)
    else s
  }

  /** Stripping the sigil from a query that starts with it gives back the rest. */
  lemma WithoutAtRoundTrip(q: string)
    ensures WithoutAt([AT] + q) == q
  {
  }

  /** The candidate list `FRUITS`. */
  const FRUITS: seq<string> := ["Apple", "Orange", "Banana", "Pineapple"]

  /** The candidate test: the lower-cased entry contains the value as typed. */
  predicate FruitMatches(value: string, fruit: string) {
    Includes(ToLowerAscii(fruit), value)
  }

  /** `FRUITS.filter(f => f.toLowerCase().includes(value))`. */
  function MatchingFruits(value: string): (r: seq<string>)
    ensures |r| <= |FRUITS|
    ensures forall i :: 0 <= i < |r| ==> r[i] in FRUITS && FruitMatches(value, r[i])
    ensures forall i :: 0 <= i < |FRUITS| && FruitMatches(value, FRUITS[i]) ==> FRUITS[i] in r
    ensures IsSubsequence(r, FRUITS)
  {
    Filter(FRUITS, (f: string) => FruitMatches(value, f))
  }

  /** Each matching fruit is offered as often as it is listed; the others not at all. */
  lemma MatchingFruitsCounts(value: string, fruit: string)
    ensures multiset(MatchingFruits(value))[fruit]
         == if FruitMatches(value, fruit) then multiset(FRUITS)[fruit] else 0
  {
    FilterMultiset(FRUITS, (f: string) => FruitMatches(value, f), fruit);
  }

  /**
   * `FruitsProvider.componentWillReceiveProps`: `None` when the value is the
   * one already held (nothing is filtered and `onChange` is not called),
   * otherwise the list handed to `onChange`.
   */
  function FruitsOnReceiveProps(currentValue: string, nextValue: string): (r: Option<seq<string>>)
    ensures r.None? <==> currentValue == nextValue
    ensures r.Some? ==> r.value == MatchingFruits(nextValue)
  {
    if currentValue == nextValue then None else Some(MatchingFruits(nextValue))
  }

  /** An empty value offers every fruit, in order. */
  lemma MatchingFruitsEmpty()
    ensures MatchingFruits("") == FRUITS
  {
    forall i | 0 <= i < |FRUITS| ensures FruitMatches("", FRUITS[i]) {
      IncludesEmpty(ToLowerAscii(FRUITS[i]));
    }
    FilterKeepsAll(FRUITS, (f: string) => FruitMatches("", f));
  }

  /** A lower-cased string contains no needle that holds an upper-case letter. */
  lemma UpperCaseNotIncluded(hay: string, needle: string, k: int)
    requires 0 <= k < |needle| && IsUpperAscii(needle[k])
    ensures !Includes(ToLowerAscii(hay), needle)
  {
  }

  /**
   * Only the entries are lower-cased, not the value: a value holding an
   * upper-case letter offers nothing.
   */
  lemma MatchingFruitsUpperCase(value: string, k: int)
    requires 0 <= k < |value| && IsUpperAscii(value[k])
    ensures MatchingFruits(value) == []
  {
    forall f ensures !FruitMatches(value, f) {
      UpperCaseNotIncluded(f, value, k);
    }
  }

  /** The published query handed on through `withoutAt` never holds an `@`. */
  lemma StrippedQueryHasNoAt(q: string)
    ensures AT !in WithoutAt(TrimToLastAt(q))
  {
  }
}
