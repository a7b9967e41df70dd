/**
 * The registry of mounted mention spans. Every decorated span puts its
 * offset key in when it mounts and takes it out when it unmounts. The
 * registry is a plain list: a put appends even a key that is already
 * there, and a delete removes every copy of the key.
 */
module OffsetBag {
  import opened Seqs

  /** An encoded draft offset key, such as "abc12-0-0". */
  type OffsetKey = string

  /** `keys.filter(k => k !== key)`. */
  function Without(keys: seq<OffsetKey>, key: OffsetKey): (r: seq<OffsetKey>)
    ensures key !in r
    ensures forall i :: 0 <= i < |r| ==> r[i] in keys
    ensures forall i :: 0 <= i < |keys| && keys[i] != key ==> keys[i] in r
  {
    Filter(keys, k => k != key)
  }

  /** Deleting keeps every other key the number of times it was there. */
  lemma WithoutCounts(keys: seq<OffsetKey>, key: OffsetKey)
    ensures multiset(Without(keys, key)) == multiset(keys)[key := 0]
  {
    var r := Without(keys, key);
    forall x ensures multiset(r)[x] == multiset(keys)[key := 0][x] {
      FilterMultiset(keys, k => k != key, x);
    }
  }

  /** Deleting a key that is not there changes nothing. */
  lemma WithoutAbsent(keys: seq<OffsetKey>, key: OffsetKey)
    requires key !in keys
    ensures Without(keys, key) == keys
  {
    FilterKeepsAll(keys, k => k != key);
  }

  /** Deleting one key keeps the rest in order: it commutes with concatenation. */
  lemma WithoutConcat(a: seq<OffsetKey>, b: seq<OffsetKey>, key: OffsetKey)
    ensures Without(a + b, key) == Without(a, key) + Without(b, key)
  {
    FilterConcat(a, b, k => k != key);
  }

  /** A second delete of the same key is a no-op. */
  lemma WithoutIdempotent(keys: seq<OffsetKey>, key: OffsetKey)
    ensures Without(Without(keys, key), key) == Without(keys, key)
  {
    WithoutAbsent(Without(keys, key), key);
  }

  /** Unmounting a key right after mounting it removes every earlier copy too. */
  lemma DelAfterPut(keys: seq<OffsetKey>, key: OffsetKey)
    ensures Without(keys + [key], key) == Without(keys, key)
  {
    WithoutConcat(keys, [key], key);
    assert Without([key], key) == [];
  }

  /** Unmounting some other key leaves a freshly mounted one at the end. */
  lemma DelOtherAfterPut(keys: seq<OffsetKey>, key: OffsetKey, other: OffsetKey)
    requires other != key
    ensures Without(keys + [key], other) == Without(keys, other) + [key]
  {
    WithoutConcat(keys, [key], other);
    assert Without([key], other) == [key];
  }

  /** The process-wide `MentionSpanOffsetBag` object with its `offsetKeys` list. */
  class MentionSpanOffsetBag {
    var offsetKeys: seq<OffsetKey>

    constructor ()
      ensures offsetKeys == []
    {
      offsetKeys := [];
    }

    /** Called when a `MentionSpan` mounts. */
    method PutOffsetKey(offsetKey: OffsetKey)
      modifies this
      ensures offsetKeys == old(offsetKeys) + [offsetKey]
      ensures |offsetKeys| == |old(offsetKeys)| + 1
    {
      offsetKeys := offsetKeys + [offsetKey];
    }

    /** Called when a `MentionSpan` unmounts. */
    method DelOffsetKey(offsetKey: OffsetKey)
      modifies this
      ensures offsetKeys == Without(old(offsetKeys), offsetKey)
      ensures offsetKey !in offsetKeys
      ensures offsetKey !in old(offsetKeys) ==> offsetKeys == old(offsetKeys)
    {
      if offsetKey !in offsetKeys {
        WithoutAbsent(offsetKeys, offsetKey);
      }
      offsetKeys := Without(offsetKeys, offsetKey);
    }

    method GetOffsetKeys() returns (keys: seq<OffsetKey>)
      ensures keys == offsetKeys
    {
      keys := offsetKeys;
    }
  }
}
