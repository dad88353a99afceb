/**
 * An insertion-ordered dictionary with string keys, as Python's `dict` is: a sequence of
 * (key, value) entries. Assigning to a key already present replaces its value
 * in place and keeps its position; a new key goes at the end.
 */
module Dict {
  import opened Wrappers

  function Keys<V>(entries: seq<(string, V)>): (r: seq<string>)
    ensures |r| == |entries|
    ensures forall i :: 0 <= i < |entries| ==> r[i] == entries[i].0
  {
    if entries == [] then [] else [entries[0].0] + Keys(entries[1..])
  }

  predicate KeysDistinct<V>(entries: seq<(string, V)>) {
    forall i, j :: 0 <= i < j < |entries| ==> entries[i].0 != entries[j].0
  }

  /** Dict lookup: the value stored under key, if any. */
  function Lookup<V>(entries: seq<(string, V)>, key: string): (r: Option<V>)
    ensures r.None? <==> key !in Keys(entries)
  {
    if entries == [] then None
    else if entries[0].0 == key then Some(entries[0].1)
    else
      var r := Lookup(entries[1..], key);
      assert Keys(entries) == [entries[0].0] + Keys(entries[1..]);
      r
  }

  /**
   * Item assignment: the key order is kept (a new key is appended), the key
   * now maps to value, and every other key maps to what it did before.
   */
  function Put<V>(entries: seq<(string, V)>, key: string, value: V): (r: seq<(string, V)>)
    ensures Keys(r) == if key in Keys(entries) then Keys(entries) else Keys(entries) + [key]
    ensures Lookup(r, key) == Some(value)
    ensures forall k :: k != key ==> Lookup(r, k) == Lookup(entries, k)
  {
    if entries == [] then [(key, value)]
    else if entries[0].0 == key then [(key, value)] + entries[1..]
    else
      var r := [entries[0]] + Put(entries[1..], key, value);
      assert Keys(entries) == [entries[0].0] + Keys(entries[1..]);
      assert Keys(r) == [entries[0].0] + Keys(entries[1..]) || Keys(r) == [entries[0].0] + Keys(entries[1..]) + [key];
      r
  }

  /** Assigning to a key not yet present appends one entry at the end. */
  lemma {:induction false} PutNewKey<V>(entries: seq<(string, V)>, key: string, value: V)
    requires key !in Keys(entries)
    ensures Put(entries, key, value) == entries + [(key, value)]
  {
    if entries != [] {
      var rest := entries[1..];
      assert entries[0].0 == Keys(entries)[0];
      assert Keys(rest) == Keys(entries)[1..];
      assert Put(entries, key, value) == [entries[0]] + Put(rest, key, value);
      PutNewKey(rest, key, value);
      assert [entries[0]] + (rest + [(key, value)]) == entries + [(key, value)];
    }
  }

  /** Assigning to a present key leaves every entry under another key where and as it was. */
  lemma {:induction false} PutKeepsOthers<V>(entries: seq<(string, V)>, key: string, value: V, i: nat)
    requires i < |entries| && entries[i].0 != key
    ensures i < |Put(entries, key, value)| && Put(entries, key, value)[i] == entries[i]
  {
    if i > 0 && entries[0].0 != key {
      PutKeepsOthers(entries[1..], key, value, i - 1);
    }
  }

  /** In a dictionary with distinct keys, each entry is what its own key looks up. */
  lemma {:induction false} LookupAt<V>(entries: seq<(string, V)>, i: nat)
    requires KeysDistinct(entries) && i < |entries|
    ensures Lookup(entries, entries[i].0) == Some(entries[i].1)
  {
    if i > 0 {
      LookupAt(entries[1..], i - 1);
    }
  }

  /** The position of the last occurrence of x in xs; -1 if none. */
  function LastIndex<T(==)>(xs: seq<T>, x: T): (r: int)
    ensures -1 <= r < |xs|
    ensures r >= 0 ==> xs[r] == x
    ensures forall j :: r < j < |xs| ==> xs[j] != x
  {
    if xs == [] then -1
    else if xs[|xs| - 1] == x then |xs| - 1
    else LastIndex(xs[..|xs| - 1], x)
  }

  /** The dict obtained by assigning the entries one after another, starting from `{}`. */
  function PutAll<V>(entries: seq<(string, V)>): seq<(string, V)> {
    if entries == [] then []
    else
      var last := entries[|entries| - 1];
      Put(PutAll(entries[..|entries| - 1]), last.0, last.1)
  }

  /** Assigning one more entry after a series of assignments. */
  lemma PutAllSnoc<V>(entries: seq<(string, V)>, last: (string, V))
    ensures PutAll(entries + [last]) == Put(PutAll(entries), last.0, last.1)
  {
    assert (entries + [last])[..|entries|] == entries;
  }

  /** Assigning in order leaves each key with the value of its last assignment. */
  lemma {:induction false} PutAllLookup<V>(entries: seq<(string, V)>, key: string)
    ensures Lookup(PutAll(entries), key) ==
      if LastIndex(Keys(entries), key) < 0 then None else Some(entries[LastIndex(Keys(entries), key)].1)
  {
    if entries != [] {
      var init := entries[..|entries| - 1];
      PutAllLookup(init, key);
      assert Keys(entries)[..|entries| - 1] == Keys(init);
    }
  }

  /** Assigning in order never stores a key twice. */
  lemma {:induction false} PutAllKeysDistinct<V>(entries: seq<(string, V)>)
    ensures KeysDistinct(PutAll(entries))
  {
    if entries != [] {
      var init := entries[..|entries| - 1];
      var last := entries[|entries| - 1];
      PutAllKeysDistinct(init);
      var before := PutAll(init);
      var after := Put(before, last.0, last.1);
      forall i, j | 0 <= i < j < |after|
        ensures after[i].0 != after[j].0
      {
        assert after[i].0 == Keys(after)[i] && after[j].0 == Keys(after)[j];
        if j < |before| {
          assert Keys(before)[i] == before[i].0 && Keys(before)[j] == before[j].0;
        }
      }
    }
  }

  /** When no key repeats, assigning in order overwrites nothing and keeps the entries as given. */
  lemma {:induction false} PutAllDistinct<V>(entries: seq<(string, V)>)
    requires KeysDistinct(entries)
    ensures PutAll(entries) == entries
  {
    if entries != [] {
      var init := entries[..|entries| - 1];
      var last := entries[|entries| - 1];
      assert KeysDistinct(init);
      PutAllDistinct(init);
      assert last.0 !in Keys(init) by {
        forall i | 0 <= i < |init| ensures Keys(init)[i] != last.0 {
          assert init[i] == entries[i];
        }
      }
      PutNewKey(init, last.0, last.1);
      assert init + [last] == entries;
    }
  }

  /** The distinct elements of xs, each at the place where it first occurs. */
  function FirstOccurrences(xs: seq<string>): seq<string> {
    if xs == [] then []
    else if xs[|xs| - 1] in xs[..|xs| - 1] then FirstOccurrences(xs[..|xs| - 1])
    else FirstOccurrences(xs[..|xs| - 1]) + [xs[|xs| - 1]]
  }

  /** The first occurrences hold every element of xs once and nothing else. */
  lemma {:induction false} FirstOccurrencesSpec(xs: seq<string>)
    ensures forall x :: x in FirstOccurrences(xs) <==> x in xs
    ensures forall i, j :: 0 <= i < j < |FirstOccurrences(xs)| ==> FirstOccurrences(xs)[i] != FirstOccurrences(xs)[j]
  {
    if xs != [] {
      var init := xs[..|xs| - 1];
      FirstOccurrencesSpec(init);
      assert xs == init + [xs[|xs| - 1]];
    }
  }

  /**
   * Assigning in order leaves the keys in the order of their first
   * assignment: a reassigned key keeps the position it got first.
   */
  lemma {:induction false} PutAllKeyOrder<V>(entries: seq<(string, V)>)
    ensures Keys(PutAll(entries)) == FirstOccurrences(Keys(entries))
  {
    if entries != [] {
      var init := entries[..|entries| - 1];
      var last := entries[|entries| - 1];
      PutAllKeyOrder(init);
      FirstOccurrencesSpec(Keys(init));
      assert Keys(entries)[..|entries| - 1] == Keys(init);
    }
  }
}
