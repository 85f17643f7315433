/**
 * `SmartMergeHelper.merge(metadata1:metadata2:)`: the "first populated value
 * wins" merge of two image property dictionaries, recursing where both sides
 * hold a dictionary under the same key.
 */
module MetadataMerge {
  import opened Wrappers

  /**
   * A property value. The source's dictionaries hold `Any`; the values an
   * image properties dictionary can contain are strings, numbers, booleans,
   * nested dictionaries and arrays.
   */
  datatype Value =
    | Str(s: string)
    | Num(n: real)
    | Bool(b: bool)
    | Dict(entries: map<string, Value>)
    | List(items: seq<Value>)

  /** An image properties dictionary. */
  type Metadata = map<string, Value>

  /**
   * The source's test `"\(v)" == ""`: of all values only the empty string
   * renders as empty text (an empty array renders as "[]", an empty
   * dictionary as "[:]", a number or boolean never as nothing).
   */
  predicate RendersEmpty(v: Value) {
    v == Str("")
  }

  /** `m[k]` as a Swift optional. */
  function Lookup(m: Metadata, k: string): Option<Value> {
    if k in m then Some(m[k]) else None
  }

  /**
   * The value the merge leaves under a key of `metadata2`, given what
   * `metadata1` holds there (`existing`) and what `metadata2` holds there
   * (`incoming`).
   */
  function MergeValue(existing: Option<Value>, incoming: Value): Value
    decreases incoming, 1
  {
    if incoming.Dict? && existing.Some? && existing.value.Dict? then
      Dict(Merge(existing.value.entries, incoming.entries))
    else if existing.None? || RendersEmpty(existing.value) then
      incoming
    else
      existing.value
  }

  /**
   * Reference definition of the merge, key by key. Each key of `metadata2`
   * is visited once and only its own entry is read and written, so the
   * outcome does not depend on the order in which the keys are visited.
   */
  function Merge(m1: Metadata, m2: Metadata): Metadata
    decreases Dict(m2), 0
  {
    map k | k in m1.Keys + m2.Keys :: if k in m2 then MergeValue(Lookup(m1, k), m2[k]) else m1[k]
  }

  /**
   * `merge(metadata1:metadata2:)` as the source runs it: start from
   * `metadata1` and visit the keys of `metadata2` one at a time, in whatever
   * order the dictionary yields them.
   */
  method MergeMetadata(metadata1: Metadata, metadata2: Metadata) returns (merged: Metadata)
    ensures merged.Keys == metadata1.Keys + metadata2.Keys
    ensures merged == Merge(metadata1, metadata2)
    decreases Dict(metadata2), 0
  {
    merged := metadata1;
    var pending := metadata2.Keys;
    while pending != {}
      invariant pending <= metadata2.Keys
      invariant merged == MergedSoFar(metadata1, metadata2, metadata2.Keys - pending)
      decreases pending
    {
      var key :| key in pending;
      var value := metadata2[key];
      ghost var done := metadata2.Keys - pending;
      assert Lookup(merged, key) == Lookup(metadata1, key);
      var entry := MergeEntry(Lookup(merged, key), value);
      merged := merged[key := entry];
      MergedSoFarStep(metadata1, metadata2, done, key);
      pending := pending - {key};
      assert metadata2.Keys - pending == done + {key};
    }
  }

  /**
   * One step of the loop: the recursive merge where both sides hold a
   * dictionary, otherwise the incoming value when the existing one is missing
   * or empty, otherwise the existing value.
   */
  method MergeEntry(existing: Option<Value>, incoming: Value) returns (v: Value)
    ensures v == MergeValue(existing, incoming)
    decreases incoming, 1
  {
    if incoming.Dict? && existing.Some? && existing.value.Dict? {
      var sub := MergeMetadata(existing.value.entries, incoming.entries);
      v := Dict(sub);
    } else if existing.None? || RendersEmpty(existing.value) {
      v := incoming;
    } else {
      v := existing.value;
    }
  }

  /** The state of `merge`'s loop once the keys in `done` have been visited. */
  ghost function MergedSoFar(m1: Metadata, m2: Metadata, done: set<string>): Metadata {
    map k | k in m1.Keys + (done * m2.Keys) :: if k in done && k in m2 then MergeValue(Lookup(m1, k), m2[k]) else m1[k]
  }

  lemma MergedSoFarStep(m1: Metadata, m2: Metadata, done: set<string>, key: string)
    requires key in m2 && key !in done
    ensures MergedSoFar(m1, m2, done)[key := MergeValue(Lookup(m1, key), m2[key])] == MergedSoFar(m1, m2, done + {key})
  {
  }

  /** What the merge leaves under each key, case by case. */
  lemma MergeCases(m1: Metadata, m2: Metadata)
    ensures Merge(m1, m2).Keys == m1.Keys + m2.Keys
    ensures forall k :: k in m1 && k !in m2 ==> Merge(m1, m2)[k] == m1[k]
    ensures forall k :: k in m2 && k !in m1 ==> Merge(m1, m2)[k] == m2[k]
    ensures forall k :: k in m1 && k in m2 && m1[k].Dict? && m2[k].Dict? ==>
      Merge(m1, m2)[k] == Dict(Merge(m1[k].entries, m2[k].entries))
    ensures forall k :: k in m1 && RendersEmpty(m1[k]) && k in m2 ==> Merge(m1, m2)[k] == m2[k]
  {
    MergeKeepsPopulated(m1, m2);
  }

  /**
   * A populated value of `m1` is kept unless both sides hold a dictionary
   * under its key, and every key of `m1` stays.
   */
  lemma MergeKeepsPopulated(m1: Metadata, m2: Metadata)
    ensures forall k :: k in m1 ==> k in Merge(m1, m2)
    ensures forall k ::
      (k in m1 && !RendersEmpty(m1[k]) && !(m1[k].Dict? && k in m2 && m2[k].Dict?)) ==>
        Merge(m1, m2)[k] == m1[k]
  {
  }

  /** Merging in an empty dictionary changes nothing. */
  lemma MergeEmptyRight(m: Metadata)
    ensures Merge(m, map[]) == m
  {
  }

  /** Merging into an empty dictionary copies the incoming one. */
  lemma MergeEmptyLeft(m: Metadata)
    ensures Merge(map[], m) == m
  {
  }

  /** Merging a dictionary with itself changes nothing, at every depth. */
  lemma {:induction false} MergeIdempotent(m: Metadata)
    ensures Merge(m, m) == m
    decreases Dict(m)
  {
    forall k | k in m
      ensures Merge(m, m)[k] == m[k]
    {
      if m[k].Dict? {
        MergeIdempotent(m[k].entries);
      }
    }
  }

  /**
   * Merging the same dictionary in a second time has no further effect:
   * whatever the first merge left under a key of `b` is kept by the second.
   */
  lemma {:induction false} MergeAbsorbs(a: Metadata, b: Metadata)
    ensures Merge(Merge(a, b), b) == Merge(a, b)
    decreases Dict(b)
  {
    var ab := Merge(a, b);
    forall k | k in ab
      ensures Merge(ab, b)[k] == ab[k]
    {
      if k in b && b[k].Dict? && ab[k].Dict? {
        if k in a && a[k].Dict? {
          MergeAbsorbs(a[k].entries, b[k].entries);
        } else {
          MergeIdempotent(b[k].entries);
        }
      }
    }
  }

  /** Worked case: the first populated value wins. */
  lemma MergeFirstWins()
    ensures Merge(map["a" := Str("1")], map["a" := Str("2")]) == map["a" := Str("1")]
  {
    var m1: Metadata := map["a" := Str("1")];
    var m2: Metadata := map["a" := Str("2")];
    assert Merge(m1, m2).Keys == {"a"};
    assert MergeValue(Some(Str("1")), Str("2")) == Str("1");
  }

  /** Worked case: an empty string counts as absent. */
  lemma MergeEmptyStringYields()
    ensures Merge(map["a" := Str("")], map["a" := Str("2")]) == map["a" := Str("2")]
  {
    var m1: Metadata := map["a" := Str("")];
    var m2: Metadata := map["a" := Str("2")];
    assert Merge(m1, m2).Keys == {"a"};
    assert MergeValue(Some(Str("")), Str("2")) == Str("2");
  }

  /** Worked case: two dictionaries under one key are merged. */
  lemma MergeNestedDictionaries()
    ensures Merge(map["a" := Dict(map["x" := Str("1")])], map["a" := Dict(map["y" := Str("2")])]) ==
      map["a" := Dict(map["x" := Str("1"), "y" := Str("2")])]
  {
    var x: Metadata := map["x" := Str("1")];
    var y: Metadata := map["y" := Str("2")];
    assert Merge(x, y).Keys == {"x", "y"};
    assert Merge(x, y) == map["x" := Str("1"), "y" := Str("2")];
    var m1: Metadata := map["a" := Dict(x)];
    var m2: Metadata := map["a" := Dict(y)];
    assert Merge(m1, m2).Keys == {"a"};
    assert MergeValue(Some(Dict(x)), Dict(y)) == Dict(Merge(x, y));
  }
}
