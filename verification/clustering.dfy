/**
 * The clustering half of `DuplicateDetector.findDuplicates`: assets are
 * fingerprinted one after another and each fingerprint joins a group whose
 * founding key is within the threshold, or founds a new group; finally only
 * groups with more than one member are reported.
 *
 * The groups live in a Swift `Dictionary` keyed by the founding fingerprint,
 * so the order in which the existing keys are scanned is unspecified. The
 * only thing that order decides is WHICH matching key is met first. The model
 * therefore takes, per asset, a `pick` that selects one of the matching keys;
 * `PlaceCanJoinAnyMatch` shows every matching key can be selected this way,
 * so every iteration order is covered. The groups are kept in a sequence whose
 * order carries no meaning; their keys are pairwise distinct, as dictionary
 * keys are.
 */
module Clustering {
  import opened Wrappers
  import opened Library
  import opened AverageHash

  /**
   * What the image request delivered for an asset. `bitmap` is `None` when
   * resizing or rendering the grayscale bitmap failed, in which case the
   * source's `generateHash` returns the empty string.
   */
  datatype Image = Image(bitmap: Option<Grid>)

  /**
   * An asset as seen by the scan: whether it has a photo resource at all,
   * and the image the request delivered (`None` when it delivered nil).
   */
  datatype Asset = Asset(id: AssetId, hasPhotoResource: bool, image: Option<Image>)

  /** An asset that reached `generateHash`: the others are skipped. */
  predicate Hashed(a: Asset) {
    a.hasPhotoResource && a.image.Some?
  }

  /** `generateHash`: the empty fingerprint when no bitmap could be produced. */
  function HashOf(img: Image): (h: Hash)
    ensures img.bitmap.Some? ==> |h| == img.bitmap.value.width * img.bitmap.value.height
    ensures h == [] <==> img.bitmap.None? || img.bitmap.value.width * img.bitmap.value.height == 0
  {
    match img.bitmap
    case None => []
    case Some(g) => GridHashBits(g); GridHash(g)
  }

  /** A hashed asset together with its fingerprint. */
  datatype Entry = Entry(id: AssetId, hash: Hash)

  /** One dictionary entry: the founding fingerprint and the assets appended to it. */
  datatype Group = Group(key: Hash, members: seq<Entry>)

  /** The positions of the groups whose key is within `t` of `h`, in increasing order. */
  function Matches(groups: seq<Group>, h: Hash, t: int): (hits: seq<nat>)
    ensures forall j :: 0 <= j < |hits| ==> hits[j] < |groups|
    ensures forall i :: 0 <= i < |groups| ==> (i in hits <==> Hamming(h, groups[i].key) <= t)
  {
    if |groups| == 0 then []
    else
      var n := |groups| - 1;
      Matches(groups[..n], h, t) + (if Hamming(h, groups[n].key) <= t then [n] else [])
  }

  /** The position of the group keyed exactly by `h`, if any. */
  function KeyIndex(groups: seq<Group>, h: Hash): (r: Option<nat>)
    ensures r.Some? ==> r.value < |groups| && groups[r.value].key == h
    ensures r.None? ==> forall i :: 0 <= i < |groups| ==> groups[i].key != h
  {
    if |groups| == 0 then None
    else if groups[|groups| - 1].key == h then Some(|groups| - 1)
    else KeyIndex(groups[..|groups| - 1], h)
  }

  /** Whether some key is within `t` of `h`. */
  predicate AnyWithin(groups: seq<Group>, h: Hash, t: int) {
    exists i :: 0 <= i < |groups| && Hamming(h, groups[i].key) <= t
  }

  /** `groups` with `e` appended to the members of group `i`, whose key stays as it is. */
  function Joined(groups: seq<Group>, i: nat, e: Entry): seq<Group>
    requires i < |groups|
  {
    groups[i := Group(groups[i].key, groups[i].members + [e])]
  }

  /**
   * The body of the scan for one hashed asset: append it to the first key
   * met within `t` (which one is met first is `pick`'s choice among the
   * matching keys), or else store it under its own fingerprint. Storing
   * under a fingerprint that is already a key replaces that key's group, as
   * a dictionary assignment does; this only happens when `t` is negative.
   */
  function Place(groups: seq<Group>, e: Entry, t: int, pick: nat): (r: seq<Group>)
    ensures |groups| <= |r| <= |groups| + 1
    ensures forall i :: 0 <= i < |groups| ==> r[i].key == groups[i].key
  {
    var hits := Matches(groups, e.hash, t);
    if |hits| > 0 then
      var i := hits[pick % |hits|];
      Joined(groups, i, e)
    else
      match KeyIndex(groups, e.hash)
      case Some(i) => groups[i := Group(e.hash, [e])]
      case None => groups + [Group(e.hash, [e])]
  }

  /**
   * The three outcomes of placing an entry: it is appended to a group whose
   * key is within `t`; or, no key being within `t`, it founds a new group
   * under its own fingerprint; or, no key being within `t` but its own
   * fingerprint already being a key (possible only when `t` is negative),
   * it replaces that key's group.
   */
  lemma PlaceCases(groups: seq<Group>, e: Entry, t: int, pick: nat)
    ensures AnyWithin(groups, e.hash, t) ==>
      exists i :: 0 <= i < |groups| && Hamming(e.hash, groups[i].key) <= t && Place(groups, e, t, pick) == Joined(groups, i, e)
    ensures !AnyWithin(groups, e.hash, t) && (forall i :: 0 <= i < |groups| ==> groups[i].key != e.hash) ==>
      Place(groups, e, t, pick) == groups + [Group(e.hash, [e])]
    ensures !AnyWithin(groups, e.hash, t) && (exists i :: 0 <= i < |groups| && groups[i].key == e.hash) ==>
      exists i :: 0 <= i < |groups| && groups[i].key == e.hash && Place(groups, e, t, pick) == groups[i := Group(e.hash, [e])]
  {
  }

  /**
   * The dictionary after scanning `assets` in order; `picks[k]` resolves the
   * iteration order of the dictionary when asset `k` is placed.
   */
  function Scan(assets: seq<Asset>, t: int, picks: seq<nat>): (groups: seq<Group>)
    requires |picks| == |assets|
    ensures |groups| <= |assets|
  {
    if |assets| == 0 then []
    else
      var n := |assets| - 1;
      var groups := Scan(assets[..n], t, picks[..n]);
      var a := assets[n];
      if Hashed(a) then Place(groups, Entry(a.id, HashOf(a.image.value)), t, picks[n]) else groups
  }

  /** The entries the scan processes: one per hashed asset, in input order. */
  function HashedEntries(assets: seq<Asset>): seq<Entry> {
    if |assets| == 0 then []
    else
      var n := |assets| - 1;
      var a := assets[n];
      HashedEntries(assets[..n]) + (if Hashed(a) then [Entry(a.id, HashOf(a.image.value))] else [])
  }

  /** The groups with more than one member, in the order given. */
  function Duplicates(groups: seq<Group>): (dups: seq<Group>)
    ensures forall g :: g in dups <==> g in groups && |g.members| > 1
  {
    if |groups| == 0 then []
    else
      var n := |groups| - 1;
      Duplicates(groups[..n]) + (if |groups[n].members| > 1 then [groups[n]] else [])
  }

  /** The identifiers of a group's members, in the order they joined. */
  function Ids(members: seq<Entry>): (ids: seq<AssetId>)
    ensures |ids| == |members|
    ensures forall j :: 0 <= j < |members| ==> ids[j] == members[j].id
  {
    seq(|members|, j requires 0 <= j < |members| => members[j].id)
  }

  /**
   * `findDuplicates`: the member lists of the groups with more than one
   * member. The source's output order (dictionary order) is unspecified;
   * the model lists them in the order of its group sequence.
   */
  function FindDuplicates(assets: seq<Asset>, t: int, picks: seq<nat>): (r: seq<seq<AssetId>>)
    requires |picks| == |assets|
    ensures forall ids :: ids in r ==> |ids| > 1
    ensures forall g :: g in Scan(assets, t, picks) && |g.members| > 1 ==> Ids(g.members) in r
    ensures forall ids :: ids in r ==>
      exists g :: g in Scan(assets, t, picks) && |g.members| > 1 && ids == Ids(g.members)
  {
    var dups := Duplicates(Scan(assets, t, picks));
    var r := seq(|dups|, i requires 0 <= i < |dups| => Ids(dups[i].members));
    assert forall g :: g in dups ==> Ids(g.members) in r by {
      forall g | g in dups
        ensures Ids(g.members) in r
      {
        var i :| 0 <= i < |dups| && dups[i] == g;
        assert r[i] == Ids(g.members);
      }
    }
    r
  }

  // ---------------------------------------------------------------------
  // Invariants of the scan
  // ---------------------------------------------------------------------

  /** Distinct keys are more than `t` apart (and, being dictionary keys, distinct). */
  ghost predicate KeysApart(groups: seq<Group>, t: int) {
    forall i, j :: 0 <= i < |groups| && 0 <= j < |groups| && i != j ==>
      groups[i].key != groups[j].key && Hamming(groups[i].key, groups[j].key) > t
  }

  /**
   * A group is founded by its first member, whose fingerprint is the key,
   * and every later member was within `t` of that key when it joined.
   */
  ghost predicate MembersNearKey(g: Group, t: int) {
    && |g.members| > 0
    && g.members[0].hash == g.key
    && forall j :: 1 <= j < |g.members| ==> Hamming(g.members[j].hash, g.key) <= t
  }

  ghost predicate WellFormed(groups: seq<Group>, t: int) {
    && KeysApart(groups, t)
    && forall i :: 0 <= i < |groups| ==> MembersNearKey(groups[i], t)
  }

  /** All members of all groups, counted with multiplicity. */
  function AllMembers(groups: seq<Group>): multiset<Entry> {
    if |groups| == 0 then multiset{}
    else AllMembers(groups[..|groups| - 1]) + multiset(groups[|groups| - 1].members)
  }

  lemma JoinPreservesWellFormed(groups: seq<Group>, i: nat, e: Entry, t: int)
    requires WellFormed(groups, t)
    requires i < |groups| && Hamming(e.hash, groups[i].key) <= t
    ensures WellFormed(Joined(groups, i, e), t)
  {
    var r := Joined(groups, i, e);
    assert forall j :: 0 <= j < |r| ==> r[j].key == groups[j].key;
    assert KeysApart(r, t);
    var ms := r[i].members;
    assert ms == groups[i].members + [e];
    assert MembersNearKey(groups[i], t);
    forall j | 1 <= j < |ms|
      ensures Hamming(ms[j].hash, r[i].key) <= t
    {
      if j < |groups[i].members| {
        assert ms[j] == groups[i].members[j];
      }
    }
    assert MembersNearKey(r[i], t);
  }

  lemma FoundPreservesWellFormed(groups: seq<Group>, e: Entry, t: int)
    requires WellFormed(groups, t)
    requires forall i :: 0 <= i < |groups| ==> Hamming(e.hash, groups[i].key) > t && groups[i].key != e.hash
    ensures WellFormed(groups + [Group(e.hash, [e])], t)
  {
    var r := groups + [Group(e.hash, [e])];
    forall i | 0 <= i < |groups|
      ensures Hamming(groups[i].key, e.hash) > t
    {
      HammingSymmetric(groups[i].key, e.hash);
    }
    assert KeysApart(r, t);
    assert MembersNearKey(r[|groups|], t);
  }

  lemma OverwritePreservesWellFormed(groups: seq<Group>, i: nat, e: Entry, t: int)
    requires WellFormed(groups, t)
    requires i < |groups| && groups[i].key == e.hash
    ensures WellFormed(groups[i := Group(e.hash, [e])], t)
  {
    var r := groups[i := Group(e.hash, [e])];
    assert forall j :: 0 <= j < |r| ==> r[j].key == groups[j].key;
    assert KeysApart(r, t);
    assert MembersNearKey(r[i], t);
  }

  lemma PlacePreservesWellFormed(groups: seq<Group>, e: Entry, t: int, pick: nat)
    requires WellFormed(groups, t)
    ensures WellFormed(Place(groups, e, t, pick), t)
  {
    var r := Place(groups, e, t, pick);
    PlaceCases(groups, e, t, pick);
    if AnyWithin(groups, e.hash, t) {
      var i :| 0 <= i < |groups| && Hamming(e.hash, groups[i].key) <= t && r == Joined(groups, i, e);
      JoinPreservesWellFormed(groups, i, e, t);
    } else if forall i :: 0 <= i < |groups| ==> groups[i].key != e.hash {
      FoundPreservesWellFormed(groups, e, t);
    } else {
      var i :| 0 <= i < |groups| && groups[i].key == e.hash && r == groups[i := Group(e.hash, [e])];
      OverwritePreservesWellFormed(groups, i, e, t);
    }
  }

  /**
   * Whatever the dictionary's iteration order, after every step the keys
   * are pairwise more than `t` apart, and every group holds its founder
   * under its own fingerprint plus only assets within `t` of that key.
   */
  lemma {:induction false} ScanWellFormed(assets: seq<Asset>, t: int, picks: seq<nat>)
    requires |picks| == |assets|
    ensures WellFormed(Scan(assets, t, picks), t)
  {
    if |assets| > 0 {
      var n := |assets| - 1;
      ScanWellFormed(assets[..n], t, picks[..n]);
      var groups := Scan(assets[..n], t, picks[..n]);
      var a := assets[n];
      if Hashed(a) {
        var e := Entry(a.id, HashOf(a.image.value));
        PlacePreservesWellFormed(groups, e, t, picks[n]);
        assert Scan(assets, t, picks) == Place(groups, e, t, picks[n]);
      } else {
        assert Scan(assets, t, picks) == groups;
      }
    }
  }

  /**
   * The scan order is free: each key within `t` of the new fingerprint is
   * the one it joins for some choice of `pick`.
   */
  lemma PlaceCanJoinAnyMatch(groups: seq<Group>, e: Entry, t: int, i: nat)
    requires i < |groups| && Hamming(e.hash, groups[i].key) <= t
    ensures exists pick: nat :: Place(groups, e, t, pick) == Joined(groups, i, e)
  {
    var hits := Matches(groups, e.hash, t);
    assert i in hits;
    var j :| 0 <= j < |hits| && hits[j] == i;
    PlacePicksHit(groups, e, t, j);
  }

  /** A pick below the number of matching keys selects that matching key. */
  lemma PlacePicksHit(groups: seq<Group>, e: Entry, t: int, j: nat)
    requires j < |Matches(groups, e.hash, t)|
    ensures Place(groups, e, t, j) == Joined(groups, Matches(groups, e.hash, t)[j], e)
  {
    var hits := Matches(groups, e.hash, t);
    ModBelow(j, |hits|);
    assert Place(groups, e, t, j) == Joined(groups, hits[j % |hits|], e);
  }

  lemma ModBelow(j: nat, n: nat)
    requires j < n
    ensures j % n == j
  {
  }

  lemma {:induction false} AllMembersJoined(groups: seq<Group>, i: nat, e: Entry)
    requires i < |groups|
    ensures AllMembers(Joined(groups, i, e)) == AllMembers(groups) + multiset{e}
  {
    var n := |groups| - 1;
    var u := Joined(groups, i, e);
    if i < n {
      assert u[..n] == Joined(groups[..n], i, e);
      assert u[n] == groups[n];
      AllMembersJoined(groups[..n], i, e);
    } else {
      assert u[..n] == groups[..n];
      assert u[n].members == groups[n].members + [e];
    }
  }

  /** With a threshold of at least zero, placing an entry adds exactly that entry to the groups. */
  lemma PlaceAddsEntry(groups: seq<Group>, e: Entry, t: int, pick: nat)
    requires t >= 0
    ensures AllMembers(Place(groups, e, t, pick)) == AllMembers(groups) + multiset{e}
  {
    var r := Place(groups, e, t, pick);
    PlaceCases(groups, e, t, pick);
    if AnyWithin(groups, e.hash, t) {
      var i :| 0 <= i < |groups| && Hamming(e.hash, groups[i].key) <= t && r == Joined(groups, i, e);
      AllMembersJoined(groups, i, e);
    } else {
      forall i | 0 <= i < |groups|
        ensures groups[i].key != e.hash
      {
        if groups[i].key == e.hash {
          HammingSelf(e.hash);
        }
      }
      assert r == groups + [Group(e.hash, [e])];
      assert r[..|r| - 1] == groups;
    }
  }

  /**
   * With a threshold of at least zero the groups partition the hashed
   * assets: every hashed asset is in exactly one group (counting
   * multiplicity), and skipped assets are in none.
   */
  lemma {:induction false} ScanPartitions(assets: seq<Asset>, t: int, picks: seq<nat>)
    requires |picks| == |assets|
    requires t >= 0
    ensures AllMembers(Scan(assets, t, picks)) == multiset(HashedEntries(assets))
  {
    if |assets| > 0 {
      var n := |assets| - 1;
      ScanPartitions(assets[..n], t, picks[..n]);
      var a := assets[n];
      if Hashed(a) {
        PlaceAddsEntry(Scan(assets[..n], t, picks[..n]), Entry(a.id, HashOf(a.image.value)), t, picks[n]);
      }
    }
  }

  /** Every entry stored after placing `e` is `e` or was stored before. */
  lemma PlaceMembersFrom(groups: seq<Group>, e: Entry, t: int, pick: nat)
    ensures forall i, m :: 0 <= i < |Place(groups, e, t, pick)| && m in Place(groups, e, t, pick)[i].members ==>
      m == e || exists j :: 0 <= j < |groups| && m in groups[j].members
  {
    var r := Place(groups, e, t, pick);
    PlaceCases(groups, e, t, pick);
    forall i, m | 0 <= i < |r| && m in r[i].members
      ensures m == e || exists j :: 0 <= j < |groups| && m in groups[j].members
    {
      if AnyWithin(groups, e.hash, t) {
        var k :| 0 <= k < |groups| && Hamming(e.hash, groups[k].key) <= t && r == Joined(groups, k, e);
        if i != k {
          assert r[i] == groups[i];
        } else if m != e {
          assert m in groups[k].members;
        }
      } else if forall k :: 0 <= k < |groups| ==> groups[k].key != e.hash {
        assert r == groups + [Group(e.hash, [e])];
        if i < |groups| {
          assert r[i] == groups[i];
        }
      } else {
        var k :| 0 <= k < |groups| && groups[k].key == e.hash && r == groups[k := Group(e.hash, [e])];
        if i != k {
          assert r[i] == groups[i];
        }
      }
    }
  }

  /** Every entry the scan stores, under any threshold, is one of the hashed entries. */
  lemma {:induction false} ScanMembersHashed(assets: seq<Asset>, t: int, picks: seq<nat>)
    requires |picks| == |assets|
    ensures forall i, m :: 0 <= i < |Scan(assets, t, picks)| && m in Scan(assets, t, picks)[i].members ==>
      m in HashedEntries(assets)
  {
    if |assets| > 0 {
      var n := |assets| - 1;
      var groups := Scan(assets[..n], t, picks[..n]);
      ScanMembersHashed(assets[..n], t, picks[..n]);
      var a := assets[n];
      if Hashed(a) {
        var e := Entry(a.id, HashOf(a.image.value));
        PlaceMembersFrom(groups, e, t, picks[n]);
        assert HashedEntries(assets) == HashedEntries(assets[..n]) + [e];
      }
    }
  }

  /**
   * A key is never modified once founded: every group of an earlier state of
   * the scan is still at its place under the same key later on.
   */
  lemma {:induction false} ScanKeepsKeys(assets: seq<Asset>, t: int, picks: seq<nat>, k: nat)
    requires |picks| == |assets| && k <= |assets|
    ensures |Scan(assets[..k], t, picks[..k])| <= |Scan(assets, t, picks)|
    ensures forall i :: 0 <= i < |Scan(assets[..k], t, picks[..k])| ==>
      Scan(assets, t, picks)[i].key == Scan(assets[..k], t, picks[..k])[i].key
  {
    if k < |assets| {
      var n := |assets| - 1;
      assert assets[..n][..k] == assets[..k] && picks[..n][..k] == picks[..k];
      ScanKeepsKeys(assets[..n], t, picks[..n], k);
      ScanStepKeepsKeys(assets, t, picks);
      var early, prev, whole := Scan(assets[..k], t, picks[..k]), Scan(assets[..n], t, picks[..n]), Scan(assets, t, picks);
      forall i | 0 <= i < |early|
        ensures whole[i].key == early[i].key
      {
        assert whole[i].key == prev[i].key;
      }
    } else {
      assert assets[..k] == assets && picks[..k] == picks;
    }
  }

  /** One more asset keeps every existing group at its place under its key. */
  lemma ScanStepKeepsKeys(assets: seq<Asset>, t: int, picks: seq<nat>)
    requires |picks| == |assets| > 0
    ensures |Scan(assets[..|assets| - 1], t, picks[..|assets| - 1])| <= |Scan(assets, t, picks)|
    ensures forall i :: 0 <= i < |Scan(assets[..|assets| - 1], t, picks[..|assets| - 1])| ==>
      Scan(assets, t, picks)[i].key == Scan(assets[..|assets| - 1], t, picks[..|assets| - 1])[i].key
  {
  }

  /** Only a hashed asset can found a group: there are never more groups than hashed assets. */
  lemma {:induction false} ScanGroupsBound(assets: seq<Asset>, t: int, picks: seq<nat>)
    requires |picks| == |assets|
    ensures |Scan(assets, t, picks)| <= |HashedEntries(assets)|
  {
    if |assets| > 0 {
      var n := |assets| - 1;
      ScanGroupsBound(assets[..n], t, picks[..n]);
    }
  }

  /** With a negative threshold every placement stores a singleton group. */
  lemma PlaceNegative(groups: seq<Group>, e: Entry, t: int, pick: nat)
    requires t < 0
    requires forall i :: 0 <= i < |groups| ==> |groups[i].members| == 1
    ensures forall i :: 0 <= i < |Place(groups, e, t, pick)| ==> |Place(groups, e, t, pick)[i].members| == 1
  {
    assert !AnyWithin(groups, e.hash, t);
    var r := Place(groups, e, t, pick);
    PlaceCases(groups, e, t, pick);
    if forall i :: 0 <= i < |groups| ==> groups[i].key != e.hash {
      assert r == groups + [Group(e.hash, [e])];
    } else {
      var k :| 0 <= k < |groups| && groups[k].key == e.hash && r == groups[k := Group(e.hash, [e])];
    }
  }

  /** With a negative threshold nothing ever matches: every group stays a singleton. */
  lemma {:induction false} NegativeThresholdSingletons(assets: seq<Asset>, t: int, picks: seq<nat>)
    requires |picks| == |assets| && t < 0
    ensures forall i :: 0 <= i < |Scan(assets, t, picks)| ==> |Scan(assets, t, picks)[i].members| == 1
  {
    if |assets| > 0 {
      var n := |assets| - 1;
      NegativeThresholdSingletons(assets[..n], t, picks[..n]);
      var a := assets[n];
      if Hashed(a) {
        PlaceNegative(Scan(assets[..n], t, picks[..n]), Entry(a.id, HashOf(a.image.value)), t, picks[n]);
      }
    }
  }

  /**
   * A negative threshold reports no duplicates. (It can also lose assets: a
   * repeated fingerprint overwrites the earlier group stored under it.)
   */
  lemma NegativeThresholdFindsNothing(assets: seq<Asset>, t: int, picks: seq<nat>)
    requires |picks| == |assets| && t < 0
    ensures FindDuplicates(assets, t, picks) == []
  {
    NegativeThresholdSingletons(assets, t, picks);
    NoDuplicatesAmongSingletons(Scan(assets, t, picks));
  }

  lemma {:induction false} NoDuplicatesAmongSingletons(groups: seq<Group>)
    requires forall i :: 0 <= i < |groups| ==> |groups[i].members| == 1
    ensures Duplicates(groups) == []
  {
    if |groups| > 0 {
      NoDuplicatesAmongSingletons(groups[..|groups| - 1]);
    }
  }

  /**
   * When every fingerprint is at most `t` long, every fingerprint is within
   * `t` of every key, so a single group is ever founded and it holds every
   * hashed asset.
   */
  lemma {:induction false} LargeThresholdOneGroup(assets: seq<Asset>, t: int, picks: seq<nat>)
    requires |picks| == |assets|
    requires forall e :: e in HashedEntries(assets) ==> |e.hash| <= t
    ensures |Scan(assets, t, picks)| <= 1
    ensures |HashedEntries(assets)| > 0 ==> |Scan(assets, t, picks)| == 1
  {
    if |assets| > 0 {
      var n := |assets| - 1;
      var a := assets[n];
      assert HashedEntries(assets) == HashedEntries(assets[..n]) + (if Hashed(a) then [Entry(a.id, HashOf(a.image.value))] else []);
      LargeThresholdOneGroup(assets[..n], t, picks[..n]);
      var groups := Scan(assets[..n], t, picks[..n]);
      if Hashed(a) {
        var e := Entry(a.id, HashOf(a.image.value));
        assert e in HashedEntries(assets);
        if |groups| == 1 {
          assert Hamming(e.hash, groups[0].key) <= t;
        }
      }
    }
  }

  /** The whole-scan view of the large-threshold case: one reported group with every hashed asset. */
  lemma LargeThresholdAllInOne(assets: seq<Asset>, t: int, picks: seq<nat>)
    requires |picks| == |assets|
    requires forall e :: e in HashedEntries(assets) ==> |e.hash| <= t
    requires |HashedEntries(assets)| > 1
    ensures |Scan(assets, t, picks)| == 1
    ensures multiset(Scan(assets, t, picks)[0].members) == multiset(HashedEntries(assets))
    ensures FindDuplicates(assets, t, picks) == [Ids(Scan(assets, t, picks)[0].members)]
  {
    LargeThresholdOneGroup(assets, t, picks);
    assert HashedEntries(assets)[0] in HashedEntries(assets);
    ScanPartitions(assets, t, picks);
    var groups := Scan(assets, t, picks);
    var g := groups[0];
    assert groups == [g];
    AllMembersSingle(g);
    assert |multiset(g.members)| == |HashedEntries(assets)|;
    FindDuplicatesOneGroup(assets, t, picks, g);
  }

  lemma AllMembersSingle(g: Group)
    ensures AllMembers([g]) == multiset(g.members)
  {
    assert [g][..0] == [];
  }

  /**
   * With threshold zero and fingerprints that all have the same length,
   * every member of a group carries exactly the group's key: only
   * bit-identical fingerprints are grouped.
   */
  lemma ZeroThresholdIdentical(assets: seq<Asset>, picks: seq<nat>, len: nat)
    requires |picks| == |assets|
    requires forall e :: e in HashedEntries(assets) ==> |e.hash| == len
    ensures forall i, j :: 0 <= i < |Scan(assets, 0, picks)| && 0 <= j < |Scan(assets, 0, picks)[i].members| ==>
      Scan(assets, 0, picks)[i].members[j].hash == Scan(assets, 0, picks)[i].key
  {
    var groups := Scan(assets, 0, picks);
    ScanWellFormed(assets, 0, picks);
    ScanMembersHashed(assets, 0, picks);
    forall i, j | 0 <= i < |groups| && 0 <= j < |groups[i].members|
      ensures groups[i].members[j].hash == groups[i].key
    {
      var g := groups[i];
      assert MembersNearKey(g, 0);
      assert g.members[0] in g.members && g.members[j] in g.members;
      if j > 0 {
        HammingZeroIffEqual(g.members[j].hash, g.key);
      }
    }
  }

  // ---------------------------------------------------------------------
  // Failed fingerprints
  // ---------------------------------------------------------------------

  /**
   * As written, an asset whose bitmap could not be produced gets the empty
   * fingerprint, which is at distance zero from every key. In the two-asset
   * library [hashed asset, failed asset] it is reported as the hashed
   * asset's duplicate, in every dictionary order and even with threshold zero.
   */
  lemma FailedRenderReportedAsDuplicate(first: Asset, failed: Asset, t: int, picks: seq<nat>)
    requires Hashed(first)
    requires failed.hasPhotoResource && failed.image == Some(Image(None))
    requires t >= 0 && |picks| == 2
    ensures FindDuplicates([first, failed], t, picks) == [[first.id, failed.id]]
  {
    var e1 := Entry(first.id, HashOf(first.image.value));
    var e2 := Entry(failed.id, []);
    ScanFailedPair(first, failed, t, picks);
    FindDuplicatesOneGroup([first, failed], t, picks, Group(e1.hash, [e1, e2]));
    IdsPair(e1, e2);
  }

  lemma IdsPair(e1: Entry, e2: Entry)
    ensures Ids([e1, e2]) == [e1.id, e2.id]
  {
  }

  /** A scan that ends with a single group of several members reports exactly that group. */
  lemma FindDuplicatesOneGroup(assets: seq<Asset>, t: int, picks: seq<nat>, g: Group)
    requires |picks| == |assets|
    requires Scan(assets, t, picks) == [g] && |g.members| > 1
    ensures FindDuplicates(assets, t, picks) == [Ids(g.members)]
  {
    assert [g][..0] == [];
    assert Duplicates([g]) == [g];
  }

  /** The scan of one hashed asset opens one group keyed by its fingerprint. */
  lemma ScanSingle(first: Asset, t: int, pick: nat)
    requires Hashed(first)
    ensures Scan([first], t, [pick]) == [Group(HashOf(first.image.value), [Entry(first.id, HashOf(first.image.value))])]
  {
    var e1 := Entry(first.id, HashOf(first.image.value));
    assert [first][..0] == [] && [pick][..0] == [];
    assert Scan([], t, []) == [];
    assert Place([], e1, t, pick) == [Group(e1.hash, [e1])];
  }

  /** The failed render joins the first asset's group, whatever that asset's fingerprint. */
  lemma ScanFailedPair(first: Asset, failed: Asset, t: int, picks: seq<nat>)
    requires Hashed(first)
    requires failed.hasPhotoResource && failed.image == Some(Image(None))
    requires t >= 0 && |picks| == 2
    ensures Scan([first, failed], t, picks) ==
      [Group(HashOf(first.image.value), [Entry(first.id, HashOf(first.image.value)), Entry(failed.id, [])])]
  {
    var assets := [first, failed];
    var e1 := Entry(first.id, HashOf(first.image.value));
    var e2 := Entry(failed.id, []);
    var one := [Group(e1.hash, [e1])];
    ScanSingle(first, t, picks[0]);
    assert assets[..1] == [first] && picks[..1] == [picks[0]];
    assert Scan(assets[..1], t, picks[..1]) == one;
    assert HashOf(failed.image.value) == [];
    HammingEmpty(e1.hash);
    PlaceJoinsOnlyGroup(one[0], e2, t, picks[1]);
    assert [e1] + [e2] == [e1, e2];
  }

  /** With a single group present, a fingerprint within the threshold of its key joins it, whatever the pick. */
  lemma PlaceJoinsOnlyGroup(g: Group, e: Entry, t: int, pick: nat)
    requires Hamming(e.hash, g.key) <= t
    ensures Place([g], e, t, pick) == [Group(g.key, g.members + [e])]
  {
    assert [g][..0] == [];
    assert Matches([g], e.hash, t) == [0];
    ModOne(pick);
  }

  lemma ModOne(j: nat)
    ensures j % 1 == 0
  {
  }

  /**
   * As written, when the library's first asset passes the photo-resource
   * check but its bitmap could not be produced,
   * its empty fingerprint becomes a key within every non-negative threshold
   * of every later fingerprint: the scan ends with that one group.
   */
  lemma {:induction false} EmptyKeyAbsorbsAll(assets: seq<Asset>, t: int, picks: seq<nat>)
    requires |picks| == |assets| && 0 < |assets| && t >= 0
    requires Hashed(assets[0]) && HashOf(assets[0].image.value) == []
    ensures |Scan(assets, t, picks)| == 1 && Scan(assets, t, picks)[0].key == []
    decreases |assets|
  {
    var n := |assets| - 1;
    if n == 0 {
      assert assets == [assets[0]] && picks == [picks[0]];
      ScanSingle(assets[0], t, picks[0]);
    } else {
      assert assets[..n][0] == assets[0];
      EmptyKeyAbsorbsAll(assets[..n], t, picks[..n]);
      var groups := Scan(assets[..n], t, picks[..n]);
      assert groups == [groups[0]];
      var a := assets[n];
      if Hashed(a) {
        var e := Entry(a.id, HashOf(a.image.value));
        HammingEmpty(e.hash);
        PlaceJoinsOnlyGroup(groups[0], e, t, picks[n]);
      }
    }
  }

  /**
   * The whole-library view: once the library's first asset fails to render,
   * every hashed asset is reported in one single group of duplicates.
   */
  lemma FailedFirstReportsEverything(assets: seq<Asset>, t: int, picks: seq<nat>)
    requires |picks| == |assets| && 0 < |assets| && t >= 0
    requires Hashed(assets[0]) && HashOf(assets[0].image.value) == []
    requires |HashedEntries(assets)| > 1
    ensures |Scan(assets, t, picks)| == 1
    ensures multiset(Scan(assets, t, picks)[0].members) == multiset(HashedEntries(assets))
    ensures FindDuplicates(assets, t, picks) == [Ids(Scan(assets, t, picks)[0].members)]
  {
    EmptyKeyAbsorbsAll(assets, t, picks);
    ScanPartitions(assets, t, picks);
    var groups := Scan(assets, t, picks);
    var g := groups[0];
    assert groups == [g];
    AllMembersSingle(g);
    assert |multiset(g.members)| == |HashedEntries(assets)|;
    FindDuplicatesOneGroup(assets, t, picks, g);
  }

  /** Identifiers are pairwise distinct, as `localIdentifier`s are. */
  predicate IdsDistinct(assets: seq<Asset>) {
    forall i, j :: 0 <= i < j < |assets| ==> assets[i].id != assets[j].id
  }

  /** An asset whose fingerprint came out empty, treated like one whose image failed to load. */
  function SkipFailedRender(a: Asset): Asset {
    if Hashed(a) && HashOf(a.image.value) == [] then a.(image := None) else a
  }

  /** Every hashed entry comes from one of the assets, with that asset's identifier and fingerprint. */
  lemma {:induction false} HashedEntryOrigin(assets: seq<Asset>, m: Entry)
    requires m in HashedEntries(assets)
    ensures exists k :: 0 <= k < |assets| && Hashed(assets[k]) && m == Entry(assets[k].id, HashOf(assets[k].image.value))
  {
    var n := |assets| - 1;
    var a := assets[n];
    if m in HashedEntries(assets[..n]) {
      HashedEntryOrigin(assets[..n], m);
      var k :| 0 <= k < n && Hashed(assets[..n][k]) && m == Entry(assets[..n][k].id, HashOf(assets[..n][k].image.value));
      assert assets[..n][k] == assets[k];
    } else {
      assert Hashed(a) && m == Entry(a.id, HashOf(a.image.value));
    }
  }

  /**
   * The scan with failed fingerprints left out, as assets whose image failed
   * to load are left out: with distinct identifiers, no asset whose
   * fingerprint came out empty is in any reported group.
   */
  function FindDuplicatesSkippingFailed(assets: seq<Asset>, t: int, picks: seq<nat>): (r: seq<seq<AssetId>>)
    requires |picks| == |assets|
    ensures forall ids :: ids in r ==> |ids| > 1
    ensures IdsDistinct(assets) ==>
      forall i, ids :: 0 <= i < |assets| && Hashed(assets[i]) && HashOf(assets[i].image.value) == [] && ids in r ==>
        assets[i].id !in ids
  {
    var skipped := seq(|assets|, k requires 0 <= k < |assets| => SkipFailedRender(assets[k]));
    var r := FindDuplicates(skipped, t, picks);
    SkippedNotReported(assets, skipped, t, picks, r);
    r
  }

  lemma SkippedNotReported(assets: seq<Asset>, skipped: seq<Asset>, t: int, picks: seq<nat>, r: seq<seq<AssetId>>)
    requires |picks| == |assets| == |skipped|
    requires forall k :: 0 <= k < |assets| ==> skipped[k] == SkipFailedRender(assets[k])
    requires r == FindDuplicates(skipped, t, picks)
    ensures IdsDistinct(assets) ==>
      forall i, ids :: 0 <= i < |assets| && Hashed(assets[i]) && HashOf(assets[i].image.value) == [] && ids in r ==>
        assets[i].id !in ids
  {
    if IdsDistinct(assets) {
      forall i, ids | 0 <= i < |assets| && Hashed(assets[i]) && HashOf(assets[i].image.value) == [] && ids in r
        ensures assets[i].id !in ids
      {
        var g :| g in Scan(skipped, t, picks) && |g.members| > 1 && ids == Ids(g.members);
        SkippedNotInGroup(assets, skipped, t, picks, i, g);
        forall j | 0 <= j < |ids|
          ensures ids[j] != assets[i].id
        {
          assert g.members[j] in g.members;
        }
      }
    }
  }

  lemma SkippedNotInGroup(assets: seq<Asset>, skipped: seq<Asset>, t: int, picks: seq<nat>, i: nat, g: Group)
    requires |picks| == |assets| == |skipped|
    requires forall k :: 0 <= k < |assets| ==> skipped[k] == SkipFailedRender(assets[k])
    requires IdsDistinct(assets)
    requires i < |assets| && Hashed(assets[i]) && HashOf(assets[i].image.value) == []
    requires g in Scan(skipped, t, picks)
    ensures forall m :: m in g.members ==> m.id != assets[i].id
  {
    var groups := Scan(skipped, t, picks);
    ScanMembersHashed(skipped, t, picks);
    var gi :| 0 <= gi < |groups| && groups[gi] == g;
    forall m | m in g.members
      ensures m.id != assets[i].id
    {
      assert m in HashedEntries(skipped);
      HashedEntryOrigin(skipped, m);
      var k :| 0 <= k < |skipped| && Hashed(skipped[k]) && m == Entry(skipped[k].id, HashOf(skipped[k].image.value));
      assert !Hashed(skipped[i]);
      assert k != i && skipped[k].id == assets[k].id;
    }
  }
}
