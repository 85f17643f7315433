/**
 * The metadata fold of `SmartMergeHelper.mergedImageURL` and
 * `SmartMergeHelper.mergeAndSave`: starting from the best asset's
 * properties, the properties of every other group member are merged in, one
 * member at a time, in the order their data arrives.
 *
 * The source fetches every member concurrently and merges each in from its
 * completion callback, so the order of the fold is whatever order the
 * callbacks complete in. The model takes that order as a parameter,
 * `arrivals`, constrained only to be a rearrangement of the members other
 * than the best asset.
 */
module SmartMerge {
  import opened Wrappers
  import opened Library
  import opened MetadataMerge

  /**
   * What `getImageData` delivers for one asset: the file's bytes and its
   * properties dictionary, either of which may be missing.
   */
  datatype ImageData = ImageData(data: Option<seq<bv8>>, metadata: Option<Metadata>)

  /** A group member with what was fetched for it. */
  datatype Member = Member(id: AssetId, fetched: ImageData)

  /** What is handed to `writeImageWithMetadata`: the best asset's bytes and the merged properties. */
  datatype Plan = Plan(imageData: seq<bv8>, metadata: Metadata)

  /** The change submitted to the photo library: one asset created from the plan, and the assets to delete. */
  datatype ChangeRequest = ChangeRequest(create: Plan, delete: seq<Member>)

  /** The request submitted (if the save got that far) and the value passed to `completion`. */
  datatype SaveOutcome = SaveOutcome(request: Option<ChangeRequest>, success: bool)

  /** `groupWithoutBest`: the members whose identifier differs from the best asset's, in group order. */
  function WithoutBest(group: seq<Member>, bestId: AssetId): (rest: seq<Member>)
    ensures forall m :: m in rest <==> m in group && m.id != bestId
  {
    if |group| == 0 then []
    else
      var n := |group| - 1;
      WithoutBest(group[..n], bestId) + (if group[n].id != bestId then [group[n]] else [])
  }

  /** `arrivals` is a completion order of the members other than the best asset. */
  predicate IsArrivalOrder(arrivals: seq<Member>, group: seq<Member>, bestId: AssetId) {
    multiset(arrivals) == multiset(WithoutBest(group, bestId))
  }

  /** One completion callback: merge the member's properties in when it has any. */
  function FoldIn(acc: Metadata, m: Member): (r: Metadata)
    ensures r.Keys == acc.Keys + (if m.fetched.metadata.Some? then m.fetched.metadata.value.Keys else {})
    ensures forall k :: k in acc && Settled(acc[k]) ==> k in r && r[k] == acc[k]
  {
    match m.fetched.metadata
    case Some(md) =>
      MergeCases(acc, md);
      MergeKeepsPopulated(acc, md);
      Merge(acc, md)
    case None => acc
  }

  /** The callbacks, in arrival order. */
  function FoldMetadata(acc: Metadata, arrivals: seq<Member>): (r: Metadata)
    ensures acc.Keys <= r.Keys
    decreases |arrivals|
  {
    if |arrivals| == 0 then acc else FoldMetadata(FoldIn(acc, arrivals[0]), arrivals[1..])
  }

  /** Every top-level key of every member that delivered properties. */
  function ContributedKeys(members: seq<Member>): set<string> {
    set m, k | m in members && m.fetched.metadata.Some? && k in m.fetched.metadata.value :: k
  }

  /**
   * The part `mergedImageURL` and `mergeAndSave` share: with the best
   * asset's bytes and properties in hand, fold the other members' properties
   * into the best asset's. Without either, nothing is folded.
   */
  function PlanMerge(best: Member, group: seq<Member>, arrivals: seq<Member>): (r: Option<Plan>)
    requires IsArrivalOrder(arrivals, group, best.id)
    ensures r.None? <==> best.fetched.data.None? || best.fetched.metadata.None?
    ensures r.Some? ==> r.value.imageData == best.fetched.data.value
    ensures r.Some? ==>
      r.value.metadata.Keys == best.fetched.metadata.value.Keys + ContributedKeys(WithoutBest(group, best.id))
    ensures r.Some? ==> forall k :: k in best.fetched.metadata.value && Settled(best.fetched.metadata.value[k]) ==>
      r.value.metadata[k] == best.fetched.metadata.value[k]
  {
    match (best.fetched.data, best.fetched.metadata)
    case (Some(bytes), Some(md)) =>
      var merged := FoldMetadata(md, arrivals);
      FoldKeys(md, arrivals);
      ArrivalKeys(arrivals, group, best.id);
      FoldKeepsSettled(md, arrivals);
      Some(Plan(bytes, merged))
    case _ => None
  }

  /**
   * `mergedImageURL`. `written` is whether `writeImageWithMetadata`
   * produced a file; the temporary file's URL stands for the plan it was
   * written from.
   */
  function MergedImage(best: Member, group: seq<Member>, arrivals: seq<Member>, written: bool): (r: Option<Plan>)
    requires IsArrivalOrder(arrivals, group, best.id)
    ensures r.Some? <==> best.fetched.data.Some? && best.fetched.metadata.Some? && written
    ensures r.Some? ==> r.value.imageData == best.fetched.data.value
    ensures r.Some? ==>
      r.value.metadata.Keys == best.fetched.metadata.value.Keys + ContributedKeys(WithoutBest(group, best.id))
    ensures r.Some? ==> forall k :: k in best.fetched.metadata.value && Settled(best.fetched.metadata.value[k]) ==>
      r.value.metadata[k] == best.fetched.metadata.value[k]
  {
    if written then PlanMerge(best, group, arrivals) else None
  }

  /**
   * `mergeAndSave`. `written` is whether `writeImageWithMetadata` produced a
   * file and `committed` whether the photo library applied the change; both
   * are platform outcomes. The change creates one asset from the plan and
   * deletes every member of `group`, exactly as passed in.
   */
  function MergeAndSave(best: Member, group: seq<Member>, arrivals: seq<Member>, written: bool, committed: bool): (r: SaveOutcome)
    requires IsArrivalOrder(arrivals, group, best.id)
    ensures r.request.Some? <==> best.fetched.data.Some? && best.fetched.metadata.Some? && written
    ensures r.success <==> r.request.Some? && committed
    ensures r.request.Some? ==> r.request.value.delete == group
    ensures r.request.Some? ==> r.request.value.create.imageData == best.fetched.data.value
    ensures r.request.Some? ==>
      r.request.value.create.metadata.Keys == best.fetched.metadata.value.Keys + ContributedKeys(WithoutBest(group, best.id))
  {
    match PlanMerge(best, group, arrivals)
    case None => SaveOutcome(None, false)
    case Some(plan) =>
      if !written then SaveOutcome(None, false)
      else SaveOutcome(Some(ChangeRequest(plan, group)), committed)
  }

  // ---------------------------------------------------------------------
  // Properties of the fold
  // ---------------------------------------------------------------------

  /** A value no later merge can replace: populated, and not a dictionary that could be merged into. */
  predicate Settled(v: Value) {
    !RendersEmpty(v) && !v.Dict?
  }

  /** The fold's keys are the starting keys plus every key any arriving member contributes. */
  lemma {:induction false} FoldKeys(acc: Metadata, arrivals: seq<Member>)
    ensures FoldMetadata(acc, arrivals).Keys == acc.Keys + ContributedKeys(arrivals)
    decreases |arrivals|
  {
    if |arrivals| > 0 {
      var m := arrivals[0];
      FoldKeys(FoldIn(acc, m), arrivals[1..]);
      assert forall x :: x in arrivals <==> x == m || x in arrivals[1..];
      if m.fetched.metadata.Some? {
        assert FoldIn(acc, m).Keys == acc.Keys + m.fetched.metadata.value.Keys;
        assert ContributedKeys(arrivals) == m.fetched.metadata.value.Keys + ContributedKeys(arrivals[1..]);
      } else {
        assert ContributedKeys(arrivals) == ContributedKeys(arrivals[1..]);
      }
    }
  }

  /** The contributed keys do not depend on the order the members arrive in. */
  lemma ArrivalKeys(arrivals: seq<Member>, group: seq<Member>, bestId: AssetId)
    requires IsArrivalOrder(arrivals, group, bestId)
    ensures ContributedKeys(arrivals) == ContributedKeys(WithoutBest(group, bestId))
    ensures forall m :: m in arrivals ==> m.id != bestId
  {
    var rest := WithoutBest(group, bestId);
    assert forall m :: m in arrivals <==> m in rest by {
      forall m
        ensures m in arrivals <==> m in rest
      {
        assert m in arrivals <==> m in multiset(arrivals);
        assert m in rest <==> m in multiset(rest);
      }
    }
  }

  /** A settled value of the starting properties survives every merge of the fold. */
  lemma {:induction false} FoldKeepsSettled(acc: Metadata, arrivals: seq<Member>)
    ensures forall k :: k in acc && Settled(acc[k]) ==> k in FoldMetadata(acc, arrivals) && FoldMetadata(acc, arrivals)[k] == acc[k]
    decreases |arrivals|
  {
    if |arrivals| > 0 {
      var next := FoldIn(acc, arrivals[0]);
      FoldKeepsSettled(next, arrivals[1..]);
      if arrivals[0].fetched.metadata.Some? {
        MergeKeepsPopulated(acc, arrivals[0].fetched.metadata.value);
      }
    }
  }

  /** Members without properties leave the fold where it was. */
  lemma {:induction false} FoldWithoutMetadata(acc: Metadata, arrivals: seq<Member>)
    requires forall j :: 0 <= j < |arrivals| ==> arrivals[j].fetched.metadata.None?
    ensures FoldMetadata(acc, arrivals) == acc
    decreases |arrivals|
  {
    if |arrivals| > 0 {
      FoldWithoutMetadata(acc, arrivals[1..]);
    }
  }

  /**
   * The fold starts from the best asset's properties and never folds in the
   * best asset itself: when no other member delivers properties, the plan
   * carries exactly the best asset's properties, whatever the group's own
   * entry for the best asset holds.
   */
  lemma BestAloneKeepsItsMetadata(best: Member, group: seq<Member>, arrivals: seq<Member>)
    requires IsArrivalOrder(arrivals, group, best.id)
    requires best.fetched.data.Some? && best.fetched.metadata.Some?
    requires forall m :: m in group && m.id != best.id ==> m.fetched.metadata.None?
    ensures PlanMerge(best, group, arrivals) == Some(Plan(best.fetched.data.value, best.fetched.metadata.value))
  {
    forall j | 0 <= j < |arrivals|
      ensures arrivals[j].fetched.metadata.None?
    {
      assert arrivals[j] in multiset(arrivals);
      assert arrivals[j] in WithoutBest(group, best.id);
    }
    FoldWithoutMetadata(best.fetched.metadata.value, arrivals);
  }

  /**
   * `mergeAndSave` submits the same file `mergedImageURL` produces for the
   * same completion order, and submits nothing when that produces nothing.
   */
  lemma SaveCreatesMergedImage(best: Member, group: seq<Member>, arrivals: seq<Member>, written: bool, committed: bool)
    requires IsArrivalOrder(arrivals, group, best.id)
    ensures MergeAndSave(best, group, arrivals, written, committed).request.Some? <==>
      MergedImage(best, group, arrivals, written).Some?
    ensures MergeAndSave(best, group, arrivals, written, committed).request.Some? ==>
      MergedImage(best, group, arrivals, written) == Some(MergeAndSave(best, group, arrivals, written, committed).request.value.create)
  {
  }

  /**
   * For a key the starting properties lack, the first member to arrive
   * carrying that key at all, when its value there is settled, fixes that
   * key's value for the rest of the fold. An earlier dictionary under the
   * key would instead absorb the later value.
   */
  lemma {:induction false} FirstArrivalWins(acc: Metadata, arrivals: seq<Member>, j: nat, k: string)
    requires j < |arrivals| && k !in acc
    requires arrivals[j].fetched.metadata.Some? && k in arrivals[j].fetched.metadata.value
    requires Settled(arrivals[j].fetched.metadata.value[k])
    requires forall i :: 0 <= i < j ==> arrivals[i].fetched.metadata.None? || k !in arrivals[i].fetched.metadata.value
    ensures k in FoldMetadata(acc, arrivals)
    ensures FoldMetadata(acc, arrivals)[k] == arrivals[j].fetched.metadata.value[k]
    decreases j
  {
    var next := FoldIn(acc, arrivals[0]);
    if j == 0 {
      MergeCases(acc, arrivals[0].fetched.metadata.value);
      FoldKeepsSettled(next, arrivals[1..]);
    } else {
      assert forall i :: 0 <= i < j - 1 ==> arrivals[1..][i] == arrivals[i + 1];
      FirstArrivalWins(next, arrivals[1..], j - 1, k);
    }
  }

  /**
   * The values, unlike the keys, depend on the completion order: of two
   * members that both bring a settled value for a key the best asset lacks,
   * whichever arrives first wins.
   */
  lemma CompletionOrderMatters(acc: Metadata, x: Member, y: Member, k: string)
    requires k !in acc
    requires x.fetched.metadata.Some? && k in x.fetched.metadata.value && Settled(x.fetched.metadata.value[k])
    requires y.fetched.metadata.Some? && k in y.fetched.metadata.value && Settled(y.fetched.metadata.value[k])
    ensures FoldMetadata(acc, [x, y])[k] == x.fetched.metadata.value[k]
    ensures FoldMetadata(acc, [y, x])[k] == y.fetched.metadata.value[k]
  {
    FirstArrivalWins(acc, [x, y], 0, k);
    FirstArrivalWins(acc, [y, x], 0, k);
  }
}
