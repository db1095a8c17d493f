/**
  `poll` and `output_difference` as the loops they are in the source: each
  emitted object is appended to an output sequence, in the order the loops
  reach it. Each method computes exactly what the functional model in
  `Devices` describes.
 */
module PollLoops {
  import opened Lights
  import opened Events
  import opened Devices

  /** The loop of `output_difference` over `light_state_attrs`. */
  method OutputDifference(id: string, before: Light, after: Light) returns (out: seq<Event>)
    ensures out == DiffLight(id, before, after)
  {
    out := [];
    var k := 0;
    assert LightStateAttrs[k..] == LightStateAttrs;
    while k < |LightStateAttrs|
      invariant 0 <= k <= |LightStateAttrs|
      invariant out + DiffAttrs(id, before, after, LightStateAttrs[k..]) == DiffLight(id, before, after)
    {
      var a := LightStateAttrs[k];
      AttrLoopStep(id, before, after, k, out, DiffLight(id, before, after));
      if AttrValue(after, a) != AttrValue(before, a) {
        out := out + [AttrChanged(id, a, AttrValue(after, a))];
      }
      k := k + 1;
    }
    assert LightStateAttrs[k..] == [];
  }

  /** One turn of the attribute loop: after comparing attribute `k`, the
      output plus the comparisons still to come is still the whole diff. */
  lemma AttrLoopStep(id: string, before: Light, after: Light, k: nat, out: seq<Event>, whole: seq<Event>)
    requires k < |LightStateAttrs|
    requires out + DiffAttrs(id, before, after, LightStateAttrs[k..]) == whole
    ensures var a := LightStateAttrs[k];
      (if Differs(before, after, a) then out + [AttrChanged(id, a, AttrValue(after, a))] else out) +
      DiffAttrs(id, before, after, LightStateAttrs[k + 1..]) == whole
  {
    var attrs := LightStateAttrs[k..];
    assert attrs[0] == LightStateAttrs[k] && attrs[1..] == LightStateAttrs[k + 1..];
    assert DiffAttrs(id, before, after, attrs) ==
      ChangeOf(id, before, after, attrs[0]) + DiffAttrs(id, before, after, attrs[1..]);
  }

  /** The first loop of `poll`: `output_difference` for each id kept, in
      the order `ids`. */
  method OutputChanges(before: Snapshot, after: Snapshot, ids: seq<string>) returns (out: seq<Event>)
    requires forall i :: 0 <= i < |ids| ==> ids[i] in before && ids[i] in after
    ensures out == ChangeEvents(before, after, ids)
  {
    out := [];
    var i := 0;
    while i < |ids|
      invariant 0 <= i <= |ids|
      invariant out + ChangeEvents(before, after, ids[i..]) == ChangeEvents(before, after, ids)
    {
      var id := ids[i];
      ChangeEventsStep(before, after, ids, i);
      var diff := OutputDifference(id, before[id], after[id]);
      out := out + diff;
      i := i + 1;
    }
    assert ids[i..] == [];
  }

  /** The second loop of `poll`: `output_deleted_light` for each id dropped,
      in the order `ids`. */
  method OutputRemovals(ids: seq<string>) returns (out: seq<Event>)
    ensures out == RemovalEvents(ids)
  {
    out := [];
    var j := 0;
    while j < |ids|
      invariant 0 <= j <= |ids|
      invariant |out| == j && forall k :: 0 <= k < j ==> out[k] == Removed(ids[k])
    {
      out := out + [Removed(ids[j])];
      j := j + 1;
    }
    var es := RemovalEvents(ids);
    assert |out| == |es| && forall k :: 0 <= k < |ids| ==> out[k] == es[k];
  }

  /** One turn of the loop over kept ids: the events still to come start
      with those of light `ids[i]`. */
  lemma ChangeEventsStep(before: Snapshot, after: Snapshot, ids: seq<string>, i: nat)
    requires forall k :: 0 <= k < |ids| ==> ids[k] in before && ids[k] in after
    requires i < |ids|
    ensures ChangeEvents(before, after, ids[i..]) ==
      DiffLight(ids[i], before[ids[i]], after[ids[i]]) + ChangeEvents(before, after, ids[i + 1..])
  {
    assert ids[i..][0] == ids[i] && ids[i..][1..] == ids[i + 1..];
  }

  /** `poll` on a fetched snapshot: attribute changes for the ids kept,
      removals for the ids dropped, then the list of new lights if any, and
      finally the fetched snapshot becomes the kept one. */
  method PollOnce(b: HueBridge, fetched: Snapshot, o: Orders) returns (events: seq<Event>, next: HueBridge)
    requires ValidOrders(o, b.lights, fetched)
    ensures Step(events, next) == Poll(b, fetched, o)
  {
    events := [];
    next := b;
    if fetched != b.lights {
      var changes := OutputChanges(b.lights, fetched, o.common);
      var removals := OutputRemovals(o.removed);
      events := changes + removals;
      if fetched.Keys - b.lights.Keys != {} {
        events := events + [AddedBulk(NewLightsEntries(fetched, o.added))];
      }
      next := HueBridge(fetched);
    }
  }
}
