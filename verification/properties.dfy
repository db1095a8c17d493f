/**
  Properties of the bridge's diff engine that relate several operations or
  hold of a whole poll: what the kept state becomes, which events one light
  contributes, and how many removal and new-light events a poll emits.
 */
module DeviceProperties {
  import opened Lights
  import opened Events
  import opened Devices

  /** The attribute-change events of light `id` in `es`, in order. */
  function ChangesFor(es: seq<Event>, id: string): (r: seq<Event>)
    ensures forall e :: e in r <==> e in es && e.AttrChanged? && e.id == id
    ensures |r| <= |es|
  {
    if es == [] then []
    else (if es[0].AttrChanged? && es[0].id == id then [es[0]] else []) + ChangesFor(es[1..], id)
  }

  lemma {:induction false} ChangesForAppend(a: seq<Event>, b: seq<Event>, id: string)
    ensures ChangesFor(a + b, id) == ChangesFor(a, id) + ChangesFor(b, id)
  {
    if a != [] {
      assert (a + b)[0] == a[0];
      assert (a + b)[1..] == a[1..] + b;
      ChangesForAppend(a[1..], b, id);
    } else {
      assert a + b == b;
    }
  }

  /** Keeping the changes of `id` keeps all of a sequence made only of them. */
  lemma {:induction false} ChangesForAll(es: seq<Event>, id: string)
    requires forall e :: e in es ==> e.AttrChanged? && e.id == id
    ensures ChangesFor(es, id) == es
  {
    if es != [] {
      assert es[0] in es;
      assert forall e :: e in es[1..] ==> e in es;
      ChangesForAll(es[1..], id);
      assert es == [es[0]] + es[1..];
    }
  }

  lemma ChangesForNone(es: seq<Event>, id: string)
    requires forall e :: e in es ==> !(e.AttrChanged? && e.id == id)
    ensures ChangesFor(es, id) == []
  {
  }

  /** The second loop of `poll` reports each id as often as it is listed. */
  lemma {:induction false} RemovalEventsCount(ids: seq<string>, id: string)
    ensures multiset(RemovalEvents(ids))[Removed(id)] == multiset(ids)[id]
  {
    if ids != [] {
      RemovalEventsCount(ids[1..], id);
      assert ids == [ids[0]] + ids[1..];
      assert RemovalEvents(ids) == [Removed(ids[0])] + RemovalEvents(ids[1..]);
      assert multiset(RemovalEvents(ids)) == multiset{Removed(ids[0])} + multiset(RemovalEvents(ids[1..]));
      assert multiset(ids) == multiset{ids[0]} + multiset(ids[1..]);
    }
  }

  /** A duplicate-free listing of `keys` holds each key once and nothing else. */
  lemma {:induction false} EnumeratedOnce(ids: seq<string>, keys: set<string>, id: string)
    requires Enumerates(ids, keys)
    ensures multiset(ids)[id] == if id in keys then 1 else 0
    decreases |ids|
  {
    if ids != [] {
      var rest := keys - {ids[0]};
      assert Enumerates(ids[1..], rest) by {
        forall k | k in rest
          ensures k in ids[1..]
        {
          var i :| 0 <= i < |ids| && ids[i] == k;
          assert i != 0;
          assert ids[1..][i - 1] == k;
        }
        forall i | 0 <= i < |ids[1..]|
          ensures ids[1..][i] in rest
        {
          assert ids[1..][i] == ids[i + 1] && ids[i + 1] != ids[0];
        }
      }
      EnumeratedOnce(ids[1..], rest, id);
      assert ids == [ids[0]] + ids[1..];
      assert multiset(ids) == multiset{ids[0]} + multiset(ids[1..]);
    } else {
      assert id !in keys;
    }
  }

  /** Listing an empty set yields the empty sequence. */
  lemma EnumerateEmpty(ids: seq<string>, keys: set<string>)
    requires Enumerates(ids, keys)
    ensures ids == [] <==> keys == {}
  {
    if ids != [] {
      assert ids[0] in keys;
    }
  }

  /** Every event of `output_difference` for `id` is a change of `id`. */
  lemma DiffLightIsAbout(id: string, before: Light, after: Light)
    ensures forall e :: e in DiffLight(id, before, after) ==> e.AttrChanged? && e.id == id
  {
    var es := DiffLight(id, before, after);
    forall e | e in es
      ensures e.AttrChanged? && e.id == id
    {
      var i :| 0 <= i < |es| && es[i] == e;
      assert IsChange(es[i], id, before, after);
    }
  }

  /** The events of one kept id, picked out of the first loop of `poll`, are
      exactly that light's own `output_difference` events. */
  lemma {:induction false} ChangeEventsProjection(before: Snapshot, after: Snapshot, ids: seq<string>, id: string)
    requires forall i :: 0 <= i < |ids| ==> ids[i] in before && ids[i] in after
    requires forall i, j :: 0 <= i < j < |ids| ==> ids[i] != ids[j]
    ensures id in ids ==>
      (id in before && id in after &&
       ChangesFor(ChangeEvents(before, after, ids), id) == DiffLight(id, before[id], after[id]))
    ensures id !in ids ==> ChangesFor(ChangeEvents(before, after, ids), id) == []
  {
    if ids != [] {
      var tail := ids[1..];
      assert ids == [ids[0]] + tail;
      assert forall i :: 0 <= i < |tail| ==> tail[i] == ids[i + 1];
      var head := DiffLight(ids[0], before[ids[0]], after[ids[0]]);
      var rest := ChangeEvents(before, after, tail);
      assert ChangeEvents(before, after, ids) == head + rest;
      ChangesForAppend(head, rest, id);
      ChangeEventsProjection(before, after, tail, id);
      DiffLightIsAbout(ids[0], before[ids[0]], after[ids[0]]);
      if ids[0] == id {
        ChangesForAll(head, id);
        assert id !in tail;
      } else {
        ChangesForNone(head, id);
      }
    }
  }

  /** Comparing lights whose states agree finds no change. */
  lemma {:induction false} ChangeEventsAgreeing(before: Snapshot, after: Snapshot, ids: seq<string>)
    requires forall i :: 0 <= i < |ids| ==> ids[i] in before && ids[i] in after
    requires forall i :: 0 <= i < |ids| ==> before[ids[i]] == after[ids[i]]
    ensures ChangeEvents(before, after, ids) == []
  {
    if ids != [] {
      ChangeEventsAgreeing(before, after, ids[1..]);
    }
  }

  /** The equality guard of `poll` changes nothing observable:
      the diff of a snapshot against itself is empty. */
  lemma GuardIsUnobservable(lights: Snapshot, o: Orders)
    requires ValidOrders(o, lights, lights)
    ensures Reconcile(lights, lights, o) == []
  {
    EnumerateEmpty(o.removed, lights.Keys - lights.Keys);
    ChangeEventsAgreeing(lights, lights, o.common);
  }

  /** Two different snapshots over the same ids differ in some light. */
  lemma SomeLightDiffers(before: Snapshot, after: Snapshot) returns (id: string)
    requires before != after && before.Keys == after.Keys
    ensures id in before && id in after && before[id] != after[id]
  {
    assert exists k :: k in before && before[k] != after[k];
    id :| id in before && before[id] != after[id];
  }

  /** The first loop of `poll` emits something when one of the lights it
      visits changed. */
  lemma ChangeEventsNotEmpty(before: Snapshot, after: Snapshot, ids: seq<string>, id: string)
    requires forall i :: 0 <= i < |ids| ==> ids[i] in before && ids[i] in after
    requires forall i, j :: 0 <= i < j < |ids| ==> ids[i] != ids[j]
    requires id in ids && before[id] != after[id]
    ensures ChangeEvents(before, after, ids) != []
  {
    ChangeEventsProjection(before, after, ids, id);
    assert |ChangesFor(ChangeEvents(before, after, ids), id)| > 0;
  }

  /** The diff of two different snapshots is never empty: something was
      removed, added, or changed. */
  lemma ReconcileNotEmpty(before: Snapshot, after: Snapshot, o: Orders)
    requires ValidOrders(o, before, after)
    requires before != after
    ensures Reconcile(before, after, o) != []
  {
    ReconcileParts(before, after, o);
    if before.Keys - after.Keys != {} {
      EnumerateEmpty(o.removed, before.Keys - after.Keys);
    } else if after.Keys - before.Keys == {} {
      assert before.Keys == after.Keys;
      var id := SomeLightDiffers(before, after);
      assert id in before.Keys * after.Keys;
      ChangeEventsNotEmpty(before, after, o.common, id);
    }
  }

  /** A poll emits nothing exactly when the fetched snapshot equals the kept one. */
  lemma PollSilentIffUnchanged(b: HueBridge, fetched: Snapshot, o: Orders)
    requires ValidOrders(o, b.lights, fetched)
    ensures Poll(b, fetched, o).events == [] <==> fetched == b.lights
  {
    if fetched != b.lights {
      ReconcileNotEmpty(b.lights, fetched, o);
    }
  }

  /** The attribute-change events a poll emits for a light kept in both
      snapshots are exactly that light's differences against the state kept
      before the poll, in the order name, brightness, on. */
  lemma PollChangesOfLight(b: HueBridge, fetched: Snapshot, o: Orders, id: string)
    requires ValidOrders(o, b.lights, fetched)
    requires id in b.lights && id in fetched
    ensures ChangesFor(Poll(b, fetched, o).events, id) == DiffLight(id, b.lights[id], fetched[id])
  {
    if fetched != b.lights {
      ReconcileChangesOfLight(b.lights, fetched, o, id);
    }
  }

  /** The diff's attribute-change events for a light kept in both snapshots
      are exactly that light's `output_difference`. */
  lemma ReconcileChangesOfLight(before: Snapshot, after: Snapshot, o: Orders, id: string)
    requires ValidOrders(o, before, after)
    requires id in before && id in after
    ensures ChangesFor(Reconcile(before, after, o), id) == DiffLight(id, before[id], after[id])
  {
    ReconcileParts(before, after, o);
    var changes := ChangeEvents(before, after, o.common);
    var removals := RemovalEvents(o.removed);
    var added := if after.Keys - before.Keys != {} then [AddedBulk(NewLightsEntries(after, o.added))] else [];
    assert ChangesFor(removals, id) == [] by {
      ChangesForNone(removals, id);
    }
    assert ChangesFor(added, id) == [] by {
      ChangesForNone(added, id);
    }
    assert ChangesFor(changes, id) == DiffLight(id, before[id], after[id]) by {
      assert id in before.Keys * after.Keys;
      ChangeEventsProjection(before, after, o.common, id);
    }
    ChangesForAppend(changes + removals, added, id);
    ChangesForAppend(changes, removals, id);
  }

  /** A poll emits no attribute change for a light missing from either
      snapshot. */
  lemma PollNoChangesOutsideKept(b: HueBridge, fetched: Snapshot, o: Orders, id: string)
    requires ValidOrders(o, b.lights, fetched)
    requires id !in b.lights || id !in fetched
    ensures ChangesFor(Poll(b, fetched, o).events, id) == []
  {
    var es := Poll(b, fetched, o).events;
    ChangesForNone(es, id);
  }

  /** Every light that disappeared is reported exactly once as switched off;
      no other light is. */
  lemma PollRemovedOnce(b: HueBridge, fetched: Snapshot, o: Orders, id: string)
    requires ValidOrders(o, b.lights, fetched)
    ensures multiset(Poll(b, fetched, o).events)[Removed(id)] ==
      if id in b.lights && id !in fetched then 1 else 0
  {
    if fetched != b.lights {
      ReconcileRemovedCount(b.lights, fetched, o, id);
      EnumeratedOnce(o.removed, b.lights.Keys - fetched.Keys, id);
    }
  }

  /** The diff reports the removal of `id` as often as the removal order
      lists it. */
  lemma ReconcileRemovedCount(before: Snapshot, after: Snapshot, o: Orders, id: string)
    requires ValidOrders(o, before, after)
    ensures multiset(Reconcile(before, after, o))[Removed(id)] == multiset(o.removed)[id]
  {
    ReconcileParts(before, after, o);
    var changes := ChangeEvents(before, after, o.common);
    var added := if after.Keys - before.Keys != {} then [AddedBulk(NewLightsEntries(after, o.added))] else [];
    CountInMiddle(changes, RemovalEvents(o.removed), added, Removed(id));
    RemovalEventsCount(o.removed, id);
  }

  /** An event absent from the first and last parts of a concatenation
      occurs in it as often as in the middle part. */
  lemma CountInMiddle(xs: seq<Event>, ys: seq<Event>, zs: seq<Event>, e: Event)
    requires e !in xs && e !in zs
    ensures multiset(xs + ys + zs)[e] == multiset(ys)[e]
  {
    assert multiset(xs + ys + zs) == multiset(xs) + multiset(ys) + multiset(zs);
  }

  /** `entries` lists every light of `after` missing from `before`, once,
      with its state in `after`, and nothing else. */
  ghost predicate ListsNewLights(entries: seq<(string, Light)>, before: Snapshot, after: Snapshot)
  {
    && |entries| == |after.Keys - before.Keys|
    && forall id, l :: (id, l) in entries <==> id in after && id !in before && after[id] == l
  }

  /** The events of a poll whose snapshots differ, group by group. */
  lemma ReconcileParts(before: Snapshot, after: Snapshot, o: Orders)
    requires ValidOrders(o, before, after)
    ensures Reconcile(before, after, o) ==
      ChangeEvents(before, after, o.common) + RemovalEvents(o.removed) +
      (if after.Keys - before.Keys != {} then [AddedBulk(NewLightsEntries(after, o.added))] else [])
  {
  }

  /** A poll that finds no new id emits no list of new lights. */
  lemma ReconcileWithoutNewLights(before: Snapshot, after: Snapshot, o: Orders)
    requires ValidOrders(o, before, after)
    requires after.Keys - before.Keys == {}
    ensures forall e :: e in Reconcile(before, after, o) ==> !e.AddedBulk?
  {
    ReconcileParts(before, after, o);
  }

  /** A poll that finds new ids ends with the list of all of them. */
  lemma ReconcileWithNewLights(before: Snapshot, after: Snapshot, o: Orders)
    requires ValidOrders(o, before, after)
    requires after.Keys - before.Keys != {}
    ensures var es := Reconcile(before, after, o);
      es != [] && es[|es| - 1].AddedBulk? && ListsNewLights(es[|es| - 1].entries, before, after)
  {
    var es := Reconcile(before, after, o);
    var entries := NewLightsEntries(after, o.added);
    assert es != [] && es[|es| - 1] == AddedBulk(entries) by {
      ReconcileParts(before, after, o);
    }
    assert ListsNewLights(entries, before, after) by {
      EnumerationSize(o.added, after.Keys - before.Keys);
    }
  }

  /** A poll emits one list of new lights exactly when some id is new; the
      list comes last and holds every new light, once, with its fetched
      state. */
  lemma PollAddedList(b: HueBridge, fetched: Snapshot, o: Orders)
    requires ValidOrders(o, b.lights, fetched)
    ensures var es := Poll(b, fetched, o).events;
      (exists i :: 0 <= i < |es| && es[i].AddedBulk?) <==> fetched.Keys - b.lights.Keys != {}
    ensures var es := Poll(b, fetched, o).events;
      forall i :: 0 <= i < |es| && es[i].AddedBulk? ==>
        i == |es| - 1 && ListsNewLights(es[i].entries, b.lights, fetched)
  {
    if fetched != b.lights {
      ReconcileAddedList(b.lights, fetched, o);
    }
  }

  /** The new-lights part of the diff: present exactly when some id is new,
      last, and listing exactly the new lights. */
  lemma ReconcileAddedList(before: Snapshot, after: Snapshot, o: Orders)
    requires ValidOrders(o, before, after)
    ensures var es := Reconcile(before, after, o);
      (exists i :: 0 <= i < |es| && es[i].AddedBulk?) <==> after.Keys - before.Keys != {}
    ensures var es := Reconcile(before, after, o);
      forall i :: 0 <= i < |es| && es[i].AddedBulk? ==>
        i == |es| - 1 && ListsNewLights(es[i].entries, before, after)
  {
    var es := Reconcile(before, after, o);
    if after.Keys - before.Keys == {} {
      ReconcileWithoutNewLights(before, after, o);
      assert forall i :: 0 <= i < |es| ==> es[i] in es;
    } else {
      ReconcileWithNewLights(before, after, o);
    }
  }

  /** `output_difference` written out over its three attributes. */
  lemma DiffLightUnfolded(id: string, before: Light, after: Light)
    ensures DiffLight(id, before, after) ==
      ChangeOf(id, before, after, Name) + ChangeOf(id, before, after, Brightness) + ChangeOf(id, before, after, On)
  {
    AttrLoopUnfolded(id, before, after);
    assert DiffLight(id, before, after) == DiffAttrs(id, before, after, LightStateAttrs);
  }

  /** The comparison loop over `LightStateAttrs`, one attribute at a time. */
  lemma AttrLoopUnfolded(id: string, before: Light, after: Light)
    ensures DiffAttrs(id, before, after, LightStateAttrs) ==
      ChangeOf(id, before, after, Name) + ChangeOf(id, before, after, Brightness) + ChangeOf(id, before, after, On)
  {
    var rest1, rest2 := LightStateAttrs[1..], LightStateAttrs[2..];
    assert rest1[0] == Brightness && rest1[1..] == rest2;
    assert rest2[0] == On && rest2[1..] == [];
    var n, b, o := ChangeOf(id, before, after, Name), ChangeOf(id, before, after, Brightness), ChangeOf(id, before, after, On);
    assert DiffAttrs(id, before, after, rest2) == o;
    assert DiffAttrs(id, before, after, LightStateAttrs) == n + (b + o);
    assert n + (b + o) == n + b + o;
  }

  /** Changing exactly one attribute yields exactly one event, carrying the
      light's id, that attribute and its new value. */
  lemma SingleAttributeChange(id: string, before: Light, after: Light, a: Attr)
    requires Differs(before, after, a)
    requires forall a': Attr :: a' != a ==> !Differs(before, after, a')
    ensures DiffLight(id, before, after) == [AttrChanged(id, a, AttrValue(after, a))]
  {
    DiffLightUnfolded(id, before, after);
    match a
    case Name =>
      assert !Differs(before, after, Brightness) && !Differs(before, after, On);
    case Brightness =>
      assert !Differs(before, after, Name) && !Differs(before, after, On);
    case On =>
      assert !Differs(before, after, Name) && !Differs(before, after, Brightness);
  }

  /** Changing all three attributes yields three events, in the order name,
      brightness, on. */
  lemma AllAttributesChange(id: string, before: Light, after: Light)
    requires forall a: Attr :: Differs(before, after, a)
    ensures DiffLight(id, before, after) == [
      AttrChanged(id, Name, Str(after.name)),
      AttrChanged(id, Brightness, Int(after.brightness)),
      AttrChanged(id, On, Bool(after.on))]
  {
    DiffLightUnfolded(id, before, after);
    assert Differs(before, after, Name) && Differs(before, after, Brightness) && Differs(before, after, On);
  }

  /** A poll that only drops lights, leaving the others as they were,
      emits one removal per dropped light and nothing else. */
  lemma PollOnlyRemovals(b: HueBridge, fetched: Snapshot, o: Orders)
    requires ValidOrders(o, b.lights, fetched)
    requires fetched.Keys <= b.lights.Keys
    requires forall id :: id in fetched ==> b.lights[id] == fetched[id]
    ensures Poll(b, fetched, o).events == RemovalEvents(o.removed)
  {
    if fetched == b.lights {
      EnumerateEmpty(o.removed, b.lights.Keys - fetched.Keys);
    } else {
      ReconcileOnlyRemovals(b.lights, fetched, o);
    }
  }

  /** The diff against a snapshot that only lost lights is their removals. */
  lemma ReconcileOnlyRemovals(before: Snapshot, after: Snapshot, o: Orders)
    requires ValidOrders(o, before, after)
    requires after.Keys <= before.Keys
    requires forall id :: id in after ==> before[id] == after[id]
    ensures Reconcile(before, after, o) == RemovalEvents(o.removed)
  {
    assert ChangeEvents(before, after, o.common) == [] by {
      ChangeEventsAgreeing(before, after, o.common);
    }
    assert after.Keys - before.Keys == {};
    ReconcileParts(before, after, o);
  }

  /** A poll that only finds new lights, leaving the others as they were,
      emits the list of new lights and nothing else. */
  lemma PollOnlyAdditions(b: HueBridge, fetched: Snapshot, o: Orders)
    requires ValidOrders(o, b.lights, fetched)
    requires b.lights.Keys <= fetched.Keys
    requires forall id :: id in b.lights ==> b.lights[id] == fetched[id]
    requires fetched.Keys - b.lights.Keys != {}
    ensures Poll(b, fetched, o).events == [AddedBulk(NewLightsEntries(fetched, o.added))]
  {
    assert fetched != b.lights;
    ReconcileOnlyAdditions(b.lights, fetched, o);
  }

  /** The diff against a snapshot that only gained lights is their list. */
  lemma ReconcileOnlyAdditions(before: Snapshot, after: Snapshot, o: Orders)
    requires ValidOrders(o, before, after)
    requires before.Keys <= after.Keys
    requires forall id :: id in before ==> before[id] == after[id]
    requires after.Keys - before.Keys != {}
    ensures Reconcile(before, after, o) == [AddedBulk(NewLightsEntries(after, o.added))]
  {
    assert ChangeEvents(before, after, o.common) == [] by {
      ChangeEventsAgreeing(before, after, o.common);
    }
    assert RemovalEvents(o.removed) == [] by {
      assert before.Keys - after.Keys == {};
      EnumerateEmpty(o.removed, before.Keys - after.Keys);
    }
    ReconcileParts(before, after, o);
  }

  /** A poll in which only light `id` changed, to `l`, emits exactly that
      light's differences. */
  lemma PollOneLightChanged(b: HueBridge, o: Orders, id: string, l: Light)
    requires id in b.lights && b.lights[id] != l
    requires ValidOrders(o, b.lights, b.lights[id := l])
    ensures Poll(b, b.lights[id := l], o).events == DiffLight(id, b.lights[id], l)
  {
    var fetched := b.lights[id := l];
    assert fetched[id] != b.lights[id];
    assert fetched.Keys == b.lights.Keys;
    EnumerateEmpty(o.removed, b.lights.Keys - fetched.Keys);
    var es := Poll(b, fetched, o).events;
    assert es == ChangeEvents(b.lights, fetched, o.common);
    forall e | e in es
      ensures e.AttrChanged? && e.id == id
    {
      assert IsChange(e, e.id, b.lights[e.id], fetched[e.id]);
    }
    ChangesForAll(es, id);
    PollChangesOfLight(b, fetched, o, id);
  }

  /** A poll in which exactly one attribute of exactly one light changed
      emits exactly one event for that attribute and keeps the fetched
      snapshot. */
  lemma PollOneAttributeOfOneLight(b: HueBridge, o: Orders, id: string, l: Light, a: Attr)
    requires id in b.lights
    requires Differs(b.lights[id], l, a)
    requires forall a': Attr :: a' != a ==> !Differs(b.lights[id], l, a')
    requires ValidOrders(o, b.lights, b.lights[id := l])
    ensures Poll(b, b.lights[id := l], o).events == [AttrChanged(id, a, AttrValue(l, a))]
    ensures Poll(b, b.lights[id := l], o).bridge.lights == b.lights[id := l]
  {
    PollOneLightChanged(b, o, id, l);
    SingleAttributeChange(id, b.lights[id], l, a);
  }
}
