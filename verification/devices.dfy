/**
  The diff engine of `HueBridge`: the bridge keeps the last snapshot of its
  lights; construction reports every light, and each poll compares the kept
  snapshot with a freshly fetched one, emits what changed, and keeps the
  fetched one.

  Fetching is not modelled: the fetched snapshot is an input. Emitting an
  object is modelled as appending it to the returned event sequence. The
  order in which the source iterates a Python set of ids is unspecified, so
  it is an input too: sequences that list each key set once (`Orders`).
 */
module Devices {
  import opened Lights
  import opened Events

  /** `ids` lists every key of `keys`, each exactly once. */
  predicate Enumerates(ids: seq<string>, keys: set<string>)
  {
    && (forall i :: 0 <= i < |ids| ==> ids[i] in keys)
    && (forall k :: k in keys ==> k in ids)
    && (forall i, j :: 0 <= i < j < |ids| ==> ids[i] != ids[j])
  }

  /** `e` reports that attribute `e.attr` of light `id` changed between
      `before` and `after`, and carries its value in `after`. */
  predicate IsChange(e: Event, id: string, before: Light, after: Light)
  {
    && e.AttrChanged?
    && e.id == id
    && Differs(before, after, e.attr)
    && e.value == AttrValue(after, e.attr)
  }

  /** Attribute-change events whose attributes come in strictly increasing
      rank: each attribute at most once, in the order of `LightStateAttrs`. */
  predicate InAttrOrder(es: seq<Event>)
  {
    forall i, j :: 0 <= i < j < |es| ==>
      es[i].AttrChanged? && es[j].AttrChanged? && Rank(es[i].attr) < Rank(es[j].attr)
  }

  /** Attribute-change events first, removals next, the list of new lights last. */
  function Group(e: Event): nat
  {
    match e
    case AttrChanged(_, _, _) => 0
    case Removed(_) => 1
    case AddedBulk(_) => 2
  }

  /** Events in group order, with a list of new lights only as the last one. */
  predicate Grouped(es: seq<Event>)
  {
    forall i, j :: 0 <= i < j < |es| ==> Group(es[i]) <= Group(es[j]) && !es[i].AddedBulk?
  }

  /** Every attribute change in `es` is of a light present in both snapshots
      and reports a real difference, carrying the value in `after`. */
  predicate ChangesAgainst(es: seq<Event>, before: Snapshot, after: Snapshot)
  {
    forall e :: e in es && e.AttrChanged? ==>
      e.id in before && e.id in after && IsChange(e, e.id, before[e.id], after[e.id])
  }

  /** The event, if any, that comparing attribute `a` contributes. */
  function ChangeOf(id: string, before: Light, after: Light, a: Attr): seq<Event>
  {
    if Differs(before, after, a) then [AttrChanged(id, a, AttrValue(after, a))] else []
  }

  /** The events of `output_difference` for the attributes `attrs`, compared
      in the order given. */
  function DiffAttrs(id: string, before: Light, after: Light, attrs: seq<Attr>): seq<Event>
  {
    if attrs == [] then []
    else ChangeOf(id, before, after, attrs[0]) + DiffAttrs(id, before, after, attrs[1..])
  }

  /** Every event of comparing `attrs` reports an attribute of `attrs` that
      differs, carrying its new value. */
  lemma {:induction false} DiffAttrsSound(id: string, before: Light, after: Light, attrs: seq<Attr>)
    ensures forall i :: 0 <= i < |DiffAttrs(id, before, after, attrs)| ==>
      IsChange(DiffAttrs(id, before, after, attrs)[i], id, before, after) &&
      DiffAttrs(id, before, after, attrs)[i].attr in attrs
  {
    if attrs != [] {
      DiffAttrsSound(id, before, after, attrs[1..]);
      var head := ChangeOf(id, before, after, attrs[0]);
      var rest := DiffAttrs(id, before, after, attrs[1..]);
      var es := head + rest;
      assert DiffAttrs(id, before, after, attrs) == es;
      forall i | 0 <= i < |es|
        ensures IsChange(es[i], id, before, after) && es[i].attr in attrs
      {
        if i < |head| {
          assert es[i] == head[0];
        } else {
          assert es[i] == rest[i - |head|];
          assert rest[i - |head|].attr in attrs[1..];
        }
      }
    }
  }

  /** Comparing `attrs` reports every attribute of `attrs` that differs. */
  lemma {:induction false} DiffAttrsComplete(id: string, before: Light, after: Light, attrs: seq<Attr>)
    ensures forall a :: a in attrs && Differs(before, after, a) ==>
      AttrChanged(id, a, AttrValue(after, a)) in DiffAttrs(id, before, after, attrs)
  {
    if attrs != [] {
      DiffAttrsComplete(id, before, after, attrs[1..]);
      var head := ChangeOf(id, before, after, attrs[0]);
      var rest := DiffAttrs(id, before, after, attrs[1..]);
      assert DiffAttrs(id, before, after, attrs) == head + rest;
      forall a | a in attrs && Differs(before, after, a)
        ensures AttrChanged(id, a, AttrValue(after, a)) in head + rest
      {
        if a == attrs[0] {
          assert (head + rest)[0] == AttrChanged(id, a, AttrValue(after, a));
        } else {
          assert a in attrs[1..];
        }
      }
    }
  }

  /** Comparing a rank-ordered list of attributes reports them in list
      order. */
  lemma {:induction false} DiffAttrsOrdered(id: string, before: Light, after: Light, attrs: seq<Attr>)
    requires RankSorted(attrs)
    ensures InAttrOrder(DiffAttrs(id, before, after, attrs))
  {
    if attrs != [] {
      RankSortedTail(attrs);
      DiffAttrsOrdered(id, before, after, attrs[1..]);
      DiffAttrsSound(id, before, after, attrs[1..]);
      var head := ChangeOf(id, before, after, attrs[0]);
      var rest := DiffAttrs(id, before, after, attrs[1..]);
      var es := head + rest;
      assert DiffAttrs(id, before, after, attrs) == es;
      forall i, j | 0 <= i < j < |es|
        ensures es[i].AttrChanged? && es[j].AttrChanged? && Rank(es[i].attr) < Rank(es[j].attr)
      {
        assert es[j] == rest[j - |head|];
        assert rest[j - |head|].attr in attrs[1..];
        if i >= |head| {
          assert es[i] == rest[i - |head|];
        } else {
          assert es[i] == head[0];
        }
      }
    }
  }

  /** The attributes after the first of a rank-ordered list are rank-ordered
      and all rank above the first. */
  lemma RankSortedTail(attrs: seq<Attr>)
    requires attrs != [] && RankSorted(attrs)
    ensures RankSorted(attrs[1..])
    ensures forall a :: a in attrs[1..] ==> Rank(attrs[0]) < Rank(a)
  {
    forall i, j | 0 <= i < j < |attrs[1..]|
      ensures Rank(attrs[1..][i]) < Rank(attrs[1..][j])
    {
      assert attrs[1..][i] == attrs[i + 1] && attrs[1..][j] == attrs[j + 1];
    }
  }

  /** `output_difference`: one event per attribute of `LightStateAttrs` whose
      value differs, carrying the new value, in the order name, brightness,
      on; nothing when the light is unchanged. */
  function DiffLight(id: string, before: Light, after: Light): (es: seq<Event>)
    ensures forall i :: 0 <= i < |es| ==> IsChange(es[i], id, before, after)
    ensures forall a: Attr :: Differs(before, after, a) <==>
      AttrChanged(id, a, AttrValue(after, a)) in es
    ensures InAttrOrder(es)
    ensures es == [] <==> before == after
  {
    LightStateAttrsComplete();
    LightEqualIffNoAttrDiffers(before, after);
    DiffAttrsSound(id, before, after, LightStateAttrs);
    DiffAttrsComplete(id, before, after, LightStateAttrs);
    DiffAttrsOrdered(id, before, after, LightStateAttrs);
    var es := DiffAttrs(id, before, after, LightStateAttrs);
    assert before != after ==> exists a: Attr :: AttrChanged(id, a, AttrValue(after, a)) in es;
    assert es != [] ==> IsChange(es[0], id, before, after);
    es
  }

  /** The first loop of `poll`: `output_difference` for each id kept in both
      snapshots, in the order `ids`, always against the kept state `before`. */
  function ChangeEvents(before: Snapshot, after: Snapshot, ids: seq<string>): (es: seq<Event>)
    requires forall i :: 0 <= i < |ids| ==> ids[i] in before && ids[i] in after
    ensures forall e :: e in es ==>
      && e.AttrChanged?
      && e.id in ids
      && e.id in before && e.id in after
      && IsChange(e, e.id, before[e.id], after[e.id])
  {
    if ids == [] then []
    else DiffLight(ids[0], before[ids[0]], after[ids[0]]) + ChangeEvents(before, after, ids[1..])
  }

  /** The second loop of `poll`: `output_deleted_light` for each id in `ids`,
      in that order. */
  function RemovalEvents(ids: seq<string>): (es: seq<Event>)
    ensures |es| == |ids| && forall k :: 0 <= k < |ids| ==> es[k] == Removed(ids[k])
    ensures forall e :: e in es ==> e.Removed?
  {
    if ids == [] then []
    else [Removed(ids[0])] + RemovalEvents(ids[1..])
  }

  /** The list built by `output_new_lights`: one entry per id of `ids`, with
      the light's full state from `lights`. */
  function NewLightsEntries(lights: Snapshot, ids: seq<string>): (entries: seq<(string, Light)>)
    requires forall i :: 0 <= i < |ids| ==> ids[i] in lights
    ensures |entries| == |ids|
    ensures forall id, l :: (id, l) in entries <==> id in ids && id in lights && lights[id] == l
  {
    if ids == [] then []
    else [(ids[0], lights[ids[0]])] + NewLightsEntries(lights, ids[1..])
  }

  /** The iteration orders of the three id sets of one poll. */
  datatype Orders = Orders(common: seq<string>, removed: seq<string>, added: seq<string>)

  /** `o` lists the ids kept in both snapshots, those only in `before`, and
      those only in `after`. */
  predicate ValidOrders(o: Orders, before: Snapshot, after: Snapshot)
  {
    && Enumerates(o.common, before.Keys * after.Keys)
    && Enumerates(o.removed, before.Keys - after.Keys)
    && Enumerates(o.added, after.Keys - before.Keys)
  }

  /** The events of a poll whose fetched snapshot differs from the kept one:
      attribute changes, then removals, then at most one list of new lights,
      which is emitted only when some id is new. */
  function Reconcile(before: Snapshot, after: Snapshot, o: Orders): (es: seq<Event>)
    requires ValidOrders(o, before, after)
    ensures Grouped(es)
    ensures ChangesAgainst(es, before, after)
  {
    var changes := ChangeEvents(before, after, o.common);
    var removals := RemovalEvents(o.removed);
    var added := if after.Keys - before.Keys != {} then [AddedBulk(NewLightsEntries(after, o.added))] else [];
    GroupedConcat(changes, removals, added);
    changes + removals + added
  }

  /** The state `HueBridge` keeps between polls: the last snapshot seen. */
  datatype HueBridge = HueBridge(lights: Snapshot)

  /** The events one operation emits, in order, and the bridge state after it. */
  datatype Step = Step(events: seq<Event>, bridge: HueBridge)

  /** Construction: keep the initial snapshot and emit one list of all its
      lights (an empty list when there are none), in the order `order`. */
  function Init(initial: Snapshot, order: seq<string>): (r: Step)
    requires Enumerates(order, initial.Keys)
    ensures r.bridge.lights == initial
    ensures |r.events| == 1 && r.events[0].AddedBulk?
    ensures |r.events[0].entries| == |initial|
    ensures forall id, l :: (id, l) in r.events[0].entries <==> id in initial && initial[id] == l
  {
    EnumerationSize(order, initial.Keys);
    Step([AddedBulk(NewLightsEntries(initial, order))], HueBridge(initial))
  }

  /** `poll`: when the fetched snapshot differs from the kept one, emit the
      differences and keep the fetched snapshot; otherwise emit nothing. */
  function Poll(b: HueBridge, fetched: Snapshot, o: Orders): (r: Step)
    requires ValidOrders(o, b.lights, fetched)
    ensures r.bridge.lights == fetched
    ensures fetched == b.lights ==> r.events == []
    ensures Grouped(r.events)
    ensures ChangesAgainst(r.events, b.lights, fetched)
  {
    if fetched == b.lights then Step([], b)
    else
      var es := Reconcile(b.lights, fetched, o);
      Step(es, HueBridge(fetched))
  }

  /** Attribute changes, then removals, then at most one list of new lights,
      concatenated, come in group order with the list last. */
  lemma GroupedConcat(changes: seq<Event>, removals: seq<Event>, added: seq<Event>)
    requires forall e :: e in changes ==> e.AttrChanged?
    requires forall e :: e in removals ==> e.Removed?
    requires |added| <= 1 && forall e :: e in added ==> e.AddedBulk?
    ensures Grouped(changes + removals + added)
  {
    var es := changes + removals + added;
    var n, m := |changes|, |changes| + |removals|;
    forall i, j | 0 <= i < j < |es|
      ensures Group(es[i]) <= Group(es[j]) && !es[i].AddedBulk?
    {
      if i < n {
        assert es[i] == changes[i] && changes[i] in changes;
      } else {
        assert es[i] == removals[i - n] && removals[i - n] in removals;
      }
      if j < n {
        assert es[j] == changes[j] && changes[j] in changes;
      } else if j < m {
        assert es[j] == removals[j - n] && removals[j - n] in removals;
      } else {
        assert es[j] == added[j - m] && added[j - m] in added;
      }
    }
  }

  /** A duplicate-free listing of a set is as long as the set is large. */
  lemma {:induction false} EnumerationSize(ids: seq<string>, keys: set<string>)
    requires Enumerates(ids, keys)
    ensures |ids| == |keys|
    decreases |ids|
  {
    if ids != [] {
      var rest := keys - {ids[0]};
      assert Enumerates(ids[1..], rest) by {
        forall k | k in rest
          ensures k in ids[1..]
        {
          var i :| 0 <= i < |ids| && ids[i] == k;
          assert i != 0;
          assert ids[1..][i - 1] == k;
        }
        forall i | 0 <= i < |ids[1..]|
          ensures ids[1..][i] in rest
        {
          assert ids[1..][i] == ids[i + 1] && ids[i + 1] != ids[0];
        }
      }
      EnumerationSize(ids[1..], rest);
    } else {
      assert forall k :: k in keys ==> false;
      assert keys == {};
    }
  }
}
