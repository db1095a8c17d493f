/**
  Concrete runs of the bridge on the two lights of the test fixture
  ("Light 1" at brightness 100, on; "Light 2" at brightness 200, off), and a
  light that disappears and later reappears.

  Each lemma about a poll first states that the iteration orders it uses
  are valid for its snapshots, then what the poll emits.
 */
module Scenarios {
  import opened Lights
  import opened Events
  import opened Devices
  import opened DeviceProperties

  const Light1: Light := Light("Light 1", 100, true)
  const Light2: Light := Light("Light 2", 200, false)
  const Fixture: Snapshot := map["1" := Light1, "2" := Light2]

  /** Light "1" one step brighter. */
  const BrighterLight1: Light := Light("Light 1", 101, true)

  /** Light "1" renamed. */
  const RenamedLight1: Light := Light("Light 1 -- updated", 100, true)

  /** Light "1" switched off. */
  const SwitchedOffLight1: Light := Light("Light 1", 100, false)

  /** Light "2" with all three attributes changed. */
  const UpdatedLight2: Light := Light("Light 2 -- updated", 201, true)

  const Light3: Light := Light("Light 3", 123, true)

  /** Construction on the fixture, in whatever order its ids are visited,
      keeps it and emits one list holding exactly its two lights and
      nothing else. */
  lemma InitOnFixture(order: seq<string>)
    requires Enumerates(order, Fixture.Keys)
    ensures Init(Fixture, order).bridge.lights == Fixture
    ensures |Init(Fixture, order).events| == 1
    ensures var entries := Init(Fixture, order).events[0].entries;
      |entries| == 2 && ("1", Light1) in entries && ("2", Light2) in entries &&
      forall e :: e in entries ==> e == ("1", Light1) || e == ("2", Light2)
  {
    assert Fixture.Keys == {"1", "2"};
  }

  /** Replacing the state of one fixture light keeps both ids, so listing
      both as kept is a valid order. */
  lemma SameIdsOrdersValid(l: Light)
    ensures ValidOrders(Orders(["1", "2"], [], []), Fixture, Fixture["1" := l])
    ensures ValidOrders(Orders(["1", "2"], [], []), Fixture, Fixture["2" := l])
  {
    assert Fixture.Keys == {"1", "2"};
    assert Fixture["1" := l].Keys == {"1", "2"} && Fixture["2" := l].Keys == {"1", "2"};
  }

  /** Dropping light "1" keeps "2" and removes "1", and light "2" is
      unchanged. */
  lemma RemovalOrdersValid()
    ensures ValidOrders(Orders(["2"], ["1"], []), Fixture, map["2" := Light2])
    ensures map["2" := Light2].Keys <= Fixture.Keys
    ensures forall id :: id in map["2" := Light2] ==> Fixture[id] == map["2" := Light2][id]
  {
    var fetched := map["2" := Light2];
    assert Fixture.Keys == {"1", "2"} && fetched.Keys == {"2"};
    assert Fixture.Keys * fetched.Keys == {"2"};
    assert Fixture.Keys - fetched.Keys == {"1"};
    assert fetched.Keys - Fixture.Keys == {};
  }

  /** The object written for a removed light. */
  lemma RemovedObject(id: string)
    ensures Render(Removed(id)) == JObject(map["id" := JString(id), "on" := JBool(false)])
  {
    assert Render(Removed(id)).fields == map["id" := JString(id), "on" := JBool(false)];
  }

  /** Raising the brightness of light "1" by one emits only
      `{"id": "1", "brightness": 101}`. */
  lemma PollBrightnessChange()
    ensures ValidOrders(Orders(["1", "2"], [], []), Fixture, Fixture["1" := BrighterLight1])
    ensures Poll(HueBridge(Fixture), Fixture["1" := BrighterLight1], Orders(["1", "2"], [], [])).events ==
      [AttrChanged("1", Brightness, Int(101))]
    ensures Render(AttrChanged("1", Brightness, Int(101))) == JObject(map["id" := JString("1"), "brightness" := JNumber(101)])
  {
    var o := Orders(["1", "2"], [], []);
    SameIdsOrdersValid(BrighterLight1);
    assert forall a: Attr :: a != Brightness ==> !Differs(Light1, BrighterLight1, a);
    PollOneAttributeOfOneLight(HueBridge(Fixture), o, "1", BrighterLight1, Brightness);
    assert Render(AttrChanged("1", Brightness, Int(101))).fields == map["id" := JString("1"), "brightness" := JNumber(101)];
  }

  /** Renaming light "1" emits only `{"id": "1", "name": "Light 1 -- updated"}`
      and keeps the new name. */
  lemma PollNameChange()
    ensures ValidOrders(Orders(["1", "2"], [], []), Fixture, Fixture["1" := RenamedLight1])
    ensures Poll(HueBridge(Fixture), Fixture["1" := RenamedLight1], Orders(["1", "2"], [], [])).events ==
      [AttrChanged("1", Name, Str("Light 1 -- updated"))]
    ensures Poll(HueBridge(Fixture), Fixture["1" := RenamedLight1], Orders(["1", "2"], [], [])).bridge.lights["1"].name ==
      "Light 1 -- updated"
  {
    var o := Orders(["1", "2"], [], []);
    SameIdsOrdersValid(RenamedLight1);
    assert forall a: Attr :: a != Name ==> !Differs(Light1, RenamedLight1, a);
    PollOneAttributeOfOneLight(HueBridge(Fixture), o, "1", RenamedLight1, Name);
  }

  /** Switching light "1" off emits only `{"id": "1", "on": false}`, the same
      object a removal of light "1" would emit. */
  lemma PollOnOffChange()
    ensures ValidOrders(Orders(["1", "2"], [], []), Fixture, Fixture["1" := SwitchedOffLight1])
    ensures Poll(HueBridge(Fixture), Fixture["1" := SwitchedOffLight1], Orders(["1", "2"], [], [])).events ==
      [AttrChanged("1", On, Bool(false))]
    ensures Render(AttrChanged("1", On, Bool(false))) == Render(Removed("1"))
  {
    var o := Orders(["1", "2"], [], []);
    SameIdsOrdersValid(SwitchedOffLight1);
    assert forall a: Attr :: a != On ==> !Differs(Light1, SwitchedOffLight1, a);
    PollOneAttributeOfOneLight(HueBridge(Fixture), o, "1", SwitchedOffLight1, On);
    RemovalRendersAsSwitchOff("1");
  }

  /** Changing all three attributes of light "2" emits three events, for
      name, brightness and on in that order. */
  lemma PollAllAttributesOfOneLight()
    ensures ValidOrders(Orders(["1", "2"], [], []), Fixture, Fixture["2" := UpdatedLight2])
    ensures Poll(HueBridge(Fixture), Fixture["2" := UpdatedLight2], Orders(["1", "2"], [], [])).events == [
      AttrChanged("2", Name, Str("Light 2 -- updated")),
      AttrChanged("2", Brightness, Int(201)),
      AttrChanged("2", On, Bool(true))]
  {
    var o := Orders(["1", "2"], [], []);
    SameIdsOrdersValid(UpdatedLight2);
    PollOneLightChanged(HueBridge(Fixture), o, "2", UpdatedLight2);
    UpdatedLight2Differences();
  }

  /** The differences of light "2" against its updated state. */
  lemma UpdatedLight2Differences()
    ensures DiffLight("2", Light2, UpdatedLight2) == [
      AttrChanged("2", Name, Str("Light 2 -- updated")),
      AttrChanged("2", Brightness, Int(201)),
      AttrChanged("2", On, Bool(true))]
  {
    assert forall a: Attr :: Differs(Light2, UpdatedLight2, a);
    AllAttributesChange("2", Light2, UpdatedLight2);
  }

  /** Dropping light "1" emits only `{"id": "1", "on": false}`. */
  lemma PollRemovesLight()
    ensures ValidOrders(Orders(["2"], ["1"], []), Fixture, map["2" := Light2])
    ensures Poll(HueBridge(Fixture), map["2" := Light2], Orders(["2"], ["1"], [])).events == [Removed("1")]
    ensures Render(Removed("1")) == JObject(map["id" := JString("1"), "on" := JBool(false)])
  {
    RemovalOrdersValid();
    PollOnlyRemovals(HueBridge(Fixture), map["2" := Light2], Orders(["2"], ["1"], []));
    assert RemovalEvents(["1"]) == [Removed("1")] by {
      assert ["1"][1..] == [];
    }
    RemovedObject("1");
  }

  /** A light that appears on a bridge that had none is emitted in a list
      of its own, with its full state. */
  lemma PollAddsLight()
    ensures ValidOrders(Orders([], [], ["3"]), map[], map["3" := Light3])
    ensures Poll(HueBridge(map[]), map["3" := Light3], Orders([], [], ["3"])).events == [AddedBulk([("3", Light3)])]
  {
    var fetched := map["3" := Light3];
    var empty: Snapshot := map[];
    var o := Orders([], [], ["3"]);
    assert fetched.Keys - empty.Keys == {"3"};
    assert ValidOrders(o, empty, fetched) by {
      assert empty.Keys * fetched.Keys == {} && empty.Keys - fetched.Keys == {};
    }
    PollOnlyAdditions(HueBridge(empty), fetched, o);
    assert NewLightsEntries(fetched, ["3"]) == [("3", Light3)] by {
      assert ["3"][1..] == [];
    }
  }

  /** A light that disappears in one poll and reappears in a later one is
      first reported as switched off, then listed as new with the state it
      has when it reappears, whatever its state before it disappeared. */
  lemma DisappearThenReappear(b: HueBridge, first: Snapshot, o1: Orders, second: Snapshot, o2: Orders, id: string)
    requires id in b.lights && id !in first && id in second
    requires ValidOrders(o1, b.lights, first)
    requires ValidOrders(o2, first, second)
    ensures Poll(b, first, o1).bridge == HueBridge(first)
    ensures multiset(Poll(b, first, o1).events)[Removed(id)] == 1
    ensures var es := Poll(HueBridge(first), second, o2).events;
      es != [] && es[|es| - 1].AddedBulk? && (id, second[id]) in es[|es| - 1].entries
  {
    PollRemovedOnce(b, first, o1, id);
    assert id in second.Keys - first.Keys;
    PollAddedList(HueBridge(first), second, o2);
  }
}
