/**
  The events the bridge emits, and the JSON-shaped objects they are written
  as (the dictionaries and lists that `output_object` receives).
 */
module Events {
  import opened Lights

  /** One emitted object.
      - `AttrChanged`: one attribute of a light still present has a new value
        (`output_difference`);
      - `Removed`: a light disappeared, reported as switched off
        (`output_deleted_light`);
      - `AddedBulk`: one list holding every newly seen light with its full
        state (`output_new_lights`). */
  datatype Event =
    | AttrChanged(id: string, attr: Attr, value: Value)
    | Removed(id: string)
    | AddedBulk(entries: seq<(string, Light)>)

  /** The JSON values that appear in emitted objects. */
  datatype Json =
    | JString(s: string)
    | JNumber(n: int)
    | JBool(b: bool)
    | JObject(fields: map<string, Json>)
    | JArray(items: seq<Json>)

  function ValueJson(v: Value): Json
  {
    match v
    case Str(s) => JString(s)
    case Int(i) => JNumber(i)
    case Bool(b) => JBool(b)
  }

  /** The dictionary a light state is kept as: one key per attribute. */
  function LightFields(l: Light): (m: map<string, Json>)
    ensures m.Keys == {"name", "brightness", "on"}
    ensures forall a: Attr :: AttrKey(a) in m && m[AttrKey(a)] == ValueJson(AttrValue(l, a))
  {
    map[AttrKey(Name) := ValueJson(AttrValue(l, Name)),
        AttrKey(Brightness) := ValueJson(AttrValue(l, Brightness)),
        AttrKey(On) := ValueJson(AttrValue(l, On))]
  }

  /** The object of a new light: its three fields with its id added. */
  function LightObject(id: string, l: Light): (j: Json)
    ensures j.JObject?
    ensures j.fields.Keys == {"id", "name", "brightness", "on"}
    ensures j.fields["id"] == JString(id)
    ensures forall a: Attr :: j.fields[AttrKey(a)] == ValueJson(AttrValue(l, a))
  {
    JObject(map["id" := JString(id)] + LightFields(l))
  }

  /** The object written for an event. */
  function Render(e: Event): (j: Json)
    ensures e.AttrChanged? ==>
      && j.JObject?
      && j.fields.Keys == {"id", AttrKey(e.attr)}
      && |j.fields| == 2
      && j.fields["id"] == JString(e.id)
      && j.fields[AttrKey(e.attr)] == ValueJson(e.value)
    ensures e.Removed? ==>
      && j.JObject?
      && j.fields.Keys == {"id", "on"}
      && j.fields["id"] == JString(e.id)
      && j.fields["on"] == JBool(false)
    ensures e.AddedBulk? ==>
      && j.JArray?
      && |j.items| == |e.entries|
      && forall k :: 0 <= k < |e.entries| ==> j.items[k] == LightObject(e.entries[k].0, e.entries[k].1)
  {
    match e
    case AttrChanged(id, a, v) =>
      AttrKeysDistinct(a, a);
      assert {"id", AttrKey(a)} == {"id"} + {AttrKey(a)};
      JObject(map["id" := JString(id), AttrKey(a) := ValueJson(v)])
    case Removed(id) =>
      JObject(map["id" := JString(id), "on" := JBool(false)])
    case AddedBulk(entries) =>
      JArray(seq(|entries|, k requires 0 <= k < |entries| => LightObject(entries[k].0, entries[k].1)))
  }

  /** A removal is written exactly as a change of `on` to false would be: a
      reader of the output cannot tell the two apart. */
  lemma RemovalRendersAsSwitchOff(id: string)
    ensures Render(Removed(id)) == Render(AttrChanged(id, On, Bool(false)))
  {
  }

  /** Two attribute-change events are written as different objects unless
      they are the same event. */
  lemma RenderAttrChangedInjective(e1: Event, e2: Event)
    requires e1.AttrChanged? && e2.AttrChanged?
    requires Render(e1) == Render(e2)
    ensures e1 == e2
  {
    var j := Render(e1);
    assert AttrKey(e1.attr) in j.fields.Keys;
    AttrKeysDistinct(e1.attr, e2.attr);
    AttrKeysDistinct(e1.attr, e1.attr);
  }
}
