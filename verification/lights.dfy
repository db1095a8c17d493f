/**
  The state of one light as the bridge reports it, and the fixed list of
  attributes the diff engine compares (`HueBridge.light_state_attrs`).
 */
module Lights {

  /** The three attributes kept per light: its name, its brightness level and
      whether it is switched on. */
  datatype Light = Light(name: string, brightness: int, on: bool)

  /** A snapshot maps each light id to the state last seen for it. */
  type Snapshot = map<string, Light>

  /** The attributes compared between two snapshots. */
  datatype Attr = Name | Brightness | On

  /** The order in which attributes are compared, and so the order in which
      the change events of one light are emitted. */
  const LightStateAttrs: seq<Attr> := [Name, Brightness, On]

  /** The value of one attribute, tagged with its type. */
  datatype Value = Str(s: string) | Int(i: int) | Bool(b: bool)

  /** The dictionary key under which an attribute is stored and emitted. */
  function AttrKey(a: Attr): string
  {
    match a
    case Name => "name"
    case Brightness => "brightness"
    case On => "on"
  }

  /** The value of attribute `a` of light `l`. */
  function AttrValue(l: Light, a: Attr): Value
  {
    match a
    case Name => Str(l.name)
    case Brightness => Int(l.brightness)
    case On => Bool(l.on)
  }

  /** The position of an attribute in `LightStateAttrs`. */
  function Rank(a: Attr): (r: nat)
    ensures r < |LightStateAttrs| && LightStateAttrs[r] == a
  {
    match a
    case Name => 0
    case Brightness => 1
    case On => 2
  }

  /** Attribute `a` has a different value before and after a poll. */
  predicate Differs(before: Light, after: Light, a: Attr)
  {
    AttrValue(before, a) != AttrValue(after, a)
  }

  /** Sequences of attributes listed in strictly increasing rank, so each
      attribute at most once and in the order of `LightStateAttrs`. */
  predicate RankSorted(attrs: seq<Attr>)
  {
    forall i, j :: 0 <= i < j < |attrs| ==> Rank(attrs[i]) < Rank(attrs[j])
  }

  /** `LightStateAttrs` lists every attribute, each once, in rank order. */
  lemma LightStateAttrsComplete()
    ensures RankSorted(LightStateAttrs)
    ensures forall a: Attr :: a in LightStateAttrs
    ensures |LightStateAttrs| == 3
  {
    forall a: Attr
      ensures a in LightStateAttrs
    {
      assert LightStateAttrs[Rank(a)] == a;
    }
  }

  /** Distinct attributes are stored under distinct keys, none of them "id",
      so a dictionary `{'id': .., attr: ..}` always has exactly two keys. */
  lemma AttrKeysDistinct(a: Attr, b: Attr)
    ensures AttrKey(a) == AttrKey(b) <==> a == b
    ensures AttrKey(a) != "id"
  {
  }

  /** Two light states are equal exactly when no attribute differs: the three
      attributes determine the light. */
  lemma LightEqualIffNoAttrDiffers(before: Light, after: Light)
    ensures before == after <==> forall a: Attr :: !Differs(before, after, a)
  {
    if forall a: Attr :: !Differs(before, after, a) {
      assert !Differs(before, after, Name);
      assert !Differs(before, after, Brightness);
      assert !Differs(before, after, On);
    }
  }
}
