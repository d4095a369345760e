/** The nearest reading in a list of distance sensors. */
module Sensor {
  import opened Options
  import opened Json
  import opened Keys
  import opened Nodes
  import opened Edits
  import opened HeapText
  import opened HeapParser
  import opened Lookup
  import opened Swarm
  import opened SwarmCodec

  const FARTHEST := 0xFFFF

  /** The reading of one sensor, if it has a numeric one. */
  ghost function Reading(x: Tree): Option<int> {
    var j := FirstMatch(x.kids, VALUE);
    if j < |x.kids| && x.kids[j].data.kind == KNumber then Some(x.kids[j].data.whole) else None
  }

  /** The same on the value that was parsed. */
  lemma ReadingInValue(x: Tree)
    requires Typed(x)
    ensures Reading(x) == match ItemOf(Value(x), "value") case Some(Num(n)) => Some(Truncate(n)) case _ => None
  {
    hide Truncate, Value, Typed, ItemOf;
    FoundItem(x, VALUE);
    var j := FirstMatch(x.kids, VALUE);
    hide FirstMatch;
    if j < |x.kids| {
      NumberKind(x.kids[j]);
    }
  }

  lemma NumberKind(t: Tree)
    requires Typed(t)
    ensures Value(t).Num? <==> t.data.kind == KNumber
    ensures t.data.kind == KNumber ==> Value(t) == Num(t.data.num) && t.data.whole == Truncate(t.data.num)
  {
    hide Truncate;
  }

  /** `cJSON_GetArrayItem` and `cJSON_GetObjectItem` of one sensor. */
  method ReadSensor(node: Node, i: nat, ghost t: Tree) returns (r: Option<int>)
    requires t.node == node && Holds(t) && i < |t.kids|
    ensures r == Reading(t.kids[i])
  {
    AllAllocated(t);
    var subArray := ItemAt(node.child, i, t.kids);
    assert AllHold(t.kids) && Holds(t.kids[i]);
    AllAllocated(t.kids[i]);
    var subNode := GetObjectItem(subArray, VALUE, t.kids[i]);
    r := None;
    if subNode != null {
      ghost var x := t.kids[i];
      assert AllHold(x.kids) && Holds(x.kids[FirstMatch(x.kids, VALUE)]);
      if subNode.kind == KNumber {
        r := Some(subNode.valueint);
      }
    }
  }

  /**
   The loop over the ultrasonic or infrared sensors: the least reading that is not 0, and `FARTHEST` when none is
   less; it is found when any sensor has a reading at all, be it 0.
   */
  method NearestReading(node: Node, ghost t: Tree) returns (nearest: int, found: bool)
    requires t.node == node && Holds(t)
    ensures found <==> exists k :: 0 <= k < |t.kids| && Reading(t.kids[k]).Some?
    ensures nearest <= 0xFFFF
    ensures forall k | 0 <= k < |t.kids| && Reading(t.kids[k]).Some? :: Reading(t.kids[k]).value != 0 ==>
      nearest <= Reading(t.kids[k]).value
    ensures nearest == 0xFFFF
      || (nearest != 0 && exists k :: 0 <= k < |t.kids| && Reading(t.kids[k]) == Some(nearest))
  {
    hide Reading;
    AllAllocated(t);
    var count := GetArraySize(node, t);
    nearest, found := FARTHEST, false;
    for i := 0 to count
      invariant Holds(t) && nearest <= FARTHEST
      invariant found <==> exists k :: 0 <= k < i && Reading(t.kids[k]).Some?
      invariant forall k | 0 <= k < i && Reading(t.kids[k]).Some? :: Reading(t.kids[k]).value != 0 ==>
        nearest <= Reading(t.kids[k]).value
      invariant nearest == FARTHEST
        || (nearest != 0 && exists k :: 0 <= k < i && Reading(t.kids[k]) == Some(nearest))
    {
      AllAllocated(t);
      var r := ReadSensor(node, i, t);
      if r.Some? {
        if r.value != 0 && nearest > r.value {
          nearest := r.value;
        }
        found := true;
      }
    }
  }
}
