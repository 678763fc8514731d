/** Filling `{"$var": name}` markers in a request body with call values. */
module VarMarkers {
  import opened Wrappers

  datatype Scalar = Text(text: string) | Other(code: int)

  // A JSON value.  A dict is its keys and its values, in insertion order.
  datatype Json = Plain(scalar: Scalar) | List(items: seq<Json>) | Dict(keys: seq<string>, items: seq<Json>) {
    // A dict with the marker key and nothing else.
    predicate IsMarker() {
      Dict? && keys == ["$var"] && |items| == 1
    }

    // A marker that names no hashable value: looking it up raises a type error.
    predicate IsBroken() {
      IsMarker() && !items[0].Plain?
    }

    predicate HasVarKey() {
      Dict? && "$var" in keys
    }
  }

  type Values = map<string, Json>

  /** The filled object, or None where the source raises. */
  function Substitute(obj: Json, values: Values): Option<Json> {
    match obj
    case Plain(_) => Some(obj)
    case List(items) =>
      var filled := SubstituteEach(items, values);
      if filled.Some? then Some(List(filled.value)) else None
    case Dict(keys, items) =>
      if obj.IsMarker() then
        match items[0]
        case Plain(Text(name)) => Some(if name in values then values[name] else obj)
        case Plain(Other(_)) => Some(obj)
        case _ => None
      else
        var filled := SubstituteEach(items, values);
        if filled.Some? then Some(Dict(keys, filled.value)) else None
  }

  function SubstituteEach(items: seq<Json>, values: Values): (r: Option<seq<Json>>)
    ensures r.Some? ==> |r.value| == |items|
  {
    if items == [] then Some([])
    else
      var head := Substitute(items[0], values);
      var tail := SubstituteEach(items[1..], values);
      if head.Some? && tail.Some? then Some([head.value] + tail.value) else None
  }

  function ContainsVarMarkers(obj: Json): bool {
    match obj
    case Plain(_) => false
    case List(items) => AnyContains(items)
    case Dict(keys, items) => "$var" in keys || AnyContains(items)
  }

  function AnyContains(items: seq<Json>): bool {
    items != [] && (ContainsVarMarkers(items[0]) || AnyContains(items[1..]))
  }

  // ---------- What is in an object ----------

  // The object and everything nested in it, in reading order.
  function Nodes(obj: Json): seq<Json> {
    match obj
    case Plain(_) => [obj]
    case List(items) => [obj] + NodesOf(items)
    case Dict(_, items) => [obj] + NodesOf(items)
  }

  function NodesOf(items: seq<Json>): seq<Json> {
    if items == [] then [] else Nodes(items[0]) + NodesOf(items[1..])
  }

  // The names its markers ask for, in reading order.
  function Names(obj: Json): seq<string> {
    match obj
    case Plain(_) => []
    case List(items) => NamesOf(items)
    case Dict(_, items) =>
      if obj.IsMarker() then (if items[0].Plain? && items[0].scalar.Text? then [items[0].scalar.text] else [])
      else NamesOf(items)
  }

  function NamesOf(items: seq<Json>): seq<string> {
    if items == [] then [] else Names(items[0]) + NamesOf(items[1..])
  }

  // The names asked for once these are filled in: a bound name gives way to its value's own.
  function NamesLeft(names: seq<string>, values: Values): seq<string> {
    if names == [] then []
    else (if names[0] in values then Names(values[names[0]]) else [names[0]]) + NamesLeft(names[1..], values)
  }

  ghost predicate AnyBroken(nodes: seq<Json>) {
    exists n :: n in nodes && n.IsBroken()
  }

  ghost predicate AnyVarKey(nodes: seq<Json>) {
    exists n :: n in nodes && n.HasVarKey()
  }

  // ---------- When it raises, and when there is nothing to do ----------

  /** MAIN: filling raises exactly when some marker, however deep, names a list or a dict; what the
      values are does not matter. */
  lemma {:induction false} FailsIff(obj: Json, values: Values)
    ensures Substitute(obj, values).None? <==> AnyBroken(Nodes(obj))
    decreases obj, 0
  {
    if !obj.Plain? {
      EachFailsIff(obj.items, values);
      assert obj in Nodes(obj);
      if obj.IsMarker() && obj.items[0].Plain? {
        assert obj.items == [obj.items[0]] && NodesOf(obj.items[1..]) == [];
      }
    }
  }

  lemma {:induction false} EachFailsIff(items: seq<Json>, values: Values)
    ensures SubstituteEach(items, values).None? <==> AnyBroken(NodesOf(items))
    decreases items
  {
    if items != [] {
      FailsIff(items[0], values);
      EachFailsIff(items[1..], values);
    }
  }

  /** The guard before filling looks for the marker key in every nested dict. */
  lemma {:induction false} ContainsIff(obj: Json)
    ensures ContainsVarMarkers(obj) <==> AnyVarKey(Nodes(obj))
    decreases obj, 0
  {
    if !obj.Plain? {
      AnyContainsIff(obj.items);
      assert obj in Nodes(obj);
    }
  }

  lemma {:induction false} AnyContainsIff(items: seq<Json>)
    ensures AnyContains(items) <==> AnyVarKey(NodesOf(items))
    decreases items
  {
    if items != [] {
      ContainsIff(items[0]);
      AnyContainsIff(items[1..]);
    }
  }

  /** Without a marker whose name is bound, the object stays as it is. */
  lemma {:induction false} UnboundStays(obj: Json, values: Values)
    requires !AnyBroken(Nodes(obj))
    requires forall n :: n in Names(obj) ==> n !in values
    ensures Substitute(obj, values) == Some(obj)
    decreases obj, 0
  {
    if !obj.Plain? && !obj.IsMarker() {
      EachUnboundStays(obj.items, values);
    } else if obj.IsMarker() {
      assert obj in Nodes(obj);
    }
  }

  lemma {:induction false} EachUnboundStays(items: seq<Json>, values: Values)
    requires !AnyBroken(NodesOf(items))
    requires forall n :: n in NamesOf(items) ==> n !in values
    ensures SubstituteEach(items, values) == Some(items)
    decreases items
  {
    if items != [] {
      UnboundStays(items[0], values);
      EachUnboundStays(items[1..], values);
      assert [items[0]] + items[1..] == items;
    }
  }

  /** An object the guard turns away is one that filling would not change. */
  lemma GuardIsSound(obj: Json, values: Values)
    requires !ContainsVarMarkers(obj)
    ensures Names(obj) == [] && Substitute(obj, values) == Some(obj)
  {
    ContainsIff(obj);
    NamesNeedVarKey(obj);
    UnboundStays(obj, values);
  }

  lemma {:induction false} NamesNeedVarKey(obj: Json)
    requires !AnyVarKey(Nodes(obj))
    ensures Names(obj) == [] && !AnyBroken(Nodes(obj))
    decreases obj, 0
  {
    assert obj in Nodes(obj);
    if !obj.Plain? {
      EachNamesNeedVarKey(obj.items);
    }
  }

  lemma {:induction false} EachNamesNeedVarKey(items: seq<Json>)
    requires !AnyVarKey(NodesOf(items))
    ensures NamesOf(items) == [] && !AnyBroken(NodesOf(items))
    decreases items
  {
    if items != [] {
      NamesNeedVarKey(items[0]);
      EachNamesNeedVarKey(items[1..]);
    }
  }

  /** MAIN: filling works in place.  A bound marker gives way to its value as it is, an unbound one stays; a
      list keeps its length and a dict its keys, and every member is filled on its own. */
  lemma FillsInPlace(obj: Json, values: Values, i: nat)
    ensures obj.Plain? ==> Substitute(obj, values) == Some(obj)
    ensures obj.Dict? && obj.keys == ["$var"] && |obj.items| == 1 && obj.items[0].Plain? ==>
      var name := obj.items[0].scalar;
      Substitute(obj, values) == Some(if name.Text? && name.text in values then values[name.text] else obj)
    ensures var filled := Substitute(obj, values);
      filled.Some? && (obj.List? || (obj.Dict? && !(obj.keys == ["$var"] && |obj.items| == 1))) ==>
        && (obj.List? ==> filled.value.List?)
        && (obj.Dict? ==> filled.value.Dict? && filled.value.keys == obj.keys)
        && |filled.value.items| == |obj.items|
        && (i < |obj.items| ==> Substitute(obj.items[i], values) == Some(filled.value.items[i]))
  {
    if !obj.Plain? && i < |obj.items| && SubstituteEach(obj.items, values).Some? {
      FilledEach(obj.items, values, i);
    }
  }

  lemma {:induction false} FilledEach(items: seq<Json>, values: Values, i: nat)
    requires i < |items| && SubstituteEach(items, values).Some?
    ensures Substitute(items[i], values) == Some(SubstituteEach(items, values).value[i])
  {
    if i > 0 {
      FilledEach(items[1..], values, i - 1);
    }
  }

  // ---------- What is left, and filling in two rounds ----------

  lemma {:induction false} NamesLeftAppend(a: seq<string>, b: seq<string>, values: Values)
    ensures NamesLeft(a + b, values) == NamesLeft(a, values) + NamesLeft(b, values)
  {
    if a == [] {
      assert a + b == b;
    } else {
      assert (a + b)[1..] == a[1..] + b;
      NamesLeftAppend(a[1..], b, values);
    }
  }

  /** MAIN: what a filled object still asks for is exactly what it asked for, in order, each bound name
      giving way to what its value asks for.  With every name bound to plain values nothing is left. */
  lemma {:induction false} NamesAfter(obj: Json, values: Values)
    requires Substitute(obj, values).Some?
    ensures Names(Substitute(obj, values).value) == NamesLeft(Names(obj), values)
    decreases obj, 0
  {
    if !obj.Plain? && !obj.IsMarker() {
      EachNamesAfter(obj.items, values);
    }
  }

  lemma {:induction false} EachNamesAfter(items: seq<Json>, values: Values)
    requires SubstituteEach(items, values).Some?
    ensures NamesOf(SubstituteEach(items, values).value) == NamesLeft(NamesOf(items), values)
    decreases items
  {
    if items != [] {
      NamesAfter(items[0], values);
      EachNamesAfter(items[1..], values);
      NamesLeftAppend(Names(items[0]), NamesOf(items[1..]), values);
      var filled := SubstituteEach(items, values).value;
      assert filled[1..] == SubstituteEach(items[1..], values).value;
    }
  }

  ghost predicate Fillable(v: Values) {
    forall k :: k in v ==> !AnyBroken(Nodes(v[k]))
  }

  // First v, then w: v's values are filled from w, and names v does not bind are left to w.
  ghost function Then(v: Values, w: Values): Values
    requires Fillable(v)
  {
    map k | k in v.Keys + w.Keys :: if k in v then FilledFrom(v[k], w) else w[k]
  }

  ghost function FilledFrom(obj: Json, w: Values): Json
    requires !AnyBroken(Nodes(obj))
  {
    FailsIff(obj, w);
    Substitute(obj, w).value
  }

  /** MAIN: filling in two rounds is filling once from the combined values. */
  lemma {:induction false} TwoRoundsAreOne(obj: Json, v: Values, w: Values)
    requires Fillable(v) && Substitute(obj, v).Some?
    ensures Substitute(Substitute(obj, v).value, w) == Substitute(obj, Then(v, w))
    decreases obj, 0
  {
    if !obj.Plain? && !obj.IsMarker() {
      EachTwoRounds(obj.items, v, w);
    } else if obj.IsMarker() && obj.items[0].scalar.Text? && obj.items[0].scalar.text in v {
      FailsIff(v[obj.items[0].scalar.text], w);
    }
  }

  lemma {:induction false} EachTwoRounds(items: seq<Json>, v: Values, w: Values)
    requires Fillable(v) && SubstituteEach(items, v).Some?
    ensures SubstituteEach(SubstituteEach(items, v).value, w) == SubstituteEach(items, Then(v, w))
    decreases items
  {
    if items != [] {
      TwoRoundsAreOne(items[0], v, w);
      EachTwoRounds(items[1..], v, w);
      assert SubstituteEach(items, v).value[1..] == SubstituteEach(items[1..], v).value;
    }
  }
}
