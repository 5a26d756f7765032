/** The LCM to ROS copy on message objects. */
module ObjectCopyBack {
  import opened Messages
  import opened Conversion
  import opened MessageObjects
  import opened ObjectCopy
  import opened RoundTrip

  /** No message object of `lcm` is handed to `ros` by reference: where the LCM side has a
      message, or a list of messages, the ROS side has one too, or takes LCM list items. */
  ghost predicate Separable(types: Types, lcm: Tree, ros: Tree)
    decreases lcm, 1
  {
    ros.cls in types.declared ==>
      var names := types.Names(ros.cls);
      && Distinct(names)
      && forall i | 0 <= i < |names| && LcmName(names[i]) in lcm.fields && names[i] in ros.fields ::
           SeparableValue(types, lcm.fields[LcmName(names[i])], ros.fields[names[i]],
                 types.declared[ros.cls][i].element)
  }

  ghost predicate SeparableValue(types: Types, lv: Value, rv: Value, element: ElementType)
    decreases lv, 0
  {
    if types.IsRos(rv) then lv.Sub? ==> Separable(types, lv.t, rv.t)
    else if MessageFree(lv) then true
    else
      lv.List? && forall i | 0 <= i < |lv.items| :: SeparableItem(types, lv.items[i], element)
  }

  ghost predicate SeparableItem(types: Types, item: Value, element: ElementType)
    decreases item, 0
  {
    && item.Sub? && !types.IsRos(item)
    && var ros := NewRosItem(types, item, element);
    && (ros.Made? && ros.value.Sub? ==> Separable(types, item.t, ros.value.t))
  }

  method CopyLcmToRos(types: Types, lcm: Message, ros: Message) returns (e: Option<Error>)
    requires BlanksShaped(types) && lcm.Valid() && ros.Valid() && lcm.Repr !! ros.Repr
    requires Separable(types, lcm.tree, ros.tree)
    modifies ros.Repr
    ensures ros.Valid() && fresh(ros.Repr - old(ros.Repr))
    ensures Copy(ros.tree, e) == LcmToRos(types, lcm.tree, old(ros.tree))
    decreases lcm.Repr, 2, 3
  {
    if ros.cls !in types.declared {
      return Some(NotARosMessage);
    }
    var n := |types.declared[ros.cls]|;
    e := None;
    ghost var was := ros.tree;
    var k := 0;
    while k < n && e.None?
      invariant k <= n && lcm.Valid() && ros.Valid() && fresh(ros.Repr - old(ros.Repr))
      invariant LcmToRosFields(types, lcm.tree, k, was) == Copy(ros.tree, e)
    {
      e := CopyNextToRos(types, lcm, k, ros, was);
      k := k + 1;
    }
    if e.Some? { BackErrorStops(types, lcm.tree, k, n, was); }
  }

  /** One turn of the loop: was is the target before the first. */
  method CopyNextToRos(types: Types, lcm: Message, k: nat, ros: Message, ghost was: Tree) returns (e: Option<Error>)
    requires BlanksShaped(types) && lcm.Valid() && ros.Valid() && lcm.Repr !! ros.Repr
    requires ros.cls == was.cls && was.cls in types.declared && k < |types.declared[was.cls]|
          && Separable(types, lcm.tree, was)
    requires LcmToRosFields(types, lcm.tree, k, was) == Copy(ros.tree, None)
    modifies ros.Repr
    ensures ros.Valid() && fresh(ros.Repr - old(ros.Repr))
    ensures LcmToRosFields(types, lcm.tree, k + 1, was) == Copy(ros.tree, e)
    decreases lcm.Repr, 2, 2
  {
    FieldUntouched(types, lcm.tree, was, k, k);
    assert types.Names(was.cls)[k] == types.declared[was.cls][k].name;
    e := CopyFieldToRos(types, lcm, types.declared[ros.cls][k], ros);
  }

  method CopyFieldToRos(types: Types, lcm: Message, f: Field, ros: Message) returns (e: Option<Error>)
    requires BlanksShaped(types) && lcm.Valid() && ros.Valid() && lcm.Repr !! ros.Repr
    requires LcmName(f.name) in lcm.tree.fields && f.name in ros.tree.fields ==>
               SeparableValue(types, lcm.tree.fields[LcmName(f.name)], ros.tree.fields[f.name], f.element)
    modifies ros.Repr
    ensures ros.Valid() && fresh(ros.Repr - old(ros.Repr))
    ensures Copy(ros.tree, e) == LcmToRosField(types, lcm.tree, f, old(ros.tree))
    decreases lcm.Repr, 2, 1
  {
    var l := LcmName(f.name);
    if l !in lcm.fields {
      return None;
    }
    if f.name !in ros.fields {
      return Some(MissingAttribute);
    }
    e := CopyValueToRos(types, lcm, l, ros, f);
  }

  method CopyValueToRos(types: Types, lcm: Message, l: string, ros: Message, f: Field) returns (e: Option<Error>)
    requires BlanksShaped(types) && lcm.Valid() && ros.Valid() && lcm.Repr !! ros.Repr
    requires l in lcm.fields && f.name in ros.fields
    requires SeparableValue(types, lcm.tree.fields[l], ros.tree.fields[f.name], f.element)
    modifies ros.Repr
    ensures ros.Valid() && fresh(ros.Repr - old(ros.Repr))
    ensures var c := LcmToRosValue(types, lcm.tree.fields[l], old(ros.tree).fields[f.name], f.element);
            e == c.error && ros.tree == old(ros.tree).(fields := old(ros.tree).fields[f.name := c.value])
    decreases lcm.Repr, 2, 0
  {
    assert Holds(lcm.fields[l], lcm.parts[l], lcm.tree.fields[l]);
    assert Holds(ros.fields[f.name], ros.parts[f.name], ros.tree.fields[f.name]);
    if ros.fields[f.name].One? && ros.fields[f.name].m.cls in types.declared {
      assert types.IsRos(ros.tree.fields[f.name]);
      e := CopyNested(types, lcm, l, ros, f.name);
      return;
    }
    assert !types.IsRos(ros.tree.fields[f.name]);
    match lcm.fields[l]
    case Leaf(v) =>
      assert v.List? && v.items != [] ==> MessageFree(v.items[0]);
      var byteArray := ros.fields[f.name].Leaf? && ros.fields[f.name].v.ByteArray?;
      var w := if v.Bytes? && byteArray then ByteArray(v.b) else v;
      ros.Set(f.name, Leaf(w), {}, w);
      e := None;
    case Many(ms) =>
      assert !MessageFree(lcm.tree.fields[l]) by {
        assert !MessageFree(lcm.tree.fields[l].items[0]);
      }
      assert lcm.parts[l] < lcm.Repr;
      e := CopyListToRos(types, ms, lcm.parts[l], lcm.tree.fields[l], ros, f);
    case One(_) =>
      assert false;
  }

  /** The nested ROS object stays in place; it is filled when the LCM side has a message. */
  method CopyNested(types: Types, lcm: Message, l: string, ros: Message, f: string) returns (e: Option<Error>)
    requires BlanksShaped(types) && lcm.Valid() && ros.Valid() && lcm.Repr !! ros.Repr
    requires l in lcm.fields && f in ros.fields && ros.fields[f].One?
    requires types.IsRos(ros.tree.fields[f])
    requires lcm.tree.fields[l].Sub? ==> Separable(types, lcm.tree.fields[l].t, ros.tree.fields[f].t)
    modifies ros.Repr
    ensures ros.Valid() && fresh(ros.Repr - old(ros.Repr)) && ros.fields == old(ros.fields)
    ensures var c := LcmToRosInto(types, lcm.tree.fields[l], old(ros.tree).fields[f]);
            e == c.error && ros.tree == old(ros.tree).(fields := old(ros.tree).fields[f := c.value])
    decreases lcm.Repr, 1
  {
    assert Holds(lcm.fields[l], lcm.parts[l], lcm.tree.fields[l]);
    if lcm.fields[l].One? {
      assert lcm.parts[l] < lcm.Repr;
      e := FillNested(types, lcm.fields[l].m, ros, f);
    } else {
      e := None;
      assert ros.tree.fields == ros.tree.fields[f := ros.tree.fields[f]];
    }
  }

  method FillNested(types: Types, m: Message, ros: Message, f: string) returns (e: Option<Error>)
    requires BlanksShaped(types) && m.Valid() && ros.Valid() && m.Repr !! ros.Repr
    requires f in ros.fields && ros.fields[f].One? && types.IsRos(ros.tree.fields[f])
    requires Separable(types, m.tree, ros.tree.fields[f].t)
    modifies ros.Repr
    ensures ros.Valid() && fresh(ros.Repr - old(ros.Repr)) && ros.fields == old(ros.fields)
    ensures var c := LcmToRos(types, m.tree, old(ros.tree).fields[f].t);
            e == c.error && ros.tree == old(ros.tree).(fields := old(ros.tree).fields[f := Sub(c.tree)])
    decreases m.Repr, 3
  {
    var kid := ros.fields[f].m;
    ghost var part := ros.parts[f];
    assert Holds(ros.fields[f], part, ros.tree.fields[f]);
    e := CopyLcmToRos(types, m, kid);
    forall a | a in ros.fields && a != f ensures Holds(ros.fields[a], ros.parts[a], ros.tree.fields[a]) {
      assert ros.parts[a] !! part;
    }
    Reattach(ros, f, kid);
  }

  method CopyListToRos(types: Types, ms: seq<Message>, ghost within: set<Message>, ghost lv: Value, ros: Message,
        f: Field)
    returns (e: Option<Error>)
    requires BlanksShaped(types) && Holds(Many(ms), within, lv)
    requires ros.Valid() && f.name in ros.fields && !types.IsRos(ros.tree.fields[f.name]) && ros.Repr !! within
    requires !MessageFree(lv) && SeparableValue(types, lv, ros.tree.fields[f.name], f.element)
    modifies ros
    ensures ros.Valid() && fresh(ros.Repr - old(ros.Repr))
    ensures var c := LcmToRosValue(types, lv, old(ros.tree).fields[f.name], f.element);
            e == c.error && ros.tree == old(ros.tree).(fields := old(ros.tree).fields[f.name := c.value])
    decreases within, 4
  {
    var out;
    ghost var part, c;
    assert SeparableItem(types, lv.items[0], f.element);
    e, out, part, c := BuildRosList(types, ms, within, lv, f.element);
    if e.None? {
      ros.Set(f.name, Many(out), part, List(c.items));
    } else {
      assert ros.tree.fields == ros.tree.fields[f.name := ros.tree.fields[f.name]];
    }
  }

  method BuildRosList(types: Types, ms: seq<Message>, ghost within: set<Message>, ghost lv: Value,
        element: ElementType)
    returns (e: Option<Error>, out: seq<Message>, ghost part: set<Message>, ghost c: ItemsCopy)
    requires BlanksShaped(types) && Holds(Many(ms), within, lv)
    requires forall i | 0 <= i < |lv.items| :: SeparableItem(types, lv.items[i], element)
    ensures c == LcmToRosItems(types, lv, |lv.items|, element) && e == c.error
    ensures e.None? ==> Holds(Many(out), part, List(c.items)) && fresh(part)
    decreases within, 3
  {
    ghost var items;
    e, out, part, items := FillRosList(types, ms, within, lv, element);
    c := ItemsCopy(items, e);
    if e.None? { BuiltHolds(out, part, items); }
  }

  method FillRosList(types: Types, ms: seq<Message>, ghost within: set<Message>, ghost lv: Value,
        element: ElementType)
    returns (e: Option<Error>, out: seq<Message>, ghost part: set<Message>, ghost items: seq<Value>)
    requires BlanksShaped(types) && Holds(Many(ms), within, lv)
    requires forall i | 0 <= i < |lv.items| :: SeparableItem(types, lv.items[i], element)
    ensures Built(out, part, items) && fresh(part) && (e.None? ==> |out| == |ms|)
    ensures LcmToRosItems(types, lv, |lv.items|, element) == ItemsCopy(items, e)
    decreases within, 2, 6
  {
    e, out, part, items := None, [], {}, [];
    var k := 0;
    while k < |ms| && e.None?
      invariant k <= |ms| && fresh(part) && Built(out, part, items) && Holds(Many(ms), within, lv)
      invariant LcmToRosItems(types, lv, k, element) == ItemsCopy(items, e) && (e.None? ==> |out| == k)
    {
      e, out, part, items := AppendNextToRos(types, ms, k, within, lv, element, out, part, items);
      k := k + 1;
    }
    if e.Some? { BackItemErrorStops(types, lv, k, |ms|, element); }
  }

  /** One turn of the loop. */
  method AppendNextToRos(types: Types, ms: seq<Message>, k: nat, ghost within: set<Message>, ghost lv: Value,
                         element: ElementType, out: seq<Message>, ghost part: set<Message>,
                               ghost items: seq<Value>)
    returns (e: Option<Error>, more: seq<Message>, ghost morePart: set<Message>, ghost moreItems: seq<Value>)
    requires BlanksShaped(types) && Holds(Many(ms), within, lv) && k < |ms|
          && SeparableItem(types, lv.items[k], element)
    requires Built(out, part, items) && LcmToRosItems(types, lv, k, element) == ItemsCopy(items, None)
    ensures Built(more, morePart, moreItems) && fresh(morePart - part) && part <= morePart
    ensures LcmToRosItems(types, lv, k + 1, element) == ItemsCopy(moreItems, e)
    ensures |moreItems| == if e.None? then |items| + 1 else |items|
    decreases within, 2, 5
  {
    var item;
    item, e := CopyItemToRos(types, ms[k], within, lv.items[k], element);
    ItemsToRosMore(types, lv, k, element);
    more, morePart, moreItems := out, part, items;
    if e.None? {
      BuiltMore(out, part, items, item);
      more, morePart, moreItems := out + [item], part + item.Repr, items + [Sub(item.tree)];
    }
  }

  method CopyItemToRos(types: Types, m: Message, ghost within: set<Message>, ghost lv: Value,
        element: ElementType)
    returns (item: Message, e: Option<Error>)
    requires BlanksShaped(types) && m.Valid() && m.Repr <= within && lv == Sub(m.tree)
    requires SeparableItem(types, lv, element)
    ensures var c := ItemToRos(types, lv, element);
            e == c.error && (e.None? ==> item.Valid() && fresh(item.Repr) && c.value == Sub(item.tree))
    decreases within, 2, 4
  {
    assert m.cls == m.tree.cls;
    // The instance depends on the class of the LCM item only.
    var made := NewRosItem(types, Sub(Node(m.cls, map[])), element);
    assert made == NewRosItem(types, lv, element);
    if made.Failed? {
      item := new Message(m.cls);
      return item, Some(made.error);
    }
    item := Instantiate(made.value.t);
    e := CopyLcmToRos(types, m, item);
  }
}
