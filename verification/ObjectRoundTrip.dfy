/** The two in-place copies one after the other. */
module ObjectRoundTrip {
  import opened Messages
  import opened Conversion
  import opened MessageObjects
  import opened RoundTrip
  import opened ObjectCopy
  import opened ObjectCopyBack

  /** Every list, here and deeper, holds messages only, or none. */
  ghost predicate Uniform(m: Tree) {
    forall a | a in m.fields :: UniformValue(m.fields[a])
  }

  ghost predicate UniformValue(v: Value) {
    match v
    case Sub(t) => Uniform(t)
    case List(items) => MessageFree(v) || forall i | 0 <= i < |items| :: items[i].Sub? && Uniform(items[i].t)
    case _ => true
  }

  /** What an object stands for is uniform. */
  lemma {:induction false} ObjectsUniform(m: Message)
    requires m.Valid()
    ensures Uniform(m.tree)
    decreases m.Repr
  {
    forall a | a in m.tree.fields ensures UniformValue(m.tree.fields[a]) {
      assert Holds(m.fields[a], m.parts[a], m.tree.fields[a]);
      match m.fields[a]
      case Leaf(v) =>
      case One(kid) =>
        assert m.parts[a] < m.Repr;
        ObjectsUniform(kid);
      case Many(ms) =>
        assert m.parts[a] < m.Repr;
        forall i | 0 <= i < |ms| ensures Uniform(ms[i].tree) {
          ObjectsUniform(ms[i]);
        }
    }
  }

  /** What a copy of `m` sends can be copied back without handing over a message by reference. */
  lemma {:induction false} SentSeparable(types: Types, m: Tree, lp: Tree, rp: Tree)
    requires Fits(types, m, lp, rp) && Uniform(m)
    ensures Separable(types, RosToLcm(types, m, lp).tree, rp)
    decreases m, 3
  {
    var n, names := |types.declared[m.cls]|, types.Names(m.cls);
    var sent := seq(n, i requires 0 <= i < n =>
      if Mapped(types, m.cls, lp, i) then RosToLcmValue(types, m.fields[names[i]], lp.fields[LcmName(names[i])]).value
      else Scalar(Num(0)));
    forall i | 0 <= i < n && Mapped(types, m.cls, lp, i)
      ensures Sends(types, m, lp, i, sent[i])
      ensures SeparableValue(types, sent[i], rp.fields[names[i]], types.declared[m.cls][i].element)
    {
      var v, lv, rv := m.fields[names[i]], lp.fields[LcmName(names[i])], rp.fields[names[i]];
      ValueTrip(types, v, lv, rv, types.declared[m.cls][i].element);
      ValueSeparable(types, v, lv, rv, types.declared[m.cls][i].element);
    }
    FitsSendable(types, m, lp, rp, sent);
    AllSent(types, m, lp, n, sent);
  }

  lemma {:induction false} ValueSeparable(types: Types, v: Value, lv: Value, rv: Value, element: ElementType)
    requires FitsValue(types, v, lv, rv, element) && UniformValue(v)
    ensures SeparableValue(types, RosToLcmValue(types, v, lv).value, rv, element)
    decreases v, 2
  {
    if v.Sub? {
      if lv.Sub? { SentSeparable(types, v.t, lv.t, rv.t); }
    } else if v.List? && v.items != [] && v.items[0].Sub? {
      ListSeparable(types, v, lv, rv, element);
    }
  }

  lemma {:induction false} ListSeparable(types: Types, v: Value, lv: Value, rv: Value, element: ElementType)
    requires v.List? && v.items != [] && v.items[0].Sub? && UniformValue(v) && FitsValue(types, v, lv, rv, element)
    ensures SeparableValue(types, RosToLcmValue(types, v, lv).value, rv, element)
    decreases v, 1
  {
    var n := |v.items|;
    var there := seq(n, i requires 0 <= i < n => RosToLcm(types, v.items[i].t, LcmElement(types, v.items[i], lv)).tree);
    var back := seq(n, i requires 0 <= i < n =>
      LcmToRos(types, there[i], RosElement(types, v.items[i], lv, element)).tree);
    assert !MessageFree(v) by { assert !MessageFree(v.items[0]); }
    forall i | 0 <= i < n
      ensures ItemTrip(types, v.items[i], lv, element, there[i], back[i])
      ensures SeparableItem(types, Sub(there[i]), element)
    {
      ItemSeparable(types, v.items[i], lv, element);
    }
    ItemsThere(types, v, n, lv, element, there, back);
    assert types.IsRos(v.items[0]);
  }

  lemma {:induction false} ItemSeparable(types: Types, item: Value, lv: Value, element: ElementType)
    requires types.IsRos(item) && ElementsMade(types, item, lv, element) && Uniform(item.t)
    requires Fits(types, item.t, LcmElement(types, item, lv), RosElement(types, item, lv, element))
    ensures var there := RosToLcm(types, item.t, LcmElement(types, item, lv)).tree;
            && ItemTrip(types, item, lv, element, there,
                        LcmToRos(types, there, RosElement(types, item, lv, element)).tree)
            && SeparableItem(types, Sub(there), element)
    decreases item, 4
  {
    var lcm, ros := LcmElement(types, item, lv), RosElement(types, item, lv, element);
    RosRoundTrip(types, item.t, lcm, ros);
    SentSeparable(types, item.t, lcm, ros);
    var there := RosToLcm(types, item.t, lcm).tree;
    assert NewRosItem(types, Sub(there), element) == NewRosItem(types, NewLcmItem(types, item, lv).value, element);
  }

  lemma BothCopies(types: Types, m: Tree, lp: Tree, rp: Tree)
    requires Fits(types, m, lp, rp) && Uniform(m)
    ensures var there := RosToLcm(types, m, lp);
            && there.error.None? && Separable(types, there.tree, rp)
            && var back := LcmToRos(types, there.tree, rp);
            && back.error.None? && Restored(types, m, lp, rp, back.tree)
  {
    RosRoundTrip(types, m, lp, rp);
    SentSeparable(types, m, lp, rp);
  }

  /** A ROS message object copied into a LCM object and from there into another ROS object: neither copy
      raises, the source is as it was, and the other object stands for what was sent on every path that
      exists on both sides. */
  method ThereAndBack(types: Types, ros: Message, lcm: Message, back: Message) returns (e: Option<Error>)
    requires BlanksShaped(types) && ros.Valid() && lcm.Valid() && back.Valid()
    requires ros.Repr !! lcm.Repr && ros.Repr !! back.Repr && lcm.Repr !! back.Repr
    requires RosOnly(types, ros.tree) && Fits(types, ros.tree, lcm.tree, back.tree)
    modifies lcm.Repr, back.Repr
    ensures e == None && ros.Valid() && ros.tree == old(ros.tree) && back.Valid()
    ensures Restored(types, old(ros.tree), old(lcm.tree), old(back.tree), back.tree)
  {
    ObjectsUniform(ros);
    BothCopies(types, ros.tree, lcm.tree, back.tree);
    e := CopyRosToLcm(types, ros, lcm);
    assert ros.Valid() && back.Valid() && back.tree == old(back.tree);
    e := CopyLcmToRos(types, lcm, back);
  }
}
