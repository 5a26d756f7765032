/** An LCM message copied to a ROS instance and back: what publishing on one side and
    receiving on the other does. */
module LcmRoundTrip {
  import opened Messages
  import opened Conversion
  import opened ConversionFrame
  import opened RoundTrip

  /** `m` is an instance of the class of `lp`, with kinds of values the ROS instance `rp` holds.
      Attributes that no ROS field maps to are at their default, or are right length companions. */
  ghost predicate FitsBack(types: Types, m: Tree, rp: Tree, lp: Tree)
    decreases m, 1
  {
    && m.cls == lp.cls && m.cls !in types.declared && rp.cls in types.declared
    && var fs := types.declared[rp.cls];
    && var names := types.Names(rp.cls);
    && Distinct(names) && rp.fields.Keys == (set n | n in names)
    && m.fields.Keys == lp.fields.Keys
    && (forall i, j | 0 <= i < j < |fs| && LcmName(names[i]) in m.fields && LcmName(names[j]) in m.fields ::
         && Leaves(names[i], names[j], HasLength(m.fields[LcmName(names[j])]))
         && FindsDefault(names[i], names[j], HasLength(m.fields[LcmName(names[i])]),
                         m.fields[LcmName(names[j])].Sub? || m.fields[LcmName(names[j])].List?))
    && (forall i | 0 <= i < |fs| && LcmName(names[i]) in m.fields ::
          FitsBackValue(types, m.fields[LcmName(names[i])], rp.fields[names[i]], lp.fields[LcmName(names[i])],
                        fs[i].element))
    && (forall a | a in m.fields && (forall n | n in names :: LcmName(n) != a) ::
          DefaultOrLength(types, rp.cls, m, lp, a))
  }

  ghost predicate DefaultOrLength(types: Types, ros: Class, m: Tree, lp: Tree, a: string)
    requires ros in types.declared && a in m.fields && m.fields.Keys == lp.fields.Keys
  {
    && (forall n | n in types.Names(ros) && LcmName(n) in m.fields && LengthName(LcmName(n)) == a
          && HasLength(m.fields[LcmName(n)]) ::
          m.fields[a] == Scalar(Num(Length(m.fields[LcmName(n)]))))
    && ((forall n | n in types.Names(ros) && LcmName(n) in m.fields && LengthName(LcmName(n)) == a ::
           !HasLength(m.fields[LcmName(n)]))
        ==> m.fields[a] == lp.fields[a])
  }

  ghost predicate FitsBackValue(types: Types, v: Value, rv: Value, lv: Value, element: ElementType)
    decreases v, 0
  {
    match v
    case Sub(t) => types.IsRos(rv) && lv.Sub? && FitsBack(types, t, rv.t, lv.t)
    case ByteArray(_) => false
    case Bytes(_) => !types.IsRos(rv)
    case Scalar(_) => !types.IsRos(rv)
    case List(items) =>
      && !types.IsRos(rv)
      && (items != [] && items[0].Sub? ==>
            forall i | 0 <= i < |items| ::
              && items[i].Sub?
              && ElementsMadeBack(types, items[i], lv, element)
              && FitsBack(types, items[i].t, RosMade(types, items[i], element), LcmMade(types, items[i], lv, element)))
  }

  predicate ElementsMadeBack(types: Types, item: Value, lv: Value, element: ElementType) {
    var ros := NewRosItem(types, item, element);
    && ros.Made? && types.IsRos(ros.value)
    && var lcm := NewLcmItem(types, ros.value, lv);
    && lcm.Made? && lcm.value.Sub?
  }

  function RosMade(types: Types, item: Value, element: ElementType): Tree
    requires var ros := NewRosItem(types, item, element); ros.Made? && types.IsRos(ros.value)
  {
    NewRosItem(types, item, element).value.t
  }

  function LcmMade(types: Types, item: Value, lv: Value, element: ElementType): Tree
    requires ElementsMadeBack(types, item, lv, element)
  {
    NewLcmItem(types, NewRosItem(types, item, element).value, lv).value.t
  }

  /** After the first k fields, attribute a is the length that was sent for the field whose companion it is;
      if there is no such field, or what was sent has no length, it is as before. */
  ghost predicate CompanionAt(types: Types, c: Class, lp: Tree, k: nat, sent: seq<Value>, a: string, lcm: Tree)
    requires c in types.declared && k <= |types.declared[c]| == |sent| && a in lp.fields
  {
    var names := types.Names(c);
    && a in lcm.fields
    && (forall i | 0 <= i < k && Mapped(types, c, lp, i) && LengthName(LcmName(names[i])) == a && HasLength(sent[i]) ::
          lcm.fields[a] == Scalar(Num(Length(sent[i]))))
    && ((forall i | 0 <= i < k && Mapped(types, c, lp, i) && LengthName(LcmName(names[i])) == a :: !HasLength(sent[i]))
        ==> lcm.fields[a] == lp.fields[a])
  }

  lemma CompanionMore(types: Types, ros: Tree, lp: Tree, k: nat, sent: seq<Value>, a: string)
    requires ros.cls in types.declared && k < |types.declared[ros.cls]| == |sent|
    requires Sendable(types, ros, lp, k + 1, sent)
    requires a in lp.fields && LcmName(types.Names(ros.cls)[k]) != a
    requires CompanionAt(types, ros.cls, lp, k, sent, a, RosToLcmFields(types, ros, k, lp).tree)
    ensures CompanionAt(types, ros.cls, lp, k + 1, sent, a, RosToLcmFields(types, ros, k + 1, lp).tree)
  {
    AllSent(types, ros, lp, k, sent);
    var names := types.Names(ros.cls);
    if Mapped(types, ros.cls, lp, k) {
      NowSent(types, ros, lp, k, sent);
      var c, l := RosToLcmFields(types, ros, k, lp).tree, LcmName(names[k]);
      StoredElsewhere(c, l, sent[k], a);
      assert RosToLcmFields(types, ros, k + 1, lp).tree == WithLength(c.(fields := c.fields[l := sent[k]]), l);
      forall i | 0 <= i < k && Mapped(types, ros.cls, lp, i)
        ensures LengthName(LcmName(names[i])) != LengthName(LcmName(names[k]))
      {
        assert Apart(types, ros, i, k, sent);
        LengthNameInjective(LcmName(names[i]), LcmName(names[k]));
      }
      CompanionStored(types, ros.cls, lp, k, sent, a, c, RosToLcmFields(types, ros, k + 1, lp).tree);
    }
  }

  lemma CompanionStored(types: Types, c: Class, lp: Tree, k: nat, sent: seq<Value>, a: string, lcm: Tree, out: Tree)
    requires c in types.declared && k < |types.declared[c]| == |sent| && a in lp.fields && Mapped(types, c, lp, k)
    requires CompanionAt(types, c, lp, k, sent, a, lcm) && a in out.fields
    requires out.fields[a] == if a == LengthName(LcmName(types.Names(c)[k])) && HasLength(sent[k])
                              then Scalar(Num(Length(sent[k]))) else lcm.fields[a]
    requires forall i | 0 <= i < k && Mapped(types, c, lp, i) ::
               LengthName(LcmName(types.Names(c)[i])) != LengthName(LcmName(types.Names(c)[k]))
    ensures CompanionAt(types, c, lp, k + 1, sent, a, out)
  {
  }

  /** What the first k fields leave in an attribute that none of them maps to. */
  lemma {:induction false} CompanionValue(types: Types, ros: Tree, lp: Tree, k: nat, sent: seq<Value>, a: string)
    requires ros.cls in types.declared && k <= |types.declared[ros.cls]| == |sent| && Sendable(types, ros, lp, k, sent)
    requires a in lp.fields && forall i | 0 <= i < k :: LcmName(types.Names(ros.cls)[i]) != a
    ensures CompanionAt(types, ros.cls, lp, k, sent, a, RosToLcmFields(types, ros, k, lp).tree)
  {
    for n := 0 to k
      invariant CompanionAt(types, ros.cls, lp, n, sent, a, RosToLcmFields(types, ros, n, lp).tree)
    {
      CompanionMore(types, ros, lp, n, sent, a);
    }
  }

  /** LCM to ROS and back: neither copy raises, and the same message comes back. */
  lemma {:induction false} LcmComesBack(types: Types, m: Tree, rp: Tree, lp: Tree)
    requires FitsBack(types, m, rp, lp)
    ensures var there := LcmToRos(types, m, rp);
            there.error.None? && there.tree.cls == rp.cls && RosToLcm(types, there.tree, lp) == Copy(m, None)
    decreases m, 3
  {
    var n := |types.declared[rp.cls]|;
    var names := types.Names(rp.cls);
    var got := seq(n, i requires 0 <= i < n =>
      if Mapped(types, rp.cls, m, i) then LcmToRosValue(types, m.fields[LcmName(names[i])], rp.fields[names[i]],
            types.declared[rp.cls][i].element).value
      else Scalar(Num(0)));
    var sent := seq(n, i requires 0 <= i < n =>
      if Mapped(types, rp.cls, m, i) then m.fields[LcmName(names[i])] else Scalar(Num(0)));
    forall i | 0 <= i < n && Mapped(types, rp.cls, m, i)
      ensures Returns(types, m, rp, i, got[i])
      ensures RosToLcmValue(types, got[i], lp.fields[LcmName(names[i])]) == ValueCopy(sent[i], None)
      ensures Structured(types, got[i]) ==> sent[i].Sub? || sent[i].List?
    {
      BackValueTrip(types, m.fields[LcmName(names[i])], rp.fields[names[i]], lp.fields[LcmName(names[i])],
            types.declared[rp.cls][i].element);
    }
    AllReturned(types, m, rp, n, got);
    var ros := LcmToRos(types, m, rp).tree;
    forall i | 0 <= i < n && Mapped(types, rp.cls, lp, i) ensures Sends(types, ros, lp, i, sent[i]) {
      assert Mapped(types, rp.cls, m, i);
    }
    BackSendable(types, m, rp, lp, ros, sent);
    EveryAttribute(types, m, rp.cls, ros, lp, sent);
  }

  /** The ROS message can be sent back. */
  lemma BackSendable(types: Types, m: Tree, rp: Tree, lp: Tree, ros: Tree, sent: seq<Value>)
    requires FitsBack(types, m, rp, lp) && ros.cls == rp.cls && |sent| == |types.declared[rp.cls]|
    requires forall i | 0 <= i < |sent| && Mapped(types, rp.cls, lp, i) ::
               Sends(types, ros, lp, i, sent[i]) && sent[i] == m.fields[LcmName(types.Names(rp.cls)[i])]
               && (Structured(types, ros.fields[types.Names(rp.cls)[i]]) ==> sent[i].Sub? || sent[i].List?)
    ensures Sendable(types, ros, lp, |sent|, sent)
  {
    forall i, j | 0 <= i < j < |sent| && Mapped(types, rp.cls, lp, i) && Mapped(types, rp.cls, lp, j)
      ensures Apart(types, ros, i, j, sent)
    {
    }
  }

  /** An attribute that no field maps to. */
  lemma UnmappedComesBack(types: Types, m: Tree, c: Class, lp: Tree, sent: seq<Value>, a: string, out: Tree)
    requires c in types.declared && |sent| == |types.declared[c]| && m.fields.Keys == lp.fields.Keys
    requires forall i | 0 <= i < |sent| && Mapped(types, c, lp, i) ::
               sent[i] == m.fields[LcmName(types.Names(c)[i])]
    requires a in m.fields && DefaultOrLength(types, c, m, lp, a) && CompanionAt(types, c, lp, |sent|, sent, a, out)
    ensures out.fields[a] == m.fields[a]
  {
    var names := types.Names(c);
    if n :| n in names && LcmName(n) in m.fields && LengthName(LcmName(n)) == a && HasLength(m.fields[LcmName(n)]) {
      var i :| 0 <= i < |names| && names[i] == n;
      assert Mapped(types, c, lp, i);
    } else {
      forall i | 0 <= i < |sent| && Mapped(types, c, lp, i) && LengthName(LcmName(names[i])) == a
        ensures !HasLength(sent[i])
      {
        assert names[i] in names;
      }
    }
  }

  lemma EveryAttribute(types: Types, m: Tree, c: Class, ros: Tree, lp: Tree, sent: seq<Value>)
    requires c in types.declared && ros.cls == c && |sent| == |types.declared[c]|
    requires m.cls == lp.cls && m.fields.Keys == lp.fields.Keys && Sendable(types, ros, lp, |sent|, sent)
    requires forall i | 0 <= i < |sent| && Mapped(types, c, lp, i) ::
               sent[i] == m.fields[LcmName(types.Names(c)[i])]
    requires forall a | a in m.fields && (forall n | n in types.Names(c) :: LcmName(n) != a) ::
          DefaultOrLength(types, c, m, lp, a)
    ensures RosToLcm(types, ros, lp) == Copy(m, None)
  {
    var names := types.Names(c);
    AllSent(types, ros, lp, |sent|, sent);
    var out := RosToLcmFields(types, ros, |sent|, lp);
    forall a | a in m.fields ensures out.tree.fields[a] == m.fields[a] {
      if n :| n in names && LcmName(n) == a {
        var i :| 0 <= i < |names| && names[i] == n;
        assert Mapped(types, c, lp, i);
      } else {
        forall i | 0 <= i < |sent| ensures LcmName(names[i]) != a {
          assert names[i] in names;
        }
        CompanionValue(types, ros, lp, |sent|, sent, a);
        UnmappedComesBack(types, m, c, lp, sent, a, out.tree);
      }
    }
    assert out.tree.fields == m.fields;
  }

  lemma {:induction false} BackValueTrip(types: Types, v: Value, rv: Value, lv: Value, element: ElementType)
    requires FitsBackValue(types, v, rv, lv, element)
    ensures var there := LcmToRosValue(types, v, rv, element);
            && there.error.None? && (Structured(types, there.value) ==> v.Sub? || v.List?)
            && RosToLcmValue(types, there.value, lv) == ValueCopy(v, None)
    decreases v, 2
  {
    if v.Sub? {
      LcmComesBack(types, v.t, rv.t, lv.t);
    } else if v.List? && v.items != [] && v.items[0].Sub? {
      BackListTrip(types, v, rv, lv, element);
    } else {
      BackPlainTrip(types, v, rv, lv, element);
    }
  }

  lemma BackPlainTrip(types: Types, v: Value, rv: Value, lv: Value, element: ElementType)
    requires FitsBackValue(types, v, rv, lv, element) && !v.Sub? && !(v.List? && v.items != [] && v.items[0].Sub?)
    ensures var there := LcmToRosValue(types, v, rv, element);
            && there.error.None? && !Structured(types, there.value)
            && RosToLcmValue(types, there.value, lv) == ValueCopy(v, None)
  {
  }

  /** `there` is the list item after the first copy. */
  ghost predicate BackItemTrip(types: Types, item: Value, lv: Value, element: ElementType, there: Tree) {
    && item.Sub? && !types.IsRos(item)
    && ElementsMadeBack(types, item, lv, element)
    && LcmToRos(types, item.t, RosMade(types, item, element)) == Copy(there, None)
    && there.cls == RosMade(types, item, element).cls
    && RosToLcm(types, there, LcmMade(types, item, lv, element)) == Copy(item.t, None)
  }

  lemma {:induction false} BackListTrip(types: Types, v: Value, rv: Value, lv: Value, element: ElementType)
    requires v.List? && v.items != [] && v.items[0].Sub? && FitsBackValue(types, v, rv, lv, element)
    ensures var c := LcmToRosItems(types, v, |v.items|, element);
            && !types.IsRos(v.items[0])
            && c.error.None? && c.items != [] && types.IsRos(c.items[0])
            && RosToLcmItems(types, List(c.items), |c.items|, lv) == ItemsCopy(v.items, None)
    decreases v, 1
  {
    var n := |v.items|;
    var there := seq(n, i requires 0 <= i < n =>
      LcmToRos(types, v.items[i].t, RosMade(types, v.items[i], element)).tree);
    forall i | 0 <= i < n ensures BackItemTrip(types, v.items[i], lv, element, there[i]) {
      LcmComesBack(types, v.items[i].t, RosMade(types, v.items[i], element), LcmMade(types, v.items[i], lv, element));
    }
    BackItemsThere(types, v, n, lv, element, there);
    var got := LcmToRosItems(types, v, n, element).items;
    BackItemsBack(types, v, got, n, lv, element, there);
    assert BackItemTrip(types, v.items[0], lv, element, there[0]);
    assert v.items[..n] == v.items;
  }

  lemma {:induction false} BackItemsThere(types: Types, v: Value, k: nat, lv: Value, element: ElementType,
        there: seq<Tree>)
    requires v.List? && k <= |v.items| == |there|
    requires forall i | 0 <= i < k :: BackItemTrip(types, v.items[i], lv, element, there[i])
    ensures var c := LcmToRosItems(types, v, k, element);
            c.error.None? && |c.items| == k && forall i | 0 <= i < k :: c.items[i] == Sub(there[i])
  {
    for n := 0 to k
      invariant AllSubs(LcmToRosItems(types, v, n, element), there, n)
    {
      assert BackItemTrip(types, v.items[n], lv, element, there[n]);
      ItemsToRosMore(types, v, n, element);
      AllSubsMore(LcmToRosItems(types, v, n, element), there, n);
    }
  }

  lemma {:induction false} BackItemsBack(types: Types, v: Value, got: seq<Value>, k: nat, lv: Value,
                                         element: ElementType, there: seq<Tree>)
    requires v.List? && k <= |got| == |v.items| == |there|
    requires forall i | 0 <= i < |got| :: got[i] == Sub(there[i])
    requires forall i | 0 <= i < k :: BackItemTrip(types, v.items[i], lv, element, there[i])
    ensures RosToLcmItems(types, List(got), k, lv) == ItemsCopy(v.items[..k], None)
  {
    for n := 0 to k
      invariant RosToLcmItems(types, List(got), n, lv) == ItemsCopy(v.items[..n], None)
    {
      OneItemBack(types, v.items[n], got[n], lv, element, there[n]);
      ItemsToLcmMore(types, List(got), n, lv);
      TakeMore(v.items, n);
    }
  }

  lemma TakeMore(items: seq<Value>, n: nat)
    requires n < |items|
    ensures items[..n + 1] == items[..n] + [items[n]]
  {
  }

  lemma OneItemBack(types: Types, item: Value, got: Value, lv: Value, element: ElementType, there: Tree)
    requires BackItemTrip(types, item, lv, element, there) && got == Sub(there)
    ensures types.IsRos(got)
    ensures ItemToLcm(types, got, lv) == ValueCopy(item, None)
  {
    assert NewLcmItem(types, got, lv) == NewLcmItem(types, NewRosItem(types, item, element).value, lv);
  }
}
