/** A ROS message copied to an LCM instance and back. */
module RoundTrip {
  import opened Messages
  import opened Conversion
  import opened ConversionFrame

  /** The names of a class are the keys of a dictionary. */
  ghost predicate Distinct(names: seq<string>) {
    forall i, j | 0 <= i < j < |names| :: names[i] != names[j]
  }

  /** Field b, handled after field a, leaves what a wrote: it goes to another attribute, which if long, that
      is if what b writes has a length, is not the one that a is the companion of. */
  predicate Leaves(a: string, b: string, long: bool) {
    LcmName(a) != LcmName(b) && (long ==> LcmName(a) != LengthName(LcmName(b)))
  }

  /** Field b, if it carries messages, finds the default in its attribute when field a has been handled. */
  predicate FindsDefault(a: string, b: string, long: bool, structured: bool) {
    structured && long ==> LcmName(b) != LengthName(LcmName(a))
  }

  /** Whether what is sent for v has a length; a message is not copied into lv unless lv is one. */
  predicate SendsLength(v: Value, lv: Value) {
    v.List? || v.Bytes? || v.ByteArray? || (v.Sub? && HasLength(lv))
  }

  /** The value carries messages, so its copy depends on what the target attribute holds. */
  predicate Structured(types: Types, v: Value) {
    types.IsRos(v) || (v.List? && v.items != [] && types.IsRos(v.items[0]))
  }

  /** `m` has the class of the ROS instance `rp`, and its values have the kinds that `rp` and
      the LCM instance `lp` ask for. Attributes missing from `lp` are allowed. */
  ghost predicate Fits(types: Types, m: Tree, lp: Tree, rp: Tree)
    decreases m, 1
  {
    && m.cls == rp.cls && m.cls in types.declared
    && var fs := types.declared[m.cls];
    && var names := types.Names(m.cls);
    && Distinct(names)
    && m.fields.Keys == rp.fields.Keys == (set n | n in names)
    && (forall i, j | 0 <= i < j < |fs| && LcmName(names[i]) in lp.fields && LcmName(names[j]) in lp.fields ::
         && Leaves(names[i], names[j], SendsLength(m.fields[names[j]], lp.fields[LcmName(names[j])]))
         && FindsDefault(names[i], names[j], SendsLength(m.fields[names[i]], lp.fields[LcmName(names[i])]),
                         Structured(types, m.fields[names[j]])))
    && forall i | 0 <= i < |fs| && LcmName(names[i]) in lp.fields ::
         FitsValue(types, m.fields[names[i]], lp.fields[LcmName(names[i])], rp.fields[names[i]], fs[i].element)
  }

  ghost predicate FitsValue(types: Types, v: Value, lv: Value, rv: Value, element: ElementType)
    decreases v, 0
  {
    match v
    case Sub(t) => types.IsRos(v) && types.IsRos(rv) && (lv.Sub? ==> Fits(types, t, lv.t, rv.t))
    case ByteArray(_) => rv.ByteArray?
    case Bytes(_) => !rv.ByteArray? && !types.IsRos(rv)
    case Scalar(_) => !types.IsRos(rv)
    case List(items) =>
      && !types.IsRos(rv)
      && (items != [] && items[0].Sub? ==>
            forall i | 0 <= i < |items| ::
              && types.IsRos(items[i])
              && ElementsMade(types, items[i], lv, element)
              && Fits(types, items[i].t, LcmElement(types, items[i], lv), RosElement(types, items[i], lv, element)))
  }

  /** Both copies can make an instance for the list item: a LCM one and a ROS one. */
  predicate ElementsMade(types: Types, item: Value, lv: Value, element: ElementType) {
    var lcm := NewLcmItem(types, item, lv);
    && lcm.Made? && lcm.value.Sub? && !types.IsRos(lcm.value)
    && var ros := NewRosItem(types, lcm.value, element);
    && ros.Made? && types.IsRos(ros.value)
  }

  function LcmElement(types: Types, item: Value, lv: Value): Tree
    requires var lcm := NewLcmItem(types, item, lv); lcm.Made? && lcm.value.Sub?
  {
    NewLcmItem(types, item, lv).value.t
  }

  function RosElement(types: Types, item: Value, lv: Value, element: ElementType): Tree
    requires ElementsMade(types, item, lv, element)
  {
    NewRosItem(types, NewLcmItem(types, item, lv).value, element).value.t
  }

  /** `out` has the value of `m` on every path that exists on both sides, that of `rp` elsewhere. */
  ghost predicate Restored(types: Types, m: Tree, lp: Tree, rp: Tree, out: Tree)
    requires Fits(types, m, lp, rp)
    decreases m, 1
  {
    && out.cls == rp.cls && out.fields.Keys == rp.fields.Keys
    && var fs := types.declared[m.cls];
    && var names := types.Names(m.cls);
    && (forall i | 0 <= i < |fs| && LcmName(names[i]) in lp.fields ::
          RestoredValue(types, m.fields[names[i]], lp.fields[LcmName(names[i])], rp.fields[names[i]],
                        fs[i].element, out.fields[names[i]]))
    && (forall i | 0 <= i < |fs| && LcmName(names[i]) !in lp.fields ::
          out.fields[names[i]] == rp.fields[names[i]])
  }

  ghost predicate RestoredValue(types: Types, v: Value, lv: Value, rv: Value,
                                element: ElementType, out: Value)
    requires FitsValue(types, v, lv, rv, element)
    decreases v, 0
  {
    if v.Sub? then
      if lv.Sub? then out.Sub? && Restored(types, v.t, lv.t, rv.t, out.t) else out == rv
    else if v.List? && v.items != [] && v.items[0].Sub? then
      && out.List? && |out.items| == |v.items|
      && forall i | 0 <= i < |v.items| ::
           && out.items[i].Sub?
           && Restored(types, v.items[i].t, LcmElement(types, v.items[i], lv), RosElement(types, v.items[i], lv,
                 element), out.items[i].t)
    else out == v
  }

  // ---------------------------------------------------------------- one level

  ghost predicate Mapped(types: Types, c: Class, lcm: Tree, i: nat)
    requires c in types.declared && i < |types.declared[c]|
  {
    LcmName(types.Names(c)[i]) in lcm.fields
  }

  /** Copied on its own, field i of `m` gives v without an error. */
  ghost predicate Sends(types: Types, m: Tree, lp: Tree, i: nat, v: Value)
    requires m.cls in types.declared && i < |types.declared[m.cls]| && Mapped(types, m.cls, lp, i)
  {
    var f := types.Names(m.cls)[i];
    f in m.fields && RosToLcmValue(types, m.fields[f], lp.fields[LcmName(f)]) == ValueCopy(v, None)
  }

  /** What fields i and j write does not get in each other's way. */
  ghost predicate Apart(types: Types, m: Tree, i: nat, j: nat, sent: seq<Value>)
    requires m.cls in types.declared && i < j < |types.declared[m.cls]| == |sent|
  {
    var f, g := types.Names(m.cls)[i], types.Names(m.cls)[j];
    && Leaves(f, g, HasLength(sent[j]))
    && (g in m.fields ==> FindsDefault(f, g, HasLength(sent[i]), Structured(types, m.fields[g])))
  }

  /** The first k fields can be copied on their own, and do not get in each other's way. */
  ghost predicate Sendable(types: Types, m: Tree, lp: Tree, k: nat, sent: seq<Value>)
    requires m.cls in types.declared && k <= |types.declared[m.cls]| == |sent|
  {
    && (forall i | 0 <= i < k && Mapped(types, m.cls, lp, i) :: Sends(types, m, lp, i, sent[i]))
    && forall i, j | 0 <= i < j < k && Mapped(types, m.cls, lp, i) && Mapped(types, m.cls, lp, j) ::
         Apart(types, m, i, j, sent)
  }

  /** Fields that can be copied on their own can be copied one after the other. */
  lemma {:induction false} AllSent(types: Types, m: Tree, lp: Tree, k: nat, sent: seq<Value>)
    requires m.cls in types.declared && k <= |types.declared[m.cls]| == |sent| && Sendable(types, m, lp, k, sent)
    ensures var c := RosToLcmFields(types, m, k, lp);
            && c.error.None? && c.tree.cls == lp.cls && c.tree.fields.Keys == lp.fields.Keys
            && forall i | 0 <= i < k && Mapped(types, m.cls, lp, i) ::
                 c.tree.fields[LcmName(types.Names(m.cls)[i])] == sent[i]
    decreases k, 0
  {
    if k > 0 {
      AllSent(types, m, lp, k - 1, sent);
      if Mapped(types, m.cls, lp, k - 1) {
        NowSent(types, m, lp, k - 1, sent);
        Stored(RosToLcmFields(types, m, k - 1, lp).tree, LcmName(types.Names(m.cls)[k - 1]), sent[k - 1]);
        assert forall i | 0 <= i < k - 1 && Mapped(types, m.cls, lp, i) :: Apart(types, m, i, k - 1, sent);
      }
    }
  }

  /** When its turn comes, field k is copied as on its own. */
  lemma {:induction false} NowSent(types: Types, m: Tree, lp: Tree, k: nat, sent: seq<Value>)
    requires m.cls in types.declared && k < |types.declared[m.cls]| == |sent| && Sendable(types, m, lp, k + 1, sent)
    requires Mapped(types, m.cls, lp, k)
    ensures var c, f := RosToLcmFields(types, m, k, lp), types.Names(m.cls)[k];
            && c.error.None? && c.tree.fields.Keys == lp.fields.Keys && f in m.fields
            && RosToLcmValue(types, m.fields[f], c.tree.fields[LcmName(f)]) == ValueCopy(sent[k], None)
    decreases k, 1
  {
    var f := types.Names(m.cls)[k];
    AllSent(types, m, lp, k, sent);
    assert Sends(types, m, lp, k, sent[k]);
    if Structured(types, m.fields[f]) {
      forall i | 0 <= i < k && Mapped(types, m.cls, lp, i) ensures NotWritten(types, m.cls, i, sent, LcmName(f)) {
        assert Apart(types, m, i, k, sent);
      }
      Untouched(types, m, lp, k, sent, LcmName(f));
    }
  }

  /** Attribute a is not written when field i is. */
  predicate NotWritten(types: Types, c: Class, i: nat, sent: seq<Value>, a: string)
    requires c in types.declared && i < |types.declared[c]| == |sent|
  {
    var l := LcmName(types.Names(c)[i]);
    a != l && (HasLength(sent[i]) ==> a != LengthName(l))
  }

  lemma {:induction false} Untouched(types: Types, m: Tree, lp: Tree, k: nat, sent: seq<Value>, a: string)
    requires m.cls in types.declared && k <= |types.declared[m.cls]| == |sent| && Sendable(types, m, lp, k, sent)
    requires a in lp.fields
    requires forall i | 0 <= i < k && Mapped(types, m.cls, lp, i) :: NotWritten(types, m.cls, i, sent, a)
    ensures var c := RosToLcmFields(types, m, k, lp).tree;
            a in c.fields && c.fields[a] == lp.fields[a]
    decreases k, 0
  {
    if k > 0 {
      Untouched(types, m, lp, k - 1, sent, a);
      AllSent(types, m, lp, k - 1, sent);
      if Mapped(types, m.cls, lp, k - 1) {
        NowSent(types, m, lp, k - 1, sent);
        assert NotWritten(types, m.cls, k - 1, sent, a);
      }
    }
  }

  /** A fitting message can be sent. */
  lemma FitsSendable(types: Types, m: Tree, lp: Tree, rp: Tree, sent: seq<Value>)
    requires Fits(types, m, lp, rp) && |sent| == |types.declared[m.cls]|
    requires forall i | 0 <= i < |sent| && Mapped(types, m.cls, lp, i) :: Sends(types, m, lp, i, sent[i])
    ensures Sendable(types, m, lp, |sent|, sent)
  {
    var names := types.Names(m.cls);
    forall i | 0 <= i < |sent| && Mapped(types, m.cls, lp, i)
      ensures names[i] in m.fields
      ensures HasLength(sent[i]) ==> SendsLength(m.fields[names[i]], lp.fields[LcmName(names[i])])
    {
      assert Sends(types, m, lp, i, sent[i]);
      LengthSent(types, m.fields[names[i]], lp.fields[LcmName(names[i])]);
    }
    forall i, j | 0 <= i < j < |sent| && Mapped(types, m.cls, lp, i) && Mapped(types, m.cls, lp, j)
      ensures Apart(types, m, i, j, sent)
    {
    }
  }

  lemma LengthSent(types: Types, v: Value, lv: Value)
    ensures var c := RosToLcmValue(types, v, lv);
            c.error.None? && HasLength(c.value) ==> SendsLength(v, lv)
  {
    if types.IsRos(v) {
      assert RosToLcmValue(types, v, lv) == RosToLcmInto(types, v, lv);
    }
  }

  lemma Stored(lcm: Tree, l: string, v: Value)
    requires l in lcm.fields
    ensures var out := WithLength(lcm.(fields := lcm.fields[l := v]), l);
            && out.cls == lcm.cls && out.fields.Keys == lcm.fields.Keys && out.fields[l] == v
            && forall a | a in lcm.fields && a != l && a != LengthName(l) :: out.fields[a] == lcm.fields[a]
  {
    LengthNameInjective(l, l);
  }

  /** What storing v does to another attribute. */
  lemma StoredElsewhere(lcm: Tree, l: string, v: Value, a: string)
    requires l in lcm.fields && a in lcm.fields && a != l
    ensures var out := WithLength(lcm.(fields := lcm.fields[l := v]), l);
            a in out.fields && out.fields[a] == if a == LengthName(l)
                  && HasLength(v) then Scalar(Num(Length(v))) else lcm.fields[a]
  {
  }

  /** Field k still holds its initial value when its turn comes. */
  lemma {:induction false} FieldUntouched(types: Types, lcm: Tree, ros: Tree, k: nat, i: nat)
    requires ros.cls in types.declared && Distinct(types.Names(ros.cls)) && k <= i < |types.declared[ros.cls]|
    ensures var c := LcmToRosFields(types, lcm, k, ros).tree;
            var f := types.Names(ros.cls)[i];
            c.fields.Keys == ros.fields.Keys && (f in ros.fields ==> c.fields[f] == ros.fields[f])
  {
    if k > 0 {
      FieldUntouched(types, lcm, ros, k - 1, i);
      assert types.Names(ros.cls)[k - 1] != types.Names(ros.cls)[i];
    }
  }

  ghost predicate Returns(types: Types, lcm: Tree, rp: Tree, i: nat, v: Value)
    requires rp.cls in types.declared && i < |types.declared[rp.cls]| && Mapped(types, rp.cls, lcm, i)
  {
    var f := types.Names(rp.cls)[i];
    && f in rp.fields
    && (LcmToRosValue(types, lcm.fields[LcmName(f)], rp.fields[f], types.declared[rp.cls][i].element)
        == ValueCopy(v, None))
  }

  /** The first k fields hold what was returned for them, and the others what they held before. */
  ghost predicate ReturnedUpTo(types: Types, lcm: Tree, rp: Tree, k: nat, got: seq<Value>, c: Copy)
    requires rp.cls in types.declared && k <= |types.declared[rp.cls]| == |got|
  {
    var names := types.Names(rp.cls);
    && c.error.None? && c.tree.fields.Keys == rp.fields.Keys
    && forall i | 0 <= i < |got| && names[i] in rp.fields ::
         c.tree.fields[names[i]] == if i < k && Mapped(types, rp.cls, lcm, i) then got[i] else rp.fields[names[i]]
  }

  lemma ReturnedMore(types: Types, lcm: Tree, rp: Tree, k: nat, got: seq<Value>)
    requires rp.cls in types.declared && k < |types.declared[rp.cls]| == |got| && Distinct(types.Names(rp.cls))
    requires Mapped(types, rp.cls, lcm, k) ==> Returns(types, lcm, rp, k, got[k])
    requires ReturnedUpTo(types, lcm, rp, k, got, LcmToRosFields(types, lcm, k, rp))
    ensures ReturnedUpTo(types, lcm, rp, k + 1, got, LcmToRosFields(types, lcm, k + 1, rp))
  {
    var names, c := types.Names(rp.cls), LcmToRosFields(types, lcm, k, rp);
    if Mapped(types, rp.cls, lcm, k) {
      assert LcmToRosFields(types, lcm, k + 1, rp).tree.fields == c.tree.fields[names[k] := got[k]];
    }
  }

  lemma {:induction false} AllReturned(types: Types, lcm: Tree, rp: Tree, k: nat, got: seq<Value>)
    requires rp.cls in types.declared && k <= |types.declared[rp.cls]| == |got| && Distinct(types.Names(rp.cls))
    requires forall i | 0 <= i < k && Mapped(types, rp.cls, lcm, i) :: Returns(types, lcm, rp, i, got[i])
    ensures ReturnedUpTo(types, lcm, rp, k, got, LcmToRosFields(types, lcm, k, rp))
  {
    for n := 0 to k
      invariant ReturnedUpTo(types, lcm, rp, n, got, LcmToRosFields(types, lcm, n, rp))
    {
      ReturnedMore(types, lcm, rp, n, got);
    }
  }

  // ---------------------------------------------------------------- the theorem

  /** ROS to LCM and back: neither copy raises, and the message comes back. */
  lemma {:induction false} RosRoundTrip(types: Types, m: Tree, lp: Tree, rp: Tree)
    requires Fits(types, m, lp, rp)
    ensures var there := RosToLcm(types, m, lp);
            && there.error.None? && there.tree.cls == lp.cls
            && var back := LcmToRos(types, there.tree, rp);
            && back.error.None? && Restored(types, m, lp, rp, back.tree)
    decreases m, 3
  {
    var n := |types.declared[m.cls]|;
    var names := types.Names(m.cls);
    var sent := seq(n, i requires 0 <= i < n =>
      if Mapped(types, m.cls, lp, i) then RosToLcmValue(types, m.fields[names[i]], lp.fields[LcmName(names[i])]).value
      else Scalar(Num(0)));
    var got := seq(n, i requires 0 <= i < n =>
      if Mapped(types, m.cls, lp, i) then LcmToRosValue(types, sent[i], rp.fields[names[i]],
            types.declared[m.cls][i].element).value
      else Scalar(Num(0)));
    forall i | 0 <= i < n && Mapped(types, m.cls, lp, i)
      ensures Sends(types, m, lp, i, sent[i])
      ensures LcmToRosValue(types, sent[i], rp.fields[names[i]],
            types.declared[m.cls][i].element) == ValueCopy(got[i], None)
      ensures RestoredValue(types, m.fields[names[i]], lp.fields[LcmName(names[i])], rp.fields[names[i]],
                            types.declared[m.cls][i].element, got[i])
    {
      ValueTrip(types, m.fields[names[i]], lp.fields[LcmName(names[i])], rp.fields[names[i]],
            types.declared[m.cls][i].element);
    }
    FitsSendable(types, m, lp, rp, sent);
    AllSent(types, m, lp, n, sent);
    AllReturned(types, RosToLcm(types, m, lp).tree, rp, n, got);
  }

  lemma {:induction false} ValueTrip(types: Types, v: Value, lv: Value, rv: Value, element: ElementType)
    requires FitsValue(types, v, lv, rv, element)
    ensures var there := RosToLcmValue(types, v, lv);
            && there.error.None?
            && var back := LcmToRosValue(types, there.value, rv, element);
            && back.error.None? && RestoredValue(types, v, lv, rv, element, back.value)
    decreases v, 2
  {
    if v.Sub? {
      if lv.Sub? {
        RosRoundTrip(types, v.t, lv.t, rv.t);
      }
    } else if v.List? && v.items != [] && v.items[0].Sub? {
      ListTrip(types, v, lv, rv, element);
    }
  }

  lemma {:induction false} ListTrip(types: Types, v: Value, lv: Value, rv: Value, element: ElementType)
    requires v.List? && v.items != [] && v.items[0].Sub? && FitsValue(types, v, lv, rv, element)
    ensures var c := RosToLcmItems(types, v, |v.items|, lv);
            && c.error.None? && c.items != [] && c.items[0].Sub? && !types.IsRos(c.items[0])
            && var d := LcmToRosItems(types, List(c.items), |c.items|, element);
            && d.error.None? && RestoredValue(types, v, lv, rv, element, List(d.items))
    decreases v, 1
  {
    var n := |v.items|;
    var there := seq(n, i requires 0 <= i < n => RosToLcm(types, v.items[i].t, LcmElement(types, v.items[i], lv)).tree);
    var back := seq(n, i requires 0 <= i < n => LcmToRos(types, there[i], RosElement(types, v.items[i], lv,
          element)).tree);
    forall i | 0 <= i < n
      ensures ItemTrip(types, v.items[i], lv, element, there[i], back[i])
      ensures Restored(types, v.items[i].t, LcmElement(types, v.items[i], lv), RosElement(types, v.items[i], lv,
            element), back[i])
    {
      RosRoundTrip(types, v.items[i].t, LcmElement(types, v.items[i], lv), RosElement(types, v.items[i], lv, element));
    }
    ItemsThere(types, v, n, lv, element, there, back);
    var sent := RosToLcmItems(types, v, n, lv).items;
    ItemsBack(types, v, sent, n, lv, element, there, back);
    assert !types.IsRos(sent[0]);
  }

  /** `there` and `back` are the list item after the first and after both copies. */
  ghost predicate ItemTrip(types: Types, item: Value, lv: Value, element: ElementType, there: Tree,
        back: Tree) {
    && types.IsRos(item)
    && ElementsMade(types, item, lv, element)
    && RosToLcm(types, item.t, LcmElement(types, item, lv)) == Copy(there, None)
    && there.cls == LcmElement(types, item, lv).cls
    && LcmToRos(types, there, RosElement(types, item, lv, element)) == Copy(back, None)
  }

  /** The first n copies are the messages ts. */
  ghost predicate AllSubs(c: ItemsCopy, ts: seq<Tree>, n: nat) {
    c.error.None? && |c.items| == n <= |ts| && forall i | 0 <= i < n :: c.items[i] == Sub(ts[i])
  }

  lemma AllSubsMore(c: ItemsCopy, ts: seq<Tree>, n: nat)
    requires AllSubs(c, ts, n) && n < |ts|
    ensures AllSubs(ItemsCopy(c.items + [Sub(ts[n])], None), ts, n + 1)
  {
  }

  lemma {:induction false} ItemsThere(types: Types, v: Value, k: nat, lv: Value, element: ElementType,
                                      there: seq<Tree>, back: seq<Tree>)
    requires v.List? && k <= |v.items| == |there| == |back|
    requires forall i | 0 <= i < k :: ItemTrip(types, v.items[i], lv, element, there[i], back[i])
    ensures var c := RosToLcmItems(types, v, k, lv);
            c.error.None? && |c.items| == k && forall i | 0 <= i < k :: c.items[i] == Sub(there[i])
  {
    for n := 0 to k
      invariant AllSubs(RosToLcmItems(types, v, n, lv), there, n)
    {
      assert ItemTrip(types, v.items[n], lv, element, there[n], back[n]);
      ItemsToLcmMore(types, v, n, lv);
      AllSubsMore(RosToLcmItems(types, v, n, lv), there, n);
    }
  }

  lemma {:induction false} ItemsBack(types: Types, v: Value, sent: seq<Value>, k: nat, lv: Value,
                                     element: ElementType, there: seq<Tree>, back: seq<Tree>)
    requires v.List? && k <= |sent| == |v.items| == |there| == |back|
    requires forall i | 0 <= i < |sent| :: sent[i] == Sub(there[i])
    requires forall i | 0 <= i < k :: ItemTrip(types, v.items[i], lv, element, there[i], back[i])
    ensures var c := LcmToRosItems(types, List(sent), k, element);
            c.error.None? && |c.items| == k && forall i | 0 <= i < k :: c.items[i] == Sub(back[i])
  {
    for n := 0 to k
      invariant AllSubs(LcmToRosItems(types, List(sent), n, element), back, n)
    {
      OneItemReturned(types, v.items[n], sent[n], lv, element, there[n], back[n]);
      ItemsToRosMore(types, List(sent), n, element);
      AllSubsMore(LcmToRosItems(types, List(sent), n, element), back, n);
    }
  }

  lemma OneItemReturned(types: Types, item: Value, sent: Value, lv: Value, element: ElementType, there: Tree,
        back: Tree)
    requires ItemTrip(types, item, lv, element, there, back) && sent == Sub(there)
    ensures ItemToRos(types, sent, element) == ValueCopy(Sub(back), None)
  {
    assert NewRosItem(types, sent, element) == NewRosItem(types, NewLcmItem(types, item, lv).value, element);
  }

  // ---------------------------------------------------------------- nothing left out

  /** Every attribute of `m`, here and deeper, exists on the LCM side too. */
  ghost predicate Mirrored(types: Types, m: Tree, lp: Tree, rp: Tree)
    requires Fits(types, m, lp, rp)
    decreases m, 1
  {
    var fs := types.declared[m.cls];
    var names := types.Names(m.cls);
    forall i | 0 <= i < |fs| ::
      && LcmName(names[i]) in lp.fields
      && MirroredValue(types, m.fields[names[i]], lp.fields[LcmName(names[i])], rp.fields[names[i]], fs[i].element)
  }

  ghost predicate MirroredValue(types: Types, v: Value, lv: Value, rv: Value, element: ElementType)
    requires FitsValue(types, v, lv, rv, element)
    decreases v, 0
  {
    if v.Sub? then lv.Sub? && Mirrored(types, v.t, lv.t, rv.t)
    else if v.List? && v.items != [] && v.items[0].Sub? then
      forall i | 0 <= i < |v.items| ::
        Mirrored(types, v.items[i].t, LcmElement(types, v.items[i], lv), RosElement(types, v.items[i], lv, element))
    else true
  }

  lemma {:induction false} MirroredIsRestored(types: Types, m: Tree, lp: Tree, rp: Tree, out: Tree)
    requires Fits(types, m, lp, rp) && Mirrored(types, m, lp, rp) && Restored(types, m, lp, rp, out)
    ensures out == m
    decreases m, 1
  {
    var fs := types.declared[m.cls];
    var names := types.Names(m.cls);
    forall n | n in m.fields ensures out.fields[n] == m.fields[n] {
      var i :| 0 <= i < |fs| && names[i] == n;
      MirroredIsRestoredValue(types, m.fields[n], lp.fields[LcmName(n)], rp.fields[n], fs[i].element, out.fields[n]);
    }
    assert out.fields == m.fields;
  }

  lemma {:induction false} MirroredIsRestoredValue(types: Types, v: Value, lv: Value, rv: Value,
                                                   element: ElementType, out: Value)
    requires FitsValue(types, v, lv, rv, element) && MirroredValue(types, v, lv, rv, element)
    requires RestoredValue(types, v, lv, rv, element, out)
    ensures out == v
    decreases v, 0
  {
    if v.Sub? {
      MirroredIsRestored(types, v.t, lv.t, rv.t, out.t);
    } else if v.List? && v.items != [] && v.items[0].Sub? {
      forall i | 0 <= i < |v.items| ensures out.items[i] == v.items[i] {
        MirroredIsRestored(types, v.items[i].t, LcmElement(types, v.items[i], lv), RosElement(types, v.items[i], lv,
              element), out.items[i].t);
      }
    }
  }

  ghost predicate ComesBack(types: Types, m: Tree, lp: Tree, rp: Tree) {
    && RosToLcm(types, m, lp).error.None?
    && LcmToRos(types, RosToLcm(types, m, lp).tree, rp) == Copy(m, None)
  }

  /** A message whose attributes all exist on both sides is reproduced. */
  lemma MirroredComesBack(types: Types, m: Tree, lp: Tree, rp: Tree)
    requires Fits(types, m, lp, rp) && Mirrored(types, m, lp, rp)
    ensures ComesBack(types, m, lp, rp)
  {
    RosRoundTrip(types, m, lp, rp);
    MirroredIsRestored(types, m, lp, rp, LcmToRos(types, RosToLcm(types, m, lp).tree, rp).tree);
  }
}
