/** What the two copies leave in their target, field by field, and which error they raise. */
module Arrival {
  import opened Messages
  import opened Conversion
  import opened ConversionFrame
  import opened RoundTrip
  import opened LcmRoundTrip

  // ---------------------------------------------------------------- ROS to LCM

  /** `out` is what a copy of the first k declared fields of `m` makes of `lp`. A field is found under its own
      name, but for nanosec, which is found under nsec; an X_length that no field goes to has the length of X. */
  ghost predicate ArrivedUpTo(types: Types, m: Tree, k: nat, lp: Tree, out: Tree)
    requires m.cls in types.declared && k <= |types.declared[m.cls]|
    decreases m, 2
  {
    var names := types.Names(m.cls);
    && out.cls == lp.cls && out.fields.Keys == lp.fields.Keys
    && (forall i | 0 <= i < k :: FieldArrived(types, m, names[i], lp, out))
    && (forall a | a in lp.fields && !GoesTo(names[..k], a) :: Accompanies(names[..k], lp, out, a))
  }

  ghost predicate FieldArrived(types: Types, m: Tree, f: string, lp: Tree, out: Tree)
    requires out.fields.Keys == lp.fields.Keys
    decreases m, 1
  {
    && (f != "nanosec" && f in lp.fields ==>
          f in m.fields && ArrivedValue(types, m.fields[f], lp.fields[f], out.fields[f]))
    && (f == "nanosec" && "nsec" in lp.fields ==>
          f in m.fields && ArrivedValue(types, m.fields[f], lp.fields["nsec"], out.fields["nsec"]))
  }

  /** One of the fields goes to attribute a. */
  predicate GoesTo(names: seq<string>, a: string) {
    (a in names && a != "nanosec") || (a == "nsec" && "nanosec" in names)
  }

  /** Attribute a holds the length of the list or byte string that it accompanies, or else its default. */
  ghost predicate Accompanies(names: seq<string>, lp: Tree, out: Tree, a: string)
    requires a in lp.fields && out.fields.Keys == lp.fields.Keys
  {
    && (forall x | x in lp.fields && GoesTo(names, x) && x + "_length" == a ::
          && (out.fields[x].List? ==> out.fields[a] == Scalar(Num(|out.fields[x].items|)))
          && (out.fields[x].Bytes? ==> out.fields[a] == Scalar(Num(|out.fields[x].b|))))
    && ((forall x | x in lp.fields && GoesTo(names, x) && x + "_length" == a ::
           !out.fields[x].List? && !out.fields[x].Bytes?)
        ==> out.fields[a] == lp.fields[a])
  }

  /** `o` is what copying v makes of lv. */
  ghost predicate ArrivedValue(types: Types, v: Value, lv: Value, o: Value)
    decreases v, 0
  {
    match v
    case Scalar(_) => o == v
    case Bytes(_) => o == v
    case ByteArray(b) => o == Bytes(b)
    case Sub(t) =>
      if !types.IsRos(v) then o == v
      else if lv.Sub? then o.Sub? && ArrivedUpTo(types, t, |types.declared[t.cls]|, lv.t, o.t)
      else o == lv
    case List(items) =>
      if items == [] || !types.IsRos(items[0]) then o == v
      else
        && o.List? && |o.items| == |items|
        && forall i | 0 <= i < |items| :: ItemArrived(types, items[i], lv, o.items[i])
  }

  /** `o` is what copying a list item to a new element makes of it. */
  ghost predicate ItemArrived(types: Types, item: Value, lv: Value, o: Value)
    decreases item, 0
  {
    && types.IsRos(item)
    && var made := NewLcmItem(types, item, lv);
    && made.Made?
    && if made.value.Sub? then
         o.Sub? && ArrivedUpTo(types, item.t, |types.declared[item.t.cls]|, made.value.t, o.t)
       else o == made.value
  }

  /** The error of the first field, in the order declared, that cannot be copied to the default `lp`. */
  function ErrorOf(types: Types, m: Tree, lp: Tree): Option<Error>
    decreases m, 2, 0
  {
    if m.cls !in types.declared then Some(NotARosMessage)
    else ErrorUpTo(types, m, |types.declared[m.cls]|, lp)
  }

  function ErrorUpTo(types: Types, m: Tree, k: nat, lp: Tree): Option<Error>
    requires m.cls in types.declared && k <= |types.declared[m.cls]|
    decreases m, 1, k
  {
    if k == 0 then None
    else
      var e := ErrorUpTo(types, m, k - 1, lp);
      if e.Some? then e else ErrorOfField(types, m, types.Names(m.cls)[k - 1], lp)
  }

  function ErrorOfField(types: Types, m: Tree, f: string, lp: Tree): Option<Error>
    decreases m, 0, 0
  {
    if LcmName(f) !in lp.fields then None
    else if f !in m.fields then Some(MissingAttribute)
    else ErrorOfValue(types, m.fields[f], lp.fields[LcmName(f)])
  }

  function ErrorOfValue(types: Types, v: Value, lv: Value): Option<Error>
    decreases v, 1, 0
  {
    if types.IsRos(v) then (if lv.Sub? then ErrorOf(types, v.t, lv.t) else None)
    else if v.List? && v.items != [] && types.IsRos(v.items[0]) then ErrorOfItems(types, v, |v.items|, lv)
    else None
  }

  /** Of the first k list items. */
  function ErrorOfItems(types: Types, v: Value, k: nat, lv: Value): Option<Error>
    requires v.List? && k <= |v.items|
    decreases v, 0, k
  {
    if k == 0 then None
    else
      var e := ErrorOfItems(types, v, k - 1, lv);
      if e.Some? then e else ErrorOfItem(types, v.items[k - 1], lv)
  }

  /** Making the element comes before copying to it. */
  function ErrorOfItem(types: Types, item: Value, lv: Value): Option<Error>
    decreases item, 3
  {
    match NewLcmItem(types, item, lv)
    case Failed(why) => Some(why)
    case Made(blank) =>
      if !types.IsRos(item) then Some(NotARosMessage)
      else if blank.Sub? then ErrorOf(types, item.t, blank.t)
      else None
  }

  /** No field of `m`, here or deeper, is written to what another one is written to. */
  ghost predicate Separate(types: Types, m: Tree, lp: Tree)
    decreases m, 1
  {
    m.cls in types.declared ==>
      var names := types.Names(m.cls);
      && (forall i, j | 0 <= i < j < |names| && Carried(m, lp, names[i]) && Carried(m, lp, names[j]) ::
            && Leaves(names[i], names[j], SendsLength(m.fields[names[j]], lp.fields[LcmName(names[j])]))
            && FindsDefault(names[i], names[j], SendsLength(m.fields[names[i]], lp.fields[LcmName(names[i])]),
                            Structured(types, m.fields[names[j]])))
      && (forall i | 0 <= i < |names| && Carried(m, lp, names[i]) ::
            SeparateValue(types, m.fields[names[i]], lp.fields[LcmName(names[i])]))
  }

  predicate Carried(m: Tree, lp: Tree, f: string) {
    f in m.fields && LcmName(f) in lp.fields
  }

  ghost predicate SeparateValue(types: Types, v: Value, lv: Value)
    decreases v, 0
  {
    && (v.Sub? && lv.Sub? ==> Separate(types, v.t, lv.t))
    && (v.List? ==> forall i | 0 <= i < |v.items| && v.items[i].Sub? ::
          var made := NewLcmItem(types, v.items[i], lv);
          made.Made? && made.value.Sub? ==> Separate(types, v.items[i].t, made.value.t))
  }

  /** The copy raises exactly that error, and if there is none every field has arrived. */
  lemma {:induction false} CopyArrives(types: Types, m: Tree, lp: Tree)
    requires Separate(types, m, lp)
    ensures var c := RosToLcm(types, m, lp);
            && c.error == ErrorOf(types, m, lp)
            && (c.error.None? ==> ArrivedUpTo(types, m, |types.declared[m.cls]|, lp, c.tree))
    decreases m, 2, 0
  {
    if m.cls in types.declared {
      var n := |types.declared[m.cls]|;
      FirstErrorUpTo(types, m, n, lp);
      if ErrorUpTo(types, m, n, lp).None? { FieldsArrive(types, m, n, lp); }
    }
  }

  /** What field i sends on its own. */
  function SentAlone(types: Types, m: Tree, lp: Tree, i: nat): Value
    requires m.cls in types.declared && i < |types.declared[m.cls]|
  {
    var f := types.Names(m.cls)[i];
    if Carried(m, lp, f) then RosToLcmValue(types, m.fields[f], lp.fields[LcmName(f)]).value else Scalar(Num(0))
  }

  function AllSentAlone(types: Types, m: Tree, lp: Tree): (sent: seq<Value>)
    requires m.cls in types.declared
    ensures |sent| == |types.declared[m.cls]|
  {
    seq(|types.declared[m.cls]|, i requires 0 <= i < |types.declared[m.cls]| => SentAlone(types, m, lp, i))
  }

  lemma {:induction false} NoErrorBefore(types: Types, m: Tree, i: nat, k: nat, lp: Tree)
    requires m.cls in types.declared && i < k <= |types.declared[m.cls]| && ErrorUpTo(types, m, k, lp).None?
    ensures ErrorOfField(types, m, types.Names(m.cls)[i], lp).None?
  {
    if i < k - 1 { NoErrorBefore(types, m, i, k - 1, lp); }
  }

  lemma {:induction false} CanSend(types: Types, m: Tree, k: nat, lp: Tree)
    requires Separate(types, m, lp) && m.cls in types.declared && k <= |types.declared[m.cls]|
    requires ErrorUpTo(types, m, k, lp).None?
    ensures Sendable(types, m, lp, k, AllSentAlone(types, m, lp))
    ensures var names := types.Names(m.cls);
            forall i | 0 <= i < k && Mapped(types, m.cls, lp, i) ::
              && names[i] in m.fields
              && ArrivedValue(types, m.fields[names[i]], lp.fields[LcmName(names[i])],
                              AllSentAlone(types, m, lp)[i])
    decreases m, 0, 0
  {
    var names, sent := types.Names(m.cls), AllSentAlone(types, m, lp);
    forall i | 0 <= i < k && Mapped(types, m.cls, lp, i)
      ensures names[i] in m.fields && Sends(types, m, lp, i, sent[i])
      ensures HasLength(sent[i]) ==> SendsLength(m.fields[names[i]], lp.fields[LcmName(names[i])])
      ensures ArrivedValue(types, m.fields[names[i]], lp.fields[LcmName(names[i])], sent[i])
    {
      NoErrorBefore(types, m, i, k, lp);
      ValueArrives(types, m.fields[names[i]], lp.fields[LcmName(names[i])]);
      LengthSent(types, m.fields[names[i]], lp.fields[LcmName(names[i])]);
    }
    forall i, j | 0 <= i < j < k && Mapped(types, m.cls, lp, i) && Mapped(types, m.cls, lp, j)
      ensures Apart(types, m, i, j, sent)
    {
    }
  }

  lemma {:induction false} FirstErrorUpTo(types: Types, m: Tree, k: nat, lp: Tree)
    requires Separate(types, m, lp) && m.cls in types.declared && k <= |types.declared[m.cls]|
    ensures RosToLcmFields(types, m, k, lp).error == ErrorUpTo(types, m, k, lp)
    decreases m, 1, k + 1
  {
    if k > 0 {
      FirstErrorUpTo(types, m, k - 1, lp);
      if ErrorUpTo(types, m, k - 1, lp).None? {
        NextError(types, m, k - 1, lp);
      }
    }
  }

  lemma {:induction false} NextError(types: Types, m: Tree, k: nat, lp: Tree)
    requires Separate(types, m, lp) && m.cls in types.declared && k < |types.declared[m.cls]|
    requires ErrorUpTo(types, m, k, lp).None? && RosToLcmFields(types, m, k, lp).error.None?
    ensures var f := types.Names(m.cls)[k];
            RosToLcmField(types, m, f, RosToLcmFields(types, m, k, lp).tree).error == ErrorOfField(types, m, f, lp)
    decreases m, 1, k + 1
  {
    var f, c := types.Names(m.cls)[k], RosToLcmFields(types, m, k, lp).tree;
    CopyKeepsShape(types, m, k, lp);
    if Carried(m, lp, f) {
      if Structured(types, m.fields[f]) {
        FindsItsDefault(types, m, k, lp);
      }
      ValueArrives(types, m.fields[f], lp.fields[LcmName(f)]);
    }
  }

  /** A field that carries messages finds the default in its attribute. */
  lemma {:induction false} FindsItsDefault(types: Types, m: Tree, k: nat, lp: Tree)
    requires Separate(types, m, lp) && m.cls in types.declared && k < |types.declared[m.cls]|
    requires ErrorUpTo(types, m, k, lp).None? && Carried(m, lp, types.Names(m.cls)[k])
    requires Structured(types, m.fields[types.Names(m.cls)[k]])
    ensures var c, l := RosToLcmFields(types, m, k, lp).tree, LcmName(types.Names(m.cls)[k]);
            l in c.fields && c.fields[l] == lp.fields[l]
    decreases m, 1, k
  {
    var names, sent, l := types.Names(m.cls), AllSentAlone(types, m, lp), LcmName(types.Names(m.cls)[k]);
    CanSend(types, m, k, lp);
    forall i | 0 <= i < k && Mapped(types, m.cls, lp, i) ensures NotWritten(types, m.cls, i, sent, l) {
      assert Sends(types, m, lp, i, sent[i]);
      LengthSent(types, m.fields[names[i]], lp.fields[LcmName(names[i])]);
      assert Carried(m, lp, names[i]) && Carried(m, lp, names[k]);
    }
    Untouched(types, m, lp, k, sent, l);
  }

  /** The first k fields have arrived. */
  lemma {:induction false} FieldsArrive(types: Types, m: Tree, k: nat, lp: Tree)
    requires Separate(types, m, lp) && m.cls in types.declared && k <= |types.declared[m.cls]|
    requires ErrorUpTo(types, m, k, lp).None?
    ensures ArrivedUpTo(types, m, k, lp, RosToLcmFields(types, m, k, lp).tree)
    decreases m, 1, k + 1
  {
    var names, sent := types.Names(m.cls), AllSentAlone(types, m, lp);
    CanSend(types, m, k, lp);
    AllSent(types, m, lp, k, sent);
    var c := RosToLcmFields(types, m, k, lp).tree;
    forall a | a in lp.fields && !GoesTo(names[..k], a) ensures Accompanies(names[..k], lp, c, a) {
      CompanionArrives(types, m, k, lp, sent, a);
    }
    forall i | 0 <= i < k && Mapped(types, m.cls, lp, i)
      ensures ArrivedValue(types, m.fields[names[i]], lp.fields[LcmName(names[i])], c.fields[LcmName(names[i])])
    {
    }
  }

  /** An attribute that none of the first k fields goes to. */
  lemma CompanionArrives(types: Types, m: Tree, k: nat, lp: Tree, sent: seq<Value>, a: string)
    requires m.cls in types.declared && k <= |types.declared[m.cls]| == |sent| && Sendable(types, m, lp, k, sent)
    requires a in lp.fields && !GoesTo(types.Names(m.cls)[..k], a)
    ensures var c := RosToLcmFields(types, m, k, lp).tree;
            c.fields.Keys == lp.fields.Keys && Accompanies(types.Names(m.cls)[..k], lp, c, a)
  {
    var names, c := types.Names(m.cls), RosToLcmFields(types, m, k, lp).tree;
    AllSent(types, m, lp, k, sent);
    forall i | 0 <= i < k ensures LcmName(names[i]) != a && GoesTo(names[..k], LcmName(names[i])) {
      assert names[..k][i] in names[..k];
    }
    CompanionValue(types, m, lp, k, sent, a);
    forall x | x in lp.fields && GoesTo(names[..k], x) && x + "_length" == a
      ensures HasLength(c.fields[x]) ==> c.fields[a] == Scalar(Num(Length(c.fields[x])))
      ensures exists i :: 0 <= i < k && LcmName(names[i]) == x && Mapped(types, m.cls, lp, i)
    {
      var i := FieldFor(names, k, x);
      assert LengthName(LcmName(names[i])) == a && Mapped(types, m.cls, lp, i);
    }
    if forall x | x in lp.fields && GoesTo(names[..k], x) && x + "_length" == a :: !HasLength(c.fields[x]) {
      forall i | 0 <= i < k && Mapped(types, m.cls, lp, i) && LengthName(LcmName(names[i])) == a
        ensures !HasLength(sent[i])
      {
        assert LcmName(names[i]) + "_length" == a;
      }
    }
  }

  lemma FieldFor(names: seq<string>, k: nat, x: string) returns (i: nat)
    requires k <= |names| && GoesTo(names[..k], x)
    ensures i < k && LcmName(names[i]) == x
  {
    var f := if x in names[..k] && x != "nanosec" then x else "nanosec";
    i :| 0 <= i < k && names[..k][i] == f;
  }

  lemma {:induction false} ValueArrives(types: Types, v: Value, lv: Value)
    requires SeparateValue(types, v, lv)
    ensures var c := RosToLcmValue(types, v, lv);
            c.error == ErrorOfValue(types, v, lv) && (c.error.None? ==> ArrivedValue(types, v, lv, c.value))
    decreases v, 1, 0
  {
    if types.IsRos(v) {
      if lv.Sub? { CopyArrives(types, v.t, lv.t); }
    } else if v.List? && v.items != [] && types.IsRos(v.items[0]) {
      ItemsArrive(types, v, |v.items|, lv);
    }
  }

  /** The first k list items have arrived, or what stopped it has been raised. */
  ghost predicate ItemsArrived(types: Types, v: Value, k: nat, lv: Value)
    requires v.List? && k <= |v.items|
  {
    var c := RosToLcmItems(types, v, k, lv);
    && c.error == ErrorOfItems(types, v, k, lv)
    && (c.error.None? ==> |c.items| == k && forall i | 0 <= i < k :: ItemArrived(types, v.items[i], lv, c.items[i]))
  }

  lemma {:induction false} ItemsArrive(types: Types, v: Value, k: nat, lv: Value)
    requires v.List? && k <= |v.items| && SeparateValue(types, v, lv)
    ensures ItemsArrived(types, v, k, lv)
    decreases v, 0, k
  {
    if k > 0 {
      ItemsArrive(types, v, k - 1, lv);
      ItemArrives(types, v.items[k - 1], lv);
      ItemsArrivedMore(types, v, k - 1, lv, ItemToLcm(types, v.items[k - 1], lv));
    }
  }

  lemma ItemsArrivedMore(types: Types, v: Value, k: nat, lv: Value, d: ValueCopy)
    requires v.List? && k < |v.items| && ItemsArrived(types, v, k, lv)
    requires d == ItemToLcm(types, v.items[k], lv) && d.error == ErrorOfItem(types, v.items[k], lv)
    requires d.error.None? ==> ItemArrived(types, v.items[k], lv, d.value)
    ensures ItemsArrived(types, v, k + 1, lv)
  {
    if ErrorOfItems(types, v, k, lv).None? { ItemsToLcmMore(types, v, k, lv); }
  }

  lemma {:induction false} ItemArrives(types: Types, item: Value, lv: Value)
    requires item.Sub? ==>
               var made := NewLcmItem(types, item, lv);
               made.Made? && made.value.Sub? ==> Separate(types, item.t, made.value.t)
    ensures var d := ItemToLcm(types, item, lv);
            && d.error == ErrorOfItem(types, item, lv)
            && (d.error.None? ==> ItemArrived(types, item, lv, d.value))
    decreases item, 2
  {
    var made := NewLcmItem(types, item, lv);
    if made.Made? && types.IsRos(item) && made.value.Sub? {
      CopyArrives(types, item.t, made.value.t);
    }
  }

  lemma ValueRaises(types: Types, v: Value, lv: Value)
    ensures var c := RosToLcmValue(types, v, lv);
            c.error.Some? ==>
              c.value == if types.IsRos(v) && lv.Sub? then Sub(RosToLcm(types, v.t, lv.t).tree) else lv
  {
    if types.IsRos(v) {
      assert RosToLcmValue(types, v, lv) == RosToLcmInto(types, v, lv);
    }
  }

  lemma FieldRaises(types: Types, m: Tree, f: string, lp: Tree, before: Tree)
    requires ErrorOfField(types, m, f, lp).Some? && before.fields.Keys == lp.fields.Keys
    requires Carried(m, lp, f) ==> before.fields[LcmName(f)] == lp.fields[LcmName(f)]
    requires RosToLcmField(types, m, f, before).error.Some?
    ensures LcmName(f) in lp.fields
    ensures RosToLcmField(types, m, f, before).tree
            == if Carried(m, lp, f) && types.IsRos(m.fields[f]) && lp.fields[LcmName(f)].Sub?
               then before.(fields := before.fields[LcmName(f) :=
                      Sub(RosToLcm(types, m.fields[f].t, lp.fields[LcmName(f)].t).tree)])
               else before
  {
    if Carried(m, lp, f) {
      StoredInAttribute(types, m, f, before);
      ValueRaises(types, m.fields[f], lp.fields[LcmName(f)]);
      StoredAgain(before, LcmName(f), lp.fields[LcmName(f)]);
    }
  }

  lemma StoredInAttribute(types: Types, m: Tree, f: string, before: Tree)
    requires f in m.fields && LcmName(f) in before.fields && RosToLcmField(types, m, f, before).error.Some?
    ensures RosToLcmField(types, m, f, before).tree
            == before.(fields := before.fields[LcmName(f) :=
                 RosToLcmValue(types, m.fields[f], before.fields[LcmName(f)]).value])
  {
  }

  /** When field k is the first that cannot be copied, the fields before it have arrived, the ones after it are
      not looked at, and its own attribute changes only if a message was being copied into it. */
  lemma RaisedAt(types: Types, m: Tree, k: nat, lp: Tree)
    requires Separate(types, m, lp) && m.cls in types.declared && k < |types.declared[m.cls]|
    requires ErrorUpTo(types, m, k, lp).None? && ErrorOfField(types, m, types.Names(m.cls)[k], lp).Some?
    ensures var f, before, c := types.Names(m.cls)[k], RosToLcmFields(types, m, k, lp).tree, RosToLcm(types, m, lp);
            && ArrivedUpTo(types, m, k, lp, before) && c.error == ErrorOfField(types, m, f, lp)
            && LcmName(f) in lp.fields
            && if Carried(m, lp, f) && types.IsRos(m.fields[f]) && lp.fields[LcmName(f)].Sub?
               then c.tree == before.(fields := before.fields[LcmName(f) :=
                                Sub(RosToLcm(types, m.fields[f].t, lp.fields[LcmName(f)].t).tree)])
               else c.tree == before
  {
    var f, before := types.Names(m.cls)[k], RosToLcmFields(types, m, k, lp).tree;
    FirstErrorUpTo(types, m, k, lp);
    NextError(types, m, k, lp);
    FieldsArrive(types, m, k, lp);
    ErrorStops(types, m, k + 1, |types.declared[m.cls]|, lp);
    if Carried(m, lp, f) { FindsItsDefault(types, m, k, lp); }
    FieldRaises(types, m, f, lp, before);
  }
}
