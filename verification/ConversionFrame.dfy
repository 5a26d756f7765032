/** What a ROS to LCM copy leaves alone, and the X_length companions it keeps right. */
module ConversionFrame {
  import opened Messages
  import opened Conversion

  lemma {:induction false} CopyKeepsShape(types: Types, ros: Tree, k: nat, lcm: Tree)
    requires ros.cls in types.declared && k <= |types.declared[ros.cls]|
    ensures var c := RosToLcmFields(types, ros, k, lcm).tree;
            c.cls == lcm.cls && c.fields.Keys == lcm.fields.Keys
  {
    if k > 0 {
      CopyKeepsShape(types, ros, k - 1, lcm);
    }
  }

  /** Target attributes that no declared field maps to, and that are not the companion of
      such an attribute, keep their value: also when the copy raises. */
  lemma {:induction false} UnmappedUnchanged(types: Types, ros: Tree, k: nat, lcm: Tree, a: string)
    requires ros.cls in types.declared && k <= |types.declared[ros.cls]|
    requires a in lcm.fields
    requires forall i | 0 <= i < k :: var l := LcmName(types.Names(ros.cls)[i]);
               l in lcm.fields ==> a != l && a != LengthName(l)
    ensures var c := RosToLcmFields(types, ros, k, lcm).tree;
            a in c.fields && c.fields[a] == lcm.fields[a]
  {
    if k > 0 {
      UnmappedUnchanged(types, ros, k - 1, lcm, a);
      CopyKeepsShape(types, ros, k - 1, lcm);
      assert types.Names(ros.cls)[k - 1] == types.declared[ros.cls][k - 1].name;
    }
  }

  /** In the other direction: ROS attributes that are no declared field, and declared ones that the LCM
      side lacks, keep their value, and no attribute is added: also when the copy raises. */
  lemma {:induction false} UnsentUnchanged(types: Types, lcm: Tree, k: nat, ros: Tree, a: string)
    requires ros.cls in types.declared && k <= |types.declared[ros.cls]|
    requires a in types.Names(ros.cls)[..k] ==> LcmName(a) !in lcm.fields
    ensures var c := LcmToRosFields(types, lcm, k, ros).tree;
            && c.cls == ros.cls && c.fields.Keys == ros.fields.Keys
            && (a in ros.fields ==> c.fields[a] == ros.fields[a])
  {
    if k > 0 {
      var names := types.Names(ros.cls);
      assert names[..k] == names[..k - 1] + [names[k - 1]];
      UnsentUnchanged(types, lcm, k - 1, ros, a);
    }
  }

  // ---------------------------------------------------------------- length companions

  ghost predicate LengthsRight(t: Tree) {
    && (forall a | a in t.fields && LengthName(a) in t.fields && HasLength(t.fields[a]) ::
          t.fields[LengthName(a)] == Scalar(Num(Length(t.fields[a]))))
    && (forall a | a in t.fields :: LengthsRightIn(t.fields[a]))
  }

  ghost predicate LengthsRightIn(v: Value) {
    match v
    case Sub(t) => LengthsRight(t)
    case List(items) => forall i | 0 <= i < |items| :: LengthsRightIn(items[i])
    case _ => true
  }

  /** The shape of values in ROS messages: a message, a list of messages, or no message. */
  ghost predicate RosShaped(types: Types, v: Value) {
    || MessageFree(v)
    || types.IsRos(v)
    || (v.List? && v.items != [] && forall i | 0 <= i < |v.items| :: types.IsRos(v.items[i]))
  }

  ghost predicate Companion(lcm: Tree, l: string) {
    exists a | a in lcm.fields :: LengthName(a) == l
  }

  /** No declared field, here or deeper, is written to the companion of another attribute,
      and no message is written to an attribute that an earlier field is written to as well. */
  ghost predicate CompanionsUnmapped(types: Types, ros: Tree, lcm: Tree)
    decreases ros, 1
  {
    ros.cls in types.declared ==>
      var names := types.Names(ros.cls);
      && (forall i, j | 0 <= i < j < |names| && LcmName(names[i]) in lcm.fields && names[j] in ros.fields ::
            LcmName(names[i]) == LcmName(names[j]) ==> MessageFree(ros.fields[names[j]]))
      && (forall i | 0 <= i < |names| && LcmName(names[i]) in lcm.fields && names[i] in ros.fields ::
            && !Companion(lcm, LcmName(names[i]))
            && CompanionsUnmappedIn(types, ros.fields[names[i]], lcm.fields[LcmName(names[i])]))
  }

  ghost predicate CompanionsUnmappedIn(types: Types, rv: Value, lv: Value)
    decreases rv, 0
  {
    && RosShaped(types, rv)
    && (rv.Sub? && lv.Sub? ==> CompanionsUnmapped(types, rv.t, lv.t))
    && (rv.List? ==>
          forall i | 0 <= i < |rv.items| ::
            rv.items[i].Sub? ==>
              var made := NewLcmItem(types, rv.items[i], lv);
              made.Made? && made.value.Sub? ==> CompanionsUnmapped(types, rv.items[i].t, made.value.t))
  }

  ghost predicate BlanksRight(types: Types) {
    forall c | c in types.blanks :: LengthsRight(types.blanks[c])
  }

  lemma {:induction false} MessageFreeLengths(v: Value)
    requires MessageFree(v)
    ensures LengthsRightIn(v)
  {
    if v.List? {
      forall i | 0 <= i < |v.items| ensures LengthsRightIn(v.items[i]) {
        MessageFreeLengths(v.items[i]);
      }
    }
  }

  lemma BlankRight(types: Types, item: Value, lv: Value)
    requires BlanksRight(types)
    ensures var made := NewLcmItem(types, item, lv);
            made.Made? ==> LengthsRightIn(made.value)
  {
    forall c: Class ensures LengthsRight(types.Blank(c)) {
      if !(c in types.blanks && types.blanks[c].cls == c) {
        assert types.Blank(c) == Node(c, map[]);
      }
    }
  }

  /** Whatever the copy does, returning or raising, every X_length in the whole resulting tree
      equals the length of its X if that was so before. */
  lemma {:induction false} CopyKeepsLengths(types: Types, ros: Tree, lcm: Tree)
    requires BlanksRight(types) && LengthsRight(lcm) && CompanionsUnmapped(types, ros, lcm)
    ensures LengthsRight(RosToLcm(types, ros, lcm).tree)
    decreases ros, 2, 0
  {
    if ros.cls in types.declared {
      CopyKeepsLengthsFields(types, ros, |types.declared[ros.cls]|, lcm);
    }
  }

  lemma {:induction false} CopyKeepsLengthsFields(types: Types, ros: Tree, k: nat, lcm: Tree)
    requires ros.cls in types.declared && k <= |types.declared[ros.cls]|
    requires BlanksRight(types) && LengthsRight(lcm) && CompanionsUnmapped(types, ros, lcm)
    ensures LengthsRight(RosToLcmFields(types, ros, k, lcm).tree)
    decreases ros, 1, k
  {
    if k > 0 {
      CopyKeepsLengthsFields(types, ros, k - 1, lcm);
      var c := RosToLcmFields(types, ros, k - 1, lcm);
      CopyKeepsShape(types, ros, k - 1, lcm);
      var names := types.Names(ros.cls);
      if c.error.None? { FieldKeepsLengths(types, ros, k - 1, lcm, c.tree); }
    }
  }

  /** One field, copied into what the earlier fields have left. */
  lemma {:induction false} FieldKeepsLengths(types: Types, ros: Tree, k: nat, lcm: Tree, now: Tree)
    requires ros.cls in types.declared && k < |types.declared[ros.cls]|
    requires BlanksRight(types) && CompanionsUnmapped(types, ros, lcm) && LengthsRight(now)
    requires now == RosToLcmFields(types, ros, k, lcm).tree && now.fields.Keys == lcm.fields.Keys
    ensures LengthsRight(RosToLcmField(types, ros, types.Names(ros.cls)[k], now).tree)
    decreases ros, 0, 1
  {
    var f := types.Names(ros.cls)[k];
    var l := LcmName(f);
    if l in now.fields && f in ros.fields {
      if MessageFree(ros.fields[f]) {
        PlainUnmapped(types, ros.fields[f], now.fields[l]);
      } else {
        FirstOnAttribute(types, ros, k, lcm);
      }
      assert !Companion(now, l) by { assert !Companion(lcm, l); }
      ValueKeepsLengths(types, ros.fields[f], now.fields[l]);
      StoreKeepsLengths(types, now, l, RosToLcmValue(types, ros.fields[f], now.fields[l]));
    }
  }

  lemma PlainUnmapped(types: Types, v: Value, lv: Value)
    requires MessageFree(v)
    ensures CompanionsUnmappedIn(types, v, lv)
  {
    if v.List? {
      forall i | 0 <= i < |v.items| ensures !v.items[i].Sub? {
        assert MessageFree(v.items[i]);
      }
    }
  }

  /** A field that carries messages finds the attribute as it was before the copy. */
  lemma FirstOnAttribute(types: Types, ros: Tree, k: nat, lcm: Tree)
    requires ros.cls in types.declared && k < |types.declared[ros.cls]| && CompanionsUnmapped(types, ros, lcm)
    requires var f := types.Names(ros.cls)[k];
             f in ros.fields && LcmName(f) in lcm.fields && !MessageFree(ros.fields[f])
    ensures var c, l := RosToLcmFields(types, ros, k, lcm).tree, LcmName(types.Names(ros.cls)[k]);
            l in c.fields && c.fields[l] == lcm.fields[l]
  {
    var names := types.Names(ros.cls);
    var l := LcmName(names[k]);
    forall i | 0 <= i < k
      ensures LcmName(names[i]) in lcm.fields ==> l != LcmName(names[i]) && l != LengthName(LcmName(names[i]))
    {
      if LcmName(names[i]) in lcm.fields {
        assert !Companion(lcm, l);
      }
    }
    UnmappedUnchanged(types, ros, k, lcm, l);
  }

  lemma {:induction false} ValueKeepsLengths(types: Types, rv: Value, lv: Value)
    requires BlanksRight(types) && LengthsRightIn(lv) && CompanionsUnmappedIn(types, rv, lv)
    ensures var c := RosToLcmValue(types, rv, lv);
            LengthsRightIn(c.value) && (c.error.Some? ==> c.value.Sub? || c.value == lv)
    decreases rv, 1, 0
  {
    if types.IsRos(rv) {
      if lv.Sub? {
        CopyKeepsLengths(types, rv.t, lv.t);
      }
    } else if rv.List? && rv.items != [] && types.IsRos(rv.items[0]) {
      ItemsKeepLengths(types, rv, |rv.items|, lv);
    } else {
      MessageFreeLengths(rv);
    }
  }

  lemma {:induction false} ItemsKeepLengths(types: Types, rv: Value, k: nat, lv: Value)
    requires rv.List? && k <= |rv.items|
    requires BlanksRight(types) && CompanionsUnmappedIn(types, rv, lv)
    ensures forall v | v in RosToLcmItems(types, rv, k, lv).items :: LengthsRightIn(v)
    decreases rv, 0, k
  {
    if k > 0 {
      ItemsKeepLengths(types, rv, k - 1, lv);
      BlankRight(types, rv.items[k - 1], lv);
      var made := NewLcmItem(types, rv.items[k - 1], lv);
      if made.Made? && types.IsRos(rv.items[k - 1]) && made.value.Sub? {
        CopyKeepsLengths(types, rv.items[k - 1].t, made.value.t);
      }
    }
  }

  lemma StoreKeepsLengths(types: Types, lcm: Tree, l: string, c: ValueCopy)
    requires l in lcm.fields && LengthsRight(lcm) && !Companion(lcm, l)
    requires LengthsRightIn(c.value)
    requires c.error.Some? ==> !HasLength(c.value) || c.value == lcm.fields[l]
    ensures var stored := lcm.(fields := lcm.fields[l := c.value]);
            LengthsRight(if c.error.None? then WithLength(stored, l) else stored)
  {
    var stored := lcm.(fields := lcm.fields[l := c.value]);
    var out := if c.error.None? then WithLength(stored, l) else stored;
    forall a | a in out.fields && LengthName(a) in out.fields && HasLength(out.fields[a])
      ensures out.fields[LengthName(a)] == Scalar(Num(Length(out.fields[a])))
    {
      LengthNameInjective(a, l);
      assert LengthName(a) != l;
    }
    forall a | a in out.fields ensures LengthsRightIn(out.fields[a]) {
    }
  }
}
