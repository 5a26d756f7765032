/** The recursive copies on message objects: the target is changed in place, object by object,
    and ends up as the functions of Conversion say. */
module ObjectCopy {
  import opened Messages
  import opened Conversion
  import opened MessageObjects

  /** Every message in the tree is a ROS message. */
  ghost predicate RosOnly(types: Types, t: Tree) {
    t.cls in types.declared && forall a | a in t.fields :: RosOnlyValue(types, t.fields[a])
  }

  ghost predicate RosOnlyValue(types: Types, v: Value) {
    match v
    case Sub(t) => RosOnly(types, t)
    case List(items) => forall i | 0 <= i < |items| :: RosOnlyValue(types, items[i])
    case _ => true
  }

  ghost predicate BlanksShaped(types: Types) {
    forall c | c in types.blanks :: Shaped(types.blanks[c])
  }

  // ---------------------------------------------------------------- ROS to LCM

  method CopyRosToLcm(types: Types, ros: Message, lcm: Message) returns (e: Option<Error>)
    requires BlanksShaped(types) && ros.Valid() && RosOnly(types, ros.tree)
    requires lcm.Valid() && lcm.Repr !! ros.Repr
    modifies lcm.Repr
    ensures lcm.Valid() && fresh(lcm.Repr - old(lcm.Repr))
    ensures Copy(lcm.tree, e) == RosToLcm(types, ros.tree, old(lcm.tree))
    decreases ros.Repr, 2, 3
  {
    var n := |types.declared[ros.cls]|;
    e := None;
    ghost var was := lcm.tree;
    var k := 0;
    while k < n && e.None?
      invariant k <= n && lcm.Valid() && ros.Valid() && fresh(lcm.Repr - old(lcm.Repr))
      invariant RosToLcmFields(types, ros.tree, k, was) == Copy(lcm.tree, e)
    {
      e := CopyNextToLcm(types, ros, k, lcm, was);
      k := k + 1;
    }
    if e.Some? { ErrorStops(types, ros.tree, k, n, was); }
  }

  /** One turn of the loop: was is the target before the first. */
  method CopyNextToLcm(types: Types, ros: Message, k: nat, lcm: Message, ghost was: Tree) returns (e: Option<Error>)
    requires BlanksShaped(types) && ros.Valid() && RosOnly(types, ros.tree) && k < |types.declared[ros.cls]|
    requires lcm.Valid() && lcm.Repr !! ros.Repr && RosToLcmFields(types, ros.tree, k, was) == Copy(lcm.tree, None)
    modifies lcm.Repr
    ensures lcm.Valid() && fresh(lcm.Repr - old(lcm.Repr))
    ensures RosToLcmFields(types, ros.tree, k + 1, was) == Copy(lcm.tree, e)
    decreases ros.Repr, 2, 2
  {
    e := CopyFieldToLcm(types, ros, types.declared[ros.cls][k].name, lcm);
  }

  method CopyFieldToLcm(types: Types, ros: Message, f: string, lcm: Message) returns (e: Option<Error>)
    requires BlanksShaped(types) && ros.Valid() && RosOnly(types, ros.tree)
    requires lcm.Valid() && lcm.Repr !! ros.Repr
    modifies lcm.Repr
    ensures lcm.Valid() && fresh(lcm.Repr - old(lcm.Repr))
    ensures Copy(lcm.tree, e) == RosToLcmField(types, ros.tree, f, old(lcm.tree))
    decreases ros.Repr, 2, 1
  {
    var l := LcmName(f);
    if l !in lcm.fields {
      return None;
    }
    if f !in ros.fields {
      return Some(MissingAttribute);
    }
    e := CopyValueToLcm(types, ros, f, lcm, l);
    if e.None? && LengthName(l) in lcm.fields {
      SetLength(lcm, l);
    }
  }

  method SetLength(lcm: Message, l: string)
    requires lcm.Valid() && l in lcm.fields && LengthName(l) in lcm.fields
    modifies lcm
    ensures lcm.Valid() && lcm.Repr == old(lcm.Repr) && lcm.tree == WithLength(old(lcm.tree), l)
  {
    match lcm.fields[l]
    case Many(ms) =>
      lcm.Set(LengthName(l), Leaf(Scalar(Num(|ms|))), {}, Scalar(Num(|ms|)));
    case Leaf(v) =>
      if HasLength(v) {
        lcm.Set(LengthName(l), Leaf(Scalar(Num(Length(v)))), {}, Scalar(Num(Length(v))));
      }
    case One(_) =>
  }

  method CopyValueToLcm(types: Types, ros: Message, f: string, lcm: Message, l: string) returns (e: Option<Error>)
    requires BlanksShaped(types) && ros.Valid() && RosOnly(types, ros.tree) && f in ros.fields
    requires lcm.Valid() && lcm.Repr !! ros.Repr && l in lcm.fields
    modifies lcm.Repr
    ensures lcm.Valid() && fresh(lcm.Repr - old(lcm.Repr))
    ensures var c := RosToLcmValue(types, ros.tree.fields[f], old(lcm.tree).fields[l]);
            e == c.error && lcm.tree == old(lcm.tree).(fields := old(lcm.tree).fields[l := c.value])
    decreases ros.Repr, 2, 0
  {
    assert Holds(ros.fields[f], ros.parts[f], ros.tree.fields[f]);
    assert RosOnlyValue(types, ros.tree.fields[f]);
    match ros.fields[f]
    case One(m) =>
      e := None;
      if lcm.fields[l].One? {
        e := CopyInto(types, m, lcm, l);
      }
    case Many(ms) =>
      assert ros.parts[f] < ros.Repr;
      e := CopyListInto(types, ms, ros.parts[f], ros.tree.fields[f], lcm, l);
    case Leaf(v) =>
      var w := if v.ByteArray? then Bytes(v.b) else v;
      PlainToLcm(types, v, lcm.tree.fields[l]);
      lcm.Set(l, Leaf(w), {}, w);
      return None;
  }

  /** The nested message object stays in place and is filled. */
  method CopyInto(types: Types, m: Message, lcm: Message, l: string) returns (e: Option<Error>)
    requires BlanksShaped(types) && m.Valid() && RosOnly(types, m.tree)
    requires lcm.Valid() && lcm.Repr !! m.Repr && l in lcm.fields && lcm.fields[l].One?
    modifies lcm.Repr
    ensures lcm.Valid() && fresh(lcm.Repr - old(lcm.Repr)) && lcm.fields == old(lcm.fields)
    ensures var c := RosToLcmInto(types, Sub(m.tree), old(lcm.tree).fields[l]);
            e == c.error && lcm.tree == old(lcm.tree).(fields := old(lcm.tree).fields[l := c.value])
    decreases m.Repr, 3
  {
    var kid := lcm.fields[l].m;
    ghost var part := lcm.parts[l];
    assert Holds(lcm.fields[l], part, lcm.tree.fields[l]);
    e := CopyRosToLcm(types, m, kid);
    forall a | a in lcm.fields && a != l ensures Holds(lcm.fields[a], lcm.parts[a], lcm.tree.fields[a]) {
      assert lcm.parts[a] !! part;
    }
    Reattach(lcm, l, kid);
  }

  /** Takes account of what happened to the nested object of attribute l. */
  ghost method Reattach(lcm: Message, l: string, kid: Message)
    requires lcm.Laid() && l in lcm.fields && lcm.fields[l] == One(kid) && kid.Valid()
    requires kid.Repr !! (lcm.Repr - lcm.parts[l])
    requires forall a | a in lcm.fields && a != l :: Holds(lcm.fields[a], lcm.parts[a], lcm.tree.fields[a])
    modifies lcm`parts, lcm`tree, lcm`Repr
    ensures lcm.Valid() && lcm.Repr == old(lcm.Repr) + kid.Repr
    ensures lcm.tree == old(lcm.tree).(fields := old(lcm.tree).fields[l := Sub(kid.tree)])
  {
    lcm.Lay(l, kid.Repr, Sub(kid.tree));
  }

  method CopyListInto(types: Types, ms: seq<Message>, ghost within: set<Message>, ghost rv: Value, lcm: Message,
        l: string)
    returns (e: Option<Error>)
    requires BlanksShaped(types) && Holds(Many(ms), within, rv) && RosOnlyValue(types, rv)
    requires lcm.Valid() && l in lcm.fields && lcm.Repr !! within
    modifies lcm
    ensures lcm.Valid() && fresh(lcm.Repr - old(lcm.Repr))
    ensures var c := RosToLcmValue(types, rv, old(lcm.tree).fields[l]);
            e == c.error && lcm.tree == old(lcm.tree).(fields := old(lcm.tree).fields[l := c.value])
    decreases within, 4
  {
    assert RosOnlyValue(types, rv.items[0]);
    var s, err;
    ghost var part, c;
    s, err, part, c := ListSlot(types, ms, within, rv, lcm, l);
    if s.Some? {
      e := None;
      lcm.Set(l, s.value, part, List(c.items));
    } else {
      e := Some(err);
      assert lcm.tree.fields == lcm.tree.fields[l := lcm.tree.fields[l]];
    }
  }

  /** The new list, or why there is none. */
  method ListSlot(types: Types, ms: seq<Message>, ghost within: set<Message>, ghost rv: Value, lcm: Message, l: string)
    returns (s: Option<Slot>, err: Error, ghost part: set<Message>, ghost c: ItemsCopy)
    requires BlanksShaped(types) && Holds(Many(ms), within, rv) && RosOnlyValue(types, rv)
    requires lcm.Valid() && l in lcm.fields
    ensures c == RosToLcmItems(types, rv, |rv.items|, lcm.tree.fields[l])
    ensures c.error == if s.Some? then None else Some(err)
    ensures s.Some? ==> Holds(s.value, part, List(c.items)) && fresh(part)
    decreases within, 3, 1
  {
    assert Holds(lcm.fields[l], lcm.parts[l], lcm.tree.fields[l]);
    if lcm.fields[l].Leaf? && lcm.fields[l].v.List? && lcm.fields[l].v.items != [] {
      s, err, c := CopyPlainList(types, ms, within, rv, lcm.fields[l].v);
      part := {};
    } else {
      var like := if lcm.fields[l].Many? then Some(lcm.fields[l].ms[0].cls) else None;
      s, err, part, c := CopyList(types, ms, within, rv, like, lcm.tree.fields[l]);
    }
  }

  /** The class of the first element of the list that the target holds, if it is a list of messages; the
      target holds no list of plain values. */
  predicate IsLike(like: Option<Class>, lv: Value) {
    if lv.List? && lv.items != [] then lv.items[0].Sub? && like == Some(lv.items[0].t.cls) else like == None
  }

  /** The class call that makes the element for a ROS item. */
  function ElementTree(types: Types, ros: Class, like: Option<Class>): Option<Tree> {
    if like.Some? then Some(types.Blank(like.value))
    else if ros.path == [] then None
    else
      match types.Import(["dimos_lcm", ros.path[0], ros.name], ros.name)
      case None => None
      case Some(c) => Some(types.Blank(c))
  }

  method CopyList(types: Types, ms: seq<Message>, ghost within: set<Message>, ghost rv: Value,
        like: Option<Class>, ghost lv: Value)
    returns (s: Option<Slot>, err: Error, ghost part: set<Message>, ghost c: ItemsCopy)
    requires BlanksShaped(types) && Holds(Many(ms), within, rv) && RosOnlyValue(types, rv)
    requires IsLike(like, lv)
    ensures c == RosToLcmItems(types, rv, |rv.items|, lv)
    ensures c.error == if s.Some? then None else Some(err)
    ensures s.Some? ==> Holds(s.value, part, List(c.items)) && fresh(part)
    decreases within, 3, 0
  {
    var out, e;
    ghost var items;
    e, out, part, items := FillList(types, ms, within, rv, like, lv);
    c := ItemsCopy(items, e);
    if e.Some? {
      s, err := None, e.value;
    } else {
      BuiltHolds(out, part, items);
      s, err := Some(Many(out)), ImportFailed;
    }
  }

  method FillList(types: Types, ms: seq<Message>, ghost within: set<Message>, ghost rv: Value,
        like: Option<Class>, ghost lv: Value)
    returns (e: Option<Error>, out: seq<Message>, ghost part: set<Message>, ghost items: seq<Value>)
    requires BlanksShaped(types) && Holds(Many(ms), within, rv) && RosOnlyValue(types, rv)
    requires IsLike(like, lv)
    ensures Built(out, part, items) && fresh(part) && (e.None? ==> |out| == |ms|)
    ensures RosToLcmItems(types, rv, |rv.items|, lv) == ItemsCopy(items, e)
    decreases within, 2, 6
  {
    e, out, part, items := None, [], {}, [];
    var k := 0;
    while k < |ms| && e.None?
      invariant k <= |ms| && fresh(part) && Built(out, part, items) && Holds(Many(ms), within, rv)
      invariant RosToLcmItems(types, rv, k, lv) == ItemsCopy(items, e) && (e.None? ==> |out| == k)
    {
      e, out, part, items := AppendNextToLcm(types, ms, k, within, rv, like, lv, out, part, items);
      k := k + 1;
    }
    if e.Some? { ItemErrorStops(types, rv, k, |ms|, lv); }
  }

  /** One turn of the loop. */
  method AppendNextToLcm(types: Types, ms: seq<Message>, k: nat, ghost within: set<Message>, ghost rv: Value,
                         like: Option<Class>, ghost lv: Value, out: seq<Message>, ghost part: set<Message>,
                               ghost items: seq<Value>)
    returns (e: Option<Error>, more: seq<Message>, ghost morePart: set<Message>, ghost moreItems: seq<Value>)
    requires BlanksShaped(types) && Holds(Many(ms), within, rv) && k < |ms| && RosOnlyValue(types, rv)
    requires IsLike(like, lv) && Built(out, part, items)
    requires RosToLcmItems(types, rv, k, lv) == ItemsCopy(items, None)
    ensures Built(more, morePart, moreItems) && fresh(morePart - part) && part <= morePart
    ensures RosToLcmItems(types, rv, k + 1, lv) == ItemsCopy(moreItems, e)
    ensures |moreItems| == if e.None? then |items| + 1 else |items|
    decreases within, 2, 5
  {
    var item;
    assert RosOnlyValue(types, rv.items[k]);
    item, e := CopyItem(types, ms[k], within, rv.items[k], like, lv);
    ItemsToLcmMore(types, rv, k, lv);
    more, morePart, moreItems := out, part, items;
    if e.None? {
      BuiltMore(out, part, items, item);
      more, morePart, moreItems := out + [item], part + item.Repr, items + [Sub(item.tree)];
    }
  }

  /** The array under construction. */
  ghost predicate Built(out: seq<Message>, part: set<Message>, items: seq<Value>)
    reads part
  {
    && |out| == |items|
    && (forall i | 0 <= i < |out| ::
          out[i] in part && out[i].Repr <= part && out[i].Valid() && items[i] == Sub(out[i].tree))
    && (forall i, j | 0 <= i < j < |out| :: out[i].Repr !! out[j].Repr)
  }

  lemma BuiltMore(out: seq<Message>, part: set<Message>, items: seq<Value>, item: Message)
    requires Built(out, part, items) && item.Valid() && item.Repr !! part
    ensures Built(out + [item], part + item.Repr, items + [Sub(item.tree)])
  {
  }

  lemma BuiltHolds(out: seq<Message>, part: set<Message>, items: seq<Value>)
    requires Built(out, part, items) && out != []
    ensures Holds(Many(out), part, List(items))
  {
  }

  /** A fresh object filled from one ROS item. */
  method CopyItem(types: Types, m: Message, ghost within: set<Message>, ghost rv: Value,
        like: Option<Class>, ghost lv: Value)
    returns (item: Message, e: Option<Error>)
    requires BlanksShaped(types) && m.Valid() && m.Repr <= within && rv == Sub(m.tree) && RosOnlyValue(types, rv)
    requires IsLike(like, lv)
    ensures var c := ItemToLcm(types, rv, lv);
            e == c.error && (e.None? ==> item.Valid() && fresh(item.Repr) && c.value == Sub(item.tree))
    decreases within, 2, 4
  {
    var blank := ElementTree(types, m.cls, like);
    assert m.cls == m.tree.cls;
    if blank.None? {
      item := new Message(m.cls);
      return item, Some(ImportFailed);
    }
    item := Instantiate(blank.value);
    assert NewLcmItem(types, rv, lv) == Made(Sub(item.tree));
    e := CopyRosToLcm(types, m, item);
  }

  method CopyPlainList(types: Types, ms: seq<Message>, ghost within: set<Message>, ghost rv: Value, v: Value)
    returns (s: Option<Slot>, err: Error, ghost c: ItemsCopy)
    requires Holds(Many(ms), within, rv) && RosOnlyValue(types, rv)
    requires MessageFree(v) && v.List? && v.items != []
    ensures c == RosToLcmItems(types, rv, |rv.items|, v)
    ensures c.error == if s.Some? then None else Some(err)
    ensures s.Some? ==> Holds(s.value, {}, List(c.items))
  {
    c := RosToLcmItems(types, rv, |rv.items|, v);
    PlainItems(types, rv, |rv.items|, v);
    match BlankLike(types, v.items[0])
    case Failed(why) =>
      s, err := None, why;
    case Made(x) =>
      s, err := Some(Leaf(List(seq(|ms|, _ => x)))), ImportFailed;
  }

  /** Into a list of plain values nothing is copied: the new list holds fresh plain values. */
  lemma {:induction false} PlainItems(types: Types, rv: Value, k: nat, lv: Value)
    requires rv.List? && k <= |rv.items| && RosOnlyValue(types, rv)
    requires forall i | 0 <= i < |rv.items| :: rv.items[i].Sub?
    requires MessageFree(lv) && lv.List? && lv.items != []
    ensures var c := RosToLcmItems(types, rv, k, lv);
            match BlankLike(types, lv.items[0])
            case Failed(e) => k > 0 ==> c.error == Some(e)
            case Made(x) => c == ItemsCopy(seq(k, _ => x), None) && MessageFree(x)
  {
    assert MessageFree(lv.items[0]);
    if k > 0 {
      PlainItems(types, rv, k - 1, lv);
      assert RosOnlyValue(types, rv.items[k - 1]);
    }
  }
}
