/** The two recursive copies of rospubsub_conversion.py as functions on message trees.
    A copy yields the target as it stands when the copy returns or raises. */
module Conversion {
  import opened Messages

  datatype Copy = Copy(tree: Tree, error: Option<Error>)
  datatype ValueCopy = ValueCopy(value: Value, error: Option<Error>)
  datatype ItemsCopy = ItemsCopy(items: seq<Value>, error: Option<Error>)
  datatype Made = Made(value: Value) | Failed(error: Error)

  // ---------------------------------------------------------------- ROS to LCM

  function RosToLcm(types: Types, ros: Tree, lcm: Tree): Copy
    decreases ros, 2, 0
  {
    if ros.cls !in types.declared then Copy(lcm, Some(NotARosMessage))
    else RosToLcmFields(types, ros, |types.declared[ros.cls]|, lcm)
  }

  /** The target after the first k declared fields of `ros` have been handled. */
  function RosToLcmFields(types: Types, ros: Tree, k: nat, lcm: Tree): Copy
    requires ros.cls in types.declared && k <= |types.declared[ros.cls]|
    decreases ros, 1, k
  {
    if k == 0 then Copy(lcm, None)
    else
      var c := RosToLcmFields(types, ros, k - 1, lcm);
      if c.error.Some? then c else RosToLcmField(types, ros, types.declared[ros.cls][k - 1].name, c.tree)
  }

  function RosToLcmField(types: Types, ros: Tree, f: string, lcm: Tree): Copy
    decreases ros, 0, 0
  {
    var l := LcmName(f);
    if l !in lcm.fields then Copy(lcm, None)
    else if f !in ros.fields then Copy(lcm, Some(MissingAttribute))
    else
      var c := RosToLcmValue(types, ros.fields[f], lcm.fields[l]);
      var stored := lcm.(fields := lcm.fields[l := c.value]);
      Copy(if c.error.None? then WithLength(stored, l) else stored, c.error)
  }

  /** The X_length companion, where the target has one and X has a length. */
  function WithLength(lcm: Tree, l: string): Tree
    requires l in lcm.fields
  {
    if LengthName(l) in lcm.fields && HasLength(lcm.fields[l]) then
      lcm.(fields := lcm.fields[LengthName(l) := Scalar(Num(Length(lcm.fields[l])))])
    else lcm
  }

  function RosToLcmValue(types: Types, rv: Value, lv: Value): ValueCopy
    decreases rv, 1, 0
  {
    if types.IsRos(rv) then RosToLcmInto(types, rv, lv)
    else if rv.List? && rv.items != [] && types.IsRos(rv.items[0]) then
      var c := RosToLcmItems(types, rv, |rv.items|, lv);
      if c.error.Some? then ValueCopy(lv, c.error) else ValueCopy(List(c.items), None)
    else if rv.ByteArray? then ValueCopy(Bytes(rv.b), None)
    else ValueCopy(rv, None)
  }

  /** Copies a message into whatever the target attribute holds; a target that is not a
      message exposes no field, so nothing is copied. */
  function RosToLcmInto(types: Types, rv: Value, lv: Value): ValueCopy
    decreases rv, 0, 0
  {
    if !types.IsRos(rv) then ValueCopy(lv, Some(NotARosMessage))
    else if lv.Sub? then
      var c := RosToLcm(types, rv.t, lv.t);
      ValueCopy(Sub(c.tree), c.error)
    else ValueCopy(lv, None)
  }

  function RosToLcmItems(types: Types, rv: Value, k: nat, lv: Value): ItemsCopy
    requires rv.List? && k <= |rv.items|
    decreases rv, 0, k
  {
    if k == 0 then ItemsCopy([], None)
    else
      var c := RosToLcmItems(types, rv, k - 1, lv);
      if c.error.Some? then c
      else
        match NewLcmItem(types, rv.items[k - 1], lv)
        case Failed(e) => ItemsCopy(c.items, Some(e))
        case Made(blank) =>
          var d := RosToLcmInto(types, rv.items[k - 1], blank);
          if d.error.Some? then ItemsCopy(c.items, d.error) else ItemsCopy(c.items + [d.value], None)
  }

  /** The element to fill: like the first element the target list already holds, or the
      dimos_lcm class named after the ROS class. */
  function NewLcmItem(types: Types, item: Value, lv: Value): Made {
    if lv.List? && lv.items != [] then BlankLike(types, lv.items[0])
    else if !item.Sub? || item.t.cls.path == [] then Failed(ImportFailed)
    else
      match types.Import(["dimos_lcm", item.t.cls.path[0], item.t.cls.name], item.t.cls.name)
      case None => Failed(ImportFailed)
      case Some(c) => Made(Sub(types.Blank(c)))
  }

  /** type(v)() */
  function BlankLike(types: Types, v: Value): Made {
    match v
    case Sub(t) => Made(Sub(types.Blank(t.cls)))
    case List(_) => Made(List([]))
    case Bytes(_) => Made(Bytes([]))
    case ByteArray(_) => Failed(NoDefault)
    case Scalar(Num(_)) => Made(Scalar(Num(0)))
    case Scalar(Real(_)) => Made(Scalar(Real(0.0)))
    case Scalar(Text(_)) => Made(Scalar(Text("")))
    case Scalar(Flag(_)) => Made(Scalar(Flag(false)))
  }

  // ---------------------------------------------------------------- LCM to ROS

  function LcmToRos(types: Types, lcm: Tree, ros: Tree): Copy
    decreases lcm, 2, 0
  {
    if ros.cls !in types.declared then Copy(ros, Some(NotARosMessage))
    else LcmToRosFields(types, lcm, |types.declared[ros.cls]|, ros)
  }

  function LcmToRosFields(types: Types, lcm: Tree, k: nat, ros: Tree): (c: Copy)
    requires ros.cls in types.declared && k <= |types.declared[ros.cls]|
    ensures c.tree.cls == ros.cls
    decreases lcm, 1, k
  {
    if k == 0 then Copy(ros, None)
    else
      var c := LcmToRosFields(types, lcm, k - 1, ros);
      if c.error.Some? then c else LcmToRosField(types, lcm, types.declared[ros.cls][k - 1], c.tree)
  }

  function LcmToRosField(types: Types, lcm: Tree, f: Field, ros: Tree): (c: Copy)
    ensures c.tree.cls == ros.cls
    decreases lcm, 0, 0
  {
    var l := LcmName(f.name);
    if l !in lcm.fields then Copy(ros, None)
    else if f.name !in ros.fields then Copy(ros, Some(MissingAttribute))
    else
      var c := LcmToRosValue(types, lcm.fields[l], ros.fields[f.name], f.element);
      Copy(ros.(fields := ros.fields[f.name := c.value]), c.error)
  }

  function LcmToRosValue(types: Types, lv: Value, rv: Value, element: ElementType): ValueCopy
    decreases lv, 1, 0
  {
    if types.IsRos(rv) then LcmToRosInto(types, lv, rv)
    else if lv.List? && lv.items != [] && lv.items[0].Sub? && !types.IsRos(lv.items[0]) then
      var c := LcmToRosItems(types, lv, |lv.items|, element);
      if c.error.Some? then ValueCopy(rv, c.error) else ValueCopy(List(c.items), None)
    else if lv.Bytes? && rv.ByteArray? then ValueCopy(ByteArray(lv.b), None)
    else ValueCopy(lv, None)
  }

  function LcmToRosInto(types: Types, lv: Value, rv: Value): ValueCopy
    decreases lv, 0, 0
  {
    if !types.IsRos(rv) then ValueCopy(rv, Some(NotARosMessage))
    else if lv.Sub? then
      var c := LcmToRos(types, lv.t, rv.t);
      ValueCopy(Sub(c.tree), c.error)
    else ValueCopy(rv, None)
  }

  function LcmToRosItems(types: Types, lv: Value, k: nat, element: ElementType): ItemsCopy
    requires lv.List? && k <= |lv.items|
    decreases lv, 0, k
  {
    if k == 0 then ItemsCopy([], None)
    else
      var c := LcmToRosItems(types, lv, k - 1, element);
      if c.error.Some? then c
      else
        match NewRosItem(types, lv.items[k - 1], element)
        case Failed(e) => ItemsCopy(c.items, Some(e))
        case Made(blank) =>
          var d := LcmToRosInto(types, lv.items[k - 1], blank);
          if d.error.Some? then ItemsCopy(c.items, d.error) else ItemsCopy(c.items + [d.value], None)
  }

  /** The element class named in the type hint, else the one derived from the LCM module path. */
  function NewRosItem(types: Types, item: Value, element: ElementType): Made {
    match element
    case Some(ref) => Imported(types, [ref.0, "msg"], ref.1)
    case None =>
      if item.Sub? && |item.t.cls.path| >= 2 then
        Imported(types, [item.t.cls.path[1], "msg"], item.t.cls.name)
      else Failed(NoRosType)
  }

  function Imported(types: Types, path: seq<string>, name: string): Made {
    match types.Import(path, name)
    case None => Failed(ImportFailed)
    case Some(c) => Made(Sub(types.Blank(c)))
  }

  // ---------------------------------------------------------------- after an error

  lemma {:induction false} ErrorStops(types: Types, ros: Tree, k: nat, n: nat, lcm: Tree)
    requires ros.cls in types.declared && k <= n <= |types.declared[ros.cls]|
    requires RosToLcmFields(types, ros, k, lcm).error.Some?
    ensures RosToLcmFields(types, ros, n, lcm) == RosToLcmFields(types, ros, k, lcm)
  {
    if k < n {
      ErrorStops(types, ros, k, n - 1, lcm);
    }
  }

  lemma {:induction false} ItemErrorStops(types: Types, rv: Value, k: nat, n: nat, lv: Value)
    requires rv.List? && k <= n <= |rv.items|
    requires RosToLcmItems(types, rv, k, lv).error.Some?
    ensures RosToLcmItems(types, rv, n, lv) == RosToLcmItems(types, rv, k, lv)
  {
    if k < n {
      ItemErrorStops(types, rv, k, n - 1, lv);
    }
  }

  lemma {:induction false} BackErrorStops(types: Types, lcm: Tree, k: nat, n: nat, ros: Tree)
    requires ros.cls in types.declared && k <= n <= |types.declared[ros.cls]|
    requires LcmToRosFields(types, lcm, k, ros).error.Some?
    ensures LcmToRosFields(types, lcm, n, ros) == LcmToRosFields(types, lcm, k, ros)
  {
    if k < n {
      BackErrorStops(types, lcm, k, n - 1, ros);
    }
  }

  lemma {:induction false} BackItemErrorStops(types: Types, lv: Value, k: nat, n: nat, element: ElementType)
    requires lv.List? && k <= n <= |lv.items|
    requires LcmToRosItems(types, lv, k, element).error.Some?
    ensures LcmToRosItems(types, lv, n, element) == LcmToRosItems(types, lv, k, element)
  {
    if k < n {
      BackItemErrorStops(types, lv, k, n - 1, element);
    }
  }

  lemma StoredAgain(t: Tree, f: string, v: Value)
    requires f in t.fields && t.fields[f] == v
    ensures t.(fields := t.fields[f := v]) == t
  {
    assert t.fields[f := v] == t.fields;
  }

  // ---------------------------------------------------------------- one value, one list item

  /** A value without messages is copied whatever the target holds. */
  lemma PlainToLcm(types: Types, v: Value, lv: Value)
    requires MessageFree(v)
    ensures RosToLcmValue(types, v, lv) == ValueCopy(if v.ByteArray? then Bytes(v.b) else v, None)
  {
    if v.List? && v.items != [] {
      assert MessageFree(v.items[0]);
    }
  }

  /** What the copy of one list item yields. */
  function ItemToLcm(types: Types, item: Value, lv: Value): ValueCopy {
    match NewLcmItem(types, item, lv)
    case Failed(why) => ValueCopy(item, Some(why))
    case Made(blank) => RosToLcmInto(types, item, blank)
  }

  lemma ItemsToLcmMore(types: Types, rv: Value, k: nat, lv: Value)
    requires rv.List? && k < |rv.items| && RosToLcmItems(types, rv, k, lv).error.None?
    ensures var c, d := RosToLcmItems(types, rv, k, lv), ItemToLcm(types, rv.items[k], lv);
            RosToLcmItems(types, rv, k + 1, lv)
            == if d.error.Some? then ItemsCopy(c.items, d.error) else ItemsCopy(c.items + [d.value], None)
  {
  }

  /** What the copy of one list item yields. */
  function ItemToRos(types: Types, item: Value, element: ElementType): ValueCopy {
    match NewRosItem(types, item, element)
    case Failed(why) => ValueCopy(item, Some(why))
    case Made(blank) => LcmToRosInto(types, item, blank)
  }

  lemma ItemsToRosMore(types: Types, lv: Value, k: nat, element: ElementType)
    requires lv.List? && k < |lv.items| && LcmToRosItems(types, lv, k, element).error.None?
    ensures var c, d := LcmToRosItems(types, lv, k, element), ItemToRos(types, lv.items[k], element);
            LcmToRosItems(types, lv, k + 1, element)
            == if d.error.Some? then ItemsCopy(c.items, d.error) else ItemsCopy(c.items + [d.value], None)
  {
  }
}
