/** What the copy from LCM to ROS leaves in its target, field by field, and which error it raises. */
module ArrivalBack {
  import opened Messages
  import opened Conversion
  import opened ConversionFrame
  import opened RoundTrip

  /** The declared fields of a class are the keys of a dictionary. */
  ghost predicate DistinctNames(types: Types) {
    forall c | c in types.declared :: Distinct(types.Names(c))
  }

  /** `out` is what a copy of `lcm` to the first k declared fields makes of `rp`. A field has what the LCM side
      holds under its own name, but nanosec what it holds under nsec. */
  ghost predicate FilledUpTo(types: Types, lcm: Tree, k: nat, rp: Tree, out: Tree)
    requires rp.cls in types.declared && k <= |types.declared[rp.cls]|
    decreases lcm, 2
  {
    var fs := types.declared[rp.cls];
    && out.cls == rp.cls && out.fields.Keys == rp.fields.Keys
    && (forall i | 0 <= i < k :: FieldFilled(types, lcm, fs[i], rp, out))
    && (forall f | f in rp.fields && !ComesFrom(types.Names(rp.cls)[..k], lcm, f) :: out.fields[f] == rp.fields[f])
  }

  ghost predicate FieldFilled(types: Types, lcm: Tree, f: Field, rp: Tree, out: Tree)
    requires out.fields.Keys == rp.fields.Keys
    decreases lcm, 1
  {
    && (f.name != "nanosec" && f.name in lcm.fields ==>
          f.name in rp.fields
          && FilledValue(types, lcm.fields[f.name], rp.fields[f.name], f.element, out.fields[f.name]))
    && (f.name == "nanosec" && "nsec" in lcm.fields ==>
          f.name in rp.fields
          && FilledValue(types, lcm.fields["nsec"], rp.fields[f.name], f.element, out.fields[f.name]))
  }

  /** Field f is declared, and the LCM side has it. */
  predicate ComesFrom(names: seq<string>, lcm: Tree, f: string) {
    f in names && if f == "nanosec" then "nsec" in lcm.fields else f in lcm.fields
  }

  /** `o` is what copying lv makes of rv. */
  ghost predicate FilledValue(types: Types, lv: Value, rv: Value, element: ElementType, o: Value)
    decreases lv, 0
  {
    if types.IsRos(rv) then
      if lv.Sub? then o.Sub? && FilledUpTo(types, lv.t, |types.declared[rv.t.cls]|, rv.t, o.t) else o == rv
    else
      match lv
      case Scalar(_) => o == lv
      case Bytes(b) => o == if rv.ByteArray? then ByteArray(b) else lv
      case ByteArray(_) => o == lv
      case Sub(_) => o == lv
      case List(items) =>
        if items == [] || !items[0].Sub? || types.IsRos(items[0]) then o == lv
        else
          && o.List? && |o.items| == |items|
          && forall i | 0 <= i < |items| :: ItemFilled(types, items[i], element, o.items[i])
  }

  /** `o` is what copying a list item to a new ROS message makes of it. */
  ghost predicate ItemFilled(types: Types, item: Value, element: ElementType, o: Value)
    decreases item, 0
  {
    var made := NewRosItem(types, item, element);
    && made.Made? && types.IsRos(made.value)
    && if item.Sub? then
         o.Sub? && FilledUpTo(types, item.t, |types.declared[made.value.t.cls]|, made.value.t, o.t)
       else o == made.value
  }

  /** The error of the first field, in the order declared, that cannot be filled. */
  function BackErrorOf(types: Types, lcm: Tree, rp: Tree): Option<Error>
    decreases lcm, 2, 0
  {
    if rp.cls !in types.declared then Some(NotARosMessage)
    else BackErrorUpTo(types, lcm, |types.declared[rp.cls]|, rp)
  }

  function BackErrorUpTo(types: Types, lcm: Tree, k: nat, rp: Tree): Option<Error>
    requires rp.cls in types.declared && k <= |types.declared[rp.cls]|
    decreases lcm, 1, k
  {
    if k == 0 then None
    else
      var e := BackErrorUpTo(types, lcm, k - 1, rp);
      if e.Some? then e else BackErrorOfField(types, lcm, types.declared[rp.cls][k - 1], rp)
  }

  function BackErrorOfField(types: Types, lcm: Tree, f: Field, rp: Tree): Option<Error>
    decreases lcm, 0, 0
  {
    if LcmName(f.name) !in lcm.fields then None
    else if f.name !in rp.fields then Some(MissingAttribute)
    else BackErrorOfValue(types, lcm.fields[LcmName(f.name)], rp.fields[f.name], f.element)
  }

  function BackErrorOfValue(types: Types, lv: Value, rv: Value, element: ElementType): Option<Error>
    decreases lv, 1, 0
  {
    if types.IsRos(rv) then (if lv.Sub? then BackErrorOf(types, lv.t, rv.t) else None)
    else if lv.List? && lv.items != [] && lv.items[0].Sub? && !types.IsRos(lv.items[0])
    then BackErrorOfItems(types, lv, |lv.items|, element)
    else None
  }

  function BackErrorOfItems(types: Types, lv: Value, k: nat, element: ElementType): Option<Error>
    requires lv.List? && k <= |lv.items|
    decreases lv, 0, k
  {
    if k == 0 then None
    else
      var e := BackErrorOfItems(types, lv, k - 1, element);
      if e.Some? then e else ErrorOfRosItem(types, lv.items[k - 1], element)
  }

  /** Making the element comes before copying to it. */
  function ErrorOfRosItem(types: Types, item: Value, element: ElementType): Option<Error>
    decreases item, 3
  {
    match NewRosItem(types, item, element)
    case Failed(why) => Some(why)
    case Made(blank) =>
      if !types.IsRos(blank) then Some(NotARosMessage)
      else if item.Sub? then BackErrorOf(types, item.t, blank.t)
      else None
  }

  /** The copy raises exactly that error, and if there is none every field is filled. */
  lemma {:induction false} CopyFills(types: Types, lcm: Tree, rp: Tree)
    requires DistinctNames(types)
    ensures var c := LcmToRos(types, lcm, rp);
            && c.error == BackErrorOf(types, lcm, rp)
            && (c.error.None? ==> FilledUpTo(types, lcm, |types.declared[rp.cls]|, rp, c.tree))
    decreases lcm, 1, 0
  {
    if rp.cls in types.declared {
      FieldsFill(types, lcm, |types.declared[rp.cls]|, rp);
    }
  }

  ghost predicate FillsRightly(types: Types, lcm: Tree, k: nat, rp: Tree)
    requires rp.cls in types.declared && k <= |types.declared[rp.cls]|
  {
    var c := LcmToRosFields(types, lcm, k, rp);
    && c.error == BackErrorUpTo(types, lcm, k, rp)
    && (c.error.None? ==> FilledUpTo(types, lcm, k, rp, c.tree))
  }

  lemma {:induction false} FieldsFill(types: Types, lcm: Tree, k: nat, rp: Tree)
    requires DistinctNames(types) && rp.cls in types.declared && k <= |types.declared[rp.cls]|
    ensures FillsRightly(types, lcm, k, rp)
    decreases lcm, 0, k + 2
  {
    if k > 0 {
      FieldsFill(types, lcm, k - 1, rp);
      FillsMore(types, lcm, k - 1, rp);
    }
  }

  lemma {:induction false} FillsMore(types: Types, lcm: Tree, k: nat, rp: Tree)
    requires DistinctNames(types) && rp.cls in types.declared && k < |types.declared[rp.cls]|
    requires FillsRightly(types, lcm, k, rp)
    ensures FillsRightly(types, lcm, k + 1, rp)
    decreases lcm, 0, 2
  {
    var c := LcmToRosFields(types, lcm, k, rp);
    if c.error.None? {
      NextFills(types, lcm, k, rp, c.tree);
    }
  }

  /** `d` is c after field f has been filled. */
  ghost predicate FilledNext(types: Types, lcm: Tree, f: Field, rp: Tree, c: Tree, d: Tree)
    requires c.fields.Keys == rp.fields.Keys
  {
    if LcmName(f.name) !in lcm.fields then d == c
    else
      && f.name in rp.fields && f.name in d.fields && d == c.(fields := c.fields[f.name := d.fields[f.name]])
      && FilledValue(types, lcm.fields[LcmName(f.name)], rp.fields[f.name], f.element, d.fields[f.name])
  }

  lemma {:induction false} FieldFills(types: Types, lcm: Tree, f: Field, rp: Tree, c: Tree)
    requires DistinctNames(types) && c.fields.Keys == rp.fields.Keys
    requires f.name in rp.fields ==> c.fields[f.name] == rp.fields[f.name]
    ensures var d := LcmToRosField(types, lcm, f, c);
            && d.error == BackErrorOfField(types, lcm, f, rp)
            && (d.error.None? ==> FilledNext(types, lcm, f, rp, c, d.tree))
    decreases lcm, 0, 0
  {
    if LcmName(f.name) in lcm.fields && f.name in rp.fields {
      ValueFills(types, lcm.fields[LcmName(f.name)], rp.fields[f.name], f.element);
    }
  }

  lemma {:induction false} NextFills(types: Types, lcm: Tree, k: nat, rp: Tree, c: Tree)
    requires DistinctNames(types) && rp.cls in types.declared && k < |types.declared[rp.cls]|
    requires LcmToRosFields(types, lcm, k, rp) == Copy(c, None) && FilledUpTo(types, lcm, k, rp, c)
    ensures var d := LcmToRosField(types, lcm, types.declared[rp.cls][k], c);
            && d.error == BackErrorOfField(types, lcm, types.declared[rp.cls][k], rp)
            && (d.error.None? ==> FilledUpTo(types, lcm, k + 1, rp, d.tree))
    decreases lcm, 0, 1
  {
    var f := types.declared[rp.cls][k];
    FieldUntouched(types, lcm, rp, k, k);
    assert f.name == types.Names(rp.cls)[k];
    FieldFills(types, lcm, f, rp, c);
    if BackErrorOfField(types, lcm, f, rp).None? {
      FilledMore(types, lcm, k, rp, c, LcmToRosField(types, lcm, f, c).tree);
    }
  }

  /** What field k does not change. */
  lemma OthersKept(types: Types, lcm: Tree, k: nat, rp: Tree, c: Tree, d: Tree)
    requires rp.cls in types.declared && k < |types.declared[rp.cls]| && Distinct(types.Names(rp.cls))
    requires c.fields.Keys == rp.fields.Keys && FilledNext(types, lcm, types.declared[rp.cls][k], rp, c, d)
    ensures d.cls == c.cls && d.fields.Keys == rp.fields.Keys
    ensures var names := types.Names(rp.cls);
            && (forall i | 0 <= i < k && names[i] in rp.fields :: d.fields[names[i]] == c.fields[names[i]])
            && forall f | f in rp.fields && !ComesFrom(names[..k + 1], lcm, f) ::
                 !ComesFrom(names[..k], lcm, f) && d.fields[f] == c.fields[f]
  {
    var names := types.Names(rp.cls);
    assert names[..k + 1] == names[..k] + [names[k]];
    assert names[k] == types.declared[rp.cls][k].name;
    forall i | 0 <= i < k ensures names[i] != names[k] {
    }
  }

  lemma FilledMore(types: Types, lcm: Tree, k: nat, rp: Tree, c: Tree, d: Tree)
    requires rp.cls in types.declared && k < |types.declared[rp.cls]| && Distinct(types.Names(rp.cls))
    requires FilledUpTo(types, lcm, k, rp, c) && FilledNext(types, lcm, types.declared[rp.cls][k], rp, c, d)
    ensures FilledUpTo(types, lcm, k + 1, rp, d)
  {
    var fs, names := types.declared[rp.cls], types.Names(rp.cls);
    OthersKept(types, lcm, k, rp, c, d);
    forall i | 0 <= i < k + 1 ensures FieldFilled(types, lcm, fs[i], rp, d) {
      assert names[i] == fs[i].name;
      if i < k {
        assert FieldFilled(types, lcm, fs[i], rp, c);
      }
    }
  }

  lemma {:induction false} ValueFills(types: Types, lv: Value, rv: Value, element: ElementType)
    requires DistinctNames(types)
    ensures var c := LcmToRosValue(types, lv, rv, element);
            && c.error == BackErrorOfValue(types, lv, rv, element)
            && (c.error.None? ==> FilledValue(types, lv, rv, element, c.value))
    decreases lv, 1, 0
  {
    if types.IsRos(rv) {
      if lv.Sub? { CopyFills(types, lv.t, rv.t); }
    } else if lv.List? && lv.items != [] && lv.items[0].Sub? && !types.IsRos(lv.items[0]) {
      ItemsFill(types, lv, |lv.items|, element);
    }
  }

  /** The first k list items have been filled, or what stopped it has been raised. */
  ghost predicate ItemsFilled(types: Types, lv: Value, k: nat, element: ElementType)
    requires lv.List? && k <= |lv.items|
  {
    var c := LcmToRosItems(types, lv, k, element);
    && c.error == BackErrorOfItems(types, lv, k, element)
    && (c.error.None? ==>
          |c.items| == k && forall i | 0 <= i < k :: ItemFilled(types, lv.items[i], element, c.items[i]))
  }

  lemma {:induction false} ItemsFill(types: Types, lv: Value, k: nat, element: ElementType)
    requires DistinctNames(types) && lv.List? && k <= |lv.items|
    ensures ItemsFilled(types, lv, k, element)
    decreases lv, 0, k
  {
    if k > 0 {
      ItemsFill(types, lv, k - 1, element);
      ItemFills(types, lv.items[k - 1], element);
      ItemsFilledMore(types, lv, k - 1, element, ItemToRos(types, lv.items[k - 1], element));
    }
  }

  lemma ItemsFilledMore(types: Types, lv: Value, k: nat, element: ElementType, d: ValueCopy)
    requires lv.List? && k < |lv.items| && ItemsFilled(types, lv, k, element)
    requires d == ItemToRos(types, lv.items[k], element) && d.error == ErrorOfRosItem(types, lv.items[k], element)
    requires d.error.None? ==> ItemFilled(types, lv.items[k], element, d.value)
    ensures ItemsFilled(types, lv, k + 1, element)
  {
    if BackErrorOfItems(types, lv, k, element).None? { ItemsToRosMore(types, lv, k, element); }
  }

  lemma {:induction false} ItemFills(types: Types, item: Value, element: ElementType)
    requires DistinctNames(types)
    ensures var d := ItemToRos(types, item, element);
            && d.error == ErrorOfRosItem(types, item, element)
            && (d.error.None? ==> ItemFilled(types, item, element, d.value))
    decreases item, 2
  {
    var made := NewRosItem(types, item, element);
    if made.Made? && types.IsRos(made.value) && item.Sub? {
      CopyFills(types, item.t, made.value.t);
    }
  }

  lemma BackValueRaises(types: Types, lv: Value, rv: Value, element: ElementType)
    ensures var c := LcmToRosValue(types, lv, rv, element);
            c.error.Some? ==>
              c.value == if types.IsRos(rv) && lv.Sub? then Sub(LcmToRos(types, lv.t, rv.t).tree) else rv
  {
    if types.IsRos(rv) {
      assert LcmToRosValue(types, lv, rv, element) == LcmToRosInto(types, lv, rv);
    }
  }

  lemma StoredInField(types: Types, lcm: Tree, f: Field, before: Tree)
    requires LcmName(f.name) in lcm.fields && f.name in before.fields
    ensures LcmToRosField(types, lcm, f, before).tree
            == before.(fields := before.fields[f.name :=
                 LcmToRosValue(types, lcm.fields[LcmName(f.name)], before.fields[f.name], f.element).value])
  {
  }

  lemma FillRaises(types: Types, lcm: Tree, f: Field, rp: Tree, before: Tree)
    requires BackErrorOfField(types, lcm, f, rp).Some? && before.fields.Keys == rp.fields.Keys
    requires f.name in rp.fields ==> before.fields[f.name] == rp.fields[f.name]
    requires LcmToRosField(types, lcm, f, before).error.Some?
    ensures LcmName(f.name) in lcm.fields
    ensures LcmToRosField(types, lcm, f, before).tree
            == if f.name in rp.fields && types.IsRos(rp.fields[f.name]) && lcm.fields[LcmName(f.name)].Sub?
               then before.(fields := before.fields[f.name :=
                      Sub(LcmToRos(types, lcm.fields[LcmName(f.name)].t, rp.fields[f.name].t).tree)])
               else before
  {
    if f.name in rp.fields {
      StoredInField(types, lcm, f, before);
      BackValueRaises(types, lcm.fields[LcmName(f.name)], rp.fields[f.name], f.element);
      StoredAgain(before, f.name, rp.fields[f.name]);
    }
  }

  /** When field k is the first that cannot be filled, the fields before it are filled, the ones after it are
      not looked at, and it changes itself only if a message was being copied into it. */
  lemma FillRaisedAt(types: Types, lcm: Tree, k: nat, rp: Tree)
    requires DistinctNames(types) && rp.cls in types.declared && k < |types.declared[rp.cls]|
    requires BackErrorUpTo(types, lcm, k, rp).None?
    requires BackErrorOfField(types, lcm, types.declared[rp.cls][k], rp).Some?
    ensures var f, before, c := types.declared[rp.cls][k], LcmToRosFields(types, lcm, k, rp).tree,
                                LcmToRos(types, lcm, rp);
            && FilledUpTo(types, lcm, k, rp, before) && c.error == BackErrorOfField(types, lcm, f, rp)
            && LcmName(f.name) in lcm.fields
            && if f.name in rp.fields && types.IsRos(rp.fields[f.name]) && lcm.fields[LcmName(f.name)].Sub?
               then c.tree == before.(fields := before.fields[f.name :=
                                Sub(LcmToRos(types, lcm.fields[LcmName(f.name)].t, rp.fields[f.name].t).tree)])
               else c.tree == before
  {
    var f, before := types.declared[rp.cls][k], LcmToRosFields(types, lcm, k, rp).tree;
    FieldsFill(types, lcm, k, rp);
    FieldsFill(types, lcm, k + 1, rp);
    FieldUntouched(types, lcm, rp, k, k);
    BackErrorStops(types, lcm, k + 1, |types.declared[rp.cls]|, rp);
    FillRaises(types, lcm, f, rp, before);
  }

  // ---------------------------------------------------------------- the classes of list items

  /** Where message classes live: p.msg has the ROS messages of package p, in modules of its own, and
      dimos_lcm.p.N the LCM class N. */
  ghost predicate UsualModules(types: Types) {
    && (forall p, n | (["dimos_lcm", p, n], n) in types.imports ::
          types.imports[(["dimos_lcm", p, n], n)] == Class(["dimos_lcm", p, n], n))
    && (forall p, n | ([p, "msg"], n) in types.imports ::
          var c := types.imports[([p, "msg"], n)];
          c.name == n && |c.path| >= 2 && c.path[0] == p && c.path[1] == "msg")
  }

  /** A ROS item of package p and name n becomes an LCM item of dimos_lcm.p.n, and that becomes an item of the ROS
      class p.msg.n again, when the type hint does not say otherwise. */
  lemma ItemClasses(types: Types, item: Tree, p: string, n: string)
    requires UsualModules(types) && item.cls.path != [] && item.cls.path[0] == p && item.cls.name == n
    requires (["dimos_lcm", p, n], n) in types.imports && ([p, "msg"], n) in types.imports
    ensures var lcm := types.Blank(Class(["dimos_lcm", p, n], n));
            && NewLcmItem(types, Sub(item), List([])) == Made(Sub(lcm))
            && NewRosItem(types, Sub(lcm), None) == Made(Sub(types.Blank(types.imports[([p, "msg"], n)])))
            && NewRosItem(types, Sub(lcm), Some((p, n))) == NewRosItem(types, Sub(lcm), None)
  {
  }

  /** Otherwise an item is of the class of the elements already there, or of the one the hint names. */
  lemma OtherItemClasses(types: Types, item: Value, there: Tree, more: seq<Value>, p: string, n: string)
    requires UsualModules(types) && ([p, "msg"], n) in types.imports
    ensures NewLcmItem(types, item, List([Sub(there)] + more)) == Made(Sub(types.Blank(there.cls)))
    ensures NewRosItem(types, item, Some((p, n))) == Made(Sub(types.Blank(types.imports[([p, "msg"], n)])))
  {
  }

  /** Why an item gets no element: there is no such class, or nothing to tell its package from. */
  lemma ItemErrors(types: Types, item: Tree, p: string, n: string)
    ensures item.cls.path != [] && (["dimos_lcm", item.cls.path[0], item.cls.name], item.cls.name) !in types.imports ==>
              NewLcmItem(types, Sub(item), List([])) == Failed(ImportFailed)
    ensures ([p, "msg"], n) !in types.imports ==> NewRosItem(types, Sub(item), Some((p, n))) == Failed(ImportFailed)
    ensures |item.cls.path| < 2 ==> NewRosItem(types, Sub(item), None) == Failed(NoRosType)
  {
  }

  /** An element made after a plain value is the false value of its type; an array has none. */
  lemma PlainElements(types: Types, v: Value)
    requires !v.Sub?
    ensures var made := BlankLike(types, v);
            match v
            case Scalar(Num(_)) => made == Made(Scalar(Num(0)))
            case Scalar(Real(_)) => made == Made(Scalar(Real(0.0)))
            case Scalar(Text(_)) => made == Made(Scalar(Text("")))
            case Scalar(Flag(_)) => made == Made(Scalar(Flag(false)))
            case Bytes(_) => made == Made(Bytes([]))
            case List(_) => made == Made(List([]))
            case _ => made == Failed(NoDefault)
  {
  }
}
