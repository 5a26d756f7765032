/** Exactly which classes of messages, nested ones included, survive the round trip: those where no field
    overwrites another. */
module Overwriting {
  import opened Messages
  import opened Conversion
  import opened ConversionFrame
  import opened RoundTrip

  /** A value without messages: a scalar, a byte string, a uint8 array or a list. */
  ghost predicate Plain(v: Value) {
    !v.Sub? && MessageFree(v)
  }

  /** What is sent for the value has a length. */
  predicate Long(v: Value) {
    v.List? || v.Bytes? || v.ByteArray?
  }

  predicate SamePrim(p: Prim, q: Prim) {
    (p.Num? <==> q.Num?) && (p.Real? <==> q.Real?) && (p.Text? <==> q.Text?)
  }

  predicate SameKind(v: Value, w: Value) {
    match v
    case Scalar(p) => w.Scalar? && SamePrim(p, w.p)
    case Bytes(_) => w.Bytes?
    case ByteArray(_) => w.ByteArray?
    case List(_) => w.List?
    case Sub(_) => w.Sub?
  }

  /** The ROS instance rp gives the kinds of the fields of its class: plain values, or messages of such kinds. */
  ghost predicate Kinds(types: Types, rp: Tree) {
    && rp.cls in types.declared && Distinct(types.Names(rp.cls))
    && rp.fields.Keys == (set n | n in types.Names(rp.cls))
    && forall n | n in rp.fields :: Plain(rp.fields[n]) || (rp.fields[n].Sub? && Kinds(types, rp.fields[n].t))
  }

  /** A message of the class of rp with fields of the same kinds. */
  ghost predicate Alike(rp: Tree, m: Tree) {
    && m.cls == rp.cls && m.fields.Keys == rp.fields.Keys
    && forall n | n in rp.fields ::
         && SameKind(rp.fields[n], m.fields[n])
         && if rp.fields[n].Sub? then Alike(rp.fields[n].t, m.fields[n].t) else MessageFree(m.fields[n])
  }

  /** The LCM instance has all the fields, here and deeper. */
  ghost predicate Exposes(rp: Tree, lp: Tree) {
    forall n | n in rp.fields ::
      && LcmName(n) in lp.fields
      && (rp.fields[n].Sub? ==> lp.fields[LcmName(n)].Sub? && Exposes(rp.fields[n].t, lp.fields[LcmName(n)].t))
  }

  /** Fields that are messages have attributes of their own, which are no other field's companion, here and
      deeper. */
  ghost predicate NestedAside(rp: Tree) {
    forall a | a in rp.fields && rp.fields[a].Sub? ::
      && NestedAside(rp.fields[a].t)
      && forall b | b in rp.fields && b != a ::
           LcmName(a) != LcmName(b) && (Long(rp.fields[b]) ==> LcmName(a) != LengthName(LcmName(b)))
  }

  /** No field of this level is overwritten by a later field, or by the length of a later one. */
  ghost predicate LevelClean(types: Types, rp: Tree)
    requires rp.cls in types.declared
  {
    var names := types.Names(rp.cls);
    forall i, j | 0 <= i < j < |names| && names[j] in rp.fields :: Leaves(names[i], names[j], Long(rp.fields[names[j]]))
  }

  /** No field is overwritten, here or deeper. */
  ghost predicate Clean(types: Types, rp: Tree) {
    && rp.cls in types.declared && LevelClean(types, rp)
    && forall n | n in rp.fields && rp.fields[n].Sub? :: Clean(types, rp.fields[n].t)
  }

  /** All messages like rp come back if and only if no field is overwritten at any level. */
  lemma ComesBackIffNoOverwrite(types: Types, lp: Tree, rp: Tree)
    requires Kinds(types, rp) && Exposes(rp, lp) && NestedAside(rp)
    ensures Clean(types, rp) <==> forall m | Alike(rp, m) :: ComesBack(types, m, lp, rp)
  {
    if Clean(types, rp) {
      forall m | Alike(rp, m) ensures ComesBack(types, m, lp, rp) {
        CleanFits(types, m, lp, rp);
        MirroredComesBack(types, m, lp, rp);
      }
    } else {
      var m := LostMessage(types, lp, rp);
    }
  }

  // ---------------------------------------------------------------- clean classes

  lemma PlainFits(types: Types, v: Value, lv: Value, rv: Value, element: ElementType)
    requires Plain(v) && Plain(rv) && SameKind(rv, v)
    ensures !Structured(types, v) && FitsValue(types, v, lv, rv, element)
    ensures MirroredValue(types, v, lv, rv, element)
    ensures SendsLength(v, lv) == Long(rv)
  {
    if v.List? && v.items != [] {
      assert MessageFree(v.items[0]);
    }
  }

  lemma {:induction false} CleanFits(types: Types, m: Tree, lp: Tree, rp: Tree)
    requires Kinds(types, rp) && Exposes(rp, lp) && NestedAside(rp) && Clean(types, rp) && Alike(rp, m)
    ensures Fits(types, m, lp, rp) && Mirrored(types, m, lp, rp)
    decreases rp
  {
    var fs, names := types.declared[m.cls], types.Names(m.cls);
    forall i | 0 <= i < |fs|
      ensures names[i] in rp.fields && LcmName(names[i]) in lp.fields
      ensures Structured(types, m.fields[names[i]]) ==> rp.fields[names[i]].Sub?
      ensures SendsLength(m.fields[names[i]], lp.fields[LcmName(names[i])]) == Long(rp.fields[names[i]])
      ensures FitsValue(types, m.fields[names[i]], lp.fields[LcmName(names[i])], rp.fields[names[i]], fs[i].element)
      ensures MirroredValue(types, m.fields[names[i]], lp.fields[LcmName(names[i])], rp.fields[names[i]], fs[i].element)
    {
      var f := names[i];
      assert f in names;
      if rp.fields[f].Sub? {
        CleanFits(types, m.fields[f].t, lp.fields[LcmName(f)].t, rp.fields[f].t);
      } else {
        PlainFits(types, m.fields[f], lp.fields[LcmName(f)], rp.fields[f], fs[i].element);
      }
    }
  }

  // ---------------------------------------------------------------- a lost message

  lemma {:induction false} AlikeItself(types: Types, rp: Tree)
    requires Kinds(types, rp)
    ensures Alike(rp, rp)
  {
    forall n | n in rp.fields && rp.fields[n].Sub? ensures Alike(rp.fields[n].t, rp.fields[n].t) {
      AlikeItself(types, rp.fields[n].t);
    }
  }

  /** The default with one field changed. */
  function With(rp: Tree, f: string, v: Value): Tree {
    rp.(fields := rp.fields[f := v])
  }

  lemma AlikeWith(types: Types, rp: Tree, f: string, v: Value)
    requires Kinds(types, rp) && f in rp.fields && SameKind(rp.fields[f], v)
    requires if v.Sub? then Alike(rp.fields[f].t, v.t) else MessageFree(v)
    ensures Alike(rp, With(rp, f, v))
  {
    AlikeItself(types, rp);
  }

  /** Default but for one field: of the first unclean level, or deeper down. */
  lemma {:induction false} LostMessage(types: Types, lp: Tree, rp: Tree) returns (m: Tree)
    requires Kinds(types, rp) && Exposes(rp, lp) && NestedAside(rp) && !Clean(types, rp)
    ensures Alike(rp, m) && !ComesBack(types, m, lp, rp)
    decreases rp
  {
    if LevelClean(types, rp) {
      var f := UncleanField(types, rp);
      var deep := LostMessage(types, lp.fields[LcmName(f)].t, rp.fields[f].t);
      m := With(rp, f, Sub(deep));
      AlikeWith(types, rp, f, Sub(deep));
      LostWithField(types, m, lp, rp, f);
    } else {
      m := LostHere(types, lp, rp);
    }
  }

  lemma UncleanField(types: Types, rp: Tree) returns (f: string)
    requires rp.cls in types.declared && LevelClean(types, rp) && !Clean(types, rp)
    ensures f in rp.fields && rp.fields[f].Sub? && !Clean(types, rp.fields[f].t)
  {
    f :| f in rp.fields && rp.fields[f].Sub? && !Clean(types, rp.fields[f].t);
  }

  /** What the fields of one level have to do with each other and with lp. */
  ghost predicate Level(types: Types, m: Tree, lp: Tree) {
    && m.cls in types.declared && Distinct(types.Names(m.cls)) && m.fields.Keys == (set n | n in types.Names(m.cls))
    && (forall n | n in m.fields ::
          && LcmName(n) in lp.fields
          && if m.fields[n].Sub? then types.IsRos(m.fields[n])
                && lp.fields[LcmName(n)].Sub? else MessageFree(m.fields[n]))
    && forall a, b | a in m.fields && b in m.fields && a != b && m.fields[a].Sub? ::
         LcmName(a) != LcmName(b) && (Long(m.fields[b]) ==> LcmName(a) != LengthName(LcmName(b)))
  }

  lemma LevelOf(types: Types, m: Tree, lp: Tree, rp: Tree)
    requires Kinds(types, rp) && Exposes(rp, lp) && NestedAside(rp) && Alike(rp, m)
    ensures Level(types, m, lp)
  {
    forall n | n in m.fields ensures m.fields[n].Sub? == rp.fields[n].Sub? && Long(m.fields[n]) == Long(rp.fields[n]) {
      assert SameKind(rp.fields[n], m.fields[n]);
    }
  }

  // ---------------------------------------------------------------- one field sent, one returned

  /** The attribute of nested field i holds its copy once it is handled, and its default before. */
  ghost predicate SentOnce(types: Types, m: Tree, lp: Tree, i: nat, k: nat, lcm: Tree)
    requires m.cls in types.declared && i < |types.declared[m.cls]|
  {
    var f := types.Names(m.cls)[i];
    && f in m.fields && m.fields[f].Sub? && LcmName(f) in lp.fields && lp.fields[LcmName(f)].Sub?
    && LcmName(f) in lcm.fields
    && if k <= i then lcm.fields[LcmName(f)] == lp.fields[LcmName(f)]
       else
         var deep := RosToLcm(types, m.fields[f].t, lp.fields[LcmName(f)].t);
         deep.error.None? && lcm.fields[LcmName(f)] == Sub(deep.tree)
  }

  lemma SentNow(types: Types, m: Tree, f: string, lcm: Tree)
    requires f in m.fields && types.IsRos(m.fields[f]) && LcmName(f) in lcm.fields && lcm.fields[LcmName(f)].Sub?
    ensures var c, deep := RosToLcmField(types, m, f, lcm), RosToLcm(types, m.fields[f].t, lcm.fields[LcmName(f)].t);
            && c.error == deep.error
            && c.tree.fields == lcm.fields[LcmName(f) := Sub(deep.tree)]
  {
    var deep := RosToLcm(types, m.fields[f].t, lcm.fields[LcmName(f)].t);
    assert RosToLcmInto(types, m.fields[f], lcm.fields[LcmName(f)]) == ValueCopy(Sub(deep.tree), deep.error);
    assert RosToLcmValue(types, m.fields[f], lcm.fields[LcmName(f)]) == ValueCopy(Sub(deep.tree), deep.error);
  }

  /** What a plain field writes. */
  lemma PlainNow(types: Types, m: Tree, f: string, lcm: Tree, a: string)
    requires f in m.fields && Plain(m.fields[f]) && LcmName(f) in lcm.fields && a in lcm.fields
    ensures var c, v := RosToLcmField(types, m, f, lcm), m.fields[f];
            var sent := if v.ByteArray? then Bytes(v.b) else v;
            && c.error.None? && c.tree.fields.Keys == lcm.fields.Keys
            && c.tree.fields[a] == if a == LcmName(f) then sent
                                   else if a == LengthName(LcmName(f)) && Long(v) then Scalar(Num(Length(sent)))
                                   else lcm.fields[a]
  {
    var v, l := m.fields[f], LcmName(f);
    var sent := if v.ByteArray? then Bytes(v.b) else v;
    PlainToLcm(types, v, lcm.fields[l]);
    Stored(lcm, l, sent);
    if a != l { StoredElsewhere(lcm, l, sent, a); }
  }

  lemma SentOnceMore(types: Types, m: Tree, lp: Tree, i: nat, k: nat, lcm: Tree)
    requires Level(types, m, lp) && i < |types.declared[m.cls]| && k < |types.declared[m.cls]|
    requires SentOnce(types, m, lp, i, k, lcm) && lcm.fields.Keys == lp.fields.Keys
    requires var g := types.Names(m.cls)[k];
             g in m.fields && (m.fields[g].Sub? ==> LcmName(g) in lcm.fields && lcm.fields[LcmName(g)].Sub?)
    requires RosToLcmField(types, m, types.Names(m.cls)[k], lcm).error.None?
    ensures SentOnce(types, m, lp, i, k + 1, RosToLcmField(types, m, types.Names(m.cls)[k], lcm).tree)
  {
    var f, g := types.Names(m.cls)[i], types.Names(m.cls)[k];
    assert k != i ==> f != g;
    if m.fields[g].Sub? {
      SentNow(types, m, g, lcm);
    } else {
      PlainNow(types, m, g, lcm, LcmName(f));
    }
  }

  function FieldAt(types: Types, m: Tree, i: nat): Value
    requires m.cls in types.declared && i < |types.declared[m.cls]|
          && m.fields.Keys == (set n | n in types.Names(m.cls))
  {
    assert types.Names(m.cls)[i] in types.Names(m.cls);
    m.fields[types.Names(m.cls)[i]]
  }

  lemma NestedSentMore(types: Types, m: Tree, lp: Tree, i: nat, k: nat)
    requires Level(types, m, lp) && i < |types.declared[m.cls]| && k < |types.declared[m.cls]|
    requires RosToLcmFields(types, m, k + 1, lp).error.None?
    requires SentOnce(types, m, lp, i, k, RosToLcmFields(types, m, k, lp).tree)
    requires FieldAt(types, m, k).Sub? ==> SentOnce(types, m, lp, k, k, RosToLcmFields(types, m, k, lp).tree)
    ensures SentOnce(types, m, lp, i, k + 1, RosToLcmFields(types, m, k + 1, lp).tree)
  {
    CopyKeepsShape(types, m, k, lp);
    assert FieldAt(types, m, k) == m.fields[types.Names(m.cls)[k]];
    SentOnceMore(types, m, lp, i, k, RosToLcmFields(types, m, k, lp).tree);
  }

  /** Every nested field has been sent once, or still has its default. */
  ghost predicate AllNested(types: Types, m: Tree, lp: Tree, k: nat)
    requires m.cls in types.declared && k <= |types.declared[m.cls]|
          && m.fields.Keys == (set n | n in types.Names(m.cls))
  {
    RosToLcmFields(types, m, k, lp).error.None? ==>
      forall i | 0 <= i < |types.declared[m.cls]| && FieldAt(types, m, i).Sub? ::
        SentOnce(types, m, lp, i, k, RosToLcmFields(types, m, k, lp).tree)
  }

  lemma AllNestedMore(types: Types, m: Tree, lp: Tree, k: nat)
    requires Level(types, m, lp) && k < |types.declared[m.cls]| && AllNested(types, m, lp, k)
    ensures AllNested(types, m, lp, k + 1)
  {
    if RosToLcmFields(types, m, k + 1, lp).error.None? {
      forall i | 0 <= i < |types.declared[m.cls]| && FieldAt(types, m, i).Sub?
        ensures SentOnce(types, m, lp, i, k + 1, RosToLcmFields(types, m, k + 1, lp).tree)
      {
        NestedSentMore(types, m, lp, i, k);
      }
    }
  }

  /** Before its turn a nested field finds a message, its default; afterwards its attribute holds the copy. */
  lemma {:induction false} NestedSent(types: Types, m: Tree, lp: Tree, k: nat)
    requires Level(types, m, lp) && k <= |types.declared[m.cls]|
    ensures AllNested(types, m, lp, k)
  {
    NestedAtFirst(types, m, lp);
    for n := 0 to k
      invariant AllNested(types, m, lp, n)
    {
      AllNestedMore(types, m, lp, n);
    }
  }

  lemma NestedAtFirst(types: Types, m: Tree, lp: Tree)
    requires Level(types, m, lp)
    ensures AllNested(types, m, lp, 0)
  {
    forall i | 0 <= i < |types.declared[m.cls]| && FieldAt(types, m, i).Sub?
      ensures SentOnce(types, m, lp, i, 0, lp)
    {
      assert types.Names(m.cls)[i] in m.fields;
    }
  }

  lemma ReturnedField(types: Types, lcm: Tree, f: Field, ros: Tree, a: string)
    requires a in ros.fields && LcmToRosField(types, lcm, f, ros).error.None?
    ensures var c := LcmToRosField(types, lcm, f, ros).tree;
            && a in c.fields
            && if a == f.name && LcmName(a) in lcm.fields then
                 var d := LcmToRosValue(types, lcm.fields[LcmName(a)], ros.fields[a], f.element);
                 d.error.None? && c.fields[a] == d.value
               else c.fields[a] == ros.fields[a]
  {
  }

  /** Field i of the message copied back depends on its attribute and its default only. */
  lemma {:induction false} ReturnedAt(types: Types, lcm: Tree, rp: Tree, i: nat, k: nat)
    requires rp.cls in types.declared && Distinct(types.Names(rp.cls))
    requires i < |types.declared[rp.cls]| && k <= |types.declared[rp.cls]|
    requires var f := types.Names(rp.cls)[i]; f in rp.fields && LcmName(f) in lcm.fields
    requires LcmToRosFields(types, lcm, k, rp).error.None?
    ensures var c, f := LcmToRosFields(types, lcm, k, rp).tree, types.Names(rp.cls)[i];
            && f in c.fields
            && if k <= i then c.fields[f] == rp.fields[f]
               else
                 var d := LcmToRosValue(types, lcm.fields[LcmName(f)], rp.fields[f], types.declared[rp.cls][i].element);
                 d.error.None? && c.fields[f] == d.value
  {
    if k > 0 {
      ReturnedAt(types, lcm, rp, i, k - 1);
      assert k - 1 != i ==> types.Names(rp.cls)[k - 1] != types.Names(rp.cls)[i];
      ReturnedField(types, lcm, types.declared[rp.cls][k - 1], LcmToRosFields(types, lcm, k - 1, rp).tree,
                    types.Names(rp.cls)[i]);
    }
  }

  // ---------------------------------------------------------------- lost in a nested message

  /** A message comes back only if the messages in it do. */
  lemma LostWithField(types: Types, m: Tree, lp: Tree, rp: Tree, f: string)
    requires Kinds(types, rp) && Exposes(rp, lp) && NestedAside(rp) && Alike(rp, m)
    requires f in rp.fields && rp.fields[f].Sub?
    requires !ComesBack(types, m.fields[f].t, lp.fields[LcmName(f)].t, rp.fields[f].t)
    ensures !ComesBack(types, m, lp, rp)
  {
    var i := NestedIndex(types, m, lp, rp, f);
    if ComesBack(types, m, lp, rp) { NestedComesBack(types, m, lp, rp, i); }
  }

  lemma NestedIndex(types: Types, m: Tree, lp: Tree, rp: Tree, f: string) returns (i: nat)
    requires Kinds(types, rp) && Exposes(rp, lp) && NestedAside(rp) && Alike(rp, m) && f in rp.fields
          && rp.fields[f].Sub?
    ensures Level(types, m, lp) && rp.cls == m.cls && i < |types.declared[m.cls]| && types.Names(m.cls)[i] == f
    ensures f in m.fields && m.fields[f].Sub? && types.IsRos(rp.fields[f])
  {
    LevelOf(types, m, lp, rp);
    i :| 0 <= i < |types.Names(rp.cls)| && types.Names(rp.cls)[i] == f;
  }

  lemma NestedComesBack(types: Types, m: Tree, lp: Tree, rp: Tree, i: nat)
    requires Level(types, m, lp) && rp.cls == m.cls && i < |types.declared[m.cls]| && ComesBack(types, m, lp, rp)
    requires var f := types.Names(m.cls)[i];
             f in m.fields && f in rp.fields && m.fields[f].Sub? && types.IsRos(rp.fields[f])
    ensures var f := types.Names(m.cls)[i];
            ComesBack(types, m.fields[f].t, lp.fields[LcmName(f)].t, rp.fields[f].t)
  {
    var f, n := types.Names(m.cls)[i], |types.declared[m.cls]|;
    NestedSent(types, m, lp, n);
    assert FieldAt(types, m, i).Sub?;
    var there := RosToLcm(types, m, lp).tree;
    ReturnedAt(types, there, rp, i, n);
    NestedReturns(types, there.fields[LcmName(f)], rp.fields[f], types.declared[rp.cls][i].element);
  }

  lemma NestedReturns(types: Types, lv: Value, rv: Value, element: ElementType)
    requires lv.Sub? && types.IsRos(rv)
    ensures var c := LcmToRos(types, lv.t, rv.t);
            LcmToRosValue(types, lv, rv, element) == ValueCopy(Sub(c.tree), c.error)
  {
    var c := LcmToRos(types, lv.t, rv.t);
    assert LcmToRosInto(types, lv, rv) == ValueCopy(Sub(c.tree), c.error);
  }

  // ---------------------------------------------------------------- lost at this level

  /** Another value of the same kind. */
  function Other(v: Value): Value {
    match v
    case Scalar(Num(n)) => Scalar(Num(n + 1))
    case Scalar(Real(r)) => Scalar(Real(r + 1.0))
    case Scalar(Text(s)) => Scalar(Text(s + "."))
    case Scalar(Flag(b)) => Scalar(Flag(!b))
    case Bytes(b) => Bytes(b + [0])
    case ByteArray(b) => ByteArray(b + [0])
    case List(items) => List(items + [Scalar(Num(0))])
    case Sub(t) => v
  }

  lemma OtherDiffers(v: Value)
    requires Plain(v)
    ensures Plain(Other(v)) && SameKind(v, Other(v)) && Other(v) != v
  {
    match v
    case Scalar(Text(s)) => assert |s + "."| != |s|;
    case Bytes(b) => assert |b + [0]| != |b|;
    case ByteArray(b) => assert |b + [0]| != |b|;
    case List(items) =>
      assert |items + [Scalar(Num(0))]| != |items|;
      forall i | 0 <= i < |Other(v).items| ensures MessageFree(Other(v).items[i]) {
        assert i < |items| ==> MessageFree(items[i]);
      }
    case _ =>
  }

  /** Field j, plain, writes to the attribute of field i, also plain. */
  ghost predicate Collide(names: seq<string>, m: Tree, i: nat, j: nat) {
    && i < j < |names| && names[i] in m.fields && names[j] in m.fields
    && Plain(m.fields[names[i]]) && Plain(m.fields[names[j]])
    && !Leaves(names[i], names[j], Long(m.fields[names[j]]))
  }

  lemma Colliding(types: Types, rp: Tree) returns (i: nat, j: nat)
    requires Kinds(types, rp) && NestedAside(rp) && !LevelClean(types, rp)
    ensures Collide(types.Names(rp.cls), rp, i, j) && types.Names(rp.cls)[i] != types.Names(rp.cls)[j]
  {
    var names := types.Names(rp.cls);
    i, j :| 0 <= i < j < |names| && names[j] in rp.fields && !Leaves(names[i], names[j], Long(rp.fields[names[j]]));
    assert names[i] in names && names[i] != names[j];
  }

  /** Two messages that differ in field i only are the same there once field j has been handled. */
  lemma LostHere(types: Types, lp: Tree, rp: Tree) returns (m: Tree)
    requires Kinds(types, rp) && Exposes(rp, lp) && NestedAside(rp) && !LevelClean(types, rp)
    ensures Alike(rp, m) && !ComesBack(types, m, lp, rp)
  {
    var i, j := Colliding(types, rp);
    var f := types.Names(rp.cls)[i];
    OtherDiffers(rp.fields[f]);
    AlikeItself(types, rp);
    AlikeWith(types, rp, f, Other(rp.fields[f]));
    m := With(rp, f, Other(rp.fields[f]));
    LevelOf(types, rp, lp, rp);
    LevelOf(types, m, lp, rp);
    OneIsLost(types, rp, m, lp, rp, i, j);
    if !ComesBack(types, rp, lp, rp) { m := rp; }
  }

  /** The two messages differ in field i only. */
  ghost predicate DifferAt(types: Types, m: Tree, o: Tree, i: nat)
    requires m.cls in types.declared && i < |types.Names(m.cls)|
  {
    && o.cls == m.cls && o.fields.Keys == m.fields.Keys
    && forall n | n in m.fields && n != types.Names(m.cls)[i] :: m.fields[n] == o.fields[n]
  }

  lemma OneIsLost(types: Types, m: Tree, o: Tree, lp: Tree, rp: Tree, i: nat, j: nat)
    requires Level(types, m, lp) && Level(types, o, lp) && Collide(types.Names(m.cls), m, i, j)
          && DifferAt(types, m, o, i)
    requires rp.cls == m.cls && rp.fields.Keys == m.fields.Keys
    requires m.fields[types.Names(m.cls)[i]] != o.fields[types.Names(m.cls)[i]]
    ensures !(ComesBack(types, m, lp, rp) && ComesBack(types, o, lp, rp))
  {
    var n := |types.declared[m.cls]|;
    if ComesBack(types, m, lp, rp) && ComesBack(types, o, lp, rp) {
      SameAttribute(types, m, o, lp, i, j, n);
      ReturnedAt(types, RosToLcm(types, m, lp).tree, rp, i, n);
      ReturnedAt(types, RosToLcm(types, o, lp).tree, rp, i, n);
      assert false;
    }
  }

  /** The attribute of field i is the same after the first k fields of both messages. */
  ghost predicate SameAt(types: Types, m: Tree, o: Tree, lp: Tree, i: nat, k: nat)
    requires m.cls in types.declared && o.cls == m.cls
    requires i < |types.declared[m.cls]| && k <= |types.declared[m.cls]|
  {
    var l, c, d := LcmName(types.Names(m.cls)[i]), RosToLcmFields(types, m, k, lp), RosToLcmFields(types, o, k, lp);
    c.error.None? && d.error.None? ==> l in c.tree.fields && l in d.tree.fields && c.tree.fields[l] == d.tree.fields[l]
  }

  /** Once field j has written to it, the attribute of field i is the same, whatever comes after. */
  lemma {:induction false} SameAttribute(types: Types, m: Tree, o: Tree, lp: Tree, i: nat, j: nat, k: nat)
    requires Level(types, m, lp) && Level(types, o, lp) && Collide(types.Names(m.cls), m, i, j)
          && DifferAt(types, m, o, i)
    requires j < k <= |types.declared[m.cls]|
    ensures SameAt(types, m, o, lp, i, k)
  {
    SameMore(types, m, o, lp, i, j, j);
    for n := j + 1 to k
      invariant SameAt(types, m, o, lp, i, n)
    {
      SameMore(types, m, o, lp, i, j, n);
    }
  }

  lemma SameMore(types: Types, m: Tree, o: Tree, lp: Tree, i: nat, j: nat, k: nat)
    requires Level(types, m, lp) && Level(types, o, lp) && Collide(types.Names(m.cls), m, i, j)
          && DifferAt(types, m, o, i)
    requires j <= k < |types.declared[m.cls]| && (k == j || SameAt(types, m, o, lp, i, k))
    ensures SameAt(types, m, o, lp, i, k + 1)
  {
    var names := types.Names(m.cls);
    assert names[k] in names && names[k] != names[i];
    var c, d := RosToLcmFields(types, m, k, lp), RosToLcmFields(types, o, k, lp);
    if c.error.None? && d.error.None? {
      CopyKeepsShape(types, m, k, lp);
      CopyKeepsShape(types, o, k, lp);
      if m.fields[names[k]].Sub? {
        NestedSent(types, m, lp, k);
        NestedSent(types, o, lp, k);
        assert FieldAt(types, m, k).Sub? && FieldAt(types, o, k).Sub?;
      }
      SameWritten(types, m, o, names[k], c.tree, d.tree, names[i]);
    }
  }

  /** A field that is the same in both messages writes the same, or does not write there. */
  lemma SameWritten(types: Types, m: Tree, o: Tree, g: string, c: Tree, d: Tree, f: string)
    requires g in m.fields && g in o.fields && m.fields[g] == o.fields[g]
    requires LcmName(g) in c.fields && LcmName(g) in d.fields && LcmName(f) in c.fields && LcmName(f) in d.fields
    requires if m.fields[g].Sub? then types.IsRos(m.fields[g]) && c.fields[LcmName(g)].Sub? && d.fields[LcmName(g)].Sub?
                                      && LcmName(f) != LcmName(g)
             else Plain(m.fields[g])
    requires c.fields[LcmName(f)] == d.fields[LcmName(f)] || (!m.fields[g].Sub? && !Leaves(f, g, Long(m.fields[g])))
    ensures var e, h := RosToLcmField(types, m, g, c).tree, RosToLcmField(types, o, g, d).tree;
            LcmName(f) in e.fields && LcmName(f) in h.fields && e.fields[LcmName(f)] == h.fields[LcmName(f)]
  {
    if m.fields[g].Sub? {
      SentNow(types, m, g, c);
      SentNow(types, o, g, d);
    } else {
      PlainNow(types, m, g, c, LcmName(f));
      PlainNow(types, o, g, d, LcmName(f));
    }
  }

  // ---------------------------------------------------------------- a class that loses messages

  const STAMP := Class(["stamps", "msg"], "Stamp")

  /** One class, declaring nanosec and then nsec. */
  const COLLIDING := Types(map[], map[STAMP := [Field("nanosec", None), Field("nsec", None)]], map[])

  function Stamp(nanosec: int, nsec: int): Tree {
    Node(STAMP, map["nanosec" := Scalar(Num(nanosec)), "nsec" := Scalar(Num(nsec))])
  }

  lemma StampNames()
    ensures COLLIDING.Names(STAMP) == ["nanosec", "nsec"] && LcmName("nanosec") == "nsec" && LcmName("nsec") == "nsec"
  {
    assert |"nsec"| != |"nanosec"|;
  }

  /** Whatever nanosec is, nsec is sent. */
  lemma StampSent(lcm: Class, nanosec: int, nsec: int)
    ensures var c := RosToLcmFields(COLLIDING, Stamp(nanosec, nsec), 2, Node(lcm, map["nsec" := Scalar(Num(0))]));
            c.error.None? ==> "nsec" in c.tree.fields && c.tree.fields["nsec"] == Scalar(Num(nsec))
  {
    StampNames();
    var m, lp := Stamp(nanosec, nsec), Node(lcm, map["nsec" := Scalar(Num(0))]);
    var c := RosToLcmFields(COLLIDING, m, 1, lp);
    CopyKeepsShape(COLLIDING, m, 1, lp);
    PlainNow(COLLIDING, m, "nsec", c.tree, "nsec");
  }

  /** Its message with nanosec 1 and nsec 0 does not come back: both fields are written to nsec. */
  lemma CollisionHappens(lcm: Class)
    ensures !ComesBack(COLLIDING, Stamp(1, 0), Node(lcm, map["nsec" := Scalar(Num(0))]), Stamp(0, 0))
  {
    var m, lp, rp := Stamp(1, 0), Node(lcm, map["nsec" := Scalar(Num(0))]), Stamp(0, 0);
    StampNames();
    if ComesBack(COLLIDING, m, lp, rp) {
      StampSent(lcm, 1, 0);
      ReturnedAt(COLLIDING, RosToLcm(COLLIDING, m, lp).tree, rp, 0, 2);
      assert false;
    }
  }
}
