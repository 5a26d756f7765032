/** Messages as objects whose attributes are set in place. */
module MessageObjects {
  import opened Messages

  /** An attribute: a value without messages, a message object, or a list of message objects. */
  datatype Slot = Leaf(v: Value) | One(m: Message) | Many(ms: seq<Message>)

  /** The slot stands for v, with all its objects inside `part`. */
  ghost predicate Holds(s: Slot, part: set<Message>, v: Value)
    reads part
    decreases part, 1
  {
    match s
    case Leaf(x) => x == v && MessageFree(x)
    case One(m) => m in part && m.Repr <= part && m.Valid() && v == Sub(m.tree)
    case Many(ms) =>
      && ms != [] && v.List? && |v.items| == |ms|
      && (forall i | 0 <= i < |ms| ::
            ms[i] in part && ms[i].Repr <= part && ms[i].Valid() && v.items[i] == Sub(ms[i].tree))
      && (forall i, j | 0 <= i < j < |ms| :: ms[i].Repr !! ms[j].Repr)
  }

  class Message {
    const cls: Class
    var fields: map<string, Slot>
    ghost var parts: map<string, set<Message>>  // the objects below each attribute
    ghost var Repr: set<Message>
    ghost var tree: Tree

    /** The parts of the attributes lie apart inside Repr. */
    ghost predicate Laid()
      reads this
    {
      && this in Repr
      && tree.cls == cls && tree.fields.Keys == fields.Keys == parts.Keys
      && (forall a | a in fields :: parts[a] <= Repr && this !in parts[a])
      && (forall a, b | a in fields && b in fields && a != b :: parts[a] !! parts[b])
    }

    /** The object is the root of a tree of objects, and `tree` is the message it stands for. */
    ghost predicate Valid()
      reads this, Repr
      decreases Repr, 0
    {
      Laid() && forall a | a in fields :: Holds(fields[a], parts[a], tree.fields[a])
    }

    constructor (c: Class)
      ensures Valid() && fresh(Repr) && tree == Node(c, map[])
    {
      cls := c;
      fields, parts := map[], map[];
      Repr := {this};
      tree := Node(c, map[]);
    }

    /** Attribute a, with the objects of `part`, stands for v. */
    ghost method Lay(a: string, part: set<Message>, v: Value)
      requires Laid() && a in fields && this !in part && forall b | b in fields && b != a :: parts[b] !! part
      modifies this`parts, this`tree, this`Repr
      ensures Laid() && parts == old(parts)[a := part] && Repr == old(Repr) + part
      ensures tree == old(tree).(fields := old(tree).fields[a := v])
    {
      parts := parts[a := part];
      tree := tree.(fields := tree.fields[a := v]);
      Repr := Repr + part;
    }

    /** setattr(this, a, s) */
    method Set(a: string, s: Slot, ghost part: set<Message>, ghost v: Value)
      requires Valid() && Holds(s, part, v) && part !! Repr
      modifies this
      ensures Valid() && fields == old(fields)[a := s]
      ensures tree == old(tree).(fields := old(tree).fields[a := v])
      ensures Repr == old(Repr) + part
    {
      fields := fields[a := s];
      parts := parts[a := part];
      tree := tree.(fields := tree.fields[a := v]);
      Repr := Repr + part;
    }
  }

  // ---------------------------------------------------------------- instances

  /** A tree whose lists hold messages only, or none. */
  ghost predicate Shaped(t: Tree)
  {
    forall a | a in t.fields :: ShapedValue(t.fields[a])
  }

  ghost predicate ShapedValue(v: Value) {
    || MessageFree(v)
    || (v.Sub? && Shaped(v.t))
    || (v.List? && v.items != [] && forall i | 0 <= i < |v.items| :: v.items[i].Sub? && Shaped(v.items[i].t))
  }

  /** A fresh object that stands for t. */
  method Instantiate(t: Tree) returns (m: Message)
    requires Shaped(t)
    ensures m.Valid() && fresh(m.Repr) && m.tree == t
    decreases t, 1
  {
    m := new Message(t.cls);
    var todo := t.fields.Keys;
    while todo != {}
      invariant todo <= t.fields.Keys && m.Valid() && fresh(m.Repr)
      invariant m.tree.cls == t.cls && m.tree.fields.Keys == t.fields.Keys - todo
      invariant forall a | a in m.tree.fields :: m.tree.fields[a] == t.fields[a]
      decreases todo
    {
      var a :| a in todo;
      ghost var part;
      var s;
      s, part := InstantiateSlot(t.fields[a]);
      m.Set(a, s, part, t.fields[a]);
      todo := todo - {a};
    }
    assert m.tree.fields == t.fields;
  }

  method InstantiateSlot(v: Value) returns (s: Slot, ghost part: set<Message>)
    requires ShapedValue(v)
    ensures Holds(s, part, v) && fresh(part)
    decreases v, 0
  {
    if v.Sub? {
      var m := Instantiate(v.t);
      s, part := One(m), m.Repr;
    } else if v.List? && v.items != [] && v.items[0].Sub? {
      var ms: seq<Message> := [];
      part := {};
      for k := 0 to |v.items|
        invariant |ms| == k && fresh(part)
        invariant forall i | 0 <= i < k ::
              ms[i] in part && ms[i].Repr <= part && ms[i].Valid() && v.items[i] == Sub(ms[i].tree)
        invariant forall i, j | 0 <= i < j < |ms| :: ms[i].Repr !! ms[j].Repr
      {
        assert v.items[k].Sub? && Shaped(v.items[k].t) by {
          assert !MessageFree(v) by { assert !MessageFree(v.items[0]); }
        }
        var m := Instantiate(v.items[k].t);
        ms, part := ms + [m], part + m.Repr;
      }
      s := Many(ms);
    } else {
      s, part := Leaf(v), {};
    }
  }
}
