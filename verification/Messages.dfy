/** Message values as the converter of rospubsub_conversion.py sees them: trees of
    attributes, and the table of message classes that imports can reach. */
module Messages {

  datatype Option<+T> = None | Some(value: T)

  type byte = x: int | 0 <= x < 256

  /** A value with no structure the converter looks into. */
  datatype Prim = Num(n: int) | Real(r: real) | Text(s: string) | Flag(b: bool)

  datatype Value =
    | Scalar(p: Prim)
    | Bytes(b: seq<byte>)        // bytes or bytearray
    | ByteArray(b: seq<byte>)    // array.array('B'): has tobytes and frombytes
    | List(items: seq<Value>)
    | Sub(t: Tree)               // a nested message

  /** A message: its class and its attributes. */
  datatype Tree = Node(cls: Class, fields: map<string, Value>)

  /** A Python class: the dotted path of its module, split at the dots, and its name. */
  datatype Class = Class(path: seq<string>, name: string)

  /** The package/Name pair found in a type hint. */
  type ElementType = Option<(string, string)>

  /** A declared ROS field. */
  datatype Field = Field(name: string, element: ElementType)

  datatype Error = ImportFailed | NotARosMessage | MissingAttribute | NoRosType | NoDefault

  /** What the interpreter knows: importable classes, the declared fields of the ROS classes
      (exactly these have get_fields_and_field_types) and what a class call returns. */
  datatype Types = Types(
    imports: map<(seq<string>, string), Class>,
    declared: map<Class, seq<Field>>,
    blanks: map<Class, Tree>)
  {
    predicate IsRos(v: Value) {
      v.Sub? && v.t.cls in declared
    }

    function Blank(c: Class): (t: Tree)
      ensures t.cls == c
    {
      if c in blanks && blanks[c].cls == c then blanks[c] else Node(c, map[])
    }

    function Import(path: seq<string>, name: string): Option<Class> {
      if (path, name) in imports then Some(imports[(path, name)]) else None
    }

    function Names(c: Class): seq<string>
      requires c in declared
    {
      seq(|declared[c]|, i requires 0 <= i < |declared[c]| => declared[c][i].name)
    }
  }

  /** The one renaming between the two worlds. */
  function LcmName(rosName: string): string {
    if rosName == "nanosec" then "nsec" else rosName
  }

  function LengthName(attr: string): string {
    attr + "_length"
  }

  lemma LengthNameInjective(a: string, b: string)
    ensures LengthName(a) == LengthName(b) ==> a == b
    ensures LengthName(a) != a
  {
    assert LengthName(a)[..|a|] == a && LengthName(b)[..|b|] == b;
    assert |LengthName(a)| == |a| + 7;
  }

  ghost predicate MessageFree(v: Value) {
    !v.Sub? && (v.List? ==> forall i | 0 <= i < |v.items| :: MessageFree(v.items[i]))
  }

  predicate HasLength(v: Value) {
    v.List? || v.Bytes?
  }

  function Length(v: Value): nat
    requires HasLength(v)
  {
    if v.List? then |v.items| else |v.b|
  }
}
