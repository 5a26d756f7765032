/** The two public conversions of rospubsub_conversion.py, on whole messages. */
module DimosConversion {
  import opened Messages
  import opened Conversion
  import opened RoundTrip
  import opened LcmRoundTrip
  import opened Arrival
  import opened ArrivalBack

  datatype Result = Returned(tree: Tree) | Raised(error: Error)

  /** Package and name of the types that go through an LCM encoding. */
  const COMPLEX_TYPES: set<(string, string)> :=
    {("sensor_msgs", "PointCloud2"), ("sensor_msgs", "Image"), ("sensor_msgs", "CameraInfo"),
     ("geometry_msgs", "PoseStamped")}

  /** The encoders and decoders of the generated message classes. */
  datatype Wire = Wire(
    dimosEncode: Tree -> seq<byte>,
    dimosDecode: (Class, seq<byte>) -> Tree,
    lcmEncode: Tree -> seq<byte>,
    lcmDecode: (Class, seq<byte>) -> Tree)

  function Finished(c: Copy): Result {
    if c.error.None? then Returned(c.tree) else Raised(c.error.value)
  }

  function LcmType(types: Types, name: (string, string)): Option<Class> {
    types.Import(["dimos_lcm", name.0, name.1], name.1)
  }

  function DimosToRos(types: Types, wire: Wire, name: (string, string), msg: Tree, rosType: Class): Result {
    if name in COMPLEX_TYPES then
      match LcmType(types, name)
      case None => Raised(ImportFailed)
      case Some(c) => Finished(LcmToRos(types, wire.lcmDecode(c, wire.dimosEncode(msg)), types.Blank(rosType)))
    else
      Finished(LcmToRos(types, msg, types.Blank(rosType)))
  }

  function RosToDimos(types: Types, wire: Wire, name: (string, string), msg: Tree, dimosType: Class): Result {
    if name in COMPLEX_TYPES then
      match LcmType(types, name)
      case None => Raised(ImportFailed)
      case Some(c) =>
        match Finished(RosToLcm(types, msg, types.Blank(c)))
        case Raised(e) => Raised(e)
        case Returned(lcm) => Returned(wire.dimosDecode(dimosType, wire.lcmEncode(lcm)))
    else
      Finished(RosToLcm(types, msg, types.Blank(dimosType)))
  }

  /** The two sides agree on the octets of this message. */
  predicate SameOctets(wire: Wire, msg: Tree, lcm: Class) {
    var octets := wire.dimosEncode(msg);
    wire.dimosDecode(msg.cls, octets) == msg && wire.lcmEncode(wire.lcmDecode(lcm, octets)) == octets
  }

  /** What is copied for a message: itself, or what its encoding decodes to on the LCM side. */
  ghost predicate Convertible(types: Types, wire: Wire, name: (string, string), msg: Tree, rosType: Class) {
    if name in COMPLEX_TYPES then
      && LcmType(types, name).Some?
      && var c := LcmType(types, name).value;
      SameOctets(wire, msg, c)
            && FitsBack(types, wire.lcmDecode(c, wire.dimosEncode(msg)), types.Blank(rosType), types.Blank(c))
    else FitsBack(types, msg, types.Blank(rosType), types.Blank(msg.cls))
  }

  /** A message published through ROS is received as it was sent. */
  lemma DimosComesBack(types: Types, wire: Wire, name: (string, string), msg: Tree, rosType: Class)
    requires Convertible(types, wire, name, msg, rosType)
    ensures var ros := DimosToRos(types, wire, name, msg, rosType);
            ros.Returned? && RosToDimos(types, wire, name, ros.tree, msg.cls) == Returned(msg)
  {
    if name in COMPLEX_TYPES {
      var c := LcmType(types, name).value;
      LcmComesBack(types, wire.lcmDecode(c, wire.dimosEncode(msg)), types.Blank(rosType), types.Blank(c));
    } else {
      LcmComesBack(types, msg, types.Blank(rosType), types.Blank(msg.cls));
    }
  }

  /** A ROS message of a simple type, received and published again, is restored on every path the dimos
      type has. */
  lemma RosRestored(types: Types, wire: Wire, name: (string, string), msg: Tree, dimosType: Class)
    requires name !in COMPLEX_TYPES && Fits(types, msg, types.Blank(dimosType), types.Blank(msg.cls))
    ensures var dimos := RosToDimos(types, wire, name, msg, dimosType);
            && dimos.Returned?
            && var back := DimosToRos(types, wire, name, dimos.tree, msg.cls);
            && back.Returned? && Restored(types, msg, types.Blank(dimosType), types.Blank(msg.cls), back.tree)
  {
    RosRoundTrip(types, msg, types.Blank(dimosType), types.Blank(msg.cls));
  }

  // ---------------------------------------------------------------- which way a message takes

  /** Point clouds, images, camera infos and stamped poses. */
  predicate GoesEncoded(name: (string, string)) {
    || name == ("sensor_msgs", "PointCloud2") || name == ("sensor_msgs", "Image")
    || name == ("sensor_msgs", "CameraInfo") || name == ("geometry_msgs", "PoseStamped")
  }

  /** Without their LCM class these types cannot be converted, in either direction. */
  lemma NoLcmClass(types: Types, wire: Wire, name: (string, string), msg: Tree, c: Class)
    requires GoesEncoded(name) && (["dimos_lcm", name.0, name.1], name.1) !in types.imports
    ensures DimosToRos(types, wire, name, msg, c) == Raised(ImportFailed)
    ensures RosToDimos(types, wire, name, msg, c) == Raised(ImportFailed)
  {
  }

  /** What a dimos message is converted from: for the four types what its octets decode to on the LCM side, else the
      message. The conversion raises what copying that raises, and else every field of the ROS message is filled. */
  lemma DimosToRosFills(types: Types, wire: Wire, name: (string, string), msg: Tree, rosType: Class, source: Tree)
    requires DistinctNames(types)
    requires if GoesEncoded(name) then
               && (["dimos_lcm", name.0, name.1], name.1) in types.imports
               && (source == wire.lcmDecode(types.imports[(["dimos_lcm", name.0, name.1], name.1)],
                                            wire.dimosEncode(msg)))
             else source == msg
    ensures match BackErrorOf(types, source, types.Blank(rosType))
            case Some(e) => DimosToRos(types, wire, name, msg, rosType) == Raised(e)
            case None =>
              var ros := DimosToRos(types, wire, name, msg, rosType);
              && ros.Returned? && rosType in types.declared
              && FilledUpTo(types, source, |types.declared[rosType]|, types.Blank(rosType), ros.tree)
  {
    CopyFills(types, source, types.Blank(rosType));
  }

  /** A ROS message is copied to a message of the dimos class, or, for the four types, of its LCM class, of which the
      octets are decoded. The conversion raises what the copy raises, and else every field has arrived there. */
  lemma RosToDimosArrives(types: Types, wire: Wire, name: (string, string), msg: Tree, dimosType: Class, target: Class)
    returns (lcm: Tree)
    requires if GoesEncoded(name) then
               && (["dimos_lcm", name.0, name.1], name.1) in types.imports
               && target == types.imports[(["dimos_lcm", name.0, name.1], name.1)]
             else target == dimosType
    requires Separate(types, msg, types.Blank(target))
    ensures match ErrorOf(types, msg, types.Blank(target))
            case Some(e) => RosToDimos(types, wire, name, msg, dimosType) == Raised(e)
            case None =>
              && msg.cls in types.declared
              && ArrivedUpTo(types, msg, |types.declared[msg.cls]|, types.Blank(target), lcm)
              && (RosToDimos(types, wire, name, msg, dimosType)
                  == Returned(if GoesEncoded(name) then wire.dimosDecode(dimosType, wire.lcmEncode(lcm)) else lcm))
  {
    CopyArrives(types, msg, types.Blank(target));
    lcm := RosToLcm(types, msg, types.Blank(target)).tree;
  }
}
