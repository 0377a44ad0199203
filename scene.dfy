/**
  The scene data the keyframe exports read, the two channel tables that map an
  animated property to its place in a 9-slot row, and the errors an export can
  end with.
 */
module Scene {
  import opened Wrappers
  import opened Text

  /** One keyframe point of an F-curve: co[0] is its time, co[1] its value. */
  datatype Keyframe = Keyframe(time: real, value: real)

  /** An F-curve: the animated property path, the component it animates, its keyframe points. */
  datatype FCurve = FCurve(dataPath: string, arrayIndex: int, points: seq<Keyframe>)

  /**
    A scene object as the keyframe exports see it: its name, the F-curves of its
    action, and the F-curves of its active material's action. Either list is None
    when a link of the attribute chain leading to it is missing (no animation
    data, no action, no active material).
   */
  datatype SceneObject = SceneObject(
    name: string,
    action: Option<seq<FCurve>>,
    materialAction: Option<seq<FCurve>>)

  /** An animated property recognised by an export, and the row slot of its component 0. */
  datatype Channel = Channel(name: string, offset: nat)

  /** The object-transform export and the material export. */
  datatype ExportKind = ObjectKeyframes | MaterialKeyframes

  /** The ways an export ends without writing its file. */
  datatype Error =
    | NoAnimationData(objectName: string)  // an attribute of None was read
    | UnknownChannel(dataPath: string)     // the exact-path table lookup failed
    | SlotOutOfRange(slot: int)            // the row assignment index was outside the row
    | NotSaved                             // the blend file has never been saved
    | NoActiveObject                       // vertex export with no active object
    | UnsupportedType(typeName: string)    // vertex export of an object that is no mesh or curve
    | NoSpline                             // vertex export of a curve without splines

  /** The messages of the two exceptions the add-on raises itself. */
  function Message(e: Error): string
    requires e.NotSaved? || e.UnsupportedType?
  {
    match e
    case NotSaved => "Please save blender file first."
    case UnsupportedType(t) => "Unsupported type: " + t + "."
  }

  const ObjectChannels: seq<Channel> :=
    [Channel("location", 0), Channel("rotation_euler", 3), Channel("scale", 6)]

  const MaterialChannels: seq<Channel> :=
    [Channel("diffuse_color", 0), Channel("specular_color", 3),
     Channel("emit", 6), Channel("ambient", 7), Channel("translucency", 8)]

  function Channels(kind: ExportKind): seq<Channel>
  {
    match kind
    case ObjectKeyframes => ObjectChannels
    case MaterialKeyframes => MaterialChannels
  }

  /** Where an export takes an object's F-curves from. */
  function Curves(kind: ExportKind, obj: SceneObject): Option<seq<FCurve>>
  {
    match kind
    case ObjectKeyframes => obj.action
    case MaterialKeyframes => obj.materialAction
  }

  /** `path.endswith(names)` with the tuple of channel names. */
  predicate EndsWithChannel(path: string, channels: seq<Channel>)
  {
    exists i :: 0 <= i < |channels| && EndsWith(path, channels[i].name)
  }

  /** The exact-key lookup `keyframe_index[path]`: the offset of the first channel named path. */
  function Offset(path: string, channels: seq<Channel>): (r: Option<nat>)
    ensures r.None? <==> forall i :: 0 <= i < |channels| ==> channels[i].name != path
    ensures r.Some? ==> exists i :: 0 <= i < |channels| && channels[i] == Channel(path, r.value)
  {
    if channels == [] then None
    else if channels[0].name == path then Some(channels[0].offset)
    else
      var r := Offset(path, channels[1..]);
      assert forall i :: 1 <= i < |channels| ==> channels[i] == channels[1..][i - 1];
      r
  }

  /** A path that the lookup knows is also accepted by the suffix test. */
  lemma OffsetImpliesAccepted(path: string, channels: seq<Channel>)
    requires Offset(path, channels).Some?
    ensures EndsWithChannel(path, channels)
  {
    var i :| 0 <= i < |channels| && channels[i].name == path;
    assert path[|path| - |path|..] == path;
  }

  /** The two channel tables, slot by slot. */
  lemma ChannelTables()
    ensures Offset("location", ObjectChannels) == Some(0)
    ensures Offset("rotation_euler", ObjectChannels) == Some(3)
    ensures Offset("scale", ObjectChannels) == Some(6)
    ensures Offset("diffuse_color", MaterialChannels) == Some(0)
    ensures Offset("specular_color", MaterialChannels) == Some(3)
    ensures Offset("emit", MaterialChannels) == Some(6)
    ensures Offset("ambient", MaterialChannels) == Some(7)
    ensures Offset("translucency", MaterialChannels) == Some(8)
  {
  }

  /**
    A path that merely ends with a channel name passes the suffix test but has no
    entry in the table: "delta_location" is one.
   */
  lemma SuffixOnlyPath()
    ensures EndsWithChannel("delta_location", ObjectChannels)
    ensures Offset("delta_location", ObjectChannels).None?
  {
    var p := "delta_location";
    assert p[|p| - |"location"|..] == "location";
    assert EndsWith(p, ObjectChannels[0].name);
  }

  /** Python's int(t) on a float: truncation toward zero. */
  function Trunc(t: real): (i: int)
    ensures 0.0 <= t ==> 0 <= i && i as real <= t < i as real + 1.0
    ensures t < 0.0 ==> i <= 0 && i as real - 1.0 < t <= i as real
  {
    if t >= 0.0 then t.Floor else -((-t).Floor)
  }

  /** `start_frame <= t <= end_frame`: both ends of the interval are included. */
  predicate InRange(t: real, startFrame: int, endFrame: int)
  {
    startFrame as real <= t && t <= endFrame as real
  }
}
