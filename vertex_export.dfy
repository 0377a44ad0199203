/**
  Export of the active object's vertex positions: a mesh gives its vertices in
  world space, a curve the first three coordinates of the points of its first
  spline, and every position becomes one line "x,y,z".
 */
module VertexExport {
  import opened Wrappers
  import opened Text
  import opened Scene
  import opened CsvWriter

  datatype Vec3 = Vec3(x: real, y: real, z: real)

  /** A spline point: homogeneous coordinates, of which `co[:3]` keeps the first three. */
  datatype Point4 = Point4(x: real, y: real, z: real, w: real)

  /**
    The active object as the export sees it: its type name, and the data a mesh
    or a curve of that type carries (mesh vertices in local space, curve splines).
   */
  datatype ActiveObject = ActiveObject(typeName: string, vertices: seq<Vec3>, splines: seq<seq<Point4>>)

  const MeshType: string := "MESH"
  const CurveType: string := "CURVE"

  /**
    The positions to write. `toWorld` is the object's world matrix applied to a
    local position; a missing active object, another type, or a curve without
    splines is an error.
   */
  function Positions(active: Option<ActiveObject>, toWorld: Vec3 -> Vec3): Result<seq<Vec3>, Error>
  {
    match active
    case None => Failure(NoActiveObject)
    case Some(obj) =>
      if obj.typeName == MeshType then
        Success(seq(|obj.vertices|, i requires 0 <= i < |obj.vertices| => toWorld(obj.vertices[i])))
      else if obj.typeName == CurveType then
        if |obj.splines| == 0 then Failure(NoSpline)
        else
          var points := obj.splines[0];
          Success(seq(|points|, i requires 0 <= i < |points| => Vec3(points[i].x, points[i].y, points[i].z)))
      else Failure(UnsupportedType(obj.typeName))
  }

  function VertexLine(v: Vec3, fmt: real -> string): string
  {
    fmt(v.x) + "," + fmt(v.y) + "," + fmt(v.z) + "\n"
  }

  function VertexLines(vs: seq<Vec3>, fmt: real -> string): seq<string>
  {
    seq(|vs|, i requires 0 <= i < |vs| => VertexLine(vs[i], fmt))
  }

  /** The lines written to the file, or the exception raised before the file is opened. */
  function Export(active: Option<ActiveObject>, toWorld: Vec3 -> Vec3, fmt: real -> string): Result<seq<string>, Error>
  {
    match Positions(active, toWorld)
    case Failure(e) => Failure(e)
    case Success(vs) => Success(VertexLines(vs, fmt))
  }

  /** The write loop. */
  method WriteVertexLines(vs: seq<Vec3>, fmt: real -> string) returns (lines: seq<string>)
    ensures lines == VertexLines(vs, fmt)
  {
    lines := [];
    for i := 0 to |vs|
      invariant lines == VertexLines(vs[..i], fmt)
    {
      var v := vs[i];
      lines := lines + [fmt(v.x) + "," + fmt(v.y) + "," + fmt(v.z) + "\n"];
    }
    assert vs[..|vs|] == vs;
  }

  /** `SaveVerticesPositionsOfMesh.execute`: dispatch on the type, then write one line per position. */
  method SaveVerticesPositions(active: Option<ActiveObject>, toWorld: Vec3 -> Vec3, fmt: real -> string)
    returns (r: Result<seq<string>, Error>)
    ensures r == Export(active, toWorld, fmt)
  {
    var positions := Positions(active, toWorld);
    if positions.Failure? {
      return Failure(positions.error);
    }
    var lines := WriteVertexLines(positions.value, fmt);
    r := Success(lines);
  }

  /** The export fails exactly in the three cases the source does not handle, with the matching error. */
  lemma ExportFailsIff(active: Option<ActiveObject>, toWorld: Vec3 -> Vec3, fmt: real -> string)
    ensures Export(active, toWorld, fmt) == Failure(NoActiveObject) <==> active.None?
    ensures Export(active, toWorld, fmt) == Failure(NoSpline) <==>
      active.Some? && active.value.typeName == CurveType && active.value.splines == []
    ensures (exists t :: Export(active, toWorld, fmt) == Failure(UnsupportedType(t))) <==>
      active.Some? && active.value.typeName != MeshType && active.value.typeName != CurveType
    ensures Export(active, toWorld, fmt).Failure? <==>
      || active.None?
      || (active.value.typeName != MeshType && active.value.typeName != CurveType)
      || (active.value.typeName == CurveType && active.value.splines == [])
    ensures active.Some? && active.value.typeName != MeshType && active.value.typeName != CurveType ==>
      Message(Export(active, toWorld, fmt).error) == "Unsupported type: " + active.value.typeName + "."
  {
  }

  /** One line per mesh vertex, carrying that vertex in world space. */
  lemma MeshLines(obj: ActiveObject, toWorld: Vec3 -> Vec3, fmt: real -> string)
    requires obj.typeName == MeshType
    ensures Export(Some(obj), toWorld, fmt).Success?
    ensures |Export(Some(obj), toWorld, fmt).value| == |obj.vertices|
    ensures forall i :: 0 <= i < |obj.vertices| ==>
      Export(Some(obj), toWorld, fmt).value[i] == VertexLine(toWorld(obj.vertices[i]), fmt)
  {
  }

  /** One line per point of the first spline, carrying its first three coordinates; other splines are ignored. */
  lemma CurveLines(obj: ActiveObject, toWorld: Vec3 -> Vec3, fmt: real -> string)
    requires obj.typeName == CurveType && obj.splines != []
    ensures Export(Some(obj), toWorld, fmt).Success?
    ensures |Export(Some(obj), toWorld, fmt).value| == |obj.splines[0]|
    ensures forall i :: 0 <= i < |obj.splines[0]| ==>
      var p := obj.splines[0][i];
      Export(Some(obj), toWorld, fmt).value[i] == VertexLine(Vec3(p.x, p.y, p.z), fmt)
  {
  }

  /** Reads a written line back: strip the newline, split on commas, expect three fields. */
  function ParseVertexLine(line: string, parse: string -> real): Option<Vec3>
  {
    if |line| == 0 || line[|line| - 1] != '\n' then None
    else
      var fields := Split(line[..|line| - 1]);
      if |fields| != 3 then None
      else Some(Vec3(parse(fields[0]), parse(fields[1]), parse(fields[2])))
  }

  /**
    A line has exactly three fields and gives back its position, when the
    number format writes no comma and `parse` inverts it on the three coordinates.
   */
  lemma VertexLineRoundTrip(v: Vec3, fmt: real -> string, parse: string -> real)
    requires CommaFreeFormat(fmt)
    requires parse(fmt(v.x)) == v.x && parse(fmt(v.y)) == v.y && parse(fmt(v.z)) == v.z
    ensures var line := VertexLine(v, fmt);
      Split(line[..|line| - 1]) == [fmt(v.x), fmt(v.y), fmt(v.z)]
    ensures ParseVertexLine(VertexLine(v, fmt), parse) == Some(v)
  {
    var line := VertexLine(v, fmt);
    assert ',' !in fmt(v.x) && ',' !in fmt(v.y) && ',' !in fmt(v.z);
    assert line[..|line| - 1] == fmt(v.x) + "," + (fmt(v.y) + "," + fmt(v.z));
    SplitField(fmt(v.x), fmt(v.y) + "," + fmt(v.z));
    SplitField(fmt(v.y), fmt(v.z));
    SplitField(fmt(v.z), "");
  }

  /** The newline ends each line and occurs nowhere else, when the number format writes none. */
  lemma VertexLineOneNewline(v: Vec3, fmt: real -> string)
    requires NewlineFreeFormat(fmt)
    ensures var line := VertexLine(v, fmt);
      line[|line| - 1] == '\n' && '\n' !in line[..|line| - 1]
  {
    var line := VertexLine(v, fmt);
    assert '\n' !in fmt(v.x) && '\n' !in fmt(v.y) && '\n' !in fmt(v.z);
    assert line[..|line| - 1] == fmt(v.x) + "," + fmt(v.y) + "," + fmt(v.z);
  }

  /** Every line of a successful export reads back as the position it was written from. */
  lemma ExportRoundTrip(active: Option<ActiveObject>, toWorld: Vec3 -> Vec3, fmt: real -> string,
                        parse: string -> real, i: nat)
    requires Positions(active, toWorld).Success? && i < |Positions(active, toWorld).value|
    requires CommaFreeFormat(fmt)
    requires var v := Positions(active, toWorld).value[i];
      parse(fmt(v.x)) == v.x && parse(fmt(v.y)) == v.y && parse(fmt(v.z)) == v.z
    ensures Export(active, toWorld, fmt).Success?
    ensures |Export(active, toWorld, fmt).value| == |Positions(active, toWorld).value|
    ensures ParseVertexLine(Export(active, toWorld, fmt).value[i], parse) == Some(Positions(active, toWorld).value[i])
  {
    VertexLineRoundTrip(Positions(active, toWorld).value[i], fmt, parse);
  }
}
