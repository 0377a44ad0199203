/**
  The keyframe exports (SaveKeyframes and SaveMaterialKeyframes): select the
  objects whose names match the id key, assemble each object's rows from its
  F-curves, and, when the blend file has been saved, produce the CSV lines.
  The two exports run the same engine and differ only in the channel table and
  in where the F-curves come from (ExportKind).
 */
module KeyframeExport {
  import opened Wrappers
  import opened Text
  import opened OrderedDict
  import opened Scene
  import opened Selection
  import opened Extraction
  import opened Rows
  import opened CsvWriter

  /** One object's pass of the loop: its frames dict, or the error the pass ends with. */
  function ObjectFrames(kind: ExportKind, obj: SceneObject, startFrame: int, endFrame: int): Result<Dict<string, Row>, Error>
  {
    match Curves(kind, obj)
    case None => Failure(NoAnimationData(obj.name))
    case Some(curves) =>
      match Extract(curves, Channels(kind), startFrame, endFrame)
      case Failure(e) => Failure(e)
      case Success(kfs) => Register(kfs)
  }

  /** The object loop: `keyframes[obj.name]` receives each selected object's frames dict. */
  function Assemble(objs: seq<SceneObject>, kind: ExportKind, startFrame: int, endFrame: int): Result<Table, Error>
  {
    if objs == [] then Success([])
    else
      var obj := objs[|objs| - 1];
      match Assemble(objs[..|objs| - 1], kind, startFrame, endFrame)
      case Failure(e) => Failure(e)
      case Success(table) =>
        match ObjectFrames(kind, obj, startFrame, endFrame)
        case Failure(e) => Failure(e)
        case Success(frames) => Success(Put(table, obj.name, frames))
  }

  /** The whole execute: the lines written, or the exception raised before anything is written. */
  function Export(kind: ExportKind, objects: seq<SceneObject>, matches: string -> bool,
                  startFrame: int, endFrame: int, isSaved: bool, fmt: real -> string): Result<seq<string>, Error>
  {
    match Assemble(Selected(objects, matches), kind, startFrame, endFrame)
    case Failure(e) => Failure(e)
    case Success(table) => if isSaved then Success(Lines(table, fmt)) else Failure(NotSaved)
  }

  method ExportKeyframes(kind: ExportKind, objects: seq<SceneObject>, matches: string -> bool,
                         startFrame: int, endFrame: int, isSaved: bool, fmt: real -> string)
    returns (r: Result<seq<string>, Error>)
    ensures r == Export(kind, objects, matches, startFrame, endFrame, isSaved, fmt)
  {
    var objs := SelectObjects(objects, matches);
    var keyframes := AssembleObjects(objs, kind, startFrame, endFrame);
    if keyframes.Failure? {
      return Failure(keyframes.error);
    }
    if !isSaved {
      return Failure(NotSaved);
    }
    var lines := WriteLines(keyframes.value, fmt);
    return Success(lines);
  }

  /** The object loop, stopping at the first exception. */
  method AssembleObjects(objs: seq<SceneObject>, kind: ExportKind, startFrame: int, endFrame: int)
    returns (r: Result<Table, Error>)
    ensures r == Assemble(objs, kind, startFrame, endFrame)
  {
    var keyframes: Table := [];
    for i := 0 to |objs|
      invariant Assemble(objs[..i], kind, startFrame, endFrame) == Success(keyframes)
    {
      AssembleNext(objs, kind, startFrame, endFrame, i, keyframes);
      var frames := ObjectPass(kind, objs[i], startFrame, endFrame);
      if frames.Failure? {
        AssembleFailureStays(objs, kind, startFrame, endFrame, i + 1);
        return Failure(frames.error);
      }
      keyframes := Put(keyframes, objs[i].name, frames.value);
    }
    assert objs[..|objs|] == objs;
    return Success(keyframes);
  }

  /** The body of the object loop: read the curves, extract the triples, register them into rows. */
  method ObjectPass(kind: ExportKind, obj: SceneObject, startFrame: int, endFrame: int)
    returns (r: Result<Dict<string, Row>, Error>)
    ensures r == ObjectFrames(kind, obj, startFrame, endFrame)
  {
    var curves := Curves(kind, obj);
    if curves.None? {
      return Failure(NoAnimationData(obj.name));
    }
    var kfs := ExtractKeyframes(curves.value, Channels(kind), startFrame, endFrame);
    if kfs.Failure? {
      return Failure(kfs.error);
    }
    r := RegisterKeyframes(kfs.value);
  }

  /** SaveKeyframes.execute: location, rotation_euler and scale of each object's action. */
  method SaveKeyframes(objects: seq<SceneObject>, matches: string -> bool,
                       startFrame: int, endFrame: int, isSaved: bool, fmt: real -> string)
    returns (r: Result<seq<string>, Error>)
    ensures r == Export(ObjectKeyframes, objects, matches, startFrame, endFrame, isSaved, fmt)
  {
    r := ExportKeyframes(ObjectKeyframes, objects, matches, startFrame, endFrame, isSaved, fmt);
  }

  /** SaveMaterialKeyframes.execute: the material channels of each object's active material. */
  method SaveMaterialKeyframes(objects: seq<SceneObject>, matches: string -> bool,
                               startFrame: int, endFrame: int, isSaved: bool, fmt: real -> string)
    returns (r: Result<seq<string>, Error>)
    ensures r == Export(MaterialKeyframes, objects, matches, startFrame, endFrame, isSaved, fmt)
  {
    r := ExportKeyframes(MaterialKeyframes, objects, matches, startFrame, endFrame, isSaved, fmt);
  }

  /** One more turn of the object loop. */
  lemma AssembleNext(objs: seq<SceneObject>, kind: ExportKind, startFrame: int, endFrame: int, i: nat, table: Table)
    requires i < |objs| && Assemble(objs[..i], kind, startFrame, endFrame) == Success(table)
    ensures Assemble(objs[..i + 1], kind, startFrame, endFrame) ==
      match ObjectFrames(kind, objs[i], startFrame, endFrame)
      case Failure(e) => Failure(e)
      case Success(frames) => Success(Put(table, objs[i].name, frames))
  {
    assert objs[..i + 1][..i] == objs[..i];
  }

  lemma {:induction false} AssembleFailureStays(objs: seq<SceneObject>, kind: ExportKind, startFrame: int, endFrame: int, n: nat)
    requires n <= |objs| && Assemble(objs[..n], kind, startFrame, endFrame).Failure?
    ensures Assemble(objs, kind, startFrame, endFrame) == Assemble(objs[..n], kind, startFrame, endFrame)
    decreases |objs| - n
  {
    if n < |objs| {
      assert objs[..n + 1][..n] == objs[..n];
      AssembleFailureStays(objs, kind, startFrame, endFrame, n + 1);
    } else {
      assert objs[..n] == objs;
    }
  }

  /**
    An unsaved file writes nothing; the exception is "Please save blender file
    first." exactly when every selected object's pass went through.
   */
  lemma NotSavedWritesNothing(kind: ExportKind, objects: seq<SceneObject>, matches: string -> bool,
                              startFrame: int, endFrame: int, fmt: real -> string)
    ensures Export(kind, objects, matches, startFrame, endFrame, false, fmt).Failure?
    ensures Export(kind, objects, matches, startFrame, endFrame, false, fmt).error == NotSaved <==>
      Assemble(Selected(objects, matches), kind, startFrame, endFrame).Success?
    ensures Assemble(Selected(objects, matches), kind, startFrame, endFrame).Success? ==>
      Message(Export(kind, objects, matches, startFrame, endFrame, false, fmt).error) == "Please save blender file first."
  {
    var objs := Selected(objects, matches);
    if Assemble(objs, kind, startFrame, endFrame).Failure? {
      AssembleFirstError(objs, kind, startFrame, endFrame);
      var j :| 0 <= j < |objs| && ObjectFrames(kind, objs[j], startFrame, endFrame) ==
        Failure(Assemble(objs, kind, startFrame, endFrame).error);
      ObjectFramesErrors(kind, objs[j], startFrame, endFrame);
    }
  }

  /** A pass fails with an AttributeError, a KeyError or an IndexError, never with anything else. */
  lemma ObjectFramesErrors(kind: ExportKind, obj: SceneObject, startFrame: int, endFrame: int)
    requires ObjectFrames(kind, obj, startFrame, endFrame).Failure?
    ensures var e := ObjectFrames(kind, obj, startFrame, endFrame).error;
      e == NoAnimationData(obj.name) || e.UnknownChannel? || e.SlotOutOfRange?
  {
    if Curves(kind, obj).Some? {
      var r := Extract(Curves(kind, obj).value, Channels(kind), startFrame, endFrame);
      if r.Failure? {
        ExtractFirstError(Curves(kind, obj).value, Channels(kind), startFrame, endFrame);
      } else {
        RegisterFirstError(r.value);
      }
    }
  }

  /** Assembly stops with the exception of the first object whose pass fails. */
  lemma {:induction false} AssembleFirstError(objs: seq<SceneObject>, kind: ExportKind, startFrame: int, endFrame: int)
    requires Assemble(objs, kind, startFrame, endFrame).Failure?
    ensures exists j :: (0 <= j < |objs| &&
      (forall i :: 0 <= i < j ==> ObjectFrames(kind, objs[i], startFrame, endFrame).Success?) &&
      ObjectFrames(kind, objs[j], startFrame, endFrame) == Failure(Assemble(objs, kind, startFrame, endFrame).error))
  {
    var n := |objs| - 1;
    var prefix := objs[..n];
    assert forall i :: 0 <= i < n ==> prefix[i] == objs[i];
    if Assemble(prefix, kind, startFrame, endFrame).Failure? {
      AssembleFirstError(prefix, kind, startFrame, endFrame);
      var j :| 0 <= j < n &&
        (forall i :: 0 <= i < j ==> ObjectFrames(kind, prefix[i], startFrame, endFrame).Success?) &&
        ObjectFrames(kind, prefix[j], startFrame, endFrame) == Failure(Assemble(prefix, kind, startFrame, endFrame).error);
    } else {
      AssembleSucceedsIff(prefix, kind, startFrame, endFrame);
      forall i | 0 <= i < n ensures ObjectFrames(kind, objs[i], startFrame, endFrame).Success? {
        assert prefix[i] in prefix;
        ObjectFramesSpec(kind, objs[i], startFrame, endFrame);
      }
    }
  }

  /** An object's pass succeeds: its curves exist, none is rejected, every slot is inside the row. */
  ghost predicate Exportable(kind: ExportKind, obj: SceneObject, startFrame: int, endFrame: int)
  {
    match Curves(kind, obj)
    case None => false
    case Some(curves) =>
      && (forall fc :: fc in curves ==> !Rejects(fc, Channels(kind), startFrame, endFrame))
      && var kfs := Extract(curves, Channels(kind), startFrame, endFrame);
         kfs.Success? ==> SlotsInRow(kfs.value)
  }

  lemma ObjectFramesSpec(kind: ExportKind, obj: SceneObject, startFrame: int, endFrame: int)
    ensures ObjectFrames(kind, obj, startFrame, endFrame).Success? <==> Exportable(kind, obj, startFrame, endFrame)
  {
    if Curves(kind, obj).Some? {
      var curves := Curves(kind, obj).value;
      ExtractFailsIff(curves, Channels(kind), startFrame, endFrame);
      var r := Extract(curves, Channels(kind), startFrame, endFrame);
      if r.Success? {
        RegisterSpec(r.value);
      }
    }
  }

  /** A location curve with one point in range extracts one triple, its slot being the array index. */
  lemma LocationCurveKeys(ix: int, p: Keyframe, startFrame: int, endFrame: int)
    requires InRange(p.time, startFrame, endFrame)
    ensures Extract([FCurve("location", ix, [p])], ObjectChannels, startFrame, endFrame) == Success([Key(ix, p.time, p.value)])
  {
    var fc := FCurve("location", ix, [p]);
    assert EndsWith("location", ObjectChannels[0].name);
    assert [fc][..0] == [];
    assert InRangePoints([p], startFrame, endFrame) == [p] by {
      assert [p][..0] == [];
    }
    var r := CurveKeys(fc, ObjectChannels, startFrame, endFrame);
    assert Offset(fc.dataPath, ObjectChannels) == Some(0);
    assert r.Success? && |r.value| == 1 && r.value[0] == Key(ix, p.time, p.value);
    assert r.value == [Key(ix, p.time, p.value)];
    assert EndsWithChannel(fc.dataPath, ObjectChannels);
    assert Extract([fc][..0], ObjectChannels, startFrame, endFrame) == Success([]);
    assert [] + r.value == r.value;
  }

  /**
    A negative array_index counts from the end of the row, as Python's list
    assignment does: a location curve with index -1 writes slot 8, scale_z.
    Below -9 the assignment raises IndexError.
   */
  lemma NegativeIndexFromEnd(name: string, p: Keyframe, startFrame: int, endFrame: int)
    requires InRange(p.time, startFrame, endFrame)
    ensures ObjectFrames(ObjectKeyframes, SceneObject(name, Some([FCurve("location", -1, [p])]), None), startFrame, endFrame)
      == Success([(IntToString(Trunc(p.time)), Defaults[8 := Sampled(p.value)])])
    ensures ObjectFrames(ObjectKeyframes, SceneObject(name, Some([FCurve("location", -10, [p])]), None), startFrame, endFrame)
      == Failure(SlotOutOfRange(-10))
  {
    LocationCurveKeys(-1, p, startFrame, endFrame);
    LocationCurveKeys(-10, p, startFrame, endFrame);
    assert [Key(-1, p.time, p.value)][..0] == [];
    assert [Key(-10, p.time, p.value)][..0] == [];
    var empty: Dict<string, Row> := [];
    var fr := IntToString(Trunc(p.time));
    assert Keys(empty) == [] && Get(empty, fr).None?;
    assert ListIndex(-1, |Defaults|) == Some(8);
    assert Put(empty, fr, Defaults[8 := Sampled(p.value)]) == [(fr, Defaults[8 := Sampled(p.value)])];
    var k := Key(-1, p.time, p.value);
    assert FrameKey(k) == fr;
    assert Register([k]) == Assign(empty, k);
    assert Assign(empty, k) == Success([(fr, Defaults[8 := Sampled(p.value)])]);
  }

  /** Assembly fails exactly when the pass of some object fails. */
  lemma {:induction false} AssembleSucceedsIff(objs: seq<SceneObject>, kind: ExportKind, startFrame: int, endFrame: int)
    ensures Assemble(objs, kind, startFrame, endFrame).Success? <==>
      forall o :: o in objs ==> Exportable(kind, o, startFrame, endFrame)
  {
    if objs != [] {
      var n := |objs| - 1;
      assert objs == objs[..n] + [objs[n]];
      AssembleSucceedsIff(objs[..n], kind, startFrame, endFrame);
      ObjectFramesSpec(kind, objs[n], startFrame, endFrame);
    }
  }

  /** The entry holds the frames dict of an object of the list with that name. */
  ghost predicate FromObject(entry: (string, Dict<string, Row>), objs: seq<SceneObject>,
                             kind: ExportKind, startFrame: int, endFrame: int)
  {
    exists o :: o in objs && o.name == entry.0 && ObjectFrames(kind, o, startFrame, endFrame) == Success(entry.1)
  }

  /** What the assembled dict says about the objects it was assembled from. */
  ghost predicate AssembledFrom(table: Table, objs: seq<SceneObject>, kind: ExportKind, startFrame: int, endFrame: int)
  {
    && Keys(table) == Dedup(Names(objs))
    && DistinctFrames(table)
    && forall i :: 0 <= i < |table| ==> FromObject(table[i], objs, kind, startFrame, endFrame)
  }

  /**
    The assembled dict: its object names are the names of the objects in order
    of first occurrence, each name holds the frames dict of an object of that
    name, and every frames dict has distinct keys.
   */
  lemma {:induction false} AssembleTable(objs: seq<SceneObject>, kind: ExportKind, startFrame: int, endFrame: int)
    requires Assemble(objs, kind, startFrame, endFrame).Success?
    ensures AssembledFrom(Assemble(objs, kind, startFrame, endFrame).value, objs, kind, startFrame, endFrame)
  {
    if objs == [] {
      assert Names(objs) == [];
    } else {
      var n := |objs| - 1;
      AssembleTable(objs[..n], kind, startFrame, endFrame);
      var prior := Assemble(objs[..n], kind, startFrame, endFrame).value;
      var frames := ObjectFrames(kind, objs[n], startFrame, endFrame).value;
      assert Assemble(objs, kind, startFrame, endFrame) == Success(Put(prior, objs[n].name, frames));
      AssembleStep(prior, objs, frames, kind, startFrame, endFrame);
    }
  }

  lemma AssembleStep(prior: Table, objs: seq<SceneObject>, frames: Dict<string, Row>,
                     kind: ExportKind, startFrame: int, endFrame: int)
    requires objs != []
    requires AssembledFrom(prior, objs[..|objs| - 1], kind, startFrame, endFrame)
    requires ObjectFrames(kind, objs[|objs| - 1], startFrame, endFrame) == Success(frames)
    ensures AssembledFrom(Put(prior, objs[|objs| - 1].name, frames), objs, kind, startFrame, endFrame)
  {
    var prefix := objs[..|objs| - 1];
    var obj := objs[|objs| - 1];
    assert objs == prefix + [obj];
    PutNames(prior, objs, frames);
    ObjectFramesDistinct(kind, obj, startFrame, endFrame, frames);
    PutFramesSpec(prior, obj.name, frames);
    PutFromObject(prior, prefix, obj, frames, kind, startFrame, endFrame);
  }

  /** Storing the last object's frames keeps the names in order of first occurrence. */
  lemma PutNames(prior: Table, objs: seq<SceneObject>, frames: Dict<string, Row>)
    requires objs != [] && Keys(prior) == Dedup(Names(objs[..|objs| - 1]))
    ensures Keys(Put(prior, objs[|objs| - 1].name, frames)) == Dedup(Names(objs))
  {
    var n := |objs| - 1;
    assert Names(objs)[..n] == Names(objs[..n]);
    assert Names(objs)[n] == objs[n].name;
  }

  /** The frames dict of one object has distinct frame keys. */
  lemma ObjectFramesDistinct(kind: ExportKind, obj: SceneObject, startFrame: int, endFrame: int, frames: Dict<string, Row>)
    requires ObjectFrames(kind, obj, startFrame, endFrame) == Success(frames)
    ensures Distinct(Keys(frames))
  {
    var kfs := Extract(Curves(kind, obj).value, Channels(kind), startFrame, endFrame).value;
    assert Register(kfs) == Success(frames);
    RegisterSpec(kfs);
  }

  lemma PutFromObject(prior: Table, prefix: seq<SceneObject>, obj: SceneObject, frames: Dict<string, Row>,
                      kind: ExportKind, startFrame: int, endFrame: int)
    requires ObjectFrames(kind, obj, startFrame, endFrame) == Success(frames)
    requires forall i :: 0 <= i < |prior| ==> FromObject(prior[i], prefix, kind, startFrame, endFrame)
    ensures var table := Put(prior, obj.name, frames);
      forall i :: 0 <= i < |table| ==> FromObject(table[i], prefix + [obj], kind, startFrame, endFrame)
  {
    var objs := prefix + [obj];
    var table := Put(prior, obj.name, frames);
    PutEntries(prior, obj.name, frames);
    assert FromObject((obj.name, frames), objs, kind, startFrame, endFrame) by {
      assert obj in objs;
    }
    forall i | 0 <= i < |table| ensures FromObject(table[i], objs, kind, startFrame, endFrame) {
      if table[i] != (obj.name, frames) {
        var j :| 0 <= j < |prior| && prior[j] == table[i];
        assert FromObject(prior[j], prefix, kind, startFrame, endFrame);
        var o :| o in prefix && o.name == prior[j].0 && ObjectFrames(kind, o, startFrame, endFrame) == Success(prior[j].1);
        assert o in objs;
      }
    }
  }

  /** The object names, in order. */
  function Names(objs: seq<SceneObject>): seq<string>
  {
    seq(|objs|, i requires 0 <= i < |objs| => objs[i].name)
  }

  /** Storing a frames dict with distinct keys keeps every frames dict's keys distinct. */
  lemma PutFramesSpec(table: Table, name: string, frames: Dict<string, Row>)
    requires DistinctFrames(table) && Distinct(Keys(frames))
    ensures DistinctFrames(Put(table, name, frames))
  {
    PutEntries(table, name, frames);
  }

  /** Every entry after `d[k] = v` is the new one or an entry that was there before. */
  lemma PutEntries<V>(table: Dict<string, V>, name: string, v: V)
    ensures forall i :: 0 <= i < |Put(table, name, v)| ==>
      Put(table, name, v)[i] == (name, v) || Put(table, name, v)[i] in table
  {
    var t := Put(table, name, v);
    forall i | 0 <= i < |t| ensures t[i] == (name, v) || t[i] in table {
      if i < |table| && t[i] != table[i] {
        assert Keys(t)[i] == Keys(table)[i] == table[i].0;
      }
    }
  }

  /** The export succeeds exactly when the file was saved and every selected object's pass succeeds. */
  lemma ExportSucceedsIff(kind: ExportKind, objects: seq<SceneObject>, matches: string -> bool,
                          startFrame: int, endFrame: int, isSaved: bool, fmt: real -> string)
    ensures Export(kind, objects, matches, startFrame, endFrame, isSaved, fmt).Success? <==>
      isSaved && forall o :: o in Selected(objects, matches) ==> Exportable(kind, o, startFrame, endFrame)
  {
    AssembleSucceedsIff(Selected(objects, matches), kind, startFrame, endFrame);
  }

  /**
    Entry rec describes object o: it carries o's name, a frame key of o's
    extracted triples, and the expected row of that frame.
   */
  ghost predicate Describes(rec: Record, o: SceneObject, kind: ExportKind, startFrame: int, endFrame: int)
  {
    && rec.name == o.name
    && Curves(kind, o).Some?
    && var kfs := Extract(Curves(kind, o).value, Channels(kind), startFrame, endFrame);
       && kfs.Success?
       && rec.frame in FrameKeys(kfs.value)
       && rec.row == ExpectedRow(kfs.value, rec.frame)
  }

  /** Every entry of the assembled dict describes one of the objects it was assembled from. */
  lemma AssembledRecord(objs: seq<SceneObject>, kind: ExportKind, startFrame: int, endFrame: int, a: nat)
    requires Assemble(objs, kind, startFrame, endFrame).Success?
    requires a < |Records(Assemble(objs, kind, startFrame, endFrame).value)|
    ensures exists o :: o in objs && Describes(Records(Assemble(objs, kind, startFrame, endFrame).value)[a], o, kind, startFrame, endFrame)
  {
    var table := Assemble(objs, kind, startFrame, endFrame).value;
    var rec := Records(table)[a];
    AssembleTable(objs, kind, startFrame, endFrame);
    RecordsIff(table, rec);
    var i, j :| 0 <= i < |table| && 0 <= j < |table[i].1| &&
      rec == Record(table[i].0, table[i].1[j].0, table[i].1[j].1);
    assert FromObject(table[i], objs, kind, startFrame, endFrame);
    var o :| o in objs && o.name == table[i].0 && ObjectFrames(kind, o, startFrame, endFrame) == Success(table[i].1);
    var kfs := Extract(Curves(kind, o).value, Channels(kind), startFrame, endFrame).value;
    RegisterSpec(kfs);
    GetAt(table[i].1, j);
    assert Describes(rec, o, kind, startFrame, endFrame);
  }

  /** A frame key is str() of the truncated time of an extracted triple, so it reads back as that int. */
  lemma FrameKeyParses(kfs: seq<Key>, fr: string)
    requires fr in FrameKeys(kfs)
    ensures ',' !in fr && '\n' !in fr
    ensures exists x :: 0 <= x < |kfs| && ParseInt(fr) == Some(Trunc(kfs[x].time))
  {
    var x :| 0 <= x < |kfs| && FrameKeys(kfs)[x] == fr;
    IntToStringRoundTrip(Trunc(kfs[x].time));
  }

  /** Nobody's name in the scene contains a comma. */
  predicate CommaFreeNames(objects: seq<SceneObject>)
  {
    forall i :: 0 <= i < |objects| ==> ',' !in objects[i].name
  }

  /** The fields of an output line: the line without its newline, split at the commas. */
  function LineFieldsOf(line: string): seq<string>
    requires |line| > 0
  {
    Split(line[..|line| - 1])
  }

  /** rec describes one of the objects the pattern selects. */
  ghost predicate OfSelected(rec: Record, objects: seq<SceneObject>, matches: string -> bool,
                             kind: ExportKind, startFrame: int, endFrame: int)
  {
    exists o :: o in Selected(objects, matches) && Describes(rec, o, kind, startFrame, endFrame)
  }

  /**
    Line a of a successful export, split into fields, gives back entry a of the
    assembled dict, and that entry describes a selected object.
   */
  lemma TableLineFields(kind: ExportKind, objects: seq<SceneObject>, matches: string -> bool,
                        startFrame: int, endFrame: int, fmt: real -> string, table: Table, a: nat)
    requires Assemble(Selected(objects, matches), kind, startFrame, endFrame) == Success(table)
    requires a < |Records(table)|
    requires CommaFreeNames(objects) && CommaFreeFormat(fmt)
    ensures OfSelected(Records(table)[a], objects, matches, kind, startFrame, endFrame)
    ensures var line := Lines(table, fmt)[a];
      && |line| > 0 && line[|line| - 1] == '\n'
      && LineFieldsOf(line) == [Records(table)[a].name, Records(table)[a].frame] + FormatRow(Records(table)[a].row, fmt)
      && |LineFieldsOf(line)| == 11
  {
    var objs := Selected(objects, matches);
    var rec := Records(table)[a];
    var line := Lines(table, fmt)[a];
    assert line == Line(rec, fmt);
    assert OfSelected(rec, objects, matches, kind, startFrame, endFrame) && ',' !in rec.name && ',' !in rec.frame && |rec.row| == Width by {
      AssembledRecord(objs, kind, startFrame, endFrame, a);
      var o :| o in objs && Describes(rec, o, kind, startFrame, endFrame);
      SelectedIff(objects, matches, o);
      var kfs := Extract(Curves(kind, o).value, Channels(kind), startFrame, endFrame).value;
      FrameKeyParses(kfs, rec.frame);
      var k :| 0 <= k < |objects| && objects[k] == o;
    }
    LineFields(rec, fmt);
  }

  /** The first two fields of line a are the object name and frame key of entry a. */
  lemma LineKey(kind: ExportKind, objects: seq<SceneObject>, matches: string -> bool,
                startFrame: int, endFrame: int, fmt: real -> string, table: Table, a: nat)
    requires Assemble(Selected(objects, matches), kind, startFrame, endFrame) == Success(table)
    requires a < |Records(table)|
    requires CommaFreeNames(objects) && CommaFreeFormat(fmt)
    ensures |LineFieldsOf(Lines(table, fmt)[a])| == 11
    ensures LineFieldsOf(Lines(table, fmt)[a])[0] == Records(table)[a].name
    ensures LineFieldsOf(Lines(table, fmt)[a])[1] == Records(table)[a].frame
  {
    TableLineFields(kind, objects, matches, startFrame, endFrame, fmt, table, a);
  }

  /**
    Every written line ends with a newline and splits into eleven fields: the
    name of a selected object, a frame key of that object, and the expected row
    of that frame, each value printed by str().
   */
  lemma ExportedLine(kind: ExportKind, objects: seq<SceneObject>, matches: string -> bool,
                     startFrame: int, endFrame: int, isSaved: bool, fmt: real -> string, a: nat)
    requires Export(kind, objects, matches, startFrame, endFrame, isSaved, fmt).Success?
    requires a < |Export(kind, objects, matches, startFrame, endFrame, isSaved, fmt).value|
    requires CommaFreeNames(objects) && CommaFreeFormat(fmt)
    ensures isSaved
    ensures var line := Export(kind, objects, matches, startFrame, endFrame, isSaved, fmt).value[a];
      && |line| > 0 && line[|line| - 1] == '\n'
      && |LineFieldsOf(line)| == 11
      && exists rec :: OfSelected(rec, objects, matches, kind, startFrame, endFrame) &&
           LineFieldsOf(line) == [rec.name, rec.frame] + FormatRow(rec.row, fmt)
  {
    var table := Assemble(Selected(objects, matches), kind, startFrame, endFrame).value;
    assert Export(kind, objects, matches, startFrame, endFrame, isSaved, fmt) == Success(Lines(table, fmt));
    TableLineFields(kind, objects, matches, startFrame, endFrame, fmt, table, a);
  }

  /** Exactly one line per (object, frame): no two lines start with the same name and frame. */
  lemma ExportOneLinePerKey(kind: ExportKind, objects: seq<SceneObject>, matches: string -> bool,
                            startFrame: int, endFrame: int, isSaved: bool, fmt: real -> string, a: nat, b: nat)
    requires Export(kind, objects, matches, startFrame, endFrame, isSaved, fmt).Success?
    requires a < b < |Export(kind, objects, matches, startFrame, endFrame, isSaved, fmt).value|
    requires CommaFreeNames(objects) && CommaFreeFormat(fmt)
    ensures var lines := Export(kind, objects, matches, startFrame, endFrame, isSaved, fmt).value;
      |LineFieldsOf(lines[a])| == 11 && |LineFieldsOf(lines[b])| == 11
    ensures var lines := Export(kind, objects, matches, startFrame, endFrame, isSaved, fmt).value;
      (LineFieldsOf(lines[a])[0], LineFieldsOf(lines[a])[1]) != (LineFieldsOf(lines[b])[0], LineFieldsOf(lines[b])[1])
  {
    var objs := Selected(objects, matches);
    var table := Assemble(objs, kind, startFrame, endFrame).value;
    var lines := Lines(table, fmt);
    assert Export(kind, objects, matches, startFrame, endFrame, isSaved, fmt) == Success(lines);
    AssembleTable(objs, kind, startFrame, endFrame);
    assert Distinct(Keys(table));
    RecordsDistinct(table, a, b);
    LineKey(kind, objects, matches, startFrame, endFrame, fmt, table, a);
    LineKey(kind, objects, matches, startFrame, endFrame, fmt, table, b);
  }

  /** An object whose name no other object shares has its own frames dict in the assembled dict. */
  lemma AssembledEntry(objs: seq<SceneObject>, kind: ExportKind, startFrame: int, endFrame: int, o: SceneObject)
    requires Assemble(objs, kind, startFrame, endFrame).Success?
    requires o in objs && forall o2 :: o2 in objs && o2.name == o.name ==> o2 == o
    ensures ObjectFrames(kind, o, startFrame, endFrame).Success?
    ensures var table := Assemble(objs, kind, startFrame, endFrame).value;
      exists i :: 0 <= i < |table| && table[i] == (o.name, ObjectFrames(kind, o, startFrame, endFrame).value)
  {
    var table := Assemble(objs, kind, startFrame, endFrame).value;
    AssembleTable(objs, kind, startFrame, endFrame);
    var n :| 0 <= n < |objs| && objs[n] == o;
    assert Names(objs)[n] == o.name;
    assert o.name in Keys(table);
    var i :| 0 <= i < |table| && Keys(table)[i] == o.name;
    assert FromObject(table[i], objs, kind, startFrame, endFrame);
    var o2 :| o2 in objs && o2.name == table[i].0 && ObjectFrames(kind, o2, startFrame, endFrame) == Success(table[i].1);
    assert o2 == o;
  }

  /**
    The converse of AssembledRecord: every frame of an object whose name no
    other object shares is an entry of the assembled dict, holding its expected
    row.
   */
  lemma AssembledCovers(objs: seq<SceneObject>, kind: ExportKind, startFrame: int, endFrame: int,
                        o: SceneObject, fr: string)
    requires Assemble(objs, kind, startFrame, endFrame).Success?
    requires o in objs && forall o2 :: o2 in objs && o2.name == o.name ==> o2 == o
    requires Curves(kind, o).Some? && Extract(Curves(kind, o).value, Channels(kind), startFrame, endFrame).Success?
    requires fr in FrameKeys(Extract(Curves(kind, o).value, Channels(kind), startFrame, endFrame).value)
    ensures var kfs := Extract(Curves(kind, o).value, Channels(kind), startFrame, endFrame).value;
      Record(o.name, fr, ExpectedRow(kfs, fr)) in Records(Assemble(objs, kind, startFrame, endFrame).value)
  {
    var table := Assemble(objs, kind, startFrame, endFrame).value;
    var kfs := Extract(Curves(kind, o).value, Channels(kind), startFrame, endFrame).value;
    AssembledEntry(objs, kind, startFrame, endFrame, o);
    var i :| 0 <= i < |table| && table[i] == (o.name, ObjectFrames(kind, o, startFrame, endFrame).value);
    var frames := table[i].1;
    assert frames == Register(kfs).value;
    RegisteredEntry(kfs, fr);
    var j :| 0 <= j < |frames| && frames[j] == (fr, ExpectedRow(kfs, fr));
    RecordsIff(table, Record(o.name, fr, ExpectedRow(kfs, fr)));
  }

  /**
    Every frame of every selected object is written: when no other selected
    object shares its name, some line is that frame's line with its expected
    row.
   */
  lemma ExportCoversFrames(kind: ExportKind, objects: seq<SceneObject>, matches: string -> bool,
                           startFrame: int, endFrame: int, isSaved: bool, fmt: real -> string,
                           o: SceneObject, fr: string)
    requires Export(kind, objects, matches, startFrame, endFrame, isSaved, fmt).Success?
    requires o in Selected(objects, matches)
    requires forall o2 :: o2 in Selected(objects, matches) && o2.name == o.name ==> o2 == o
    requires Curves(kind, o).Some? && Extract(Curves(kind, o).value, Channels(kind), startFrame, endFrame).Success?
    requires fr in FrameKeys(Extract(Curves(kind, o).value, Channels(kind), startFrame, endFrame).value)
    ensures var kfs := Extract(Curves(kind, o).value, Channels(kind), startFrame, endFrame).value;
      var lines := Export(kind, objects, matches, startFrame, endFrame, isSaved, fmt).value;
      exists a :: 0 <= a < |lines| && lines[a] == Line(Record(o.name, fr, ExpectedRow(kfs, fr)), fmt)
  {
    var objs := Selected(objects, matches);
    var table := Assemble(objs, kind, startFrame, endFrame).value;
    var kfs := Extract(Curves(kind, o).value, Channels(kind), startFrame, endFrame).value;
    var rec := Record(o.name, fr, ExpectedRow(kfs, fr));
    assert Export(kind, objects, matches, startFrame, endFrame, isSaved, fmt) == Success(Lines(table, fmt));
    AssembledCovers(objs, kind, startFrame, endFrame, o, fr);
    var a :| 0 <= a < |Records(table)| && Records(table)[a] == rec;
    assert Lines(table, fmt)[a] == Line(rec, fmt);
  }

  /** The lines of one object are contiguous. */
  lemma ExportObjectLinesContiguous(kind: ExportKind, objects: seq<SceneObject>, matches: string -> bool,
                                    startFrame: int, endFrame: int, isSaved: bool, fmt: real -> string,
                                    a: nat, c: nat, b: nat)
    requires Export(kind, objects, matches, startFrame, endFrame, isSaved, fmt).Success?
    requires a <= c <= b < |Export(kind, objects, matches, startFrame, endFrame, isSaved, fmt).value|
    requires CommaFreeNames(objects) && CommaFreeFormat(fmt)
    requires var lines := Export(kind, objects, matches, startFrame, endFrame, isSaved, fmt).value;
      LineFieldsOf(lines[a])[0] == LineFieldsOf(lines[b])[0]
    ensures var lines := Export(kind, objects, matches, startFrame, endFrame, isSaved, fmt).value;
      LineFieldsOf(lines[c])[0] == LineFieldsOf(lines[a])[0]
  {
    var objs := Selected(objects, matches);
    var table := Assemble(objs, kind, startFrame, endFrame).value;
    assert Export(kind, objects, matches, startFrame, endFrame, isSaved, fmt) == Success(Lines(table, fmt));
    AssembleTable(objs, kind, startFrame, endFrame);
    LineKey(kind, objects, matches, startFrame, endFrame, fmt, table, a);
    LineKey(kind, objects, matches, startFrame, endFrame, fmt, table, b);
    LineKey(kind, objects, matches, startFrame, endFrame, fmt, table, c);
    RecordsContiguous(table, a, c, b);
  }

  /** Frame key fa first occurs before frame key fb among the triples extracted for o. */
  ghost predicate FirstOccursBefore(o: SceneObject, fa: string, fb: string,
                                    kind: ExportKind, startFrame: int, endFrame: int)
  {
    && Curves(kind, o).Some?
    && var kfs := Extract(Curves(kind, o).value, Channels(kind), startFrame, endFrame);
       && kfs.Success?
       && fa in FrameKeys(kfs.value) && fb in FrameKeys(kfs.value)
       && IndexOf(FrameKeys(kfs.value), fa).value < IndexOf(FrameKeys(kfs.value), fb).value
  }

  /** Two entries of one object in the assembled dict follow the first-occurrence order of their frames. */
  lemma TableFrameOrder(objs: seq<SceneObject>, kind: ExportKind, startFrame: int, endFrame: int,
                        table: Table, a: nat, b: nat)
    requires Assemble(objs, kind, startFrame, endFrame) == Success(table)
    requires a < b < |Records(table)| && Records(table)[a].name == Records(table)[b].name
    ensures exists o :: (o in objs &&
      FirstOccursBefore(o, Records(table)[a].frame, Records(table)[b].frame, kind, startFrame, endFrame))
  {
    AssembleTable(objs, kind, startFrame, endFrame);
    assert Distinct(Keys(table));
    var rs := Records(table);
    SameObjectOrder(table, a, b);
    var i, ja, jb :| 0 <= i < |table| && 0 <= ja < jb < |table[i].1| &&
      rs[a] == Record(table[i].0, table[i].1[ja].0, table[i].1[ja].1) &&
      rs[b] == Record(table[i].0, table[i].1[jb].0, table[i].1[jb].1);
    assert FromObject(table[i], objs, kind, startFrame, endFrame);
    var o :| o in objs && o.name == table[i].0 && ObjectFrames(kind, o, startFrame, endFrame) == Success(table[i].1);
    FramesOrder(kind, o, startFrame, endFrame, table[i].1, ja, jb);
  }

  /** The frames dict of an object lists its frames in order of first occurrence. */
  lemma FramesOrder(kind: ExportKind, o: SceneObject, startFrame: int, endFrame: int,
                    frames: Dict<string, Row>, ja: nat, jb: nat)
    requires ObjectFrames(kind, o, startFrame, endFrame) == Success(frames)
    requires ja < jb < |frames|
    ensures FirstOccursBefore(o, frames[ja].0, frames[jb].0, kind, startFrame, endFrame)
  {
    var kfs := Extract(Curves(kind, o).value, Channels(kind), startFrame, endFrame).value;
    assert Register(kfs) == Success(frames);
    RegisterSpec(kfs);
    var order := Dedup(FrameKeys(kfs));
    assert Keys(frames) == order;
    assert order[ja] == frames[ja].0 && order[jb] == frames[jb].0;
    DedupOrder(FrameKeys(kfs), ja, jb);
  }

  /**
    Within one object, lines follow the order in which their frames first occur
    in the object's extracted keyframe list.
   */
  lemma ExportFrameOrder(kind: ExportKind, objects: seq<SceneObject>, matches: string -> bool,
                         startFrame: int, endFrame: int, isSaved: bool, fmt: real -> string, a: nat, b: nat)
    requires Export(kind, objects, matches, startFrame, endFrame, isSaved, fmt).Success?
    requires a < b < |Export(kind, objects, matches, startFrame, endFrame, isSaved, fmt).value|
    requires CommaFreeNames(objects) && CommaFreeFormat(fmt)
    requires var lines := Export(kind, objects, matches, startFrame, endFrame, isSaved, fmt).value;
      LineFieldsOf(lines[a])[0] == LineFieldsOf(lines[b])[0]
    ensures var lines := Export(kind, objects, matches, startFrame, endFrame, isSaved, fmt).value;
      |LineFieldsOf(lines[a])| == 11 && |LineFieldsOf(lines[b])| == 11
    ensures var lines := Export(kind, objects, matches, startFrame, endFrame, isSaved, fmt).value;
      exists o :: o in Selected(objects, matches) &&
        FirstOccursBefore(o, LineFieldsOf(lines[a])[1], LineFieldsOf(lines[b])[1], kind, startFrame, endFrame)
  {
    var objs := Selected(objects, matches);
    var table := Assemble(objs, kind, startFrame, endFrame).value;
    var lines := Lines(table, fmt);
    assert Export(kind, objects, matches, startFrame, endFrame, isSaved, fmt) == Success(lines);
    LineKey(kind, objects, matches, startFrame, endFrame, fmt, table, a);
    LineKey(kind, objects, matches, startFrame, endFrame, fmt, table, b);
    TableFrameOrder(objs, kind, startFrame, endFrame, table, a, b);
  }
}
