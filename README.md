# Keyframe CSV export of a Blender add-on, in Dafny

This project models the engine behind three operators of the Blender add-on in
`__init__.py`:

- **SaveKeyframes** collects the keyframes of the location, rotation_euler and
  scale curves of the objects whose names match a pattern.
- **SaveMaterialKeyframes** does the same for the diffuse_color,
  specular_color, emit, ambient and translucency curves of each object's
  active material.
- **SaveVerticesPositionsOfMesh** writes the vertices of the active mesh (in
  world space), or the points of the active curve's first spline, one "x,y,z"
  line each.

The two keyframe operators share one pipeline, modelled once and specialised by
`Scene.ExportKind`:

1. **Selection** (`Selection`). Objects are kept in scene order when the
   id-key pattern is found somewhere in their name.
2. **Extraction** (`Extraction`). A curve is kept when its data path *ends
   with* one of the channel names. Each of its keyframes whose time lies in
   [start, end] becomes a triple (slot, time, value). The slot is the
   channel's offset in the exact-name table plus the curve's array index.
3. **Registration** (`Rows`). Triples are registered into a dict,
   modelled with insertion order. Its key is the frame string `str(int(time))`, and
   its value is a nine-slot row created as `[0,0,0,0,0,0,1,1,1]`. Each triple
   then overwrites its slot, so the last write wins. As in Python's list
   assignment, a slot from -9 to -1 counts from the row's end, and a slot
   outside -9..8 raises IndexError.
4. **Writing** (`CsvWriter`, `KeyframeExport`). If the blend file has been
   saved, one line `name,frame,v0,...,v8` is written per object and frame.

The model's dicts are association lists (`OrderedDict`) that keep insertion
order, as Python's dicts do from 3.7 on. Each
loop of the source is a method proved equal to a left-fold function. The
properties are lemmas about those functions:

- when the export fails, and with which exception;
- what each row holds;
- that each line splits back into its 11 fields;
- one line per (object, frame);
- the lines of one object are contiguous;
- frames are in order of first occurrence.

The modules are:

- `Wrappers`: Option and Result.
- `Text`: str() of ints, endswith, join, split, literal search.
- `OrderedDict`: Get, Put and Dedup.
- `Scene`: the scene entities, the channel tables, errors and truncation.
- `Selection`, `Extraction`, `Rows`, `CsvWriter`: the pipeline steps above.
- `KeyframeExport`: both keyframe operators end to end.
- `VertexExport`: the vertex-position operator.

Where the written description of the add-on and the code disagree, the model
follows the code:

- An end frame before the start frame is not an error. It simply selects no
  keyframes.
- Negative frames are allowed. `int()` truncates toward zero, so frame -0.5
  goes into row "0".
- A curve is accepted when its data path merely *ends with* a channel name,
  but its offset is then looked up under the exact path. A path such as
  `delta_location`, or an armature bone's `pose.bones["B"].location`, passes
  the first test and fails the second. So the export raises KeyError for
  such a curve as soon as one of its keyframes lies in the frame range
  (`Scene.SuffixOnlyPath`, `Extraction.CurveKeysIff`).
- The array index of a curve is not checked. A negative index is counted
  from the row's end, so a `location` curve with array_index -1 writes
  slot 8 (scale z). An index that puts the slot below -9 raises IndexError
  (`KeyframeExport.NegativeIndexFromEnd`).
- The following do not exist in this code and are not modelled:
  - frame-range expansion;
  - a parent-chain fallback for missing animation data;
  - world-space sampling per frame;
  - reversed vertex order;
  - UV handling.

## Model

| member | source | states |
|---|---|---|
| Selection.SelectObjects | __init__.py:46-50 | the selection loop returns exactly `Selected(objects, matches)`, the matching objects in scene order |
| Selection.SelectedIff | __init__.py:47-50 | an object is selected if and only if it is in the scene and its name matches |
| Selection.SelectedConcat | __init__.py:118-122 | selection distributes over concatenation, so the scene order is kept |
| Selection.EmptyPatternSelectsAll | __init__.py:276-280 | with the default empty id key, a literal search selects every object, in order |
| Text.ContainsIff | __init__.py:48 | the literal search finds a pattern if and only if the pattern occurs at some position of the name |
| Text.EmptyPatternMatchesAll | __init__.py:280 | the empty pattern is found in every name |
| Scene.Offset | __init__.py:45 | the exact-name table lookup is None exactly when no channel has that name; otherwise it returns that channel's offset |
| Scene.OffsetImpliesAccepted | __init__.py:61-62 | every path the table knows also passes the endswith filter |
| Scene.SuffixOnlyPath | __init__.py:61-62 | a path like "delta_location" passes the endswith filter but is unknown to the table, which is the KeyError path |
| Scene.ChannelTables | __init__.py:116-117 | the offsets are location 0, rotation_euler 3, scale 6, diffuse_color 0, specular_color 3, emit 6, ambient 7, translucency 8 |
| Scene.Trunc | __init__.py:76 | int() of a float truncates toward zero: for t >= 0, i <= t < i+1; for t < 0, i-1 < t <= i |
| Extraction.InRangePoints | __init__.py:63-64 | a keyframe is kept if and only if it is a point of the curve and its time is in [start, end] |
| Extraction.ExtractKeyframes | __init__.py:59-64 | the extraction loop returns exactly `Extract(...)`, stopping at the first KeyError |
| Extraction.CurveKeysIff | __init__.py:61-64 | an accepted curve fails if and only if its path is unknown and some keyframe is in range; otherwise a triple is produced if and only if it comes from an in-range point with slot offset+array_index |
| Extraction.ExtractFailsIff | __init__.py:60-64 | extraction fails if and only if some curve passes the suffix filter, is unknown to the table and has a keyframe in range |
| Extraction.ExtractFirstError | __init__.py:60-64 | a failing extraction raises the KeyError for the path of the first rejected curve, and every earlier curve passes |
| Extraction.ExtractMembers | __init__.py:60-64 | on success, a triple is extracted if and only if some accepted curve's in-range point yields it |
| Text.IntToString | __init__.py:76 | str() of an int is non-empty, has no comma or newline, and starts with '-' exactly for negatives |
| Text.IntToStringRoundTrip | __init__.py:76 | reading str(i) back gives i |
| Text.IntToStringInjective | __init__.py:76 | two ints give the same frame string if and only if they are equal |
| Rows.SameRowIff | __init__.py:76-77 | two triples share a row if and only if their times truncate to the same int |
| Rows.RegisterKeyframes | __init__.py:74-82 | the registration loop returns exactly `Register(kfs)`, stopping at the first IndexError |
| Rows.ListIndex | __init__.py:78 | Python's index rule for `row[i] = v`: i is valid exactly when -n <= i < n, and then names the position in [0, n) congruent to i modulo n |
| Rows.ExpectedRow | __init__.py:80-82 | the expected row of a frame has nine slots |
| Rows.RegisterSpec | __init__.py:74-82 | registration succeeds if and only if every slot is a valid row index (-9 to 8); the dict's keys are then the frame keys in order of first occurrence, and each holds the last value written to each slot, with the defaults elsewhere |
| Rows.RegisterFirstError | __init__.py:75-82 | a failing registration raises the IndexError for the slot of the first triple outside -9..8, and every earlier slot fits |
| Rows.RowsHaveWidth | __init__.py:80-81 | every registered row has nine values |
| Rows.RegisteredEntry | __init__.py:74-82 | every frame key of the triples is an entry of the registered dict, holding its expected row |
| Rows.FirstWrite | __init__.py:79-82 | after any earlier triples, a frame seen for the first time is appended to the keys, and its row is the defaults with only the position the new triple's slot names written |
| Rows.LaterWriteReplaces | __init__.py:77-78 | a later triple overwrites only its own slot of its own frame; no other row changes |
| OrderedDict.Get | __init__.py:77 | the membership test `fr in frames` is false exactly when the key is absent; a found value belongs to that key |
| OrderedDict.Put | __init__.py:74 | `d[k] = v` keeps the key order (or appends a new key), maps k to v, leaves other keys unchanged and keeps keys distinct |
| OrderedDict.Dedup | __init__.py:88-89 | the order of first occurrence has distinct elements and the same members as the input |
| OrderedDict.DedupOrder | __init__.py:75-80 | elements of the first-occurrence order appear in the order in which they first occur in the input |
| CsvWriter.WriteLines | __init__.py:87-91 | the nested write loops produce exactly `Lines(table, fmt)`: one line per (object, frame) in dict order |
| CsvWriter.LineFields | __init__.py:90-91 | a line ends in '\n', and without it splits on commas into name, frame and the nine printed values (11 fields) |
| CsvWriter.LineHasOneNewline | __init__.py:91 | the final '\n' is the only newline when no field contains one |
| CsvWriter.RecordsIff | __init__.py:88-89 | an entry is written if and only if the nested dict holds it |
| CsvWriter.RecordNames | __init__.py:88 | every written name is a key of the outer dict |
| CsvWriter.RecordsDistinct | __init__.py:88-89 | no (name, frame) pair is written twice when the dict keys are distinct |
| CsvWriter.RecordsContiguous | __init__.py:88-89 | the entries of one object are contiguous |
| CsvWriter.SameObjectOrder | __init__.py:89 | two entries of one object come from one frames dict, in that dict's order |
| KeyframeExport.ObjectPass | __init__.py:59-82 | the body of the object loop returns exactly `ObjectFrames`: AttributeError without animation data, then extraction, then registration |
| KeyframeExport.AssembleObjects | __init__.py:55-82 | the object loop returns exactly `Assemble(objs)`, stopping at the first exception |
| KeyframeExport.ExportKeyframes | __init__.py:44-94 | the whole execute returns exactly `Export(...)`: the assembly exceptions first, then the is_saved check, then the lines |
| KeyframeExport.SaveKeyframes | __init__.py:44-94 | SaveKeyframes.execute is the shared pipeline over the object channels |
| KeyframeExport.SaveMaterialKeyframes | __init__.py:115-167 | SaveMaterialKeyframes.execute is the shared pipeline over the material channels |
| KeyframeExport.NotSavedWritesNothing | __init__.py:84-93 | an unsaved file writes nothing; the error is NotSaved, with the message "Please save blender file first.", if and only if assembly succeeded |
| KeyframeExport.ObjectFramesErrors | __init__.py:59-82 | one object's pass fails only with AttributeError (`NoAnimationData`, which carries the object's name only to identify the object; Python's message does not name it), KeyError or IndexError |
| KeyframeExport.AssembleFirstError | __init__.py:55-82 | a failing assembly raises the exception of the first object whose pass fails; every earlier pass succeeds |
| KeyframeExport.ObjectFramesSpec | __init__.py:59-82 | one object's pass succeeds if and only if it has animation data, no curve is rejected and every slot is a valid row index |
| KeyframeExport.NegativeIndexFromEnd | __init__.py:62-82 | a location curve with array_index -1 writes slot 8 of its row (scale z); with array_index -10 the pass raises IndexError |
| KeyframeExport.AssembleSucceedsIff | __init__.py:55-82 | assembly succeeds if and only if every selected object's pass succeeds |
| KeyframeExport.AssembleTable | __init__.py:74 | the assembled dict has the object names in order of first occurrence; each holds the frames dict of an object of that name; every frames dict has distinct keys |
| KeyframeExport.ExportSucceedsIff | __init__.py:84-93 | the export succeeds if and only if the file is saved and every selected object's pass succeeds |
| KeyframeExport.AssembledRecord | __init__.py:88-91 | every written entry names an object, one of its frame keys, and that frame's expected row |
| KeyframeExport.FrameKeyParses | __init__.py:76 | every frame key is comma-free and newline-free, and parses back to int(time) of some triple |
| KeyframeExport.ExportedLine | __init__.py:84-93 | every line ends in '\n' and splits into 11 fields: a selected object's name, one of its frames, and that frame's expected row printed by str() |
| KeyframeExport.ExportOneLinePerKey | __init__.py:74-91 | no two lines start with the same (name, frame) |
| KeyframeExport.AssembledCovers | __init__.py:55-82 | every frame of an object whose name no other object shares is an entry of the assembled dict, with its expected row |
| KeyframeExport.ExportCoversFrames | __init__.py:74-91 | every frame of a selected object whose name no other selected object shares gets a line, carrying that frame's expected row |
| KeyframeExport.ExportObjectLinesContiguous | __init__.py:88-91 | the lines of one object are contiguous |
| KeyframeExport.ExportFrameOrder | __init__.py:75-91 | within one object, lines follow the order in which frames first occur among its extracted triples |
| VertexExport.SaveVerticesPositions | __init__.py:217-228 | execute returns exactly `Export(active, toWorld, fmt)`: the type dispatch, then the write loop |
| VertexExport.WriteVertexLines | __init__.py:225-227 | the write loop produces exactly one "x,y,z\n" line per position, in order |
| VertexExport.ExportFailsIff | __init__.py:218-224 | the export fails if and only if there is no active object, the type is neither MESH nor CURVE (the message is "Unsupported type: " + the type + "."), or a curve has no spline |
| VertexExport.MeshLines | __init__.py:219-220 | a mesh gives one line per vertex, carrying the vertex in world space |
| VertexExport.CurveLines | __init__.py:221-222 | a curve gives one line per point of its first spline, carrying the point's first three coordinates |
| VertexExport.VertexLineRoundTrip | __init__.py:227 | a line splits into exactly three fields, and reads back as its position when the number format is inverted |
| VertexExport.VertexLineOneNewline | __init__.py:227 | the newline ends each line and occurs nowhere else |
| VertexExport.ExportRoundTrip | __init__.py:219-227 | a successful export has one line per position, and each line reads back as its position |

## Left out

- The regular-expression engine is not modelled. `re.search` is the
  parameter `matches`, and an invalid pattern's `re.error` is not modelled.
  `Text.Contains` models patterns without metacharacters.
- Float-to-string conversion (`str()` of a float) is the parameter `fmt`.
  Float arithmetic is exact `real`.
- Keyframe times and values are `real`, so NaN and infinity are not
  modelled. `int()` of a non-finite time (OverflowError or ValueError) is
  not modelled either.
- The world-matrix product `matrix_world * vert.co` is the parameter
  `toWorld`.
- File I/O is not modelled: opening the file, resolving the "//" blend
  path, the file name property, and partial writes on I/O errors. The
  result is the list of lines written; an exception means no line is
  written.
- Blender's scene graph is not modelled. The objects, their actions and the
  active material are given as values. `None` anywhere on the path
  obj.animation_data.action (or obj.active_material.animation_data.action)
  is the single error `NoAnimationData`.
- Object names are not assumed unique. Two selected objects with one name
  replace each other's dict entry, as `keyframes[obj.name] = ...` does.
- Rows are values: assigning a slot of the nested list `keyframes[name][fr]`
  builds a new row and stores it back. No other reference to that list
  exists in the source, so nothing is lost.
- Not modelled: operator registration, menus, shortcut keys, the draw and
  invoke dialogs, and the SaveSelectionPositions operator (lines 180-205),
  which are not part of this engine.
- CsvWriter.WriteLines, Rows.RegisterSpec (its clause that the keys are
  `Dedup(FrameKeys(kfs))`), KeyframeExport.AssembleTable and
  KeyframeExport.ExportFrameOrder: these model dict iteration as insertion
  order, which Python guarantees only from 3.7. The add-on targets Blender
  2.7x, which bundles Python 3.5, where a dict iterates in hash order. On that
  Python the order of objects and of frames in the file is unspecified. The
  facts that do not depend on order still hold: one line per (object, frame),
  every frame written, and the contents of each line. Contiguity of an
  object's lines also holds, since every object's frames are written in one
  inner loop.
- KeyframeExport.ExportCoversFrames and KeyframeExport.AssembledCovers: stated
  for an object whose name no other selected object shares. Otherwise the
  last such object's frames replace the earlier ones, as
  `keyframes[obj.name] = ...` does.
- KeyframeExport.ExportedLine, KeyframeExport.ExportOneLinePerKey,
  KeyframeExport.ExportObjectLinesContiguous and
  KeyframeExport.ExportFrameOrder: these hold only when object names and
  printed numbers contain no comma. Otherwise a line does not split back into
  11 fields.
- VertexExport.VertexLineRoundTrip and VertexExport.ExportRoundTrip: these
  need a reading function `parse` that inverts `fmt` on the three
  coordinates. Python's `str()` of a float is such a function's inverse only
  for finite floats.
