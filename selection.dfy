/**
  Object selection: every scene object whose name the id-key pattern matches
  somewhere (an unanchored search), in scene order. The regular expression is
  the parameter `matches`, the answer re.search gives for a name.
 */
module Selection {
  import opened Scene
  import opened Text

  /** The objects whose names match, in scene order. */
  function Selected(objects: seq<SceneObject>, matches: string -> bool): seq<SceneObject>
  {
    if objects == [] then []
    else
      var last := objects[|objects| - 1];
      Selected(objects[..|objects| - 1], matches) + (if matches(last.name) then [last] else [])
  }

  /** The selection loop: appends each matching object to `objs`. */
  method SelectObjects(objects: seq<SceneObject>, matches: string -> bool) returns (objs: seq<SceneObject>)
    ensures objs == Selected(objects, matches)
  {
    objs := [];
    for i := 0 to |objects|
      invariant objs == Selected(objects[..i], matches)
    {
      assert objects[..i + 1][..i] == objects[..i];
      if matches(objects[i].name) {
        objs := objs + [objects[i]];
      }
    }
    assert objects[..|objects|] == objects;
  }

  /** An object is exported exactly when it is in the scene and its name matches. */
  lemma {:induction false} SelectedIff(objects: seq<SceneObject>, matches: string -> bool, o: SceneObject)
    ensures o in Selected(objects, matches) <==> o in objects && matches(o.name)
  {
    if objects != [] {
      var n := |objects| - 1;
      SelectedIff(objects[..n], matches, o);
      assert objects == objects[..n] + [objects[n]];
    }
  }

  /** Selection distributes over concatenation, so it keeps the scene order. */
  lemma {:induction false} SelectedConcat(a: seq<SceneObject>, b: seq<SceneObject>, matches: string -> bool)
    ensures Selected(a + b, matches) == Selected(a, matches) + Selected(b, matches)
    decreases |b|
  {
    if b == [] {
      assert a + b == a;
    } else {
      var n := |b| - 1;
      var ab := a + b;
      SelectedConcat(a, b[..n], matches);
      assert ab[..|ab| - 1] == a + b[..n];
      assert ab[|ab| - 1] == b[n];
      assert Selected(ab, matches) == Selected(a + b[..n], matches) + (if matches(b[n].name) then [b[n]] else []);
    }
  }

  /** The default id key, the empty pattern, selects every object. */
  lemma {:induction false} EmptyPatternSelectsAll(objects: seq<SceneObject>)
    ensures Selected(objects, name => Contains(name, "")) == objects
  {
    if objects != [] {
      var n := |objects| - 1;
      EmptyPatternSelectsAll(objects[..n]);
      EmptyPatternMatchesAll(objects[n].name);
      assert objects == objects[..n] + [objects[n]];
    }
  }
}
