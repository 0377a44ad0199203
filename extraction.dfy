/**
  Keyframe extraction: for each F-curve whose path ends with a recognised
  channel name, the keyframe points whose time lies in [start, end] become
  (slot, time, value) triples, the slot being the channel's offset plus the
  curve's component index.
 */
module Extraction {
  import opened Wrappers
  import opened Scene

  /** An extracted keyframe: its row slot, its time and its value. */
  datatype Key = Key(slot: int, time: real, value: real)

  /** The points of a curve whose time lies in [startFrame, endFrame], in curve order. */
  function InRangePoints(points: seq<Keyframe>, startFrame: int, endFrame: int): (r: seq<Keyframe>)
    ensures forall p :: p in r <==> p in points && InRange(p.time, startFrame, endFrame)
  {
    if points == [] then []
    else
      var n := |points| - 1;
      assert points == points[..n] + [points[n]];
      InRangePoints(points[..n], startFrame, endFrame)
        + (if InRange(points[n].time, startFrame, endFrame) then [points[n]] else [])
  }

  /**
    The list comprehension for one accepted curve. The table lookup is in the
    comprehension's element expression, so it runs, and fails on a path missing
    from the table, only when at least one point is in range.
   */
  function CurveKeys(fc: FCurve, channels: seq<Channel>, startFrame: int, endFrame: int): Result<seq<Key>, Error>
  {
    var pts := InRangePoints(fc.points, startFrame, endFrame);
    if pts == [] then Success([])
    else match Offset(fc.dataPath, channels)
      case None => Failure(UnknownChannel(fc.dataPath))
      case Some(o) =>
        Success(seq(|pts|, i requires 0 <= i < |pts| => Key(o + fc.arrayIndex, pts[i].time, pts[i].value)))
  }

  /** `kfs += ...` over the curves of one object, stopping at the first failure. */
  function Extract(curves: seq<FCurve>, channels: seq<Channel>, startFrame: int, endFrame: int): Result<seq<Key>, Error>
  {
    if curves == [] then Success([])
    else
      var fc := curves[|curves| - 1];
      match Extract(curves[..|curves| - 1], channels, startFrame, endFrame)
      case Failure(e) => Failure(e)
      case Success(kfs) =>
        if !EndsWithChannel(fc.dataPath, channels) then Success(kfs)
        else match CurveKeys(fc, channels, startFrame, endFrame)
          case Failure(e) => Failure(e)
          case Success(ks) => Success(kfs + ks)
  }

  /** The extraction loop over the F-curves of one object. */
  method ExtractKeyframes(curves: seq<FCurve>, channels: seq<Channel>, startFrame: int, endFrame: int)
    returns (r: Result<seq<Key>, Error>)
    ensures r == Extract(curves, channels, startFrame, endFrame)
  {
    var kfs := [];
    for i := 0 to |curves|
      invariant Extract(curves[..i], channels, startFrame, endFrame) == Success(kfs)
    {
      var fc := curves[i];
      assert curves[..i + 1][..i] == curves[..i];
      if EndsWithChannel(fc.dataPath, channels) {
        var ks := CurveKeys(fc, channels, startFrame, endFrame);
        if ks.Failure? {
          assert curves[..i + 1] == curves[..i] + [fc];
          ExtractFailureStays(curves, channels, startFrame, endFrame, i + 1);
          return Failure(ks.error);
        }
        kfs := kfs + ks.value;
      }
    }
    assert curves[..|curves|] == curves;
    return Success(kfs);
  }

  /** Once a prefix of the curves fails, the whole extraction fails with the same error. */
  lemma {:induction false} ExtractFailureStays(curves: seq<FCurve>, channels: seq<Channel>, startFrame: int, endFrame: int, n: nat)
    requires n <= |curves| && Extract(curves[..n], channels, startFrame, endFrame).Failure?
    ensures Extract(curves, channels, startFrame, endFrame) == Extract(curves[..n], channels, startFrame, endFrame)
    decreases |curves| - n
  {
    if n < |curves| {
      assert curves[..n + 1][..n] == curves[..n];
      ExtractFailureStays(curves, channels, startFrame, endFrame, n + 1);
    } else {
      assert curves[..n] == curves;
    }
  }

  /** Point p of curve fc contributes the triple k. */
  predicate Yields(fc: FCurve, p: Keyframe, k: Key, channels: seq<Channel>, startFrame: int, endFrame: int)
  {
    && EndsWithChannel(fc.dataPath, channels)
    && InRange(p.time, startFrame, endFrame)
    && Offset(fc.dataPath, channels).Some?
    && k == Key(Offset(fc.dataPath, channels).value + fc.arrayIndex, p.time, p.value)
  }

  /** Curve fc makes the extraction fail: an accepted path the table lacks, with a point in range. */
  predicate Rejects(fc: FCurve, channels: seq<Channel>, startFrame: int, endFrame: int)
  {
    && EndsWithChannel(fc.dataPath, channels)
    && Offset(fc.dataPath, channels).None?
    && exists p :: p in fc.points && InRange(p.time, startFrame, endFrame)
  }

  lemma CurveKeysIff(fc: FCurve, channels: seq<Channel>, startFrame: int, endFrame: int, k: Key)
    requires EndsWithChannel(fc.dataPath, channels)
    ensures CurveKeys(fc, channels, startFrame, endFrame).Failure? <==> Rejects(fc, channels, startFrame, endFrame)
    ensures CurveKeys(fc, channels, startFrame, endFrame).Success? ==>
      ((k in CurveKeys(fc, channels, startFrame, endFrame).value) <==>
       (exists p :: p in fc.points && Yields(fc, p, k, channels, startFrame, endFrame)))
  {
    var pts := InRangePoints(fc.points, startFrame, endFrame);
    if pts != [] {
      assert pts[0] in pts;
    }
    var r := CurveKeys(fc, channels, startFrame, endFrame);
    if r.Success? && pts != [] {
      var o := Offset(fc.dataPath, channels).value;
      if k in r.value {
        var i :| 0 <= i < |pts| && r.value[i] == k;
        assert pts[i] in pts;
        assert Yields(fc, pts[i], k, channels, startFrame, endFrame);
      }
      if exists p :: p in fc.points && Yields(fc, p, k, channels, startFrame, endFrame) {
        var p :| p in fc.points && Yields(fc, p, k, channels, startFrame, endFrame);
        assert p in pts;
        var i :| 0 <= i < |pts| && pts[i] == p;
        assert r.value[i] == k;
      }
    }
  }

  /** Extraction fails exactly when some curve is rejected. */
  lemma {:induction false} ExtractFailsIff(curves: seq<FCurve>, channels: seq<Channel>, startFrame: int, endFrame: int)
    ensures Extract(curves, channels, startFrame, endFrame).Failure?
      <==> exists fc :: fc in curves && Rejects(fc, channels, startFrame, endFrame)
  {
    if curves != [] {
      var n := |curves| - 1;
      var fc := curves[n];
      assert curves == curves[..n] + [fc];
      ExtractFailsIff(curves[..n], channels, startFrame, endFrame);
      if EndsWithChannel(fc.dataPath, channels) {
        CurveKeysIff(fc, channels, startFrame, endFrame, Key(0, 0.0, 0.0));
      }
    }
  }

  /**
    A triple is extracted exactly when some keyframe point of some curve yields
    it: the curve's path ends with a channel name and is in the table, and the
    point's time lies in the closed interval.
   */
  lemma {:induction false} ExtractMembers(curves: seq<FCurve>, channels: seq<Channel>, startFrame: int, endFrame: int, k: Key)
    requires Extract(curves, channels, startFrame, endFrame).Success?
    ensures k in Extract(curves, channels, startFrame, endFrame).value
      <==> exists fc, p :: fc in curves && p in fc.points && Yields(fc, p, k, channels, startFrame, endFrame)
  {
    if curves != [] {
      var n := |curves| - 1;
      var fc := curves[n];
      assert curves == curves[..n] + [fc];
      ExtractMembers(curves[..n], channels, startFrame, endFrame, k);
      if EndsWithChannel(fc.dataPath, channels) {
        CurveKeysIff(fc, channels, startFrame, endFrame, k);
      }
    }
  }

  /** The KeyError names the path of the first rejected curve. */
  lemma {:induction false} ExtractFirstError(curves: seq<FCurve>, channels: seq<Channel>, startFrame: int, endFrame: int)
    requires Extract(curves, channels, startFrame, endFrame).Failure?
    ensures exists j :: (0 <= j < |curves| && Rejects(curves[j], channels, startFrame, endFrame) &&
      (forall i :: 0 <= i < j ==> !Rejects(curves[i], channels, startFrame, endFrame)) &&
      Extract(curves, channels, startFrame, endFrame).error == UnknownChannel(curves[j].dataPath))
  {
    var n := |curves| - 1;
    var fc := curves[n];
    var prefix := curves[..n];
    assert forall i :: 0 <= i < n ==> prefix[i] == curves[i];
    if Extract(prefix, channels, startFrame, endFrame).Failure? {
      ExtractFirstError(prefix, channels, startFrame, endFrame);
      var j :| 0 <= j < n && Rejects(prefix[j], channels, startFrame, endFrame) &&
        (forall i :: 0 <= i < j ==> !Rejects(prefix[i], channels, startFrame, endFrame)) &&
        Extract(prefix, channels, startFrame, endFrame).error == UnknownChannel(prefix[j].dataPath);
    } else {
      ExtractFailsIff(prefix, channels, startFrame, endFrame);
      forall i | 0 <= i < n ensures !Rejects(curves[i], channels, startFrame, endFrame) {
        assert prefix[i] in prefix;
      }
      CurveKeysIff(fc, channels, startFrame, endFrame, Key(0, 0.0, 0.0));
      assert Rejects(curves[n], channels, startFrame, endFrame);
    }
  }
}
