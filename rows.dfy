/**
  Row assembly: the extracted triples of one object are registered into a dict
  from frame key, the string str(int(time)), to a 9-slot row. A row is created
  with the defaults [0, 0, 0, 0, 0, 0, 1, 1, 1] the first time its frame is
  seen; every triple then overwrites its slot.
 */
module Rows {
  import opened Wrappers
  import opened Text
  import opened OrderedDict
  import opened Scene
  import opened Extraction

  /** A row element: one of the int defaults the row was created with, or a keyframe value. */
  datatype Cell = Default(n: int) | Sampled(v: real)

  type Row = seq<Cell>

  const Width: nat := 9

  /** The row a new frame starts with. */
  const Defaults: Row :=
    [Default(0), Default(0), Default(0), Default(0), Default(0), Default(0),
     Default(1), Default(1), Default(1)]

  /**
    Python's index rule for `row[i] = v` on a list of length n: i is valid when
    -n <= i < n, and names the one position p in [0, n) with p = i modulo n,
    so that a negative i counts from the end.
   */
  function ListIndex(i: int, n: nat): (p: Option<nat>)
    ensures p.Some? <==> -(n as int) <= i < n
    ensures p.Some? ==> p.value < n && (p.value - i) % n == 0
  {
    if 0 <= i < n then Some(i)
    else if -(n as int) <= i < 0 then Some(i + n)
    else None
  }

  /** The slot is a valid index of a row. */
  predicate InRow(slot: int)
  {
    -(Width as int) <= slot < Width
  }

  /** The position in the row that a triple with a valid slot writes. */
  function Position(k: Key): nat
    requires InRow(k.slot)
  {
    ListIndex(k.slot, Width).value
  }

  /** The dict key of a triple's frame: str(int(time)). */
  function FrameKey(k: Key): string
  {
    IntToString(Trunc(k.time))
  }

  /** Two triples land in one row exactly when their times truncate to the same integer. */
  lemma SameRowIff(a: Key, b: Key)
    ensures FrameKey(a) == FrameKey(b) <==> Trunc(a.time) == Trunc(b.time)
  {
    IntToStringInjective(Trunc(a.time), Trunc(b.time));
  }

  /** One step of the registration loop: create the row if needed, then assign the slot. */
  function Assign(frames: Dict<string, Row>, k: Key): Result<Dict<string, Row>, Error>
  {
    var fr := FrameKey(k);
    var row := match Get(frames, fr) case Some(r) => r case None => Defaults;
    match ListIndex(k.slot, |row|)
    case Some(p) => Success(Put(frames, fr, row[p := Sampled(k.value)]))
    case None => Failure(SlotOutOfRange(k.slot))
  }

  /** The registration loop over the triples of one object, stopping at the first failure. */
  function Register(kfs: seq<Key>): Result<Dict<string, Row>, Error>
  {
    if kfs == [] then Success([])
    else match Register(kfs[..|kfs| - 1])
      case Failure(e) => Failure(e)
      case Success(frames) => Assign(frames, kfs[|kfs| - 1])
  }

  method RegisterKeyframes(kfs: seq<Key>) returns (r: Result<Dict<string, Row>, Error>)
    ensures r == Register(kfs)
  {
    var frames: Dict<string, Row> := [];
    for i := 0 to |kfs|
      invariant Register(kfs[..i]) == Success(frames)
    {
      assert kfs[..i + 1][..i] == kfs[..i];
      var k := kfs[i];
      var fr := FrameKey(k);
      var row: Row;
      match Get(frames, fr) {
        case Some(existing) => row := existing;
        case None => row := Defaults;
      }
      var p := ListIndex(k.slot, |row|);
      if p.None? {
        RegisterFailureStays(kfs, i + 1);
        return Failure(SlotOutOfRange(k.slot));
      }
      row := row[p.value := Sampled(k.value)];
      frames := Put(frames, fr, row);
    }
    assert kfs[..|kfs|] == kfs;
    return Success(frames);
  }

  lemma {:induction false} RegisterFailureStays(kfs: seq<Key>, n: nat)
    requires n <= |kfs| && Register(kfs[..n]).Failure?
    ensures Register(kfs) == Register(kfs[..n])
    decreases |kfs| - n
  {
    if n < |kfs| {
      assert kfs[..n + 1][..n] == kfs[..n];
      RegisterFailureStays(kfs, n + 1);
    } else {
      assert kfs[..n] == kfs;
    }
  }

  /** The frame keys of the triples, in extraction order. */
  function FrameKeys(kfs: seq<Key>): seq<string>
  {
    seq(|kfs|, i requires 0 <= i < |kfs| => FrameKey(kfs[i]))
  }

  /** The value of the last triple that writes slot s of frame fr, if any does. */
  function LastWrite(kfs: seq<Key>, fr: string, s: nat): Option<real>
  {
    if kfs == [] then None
    else
      var k := kfs[|kfs| - 1];
      if FrameKey(k) == fr && ListIndex(k.slot, Width) == Some(s) then Some(k.value) else LastWrite(kfs[..|kfs| - 1], fr, s)
  }

  /** The row frame fr should hold: the last value written to each slot, the default elsewhere. */
  function ExpectedRow(kfs: seq<Key>, fr: string): (row: Row)
    ensures |row| == Width
  {
    seq(Width, s requires 0 <= s < Width =>
      match LastWrite(kfs, fr, s) case Some(v) => Sampled(v) case None => Defaults[s])
  }

  /** Every slot is a valid index of a row. */
  predicate SlotsInRow(kfs: seq<Key>)
  {
    forall i :: 0 <= i < |kfs| ==> InRow(kfs[i].slot)
  }

  lemma {:induction false} LastWriteAbsent(kfs: seq<Key>, fr: string, s: nat)
    requires fr !in FrameKeys(kfs)
    ensures LastWrite(kfs, fr, s).None?
  {
    if kfs != [] {
      var n := |kfs| - 1;
      assert FrameKeys(kfs[..n]) == FrameKeys(kfs)[..n];
      assert FrameKeys(kfs)[n] == FrameKey(kfs[n]);
      LastWriteAbsent(kfs[..n], fr, s);
    }
  }

  /**
    The complete description of registration: it fails exactly when some slot
    is outside the row, and otherwise the dict lists the frame keys in order of
    first occurrence and holds, for each of them, its expected row.
   */
  lemma {:induction false} RegisterSpec(kfs: seq<Key>)
    ensures Register(kfs).Success? <==> SlotsInRow(kfs)
    ensures Register(kfs).Success? ==>
      && Keys(Register(kfs).value) == Dedup(FrameKeys(kfs))
      && forall fr :: Get(Register(kfs).value, fr) ==
           (if fr in FrameKeys(kfs) then Some(ExpectedRow(kfs, fr)) else None)
  {
    if kfs != [] {
      var n := |kfs| - 1;
      var k := kfs[n];
      var prefix := kfs[..n];
      RegisterSpec(prefix);
      assert prefix + [k] == kfs;
      assert SlotsInRow(kfs) <==> SlotsInRow(prefix) && InRow(k.slot) by {
        assert forall i :: 0 <= i < n ==> kfs[i] == prefix[i];
      }
      if Register(prefix).Success? && InRow(k.slot) {
        RegisterStep(prefix, Register(prefix).value, k);
      }
    }
  }

  /** One step of the registration loop keeps the description of RegisterSpec. */
  lemma RegisterStep(prefix: seq<Key>, frames: Dict<string, Row>, k: Key)
    requires Register(prefix) == Success(frames) && InRow(k.slot)
    requires Keys(frames) == Dedup(FrameKeys(prefix))
    requires forall fr :: Get(frames, fr) == (if fr in FrameKeys(prefix) then Some(ExpectedRow(prefix, fr)) else None)
    ensures Register(prefix + [k]).Success?
    ensures Keys(Register(prefix + [k]).value) == Dedup(FrameKeys(prefix + [k]))
    ensures forall fr :: (Get(Register(prefix + [k]).value, fr) ==
      (if fr in FrameKeys(prefix + [k]) then Some(ExpectedRow(prefix + [k], fr)) else None))
  {
    var kfs := prefix + [k];
    assert kfs[..|prefix|] == prefix;
    RowOfStep(prefix, frames, k);
    var next := Assign(frames, k).value;
    assert Register(kfs) == Success(next);
    StepKeys(prefix, frames, k);
    forall fr ensures Get(next, fr) == (if fr in FrameKeys(kfs) then Some(ExpectedRow(kfs, fr)) else None)
    {
      StepGet(prefix, frames, k, fr);
    }
  }

  lemma StepKeys(prefix: seq<Key>, frames: Dict<string, Row>, k: Key)
    requires InRow(k.slot) && Assign(frames, k).Success?
    requires Keys(frames) == Dedup(FrameKeys(prefix))
    ensures Keys(Assign(frames, k).value) == Dedup(FrameKeys(prefix + [k]))
  {
    var kfs := prefix + [k];
    var fr := FrameKey(k);
    var row := match Get(frames, fr) case Some(r) => r case None => Defaults;
    var p := ListIndex(k.slot, |row|).value;
    assert Assign(frames, k).value == Put(frames, fr, row[p := Sampled(k.value)]);
    assert Keys(Assign(frames, k).value) == if fr in Keys(frames) then Keys(frames) else Keys(frames) + [fr];
    assert FrameKeys(kfs) == FrameKeys(prefix) + [fr];
    assert FrameKeys(kfs)[..|prefix|] == FrameKeys(prefix);
  }

  lemma StepGet(prefix: seq<Key>, frames: Dict<string, Row>, k: Key, fr: string)
    requires InRow(k.slot)
    requires forall fr :: Get(frames, fr) == (if fr in FrameKeys(prefix) then Some(ExpectedRow(prefix, fr)) else None)
    ensures Assign(frames, k).Success?
    ensures Get(Assign(frames, k).value, fr) ==
      (if fr in FrameKeys(prefix + [k]) then Some(ExpectedRow(prefix + [k], fr)) else None)
  {
    var kfs := prefix + [k];
    assert FrameKeys(kfs) == FrameKeys(prefix) + [FrameKey(k)];
    RowOfStep(prefix, frames, k);
    if fr != FrameKey(k) {
      assert kfs[..|prefix|] == prefix;
      assert ExpectedRow(kfs, fr) == ExpectedRow(prefix, fr);
    }
  }

  /** The row the step starts from is the expected row so far, and the step writes one slot of it. */
  lemma RowOfStep(prefix: seq<Key>, frames: Dict<string, Row>, k: Key)
    requires InRow(k.slot)
    requires forall fr :: Get(frames, fr) == (if fr in FrameKeys(prefix) then Some(ExpectedRow(prefix, fr)) else None)
    ensures Assign(frames, k) ==
      Success(Put(frames, FrameKey(k), ExpectedRow(prefix, FrameKey(k))[Position(k) := Sampled(k.value)]))
    ensures ExpectedRow(prefix + [k], FrameKey(k)) == ExpectedRow(prefix, FrameKey(k))[Position(k) := Sampled(k.value)]
  {
    var fr := FrameKey(k);
    var row := ExpectedRow(prefix, fr);
    if fr !in FrameKeys(prefix) {
      forall s | 0 <= s < Width ensures row[s] == Defaults[s] {
        LastWriteAbsent(prefix, fr, s);
      }
      assert row == Defaults;
      assert Get(frames, fr).None?;
    } else {
      assert Get(frames, fr) == Some(row);
    }
    assert ListIndex(k.slot, |row|) == Some(Position(k));
    ExpectedRowStep(prefix, k);
  }

  /** Appending k to the triples writes k's value into one position of its frame's expected row. */
  lemma ExpectedRowStep(prefix: seq<Key>, k: Key)
    requires InRow(k.slot)
    ensures ExpectedRow(prefix + [k], FrameKey(k)) == ExpectedRow(prefix, FrameKey(k))[Position(k) := Sampled(k.value)]
  {
    var kfs := prefix + [k];
    assert kfs[..|prefix|] == prefix;
    assert kfs[|kfs| - 1] == k;
  }

  /** Every registered row has exactly nine values. */
  lemma RowsHaveWidth(kfs: seq<Key>, fr: string)
    requires Register(kfs).Success? && Get(Register(kfs).value, fr).Some?
    ensures |Get(Register(kfs).value, fr).value| == Width
  {
    RegisterSpec(kfs);
  }

  /** Every frame key of the triples is an entry of the registered dict, holding its expected row. */
  lemma RegisteredEntry(kfs: seq<Key>, fr: string)
    requires Register(kfs).Success? && fr in FrameKeys(kfs)
    ensures exists j :: 0 <= j < |Register(kfs).value| && Register(kfs).value[j] == (fr, ExpectedRow(kfs, fr))
  {
    var frames := Register(kfs).value;
    RegisterSpec(kfs);
    assert fr in Keys(frames);
    var j :| 0 <= j < |frames| && Keys(frames)[j] == fr;
    GetAt(frames, j);
  }

  /**
    A frame seen for the first time is appended to the dict's keys, and its row
    is the defaults with only the new triple's slot written.
   */
  lemma FirstWrite(kfs: seq<Key>, k: Key)
    requires Register(kfs).Success? && InRow(k.slot) && FrameKey(k) !in FrameKeys(kfs)
    ensures Register(kfs + [k]).Success?
    ensures Keys(Register(kfs + [k]).value) == Keys(Register(kfs).value) + [FrameKey(k)]
    ensures Get(Register(kfs + [k]).value, FrameKey(k)) == Some(Defaults[Position(k) := Sampled(k.value)])
  {
    var key := FrameKey(k);
    LaterWriteReplaces(kfs, k, key);
    RegisterSpec(kfs);
    forall s | 0 <= s < Width
      ensures ExpectedRow(kfs, key)[s] == Defaults[s]
    {
      LastWriteAbsent(kfs, key, s);
    }
    assert ExpectedRow(kfs, key) == Defaults;
    assert (kfs + [k])[..|kfs|] == kfs;
    assert Register(kfs + [k]) == Assign(Register(kfs).value, k);
    assert Get(Register(kfs).value, key).None?;
  }

  /**
    Last write wins: a later triple replaces the value in its slot of its
    frame's row, and no other slot of that row and no other row changes.
   */
  lemma LaterWriteReplaces(kfs: seq<Key>, k: Key, fr: string)
    requires Register(kfs).Success? && InRow(k.slot)
    ensures Register(kfs + [k]).Success?
    ensures fr == FrameKey(k) ==>
      Get(Register(kfs + [k]).value, fr) == Some(ExpectedRow(kfs, fr)[Position(k) := Sampled(k.value)])
    ensures fr != FrameKey(k) ==> Get(Register(kfs + [k]).value, fr) == Get(Register(kfs).value, fr)
  {
    var frames := Register(kfs).value;
    var key := FrameKey(k);
    assert (kfs + [k])[..|kfs|] == kfs;
    assert Register(kfs + [k]) == Assign(frames, k);
    RegisterSpec(kfs);
    var row := match Get(frames, key) case Some(r) => r case None => Defaults;
    if key !in FrameKeys(kfs) {
      forall s | 0 <= s < Width ensures ExpectedRow(kfs, key)[s] == Defaults[s] {
        LastWriteAbsent(kfs, key, s);
      }
    }
    assert row == ExpectedRow(kfs, key);
  }

  /** The IndexError comes from the first triple whose slot is outside the row. */
  lemma {:induction false} RegisterFirstError(kfs: seq<Key>)
    requires Register(kfs).Failure?
    ensures exists j :: (0 <= j < |kfs| && !InRow(kfs[j].slot) &&
      (forall i :: 0 <= i < j ==> InRow(kfs[i].slot)) &&
      Register(kfs).error == SlotOutOfRange(kfs[j].slot))
  {
    var n := |kfs| - 1;
    var prefix := kfs[..n];
    assert forall i :: 0 <= i < n ==> prefix[i] == kfs[i];
    if Register(prefix).Failure? {
      RegisterFirstError(prefix);
      var j :| 0 <= j < n && !InRow(prefix[j].slot) &&
        (forall i :: 0 <= i < j ==> InRow(prefix[i].slot)) &&
        Register(prefix).error == SlotOutOfRange(prefix[j].slot);
    } else {
      var frames := Register(prefix).value;
      var k := kfs[n];
      var fr := FrameKey(k);
      assert Register(kfs) == Assign(frames, k);
      if Get(frames, fr).Some? {
        RowsHaveWidth(prefix, fr);
      }
      assert SlotsInRow(prefix) by {
        RegisterSpec(prefix);
      }
    }
  }
}
