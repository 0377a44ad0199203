/**
  Serialisation of the assembled rows: one line per (object, frame) entry of
  the nested dict, in dict order, written as
  name + "," + frame + "," + ",".join(map(str, row)) + "\n", with no header.
 */
module CsvWriter {
  import opened Text
  import opened OrderedDict
  import opened Rows

  /** The nested dict: object name to frame key to row. */
  type Table = Dict<string, Dict<string, Row>>

  /** One entry of the nested dict, the content of one line. */
  datatype Record = Record(name: string, frame: string, row: Row)

  /** The entries of one object, in frame order. */
  function Block(name: string, frames: Dict<string, Row>): seq<Record>
  {
    seq(|frames|, j requires 0 <= j < |frames| => Record(name, frames[j].0, frames[j].1))
  }

  /** All entries: the objects in dict order, each object's frames in dict order. */
  function Records(table: Table): seq<Record>
  {
    if table == [] then []
    else Records(table[..|table| - 1]) + Block(table[|table| - 1].0, table[|table| - 1].1)
  }

  /** str() of a row element: the int defaults print as "0" and "1", values through fmt. */
  function FormatCell(c: Cell, fmt: real -> string): string
  {
    match c
    case Default(n) => IntToString(n)
    case Sampled(v) => fmt(v)
  }

  function FormatRow(row: Row, fmt: real -> string): seq<string>
  {
    seq(|row|, i requires 0 <= i < |row| => FormatCell(row[i], fmt))
  }

  function Line(r: Record, fmt: real -> string): string
  {
    r.name + "," + r.frame + "," + Join(FormatRow(r.row, fmt)) + "\n"
  }

  function Render(rs: seq<Record>, fmt: real -> string): seq<string>
  {
    seq(|rs|, i requires 0 <= i < |rs| => Line(rs[i], fmt))
  }

  /** The lines of the output file. */
  function Lines(table: Table, fmt: real -> string): seq<string>
  {
    Render(Records(table), fmt)
  }

  /** The nested write loop. */
  method WriteLines(table: Table, fmt: real -> string) returns (lines: seq<string>)
    ensures lines == Lines(table, fmt)
  {
    lines := [];
    for i := 0 to |table|
      invariant lines == Lines(table[..i], fmt)
    {
      var name := table[i].0;
      var frames := table[i].1;
      assert table[..i + 1][..i] == table[..i];
      for j := 0 to |frames|
        invariant lines == Render(Records(table[..i]) + Block(name, frames[..j]), fmt)
      {
        assert Block(name, frames[..j + 1]) == Block(name, frames[..j]) + [Record(name, frames[j].0, frames[j].1)];
        lines := lines + [Line(Record(name, frames[j].0, frames[j].1), fmt)];
      }
      assert frames[..|frames|] == frames;
    }
    assert table[..|table|] == table;
  }

  /** No value printed by fmt contains a comma. */
  ghost predicate CommaFreeFormat(fmt: real -> string)
  {
    forall v :: ',' !in fmt(v)
  }

  /** No value printed by fmt contains a newline. */
  ghost predicate NewlineFreeFormat(fmt: real -> string)
  {
    forall v :: '\n' !in fmt(v)
  }

  /**
    A line is its fields joined by commas plus a newline: the name, the frame
    and the nine row values, eleven fields that splitting at the commas gives
    back whenever the name and the printed values have no comma.
   */
  lemma LineFields(r: Record, fmt: real -> string)
    requires |r.row| == Width && ',' !in r.name && ',' !in r.frame && CommaFreeFormat(fmt)
    ensures var line := Line(r, fmt);
      && line[|line| - 1] == '\n'
      && Split(line[..|line| - 1]) == [r.name, r.frame] + FormatRow(r.row, fmt)
      && |Split(line[..|line| - 1])| == 11
  {
    var cells := FormatRow(r.row, fmt);
    var fields := [r.name, r.frame] + cells;
    var line := Line(r, fmt);
    assert Join(fields) == r.name + "," + Join(fields[1..]);
    assert fields[1..][1..] == cells;
    assert Join(fields[1..]) == r.frame + "," + Join(cells);
    assert line[..|line| - 1] == Join(fields);
    assert CommaFree(fields) by {
      forall i | 2 <= i < |fields| ensures ',' !in fields[i] {
        assert fields[i] == FormatCell(r.row[i - 2], fmt);
      }
    }
    SplitJoin(fields);
  }

  /** The newline is the line terminator and nothing else, when no field contains one. */
  lemma LineHasOneNewline(r: Record, fmt: real -> string)
    requires |r.row| == Width && '\n' !in r.name && '\n' !in r.frame && NewlineFreeFormat(fmt)
    ensures var line := Line(r, fmt); '\n' !in line[..|line| - 1]
  {
    var cells := FormatRow(r.row, fmt);
    forall i | 0 <= i < |cells| ensures '\n' !in cells[i] {
      assert cells[i] == FormatCell(r.row[i], fmt);
    }
    JoinNoNewline(cells);
    var line := Line(r, fmt);
    assert line[..|line| - 1] == r.name + "," + r.frame + "," + Join(cells);
  }

  /** An entry is written exactly when the nested dict holds it. */
  lemma {:induction false} RecordsIff(table: Table, r: Record)
    ensures r in Records(table) <==>
      exists i, j :: 0 <= i < |table| && 0 <= j < |table[i].1| &&
        r == Record(table[i].0, table[i].1[j].0, table[i].1[j].1)
  {
    if table != [] {
      var n := |table| - 1;
      var prefix := table[..n];
      var block := Block(table[n].0, table[n].1);
      RecordsIff(prefix, r);
      assert forall i :: 0 <= i < n ==> prefix[i] == table[i];
      if r in block {
        var j :| 0 <= j < |block| && block[j] == r;
        assert r == Record(table[n].0, table[n].1[j].0, table[n].1[j].1);
      }
      if exists i, j :: 0 <= i < |table| && 0 <= j < |table[i].1| &&
          r == Record(table[i].0, table[i].1[j].0, table[i].1[j].1) {
        var i, j :| 0 <= i < |table| && 0 <= j < |table[i].1| &&
          r == Record(table[i].0, table[i].1[j].0, table[i].1[j].1);
        if i == n {
          assert block[j] == r;
        }
      }
    }
  }

  lemma {:induction false} RecordNames(table: Table, a: nat)
    requires a < |Records(table)|
    ensures Records(table)[a].name in Keys(table)
  {
    var n := |table| - 1;
    var p := Records(table[..n]);
    if a < |p| {
      RecordNames(table[..n], a);
      assert Keys(table[..n]) == Keys(table)[..n];
    } else {
      assert Records(table)[a].name == Keys(table)[n];
    }
  }

  /** Every inner dict has distinct keys. */
  predicate DistinctFrames(table: Table)
  {
    forall i :: 0 <= i < |table| ==> Distinct(Keys(table[i].1))
  }

  /** No (object, frame) pair is written twice. */
  lemma {:induction false} RecordsDistinct(table: Table, a: nat, b: nat)
    requires Distinct(Keys(table)) && DistinctFrames(table)
    requires a < b < |Records(table)|
    ensures (Records(table)[a].name, Records(table)[a].frame) != (Records(table)[b].name, Records(table)[b].frame)
  {
    var n := |table| - 1;
    var prefix := table[..n];
    var p := Records(prefix);
    var rs := Records(table);
    assert Keys(prefix) == Keys(table)[..n];
    if b < |p| {
      RecordsDistinct(prefix, a, b);
    } else if a < |p| {
      RecordNames(prefix, a);
      assert rs[b].name == table[n].0 == Keys(table)[n];
    } else {
      var frames := table[n].1;
      assert rs[a].frame == Keys(frames)[a - |p|] && rs[b].frame == Keys(frames)[b - |p|];
    }
  }

  /** The entries of a dict that lacks a name all name other objects. */
  lemma OtherNames(table: Table, name: string)
    requires name !in Keys(table)
    ensures forall x :: 0 <= x < |Records(table)| ==> Records(table)[x].name != name
  {
    forall x | 0 <= x < |Records(table)| ensures Records(table)[x].name != name {
      RecordNames(table, x);
    }
  }

  lemma LastNameFresh(table: Table)
    requires Distinct(Keys(table)) && table != []
    ensures table[|table| - 1].0 !in Keys(table[..|table| - 1])
  {
    var n := |table| - 1;
    assert Keys(table[..n]) == Keys(table)[..n];
    assert Keys(table)[n] == table[n].0;
  }

  /** The lines of one object are contiguous. */
  lemma {:induction false} RecordsContiguous(table: Table, a: nat, c: nat, b: nat)
    requires Distinct(Keys(table))
    requires a <= c <= b < |Records(table)| && Records(table)[a].name == Records(table)[b].name
    ensures Records(table)[c].name == Records(table)[a].name
  {
    var n := |table| - 1;
    var prefix := table[..n];
    var p := Records(prefix);
    var rs := Records(table);
    assert Keys(prefix) == Keys(table)[..n];
    LastNameFresh(table);
    OtherNames(prefix, table[n].0);
    assert forall x :: 0 <= x < |p| ==> rs[x] == p[x];
    assert forall x :: |p| <= x < |rs| ==> rs[x].name == table[n].0;
    if b < |p| {
      RecordsContiguous(prefix, a, c, b);
    }
  }

  /** Two entries of one object come from one frames dict, in that dict's order. */
  lemma {:induction false} SameObjectOrder(table: Table, a: nat, b: nat)
    requires Distinct(Keys(table))
    requires a < b < |Records(table)| && Records(table)[a].name == Records(table)[b].name
    ensures exists i, ja, jb :: (0 <= i < |table| && 0 <= ja < jb < |table[i].1| &&
      Records(table)[a] == Record(table[i].0, table[i].1[ja].0, table[i].1[ja].1) &&
      Records(table)[b] == Record(table[i].0, table[i].1[jb].0, table[i].1[jb].1))
  {
    var n := |table| - 1;
    var prefix := table[..n];
    var p := Records(prefix);
    var rs := Records(table);
    LastNameFresh(table);
    OtherNames(prefix, table[n].0);
    assert forall x :: 0 <= x < |p| ==> rs[x] == p[x];
    assert Keys(prefix) == Keys(table)[..n];
    if b < |p| {
      SameObjectOrder(prefix, a, b);
      var i, ja, jb :| 0 <= i < |prefix| && 0 <= ja < jb < |prefix[i].1| &&
        p[a] == Record(prefix[i].0, prefix[i].1[ja].0, prefix[i].1[ja].1) &&
        p[b] == Record(prefix[i].0, prefix[i].1[jb].0, prefix[i].1[jb].1);
      assert prefix[i] == table[i];
    } else {
      assert rs[b].name == table[n].0;
      assert a >= |p|;
      assert rs[a] == Record(table[n].0, table[n].1[a - |p|].0, table[n].1[a - |p|].1);
      assert rs[b] == Record(table[n].0, table[n].1[b - |p|].0, table[n].1[b - |p|].1);
    }
  }
}
