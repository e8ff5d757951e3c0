/** The shaping half of `pullTasklist`: every sheet of the booking
    spreadsheet whose target date lies before the cutoff becomes a task; its
    title gives the weekday, the time and the course name, and the rows below
    the header give the athletes, except rows struck out with an `x`. The
    spreadsheet is given as its sheets with their cell values; the calendar
    date `getTaskDate` computes for a sheet, and whether that date lies before
    the cutoff, come with the sheet. */
module TaskList {
  import opened Wrappers
  import opened Text
  import opened Calendar
  import opened Records
  import Placement

  /** A calendar date as `getFullYear`, `getMonth() + 1` and `getDate` report it. */
  datatype Date = Date(year: int, month: int, day: int)

  /** One sheet of the spreadsheet. `date` is the date `getTaskDate` derives
      from the title, `due` the outcome of `date < cutoff` (false for an
      invalid date), and `values` the rows `values.get` returns, absent for a
      sheet without any cell. */
  datatype Sheet = Sheet(title: string, date: Date, due: bool, values: Option<seq<seq<string>>>)

  /** The two ways `pullTasklist` throws: a title without a second word makes
      `getTaskDate` read `parts[1].split` of `undefined`, and a due sheet
      without values makes `.slice` run on `undefined`. */
  datatype PullError = MissingTime(title: string) | MissingValues(title: string)

  /** `row[k]`: a cell, `undefined` past the end of the row. */
  function Cell(row: seq<string>, k: nat): Option<string>
  {
    if k < |row| then Some(row[k]) else None
  }

  /** `row[0] != "x"`: the row is not struck out (an empty row is kept). */
  predicate Kept(row: seq<string>)
  {
    Cell(row, 0) != Some("x")
  }

  /** The athlete a row describes, columns B to E. */
  function AthleteOf(row: seq<string>, index: nat): Athlete
  {
    Athlete(index, Cell(row, 1), Cell(row, 2), Cell(row, 3), Cell(row, 4))
  }

  /** The athletes of the rows below the header, as the `forEach` pushes
      them: a kept row at position `p` gets index `p + 1`. */
  function KeptRows(rows: seq<seq<string>>): seq<Athlete>
  {
    if rows == [] then []
    else
      var p := |rows| - 1;
      KeptRows(rows[..p]) + (if Kept(rows[p]) then [AthleteOf(rows[p], p + 1)] else [])
  }

  /** `values.slice(1)`: everything below the header row. */
  function BelowHeader(values: seq<seq<string>>): seq<seq<string>>
  {
    if |values| == 0 then [] else values[1..]
  }

  /** The `forEach` over the rows below the header. */
  method CollectAthletes(rows: seq<seq<string>>) returns (athletes: seq<Athlete>)
    ensures athletes == KeptRows(rows)
  {
    athletes := [];
    for i := 0 to |rows|
      invariant athletes == KeptRows(rows[..i])
    {
      assert rows[..i + 1][..i] == rows[..i];
      if rows[i] != [] && rows[i][0] == "x" {
      } else {
        athletes := athletes + [AthleteOf(rows[i], i + 1)];
      }
    }
    assert rows[..|rows|] == rows;
  }

  /** Each listed athlete reads the row its index names. */
  lemma {:induction false} KeptRowsIndexed(rows: seq<seq<string>>)
    ensures forall j :: 0 <= j < |KeptRows(rows)| ==>
      1 <= KeptRows(rows)[j].index <= |rows| &&
      KeptRows(rows)[j] == AthleteOf(rows[KeptRows(rows)[j].index - 1], KeptRows(rows)[j].index)
    decreases |rows|
  {
    if rows != [] {
      var p := |rows| - 1;
      var init := rows[..p];
      var prev := KeptRows(init);
      KeptRowsIndexed(init);
      var r := KeptRows(rows);
      assert r == prev + (if Kept(rows[p]) then [AthleteOf(rows[p], p + 1)] else []);
      forall j | 0 <= j < |r|
        ensures 1 <= r[j].index <= |rows| && r[j] == AthleteOf(rows[r[j].index - 1], r[j].index)
      {
        if j < |prev| {
          assert r[j] == prev[j];
          assert rows[prev[j].index - 1] == init[prev[j].index - 1];
        }
      }
    }
  }

  /** Athletes are listed in row order. */
  lemma {:induction false} KeptRowsIncreasing(rows: seq<seq<string>>)
    ensures forall j, k :: 0 <= j < k < |KeptRows(rows)| ==> KeptRows(rows)[j].index < KeptRows(rows)[k].index
    decreases |rows|
  {
    if rows != [] {
      var p := |rows| - 1;
      var init := rows[..p];
      var prev := KeptRows(init);
      KeptRowsIncreasing(init);
      KeptRowsIndexed(init);
      var r := KeptRows(rows);
      assert r == prev + (if Kept(rows[p]) then [AthleteOf(rows[p], p + 1)] else []);
      assert forall j :: 0 <= j < |prev| ==> r[j] == prev[j];
    }
  }

  /** Some athlete of the list was read from row position `p`. */
  predicate Listed(athletes: seq<Athlete>, p: nat)
  {
    exists j :: 0 <= j < |athletes| && athletes[j].index == p + 1
  }

  lemma ListedAppend(a: seq<Athlete>, b: seq<Athlete>, p: nat)
    ensures Listed(a + b, p) <==> Listed(a, p) || Listed(b, p)
  {
    var ab := a + b;
    if Listed(a, p) {
      var j :| 0 <= j < |a| && a[j].index == p + 1;
      assert ab[j] == a[j];
    }
    if Listed(b, p) {
      var j :| 0 <= j < |b| && b[j].index == p + 1;
      assert ab[|a| + j] == b[j];
    }
    if Listed(ab, p) {
      var j :| 0 <= j < |ab| && ab[j].index == p + 1;
      if j < |a| { assert ab[j] == a[j]; } else { assert ab[j] == b[j - |a|]; }
    }
  }

  /** A row is listed exactly when it is not struck out. */
  lemma {:induction false} KeptRowsListed(rows: seq<seq<string>>)
    ensures forall p :: 0 <= p < |rows| ==> (Kept(rows[p]) <==> Listed(KeptRows(rows), p))
    decreases |rows|
  {
    if rows != [] {
      var p := |rows| - 1;
      var init := rows[..p];
      var prev := KeptRows(init);
      var last := if Kept(rows[p]) then [AthleteOf(rows[p], p + 1)] else [];
      KeptRowsListed(init);
      KeptRowsIndexed(init);
      assert KeptRows(rows) == prev + last;
      forall q | 0 <= q < |rows|
        ensures Kept(rows[q]) <==> Listed(KeptRows(rows), q)
      {
        ListedAppend(prev, last, q);
        if q < p {
          assert rows[q] == init[q];
          assert !Listed(last, q);
        } else {
          assert !Listed(prev, q);
        }
      }
    }
  }

  /** The cell `placeAthletes` writes for an athlete lies in the athlete's
      own row of the sheet: `values[r]` is sheet row `r + 1`, the athlete
      was read from `values[index]`, and the range names row `index + 1`. */
  lemma AthleteRowWrite(sheetName: string, values: seq<seq<string>>, j: nat)
    requires j < |KeptRows(BelowHeader(values))|
    ensures var a := KeptRows(BelowHeader(values))[j];
      && 1 <= a.index < |values|
      && a == AthleteOf(values[a.index], a.index)
      && Placement.CellRow(Placement.CellRange(sheetName, a.index), sheetName) == Some(a.index + 1)
  {
    var rows := BelowHeader(values);
    KeptRowsIndexed(rows);
    var a := KeptRows(rows)[j];
    assert rows[a.index - 1] == values[a.index];
    Placement.CellRangeRoundTrip(sheetName, a.index);
  }

  /** The sheet as a task, `None` when it is skipped (not due, or no athlete
      left), or the error that aborts the whole pull. */
  function ShapeSheet(spreadsheetId: string, sheet: Sheet): Result<Option<Task>, PullError>
  {
    var parts := Split(sheet.title, ' ');
    if |parts| < 2 then Err(MissingTime(sheet.title))
    else if !sheet.due then Ok(None)
    else if sheet.values.None? then Err(MissingValues(sheet.title))
    else
      var athletes := KeptRows(BelowHeader(sheet.values.value));
      if |athletes| == 0 then Ok(None)
      else Ok(Some(Task(
        spreadsheetId,
        sheet.title,
        parts[0],
        FormatDate(sheet.date.year, sheet.date.month, sheet.date.day),
        parts[1],
        Lower(Join(parts[2..], ' ')),
        athletes)))
  }

  /** A sheet fails exactly when its title has no second word, or when it is
      due and has no values; it becomes a task exactly when it is due and
      some row below its header is not struck out. */
  lemma ShapeSheetCases(spreadsheetId: string, sheet: Sheet)
    ensures ShapeSheet(spreadsheetId, sheet).Err? <==>
      |Split(sheet.title, ' ')| < 2 || (sheet.due && sheet.values.None?)
    ensures ShapeSheet(spreadsheetId, sheet).Ok? && ShapeSheet(spreadsheetId, sheet).value.Some? <==>
      && |Split(sheet.title, ' ')| >= 2 && sheet.due && sheet.values.Some?
      && exists p :: 0 <= p < |BelowHeader(sheet.values.value)| && Kept(BelowHeader(sheet.values.value)[p])
  {
    if sheet.values.Some? {
      var rows := BelowHeader(sheet.values.value);
      KeptRowsListed(rows);
      KeptRowsIndexed(rows);
      assert |KeptRows(rows)| > 0 <==> exists p :: 0 <= p < |rows| && Kept(rows[p]) by {
        if |KeptRows(rows)| > 0 {
          assert Kept(rows[KeptRows(rows)[0].index - 1]);
        }
      }
    }
  }

  /** The fields of a task read its sheet: the task carries the spreadsheet
      and the title; day, time and the rest of the title are the title's
      words, which join back into the title; the name is lower-case, so
      lower-casing it again changes nothing; and the athletes are exactly
      those of the rows below the header, at least one. */
  lemma ShapeSheetTask(spreadsheetId: string, sheet: Sheet)
    requires ShapeSheet(spreadsheetId, sheet).Ok? && ShapeSheet(spreadsheetId, sheet).value.Some?
    ensures var t := ShapeSheet(spreadsheetId, sheet).value.value;
      var parts := Split(sheet.title, ' ');
      && t.sheetId == spreadsheetId && t.sheetName == sheet.title
      && parts == [t.day, t.time] + parts[2..]
      && Join([t.day, t.time] + parts[2..], ' ') == sheet.title
      && ' ' !in t.day && ' ' !in t.time
      && t.date == FormatDate(sheet.date.year, sheet.date.month, sheet.date.day)
      && t.name == Lower(Join(parts[2..], ' ')) && Lower(t.name) == t.name
      && sheet.values.Some? && t.athletes == KeptRows(BelowHeader(sheet.values.value))
      && |t.athletes| > 0
  {
    var parts := Split(sheet.title, ' ');
    assert parts == [parts[0], parts[1]] + parts[2..];
    JoinSplit(sheet.title, ' ');
    LowerIdempotent(Join(parts[2..], ' '));
  }

  /** The whole pull as a function: the tasks of the sheets in sheet order,
      or the first sheet's error. */
  function Pull(spreadsheetId: string, sheets: seq<Sheet>): Result<seq<Task>, PullError>
  {
    if sheets == [] then Ok([])
    else
      var n := |sheets| - 1;
      match Pull(spreadsheetId, sheets[..n])
      case Err(e) => Err(e)
      case Ok(tasks) =>
        match ShapeSheet(spreadsheetId, sheets[n])
        case Err(e) => Err(e)
        case Ok(None) => Ok(tasks)
        case Ok(Some(t)) => Ok(tasks + [t])
  }

  /** An error in the sheets seen so far is the error of the whole pull. */
  lemma {:induction false} PullErrorSticks(spreadsheetId: string, sheets: seq<Sheet>, i: nat)
    requires i <= |sheets|
    requires Pull(spreadsheetId, sheets[..i]).Err?
    ensures Pull(spreadsheetId, sheets) == Pull(spreadsheetId, sheets[..i])
    decreases |sheets| - i
  {
    if i < |sheets| {
      assert sheets[..i + 1][..i] == sheets[..i];
      PullErrorSticks(spreadsheetId, sheets, i + 1);
    } else {
      assert sheets[..i] == sheets;
    }
  }

  /** `pullTasklist` over the given sheets: a task per due sheet that still
      has athletes, in sheet order; the first throwing sheet aborts it. */
  method PullTasklist(spreadsheetId: string, sheets: seq<Sheet>) returns (res: Result<seq<Task>, PullError>)
    ensures res == Pull(spreadsheetId, sheets)
  {
    var result: seq<Task> := [];
    for i := 0 to |sheets|
      invariant Pull(spreadsheetId, sheets[..i]) == Ok(result)
    {
      assert sheets[..i + 1][..i] == sheets[..i];
      var sheet := sheets[i];
      var parts := Split(sheet.title, ' ');
      if |parts| < 2 {
        res := Err(MissingTime(sheet.title));
        PullErrorSticks(spreadsheetId, sheets, i + 1);
        return;
      }
      if sheet.due {
        if sheet.values.None? {
          res := Err(MissingValues(sheet.title));
          PullErrorSticks(spreadsheetId, sheets, i + 1);
          return;
        }
        var athletes := CollectAthletes(BelowHeader(sheet.values.value));
        if |athletes| > 0 {
          var task := Task(spreadsheetId, sheet.title, parts[0],
            FormatDate(sheet.date.year, sheet.date.month, sheet.date.day),
            parts[1], Lower(Join(parts[2..], ' ')), athletes);
          result := result + [task];
        }
      }
    }
    assert sheets[..|sheets|] == sheets;
    res := Ok(result);
  }

  /** The pull fails exactly when some sheet throws, and then with the error
      of the first such sheet. */
  lemma {:induction false} PullFails(spreadsheetId: string, sheets: seq<Sheet>)
    ensures Pull(spreadsheetId, sheets).Err? <==>
      exists k :: 0 <= k < |sheets| && ShapeSheet(spreadsheetId, sheets[k]).Err?
    ensures Pull(spreadsheetId, sheets).Err? ==>
      exists k :: 0 <= k < |sheets| && ShapeSheet(spreadsheetId, sheets[k]) == Err(Pull(spreadsheetId, sheets).error) &&
        forall m :: 0 <= m < k ==> ShapeSheet(spreadsheetId, sheets[m]).Ok?
    decreases |sheets|
  {
    if sheets != [] {
      var n := |sheets| - 1;
      var init := sheets[..n];
      PullFails(spreadsheetId, init);
      assert forall k :: 0 <= k < n ==> sheets[k] == init[k];
      if Pull(spreadsheetId, init).Err? {
        var k :| 0 <= k < n && ShapeSheet(spreadsheetId, init[k]) == Err(Pull(spreadsheetId, init).error) &&
          forall m :: 0 <= m < k ==> ShapeSheet(spreadsheetId, init[m]).Ok?;
        assert ShapeSheet(spreadsheetId, sheets[k]) == Err(Pull(spreadsheetId, sheets).error);
      } else if ShapeSheet(spreadsheetId, sheets[n]).Err? {
        assert forall m :: 0 <= m < n ==> ShapeSheet(spreadsheetId, sheets[m]).Ok?;
      }
    }
  }

  /** A sheet's task belongs to the spreadsheet and has an athlete. */
  lemma TaskOfSheet(spreadsheetId: string, sheet: Sheet, t: Task)
    requires ShapeSheet(spreadsheetId, sheet) == Ok(Some(t))
    ensures t.sheetId == spreadsheetId && |t.athletes| > 0
  {
    ShapeSheetTask(spreadsheetId, sheet);
  }

  /** The tasks of a successful pull are exactly those of the sheets: each
      is the task of one of the sheets, belongs to the spreadsheet and has an
      athlete; no sheet gives more than one task; and every sheet's task is
      among them. */
  lemma PullTasks(spreadsheetId: string, sheets: seq<Sheet>)
    requires Pull(spreadsheetId, sheets).Ok?
    ensures |Pull(spreadsheetId, sheets).value| <= |sheets|
    ensures forall j :: 0 <= j < |Pull(spreadsheetId, sheets).value| ==>
      && Pull(spreadsheetId, sheets).value[j].sheetId == spreadsheetId
      && |Pull(spreadsheetId, sheets).value[j].athletes| > 0
      && exists k :: 0 <= k < |sheets| && ShapeSheet(spreadsheetId, sheets[k]) == Ok(Some(Pull(spreadsheetId, sheets).value[j]))
    ensures forall k, t :: 0 <= k < |sheets| && ShapeSheet(spreadsheetId, sheets[k]) == Ok(Some(t)) ==>
      t in Pull(spreadsheetId, sheets).value
  {
    PullInOrder(spreadsheetId, sheets);
    TaskSheetsSpec(spreadsheetId, sheets);
    TaskPositionsIncreasing(Shapes(spreadsheetId, sheets));
    var ks := TaskSheets(spreadsheetId, sheets);
    var ts := Pull(spreadsheetId, sheets).value;
    forall j | 0 <= j < |ts|
      ensures && ts[j].sheetId == spreadsheetId && |ts[j].athletes| > 0
        && exists k :: 0 <= k < |sheets| && ShapeSheet(spreadsheetId, sheets[k]) == Ok(Some(ts[j]))
    {
      TaskOfSheet(spreadsheetId, sheets[ks[j]], ts[j]);
    }
    forall k, t | 0 <= k < |sheets| && ShapeSheet(spreadsheetId, sheets[k]) == Ok(Some(t))
      ensures t in ts
    {
      assert IsTask(ShapeSheet(spreadsheetId, sheets[k]));
      var j :| 0 <= j < |ks| && ks[j] == k;
    }
  }

  /** What each sheet shapes to, in sheet order. */
  function Shapes(spreadsheetId: string, sheets: seq<Sheet>): (r: seq<Result<Option<Task>, PullError>>)
    ensures |r| == |sheets| && forall k :: 0 <= k < |sheets| ==> r[k] == ShapeSheet(spreadsheetId, sheets[k])
  {
    seq(|sheets|, k requires 0 <= k < |sheets| => ShapeSheet(spreadsheetId, sheets[k]))
  }

  /** The shape is a task. */
  predicate IsTask(r: Result<Option<Task>, PullError>)
  {
    r.Ok? && r.value.Some?
  }

  /** The tasks of the shapes, in order, or the first error. */
  function Gather(shapes: seq<Result<Option<Task>, PullError>>): Result<seq<Task>, PullError>
  {
    if shapes == [] then Ok([])
    else
      var n := |shapes| - 1;
      match Gather(shapes[..n])
      case Err(e) => Err(e)
      case Ok(tasks) =>
        match shapes[n]
        case Err(e) => Err(e)
        case Ok(None) => Ok(tasks)
        case Ok(Some(t)) => Ok(tasks + [t])
  }

  /** The pull gathers the shapes of its sheets. */
  lemma {:induction false} PullGather(spreadsheetId: string, sheets: seq<Sheet>)
    ensures Pull(spreadsheetId, sheets) == Gather(Shapes(spreadsheetId, sheets))
    decreases |sheets|
  {
    if sheets != [] {
      var n := |sheets| - 1;
      PullGather(spreadsheetId, sheets[..n]);
      assert Shapes(spreadsheetId, sheets)[..n] == Shapes(spreadsheetId, sheets[..n]);
    }
  }

  /** The positions of the shapes that are tasks, in order. */
  function TaskPositions(shapes: seq<Result<Option<Task>, PullError>>): seq<nat>
  {
    if shapes == [] then []
    else
      var n := |shapes| - 1;
      TaskPositions(shapes[..n]) + (if IsTask(shapes[n]) then [n] else [])
  }

  /** The sheets that shape to a task, by position. */
  function TaskSheets(spreadsheetId: string, sheets: seq<Sheet>): seq<nat>
  {
    TaskPositions(Shapes(spreadsheetId, sheets))
  }

  /** The positions are those of shapes, in increasing order. */
  lemma {:induction false} TaskPositionsIncreasing(shapes: seq<Result<Option<Task>, PullError>>)
    ensures |TaskPositions(shapes)| <= |shapes|
    ensures forall j :: 0 <= j < |TaskPositions(shapes)| ==> TaskPositions(shapes)[j] < |shapes|
    ensures forall i, j :: 0 <= i < j < |TaskPositions(shapes)| ==> TaskPositions(shapes)[i] < TaskPositions(shapes)[j]
    decreases |shapes|
  {
    if shapes != [] {
      var n := |shapes| - 1;
      TaskPositionsIncreasing(shapes[..n]);
      var last := if IsTask(shapes[n]) then [n] else [];
      assert TaskPositions(shapes) == TaskPositions(shapes[..n]) + last;
    }
  }

  /** A position is listed exactly when its shape is a task. */
  lemma {:induction false} TaskPositionsMember(shapes: seq<Result<Option<Task>, PullError>>, k: nat)
    requires k < |shapes|
    ensures k in TaskPositions(shapes) <==> IsTask(shapes[k])
    decreases |shapes|
  {
    var n := |shapes| - 1;
    var prev := TaskPositions(shapes[..n]);
    var last := if IsTask(shapes[n]) then [n] else [];
    assert TaskPositions(shapes) == prev + last;
    TaskPositionsIncreasing(shapes[..n]);
    if k < n {
      TaskPositionsMember(shapes[..n], k);
      assert shapes[..n][k] == shapes[k];
    } else {
      assert n !in prev;
    }
  }

  /** A successful gather holds the task at each listed position, in order. */
  lemma {:induction false} GatherInOrder(shapes: seq<Result<Option<Task>, PullError>>)
    requires Gather(shapes).Ok?
    ensures |Gather(shapes).value| == |TaskPositions(shapes)|
    ensures forall j :: 0 <= j < |TaskPositions(shapes)| ==>
      TaskPositions(shapes)[j] < |shapes| && shapes[TaskPositions(shapes)[j]] == Ok(Some(Gather(shapes).value[j]))
    decreases |shapes|
  {
    TaskPositionsIncreasing(shapes);
    if shapes != [] {
      var n := |shapes| - 1;
      var init := shapes[..n];
      GatherInOrder(init);
      var prev := Gather(init).value;
      var ks := TaskPositions(shapes);
      var pks := TaskPositions(init);
      var ts := Gather(shapes).value;
      assert ks == pks + (if IsTask(shapes[n]) then [n] else []);
      forall j | 0 <= j < |ks|
        ensures ks[j] < |shapes| && shapes[ks[j]] == Ok(Some(ts[j]))
      {
        if j < |pks| {
          assert ks[j] == pks[j] && ts[j] == prev[j];
          assert shapes[pks[j]] == init[pks[j]];
        }
      }
    }
  }

  /** `TaskSheets` lists, in increasing order, exactly the positions of the
      sheets that shape to a task. */
  lemma TaskSheetsSpec(spreadsheetId: string, sheets: seq<Sheet>)
    ensures forall i, j :: 0 <= i < j < |TaskSheets(spreadsheetId, sheets)| ==>
      TaskSheets(spreadsheetId, sheets)[i] < TaskSheets(spreadsheetId, sheets)[j]
    ensures forall k :: 0 <= k < |sheets| ==>
      (k in TaskSheets(spreadsheetId, sheets) <==> IsTask(ShapeSheet(spreadsheetId, sheets[k])))
  {
    var shapes := Shapes(spreadsheetId, sheets);
    TaskPositionsIncreasing(shapes);
    forall k | 0 <= k < |sheets|
      ensures k in TaskSheets(spreadsheetId, sheets) <==> IsTask(ShapeSheet(spreadsheetId, sheets[k]))
    {
      TaskPositionsMember(shapes, k);
    }
  }

  /** A successful pull holds, in sheet order, the task of every sheet that
      shapes to one, and nothing else. */
  lemma PullInOrder(spreadsheetId: string, sheets: seq<Sheet>)
    requires Pull(spreadsheetId, sheets).Ok?
    ensures |Pull(spreadsheetId, sheets).value| == |TaskSheets(spreadsheetId, sheets)|
    ensures forall j :: 0 <= j < |TaskSheets(spreadsheetId, sheets)| ==>
      TaskSheets(spreadsheetId, sheets)[j] < |sheets| &&
      ShapeSheet(spreadsheetId, sheets[TaskSheets(spreadsheetId, sheets)[j]]) ==
        Ok(Some(Pull(spreadsheetId, sheets).value[j]))
  {
    PullGather(spreadsheetId, sheets);
    GatherInOrder(Shapes(spreadsheetId, sheets));
  }
}
