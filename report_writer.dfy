/**
 * Filling a report template: the `ReportWriter` class keeps the template's
 * two tables, `heading` (student and course details) and `marks` (one row per
 * week of the term, with a mid-term break row 6), and overwrites fixed
 * paragraphs of them.
 */
module ReportWriting {
  import opened Wrappers
  import opened Tables

  // ---------------------------------------------------------------------------
  // Where writeinitial puts each detail

  /** The heading-table paragraph that holds the detail named `key`, if any. */
  function HeadingSlot(key: string): Option<Pos> {
    if key == "id" then Some(Pos(0, 0, 2))
    else if key == "name" then Some(Pos(0, 1, 2))
    else if key == "course" then Some(Pos(0, 2, 1))
    else if key == "cl" then Some(Pos(1, 2, 1))
    else if key == "sd" then Some(Pos(0, 3, 2))
    else if key == "ed" then Some(Pos(0, 4, 2))
    else None
  }

  lemma HeadingSlots()
    ensures HeadingSlot("id") == Some(Pos(0, 0, 2)) && HeadingSlot("name") == Some(Pos(0, 1, 2))
    ensures HeadingSlot("course") == Some(Pos(0, 2, 1)) && HeadingSlot("cl") == Some(Pos(1, 2, 1))
    ensures HeadingSlot("sd") == Some(Pos(0, 3, 2)) && HeadingSlot("ed") == Some(Pos(0, 4, 2))
  {
  }

  /** The keys writeinitial looks for, in the order it looks. */
  const InitialKeys: seq<string> := ["id", "name", "course", "cl", "sd", "ed"]

  /** The overwrite of `key`'s slot, if `initid` has `key`. */
  function KeyWrite(initid: map<string, string>, key: string): seq<Write>
    requires HeadingSlot(key).Some?
  {
    if key in initid then [Write(HeadingSlot(key).value, initid[key])] else []
  }

  /** The overwrite for each of `keys` that `initid` has, in order. */
  function KeyWrites(initid: map<string, string>, keys: seq<string>): seq<Write>
    requires forall k :: 0 <= k < |keys| ==> HeadingSlot(keys[k]).Some?
  {
    if keys == [] then [] else KeyWrite(initid, keys[0]) + KeyWrites(initid, keys[1..])
  }

  function InitialWrites(initid: map<string, string>): seq<Write> {
    KeyWrites(initid, InitialKeys)
  }

  /** The overwrites of writeinitial, one `if` at a time. */
  lemma InitialWritesInOrder(initid: map<string, string>)
    ensures InitialWrites(initid) ==
            KeyWrite(initid, "id") + (KeyWrite(initid, "name") + (KeyWrite(initid, "course") +
            (KeyWrite(initid, "cl") + (KeyWrite(initid, "sd") + KeyWrite(initid, "ed")))))
  {
    var ks := InitialKeys;
    assert ks[1..][1..][1..][1..][1..][1..] == [];
    calc {
      KeyWrites(initid, ks);
      KeyWrite(initid, "id") + KeyWrites(initid, ks[1..]);
      KeyWrite(initid, "id") + (KeyWrite(initid, "name") + KeyWrites(initid, ks[1..][1..]));
      KeyWrite(initid, "id") + (KeyWrite(initid, "name") + (KeyWrite(initid, "course") +
        KeyWrites(initid, ks[1..][1..][1..])));
      KeyWrite(initid, "id") + (KeyWrite(initid, "name") + (KeyWrite(initid, "course") +
        (KeyWrite(initid, "cl") + KeyWrites(initid, ks[1..][1..][1..][1..]))));
      KeyWrite(initid, "id") + (KeyWrite(initid, "name") + (KeyWrite(initid, "course") +
        (KeyWrite(initid, "cl") + (KeyWrite(initid, "sd") + KeyWrites(initid, ks[1..][1..][1..][1..][1..])))));
      KeyWrite(initid, "id") + (KeyWrite(initid, "name") + (KeyWrite(initid, "course") +
        (KeyWrite(initid, "cl") + (KeyWrite(initid, "sd") + (KeyWrite(initid, "ed") + [])))));
      { assert KeyWrite(initid, "ed") + [] == KeyWrite(initid, "ed"); }
      KeyWrite(initid, "id") + (KeyWrite(initid, "name") + (KeyWrite(initid, "course") +
        (KeyWrite(initid, "cl") + (KeyWrite(initid, "sd") + KeyWrite(initid, "ed")))));
    }
  }

  /** Different details have different slots. */
  lemma HeadingSlotsDiffer(a: string, b: string)
    requires HeadingSlot(a).Some? && a != b
    ensures HeadingSlot(b) != HeadingSlot(a)
  {
  }

  /** A slot whose key is absent, and every other paragraph, is left as it was. */
  lemma {:induction false} KeyWritesSkipAbsent(initid: map<string, string>, keys: seq<string>, p: Pos)
    requires forall k :: 0 <= k < |keys| ==> HeadingSlot(keys[k]).Some?
    requires forall k :: 0 <= k < |keys| && keys[k] in initid ==> HeadingSlot(keys[k]) != Some(p)
    ensures Untouched(KeyWrites(initid, keys), p)
  {
    if keys != [] {
      KeyWritesSkipAbsent(initid, keys[1..], p);
    }
  }

  lemma {:induction false} KeyWritesPlace(t: Table, initid: map<string, string>, keys: seq<string>, i: nat)
    requires forall k :: 0 <= k < |keys| ==> HeadingSlot(keys[k]).Some?
    requires forall m, n :: 0 <= m < n < |keys| ==> keys[m] != keys[n]
    requires i < |keys| && keys[i] in initid
    requires ApplyWrites(t, KeyWrites(initid, keys)).outcome == Done
    ensures var p := HeadingSlot(keys[i]).value;
            Addressable(t, p) && Has(ApplyWrites(t, KeyWrites(initid, keys)).table, p) &&
            Get(ApplyWrites(t, KeyWrites(initid, keys)).table, p) == Overwritten(Get(t, p), initid[keys[i]])
    decreases |keys|
  {
    if i == 0 {
      FirstKeyPlaced(t, initid, keys);
    } else {
      var first := KeyWrite(initid, keys[0]);
      var rest := KeyWrites(initid, keys[1..]);
      assert KeyWrites(initid, keys) == first + rest;
      ApplyWritesAppend(t, first, rest);
      var e := ApplyWrites(t, first);
      ApplyWritesDone(t, first);
      assert keys[1..][i - 1] == keys[i];
      KeyWritesPlace(e.table, initid, keys[1..], i - 1);
      FirstKeyMisses(t, initid, keys, i);
    }
  }

  /** The first key's write leaves the slot of a later, different key as it was. */
  lemma FirstKeyMisses(t: Table, initid: map<string, string>, keys: seq<string>, i: nat)
    requires forall k :: 0 <= k < |keys| ==> HeadingSlot(keys[k]).Some?
    requires 0 < i < |keys| && keys[0] != keys[i]
    ensures var p := HeadingSlot(keys[i]).value;
            var after := ApplyWrites(t, KeyWrite(initid, keys[0])).table;
            (Addressable(after, p) <==> Addressable(t, p)) &&
            (Has(t, p) ==> Has(after, p) && Get(after, p) == Get(t, p))
  {
    var p := HeadingSlot(keys[i]).value;
    var first := KeyWrite(initid, keys[0]);
    ApplyWritesShape(t, first);
    SameShapeAddresses(ApplyWrites(t, first).table, t, p);
    if keys[0] in initid {
      HeadingSlotsDiffer(keys[i], keys[0]);
    }
    if Has(t, p) {
      ApplyWritesFrame(t, first, p);
    }
  }

  /** The first key's detail, once written, is not touched by the later keys' writes. */
  lemma FirstKeyPlaced(t: Table, initid: map<string, string>, keys: seq<string>)
    requires forall k :: 0 <= k < |keys| ==> HeadingSlot(keys[k]).Some?
    requires forall m, n :: 0 <= m < n < |keys| ==> keys[m] != keys[n]
    requires |keys| >= 1 && keys[0] in initid
    requires ApplyWrites(t, KeyWrites(initid, keys)).outcome == Done
    ensures var p := HeadingSlot(keys[0]).value;
            Addressable(t, p) && Has(ApplyWrites(t, KeyWrites(initid, keys)).table, p) &&
            Get(ApplyWrites(t, KeyWrites(initid, keys)).table, p) == Overwritten(Get(t, p), initid[keys[0]])
  {
    var key := keys[0];
    var p := HeadingSlot(key).value;
    var w := Write(p, initid[key]);
    var rest := KeyWrites(initid, keys[1..]);
    assert KeyWrites(initid, keys) == [w] + rest;
    forall k | 0 <= k < |keys[1..]|
      ensures HeadingSlot(keys[1..][k]) != Some(p)
    {
      HeadingSlotsDiffer(key, keys[1..][k]);
    }
    KeyWritesSkipAbsent(initid, keys[1..], p);
    assert ([w] + rest)[1..] == rest;
    ApplyWritesDone(t, [w] + rest);
    FirstWritePlaced(t, [w] + rest);
  }

  /** Each detail `initid` has is written to its own slot of the heading table. */
  lemma WriteInitialPlaces(t: Table, initid: map<string, string>, key: string)
    requires HeadingSlot(key).Some? && key in initid
    requires ApplyWrites(t, InitialWrites(initid)).outcome == Done
    ensures var p := HeadingSlot(key).value;
            Addressable(t, p) && Has(ApplyWrites(t, InitialWrites(initid)).table, p) &&
            Get(ApplyWrites(t, InitialWrites(initid)).table, p) == Overwritten(Get(t, p), initid[key])
  {
    var i := if key == "id" then 0 else if key == "name" then 1 else if key == "course" then 2
             else if key == "cl" then 3 else if key == "sd" then 4 else 5;
    assert InitialKeys[i] == key;
    KeyWritesPlace(t, initid, InitialKeys, i);
  }

  /**
   * A paragraph that is no present detail's slot keeps its runs; in particular
   * an absent detail leaves its slot untouched. This holds even if a write raised.
   */
  lemma WriteInitialLeavesRest(t: Table, initid: map<string, string>, p: Pos)
    requires Has(t, p)
    requires forall key :: key in initid && HeadingSlot(key).Some? ==> HeadingSlot(key) != Some(p)
    ensures Has(ApplyWrites(t, InitialWrites(initid)).table, p)
    ensures Get(ApplyWrites(t, InitialWrites(initid)).table, p) == Get(t, p)
  {
    KeyWritesSkipAbsent(initid, InitialKeys, p);
    ApplyWritesFrame(t, InitialWrites(initid), p);
  }

  // ---------------------------------------------------------------------------
  // Where writedates puts the date of each week

  /** The marks-table row of the date of week `i` (from 0): past week 5 it skips the break row 6. */
  function DateRow(i: nat): nat {
    if i < 5 then i + 1 else i + 2
  }

  /** The overwrites writedates makes, one per date, in order. */
  function DateWrites(dates: seq<string>): seq<Write> {
    seq(|dates|, i requires 0 <= i < |dates| => Write(Pos(DateRow(i), 1, 0), dates[i]))
  }

  /** writedates: the first ten dates in order; an IndexError if there are fewer. */
  function DatesEffect(t: Table, dates: seq<string>): Effect {
    var n := if |dates| < 10 then |dates| else 10;
    var e := ApplyWrites(t, DateWrites(dates[..n]));
    if e.outcome.Raised? || n == 10 then e
    else Effect(e.table, Raised(NoSuchDate(n)))
  }

  lemma DateWritesDistinct(dates: seq<string>)
    ensures DistinctTargets(DateWrites(dates))
  {
  }

  /**
   * writedates goes through exactly when there are at least ten dates and
   * column 1 of rows 1-5 and 7-11 each has a first paragraph with a run.
   */
  lemma DatesDone(t: Table, dates: seq<string>)
    ensures DatesEffect(t, dates).outcome == Done <==>
            |dates| >= 10 && forall i :: 0 <= i < 10 ==> Addressable(t, Pos(DateRow(i), 1, 0))
  {
    var n := if |dates| < 10 then |dates| else 10;
    ApplyWritesDone(t, DateWrites(dates[..n]));
    if |dates| >= 10 && DatesEffect(t, dates).outcome == Done {
      forall i | 0 <= i < 10 ensures Addressable(t, Pos(DateRow(i), 1, 0)) {
        assert DateWrites(dates[..n])[i].at == Pos(DateRow(i), 1, 0);
      }
    }
  }

  /** Week i's date goes to row i+1 for the first five weeks and row i+2 after the break. */
  lemma DatesPlaced(t: Table, dates: seq<string>, i: nat)
    requires DatesEffect(t, dates).outcome == Done && i < 10
    ensures |dates| >= 10
    ensures i < 5 ==> Addressable(t, Pos(i + 1, 1, 0)) &&
                      Has(DatesEffect(t, dates).table, Pos(i + 1, 1, 0)) &&
                      Get(DatesEffect(t, dates).table, Pos(i + 1, 1, 0))
                      == Overwritten(Get(t, Pos(i + 1, 1, 0)), dates[i])
    ensures 5 <= i ==> Addressable(t, Pos(i + 2, 1, 0)) &&
                       Has(DatesEffect(t, dates).table, Pos(i + 2, 1, 0)) &&
                       Get(DatesEffect(t, dates).table, Pos(i + 2, 1, 0))
                       == Overwritten(Get(t, Pos(i + 2, 1, 0)), dates[i])
  {
    DatesDone(t, dates);
    var ws := DateWrites(dates[..10]);
    DateWritesDistinct(dates[..10]);
    ApplyWritesPlaces(t, ws, i);
  }

  /**
   * Row 0, the break row 6, the rows past 11, every column but 1 and every
   * paragraph but the first are never written, whatever writedates raises.
   */
  lemma DatesLeaveRest(t: Table, dates: seq<string>, p: Pos)
    requires Has(t, p)
    requires p.row == 0 || p.row == 6 || p.row > 11 || p.col != 1 || p.par != 0
    ensures Has(DatesEffect(t, dates).table, p)
    ensures Get(DatesEffect(t, dates).table, p) == Get(t, p)
  {
    var n := if |dates| < 10 then |dates| else 10;
    ApplyWritesFrame(t, DateWrites(dates[..n]), p);
  }

  // ---------------------------------------------------------------------------
  // Where writemarks puts the marks

  /** The marks-table row of week `firstweek`: past week 5 it skips the break row 6. */
  function StartRow(firstweek: nat): nat {
    if firstweek <= 5 then firstweek else firstweek + 1
  }

  /** Where mark `j` of grid row `i` goes when the grid starts at table row `start`: columns 0 and 1 are skipped. */
  function MarkPos(start: nat, i: nat, j: nat): Pos {
    Pos(start + i, j + 2, 0)
  }

  /** The overwrites for grid row `i`, from column 2 on. */
  function RowWrites(start: nat, i: nat, cells: seq<string>): seq<Write> {
    seq(|cells|, j requires 0 <= j < |cells| => Write(MarkPos(start, i, j), cells[j]))
  }

  /** The overwrites for a grid of marks whose first row goes to table row `start`, row by row. */
  function GridWrites(start: nat, grid: seq<seq<string>>): seq<Write>
    decreases |grid|
  {
    if grid == [] then []
    else GridWrites(start, grid[..|grid| - 1]) + RowWrites(start, |grid| - 1, grid[|grid| - 1])
  }

  /** writemarks: the grid's overwrites row by row from the row of week `firstweek`, stopping at the first that raises. */
  function MarksEffect(t: Table, firstweek: nat, grid: seq<seq<string>>): Effect {
    ApplyWrites(t, GridWrites(StartRow(firstweek), grid))
  }

  /** `w` puts some mark (i, j) of the grid at MarkPos(start, i, j). */
  ghost predicate IsMarkWrite(start: nat, grid: seq<seq<string>>, w: Write) {
    exists i, j :: 0 <= i < |grid| && 0 <= j < |grid[i]| && w == Write(MarkPos(start, i, j), grid[i][j])
  }

  /** Every overwrite for the grid puts a mark in its place, and every mark has one. */
  lemma {:induction false} GridWritesAre(start: nat, grid: seq<seq<string>>)
    ensures forall n :: 0 <= n < |GridWrites(start, grid)| ==>
              IsMarkWrite(start, grid, GridWrites(start, grid)[n])
    ensures forall i, j :: 0 <= i < |grid| && 0 <= j < |grid[i]| ==>
              Write(MarkPos(start, i, j), grid[i][j]) in GridWrites(start, grid)
    decreases |grid|
  {
    if grid != [] {
      var init := grid[..|grid| - 1];
      var last := |grid| - 1;
      GridWritesAre(start, init);
      var ws := GridWrites(start, grid);
      var a := GridWrites(start, init);
      var b := RowWrites(start, last, grid[last]);
      assert ws == a + b;
      forall n | 0 <= n < |ws|
        ensures IsMarkWrite(start, grid, ws[n])
      {
        if n < |a| {
          assert IsMarkWrite(start, init, a[n]);
          var i, j :| 0 <= i < |init| && 0 <= j < |init[i]| &&
                      a[n] == Write(MarkPos(start, i, j), init[i][j]);
          assert init[i] == grid[i];
          assert ws[n] == Write(MarkPos(start, i, j), grid[i][j]);
        } else {
          var j := n - |a|;
          assert ws[n] == b[j] == Write(MarkPos(start, last, j), grid[last][j]);
        }
      }
      forall i, j | 0 <= i < |grid| && 0 <= j < |grid[i]|
        ensures Write(MarkPos(start, i, j), grid[i][j]) in ws
      {
        if i < last {
          assert init[i] == grid[i];
          assert Write(MarkPos(start, i, j), init[i][j]) in a;
        } else {
          assert b[j] == Write(MarkPos(start, i, j), grid[i][j]);
        }
      }
    }
  }

  lemma {:induction false} GridWritesDistinct(start: nat, grid: seq<seq<string>>)
    ensures DistinctTargets(GridWrites(start, grid))
    decreases |grid|
  {
    if grid != [] {
      var init := grid[..|grid| - 1];
      var last := |grid| - 1;
      GridWritesDistinct(start, init);
      GridWritesAre(start, init);
      var a := GridWrites(start, init);
      var b := RowWrites(start, last, grid[last]);
      var ws := a + b;
      forall m, n | 0 <= m < n < |ws|
        ensures ws[m].at != ws[n].at
      {
        if n >= |a| && m < |a| {
          assert IsMarkWrite(start, init, a[m]);
          var i, j :| 0 <= i < |init| && 0 <= j < |init[i]| &&
                      a[m] == Write(MarkPos(start, i, j), init[i][j]);
          assert ws[m].at.row < start + last == ws[n].at.row;
        }
      }
    }
  }

  /** Mark (i, j) goes to row StartRow(firstweek)+i, column j+2, first paragraph. */
  lemma MarksPlaced(t: Table, firstweek: nat, grid: seq<seq<string>>, i: nat, j: nat)
    requires MarksEffect(t, firstweek, grid).outcome == Done
    requires i < |grid| && j < |grid[i]|
    ensures var p := Pos(StartRow(firstweek) + i, j + 2, 0);
            Addressable(t, p) && Has(MarksEffect(t, firstweek, grid).table, p) &&
            Get(MarksEffect(t, firstweek, grid).table, p) == Overwritten(Get(t, p), grid[i][j])
  {
    var start := StartRow(firstweek);
    var ws := GridWrites(start, grid);
    GridWritesAre(start, grid);
    GridWritesDistinct(start, grid);
    assert Write(MarkPos(start, i, j), grid[i][j]) in ws;
    var n :| 0 <= n < |ws| && ws[n] == Write(MarkPos(start, i, j), grid[i][j]);
    ApplyWritesPlaces(t, ws, n);
  }

  /**
   * Columns 0 and 1, paragraphs other than the first, and the rows outside the
   * grid's span are never written, whatever writemarks raises.
   */
  lemma MarksLeaveRest(t: Table, firstweek: nat, grid: seq<seq<string>>, p: Pos)
    requires Has(t, p)
    requires p.col < 2 || p.par != 0 || p.row < StartRow(firstweek) ||
             p.row >= StartRow(firstweek) + |grid|
    ensures Has(MarksEffect(t, firstweek, grid).table, p)
    ensures Get(MarksEffect(t, firstweek, grid).table, p) == Get(t, p)
  {
    MarksLeaveOthers(t, firstweek, grid, p);
  }

  /**
   * Every paragraph that is no mark's target keeps its runs, whatever
   * writemarks raises; this includes the cells past a short row of a ragged grid.
   */
  lemma MarksLeaveOthers(t: Table, firstweek: nat, grid: seq<seq<string>>, p: Pos)
    requires Has(t, p)
    requires forall i, j :: 0 <= i < |grid| && 0 <= j < |grid[i]| ==> MarkPos(StartRow(firstweek), i, j) != p
    ensures Has(MarksEffect(t, firstweek, grid).table, p)
    ensures Get(MarksEffect(t, firstweek, grid).table, p) == Get(t, p)
  {
    var start := StartRow(firstweek);
    var ws := GridWrites(start, grid);
    GridWritesAre(start, grid);
    forall n | 0 <= n < |ws| ensures ws[n].at != p {
      assert IsMarkWrite(start, grid, ws[n]);
      var i, j :| 0 <= i < |grid| && 0 <= j < |grid[i]| &&
                  ws[n] == Write(MarkPos(start, i, j), grid[i][j]);
    }
    ApplyWritesFrame(t, ws, p);
  }

  /** writemarks goes through exactly when every mark's paragraph exists and has a run. */
  lemma MarksDone(t: Table, firstweek: nat, grid: seq<seq<string>>)
    ensures MarksEffect(t, firstweek, grid).outcome == Done <==>
            forall i, j :: 0 <= i < |grid| && 0 <= j < |grid[i]| ==>
              Addressable(t, MarkPos(StartRow(firstweek), i, j))
  {
    var start := StartRow(firstweek);
    var ws := GridWrites(start, grid);
    GridWritesAre(start, grid);
    ApplyWritesDone(t, ws);
    if forall i, j :: 0 <= i < |grid| && 0 <= j < |grid[i]| ==> Addressable(t, MarkPos(start, i, j)) {
      forall n | 0 <= n < |ws| ensures Addressable(t, ws[n].at) {
        assert IsMarkWrite(start, grid, ws[n]);
        var i, j :| 0 <= i < |grid| && 0 <= j < |grid[i]| &&
                    ws[n] == Write(MarkPos(start, i, j), grid[i][j]);
      }
    }
    if MarksEffect(t, firstweek, grid).outcome == Done {
      forall i, j | 0 <= i < |grid| && 0 <= j < |grid[i]|
        ensures Addressable(t, MarkPos(start, i, j))
      {
        var w := Write(MarkPos(start, i, j), grid[i][j]);
        assert w in ws;
        var n :| 0 <= n < |ws| && ws[n] == w;
      }
    }
  }

  /**
   * The first mark goes to the row that holds the date of week `firstweek`
   * (weeks count from 1). Later grid rows go to the rows below it one by one,
   * so a grid that starts before the break row crosses it.
   */
  lemma {:induction false} MarksStartAtWeekRow(firstweek: nat, grid: seq<seq<string>>)
    requires 1 <= firstweek <= 10
    requires |grid| >= 1 && |grid[0]| >= 1
    ensures StartRow(firstweek) == DateRow(firstweek - 1)
    ensures |GridWrites(StartRow(firstweek), grid)| >= 1
    ensures GridWrites(StartRow(firstweek), grid)[0].at.row == StartRow(firstweek)
    decreases |grid|
  {
    var start := StartRow(firstweek);
    if |grid| == 1 {
      assert GridWrites(start, grid) == GridWrites(start, []) + RowWrites(start, 0, grid[0]);
    } else {
      var init := grid[..|grid| - 1];
      assert init[0] == grid[0];
      MarksStartAtWeekRow(firstweek, init);
      assert GridWrites(start, grid) == GridWrites(start, init) + RowWrites(start, |grid| - 1, grid[|grid| - 1]);
    }
  }

  /** writeinitial's six steps, each going on only if the ones before went through. */
  lemma InitialWritesChain(t: Table, initid: map<string, string>)
    ensures ApplyWrites(t, InitialWrites(initid)) ==
            Then(Then(Then(Then(Then(ApplyWrites(t, KeyWrite(initid, "id")),
              KeyWrite(initid, "name")), KeyWrite(initid, "course")), KeyWrite(initid, "cl")),
              KeyWrite(initid, "sd")), KeyWrite(initid, "ed"))
  {
    InitialWritesInOrder(initid);
    var k1, k2, k3 := KeyWrite(initid, "id"), KeyWrite(initid, "name"), KeyWrite(initid, "course");
    var k4, k5, k6 := KeyWrite(initid, "cl"), KeyWrite(initid, "sd"), KeyWrite(initid, "ed");
    ApplyWritesAppend(t, k1, k2 + (k3 + (k4 + (k5 + k6))));
    var e1 := ApplyWrites(t, k1);
    ThenAppend(e1, k2, k3 + (k4 + (k5 + k6)));
    ThenAppend(Then(e1, k2), k3, k4 + (k5 + k6));
    ThenAppend(Then(Then(e1, k2), k3), k4, k5 + k6);
    ThenAppend(Then(Then(Then(e1, k2), k3), k4), k5, k6);
  }

  lemma ThenAppend(e: Effect, a: seq<Write>, b: seq<Write>)
    ensures Then(e, a + b) == Then(Then(e, a), b)
  {
    if e.outcome == Done {
      ApplyWritesAppend(e.table, a, b);
    }
  }

  /**
   * Extending writes that have gone through so far continues from the table
   * they left: ApplyWritesAppend with the `Then` already resolved, which is
   * the form the loops of writedates and writemarks need.
   */
  lemma Extend(t0: Table, done: seq<Write>, next: seq<Write>, now: Table)
    requires ApplyWrites(t0, done) == Effect(now, Done)
    ensures ApplyWrites(t0, done + next) == ApplyWrites(now, next)
  {
    ApplyWritesAppend(t0, done, next);
  }

  lemma {:induction false} DateWritesPrefix(dates: seq<string>, k: nat, n: nat)
    requires k <= n <= |dates|
    ensures DateWrites(dates[..k]) <= DateWrites(dates[..n])
  {
    assert DateWrites(dates[..n])[..k] == DateWrites(dates[..k]);
  }

  lemma {:induction false} RowWritesPrefix(start: nat, i: nat, cells: seq<string>, j: nat)
    requires j <= |cells|
    ensures RowWrites(start, i, cells[..j]) <= RowWrites(start, i, cells)
  {
    assert RowWrites(start, i, cells)[..j] == RowWrites(start, i, cells[..j]);
  }

  lemma GridWritesNext(start: nat, grid: seq<seq<string>>, i: nat)
    requires i < |grid|
    ensures GridWrites(start, grid[..i + 1]) == GridWrites(start, grid[..i]) + RowWrites(start, i, grid[i])
  {
    assert grid[..i + 1][..i] == grid[..i];
  }

  lemma {:induction false} GridWritesPrefix(start: nat, grid: seq<seq<string>>, i: nat)
    requires i <= |grid|
    ensures GridWrites(start, grid[..i]) <= GridWrites(start, grid)
    decreases |grid| - i
  {
    if i < |grid| {
      GridWritesPrefix(start, grid, i + 1);
      GridWritesNext(start, grid, i);
    } else {
      assert grid[..i] == grid;
    }
  }

  // ---------------------------------------------------------------------------
  // The writer

  /** Overwrite a paragraph's runs: `text` into the first, every later one cleared. */
  method OverwriteRuns(runs: Paragraph, text: string) returns (result: Paragraph)
    requires |runs| >= 1
    ensures result == Overwritten(runs, text)
  {
    var runstocount := |runs|;
    result := runs[0 := text];
    for i := 0 to runstocount - 1
      invariant |result| == runstocount && result[0] == text
      invariant forall k :: 1 <= k <= i ==> result[k] == ""
    {
      result := result[i + 1 := ""];
    }
  }

  /** A report being filled in from a template's heading table and marks table. */
  class ReportWriter {
    var heading: Table
    var marks: Table

    /** Start from the first two tables of a template document. */
    constructor (heading: Table, marks: Table)
      ensures this.heading == heading && this.marks == marks
    {
      this.heading := heading;
      this.marks := marks;
    }

    /**
     * Overwrite paragraph `parnum` of heading cell (`row`, `col`) with `text`;
     * IndexError, and no change, if that paragraph or its first run is missing.
     */
    method AssignTextToHeading(row: nat, col: nat, parnum: nat, text: string) returns (outcome: Outcome)
      modifies this`heading
      ensures Effect(heading, outcome) == ApplyWrites(old(heading), [Write(Pos(row, col, parnum), text)])
    {
      var at := Pos(row, col, parnum);
      if !Addressable(heading, at) {
        outcome := Raised(Fault(heading, at));
        return;
      }
      var runs := OverwriteRuns(heading[row][col][parnum], text);
      heading := heading[row := heading[row][col := heading[row][col][parnum := runs]]];
      outcome := Done;
    }

    /** The same overwrite on the marks table. */
    method AssignTextToMarks(row: nat, col: nat, parnum: nat, text: string) returns (outcome: Outcome)
      modifies this`marks
      ensures Effect(marks, outcome) == ApplyWrites(old(marks), [Write(Pos(row, col, parnum), text)])
    {
      var at := Pos(row, col, parnum);
      if !Addressable(marks, at) {
        outcome := Raised(Fault(marks, at));
        return;
      }
      var runs := OverwriteRuns(marks[row][col][parnum], text);
      marks := marks[row := marks[row][col := marks[row][col][parnum := runs]]];
      outcome := Done;
    }

    /** One `if initid.has_key(key)` step of writeinitial: the detail goes to its paragraph. */
    method AssignDetail(initid: map<string, string>, key: string, row: nat, col: nat, parnum: nat)
      returns (outcome: Outcome)
      requires HeadingSlot(key) == Some(Pos(row, col, parnum))
      modifies this`heading
      ensures Effect(heading, outcome) == ApplyWrites(old(heading), KeyWrite(initid, key))
    {
      outcome := Done;
      if key in initid {
        outcome := AssignTextToHeading(row, col, parnum, initid[key]);
      }
    }

    /** Write the details `initid` has (id, name, course, cl, sd, ed) to their heading slots. */
    method WriteInitial(initid: map<string, string>) returns (outcome: Outcome)
      modifies this`heading
      ensures Effect(heading, outcome) == ApplyWrites(old(heading), InitialWrites(initid))
    {
      InitialWritesChain(heading, initid);
      HeadingSlots();

      outcome := AssignDetail(initid, "id", 0, 0, 2);
      if outcome.Raised? {
        return;
      }

      outcome := AssignDetail(initid, "name", 0, 1, 2);
      if outcome.Raised? {
        return;
      }

      outcome := AssignDetail(initid, "course", 0, 2, 1);
      if outcome.Raised? {
        return;
      }

      outcome := AssignDetail(initid, "cl", 1, 2, 1);
      if outcome.Raised? {
        return;
      }

      outcome := AssignDetail(initid, "sd", 0, 3, 2);
      if outcome.Raised? {
        return;
      }

      outcome := AssignDetail(initid, "ed", 0, 4, 2);
    }

    /** Write the starting date of each of the ten weeks to column 1 of its row. */
    method WriteDates(weekdates: seq<string>) returns (outcome: Outcome)
      modifies this`marks
      ensures Effect(marks, outcome) == DatesEffect(old(marks), weekdates)
    {
      ghost var t0 := marks;
      outcome := Done;
      for i := 0 to 5
        invariant i <= |weekdates| && outcome == Done
        invariant ApplyWrites(t0, DateWrites(weekdates[..i])) == Effect(marks, Done)
      {
        if i >= |weekdates| {
          DatesShort(t0, weekdates, marks);
          outcome := Raised(NoSuchDate(i));
          return;
        }
        ghost var now := marks;
        outcome := AssignTextToMarks(i + 1, 1, 0, weekdates[i]);
        DateStep(t0, weekdates, i, now, Effect(marks, outcome));
        if outcome.Raised? {
          return;
        }
      }
      for i := 0 to 5
        invariant 5 + i <= |weekdates| && outcome == Done
        invariant ApplyWrites(t0, DateWrites(weekdates[..5 + i])) == Effect(marks, Done)
      {
        if 5 + i >= |weekdates| {
          DatesShort(t0, weekdates, marks);
          outcome := Raised(NoSuchDate(5 + i));
          return;
        }
        ghost var now := marks;
        outcome := AssignTextToMarks(i + 7, 1, 0, weekdates[5 + i]);
        DateStep(t0, weekdates, 5 + i, now, Effect(marks, outcome));
        if outcome.Raised? {
          return;
        }
      }
      DatesFull(t0, weekdates);
    }

    /**
     * Write the grid of marks, row i of it to table row StartRow(firstweek)+i
     * (a grid that crosses the break row writes a row of marks on row 6) and
     * mark j of a row to column j+2. The count of weeks worked out from
     * `lastweek` goes unused, so `lastweek` has no effect.
     */
    method WriteMarks(firstweek: nat, lastweek: int, grid: seq<seq<string>>) returns (outcome: Outcome)
      modifies this`marks
      ensures Effect(marks, outcome) == MarksEffect(old(marks), firstweek, grid)
    {
      ghost var t0 := marks;
      var numweeks := lastweek - firstweek + 1;
      if firstweek <= 5 && lastweek >= 5 {
        numweeks := numweeks + 1;
      }
      if lastweek == 10 {
        numweeks := numweeks + 1;
      }
      var startindex;
      if firstweek <= 5 {
        startindex := firstweek;
      } else {
        startindex := firstweek + 1;
      }
      assert startindex == StartRow(firstweek);
      outcome := Done;
      for i := 0 to |grid|
        invariant outcome == Done
        invariant ApplyWrites(t0, GridWrites(startindex, grid[..i])) == Effect(marks, Done)
      {
        ghost var done := GridWrites(startindex, grid[..i]);
        assert done + RowWrites(startindex, i, grid[i][..0]) == done;
        for j := 0 to |grid[i]|
          invariant outcome == Done
          invariant done == GridWrites(startindex, grid[..i]) + RowWrites(startindex, i, grid[i][..j])
          invariant ApplyWrites(t0, done) == Effect(marks, Done)
        {
          ghost var now := marks;
          ghost var w := Write(MarkPos(startindex, i, j), grid[i][j]);
          assert w == Write(Pos(startindex + i, j + 2, 0), grid[i][j]);
          outcome := AssignTextToMarks(startindex + i, j + 2, 0, grid[i][j]);
          MarkStep(t0, startindex, grid, i, j, done, now, Effect(marks, outcome));
          done := done + [w];
          if outcome.Raised? {
            return;
          }
        }
        assert grid[i][..|grid[i]|] == grid[i];
        GridWritesNext(startindex, grid, i);
      }
      assert grid[..|grid|] == grid;
    }
  }

  /** One write of writedates, after the dates before it went through. */
  lemma DateStep(t0: Table, dates: seq<string>, k: nat, now: Table, after: Effect)
    requires k < 10 && k < |dates|
    requires ApplyWrites(t0, DateWrites(dates[..k])) == Effect(now, Done)
    requires after == ApplyWrites(now, [Write(Pos(DateRow(k), 1, 0), dates[k])])
    ensures after.outcome == Done ==> ApplyWrites(t0, DateWrites(dates[..k + 1])) == after
    ensures after.outcome.Raised? ==> DatesEffect(t0, dates) == after
  {
    var w := Write(Pos(DateRow(k), 1, 0), dates[k]);
    assert DateWrites(dates[..k + 1]) == DateWrites(dates[..k]) + [w];
    Extend(t0, DateWrites(dates[..k]), [w], now);
    if after.outcome.Raised? {
      DatesStop(t0, dates, k + 1);
    }
  }

  /** writedates runs out of dates after writing all it was given. */
  lemma DatesShort(t0: Table, dates: seq<string>, now: Table)
    requires |dates| < 10 && ApplyWrites(t0, DateWrites(dates[..|dates|])) == Effect(now, Done)
    ensures DatesEffect(t0, dates) == Effect(now, Raised(NoSuchDate(|dates|)))
  {
  }

  lemma DatesFull(t0: Table, dates: seq<string>)
    requires |dates| >= 10 && ApplyWrites(t0, DateWrites(dates[..10])).outcome == Done
    ensures DatesEffect(t0, dates) == ApplyWrites(t0, DateWrites(dates[..10]))
  {
  }

  /** One write of writemarks, after the marks before it went through. */
  lemma MarkStep(t0: Table, start: nat, grid: seq<seq<string>>, i: nat, j: nat, done: seq<Write>,
                 now: Table, after: Effect)
    requires i < |grid| && j < |grid[i]|
    requires done == GridWrites(start, grid[..i]) + RowWrites(start, i, grid[i][..j])
    requires ApplyWrites(t0, done) == Effect(now, Done)
    requires after == ApplyWrites(now, [Write(MarkPos(start, i, j), grid[i][j])])
    ensures done + [Write(MarkPos(start, i, j), grid[i][j])] ==
            GridWrites(start, grid[..i]) + RowWrites(start, i, grid[i][..j + 1])
    ensures ApplyWrites(t0, done + [Write(MarkPos(start, i, j), grid[i][j])]) == after
    ensures after.outcome.Raised? ==> ApplyWrites(t0, GridWrites(start, grid)) == after
  {
    var w := Write(MarkPos(start, i, j), grid[i][j]);
    Extend(t0, done, [w], now);
    MarksNext(start, grid, i, j, done);
    if after.outcome.Raised? {
      MarksStop(t0, start, grid, i, j + 1);
    }
  }

  lemma MarksNext(start: nat, grid: seq<seq<string>>, i: nat, j: nat, done: seq<Write>)
    requires i < |grid| && j < |grid[i]|
    requires done == GridWrites(start, grid[..i]) + RowWrites(start, i, grid[i][..j])
    ensures done + [Write(MarkPos(start, i, j), grid[i][j])] ==
            GridWrites(start, grid[..i]) + RowWrites(start, i, grid[i][..j + 1])
  {
    assert RowWrites(start, i, grid[i][..j + 1]) ==
           RowWrites(start, i, grid[i][..j]) + [Write(MarkPos(start, i, j), grid[i][j])];
  }

  /** writedates stops at a write that raised: the later dates are never written. */
  lemma DatesStop(t0: Table, dates: seq<string>, k: nat)
    requires k <= 10 && k <= |dates|
    requires ApplyWrites(t0, DateWrites(dates[..k])).outcome.Raised?
    ensures DatesEffect(t0, dates) == ApplyWrites(t0, DateWrites(dates[..k]))
  {
    var n := if |dates| < 10 then |dates| else 10;
    DateWritesPrefix(dates, k, n);
    RaisedPrefixDecides(t0, DateWrites(dates[..k]), DateWrites(dates[..n]));
  }

  /** writemarks stops at a write that raised: the later marks are never written. */
  lemma MarksStop(t0: Table, start: nat, grid: seq<seq<string>>, i: nat, j: nat)
    requires i < |grid| && j <= |grid[i]|
    requires ApplyWrites(t0, GridWrites(start, grid[..i]) + RowWrites(start, i, grid[i][..j])).outcome.Raised?
    ensures ApplyWrites(t0, GridWrites(start, grid)) ==
            ApplyWrites(t0, GridWrites(start, grid[..i]) + RowWrites(start, i, grid[i][..j]))
  {
    var a := GridWrites(start, grid[..i]);
    RowWritesPrefix(start, i, grid[i], j);
    GridWritesNext(start, grid, i);
    GridWritesPrefix(start, grid, i + 1);
    assert a + RowWrites(start, i, grid[i][..j]) <= a + RowWrites(start, i, grid[i]);
    RaisedPrefixDecides(t0, a + RowWrites(start, i, grid[i][..j]), GridWrites(start, grid));
  }
}
