/** Parsing of a hardware SKU's `port_config.ini` table into the two derived
    tables of the virtual-switch platform: the lane map (`eth<N>:<lane>`) and
    the core/port-index map (`eth<N>:<core>,<index>`). */
module PortConfig {
  import opened Text

  /** One `lanemap.ini` record: interface number and lane (field 1 of its row). */
  datatype LaneEntry = LaneEntry(index: nat, lane: string)

  /** One `coreportindexmap.ini` record: interface number, core (field 7) and
      port index (field 8). */
  datatype CoreEntry = CoreEntry(index: nat, core: string, portIndex: string)

  /** What one pass over a table yields: both record lists, in row order, and
      the interface counter after the last data row. */
  datatype Parsed = Parsed(lanes: seq<LaneEntry>, cores: seq<CoreEntry>, next: nat)

  /** The synthesised interface name `eth<i>`. */
  function EthName(i: nat): string
  {
    "eth" + NatToString(i)
  }

  /** The text of a lane-map record, without its newline. */
  function LaneLine(e: LaneEntry): string
  {
    EthName(e.index) + ":" + e.lane
  }

  /** The text of a core-map record, without its newline. */
  function CoreLine(e: CoreEntry): string
  {
    EthName(e.index) + ":" + e.core + "," + e.portIndex
  }

  /** Distinct interface numbers give distinct interface names. */
  lemma EthNamesDistinct(i: nat, j: nat)
    requires i != j
    ensures EthName(i) != EthName(j)
  {
    if EthName(i) == EthName(j) {
      assert NatToString(i) == EthName(i)[3..];
      assert NatToString(j) == EthName(j)[3..];
      ParseNatToString(i);
      ParseNatToString(j);
    }
  }

  /** A row the parser skips: blank, or starting with `#`, once stripped. */
  predicate IsSkipped(line: string)
  {
    var t := Strip(line);
    t == [] || t[0] == '#'
  }

  /** The fields of the table's data rows, in file order. */
  function DataRows(lines: seq<string>): (rows: seq<seq<string>>)
    ensures |rows| <= |lines|
  {
    if lines == [] then []
    else
      var last := lines[|lines| - 1];
      DataRows(lines[..|lines| - 1]) + (if IsSkipped(last) then [] else [Fields(Strip(last))])
  }

  /** A line that is empty once stripped. */
  predicate IsBlank(line: string)
  {
    Strip(line) == []
  }

  /** The stripped text of the last non-blank line among `lines[..k]`, or ""
      when there is none; a comment line counts. */
  function LastNonBlankBefore(lines: seq<string>, k: nat): string
    requires k <= |lines|
  {
    if k == 0 then []
    else if !IsBlank(lines[k - 1]) then Strip(lines[k - 1])
    else LastNonBlankBefore(lines, k - 1)
  }

  /** The line the column count is taken from is the last one that is not
      blank, whatever it holds, and there is none only when every line is
      blank. */
  lemma {:induction false} LastNonBlankSpec(lines: seq<string>, k: nat)
    requires k <= |lines|
    ensures LastNonBlankBefore(lines, k) == [] <==> forall j :: 0 <= j < k ==> IsBlank(lines[j])
    ensures LastNonBlankBefore(lines, k) != [] ==>
              exists j :: 0 <= j < k && LastNonBlankBefore(lines, k) == Strip(lines[j])
                          && forall m :: j < m < k ==> IsBlank(lines[m])
  {
    if k > 0 {
      if IsBlank(lines[k - 1]) {
        LastNonBlankSpec(lines, k - 1);
      } else {
        assert LastNonBlankBefore(lines, k) == Strip(lines[k - 1]);
      }
    }
  }

  /** The table's column count: the number of fields of its last non-blank line. */
  function ColumnCount(lines: seq<string>): nat
  {
    |Fields(LastNonBlankBefore(lines, |lines|))|
  }

  /** A data row that gets a lane record: it has a second field. */
  predicate HasLane(cols: seq<string>)
  {
    |cols| >= 2
  }

  /** A data row that gets a core record: both it and the table have at
      least nine columns. */
  predicate HasCore(cols: seq<string>, numColumns: nat)
  {
    numColumns >= 9 && |cols| >= 9
  }

  /** The lane record a data row with fields `cols` contributes when it is
      interface `i`. */
  function RowLanes(cols: seq<string>, i: nat): seq<LaneEntry>
  {
    if HasLane(cols) then [LaneEntry(i, cols[1])] else []
  }

  /** The core record a data row with fields `cols` contributes when it is
      interface `i`. */
  function RowCores(cols: seq<string>, numColumns: nat, i: nat): seq<CoreEntry>
  {
    if HasCore(cols, numColumns) then [CoreEntry(i, cols[7], cols[8])] else []
  }

  /** The effect of one data row, with fields `cols`, on the records and the
      counter: the row becomes the next interface. */
  function NumberRow(p: Parsed, numColumns: nat, cols: seq<string>): Parsed
  {
    var i := p.next + 1;
    Parsed(p.lanes + RowLanes(cols, i), p.cores + RowCores(cols, numColumns, i), i)
  }

  /** The data rows numbered in file order from counter `start`. */
  function NumberRows(rows: seq<seq<string>>, numColumns: nat, start: nat): Parsed
  {
    if rows == [] then Parsed([], [], start)
    else NumberRow(NumberRows(rows[..|rows| - 1], numColumns, start), numColumns, rows[|rows| - 1])
  }

  /** A whole table processed from counter `start`. */
  function Parse(lines: seq<string>, start: nat): Parsed
  {
    NumberRows(DataRows(lines), ColumnCount(lines), start)
  }

  /** Every lane record belongs to a data row with at least two fields,
      numbered by its position among the rows after `start`, and carries
      that row's second field. */
  ghost predicate LanesSound(lanes: seq<LaneEntry>, rows: seq<seq<string>>, start: nat)
  {
    forall j :: 0 <= j < |lanes| ==>
      start < lanes[j].index <= start + |rows|
      && var cols := rows[lanes[j].index - start - 1];
         |cols| >= 2 && lanes[j].lane == cols[1]
  }

  /** Every data row with at least two fields has a lane record. */
  ghost predicate LanesComplete(lanes: seq<LaneEntry>, rows: seq<seq<string>>, start: nat)
  {
    forall k {:trigger HasLane(rows[k])} :: 0 <= k < |rows| && HasLane(rows[k]) ==>
      exists j :: 0 <= j < |lanes| && lanes[j].index == start + k + 1
  }

  /** The lane records are in strictly increasing interface order. */
  ghost predicate LanesIncreasing(lanes: seq<LaneEntry>)
  {
    forall j, m :: 0 <= j < m < |lanes| ==> lanes[j].index < lanes[m].index
  }

  /** Every core record belongs to a data row with at least nine fields in a
      table of at least nine columns, and carries that row's fields 7 and 8. */
  ghost predicate CoresSound(cores: seq<CoreEntry>, rows: seq<seq<string>>, numColumns: nat, start: nat)
  {
    forall j :: 0 <= j < |cores| ==>
      numColumns >= 9 && start < cores[j].index <= start + |rows|
      && var cols := rows[cores[j].index - start - 1];
         |cols| >= 9 && cores[j].core == cols[7] && cores[j].portIndex == cols[8]
  }

  /** Every data row with at least nine fields has a core record when the
      table has at least nine columns. */
  ghost predicate CoresComplete(cores: seq<CoreEntry>, rows: seq<seq<string>>, numColumns: nat, start: nat)
  {
    forall k {:trigger HasCore(rows[k], numColumns)} :: 0 <= k < |rows| && HasCore(rows[k], numColumns) ==>
      exists j :: 0 <= j < |cores| && cores[j].index == start + k + 1
  }

  /** The core records are in strictly increasing interface order. */
  ghost predicate CoresIncreasing(cores: seq<CoreEntry>)
  {
    forall j, m :: 0 <= j < m < |cores| ==> cores[j].index < cores[m].index
  }

  /** Comment and blank rows never advance the counter: it ends at `start`
      plus the number of data rows. */
  lemma {:induction false} NumberRowsCounter(rows: seq<seq<string>>, numColumns: nat, start: nat)
    ensures NumberRows(rows, numColumns, start).next == start + |rows|
  {
    if rows != [] {
      NumberRowsCounter(rows[..|rows| - 1], numColumns, start);
    }
  }

  lemma LanesSoundExtend(lanes: seq<LaneEntry>, rows: seq<seq<string>>, start: nat, row: seq<string>)
    requires LanesSound(lanes, rows, start)
    ensures LanesSound(lanes + RowLanes(row, start + |rows| + 1), rows + [row], start)
  {
    var rows', lanes' := rows + [row], lanes + RowLanes(row, start + |rows| + 1);
    forall j | 0 <= j < |lanes'|
      ensures start < lanes'[j].index <= start + |rows'|
      ensures var c := rows'[lanes'[j].index - start - 1]; |c| >= 2 && lanes'[j].lane == c[1]
    {
      if j < |lanes| {
        assert lanes'[j] == lanes[j];
        assert rows'[lanes[j].index - start - 1] == rows[lanes[j].index - start - 1];
      }
    }
    assert forall j :: 0 <= j < |lanes'| ==>
      start < lanes'[j].index <= start + |rows'|
      && var c := rows'[lanes'[j].index - start - 1]; |c| >= 2 && lanes'[j].lane == c[1];
  }

  lemma LanesCompleteExtend(lanes: seq<LaneEntry>, rows: seq<seq<string>>, start: nat, row: seq<string>)
    requires LanesComplete(lanes, rows, start)
    ensures LanesComplete(lanes + RowLanes(row, start + |rows| + 1), rows + [row], start)
  {
    var rows', lanes' := rows + [row], lanes + RowLanes(row, start + |rows| + 1);
    forall k | 0 <= k < |rows'| && HasLane(rows'[k])
      ensures exists j :: 0 <= j < |lanes'| && lanes'[j].index == start + k + 1
    {
      if k < |rows| {
        assert rows'[k] == rows[k];
        var j :| 0 <= j < |lanes| && lanes[j].index == start + k + 1;
        assert lanes'[j] == lanes[j];
      } else {
        assert lanes'[|lanes|].index == start + k + 1;
      }
    }
  }

  lemma CoresSoundExtend(cores: seq<CoreEntry>, rows: seq<seq<string>>, numColumns: nat, start: nat, row: seq<string>)
    requires CoresSound(cores, rows, numColumns, start)
    ensures CoresSound(cores + RowCores(row, numColumns, start + |rows| + 1), rows + [row], numColumns, start)
  {
    var rows', cores' := rows + [row], cores + RowCores(row, numColumns, start + |rows| + 1);
    forall j | 0 <= j < |cores'|
      ensures numColumns >= 9 && start < cores'[j].index <= start + |rows'|
      ensures var c := rows'[cores'[j].index - start - 1];
              |c| >= 9 && cores'[j].core == c[7] && cores'[j].portIndex == c[8]
    {
      if j < |cores| {
        assert cores'[j] == cores[j];
        assert rows'[cores[j].index - start - 1] == rows[cores[j].index - start - 1];
      } else {
        assert HasCore(row, numColumns);
        assert rows'[|rows|] == row;
      }
    }
    assert forall j :: 0 <= j < |cores'| ==>
      numColumns >= 9 && start < cores'[j].index <= start + |rows'|
      && var c := rows'[cores'[j].index - start - 1]; |c| >= 9 && cores'[j].core == c[7] && cores'[j].portIndex == c[8];
  }

  lemma CoresCompleteExtend(cores: seq<CoreEntry>, rows: seq<seq<string>>, numColumns: nat, start: nat, row: seq<string>)
    requires CoresComplete(cores, rows, numColumns, start)
    ensures CoresComplete(cores + RowCores(row, numColumns, start + |rows| + 1), rows + [row], numColumns, start)
  {
    var rows', cores' := rows + [row], cores + RowCores(row, numColumns, start + |rows| + 1);
    forall k | 0 <= k < |rows'| && HasCore(rows'[k], numColumns)
      ensures exists j :: 0 <= j < |cores'| && cores'[j].index == start + k + 1
    {
      if k < |rows| {
        assert rows'[k] == rows[k];
        var j :| 0 <= j < |cores| && cores[j].index == start + k + 1;
        assert cores'[j] == cores[j];
      } else {
        assert cores'[|cores|].index == start + k + 1;
      }
    }
  }

  /** The records of a table are those of all rows but the last, then the
      last row's, numbered after them. */
  lemma NumberRowsLast(rows: seq<seq<string>>, numColumns: nat, start: nat)
    requires rows != []
    ensures var init, last := rows[..|rows| - 1], rows[|rows| - 1];
            && rows == init + [last]
            && NumberRows(rows, numColumns, start).lanes
               == NumberRows(init, numColumns, start).lanes + RowLanes(last, start + |init| + 1)
            && NumberRows(rows, numColumns, start).cores
               == NumberRows(init, numColumns, start).cores + RowCores(last, numColumns, start + |init| + 1)
  {
    NumberRowsCounter(rows[..|rows| - 1], numColumns, start);
  }

  /** Whether a table yields lane records does not depend on the counter it
      starts from. */
  lemma {:induction false} NumberRowsLanesEmpty(rows: seq<seq<string>>, numColumns: nat, a: nat, b: nat)
    ensures NumberRows(rows, numColumns, a).lanes == [] <==> NumberRows(rows, numColumns, b).lanes == []
  {
    if rows != [] {
      NumberRowsLast(rows, numColumns, a);
      NumberRowsLast(rows, numColumns, b);
      NumberRowsLanesEmpty(rows[..|rows| - 1], numColumns, a, b);
    }
  }

  /** Every lane record of a table comes from a data row with a second
      field and carries that field. */
  lemma {:induction false} NumberRowsLanesSound(rows: seq<seq<string>>, numColumns: nat, start: nat)
    ensures LanesSound(NumberRows(rows, numColumns, start).lanes, rows, start)
  {
    if rows != [] {
      var init := rows[..|rows| - 1];
      NumberRowsLanesSound(init, numColumns, start);
      NumberRowsLast(rows, numColumns, start);
      LanesSoundExtend(NumberRows(init, numColumns, start).lanes, init, start, rows[|rows| - 1]);
    }
  }

  /** Every data row with a second field gets a lane record. */
  lemma {:induction false} NumberRowsLanesComplete(rows: seq<seq<string>>, numColumns: nat, start: nat)
    ensures LanesComplete(NumberRows(rows, numColumns, start).lanes, rows, start)
  {
    if rows != [] {
      var init := rows[..|rows| - 1];
      NumberRowsLanesComplete(init, numColumns, start);
      NumberRowsLast(rows, numColumns, start);
      LanesCompleteExtend(NumberRows(init, numColumns, start).lanes, init, start, rows[|rows| - 1]);
    }
  }

  /** The lane records come out in strictly increasing interface order. */
  lemma {:induction false} NumberRowsLanesIncreasing(rows: seq<seq<string>>, numColumns: nat, start: nat)
    ensures LanesIncreasing(NumberRows(rows, numColumns, start).lanes)
  {
    if rows != [] {
      var init := rows[..|rows| - 1];
      NumberRowsLanesIncreasing(init, numColumns, start);
      NumberRowsLanesSound(init, numColumns, start);
      NumberRowsCounter(init, numColumns, start);
    }
  }

  /** Every core record of a table comes from a data row with nine fields in
      a table of nine columns and carries fields 7 and 8. */
  lemma {:induction false} NumberRowsCoresSound(rows: seq<seq<string>>, numColumns: nat, start: nat)
    ensures CoresSound(NumberRows(rows, numColumns, start).cores, rows, numColumns, start)
  {
    if rows != [] {
      var init := rows[..|rows| - 1];
      NumberRowsCoresSound(init, numColumns, start);
      NumberRowsLast(rows, numColumns, start);
      CoresSoundExtend(NumberRows(init, numColumns, start).cores, init, numColumns, start, rows[|rows| - 1]);
    }
  }

  /** Every data row with nine fields gets a core record when the table has
      nine columns. */
  lemma {:induction false} NumberRowsCoresComplete(rows: seq<seq<string>>, numColumns: nat, start: nat)
    ensures CoresComplete(NumberRows(rows, numColumns, start).cores, rows, numColumns, start)
  {
    if rows != [] {
      var init := rows[..|rows| - 1];
      NumberRowsCoresComplete(init, numColumns, start);
      NumberRowsLast(rows, numColumns, start);
      CoresCompleteExtend(NumberRows(init, numColumns, start).cores, init, numColumns, start, rows[|rows| - 1]);
    }
  }

  /** The core records come out in strictly increasing interface order. */
  lemma {:induction false} NumberRowsCoresIncreasing(rows: seq<seq<string>>, numColumns: nat, start: nat)
    ensures CoresIncreasing(NumberRows(rows, numColumns, start).cores)
  {
    if rows != [] {
      var init := rows[..|rows| - 1];
      NumberRowsCoresIncreasing(init, numColumns, start);
      NumberRowsCoresSound(init, numColumns, start);
      NumberRowsCounter(init, numColumns, start);
    }
  }

  /** A table with nothing but blank and comment lines has no data rows, so
      it yields no records and leaves the counter where it was. */
  lemma {:induction false} NoDataRows(lines: seq<string>)
    requires forall k :: 0 <= k < |lines| ==> IsSkipped(lines[k])
    ensures DataRows(lines) == []
  {
    if lines != [] {
      NoDataRows(lines[..|lines| - 1]);
    }
  }

  /** One more line of the table adds its fields to the data rows exactly
      when it is neither blank nor a comment. */
  lemma DataRowsSnoc(lines: seq<string>, n: nat, stripped: string)
    requires n < |lines| && stripped == Strip(lines[n])
    ensures (stripped != [] && stripped[0] == '#') || stripped == [] ==>
              DataRows(lines[..n + 1]) == DataRows(lines[..n])
    ensures !((stripped != [] && stripped[0] == '#') || stripped == []) ==>
              DataRows(lines[..n + 1]) == DataRows(lines[..n]) + [Fields(stripped)]
  {
    assert lines[..n + 1][..n] == lines[..n];
  }

  lemma NumberRowsSnoc(rows: seq<seq<string>>, numColumns: nat, start: nat, cols: seq<string>)
    ensures NumberRows(rows + [cols], numColumns, start) == NumberRow(NumberRows(rows, numColumns, start), numColumns, cols)
  {
    assert (rows + [cols])[..|rows|] == rows;
  }

  /** The reverse scan of `process_port_config`: the column count is the
      number of fields of the last line that is not blank. */
  method CountColumns(allLines: seq<string>) returns (numColumns: nat)
    ensures numColumns == ColumnCount(allLines)
  {
    var lastLine := "";
    var k: nat := |allLines|;
    while k > 0
      invariant k <= |allLines|
      invariant LastNonBlankBefore(allLines, k) == LastNonBlankBefore(allLines, |allLines|)
      invariant lastLine == []
    {
      var stripped := Strip(allLines[k - 1]);
      if stripped != [] {
        lastLine := stripped;
        break;
      }
      k := k - 1;
    }
    numColumns := |Fields(lastLine)|;
  }

  /** The body of `process_port_config`'s row loop for one data row with
      fields `cols`: the row becomes the next interface and gets a lane
      record, and a core record when the table is wide enough. */
  method AddRow(lanes: seq<LaneEntry>, cores: seq<CoreEntry>, next: nat, numColumns: nat, cols: seq<string>)
    returns (lanes': seq<LaneEntry>, cores': seq<CoreEntry>, next': nat)
    ensures Parsed(lanes', cores', next') == NumberRow(Parsed(lanes, cores, next), numColumns, cols)
  {
    next' := next + 1;
    lanes', cores' := lanes, cores;
    if |cols| >= 2 {
      lanes' := lanes' + [LaneEntry(next', cols[1])];
    }
    if numColumns >= 9 && |cols| >= 9 {
      cores' := cores' + [CoreEntry(next', cols[7], cols[8])];
    }
  }

  /** `process_port_config`'s reading part: the column count, then one pass
      over the rows that numbers every data row and collects the lane and
      core records. */
  method ParsePortConfig(allLines: seq<string>, start: nat)
    returns (lanes: seq<LaneEntry>, cores: seq<CoreEntry>, next: nat)
    ensures Parsed(lanes, cores, next) == Parse(allLines, start)
  {
    var numColumns := CountColumns(allLines);
    next := start;
    lanes, cores := [], [];
    var n := 0;
    ghost var rows: seq<seq<string>> := [];
    while n < |allLines|
      invariant n <= |allLines|
      invariant rows == DataRows(allLines[..n])
      invariant Parsed(lanes, cores, next) == NumberRows(rows, numColumns, start)
    {
      var stripped := Strip(allLines[n]);
      DataRowsSnoc(allLines, n, stripped);
      n := n + 1;
      if (stripped != [] && stripped[0] == '#') || stripped == [] {
        continue;
      }
      var cols := Fields(stripped);
      NumberRowsSnoc(rows, numColumns, start, cols);
      rows := rows + [cols];
      lanes, cores, next := AddRow(lanes, cores, next, numColumns, cols);
    }
    assert allLines[..n] == allLines;
  }

  /** The text of `lanemap.ini`: every record followed by a newline. */
  function LaneMapText(lanes: seq<LaneEntry>): (text: string)
    ensures lanes != [] ==> text != [] && text[|text| - 1] == '\n'
  {
    if lanes == [] then "" else LaneLine(lanes[0]) + "\n" + LaneMapText(lanes[1..])
  }

  /** The text of `coreportindexmap.ini`: every record followed by a newline. */
  function CoreMapText(cores: seq<CoreEntry>): (text: string)
    ensures cores != [] ==> text != [] && text[|text| - 1] == '\n'
  {
    if cores == [] then "" else CoreLine(cores[0]) + "\n" + CoreMapText(cores[1..])
  }

  /** A record's text has no line boundary when its fields have none. */
  lemma LaneLineNoBreak(e: LaneEntry)
    requires IsField(e.lane)
    ensures NoLineBreak(LaneLine(e))
  {
    var d := NatToString(e.index);
    assert LaneLine(e) == "eth" + d + ":" + e.lane;
    forall i | 0 <= i < |LaneLine(e)| ensures !IsLineBreak(LaneLine(e)[i]) {
      if 3 <= i < 3 + |d| {
        assert LaneLine(e)[i] == d[i - 3];
      } else if i >= 4 + |d| {
        assert LaneLine(e)[i] == e.lane[i - 4 - |d|];
      }
    }
  }

  lemma CoreLineNoBreak(e: CoreEntry)
    requires IsField(e.core) && IsField(e.portIndex)
    ensures NoLineBreak(CoreLine(e))
  {
    var d := NatToString(e.index);
    var n := 4 + |d| + |e.core|;
    assert CoreLine(e) == "eth" + d + ":" + e.core + "," + e.portIndex;
    forall i | 0 <= i < |CoreLine(e)| ensures !IsLineBreak(CoreLine(e)[i]) {
      if 3 <= i < 3 + |d| {
        assert CoreLine(e)[i] == d[i - 3];
      } else if 4 + |d| <= i < n {
        assert CoreLine(e)[i] == e.core[i - 4 - |d|];
      } else if i > n {
        assert CoreLine(e)[i] == e.portIndex[i - n - 1];
      }
    }
  }

  /** Read back with `splitlines(keepends=True)`, `lanemap.ini` holds one
      line `eth<N>:<lane>` per record, in order. */
  lemma {:induction false} LaneMapLines(lanes: seq<LaneEntry>)
    requires forall k :: 0 <= k < |lanes| ==> IsField(lanes[k].lane)
    ensures |SplitLines(LaneMapText(lanes))| == |lanes|
    ensures forall k :: 0 <= k < |lanes| ==> SplitLines(LaneMapText(lanes))[k] == LaneLine(lanes[k]) + "\n"
  {
    if lanes != [] {
      LaneLineNoBreak(lanes[0]);
      SplitLinesOfLine(LaneLine(lanes[0]), LaneMapText(lanes[1..]));
      LaneMapLines(lanes[1..]);
    }
  }

  /** Read back with `splitlines(keepends=True)`, `coreportindexmap.ini`
      holds one line `eth<N>:<core>,<index>` per record, in order. */
  lemma {:induction false} CoreMapLines(cores: seq<CoreEntry>)
    requires forall k :: 0 <= k < |cores| ==> IsField(cores[k].core) && IsField(cores[k].portIndex)
    ensures |SplitLines(CoreMapText(cores))| == |cores|
    ensures forall k :: 0 <= k < |cores| ==> SplitLines(CoreMapText(cores))[k] == CoreLine(cores[k]) + "\n"
  {
    if cores != [] {
      CoreLineNoBreak(cores[0]);
      SplitLinesOfLine(CoreLine(cores[0]), CoreMapText(cores[1..]));
      CoreMapLines(cores[1..]);
    }
  }

  /** Every data row is a list of fields. */
  lemma {:induction false} DataRowsAreFields(lines: seq<string>)
    ensures forall k, j :: 0 <= k < |DataRows(lines)| && 0 <= j < |DataRows(lines)[k]| ==> IsField(DataRows(lines)[k][j])
  {
    if lines != [] {
      var init := lines[..|lines| - 1];
      DataRowsAreFields(init);
      FieldsAreFields(Strip(lines[|lines| - 1]));
    }
  }

  /** The lanes, cores and port indices a table yields are fields: they
      hold no whitespace and no line boundary. */
  lemma ParsedAreFields(lines: seq<string>, start: nat)
    ensures var p := Parse(lines, start);
            && (forall k :: 0 <= k < |p.lanes| ==> IsField(p.lanes[k].lane))
            && (forall k :: 0 <= k < |p.cores| ==> IsField(p.cores[k].core) && IsField(p.cores[k].portIndex))
  {
    var rows := DataRows(lines);
    DataRowsAreFields(lines);
    NumberRowsLanesSound(rows, ColumnCount(lines), start);
    NumberRowsCoresSound(rows, ColumnCount(lines), start);
  }
}
