/**
 * The block readers of the workbook importer (`alrosa_importer.py`): a table below a
 * title row, read either as rows under a header row or transposed (one parameter per
 * row), the pruning of empty columns, and the guarded insertion into the result
 * dictionaries.
 */
module ImporterBlocks {
  import opened Options
  import opened Text
  import opened Values
  import opened Dicts
  import opened ImporterCells

  /** A DataFrame, column by column: each column's label and its cells from top to bottom. */
  datatype Frame = Frame(columns: seq<(Cell, seq<Cell>)>)

  /** `df.empty`: no columns, or columns without cells. */
  predicate IsEmpty(f: Frame) {
    |f.columns| == 0 || |f.columns[0].1| == 0
  }

  // ---------------------------------------------------------------- the rows of a block

  /** `not any(cell is not None for cell in row)`. */
  predicate EmptyRow(row: seq<Cell>) {
    forall j | 0 <= j < |row| :: row[j].None?
  }

  /**
   * How many rows from 0-based index `start` on come before the first all-empty row or
   * the end of the sheet.
   */
  function BlockLength(sheet: seq<seq<Cell>>, start: nat): (n: nat)
    ensures n > 0 ==> start + n <= |sheet|
    ensures forall k | start <= k < start + n :: !EmptyRow(sheet[k])
    ensures start + n < |sheet| ==> EmptyRow(sheet[start + n])
    decreases |sheet| - start
  {
    if start >= |sheet| || EmptyRow(sheet[start]) then 0 else 1 + BlockLength(sheet, start + 1)
  }

  /** The `iter_rows(min_row=...)` loop shared by both readers: rows up to the first all-empty one. */
  method ReadBlock(sheet: seq<seq<Cell>>, start: nat) returns (data: seq<seq<Cell>>)
    ensures |data| == BlockLength(sheet, start)
    ensures forall k | 0 <= k < |data| :: data[k] == sheet[start + k]
  {
    data := [];
    if start >= |sheet| {
      return;
    }
    var k := start;
    while k < |sheet|
      invariant start <= k <= |sheet|
      invariant |data| == k - start && forall i | 0 <= i < |data| :: data[i] == sheet[start + i]
      invariant BlockLength(sheet, start) == (k - start) + BlockLength(sheet, k)
    {
      var row := sheet[k];
      if EmptyRow(row) {
        break;
      }
      data := data + [row];
      k := k + 1;
    }
  }

  lemma BlockRectangular(sheet: Worksheet, start: nat)
    ensures var n := BlockLength(sheet, start);
      n > 0 ==> Rectangular(sheet[start..start + n]) && forall k | start <= k < start + n :: |sheet[k]| > 0
  {
    var n := BlockLength(sheet, start);
    if n > 0 {
      forall k | start <= k < start + n ensures |sheet[k]| > 0 {
        assert !EmptyRow(sheet[k]);
      }
    }
  }

  // ---------------------------------------------------------------- import_head_title_multirow_as_data_frame

  /** The `j`-th cell of every row. */
  function Column(rows: seq<seq<Cell>>, j: nat): (c: seq<Cell>)
    requires forall k | 0 <= k < |rows| :: j < |rows[k]|
    ensures |c| == |rows| && forall k | 0 <= k < |rows| :: c[k] == rows[k][j]
  {
    seq(|rows|, k requires 0 <= k < |rows| => rows[k][j])
  }

  /** `pd.DataFrame(data[1:], columns=data[0])`. */
  function TableFrame(data: seq<seq<Cell>>): (f: Frame)
    requires |data| > 0 && Rectangular(data)
    ensures |f.columns| == |data[0]|
    ensures forall j | 0 <= j < |data[0]| ::
      f.columns[j].0 == data[0][j] && |f.columns[j].1| == |data| - 1 &&
      forall k | 1 <= k < |data| :: f.columns[j].1[k - 1] == data[k][j]
  {
    var w := |data[0]|;
    var rows := data[1..];
    assert forall k | 0 <= k < |rows| :: |rows[k]| == w;
    Frame(seq(w, j requires 0 <= j < w => (data[0][j], Column(rows, j))))
  }

  /**
   * The rows from the one right after the topmost hit down to the first all-empty row;
   * nothing when no row matches or that block is empty.
   */
  function HitBlock(sheet: Worksheet, col: nat, needle: string): (b: Option<seq<seq<Cell>>>)
    ensures b.Some? ==> |b.value| > 0 && Rectangular(b.value) && forall k | 0 <= k < |b.value| :: |b.value[k]| > 0
  {
    var ms := Matches(sheet, col, needle);
    if ms == [] then None
    else
      var start := ms[0].0;
      var n := BlockLength(sheet, start);
      if n == 0 then None
      else
        BlockRectangular(sheet, start);
        var b := sheet[start..start + n];
        assert forall k | 0 <= k < n :: b[k] == sheet[start + k];
        Some(b)
  }

  /** The search and the row loop both readers begin with. */
  method ReadHitBlock(sheet: Worksheet, col: nat, needle: string) returns (b: Option<seq<seq<Cell>>>)
    ensures b == HitBlock(sheet, col, needle)
  {
    var ms := SearchSubstring(sheet, col, needle);
    if ms == [] {
      return None;
    }
    var start := ms[0].0;
    var data := ReadBlock(sheet, start);
    if data == [] {
      return None;
    }
    assert data == sheet[start..start + |data|];
    b := Some(data);
  }

  /** The table under the first hit: its first row gives the labels, the rows below the cells. */
  function MultirowFrame(sheet: Worksheet, col: nat, needle: string): Option<Frame> {
    match HitBlock(sheet, col, needle)
    case None => None
    case Some(data) => Some(TableFrame(data))
  }

  /** `import_head_title_multirow_as_data_frame`. */
  method ImportMultirowFrame(sheet: Worksheet, col: nat, needle: string) returns (f: Option<Frame>)
    ensures f == MultirowFrame(sheet, col, needle)
  {
    var block := ReadHitBlock(sheet, col, needle);
    if block == None {
      return None;
    }
    f := Some(TableFrame(block.value));
  }

  /**
   * The multirow table is read from the row right after the topmost hit: its labels are
   * that row's cells and each column holds the cells below, down to (not including) the
   * first all-empty row.
   */
  lemma MultirowFrameAtFirstHit(sheet: Worksheet, col: nat, needle: string, r: nat)
    requires 1 <= r <= |sheet| && Hit(sheet[r - 1], col, needle)
    requires forall k | 0 <= k < r - 1 :: !Hit(sheet[k], col, needle)
    ensures var n := BlockLength(sheet, r);
      && (n == 0 <==> MultirowFrame(sheet, col, needle).None?)
      && (n > 0 ==>
            var f := MultirowFrame(sheet, col, needle).value;
            && |f.columns| == |sheet[r]|
            && forall j | 0 <= j < |sheet[r]| ::
                 f.columns[j].0 == sheet[r][j] && |f.columns[j].1| == n - 1 &&
                 forall k | r + 1 <= k < r + n :: f.columns[j].1[k - r - 1] == sheet[k][j])
  {
    HitBlockAt(sheet, col, needle, r);
  }

  /** The block read is the one right after the topmost hit. */
  lemma HitBlockAt(sheet: Worksheet, col: nat, needle: string, r: nat)
    requires 1 <= r <= |sheet| && Hit(sheet[r - 1], col, needle)
    requires forall k | 0 <= k < r - 1 :: !Hit(sheet[k], col, needle)
    ensures var n := BlockLength(sheet, r);
      && (n == 0 <==> HitBlock(sheet, col, needle).None?)
      && (n > 0 ==> HitBlock(sheet, col, needle) == Some(sheet[r..r + n]))
  {
    MatchesExactly(sheet, col, needle);
    var ms := Matches(sheet, col, needle);
    assert (r, CellAt(sheet[r - 1], col).value) in ms;
    assert ms[0] in ms;
  }

  // ---------------------------------------------------------------- import_transposed_table_as_data_frame

  /** The name of row `i` of a transposed table: its first cell's text, or `val_{i+1}` when that is falsy or blank. */
  function RowHeader(row: seq<Cell>, i: nat): (h: string)
    requires |row| > 0
    ensures |h| > 0 && Strip(h) == h
  {
    var t := Strip(Str(row[0]));
    StripIdempotent(Str(row[0]));
    if Truthy(row[0]) && t != "" then t
    else
      NatTextRoundTrip(i + 1);
      NoSpaceDigits(NatText(i + 1));
      StripFixes("val_" + NatText(i + 1));
      "val_" + NatText(i + 1)
  }

  /** The rest of the row, each cell cleaned. */
  function CleanRow(row: seq<Cell>): (r: seq<Cell>)
    requires |row| > 0
    ensures |r| == |row| - 1
  {
    seq(|row| - 1, k requires 0 <= k < |row| - 1 => CleanValue(row[k + 1]))
  }

  /** The assignments `df[headers[i]] = cleaned row i`, in row order. */
  function Assignments(rows: seq<seq<Cell>>): seq<(string, seq<Cell>)>
    requires forall k | 0 <= k < |rows| :: |rows[k]| > 0
  {
    seq(|rows|, i requires 0 <= i < |rows| => (RowHeader(rows[i], i), CleanRow(rows[i])))
  }

  /** A frame whose columns are labelled with text. */
  function FrameOf(d: Dict<seq<Cell>>): Frame {
    Frame(seq(|d|, i requires 0 <= i < |d| => (Some(TextV(d[i].0)), d[i].1)))
  }

  /**
   * A block read transposed: one column per distinct row name (a later row with the
   * same name replacing the earlier one's cells), holding the row's other cells cleaned;
   * nothing when the rows have no cells besides their names.
   */
  function Transposed(rows: seq<seq<Cell>>): Option<Frame>
    requires forall k | 0 <= k < |rows| :: |rows[k]| > 0
  {
    var f := FrameOf(PutAll([], Assignments(rows)));
    if IsEmpty(f) then None else Some(f)
  }

  /** The transposed table under the first hit. */
  function TransposedFrame(sheet: Worksheet, col: nat, needle: string): Option<Frame> {
    match HitBlock(sheet, col, needle)
    case None => None
    case Some(rows) => Transposed(rows)
  }

  /** The header loop of `import_transposed_table_as_data_frame`. */
  method RowHeaders(rows: seq<seq<Cell>>) returns (headers: seq<string>)
    requires forall k | 0 <= k < |rows| :: |rows[k]| > 0
    ensures |headers| == |rows| && forall k | 0 <= k < |rows| :: headers[k] == RowHeader(rows[k], k)
  {
    headers := [];
    for i := 0 to |rows|
      invariant |headers| == i && forall k | 0 <= k < i :: headers[k] == RowHeader(rows[k], k)
    {
      var cell := rows[i][0];
      var h := if Truthy(cell) && Strip(Str(cell)) != "" then Strip(Str(cell)) else "val_" + NatText(i + 1);
      assert h == RowHeader(rows[i], i);
      headers := headers + [h];
    }
  }

  /** The column loop: `df[headers[i]] = cleaned row i` into an empty frame. */
  method AssignColumns(rows: seq<seq<Cell>>, headers: seq<string>) returns (d: Dict<seq<Cell>>)
    requires forall k | 0 <= k < |rows| :: |rows[k]| > 0
    requires |headers| == |rows| && forall k | 0 <= k < |rows| :: headers[k] == RowHeader(rows[k], k)
    ensures d == PutAll([], Assignments(rows))
  {
    ghost var asg := Assignments(rows);
    var df := new Dictionary<seq<Cell>>();
    for i := 0 to |rows|
      invariant df.items == PutAll([], asg[..i])
    {
      var dt := seq(|rows[i]| - 1, k requires 0 <= k < |rows[i]| - 1 => CleanValue(rows[i][k + 1]));
      df.Set(headers[i], dt);
      assert asg[..i + 1][..i] == asg[..i];
    }
    assert asg[..|rows|] == asg;
    d := df.items;
  }

  /** `import_transposed_table_as_data_frame`. */
  method ImportTransposedFrame(sheet: Worksheet, col: nat, needle: string) returns (f: Option<Frame>)
    ensures f == TransposedFrame(sheet, col, needle)
  {
    var block := ReadHitBlock(sheet, col, needle);
    if block == None {
      return None;
    }
    var rows := block.value;
    var headers := RowHeaders(rows);
    var d := AssignColumns(rows, headers);
    var frame := FrameOf(d);
    if IsEmpty(frame) {
      return None;
    }
    f := Some(frame);
  }

  /** Each column holds the cleaned cells of the last row of its name. */
  lemma TransposedLastWins(rows: seq<seq<Cell>>, i: nat)
    requires forall k | 0 <= k < |rows| :: |rows[k]| > 0
    requires i < |rows| && forall j | i < j < |rows| :: RowHeader(rows[j], j) != RowHeader(rows[i], i)
    ensures Get(PutAll([], Assignments(rows)), RowHeader(rows[i], i)) == Some(CleanRow(rows[i]))
  {
    var asg := Assignments(rows);
    assert forall j | i < j < |asg| :: asg[j].0 != asg[i].0 by {
      forall j | i < j < |asg| ensures asg[j].0 != asg[i].0 {
        assert asg[j].0 == RowHeader(rows[j], j);
      }
    }
    PutAllLastWins([], asg, i);
  }

  /** The columns are named after the rows, each name once. */
  lemma TransposedNames(rows: seq<seq<Cell>>)
    requires forall k | 0 <= k < |rows| :: |rows[k]| > 0
    ensures var d := PutAll([], Assignments(rows));
      && KeysUnique(d)
      && (forall h :: HasKey(d, h) <==> exists j | 0 <= j < |rows| :: RowHeader(rows[j], j) == h)
  {
    var asg := Assignments(rows);
    PutAllKeys([], asg);
    forall h ensures HasKey(PutAll([], asg), h) <==> exists j | 0 <= j < |rows| :: RowHeader(rows[j], j) == h {
      if exists j | 0 <= j < |asg| :: asg[j].0 == h {
        var j :| 0 <= j < |asg| && asg[j].0 == h;
        assert RowHeader(rows[j], j) == h;
      }
      if exists j | 0 <= j < |rows| :: RowHeader(rows[j], j) == h {
        var j :| 0 <= j < |rows| && RowHeader(rows[j], j) == h;
        assert asg[j].0 == h;
      }
    }
  }

  /** With at least one row, the transposed table is missing exactly when rows hold nothing but their names. */
  lemma TransposedEmpty(rows: seq<seq<Cell>>)
    requires |rows| > 0 && Rectangular(rows) && forall k | 0 <= k < |rows| :: |rows[k]| > 0
    ensures Transposed(rows).None? <==> |rows[0]| == 1
  {
    var asg := Assignments(rows);
    var d := PutAll([], asg);
    PutAllKeys([], asg);
    assert HasKey(d, asg[0].0);
    var h := d[0].0;
    assert HasKey(d, h);
    var j :| 0 <= j < |asg| && asg[j].0 == h;
    var last := LastWith(asg, j);
    PutAllLastWins([], asg, last);
    FindAt(d, h, 0);
    assert d[0].1 == CleanRow(rows[last]);
  }

  /** The last assignment with the same name as assignment `j`. */
  function LastWith(asg: seq<(string, seq<Cell>)>, j: nat): (l: nat)
    requires j < |asg|
    ensures j <= l < |asg| && asg[l].0 == asg[j].0
    ensures forall m | l < m < |asg| :: asg[m].0 != asg[j].0
    decreases |asg| - j
  {
    if exists m | j < m < |asg| :: asg[m].0 == asg[j].0 then
      var m :| j < m < |asg| && asg[m].0 == asg[j].0;
      LastWith(asg, m)
    else j
  }

  // ---------------------------------------------------------------- add_to_dict_if_not_none

  predicate HasValue(cells: seq<Cell>) {
    exists k | 0 <= k < |cells| :: cells[k].Some?
  }

  /** `df.dropna(axis=1, how="all")`: the columns holding at least one value, in order. */
  function DropEmptyColumns(f: Frame): Frame
    decreases |f.columns|
  {
    if f.columns == [] then f
    else
      var n := |f.columns|;
      var g := DropEmptyColumns(Frame(f.columns[..n - 1]));
      if HasValue(f.columns[n - 1].1) then Frame(g.columns + [f.columns[n - 1]]) else g
  }

  /** A column is kept exactly when it holds a value, and pruning twice is pruning once. */
  lemma {:induction false} DropEmptyColumnsKeeps(f: Frame)
    ensures var g := DropEmptyColumns(f);
      && (forall c :: c in g.columns <==> c in f.columns && HasValue(c.1))
      && DropEmptyColumns(g) == g
    decreases |f.columns|
  {
    if f.columns != [] {
      var n := |f.columns|;
      var p := Frame(f.columns[..n - 1]);
      DropEmptyColumnsKeeps(p);
      var g := DropEmptyColumns(p);
      assert f.columns == p.columns + [f.columns[n - 1]];
      if HasValue(f.columns[n - 1].1) {
        var h := Frame(g.columns + [f.columns[n - 1]]);
        assert h.columns[..|h.columns| - 1] == g.columns;
      }
    }
  }

  /** `add_to_dict_if_not_none` for a dictionary: anything but `None` is stored, even when empty. */
  method AddIfPresent<V>(main: Dictionary<V>, name: string, obj: Option<V>)
    modifies main
    ensures main.items == if obj.Some? then Put(old(main.items), name, obj.value) else old(main.items)
  {
    if obj.Some? {
      main.Set(name, obj.value);
    }
  }

  /** `add_to_dict_if_not_none` for a DataFrame: the empty columns are dropped before storing. */
  method AddFrameIfPresent(main: Dictionary<Frame>, name: string, obj: Option<Frame>)
    modifies main
    ensures main.items == if obj.Some? then Put(old(main.items), name, DropEmptyColumns(obj.value)) else old(main.items)
  {
    if obj.Some? {
      var pruned := DropEmptyColumns(obj.value);
      main.Set(name, pruned);
    }
  }
}
