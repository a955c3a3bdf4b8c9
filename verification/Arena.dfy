/** What the receiver builds in its arena: the column table, the column strings and the rows. */
module Arena {
  import opened Bytes
  import opened Result
  import opened Field
  import opened Stream

  /* sizeof on a 64-bit system: MYSQL_FIELD, MYSAC_ROWS, MYSAC_ROW, unsigned long, struct tm */
  const FIELD_SIZE := 128
  const ROWS_SIZE := 32
  const CELL_SIZE := 16
  const LENGTH_SIZE := 8
  const TM_SIZE := 56

  /** A MYSAC_ROWS at `at`, with its table of cells and its table of lengths behind it, the `struct tm` blocks of the
      dated columns, and from `body` to `end` the strings of its packet. */
  datatype RowRec = RowRec(at: nat, cells: seq<Cell<Slice>>, tms: seq<nat>, body: nat, end: nat)

  function CellsAt(r: RowRec): nat { r.at + ROWS_SIZE }

  function LengthsAt(r: RowRec): nat { CellsAt(r) + CELL_SIZE * |r.cells| }

  function TablesEnd(r: RowRec): nat { LengthsAt(r) + LENGTH_SIZE * |r.cells| }

  /** The regions of one row lie one behind the other. */
  ghost predicate Laid(r: RowRec)
  {
    && TablesEnd(r) <= r.body <= r.end
    && (forall k :: 0 <= k < |r.tms| ==> TablesEnd(r) <= r.tms[k] && r.tms[k] + TM_SIZE <= r.body)
    && (forall j, k :: 0 <= j < k < |r.tms| ==> r.tms[j] + TM_SIZE <= r.tms[k])
    && Packed(r.cells, r.body, r.end)
  }

  /** The rows lie behind `lo`, in list order, and end by `hi`; each has `n` cells. */
  ghost predicate RowsLaid(rows: seq<RowRec>, n: nat, lo: nat, hi: nat)
  {
    && (forall r :: 0 <= r < |rows| ==> Laid(rows[r]) && |rows[r].cells| == n && lo <= rows[r].at && rows[r].end <= hi)
    && (forall r, s :: 0 <= r < s < |rows| ==> rows[r].end <= rows[s].at)
  }

  ghost predicate RowsTerminated(mem: seq<byte>, rows: seq<RowRec>)
  {
    forall r :: 0 <= r < |rows| ==> Terminated(mem, rows[r].cells)
  }

  ghost function LoadRows(mem: seq<byte>, rows: seq<RowRec>): (vs: seq<Row>)
    requires RowsTerminated(mem, rows)
    ensures |vs| == |rows|
  {
    seq(|rows|, r requires 0 <= r < |rows| => LoadAll(mem, rows[r].cells))
  }

  /** Column strings lie between consecutive marks; the first mark is the end of the column table. */
  ghost predicate ColumnsLaid(cols: seq<Column<Slice>>, marks: seq<nat>)
  {
    && |marks| == |cols| + 1
    && (forall k :: 0 <= k < |cols| ==> Packed(cols[k].strings, marks[k], marks[k + 1]))
    && (forall j, k :: 0 <= j <= k < |marks| ==> marks[j] <= marks[k])
  }

  ghost predicate ColumnsTerminated(mem: seq<byte>, cols: seq<Column<Slice>>)
  {
    forall k :: 0 <= k < |cols| ==> Terminated(mem, cols[k].strings)
  }

  ghost function LoadColumns(mem: seq<byte>, cols: seq<Column<Slice>>): (cs: seq<Column<seq<byte>>>)
    requires ColumnsTerminated(mem, cols)
    ensures |cs| == |cols|
  {
    seq(|cols|, k requires 0 <= k < |cols| => LoadColumn(mem, cols[k]))
  }

  /** Stored columns survive any change outside their strings. */
  lemma ColumnsStable(mem: seq<byte>, mem': seq<byte>, cols: seq<Column<Slice>>, marks: seq<nat>)
    requires ColumnsLaid(cols, marks) && ColumnsTerminated(mem, cols)
    requires Agree(mem, mem', marks[0], marks[|cols|])
    ensures ColumnsTerminated(mem', cols) && LoadColumns(mem', cols) == LoadColumns(mem, cols)
  {
    forall k | 0 <= k < |cols|
      ensures Terminated(mem', cols[k].strings) && LoadColumn(mem', cols[k]) == LoadColumn(mem, cols[k])
    {
      assert marks[0] <= marks[k] <= marks[k + 1] <= marks[|cols|];
      LoadStable(mem, mem', cols[k].strings, marks[k], marks[k + 1]);
    }
  }

  lemma ColumnsSnoc(mem: seq<byte>, cols: seq<Column<Slice>>, marks: seq<nat>, c: Column<Slice>, to: nat)
    requires ColumnsLaid(cols, marks) && ColumnsTerminated(mem, cols)
    requires marks[|cols|] <= to && Packed(c.strings, marks[|cols|], to) && Terminated(mem, c.strings)
    ensures ColumnsLaid(cols + [c], marks + [to]) && ColumnsTerminated(mem, cols + [c])
    ensures LoadColumns(mem, cols + [c]) == LoadColumns(mem, cols) + [LoadColumn(mem, c)]
  {}

  /** Stored rows survive any change outside their strings, stores into their own headers and tables included. */
  lemma RowsStable(mem: seq<byte>, mem': seq<byte>, rows: seq<RowRec>)
    requires RowsTerminated(mem, rows)
    requires forall r :: 0 <= r < |rows| ==>
      Packed(rows[r].cells, rows[r].body, rows[r].end) && Agree(mem, mem', rows[r].body, rows[r].end)
    ensures RowsTerminated(mem', rows) && LoadRows(mem', rows) == LoadRows(mem, rows)
  {
    forall r | 0 <= r < |rows|
      ensures Terminated(mem', rows[r].cells) && LoadAll(mem', rows[r].cells) == LoadAll(mem, rows[r].cells)
    {
      LoadStable(mem, mem', rows[r].cells, rows[r].body, rows[r].end);
    }
  }

  lemma RowsSnoc(mem: seq<byte>, rows: seq<RowRec>, r: RowRec)
    requires RowsTerminated(mem, rows) && Terminated(mem, r.cells)
    ensures RowsTerminated(mem, rows + [r])
    ensures LoadRows(mem, rows + [r]) == LoadRows(mem, rows) + [LoadAll(mem, r.cells)]
  {}

  /** Every two regions of the arena that belong to different objects: a column table entry, the strings of a column,
      a row header, a cell, a length, a `struct tm`, the strings of a row. */
  datatype Region = Region(from: nat, to: nat)

  ghost predicate Disjoint(a: Region, b: Region)
  {
    a.to <= b.from || b.to <= a.from
  }

  /** Where a column or row keeps string `j`, terminator included. */
  function TextRegion(s: Slice): Region { Region(s.at, s.at + s.len + 1) }

  datatype Owner =
    | ColumnEntry(k: nat)
    | ColumnText(k: nat, j: nat)
    | RowHeader(r: nat)
    | RowCell(r: nat, j: nat)
    | RowLength(r: nat, j: nat)
    | RowTm(r: nat, j: nat)
    | RowText(r: nat, j: nat)

  ghost predicate Owns(cols: seq<Column<Slice>>, rows: seq<RowRec>, n: nat, o: Owner)
  {
    match o
    case ColumnEntry(k) => k < n
    case ColumnText(k, j) => k < |cols| && j < |cols[k].strings| && cols[k].strings[j].Text?
    case RowHeader(r) => r < |rows|
    case RowCell(r, j) => r < |rows| && j < |rows[r].cells|
    case RowLength(r, j) => r < |rows| && j < |rows[r].cells|
    case RowTm(r, j) => r < |rows| && j < |rows[r].tms|
    case RowText(r, j) => r < |rows| && j < |rows[r].cells| && rows[r].cells[j].Text?
  }

  ghost function RegionOf(cols: seq<Column<Slice>>, rows: seq<RowRec>, n: nat, o: Owner): Region
    requires Owns(cols, rows, n, o)
  {
    match o
    case ColumnEntry(k) => Region(FIELD_SIZE * k, FIELD_SIZE * k + FIELD_SIZE)
    case ColumnText(k, j) => TextRegion(cols[k].strings[j].text)
    case RowHeader(r) => Region(rows[r].at, CellsAt(rows[r]))
    case RowCell(r, j) => Region(CellsAt(rows[r]) + CELL_SIZE * j, CellsAt(rows[r]) + CELL_SIZE * j + CELL_SIZE)
    case RowLength(r, j) => Region(LengthsAt(rows[r]) + LENGTH_SIZE * j, LengthsAt(rows[r]) + LENGTH_SIZE * j + LENGTH_SIZE)
    case RowTm(r, j) => Region(rows[r].tms[j], rows[r].tms[j] + TM_SIZE)
    case RowText(r, j) => TextRegion(rows[r].cells[j].text)
  }

  /** The whole arena below the read position: table of `n` columns, column strings, rows. */
  ghost predicate ArenaLaid(cols: seq<Column<Slice>>, marks: seq<nat>, rows: seq<RowRec>, n: nat, read: nat)
  {
    && ColumnsLaid(cols, marks) && |cols| <= n && marks[0] == FIELD_SIZE * n
    && RowsLaid(rows, n, marks[|cols|], read) && marks[|cols|] <= read
  }

  /** Columns and rows are stored below `read`. */
  ghost predicate Stored(mem: seq<byte>, cols: seq<Column<Slice>>, marks: seq<nat>, recs: seq<RowRec>, n: nat, read: nat)
  {
    && ArenaLaid(cols, marks, recs, n, read) && read <= |mem|
    && ColumnsTerminated(mem, cols) && RowsTerminated(mem, recs)
  }

  /** ... and stand for these descriptors and rows. */
  ghost predicate Represents(mem: seq<byte>, cols: seq<Column<Slice>>, marks: seq<nat>, recs: seq<RowRec>, n: nat, read: nat,
                             columns: seq<Column<seq<byte>>>, rows: seq<Row>)
  {
    Stored(mem, cols, marks, recs, n, read) && LoadColumns(mem, cols) == columns && LoadRows(mem, recs) == rows
  }

  lemma Bounded(mem: seq<byte>, cols: seq<Column<Slice>>, marks: seq<nat>, recs: seq<RowRec>, n: nat, read: nat,
                columns: seq<Column<seq<byte>>>, rows: seq<Row>)
    requires Represents(mem, cols, marks, recs, n, read, columns, rows)
    ensures read <= |mem| && |columns| == |cols| <= n && |rows| == |recs| && Types(columns) == Types(cols)
    ensures |cols| < |marks| && marks[|cols|] <= read && FIELD_SIZE * n <= read
  {
    assert marks[0] <= marks[|cols|];
  }

  /** The result survives every change of memory that spares its strings. */
  lemma SurvivesChange(mem: seq<byte>, mem': seq<byte>, cols: seq<Column<Slice>>, marks: seq<nat>, recs: seq<RowRec>, n: nat,
                 read: nat, read': nat, columns: seq<Column<seq<byte>>>, rows: seq<Row>)
    requires Represents(mem, cols, marks, recs, n, read, columns, rows) && read <= read' <= |mem'|
    requires Agree(mem, mem', marks[0], marks[|cols|])
    requires forall r :: 0 <= r < |recs| ==> Agree(mem, mem', recs[r].body, recs[r].end)
    ensures Represents(mem', cols, marks, recs, n, read', columns, rows)
  {
    ColumnsStable(mem, mem', cols, marks);
    forall r | 0 <= r < |recs| ensures Packed(recs[r].cells, recs[r].body, recs[r].end) { assert Laid(recs[r]); }
    RowsStable(mem, mem', recs);
  }

  /** In particular every change above the read position. */
  lemma SurvivesAbove(mem: seq<byte>, mem': seq<byte>, cols: seq<Column<Slice>>, marks: seq<nat>, recs: seq<RowRec>, n: nat,
                      read: nat, read': nat, columns: seq<Column<seq<byte>>>, rows: seq<Row>)
    requires Represents(mem, cols, marks, recs, n, read, columns, rows) && read <= read' <= |mem'|
    requires Agree(mem, mem', 0, read)
    ensures Represents(mem', cols, marks, recs, n, read', columns, rows)
  {
    assert marks[0] <= marks[|cols|];
    forall r | 0 <= r < |recs| ensures Agree(mem, mem', recs[r].body, recs[r].end) { assert Laid(recs[r]); }
    SurvivesChange(mem, mem', cols, marks, recs, n, read, read', columns, rows);
  }

  /** And stores into the header of the last row. */
  lemma SurvivesLink(mem: seq<byte>, mem': seq<byte>, cols: seq<Column<Slice>>, marks: seq<nat>, recs: seq<RowRec>, n: nat,
                     read: nat, columns: seq<Column<seq<byte>>>, rows: seq<Row>)
    requires Represents(mem, cols, marks, recs, n, read, columns, rows) && recs != [] && |mem'| == |mem|
    requires var at := recs[|recs| - 1].at;
             forall k :: 0 <= k < |mem| && !(at <= k < at + ROWS_SIZE) ==> mem'[k] == mem[k]
    ensures Represents(mem', cols, marks, recs, n, read, columns, rows)
  {
    var last := recs[|recs| - 1];
    assert Laid(last);
    assert marks[0] <= marks[|cols|] <= last.at;
    forall r | 0 <= r < |recs| ensures Agree(mem, mem', recs[r].body, recs[r].end) {
      assert Laid(recs[r]);
      if r < |recs| - 1 { assert recs[r].end <= last.at; }
    }
    SurvivesChange(mem, mem', cols, marks, recs, n, read, read, columns, rows);
  }

  /** How many dated columns, each with its own struct tm, come before column `j`. */
  function DatedBefore(types: seq<ColType>, j: nat): (n: nat)
    requires j <= |types|
  {
    if j == 0 then 0 else DatedBefore(types, j - 1) + (if IsDated(types[j - 1]) then 1 else 0)
  }

  lemma {:induction false} DatedBelow(types: seq<ColType>, i: nat, j: nat)
    requires i < j <= |types| && IsDated(types[i])
    ensures DatedBefore(types, i) < DatedBefore(types, j)
    decreases j
  {
    if i < j - 1 { DatedBelow(types, i, j - 1); }
  }

  /** A row that is being reserved: its tables are there, and the cells and struct tms of the first `k` columns. */
  ghost predicate Begun(r: RowRec, types: seq<ColType>, k: nat, read: nat)
  {
    && k <= |types| == |r.cells| && Laid(r) && r.body == r.end == read && |r.tms| == DatedBefore(types, k)
    && (forall j :: 0 <= j < k ==> r.cells[j] == Initial(types[j]))
    && (forall j :: k <= j < |types| ==> r.cells[j] == Unset)
  }

  /** A row whose packet has not arrived: everything reserved, no strings yet. */
  ghost predicate Pending(r: RowRec, types: seq<ColType>, read: nat)
  {
    Begun(r, types, |types|, read)
  }

  /** Header and tables alone. */
  function NewRow(at: nat, n: nat): RowRec
  {
    var end := at + ROWS_SIZE + n * (CELL_SIZE + LENGTH_SIZE);
    RowRec(at, seq(n, _ => Unset), [], end, end)
  }

  /** The row with one more struct tm, at `read`, for column `i`. */
  function WithTm(r: RowRec, i: nat, read: nat): RowRec
    requires i < |r.cells|
  {
    RowRec(r.at, r.cells[i := Moment(ZERO_TM)], r.tms + [read], read + TM_SIZE, read + TM_SIZE)
  }

  /** Decoding the packet of the pending row in place adds it to the stored rows and touches nothing else stored. */
  lemma RowArrives(mem: seq<byte>, mem': seq<byte>, cols: seq<Column<Slice>>, marks: seq<nat>, recs: seq<RowRec>, n: nat,
                   columns: seq<Column<seq<byte>>>, rows: seq<Row>,
                   rec: RowRec, rec': RowRec, types: seq<ColType>, packetLen: nat)
    requires Represents(mem, cols, marks, recs, n, rec.at, columns, rows) && Pending(rec, types, rec.end) && |types| == n
    requires rec' == rec.(cells := rec'.cells, end := rec'.end) && rec.end <= rec'.end <= |mem'| == |mem|
    requires |rec'.cells| == n && Packed(rec'.cells, rec'.body, rec'.end) && Terminated(mem', rec'.cells)
    requires forall k :: 0 <= k < |mem| && !(rec.end <= k < rec.end + packetLen) && !(rec.at <= k < rec.body) ==> mem'[k] == mem[k]
    ensures Represents(mem', cols, marks, recs + [rec'], n, rec'.end, columns, rows + [LoadAll(mem', rec'.cells)])
  {
    SurvivesAbove(mem, mem', cols, marks, recs, n, rec.at, rec.at, columns, rows);
    RowsSnoc(mem', recs, rec');
  }

  /** Decoding the packet of a descriptor in place adds it to the stored columns; its table entry is `k`. */
  lemma ColumnArrives(mem: seq<byte>, mem': seq<byte>, cols: seq<Column<Slice>>, marks: seq<nat>, n: nat, read: nat,
                      columns: seq<Column<seq<byte>>>, col: Column<Slice>, packetLen: nat, to: nat)
    requires Represents(mem, cols, marks, [], n, read, columns, []) && |cols| < n
    requires marks[|cols|] == read <= to <= |mem'| == |mem|
    requires Packed(col.strings, read, to) && Terminated(mem', col.strings)
    requires var lo := FIELD_SIZE * |cols|;
             forall k :: 0 <= k < |mem| && !(read <= k < read + packetLen) && !(lo <= k < lo + FIELD_SIZE) ==> mem'[k] == mem[k]
    ensures Represents(mem', cols + [col], marks + [to], [], n, to, columns + [LoadColumn(mem', col)], [])
  {
    assert marks[0] <= marks[|cols|];
    SurvivesChange(mem, mem', cols, marks, [], n, read, read, columns, []);
    ColumnsSnoc(mem', cols, marks, col, to);
  }

  /** Nothing is stored behind an empty table of `n` entries. */
  lemma NothingStored(mem: seq<byte>, n: nat)
    requires FIELD_SIZE * n <= |mem|
    ensures Represents(mem, [], [FIELD_SIZE * n], [], n, FIELD_SIZE * n, [], [])
  {
    assert LoadRows(mem, []) == [];
  }

  predicate InRow(o: Owner) { !o.ColumnEntry? && !o.ColumnText? }

  /** The bump allocator hands out disjoint memory: different objects never share a byte, and all lie below `read`. */
  lemma ObjectsDisjoint(cols: seq<Column<Slice>>, marks: seq<nat>, rows: seq<RowRec>, n: nat, read: nat, a: Owner, b: Owner)
    requires ArenaLaid(cols, marks, rows, n, read) && a != b
    requires Owns(cols, rows, n, a) && Owns(cols, rows, n, b)
    ensures Disjoint(RegionOf(cols, rows, n, a), RegionOf(cols, rows, n, b))
    ensures RegionOf(cols, rows, n, a).to <= read
  {
    OwnerBounds(cols, marks, rows, n, read, a);
    OwnerBounds(cols, marks, rows, n, read, b);
    if !InRow(a) && !InRow(b) {
      ColumnsDisjoint(cols, marks, rows, n, read, a, b);
    } else if InRow(a) && InRow(b) && a.r == b.r {
      RowDisjoint(cols, rows, n, a, b);
    } else {
      hide RegionOf, ColumnsLaid;
    }
  }

  lemma ColumnsDisjoint(cols: seq<Column<Slice>>, marks: seq<nat>, rows: seq<RowRec>, n: nat, read: nat, a: Owner, b: Owner)
    requires ArenaLaid(cols, marks, rows, n, read) && a != b && !InRow(a) && !InRow(b)
    requires Owns(cols, rows, n, a) && Owns(cols, rows, n, b)
    ensures Disjoint(RegionOf(cols, rows, n, a), RegionOf(cols, rows, n, b))
  {
    hide RowsLaid;
    OwnerBounds(cols, marks, rows, n, read, a);
    OwnerBounds(cols, marks, rows, n, read, b);
  }

  /** Two objects of the same row. */
  lemma RowDisjoint(cols: seq<Column<Slice>>, rows: seq<RowRec>, n: nat, a: Owner, b: Owner)
    requires a != b && InRow(a) && InRow(b) && a.r == b.r && Owns(cols, rows, n, a) && Owns(cols, rows, n, b)
    requires Laid(rows[a.r])
    ensures Disjoint(RegionOf(cols, rows, n, a), RegionOf(cols, rows, n, b))
  {}

  /** The stretch of the arena an owner belongs to. */
  lemma OwnerBounds(cols: seq<Column<Slice>>, marks: seq<nat>, rows: seq<RowRec>, n: nat, read: nat, o: Owner)
    requires ArenaLaid(cols, marks, rows, n, read) && Owns(cols, rows, n, o)
    ensures var g := RegionOf(cols, rows, n, o);
            match o
            case ColumnEntry(k) => g.to <= marks[0] <= marks[|cols|] <= read
            case ColumnText(k, j) => marks[0] <= marks[k] <= g.from && g.to <= marks[k + 1] <= marks[|cols|]
            case _ => marks[|cols|] <= rows[o.r].at <= g.from && g.to <= rows[o.r].end <= read
  {
    match o
    case ColumnEntry(k) =>
    case ColumnText(k, j) => assert Packed(cols[k].strings, marks[k], marks[k + 1]);
    case RowText(r, j) => assert Laid(rows[r]) && Packed(rows[r].cells, rows[r].body, rows[r].end);
    case _ => assert Laid(rows[o.r]);
  }
}
