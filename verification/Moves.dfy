/** What a move of the block does to what is stored in it. Offsets into the arena stay what they are; of the cells, the
    code moves those it takes for pointers and leaves the others alone. */
module Moves {
  import opened Bytes
  import opened Result
  import opened Field
  import opened Stream
  import opened Arena
  import opened CText
  import opened Lcb
  import TextRow
  import BinaryRow

  /** The arena as the receive engine sees it: the descriptors read so far of `nbCols`, and the rows. */
  datatype Picture = Picture(cols: seq<Column<Slice>>, nbCols: nat, rows: seq<RowRec>)

  /** The cells a column of type `t` can hold; a cell that has not been set may hold anything. */
  predicate Fits<T>(t: ColType, c: Cell<T>)
  {
    if IsText(t) then c.Null? || c.Unset? || c.Text?
    else if t.Time? then c.Null? || c.Unset? || c.Moment? || c.Interval?
    else if IsDated(t) then c.Null? || c.Unset? || c.Moment?
    else !c.Text? && !c.Moment? && !c.Interval?
  }

  /** A byte cell that is a pointer the code leaves behind. */
  predicate LeftBehind<T>(t: ColType, c: Cell<T>)
  {
    (t.Bit? || t.NewDate? || t.NullType?) && c.Text?
  }

  /** A decoded time whose seconds the code takes for a pointer. */
  predicate TakenAlong<T>(t: ColType, c: Cell<T>)
  {
    t.Time? && c.Interval? && c.sec != 0
  }

  /** The cells that stay what they are when the block moves. */
  predicate Survives<T>(t: ColType, c: Cell<T>)
  {
    !LeftBehind(t, c) && !TakenAlong(t, c)
  }

  /** What a cell is after the block has moved by `offset`: a pointer that was left behind may point to anything, and
      seconds have the offset added. */
  function CellMoved<T>(t: ColType, c: Cell<T>, offset: int): Cell<T>
  {
    if offset == 0 || Survives(t, c) then c
    else if LeftBehind(t, c) then Unset
    else Interval(c.sec + offset, c.usec)
  }

  /** Column types whose cells survive every move. */
  predicate Carried(t: ColType) { !t.Bit? && !t.NewDate? && !t.NullType? && !t.Time? }

  predicate Relocatable(types: seq<ColType>)
  {
    forall j :: 0 <= j < |types| ==> Carried(types[j])
  }

  /** A cell after the moves number `from` up to `now`, the k-th of them by `shift(k)`. */
  function After<T>(t: ColType, c: Cell<T>, shift: nat -> int, from: nat, now: nat): Cell<T>
    decreases now
  {
    if now <= from then c else CellMoved(t, After(t, c, shift, from, now - 1), shift(now - 1))
  }

  function CellsAfter<T>(cells: seq<Cell<T>>, types: seq<ColType>, shift: nat -> int, from: nat, now: nat): (r: seq<Cell<T>>)
    ensures |r| == |cells|
  {
    seq(|cells|, j requires 0 <= j < |cells| => if j < |types| then After(types[j], cells[j], shift, from, now) else cells[j])
  }

  function RecsAfter(rows: seq<RowRec>, types: seq<ColType>, shift: nat -> int, from: nat, now: nat): (r: seq<RowRec>)
    ensures |r| == |rows|
  {
    seq(|rows|, k requires 0 <= k < |rows| => rows[k].(cells := CellsAfter(rows[k].cells, types, shift, from, now)))
  }

  function RecsMoved(rows: seq<RowRec>, types: seq<ColType>, offset: int): (r: seq<RowRec>)
    ensures |r| == |rows|
  {
    seq(|rows|, k requires 0 <= k < |rows| => rows[k].(cells := CellsMoved(rows[k].cells, types, offset)))
  }

  function CellsMoved<T>(cells: seq<Cell<T>>, types: seq<ColType>, offset: int): (r: seq<Cell<T>>)
    ensures |r| == |cells|
  {
    seq(|cells|, j requires 0 <= j < |cells| => if j < |types| then CellMoved(types[j], cells[j], offset) else cells[j])
  }

  /** What the rows have become, of which row k was stored when the block had moved `since[k]` times. */
  function Kept(rows: seq<Row>, types: seq<ColType>, shift: nat -> int, since: seq<nat>, now: nat): (r: seq<Row>)
    requires |since| == |rows|
    ensures |r| == |rows|
  {
    seq(|rows|, k requires 0 <= k < |rows| => CellsAfter(rows[k], types, shift, since[k], now))
  }

  /* One move. */

  lemma {:induction false} AfterCarried<T>(t: ColType, c: Cell<T>, shift: nat -> int, from: nat, now: nat)
    ensures Carried(t) ==> After(t, c, shift, from, now) == c
    ensures (forall k :: from <= k < now ==> shift(k) == 0) ==> After(t, c, shift, from, now) == c
    decreases now
  {
    if now > from { AfterCarried(t, c, shift, from, now - 1); }
  }

  /** Moves before and behind a point. */
  lemma {:induction false} AfterJoin<T>(t: ColType, c: Cell<T>, shift: nat -> int, from: nat, mid: nat, now: nat)
    requires from <= mid <= now
    ensures After(t, After(t, c, shift, from, mid), shift, mid, now) == After(t, c, shift, from, now)
    decreases now
  {
    if now > mid { AfterJoin(t, c, shift, from, mid, now - 1); }
  }

  /** A decoded time only moves on when every move is upwards. */
  lemma {:induction false} TimeAfter<T>(c: Cell<T>, shift: nat -> int, from: nat, now: nat)
    requires c.Interval? && c.sec > 0 && forall k :: from <= k < now ==> shift(k) > 0
    ensures var r := After(Time, c, shift, from, now); r.Interval? && r.sec >= c.sec && (from < now ==> r.sec > c.sec)
    decreases now
  {
    if now > from { TimeAfter(c, shift, from, now - 1); }
  }

  /** A pointer that is left behind is lost with the first move. */
  lemma {:induction false} LeftAfter<T>(t: ColType, c: Cell<T>, shift: nat -> int, from: nat, now: nat)
    requires LeftBehind(t, c)
    ensures After(t, c, shift, from, now) == if exists k :: from <= k < now && shift(k) != 0 then Unset else c
    decreases now
  {
    if now > from { LeftAfter(t, c, shift, from, now - 1); }
  }

  /** Moves leave the cell what it is, if it fits the column. */
  ghost predicate Safe(t: ColType, c: Value, shift: nat -> int, from: nat, now: nat)
  {
    Fits(t, c) ==> After(t, c, shift, from, now) == c
  }

  /** Exactly the cells of carried columns are safe in an arena that grows: whatever fits such a column stays what it is
      over any moves, and in every other column some cell does not. */
  lemma CarriedExactly(t: ColType)
    ensures Carried(t) <==> forall c: Value, shift: nat -> int, from: nat, now: nat :: Safe(t, c, shift, from, now)
  {
    forall c: Value, shift: nat -> int, from: nat, now: nat | Carried(t) ensures Safe(t, c, shift, from, now) {
      AfterCarried(t, c, shift, from, now);
    }
    if !Carried(t) {
      var c: Value, from: nat, now: nat := if t.Time? then Interval(1, 0) else Text([]), 0, 1;
      var shift: nat -> int := k => 1;
      assert After(t, c, shift, from, now) == CellMoved(t, c, shift(from)) != c;
      assert !Safe(t, c, shift, from, now);
    }
  }

  /** The block stays where it is whenever it grows. */
  ghost predicate Steady(shift: nat -> int)
  {
    forall k: nat :: shift(k) == 0
  }

  /** Rows of carried columns, and all rows of a block that stays where it is, are kept as they were stored. */
  lemma KeptWhole(rows: seq<Row>, types: seq<ColType>, shift: nat -> int, since: seq<nat>, now: nat)
    requires |since| == |rows| && (Relocatable(types) || Steady(shift))
    ensures Kept(rows, types, shift, since, now) == rows
  {
    forall k | 0 <= k < |rows| ensures CellsAfter(rows[k], types, shift, since[k], now) == rows[k] {
      forall j | 0 <= j < |rows[k]| && j < |types| ensures After(types[j], rows[k][j], shift, since[k], now) == rows[k][j] {
        AfterCarried(types[j], rows[k][j], shift, since[k], now);
      }
    }
  }

  lemma CellsJoin<T>(cells: seq<Cell<T>>, types: seq<ColType>, shift: nat -> int, from: nat, mid: nat, now: nat)
    requires from <= mid <= now
    ensures CellsAfter(CellsAfter(cells, types, shift, from, mid), types, shift, mid, now)
         == CellsAfter(cells, types, shift, from, now)
  {
    forall j | 0 <= j < |cells| && j < |types|
      ensures After(types[j], After(types[j], cells[j], shift, from, mid), shift, mid, now)
           == After(types[j], cells[j], shift, from, now)
    {
      AfterJoin(types[j], cells[j], shift, from, mid, now);
    }
  }

  lemma RecsJoin(rows: seq<RowRec>, types: seq<ColType>, shift: nat -> int, from: nat, mid: nat, now: nat)
    requires from <= mid <= now
    ensures RecsAfter(RecsAfter(rows, types, shift, from, mid), types, shift, mid, now)
         == RecsAfter(rows, types, shift, from, now)
  {
    hide CellsAfter;
    forall k | 0 <= k < |rows|
      ensures CellsAfter(CellsAfter(rows[k].cells, types, shift, from, mid), types, shift, mid, now)
           == CellsAfter(rows[k].cells, types, shift, from, now)
    {
      CellsJoin(rows[k].cells, types, shift, from, mid, now);
    }
  }

  lemma KeptJoin(rows: seq<Row>, types: seq<ColType>, shift: nat -> int, since: seq<nat>, now: nat, later: nat, k: nat)
    requires |since| == |rows| && k < |rows| && since[k] <= now <= later
    ensures Kept(rows, types, shift, since, later)[k]
         == CellsAfter(Kept(rows, types, shift, since, now)[k], types, shift, now, later)
  {
    CellsJoin(rows[k], types, shift, since[k], now, later);
  }

  /** The next move. */
  lemma RecsNext(rows: seq<RowRec>, types: seq<ColType>, shift: nat -> int, from: nat, now: nat)
    requires from <= now
    ensures RecsMoved(RecsAfter(rows, types, shift, from, now), types, shift(now))
         == RecsAfter(rows, types, shift, from, now + 1)
    ensures RecsAfter(rows, types, shift, from, from) == rows
  {
    forall k | 0 <= k < |rows|
      ensures CellsMoved(CellsAfter(rows[k].cells, types, shift, from, now), types, shift(now))
           == CellsAfter(rows[k].cells, types, shift, from, now + 1)
      ensures CellsAfter(rows[k].cells, types, shift, from, from) == rows[k].cells
    {}
  }

  /* What a move leaves of the stored rows. */

  /** Moved cells lie where they lay, or are no byte cells any more. */
  lemma MovedPacked(cells: seq<Cell<Slice>>, types: seq<ColType>, shift: nat -> int, from: nat, now: nat, mem: seq<byte>,
                    lo: nat, hi: nat)
    requires Packed(cells, lo, hi) && Terminated(mem, cells)
    ensures var r := CellsAfter(cells, types, shift, from, now);
            && Packed(r, lo, hi) && Terminated(mem, r)
            && LoadAll(mem, r) == CellsAfter(LoadAll(mem, cells), types, shift, from, now)
  {
    var r := CellsAfter(cells, types, shift, from, now);
    forall j | 0 <= j < |cells| ensures r[j].Text? ==> r[j] == cells[j] {
      if j < |types| { TextAfter(types[j], cells[j], shift, from, now); }
    }
    forall j | 0 <= j < |cells| && j < |types|
      ensures Load(mem, r[j]) == After(types[j], Load(mem, cells[j]), shift, from, now)
    {
      LoadAfter(mem, types[j], cells[j], shift, from, now);
    }
  }

  lemma {:induction false} TextAfter<T>(t: ColType, c: Cell<T>, shift: nat -> int, from: nat, now: nat)
    ensures After(t, c, shift, from, now).Text? ==> After(t, c, shift, from, now) == c
    ensures Fits(t, c) ==> Fits(t, After(t, c, shift, from, now))
    ensures After(t, c, shift, from, now).Moment? <==> c.Moment?
    ensures c.Moment? || c.Unset? ==> After(t, c, shift, from, now) == c
    decreases now
  {
    if now > from { TextAfter(t, c, shift, from, now - 1); }
  }

  lemma {:induction false} LoadAfter(mem: seq<byte>, t: ColType, c: Cell<Slice>, shift: nat -> int, from: nat, now: nat)
    requires c.Text? ==> c.text.at + c.text.len <= |mem|
    ensures var a := After(t, c, shift, from, now);
            (a.Text? ==> a == c) && Load(mem, a) == After(t, Load(mem, c), shift, from, now)
    decreases now
  {
    TextAfter(t, c, shift, from, now);
    if now > from { LoadAfter(mem, t, c, shift, from, now - 1); }
  }

  /** The result stands for what the moves have left of its rows. */
  lemma RepresentsMoved(mem: seq<byte>, cols: seq<Column<Slice>>, marks: seq<nat>, recs: seq<RowRec>, n: nat, read: nat,
                        columns: seq<Column<seq<byte>>>, rows: seq<Row>, types: seq<ColType>, shift: nat -> int,
                        from: nat, now: nat)
    requires Represents(mem, cols, marks, recs, n, read, columns, rows)
    ensures Represents(mem, cols, marks, RecsAfter(recs, types, shift, from, now), n, read, columns,
                       seq(|rows|, k requires 0 <= k < |rows| => CellsAfter(rows[k], types, shift, from, now)))
  {
    hide CellsAfter, LoadAll, Packed, Terminated, ColumnsLaid, LoadColumns;
    var recs' := RecsAfter(recs, types, shift, from, now);
    forall k | 0 <= k < |recs|
      ensures Laid(recs'[k]) && Terminated(mem, recs'[k].cells)
      ensures LoadAll(mem, recs'[k].cells) == CellsAfter(LoadAll(mem, recs[k].cells), types, shift, from, now)
    {
      assert Laid(recs[k]);
      MovedPacked(recs[k].cells, types, shift, from, now, mem, recs[k].body, recs[k].end);
    }
    forall k | 0 <= k < |recs| ensures LoadAll(mem, recs[k].cells) == rows[k] {
      assert LoadRows(mem, recs)[k] == rows[k];
    }
    assert LoadRows(mem, recs') == seq(|rows|, k requires 0 <= k < |rows| => CellsAfter(rows[k], types, shift, from, now));
  }

  /** The same for rows that have moved before, in memory that has kept what is below `at`. */
  lemma KeptMoves(mem: seq<byte>, mem': seq<byte>, cols: seq<Column<Slice>>, marks: seq<nat>, recs: seq<RowRec>, n: nat,
                  at: nat, columns: seq<Column<seq<byte>>>, rows: seq<Row>, types: seq<ColType>, shift: nat -> int,
                  since: seq<nat>, now: nat, later: nat)
    requires |since| == |rows| && forall k :: 0 <= k < |since| ==> since[k] <= now <= later
    requires Represents(mem, cols, marks, recs, n, at, columns, Kept(rows, types, shift, since, now))
    requires at <= |mem'| && Agree(mem, mem', 0, at)
    ensures Represents(mem', cols, marks, RecsAfter(recs, types, shift, now, later), n, at, columns,
                       Kept(rows, types, shift, since, later))
  {
    hide Represents, CellsAfter, RecsAfter;
    var held := Kept(rows, types, shift, since, now);
    RepresentsMoved(mem, cols, marks, recs, n, at, columns, held, types, shift, now, later);
    forall k | 0 <= k < |rows|
      ensures Kept(rows, types, shift, since, later)[k] == CellsAfter(held[k], types, shift, now, later)
    {
      KeptJoin(rows, types, shift, since, now, later, k);
    }
    assert Kept(rows, types, shift, since, later)
        == seq(|held|, k requires 0 <= k < |held| => CellsAfter(held[k], types, shift, now, later));
    SurvivesAbove(mem, mem', cols, marks, RecsAfter(recs, types, shift, now, later), n, at, at, columns,
                  Kept(rows, types, shift, since, later));
  }

  /** A row stored now has not moved yet. */
  lemma KeptSnoc(rows: seq<Row>, types: seq<ColType>, shift: nat -> int, since: seq<nat>, now: nat, vs: Row)
    requires |since| == |rows|
    ensures Kept(rows + [vs], types, shift, since + [now], now) == Kept(rows, types, shift, since, now) + [vs]
  {
    assert CellsAfter(vs, types, shift, now, now) == vs;
    forall k | 0 <= k < |rows|
      ensures Kept(rows + [vs], types, shift, since + [now], now)[k] == Kept(rows, types, shift, since, now)[k]
    {}
  }

  /** A row that is being reserved has nothing to lose. */
  lemma BegunStays(recs: seq<RowRec>, types: seq<ColType>, k: nat, read: nat, shift: nat -> int, from: nat, now: nat)
    requires recs != [] && Begun(recs[|recs| - 1], types, k, read)
    ensures var last, r := |recs| - 1, RecsAfter(recs, types, shift, from, now);
            r[last] == recs[last] && r[..last] == RecsAfter(recs[..last], types, shift, from, now)
  {
    var rec := recs[|recs| - 1];
    forall j | 0 <= j < |types| ensures After(types[j], rec.cells[j], shift, from, now) == rec.cells[j] {
      TextAfter(types[j], rec.cells[j], shift, from, now);
    }
    assert CellsAfter(rec.cells, types, shift, from, now) == rec.cells;
  }

  /** And can be drawn. */
  lemma BegunFits(r: RowRec, types: seq<ColType>, k: nat, read: nat)
    requires Begun(r, types, k, read)
    ensures RecFits(r, types)
  {
    forall j | 0 <= j < |types| ensures Fits(types[j], r.cells[j]) && (r.cells[j].Moment? ==> DatedBefore(types, j) < |r.tms|) {
      if j < k && IsDated(types[j]) {
        DatedBelow(types, j, k);
      }
    }
  }

  /** A decoded row can be drawn in the place of the one reserved for it. */
  lemma DecodedFits(mem: seq<byte>, rec: RowRec, cells: seq<Cell<Slice>>, types: seq<ColType>, read: nat, end: nat, vs: Row)
    requires Pending(rec, types, read) && |cells| == |types| == |vs| && Terminated(mem, cells) && LoadAll(mem, cells) == vs
    requires forall j :: 0 <= j < |types| ==> Fits(types[j], vs[j])
    ensures RecFits(rec.(cells := cells, end := end), types)
  {
    forall j | 0 <= j < |types| ensures Fits(types[j], cells[j]) && (cells[j].Moment? ==> DatedBefore(types, j) < |rec.tms|) {
      assert vs[j] == Load(mem, cells[j]);
      LoadFits(mem, types[j], cells[j]);
      if cells[j].Moment? {
        DatedBelow(types, j, |types|);
      }
    }
  }

  /* Pictures. */

  /** Rows are allocated upwards. */
  ghost predicate Ascending(rows: seq<RowRec>)
  {
    forall j, k :: 0 <= j < k < |rows| ==> rows[j].at < rows[k].at
  }

  /** The cells fit their columns, and every one that holds a moment has its struct tm. */
  ghost predicate RecFits(r: RowRec, types: seq<ColType>)
  {
    && |r.cells| == |types|
    && forall j :: 0 <= j < |types| ==>
         Fits(types[j], r.cells[j]) && (r.cells[j].Moment? ==> DatedBefore(types, j) < |r.tms|)
  }

  ghost predicate RowsFit(rows: seq<RowRec>, types: seq<ColType>)
  {
    forall k :: 0 <= k < |rows| ==> RecFits(rows[k], types)
  }

  /** A picture the receive engine can draw: rows only behind all the descriptors, allocated upwards, with cells that
      fit their columns; the last row may still be without its packet, or without some of its struct tms. */
  ghost predicate Drawn(p: Picture)
  {
    && |p.cols| <= p.nbCols && (p.rows != [] ==> |p.cols| == p.nbCols)
    && (forall k :: 0 <= k < |p.cols| ==> |p.cols[k].strings| == NAMES + 1)
    && Ascending(p.rows) && RowsFit(p.rows, Types(p.cols))
  }

  /** Every cell of the picture survives a move. */
  ghost predicate AllSurvive(p: Picture)
  {
    forall r, j :: 0 <= r < |p.rows| && 0 <= j < |p.cols| && j < |p.rows[r].cells| ==>
      Survives(Types(p.cols)[j], p.rows[r].cells[j])
  }

  /** Column types alone can tell. */
  lemma RelocatableSurvives(p: Picture)
    ensures Relocatable(Types(p.cols)) ==> AllSurvive(p)
  {
    if Relocatable(Types(p.cols)) {
      forall j | 0 <= j < |p.cols| ensures Carried(Types(p.cols)[j]) {}
    }
  }

  function PictureMoved(p: Picture, offset: int): Picture
  {
    p.(rows := RecsMoved(p.rows, Types(p.cols), offset))
  }

  /** A row reserved behind the stored ones. */
  lemma DrawnSnoc(mem: seq<byte>, cols: seq<Column<Slice>>, marks: seq<nat>, recs: seq<RowRec>, n: nat, read: nat,
                  columns: seq<Column<seq<byte>>>, rows: seq<Row>, rec: RowRec)
    requires Drawn(Picture(cols, n, recs)) && Represents(mem, cols, marks, recs, n, read, columns, rows)
    requires |cols| == n && rec.at == read && RecFits(rec, Types(cols))
    ensures Drawn(Picture(cols, n, recs + [rec]))
  {
    hide RecFits;
    var more := recs + [rec];
    forall j, k | 0 <= j < k < |more| ensures more[j].at < more[k].at {
      assert Laid(recs[j]) && recs[j].end <= read;
    }
    forall k | 0 <= k < |more| ensures RecFits(more[k], Types(cols)) {
      if k < |recs| { assert RecFits(recs[k], Types(cols)); }
    }
  }

  /** A change of the last row in its place. */
  lemma DrawnLast(p: Picture, rec: RowRec)
    requires Drawn(p) && p.rows != [] && rec.at == p.rows[|p.rows| - 1].at && RecFits(rec, Types(p.cols))
    ensures Drawn(p.(rows := p.rows[|p.rows| - 1 := rec]))
  {
    hide RecFits;
    var last, rows := |p.rows| - 1, p.rows[|p.rows| - 1 := rec];
    forall k | 0 <= k < |rows| ensures RecFits(rows[k], Types(p.cols)) && rows[k].at == p.rows[k].at {
      if k < last { assert RecFits(p.rows[k], Types(p.cols)); }
    }
  }

  /** The last row taken away. */
  lemma DrawnLess(p: Picture)
    requires Drawn(p) && p.rows != []
    ensures Drawn(p.(rows := p.rows[..|p.rows| - 1]))
  {
    hide RecFits;
    var rows := p.rows[..|p.rows| - 1];
    forall k | 0 <= k < |rows| ensures RecFits(rows[k], Types(p.cols)) {
      assert rows[k] == p.rows[k];
    }
  }

  /** One more descriptor. */
  lemma DrawnColumn(cols: seq<Column<Slice>>, n: nat, col: Column<Slice>)
    requires Drawn(Picture(cols, n, [])) && |cols| < n && |col.strings| == NAMES + 1
    ensures Drawn(Picture(cols + [col], n, []))
  {}

  /** Moves keep a picture drawn. */
  lemma DrawnAfter(p: Picture, shift: nat -> int, from: nat, now: nat)
    requires Drawn(p)
    ensures Drawn(p.(rows := RecsAfter(p.rows, Types(p.cols), shift, from, now)))
  {
    var types, rows := Types(p.cols), RecsAfter(p.rows, Types(p.cols), shift, from, now);
    forall k | 0 <= k < |rows| ensures RecFits(rows[k], types) {
      assert RecFits(p.rows[k], types);
      forall j | 0 <= j < |types|
        ensures Fits(types[j], rows[k].cells[j]) && (rows[k].cells[j].Moment? ==> p.rows[k].cells[j].Moment?)
      {
        TextAfter(types[j], p.rows[k].cells[j], shift, from, now);
      }
    }
  }

  lemma DrawnMoved(p: Picture, offset: int)
    requires Drawn(p)
    ensures Drawn(PictureMoved(p, offset))
  {
    var shift := (k: nat) => offset;
    RecsNext(p.rows, Types(p.cols), shift, 0, 0);
    DrawnAfter(p, shift, 0, 1);
  }

  /** What the decoders store fits the columns. */
  lemma CellsFit(t: ColType, x: seq<byte>)
    ensures TextRow.ParseCell(t, x).Good? ==> Fits(t, TextRow.ParseCell(t, x).value)
  {
    hide UpToNul, StrTol, StrTod, TextRow.Pieces, TextRow.AllEnd;
    TextRow.CellKinds(t, x);
  }

  lemma {:induction false} TextRowFits(types: seq<ColType>, p: seq<byte>, i: nat, done: seq<Value>)
    requires i <= |p| && |done| <= |types| && forall j :: 0 <= j < |done| ==> Fits(types[j], done[j])
    ensures var r := TextRow.ParseCells(types, p, i, done);
            r.Good? ==> |r.value| == |types| && forall j :: 0 <= j < |types| ==> Fits(types[j], r.value[j])
    decreases |types| - |done|
  {
    hide MyLcb, TextRow.ParseCell;
    if |done| < |types| {
      match MyLcb(p[i..])
      case BadLcb =>
      case Lcb(len, isNull, used) =>
        var at := i + used;
        if at + len <= |p| && at + len < TWO64 {
          if isNull {
            TextRowFits(types, p, at, done + [Null]);
          } else {
            CellsFit(types[|done|], p[at..at + len]);
            var v := TextRow.ParseCell(types[|done|], p[at..at + len]);
            if v.Good? {
              TextRowFits(types, p, at + len, done + [v.value]);
            }
          }
        }
    }
  }

  lemma {:induction false} BinaryRowFits(types: seq<ColType>, p: seq<byte>, i: nat, done: seq<Value>)
    requires i <= |p| && |done| <= |types| && forall j :: 0 <= j < |done| ==> Fits(types[j], done[j])
    requires 1 + BinaryRow.BitmapLen(|types|) <= |p|
    ensures var r := BinaryRow.ParseCells(types, p, i, done);
            r.Good? ==> |r.value| == |types| && forall j :: 0 <= j < |types| ==> Fits(types[j], r.value[j])
    decreases |types| - |done|
  {
    hide MyLcb, BinaryRow.BitAt;
    var j := |done|;
    if j < |types| {
      if BinaryRow.BitAt(p[1..1 + BinaryRow.BitmapLen(|types|)], j + 2) {
        BinaryRowFits(types, p, i, done + [Initial(types[j])]);
      } else {
        var r := BinaryRow.ParseCell(types[j], p, i);
        if r.Good? {
          BinaryRowFits(types, p, r.value.1, done + [r.value.0]);
        }
      }
    }
  }

  /** Every row a decoder accepts holds cells that fit its columns. */
  lemma RowFits(binary: bool, types: seq<ColType>, x: seq<byte>)
    ensures var r := DecodeRow(binary, types, x);
            r.Good? ==> |r.value| == |types| && forall j :: 0 <= j < |types| ==> Fits(types[j], r.value[j])
  {
    if binary {
      if 1 + BinaryRow.BitmapLen(|types|) <= |x| {
        BinaryRowFits(types, x, 1 + BinaryRow.BitmapLen(|types|), []);
      }
    } else {
      TextRowFits(types, x, 0, []);
    }
  }

  lemma LoadFits(mem: seq<byte>, t: ColType, c: Cell<Slice>)
    requires c.Text? ==> c.text.at + c.text.len <= |mem|
    ensures Fits(t, Load(mem, c)) == Fits(t, c) && (Load(mem, c).Moment? <==> c.Moment?)
  {}
}
