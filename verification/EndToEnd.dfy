/** From the server's result set to the client's row list, through any socket. */
module EndToEnd {
  import opened Bytes
  import opened Result
  import opened Field
  import opened Stream
  import opened Arena
  import opened Moves
  import opened Engine
  import opened Net
  import SqlText
  import TextRow
  import Wire
  import Refused

  /** Sends `query` and reads its answer, when the next bytes of the server are the result set of `cs` and `rows`: the
      call sequence ends with 0, consumes exactly that result set, and leaves the descriptors as they were sent, and a row
      for every row, in order. `res` is the fresh arena; it may be of any size, grows by any positive step, and moves to
      wherever it likes. The rows are as they were sent if all columns are carried along or the arena never moves; every
      row is what the moves since it was stored have left of it. */
  method Select(m: Mysac, query: seq<byte>, res: array<byte>, bufSize: nat, ghost cs: seq<Wire.ServerColumn>,
                ghost rows: seq<seq<Wire.SqlCell>>, ghost first: Wire.Marker, ghost last: Wire.Marker,
                ghost post: seq<byte>)
      returns (r: int)
    requires 5 + |query| <= bufSize && |query| < TWO24 - 1 && m.extendSize > 0 && m.net.pos <= |m.net.incoming|
    requires Wire.ColumnsOk(cs) && Wire.RowsOk(Types(Wire.ClientColumns(cs)), rows)
    requires !Multi(m.status) && !Multi(last.status) && last.status < TWO16
    requires m.net.incoming == m.net.incoming[..m.net.pos] + Wire.ResultSet(cs, rows, first, last) + post
    modifies m, m.net`pos, m.net`stalls, m.net`outgoing, res
    ensures r == 0 && m.net.outgoing == old(m.net.outgoing) + m.cmd && CarriesQuery(m.cmd, query)
    ensures m.net.pos == old(m.net.pos) + |Wire.ResultSet(cs, rows, first, last)|
    ensures m.extendSize == old(m.extendSize) && m.room == res.Length
    ensures var columns := Wire.ClientColumns(cs);
            Delivered(m, columns, Wire.ClientRows(Types(columns), rows))
  {
    hide ParseResult, Wire.ResultSet, Wire.ColumnsOk, Wire.RowsOk, Mysac.Requesting, Mysac.Finished, Delivered, Types,
         Command, CarriesQuery;
    ghost var pre, sent := m.net.incoming[..m.net.pos], m.net.outgoing;
    Wire.ResultRoundTrip(pre, cs, rows, first, last, post);
    r := m.SetQuery(query, res, bufSize);
    m.AboutRequest(sent);
    r := RunQuery(m, sent);
    Completes(m);
  }

  /** The answer is complete: the table holds these descriptors, and the list a row for every one of these rows, in order.
      Each is what the moves since it was stored have left of it; all are the same if all columns are carried along or
      the block never moves. */
  ghost predicate Delivered(m: Mysac, columns: seq<Column<seq<byte>>>, sent: seq<Row>)
    reads m, m.buf, m.net`pos
  {
    var types := Types(columns);
    && m.Finished() && m.nbLines == |sent| == |m.data| == |m.since| && m.nbCols == |columns|
    && Stored(m.buf[..], m.cols, m.marks, m.data, m.nbCols, m.read)
    && LoadColumns(m.buf[..], m.cols) == columns
    && LoadRows(m.buf[..], m.data) == Kept(sent, types, m.shift, m.since, m.grown)
    && (Relocatable(types) || Steady(m.shift) ==> LoadRows(m.buf[..], m.data) == sent)
  }

  lemma Completes(m: Mysac)
    requires m.Finished()
    ensures m.goal.Complete? && Delivered(m, m.goal.columns, m.goal.rows) && m.goal.end == m.net.pos
  {
    hide Kept, Represents, Relocatable, Steady, Timely;
    assert m.data[..|m.data|] == m.data;
    Bounded(m.buf[..], m.cols, m.marks, m.data, m.nbCols, m.read, m.columns, m.Held());
    RowsKept(m);
    SafeRows(m);
  }

  /** A cell of a row of typed values. */
  datatype Typed = Missing | Present(value: SqlText.SqlValue)

  ghost predicate TypedRow(types: seq<ColType>, vs: seq<Typed>)
  {
    && |vs| == |types|
    && forall k :: 0 <= k < |vs| && vs[k].Present? ==>
         SqlText.InColumn(types[k], vs[k].value) && |SqlText.ValueText(vs[k].value)| < TWO24
  }

  /** The cells the server sends for them. */
  function Cells(vs: seq<Typed>): (r: seq<Wire.SqlCell>)
    ensures |r| == |vs|
  {
    seq(|vs|, k requires 0 <= k < |vs| =>
      if vs[k].Missing? then Wire.SqlNull else Wire.SqlText(SqlText.ValueText(vs[k].value)))
  }

  /** The descriptors a server sends for columns of these types. */
  ghost predicate Coded(cs: seq<Wire.ServerColumn>, types: seq<ColType>)
  {
    |cs| == |types| && forall k :: 0 <= k < |cs| ==> !types[k].Unlisted? && cs[k].typeCode == Wire.Code(types[k])
  }

  lemma TypesKnown(cs: seq<Wire.ServerColumn>, types: seq<ColType>)
    requires Wire.ColumnsOk(cs) && Coded(cs, types)
    ensures Types(Wire.ClientColumns(cs)) == types
  {
    hide TypeOf, Wire.Code;
    forall k | 0 <= k < |cs| ensures TypeOf(cs[k].typeCode) == types[k] {
      Wire.CodeKnown(types[k], 0);
    }
  }

  /** What the client keeps of a cell. */
  function CellOf(t: ColType, v: Typed): Value
  {
    if v.Missing? then Null else SqlText.ClientValue(t, v.value)
  }

  /** A row of typed values can be sent, and the row the client reads from it holds what `ClientValue` keeps of them, nulls
      as nulls. */
  lemma TypedRowArrives(types: seq<ColType>, vs: seq<Typed>)
    requires TypedRow(types, vs)
    ensures Wire.RowFits(types, Cells(vs)) && Wire.CellsOk(Cells(vs))
    ensures Wire.ClientRow(types, Cells(vs)) == seq(|vs|, k requires 0 <= k < |vs| => CellOf(types[k], vs[k]))
  {
    hide SqlText.ValueText, SqlText.InColumn, SqlText.ClientValue, TextRow.ParseCell;
    forall j | 0 <= j < |vs| && vs[j].Present?
      ensures TextRow.ParseCell(types[j], SqlText.ValueText(vs[j].value)) == Good(SqlText.ClientValue(types[j], vs[j].value))
    {
      SqlText.ValueRoundTrip(types[j], vs[j].value);
    }
  }

  /** A table of typed values that can be sent. */
  ghost predicate TypedTable(types: seq<ColType>, table: seq<seq<Typed>>)
  {
    types != [] && forall r :: 0 <= r < |table| ==>
      TypedRow(types, table[r]) && Wire.CellsOk(Cells(table[r])) && |Wire.RowPayload(Cells(table[r]))| < TWO24
  }

  function TableCells(table: seq<seq<Typed>>): (r: seq<seq<Wire.SqlCell>>)
    ensures |r| == |table|
  {
    seq(|table|, r requires 0 <= r < |table| => Cells(table[r]))
  }

  /** The table the client is to get. */
  ghost predicate SameTable(types: seq<ColType>, table: seq<seq<Typed>>, rows: seq<Row>)
  {
    |rows| == |table| && forall r :: 0 <= r < |table| ==>
      |rows[r]| == |table[r]| == |types| && forall k :: 0 <= k < |types| ==> rows[r][k] == CellOf(types[k], table[r][k])
  }

  lemma TableArrives(types: seq<ColType>, table: seq<seq<Typed>>)
    requires TypedTable(types, table)
    ensures Wire.RowsOk(types, TableCells(table)) && SameTable(types, table, Wire.ClientRows(types, TableCells(table)))
  {
    hide Wire.RowFits, Wire.CellsOk, Wire.ClientRow, CellOf, Wire.RowPayload, TypedRow;
    forall r | 0 <= r < |table|
      ensures Wire.RowFits(types, Cells(table[r])) && |table[r]| == |types|
      ensures Wire.ClientRow(types, Cells(table[r]))
           == seq(|types|, k requires 0 <= k < |types| => CellOf(types[k], table[r][k]))
    {
      RowSize(types, table[r]);
      TypedRowArrives(types, table[r]);
    }
  }

  lemma RowSize(types: seq<ColType>, vs: seq<Typed>)
    requires TypedRow(types, vs)
    ensures |vs| == |types|
  {}

  /** The same for a table of typed values: what the client gets are those values, as it keeps them, if all columns are
      carried along or the arena never moves. */
  method SelectTable(m: Mysac, query: seq<byte>, res: array<byte>, bufSize: nat, ghost cs: seq<Wire.ServerColumn>,
                     ghost types: seq<ColType>, ghost table: seq<seq<Typed>>, ghost first: Wire.Marker,
                     ghost last: Wire.Marker, ghost post: seq<byte>)
      returns (r: int)
    requires 5 + |query| <= bufSize && |query| < TWO24 - 1 && m.extendSize > 0 && m.net.pos <= |m.net.incoming|
    requires Wire.ColumnsOk(cs) && Coded(cs, types) && TypedTable(types, table)
    requires !Multi(m.status) && !Multi(last.status) && last.status < TWO16
    requires m.net.incoming == m.net.incoming[..m.net.pos] + Wire.ResultSet(cs, TableCells(table), first, last) + post
    modifies m, m.net`pos, m.net`stalls, m.net`outgoing, res
    ensures r == 0 && m.Finished() && LoadColumns(m.buf[..], m.cols) == Wire.ClientColumns(cs)
    ensures m.nbLines == |table| && RowsTerminated(m.buf[..], m.data)
    ensures Relocatable(types) || Steady(m.shift) ==> SameTable(types, table, LoadRows(m.buf[..], m.data))
  {
    hide Wire.ColumnsOk, Coded, TypedTable, SameTable, Wire.ResultSet, Wire.RowsOk, Wire.ClientRows, Wire.ClientColumns, Types,
         Relocatable, Steady, Mysac.Finished, CarriesQuery;
    TypesKnown(cs, types);
    TableArrives(types, table);
    r := Select(m, query, res, bufSize, cs, TableCells(table), first, last, post);
  }

  /** When the server sends an error packet in place of any packet of a result set, the query ends with that error. */
  method SelectError(m: Mysac, query: seq<byte>, res: array<byte>, bufSize: nat, ghost cs: seq<Wire.ServerColumn>,
                     ghost rows: seq<seq<Wire.SqlCell>>, ghost first: Wire.Marker, ghost last: Wire.Marker, ghost k: nat,
                     ghost id: nat, ghost x: seq<byte>, ghost post: seq<byte>)
      returns (r: int)
    requires 5 + |query| <= bufSize && |query| < TWO24 - 1 && m.extendSize > 0 && m.net.pos <= |m.net.incoming|
    requires Wire.ColumnsOk(cs) && Wire.RowsOk(Types(Wire.ClientColumns(cs)), rows)
    requires !Multi(m.status) && !Multi(last.status) && last.status < TWO16 && 0 < |x| < TWO24 && x[0] == 255
    requires Refused.Begun(m.net.incoming[..m.net.pos], Wire.ResultSet(cs, rows, first, last), k)
    requires m.net.incoming
          == m.net.incoming[..m.net.pos] + Wire.ResultSet(cs, rows, first, last)[..k] + Wire.Packet(id, x) + post
    modifies m, m.net`pos, m.net`stalls, m.net`outgoing, res
    ensures r == m.errorcode == if |x| > 3 then 7 else 1
  {
    hide ParseResult, Wire.ResultSet, Wire.ColumnsOk, Wire.RowsOk, Mysac.Requesting, Mysac.Finished, Types, Command,
         CarriesQuery, Refused.Begun, Wire.Packet;
    ghost var pre, sent := m.net.incoming[..m.net.pos], m.net.outgoing;
    Refused.ErrorEnds(pre, cs, rows, first, last, k, id, x, post);
    r := m.SetQuery(query, res, bufSize);
    m.AboutRequest(sent);
    r := RunQuery(m, sent);
  }

  /* Columns that are not carried along. */

  /** A column of that type, without names. */
  function Bare(typeCode: byte): Wire.ServerColumn
  {
    Wire.ServerColumn(Blanks(NAMES), 0, 0, typeCode, 0, 0, Wire.NoDefault)
  }

  function Blanks(n: nat): seq<seq<byte>> { seq(n, _ => []) }

  /** 01:00:00 */
  function Hour(): seq<byte> { SqlText.ValueText(SqlText.TimeOf(false, 1, 0, 0)) }

  /** That many rows of it. */
  function Hours(n: nat): (r: seq<seq<Wire.SqlCell>>)
    ensures |r| == n
  {
    seq(n, _ => [Wire.SqlText(Hour())])
  }

  /** What the client stores for it. */
  function HourCell(t: ColType): Value
  {
    if t.Time? then Interval(3600, 0) else Text(Hour())
  }

  lemma HourRead(t: ColType)
    requires !Carried(t)
    ensures |Hour()| == 8 && TextRow.ParseCell(t, Hour()) == Good(HourCell(t)) && !Survives(t, HourCell(t))
  {
    hide SqlText.ValueText, TextRow.ParseCell, TextRow.ParseMoment;
    SqlText.TimeKept(Time, false, 1, 0, 0);
    if t.Time? {
      SqlText.ValueRoundTrip(t, SqlText.TimeOf(false, 1, 0, 0));
    } else {
      SqlText.ValueRoundTrip(t, SqlText.Chars(Hour()));
      SqlText.CharsText(Hour());
    }
  }

  lemma HoursSent(typeCode: byte, n: nat)
    requires !Carried(TypeOf(typeCode))
    ensures var cs, t := [Bare(typeCode)], TypeOf(typeCode);
            && Wire.ColumnsOk(cs) && Types(Wire.ClientColumns(cs)) == [t] && Wire.RowsOk([t], Hours(n))
            && forall k :: 0 <= k < n ==> Wire.ClientRows([t], Hours(n))[k] == [HourCell(t)]
  {
    hide Hour, TextRow.ParseCell, HourCell;
    HourRead(TypeOf(typeCode));
    SizeOfRow();
    SizeOfColumn(typeCode);
  }

  lemma SizeOfRow()
    ensures |Hour()| == 8 ==> |Wire.RowPayload([Wire.SqlText(Hour())])| == 9
  {
    hide Hour;
    assert Wire.RowPayload([Wire.SqlText(Hour())][1..]) == [];
  }

  lemma SizeOfColumn(typeCode: byte)
    ensures Wire.ColumnOk(Bare(typeCode)) && |Wire.ColumnPayload(Bare(typeCode))| == 19
  {
    hide Wire.FixedBytes;
    SizeOfNames(NAMES);
  }

  lemma {:induction false} SizeOfNames(n: nat)
    ensures |Wire.Strings(Blanks(n))| == n
  {
    if n > 0 {
      SizeOfNames(n - 1);
      assert Blanks(n)[1..] == Blanks(n - 1);
    }
  }

  /** How long the answer is. */
  lemma SizeOfAnswer(typeCode: byte, n: nat, first: Wire.Marker, last: Wire.Marker)
    ensures Wire.ColumnOk(Bare(typeCode)) && (forall k :: 0 <= k < n ==> Wire.CellsOk(Hours(n)[k]))
    ensures |Wire.ResultSet([Bare(typeCode)], Hours(n), first, last)| == 46 + 13 * n
  {
    hide Wire.ColumnPayload, Wire.EofPayload, ToLE, Bare, Hour;
    HourSize();
    SizeOfColumn(typeCode);
    assert Wire.ColumnPackets(3, [Bare(typeCode)][1..]) == [];
    SizeOfRows(4, n);
  }

  lemma HourSize()
    ensures |Hour()| == 8
  {
    SqlText.TimeKept(Time, false, 1, 0, 0);
  }

  lemma {:induction false} SizeOfRows(id: nat, n: nat)
    requires |Hour()| == 8
    ensures forall k :: 0 <= k < n ==> Wire.CellsOk(Hours(n)[k])
    ensures |Wire.RowPackets(id, Hours(n))| == 13 * n
    decreases n
  {
    hide Hour, Wire.RowPayload, ToLE;
    if n > 0 {
      SizeOfRow();
      SizeOfRows(id + 1, n - 1);
      assert Hours(n)[1..] == Hours(n - 1);
    }
  }

  /** Every row takes at least its header. */
  lemma {:induction false} Spread(recs: seq<RowRec>, n: nat, lo: nat, hi: nat, k: nat)
    requires RowsLaid(recs, n, lo, hi) && k < |recs|
    ensures recs[0].end + ROWS_SIZE * k <= recs[k].end <= hi
  {
    assert Laid(recs[k]);
    if k > 0 { Spread(recs, n, lo, hi, k - 1); }
  }

  /** When the rows take more than was ever free, the block has been extended since the first was stored. */
  lemma ExtendedSince(m: Mysac)
    requires m.Finished() && m.data != [] && |m.since| == |m.data|
    requires Most(m.room, m.net.incoming, m.extendSize, m.nbCols) < ROWS_SIZE * (|m.data| - 1)
    ensures m.since[0] < m.grown
  {
    assert m.data[..|m.data|] == m.data;
    Spread(m.data, m.nbCols, m.marks[|m.cols|], m.read, |m.data| - 1);
  }

  /** Every type of column that is not carried along loses a value in some run: twenty rows of one column, in an arena
      that begins with nothing, grows by one byte, and moves up by one page each time. Afterwards the first time is later
      than it was, or the first cell points into memory that has been given back. */
  method Loses(typeCode: byte) returns (m: Mysac)
    requires !Carried(TypeOf(typeCode))
    ensures Delivered(m, BareColumns(typeCode), HourRows(typeCode, 20))
    ensures HourRows(typeCode, 20)[0] == [HourCell(TypeOf(typeCode))]
    ensures Damaged(m, TypeOf(typeCode))
  {
    hide Wire.ResultSet, Wire.ColumnsOk, Wire.RowsOk, Wire.ClientRows, Wire.ClientColumns, Hours, Bare, TypeOf, Delivered,
         HourCell, Damaged, CarriesQuery;
    var marker := Wire.Marker(0, 0);
    var net := Server(typeCode, marker);
    assert !Multi(0);
    assert net.incoming == net.incoming[..0] + Wire.ResultSet([Bare(typeCode)], Hours(20), marker, marker) + [];
    m := new Mysac(net, 0, 1, k => 4096);
    var res := new byte[0];
    var r := Select(m, [], res, 5, [Bare(typeCode)], Hours(20), marker, marker, []);
    LostAtLast(m, TypeOf(typeCode), BareColumns(typeCode), HourRows(typeCode, 20));
  }

  method Server(typeCode: byte, marker: Wire.Marker) returns (net: Socket)
    requires !Carried(TypeOf(typeCode))
    ensures fresh(net) && net.pos == 0 && |net.incoming| == 306
    ensures Wire.ColumnsOk([Bare(typeCode)]) && Wire.RowsOk(Types(BareColumns(typeCode)), Hours(20))
    ensures net.incoming == Wire.ResultSet([Bare(typeCode)], Hours(20), marker, marker)
  {
    HoursSent(typeCode, 20);
    SizeOfAnswer(typeCode, 20, marker, marker);
    net := new Socket(Wire.ResultSet([Bare(typeCode)], Hours(20), marker, marker), 0);
  }

  /** The descriptors and the rows of the answer. */
  ghost function BareColumns(typeCode: byte): (r: seq<Column<seq<byte>>>)
    ensures Types(r) == [TypeOf(typeCode)]
  {
    SizeOfColumn(typeCode);
    Wire.ClientColumns([Bare(typeCode)])
  }

  ghost function HourRows(typeCode: byte, n: nat): (r: seq<Row>)
    requires !Carried(TypeOf(typeCode))
    ensures |r| == n && forall k :: 0 <= k < n ==> r[k] == [HourCell(TypeOf(typeCode))]
  {
    HoursSent(typeCode, n);
    Wire.ClientRows([TypeOf(typeCode)], Hours(n))
  }

  /** The first cell is not what it was. */
  ghost predicate Damaged(m: Mysac, t: ColType)
    requires RowsTerminated(m.buf[..], m.data)
    reads m, m.buf
  {
    var rows := LoadRows(m.buf[..], m.data);
    && rows != [] && rows[0] != []
    && if t.Time? then rows[0][0].Interval? && rows[0][0].sec > 3600 else rows[0][0] == Unset
  }

  lemma LostAtLast(m: Mysac, t: ColType, columns: seq<Column<seq<byte>>>, sent: seq<Row>)
    requires Delivered(m, columns, sent) && Types(columns) == [t] && |sent| == 20 && sent[0] == [HourCell(t)] && !Carried(t)
    requires |m.net.incoming| == 306 && m.room == 0 && m.extendSize == 1 && forall k: nat :: m.shift(k) > 0
    ensures RowsTerminated(m.buf[..], m.data) && Damaged(m, t)
  {
    hide Hour;
    ExtendedSince(m);
    var from, now := m.since[0], m.grown;
    assert LoadRows(m.buf[..], m.data)[0][0] == After(t, HourCell(t), m.shift, from, now);
    if t.Time? {
      TimeAfter(HourCell(t), m.shift, from, now);
    } else {
      LeftAfter(t, HourCell(t), m.shift, from, now);
      assert m.shift(from) != 0;
    }
  }
}
