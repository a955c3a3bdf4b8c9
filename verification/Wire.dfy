/** The server's side of a text result set (Protocol::ColumnDefinition41, Protocol::EOF_Packet, Text Resultset Row), and
    the proof that the receiver's parser gives back what was sent. */
module Wire {
  import opened Bytes
  import opened Lcb
  import opened Result
  import opened Field
  import opened Stream
  import TextRow

  /** A column as the server describes it: catalog, schema, table, org_table, name, org_name, and the fixed part. */
  datatype ServerColumn = ServerColumn(names: seq<seq<byte>>, charset: nat, length: nat, typeCode: byte, flags: nat,
                                       decimals: byte, def: Default)

  datatype Default = NoDefault | Default(text: seq<byte>)

  /** A cell of a text row. */
  datatype SqlCell = SqlNull | SqlText(text: seq<byte>)

  /** The type codes of the protocol (Protocol::ColumnType), as a server sends them. */
  function Code(t: ColType): byte
  {
    match t
    case Decimal => 0x00
    case Tiny => 0x01
    case Short => 0x02
    case Long => 0x03
    case Float => 0x04
    case Double => 0x05
    case NullType => 0x06
    case Timestamp => 0x07
    case LongLong => 0x08
    case Int24 => 0x09
    case Date => 0x0a
    case Time => 0x0b
    case DateTime => 0x0c
    case Year => 0x0d
    case NewDate => 0x0e
    case VarChar => 0x0f
    case Bit => 0x10
    case NewDecimal => 0xf6
    case Enum => 0xf7
    case Set => 0xf8
    case TinyBlob => 0xf9
    case MediumBlob => 0xfa
    case LongBlob => 0xfb
    case Blob => 0xfc
    case VarString => 0xfd
    case String => 0xfe
    case Geometry => 0xff
    case Unlisted(code) => code
  }

  /** The client knows a column of every listed type by its code, and no other code by one of them. */
  lemma CodeKnown(t: ColType, code: byte)
    ensures !t.Unlisted? ==> TypeOf(Code(t)) == t
    ensures TypeOf(code) == Unlisted(code) <==> 0x11 <= code <= 0xf5
  {}

  /** What an end marker says. */
  datatype Marker = Marker(warnings: nat, status: nat)

  const FIXED_LENGTH: byte := 12

  function LcbString(x: seq<byte>): seq<byte>
    requires |x| < TWO24
  {
    ServerLcb(|x|) + x
  }

  function Strings(xs: seq<seq<byte>>): seq<byte>
    requires forall k :: 0 <= k < |xs| ==> |xs[k]| < TWO24
  {
    if xs == [] then [] else LcbString(xs[0]) + Strings(xs[1..])
  }

  ghost predicate ColumnOk(c: ServerColumn)
  {
    && |c.names| == NAMES && (forall k :: 0 <= k < NAMES ==> |c.names[k]| < TWO24)
    && c.charset < TWO16 && c.length < TWO32 && c.flags < TWO16
    && (c.def.Default? ==> |c.def.text| < TWO24)
  }

  function FixedBytes(c: ServerColumn): (s: seq<byte>)
    ensures |s| == FIXED
  {
    [FIXED_LENGTH] + ToLE(c.charset, 2) + ToLE(c.length, 4) + [c.typeCode] + ToLE(c.flags, 2) + [c.decimals, 0, 0]
  }

  function ColumnPayload(c: ServerColumn): seq<byte>
    requires ColumnOk(c)
  {
    Strings(c.names) + FixedBytes(c) + (if c.def.Default? then LcbString(c.def.text) else [])
  }

  function CellBytes(c: SqlCell): seq<byte>
    requires c.SqlText? ==> |c.text| < TWO24
  {
    if c.SqlNull? then [251] else LcbString(c.text)
  }

  ghost predicate CellsOk(cells: seq<SqlCell>)
  {
    forall k :: 0 <= k < |cells| && cells[k].SqlText? ==> |cells[k].text| < TWO24
  }

  function RowPayload(cells: seq<SqlCell>): seq<byte>
    requires CellsOk(cells)
  {
    if cells == [] then [] else CellBytes(cells[0]) + RowPayload(cells[1..])
  }

  function EofPayload(m: Marker): (s: seq<byte>)
    ensures |s| == 5
  {
    [254] + ToLE(m.warnings, 2) + ToLE(m.status, 2)
  }

  function Packet(id: nat, x: seq<byte>): seq<byte>
  {
    ToLE(|x|, 3) + [id % 256] + x
  }

  function ColumnPackets(id: nat, cs: seq<ServerColumn>): seq<byte>
    requires forall k :: 0 <= k < |cs| ==> ColumnOk(cs[k])
    decreases |cs|
  {
    if cs == [] then [] else Packet(id, ColumnPayload(cs[0])) + ColumnPackets(id + 1, cs[1..])
  }

  function RowPackets(id: nat, rows: seq<seq<SqlCell>>): seq<byte>
    requires forall k :: 0 <= k < |rows| ==> CellsOk(rows[k])
    decreases |rows|
  {
    if rows == [] then [] else Packet(id, RowPayload(rows[0])) + RowPackets(id + 1, rows[1..])
  }

  /* What the receiver is to make of it. */

  function Texts(xs: seq<seq<byte>>): (r: seq<Cell<seq<byte>>>)
    ensures |r| == |xs|
  {
    seq(|xs|, k requires 0 <= k < |xs| => Text(xs[k]))
  }

  /** A descriptor as the client stores it: `flags` also holds the decimals, in its third byte. */
  function ClientColumn(c: ServerColumn): Column<seq<byte>>
    requires ColumnOk(c)
  {
    Column(Texts(c.names) + [if c.def.Default? then Text(c.def.text) else Null],
           c.charset, c.length, c.typeCode, c.flags + TWO16 * c.decimals, CharToUint(c.decimals))
  }

  /** Decimals up to 127 are what was sent; so are the flags, below their third byte. */
  lemma DecimalsKept(c: ServerColumn)
    requires ColumnOk(c)
    ensures ClientColumn(c).decimals == (if c.decimals < 0x80 then c.decimals else 0xffff_ff00 + c.decimals)
    ensures ClientColumn(c).flags % 0x1_0000 == c.flags && ClientColumn(c).flags / 0x1_0000 == c.decimals
  {}

  function ClientColumns(cs: seq<ServerColumn>): (r: seq<Column<seq<byte>>>)
    requires forall k :: 0 <= k < |cs| ==> ColumnOk(cs[k])
    ensures |r| == |cs|
  {
    seq(|cs|, k requires 0 <= k < |cs| => ClientColumn(cs[k]))
  }

  /** The text of a cell is one the column's type converts. */
  ghost predicate Fits(t: ColType, c: SqlCell)
  {
    c.SqlText? ==> |c.text| < TWO24 && TextRow.ParseCell(t, c.text).Good?
  }

  ghost predicate RowFits(types: seq<ColType>, cells: seq<SqlCell>)
  {
    |cells| == |types| && forall k :: 0 <= k < |cells| ==> Fits(types[k], cells[k])
  }

  ghost function ClientCell(t: ColType, c: SqlCell): Value
    requires Fits(t, c)
  {
    if c.SqlNull? then Null else TextRow.ParseCell(t, c.text).value
  }

  ghost function ClientRow(types: seq<ColType>, cells: seq<SqlCell>): (r: Row)
    requires RowFits(types, cells)
    ensures |r| == |cells|
  {
    seq(|cells|, k requires 0 <= k < |cells| => ClientCell(types[k], cells[k]))
  }

  ghost function ClientRows(types: seq<ColType>, rows: seq<seq<SqlCell>>): (r: seq<Row>)
    requires forall k :: 0 <= k < |rows| ==> RowFits(types, rows[k])
    ensures |r| == |rows|
  {
    seq(|rows|, k requires 0 <= k < |rows| => ClientRow(types, rows[k]))
  }

  /** One length coded string, read where it begins. */
  lemma StringRead(pre: seq<byte>, x: seq<byte>, post: seq<byte>)
    requires |x| < TWO24 && |pre + LcbString(x) + post| < TWO64
    ensures var p := pre + LcbString(x) + post;
            var at := |pre| + |ServerLcb(|x|)|;
            && StringAt(p, |pre|) == Good((at, |x|)) && at + |x| == |pre + LcbString(x)|
            && MyLcb(p[|pre|..]) == Lcb(|x|, false, |ServerLcb(|x|)|) && p[at..at + |x|] == x
  {
    var p := pre + LcbString(x) + post;
    assert p[|pre|..] == ServerLcb(|x|) + (x + post);
    ServerLcbDecodes(|x|, x + post);
    var at := |pre| + |ServerLcb(|x|)|;
    assert p[at..at + |x|] == x;
  }

  /** One cell, read where it begins. */
  lemma CellRead(types: seq<ColType>, pre: seq<byte>, c: SqlCell, post: seq<byte>, done: Row)
    requires |done| < |types| && Fits(types[|done|], c) && |pre + CellBytes(c) + post| < TWO64
    ensures TextRow.ParseCells(types, pre + CellBytes(c) + post, |pre|, done)
         == TextRow.ParseCells(types, pre + CellBytes(c) + post, |pre + CellBytes(c)|, done + [ClientCell(types[|done|], c)])
  {
    hide TextRow.ParseCell, TextRow.ParseCells;
    var p := pre + CellBytes(c) + post;
    if c.SqlNull? {
      assert p[|pre|..] == [251] + post;
    } else {
      StringRead(pre, c.text, post);
    }
    CellUnfold(types, p, |pre|, done);
  }

  lemma CellUnfold(types: seq<ColType>, p: seq<byte>, i: nat, done: Row)
    requires i <= |p| && |done| < |types| && |p| < TWO64
    ensures match MyLcb(p[i..])
            case BadLcb => true
            case Lcb(len, isNull, used) =>
              var at := i + used;
              && (at + len <= |p| && isNull ==>
                    TextRow.ParseCells(types, p, i, done) == TextRow.ParseCells(types, p, at, done + [Null]))
              && (at + len <= |p| && !isNull ==>
                    var v := TextRow.ParseCell(types[|done|], p[at..at + len]);
                    v.Good? ==> TextRow.ParseCells(types, p, i, done) == TextRow.ParseCells(types, p, at + len, done + [v.value]))
  {
    hide TextRow.ParseCell, MyLcb;
  }

  /** The types of the next `n` columns behind those done. */
  function Upcoming(types: seq<ColType>, done: Row, n: nat): (r: seq<ColType>)
    requires |done| + n <= |types|
    ensures |r| == n
  {
    types[|done|..|done| + n]
  }

  /** All given cells of a row from the one at |pre| on, whatever follows. */
  lemma {:induction false} CellsRead(types: seq<ColType>, pre: seq<byte>, cells: seq<SqlCell>, post: seq<byte>, done: Row)
    requires |done| + |cells| <= |types| && RowFits(Upcoming(types, done, |cells|), cells) && CellsOk(cells)
    requires |pre + RowPayload(cells) + post| < TWO64
    ensures var p := pre + RowPayload(cells) + post;
            TextRow.ParseCells(types, p, |pre|, done)
            == TextRow.ParseCells(types, p, |pre + RowPayload(cells)|, done + ClientRow(Upcoming(types, done, |cells|), cells))
    decreases |cells|
  {
    hide TextRow.ParseCell, TextRow.ParseCells, MyLcb, CellBytes, ClientRow, ClientCell, RowFits, Fits, Upcoming;
    if cells == [] {
      RowDone(types, done);
      assert pre + RowPayload(cells) == pre;
    } else {
      var c, rest, t := cells[0], cells[1..], types[|done|];
      var pre' := pre + CellBytes(c);
      Regroup(pre, CellBytes(c), RowPayload(rest), post);
      FirstFits(types, cells, done);
      CellRead(types, pre, c, RowPayload(rest) + post, done);
      var v := ClientCell(t, c);
      RowFitsRest(types, cells, done, v);
      CellsRead(types, pre', rest, post, done + [v]);
    }
  }

  lemma RowDone(types: seq<ColType>, done: Row)
    requires |done| <= |types|
    ensures RowFits(Upcoming(types, done, 0), []) && done + ClientRow(Upcoming(types, done, 0), []) == done
  {
    hide TextRow.ParseCell;
  }

  lemma FirstFits(types: seq<ColType>, cells: seq<SqlCell>, done: Row)
    requires |done| + |cells| <= |types| && RowFits(Upcoming(types, done, |cells|), cells) && cells != []
    ensures Fits(types[|done|], cells[0])
  {
    assert Fits(Upcoming(types, done, |cells|)[0], cells[0]);
  }

  lemma RowFitsRest(types: seq<ColType>, cells: seq<SqlCell>, done: Row, v: Value)
    requires |done| + |cells| <= |types| && RowFits(Upcoming(types, done, |cells|), cells) && cells != []
    requires Fits(types[|done|], cells[0]) && v == ClientCell(types[|done|], cells[0])
    ensures var b := Upcoming(types, done + [v], |cells| - 1);
            RowFits(b, cells[1..])
            && done + [v] + ClientRow(b, cells[1..]) == done + ClientRow(Upcoming(types, done, |cells|), cells)
  {
    hide TextRow.ParseCell;
    var a, b := Upcoming(types, done, |cells|), Upcoming(types, done + [v], |cells| - 1);
    assert a[1..] == b;
    forall k | 0 <= k < |cells[1..]| ensures Fits(b[k], cells[1..][k]) { assert Fits(a[k + 1], cells[k + 1]); }
    assert ClientRow(a, cells) == [v] + ClientRow(b, cells[1..]);
  }

  /** Every text row that fits its columns is parsed back. */
  lemma RowRoundTrip(types: seq<ColType>, cells: seq<SqlCell>)
    requires RowFits(types, cells) && CellsOk(cells) && |RowPayload(cells)| < TWO64
    ensures TextRow.ParseRow(types, RowPayload(cells)) == Good(ClientRow(types, cells))
  {
    hide TextRow.ParseCell, RowPayload, Fits, ClientCell, CellsOk;
    var p := RowPayload(cells);
    assert Upcoming(types, [], |cells|) == types;
    assert [] + p + [] == p == [] + p;
    CellsRead(types, [], cells, [], []);
    assert [] + ClientRow(types, cells) == ClientRow(types, cells);
  }

  /** Names of a descriptor from the one at |pre| on, whatever follows. */
  lemma {:induction false} NamesRead(pre: seq<byte>, names: seq<seq<byte>>, post: seq<byte>, done: seq<Cell<seq<byte>>>)
    requires |done| + |names| <= NAMES && (forall k :: 0 <= k < |names| ==> |names[k]| < TWO24)
    requires |pre + Strings(names) + post| < TWO64
    ensures var i: nat := |pre + Strings(names)|;
            ParseNames(pre + Strings(names) + post, |pre|, done)
            == ParseNames(pre + Strings(names) + post, i, done + Texts(names))
    decreases |names|
  {
    hide ServerLcb, StringAt, ParseNames, LcbString;
    if names == [] {
      assert done + Texts(names) == done;
      assert pre + Strings(names) == pre;
    } else {
      var x, rest := names[0], names[1..];
      var pre' := pre + LcbString(x);
      NamesSplit(pre, names, post);
      StringRead(pre, x, Strings(rest) + post);
      NextName(pre + Strings(names) + post, |pre|, done);
      NamesRead(pre', rest, post, done + [Text(x)]);
      assert done + [Text(x)] + Texts(rest) == done + Texts(names);
    }
  }

  lemma NamesSplit(pre: seq<byte>, names: seq<seq<byte>>, post: seq<byte>)
    requires names != [] && (forall k :: 0 <= k < |names| ==> |names[k]| < TWO24)
    ensures pre + Strings(names) + post == pre + LcbString(names[0]) + (Strings(names[1..]) + post)
    ensures pre + Strings(names) + post == (pre + LcbString(names[0])) + Strings(names[1..]) + post
    ensures pre + LcbString(names[0]) + Strings(names[1..]) == pre + Strings(names)
  {
    hide LcbString;
    assert Strings(names) == LcbString(names[0]) + Strings(names[1..]);
    Regroup(pre, LcbString(names[0]), Strings(names[1..]), post);
  }

  lemma Regroup<T>(a: seq<T>, b: seq<T>, c: seq<T>, d: seq<T>)
    ensures a + (b + c) + d == a + b + (c + d) == (a + b) + c + d
    ensures a + b + c == a + (b + c)
  {}

  /** The fixed part, read where it lies: the third byte read for the flags is the decimals byte. */
  lemma FixedRead(pre: seq<byte>, c: ServerColumn, post: seq<byte>, strings: seq<Cell<seq<byte>>>)
    requires ColumnOk(c)
    ensures FixedPart(pre + FixedBytes(c) + post, |pre|, strings)
         == Column(strings, c.charset, c.length, c.typeCode, c.flags + TWO16 * c.decimals, CharToUint(c.decimals))
  {
    hide LE, ToLE;
    var p, f := pre + FixedBytes(c) + post, FixedBytes(c);
    Middle(pre, f, post, 1, 3);
    Middle(pre, f, post, 3, 7);
    Middle(pre, f, post, 8, 11);
    assert p[|pre| + 7] == f[7] && p[|pre| + 10] == f[10];
    FixedSlices(c);
  }

  lemma FixedSlices(c: ServerColumn)
    requires ColumnOk(c)
    ensures var f := FixedBytes(c);
            && LE(f[1..3]) == c.charset && LE(f[3..7]) == c.length && f[7] == c.typeCode
            && LE(f[8..11]) == c.flags + TWO16 * c.decimals && f[10] == c.decimals
  {
    hide ToLE;
    Pow256Values();
    var f := FixedBytes(c);
    assert f[1..3] == ToLE(c.charset, 2);
    assert f[3..7] == ToLE(c.length, 4);
    assert f[8..11] == ToLE(c.flags, 2) + [c.decimals];
    LEToLEExact(c.charset, 2);
    LEToLEExact(c.length, 4);
    LEToLEExact(c.flags, 2);
    LEConcat(ToLE(c.flags, 2), [c.decimals]);
    assert LE([c.decimals]) == c.decimals;
  }

  /** Every column descriptor is parsed back. */
  lemma ColumnRoundTrip(c: ServerColumn)
    requires ColumnOk(c) && |ColumnPayload(c)| < TWO64
    ensures ParseField(ColumnPayload(c)) == Good(ClientColumn(c))
  {
    hide ServerLcb, FixedPart, LcbString, StringAt, ParseNames, ParseField, Strings, FixedBytes;
    var p, names, texts := ColumnPayload(c), Strings(c.names), Texts(c.names);
    var i: nat := |names|;
    var tail := if c.def.Default? then LcbString(c.def.text) else [];
    NamesRead([], c.names, FixedBytes(c) + tail, []);
    assert [] + names + (FixedBytes(c) + tail) == p && [] + texts == texts && [] + names == names;
    NamesDone(p, i, texts);
    assert ParseNames(p, 0, []) == Good((texts, i));
    FieldParsed(p, texts, i);
    if c.def.Default? {
      StringRead(names + FixedBytes(c), c.def.text, []);
      assert names + FixedBytes(c) + LcbString(c.def.text) + [] == p;
      assert |names + FixedBytes(c)| == i + FIXED;
      FixedRead(names, c, tail, texts + [Text(c.def.text)]);
    } else {
      FixedRead(names, c, tail, texts + [Null]);
    }
  }

  /** One packet, read where it begins. */
  lemma PacketRead(pre: seq<byte>, id: nat, x: seq<byte>, post: seq<byte>)
    requires 0 < |x| < TWO24
    ensures var s := pre + Packet(id, x) + post;
            && HasPacket(s, |pre|) && !EmptyAt(s, |pre|) && LengthAt(s, |pre|) == |x| && Payload(s, |pre|) == x
            && Next(s, |pre|) == |pre + Packet(id, x)|
  {
    hide LE, ToLE;
    var k := Packet(id, x);
    Pow256Values();
    LEToLEExact(|x|, 3);
    Middle(pre, k, post, 0, 3);
    Middle(pre, k, post, HEADER, HEADER + |x|);
    assert k[0..3] == ToLE(|x|, 3);
    assert k[HEADER..HEADER + |x|] == x;
  }

  ghost predicate RowsOk(types: seq<ColType>, rows: seq<seq<SqlCell>>)
  {
    types != [] && forall k :: 0 <= k < |rows| ==>
      RowFits(types, rows[k]) && CellsOk(rows[k]) && |RowPayload(rows[k])| < TWO24
  }

  lemma RowFirstByte(types: seq<ColType>, cells: seq<SqlCell>)
    requires types != [] && RowFits(types, cells) && CellsOk(cells)
    ensures RowPayload(cells) != [] && RowPayload(cells)[0] < 254
  {
    hide ServerLcb;
    assert RowPayload(cells)[0] == CellBytes(cells[0])[0];
  }

  /** The rows and the marker behind them. */
  function RowPart(id: nat, rows: seq<seq<SqlCell>>, m: Marker): seq<byte>
    requires forall k :: 0 <= k < |rows| ==> CellsOk(rows[k])
  {
    RowPackets(id, rows) + Packet(id + |rows|, EofPayload(m))
  }

  /** All row packets from the one at |pre| on, whatever follows. */
  lemma {:induction false} RowsRead(pre: seq<byte>, id: nat, columns: seq<Column<seq<byte>>>, rows: seq<seq<SqlCell>>,
                                    done: seq<Row>, post: seq<byte>)
    requires RowsOk(Types(columns), rows)
    ensures var s, body := pre + RowPackets(id, rows) + post, pre + RowPackets(id, rows);
            ParseRows(s, |pre|, false, columns, done)
            == ParseRows(s, |body|, false, columns, done + ClientRows(Types(columns), rows))
    decreases |rows|
  {
    hide ServerLcb, ParseRows, Payload, LengthAt, RowPayload, TextRow.ParseRow, ClientRow, RowFits, Packet, Status;
    var types := Types(columns);
    if rows == [] {
      assert pre + RowPackets(id, rows) == pre && done + ClientRows(types, rows) == done;
    } else {
      var x, rest := RowPayload(rows[0]), rows[1..];
      var pre', body := pre + Packet(id, x), RowPackets(id + 1, rest);
      Regroup(pre, Packet(id, x), body, post);
      RowFirstByte(types, rows[0]);
      PacketRead(pre, id, x, body + post);
      RowRoundTrip(types, rows[0]);
      var row := ClientRow(types, rows[0]);
      RowsNext(pre + RowPackets(id, rows) + post, |pre|, columns, done, row);
      RowsRead(pre', id + 1, columns, rest, done + [row], post);
      assert done + [row] + ClientRows(types, rest) == done + ClientRows(types, rows);
    }
  }

  /** And the end marker behind them. */
  lemma RowsComplete(pre: seq<byte>, id: nat, columns: seq<Column<seq<byte>>>, rows: seq<seq<SqlCell>>, m: Marker,
                     post: seq<byte>)
    requires RowsOk(Types(columns), rows) && !Multi(m.status) && m.status < TWO16
    ensures var body := RowPart(id, rows, m);
            ParseRows(pre + body + post, |pre|, false, columns, [])
            == Complete(columns, ClientRows(Types(columns), rows), |pre + body|)
  {
    hide ParseRows, RowPackets, Packet, Status, ClientRows, RowFits, RowPayload;
    var packets, end := RowPackets(id, rows), Packet(id + |rows|, EofPayload(m));
    Regroup(pre, packets, end, post);
    RowsRead(pre, id, columns, rows, [], end + post);
    PacketRead(pre + packets, id + |rows|, EofPayload(m), post);
    EofStatus(m);
    var sent := ClientRows(Types(columns), rows);
    assert [] + sent == sent;
    RowsEnd(pre + RowPart(id, rows, m) + post, |pre + packets|, columns, sent);
  }

  lemma EofStatus(m: Marker)
    ensures Classify(EofPayload(m)) == EndPacket && (m.status < TWO16 ==> Status(EofPayload(m)) == m.status)
  {
    Pow256Values();
    assert EofPayload(m)[3..5] == ToLE(m.status, 2);
    if m.status < TWO16 {
      LEToLEExact(m.status, 2);
    }
  }

  /** The parser at an end marker. */
  lemma RowsEnd(s: seq<byte>, p: nat, columns: seq<Column<seq<byte>>>, done: seq<Row>)
    requires HasPacket(s, p) && LengthAt(s, p) >= 5 && Classify(Payload(s, p)).EndPacket? && !Multi(Status(Payload(s, p)))
    ensures ParseRows(s, p, false, columns, done) == Complete(columns, done, Next(s, p))
  {
    hide LengthAt, Payload, Status;
  }

  /** The parser at a row. */
  lemma RowsNext(s: seq<byte>, p: nat, columns: seq<Column<seq<byte>>>, done: seq<Row>, row: Row)
    requires HasPacket(s, p) && LengthAt(s, p) > 0 && Payload(s, p)[0] < 254
    requires TextRow.ParseRow(Types(columns), Payload(s, p)) == Good(row)
    ensures ParseRows(s, p, false, columns, done) == ParseRows(s, Next(s, p), false, columns, done + [row])
  {
    hide LengthAt, Payload, TextRow.ParseRow;
  }

  ghost predicate ColumnsOk(cs: seq<ServerColumn>)
  {
    && 1 <= |cs| <= 250
    && forall k :: 0 <= k < |cs| ==> ColumnOk(cs[k]) && |ColumnPayload(cs[k])| < TWO24
  }

  /** The descriptors and the marker behind them. */
  function ColumnPart(id: nat, cs: seq<ServerColumn>, m: Marker): seq<byte>
    requires forall k :: 0 <= k < |cs| ==> ColumnOk(cs[k])
  {
    ColumnPackets(id, cs) + Packet(id + |cs|, EofPayload(m))
  }

  lemma ColumnFirstByte(c: ServerColumn)
    requires ColumnOk(c)
    ensures ColumnPayload(c) != [] && ColumnPayload(c)[0] < 254
  {
    hide ServerLcb, FixedBytes;
    assert Strings(c.names)[0] == LcbString(c.names[0])[0] == ServerLcb(|c.names[0]|)[0];
    assert ColumnPayload(c)[0] == Strings(c.names)[0];
  }

  /** The parser at a descriptor. */
  lemma ColumnsNext(s: seq<byte>, p: nat, n: nat, done: seq<Column<seq<byte>>>, c: Column<seq<byte>>)
    requires HasPacket(s, p) && LengthAt(s, p) > 0 && Payload(s, p)[0] < 254 && |done| < n
    requires ParseField(Payload(s, p)) == Good(c)
    ensures ParseColumns(s, p, false, n, done) == ParseColumns(s, Next(s, p), false, n, done + [c])
  {
    hide LengthAt, Payload, ParseField, ParseMarker;
  }

  /** The parser at the marker behind the descriptors. */
  lemma ColumnsEnd(s: seq<byte>, p: nat, n: nat, done: seq<Column<seq<byte>>>)
    requires HasPacket(s, p) && LengthAt(s, p) >= 5 && Classify(Payload(s, p)).EndPacket? && |done| == n
    ensures ParseColumns(s, p, false, n, done) == ParseRows(s, Next(s, p), false, done, [])
  {
    hide LengthAt, Payload, ParseRows;
  }

  /** All descriptors from the one at |pre| on. */
  lemma {:induction false} ColumnsRead(pre: seq<byte>, id: nat, cs: seq<ServerColumn>, done: seq<Column<seq<byte>>>, n: nat,
                                       m: Marker, post: seq<byte>)
    requires |done| + |cs| == n
    requires forall k :: 0 <= k < |cs| ==> ColumnOk(cs[k]) && |ColumnPayload(cs[k])| < TWO24
    ensures var body := ColumnPart(id, cs, m);
            var all := done + ClientColumns(cs);
            ParseColumns(pre + body + post, |pre|, false, n, done) == ParseRows(pre + body + post, |pre + body|, false, all, [])
    decreases |cs|
  {
    hide ServerLcb, ParseRows, ParseColumns, Payload, LengthAt, ColumnPayload, ParseField, ClientColumn, Packet, Status;
    var body := ColumnPart(id, cs, m);
    var s := pre + body + post;
    if cs == [] {
      assert body == Packet(id, EofPayload(m));
      PacketRead(pre, id, EofPayload(m), post);
      EofStatus(m);
      ColumnsEnd(s, |pre|, n, done);
      assert done + ClientColumns(cs) == done;
    } else {
      var x, rest := ColumnPayload(cs[0]), cs[1..];
      var pre' := pre + Packet(id, x);
      var body' := ColumnPart(id + 1, rest, m);
      assert s == pre + Packet(id, x) + (body' + post) == pre' + body' + post;
      ColumnFirstByte(cs[0]);
      PacketRead(pre, id, x, body' + post);
      ColumnRoundTrip(cs[0]);
      var c := ClientColumn(cs[0]);
      ColumnsNext(s, |pre|, n, done, c);
      ColumnsRead(pre', id + 1, rest, done + [c], n, m, post);
      assert done + [c] + ClientColumns(rest) == done + ClientColumns(cs);
      assert pre' + body' == pre + body;
    }
  }

  /** A whole text result set as the server sends it: column count, descriptors, marker, rows, marker. */
  function ResultSet(cs: seq<ServerColumn>, rows: seq<seq<SqlCell>>, first: Marker, last: Marker): seq<byte>
    requires |cs| <= 250 && (forall k :: 0 <= k < |cs| ==> ColumnOk(cs[k])) && forall k :: 0 <= k < |rows| ==> CellsOk(rows[k])
  {
    var marker := 2 + |cs|;
    Packet(1, [|cs|]) + ColumnPart(2, cs, first) + RowPart(marker + 1, rows, last)
  }

  /** The parser gives back every result set the server can send, wherever it lies in the stream and whatever follows. */
  lemma ResultRoundTrip(pre: seq<byte>, cs: seq<ServerColumn>, rows: seq<seq<SqlCell>>, first: Marker, last: Marker,
                        post: seq<byte>)
    requires ColumnsOk(cs) && RowsOk(Types(ClientColumns(cs)), rows) && !Multi(last.status) && last.status < TWO16
    ensures var body := ResultSet(cs, rows, first, last);
            var columns := ClientColumns(cs);
            ParseResult(pre + body + post, |pre|, false) == Complete(columns, ClientRows(Types(columns), rows), |pre + body|)
  {
    hide ServerLcb, ParseRows, ParseColumns, Payload, LengthAt, ColumnPart, RowPart, ClientColumns, ClientRows, Packet;
    var body := ResultSet(cs, rows, first, last);
    var columns := ClientColumns(cs);
    var s := pre + body + post;
    var count, cols, rest := Packet(1, [|cs|]), ColumnPart(2, cs, first), RowPart(3 + |cs|, rows, last);
    assert s == pre + count + (cols + rest + post);
    PacketRead(pre, 1, [|cs|], cols + rest + post);
    CountRead(s, |pre|, |cs|);
    assert s == (pre + count) + cols + (rest + post);
    ColumnsRead(pre + count, 2, cs, [], |cs|, first, rest + post);
    assert [] + columns == columns;
    assert s == (pre + count + cols) + rest + post;
    RowsComplete(pre + count + cols, 3 + |cs|, columns, rows, last, post);
    assert pre + count + cols + rest == pre + body;
  }

  lemma CountRead(s: seq<byte>, p: nat, n: nat)
    requires HasPacket(s, p) && 0 < n <= 250 && Payload(s, p) == [n]
    ensures ParseResult(s, p, false) == ParseColumns(s, Next(s, p), false, n, [])
  {
    hide ParseColumns;
  }
}
