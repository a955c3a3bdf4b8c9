/** The two layers of the receive engine in step: what the engine does in offsets, and the stores into the block. */
module Layers {
  import opened Bytes
  import opened Result
  import opened Field
  import opened Stream
  import opened Arena
  import opened Moves
  import opened Engine
  import opened Relocation
  import EndToEnd

  /** What the engine sees in its arena. */
  ghost function Seen(m: Mysac): Picture
    reads m`cols, m`nbCols, m`data
  {
    Picture(m.cols, m.nbCols, m.data)
  }

  /** The block shows what the engine sees, with words that stand for the cells. */
  ghost predicate Agrees(m: Mysac, b: Block)
    reads m`cols, m`nbCols, m`data, m`read, b
  {
    b.Pictures(Seen(m)) && Words(b.words, Seen(m), b.buffer, b.ieee) && b.read == b.buffer + m.read
  }

  /** `mysac_extend_res` in both layers, when `realloc` puts the block at `to`: they still agree, whatever is stored. */
  method Extend(m: Mysac, b: Block, to: nat) returns (ok: bool)
    requires Agrees(m, b) && m.Shown() && m.extendSize == b.extendSize && to > 0 && m.shift(m.grown) == to - b.res
    modifies m`buf, m`readLen, m`errorcode, m`data, m`grown, b
    ensures ok == (m.extendSize > 0) && Agrees(m, b) && m.Shown()
  {
    hide Drawn, Words, RecsMoved, Block.Pictures;
    ghost var p := Seen(m);
    BufferAt(b, p);
    var ret := b.ExtendRes(to, p);
    ok := m.ExtendRes();
    BufferAt(b, if ok then PictureMoved(p, m.shift(m.grown - 1)) else p);
  }

  lemma BufferAt(b: Block, p: Picture)
    requires b.Pictures(p)
    ensures b.buffer == b.res + RES_SIZE && b.nbCols == p.nbCols
  {}

  /** The cleared column table in both layers. */
  method OpenTable(m: Mysac, b: Block, n: nat)
    requires n > 0 && m.read == FIELD_SIZE * n && m.packetLength > 0 && m.read + m.packetLength + m.readLen == m.buf.Length
    requires m.markLen == 0 && m.nbLines == 0 && m.data == [] && m.readId == 0 && m.net.pos <= |m.net.incoming|
    requires m.nbCols == 0 && m.readLen <= Most(m.room, m.net.incoming, m.extendSize, m.nbCols)
    requires m.goal == ParseColumns(m.net.incoming, m.net.pos, m.binary, n, []) && !m.goal.OutOfModel?
    requires b.Pictures(Picture([], 0, [])) && b.read == b.buffer
    modifies m`nbCols, m`cols, m`marks, m`countLen, m`columns, m`rows, m`since, m`start, m`readst, b
    ensures m.Sound() && m.Reading() && m.Describing() && Agrees(m, b)
  {
    hide ParseResult, ParseColumns, Mysac.Describing, Mysac.Sound, Mysac.Reading;
    m.OpenTable(n);
    b.OpenTable(n);
  }

  /** One more descriptor in both layers; `names` are the pointers `mysac_decode_field` stores. */
  method KeepColumn(m: Mysac, b: Block, col: Column<Slice>, ret: nat, names: Names, ghost c: Column<seq<byte>>)
    requires ret <= m.packetLength && m.read + m.packetLength + m.readLen + m.countLen + m.markLen == m.buf.Length
    requires m.readLen + m.packetLength <= Most(m.room, m.net.incoming, m.extendSize, m.nbCols)
    requires m.Shown() && |col.strings| == NAMES + 1
    requires |m.cols| == |m.columns| == m.readId < m.nbCols && m.data == [] && m.rows == [] && m.since == [] && m.nbLines == 0
    requires m.countLen > 0 && m.markLen == 0 && |m.marks| == |m.cols| + 1
    requires Represents(m.buf[..], m.cols + [col], m.marks + [m.read + ret], [], m.nbCols, m.read + ret, m.columns + [c], [])
    requires m.goal == ParseColumns(m.net.incoming, m.net.pos, m.binary, m.nbCols, m.columns + [c]) && !m.goal.OutOfModel?
    requires m.start < m.net.pos <= |m.net.incoming|
    requires Agrees(m, b) && names == NamesAt(col, b.buffer)
    modifies m`cols, m`read, m`readLen, m`readId, m`columns, m`marks, m`start, m`readst, b
    ensures m.Sound() && m.Describing() && Agrees(m, b)
  {
    hide ParseColumns, Represents, Mysac.Describing, Mysac.Sound, Drawn, NamesAt;
    b.StoreNames(names, Seen(m), col, m.readId);
    b.Advance(ret);
    m.KeepColumn(col, ret, c);
  }

  /** A new row in both layers; `junk` is what the memory of its cells held. */
  method LinkRow(m: Mysac, b: Block, need: nat, junk: seq<int>)
    requires need == ROWS_SIZE + m.nbCols * (CELL_SIZE + LENGTH_SIZE) && m.Collecting() && m.Shown()
    requires m.read + need + m.readLen + m.countLen + m.markLen == m.buf.Length && m.net.pos <= |m.net.incoming|
    requires HasPacket(m.net.incoming, m.start) ==> m.readLen <= Most(m.room, m.net.incoming, m.extendSize, m.nbCols)
    requires Agrees(m, b) && |junk| == m.nbCols
    modifies m`read, m`data, m`cr, m.buf, b
    ensures m.Sound() && m.Reserving(0) && Agrees(m, b)
    ensures 0 <= m.cr < |m.data| && b.cr == b.buffer + m.data[m.cr].at
  {
    hide Drawn, Words, Mysac.Stocked, Mysac.OnRows, Begun, HasPacket, Most;
    ghost var p, rec := Seen(m), NewRow(m.read, m.nbCols);
    m.LinkRow(need);
    BegunAt(rec, Types(m.cols), 0, m.read);
    b.AddRow(junk, p, rec);
  }

  /** The struct tm of column `i` of the new row in both layers. */
  method TakeTm(m: Mysac, b: Block, i: nat)
    requires m.Sound() && m.Reserving(i) && i < |m.cols| && IsDated(Types(m.cols)[i]) && m.readLen >= TM_SIZE
    requires Agrees(m, b) && b.cr == b.buffer + m.data[m.cr].at && b.cr in b.mem.tables
    modifies m`read, m`readLen, m`data, m.buf, b
    ensures m.Sound() && m.Reserving(i + 1) && Agrees(m, b)
  {
    hide Words, Drawn, Mysac.Stocked, Mysac.OnRows, HasPacket, Begun, WithTm, Types, Most, Block.Pictures;
    ghost var p := Seen(m);
    BegunAt(m.data[m.cr], Types(m.cols), i, m.read);
    BufferAt(b, p);
    AllColumns(m, i);
    m.TakeTm(i);
    b.StoreTm(i, p);
  }

  lemma AllColumns(m: Mysac, i: nat)
    requires m.Reserving(i)
    ensures |m.cols| == m.nbCols
  {
    hide Represents;
  }

  /** A decoded row in both layers; `ws` are the words its cells are stored as. */
  method KeepRow(m: Mysac, b: Block, rec: RowRec, ret: nat, ws: seq<int>, ghost vs: Row)
    requires ret <= m.packetLength && m.read + m.packetLength + m.readLen + m.countLen + m.markLen == m.buf.Length
    requires |m.cols| == m.nbCols >= 1 && 0 <= m.cr == m.nbLines == |m.data| - 1 && m.countLen > 0 && m.markLen > 0
    requires |m.since| == |m.rows| == m.cr && rec.end == m.read + ret
    requires m.readLen + m.packetLength <= Most(m.room, m.net.incoming, m.extendSize, m.nbCols)
    requires Represents(m.buf[..], m.cols, m.marks, m.data[..m.cr] + [rec], m.nbCols, m.read + ret, m.columns, m.Held() + [vs])
    requires Timely(m.since, m.grown, m.data[..m.cr], m.buf.Length - m.countLen - m.markLen,
                    Most(m.room, m.net.incoming, m.extendSize, m.nbCols))
    requires Drawn(Picture(m.cols, m.nbCols, m.data[m.cr := rec]))
    requires m.goal == ParseRows(m.net.incoming, m.net.pos, m.binary, m.columns, m.rows + [vs]) && !m.goal.OutOfModel?
    requires m.start < m.net.pos <= |m.net.incoming|
    requires Agrees(m, b) && b.cr == b.buffer + m.data[m.cr].at && b.cr in b.mem.tables && |rec.cells| == |ws| == m.nbCols
    requires rec.at == m.data[m.cr].at && RowWords(ws, rec, Types(m.cols), b.buffer, b.ieee)
    modifies m`data, m`read, m`readLen, m`nbLines, m`rows, m`since, m`start, m`readst, b
    ensures m.Sound() && m.Collecting() && Agrees(m, b)
  {
    hide Words, RowWords, Drawn, Represents, ParseRows, Timely, Kept, Mysac.Sound, Mysac.Collecting, Most, Block.Pictures;
    BufferAt(b, Seen(m));
    b.StoreCells(ws, Seen(m), rec);
    b.Advance(ret);
    m.KeepRow(rec, ret, vs);
  }

  /** The end of the rows in both layers. */
  method UnlinkLast(m: Mysac, b: Block)
    requires m.Fetching() && m.goal == Complete(m.columns, m.rows, m.net.pos) && !Multi(m.status)
    requires m.read + m.countLen + m.markLen <= m.buf.Length
    requires Agrees(m, b) && 0 <= m.cr < |m.data| && b.cr == b.buffer + m.data[m.cr].at
    modifies m`data, m`cr, m.buf, b
    ensures m.Finished() && Agrees(m, b) && b.cr == 0
  {
    hide Drawn, Words, Mysac.Stocked, Mysac.OnRows, Begun, Mysac.Finished;
    ghost var p := Seen(m);
    b.RemoveRow(p);
    m.UnlinkLast();
  }

  /** The client's loop over `mysac_fetch_row`: for every row that was sent, in order, it gets the table of cells whose
      words stand for the cells of that row, as the moves have left them; then NULL. */
  method FetchAll(m: Mysac, b: Block, ghost columns: seq<Column<seq<byte>>>, ghost sent: seq<Row>) returns (rows: seq<int>)
    requires EndToEnd.Delivered(m, columns, sent) && Agrees(m, b) && b.cr == 0
    modifies b`cr
    ensures |rows| == |sent| == |m.data| && b.cr == 0
    ensures forall k :: 0 <= k < |rows| ==>
              && rows[k] in b.mem.cells
              && RowWords(b.mem.cells[rows[k]], m.data[k], Types(m.cols), b.buffer, b.ieee)
  {
    hide Drawn, RowWords, Mysac.Finished, Block.Pictures, Words;
    ghost var p := Seen(m);
    rows := b.FetchAll(p);
    forall k | 0 <= k < |rows|
      ensures rows[k] in b.mem.cells && RowWords(b.mem.cells[rows[k]], m.data[k], Types(m.cols), b.buffer, b.ieee)
    {
      RowShown(b, p, k);
    }
  }

  lemma RowShown(b: Block, p: Picture, k: nat)
    requires b.Pictures(p) && Words(b.words, p, b.buffer, b.ieee) && k < |p.rows|
    ensures b.buffer + CellsAt(p.rows[k]) in b.mem.cells && b.buffer > 0
    ensures RowWords(b.mem.cells[b.buffer + CellsAt(p.rows[k])], p.rows[k], Types(p.cols), b.buffer, b.ieee)
  {
    hide RowWords, Circular;
  }
}
