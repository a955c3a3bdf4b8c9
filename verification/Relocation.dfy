/** `mysac_extend_res` in absolute addresses: `realloc` may move the block, and every pointer into it has to follow. What
    the engine builds in its arena stays the same picture when the arena moves, but for the cells that do not survive,
    which is why the receive engine can be stated in offsets. */
module Relocation {
  import opened Bytes
  import opened Result
  import opened Field
  import opened Stream
  import opened Arena
  import opened Moves

  /* MYSAC_RES: its size, and where its list link and the head of its row list are */
  const RES_SIZE := 112
  const LIST := 0
  const DATA := 88

  const SYSTEM_ERROR := 12

  /** A struct mysac_list_head. */
  datatype Link = Link(next: int, prev: int)

  /** The pointers of a MYSAC_ROWS behind its link. */
  datatype Tables = Tables(lengths: int, data: int)

  /** The pointers of a MYSQL_FIELD, and its type. */
  datatype Names = Names(catalog: int, db: int, table: int, orgTable: int, name: int, orgName: int, def: int, kind: ColType)

  /** The column types whose cells the relocation takes for pointers. */
  predicate TakenForPointer(t: ColType)
  {
    || t.Time? || t.Year? || t.Timestamp? || t.DateTime? || t.Date? || t.String? || t.VarChar? || t.VarString?
    || t.TinyBlob? || t.MediumBlob? || t.LongBlob? || t.Blob?
  }

  /** A pointer that moves by `offset` unless it is NULL. */
  function Moved(p: int, offset: int): int
  {
    if p != 0 then p + offset else p
  }

  function MovedWord(t: ColType, w: int, offset: int): int
  {
    if TakenForPointer(t) then Moved(w, offset) else w
  }

  function MovedNames(f: Names, offset: int): Names
  {
    Names(Moved(f.catalog, offset), Moved(f.db, offset), Moved(f.table, offset), Moved(f.orgTable, offset),
          Moved(f.name, offset), Moved(f.orgName, offset), Moved(f.def, offset), f.kind)
  }

  /** The pointer to a string of the arena at `buffer`. */
  function NameAt(c: Cell<Slice>, buffer: int): int
  {
    if c.Text? then buffer + c.text.at else 0
  }

  function NamesAt(c: Column<Slice>, buffer: int): Names
    requires |c.strings| == NAMES + 1
  {
    Names(NameAt(c.strings[0], buffer), NameAt(c.strings[1], buffer), NameAt(c.strings[2], buffer),
          NameAt(c.strings[3], buffer), NameAt(c.strings[4], buffer), NameAt(c.strings[5], buffer),
          NameAt(c.strings[6], buffer), TypeOf(c.typeCode))
  }

  /** A zeroed MYSQL_FIELD. */
  const BLANK := Names(0, 0, 0, 0, 0, 0, 0, Decimal)

  /** The first word of the MYSAC_ROW that holds `c`, in the arena at `buffer`; its struct tm is at `tm`, and `ieee` is
      how a number is stored in floating point. An unset cell may hold anything. */
  ghost predicate Stores(w: int, c: Cell<Slice>, buffer: int, tm: nat, ieee: real -> int)
  {
    match c
    case Null => w == 0
    case Text(s) => w == buffer + s.at
    case Moment(_) => w == buffer + tm
    case Small(v) => w == v
    case Big(v) => w == v
    case Ieee(bits) => w == bits
    case Real(v) => w == ieee(v)
    case Interval(sec, _) => w == sec
    case Unset => true
  }

  /** A stored word still stands for its cell after the move exactly when the cell survives. */
  lemma WordMoves(w: int, t: ColType, c: Cell<Slice>, buffer: int, offset: int, tm: nat, ieee: real -> int)
    requires Fits(t, c) && Stores(w, c, buffer, tm, ieee) && buffer > 0 && offset != 0
    ensures Stores(MovedWord(t, w, offset), c, buffer + offset, tm, ieee) <==> Survives(t, c)
  {}

  /** What the moved word stands for, whether the cell survives or not. */
  lemma WordBecomes(w: int, t: ColType, c: Cell<Slice>, buffer: int, offset: int, tm: nat, ieee: real -> int)
    requires Fits(t, c) && Stores(w, c, buffer, tm, ieee) && buffer > 0
    ensures Stores(MovedWord(t, w, offset), CellMoved(t, c, offset), buffer + offset, tm, ieee)
  {}

  /* Intrusive lists. */

  /** Node `k` of the circle through `head` and the entries of `order`. */
  function Node(head: int, order: seq<int>, k: nat): int
    requires k <= |order| + 1
  {
    if k == 0 || k == |order| + 1 then head else order[k - 1]
  }

  /** The link of node `k`. */
  function LinkAt(head: int, order: seq<int>, k: nat): Link
    requires k <= |order|
  {
    Link(Node(head, order, k + 1), if k == 0 then Node(head, order, |order|) else Node(head, order, k - 1))
  }

  ghost predicate Apart(head: int, order: seq<int>)
  {
    forall j, k :: 0 <= j < k <= |order| ==> Node(head, order, j) != Node(head, order, k)
  }

  /** The links form one circle that visits `order` forwards, and the same entries backwards. */
  ghost predicate Circular(links: map<int, Link>, head: int, order: seq<int>)
  {
    && Apart(head, order)
    && forall k :: 0 <= k <= |order| ==>
         Node(head, order, k) in links && links[Node(head, order, k)] == LinkAt(head, order, k)
  }

  /** The neighbours of node `k`. */
  lemma CircleAt(links: map<int, Link>, head: int, order: seq<int>, k: nat)
    requires Circular(links, head, order) && k <= |order|
    ensures var a := Node(head, order, k);
            && a in links && links[a].next == Node(head, order, k + 1)
            && links[a].prev == Node(head, order, if k == 0 then |order| else k - 1)
            && Node(head, order, k + 1) in links
  {
    assert LinkAt(head, order, k) == links[Node(head, order, k)];
    var n := if k == |order| then 0 else k + 1;
    assert Node(head, order, n) in links;
  }

  lemma NodesApart(links: map<int, Link>, head: int, order: seq<int>, j: nat, k: nat)
    requires Circular(links, head, order) && j <= |order| && k <= |order|
    ensures Node(head, order, j) == Node(head, order, k) <==> j == k
    ensures k == 0 ==> Node(head, order, k) == Node(head, order, |order| + 1)
  {
    assert j < k ==> Node(head, order, j) != Node(head, order, k);
    assert k < j ==> Node(head, order, k) != Node(head, order, j);
  }

  /** The four stores of __list_add. */
  function Added(links: map<int, Link>, entry: int, prev: int, next: int): map<int, Link>
    requires prev in links && next in links
  {
    var one := links[next := Link(links[next].next, entry)][entry := Link(next, prev)];
    one[prev := Link(entry, one[prev].prev)]
  }

  lemma AddedAt(links: map<int, Link>, entry: int, prev: int, next: int, a: int)
    requires prev in links && next in links && entry != prev && entry != next
    ensures entry in Added(links, entry, prev, next) && Added(links, entry, prev, next)[entry] == Link(next, prev)
    ensures a in links && a != entry ==>
      && a in Added(links, entry, prev, next)
      && Added(links, entry, prev, next)[a]
         == Link(if a == prev then entry else links[a].next, if a == next then entry else links[a].prev)
  {}

  /** The two stores of __list_del. */
  function Deleted(links: map<int, Link>, prev: int, next: int): map<int, Link>
    requires prev in links && next in links
  {
    var one := links[next := Link(links[next].next, prev)];
    one[prev := Link(next, one[prev].prev)]
  }

  lemma DeletedAt(links: map<int, Link>, prev: int, next: int, a: int)
    requires prev in links && next in links
    ensures a in links ==>
      && a in Deleted(links, prev, next)
      && Deleted(links, prev, next)[a]
         == Link(if a == prev then next else links[a].next, if a == next then prev else links[a].prev)
  {}

  /** An entry added between the last one and the head is the new last one. */
  lemma CircleGrows(links: map<int, Link>, head: int, order: seq<int>, entry: int)
    requires Circular(links, head, order) && entry != head && entry !in order
    ensures head in links && links[head].prev in links
    ensures Circular(Added(links, entry, links[head].prev, head), head, order + [entry])
  {
    hide LinkAt, Added;
    var more := order + [entry];
    CircleAt(links, head, order, 0);
    CircleAt(links, head, order, |order|);
    forall k | 0 <= k <= |more|
      ensures Node(head, more, k) == if k == |more| then entry else Node(head, order, k)
    {}
    assert Apart(head, more);
    var links' := Added(links, entry, links[head].prev, head);
    forall k | 0 <= k <= |more|
      ensures Node(head, more, k) in links' && links'[Node(head, more, k)] == LinkAt(head, more, k)
    {
      GrownAt(links, head, order, entry, k);
    }
  }

  lemma GrownAt(links: map<int, Link>, head: int, order: seq<int>, entry: int, k: nat)
    requires Circular(links, head, order) && entry != head && entry !in order && k <= |order| + 1
    requires head in links && links[head].prev in links
    ensures var more, links' := order + [entry], Added(links, entry, links[head].prev, head);
            Node(head, more, k) in links' && links'[Node(head, more, k)] == LinkAt(head, more, k)
  {
    hide Added;
    var more, last := order + [entry], links[head].prev;
    CircleAt(links, head, order, 0);
    assert last == Node(head, order, |order|);
    AddedAt(links, entry, last, head, Node(head, more, k));
    if k <= |order| {
      CircleAt(links, head, order, k);
      assert Node(head, more, k) == Node(head, order, k);
      assert k != |order| ==> Node(head, order, k) != last;
    }
  }

  /** Without entry `k`, the others stay in their order. */
  lemma CircleShrinks(links: map<int, Link>, head: int, order: seq<int>, k: nat)
    requires Circular(links, head, order) && k < |order|
    ensures Node(head, order, k) in links && Node(head, order, k + 2) in links
    ensures Circular(Deleted(links, Node(head, order, k), Node(head, order, k + 2)), head, order[..k] + order[k + 1..])
  {
    hide LinkAt, Deleted;
    var fewer := order[..k] + order[k + 1..];
    CircleAt(links, head, order, k);
    CircleAt(links, head, order, k + 1);
    forall j | 0 <= j <= |fewer| + 1
      ensures Node(head, fewer, j) == Node(head, order, if j <= k then j else j + 1)
    {}
    assert Apart(head, fewer);
    var links' := Deleted(links, Node(head, order, k), Node(head, order, k + 2));
    forall j | 0 <= j <= |fewer|
      ensures Node(head, fewer, j) in links' && links'[Node(head, fewer, j)] == LinkAt(head, fewer, j)
    {
      ShrunkAt(links, head, order, k, j);
    }
  }

  lemma ShrunkAt(links: map<int, Link>, head: int, order: seq<int>, k: nat, j: nat)
    requires Circular(links, head, order) && k < |order| && j < |order|
    requires Node(head, order, k) in links && Node(head, order, k + 2) in links
    ensures var fewer, links' := order[..k] + order[k + 1..], Deleted(links, Node(head, order, k), Node(head, order, k + 2));
            Node(head, fewer, j) in links' && links'[Node(head, fewer, j)] == LinkAt(head, fewer, j)
  {
    hide Deleted, Node, Circular, Apart;
    var fewer, at := order[..k] + order[k + 1..], if j <= k then j else j + 1;
    FewerNode(head, order, k, j);
    FewerNode(head, order, k, j + 1);
    FewerNode(head, order, k, if j == 0 then |fewer| else j - 1);
    CircleAt(links, head, order, at);
    DeletedAt(links, Node(head, order, k), Node(head, order, k + 2), Node(head, order, at));
    NodesApart(links, head, order, at, k);
    NodesApart(links, head, order, at, if k + 1 == |order| then 0 else k + 2);
  }

  lemma FewerNode(head: int, order: seq<int>, k: nat, j: nat)
    requires k < |order| && j <= |order|
    ensures Node(head, order[..k] + order[k + 1..], j) == Node(head, order, if j <= k then j else j + 1)
    ensures Node(head, order, 0) == Node(head, order, |order| + 1) == head
  {}

  /** The head of the row list, in front of the arena at `buffer`. */
  function Head(buffer: int): int { buffer - RES_SIZE + DATA }

  function TablesOf(r: RowRec, buffer: int): Tables
  {
    Tables(buffer + LengthsAt(r), buffer + CellsAt(r))
  }

  function Forward(a: int, offset: int): int { a + offset }

  /** Everything of one type that lies in a block, by address, when the block is `offset` further on. */
  function Shifted<T>(m: map<int, T>, offset: int): map<int, T>
  {
    map a | a in m :: Forward(a, offset) := m[a]
  }

  /** What was at `a` is `offset` further on. */
  lemma ShiftedAt<T>(m: map<int, T>, offset: int, a: int)
    ensures a + offset in Shifted(m, offset) <==> a in m
    ensures a in m ==> Shifted(m, offset)[a + offset] == m[a]
  {
    assert Forward(a, offset) == a + offset;
  }

  lemma ShiftedNone<T>(m: map<int, T>)
    ensures Shifted(m, 0) == m
  {
    hide Shifted;
    forall a {
      ShiftedAt(m, 0, a);
    }
  }

  /** The memory of a block, typed, by address: list links, row headers, cell tables, column tables. */
  datatype Memory = Memory(links: map<int, Link>, tables: map<int, Tables>, cells: map<int, seq<int>>,
                           fields: map<int, seq<Names>>)

  /** The same memory in a copy of the block, `offset` further on. */
  function Copy(mem: Memory, offset: int): Memory
  {
    Memory(Shifted(mem.links, offset), Shifted(mem.tables, offset), Shifted(mem.cells, offset), Shifted(mem.fields, offset))
  }

  /** Where the struct tm of column `j` is. */
  function TmAt(r: RowRec, types: seq<ColType>, j: nat): nat
    requires j < |types|
  {
    var n := DatedBefore(types, j);
    if n < |r.tms| then r.tms[n] else 0
  }

  function RowsAt(rows: seq<RowRec>, buffer: int): (r: seq<int>)
    ensures |r| == |rows|
  {
    seq(|rows|, k requires 0 <= k < |rows| => buffer + rows[k].at)
  }

  /* What lies in the block when the arena is at `at`, with the pointers of an arena at `was`. */

  /** The column table; descriptors that have not been read are zeroed. */
  ghost predicate TableAt(mem: Memory, p: Picture, was: int, at: int)
    requires Drawn(p)
  {
    p.nbCols > 0 ==> at in mem.fields && TableIs(mem.fields[at], p, was)
  }

  ghost predicate TableIs(names: seq<Names>, p: Picture, was: int)
    requires Drawn(p)
  {
    && |names| == p.nbCols
    && forall k :: 0 <= k < |names| ==> names[k] == if k < |p.cols| then NamesAt(p.cols[k], was) else BLANK
  }

  ghost predicate HeadAt(mem: Memory, p: Picture, was: int, at: int)
  {
    Head(at) in mem.links && mem.links[Head(at)] == LinkAt(Head(was), RowsAt(p.rows, was), 0)
  }

  ghost predicate ListAt(mem: Memory, was: int, at: int)
  {
    at - RES_SIZE + LIST in mem.links
    && mem.links[at - RES_SIZE + LIST] == Link(was - RES_SIZE + LIST, was - RES_SIZE + LIST)
  }

  ghost predicate RowIs(mem: Memory, p: Picture, k: nat, was: int, at: int, ws: seq<int>)
    requires k < |p.rows|
  {
    var a := at + p.rows[k].at;
    && a in mem.links && mem.links[a] == LinkAt(Head(was), RowsAt(p.rows, was), k + 1)
    && a in mem.tables && mem.tables[a] == TablesOf(p.rows[k], was)
    && at + CellsAt(p.rows[k]) in mem.cells && mem.cells[at + CellsAt(p.rows[k])] == ws
  }

  /** The rows, with the words `ws` in their cells. */
  ghost predicate RowsAre(mem: Memory, p: Picture, was: int, at: int, ws: seq<seq<int>>)
  {
    && |ws| == |p.rows|
    && forall k :: 0 <= k < |p.rows| ==> RowIs(mem, p, k, was, at, ws[k]) && |ws[k]| == p.nbCols
  }

  /** The memory shows `p` in an arena at `at`, with the words `ws` in the cells: the rows are in one circle. */
  ghost predicate Shows(mem: Memory, p: Picture, at: int, ws: seq<seq<int>>)
    requires Drawn(p)
  {
    && TableAt(mem, p, at, at)
    && Circular(mem.links, Head(at), RowsAt(p.rows, at))
    && |ws| == |p.rows|
    && (forall k :: 0 <= k < |p.rows| ==>
          && at + p.rows[k].at in mem.tables && mem.tables[at + p.rows[k].at] == TablesOf(p.rows[k], at)
          && at + CellsAt(p.rows[k]) in mem.cells && mem.cells[at + CellsAt(p.rows[k])] == ws[k] && |ws[k]| == p.nbCols)
  }

  /** The words stand for the cells of the picture. */
  ghost predicate Words(ws: seq<seq<int>>, p: Picture, at: int, ieee: real -> int)
    requires Drawn(p)
  {
    |ws| == |p.rows| && forall k :: 0 <= k < |ws| ==> RowWords(ws[k], p.rows[k], Types(p.cols), at, ieee)
  }

  ghost predicate RowWords(ws: seq<int>, r: RowRec, types: seq<ColType>, at: int, ieee: real -> int)
  {
    && |ws| == |r.cells| == |types|
    && forall j :: 0 <= j < |types| ==> Stores(ws[j], r.cells[j], at, TmAt(r, types, j), ieee)
  }

  /** The words of a row after the loop over its cells. */
  function MovedRow(ws: seq<int>, types: seq<ColType>, offset: int): (r: seq<int>)
    ensures |r| == |ws|
  {
    seq(|ws|, j requires 0 <= j < |ws| => if j < |types| then MovedWord(types[j], ws[j], offset) else ws[j])
  }

  function MovedWords(ws: seq<seq<int>>, types: seq<ColType>, offset: int): (r: seq<seq<int>>)
    ensures |r| == |ws|
  {
    seq(|ws|, k requires 0 <= k < |ws| => MovedRow(ws[k], types, offset))
  }

  /** The words of a row stand for its cells after a move exactly when all its cells survive. */
  lemma RowMoves(ws: seq<int>, r: RowRec, types: seq<ColType>, at: int, offset: int, ieee: real -> int)
    requires RowWords(ws, r, types, at, ieee) && at > 0 && offset != 0
    requires forall j :: 0 <= j < |types| ==> Fits(types[j], r.cells[j])
    ensures RowWords(MovedRow(ws, types, offset), r, types, at + offset, ieee)
      <==> forall j :: 0 <= j < |types| ==> Survives(types[j], r.cells[j])
  {
    hide Stores, MovedWord, Survives, Fits;
    forall j | 0 <= j < |types|
      ensures Stores(MovedRow(ws, types, offset)[j], r.cells[j], at + offset, TmAt(r, types, j), ieee)
        <==> Survives(types[j], r.cells[j])
    {
      WordMoves(ws[j], types[j], r.cells[j], at, offset, TmAt(r, types, j), ieee);
    }
  }

  /** The words of a row after a move stand for what the move has made of its cells. */
  lemma RowBecomes(ws: seq<int>, r: RowRec, types: seq<ColType>, at: int, offset: int, ieee: real -> int)
    requires RowWords(ws, r, types, at, ieee) && at > 0 && forall j :: 0 <= j < |types| ==> Fits(types[j], r.cells[j])
    ensures RowWords(MovedRow(ws, types, offset), r.(cells := CellsMoved(r.cells, types, offset)), types, at + offset, ieee)
  {
    hide Stores, MovedWord, CellMoved, Fits;
    var r' := r.(cells := CellsMoved(r.cells, types, offset));
    forall j | 0 <= j < |types|
      ensures Stores(MovedRow(ws, types, offset)[j], r'.cells[j], at + offset, TmAt(r', types, j), ieee)
    {
      WordBecomes(ws[j], types[j], r.cells[j], at, offset, TmAt(r, types, j), ieee);
    }
  }

  lemma WordsBecome(ws: seq<seq<int>>, p: Picture, at: int, offset: int, ieee: real -> int)
    requires Drawn(p) && Words(ws, p, at, ieee) && at > 0
    ensures Drawn(PictureMoved(p, offset))
    ensures Words(MovedWords(ws, Types(p.cols), offset), PictureMoved(p, offset), at + offset, ieee)
  {
    hide MovedRow, RowWords, CellsMoved, Fits;
    DrawnMoved(p, offset);
    forall k | 0 <= k < |p.rows|
      ensures RowWords(MovedRow(ws[k], Types(p.cols), offset), PictureMoved(p, offset).rows[k], Types(p.cols), at + offset, ieee)
    {
      assert RecFits(p.rows[k], Types(p.cols));
      RowBecomes(ws[k], p.rows[k], Types(p.cols), at, offset, ieee);
    }
  }

  /** A block that has not moved. */
  lemma NotMoved(p: Picture)
    ensures PictureMoved(p, 0) == p
  {
    forall k | 0 <= k < |p.rows| ensures CellsMoved(p.rows[k].cells, Types(p.cols), 0) == p.rows[k].cells {}
    assert RecsMoved(p.rows, Types(p.cols), 0) == p.rows;
  }

  /** The same links, tables and bytes show a picture with other cells. */
  lemma ShowsMoved(mem: Memory, p: Picture, offset: int, at: int, ws: seq<seq<int>>)
    requires Drawn(p) && Shows(mem, p, at, ws) && Drawn(PictureMoved(p, offset))
    ensures Shows(mem, PictureMoved(p, offset), at, ws)
  {
    hide CellsMoved, Circular, RowsFit, Ascending, NamesAt;
    assert RowsAt(PictureMoved(p, offset).rows, at) == RowsAt(p.rows, at);
  }

  /** The words of all rows do exactly when every cell of the picture survives. */
  lemma WordsMove(ws: seq<seq<int>>, p: Picture, at: int, offset: int, ieee: real -> int)
    requires Drawn(p) && Words(ws, p, at, ieee) && at > 0 && offset != 0
    ensures Words(MovedWords(ws, Types(p.cols), offset), p, at + offset, ieee) <==> AllSurvive(p)
  {
    hide MovedWord, Survives, Fits, Stores, RowWords, MovedRow;
    var types := Types(p.cols);
    forall k | 0 <= k < |p.rows|
      ensures RowWords(MovedRow(ws[k], types, offset), p.rows[k], types, at + offset, ieee)
        <==> forall j :: 0 <= j < |types| ==> Survives(types[j], p.rows[k].cells[j])
    {
      RowMoves(ws[k], p.rows[k], types, at, offset, ieee);
    }
  }

  /** Stores into row `k` leave the others alone. */
  lemma OtherRow(mem: Memory, mem': Memory, p: Picture, j: nat, k: nat, was: int, at: int, ws: seq<int>,
                 l: Link, t: Tables, w: seq<int>)
    requires Ascending(p.rows) && j < |p.rows| && k < |p.rows| && j != k && RowIs(mem, p, j, was, at, ws)
    requires mem' == Memory(mem.links[at + p.rows[k].at := l], mem.tables[at + p.rows[k].at := t],
                            mem.cells[at + CellsAt(p.rows[k]) := w], mem.fields)
    ensures RowIs(mem', p, j, was, at, ws)
  {
    hide LinkAt;
  }

  /** The head and the rows form one circle exactly when each has the link of its place. */
  lemma Circles(links: map<int, Link>, rows: seq<RowRec>, at: int)
    requires Ascending(rows)
    ensures Circular(links, Head(at), RowsAt(rows, at)) <==>
      && Head(at) in links && links[Head(at)] == LinkAt(Head(at), RowsAt(rows, at), 0)
      && forall k :: 0 <= k < |rows| ==>
           at + rows[k].at in links && links[at + rows[k].at] == LinkAt(Head(at), RowsAt(rows, at), k + 1)
  {
    hide LinkAt;
    var head, order := Head(at), RowsAt(rows, at);
    forall k | 0 <= k < |rows| ensures Node(head, order, k + 1) == at + rows[k].at {}
    assert Node(head, order, 0) == head;
    assert Apart(head, order);
    if forall k :: 0 <= k < |rows| ==>
         at + rows[k].at in links && links[at + rows[k].at] == LinkAt(head, order, k + 1) {
      forall k | 0 < k <= |order|
        ensures Node(head, order, k) in links && links[Node(head, order, k)] == LinkAt(head, order, k)
      {
        assert Node(head, order, k) == at + rows[k - 1].at;
      }
    }
  }

  /** Showing a picture, taken apart. */
  lemma ShowsParts(mem: Memory, p: Picture, at: int, ws: seq<seq<int>>)
    requires Drawn(p) && Shows(mem, p, at, ws)
    ensures TableAt(mem, p, at, at) && HeadAt(mem, p, at, at) && RowsAre(mem, p, at, at, ws)
  {
    hide TableAt, LinkAt, TablesOf, Circular, RowsFit, Ascending, RowsAt, Head;
    assert Ascending(p.rows) by { hide Shows; }
    Circles(mem.links, p.rows, at);
    forall k | 0 <= k < |p.rows| ensures RowIs(mem, p, k, at, at, ws[k]) && |ws[k]| == p.nbCols {
      assert at + p.rows[k].at in mem.tables;
    }
  }

  /** And put together. */
  lemma PartsShow(mem: Memory, p: Picture, at: int, ws: seq<seq<int>>)
    requires Drawn(p) && TableAt(mem, p, at, at) && HeadAt(mem, p, at, at) && RowsAre(mem, p, at, at, ws)
    ensures Shows(mem, p, at, ws)
  {
    hide TableAt, LinkAt, TablesOf, Circular, RowsFit, Ascending, RowsAt, Head;
    assert Ascending(p.rows) by { hide RowsAre; }
    Circles(mem.links, p.rows, at);
    forall k | 0 <= k < |p.rows|
      ensures at + p.rows[k].at in mem.links
           && mem.links[at + p.rows[k].at] == LinkAt(Head(at), RowsAt(p.rows, at), k + 1)
      ensures at + p.rows[k].at in mem.tables && mem.tables[at + p.rows[k].at] == TablesOf(p.rows[k], at)
      ensures at + CellsAt(p.rows[k]) in mem.cells && mem.cells[at + CellsAt(p.rows[k])] == ws[k] && |ws[k]| == p.nbCols
    {
      assert RowIs(mem, p, k, at, at, ws[k]);
    }
  }

  /** A copy of the block shows the same with the old pointers. */
  lemma CopyShows(mem: Memory, p: Picture, at: int, offset: int, ws: seq<seq<int>>)
    requires Drawn(p) && Shows(mem, p, at, ws) && ListAt(mem, at, at)
    ensures var c := Copy(mem, offset);
            && TableAt(c, p, at, at + offset) && HeadAt(c, p, at, at + offset) && RowsAre(c, p, at, at + offset, ws)
            && ListAt(c, at, at + offset)
  {
    hide Shifted, LinkAt, TablesOf, TableIs, Shows, RowsFit;
    ShowsParts(mem, p, at, ws);
    ShiftedAt(mem.links, offset, Head(at));
    ShiftedAt(mem.links, offset, at - RES_SIZE + LIST);
    ShiftedAt(mem.fields, offset, at);
    forall k | 0 <= k < |p.rows|
      ensures RowIs(Copy(mem, offset), p, k, at, at + offset, ws[k])
    {
      assert RowIs(mem, p, k, at, at, ws[k]);
      ShiftedAt(mem.links, offset, at + p.rows[k].at);
      ShiftedAt(mem.tables, offset, at + p.rows[k].at);
      ShiftedAt(mem.cells, offset, at + CellsAt(p.rows[k]));
    }
  }

  /** Stores into the column table, and into links in front of the arena, leave the rows alone. */
  lemma RowsApart(mem: Memory, mem': Memory, p: Picture, was: int, at: int, ws: seq<seq<int>>)
    requires RowsAre(mem, p, was, at, ws) && mem'.tables == mem.tables && mem'.cells == mem.cells
    requires forall a :: a in mem.links && a >= at ==> a in mem'.links && mem'.links[a] == mem.links[a]
    ensures RowsAre(mem', p, was, at, ws)
  {
    hide LinkAt, TablesOf;
    forall k | 0 <= k < |p.rows| ensures RowIs(mem', p, k, was, at, ws[k]) && |ws[k]| == p.nbCols {
      assert RowIs(mem, p, k, was, at, ws[k]);
      assert at + p.rows[k].at >= at;
    }
  }

  lemma TableMoves(names: seq<Names>, names': seq<Names>, p: Picture, at: int, offset: int)
    requires Drawn(p) && TableIs(names, p, at) && at > 0 && |names'| == |names|
    requires forall k :: 0 <= k < |names| ==> names'[k] == MovedNames(names[k], offset)
    ensures TableIs(names', p, at + offset)
  {
    hide RowsFit;
  }

  /** The links of the head and of the rows in two places. */
  lemma LinksMove(rows: seq<RowRec>, k: nat, at: int, offset: int)
    requires k <= |rows|
    ensures var l := LinkAt(Head(at - offset), RowsAt(rows, at - offset), k);
            Link(l.next + offset, l.prev + offset) == LinkAt(Head(at), RowsAt(rows, at), k)
    ensures LinkAt(Head(at), RowsAt(rows, at), k).next == Node(Head(at), RowsAt(rows, at), k + 1)
  {}

  /** A MYSAC_RES in its block. Memory that is not in the block cannot be read. */
  class Block {
    /* MYSAC */
    var res: int
    var read: int
    var readLen: int
    var errorcode: int

    /* MYSAC_RES */
    var buffer: int
    var bufferLen: int
    var maxLen: int
    var extendSize: nat
    var nbCols: nat
    var cols: int
    var cr: int

    /* what the block holds; bytes is the arena behind the MYSAC_RES */
    var mem: Memory
    var bytes: seq<byte>

    /* how numbers are stored in floating point, and the words of the cells */
    ghost const ieee: real -> int
    ghost var words: seq<seq<int>>

    /** The block shows `p`: the MYSAC_RES is in front of the arena, and its list link refers to itself. */
    ghost predicate Pictures(p: Picture)
      reads `res, `buffer, `nbCols, `cols, `mem, `words
    {
      && res > 0 && buffer == res + RES_SIZE && nbCols == p.nbCols && (nbCols > 0 ==> cols == buffer)
      && Drawn(p) && Shows(mem, p, buffer, words) && ListAt(mem, buffer, buffer)
    }

    /** INIT_LIST_HEAD. */
    method InitListHead(list: int)
      modifies `mem
      ensures Circular(mem.links, list, []) && mem == old(mem).(links := old(mem.links)[list := Link(list, list)])
    {
      mem := mem.(links := mem.links[list := Link(list, list)]);
    }

    /** `mysac_init_res` and the reset in it, in a block at `at`. */
    method InitRes(at: int, len: nat)
      requires at > 0 && len >= RES_SIZE
      modifies `res, `buffer, `bufferLen, `maxLen, `extendSize, `nbCols, `mem, `words
      ensures res == at && buffer == at + RES_SIZE && bufferLen == len - RES_SIZE && maxLen == len && extendSize == 0
      ensures Pictures(Picture([], 0, [])) && Words(words, Picture([], 0, []), buffer, ieee)
    {
      res, buffer, bufferLen, maxLen, extendSize := at, at + RES_SIZE, len - RES_SIZE, len, 0;
      InitListHead(res + LIST);
      nbCols := 0;
      InitListHead(res + DATA);
      words := [];
      assert RowsAt([], buffer) == [];
    }

    /** The cleared table of `n` columns, at the start of the arena. */
    method OpenTable(n: nat)
      requires Pictures(Picture([], 0, [])) && read == buffer
      modifies `nbCols, `cols, `read, `mem
      ensures Pictures(Picture([], n, [])) && read == buffer + FIELD_SIZE * n
    {
      hide Circular, LinkAt;
      nbCols, cols := n, read;
      mem := mem.(fields := mem.fields[cols := seq(n, _ => BLANK)]);
      read := read + FIELD_SIZE * n;
    }

    /** `mysac_decode_field` stores the pointers of the next descriptor. */
    method StoreNames(names: Names, ghost p: Picture, ghost col: Column<Slice>, readId: nat)
      requires Pictures(p) && p.rows == [] && readId == |p.cols| < p.nbCols
      requires |col.strings| == NAMES + 1 && names == NamesAt(col, buffer)
      modifies `mem
      ensures Pictures(Picture(p.cols + [col], p.nbCols, []))
    {
      hide Circular, LinkAt, NamesAt;
      mem := mem.(fields := mem.fields[cols := mem.fields[cols][readId := names]]);
    }

    /** A row at the read position: it is linked behind the last one, and gets its tables; what is in them is whatever the
        memory held (`junk`). */
    method AddRow(junk: seq<int>, ghost p: Picture, ghost rec: RowRec)
      requires Pictures(p) && Drawn(p.(rows := p.rows + [rec])) && |junk| == nbCols == |rec.cells|
      requires read == buffer + rec.at
      modifies `cr, `read, `mem, `words
      ensures Pictures(p.(rows := p.rows + [rec])) && words == old(words) + [junk]
      ensures old(Words(words, p, buffer, ieee)) && |p.cols| == nbCols && (forall j :: 0 <= j < nbCols ==> rec.cells[j].Unset?) ==>
        Words(words, p.(rows := p.rows + [rec]), buffer, ieee)
      ensures cr == old(read) && read == buffer + TablesEnd(rec)
    {
      hide RowsFit, TableIs, Circular, LinkAt, Shows, RowWords;
      ghost var mem0 := mem;
      UnsetWords(junk, rec, Types(p.cols), buffer, ieee);
      NewEntry(p, rec, buffer);
      assert Circular(mem.links, res + DATA, RowsAt(p.rows, buffer)) by { ShowsCircle(mem, p, buffer, words); }
      cr := read;
      ListAddTail(cr, res + DATA, RowsAt(p.rows, buffer));
      read := read + ROWS_SIZE;
      var data := read;
      mem := mem.(cells := mem.cells[data := junk]);
      read := read + CELL_SIZE * nbCols;
      mem := mem.(tables := mem.tables[cr := Tables(read, data)]);
      read := read + LENGTH_SIZE * nbCols;
      words := words + [junk];
      ShowsMore(mem0, mem, p, rec, buffer, old(words), junk);
    }

    /** Stores into the cells of the last row, whose pointers and bytes are what `rec` says. */
    method StoreCells(ws: seq<int>, ghost p: Picture, ghost rec: RowRec)
      requires Pictures(p) && p.rows != [] && cr == buffer + p.rows[|p.rows| - 1].at && cr in mem.tables && |ws| == nbCols
      requires rec.at == p.rows[|p.rows| - 1].at && |rec.cells| == nbCols && Drawn(p.(rows := p.rows[|p.rows| - 1 := rec]))
      modifies `mem, `words
      ensures Pictures(p.(rows := p.rows[|p.rows| - 1 := rec])) && words == old(words)[|p.rows| - 1 := ws]
      ensures old(Words(words, p, buffer, ieee)) && RowWords(ws, rec, Types(p.cols), buffer, ieee) ==>
        Words(words, p.(rows := p.rows[|p.rows| - 1 := rec]), buffer, ieee)
    {
      hide RowsFit, TableIs, Circular, LinkAt, Shows, RowWords;
      ghost var mem0 := mem;
      ShowsCircle(mem, p, buffer, words);
      CursorTables(mem, p, buffer, words);
      mem := mem.(cells := mem.cells[mem.tables[cr].data := ws]);
      words := words[|p.rows| - 1 := ws];
      ShowsLast(mem0, mem, p, rec, buffer, old(words), ws);
    }

    /** The pointer to the struct tm of column `i`, at the read position, in the last row. */
    method StoreTm(i: nat, ghost p: Picture)
      requires Pictures(p) && p.rows != [] && cr == buffer + p.rows[|p.rows| - 1].at && cr in mem.tables && i < nbCols
      requires |p.cols| == nbCols && IsDated(Types(p.cols)[i]) && read >= buffer
      requires Begun(p.rows[|p.rows| - 1], Types(p.cols), i, read - buffer)
      requires Drawn(p.(rows := p.rows[|p.rows| - 1 := WithTm(p.rows[|p.rows| - 1], i, read - buffer)]))
      modifies `read, `mem, `words
      ensures var p' := p.(rows := p.rows[|p.rows| - 1 := WithTm(p.rows[|p.rows| - 1], i, old(read) - buffer)]);
              Pictures(p') && (old(Words(words, p, buffer, ieee)) ==> Words(words, p', buffer, ieee))
      ensures read == old(read) + TM_SIZE
    {
      hide RowsFit, TableIs, Circular, LinkAt, Shows, RowWords, Begun;
      ghost var last, rec := |p.rows| - 1, p.rows[|p.rows| - 1];
      LastWords(mem, p, buffer, words);
      var ws := mem.cells[mem.tables[cr].data];
      TmWords(ws, rec, Types(p.cols), i, read - buffer, buffer, ieee);
      StoreCells(ws[i := read], p, WithTm(rec, i, read - buffer));
      Advance(TM_SIZE);
    }

    /** What is stored of a packet ends `n` bytes further on. */
    method Advance(n: nat)
      modifies `read
      ensures read == old(read) + n
    {
      read := read + n;
    }

    /** list_del of the last row. */
    method RemoveRow(ghost p: Picture)
      requires Pictures(p) && p.rows != [] && cr == buffer + p.rows[|p.rows| - 1].at
      modifies `cr, `mem, `words
      ensures Pictures(p.(rows := p.rows[..|p.rows| - 1])) && words == old(words)[..|p.rows| - 1] && cr == 0
      ensures old(Words(words, p, buffer, ieee)) ==> Words(words, p.(rows := p.rows[..|p.rows| - 1]), buffer, ieee)
    {
      hide RowsFit, TableIs, Circular, LinkAt, Shows, RowWords;
      ghost var mem0, order := mem, RowsAt(p.rows, buffer);
      ShowsCircle(mem, p, buffer, words);
      ListDel(cr, res + DATA, order, |p.rows| - 1);
      cr := 0;
      words := words[..|p.rows| - 1];
      ShowsLess(mem0, mem, p, buffer, old(words));
    }

    /** __list_add. */
    method ListAdd(entry: int, prev: int, next: int)
      requires prev in mem.links && next in mem.links
      modifies `mem
      ensures mem == old(mem).(links := Added(old(mem.links), entry, prev, next))
    {
      mem := mem.(links := mem.links[next := Link(mem.links[next].next, entry)]);
      mem := mem.(links := mem.links[entry := Link(next, prev)]);
      mem := mem.(links := mem.links[prev := Link(entry, mem.links[prev].prev)]);
    }

    /** list_add_tail: the entry is the last one of the circle; links of other lists stay. */
    method ListAddTail(entry: int, head: int, ghost order: seq<int>)
      requires Circular(mem.links, head, order) && entry != head && entry !in order
      modifies `mem
      ensures Circular(mem.links, head, order + [entry]) && mem == old(mem).(links := mem.links)
      ensures forall a :: a in old(mem.links) && a != head && a != entry && a !in order ==>
        a in mem.links && mem.links[a] == old(mem.links[a])
    {
      hide Circular, Added, LinkAt;
      CircleGrows(mem.links, head, order, entry);
      ghost var links, last := mem.links, mem.links[head].prev;
      CircleAt(links, head, order, 0);
      ListAdd(entry, mem.links[head].prev, head);
      forall a | a in links && a != head && a != entry && a !in order
        ensures a in mem.links && mem.links[a] == links[a]
      {
        AddedAt(links, entry, last, head, a);
      }
    }

    /** __list_del. */
    method ListUnlink(prev: int, next: int)
      requires prev in mem.links && next in mem.links
      modifies `mem
      ensures mem == old(mem).(links := Deleted(old(mem.links), prev, next))
    {
      mem := mem.(links := mem.links[next := Link(mem.links[next].next, prev)]);
      mem := mem.(links := mem.links[prev := Link(next, mem.links[prev].prev)]);
    }

    /** list_del of the entry at position `k`: the others keep their order, and links of other lists stay. */
    method ListDel(entry: int, ghost head: int, ghost order: seq<int>, ghost k: nat)
      requires Circular(mem.links, head, order) && k < |order| && entry == order[k]
      modifies `mem
      ensures Circular(mem.links, head, order[..k] + order[k + 1..]) && mem == old(mem).(links := mem.links)
      ensures forall a :: a in old(mem.links) && a != head && a !in order ==>
        a in mem.links && mem.links[a] == old(mem.links[a])
    {
      hide Circular, Deleted, LinkAt;
      CircleAt(mem.links, head, order, k + 1);
      CircleShrinks(mem.links, head, order, k);
      ghost var links, prev, next := mem.links, Node(head, order, k), Node(head, order, k + 2);
      ListUnlink(mem.links[entry].prev, mem.links[entry].next);
      forall a | a in links && a != head && a !in order
        ensures a in mem.links && mem.links[a] == links[a]
      {
        DeletedAt(links, prev, next, a);
      }
    }

    /** mysac_fetch_row, with `k` rows fetched before: the next row of the picture, or NULL and the cursor back at the
        start behind the last one. */
    method FetchRow(ghost p: Picture, ghost k: nat) returns (data: int)
      requires Pictures(p) && k <= |p.rows| && cr == (if k == 0 then 0 else buffer + p.rows[k - 1].at)
      modifies `cr
      ensures k < |p.rows| ==> data == buffer + CellsAt(p.rows[k]) && cr == buffer + p.rows[k].at
      ensures k == |p.rows| ==> data == 0 && cr == 0
    {
      hide RowsFit, TableAt, Circular;
      var head := res + DATA;
      CircleAt(mem.links, head, RowsAt(p.rows, buffer), 0);
      CircleAt(mem.links, head, RowsAt(p.rows, buffer), k);
      NodeAt(p.rows, 0, buffer);
      NodeAt(p.rows, k, buffer);
      if mem.links[head].next == head {
        cr := 0;
        return 0;
      }
      cr := if cr == 0 then mem.links[head].next else mem.links[cr].next;
      if cr == head {
        cr := 0;
        return 0;
      }
      data := mem.tables[cr].data;
    }

    /** The calls of a client until it gets NULL: the tables of cells of all rows, in order. */
    method FetchAll(ghost p: Picture) returns (rows: seq<int>)
      requires Pictures(p) && cr == 0
      modifies `cr
      ensures |rows| == |p.rows| && cr == 0 && forall k :: 0 <= k < |rows| ==> rows[k] == buffer + CellsAt(p.rows[k])
    {
      hide Drawn, Shows;
      rows := [];
      while true
        invariant |rows| <= |p.rows| && cr == if rows == [] then 0 else buffer + p.rows[|rows| - 1].at
        invariant forall k :: 0 <= k < |rows| ==> rows[k] == buffer + CellsAt(p.rows[k])
        decreases |p.rows| - |rows|
      {
        var data := FetchRow(p, |rows|);
        if data == 0 {
          return;
        }
        rows := rows + [data];
      }
    }

    /** What `realloc` does when it moves the block: everything in it can be found there, and only there. */
    method Realloc(offset: int)
      modifies `mem, `bytes
      ensures mem == Copy(old(mem), offset) && (offset == 0 ==> mem == old(mem))
      ensures bytes == old(bytes) + seq(extendSize, _ => 0)
    {
      hide Shifted;
      ShiftedNone(mem.links);
      ShiftedNone(mem.tables);
      ShiftedNone(mem.cells);
      ShiftedNone(mem.fields);
      mem := Copy(mem, offset);
      bytes := bytes + seq(extendSize, _ => 0);
    }

    /** The pointers of one MYSQL_FIELD. */
    method MoveName(f: Names, offset: int) returns (f': Names)
      ensures f' == MovedNames(f, offset)
    {
      f' := f;
      if f'.name != 0 {
        f' := f'.(name := f'.name + offset);
      }
      if f'.orgName != 0 {
        f' := f'.(orgName := f'.orgName + offset);
      }
      if f'.table != 0 {
        f' := f'.(table := f'.table + offset);
      }
      if f'.orgTable != 0 {
        f' := f'.(orgTable := f'.orgTable + offset);
      }
      if f'.db != 0 {
        f' := f'.(db := f'.db + offset);
      }
      if f'.catalog != 0 {
        f' := f'.(catalog := f'.catalog + offset);
      }
      if f'.def != 0 {
        f' := f'.(def := f'.def + offset);
      }
    }

    /** The loop over the column table. */
    method MoveNames(offset: int)
      requires nbCols > 0 ==> cols in mem.fields && |mem.fields[cols]| == nbCols
      modifies `mem
      ensures mem == old(mem).(fields := mem.fields)
      ensures nbCols > 0 ==> cols in mem.fields && |mem.fields[cols]| == nbCols
      ensures forall k :: 0 <= k < nbCols ==> mem.fields[cols][k] == MovedNames(old(mem.fields[cols])[k], offset)
    {
      for i := 0 to nbCols
        invariant mem == old(mem).(fields := mem.fields)
        invariant nbCols > 0 ==> cols in mem.fields && |mem.fields[cols]| == nbCols
        invariant forall k :: 0 <= k < i ==> mem.fields[cols][k] == MovedNames(old(mem.fields[cols])[k], offset)
        invariant forall k :: i <= k < nbCols ==> mem.fields[cols][k] == old(mem.fields[cols])[k]
      {
        var f := MoveName(mem.fields[cols][i], offset);
        mem := mem.(fields := mem.fields[cols := mem.fields[cols][i := f]]);
      }
    }

    /** The loop over the cells of the row whose table is at `data`. */
    method MoveCells(data: int, offset: int, ghost types: seq<ColType>)
      requires data in mem.cells && |mem.cells[data]| == nbCols == |types| && Kinds(mem, cols, types)
      modifies `mem
      ensures mem == old(mem).(cells := old(mem.cells)[data := MovedRow(old(mem.cells[data]), types, offset)])
    {
      ghost var ws := mem.cells[data];
      for i := 0 to nbCols
        invariant data in mem.cells && |mem.cells[data]| == nbCols
        invariant mem == old(mem).(cells := old(mem.cells)[data := mem.cells[data]])
        invariant forall j :: 0 <= j < i ==> mem.cells[data][j] == MovedWord(types[j], ws[j], offset)
        invariant forall j :: i <= j < nbCols ==> mem.cells[data][j] == ws[j]
      {
        match mem.fields[cols][i].kind
        case Time | Year | Timestamp | DateTime | Date | String | VarChar | VarString
           | TinyBlob | MediumBlob | LongBlob | Blob =>
          if mem.cells[data][i] != 0 {
            mem := mem.(cells := mem.cells[data := mem.cells[data][i := mem.cells[data][i] + offset]]);
          }
        case _ =>
      }
      assert mem.cells[data] == MovedRow(ws, types, offset);
    }

    /** One step of the walk: the pointers of row `k`, whose link is at `run`. */
    method MoveRow(run: int, offset: int, ghost p: Picture, ghost k: nat, ghost types: seq<ColType>, ghost ws: seq<int>)
        returns (next: int)
      requires k < |p.rows| && run == buffer + p.rows[k].at && |ws| == nbCols == |types| && Kinds(mem, cols, types)
      requires RowIs(mem, p, k, buffer - offset, buffer, ws)
      modifies `mem
      ensures mem == Memory(old(mem.links)[run := LinkAt(Head(buffer), RowsAt(p.rows, buffer), k + 1)],
                            old(mem.tables)[run := TablesOf(p.rows[k], buffer)],
                            old(mem.cells)[buffer + CellsAt(p.rows[k]) := MovedRow(ws, types, offset)], old(mem.fields))
      ensures next == Node(Head(buffer), RowsAt(p.rows, buffer), k + 2)
    {
      hide LinkAt, Node;
      LinksMove(p.rows, k + 1, buffer, offset);
      next := mem.links[run].next + offset;
      var prev := mem.links[run].prev + offset;
      var row := mem.tables[run];
      row := Tables(row.lengths + offset, row.data + offset);
      mem := mem.(tables := mem.tables[run := row]);
      MoveCells(row.data, offset, types);
      mem := mem.(links := mem.links[run := Link(next, prev)]);
      next := mem.links[run].next;
    }

    /** The walk over the row list, whose head has moved already. It leaves every row as the arena at `buffer` needs it,
        and ends where it began. */
    method MoveRows(offset: int, ghost p: Picture, ghost types: seq<ColType>, ghost ws: seq<seq<int>>)
      requires Ascending(p.rows) && (p.rows != [] ==> nbCols == |types| && Kinds(mem, cols, types)) && nbCols == p.nbCols
      requires HeadAt(mem, p, buffer, buffer) && RowsAre(mem, p, buffer - offset, buffer, ws)
      modifies `mem
      ensures RowsAre(mem, p, buffer, buffer, MovedWords(ws, types, offset))
      ensures mem.fields == old(mem.fields)
      ensures forall a :: a in old(mem.links) && a < buffer ==> a in mem.links && mem.links[a] == old(mem.links[a])
    {
      hide RowIs, TablesOf, MovedRow, Node;
      var stop := Head(buffer);
      LinksMove(p.rows, 0, buffer, 0);
      var run := mem.links[stop].next;
      ghost var k := 0;
      while run != stop
        invariant 0 <= k <= |p.rows| && run == Node(Head(buffer), RowsAt(p.rows, buffer), k + 1)
        invariant mem.fields == old(mem.fields)
        invariant forall a :: a in old(mem.links) && a < buffer ==> a in mem.links && mem.links[a] == old(mem.links[a])
        invariant forall j :: 0 <= j < k ==> RowIs(mem, p, j, buffer, buffer, MovedRow(ws[j], types, offset))
        invariant forall j :: k <= j < |p.rows| ==> RowIs(mem, p, j, buffer - offset, buffer, ws[j])
        decreases |p.rows| - k
      {
        NodeAt(p.rows, k, buffer);
        ghost var mem0 := mem;
        run := MoveRow(run, offset, p, k, types, ws[k]);
        RowDone(mem0, mem, p, k, offset, buffer, types, ws[k]);
        ghost var l, t := LinkAt(Head(buffer), RowsAt(p.rows, buffer), k + 1), TablesOf(p.rows[k], buffer);
        forall j | 0 <= j < k
          ensures RowIs(mem, p, j, buffer, buffer, MovedRow(ws[j], types, offset))
        {
          OtherRow(mem0, mem, p, j, k, buffer, buffer, MovedRow(ws[j], types, offset), l, t, MovedRow(ws[k], types, offset));
        }
        forall j | k < j < |p.rows|
          ensures RowIs(mem, p, j, buffer - offset, buffer, ws[j])
        {
          OtherRow(mem0, mem, p, j, k, buffer - offset, buffer, ws[j], l, t, MovedRow(ws[k], types, offset));
        }
        k := k + 1;
      }
      NodeAt(p.rows, k, buffer);
    }

    /** The pointers of the MYSAC_RES and of the column table, in a copy of the block whose arena was at `buffer`. */
    method MoveHeader(offset: int, ghost p: Picture, ghost ws: seq<seq<int>>)
      requires Drawn(p) && nbCols == p.nbCols && (nbCols > 0 ==> cols == buffer) && buffer > 0
      requires TableAt(mem, p, buffer, buffer + offset) && HeadAt(mem, p, buffer, buffer + offset)
      requires RowsAre(mem, p, buffer, buffer + offset, ws) && ListAt(mem, buffer, buffer + offset)
      modifies `buffer, `cr, `read, `mem, `cols
      ensures buffer == old(buffer) + offset && cr == old(cr) + offset && read == old(read) + offset
      ensures nbCols > 0 ==> cols == buffer
      ensures TableAt(mem, p, buffer, buffer) && HeadAt(mem, p, buffer, buffer)
      ensures RowsAre(mem, p, buffer - offset, buffer, ws) && ListAt(mem, buffer - offset, buffer)
    {
      hide RowsAre, NamesAt, LinkAt, RowsFit, Ascending, MovedNames;
      ghost var mem0, was := mem, buffer;
      buffer := buffer + offset;
      cr := cr + offset;
      read := read + offset;
      var head := Head(buffer);
      var next, prev := mem.links[head].next + offset, mem.links[head].prev + offset;
      mem := mem.(links := mem.links[head := Link(next, prev)]);
      LinksMove(p.rows, 0, buffer, offset);
      cols := cols + offset;
      MoveNames(offset);
      if nbCols > 0 {
        TableMoves(mem0.fields[cols], mem.fields[cols], p, was, offset);
      }
      RowsApart(mem0, mem, p, was, buffer, ws);
    }

    /** The list link, and the links of its neighbours. */
    method MoveNeighbours(to: int, offset: int)
      requires buffer == to + RES_SIZE && ListAt(mem, buffer - offset, buffer)
      modifies `mem
      ensures mem == old(mem).(links := old(mem.links)[to + LIST := Link(to + LIST, to + LIST)])
    {
      var list, links := to + LIST, mem.links;
      links := links[list := Link(links[list].next, links[list].prev + offset)];
      links := links[list := Link(links[list].next + offset, links[list].prev)];
      var p, n := links[list].prev, links[list].next;
      links := links[p := Link(list, links[p].prev)];
      links := links[n := Link(links[n].next, list)];
      mem := mem.(links := links);
    }

    /** All that follows a `realloc` that moved the block to `to`. */
    method Relocate(to: int, ghost p: Picture)
      requires to > 0 && buffer == res + RES_SIZE && res > 0 && Drawn(p)
      requires nbCols == p.nbCols && (nbCols > 0 ==> cols == buffer)
      requires TableAt(mem, p, buffer, to + RES_SIZE) && HeadAt(mem, p, buffer, to + RES_SIZE)
      requires RowsAre(mem, p, buffer, to + RES_SIZE, words) && ListAt(mem, buffer, to + RES_SIZE)
      modifies `res, `buffer, `cr, `read, `mem, `cols, `words
      ensures res == to && Pictures(p) && words == MovedWords(old(words), Types(p.cols), to - old(res))
      ensures read - res == old(read - res) && cr - res == old(cr - res)
    {
      hide RowsAre, TableIs, RowsFit, Ascending, Shows, LinkAt, MovedWords;
      var offset := to - res;
      MoveHeader(offset, p, words);
      TableKinds(mem, p, buffer);
      MoveRows(offset, p, Types(p.cols), words);
      ghost var mem0 := mem;
      MoveNeighbours(to, offset);
      words := MovedWords(words, Types(p.cols), offset);
      RowsApart(mem0, mem, p, buffer, buffer, words);
      PartsShow(mem, p, buffer, words);
      res := to;
    }

    lemma PicturesMoved(p: Picture, offset: int)
      requires Pictures(p) && Drawn(PictureMoved(p, offset))
      ensures Pictures(PictureMoved(p, offset))
    {
      hide Drawn, Shows;
      ShowsMoved(mem, p, offset, buffer, words);
    }

    /** `mysac_extend_res`. `to` is where `realloc` puts the block, 0 if there is no memory. The block shows the same
        columns and rows, in the same circle, and its words stand for what the move makes of the cells; they stay right
        exactly when every cell survives. */
    method ExtendRes(to: nat, ghost p: Picture) returns (ret: int)
      requires Pictures(p) && Words(words, p, buffer, ieee)
      modifies this
      ensures ret == if extendSize == 0 || to == 0 then -1 else 0
      ensures ret == -1 ==> errorcode == if extendSize == 0 then BUFFER_OVERSIZE else SYSTEM_ERROR
      ensures ret == -1 ==>
        && unchanged(`res, `read, `readLen, `buffer, `bufferLen, `maxLen, `extendSize, `nbCols, `cols, `cr)
        && unchanged(`mem, `bytes, `words)
      ensures ret == 0 ==> res == to && Pictures(p)
      ensures ret == 0 ==> Pictures(PictureMoved(p, to - old(res))) && Words(words, PictureMoved(p, to - old(res)), buffer, ieee)
      ensures ret == 0 ==> (Words(words, p, buffer, ieee) <==> (to == old(res) || AllSurvive(p)))
      ensures ret == 0 && Relocatable(Types(p.cols)) ==> Words(words, p, buffer, ieee)
      ensures ret == 0 ==> words == if to == old(res) then old(words) else MovedWords(old(words), Types(p.cols), to - old(res))
      ensures ret == 0 ==> bytes == old(bytes) + seq(old(extendSize), _ => 0)
      ensures ret == 0 ==> read - res == old(read - res) && cr - res == old(cr - res)
      ensures ret == 0 ==>
        && readLen == old(readLen) + extendSize && bufferLen == old(bufferLen) + extendSize
        && maxLen == old(maxLen) + extendSize && extendSize == old(extendSize)
    {
      hide RowsAre, TableAt, HeadAt, ListAt, AllSurvive, Relocatable, Drawn, Shows, Words, Copy, MovedWords;
      if extendSize == 0 {
        errorcode := BUFFER_OVERSIZE;
        return -1;
      }
      if to == 0 {
        errorcode := SYSTEM_ERROR;
        return -1;
      }
      CopyShows(mem, p, buffer, to - res, words);
      ghost var was := buffer;
      Realloc(to - res);
      bufferLen := bufferLen + extendSize;
      maxLen := maxLen + extendSize;
      readLen := readLen + extendSize;
      NotMoved(p);
      RelocatableSurvives(p);
      if to == res {
        return 0;
      }
      ghost var offset := to - res;
      WordsMove(words, p, was, offset, ieee);
      WordsBecome(words, p, was, offset, ieee);
      Relocate(to, p);
      PicturesMoved(p, offset);
      ret := 0;
    }
  }

  /* What the stores of the receive engine show. */

  lemma ShowsCircle(mem: Memory, p: Picture, at: int, ws: seq<seq<int>>)
    requires Drawn(p) && Shows(mem, p, at, ws)
    ensures Circular(mem.links, Head(at), RowsAt(p.rows, at)) && |ws| == |p.rows|
  {}

  /** A row behind the others is none of them, and not the head. */
  lemma NewEntry(p: Picture, rec: RowRec, at: int)
    requires Ascending(p.rows + [rec])
    ensures at + rec.at != Head(at) && at + rec.at !in RowsAt(p.rows, at)
  {
    forall k | 0 <= k < |p.rows| ensures p.rows[k].at < rec.at {
      assert (p.rows + [rec])[k].at < (p.rows + [rec])[|p.rows|].at;
    }
  }

  lemma ShowsMore(mem: Memory, mem': Memory, p: Picture, rec: RowRec, at: int, ws: seq<seq<int>>, w: seq<int>)
    requires Drawn(p) && Shows(mem, p, at, ws) && ListAt(mem, at, at) && Drawn(p.(rows := p.rows + [rec])) && |w| == p.nbCols
    requires Circular(mem'.links, Head(at), RowsAt(p.rows, at) + [at + rec.at]) && mem'.fields == mem.fields
    requires mem'.tables == mem.tables[at + rec.at := TablesOf(rec, at)] && mem'.cells == mem.cells[at + CellsAt(rec) := w]
    requires forall a :: a in mem.links && a != Head(at) && a != at + rec.at && a !in RowsAt(p.rows, at) ==>
               a in mem'.links && mem'.links[a] == mem.links[a]
    ensures Shows(mem', p.(rows := p.rows + [rec]), at, ws + [w]) && ListAt(mem', at, at)
  {
    hide RowsFit, TableIs, Circular, LinkAt, TablesOf;
    var rows, more := p.rows, p.rows + [rec];
    assert RowsAt(more, at) == RowsAt(rows, at) + [at + rec.at];
    NewEntry(p, rec, at);
    SameTable(mem, mem', p, p.(rows := more), at);
    forall k | 0 <= k < |rows| ensures more[k].at < rec.at { assert more[k].at < more[|rows|].at; }
  }

  /** The column table alone is what the descriptors say. */
  lemma SameTable(mem: Memory, mem': Memory, p: Picture, p': Picture, at: int)
    requires Drawn(p) && Drawn(p') && TableAt(mem, p, at, at) && p'.cols == p.cols && p'.nbCols == p.nbCols
    requires mem'.fields == mem.fields
    ensures TableAt(mem', p', at, at)
  {
    hide NamesAt, RowsFit;
  }

  lemma ShowsLast(mem: Memory, mem': Memory, p: Picture, rec: RowRec, at: int, ws: seq<seq<int>>, w: seq<int>)
    requires Drawn(p) && p.rows != [] && Shows(mem, p, at, ws) && |w| == p.nbCols
    requires rec.at == p.rows[|p.rows| - 1].at && |rec.cells| == |p.rows[|p.rows| - 1].cells|
    requires Drawn(p.(rows := p.rows[|p.rows| - 1 := rec]))
    requires mem' == mem.(cells := mem.cells[at + CellsAt(rec) := w])
    ensures Shows(mem', p.(rows := p.rows[|p.rows| - 1 := rec]), at, ws[|p.rows| - 1 := w])
  {
    hide RowsFit, TableIs, Circular, LinkAt;
    var last, rows := |p.rows| - 1, p.rows[|p.rows| - 1 := rec];
    assert RowsAt(rows, at) == RowsAt(p.rows, at);
    SameTable(mem, mem', p, p.(rows := rows), at);
    forall k | 0 <= k < last ensures rows[k].at < rec.at { assert p.rows[k].at < p.rows[last].at; }
  }

  lemma ShowsLess(mem: Memory, mem': Memory, p: Picture, at: int, ws: seq<seq<int>>)
    requires Drawn(p) && p.rows != [] && Shows(mem, p, at, ws) && ListAt(mem, at, at)
    requires var order := RowsAt(p.rows, at);
             && Circular(mem'.links, Head(at), order[..|order| - 1] + order[|order|..])
             && forall a :: a in mem.links && a != Head(at) && a !in order ==> a in mem'.links && mem'.links[a] == mem.links[a]
    requires mem' == mem.(links := mem'.links)
    ensures var p' := p.(rows := p.rows[..|p.rows| - 1]);
            Drawn(p') && Shows(mem', p', at, ws[..|p.rows| - 1]) && ListAt(mem', at, at)
  {
    hide RowsFit, TableIs, Circular, LinkAt;
    DrawnLess(p);
    var rows := p.rows[..|p.rows| - 1];
    var order := RowsAt(p.rows, at);
    assert RowsAt(rows, at) == order[..|order| - 1] + order[|order|..];
    SameTable(mem, mem', p, p.(rows := rows), at);
  }

  /** Any words will do for a row without cells. */
  lemma UnsetWords(w: seq<int>, rec: RowRec, types: seq<ColType>, at: int, ieee: real -> int)
    requires |w| == |rec.cells|
    ensures |types| == |w| && (forall j :: 0 <= j < |w| ==> rec.cells[j].Unset?) ==> RowWords(w, rec, types, at, ieee)
  {}

  lemma LastWords(mem: Memory, p: Picture, at: int, ws: seq<seq<int>>)
    requires Drawn(p) && p.rows != [] && Shows(mem, p, at, ws)
    ensures var r := p.rows[|p.rows| - 1];
            && |r.cells| == p.nbCols && at + r.at in mem.tables && mem.tables[at + r.at].data == at + CellsAt(r)
            && at + CellsAt(r) in mem.cells && mem.cells[at + CellsAt(r)] == ws[|p.rows| - 1] && |ws[|p.rows| - 1]| == p.nbCols
  {
    CursorTables(mem, p, at, ws);
  }

  /** The pointer to one more struct tm. */
  lemma TmWords(w: seq<int>, rec: RowRec, types: seq<ColType>, i: nat, read: nat, at: int, ieee: real -> int)
    requires Begun(rec, types, i, read) && i < |types| == |w| && IsDated(types[i])
    ensures RowWords(w, rec, types, at, ieee) ==> RowWords(w[i := at + read], WithTm(rec, i, read), types, at, ieee)
  {
    hide Laid;
    if RowWords(w, rec, types, at, ieee) {
      var w', rec' := w[i := at + read], WithTm(rec, i, read);
      forall j | 0 <= j < |types| ensures Stores(w'[j], rec'.cells[j], at, TmAt(rec', types, j), ieee) {
        TmStays(rec, types, i, read, j);
      }
    }
  }

  lemma TmStays(rec: RowRec, types: seq<ColType>, i: nat, read: nat, j: nat)
    requires Begun(rec, types, i, read) && i < |types| && j < |types| && IsDated(types[i])
    ensures j == i ==> TmAt(WithTm(rec, i, read), types, j) == read
    ensures j != i && rec.cells[j].Moment? ==> TmAt(WithTm(rec, i, read), types, j) == TmAt(rec, types, j)
    ensures rec.cells[j].Moment? || rec.cells[j].Unset?
  {
    hide Laid;
    if j < i && IsDated(types[j]) { DatedBelow(types, j, i); }
  }

  lemma CursorTables(mem: Memory, p: Picture, at: int, ws: seq<seq<int>>)
    requires Drawn(p) && p.rows != [] && Shows(mem, p, at, ws)
    ensures var r := p.rows[|p.rows| - 1];
            && |r.cells| == p.nbCols && at + r.at in mem.tables && mem.tables[at + r.at].data == at + CellsAt(r)
            && at + CellsAt(r) in mem.cells
  {
    assert RecFits(p.rows[|p.rows| - 1], Types(p.cols));
  }

  /** The column table at `cols` has the types `types`. */
  ghost predicate Kinds(mem: Memory, cols: int, types: seq<ColType>)
  {
    |types| > 0 ==>
      cols in mem.fields && |mem.fields[cols]| == |types|
      && forall j :: 0 <= j < |types| ==> mem.fields[cols][j].kind == types[j]
  }

  lemma TableKinds(mem: Memory, p: Picture, at: int)
    requires Drawn(p) && TableAt(mem, p, at, at)
    ensures |p.cols| == p.nbCols ==> Kinds(mem, at, Types(p.cols))
  {
    hide RowsFit, NameAt;
  }

  lemma NodeAt(rows: seq<RowRec>, k: nat, at: int)
    requires k <= |rows|
    ensures Node(Head(at), RowsAt(rows, at), k + 1) == if k < |rows| then at + rows[k].at else Head(at)
  {}

  /** Row `k` after its step of the walk. */
  lemma RowDone(mem: Memory, mem': Memory, p: Picture, k: nat, offset: int, at: int, types: seq<ColType>, ws: seq<int>)
    requires k < |p.rows|
    requires mem' == Memory(mem.links[at + p.rows[k].at := LinkAt(Head(at), RowsAt(p.rows, at), k + 1)],
                            mem.tables[at + p.rows[k].at := TablesOf(p.rows[k], at)],
                            mem.cells[at + CellsAt(p.rows[k]) := MovedRow(ws, types, offset)], mem.fields)
    ensures RowIs(mem', p, k, at, at, MovedRow(ws, types, offset))
  {}

  /** A result of one BIT column, and one row with the byte at offset 192. */
  const BIT_COLUMN: Column<Slice> := Column([Null, Null, Null, Null, Null, Null, Null], 63, 1, 16, 0, 0)
  const BIT_ROW := RowRec(128, [Text(Slice(192, 1))], [], 184, 194)
  const BIT_RESULT := Picture([BIT_COLUMN], 1, [BIT_ROW])

  /** That result, in a block at `res`. */
  method BitResult(res: nat) returns (b: Block)
    requires res > 0
    ensures fresh(b) && b.res == res && b.extendSize == 1024
    ensures b.Pictures(BIT_RESULT) && Words(b.words, BIT_RESULT, b.buffer, b.ieee)
    ensures b.words == [[res + RES_SIZE + 192]]
  {
    b := new Block;
    var buffer := res + RES_SIZE;
    var row := buffer + BIT_ROW.at;
    b.res, b.buffer, b.nbCols, b.cols, b.extendSize := res, buffer, 1, buffer, 1024;
    var links := map[res + LIST := Link(res + LIST, res + LIST), res + DATA := Link(row, row), row := Link(res + DATA, res + DATA)];
    b.mem := Memory(links, map[row := TablesOf(BIT_ROW, buffer)], map[buffer + CellsAt(BIT_ROW) := [buffer + 192]],
                    map[buffer := [NamesAt(BIT_COLUMN, buffer)]]);
    b.words := [[buffer + 192]];
    assert RowsAt([BIT_ROW], buffer) == [row];
    assert RecFits(BIT_ROW, Types([BIT_COLUMN])) by {
      assert Types([BIT_COLUMN])[0] == Bit;
    }
  }

  /** After an extension that moves it, the block still has the row, and its cell points into memory that was freed. */
  method BitRowDangles(res: nat, to: nat) returns (b: Block)
    requires res > 0 && to > 0 && to != res
    ensures b.Pictures(BIT_RESULT) && !Words(b.words, BIT_RESULT, b.buffer, b.ieee)
    ensures b.words == [[res + RES_SIZE + 192]] && b.res == to
  {
    hide Block.Pictures, Words, AllSurvive, MovedWords;
    b := BitResult(res);
    BitLost(res + RES_SIZE + 192, to - res);
    var ret := b.ExtendRes(to, BIT_RESULT);
  }

  lemma BitLost(w: int, offset: int)
    ensures !AllSurvive(BIT_RESULT) && MovedWords([[w]], Types(BIT_RESULT.cols), offset) == [[w]]
  {
    assert Types(BIT_RESULT.cols)[0] == Bit;
    assert !Survives(Types(BIT_RESULT.cols)[0], BIT_RESULT.rows[0].cells[0]);
    assert MovedRow([w], Types(BIT_RESULT.cols), offset) == [w];
  }
}
