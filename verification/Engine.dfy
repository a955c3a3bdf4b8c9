/** The receive engine: `mysac_extend_res`, `mysac_decode_respbloc` and `mysac_send_query` over one growable arena.
    Addresses are offsets from the start of the arena. */
module Engine {
  import opened Bytes
  import opened Result
  import opened Field
  import opened Stream
  import opened Arena
  import opened Moves
  import opened Net
  import TextRow
  import BinaryRow

  const WANT_READ := 4
  const WANT_WRITE := 5
  const BUFFER_TOO_SMALL := 14
  const COM_QUERY: byte := 3

  /* read_state */
  datatype ReadState = Init | ReadLen | ReadData | DecodeData

  /* my_query_st */
  datatype QueryState = Sending | RecvColNum | RecvColDesc | RecvMarker | RecvData

  /** A step that may have to wait for the server, or for memory it cannot get. */
  datatype Progress = Ready | Blocked | NoSpace

  /** What `mysac_decode_respbloc` reports. */
  datatype Response = WantRead | OutOfSpace | Got(kind: Packet)

  /** One MYSAC with its MYSAC_RES. */
  class Mysac {
    const net: Socket

    /* the request */
    var cmd: seq<byte>
    var send: nat

    /* the packet reader */
    var qst: QueryState
    var readst: ReadState
    var len: nat
    var packetLength: nat
    var packetNumber: nat
    var status: nat
    var warnings: nat
    var errorcode: int
    var binary: bool // stmt_id == 1

    /* the arena: read is where the next packet goes, readLen how much room the code thinks is left there */
    var buf: array<byte>
    var read: nat
    var readLen: nat
    var extendSize: nat
    /* how often the block has been extended; the k-th time, realloc moves it by shift(k), 0 if it stays */
    var grown: nat
    const shift: nat -> int

    /* the result */
    var nbCols: nat
    var readId: nat
    var cols: seq<Column<Slice>>
    var data: seq<RowRec> // the row list
    var cr: int           // current row in the list, -1 for none
    var nbLines: nat

    /* where in the stream the result set and the current packet begin; marks between column strings; bytes of the
       column count packet and of the column end marker, which the code never counts as free again */
    ghost var origin: nat
    ghost var start: nat
    ghost var marks: seq<nat>
    ghost var countLen: nat
    ghost var markLen: nat
    /* what the whole stream says, and what the columns and rows stored so far stand for */
    ghost var goal: Outcome
    ghost var columns: seq<Column<seq<byte>>>
    ghost var rows: seq<Row>
    /* how often the block had been extended when each row was stored, and its size when the answer began */
    ghost var since: seq<nat>
    ghost var room: nat

    /** A connection with a result of `bufferLen` bytes that grows by `extendSize` (`mysac_new_res`). */
    constructor (net: Socket, bufferLen: nat, extendSize: nat, shift: nat -> int)
      ensures this.net == net && fresh(buf) && buf.Length == bufferLen && this.extendSize == extendSize && this.shift == shift
      ensures !Multi(status)
    {
      this.net, this.shift, grown, since, room := net, shift, 0, [], 0;
      cmd, send, qst, readst, len, packetLength, packetNumber := [], 0, Sending, Init, 0, 0, 0;
      status, warnings, errorcode, binary := 0, 0, 0, false;
      buf := new byte[bufferLen];
      read, readLen, this.extendSize := 0, bufferLen, extendSize;
      nbCols, readId, cols, data, cr, nbLines := 0, 0, [], [], -1, 0;
      origin, start, marks, countLen, markLen, goal, columns, rows := 0, 0, [], 0, 0, NeedMore, [], [];
    }

    /** What the block shows can be drawn, so its relocation is what `Relocation` says. */
    ghost predicate Shown()
      reads `cols, `nbCols, `data
    {
      Drawn(Picture(cols, nbCols, data))
    }

    /** The accounting of the arena between two packets. */
    ghost predicate Sound()
      reads `read, `readLen, `countLen, `markLen, `buf, `cols, `nbCols, `data, `start, `room, `extendSize, net`pos
    {
      && read + readLen + countLen + markLen == buf.Length && net.pos <= |net.incoming|
      && Shown() && (HasPacket(net.incoming, start) ==> readLen <= Most(room, net.incoming, extendSize, nbCols))
    }

    /** The packet that begins at `start` has been read as far as `readst`, `len` and the stream position say. */
    ghost predicate Reading()
      reads `readst, `len, `packetLength, `packetNumber, `buf, `read, `readLen, `start, buf, net`pos
    {
      && Partial(readst, len, packetLength, buf[..], read, readLen, net.incoming, net.pos, start)
      && (readst.ReadData? ==> Numbered(packetNumber, net.incoming, start))
    }

    /** The packet that begins at `start` is in the arena, and the stream stands behind it. */
    ghost predicate Received()
      reads `packetLength, `packetNumber, `buf, `read, `readLen, `countLen, `markLen, `start, buf, net`pos
      reads `cols, `nbCols, `data, `room, `extendSize
    {
      && Whole(packetLength, buf[..], read, net.incoming, net.pos, start) && Numbered(packetNumber, net.incoming, start)
      && read + packetLength + readLen + countLen + markLen == buf.Length
      && Shown() && readLen + packetLength <= Most(room, net.incoming, extendSize, nbCols)
    }

    lemma Bounds()
      requires Sound()
      ensures read + readLen <= buf.Length && net.pos <= |net.incoming| && Shown()
      ensures var most := Most(room, net.incoming, extendSize, nbCols);
              HEADER + extendSize <= most && (HasPacket(net.incoming, start) ==> readLen <= most)
    {}

    /** `mysac_extend_res`, seen from inside the arena: more room behind it, the same bytes in it. The picture it is
        called for is one that `Relocation.Block.ExtendRes` relocates, and the rows become what it says. */
    method ExtendRes() returns (ok: bool)
      requires Shown()
      modifies this`buf, this`readLen, this`errorcode, this`data, this`grown
      ensures ok == (extendSize > 0) && Shown()
      ensures !ok ==> buf == old(buf) && readLen == old(readLen) && errorcode == BUFFER_OVERSIZE
      ensures !ok ==> data == old(data) && grown == old(grown)
      ensures ok ==> fresh(buf) && buf.Length == old(buf.Length) + extendSize && readLen == old(readLen) + extendSize
      ensures ok ==> grown == old(grown) + 1 && Picture(cols, nbCols, data)
                     == PictureMoved(Picture(cols, nbCols, old(data)), shift(old(grown)))
      ensures Agree(old(buf[..]), buf[..], 0, old(buf.Length))
    {
      hide Drawn, RecsMoved;
      if extendSize == 0 {
        errorcode := BUFFER_OVERSIZE;
        return false;
      }
      var more := new byte[buf.Length + extendSize];
      forall k | 0 <= k < buf.Length {
        more[k] := buf[k];
      }
      Zero(more, buf.Length, more.Length);
      buf := more;
      readLen := readLen + extendSize;
      DrawnMoved(Picture(cols, nbCols, data), shift(grown));
      data := RecsMoved(data, Types(cols), shift(grown));
      grown := grown + 1;
      ok := true;
    }

    /** The loops that extend the arena until `need` bytes are left. */
    method Reserve(need: nat) returns (ok: bool)
      requires Shown()
      modifies this`buf, this`readLen, this`errorcode, this`data, this`grown
      ensures ok ==> readLen >= need
      ensures !ok ==> extendSize == 0 && errorcode == BUFFER_OVERSIZE
      ensures readLen <= old(readLen) || readLen <= need + extendSize
      ensures buf == old(buf) || fresh(buf)
      ensures buf.Length - readLen == old(buf.Length) - old(readLen) && Shown()
      ensures Grown(Types(cols), shift, old(data), old(grown), old(buf.Length), data, grown, buf.Length)
      ensures Agree(old(buf[..]), buf[..], 0, old(buf.Length))
    {
      hide Shown, RecsMoved, Grown;
      GrownNot(Types(cols), shift, data, grown, buf.Length);
      while readLen < need
        invariant buf == old(buf) || fresh(buf)
        invariant readLen <= old(readLen) || readLen <= need + extendSize
        invariant buf.Length - readLen == old(buf.Length) - old(readLen) && Shown()
        invariant Grown(Types(cols), shift, old(data), old(grown), old(buf.Length), data, grown, buf.Length)
        invariant Agree(old(buf[..]), buf[..], 0, old(buf.Length))
        decreases need - readLen
      {
        ghost var mid, length := data, buf.Length;
        var more := ExtendRes();
        if !more {
          return false;
        }
        GrownOnce(Types(cols), shift, old(data), old(grown), old(buf.Length), mid, grown - 1, length, buf.Length);
      }
      ok := true;
    }

    /** One `mysac_read` that tries to complete the `goal` bytes at the read position. */
    method Fill(goal: nat, ghost from: nat)
      requires len < goal && read + goal <= buf.Length && net.pos == from + len <= |net.incoming|
      requires Holds(buf[..], read, len, net.incoming, from)
      modifies this`len, net`pos, net`stalls, buf
      ensures old(len) <= len <= goal && net.pos == from + len <= |net.incoming| && net.stalls <= old(net.stalls)
      ensures Holds(buf[..], read, len, net.incoming, from)
      ensures Agree(old(buf[..]), buf[..], 0, read)
      ensures len == old(len) ==> net.stalls < old(net.stalls) || net.pos == |net.incoming|
    {
      ghost var mem, had := buf[..], len;
      var err := net.Read(buf, read + len, goal - len);
      if err != -1 {
        len := len + err;
      }
      Appended(mem, buf[..], read, had, len, net.incoming, from);
    }

    /** Makes room for `goal` bytes and tries to complete them. */
    method Pull(goal: nat, ghost from: nat) returns (r: Progress)
      requires len < goal && Sound() && net.pos == from + len && (len > 0 ==> Holds(buf[..], read, len, net.incoming, from))
      requires HasPacket(net.incoming, start) ==> goal + extendSize <= Most(room, net.incoming, extendSize, nbCols)
      modifies this`len, this`readLen, this`buf, this`errorcode, this`data, this`grown, net`pos, net`stalls, buf
      ensures buf == old(buf) || fresh(buf)
      ensures Agree(old(buf[..]), buf[..], 0, read)
      ensures net.pos >= old(net.pos) && net.stalls <= old(net.stalls)
      ensures r.NoSpace? ==> extendSize == 0 && errorcode == BUFFER_OVERSIZE
      ensures Grown(Types(cols), shift, old(data), old(grown), old(buf.Length), data, grown, buf.Length)
      ensures !r.NoSpace? ==>
        Sound() && len <= goal <= readLen && net.pos == from + len && Holds(buf[..], read, len, net.incoming, from)
      ensures r.Ready? ==> len == goal
      ensures r.Blocked? ==> len < goal
      ensures r.Blocked? ==> (net.pos > old(net.pos) || net.stalls < old(net.stalls) || net.pos == |net.incoming|)
    {
      hide Agree, Holds, Shown, Grown, HasPacket;
      ghost var mem := buf[..];
      var ok := Reserve(goal);
      ghost var mid := buf[..];
      AgreeSub(mem, mid, 0, |mem|, 0, read);
      if !ok {
        return NoSpace;
      }
      HoldsOn(mem, mid, read, len, net.incoming, from);
      Fill(goal, from);
      AgreeTrans(mem, mid, buf[..], 0, read, |mem|);
      r := if len < goal then Blocked else Ready;
    }

    /** State RDST_READ_LEN: the four header bytes. */
    method ReadHeader() returns (r: Progress)
      requires Sound() && Reading() && (readst.Init? || readst.ReadLen?) && !EmptyAt(net.incoming, start)
      modifies this`len, this`readst, this`packetLength, this`packetNumber, this`readLen, this`buf, this`errorcode
      modifies this`data, this`grown, net`pos, net`stalls, buf
      ensures buf == old(buf) || fresh(buf)
      ensures Agree(old(buf[..]), buf[..], 0, read)
      ensures net.stalls <= old(net.stalls) && net.pos >= old(net.pos)
      ensures Grown(Types(cols), shift, old(data), old(grown), old(buf.Length), data, grown, buf.Length)
      ensures r.NoSpace? ==> extendSize == 0 && errorcode == BUFFER_OVERSIZE
      ensures !r.NoSpace? ==> Sound() && Reading()
      ensures r.Ready? ==> readst.ReadData? && len == 0 && Numbered(packetNumber, net.incoming, start)
      ensures r.Blocked? ==> readst.ReadLen?
      ensures r.Blocked? ==> (net.pos > old(net.pos) || net.stalls < old(net.stalls) || net.pos == |net.incoming|)
    {
      hide Partial, Agree, Holds, Grown, HasPacket, Sound, Most, EmptyAt;
      Bounds();
      HeaderPart(readst, len, packetLength, buf[..], read, readLen, net.incoming, net.pos, start);
      if readst.Init? {
        len := 0;
        readst := ReadLen;
      }
      r := Pull(HEADER, start);
      if r.NoSpace? {
        return;
      }
      Bounds();
      if r.Blocked? {
        errorcode := WANT_READ;
        StartsPartial(readst, len, packetLength, buf[..], read, readLen, net.incoming, net.pos, start);
      } else {
        DecodeHeader();
      }
    }

    /** Length and number of the packet whose header has arrived. */
    method DecodeHeader()
      requires Holds(buf[..], read, HEADER, net.incoming, start) && net.pos == start + HEADER && !EmptyAt(net.incoming, start)
      modifies this`packetLength, this`packetNumber, this`readst, this`len
      ensures Reading() && readst.ReadData? && len == 0 && Numbered(packetNumber, net.incoming, start)
    {
      hide LE, Partial;
      HeaderRead(buf[..], read, net.incoming, start);
      assert buf[..][read..read + 3] == buf[read..read + 3];
      packetLength := LE(buf[read..read + 3]);
      packetNumber := CharToUint(buf[read + 3]);
      readst := ReadData;
      len := 0;
      StartsPartial(readst, len, packetLength, buf[..], read, readLen, net.incoming, net.pos, start);
    }

    lemma BytesThere()
      requires Sound()
      ensures Agree(buf[..], buf[..], 0, read)
    {}

    /** While a packet is being read the stream stands before its end. */
    lemma Underway()
      requires Reading() && !Unreadable(net.incoming, start)
      ensures !EmptyAt(net.incoming, start) && !readst.DecodeData? && start <= net.pos
      ensures HasPacket(net.incoming, start) ==> net.pos < Next(net.incoming, start)
    {
      hide LE;
    }

    /** State RDST_READ_DATA: the payload, over the header. */
    method ReadBody() returns (r: Progress)
      requires Sound() && Reading() && readst.ReadData?
      modifies this`len, this`readst, this`readLen, this`buf, this`errorcode, this`data, this`grown, net`pos, net`stalls, buf
      ensures buf == old(buf) || fresh(buf)
      ensures Agree(old(buf[..]), buf[..], 0, read)
      ensures net.stalls <= old(net.stalls) && net.pos >= old(net.pos)
      ensures Grown(Types(cols), shift, old(data), old(grown), old(buf.Length), data, grown, buf.Length)
      ensures r.NoSpace? ==> extendSize == 0 && errorcode == BUFFER_OVERSIZE
      ensures r.Ready? ==> Received()
      ensures r.Blocked? ==> Sound() && Reading()
      ensures r.Blocked? ==> (net.pos > old(net.pos) || net.stalls < old(net.stalls) || net.pos == |net.incoming|)
    {
      hide LE, LengthAt, Agree, Holds, Partial, Whole, Shown, Grown, HasPacket, Most;
      BodyPart(len, packetLength, buf[..], read, readLen, net.incoming, net.pos, start);
      PacketFits(room, net.incoming, start, extendSize, nbCols);
      r := Pull(packetLength, start + HEADER);
      if r.Blocked? {
        errorcode := WANT_READ;
        StartsPartial(readst, len, packetLength, buf[..], read, readLen, net.incoming, net.pos, start);
      } else if r.Ready? {
        EndBody();
      }
    }

    /** The payload is in the arena. */
    method EndBody()
      requires Sound() && packetLength <= readLen && start + HEADER <= |net.incoming|
      requires packetLength == LengthAt(net.incoming, start) && net.pos == start + HEADER + packetLength
      requires Holds(buf[..], read, packetLength, net.incoming, start + HEADER) && Numbered(packetNumber, net.incoming, start)
      modifies this`readLen, this`readst
      ensures Received()
    {
      hide LE, LengthAt, Holds, Whole, Shown, HasPacket, Most;
      BodyRead(buf[..], read, net.incoming, net.pos, start, packetLength);
      WholeAt(packetLength, buf[..], read, net.incoming, net.pos, start);
      readLen := readLen - packetLength;
      readst := DecodeData;
    }

    /** `mysac_decode_respbloc` when data is expected. Whatever the way the server's bytes arrive in, it waits until the
        packet at `start` is complete, and then holds it, classified. */
    method DecodeRespbloc() returns (r: Response)
      requires Sound() && Reading() && !Unreadable(net.incoming, start)
      modifies this`len, this`readst, this`packetLength, this`packetNumber, this`readLen, this`buf, this`errorcode,
               this`status, this`warnings, this`data, this`grown
      modifies net`pos, net`stalls, buf
      ensures buf == old(buf) || fresh(buf)
      ensures Agree(old(buf[..]), buf[..], 0, read)
      ensures net.stalls <= old(net.stalls) && net.pos >= old(net.pos)
      ensures Grown(Types(cols), shift, old(data), old(grown), old(buf.Length), data, grown, buf.Length)
      ensures r.OutOfSpace? ==> extendSize == 0 && errorcode == BUFFER_OVERSIZE
      ensures r.WantRead? ==> Sound() && Reading()
      ensures r.WantRead? ==>
        net.pos > old(net.pos) || net.stalls < old(net.stalls) || !HasPacket(net.incoming, start)
      ensures r.Got? ==> net.pos > old(net.pos)
      ensures !r.Got? ==> status == old(status)
      ensures r.Got? ==> Received() && r.kind == Classify(Payload(net.incoming, start))
      ensures r.Got? ==> Numbered(packetNumber, net.incoming, start)
      ensures r.Got? && r.kind.EndPacket? ==> status == Status(Payload(net.incoming, start))
      ensures r.Got? && r.kind.ErrorPacket? ==> errorcode == r.kind.code
    {
      hide Sound, Received, Reading, Grown, Partial, Agree, Whole, Unreadable, HasPacket, EmptyAt;
      Underway();
      ghost var was, g, length, mem := data, grown, buf.Length, buf[..];
      assert Agree(mem, mem, 0, read) by { BytesThere(); }
      GrownNot(Types(cols), shift, data, grown, buf.Length);
      if readst.Init? || readst.ReadLen? {
        var h := ReadHeader();
        if h.NoSpace? {
          return OutOfSpace;
        }
        Underway();
        if h.Blocked? {
          return WantRead;
        }
      }
      ghost var mid, g', length', mem' := data, grown, buf.Length, buf[..];
      var b := ReadBody();
      AgreeTrans(mem, mem', buf[..], 0, read, read);
      GrownJoin(Types(cols), shift, was, g, length, mid, g', length', data, grown, buf.Length);
      if b.NoSpace? {
        return OutOfSpace;
      }
      if b.Blocked? {
        Underway();
        return WantRead;
      }
      Arrived();
      r := ClassifyPacket();
    }

    lemma Arrived()
      requires Received()
      ensures HasPacket(net.incoming, start) && start < net.pos == Next(net.incoming, start)
      ensures Numbered(packetNumber, net.incoming, start)
      ensures packetLength == LengthAt(net.incoming, start) && read + packetLength <= buf.Length
      ensures packetLength > 0 ==> buf[read] == Payload(net.incoming, start)[0]
    {
      hide LengthAt, Payload;
      WholeAt(packetLength, buf[..], read, net.incoming, net.pos, start);
      assert packetLength > 0 ==> buf[read] == buf[..][read..read + packetLength][0];
    }

    /** State RDST_DECODE_DATA. */
    method ClassifyPacket() returns (r: Response)
      requires Received() && !Unreadable(net.incoming, start)
      modifies this`errorcode, this`status, this`warnings
      ensures r.Got? && r.kind == Classify(Payload(net.incoming, start))
      ensures r.kind.EndPacket? ==> status == Status(Payload(net.incoming, start))
      ensures r.kind.EndPacket? ==> warnings == LE(Payload(net.incoming, start)[1..3])
      ensures r.kind.ErrorPacket? ==> errorcode == r.kind.code
    {
      hide LE, LengthAt;
      ghost var mem, x := buf[..], Payload(net.incoming, start);
      assert buf[read] == mem[read..read + packetLength][0] == x[0];
      if buf[read] == 255 {
        errorcode := if packetLength > 3 then MYSQL_ERROR else PROTOCOL_ERROR;
        return Got(ErrorPacket(errorcode));
      }
      if buf[read] == 254 {
        SubSlice(mem, read, read + packetLength, 3, 5);
        SubSlice(mem, read, read + packetLength, 1, 3);
        assert buf[read + 3..read + 5] == mem[read + 3..read + 5];
        assert buf[read + 1..read + 3] == mem[read + 1..read + 3];
        warnings := LE(buf[read + 1..read + 3]);
        status := LE(buf[read + 3..read + 5]);
        return Got(EndPacket);
      }
      r := Got(DataPacket);
    }

    /** What the server's stream says, from where the result set begins. */
    ghost function Target(): Outcome
      reads `origin, `binary
    {
      ParseResult(net.incoming, origin, binary)
    }

    /** State MYSAC_RECV_QUERY_COLNUM: nothing of the result set has been stored, and the last end marker has not announced
        another result set. */
    ghost predicate Counting()
      reads `read, `countLen, `markLen, `start, `origin, `binary, `goal, `nbCols, `cols, `data, `rows, `since, `status
    {
      && read == 0 && countLen == 0 && markLen == 0 && start == origin && goal == Target() && !goal.OutOfModel?
      && nbCols == 0 && cols == [] && data == [] && rows == [] && since == [] && !Multi(status)
    }

    /** State MYSAC_RECV_QUERY_COLDESC1: the descriptors before `readId` are stored, and the stream goes on from here. */
    ghost predicate Describing()
      reads `goal, `binary, `buf, `cols, `columns, `nbCols, `data, `rows, `since, `nbLines, `marks, `read
      reads `countLen, `markLen, `start, `readId, buf
    {
      && |cols| == |columns| == readId <= nbCols && nbCols >= 1 && data == [] && rows == [] && since == [] && nbLines == 0
      && Represents(buf[..], cols, marks, [], nbCols, read, columns, []) && |marks| == |cols| + 1 && marks[|cols|] == read
      && countLen > 0 && markLen == 0
      && goal == ParseColumns(net.incoming, start, binary, nbCols, columns) && !goal.OutOfModel?
    }

    /** The rows of the stream so far, as the moves of the block have left them. */
    ghost function Held(): (r: seq<Row>)
      requires |since| == |rows|
      reads `rows, `cols, `since, `grown
      ensures |r| == |rows|
    {
      Kept(rows, Types(cols), shift, since, grown)
    }

    /** The first `n` rows are the stored ones: they stand for those of the stream as the moves have left them, and
        little has been free since the last move. */
    ghost predicate Stocked(n: nat, to: nat)
      reads `buf, `cols, `columns, `nbCols, `data, `rows, `since, `grown, `marks, `countLen, `markLen, `room, `extendSize, buf
    {
      && |cols| == nbCols >= 1 && n <= |data| && |since| == |rows|
      && Represents(buf[..], cols, marks, data[..n], nbCols, to, columns, Held())
      && Timely(since, grown, data[..n], buf.Length - countLen - markLen, Most(room, net.incoming, extendSize, nbCols))
      && countLen > 0 && markLen > 0
    }

    /** Where the stream goes on behind the stored rows. */
    ghost predicate OnRows()
      reads `goal, `binary, `columns, `rows, `start
    {
      goal == ParseRows(net.incoming, start, binary, columns, rows) && !goal.OutOfModel?
    }

    /** Between packets of the row phase: all rows are stored, and the stream goes on from here. */
    ghost predicate Collecting()
      reads `goal, `binary, `buf, `cols, `columns, `nbCols, `data, `rows, `since, `grown, `nbLines, `marks, `read
      reads `countLen, `markLen, `start, `room, `extendSize, buf
    {
      nbLines == |data| && Stocked(|data|, read) && OnRows()
    }

    /** The row behind the stored ones is in the list, with its tables and what its first `k` columns need. */
    ghost predicate Reserving(k: nat)
      reads `goal, `binary, `buf, `cols, `columns, `nbCols, `data, `rows, `since, `grown, `nbLines, `marks, `read
      reads `countLen, `markLen, `start, `room, `extendSize, `cr, buf
    {
      0 <= cr == nbLines == |data| - 1 && Stocked(cr, data[cr].at) && Begun(data[cr], Types(cols), k, read) && OnRows()
    }

    /** State MYSAC_RECV_QUERY_DATA: the rows before `cr` are stored, and room for the next row is reserved. */
    ghost predicate Fetching()
      reads `goal, `binary, `buf, `cols, `columns, `nbCols, `data, `rows, `since, `grown, `nbLines, `marks, `read
      reads `countLen, `markLen, `start, `room, `extendSize, `cr, buf
    {
      Reserving(|cols|)
    }

    /** Extensions, and bytes that arrive above `to`, leave the stored rows what the moves make of them. */
    twostate lemma StillStocked(new n: nat, new to: nat)
      requires old(Stocked(n, to)) && Agree(old(buf[..]), buf[..], 0, to)
      requires Grown(Types(cols), shift, old(data), old(grown), old(buf.Length), data, grown, buf.Length)
      requires unchanged(`cols, `marks, `nbCols, `columns, `rows, `since, `countLen, `markLen, `room, `extendSize)
      ensures Stocked(n, to) && |data| == old(|data|)
      ensures data[..n] == RecsAfter(old(data)[..n], Types(cols), shift, old(grown), grown)
    {
      hide Represents, Agree, RecsAfter, Kept;
      GrownFirst(Types(cols), shift, old(data), old(grown), old(buf.Length), data, grown, buf.Length, n);
      AgreeLength(old(buf[..]), buf[..], 0, to);
      KeptMoves(old(buf[..]), buf[..], cols, marks, old(data)[..n], nbCols, to, columns, rows, Types(cols), shift, since,
                old(grown), grown);
      TimelyOn(since, old(grown), old(data)[..n], old(buf.Length) - countLen - markLen, grown, data[..n],
               buf.Length - countLen - markLen, Most(room, net.incoming, extendSize, nbCols), Types(cols), shift);
    }

    twostate lemma StillReserving(new k: nat)
      requires old(Reserving(k)) && Agree(old(buf[..]), buf[..], 0, read)
      requires Grown(Types(cols), shift, old(data), old(grown), old(buf.Length), data, grown, buf.Length)
      requires unchanged(`cols, `marks, `cr, `nbCols, `nbLines, `read, `columns, `rows, `since)
      requires unchanged(`countLen, `markLen, `start, `binary, `goal, `room, `extendSize)
      ensures Reserving(k)
    {
      hide Represents, Agree, RecsAfter, Stocked, OnRows, Laid;
      BegunAt(old(data)[cr], Types(cols), k, read);
      AgreeSub(old(buf[..]), buf[..], 0, read, 0, old(data)[cr].at);
      StillStocked(cr, old(data)[cr].at);
      GrownLast(Types(cols), shift, old(data), old(grown), old(buf.Length), data, grown, buf.Length, k, read);
    }

    twostate lemma StillCollecting()
      requires old(Collecting()) && Agree(old(buf[..]), buf[..], 0, read)
      requires Grown(Types(cols), shift, old(data), old(grown), old(buf.Length), data, grown, buf.Length)
      requires unchanged(`cols, `marks, `nbCols, `nbLines, `read, `columns, `rows, `since)
      requires unchanged(`countLen, `markLen, `start, `binary, `goal, `room, `extendSize)
      ensures Collecting()
    {
      hide Represents, Agree, RecsAfter, Stocked, OnRows;
      StillStocked(|old(data)|, read);
    }

    /** Reserves the header, the tables and the `struct tm` blocks of the next row, and links it at the end of the list;
        the list holds the row while its struct tms are reserved, and after a failure. */
    method AllocRow() returns (ok: bool)
      requires Sound() && Collecting()
      modifies this`buf, this`readLen, this`errorcode, this`read, this`data, this`cr, this`grown, buf
      ensures buf == old(buf) || fresh(buf)
      ensures !ok ==> extendSize == 0 && errorcode == BUFFER_OVERSIZE
      ensures ok ==> Sound() && Fetching()
    {
      hide Agree, Stocked, OnRows, Grown, Shown, Begun, HasPacket;
      ghost var mem := buf[..];
      CollectingBounds();
      var need := ROWS_SIZE + nbCols * (CELL_SIZE + LENGTH_SIZE);
      ok := Reserve(need);
      if !ok {
        return;
      }
      AgreeSub(mem, buf[..], 0, |mem|, 0, read);
      StillCollecting();
      readLen := readLen - need;
      if data != [] {
        LinkLast(read);
      }
      LinkRow(need);
      ok := AllocTms();
    }

    lemma CollectingBounds()
      requires Sound() && Collecting()
      ensures |cols| == nbCols >= 1 && read + readLen <= buf.Length && Shown()
      ensures ROWS_SIZE + nbCols * (CELL_SIZE + LENGTH_SIZE) + extendSize <= Most(room, net.incoming, extendSize, nbCols)
    {
      hide Represents;
    }

    /** The store of the new row's address into the header of the last one (`list_add_tail`), or of the head's into that
        of the row that is the last one again (`list_del`). */
    method LinkLast(ghost to: nat)
      requires data != [] && Stocked(|data|, to)
      modifies buf
      ensures Stocked(|data|, to)
    {
      hide Represents, Timely, Kept;
      ghost var mem := buf[..];
      var last := data[|data| - 1];
      assert data[..|data|] == data;
      LastHeader(mem, cols, marks, data, nbCols, to, columns, Held());
      Scribble(buf, last.at, last.at + ROWS_SIZE);
      SurvivesLink(mem, buf[..], cols, marks, data, nbCols, to, columns, Held());
    }

    /** Header and tables of the new row, at the end of the list. Nothing is in the cells yet. */
    method LinkRow(need: nat)
      requires need == ROWS_SIZE + nbCols * (CELL_SIZE + LENGTH_SIZE) && Collecting() && Shown()
      requires read + need + readLen + countLen + markLen == buf.Length && net.pos <= |net.incoming|
      requires HasPacket(net.incoming, start) ==> readLen <= Most(room, net.incoming, extendSize, nbCols)
      modifies this`read, this`data, this`cr, buf
      ensures Sound() && Reserving(0)
      ensures data == old(data) + [NewRow(old(read), nbCols)] && cr == |old(data)|
    {
      hide Represents, Kept, OnRows, Drawn, HasPacket, Timely, Begun, Most, NewRow, Types;
      ghost var mem, was := buf[..], data;
      var at := read;
      Scribble(buf, read, read + need); // link, data and lengths of the header, and both tables
      read := read + need;
      var rec := NewRow(at, nbCols);
      BegunNow(at, Types(cols));
      assert was[..|was|] == was;
      SurvivesAbove(mem, buf[..], cols, marks, was, nbCols, at, at, columns, Held());
      DrawnSnoc(mem, cols, marks, was, nbCols, at, columns, Held(), rec);
      cr := |data|;
      data := data + [rec];
      assert data[..cr] == was;
    }

    /** A zeroed `struct tm` for every dated column. */
    method AllocTms() returns (ok: bool)
      requires Sound() && Reserving(0)
      modifies this`buf, this`readLen, this`errorcode, this`read, this`data, this`grown, buf
      ensures buf == old(buf) || fresh(buf)
      ensures !ok ==> extendSize == 0 && errorcode == BUFFER_OVERSIZE
      ensures ok ==> Sound() && Fetching()
    {
      hide Agree, Stocked, OnRows, Grown, Shown, Begun, HasPacket, Reserving, Sound, Most;
      var types := Types(cols);
      for i := 0 to |types|
        invariant buf == old(buf) || fresh(buf)
        invariant Sound() && Reserving(i)
      {
        if IsDated(types[i]) {
          ok := MakeRoom(i);
          if !ok {
            return;
          }
          TakeTm(i);
        } else {
          NoTm(i);
        }
      }
      ok := true;
    }

    /** Extends the arena until the next `struct tm` fits, while the row is in the list. */
    method MakeRoom(ghost k: nat) returns (ok: bool)
      requires Sound() && Reserving(k)
      modifies this`buf, this`readLen, this`errorcode, this`data, this`grown
      ensures buf == old(buf) || fresh(buf)
      ensures !ok ==> extendSize == 0 && errorcode == BUFFER_OVERSIZE
      ensures ok ==> Sound() && Reserving(k) && readLen >= TM_SIZE
    {
      hide Agree, Stocked, OnRows, Grown, Shown, Begun, HasPacket, Reserving;
      ghost var mem := buf[..];
      ok := Reserve(TM_SIZE);
      if ok {
        AgreeSub(mem, buf[..], 0, |mem|, 0, read);
        StillReserving(k);
      }
    }

    /** The `struct tm` of column `i`, in the row that is being reserved. */
    method TakeTm(i: nat)
      requires Sound() && Reserving(i) && i < |cols| && IsDated(Types(cols)[i]) && readLen >= TM_SIZE
      modifies this`read, this`readLen, this`data, buf
      ensures Sound() && Reserving(i + 1) && read == old(read) + TM_SIZE
      ensures data == old(data[cr := WithTm(data[cr], i, read)])
    {
      hide Represents, Kept, OnRows, Drawn, HasPacket, Timely, Begun, Most, Types, WithTm;
      ClearTm(i);
      BegunAt(data[cr], Types(cols), i, read);
      BegunTm(data[cr], Types(cols), i, read);
      var rec := WithTm(data[cr], i, read);
      DrawnLast(Picture(cols, nbCols, data), rec);
      assert data[cr := rec][..cr] == data[..cr];
      data := data[cr := rec];
      read := read + TM_SIZE;
      readLen := readLen - TM_SIZE;
    }

    /** Clears the bytes at the read position. */
    method ClearTm(ghost i: nat)
      requires Sound() && Reserving(i) && readLen >= TM_SIZE
      modifies buf
      ensures Sound() && Reserving(i)
    {
      hide Represents, Kept, OnRows, Drawn, HasPacket, Timely, Begun, Most;
      BegunAt(data[cr], Types(cols), i, read);
      ghost var mem, at := buf[..], data[cr].at;
      Zero(buf, read, read + TM_SIZE);
      SurvivesAbove(mem, buf[..], cols, marks, data[..cr], nbCols, at, at, columns, Held());
    }

    lemma NoTm(i: nat)
      requires Reserving(i) && i < |cols| && !IsDated(Types(cols)[i])
      ensures Reserving(i + 1)
    {
      hide Stocked, Laid, OnRows;
    }

    /** Decodes the row packet at the read position in place; the tables of the row occupy `[lo, hi)`. */
    method DecodeInto(row: seq<Cell<Slice>>, types: seq<ColType>, lo: nat, hi: nat)
        returns (r: Decoded<seq<Cell<Slice>>>, ret: int)
      requires lo <= hi <= read && read + packetLength < buf.Length
      requires |row| == |types| && forall j :: 0 <= j < |types| ==> row[j] == Initial(types[j])
      requires !DecodeRow(binary, types, buf[read..read + packetLength]).Unmodelled?
      modifies buf
      ensures match DecodeRow(binary, types, old(buf[read..read + packetLength]))
              case Good(vs) =>
                && r.Good? && 0 <= ret <= packetLength && |r.value| == |types|
                && Packed(r.value, read, read + ret) && Terminated(buf[..], r.value) && LoadAll(buf[..], r.value) == vs
                && forall k :: 0 <= k < buf.Length && !(read <= k < read + packetLength) && !(lo <= k < hi) ==> buf[k] == old(buf[k])
              case Bad(code) => r == Bad(code) && code >= BINFIELD_CORRUPT
              case Unmodelled => false
    {
      hide TextRow.ParseRow, BinaryRow.ParseRow, Packed, Terminated, LoadAll;
      var cells;
      if binary {
        ret, cells := BinaryRow.DecodeBinaryRow(buf, read, packetLength, types, row, lo, hi);
        r := if ret == -1 then Bad(BINFIELD_CORRUPT) else Good(cells);
      } else {
        ret, cells := TextRow.DecodeStringRow(buf, read, packetLength, types, row, lo, hi);
        r := if ret < 0 then Bad(-ret) else Good(cells);
      }
    }

    /** The packet of the pending row, decoded in place and counted. */
    method DecodePacket() returns (r: int)
      requires Received() && Fetching() && Classify(Payload(net.incoming, start)).DataPacket?
      modifies this`errorcode, this`data, this`read, this`readLen, this`nbLines, this`rows, this`since, this`start,
               this`readst, buf
      ensures r == 0 ==> Sound() && Collecting() && readst.Init? && net.pos == start > old(start)
      ensures r != 0 ==> r == errorcode >= BINFIELD_CORRUPT && goal == Failed(r)
    {
      hide Fetching, Collecting, LoadAll, Terminated, Packed, DecodeRow, ParseRows, Payload, LengthAt, Whole,
           Represents, Begun, Drawn, Timely, Kept, RecFits;
      RowPacket();
      ghost var mem, recs, pic, held := buf[..], data[..cr], Picture(cols, nbCols, data), Held();
      var rec := data[cr];
      BegunAt(rec, Types(cols), |cols|, read);
      var d, ret := DecodeInto(rec.cells, Types(cols), rec.at, rec.body);
      if d.Bad? {
        errorcode := d.code;
        return errorcode;
      }
      ghost var vs := LoadAll(buf[..], d.value);
      var rec' := rec.(cells := d.value, end := read + ret);
      RowArrives(mem, buf[..], cols, marks, recs, nbCols, columns, held, rec, rec', Types(cols), packetLength);
      DecodedFits(buf[..], rec, d.value, Types(cols), read, read + ret, vs);
      DrawnLast(pic, rec');
      KeepRow(rec', ret, vs);
      r := 0;
    }

    /** The row `rec` of the packet is one of the stored rows, and the rest of the packet is free again. */
    method KeepRow(rec: RowRec, ret: nat, ghost vs: Row)
      requires ret <= packetLength && read + packetLength + readLen + countLen + markLen == buf.Length
      requires |cols| == nbCols >= 1 && 0 <= cr == nbLines == |data| - 1 && countLen > 0 && markLen > 0
      requires |since| == |rows| == cr && rec.end == read + ret
      requires readLen + packetLength <= Most(room, net.incoming, extendSize, nbCols)
      requires Represents(buf[..], cols, marks, data[..cr] + [rec], nbCols, read + ret, columns, Held() + [vs])
      requires Timely(since, grown, data[..cr], buf.Length - countLen - markLen, Most(room, net.incoming, extendSize, nbCols))
      requires Drawn(Picture(cols, nbCols, data[cr := rec]))
      requires goal == ParseRows(net.incoming, net.pos, binary, columns, rows + [vs]) && !goal.OutOfModel?
      requires start < net.pos <= |net.incoming|
      modifies this`data, this`read, this`readLen, this`nbLines, this`rows, this`since, this`start, this`readst
      ensures Sound() && Collecting() && readst.Init? && net.pos == start > old(start)
      ensures data == old(data[cr := rec]) && read == old(read) + ret
    {
      hide Represents, ParseRows, Kept, Drawn, Most, HasPacket, LengthAt;
      assert data[cr := rec] == data[..cr] + [rec];
      data := data[cr := rec];
      nbLines := nbLines + 1;
      FreeRest(ret);
      NoteRow(vs);
    }

    /** What is stored of a packet ends `ret` bytes behind its start; the next packet goes there. */
    method FreeRest(ret: nat)
      requires ret <= packetLength
      modifies this`read, this`readLen, this`readst
      ensures read == old(read) + ret && readLen == old(readLen) + packetLength - ret && readst.Init?
    {
      read, readLen, readst := read + ret, readLen + packetLength - ret, Init;
    }

    /** The list and the arena stand for one more row of the stream. */
    ghost method NoteRow(vs: Row)
      requires read + readLen + countLen + markLen == buf.Length && readLen <= Most(room, net.incoming, extendSize, nbCols)
      requires |cols| == nbCols >= 1 && nbLines == |data| == |rows| + 1 && |since| == |rows| && countLen > 0 && markLen > 0
      requires Represents(buf[..], cols, marks, data, nbCols, read, columns, Held() + [vs]) && Shown()
      requires Timely(since + [grown], grown, data, buf.Length - countLen - markLen, Most(room, net.incoming, extendSize, nbCols))
      requires goal == ParseRows(net.incoming, net.pos, binary, columns, rows + [vs]) && !goal.OutOfModel?
      requires net.pos <= |net.incoming|
      modifies this`rows, this`since, this`start
      ensures Sound() && Collecting() && net.pos == start
    {
      hide Represents, ParseRows, Kept, Drawn, Most, HasPacket, LengthAt, Timely;
      KeptSnoc(rows, Types(cols), shift, since, grown, vs);
      assert data[..|data|] == data;
      rows, since, start := rows + [vs], since + [grown], net.pos;
    }

    /** The row of the packet that begins at `start`. */
    ghost function Incoming(): Decoded<Row>
      requires HasPacket(net.incoming, start)
      reads this
    {
      DecodeRow(binary, Types(cols), Payload(net.incoming, start))
    }

    /** A row packet that has arrived can be decoded, and its row is the next one of the stream. */
    lemma RowPacket()
      requires Received() && Fetching() && Classify(Payload(net.incoming, start)).DataPacket?
      ensures 0 <= cr < |data| && data[cr].at <= data[cr].body == read && read + packetLength < buf.Length
      ensures |data[cr].cells| == |cols| && forall j :: 0 <= j < |cols| ==> data[cr].cells[j] == Initial(Types(cols)[j])
      ensures |since| == |rows| == cr && Represents(buf[..], cols, marks, data[..cr], nbCols, data[cr].at, columns, Held())
      ensures Timely(since, grown, data[..cr], buf.Length - countLen - markLen, Most(room, net.incoming, extendSize, nbCols))
      ensures Shown()
      ensures Pending(data[cr], Types(cols), read) && |cols| == nbCols >= 1 && cr == nbLines == |data| - 1
      ensures countLen > 0 && markLen > 0 && !goal.OutOfModel?
      ensures HasPacket(net.incoming, start) && start < net.pos == Next(net.incoming, start)
      ensures buf[read..read + packetLength] == Payload(net.incoming, start)
      ensures !Incoming().Unmodelled? && (Incoming().Bad? ==> goal == Failed(Incoming().code))
      ensures Incoming().Good? ==> goal == ParseRows(net.incoming, net.pos, binary, columns, rows + [Incoming().value])
      ensures Incoming().Good? ==> |Incoming().value| == |cols|
                                   && forall j :: 0 <= j < |cols| ==> Fits(Types(cols)[j], Incoming().value[j])
    {
      hide Represents, ParseRows, ParseResult, DecodeRow, LengthAt, Drawn, Timely, Kept, Fits;
      BegunAt(data[cr], Types(cols), |cols|, read);
      Bounded(buf[..], cols, marks, data[..cr], nbCols, data[cr].at, columns, Held());
      RowsStep(net.incoming, start, binary, columns, rows);
      RowFits(binary, Types(cols), Payload(net.incoming, start));
    }

    /** The result set is complete: the table stands for the descriptors of the stream, and the list for its rows as the
        moves of the block have left them. */
    ghost predicate Finished()
      reads `goal, `binary, `buf, `cols, `columns, `nbCols, `data, `rows, `since, `grown, `nbLines, `marks, `read, `cr
      reads `status, `countLen, `markLen, `room, `extendSize, buf, net`pos
    {
      && goal == Complete(columns, rows, net.pos) && !Multi(status)
      && nbLines == |data| && cr == -1 && read + countLen + markLen <= buf.Length
      && Stocked(|data|, read)
    }

    /** The rows are those of the stream, whatever the moves have been. */
    ghost predicate Undamaged()
      reads `rows, `cols, `since, `grown
    {
      |since| == |rows| && Held() == rows
    }

    /** What a call that returns `r` has achieved: more bytes are needed and the engine is in a state to go on from, the
        result is complete, or the error is that of the stream. */
    ghost predicate Answer(r: int, waiting: bool)
      reads this, buf, net`pos
    {
      if r == WANT_READ then Sound() && Reading() && waiting
      else if r == 0 then Finished()
      else r == errorcode != WANT_WRITE && (goal == Failed(r) || (r == BUFFER_OVERSIZE && extendSize == 0))
    }

    /** The stream only moves on, and an answer that more bytes are needed means that bytes have arrived, that the
        socket has stalled, or that the stream does not hold the result set. */
    twostate predicate Goes(r: int)
      reads this, net
    {
      && net.pos >= old(net.pos) && net.stalls <= old(net.stalls)
      && (r == WANT_READ ==> net.pos > old(net.pos) || net.stalls < old(net.stalls) || goal.NeedMore?)
    }

    /** `list_del` of the pending row; the store goes into the header of the row before it. */
    method UnlinkLast()
      requires Fetching() && goal == Complete(columns, rows, net.pos) && !Multi(status)
      requires read + countLen + markLen <= buf.Length
      modifies this`data, this`cr, buf
      ensures Finished() && data == old(data)[..|old(data)| - 1]
    {
      hide Represents, Begun, ParseRows, ParseResult, Kept, Timely;
      ghost var at := data[cr].at;
      BegunAt(data[cr], Types(cols), |cols|, read);
      ghost var mem := buf[..];
      SurvivesAbove(mem, mem, cols, marks, data[..cr], nbCols, at, read, columns, Held());
      data := data[..cr];
      assert data[..|data|] == data;
      cr := -1;
      if data != [] {
        LinkLast(read);
      }
    }

    /** Waits for the packet behind the stored rows. */
    method AwaitRow() returns (err: Response)
      requires Sound() && Reading() && Fetching()
      modifies this`len, this`readst, this`packetLength, this`packetNumber, this`readLen, this`buf, this`errorcode,
               this`status, this`warnings, this`data, this`grown
      modifies net`pos, net`stalls, buf
      ensures buf == old(buf) || fresh(buf)
      ensures net.stalls <= old(net.stalls) && net.pos >= old(net.pos)
      ensures err.OutOfSpace? ==> extendSize == 0 && errorcode == BUFFER_OVERSIZE
      ensures err.WantRead? ==> Sound() && Reading() && Fetching()
      ensures err.WantRead? ==> net.pos > old(net.pos) || net.stalls < old(net.stalls) || goal.NeedMore?
      ensures err.Got? ==> Received() && Fetching() && err.kind == Classify(Payload(net.incoming, start))
      ensures err.Got? ==> net.pos > old(net.pos) && HasPacket(net.incoming, start) && net.pos == Next(net.incoming, start)
      ensures err.Got? && err.kind.ErrorPacket? ==> goal == Failed(errorcode) && errorcode in {PROTOCOL_ERROR, MYSQL_ERROR}
      ensures err.Got? && err.kind.EndPacket? ==> goal == Complete(columns, rows, net.pos) && !Multi(status)
    {
      hide Reserving, Partial, Whole, Payload, LengthAt, Agree, Grown, Most, Shown;
      NextRow();
      err := DecodeRespbloc();
      if !err.OutOfSpace? {
        StillReserving(|cols|);
      }
      if err.Got? {
        WholeAt(packetLength, buf[..], read, net.incoming, net.pos, start);
      }
    }

    /** What the stream says about the packet behind the stored rows. */
    lemma NextRow()
      requires Fetching()
      ensures !Unreadable(net.incoming, start)
      ensures !HasPacket(net.incoming, start) ==> goal.NeedMore?
      ensures HasPacket(net.incoming, start) ==>
        var k := Classify(Payload(net.incoming, start));
        && (k.ErrorPacket? ==> goal == Failed(k.code) && k.code in {PROTOCOL_ERROR, MYSQL_ERROR})
        && (k.EndPacket? ==>
              goal == Complete(columns, rows, Next(net.incoming, start)) && !Multi(Status(Payload(net.incoming, start))))
    {
      hide Stocked, Begun, ParseRows, ParseResult, Payload, LengthAt;
      RowsStep(net.incoming, start, binary, columns, rows);
    }

    /** One packet of the row phase; `done` tells whether the call ends with it. */
    method RecvRow() returns (done: bool, r: int)
      requires Sound() && Reading() && Fetching() && qst.RecvData?
      modifies this`len, this`readst, this`packetLength, this`packetNumber, this`readLen, this`buf, this`errorcode,
               this`status, this`warnings, this`data, this`cr, this`read, this`nbLines, this`rows, this`start,
               this`grown, this`since
      modifies net`pos, net`stalls, buf
      ensures buf == old(buf) || fresh(buf)
      ensures Goes(if done then r else 0)
      ensures done ==> Answer(r, Fetching())
      ensures !done ==> Sound() && Collecting() && readst.Init? && net.pos == start > old(start)
      ensures !done ==> net.pos > old(net.pos)
    {
      hide Fetching, Collecting, Finished, Partial, Whole, Payload, LengthAt, Sound;
      done := true;
      var err := AwaitRow();
      match err
      case OutOfSpace =>
        r := errorcode;
      case WantRead =>
        r := WANT_READ;
      case Got(kind) =>
        match kind
        case ErrorPacket(code) =>
          r := errorcode;
        case EndPacket =>
          UnlinkLast();
          r := 0;
        case DataPacket =>
          r := DecodePacket();
          done := r != 0;
    }

    /** The row phase, from case_MYSAC_RECV_QUERY_DATA on; `reserved` when a call before has reserved the next row. */
    method RecvRows(reserved: bool) returns (r: int)
      requires Sound() && Reading() && qst.RecvData?
      requires if reserved then Fetching() else Collecting() && readst.Init?
      modifies this`len, this`readst, this`packetLength, this`packetNumber, this`readLen, this`buf, this`errorcode,
               this`status, this`warnings, this`data, this`cr, this`read, this`nbLines, this`rows, this`start,
               this`grown, this`since
      modifies net`pos, net`stalls, buf
      ensures buf == old(buf) || fresh(buf)
      ensures Goes(r) && Answer(r, Fetching())
    {
      hide Fetching, Collecting, Finished, Sound;
      var have := reserved;
      while true
        invariant Sound() && Reading()
        invariant if have then Fetching() else Collecting() && readst.Init?
        invariant buf == old(buf) || fresh(buf)
        invariant net.pos >= old(net.pos) && net.stalls <= old(net.stalls)
        decreases |net.incoming| - start, !have
      {
        if !have {
          var ok := AllocRow();
          if !ok {
            return errorcode;
          }
          have := true;
        }
        var done;
        done, r := RecvRow();
        if done {
          return;
        }
        Bounds();
        have := false;
      }
    }

    /** What the stream says about the next descriptor. */
    lemma NextColumn()
      requires Describing() && readId < nbCols
      ensures !Unreadable(net.incoming, start)
      ensures !HasPacket(net.incoming, start) ==> goal.NeedMore?
      ensures HasPacket(net.incoming, start) ==>
        var k := Classify(Payload(net.incoming, start));
        && (k.ErrorPacket? ==> goal == Failed(k.code) && k.code in {PROTOCOL_ERROR, MYSQL_ERROR})
        && (k.EndPacket? ==> goal == Failed(PROTOCOL_ERROR))
        && (k.DataPacket? ==> DescriptorAt())
    {
      hide Represents, ParseColumns, ParseField, ParseResult, Payload, LengthAt;
      ColumnsStep(net.incoming, start, binary, nbCols, columns);
    }

    /** The descriptor in the packet that begins at `start` is the next one of the stream. */
    ghost predicate DescriptorAt()
      requires HasPacket(net.incoming, start)
      reads this
    {
      match ParseField(Payload(net.incoming, start))
      case Bad(code) => goal == Failed(code)
      case Unmodelled => false
      case Good(c) =>
        |columns| < nbCols
        && goal == ParseColumns(net.incoming, Next(net.incoming, start), binary, nbCols, columns + [c])
    }

    /** Extensions, and bytes that arrive above the read position, disturb nothing. */
    twostate lemma StillDescribing()
      requires old(Describing()) && Agree(old(buf[..]), buf[..], 0, read)
      requires Grown(Types(cols), shift, old(data), old(grown), old(buf.Length), data, grown, buf.Length)
      requires unchanged(`cols, `marks, `nbCols, `readId, `nbLines, `read, `columns, `rows, `since)
      requires unchanged(`countLen, `markLen, `start, `binary, `goal)
      ensures Describing()
    {
      hide Represents, ParseColumns, ParseResult, Agree;
      Bounded(old(buf[..]), cols, marks, [], nbCols, read, columns, []);
      AgreeLength(old(buf[..]), buf[..], 0, read);
      SurvivesAbove(old(buf[..]), buf[..], cols, marks, [], nbCols, read, read, columns, []);
    }

    /** Waits for the packet behind the stored descriptors. */
    method AwaitDescriptor() returns (err: Response)
      requires Sound() && Reading() && Describing() && !Unreadable(net.incoming, start)
      modifies this`len, this`readst, this`packetLength, this`packetNumber, this`readLen, this`buf, this`errorcode,
               this`status, this`warnings, this`data, this`grown
      modifies net`pos, net`stalls, buf
      ensures buf == old(buf) || fresh(buf)
      ensures net.stalls <= old(net.stalls) && net.pos >= old(net.pos)
      ensures err.OutOfSpace? ==> extendSize == 0 && errorcode == BUFFER_OVERSIZE
      ensures err.WantRead? ==> Sound() && Reading() && Describing()
      ensures err.WantRead? ==> net.pos > old(net.pos) || net.stalls < old(net.stalls) || !HasPacket(net.incoming, start)
      ensures err.Got? ==> Received() && Describing() && err.kind == Classify(Payload(net.incoming, start))
      ensures err.Got? ==> net.pos > old(net.pos) && net.pos == Next(net.incoming, start) > start
      ensures err.Got? && err.kind.ErrorPacket? ==> errorcode == err.kind.code
    {
      hide Describing, Partial, Whole, Payload, LengthAt, Agree, Grown, Most, Shown;
      err := DecodeRespbloc();
      if !err.OutOfSpace? {
        StillDescribing();
      }
      if err.Got? {
        WholeAt(packetLength, buf[..], read, net.incoming, net.pos, start);
      }
    }

    /** The packet of a descriptor, decoded in place; `mysac_decode_field` into table entry `readId`. */
    method DecodeColumn() returns (r: int)
      requires Received() && Describing() && readId < nbCols && DescriptorAt()
      requires net.pos == Next(net.incoming, start) > start
      modifies this`errorcode, this`cols, this`read, this`readLen, this`readId, this`columns, this`marks, this`start,
               this`readst, buf
      ensures r == 0 ==> Sound() && Describing() && readst.Init? && net.pos == start > old(start) && readId == old(readId) + 1
      ensures r != 0 ==> r == errorcode >= BINFIELD_CORRUPT && goal == Failed(r)
    {
      hide Represents, LoadAll, Terminated, Packed, ParseField, ParseColumns, ParseResult, LengthAt, LoadColumn, Payload, Whole;
      WholeAt(packetLength, buf[..], read, net.incoming, net.pos, start);
      ghost var mem := buf[..];
      Bounded(mem, cols, marks, [], nbCols, read, columns, []);
      var lo := FIELD_SIZE * readId;
      var ret, col := DecodeField(buf, read, packetLength, lo, lo + FIELD_SIZE);
      if ret < 0 {
        errorcode := -ret;
        return errorcode;
      }
      ColumnArrives(mem, buf[..], cols, marks, nbCols, read, columns, col, packetLength, read + ret);
      KeepColumn(col, ret, LoadColumn(buf[..], col));
      r := 0;
    }

    /** The descriptor `col` of the packet is one of the stored ones, and the rest of the packet is free again. */
    method KeepColumn(col: Column<Slice>, ret: nat, ghost c: Column<seq<byte>>)
      requires ret <= packetLength && read + packetLength + readLen + countLen + markLen == buf.Length
      requires readLen + packetLength <= Most(room, net.incoming, extendSize, nbCols)
      requires Shown() && |col.strings| == NAMES + 1
      requires |cols| == |columns| == readId < nbCols && data == [] && rows == [] && since == [] && nbLines == 0
      requires countLen > 0 && markLen == 0
      requires |marks| == |cols| + 1
      requires Represents(buf[..], cols + [col], marks + [read + ret], [], nbCols, read + ret, columns + [c], [])
      requires goal == ParseColumns(net.incoming, net.pos, binary, nbCols, columns + [c]) && !goal.OutOfModel?
      requires start < net.pos <= |net.incoming|
      modifies this`cols, this`read, this`readLen, this`readId, this`columns, this`marks, this`start, this`readst
      ensures Sound() && Describing() && readst.Init? && net.pos == start > old(start) && readId == old(readId) + 1
      ensures cols == old(cols) + [col] && read == old(read) + ret
    {
      hide Represents, ParseColumns, Describing, Drawn;
      DrawnColumn(cols, nbCols, col);
      cols := cols + [col];
      readId := readId + 1;
      FreeRest(ret);
      NoteColumn(c);
    }

    /** The table and the arena stand for one more descriptor of the stream. */
    ghost method NoteColumn(c: Column<seq<byte>>)
      requires |cols| == |columns| + 1 == readId <= nbCols && data == [] && rows == [] && since == [] && nbLines == 0
      requires countLen > 0 && markLen == 0
      requires |marks| == |cols|
      requires Represents(buf[..], cols, marks + [read], [], nbCols, read, columns + [c], [])
      requires goal == ParseColumns(net.incoming, net.pos, binary, nbCols, columns + [c]) && !goal.OutOfModel?
      modifies this`columns, this`marks, this`start
      ensures Describing() && start == net.pos
    {
      hide Represents, ParseColumns;
      columns, marks, start := columns + [c], marks + [read], net.pos;
    }

    /** The descriptor phase, from case_MYSAC_RECV_QUERY_COLDESC1 on; `go` tells that all descriptors are stored. */
    method RecvColumns() returns (go: bool, r: int)
      requires Sound() && Reading() && Describing() && readId < nbCols && qst.RecvColDesc?
      modifies this`len, this`readst, this`packetLength, this`packetNumber, this`readLen, this`buf, this`errorcode,
               this`status, this`warnings, this`cols, this`read, this`readId, this`columns, this`marks, this`start, this`qst,
               this`data, this`grown
      modifies net`pos, net`stalls, buf
      ensures buf == old(buf) || fresh(buf)
      ensures Goes(if go then 0 else r)
      ensures !go ==> r != 0 && Answer(r, Describing() && readId < nbCols && qst.RecvColDesc?)
      ensures go ==> Sound() && Reading() && Describing() && readId == nbCols && qst.RecvMarker?
    {
      hide Describing, Finished, DescriptorAt, Sound;
      while true
        invariant Sound() && Reading() && Describing() && readId < nbCols && qst.RecvColDesc?
        invariant buf == old(buf) || fresh(buf)
        invariant net.pos >= old(net.pos) && net.stalls <= old(net.stalls)
        decreases nbCols - readId
      {
        go, r := false, 0;
        var next;
        next, r := RecvColumn();
        if !next {
          return;
        }
        if readId >= nbCols {
          qst := RecvMarker;
          return true, 0;
        }
      }
    }

    /** One packet of the descriptor phase. */
    method RecvColumn() returns (next: bool, r: int)
      requires Sound() && Reading() && Describing() && readId < nbCols
      modifies this`len, this`readst, this`packetLength, this`packetNumber, this`readLen, this`buf, this`errorcode,
               this`status, this`warnings, this`cols, this`read, this`readId, this`columns, this`marks, this`start,
               this`data, this`grown
      modifies net`pos, net`stalls, buf
      ensures buf == old(buf) || fresh(buf)
      ensures Goes(if next then 0 else r)
      ensures !next ==> r != 0 && Answer(r, Describing() && readId < nbCols)
      ensures next ==> Sound() && Reading() && Describing() && readId == old(readId) + 1 <= nbCols
    {
      hide Describing, Finished, Collecting, Whole, Payload, LengthAt, Sound, Most, Drawn;
      NextColumn();
      next := false;
      var err := AwaitDescriptor();
      match err
      case OutOfSpace =>
        r := errorcode;
      case WantRead =>
        r := WANT_READ;
      case Got(kind) =>
        match kind
        case ErrorPacket(code) =>
          r := errorcode;
        case EndPacket =>
          errorcode := PROTOCOL_ERROR;
          r := errorcode;
        case DataPacket =>
          r := DecodeColumn();
          next := r == 0;
    }

    /** State MYSAC_RECV_QUERY_EOF1: the end marker of the descriptors. */
    method RecvEof() returns (go: bool, r: int)
      requires Sound() && Reading() && Describing() && readId == nbCols && qst.RecvMarker?
      modifies this`len, this`readst, this`packetLength, this`packetNumber, this`readLen, this`buf, this`errorcode,
               this`status, this`warnings, this`markLen, this`start, this`qst, this`data, this`grown
      modifies net`pos, net`stalls, buf
      ensures buf == old(buf) || fresh(buf)
      ensures Goes(if go then 0 else r)
      ensures !go ==> r != 0 && Answer(r, Describing() && readId == nbCols && qst.RecvMarker?)
      ensures go ==> Sound() && Reading() && Collecting() && readst.Init? && qst.RecvData?
    {
      hide Describing, Finished, Collecting, Whole, Payload, LengthAt, Sound, Partial, Most, Drawn;
      NextMarker();
      go := false;
      var err := AwaitDescriptor();
      match err
      case OutOfSpace =>
        r := errorcode;
      case WantRead =>
        r := WANT_READ;
      case Got(kind) =>
        match kind
        case ErrorPacket(code) =>
          r := errorcode;
        case DataPacket =>
          errorcode := PROTOCOL_ERROR;
          r := errorcode;
        case EndPacket =>
          StartRows();
          go, r := true, 0;
    }

    /** What the stream says about the packet behind the last descriptor. */
    lemma NextMarker()
      requires Describing() && readId == nbCols
      ensures !Unreadable(net.incoming, start)
      ensures !HasPacket(net.incoming, start) ==> goal.NeedMore?
      ensures HasPacket(net.incoming, start) ==>
        var k := Classify(Payload(net.incoming, start));
        && (k.ErrorPacket? ==> goal == Failed(k.code) && k.code in {PROTOCOL_ERROR, MYSQL_ERROR})
        && (k.DataPacket? ==> goal == Failed(PROTOCOL_ERROR))
        && (k.EndPacket? ==> goal == ParseRows(net.incoming, Next(net.incoming, start), binary, columns, []))
    {
      hide Represents, ParseRows, ParseResult, Payload, LengthAt;
      MarkerStep(net.incoming, start, binary, columns);
    }

    /** The end marker stays where it is, and its bytes are never counted as free again. */
    method StartRows()
      requires Received() && Describing() && readId == nbCols
      requires goal == ParseRows(net.incoming, net.pos, binary, columns, [])
      modifies this`markLen, this`start, this`qst, this`readst
      ensures Sound() && Reading() && Collecting() && readst.Init? && qst.RecvData?
    {
      hide Represents, ParseRows, ParseColumns, ParseResult, Payload, LengthAt, Drawn;
      NextMarker();
      assert Held() == [];
      markLen := packetLength;
      start := net.pos;
      readst := Init;
      qst := RecvData;
    }

    /** State MYSAC_RECV_QUERY_COLNUM: the number of columns, and the column table over the packet that carried it. */
    method RecvColCount() returns (go: bool, r: int)
      requires Sound() && Reading() && Counting() && qst.RecvColNum?
      modifies this`len, this`readst, this`packetLength, this`packetNumber, this`readLen, this`buf, this`errorcode,
               this`status, this`warnings, this`read, this`nbCols, this`readId, this`cols, this`data, this`nbLines,
               this`marks, this`countLen, this`columns, this`rows, this`start, this`qst, this`grown, this`since
      modifies net`pos, net`stalls, buf
      ensures buf == old(buf) || fresh(buf)
      ensures Goes(if go then 0 else r)
      ensures !go ==> r != 0 && Answer(r, Counting() && qst.RecvColNum?)
      ensures go ==> Sound() && Reading() && Describing() && readId < nbCols && qst.RecvColDesc?
    {
      hide Finished, ParseResult, ParseColumns, Describing, Payload, LengthAt, Whole, Represents, Agree, Sound, Drawn,
           RecsAfter;
      ResultStep(net.incoming, start, binary);
      go := false;
      var err := DecodeRespbloc();
      match err
      case OutOfSpace =>
        r := errorcode;
      case WantRead =>
        r := WANT_READ;
      case Got(kind) =>
        Arrived();
        match kind
        case ErrorPacket(code) =>
          r := errorcode;
        case EndPacket =>
          errorcode := PROTOCOL_ERROR;
          r := errorcode;
        case DataPacket =>
          go := StartColumns(buf[0]);
          r := errorcode;
    }

    /** Resets the result and clears a table of `n` columns. */
    method StartColumns(n: nat) returns (ok: bool)
      requires n > 0 && read == 0 && packetLength > 0 && packetLength + readLen == buf.Length && markLen == 0
      requires cols == [] && rows == [] && since == [] && Shown() && nbCols == 0
      requires readLen + packetLength <= Most(room, net.incoming, extendSize, nbCols)
      requires goal == ParseColumns(net.incoming, net.pos, binary, n, []) && !goal.OutOfModel?
      requires net.pos <= |net.incoming|
      modifies this`buf, this`readLen, this`errorcode, this`read, this`nbCols, this`readId, this`cols, this`data,
               this`nbLines, this`marks, this`countLen, this`columns, this`rows, this`since, this`start, this`readst,
               this`qst, this`grown, buf
      ensures buf == old(buf) || fresh(buf)
      ensures !ok ==> extendSize == 0 && errorcode == BUFFER_OVERSIZE
      ensures ok ==> Sound() && Reading() && Describing() && readId == 0 < nbCols && qst.RecvColDesc?
    {
      hide ParseResult, ParseColumns, Represents, Describing, Drawn;
      ResetRes();
      assert Shown() by { NoColumns(0); }
      ok := ClearTable(FIELD_SIZE * n);
      if ok {
        readId := 0;
        qst := RecvColDesc;
        OpenTable(n);
      }
    }

    /** `mysac_reset_res`. */
    method ResetRes()
      modifies this`nbCols, this`nbLines, this`data
      ensures nbCols == nbLines == 0 && data == []
    {
      nbCols, nbLines, data := 0, 0, [];
    }

    /** The cleared table is that of `n` columns; the packet of the count is never counted as free again. */
    method OpenTable(n: nat)
      requires n > 0 && read == FIELD_SIZE * n && packetLength > 0 && read + packetLength + readLen == buf.Length
      requires markLen == 0 && nbLines == 0 && data == [] && readId == 0 && net.pos <= |net.incoming|
      requires nbCols == 0 && readLen <= Most(room, net.incoming, extendSize, nbCols)
      requires goal == ParseColumns(net.incoming, net.pos, binary, n, []) && !goal.OutOfModel?
      modifies this`nbCols, this`cols, this`marks, this`countLen, this`columns, this`rows, this`since, this`start, this`readst
      ensures Sound() && Reading() && Describing() && nbCols == n && cols == []
    {
      hide ParseResult, ParseColumns, Represents, Describing, Drawn;
      NoColumns(n);
      nbCols, cols, countLen, readst := n, [], packetLength, Init;
      NoteTable();
    }

    /** The table stands for no descriptor yet. */
    ghost method NoteTable()
      requires nbCols > 0 && cols == [] && read == FIELD_SIZE * nbCols <= buf.Length
      requires data == [] && nbLines == 0 && readId == 0 && countLen > 0 && markLen == 0
      requires goal == ParseColumns(net.incoming, net.pos, binary, nbCols, []) && !goal.OutOfModel?
      modifies this`columns, this`marks, this`rows, this`since, this`start
      ensures Describing() && start == net.pos
    {
      hide ParseResult, ParseColumns, Represents;
      NothingStored(buf[..], nbCols);
      columns, marks, rows, since, start := [], [FIELD_SIZE * nbCols], [], [], net.pos;
    }

    /** Takes `size` bytes at the read position and clears them. */
    method ClearTable(size: nat) returns (ok: bool)
      requires read + packetLength + readLen == buf.Length && Shown() && data == []
      modifies this`buf, this`readLen, this`errorcode, this`read, this`data, this`grown, buf
      ensures buf == old(buf) || fresh(buf)
      ensures !ok ==> extendSize == 0 && errorcode == BUFFER_OVERSIZE
      ensures ok ==> read == old(read) + size && read + packetLength + readLen == buf.Length && data == []
      ensures ok ==> readLen <= old(readLen) || readLen <= extendSize
    {
      hide Drawn;
      ok := Reserve(size);
      if ok {
        Zero(buf, read, read + size);
        read := read + size;
        readLen := readLen - size;
      }
    }

    /** The request has been sent as far as `send` says, behind `before`; nothing of the answer has been read. */
    ghost predicate Requesting(before: seq<byte>)
      reads this, net, buf
    {
      && qst.Sending? && send < |cmd| && len == |cmd| - send && net.pos == origin <= |net.incoming|
      && nbCols == 0 && cols == [] && data == [] && rows == [] && since == [] && room == buf.Length && !Multi(status)
      && net.outgoing == before + cmd[..send] && goal == Target() && !goal.OutOfModel?
    }

    /** The request is sent, and the engine is between two reads of the answer. */
    ghost predicate Receiving(before: seq<byte>)
      reads this, net, buf
    {
      Sound() && Reading() && Resumable() && net.outgoing == before + cmd && goal == Target()
    }

    /** `mysac_send_query`, for a command that answers with rows: one call sends and receives as much as the socket takes
        and gives. The answer is that of the stream, however the bytes are cut and wherever the arena had to grow. */
    method SendQuery(ghost before: seq<byte>) returns (r: int)
      requires Requesting(before) || Receiving(before)
      modifies this`send, this`len, this`readst, this`packetLength, this`packetNumber, this`readLen, this`buf, this`errorcode,
               this`status, this`warnings, this`read, this`nbCols, this`readId, this`cols, this`data, this`cr, this`nbLines,
               this`marks, this`countLen, this`markLen, this`columns, this`rows, this`start, this`qst, this`grown, this`since
      modifies net`pos, net`stalls, net`outgoing, buf
      ensures buf == old(buf) || fresh(buf)
      ensures r == WANT_WRITE ==> Requesting(before)
      ensures r == WANT_READ ==> Receiving(before)
      ensures r == 0 ==> Finished() && net.outgoing == before + cmd
      ensures r !in {0, WANT_READ, WANT_WRITE} ==>
        r == errorcode && (goal == Failed(r) || (r == BUFFER_OVERSIZE && extendSize == 0))
      ensures net.pos >= old(net.pos) && net.stalls <= old(net.stalls)
      ensures |net.outgoing| >= old(|net.outgoing|)
      ensures r in {WANT_READ, WANT_WRITE} ==>
        || net.pos > old(net.pos) || net.stalls < old(net.stalls) || |net.outgoing| > old(|net.outgoing|)
        || goal.NeedMore?
    {
      hide Finished, Counting, Describing, Fetching, Collecting, Partial, ParseResult, Sound;
      if qst.Sending? {
        var go;
        go := SendRequest(before);
        if !go {
          return WANT_WRITE;
        }
      }
      r := Receive();
    }

    /** State MYSAC_SEND_QUERY. */
    method SendRequest(ghost before: seq<byte>) returns (go: bool)
      requires Requesting(before)
      modifies this`send, this`len, this`qst, this`readst, this`read, this`readLen, this`start, this`countLen, this`markLen
      modifies net`outgoing, net`stalls
      ensures net.stalls <= old(net.stalls) && |net.outgoing| >= old(|net.outgoing|)
      ensures !go ==> Requesting(before) && (net.stalls < old(net.stalls) || |net.outgoing| > old(|net.outgoing|))
      ensures go ==> Sound() && Reading() && Counting() && qst.RecvColNum? && net.outgoing == before + cmd
      ensures go ==> |net.outgoing| > old(|net.outgoing|)
    {
      hide ParseResult;
      ghost var was := send;
      var err := net.Write(cmd[send..]);
      if err == -1 {
        return false;
      }
      assert cmd[..was] + cmd[was..][..err] == cmd[..was + err];
      len := len - err;
      send := send + err;
      if len > 0 {
        return false;
      }
      assert cmd[..send] == cmd;
      StartAnswer();
      go := true;
    }

    /** The answer goes to the start of the arena. */
    method StartAnswer()
      requires net.pos == origin <= |net.incoming| && goal == Target() && !goal.OutOfModel?
      requires nbCols == 0 && cols == [] && data == [] && rows == [] && since == [] && room == buf.Length && !Multi(status)
      modifies this`qst, this`readst, this`read, this`readLen, this`start, this`countLen, this`markLen
      ensures Sound() && Reading() && Counting() && qst.RecvColNum?
    {
      hide ParseResult, HasPacket, Drawn;
      read, readLen := 0, buf.Length;
      qst, readst := RecvColNum, Init;
      NoteAnswer();
    }

    /** Nothing of the answer has been stored, and the whole arena is free. */
    ghost method NoteAnswer()
      requires net.pos == origin <= |net.incoming| && goal == Target() && !goal.OutOfModel?
      requires nbCols == 0 && cols == [] && data == [] && rows == [] && since == [] && room == buf.Length && !Multi(status)
      requires read == 0 && readLen == buf.Length && readst.Init?
      modifies this`start, this`countLen, this`markLen
      ensures Sound() && Reading() && Counting()
    {
      hide ParseResult, HasPacket, Drawn;
      NoColumns(0);
      start, countLen, markLen := origin, 0, 0;
    }

    /** The states behind MYSAC_SEND_QUERY, each falling through to the next. */
    method Receive() returns (r: int)
      requires Sound() && Reading() && Resumable()
      modifies this`len, this`readst, this`packetLength, this`packetNumber, this`readLen, this`buf, this`errorcode,
               this`status, this`warnings, this`read, this`nbCols, this`readId, this`cols, this`data, this`cr, this`nbLines,
               this`marks, this`countLen, this`markLen, this`columns, this`rows, this`start, this`qst, this`grown, this`since
      modifies net`pos, net`stalls, buf
      ensures buf == old(buf) || fresh(buf)
      ensures Goes(r) && Answer(r, Resumable())
    {
      hide Finished, Counting, Describing, Fetching, Collecting, Partial, Sound;
      var go: bool;
      if qst.RecvColNum? {
        go, r := RecvColCount();
        if !go {
          return;
        }
      }
      if qst.RecvColDesc? {
        go, r := RecvColumns();
        if !go {
          return;
        }
      }
      var reserved := true;
      if qst.RecvMarker? {
        go, r := RecvEof();
        if !go {
          return;
        }
        reserved := false;
      }
      r := RecvRows(reserved);
    }

    /** Where a call of the receive phase may go on. */
    ghost predicate Resumable()
      reads this, buf
    {
      match qst
      case Sending => false
      case RecvColNum => Counting()
      case RecvColDesc => Describing() && readId < nbCols
      case RecvMarker => Describing() && readId == nbCols
      case RecvData => Fetching()
    }

    lemma AboutRequest(before: seq<byte>)
      ensures Requesting(before) || Receiving(before) ==>
        && |net.outgoing| <= |before| + |cmd| && net.pos <= |net.incoming| && goal == Target()
    {
      hide Counting, Describing, Fetching, ParseResult;
    }

    lemma AboutResult()
      ensures Finished() ==> goal.Complete?
    {}

    /** `mysac_b_set_query`: the command for `query`, whose answer goes to the fresh result `res`. The command buffer has
        `bufSize` bytes. */
    method SetQuery(query: seq<byte>, res: array<byte>, bufSize: nat) returns (ret: int)
      requires bufSize >= 5 && |query| < TWO24 - 1 && net.pos <= |net.incoming| && !Multi(status)
      requires !ParseResult(net.incoming, net.pos, false).OutOfModel?
      modifies this
      ensures ret == if |query| > bufSize - 5 then -1 else 0
      ensures extendSize == old(extendSize)
      ensures ret == -1 ==> errorcode == BUFFER_TOO_SMALL
      ensures ret == 0 ==>
        && Requesting(net.outgoing) && !binary && buf == res && room == res.Length
        && cmd == Command(query) && CarriesQuery(cmd, query) && origin == net.pos
    {
      hide ParseResult, Command, CarriesQuery;
      if bufSize - 5 < |query| {
        errorcode := BUFFER_TOO_SMALL;
        len := 0;
        return -1;
      }
      cmd := Command(query);
      CommandRead(query);
      binary := false;
      send, len, qst := 0, |query| + 5, Sending;
      UseResult(res);
      ret := 0;
    }

    /** The answer goes to a fresh result, in `res`. */
    method UseResult(res: array<byte>)
      modifies this`buf, this`nbCols, this`cols, this`data, this`cr, this`nbLines, this`rows, this`since, this`room,
               this`origin, this`goal
      ensures room == res.Length && buf == res && nbCols == 0 && cols == [] && data == [] && rows == [] && since == []
      ensures origin == net.pos && goal == Target()
    {
      hide ParseResult;
      buf := res;
      nbCols, cols, cr, data, nbLines := 0, [], -1, [], 0;
      rows, since, room, origin := [], [], res.Length, net.pos;
      goal := Target();
    }
  }

  /** The event loop around `mysac_send_query`: it calls again whenever the socket is ready. For every stream that carries
      a whole result set, every way it is cut into reads, every stall of the socket, every size of the arena, every
      positive extension and wherever `realloc` puts the block, the loop ends with 0, the command has been sent once, the
      table holds the descriptors of the stream, and the list one row for each of its rows, in order. The rows are as they
      came if all columns are carried along or the block never moves; else they are what the moves have left of them.
      Only an arena that may not grow can end the loop otherwise. */
  method RunQuery(m: Mysac, ghost before: seq<byte>) returns (r: int)
    requires m.Requesting(before) && !m.Target().NeedMore?
    modifies m`send, m`len, m`readst, m`packetLength, m`packetNumber, m`readLen, m`buf, m`errorcode, m`status, m`warnings,
             m`read, m`nbCols, m`readId, m`cols, m`data, m`cr, m`nbLines, m`marks, m`countLen, m`markLen, m`columns, m`rows,
             m`start, m`qst, m`grown, m`since, m.net`pos, m.net`stalls, m.net`outgoing, m.buf
    ensures r == 0 ==> m.Finished() && m.net.outgoing == before + m.cmd
    ensures r == 0 && (Relocatable(Types(m.cols)) || Steady(m.shift)) ==> m.Undamaged()
    ensures r == 0 || r == m.errorcode
    ensures m.extendSize > 0 ==> r == match m.Target() case Failed(code) => code case _ => 0
    ensures r != 0 && m.extendSize == 0 ==> r == BUFFER_OVERSIZE || m.Target() == Failed(r)
  {
    hide Mysac.Finished, Mysac.Requesting, Mysac.Receiving, Mysac.Undamaged, Relocatable, Steady, Types, ParseResult;
    m.AboutRequest(before);
    r := m.SendQuery(before);
    m.AboutRequest(before);
    while r == WANT_READ || r == WANT_WRITE
      invariant r == WANT_WRITE ==> m.Requesting(before)
      invariant r == WANT_READ ==> m.Receiving(before)
      invariant r == 0 ==> m.Finished() && m.net.outgoing == before + m.cmd
      invariant r !in {0, WANT_READ, WANT_WRITE} ==>
        r == m.errorcode && (m.goal == Failed(r) || (r == BUFFER_OVERSIZE && m.extendSize == 0))
      invariant m.buf == old(m.buf) || fresh(m.buf)
      invariant r == WANT_READ || r == WANT_WRITE ==>
        |m.net.outgoing| <= |before| + |m.cmd| && m.net.pos <= |m.net.incoming|
      decreases r == WANT_READ || r == WANT_WRITE,
                |m.net.incoming| - m.net.pos + m.net.stalls + (|before| + |m.cmd| - |m.net.outgoing|)
    {
      r := m.SendQuery(before);
      m.AboutRequest(before);
    }
    m.AboutResult();
    if r == 0 {
      SafeRows(m);
    }
  }

  /** Two conditions on which no row of a finished answer is damaged. `Moves.CarriedExactly` tells that no other type of
      column could be let into the first. */
  lemma SafeRows(m: Mysac)
    requires m.Finished()
    ensures Relocatable(Types(m.cols)) || Steady(m.shift) ==> m.Undamaged()
  {
    if Relocatable(Types(m.cols)) || Steady(m.shift) {
      KeptWhole(m.rows, Types(m.cols), m.shift, m.since, m.grown);
    }
  }

  /** What a finished answer has left in the arena. */
  lemma RowsKept(m: Mysac)
    requires m.Finished()
    ensures Stored(m.buf[..], m.cols, m.marks, m.data, m.nbCols, m.read) && LoadColumns(m.buf[..], m.cols) == m.columns
    ensures LoadRows(m.buf[..], m.data) == m.Held()
    ensures m.Undamaged() <==> LoadRows(m.buf[..], m.data) == m.rows
  {
    assert m.data[..|m.data|] == m.data;
  }

  /** The packet of a query. */
  function Command(query: seq<byte>): (r: seq<byte>)
    ensures |r| == |query| + 5
  {
    ToLE(|query| + 1, 3) + [0, COM_QUERY] + query
  }

  /** `x` is one packet, numbered 0, that tells the server to run `query` (COM_QUERY). */
  ghost predicate CarriesQuery(x: seq<byte>, query: seq<byte>)
  {
    HasPacket(x, 0) && Next(x, 0) == |x| && x[3] == 0 && Payload(x, 0) == [3] + query
  }

  /** The server reads the query from the packet that is sent for it. */
  lemma CommandRead(query: seq<byte>)
    requires |query| < TWO24 - 1
    ensures CarriesQuery(Command(query), query)
  {
    hide LE, ToLE;
    var x := Command(query);
    Pow256Values();
    LEToLEExact(|query| + 1, 3);
    assert x[0..3] == ToLE(|query| + 1, 3);
    assert x[HEADER..] == [3] + query;
  }

  /** More than this is never left free of an arena that began with `room` bytes: what one request of memory can ask for,
      and one extension. */
  ghost function Most(room: nat, incoming: seq<byte>, extendSize: nat, nbCols: nat): nat
  {
    room + |incoming| + extendSize + HEADER + ROWS_SIZE + TM_SIZE + (FIELD_SIZE + CELL_SIZE + LENGTH_SIZE) * nbCols
  }

  lemma PacketFits(room: nat, s: seq<byte>, p: nat, extendSize: nat, nbCols: nat)
    ensures HasPacket(s, p) ==> LengthAt(s, p) + extendSize <= Most(room, s, extendSize, nbCols)
  {}

  /** Of the first rows, row k was stored when the block had been extended `since[k]` times; if it has not been since,
      at most `most` of its `size` bytes were free then. */
  ghost predicate Timely(since: seq<nat>, g: nat, recs: seq<RowRec>, size: int, most: nat)
  {
    && |since| <= |recs|
    && forall k :: 0 <= k < |since| ==> since[k] <= g && (since[k] == g ==> size <= recs[k].end + most)
  }

  lemma TimelyOn(since: seq<nat>, g: nat, recs: seq<RowRec>, size: int, g': nat, recs': seq<RowRec>, size': int, most: nat,
                 types: seq<ColType>, shift: nat -> int)
    requires Timely(since, g, recs, size, most) && g <= g' && (g == g' ==> size == size')
    requires recs' == RecsAfter(recs, types, shift, g, g')
    ensures Timely(since, g', recs', size', most)
  {}

  /** An arena of `length` bytes with the rows `was`, extended `g` times, has become one of `length'` bytes, extended
      `g'` times; each extension has made of the rows what it makes of them. */
  ghost predicate Grown(types: seq<ColType>, shift: nat -> int, was: seq<RowRec>, g: nat, length: nat,
                        now: seq<RowRec>, g': nat, length': nat)
  {
    && g <= g' && length <= length' && (g == g' ==> length == length')
    && now == RecsAfter(was, types, shift, g, g')
  }

  lemma NoColumns(n: nat)
    ensures Drawn(Picture([], n, []))
  {}

  lemma GrownNot(types: seq<ColType>, shift: nat -> int, was: seq<RowRec>, g: nat, length: nat)
    ensures Grown(types, shift, was, g, length, was, g, length)
  {
    RecsNext(was, types, shift, g, g);
  }

  lemma GrownOnce(types: seq<ColType>, shift: nat -> int, was: seq<RowRec>, g: nat, length: nat,
                  mid: seq<RowRec>, g': nat, length': nat, length'': nat)
    requires Grown(types, shift, was, g, length, mid, g', length') && length' <= length''
    ensures Grown(types, shift, was, g, length, RecsMoved(mid, types, shift(g')), g' + 1, length'')
  {
    RecsNext(was, types, shift, g, g');
  }

  lemma GrownJoin(types: seq<ColType>, shift: nat -> int, was: seq<RowRec>, g: nat, length: nat,
                  mid: seq<RowRec>, g': nat, length': nat, now: seq<RowRec>, g'': nat, length'': nat)
    requires Grown(types, shift, was, g, length, mid, g', length') && Grown(types, shift, mid, g', length', now, g'', length'')
    ensures Grown(types, shift, was, g, length, now, g'', length'')
  {
    hide RecsAfter;
    RecsJoin(was, types, shift, g, g', g'');
  }

  lemma GrownFirst(types: seq<ColType>, shift: nat -> int, was: seq<RowRec>, g: nat, length: nat,
                   now: seq<RowRec>, g': nat, length': nat, n: nat)
    requires Grown(types, shift, was, g, length, now, g', length') && n <= |was|
    ensures |now| == |was| && now[..n] == RecsAfter(was[..n], types, shift, g, g')
    ensures g <= g' && (g == g' ==> length == length')
  {
    hide CellsAfter;
  }

  lemma GrownLast(types: seq<ColType>, shift: nat -> int, was: seq<RowRec>, g: nat, length: nat,
                  now: seq<RowRec>, g': nat, length': nat, k: nat, read: nat)
    requires Grown(types, shift, was, g, length, now, g', length') && was != [] && Begun(was[|was| - 1], types, k, read)
    ensures |now| == |was| && now[|was| - 1] == was[|was| - 1]
  {
    hide Begun;
    BegunStays(was, types, k, read, shift, g, g');
  }

  lemma BegunAt(r: RowRec, types: seq<ColType>, k: nat, read: nat)
    requires Begun(r, types, k, read)
    ensures r.at + ROWS_SIZE <= r.body == r.end == read && |r.cells| == |types| && k <= |types|
  {}

  lemma BegunNow(at: nat, types: seq<ColType>)
    ensures var r, end := NewRow(at, |types|), at + ROWS_SIZE + |types| * (CELL_SIZE + LENGTH_SIZE);
            r.at == at && Begun(r, types, 0, end) && RecFits(r, types)
  {
    BegunFits(NewRow(at, |types|), types, 0, NewRow(at, |types|).end);
  }

  lemma BegunTm(r: RowRec, types: seq<ColType>, i: nat, read: nat)
    requires Begun(r, types, i, read) && i < |types| && IsDated(types[i])
    ensures |r.cells| == |types| && WithTm(r, i, read).at == r.at
    ensures Begun(WithTm(r, i, read), types, i + 1, read + TM_SIZE) && RecFits(WithTm(r, i, read), types)
  {
    BegunFits(WithTm(r, i, read), types, i + 1, read + TM_SIZE);
  }

  lemma LastHeader(mem: seq<byte>, cols: seq<Column<Slice>>, marks: seq<nat>, recs: seq<RowRec>, n: nat, read: nat,
                   columns: seq<Column<seq<byte>>>, rows: seq<Row>)
    requires Represents(mem, cols, marks, recs, n, read, columns, rows) && recs != []
    ensures recs[|recs| - 1].at + ROWS_SIZE <= read <= |mem|
  {
    assert Laid(recs[|recs| - 1]);
  }

  /** The `len` bytes at `read` are the ones the stream carries from `from` on. */
  ghost predicate Holds(mem: seq<byte>, read: nat, len: nat, stream: seq<byte>, from: nat)
  {
    read + len <= |mem| && from + len <= |stream| && mem[read..read + len] == stream[from..from + len]
  }

  /** The packet at `start` has been read as far as the packet reader's state says. */
  ghost predicate Partial(readst: ReadState, len: nat, packetLength: nat, mem: seq<byte>, read: nat, readLen: nat,
                          stream: seq<byte>, pos: nat, start: nat)
  {
    match readst
    case Init => pos == start
    case ReadLen => len < HEADER && pos == start + len && Holds(mem, read, len, stream, start)
    case ReadData =>
      && start + HEADER <= |stream| && packetLength == LengthAt(stream, start) && len < packetLength
      && len <= readLen && pos == start + HEADER + len && Holds(mem, read, len, stream, start + HEADER)
    case DecodeData => false
  }

  /** `n` is the sequence number in the header of the packet at `start`, widened from a `char`. */
  ghost predicate Numbered(n: nat, stream: seq<byte>, start: nat)
  {
    start + HEADER <= |stream| && n == CharToUint(stream[start + 3])
  }

  /** The packet at `start` is in memory at `read`. */
  ghost predicate Whole(packetLength: nat, mem: seq<byte>, read: nat, stream: seq<byte>, pos: nat, start: nat)
  {
    && HasPacket(stream, start) && pos == Next(stream, start)
    && packetLength == LengthAt(stream, start) && read + packetLength <= |mem|
    && mem[read..read + packetLength] == Payload(stream, start)
  }

  lemma HeaderPart(readst: ReadState, len: nat, packetLength: nat, mem: seq<byte>, read: nat, readLen: nat,
                   stream: seq<byte>, pos: nat, start: nat)
    requires Partial(readst, len, packetLength, mem, read, readLen, stream, pos, start) && pos <= |stream|
    ensures readst.Init? ==> pos == start && (read <= |mem| ==> Holds(mem, read, 0, stream, start))
    ensures readst.ReadLen? ==> len < HEADER && pos == start + len && Holds(mem, read, len, stream, start)
  {}

  lemma BodyPart(len: nat, packetLength: nat, mem: seq<byte>, read: nat, readLen: nat,
                 stream: seq<byte>, pos: nat, start: nat)
    requires Partial(ReadData, len, packetLength, mem, read, readLen, stream, pos, start)
    ensures len < packetLength && len <= readLen && start + HEADER <= |stream|
    ensures pos == start + HEADER + len && Holds(mem, read, len, stream, start + HEADER)
    ensures packetLength == LengthAt(stream, start)
  {}

  lemma StartsPartial(readst: ReadState, len: nat, packetLength: nat, mem: seq<byte>, read: nat, readLen: nat,
                      stream: seq<byte>, pos: nat, start: nat)
    requires readst.ReadLen? ==> len < HEADER && pos == start + len && Holds(mem, read, len, stream, start)
    requires readst.ReadData? ==>
      && start + HEADER <= |stream| && packetLength == LengthAt(stream, start) && len < packetLength
      && len <= readLen && pos == start + HEADER + len
      && (len > 0 ==> Holds(mem, read, len, stream, start + HEADER)) && read <= |mem|
    requires readst.ReadLen? || readst.ReadData?
    ensures Partial(readst, len, packetLength, mem, read, readLen, stream, pos, start)
  {}

  lemma HoldsOn(mem: seq<byte>, mem': seq<byte>, read: nat, len: nat, stream: seq<byte>, from: nat)
    requires len > 0 ==> Holds(mem, read, len, stream, from)
    requires Agree(mem, mem', 0, |mem|) && read <= |mem'| && from <= |stream|
    ensures Holds(mem', read, len, stream, from)
  {
    if len > 0 { AgreeSlice(mem, mem', read, read + len); }
  }

  /** Bytes that arrive behind those already read continue them. */
  lemma Appended(mem: seq<byte>, mem': seq<byte>, read: nat, had: nat, have: nat, stream: seq<byte>, from: nat)
    requires had <= have && read + have <= |mem'| == |mem| && from + have <= |stream|
    requires Holds(mem, read, had, stream, from) && Agree(mem, mem', read, read + had)
    requires mem'[read + had..read + have] == stream[from + had..from + have]
    ensures Holds(mem', read, have, stream, from)
  {
    AgreeSlice(mem, mem', read, read + had);
    assert mem'[read..read + have] == mem'[read..read + had] + mem'[read + had..read + have];
    assert stream[from..from + have] == stream[from..from + had] + stream[from + had..from + have];
  }

  lemma WholeAt(packetLength: nat, mem: seq<byte>, read: nat, stream: seq<byte>, pos: nat, start: nat)
    requires Whole(packetLength, mem, read, stream, pos, start)
    ensures HasPacket(stream, start) && start < pos == Next(stream, start)
    ensures read + packetLength <= |mem| && mem[read..read + packetLength] == Payload(stream, start)
  {}

  lemma BodyRead(mem: seq<byte>, read: nat, stream: seq<byte>, pos: nat, start: nat, packetLength: nat)
    requires start + HEADER <= |stream| && packetLength == LengthAt(stream, start)
    requires Holds(mem, read, packetLength, stream, start + HEADER) && pos == start + HEADER + packetLength
    ensures Whole(packetLength, mem, read, stream, pos, start)
  {}

  /** The length of a packet whose header is in the arena. */
  lemma HeaderRead(mem: seq<byte>, read: nat, stream: seq<byte>, start: nat)
    requires Holds(mem, read, HEADER, stream, start)
    ensures LengthAt(stream, start) == LE(mem[read..read + 3]) && mem[read + 3] == stream[start + 3]
  {
    assert mem[read + 3] == mem[read..read + HEADER][3] == stream[start..start + HEADER][3];
    SubSlice(mem, read, read + HEADER, 0, 3);
    SubSlice(stream, start, start + HEADER, 0, 3);
  }
}
