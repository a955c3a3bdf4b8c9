/** The result set carried by a byte stream of the server: a pure parser of the whole stream, independent of how the
    bytes arrive and of where they are stored. */
module Stream {
  import opened Bytes
  import opened Result
  import opened Field
  import TextRow
  import BinaryRow

  type Value = Cell<seq<byte>>
  type Row = seq<Value>

  /** What the receiver makes of the stream. OutOfModel stands for streams on which the code leaves this model:
      an empty packet, an end marker shorter than five bytes, no columns, an end marker that announces another result
      set, a length prefix beyond 64 bits, or a binary row the decoder reads beyond. */
  datatype Outcome =
    | NeedMore
    | OutOfModel
    | Failed(code: int)
    | Complete(columns: seq<Column<seq<byte>>>, rows: seq<Row>, end: nat)

  const HEADER := 4

  function LengthAt(s: seq<byte>, p: nat): nat
    requires p + HEADER <= |s|
  {
    LE(s[p..p + 3])
  }

  predicate EmptyAt(s: seq<byte>, p: nat)
  {
    p + HEADER <= |s| && LengthAt(s, p) == 0
  }

  /** The packet at `p` is there to its last byte. */
  predicate HasPacket(s: seq<byte>, p: nat)
  {
    p + HEADER <= |s| && p + HEADER + LengthAt(s, p) <= |s|
  }

  function Payload(s: seq<byte>, p: nat): (r: seq<byte>)
    requires HasPacket(s, p)
    ensures |r| == LengthAt(s, p)
  {
    s[p + HEADER..p + HEADER + LengthAt(s, p)]
  }

  function Next(s: seq<byte>, p: nat): (q: nat)
    requires HasPacket(s, p)
    ensures p < q <= |s|
  {
    p + HEADER + LengthAt(s, p)
  }

  /** An end marker without its status, or an empty packet. */
  predicate Unreadable(s: seq<byte>, p: nat)
  {
    EmptyAt(s, p) || (HasPacket(s, p) && Payload(s, p)[0] == 254 && LengthAt(s, p) < 5)
  }

  /** Classification of a packet when data is expected. */
  datatype Packet = ErrorPacket(code: int) | EndPacket | DataPacket

  function Classify(x: seq<byte>): Packet
    requires |x| > 0
  {
    if x[0] == 255 then ErrorPacket(if |x| > 3 then MYSQL_ERROR else PROTOCOL_ERROR)
    else if x[0] == 254 then EndPacket
    else DataPacket
  }

  /** Server status of an end marker, and its RESPONSE_MULTI_RESULTS bit. */
  function Status(x: seq<byte>): nat
    requires |x| >= 5
  {
    LE(x[3..5])
  }

  predicate Multi(status: nat)
  {
    status / 8 % 2 == 1
  }

  lemma MultiBit(status: nat)
    ensures Multi(status) <==> BinaryRow.And(status, 0x0008) != 0
  {
    assert BinaryRow.And(status, 8) == 2 * BinaryRow.And(status / 2, 4);
    assert BinaryRow.And(status / 2, 4) == 2 * BinaryRow.And(status / 4, 2);
    assert BinaryRow.And(status / 4, 2) == 2 * BinaryRow.And(status / 8, 1);
    assert BinaryRow.And(status / 8, 1) == status / 8 % 2;
  }

  function Types<T>(columns: seq<Column<T>>): (r: seq<ColType>)
    ensures |r| == |columns|
  {
    seq(|columns|, k requires 0 <= k < |columns| => TypeOf(columns[k].typeCode))
  }

  function DecodeRow(binary: bool, types: seq<ColType>, x: seq<byte>): Decoded<Row>
  {
    if binary then BinaryRow.ParseRow(types, x) else TextRow.ParseRow(types, x)
  }

  /** The rows from `p` on, behind those already read. */
  function ParseRows(s: seq<byte>, p: nat, binary: bool, columns: seq<Column<seq<byte>>>, rows: seq<Row>): Outcome
    decreases |s| - p
  {
    if Unreadable(s, p) then OutOfModel
    else if !HasPacket(s, p) then NeedMore
    else
      var x := Payload(s, p);
      match Classify(x)
      case ErrorPacket(code) => Failed(code)
      case EndPacket => if Multi(Status(x)) then OutOfModel else Complete(columns, rows, Next(s, p))
      case DataPacket =>
        match DecodeRow(binary, Types(columns), x)
        case Bad(code) => Failed(code)
        case Unmodelled => OutOfModel
        case Good(row) => ParseRows(s, Next(s, p), binary, columns, rows + [row])
  }

  /** The end marker of the column descriptors, and the rows. */
  function ParseMarker(s: seq<byte>, p: nat, binary: bool, columns: seq<Column<seq<byte>>>): Outcome
  {
    if Unreadable(s, p) then OutOfModel
    else if !HasPacket(s, p) then NeedMore
    else
      var x := Payload(s, p);
      match Classify(x)
      case ErrorPacket(code) => Failed(code)
      case DataPacket => Failed(PROTOCOL_ERROR)
      case EndPacket => ParseRows(s, Next(s, p), binary, columns, [])
  }

  /** The column descriptors from `p` on, up to the `n`-th. */
  function ParseColumns(s: seq<byte>, p: nat, binary: bool, n: nat, columns: seq<Column<seq<byte>>>): Outcome
    requires |columns| <= n
    decreases n - |columns|
  {
    if |columns| == n then ParseMarker(s, p, binary, columns)
    else if Unreadable(s, p) then OutOfModel
    else if !HasPacket(s, p) then NeedMore
    else
      var x := Payload(s, p);
      match Classify(x)
      case ErrorPacket(code) => Failed(code)
      case EndPacket => Failed(PROTOCOL_ERROR)
      case DataPacket =>
        match ParseField(x)
        case Bad(code) => Failed(code)
        case Unmodelled => OutOfModel
        case Good(c) => ParseColumns(s, Next(s, p), binary, n, columns + [c])
  }

  /** A whole result set: the number of columns is the first byte of the first packet. */
  function ParseResult(s: seq<byte>, p: nat, binary: bool): Outcome
  {
    if Unreadable(s, p) then OutOfModel
    else if !HasPacket(s, p) then NeedMore
    else
      var x := Payload(s, p);
      match Classify(x)
      case ErrorPacket(code) => Failed(code)
      case EndPacket => Failed(PROTOCOL_ERROR)
      case DataPacket => if x[0] == 0 then OutOfModel else ParseColumns(s, Next(s, p), binary, x[0], [])
  }

  /** One packet of the row phase. */
  lemma RowsStep(s: seq<byte>, p: nat, binary: bool, columns: seq<Column<seq<byte>>>, rows: seq<Row>)
    requires !ParseRows(s, p, binary, columns, rows).OutOfModel?
    ensures !Unreadable(s, p)
    ensures var r := ParseRows(s, p, binary, columns, rows);
            if !HasPacket(s, p) then r == NeedMore
            else
              match Classify(Payload(s, p))
              case ErrorPacket(code) => r == Failed(code)
              case EndPacket => !Multi(Status(Payload(s, p))) && r == Complete(columns, rows, Next(s, p))
              case DataPacket =>
                var d := DecodeRow(binary, Types(columns), Payload(s, p));
                && !d.Unmodelled? && (d.Bad? ==> r == Failed(d.code))
                && (d.Good? ==> r == ParseRows(s, Next(s, p), binary, columns, rows + [d.value]))
  {
    hide DecodeRow, Payload, LengthAt;
  }

  /** The end marker of the descriptors. */
  lemma MarkerStep(s: seq<byte>, p: nat, binary: bool, columns: seq<Column<seq<byte>>>)
    requires !ParseMarker(s, p, binary, columns).OutOfModel?
    ensures !Unreadable(s, p)
    ensures var r := ParseMarker(s, p, binary, columns);
            if !HasPacket(s, p) then r == NeedMore
            else
              match Classify(Payload(s, p))
              case ErrorPacket(code) => r == Failed(code)
              case DataPacket => r == Failed(PROTOCOL_ERROR)
              case EndPacket => r == ParseRows(s, Next(s, p), binary, columns, [])
  {
    hide ParseRows, Payload, LengthAt;
  }

  /** One descriptor. */
  lemma ColumnsStep(s: seq<byte>, p: nat, binary: bool, n: nat, columns: seq<Column<seq<byte>>>)
    requires |columns| < n && !ParseColumns(s, p, binary, n, columns).OutOfModel?
    ensures !Unreadable(s, p)
    ensures var r := ParseColumns(s, p, binary, n, columns);
            if !HasPacket(s, p) then r == NeedMore
            else
              match Classify(Payload(s, p))
              case ErrorPacket(code) => r == Failed(code)
              case EndPacket => r == Failed(PROTOCOL_ERROR)
              case DataPacket =>
                var d := ParseField(Payload(s, p));
                && !d.Unmodelled? && (d.Bad? ==> r == Failed(d.code))
                && (d.Good? ==> r == ParseColumns(s, Next(s, p), binary, n, columns + [d.value]))
  {
    hide ParseMarker, ParseField, Payload, LengthAt;
  }

  /** The packet with the number of columns. */
  lemma ResultStep(s: seq<byte>, p: nat, binary: bool)
    requires !ParseResult(s, p, binary).OutOfModel?
    ensures !Unreadable(s, p)
    ensures var r := ParseResult(s, p, binary);
            if !HasPacket(s, p) then r == NeedMore
            else
              match Classify(Payload(s, p))
              case ErrorPacket(code) => r == Failed(code)
              case EndPacket => r == Failed(PROTOCOL_ERROR)
              case DataPacket =>
                var n := Payload(s, p)[0];
                n > 0 && r == ParseColumns(s, Next(s, p), binary, n, [])
  {
    hide ParseColumns, Payload, LengthAt;
  }
}
