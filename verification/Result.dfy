/** Column types, row cells and result codes shared by the decoders (mysac.h and the MySQL client headers). */
module Result {
  import opened Bytes

  /* enum_field_types */
  datatype ColType =
    | Decimal | Tiny | Short | Long | Float | Double | NullType | Timestamp | LongLong | Int24
    | Date | Time | DateTime | Year | NewDate | VarChar | Bit
    | NewDecimal | Enum | Set | TinyBlob | MediumBlob | LongBlob | Blob | VarString | String | Geometry
    | Unlisted(code: byte)

  function TypeOf(code: byte): ColType
  {
    match code
    case 0 => Decimal
    case 1 => Tiny
    case 2 => Short
    case 3 => Long
    case 4 => Float
    case 5 => Double
    case 6 => NullType
    case 7 => Timestamp
    case 8 => LongLong
    case 9 => Int24
    case 10 => Date
    case 11 => Time
    case 12 => DateTime
    case 13 => Year
    case 14 => NewDate
    case 15 => VarChar
    case 16 => Bit
    case 246 => NewDecimal
    case 247 => Enum
    case 248 => Set
    case 249 => TinyBlob
    case 250 => MediumBlob
    case 251 => LongBlob
    case 252 => Blob
    case 253 => VarString
    case 254 => String
    case 255 => Geometry
    case _ => Unlisted(code)
  }

  /** Columns for which a `struct tm` is reserved in every row. */
  predicate IsDated(t: ColType)
  {
    t.Time? || t.Year? || t.Timestamp? || t.DateTime? || t.Date?
  }

  /** Columns whose cells the decoders keep as bytes. */
  predicate IsText(t: ColType)
  {
    || t.NullType? || t.TinyBlob? || t.MediumBlob? || t.LongBlob? || t.Blob? || t.Bit?
    || t.String? || t.VarString? || t.VarChar? || t.NewDate?
  }

  datatype Tm = Tm(year: int, mon: int, mday: int, hour: int, min: int, sec: int)

  const ZERO_TM := Tm(0, 0, 0, 0, 0, 0)

  /** One MYSAC_ROW, with the entry of the length table for byte cells. `T` is where the bytes are: a slice of the
      arena, or the bytes themselves. */
  datatype Cell<T> =
    | Null
    | Text(text: T)
    | Small(small: int)            // stiny, ssmall, sint
    | Big(big: int)                // sbigint
    | Real(real_: real)            // mfloat, mdouble, converted from text
    | Ieee(bits: nat)              // mfloat, mdouble, as their stored bits
    | Interval(sec: int, usec: int) // tv
    | Moment(tm: Tm)               // pointer to the reserved struct tm
    | Unset                        // whatever the memory held

  /** Bytes `[at, at + len)` of the arena, with a terminator behind them. */
  datatype Slice = Slice(at: nat, len: nat)

  /** What a cell holds before its packet arrives. */
  function Initial<T>(t: ColType): Cell<T>
  {
    if IsDated(t) then Moment(ZERO_TM) else Unset
  }

  /** The slice lies in the arena from `lo` on and ends, terminator included, by `hi`. */
  ghost predicate Within(s: Slice, lo: nat, hi: nat)
  {
    lo <= s.at && s.at + s.len < hi
  }

  /** The cells' bytes and terminators lie between `lo` and `hi`, one behind the other. */
  ghost predicate Packed(cells: seq<Cell<Slice>>, lo: nat, hi: nat)
  {
    && (forall j :: 0 <= j < |cells| && cells[j].Text? ==> Within(cells[j].text, lo, hi))
    && (forall i, j :: 0 <= i < j < |cells| && cells[i].Text? && cells[j].Text? ==>
          cells[i].text.at + cells[i].text.len < cells[j].text.at)
  }

  ghost predicate Terminated(mem: seq<byte>, cells: seq<Cell<Slice>>)
  {
    forall j :: 0 <= j < |cells| && cells[j].Text? ==>
      cells[j].text.at + cells[j].text.len < |mem| && mem[cells[j].text.at + cells[j].text.len] == 0
  }

  /** The value a cell stands for. */
  ghost function Load(mem: seq<byte>, c: Cell<Slice>): Cell<seq<byte>>
    requires c.Text? ==> c.text.at + c.text.len <= |mem|
  {
    match c
    case Text(s) => Text(mem[s.at..s.at + s.len])
    case Null => Null
    case Small(v) => Small(v)
    case Big(v) => Big(v)
    case Real(v) => Real(v)
    case Ieee(v) => Ieee(v)
    case Interval(s, u) => Interval(s, u)
    case Moment(t) => Moment(t)
    case Unset => Unset
  }

  ghost function LoadAll(mem: seq<byte>, cells: seq<Cell<Slice>>): (vs: seq<Cell<seq<byte>>>)
    requires Terminated(mem, cells)
    ensures |vs| == |cells|
  {
    seq(|cells|, j requires 0 <= j < |cells| => Load(mem, cells[j]))
  }

  /** Bytes outside `[lo, hi)` do not matter to cells packed inside. */
  lemma LoadStable(mem: seq<byte>, mem': seq<byte>, cells: seq<Cell<Slice>>, lo: nat, hi: nat)
    requires Terminated(mem, cells) && Packed(cells, lo, hi) && Agree(mem, mem', lo, hi)
    ensures Terminated(mem', cells) && LoadAll(mem', cells) == LoadAll(mem, cells)
  {
    forall j | 0 <= j < |cells|
      ensures cells[j].Text? ==>
        cells[j].text.at + cells[j].text.len < |mem'| && mem'[cells[j].text.at + cells[j].text.len] == 0
      ensures Load(mem', cells[j]) == Load(mem, cells[j])
    {
      if cells[j].Text? {
        var s := cells[j].text;
        AgreeSlice(mem, mem', s.at, s.at + s.len);
      }
    }
  }

  /* The MYERR codes the receive path returns. */
  const PROTOCOL_ERROR := 1
  const BUFFER_OVERSIZE := 2
  const MYSQL_ERROR := 7
  const BINFIELD_CORRUPT := 17
  const BAD_LCB := 18
  const LEN_OVER_BUFFER := 19
  const CONVLONG := 20
  const CONVFLOAT := 22
  const CONVDOUBLE := 23
  const CONVTIME := 24
  const CONVTIMESTAMP := 25
  const CONVDATE := 26

  /** A decoded packet, an error code, or a packet outside this model. */
  datatype Decoded<T> = Good(value: T) | Bad(code: int) | Unmodelled
}
